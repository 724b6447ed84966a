/** The chat assistant's responder: an ordered classifier over a static table of keyword
    categories. It tries a substring pass, then a fuzzy token-against-keyword pass, then a
    list of small-talk phrases, then a default reply. */
module ChatBot {
  import opened Wrappers
  import opened Text
  import opened Fuzzy

  /** One entry of the response table: its key and the keywords that select it. */
  datatype Intent = Intent(name: string, keywords: seq<string>)

  const ServicesIntent: Intent :=
    Intent("services",
      ["service", "services", "خدمات", "تطوير", "website", "web", "application", "app", "mobile", "development", "design", "ui", "ux", "marketing", "seo", "store", "ecommerce", "digital"])

  const PricingIntent: Intent :=
    Intent("pricing",
      ["price", "pricing", "cost", "budget", "كم", "سعر", "أسعار", "تكلفة", "money", "فلوس", "دينار", "quote", "estimate"])

  const PortfolioIntent: Intent :=
    Intent("portfolio",
      ["portfolio", "projects", "work", "examples", "case", "study", "أعمال", "مشاريع", "معرض", "نماذج"])

  const ContactIntent: Intent :=
    Intent("contact",
      ["contact", "email", "phone", "reach", "talk", "support", "تواصل", "اتصال", "ايميل", "رقم", "واتساب"])

  const TimelineIntent: Intent :=
    Intent("timeline",
      ["time", "timeline", "duration", "schedule", "deadline", "مدة", "وقت", "متى", "كم يستغرق"])

  const SupportIntent: Intent :=
    Intent("support",
      ["support", "maintenance", "help", "issue", "bug", "مشكلة", "دعم", "صيانة", "trouble", "error"])

  const TechnologyIntent: Intent :=
    Intent("technology",
      ["tech", "technology", "stack", "framework", "react", "vue", "node", "laravel", "django", "database", "تقنية", "برمجة", "لغة", "framework", "ووردبريس", "wordpress", "javascript"])

  const PaymentIntent: Intent :=
    Intent("payment",
      ["payment", "pay", "methods", "plan", "تقسيط", "دفع", "فيزا", "بطاقة", "bank", "transfer"])

  const LocationIntent: Intent :=
    Intent("location",
      ["location", "where", "city", "algeria", "الجزائر", "جزائر", "موقع", "عنوان"])

  const GreetingIntent: Intent :=
    Intent("greeting",
      ["hello", "hi", "hey", "مرحبا", "اهلا", "السلام", "good morning", "good evening", "morning", "evening"])

  const GuaranteeIntent: Intent :=
    Intent("guarantee",
      ["guarantee", "warranty", "ضمان", "refund", "استرجاع", "كفالة"])

  /** The response table in declaration order; the exact pass scans it in this order. */
  const Table: seq<Intent> := [
    ServicesIntent,
    PricingIntent,
    PortfolioIntent,
    ContactIntent,
    TimelineIntent,
    SupportIntent,
    TechnologyIntent,
    PaymentIntent,
    LocationIntent,
    GreetingIntent,
    GuaranteeIntent
  ]

  /** The small-talk fallbacks: each regex is an alternation of literal phrases. */
  datatype SmallTalk = SmallTalk(phrases: seq<string>, reply: string)

  const SmallTalkTable: seq<SmallTalk> := [
    SmallTalk(["thank", "شكرا"], "You\U{2019}re welcome! Happy to help. 😊"),
    SmallTalk(["how are you", "كيف حالك"], "All good here 🤖 Ready to support your project goals."),
    SmallTalk(["your name", "اسمك", "who are you"],
      "I\U{2019}m the Ria Academy AI Assistant ready to answer project questions instantly."),
    SmallTalk(["demo", "prototype", "تجربة", "عينة"],
      "We can provide a prototype or wireframe before full development for alignment."),
    SmallTalk(["why", "لماذا", "ليش"],
      "We combine 150+ deliveries, measurable results, clear process, performance & security focus, and ongoing partnership.")
  ]

  /** A fuzzy match must score strictly above this. */
  const Threshold: real := 0.55

  /** Some phrase of the list occurs in `txt` (the regex alternation, or `keywords.some`). */
  predicate Mentions(txt: string, phrases: seq<string>)
    decreases |phrases|
  {
    phrases != [] && (Contains(txt, phrases[0]) || Mentions(txt, phrases[1..]))
  }

  lemma {:induction false} MentionsIff(txt: string, phrases: seq<string>)
    ensures Mentions(txt, phrases) <==> exists k :: 0 <= k < |phrases| && Contains(txt, phrases[k])
    decreases |phrases|
  {
    if phrases != [] {
      MentionsIff(txt, phrases[1..]);
      if Mentions(txt, phrases[1..]) {
        var k :| 0 <= k < |phrases[1..]| && Contains(txt, phrases[1..][k]);
        assert Contains(txt, phrases[k + 1]);
      }
      forall k | 1 <= k < |phrases| && Contains(txt, phrases[k])
        ensures Mentions(txt, phrases[1..])
      {
        assert phrases[1..][k - 1] == phrases[k];
      }
    }
  }

  /** `lists[i]` is the first list, in order, that `txt` mentions. */
  predicate FirstMentioned(txt: string, lists: seq<seq<string>>, i: int) {
    0 <= i < |lists| && Mentions(txt, lists[i]) && forall j :: 0 <= j < i ==> !Mentions(txt, lists[j])
  }

  /** Index of the first list, in order, that `txt` mentions. */
  function FirstHit(txt: string, lists: seq<seq<string>>): (r: Option<nat>)
    ensures r.Some? ==> FirstMentioned(txt, lists, r.value)
    ensures r.None? <==> forall j :: 0 <= j < |lists| ==> !Mentions(txt, lists[j])
    decreases |lists|
  {
    if lists == [] then None
    else if Mentions(txt, lists[0]) then Some(0)
    else
      match FirstHit(txt, lists[1..])
      case None => None
      case Some(k) => Some(k + 1)
  }

  function KeywordLists(table: seq<Intent>): (r: seq<seq<string>>)
    ensures |r| == |table| && forall i :: 0 <= i < |table| ==> r[i] == table[i].keywords
  {
    seq(|table|, i requires 0 <= i < |table| => table[i].keywords)
  }

  function PhraseLists(talk: seq<SmallTalk>): (r: seq<seq<string>>)
    ensures |r| == |talk| && forall i :: 0 <= i < |talk| ==> r[i] == talk[i].phrases
  {
    seq(|talk|, i requires 0 <= i < |talk| => talk[i].phrases)
  }

  /** The token separators: `\s+|[,.;:!?]+`. */
  predicate IsTokenSeparator(c: char) {
    IsSpace(c) || c in ",.;:!?"
  }

  /** `txt.split(/\s+|[,.;:!?]+/).filter(Boolean)`. */
  function Tokens(txt: string): (r: seq<string>)
    ensures forall k :: 0 <= k < |r| ==> IsWord(r[k], IsTokenSeparator)
    ensures Concat(r) == Keep(txt, IsTokenSeparator)
  {
    Split(txt, IsTokenSeparator)
  }

  /** A (token, keyword) pair of the fuzzy pass, with the index of the keyword's intent. */
  datatype Candidate = Candidate(token: string, intent: nat, keyword: string)

  function ScoreOf(c: Candidate): real {
    Score(c.token, c.keyword)
  }

  predicate Pairs(tokens: seq<string>, table: seq<Intent>, c: Candidate) {
    c.token in tokens && c.intent < |table| && c.keyword in table[c.intent].keywords
  }

  /** The candidates for one token, intents from `i` on, in table order. */
  function TokenCandidates(t: string, table: seq<Intent>, i: nat): (r: seq<Candidate>)
    ensures forall c :: c in r <==>
      c.token == t && i <= c.intent < |table| && c.keyword in table[c.intent].keywords
    decreases |table| - i
  {
    if i >= |table| then []
    else
      var kws := table[i].keywords;
      var here := seq(|kws|, k requires 0 <= k < |kws| => Candidate(t, i, kws[k]));
      assert forall c :: c in here <==> c.token == t && c.intent == i && c.keyword in kws by {
        forall c: Candidate | c.token == t && c.intent == i && c.keyword in kws
          ensures c in here
        {
          var k :| 0 <= k < |kws| && kws[k] == c.keyword;
          assert here[k] == c;
        }
      }
      here + TokenCandidates(t, table, i + 1)
  }

  /** Every (token, keyword) pair, tokens outermost, as the nested `forEach` visits them. */
  function Candidates(tokens: seq<string>, table: seq<Intent>): (r: seq<Candidate>)
    ensures forall c :: c in r <==> Pairs(tokens, table, c)
    decreases |tokens|
  {
    if tokens == [] then []
    else TokenCandidates(tokens[0], table, 0) + Candidates(tokens[1..], table)
  }

  /** The running best of the fuzzy pass: its score and the category that reached it. */
  datatype Best = Best(score: real, cat: Option<nat>)

  /** `cs[k]` beats `floor`, is the first candidate of its score, and `r` records it. */
  predicate FirstMaxAt(cs: seq<Candidate>, k: int, floor: real, r: Best) {
    && 0 <= k < |cs|
    && floor < ScoreOf(cs[k])
    && r == Best(ScoreOf(cs[k]), Some(cs[k].intent))
    && forall j :: 0 <= j < k ==> ScoreOf(cs[j]) < ScoreOf(cs[k])
  }

  /** The fuzzy scan: a candidate replaces the running best only when it scores strictly
      more. The result is the starting best when nothing beats it, and otherwise the FIRST
      candidate of maximal score. */
  function ArgMax(cs: seq<Candidate>, acc: Best): (r: Best)
    ensures forall j :: 0 <= j < |cs| ==> ScoreOf(cs[j]) <= r.score
    ensures acc.score <= r.score
    ensures r == acc <==> forall j :: 0 <= j < |cs| ==> ScoreOf(cs[j]) <= acc.score
    ensures r != acc ==> exists k :: FirstMaxAt(cs, k, acc.score, r)
    decreases |cs|
  {
    if cs == [] then acc
    else
      var s := ScoreOf(cs[0]);
      var next := if s > acc.score then Best(s, Some(cs[0].intent)) else acc;
      var r := ArgMax(cs[1..], next);
      FirstMaxShift(cs, acc, next, r);
      r
  }

  /** Carries the scan's result over the head candidate. */
  lemma FirstMaxShift(cs: seq<Candidate>, acc: Best, next: Best, r: Best)
    requires cs != []
    requires next == if ScoreOf(cs[0]) > acc.score then Best(ScoreOf(cs[0]), Some(cs[0].intent)) else acc
    requires r != next ==> exists k :: FirstMaxAt(cs[1..], k, next.score, r)
    requires next.score <= r.score
    ensures r != acc ==> exists k :: FirstMaxAt(cs, k, acc.score, r)
  {
    if r != next {
      var k :| FirstMaxAt(cs[1..], k, next.score, r);
      assert forall j :: 1 <= j <= k + 1 ==> cs[1..][j - 1] == cs[j];
      assert FirstMaxAt(cs, k + 1, acc.score, r);
    } else if r != acc {
      assert FirstMaxAt(cs, 0, acc.score, r);
    }
  }

  /** The candidates of a lower-cased message. */
  function MessageCandidates(txt: string): seq<Candidate> {
    Candidates(Tokens(txt), Table)
  }

  /** `c` is a candidate of `txt` above the threshold that no other candidate beats. */
  predicate BestCandidate(txt: string, c: Candidate) {
    && c in MessageCandidates(txt)
    && ScoreOf(c) > Threshold
    && forall d :: d in MessageCandidates(txt) ==> ScoreOf(d) <= ScoreOf(c)
  }

  /** `cs[k]` scores above the threshold and is the first candidate of the highest score
      among `cs`. */
  predicate FirstBest(cs: seq<Candidate>, k: int) {
    && 0 <= k < |cs|
    && ScoreOf(cs[k]) > Threshold
    && (forall j :: 0 <= j < k ==> ScoreOf(cs[j]) < ScoreOf(cs[k]))
    && (forall j :: 0 <= j < |cs| ==> ScoreOf(cs[j]) <= ScoreOf(cs[k]))
  }

  /** The fuzzy pass fires, naming a category, exactly when some candidate scores above the
      threshold, and the category it names is that of a best-scoring candidate. */
  function FuzzyPass(txt: string): (r: Option<nat>)
    ensures r.Some? <==> exists c :: c in MessageCandidates(txt) && ScoreOf(c) > Threshold
    ensures r.Some? ==> exists c :: BestCandidate(txt, c) && c.intent == r.value
  {
    var cs := MessageCandidates(txt);
    var best := ArgMax(cs, Best(0.0, None));
    if best.cat.Some? && best.score > Threshold then best.cat else None
  }

  /** Which best-scoring candidate names the category: the first one in visiting order,
      since a later candidate replaces the running best only when it scores strictly
      more. */
  lemma FuzzyPassFirstBest(txt: string)
    ensures FuzzyPass(txt).Some? ==>
      exists k :: FirstBest(MessageCandidates(txt), k) && MessageCandidates(txt)[k].intent == FuzzyPass(txt).value
  {
    var cs := MessageCandidates(txt);
    var best := ArgMax(cs, Best(0.0, None));
    if FuzzyPass(txt).Some? {
      var k :| FirstMaxAt(cs, k, 0.0, best);
      assert FirstBest(cs, k);
    }
  }

  /** Ties are broken by visiting order: only one candidate is the first best. */
  lemma FirstBestUnique(cs: seq<Candidate>, k: int, m: int)
    requires FirstBest(cs, k) && FirstBest(cs, m)
    ensures k == m
  {
  }

  /** A candidate of the first best's score also beats the threshold and is unbeaten, the
      property a caller of the fuzzy pass can rely on without the visiting order. */
  lemma FirstBestIsBest(txt: string, k: int)
    requires FirstBest(MessageCandidates(txt), k)
    ensures BestCandidate(txt, MessageCandidates(txt)[k])
  {
  }

  /** The reply of each category of the response table. Characters lost in the script's
      own double encoding are written as U+FFFD. */
  function CategoryReply(name: string): string {
    match name
    case "services" =>
      "Our core services:\n\n\U{FFFD} Web Development (custom, fast, SEO-ready)\n📱 Mobile Apps (iOS / Android / Cross\U{2011}platform)\n\U{FFFD} E\U{2011}Commerce & Payment Integration\n\U{FFFD} UI / UX Design & Prototyping\n⚙\U{FFFD} Custom Software & APIs\n\U{FFFD} Growth & Performance Optimization\n\U{FFFD}\U{FFFD} Security & Maintenance\n\nNeed details or pricing for any of these? Just ask."
    case "pricing" =>
      "Pricing guidance (ranges – final quote depends on scope):\n\n💻 Business Website: 50k–120k DZD\n🛒 E\U{2011}Commerce: 150k–280k DZD\n📱 Mobile App (MVP): 200k–450k DZD\n⚙\U{FFFD} Custom Platform / SaaS: 250k–600k+ DZD\n🎨 Brand / UI Kit: 15k–60k DZD\n\nIncluded: planning, QA, deployment, 30\U{2011}day warranty. Ask for a free tailored quote."
    case "portfolio" =>
      "We’ve delivered 150+ successful projects:\n\n✅ Corporate & Institutional Sites\n✅ Learning & Medical Apps\n✅ Booking & Service Platforms\n✅ E\U{2011}Commerce & Marketplaces\n✅ Analytics & Dashboards\n✅ Custom Internal Systems\n\nBrowse the Portfolio section above or ask about a specific industry."
    case "contact" =>
      "You can reach us via:\n\n📧 Email: riaacademy.dz@gmail.com\n💬 WhatsApp: click the green floating button\n📸 Instagram: @riaacademy_official\n▶\U{FFFD} YouTube: RiaAcademy\n\U{FFFD} Location: Algiers (serving clients worldwide)\n🕒 Typical reply: under 24h (faster on WhatsApp)\n\nSend your project brief and we’ll follow up with clear next steps."
    case "timeline" =>
      "Typical delivery timelines:\n\n⚡ Landing Page: 1–2 weeks\n\U{FFFD} Corporate Website: 3–6 weeks\n🛒 E\U{2011}Commerce: 6–10 weeks\n📱 Mobile App MVP: 8–14 weeks\n🧩 Custom Platform: 10–16+ weeks\n\nFast\U{2011}track available (reduce 10–30%) with dedicated team."
    case "support" =>
      "Support & maintenance tiers:\n\n\U{FFFD} Basic: 30\U{2011}day warranty & bug fixes\n\U{FFFD} Standard: security patches, content updates, monitoring\n\U{FFFD} Premium: 24/7 SLA, performance tuning, feature iteration\n\nAll tiers include secure backups & version tracking."
    case "technology" =>
      "Primary stack:\n\nFrontend: React, Next.js, Vue, TypeScript\nBackend: Node.js, Laravel, Django, FastAPI\nMobile: Flutter, React Native\nDB: PostgreSQL, MongoDB, MySQL\nCloud: AWS, GCP, Vercel\nDevOps: Docker, CI/CD, GitHub Actions\nSecurity: HTTPS, RBAC, audits, monitoring\n\nWe select based on scalability & maintainability."
    case "payment" =>
      "Payment options:\n\n💳 Card / Stripe\n\U{FFFD} Bank transfer\n💰 Local cash (where applicable)\n🪙 Crypto (USDT / ETH / BTC on request)\n📅 Milestone / installment for larger scopes\n\nStandard: 50% upfront, remainder on approved delivery."
    case "location" =>
      "We’re based in Algiers 🇩\U{FFFD} and work remotely with clients across Algeria, MENA, Europe & North America."
    case "greeting" =>
      "Welcome to Ria Academy! 😊 I can help with services, pricing, timeline, technology, or a proposal. What would you like to know?"
    case "guarantee" =>
      "Quality & assurance:\n\n✅ Structured delivery process\n✅ Transparent milestones & demos\n✅ 30\U{2011}day post\U{2011}launch warranty\n✅ Performance & security checklist\n✅ Optional SLA for long\U{2011}term evolution"
    case _ => DefaultReply
  }

  /** The reply when no pass selects anything. */
  const DefaultReply: string :=
    "Thanks! 👌 I didn’t find an exact match. Ask about: services, pricing, timeline, tech stack, portfolio, or support. Try being more specific (e.g. \"e\U{2011}commerce pricing\" or \"mobile app timeline\")."

  /** Which pass produced the reply. */
  datatype Answer = FromCategory(index: nat) | FromSmallTalk(index: nat) | Fallback

  function Reply(a: Answer): string {
    match a
    case FromCategory(i) => if i < |Table| then CategoryReply(Table[i].name) else DefaultReply
    case FromSmallTalk(j) => if j < |SmallTalkTable| then SmallTalkTable[j].reply else DefaultReply
    case Fallback => DefaultReply
  }

  predicate NoKeyword(txt: string) {
    forall i :: 0 <= i < |Table| ==> !Mentions(txt, Table[i].keywords)
  }

  predicate FuzzyQuiet(txt: string) {
    forall c :: c in MessageCandidates(txt) ==> ScoreOf(c) <= Threshold
  }

  /** `generateResponse`, as the pass that answers: the first category whose keyword occurs
      in the lower-cased text; else the fuzzy pass; else the first small-talk phrase list
      that occurs; else the default. */
  function Classify(message: string): (r: Answer)
    ensures r.FromCategory? ==> r.index < |Table|
    ensures r.FromSmallTalk? ==> FirstMentioned(AsciiLower(message), PhraseLists(SmallTalkTable), r.index)
    ensures !NoKeyword(AsciiLower(message)) ==>
      r.FromCategory? && FirstMentioned(AsciiLower(message), KeywordLists(Table), r.index)
    ensures r.FromCategory? <==> !NoKeyword(AsciiLower(message)) || !FuzzyQuiet(AsciiLower(message))
    ensures NoKeyword(AsciiLower(message)) && !FuzzyQuiet(AsciiLower(message)) ==>
      FuzzyPass(AsciiLower(message)).Some? && r == FromCategory(FuzzyPass(AsciiLower(message)).value)
    ensures r.Fallback? <==>
      NoKeyword(AsciiLower(message)) && FuzzyQuiet(AsciiLower(message))
      && FirstHit(AsciiLower(message), PhraseLists(SmallTalkTable)).None?
  {
    var txt := AsciiLower(message);
    match FirstHit(txt, KeywordLists(Table))
    case Some(i) => FromCategory(i)
    case None =>
      match FuzzyPass(txt)
      case Some(i) => FromCategory(i)
      case None =>
        match FirstHit(txt, PhraseLists(SmallTalkTable))
        case Some(j) => FromSmallTalk(j)
        case None => Fallback
  }

  /** `generateResponse(message)`. */
  function GenerateResponse(message: string): string {
    Reply(Classify(message))
  }

  /** "support" is a keyword of both `contact` (index 3) and `support` (index 5); `contact`
      comes first, so a message containing "support" in any letter case is answered by
      `contact` or an earlier category, never by `support`. */
  lemma SupportKeywordGoesToContact(message: string)
    requires Contains(AsciiLower(message), "support")
    ensures Table[3].name == "contact" && Table[5].name == "support"
    ensures Table[5].keywords[0] == "support"
    ensures Classify(message).FromCategory? && Classify(message).index <= 3
  {
    var txt := AsciiLower(message);
    assert Table[3].keywords[5] == "support";
    MentionsIff(txt, Table[3].keywords);
    assert !NoKeyword(txt);
  }

  /** Lower-casing the message first changes nothing. */
  lemma ClassifyIgnoresCase(message: string)
    ensures Classify(AsciiLower(message)) == Classify(message)
  {
    AsciiLowerIdempotent(message);
  }

  /** The table has eleven categories, each with at least one keyword, and no keyword is
      empty (an empty keyword would occur in every message). */
  lemma TableShape()
    ensures |Table| == 11
    ensures forall i :: 0 <= i < |Table| ==> Table[i].keywords != []
    ensures forall i, k :: 0 <= i < |Table| && 0 <= k < |Table[i].keywords| ==> Table[i].keywords[k] != []
  {
  }

  /** Small talk tried before the fuzzy pass: the exact pass still answers first, and a
      small-talk phrase is answered as such whenever no keyword occurs. */
  function ClassifySmallTalkFirst(message: string): (r: Answer)
    ensures r.FromCategory? ==> r.index < |Table|
    ensures !NoKeyword(AsciiLower(message)) ==>
      r.FromCategory? && FirstMentioned(AsciiLower(message), KeywordLists(Table), r.index)
    ensures NoKeyword(AsciiLower(message)) ==>
      match FirstHit(AsciiLower(message), PhraseLists(SmallTalkTable))
      case Some(j) => r == FromSmallTalk(j)
      case None => r == Classify(message)
  {
    var txt := AsciiLower(message);
    match FirstHit(txt, KeywordLists(Table))
    case Some(i) => FromCategory(i)
    case None =>
      match FirstHit(txt, PhraseLists(SmallTalkTable))
      case Some(j) => FromSmallTalk(j)
      case None =>
        match FuzzyPass(txt)
        case Some(i) => FromCategory(i)
        case None => Fallback
  }

  /** The reply with small talk tried before the fuzzy pass. */
  function Respond(message: string): string {
    Reply(ClassifySmallTalkFirst(message))
  }

  lemma ThanksCharSet()
    ensures CharSet("thanks") == {'t', 'h', 'a', 'n', 'k', 's'}
    ensures |CharSet("thanks")| == 6
  {
  }

  lemma StackCharSet()
    ensures CharSet("stack") == {'s', 't', 'a', 'c', 'k'}
    ensures |CharSet("stack")| == 5
  {
  }

  lemma ThanksStackShared()
    ensures |CharSet("thanks") * CharSet("stack")| == 4
  {
    ThanksCharSet();
    StackCharSet();
    assert CharSet("thanks") * CharSet("stack") == {'t', 'a', 'k', 's'};
  }

  lemma ThanksStackUnits()
    ensures Units("thanks") == 6 && Units("stack") == 5
  {
    var t, k := "thanks", "stack";
    assert forall i :: 0 <= i < |t| ==> t[i] < '\U{10000}';
    assert forall i :: 0 <= i < |k| ==> k[i] < '\U{10000}';
  }

  /** The score of a six-character token against a five-character keyword sharing four
      characters: 0.7 * 4/7 + 0.3 * (1 - 1/6). */
  lemma SixFiveFourScore(a: string, b: string)
    requires a != b && Units(a) == 6 && Units(b) == 5
    requires |CharSet(a)| == 6 && |CharSet(b)| == 5 && |CharSet(a) * CharSet(b)| == 4
    ensures Score(a, b) == 0.65
  {
    assert Diff(a, b) == 1 && MaxLen(a, b) == 6;
    ScoreFromCounts(a, b, 6, 5, 4);
  }

  lemma ThanksStackScore()
    ensures Score("thanks", "stack") == 0.65
  {
    ThanksCharSet();
    StackCharSet();
    ThanksStackShared();
    ThanksStackUnits();
    SixFiveFourScore("thanks", "stack");
  }

  lemma ThanksTokens()
    ensures Tokens("thanks") == ["thanks"]
  {
    assert IsWord("thanks", IsTokenSeparator);
    SplitWord("thanks", IsTokenSeparator);
  }

  lemma StackIsTechnologyKeyword()
    ensures 6 < |Table| && "stack" in Table[6].keywords
  {
    assert TechnologyIntent.keywords[2] == "stack";
  }

  lemma ThanksCandidates()
    ensures Candidate("thanks", 6, "stack") in MessageCandidates("thanks")
  {
    ThanksTokens();
    StackIsTechnologyKeyword();
    assert Pairs(["thanks"], Table, Candidate("thanks", 6, "stack"));
  }

  /** "thanks" mentions the first small-talk phrase, yet the code answers it with a
      category: the token scores 0.65 against the `technology` keyword "stack", above the
      threshold, so the fuzzy pass fires before small talk is tried. */
  lemma ThanksShadowedByFuzzy()
    ensures FirstHit("thanks", PhraseLists(SmallTalkTable)) == Some(0)
    ensures Classify("thanks").FromCategory?
    ensures Classify("thanks") != FromSmallTalk(0)
  {
    assert AsciiLower("thanks") == "thanks";
    ThanksCandidates();
    ThanksStackScore();
    assert ScoreOf(Candidate("thanks", 6, "stack")) > Threshold;
    assert !FuzzyQuiet("thanks");
    assert Contains("thanks", "thank");
    assert Mentions("thanks", SmallTalkTable[0].phrases);
  }

  /** A sender of a chat line. */
  datatype Sender = User | Bot

  datatype Line = Line(sender: Sender, text: string)

  /** The chat window: its lines, the input box and the count of lines added. */
  datatype Chat = Chat(lines: seq<Line>, input: string, count: nat)

  predicate Counted(chat: Chat) {
    chat.count == |chat.lines|
  }

  /** `sendMessage`, with the typing delay left out: a blank input is ignored; otherwise
      the trimmed text is logged, the input is cleared and the responder's reply to the
      trimmed text follows it. */
  function SendMessage(chat: Chat, respond: string -> string): (r: Chat)
    ensures AllSpace(chat.input) ==> r == chat
    ensures !AllSpace(chat.input) ==>
      && r.input == []
      && r.lines == chat.lines + [Line(User, Trim(chat.input)), Line(Bot, respond(Trim(chat.input)))]
      && Trim(chat.input) != []
    ensures Counted(chat) ==> Counted(r)
  {
    TrimEmptyIff(chat.input);
    var message := Trim(chat.input);
    if message == [] then chat
    else Chat(chat.lines + [Line(User, message), Line(Bot, respond(message))], [], chat.count + 2)
  }
}
