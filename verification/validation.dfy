/** The contact-form validator: a rule table per script, the per-field check in its fixed
    order, and the whole-form check that validates every field. */
module Validation {
  import opened Wrappers
  import opened Text
  import opened Variants

  /** The `pattern` regexes of the two rule tables. */
  datatype Pattern =
    | LettersAndSpaces       // name, current:  /^[\p{L}\s]+$/u
    | AsciiLettersAndSpaces  // name, legacy:   /^[a-zA-Z\s]+$/
    | EmailShape             // email, both:    /^[^\s@]+@[^\s@]+\.[^\s@]+$/
    | PhoneLoose             // phone, current: /^[\+]?[0-9\s\-]{7,15}$/
    | PhoneStrict            // phone, legacy:  /^[\+]?[1-9][\d]{0,15}$/

  /** One entry of `validationRules`. A `minLength` of 0 stands for an absent one: the
      code tests `rules.minLength && ...`, which is false for both. */
  datatype Rule = Rule(required: bool, minLength: nat, pattern: Option<Pattern>, message: string)

  const NameMessage := "Please enter a valid name (letters and spaces only, minimum 2 characters)"
  const EmailMessage := "Please enter a valid email address"
  const ServiceMessage := "Please select a service"
  const DetailsMessage := "Please provide project details (minimum 10 characters)"
  const RequiredMessage := "This field is required"

  const NameRule := Rule(true, 2, Some(LettersAndSpaces), NameMessage)
  const LegacyNameRule := Rule(true, 2, Some(AsciiLettersAndSpaces), NameMessage)
  const EmailRule := Rule(true, 0, Some(EmailShape), EmailMessage)
  /** The current phone rule has an empty message. */
  const PhoneRule := Rule(false, 0, Some(PhoneLoose), "")
  const LegacyPhoneRule := Rule(false, 0, Some(PhoneStrict), "Please enter a valid phone number")
  const ServiceRule := Rule(true, 0, None, ServiceMessage)
  const DetailsRule := Rule(true, 10, None, DetailsMessage)

  /** `validationRules` of each script, keyed by the field's `name`. */
  function Rules(variant: Variant): map<string, Rule> {
    match variant
    case Current =>
      map["name" := NameRule, "email" := EmailRule, "phone" := PhoneRule,
          "service" := ServiceRule, "message" := DetailsRule]
    case Legacy =>
      map["name" := LegacyNameRule, "email" := EmailRule, "phone" := LegacyPhoneRule,
          "service" := ServiceRule, "message" := DetailsRule]
  }

  // ---------------------------------------------------------------------------------
  // The patterns, as string predicates

  predicate IsAsciiLetter(c: char) {
    ('a' <= c <= 'z') || ('A' <= c <= 'Z')
  }

  predicate IsDigit(c: char) {
    '0' <= c <= '9'
  }

  /** `s` is one or more characters, each in the class. */
  predicate AllIn(s: string, inClass: char -> bool) {
    |s| > 0 && forall i :: 0 <= i < |s| ==> inClass(s[i])
  }

  /** A character of `[^\s@]`. */
  predicate Plain(c: char) {
    c != '@' && !IsSpace(c)
  }

  /** The email regex read literally: `s` splits at an `@` (index `i`) and a later `.`
      (index `j`) into three non-empty runs of `[^\s@]`. */
  predicate EmailAt(s: string, i: int, j: int) {
    && 0 < i && i + 1 < j && j + 1 < |s|
    && s[i] == '@' && s[j] == '.'
    && AllIn(s[..i], Plain) && AllIn(s[i + 1..j], Plain) && AllIn(s[j + 1..], Plain)
  }

  /** The first index of `c` in `s`. */
  function IndexOf(s: string, c: char): (r: Option<nat>)
    ensures r.Some? ==> r.value < |s| && s[r.value] == c && c !in s[..r.value]
    ensures r.None? ==> c !in s
  {
    if s == [] then None
    else if s[0] == c then Some(0)
    else
      match IndexOf(s[1..], c)
      case None => None
      case Some(k) =>
        assert s[..k + 1] == [s[0]] + s[1..][..k];
        Some(k + 1)
  }

  /** The email check as a scan: find the `@`; the part before it is non-empty, neither part
      holds white space or another `@`, and the part after it has a `.` that is neither its
      first nor its last character. */
  predicate MatchEmail(s: string) {
    match IndexOf(s, '@')
    case None => false
    case Some(i) =>
      var domain := s[i + 1..];
      && AllIn(s[..i], Plain)
      && |domain| >= 3 && AllIn(domain, Plain)
      && '.' in domain[1..|domain| - 1]
  }

  /** The scan accepts exactly the strings of the regex's shape. */
  lemma EmailMatchIff(s: string)
    ensures MatchEmail(s) <==> exists i, j :: EmailAt(s, i, j)
  {
    if MatchEmail(s) {
      var i := IndexOf(s, '@').value;
      var domain := s[i + 1..];
      var inner := domain[1..|domain| - 1];
      var d :| 0 <= d < |inner| && inner[d] == '.';
      var j := i + 2 + d;
      assert s[j] == '.';
      assert s[i + 1..j] == domain[..d + 1];
      assert s[j + 1..] == domain[d + 2..];
      assert EmailAt(s, i, j);
    }
    if i, j :| EmailAt(s, i, j) {
      assert '@' !in s[..i] by {
        forall k | 0 <= k < i
          ensures s[..i][k] != '@'
        {
          assert Plain(s[..i][k]);
        }
      }
      assert IndexOf(s, '@') == Some(i);
      var domain := s[i + 1..];
      assert AllIn(domain, Plain) by {
        forall k | 0 <= k < |domain|
          ensures Plain(domain[k])
        {
          if k < j - i - 1 {
            assert domain[k] == s[i + 1..j][k];
          } else if k > j - i - 1 {
            assert domain[k] == s[j + 1..][k - (j - i)];
          }
        }
      }
      assert domain[1..|domain| - 1][j - i - 2] == '.';
    }
  }

  predicate PhoneLooseChar(c: char) {
    IsDigit(c) || IsSpace(c) || c == '-'
  }

  /** `[0-9\s\-]{7,15}` */
  predicate LooseBody(s: string) {
    7 <= |s| <= 15 && AllIn(s, PhoneLooseChar)
  }

  /** `[1-9][\d]{0,15}` */
  predicate StrictBody(s: string) {
    1 <= |s| <= 16 && '1' <= s[0] <= '9' && AllIn(s, IsDigit)
  }

  /** Drops one leading `+`: the `[\+]?` of both phone regexes. Neither body class holds
      `+`, so the optional sign can only ever match the first character. */
  function DropPlus(s: string): string {
    if |s| > 0 && s[0] == '+' then s[1..] else s
  }

  /** The loose phone regex read literally, with both choices for `[\+]?`. */
  predicate PhoneLooseRegex(s: string) {
    LooseBody(s) || (|s| > 0 && s[0] == '+' && LooseBody(s[1..]))
  }

  /** The strict phone regex read literally, with both choices for `[\+]?`. */
  predicate PhoneStrictRegex(s: string) {
    StrictBody(s) || (|s| > 0 && s[0] == '+' && StrictBody(s[1..]))
  }

  /** `pattern.test(s)`. The Unicode letter class `\p{L}` is the parameter `letter`. */
  predicate Matches(p: Pattern, s: string, letter: char -> bool) {
    match p
    case LettersAndSpaces => AllIn(s, c => letter(c) || IsSpace(c))
    case AsciiLettersAndSpaces => AllIn(s, c => IsAsciiLetter(c) || IsSpace(c))
    case EmailShape => MatchEmail(s)
    case PhoneLoose => LooseBody(DropPlus(s))
    case PhoneStrict => StrictBody(DropPlus(s))
  }

  /** Checking the body after dropping one `+` is the regex's optional sign. */
  lemma PhoneMatchesRegex(s: string, letter: char -> bool)
    ensures Matches(PhoneLoose, s, letter) <==> PhoneLooseRegex(s)
    ensures Matches(PhoneStrict, s, letter) <==> PhoneStrictRegex(s)
  {
    if |s| > 0 && s[0] == '+' {
      assert !PhoneLooseChar(s[0]) && !IsDigit(s[0]);
    }
  }

  // ---------------------------------------------------------------------------------
  // validateField

  /** The outcome of `validateField`: valid, or which of its checks failed. */
  datatype Verdict = Pass | FailRequired | FailPattern | FailMinLength

  /** What a trimmed value must satisfy under a rule, with no regard to check order:
      empty is fine exactly when the field is optional; otherwise the pattern matches
      and the value is long enough. Length is `value.length`, counted in UTF-16 code units
      (`Units`). */
  predicate Acceptable(rule: Rule, v: string, letter: char -> bool) {
    if v == [] then !rule.required
    else (rule.pattern.None? || Matches(rule.pattern.value, v, letter)) && Units(v) >= rule.minLength
  }

  /** The checks of `validateField` on an already trimmed value `v` under a rule, in the
      code's order: required, pattern, minimum length, the first failure deciding. */
  function CheckRule(rule: Rule, v: string, letter: char -> bool): (r: Verdict)
    ensures r == Pass <==> Acceptable(rule, v, letter)
    ensures r == FailRequired <==> rule.required && v == []
    ensures r == FailPattern <==> v != [] && rule.pattern.Some? && !Matches(rule.pattern.value, v, letter)
    ensures r == FailMinLength <==>
              v != [] && (rule.pattern.None? || Matches(rule.pattern.value, v, letter)) && Units(v) < rule.minLength
  {
    if rule.required && v == [] then FailRequired
    else if v == [] && !rule.required then Pass
    else if rule.pattern.Some? && !Matches(rule.pattern.value, v, letter) then FailPattern
    else if rule.minLength > 0 && Units(v) < rule.minLength then FailMinLength
    else Pass
  }

  /** `validateField` on a field `name` holding `value`: a field without a rule is valid;
      otherwise the trimmed value goes through the rule's checks. */
  function ValidateField(variant: Variant, letter: char -> bool, name: string, value: string): (r: Verdict)
    ensures name !in Rules(variant) ==> r == Pass
    ensures name in Rules(variant) ==> (r == Pass <==> Acceptable(Rules(variant)[name], Trim(value), letter))
    ensures name in Rules(variant) && Rules(variant)[name].required ==> (r == FailRequired <==> AllSpace(value))
  {
    if name !in Rules(variant) then Pass
    else
      TrimEmptyIff(value);
      CheckRule(Rules(variant)[name], Trim(value), letter)
  }

  /** The text `showFieldError` puts under the field, or None when the error is cleared:
      the fixed required text, otherwise the rule's own message for both a pattern and a
      length failure. */
  function ErrorText(variant: Variant, name: string, verdict: Verdict): (r: Option<string>)
    ensures verdict == Pass ==> r == None
    ensures verdict == FailRequired ==> r == Some(RequiredMessage)
    ensures (verdict == FailPattern || verdict == FailMinLength) && name in Rules(variant) ==>
              r == Some(Rules(variant)[name].message)
  {
    match verdict
    case Pass => None
    case FailRequired => Some(RequiredMessage)
    case _ => Some(if name in Rules(variant) then Rules(variant)[name].message else [])
  }

  /** The letter class contains at least the ASCII letters and no white space, which is
      all the lemmas below need of `\p{L}`. */
  predicate LetterClass(letter: char -> bool) {
    forall c :: (IsAsciiLetter(c) ==> letter(c)) && (IsSpace(c) ==> !letter(c))
  }


  lemma NameEntries()
    ensures "name" in Rules(Current) && Rules(Current)["name"] == NameRule
    ensures "name" in Rules(Legacy) && Rules(Legacy)["name"] == LegacyNameRule
  {
  }

  lemma EmailEntry(variant: Variant)
    ensures "email" in Rules(variant) && Rules(variant)["email"] == EmailRule
  {
  }

  lemma PhoneEntries()
    ensures "phone" in Rules(Current) && Rules(Current)["phone"] == PhoneRule
    ensures "phone" in Rules(Legacy) && Rules(Legacy)["phone"] == LegacyPhoneRule
  {
  }

  /** A value without edge white space, whose check under the field's rule gives `v`,
      gets `v` from `validateField`. */
  lemma FieldVerdict(variant: Variant, letter: char -> bool, name: string, value: string, rule: Rule, v: Verdict)
    requires name in Rules(variant) && Rules(variant)[name] == rule
    requires value != [] && !IsSpace(value[0]) && !IsSpace(value[|value| - 1])
    requires CheckRule(rule, value, letter) == v
    ensures ValidateField(variant, letter, name, value) == v
  {
    TrimNoEdgeSpace(value);
  }

  lemma TrimNoEdgeSpace(s: string)
    requires s != [] && !IsSpace(s[0]) && !IsSpace(s[|s| - 1])
    ensures Trim(s) == s
  {
    var r := Trim(s);
    var i :| TrimmedAt(s, r, i);
  }

  lemma ShortNameChecks(letter: char -> bool)
    requires LetterClass(letter)
    ensures CheckRule(NameRule, "A", letter) == FailMinLength
    ensures CheckRule(LegacyNameRule, "A", letter) == FailMinLength
  {
    assert IsAsciiLetter("A"[0]);
    assert letter("A"[0]);
  }

  /** "A" passes the name pattern but is one character short; both scripts report the
      name rule's message. */
  lemma ShortNameFailsOnLength(letter: char -> bool)
    requires LetterClass(letter)
    ensures ValidateField(Current, letter, "name", "A") == FailMinLength
    ensures ValidateField(Legacy, letter, "name", "A") == FailMinLength
    ensures ErrorText(Current, "name", FailMinLength) == Some(NameMessage)
  {
    ShortNameChecks(letter);
    NameEntries();
    FieldVerdict(Current, letter, "name", "A", NameRule, FailMinLength);
    FieldVerdict(Legacy, letter, "name", "A", LegacyNameRule, FailMinLength);
  }

  lemma FullNameChecks(letter: char -> bool)
    requires LetterClass(letter)
    ensures CheckRule(NameRule, "Ana Li", letter) == Pass
    ensures CheckRule(LegacyNameRule, "Ana Li", letter) == Pass
  {
    var s := "Ana Li";
    assert forall k :: 0 <= k < |s| ==> IsAsciiLetter(s[k]) || IsSpace(s[k]);
    assert Matches(LettersAndSpaces, s, letter);
    assert Matches(AsciiLettersAndSpaces, s, letter);
  }

  /** "Ana Li" passes in both scripts. */
  lemma FullNamePasses(letter: char -> bool)
    requires LetterClass(letter)
    ensures ValidateField(Current, letter, "name", "Ana Li") == Pass
    ensures ValidateField(Legacy, letter, "name", "Ana Li") == Pass
  {
    FullNameChecks(letter);
    NameEntries();
    FieldVerdict(Current, letter, "name", "Ana Li", NameRule, Pass);
    FieldVerdict(Legacy, letter, "name", "Ana Li", LegacyNameRule, Pass);
  }

  lemma NoAtNoEmail(s: string)
    requires '@' !in s
    ensures !MatchEmail(s)
  {
  }

  lemma GoodEmail()
    ensures MatchEmail("a@b.co")
  {
    var good := "a@b.co";
    assert good[0] != '@' && good[1] == '@';
    assert good[1..][0] == '@';
    assert IndexOf(good[1..], '@') == Some(0);
    assert IndexOf(good, '@') == Some(1);
    assert good[..1] == "a" && good[2..] == "b.co";
    assert "b.co"[1..3][0] == '.';
    assert AllIn("a", Plain);
    assert AllIn("b.co", Plain);
  }

  lemma NotAnEmailCheck(letter: char -> bool)
    ensures CheckRule(EmailRule, "not-an-email", letter) == FailPattern
  {
    NoAtNoEmail("not-an-email");
  }

  lemma GoodEmailCheck(letter: char -> bool)
    ensures CheckRule(EmailRule, "a@b.co", letter) == Pass
  {
    GoodEmail();
  }

  /** "not-an-email" fails the email pattern and "a@b.co" passes it. */
  lemma EmailExamples(variant: Variant, letter: char -> bool)
    ensures ValidateField(variant, letter, "email", "not-an-email") == FailPattern
    ensures ValidateField(variant, letter, "email", "a@b.co") == Pass
  {
    EmailEntry(variant);
    NotAnEmailCheck(letter);
    FieldVerdict(variant, letter, "email", "not-an-email", EmailRule, FailPattern);
    GoodEmailCheck(letter);
    FieldVerdict(variant, letter, "email", "a@b.co", EmailRule, Pass);
  }

  /** Every name the legacy ASCII-only pattern accepts, the current Unicode pattern accepts
      too. */
  lemma LegacyNameAcceptedByCurrent(letter: char -> bool, value: string)
    requires LetterClass(letter)
    requires ValidateField(Legacy, letter, "name", value) == Pass
    ensures ValidateField(Current, letter, "name", value) == Pass
  {
    NameEntries();
  }

  lemma ArabicNameChecks(letter: char -> bool)
    requires LetterClass(letter)
    requires letter('ع') && letter('ل') && letter('ي')
    ensures CheckRule(NameRule, "علي", letter) == Pass
    ensures CheckRule(LegacyNameRule, "علي", letter) == FailPattern
  {
    var s := "علي";
    assert forall k :: 0 <= k < |s| ==> letter(s[k]);
    assert Matches(LettersAndSpaces, s, letter);
    assert !IsAsciiLetter(s[0]) && !IsSpace(s[0]);
    assert !Matches(AsciiLettersAndSpaces, s, letter);
  }

  /** An Arabic name passes the current pattern (whose letter class includes Arabic
      letters) but not the legacy one. */
  lemma ArabicNameOnlyCurrent(letter: char -> bool)
    requires LetterClass(letter)
    requires letter('ع') && letter('ل') && letter('ي')
    ensures ValidateField(Current, letter, "name", "علي") == Pass
    ensures ValidateField(Legacy, letter, "name", "علي") == FailPattern
  {
    ArabicNameChecks(letter);
    NameEntries();
    FieldVerdict(Current, letter, "name", "علي", NameRule, Pass);
    FieldVerdict(Legacy, letter, "name", "علي", LegacyNameRule, FailPattern);
  }

  /** Five emoji are ten code units, which meets the ten-character minimum of the
      message field although they are only five characters. */
  lemma EmojiMessagePasses(variant: Variant, letter: char -> bool, s: string)
    requires |s| == 5 && forall i :: 0 <= i < |s| ==> s[i] >= '\U{10000}'
    ensures ValidateField(variant, letter, "message", s) == Pass
  {
    UnitsAstral(s);
    assert "message" in Rules(variant) && Rules(variant)["message"] == DetailsRule;
    FieldVerdict(variant, letter, "message", s, DetailsRule, Pass);
  }

  /** The phone field is optional: an empty or blank value passes in both scripts. */
  lemma BlankPhonePasses(variant: Variant, letter: char -> bool, value: string)
    requires AllSpace(value)
    ensures ValidateField(variant, letter, "phone", value) == Pass
  {
    PhoneEntries();
    TrimEmptyIff(value);
  }

  lemma SingleDigitChecks(letter: char -> bool)
    ensures CheckRule(LegacyPhoneRule, "5", letter) == Pass
    ensures CheckRule(PhoneRule, "5", letter) == FailPattern
  {
    assert StrictBody("5");
    assert !LooseBody("5");
  }

  lemma SpacedNumberChecks(letter: char -> bool)
    ensures CheckRule(PhoneRule, "0555 12 34", letter) == Pass
    ensures CheckRule(LegacyPhoneRule, "0555 12 34", letter) == FailPattern
  {
    var s := "0555 12 34";
    assert forall k :: 0 <= k < |s| ==> PhoneLooseChar(s[k]);
    assert LooseBody(s);
    assert !StrictBody(s);
  }

  /** A single digit passes only the legacy phone pattern. The current phone rule's
      message is empty, so its error shows no text. */
  lemma SingleDigitPhone(letter: char -> bool)
    ensures ValidateField(Legacy, letter, "phone", "5") == Pass
    ensures ValidateField(Current, letter, "phone", "5") == FailPattern
    ensures ErrorText(Current, "phone", FailPattern) == Some("")
  {
    SingleDigitChecks(letter);
    PhoneEntries();
    FieldVerdict(Legacy, letter, "phone", "5", LegacyPhoneRule, Pass);
    FieldVerdict(Current, letter, "phone", "5", PhoneRule, FailPattern);
  }

  /** A number with a leading zero and spaces passes only the current phone pattern. */
  lemma SpacedNumberPhone(letter: char -> bool)
    ensures ValidateField(Current, letter, "phone", "0555 12 34") == Pass
    ensures ValidateField(Legacy, letter, "phone", "0555 12 34") == FailPattern
  {
    SpacedNumberChecks(letter);
    PhoneEntries();
    FieldVerdict(Current, letter, "phone", "0555 12 34", PhoneRule, Pass);
    FieldVerdict(Legacy, letter, "phone", "0555 12 34", LegacyPhoneRule, FailPattern);
  }

  // ---------------------------------------------------------------------------------
  // validateForm

  /** A form control: its `name` and its `value`. */
  datatype Field = Field(name: string, value: string)

  /** The form passes when every one of its fields does. */
  predicate FormValid(variant: Variant, letter: char -> bool, fields: seq<Field>) {
    forall k :: 0 <= k < |fields| ==> ValidateField(variant, letter, fields[k].name, fields[k].value) == Pass
  }

  /** The verdict of every field, in document order. */
  function Verdicts(variant: Variant, letter: char -> bool, fields: seq<Field>): (r: seq<Verdict>)
    ensures |r| == |fields|
    ensures forall k :: 0 <= k < |fields| ==> r[k] == ValidateField(variant, letter, fields[k].name, fields[k].value)
    ensures (forall k :: 0 <= k < |r| ==> r[k] == Pass) <==> FormValid(variant, letter, fields)
  {
    seq(|fields|, k requires 0 <= k < |fields| => ValidateField(variant, letter, fields[k].name, fields[k].value))
  }

  /** Runs `check` on every item in order, recording each verdict even after an earlier
      one failed, and reports whether all passed. */
  method CheckAll<T>(items: seq<T>, check: T -> Verdict) returns (ok: bool, verdicts: seq<Verdict>)
    ensures |verdicts| == |items|
    ensures forall k :: 0 <= k < |items| ==> verdicts[k] == check(items[k])
    ensures ok <==> forall k :: 0 <= k < |items| ==> check(items[k]) == Pass
  {
    ok := true;
    verdicts := [];
    var k := 0;
    while k < |items|
      invariant 0 <= k <= |items|
      invariant |verdicts| == k
      invariant forall j :: 0 <= j < k ==> verdicts[j] == check(items[j])
      invariant ok <==> forall j :: 0 <= j < k ==> verdicts[j] == Pass
    {
      var v := check(items[k]);
      if v != Pass {
        ok := false;
      }
      verdicts := verdicts + [v];
      k := k + 1;
    }
  }

  /** `validateForm`: validates every field in document order, recording each field's
      verdict even after an earlier one failed, and reports whether all passed. */
  method ValidateForm(variant: Variant, letter: char -> bool, fields: seq<Field>)
    returns (ok: bool, verdicts: seq<Verdict>)
    ensures |verdicts| == |fields|
    ensures forall k :: 0 <= k < |fields| ==>
              verdicts[k] == ValidateField(variant, letter, fields[k].name, fields[k].value)
    ensures ok <==> FormValid(variant, letter, fields)
  {
    ok, verdicts := CheckAll(fields, (f: Field) => ValidateField(variant, letter, f.name, f.value));
  }
}
