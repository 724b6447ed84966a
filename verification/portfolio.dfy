/** The portfolio filter bar: clicking a filter button marks it as the only active one,
    shows the cards its filter selects and hides the others, and (in the current script)
    flags each sizing grid as compact when at most two of its cards remain visible. */
module Portfolio {
  import opened Wrappers
  import opened Text
  import opened Variants
  import opened Marks

  /** A card and its `data-category` attribute, absent or a space-separated list. */
  datatype Card = Card(category: Option<string>)

  /** A filter button and its `data-filter` attribute. */
  datatype Button = Button(filter: Option<string>)

  /** The filter bar and the cards: which button is active, which cards are shown, and the
      sizing grids (each a list of indices into `cards`) with their compact flags. */
  datatype Page = Page(
    buttons: seq<Button>,
    active: seq<bool>,
    cards: seq<Card>,
    shown: seq<bool>,
    grids: seq<seq<nat>>,
    compact: seq<bool>)

  predicate Valid(p: Page) {
    && |p.active| == |p.buttons|
    && |p.shown| == |p.cards|
    && |p.compact| == |p.grids|
    && forall g, k :: 0 <= g < |p.grids| && 0 <= k < |p.grids[g]| ==> p.grids[g][k] < |p.cards|
  }

  /** `(card.dataset.category || '').split(/\s+/).filter(Boolean)`. */
  function Categories(c: Card): (r: seq<string>)
    ensures forall k :: 0 <= k < |r| ==> IsWord(r[k], IsSpace)
    ensures Concat(r) == Keep(c.category.GetOr([]), IsSpace)
  {
    Split(c.category.GetOr([]), IsSpace)
  }

  /** Whether a button's filter shows a card. The current script looks the filter up in the
      card's category list; the legacy one compares it with the whole attribute, so two
      absent attributes are equal there. */
  predicate Shows(variant: Variant, filter: Option<string>, c: Card) {
    match variant
    case Current => filter == Some("all") || (filter.Some? && filter.value in Categories(c))
    case Legacy => filter == Some("all") || c.category == filter
  }

  /** How many of the listed cards are shown. */
  function VisibleCount(shown: seq<bool>, grid: seq<nat>): (n: nat)
    requires forall k :: 0 <= k < |grid| ==> grid[k] < |shown|
    ensures n <= |grid|
    ensures n == |grid| <==> forall k :: 0 <= k < |grid| ==> shown[grid[k]]
    ensures n == 0 <==> forall k :: 0 <= k < |grid| ==> !shown[grid[k]]
  {
    if grid == [] then 0
    else (if shown[grid[0]] then 1 else 0) + VisibleCount(shown, grid[1..])
  }

  /** Counts add up over the two halves of a grid; with the bounds above, which fix the
      count of a one-card grid, this fixes the count of every grid. */
  lemma {:induction false} VisibleCountAppend(shown: seq<bool>, a: seq<nat>, b: seq<nat>)
    requires forall k :: 0 <= k < |a| ==> a[k] < |shown|
    requires forall k :: 0 <= k < |b| ==> b[k] < |shown|
    ensures forall k :: 0 <= k < |a + b| ==> (a + b)[k] < |shown|
    ensures VisibleCount(shown, a + b) == VisibleCount(shown, a) + VisibleCount(shown, b)
    decreases |a|
  {
    assert forall k :: 0 <= k < |a + b| ==> (a + b)[k] == if k < |a| then a[k] else b[k - |a|];
    if a == [] {
      assert a + b == b;
    } else {
      assert (a + b)[1..] == a[1..] + b;
      VisibleCountAppend(shown, a[1..], b);
    }
  }

  /** `updatePortfolioSizing`: a grid is compact when at most two of its cards are shown. */
  function Sizing(shown: seq<bool>, grids: seq<seq<nat>>): (r: seq<bool>)
    requires forall g, k :: 0 <= g < |grids| && 0 <= k < |grids[g]| ==> grids[g][k] < |shown|
    ensures |r| == |grids|
    ensures forall g :: 0 <= g < |grids| ==> (r[g] <==> VisibleCount(shown, grids[g]) <= 2)
  {
    seq(|grids|, g requires 0 <= g < |grids| => VisibleCount(shown, grids[g]) <= 2)
  }

  /** A click on button `b`: it alone becomes active, each card is shown exactly when the
      button's filter selects it, and the current script recomputes the compact flags from
      the new visibility; the legacy one leaves them alone. */
  function Click(variant: Variant, p: Page, b: nat): (r: Page)
    requires Valid(p) && b < |p.buttons|
    ensures Valid(r)
    ensures r.buttons == p.buttons && r.cards == p.cards && r.grids == p.grids
    ensures OnlyAt(r.active, b)
    ensures forall k :: 0 <= k < |r.cards| ==> (r.shown[k] <==> Shows(variant, p.buttons[b].filter, p.cards[k]))
    ensures variant == Current ==>
      forall g :: 0 <= g < |r.grids| ==> (r.compact[g] <==> VisibleCount(r.shown, r.grids[g]) <= 2)
    ensures variant == Legacy ==> r.compact == p.compact
  {
    var filter := p.buttons[b].filter;
    var shown := seq(|p.cards|, k requires 0 <= k < |p.cards| => Shows(variant, filter, p.cards[k]));
    var compact := if variant == Current then Sizing(shown, p.grids) else p.compact;
    p.(active := Mark(|p.buttons|, b), shown := shown, compact := compact)
  }

  /** Page load: when there are filter buttons, the first one is clicked. (The current
      script also sizes the grids first, which the click recomputes anyway.) */
  function Load(variant: Variant, p: Page): (r: Page)
    requires Valid(p)
    ensures Valid(r)
    ensures p.buttons != [] ==> r == Click(variant, p, 0)
    ensures p.buttons == [] ==> r == p
  {
    if p.buttons == [] then p else Click(variant, p, 0)
  }

  /** The "all" filter shows every card in both scripts, so after it every grid is compact
      exactly when it holds at most two cards. */
  lemma AllShowsEverything(variant: Variant, p: Page, b: nat)
    requires Valid(p) && b < |p.buttons| && p.buttons[b].filter == Some("all")
    ensures var r := Click(variant, p, b);
      && (forall k :: 0 <= k < |r.shown| ==> r.shown[k])
      && (variant == Current ==> forall g :: 0 <= g < |r.grids| ==> (r.compact[g] <==> |r.grids[g]| <= 2))
  {
    var r := Click(variant, p, b);
    forall g | 0 <= g < |r.grids|
      ensures VisibleCount(r.shown, r.grids[g]) == |r.grids[g]|
    {
    }
  }

  /** Apart from "all", the current script only ever selects by a single non-empty word
      without white space: a filter that is empty or holds a space shows nothing. */
  lemma CurrentFilterIsOneWord(f: string, c: Card)
    requires f != "all" && Shows(Current, Some(f), c)
    ensures IsWord(f, IsSpace)
  {
    var cats := Categories(c);
    var k :| 0 <= k < |cats| && cats[k] == f;
  }

  /** On a card with a single category the two scripts agree, whatever the filter. */
  lemma SingleCategoryAgrees(filter: Option<string>, w: string)
    requires IsWord(w, IsSpace)
    ensures Shows(Current, filter, Card(Some(w))) <==> Shows(Legacy, filter, Card(Some(w)))
  {
    SplitWord(w, IsSpace);
  }

  /** A card in two categories ("web mobile") shows under either one in the current script,
      but in the legacy script only under a filter equal to the whole attribute. */
  lemma TwoCategories(first: string, second: string)
    requires IsWord(first, IsSpace) && IsWord(second, IsSpace)
    requires first != "all" && second != "all"
    ensures var c := Card(Some(first + " " + second));
      && Categories(c) == [first, second]
      && Shows(Current, Some(first), c) && Shows(Current, Some(second), c)
      && !Shows(Legacy, Some(first), c) && !Shows(Legacy, Some(second), c)
  {
    SplitLeadingWord(first, ' ', second, IsSpace);
    SplitWord(second, IsSpace);
    assert |first + " " + second| > |first| && |first + " " + second| > |second|;
  }

  /** A button without `data-filter` shows nothing in the current script, but in the legacy
      script it shows exactly the cards without `data-category`. */
  lemma MissingFilter(c: Card)
    ensures !Shows(Current, None, c)
    ensures Shows(Legacy, None, c) <==> c.category.None?
  {
  }
}
