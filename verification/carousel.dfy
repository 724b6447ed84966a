/** The testimonial carousel: which testimonial (and dot) is active, and the single
    auto-rotation interval that advances it. */
module Carousel {
  import opened Wrappers
  import opened Variants
  import opened Marks

  /** A JavaScript number as the carousel code sees it: an integer, or NaN. */
  datatype JsNumber = Num(n: int) | NaN

  function Abs(x: int): nat {
    if x < 0 then -x else x
  }

  /** JavaScript `a % n` for an integer `a` and a count `n`: the remainder takes the sign
      of `a` (it truncates toward zero), and a zero divisor gives NaN. */
  function JsRem(a: int, n: nat): (r: JsNumber)
    ensures r.NaN? <==> n == 0
    ensures r.Num? && a >= 0 ==> 0 <= r.n < n
    ensures r.Num? && a <= 0 ==> 0 - n < r.n <= 0
    ensures 0 <= a < n ==> r == Num(a)
    ensures n <= a < 2 * n ==> r == Num(a - n)
  {
    if n == 0 then NaN
    else if a >= 0 then
      ModSmall(a, n);
      Num(a % n)
    else
      Num(-((-a) % n))
  }

  lemma ModSmall(a: nat, n: nat)
    requires n > 0
    ensures a < n ==> a % n == a
    ensures n <= a < 2 * n ==> a % n == a - n
  {
    if a < n {
      assert a == 0 * n + a;
    } else if a < 2 * n {
      assert a == 1 * n + (a - n);
    }
  }

  /** What the page shows: the index kept in `state.currentTestimonial`, and the
      `active` class of every testimonial and of every navigation dot. */
  datatype View = View(current: int, slides: seq<bool>, dots: seq<bool>)

  /** There is one dot per testimonial (the code indexes both lists with one index), and
      the current index is in range whenever there is a testimonial. */
  predicate Valid(v: View) {
    && |v.dots| == |v.slides|
    && 0 <= v.current
    && (|v.slides| > 0 ==> v.current < |v.slides|)
  }

  /** Exactly testimonial `i` and dot `i` are active, and `i` is current. */
  predicate Showing(v: View, i: int) {
    && v.current == i
    && OnlyAt(v.slides, i)
    && OnlyAt(v.dots, i)
  }

  /** Whether `showTestimonial` acts on `x`: an integer within the testimonials. */
  predicate InRange(v: View, x: JsNumber) {
    x.Num? && 0 <= x.n < |v.slides|
  }

  /** `showTestimonial(index)` as the guard evidently intends it: an index outside
      `0 <= index < N` (NaN included) changes nothing; otherwise testimonial and dot
      `index` become the only active ones and `index` becomes current. */
  function Show(v: View, x: JsNumber): (r: View)
    requires Valid(v)
    ensures Valid(r)
    ensures |r.slides| == |v.slides|
    ensures InRange(v, x) ==> Showing(r, x.n)
    ensures !InRange(v, x) ==> r == v
  {
    if InRange(v, x) then View(x.n, Mark(|v.slides|, x.n), Mark(|v.dots|, x.n)) else v
  }

  /** `nextTestimonial`: shows `(current + 1) % N`, the index after the current one,
      wrapping from the last to the first. */
  function Next(v: View): (r: View)
    requires Valid(v)
    ensures Valid(r) && |r.slides| == |v.slides|
    ensures |v.slides| > 0 ==> Showing(r, if v.current + 1 < |v.slides| then v.current + 1 else 0)
    ensures |v.slides| == 0 ==> r == v
  {
    Show(v, JsRem(v.current + 1, |v.slides|))
  }

  /** `prevTestimonial`: shows `(current - 1 + N) % N`, the index before the current one,
      wrapping from the first to the last. */
  function Prev(v: View): (r: View)
    requires Valid(v)
    ensures Valid(r) && |r.slides| == |v.slides|
    ensures |v.slides| > 0 ==> Showing(r, if v.current > 0 then v.current - 1 else |v.slides| - 1)
    ensures |v.slides| == 0 ==> r == v
  {
    Show(v, JsRem(v.current - 1 + |v.slides|, |v.slides|))
  }

  /** Two views that show the same index are the same view. */
  lemma ShowingDetermines(v: View, w: View, i: int)
    requires Valid(v) && Valid(w) && |v.slides| == |w.slides|
    requires Showing(v, i) && Showing(w, i)
    ensures v == w
  {
    assert v.slides == w.slides;
    assert v.dots == w.dots;
  }

  /** Going forward and then back returns to the testimonial that was shown. */
  lemma PrevAfterNext(v: View)
    requires Valid(v) && |v.slides| > 0 && Showing(v, v.current)
    ensures Prev(Next(v)) == v
  {
    ShowingDetermines(Prev(Next(v)), v, v.current);
  }

  /** Going back and then forward returns to the testimonial that was shown. */
  lemma NextAfterPrev(v: View)
    requires Valid(v) && |v.slides| > 0 && Showing(v, v.current)
    ensures Next(Prev(v)) == v
  {
    ShowingDetermines(Next(Prev(v)), v, v.current);
  }

  /** What a call of the handler did: it returned, or it threw; either way the view is
      what the page shows afterwards. */
  datatype Outcome = Returned(view: View) | Threw(view: View)

  /** `showTestimonial(index)` as written: `NaN < 0` and `NaN >= N` are both false, so NaN
      passes the guard; every testimonial and dot is made inactive, and then
      `testimonials[NaN].classList` throws a TypeError before anything is marked and before
      the current index is stored. */
  function ShowAsWritten(v: View, x: JsNumber): (r: Outcome)
    requires Valid(v)
    ensures x.NaN? <==> r.Threw?
    ensures r.Threw? ==> && Valid(r.view) && r.view.current == v.current
                         && |r.view.slides| == |v.slides| && OnlyAt(r.view.slides, -1)
                         && OnlyAt(r.view.dots, -1)
  {
    match x
    case NaN => Threw(View(v.current, Mark(|v.slides|, -1), Mark(|v.dots|, -1)))
    case Num(i) => if i < 0 || i >= |v.slides| then Returned(v) else Returned(Show(v, x))
  }

  /** `nextTestimonial` as written. */
  function NextAsWritten(v: View): (r: Outcome)
    requires Valid(v)
    ensures |v.slides| > 0 ==> r == Returned(Next(v))
  {
    ShowAsWritten(v, JsRem(v.current + 1, |v.slides|))
  }

  /** On an integer index the code as written and the corrected `Show` agree. */
  lemma ShowAsWrittenAgrees(v: View, i: int)
    requires Valid(v)
    ensures ShowAsWritten(v, Num(i)) == Returned(Show(v, Num(i)))
  {
  }

  /** On a page with no testimonials the rotation tick throws: `(0 + 1) % 0` is NaN. The
      corrected `Next` leaves the view alone. */
  lemma NextWithoutTestimonialsThrows(v: View)
    requires Valid(v) && |v.slides| == 0
    ensures NextAsWritten(v) == Threw(v)
    ensures Next(v) == v
  {
  }

  // ---------------------------------------------------------------------------------
  // The rotation interval

  /** The interval bookkeeping: the handle kept in `state.testimonialInterval`, the set of
      intervals the browser still runs, and how many ids `setInterval` has issued (ids
      are `1, 2, ...`, so every id is truthy). */
  datatype Timers = Timers(handle: Option<nat>, live: set<nat>, issued: nat)

  function HandleSet(h: Option<nat>): set<nat> {
    if h.Some? then {h.value} else {}
  }

  /** Every live interval is the one the handle names: none has leaked. */
  predicate NoLeak(t: Timers) {
    && t.live <= HandleSet(t.handle)
    && (t.handle.Some? ==> 1 <= t.handle.value <= t.issued)
  }

  const NoTimers := Timers(None, {}, 0)

  /** `setInterval(...)`: a fresh id, now live, stored in the handle. */
  function SetInterval(t: Timers): (r: Timers)
    ensures r.handle == Some(t.issued + 1) && r.issued == t.issued + 1
    ensures r.live == t.live + {t.issued + 1}
  {
    Timers(Some(t.issued + 1), t.live + {t.issued + 1}, t.issued + 1)
  }

  /** `startTestimonialsRotation`. The current script clears the interval the handle names
      before creating one; the legacy script overwrites the handle without clearing. */
  function Start(variant: Variant, t: Timers): (r: Timers)
    ensures r.handle == Some(t.issued + 1) && r.issued == t.issued + 1
    ensures variant == Current ==> r.live == t.live - HandleSet(t.handle) + {t.issued + 1}
    ensures variant == Legacy ==> r.live == t.live + {t.issued + 1}
  {
    match variant
    case Current =>
      var cleared := if t.handle.Some? then t.(live := t.live - {t.handle.value}) else t;
      SetInterval(cleared)
    case Legacy => SetInterval(t)
  }

  /** `stopTestimonialsRotation` (the same in both scripts): clears the interval the handle
      names and empties the handle. */
  function Stop(t: Timers): (r: Timers)
    ensures r.handle == None && r.issued == t.issued
    ensures r.live == t.live - HandleSet(t.handle)
  {
    if t.handle.Some? then Timers(None, t.live - {t.handle.value}, t.issued) else t
  }

  /** The current `Start` keeps exactly one live interval, whatever came before, as long as
      nothing had leaked. */
  lemma StartKeepsOneInterval(t: Timers)
    requires NoLeak(t)
    ensures NoLeak(Start(Current, t)) && |Start(Current, t).live| == 1
  {
    var r := Start(Current, t);
    assert t.live - HandleSet(t.handle) == {};
    assert r.live == {t.issued + 1};
  }

  /** Starting twice with the current script still leaves one live interval. */
  lemma StartTwiceCurrent(t: Timers)
    requires NoLeak(t)
    ensures Start(Current, Start(Current, t)).live == {t.issued + 2}
  {
    StartKeepsOneInterval(t);
    var r := Start(Current, t);
    assert r.live == {t.issued + 1};
  }

  /** The legacy `Start` leaks: starting twice from rest leaves two live intervals, and
      the following `Stop` clears only the newer one, after which nothing names the
      older one again. */
  lemma StartTwiceLegacyLeaks(t: Timers)
    requires t.handle == None && t.live == {}
    ensures |Start(Legacy, Start(Legacy, t)).live| == 2
    ensures Stop(Start(Legacy, Start(Legacy, t))) == Timers(None, {t.issued + 1}, t.issued + 2)
    ensures !NoLeak(Stop(Start(Legacy, Start(Legacy, t))))
  {
    var r := Start(Legacy, Start(Legacy, t));
    assert r.live == {t.issued + 1, t.issued + 2};
  }

  // ---------------------------------------------------------------------------------
  // The carousel driven by page events (current script)

  datatype Carousel = Carousel(view: View, timers: Timers)

  predicate Inv(c: Carousel) {
    Valid(c.view) && NoLeak(c.timers)
  }

  /** The events the current script wires to the carousel: a dot click with the dot's
      `data-slide` index (an integer; `DotClickAsWritten` covers a non-numeric one), the
      arrow keys, the arrow buttons, a horizontal swipe of `delta` pixels, the mouse
      entering or leaving the carousel, and a tick of a live interval. */
  datatype Event =
    | DotClick(index: int)
    | KeyRight | KeyLeft
    | ArrowNextButton | ArrowPrevButton
    | Swipe(delta: int)
    | HoverEnter | HoverLeave
    | Tick

  /** Explicit navigation: stop the rotation, move, start it again. */
  function Navigate(c: Carousel, forward: bool): Carousel
    requires Valid(c.view)
  {
    var stopped := Stop(c.timers);
    Carousel(if forward then Next(c.view) else Prev(c.view), Start(Current, stopped))
  }

  /** One event handled by the current script. Every event keeps the invariant; explicit
      navigation leaves exactly one live interval, a fresh one; hovering leaves none; a
      tick leaves the timers alone. */
  function Step(c: Carousel, e: Event): (r: Carousel)
    requires Inv(c)
    ensures Inv(r)
    ensures |r.view.slides| == |c.view.slides|
    ensures e.HoverEnter? ==> r.timers.live == {} && r.timers.handle == None
    ensures (e.DotClick? || e.KeyRight? || e.KeyLeft? || e.ArrowNextButton? || e.ArrowPrevButton?
             || (e.Swipe? && Abs(e.delta) > 40))
            ==> r.timers.live == {c.timers.issued + 1} && r.timers.handle == Some(c.timers.issued + 1)
    ensures e.Tick? ==> r.timers == c.timers
  {
    match e
    case DotClick(i) =>
      StopThenStart(c.timers);
      Carousel(Show(c.view, Num(i)), Start(Current, Stop(c.timers)))
    case KeyRight =>
      StopThenStart(c.timers);
      Navigate(c, true)
    case KeyLeft =>
      StopThenStart(c.timers);
      Navigate(c, false)
    case ArrowNextButton =>
      StopThenStart(c.timers);
      Navigate(c, true)
    case ArrowPrevButton =>
      StopThenStart(c.timers);
      Navigate(c, false)
    case Swipe(delta) =>
      if Abs(delta) > 40 then
        StopThenStart(c.timers);
        Navigate(c, delta < 0)
      else c
    case HoverEnter =>
      Carousel(c.view, Stop(c.timers))
    case HoverLeave =>
      StartKeepsOneInterval(c.timers);
      Carousel(c.view, Start(Current, c.timers))
    case Tick =>
      if c.timers.live != {} then Carousel(Next(c.view), c.timers) else c
  }

  lemma StopThenStart(t: Timers)
    requires NoLeak(t)
    ensures Start(Current, Stop(t)).live == {t.issued + 1}
    ensures NoLeak(Start(Current, Stop(t)))
  {
  }

  /** `handleTestimonialDotClick` as written, on `Number(data-slide)`: on a number it is the
      dot-click event; on NaN `showTestimonial` blanks every testimonial and dot and throws,
      so the stop and restart after it never run and the timers are as they were. */
  function DotClickAsWritten(c: Carousel, x: JsNumber): (r: Carousel)
    requires Inv(c)
    ensures Inv(r)
    ensures x.Num? ==> r == Step(c, DotClick(x.n))
    ensures x.NaN? ==> && r.timers == c.timers && r.view.current == c.view.current
                       && OnlyAt(r.view.slides, -1) && OnlyAt(r.view.dots, -1)
  {
    match ShowAsWritten(c.view, x)
    case Threw(w) => Carousel(w, c.timers)
    case Returned(w) =>
      StopThenStart(c.timers);
      Carousel(w, Start(Current, Stop(c.timers)))
  }

  /** Page load: `initializeTestimonials` shows testimonial 0 and starts the rotation when
      there is a testimonial, then `init` starts the rotation once more regardless. */
  function Load(slides: nat): (r: Carousel)
    ensures Inv(r) && |r.view.slides| == slides
    ensures slides > 0 ==> Showing(r.view, 0)
    ensures |r.timers.live| == 1
  {
    var v0 := View(0, Mark(slides, -1), Mark(slides, -1));
    var c0 := Carousel(v0, NoTimers);
    var c1 := if slides > 0 then Carousel(Show(v0, Num(0)), Start(Current, NoTimers)) else c0;
    StartKeepsOneInterval(c1.timers);
    Carousel(c1.view, Start(Current, c1.timers))
  }

  function Run(c: Carousel, es: seq<Event>): Carousel
    requires Inv(c)
    decreases |es|
  {
    if es == [] then c else Run(Step(c, es[0]), es[1..])
  }

  /** Whatever the visitor does after page load, the current script never runs more than
      one rotation interval at a time. */
  lemma {:induction false} AtMostOneInterval(c: Carousel, es: seq<Event>)
    requires Inv(c)
    ensures Inv(Run(c, es)) && |Run(c, es).timers.live| <= 1
    decreases |es|
  {
    if es == [] {
      assert c.timers.live <= HandleSet(c.timers.handle);
      if c.timers.handle.Some? {
        SubsetOfSingleton(c.timers.live, c.timers.handle.value);
      }
    } else {
      AtMostOneInterval(Step(c, es[0]), es[1..]);
    }
  }

  lemma SubsetOfSingleton(s: set<nat>, x: nat)
    requires s <= {x}
    ensures |s| <= 1
  {
    if s != {} {
      assert s == {x};
    }
  }
}
