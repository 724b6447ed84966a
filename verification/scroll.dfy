/** The page chrome that follows the scroll position: the header's `scrolled` class and the
    back-to-top button's `show` class. Both scripts use the same thresholds. */
module Scroll {

  /** Whether the header carries `scrolled` and the back-to-top button carries `show`. */
  datatype Chrome = Chrome(scrolled: bool, backToTop: bool)

  const HeaderThreshold: real := 10.0
  const BackToTopThreshold: real := 300.0

  /** One run of the scroll handler at vertical offset `y`: the header is marked from ten
      pixels down, inclusive, and the button from strictly beyond three hundred. Each class
      is added or removed outright, so the previous state plays no part. */
  function OnScroll(c: Chrome, y: real): (r: Chrome)
    ensures r.scrolled <==> y >= HeaderThreshold
    ensures r.backToTop <==> y > BackToTopThreshold
  {
    c.(scrolled := y >= HeaderThreshold, backToTop := y > BackToTopThreshold)
  }

  /** The button is never shown while the header is still unmarked. */
  lemma BackToTopImpliesScrolled(c: Chrome, y: real)
    ensures OnScroll(c, y).backToTop ==> OnScroll(c, y).scrolled
  {
  }

  /** The result depends on the offset alone, so repeating the handler changes nothing. */
  lemma OnScrollForgets(c: Chrome, d: Chrome, y: real)
    ensures OnScroll(c, y) == OnScroll(d, y)
    ensures OnScroll(OnScroll(c, y), y) == OnScroll(c, y)
  {
  }

  /** Scrolling further down never removes either class. */
  lemma OnScrollMonotone(c: Chrome, y: real, z: real)
    requires y <= z
    ensures OnScroll(c, y).scrolled ==> OnScroll(c, z).scrolled
    ensures OnScroll(c, y).backToTop ==> OnScroll(c, z).backToTop
  {
  }

  /** The three bands: at the top nothing is marked, between ten and three hundred only the
      header, and past three hundred both. */
  lemma Bands(c: Chrome)
    ensures OnScroll(c, 9.5) == Chrome(false, false)
    ensures OnScroll(c, 10.0) == Chrome(true, false)
    ensures OnScroll(c, 300.0) == Chrome(true, false)
    ensures OnScroll(c, 300.5) == Chrome(true, true)
  {
  }
}
