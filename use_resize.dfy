/** The sizes of the two resizable panels, the file sidebar's width and
    the terminal's height, each kept within its bounds. */
module PanelSizes {

  /** `Math.max(lo, Math.min(v, hi))`. */
  function Clamp(v: int, lo: int, hi: int): (r: int)
    ensures lo <= hi ==> lo <= r <= hi
    ensures lo <= v <= hi ==> r == v
    ensures v > hi ==> r == (if lo <= hi then hi else lo)
    ensures v < lo ==> r == lo
    ensures lo > hi ==> r == lo
  {
    var below := if v < hi then v else hi;
    if lo > below then lo else below
  }

  /** Clamping a clamped size changes nothing. */
  lemma ClampIdempotent(v: int, lo: int, hi: int)
    requires lo <= hi
    ensures Clamp(Clamp(v, lo, hi), lo, hi) == Clamp(v, lo, hi)
  {
  }

  /** Clamping is monotone: a larger request never gives a smaller size. */
  lemma ClampMonotone(u: int, v: int, lo: int, hi: int)
    requires u <= v
    ensures Clamp(u, lo, hi) <= Clamp(v, lo, hi)
  {
  }

  const DefaultSidebarWidth := 250
  const DefaultTerminalHeight := 200
  const DefaultMinSidebarWidth := 150
  const DefaultMaxSidebarWidth := 500
  const DefaultMinTerminalHeight := 100
  const DefaultMaxTerminalHeight := 500

  /** The width after a sidebar drag step: the delta is added. */
  function SidebarAfter(width: int, delta: int, lo: int, hi: int): (r: int)
    ensures lo <= hi ==> lo <= r <= hi
    ensures lo <= width + delta <= hi ==> r == width + delta
  {
    Clamp(width + delta, lo, hi)
  }

  /** The height after a terminal drag step: the delta is subtracted. */
  function TerminalAfter(height: int, delta: int, lo: int, hi: int): (r: int)
    ensures lo <= hi ==> lo <= r <= hi
    ensures lo <= height - delta <= hi ==> r == height - delta
  {
    Clamp(height - delta, lo, hi)
  }

  /** Applying deltas one after another to the sidebar width. */
  function SidebarAfterAll(width: int, deltas: seq<int>, lo: int, hi: int): (r: int)
    ensures lo <= hi && deltas != [] ==> lo <= r <= hi
    ensures lo <= hi && lo <= width <= hi ==> lo <= r <= hi
    decreases |deltas|
  {
    if deltas == [] then width
    else SidebarAfterAll(SidebarAfter(width, deltas[0], lo, hi), deltas[1..], lo, hi)
  }

  /** The total of a series of deltas. */
  function Sum(deltas: seq<int>): int
    decreases |deltas|
  {
    if deltas == [] then 0 else deltas[0] + Sum(deltas[1..])
  }

  /** No step of the series takes the width outside [lo, hi]. */
  predicate StaysInBounds(width: int, deltas: seq<int>, lo: int, hi: int)
    decreases |deltas|
  {
    deltas == [] || (lo <= width + deltas[0] <= hi && StaysInBounds(width + deltas[0], deltas[1..], lo, hi))
  }

  /** While no step meets a bound, each delta is added to the width the
      previous one left, so the width grows by the deltas' total. */
  lemma {:induction false} SidebarAfterAllAdds(width: int, deltas: seq<int>, lo: int, hi: int)
    requires StaysInBounds(width, deltas, lo, hi)
    ensures SidebarAfterAll(width, deltas, lo, hi) == width + Sum(deltas)
    decreases |deltas|
  {
    if deltas != [] {
      SidebarAfterAllAdds(width + deltas[0], deltas[1..], lo, hi);
    }
  }

  /** At the upper bound, a delta pushing further out leaves the width
      there; likewise at the lower bound. */
  lemma SidebarStaysAtBounds(delta: int, lo: int, hi: int)
    requires lo <= hi
    ensures delta >= 0 ==> SidebarAfter(hi, delta, lo, hi) == hi
    ensures delta <= 0 ==> SidebarAfter(lo, delta, lo, hi) == lo
  {
  }

  /** The terminal's counterpart: a negative delta grows it. */
  lemma TerminalStaysAtBounds(delta: int, lo: int, hi: int)
    requires lo <= hi
    ensures delta <= 0 ==> TerminalAfter(hi, delta, lo, hi) == hi
    ensures delta >= 0 ==> TerminalAfter(lo, delta, lo, hi) == lo
  {
  }

  /** useResize's state. */
  class Panels {
    var sidebarWidth: int
    var terminalHeight: int
    const minSidebarWidth: int
    const maxSidebarWidth: int
    const minTerminalHeight: int
    const maxTerminalHeight: int

    /** The initial sizes are taken as given, not clamped. */
    constructor(initialSidebarWidth: int := DefaultSidebarWidth,
                initialTerminalHeight: int := DefaultTerminalHeight,
                minSidebar: int := DefaultMinSidebarWidth,
                maxSidebar: int := DefaultMaxSidebarWidth,
                minTerminal: int := DefaultMinTerminalHeight,
                maxTerminal: int := DefaultMaxTerminalHeight)
      ensures sidebarWidth == initialSidebarWidth && terminalHeight == initialTerminalHeight
      ensures minSidebarWidth == minSidebar && maxSidebarWidth == maxSidebar
      ensures minTerminalHeight == minTerminal && maxTerminalHeight == maxTerminal
    {
      sidebarWidth := initialSidebarWidth;
      terminalHeight := initialTerminalHeight;
      minSidebarWidth := minSidebar;
      maxSidebarWidth := maxSidebar;
      minTerminalHeight := minTerminal;
      maxTerminalHeight := maxTerminal;
    }

    /** Both sizes lie within their bounds. */
    predicate InRange()
      reads this
    {
      minSidebarWidth <= sidebarWidth <= maxSidebarWidth
      && minTerminalHeight <= terminalHeight <= maxTerminalHeight
    }

    /** handleSidebarResize: the width moves by the delta, within bounds;
        the terminal is untouched. */
    method HandleSidebarResize(delta: int)
      modifies this
      ensures sidebarWidth == SidebarAfter(old(sidebarWidth), delta, minSidebarWidth, maxSidebarWidth)
      ensures terminalHeight == old(terminalHeight)
      ensures old(InRange()) ==> InRange()
    {
      var newWidth := sidebarWidth + delta;
      sidebarWidth := Clamp(newWidth, minSidebarWidth, maxSidebarWidth);
    }

    /** handleTerminalResize: the height moves against the delta, within
        bounds; the sidebar is untouched. */
    method HandleTerminalResize(delta: int)
      modifies this
      ensures terminalHeight == TerminalAfter(old(terminalHeight), delta, minTerminalHeight, maxTerminalHeight)
      ensures sidebarWidth == old(sidebarWidth)
      ensures old(InRange()) ==> InRange()
    {
      var newHeight := terminalHeight - delta;
      terminalHeight := Clamp(newHeight, minTerminalHeight, maxTerminalHeight);
    }
  }
}
