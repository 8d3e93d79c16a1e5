/** The drag handle between panels: it records the pointer coordinate on
    mousedown and reports, on every later move, the distance from that
    start. */
module DragHandle {

  datatype Direction = Horizontal | Vertical

  /** The coordinate a handle follows: clientX across, clientY down. */
  function Axis(direction: Direction, clientX: int, clientY: int): int {
    match direction
    case Horizontal => clientX
    case Vertical => clientY
  }

  /** The delta a move reports: the distance from the start on the
      handle's axis, negated for a handle anchored at the bottom. */
  function DragDelta(direction: Direction, fromBottom: bool, start: int, clientX: int, clientY: int): (delta: int)
    ensures Axis(direction, clientX, clientY) == start + (if fromBottom then -delta else delta)
  {
    var moved := Axis(direction, clientX, clientY) - start;
    if fromBottom then -moved else moved
  }

  /** The delta is cumulative: two moves report the distance of each from
      the start, not from each other, so their deltas differ by the
      pointer's own step. */
  lemma DeltasAreCumulative(direction: Direction, fromBottom: bool, start: int, x1: int, y1: int, x2: int, y2: int)
    ensures var step := Axis(direction, x2, y2) - Axis(direction, x1, y1);
            DragDelta(direction, fromBottom, start, x2, y2) - DragDelta(direction, fromBottom, start, x1, y1)
            == (if fromBottom then -step else step)
  {
  }

  class Handle {
    const direction: Direction
    const fromBottom: bool
    /** The size of the panel, as last passed in. */
    var position: int
    var startPos: int
    /** Written on mousedown and never read. */
    var startSize: int

    /** A new handle: start coordinate 0, start size the current position;
        `fromBottom` is false unless given. */
    constructor(direction: Direction, position: int, fromBottom: bool := false)
      ensures this.direction == direction && this.fromBottom == fromBottom
      ensures this.position == position && startPos == 0 && startSize == position
    {
      this.direction := direction;
      this.fromBottom := fromBottom;
      this.position := position;
      startPos := 0;
      startSize := position;
    }

    /** The panel re-renders with a new size. */
    method SetPosition(p: int)
      modifies this
      ensures position == p && startPos == old(startPos) && startSize == old(startSize)
    {
      position := p;
    }

    /** handleMouseDown: the start coordinate is that of the pointer on
        the handle's axis, and the start size the current position. */
    method MouseDown(clientX: int, clientY: int)
      modifies this
      ensures startPos == Axis(direction, clientX, clientY)
      ensures startSize == position && position == old(position)
    {
      startPos := if direction == Horizontal then clientX else clientY;
      startSize := position;
    }

    /** handleMouseMove: the delta since mousedown, sign-adjusted; it
        changes nothing and does not depend on the start size or the
        position. */
    method MouseMove(clientX: int, clientY: int) returns (delta: int)
      ensures delta == DragDelta(direction, fromBottom, startPos, clientX, clientY)
    {
      var currentPos := if direction == Horizontal then clientX else clientY;
      var d := currentPos - startPos;
      delta := if fromBottom then -d else d;
    }
  }
}
