/** The corner a toast stack is anchored to, and the geometry that turns an
    anchor, a container and a margin into the point the stack starts from. */
module Anchors {
  import opened Egui

  /** Where to show toasts. */
  datatype Anchor = TopRight | TopLeft | BottomRight | BottomLeft {

    /** The anchor sits on the right edge of its container. */
    predicate IsRight() {
      this == TopRight || this == BottomRight
    }

    /** The anchor sits on the top edge of its container. */
    predicate IsTop() {
      this == TopRight || this == TopLeft
    }

    /** Horizontal direction toasts slide in from: +1 on the right side,
        -1 on the left side, and nothing else. */
    function AnimSide(): (side: real)
      ensures side == 1.0 || side == -1.0
      ensures side == 1.0 <==> IsRight()
      ensures side == -1.0 <==> !IsRight()
    {
      match this
      case TopRight | BottomRight => 1.0
      case TopLeft | BottomLeft => -1.0
    }

    /** The corner of `r` this anchor names, read off its extremes: the
        right edge is max.x, the top edge min.y. */
    function CornerOf(r: Rect): (p: Pos2)
      ensures this == TopRight ==> p == r.RightTop()
      ensures this == TopLeft ==> p == r.LeftTop()
      ensures this == BottomRight ==> p == r.RightBottom()
      ensures this == BottomLeft ==> p == r.LeftBottom()
      ensures r.IsPositive() ==> r.Contains(p)
    {
      Pos2(if IsRight() then r.max.x else r.min.x,
           if IsTop() then r.min.y else r.max.y)
    }

    /** Where a margin moves a corner point: the margin's x is taken away
        on the right and added on the left, its y added at the top and
        taken away at the bottom, so a non-negative margin points into the
        container. */
    function Shift(p: Pos2, margin: Vec2): (q: Pos2)
    {
      Pos2(if IsRight() then p.x - margin.x else p.x + margin.x,
           if IsTop() then p.y + margin.y else p.y - margin.y)
    }

    /** Moves `pos` inward by `margin`, one coordinate at a time; the new
        position is returned in place of the source's update through a
        mutable reference. */
    method ApplyMargin(pos: Pos2, margin: Vec2) returns (pos': Pos2)
      ensures pos' == Shift(pos, margin)
      ensures pos'.x == pos.x - AnimSide() * margin.x
      ensures pos'.y == if IsTop() then pos.y + margin.y else pos.y - margin.y
    {
      pos' := pos;
      match this {
        case TopRight =>
          pos' := pos'.(x := pos'.x - margin.x);
          pos' := pos'.(y := pos'.y + margin.y);
        case TopLeft =>
          pos' := pos'.(x := pos'.x + margin.x);
          pos' := pos'.(y := pos'.y + margin.y);
        case BottomRight =>
          pos' := pos'.(x := pos'.x - margin.x);
          pos' := pos'.(y := pos'.y - margin.y);
        case BottomLeft =>
          pos' := pos'.(x := pos'.x + margin.x);
          pos' := pos'.(y := pos'.y - margin.y);
      }
    }

    /** The anchor point on a screen whose corners are the origin and `sc`. */
    method ScreenCorner(sc: Pos2, margin: Vec2) returns (out: Pos2)
      ensures out == Shift(CornerOf(Rect(Origin, sc)), margin)
      ensures out.x == if IsRight() then sc.x - margin.x else margin.x
      ensures out.y == if IsTop() then margin.y else sc.y - margin.y
      ensures margin == ZeroVec ==> out == CornerOf(Rect(Origin, sc))
    {
      out := match this
        case TopRight => Pos2(sc.x, 0.0)
        case TopLeft => Pos2(0.0, 0.0)
        case BottomRight => sc
        case BottomLeft => Pos2(0.0, sc.y);
      out := ApplyMargin(out, margin);
    }

    /** The anchor point inside an arbitrary container rectangle. */
    method RectCorner(rect: Rect, margin: Vec2) returns (out: Pos2)
      ensures out == Shift(CornerOf(rect), margin)
      ensures margin == ZeroVec ==> out == CornerOf(rect)
    {
      out := match this
        case TopRight => rect.RightTop()
        case TopLeft => rect.LeftTop()
        case BottomRight => rect.RightBottom()
        case BottomLeft => rect.LeftBottom();
      out := ApplyMargin(out, margin);
    }

    /** A zero margin leaves the point where it is. */
    lemma ShiftZero(p: Pos2)
      ensures Shift(p, ZeroVec) == p
    {
    }

    /** Margins add up: shifting by m1 and then by m2 is shifting by m1 + m2. */
    lemma ShiftCompose(p: Pos2, m1: Vec2, m2: Vec2)
      ensures Shift(Shift(p, m1), m2) == Shift(p, m1.Plus(m2))
    {
    }

    /** Shifting by the negated margin undoes a shift. */
    lemma ShiftUndo(p: Pos2, m: Vec2)
      ensures Shift(Shift(p, m), m.Neg()) == p
    {
      ShiftCompose(p, m, m.Neg());
    }

    /** A non-negative margin never moves the point outward: not further
        right for a right anchor, not further left for a left one, not
        higher for a top anchor, not lower for a bottom one; a positive
        margin moves it strictly inward on that axis. */
    lemma ShiftInward(p: Pos2, m: Vec2)
      requires 0.0 <= m.x && 0.0 <= m.y
      ensures IsRight() ==> Shift(p, m).x <= p.x
      ensures !IsRight() ==> Shift(p, m).x >= p.x
      ensures IsTop() ==> Shift(p, m).y >= p.y
      ensures !IsTop() ==> Shift(p, m).y <= p.y
      ensures 0.0 < m.x ==> Shift(p, m).x != p.x
      ensures 0.0 < m.y ==> Shift(p, m).y != p.y
    {
    }

    /** A margin no larger than the container keeps the anchor point
        inside the container. */
    lemma ShiftedCornerInside(r: Rect, m: Vec2)
      requires r.IsPositive()
      requires 0.0 <= m.x <= r.max.x - r.min.x
      requires 0.0 <= m.y <= r.max.y - r.min.y
      ensures r.Contains(Shift(CornerOf(r), m))
    {
    }
  }

  /** Distinct anchors name distinct corners of a rectangle with non-zero
      width and height. */
  lemma CornersDistinct(a: Anchor, b: Anchor, r: Rect)
    requires r.min.x < r.max.x && r.min.y < r.max.y
    ensures a.CornerOf(r) == b.CornerOf(r) <==> a == b
  {
  }

  /** The sum of a sequence of margins. */
  function Total(ms: seq<Vec2>): Vec2 {
    if ms == [] then ZeroVec else ms[0].Plus(Total(ms[1..]))
  }

  /** Applies the margins of `ms` to `p` one after another. */
  function ShiftAll(a: Anchor, p: Pos2, ms: seq<Vec2>): Pos2
    decreases ms
  {
    if ms == [] then p else ShiftAll(a, a.Shift(p, ms[0]), ms[1..])
  }

  /** Applying margins one after another is applying their sum once. */
  lemma {:induction false} ShiftAllIsShiftByTotal(a: Anchor, p: Pos2, ms: seq<Vec2>)
    ensures ShiftAll(a, p, ms) == a.Shift(p, Total(ms))
    decreases ms
  {
    if ms == [] {
      a.ShiftZero(p);
    } else {
      ShiftAllIsShiftByTotal(a, a.Shift(p, ms[0]), ms[1..]);
      a.ShiftCompose(p, ms[0], Total(ms[1..]));
    }
  }
}
