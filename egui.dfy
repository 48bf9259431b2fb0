/** The egui geometry records used by the anchor logic, as plain values.
    Coordinates are exact reals; egui's y axis grows downward, so the top
    edge of a rectangle is its min.y and the bottom edge its max.y. */
module Egui {

  /** A point on screen. */
  datatype Pos2 = Pos2(x: real, y: real)

  /** A displacement, such as a margin. */
  datatype Vec2 = Vec2(x: real, y: real) {

    /** Component-wise sum, as egui's `Vec2 + Vec2`. */
    function Plus(other: Vec2): Vec2 {
      Vec2(x + other.x, y + other.y)
    }

    /** Component-wise negation, as egui's `-Vec2`. */
    function Neg(): Vec2 {
      Vec2(-x, -y)
    }
  }

  const Origin: Pos2 := Pos2(0.0, 0.0)
  const ZeroVec: Vec2 := Vec2(0.0, 0.0)

  /** An axis-aligned rectangle given by its two extreme corners. */
  datatype Rect = Rect(min: Pos2, max: Pos2) {

    function LeftTop(): Pos2 { Pos2(min.x, min.y) }
    function RightTop(): Pos2 { Pos2(max.x, min.y) }
    function LeftBottom(): Pos2 { Pos2(min.x, max.y) }
    function RightBottom(): Pos2 { Pos2(max.x, max.y) }

    /** min lies left of and above max (egui calls the opposite "negative"). */
    predicate IsPositive() {
      min.x <= max.x && min.y <= max.y
    }

    /** Inclusive containment, as egui's `Rect::contains`. */
    predicate Contains(p: Pos2) {
      min.x <= p.x <= max.x && min.y <= p.y <= max.y
    }
  }
}
