/** Value types of the swipeable table row: directions, the eight slot
    identifiers, the two resolution modes, one registered slot and the four
    trigger thresholds. Colors, icons and completion closures are opaque
    handles: the row only stores, compares and forwards them. */
module SwipeTypes {

  datatype Option<T> = None | Some(value: T)

  /** Which way the row content has been dragged (sign of the percentage). */
  datatype Direction = Center | Left | Right

  /** The eight fixed slot identifiers. A "Left" slot sits on the left edge
      and is revealed by dragging the content to the right (percentage >= 0);
      a "Right" slot is revealed by dragging to the left. */
  datatype Gesture = Left1 | Left2 | Left3 | Left4 | Right1 | Right2 | Right3 | Right4

  /** Bounce: the content returns to rest; Slide: the content leaves the row. */
  datatype Mode = Bounce | Slide

  /** Opaque handle for a UIColor. */
  type Color = nat

  /** The row's default indicator color (light grey). */
  const LightGray: Color := 0

  /** Opaque handle for an icon view. */
  type Icon = nat

  /** Opaque handle for a completion closure `(cell) -> ()`. */
  type Completion = nat

  /** One registered swipe action. */
  datatype SwipeObject = SwipeObject(color: Color, icon: Icon, mode: Mode, completion: Completion)

  /** The four percentage thresholds (the field is spelled "forth" in the row). */
  datatype Triggers = Triggers(first: real, second: real, third: real, forth: real)

  /** The thresholds a new row starts with. */
  const DefaultTriggers: Triggers := Triggers(0.15, 0.35, 0.55, 0.75)

  /** The ordering the thresholds are meant to have; the row never checks it. */
  predicate Ordered(tr: Triggers)
  {
    0.0 < tr.first < tr.second < tr.third < tr.forth <= 1.0
  }

  /** Which edge a slot belongs to. */
  function SideOf(g: Gesture): Direction
  {
    match g
    case Left1 | Left2 | Left3 | Left4 => Left
    case Right1 | Right2 | Right3 | Right4 => Right
  }

  /** Absolute value on reals (`fabs`/`abs` in the row). */
  function Abs(x: real): (r: real)
    ensures r >= 0.0
    ensures r == x || r == -x
  {
    if x < 0.0 then -x else x
  }
}
