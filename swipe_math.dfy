/** The effect-free `swipeGet*` helpers of the row and the icon x-position
    choice of `swipeUpdateIcon`, on real numbers. Every helper that divides
    by the row width asks for a positive width. */
module SwipeMath {
  import opened SwipeTypes

  /** `kDurationLowLimit`: the settle time at zero release velocity enters as
      low + high, so this is not itself the longest duration. */
  const DurationLowLimit: real := 0.25
  /** `kDurationHighLimit`. */
  const DurationHighLimit: real := 0.1

  /** Drag offset as a fraction of the row width, clamped to [-1, 1]. */
  function GetPercentage(offset: real, width: real): (r: real)
    requires width > 0.0
    ensures -1.0 <= r <= 1.0
    ensures -1.0 <= offset / width <= 1.0 ==> r == offset / width
    ensures offset < -width ==> r == -1.0
    ensures offset > width ==> r == 1.0
  {
    var percentage := offset / width;
    if percentage < -1.0 then -1.0
    else if percentage > 1.0 then 1.0
    else percentage
  }

  /** A fraction of the row width as an offset, clamped to [-width, width]. */
  function GetOffset(percentage: real, width: real): (r: real)
    requires width > 0.0
    ensures -width <= r <= width
    ensures -1.0 <= percentage <= 1.0 ==> r == percentage * width
    ensures percentage < -1.0 ==> r == -width
    ensures percentage > 1.0 ==> r == width
    ensures percentage >= 0.0 ==> r >= 0.0
    ensures percentage <= 0.0 ==> r <= 0.0
  {
    var offset := percentage * width;
    ScaleBounds(percentage, width, offset);
    if offset < -width then -width
    else if offset > width then width
    else offset
  }

  /** The sign of the percentage as a direction. */
  function GetDirection(percentage: real): (d: Direction)
    ensures d == Left <==> percentage < 0.0
    ensures d == Right <==> percentage > 0.0
    ensures d == Center <==> percentage == 0.0
  {
    if percentage < 0.0 then Left
    else if percentage > 0.0 then Right
    else Center
  }

  /** True while a drag in `direction` has not yet reached the first trigger;
      never true for `Center`. */
  function GetBeforeTrigger(percentage: real, direction: Direction, firstTrigger: real): (b: bool)
    ensures direction == Center ==> !b
    ensures direction == Left ==> (b <==> percentage > -firstTrigger)
    ensures direction == Right ==> (b <==> percentage < firstTrigger)
  {
    (direction == Left && percentage > -firstTrigger) || (direction == Right && percentage < firstTrigger)
  }

  /** Icon opacity: ramps with |percentage| up to the first trigger, then 1.
      No branch divides by zero: each dividing branch implies firstTrigger > 0. */
  function GetAlpha(percentage: real, firstTrigger: real): (alpha: real)
    ensures firstTrigger > 0.0 ==> 0.0 <= alpha <= 1.0
    ensures firstTrigger > 0.0 && Abs(percentage) < firstTrigger ==> alpha == Abs(percentage) / firstTrigger
    ensures Abs(percentage) >= firstTrigger ==> alpha == 1.0
    ensures firstTrigger > 0.0 && percentage == 0.0 ==> alpha == 0.0
  {
    if percentage >= 0.0 && percentage < firstTrigger then
      UnitRatio(percentage, firstTrigger);
      percentage / firstTrigger
    else if percentage < 0.0 && percentage > -firstTrigger then
      UnitRatio(-percentage, firstTrigger);
      assert percentage / firstTrigger == -(-percentage / firstTrigger);
      Abs(percentage / firstTrigger)
    else 1.0
  }

  /** Settle time of the release animation from the horizontal release
      velocity: the velocity is clamped to [-width, width] and a faster
      release gives a shorter animation. */
  function GetAnimationDuration(velocityX: real, width: real): (duration: real)
    requires width > 0.0
    ensures 0.2 <= duration <= 0.35
    ensures velocityX == 0.0 ==> duration == 0.35
    ensures Abs(velocityX) >= width ==> duration == 0.2
    ensures duration == 0.35 - 0.15 * (Abs(ClampVelocity(velocityX, width)) / width)
  {
    var animationDurationDiff := DurationHighLimit - DurationLowLimit;
    var horizontalVelocity := ClampVelocity(velocityX, width);
    var diff := Abs((horizontalVelocity / width) * animationDurationDiff);
    ScaledDiff(horizontalVelocity, width);
    (DurationHighLimit + DurationLowLimit) - diff
  }

  /** The horizontal release velocity clamped to [-width, width]. */
  function ClampVelocity(velocityX: real, width: real): (v: real)
    requires width > 0.0
    ensures -width <= v <= width
    ensures Abs(v) <= Abs(velocityX)
    ensures Abs(velocityX) >= width ==> Abs(v) == width
    ensures Abs(velocityX) <= width ==> v == velocityX
  {
    if velocityX < -width then -width
    else if velocityX > width then width
    else velocityX
  }

  /** Helper for GetAnimationDuration: the subtracted term is 0.15 times the
      clamped speed as a fraction of the width. */
  lemma ScaledDiff(v: real, width: real)
    requires width > 0.0
    requires -width <= v <= width
    ensures Abs((v / width) * (DurationHighLimit - DurationLowLimit)) == 0.15 * (Abs(v) / width)
    ensures 0.0 <= Abs(v) / width <= 1.0
    ensures Abs(v) == width ==> Abs(v) / width == 1.0
  {
    UnitRatio(Abs(v), width);
    SelfRatio(width);
    if v < 0.0 {
      assert v / width == -(Abs(v) / width);
    }
  }

  /** A positive number divided by itself is 1. */
  lemma SelfRatio(d: real)
    requires d > 0.0
    ensures d / d == 1.0
  {
  }

  /** Scaling by a positive number and dividing by it again is the identity. */
  lemma ScaleRatio(p: real, d: real)
    requires d > 0.0
    ensures (p * d) / d == p
  {
  }

  /** A quantity between zero and d is a fraction of d between 0 and 1. */
  lemma UnitRatio(a: real, d: real)
    requires d > 0.0 && 0.0 <= a <= d
    ensures 0.0 <= a / d <= 1.0
    ensures a == 0.0 ==> a / d == 0.0
  {
    DivMono(0.0, a, d);
    DivMono(a, d, d);
  }

  /** A percentage beyond [-1, 1] is an offset beyond [-width, width], and
      the offset has the sign of the percentage. */
  lemma ScaleBounds(percentage: real, width: real, offset: real)
    requires width > 0.0 && offset == percentage * width
    ensures offset < -width <==> percentage < -1.0
    ensures offset > width <==> percentage > 1.0
    ensures percentage >= 0.0 ==> offset >= 0.0
    ensures percentage <= 0.0 ==> offset <= 0.0
  {
    assert offset + width == (percentage + 1.0) * width;
    assert offset - width == (percentage - 1.0) * width;
  }

  /** Dividing by a positive number keeps the order. */
  lemma DivMono(a: real, b: real, d: real)
    requires d > 0.0 && a <= b
    ensures a / d <= b / d
  {
    assert b / d - a / d == (b - a) / d;
  }

  /** An offset inside the row is a percentage in [-1, 1] of its width. */
  lemma DivBounds(offset: real, width: real)
    requires width > 0.0 && -width <= offset <= width
    ensures -1.0 <= offset / width <= 1.0
    ensures (offset / width) * width == offset
  {
    DivMono(-width, offset, width);
    DivMono(offset, width, width);
  }

  /** Where `swipeUpdateIcon` puts the icon's center x, or None when it
      returns early (not tracking the drag and no direction). */
  function IconPosition(percentage: real, direction: Direction, firstTrigger: real,
                        width: real, isDragging: bool): (x: Option<real>)
    requires width > 0.0
    ensures x.None? <==> !isDragging && direction.Center?
    ensures firstTrigger > 0.0 && x.Some? ==> 0.0 <= x.value <= width
    // below the first trigger, and when floating, the icon rests half a first
    // trigger in from the edge it belongs to
    ensures 0.0 < firstTrigger <= 1.0 && isDragging && 0.0 <= percentage < firstTrigger ==>
      x == Some((firstTrigger / 2.0) * width)
    ensures 0.0 < firstTrigger <= 1.0 && isDragging && -firstTrigger <= percentage < 0.0 ==>
      x == Some(width - (firstTrigger / 2.0) * width)
    ensures 0.0 < firstTrigger <= 1.0 && !isDragging && direction.Right? ==>
      x == Some((firstTrigger / 2.0) * width)
    ensures 0.0 < firstTrigger <= 1.0 && !isDragging && direction.Left? ==>
      x == Some(width - (firstTrigger / 2.0) * width)
  {
    if isDragging then
      if percentage >= 0.0 && percentage < firstTrigger then
        Some(GetOffset(firstTrigger / 2.0, width))
      else if percentage >= firstTrigger then
        Some(GetOffset(percentage - firstTrigger / 2.0, width))
      else if percentage < 0.0 && percentage >= -firstTrigger then
        Some(width - GetOffset(firstTrigger / 2.0, width))
      else
        // the only remaining case is percentage < -firstTrigger
        Some(width + GetOffset(percentage + firstTrigger / 2.0, width))
    else if direction == Right then
      Some(GetOffset(firstTrigger / 2.0, width))
    else if direction == Left then
      Some(width - GetOffset(firstTrigger / 2.0, width))
    else
      None
  }

  // ---------------------------------------------------------------------
  // Properties relating the helpers to each other
  // ---------------------------------------------------------------------

  /** Converting an offset inside the row to a percentage and back gives the
      offset again. */
  lemma OffsetPercentageRoundTrip(offset: real, width: real)
    requires width > 0.0
    requires -width <= offset <= width
    ensures GetOffset(GetPercentage(offset, width), width) == offset
  {
    DivBounds(offset, width);
  }

  /** Converting any percentage to an offset and back gives the percentage
      clamped to [-1, 1]. */
  lemma PercentageOffsetRoundTrip(percentage: real, width: real)
    requires width > 0.0
    ensures GetPercentage(GetOffset(percentage, width), width)
         == (if percentage < -1.0 then -1.0 else if percentage > 1.0 then 1.0 else percentage)
  {
    var clamped := if percentage < -1.0 then -1.0 else if percentage > 1.0 then 1.0 else percentage;
    ScaleRatio(clamped, width);
    assert GetOffset(percentage, width) == clamped * width;
  }

  /** The direction of a drag is the sign of its pixel offset, whatever the
      clamping. */
  lemma DirectionOfOffset(offset: real, width: real)
    requires width > 0.0
    ensures GetDirection(GetPercentage(offset, width)) == GetDirection(offset)
  {
    var p := offset / width;
    assert p * width == offset;
    if offset < 0.0 { assert p < 0.0; }
    else if offset > 0.0 { assert p > 0.0; }
  }

  /** With the direction taken from the percentage itself and a positive first
      trigger, "before trigger" means: moved, but by less than the first
      trigger. */
  lemma BeforeTriggerMeansShortDrag(percentage: real, firstTrigger: real)
    requires firstTrigger > 0.0
    ensures GetBeforeTrigger(percentage, GetDirection(percentage), firstTrigger)
        <==> 0.0 < Abs(percentage) < firstTrigger
  {
  }

  /** The icon fades in the same way in both directions. */
  lemma AlphaSymmetric(percentage: real, firstTrigger: real)
    ensures GetAlpha(-percentage, firstTrigger) == GetAlpha(percentage, firstTrigger)
  {
    assert Abs(-percentage) == Abs(percentage);
  }

  /** The further the drag, the more opaque the icon. */
  lemma AlphaMonotone(p1: real, p2: real, firstTrigger: real)
    requires firstTrigger > 0.0
    requires Abs(p1) <= Abs(p2)
    ensures GetAlpha(p1, firstTrigger) <= GetAlpha(p2, firstTrigger)
  {
    if Abs(p2) < firstTrigger {
      DivMono(Abs(p1), Abs(p2), firstTrigger);
    }
  }

  /** The faster the release, the shorter (or equal) the settle animation. */
  lemma DurationMonotone(v1: real, v2: real, width: real)
    requires width > 0.0
    requires Abs(v1) <= Abs(v2)
    ensures GetAnimationDuration(v2, width) <= GetAnimationDuration(v1, width)
  {
    var c1, c2 := ClampVelocity(v1, width), ClampVelocity(v2, width);
    ScaledDiff(c1, width);
    ScaledDiff(c2, width);
    DivMono(Abs(c1), Abs(c2), width);
  }

  /** The duration depends on the speed, not on which way the row was thrown. */
  lemma DurationSymmetric(v: real, width: real)
    requires width > 0.0
    ensures GetAnimationDuration(-v, width) == GetAnimationDuration(v, width)
  {
    var c, cn := ClampVelocity(v, width), ClampVelocity(-v, width);
    assert cn == -c;
    ScaledDiff(c, width);
    ScaledDiff(cn, width);
  }

  /** While the icon tracks the drag past the first trigger, its center stays
      half a first trigger behind the edge of the moving content: the left edge
      at percentage * width on a rightward drag, the right edge at
      width + percentage * width on a leftward one. */
  lemma IconTracksContentEdge(percentage: real, firstTrigger: real, width: real, direction: Direction)
    requires width > 0.0 && 0.0 < firstTrigger <= 1.0
    requires -1.0 <= percentage <= 1.0
    ensures percentage >= firstTrigger ==>
      IconPosition(percentage, direction, firstTrigger, width, true)
        == Some(percentage * width - (firstTrigger / 2.0) * width)
    ensures percentage < -firstTrigger ==>
      IconPosition(percentage, direction, firstTrigger, width, true)
        == Some(width + percentage * width + (firstTrigger / 2.0) * width)
  {
    assert (percentage - firstTrigger / 2.0) * width == percentage * width - (firstTrigger / 2.0) * width;
    assert (percentage + firstTrigger / 2.0) * width == percentage * width + (firstTrigger / 2.0) * width;
  }

  /** Mirror image of a direction. */
  function Mirror(d: Direction): Direction
  {
    match d
    case Center => Center
    case Left => Right
    case Right => Left
  }

  /** Off the rest position, the icon of a leftward drag is the mirror image
      (about the row's width) of the icon of the matching rightward drag. */
  lemma IconMirror(percentage: real, direction: Direction, firstTrigger: real, width: real, isDragging: bool)
    requires width > 0.0 && firstTrigger > 0.0
    requires percentage != 0.0
    requires IconPosition(percentage, direction, firstTrigger, width, isDragging).Some?
    ensures IconPosition(-percentage, Mirror(direction), firstTrigger, width, isDragging).Some?
    ensures IconPosition(-percentage, Mirror(direction), firstTrigger, width, isDragging).value
         == width - IconPosition(percentage, direction, firstTrigger, width, isDragging).value
  {
    if isDragging {
      OffsetOdd(percentage - firstTrigger / 2.0, width);
      OffsetOdd(-percentage + firstTrigger / 2.0, width);
    }
  }

  /** Helper for IconMirror: the offset clamp is symmetric about zero. */
  lemma OffsetOdd(percentage: real, width: real)
    requires width > 0.0
    ensures GetOffset(-percentage, width) == -GetOffset(percentage, width)
  {
  }
}
