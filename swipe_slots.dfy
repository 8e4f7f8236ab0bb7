/** The row's eight slots: which registered slot a percentage selects
    (`swipeGetObject`), whether a side has any slot (`swipeGetGestureDirection`)
    and whether a pan gesture may begin (`gestureRecognizerShouldBegin`).
    A slot table maps each registered identifier to its object; an absent
    identifier is a nil slot. */
module SwipeSlots {
  import opened SwipeTypes

  type Slots = map<Gesture, SwipeObject>

  /** The order in which the row checks the slots; a later check overrides an
      earlier one. */
  const CheckOrder: seq<Gesture> := [Left1, Left2, Left3, Left4, Right1, Right2, Right3, Right4]

  /** The percentage condition each slot's check asks for. */
  predicate Reaches(g: Gesture, percentage: real, tr: Triggers)
  {
    match g
    case Left1 => percentage >= 0.0
    case Left2 => percentage >= tr.second
    case Left3 => percentage >= tr.third
    case Left4 => percentage >= tr.forth
    case Right1 => percentage <= 0.0
    case Right2 => percentage <= -tr.second
    case Right3 => percentage <= -tr.third
    case Right4 => percentage <= -tr.forth
  }

  /** A slot's check is satisfied: it is registered and its condition holds. */
  predicate Fires(slots: Slots, tr: Triggers, percentage: real, g: Gesture)
  {
    g in slots && Reaches(g, percentage, tr)
  }

  /** The slot the checks select, found by scanning CheckOrder from the end
      for the first satisfied check: it is satisfied and no later check is. */
  function Winner(slots: Slots, tr: Triggers, percentage: real): (w: Option<Gesture>)
    ensures w.Some? ==> Fires(slots, tr, percentage, w.value)
    ensures w.Some? ==> forall g :: IndexOf(w.value) < IndexOf(g) ==> !Fires(slots, tr, percentage, g)
    ensures w.None? <==> forall g :: !Fires(slots, tr, percentage, g)
  {
    if Fires(slots, tr, percentage, Right4) then Some(Right4)
    else if Fires(slots, tr, percentage, Right3) then Some(Right3)
    else if Fires(slots, tr, percentage, Right2) then Some(Right2)
    else if Fires(slots, tr, percentage, Right1) then Some(Right1)
    else if Fires(slots, tr, percentage, Left4) then Some(Left4)
    else if Fires(slots, tr, percentage, Left3) then Some(Left3)
    else if Fires(slots, tr, percentage, Left2) then Some(Left2)
    else if Fires(slots, tr, percentage, Left1) then Some(Left1)
    else None
  }

  /** Where a slot stands in CheckOrder. */
  function IndexOf(g: Gesture): (i: nat)
    ensures i < |CheckOrder| && CheckOrder[i] == g
  {
    match g
    case Left1 => 0
    case Left2 => 1
    case Left3 => 2
    case Left4 => 3
    case Right1 => 4
    case Right2 => 5
    case Right3 => 6
    case Right4 => 7
  }

  /** One `if let slot = Slot where condition { object = slot }` step of
      `swipeGetObject`: a registered slot whose condition holds replaces the
      object chosen so far. */
  function Override(current: Option<SwipeObject>, slots: Slots, g: Gesture, condition: bool): Option<SwipeObject>
  {
    if g in slots && condition then Some(slots[g]) else current
  }

  /** `swipeGetObject`: each check in turn, for a registered slot whose
      condition holds, overrides the object chosen so far. The result is the
      object of the last satisfied check in CheckOrder. */
  function GetObject(slots: Slots, tr: Triggers, percentage: real): (r: Option<SwipeObject>)
    ensures r.None? <==> Winner(slots, tr, percentage).None?
    ensures r.Some? ==> r.value == slots[Winner(slots, tr, percentage).value]
  {
    var o1 := Override(None, slots, Left1, percentage >= 0.0);
    var o2 := Override(o1, slots, Left2, percentage >= tr.second);
    var o3 := Override(o2, slots, Left3, percentage >= tr.third);
    var o4 := Override(o3, slots, Left4, percentage >= tr.forth);
    var o5 := Override(o4, slots, Right1, percentage <= 0.0);
    var o6 := Override(o5, slots, Right2, percentage <= -tr.second);
    var o7 := Override(o6, slots, Right3, percentage <= -tr.third);
    var o8 := Override(o7, slots, Right4, percentage <= -tr.forth);
    o8
  }

  /** `swipeGetGestureDirection`: whether the given side has any registered
      slot; the centre never has one. */
  function GetGestureDirection(slots: Slots, direction: Direction): (b: bool)
    ensures b <==> !direction.Center? && exists g :: g in slots && SideOf(g) == direction
  {
    match direction
    case Left =>
      assert Left1 in slots ==> SideOf(Left1) == direction;
      assert Left2 in slots ==> SideOf(Left2) == direction;
      assert Left3 in slots ==> SideOf(Left3) == direction;
      assert Left4 in slots ==> SideOf(Left4) == direction;
      Left1 in slots || Left2 in slots || Left3 in slots || Left4 in slots
    case Right =>
      assert Right1 in slots ==> SideOf(Right1) == direction;
      assert Right2 in slots ==> SideOf(Right2) == direction;
      assert Right3 in slots ==> SideOf(Right3) == direction;
      assert Right4 in slots ==> SideOf(Right4) == direction;
      Right1 in slots || Right2 in slots || Right3 in slots || Right4 in slots
    case Center => false
  }

  /** `gestureRecognizerShouldBegin`: only a pan whose horizontal speed beats
      its vertical speed may begin, and then not towards a side without
      slots. Leftward motion is checked against the Left slots and rightward
      motion against the Right slots. */
  function GestureShouldBegin(slots: Slots, isPan: bool, velocityX: real, velocityY: real): (b: bool)
    ensures b <==> isPan && Abs(velocityX) > Abs(velocityY)
                   && (velocityX < 0.0 ==> GetGestureDirection(slots, Left))
                   && (velocityX > 0.0 ==> GetGestureDirection(slots, Right))
    ensures b ==> velocityX != 0.0
  {
    if isPan then
      if Abs(velocityX) > Abs(velocityY) then
        if !GetGestureDirection(slots, Left) && velocityX < 0.0 then false
        else if !GetGestureDirection(slots, Right) && velocityX > 0.0 then false
        else true
      else false
    else false
  }

  // ---------------------------------------------------------------------
  // Properties of slot selection
  // ---------------------------------------------------------------------

  /** Nothing is selected exactly when no registered slot's condition holds. */
  lemma NilWhenNothingFires(slots: Slots, tr: Triggers, percentage: real)
    ensures GetObject(slots, tr, percentage).None?
        <==> forall g :: g in slots ==> !Reaches(g, percentage, tr)
  {
    assert Winner(slots, tr, percentage).None? <==> forall g :: !Fires(slots, tr, percentage, g);
  }

  /** At percentage 0 both Left1 and Right1 conditions hold; the right-side
      check runs later, so a registered Right1 wins unless a deeper right slot
      is reachable (impossible with positive triggers). */
  lemma Right1WinsAtZero(slots: Slots, tr: Triggers)
    requires Right1 in slots
    requires tr.second > 0.0 && tr.third > 0.0 && tr.forth > 0.0
    ensures GetObject(slots, tr, 0.0) == Some(slots[Right1])
  {
  }

  /** With the four left slots registered and ordered triggers, a rightward
      drag selects Left1, Left2, Left3, Left4 as it passes 0, the second, third
      and fourth triggers (Left1 already before the first trigger). */
  lemma LeftLadder(slots: Slots, tr: Triggers, percentage: real)
    requires Ordered(tr)
    requires Left1 in slots && Left2 in slots && Left3 in slots && Left4 in slots
    requires percentage > 0.0
    ensures percentage >= tr.forth ==> GetObject(slots, tr, percentage) == Some(slots[Left4])
    ensures tr.third <= percentage < tr.forth ==> GetObject(slots, tr, percentage) == Some(slots[Left3])
    ensures tr.second <= percentage < tr.third ==> GetObject(slots, tr, percentage) == Some(slots[Left2])
    ensures percentage < tr.second ==> GetObject(slots, tr, percentage) == Some(slots[Left1])
  {
  }

  /** The mirror image for the four right slots and a leftward drag. */
  lemma RightLadder(slots: Slots, tr: Triggers, percentage: real)
    requires Ordered(tr)
    requires Right1 in slots && Right2 in slots && Right3 in slots && Right4 in slots
    requires percentage <= 0.0
    ensures percentage <= -tr.forth ==> GetObject(slots, tr, percentage) == Some(slots[Right4])
    ensures -tr.forth < percentage <= -tr.third ==> GetObject(slots, tr, percentage) == Some(slots[Right3])
    ensures -tr.third < percentage <= -tr.second ==> GetObject(slots, tr, percentage) == Some(slots[Right2])
    ensures -tr.second < percentage ==> GetObject(slots, tr, percentage) == Some(slots[Right1])
  {
  }

  /** Dragging further never moves the selection back to an earlier slot of
      the same side: with ordered triggers, a deeper percentage of the same
      sign selects a slot of the same side at least as far in CheckOrder. */
  lemma SelectionMonotone(slots: Slots, tr: Triggers, p1: real, p2: real)
    requires Ordered(tr)
    requires (0.0 < p1 <= p2) || (p2 <= p1 < 0.0)
    requires Winner(slots, tr, p1).Some?
    ensures Winner(slots, tr, p2).Some?
    ensures SideOf(Winner(slots, tr, p2).value) == SideOf(Winner(slots, tr, p1).value)
    ensures IndexOf(Winner(slots, tr, p1).value) <= IndexOf(Winner(slots, tr, p2).value)
  {
    var g1 := Winner(slots, tr, p1).value;
    assert Fires(slots, tr, p2, g1);
  }

  /** With only Right1 registered, every percentage up to 0 selects it and
      every positive percentage selects nothing. */
  lemma OnlyRight1(slots: Slots, tr: Triggers, percentage: real)
    requires slots.Keys == {Right1}
    ensures percentage <= 0.0 ==> GetObject(slots, tr, percentage) == Some(slots[Right1])
    ensures percentage > 0.0 ==> GetObject(slots, tr, percentage).None?
  {
  }

  /** The gate and the selection disagree about sides: with no Left slot a
      leftward pan is refused, although a leftward drag (negative percentage)
      would select a registered Right1. */
  lemma LeftwardGateChecksLeftSlots(slots: Slots, tr: Triggers, velocityX: real, velocityY: real)
    requires Right1 in slots
    requires !GetGestureDirection(slots, Left)
    requires velocityX < 0.0
    ensures !GestureShouldBegin(slots, true, velocityX, velocityY)
    ensures forall p :: -tr.second < p <= 0.0 && -tr.third < p && -tr.forth < p ==>
      GetObject(slots, tr, p) == Some(slots[Right1])
  {
  }
}
