/** The swipeable row itself: the gesture handler, the drag-time colour and
    icon update, the two release animations with their completions, the
    delayed cleanup and row reuse. Animations and the delayed cleanup are
    not timed: starting one records it, and its completion is a separate
    event method. Delegate notifications and completion calls are recorded
    in a trace. */
module SwipeCellModel {
  import opened SwipeTypes
  import opened SwipeMath
  import opened SwipeSlots

  /** The phases a pan gesture recognizer reports. */
  datatype GestureState = Possible | Began | Changed | Ended | Cancelled | Failed

  /** What the row tells the outside world: the three delegate notifications
      and the call of a slot's completion closure. */
  datatype Notice = DidStartSwiping | DidSwipe(percentage: real) | DidEndSwiping | CompletionRan(completion: Completion)

  /** A release animation that has started, with what its completion handler
      captured. */
  datatype Animation =
    | Bouncing(duration: real, direction: Direction, completion: Option<Completion>, percentage: real)
    | Sliding(duration: real, direction: Direction, onComplete: Completion)

  /** The icon container: the icon it shows, its center x and its opacity. */
  datatype IconView = IconView(content: Option<Icon>, centerX: real, alpha: real)

  /** A freshly created icon container (empty, zero frame, opaque). */
  const FreshIcon: IconView := IconView(None, 0.0, 1.0)

  /** Indicator colour while dragging: the default colour when no slot is
      selected or the drag is before the trigger, the slot's colour otherwise. */
  function IndicatorColor(selected: Option<SwipeObject>, beforeTrigger: bool, defaultColor: Color): (c: Color)
    ensures selected.None? || beforeTrigger ==> c == defaultColor
    ensures selected.Some? && !beforeTrigger ==> c == selected.value.color
  {
    match selected
    case None => defaultColor
    case Some(o) => if beforeTrigger then defaultColor else o.color
  }

  /** The icon container after `swipeUpdateIcon`: moved and faded in unless
      the position logic returns early; the icon it shows is kept. */
  function UpdatedIcon(icon: IconView, percentage: real, direction: Direction, firstTrigger: real,
                       width: real, isDragging: bool): (updated: IconView)
    requires width > 0.0
    ensures updated.content == icon.content
    ensures !isDragging && direction.Center? ==> updated == icon
    ensures isDragging || !direction.Center? ==>
      Some(updated.centerX) == IconPosition(percentage, direction, firstTrigger, width, isDragging)
      && updated.alpha == GetAlpha(percentage, firstTrigger)
    ensures firstTrigger > 0.0 && (isDragging || !direction.Center?) ==>
      0.0 <= updated.centerX <= width && 0.0 <= updated.alpha <= 1.0
  {
    match IconPosition(percentage, direction, firstTrigger, width, isDragging)
    case None => icon
    case Some(x) => icon.(centerX := x, alpha := GetAlpha(percentage, firstTrigger))
  }

  /** The icon container after the drag-time update: the selected slot's icon
      replaces the old one and is repositioned; with no slot it is left as is. */
  function HeldIcon(icon: IconView, selected: Option<SwipeObject>, percentage: real, direction: Direction,
                    firstTrigger: real, width: real, isDragging: bool): (held: IconView)
    requires width > 0.0
    ensures selected.None? ==> held == icon
    ensures selected.Some? ==> held.content == Some(selected.value.icon)
    ensures selected.Some? && (isDragging || !direction.Center?) ==>
      Some(held.centerX) == IconPosition(percentage, direction, firstTrigger, width, isDragging)
      && held.alpha == GetAlpha(percentage, firstTrigger)
    ensures selected.Some? && !isDragging && direction.Center? ==>
      held.centerX == icon.centerX && held.alpha == icon.alpha
  {
    match selected
    case None => icon
    case Some(o) => UpdatedIcon(icon.(content := Some(o.icon)), percentage, direction, firstTrigger, width, isDragging)
  }

  /** The release decision of the gesture handler: bounce back when no slot
      is selected, when the drag is before the trigger or when the slot bounces;
      slide off otherwise. */
  function ReleaseAnimation(slots: Slots, tr: Triggers, percentage: real, direction: Direction,
                            duration: real): (a: Animation)
    ensures a.duration == duration && a.direction == direction
    ensures a.Sliding? <==> GetObject(slots, tr, percentage).Some?
                            && GetObject(slots, tr, percentage).value.mode == Slide
                            && !GetBeforeTrigger(percentage, direction, tr.first)
    ensures a.Sliding? ==> a.onComplete == GetObject(slots, tr, percentage).value.completion
    ensures a.Bouncing? ==> a.percentage == percentage
    ensures a.Bouncing? ==> (a.completion.Some? <==> GetObject(slots, tr, percentage).Some?)
    ensures a.Bouncing? && a.completion.Some? ==>
      a.completion.value == GetObject(slots, tr, percentage).value.completion
  {
    var selected := GetObject(slots, tr, percentage);
    if selected.None? then Bouncing(duration, direction, None, percentage)
    else if GetBeforeTrigger(percentage, direction, tr.first) || selected.value.mode == Bounce
    then Bouncing(duration, direction, Some(selected.value.completion), percentage)
    else
      assert selected.value.mode == Slide;
      Sliding(duration, direction, selected.value.completion)
  }

  /** The completion closure the finishing animation calls, judged with the
      first trigger current at that moment. */
  function FinishCallback(animation: Animation, firstTrigger: real): (c: Option<Completion>)
    ensures animation.Sliding? ==> c == Some(animation.onComplete)
    ensures animation.Bouncing? ==>
      (c.Some? <==> animation.completion.Some?
                    && !GetBeforeTrigger(animation.percentage, animation.direction, firstTrigger))
    ensures animation.Bouncing? && c.Some? ==> c == animation.completion
  {
    match animation
    case Bouncing(_, d, c, p) => if c.Some? && !GetBeforeTrigger(p, d, firstTrigger) then c else None
    case Sliding(_, _, c) => Some(c)
  }

  /** Where the slide animation sends the content's left edge. */
  function SlideOrigin(direction: Direction, width: real): (origin: real)
    requires width > 0.0
    ensures direction.Left? ==> origin == -width
    ensures direction.Right? ==> origin == width
    ensures direction.Center? ==> origin == 0.0
  {
    if direction == Left then -width
    else if direction == Right then width
    else 0.0
  }

  /** Where the release animation leaves the content's left edge. */
  function RestingOffset(animation: Animation, width: real): (offset: real)
    requires width > 0.0
    ensures -width <= offset <= width
    ensures !animation.Sliding? ==> offset == 0.0
    ensures animation.Sliding? ==> offset == SlideOrigin(animation.direction, width)
  {
    match animation
    case Sliding(_, d, _) => SlideOrigin(d, width)
    case Bouncing(_, _, _, _) => 0.0
  }

  // ---------------------------------------------------------------------
  // Properties of the release decision
  // ---------------------------------------------------------------------

  /** Whatever the slot's mode, a release ends in a call of the selected
      slot's completion exactly when the drag is not before the trigger
      (provided the first trigger is unchanged until the animation ends). */
  lemma ReleaseCallbackRule(slots: Slots, tr: Triggers, percentage: real, direction: Direction, duration: real)
    ensures FinishCallback(ReleaseAnimation(slots, tr, percentage, direction, duration), tr.first)
         == match GetObject(slots, tr, percentage)
            case None => None
            case Some(o) => if GetBeforeTrigger(percentage, direction, tr.first) then None else Some(o.completion)
  {
  }

  /** The content leaves the row only for a selected slide slot released past
      its trigger; every other release returns it to offset 0. */
  lemma SlideOnlyPastTrigger(slots: Slots, tr: Triggers, percentage: real, direction: Direction,
                             duration: real, width: real)
    requires width > 0.0
    ensures var a := ReleaseAnimation(slots, tr, percentage, direction, duration);
      a.Sliding? <==> (GetObject(slots, tr, percentage).Some?
                       && GetObject(slots, tr, percentage).value.mode == Slide
                       && !GetBeforeTrigger(percentage, direction, tr.first))
    ensures var a := ReleaseAnimation(slots, tr, percentage, direction, duration);
      !a.Sliding? ==> RestingOffset(a, width) == 0.0
  {
  }

  /** A release strictly between rest and the first trigger, in the direction
      of the drag, bounces back and calls nothing. */
  lemma ShortDragCallsNothing(slots: Slots, tr: Triggers, percentage: real, duration: real, width: real)
    requires width > 0.0 && tr.first > 0.0
    requires 0.0 < Abs(percentage) < tr.first
    ensures var a := ReleaseAnimation(slots, tr, percentage, GetDirection(percentage), duration);
      a.Bouncing? && RestingOffset(a, width) == 0.0 && FinishCallback(a, tr.first).None?
  {
    BeforeTriggerMeansShortDrag(percentage, tr.first);
  }

  /** A release at offset exactly 0 has direction Center, which is never
      "before the trigger": a registered Right1 is selected and its completion
      is called when the animation ends, although the row never moved past the
      first trigger. */
  lemma ReleaseAtRestCallsRight1(slots: Slots, tr: Triggers, duration: real)
    requires Ordered(tr)
    requires Right1 in slots
    ensures FinishCallback(ReleaseAnimation(slots, tr, 0.0, GetDirection(0.0), duration), tr.first)
         == Some(slots[Right1].completion)
  {
    Right1WinsAtZero(slots, tr);
  }

  /** With the direction of the drag itself and a positive first trigger, the
      indicator shows a slot's colour only at rest or at or past the first
      trigger. */
  lemma ColorOnlyPastTrigger(slots: Slots, tr: Triggers, percentage: real, defaultColor: Color)
    requires tr.first > 0.0
    requires GetObject(slots, tr, percentage).Some?
    ensures var c := IndicatorColor(GetObject(slots, tr, percentage),
                                    GetBeforeTrigger(percentage, GetDirection(percentage), tr.first), defaultColor);
      c == if percentage != 0.0 && Abs(percentage) < tr.first then defaultColor
           else GetObject(slots, tr, percentage).value.color
  {
    BeforeTriggerMeansShortDrag(percentage, tr.first);
  }

  /** The drag-time direction comes from the offset before the latest
      translation; while it is still Center (the first sample of a drag from
      rest) any selected slot's colour shows at once, however small the new
      offset. */
  lemma StaleCenterShowsSlotColor(selected: Option<SwipeObject>, percentage: real, firstTrigger: real, defaultColor: Color)
    requires selected.Some?
    ensures IndicatorColor(selected, GetBeforeTrigger(percentage, Center, firstTrigger), defaultColor) == selected.value.color
  {
  }

  /** A slide left or right leaves the icon opaque: its alpha is first set to
      0, but the icon update that follows sets it to the alpha at percentage
      -1 or 1, which is past any first trigger up to 1. Only a Center slide
      leaves it at 0: the update either returns early or sets the alpha for
      percentage 0, which is 0. */
  lemma SlideKeepsIconOpaque(icon: IconView, direction: Direction, firstTrigger: real, width: real, isDragging: bool)
    requires width > 0.0 && 0.0 < firstTrigger <= 1.0
    requires !direction.Center?
    ensures UpdatedIcon(icon.(alpha := 0.0), GetPercentage(SlideOrigin(direction, width), width),
                        direction, firstTrigger, width, isDragging).alpha == 1.0
  {
    SelfRatio(width);
    assert -width / width == -(width / width);
  }

  // ---------------------------------------------------------------------
  // The row
  // ---------------------------------------------------------------------

  class SwipeCell {
    /** Width of the row's bounds. */
    const width: real

    var shouldDrag: bool
    var shouldAnimateIcons: bool
    var triggers: Triggers
    var defaultColor: Color
    /** Whether a delegate is attached (it is held weakly and optional). */
    var hasDelegate: bool
    /** Whether the row still references its pan gesture recognizer. */
    var hasGesture: bool
    var slots: Slots

    var dragging: bool
    var isExiting: bool
    /** x of the content screenshot's frame origin. */
    var screenshotX: real
    /** Background colour of the indicator view; None before one is set. */
    var indicatorColor: Option<Color>
    var icon: IconView
    /** Whether the three overlay views are attached to the row. */
    var overlayAttached: bool
    /** Release animations started and not yet finished, oldest first. Each
        runs its own completion handler when it ends, so a release while an
        earlier animation is still running does not cancel that one. */
    var inFlight: seq<Animation>
    /** Delayed cleanups scheduled and not yet run. */
    var pendingCleanups: nat
    var notices: seq<Notice>

    /** The row's invariant: a positive width, never dragging while exiting,
        and never exiting without an animation or a cleanup that will end it. */
    ghost predicate Valid()
      reads this
    {
      width > 0.0
      && !(dragging && isExiting)
      && (isExiting ==> |inFlight| > 0 || pendingCleanups > 0)
    }

    /** A new row: the initializer attaches a pan gesture recognizer; every
        other property has its declared initial value. */
    constructor (width: real)
      requires width > 0.0
      ensures Valid()
      ensures this.width == width
      ensures shouldDrag && shouldAnimateIcons
      ensures triggers == DefaultTriggers && defaultColor == LightGray
      ensures !hasDelegate && hasGesture && slots == map[]
      ensures !dragging && !isExiting && screenshotX == 0.0
      ensures indicatorColor.None? && icon == FreshIcon && !overlayAttached
      ensures inFlight == [] && pendingCleanups == 0 && notices == []
    {
      this.width := width;
      shouldDrag, shouldAnimateIcons := true, true;
      triggers, defaultColor := DefaultTriggers, LightGray;
      hasDelegate, slots := false, map[];
      dragging, isExiting := false, false;
      screenshotX, indicatorColor, icon := 0.0, None, FreshIcon;
      overlayAttached, inFlight, pendingCleanups, notices := false, [], 0, [];
      hasGesture := true;
    }

    /** `addSwipeGesture`: registers an action in one slot, replacing any
        earlier one there. */
    method AddSwipeGesture(swipeGesture: Gesture, swipeMode: Mode, iconHandle: Icon, color: Color,
                           completion: Completion)
      requires Valid()
      modifies this`slots
      ensures Valid()
      ensures slots == old(slots)[swipeGesture := SwipeObject(color, iconHandle, swipeMode, completion)]
      ensures swipeGesture in slots && slots[swipeGesture].completion == completion
      ensures forall g :: g != swipeGesture ==> (g in slots <==> g in old(slots))
      ensures forall g :: g != swipeGesture && g in slots ==> slots[g] == old(slots)[g]
    {
      slots := slots[swipeGesture := SwipeObject(color, iconHandle, swipeMode, completion)];
    }

    /** `prepareForReuse`: the dealloc step (drop delegate and gesture, schedule
        a cleanup) followed by the initializer (attach a new gesture). The slots
        are kept. */
    method PrepareForReuse()
      requires Valid()
      modifies this
      ensures Valid()
      ensures !hasDelegate && hasGesture
      ensures pendingCleanups == old(pendingCleanups) + 1
      ensures slots == old(slots)
      ensures dragging == old(dragging) && isExiting == old(isExiting)
      ensures screenshotX == old(screenshotX) && inFlight == old(inFlight)
      ensures indicatorColor == old(indicatorColor) && icon == old(icon)
      ensures overlayAttached == old(overlayAttached) && notices == old(notices)
      ensures shouldDrag == old(shouldDrag) && shouldAnimateIcons == old(shouldAnimateIcons)
      ensures triggers == old(triggers) && defaultColor == old(defaultColor)
    {
      Dealloc();
      hasGesture := true;
    }

    /** `swipeDealloc`: forget the delegate and the gesture recognizer and
        schedule the delayed cleanup. */
    method Dealloc()
      requires Valid()
      modifies this`hasDelegate, this`hasGesture, this`pendingCleanups
      ensures Valid()
      ensures !hasDelegate && !hasGesture
      ensures pendingCleanups == old(pendingCleanups) + 1
    {
      hasDelegate := false;
      hasGesture := false;
      pendingCleanups := pendingCleanups + 1;
    }

    /** The delayed cleanup of `swipeDealloc` runs: the row stops exiting and
        the overlay views are detached. */
    method CleanupFired()
      requires Valid()
      requires pendingCleanups > 0
      modifies this`isExiting, this`overlayAttached, this`pendingCleanups
      ensures Valid()
      ensures !isExiting && !overlayAttached
      ensures pendingCleanups == old(pendingCleanups) - 1
    {
      isExiting := false;
      overlayAttached := false;
      pendingCleanups := pendingCleanups - 1;
    }

    /** `swipeCreateView`: attach a default-coloured indicator, an empty icon
        container and a fresh screenshot at offset 0. */
    method CreateView()
      modifies this`overlayAttached, this`indicatorColor, this`icon, this`screenshotX
      ensures overlayAttached && indicatorColor == Some(defaultColor)
      ensures icon == FreshIcon && screenshotX == 0.0
    {
      overlayAttached := true;
      indicatorColor := Some(defaultColor);
      icon := FreshIcon;
      screenshotX := 0.0;
    }

    /** `swipeUpdateIcon`: position the icon and set its opacity, unless the
        position logic returns early. */
    method UpdateIcon(percentage: real, direction: Direction, isDragging: bool)
      requires width > 0.0
      modifies this`icon
      ensures icon == UpdatedIcon(old(icon), percentage, direction, triggers.first, width, isDragging)
    {
      var position := IconPosition(percentage, direction, triggers.first, width, isDragging);
      match position
      case None =>
        return;
      case Some(x) =>
        icon := icon.(centerX := x, alpha := GetAlpha(percentage, triggers.first));
    }

    /** `swipeAnimateHold`: colour the indicator and show, place and fade the
        selected slot's icon for the content's current offset. */
    method AnimateHold(offset: real, direction: Direction)
      requires width > 0.0
      modifies this`indicatorColor, this`icon
      ensures var percentage := GetPercentage(offset, width);
        var selected := GetObject(slots, triggers, percentage);
        indicatorColor == Some(IndicatorColor(selected, GetBeforeTrigger(percentage, direction, triggers.first), defaultColor))
        && icon == HeldIcon(old(icon), selected, percentage, direction, triggers.first, width, shouldAnimateIcons)
    {
      var percentage := GetPercentage(offset, width);
      var selected := GetObject(slots, triggers, percentage);
      match selected
      case Some(o) =>
        indicatorColor := Some(if GetBeforeTrigger(percentage, direction, triggers.first) then defaultColor else o.color);
        icon := icon.(content := Some(o.icon));
        UpdateIcon(percentage, direction, shouldAnimateIcons);
      case None =>
        indicatorColor := Some(defaultColor);
    }

    /** `swipeDirectionBounce`: the content returns to offset 0, the indicator
        to the default colour and the icon fades out; the completion handler is
        started with what it needs later. */
    method DirectionBounce(duration: real, direction: Direction, completion: Option<Completion>, percentage: real)
      requires width > 0.0
      modifies this`screenshotX, this`indicatorColor, this`icon, this`inFlight
      ensures screenshotX == 0.0 && indicatorColor == Some(defaultColor)
      ensures icon == UpdatedIcon(old(icon).(alpha := 0.0), 0.0, direction, triggers.first, width, shouldAnimateIcons)
      ensures inFlight == old(inFlight) + [Bouncing(duration, direction, completion, percentage)]
    {
      screenshotX := 0.0;
      indicatorColor := Some(defaultColor);
      icon := icon.(alpha := 0.0);
      UpdateIcon(0.0, direction, shouldAnimateIcons);
      inFlight := inFlight + [Bouncing(duration, direction, completion, percentage)];
    }

    /** `swipeDirectionSlide`: the content moves a full width in the drag
        direction (not at all for Center). The icon's alpha is set to 0 and
        then updated for percentage -1 or 1, so a Left or Right slide leaves it
        opaque at the moving content edge (SlideKeepsIconOpaque). */
    method DirectionSlide(duration: real, direction: Direction, completion: Completion)
      requires width > 0.0
      modifies this`screenshotX, this`icon, this`inFlight
      ensures screenshotX == SlideOrigin(direction, width)
      ensures icon == UpdatedIcon(old(icon).(alpha := 0.0), GetPercentage(SlideOrigin(direction, width), width),
                                  direction, triggers.first, width, shouldAnimateIcons)
      ensures inFlight == old(inFlight) + [Sliding(duration, direction, completion)]
    {
      var origin: real;
      if direction == Left {
        origin := -width;
      } else if direction == Right {
        origin := width;
      } else {
        origin := 0.0;
      }
      var percentage := GetPercentage(origin, width);
      screenshotX := origin;
      icon := icon.(alpha := 0.0);
      UpdateIcon(percentage, direction, shouldAnimateIcons);
      inFlight := inFlight + [Sliding(duration, direction, completion)];
    }

    /** The bounce animation at position i of the running ones finishes: if a
        completion was captured and the release was not before the trigger,
        call it and dealloc; otherwise simply stop exiting. */
    method BounceFinished(i: nat)
      requires Valid()
      requires i < |inFlight| && inFlight[i].Bouncing?
      modifies this
      ensures Valid()
      ensures inFlight == old(inFlight[..i] + inFlight[i + 1..])
      ensures var callback := FinishCallback(old(inFlight[i]), old(triggers.first));
        if callback.Some? then
          notices == old(notices) + [CompletionRan(callback.value)]
          && !hasDelegate && !hasGesture && pendingCleanups == old(pendingCleanups) + 1
          && isExiting == old(isExiting)
        else
          notices == old(notices) && !isExiting
          && hasDelegate == old(hasDelegate) && hasGesture == old(hasGesture)
          && pendingCleanups == old(pendingCleanups)
      ensures slots == old(slots) && dragging == old(dragging) && screenshotX == old(screenshotX)
      ensures indicatorColor == old(indicatorColor) && icon == old(icon) && overlayAttached == old(overlayAttached)
      ensures triggers == old(triggers) && defaultColor == old(defaultColor)
      ensures shouldDrag == old(shouldDrag) && shouldAnimateIcons == old(shouldAnimateIcons)
    {
      var completion, direction, percentage := inFlight[i].completion, inFlight[i].direction, inFlight[i].percentage;
      if completion.Some? && !GetBeforeTrigger(percentage, direction, triggers.first) {
        notices := notices + [CompletionRan(completion.value)];
        Dealloc();
      } else {
        isExiting := false;
      }
      inFlight := inFlight[..i] + inFlight[i + 1..];
    }

    /** The slide animation at position i of the running ones finishes: call
        the completion and dealloc. */
    method SlideFinished(i: nat)
      requires Valid()
      requires i < |inFlight| && inFlight[i].Sliding?
      modifies this
      ensures Valid()
      ensures inFlight == old(inFlight[..i] + inFlight[i + 1..])
      ensures notices == old(notices) + [CompletionRan(old(inFlight[i]).onComplete)]
      ensures !hasDelegate && !hasGesture && pendingCleanups == old(pendingCleanups) + 1
      ensures isExiting == old(isExiting)
      ensures slots == old(slots) && dragging == old(dragging) && screenshotX == old(screenshotX)
      ensures indicatorColor == old(indicatorColor) && icon == old(icon) && overlayAttached == old(overlayAttached)
      ensures triggers == old(triggers) && defaultColor == old(defaultColor)
      ensures shouldDrag == old(shouldDrag) && shouldAnimateIcons == old(shouldAnimateIcons)
    {
      var completion := inFlight[i].onComplete;
      notices := notices + [CompletionRan(completion)];
      Dealloc();
      inFlight := inFlight[..i] + inFlight[i + 1..];
    }

    /** `handleSwipeGesture`. Ignored entirely while dragging is disabled or
        the row is exiting. The percentage, direction and duration are taken
        before the sample's translation is applied, from the screenshot as it
        was. Began and Changed are a drag sample, Ended and Cancelled a
        release; other phases change nothing. */
    method HandleSwipeGesture(state: GestureState, translationX: real, velocityX: real)
      requires Valid()
      modifies this
      ensures Valid()
      ensures !old(shouldDrag) || old(isExiting) || !(state in {Began, Changed, Ended, Cancelled}) ==>
        unchanged(this)
      // what never changes here
      ensures slots == old(slots) && triggers == old(triggers) && defaultColor == old(defaultColor)
      ensures shouldDrag == old(shouldDrag) && shouldAnimateIcons == old(shouldAnimateIcons)
      ensures hasDelegate == old(hasDelegate) && hasGesture == old(hasGesture)
      ensures pendingCleanups == old(pendingCleanups)
      // a drag sample
      ensures old(shouldDrag) && !old(isExiting) && state in {Began, Changed} ==>
        var percentage := GetPercentage(old(screenshotX), width);
        var direction := GetDirection(percentage);
        var offset := (if state == Began then 0.0 else old(screenshotX)) + translationX;
        var before := if state == Began then FreshIcon else old(icon);
        var held := GetPercentage(offset, width);
        var selected := GetObject(slots, triggers, held);
        screenshotX == offset
        && dragging == (state == Began || old(dragging))
        && overlayAttached == (state == Began || old(overlayAttached))
        && notices == old(notices) + (if hasDelegate
                                      then (if state == Began then [DidStartSwiping] else []) + [DidSwipe(percentage)]
                                      else [])
        && indicatorColor == Some(IndicatorColor(selected, GetBeforeTrigger(held, direction, triggers.first), defaultColor))
        && icon == HeldIcon(before, selected, held, direction, triggers.first, width, shouldAnimateIcons)
        && !isExiting && inFlight == old(inFlight)
      // a release
      ensures old(shouldDrag) && !old(isExiting) && state in {Ended, Cancelled} ==>
        var percentage := GetPercentage(old(screenshotX), width);
        var direction := GetDirection(percentage);
        var duration := GetAnimationDuration(velocityX, width);
        var started := ReleaseAnimation(slots, triggers, percentage, direction, duration);
        inFlight == old(inFlight) + [started]
        && screenshotX == RestingOffset(started, width)
        && (started.Bouncing? ==> (indicatorColor == Some(defaultColor)
            && icon == UpdatedIcon(old(icon).(alpha := 0.0), 0.0, direction, triggers.first, width, shouldAnimateIcons)))
        && (started.Sliding? ==> (indicatorColor == old(indicatorColor)
            && icon == UpdatedIcon(old(icon).(alpha := 0.0), GetPercentage(SlideOrigin(direction, width), width),
                                   direction, triggers.first, width, shouldAnimateIcons)))
        && !dragging && isExiting
        && notices == old(notices) + (if hasDelegate then [DidEndSwiping] else [])
        && overlayAttached == old(overlayAttached)
    {
      if !shouldDrag || isExiting {
        return;
      }
      var percentage := GetPercentage(screenshotX, width);
      var duration := GetAnimationDuration(velocityX, width);
      var direction := GetDirection(percentage);

      if state == Began || state == Changed {
        DragSample(state == Began, translationX, percentage, direction);
      } else if state == Cancelled || state == Ended {
        Release(percentage, direction, duration);
      }
    }

    /** The Began/Changed branch of `handleSwipeGesture`, given the percentage
        and direction taken before the translation. */
    method DragSample(began: bool, translationX: real, percentage: real, direction: Direction)
      requires Valid() && !isExiting
      modifies this
      ensures Valid()
      ensures var offset := (if began then 0.0 else old(screenshotX)) + translationX;
        var before := if began then FreshIcon else old(icon);
        var held := GetPercentage(offset, width);
        var selected := GetObject(slots, triggers, held);
        screenshotX == offset
        && dragging == (began || old(dragging))
        && overlayAttached == (began || old(overlayAttached))
        && notices == old(notices) + (if hasDelegate
                                      then (if began then [DidStartSwiping] else []) + [DidSwipe(percentage)]
                                      else [])
        && indicatorColor == Some(IndicatorColor(selected, GetBeforeTrigger(held, direction, triggers.first), defaultColor))
        && icon == HeldIcon(before, selected, held, direction, triggers.first, width, shouldAnimateIcons)
      ensures !isExiting && inFlight == old(inFlight)
      ensures slots == old(slots) && triggers == old(triggers) && defaultColor == old(defaultColor)
      ensures shouldDrag == old(shouldDrag) && shouldAnimateIcons == old(shouldAnimateIcons)
      ensures hasDelegate == old(hasDelegate) && hasGesture == old(hasGesture)
      ensures pendingCleanups == old(pendingCleanups)
    {
      if began {
        StartDrag();
      }
      if hasDelegate {
        notices := notices + [DidSwipe(percentage)];
      }
      MoveAndHold(translationX, direction);
    }

    /** The move of a drag sample: the screenshot shifts by the translation
        and the indicator and icon follow the new offset. */
    method MoveAndHold(translationX: real, direction: Direction)
      requires width > 0.0
      modifies this`screenshotX, this`indicatorColor, this`icon
      ensures screenshotX == old(screenshotX) + translationX
      ensures var held := GetPercentage(screenshotX, width);
        var selected := GetObject(slots, triggers, held);
        indicatorColor == Some(IndicatorColor(selected, GetBeforeTrigger(held, direction, triggers.first), defaultColor))
        && icon == HeldIcon(old(icon), selected, held, direction, triggers.first, width, shouldAnimateIcons)
    {
      screenshotX := screenshotX + translationX;
      AnimateHold(screenshotX, direction);
    }

    /** The start of a Began sample: dragging starts, the delegate is told and
        the overlay views are created. */
    method StartDrag()
      modifies this`dragging, this`notices, this`overlayAttached, this`indicatorColor, this`icon, this`screenshotX
      ensures dragging && overlayAttached && icon == FreshIcon && screenshotX == 0.0
      ensures indicatorColor == Some(defaultColor)
      ensures notices == old(notices) + (if hasDelegate then [DidStartSwiping] else [])
    {
      dragging := true;
      if hasDelegate {
        notices := notices + [DidStartSwiping];
      }
      CreateView();
    }

    /** The Ended/Cancelled branch of `handleSwipeGesture`: stop dragging,
        start exiting and run the bounce or the slide for the selected slot. */
    method Release(percentage: real, direction: Direction, duration: real)
      requires Valid() && !isExiting
      modifies this
      ensures Valid()
      ensures var started := ReleaseAnimation(slots, triggers, percentage, direction, duration);
        inFlight == old(inFlight) + [started]
        && screenshotX == RestingOffset(started, width)
        && (started.Bouncing? ==> (indicatorColor == Some(defaultColor)
          && icon == UpdatedIcon(old(icon).(alpha := 0.0), 0.0, direction, triggers.first, width, shouldAnimateIcons)))
        && (started.Sliding? ==> (indicatorColor == old(indicatorColor)
          && icon == UpdatedIcon(old(icon).(alpha := 0.0), GetPercentage(SlideOrigin(direction, width), width),
                                 direction, triggers.first, width, shouldAnimateIcons)))
      ensures !dragging && isExiting
      ensures notices == old(notices) + (if hasDelegate then [DidEndSwiping] else [])
      ensures overlayAttached == old(overlayAttached)
      ensures slots == old(slots) && triggers == old(triggers) && defaultColor == old(defaultColor)
      ensures shouldDrag == old(shouldDrag) && shouldAnimateIcons == old(shouldAnimateIcons)
      ensures hasDelegate == old(hasDelegate) && hasGesture == old(hasGesture)
      ensures pendingCleanups == old(pendingCleanups)
    {
      dragging := false;
      isExiting := true;
      if hasDelegate {
        notices := notices + [DidEndSwiping];
      }
      StartReleaseAnimation(percentage, direction, duration);
    }

    /** The animation choice of a release: the bounce when no slot is
        selected, before the trigger or for a bouncing slot, the slide
        otherwise. */
    method StartReleaseAnimation(percentage: real, direction: Direction, duration: real)
      requires width > 0.0
      modifies this`screenshotX, this`indicatorColor, this`icon, this`inFlight
      ensures var started := ReleaseAnimation(slots, triggers, percentage, direction, duration);
        inFlight == old(inFlight) + [started]
        && screenshotX == RestingOffset(started, width)
        && (started.Bouncing? ==> (indicatorColor == Some(defaultColor)
          && icon == UpdatedIcon(old(icon).(alpha := 0.0), 0.0, direction, triggers.first, width, shouldAnimateIcons)))
        && (started.Sliding? ==> (indicatorColor == old(indicatorColor)
          && icon == UpdatedIcon(old(icon).(alpha := 0.0), GetPercentage(SlideOrigin(direction, width), width),
                                 direction, triggers.first, width, shouldAnimateIcons)))
    {
      var selected := GetObject(slots, triggers, percentage);
      match selected
      case Some(o) =>
        if GetBeforeTrigger(percentage, direction, triggers.first) || o.mode == Bounce {
          DirectionBounce(duration, direction, Some(o.completion), percentage);
        } else {
          DirectionSlide(duration, direction, o.completion);
        }
      case None =>
        DirectionBounce(duration, direction, None, percentage);
    }
  }
}
