/** Whole-gesture runs of a row 100 points wide with one Right1 action
    (completion handle 7), driven through the row's methods as the host and
    UIKit would drive them. Each returns what the row reported, so that its
    postcondition states the outcome. */
module SwipeScenarios {
  import opened SwipeTypes
  import opened SwipeSlots
  import opened SwipeCellModel

  /** A row with a delegate and a Right1 action in the given mode. */
  method NewRowWithRight1(mode: Mode) returns (cell: SwipeCell)
    ensures fresh(cell) && cell.Valid() && cell.width == 100.0
    ensures cell.slots == map[Right1 := SwipeObject(3, 5, mode, 7)]
    ensures cell.shouldDrag && !cell.isExiting && !cell.dragging && cell.screenshotX == 0.0
    ensures cell.hasDelegate && cell.triggers == DefaultTriggers && cell.shouldAnimateIcons
    ensures cell.inFlight == [] && cell.notices == [] && cell.pendingCleanups == 0
  {
    cell := new SwipeCell(100.0);
    cell.hasDelegate := true;
    cell.AddSwipeGesture(Right1, mode, 5, 3, 7);
  }

  /** Dragging 5 points left (before the 0.15 first trigger) and releasing:
      the row bounces back, the completion is not called and the row stops
      exiting when the animation ends. */
  method ShortDragBouncesBack() returns (notices: seq<Notice>, offset: real, exiting: bool)
    ensures notices == [DidStartSwiping, DidSwipe(0.0), DidEndSwiping]
    ensures offset == 0.0 && !exiting
  {
    var cell := NewRowWithRight1(Slide);
    cell.HandleSwipeGesture(Began, -5.0, 0.0);
    assert cell.screenshotX == -5.0;
    cell.HandleSwipeGesture(Ended, 0.0, 0.0);
    assert cell.inFlight == [Bouncing(0.35, Left, Some(7), -0.05)];
    cell.BounceFinished(0);
    notices, offset, exiting := cell.notices, cell.screenshotX, cell.isExiting;
  }

  /** Dragging 40 points left onto a slide action and releasing: the content
      leaves the row, the completion is called once when the animation ends,
      after which the delegate is gone, and the delayed cleanup detaches the
      overlay and ends exiting. */
  method SlidePastTriggerCallsOnce() returns (notices: seq<Notice>, offset: real, exiting: bool, overlay: bool)
    ensures notices == [DidStartSwiping, DidSwipe(0.0), DidEndSwiping, CompletionRan(7)]
    ensures offset == -100.0 && !exiting && !overlay
  {
    var cell := NewRowWithRight1(Slide);
    cell.HandleSwipeGesture(Began, -40.0, 0.0);
    assert cell.screenshotX == -40.0;
    cell.HandleSwipeGesture(Ended, 0.0, -100.0);
    assert cell.inFlight == [Sliding(0.2, Left, 7)];
    cell.SlideFinished(0);
    // the row ignores gestures until the cleanup has run
    cell.HandleSwipeGesture(Began, 10.0, 0.0);
    cell.CleanupFired();
    notices, offset, exiting, overlay := cell.notices, cell.screenshotX, cell.isExiting, cell.overlayAttached;
  }

  /** Dragging 40 points left onto a bounce action and releasing: the content
      returns to offset 0 and the completion is still called once. */
  method BouncePastTriggerCallsOnce() returns (notices: seq<Notice>, offset: real)
    ensures notices == [DidStartSwiping, DidSwipe(0.0), DidEndSwiping, CompletionRan(7)]
    ensures offset == 0.0
  {
    var cell := NewRowWithRight1(Bounce);
    cell.HandleSwipeGesture(Began, -40.0, 0.0);
    cell.HandleSwipeGesture(Ended, 0.0, 0.0);
    assert cell.inFlight == [Bouncing(0.35, Left, Some(7), -0.4)];
    cell.BounceFinished(0);
    notices, offset := cell.notices, cell.screenshotX;
  }

  /** A gesture that begins and ends with no net movement: the release is at
      percentage 0, direction Center, Right1 is selected and its slide runs in
      place and calls the completion. */
  method ReleaseAtRestCallsCompletion() returns (notices: seq<Notice>, offset: real)
    ensures notices == [DidStartSwiping, DidSwipe(0.0), DidEndSwiping, CompletionRan(7)]
    ensures offset == 0.0
  {
    var cell := NewRowWithRight1(Slide);
    cell.HandleSwipeGesture(Began, 0.0, 0.0);
    cell.HandleSwipeGesture(Ended, 0.0, 0.0);
    assert cell.inFlight == [Sliding(0.35, Center, 7)];
    cell.SlideFinished(0);
    notices, offset := cell.notices, cell.screenshotX;
  }

  /** Reuse keeps the registered slots: a recycled row still selects its old
      Right1 action for a leftward percentage. */
  method ReuseKeepsSlots() returns (selected: Option<SwipeObject>)
    ensures selected == Some(SwipeObject(3, 5, Slide, 7))
  {
    var cell := NewRowWithRight1(Slide);
    cell.PrepareForReuse();
    selected := GetObject(cell.slots, cell.triggers, -0.5);
  }

  /** Registering twice in one slot leaves only the second action. */
  method SecondRegistrationWins() returns (slots: Slots)
    ensures slots == map[Right1 := SwipeObject(4, 6, Bounce, 8)]
  {
    var cell := NewRowWithRight1(Slide);
    cell.AddSwipeGesture(Right1, Bounce, 6, 4, 8);
    slots := cell.slots;
  }

  /** The delayed cleanup scheduled by reuse is not cancelled: if a new drag
      begins before it runs, it detaches that drag's overlay mid-drag. */
  method ReuseCleanupHitsNextDrag() returns (dragging: bool, overlay: bool)
    ensures dragging && !overlay
  {
    var cell := NewRowWithRight1(Slide);
    cell.PrepareForReuse();
    cell.HandleSwipeGesture(Began, -20.0, 0.0);
    cell.CleanupFired();
    dragging, overlay := cell.dragging, cell.overlayAttached;
  }

  /** A reused row whose first drag (40 points left onto the bounce action)
      has been released, after which the cleanup scheduled by reuse ran: the
      row no longer exits although the bounce is still running. */
  method ReusedRowStillBouncing() returns (cell: SwipeCell)
    ensures fresh(cell) && cell.Valid() && cell.width == 100.0
    ensures cell.slots == map[Right1 := SwipeObject(3, 5, Bounce, 7)]
    ensures cell.shouldDrag && !cell.isExiting && !cell.dragging && cell.screenshotX == 0.0
    ensures !cell.hasDelegate && cell.triggers == DefaultTriggers && cell.shouldAnimateIcons
    ensures cell.inFlight == [Bouncing(0.35, Left, Some(7), -0.4)]
    ensures cell.notices == [] && cell.pendingCleanups == 0
  {
    cell := NewRowWithRight1(Bounce);
    cell.PrepareForReuse();
    cell.HandleSwipeGesture(Began, -40.0, 0.0);
    cell.HandleSwipeGesture(Ended, 0.0, 0.0);
    cell.CleanupFired();
  }

  /** While that first bounce still runs, a second drag can be released. Both
      bounces then finish and each calls the completion it captured. */
  method OverlappingReleasesBothComplete() returns (notices: seq<Notice>, cleanups: nat)
    ensures notices == [CompletionRan(7), CompletionRan(7)]
    ensures cleanups == 2
  {
    var cell := ReusedRowStillBouncing();
    cell.HandleSwipeGesture(Began, -40.0, 0.0);
    cell.HandleSwipeGesture(Ended, 0.0, 0.0);
    assert cell.inFlight == [Bouncing(0.35, Left, Some(7), -0.4), Bouncing(0.35, Left, Some(7), -0.4)];
    cell.BounceFinished(0);
    cell.BounceFinished(0);
    notices, cleanups := cell.notices, cell.pendingCleanups;
  }
}
