# Swipeable table row: a Dafny model

This project models the swipe-row state machine of `SwipeCell`, the
`UITableViewCell` subclass in the `swipe` iOS project. A row has eight
optional action slots: `Left1..Left4`, revealed by dragging the content to the
right, and `Right1..Right4`, revealed by dragging it to the left. A horizontal
pan moves a screenshot of the content. While it moves, the row colours an
indicator and places an icon for whichever slot the current drag percentage
selects. On release the row either bounces back or slides the content out. It
then calls the slot's completion closure when the animation ends, and a
delayed cleanup tears the overlay down.

The model has four modules:

- `SwipeTypes` (`swipe_types.dfy`) holds the value types: direction, slot
  identifier, mode, a registered slot (`SwipeObject`) and the four trigger
  thresholds. Colours, icons and completion closures are opaque handles.
- `SwipeMath` (`swipe_math.dfy`) holds the effect-free `swipeGet*` helpers:
  percentage and offset clamps, direction, before-trigger, alpha and
  animation duration. It also has the icon x-position choice of
  `swipeUpdateIcon`. Lemmas relate them: the round trips between offset and
  percentage, symmetry and monotonicity of alpha and duration, and the icon
  tracking the content edge and mirroring between sides.
- `SwipeSlots` (`swipe_slots.dfy`) covers the slot table as a map from slot
  identifier to slot, slot selection (`swipeGetObject`), side availability and
  the pan gate. `GetObject` keeps the source's chain of overriding checks. It is
  proved equal to `Winner`, an independent definition: scan the checks from
  the end and take the first satisfied one. Lemmas cover the ladders of the
  four left and the four right slots, `Right1` winning at percentage 0, the
  nil result, and monotonicity of the selection in the drag.
- `SwipeCellModel` (`swipe_cell.dfy`) is the row itself, a class whose fields
  the gesture handler updates: `dragging`, `isExiting`, the screenshot x, the
  indicator colour, the icon view, the overlay presence, the release
  animations still running (oldest first), the pending delayed cleanups and a trace of delegate
  notifications and completion calls. The two animation completions and the
  delayed cleanup are separate event methods. Lemmas about the release
  decision state when a completion runs and when the content leaves the row.
- `SwipeScenarios` (`swipe_scenarios.dfy`) drives whole gestures through the
  row's methods: a short drag, a slide and a bounce past the trigger, a release
  at rest, reuse, re-registration, and two overlapping bounces after a reuse. Each states the resulting trace and
  offsets.

CGFloat and NSTimeInterval values are modelled as `real`. The row only clamps,
divides and compares them. Every helper that divides by the row width
requires a positive width.

Where the documented intent and the code differ, the model follows the code:

- The release animation lasts 0.35 at zero velocity and 0.2 at full velocity,
  because `kDurationLowLimit` and `kDurationHighLimit` are added and subtracted
  as written.
- `prepareForReuse` keeps the eight slots.
- The gesture handler ignores a sample only when dragging is disabled or the
  row is exiting.
- Before-trigger is false for direction `Center`. A release with no net
  movement therefore calls a registered `Right1` completion.
- The pan gate checks the Left slots for leftward motion and the Right slots
  for rightward motion. This is the opposite of the side that the drag's
  percentage selects from.
- A slide does not fade the icon out. The icon's alpha is set to 0, but the
  icon update in the same animation block then sets it to the alpha at
  percentage -1 or 1, which is 1. Only a Center slide leaves it at 0.

## Model

| member | source | states |
|---|---|---|
| SwipeMath.GetPercentage | swipe/SwipeCell.swift:413-423 | the percentage lies in [-1, 1]; it is offset/width whenever that ratio is in range, and -1 or 1 beyond it |
| SwipeMath.GetOffset | swipe/SwipeCell.swift:425-435 | the offset lies in [-width, width]; it is percentage*width for percentages in [-1, 1], and the clamp otherwise; it keeps the percentage's sign |
| SwipeMath.GetDirection | swipe/SwipeCell.swift:468-477 | Left iff percentage < 0, Right iff > 0, Center iff = 0 |
| SwipeMath.GetBeforeTrigger | swipe/SwipeCell.swift:403-410 | false for Center; for Left true iff percentage > -firstTrigger; for Right true iff percentage < firstTrigger |
| SwipeMath.GetAlpha | swipe/SwipeCell.swift:454-466 | with a positive first trigger: alpha lies in [0, 1], equals \|p\|/firstTrigger before the trigger and is 0 at p = 0; alpha is 1 at or past the trigger |
| SwipeMath.GetAnimationDuration | swipe/SwipeCell.swift:437-452 | the duration lies in [0.2, 0.35]; it is exactly 0.35 − 0.15·\|clamp(vx)\|/width, so 0.35 at zero velocity and 0.2 once \|vx\| >= width |
| SwipeMath.ClampVelocity | swipe/SwipeCell.swift:441-447 | the clamped velocity lies in [-width, width], never exceeds the speed, is unchanged within range and has speed width beyond it |
| SwipeMath.IconPosition | swipe/SwipeCell.swift:276-300 | the early return happens exactly when not tracking the drag and the direction is Center; with a positive first trigger every placed x lies within the row; with a first trigger in (0, 1], a drag below the trigger and a floating icon rest half a first trigger of the width in from their edge: at (firstTrigger/2)·width for p in [0, firstTrigger) and for Right, at width − (firstTrigger/2)·width for p in [-firstTrigger, 0) and for Left |
| SwipeMath.OffsetPercentageRoundTrip | swipe/SwipeCell.swift:413-435 | an offset inside the row survives conversion to a percentage and back |
| SwipeMath.PercentageOffsetRoundTrip | swipe/SwipeCell.swift:413-435 | a percentage converted to an offset and back comes back clamped to [-1, 1] |
| SwipeMath.DirectionOfOffset | swipe/SwipeCell.swift:161-163 | the direction computed from the clamped percentage is the sign of the pixel offset |
| SwipeMath.BeforeTriggerMeansShortDrag | swipe/SwipeCell.swift:403-410 | with the drag's own direction, before-trigger holds iff 0 < \|p\| < firstTrigger |
| SwipeMath.AlphaSymmetric | swipe/SwipeCell.swift:454-466 | alpha is the same for p and -p |
| SwipeMath.AlphaMonotone | swipe/SwipeCell.swift:454-466 | alpha never decreases as \|p\| grows |
| SwipeMath.DurationMonotone | swipe/SwipeCell.swift:437-452 | a faster release never gives a longer animation |
| SwipeMath.DurationSymmetric | swipe/SwipeCell.swift:437-452 | the duration depends on the speed, not on the direction of the release |
| SwipeMath.IconTracksContentEdge | swipe/SwipeCell.swift:284-289 | past the first trigger, the icon's center stays half a first trigger behind the moving content edge, on either side |
| SwipeMath.IconMirror | swipe/SwipeCell.swift:280-299 | away from rest, the icon of a leftward drag mirrors (about the width) the icon of the rightward drag of the same size |
| SwipeSlots.Winner | swipe/SwipeCell.swift:371-401 | reference selection: the chosen slot's check is satisfied and no later check in the order L1..L4, R1..R4 is; nothing is chosen iff no check is satisfied |
| SwipeSlots.GetObject | swipe/SwipeCell.swift:371-401 | the overriding chain returns nil iff no registered slot's condition holds, and otherwise the slot of the last satisfied check |
| SwipeSlots.IndexOf | swipe/SwipeCell.swift:374-398 | each slot's position in the check order |
| SwipeSlots.NilWhenNothingFires | swipe/SwipeCell.swift:371-401 | the selection is nil exactly when no registered slot's condition holds |
| SwipeSlots.Right1WinsAtZero | swipe/SwipeCell.swift:374-389 | at percentage 0 a registered Right1 beats Left1 (with positive deeper triggers) |
| SwipeSlots.LeftLadder | swipe/SwipeCell.swift:374-385 | with the four left slots and ordered triggers, a rightward drag selects Left1, Left2, Left3 and Left4 in turn at 0, second, third and fourth trigger |
| SwipeSlots.RightLadder | swipe/SwipeCell.swift:387-398 | the same ladder for the four right slots and a leftward drag |
| SwipeSlots.SelectionMonotone | swipe/SwipeCell.swift:371-401 | with ordered triggers, dragging further in one direction keeps the selection on the same side and never moves it to an earlier check |
| SwipeSlots.OnlyRight1 | swipe/SwipeCell.swift:387-389 | with only Right1 registered, every percentage up to 0 selects it and every positive one selects nothing |
| SwipeSlots.GetGestureDirection | swipe/SwipeCell.swift:479-514 | true iff the side is not Center and one of that side's slots is registered |
| SwipeSlots.GestureShouldBegin | swipe/SwipeCell.swift:203-220 | a pan begins iff \|vx\| > \|vy\| and neither a leftward motion without Left slots nor a rightward motion without Right slots; a beginning pan has vx != 0 |
| SwipeSlots.LeftwardGateChecksLeftSlots | swipe/SwipeCell.swift:208-213 | with Right1 but no Left slot, a leftward pan is refused although a small leftward drag would select Right1 |
| SwipeCellModel.IndicatorColor | swipe/SwipeCell.swift:256-263 | the default colour when no slot is selected or before the trigger, the slot's colour otherwise |
| SwipeCellModel.UpdatedIcon | swipe/SwipeCell.swift:276-306 | the icon content is kept; on the early return nothing changes; otherwise the center x is IconPosition and the alpha is GetAlpha, both within range for a positive first trigger |
| SwipeCellModel.HeldIcon | swipe/SwipeCell.swift:255-260 | with no selection the icon view is untouched; with one, it shows the selected slot's icon, placed and faded as swipeUpdateIcon does |
| SwipeCellModel.ReleaseAnimation | swipe/SwipeCell.swift:183-199 | a release always starts an animation with the given duration and direction; it slides iff a Slide slot is selected and the drag is past the trigger, carrying that slot's completion; a bounce carries the selected slot's completion, or none when nothing is selected |
| SwipeCellModel.FinishCallback | swipe/SwipeCell.swift:322-353 | a finishing slide always calls its completion; a finishing bounce calls its captured completion iff one was captured and the release is not before the trigger |
| SwipeCellModel.RestingOffset | swipe/SwipeCell.swift:314-345 | the content ends within [-width, width]: at SlideOrigin after a slide and at 0 after a bounce |
| SwipeCellModel.SlideOrigin | swipe/SwipeCell.swift:333-340 | a slide sends the content to -width for Left, width for Right, and 0 for Center |
| SwipeCellModel.ReleaseCallbackRule | swipe/SwipeCell.swift:183-199 | whatever the mode, the release ends in a call of the selected slot's completion exactly when the drag is not before the trigger |
| SwipeCellModel.SlideOnlyPastTrigger | swipe/SwipeCell.swift:189-195 | the content leaves the row iff a Slide slot is selected and the drag is past the trigger; every other release rests at offset 0 |
| SwipeCellModel.ShortDragCallsNothing | swipe/SwipeCell.swift:323-328 | a release between rest and the first trigger bounces back and calls nothing |
| SwipeCellModel.ReleaseAtRestCallsRight1 | swipe/SwipeCell.swift:183-199 | a release at offset 0 with a registered Right1 calls Right1's completion |
| SwipeCellModel.ColorOnlyPastTrigger | swipe/SwipeCell.swift:258 | with the drag's own direction, a selected slot's colour shows only at rest or at or past the first trigger |
| SwipeCellModel.SlideKeepsIconOpaque | swipe/SwipeCell.swift:346-349 | after a Left or Right slide the icon's alpha is 1, although the animation first sets it to 0 |
| SwipeCellModel.StaleCenterShowsSlotColor | swipe/SwipeCell.swift:258 | with the stale direction Center, any selected slot's colour shows at once |
| SwipeCellModel.SwipeCell.constructor | swipe/SwipeCell.swift:37-52 | a new row has the declared initial values, no slots and an attached gesture recognizer |
| SwipeCellModel.SwipeCell.AddSwipeGesture | swipe/SwipeCell.swift:138-150 | exactly the named slot is set, replacing any earlier action there; the other seven are unchanged |
| SwipeCellModel.SwipeCell.PrepareForReuse | swipe/SwipeCell.swift:117-121 | delegate dropped, a cleanup scheduled, a gesture recognizer attached again; the slots and everything else kept |
| SwipeCellModel.SwipeCell.Dealloc | swipe/SwipeCell.swift:356-361 | delegate and gesture recognizer dropped and one more delayed cleanup pending |
| SwipeCellModel.SwipeCell.CleanupFired | swipe/SwipeCell.swift:361-366 | the delayed cleanup ends exiting and detaches the overlay |
| SwipeCellModel.SwipeCell.CreateView | swipe/SwipeCell.swift:223-238 | a default-coloured indicator, an empty icon view and a fresh screenshot at offset 0 |
| SwipeCellModel.SwipeCell.StartDrag | swipe/SwipeCell.swift:165-170 | a Began sample sets dragging, notifies the delegate and creates the overlay |
| SwipeCellModel.SwipeCell.UpdateIcon | swipe/SwipeCell.swift:276-306 | the icon is moved to IconPosition and given GetAlpha's opacity, or left untouched on the early return |
| SwipeCellModel.SwipeCell.AnimateHold | swipe/SwipeCell.swift:252-264 | the indicator takes IndicatorColor of the selection at the offset; the selected slot's icon is shown and placed |
| SwipeCellModel.SwipeCell.DirectionBounce | swipe/SwipeCell.swift:309-322 | the content returns to 0, the indicator to the default colour, the icon fades; a bounce animation carrying the completion joins the running animations |
| SwipeCellModel.SwipeCell.DirectionSlide | swipe/SwipeCell.swift:332-349 | the content moves to SlideOrigin; the icon's alpha is set to 0 and then updated for percentage ±1, so for Left or Right it stays opaque and follows the content edge; a slide animation carrying the completion joins the running animations; the indicator colour is kept |
| SwipeCellModel.SwipeCell.BounceFinished | swipe/SwipeCell.swift:322-329 | the given running bounce ends and leaves the running animations; its completion runs and the row deallocs iff one was captured and the release was not before the trigger; otherwise exiting ends |
| SwipeCellModel.SwipeCell.SlideFinished | swipe/SwipeCell.swift:350-353 | the given running slide ends and leaves the running animations; its completion always runs, then the row deallocs |
| SwipeCellModel.SwipeCell.HandleSwipeGesture | swipe/SwipeCell.swift:153-201 | nothing changes while dragging is disabled or exiting; a Began/Changed sample shifts the screenshot by the translation; Ended/Cancelled stop dragging, start exiting and add ReleaseAnimation to the running animations, with percentage and direction taken before the translation; after a bounce the indicator has the default colour and the icon is faded and updated at p = 0, after a slide the colour is kept and the icon is updated at ±1 |
| SwipeCellModel.SwipeCell.DragSample | swipe/SwipeCell.swift:165-177 | the screenshot moves by the translation (from 0 on Began); the delegate is told the old percentage; indicator and icon follow the new offset |
| SwipeCellModel.SwipeCell.MoveAndHold | swipe/SwipeCell.swift:174-176 | the screenshot shifts by the translation; the indicator colour and the icon follow the selection at the new offset |
| SwipeCellModel.SwipeCell.Release | swipe/SwipeCell.swift:178-199 | dragging stops, exiting starts; the bounce path is taken iff no slot is selected, before-trigger holds or the mode is Bounce, and the slide path otherwise; a bounce resets the indicator to the default colour and fades the icon, a slide keeps the colour and moves the icon to ±1 |
| SwipeCellModel.SwipeCell.StartReleaseAnimation | swipe/SwipeCell.swift:183-199 | ReleaseAnimation is added after the animations already running, the content rests at RestingOffset, and colour and icon are those of the bounce or the slide path |
| SwipeScenarios.NewRowWithRight1 | swipe/SwipeCell.swift:123-150 | a new row with a delegate and one Right1 action is valid and at rest |
| SwipeScenarios.ShortDragBouncesBack | swipe/SwipeCell.swift:309-329 | a 5-point leftward drag bounces back, calls nothing and stops exiting |
| SwipeScenarios.SlidePastTriggerCallsOnce | swipe/SwipeCell.swift:332-367 | a 40-point leftward slide calls the completion once, leaves the content at -width and ends with the overlay detached |
| SwipeScenarios.BouncePastTriggerCallsOnce | swipe/SwipeCell.swift:309-329 | a 40-point leftward bounce returns the content to 0 and calls the completion once |
| SwipeScenarios.ReleaseAtRestCallsCompletion | swipe/SwipeCell.swift:178-199 | a gesture with no net movement still calls Right1's completion |
| SwipeScenarios.ReuseKeepsSlots | swipe/SwipeCell.swift:117-121 | a reused row still selects its old Right1 action |
| SwipeScenarios.SecondRegistrationWins | swipe/SwipeCell.swift:138-150 | a second registration in a slot replaces the first |
| SwipeScenarios.ReuseCleanupHitsNextDrag | swipe/SwipeCell.swift:361-366 | the cleanup scheduled by reuse is not cancelled and detaches the overlay of a drag begun after it |
| SwipeScenarios.ReusedRowStillBouncing | swipe/SwipeCell.swift:117-121 | after a reuse and a release past the trigger, the reuse's cleanup ends exiting while the bounce is still running |
| SwipeScenarios.OverlappingReleasesBothComplete | swipe/SwipeCell.swift:322-329 | a second release while that bounce runs starts a second bounce; both finish and each calls its completion, so the completion runs twice and two cleanups are pending |

## Left out

- Creating UIKit views, the view hierarchy and the screenshot rendering are left out. The overlay is one boolean, and the icon view is its content, center x and opacity. A Began sample adds new overlay views without removing old ones, which the boolean cannot show.
- Animation timing, spring damping and easing are left out. Starting an animation adds it to the running animations, and its end is a separate event method (`BounceFinished`, `SlideFinished`) that names which one ends, so the animations may end in any order. The model does not show the intermediate frames of an animation, nor an animation being interrupted by a later one that moves the same views.
- The 0.3 s `dispatch_after` delay is a counter of pending cleanups, fired by `CleanupFired`.
- `CGRectIntegral` rounding, the icon frame size and the icon's y position are left out. They depend on opaque view bounds.
- The delegate protocol and its no-op extension are a trace of `Notice`s. Completion closures are opaque handles, and their effects on the host are not modelled.
- The view identity of a bounce without an icon is left out. The substitute `UIView()` only supplies a size for the frame.
- `swipe = nil` in dealloc only drops the reference (`hasGesture`). The recognizer stays attached to the view and keeps delivering samples, as in the model. A reuse also adds a second recognizer, which the model does not count.
- The private `direction` property is never read, so it is not modelled.
- The row width is held constant for the row's lifetime (`width` is fixed when the row is built). The row reads its bounds' width again at every use, so after a relayout the same pixel offset would give a different percentage; the model does not capture that.
- A zero row width is left out. Every helper that divides by the width requires a positive width.
- The `print` in dealloc is left out.
- `swipe/TableViewController.swift` is not part of this model (host data source and cell deletion).
- SwipeCellModel.SwipeCell.HandleSwipeGesture: it takes the pan's translation and velocity as parameters instead of reading them from the recognizer. Resetting the translation to zero after each sample is the same as passing each sample's own increment.
