# Smooth-scroll container, modelled in Dafny

`SmoothScrollContainer` is a Godot scroll container whose scrolling is
animated. Every scroll request (mouse wheel, drag with mouse or touch, pan
gesture, keyboard/gamepad focus moving to a control out of view) assigns a
*target* value for the horizontal or vertical bar. The target is clamped to
the bar's range, and when it changes, the bar's previous animation (tween) is
killed and a new one moves the bar to the target. With auto-hide enabled,
every scroll shows the bars (opaque) and restarts a countdown timer. When the
timer fires, a parallel tween fades both bars out. On start-up the container
finds its content child and, with drag enabled, makes every control reached
from it through a chain of controls pass mouse events on.

The project has six modules:

- `Geometry`: vectors, rectangles, bar ranges, the engine's clamp, and the
  per-axis move that follow-focus computes (`RevealMove`).
- `Input`: the events the container tells apart. It holds the wheel rule
  (`WheelScroll`), the drag-flag state machine (`NextDragging`) and the
  drag-type scroll (`DragScroll`).
- `Scene`: the scene tree as an arena. It holds node kinds, ordered child
  lists and mouse filters, the ancestry test, the recursive mouse-filter pass
  (an imperative method on the filter array) and the content-child search.
- `Scroll`: the controller as pure transitions on a `ScrollState`. The state
  holds the bars, both targets, the drag flag, the tween arena and its three
  handles, the hide timer and the bars' opacity. This module also holds the
  invariant `Inv` and the lemmas about the transitions.
- `Container`: the class `SmoothScrollContainer`, whose fields are the
  source's private fields. Each handler updates the fields step by step like
  the source does. Each one is proved to end in exactly the state the
  matching `Scroll` transition gives, and to keep `Inv`.
- `Wrappers`: `Option`.

Tweens live in an arena (`seq<Tween>`). Creating a tween appends one, and its
handle is its index. Killing and pausing change its status. `HoldsTweens`
states that no two animations compete for one property: the
three tweens the container holds are distinct and alive, every other tween
is killed, each axis tween animates only its own bar's value, and the hide
tween animates only opacity.

Two behaviours of the code are worth stating outright:

- The hide timer is the engine's default timer, which repeats: after the
  countdown the bars fade out, and the timer keeps firing (each time killing
  and recreating the fade) until the next scroll restarts it.
  `TimeoutHidesBars` states this.
- For a 100-by-100 page at the origin and a control at (150, 20) of size 30
  by 10, the horizontal target becomes 80 (`180 - 100`) and the vertical one
  stays 0; `FollowFocusExample` proves it.

## Model

| member | source | states |
|---|---|---|
| Geometry.Clamp | src/GodotSharpSmoothScrollContainer.cs:65 | the clamped target lies in `[lo, hi]`, and equals the value exactly when the value is already in range |
| Geometry.ClampIsNearest | src/GodotSharpSmoothScrollContainer.cs:65 | no point of the range is nearer to the requested value than its clamp |
| Geometry.ClampIdempotent | src/GodotSharpSmoothScrollContainer.cs:84 | clamping an already clamped target changes nothing |
| Geometry.Bar.Limit | src/GodotSharpSmoothScrollContainer.cs:65 | the largest target, `max - page`, lies between 0 and the bar's maximum |
| Geometry.RevealMove | src/GodotSharpSmoothScrollContainer.cs:339-355 | the move is zero exactly when the control is inside the page; it is negative exactly when the page starts after the control, and then aligns the page start with the control start; when positive, it aligns the page end with the control end |
| Geometry.RevealMoveLeadingEdgeFirst | src/GodotSharpSmoothScrollContainer.cs:339-346 | a control beginning before the page is aligned at its start, whatever its size |
| Geometry.RevealMoveIsMinimal | src/GodotSharpSmoothScrollContainer.cs:337-357 | for a control no larger than the page, the moved page contains it, and no shorter move does |
| Input.WheelFactor | src/GodotSharpSmoothScrollContainer.cs:189 | the factor is never zero, and a reported non-zero factor is kept |
| Input.WheelScroll | src/GodotSharpSmoothScrollContainer.cs:187-237 | an event is a wheel scroll exactly when it is a press of one of the four wheel buttons |
| Input.WheelScrollByButton | src/GodotSharpSmoothScrollContainer.cs:190-236 | per button: left, right, and up/down with Shift or an unscrollable vertical bar move the horizontal target; up and left move it by `-speed * factor`, down and right by `+speed * factor` |
| Input.WheelShiftIsHorizontal | src/GodotSharpSmoothScrollContainer.cs:192-214 | with Shift held the vertical wheel scrolls horizontally by exactly the signed step |
| Input.WheelUnshiftedAxis | src/GodotSharpSmoothScrollContainer.cs:197-224 | without Shift the vertical wheel scrolls horizontally exactly when the vertical bar's maximum equals its page |
| Input.WheelSidewaysIsHorizontal | src/GodotSharpSmoothScrollContainer.cs:228-235 | left and right wheel always scroll horizontally |
| Input.WheelZeroFactorIsUnitStep | src/GodotSharpSmoothScrollContainer.cs:189 | a factor of zero scrolls by exactly `speed`: `-speed` for up and left, `speed` for down and right |
| Input.NextDragging | src/GodotSharpSmoothScrollContainer.cs:245-270 | the drag flag becomes the pressed state of a left-button or touch event, and is unchanged by every other event |
| Input.DragScroll | src/GodotSharpSmoothScrollContainer.cs:271-295 | a drag-type scroll happens exactly for a pan gesture, or for mouse or touch motion while dragging |
| Input.DragFollowsPointer | src/GodotSharpSmoothScrollContainer.cs:271-295 | motion moves the targets by minus its relative motion while dragging and not otherwise; a pan moves them by minus its delta always |
| Input.PressThenRelease | src/GodotSharpSmoothScrollContainer.cs:248-269 | a press starts a drag and the matching release ends it, for the mouse and for touch |
| Scene.SceneTree.BelowClosed | src/GodotSharpSmoothScrollContainer.cs:382-391 | the set of nodes reached through controls contains every control child of the start node and of every node already reached |
| Scene.SceneTree.BelowThroughControlsAreControls | src/GodotSharpSmoothScrollContainer.cs:384-390 | the walk reaches only controls |
| Scene.SceneTree.BelowAfter | src/GodotSharpSmoothScrollContainer.cs:380-393 | everything below a node lies after it in the arena, so the recursion terminates |
| Scene.SceneTree.PassAppliedIdempotent | src/GodotSharpSmoothScrollContainer.cs:380-393 | a second mouse-filter pass changes nothing |
| Scene.SceneTree.RecursiveSetMouseFilterPass | src/GodotSharpSmoothScrollContainer.cs:380-393 | afterwards every control reached through controls has filter Pass, and every other filter is unchanged |
| Scene.SceneTree.FirstContentAmong | src/GodotSharpSmoothScrollContainer.cs:366-373 | the position found holds a control that is not a scrollbar and no earlier child does; None means no child qualifies |
| Scroll.ConfigWith | src/GodotSharpSmoothScrollContainer.cs:120-129 | the three-switch constructor sets the three feature switches and keeps the default speed 100, animation time 0.4 and hide time 3 |
| Scroll.Initial | src/GodotSharpSmoothScrollContainer.cs:157-176 | the ready state satisfies the invariant |
| Scroll.SetTargetClamps | src/GodotSharpSmoothScrollContainer.cs:60-93 | after an assignment the target is the clamp of the value into `[0, max - page]`; the other target, the drag flag and the bars are unchanged |
| Scroll.SetTargetUnchangedIsNoOp | src/GodotSharpSmoothScrollContainer.cs:64-69 | a value that clamps to the current target changes nothing at all |
| Scroll.SetTargetAnimates | src/GodotSharpSmoothScrollContainer.cs:299-308 | a changed target kills the axis's tween and starts exactly one new running tween that moves that bar's value to the target in 0.1 s while dragging and the configured time otherwise; the other axis's tween is untouched; the bars are shown exactly when auto-hide is on |
| Scroll.SetTargetTwiceIsOnce | src/GodotSharpSmoothScrollContainer.cs:60-93 | assigning the same value twice is assigning it once |
| Scroll.SetTargetKeepsInv | src/GodotSharpSmoothScrollContainer.cs:60-93 | target assignment keeps the invariant |
| Scroll.SmoothScrollKeepsInv | src/GodotSharpSmoothScrollContainer.cs:299-308 | animating an axis keeps the invariant |
| Scroll.ReplaceAxisTweenKeepsInv | src/GodotSharpSmoothScrollContainer.cs:305-307 | killing an axis tween and creating its replacement keeps the invariant |
| Scroll.MoveTargetsClamps | src/GodotSharpSmoothScrollContainer.cs:356-357 | moving both targets leaves each at the clamp of itself plus its component of the move |
| Scroll.MoveTargetsKeepsInv | src/GodotSharpSmoothScrollContainer.cs:356-357 | moving both targets keeps the invariant |
| Scroll.ShowScrollBarEffect | src/GodotSharpSmoothScrollContainer.cs:310-316 | showing pauses the fade, restarts the timer with the configured time and makes both bars opaque, leaving targets and axis tweens alone |
| Scroll.HideScrollBarEffect | src/GodotSharpSmoothScrollContainer.cs:318-324 | hiding kills the previous fade and starts one running parallel tween that fades both bars to transparent over 0.4 s |
| Scroll.ShowCancelsHide | src/GodotSharpSmoothScrollContainer.cs:310-324 | a show after a hide pauses the fade the hide started |
| Scroll.TimeoutHidesBars | src/GodotSharpSmoothScrollContainer.cs:171-176 | when the repeating timer fires with auto-hide on, the bars fade out and the timer keeps running |
| Scroll.ShowScrollBarKeepsInv | src/GodotSharpSmoothScrollContainer.cs:310-316 | showing keeps the invariant |
| Scroll.HideScrollBarKeepsInv | src/GodotSharpSmoothScrollContainer.cs:318-324 | hiding keeps the invariant |
| Scroll.TimeoutKeepsInv | src/GodotSharpSmoothScrollContainer.cs:171-176 | the timer firing keeps the invariant |
| Scroll.WheelIsSetTarget | src/GodotSharpSmoothScrollContainer.cs:185-237 | a wheel scroll is the assignment of its axis's target moved by its signed step, and is consumed |
| Scroll.WheelMovesTarget | src/GodotSharpSmoothScrollContainer.cs:185-238 | a wheel scroll moves exactly its axis's target, to the clamp of the target plus the signed step, and is consumed; any other event changes nothing and is not consumed |
| Scroll.DragInputScrolls | src/GodotSharpSmoothScrollContainer.cs:271-295 | a drag-type scroll leaves the drag flag alone and moves both targets by the scroll |
| Scroll.DragDisabledIsWheelOnly | src/GodotSharpSmoothScrollContainer.cs:240-244 | with drag disabled the container reacts to the wheel only |
| Scroll.DragFlagFollowsPresses | src/GodotSharpSmoothScrollContainer.cs:243-270 | with drag enabled the drag flag after any event is the press/release state machine's |
| Scroll.MotionWithoutDragIsIgnored | src/GodotSharpSmoothScrollContainer.cs:271-288 | motion while not dragging changes nothing and is not consumed |
| Scroll.DragMovesTargets | src/GodotSharpSmoothScrollContainer.cs:271-295 | a drag-type scroll moves both targets against the pointer, each clamped, and is consumed |
| Scroll.GuiInputMouseWheelKeepsInv | src/GodotSharpSmoothScrollContainer.cs:185-238 | wheel input keeps the invariant |
| Scroll.DragInputKeepsInv | src/GodotSharpSmoothScrollContainer.cs:243-296 | the drag part of input keeps the invariant |
| Scroll.GuiInputKeepsInv | src/GodotSharpSmoothScrollContainer.cs:240-297 | all input keeps the invariant |
| Scroll.FollowFocusMoves | src/GodotSharpSmoothScrollContainer.cs:326-359 | follow-focus moves each target by its reveal move, clamped |
| Scroll.FollowFocusInsideIsNoOp | src/GodotSharpSmoothScrollContainer.cs:337-357 | a control already inside the page, with targets in range, changes nothing |
| Scroll.FollowFocusExample | src/GodotSharpSmoothScrollContainer.cs:330-357 | page 100 by 100 at the origin and control at (150, 20) of size 30 by 10: the horizontal target becomes 80 and the vertical target stays 0 |
| Scroll.FollowFocusKeepsInv | src/GodotSharpSmoothScrollContainer.cs:326-359 | following focus keeps the invariant |
| Container.SmoothScrollContainer.constructor | src/GodotSharpSmoothScrollContainer.cs:131-183 | the ready container is valid and in the initial state: targets 0, three paused tweens, timer stopped, bars transparent under auto-hide; the content child is the first found; with drag enabled the mouse-filter pass was applied from the container |
| Container.SmoothScrollContainer.UpdateContentNode | src/GodotSharpSmoothScrollContainer.cs:364-374 | the content becomes the first child that is a control and not a scrollbar, and stays as it was when there is none |
| Container.SmoothScrollContainer.SetHBarTargetValue | src/GodotSharpSmoothScrollContainer.cs:60-73 | the fields end in the state of `Scroll.SetTarget` for the horizontal axis, and the invariant is kept |
| Container.SmoothScrollContainer.SetVBarTargetValue | src/GodotSharpSmoothScrollContainer.cs:79-92 | the fields end in the state of `Scroll.SetTarget` for the vertical axis, and the invariant is kept |
| Container.SmoothScrollContainer.MoveTargets | src/GodotSharpSmoothScrollContainer.cs:356-357 | horizontal then vertical assignment, ending in `Scroll.MoveTargets` |
| Container.SmoothScrollContainer.SmoothScroll | src/GodotSharpSmoothScrollContainer.cs:299-308 | ends in `Scroll.SmoothScroll`: bars shown under auto-hide, axis tween replaced |
| Container.SmoothScrollContainer.ReplaceAxisTween | src/GodotSharpSmoothScrollContainer.cs:305-307 | kill, create and add one step, ending in `Scroll.ReplaceAxisTween` |
| Container.SmoothScrollContainer.ShowScrollBar | src/GodotSharpSmoothScrollContainer.cs:310-316 | ends in `Scroll.ShowScrollBar` and keeps the invariant |
| Container.SmoothScrollContainer.HideScrollBar | src/GodotSharpSmoothScrollContainer.cs:318-324 | ends in `Scroll.HideScrollBar` and keeps the invariant |
| Container.SmoothScrollContainer.BarHideTimerTimeout | src/GodotSharpSmoothScrollContainer.cs:175 | ends in `Scroll.HideTimerTimeout`: the timer starts over and the bars are hidden under auto-hide |
| Container.SmoothScrollContainer.GuiInputMouseWheel | src/GodotSharpSmoothScrollContainer.cs:185-238 | ends in `Scroll.GuiInputMouseWheel`, and returns whether the event was consumed |
| Container.SmoothScrollContainer.WheelScrollTarget | src/GodotSharpSmoothScrollContainer.cs:192-234 | one wheel branch's assignment ends in the state `Scroll.GuiInputMouseWheel` gives |
| Container.SmoothScrollContainer.GuiInput | src/GodotSharpSmoothScrollContainer.cs:240-297 | ends in `Scroll.GuiInput`, and returns whether the event was consumed |
| Container.SmoothScrollContainer.GuiInputDrag | src/GodotSharpSmoothScrollContainer.cs:243-296 | ends in `Scroll.DragInput`, and returns whether the drag part consumed the event |
| Container.SmoothScrollContainer.OnGuiFocusChanged | src/GodotSharpSmoothScrollContainer.cs:326-359 | with follow-focus enabled (lines 179-182 connect the handler only then) and the control inside the content, ends in `Scroll.FollowFocus`; otherwise nothing changes |

## Left out

- Test mode (`_enableTest`, lines 133-149) is left out. It replaces the children with a grid of test buttons and is a demo, not container behaviour.
- The engine wiring is left out: the signal subscriptions (lines 159-160, 175 and 181), adding the timer as an internal child (169) and turning off the engine's own follow-focus (178). The handlers are methods any caller may invoke, and `BarHideTimerTimeout` stands for the timer's timeout, which is only connected under auto-hide.
- The passage of time is left out: tween interpolation, tweens finishing and being released by the engine, and the timer counting down. A tween is its status and its steps. `BarHideTimerTimeout` is the moment the countdown elapses, and it requires a running timer.
- Colours are reduced to their alpha. White is opaque (1) and transparent is 0. Their RGB parts are the same in the engine.
- Numbers are reals. The source uses single-precision floats and casts the bars' double-precision range to float. Rounding and the exact float equality in the setters' no-change test are therefore modelled on reals.
- Bar ranges are the host's layout. They are set when the container is created and are not updated afterwards. The bar's animated `value` is not moved by the model.
- `control.GetRect()` is a parameter of `OnGuiFocusChanged`: the control's own rect relative to its parent, as the engine gives it. Layout and coordinate spaces belong to the host, so for a control nested below the content's direct children the page is compared with a rect in its parent's coordinates, as in the code.
- Container.SmoothScrollContainer.OnGuiFocusChanged: requires a content node. The source dereferences `ContentNode` and would throw when there is none.
- Scene.SceneTree: child lists are the non-internal children the engine's `GetChildren` returns. The ancestry test walks the same lists. The tree's shape is fixed; only mouse filters change.
- The exported settings (speed, animation time, hide time) are fixed for the container's lifetime. The feature switches are private and fixed once the container is ready.
- `SetInputAsHandled` on the viewport is modelled by returning whether the event was consumed.
