/**
 * The scroll controller of the smooth-scroll container as state
 * transitions: the two scroll targets, the drag flag, the tweens the
 * container owns (one per axis and one that fades the bars), the
 * auto-hide timer and the opacity of the bars.
 *
 * Tweens are kept in an arena: creating one appends it and its handle is
 * its index; killing or pausing one changes its status. What a tween does
 * over time, and when the timer fires, belong to the engine.
 */
module Scroll {
  import opened Geometry
  import opened Input
  import opened Wrappers

  /** The container's settings, fixed once it is set up. */
  datatype Config = Config(
    speed: real,
    aniTime: real,
    enableDrag: bool,
    enableAutoHideBar: bool,
    autoHideBarTime: real,
    enableFollowFocus: bool)

  /** The settings of a container created with no arguments. */
  const DefaultConfig := Config(100.0, 0.4, true, true, 3.0, true)

  /** The settings of a container created with the three feature switches. */
  function ConfigWith(enableDrag: bool, enableHideBarOverTime: bool, enableFollowFocus: bool): (c: Config)
    ensures c.enableDrag == enableDrag && c.enableAutoHideBar == enableHideBarOverTime
    ensures c.enableFollowFocus == enableFollowFocus
    ensures c.speed == 100.0 && c.aniTime == 0.4 && c.autoHideBarTime == 3.0
  {
    DefaultConfig.(enableDrag := enableDrag, enableAutoHideBar := enableHideBarOverTime,
                   enableFollowFocus := enableFollowFocus)
  }

  /** The scroll animation time while a drag is in progress. */
  const DragAniTime: real := 0.1
  /** The time the bars take to fade out. */
  const BarFadeTime: real := 0.4
  /** The alpha of a bar's modulate colour: white is opaque, transparent is clear. */
  const Opaque: real := 1.0
  const Transparent: real := 0.0

  /** A property a tween animates: a bar's value or the alpha of a bar's modulate colour. */
  datatype Property = BarValue(axis: Axis) | BarAlpha(barAxis: Axis)

  /** One step of a tween: animate `property` to `final` over `duration` seconds. */
  datatype Tweener = PropertyTweener(property: Property, final: real, duration: real)

  datatype TweenStatus = Running | Paused | Killed

  /** A tween: its status, whether its steps run together, and its steps. */
  datatype Tween = Tween(status: TweenStatus, parallel: bool, tweeners: seq<Tweener>)

  /** An empty, running tween, as the engine creates one. */
  const FreshTween := Tween(Running, false, [])

  /** Creating a tween appends an empty running one; its handle is the old length. */
  function CreateTween(ts: seq<Tween>, parallel: bool): seq<Tween>
  {
    ts + [FreshTween.(parallel := parallel)]
  }

  /** Adding a step to tween `h`. */
  function TweenProperty(ts: seq<Tween>, h: nat, step: Tweener): seq<Tween>
    requires h < |ts|
  {
    ts[h := ts[h].(tweeners := ts[h].tweeners + [step])]
  }

  function Kill(ts: seq<Tween>, h: nat): seq<Tween>
    requires h < |ts|
  {
    ts[h := ts[h].(status := Killed)]
  }

  /** Pausing stops a tween; a killed tween stays killed. */
  function Pause(ts: seq<Tween>, h: nat): seq<Tween>
    requires h < |ts|
  {
    ts[h := ts[h].(status := if ts[h].status == Killed then Killed else Paused)]
  }

  /**
   * The engine's timer. Started with a positive time it counts that time
   * (which becomes its wait time); started with zero it counts its previous
   * wait time. A timer that is not one-shot starts over when it fires.
   */
  datatype Timer = Timer(running: bool, waitTime: real, oneShot: bool)

  /** A timer as created: stopped, one second, repeating. */
  const NewTimer := Timer(false, 1.0, false)

  function StartTimer(t: Timer, time: real): (r: Timer)
    ensures r.running && r.oneShot == t.oneShot
    ensures r.waitTime == if time > 0.0 then time else t.waitTime
  {
    Timer(true, if time > 0.0 then time else t.waitTime, t.oneShot)
  }

  /** Everything the container's scrolling updates, with the bar ranges the host reports. */
  datatype ScrollState = ScrollState(
    hBar: Bar,
    vBar: Bar,
    hTarget: real,
    vTarget: real,
    dragging: bool,
    tweens: seq<Tween>,
    hTween: nat,
    vTween: nat,
    hideTween: nat,
    hideTimer: Timer,
    hAlpha: real,
    vAlpha: real)
  {
    function Target(axis: Axis): real {
      if axis == Horizontal then hTarget else vTarget
    }

    function BarOf(axis: Axis): Bar {
      if axis == Horizontal then hBar else vBar
    }

    function AxisTween(axis: Axis): nat {
      if axis == Horizontal then hTween else vTween
    }

    function WithTarget(axis: Axis, t: real): ScrollState {
      if axis == Horizontal then this.(hTarget := t) else this.(vTarget := t)
    }

    function WithAxisTween(axis: Axis, h: nat): ScrollState {
      if axis == Horizontal then this.(hTween := h) else this.(vTween := h)
    }

    /** The bar ranges are sound and the three handles name tweens. */
    predicate WellFormed() {
      hBar.Valid() && vBar.Valid() &&
      hTween < |tweens| && vTween < |tweens| && hideTween < |tweens|
    }
  }

  /** Every step of tween `h` animates the value of the `axis` bar. */
  predicate AnimatesValueOnly(ts: seq<Tween>, h: nat, axis: Axis)
    requires h < |ts|
  {
    forall k :: 0 <= k < |ts[h].tweeners| ==> ts[h].tweeners[k].property == BarValue(axis)
  }

  /** Every step of tween `h` animates the opacity of a bar. */
  predicate AnimatesAlphaOnly(ts: seq<Tween>, h: nat)
    requires h < |ts|
  {
    forall k :: 0 <= k < |ts[h].tweeners| ==> ts[h].tweeners[k].property.BarAlpha?
  }

  /**
   * The container's hold on its tweens: the three tweens it holds are
   * distinct and alive, every tween it let go of is killed (so no two
   * animations compete for one property), each axis tween animates only its
   * own bar's value and the hide tween only the bars' opacity.
   */
  ghost predicate HoldsTweens(ts: seq<Tween>, hTween: nat, vTween: nat, hideTween: nat) {
    hTween < |ts| && vTween < |ts| && hideTween < |ts| &&
    hTween != vTween && hTween != hideTween && vTween != hideTween &&
    ts[hTween].status != Killed && ts[vTween].status != Killed && ts[hideTween].status != Killed &&
    (forall i :: 0 <= i < |ts| && i != hTween && i != vTween && i != hideTween ==> ts[i].status == Killed) &&
    AnimatesValueOnly(ts, hTween, Horizontal) &&
    AnimatesValueOnly(ts, vTween, Vertical) &&
    AnimatesAlphaOnly(ts, hideTween)
  }

  /**
   * The controller's invariant: sound bar ranges, the hold on the tweens,
   * and an auto-hide timer that runs only when auto-hide is enabled.
   */
  ghost predicate Inv(c: Config, s: ScrollState) {
    s.hBar.Valid() && s.vBar.Valid() &&
    HoldsTweens(s.tweens, s.hTween, s.vTween, s.hideTween) &&
    (s.hideTimer.running ==> c.enableAutoHideBar)
  }

  /**
   * The state once the container is ready: targets at zero, not dragging,
   * three empty paused tweens, the timer stopped, and the bars transparent
   * when auto-hide is enabled (opaque otherwise).
   */
  function Initial(c: Config, hBar: Bar, vBar: Bar): (s: ScrollState)
    requires hBar.Valid() && vBar.Valid()
    ensures Inv(c, s)
  {
    var parked := Tween(Paused, false, []);
    var alpha := if c.enableAutoHideBar then Transparent else Opaque;
    ScrollState(hBar, vBar, 0.0, 0.0, false, [parked, parked, parked], 0, 1, 2, NewTimer, alpha, alpha)
  }

  /** Showing the bars: pause the fade, restart the countdown, make both bars opaque. */
  function ShowScrollBar(c: Config, s: ScrollState): ScrollState
    requires s.WellFormed()
  {
    s.(tweens := Pause(s.tweens, s.hideTween),
       hideTimer := StartTimer(s.hideTimer, c.autoHideBarTime),
       hAlpha := Opaque, vAlpha := Opaque)
  }

  /** Hiding the bars: kill the previous fade and start one that fades both bars together. */
  function HideScrollBar(s: ScrollState): ScrollState
    requires s.WellFormed()
  {
    var ts := Kill(s.tweens, s.hideTween);
    var h := |ts|;
    var ts1 := TweenProperty(CreateTween(ts, true), h, PropertyTweener(BarAlpha(Horizontal), Transparent, BarFadeTime));
    s.(tweens := TweenProperty(ts1, h, PropertyTweener(BarAlpha(Vertical), Transparent, BarFadeTime)), hideTween := h)
  }

  /** The auto-hide timer fires: it starts over unless one-shot, and the bars are hidden when auto-hide is on. */
  function HideTimerTimeout(c: Config, s: ScrollState): ScrollState
    requires s.WellFormed() && s.hideTimer.running
  {
    var s1 := s.(hideTimer := s.hideTimer.(running := !s.hideTimer.oneShot));
    if c.enableAutoHideBar then HideScrollBar(s1) else s1
  }

  /** The scroll animation time: short while dragging, the configured time otherwise. */
  function AnimationTime(c: Config, dragging: bool): real {
    if dragging then DragAniTime else c.aniTime
  }

  /** Replacing an axis's tween: kill it and create one that runs `step`. */
  function ReplaceAxisTween(s: ScrollState, axis: Axis, step: Tweener): ScrollState
    requires s.WellFormed()
  {
    var ts := Kill(s.tweens, s.AxisTween(axis));
    var h := |ts|;
    s.(tweens := TweenProperty(CreateTween(ts, false), h, step)).WithAxisTween(axis, h)
  }

  /**
   * Animating one axis to `target`: show the bars when auto-hide is on,
   * kill the axis's tween and start a new one that moves the bar's value.
   */
  function SmoothScroll(c: Config, s: ScrollState, axis: Axis, target: real): ScrollState
    requires s.WellFormed()
  {
    var s1 := if c.enableAutoHideBar then ShowScrollBar(c, s) else s;
    ReplaceAxisTween(s1, axis, PropertyTweener(BarValue(axis), target, AnimationTime(c, s.dragging)))
  }

  /**
   * Assigning an axis's target: the value is clamped to the bar's range;
   * an unchanged target does nothing more, a changed one is animated.
   */
  function SetTarget(c: Config, s: ScrollState, axis: Axis, value: real): ScrollState
    requires s.WellFormed()
  {
    var t := Clamp(value, 0.0, s.BarOf(axis).Limit());
    if t == s.Target(axis) then s else SmoothScroll(c, s.WithTarget(axis, t), axis, t)
  }

  /** Moving both targets by `d` through their assignments, horizontal first. */
  function MoveTargets(c: Config, s: ScrollState, d: Vector2): ScrollState
    requires s.WellFormed()
  {
    var s1 := SetTarget(c, s, Horizontal, s.hTarget + d.x);
    SetTarget(c, s1, Vertical, s1.vTarget + d.y)
  }

  /** The new state and whether the event was marked consumed. */
  datatype Reaction = Reaction(state: ScrollState, consumed: bool)

  /** Wheel input: a wheel scroll moves its axis's target and is consumed; anything else is ignored. */
  function GuiInputMouseWheel(c: Config, s: ScrollState, ev: InputEvent): Reaction
    requires s.WellFormed()
  {
    match WheelScroll(ev, c.speed, s.vBar)
    case None => Reaction(s, false)
    case Some(AxisScroll(axis, delta)) => Reaction(SetTarget(c, s, axis, s.Target(axis) + delta), true)
  }

  /** A wheel scroll assigns its axis's target moved by the signed step, and is consumed. */
  lemma WheelIsSetTarget(c: Config, s: ScrollState, ev: InputEvent, axis: Axis, delta: real)
    requires s.WellFormed() && WheelScroll(ev, c.speed, s.vBar).Some?
    requires WheelScroll(ev, c.speed, s.vBar).value.axis == axis && WheelScroll(ev, c.speed, s.vBar).value.delta == delta
    ensures GuiInputMouseWheel(c, s, ev) == Reaction(SetTarget(c, s, axis, s.Target(axis) + delta), true)
  {
  }

  /**
   * The drag part of input handling, drag support being enabled: the drag
   * flag follows presses and releases, and a drag-type scroll moves both
   * targets, horizontal first.
   */
  function DragInput(c: Config, s: ScrollState, ev: InputEvent): Reaction
    requires s.WellFormed()
  {
    var s1 := s.(dragging := NextDragging(ev, s.dragging));
    match DragScroll(ev, s1.dragging)
    case None => Reaction(s1, DragConsumes(ev, s1.dragging))
    case Some(d) => Reaction(MoveTargets(c, s1, d), true)
  }

  /** A drag-type scroll leaves the drag flag alone and moves both targets by the scroll. */
  lemma DragInputScrolls(c: Config, s: ScrollState, ev: InputEvent, d: Vector2)
    requires s.WellFormed() && DragScroll(ev, s.dragging) == Some(d)
    ensures DragInput(c, s, ev) == Reaction(MoveTargets(c, s, d), true)
  {
    assert s.(dragging := NextDragging(ev, s.dragging)) == s;
  }

  /** Input on the container: the wheel first, then the drag part when drag is enabled. */
  function GuiInput(c: Config, s: ScrollState, ev: InputEvent): Reaction
    requires s.WellFormed()
  {
    var wheel := GuiInputMouseWheel(c, s, ev);
    if !c.enableDrag then wheel
    else
      var drag := DragInput(c, wheel.state, ev);
      Reaction(drag.state, wheel.consumed || drag.consumed)
  }

  /** The visible page, placed at the targets rather than at the animated values. */
  function PageRect(s: ScrollState): Rect2 {
    Rect2(Vector2(s.hTarget, s.vTarget), Vector2(s.hBar.page, s.vBar.page))
  }

  /** Focus moved to a control inside the content: move each axis just enough to show it. */
  function FollowFocus(c: Config, s: ScrollState, controlRect: Rect2): ScrollState
    requires s.WellFormed()
  {
    var page := PageRect(s);
    var hMove := RevealMove(page.position.x, page.End().x, controlRect.position.x, controlRect.End().x);
    var vMove := RevealMove(page.position.y, page.End().y, controlRect.position.y, controlRect.End().y);
    MoveTargets(c, s, Vector2(hMove, vMove))
  }

  // ---------------------------------------------------------------------
  // Scroll targets

  /** Every assignment leaves the clamped value as the target, and nothing else of the targets or the drag flag changes. */
  lemma SetTargetClamps(c: Config, s: ScrollState, axis: Axis, value: real)
    requires s.WellFormed()
    ensures var r := SetTarget(c, s, axis, value);
      r.Target(axis) == Clamp(value, 0.0, s.BarOf(axis).Limit()) &&
      0.0 <= r.Target(axis) <= s.BarOf(axis).maxValue - s.BarOf(axis).page &&
      r.Target(axis.Other()) == s.Target(axis.Other()) &&
      r.dragging == s.dragging && r.hBar == s.hBar && r.vBar == s.vBar && r.WellFormed()
  {
  }

  /** A value that clamps to the current target changes nothing at all. */
  lemma SetTargetUnchangedIsNoOp(c: Config, s: ScrollState, axis: Axis, value: real)
    requires s.WellFormed()
    requires Clamp(value, 0.0, s.BarOf(axis).Limit()) == s.Target(axis)
    ensures SetTarget(c, s, axis, value) == s
  {
  }

  /**
   * A changed target kills the axis's tween and starts exactly one new
   * tween, which animates the bar's value to the target in the drag time
   * while dragging and in the configured time otherwise. The other axis's
   * tween is untouched; the bars are shown exactly when auto-hide is on.
   */
  lemma SetTargetAnimates(c: Config, s: ScrollState, axis: Axis, value: real)
    requires Inv(c, s)
    requires Clamp(value, 0.0, s.BarOf(axis).Limit()) != s.Target(axis)
    ensures var t := Clamp(value, 0.0, s.BarOf(axis).Limit());
      var r := SetTarget(c, s, axis, value);
      |r.tweens| == |s.tweens| + 1 &&
      r.AxisTween(axis) == |s.tweens| &&
      r.tweens[|s.tweens|] == Tween(Running, false, [PropertyTweener(BarValue(axis), t, AnimationTime(c, s.dragging))]) &&
      r.tweens[s.AxisTween(axis)].status == Killed &&
      r.AxisTween(axis.Other()) == s.AxisTween(axis.Other()) &&
      r.tweens[s.AxisTween(axis.Other())] == s.tweens[s.AxisTween(axis.Other())] &&
      r.hideTween == s.hideTween &&
      (c.enableAutoHideBar ==>
         r.tweens[s.hideTween].status == Paused && r.hAlpha == Opaque && r.vAlpha == Opaque &&
         r.hideTimer == StartTimer(s.hideTimer, c.autoHideBarTime)) &&
      (!c.enableAutoHideBar ==>
         r.tweens[s.hideTween] == s.tweens[s.hideTween] && r.hideTimer == s.hideTimer &&
         r.hAlpha == s.hAlpha && r.vAlpha == s.vAlpha)
  {
  }

  /** Assigning the same value twice starts at most one animation: the second assignment changes nothing. */
  lemma SetTargetTwiceIsOnce(c: Config, s: ScrollState, axis: Axis, value: real)
    requires s.WellFormed()
    ensures SetTarget(c, SetTarget(c, s, axis, value), axis, value) == SetTarget(c, s, axis, value)
  {
    SetTargetClamps(c, s, axis, value);
    SetTargetUnchangedIsNoOp(c, SetTarget(c, s, axis, value), axis, value);
  }

  /** Assigning a target keeps the controller's invariant. */
  lemma SetTargetKeepsInv(c: Config, s: ScrollState, axis: Axis, value: real)
    requires Inv(c, s)
    ensures Inv(c, SetTarget(c, s, axis, value))
  {
    var t := Clamp(value, 0.0, s.BarOf(axis).Limit());
    if t != s.Target(axis) {
      SmoothScrollKeepsInv(c, s.WithTarget(axis, t), axis, t);
    }
  }

  /** Animating an axis keeps the invariant: the replaced tween is killed and the new one animates that axis only. */
  lemma SmoothScrollKeepsInv(c: Config, s: ScrollState, axis: Axis, target: real)
    requires Inv(c, s)
    ensures Inv(c, SmoothScroll(c, s, axis, target))
  {
    var s1 := s;
    if c.enableAutoHideBar {
      ShowScrollBarKeepsInv(c, s);
      s1 := ShowScrollBar(c, s);
    }
    ReplaceAxisTweenKeepsInv(c, s1, axis, PropertyTweener(BarValue(axis), target, AnimationTime(c, s.dragging)));
  }

  /** Replacing an axis's tween by one that animates that axis's value keeps the hold on the tweens. */
  lemma ReplaceAxisTweenKeepsInv(c: Config, s: ScrollState, axis: Axis, step: Tweener)
    requires Inv(c, s) && step.property == BarValue(axis)
    ensures Inv(c, ReplaceAxisTween(s, axis, step))
  {
    var r := ReplaceAxisTween(s, axis, step);
    assert r.tweens[r.AxisTween(axis)].tweeners == [step];
    assert forall i :: 0 <= i < |s.tweens| && i != s.AxisTween(axis) ==> r.tweens[i] == s.tweens[i];
  }

  /** Moving both targets leaves each at the clamp of itself plus its component of `d`, and keeps the drag flag and the bars. */
  lemma MoveTargetsClamps(c: Config, s: ScrollState, d: Vector2)
    requires s.WellFormed()
    ensures var r := MoveTargets(c, s, d);
      r.hTarget == Clamp(s.hTarget + d.x, 0.0, s.hBar.Limit()) &&
      r.vTarget == Clamp(s.vTarget + d.y, 0.0, s.vBar.Limit()) &&
      r.dragging == s.dragging && r.hBar == s.hBar && r.vBar == s.vBar && r.WellFormed()
  {
    SetTargetClamps(c, s, Horizontal, s.hTarget + d.x);
    var s1 := SetTarget(c, s, Horizontal, s.hTarget + d.x);
    SetTargetClamps(c, s1, Vertical, s1.vTarget + d.y);
  }

  /** Moving both targets keeps the invariant. */
  lemma MoveTargetsKeepsInv(c: Config, s: ScrollState, d: Vector2)
    requires Inv(c, s)
    ensures Inv(c, MoveTargets(c, s, d))
  {
    var s1 := SetTarget(c, s, Horizontal, s.hTarget + d.x);
    assert MoveTargets(c, s, d) == SetTarget(c, s1, Vertical, s1.vTarget + d.y);
    SetTargetKeepsInv(c, s, Horizontal, s.hTarget + d.x);
    SetTargetKeepsInv(c, s1, Vertical, s1.vTarget + d.y);
  }

  // ---------------------------------------------------------------------
  // Scrollbar visibility

  /** Showing pauses the fade, restarts the countdown at the configured time and makes both bars opaque. */
  lemma ShowScrollBarEffect(c: Config, s: ScrollState)
    requires Inv(c, s) && c.autoHideBarTime > 0.0
    ensures var r := ShowScrollBar(c, s);
      r.tweens[s.hideTween].status == Paused && r.hideTimer.running &&
      r.hideTimer.waitTime == c.autoHideBarTime && r.hAlpha == Opaque && r.vAlpha == Opaque &&
      r.hTarget == s.hTarget && r.vTarget == s.vTarget && r.hTween == s.hTween && r.vTween == s.vTween
  {
  }

  /**
   * Hiding kills the previous fade and starts one running tween that fades
   * both bars to transparent at the same time, over the fixed fade time.
   */
  lemma HideScrollBarEffect(s: ScrollState)
    requires s.WellFormed()
    ensures var r := HideScrollBar(s);
      r.tweens[s.hideTween].status == Killed &&
      r.hideTween == |s.tweens| && |r.tweens| == |s.tweens| + 1 &&
      r.tweens[r.hideTween] == Tween(Running, true, [PropertyTweener(BarAlpha(Horizontal), Transparent, BarFadeTime),
                                                    PropertyTweener(BarAlpha(Vertical), Transparent, BarFadeTime)]) &&
      r.hTarget == s.hTarget && r.vTarget == s.vTarget && r.hTween == s.hTween && r.vTween == s.vTween &&
      r.hideTimer == s.hideTimer
  {
  }

  /** A show after a hide stops the fade that the hide started. */
  lemma ShowCancelsHide(c: Config, s: ScrollState)
    requires s.WellFormed()
    ensures var h := HideScrollBar(s);
      ShowScrollBar(c, h).tweens[h.hideTween].status == Paused
  {
  }

  /** When the countdown elapses with auto-hide on, the bars fade out, and the timer keeps running (it is not one-shot). */
  lemma TimeoutHidesBars(c: Config, s: ScrollState)
    requires Inv(c, s) && s.hideTimer.running && !s.hideTimer.oneShot
    ensures var r := HideTimerTimeout(c, s);
      r.hideTimer == s.hideTimer &&
      r.tweens[r.hideTween].status == Running &&
      AnimatesAlphaOnly(r.tweens, r.hideTween) &&
      r.tweens[r.hideTween].tweeners[0].final == Transparent && r.tweens[r.hideTween].tweeners[1].final == Transparent
  {
  }

  /** Showing the bars keeps the invariant; it starts the timer, which auto-hide allows. */
  lemma ShowScrollBarKeepsInv(c: Config, s: ScrollState)
    requires Inv(c, s) && c.enableAutoHideBar
    ensures Inv(c, ShowScrollBar(c, s))
  {
  }

  /** Hiding the bars keeps the invariant: the old fade is killed and the new one animates opacity only. */
  lemma HideScrollBarKeepsInv(c: Config, s: ScrollState)
    requires Inv(c, s)
    ensures Inv(c, HideScrollBar(s))
  {
    var r := HideScrollBar(s);
    assert AnimatesAlphaOnly(r.tweens, r.hideTween);
  }

  /** The timer firing keeps the invariant. */
  lemma TimeoutKeepsInv(c: Config, s: ScrollState)
    requires Inv(c, s) && s.hideTimer.running
    ensures Inv(c, HideTimerTimeout(c, s))
  {
    var s1 := s.(hideTimer := s.hideTimer.(running := !s.hideTimer.oneShot));
    assert Inv(c, s1);
    if c.enableAutoHideBar {
      HideScrollBarKeepsInv(c, s1);
    }
  }

  // ---------------------------------------------------------------------
  // Input

  /**
   * A wheel scroll moves exactly its axis's target, to the clamp of the
   * target plus the signed step, and is consumed; any other event changes
   * nothing and is not consumed.
   */
  lemma WheelMovesTarget(c: Config, s: ScrollState, ev: InputEvent)
    requires s.WellFormed()
    ensures var w := WheelScroll(ev, c.speed, s.vBar);
      var r := GuiInputMouseWheel(c, s, ev);
      r.consumed == w.Some? &&
      (w.None? ==> r.state == s) &&
      (w.Some? ==>
         r.state.Target(w.value.axis) == Clamp(s.Target(w.value.axis) + w.value.delta, 0.0, s.BarOf(w.value.axis).Limit()) &&
         r.state.Target(w.value.axis.Other()) == s.Target(w.value.axis.Other()))
  {
    var w := WheelScroll(ev, c.speed, s.vBar);
    if w.Some? {
      SetTargetClamps(c, s, w.value.axis, s.Target(w.value.axis) + w.value.delta);
    }
  }

  /** With drag disabled the container reacts to the wheel only. */
  lemma DragDisabledIsWheelOnly(c: Config, s: ScrollState, ev: InputEvent)
    requires s.WellFormed() && !c.enableDrag
    ensures GuiInput(c, s, ev) == GuiInputMouseWheel(c, s, ev)
  {
  }

  /** With drag enabled the drag flag follows the press/release state machine and nothing else. */
  lemma DragFlagFollowsPresses(c: Config, s: ScrollState, ev: InputEvent)
    requires s.WellFormed() && c.enableDrag
    ensures GuiInput(c, s, ev).state.dragging == NextDragging(ev, s.dragging)
  {
    var w := WheelScroll(ev, c.speed, s.vBar);
    if w.Some? {
      SetTargetClamps(c, s, w.value.axis, s.Target(w.value.axis) + w.value.delta);
    }
    var s1 := GuiInputMouseWheel(c, s, ev).state.(dragging := NextDragging(ev, s.dragging));
    var d := DragScroll(ev, s1.dragging);
    if d.Some? {
      MoveTargetsClamps(c, s1, d.value);
    }
  }

  /** Pointer motion while not dragging changes nothing and is not consumed. */
  lemma MotionWithoutDragIsIgnored(c: Config, s: ScrollState, rel: Vector2)
    requires s.WellFormed() && !s.dragging
    ensures GuiInput(c, s, MouseMotionEvent(rel)) == Reaction(s, false)
    ensures GuiInput(c, s, ScreenDragEvent(rel)) == Reaction(s, false)
  {
  }

  /**
   * A drag-type scroll (motion while dragging, or a pan) moves the targets
   * against the pointer, horizontal first, each clamped, and is consumed.
   */
  lemma DragMovesTargets(c: Config, s: ScrollState, ev: InputEvent)
    requires s.WellFormed() && c.enableDrag && DragScroll(ev, s.dragging).Some?
    ensures var d := DragScroll(ev, s.dragging).value;
      var r := GuiInput(c, s, ev);
      r.consumed &&
      r.state.hTarget == Clamp(s.hTarget + d.x, 0.0, s.hBar.Limit()) &&
      r.state.vTarget == Clamp(s.vTarget + d.y, 0.0, s.vBar.Limit())
  {
    assert GuiInputMouseWheel(c, s, ev) == Reaction(s, false);
    MoveTargetsClamps(c, s, DragScroll(ev, s.dragging).value);
  }

  /** Wheel input keeps the invariant. */
  lemma GuiInputMouseWheelKeepsInv(c: Config, s: ScrollState, ev: InputEvent)
    requires Inv(c, s)
    ensures Inv(c, GuiInputMouseWheel(c, s, ev).state)
  {
    var w := WheelScroll(ev, c.speed, s.vBar);
    if w.Some? {
      SetTargetKeepsInv(c, s, w.value.axis, s.Target(w.value.axis) + w.value.delta);
    }
  }

  /** The drag part of input keeps the invariant. */
  lemma DragInputKeepsInv(c: Config, s: ScrollState, ev: InputEvent)
    requires Inv(c, s)
    ensures Inv(c, DragInput(c, s, ev).state)
  {
    var s1 := s.(dragging := NextDragging(ev, s.dragging));
    assert Inv(c, s1);
    var d := DragScroll(ev, s1.dragging);
    if d.Some? {
      MoveTargetsKeepsInv(c, s1, d.value);
      assert DragInput(c, s, ev).state == MoveTargets(c, s1, d.value);
    }
  }

  /** All input on the container keeps the invariant. */
  lemma GuiInputKeepsInv(c: Config, s: ScrollState, ev: InputEvent)
    requires Inv(c, s)
    ensures Inv(c, GuiInput(c, s, ev).state)
  {
    GuiInputMouseWheelKeepsInv(c, s, ev);
    if c.enableDrag {
      DragInputKeepsInv(c, GuiInputMouseWheel(c, s, ev).state, ev);
    }
  }

  // ---------------------------------------------------------------------
  // Follow focus

  /** Both targets lie in their bars' ranges. */
  predicate TargetsInRange(s: ScrollState)
    requires s.WellFormed()
  {
    0.0 <= s.hTarget <= s.hBar.Limit() && 0.0 <= s.vTarget <= s.vBar.Limit()
  }

  /** Follow-focus moves each target by its reveal move, clamped. */
  lemma FollowFocusMoves(c: Config, s: ScrollState, r: Rect2)
    requires s.WellFormed()
    ensures var page := PageRect(s);
      var f := FollowFocus(c, s, r);
      f.hTarget == Clamp(s.hTarget + RevealMove(page.position.x, page.End().x, r.position.x, r.End().x), 0.0, s.hBar.Limit()) &&
      f.vTarget == Clamp(s.vTarget + RevealMove(page.position.y, page.End().y, r.position.y, r.End().y), 0.0, s.vBar.Limit())
  {
    var page := PageRect(s);
    MoveTargetsClamps(c, s, Vector2(RevealMove(page.position.x, page.End().x, r.position.x, r.End().x),
                                    RevealMove(page.position.y, page.End().y, r.position.y, r.End().y)));
  }

  /** A control already inside the page, with targets in range, changes nothing. */
  lemma FollowFocusInsideIsNoOp(c: Config, s: ScrollState, r: Rect2)
    requires s.WellFormed() && TargetsInRange(s)
    requires s.hTarget <= r.position.x && r.End().x <= s.hTarget + s.hBar.page
    requires s.vTarget <= r.position.y && r.End().y <= s.vTarget + s.vBar.page
    ensures FollowFocus(c, s, r) == s
  {
    SetTargetUnchangedIsNoOp(c, s, Horizontal, s.hTarget + 0.0);
    SetTargetUnchangedIsNoOp(c, s, Vertical, s.vTarget + 0.0);
  }

  /**
   * With the page at the origin, 100 by 100, and a control at (150, 20) of
   * size 30 by 10, the control's right edge (180) is past the page's (100):
   * the horizontal target becomes 80 and the vertical target stays put.
   */
  lemma FollowFocusExample(c: Config, s: ScrollState)
    requires s.WellFormed() && s.hTarget == 0.0 && s.vTarget == 0.0
    requires s.hBar.page == 100.0 && s.vBar.page == 100.0 && s.hBar.maxValue >= 180.0
    ensures var f := FollowFocus(c, s, Rect2(Vector2(150.0, 20.0), Vector2(30.0, 10.0)));
      f.hTarget == 80.0 && f.vTarget == 0.0
  {
    FollowFocusMoves(c, s, Rect2(Vector2(150.0, 20.0), Vector2(30.0, 10.0)));
  }

  /** Following focus keeps the invariant. */
  lemma FollowFocusKeepsInv(c: Config, s: ScrollState, r: Rect2)
    requires Inv(c, s)
    ensures Inv(c, FollowFocus(c, s, r))
  {
    var page := PageRect(s);
    MoveTargetsKeepsInv(c, s, Vector2(RevealMove(page.position.x, page.End().x, r.position.x, r.End().x),
                                      RevealMove(page.position.y, page.End().y, r.position.y, r.End().y)));
  }
}
