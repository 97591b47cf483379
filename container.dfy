/**
 * The smooth-scroll container as an object whose handlers update its
 * fields step by step. Each handler is proved to take the container from
 * `old(State())` to the state the Scroll module's transition gives, and to
 * keep the controller's invariant.
 */
module Container {
  import opened Wrappers
  import opened Geometry
  import opened Input
  import opened Scene
  import Scroll

  class SmoothScrollContainer {
    /** The settings, fixed before the container is set up. */
    const config: Scroll.Config
    /** The scene the container lives in, and the container's own node in it. */
    const tree: SceneTree
    const self: nat

    /** The bar ranges as the host last laid them out. */
    var hBar: Bar
    var vBar: Bar

    var hBarTargetValue: real
    var vBarTargetValue: real
    var isDragging: bool

    /** The tweens created so far; the three handles below index into them. */
    var tweens: seq<Scroll.Tween>
    var hBarTween: nat
    var vBarTween: nat
    var barHideTween: nat
    var barHideTimer: Scroll.Timer

    /** The alpha of each bar's modulate colour. */
    var hBarAlpha: real
    var vBarAlpha: real

    /** The content child, once one has been found. */
    var contentNode: Option<nat>

    function State(): Scroll.ScrollState
      reads this
    {
      Scroll.ScrollState(hBar, vBar, hBarTargetValue, vBarTargetValue, isDragging,
                         tweens, hBarTween, vBarTween, barHideTween, barHideTimer, hBarAlpha, vBarAlpha)
    }

    ghost predicate Valid()
      reads this
    {
      Scroll.Inv(config, State()) &&
      tree.WellFormed() && self < |tree.kinds| &&
      (contentNode.Some? ==> contentNode.value < |tree.kinds|)
    }

    /** The content child the first scan of the container's children finds, if any. */
    function FoundContent(): Option<nat>
      requires tree.WellFormed() && self < |tree.kinds|
    {
      match tree.FirstContentAmong(tree.children[self])
      case Some(j) => Some(tree.children[self][j])
      case None => None
    }

    /**
     * Creating the container and readying it: the content child is looked
     * up, every control below the container passes mouse events on when drag
     * is enabled, three paused tweens are created, and the bars start
     * transparent when auto-hide is enabled.
     */
    constructor (config: Scroll.Config, tree: SceneTree, self: nat, hBar: Bar, vBar: Bar)
      requires tree.WellFormed() && self < |tree.kinds| && hBar.Valid() && vBar.Valid()
      modifies tree.filter
      ensures Valid()
      ensures State() == Scroll.Initial(config, hBar, vBar)
      ensures contentNode == FoundContent()
      ensures tree.filter[..] ==
        if config.enableDrag then tree.PassApplied(old(tree.filter[..]), self) else old(tree.filter[..])
    {
      this.config := config;
      this.tree := tree;
      this.self := self;
      this.hBar := hBar;
      this.vBar := vBar;
      hBarTargetValue, vBarTargetValue := 0.0, 0.0;
      isDragging := false;
      var parked := Scroll.Tween(Scroll.Paused, false, []);
      tweens := [parked, parked, parked];
      hBarTween, vBarTween, barHideTween := 0, 1, 2;
      barHideTimer := Scroll.NewTimer;
      var alpha := if config.enableAutoHideBar then Scroll.Transparent else Scroll.Opaque;
      hBarAlpha, vBarAlpha := alpha, alpha;
      contentNode := None;
      new;
      UpdateContentNode();
      if config.enableDrag {
        tree.RecursiveSetMouseFilterPass(self);
      }
    }

    /**
     * Looks through the container's children in order and takes the first
     * that is a control and not a scrollbar as the content; with none, the
     * content reference stays as it was.
     */
    method UpdateContentNode()
      requires Valid()
      modifies this`contentNode
      ensures Valid()
      ensures contentNode == if FoundContent().Some? then FoundContent() else old(contentNode)
    {
      var kids := tree.children[self];
      var k := 0;
      while k < |kids|
        invariant 0 <= k <= |kids|
        invariant forall j :: 0 <= j < k ==> !IsContent(tree.kinds[kids[j]])
        invariant contentNode == old(contentNode)
      {
        if IsContent(tree.kinds[kids[k]]) {
          contentNode := Some(kids[k]);
          break;
        }
        k := k + 1;
      }
    }

    // ---------------------------------------------------------------------
    // Engine primitives on tweens

    method CreateTween(parallel: bool) returns (h: nat)
      modifies this`tweens
      ensures tweens == Scroll.CreateTween(old(tweens), parallel) && h == |old(tweens)|
    {
      h := |tweens|;
      tweens := tweens + [Scroll.FreshTween.(parallel := parallel)];
    }

    method TweenProperty(h: nat, property: Scroll.Property, final: real, duration: real)
      requires h < |tweens|
      modifies this`tweens
      ensures tweens == Scroll.TweenProperty(old(tweens), h, Scroll.PropertyTweener(property, final, duration))
    {
      tweens := tweens[h := tweens[h].(tweeners := tweens[h].tweeners + [Scroll.PropertyTweener(property, final, duration)])];
    }

    // ---------------------------------------------------------------------
    // Scroll targets

    /** Assigns the horizontal target, clamped to the bar's range; animates the bar when the target changes. */
    method SetHBarTargetValue(value: real)
      requires Valid()
      modifies this
      ensures Valid() && contentNode == old(contentNode)
      ensures State() == Scroll.SetTarget(config, old(State()), Horizontal, value)
    {
      ghost var s := State();
      Scroll.SetTargetKeepsInv(config, s, Horizontal, value);
      var lastHBarTargetValue := hBarTargetValue;
      hBarTargetValue := Clamp(value, 0.0, hBar.maxValue - hBar.page);
      if hBarTargetValue == lastHBarTargetValue {
        assert State() == s;
        return;
      }
      assert State() == s.WithTarget(Horizontal, hBarTargetValue);
      SmoothScroll(Horizontal, hBarTargetValue);
      assert State() == Scroll.SmoothScroll(config, s.WithTarget(Horizontal, hBarTargetValue), Horizontal, hBarTargetValue);
    }

    /** Assigns the vertical target, clamped to the bar's range; animates the bar when the target changes. */
    method SetVBarTargetValue(value: real)
      requires Valid()
      modifies this
      ensures Valid() && contentNode == old(contentNode)
      ensures State() == Scroll.SetTarget(config, old(State()), Vertical, value)
    {
      ghost var s := State();
      Scroll.SetTargetKeepsInv(config, s, Vertical, value);
      var lastVBarTargetValue := vBarTargetValue;
      vBarTargetValue := Clamp(value, 0.0, vBar.maxValue - vBar.page);
      if vBarTargetValue == lastVBarTargetValue {
        assert State() == s;
        return;
      }
      assert State() == s.WithTarget(Vertical, vBarTargetValue);
      SmoothScroll(Vertical, vBarTargetValue);
      assert State() == Scroll.SmoothScroll(config, s.WithTarget(Vertical, vBarTargetValue), Vertical, vBarTargetValue);
    }

    /** Moves both targets by `d` through their setters, horizontal first. */
    method MoveTargets(d: Vector2)
      requires Valid()
      modifies this
      ensures Valid() && contentNode == old(contentNode)
      ensures State() == Scroll.MoveTargets(config, old(State()), d)
    {
      SetHBarTargetValue(hBarTargetValue + d.x);
      SetVBarTargetValue(vBarTargetValue + d.y);
    }

    /**
     * Shows the bars when auto-hide is on, then replaces the axis's tween
     * with one that animates the bar's value to `target`.
     */
    method SmoothScroll(axis: Axis, target: real)
      requires Valid()
      modifies this
      ensures Valid() && contentNode == old(contentNode)
      ensures State() == Scroll.SmoothScroll(config, old(State()), axis, target)
    {
      ghost var s := State();
      Scroll.SmoothScrollKeepsInv(config, s, axis, target);
      if config.enableAutoHideBar {
        ShowScrollBar();
      }
      var duration := if isDragging then Scroll.DragAniTime else config.aniTime;
      ReplaceAxisTween(axis, Scroll.PropertyTweener(Scroll.BarValue(axis), target, duration));
    }

    /** Kills the axis's tween and replaces it with a new one running `step`. */
    method ReplaceAxisTween(axis: Axis, step: Scroll.Tweener)
      requires State().WellFormed()
      modifies this
      ensures State() == Scroll.ReplaceAxisTween(old(State()), axis, step)
      ensures contentNode == old(contentNode)
    {
      if axis == Horizontal {
        tweens := Scroll.Kill(tweens, hBarTween);
        hBarTween := CreateTween(false);
        TweenProperty(hBarTween, step.property, step.final, step.duration);
      } else {
        tweens := Scroll.Kill(tweens, vBarTween);
        vBarTween := CreateTween(false);
        TweenProperty(vBarTween, step.property, step.final, step.duration);
      }
    }

    // ---------------------------------------------------------------------
    // Scrollbar visibility

    /** Pauses the fade, restarts the hide countdown and makes both bars opaque. */
    method ShowScrollBar()
      requires Valid() && config.enableAutoHideBar
      modifies this
      ensures Valid() && contentNode == old(contentNode)
      ensures State() == Scroll.ShowScrollBar(config, old(State()))
    {
      Scroll.ShowScrollBarKeepsInv(config, State());
      tweens := Scroll.Pause(tweens, barHideTween);
      barHideTimer := Scroll.StartTimer(barHideTimer, config.autoHideBarTime);
      hBarAlpha := Scroll.Opaque;
      vBarAlpha := Scroll.Opaque;
    }

    /** Kills the previous fade and starts one that fades both bars out together. */
    method HideScrollBar()
      requires Valid()
      modifies this
      ensures Valid() && contentNode == old(contentNode)
      ensures State() == Scroll.HideScrollBar(old(State()))
    {
      Scroll.HideScrollBarKeepsInv(config, State());
      tweens := Scroll.Kill(tweens, barHideTween);
      barHideTween := CreateTween(true);
      TweenProperty(barHideTween, Scroll.BarAlpha(Horizontal), Scroll.Transparent, Scroll.BarFadeTime);
      TweenProperty(barHideTween, Scroll.BarAlpha(Vertical), Scroll.Transparent, Scroll.BarFadeTime);
    }

    /**
     * The hide countdown elapses: the timer starts over (it is not
     * one-shot) and, its timeout being connected only when auto-hide is on,
     * the bars are hidden in that case.
     */
    method BarHideTimerTimeout()
      requires Valid() && barHideTimer.running
      modifies this
      ensures Valid() && contentNode == old(contentNode)
      ensures State() == Scroll.HideTimerTimeout(config, old(State()))
    {
      Scroll.TimeoutKeepsInv(config, State());
      barHideTimer := barHideTimer.(running := !barHideTimer.oneShot);
      if config.enableAutoHideBar {
        HideScrollBar();
      }
    }

    // ---------------------------------------------------------------------
    // Input

    /** Wheel input, on the container or on either bar; returns whether the event was marked consumed. */
    method GuiInputMouseWheel(ev: InputEvent) returns (handled: bool)
      requires Valid()
      modifies this
      ensures Valid() && contentNode == old(contentNode)
      ensures State() == Scroll.GuiInputMouseWheel(config, old(State()), ev).state
      ensures handled == Scroll.GuiInputMouseWheel(config, old(State()), ev).consumed
    {
      handled := false;
      if ev.MouseButtonEvent? && ev.pressed {
        var factor := WheelFactor(ev.factor);
        match ev.buttonIndex {
          case WheelUp =>
            WheelScrollByButton(ev, config.speed, vBar);
            if ev.shiftPressed {
              WheelScrollTarget(ev, Horizontal, -(config.speed * factor));
            } else if vBar.maxValue == vBar.page {
              WheelScrollTarget(ev, Horizontal, -(config.speed * factor));
            } else {
              WheelScrollTarget(ev, Vertical, -(config.speed * factor));
            }
            handled := true;
          case WheelDown =>
            WheelScrollByButton(ev, config.speed, vBar);
            if ev.shiftPressed {
              WheelScrollTarget(ev, Horizontal, config.speed * factor);
            } else if vBar.maxValue == vBar.page {
              WheelScrollTarget(ev, Horizontal, config.speed * factor);
            } else {
              WheelScrollTarget(ev, Vertical, config.speed * factor);
            }
            handled := true;
          case WheelLeft =>
            WheelScrollByButton(ev, config.speed, vBar);
            WheelScrollTarget(ev, Horizontal, -(config.speed * factor));
            handled := true;
          case WheelRight =>
            WheelScrollByButton(ev, config.speed, vBar);
            WheelScrollTarget(ev, Horizontal, config.speed * factor);
            handled := true;
          case _ =>
        }
      }
    }

    /** One wheel step: the `axis` target is assigned its current value moved by `delta`. */
    method WheelScrollTarget(ev: InputEvent, axis: Axis, delta: real)
      requires Valid() && WheelScroll(ev, config.speed, vBar).Some?
      requires WheelScroll(ev, config.speed, vBar).value.axis == axis
      requires WheelScroll(ev, config.speed, vBar).value.delta == delta
      modifies this
      ensures Valid() && contentNode == old(contentNode)
      ensures State() == Scroll.GuiInputMouseWheel(config, old(State()), ev).state
      ensures Scroll.GuiInputMouseWheel(config, old(State()), ev).consumed
    {
      Scroll.WheelIsSetTarget(config, State(), ev, axis, delta);
      if axis == Horizontal {
        SetHBarTargetValue(hBarTargetValue + delta);
      } else {
        SetVBarTargetValue(vBarTargetValue + delta);
      }
    }

    /**
     * Input on the container: the wheel first, then, when drag is enabled,
     * the drag part. Returns whether the event was marked consumed.
     */
    method GuiInput(ev: InputEvent) returns (handled: bool)
      requires Valid()
      modifies this
      ensures Valid() && contentNode == old(contentNode)
      ensures State() == Scroll.GuiInput(config, old(State()), ev).state
      ensures handled == Scroll.GuiInput(config, old(State()), ev).consumed
    {
      handled := GuiInputMouseWheel(ev);
      if config.enableDrag {
        var dragHandled := GuiInputDrag(ev);
        handled := handled || dragHandled;
      }
    }

    /**
     * The drag part of input handling: presses and releases of the left
     * button or of a touch set the drag flag, motion scrolls while dragging
     * and pan gestures always scroll. Returns whether it consumed the event.
     */
    method GuiInputDrag(ev: InputEvent) returns (handled: bool)
      requires Valid()
      modifies this
      ensures Valid() && contentNode == old(contentNode)
      ensures State() == Scroll.DragInput(config, old(State()), ev).state
      ensures handled == Scroll.DragInput(config, old(State()), ev).consumed
    {
      ghost var s := State();
      handled := false;
      match ev {
        case MouseButtonEvent(button, pressed, _, _) =>
          if button == Left {
            if pressed {
              isDragging := true;
            } else {
              isDragging := false;
            }
            handled := true;
          }
        case ScreenTouchEvent(pressed) =>
          if pressed {
            isDragging := true;
          } else {
            isDragging := false;
          }
          handled := true;
        case MouseMotionEvent(relative) =>
          if isDragging {
            Scroll.DragInputScrolls(config, s, ev, Vector2(-relative.x, -relative.y));
            MoveTargets(Vector2(-relative.x, -relative.y));
            handled := true;
          }
        case ScreenDragEvent(relative) =>
          if isDragging {
            Scroll.DragInputScrolls(config, s, ev, Vector2(-relative.x, -relative.y));
            MoveTargets(Vector2(-relative.x, -relative.y));
            handled := true;
          }
        case PanGestureEvent(delta) =>
          Scroll.DragInputScrolls(config, s, ev, Vector2(-delta.x, -delta.y));
          MoveTargets(Vector2(-delta.x, -delta.y));
          handled := true;
        case OtherEvent =>
      }
    }

    // ---------------------------------------------------------------------
    // Follow focus

    /**
     * Focus moved to `control`, whose own rect, relative to its parent, is
     * `controlRect` (for a control nested below the content's direct
     * children that is not the content's coordinates, exactly as the engine
     * hands it over). The handler is connected only when follow-focus is
     * enabled (the engine's own follow-focus is always switched off). When
     * the control lies inside the content, each target moves just enough for
     * the page, placed at the targets, to show the control.
     */
    method OnGuiFocusChanged(control: nat, controlRect: Rect2)
      requires Valid() && contentNode.Some?
      modifies this
      ensures Valid() && contentNode == old(contentNode)
      ensures State() == if config.enableFollowFocus && tree.IsAncestorOf(contentNode.value, control)
                         then Scroll.FollowFocus(config, old(State()), controlRect)
                         else old(State())
    {
      if config.enableFollowFocus && tree.IsAncestorOf(contentNode.value, control) {
        var pageRect := Rect2(Vector2(hBarTargetValue, vBarTargetValue), Vector2(hBar.page, vBar.page));
        var hBarMove := 0.0;
        var vBarMove := 0.0;
        if pageRect.position.x > controlRect.position.x {
          hBarMove := controlRect.position.x - pageRect.position.x;
        } else if controlRect.End().x > pageRect.End().x {
          hBarMove := controlRect.End().x - pageRect.End().x;
        }
        if pageRect.position.y > controlRect.position.y {
          vBarMove := controlRect.position.y - pageRect.position.y;
        } else if controlRect.End().y > pageRect.End().y {
          vBarMove := controlRect.End().y - pageRect.End().y;
        }
        assert pageRect == Scroll.PageRect(State());
        assert hBarMove == RevealMove(pageRect.position.x, pageRect.End().x, controlRect.position.x, controlRect.End().x);
        assert vBarMove == RevealMove(pageRect.position.y, pageRect.End().y, controlRect.position.y, controlRect.End().y);
        MoveTargets(Vector2(hBarMove, vBarMove));
      }
    }
  }
}
