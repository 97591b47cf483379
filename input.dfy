/**
 * Input events as the container receives them, and the classification of
 * each event into a change of the scroll targets or of the drag flag.
 */
module Input {
  import opened Geometry
  import opened Wrappers

  datatype MouseButton =
    | Left | Right | Middle
    | WheelUp | WheelDown | WheelLeft | WheelRight
    | Xbutton1 | Xbutton2

  /** The event kinds the container tells apart; every other kind is `OtherEvent`. */
  datatype InputEvent =
    | MouseButtonEvent(buttonIndex: MouseButton, pressed: bool, factor: real, shiftPressed: bool)
    | MouseMotionEvent(relative: Vector2)
    | ScreenTouchEvent(touchPressed: bool)
    | ScreenDragEvent(dragRelative: Vector2)
    | PanGestureEvent(delta: Vector2)
    | OtherEvent

  /** A change of one axis's target by `delta`. */
  datatype AxisScroll = AxisScroll(axis: Axis, delta: real)

  /** Some devices report no wheel magnitude (factor 0); that counts as one step. */
  function WheelFactor(factor: real): (f: real)
    ensures f != 0.0
    ensures factor != 0.0 ==> f == factor
  {
    if factor == 0.0 then 1.0 else factor
  }

  predicate IsWheelButton(b: MouseButton) {
    b == WheelUp || b == WheelDown || b == WheelLeft || b == WheelRight
  }

  /**
   * The wheel rule: a pressed wheel button moves one target by
   * `speed * factor`, up and left backwards, down and right forwards.
   * Up/down go to the horizontal axis when Shift is held or the vertical bar
   * has nothing to scroll, to the vertical axis otherwise; left/right always
   * go to the horizontal axis. Every other event is not a wheel scroll.
   */
  function WheelScroll(ev: InputEvent, speed: real, vBar: Bar): (r: Option<AxisScroll>)
    ensures r.Some? <==> ev.MouseButtonEvent? && ev.pressed && IsWheelButton(ev.buttonIndex)
  {
    if ev.MouseButtonEvent? && ev.pressed then
      var step := speed * WheelFactor(ev.factor);
      var upDownAxis := if ev.shiftPressed || vBar.NoOverflow() then Horizontal else Vertical;
      match ev.buttonIndex
      case WheelUp => Some(AxisScroll(upDownAxis, -step))
      case WheelDown => Some(AxisScroll(upDownAxis, step))
      case WheelLeft => Some(AxisScroll(Horizontal, -step))
      case WheelRight => Some(AxisScroll(Horizontal, step))
      case _ => None
    else
      None
  }

  /**
   * The wheel rule by direction: left and right, and up and down with Shift
   * held or nothing to scroll vertically, move the horizontal target; up
   * and left move backwards, down and right forwards.
   */
  lemma WheelScrollByButton(ev: InputEvent, speed: real, vBar: Bar)
    requires ev.MouseButtonEvent? && ev.pressed && IsWheelButton(ev.buttonIndex)
    ensures var b := ev.buttonIndex;
      var step := speed * WheelFactor(ev.factor);
      var w := WheelScroll(ev, speed, vBar);
      w.Some? &&
      w.value.axis == (if b == WheelLeft || b == WheelRight || ev.shiftPressed || vBar.maxValue == vBar.page then Horizontal else Vertical) &&
      w.value.delta == (if b == WheelUp || b == WheelLeft then -step else step)
  {
    var step := speed * WheelFactor(ev.factor);
    if ev.buttonIndex == WheelUp {
      assert WheelScroll(ev, speed, vBar).value.delta == -step;
    }
  }

  /** Shift turns the vertical wheel into a horizontal scroll of `speed * factor`. */
  lemma WheelShiftIsHorizontal(b: MouseButton, factor: real, speed: real, vBar: Bar)
    requires b == WheelUp || b == WheelDown
    ensures WheelScroll(MouseButtonEvent(b, true, factor, true), speed, vBar)
         == Some(AxisScroll(Horizontal, if b == WheelUp then -(speed * WheelFactor(factor)) else speed * WheelFactor(factor)))
  {
    if b == WheelUp {
      assert WheelScroll(MouseButtonEvent(b, true, factor, true), speed, vBar).value.delta == -(speed * WheelFactor(factor));
    } else {
      assert WheelScroll(MouseButtonEvent(b, true, factor, true), speed, vBar).value.delta == speed * WheelFactor(factor);
    }
  }

  /** Without Shift the vertical wheel scrolls vertically exactly when the vertical bar has something to scroll. */
  lemma WheelUnshiftedAxis(b: MouseButton, factor: real, speed: real, vBar: Bar)
    requires b == WheelUp || b == WheelDown
    ensures WheelScroll(MouseButtonEvent(b, true, factor, false), speed, vBar).value.axis
         == (if vBar.maxValue == vBar.page then Horizontal else Vertical)
  {
  }

  /** The horizontal wheel is horizontal whatever Shift and the vertical bar say. */
  lemma WheelSidewaysIsHorizontal(b: MouseButton, factor: real, shift: bool, speed: real, vBar: Bar)
    requires b == WheelLeft || b == WheelRight
    ensures WheelScroll(MouseButtonEvent(b, true, factor, shift), speed, vBar).value.axis == Horizontal
  {
  }

  /** A reported factor of zero scrolls by exactly `speed`: back for up and left, forward for down and right. */
  lemma WheelZeroFactorIsUnitStep(b: MouseButton, shift: bool, speed: real, vBar: Bar)
    requires IsWheelButton(b)
    ensures WheelScroll(MouseButtonEvent(b, true, 0.0, shift), speed, vBar).value.delta
            == if b == WheelUp || b == WheelLeft then -speed else speed
  {
  }

  /**
   * The drag flag after an event, drag support being enabled: a press or
   * release of the left mouse button or of a touch sets or clears it; every
   * other event leaves it as it was.
   */
  function NextDragging(ev: InputEvent, dragging: bool): (d: bool)
    ensures (ev.MouseButtonEvent? && ev.buttonIndex == Left) ==> d == ev.pressed
    ensures ev.ScreenTouchEvent? ==> d == ev.touchPressed
    ensures !(ev.MouseButtonEvent? && ev.buttonIndex == Left) && !ev.ScreenTouchEvent? ==> d == dragging
  {
    match ev
    case MouseButtonEvent(b, p, _, _) => if b == Left then p else dragging
    case ScreenTouchEvent(p) => p
    case _ => dragging
  }

  /**
   * The target change a drag-type event asks for, drag support being
   * enabled: motion of the mouse or of a touch moves the targets against the
   * pointer while dragging and not otherwise; a pan gesture moves them
   * against its delta whether or not a drag is in progress.
   */
  function DragScroll(ev: InputEvent, dragging: bool): (r: Option<Vector2>)
    ensures r.Some? <==> ev.PanGestureEvent? || (dragging && (ev.MouseMotionEvent? || ev.ScreenDragEvent?))
  {
    match ev
    case MouseMotionEvent(rel) => if dragging then Some(Vector2(-rel.x, -rel.y)) else None
    case ScreenDragEvent(rel) => if dragging then Some(Vector2(-rel.x, -rel.y)) else None
    case PanGestureEvent(delta) => Some(Vector2(-delta.x, -delta.y))
    case _ => None
  }

  /** Whether the drag part of input handling marks the event consumed. */
  predicate DragConsumes(ev: InputEvent, dragging: bool) {
    (ev.MouseButtonEvent? && ev.buttonIndex == Left) || ev.ScreenTouchEvent? || DragScroll(ev, dragging).Some?
  }

  /** The pointer drags the content: the targets move by the opposite of its motion, while dragging only. */
  lemma DragFollowsPointer(rel: Vector2, dragging: bool)
    ensures DragScroll(MouseMotionEvent(rel), dragging) == (if dragging then Some(Vector2(-rel.x, -rel.y)) else None)
    ensures DragScroll(ScreenDragEvent(rel), dragging) == (if dragging then Some(Vector2(-rel.x, -rel.y)) else None)
    ensures DragScroll(PanGestureEvent(rel), dragging) == Some(Vector2(-rel.x, -rel.y))
  {
  }

  /** A press starts a drag and the matching release ends it, whatever came before. */
  lemma PressThenRelease(dragging: bool, factor: real, shift: bool)
    ensures NextDragging(MouseButtonEvent(Left, true, factor, shift), dragging)
    ensures !NextDragging(MouseButtonEvent(Left, false, factor, shift), NextDragging(MouseButtonEvent(Left, true, factor, shift), dragging))
    ensures NextDragging(ScreenTouchEvent(true), dragging)
    ensures !NextDragging(ScreenTouchEvent(false), NextDragging(ScreenTouchEvent(true), dragging))
  {
  }
}
