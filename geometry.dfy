/**
 * Geometry of a smooth-scroll container: scrollbar ranges, rectangles,
 * the clamp applied to every scroll target and the per-axis move that
 * follow-focus uses to bring a control into view.
 */
module Geometry {

  /** A 2-D vector, as the engine's Vector2 (components as reals). */
  datatype Vector2 = Vector2(x: real, y: real)

  /** An axis-aligned rectangle given by its position and its size. */
  datatype Rect2 = Rect2(position: Vector2, size: Vector2) {
    /** The corner opposite the position: position + size. */
    function End(): Vector2 {
      Vector2(position.x + size.x, position.y + size.y)
    }
  }

  datatype Axis = Horizontal | Vertical {
    function Other(): Axis {
      if this == Horizontal then Vertical else Horizontal
    }
  }

  /**
   * A scrollbar range as the host reports it: the displayed value, the
   * extent of the content and the extent of the visible page.
   */
  datatype Bar = Bar(value: real, maxValue: real, page: real) {
    /** The host keeps the page within the range (its page is clamped to max - min, min being 0). */
    predicate Valid() {
      0.0 <= page <= maxValue
    }

    /** The largest scroll offset: the content extent minus the page extent. */
    function Limit(): (l: real)
      requires Valid()
      ensures 0.0 <= l <= maxValue
    {
      maxValue - page
    }

    /** True when there is nothing to scroll on this bar. */
    predicate NoOverflow() {
      maxValue == page
    }
  }

  function Abs(x: real): real {
    if x < 0.0 then -x else x
  }

  /**
   * The engine's clamp: `value` brought into `[lo, hi]`. The result is in
   * range and is the point of the range nearest to `value`.
   */
  function Clamp(value: real, lo: real, hi: real): (r: real)
    requires lo <= hi
    ensures lo <= r <= hi
    ensures r == value <==> lo <= value <= hi
  {
    if value < lo then lo else if value > hi then hi else value
  }

  /** No point of the range is nearer to `value` than its clamp. */
  lemma ClampIsNearest(value: real, lo: real, hi: real, x: real)
    requires lo <= hi && lo <= x <= hi
    ensures Abs(Clamp(value, lo, hi) - value) <= Abs(x - value)
  {
  }

  /** Clamping twice is clamping once. */
  lemma ClampIdempotent(value: real, lo: real, hi: real)
    requires lo <= hi
    ensures Clamp(Clamp(value, lo, hi), lo, hi) == Clamp(value, lo, hi)
  {
  }

  /**
   * The move along one axis that follow-focus applies to a page spanning
   * `[pageStart, pageEnd]` so that a control spanning `[start, end]` comes
   * into view: back to the control's start when the page begins after it,
   * otherwise forward to the control's end when the control reaches past the
   * page, otherwise no move.
   */
  function RevealMove(pageStart: real, pageEnd: real, start: real, end: real): (m: real)
    ensures m == 0.0 <==> pageStart <= start && end <= pageEnd
    ensures m < 0.0 <==> pageStart > start
    ensures m < 0.0 ==> pageStart + m == start
    ensures m > 0.0 ==> pageEnd + m == end
  {
    if pageStart > start then start - pageStart
    else if end > pageEnd then end - pageEnd
    else 0.0
  }

  /** The leading edge wins: a control that begins before the page is aligned at its start, whatever its size. */
  lemma RevealMoveLeadingEdgeFirst(pageStart: real, pageEnd: real, start: real, end: real)
    requires pageStart > start
    ensures pageStart + RevealMove(pageStart, pageEnd, start, end) == start
  {
  }

  /**
   * When the control is no larger than the page, the moved page contains it,
   * and no move that would also contain it is shorter.
   */
  lemma RevealMoveIsMinimal(pageStart: real, pageEnd: real, start: real, end: real, d: real)
    requires start <= end && end - start <= pageEnd - pageStart
    ensures var m := RevealMove(pageStart, pageEnd, start, end);
      pageStart + m <= start && end <= pageEnd + m
    ensures pageStart + d <= start && end <= pageEnd + d ==>
      Abs(RevealMove(pageStart, pageEnd, start, end)) <= Abs(d)
  {
  }
}
