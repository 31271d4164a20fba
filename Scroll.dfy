/**
 * The near-end test run on every scroll event (`isCloseToBottom`,
 * index.tsx:38-48) and the threshold it is given (index.tsx:106).
 * Scroll metrics are modelled as reals; JavaScript's floating point rounding
 * is not modelled. As written the test reads the vertical metrics even for
 * a horizontal list; `AxisMetrics` takes them along the scroll axis.
 */
module Scroll {
  import opened Wrappers

  /** `Math.ceil`, written as the negated floor of the negation. */
  function Ceil(x: real): int {
    -((-x).Floor)
  }

  /** `Math.ceil(x)` is the least integer that is at least `x`. */
  lemma CeilIsLeastAbove(x: real, n: int)
    ensures Ceil(x) as real >= x
    ensures (Ceil(x) - 1) as real < x
    ensures n as real >= x ==> n >= Ceil(x)
  {
  }

  lemma CeilMonotone(x: real, y: real)
    requires x <= y
    ensures Ceil(x) <= Ceil(y)
  {
    CeilIsLeastAbove(y, Ceil(y));
    CeilIsLeastAbove(x, Ceil(y));
  }

  /**
   * The scroll metrics along the vertical axis: the visible height
   * (`layoutMeasurement.height`), the scroll position (`contentOffset.y`)
   * and the height of the whole content (`contentSize.height`).
   */
  datatype ScrollMetrics = ScrollMetrics(viewport: real, offset: real, content: real)

  /**
   * The bottom edge of the viewport, rounded up, has reached the content
   * height minus `threshold` of it.
   */
  predicate IsCloseToBottom(m: ScrollMetrics, threshold: real) {
    Ceil(m.viewport + m.offset) as real >= EndLine(m, threshold)
  }

  /** The content height less `paddingToBottom`, the fraction `threshold` of it. */
  function EndLine(m: ScrollMetrics, threshold: real): real {
    var paddingToBottom := m.content * threshold;
    m.content - paddingToBottom
  }

  /** Rounding up reaches a line `t` iff the value lies above one less than `t` rounded up. */
  lemma CeilReaches(x: real, t: real)
    ensures Ceil(x) as real >= t <==> x > (Ceil(t) - 1) as real
  {
    CeilIsLeastAbove(x, Ceil(t));
    CeilIsLeastAbove(t, Ceil(x));
    CeilIsLeastAbove(t, Ceil(t));
  }

  /**
   * The same test without rounding: the viewport's bottom edge lies strictly
   * above one less than the rounded-up target line.
   */
  lemma CloseToBottomWithoutCeil(m: ScrollMetrics, threshold: real)
    ensures IsCloseToBottom(m, threshold) <==>
      m.viewport + m.offset > (Ceil(EndLine(m, threshold)) - 1) as real
  {
    CeilReaches(m.viewport + m.offset, EndLine(m, threshold));
  }

  /** Scrolling further never leaves the near-end band. */
  lemma CloseToBottomMonotone(m: ScrollMetrics, threshold: real, further: real)
    requires m.offset <= further
    requires IsCloseToBottom(m, threshold)
    ensures IsCloseToBottom(m.(offset := further), threshold)
  {
    var moved := m.(offset := further);
    assert EndLine(moved, threshold) == EndLine(m, threshold);
    assert moved.viewport + moved.offset == m.viewport + further;
    CeilMonotone(m.viewport + m.offset, m.viewport + further);
  }

  /**
   * `onEndReachedThreshold || 0.1`: a missing threshold and a threshold of
   * zero (both falsy) become `0.1`; any other value is used as given.
   */
  function EffectiveThreshold(onEndReachedThreshold: Option<real>): (t: real)
    ensures t != 0.0
    ensures onEndReachedThreshold.Some? && onEndReachedThreshold.value != 0.0 ==> t == onEndReachedThreshold.value
    ensures onEndReachedThreshold.None? || onEndReachedThreshold.value == 0.0 ==> t == 0.1
  {
    match onEndReachedThreshold
    case Some(t) => if t != 0.0 then t else 0.1
    case None => 0.1
  }

  /**
   * With a 100-high viewport over 1000 of content and the default threshold
   * the band starts at 900: the test holds exactly for offsets above 799,
   * so at 800 but not at 799; because of the rounding up it already holds
   * at 799.5.
   */
  lemma DefaultThresholdExample(offset: real, given: Option<real>)
    requires given == None || given == Some(0.0)
    ensures IsCloseToBottom(ScrollMetrics(100.0, offset, 1000.0), EffectiveThreshold(given)) <==> offset > 799.0
    ensures IsCloseToBottom(ScrollMetrics(100.0, 800.0, 1000.0), EffectiveThreshold(given))
    ensures !IsCloseToBottom(ScrollMetrics(100.0, 799.0, 1000.0), EffectiveThreshold(given))
    ensures IsCloseToBottom(ScrollMetrics(100.0, 799.5, 1000.0), EffectiveThreshold(given))
  {
    var m := ScrollMetrics(100.0, offset, 1000.0);
    assert EffectiveThreshold(given) == 0.1;
    assert EndLine(m, 0.1) == 900.0;
    CloseToBottomWithoutCeil(m, 0.1);
    assert Ceil(900.0) == 900;
    CloseToBottomWithoutCeil(ScrollMetrics(100.0, 800.0, 1000.0), 0.1);
    CloseToBottomWithoutCeil(ScrollMetrics(100.0, 799.0, 1000.0), 0.1);
    CloseToBottomWithoutCeil(ScrollMetrics(100.0, 799.5, 1000.0), 0.1);
  }

  /** The parts of a scroll event the test can read: `layoutMeasurement`, `contentOffset`, `contentSize`. */
  datatype NativeScrollEvent = NativeScrollEvent(
    layoutWidth: real, layoutHeight: real,
    offsetX: real, offsetY: real,
    contentWidth: real, contentHeight: real)

  /** What `isCloseToBottom` reads as written: heights and `contentOffset.y`, whatever the orientation. */
  function VerticalMetrics(e: NativeScrollEvent): ScrollMetrics {
    ScrollMetrics(e.layoutHeight, e.offsetY, e.contentHeight)
  }

  /** The metrics along the scroll axis: widths and `contentOffset.x` for a horizontal list. */
  function AxisMetrics(e: NativeScrollEvent, horizontal: bool): (m: ScrollMetrics)
    ensures !horizontal ==> m == VerticalMetrics(e)
    ensures horizontal ==> m.offset == e.offsetX && m.viewport == e.layoutWidth && m.content == e.contentWidth
  {
    if horizontal then ScrollMetrics(e.layoutWidth, e.offsetX, e.contentWidth) else VerticalMetrics(e)
  }

  /**
   * As written, a horizontal list whose content is exactly as high as its
   * viewport (and so never scrolls vertically) is always "close to the
   * bottom", whatever its horizontal position `x`.
   */
  lemma HorizontalAsWrittenIgnoresScroll(e: NativeScrollEvent, threshold: real, x: real)
    requires e.offsetY == 0.0 && e.contentHeight == e.layoutHeight >= 0.0 && threshold >= 0.0
    ensures IsCloseToBottom(VerticalMetrics(e.(offsetX := x)), threshold)
  {
    var m := VerticalMetrics(e.(offsetX := x));
    assert m.content * threshold >= 0.0;
    CeilIsLeastAbove(m.viewport + m.offset, 0);
  }

  /**
   * Along the scroll axis the horizontal test follows the scroll position:
   * at the start of content wider than the viewport plus the end band it
   * does not hold, and once scrolled to the end it holds.
   */
  lemma HorizontalAxisTracksScroll(e: NativeScrollEvent, threshold: real)
    requires threshold >= 0.0 && e.contentWidth >= 0.0
    requires e.layoutWidth + 1.0 <= e.contentWidth - e.contentWidth * threshold
    ensures !IsCloseToBottom(AxisMetrics(e.(offsetX := 0.0), true), threshold)
    ensures IsCloseToBottom(AxisMetrics(e.(offsetX := e.contentWidth - e.layoutWidth), true), threshold)
  {
    var start := AxisMetrics(e.(offsetX := 0.0), true);
    var end := AxisMetrics(e.(offsetX := e.contentWidth - e.layoutWidth), true);
    assert EndLine(start, threshold) == e.contentWidth - e.contentWidth * threshold;
    assert EndLine(end, threshold) == EndLine(start, threshold);
    CeilIsLeastAbove(start.viewport + start.offset, 0);
    assert end.viewport + end.offset == e.contentWidth;
    assert e.contentWidth * threshold >= 0.0;
    CeilIsLeastAbove(end.viewport + end.offset, 0);
  }
}
