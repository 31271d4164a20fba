/**
 * The state MasonryList keeps between renders and the two handlers that use
 * it: the pull-to-refresh handler (index.tsx:51, 90-101) and the scroll
 * handler (index.tsx:104-111). The callbacks the caller supplies
 * (`onRefresh`, `onEndReached`, `onScroll`) are opaque; each invocation is
 * recorded, in order, in `calls`. Whether a callback throws synchronously is
 * a parameter: neither handler catches, so a throw ends the handler there.
 */
module Component {
  import opened Wrappers
  import opened Scroll

  /** One invocation of a caller-supplied callback. */
  datatype Callback<Ev> =
    | OnRefresh(displayedRefreshing: bool)  // with the refreshing value displayed during the call
    | OnEndReached
    | OnScroll(event: Ev)

  /**
   * The props the handlers read: the `refreshing` prop (a missing one is
   * `false`), whether `onRefresh`, `onEndReached` and `onScroll` are
   * supplied, the `refreshControl` prop, `onEndReachedThreshold` and
   * `horizontal`.
   */
  datatype HandlerProps = HandlerProps(
    refreshing: bool,
    hasOnRefresh: bool,
    refreshControl: Option<bool>,
    hasOnEndReached: bool,
    onEndReachedThreshold: Option<real>,
    hasOnScroll: bool,
    horizontal: bool)

  /** `refreshControl = true`: the refresh control is attached unless the prop is `false`. */
  function RefreshControlAttached(p: HandlerProps): (attached: bool)
    ensures p.refreshControl.None? ==> attached
    ensures p.refreshControl.Some? ==> attached == p.refreshControl.value
  {
    match p.refreshControl
    case Some(enabled) => enabled
    case None => true
  }

  /** Whether a record of calls invokes `onEndReached`. */
  predicate CallsEndReached<Ev>(calls: seq<Callback<Ev>>) {
    exists i :: 0 <= i < |calls| && calls[i].OnEndReached?
  }

  /** Number of `onRefresh` invocations in a record of calls. */
  function RefreshCount<Ev>(calls: seq<Callback<Ev>>): (n: nat)
    ensures n <= |calls|
  {
    if calls == [] then 0
    else RefreshCount(calls[..|calls| - 1]) + (if calls[|calls| - 1].OnRefresh? then 1 else 0)
  }

  lemma {:induction false} RefreshCountAppend<Ev>(calls: seq<Callback<Ev>>, more: seq<Callback<Ev>>)
    ensures RefreshCount(calls + more) == RefreshCount(calls) + RefreshCount(more)
    decreases |more|
  {
    if more != [] {
      var m := |more| - 1;
      assert (calls + more)[..|calls + more| - 1] == calls + more[..m];
      assert (calls + more)[|calls + more| - 1] == more[m];
      RefreshCountAppend(calls, more[..m]);
    } else {
      assert calls + more == calls;
    }
  }

  /**
   * The near-end test the scroll handler applies, with
   * `onEndReachedThreshold || 0.1`: on the vertical metrics of the event,
   * whatever the list's orientation.
   */
  predicate NearEnd(p: HandlerProps, native: NativeScrollEvent) {
    IsCloseToBottom(VerticalMetrics(native), EffectiveThreshold(p.onEndReachedThreshold))
  }

  /** The near-end test on the metrics along the list's scroll axis. */
  predicate NearEndAlongAxis(p: HandlerProps, native: NativeScrollEvent) {
    IsCloseToBottom(AxisMetrics(native, p.horizontal), EffectiveThreshold(p.onEndReachedThreshold))
  }

  /** For a vertical list the handler's test and the test along the scroll axis agree. */
  lemma NearEndAlongAxisWhenVertical(p: HandlerProps, native: NativeScrollEvent)
    requires !p.horizontal
    ensures NearEnd(p, native) <==> NearEndAlongAxis(p, native)
  {
  }

  /**
   * The callbacks one scroll event triggers: `onEndReached` when it is
   * supplied and the event is near the end, then the caller's `onScroll`
   * when it is supplied, unless `onEndReached` was called and threw. Nothing
   * depends on earlier events, so `onEndReached` fires on every event inside
   * the band.
   */
  function ScrollCallbacks<Ev>(p: HandlerProps, native: NativeScrollEvent, event: Ev, endReachedThrows: bool)
    : (r: seq<Callback<Ev>>)
    ensures CallsEndReached(r) <==> p.hasOnEndReached && NearEnd(p, native)
    ensures (exists i :: 0 <= i < |r| && r[i].OnScroll?) <==>
      p.hasOnScroll && !(p.hasOnEndReached && NearEnd(p, native) && endReachedThrows)
    ensures p.hasOnScroll && !(p.hasOnEndReached && NearEnd(p, native) && endReachedThrows) ==>
      r[|r| - 1] == OnScroll(event)
    ensures |r| == (if p.hasOnEndReached && NearEnd(p, native) then 1 else 0)
      + (if p.hasOnScroll && !(p.hasOnEndReached && NearEnd(p, native) && endReachedThrows) then 1 else 0)
    ensures RefreshCount(r) == 0
  {
    var fires := p.hasOnEndReached && NearEnd(p, native);
    var endReached: seq<Callback<Ev>> := if fires then [OnEndReached] else [];
    var forwarded: seq<Callback<Ev>> := if p.hasOnScroll && !(fires && endReachedThrows) then [OnScroll(event)] else [];
    assert RefreshCount(endReached + forwarded) == 0 by {
      RefreshCountAppend(endReached, forwarded);
    }
    endReached + forwarded
  }

  /** Once the viewport is inside the near-end band, scrolling further down fires `onEndReached` again. */
  lemma EndReachedKeepsFiring<Ev>(p: HandlerProps, native: NativeScrollEvent, further: real, e1: Ev, e2: Ev, throws1: bool, throws2: bool)
    requires p.hasOnEndReached && native.offsetY <= further
    requires CallsEndReached(ScrollCallbacks(p, native, e1, throws1))
    ensures CallsEndReached(ScrollCallbacks(p, native.(offsetY := further), e2, throws2))
  {
    var m := VerticalMetrics(native);
    assert VerticalMetrics(native.(offsetY := further)) == m.(offset := further);
    CloseToBottomMonotone(m, EffectiveThreshold(p.onEndReachedThreshold), further);
  }

  /**
   * The handler never looks at the horizontal position: moving `offsetX`
   * leaves the callbacks of a scroll event as they were, for horizontal
   * lists too.
   */
  lemma ScrollCallbacksIgnoreOffsetX<Ev>(p: HandlerProps, native: NativeScrollEvent, x: real, event: Ev, endReachedThrows: bool)
    ensures ScrollCallbacks(p, native.(offsetX := x), event, endReachedThrows)
         == ScrollCallbacks(p, native, event, endReachedThrows)
  {
    assert VerticalMetrics(native.(offsetX := x)) == VerticalMetrics(native);
  }

  class MasonryList<Ev> {
    /** The props of the latest render. */
    var props: HandlerProps
    /** The `isRefreshing` state (`useState<boolean>(false)`). */
    var isRefreshing: bool
    /** Every caller-supplied callback invoked so far, in order. */
    var calls: seq<Callback<Ev>>

    constructor (props: HandlerProps)
      ensures this.props == props && !isRefreshing && calls == []
    {
      this.props := props;
      isRefreshing := false;
      calls := [];
    }

    /** A later render with new props keeps the component's state. */
    method Rerender(props: HandlerProps)
      modifies this`props
      ensures this.props == props
    {
      this.props := props;
    }

    /** `!!(refreshing || isRefreshing)`: the value the refresh control displays. */
    function DisplayedRefreshing(): bool
      reads this
    {
      props.refreshing || isRefreshing
    }

    /**
     * The refresh control's `onRefresh` handler, which exists only while the
     * control is attached: set `isRefreshing`, call `onRefresh` if supplied
     * without waiting for it, clear `isRefreshing`. If `onRefresh` throws
     * synchronously the clearing write is skipped and `threw` is set.
     */
    method HandleRefresh(refreshThrows: bool) returns (threw: bool)
      requires RefreshControlAttached(props)
      modifies this`isRefreshing, this`calls
      ensures threw == (props.hasOnRefresh && refreshThrows)
      ensures isRefreshing == threw && DisplayedRefreshing() == (props.refreshing || threw)
      ensures calls == old(calls) + (if props.hasOnRefresh then [OnRefresh(true)] else [])
      ensures RefreshCount(calls) == RefreshCount(old(calls)) + (if props.hasOnRefresh then 1 else 0)
    {
      isRefreshing := true;
      threw := false;
      if props.hasOnRefresh {
        calls := calls + [OnRefresh(DisplayedRefreshing())];
        threw := refreshThrows;
      }
      if !threw {
        isRefreshing := false;
      }
      RefreshCountAppend(old(calls), if props.hasOnRefresh then [OnRefresh(true)] else []);
    }

    /**
     * The scroll view's `onScroll` handler. If `onEndReached` is called and
     * throws, the caller's `onScroll` is not reached and `threw` is set.
     */
    method HandleScroll(native: NativeScrollEvent, event: Ev, endReachedThrows: bool) returns (threw: bool)
      modifies this`calls
      ensures threw == (props.hasOnEndReached && NearEnd(props, native) && endReachedThrows)
      ensures calls == old(calls) + ScrollCallbacks(props, native, event, endReachedThrows)
    {
      threw := false;
      if props.hasOnEndReached && NearEnd(props, native) {
        calls := calls + [OnEndReached];
        threw := endReachedThrows;
      }
      if !threw && props.hasOnScroll {
        calls := calls + [OnScroll(event)];
      }
    }
  }

  /**
   * Two scroll events inside the near-end band call `onEndReached` twice:
   * nothing suppresses the repeat. A refresh in between changes nothing
   * about that and leaves `isRefreshing` false.
   */
  method ScrollRefreshScroll<Ev>(list: MasonryList<Ev>, native: NativeScrollEvent, further: real, e1: Ev, e2: Ev)
    requires list.props.hasOnEndReached && !list.props.hasOnScroll && list.props.hasOnRefresh
    requires RefreshControlAttached(list.props)
    requires NearEnd(list.props, native) && native.offsetY <= further
    modifies list
    ensures !list.isRefreshing
    ensures list.calls == old(list.calls) + [OnEndReached, OnRefresh(true), OnEndReached]
  {
    var threw := list.HandleScroll(native, e1, false);
    threw := list.HandleRefresh(false);
    var m := VerticalMetrics(native);
    assert VerticalMetrics(native.(offsetY := further)) == m.(offset := further);
    CloseToBottomMonotone(m, EffectiveThreshold(list.props.onEndReachedThreshold), further);
    threw := list.HandleScroll(native.(offsetY := further), e2, false);
  }
}
