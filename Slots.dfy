/**
 * The children MasonryList places inside its scroll view, top to bottom
 * (index.tsx:113-174): the primary header, each entry of the header list,
 * then one body (the empty state or the column grid), then the loading
 * view and the footer.
 */
module Slots {
  import opened Wrappers
  import opened Keys
  import opened Columns

  /**
   * A slot prop typed `React.ComponentType | React.ReactElement`: a ready
   * element or a component type. `E` and `C` stand for the caller's
   * elements and components, which the model does not look into.
   */
  datatype SlotValue<E, C> = Element(element: E) | ComponentType(component: C)

  /** What React displays for a slot: a given element, or an element created from a component type. */
  datatype Shown<E, C> = Given(element: E) | Created(component: C)

  /** `React.isValidElement(v) ? v : <v />`, as done for `ListEmptyComponent`. */
  function Mount<E, C>(v: SlotValue<E, C>): (s: Shown<E, C>)
    ensures v.Element? <==> s.Given?
    ensures v.Element? ==> s == Given(v.element)
    ensures v.ComponentType? ==> s == Created(v.component)
  {
    match v
    case Element(e) => Given(e)
    case ComponentType(c) => Created(c)
  }

  /**
   * What React displays for a slot value placed directly as a child
   * (`{LoadingView}`, `{ListFooterComponent}`): an element is displayed; a
   * function or class component type is a function, and React renders
   * nothing for a function child. (`memo` and `forwardRef` component types
   * are objects, for which React throws instead; they are not modelled.)
   */
  function AsChild<E, C>(v: SlotValue<E, C>): (s: Option<Shown<E, C>>)
    ensures s.Some? <==> v.Element?
    ensures s.Some? ==> s.value == Given(v.element)
  {
    match v
    case Element(e) => Some(Given(e))
    case ComponentType(_) => None
  }

  /**
   * The props composition reads. A falsy `ListHeaderComponent`,
   * `ListEmptyComponent`, `LoadingView` or `ListFooterComponent` is `None`;
   * a null or missing `ListHeaderComponents` is the empty list; a missing
   * `loading` is `false`; `numColumns` is `None` when not supplied.
   */
  datatype Config<!T, N, E, C> = Config(
    data: seq<T>,
    numColumns: Option<int>,
    keyExtractor: Option<(T, nat) -> string>,
    header: Option<N>,
    headers: seq<N>,
    empty: Option<SlotValue<E, C>>,
    loading: bool,
    loadingView: Option<SlotValue<E, C>>,
    footer: Option<SlotValue<E, C>>,
    horizontal: bool)

  /** One child of the scroll view. `horizontal` is carried as a tag for the grid's flex direction. */
  datatype Slot<T, N, E, C> =
    | PrimaryHeader(key: string, node: N)
    | ListHeader(key: string, node: N)
    | EmptyState(shown: Shown<E, C>)
    | ColumnGrid(horizontal: bool, columns: seq<ColumnView<T>>)
    | Loading(shown: Shown<E, C>)
    | Footer(shown: Shown<E, C>)

  /** `numColumns = 2`: the default applies only when the prop is not supplied. */
  function ColumnCount(numColumns: Option<int>): (k: int)
    ensures numColumns.None? ==> k == 2
    ensures numColumns.Some? ==> k == numColumns.value
  {
    match numColumns
    case Some(n) => n
    case None => 2
  }

  /** `data.length === 0 && ListEmptyComponent`. */
  predicate ShowsEmptyState<T, N, E, C>(c: Config<T, N, E, C>) {
    |c.data| == 0 && c.empty.Some?
  }

  /**
   * What composition demands of the props: a positive column count whenever
   * the grid is built. The empty-state body never reads `numColumns`.
   */
  predicate Composable<T, N, E, C>(c: Config<T, N, E, C>) {
    ShowsEmptyState(c) || ColumnCount(c.numColumns) > 0
  }

  /** The primary header wrapper (key `'header'`), then one wrapper per header-list entry. */
  function Headers<T, N, E, C>(c: Config<T, N, E, C>): seq<Slot<T, N, E, C>> {
    (if c.header.Some? then [PrimaryHeader(PrimaryHeaderKey, c.header.value)] else [])
    + seq(|c.headers|, i requires 0 <= i < |c.headers| => ListHeader(HeaderKey(i), c.headers[i]))
  }

  /** The body: the mounted empty state, or the grid of `numColumns` columns. */
  function Body<T, N, E, C>(c: Config<T, N, E, C>): Slot<T, N, E, C>
    requires Composable(c)
  {
    if ShowsEmptyState(c) then EmptyState(Mount(c.empty.value))
    else ColumnGrid(c.horizontal, Grid(c.data, ColumnCount(c.numColumns), c.keyExtractor))
  }

  /** Loading view and footer, each mounted the way the empty state is. */
  function Tail<T, N, E, C>(c: Config<T, N, E, C>): seq<Slot<T, N, E, C>> {
    (if c.loading && c.loadingView.Some? then [Loading(Mount(c.loadingView.value))] else [])
    + (if c.footer.Some? then [Footer(Mount(c.footer.value))] else [])
  }

  /**
   * `{loading && LoadingView}` and `{ListFooterComponent}` as index.tsx
   * writes them: the raw value is placed as a child, so a component type
   * shows nothing.
   */
  function TailAsWritten<T, N, E, C>(c: Config<T, N, E, C>): seq<Slot<T, N, E, C>> {
    (if c.loading && c.loadingView.Some? && AsChild(c.loadingView.value).Some?
     then [Loading(AsChild(c.loadingView.value).value)] else [])
    + (if c.footer.Some? && AsChild(c.footer.value).Some?
       then [Footer(AsChild(c.footer.value).value)] else [])
  }

  /** The scroll view's children, with the loading view and footer mounted like the empty state. */
  function Compose<T, N, E, C>(c: Config<T, N, E, C>): seq<Slot<T, N, E, C>>
    requires Composable(c)
  {
    Headers(c) + [Body(c)] + Tail(c)
  }

  /**
   * The scroll view's children as index.tsx:113-174 writes them, for
   * elements and function or class component types.
   */
  function ComposeAsWritten<T, N, E, C>(c: Config<T, N, E, C>): seq<Slot<T, N, E, C>>
    requires Composable(c)
  {
    Headers(c) + [Body(c)] + TailAsWritten(c)
  }

  /** Kind of a slot. */
  datatype Kind = PrimaryHeaderKind | ListHeaderKind | EmptyKind | GridKind | LoadingKind | FooterKind

  function KindOf<T, N, E, C>(s: Slot<T, N, E, C>): Kind {
    match s
    case PrimaryHeader(_, _) => PrimaryHeaderKind
    case ListHeader(_, _) => ListHeaderKind
    case EmptyState(_) => EmptyKind
    case ColumnGrid(_, _) => GridKind
    case Loading(_) => LoadingKind
    case Footer(_) => FooterKind
  }

  /** Position of a slot's kind in the top-to-bottom order; both bodies share one. */
  function Rank<T, N, E, C>(s: Slot<T, N, E, C>): nat {
    match KindOf(s)
    case PrimaryHeaderKind => 0
    case ListHeaderKind => 1
    case EmptyKind => 2
    case GridKind => 2
    case LoadingKind => 3
    case FooterKind => 4
  }

  /**
   * Slots come in the order primary header, header list, body, loading,
   * footer, and every kind but the header-list entries appears at most once.
   */
  lemma ComposeOrder<T, N, E, C>(c: Config<T, N, E, C>)
    requires Composable(c)
    ensures forall a, b :: 0 <= a < b < |Compose(c)| ==>
      Rank(Compose(c)[a]) < Rank(Compose(c)[b]) || Rank(Compose(c)[a]) == Rank(Compose(c)[b]) == 1
  {
    var h, t := Headers(c), Tail(c);
    var r := Compose(c);
    assert forall a :: 0 <= a < |h| ==> Rank(h[a]) == (if c.header.Some? && a == 0 then 0 else 1);
    assert forall a :: 0 <= a < |t| ==> Rank(t[a]) == (if c.loading && c.loadingView.Some? && a == 0 then 3 else 4);
    forall a, b | 0 <= a < b < |r|
      ensures Rank(r[a]) < Rank(r[b]) || Rank(r[a]) == Rank(r[b]) == 1
    {
      if b < |h| {
        assert r[a] == h[a] && r[b] == h[b];
      } else if a < |h| {
        assert r[a] == h[a];
      } else if a == |h| {
        assert r[b] == t[b - |h| - 1];
      } else {
        assert r[a] == t[a - |h| - 1] && r[b] == t[b - |h| - 1];
      }
    }
  }

  /**
   * Which slots are present: the primary header iff given; the header-list
   * entries right after it, in order, keyed `'header' + index`; the body at
   * the position after them, the empty state iff `data` is empty and an empty
   * state is configured and the grid otherwise; the loading view iff
   * `loading` and a loading view are given; the footer iff given, whether the
   * data is empty or not, and then last.
   */
  lemma ComposeContents<T, N, E, C>(c: Config<T, N, E, C>)
    requires Composable(c)
    ensures var r, offset := Compose(c), if c.header.Some? then 1 else 0;
      && (c.header.Some? <==> r[0].PrimaryHeader?)
      && (c.header.Some? ==> r[0] == PrimaryHeader("header", c.header.value))
      && offset + |c.headers| < |r|
      && (forall i :: 0 <= i < |c.headers| ==> r[offset + i] == ListHeader(HeaderKey(i), c.headers[i]))
      && (ShowsEmptyState(c) ==> r[offset + |c.headers|] == EmptyState(Mount(c.empty.value)))
      && (!ShowsEmptyState(c) ==>
            r[offset + |c.headers|] == ColumnGrid(c.horizontal, Grid(c.data, ColumnCount(c.numColumns), c.keyExtractor)))
      && (c.loading && c.loadingView.Some? ==>
            offset + |c.headers| + 1 < |r| && r[offset + |c.headers| + 1] == Loading(Mount(c.loadingView.value)))
      && ((exists s :: s in r && s.Loading?) <==> c.loading && c.loadingView.Some?)
      && ((exists s :: s in r && s.Footer?) <==> c.footer.Some?)
      && (c.footer.Some? ==> r[|r| - 1] == Footer(Mount(c.footer.value)))
  {
    var h, t := Headers(c), Tail(c);
    var r := Compose(c);
    var offset := if c.header.Some? then 1 else 0;
    assert |h| == offset + |c.headers|;
    assert r[|h|] == Body(c);
    forall i | 0 <= i < |c.headers|
      ensures r[offset + i] == ListHeader(HeaderKey(i), c.headers[i])
    {
      assert r[offset + i] == h[offset + i];
    }
    if c.header.None? && |c.headers| > 0 {
      assert r[0] == h[0];
    }
    if c.loading && c.loadingView.Some? {
      assert r[|h| + 1] == t[0];
      assert r[|h| + 1] in r;
    }
    if c.footer.Some? {
      assert r[|r| - 1] == t[|t| - 1];
      assert r[|r| - 1] in r;
    }
    forall s | s in r
      ensures s.Loading? ==> c.loading && c.loadingView.Some?
      ensures s.Footer? ==> c.footer.Some?
    {
      var a :| 0 <= a < |r| && r[a] == s;
      if a > |h| {
        assert s in t;
      } else if a < |h| {
        assert s in h;
      }
    }
  }

  /** The keys of the header wrappers are pairwise distinct. */
  lemma HeaderKeysUnique<T, N, E, C>(c: Config<T, N, E, C>)
    ensures forall a, b :: 0 <= a < b < |Headers(c)| ==> Headers(c)[a].key != Headers(c)[b].key
  {
    var h := Headers(c);
    var offset := if c.header.Some? then 1 else 0;
    forall a, b | 0 <= a < b < |h|
      ensures h[a].key != h[b].key
    {
      HeaderKeysDistinct(b - offset, if a >= offset then a - offset else 0);
    }
  }

  /**
   * With no items and no empty state the body is still the grid: `k`
   * column views, none of which shows anything.
   */
  lemma EmptyDataWithoutEmptyState<T, N, E, C>(c: Config<T, N, E, C>)
    requires Composable(c) && |c.data| == 0 && c.empty.None?
    ensures Body(c).ColumnGrid?
    ensures |Body(c).columns| == ColumnCount(c.numColumns)
    ensures forall num :: 0 <= num < |Body(c).columns| ==> Body(c).columns[num].cells == []
  {
    var k := ColumnCount(c.numColumns);
    EmptyData(c.data, k);
  }

  function Kinds<T, N, E, C>(r: seq<Slot<T, N, E, C>>): (ks: seq<Kind>)
    ensures |ks| == |r| && forall i :: 0 <= i < |r| ==> ks[i] == KindOf(r[i])
  {
    seq(|r|, i requires 0 <= i < |r| => KindOf(r[i]))
  }

  /**
   * A primary header, two header-list entries, no items with an empty
   * state, `loading` with a loading view, and a footer: the children are
   * exactly header, header0, header1, empty state, loading, footer, with no grid.
   */
  lemma FullConfigurationExample<T, N, E, C>(c: Config<T, N, E, C>)
    requires c.header.Some? && |c.headers| == 2 && c.data == [] && c.empty.Some?
    requires c.loading && c.loadingView.Some? && c.footer.Some?
    ensures Composable(c)
    ensures Kinds(Compose(c)) == [PrimaryHeaderKind, ListHeaderKind, ListHeaderKind, EmptyKind, LoadingKind, FooterKind]
  {
  }

  /**
   * As written, a footer given as a component type shows nothing, although
   * the prop's type admits it and the empty state of the same type is
   * mounted.
   */
  lemma AsWrittenDropsComponentFooter<T, N, E, C>(c: Config<T, N, E, C>)
    requires Composable(c) && c.footer.Some? && c.footer.value.ComponentType?
    ensures !exists s :: s in ComposeAsWritten(c) && s.Footer?
    ensures Compose(c)[|Compose(c)| - 1] == Footer(Created(c.footer.value.component))
  {
    ComposeContents(c);
    var r := ComposeAsWritten(c);
    var h, t := Headers(c), TailAsWritten(c);
    forall s | s in r
      ensures !s.Footer?
    {
      var a :| 0 <= a < |r| && r[a] == s;
      if a > |h| {
        assert s in t;
      } else if a < |h| {
        assert s in h;
      }
    }
  }

  /** When the loading view and the footer are elements (or absent), both compositions agree. */
  lemma AsWrittenAgreesOnElements<T, N, E, C>(c: Config<T, N, E, C>)
    requires Composable(c)
    requires c.loadingView.Some? ==> c.loadingView.value.Element?
    requires c.footer.Some? ==> c.footer.value.Element?
    ensures ComposeAsWritten(c) == Compose(c)
  {
    assert TailAsWritten(c) == Tail(c);
  }
}
