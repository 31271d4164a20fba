# MasonryList: a Dafny model of its deterministic core

`MasonryList` (index.tsx) is a React Native component that lays out a list of
items in a fixed number of columns inside a scroll view. It pages by calling
`onEndReached` when the user scrolls near the end, and it supports
pull-to-refresh. This project models the four parts of it that have their
own logic. It leaves out the rendering around them.

- **Keys** (`Keys.dfy`): the React keys the component gives its views. These
  are `masonry-column-${num}`, `keyExtractor(el, i) || masonry-row-${num}-${i}`
  and `'header' + index`. Numbers are written in decimal (`Decimal`). The
  model proves that this decimal form can be read back, and that the
  synthesized keys are injective.
- **Column distribution** (`Columns.dfy`): `Array.from(Array(numColumns), ...)`
  with `data.map(...).filter(...)`. Column `num` keeps the items whose index
  `i` has `i % numColumns === num`, in their original order. `Distribute`
  gives the `(item, index)` pairs of each column. `Grid` gives the keyed
  column and item views.
- **Near-end test** (`Scroll.dfy`): `isCloseToBottom` over reals, with
  `Math.ceil` written as `-((-x).Floor)`. Also the threshold
  `onEndReachedThreshold || 0.1`.
- **Slot composition** (`Slots.dfy`): the children of the scroll view, in
  order. These are the primary header, the header-list entries, one body (the
  empty state or the grid), the loading view and the footer.
- **Component state** (`Component.dfy`): a class `MasonryList` with the
  `isRefreshing` state, the props of the latest render, and a record of every
  caller-supplied callback invoked. `HandleRefresh` and `HandleScroll` are the
  two handlers the component installs on its scroll view.

Three behaviours of the code are easy to miss:
- The code does not check `numColumns`. The model requires a positive
  column count wherever the grid is built (`Slots.Composable`).
- The `refreshing` prop never starts a refresh. It is only OR-ed into the
  displayed value (`DisplayedRefreshing`).
- Any threshold is accepted. Only a falsy one is replaced by `0.1`.

## Model

| member | source | states |
|---|---|---|
| `Keys.Decimal` | index.tsx:157 | The decimal text of a number is non-empty, all digits, and has no leading zero. |
| `Keys.ParseDecimalOfDecimal` | index.tsx:157 | Reading the decimal text back gives the number again. |
| `Keys.DecimalInjective` | index.tsx:157 | Two numbers have the same decimal text iff they are equal. |
| `Keys.ColumnKeyInjective` | index.tsx:145 | `masonry-column-${num}` keys are equal iff the column numbers are equal. |
| `Keys.RowKeyInjective` | index.tsx:157 | `masonry-row-${num}-${i}` keys are equal iff both the column and the index are equal. |
| `Keys.HeaderKeysDistinct` | index.tsx:114-120 | `'header' + index` keys are equal iff the indices are equal, and none equals the primary header's key `'header'`. |
| `Keys.ItemKey` | index.tsx:156-158 | The item key is never empty. It is the extractor's key when an extractor is given and returns a non-empty string. Otherwise, including when there is no extractor or it returns `""`, it is `masonry-row-${num}-${i}`. |
| `Columns.Distribute` | index.tsx:142 | Exactly `numColumns` columns are produced. |
| `Columns.ColumnContents` | index.tsx:151-167 | `Column(data, k, num)`, the `map` and `filter` of one column, holds exactly the items with `i % k == num`, each paired with its index, in strictly increasing index order. |
| `Columns.DistributePartition` | index.tsx:142-167 | Every item appears in column `i % k`. Every entry of column `num` has index residue `num` and carries the item at that index. Each column is ordered by index. |
| `Columns.SingleColumn` | index.tsx:142-167 | With one column, the single column is the whole list in order. |
| `Columns.EmptyData` | index.tsx:142-167 | With no items, every one of the `k` columns is empty. |
| `Columns.DistributeAppend` | index.tsx:151-167 | Adding one item at the end appends it to column `n % k` and changes no other column. |
| `Columns.DistributePermutation` | index.tsx:142-167 | The columns laid end to end are a permutation of the indexed items. Nothing is dropped or repeated. |
| `Columns.DistributeLength` | index.tsx:142-167 | The column lengths add up to the item count. |
| `Columns.Cells` | index.tsx:155-161 | A column's views are its entries in order, each keyed by `ItemKey`. Without a key extractor, entries with distinct indices get distinct keys. |
| `Columns.Grid` | index.tsx:142-170 | The grid has one column view per column. |
| `Columns.GridColumn` | index.tsx:144-167 | Column view `num` is keyed `masonry-column-${num}`. It shows, in increasing index order, exactly the items with `i % k == num`. |
| `Columns.GridKeysDistinct` | index.tsx:145-158 | Without a key extractor, the column views have pairwise distinct keys. Every two item views in the grid also have distinct keys. |
| `Scroll.CeilIsLeastAbove` | index.tsx:45 | `Math.ceil(x)` is at least `x`. It is less than `x + 1`, and it is the least integer that is at least `x`. |
| `Scroll.CeilMonotone` | index.tsx:45 | `Math.ceil` is monotone. |
| `Scroll.CeilReaches` | index.tsx:45 | `Math.ceil(x)` reaches a line `t` iff `x` lies strictly above one less than `t` rounded up. |
| `Scroll.CloseToBottomWithoutCeil` | index.tsx:38-48 | `IsCloseToBottom`, the near-end test `Math.ceil(viewport + offset) >= content - content * threshold`, holds iff viewport plus offset lies strictly above one less than the rounded-up end line. The end line is content minus `content * threshold`. |
| `Scroll.CloseToBottomMonotone` | index.tsx:38-48 | If the near-end test holds at some offset, it holds at every larger offset. |
| `Scroll.EffectiveThreshold` | index.tsx:106 | A missing threshold, or a threshold of `0`, becomes `0.1`. Any other threshold is used as given. |
| `Scroll.AxisMetrics` | index.tsx:39-46 | The metrics along the scroll axis. For a vertical list they are `VerticalMetrics`, the heights and `contentOffset.y` that `isCloseToBottom` reads for every list. For a horizontal list they are the widths and `contentOffset.x`. |
| `Scroll.HorizontalAsWrittenIgnoresScroll` | index.tsx:39-46 | As written, the test reads `VerticalMetrics`. Take a horizontal list whose content height equals its viewport height and whose `y` offset is 0. Then, for any threshold of at least 0, the test holds at every horizontal position. |
| `Scroll.HorizontalAxisTracksScroll` | index.tsx:42-46 | Along the scroll axis, take a horizontal list whose content is wider than the viewport plus the end band. The test fails at the start and holds once scrolled to the end. |
| `Scroll.DefaultThresholdExample` | index.tsx:42-46 | Take viewport 100, content 1000 and the default threshold. The test holds iff the offset exceeds 799. So it holds at 800, fails at 799, and holds at 799.5. |
| `Slots.Mount` | index.tsx:127-131 | An element is shown as given iff the value is an element: the element itself. A component type is shown as that component, created. |
| `Slots.AsChild` | index.tsx:173-174 | A value placed directly as a child is displayed iff it is an element, and then as that element itself. |
| `Slots.ColumnCount` | index.tsx:70 | `numColumns` defaults to 2 only when not supplied. A supplied value is used as is. |
| `Slots.ComposeOrder` | index.tsx:113-174 | In `Compose`, the corrected composition, slots come in this order: primary header, header list, body, loading, footer. Every kind except the header-list entries appears at most once. |
| `Slots.ComposeContents` | index.tsx:113-174 | In `Compose`, the primary header is present iff given. The header-list entries come next, in order, keyed `'header' + index`. The body comes after them. It is the mounted empty state iff there are no items and an empty state is configured. Otherwise it is `Grid(data, numColumns, keyExtractor)` tagged with `horizontal`. The loading view is present iff `loading` is set and a loading view is given, and then it comes right after the body, mounted. The footer is present iff given, whatever the data, and is then last. |
| `Slots.HeaderKeysUnique` | index.tsx:113-123 | All header wrapper keys are pairwise distinct. |
| `Slots.EmptyDataWithoutEmptyState` | index.tsx:126-171 | With no items and no empty state, the body is still the grid, with `k` column views that show nothing. |
| `Slots.FullConfigurationExample` | index.tsx:113-174 | This configuration has a primary header, two header-list entries, no items with an empty state, loading, and a footer. Its children are exactly: the primary header, the two header-list entries, the empty state, loading, and the footer. There is no grid. |
| `Slots.AsWrittenDropsComponentFooter` | index.tsx:174 | In `ComposeAsWritten`, which places the loading view and footer as children, a footer given as a component type shows nothing. The corrected composition shows it, mounted, as the last child. |
| `Slots.AsWrittenAgreesOnElements` | index.tsx:173-174 | When the loading view and footer are elements or absent, `ComposeAsWritten` and `Compose` are equal. |
| `Component.RefreshControlAttached` | index.tsx:76 | The refresh control is attached unless `refreshControl` is `false`. |
| `Component.ScrollCallbacks` | index.tsx:104-111 | A scroll event calls `onEndReached` iff it is supplied and `NearEnd` holds: the near-end test on the event's vertical metrics (`VerticalMetrics`, whatever the orientation) with the effective threshold. It then calls `onScroll` last, if supplied, unless `onEndReached` was called and threw. It calls each at most once and never calls `onRefresh`. |
| `Component.EndReachedKeepsFiring` | index.tsx:104-108 | Once an event fires `onEndReached`, the same event at a larger `contentOffset.y` fires it again. Nothing suppresses the repeat. |
| `Component.ScrollCallbacksIgnoreOffsetX` | index.tsx:104-111 | The callbacks of a scroll event do not depend on `contentOffset.x`, for horizontal lists too. |
| `Component.NearEndAlongAxisWhenVertical` | index.tsx:106 | For a vertical list, `NearEnd` agrees with `NearEndAlongAxis`, the corrected test on the metrics along the scroll axis. |
| `Component.MasonryList.constructor` | index.tsx:51 | A new component is not refreshing and has invoked no callback. |
| `Component.MasonryList.Rerender` | index.tsx:50-51 | A later render replaces the props and keeps the state. |
| `Component.MasonryList.HandleRefresh` | index.tsx:91-98 | `onRefresh` is called once if supplied, and not otherwise. The displayed value (`DisplayedRefreshing`, the `refreshing` prop OR-ed with `isRefreshing`, index.tsx:93) is true while it runs. Afterwards `isRefreshing` is false and the displayed value is the `refreshing` prop, unless `onRefresh` threw. In that case `isRefreshing` stays true. |
| `Component.MasonryList.HandleScroll` | index.tsx:104-111 | The record of calls grows by exactly the callbacks `ScrollCallbacks` names, in order, so `onEndReached` depends on the vertical metrics only. The handler reports a throw iff `onEndReached` was called and threw. |
| `Component.ScrollRefreshScroll` | index.tsx:104-108 | A scroll inside the near-end band, a refresh, and a further scroll call `onEndReached`, then `onRefresh`, then `onEndReached`. Afterwards `isRefreshing` is false. |

## Findings

| source | as written | input that shows it | evidently intended | confidence | as-written member | corrected member |
|---|---|---|---|---|---|---|
| index.tsx:173-174 | `{loading && LoadingView}` and `{ListFooterComponent}` place the prop itself as a child. Their type admits a component type. React renders nothing for a function or class component given as a child, and throws for a `memo`/`forwardRef` object. Only the function and class case is modelled. | `ListFooterComponent` set to a component type such as a function component | Mount the component, as index.tsx:127-131 does for `ListEmptyComponent` | medium, not executed | `Slots.AsWrittenDropsComponentFooter` | `Slots.ComposeContents` |
| index.tsx:42-46 | `isCloseToBottom` reads `layoutMeasurement.height`, `contentOffset.y` and `contentSize.height` even when `horizontal` is set. | A horizontal list whose content height equals its viewport height, at `y = 0`. `onEndReached` then fires on every scroll event, at any horizontal position. | Read the widths and `contentOffset.x` for a horizontal list | medium, not executed | `Scroll.HorizontalAsWrittenIgnoresScroll` | `Scroll.HorizontalAxisTracksScroll` |

The rest of the model uses the corrected composition `Slots.Compose`. The
as-written one is `Slots.ComposeAsWritten`. The scroll handler
(`Component.NearEnd`, `Component.ScrollCallbacks`) keeps the as-written
`Scroll.VerticalMetrics`, as index.tsx:106 passes the event unchanged. The
corrected metrics are `Scroll.AxisMetrics`, with `Component.NearEndAlongAxis`
the corrected test. The two agree for vertical lists.

## Left out

- React and React Native rendering: `Animated.ScrollView`, `View`,
  `RefreshControl`, `memo`, the spread of the remaining props onto the scroll
  view, `innerRef`, `scrollEventThrottle`, `keyboardShouldPersistTaps` and
  `removeClippedSubviews`. These are library calls with no logic of their own.
- Styles, including `flex: 1 / numColumns`. `horizontal` is carried only as a
  tag on the grid slot.
- `renderItem` and the contents of slots are opaque. A grid cell records the
  item and index that `renderItem` is called with. React's `isValidElement`
  is the two-case `SlotValue`.
- Scroll metrics are reals. JavaScript floating point rounding is not
  modelled, and neither is a `NaN` threshold, which is falsy and would also
  become `0.1`.
- `numColumns` that is zero, negative or not an integer. `Array(0)` gives a
  grid with no columns, which drops every item. A negative or non-integer
  count throws a `RangeError`. The model requires a positive count whenever
  the grid is built.
- React state batching and re-render scheduling. The two `setIsRefreshing`
  writes are modelled as plain sequential field writes. Under React's
  batching, the internal `true` would never reach the screen.
- The asynchrony and results of `onRefresh`, `onEndReached` and `onScroll`.
  Each invocation is only recorded. A synchronous throw is a parameter of
  the handlers. A throw from `onScroll` ends nothing further, because it
  is the handler's last step.
- Component.MasonryList.HandleRefresh: promises `isRefreshing == false` only
  when `onRefresh` returns. The handler has no `try`/`finally`, so a
  synchronous throw skips the clearing write and the spinner stays on.
- Component.MasonryList.HandleScroll: forwards `onScroll` only when
  `onEndReached` did not throw. A throw there skips the forwarding.
- Falsy values other than `null` and `undefined` for slot props (for example
  `0` as `ListHeaderComponent`) are modelled as absent. The same goes for a
  key extractor returning a non-string.
