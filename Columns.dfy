/**
 * Round-robin distribution of the items over `numColumns` columns
 * (index.tsx:142-167): column `num` renders, in their original order, the
 * items whose index `i` has `i % numColumns === num`, each wrapped in a view
 * keyed by `ItemKey`; the column view itself is keyed `masonry-column-${num}`.
 */
module Columns {
  import opened Wrappers
  import opened Keys

  /** Every item paired with its original index, as `data.map((el, i) => ...)` sees it. */
  function Indexed<T>(data: seq<T>): (r: seq<(T, nat)>)
    ensures |r| == |data|
    ensures forall i :: 0 <= i < |data| ==> r[i] == (data[i], i)
  {
    seq(|data|, i requires 0 <= i < |data| => (data[i], i))
  }

  /**
   * The `(item, index)` pairs column `num` keeps out of `k` columns:
   * `data.map(...)` followed by `.filter(...)`, built here one item at a time
   * from the front so that every item keeps its original index.
   */
  function Column<T>(data: seq<T>, k: nat, num: nat): seq<(T, nat)>
    requires k > 0
    decreases |data|
  {
    if data == [] then []
    else
      var i := |data| - 1;
      Column(data[..i], k, num) + (if i % k == num then [(data[i], i)] else [])
  }

  /** `Array.from(Array(k), (_, num) => ...)`: one column per index below `k`. */
  function Distribute<T>(data: seq<T>, k: nat): (columns: seq<seq<(T, nat)>>)
    requires k > 0
    ensures |columns| == k
  {
    seq(k, num requires 0 <= num < k => Column(data, k, num))
  }

  /**
   * What a column holds: exactly the items whose index has residue `num`
   * modulo `k`, each with its own index, in increasing index order.
   */
  lemma {:induction false} ColumnContents<T>(data: seq<T>, k: nat, num: nat)
    requires k > 0
    ensures forall e :: e in Column(data, k, num) ==> e.1 < |data| && e.1 % k == num && e.0 == data[e.1]
    ensures forall i :: 0 <= i < |data| && i % k == num ==> (data[i], i) in Column(data, k, num)
    ensures forall a, b :: 0 <= a < b < |Column(data, k, num)| ==>
      Column(data, k, num)[a].1 < Column(data, k, num)[b].1
    decreases |data|
  {
    if data != [] {
      var n := |data| - 1;
      var pre := data[..n];
      ColumnContents(pre, k, num);
      var c := Column(pre, k, num);
      assert forall i :: 0 <= i < n ==> pre[i] == data[i];
      if n % k == num {
        assert Column(data, k, num) == c + [(data[n], n)];
        forall a, b | 0 <= a < b < |c| + 1
          ensures (c + [(data[n], n)])[a].1 < (c + [(data[n], n)])[b].1
        {
          if b == |c| {
            assert c[a] in c;
          }
        }
      } else {
        assert Column(data, k, num) == c;
      }
    }
  }

  /** Every item lands in exactly one column, column `i % k`, paired with its index. */
  lemma DistributePartition<T>(data: seq<T>, k: nat)
    requires k > 0
    ensures forall i :: 0 <= i < |data| ==> (data[i], i) in Distribute(data, k)[i % k]
    ensures forall num, e :: 0 <= num < k && e in Distribute(data, k)[num] ==>
      e.1 < |data| && e.1 % k == num && e.0 == data[e.1]
    ensures forall num :: 0 <= num < k ==> forall a, b :: 0 <= a < b < |Distribute(data, k)[num]| ==>
      Distribute(data, k)[num][a].1 < Distribute(data, k)[num][b].1
  {
    forall num | 0 <= num < k {
      ColumnContents(data, k, num);
    }
  }

  lemma {:induction false} OneColumnIsIndexed<T>(data: seq<T>)
    ensures Column(data, 1, 0) == Indexed(data)
    decreases |data|
  {
    if data != [] {
      var n := |data| - 1;
      OneColumnIsIndexed(data[..n]);
      assert Indexed(data) == Indexed(data[..n]) + [(data[n], n)];
    }
  }

  /** With one column the grid is the list itself, in order. */
  lemma SingleColumn<T>(data: seq<T>)
    ensures Distribute(data, 1) == [Indexed(data)]
  {
    OneColumnIsIndexed(data);
  }

  /** With no items every one of the `k` columns is empty. */
  lemma EmptyData<T>(data: seq<T>, k: nat)
    requires k > 0 && data == []
    ensures forall num :: 0 <= num < k ==> Distribute(data, k)[num] == []
  {
  }

  /** Adding one item at the end appends it to column `n % k` and to no other. */
  lemma DistributeAppend<T>(data: seq<T>, x: T, k: nat)
    requires k > 0
    ensures var n := |data|;
      Distribute(data + [x], k) == Distribute(data, k)[n % k := Distribute(data, k)[n % k] + [(x, n)]]
  {
    var n, d := |data|, data + [x];
    var before, after := Distribute(data, k), Distribute(d, k);
    var expected := before[n % k := before[n % k] + [(x, n)]];
    assert d[..n] == data;
    forall num | 0 <= num < k
      ensures after[num] == expected[num]
    {
      assert after[num] == Column(d, k, num);
      assert before[num] == Column(data, k, num);
    }
  }

  /** The columns laid end to end. */
  function Flatten<T>(columns: seq<seq<T>>): seq<T> {
    if columns == [] then [] else columns[0] + Flatten(columns[1..])
  }

  lemma {:induction false} FlattenAppendAt<T>(columns: seq<seq<T>>, num: nat, e: T)
    requires num < |columns|
    ensures multiset(Flatten(columns[num := columns[num] + [e]])) == multiset(Flatten(columns)) + multiset{e}
    decreases |columns|
  {
    var updated := columns[num := columns[num] + [e]];
    if num == 0 {
      assert updated[1..] == columns[1..];
    } else {
      assert updated[1..] == columns[1..][num - 1 := columns[num] + [e]];
      FlattenAppendAt(columns[1..], num - 1, e);
    }
  }

  lemma {:induction false} FlattenOfEmpties<T>(columns: seq<seq<T>>)
    requires forall num :: 0 <= num < |columns| ==> columns[num] == []
    ensures Flatten(columns) == []
    decreases |columns|
  {
    if columns != [] {
      FlattenOfEmpties(columns[1..]);
    }
  }

  /**
   * The columns together are a permutation of the indexed items: nothing is
   * dropped and nothing is repeated.
   */
  lemma {:induction false} DistributePermutation<T>(data: seq<T>, k: nat)
    requires k > 0
    ensures multiset(Flatten(Distribute(data, k))) == multiset(Indexed(data))
    decreases |data|
  {
    if data == [] {
      EmptyData(data, k);
      FlattenOfEmpties(Distribute(data, k));
    } else {
      var n := |data| - 1;
      var pre, x := data[..n], data[n];
      assert data == pre + [x];
      var cols := Distribute(pre, k);
      DistributePermutation(pre, k);
      DistributeAppend(pre, x, k);
      FlattenAppendAt(cols, n % k, (x, n));
      IndexedAppend(pre, x);
      assert multiset(Flatten(Distribute(pre + [x], k))) == multiset(Indexed(pre + [x]));
    }
  }

  lemma IndexedAppend<T>(data: seq<T>, x: T)
    ensures Indexed(data + [x]) == Indexed(data) + [(x, |data|)]
  {
  }

  /** The column lengths add up to the number of items. */
  lemma DistributeLength<T>(data: seq<T>, k: nat)
    requires k > 0
    ensures |Flatten(Distribute(data, k))| == |data|
  {
    DistributePermutation(data, k);
    assert |multiset(Flatten(Distribute(data, k)))| == |multiset(Indexed(data))|;
  }

  /** One rendered item: the view keyed `key` around `renderItem({item, i: index})`. */
  datatype Cell<T> = Cell(key: string, item: T, index: nat)

  /** One column view, keyed `masonry-column-${num}`, holding its cells. */
  datatype ColumnView<T> = ColumnView(key: string, cells: seq<Cell<T>>)

  /**
   * The cells of column `num`: each kept item with the key `ItemKey` gives
   * it. Without a key extractor, entries with distinct indices get distinct
   * keys.
   */
  function Cells<T>(entries: seq<(T, nat)>, num: nat, keyExtractor: Option<(T, nat) -> string>): (cells: seq<Cell<T>>)
    ensures |cells| == |entries|
    ensures forall j :: 0 <= j < |entries| ==>
      cells[j] == Cell(ItemKey(keyExtractor, entries[j].0, entries[j].1, num), entries[j].0, entries[j].1)
    ensures keyExtractor.None? ==> forall a, b :: 0 <= a < |entries| && 0 <= b < |entries| && entries[a].1 != entries[b].1 ==>
      cells[a].key != cells[b].key
  {
    var cells := seq(|entries|, j requires 0 <= j < |entries| =>
      Cell(ItemKey(keyExtractor, entries[j].0, entries[j].1, num), entries[j].0, entries[j].1));
    assert keyExtractor.None? ==> forall a, b :: 0 <= a < |entries| && 0 <= b < |entries| && entries[a].1 != entries[b].1 ==>
      cells[a].key != cells[b].key by {
      forall a, b | 0 <= a < |entries| && 0 <= b < |entries| && keyExtractor.None?
        ensures cells[a].key == cells[b].key ==> entries[a].1 == entries[b].1
      {
        RowKeyInjective(num, entries[a].1, num, entries[b].1);
      }
    }
    cells
  }

  /** The grid body: `k` keyed column views over `Distribute(data, k)`. */
  function Grid<T>(data: seq<T>, k: nat, keyExtractor: Option<(T, nat) -> string>): (grid: seq<ColumnView<T>>)
    requires k > 0
    ensures |grid| == k
  {
    seq(k, num requires 0 <= num < k =>
      ColumnView(ColumnKey(num), Cells(Distribute(data, k)[num], num, keyExtractor)))
  }

  /**
   * What column view `num` of the grid shows: it is keyed
   * `masonry-column-${num}` and, in increasing index order, shows exactly the
   * items whose index `i` has `i % k == num`. As residues differ between
   * columns, every item is shown in exactly one column.
   */
  lemma GridColumn<T>(data: seq<T>, k: nat, num: nat, keyExtractor: Option<(T, nat) -> string>)
    requires 0 <= num < k
    ensures Grid(data, k, keyExtractor)[num].key == ColumnKey(num)
    ensures forall c :: c in Grid(data, k, keyExtractor)[num].cells ==>
      c.index < |data| && c.index % k == num && c.item == data[c.index]
    ensures forall i :: 0 <= i < |data| && i % k == num ==>
      exists c :: c in Grid(data, k, keyExtractor)[num].cells && c.index == i
    ensures forall a, b :: 0 <= a < b < |Grid(data, k, keyExtractor)[num].cells| ==>
      Grid(data, k, keyExtractor)[num].cells[a].index < Grid(data, k, keyExtractor)[num].cells[b].index
  {
    var entries := Distribute(data, k)[num];
    var cells := Cells(entries, num, keyExtractor);
    ColumnContents(data, k, num);
    assert entries == Column(data, k, num);
    assert Grid(data, k, keyExtractor)[num] == ColumnView(ColumnKey(num), cells);
    forall c | c in cells
      ensures c.index < |data| && c.index % k == num && c.item == data[c.index]
    {
      var j :| 0 <= j < |cells| && cells[j] == c;
      assert entries[j] in entries;
    }
    forall i | 0 <= i < |data| && i % k == num
      ensures exists c :: c in cells && c.index == i
    {
      var j :| 0 <= j < |entries| && entries[j] == (data[i], i);
      assert cells[j] in cells;
    }
  }

  /**
   * Without a key extractor every item view in the grid gets a different key,
   * and the column views' keys differ from each other.
   */
  lemma GridKeysDistinct<T>(data: seq<T>, k: nat)
    requires k > 0
    ensures forall a, b :: 0 <= a < b < k ==> Grid(data, k, None)[a].key != Grid(data, k, None)[b].key
    ensures forall num, j, num', j' ::
      0 <= num < k && 0 <= num' < k &&
      0 <= j < |Grid(data, k, None)[num].cells| && 0 <= j' < |Grid(data, k, None)[num'].cells| &&
      (num, j) != (num', j') ==>
      Grid(data, k, None)[num].cells[j].key != Grid(data, k, None)[num'].cells[j'].key
  {
    var grid: seq<ColumnView<T>> := Grid(data, k, None);
    var cols: seq<seq<(T, nat)>> := Distribute(data, k);
    DistributePartition(data, k);
    forall a, b | 0 <= a < b < k
      ensures grid[a].key != grid[b].key
    {
      ColumnKeyInjective(a, b);
    }
    forall num: int, j: int, num': int, j': int |
      0 <= num < k && 0 <= num' < k &&
      0 <= j < |grid[num].cells| && 0 <= j' < |grid[num'].cells| &&
      (num, j) != (num', j')
      ensures grid[num].cells[j].key != grid[num'].cells[j'].key
    {
      var i, i' := cols[num][j].1, cols[num'][j'].1;
      assert cols[num][j] in cols[num] && cols[num'][j'] in cols[num'];
      if num == num' {
        assert i != i' by {
          if j < j' {} else {}
        }
      }
      RowKeyInjective(num, i, num', i');
    }
  }
}
