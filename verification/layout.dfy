/** Item-major layout: when every snapshot holds the same items the item columns are transposed. */
module Layout {
  import opened Bytes
  import opened Snapshots

  // ---- index arithmetic ---------------------------------------------------

  lemma Position(r: nat, c: nat, rows: nat)
    requires r < rows
    ensures (c * rows + r) % rows == r && (c * rows + r) / rows == c
  {
    DivMod(c * rows + r, c, r, rows);
  }

  lemma DivMod(x: nat, q: nat, r: nat, d: nat)
    requires d > 0 && r < d && x == q * d + r
    ensures x / d == q && x % d == r
  {
    var q', r' := x / d, x % d;
    assert x == q' * d + r';
    if q > q' {
      Scale(q' + 1, q, d);
    } else if q < q' {
      Scale(q + 1, q', d);
    }
  }

  lemma Scale(a: nat, b: nat, d: nat)
    requires a <= b
    ensures a * d <= b * d
    ensures (a + 1) * d == a * d + d
  {
  }

  lemma InRange(r: nat, c: nat, rows: nat, cols: nat)
    requires r < rows && c < cols
    ensures 0 <= r * cols + c < rows * cols
  {
    Scale(r + 1, rows, cols);
    Scale(r, r + 1, cols);
  }

  lemma Quotient(k: nat, rows: nat, cols: nat)
    requires k < rows * cols
    ensures rows > 0 && cols > 0 && k % rows < rows && k / rows < cols
  {
    assert rows == 0 ==> rows * cols == 0;
    assert cols == 0 ==> rows * cols == 0;
    if cols <= k / rows {
      Scale(cols, k / rows, rows);
    }
    assert cols * rows == rows * cols;
  }

  // ---- transposition ------------------------------------------------------

  function At(data: seq<int>, rows: nat, cols: nat, k: nat): int
    requires |data| == rows * cols && k < |data|
  {
    Quotient(k, rows, cols);
    InRange(k % rows, k / rows, rows, cols);
    data[(k % rows) * cols + k / rows]
  }

  /** Entry c * rows + r of the result is entry r * cols + c of the data. */
  function Transpose(data: seq<int>, rows: nat, cols: nat): (out: seq<int>)
    requires |data| == rows * cols
    ensures |out| == |data|
  {
    seq(|data|, k requires 0 <= k < |data| => At(data, rows, cols, k))
  }

  lemma TransposeAt(data: seq<int>, rows: nat, cols: nat, r: nat, c: nat)
    requires |data| == rows * cols && r < rows && c < cols
    ensures 0 <= c * rows + r < |data| && 0 <= r * cols + c < |data|
    ensures Transpose(data, rows, cols)[c * rows + r] == data[r * cols + c]
  {
    InRange(r, c, rows, cols);
    InRange(c, r, cols, rows);
    assert cols * rows == rows * cols;
    Position(r, c, rows);
  }

  /** Transposing back restores the data. */
  lemma TransposeTwice(data: seq<int>, rows: nat, cols: nat)
    requires |data| == rows * cols
    ensures |data| == cols * rows && Transpose(Transpose(data, rows, cols), cols, rows) == data
  {
    var once := Transpose(data, rows, cols);
    assert cols * rows == rows * cols;
    var twice := Transpose(once, cols, rows);
    forall k | 0 <= k < |data|
      ensures twice[k] == data[k]
    {
      Quotient(k, cols, rows);
      var r, c := k / cols, k % cols;
      assert k == r * cols + c;
      TransposeAt(data, rows, cols, r, c);
      TransposeAt(once, cols, rows, c, r);
    }
  }

  /** Which entries the nested loops have filled after row `r`, column `c`. */
  ghost predicate Filled(out: seq<int>, data: seq<int>, rows: nat, cols: nat, r: nat, c: nat)
  {
    |data| == rows * cols && |out| == |data| &&
    forall i, j :: 0 <= i < rows && 0 <= j < cols && (i < r || (i == r && j < c)) ==>
      (InRange(j, i, cols, rows); InRange(i, j, rows, cols); assert cols * rows == rows * cols;
       out[j * rows + i] == data[i * cols + j])
  }

  lemma FilledEntry(out: seq<int>, data: seq<int>, rows: nat, cols: nat, k: nat)
    requires Filled(out, data, rows, cols, rows, 0) && k < |data|
    ensures out[k] == Transpose(data, rows, cols)[k]
  {
    hide Transpose;
    Quotient(k, rows, cols);
    var r, c := k % rows, k / rows;
    TransposeAt(data, rows, cols, r, c);
    assert k == c * rows + r;
    assert out[c * rows + r] == data[r * cols + c];
  }

  lemma FilledIsTransposed(out: seq<int>, data: seq<int>, rows: nat, cols: nat)
    requires Filled(out, data, rows, cols, rows, 0)
    ensures out == Transpose(data, rows, cols)
  {
    forall k | 0 <= k < |data|
      ensures out[k] == Transpose(data, rows, cols)[k]
    {
      FilledEntry(out, data, rows, cols, k);
    }
  }

  lemma FilledNext(out: seq<int>, out': seq<int>, data: seq<int>, rows: nat, cols: nat, r: nat, c: nat)
    requires Filled(out, data, rows, cols, r, c) && r < rows && c < cols
    requires 0 <= c * rows + r < |out| && 0 <= r * cols + c < |data|
    requires out' == out[c * rows + r := data[r * cols + c]]
    ensures Filled(out', data, rows, cols, r, c + 1)
  {
    forall i, j | 0 <= i < rows && 0 <= j < cols && (i < r || (i == r && j < c + 1))
      ensures 0 <= j * rows + i < |out| && 0 <= i * cols + j < |data|
      ensures out'[j * rows + i] == data[i * cols + j]
    {
      InRange(j, i, cols, rows);
      InRange(i, j, rows, cols);
      assert cols * rows == rows * cols;
      Position(i, j, rows);
      Position(r, c, rows);
      if i != r || j != c {
        assert j * rows + i != c * rows + r;
      }
    }
  }

  /** Serves both directions: snapshots by items on the way in, items by snapshots on the way out. */
  method TransposeLoop(data: seq<int>, rows: nat, cols: nat) returns (result: seq<int>)
    requires |data| == rows * cols
    ensures result == Transpose(data, rows, cols)
  {
    hide Filled, Transpose;
    var out := new int[|data|](_ => 0);
    FilledStart(out[..], data, rows, cols);
    for r := 0 to rows
      invariant Filled(out[..], data, rows, cols, r, 0)
    {
      for c := 0 to cols
        invariant Filled(out[..], data, rows, cols, r, c)
      {
        InRange(c, r, cols, rows);
        InRange(r, c, rows, cols);
        assert cols * rows == rows * cols;
        ghost var before := out[..];
        out[c * rows + r] := data[r * cols + c];
        FilledNext(before, out[..], data, rows, cols, r, c);
      }
      FilledRow(out[..], data, rows, cols, r);
    }
    FilledIsTransposed(out[..], data, rows, cols);
    result := out[..];
  }

  lemma FilledStart(out: seq<int>, data: seq<int>, rows: nat, cols: nat)
    requires |data| == rows * cols && |out| == |data|
    ensures Filled(out, data, rows, cols, 0, 0)
  {
  }

  lemma FilledRow(out: seq<int>, data: seq<int>, rows: nat, cols: nat, r: nat)
    requires Filled(out, data, rows, cols, r, cols)
    ensures Filled(out, data, rows, cols, r + 1, 0)
  {
  }

  // ---- the encoder's columns ----------------------------------------------

  datatype Features = Features(columns: Columns, itemMajor: bool, itemsPerSnapshot: nat)

  /** More than one snapshot, more than one item, and the same items in every snapshot. */
  predicate Stable(c: Columns)
  {
    |c.lengths| > 1 && c.lengths[0] > 1 && |c.ids| == |c.lengths| * c.lengths[0] &&
    (forall i :: 0 <= i < |c.lengths| ==> c.lengths[i] == c.lengths[0]) &&
    forall s, i :: 0 <= s < |c.lengths| && 0 <= i < c.lengths[0] ==> SameId(c.ids, |c.lengths|, c.lengths[0], s, i)
  }

  /** Item i of snapshot s has the id of item i of the first snapshot. */
  predicate SameId(ids: seq<int>, rows: nat, n: nat, s: nat, i: nat)
    requires |ids| == rows * n && s < rows && i < n
  {
    InRange(s, i, rows, n);
    InRange(0, i, rows, n);
    ids[s * n + i] == ids[i]
  }

  function TransposeColumns(c: Columns, rows: nat, cols: nat): Columns
    requires |c.ids| == |c.prices| == |c.quantities| == rows * cols
  {
    c.(ids := Transpose(c.ids, rows, cols), prices := Transpose(c.prices, rows, cols),
       quantities := Transpose(c.quantities, rows, cols))
  }

  /** collectDataFeatures */
  function Collect(snaps: seq<Snapshot>): (f: Features)
    ensures f.itemMajor ==> f.itemsPerSnapshot > 1
  {
    var c := Flatten(snaps);
    FlattenConsistent(snaps);
    if Stable(c) then Features(TransposeColumns(c, |c.lengths|, c.lengths[0]), true, c.lengths[0])
    else Features(c, false, 0)
  }

  /** reverseItemMajorIfNeeded where the header's count fits the columns. Elsewhere fromItemMajor leaves
      holes, which no snapshot can be rebuilt from: Reversed below says what it leaves. */
  function Restore(c: Columns, itemMajor: bool, itemCount: nat): Result<Columns>
  {
    if !itemMajor || itemCount == 0 || c.lengths == [] then Ok(c)
    else if |c.ids| == |c.prices| == |c.quantities| == itemCount * |c.lengths| then
      Ok(TransposeColumns(c, itemCount, |c.lengths|))
    else Err(IntegrityMismatch)
  }

  /** The header's item count: setUint16 keeps the low 16 bits. */
  function HeaderCount(f: Features): nat { f.itemsPerSnapshot % 0x1_0000 }

  /** Prices replaced, the layout undone: the decoder's columns, given whatever prices it decoded. */
  lemma RestoreWithPrices(snaps: seq<Snapshot>, prices: seq<int>)
    requires |prices| == |Flatten(snaps).prices|
    requires Collect(snaps).itemMajor ==> Collect(snaps).itemsPerSnapshot < 0x1_0000
    ensures var f := Collect(snaps);
            var r := Restore(f.columns.(prices := prices), f.itemMajor, HeaderCount(f));
            && r.Ok? && |r.value.prices| == |Flatten(snaps).prices|
            && r.value == Flatten(snaps).(prices := r.value.prices)
            && (r.value.prices == Flatten(snaps).prices <==> prices == f.columns.prices)
  {
    hide Transpose, Flatten;
    FlattenConsistent(snaps);
    var c := Flatten(snaps);
    if Stable(c) {
      var sc, n := |c.lengths|, c.lengths[0];
      assert n * sc == sc * n;
      TransposeTwice(c.ids, sc, n);
      TransposeTwice(c.prices, sc, n);
      TransposeTwice(c.quantities, sc, n);
      TransposeTwice(prices, n, sc);
    }
  }

  /** With 65536 items or more the header loses the count and the segment cannot be read back. */
  lemma TooManyItems(snaps: seq<Snapshot>, prices: seq<int>)
    requires |prices| == |Flatten(snaps).prices|
    requires Collect(snaps).itemMajor && Collect(snaps).itemsPerSnapshot >= 0x1_0000
    ensures var f := Collect(snaps);
            match Restore(f.columns.(prices := prices), f.itemMajor, HeaderCount(f))
            case Err(_) => true
            case Ok(c) => Reconstruct(c) != Ok(snaps)
  {
    hide Transpose, Flatten, Stable, Reconstruct;
    var f := Collect(snaps);
    if HeaderCount(f) > 0 {
      StableShape(Flatten(snaps));
      WrongCount(|f.columns.ids|, |f.columns.lengths|, f.itemsPerSnapshot, HeaderCount(f));
    } else {
      UntransposedFails(snaps, prices);
    }
  }

  lemma WrongCount(size: nat, sc: nat, n: nat, field: nat)
    requires size == sc * n && field < n && sc > 0
    ensures size != field * sc
  {
    Scale(field + 1, n, sc);
    Scale(field, field + 1, sc);
    assert n * sc == sc * n;
  }

  lemma UntransposedFails(snaps: seq<Snapshot>, prices: seq<int>)
    requires |prices| == |Flatten(snaps).prices| && Stable(Flatten(snaps))
    ensures Reconstruct(Collect(snaps).columns.(prices := prices)) != Ok(snaps)
  {
    hide Transpose, Flatten, Build, Stable, Sum;
    var mixed := Collect(snaps).columns.(prices := prices);
    MixedIds(snaps);
    LargestId(snaps);
    if Consistent(mixed) {
      FirstKeys(mixed);
    }
  }

  lemma FirstKeys(c: Columns)
    requires Consistent(c)
    ensures 0 <= c.lengths[0] <= |c.ids|
    ensures Build(c.times, c.lengths, c.ids, c.prices, c.quantities)[0].items.Keys
         == set x | x in c.ids[..c.lengths[0]]
  {
    SumNonNegative(c.lengths[1..]);
  }

  /** The first snapshot's largest id. */
  lemma LargestId(snaps: seq<Snapshot>)
    requires Stable(Flatten(snaps))
    ensures var c := Flatten(snaps); snaps != [] && c.ids[c.lengths[0] - 1] in snaps[0].items
  {
    FlattenConsistent(snaps);
    var c := Flatten(snaps);
    var n := c.lengths[0];
    assert Ids(snaps[0])[n - 1] == c.ids[n - 1];
  }

  lemma StableShape(c: Columns)
    requires Stable(c)
    ensures |c.lengths| > 1 && c.lengths[0] > 1 && |c.ids| == |c.lengths| * c.lengths[0]
  {
  }

  /** The first `n` ids in item-major order miss the largest one. */
  lemma MixedIds(snaps: seq<Snapshot>)
    requires Stable(Flatten(snaps))
    ensures var c, mixed := Flatten(snaps), Collect(snaps).columns;
            && mixed.lengths == c.lengths && c.lengths[0] <= |mixed.ids| && |mixed.ids| == |c.ids|
            && c.ids[c.lengths[0] - 1] !in mixed.ids[..c.lengths[0]]
  {
    hide Flatten, Transpose, Stable;
    StableShape(Flatten(snaps));
    var c, mixed := Flatten(snaps), Collect(snaps).columns;
    var sc, n := |c.lengths|, c.lengths[0];
    Scale(1, sc, n);
    forall k | 0 <= k < n
      ensures mixed.ids[k] != c.ids[n - 1]
    {
      EarlyItem(k, sc, n);
      StableEntry(c, k);
      IdsAscend(snaps, k / sc);
    }
  }

  /** Fewer than n entries of sc copies each do not reach the last item. */
  lemma EarlyItem(k: nat, sc: nat, n: nat)
    requires k < n && sc >= 2 && n >= 2
    ensures k / sc < n - 1 && k < sc * n
  {
    assert k == (k / sc) * sc + k % sc;
    Scale(1, sc, n);
    Scale(2, sc, n - 1);
    if n - 1 <= k / sc {
      Scale(n - 1, k / sc, sc);
    }
    assert (n - 1) * sc == sc * (n - 1);
  }

  lemma StableEntry(c: Columns, k: nat)
    requires Stable(c) && k < |c.ids|
    ensures var sc, n := |c.lengths|, c.lengths[0];
            k / sc < n && k / sc < |c.ids| && Transpose(c.ids, sc, n)[k] == c.ids[k / sc]
  {
    var sc, n := |c.lengths|, c.lengths[0];
    Quotient(k, sc, n);
    InRange(0, k / sc, sc, n);
    assert SameId(c.ids, sc, n, k % sc, k / sc);
  }

  lemma IdsAscend(snaps: seq<Snapshot>, i: nat)
    requires Stable(Flatten(snaps)) && i < Flatten(snaps).lengths[0] - 1
    ensures var c := Flatten(snaps); c.ids[i] < c.ids[c.lengths[0] - 1]
  {
    FlattenConsistent(snaps);
    var c := Flatten(snaps);
    var n := c.lengths[0];
    assert Ids(snaps[0])[i] == c.ids[i] && Ids(snaps[0])[n - 1] == c.ids[n - 1];
  }

  // ---- columns with holes -------------------------------------------------

  /** A column after the layout step; None is an entry the step never wrote. */
  type HoleyColumn = seq<Option<int>>

  datatype Holey = Holey(times: seq<int>, lengths: seq<int>, ids: HoleyColumn, prices: HoleyColumn, quantities: HoleyColumn)

  function Whole(data: seq<int>): (h: HoleyColumn)
    ensures |h| == |data| && forall k :: 0 <= k < |h| ==> h[k] == Some(data[k])
  {
    seq(|data|, k requires 0 <= k < |data| => Some(data[k]))
  }

  function Larger(a: nat, b: nat): nat { if a > b then a else b }

  /** What fromItemMajor puts at position k: nothing beyond the item count times the snapshot count, and
      nothing where it reads beyond the data. */
  function ReversedAt(data: seq<int>, itemCount: nat, snapshotCount: nat, k: nat): Option<int>
    requires itemCount > 0
  {
    var from := (k % itemCount) * snapshotCount + k / itemCount;
    if k < itemCount * snapshotCount && from < |data| then Some(data[from]) else None
  }

  /** fromItemMajor on any data: an array as long as the data that grows where it is written behind its end. */
  function FromItemMajor(data: seq<int>, itemCount: nat, snapshotCount: nat): (h: HoleyColumn)
    requires itemCount > 0
    ensures |h| == Larger(|data|, itemCount * snapshotCount)
    ensures forall k :: 0 <= k < |h| ==> h[k] == ReversedAt(data, itemCount, snapshotCount, k)
  {
    hide ReversedAt;
    seq(Larger(|data|, itemCount * snapshotCount), k requires k >= 0 => ReversedAt(data, itemCount, snapshotCount, k))
  }

  /** reverseItemMajorIfNeeded on any columns. */
  function Reversed(c: Columns, itemMajor: bool, itemCount: nat): Holey
  {
    if !itemMajor || itemCount == 0 || c.lengths == [] then
      Holey(c.times, c.lengths, Whole(c.ids), Whole(c.prices), Whole(c.quantities))
    else
      var n := |c.lengths|;
      Holey(c.times, c.lengths, FromItemMajor(c.ids, itemCount, n), FromItemMajor(c.prices, itemCount, n),
            FromItemMajor(c.quantities, itemCount, n))
  }

  /** validateCrossStreams, which compares lengths only. */
  predicate LengthsAgree(h: Holey)
  {
    h.lengths != [] && |h.times| == |h.lengths| &&
    (forall i :: 0 <= i < |h.lengths| ==> h.lengths[i] >= 0) &&
    Sum(h.lengths) == |h.ids| && |h.ids| == |h.prices| && |h.ids| == |h.quantities|
  }

  predicate NoHoles(h: HoleyColumn)
  {
    forall k :: 0 <= k < |h| ==> h[k].Some?
  }

  lemma WholeNoHoles(data: seq<int>)
    ensures NoHoles(Whole(data))
  {
  }

  /** Which entries fromItemMajor's loops have written before item i, snapshot s. */
  predicate Written(k: nat, itemCount: nat, snapshotCount: nat, i: nat, s: nat)
    requires itemCount > 0
  {
    k < itemCount * snapshotCount && (k % itemCount < i || (k % itemCount == i && k / itemCount < s))
  }

  ghost predicate Reversing(out: HoleyColumn, data: seq<int>, itemCount: nat, snapshotCount: nat, i: nat, s: nat)
    requires itemCount > 0
  {
    |out| == Larger(|data|, itemCount * snapshotCount) &&
    forall k :: 0 <= k < |out| ==>
      out[k] == if Written(k, itemCount, snapshotCount, i, s) then ReversedAt(data, itemCount, snapshotCount, k) else None
  }

  lemma ReversingStep(out: HoleyColumn, data: seq<int>, itemCount: nat, snapshotCount: nat, i: nat, s: nat)
    requires itemCount > 0 && i < itemCount && s < snapshotCount && Reversing(out, data, itemCount, snapshotCount, i, s)
    ensures var k := s * itemCount + i;
            && k < itemCount * snapshotCount <= |out|
            && var x := if i * snapshotCount + s < |data| then Some(data[i * snapshotCount + s]) else None;
               Reversing(out[k := x], data, itemCount, snapshotCount, i, s + 1)
  {
    var k := s * itemCount + i;
    InRange(s, i, snapshotCount, itemCount);
    assert snapshotCount * itemCount == itemCount * snapshotCount;
    Position(i, s, itemCount);
    var x := if i * snapshotCount + s < |data| then Some(data[i * snapshotCount + s]) else None;
    assert x == ReversedAt(data, itemCount, snapshotCount, k);
    hide ReversedAt;
    forall j | 0 <= j < |out|
      ensures Written(j, itemCount, snapshotCount, i, s + 1)
         <==> Written(j, itemCount, snapshotCount, i, s) || j == k
    {
      assert j == (j / itemCount) * itemCount + j % itemCount;
    }
    hide Written;
  }

  lemma ReversingRow(out: HoleyColumn, data: seq<int>, itemCount: nat, snapshotCount: nat, i: nat)
    requires itemCount > 0 && Reversing(out, data, itemCount, snapshotCount, i, snapshotCount)
    ensures Reversing(out, data, itemCount, snapshotCount, i + 1, 0)
  {
    hide ReversedAt;
    forall j | 0 <= j < |out|
      ensures Written(j, itemCount, snapshotCount, i + 1, 0) <==> Written(j, itemCount, snapshotCount, i, snapshotCount)
    {
      if j < itemCount * snapshotCount {
        assert snapshotCount * itemCount == itemCount * snapshotCount;
        Quotient(j, itemCount, snapshotCount);
      }
    }
    hide Written;
  }

  lemma ReversingDone(out: HoleyColumn, data: seq<int>, itemCount: nat, snapshotCount: nat)
    requires itemCount > 0 && Reversing(out, data, itemCount, snapshotCount, itemCount, 0)
    ensures out == FromItemMajor(data, itemCount, snapshotCount)
  {
    var h := FromItemMajor(data, itemCount, snapshotCount);
    hide FromItemMajor;
    forall k | 0 <= k < |out|
      ensures out[k] == h[k]
    {
      assert k % itemCount < itemCount;
    }
  }

  lemma ReversingStart(out: HoleyColumn, data: seq<int>, itemCount: nat, snapshotCount: nat)
    requires itemCount > 0 && |out| == Larger(|data|, itemCount * snapshotCount)
    requires forall k :: 0 <= k < |out| ==> out[k] == None
    ensures Reversing(out, data, itemCount, snapshotCount, 0, 0)
  {
  }

  /** fromItemMajor. The array starts out as long as it will have grown. */
  method FromItemMajorLoop(data: seq<int>, itemCount: nat, snapshotCount: nat) returns (result: HoleyColumn)
    requires itemCount > 0
    ensures result == FromItemMajor(data, itemCount, snapshotCount)
  {
    hide Reversing, FromItemMajor;
    var out := new Option<int>[Larger(|data|, itemCount * snapshotCount)](_ => None);
    ReversingStart(out[..], data, itemCount, snapshotCount);
    for i := 0 to itemCount
      invariant Reversing(out[..], data, itemCount, snapshotCount, i, 0)
    {
      for s := 0 to snapshotCount
        invariant Reversing(out[..], data, itemCount, snapshotCount, i, s)
      {
        ReversingStep(out[..], data, itemCount, snapshotCount, i, s);
        ghost var before := out[..];
        var at: nat, from: nat := s * itemCount + i, i * snapshotCount + s;
        out[at] := if from < |data| then Some(data[from]) else None;
        assert out[..] == before[at := out[at]];
      }
      ReversingRow(out[..], data, itemCount, snapshotCount, i);
    }
    ReversingDone(out[..], data, itemCount, snapshotCount);
    result := out[..];
  }

  /** With the right count the layout step is the transposition. */
  lemma ReversedWhole(data: seq<int>, itemCount: nat, snapshotCount: nat)
    requires itemCount > 0 && |data| == itemCount * snapshotCount
    ensures FromItemMajor(data, itemCount, snapshotCount) == Whole(Transpose(data, itemCount, snapshotCount))
  {
    var t := Transpose(data, itemCount, snapshotCount);
    hide FromItemMajor;
    forall k | 0 <= k < |data|
      ensures FromItemMajor(data, itemCount, snapshotCount)[k] == Some(t[k])
    {
      Quotient(k, itemCount, snapshotCount);
      InRange(k % itemCount, k / itemCount, itemCount, snapshotCount);
    }
    assert FromItemMajor(data, itemCount, snapshotCount) == Whole(t);
  }

  /** With a wrong count at least one entry is a hole. */
  lemma WrongCountLeavesHole(data: seq<int>, itemCount: nat, snapshotCount: nat)
    requires itemCount > 0 && |data| != itemCount * snapshotCount
    ensures !NoHoles(FromItemMajor(data, itemCount, snapshotCount))
  {
    var n := itemCount * snapshotCount;
    var h := FromItemMajor(data, itemCount, snapshotCount);
    hide FromItemMajor;
    if n < |data| {
      assert h[n] == None;
    } else {
      var k := n - 1;
      LastRead(itemCount, snapshotCount);
      assert h[k] == None;
    }
  }

  /** The last entry written is the last entry read. */
  lemma LastRead(itemCount: nat, snapshotCount: nat)
    requires itemCount * snapshotCount > 0
    ensures var k := itemCount * snapshotCount - 1;
            (k % itemCount) * snapshotCount + k / itemCount == k
  {
    var k := itemCount * snapshotCount - 1;
    assert itemCount > 0 && snapshotCount > 0;
    Scale(snapshotCount - 1, snapshotCount, itemCount);
    assert snapshotCount * itemCount == itemCount * snapshotCount;
    assert (snapshotCount - 1) * itemCount == snapshotCount * itemCount - itemCount;
    DivMod(k, snapshotCount - 1, itemCount - 1, itemCount);
    assert (itemCount - 1) * snapshotCount == itemCount * snapshotCount - snapshotCount;
  }

  /** The holes are what Restore reports: it succeeds exactly when the step leaves none, and then they agree. */
  lemma RestoreExact(c: Columns, itemMajor: bool, itemCount: nat)
    ensures var h := Reversed(c, itemMajor, itemCount);
            match Restore(c, itemMajor, itemCount)
            case Ok(r) => h == Holey(r.times, r.lengths, Whole(r.ids), Whole(r.prices), Whole(r.quantities))
            case Err(_) => !NoHoles(h.ids) || !NoHoles(h.prices) || !NoHoles(h.quantities)
  {
    hide Transpose, FromItemMajor, NoHoles, Whole;
    if itemMajor && itemCount > 0 && c.lengths != [] {
      var n := |c.lengths|;
      if |c.ids| == |c.prices| == |c.quantities| == itemCount * n {
        ReversedWhole(c.ids, itemCount, n);
        ReversedWhole(c.prices, itemCount, n);
        ReversedWhole(c.quantities, itemCount, n);
      } else if |c.ids| != itemCount * n {
        WrongCountLeavesHole(c.ids, itemCount, n);
      } else if |c.prices| != itemCount * n {
        WrongCountLeavesHole(c.prices, itemCount, n);
      } else {
        WrongCountLeavesHole(c.quantities, itemCount, n);
      }
    }
  }

  /** reconstructSnapshots: the lengths are compared first, then every entry is read. */
  function ReconstructHoley(h: Holey): Result<seq<Snapshot>>
  {
    if !LengthsAgree(h) || !NoHoles(h.ids) || !NoHoles(h.prices) || !NoHoles(h.quantities) then Err(IntegrityMismatch)
    else Reconstruct(Columns(h.times, h.lengths, Values(h.ids), Values(h.prices), Values(h.quantities)))
  }

  function Values(h: HoleyColumn): (data: seq<int>)
    requires NoHoles(h)
    ensures |data| == |h| && forall k :: 0 <= k < |h| ==> data[k] == h[k].value
  {
    seq(|h|, k requires 0 <= k < |h| => h[k].value)
  }

  function RestoreAndRebuild(c: Columns, itemMajor: bool, itemCount: nat): Result<seq<Snapshot>>
  {
    match Restore(c, itemMajor, itemCount)
    case Err(e) => Err(e)
    case Ok(r) => Reconstruct(r)
  }

  /** Rebuilding from the columns with holes answers as restoring first. */
  lemma HoleyAnswers(c: Columns, itemMajor: bool, itemCount: nat)
    ensures var r, h := RestoreAndRebuild(c, itemMajor, itemCount), ReconstructHoley(Reversed(c, itemMajor, itemCount));
            (r.Ok? <==> h.Ok?) && (r.Ok? ==> r == h)
  {
    hide Reversed, Build, Sum;
    RestoreExact(c, itemMajor, itemCount);
    var r := Restore(c, itemMajor, itemCount);
    if r.Ok? {
      WholeNoHoles(r.value.ids);
      WholeNoHoles(r.value.prices);
      WholeNoHoles(r.value.quantities);
      assert Values(Whole(r.value.ids)) == r.value.ids && Values(Whole(r.value.prices)) == r.value.prices;
      assert Values(Whole(r.value.quantities)) == r.value.quantities;
    }
  }

  // ---- the encoder's loops ------------------------------------------------

  function Behind(a: Columns, b: Columns): Columns
  {
    Columns(a.times + b.times, a.lengths + b.lengths, a.ids + b.ids, a.prices + b.prices, a.quantities + b.quantities)
  }

  /** What one snapshot adds to the columns. */
  function One(s: Snapshot): Columns { Columns([s.timestamp], [|Ids(s)|], Ids(s), Prices(s), Quantities(s)) }

  lemma BehindAssoc(a: Columns, b: Columns, c: Columns)
    ensures Behind(Behind(a, b), c) == Behind(a, Behind(b, c))
  {
    assert a.times + b.times + c.times == a.times + (b.times + c.times);
    assert a.lengths + b.lengths + c.lengths == a.lengths + (b.lengths + c.lengths);
    assert a.ids + b.ids + c.ids == a.ids + (b.ids + c.ids);
    assert a.prices + b.prices + c.prices == a.prices + (b.prices + c.prices);
    assert a.quantities + b.quantities + c.quantities == a.quantities + (b.quantities + c.quantities);
  }

  lemma FlattenStep(done: Columns, snaps: seq<Snapshot>)
    requires snaps != []
    ensures Behind(done, Flatten(snaps)) == Behind(Behind(done, One(snaps[0])), Flatten(snaps[1..]))
  {
    assert Flatten(snaps) == Behind(One(snaps[0]), Flatten(snaps[1..]));
    hide Flatten, One, Behind;
    BehindAssoc(done, One(snaps[0]), Flatten(snaps[1..]));
  }

  /** One snapshot with its items, sorted by id, pushed one by one. */
  method PushSnapshot(c: Columns, s: Snapshot) returns (r: Columns)
    ensures r == Behind(c, One(s))
  {
    hide Ids, Prices, Quantities;
    var sorted := Ids(s);
    var ids, prices, quantities := c.ids, c.prices, c.quantities;
    ghost var ps, qs := Prices(s), Quantities(s);
    for j := 0 to |sorted|
      invariant ids == c.ids + sorted[..j] && prices == c.prices + ps[..j] && quantities == c.quantities + qs[..j]
    {
      var id := sorted[j];
      assert id in s.items && ps[j] == s.items[id].price && qs[j] == s.items[id].quantity;
      assert sorted[..j + 1] == sorted[..j] + [id] && ps[..j + 1] == ps[..j] + [ps[j]] && qs[..j + 1] == qs[..j] + [qs[j]];
      ids := ids + [id];
      prices := prices + [s.items[id].price];
      quantities := quantities + [s.items[id].quantity];
    }
    assert sorted[..|sorted|] == sorted && ps[..|sorted|] == ps && qs[..|sorted|] == qs;
    r := Columns(c.times + [s.timestamp], c.lengths + [|sorted|], ids, prices, quantities);
  }

  method FlattenLoop(snapshots: seq<Snapshot>) returns (c: Columns)
    ensures c == Flatten(snapshots)
  {
    hide One, Flatten, Behind;
    c := Columns([], [], [], [], []);
    BehindNothing(Flatten(snapshots));
    for i := 0 to |snapshots|
      invariant Behind(c, Flatten(snapshots[i..])) == Flatten(snapshots)
    {
      assert snapshots[i..][0] == snapshots[i] && snapshots[i..][1..] == snapshots[i + 1..];
      FlattenStep(c, snapshots[i..]);
      c := PushSnapshot(c, snapshots[i]);
    }
    NothingLeft(c, snapshots[|snapshots|..]);
  }

  lemma BehindNothing(c: Columns)
    ensures Behind(Columns([], [], [], [], []), c) == c
  {
    assert [] + c.times == c.times && [] + c.lengths == c.lengths && [] + c.ids == c.ids;
    assert [] + c.prices == c.prices && [] + c.quantities == c.quantities;
  }

  lemma NothingLeft(c: Columns, snaps: seq<Snapshot>)
    requires snaps == []
    ensures Behind(c, Flatten(snaps)) == c
  {
    assert c.times + [] == c.times && c.lengths + [] == c.lengths && c.ids + [] == c.ids;
    assert c.prices + [] == c.prices && c.quantities + [] == c.quantities;
  }

  lemma {:induction false} SumConstant(lengths: seq<int>, n: nat)
    requires forall i :: 0 <= i < |lengths| ==> lengths[i] == n
    ensures Sum(lengths) == |lengths| * n
  {
    if lengths != [] {
      SumConstant(lengths[1..], n);
      Scale(|lengths| - 1, |lengths|, n);
    }
  }

  /** Whether snapshots share their items: equal lengths first, then every id against the first snapshot's. */
  method DetectStableColumns(c: Columns) returns (stable: bool)
    requires Sum(c.lengths) == |c.ids|
    ensures stable == Stable(c)
  {
    hide SameId;
    if |c.lengths| <= 1 || c.lengths[0] <= 1 {
      return false;
    }
    var sc, n := |c.lengths|, c.lengths[0];
    for k := 0 to sc
      invariant forall i :: 0 <= i < k ==> c.lengths[i] == n
    {
      if c.lengths[k] != n {
        return false;
      }
    }
    SumConstant(c.lengths, n);
    for s := 0 to sc
      invariant forall r, i :: 0 <= r < s && 0 <= i < n ==> SameId(c.ids, sc, n, r, i)
    {
      for i := 0 to n
        invariant forall r, j :: 0 <= r < s && 0 <= j < n ==> SameId(c.ids, sc, n, r, j)
        invariant forall j :: 0 <= j < i ==> SameId(c.ids, sc, n, s, j)
      {
        SameIdAt(c.ids, sc, n, s, i);
        if c.ids[s * n + i] != c.ids[i] {
          return false;
        }
      }
    }
    stable := true;
  }

  lemma SameIdAt(ids: seq<int>, rows: nat, n: nat, s: nat, i: nat)
    requires |ids| == rows * n && s < rows && i < n
    ensures 0 <= s * n + i < |ids| && i < |ids|
    ensures SameId(ids, rows, n, s, i) <==> ids[s * n + i] == ids[i]
  {
    InRange(s, i, rows, n);
    InRange(0, i, rows, n);
  }

  method CollectDataFeatures(snapshots: seq<Snapshot>) returns (f: Features)
    ensures f == Collect(snapshots)
  {
    hide Flatten, Stable, Transpose;
    FlattenConsistent(snapshots);
    var c := FlattenLoop(snapshots);
    var stable := DetectStableColumns(c);
    if !stable {
      return Features(c, false, 0);
    }
    StableShape(c);
    var sc, n := |c.lengths|, c.lengths[0];
    var ids := TransposeLoop(c.ids, sc, n);
    var prices := TransposeLoop(c.prices, sc, n);
    var quantities := TransposeLoop(c.quantities, sc, n);
    f := Features(c.(ids := ids, prices := prices, quantities := quantities), true, n);
  }
}
