/** Snapshots, the column form the encoder flattens them to, and the way back
    (collectDataFeatures, fromItemMajor, reconstructSnapshots), and the grouping into segments. */
module Snapshots {
  import opened Bytes

  datatype Item = Item(price: int, quantity: int)

  datatype Snapshot = Snapshot(timestamp: int, items: map<int, Item>)

  // ---- ids in order -------------------------------------------------------

  ghost predicate Ascending(ids: seq<int>)
  {
    forall i, j :: 0 <= i < j < |ids| ==> ids[i] < ids[j]
  }

  lemma Inhabited(s: set<int>)
    ensures s == {} || exists k :: k in s
  {
    if !exists k :: k in s {
      assert s == {};
    }
  }

  lemma Largest(s: set<int>) returns (m: int)
    requires s != {}
    ensures m in s && forall x :: x in s ==> x <= m
  {
    Inhabited(s);
    var k :| k in s;
    var rest := s - {k};
    if rest == {} {
      assert forall x :: x in s && x != k ==> x in rest;
      m := k;
    } else {
      var n := Largest(rest);
      assert n in rest && n in s;
      assert forall x :: x in s && x != k ==> x in rest;
      m := if n > k then n else k;
    }
  }

  function Maximum(s: set<int>): (m: int)
    requires s != {}
    ensures m in s && forall x :: x in s ==> x <= m
  {
    assert exists m :: m in s && forall x :: x in s ==> x <= m by { var m := Largest(s); }
    var m :| m in s && forall x :: x in s ==> x <= m;
    m
  }

  /** The elements of a set in ascending order. */
  function Sorted(s: set<int>): (ids: seq<int>)
    ensures Ascending(ids) && |ids| == |s|
    ensures forall x :: x in ids <==> x in s
  {
    if s == {} then []
    else
      var m := Maximum(s);
      var rest := Sorted(s - {m});
      assert forall i :: 0 <= i < |rest| ==> rest[i] in s - {m};
      rest + [m]
  }

  /** There is only one way to sort. */
  lemma {:induction false} SortedUnique(a: seq<int>, b: seq<int>)
    requires Ascending(a) && Ascending(b) && (forall x :: x in a <==> x in b)
    ensures a == b
  {
    assert a != [] ==> a[0] in a && a[|a| - 1] in a;
    assert b != [] ==> b[0] in b && b[|b| - 1] in b;
    if a != [] && b != [] {
      var i :| 0 <= i < |b| && b[i] == a[|a| - 1];
      var j :| 0 <= j < |a| && a[j] == b[|b| - 1];
      assert a[|a| - 1] == b[|b| - 1];
      var a', b' := a[..|a| - 1], b[..|b| - 1];
      forall x
        ensures x in a' <==> x in b'
      {
        InInit(a, x);
        InInit(b, x);
      }
      SortedUnique(a', b');
      assert a == a' + [a[|a| - 1]] && b == b' + [b[|b| - 1]];
    }
  }

  lemma InInit(s: seq<int>, x: int)
    requires s != [] && Ascending(s)
    ensures x in s[..|s| - 1] <==> x in s && x != s[|s| - 1]
  {
    if x in s && x != s[|s| - 1] {
      var i :| 0 <= i < |s| && s[i] == x;
      assert s[..|s| - 1][i] == x;
    }
  }

  // ---- columns ------------------------------------------------------------

  datatype Columns = Columns(
    times: seq<int>,
    lengths: seq<int>,
    ids: seq<int>,
    prices: seq<int>,
    quantities: seq<int>)

  function Ids(s: Snapshot): (ids: seq<int>)
    ensures Ascending(ids) && forall x :: x in ids <==> x in s.items
  {
    Sorted(s.items.Keys)
  }

  function Prices(s: Snapshot): (ps: seq<int>)
    ensures |ps| == |Ids(s)|
    ensures forall i :: 0 <= i < |ps| ==> ps[i] == s.items[Ids(s)[i]].price
  {
    seq(|Ids(s)|, i requires 0 <= i < |Ids(s)| => s.items[Ids(s)[i]].price)
  }

  function Quantities(s: Snapshot): (qs: seq<int>)
    ensures |qs| == |Ids(s)|
    ensures forall i :: 0 <= i < |qs| ==> qs[i] == s.items[Ids(s)[i]].quantity
  {
    seq(|Ids(s)|, i requires 0 <= i < |Ids(s)| => s.items[Ids(s)[i]].quantity)
  }

  /** collectDataFeatures before any transposition: snapshot after snapshot, items by id. */
  function Flatten(snaps: seq<Snapshot>): Columns
  {
    if snaps == [] then Columns([], [], [], [], [])
    else
      var s, rest := snaps[0], Flatten(snaps[1..]);
      Columns([s.timestamp] + rest.times, [|Ids(s)|] + rest.lengths, Ids(s) + rest.ids,
              Prices(s) + rest.prices, Quantities(s) + rest.quantities)
  }

  function Sum(lengths: seq<int>): int
  {
    if lengths == [] then 0 else lengths[0] + Sum(lengths[1..])
  }

  /** map.set(id, ...) in order; a repeated id is overwritten. */
  function BuildItems(ids: seq<int>, prices: seq<int>, quantities: seq<int>): (m: map<int, Item>)
    requires |ids| == |prices| == |quantities|
    ensures m.Keys == set x | x in ids
  {
    if ids == [] then map[]
    else
      var n := |ids| - 1;
      BuildItems(ids[..n], prices[..n], quantities[..n])[ids[n] := Item(prices[n], quantities[n])]
  }

  function Build(times: seq<int>, lengths: seq<int>, ids: seq<int>, prices: seq<int>, quantities: seq<int>): seq<Snapshot>
    requires |times| == |lengths| && (forall i :: 0 <= i < |lengths| ==> lengths[i] >= 0)
    requires Sum(lengths) == |ids| == |prices| == |quantities|
    decreases |times|
  {
    if times == [] then []
    else
      var n := lengths[0];
      SumNonNegative(lengths[1..]);
      [Snapshot(times[0], BuildItems(ids[..n], prices[..n], quantities[..n]))]
      + Build(times[1..], lengths[1..], ids[n..], prices[n..], quantities[n..])
  }

  lemma {:induction false} SumNonNegative(lengths: seq<int>)
    requires forall i :: 0 <= i < |lengths| ==> lengths[i] >= 0
    ensures Sum(lengths) >= 0
  {
    if lengths != [] {
      SumNonNegative(lengths[1..]);
    }
  }

  /** validateCrossStreams */
  predicate Consistent(c: Columns)
  {
    c.lengths != [] && |c.times| == |c.lengths| &&
    (forall i :: 0 <= i < |c.lengths| ==> c.lengths[i] >= 0) &&
    Sum(c.lengths) == |c.ids| && |c.ids| == |c.prices| && |c.ids| == |c.quantities|
  }

  /** reconstructSnapshots */
  function Reconstruct(c: Columns): Result<seq<Snapshot>>
  {
    if !Consistent(c) then Err(IntegrityMismatch)
    else Ok(Build(c.times, c.lengths, c.ids, c.prices, c.quantities))
  }

  // ---- there and back -----------------------------------------------------

  lemma {:induction false} BuildItemsAt(ids: seq<int>, prices: seq<int>, quantities: seq<int>, i: nat)
    requires |ids| == |prices| == |quantities| && Ascending(ids) && i < |ids|
    ensures BuildItems(ids, prices, quantities)[ids[i]] == Item(prices[i], quantities[i])
  {
    var n := |ids| - 1;
    BuildItemsLast(ids, prices, quantities);
    hide BuildItems;
    if i < n {
      assert ids[i] < ids[n];
      assert ids[..n][i] == ids[i];
      BuildItemsAt(ids[..n], prices[..n], quantities[..n], i);
    }
  }

  lemma BuildItemsLast(ids: seq<int>, prices: seq<int>, quantities: seq<int>)
    requires |ids| == |prices| == |quantities| && ids != []
    ensures var n := |ids| - 1;
            BuildItems(ids, prices, quantities)
              == BuildItems(ids[..n], prices[..n], quantities[..n])[ids[n] := Item(prices[n], quantities[n])]
  {
  }

  lemma BuildItemsBack(s: Snapshot)
    ensures BuildItems(Ids(s), Prices(s), Quantities(s)) == s.items
  {
    hide BuildItems;
    var m := BuildItems(Ids(s), Prices(s), Quantities(s));
    forall x | x in s.items
      ensures x in m && m[x] == s.items[x]
    {
      assert x in Ids(s);
      var i :| 0 <= i < |Ids(s)| && Ids(s)[i] == x;
      BuildItemsAt(Ids(s), Prices(s), Quantities(s), i);
    }
  }

  lemma {:induction false} FlattenConsistent(snaps: seq<Snapshot>)
    ensures var c := Flatten(snaps);
            && |c.times| == |c.lengths| == |snaps|
            && (forall i :: 0 <= i < |c.lengths| ==> c.lengths[i] == |Ids(snaps[i])|)
            && Sum(c.lengths) == |c.ids| == |c.prices| == |c.quantities|
  {
    hide Ids, Prices, Quantities;
    if snaps != [] {
      FlattenConsistent(snaps[1..]);
      assert Flatten(snaps).lengths[1..] == Flatten(snaps[1..]).lengths;
    }
  }

  lemma {:induction false} BuildFlatten(snaps: seq<Snapshot>)
    ensures var c := Flatten(snaps);
            && |c.times| == |c.lengths| && (forall i :: 0 <= i < |c.lengths| ==> c.lengths[i] >= 0)
            && Sum(c.lengths) == |c.ids| == |c.prices| == |c.quantities|
            && Build(c.times, c.lengths, c.ids, c.prices, c.quantities) == snaps
  {
    hide Ids, Prices, Quantities, BuildItems;
    FlattenConsistent(snaps);
    if snaps != [] {
      var s, c, r := snaps[0], Flatten(snaps), Flatten(snaps[1..]);
      BuildFlatten(snaps[1..]);
      BuildItemsBack(s);
      var n := |Ids(s)|;
      assert c.ids[..n] == Ids(s) && c.ids[n..] == r.ids;
      assert c.prices[..n] == Prices(s) && c.prices[n..] == r.prices;
      assert c.quantities[..n] == Quantities(s) && c.quantities[n..] == r.quantities;
      assert c.times[1..] == r.times && c.lengths[1..] == r.lengths;
      assert snaps == [s] + snaps[1..];
    }
  }

  /** Flattening loses nothing. */
  lemma ReconstructFlatten(snaps: seq<Snapshot>)
    requires snaps != []
    ensures Reconstruct(Flatten(snaps)) == Ok(snaps)
  {
    BuildFlatten(snaps);
    FlattenConsistent(snaps);
    hide Build, Sum;
  }

  lemma ItemsDeterminePrices(s: Snapshot, prices: seq<int>)
    requires |prices| == |Ids(s)| && BuildItems(Ids(s), prices, Quantities(s)) == s.items
    ensures prices == Prices(s)
  {
    hide BuildItems, Ids;
    forall i | 0 <= i < |prices|
      ensures prices[i] == Prices(s)[i]
    {
      BuildItemsAt(Ids(s), prices, Quantities(s), i);
    }
  }

  ghost predicate BuildsTo(c: Columns, snaps: seq<Snapshot>)
  {
    && |c.times| == |c.lengths| && (forall i :: 0 <= i < |c.lengths| ==> c.lengths[i] >= 0)
    && Sum(c.lengths) == |c.ids| == |c.prices| == |c.quantities|
    && Build(c.times, c.lengths, c.ids, c.prices, c.quantities) == snaps
  }

  function Tail(c: Columns, n: nat): Columns
    requires c.times != [] && c.lengths != [] && n <= |c.ids| && n <= |c.prices| && n <= |c.quantities|
  {
    Columns(c.times[1..], c.lengths[1..], c.ids[n..], c.prices[n..], c.quantities[n..])
  }

  lemma BuildsToCons(c: Columns, snaps: seq<Snapshot>)
    requires snaps != [] && BuildsTo(c, snaps)
    ensures c.times != [] && c.lengths != []
    ensures var n := c.lengths[0];
            && 0 <= n <= |c.ids|
            && BuildItems(c.ids[..n], c.prices[..n], c.quantities[..n]) == snaps[0].items
            && BuildsTo(Tail(c, n), snaps[1..])
  {
    hide BuildItems;
    SumNonNegative(c.lengths[1..]);
    var built := Build(c.times, c.lengths, c.ids, c.prices, c.quantities);
    assert built[0] == snaps[0] && built[1..] == snaps[1..];
  }

  lemma FlattenTail(snaps: seq<Snapshot>, prices: seq<int>)
    requires snaps != [] && |prices| == |Flatten(snaps).prices|
    ensures var c, n := Flatten(snaps), |Ids(snaps[0])|;
            && c.times != [] && c.lengths != [] && c.lengths[0] == n && n <= |c.ids|
            && n <= |prices| && n <= |c.quantities|
            && |prices[n..]| == |Flatten(snaps[1..]).prices|
            && Tail(c.(prices := prices), n) == Flatten(snaps[1..]).(prices := prices[n..])
            && c.ids[..n] == Ids(snaps[0]) && c.quantities[..n] == Quantities(snaps[0])
            && c.prices == Prices(snaps[0]) + Flatten(snaps[1..]).prices
  {
    hide Ids, Prices, Quantities;
  }

  /** The price column cannot change without the snapshots changing. */
  lemma {:induction false} BuildDeterminesPrices(snaps: seq<Snapshot>, prices: seq<int>)
    requires |prices| == |Flatten(snaps).prices|
    requires BuildsTo(Flatten(snaps).(prices := prices), snaps)
    ensures prices == Flatten(snaps).prices
  {
    hide BuildItems, Ids, Prices, Quantities, BuildsTo, Build, Sum;
    if snaps == [] {
      assert prices == [];
    } else {
      hide Flatten;
      FlattenTail(snaps, prices);
      var n := |Ids(snaps[0])|;
      BuildsToCons(Flatten(snaps).(prices := prices), snaps);
      ItemsDeterminePrices(snaps[0], prices[..n]);
      BuildDeterminesPrices(snaps[1..], prices[n..]);
      assert prices == prices[..n] + prices[n..];
    }
  }

  lemma ReconstructDeterminesPrices(snaps: seq<Snapshot>, prices: seq<int>)
    requires snaps != [] && |prices| == |Flatten(snaps).prices|
    ensures Reconstruct(Flatten(snaps).(prices := prices)) == Ok(snaps) <==> prices == Flatten(snaps).prices
  {
    hide Build, Sum;
    ReconstructFlatten(snaps);
    FlattenConsistent(snaps);
    var c := Flatten(snaps);
    if Reconstruct(c.(prices := prices)) == Ok(snaps) {
      BuildDeterminesPrices(snaps, prices);
    }
  }

  /** Rebuilt snapshots are as many as the timestamps and mention only ids of the column. */
  lemma {:induction false} BuildShape(times: seq<int>, lengths: seq<int>, ids: seq<int>, prices: seq<int>,
                                      quantities: seq<int>, all: set<int>)
    requires |times| == |lengths| && (forall i :: 0 <= i < |lengths| ==> lengths[i] >= 0)
    requires Sum(lengths) == |ids| == |prices| == |quantities|
    requires forall x :: x in ids ==> x in all
    ensures var built := Build(times, lengths, ids, prices, quantities);
            |built| == |times| && forall i :: 0 <= i < |built| ==> built[i].items.Keys <= all
    decreases |times|
  {
    if times != [] {
      var n := lengths[0];
      SumNonNegative(lengths[1..]);
      assert forall x :: x in ids[..n] ==> x in ids;
      assert forall x :: x in ids[n..] ==> x in ids;
      BuildShape(times[1..], lengths[1..], ids[n..], prices[n..], quantities[n..], all);
      var built := Build(times, lengths, ids, prices, quantities);
      forall i | 0 <= i < |built|
        ensures built[i].items.Keys <= all
      {
        if i == 0 {
          forall x | x in built[0].items.Keys
            ensures x in all
          {
            assert x in ids[..n];
          }
        } else {
          assert built[i] == Build(times[1..], lengths[1..], ids[n..], prices[n..], quantities[n..])[i - 1];
        }
      }
    }
  }
}
