/** Cutting buffered snapshots into segments: buildSegmentGroups and the SegmentBuilder. */
module Grouping {
  import opened Snapshots

  /** A flush with maxSnapshotsPerSegment 0 would never advance. */
  datatype Options = Options(
    segmentSizeLimit: nat,
    minSnapshotsPerSegment: nat,
    maxSnapshotsPerSegment: nat,
    maxItemsPerSegment: nat)

  function Items(group: seq<Snapshot>): nat
  {
    if group == [] then 0 else Items(group[..|group| - 1]) + |group[|group| - 1].items|
  }

  function Concat(groups: seq<seq<Snapshot>>): seq<Snapshot>
  {
    if groups == [] then [] else Concat(groups[..|groups| - 1]) + groups[|groups| - 1]
  }

  /** Non-empty, and no more items than allowed unless a single snapshot already has too many. */
  predicate GroupOk(group: seq<Snapshot>, maxItems: nat)
  {
    group != [] && (|group| == 1 || Items(group) <= maxItems)
  }

  ghost predicate GroupsOk(groups: seq<seq<Snapshot>>, maxItems: nat)
  {
    forall g :: g in groups ==> GroupOk(g, maxItems)
  }

  lemma ConcatSnoc(groups: seq<seq<Snapshot>>, g: seq<Snapshot>)
    ensures Concat(groups + [g]) == Concat(groups) + g
  {
    assert (groups + [g])[..|groups|] == groups;
  }

  lemma ItemsSnoc(group: seq<Snapshot>, s: Snapshot)
    ensures Items(group + [s]) == Items(group) + |s.items|
  {
    assert (group + [s])[..|group|] == group;
  }

  class SegmentBuilder {
    var currentSnapshots: seq<Snapshot>
    var currentSize: nat
    const limit: nat

    constructor (limit: nat)
      ensures currentSnapshots == [] && currentSize == 0 && this.limit == limit
    {
      currentSnapshots, currentSize := [], 0;
      this.limit := limit;
    }

    method Push(snapshot: Snapshot) returns (full: bool)
      modifies this
      ensures currentSnapshots == old(currentSnapshots) + [snapshot]
      ensures currentSize == old(currentSize) + 12 + |snapshot.items| * 12
      ensures full == (currentSize >= limit)
    {
      currentSnapshots := currentSnapshots + [snapshot];
      currentSize := currentSize + (12 + |snapshot.items| * 12);
      full := currentSize >= limit;
    }

    method Seal() returns (snaps: seq<Snapshot>)
      modifies this
      ensures snaps == old(currentSnapshots) && currentSnapshots == [] && currentSize == 0
    {
      snaps := currentSnapshots;
      currentSnapshots, currentSize := [], 0;
    }
  }

  // ---- by size ------------------------------------------------------------

  datatype Packing = Packing(groups: seq<seq<Snapshot>>, current: seq<Snapshot>)

  /** Estimated bytes of a group. */
  function Size(group: seq<Snapshot>): nat
  {
    if group == [] then 0 else Size(group[..|group| - 1]) + (12 + |group[|group| - 1].items| * 12)
  }

  /** One snapshot more: what is pending is sealed before it has too many items, and when it is large enough. */
  function Packed(p: Packing, s: Snapshot, options: Options): Packing
  {
    var q := if p.current != [] && Items(p.current) + |s.items| > options.maxItemsPerSegment
             then Packing(p.groups + [p.current], []) else p;
    var current := q.current + [s];
    if Size(current) >= options.segmentSizeLimit then Packing(q.groups + [current], []) else Packing(q.groups, current)
  }

  function PackAll(snapshots: seq<Snapshot>, options: Options): Packing
  {
    if snapshots == [] then Packing([], [])
    else Packed(PackAll(snapshots[..|snapshots| - 1], options), snapshots[|snapshots| - 1], options)
  }

  /** What is pending counts as a group. */
  function Started(p: Packing): seq<seq<Snapshot>> { if p.current == [] then p.groups else p.groups + [p.current] }

  function BySize(snapshots: seq<Snapshot>, options: Options): seq<seq<Snapshot>>
  {
    Started(PackAll(snapshots, options))
  }

  ghost predicate PackingOk(p: Packing, snapshots: seq<Snapshot>, options: Options)
  {
    && Concat(p.groups) + p.current == snapshots && GroupsOk(p.groups, options.maxItemsPerSegment)
    && (p.current != [] ==> GroupOk(p.current, options.maxItemsPerSegment))
  }

  lemma PackedOk(p: Packing, snapshots: seq<Snapshot>, s: Snapshot, options: Options)
    requires PackingOk(p, snapshots, options)
    ensures PackingOk(Packed(p, s, options), snapshots + [s], options)
  {
    hide Items, Concat, Size;
    NothingYet();
    ConcatSnoc(p.groups, p.current);
    var full := p.current != [] && Items(p.current) + |s.items| > options.maxItemsPerSegment;
    var q := if full then Packing(p.groups + [p.current], []) else p;
    ItemsSnoc(q.current, s);
    ConcatSnoc(q.groups, q.current + [s]);
    assert Concat(q.groups) + (q.current + [s]) == Concat(q.groups) + q.current + [s];
    assert Concat(q.groups) + q.current == snapshots;
    assert q.current != [] ==> q.current == p.current;
  }

  lemma {:induction false} PackAllOk(snapshots: seq<Snapshot>, options: Options)
    ensures PackingOk(PackAll(snapshots, options), snapshots, options)
  {
    hide Items, Concat, Size, Packed;
    if snapshots == [] {
      NothingYet();
    } else {
      var front, s := snapshots[..|snapshots| - 1], snapshots[|snapshots| - 1];
      PackAllOk(front, options);
      PackedOk(PackAll(front, options), front, s, options);
      assert front + [s] == snapshots;
    }
  }

  lemma BySizeOk(snapshots: seq<Snapshot>, options: Options)
    ensures Concat(BySize(snapshots, options)) == snapshots
    ensures GroupsOk(BySize(snapshots, options), options.maxItemsPerSegment)
  {
    hide Items, Concat, Size, PackAll;
    PackAllOk(snapshots, options);
    var p := PackAll(snapshots, options);
    ConcatSnoc(p.groups, p.current);
    assert Concat(p.groups) + [] == Concat(p.groups);
  }

  /** Not large enough before its last snapshot. */
  predicate Lean(group: seq<Snapshot>, limit: nat)
  {
    forall j :: 1 <= j < |group| ==> Size(group[..j]) < limit
  }

  /** Sealed for a reason: large enough, or the next snapshot would have brought too many items. */
  predicate ClosedAt(groups: seq<seq<Snapshot>>, i: nat, options: Options)
    requires i < |groups|
  {
    Size(groups[i]) >= options.segmentSizeLimit ||
    (i + 1 < |groups| && groups[i + 1] != [] && Items(groups[i]) + |groups[i + 1][0].items| > options.maxItemsPerSegment)
  }

  ghost predicate Tight(p: Packing, options: Options)
  {
    && (forall i :: 0 <= i < |p.groups| ==> ClosedAt(Started(p), i, options))
    && (forall i :: 0 <= i < |p.groups| ==> Lean(p.groups[i], options.segmentSizeLimit))
    && (forall j :: 1 <= j <= |p.current| ==> Size(p.current[..j]) < options.segmentSizeLimit)
  }

  lemma PackedTight(p: Packing, s: Snapshot, options: Options)
    requires Tight(p, options)
    ensures Tight(Packed(p, s, options), options)
  {
    hide Items, Size;
    var full := p.current != [] && Items(p.current) + |s.items| > options.maxItemsPerSegment;
    var q := if full then Packing(p.groups + [p.current], []) else p;
    var current, r := q.current + [s], Packed(p, s, options);
    assert Started(r) == q.groups + [current];
    assert p.current[..|p.current|] == p.current;
    forall i | 0 <= i < |q.groups|
      ensures ClosedAt(Started(r), i, options) && Lean(q.groups[i], options.segmentSizeLimit)
    {
      if i < |p.groups| {
        assert ClosedAt(Started(p), i, options) && Started(p)[i] == Started(r)[i];
      }
    }
    forall j | 1 <= j < |current|
      ensures Size(current[..j]) < options.segmentSizeLimit
    {
      assert current[..j] == p.current[..j];
    }
    assert current[..|current|] == current;
  }

  lemma {:induction false} PackAllTight(snapshots: seq<Snapshot>, options: Options)
    ensures Tight(PackAll(snapshots, options), options)
  {
    hide Items, Size, Packed;
    if snapshots != [] {
      hide Tight;
      PackAllTight(snapshots[..|snapshots| - 1], options);
      PackedTight(PackAll(snapshots[..|snapshots| - 1], options), snapshots[|snapshots| - 1], options);
    }
  }

  /** Groups by size are as large as asked for and no larger: every one but the last has reached the size limit or was
      closed by the item limit, and none had reached the size limit before its last snapshot. */
  lemma BySizeTight(snapshots: seq<Snapshot>, options: Options)
    ensures var groups := BySize(snapshots, options);
            && (forall i :: 0 <= i < |groups| - 1 ==> ClosedAt(groups, i, options))
            && (forall i :: 0 <= i < |groups| ==> Lean(groups[i], options.segmentSizeLimit))
  {
    hide Items, Size, PackAll, Packed, ClosedAt;
    PackAllTight(snapshots, options);
    var p, groups := PackAll(snapshots, options), BySize(snapshots, options);
    assert Lean(p.current, options.segmentSizeLimit);
    forall i | 0 <= i < |groups|
      ensures Lean(groups[i], options.segmentSizeLimit)
    {
      assert i < |p.groups| ==> Lean(p.groups[i], options.segmentSizeLimit);
    }
  }

  lemma SizeSnoc(group: seq<Snapshot>, s: Snapshot)
    ensures Size(group + [s]) == Size(group) + (12 + |s.items| * 12)
  {
    assert (group + [s])[..|group|] == group;
  }

  /** The loop of buildSegmentGroups over a SegmentBuilder. */
  method BuildBySize(snapshots: seq<Snapshot>, options: Options) returns (groups: seq<seq<Snapshot>>)
    ensures groups == BySize(snapshots, options)
  {
    hide Items, Concat, Size;
    var builder := new SegmentBuilder(options.segmentSizeLimit);
    groups := [];
    NothingYet();
    var pendingItems := 0;
    for i := 0 to |snapshots|
      invariant fresh(builder) && builder.limit == options.segmentSizeLimit
      invariant Packing(groups, builder.currentSnapshots) == PackAll(snapshots[..i], options)
      invariant pendingItems == Items(builder.currentSnapshots) && builder.currentSize == Size(builder.currentSnapshots)
    {
      var s := snapshots[i];
      assert snapshots[..i + 1][..i] == snapshots[..i];
      if |builder.currentSnapshots| > 0 && pendingItems + |s.items| > options.maxItemsPerSegment {
        var g := builder.Seal();
        groups := groups + [g];
        pendingItems := 0;
      }
      ItemsSnoc(builder.currentSnapshots, s);
      SizeSnoc(builder.currentSnapshots, s);
      pendingItems := pendingItems + |s.items|;
      var full := builder.Push(s);
      if full {
        var g := builder.Seal();
        groups := groups + [g];
        pendingItems := 0;
      }
    }
    assert snapshots[..|snapshots|] == snapshots;
    if |builder.currentSnapshots| > 0 {
      var g := builder.Seal();
      groups := groups + [g];
    }
  }

  lemma NothingYet()
    ensures Concat([]) == [] && Items([]) == 0 && Size([]) == 0
  {
  }

  function Max(a: int, b: int): int { if a >= b then a else b }

  function Min(a: int, b: int): int { if a <= b then a else b }

  function TargetDepth(itemsPerSnapshot: nat, options: Options): (depth: nat)
    ensures options.maxSnapshotsPerSegment >= 1 ==> depth >= 1
  {
    var naturalDepth := Max(1, options.segmentSizeLimit / Max(1, 12 + itemsPerSnapshot * 12));
    var depthByItems := Max(1, options.maxItemsPerSegment / Max(1, itemsPerSnapshot));
    Min(options.maxSnapshotsPerSegment, Min(Max(options.minSnapshotsPerSegment, naturalDepth), depthByItems))
  }

  lemma {:induction false} UniformItems(group: seq<Snapshot>, n: nat)
    requires forall i :: 0 <= i < |group| ==> |group[i].items| == n
    ensures Items(group) == |group| * n
  {
    if group != [] {
      UniformItems(group[..|group| - 1], n);
      assert |group| * n == (|group| - 1) * n + n;
    }
  }

  lemma DepthFits(size: nat, n: nat, options: Options)
    requires 1 <= size <= TargetDepth(n, options) && n >= 1
    ensures size == 1 || size * n <= options.maxItemsPerSegment
  {
    var q := options.maxItemsPerSegment / n;
    if size > 1 {
      assert size <= q;
      assert q * n <= options.maxItemsPerSegment;
      Scale(size, q, n);
    }
  }

  lemma Scale(a: nat, b: nat, n: nat)
    requires a <= b
    ensures a * n <= b * n
  {
  }

  // ---- by depth -----------------------------------------------------------

  /** Runs of `depth` snapshots, the last one perhaps shorter. */
  function Slices(snapshots: seq<Snapshot>, depth: nat): seq<seq<Snapshot>>
    requires depth >= 1
    decreases |snapshots|
  {
    if |snapshots| <= depth then if snapshots == [] then [] else [snapshots]
    else [snapshots[..depth]] + Slices(snapshots[depth..], depth)
  }

  lemma {:induction false} ConcatCons(g: seq<Snapshot>, groups: seq<seq<Snapshot>>)
    ensures Concat([g] + groups) == g + Concat(groups)
  {
    if groups == [] {
      assert [g] + groups == [] + [g];
      ConcatSnoc([], g);
      NothingYet();
    } else {
      var n := |groups| - 1;
      assert [g] + groups == [g] + groups[..n] + [groups[n]];
      ConcatSnoc([g] + groups[..n], groups[n]);
      ConcatCons(g, groups[..n]);
      assert g + (Concat(groups[..n]) + groups[n]) == g + Concat(groups[..n]) + groups[n];
    }
  }

  lemma {:induction false} SlicesOk(snapshots: seq<Snapshot>, depth: nat, n: nat, options: Options)
    requires 1 <= depth <= TargetDepth(n, options) && n >= 1
    requires forall i :: 0 <= i < |snapshots| ==> |snapshots[i].items| == n
    ensures Concat(Slices(snapshots, depth)) == snapshots
    ensures GroupsOk(Slices(snapshots, depth), options.maxItemsPerSegment)
    decreases |snapshots|
  {
    hide Items, Concat;
    NothingYet();
    if |snapshots| <= depth {
      if snapshots != [] {
        UniformItems(snapshots, n);
        DepthFits(|snapshots|, n, options);
        ConcatCons(snapshots, []);
        assert [snapshots] + [] == [snapshots] && snapshots + [] == snapshots;
      }
    } else {
      var g, rest := snapshots[..depth], snapshots[depth..];
      SlicesOk(rest, depth, n, options);
      UniformItems(g, n);
      DepthFits(|g|, n, options);
      ConcatCons(g, Slices(rest, depth));
    }
  }

  /** All slices are full but the last, which is not empty. */
  lemma {:induction false} SlicesShape(snapshots: seq<Snapshot>, depth: nat)
    requires depth >= 1
    ensures var groups := Slices(snapshots, depth);
            && (forall i :: 0 <= i < |groups| - 1 ==> |groups[i]| == depth)
            && (groups != [] ==> 1 <= |groups[|groups| - 1]| <= depth)
    decreases |snapshots|
  {
    if |snapshots| > depth {
      SlicesShape(snapshots[depth..], depth);
      var rest := Slices(snapshots[depth..], depth);
      assert forall i :: 1 <= i < |[snapshots[..depth]] + rest| ==> ([snapshots[..depth]] + rest)[i] == rest[i - 1];
    }
  }

  /** Estimated bytes of `depth` snapshots of n items each. */
  function DepthSize(depth: nat, n: nat): nat { depth * (12 + n * 12) }

  /** The depth is allowed: within the caps, and within the sizes unless it is the least there can be. */
  predicate Allowed(depth: nat, n: nat, options: Options)
  {
    && depth <= options.maxSnapshotsPerSegment
    && (depth <= 1 || depth * n <= options.maxItemsPerSegment)
    && (depth <= 1 || depth <= options.minSnapshotsPerSegment || DepthSize(depth, n) <= options.segmentSizeLimit)
  }

  /** A depth is allowed exactly up to the one chosen. */
  lemma DepthExact(depth: nat, n: nat, options: Options)
    requires n >= 1
    ensures Allowed(depth, n, options) <==> depth <= TargetDepth(n, options)
  {
    var size, items := 12 + n * 12, options.maxItemsPerSegment / n;
    Quotients(depth, options.segmentSizeLimit, size);
    Quotients(depth, options.maxItemsPerSegment, n);
  }

  lemma Quotients(a: nat, total: nat, b: nat)
    requires b >= 1
    ensures a * b <= total <==> a <= total / b
  {
    var q := total / b;
    assert total == q * b + total % b && 0 <= total % b < b;
    if a <= q {
      Scale(a, q, b);
    } else {
      Scale(q + 1, a, b);
      assert (q + 1) * b == q * b + b;
    }
  }

  /** The slicing loop of buildStableMultiItemGroups. */
  method BuildStable(snapshots: seq<Snapshot>, itemsPerSnapshot: nat, options: Options)
    returns (groups: seq<seq<Snapshot>>)
    requires options.maxSnapshotsPerSegment >= 1
    ensures groups == Slices(snapshots, TargetDepth(itemsPerSnapshot, options))
  {
    groups := [];
    var targetDepth := TargetDepth(itemsPerSnapshot, options);
    var i := 0;
    while i < |snapshots|
      invariant 0 <= i <= |snapshots|
      invariant groups + Slices(snapshots[i..], targetDepth) == Slices(snapshots, targetDepth)
    {
      var next := Min(i + targetDepth, |snapshots|);
      var g := snapshots[i..next];
      SlicesCons(snapshots, i, targetDepth);
      assert groups + ([g] + Slices(snapshots[next..], targetDepth)) == groups + [g] + Slices(snapshots[next..], targetDepth);
      groups := groups + [g];
      i := next;
    }
    assert snapshots[i..] == [] && groups + [] == groups;
  }

  lemma SlicesCons(snapshots: seq<Snapshot>, i: nat, depth: nat)
    requires i < |snapshots| && depth >= 1
    ensures var next := Min(i + depth, |snapshots|);
            Slices(snapshots[i..], depth) == [snapshots[i..next]] + Slices(snapshots[next..], depth)
  {
    var next := Min(i + depth, |snapshots|);
    if |snapshots[i..]| <= depth {
      assert snapshots[i..next] == snapshots[i..] && snapshots[next..] == [];
    } else {
      assert snapshots[i..][..depth] == snapshots[i..next] && snapshots[i..][depth..] == snapshots[next..];
    }
  }

  /** The same two or more ids in every one of two or more snapshots. */
  predicate Stable(snapshots: seq<Snapshot>)
  {
    |snapshots| >= 2 && |snapshots[0].items| > 1
    && forall i :: 0 <= i < |snapshots| ==> snapshots[i].items.Keys == snapshots[0].items.Keys
  }

  /** detectStableMultiItemSnapshots */
  method DetectStable(snapshots: seq<Snapshot>) returns (stable: bool, itemsPerSnapshot: nat)
    ensures stable <==> Stable(snapshots)
    ensures stable ==> itemsPerSnapshot == |snapshots[0].items|
  {
    if |snapshots| < 2 {
      return false, 0;
    }
    var firstSize := |snapshots[0].items|;
    if firstSize <= 1 {
      return false, 0;
    }
    var referenceIds := snapshots[0].items.Keys;
    for s := 1 to |snapshots|
      invariant forall i :: 0 <= i < s ==> snapshots[i].items.Keys == referenceIds
    {
      if |snapshots[s].items| != firstSize || snapshots[s].items.Keys != referenceIds {
        assert |snapshots[s].items| == |snapshots[s].items.Keys| && firstSize == |referenceIds|;
        return false, 0;
      }
    }
    return true, firstSize;
  }

  /** The segments a buffer is cut into. */
  function Groups(snapshots: seq<Snapshot>, options: Options): seq<seq<Snapshot>>
    requires options.maxSnapshotsPerSegment >= 1
  {
    if snapshots == [] then []
    else if Stable(snapshots) then Slices(snapshots, TargetDepth(|snapshots[0].items|, options))
    else BySize(snapshots, options)
  }

  /** The groups concatenate back to the snapshots, none is empty, and none has too many items unless a
      single snapshot already has. */
  lemma GroupsExact(snapshots: seq<Snapshot>, options: Options)
    requires options.maxSnapshotsPerSegment >= 1
    ensures Concat(Groups(snapshots, options)) == snapshots
    ensures GroupsOk(Groups(snapshots, options), options.maxItemsPerSegment)
  {
    hide Items, Concat, BySize, Slices, TargetDepth;
    NothingYet();
    if Stable(snapshots) {
      var n := |snapshots[0].items|;
      forall i | 0 <= i < |snapshots|
        ensures |snapshots[i].items| == n
      {
        assert |snapshots[i].items| == |snapshots[i].items.Keys|;
      }
      SlicesOk(snapshots, TargetDepth(n, options), n, options);
    } else {
      BySizeOk(snapshots, options);
    }
  }

  method BuildSegmentGroups(snapshots: seq<Snapshot>, options: Options) returns (groups: seq<seq<Snapshot>>)
    requires options.maxSnapshotsPerSegment >= 1
    ensures groups == Groups(snapshots, options)
    ensures Concat(groups) == snapshots
    ensures GroupsOk(groups, options.maxItemsPerSegment)
  {
    hide Items, Concat, BySize, Slices, TargetDepth, Stable;
    GroupsExact(snapshots, options);
    if |snapshots| == 0 {
      return [];
    }
    var stable, itemsPerSnapshot := DetectStable(snapshots);
    if stable {
      groups := BuildStable(snapshots, itemsPerSnapshot, options);
    } else {
      groups := BuildBySize(snapshots, options);
    }
  }
}
