/** Sessions of rotated files (src/gics/rotating-encoder.ts): the manifest, its chain of roots, rotation,
    and resuming after a crash with whatever is left on disk. */
module Rotation {
  import opened Bytes
  import opened Snapshots

  type Hash = seq<byte>

  function Zero(): Hash { seq(32, _ => 0) }

  /** A file of the manifest. Its path is named after its number. */
  datatype Entry = Entry(number: nat, snapshots: nat, startSeed: Hash, endRoot: Hash, sha: Hash, orphaned: bool)

  type Disk = map<nat, seq<byte>>

  /** The file format: `encode` is a sealed part (the bytes may depend on the part's number), `root` the root in
      a file's end record if it has one. */
  datatype Codec = Codec(
    encode: (nat, seq<Snapshot>) -> seq<byte>,
    decode: seq<byte> -> Option<seq<Snapshot>>,
    root: seq<byte> -> Option<Hash>,
    verify: seq<byte> -> bool,
    sha: seq<byte> -> Hash)

  /** A sealed part has an end record, and if it decodes, to as many snapshots as went in: perhaps to others.
      Nothing is asked of the hash. */
  ghost predicate CodecOk(c: Codec)
  {
    && (forall n, x :: x != [] ==> c.root(c.encode(n, x)).Some?)
    && (forall n, x :: x != [] && c.decode(c.encode(n, x)).Some? ==> |c.decode(c.encode(n, x)).value| == |x|)
  }

  // ---- manifests ----------------------------------------------------------

  function Live(files: seq<Entry>): (live: seq<Entry>)
  {
    if files == [] then []
    else Live(files[..|files| - 1]) + if files[|files| - 1].orphaned then [] else [files[|files| - 1]]
  }

  lemma LiveSnoc(files: seq<Entry>, e: Entry)
    ensures Live(files + [e]) == if e.orphaned then Live(files) else Live(files) + [e]
    ensures e.orphaned || (Live(files + [e]) != [] && Live(files + [e])[|Live(files + [e])| - 1] == e)
  {
    assert (files + [e])[..|files|] == files;
  }

  predicate InOrder(files: seq<Entry>)
  {
    forall i, j :: 0 <= i < j < |files| ==> files[i].number <= files[j].number
  }

  function LastRoot(live: seq<Entry>): Option<Hash>
  {
    if live == [] then None else Some(live[|live| - 1].endRoot)
  }

  function LastNumber(live: seq<Entry>): nat
  {
    if live == [] then 0 else live[|live| - 1].number
  }

  function SeedAfter(root: Option<Hash>): Hash { match root case None => Zero() case Some(h) => h }

  predicate Follows(live: seq<Entry>, e: Entry)
  {
    e.startSeed == SeedAfter(LastRoot(live)) && e.number > LastNumber(live)
  }

  /** One hash chain from the zero hash, under strictly increasing numbers. */
  predicate Linked(live: seq<Entry>)
  {
    live == [] || (Linked(live[..|live| - 1]) && Follows(live[..|live| - 1], live[|live| - 1]))
  }

  lemma LinkedSnoc(live: seq<Entry>, e: Entry)
    ensures Linked(live + [e]) <==> Linked(live) && Follows(live, e)
  {
    assert (live + [e])[..|live|] == live;
  }

  predicate Below(live: seq<Entry>, n: nat)
  {
    forall i :: 0 <= i < |live| ==> live[i].number < n
  }

  lemma {:induction false} LinkedBelow(live: seq<Entry>, n: nat)
    requires Linked(live) && n > LastNumber(live)
    ensures Below(live, n)
  {
    if live != [] {
      LinkedBelow(live[..|live| - 1], n);
    }
  }

  /** push and sort: behind every entry whose number is not larger. */
  function Insert(files: seq<Entry>, e: Entry): (r: seq<Entry>)
  {
    if files == [] || files[|files| - 1].number <= e.number then files + [e]
    else Insert(files[..|files| - 1], e) + [files[|files| - 1]]
  }

  lemma {:induction false} InsertInOrder(files: seq<Entry>, e: Entry, bound: nat)
    requires InOrder(files) && e.number <= bound && forall i :: 0 <= i < |files| ==> files[i].number <= bound
    ensures InOrder(Insert(files, e)) && forall i :: 0 <= i < |Insert(files, e)| ==> Insert(files, e)[i].number <= bound
  {
    if files != [] && files[|files| - 1].number > e.number {
      var n := |files| - 1;
      assert forall i :: 0 <= i < n ==> files[..n][i] == files[i];
      InsertInOrder(files[..n], e, files[n].number);
    }
  }

  lemma {:induction false} InsertLive(files: seq<Entry>, e: Entry)
    requires InOrder(files) && !e.orphaned && Below(Live(files), e.number)
    ensures Live(Insert(files, e)) == Live(files) + [e]
  {
    if files == [] || files[|files| - 1].number <= e.number {
      LiveSnoc(files, e);
    } else {
      var n := |files| - 1;
      var last := files[n];
      assert files == files[..n] + [last];
      LiveSnoc(files[..n], last);
      InsertLive(files[..n], e);
      LiveSnoc(Insert(files[..n], e), last);
    }
  }

  // ---- resuming -----------------------------------------------------------

  predicate Intact(c: Codec, disk: Disk, e: Entry)
  {
    e.number in disk && c.root(disk[e.number]) == Some(e.endRoot) && c.sha(disk[e.number]) == e.sha
  }

  datatype Scan = Scan(files: seq<Entry>, root: Option<Hash>, number: nat, broken: bool)

  /** One turn of the validation loop of resumeSession. */
  function Scanned(c: Codec, disk: Disk, s: Scan, e: Entry): Scan
  {
    if e.orphaned then s.(files := s.files + [e])
    else if !Intact(c, disk, e) || e.startSeed != SeedAfter(s.root) then
      s.(files := s.files + [e.(orphaned := true)], broken := true)
    else Scan(s.files + [e], Some(e.endRoot), e.number, s.broken)
  }

  /** The validation loop of resumeSession. */
  function ScanFiles(c: Codec, disk: Disk, files: seq<Entry>): (s: Scan)
    ensures |s.files| == |files|
    ensures forall i :: 0 <= i < |files| ==> s.files[i] == files[i] || s.files[i] == files[i].(orphaned := true)
  {
    if files == [] then Scan([], None, 0, false)
    else
      Scanned(c, disk, ScanFiles(c, disk, files[..|files| - 1]), files[|files| - 1])
  }

  function OrphanBeyond(files: seq<Entry>, n: nat): (r: seq<Entry>)
    ensures |r| == |files|
    ensures forall i :: 0 <= i < |r| ==> r[i] == if files[i].number > n then files[i].(orphaned := true) else files[i]
  {
    seq(|files|, i requires 0 <= i < |files| => if files[i].number > n then files[i].(orphaned := true) else files[i])
  }

  function Resumed(c: Codec, disk: Disk, files: seq<Entry>): seq<Entry>
  {
    var s := ScanFiles(c, disk, files);
    if s.broken then OrphanBeyond(s.files, s.number) else s.files
  }

  ghost predicate AllIntact(c: Codec, disk: Disk, live: seq<Entry>)
  {
    forall i :: 0 <= i < |live| ==> Intact(c, disk, live[i])
  }

  ghost predicate Within(kept: seq<Entry>, live: seq<Entry>)
  {
    forall i :: 0 <= i < |kept| ==> kept[i] in live
  }

  ghost predicate ScanOk(c: Codec, disk: Disk, s: Scan, live: seq<Entry>)
  {
    && Linked(Live(s.files)) && s.root == LastRoot(Live(s.files)) && s.number == LastNumber(Live(s.files))
    && s.number <= LastNumber(live) && AllIntact(c, disk, Live(s.files)) && Within(Live(s.files), live)
    && (!s.broken ==> Live(s.files) == live)
  }

  /** Whatever the disk looks like, what stays live is intact, one chain, and in order. */
  lemma {:induction false} ScanKeeps(c: Codec, disk: Disk, files: seq<Entry>)
    requires Linked(Live(files))
    ensures ScanOk(c, disk, ScanFiles(c, disk, files), Live(files))
  {
    hide Intact;
    if files != [] {
      var front, e := files[..|files| - 1], files[|files| - 1];
      assert files == front + [e];
      LiveSnoc(front, e);
      LinkedSnoc(Live(front), e);
      hide Live, Linked, ScanOk;
      ScanKeeps(c, disk, front);
      ScanStep(c, disk, ScanFiles(c, disk, front), Live(front), e);
    }
  }

  lemma ScanStep(c: Codec, disk: Disk, s: Scan, live: seq<Entry>, e: Entry)
    requires ScanOk(c, disk, s, live) && (!e.orphaned ==> Follows(live, e))
    ensures ScanOk(c, disk, Scanned(c, disk, s, e), if e.orphaned then live else live + [e])
  {
    hide Intact, Linked;
    LiveSnoc(s.files, e);
    LiveSnoc(s.files, e.(orphaned := true));
    LinkedSnoc(Live(s.files), e);
    hide Live;
  }

  lemma OrphanSnoc(files: seq<Entry>, e: Entry, n: nat)
    ensures OrphanBeyond(files + [e], n) == OrphanBeyond(files, n) + [if e.number > n then e.(orphaned := true) else e]
  {
  }

  lemma {:induction false} OrphanBeyondLive(files: seq<Entry>, n: nat)
    requires Below(Live(files), n + 1)
    ensures Live(OrphanBeyond(files, n)) == Live(files)
  {
    if files != [] {
      var front, e := files[..|files| - 1], files[|files| - 1];
      assert files == front + [e];
      LiveSnoc(front, e);
      OrphanSnoc(front, e, n);
      hide Live, OrphanBeyond;
      assert !e.orphaned ==> Live(files)[|Live(files)| - 1] == e;
      assert Below(Live(front), n + 1) by {
        assert forall i :: 0 <= i < |Live(front)| ==> Live(front)[i] == Live(files)[i];
      }
      OrphanBeyondLive(front, n);
      LiveSnoc(OrphanBeyond(front, n), if e.number > n then e.(orphaned := true) else e);
    } else {
      assert OrphanBeyond(files, n) == files;
    }
  }

  lemma ScanInOrder(c: Codec, disk: Disk, files: seq<Entry>)
    requires InOrder(files)
    ensures InOrder(Resumed(c, disk, files))
  {
    hide ScanFiles;
    var s := ScanFiles(c, disk, files);
    assert forall i :: 0 <= i < |files| ==> Resumed(c, disk, files)[i].number == s.files[i].number == files[i].number;
  }

  lemma ResumeKeeps(c: Codec, disk: Disk, files: seq<Entry>)
    requires Linked(Live(files)) && InOrder(files)
    ensures var s := ScanFiles(c, disk, files);
            var after := Resumed(c, disk, files);
            && Live(after) == Live(s.files) && InOrder(after)
            && Linked(Live(after)) && s.root == LastRoot(Live(after)) && s.number == LastNumber(Live(after))
            && AllIntact(c, disk, Live(after)) && Within(Live(after), Live(files))
  {
    ScanKeeps(c, disk, files);
    ScanInOrder(c, disk, files);
    hide Intact, Live, ScanFiles, Linked, AllIntact, Within, InOrder, LastRoot, LastNumber;
    var s := ScanFiles(c, disk, files);
    LinkedBelow(Live(s.files), s.number + 1);
    OrphanBeyondLive(s.files, s.number);
  }

  // ---- how much survives --------------------------------------------------

  function FirstDamaged(c: Codec, disk: Disk, live: seq<Entry>): (k: nat)
    ensures k <= |live|
    ensures forall i :: 0 <= i < k ==> Intact(c, disk, live[i])
    ensures k < |live| ==> !Intact(c, disk, live[k])
  {
    if live == [] then 0
    else
      var n := |live| - 1;
      var k := FirstDamaged(c, disk, live[..n]);
      if k < n then k else if Intact(c, disk, live[n]) then n + 1 else n
  }

  /** What a resume keeps of the live parts. */
  function Kept(c: Codec, disk: Disk, live: seq<Entry>): (kept: seq<Entry>)
    ensures |kept| <= |live|
  {
    if live == [] then []
    else
      var kept := Kept(c, disk, live[..|live| - 1]);
      var e := live[|live| - 1];
      if Intact(c, disk, e) && e.startSeed == SeedAfter(LastRoot(kept)) then kept + [e] else kept
  }

  lemma {:induction false} ScanIsKept(c: Codec, disk: Disk, files: seq<Entry>)
    requires Linked(Live(files))
    ensures Live(ScanFiles(c, disk, files).files) == Kept(c, disk, Live(files))
  {
    hide Intact;
    if files != [] {
      var front, e := files[..|files| - 1], files[|files| - 1];
      assert files == front + [e];
      LiveSnoc(front, e);
      LinkedSnoc(Live(front), e);
      ScanKeeps(c, disk, front);
      var s := ScanFiles(c, disk, front);
      LiveSnoc(s.files, e);
      LiveSnoc(s.files, e.(orphaned := true));
      KeptSnoc(c, disk, Live(front), e);
      hide Live, Linked, AllIntact, Within, Kept;
      ScanIsKept(c, disk, front);
    }
  }

  lemma KeptSnoc(c: Codec, disk: Disk, live: seq<Entry>, e: Entry)
    ensures Intact(c, disk, e) && e.startSeed == SeedAfter(LastRoot(Kept(c, disk, live)))
        ==> Kept(c, disk, live + [e]) == Kept(c, disk, live) + [e]
    ensures !Intact(c, disk, e) || e.startSeed != SeedAfter(LastRoot(Kept(c, disk, live)))
        ==> Kept(c, disk, live + [e]) == Kept(c, disk, live)
  {
    assert (live + [e])[..|live|] == live;
  }

  /** No root up to the last part but one is a seed at or before it: no stretch of the chain closes a loop. */
  predicate NoLoop(live: seq<Entry>)
  {
    forall i, j :: 0 <= i <= j < |live| - 1 ==> live[j].endRoot != live[i].startSeed
  }

  lemma {:induction false} LoopFreeKeepsPrefix(c: Codec, disk: Disk, live: seq<Entry>)
    requires Linked(live) && NoLoop(live)
    ensures Kept(c, disk, live) == live[..FirstDamaged(c, disk, live)]
  {
    hide Intact;
    if live != [] {
      var n := |live| - 1;
      assert live == live[..n] + [live[n]];
      LinkedSnoc(live[..n], live[n]);
      assert NoLoop(live[..n]) by {
        assert forall i :: 0 <= i < n ==> live[..n][i] == live[i];
      }
      hide Linked;
      LoopFreeKeepsPrefix(c, disk, live[..n]);
      PrefixStep(c, disk, live[..n], live[n]);
    }
  }

  lemma PrefixStep(c: Codec, disk: Disk, before: seq<Entry>, e: Entry)
    requires Linked(before + [e]) && NoLoop(before + [e])
    ensures var k := FirstDamaged(c, disk, before);
            && FirstDamaged(c, disk, before + [e])
               == (if k < |before| then k else if Intact(c, disk, e) then |before| + 1 else |before|)
            && (e.startSeed == SeedAfter(LastRoot(before[..k])) <==> k == |before|)
            && (k < |before| ==> (before + [e])[..k] == before[..k])
            && before[..|before|] == before && (before + [e])[..|before|] == before
            && (before + [e])[..|before| + 1] == before + [e]
  {
    hide Intact;
    var all, k := before + [e], FirstDamaged(c, disk, before);
    LinkedSnoc(before, e);
    assert all[..|before|] == before && before[..|before|] == before;
    if k < |before| {
      LinkAt(before, k);
      assert all[k] == before[k] && all[|before| - 1] == before[|before| - 1];
      assert all[|before| - 1].endRoot != all[k].startSeed;
    }
  }

  lemma {:induction false} LinkAt(live: seq<Entry>, k: nat)
    requires Linked(live) && k < |live|
    ensures live[k].startSeed == SeedAfter(LastRoot(live[..k]))
  {
    var n := |live| - 1;
    if k < n {
      LinkAt(live[..n], k);
      assert live[..n][..k] == live[..k];
    }
  }

  lemma {:induction false} LinkedFront(live: seq<Entry>, n: nat)
    requires Linked(live) && n <= |live|
    ensures Linked(live[..n])
  {
    if n < |live| {
      LinkedFront(live[..|live| - 1], n);
      assert live[..|live| - 1][..n] == live[..n];
    } else {
      assert live[..n] == live;
    }
  }

  lemma {:induction false} NumbersDiffer(live: seq<Entry>)
    requires Linked(live)
    ensures forall i, j :: 0 <= i < j < |live| ==> live[i].number < live[j].number
  {
    if live != [] {
      var n := |live| - 1;
      NumbersDiffer(live[..n]);
      LinkedBelow(live[..n], live[n].number);
      assert forall i :: 0 <= i < n ==> live[i] == live[..n][i];
    }
  }

  lemma {:induction false} KeptAll(c: Codec, disk: Disk, live: seq<Entry>)
    requires Linked(live) && AllIntact(c, disk, live)
    ensures Kept(c, disk, live) == live
  {
    hide Intact;
    if live != [] {
      var n := |live| - 1;
      assert AllIntact(c, disk, live[..n]) by {
        assert forall i :: 0 <= i < n ==> live[..n][i] == live[i];
      }
      assert Intact(c, disk, live[n]);
      assert live == live[..n] + [live[n]];
      KeptAll(c, disk, live[..n]);
    }
  }

  /** Damaged parts add nothing. */
  lemma {:induction false} KeptNothing(c: Codec, disk: Disk, live: seq<Entry>, i: nat)
    requires i <= |live| && forall k :: i <= k < |live| ==> !Intact(c, disk, live[k])
    ensures Kept(c, disk, live) == Kept(c, disk, live[..i])
  {
    hide Intact;
    if i == |live| {
      assert live[..i] == live;
    } else {
      var n := |live| - 1;
      assert forall k :: 0 <= k < n ==> live[..n][k] == live[k];
      KeptNothing(c, disk, live[..n], i);
      assert live[..n][..i] == live[..i];
    }
  }

  lemma {:induction false} KeptGrows(c: Codec, disk: Disk, live: seq<Entry>, m: nat)
    requires m <= |live|
    ensures |Kept(c, disk, live[..m])| <= |Kept(c, disk, live)|
  {
    hide Intact;
    if m < |live| {
      KeptGrows(c, disk, live[..|live| - 1], m);
      assert live[..|live| - 1][..m] == live[..m];
    } else {
      assert live[..m] == live;
    }
  }

  /** The disk with the files of parts i to j gone. */
  function Without(disk: Disk, live: seq<Entry>, i: nat, j: nat): Disk
    requires i <= j < |live|
  {
    map n | n in disk && forall k :: i <= k <= j ==> live[k].number != n :: disk[n]
  }

  lemma WithoutIntact(c: Codec, disk: Disk, live: seq<Entry>, i: nat, j: nat)
    requires Linked(live) && AllIntact(c, disk, live) && i <= j < |live|
    ensures forall k :: 0 <= k < |live| ==> (Intact(c, Without(disk, live, i, j), live[k]) <==> !(i <= k <= j))
  {
    NumbersDiffer(live);
    hide Linked;
    forall k | 0 <= k < |live|
      ensures Intact(c, Without(disk, live, i, j), live[k]) <==> !(i <= k <= j)
    {
      assert Intact(c, disk, live[k]);
    }
  }

  /** With parts i to j gone, what is kept in front of part j + 1 are the parts in front of i. */
  lemma KeptBefore(c: Codec, disk: Disk, live: seq<Entry>, i: nat, j: nat)
    requires Linked(live) && i <= j < |live| - 1
    requires forall k :: 0 <= k < |live| ==> (Intact(c, disk, live[k]) <==> !(i <= k <= j))
    ensures FirstDamaged(c, disk, live) == i && Kept(c, disk, live[..j + 1]) == live[..i]
  {
    hide Intact, Kept, FirstDamaged;
    LinkedFront(live, i);
    hide Linked;
    assert !Intact(c, disk, live[i]) && forall k :: 0 <= k < i ==> Intact(c, disk, live[k]);
    var first := FirstDamaged(c, disk, live);
    if first < i {
      assert false;
    }
    assert AllIntact(c, disk, live[..i]);
    KeptAll(c, disk, live[..i]);
    KeptNothing(c, disk, live[..j + 1], i);
    assert live[..j + 1][..i] == live[..i];
  }

  /** Losing the parts of a loop: the part behind it still fits. */
  lemma LoopSkips(c: Codec, disk: Disk, live: seq<Entry>, i: nat, j: nat)
    requires Linked(live) && AllIntact(c, disk, live)
    requires i <= j < |live| - 1 && live[j].endRoot == live[i].startSeed
    ensures FirstDamaged(c, Without(disk, live, i, j), live) == i
    ensures Kept(c, Without(disk, live, i, j), live) != live[..i]
  {
    hide Intact, Without, Linked, Kept, FirstDamaged, AllIntact;
    var damaged := Without(disk, live, i, j);
    WithoutIntact(c, disk, live, i, j);
    KeptBefore(c, damaged, live, i, j);
    LinkAt(live, i);
    LinkAt(live, j + 1);
    assert live[..j + 1][|live[..j + 1]| - 1] == live[j];
    assert live[j + 1].startSeed == live[j].endRoot == SeedAfter(LastRoot(live[..i]));
    assert Intact(c, damaged, live[j + 1]);
    assert live[..j + 2] == live[..j + 1] + [live[j + 1]];
    KeptSnoc(c, damaged, live[..j + 1], live[j + 1]);
    KeptGrows(c, damaged, live, j + 2);
    assert |Kept(c, damaged, live)| > i;
  }

  /** A resume keeps exactly the parts in front of the first damaged one, whatever the crash did to a disk
      that was whole, if and only if the chain has no loop. */
  lemma PrefixExact(c: Codec, disk: Disk, files: seq<Entry>)
    requires InOrder(files) && Linked(Live(files)) && AllIntact(c, disk, Live(files))
    ensures (forall after: Disk :: Live(Resumed(c, after, files)) == Live(files)[..FirstDamaged(c, after, Live(files))])
       <==> NoLoop(Live(files))
  {
    hide Intact, Linked, InOrder, Live, AllIntact, Kept, ScanFiles, Resumed;
    var live := Live(files);
    forall after: Disk
      ensures Live(Resumed(c, after, files)) == Kept(c, after, live)
      ensures NoLoop(live) ==> Kept(c, after, live) == live[..FirstDamaged(c, after, live)]
    {
      ResumeIsKept(c, after, files);
      if NoLoop(live) {
        LoopFreeKeepsPrefix(c, after, live);
      }
    }
    if !NoLoop(live) {
      var i: nat, j: nat :| i <= j < |live| - 1 && live[j].endRoot == live[i].startSeed;
      LoopSkips(c, disk, live, i, j);
      var damaged := Without(disk, live, i, j);
      assert Live(Resumed(c, damaged, files)) == Kept(c, damaged, live);
    }
  }

  lemma ResumeIsKept(c: Codec, disk: Disk, files: seq<Entry>)
    requires InOrder(files) && Linked(Live(files))
    ensures Live(Resumed(c, disk, files)) == Kept(c, disk, Live(files))
  {
    hide Intact, Linked, InOrder, Live, Kept, ScanFiles, Resumed, AllIntact, Within;
    ResumeKeeps(c, disk, files);
    ScanIsKept(c, disk, files);
  }

  /** But two parts with one root, as two parts of equal content have, let a damaged part vanish from the
      middle: the part behind it still fits the chain. */
  lemma EqualPartsHideDamage(c: Codec, disk: Disk, a: Entry, b: Entry, d: Entry)
    requires 0 < a.number < b.number < d.number && !a.orphaned && !b.orphaned && !d.orphaned
    requires a.startSeed == Zero() && b.startSeed == a.endRoot == b.endRoot == d.startSeed
    requires Intact(c, disk, a) && !Intact(c, disk, b) && Intact(c, disk, d)
    ensures Linked(Live([a, b, d])) && Live(Resumed(c, disk, [a, b, d])) == [a, d]
  {
    hide Intact;
    var lost := b.(orphaned := true);
    LiveThree(a, b, d);
    LiveThree(a, lost, d);
    LinkedSnoc([], a);
    LinkedSnoc([a], b);
    LinkedSnoc([a, b], d);
    assert [] + [a] == [a] && [a] + [b] == [a, b] && [a, b] + [d] == [a, b, d];
    hide Live, Linked;
    ScanHidden(c, disk, a, b, d);
    assert OrphanBeyond([a, lost, d], d.number) == [a, lost, d];
  }

  lemma LiveThree(a: Entry, b: Entry, d: Entry)
    requires !a.orphaned && !d.orphaned
    ensures Live([a, b, d]) == if b.orphaned then [a, d] else [a, b, d]
  {
    assert [] + [a] == [a] && [a] + [b] == [a, b] && [a, b] + [d] == [a, b, d];
    LiveSnoc([], a);
    LiveSnoc([a], b);
    LiveSnoc([a, b], d);
    hide Live;
    assert Live([]) == [] by { EmptyLive(); }
  }

  lemma EmptyLive()
    ensures Live([]) == []
  {
  }

  lemma ScanHidden(c: Codec, disk: Disk, a: Entry, b: Entry, d: Entry)
    requires !a.orphaned && !b.orphaned && !d.orphaned && a.startSeed == Zero() && a.endRoot == d.startSeed
    requires Intact(c, disk, a) && !Intact(c, disk, b) && Intact(c, disk, d)
    ensures ScanFiles(c, disk, [a, b, d]) == Scan([a, b.(orphaned := true), d], Some(d.endRoot), d.number, true)
  {
    hide Intact;
    ScanThree(c, disk, a, b, d);
    hide ScanFiles;
    var s1 := Scanned(c, disk, Scan([], None, 0, false), a);
    assert s1.files == [a];
    var s2 := Scanned(c, disk, s1, b);
    assert s2.files == [a, b.(orphaned := true)];
    assert Scanned(c, disk, s2, d).files == [a, b.(orphaned := true), d];
  }

  lemma ScanThree(c: Codec, disk: Disk, a: Entry, b: Entry, d: Entry)
    ensures ScanFiles(c, disk, [a, b, d])
         == Scanned(c, disk, Scanned(c, disk, Scanned(c, disk, Scan([], None, 0, false), a), b), d)
  {
    hide Scanned;
    assert [a, b, d][..2] == [a, b] && [a, b][..1] == [a] && [a][..0] == [];
    assert ScanFiles(c, disk, [a]) == Scanned(c, disk, Scan([], None, 0, false), a);
    assert ScanFiles(c, disk, [a, b]) == Scanned(c, disk, ScanFiles(c, disk, [a]), b);
  }

  // ---- reading a session --------------------------------------------------

  /** validateSessionManifest in strict mode over the live files. */
  function ValidateLive(c: Codec, disk: Disk, live: seq<Entry>): Result<Option<Hash>>
  {
    if live == [] then Ok(None)
    else
      match ValidateLive(c, disk, live[..|live| - 1])
      case Err(e) => Err(e)
      case Ok(prev) =>
        var e := live[|live| - 1];
        if e.startSeed != SeedAfter(prev) then Err(IntegrityMismatch)
        else if !Intact(c, disk, e) || !c.verify(disk[e.number]) then Err(IntegrityMismatch)
        else Ok(Some(e.endRoot))
  }

  function ReadLive(c: Codec, disk: Disk, live: seq<Entry>): Option<seq<Snapshot>>
  {
    if live == [] then Some([])
    else
      var n := |live| - 1;
      match (ReadLive(c, disk, live[..n]), if live[n].number in disk then c.decode(disk[live[n].number]) else None)
      case (Some(front), Some(xs)) => Some(front + xs)
      case _ => None
  }

  /** readSession */
  function ReadSession(c: Codec, disk: Disk, files: seq<Entry>, lastRootHash: Option<Hash>): Result<seq<Snapshot>>
  {
    match ValidateLive(c, disk, Live(files))
    case Err(e) => Err(e)
    case Ok(root) =>
      if lastRootHash.Some? && root.Some? && lastRootHash != root then Err(IntegrityMismatch)
      else
        match ReadLive(c, disk, Live(files))
        case None => Err(Malformed)
        case Some(xs) => Ok(xs)
  }

  // ---- what was handed in -------------------------------------------------

  /** The snapshots each part was handed, by its number. */
  type Parts = map<nat, seq<Snapshot>>

  /** A live part's file is the sealed encoding of the non-empty part handed in under its number. */
  ghost predicate SealedPart(c: Codec, disk: Disk, parts: Parts, e: Entry)
  {
    && e.number in parts && e.snapshots == |parts[e.number]| > 0
    && e.number in disk && disk[e.number] == c.encode(e.number, parts[e.number])
    && Intact(c, disk, e)
  }

  ghost predicate AllSealed(c: Codec, disk: Disk, parts: Parts, live: seq<Entry>)
  {
    forall i :: 0 <= i < |live| ==> SealedPart(c, disk, parts, live[i])
  }

  function PartOf(parts: Parts, e: Entry): seq<Snapshot> { if e.number in parts then parts[e.number] else [] }

  /** Everything in the committed parts, in order, whether it can be read back or not. */
  function Committed(parts: Parts, live: seq<Entry>): seq<Snapshot>
  {
    if live == [] then []
    else
      var n := |live| - 1;
      Committed(parts, live[..n]) + PartOf(parts, live[n])
  }

  /** The file of a part verifies and decodes to what went in. */
  predicate PartReads(c: Codec, number: nat, part: seq<Snapshot>)
  {
    c.verify(c.encode(number, part)) && c.decode(c.encode(number, part)) == Some(part)
  }

  predicate AllRead(c: Codec, parts: Parts, live: seq<Entry>)
  {
    forall i :: 0 <= i < |live| ==> PartReads(c, live[i].number, PartOf(parts, live[i]))
  }

  predicate AllAnswer(c: Codec, parts: Parts, live: seq<Entry>)
  {
    forall i :: 0 <= i < |live| ==>
      var file := c.encode(live[i].number, PartOf(parts, live[i]));
      c.verify(file) && c.decode(file).Some?
  }

  lemma {:induction false} ValidateExact(c: Codec, disk: Disk, parts: Parts, live: seq<Entry>)
    requires Linked(live) && AllSealed(c, disk, parts, live)
    ensures var verified := forall i :: 0 <= i < |live| ==> c.verify(c.encode(live[i].number, PartOf(parts, live[i])));
            ValidateLive(c, disk, live) == if verified then Ok(LastRoot(live)) else Err(IntegrityMismatch)
  {
    hide Intact;
    if live != [] {
      var n := |live| - 1;
      assert forall i :: 0 <= i < n ==> live[..n][i] == live[i];
      assert SealedPart(c, disk, parts, live[n]);
      ValidateExact(c, disk, parts, live[..n]);
    }
  }

  lemma {:induction false} ReadExact(c: Codec, disk: Disk, parts: Parts, live: seq<Entry>)
    requires CodecOk(c) && AllSealed(c, disk, parts, live)
    ensures var exact := forall i :: 0 <= i < |live| ==>
              c.decode(c.encode(live[i].number, PartOf(parts, live[i]))) == Some(PartOf(parts, live[i]));
            var some := forall i :: 0 <= i < |live| ==> c.decode(c.encode(live[i].number, PartOf(parts, live[i]))).Some?;
            && (ReadLive(c, disk, live) == Some(Committed(parts, live)) <==> exact)
            && (ReadLive(c, disk, live).Some? <==> some)
            && (some ==> |ReadLive(c, disk, live).value| == |Committed(parts, live)|)
  {
    hide Intact;
    if live != [] {
      var n := |live| - 1;
      assert forall i :: 0 <= i < n ==> live[..n][i] == live[i];
      assert SealedPart(c, disk, parts, live[n]);
      ReadExact(c, disk, parts, live[..n]);
      ReadStep(c, disk, live, Committed(parts, live[..n]), PartOf(parts, live[n]));
    }
  }

  /** Two answers of the right lengths are right together only if each is right. */
  lemma ReadStep(c: Codec, disk: Disk, live: seq<Entry>, front: seq<Snapshot>, part: seq<Snapshot>)
    requires live != [] && live[|live| - 1].number in disk
    requires var n := |live| - 1;
             var file := disk[live[n].number];
             && (ReadLive(c, disk, live[..n]).Some? ==> |ReadLive(c, disk, live[..n]).value| == |front|)
             && (c.decode(file).Some? ==> |c.decode(file).value| == |part|)
    ensures var n := |live| - 1;
            var file := disk[live[n].number];
            && (ReadLive(c, disk, live) == Some(front + part)
                <==> ReadLive(c, disk, live[..n]) == Some(front) && c.decode(file) == Some(part))
            && (ReadLive(c, disk, live).Some? <==> ReadLive(c, disk, live[..n]).Some? && c.decode(file).Some?)
            && (ReadLive(c, disk, live).Some? ==> |ReadLive(c, disk, live).value| == |front + part|)
  {
    var n := |live| - 1;
    var first, last := ReadLive(c, disk, live[..n]), c.decode(disk[live[n].number]);
    if first.Some? && last.Some? {
      assert (first.value + last.value)[..|front|] == first.value && (first.value + last.value)[|front|..] == last.value;
      assert (front + part)[..|front|] == front && (front + part)[|front|..] == part;
    }
  }

  /** A strict reader gives back everything committed if and only if the file of each part verifies and decodes
      to its part; it answers at all if and only if each verifies and decodes to something. */
  lemma ReaderExact(c: Codec, disk: Disk, parts: Parts, files: seq<Entry>)
    requires CodecOk(c) && Linked(Live(files)) && AllSealed(c, disk, parts, Live(files))
    ensures var r := ReadSession(c, disk, files, LastRoot(Live(files)));
            && (r == Ok(Committed(parts, Live(files))) <==> AllRead(c, parts, Live(files)))
            && (r.Ok? <==> AllAnswer(c, parts, Live(files)))
  {
    hide Intact, Linked, Live, CodecOk, AllSealed, ValidateLive, ReadLive, Committed, PartOf, LastRoot;
    ValidateExact(c, disk, parts, Live(files));
    ReadExact(c, disk, parts, Live(files));
  }

  // ---- surviving a crash --------------------------------------------------

  /** Among the files a resume compares, no two different ones have one hash. */
  ghost predicate NoCollision(c: Codec, before: Disk, after: Disk, live: seq<Entry>)
  {
    forall i :: 0 <= i < |live| && live[i].number in before && live[i].number in after ==>
      c.sha(before[live[i].number]) == c.sha(after[live[i].number]) ==> before[live[i].number] == after[live[i].number]
  }

  /** A part that passes the resume check after the crash is the part that was sealed before it. */
  lemma SurvivorsUnchanged(c: Codec, before: Disk, after: Disk, parts: Parts, live: seq<Entry>, kept: seq<Entry>)
    requires AllSealed(c, before, parts, live) && Within(kept, live) && AllIntact(c, after, kept)
    requires NoCollision(c, before, after, live)
    ensures AllSealed(c, after, parts, kept)
  {
    forall i | 0 <= i < |kept|
      ensures SealedPart(c, after, parts, kept[i])
    {
      var e := kept[i];
      var k :| 0 <= k < |live| && live[k] == e;
      assert SealedPart(c, before, parts, live[k]);
      assert Intact(c, after, e);
    }
  }

  // ---- what a strict reader refuses ---------------------------------------

  /** Every live file is there, as the manifest has it, and verifies. */
  predicate AllVerify(c: Codec, disk: Disk, live: seq<Entry>)
  {
    forall i :: 0 <= i < |live| ==>
      live[i].number in disk && Intact(c, disk, live[i]) && c.verify(disk[live[i].number])
  }

  predicate AllDecode(c: Codec, disk: Disk, live: seq<Entry>)
  {
    forall i :: 0 <= i < |live| ==> live[i].number in disk && c.decode(disk[live[i].number]).Some?
  }

  lemma IntactIsThere(c: Codec, disk: Disk, e: Entry)
    requires Intact(c, disk, e)
    ensures e.number in disk
  {
  }

  lemma {:induction false} ValidatesExact(c: Codec, disk: Disk, live: seq<Entry>)
    requires Linked(live)
    ensures ValidateLive(c, disk, live).Ok? <==> AllVerify(c, disk, live)
    ensures ValidateLive(c, disk, live).Ok? ==> ValidateLive(c, disk, live) == Ok(LastRoot(live))
  {
    hide Intact;
    if live != [] {
      var n := |live| - 1;
      assert forall i :: 0 <= i < n ==> live[..n][i] == live[i];
      ValidatesExact(c, disk, live[..n]);
      assert AllVerify(c, disk, live) <==>
             AllVerify(c, disk, live[..n]) && live[n].number in disk && Intact(c, disk, live[n])
             && c.verify(disk[live[n].number]);
      if Intact(c, disk, live[n]) {
        IntactIsThere(c, disk, live[n]);
      }
    }
  }

  lemma {:induction false} ReadsExact(c: Codec, disk: Disk, live: seq<Entry>)
    ensures ReadLive(c, disk, live).Some? <==> AllDecode(c, disk, live)
  {
    if live != [] {
      var n := |live| - 1;
      assert forall i :: 0 <= i < n ==> live[..n][i] == live[i];
      ReadsExact(c, disk, live[..n]);
      assert AllDecode(c, disk, live) <==>
             AllDecode(c, disk, live[..n]) && live[n].number in disk && c.decode(disk[live[n].number]).Some?;
    }
  }

  /** On any disk, a strict reader answers if and only if every live file is there with the root and the hash the
      manifest has for it, verifies and decodes. */
  lemma ReaderAnswers(c: Codec, disk: Disk, files: seq<Entry>)
    requires Linked(Live(files))
    ensures ReadSession(c, disk, files, LastRoot(Live(files))).Ok? <==>
            AllVerify(c, disk, Live(files)) && AllDecode(c, disk, Live(files))
  {
    hide Linked, Live, ValidateLive, ReadLive, AllVerify, AllDecode;
    ValidatesExact(c, disk, Live(files));
    ReadsExact(c, disk, Live(files));
  }

  /** The live parts' files are the ones that were sealed. */
  predicate AsSealed(before: Disk, after: Disk, live: seq<Entry>)
  {
    forall i :: 0 <= i < |live| ==> SameFile(before, after, live[i].number)
  }

  lemma {:induction false} SameFilesRead(c: Codec, before: Disk, after: Disk, live: seq<Entry>)
    requires AsSealed(before, after, live)
    ensures ValidateLive(c, after, live) == ValidateLive(c, before, live)
    ensures ReadLive(c, after, live) == ReadLive(c, before, live)
  {
    if live != [] {
      var n := |live| - 1;
      assert forall i :: 0 <= i < n ==> live[..n][i] == live[i];
      assert SameFile(before, after, live[n].number);
      SameFilesRead(c, before, after, live[..n]);
    }
  }

  /** Whatever happened to the disk since the parts were sealed: a strict reader answers if and only if every live file
      is still the one that was sealed, unless a different file under its number has its hash, and the sealed files
      verify and decode; and then it gives what it would have given before. */
  lemma StrictReader(c: Codec, before: Disk, after: Disk, parts: Parts, files: seq<Entry>)
    requires CodecOk(c) && Linked(Live(files)) && AllSealed(c, before, parts, Live(files))
    requires NoCollision(c, before, after, Live(files))
    ensures var r := ReadSession(c, after, files, LastRoot(Live(files)));
            && (r.Ok? <==> AsSealed(before, after, Live(files)) && AllAnswer(c, parts, Live(files)))
            && (r.Ok? ==> r == ReadSession(c, before, files, LastRoot(Live(files))))
  {
    hide Linked, Live, CodecOk, AllSealed, ValidateLive, ReadLive, LastRoot, AllVerify, AllDecode, AllAnswer, AsSealed,
         NoCollision;
    var live := Live(files);
    ReaderExact(c, before, parts, files);
    ReaderAnswers(c, after, files);
    if AsSealed(before, after, live) {
      SameFilesRead(c, before, after, live);
    } else if AllVerify(c, after, live) {
      VerifiedAsSealed(c, before, after, parts, live);
    }
  }

  lemma VerifiedAsSealed(c: Codec, before: Disk, after: Disk, parts: Parts, live: seq<Entry>)
    requires AllSealed(c, before, parts, live) && NoCollision(c, before, after, live) && AllVerify(c, after, live)
    ensures AsSealed(before, after, live)
  {
    forall i | 0 <= i < |live|
      ensures SameFile(before, after, live[i].number)
    {
      assert SealedPart(c, before, parts, live[i]) && Intact(c, after, live[i]);
    }
  }

  function Max(a: int, b: int): int { if a > b then a else b }

  predicate Bounded(live: seq<Entry>, max: int)
  {
    forall i :: 0 <= i < |live| ==> live[i].snapshots <= Max(1, max)
  }

  /** What the manifest, rewritten whole at each commit, always satisfies. */
  ghost predicate ManifestOk(c: Codec, disk: Disk, parts: Parts, files: seq<Entry>, number: nat, root: Option<Hash>, max: int)
  {
    && InOrder(files) && Linked(Live(files)) && AllSealed(c, disk, parts, Live(files)) && Bounded(Live(files), max)
    && root == LastRoot(Live(files)) && number == LastNumber(Live(files))
  }

  predicate SameFile(a: Disk, b: Disk, number: nat)
  {
    (number in a <==> number in b) && (number in a ==> a[number] == b[number])
  }

  predicate SamePart(a: Parts, b: Parts, number: nat)
  {
    (number in a <==> number in b) && (number in a ==> a[number] == b[number])
  }

  lemma {:induction false} CommittedSame(a: Parts, b: Parts, live: seq<Entry>, number: nat)
    requires Below(live, number + 1) && forall n: nat :: n <= number ==> SamePart(a, b, n)
    ensures Committed(a, live) == Committed(b, live)
  {
    if live != [] {
      var n := |live| - 1;
      assert forall i :: 0 <= i < n ==> live[..n][i] == live[i];
      CommittedSame(a, b, live[..n], number);
      assert SamePart(a, b, live[n].number);
    }
  }

  /** Whatever happens to files behind the last live part leaves the manifest as good as it was. */
  lemma Outside(c: Codec, disk: Disk, disk': Disk, parts: Parts, parts': Parts, files: seq<Entry>, number: nat,
                root: Option<Hash>, max: int)
    requires ManifestOk(c, disk, parts, files, number, root, max)
    requires forall n: nat :: n <= number ==> SameFile(disk, disk', n) && SamePart(parts, parts', n)
    ensures ManifestOk(c, disk', parts', files, number, root, max)
    ensures Committed(parts', Live(files)) == Committed(parts, Live(files))
    ensures Below(Live(files), number + 1)
  {
    hide Linked, Live, InOrder, Bounded, LastRoot, LastNumber, Committed;
    var live := Live(files);
    LinkedBelow(live, number + 1);
    CommittedSame(parts, parts', live, number);
    forall i | 0 <= i < |live|
      ensures SealedPart(c, disk', parts', live[i])
    {
      assert SealedPart(c, disk, parts, live[i]);
      assert SameFile(disk, disk', live[i].number) && SamePart(parts, parts', live[i].number);
    }
  }

  /** Committing a part appends one link and the part's snapshots. */
  lemma Commit(c: Codec, disk: Disk, parts: Parts, files: seq<Entry>, number: nat, root: Option<Hash>, max: int,
               part: seq<Snapshot>)
      returns (entry: Entry)
    requires CodecOk(c) && ManifestOk(c, disk, parts, files, number, root, max) && part != [] && |part| <= Max(1, max)
    ensures var bytes := c.encode(number + 1, part);
            var disk' := disk[number + 1 := bytes];
            var parts' := parts[number + 1 := part];
            && c.root(bytes).Some?
            && entry == Entry(number + 1, |part|, SeedAfter(root), c.root(bytes).value, c.sha(bytes), false)
            && ManifestOk(c, disk', parts', Insert(files, entry), number + 1, Some(entry.endRoot), max)
            && Live(Insert(files, entry)) == Live(files) + [entry]
            && Committed(parts', Live(files) + [entry]) == Committed(parts, Live(files)) + part
  {
    hide *;
    var bytes := c.encode(number + 1, part);
    var disk', parts' := disk[number + 1 := bytes], parts[number + 1 := part];
    entry := SealNew(c, disk', parts', number + 1, SeedAfter(root), part);
    Untouched(disk, disk', parts, parts', number);
    Outside(c, disk, disk', parts, parts', files, number, root, max);
    ManifestParts(c, disk', parts', files, number, root, max);
    var live := Live(files);
    CommitLive(c, disk', parts', live, entry, max);
    CommitFiles(files, entry);
    ManifestIntro(c, disk', parts', Insert(files, entry), max);
  }

  lemma Untouched(disk: Disk, disk': Disk, parts: Parts, parts': Parts, number: nat)
    requires disk' == disk[number + 1 := if number + 1 in disk' then disk'[number + 1] else []]
    requires parts' == parts[number + 1 := if number + 1 in parts' then parts'[number + 1] else []]
    ensures forall n: nat :: n <= number ==> SameFile(disk, disk', n) && SamePart(parts, parts', n)
  {
  }

  lemma ManifestParts(c: Codec, disk: Disk, parts: Parts, files: seq<Entry>, number: nat, root: Option<Hash>, max: int)
    requires ManifestOk(c, disk, parts, files, number, root, max)
    ensures InOrder(files) && Linked(Live(files)) && AllSealed(c, disk, parts, Live(files)) && Bounded(Live(files), max)
    ensures root == LastRoot(Live(files)) && number == LastNumber(Live(files))
  {
  }

  lemma ManifestIntro(c: Codec, disk: Disk, parts: Parts, files: seq<Entry>, max: int)
    requires InOrder(files) && Linked(Live(files)) && AllSealed(c, disk, parts, Live(files)) && Bounded(Live(files), max)
    ensures ManifestOk(c, disk, parts, files, LastNumber(Live(files)), LastRoot(Live(files)), max)
  {
  }

  /** The entry goes to the end of the live parts and links to them. */
  lemma CommitFiles(files: seq<Entry>, entry: Entry)
    requires InOrder(files) && Linked(Live(files)) && !entry.orphaned
    requires entry.number == LastNumber(Live(files)) + 1 && entry.startSeed == SeedAfter(LastRoot(Live(files)))
    ensures InOrder(Insert(files, entry)) && Linked(Live(Insert(files, entry)))
    ensures Live(Insert(files, entry)) == Live(files) + [entry]
  {
    LinkedBelow(Live(files), entry.number);
    LinkedSnoc(Live(files), entry);
    hide Live, Linked, InOrder, Insert, Below;
    InsertLive(files, entry);
    InsertBound(files, entry);
  }

  lemma CommitLive(c: Codec, disk: Disk, parts: Parts, live: seq<Entry>, entry: Entry, max: int)
    requires AllSealed(c, disk, parts, live) && SealedPart(c, disk, parts, entry) && Bounded(live, max)
    requires entry.snapshots <= Max(1, max)
    ensures var more := live + [entry];
            && AllSealed(c, disk, parts, more) && Bounded(more, max)
            && LastRoot(more) == Some(entry.endRoot) && LastNumber(more) == entry.number
            && Committed(parts, more) == Committed(parts, live) + parts[entry.number]
  {
    hide Intact;
    assert (live + [entry])[..|live|] == live;
  }

  lemma SealNew(c: Codec, disk: Disk, parts: Parts, number: nat, seed: Hash, part: seq<Snapshot>) returns (entry: Entry)
    requires CodecOk(c) && part != [] && number in disk && disk[number] == c.encode(number, part)
    requires number in parts && parts[number] == part
    ensures c.root(disk[number]).Some?
    ensures entry == Entry(number, |part|, seed, c.root(disk[number]).value, c.sha(disk[number]), false)
    ensures SealedPart(c, disk, parts, entry)
  {
    entry := Entry(number, |part|, seed, c.root(disk[number]).value, c.sha(disk[number]), false);
  }

  lemma InsertBound(files: seq<Entry>, e: Entry)
    requires InOrder(files)
    ensures InOrder(Insert(files, e))
  {
    InsertInOrder(files, e, if files == [] || files[|files| - 1].number < e.number then e.number
                            else files[|files| - 1].number);
  }

  /** The manifest after a resume: what it keeps is sealed as it was, and it keeps the whole prefix in front of
      the damage when the chain has no loop. */
  lemma ResumeManifest(c: Codec, before: Disk, disk: Disk, parts: Parts, files: seq<Entry>, number: nat,
                       root: Option<Hash>, max: int)
    requires ManifestOk(c, before, parts, files, number, root, max) && NoCollision(c, before, disk, Live(files))
    ensures var s := ScanFiles(c, disk, files);
            var after := Resumed(c, disk, files);
            && ManifestOk(c, disk, parts, after, s.number, s.root, max)
            && Live(after) == Kept(c, disk, Live(files))
            && (NoLoop(Live(files)) ==> Live(after) == Live(files)[..FirstDamaged(c, disk, Live(files))])
  {
    hide Live, Linked, AllSealed, AllIntact, InOrder, ScanFiles, LastRoot, LastNumber, NoLoop, Kept, NoCollision, Resumed;
    ResumeKeeps(c, disk, files);
    ResumeIsKept(c, disk, files);
    var after := Resumed(c, disk, files);
    SurvivorsUnchanged(c, before, disk, parts, Live(files), Live(after));
    if NoLoop(Live(files)) {
      LoopFreeKeepsPrefix(c, disk, Live(files));
    }
  }

  // ---- the encoder --------------------------------------------------------

  /** Where a session stands: manifest, disk, what was handed in part by part, and the open part. */
  datatype Standing = Standing(files: seq<Entry>, disk: Disk, parts: Parts, number: nat, seed: Hash, part: seq<Snapshot>)

  function EntryFor(c: Codec, number: nat, seed: Hash, part: seq<Snapshot>): Entry
  {
    var bytes := c.encode(number, part);
    Entry(number, |part|, seed, if c.root(bytes).Some? then c.root(bytes).value else Zero(), c.sha(bytes), false)
  }

  /** The open part sealed, hashed and entered; the file of an empty one is removed. */
  function Finalized(c: Codec, s: Standing): Standing
  {
    if s.part == [] then s.(disk := s.disk - {s.number})
    else
      var e := EntryFor(c, s.number, s.seed, s.part);
      Standing(Insert(s.files, e), s.disk[s.number := c.encode(s.number, s.part)], s.parts[s.number := s.part], s.number,
               e.endRoot, [])
  }

  /** And the next part opened. An empty part stays open. */
  function Rotated(c: Codec, s: Standing): Standing
  {
    if s.part == [] then s
    else
      var f := Finalized(c, s);
      f.(disk := f.disk[s.number + 1 := []], number := s.number + 1)
  }

  lemma RotatedEmpty(c: Codec, s: Standing)
    ensures s.part == [] ==> Rotated(c, s) == s
  {
  }

  class GICSv2RotatingEncoder {
    const c: Codec
    const flushEverySnapshots: int
    const maxSnapshotsPerFile: int
    var files: seq<Entry>
    var lastCommittedSeq: nat
    var lastRootHash: Option<Hash>
    var disk: Disk
    var open: bool
    var currentSeq: nat
    var currentSeedHash: Hash
    var part: seq<Snapshot>
    var bufferedSnapshots: nat
    var closed: bool
    ghost var parts: Parts

    ghost predicate Good()
      reads this
    {
      && CodecOk(c) && ManifestOk(c, disk, parts, files, lastCommittedSeq, lastRootHash, maxSnapshotsPerFile)
      && currentSeedHash == SeedAfter(lastRootHash)
    }

    /** Between calls: a part is open, its number is the next one, and it is not full. */
    ghost predicate Valid()
      reads this
    {
      && Good() && open == !closed
      && (open ==> currentSeq == lastCommittedSeq + 1 && (part == [] || |part| < maxSnapshotsPerFile))
      && (closed ==> part == [])
    }

    /** Everything handed in and not lost: the committed parts, then the current one. */
    ghost function Content(): seq<Snapshot>
      reads this
    {
      Committed(parts, Live(files)) + part
    }

    ghost function Now(): Standing
      reads this
    {
      Standing(files, disk, parts, currentSeq, currentSeedHash, part)
    }

    constructor Create(c: Codec, flushEvery: int, maxSnapshots: int)
      requires CodecOk(c)
      ensures Valid() && !closed && Content() == [] && this.c == c
      ensures flushEverySnapshots == flushEvery && maxSnapshotsPerFile == maxSnapshots && bufferedSnapshots == 0
      ensures Now() == Begun()
    {
      this.c, flushEverySnapshots, maxSnapshotsPerFile := c, flushEvery, maxSnapshots;
      files, lastCommittedSeq, lastRootHash := [], 0, None;
      currentSeedHash, closed := Zero(), false;
      open, currentSeq, part, bufferedSnapshots := true, 1, [], 0;
      disk, parts := map[1 := []], map[];
    }

    /** resumeSession on the manifest a crash left and whatever disk it left; `before` is the disk as the
        session last had it. */
    constructor ResumeSession(c: Codec, flushEvery: int, maxSnapshots: int, files: seq<Entry>, disk: Disk,
                              ghost before: Disk, ghost parts: Parts, ghost number: nat, ghost root: Option<Hash>)
      requires CodecOk(c) && ManifestOk(c, before, parts, files, number, root, maxSnapshots)
      requires NoCollision(c, before, disk, Live(files))
      ensures Valid() && !closed && part == [] && this.c == c && this.parts == parts
      ensures this.files == Resumed(c, disk, files) && Live(this.files) == Kept(c, disk, Live(files))
      ensures Content() == Committed(parts, Kept(c, disk, Live(files)))
      ensures NoLoop(Live(files)) ==> Live(this.files) == Live(files)[..FirstDamaged(c, disk, Live(files))]
      ensures currentSeq == LastNumber(Live(this.files)) + 1
    {
      hide AllSealed, Linked, Live, CodecOk, InOrder, Committed, ScanFiles, NoLoop, Kept, NoCollision;
      this.c, flushEverySnapshots, maxSnapshotsPerFile := c, flushEvery, maxSnapshots;
      var s := ScanFiles(c, disk, files);
      var after := if s.broken then OrphanBeyond(s.files, s.number) else s.files;
      this.files, lastCommittedSeq, lastRootHash := after, s.number, s.root;
      currentSeedHash, closed := SeedAfter(s.root), false;
      open, currentSeq, part, bufferedSnapshots := true, s.number + 1, [], 0;
      this.disk, this.parts := disk[s.number + 1 := []], parts;
      new;
      ResumeManifest(c, before, disk, parts, files, number, root, maxSnapshots);
      Outside(c, disk, this.disk, parts, parts, after, s.number, s.root, maxSnapshots);
    }

    /** `pressure`: bytes, segments, age or the adaptive breaches give a reason to rotate. */
    method AddSnapshot(snapshot: Snapshot, pressure: bool)
      requires Valid() && !closed
      modifies this
      ensures Valid() && !closed && Content() == old(Content()) + [snapshot]
      ensures Live(old(files)) <= Live(files)
      ensures var s := old(Now()).(part := old(part) + [snapshot]);
              var flushed := old(bufferedSnapshots) + 1 >= flushEverySnapshots || |s.part| >= maxSnapshotsPerFile;
              && bufferedSnapshots == (if flushed then 0 else old(bufferedSnapshots) + 1)
              && Now() == if flushed && (pressure || |s.part| >= maxSnapshotsPerFile) then Rotated(c, s) else s
    {
      hide AllSealed, Linked, Live, CodecOk, InOrder, Committed, ManifestOk, Rotated;
      part := part + [snapshot];
      bufferedSnapshots := bufferedSnapshots + 1;
      assert Content() == old(Content()) + [snapshot];
      if bufferedSnapshots >= flushEverySnapshots {
        FlushAndEvaluate(pressure);
        return;
      }
      if |part| >= maxSnapshotsPerFile {
        FlushAndEvaluate(pressure);
      }
    }

    method FlushAndEvaluate(pressure: bool)
      requires Good() && open && !closed && currentSeq == lastCommittedSeq + 1 && |part| <= Max(1, maxSnapshotsPerFile)
      modifies this
      ensures Valid() && !closed && Content() == old(Content()) && bufferedSnapshots == 0
      ensures Now() == if pressure || old(|part|) >= maxSnapshotsPerFile then Rotated(c, old(Now())) else old(Now())
      ensures Live(old(files)) <= Live(files)
    {
      hide AllSealed, Linked, Live, CodecOk, InOrder, Committed, ManifestOk, Finalized;
      bufferedSnapshots := 0;
      if pressure || |part| >= maxSnapshotsPerFile {
        Rotate();
      }
    }

    method Rotate()
      requires Good() && open && !closed && currentSeq == lastCommittedSeq + 1 && |part| <= Max(1, maxSnapshotsPerFile)
      modifies this
      ensures Valid() && !closed && Now() == Rotated(c, old(Now())) && Content() == old(Content()) && bufferedSnapshots == 0
      ensures Live(old(files)) <= Live(files)
    {
      hide AllSealed, Linked, Live, CodecOk, InOrder, Committed, ManifestOk, Finalized;
      bufferedSnapshots := 0;
      if |part| == 0 {
        return;
      }
      FinalizeCurrentPart();
      OpenNewPart(currentSeq + 1);
    }

    /** finalizeCurrentPart: an empty part is unlinked, any other is sealed, entered and persisted. */
    method FinalizeCurrentPart()
      requires Good() && open && currentSeq == lastCommittedSeq + 1 && |part| <= Max(1, maxSnapshotsPerFile)
      modifies this`files, this`lastCommittedSeq, this`lastRootHash, this`disk, this`open, this`currentSeedHash, this`part,
               this`parts
      ensures Good() && !open && part == [] && Content() == old(Content())
      ensures old(part) == [] ==> files == old(files) && lastCommittedSeq == old(lastCommittedSeq)
      ensures old(part) != [] ==> lastCommittedSeq == currentSeq && |Live(files)| == |Live(old(files))| + 1
      ensures Now() == Finalized(c, old(Now()))
      ensures Live(old(files)) <= Live(files)
    {
      hide AllSealed, Linked, Live, InOrder, Committed, ManifestOk, Insert;
      if |part| == 0 {
        Outside(c, disk, disk - {currentSeq}, parts, parts, files, lastCommittedSeq, lastRootHash, maxSnapshotsPerFile);
        open, disk := false, disk - {currentSeq};
        return;
      }
      var bytes := c.encode(currentSeq, part);
      ghost var expected := Commit(c, disk, parts, files, lastCommittedSeq, lastRootHash, maxSnapshotsPerFile, part);
      hide CodecOk;
      var entry := Entry(currentSeq, |part|, currentSeedHash, c.root(bytes).value, c.sha(bytes), false);
      assert entry == expected;
      ghost var all := Content();
      assert Committed(parts[currentSeq := part], Live(Insert(files, entry))) + [] == all;
      disk, parts := disk[currentSeq := bytes], parts[currentSeq := part];
      open := false;
      part := [];
      files := Insert(files, entry);
      lastCommittedSeq := entry.number;
      lastRootHash := Some(entry.endRoot);
      currentSeedHash := entry.endRoot;
    }

    /** openNewPart truncates the file it opens; no live part is ever in that file. */
    method OpenNewPart(number: nat)
      requires Good() && !closed && number == lastCommittedSeq + 1
      modifies this`disk, this`open, this`currentSeq, this`part, this`bufferedSnapshots
      ensures Valid() && part == [] && currentSeq == number && Below(Live(files), number) && bufferedSnapshots == 0
      ensures Committed(parts, Live(files)) == old(Committed(parts, Live(files)))
      ensures disk == old(disk)[number := []]
    {
      hide AllSealed, Linked, Live, CodecOk, InOrder, ManifestOk, Committed;
      Outside(c, disk, disk[number := []], parts, parts, files, lastCommittedSeq, lastRootHash, maxSnapshotsPerFile);
      disk := disk[number := []];
      open, currentSeq, part, bufferedSnapshots := true, number, [], 0;
    }

    method Flush(pressure: bool)
      requires Valid() && !closed
      modifies this
      ensures Valid() && !closed && Content() == old(Content())
      ensures Now() == if pressure then Rotated(c, old(Now())) else old(Now())
    {
      hide ManifestOk, Committed, Live, CodecOk, Rotated;
      assert pressure || |part| < maxSnapshotsPerFile || part == [];
      RotatedEmpty(c, Now());
      FlushAndEvaluate(pressure);
    }

    method RotateNow()
      requires Valid() && !closed
      modifies this
      ensures Valid() && !closed && Now() == Rotated(c, old(Now())) && Content() == old(Content())
    {
      hide ManifestOk, Committed, Live, CodecOk, Rotated;
      Rotate();
    }

    /** After a seal a strict reader gives back every snapshot handed in if and only if each part's file
        verifies and decodes to its part, and answers at all if and only if each verifies and decodes. */
    method Seal()
      requires Valid()
      modifies this
      ensures Valid() && closed && Content() == old(Content()) == Committed(parts, Live(files))
      ensures ReadSession(c, disk, files, lastRootHash) == Ok(Content()) <==> AllRead(c, parts, Live(files))
      ensures ReadSession(c, disk, files, lastRootHash).Ok? <==> AllAnswer(c, parts, Live(files))
      ensures Now() == if old(closed) then old(Now()) else Finalized(c, old(Now()))
    {
      hide Finalized, Linked, Live, CodecOk, AllSealed, InOrder, Bounded, ReadLive, ValidateLive, Committed, ReadSession,
           AllRead, AllAnswer;
      if !closed {
        bufferedSnapshots := 0;
        FinalizeCurrentPart();
        closed := true;
      }
      ReaderExact(c, disk, parts, files);
      assert Committed(parts, Live(files)) + [] == Committed(parts, Live(files));
    }
  }

  // ---- runs part by part --------------------------------------------------

  function Begun(): Standing { Standing([], map[1 := []], map[], 1, Zero(), []) }

  /** A session that was handed the parts one after the other. */
  function PartByPart(c: Codec, contents: seq<seq<Snapshot>>): Standing
  {
    if contents == [] then Begun()
    else
      var n := |contents| - 1;
      Rotated(c, PartByPart(c, contents[..n]).(part := contents[n]))
  }

  /** A committed part for each, in order, under the numbers from 1 on. */
  ghost predicate StandingOk(c: Codec, s: Standing, contents: seq<seq<Snapshot>>, max: int)
  {
    && s.part == [] && s.number == |contents| + 1 && s.seed == SeedAfter(LastRoot(Live(s.files)))
    && ManifestOk(c, s.disk, s.parts, s.files, |contents|, LastRoot(Live(s.files)), max)
    && Numbered(s.parts, Live(s.files), contents)
  }

  ghost predicate Numbered(parts: Parts, live: seq<Entry>, contents: seq<seq<Snapshot>>)
  {
    && |live| == |contents|
    && forall i :: 0 <= i < |live| ==> live[i].number == i + 1 && i + 1 in parts && parts[i + 1] == contents[i]
  }

  predicate PartsWithin(contents: seq<seq<Snapshot>>, max: int)
  {
    forall i :: 0 <= i < |contents| ==> contents[i] != [] && |contents[i]| <= Max(1, max)
  }

  lemma NumberedSnoc(parts: Parts, live: seq<Entry>, contents: seq<seq<Snapshot>>, e: Entry, part: seq<Snapshot>)
    requires Numbered(parts, live, contents) && e.number == |contents| + 1
    ensures Numbered(parts[e.number := part], live + [e], contents + [part])
  {
  }

  lemma RotatedOk(c: Codec, s: Standing, contents: seq<seq<Snapshot>>, part: seq<Snapshot>, max: int)
    requires CodecOk(c) && StandingOk(c, s, contents, max) && part != [] && |part| <= Max(1, max)
    ensures StandingOk(c, Rotated(c, s.(part := part)), contents + [part], max)
  {
    hide ManifestOk, Live, LastRoot, Committed, Insert, Numbered;
    var n := |contents|;
    var entry := Commit(c, s.disk, s.parts, s.files, n, LastRoot(Live(s.files)), max, part);
    hide CodecOk;
    assert entry == EntryFor(c, n + 1, s.seed, part);
    var f := Finalized(c, s.(part := part));
    var r := Rotated(c, s.(part := part));
    Outside(c, f.disk, r.disk, f.parts, r.parts, f.files, n + 1, Some(entry.endRoot), max);
    ManifestRoot(c, r.disk, r.parts, r.files, n + 1, Some(entry.endRoot), max);
    NumberedSnoc(s.parts, Live(s.files), contents, entry, part);
  }

  lemma ManifestRoot(c: Codec, disk: Disk, parts: Parts, files: seq<Entry>, number: nat, root: Option<Hash>, max: int)
    requires ManifestOk(c, disk, parts, files, number, root, max)
    ensures root == LastRoot(Live(files))
  {
  }

  lemma {:induction false} PartByPartOk(c: Codec, contents: seq<seq<Snapshot>>, max: int)
    requires CodecOk(c) && PartsWithin(contents, max)
    ensures StandingOk(c, PartByPart(c, contents), contents, max)
  {
    hide CodecOk, Rotated;
    if contents == [] {
      BegunOk(c, max);
    } else {
      hide StandingOk;
      var n := |contents| - 1;
      PartByPartOk(c, contents[..n], max);
      assert contents[..n] + [contents[n]] == contents;
      RotatedOk(c, PartByPart(c, contents[..n]), contents[..n], contents[n], max);
    }
  }

  lemma StandingParts(c: Codec, s: Standing, contents: seq<seq<Snapshot>>, max: int)
    requires StandingOk(c, s, contents, max)
    ensures ManifestOk(c, s.disk, s.parts, s.files, |contents|, LastRoot(Live(s.files)), max)
    ensures Numbered(s.parts, Live(s.files), contents)
  {
  }

  lemma BegunOk(c: Codec, max: int)
    ensures StandingOk(c, Begun(), [], max)
  {
    EmptyLive();
    EmptyManifest(c, max);
    hide Live, ManifestOk;
  }

  lemma EmptyManifest(c: Codec, max: int)
    ensures ManifestOk(c, Begun().disk, Begun().parts, [], 0, None, max)
  {
    EmptyLive();
    assert Linked([]);
    hide Live, Linked;
  }

  // ---- a run that loses the middle ----------------------------------------

  /** Three full parts of one snapshot each. */
  lemma ThreeParts(c: Codec, snapshot: Snapshot, s0: Standing) returns (a: Entry, b: Entry, d: Entry)
    requires s0 == Begun()
    ensures a == EntryFor(c, 1, Zero(), [snapshot])
    ensures b == EntryFor(c, 2, a.endRoot, [snapshot]) && d == EntryFor(c, 3, b.endRoot, [snapshot])
    ensures var s1 := Rotated(c, s0.(part := [snapshot]));
            var s2 := Rotated(c, s1.(part := [snapshot]));
            var s3 := Rotated(c, s2.(part := [snapshot]));
            && s1.part == s2.part == s3.part == [] && s3.files == [a, b, d] && 1 in s3.parts && 3 in s3.parts
            && s3.parts[1] == s3.parts[3] == [snapshot]
  {
    hide EntryFor;
    a := EntryFor(c, 1, Zero(), [snapshot]);
    b := EntryFor(c, 2, a.endRoot, [snapshot]);
    d := EntryFor(c, 3, b.endRoot, [snapshot]);
    EntryNumber(c, 1, Zero(), [snapshot]);
    EntryNumber(c, 2, a.endRoot, [snapshot]);
    EntryNumber(c, 3, b.endRoot, [snapshot]);
    assert Insert([], a) == [a];
    assert Insert([a], b) == [a, b];
    assert Insert([a, b], d) == [a, b, d];
  }

  lemma EntryNumber(c: Codec, number: nat, seed: Hash, part: seq<Snapshot>)
    ensures var e := EntryFor(c, number, seed, part); e.number == number && !e.orphaned && e.startSeed == seed
    ensures c.root(c.encode(number, part)) == Some(EntryFor(c, number, seed, part).endRoot)
         || c.root(c.encode(number, part)) == None
  {
  }

  lemma EqualRoots(c: Codec, snapshot: Snapshot, a: Entry, b: Entry, d: Entry)
    requires CodecOk(c) && c.root(c.encode(1, [snapshot])) == c.root(c.encode(2, [snapshot]))
    requires a == EntryFor(c, 1, Zero(), [snapshot])
    requires b == EntryFor(c, 2, a.endRoot, [snapshot]) && d == EntryFor(c, 3, b.endRoot, [snapshot])
    ensures a.number == 1 && b.number == 2 && d.number == 3 && !a.orphaned && !b.orphaned && !d.orphaned
    ensures a.startSeed == Zero() && b.startSeed == a.endRoot == b.endRoot == d.startSeed
  {
  }

  /** Parts of one root close a loop of the chain: a damaged part can vanish. */
  lemma LoopOfThree(c: Codec, snapshot: Snapshot)
    requires CodecOk(c) && c.root(c.encode(1, [snapshot])) == c.root(c.encode(2, [snapshot]))
    ensures !NoLoop(Live(PartByPart(c, [[snapshot], [snapshot], [snapshot]]).files))
  {
    hide CodecOk, EntryFor, Live, Rotated;
    var a, b, d := ThreeParts(c, snapshot, Begun());
    EqualRoots(c, snapshot, a, b, d);
    LiveThree(a, b, d);
    ThreeByPart(c, [snapshot]);
    var live := [a, b, d];
    assert live[1].endRoot == live[1].startSeed;
  }

  lemma ThreeByPart(c: Codec, part: seq<Snapshot>)
    ensures PartByPart(c, [part, part, part])
         == Rotated(c, Rotated(c, Rotated(c, Begun().(part := part)).(part := part)).(part := part))
  {
    hide Rotated;
    assert [part, part, part][..2] == [part, part] && [part, part][..1] == [part] && [part][..0] == [];
    assert PartByPart(c, [part]) == Rotated(c, Begun().(part := part));
    assert PartByPart(c, [part, part]) == Rotated(c, PartByPart(c, [part]).(part := part));
  }

  lemma CommittedTwo(parts: Parts, a: Entry, d: Entry)
    requires a.number in parts && d.number in parts
    ensures Committed(parts, [a, d]) == parts[a.number] + parts[d.number]
  {
    assert [a, d][..1] == [a] && [a][..0] == [];
    assert Committed(parts, []) == [];
    assert [] + parts[a.number] == parts[a.number];
  }

  lemma ThreeAreIntact(c: Codec, disk: Disk, parts: Parts, files: seq<Entry>, number: nat, root: Option<Hash>, max: int,
                       a: Entry, b: Entry, d: Entry)
    requires ManifestOk(c, disk, parts, files, number, root, max) && files == [a, b, d]
    requires !a.orphaned && !b.orphaned && !d.orphaned && b.number != a.number && b.number != d.number
    ensures var lost := disk - {b.number};
            && Intact(c, lost, a) && !Intact(c, lost, b) && Intact(c, lost, d) && NoCollision(c, disk, lost, Live(files))
  {
    LiveThree(a, b, d);
    ManifestParts(c, disk, parts, files, number, root, max);
    hide Linked, Live, InOrder, Bounded;
    assert SealedPart(c, disk, parts, Live(files)[0]) && SealedPart(c, disk, parts, Live(files)[2]);
  }

  /** A run: the same snapshot three times, one to a part, in files of one root. The middle file is lost, and the
      session resumed after it holds the first part and the third. */
  method LoseMiddle(c: Codec, snapshot: Snapshot) returns (sealed: seq<Entry>, resumed: GICSv2RotatingEncoder)
    requires CodecOk(c)
    requires c.root(c.encode(1, [snapshot])) == c.root(c.encode(2, [snapshot]))
    ensures |sealed| == 3 && Linked(Live(sealed)) && Live(sealed) == sealed
    ensures fresh(resumed) && resumed.Valid() && Live(resumed.files) == [sealed[0], sealed[2]]
    ensures resumed.Content() == [snapshot, snapshot]
  {
    hide AllSealed, Linked, Live, CodecOk, InOrder, Committed, ManifestOk, Rotated, EntryFor, Intact, NoCollision, Kept, Resumed,
         AllRead, AllAnswer, ReadSession, NoLoop, FirstDamaged;
    var session := new GICSv2RotatingEncoder.Create(c, 1, 1);
    ghost var s0 := session.Now();
    ghost var a, b, d := ThreeParts(c, snapshot, s0);
    assert [] + [snapshot] == [snapshot];
    session.AddSnapshot(snapshot, false);
    ghost var s1 := Rotated(c, s0.(part := [snapshot]));
    assert session.Now() == s1;
    session.AddSnapshot(snapshot, false);
    ghost var s2 := Rotated(c, s1.(part := [snapshot]));
    assert session.Now() == s2;
    session.AddSnapshot(snapshot, false);
    ghost var s3 := Rotated(c, s2.(part := [snapshot]));
    assert session.Now() == s3;
    session.Seal();
    assert session.files == s3.files == [a, b, d] && session.parts == s3.parts;
    sealed := session.files;
    ghost var disk, parts := session.disk, session.parts;
    EqualRoots(c, snapshot, a, b, d);
    LiveThree(a, b, d);
    ThreeAreIntact(c, disk, parts, sealed, session.lastCommittedSeq, session.lastRootHash, 1, a, b, d);
    resumed := new GICSv2RotatingEncoder.ResumeSession(c, 1, 1, sealed, session.disk - {2}, disk, parts,
                                                       session.lastCommittedSeq, session.lastRootHash);
    EqualPartsHideDamage(c, session.disk - {2}, a, b, d);
    CommittedTwo(parts, a, d);
  }
}
