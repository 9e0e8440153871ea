/** The write-ahead log (src/daemon/wal.ts) over its entries: LSNs, atomic batches, checkpoints,
    compaction, replay and restart. The bytes of an entry are in WalFraming. */
module Wal {
  import opened Bytes

  /** A number as its IEEE-754 pattern. JSON carries the finite ones but a negative zero. */
  type Double = p: nat | p < 0x1_0000_0000_0000_0000 && (p / 0x10_0000_0000_0000) % 0x800 != 0x7FF
                         && p != 0x8000_0000_0000_0000 witness 0

  datatype Scalar = Number(value: Double) | Text(text: string)
  type Record = map<string, Scalar>
  type Table = map<string, Record>

  datatype Op = Put(key: string, payload: Record) | Delete(key: string)

  /** One entry of the file: a batch holds several operations under one LSN. */
  datatype Entry = Entry(lsn: nat, ops: seq<Op>)

  datatype Stored = Stored(lsn: nat, payload: Record)
  type StateMap = map<string, Stored>

  datatype Checkpoint = Checkpoint(lsn: nat, state: Table)

  // ---- what the operations mean -------------------------------------------

  function Apply(t: Table, op: Op): Table
  {
    match op
    case Put(key, payload) => t[key := payload]
    case Delete(key) => t - {key}
  }

  /** The plain fold every replay has to agree with. */
  function Fold(t: Table, ops: seq<Op>): Table
  {
    if ops == [] then t else Apply(Fold(t, ops[..|ops| - 1]), ops[|ops| - 1])
  }

  lemma {:induction false} FoldAppend(t: Table, a: seq<Op>, b: seq<Op>)
    ensures Fold(t, a + b) == Fold(Fold(t, a), b)
  {
    if b == [] {
      assert a + b == a;
    } else {
      var n := |b| - 1;
      FoldAppend(t, a, b[..n]);
      assert (a + b)[..|a + b| - 1] == a + b[..n];
    }
  }

  // ---- what the provider keeps --------------------------------------------

  function Store(s: StateMap, op: Op, lsn: nat): StateMap
  {
    match op
    case Put(key, payload) => s[key := Stored(lsn, payload)]
    case Delete(key) => s - {key}
  }

  function StoreAll(s: StateMap, ops: seq<Op>, lsn: nat): StateMap
  {
    if ops == [] then s else Store(StoreAll(s, ops[..|ops| - 1], lsn), ops[|ops| - 1], lsn)
  }

  /** loadStateFromWal */
  function StateOf(file: seq<Entry>): StateMap
  {
    if file == [] then map[]
    else var last := file[|file| - 1]; StoreAll(StateOf(file[..|file| - 1]), last.ops, last.lsn)
  }

  function Plain(s: StateMap): Table { map k | k in s :: s[k].payload }

  function MaxLsn(file: seq<Entry>): (m: nat)
    ensures forall i :: 0 <= i < |file| ==> file[i].lsn <= m
  {
    if file == [] then 0
    else var m := MaxLsn(file[..|file| - 1]); if file[|file| - 1].lsn > m then file[|file| - 1].lsn else m
  }

  lemma MaxLsnBound(file: seq<Entry>, bound: nat)
    requires forall i :: 0 <= i < |file| ==> file[i].lsn <= bound
    ensures MaxLsn(file) <= bound
  {
  }

  /** replayTail from a table: the entries beyond an LSN. */
  function Tail(t: Table, file: seq<Entry>, after: nat): Table
  {
    if file == [] then t
    else
      var rest := Tail(t, file[..|file| - 1], after);
      if file[|file| - 1].lsn <= after then rest else Fold(rest, file[|file| - 1].ops)
  }

  lemma {:induction false} PlainStoreAll(s: StateMap, ops: seq<Op>, lsn: nat)
    ensures Plain(StoreAll(s, ops, lsn)) == Fold(Plain(s), ops)
  {
    if ops != [] {
      PlainStoreAll(s, ops[..|ops| - 1], lsn);
    }
  }

  lemma {:induction false} TailSkipsAll(t: Table, file: seq<Entry>, after: nat)
    requires forall i :: 0 <= i < |file| ==> file[i].lsn <= after
    ensures Tail(t, file, after) == t
  {
    if file != [] {
      TailSkipsAll(t, file[..|file| - 1], after);
    }
  }

  /** Without a checkpoint the whole file is replayed. */
  lemma {:induction false} TailOfAll(file: seq<Entry>)
    requires forall i :: 0 <= i < |file| ==> file[i].lsn > 0
    ensures Tail(map[], file, 0) == Plain(StateOf(file))
  {
    if file != [] {
      var front, last := file[..|file| - 1], file[|file| - 1];
      TailOfAll(front);
      PlainStoreAll(StateOf(front), last.ops, last.lsn);
    }
  }

  lemma TailSnoc(t: Table, file: seq<Entry>, e: Entry, after: nat)
    ensures Tail(t, file + [e], after)
         == if e.lsn <= after then Tail(t, file, after) else Fold(Tail(t, file, after), e.ops)
  {
    assert (file + [e])[..|file|] == file;
  }

  // ---- compaction ---------------------------------------------------------

  predicate Covers(order: seq<string>, s: StateMap)
  {
    && (forall i :: 0 <= i < |order| ==> order[i] in s)
    && (forall i, j :: 0 <= i < j < |order| ==> order[i] != order[j])
  }

  /** The entries of a compacted file. */
  function Puts(order: seq<string>, s: StateMap): (file: seq<Entry>)
    requires Covers(order, s)
    ensures |file| == |order|
    ensures forall i :: 0 <= i < |file| ==> file[i] == Entry(s[order[i]].lsn, [Put(order[i], s[order[i]].payload)])
  {
    seq(|order|, i requires 0 <= i < |order| => Entry(s[order[i]].lsn, [Put(order[i], s[order[i]].payload)]))
  }

  lemma PutsFront(order: seq<string>, s: StateMap)
    requires Covers(order, s) && order != []
    ensures var n := |order| - 1;
            Covers(order[..n], s) && Puts(order, s)[..n] == Puts(order[..n], s)
  {
    var n := |order| - 1;
    assert forall i :: 0 <= i < n ==> order[..n][i] == order[i];
    assert Puts(order, s)[..n] == Puts(order[..n], s);
  }

  lemma {:induction false} StateOfPuts(order: seq<string>, s: StateMap)
    requires Covers(order, s)
    ensures StateOf(Puts(order, s)) == map k | k in order :: s[k]
  {
    hide Puts;
    if order != [] {
      var n := |order| - 1;
      PutsFront(order, s);
      StateOfPuts(order[..n], s);
      var last := Puts(order, s)[n];
      var front := StateOf(Puts(order[..n], s));
      assert last.ops == [Put(order[n], s[order[n]].payload)] && last.ops[..0] == [];
      assert StoreAll(front, last.ops[..0], last.lsn) == front;
      assert StoreAll(front, last.ops, last.lsn) == front[order[n] := s[order[n]]];
      assert order == order[..n] + [order[n]];
    }
  }

  lemma {:induction false} TailOfPuts(t: Table, order: seq<string>, s: StateMap, after: nat)
    requires Covers(order, s)
    ensures Tail(t, Puts(order, s), after) == t + Later(order, s, after)
  {
    if order == [] {
      assert t + Later(order, s, after) == t;
    } else {
      var n := |order| - 1;
      PutsFront(order, s);
      var e := Entry(s[order[n]].lsn, [Put(order[n], s[order[n]].payload)]);
      assert Puts(order, s) == Puts(order[..n], s) + [e];
      TailOfPuts(t, order[..n], s, after);
      TailStep(t, Puts(order[..n], s), order[..n], order[n], s, after);
      assert order == order[..n] + [order[n]];
      hide *;
    }
  }

  lemma TailStep(t: Table, file: seq<Entry>, order: seq<string>, key: string, s: StateMap, after: nat)
    requires key in s && (forall i :: 0 <= i < |order| ==> order[i] in s)
    requires Tail(t, file, after) == t + Later(order, s, after)
    ensures Tail(t, file + [Entry(s[key].lsn, [Put(key, s[key].payload)])], after) == t + Later(order + [key], s, after)
  {
    hide *;
    var later := Later(order, s, after);
    TailSnoc(t, file, Entry(s[key].lsn, [Put(key, s[key].payload)]), after);
    OnePut(t + later, key, s[key].payload);
    LaterSnoc(order, key, s, after);
    assert (t + later)[key := s[key].payload] == t + later[key := s[key].payload];
  }

  function Later(order: seq<string>, s: StateMap, after: nat): Table
    requires forall i :: 0 <= i < |order| ==> order[i] in s
  {
    map k | k in order && s[k].lsn > after :: s[k].payload
  }

  lemma LaterSnoc(order: seq<string>, key: string, s: StateMap, after: nat)
    requires key in s && forall i :: 0 <= i < |order| ==> order[i] in s
    ensures Later(order + [key], s, after)
         == if s[key].lsn > after then Later(order, s, after)[key := s[key].payload] else Later(order, s, after)
  {
  }

  lemma OnePut(t: Table, key: string, payload: Record)
    ensures Fold(t, [Put(key, payload)]) == t[key := payload]
  {
    assert [Put(key, payload)][..0] == [] && Fold(t, [Put(key, payload)][..0]) == t;
  }

  /** What the state last wrote at or before the checkpoint is in the checkpoint. */
  predicate Agrees(c: Checkpoint, s: StateMap)
  {
    forall k :: k in s && s[k].lsn <= c.lsn ==> k in c.state && c.state[k] == s[k].payload
  }

  lemma {:induction false} AgreesAfter(c: Checkpoint, s: StateMap, ops: seq<Op>, lsn: nat)
    requires Agrees(c, s) && c.lsn < lsn
    ensures Agrees(c, StoreAll(s, ops, lsn))
  {
    if ops != [] {
      AgreesAfter(c, s, ops[..|ops| - 1], lsn);
    }
  }

  /** Every operation in a stretch of the log. */
  function Flat(es: seq<Entry>): seq<Op>
  {
    if es == [] then [] else Flat(es[..|es| - 1]) + es[|es| - 1].ops
  }

  lemma {:induction false} TailAppended(t: Table, file: seq<Entry>, more: seq<Entry>, after: nat)
    requires forall i :: 0 <= i < |more| ==> more[i].lsn > after
    ensures Tail(t, file + more, after) == Fold(Tail(t, file, after), Flat(more))
  {
    hide Tail, Fold;
    if more == [] {
      assert file + more == file;
      FoldNone(Tail(t, file, after));
    } else {
      var n := |more| - 1;
      assert file + more == file + more[..n] + [more[n]];
      assert forall i :: 0 <= i < n ==> more[..n][i] == more[i];
      TailAppended(t, file, more[..n], after);
      TailSnoc(t, file + more[..n], more[n], after);
      FoldAppend(Tail(t, file, after), Flat(more[..n]), more[n].ops);
    }
  }

  lemma {:induction false} StateAppended(file: seq<Entry>, more: seq<Entry>)
    ensures Plain(StateOf(file + more)) == Fold(Plain(StateOf(file)), Flat(more))
  {
    hide Plain, Fold, StoreAll;
    if more == [] {
      assert file + more == file;
      FoldNone(Plain(StateOf(file)));
    } else {
      var n := |more| - 1;
      var all := file + more;
      assert all[..|all| - 1] == file + more[..n] && all[|all| - 1] == more[n];
      StateAppended(file, more[..n]);
      PlainStoreAll(StateOf(file + more[..n]), more[n].ops, more[n].lsn);
      FoldAppend(Plain(StateOf(file)), Flat(more[..n]), more[n].ops);
    }
  }

  lemma FoldNone(t: Table)
    ensures Fold(t, []) == t
  {
  }

  predicate Touched(ops: seq<Op>, key: string)
  {
    exists i :: 0 <= i < |ops| && ops[i].key == key
  }

  predicate SameAt(a: Table, b: Table, key: string)
  {
    (key in a <==> key in b) && (key in a ==> a[key] == b[key])
  }

  /** Operations overwrite the keys they touch and leave the others. */
  lemma {:induction false} FoldAt(a: Table, b: Table, ops: seq<Op>, key: string)
    ensures SameAt(Fold(a, ops), Fold(b, ops), key) <==> Touched(ops, key) || SameAt(a, b, key)
  {
    if ops != [] {
      var n := |ops| - 1;
      FoldAt(a, b, ops[..n], key);
      assert ops[..n + 1] == ops;
      assert Touched(ops, key) <==> Touched(ops[..n], key) || ops[n].key == key by {
        assert forall i :: 0 <= i < n ==> ops[..n][i] == ops[i];
      }
    }
  }

  /** A checkpoint replayed behind a compaction is the compacted state and its own keys beyond it. */
  lemma OldBehindCompaction(c: Checkpoint, order: seq<string>, s: StateMap, key: string)
    requires Covers(order, s) && (forall k :: k in s ==> k in order) && Agrees(c, s)
    ensures SameAt(Tail(c.state, Puts(order, s), c.lsn), Plain(s), key) <==> key in s || key !in c.state
  {
    TailOfPuts(c.state, order, s, c.lsn);
    hide Tail, Puts;
  }

  /** Falling back behind a compaction: an older checkpoint still replays to the state exactly when each of its
      keys that was deleted before the compaction has been written or deleted again since. */
  lemma OldCheckpointExact(c: Checkpoint, order: seq<string>, s: StateMap, more: seq<Entry>)
    requires Covers(order, s) && (forall k :: k in s ==> k in order) && Agrees(c, s)
    requires forall i :: 0 <= i < |more| ==> more[i].lsn > c.lsn
    ensures Tail(c.state, Puts(order, s) + more, c.lsn) == Plain(StateOf(Puts(order, s) + more))
       <==> forall k :: k in c.state && k !in s ==> Touched(Flat(more), k)
  {
    hide Tail, Fold, StateOf, Plain, Puts, Flat, Touched, Agrees;
    StateOfPuts(order, s);
    assert (map k | k in order :: s[k]) == s;
    TailAppended(c.state, Puts(order, s), more, c.lsn);
    StateAppended(Puts(order, s), more);
    var a, b := Tail(c.state, Puts(order, s), c.lsn), Plain(s);
    forall k
      ensures SameAt(Fold(a, Flat(more)), Fold(b, Flat(more)), k) <==> Touched(Flat(more), k) || k in s || k !in c.state
    {
      FoldAt(a, b, Flat(more), k);
      OldBehindCompaction(c, order, s, k);
    }
    SameEverywhere(Fold(a, Flat(more)), Fold(b, Flat(more)));
  }

  lemma SameEverywhere(a: Table, b: Table)
    ensures a == b <==> forall k :: SameAt(a, b, k)
  {
    if forall k :: SameAt(a, b, k) {
      assert forall k :: k in a <==> k in b by {
        forall k
          ensures k in a <==> k in b
        {
          assert SameAt(a, b, k);
        }
      }
      forall k | k in a
        ensures a[k] == b[k]
      {
        assert SameAt(a, b, k);
      }
    }
  }

  /** The shortest way to a revived key: a put with its checkpoint, a delete with a checkpoint and a compaction,
      and the newer checkpoint's line is unreadable. The log is empty and the older checkpoint is believed. */
  lemma DeletedKeyRevives(key: string, payload: Record)
    ensures var history := [Put(key, payload), Delete(key)];
            var checkpoints := [Checkpoint(1, Fold(map[], history[..1])), Checkpoint(2, Fold(map[], history))];
            && StateOf([Entry(1, [history[0]]), Entry(2, [history[1]])]) == map[] && Fold(map[], history) == map[]
            && Latest([true, false]) == 0
            && ReplayFrom(checkpoints, 0, Puts([], map[])) == map[key := payload]
  {
    DeleteThenCompact(key, payload);
    var a, b := Put(key, payload), Delete(key);
    assert [a, b][..1] == [a];
    FoldOne(map[], a);
    FoldAppend(map[], [a], [b]);
    assert [a] + [b] == [a, b];
    FoldOne(map[key := payload], b);
    assert [true, false][..1] == [true];
    assert Puts([], map[]) == [];
    hide StateOf, Fold, Puts;
  }

  // ---- choosing a checkpoint ----------------------------------------------

  /** loadCheckpoint: the latest line that is whole and whose hash is right. */
  function Latest(valid: seq<bool>): (i: int)
    ensures -1 <= i < |valid|
    ensures i >= 0 ==> valid[i]
    ensures forall j :: i < j < |valid| ==> !valid[j]
  {
    if valid == [] then -1 else if valid[|valid| - 1] then |valid| - 1 else Latest(valid[..|valid| - 1])
  }

  function ReplayFrom(checkpoints: seq<Checkpoint>, i: int, file: seq<Entry>): Table
    requires -1 <= i < |checkpoints|
  {
    if i == -1 then Tail(map[], file, 0) else Tail(checkpoints[i].state, file, checkpoints[i].lsn)
  }

  function Max(a: int, b: int): int { if a > b then a else b }

  lemma StateOfSnoc(file: seq<Entry>, e: Entry)
    ensures StateOf(file + [e]) == StoreAll(StateOf(file), e.ops, e.lsn)
  {
    assert (file + [e])[..|file|] == file;
  }

  lemma {:induction false} StoreAllBounds(s: StateMap, ops: seq<Op>, lsn: nat, bound: nat)
    requires lsn > 0 && forall k :: k in s ==> 0 < s[k].lsn <= bound
    ensures forall k :: k in StoreAll(s, ops, lsn) ==> 0 < StoreAll(s, ops, lsn)[k].lsn <= Max(bound, lsn)
  {
    if ops != [] {
      StoreAllBounds(s, ops[..|ops| - 1], lsn, bound);
    }
  }

  lemma NotEmpty(s: set<string>)
    ensures s == {} || exists k :: k in s
  {
    if !exists k :: k in s {
      assert s == {};
    }
  }

  predicate Oldest(k: string, keys: set<string>, s: StateMap)
    requires keys <= s.Keys
  {
    k in keys && forall j :: j in keys ==> s[k].lsn <= s[j].lsn
  }

  lemma {:induction false} OldestExists(keys: set<string>, s: StateMap)
    requires keys <= s.Keys && keys != {}
    ensures exists k :: Oldest(k, keys, s)
    decreases |keys|
  {
    NotEmpty(keys);
    var x :| x in keys;
    var rest := keys - {x};
    if rest == {} {
      assert keys == {x};
      assert Oldest(x, keys, s);
    } else {
      OldestExists(rest, s);
      var k :| Oldest(k, rest, s);
      assert forall j :: j in keys ==> j == x || j in rest;
      assert Oldest(if s[x].lsn <= s[k].lsn then x else k, keys, s);
    }
  }

  /** Part-way through the sort: what is out is in order and no newer than what remains. */
  ghost predicate Drained(order: seq<string>, remaining: set<string>, s: StateMap)
    requires remaining <= s.Keys
  {
    && Covers(order, s)
    && (forall k :: k in s ==> k in order || k in remaining)
    && (forall i :: 0 <= i < |order| ==> order[i] !in remaining)
    && (forall i, j :: 0 <= i < |order| && j in remaining ==> s[order[i]].lsn <= s[j].lsn)
    && (forall i, j :: 0 <= i < j < |order| ==> s[order[i]].lsn <= s[order[j]].lsn)
  }

  lemma DrainStep(order: seq<string>, remaining: set<string>, s: StateMap, key: string)
    requires remaining <= s.Keys && Drained(order, remaining, s) && Oldest(key, remaining, s)
    ensures Drained(order + [key], remaining - {key}, s)
    ensures Puts(order + [key], s) == Puts(order, s) + [Entry(s[key].lsn, [Put(key, s[key].payload)])]
  {
    var next := order + [key];
    assert forall i :: 0 <= i < |order| ==> next[i] == order[i];
    assert next[|order|] == key;
    forall k | k in s
      ensures k in next || k in remaining - {key}
    {
      if k in order {
        assert k in next;
      }
    }
  }

  // ---- the provider -------------------------------------------------------

  class BinaryWALProvider {
    const checkpointEveryOps: nat
    const checkpointEveryMs: nat
    var file: seq<Entry>
    var checkpoints: seq<Checkpoint>
    var lastLsn: nat
    var state: StateMap
    var opsSinceCheckpoint: nat
    var lastCheckpointAt: int
    ghost var history: seq<Op>
    /** The oldest checkpoint written after the last compaction began; older ones may be out of date. */
    ghost var anchor: nat

    ghost predicate Valid()
      reads this
    {
      && state == StateOf(file) && Plain(state) == Fold(map[], history)
      && (forall i :: 0 <= i < |file| ==> 0 < file[i].lsn <= lastLsn)
      && (forall k :: k in state ==> 0 < state[k].lsn <= lastLsn)
      && (forall i :: 0 <= i < |checkpoints| ==> checkpoints[i].lsn <= lastLsn && Agrees(checkpoints[i], state))
      && (forall i :: anchor <= i < |checkpoints| ==>
            Tail(checkpoints[i].state, file, checkpoints[i].lsn) == Plain(state))
    }

    constructor (everyOps: int, everyMs: int, now: int)
      ensures Valid() && history == [] && anchor == 0 && file == [] && checkpoints == []
      ensures checkpointEveryOps == Max(1, everyOps) && checkpointEveryMs == Max(1000, everyMs)
    {
      checkpointEveryOps := Max(1, everyOps);
      checkpointEveryMs := Max(1000, everyMs);
      file, checkpoints, lastLsn, state := [], [], 0, map[];
      opsSinceCheckpoint, lastCheckpointAt := 0, now;
      history, anchor := [], 0;
    }

    /** appendBatch: one entry whatever the number of operations, then maybe a checkpoint. Whether the
        file is over its size limit is given. */
    method AppendBatch(entries: seq<Op>, now: int, oversize: bool)
      requires Valid()
      modifies this
      ensures Valid() && history == old(history) + entries
      ensures entries == [] ==> file == old(file) && lastLsn == old(lastLsn) && checkpoints == old(checkpoints)
      ensures entries != [] ==> lastLsn == old(lastLsn) + 1
      ensures entries != [] && !oversize ==> file == old(file) + [Entry(lastLsn, entries)] && anchor == old(anchor)
      ensures checkpoints == old(checkpoints)
           || checkpoints == old(checkpoints) + [Checkpoint(lastLsn, Fold(map[], history))]
      ensures checkpoints != old(checkpoints) <==>
              entries != [] && (old(opsSinceCheckpoint) + |entries| >= checkpointEveryOps
                                || now - old(lastCheckpointAt) >= checkpointEveryMs)
    {
      if |entries| == 0 {
        assert history + entries == history;
        return;
      }
      AppendEntry(entries);
      MaybeCheckpointAndCompact(now, oversize);
    }

    method AppendEntry(entries: seq<Op>)
      requires Valid()
      modifies this`file, this`lastLsn, this`opsSinceCheckpoint, this`state, this`history
      ensures Valid() && history == old(history) + entries && lastLsn == old(lastLsn) + 1
      ensures file == old(file) + [Entry(lastLsn, entries)]
      ensures opsSinceCheckpoint == old(opsSinceCheckpoint) + |entries|
    {
      hide Tail, Agrees, Fold, StateOf, StoreAll, Plain;
      var nextLsn := lastLsn + 1;
      var e := Entry(nextLsn, entries);
      StateOfSnoc(file, e);
      PlainStoreAll(state, entries, nextLsn);
      FoldAppend(map[], history, entries);
      StoreAllBounds(state, entries, nextLsn, lastLsn);
      forall i | 0 <= i < |checkpoints|
        ensures Agrees(checkpoints[i], StoreAll(state, entries, nextLsn))
        ensures Tail(checkpoints[i].state, file + [e], checkpoints[i].lsn)
             == Fold(Tail(checkpoints[i].state, file, checkpoints[i].lsn), entries)
      {
        AgreesAfter(checkpoints[i], state, entries, nextLsn);
        TailSnoc(checkpoints[i].state, file, e, checkpoints[i].lsn);
      }
      file := file + [e];
      lastLsn := nextLsn;
      opsSinceCheckpoint := opsSinceCheckpoint + |entries|;
      state := ApplyState(state, entries, nextLsn);
      history := history + entries;
    }

    static method ApplyState(s: StateMap, entries: seq<Op>, lsn: nat) returns (r: StateMap)
      ensures r == StoreAll(s, entries, lsn)
    {
      r := s;
      for i := 0 to |entries|
        invariant r == StoreAll(s, entries[..i], lsn)
      {
        assert entries[..i + 1][..i] == entries[..i];
        match entries[i] {
          case Put(key, payload) => r := r[key := Stored(lsn, payload)];
          case Delete(key) => r := r - {key};
        }
      }
      assert entries[..|entries|] == entries;
    }

    method MaybeCheckpointAndCompact(now: int, oversize: bool)
      requires Valid()
      modifies this`checkpoints, this`opsSinceCheckpoint, this`lastCheckpointAt, this`file, this`anchor
      ensures Valid() && (oversize || (file == old(file) && anchor == old(anchor)))
      ensures if old(opsSinceCheckpoint) >= checkpointEveryOps || now - old(lastCheckpointAt) >= checkpointEveryMs
              then checkpoints == old(checkpoints) + [Checkpoint(lastLsn, Fold(map[], history))]
                   && opsSinceCheckpoint == 0 && lastCheckpointAt == now
              else checkpoints == old(checkpoints) && file == old(file) && anchor == old(anchor)
    {
      var shouldCheckpoint := opsSinceCheckpoint >= checkpointEveryOps || now - lastCheckpointAt >= checkpointEveryMs;
      if !shouldCheckpoint {
        return;
      }
      WriteCheckpoint();
      opsSinceCheckpoint := 0;
      lastCheckpointAt := now;
      if oversize {
        CompactToState();
      }
    }

    method WriteCheckpoint()
      requires Valid()
      modifies this`checkpoints
      ensures Valid() && checkpoints == old(checkpoints) + [Checkpoint(lastLsn, Plain(state))]
    {
      hide Tail, Fold, StateOf;
      TailSkipsAll(Plain(state), file, lastLsn);
      checkpoints := checkpoints + [Checkpoint(lastLsn, Plain(state))];
    }

    /** compactToState: runs only behind a checkpoint of the same state. */
    method CompactToState()
      requires Valid() && checkpoints != [] && checkpoints[|checkpoints| - 1] == Checkpoint(lastLsn, Plain(state))
      modifies this`file, this`anchor
      ensures Valid() && anchor == |checkpoints| - 1
      ensures |file| == |state| && forall i, j :: 0 <= i < j < |file| ==> file[i].lsn <= file[j].lsn
    {
      hide Tail, Fold, StateOf, Agrees, Plain;
      ghost var order;
      file, order := Compacted(state);
      anchor := |checkpoints| - 1;
      StateOfPuts(order, state);
      assert StateOf(file) == state;
      TailSkipsAll(Plain(state), file, lastLsn);
    }

    /** One put per key, oldest first. */
    static method Compacted(s: StateMap) returns (chunks: seq<Entry>, ghost order: seq<string>)
      ensures Covers(order, s) && chunks == Puts(order, s) && |chunks| == |s|
      ensures forall k :: k in s ==> k in order
      ensures forall i, j :: 0 <= i < j < |chunks| ==> chunks[i].lsn <= chunks[j].lsn
    {
      chunks, order := [], [];
      var remaining := s.Keys;
      while remaining != {}
        invariant remaining <= s.Keys && Drained(order, remaining, s) && chunks == Puts(order, s)
        invariant |order| + |remaining| == |s|
        decreases |remaining|
      {
        OldestExists(remaining, s);
        var key :| Oldest(key, remaining, s);
        DrainStep(order, remaining, s, key);
        hide Drained, Covers;
        chunks := chunks + [Entry(s[key].lsn, [Put(key, s[key].payload)])];
        order := order + [key];
        remaining := remaining - {key};
      }
    }

    /** replay into an empty table, through whichever checkpoints are still readable. With none, or with
        one at or behind the last compaction, the result is the fold of every operation ever appended. */
    method Replay(valid: seq<bool>) returns (t: Table)
      requires Valid() && |valid| == |checkpoints|
      ensures t == ReplayFrom(checkpoints, Latest(valid), file)
      ensures Latest(valid) == -1 || Latest(valid) >= anchor ==> t == Fold(map[], history)
    {
      var i := |valid| - 1;
      while i >= 0 && !valid[i]
        invariant -1 <= i < |valid| && forall j :: i < j < |valid| ==> !valid[j]
      {
        i := i - 1;
      }
      assert i == Latest(valid);
      TailOfAll(file);
      var checkpointLsn := 0;
      t := map[];
      if i >= 0 {
        checkpointLsn := checkpoints[i].lsn;
        t := PutAll(checkpoints[i].state);
      }
      t := ReplayTail(t, file, checkpointLsn);
    }

    static method PutAll(state: Table) returns (t: Table)
      ensures t == state
    {
      t := map[];
      var remaining := state.Keys;
      while remaining != {}
        invariant remaining <= state.Keys
        invariant t == map k | k in state && k !in remaining :: state[k]
        decreases |remaining|
      {
        NotEmpty(remaining);
        var key :| key in remaining;
        t := t[key := state[key]];
        remaining := remaining - {key};
      }
    }

    static method ReplayTail(start: Table, file: seq<Entry>, after: nat) returns (t: Table)
      ensures t == Tail(start, file, after)
    {
      t := start;
      for i := 0 to |file|
        invariant t == Tail(start, file[..i], after)
      {
        assert file[..i + 1][..i] == file[..i];
        if file[i].lsn > after {
          ghost var before := t;
          for j := 0 to |file[i].ops|
            invariant t == Fold(before, file[i].ops[..j])
          {
            assert file[i].ops[..j + 1][..j] == file[i].ops[..j];
            t := Apply(t, file[i].ops[j]);
          }
          assert file[i].ops[..|file[i].ops|] == file[i].ops;
        }
      }
      assert file[..|file|] == file;
    }

    /** A new process opens the files: its counters come from the log alone. The log stays in order exactly
        when the largest LSN left in it is at least every checkpoint's. */
    method Restart(now: int)
      requires Valid()
      modifies this`lastLsn, this`state, this`opsSinceCheckpoint, this`lastCheckpointAt
      ensures lastLsn == MaxLsn(file) && state == old(state) && opsSinceCheckpoint == 0
      ensures Valid() <==> forall i :: 0 <= i < |checkpoints| ==> checkpoints[i].lsn <= MaxLsn(file)
    {
      hide Tail, Fold, Agrees, Plain;
      state := map[];
      lastLsn := 0;
      for i := 0 to |file|
        invariant state == StateOf(file[..i]) && lastLsn == MaxLsn(file[..i])
        invariant forall k :: k in state ==> 0 < state[k].lsn <= lastLsn
      {
        assert file[..i + 1][..i] == file[..i];
        assert file[..i + 1] == file[..i] + [file[i]];
        StoreAllBounds(state, file[i].ops, file[i].lsn, lastLsn);
        if file[i].lsn > lastLsn {
          lastLsn := file[i].lsn;
        }
        state := ApplyState(state, file[i].ops, file[i].lsn);
      }
      assert file[..|file|] == file;
      opsSinceCheckpoint := 0;
      lastCheckpointAt := now;
    }
  }

  // ---- writes after a restart ---------------------------------------------

  /** The first write after a restart is kept, whatever it is, exactly when the largest LSN left in the
      log is at least the last checkpoint's. Otherwise replay skips it. */
  lemma NextWriteKept(c: Checkpoint, file: seq<Entry>, current: Table)
    requires Tail(c.state, file, c.lsn) == current
    ensures (forall op: Op :: Tail(c.state, file + [Entry(MaxLsn(file) + 1, [op])], c.lsn) == Apply(current, op))
       <==> c.lsn <= MaxLsn(file)
  {
    var next := MaxLsn(file) + 1;
    hide MaxLsn, Tail;
    forall op: Op
      ensures Tail(c.state, file + [Entry(next, [op])], c.lsn) == if next <= c.lsn then current else Apply(current, op)
    {
      TailSnoc(c.state, file, Entry(next, [op]), c.lsn);
      FoldOne(current, op);
    }
    if next <= c.lsn {
      var op := ChangingOp(current);
      assert Tail(c.state, file + [Entry(next, [op])], c.lsn) == current;
    }
  }

  lemma FoldOne(t: Table, op: Op)
    ensures Fold(t, [op]) == Apply(t, op)
  {
    assert [op][..0] == [] && Fold(t, [op][..0]) == t;
  }

  /** Every table has a write that changes it. */
  lemma ChangingOp(t: Table) returns (op: Op)
    ensures Apply(t, op) != t
  {
    if "" in t {
      op := Delete("");
    } else {
      op := Put("", map[]);
    }
  }

  /** The shortest way there: a put, its delete, a checkpoint with compaction, a restart. The log is empty
      and the next put is lost. */
  lemma DeleteThenCompact(key: string, payload: Record)
    ensures var history := [Put(key, payload), Delete(key)];
            var c := Checkpoint(2, Fold(map[], history));
            var file := Puts([], map[]);
            && StateOf([Entry(1, [history[0]]), Entry(2, [history[1]])]) == map[]
            && Tail(c.state, file + [Entry(MaxLsn(file) + 1, [Put(key, payload)])], c.lsn) == map[]
            && Fold(map[], history + [Put(key, payload)]) == map[key := payload]
  {
    var a, b, p := Put(key, payload), Delete(key), Put(key, payload);
    var file := [Entry(1, [a]), Entry(2, [b])];
    assert [a][..0] == [] && [b][..0] == [] && file[..1] == [Entry(1, [a])] && file[..1][..0] == [];
    assert StateOf(file[..1][..0]) == map[];
    assert StoreAll(map[], [a][..0], 1) == map[];
    assert StateOf(file[..1]) == map[key := Stored(1, payload)];
    assert StoreAll(StateOf(file[..1]), [b][..0], 2) == StateOf(file[..1]);
    assert StateOf(file) == map[];
    assert [a, b][..1] == [a] && [a, b, p][..2] == [a, b] && [a, b] + [p] == [a, b, p];
    assert Fold(map[], [a][..0]) == map[];
    assert Fold(map[], [a]) == map[key := payload];
    assert Fold(map[], [a, b]) == map[];
    assert Fold(map[], [a, b, p]) == map[key := payload];
    TailSnoc(map[], [], Entry(1, [p]), 2);
  }
}
