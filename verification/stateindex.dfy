/** The daemon's current-state index (src/daemon/state-index.ts): the last writer wins, deletions are
    tombstone records, and a rebuild from segments sees the records in another order. */
module StateIndex {
  import opened Bytes

  datatype Field = Number(value: real) | Text(text: string)
  type Fields = map<string, Field>

  datatype Tier = Hot | Warm | Cold

  /** Where a record currently lives; changed by rotation and compaction, not by writes. */
  datatype Place = Place(tier: Tier, segmentRef: Option<string>)

  /** An entry without its updatedAt stamp. */
  datatype Entry = Entry(timestamp: int, deleted: bool, fields: Option<Fields>, system: bool, place: Place)

  type Entries = map<string, Entry>

  /** One put, of a value or of a tombstone. */
  datatype Record = Record(key: string, fields: Fields, timestamp: int, place: Place)

  /** encodeURIComponent and decodeURIComponent (None where it throws). */
  datatype Uri = Uri(encode: string -> string, decode: string -> Option<string>)

  /** Decoding undoes encoding and never lengthens. */
  ghost predicate UriOk(uri: Uri)
  {
    (forall s :: uri.decode(uri.encode(s)) == Some(s)) && (forall s :: uri.decode(s).Some? ==> |uri.decode(s).value| <= |s|)
  }

  // ---- system keys --------------------------------------------------------

  const TOMBSTONE_PREFIX := "_sys|tombstone|"

  predicate IsSystemKey(key: string)
  {
    "_sys|" <= key || "_insight|" <= key || "_insight/" <= key || "_infer|" <= key || "_infer/" <= key
  }

  predicate IsTombstoneKey(key: string) { TOMBSTONE_PREFIX <= key }

  function MakeTombstoneKey(uri: Uri, target: string): string { TOMBSTONE_PREFIX + uri.encode(target) }

  /** The key a record deletes, if any: an empty target is ignored. */
  function Target(uri: Uri, key: string): Option<string>
  {
    if !IsTombstoneKey(key) then None
    else
      var t := uri.decode(key[|TOMBSTONE_PREFIX|..]);
      if t == Some("") then None else t
  }

  lemma TargetOfMade(uri: Uri, target: string)
    requires UriOk(uri) && target != ""
    ensures Target(uri, MakeTombstoneKey(uri, target)) == Some(target)
  {
    var key := MakeTombstoneKey(uri, target);
    assert key[|TOMBSTONE_PREFIX|..] == uri.encode(target);
  }

  // ---- one record ---------------------------------------------------------

  function Alive(r: Record): Entry { Entry(r.timestamp, false, Some(r.fields), IsSystemKey(r.key), r.place) }

  function Dead(target: string, timestamp: int, place: Place): Entry
  {
    Entry(timestamp, true, None, IsSystemKey(target), place)
  }

  function DeleteTarget(es: Entries, target: string, timestamp: int, place: Place): Entries
  {
    if target in es && timestamp < es[target].timestamp then es else es[target := Dead(target, timestamp, place)]
  }

  function Put(uri: Uri, es: Entries, r: Record): Entries
  {
    if r.key in es && r.timestamp < es[r.key].timestamp then es
    else
      var next := es[r.key := Alive(r)];
      match Target(uri, r.key)
      case None => next
      case Some(target) => DeleteTarget(next, target, r.timestamp, r.place)
  }

  function Rebuild(uri: Uri, rs: seq<Record>): Entries
  {
    if rs == [] then map[] else Put(uri, Rebuild(uri, rs[..|rs| - 1]), rs[|rs| - 1])
  }

  // ---- what a set of records means ----------------------------------------

  /** What a record says about which key. */
  function Effects(uri: Uri, r: Record): set<(string, Entry)>
  {
    {(r.key, Alive(r))} +
    match Target(uri, r.key)
    case None => {}
    case Some(target) => {(target, Dead(target, r.timestamp, r.place))}
  }

  function AllEffects(uri: Uri, rs: seq<Record>): set<(string, Entry)>
  {
    if rs == [] then {} else AllEffects(uri, rs[..|rs| - 1]) + Effects(uri, rs[|rs| - 1])
  }

  /** Every key holds its greatest-timestamp record, and no other key is there. */
  ghost predicate Newest(es: Entries, effects: set<(string, Entry)>)
  {
    && (forall k :: k in es ==> (k, es[k]) in effects)
    && (forall x :: x in effects ==> x.0 in es && x.1.timestamp <= es[x.0].timestamp)
  }

  /** Nothing is said about the key of x at a later time. */
  ghost predicate Top(effects: set<(string, Entry)>, x: (string, Entry))
  {
    x in effects && forall z :: z in effects && z.0 == x.0 ==> z.1.timestamp <= x.1.timestamp
  }

  /** No key has a tie at its greatest timestamp. */
  ghost predicate TopUnique(effects: set<(string, Entry)>)
  {
    forall x, y :: Top(effects, x) && Top(effects, y) && x.0 == y.0 ==> x == y
  }

  /** The record deletes the key of x, and x is what it says about it. */
  predicate Buries(uri: Uri, r: Record, x: (string, Entry))
  {
    Target(uri, r.key) == Some(x.0) && x.1 == Dead(x.0, r.timestamp, r.place)
  }

  /** Nothing later is said about the record's own key. */
  ghost predicate Undisturbed(effects: set<(string, Entry)>, r: Record)
  {
    forall z :: z in effects && z.0 == r.key ==> z.1.timestamp <= r.timestamp
  }

  /** No order of reading can keep x out: it is a value, or the work of a tombstone that is never refused. */
  ghost predicate Sure(uri: Uri, rs: seq<Record>, x: (string, Entry))
  {
    !x.1.deleted || exists i :: 0 <= i < |rs| && Buries(uri, rs[i], x) && Undisturbed(AllEffects(uri, rs), rs[i])
  }

  /** Every key that is spoken of has something sure at its top. */
  ghost predicate Settled(uri: Uri, rs: seq<Record>)
  {
    forall x :: Top(AllEffects(uri, rs), x) ==>
      exists y :: Top(AllEffects(uri, rs), y) && y.0 == x.0 && Sure(uri, rs, y)
  }

  /** No ties at the top, and what is there is sure. */
  ghost predicate Converging(uri: Uri, rs: seq<Record>)
  {
    TopUnique(AllEffects(uri, rs)) && Settled(uri, rs)
  }

  lemma NotSelf(uri: Uri, key: string)
    requires UriOk(uri)
    ensures Target(uri, key) != Some(key)
  {
    if IsTombstoneKey(key) {
      assert |key[|TOMBSTONE_PREFIX|..]| < |key|;
    }
  }

  // ---- one more record ----------------------------------------------------

  ghost predicate Among(es: Entries, effects: set<(string, Entry)>)
  {
    forall k :: k in es ==> (k, es[k]) in effects
  }

  predicate Holds(es: Entries, x: (string, Entry))
  {
    x.0 in es && es[x.0].timestamp >= x.1.timestamp
  }

  lemma PutAmong(uri: Uri, es: Entries, r: Record, effects: set<(string, Entry)>)
    requires Among(es, effects) && Effects(uri, r) <= effects
    ensures Among(Put(uri, es, r), effects)
  {
    hide IsSystemKey, IsTombstoneKey, Target;
    assert (r.key, Alive(r)) in Effects(uri, r);
    var target := Target(uri, r.key);
    if target.Some? {
      assert (target.value, Dead(target.value, r.timestamp, r.place)) in Effects(uri, r);
    }
  }

  /** Timestamps only grow. */
  lemma PutKeeps(uri: Uri, es: Entries, r: Record, x: (string, Entry))
    requires Holds(es, x)
    ensures Holds(Put(uri, es, r), x)
  {
    hide IsSystemKey, Target;
  }

  lemma PutHolds(uri: Uri, es: Entries, r: Record)
    ensures Holds(Put(uri, es, r), (r.key, Alive(r)))
    ensures forall x :: Buries(uri, r, x) && (r.key in es ==> es[r.key].timestamp <= r.timestamp)
              ==> Holds(Put(uri, es, r), x)
  {
    hide IsSystemKey, Target;
  }

  function PutAll(uri: Uri, es: Entries, rs: seq<Record>): Entries
  {
    if rs == [] then es else Put(uri, PutAll(uri, es, rs[..|rs| - 1]), rs[|rs| - 1])
  }

  lemma {:induction false} RebuildAppend(uri: Uri, a: seq<Record>, b: seq<Record>)
    ensures Rebuild(uri, a + b) == PutAll(uri, Rebuild(uri, a), b)
  {
    hide Put;
    if b == [] {
      assert a + b == a;
    } else {
      var n := |b| - 1;
      assert (a + b)[..|a + b| - 1] == a + b[..n];
      RebuildAppend(uri, a, b[..n]);
    }
  }

  lemma {:induction false} EffectsMember(uri: Uri, rs: seq<Record>, x: (string, Entry))
    ensures x in AllEffects(uri, rs) <==> exists r :: r in rs && x in Effects(uri, r)
  {
    hide Effects;
    if rs != [] {
      var n := |rs| - 1;
      EffectsMember(uri, rs[..n], x);
      assert rs == rs[..n] + [rs[n]];
      assert forall r :: r in rs <==> r in rs[..n] || r == rs[n];
    }
  }

  lemma EffectsWithin(uri: Uri, a: seq<Record>, b: seq<Record>)
    requires forall r :: r in a ==> r in b
    ensures AllEffects(uri, a) <= AllEffects(uri, b)
  {
    hide AllEffects, Effects;
    forall x | x in AllEffects(uri, a)
      ensures x in AllEffects(uri, b)
    {
      EffectsMember(uri, a, x);
      EffectsMember(uri, b, x);
    }
  }

  lemma SameEffects(uri: Uri, a: seq<Record>, b: seq<Record>)
    requires forall r :: r in a <==> r in b
    ensures AllEffects(uri, a) == AllEffects(uri, b)
  {
    EffectsWithin(uri, a, b);
    EffectsWithin(uri, b, a);
  }

  lemma EffectsOf(uri: Uri, rs: seq<Record>, r: Record)
    requires r in rs
    ensures Effects(uri, r) <= AllEffects(uri, rs)
  {
    hide Effects, AllEffects;
    forall x | x in Effects(uri, r)
      ensures x in AllEffects(uri, rs)
    {
      EffectsMember(uri, rs, x);
    }
  }

  /** Only values and the work of tombstones. */
  lemma EffectKinds(uri: Uri, r: Record, x: (string, Entry))
    ensures x in Effects(uri, r) <==> x == (r.key, Alive(r)) || Buries(uri, r, x)
    ensures x in Effects(uri, r) ==> x.1.timestamp == r.timestamp
  {
    hide IsSystemKey, Target;
  }

  // ---- a rebuild reaches what is sure -------------------------------------

  lemma {:induction false} RebuildAmong(uri: Uri, rs: seq<Record>)
    ensures Among(Rebuild(uri, rs), AllEffects(uri, rs))
  {
    hide Put, Effects;
    if rs != [] {
      var n := |rs| - 1;
      RebuildAmong(uri, rs[..n]);
      PutAmong(uri, Rebuild(uri, rs[..n]), rs[n], AllEffects(uri, rs));
    }
  }

  /** Values, and what undisturbed tombstones say, are never lost. */
  lemma {:induction false} RebuildHolds(uri: Uri, rs: seq<Record>, i: nat, x: (string, Entry),
                                        effects: set<(string, Entry)>)
    requires i < |rs| && AllEffects(uri, rs) <= effects
    requires x == (rs[i].key, Alive(rs[i])) || (Buries(uri, rs[i], x) && Undisturbed(effects, rs[i]))
    ensures Holds(Rebuild(uri, rs), x)
  {
    hide Put, Effects, Buries, Holds;
    var n := |rs| - 1;
    if i < n {
      RebuildHolds(uri, rs[..n], i, x, effects);
      PutKeeps(uri, Rebuild(uri, rs[..n]), rs[n], x);
    } else {
      RebuildAmong(uri, rs[..n]);
      assert rs[n].key in Rebuild(uri, rs[..n]) ==>
          (rs[n].key, Rebuild(uri, rs[..n])[rs[n].key]) in AllEffects(uri, rs[..n]);
      PutHolds(uri, Rebuild(uri, rs[..n]), rs[n]);
    }
  }

  lemma {:induction false} TopExists(effects: set<(string, Entry)>, x: (string, Entry)) returns (y: (string, Entry))
    requires x in effects
    ensures Top(effects, y) && y.0 == x.0 && y.1.timestamp >= x.1.timestamp
    decreases effects
  {
    var rest := effects - {x};
    if z :| z in rest && z.0 == x.0 && z.1.timestamp > x.1.timestamp {
      y := TopExists(rest, z);
      assert forall w :: w in effects ==> w == x || w in rest;
    } else {
      y := x;
      assert forall w :: w in effects ==> w == x || w in rest;
    }
  }

  lemma SureHolds(uri: Uri, rs: seq<Record>, x: (string, Entry))
    requires x in AllEffects(uri, rs) && Sure(uri, rs, x)
    ensures Holds(Rebuild(uri, rs), x)
  {
    hide AllEffects, Rebuild, Undisturbed, Buries, Holds, Target, IsSystemKey;
    if x.1.deleted {
      var i :| 0 <= i < |rs| && Buries(uri, rs[i], x) && Undisturbed(AllEffects(uri, rs), rs[i]);
      RebuildHolds(uri, rs, i, x, AllEffects(uri, rs));
    } else {
      EffectsMember(uri, rs, x);
      var r :| r in rs && x in Effects(uri, r);
      var i :| 0 <= i < |rs| && rs[i] == r;
      EffectKinds(uri, r, x);
      assert x == (r.key, Alive(r)) by {
        BuriedDeleted(uri, r, x);
      }
      RebuildHolds(uri, rs, i, x, AllEffects(uri, rs));
    }
  }

  lemma BuriedDeleted(uri: Uri, r: Record, x: (string, Entry))
    ensures Buries(uri, r, x) ==> x.1.deleted
  {
  }

  lemma TopIn(effects: set<(string, Entry)>, x: (string, Entry))
    requires Top(effects, x)
    ensures x in effects
  {
  }

  lemma NewestFrom(es: Entries, effects: set<(string, Entry)>)
    requires Among(es, effects)
    requires forall x :: Top(effects, x) ==> exists y :: Top(effects, y) && y.0 == x.0 && Holds(es, y)
    ensures Newest(es, effects)
  {
    forall x | x in effects
      ensures x.0 in es && x.1.timestamp <= es[x.0].timestamp
    {
      var top := TopExists(effects, x);
      var y :| Top(effects, y) && y.0 == top.0 && Holds(es, y);
      assert top in effects;
    }
  }

  /** A rebuild leaves every key at its newest record when something sure is at every top. */
  lemma RebuildNewest(uri: Uri, rs: seq<Record>)
    requires Settled(uri, rs)
    ensures Newest(Rebuild(uri, rs), AllEffects(uri, rs))
  {
    hide AllEffects, Rebuild, Sure, Holds, Newest, Among, Top;
    var effects := AllEffects(uri, rs);
    RebuildAmong(uri, rs);
    forall x | Top(effects, x)
      ensures exists y :: Top(effects, y) && y.0 == x.0 && Holds(Rebuild(uri, rs), y)
    {
      var y :| Top(effects, y) && y.0 == x.0 && Sure(uri, rs, y);
      TopIn(effects, y);
      SureHolds(uri, rs, y);
    }
    NewestFrom(Rebuild(uri, rs), effects);
  }

  /** Without a tie at the top there is only one such index. */
  lemma NewestUnique(a: Entries, b: Entries, effects: set<(string, Entry)>)
    requires Newest(a, effects) && Newest(b, effects) && TopUnique(effects)
    ensures a == b
  {
    forall k | k in a || k in b
      ensures k in a && k in b && a[k] == b[k]
    {
      if k in a {
        assert (k, a[k]) in effects;
      }
      if k in b {
        assert (k, b[k]) in effects;
      }
      assert Top(effects, (k, a[k])) && Top(effects, (k, b[k]));
      assert (k, a[k]) == (k, b[k]);
    }
  }

  lemma SameSettled(uri: Uri, a: seq<Record>, b: seq<Record>)
    requires (forall r :: r in a <==> r in b) && Settled(uri, a)
    ensures Settled(uri, b)
  {
    hide AllEffects, Undisturbed, Buries, Top;
    SameEffects(uri, a, b);
    var effects := AllEffects(uri, a);
    forall x | Top(effects, x)
      ensures exists y :: Top(effects, y) && y.0 == x.0 && Sure(uri, b, y)
    {
      var y :| Top(effects, y) && y.0 == x.0 && Sure(uri, a, y);
      if y.1.deleted {
        var i :| 0 <= i < |a| && Buries(uri, a[i], y) && Undisturbed(effects, a[i]);
        assert a[i] in b;
        var j :| 0 <= j < |b| && b[j] == a[i];
        assert Buries(uri, b[j], y) && Undisturbed(effects, b[j]);
      }
    }
  }

  /** Convergence: the same records in any order, some perhaps read twice, give the same index. */
  lemma Converges(uri: Uri, a: seq<Record>, b: seq<Record>)
    requires (forall r :: r in a <==> r in b) && Converging(uri, a)
    ensures Rebuild(uri, a) == Rebuild(uri, b)
    ensures forall k :: k in Rebuild(uri, a) <==> exists x :: x in AllEffects(uri, a) && x.0 == k
  {
    hide Rebuild, AllEffects, TopUnique, Settled;
    SameEffects(uri, a, b);
    SameSettled(uri, a, b);
    RebuildNewest(uri, a);
    RebuildNewest(uri, b);
    NewestUnique(Rebuild(uri, a), Rebuild(uri, b), AllEffects(uri, a));
    forall k | k in Rebuild(uri, a)
      ensures exists x :: x in AllEffects(uri, a) && x.0 == k
    {
      assert (k, Rebuild(uri, a)[k]) in AllEffects(uri, a);
    }
  }

  // ---- and some order misses what is not ----------------------------------

  function UpTo(rs: seq<Record>, time: int): (low: seq<Record>)
    ensures forall r :: r in low <==> r in rs && r.timestamp <= time
  {
    if rs == [] then []
    else
      assert rs == rs[..|rs| - 1] + [rs[|rs| - 1]];
      UpTo(rs[..|rs| - 1], time) + if rs[|rs| - 1].timestamp <= time then [rs[|rs| - 1]] else []
  }

  function After(rs: seq<Record>, time: int): (high: seq<Record>)
    ensures forall r :: r in high <==> r in rs && r.timestamp > time
  {
    if rs == [] then []
    else
      assert rs == rs[..|rs| - 1] + [rs[|rs| - 1]];
      After(rs[..|rs| - 1], time) + if rs[|rs| - 1].timestamp > time then [rs[|rs| - 1]] else []
  }

  lemma {:induction false} SplitAt(rs: seq<Record>, time: int)
    ensures multiset(UpTo(rs, time)) + multiset(After(rs, time)) == multiset(rs)
  {
    if rs != [] {
      var front, r := rs[..|rs| - 1], rs[|rs| - 1];
      assert multiset(rs) == multiset(front) + multiset{r} by {
        assert rs == front + [r];
      }
      SplitAt(front, time);
      var low, high := UpTo(front, time), After(front, time);
      assert UpTo(rs, time) == low + (if r.timestamp <= time then [r] else []);
      assert After(rs, time) == high + (if r.timestamp > time then [r] else []);
      hide UpTo, After;
      assert multiset(low + [r]) == multiset(low) + multiset{r} && multiset(high + [r]) == multiset(high) + multiset{r};
      assert low + [] == low && high + [] == high;
    }
  }

  predicate Ascending(rs: seq<Record>)
  {
    forall i, j :: 0 <= i < j < |rs| ==> rs[i].timestamp <= rs[j].timestamp
  }

  function Inserted(rs: seq<Record>, r: Record): (sorted: seq<Record>)
    ensures multiset(sorted) == multiset(rs) + multiset{r}
  {
    if rs == [] || rs[|rs| - 1].timestamp <= r.timestamp then rs + [r]
    else
      assert rs == rs[..|rs| - 1] + [rs[|rs| - 1]];
      Inserted(rs[..|rs| - 1], r) + [rs[|rs| - 1]]
  }

  lemma {:induction false} InsertedAscending(rs: seq<Record>, r: Record, bound: int)
    requires Ascending(rs) && r.timestamp <= bound && forall i :: 0 <= i < |rs| ==> rs[i].timestamp <= bound
    ensures Ascending(Inserted(rs, r))
    ensures forall i :: 0 <= i < |Inserted(rs, r)| ==> Inserted(rs, r)[i].timestamp <= bound
  {
    if rs != [] && rs[|rs| - 1].timestamp > r.timestamp {
      var front := rs[..|rs| - 1];
      assert forall i :: 0 <= i < |front| ==> front[i] == rs[i];
      InsertedAscending(front, r, rs[|rs| - 1].timestamp);
    }
  }

  function Sorted(rs: seq<Record>): (sorted: seq<Record>)
    ensures multiset(sorted) == multiset(rs)
  {
    if rs == [] then []
    else
      assert rs == rs[..|rs| - 1] + [rs[|rs| - 1]];
      Inserted(Sorted(rs[..|rs| - 1]), rs[|rs| - 1])
  }

  lemma {:induction false} SortedAscending(rs: seq<Record>)
    ensures Ascending(Sorted(rs))
  {
    if rs != [] {
      var front, r := Sorted(rs[..|rs| - 1]), rs[|rs| - 1];
      SortedAscending(rs[..|rs| - 1]);
      InsertedAscending(front, r, if front == [] || front[|front| - 1].timestamp <= r.timestamp then r.timestamp
                                  else front[|front| - 1].timestamp);
    }
  }

  /** Read in ascending order nothing is refused. */
  lemma {:induction false} AscendingHolds(uri: Uri, rs: seq<Record>, x: (string, Entry))
    requires Ascending(rs) && x in AllEffects(uri, rs)
    ensures Holds(Rebuild(uri, rs), x)
  {
    hide Put, Effects, Holds, Buries;
    var n := |rs| - 1;
    var front, r := rs[..n], rs[n];
    assert Ascending(front);
    if x in AllEffects(uri, front) {
      AscendingHolds(uri, front, x);
      PutKeeps(uri, Rebuild(uri, front), r, x);
    } else {
      NoneAfter(uri, front, r.key, r.timestamp);
      EffectKinds(uri, r, x);
      PutHolds(uri, Rebuild(uri, front), r);
    }
  }

  /** What has been read so far bounds the index. */
  lemma NoneAfter(uri: Uri, rs: seq<Record>, key: string, time: int)
    requires forall i :: 0 <= i < |rs| ==> rs[i].timestamp <= time
    ensures key in Rebuild(uri, rs) ==> Rebuild(uri, rs)[key].timestamp <= time
  {
    hide Rebuild, AllEffects, Effects;
    if key in Rebuild(uri, rs) {
      var x := (key, Rebuild(uri, rs)[key]);
      RebuildAmong(uri, rs);
      EffectsMember(uri, rs, x);
      var r :| r in rs && x in Effects(uri, r);
      EffectKinds(uri, r, x);
    }
  }

  /** A record read behind everything not later, and in front of everything later, leaves its effect there. */
  lemma ReadBetween(uri: Uri, low: seq<Record>, r: Record, high: seq<Record>, x: (string, Entry), rs: seq<Record>)
    requires UriOk(uri) && x in Effects(uri, r) && Top(AllEffects(uri, rs), x)
    requires forall i :: 0 <= i < |low| ==> low[i].timestamp <= r.timestamp
    requires forall i :: 0 <= i < |high| ==> high[i] in rs && high[i].timestamp > r.timestamp
    ensures x.0 in Rebuild(uri, low + [r] + high) && Rebuild(uri, low + [r] + high)[x.0] == x.1
  {
    hide *;
    EffectKinds(uri, r, x);
    NoneAfter(uri, low, r.key, r.timestamp);
    NoneAfter(uri, low, x.0, r.timestamp);
    RebuildAppend(uri, low, [r]);
    OnePut(uri, Rebuild(uri, low), r);
    PutTop(uri, Rebuild(uri, low), r, x);
    RebuildAppend(uri, low + [r], high);
    Unspoken(uri, Rebuild(uri, low + [r]), high, x, rs);
  }

  /** The records around one of them, earlier and later ones apart. */
  lemma Around(rs: seq<Record>, i: nat) returns (low: seq<Record>, high: seq<Record>)
    requires i < |rs|
    ensures multiset(low + [rs[i]] + high) == multiset(rs)
    ensures forall k :: 0 <= k < |low| ==> low[k].timestamp <= rs[i].timestamp
    ensures forall k :: 0 <= k < |high| ==> high[k] in rs && high[k].timestamp > rs[i].timestamp
  {
    hide *;
    var others := rs[..i] + rs[i + 1..];
    low, high := UpTo(others, rs[i].timestamp), After(others, rs[i].timestamp);
    SplitAt(others, rs[i].timestamp);
    assert multiset(rs) == multiset(others) + multiset{rs[i]} by {
      assert rs == rs[..i] + [rs[i]] + rs[i + 1..];
    }
    forall k | 0 <= k < |high|
      ensures high[k] in rs && high[k].timestamp > rs[i].timestamp
    {
      assert high[k] in high;
    }
    forall k | 0 <= k < |low|
      ensures low[k].timestamp <= rs[i].timestamp
    {
      assert low[k] in low;
    }
  }

  /** Whatever stands at the top of its key is what some order of reading leaves there. */
  lemma TopReached(uri: Uri, rs: seq<Record>, x: (string, Entry)) returns (order: seq<Record>)
    requires UriOk(uri) && Top(AllEffects(uri, rs), x)
    ensures multiset(order) == multiset(rs) && x.0 in Rebuild(uri, order) && Rebuild(uri, order)[x.0] == x.1
  {
    TopIn(AllEffects(uri, rs), x);
    hide *;
    EffectsMember(uri, rs, x);
    var r :| r in rs && x in Effects(uri, r);
    var i :| 0 <= i < |rs| && rs[i] == r;
    var low, high := Around(rs, i);
    order := low + [r] + high;
    ReadBetween(uri, low, r, high, x, rs);
  }

  lemma OnePut(uri: Uri, es: Entries, r: Record)
    ensures PutAll(uri, es, [r]) == Put(uri, es, r)
  {
    assert [r][..0] == [];
    assert PutAll(uri, es, [r][..0]) == es;
  }

  lemma PutTop(uri: Uri, es: Entries, r: Record, x: (string, Entry))
    requires UriOk(uri) && x in Effects(uri, r)
    requires r.key in es ==> es[r.key].timestamp <= r.timestamp
    requires x.0 in es ==> es[x.0].timestamp <= r.timestamp
    ensures x.0 in Put(uri, es, r) && Put(uri, es, r)[x.0] == x.1
  {
    NotSelf(uri, r.key);
    hide IsSystemKey, Target, UriOk;
  }

  /** Records that say nothing about a key leave it alone. */
  lemma {:induction false} Unspoken(uri: Uri, es: Entries, high: seq<Record>, x: (string, Entry), rs: seq<Record>)
    requires Top(AllEffects(uri, rs), x) && forall i :: 0 <= i < |high| ==> high[i] in rs && high[i].timestamp > x.1.timestamp
    requires x.0 in es && es[x.0] == x.1
    ensures x.0 in PutAll(uri, es, high) && PutAll(uri, es, high)[x.0] == x.1
  {
    hide AllEffects, Effects, Put, Target;
    if high != [] {
      var n := |high| - 1;
      Unspoken(uri, es, high[..n], x, rs);
      EffectsOf(uri, rs, high[n]);
      forall z | z in Effects(uri, high[n])
        ensures z.0 != x.0
      {
        EffectKinds(uri, high[n], z);
      }
      PutElsewhere(uri, PutAll(uri, es, high[..n]), high[n], x);
    }
  }

  lemma PutElsewhere(uri: Uri, es: Entries, r: Record, x: (string, Entry))
    requires forall z :: z in Effects(uri, r) ==> z.0 != x.0
    ensures x.0 in Put(uri, es, r) <==> x.0 in es
    ensures x.0 in es ==> Put(uri, es, r)[x.0] == es[x.0]
  {
    hide IsSystemKey, Target;
    assert (r.key, Alive(r)) in Effects(uri, r);
    var target := Target(uri, r.key);
    if target.Some? {
      assert (target.value, Dead(target.value, r.timestamp, r.place)) in Effects(uri, r);
    }
  }

  lemma SameMembers(a: seq<Record>, b: seq<Record>)
    requires multiset(a) == multiset(b)
    ensures forall r :: r in a <==> r in b
  {
    assert forall r :: r in a <==> r in multiset(a);
    assert forall r :: r in b <==> r in multiset(b);
  }

  /** Nothing sure is at the top of the key of x. */
  ghost predicate Unsure(uri: Uri, rs: seq<Record>, x: (string, Entry))
  {
    Top(AllEffects(uri, rs), x) && forall y :: Top(AllEffects(uri, rs), y) && y.0 == x.0 ==> !Sure(uri, rs, y)
  }

  /** A key without anything sure at its top is older than that, or absent, in some order: what disturbs its
      tombstones is read first, oldest first, and they are refused. */
  lemma TopMissed(uri: Uri, rs: seq<Record>, x: (string, Entry)) returns (order: seq<Record>)
    requires Unsure(uri, rs, x)
    ensures multiset(order) == multiset(rs)
    ensures x.0 in Rebuild(uri, order) ==> Rebuild(uri, order)[x.0].timestamp < x.1.timestamp
  {
    hide Target, IsTombstoneKey, Effects, Put, AllEffects, Rebuild, UpTo, After, Buries, Unsure, Sorted, Ascending, Holds,
         PutAll;
    var time := x.1.timestamp;
    var low, high := UpTo(rs, time), Sorted(After(rs, time));
    SplitAt(rs, time);
    SortedAscending(After(rs, time));
    SameMembers(high, After(rs, time));
    order := high + low;
    RebuildAppend(uri, high, low);
    NotInHigh(uri, rs, high, x);
    forall z | z in AllEffects(uri, high)
      ensures Holds(Rebuild(uri, high), z)
    {
      AscendingHolds(uri, high, z);
    }
    StaysMissed(uri, rs, high, Rebuild(uri, high), low, x);
  }

  lemma NotInHigh(uri: Uri, rs: seq<Record>, high: seq<Record>, x: (string, Entry))
    requires Unsure(uri, rs, x) && forall r :: r in high ==> r in rs && r.timestamp > x.1.timestamp
    ensures x.0 !in Rebuild(uri, high)
  {
    hide Rebuild, AllEffects, Effects, Sure;
    if x.0 in Rebuild(uri, high) {
      var z := (x.0, Rebuild(uri, high)[x.0]);
      RebuildAmong(uri, high);
      EffectsMember(uri, high, z);
      var r :| r in high && z in Effects(uri, r);
      EffectKinds(uri, r, z);
      EffectsOf(uri, rs, r);
    }
  }

  predicate Missing(es: Entries, x: (string, Entry))
  {
    x.0 in es ==> es[x.0].timestamp < x.1.timestamp
  }

  lemma {:induction false} StaysMissed(uri: Uri, rs: seq<Record>, high: seq<Record>, es: Entries, low: seq<Record>,
                                       x: (string, Entry))
    requires Unsure(uri, rs, x) && Missing(es, x)
    requires forall r :: r in rs && r.timestamp > x.1.timestamp ==> r in high
    requires forall z :: z in AllEffects(uri, high) ==> Holds(es, z)
    requires forall r :: r in low ==> r in rs && r.timestamp <= x.1.timestamp
    ensures Missing(PutAll(uri, es, low), x)
    ensures forall z :: z in AllEffects(uri, high) ==> Holds(PutAll(uri, es, low), z)
  {
    hide AllEffects, Put, Unsure, Missing, Holds;
    if low != [] {
      var n := |low| - 1;
      var now := PutAll(uri, es, low[..n]);
      assert low[n] in low;
      assert forall r :: r in low[..n] ==> r in low;
      StaysMissed(uri, rs, high, es, low[..n], x);
      forall z | z in AllEffects(uri, high)
        ensures Holds(Put(uri, now, low[n]), z)
      {
        PutKeeps(uri, now, low[n], z);
      }
      PutMissed(uri, rs, high, now, low[n], x);
    }
  }

  lemma PutMissed(uri: Uri, rs: seq<Record>, high: seq<Record>, es: Entries, r: Record, x: (string, Entry))
    requires Unsure(uri, rs, x) && Missing(es, x) && r in rs && r.timestamp <= x.1.timestamp
    requires forall q :: q in rs && q.timestamp > x.1.timestamp ==> q in high
    requires forall z :: z in AllEffects(uri, high) ==> Holds(es, z)
    ensures Missing(Put(uri, es, r), x)
  {
    hide AllEffects, Unsure, Target, IsSystemKey;
    if r.timestamp == x.1.timestamp {
      AtTheTop(uri, rs, r, x);
      if Target(uri, r.key) == Some(x.0) {
        var z := Disturbance(uri, rs, high, r, x);
        assert Holds(es, z);
      }
    }
  }

  /** A value at the time of x would be sure. */
  lemma AtTheTop(uri: Uri, rs: seq<Record>, r: Record, x: (string, Entry))
    requires Unsure(uri, rs, x) && r in rs && r.timestamp == x.1.timestamp
    ensures r.key != x.0
  {
    hide AllEffects, Target, IsSystemKey;
    EffectsOf(uri, rs, r);
    EffectKinds(uri, r, (r.key, Alive(r)));
    var y := (r.key, Alive(r));
    assert Sure(uri, rs, y);
    assert r.key == x.0 ==> Top(AllEffects(uri, rs), y);
  }

  /** A tombstone that could put x there is disturbed, by a record that is read first. */
  lemma Disturbance(uri: Uri, rs: seq<Record>, high: seq<Record>, r: Record, x: (string, Entry))
    returns (z: (string, Entry))
    requires Unsure(uri, rs, x) && r in rs && r.timestamp == x.1.timestamp && Target(uri, r.key) == Some(x.0)
    requires forall q :: q in rs && q.timestamp > x.1.timestamp ==> q in high
    ensures z in AllEffects(uri, high) && z.0 == r.key && z.1.timestamp > r.timestamp
  {
    hide AllEffects, Target, IsSystemKey;
    var y := (x.0, Dead(x.0, r.timestamp, r.place));
    EffectsOf(uri, rs, r);
    EffectKinds(uri, r, y);
    assert Top(AllEffects(uri, rs), y);
    var i :| 0 <= i < |rs| && rs[i] == r;
    assert Buries(uri, rs[i], y);
    assert !Undisturbed(AllEffects(uri, rs), rs[i]);
    z :| z in AllEffects(uri, rs) && z.0 == r.key && z.1.timestamp > r.timestamp;
    EffectsMember(uri, rs, z);
    var q :| q in rs && z in Effects(uri, q);
    EffectKinds(uri, q, z);
    EffectsOf(uri, high, q);
  }

  /** The order of reading does not matter if and only if no key has a tie at its greatest timestamp and, where a
      deletion stands there, some tombstone for it has nothing later said about its own key. */
  lemma ConvergesExact(uri: Uri, rs: seq<Record>)
    requires UriOk(uri)
    ensures (forall order :: multiset(order) == multiset(rs) ==> Rebuild(uri, order) == Rebuild(uri, rs))
       <==> Converging(uri, rs)
  {
    hide Rebuild, AllEffects, Top, Sure, UriOk;
    var effects := AllEffects(uri, rs);
    if Converging(uri, rs) {
      forall order | multiset(order) == multiset(rs)
        ensures Rebuild(uri, order) == Rebuild(uri, rs)
      {
        SameMembers(rs, order);
        Converges(uri, rs, order);
      }
    } else if !TopUnique(effects) {
      var x, y :| Top(effects, x) && Top(effects, y) && x.0 == y.0 && x != y;
      var a := TopReached(uri, rs, x);
      var b := TopReached(uri, rs, y);
      assert Rebuild(uri, a)[x.0] != Rebuild(uri, b)[x.0];
    } else {
      var x :| Top(effects, x) && forall y :: Top(effects, y) && y.0 == x.0 ==> !Sure(uri, rs, y);
      var a := TopReached(uri, rs, x);
      var b := TopMissed(uri, rs, x);
      assert x.0 in Rebuild(uri, a) && Rebuild(uri, a)[x.0] == x.1;
      assert Rebuild(uri, a) != Rebuild(uri, b);
    }
  }

  /** With a tie at the top the later reader wins. */
  lemma TieDepends(uri: Uri, place: Place)
    ensures var a, b := Record("k", map["n" := Number(1.0)], 5, place), Record("k", map["n" := Number(2.0)], 5, place);
            Rebuild(uri, [a, b]) != Rebuild(uri, [b, a])
  {
    var a, b := Record("k", map["n" := Number(1.0)], 5, place), Record("k", map["n" := Number(2.0)], 5, place);
    NotTombstone(uri, "k");
    hide Target;
    TwoPuts(uri, a, b);
    TwoPuts(uri, b, a);
    assert Rebuild(uri, [a, b])["k"] == Alive(b);
    assert Rebuild(uri, [b, a])["k"] == Alive(a);
    assert a.fields["n"] != b.fields["n"];
  }

  lemma NotTombstone(uri: Uri, key: string)
    requires !IsTombstoneKey(key)
    ensures Target(uri, key) == None
  {
  }

  lemma TwoPuts(uri: Uri, a: Record, b: Record)
    ensures Rebuild(uri, [a, b]) == Put(uri, Put(uri, map[], a), b)
  {
    assert [a, b][..1] == [a] && [a][..0] == [];
    assert Rebuild(uri, [a][..0]) == map[];
  }

  /** And a tombstone that deletes a tombstone can hide it from a reader that meets it second. */
  lemma TombstoneOfTombstoneDepends(uri: Uri, place: Place)
    requires UriOk(uri)
    ensures var inner := MakeTombstoneKey(uri, "k");
            var a, b := Record(inner, map[], 1, place), Record(MakeTombstoneKey(uri, inner), map[], 2, place);
            "k" in Rebuild(uri, [a, b]) && "k" !in Rebuild(uri, [b, a])
  {
    var inner := MakeTombstoneKey(uri, "k");
    var outer := MakeTombstoneKey(uri, inner);
    var a, b := Record(inner, map[], 1, place), Record(outer, map[], 2, place);
    TargetOfMade(uri, "k");
    assert |inner| >= |TOMBSTONE_PREFIX| > 1;
    TargetOfMade(uri, inner);
    NotSelf(uri, outer);
    hide MakeTombstoneKey, Target, UriOk;
    TwoPuts(uri, a, b);
    TwoPuts(uri, b, a);
  }

  // ---- live runs ----------------------------------------------------------

  datatype Op = Write(r: Record) | Delete(key: string, timestamp: int, place: Place)

  function TombstoneRecord(uri: Uri, key: string, timestamp: int, place: Place): Record
  {
    Record(MakeTombstoneKey(uri, key),
           map["target_key" := Text(key), "deleted_at_ms" := Number(timestamp as real)], timestamp, place)
  }

  /** recordPut or recordDelete. */
  function Live(uri: Uri, es: Entries, op: Op): Entries
  {
    match op
    case Write(r) => Put(uri, es, r)
    case Delete(key, timestamp, place) =>
      DeleteTarget(Put(uri, es, TombstoneRecord(uri, key, timestamp, place)), key, timestamp, place)
  }

  function LiveAll(uri: Uri, ops: seq<Op>): Entries
  {
    if ops == [] then map[] else Live(uri, LiveAll(uri, ops[..|ops| - 1]), ops[|ops| - 1])
  }

  /** The record an operation leaves in the segments. */
  function RecordOf(uri: Uri, op: Op): Record
  {
    match op
    case Write(r) => r
    case Delete(key, timestamp, place) => TombstoneRecord(uri, key, timestamp, place)
  }

  function Written(uri: Uri, ops: seq<Op>): (rs: seq<Record>)
    ensures |rs| == |ops| && forall i :: 0 <= i < |ops| ==> rs[i] == RecordOf(uri, ops[i])
  {
    seq(|ops|, i requires 0 <= i < |ops| => RecordOf(uri, ops[i]))
  }

  /** A delete is its tombstone's put exactly when the tombstone is taken and names its key, or the key is already
      dead in the same way or newer. */
  lemma DeleteIsPut(uri: Uri, es: Entries, key: string, timestamp: int, place: Place)
    requires UriOk(uri)
    ensures Live(uri, es, Delete(key, timestamp, place)) == Put(uri, es, TombstoneRecord(uri, key, timestamp, place))
       <==> (key != "" && !(MakeTombstoneKey(uri, key) in es && es[MakeTombstoneKey(uri, key)].timestamp > timestamp))
            || (key in es && (timestamp < es[key].timestamp || es[key] == Dead(key, timestamp, place)))
  {
    var r := TombstoneRecord(uri, key, timestamp, place);
    MadeTarget(uri, key);
    NotSelf(uri, r.key);
    MadeLonger(uri, key);
    hide MakeTombstoneKey, Target, IsSystemKey, UriOk;
  }

  lemma MadeTarget(uri: Uri, key: string)
    requires UriOk(uri)
    ensures Target(uri, MakeTombstoneKey(uri, key)) == if key == "" then None else Some(key)
  {
    var made := MakeTombstoneKey(uri, key);
    assert made[|TOMBSTONE_PREFIX|..] == uri.encode(key);
  }

  lemma MadeLonger(uri: Uri, key: string)
    requires UriOk(uri)
    ensures |MakeTombstoneKey(uri, key)| > |key|
  {
    assert |uri.decode(uri.encode(key)).value| <= |uri.encode(key)|;
  }

  /** A value in the index that is a tombstone has done its work on its target. */
  ghost predicate Effective(uri: Uri, es: Entries)
  {
    forall k :: k in es && !es[k].deleted ==>
      match Target(uri, k)
      case None => true
      case Some(t) => t in es && es[t].timestamp >= es[k].timestamp
  }

  lemma DeleteEffective(uri: Uri, es: Entries, target: string, timestamp: int, place: Place)
    requires Effective(uri, es)
    ensures Effective(uri, DeleteTarget(es, target, timestamp, place))
  {
    hide Target, IsSystemKey;
  }

  lemma PutEffective(uri: Uri, es: Entries, r: Record)
    requires UriOk(uri) && Effective(uri, es)
    ensures Effective(uri, Put(uri, es, r))
  {
    NotSelf(uri, r.key);
    hide Target, IsSystemKey, UriOk;
  }

  lemma {:induction false} RebuildEffective(uri: Uri, rs: seq<Record>)
    requires UriOk(uri)
    ensures Effective(uri, Rebuild(uri, rs))
  {
    hide Put, Effective, UriOk;
    if rs == [] {
      NothingEffective(uri);
    } else {
      RebuildEffective(uri, rs[..|rs| - 1]);
      PutEffective(uri, Rebuild(uri, rs[..|rs| - 1]), rs[|rs| - 1]);
    }
  }

  lemma NothingEffective(uri: Uri)
    ensures Effective(uri, map[])
  {
  }

  /** No tombstone of a delete is itself deleted later, and the empty key is never deleted. */
  ghost predicate Unburied(uri: Uri, ops: seq<Op>)
  {
    forall i :: 0 <= i < |ops| && ops[i].Delete? ==>
      && ops[i].key != ""
      && forall z :: z in AllEffects(uri, Written(uri, ops)) && z.0 == MakeTombstoneKey(uri, ops[i].key) && z.1.deleted
           ==> z.1.timestamp <= ops[i].timestamp
  }

  lemma WrittenSnoc(uri: Uri, ops: seq<Op>)
    requires ops != []
    ensures var n := |ops| - 1;
            Written(uri, ops)[..n] == Written(uri, ops[..n]) && Written(uri, ops)[n] == RecordOf(uri, ops[n])
  {
    assert Written(uri, ops)[..|ops| - 1] == Written(uri, ops[..|ops| - 1]);
  }

  lemma UnburiedFront(uri: Uri, ops: seq<Op>)
    requires Unburied(uri, ops) && ops != []
    ensures Unburied(uri, ops[..|ops| - 1])
    ensures AllEffects(uri, Written(uri, ops[..|ops| - 1])) <= AllEffects(uri, Written(uri, ops))
  {
    hide AllEffects, Written, MakeTombstoneKey;
    var n := |ops| - 1;
    WrittenSnoc(uri, ops);
    assert forall r :: r in Written(uri, ops)[..n] ==> r in Written(uri, ops);
    EffectsWithin(uri, Written(uri, ops[..n]), Written(uri, ops));
    assert forall i :: 0 <= i < n ==> ops[..n][i] == ops[i];
  }

  /** A live run is the rebuild of what it wrote, read in the order it was written. */
  lemma {:induction false} LiveIsRebuild(uri: Uri, ops: seq<Op>)
    requires UriOk(uri) && Unburied(uri, ops)
    ensures LiveAll(uri, ops) == Rebuild(uri, Written(uri, ops))
  {
    hide Live, Put, Target, TombstoneRecord, UriOk, Unburied, AllEffects, Written;
    if ops == [] {
      NothingWritten(uri);
    } else {
      var n := |ops| - 1;
      UnburiedFront(uri, ops);
      WrittenSnoc(uri, ops);
      LiveIsRebuild(uri, ops[..n]);
      UnburiedStep(uri, ops);
    }
  }

  lemma NothingWritten(uri: Uri)
    ensures Written(uri, []) == []
  {
  }

  lemma UnburiedStep(uri: Uri, ops: seq<Op>)
    requires UriOk(uri) && Unburied(uri, ops) && ops != []
    ensures var n := |ops| - 1;
            var es := Rebuild(uri, Written(uri, ops[..n]));
            Live(uri, es, ops[n]) == Put(uri, es, RecordOf(uri, ops[n]))
  {
    hide Rebuild, Put, AllEffects, Written, UriOk, Target, MakeTombstoneKey, DeleteTarget, IsSystemKey;
    var n := |ops| - 1;
    var es := Rebuild(uri, Written(uri, ops[..n]));
    match ops[n]
    case Write(_) =>
    case Delete(key, timestamp, place) =>
      UnburiedFront(uri, ops);
      RebuildAmong(uri, Written(uri, ops[..n]));
      RebuildEffective(uri, Written(uri, ops[..n]));
      MadeTarget(uri, key);
      DeleteIsPut(uri, es, key, timestamp, place);
      var made := MakeTombstoneKey(uri, key);
      if made in es {
        assert (made, es[made]) in AllEffects(uri, Written(uri, ops));
      }
  }

  /** Otherwise it need not be: a delete whose tombstone is refused still deletes, until the next rebuild. */
  lemma BuriedDelete(uri: Uri, place: Place)
    requires UriOk(uri)
    ensures var ops := [Delete(MakeTombstoneKey(uri, "k"), 2, place), Delete("k", 1, place)];
            "k" in LiveAll(uri, ops) && "k" !in Rebuild(uri, Written(uri, ops))
  {
    var inner := MakeTombstoneKey(uri, "k");
    var a, b := Delete(inner, 2, place), Delete("k", 1, place);
    var ops := [a, b];
    MadeTarget(uri, "k");
    MadeTarget(uri, inner);
    MadeLonger(uri, "k");
    MadeLonger(uri, inner);
    hide MakeTombstoneKey, Target, UriOk, IsSystemKey;
    assert ops[..1] == [a] && [a][..0] == [];
    assert LiveAll(uri, [a][..0]) == map[];
    assert LiveAll(uri, [a]) == Live(uri, map[], a);
    assert LiveAll(uri, ops) == Live(uri, Live(uri, map[], a), b);
    assert Written(uri, ops) == [RecordOf(uri, a), RecordOf(uri, b)];
    hide LiveAll, Written;
    TwoPuts(uri, RecordOf(uri, a), RecordOf(uri, b));
  }

  // ---- live runs and rebuilds in any order --------------------------------

  /** The empty key is deleted, and nothing written to it since or with a later time takes it back. */
  predicate EmptyDead(ops: seq<Op>)
  {
    exists i :: 0 <= i < |ops| && ops[i].Delete? && LastOnEmpty(ops, i)
  }

  function KeyOf(op: Op): string { if op.Write? then op.r.key else op.key }

  function TimeOf(op: Op): int { if op.Write? then op.r.timestamp else op.timestamp }

  predicate LastOnEmpty(ops: seq<Op>, i: nat)
    requires i < |ops|
  {
    KeyOf(ops[i]) == "" &&
    forall j :: 0 <= j < |ops| && KeyOf(ops[j]) == "" ==>
      TimeOf(ops[j]) < TimeOf(ops[i]) || (TimeOf(ops[j]) == TimeOf(ops[i]) && j <= i)
  }

  /** What one operation does to the empty key: no tombstone reaches it. */
  lemma EmptyStep(uri: Uri, es: Entries, op: Op)
    requires UriOk(uri)
    ensures var next := Live(uri, es, op);
            if KeyOf(op) == "" && !("" in es && TimeOf(op) < es[""].timestamp) then
              "" in next && next[""].timestamp == TimeOf(op) && next[""].deleted == op.Delete?
            else ("" in next <==> "" in es) && ("" in es ==> next[""] == es[""])
  {
    if op.Delete? {
      MadeTarget(uri, op.key);
      MadeLonger(uri, op.key);
    }
    NotEmptyTarget(uri, RecordOf(uri, op).key);
    hide MakeTombstoneKey, Target, UriOk, IsSystemKey;
  }

  lemma NotEmptyTarget(uri: Uri, key: string)
    ensures Target(uri, key) != Some("") && (key == "" ==> Target(uri, key) == None)
  {
  }

  /** The empty key at the end of a run is as the last operation on it left it. */
  lemma {:induction false} EmptyKey(uri: Uri, ops: seq<Op>) returns (last: int)
    requires UriOk(uri)
    ensures -1 <= last < |ops| && ("" in LiveAll(uri, ops) <==> last >= 0)
    ensures last == -1 ==> forall j :: 0 <= j < |ops| ==> KeyOf(ops[j]) != ""
    ensures last >= 0 ==> LastOnEmpty(ops, last) && LiveAll(uri, ops)[""].timestamp == TimeOf(ops[last])
                          && LiveAll(uri, ops)[""].deleted == ops[last].Delete?
  {
    hide Live, UriOk;
    if ops == [] {
      last := -1;
    } else {
      var n := |ops| - 1;
      last := EmptyKey(uri, ops[..n]);
      EmptyStep(uri, LiveAll(uri, ops[..n]), ops[n]);
      assert forall j :: 0 <= j < n ==> ops[..n][j] == ops[j];
      if KeyOf(ops[n]) == "" && !(last >= 0 && TimeOf(ops[n]) < TimeOf(ops[last])) {
        last := n;
      }
    }
  }

  lemma EmptyDeadExact(uri: Uri, ops: seq<Op>)
    requires UriOk(uri)
    ensures "" in LiveAll(uri, ops) && LiveAll(uri, ops)[""].deleted <==> EmptyDead(ops)
  {
    hide LiveAll, UriOk;
    var last := EmptyKey(uri, ops);
    if EmptyDead(ops) {
      var i :| 0 <= i < |ops| && ops[i].Delete? && LastOnEmpty(ops, i);
      assert last == i;
    }
  }

  /** What a live run knows of keys other than the empty one, its segments know. */
  ghost predicate LiveAmong(es: Entries, effects: set<(string, Entry)>)
  {
    forall k :: k in es && (k != "" || !es[k].deleted) ==> (k, es[k]) in effects
  }

  lemma LiveStepAmong(uri: Uri, es: Entries, op: Op, effects: set<(string, Entry)>)
    requires UriOk(uri) && LiveAmong(es, effects) && Effects(uri, RecordOf(uri, op)) <= effects
    ensures LiveAmong(Live(uri, es, op), effects)
  {
    var r := RecordOf(uri, op);
    EffectKinds(uri, r, (r.key, Alive(r)));
    if op.Delete? {
      MadeTarget(uri, op.key);
      EffectKinds(uri, r, (op.key, Dead(op.key, op.timestamp, op.place)));
    }
    var target := Target(uri, r.key);
    if target.Some? {
      EffectKinds(uri, r, (target.value, Dead(target.value, r.timestamp, r.place)));
    }
    hide MakeTombstoneKey, Target, UriOk, IsSystemKey, Effects;
  }

  lemma LiveKeeps(uri: Uri, es: Entries, op: Op, x: (string, Entry))
    requires Holds(es, x)
    ensures Holds(Live(uri, es, op), x)
  {
    PutKeeps(uri, es, RecordOf(uri, op), x);
    hide MakeTombstoneKey, Target, IsSystemKey, Put;
  }

  lemma LiveHolds(uri: Uri, es: Entries, op: Op)
    requires UriOk(uri)
    ensures Holds(Live(uri, es, op), (RecordOf(uri, op).key, Alive(RecordOf(uri, op))))
    ensures forall x :: Buries(uri, RecordOf(uri, op), x)
              && !(RecordOf(uri, op).key in es && es[RecordOf(uri, op).key].timestamp > RecordOf(uri, op).timestamp)
              ==> Holds(Live(uri, es, op), x)
  {
    var r := RecordOf(uri, op);
    PutHolds(uri, es, r);
    if op.Delete? {
      MadeTarget(uri, op.key);
    }
    hide MakeTombstoneKey, Target, UriOk, IsSystemKey, Put;
  }

  lemma {:induction false} RunAmong(uri: Uri, ops: seq<Op>)
    requires UriOk(uri)
    ensures LiveAmong(LiveAll(uri, ops), AllEffects(uri, Written(uri, ops)))
  {
    hide Live, Effects, UriOk, Written, AllEffects;
    if ops != [] {
      var n := |ops| - 1;
      WrittenSnoc(uri, ops);
      RunAmong(uri, ops[..n]);
      var rs := Written(uri, ops);
      assert forall r :: r in rs[..n] ==> r in rs;
      EffectsWithin(uri, rs[..n], rs);
      EffectsOf(uri, rs, rs[n]);
      LiveStepAmong(uri, LiveAll(uri, ops[..n]), ops[n], AllEffects(uri, rs));
    }
  }

  lemma {:induction false} RunHolds(uri: Uri, ops: seq<Op>, i: nat, x: (string, Entry), effects: set<(string, Entry)>)
    requires UriOk(uri) && i < |ops| && AllEffects(uri, Written(uri, ops)) <= effects
    requires var r := RecordOf(uri, ops[i]);
             x == (r.key, Alive(r)) || (Buries(uri, r, x) && Undisturbed(effects, r))
    ensures Holds(LiveAll(uri, ops), x)
  {
    hide Live, UriOk, Written, AllEffects, Buries, Holds, RecordOf;
    var n := |ops| - 1;
    WrittenSnoc(uri, ops);
    var rs := Written(uri, ops);
    assert forall r :: r in rs[..n] ==> r in rs;
    EffectsWithin(uri, rs[..n], rs);
    if i < n {
      RunHolds(uri, ops[..n], i, x, effects);
      LiveKeeps(uri, LiveAll(uri, ops[..n]), ops[n], x);
    } else {
      RunAmong(uri, ops[..n]);
      TombstoneKey(uri, RecordOf(uri, ops[n]), x);
      LiveHolds(uri, LiveAll(uri, ops[..n]), ops[n]);
    }
  }

  lemma TombstoneKey(uri: Uri, r: Record, x: (string, Entry))
    ensures Buries(uri, r, x) ==> r.key != ""
  {
    NotEmptyTarget(uri, r.key);
  }

  /** What is sure in the segments the live index holds too. */
  lemma SureInRun(uri: Uri, ops: seq<Op>, x: (string, Entry))
    requires UriOk(uri) && x in AllEffects(uri, Written(uri, ops)) && Sure(uri, Written(uri, ops), x)
    ensures Holds(LiveAll(uri, ops), x)
  {
    hide AllEffects, LiveAll, Undisturbed, Buries, Holds, Target, IsSystemKey, UriOk, RecordOf;
    var rs := Written(uri, ops);
    if x.1.deleted {
      var i :| 0 <= i < |rs| && Buries(uri, rs[i], x) && Undisturbed(AllEffects(uri, rs), rs[i]);
      RunHolds(uri, ops, i, x, AllEffects(uri, rs));
    } else {
      EffectsMember(uri, rs, x);
      var r :| r in rs && x in Effects(uri, r);
      var i :| 0 <= i < |rs| && rs[i] == r;
      EffectKinds(uri, r, x);
      BuriedDeleted(uri, r, x);
      RunHolds(uri, ops, i, x, AllEffects(uri, rs));
    }
  }

  /** Index and segments agree on what is at the top. */
  lemma LiveNewest(uri: Uri, ops: seq<Op>)
    requires UriOk(uri) && Settled(uri, Written(uri, ops)) && !EmptyDead(ops)
    ensures Newest(LiveAll(uri, ops), AllEffects(uri, Written(uri, ops)))
  {
    hide AllEffects, LiveAll, Sure, Holds, Newest, Top, UriOk, EmptyDead, Written;
    var es, effects := LiveAll(uri, ops), AllEffects(uri, Written(uri, ops));
    RunAmong(uri, ops);
    EmptyDeadExact(uri, ops);
    assert Among(es, effects);
    forall x | Top(effects, x)
      ensures exists y :: Top(effects, y) && y.0 == x.0 && Holds(es, y)
    {
      var y :| Top(effects, y) && y.0 == x.0 && Sure(uri, Written(uri, ops), y);
      TopIn(effects, y);
      SureInRun(uri, ops, y);
    }
    NewestFrom(es, effects);
  }

  /** Every rebuild of what a live run wrote, in whatever order, gives the live index if and only if the records
      converge and the empty key was not left deleted, which no record can say. */
  lemma LiveExact(uri: Uri, ops: seq<Op>)
    requires UriOk(uri)
    ensures (forall order :: multiset(order) == multiset(Written(uri, ops)) ==> Rebuild(uri, order) == LiveAll(uri, ops))
       <==> Converging(uri, Written(uri, ops)) && !EmptyDead(ops)
  {
    hide Rebuild, LiveAll, AllEffects, UriOk, EmptyDead, Written, Settled, TopUnique;
    var rs := Written(uri, ops);
    ConvergesExact(uri, rs);
    EmptyDeadExact(uri, ops);
    NoEmptyDead(uri, rs);
    if Converging(uri, rs) && !EmptyDead(ops) {
      LiveNewest(uri, ops);
      RebuildNewest(uri, rs);
      NewestUnique(LiveAll(uri, ops), Rebuild(uri, rs), AllEffects(uri, rs));
    } else {
      assert multiset(rs) == multiset(rs);
    }
  }

  lemma NoEmptyDead(uri: Uri, rs: seq<Record>)
    ensures "" in Rebuild(uri, rs) ==> !Rebuild(uri, rs)[""].deleted
  {
    hide Rebuild, AllEffects, Effects;
    if "" in Rebuild(uri, rs) {
      var x := ("", Rebuild(uri, rs)[""]);
      RebuildAmong(uri, rs);
      EffectsMember(uri, rs, x);
      var r :| r in rs && x in Effects(uri, r);
      EffectKinds(uri, r, x);
      NotEmptyTarget(uri, r.key);
    }
  }

  // ---- places change, contents do not -------------------------------------

  /** An index without its places. */
  function Contents(es: Entries): map<string, (int, bool, Option<Fields>, bool)>
  {
    map k | k in es :: (es[k].timestamp, es[k].deleted, es[k].fields, es[k].system)
  }

  function At(r: Record, place: Place): Record { r.(place := place) }

  function AllAt(rs: seq<Record>, places: seq<Place>): (moved: seq<Record>)
    requires |places| == |rs|
    ensures |moved| == |rs| && forall i :: 0 <= i < |rs| ==> moved[i] == At(rs[i], places[i])
  {
    seq(|rs|, i requires 0 <= i < |rs| => At(rs[i], places[i]))
  }

  lemma PutAnywhere(uri: Uri, a: Entries, b: Entries, r: Record, place: Place)
    requires Contents(a) == Contents(b)
    ensures Contents(Put(uri, a, r)) == Contents(Put(uri, b, At(r, place)))
  {
    hide Target, IsSystemKey;
    assert forall k :: k in a <==> k in Contents(a);
    assert forall k :: k in b <==> k in Contents(b);
    assert forall k :: k in a ==> Contents(a)[k].0 == a[k].timestamp;
    assert forall k :: k in b ==> Contents(b)[k].0 == b[k].timestamp;
    ContentsUpdate(a, b, r.key, Alive(r), Alive(At(r, place)));
    var target := Target(uri, r.key);
    if target.Some? {
      DeleteAnywhere(a[r.key := Alive(r)], b[r.key := Alive(At(r, place))], target.value, r.timestamp, r.place, place);
    }
    hide Contents;
  }

  lemma ContentsUpdate(a: Entries, b: Entries, k: string, x: Entry, y: Entry)
    requires Contents(a) == Contents(b)
    requires (x.timestamp, x.deleted, x.fields, x.system) == (y.timestamp, y.deleted, y.fields, y.system)
    ensures Contents(a[k := x]) == Contents(b[k := y])
  {
    assert Contents(a[k := x]) == Contents(a)[k := (x.timestamp, x.deleted, x.fields, x.system)];
    assert Contents(b[k := y]) == Contents(b)[k := (y.timestamp, y.deleted, y.fields, y.system)];
  }

  lemma DeleteAnywhere(a: Entries, b: Entries, target: string, timestamp: int, p: Place, q: Place)
    requires Contents(a) == Contents(b)
    ensures Contents(DeleteTarget(a, target, timestamp, p)) == Contents(DeleteTarget(b, target, timestamp, q))
  {
    hide IsSystemKey;
    assert target in a <==> target in Contents(a);
    assert target in b <==> target in Contents(b);
    if target in a {
      assert Contents(a)[target].0 == a[target].timestamp && Contents(b)[target].0 == b[target].timestamp;
    }
    ContentsUpdate(a, b, target, Dead(target, timestamp, p), Dead(target, timestamp, q));
    hide Contents;
  }

  lemma {:induction false} RebuildAnywhere(uri: Uri, rs: seq<Record>, places: seq<Place>)
    requires |places| == |rs|
    ensures Contents(Rebuild(uri, rs)) == Contents(Rebuild(uri, AllAt(rs, places)))
  {
    if rs != [] {
      var n := |rs| - 1;
      RebuildAnywhere(uri, rs[..n], places[..n]);
      assert AllAt(rs, places)[..n] == AllAt(rs[..n], places[..n]);
      PutAnywhere(uri, Rebuild(uri, rs[..n]), Rebuild(uri, AllAt(rs[..n], places[..n])), rs[n], places[n]);
    }
  }

  /** The index of a live run and the one rebuilt from its segments, read in any order, some perhaps twice, and from
      wherever rotation put them, have the same contents. */
  lemma LiveEqualsRebuild(uri: Uri, ops: seq<Op>, segments: seq<Record>, places: seq<Place>)
    requires UriOk(uri) && Converging(uri, Written(uri, ops)) && !EmptyDead(ops)
    requires |places| == |segments| && forall r :: r in segments <==> r in Written(uri, ops)
    ensures Contents(LiveAll(uri, ops)) == Contents(Rebuild(uri, AllAt(segments, places)))
  {
    hide *;
    LiveExact(uri, ops);
    var rs := Written(uri, ops);
    assert multiset(rs) == multiset(rs);
    Converges(uri, rs, segments);
    RebuildAnywhere(uri, segments, places);
  }

  // ---- the class ----------------------------------------------------------

  class Index {
    const uri: Uri
    var entries: Entries

    constructor (uri: Uri)
      ensures entries == map[] && this.uri == uri
    {
      this.uri := uri;
      entries := map[];
    }

    method RecordPut(r: Record)
      modifies this`entries
      ensures entries == Put(uri, old(entries), r)
    {
      if r.key in entries && r.timestamp < entries[r.key].timestamp {
        return;
      }
      entries := entries[r.key := Alive(r)];
      if IsTombstoneKey(r.key) {
        var target := uri.decode(r.key[|TOMBSTONE_PREFIX|..]);
        if target.Some? && target.value != "" {
          RecordDeletedTarget(target.value, r.timestamp, r.place);
        }
      }
    }

    method RecordDelete(key: string, timestamp: int, place: Place)
      modifies this`entries
      ensures entries == Live(uri, old(entries), Delete(key, timestamp, place))
    {
      RecordPut(TombstoneRecord(uri, key, timestamp, place));
      RecordDeletedTarget(key, timestamp, place);
    }

    method RecordDeletedTarget(target: string, timestamp: int, place: Place)
      modifies this`entries
      ensures entries == DeleteTarget(old(entries), target, timestamp, place)
    {
      if target in entries && timestamp < entries[target].timestamp {
        return;
      }
      entries := entries[target := Dead(target, timestamp, place)];
    }

    /** remapSegments after a compaction: an entry whose segment was replaced stands at the replacement, every other
        stays where it is, and nothing else about any of them changes. */
    method RemapSegments(segmentMap: map<string, Place>)
      modifies this`entries
      ensures entries.Keys == old(entries).Keys && Contents(entries) == Contents(old(entries))
      ensures forall k :: k in old(entries) ==>
                var was := old(entries)[k].place;
                entries[k].place == if Replaced(was, segmentMap) then segmentMap[was.segmentRef.value] else was
      ensures Settling(segmentMap) ==> LeavesNone(entries, segmentMap)
    {
      hide Contents, Settling, LeavesNone;
      RemapKeepsContents(entries, segmentMap, {});
      RemapLeavesNone(segmentMap);
      RemapMoves(entries, segmentMap);
      ghost var before := entries;
      var remaining := entries.Keys;
      assert entries == Remapped(before, segmentMap, remaining);
      while remaining != {}
        invariant remaining <= before.Keys
        invariant entries == Remapped(before, segmentMap, remaining)
        decreases |remaining|
      {
        KeyIn(remaining);
        var k :| k in remaining;
        assert entries[k] == before[k];
        entries := entries[k := Moved(entries[k], segmentMap)];
        remaining := remaining - {k};
        assert entries == Remapped(before, segmentMap, remaining);
      }
    }

    /** rebuildStateIndexFromSegments, given the decoded records in file order. */
    method RebuildFrom(records: seq<Record>)
      modifies this`entries
      ensures entries == Rebuild(uri, records)
    {
      entries := map[];
      for i := 0 to |records|
        invariant entries == Rebuild(uri, records[..i])
      {
        assert records[..i + 1][..i] == records[..i];
        RecordPut(records[i]);
      }
      assert records[..|records|] == records;
    }
  }

  function Moved(e: Entry, segmentMap: map<string, Place>): Entry
  {
    var ref := e.place.segmentRef;
    if ref.Some? && ref.value != "" && ref.value in segmentMap then e.(place := segmentMap[ref.value]) else e
  }

  /** Every entry but those still to do follows its segment. */
  function Remapped(es: Entries, segmentMap: map<string, Place>, todo: set<string>): Entries
  {
    map k | k in es :: if k in todo then es[k] else Moved(es[k], segmentMap)
  }

  /** The segments that are gone, by their non-empty names. */
  predicate Replaced(place: Place, segmentMap: map<string, Place>)
  {
    place.segmentRef.Some? && place.segmentRef.value != "" && place.segmentRef.value in segmentMap
  }

  /** No segment that is gone is put in the place of another. */
  predicate Settling(segmentMap: map<string, Place>)
  {
    forall ref :: ref in segmentMap && ref != "" ==> !Replaced(segmentMap[ref], segmentMap)
  }

  predicate LeavesNone(es: Entries, segmentMap: map<string, Place>)
  {
    forall k :: k in es ==> !Replaced(es[k].place, segmentMap)
  }

  /** After a remap no entry of any index is left at a segment that is gone if and only if no such segment is put in the
      place of another. */
  lemma RemapLeavesNone(segmentMap: map<string, Place>)
    ensures Settling(segmentMap) <==> forall es: Entries :: LeavesNone(Remapped(es, segmentMap, {}), segmentMap)
  {
    if !Settling(segmentMap) {
      var ref :| ref in segmentMap && ref != "" && Replaced(segmentMap[ref], segmentMap);
      var es: Entries := map["" := Dead("", 0, Place(Hot, Some(ref)))];
      assert Remapped(es, segmentMap, {})[""].place == segmentMap[ref];
      assert !LeavesNone(Remapped(es, segmentMap, {}), segmentMap);
    }
  }

  /** Exactly the entries at a segment that is gone move, and to its replacement. */
  lemma RemapMoves(es: Entries, segmentMap: map<string, Place>)
    ensures Remapped(es, segmentMap, {}).Keys == es.Keys
    ensures forall k :: k in es ==>
              Remapped(es, segmentMap, {})[k].place
                == if Replaced(es[k].place, segmentMap) then segmentMap[es[k].place.segmentRef.value] else es[k].place
  {
  }

  /** Compaction moves entries and changes nothing else: another remap cannot be told apart by contents. */
  lemma RemapKeepsContents(es: Entries, segmentMap: map<string, Place>, todo: set<string>)
    ensures Contents(Remapped(es, segmentMap, todo)) == Contents(es)
  {
    assert forall k :: k in Remapped(es, segmentMap, todo) <==> k in es;
  }

  lemma KeyIn(s: set<string>)
    ensures s == {} || exists k :: k in s
  {
    if !exists k :: k in s {
      assert s == {};
    }
  }
}
