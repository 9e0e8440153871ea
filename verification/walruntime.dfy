/** The runtime that carries the log's entries (JSON and UTF-8 in src/daemon/wal.ts) is known by its equations;
    here is one that satisfies them, so that what is proved from them is about something. */
module WalRuntime {
  import opened Bytes
  import opened WalFraming
  import opened WalRecovery
  import Wal

  // ---- payloads as lists of numbers, each telling where it ends -----------

  ghost function Chars(s: string): seq<nat>
  {
    if s == "" then [0] else [1, s[0] as nat] + Chars(s[1..])
  }

  ghost function ScalarOf(x: Wal.Scalar): seq<nat>
  {
    match x
    case Number(value) => [0, value as nat]
    case Text(text) => [1] + Chars(text)
  }

  lemma SomeKey(m: Wal.Record)
    ensures m != map[] ==> exists k :: k in m
  {
    if !exists k :: k in m {
      assert m == map[];
    }
  }

  ghost function KeyIn(m: Wal.Record): (key: string)
    requires m != map[]
    ensures key in m
  {
    SomeKey(m);
    var k :| k in m;
    k
  }

  /** Fields in some order. */
  ghost function FieldsOf(m: Wal.Record): seq<nat>
    decreases |m|
  {
    if m == map[] then [0]
    else
      var k := KeyIn(m);
      [1] + (Chars(k) + (ScalarOf(m[k]) + FieldsOf(m - {k})))
  }

  function Tag(op: Wal.Op): nat { if op.Put? then 0 else 1 }

  ghost function Rest(op: Wal.Op): seq<nat>
  {
    match op
    case Put(key, payload) => Chars(key) + FieldsOf(payload)
    case Delete(key) => Chars(key)
  }

  ghost function OpOf(op: Wal.Op): seq<nat>
  {
    [Tag(op)] + Rest(op)
  }

  ghost function OpsOf(ops: seq<Wal.Op>): seq<nat>
  {
    if ops == [] then [0] else [1] + (OpOf(ops[0]) + OpsOf(ops[1..]))
  }

  ghost function PayloadOf(v: Payload): seq<nat>
  {
    match v
    case Single(fields) => [0] + FieldsOf(fields)
    case Batch(entries) => [1] + OpsOf(entries)
  }

  lemma Heads(n: nat, s: seq<nat>, x: seq<nat>, m: nat, t: seq<nat>, y: seq<nat>)
    requires [n] + s + x == [m] + t + y
    ensures n == m && s + x == t + y
  {
    var all := [n] + s + x;
    assert all[0] == n && all[1..] == s + x;
    assert ([m] + t + y)[0] == m && ([m] + t + y)[1..] == t + y;
  }

  lemma {:induction false} CharsEnd(s: string, t: string, x: seq<nat>, y: seq<nat>)
    requires Chars(s) + x == Chars(t) + y
    ensures s == t && x == y
  {
    if s != "" && t != "" {
      assert Chars(s) + x == [1] + ([s[0] as nat] + Chars(s[1..])) + x;
      assert Chars(t) + y == [1] + ([t[0] as nat] + Chars(t[1..])) + y;
      Heads(1, [s[0] as nat] + Chars(s[1..]), x, 1, [t[0] as nat] + Chars(t[1..]), y);
      Heads(s[0] as nat, Chars(s[1..]), x, t[0] as nat, Chars(t[1..]), y);
      CharsEnd(s[1..], t[1..], x, y);
      assert s == [s[0]] + s[1..] && t == [t[0]] + t[1..];
    } else {
      assert (Chars(s) + x)[0] == (Chars(t) + y)[0];
      assert x == (Chars(s) + x)[1..] && y == (Chars(t) + y)[1..];
    }
  }

  lemma ScalarEnd(a: Wal.Scalar, b: Wal.Scalar, x: seq<nat>, y: seq<nat>)
    requires ScalarOf(a) + x == ScalarOf(b) + y
    ensures a == b && x == y
  {
    hide Chars;
    var restA := if a.Text? then Chars(a.text) else [a.value as nat];
    var restB := if b.Text? then Chars(b.text) else [b.value as nat];
    assert ScalarOf(a) == [if a.Text? then 1 else 0] + restA && ScalarOf(b) == [if b.Text? then 1 else 0] + restB;
    hide ScalarOf;
    Heads(if a.Text? then 1 else 0, restA, x, if b.Text? then 1 else 0, restB, y);
    if a.Text? {
      CharsEnd(a.text, b.text, x, y);
    } else {
      assert restA + [] == restA && restB + [] == restB;
      Heads(a.value, [], x, b.value, [], y);
      assert [] + x == x && [] + y == y;
    }
  }

  lemma {:induction false} FieldsEnd(a: Wal.Record, b: Wal.Record, x: seq<nat>, y: seq<nat>)
    requires FieldsOf(a) + x == FieldsOf(b) + y
    ensures a == b && x == y
    decreases |a|
  {
    hide ScalarOf, Chars;
    if a == map[] || b == map[] {
      assert (FieldsOf(a) + x)[0] == (FieldsOf(b) + y)[0];
      assert x == (FieldsOf(a) + x)[1..] && y == (FieldsOf(b) + y)[1..];
    } else {
      var k, l := KeyIn(a), KeyIn(b);
      var restA, restB := FieldsOf(a - {k}), FieldsOf(b - {l});
      assert FieldsOf(a) == [1] + (Chars(k) + (ScalarOf(a[k]) + restA));
      assert FieldsOf(b) == [1] + (Chars(l) + (ScalarOf(b[l]) + restB));
      hide FieldsOf;
      Heads(1, Chars(k) + (ScalarOf(a[k]) + restA), x, 1, Chars(l) + (ScalarOf(b[l]) + restB), y);
      FieldEnd(k, a[k], restA, x, l, b[l], restB, y);
      FieldsEnd(a - {k}, b - {k}, x, y);
      SameWithout(a, b, k);
    }
  }

  lemma FieldEnd(k: string, a: Wal.Scalar, restA: seq<nat>, x: seq<nat>, l: string, b: Wal.Scalar, restB: seq<nat>,
                 y: seq<nat>)
    requires Chars(k) + (ScalarOf(a) + restA) + x == Chars(l) + (ScalarOf(b) + restB) + y
    ensures k == l && a == b && restA + x == restB + y
  {
    hide *;
    assert Chars(k) + (ScalarOf(a) + restA) + x == Chars(k) + (ScalarOf(a) + (restA + x));
    assert Chars(l) + (ScalarOf(b) + restB) + y == Chars(l) + (ScalarOf(b) + (restB + y));
    CharsEnd(k, l, ScalarOf(a) + (restA + x), ScalarOf(b) + (restB + y));
    ScalarEnd(a, b, restA + x, restB + y);
  }

  lemma SameWithout(a: Wal.Record, b: Wal.Record, k: string)
    requires k in a && k in b && a[k] == b[k] && a - {k} == b - {k}
    ensures a == b
  {
    assert a == (a - {k})[k := a[k]] && b == (b - {k})[k := b[k]];
  }

  lemma PutEnd(key: string, fields: Wal.Record, x: seq<nat>, key': string, fields': Wal.Record, y: seq<nat>)
    requires Chars(key) + FieldsOf(fields) + x == Chars(key') + FieldsOf(fields') + y
    ensures key == key' && fields == fields' && x == y
  {
    hide *;
    assert Chars(key) + FieldsOf(fields) + x == Chars(key) + (FieldsOf(fields) + x);
    assert Chars(key') + FieldsOf(fields') + y == Chars(key') + (FieldsOf(fields') + y);
    CharsEnd(key, key', FieldsOf(fields) + x, FieldsOf(fields') + y);
    FieldsEnd(fields, fields', x, y);
  }

  lemma OpEnd(a: Wal.Op, b: Wal.Op, x: seq<nat>, y: seq<nat>)
    requires OpOf(a) + x == OpOf(b) + y
    ensures a == b && x == y
  {
    hide FieldsOf, Chars;
    Heads(Tag(a), Rest(a), x, Tag(b), Rest(b), y);
    hide OpOf;
    if a.Put? {
      PutEnd(a.key, a.payload, x, b.key, b.payload, y);
    } else {
      CharsEnd(a.key, b.key, x, y);
    }
  }

  lemma {:induction false} OpsEnd(a: seq<Wal.Op>, b: seq<Wal.Op>)
    requires OpsOf(a) == OpsOf(b)
    ensures a == b
  {
    hide OpOf;
    assert OpsOf(a)[0] == OpsOf(b)[0];
    if a != [] {
      assert OpsOf(a)[1..] == OpOf(a[0]) + OpsOf(a[1..]) && OpsOf(b)[1..] == OpOf(b[0]) + OpsOf(b[1..]);
      OpEnd(a[0], b[0], OpsOf(a[1..]), OpsOf(b[1..]));
      OpsEnd(a[1..], b[1..]);
      assert a == [a[0]] + a[1..] && b == [b[0]] + b[1..];
    }
  }

  lemma PayloadsDiffer(a: Payload, b: Payload)
    requires PayloadOf(a) == PayloadOf(b)
    ensures a == b
  {
    hide FieldsOf, OpsOf;
    assert PayloadOf(a)[0] == PayloadOf(b)[0];
    assert PayloadOf(a)[1..] == PayloadOf(b)[1..];
    if a.Single? {
      assert FieldsOf(a.fields) + [] == PayloadOf(a)[1..] && FieldsOf(b.fields) + [] == PayloadOf(b)[1..];
      FieldsEnd(a.fields, b.fields, [], []);
    } else {
      assert OpsOf(a.entries) == PayloadOf(a)[1..] && OpsOf(b.entries) == PayloadOf(b)[1..];
      OpsEnd(a.entries, b.entries);
    }
  }

  // ---- numbers as strokes, characters as three bytes ----------------------

  ghost function Strokes(ns: seq<nat>): string
    decreases |ns|, if ns == [] then 0 else ns[0]
  {
    if ns == [] then "" else if ns[0] == 0 then "." + Strokes(ns[1..]) else "I" + Strokes(ns[0 := ns[0] - 1])
  }

  lemma {:induction false} StrokesDiffer(a: seq<nat>, b: seq<nat>)
    requires Strokes(a) == Strokes(b)
    ensures a == b
    decreases |a|, if a == [] then 0 else a[0]
  {
    if a != [] && b != [] {
      assert Strokes(a)[0] == Strokes(b)[0] && Strokes(a)[1..] == Strokes(b)[1..];
      if a[0] == 0 {
        StrokesDiffer(a[1..], b[1..]);
        assert a == [a[0]] + a[1..] && b == [b[0]] + b[1..];
      } else {
        StrokesDiffer(a[0 := a[0] - 1], b[0 := b[0] - 1]);
        assert a == a[0 := a[0] - 1][0 := a[0]] && b == b[0 := b[0] - 1][0 := b[0]];
        assert a[0 := a[0] - 1][0] == b[0 := b[0] - 1][0];
      }
    }
  }

  function CharBytes(c: char): (b: seq<byte>)
    ensures |b| == 3 && c as int == (b[0] as int) + 256 * (b[1] as int) + 65536 * (b[2] as int)
  {
    var n := c as int;
    assert 0 <= n < 0x11_0000;
    [n % 256, n / 256 % 256, n / 65536]
  }

  function StringBytes(s: string): seq<byte>
  {
    if s == "" then [] else CharBytes(s[0]) + StringBytes(s[1..])
  }

  lemma {:induction false} StringsDiffer(s: string, t: string)
    requires StringBytes(s) == StringBytes(t)
    ensures s == t
  {
    hide CharBytes;
    if s != "" && t != "" {
      assert CharBytes(s[0]) == StringBytes(s)[..3] == StringBytes(t)[..3] == CharBytes(t[0]);
      assert StringBytes(s[1..]) == StringBytes(s)[3..] == StringBytes(t)[3..] == StringBytes(t[1..]);
      StringsDiffer(s[1..], t[1..]);
      assert s == [s[0]] + s[1..] && t == [t[0]] + t[1..];
    }
  }

  ghost function Written(v: Payload): string { Strokes(PayloadOf(v)) }

  ghost function Read(s: string): Option<Payload>
  {
    if exists v :: Written(v) == s then (var v :| Written(v) == s; Some(v)) else None
  }

  ghost function FromBytes(b: seq<byte>): string
  {
    if exists s :: StringBytes(s) == b then (var s :| StringBytes(s) == b; s) else ""
  }

  ghost function Plainest(): Runtime<Payload>
  {
    Runtime(s => StringBytes(s), b => FromBytes(b), v => Written(v), s => Read(s))
  }

  /** Entries can be carried: there is a runtime the log's theorems apply to. */
  lemma PlainestOk()
    ensures RuntimeOk(Plainest())
  {
    var rt := Plainest();
    forall s
      ensures rt.fromUtf8(rt.toUtf8(s)) == s
    {
      StringsDiffer(FromBytes(StringBytes(s)), s);
    }
    forall v
      ensures rt.parse(rt.stringify(v)) == Some(v)
    {
      var back := Read(Written(v));
      StrokesDiffer(PayloadOf(back.value), PayloadOf(v));
      PayloadsDiffer(back.value, v);
    }
  }
}
