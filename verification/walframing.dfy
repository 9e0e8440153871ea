/** The bytes of the write-ahead log (src/daemon/wal.ts): v1 and v2 entries, torn tails and migration. */
module WalFraming {
  import opened Bytes
  import opened Crc
  import Wal

  /** Text and JSON as the runtime has them, known by their equations. `parse` is None where it throws. */
  datatype Runtime<!V> = Runtime(
    toUtf8: string -> seq<byte>,
    fromUtf8: seq<byte> -> string,
    stringify: V -> string,
    parse: string -> Option<V>)

  ghost predicate RuntimeOk<V(!new)>(rt: Runtime<V>)
  {
    && (forall s :: rt.fromUtf8(rt.toUtf8(s)) == s)
    && (forall v :: rt.parse(rt.stringify(v)) == Some(v))
  }

  datatype Parsed<V> = Parsed(op: byte, key: string, payload: V, lsn: nat)

  function Header(): seq<byte> { [0x47, 0x57, 0x56, 0x32, 2] }

  // ---- v2 entries ---------------------------------------------------------

  function Body(lsn: nat, ts: nat, op: byte, key: seq<byte>, val: seq<byte>): (s: seq<byte>)
    ensures |s| == 23 + |key| + |val|
  {
    ToLE(lsn, 8) + (ToLE(ts, 8) + ([op] + (ToLE(|key|, 2) + (key + (ToLE(|val|, 4) + val)))))
  }

  function Sealed(body: seq<byte>): (s: seq<byte>)
    ensures |s| == |body| + 4
  {
    body + ToLE(Crc32(body), 4)
  }

  function FrameV2<V>(rt: Runtime<V>, e: Parsed<V>, ts: nat): seq<byte>
  {
    Sealed(Body(e.lsn, ts, e.op, rt.toUtf8(e.key), rt.toUtf8(rt.stringify(e.payload))))
  }

  /** encodeBinaryV2 writes the entry instead of throwing: every field fits. */
  predicate Fits<V>(rt: Runtime<V>, e: Parsed<V>, ts: nat)
  {
    && e.lsn < 0x1_0000_0000_0000_0000 && ts < 0x1_0000_0000_0000_0000
    && |rt.toUtf8(e.key)| < 0x1_0000 && |rt.toUtf8(rt.stringify(e.payload))| < 0x1_0000_0000
  }

  function EncodeV2<V>(rt: Runtime<V>, e: Parsed<V>, ts: nat): Result<seq<byte>>
  {
    if Fits(rt, e, ts) then Ok(FrameV2(rt, e, ts)) else Err(OutOfRange)
  }

  /** The length of the frame the data starts with, if all of it is there; `fixed` bytes stand before the
      key length. */
  function FrameSize(s: seq<byte>, fixed: nat): (r: Option<nat>)
    ensures r.Some? ==> fixed + 10 <= r.value <= |s|
  {
    if fixed + 2 > |s| then None
    else
      var keyLen := FromLE(s[fixed..fixed + 2]);
      var p := fixed + 2 + keyLen;
      if p + 4 > |s| then None
      else
        var valLen := FromLE(s[p..p + 4]);
        if p + 4 + valLen + 4 > |s| then None else Some(p + 8 + valLen)
  }

  function KeyAt(f: seq<byte>, fixed: nat): seq<byte>
    requires FrameSize(f, fixed) == Some(|f|)
  {
    f[fixed + 2..fixed + 2 + FromLE(f[fixed..fixed + 2])]
  }

  function ValueAt(f: seq<byte>, fixed: nat): seq<byte>
    requires FrameSize(f, fixed) == Some(|f|)
  {
    f[fixed + 6 + FromLE(f[fixed..fixed + 2])..|f| - 4]
  }

  predicate CrcOk(f: seq<byte>)
    requires |f| >= 4
  {
    Crc32(f[..|f| - 4]) == FromLE(f[|f| - 4..])
  }

  /** One whole frame: nothing for a wrong checksum or a payload that is not JSON. */
  function ReadFrame<V>(rt: Runtime<V>, f: seq<byte>): (out: seq<Parsed<V>>)
    requires FrameSize(f, 17) == Some(|f|)
  {
    if !CrcOk(f) then []
    else
      match rt.parse(rt.fromUtf8(ValueAt(f, 17)))
      case None => []
      case Some(v) => [Parsed(f[16], rt.fromUtf8(KeyAt(f, 17)), v, FromLE(f[..8]))]
  }

  lemma FrameSizeStable(s: seq<byte>, fixed: nat)
    requires FrameSize(s, fixed).Some?
    ensures FrameSize(s[..FrameSize(s, fixed).value], fixed) == FrameSize(s, fixed)
  {
    hide FromLE;
    var n := FrameSize(s, fixed).value;
    assert s[..n][fixed..fixed + 2] == s[fixed..fixed + 2];
    var p := fixed + 2 + FromLE(s[fixed..fixed + 2]);
    assert s[..n][p..p + 4] == s[p..p + 4];
  }

  function ParseFrames<V>(rt: Runtime<V>, s: seq<byte>): (out: seq<Parsed<V>>)
    decreases |s|
  {
    match FrameSize(s, 17)
    case None => []
    case Some(n) =>
      FrameSizeStable(s, 17);
      ReadFrame(rt, s[..n]) + ParseFrames(rt, s[n..])
  }

  /** parseBinaryV2Entries */
  function ParseV2<V>(rt: Runtime<V>, file: seq<byte>): (out: seq<Parsed<V>>)
  {
    if |file| <= 5 then [] else ParseFrames(rt, file[5..])
  }

  // ---- whole logs and torn ones -------------------------------------------

  predicate AllFit<V>(rt: Runtime<V>, es: seq<Parsed<V>>, clock: nat -> nat)
  {
    forall i :: 0 <= i < |es| ==> Fits(rt, es[i], clock(i))
  }

  function Frames<V>(rt: Runtime<V>, es: seq<Parsed<V>>, clock: nat -> nat): seq<byte>
  {
    if es == [] then []
    else Frames(rt, es[..|es| - 1], clock) + FrameV2(rt, es[|es| - 1], clock(|es| - 1))
  }

  /** How many entries lie wholly inside the first `k` bytes behind the header. */
  function Whole<V>(rt: Runtime<V>, es: seq<Parsed<V>>, clock: nat -> nat, k: int): (n: nat)
    ensures n <= |es|
  {
    if es == [] then 0
    else if k >= |Frames(rt, es, clock)| then |es|
    else Whole(rt, es[..|es| - 1], clock, k)
  }

  lemma FrameBack<V(!new)>(rt: Runtime<V>, e: Parsed<V>, ts: nat, rest: seq<byte>)
    requires RuntimeOk(rt) && Fits(rt, e, ts)
    ensures var f := FrameV2(rt, e, ts);
            && FrameSize(f + rest, 17) == Some(|f|) && FrameSize(f, 17) == Some(|f|)
            && ReadFrame(rt, f) == [e]
  {
    hide ToLE, FromLE, Crc32;
    FieldWidths();
    var key, val := rt.toUtf8(e.key), rt.toUtf8(rt.stringify(e.payload));
    FromLEToLE(e.lsn, 8);
    FromLEToLE(|key|, 2);
    FromLEToLE(|val|, 4);
    var body := Body(e.lsn, ts, e.op, key, val);
    FromLEToLE(Crc32(body), 4);
    var f := FrameV2(rt, e, ts);
    var p := 19 + |key|;
    assert f[..8] == ToLE(e.lsn, 8) && f[16] == e.op;
    assert f[17..19] == ToLE(|key|, 2) && (f + rest)[17..19] == f[17..19];
    assert f[19..p] == key;
    assert f[p..p + 4] == ToLE(|val|, 4) && (f + rest)[p..p + 4] == f[p..p + 4];
    assert f[p + 4..|f| - 4] == val;
    assert f[..|f| - 4] == body && f[|f| - 4..] == ToLE(Crc32(body), 4);
  }

  /** A torn frame is not mistaken for a whole one. */
  lemma TornFrame(f: seq<byte>, fixed: nat, k: nat)
    requires FrameSize(f, fixed) == Some(|f|) && k < |f|
    ensures FrameSize(f[..k], fixed) == None
  {
    hide FromLE;
    if k >= fixed + 2 {
      assert f[..k][fixed..fixed + 2] == f[fixed..fixed + 2];
      var p := fixed + 2 + FromLE(f[fixed..fixed + 2]);
      if p + 4 <= k {
        assert f[..k][p..p + 4] == f[p..p + 4];
      }
    }
  }

  /** Whole frames in front are read one by one, whatever follows them. */
  lemma {:induction false} FramesBack<V(!new)>(rt: Runtime<V>, es: seq<Parsed<V>>, clock: nat -> nat, rest: seq<byte>)
    requires RuntimeOk(rt) && AllFit(rt, es, clock)
    ensures ParseFrames(rt, Frames(rt, es, clock) + rest) == es + ParseFrames(rt, rest)
    decreases |es|
  {
    hide FrameV2, FrameSize, ReadFrame, ParseFrames, RuntimeOk, Fits;
    if es == [] {
      assert Frames(rt, es, clock) + rest == rest && es + ParseFrames(rt, rest) == ParseFrames(rt, rest);
    } else {
      var n := |es| - 1;
      var f := FrameV2(rt, es[n], clock(n));
      FramesBack(rt, es[..n], clock, f + rest);
      OneFrame(rt, es[n], clock(n), rest);
      assert Frames(rt, es, clock) + rest == Frames(rt, es[..n], clock) + (f + rest);
      assert es[..n] + ([es[n]] + ParseFrames(rt, rest)) == es + ParseFrames(rt, rest);
    }
  }

  lemma OneFrame<V(!new)>(rt: Runtime<V>, e: Parsed<V>, ts: nat, rest: seq<byte>)
    requires RuntimeOk(rt) && Fits(rt, e, ts)
    ensures ParseFrames(rt, FrameV2(rt, e, ts) + rest) == [e] + ParseFrames(rt, rest)
  {
    var f := FrameV2(rt, e, ts);
    FrameBack(rt, e, ts, rest);
    hide FrameV2, FrameSize, ReadFrame, RuntimeOk, Fits;
    assert (f + rest)[..|f|] == f && (f + rest)[|f|..] == rest;
  }

  /** Frames cut anywhere give exactly the entries that lie wholly before the cut. */
  lemma {:induction false} TornFrames<V(!new)>(rt: Runtime<V>, es: seq<Parsed<V>>, clock: nat -> nat, k: nat)
    requires RuntimeOk(rt) && AllFit(rt, es, clock) && k <= |Frames(rt, es, clock)|
    ensures ParseFrames(rt, Frames(rt, es, clock)[..k]) == es[..Whole(rt, es, clock, k)]
    decreases |es|
  {
    hide FrameV2, FrameSize, ReadFrame, RuntimeOk, Fits;
    var all := Frames(rt, es, clock);
    if k == |all| {
      FramesBack(rt, es, clock, []);
      assert all[..k] + [] == all[..k] == all;
      EmptyData(rt);
      assert Whole(rt, es, clock, k) == |es| && es[..|es|] == es && es + [] == es;
    } else {
      var n := |es| - 1;
      var front := Frames(rt, es[..n], clock);
      if k <= |front| {
        TornFrames(rt, es[..n], clock, k);
        assert all[..k] == front[..k];
      } else {
        var f := FrameV2(rt, es[n], clock(n));
        assert all[..k] == front + f[..k - |front|];
        FrameBack(rt, es[n], clock(n), []);
        TornFrame(f, 17, k - |front|);
        FramesBack(rt, es[..n], clock, f[..k - |front|]);
        WholeOfMore(rt, es[..n], clock, k);
        assert es[..n] + [] == es[..n];
      }
    }
  }

  lemma EmptyData<V>(rt: Runtime<V>)
    ensures ParseFrames(rt, []) == []
  {
  }

  lemma WholeOfMore<V>(rt: Runtime<V>, es: seq<Parsed<V>>, clock: nat -> nat, k: int)
    requires k >= |Frames(rt, es, clock)|
    ensures Whole(rt, es, clock, k) == |es|
  {
  }

  /** Any byte prefix of a well-formed log parses to exactly the entries wholly inside it. */
  lemma PrefixParses<V(!new)>(rt: Runtime<V>, es: seq<Parsed<V>>, clock: nat -> nat, k: nat)
    requires RuntimeOk(rt) && AllFit(rt, es, clock) && k <= 5 + |Frames(rt, es, clock)|
    ensures ParseV2(rt, (Header() + Frames(rt, es, clock))[..k]) == es[..Whole(rt, es, clock, k - 5)]
  {
    hide Frames, ParseFrames;
    var frames := Frames(rt, es, clock);
    if k <= 5 {
      NothingWhole(rt, es, clock, k - 5);
    } else {
      assert (Header() + frames)[..k][5..] == frames[..k - 5];
      TornFrames(rt, es, clock, k - 5);
    }
  }

  lemma {:induction false} NothingWhole<V>(rt: Runtime<V>, es: seq<Parsed<V>>, clock: nat -> nat, k: int)
    requires k <= 0
    ensures Whole(rt, es, clock, k) == 0
  {
    hide FrameV2;
    if es != [] {
      var n := |es| - 1;
      FrameNotEmpty(rt, es[n], clock(n));
      NothingWhole(rt, es[..n], clock, k);
    }
  }

  lemma FrameNotEmpty<V>(rt: Runtime<V>, e: Parsed<V>, ts: nat)
    ensures |FrameV2(rt, e, ts)| > 0
  {
  }

  // ---- v1 entries and migration -------------------------------------------

  function ReadFrameV1<V>(rt: Runtime<V>, f: seq<byte>, lsn: nat): seq<Parsed<V>>
    requires FrameSize(f, 1) == Some(|f|) && CrcOk(f)
  {
    match rt.parse(rt.fromUtf8(ValueAt(f, 1)))
    case None => []
    case Some(v) => [Parsed(f[0], rt.fromUtf8(KeyAt(f, 1)), v, lsn)]
  }

  /** parseBinaryV1Entries: an entry takes an LSN even if its payload turns out not to parse. */
  function ParseV1<V>(rt: Runtime<V>, s: seq<byte>, lsn: nat): (out: seq<Parsed<V>>)
    decreases |s|
  {
    match FrameSize(s, 1)
    case None => []
    case Some(n) =>
      FrameSizeStable(s, 1);
      if CrcOk(s[..n]) then ReadFrameV1(rt, s[..n], lsn + 1) + ParseV1(rt, s[n..], lsn + 1)
      else ParseV1(rt, s[n..], lsn)
  }

  predicate Rises<V>(es: seq<Parsed<V>>, lsn: nat)
  {
    && (forall i :: 0 <= i < |es| ==> es[i].lsn > lsn)
    && (forall i, j :: 0 <= i < j < |es| ==> es[i].lsn < es[j].lsn)
  }

  lemma RiseJoin<V>(first: seq<Parsed<V>>, rest: seq<Parsed<V>>, lsn: nat)
    requires |first| <= 1 && (first != [] ==> first[0].lsn == lsn + 1) && Rises(rest, lsn + 1)
    ensures Rises(first + rest, lsn)
  {
    assert forall i :: |first| <= i < |first + rest| ==> (first + rest)[i] == rest[i - |first|];
  }

  /** The LSNs a v1 log is given rise strictly. */
  lemma {:induction false} LsnsRise<V>(rt: Runtime<V>, s: seq<byte>, lsn: nat)
    ensures Rises(ParseV1(rt, s, lsn), lsn)
    decreases |s|
  {
    if FrameSize(s, 1).Some? {
      var n := FrameSize(s, 1).value;
      FrameSizeStable(s, 1);
      hide FrameSize, CrcOk, ReadFrameV1, Rises;
      if CrcOk(s[..n]) {
        LsnsRise(rt, s[n..], lsn + 1);
        FrameLsn(rt, s[..n], lsn + 1);
        RiseJoin(ReadFrameV1(rt, s[..n], lsn + 1), ParseV1(rt, s[n..], lsn + 1), lsn);
      } else {
        LsnsRise(rt, s[n..], lsn);
      }
    }
  }

  lemma FrameLsn<V>(rt: Runtime<V>, f: seq<byte>, lsn: nat)
    requires FrameSize(f, 1) == Some(|f|) && CrcOk(f)
    ensures |ReadFrameV1(rt, f, lsn)| <= 1
    ensures ReadFrameV1(rt, f, lsn) != [] ==> ReadFrameV1(rt, f, lsn)[0].lsn == lsn
  {
  }

  lemma FrameSizeBound(s: seq<byte>, fixed: nat)
    requires FrameSize(s, fixed).Some?
    ensures fixed + 10 <= FrameSize(s, fixed).value <= |s|
  {
  }

  // ---- what frames hold ---------------------------------------------------

  /** Any frame: what stands before the key, the key, the value and the stored checksum. */
  function Framed(front: seq<byte>, key: seq<byte>, val: seq<byte>, crc: nat): (s: seq<byte>)
    ensures |s| == |front| + |key| + |val| + 10
  {
    front + (ToLE(|key|, 2) + (key + (ToLE(|val|, 4) + val))) + ToLE(crc, 4)
  }

  predicate LengthsFit(key: seq<byte>, val: seq<byte>, crc: nat)
  {
    |key| < 0x1_0000 && |val| < 0x1_0000_0000 && crc < 0x1_0000_0000
  }

  /** A frame is measured whatever follows it, its fields are found, and its checksum is compared with the computed one. */
  lemma FramedBack(front: seq<byte>, key: seq<byte>, val: seq<byte>, crc: nat, rest: seq<byte>)
    requires LengthsFit(key, val, crc)
    ensures var f, fixed := Framed(front, key, val, crc), |front|;
            && FrameSize(f + rest, fixed) == Some(|f|) && FrameSize(f, fixed) == Some(|f|)
            && f[..fixed] == front && KeyAt(f, fixed) == key && ValueAt(f, fixed) == val
            && (CrcOk(f) <==> crc == Crc32(f[..|f| - 4]))
  {
    hide ToLE, FromLE, Crc32;
    FieldWidths();
    FromLEToLE(|key|, 2);
    FromLEToLE(|val|, 4);
    FromLEToLE(crc, 4);
    var f, n := Framed(front, key, val, crc), |front|;
    var p := n + 2 + |key|;
    assert f[n..n + 2] == ToLE(|key|, 2) && (f + rest)[n..n + 2] == f[n..n + 2];
    assert f[n + 2..p] == key;
    assert f[p..p + 4] == ToLE(|val|, 4) && (f + rest)[p..p + 4] == f[p..p + 4];
    assert f[p + 4..|f| - 4] == val;
    assert f[|f| - 4..] == ToLE(crc, 4);
  }

  /** A v1 frame, perhaps damaged. */
  datatype RawV1 = RawV1(op: byte, key: seq<byte>, val: seq<byte>, crc: nat)

  /** The v1 format: op, key length, key, value length, value, checksum. */
  function BytesV1(r: RawV1): (s: seq<byte>)
    ensures |s| >= 11
  {
    Framed([r.op], r.key, r.val, r.crc)
  }

  predicate FitsV1(r: RawV1) { LengthsFit(r.key, r.val, r.crc) }

  predicate AllFitV1(rs: seq<RawV1>)
  {
    forall i :: 0 <= i < |rs| ==> FitsV1(rs[i])
  }

  /** The stored checksum is that of the bytes in front of it. */
  predicate Sound(r: RawV1) { r.crc == Crc32(BytesV1(r)[..|BytesV1(r)| - 4]) }

  function FileV1(rs: seq<RawV1>): seq<byte>
  {
    if rs == [] then [] else BytesV1(rs[0]) + FileV1(rs[1..])
  }

  function WholeV1(rs: seq<RawV1>, k: nat): (n: nat)
    ensures n <= |rs|
  {
    if rs == [] || k < |BytesV1(rs[0])| then 0 else 1 + WholeV1(rs[1..], k - |BytesV1(rs[0])|)
  }

  function ValueOf<V>(rt: Runtime<V>, r: RawV1): Option<V> { rt.parse(rt.fromUtf8(r.val)) }

  /** The entries in a row of frames: sound ones that parse, each under the count of sound frames up to it. */
  function Heard<V>(rt: Runtime<V>, rs: seq<RawV1>, lsn: nat): (es: seq<Parsed<V>>)
  {
    if rs == [] then []
    else if !Sound(rs[0]) then Heard(rt, rs[1..], lsn)
    else if ValueOf(rt, rs[0]) == None then Heard(rt, rs[1..], lsn + 1)
    else [Parsed(rs[0].op, rt.fromUtf8(rs[0].key), ValueOf(rt, rs[0]).value, lsn + 1)] + Heard(rt, rs[1..], lsn + 1)
  }

  /** One whole v1 frame in front of anything. */
  lemma FrontV1<V>(rt: Runtime<V>, r: RawV1, rest: seq<byte>, lsn: nat)
    requires FitsV1(r)
    ensures ParseV1(rt, BytesV1(r) + rest, lsn)
         == if !Sound(r) then ParseV1(rt, rest, lsn)
            else if ValueOf(rt, r) == None then ParseV1(rt, rest, lsn + 1)
            else [Parsed(r.op, rt.fromUtf8(r.key), ValueOf(rt, r).value, lsn + 1)] + ParseV1(rt, rest, lsn + 1)
  {
    var f := BytesV1(r);
    FramedBack([r.op], r.key, r.val, r.crc, rest);
    assert f[0] == r.op by {
      assert f[..1][0] == f[0];
    }
    hide Framed, FrameSize, CrcOk, Crc32, KeyAt, ValueAt;
    assert (f + rest)[..|f|] == f && (f + rest)[|f|..] == rest;
    assert [] + ParseV1(rt, rest, lsn + 1) == ParseV1(rt, rest, lsn + 1);
  }

  /** The v1 parser reads the format: frames cut anywhere give exactly what the frames wholly in front of the cut hold. */
  lemma {:induction false} ParsesV1<V>(rt: Runtime<V>, rs: seq<RawV1>, k: nat, lsn: nat)
    requires AllFitV1(rs) && k <= |FileV1(rs)|
    ensures ParseV1(rt, FileV1(rs)[..k], lsn) == Heard(rt, rs[..WholeV1(rs, k)], lsn)
    decreases |rs|
  {
    hide BytesV1, FitsV1, Sound, ValueOf, FrameSize, ParseV1;
    if rs == [] {
      NothingV1(rt, lsn);
    } else {
      var f, rest := BytesV1(rs[0]), FileV1(rs[1..]);
      if k < |f| {
        assert FileV1(rs)[..k] == f[..k];
        TornV1(rt, rs[0], k, lsn);
      } else {
        assert FileV1(rs)[..k] == f + rest[..k - |f|];
        FrontV1(rt, rs[0], rest[..k - |f|], lsn);
        var n := WholeV1(rs[1..], k - |f|);
        assert rs[..n + 1][1..] == rs[1..][..n];
        if !Sound(rs[0]) {
          ParsesV1(rt, rs[1..], k - |f|, lsn);
        } else {
          ParsesV1(rt, rs[1..], k - |f|, lsn + 1);
        }
      }
    }
  }

  lemma NothingV1<V>(rt: Runtime<V>, lsn: nat)
    ensures ParseV1(rt, [], lsn) == []
  {
  }

  lemma TornV1<V>(rt: Runtime<V>, r: RawV1, k: nat, lsn: nat)
    requires FitsV1(r) && k < |BytesV1(r)|
    ensures ParseV1(rt, BytesV1(r)[..k], lsn) == []
  {
    FramedBack([r.op], r.key, r.val, r.crc, []);
    hide Framed;
    TornFrame(BytesV1(r), 1, k);
  }

  /** A damaged frame is skipped and takes no LSN. */
  lemma {:induction false} DamagedV1<V>(rt: Runtime<V>, a: seq<RawV1>, bad: RawV1, b: seq<RawV1>, lsn: nat)
    requires !Sound(bad)
    ensures Heard(rt, a + [bad] + b, lsn) == Heard(rt, a + b, lsn)
    decreases |a|
  {
    hide Sound, ValueOf;
    var all, left := a + [bad] + b, a + b;
    if a == [] {
      assert all[1..] == b == left;
    } else {
      assert all[1..] == a[1..] + [bad] + b && left[1..] == a[1..] + b;
      DamagedV1(rt, a[1..], bad, b, lsn);
      DamagedV1(rt, a[1..], bad, b, lsn + 1);
    }
  }

  /** An entry as v1 wrote it. */
  function RawOf<V>(rt: Runtime<V>, e: Parsed<V>): RawV1
  {
    var body := Framed([e.op], rt.toUtf8(e.key), rt.toUtf8(rt.stringify(e.payload)), 0);
    RawV1(e.op, rt.toUtf8(e.key), rt.toUtf8(rt.stringify(e.payload)), Crc32(body[..|body| - 4]))
  }

  function RawsOf<V>(rt: Runtime<V>, es: seq<Parsed<V>>): (rs: seq<RawV1>)
    ensures |rs| == |es| && forall i :: 0 <= i < |rs| ==> rs[i] == RawOf(rt, es[i])
  {
    seq(|es|, i requires 0 <= i < |es| => RawOf(rt, es[i]))
  }

  /** The entries under the LSNs from `lsn` + 1 on. */
  function Numbered<V>(es: seq<Parsed<V>>, lsn: nat): (ns: seq<Parsed<V>>)
    ensures |ns| == |es| && forall i :: 0 <= i < |ns| ==> ns[i] == es[i].(lsn := lsn + 1 + i)
  {
    seq(|es|, i requires 0 <= i < |es| => es[i].(lsn := lsn + 1 + i))
  }

  lemma RawSound<V(!new)>(rt: Runtime<V>, e: Parsed<V>)
    requires RuntimeOk(rt)
    ensures Sound(RawOf(rt, e)) && ValueOf(rt, RawOf(rt, e)) == Some(e.payload) && rt.fromUtf8(RawOf(rt, e).key) == e.key
    ensures RawOf(rt, e).op == e.op
  {
    hide Crc32, ToLE;
    var r := RawOf(rt, e);
    var body := Framed([e.op], r.key, r.val, 0);
    assert BytesV1(r)[..|BytesV1(r)| - 4] == body[..|body| - 4];
  }

  lemma {:induction false} HeardAll<V(!new)>(rt: Runtime<V>, es: seq<Parsed<V>>, lsn: nat)
    requires RuntimeOk(rt)
    ensures Heard(rt, RawsOf(rt, es), lsn) == Numbered(es, lsn)
    decreases |es|
  {
    hide RawOf, Sound, ValueOf, RuntimeOk;
    if es != [] {
      RawSound(rt, es[0]);
      HeardAll(rt, es[1..], lsn + 1);
      var rs := RawsOf(rt, es);
      assert rs[1..] == RawsOf(rt, es[1..]);
      assert Numbered(es, lsn) == [es[0].(lsn := lsn + 1)] + Numbered(es[1..], lsn + 1);
    }
  }

  /** A v1 log cut anywhere gives exactly the entries wholly in front of the cut, ops, keys and payloads as they were
      written, under the LSNs 1, 2, 3 and so on. */
  lemma TornLogV1<V(!new)>(rt: Runtime<V>, es: seq<Parsed<V>>, k: nat)
    requires RuntimeOk(rt) && AllFitV1(RawsOf(rt, es)) && k <= |FileV1(RawsOf(rt, es))|
    ensures var n := WholeV1(RawsOf(rt, es), k);
            ParseV1(rt, FileV1(RawsOf(rt, es))[..k], 0) == Numbered(es[..n], 0)
  {
    hide RuntimeOk, ParseV1, Heard, AllFitV1, FileV1, WholeV1;
    var rs := RawsOf(rt, es);
    var n := WholeV1(rs, k);
    ParsesV1(rt, rs, k, 0);
    assert rs[..n] == RawsOf(rt, es[..n]);
    HeardAll(rt, es[..n], 0);
  }

  /** Damaged frames of a v2 log are skipped, wherever they stand, and so are sound ones whose payload is not JSON. */
  lemma DamagedV2<V(!new)>(rt: Runtime<V>, es: seq<Parsed<V>>, clock: nat -> nat, front: seq<byte>, key: seq<byte>,
                           val: seq<byte>, crc: nat, rest: seq<byte>)
    requires RuntimeOk(rt) && AllFit(rt, es, clock) && |front| == 17 && LengthsFit(key, val, crc)
    ensures var f := Framed(front, key, val, crc);
            ParseFrames(rt, Frames(rt, es, clock) + (f + rest))
              == es + (if crc != Crc32(f[..|f| - 4]) || rt.parse(rt.fromUtf8(val)) == None then []
                       else [Parsed(front[16], rt.fromUtf8(key), rt.parse(rt.fromUtf8(val)).value, FromLE(front[..8]))])
                 + ParseFrames(rt, rest)
  {
    var f := Framed(front, key, val, crc);
    FramesBack(rt, es, clock, f + rest);
    FrontV2(rt, front, key, val, crc, rest);
    hide Framed, ParseFrames, Frames, Crc32, RuntimeOk, AllFit;
  }

  lemma FrontV2<V>(rt: Runtime<V>, front: seq<byte>, key: seq<byte>, val: seq<byte>, crc: nat, rest: seq<byte>)
    requires |front| == 17 && LengthsFit(key, val, crc)
    ensures var f := Framed(front, key, val, crc);
            ParseFrames(rt, f + rest)
              == (if crc != Crc32(f[..|f| - 4]) || rt.parse(rt.fromUtf8(val)) == None then []
                  else [Parsed(front[16], rt.fromUtf8(key), rt.parse(rt.fromUtf8(val)).value, FromLE(front[..8]))])
                 + ParseFrames(rt, rest)
  {
    var f := Framed(front, key, val, crc);
    FramedBack(front, key, val, crc, rest);
    assert f[16] == front[16] && f[..8] == front[..8] by {
      assert f[..17][16] == f[16] && f[..17][..8] == f[..8];
    }
    hide Framed, FrameSize, CrcOk, Crc32, KeyAt, ValueAt, FromLE;
    assert (f + rest)[..|f|] == f && (f + rest)[|f|..] == rest;
  }

  predicate HasV2Header(file: seq<byte>) { |file| >= 5 && file[..5] == Header() }

  function EncodeAll<V>(rt: Runtime<V>, es: seq<Parsed<V>>, clock: nat -> nat): Result<seq<byte>>
  {
    if AllFit(rt, es, clock) then Ok(Header() + Frames(rt, es, clock)) else Err(OutOfRange)
  }

  /** Opening a v1 log rewrites it as v2 with the same operations, in the same order, under the same LSNs.
      It fails only on an entry v2 has no room for. */
  lemma MigrationKeepsEntries<V(!new)>(rt: Runtime<V>, file: seq<byte>, clock: nat -> nat)
    requires RuntimeOk(rt)
    ensures var es := ParseV1(rt, file, 0);
            var migrated := EncodeAll(rt, es, clock);
            && (migrated.Ok? ==> HasV2Header(migrated.value) && ParseV2(rt, migrated.value) == es)
            && (migrated.Ok? <==> forall i :: 0 <= i < |es| ==> Fits(rt, es[i], clock(i)))
  {
    hide ParseV1, Frames, RuntimeOk, Fits, ParseFrames;
    var es := ParseV1(rt, file, 0);
    if AllFit(rt, es, clock) {
      var frames := Frames(rt, es, clock);
      FramesBack(rt, es, clock, []);
      EmptyData(rt);
      assert frames + [] == frames && es + [] == es;
      assert (Header() + frames)[5..] == frames;
      if |frames| == 0 {
        assert frames == [];
      }
    }
  }

  /** The upgrade of a v1 log, cut anywhere: its whole entries come out as they were written. No v1 operation is the
      first byte of the v2 header, so no v1 log is taken for v2. */
  lemma UpgradeKeepsEntries<V(!new)>(rt: Runtime<V>, es: seq<Parsed<V>>, k: nat, clock: nat -> nat)
    requires RuntimeOk(rt) && AllFitV1(RawsOf(rt, es)) && k <= |FileV1(RawsOf(rt, es))|
    requires forall i :: 0 <= i < |es| ==> 1 <= es[i].op <= 3
    ensures var file := FileV1(RawsOf(rt, es))[..k];
            var left := Numbered(es[..WholeV1(RawsOf(rt, es), k)], 0);
            && !HasV2Header(file)
            && (AllFit(rt, left, clock) ==>
                  var migrated := EncodeAll(rt, ParseV1(rt, file, 0), clock);
                  migrated.Ok? && HasV2Header(migrated.value) && ParseV2(rt, migrated.value) == left)
  {
    hide RuntimeOk, ParseV1, WholeV1, EncodeAll, ParseV2, Fits, HasV2Header, FileV1, AllFitV1, Numbered;
    var file := FileV1(RawsOf(rt, es))[..k];
    TornLogV1(rt, es, k);
    MigrationKeepsEntries(rt, file, clock);
    NotTakenForV2(RawsOf(rt, es), k);
  }

  lemma NotTakenForV2(rs: seq<RawV1>, k: nat)
    requires k <= |FileV1(rs)| && forall i :: 0 <= i < |rs| ==> rs[i].op != 0x47
    ensures !HasV2Header(FileV1(rs)[..k])
  {
    hide ToLE;
    if k > 0 {
      assert FileV1(rs)[..k][0] == FileV1(rs)[0] == rs[0].op;
    }
  }

  // ---- the loops ----------------------------------------------------------

  /** FrameSize read straight off the buffer. */
  lemma FrameAt(buffer: seq<byte>, start: nat, fixed: nat)
    requires start <= |buffer|
    ensures var s, k := buffer[start..], start + fixed;
            if k + 2 > |buffer| then FrameSize(s, fixed) == None
            else
              var p := k + 2 + FromLE(buffer[k..k + 2]);
              if p + 4 > |buffer| then FrameSize(s, fixed) == None
              else
                var end := p + 8 + FromLE(buffer[p..p + 4]);
                if end > |buffer| then FrameSize(s, fixed) == None
                else FrameSize(s, fixed) == Some(end - start)
                     && s[..end - start] == buffer[start..end] && s[end - start..] == buffer[end..]
                     && FrameSize(buffer[start..end], fixed) == Some(end - start)
                     && KeyAt(buffer[start..end], fixed) == buffer[k + 2..p]
                     && ValueAt(buffer[start..end], fixed) == buffer[p + 4..end - 4]
  {
    hide FromLE;
    var s, k := buffer[start..], start + fixed;
    if k + 2 <= |buffer| {
      assert s[fixed..fixed + 2] == buffer[k..k + 2];
      var p := k + 2 + FromLE(buffer[k..k + 2]);
      if p + 4 <= |buffer| {
        assert s[p - start..p - start + 4] == buffer[p..p + 4];
        var end := p + 8 + FromLE(buffer[p..p + 4]);
        if end <= |buffer| {
          assert FrameSize(s, fixed) == Some(end - start);
          FrameSizeStable(s, fixed);
          assert s[..end - start] == buffer[start..end] && s[end - start..] == buffer[end..];
          var f := buffer[start..end];
          SliceOf(buffer, start, end, fixed, fixed + 2);
          SliceOf(buffer, start, end, fixed + 2, p - start);
          SliceOf(buffer, start, end, p - start + 4, |f| - 4);
        }
      }
    }
  }

  lemma SliceOf(buffer: seq<byte>, start: nat, end: nat, a: nat, b: nat)
    requires start <= end <= |buffer| && a <= b <= end - start
    ensures buffer[start..end][a..b] == buffer[start + a..start + b]
  {
    var x, y := buffer[start..end][a..b], buffer[start + a..start + b];
    assert |x| == |y| && forall i :: 0 <= i < |x| ==> x[i] == buffer[start..end][a + i] == buffer[start + (a + i)] == y[i];
  }

  lemma CrcAt(buffer: seq<byte>, start: nat, end: nat)
    requires start + 4 <= end <= |buffer|
    ensures CrcOk(buffer[start..end]) <==> Crc32(buffer[start..end - 4]) == FromLE(buffer[end - 4..end])
  {
    hide FromLE, Crc32;
    var f := buffer[start..end];
    assert f[..|f| - 4] == buffer[start..end - 4] && f[|f| - 4..] == buffer[end - 4..end];
  }

  lemma EntryAt<V>(rt: Runtime<V>, buffer: seq<byte>, start: nat, end: nat)
    requires start <= end <= |buffer| && FrameSize(buffer[start..end], 17) == Some(end - start)
    ensures var f := buffer[start..end];
            ReadFrame(rt, f) ==
            if Crc32(buffer[start..end - 4]) != FromLE(buffer[end - 4..end]) then []
            else match rt.parse(rt.fromUtf8(ValueAt(f, 17)))
                 case None => []
                 case Some(v) =>
                   [Parsed(buffer[start + 16], rt.fromUtf8(KeyAt(f, 17)), v, FromLE(buffer[start..start + 8]))]
  {
    hide FromLE, Crc32, FrameSize, KeyAt, ValueAt;
    CrcAt(buffer, start, end);
    assert buffer[start..end][..8] == buffer[start..start + 8];
  }

  /** What is left to parse at an offset. */
  ghost predicate PendingV2<V>(rt: Runtime<V>, buffer: seq<byte>, out: seq<Parsed<V>>, offset: nat)
  {
    5 <= offset && (5 < |buffer| ==> offset <= |buffer|) &&
    ParseV2(rt, buffer) == if offset < |buffer| then out + ParseFrames(rt, buffer[offset..]) else out
  }

  lemma StartV2<V>(rt: Runtime<V>, buffer: seq<byte>)
    ensures PendingV2(rt, buffer, [], 5)
  {
    if |buffer| > 5 {
      assert [] + ParseFrames(rt, buffer[5..]) == ParseV2(rt, buffer);
    }
  }

  lemma BrokenV2<V>(rt: Runtime<V>, buffer: seq<byte>, out: seq<Parsed<V>>, offset: nat)
    requires PendingV2(rt, buffer, out, offset) && offset < |buffer| && FrameSize(buffer[offset..], 17) == None
    ensures out == ParseV2(rt, buffer)
  {
    hide FrameSize;
    assert out + [] == out;
  }

  lemma StepV2<V>(rt: Runtime<V>, buffer: seq<byte>, out: seq<Parsed<V>>, offset: nat, end: nat)
    requires PendingV2(rt, buffer, out, offset) && offset < end <= |buffer|
    requires FrameSize(buffer[offset..], 17) == Some(end - offset) == FrameSize(buffer[offset..end], 17)
    ensures PendingV2(rt, buffer, out + ReadFrame(rt, buffer[offset..end]), end)
  {
    hide FrameSize, ReadFrame;
    var s, f := buffer[offset..], ReadFrame(rt, buffer[offset..end]);
    assert s[..end - offset] == buffer[offset..end] && s[end - offset..] == buffer[end..];
    assert ParseFrames(rt, s) == f + ParseFrames(rt, buffer[end..]);
    assert out + (f + ParseFrames(rt, buffer[end..])) == out + f + ParseFrames(rt, buffer[end..]);
    if end == |buffer| {
      assert buffer[end..] == [];
      EmptyFrames(rt);
      assert out + f + [] == out + f;
    }
  }

  lemma EmptyFrames<V>(rt: Runtime<V>)
    ensures ParseFrames(rt, []) == []
  {
  }

  method ParseBinaryV2Entries<V>(rt: Runtime<V>, table: array<bv32>, buffer: seq<byte>) returns (out: seq<Parsed<V>>)
    requires TableOk(table)
    ensures out == ParseV2(rt, buffer)
  {
    hide FromLE, Crc32, Steps, Word, Octet, PendingV2, FrameSize, KeyAt, ValueAt, CrcOk, ReadFrame, TableOk, ParseV2;
    out := [];
    var offset := 5;
    StartV2(rt, buffer);
    while offset < |buffer|
      invariant PendingV2(rt, buffer, out, offset)
    {
      var start := offset;
      FrameAt(buffer, start, 17);
      BrokenIfShort(rt, buffer, out, start);
      if offset + 8 + 8 + 1 + 2 > |buffer| {
        return;
      }
      var lsn := FromLE(buffer[offset..offset + 8]);
      offset := offset + 16;
      var op := buffer[offset];
      offset := offset + 1;
      var keyLen := FromLE(buffer[offset..offset + 2]);
      offset := offset + 2;
      if offset + keyLen + 4 > |buffer| {
        return;
      }
      var key := rt.fromUtf8(buffer[offset..offset + keyLen]);
      offset := offset + keyLen;
      var valLen := FromLE(buffer[offset..offset + 4]);
      offset := offset + 4;
      if offset + valLen + 4 > |buffer| {
        return;
      }
      var payloadRaw := rt.fromUtf8(buffer[offset..offset + valLen]);
      offset := offset + valLen;
      var storedCrc := FromLE(buffer[offset..offset + 4]);
      offset := offset + 4;
      StepV2(rt, buffer, out, start, offset);
      EntryAt(rt, buffer, start, offset);
      var crc := ComputeCrc32(table, buffer[start..offset - 4]);
      if crc != storedCrc {
        assert out + [] == out;
        continue;
      }
      var payload := rt.parse(payloadRaw);
      if payload == None {
        assert out + [] == out;
      } else {
        out := out + [Parsed(op, key, payload.value, lsn)];
      }
    }
    FinishV2(rt, buffer, out, offset);
  }

  lemma BrokenIfShort<V>(rt: Runtime<V>, buffer: seq<byte>, out: seq<Parsed<V>>, offset: nat)
    requires PendingV2(rt, buffer, out, offset) && offset < |buffer|
    ensures FrameSize(buffer[offset..], 17) == None ==> out == ParseV2(rt, buffer)
  {
    hide PendingV2, FrameSize, ParseV2;
    if FrameSize(buffer[offset..], 17) == None {
      BrokenV2(rt, buffer, out, offset);
    }
  }

  lemma FinishV2<V>(rt: Runtime<V>, buffer: seq<byte>, out: seq<Parsed<V>>, offset: nat)
    requires PendingV2(rt, buffer, out, offset) && offset >= |buffer|
    ensures out == ParseV2(rt, buffer)
  {
  }

  ghost predicate PendingV1<V>(rt: Runtime<V>, buffer: seq<byte>, out: seq<Parsed<V>>, offset: nat, lsn: nat)
  {
    offset <= |buffer| && ParseV1(rt, buffer, 0) == out + ParseV1(rt, buffer[offset..], lsn)
  }

  lemma BrokenV1<V>(rt: Runtime<V>, buffer: seq<byte>, out: seq<Parsed<V>>, offset: nat, lsn: nat)
    requires PendingV1(rt, buffer, out, offset, lsn)
    ensures FrameSize(buffer[offset..], 1) == None ==> out == ParseV1(rt, buffer, 0)
    ensures offset == |buffer| ==> out == ParseV1(rt, buffer, 0)
  {
    hide FromLE;
    assert out + [] == out;
    if offset == |buffer| {
      assert buffer[offset..] == [];
    }
  }

  lemma StepV1<V>(rt: Runtime<V>, buffer: seq<byte>, out: seq<Parsed<V>>, offset: nat, end: nat, lsn: nat)
    requires PendingV1(rt, buffer, out, offset, lsn) && offset + 4 <= end <= |buffer|
    requires FrameSize(buffer[offset..], 1) == Some(end - offset) == FrameSize(buffer[offset..end], 1)
    ensures var f := buffer[offset..end];
            if CrcOk(f) then PendingV1(rt, buffer, out + ReadFrameV1(rt, f, lsn + 1), end, lsn + 1)
            else PendingV1(rt, buffer, out, end, lsn)
  {
    hide FrameSize, ReadFrameV1, CrcOk;
    var s := buffer[offset..];
    assert s[..end - offset] == buffer[offset..end] && s[end - offset..] == buffer[end..];
    if CrcOk(buffer[offset..end]) {
      var f := ReadFrameV1(rt, buffer[offset..end], lsn + 1);
      var rest := ParseV1(rt, buffer[end..], lsn + 1);
      assert ParseV1(rt, s, lsn) == f + rest;
      assert out + (f + rest) == out + f + rest;
    }
  }

  method ParseBinaryV1Entries<V>(rt: Runtime<V>, table: array<bv32>, buffer: seq<byte>) returns (out: seq<Parsed<V>>)
    requires TableOk(table)
    ensures out == ParseV1(rt, buffer, 0)
  {
    hide FromLE, Crc32, Steps, Word, Octet, PendingV1, FrameSize, KeyAt, ValueAt, CrcOk;
    out := [];
    var offset := 0;
    var lsn := 0;
    StartV1(rt, buffer);
    while offset < |buffer|
      invariant PendingV1(rt, buffer, out, offset, lsn) && offset <= |buffer|
    {
      var start := offset;
      FrameAt(buffer, start, 1);
      BrokenV1(rt, buffer, out, start, lsn);
      if offset + 1 + 2 > |buffer| {
        return;
      }
      var op := buffer[offset];
      offset := offset + 1;
      var keyLen := FromLE(buffer[offset..offset + 2]);
      offset := offset + 2;
      if offset + keyLen + 4 > |buffer| {
        return;
      }
      var key := rt.fromUtf8(buffer[offset..offset + keyLen]);
      offset := offset + keyLen;
      var valLen := FromLE(buffer[offset..offset + 4]);
      offset := offset + 4;
      if offset + valLen + 4 > |buffer| {
        return;
      }
      var payloadRaw := rt.fromUtf8(buffer[offset..offset + valLen]);
      offset := offset + valLen;
      var storedCrc := FromLE(buffer[offset..offset + 4]);
      offset := offset + 4;
      StepV1(rt, buffer, out, start, offset, lsn);
      CrcAt(buffer, start, offset);
      var crc := ComputeCrc32(table, buffer[start..offset - 4]);
      if crc != storedCrc {
        continue;
      }
      lsn := lsn + 1;
      var payload := rt.parse(payloadRaw);
      if payload == None {
        assert out + [] == out;
      } else {
        out := out + [Parsed(op, key, payload.value, lsn)];
      }
    }
    BrokenV1(rt, buffer, out, offset, lsn);
  }

  lemma StartV1<V>(rt: Runtime<V>, buffer: seq<byte>)
    ensures PendingV1(rt, buffer, [], 0, 0)
  {
    assert buffer[0..] == buffer;
    assert [] + ParseV1(rt, buffer, 0) == ParseV1(rt, buffer, 0);
  }

  /** ensureWalReady: a missing or empty file gets a header, a v2 log is left alone and any other file is
      taken for v1 and rewritten. */
  method EnsureWalReady<V>(rt: Runtime<V>, table: array<bv32>, file: seq<byte>, clock: nat -> nat)
      returns (r: Result<seq<byte>>)
    requires TableOk(table)
    ensures r == if file == [] then Ok(Header()) else if HasV2Header(file) then Ok(file)
                 else EncodeAll(rt, ParseV1(rt, file, 0), clock)
  {
    hide TableOk, Fits, FrameV2;
    if |file| == 0 {
      return Ok(Header());
    }
    if |file| >= 5 && file[..5] == Header() {
      return Ok(file);
    }
    var entries := ParseBinaryV1Entries(rt, table, file);
    var chunks: seq<byte> := [];
    for i := 0 to |entries|
      invariant AllFit(rt, entries[..i], clock) && chunks == Frames(rt, entries[..i], clock)
    {
      assert entries[..i + 1][..i] == entries[..i] && entries[..i + 1][i] == entries[i];
      var frame := EncodeV2(rt, entries[i], clock(i));
      if frame.Err? {
        return Err(OutOfRange);
      }
      chunks := chunks + frame.value;
    }
    assert entries[..|entries|] == entries;
    r := Ok(Header() + chunks);
  }
}
