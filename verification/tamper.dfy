/** What the readers refuse (src/gics/decode.ts): files that were sealed and then changed, segment by segment, field by
    field. */
module Tamper {
  import opened Bytes
  import opened Snapshots
  import opened Sections
  import opened SegmentIndex
  import opened SegmentCodec
  import opened Container
  import opened GicsFile

  // ---- a sealed file with other bytes for one segment ---------------------

  /** The root the chain stands at in front of segment k. */
  function ChainAt(env: Env, on: bool, log: seq<Coded>, k: nat): seq<byte>
    requires AllOk(log, on) && k <= |log|
  {
    Segs(env, on, log[..k], 0, Genesis()).1
  }

  function RawsAt(env: Env, on: bool, log: seq<Coded>, k: nat): seq<RawSection>
    requires AllOk(log, on) && k < |log|
  {
    WrapAll(env, k, EncodedOf(log[k], on).sections, ChainAt(env, on, log, k)).0
  }

  function RootAt(env: Env, on: bool, log: seq<Coded>, k: nat): seq<byte>
    requires AllOk(log, on) && k < |log|
  {
    RootAfter(env, on, log[k], k, ChainAt(env, on, log, k))
  }

  /** What the CRC of segment k covers, were these its sections. */
  function PreWith(env: Env, on: bool, log: seq<Coded>, k: nat, raws: seq<RawSection>): seq<byte>
    requires AllOk(log, on) && k < |log|
  {
    PreFooter(EncodedOf(log[k], on), raws, EncodeIndex(IndexFor(log[k])))
  }

  function PreAt(env: Env, on: bool, log: seq<Coded>, k: nat): seq<byte>
    requires AllOk(log, on) && k < |log|
  {
    PreWith(env, on, log, k, RawsAt(env, on, log, k))
  }

  /** Everything behind segment k: the segments after it and the end record. */
  function Behind(env: Env, on: bool, log: seq<Coded>, k: nat): seq<byte>
    requires AllOk(log, on) && k < |log|
  {
    Segs(env, on, log[k + 1..], k + 1, RootAt(env, on, log, k)).0 + EosBytes(env, Segs(env, on, log, 0, Genesis()).1)
  }

  /** The sealed file of the log with other bytes in the place of segment k. */
  function Patched(env: Env, on: bool, log: seq<Coded>, k: nat, bytes: seq<byte>): seq<byte>
    requires AllOk(log, on) && k < |log|
  {
    FileHeader(env) + (Segs(env, on, log[..k], 0, Genesis()).0 + (bytes + Behind(env, on, log, k)))
  }

  // ---- the log around a segment -------------------------------------------

  lemma {:induction false} LogSplit(env: Env, on: bool, log: seq<Coded>, k: nat, ordinal: nat, chain: seq<byte>)
    requires LogOk(env, on, log, ordinal, chain) && k < |log|
    ensures AllOk(log, on) && AllOk(log[..k], on) && AllOk(log[k + 1..], on) && CodedOk(log[k], on)
    ensures var (front, at) := Segs(env, on, log[..k], ordinal, chain);
            var root := RootAfter(env, on, log[k], ordinal + k, at);
            var (rest, last) := Segs(env, on, log[k + 1..], ordinal + k + 1, root);
            && LogOk(env, on, log[..k], ordinal, chain) && Fits(env, on, log[k], ordinal + k, at)
            && Segs(env, on, log, ordinal, chain)
               == (front + (BytesOf(env, on, log[k], ordinal + k, at) + rest), last)
    decreases k
  {
    hide Fits, CodedOk, BytesOf, RootAfter, LogOk, Segs;
    LogParts(env, on, log, ordinal, chain);
    LogHead(env, on, log, ordinal, chain);
    SegsHead(env, on, log, ordinal, chain);
    var root := RootAfter(env, on, log[0], ordinal, chain);
    if k == 0 {
      assert log[..0] == [];
      EmptyLog(env, on, ordinal, chain);
      EmptyLogOk(env, on, ordinal, chain);
      var bytes, rest := BytesOf(env, on, log[0], ordinal, chain), Segs(env, on, log[1..], ordinal + 1, root).0;
      assert [] + (bytes + rest) == bytes + rest;
    } else {
      LogSplit(env, on, log[1..], k - 1, ordinal + 1, root);
      assert log[1..][..k - 1] == log[..k][1..] && log[1..][k - 1] == log[k] && log[1..][k..] == log[k + 1..];
      assert AllOk(log[..k], on);
      SegsHead(env, on, log[..k], ordinal, chain);
      LogCons(env, on, log[..k], ordinal, chain);
      var bytes := BytesOf(env, on, log[0], ordinal, chain);
      var front := Segs(env, on, log[1..][..k - 1], ordinal + 1, root).0;
      var at := Segs(env, on, log[1..][..k - 1], ordinal + 1, root).1;
      var mine := BytesOf(env, on, log[k], ordinal + k, at);
      var rest := Segs(env, on, log[k + 1..], ordinal + k + 1, RootAfter(env, on, log[k], ordinal + k, at)).0;
      assert bytes + (front + (mine + rest)) == bytes + front + (mine + rest);
    }
  }

  lemma EmptyLogOk(env: Env, on: bool, ordinal: nat, chain: seq<byte>)
    requires |chain| == 32
    ensures LogOk(env, on, [], ordinal, chain)
  {
  }

  lemma LogCons(env: Env, on: bool, log: seq<Coded>, ordinal: nat, chain: seq<byte>)
    requires log != [] && AllOk(log, on) && |chain| == 32 && Fits(env, on, log[0], ordinal, chain)
    requires LogOk(env, on, log[1..], ordinal + 1, RootAfter(env, on, log[0], ordinal, chain))
    ensures LogOk(env, on, log, ordinal, chain)
  {
  }

  /** Sealing is patching nothing. */
  lemma PatchedSelf(env: Env, on: bool, log: seq<Coded>, k: nat)
    requires LogOk(env, on, log, 0, Genesis()) && k < |log|
    ensures AllOk(log, on)
    ensures Patched(env, on, log, k, BytesOf(env, on, log[k], k, ChainAt(env, on, log, k))) == FileBytes(env, on, log)
  {
    hide LogOk, Segs, BytesOf, RootAfter, FileHeader, EosBytes, CodedOk, Fits;
    LogSplit(env, on, log, k, 0, Genesis());
    var front, bytes := Segs(env, on, log[..k], 0, Genesis()).0, BytesOf(env, on, log[k], k, ChainAt(env, on, log, k));
    var rest := Segs(env, on, log[k + 1..], k + 1, RootAt(env, on, log, k)).0;
    var eos := EosBytes(env, Segs(env, on, log, 0, Genesis()).1);
    assert front + (bytes + (rest + eos)) == front + (bytes + rest) + eos;
  }

  /** The three readers over what is left of a file. */
  ghost predicate AllRefuse(env: Env, s: seq<byte>, ordinal: nat, chain: seq<byte>, id: int)
  {
    VerifySegs(env, s, ordinal, chain).Err? && DecodeSegs(env, s, ordinal, chain).Err? && QuerySegs(env, s, ordinal, id).Err?
  }

  /** Sound segments in front change nothing about that. */
  lemma {:induction false} FrontVerifies(env: Env, on: bool, log: seq<Coded>, ordinal: nat, chain: seq<byte>, s: seq<byte>)
    requires EnvOk(env) && LogOk(env, on, log, ordinal, chain) && |s| >= EOS_SIZE
    ensures AllOk(log, on)
    ensures var (front, root) := Segs(env, on, log, ordinal, chain);
            VerifySegs(env, front + s, ordinal, chain) == VerifySegs(env, s, ordinal + |log|, root)
    decreases |log|
  {
    hide LogOk, Segs, ParseSegment, FollowChain, EncodedOf, CodedOk, BytesOf, RootAfter, Fits, EnvOk, IndexFor, VerifyParsed,
         ReadAs, DecodeParsed, DecodeSegment;
    LogParts(env, on, log, ordinal, chain);
    if log == [] {
      EmptyLog(env, on, ordinal, chain);
      assert [] + s == s;
    } else {
      var p, root := FrontSegment(env, on, log, ordinal, chain, s);
      ReadAsParts(env, on, log[0], ordinal, chain, p);
      FrontVerifies(env, on, log[1..], ordinal + 1, root, s);
    }
  }

  lemma {:induction false} FrontDecodes(env: Env, on: bool, log: seq<Coded>, ordinal: nat, chain: seq<byte>, s: seq<byte>,
                                        t: seq<byte>)
    requires EnvOk(env) && LogOk(env, on, log, ordinal, chain) && |s| >= EOS_SIZE && |t| >= EOS_SIZE
    ensures AllOk(log, on)
    ensures var (front, root) := Segs(env, on, log, ordinal, chain);
            && (DecodeSegs(env, s, ordinal + |log|, root).Err? ==> DecodeSegs(env, front + s, ordinal, chain).Err?)
            && (DecodeSegs(env, s, ordinal + |log|, root) == DecodeSegs(env, t, ordinal + |log|, root)
                ==> DecodeSegs(env, front + s, ordinal, chain) == DecodeSegs(env, front + t, ordinal, chain))
    decreases |log|
  {
    hide LogOk, Segs, ParseSegment, FollowChain, EncodedOf, CodedOk, BytesOf, RootAfter, Fits, EnvOk, IndexFor, VerifyParsed,
         ReadAs, DecodeParsed, DecodeSegment;
    LogParts(env, on, log, ordinal, chain);
    if log == [] {
      EmptyLog(env, on, ordinal, chain);
      assert [] + s == s && [] + t == t;
    } else {
      var p, root := FrontSegment(env, on, log, ordinal, chain, s);
      var q, root' := FrontSegment(env, on, log, ordinal, chain, t);
      ReadAsParts(env, on, log[0], ordinal, chain, p);
      ReadAsParts(env, on, log[0], ordinal, chain, q);
      FrontDecodes(env, on, log[1..], ordinal + 1, root, s, t);
    }
  }

  lemma {:induction false} FrontQueries(env: Env, on: bool, log: seq<Coded>, ordinal: nat, chain: seq<byte>, s: seq<byte>,
                                        t: seq<byte>, id: int)
    requires EnvOk(env) && LogOk(env, on, log, ordinal, chain) && |s| >= EOS_SIZE && |t| >= EOS_SIZE
    ensures AllOk(log, on)
    ensures var front := Segs(env, on, log, ordinal, chain).0;
            && (QuerySegs(env, s, ordinal + |log|, id).Err? ==> QuerySegs(env, front + s, ordinal, id).Err?)
            && (QuerySegs(env, s, ordinal + |log|, id) == QuerySegs(env, t, ordinal + |log|, id)
                ==> QuerySegs(env, front + s, ordinal, id) == QuerySegs(env, front + t, ordinal, id))
    decreases |log|
  {
    hide LogOk, Segs, ParseSegment, FollowChain, EncodedOf, CodedOk, BytesOf, RootAfter, Fits, EnvOk, IndexFor, VerifyParsed,
         ReadAs, DecodeParsed, DecodeSegment, Lookups, WithId;
    LogParts(env, on, log, ordinal, chain);
    if log == [] {
      EmptyLog(env, on, ordinal, chain);
      assert [] + s == s && [] + t == t;
    } else {
      var p, root := FrontSegment(env, on, log, ordinal, chain, s);
      var q, root' := FrontSegment(env, on, log, ordinal, chain, t);
      ReadAsParts(env, on, log[0], ordinal, chain, p);
      ReadAsParts(env, on, log[0], ordinal, chain, q);
      assert QueryParsed(env, p, ordinal, id) == QueryParsed(env, q, ordinal, id);
      hide QueryParsed;
      FrontQueries(env, on, log[1..], ordinal + 1, root, s, t, id);
    }
  }

  lemma BehindSize(env: Env, on: bool, log: seq<Coded>, k: nat)
    requires EnvOk(env) && LogOk(env, on, log, 0, Genesis()) && k < |log|
    ensures AllOk(log, on) && |Behind(env, on, log, k)| >= EOS_SIZE
  {
    hide LogOk, Segs, EosBytes, EnvOk;
    LogParts(env, on, log, 0, Genesis());
    SealedShape(env, on, log);
    EosBack(env, Segs(env, on, log, 0, Genesis()).1, []);
  }

  lemma BodyRefused(env: Env, body: seq<byte>, id: int)
    requires EnvOk(env)
    ensures VerifySegs(env, body, 0, Genesis()).Err? ==> !VerifyFile(env, FileHeader(env) + body)
    ensures DecodeSegs(env, body, 0, Genesis()).Err? ==> DecodeFile(env, FileHeader(env) + body).Err?
    ensures QuerySegs(env, body, 0, id).Err? ==> QueryFile(env, FileHeader(env) + body, id).Err?
  {
    hide EosOk, FileHeader, ReadFileHeader, VerifySegs, DecodeSegs, QuerySegs, EnvOk, Genesis;
    FileHeaderBack(env, body);
    assert (FileHeader(env) + body)[|FileHeader(env)|..] == body;
  }

  lemma BodySame(env: Env, a: seq<byte>, b: seq<byte>, id: int)
    requires EnvOk(env) && |a| >= EOS_SIZE && |b| >= EOS_SIZE && a[|a| - EOS_SIZE..] == b[|b| - EOS_SIZE..]
    ensures DecodeSegs(env, a, 0, Genesis()) == DecodeSegs(env, b, 0, Genesis())
        ==> DecodeFile(env, FileHeader(env) + a) == DecodeFile(env, FileHeader(env) + b)
    ensures QuerySegs(env, a, 0, id) == QuerySegs(env, b, 0, id)
        ==> QueryFile(env, FileHeader(env) + a, id) == QueryFile(env, FileHeader(env) + b, id)
  {
    hide EosOk, FileHeader, ReadFileHeader, VerifySegs, DecodeSegs, QuerySegs, EnvOk, Genesis;
    FileHeaderBack(env, a);
    FileHeaderBack(env, b);
    var d, e := FileHeader(env) + a, FileHeader(env) + b;
    assert d[|FileHeader(env)|..] == a && e[|FileHeader(env)|..] == b;
    assert d[|d| - EOS_SIZE..] == a[|a| - EOS_SIZE..] && e[|e| - EOS_SIZE..] == b[|b| - EOS_SIZE..];
    SameEnd(env, d, e, a[|a| - EOS_SIZE..]);
  }

  /** Whatever is refused in the place of a segment is refused in the file. */
  lemma RefusedInPlace(env: Env, on: bool, log: seq<Coded>, k: nat, bytes: seq<byte>, id: int)
    requires EnvOk(env) && LogOk(env, on, log, 0, Genesis()) && k < |log|
    ensures AllOk(log, on)
    ensures var data, s, chain := Patched(env, on, log, k, bytes), bytes + Behind(env, on, log, k), ChainAt(env, on, log, k);
            && (VerifySegs(env, s, k, chain).Err? ==> !VerifyFile(env, data))
            && (DecodeSegs(env, s, k, chain).Err? ==> DecodeFile(env, data).Err?)
            && (QuerySegs(env, s, k, id).Err? ==> QueryFile(env, data, id).Err?)
  {
    hide *;
    LogSplit(env, on, log, k, 0, Genesis());
    BehindSize(env, on, log, k);
    var s := bytes + Behind(env, on, log, k);
    var front := Segs(env, on, log[..k], 0, Genesis()).0;
    BodyRefused(env, front + s, id);
    FrontVerifies(env, on, log[..k], 0, Genesis(), s);
    FrontDecodes(env, on, log[..k], 0, Genesis(), s, s);
    FrontQueries(env, on, log[..k], 0, Genesis(), s, s, id);
    PatchedIs(env, on, log, k, bytes);
  }

  lemma PatchedIs(env: Env, on: bool, log: seq<Coded>, k: nat, bytes: seq<byte>)
    requires k < |log| && AllOk(log, on) && AllOk(log[..k], on)
    ensures Patched(env, on, log, k, bytes)
         == FileHeader(env) + (Segs(env, on, log[..k], 0, Genesis()).0 + (bytes + Behind(env, on, log, k)))
    ensures ChainAt(env, on, log, k) == Segs(env, on, log[..k], 0, Genesis()).1
  {
  }

  /** Whatever reads the same in the place of a segment reads the same in the file. */
  lemma SameInPlace(env: Env, on: bool, log: seq<Coded>, k: nat, a: seq<byte>, b: seq<byte>, id: int)
    requires EnvOk(env) && LogOk(env, on, log, 0, Genesis()) && k < |log|
    ensures AllOk(log, on)
    ensures var x, y, chain := a + Behind(env, on, log, k), b + Behind(env, on, log, k), ChainAt(env, on, log, k);
            && (DecodeSegs(env, x, k, chain) == DecodeSegs(env, y, k, chain)
                ==> DecodeFile(env, Patched(env, on, log, k, a)) == DecodeFile(env, Patched(env, on, log, k, b)))
            && (QuerySegs(env, x, k, id) == QuerySegs(env, y, k, id)
                ==> QueryFile(env, Patched(env, on, log, k, a), id) == QueryFile(env, Patched(env, on, log, k, b), id))
  {
    hide *;
    LogSplit(env, on, log, k, 0, Genesis());
    BehindSize(env, on, log, k);
    var x, y := a + Behind(env, on, log, k), b + Behind(env, on, log, k);
    var front := Segs(env, on, log[..k], 0, Genesis()).0;
    FrontDecodes(env, on, log[..k], 0, Genesis(), x, y);
    FrontQueries(env, on, log[..k], 0, Genesis(), x, y, id);
    EndOf(front, a, Behind(env, on, log, k));
    EndOf(front, b, Behind(env, on, log, k));
    BodySame(env, front + x, front + y, id);
    PatchedIs(env, on, log, k, a);
    PatchedIs(env, on, log, k, b);
  }

  lemma EndOf(front: seq<byte>, bytes: seq<byte>, end: seq<byte>)
    requires |end| >= EOS_SIZE
    ensures var s := front + (bytes + end); |s| >= EOS_SIZE && s[|s| - EOS_SIZE..] == end[|end| - EOS_SIZE..]
  {
  }

  lemma SameEnd(env: Env, d: seq<byte>, e: seq<byte>, end: seq<byte>)
    requires |end| >= EOS_SIZE && |d| >= |end| && |e| >= |end| && d[|d| - |end|..] == end == e[|e| - |end|..]
    ensures d[|d| - EOS_SIZE] == e[|e| - EOS_SIZE]
    ensures forall root :: EosOk(env, d, root) <==> EosOk(env, e, root)
  {
    assert d[|d| - EOS_SIZE..] == end[|end| - EOS_SIZE..] == e[|e| - EOS_SIZE..];
    assert d[|d| - EOS_SIZE] == d[|d| - EOS_SIZE..][0] && e[|e| - EOS_SIZE] == e[|e| - EOS_SIZE..][0];
  }

  // ---- one segment --------------------------------------------------------

  /** What is known about segment k of a sealed file. */
  lemma SegmentFacts(env: Env, on: bool, log: seq<Coded>, k: nat)
    requires EnvOk(env) && LogOk(env, on, log, 0, Genesis()) && k < |log|
    ensures AllOk(log, on) && CodedOk(log[k], on)
    ensures var e, ix, raws := EncodedOf(log[k], on), IndexFor(log[k]), RawsAt(env, on, log, k);
            var pre, root, chain := PreAt(env, on, log, k), RootAt(env, on, log, k), ChainAt(env, on, log, k);
            && IndexOk(ix) && e.itemCount < 0x1_0000 && |chain| == 32 && |root| == 32 && |pre| >= 14
            && (forall i :: 0 <= i < |raws| ==> SectionOk(raws[i], env.encrypted))
            && |pre| + 36 < 0x1_0000_0000 && pre == PreFooter(e, raws, EncodeIndex(ix))
            && BytesOf(env, on, log[k], k, chain) == pre + FooterBytes(root, env.crc(pre))
            && FollowChain(env, raws, chain) == Ok(root) && UnwrapAll(env, k, raws) == Ok(e.sections)
  {
    hide LogOk, Segs, EnvOk, EncodedOf, CodedOk, IndexFor, WrapAll, EncodeIndex, SectionsBytes, FollowChain, UnwrapAll, IndexOk,
         ToLE, SectionOk, HeaderBytes, Fits;
    LogSplit(env, on, log, k, 0, Genesis());
    FitsIs(env, on, log[k], k, ChainAt(env, on, log, k));
    SegmentBack(env, k, EncodedOf(log[k], on), IndexFor(log[k]), ChainAt(env, on, log, k), []);
  }

  lemma FitsIs(env: Env, on: bool, c: Coded, ordinal: nat, chain: seq<byte>)
    requires CodedOk(c, on) && Fits(env, on, c, ordinal, chain)
    ensures SegmentOk(env, ordinal, EncodedOf(c, on), IndexFor(c), chain)
  {
    hide SegmentOk;
  }

  /** Any sections and any root with a fitting CRC are parsed as they stand. */
  lemma AnySegmentBack(env: Env, e: Encoded, raws: seq<RawSection>, ix: Index, root: seq<byte>, rest: seq<byte>)
    requires EnvOk(env) && IndexOk(ix) && |root| == 32 && e.itemCount < 0x1_0000
    requires forall i :: 0 <= i < |raws| ==> SectionOk(raws[i], env.encrypted)
    requires |PreFooter(e, raws, EncodeIndex(ix))| + 36 < 0x1_0000_0000
    ensures var pre := PreFooter(e, raws, EncodeIndex(ix));
            ParseSegment(env, pre + FooterBytes(root, env.crc(pre)) + rest)
              == Ok(Parsed(e.itemMajor, e.itemCount, raws, ix, root, |pre| + 36))
  {
    hide SectionOk, EncodeIndex, SectionsBytes, ParseBody, ReadHeader, HeaderBytes, ToLE, IndexOk, EnvOk;
    var pre, ib, body := PreFooter(e, raws, EncodeIndex(ix)), EncodeIndex(ix), SectionsBytes(raws);
    ParseBodyBack(env, e, raws, ix, root, rest);
    ReadHeaderBack(14 + |body|, |pre| + 36, e.itemMajor, e.itemCount, body + ib + FooterBytes(root, env.crc(pre)) + rest);
    assert pre + FooterBytes(root, env.crc(pre)) + rest
        == HeaderBytes(14 + |body|, |pre| + 36, e.itemMajor, e.itemCount) + (body + ib + FooterBytes(root, env.crc(pre)) + rest);
  }

  /** Under the same header, bytes that do not have the stored CRC are not parsed. */
  lemma WrongCrc(env: Env, e: Encoded, raws: seq<RawSection>, ib: seq<byte>, pre: seq<byte>, root: seq<byte>, stored: seq<byte>,
                 rest: seq<byte>)
    requires e.itemCount < 0x1_0000 && |PreFooter(e, raws, ib)| + 36 < 0x1_0000_0000
    requires |pre| == |PreFooter(e, raws, ib)| && pre[..14] == PreFooter(e, raws, ib)[..14]
    requires |root| == 32 && |stored| == 4 && env.crc(pre) != FromLE(stored)
    ensures ParseSegment(env, pre + (root + stored) + rest).Err?
  {
    hide SectionsBytes, ReadHeader, HeaderBytes, ReadSections, DecodeIndex, FromLE;
    var body := SectionsBytes(raws);
    var h := HeaderBytes(14 + |body|, |pre| + 36, e.itemMajor, e.itemCount);
    var s := pre + (root + stored) + rest;
    assert pre[..14] == h;
    assert s == h + s[14..];
    ReadHeaderBack(14 + |body|, |pre| + 36, e.itemMajor, e.itemCount, s[14..]);
    assert s[..|pre|] == pre && s[|pre| + 32..|pre| + 36] == stored;
  }

  lemma UnparsedRefused(env: Env, s: seq<byte>, ordinal: nat, chain: seq<byte>, id: int)
    requires |s| > EOS_SIZE && ParseSegment(env, s).Err?
    ensures VerifySegs(env, s, ordinal, chain).Err? && DecodeSegs(env, s, ordinal, chain).Err?
    ensures QuerySegs(env, s, ordinal, id).Err?
  {
    hide ParseSegment;
  }

  // ---- the segment CRC ----------------------------------------------------

  /** Other bytes under a segment's header, whatever else is changed in its footer, are refused by all three readers
      unless they have the CRC that is stored: sections, index and the rest of the file may be anything. */
  lemma CrcRefused(env: Env, on: bool, log: seq<Coded>, k: nat, pre: seq<byte>, root: seq<byte>, stored: seq<byte>, id: int)
    requires EnvOk(env) && LogOk(env, on, log, 0, Genesis()) && AllOk(log, on) && k < |log|
    requires |pre| == |PreAt(env, on, log, k)| && pre[..14] == PreAt(env, on, log, k)[..14]
    requires |root| == 32 && |stored| == 4 && env.crc(pre) != FromLE(stored)
    ensures var data := Patched(env, on, log, k, pre + (root + stored));
            !VerifyFile(env, data) && DecodeFile(env, data).Err? && QueryFile(env, data, id).Err?
  {
    hide *;
    SegmentFacts(env, on, log, k);
    WrongCrc(env, EncodedOf(log[k], on), RawsAt(env, on, log, k), EncodeIndex(IndexFor(log[k])), pre, root, stored,
             Behind(env, on, log, k));
    BehindSize(env, on, log, k);
    var s := pre + (root + stored) + Behind(env, on, log, k);
    UnparsedRefused(env, s, k, ChainAt(env, on, log, k), id);
    RefusedInPlace(env, on, log, k, pre + (root + stored), id);
  }

  /** A changed stored CRC is refused. */
  lemma StoredCrcRefused(env: Env, on: bool, log: seq<Coded>, k: nat, stored: seq<byte>, id: int)
    requires EnvOk(env) && LogOk(env, on, log, 0, Genesis()) && AllOk(log, on) && k < |log|
    requires |stored| == 4 && stored != ToLE(env.crc(PreAt(env, on, log, k)), 4)
    ensures var data := Patched(env, on, log, k, PreAt(env, on, log, k) + (RootAt(env, on, log, k) + stored));
            !VerifyFile(env, data) && DecodeFile(env, data).Err? && QueryFile(env, data, id).Err?
  {
    hide *;
    SegmentFacts(env, on, log, k);
    ToLEFromLE(stored);
    CrcRefused(env, on, log, k, PreAt(env, on, log, k), RootAt(env, on, log, k), stored, id);
  }

  // ---- the footer's root --------------------------------------------------

  /** The three readers at the front of what is left, given the segment they parse. */
  lemma ParsedAnswers(env: Env, s: seq<byte>, ordinal: nat, chain: seq<byte>, id: int, p: Parsed)
    requires |s| > EOS_SIZE && ParseSegment(env, s) == Ok(p)
    ensures var f := FollowChain(env, p.raws, chain);
            && (f.Err? || f.value != p.root || !VerifyParsed(env, p, ordinal) ==> VerifySegs(env, s, ordinal, chain).Err?)
            && (f.Err? || DecodeParsed(env, p, ordinal).Err? ==> DecodeSegs(env, s, ordinal, chain).Err?)
            && (QueryParsed(env, p, ordinal, id).Err? ==> QuerySegs(env, s, ordinal, id).Err?)
  {
    hide ParseSegment, FollowChain, VerifyParsed, DecodeParsed, QueryParsed;
  }

  lemma ParsedSame(env: Env, s: seq<byte>, t: seq<byte>, ordinal: nat, chain: seq<byte>, id: int, p: Parsed, q: Parsed)
    requires |s| == |t| > EOS_SIZE && ParseSegment(env, s) == Ok(p) && ParseSegment(env, t) == Ok(q)
    requires p.size == q.size && s[p.size..] == t[q.size..]
    ensures FollowChain(env, p.raws, chain) == FollowChain(env, q.raws, chain)
            && DecodeParsed(env, p, ordinal) == DecodeParsed(env, q, ordinal)
        ==> DecodeSegs(env, s, ordinal, chain) == DecodeSegs(env, t, ordinal, chain)
    ensures QueryParsed(env, p, ordinal, id) == QueryParsed(env, q, ordinal, id)
        ==> QuerySegs(env, s, ordinal, id) == QuerySegs(env, t, ordinal, id)
  {
    hide ParseSegment, FollowChain, VerifyParsed, DecodeParsed, QueryParsed;
  }

  /** Sections, root and a fitting CRC in the place of those of segment k. */
  function Resealed(env: Env, on: bool, log: seq<Coded>, k: nat, raws: seq<RawSection>, root: seq<byte>): seq<byte>
    requires AllOk(log, on) && k < |log|
  {
    var pre := PreWith(env, on, log, k, raws);
    pre + FooterBytes(root, env.crc(pre))
  }

  lemma ResealedParsed(env: Env, on: bool, log: seq<Coded>, k: nat, raws: seq<RawSection>, root: seq<byte>)
    requires EnvOk(env) && LogOk(env, on, log, 0, Genesis()) && AllOk(log, on) && k < |log| && |root| == 32
    requires forall i :: 0 <= i < |raws| ==> SectionOk(raws[i], env.encrypted)
    requires |SectionsBytes(raws)| == |SectionsBytes(RawsAt(env, on, log, k))|
    ensures var e := EncodedOf(log[k], on);
            var s := Resealed(env, on, log, k, raws, root) + Behind(env, on, log, k);
            var size := |PreAt(env, on, log, k)| + 36;
            && |s| == size + |Behind(env, on, log, k)| > EOS_SIZE && s[size..] == Behind(env, on, log, k)
            && ParseSegment(env, s) == Ok(Parsed(e.itemMajor, e.itemCount, raws, IndexFor(log[k]), root, size))
  {
    hide LogOk, EnvOk, EncodedOf, IndexFor, EncodeIndex, SectionsBytes, FollowChain, UnwrapAll, IndexOk, Behind, ParseSegment,
         SectionOk, HeaderBytes, RawsAt, RootAt, ChainAt, Segs, BytesOf;
    SegmentFacts(env, on, log, k);
    BehindSize(env, on, log, k);
    AnySegmentBack(env, EncodedOf(log[k], on), raws, IndexFor(log[k]), root, Behind(env, on, log, k));
  }

  /** A footer with another root, which its CRC does not cover: verification refuses the file, but decoding and queries
      never look there and answer as before. */
  lemma FooterRootIsVerifiedOnly(env: Env, on: bool, log: seq<Coded>, k: nat, root: seq<byte>, id: int)
    requires EnvOk(env) && LogOk(env, on, log, 0, Genesis()) && AllOk(log, on) && k < |log|
    requires |root| == 32 && root != RootAt(env, on, log, k)
    ensures var data := Patched(env, on, log, k, Resealed(env, on, log, k, RawsAt(env, on, log, k), root));
            && !VerifyFile(env, data)
            && DecodeFile(env, data) == DecodeFile(env, FileBytes(env, on, log))
            && QueryFile(env, data, id) == QueryFile(env, FileBytes(env, on, log), id)
  {
    hide *;
    SegmentFacts(env, on, log, k);
    var raws, chain := RawsAt(env, on, log, k), ChainAt(env, on, log, k);
    var was := Resealed(env, on, log, k, raws, RootAt(env, on, log, k));
    var bytes := Resealed(env, on, log, k, raws, root);
    ResealedSelf(env, on, log, k);
    ResealedParsed(env, on, log, k, raws, RootAt(env, on, log, k));
    ResealedParsed(env, on, log, k, raws, root);
    var s, t := was + Behind(env, on, log, k), bytes + Behind(env, on, log, k);
    var p, q := ParseSegment(env, s).value, ParseSegment(env, t).value;
    RootUnread(env, p, root, k, id);
    ParsedAnswers(env, t, k, chain, id, q);
    ParsedSame(env, t, s, k, chain, id, q, p);
    RefusedInPlace(env, on, log, k, bytes, id);
    SameInPlace(env, on, log, k, bytes, was, id);
    PatchedSelf(env, on, log, k);
  }

  lemma ResealedSelf(env: Env, on: bool, log: seq<Coded>, k: nat)
    requires EnvOk(env) && LogOk(env, on, log, 0, Genesis()) && AllOk(log, on) && k < |log|
    ensures Resealed(env, on, log, k, RawsAt(env, on, log, k), RootAt(env, on, log, k))
         == BytesOf(env, on, log[k], k, ChainAt(env, on, log, k))
  {
    SegmentFacts(env, on, log, k);
    hide PreFooter, FooterBytes, BytesOf, RawsAt, RootAt, ChainAt, EnvOk, LogOk, AllOk, EncodedOf, IndexFor, EncodeIndex;
  }

  lemma RootUnread(env: Env, p: Parsed, root: seq<byte>, ordinal: nat, id: int)
    ensures DecodeParsed(env, p.(root := root), ordinal) == DecodeParsed(env, p, ordinal)
    ensures QueryParsed(env, p.(root := root), ordinal, id) == QueryParsed(env, p, ordinal, id)
  {
    hide UnwrapAll, DecodeSegment, Lookups, WithId;
  }

  // ---- the sections' hashes and lengths -----------------------------------

  /** The chain breaks at the first stored hash that is changed. */
  lemma {:induction false} BrokenChain(env: Env, raws: seq<RawSection>, chain: seq<byte>, i: nat, hash: seq<byte>)
    requires FollowChain(env, raws, chain).Ok? && i < |raws| && hash != raws[i].hash
    ensures FollowChain(env, raws[i := raws[i].(hash := hash)], chain).Err?
    decreases i
  {
    var changed := raws[i := raws[i].(hash := hash)];
    assert HashInput(raws[i].(hash := hash)) == HashInput(raws[i]);
    hide HashInput;
    if i > 0 {
      assert changed[1..] == raws[1..][i - 1 := raws[i].(hash := hash)];
      BrokenChain(env, raws[1..], env.sha(chain + HashInput(raws[0])), i - 1, hash);
    }
  }

  lemma {:induction false} HashUnread(env: Env, ordinal: nat, raws: seq<RawSection>, i: nat, hash: seq<byte>)
    requires i < |raws|
    ensures UnwrapAll(env, ordinal, raws[i := raws[i].(hash := hash)]) == UnwrapAll(env, ordinal, raws)
    decreases i
  {
    assert Unwrap(env, ordinal, raws[i].(hash := hash)) == Unwrap(env, ordinal, raws[i]);
    hide Unwrap;
    var changed := raws[i := raws[i].(hash := hash)];
    if i == 0 {
      assert changed[1..] == raws[1..];
    } else {
      assert changed[1..] == raws[1..][i - 1 := raws[i].(hash := hash)];
      HashUnread(env, ordinal, raws[1..], i - 1, hash);
    }
  }

  /** A field of fixed width in one section leaves the area its size. */
  lemma {:induction false} SameArea(raws: seq<RawSection>, i: nat, raw: RawSection)
    requires i < |raws| && |SectionBytes(raw)| == |SectionBytes(raws[i])|
    ensures |SectionsBytes(raws[i := raw])| == |SectionsBytes(raws)|
    decreases i
  {
    hide SectionBytes;
    if i == 0 {
      assert raws[i := raw][1..] == raws[1..];
    } else {
      assert raws[i := raw][1..] == raws[1..][i - 1 := raw];
      SameArea(raws[1..], i - 1, raw);
    }
  }

  lemma HashFits(raw: RawSection, hash: seq<byte>, encrypted: bool)
    requires SectionOk(raw, encrypted) && |hash| == 32
    ensures SectionOk(raw.(hash := hash), encrypted) && |SectionBytes(raw.(hash := hash))| == |SectionBytes(raw)|
  {
    hide ToLE, ManifestBytes;
  }

  /** A section with another stored hash, under a CRC that fits: verification and decoding refuse the file; a query does
      not follow the chain and answers as before. */
  lemma SectionHashRefused(env: Env, on: bool, log: seq<Coded>, k: nat, i: nat, hash: seq<byte>, id: int)
    requires EnvOk(env) && LogOk(env, on, log, 0, Genesis()) && AllOk(log, on) && k < |log|
    requires i < |RawsAt(env, on, log, k)| && |hash| == 32 && hash != RawsAt(env, on, log, k)[i].hash
    ensures var raws := RawsAt(env, on, log, k);
            var data := Patched(env, on, log, k,
                                Resealed(env, on, log, k, raws[i := raws[i].(hash := hash)], RootAt(env, on, log, k)));
            && !VerifyFile(env, data) && DecodeFile(env, data).Err?
            && QueryFile(env, data, id) == QueryFile(env, FileBytes(env, on, log), id)
  {
    hide *;
    SegmentFacts(env, on, log, k);
    var raws, chain, root := RawsAt(env, on, log, k), ChainAt(env, on, log, k), RootAt(env, on, log, k);
    var changed := raws[i := raws[i].(hash := hash)];
    HashFits(raws[i], hash, env.encrypted);
    SameArea(raws, i, raws[i].(hash := hash));
    BrokenChain(env, raws, chain, i, hash);
    HashUnread(env, k, raws, i, hash);
    var was, bytes := Resealed(env, on, log, k, raws, root), Resealed(env, on, log, k, changed, root);
    ResealedSelf(env, on, log, k);
    ResealedParsed(env, on, log, k, raws, root);
    ResealedParsed(env, on, log, k, changed, root);
    var s, t := was + Behind(env, on, log, k), bytes + Behind(env, on, log, k);
    var p, q := ParseSegment(env, s).value, ParseSegment(env, t).value;
    SameQuery(env, p, q, k, id);
    ParsedAnswers(env, t, k, chain, id, q);
    ParsedSame(env, t, s, k, chain, id, q, p);
    RefusedInPlace(env, on, log, k, bytes, id);
    SameInPlace(env, on, log, k, bytes, was, id);
    PatchedSelf(env, on, log, k);
  }

  lemma SameQuery(env: Env, p: Parsed, q: Parsed, ordinal: nat, id: int)
    requires UnwrapAll(env, ordinal, p.raws) == UnwrapAll(env, ordinal, q.raws)
    requires p.index == q.index && p.itemMajor == q.itemMajor && p.itemCount == q.itemCount
    ensures QueryParsed(env, p, ordinal, id) == QueryParsed(env, q, ordinal, id)
  {
    hide UnwrapAll, DecodeSegment, Lookups, WithId;
  }

  /** A section that claims another length cannot be unpacked. */
  lemma WrongLength(env: Env, ordinal: nat, raw: RawSection, n: nat)
    requires Unwrap(env, ordinal, raw).Ok? && n != raw.uncompressedLen
    ensures Unwrap(env, ordinal, raw.(uncompressedLen := n)).Err?
  {
    hide CutBlocks;
  }

  lemma {:induction false} OneUnpackable(env: Env, ordinal: nat, raws: seq<RawSection>, i: nat)
    requires i < |raws| && Unwrap(env, ordinal, raws[i]).Err?
    ensures UnwrapAll(env, ordinal, raws).Err?
    decreases i
  {
    hide Unwrap;
    if i > 0 {
      OneUnpackable(env, ordinal, raws[1..], i - 1);
    }
  }

  lemma {:induction false} EachUnpacked(env: Env, ordinal: nat, raws: seq<RawSection>, i: nat)
    requires i < |raws| && UnwrapAll(env, ordinal, raws).Ok?
    ensures Unwrap(env, ordinal, raws[i]).Ok?
    decreases i
  {
    hide Unwrap;
    if i > 0 {
      EachUnpacked(env, ordinal, raws[1..], i - 1);
    }
  }

  lemma LengthFits(raw: RawSection, n: nat, encrypted: bool)
    requires SectionOk(raw, encrypted) && n < 0x1_0000_0000
    ensures SectionOk(raw.(uncompressedLen := n), encrypted)
    ensures |SectionBytes(raw.(uncompressedLen := n))| == |SectionBytes(raw)|
  {
    hide ToLE, ManifestBytes;
  }

  lemma UnpackableRefused(env: Env, p: Parsed, ordinal: nat, id: int)
    requires UnwrapAll(env, ordinal, p.raws).Err?
    ensures !VerifyParsed(env, p, ordinal) && DecodeParsed(env, p, ordinal).Err?
    ensures Lookups(p.index, id) ==> QueryParsed(env, p, ordinal, id).Err?
  {
    hide UnwrapAll, DecodeSegment, Lookups, WithId;
  }

  /** A section with another uncompressed length, which no hash covers, under a CRC that fits: verification and decoding
      refuse the file, and so does a query for an id of the segment. */
  lemma SectionLengthRefused(env: Env, on: bool, log: seq<Coded>, k: nat, i: nat, n: nat, id: int)
    requires EnvOk(env) && LogOk(env, on, log, 0, Genesis()) && AllOk(log, on) && k < |log| && n < 0x1_0000_0000
    requires i < |RawsAt(env, on, log, k)| && n != RawsAt(env, on, log, k)[i].uncompressedLen
    ensures var raws := RawsAt(env, on, log, k);
            var data := Patched(env, on, log, k,
                                Resealed(env, on, log, k, raws[i := raws[i].(uncompressedLen := n)], RootAt(env, on, log, k)));
            && !VerifyFile(env, data) && DecodeFile(env, data).Err?
            && (Lookups(IndexFor(log[k]), id) ==> QueryFile(env, data, id).Err?)
  {
    hide *;
    SegmentFacts(env, on, log, k);
    var raws, chain, root := RawsAt(env, on, log, k), ChainAt(env, on, log, k), RootAt(env, on, log, k);
    var raw := raws[i].(uncompressedLen := n);
    LengthFits(raws[i], n, env.encrypted);
    SameArea(raws, i, raw);
    EachUnpacked(env, k, raws, i);
    WrongLength(env, k, raws[i], n);
    OneUnpackable(env, k, raws[i := raw], i);
    var bytes := Resealed(env, on, log, k, raws[i := raw], root);
    ResealedParsed(env, on, log, k, raws[i := raw], root);
    var t := bytes + Behind(env, on, log, k);
    UnpackableRefused(env, ParseSegment(env, t).value, k, id);
    ParsedAnswers(env, t, k, chain, id, ParseSegment(env, t).value);
    RefusedInPlace(env, on, log, k, bytes, id);
  }

  // ---- the end record -----------------------------------------------------

  lemma EndRecordBack(env: Env, eos: seq<byte>, root: seq<byte>, front: seq<byte>)
    requires EnvOk(env) && |eos| == EOS_SIZE && |root| == 32
    ensures EosOk(env, front + eos, root) <==> eos == EosBytes(env, root)
  {
    hide ToLE, FromLE;
    var data := front + eos;
    assert data[|data| - EOS_SIZE..] == eos;
    ToLEFromLE(eos[33..37]);
    FieldWidths();
    FromLEToLE(env.crc(root), 4);
    assert eos == [eos[0]] + (eos[1..33] + eos[33..37]);
    assert EosBytes(env, root)[33..37] == ToLE(env.crc(root), 4) && EosBytes(env, root)[1..33] == root;
  }

  /** Any other end record is refused. */
  lemma EndRecordExact(env: Env, on: bool, log: seq<Coded>, eos: seq<byte>)
    requires EnvOk(env) && LogOk(env, on, log, 0, Genesis()) && AllOk(log, on) && |eos| == EOS_SIZE
    ensures var (segs, root) := Segs(env, on, log, 0, Genesis());
            var data := FileHeader(env) + (segs + eos);
            && (VerifyFile(env, data) <==> eos == EosBytes(env, root))
            && (DecodeFile(env, data).Ok? <==> eos == EosBytes(env, root) && DecodeLog(log, on).Ok?)
  {
    hide FileHeader, Segs, ReadFileHeader, EosOk, LogOk, DecodeLog, DecodeSegs, VerifySegs, EosBytes, EnvOk;
    var (segs, root) := Segs(env, on, log, 0, Genesis());
    SegsBack(env, on, log, 0, Genesis(), eos);
    FileHeaderBack(env, segs + eos);
    EndRecordBack(env, eos, root, FileHeader(env) + segs);
    var data := FileHeader(env) + (segs + eos);
    assert FileHeader(env) + segs + eos == data && data[|FileHeader(env)|..] == segs + eos;
    assert data[|data| - EOS_SIZE] == eos[0];
    EosStart(env, root);
  }

  lemma EosStart(env: Env, root: seq<byte>)
    ensures EosBytes(env, root)[0] == 0xFF
  {
  }

  // ---- what the root commits to -------------------------------------------

  /** Stream, manifest and payload: what the chain absorbs of a section. */
  datatype Content = Content(streamId: byte, manifest: seq<Entry>, payload: seq<byte>)

  function ContentOf(raw: RawSection): Content { Content(raw.streamId, raw.manifest, raw.payload) }

  function Absorbs(c: Content): seq<byte>
  {
    [c.streamId] + (ToLE(|c.manifest|, 2) + (ManifestBytes(c.manifest) + c.payload))
  }

  function Contents(raws: seq<RawSection>): (cs: seq<Content>)
    ensures |cs| == |raws|
  {
    if raws == [] then [] else [ContentOf(raws[0])] + Contents(raws[1..])
  }

  /** The contents of all sections in the segments of a data area. */
  function AllContents(env: Env, s: seq<byte>): seq<Content>
    decreases |s|
  {
    if |s| <= EOS_SIZE then []
    else
      match ParseSegment(env, s)
      case Err(_) => []
      case Ok(p) => Contents(p.raws) + AllContents(env, s[p.size..])
  }

  /** The chain after some sections. */
  function Absorbed(env: Env, cs: seq<Content>): seq<byte>
  {
    if cs == [] then Genesis() else env.sha(Absorbed(env, cs[..|cs| - 1]) + Absorbs(cs[|cs| - 1]))
  }

  lemma AbsorbedSnoc(env: Env, cs: seq<Content>, c: Content)
    ensures Absorbed(env, cs + [c]) == env.sha(Absorbed(env, cs) + Absorbs(c))
  {
    assert (cs + [c])[..|cs|] == cs;
  }

  lemma {:induction false} ChainIsAbsorbed(env: Env, raws: seq<RawSection>, before: seq<Content>)
    requires FollowChain(env, raws, Absorbed(env, before)).Ok?
    ensures FollowChain(env, raws, Absorbed(env, before)) == Ok(Absorbed(env, before + Contents(raws)))
    decreases |raws|
  {
    hide Absorbed;
    if raws == [] {
      assert before + [] == before;
    } else {
      var c := ContentOf(raws[0]);
      AbsorbedSnoc(env, before, c);
      ChainIsAbsorbed(env, raws[1..], before + [c]);
      assert before + [c] + Contents(raws[1..]) == before + ([c] + Contents(raws[1..]));
    }
  }

  lemma {:induction false} VerifiedIsAbsorbed(env: Env, s: seq<byte>, ordinal: nat, before: seq<Content>)
    requires VerifySegs(env, s, ordinal, Absorbed(env, before)).Ok?
    ensures VerifySegs(env, s, ordinal, Absorbed(env, before)) == Ok(Absorbed(env, before + AllContents(env, s)))
    decreases |s|
  {
    hide Absorbed, ParseSegment, VerifyParsed, FollowChain, Contents;
    if |s| <= EOS_SIZE {
      assert before + [] == before;
    } else {
      var p := ParseSegment(env, s).value;
      ChainIsAbsorbed(env, p.raws, before);
      var more := before + Contents(p.raws);
      VerifiedIsAbsorbed(env, s[p.size..], ordinal + 1, more);
      assert more + AllContents(env, s[p.size..]) == before + (Contents(p.raws) + AllContents(env, s[p.size..]));
    }
  }

  lemma {:induction false} AbsorbedSize(env: Env, cs: seq<Content>)
    requires EnvOk(env)
    ensures |Absorbed(env, cs)| == 32
  {
  }

  /** Among what is hashed for two files there is no collision, and nothing hashes to the zeros the chain starts from. */
  ghost predicate NoClash(env: Env, a: seq<Content>, b: seq<Content>)
  {
    && (forall i, j :: 0 <= i < |a| && 0 <= j < |b| ==>
          Hashed(env, a, i) == Hashed(env, b, j) || env.sha(Hashed(env, a, i)) != env.sha(Hashed(env, b, j)))
    && (forall i :: 0 <= i < |a| ==> env.sha(Hashed(env, a, i)) != Genesis())
    && (forall j :: 0 <= j < |b| ==> env.sha(Hashed(env, b, j)) != Genesis())
  }

  function Hashed(env: Env, cs: seq<Content>, i: nat): seq<byte>
    requires i < |cs|
  {
    Absorbed(env, cs[..i]) + Absorbs(cs[i])
  }

  lemma NoClashFront(env: Env, a: seq<Content>, b: seq<Content>)
    requires NoClash(env, a, b) && a != [] && b != []
    ensures NoClash(env, a[..|a| - 1], b[..|b| - 1])
  {
    hide Absorbed;
    var c, d := a[..|a| - 1], b[..|b| - 1];
    assert forall i :: 0 <= i < |c| ==> c[..i] == a[..i] && c[i] == a[i];
    assert forall j :: 0 <= j < |d| ==> d[..j] == b[..j] && d[j] == b[j];
    assert forall i :: 0 <= i < |c| ==> Hashed(env, c, i) == Hashed(env, a, i);
    assert forall j :: 0 <= j < |d| ==> Hashed(env, d, j) == Hashed(env, b, j);
    hide Hashed;
  }

  predicate Readable(c: Content)
  {
    |c.manifest| < 0x1_0000 && forall i :: 0 <= i < |c.manifest| ==> EntryOk(c.manifest[i])
  }

  predicate AllReadable(cs: seq<Content>)
  {
    forall i :: 0 <= i < |cs| ==> Readable(cs[i])
  }

  lemma AbsorbsInjective(a: Content, b: Content)
    requires Readable(a) && Readable(b) && Absorbs(a) == Absorbs(b)
    ensures a == b
  {
    hide ToLE, FromLE, EntryOk, ManifestBytes;
    var x, y := Absorbs(a), Absorbs(b);
    FieldWidths();
    FromLEToLE(|a.manifest|, 2);
    FromLEToLE(|b.manifest|, 2);
    assert x[0] == a.streamId && y[0] == b.streamId;
    assert x[1..3] == ToLE(|a.manifest|, 2) && y[1..3] == ToLE(|b.manifest|, 2);
    assert x[3..] == ManifestBytes(a.manifest) + a.payload && y[3..] == ManifestBytes(b.manifest) + b.payload;
    ReadManifestBack(a.manifest, a.payload);
    ReadManifestBack(b.manifest, b.payload);
    assert x[3..][|ManifestBytes(a.manifest)|..] == a.payload && y[3..][|ManifestBytes(b.manifest)|..] == b.payload;
  }

  lemma HashedInjective(env: Env, a: seq<Content>, b: seq<Content>)
    requires EnvOk(env) && a != [] && b != [] && AllReadable(a) && AllReadable(b)
    requires Hashed(env, a, |a| - 1) == Hashed(env, b, |b| - 1)
    ensures a[|a| - 1] == b[|b| - 1] && Absorbed(env, a[..|a| - 1]) == Absorbed(env, b[..|b| - 1])
  {
    var n, m := |a| - 1, |b| - 1;
    AbsorbedSize(env, a[..n]);
    AbsorbedSize(env, b[..m]);
    hide Absorbed, Absorbs, EnvOk, Readable;
    var x, y := Hashed(env, a, n), Hashed(env, b, m);
    assert x[..32] == Absorbed(env, a[..n]) && y[..32] == Absorbed(env, b[..m]);
    assert x[32..] == Absorbs(a[n]) && y[32..] == Absorbs(b[m]);
    AbsorbsInjective(a[n], b[m]);
  }

  lemma LastHashed(env: Env, cs: seq<Content>)
    requires cs != []
    ensures Absorbed(env, cs) == env.sha(Hashed(env, cs, |cs| - 1))
  {
  }

  lemma {:induction false} AbsorbedInjective(env: Env, a: seq<Content>, b: seq<Content>)
    requires EnvOk(env) && NoClash(env, a, b) && AllReadable(a) && AllReadable(b)
    requires Absorbed(env, a) == Absorbed(env, b)
    ensures a == b
    decreases |a|
  {
    if a != [] {
      LastHashed(env, a);
    }
    if b != [] {
      LastHashed(env, b);
    }
    if a != [] && b != [] {
      hide Absorbed, Hashed, EnvOk, Readable;
      NoClashFront(env, a, b);
      HashedInjective(env, a, b);
      AbsorbedInjective(env, a[..|a| - 1], b[..|b| - 1]);
      assert a == a[..|a| - 1] + [a[|a| - 1]] && b == b[..|b| - 1] + [b[|b| - 1]];
    }
  }

  lemma {:induction false} ManifestReadable(s: seq<byte>, count: nat)
    requires |s| >= 10 * count
    ensures forall i :: 0 <= i < count ==> EntryOk(ReadManifest(s, count)[i])
    decreases count
  {
    if count > 0 {
      ToLEFromLE(s[1..5]);
      ToLEFromLE(s[5..9]);
      FieldWidths();
      assert EntryOk(ReadEntry(s));
      hide ReadEntry, EntryOk;
      ManifestReadable(s[10..], count - 1);
      var m, rest := ReadManifest(s, count), ReadManifest(s[10..], count - 1);
      assert forall i :: 1 <= i < count ==> m[i] == rest[i - 1];
    }
  }

  lemma SectionReadable(s: seq<byte>, encrypted: bool)
    requires ReadSection(s, encrypted).Ok?
    ensures Readable(ContentOf(ReadSection(s, encrypted).value.0))
  {
    hide FromLE, ReadManifest, EntryOk;
    ToLEFromLE(s[2..4]);
    FieldWidths();
    ManifestReadable(s[if encrypted then 60 else 44..], FromLE(s[2..4]));
  }

  lemma {:induction false} SectionsReadable(s: seq<byte>, n: nat, encrypted: bool)
    requires ReadSections(s, n, encrypted).Ok?
    ensures AllReadable(Contents(ReadSections(s, n, encrypted).value))
    decreases n
  {
    hide ReadSection, Readable, ContentOf;
    if n > 0 {
      SectionReadable(s, encrypted);
      var (raw, size) := ReadSection(s, encrypted).value;
      SectionsReadable(s[size..], n - size, encrypted);
      var rest := ReadSections(s[size..], n - size, encrypted).value;
      assert ReadSections(s, n, encrypted).value[1..] == rest;
      assert Contents(ReadSections(s, n, encrypted).value) == [ContentOf(raw)] + Contents(rest);
    }
  }

  lemma SegmentReadable(env: Env, s: seq<byte>)
    requires ParseSegment(env, s).Ok?
    ensures AllReadable(Contents(ParseSegment(env, s).value.raws))
  {
    hide ReadSections, DecodeIndex, FromLE, AllReadable, Contents;
    var h := ReadHeader(s).value;
    SectionsReadable(s[14..], if h.indexOffset >= 14 then h.indexOffset - 14 else 0, env.encrypted);
  }

  lemma {:induction false} FileReadable(env: Env, s: seq<byte>)
    ensures AllReadable(AllContents(env, s))
    decreases |s|
  {
    hide ParseSegment, Contents, Readable;
    if |s| > EOS_SIZE && ParseSegment(env, s).Ok? {
      SegmentReadable(env, s);
      FileReadable(env, s[ParseSegment(env, s).value.size..]);
    }
  }

  /** The data area of a file and the root its end record names. */
  function DataOf(env: Env, file: seq<byte>): seq<byte>
  {
    match ReadFileHeader(env, file) case Ok(pos) => file[pos..] case Err(_) => []
  }

  function NamedRoot(file: seq<byte>): seq<byte>
    requires |file| >= EOS_SIZE
  {
    file[|file| - EOS_SIZE..][1..33]
  }

  lemma VerifiedRoot(env: Env, file: seq<byte>)
    requires EnvOk(env) && VerifyFile(env, file)
    ensures |file| >= EOS_SIZE && NamedRoot(file) == Absorbed(env, AllContents(env, DataOf(env, file)))
  {
    hide VerifySegs, ReadFileHeader, AllContents, FromLE;
    var data := DataOf(env, file);
    assert Absorbed(env, []) == Genesis();
    hide Absorbed;
    VerifiedIsAbsorbed(env, data, 0, []);
    assert [] + AllContents(env, data) == AllContents(env, data);
  }

  /** The root commits to the file: two files that verify name one root if and only if they hold the same sections in the
      same order, stream, manifest and payload, unless a hash collides. */
  lemma RootCommits(env: Env, a: seq<byte>, b: seq<byte>)
    requires EnvOk(env) && VerifyFile(env, a) && VerifyFile(env, b) && |a| >= EOS_SIZE && |b| >= EOS_SIZE
    requires NoClash(env, AllContents(env, DataOf(env, a)), AllContents(env, DataOf(env, b)))
    ensures NamedRoot(a) == NamedRoot(b) <==> AllContents(env, DataOf(env, a)) == AllContents(env, DataOf(env, b))
  {
    hide *;
    VerifiedRoot(env, a);
    VerifiedRoot(env, b);
    FileReadable(env, DataOf(env, a));
    FileReadable(env, DataOf(env, b));
    if NamedRoot(a) == NamedRoot(b) {
      AbsorbedInjective(env, AllContents(env, DataOf(env, a)), AllContents(env, DataOf(env, b)));
    }
  }
}
