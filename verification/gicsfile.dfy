/** A whole file: header, segments one after the other, end-of-stream record; decoding, verifying and
    querying it, and appending to it (src/gics/decode.ts, src/gics/encode.ts, src/gics/file-access.ts). */
module GicsFile {
  import opened Bytes
  import opened Snapshots
  import opened Layout
  import opened SegmentCodec
  import opened SegmentIndex
  import opened Container
  import Blocks

  const EOS_SIZE: nat := 37

  function Genesis(): seq<byte> { seq(32, _ => 0) }

  /** One segment's worth of snapshots and what the encoder decided for it. */
  datatype Coded = Coded(snaps: seq<Snapshot>, plan: Plan)

  predicate CodedOk(c: Coded, on: bool)
  {
    c.snaps != [] && PlanFits(c.plan, Collect(c.snaps).columns, on)
  }

  predicate AllOk(log: seq<Coded>, on: bool)
  {
    forall i :: 0 <= i < |log| ==> CodedOk(log[i], on)
  }

  function EncodedOf(c: Coded, on: bool): Encoded
    requires CodedOk(c, on)
  {
    EncodeSegment(c.snaps, c.plan, on)
  }

  function IndexFor(c: Coded): Index
  {
    MakeIndex(Collect(c.snaps).columns.ids)
  }

  // ---- the bytes ----------------------------------------------------------

  function FileHeader(env: Env): seq<byte>
  {
    [0x47, 0x49, 0x43, 0x53, 3] + (ToLE(if env.encrypted then 0x81 else 1, 4)
    + ([5, 0, 0, 0, 0] + if env.encrypted then env.encHeader else []))
  }

  /** One segment under its ordinal, on a chain that stands at `chain`. */
  function BytesOf(env: Env, on: bool, c: Coded, ordinal: nat, chain: seq<byte>): seq<byte>
    requires CodedOk(c, on)
  {
    SegmentBytes(env, ordinal, EncodedOf(c, on), IndexFor(c), chain)
  }

  /** The root the segment leaves the chain at. */
  function RootAfter(env: Env, on: bool, c: Coded, ordinal: nat, chain: seq<byte>): seq<byte>
    requires CodedOk(c, on)
  {
    WrapAll(env, ordinal, EncodedOf(c, on).sections, chain).1
  }

  ghost predicate Fits(env: Env, on: bool, c: Coded, ordinal: nat, chain: seq<byte>)
    requires CodedOk(c, on)
  {
    SegmentOk(env, ordinal, EncodedOf(c, on), IndexFor(c), chain)
  }

  lemma RootSize(env: Env, on: bool, c: Coded, ordinal: nat, chain: seq<byte>)
    requires EnvOk(env) && CodedOk(c, on) && Fits(env, on, c, ordinal, chain)
    ensures |RootAfter(env, on, c, ordinal, chain)| == 32
  {
    hide EncodedOf, CodedOk, IndexFor, SegmentBytes, WrapAll;
    SegmentBack(env, ordinal, EncodedOf(c, on), IndexFor(c), chain, []);
  }

  /** The segments of a log, numbered from `ordinal`, and the root the chain ends in. */
  function Segs(env: Env, on: bool, log: seq<Coded>, ordinal: nat, chain: seq<byte>): (r: (seq<byte>, seq<byte>))
    requires AllOk(log, on)
    decreases |log|
  {
    if log == [] then ([], chain)
    else
      var (rest, last) := Segs(env, on, log[1..], ordinal + 1, RootAfter(env, on, log[0], ordinal, chain));
      (BytesOf(env, on, log[0], ordinal, chain) + rest, last)
  }

  /** Every segment is well coded and fits the format's fields. */
  ghost predicate LogOk(env: Env, on: bool, log: seq<Coded>, ordinal: nat, chain: seq<byte>)
    decreases |log|
  {
    AllOk(log, on) && |chain| == 32 &&
    (log == [] ||
     (Fits(env, on, log[0], ordinal, chain) &&
      LogOk(env, on, log[1..], ordinal + 1, RootAfter(env, on, log[0], ordinal, chain))))
  }

  function EosBytes(env: Env, root: seq<byte>): seq<byte>
  {
    [0xFF] + (root + ToLE(env.crc(root), 4))
  }

  /** A sealed file. */
  function FileBytes(env: Env, on: bool, log: seq<Coded>): seq<byte>
    requires AllOk(log, on)
  {
    var (segs, root) := Segs(env, on, log, 0, Genesis());
    FileHeader(env) + (segs + EosBytes(env, root))
  }

  function AllSnapshots(log: seq<Coded>): seq<Snapshot>
  {
    if log == [] then [] else log[0].snaps + AllSnapshots(log[1..])
  }

  // ---- readers ------------------------------------------------------------

  /** bootstrapV3: the position after the header. Schema files are not modelled. */
  function ReadFileHeader(env: Env, data: seq<byte>): (r: Result<nat>)
    ensures r.Ok? ==> r.value <= |data|
  {
    if |data| < 14 then Err(Truncated)
    else if data[..4] != [0x47, 0x49, 0x43, 0x53] || data[4] != 3 then Err(Malformed)
    else
      var flags := FromLE(data[5..9]);
      if data[9] == 0 || data[10..14] != [0, 0, 0, 0] then Err(Malformed)
      else if (flags / 4) % 2 == 1 || (flags / 128) % 2 != (if env.encrypted then 1 else 0) then Err(Unsupported)
      else if env.encrypted && (|data| < 81 || data[14..81] != env.encHeader) then Err(Malformed)
      else if data[9] != 5 then Err(Malformed)
      else Ok(if env.encrypted then 81 else 14)
  }

  function Prepend(xs: seq<Snapshot>, r: Result<(seq<Snapshot>, seq<byte>)>): Result<(seq<Snapshot>, seq<byte>)>
  {
    match r
    case Err(e) => Err(e)
    case Ok((rest, last)) => Ok((xs + rest, last))
  }

  /** getAllSnapshotsV3's loop over what is left of the file. */
  function DecodeSegs(env: Env, s: seq<byte>, ordinal: nat, chain: seq<byte>): (r: Result<(seq<Snapshot>, seq<byte>)>)
    decreases |s|
  {
    if |s| <= EOS_SIZE then Ok(([], chain))
    else
      match ParseSegment(env, s)
      case Err(e) => Err(e)
      case Ok(p) =>
        match FollowChain(env, p.raws, chain)
        case Err(e) => Err(e)
        case Ok(root) =>
          match DecodeParsed(env, p, ordinal)
          case Err(e) => Err(e)
          case Ok(xs) => Prepend(xs, DecodeSegs(env, s[p.size..], ordinal + 1, root))
  }

  /** verifyFileEOS */
  predicate EosOk(env: Env, data: seq<byte>, root: seq<byte>)
    requires |data| >= EOS_SIZE
  {
    var eos := data[|data| - EOS_SIZE..];
    eos[0] == 0xFF && FromLE(eos[33..37]) == env.crc(eos[1..33]) && eos[1..33] == root
  }

  /** getAllSnapshots in strict mode. */
  function DecodeFile(env: Env, data: seq<byte>): Result<seq<Snapshot>>
  {
    if |data| < EOS_SIZE || data[|data| - EOS_SIZE] != 0xFF then Err(Truncated)
    else
      match ReadFileHeader(env, data)
      case Err(e) => Err(e)
      case Ok(pos) =>
        match DecodeSegs(env, data[pos..], 0, Genesis())
        case Err(e) => Err(e)
        case Ok((xs, root)) => if EosOk(env, data, root) then Ok(xs) else Err(IntegrityMismatch)
  }

  /** verifySegmentAt from segment to segment. */
  function VerifySegs(env: Env, s: seq<byte>, ordinal: nat, chain: seq<byte>): Result<seq<byte>>
    decreases |s|
  {
    if |s| <= EOS_SIZE then Ok(chain)
    else
      match ParseSegment(env, s)
      case Err(e) => Err(e)
      case Ok(p) =>
        match FollowChain(env, p.raws, chain)
        case Err(e) => Err(e)
        case Ok(root) =>
          if root != p.root || !VerifyParsed(env, p, ordinal) then Err(IntegrityMismatch)
          else VerifySegs(env, s[p.size..], ordinal + 1, root)
  }

  /** verifyIntegrityOnly */
  predicate VerifyFile(env: Env, data: seq<byte>)
  {
    |data| >= 14 + EOS_SIZE &&
    match ReadFileHeader(env, data)
    case Err(_) => false
    case Ok(pos) =>
      match VerifySegs(env, data[pos..], 0, Genesis())
      case Err(_) => false
      case Ok(root) => EosOk(env, data, root)
  }

  predicate Lookups(ix: Index, id: int) { ix.bloom != [] && Contains(ix, id) }

  function WithId(xs: seq<Snapshot>, id: int): seq<Snapshot>
  {
    if xs == [] then []
    else if id in xs[0].items then [xs[0]] + WithId(xs[1..], id)
    else WithId(xs[1..], id)
  }

  /** decodeSegment(true, id): nothing from a segment whose index does not hold the id. */
  function QueryParsed(env: Env, p: Parsed, ordinal: nat, id: int): Result<seq<Snapshot>>
  {
    if !Lookups(p.index, id) then Ok([])
    else
      match DecodeParsed(env, p, ordinal)
      case Err(e) => Err(e)
      case Ok(xs) => Ok(WithId(xs, id))
  }

  function QuerySegs(env: Env, s: seq<byte>, ordinal: nat, id: int): Result<seq<Snapshot>>
    decreases |s|
  {
    if |s| <= EOS_SIZE then Ok([])
    else
      match ParseSegment(env, s)
      case Err(e) => Err(e)
      case Ok(p) =>
        match (QueryParsed(env, p, ordinal, id), QuerySegs(env, s[p.size..], ordinal + 1, id))
        case (Ok(xs), Ok(rest)) => Ok(xs + rest)
        case (Err(e), _) => Err(e)
        case (_, Err(e)) => Err(e)
  }

  /** query(id): segments whose index does not hold the id are skipped undecoded. */
  function QueryFile(env: Env, data: seq<byte>, id: int): Result<seq<Snapshot>>
  {
    match ReadFileHeader(env, data)
    case Err(e) => Err(e)
    case Ok(pos) => QuerySegs(env, data[pos..], 0, id)
  }

  // ---- the decoder on encoded files ---------------------------------------

  /** The decoder's answer, segment by segment. */
  function DecodeLog(log: seq<Coded>, on: bool): Result<seq<Snapshot>>
    requires AllOk(log, on)
  {
    if log == [] then Ok([])
    else
      match (DecodeSegment(EncodedOf(log[0], on)), DecodeLog(log[1..], on))
      case (Ok(xs), Ok(rest)) => Ok(xs + rest)
      case (Err(e), _) => Err(e)
      case (_, Err(e)) => Err(e)
  }

  lemma FileHeaderBack(env: Env, rest: seq<byte>)
    requires EnvOk(env)
    ensures |FileHeader(env)| == if env.encrypted then 81 else 14
    ensures ReadFileHeader(env, FileHeader(env) + rest) == Ok(|FileHeader(env)|)
  {
    hide ToLE, FromLE;
    FieldWidths();
    FromLEToLE(0x81, 4);
    FromLEToLE(1, 4);
    var data := FileHeader(env) + rest;
    assert data[5..9] == ToLE(if env.encrypted then 0x81 else 1, 4);
    assert data[..4] == [0x47, 0x49, 0x43, 0x53];
    assert data[10..14] == [0, 0, 0, 0];
    if env.encrypted {
      assert data[14..81] == env.encHeader;
    }
  }

  /** An encrypted file's header is accepted by a reader that has its key, and by no other. */
  lemma EncryptedHeaderExact(env: Env, reader: Env, rest: seq<byte>)
    requires EnvOk(env) && env.encrypted
    ensures ReadFileHeader(reader, FileHeader(env) + rest).Ok? <==> reader.encrypted && reader.encHeader == env.encHeader
  {
    hide ToLE, FromLE;
    FieldWidths();
    FromLEToLE(0x81, 4);
    var data := FileHeader(env) + rest;
    assert data[5..9] == ToLE(0x81, 4);
    assert data[..4] == [0x47, 0x49, 0x43, 0x53];
    assert data[10..14] == [0, 0, 0, 0];
    assert data[14..81] == env.encHeader;
  }

  lemma EosBack(env: Env, root: seq<byte>, front: seq<byte>)
    requires EnvOk(env) && |root| == 32
    ensures |EosBytes(env, root)| == EOS_SIZE
    ensures EosOk(env, front + EosBytes(env, root), root)
    ensures forall other :: EosOk(env, front + EosBytes(env, root), other) ==> other == root
  {
    hide ToLE, FromLE;
    FieldWidths();
    FromLEToLE(env.crc(root), 4);
    var data := front + EosBytes(env, root);
    assert data[|data| - EOS_SIZE..] == EosBytes(env, root);
    assert EosBytes(env, root)[1..33] == root;
    assert EosBytes(env, root)[33..37] == ToLE(env.crc(root), 4);
  }

  lemma SegmentVerifiesAt(c: Coded, on: bool)
    requires CodedOk(c, on)
    ensures SegmentVerifies(EncodedOf(c, on))
  {
    hide EncodeSegment, SegmentVerifies, PlanFits, Collect;
    SegmentAlwaysVerifies(c.snaps, c.plan, on);
  }

  lemma ParsedWork(env: Env, p: Parsed, ordinal: nat, e: Encoded)
    requires UnwrapAll(env, ordinal, p.raws) == Ok(e.sections) && p.itemMajor == e.itemMajor && p.itemCount == e.itemCount
    ensures DecodeParsed(env, p, ordinal) == DecodeSegment(e) && VerifyParsed(env, p, ordinal) == SegmentVerifies(e)
  {
    hide UnwrapAll, DecodeSegment, SegmentVerifies;
    assert e == Encoded(e.sections, p.itemMajor, p.itemCount);
  }

  /** A parsed segment with everything the readers find out about it. */
  ghost predicate ReadAs(env: Env, on: bool, c: Coded, ordinal: nat, chain: seq<byte>, p: Parsed)
  {
    CodedOk(c, on) &&
    var root := RootAfter(env, on, c, ordinal, chain);
    && |root| == 32 && p.root == root && p.size == |BytesOf(env, on, c, ordinal, chain)| && p.size >= 50
    && FollowChain(env, p.raws, chain) == Ok(root) && p.index == IndexFor(c)
    && DecodeParsed(env, p, ordinal) == DecodeSegment(EncodedOf(c, on))
    && VerifyParsed(env, p, ordinal)
  }

  /** A segment's bytes in front of anything. */
  lemma FrontParsed(env: Env, on: bool, c: Coded, ordinal: nat, chain: seq<byte>, rest: seq<byte>) returns (p: Parsed)
    requires EnvOk(env) && CodedOk(c, on) && Fits(env, on, c, ordinal, chain)
    ensures var bytes, root := BytesOf(env, on, c, ordinal, chain), RootAfter(env, on, c, ordinal, chain);
            && |bytes| >= 50 && |root| == 32
            && ParseSegment(env, bytes + rest) == Ok(p) && p.size == |bytes| && p.root == root
            && FollowChain(env, p.raws, chain) == Ok(root) && p.index == IndexFor(c)
            && DecodeParsed(env, p, ordinal) == DecodeSegment(EncodedOf(c, on))
            && VerifyParsed(env, p, ordinal)
  {
    SegmentVerifiesAt(c, on);
    var e, ix := EncodedOf(c, on), IndexFor(c);
    hide CodedOk, EncodedOf, IndexFor, WrapAll, SegmentBytes, ParseSegment, FollowChain, UnwrapAll, DecodeSegment;
    hide SegmentVerifies, DecodeParsed, VerifyParsed, EnvOk;
    SegmentBack(env, ordinal, e, ix, chain, rest);
    p := ParseSegment(env, SegmentBytes(env, ordinal, e, ix, chain) + rest).value;
    ParsedWork(env, p, ordinal, e);
  }

  /** One segment at the front of the data. */
  lemma FrontSegment(env: Env, on: bool, log: seq<Coded>, ordinal: nat, chain: seq<byte>, tail: seq<byte>)
    returns (p: Parsed, root: seq<byte>)
    requires EnvOk(env) && LogOk(env, on, log, ordinal, chain) && log != []
    ensures AllOk(log, on) && LogOk(env, on, log[1..], ordinal + 1, root) && AllOk(log[1..], on)
    ensures ReadAs(env, on, log[0], ordinal, chain, p) && p.root == root
    ensures var s := Segs(env, on, log, ordinal, chain).0 + tail;
            var rest := Segs(env, on, log[1..], ordinal + 1, root);
            && Segs(env, on, log, ordinal, chain).1 == rest.1
            && ParseSegment(env, s) == Ok(p) && |s| >= |tail| + 50 && p.size + |tail| <= |s|
            && s[p.size..] == rest.0 + tail
  {
    hide *;
    LogParts(env, on, log, ordinal, chain);
    LogHead(env, on, log, ordinal, chain);
    SegsHead(env, on, log, ordinal, chain);
    root := RootAfter(env, on, log[0], ordinal, chain);
    LogParts(env, on, log[1..], ordinal + 1, root);
    var bytes := BytesOf(env, on, log[0], ordinal, chain);
    var rest := Segs(env, on, log[1..], ordinal + 1, root).0;
    p := FrontParsed(env, on, log[0], ordinal, chain, rest + tail);
    ReadAsIntro(env, on, log[0], ordinal, chain, p);
    assert bytes + rest + tail == bytes + (rest + tail);
    assert (bytes + (rest + tail))[|bytes|..] == rest + tail;
  }

  lemma ReadAsIntro(env: Env, on: bool, c: Coded, ordinal: nat, chain: seq<byte>, p: Parsed)
    requires CodedOk(c, on) && p.root == RootAfter(env, on, c, ordinal, chain) && |p.root| == 32
    requires p.size == |BytesOf(env, on, c, ordinal, chain)| && p.size >= 50
    requires FollowChain(env, p.raws, chain) == Ok(p.root) && p.index == IndexFor(c)
    requires DecodeParsed(env, p, ordinal) == DecodeSegment(EncodedOf(c, on)) && VerifyParsed(env, p, ordinal)
    ensures ReadAs(env, on, c, ordinal, chain, p)
  {
    hide CodedOk, EncodedOf, DecodeSegment, DecodeParsed, VerifyParsed, FollowChain, BytesOf, RootAfter, IndexFor;
  }

  lemma ReadAsParts(env: Env, on: bool, c: Coded, ordinal: nat, chain: seq<byte>, p: Parsed)
    requires ReadAs(env, on, c, ordinal, chain, p)
    ensures CodedOk(c, on) && p.root == RootAfter(env, on, c, ordinal, chain) && |p.root| == 32
    ensures p.size == |BytesOf(env, on, c, ordinal, chain)| && p.size >= 50
    ensures FollowChain(env, p.raws, chain) == Ok(p.root) && p.index == IndexFor(c)
    ensures DecodeParsed(env, p, ordinal) == DecodeSegment(EncodedOf(c, on)) && VerifyParsed(env, p, ordinal)
  {
  }

  lemma LogHead(env: Env, on: bool, log: seq<Coded>, ordinal: nat, chain: seq<byte>)
    requires LogOk(env, on, log, ordinal, chain) && log != []
    ensures CodedOk(log[0], on) && Fits(env, on, log[0], ordinal, chain)
    ensures LogOk(env, on, log[1..], ordinal + 1, RootAfter(env, on, log[0], ordinal, chain))
  {
  }

  lemma SegsHead(env: Env, on: bool, log: seq<Coded>, ordinal: nat, chain: seq<byte>)
    requires AllOk(log, on) && log != []
    ensures var rest := Segs(env, on, log[1..], ordinal + 1, RootAfter(env, on, log[0], ordinal, chain));
            Segs(env, on, log, ordinal, chain) == (BytesOf(env, on, log[0], ordinal, chain) + rest.0, rest.1)
  {
  }

  /** Segments tile the data area, the hash chain verifies and the ordinals match the decoder's, so the
      decoder sees exactly the encoded segments. */
  lemma {:induction false} SegsBack(env: Env, on: bool, log: seq<Coded>, ordinal: nat, chain: seq<byte>, eos: seq<byte>)
    requires EnvOk(env) && LogOk(env, on, log, ordinal, chain) && |eos| == EOS_SIZE
    ensures var s := Segs(env, on, log, ordinal, chain).0 + eos;
            var root := Segs(env, on, log, ordinal, chain).1;
            var r := DecodeLog(log, on);
            && |root| == 32
            && (r.Ok? ==> DecodeSegs(env, s, ordinal, chain) == Ok((r.value, root)))
            && VerifySegs(env, s, ordinal, chain) == Ok(root)
            && (r.Err? ==> DecodeSegs(env, s, ordinal, chain).Err?)
    decreases |log|
  {
    hide LogOk, Segs, ParseSegment, FollowChain, DecodeParsed, DecodeSegment, EncodedOf, CodedOk, BytesOf, RootAfter,
         Fits, EnvOk, IndexFor, VerifyParsed, ReadAs;
    LogParts(env, on, log, ordinal, chain);
    if log == [] {
      EmptyLog(env, on, ordinal, chain);
      assert [] + eos == eos;
    } else {
      var p, root := FrontSegment(env, on, log, ordinal, chain, eos);
      ReadAsParts(env, on, log[0], ordinal, chain, p);
      SegsBack(env, on, log[1..], ordinal + 1, root, eos);
    }
  }

  lemma LogParts(env: Env, on: bool, log: seq<Coded>, ordinal: nat, chain: seq<byte>)
    requires LogOk(env, on, log, ordinal, chain)
    ensures AllOk(log, on) && |chain| == 32
  {
  }

  lemma EmptyLog(env: Env, on: bool, ordinal: nat, chain: seq<byte>)
    ensures Segs(env, on, [], ordinal, chain) == ([], chain)
  {
  }

  lemma SealedShape(env: Env, on: bool, log: seq<Coded>)
    requires EnvOk(env) && LogOk(env, on, log, 0, Genesis())
    ensures var (segs, root) := Segs(env, on, log, 0, Genesis());
            var data := FileBytes(env, on, log);
            && |root| == 32 && |data| == |FileHeader(env)| + |segs| + EOS_SIZE
            && 14 <= |FileHeader(env)| && ReadFileHeader(env, data) == Ok(|FileHeader(env)|)
            && data[|FileHeader(env)|..] == segs + EosBytes(env, root)
            && data[|data| - EOS_SIZE] == 0xFF
            && EosOk(env, data, root) && (forall other :: EosOk(env, data, other) ==> other == root)
  {
    hide FileHeader, Segs, ReadFileHeader, EosOk, LogOk;
    LogParts(env, on, log, 0, Genesis());
    var (segs, root) := Segs(env, on, log, 0, Genesis());
    EosBack(env, Genesis(), []);
    SegsBack(env, on, log, 0, Genesis(), EosBytes(env, Genesis()));
    FileHeaderBack(env, segs + EosBytes(env, root));
    EosBack(env, root, FileHeader(env) + segs);
    assert FileHeader(env) + segs + EosBytes(env, root) == FileBytes(env, on, log);
  }

  /** A sealed file answers as its segments do, and it always verifies. */
  lemma FileDecodes(env: Env, on: bool, log: seq<Coded>)
    requires EnvOk(env) && LogOk(env, on, log, 0, Genesis())
    ensures var r, data := DecodeLog(log, on), FileBytes(env, on, log);
            && (r.Ok? ==> DecodeFile(env, data) == r)
            && (r.Err? ==> DecodeFile(env, data).Err?)
            && VerifyFile(env, data)
  {
    hide FileHeader, Segs, ReadFileHeader, EosOk, LogOk, DecodeLog, DecodeSegs, VerifySegs, FileBytes, EosBytes;
    LogParts(env, on, log, 0, Genesis());
    SealedShape(env, on, log);
    var root := Segs(env, on, log, 0, Genesis()).1;
    EosBack(env, root, []);
    SegsBack(env, on, log, 0, Genesis(), EosBytes(env, root));
  }

  lemma {:induction false} DecodeLogOk(log: seq<Coded>, on: bool)
    requires AllOk(log, on)
    ensures DecodeLog(log, on).Ok? <==> forall i :: 0 <= i < |log| ==> CountUsable(log[i].snaps)
  {
    hide DecodeSegment, EncodeSegment, PlanFits, Collect, CountUsable;
    if log != [] {
      SegmentDecodesExact(log[0].snaps, log[0].plan, on);
      DecodeLogOk(log[1..], on);
      assert (forall i :: 0 <= i < |log| ==> CountUsable(log[i].snaps))
        <==> CountUsable(log[0].snaps) && forall i :: 0 <= i < |log[1..]| ==> CountUsable(log[1..][i].snaps) by {
        assert forall i :: 0 < i < |log| ==> log[i] == log[1..][i - 1];
      }
    }
  }

  /** Item-major with a count that loses bits in the header and keeps some. */
  predicate TooWide(c: Coded)
  {
    var f := Collect(c.snaps);
    f.itemMajor && f.itemsPerSnapshot >= 0x1_0001 && f.itemsPerSnapshot % 0x1_0000 != 0
  }

  lemma TooWideUnusable(c: Coded)
    ensures CountUsable(c.snaps) <==> !TooWide(c)
  {
    hide Collect;
  }

  /** Verification proves less than it seems to: every sealed file passes it, and yet it does not decode if
      and only if an item-major segment has 65537 items or more and not a multiple of 65536. */
  lemma VerifiedMayNotDecode(env: Env, on: bool, log: seq<Coded>)
    requires EnvOk(env) && LogOk(env, on, log, 0, Genesis())
    ensures VerifyFile(env, FileBytes(env, on, log))
    ensures DecodeFile(env, FileBytes(env, on, log)).Err? <==> exists i :: 0 <= i < |log| && TooWide(log[i])
  {
    hide DecodeFile, FileBytes, VerifyFile, DecodeLog, TooWide, CountUsable;
    LogParts(env, on, log, 0, Genesis());
    FileDecodes(env, on, log);
    DecodeLogOk(log, on);
    hide LogOk, AllOk;
    forall i | 0 <= i < |log|
      ensures CountUsable(log[i].snaps) <==> !TooWide(log[i])
    {
      TooWideUnusable(log[i]);
    }
  }

  /** The segments that survive: no DOD block on a carried delta, and a countable item-major layout. */
  predicate Exact(c: Coded)
  {
    Blocks.NoCarry(c.plan.values, 0, 0) &&
    (Collect(c.snaps).itemMajor ==> Collect(c.snaps).itemsPerSnapshot < 0x1_0000)
  }

  lemma {:induction false} DecodeLogExact(log: seq<Coded>, on: bool)
    requires AllOk(log, on)
    ensures DecodeLog(log, on).Ok? ==> |DecodeLog(log, on).value| == |AllSnapshots(log)|
    ensures DecodeLog(log, on) == Ok(AllSnapshots(log)) <==> forall i :: 0 <= i < |log| ==> Exact(log[i])
  {
    hide DecodeSegment, EncodeSegment, PlanFits, Collect, Blocks.NoCarry;
    if log != [] {
      var c, rest := log[0], log[1..];
      SegmentExact(c.snaps, c.plan, on);
      DecodedShape(c.snaps, c.plan, on);
      DecodeLogExact(rest, on);
      assert (forall i :: 0 <= i < |log| ==> Exact(log[i]))
        <==> Exact(c) && forall i :: 0 <= i < |rest| ==> Exact(rest[i]) by {
        assert forall i :: 0 < i < |log| ==> log[i] == rest[i - 1];
      }
      var first, later := DecodeSegment(EncodedOf(c, on)), DecodeLog(rest, on);
      if first.Ok? && later.Ok? {
        var n := |c.snaps|;
        assert (first.value + later.value)[..n] == first.value && (first.value + later.value)[n..] == later.value;
        assert AllSnapshots(log)[..n] == c.snaps && AllSnapshots(log)[n..] == AllSnapshots(rest);
      }
    }
  }

  /** The file theorem. For every log of segments, whatever codecs and routes were chosen, a sealed file
      decodes to the snapshots that went in exactly when each of its segments is exact. It verifies from the
      genesis hash to the root in its end-of-stream record either way. */
  lemma FileExact(env: Env, on: bool, log: seq<Coded>)
    requires EnvOk(env) && LogOk(env, on, log, 0, Genesis())
    ensures DecodeFile(env, FileBytes(env, on, log)) == Ok(AllSnapshots(log))
       <==> forall i :: 0 <= i < |log| ==> Exact(log[i])
    ensures VerifyFile(env, FileBytes(env, on, log))
  {
    hide DecodeFile, FileBytes, VerifyFile, DecodeLog, Exact;
    LogParts(env, on, log, 0, Genesis());
    FileDecodes(env, on, log);
    DecodeLogExact(log, on);
  }

  // ---- queries ------------------------------------------------------------

  lemma {:induction false} WithIdAppend(a: seq<Snapshot>, b: seq<Snapshot>, id: int)
    ensures WithId(a + b, id) == WithId(a, id) + WithId(b, id)
  {
    if a == [] {
      assert a + b == b;
    } else {
      WithIdAppend(a[1..], b, id);
      assert (a + b)[1..] == a[1..] + b;
    }
  }

  lemma {:induction false} WithIdNone(xs: seq<Snapshot>, id: int)
    requires forall i :: 0 <= i < |xs| ==> id !in xs[i].items
    ensures WithId(xs, id) == []
  {
    if xs != [] {
      WithIdNone(xs[1..], id);
    }
  }

  /** A skipped segment would have contributed nothing. */
  lemma SkippedIsEmpty(c: Coded, on: bool, id: int)
    requires CodedOk(c, on) && !Lookups(IndexFor(c), id)
    ensures DecodeSegment(EncodedOf(c, on)).Ok? ==> WithId(DecodeSegment(EncodedOf(c, on)).value, id) == []
  {
    hide DecodeSegment, EncodeSegment, PlanFits, Collect, Contains, MakeIndex;
    ContainsExact(Collect(c.snaps).columns.ids, id);
    DecodedShape(c.snaps, c.plan, on);
    if DecodeSegment(EncodedOf(c, on)).Ok? {
      WithIdNone(DecodeSegment(EncodedOf(c, on)).value, id);
    }
  }

  lemma {:induction false} QueryBack(env: Env, on: bool, log: seq<Coded>, ordinal: nat, chain: seq<byte>,
                                     eos: seq<byte>, id: int)
    requires EnvOk(env) && LogOk(env, on, log, ordinal, chain) && |eos| == EOS_SIZE
    requires AllOk(log, on)
    requires DecodeLog(log, on).Ok?
    ensures QuerySegs(env, Segs(env, on, log, ordinal, chain).0 + eos, ordinal, id)
         == Ok(WithId(DecodeLog(log, on).value, id))
    decreases |log|
  {
    hide LogOk, Segs, ParseSegment, FollowChain, DecodeParsed, DecodeSegment, EncodedOf, CodedOk, Lookups, WithId, IndexFor;
    if log == [] {
      EmptyLog(env, on, ordinal, chain);
      assert [] + eos == eos;
      WithIdNone([], id);
    } else {
      var p, root := FrontSegment(env, on, log, ordinal, chain, eos);
      ReadAsParts(env, on, log[0], ordinal, chain, p);
      QueryBack(env, on, log[1..], ordinal + 1, root, eos, id);
      var xs, rest := DecodeSegment(EncodedOf(log[0], on)).value, DecodeLog(log[1..], on).value;
      WithIdAppend(xs, rest, id);
      if !Lookups(p.index, id) {
        SkippedIsEmpty(log[0], on, id);
        assert [] + WithId(rest, id) == WithId(rest, id);
      }
    }
  }

  /** On every encoded file that decodes, a query is the filter of the full decode. */
  lemma QueryIsFilter(env: Env, on: bool, log: seq<Coded>, id: int)
    requires EnvOk(env) && LogOk(env, on, log, 0, Genesis())
    ensures var data := FileBytes(env, on, log);
            var r := DecodeFile(env, data);
            r.Ok? ==> QueryFile(env, data, id) == Ok(WithId(r.value, id))
  {
    hide FileHeader, Segs, ReadFileHeader, EosOk, LogOk, DecodeLog, QuerySegs, FileBytes, EosBytes, DecodeFile, WithId;
    LogParts(env, on, log, 0, Genesis());
    FileDecodes(env, on, log);
    SealedShape(env, on, log);
    var root := Segs(env, on, log, 0, Genesis()).1;
    EosBack(env, root, []);
    if DecodeLog(log, on).Ok? {
      QueryBack(env, on, log, 0, Genesis(), EosBytes(env, root), id);
    }
  }
}
