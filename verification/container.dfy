/** The bytes of a segment (src/gics/segment.ts, wrapSections and assembleSegment in encode.ts,
    parseSegmentParts and processSection in decode.ts): sections, hash chain, index, CRC. */
module Container {
  import opened Bytes
  import opened Sections
  import opened SegmentIndex
  import opened SegmentCodec
  import Blocks
  import Snapshots

  /** The primitives the format is built on, known only by their equations. `seal` and `open` are the
      cipher, keyed by segment ordinal and stream id. */
  datatype Env = Env(
    encrypted: bool,
    encHeader: seq<byte>,
    sha: seq<byte> -> seq<byte>,
    crc: seq<byte> -> nat,
    compress: seq<byte> -> seq<byte>,
    decompress: seq<byte> -> Option<seq<byte>>,
    seal: (nat, byte, seq<byte>) -> (seq<byte>, seq<byte>),
    open: (nat, byte, seq<byte>, seq<byte>) -> Option<seq<byte>>)

  ghost predicate EnvOk(env: Env)
  {
    && (env.encrypted ==> |env.encHeader| == 67)
    && (forall x :: |env.sha(x)| == 32)
    && (forall x :: env.crc(x) < 0x1_0000_0000)
    && (forall x :: env.decompress(env.compress(x)) == Some(x))
    && (forall o, s, x :: |env.seal(o, s, x).1| == 16
                          && env.open(o, s, env.seal(o, s, x).0, env.seal(o, s, x).1) == Some(x))
  }

  const MAX_ALLOCATION: nat := 0x400_0000   // 64 MB per section

  // ---- ids ----------------------------------------------------------------

  function StreamId(s: Blocks.Stream): byte
  {
    match s
    case TIME => 10
    case VALUE => 20
    case ITEM_ID => 40
    case QUANTITY => 50
    case SNAPSHOT_LEN => 60
  }

  function StreamOf(id: byte): Option<Blocks.Stream>
  {
    match id
    case 10 => Some(Blocks.TIME)
    case 20 => Some(Blocks.VALUE)
    case 40 => Some(Blocks.ITEM_ID)
    case 50 => Some(Blocks.QUANTITY)
    case 60 => Some(Blocks.SNAPSHOT_LEN)
    case _ => None
  }

  function CodecId(c: Blocks.Codec): byte
  {
    match c
    case VARINT_DELTA => 1
    case BITPACK_DELTA => 2
    case RLE_ZIGZAG => 3
    case RLE_DOD => 4
    case DOD_VARINT => 5
    case DICT_VARINT => 6
    case FIXED64_LE => 7
    case FOR_BITPACK => 9
  }

  /** XOR_FLOAT (8) never occurs in a file of integers. */
  function CodecOf(id: byte): Option<Blocks.Codec>
  {
    match id
    case 1 => Some(Blocks.VARINT_DELTA)
    case 2 => Some(Blocks.BITPACK_DELTA)
    case 3 => Some(Blocks.RLE_ZIGZAG)
    case 4 => Some(Blocks.RLE_DOD)
    case 5 => Some(Blocks.DOD_VARINT)
    case 6 => Some(Blocks.DICT_VARINT)
    case 7 => Some(Blocks.FIXED64_LE)
    case 9 => Some(Blocks.FOR_BITPACK)
    case _ => None
  }

  // ---- blocks and payload -------------------------------------------------

  function Payloads(bs: seq<Blocks.Block>): seq<byte>
  {
    if bs == [] then [] else bs[0].payload + Payloads(bs[1..])
  }

  function Manifest(bs: seq<Blocks.Block>): (m: seq<Entry>)
    ensures |m| == |bs|
  {
    if bs == [] then []
    else [Entry(CodecId(bs[0].codec), bs[0].nItems, |bs[0].payload|, bs[0].flags)] + Manifest(bs[1..])
  }

  /** decodeAndDistributeSection: cut the decompressed bytes by the manifest; nothing may be left over. */
  function CutBlocks(m: seq<Entry>, data: seq<byte>): Result<seq<Blocks.Block>>
  {
    if m == [] then if data == [] then Ok([]) else Err(IntegrityMismatch)
    else if m[0].payloadLen > |data| then Err(IntegrityMismatch)
    else
      match (CodecOf(m[0].codec), CutBlocks(m[1..], data[m[0].payloadLen..]))
      case (Some(c), Ok(rest)) => Ok([Blocks.Block(c, m[0].nItems, m[0].flags, data[..m[0].payloadLen])] + rest)
      case (None, _) => Err(Unsupported)
      case (_, Err(e)) => Err(e)
  }

  lemma {:induction false} CutPayloads(bs: seq<Blocks.Block>)
    ensures CutBlocks(Manifest(bs), Payloads(bs)) == Ok(bs)
  {
    if bs != [] {
      var data, n := Payloads(bs), |bs[0].payload|;
      CutPayloads(bs[1..]);
      assert Manifest(bs)[1..] == Manifest(bs[1..]);
      assert data[..n] == bs[0].payload && data[n..] == Payloads(bs[1..]);
      assert CodecOf(CodecId(bs[0].codec)) == Some(bs[0].codec);
      assert bs == [bs[0]] + bs[1..];
    }
  }

  // ---- one section --------------------------------------------------------

  /** wrapSingleSection: compress, seal if encrypted, and advance the hash chain. */
  function Wrap(env: Env, ordinal: nat, s: Section, chain: seq<byte>): RawSection
  {
    var id := StreamId(s.stream);
    var packed := env.compress(Payloads(s.blocks));
    var (payload, tag) := if env.encrypted then env.seal(ordinal, id, packed) else (packed, []);
    var raw := RawSection(id, 1, |Payloads(s.blocks)|, [], tag, Manifest(s.blocks), payload);
    raw.(hash := env.sha(chain + HashInput(raw)))
  }

  function Unpack(env: Env, ordinal: nat, raw: RawSection): Option<seq<byte>>
  {
    var plain := if env.encrypted then env.open(ordinal, raw.streamId, raw.payload, raw.tag) else Some(raw.payload);
    if plain == None then None
    else if raw.outer == 1 then env.decompress(plain.value)
    else if raw.outer == 0 then plain
    else None
  }

  /** processSection up to the block loop. */
  function Unwrap(env: Env, ordinal: nat, raw: RawSection): Result<Section>
  {
    if raw.uncompressedLen > MAX_ALLOCATION then Err(LimitExceeded)
    else
      match (StreamOf(raw.streamId), Unpack(env, ordinal, raw))
      case (Some(stream), Some(data)) =>
        if |data| != raw.uncompressedLen then Err(IntegrityMismatch)
        else
          (match CutBlocks(raw.manifest, data)
           case Err(e) => Err(e)
           case Ok(bs) => Ok(Section(stream, bs)))
      case _ => Err(Unsupported)
  }

  lemma UnwrapWrap(env: Env, ordinal: nat, s: Section, chain: seq<byte>)
    requires EnvOk(env) && |Payloads(s.blocks)| <= MAX_ALLOCATION
    ensures Unwrap(env, ordinal, Wrap(env, ordinal, s, chain)) == Ok(s)
  {
    hide CutBlocks, HashInput;
    CutPayloads(s.blocks);
  }

  // ---- the sections of a segment ------------------------------------------

  function WrapAll(env: Env, ordinal: nat, ss: seq<Section>, chain: seq<byte>): (r: (seq<RawSection>, seq<byte>))
    ensures |r.0| == |ss|
    decreases |ss|
  {
    if ss == [] then ([], chain)
    else
      var raw := Wrap(env, ordinal, ss[0], chain);
      var (rest, last) := WrapAll(env, ordinal, ss[1..], raw.hash);
      ([raw] + rest, last)
  }

  function UnwrapAll(env: Env, ordinal: nat, raws: seq<RawSection>): Result<seq<Section>>
  {
    if raws == [] then Ok([])
    else
      match (Unwrap(env, ordinal, raws[0]), UnwrapAll(env, ordinal, raws[1..]))
      case (Ok(s), Ok(rest)) => Ok([s] + rest)
      case (Err(e), _) => Err(e)
      case (_, Err(e)) => Err(e)
  }

  /** advanceSectionIntegrity over all sections: the new root, if every stored hash is the computed one. */
  function FollowChain(env: Env, raws: seq<RawSection>, chain: seq<byte>): Result<seq<byte>>
    decreases |raws|
  {
    if raws == [] then Ok(chain)
    else
      var h := env.sha(chain + HashInput(raws[0]));
      if h != raws[0].hash then Err(IntegrityMismatch) else FollowChain(env, raws[1..], h)
  }

  lemma {:induction false} WrapAllBack(env: Env, ordinal: nat, ss: seq<Section>, chain: seq<byte>)
    requires EnvOk(env) && forall i :: 0 <= i < |ss| ==> |Payloads(ss[i].blocks)| <= MAX_ALLOCATION
    ensures UnwrapAll(env, ordinal, WrapAll(env, ordinal, ss, chain).0) == Ok(ss)
    ensures FollowChain(env, WrapAll(env, ordinal, ss, chain).0, chain) == Ok(WrapAll(env, ordinal, ss, chain).1)
    ensures |chain| == 32 ==> |WrapAll(env, ordinal, ss, chain).1| == 32
    decreases |ss|
  {
    if ss != [] {
      var raw := Wrap(env, ordinal, ss[0], chain);
      UnwrapWrap(env, ordinal, ss[0], chain);
      assert HashInput(raw) == HashInput(raw.(hash := []));
      assert raw.hash == env.sha(chain + HashInput(raw)) && |raw.hash| == 32;
      hide Wrap, Unwrap, HashInput, EnvOk;
      WrapAllBack(env, ordinal, ss[1..], raw.hash);
      var raws := WrapAll(env, ordinal, ss, chain).0;
      assert raws[1..] == WrapAll(env, ordinal, ss[1..], raw.hash).0;
      assert ss == [ss[0]] + ss[1..];
    }
  }

  // ---- header, footer, segment --------------------------------------------

  function HeaderBytes(indexOffset: nat, totalLength: nat, itemMajor: bool, itemCount: nat): (s: seq<byte>)
    ensures |s| == 14
  {
    [0x53, 0x47] + (ToLE(indexOffset, 4) + (ToLE(totalLength, 4)
    + ([if itemMajor then 1 else 0, 0] + ToLE(itemCount, 2))))
  }

  datatype Header = Header(indexOffset: nat, totalLength: nat, flags: byte, itemCount: nat)

  function ReadHeader(s: seq<byte>): Result<Header>
  {
    if |s| < 14 then Err(Truncated)
    else if s[0] != 0x53 || s[1] != 0x47 then Err(Malformed)
    else Ok(Header(FromLE(s[2..6]), FromLE(s[6..10]), s[10], FromLE(s[12..14])))
  }

  lemma ReadHeaderBack(indexOffset: nat, totalLength: nat, itemMajor: bool, itemCount: nat, rest: seq<byte>)
    requires indexOffset < 0x1_0000_0000 && totalLength < 0x1_0000_0000 && itemCount < 0x1_0000
    ensures ReadHeader(HeaderBytes(indexOffset, totalLength, itemMajor, itemCount) + rest)
         == Ok(Header(indexOffset, totalLength, if itemMajor then 1 else 0, itemCount))
  {
    hide ToLE, FromLE;
    FieldWidths();
    FromLEToLE(indexOffset, 4);
    FromLEToLE(totalLength, 4);
    FromLEToLE(itemCount, 2);
    var s := HeaderBytes(indexOffset, totalLength, itemMajor, itemCount) + rest;
    assert s[2..6] == ToLE(indexOffset, 4) && s[6..10] == ToLE(totalLength, 4) && s[12..14] == ToLE(itemCount, 2);
  }

  function FooterBytes(root: seq<byte>, crc: nat): seq<byte> { root + ToLE(crc, 4) }

  /** Everything the footer's CRC covers. */
  function PreFooter(e: Encoded, raws: seq<RawSection>, indexBytes: seq<byte>): seq<byte>
  {
    var body := SectionsBytes(raws);
    HeaderBytes(14 + |body|, 14 + |body| + |indexBytes| + 36, e.itemMajor, e.itemCount) + (body + indexBytes)
  }

  function SegmentBytes(env: Env, ordinal: nat, e: Encoded, ix: Index, chain: seq<byte>): seq<byte>
  {
    var (raws, root) := WrapAll(env, ordinal, e.sections, chain);
    var pre := PreFooter(e, raws, EncodeIndex(ix));
    pre + FooterBytes(root, env.crc(pre))
  }

  datatype Parsed = Parsed(itemMajor: bool, itemCount: nat, raws: seq<RawSection>, index: Index, root: seq<byte>, size: nat)

  /** parseSegmentParts and the CRC check every reader makes next. A zero total length (older files) is
      not modelled. */
  function ParseSegment(env: Env, s: seq<byte>): (r: Result<Parsed>)
    ensures r.Ok? ==> 14 <= r.value.size <= |s|
  {
    match ReadHeader(s)
    case Err(e) => Err(e)
    case Ok(h) =>
      if h.totalLength < 50 then Err(Unsupported)
      else if h.totalLength > |s| || h.indexOffset > h.totalLength - 36 then Err(Truncated)
      else ParseBody(env, s, h)
  }

  function ParseBody(env: Env, s: seq<byte>, h: Header): (r: Result<Parsed>)
    requires |s| >= 14 && 50 <= h.totalLength <= |s| && h.indexOffset <= h.totalLength - 36
    ensures r.Ok? ==> r.value.size == h.totalLength
  {
    var footerPos := h.totalLength - 36;
    var n := if h.indexOffset >= 14 then h.indexOffset - 14 else 0;
    if env.crc(s[..footerPos]) != FromLE(s[footerPos + 32..h.totalLength]) then Err(IntegrityMismatch)
    else
      match (ReadSections(s[14..], n, env.encrypted), DecodeIndex(s[h.indexOffset..footerPos]))
      case (Ok(raws), Ok(ix)) =>
        Ok(Parsed(h.flags % 2 == 1, h.itemCount, raws, ix, s[footerPos..footerPos + 32], h.totalLength))
      case (Err(e), _) => Err(e)
      case (_, Err(e)) => Err(e)
  }

  /** Every field of the segment fits its width and no section is over the decoder's limit. */
  ghost predicate SegmentOk(env: Env, ordinal: nat, e: Encoded, ix: Index, chain: seq<byte>)
  {
    var raws := WrapAll(env, ordinal, e.sections, chain).0;
    && (forall i :: 0 <= i < |raws| ==> SectionOk(raws[i], env.encrypted))
    && (forall i :: 0 <= i < |e.sections| ==> |Payloads(e.sections[i].blocks)| <= MAX_ALLOCATION)
    && IndexOk(ix) && e.itemCount < 0x1_0000 && |chain| == 32
    && |SegmentBytes(env, ordinal, e, ix, chain)| < 0x1_0000_0000
  }

  lemma ParseBodyBack(env: Env, e: Encoded, raws: seq<RawSection>, ix: Index, root: seq<byte>, rest: seq<byte>)
    requires EnvOk(env) && IndexOk(ix) && |root| == 32
    requires forall i :: 0 <= i < |raws| ==> SectionOk(raws[i], env.encrypted)
    ensures var pre := PreFooter(e, raws, EncodeIndex(ix));
            var s := pre + FooterBytes(root, env.crc(pre)) + rest;
            var h := Header(14 + |SectionsBytes(raws)|, |pre| + 36, if e.itemMajor then 1 else 0, e.itemCount);
            && |s| == h.totalLength + |rest| && 50 <= h.totalLength && h.indexOffset <= |pre|
            && ParseBody(env, s, h) == Ok(Parsed(e.itemMajor, e.itemCount, raws, ix, root, |pre| + 36))
  {
    hide EncodeIndex, DecodeIndex, SectionsBytes, ReadSections, SectionOk, ToLE, FromLE, IndexOk;
    var body, ib := SectionsBytes(raws), EncodeIndex(ix);
    var pre := PreFooter(e, raws, ib);
    var crc := env.crc(pre);
    FieldWidths();
    FromLEToLE(crc, 4);
    IndexRoundTrip(ix);
    var s := pre + FooterBytes(root, crc) + rest;
    ReadSectionsBack(raws, env.encrypted, ib + FooterBytes(root, crc) + rest);
    assert s[14..] == body + (ib + FooterBytes(root, crc) + rest);
    assert s[..|pre|] == pre;
    assert s[14 + |body|..|pre|] == ib;
    assert s[|pre| + 32..|pre| + 36] == ToLE(crc, 4);
    assert s[|pre|..|pre| + 32] == root;
  }

  /** A segment is parsed back whatever follows it, its hashes continue the chain, and its sections are
      the ones that went in: given the ordinal it was sealed under. */
  lemma SegmentBack(env: Env, ordinal: nat, e: Encoded, ix: Index, chain: seq<byte>, rest: seq<byte>)
    requires EnvOk(env) && SegmentOk(env, ordinal, e, ix, chain)
    ensures var bytes := SegmentBytes(env, ordinal, e, ix, chain);
            var (raws, root) := WrapAll(env, ordinal, e.sections, chain);
            && ParseSegment(env, bytes + rest) == Ok(Parsed(e.itemMajor, e.itemCount, raws, ix, root, |bytes|))
            && FollowChain(env, raws, chain) == Ok(root) && |root| == 32
            && UnwrapAll(env, ordinal, raws) == Ok(e.sections)
            && |bytes| >= 50
  {
    hide WrapAll, UnwrapAll, FollowChain, SectionOk, EncodeIndex, SectionsBytes, ParseBody, ReadHeader, HeaderBytes, ToLE;
    WrapAllBack(env, ordinal, e.sections, chain);
    var (raws, root) := WrapAll(env, ordinal, e.sections, chain);
    var ib, body := EncodeIndex(ix), SectionsBytes(raws);
    var pre := PreFooter(e, raws, ib);
    ParseBodyBack(env, e, raws, ix, root, rest);
    var bytes := SegmentBytes(env, ordinal, e, ix, chain);
    ReadHeaderBack(14 + |body|, |pre| + 36, e.itemMajor, e.itemCount,
                   body + ib + FooterBytes(root, env.crc(pre)) + rest);
    assert bytes + rest == HeaderBytes(14 + |body|, |pre| + 36, e.itemMajor, e.itemCount)
                           + (body + ib + FooterBytes(root, env.crc(pre)) + rest);
  }

  /** The decoder's work on a parsed segment. */
  function DecodeParsed(env: Env, p: Parsed, ordinal: nat): (r: Result<seq<Snapshots.Snapshot>>)
  {
    match UnwrapAll(env, ordinal, p.raws)
    case Err(e) => Err(e)
    case Ok(sections) => DecodeSegment(Encoded(sections, p.itemMajor, p.itemCount))
  }

  /** The verifier's work on a parsed segment. */
  predicate VerifyParsed(env: Env, p: Parsed, ordinal: nat)
  {
    match UnwrapAll(env, ordinal, p.raws)
    case Err(_) => false
    case Ok(sections) => SegmentVerifies(Encoded(sections, p.itemMajor, p.itemCount))
  }
}
