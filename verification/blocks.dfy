/** The block drivers of src/gics/encode.ts and src/gics/decode.ts: one block of one stream, and a whole
    stream, for any codec the encoder may pick and any route the health monitor may send it on. */
module Blocks {
  import opened Bytes
  import opened Context
  import opened FieldMath
  import Varint
  import BitPack
  import FrameOfReference
  import Fixed64

  datatype Codec =
    | VARINT_DELTA
    | BITPACK_DELTA
    | RLE_ZIGZAG
    | RLE_DOD
    | DOD_VARINT
    | DICT_VARINT
    | FIXED64_LE
    | FOR_BITPACK

  datatype Stream = TIME | SNAPSHOT_LEN | ITEM_ID | VALUE | QUANTITY

  /** How the encoder treats a block: on its own terms with the codec it picked, or diverted to FIXED64. */
  datatype Choice = Core(codec: Codec, flags: byte) | Quarantine(flags: byte)

  /** A manifest entry with its payload. */
  datatype Block = Block(codec: Codec, nItems: nat, flags: byte, payload: seq<byte>)

  /** Bit 5 of the block flags: a VALUE payload holds values, not deltas. */
  predicate AbsoluteFlag(flags: byte) { (flags / 32) % 2 == 1 }

  predicate UsesDod(choice: Choice)
  {
    choice.Core? && (choice.codec == DOD_VARINT || choice.codec == RLE_DOD)
  }

  /** The codecs the encoder tries on each stream. */
  function Candidates(stream: Stream, enabled: bool): seq<Codec>
  {
    match stream
    case TIME => [DOD_VARINT, RLE_DOD, BITPACK_DELTA]
    case SNAPSHOT_LEN => [VARINT_DELTA, RLE_ZIGZAG, BITPACK_DELTA]
    case ITEM_ID => [VARINT_DELTA, BITPACK_DELTA, DICT_VARINT]
    case QUANTITY => [VARINT_DELTA, RLE_ZIGZAG, DICT_VARINT]
    case VALUE =>
      [VARINT_DELTA, FOR_BITPACK, BITPACK_DELTA, RLE_ZIGZAG, DOD_VARINT, RLE_DOD]
      + (if enabled then [DICT_VARINT] else [])
  }

  /** Only TIME and VALUE blocks are ever quarantined, and no health flag is the absolute flag. */
  predicate Possible(stream: Stream, choice: Choice, enabled: bool)
  {
    !AbsoluteFlag(choice.flags) &&
    match choice
    case Core(codec, _) => codec in Candidates(stream, enabled)
    case Quarantine(_) => stream == TIME || stream == VALUE
  }

  // ---- number ranges ------------------------------------------------------

  const INPUT_BOUND: int := 0x2_0000_0000_0000   // 2^49
  const CODED_BOUND: int := 0x8_0000_0000_0000   // 2^51

  predicate Within(values: seq<int>, bound: int)
  {
    forall i :: 0 <= i < |values| ==> -bound <= values[i] <= bound
  }

  lemma CodedIsEncodable(data: seq<int>)
    requires Within(data, CODED_BOUND)
    ensures BitPack.Packable(data) && FrameOfReference.InRange(data) && Fixed64.AllSafe(data)
  {
  }

  // ---- codec dispatch -----------------------------------------------------

  function EncodeInner(codec: Codec, data: seq<int>, d: Dict): (r: (seq<byte>, Dict))
    requires Within(data, CODED_BOUND) && WellFormed(d)
    ensures WellFormed(r.1) && r.1.enabled == d.enabled
  {
    CodedIsEncodable(data);
    match codec
    case VARINT_DELTA => (Varint.VarintSeq(data), d)
    case DOD_VARINT => (Varint.VarintSeq(data), d)
    case BITPACK_DELTA => (BitPack.BitPackBytes(data), d)
    case RLE_ZIGZAG => (Varint.RleBytes(data), d)
    case RLE_DOD => (Varint.RleBytes(data), d)
    case FOR_BITPACK => (FrameOfReference.ForBytes(data), d)
    case FIXED64_LE => (Fixed64.Fixed64Bytes(data), d)
    case DICT_VARINT =>
      var (codes, d') := DictCodes(data, d);
      (Varint.VarintSeq(codes), d')
  }

  function DecodeInner(codec: Codec, payload: seq<byte>, nItems: nat, d: Dict): (r: Result<(seq<int>, Dict)>)
    requires WellFormed(d)
    ensures r.Ok? ==> WellFormed(r.value.1)
  {
    match codec
    case VARINT_DELTA => Ok((Varint.DecodeVarintSeq(payload), d))
    case DOD_VARINT => Ok((Varint.DecodeVarintSeq(payload), d))
    case BITPACK_DELTA => Ok((BitPack.DecodeBitPackBytes(payload, nItems), d))
    case RLE_ZIGZAG => Ok((Varint.DecodeRleBytes(payload), d))
    case RLE_DOD => Ok((Varint.DecodeRleBytes(payload), d))
    case DICT_VARINT => DecodeCodes(Varint.DecodeVarintSeq(payload), d)
    case FOR_BITPACK =>
      (match FrameOfReference.DecodeForBytes(payload, nItems)
       case Ok(vs) => Ok((vs, d))
       case Err(e) => Err(e))
    case FIXED64_LE =>
      (match Fixed64.DecodeFixed64(payload, nItems)
       case Ok(vs) => Ok((vs, d))
       case Err(e) => Err(e))
  }

  /** Every inner codec is lossless and leaves the two dictionaries in step. */
  lemma InnerLockstep(codec: Codec, data: seq<int>, enc: Dict, dec: Dict)
    requires Within(data, CODED_BOUND) && Coherent(enc) && Synced(enc, dec)
    ensures var (bytes, enc') := EncodeInner(codec, data, enc);
            var r := DecodeInner(codec, bytes, |data|, dec);
            r.Ok? && r.value.0 == data && Coherent(enc') && Synced(enc', r.value.1)
  {
    assert WellFormed(enc) && WellFormed(dec);
    hide Coherent, Synced, Within, DictCodes, DecodeCodes;
    hide Varint.VarintSeq, Varint.DecodeVarintSeq, Varint.RleBytes, Varint.DecodeRleBytes;
    hide BitPack.BitPackBytes, BitPack.DecodeBitPackBytes;
    hide FrameOfReference.ForBytes, FrameOfReference.DecodeForBytes, Fixed64.Fixed64Bytes, Fixed64.DecodeFixed64;
    CodedIsEncodable(data);
    match codec {
      case BITPACK_DELTA => BitPack.BitPackRoundTrip(data);
      case RLE_ZIGZAG => Varint.RleRoundTrip(data);
      case RLE_DOD => Varint.RleRoundTrip(data);
      case FOR_BITPACK => FrameOfReference.ForRoundTrip(data);
      case FIXED64_LE => Fixed64.Fixed64RoundTrip(data);
      case DICT_VARINT =>
        Varint.VarintRoundTrip(DictCodes(data, enc).0);
        DictLockstep(data, enc, dec);
      case VARINT_DELTA => Varint.VarintRoundTrip(data);
      case DOD_VARINT => Varint.VarintRoundTrip(data);
    }
  }

  // ---- one block ----------------------------------------------------------

  /** The numbers a block is coded from, before any delta-of-delta. */
  function InputData(stream: Stream, chunk: seq<int>, ctx: Ctx): (data: seq<int>)
    ensures |data| == |chunk|
  {
    match stream
    case TIME => TimeDeltas(chunk, OrZero(ctx.lastTimestamp), OrZero(ctx.lastTimestampDelta)).values
    case VALUE => ValueDeltas(chunk, OrZero(ctx.lastValue))
    case _ => chunk
  }

  function FinalData(stream: Stream, chunk: seq<int>, choice: Choice, ctx: Ctx): (data: seq<int>)
    ensures |data| == |chunk|
  {
    var input := InputData(stream, chunk, ctx);
    if stream == VALUE && UsesDod(choice) then Dods(input, OrZero(ctx.lastValueDelta)) else input
  }

  /** The state the encoder keeps after a block, whatever its route. The last value delta is not touched. */
  function Commit(stream: Stream, chunk: seq<int>, ctx: Ctx): Ctx
  {
    match stream
    case TIME =>
      var c := TimeDeltas(chunk, OrZero(ctx.lastTimestamp), OrZero(ctx.lastTimestampDelta));
      ctx.(lastTimestamp := Some(c.next), lastTimestampDelta := Some(c.nextDelta))
    case VALUE => ctx.(lastValue := Some(Last(chunk, OrZero(ctx.lastValue))))
    case _ => ctx
  }

  function EncodeBlock(stream: Stream, chunk: seq<int>, choice: Choice, ctx: Ctx): (r: (Block, Ctx))
    requires Within(FinalData(stream, chunk, choice, ctx), CODED_BOUND) && WellFormed(ctx.dict)
    ensures WellFormed(r.1.dict) && r.1.dict.enabled == ctx.dict.enabled
  {
    var data := FinalData(stream, chunk, choice, ctx);
    var codec := if choice.Core? then choice.codec else FIXED64_LE;
    var (bytes, dict) := EncodeInner(codec, data, ctx.dict);
    (Block(codec, |chunk|, choice.flags, bytes), Commit(stream, chunk, ctx.(dict := dict)))
  }

  function DecodeBlock(stream: Stream, b: Block, ctx: Ctx): (r: Result<(seq<int>, Ctx)>)
    requires WellFormed(ctx.dict)
    ensures r.Ok? ==> WellFormed(r.value.1.dict)
  {
    match DecodeInner(b.codec, b.payload, b.nItems, ctx.dict)
    case Err(e) => Err(e)
    case Ok((values, dict)) => Ok(Undelta(stream, b, values, ctx.(dict := dict)))
  }

  /** What decodeBlock does with the numbers a codec returned. */
  function Undelta(stream: Stream, b: Block, values: seq<int>, ctx: Ctx): (r: (seq<int>, Ctx))
    ensures r.1.dict == ctx.dict && |r.0| == |values|
  {
    if values == [] then ([], ctx)
    else
      match stream
      case TIME =>
        var c := DecodeTimes(values, OrZero(ctx.lastTimestamp), OrZero(ctx.lastTimestampDelta));
        (c.values, ctx.(lastTimestamp := Some(c.next), lastTimestampDelta := Some(c.nextDelta)))
      case VALUE =>
        if b.codec == FIXED64_LE && AbsoluteFlag(b.flags) then
          (values, ctx.(lastValue := Some(values[|values| - 1]), lastValueDelta := Some(0)))
        else
          var isDod := b.codec == DOD_VARINT || b.codec == RLE_DOD;
          var c := DecodeValues(values, OrZero(ctx.lastValue), OrZero(ctx.lastValueDelta), isDod);
          (c.values, ctx.(lastValue := Some(c.next), lastValueDelta := Some(c.nextDelta)))
      case _ => (values, ctx)
  }

  // ---- the encoder's numbers stay in range ---------------------------------

  /** Everything an encoder context holds came from bounded input; its last value delta is never set. */
  predicate Bounded(ctx: Ctx)
  {
    && -INPUT_BOUND <= OrZero(ctx.lastTimestamp) <= INPUT_BOUND
    && -2 * INPUT_BOUND <= OrZero(ctx.lastTimestampDelta) <= 2 * INPUT_BOUND
    && -INPUT_BOUND <= OrZero(ctx.lastValue) <= INPUT_BOUND
    && OrZero(ctx.lastValueDelta) == 0
  }

  lemma {:induction false} TimeDeltasBounded(ts: seq<int>, prev: int, prevDelta: int)
    requires Within(ts, INPUT_BOUND)
    requires -INPUT_BOUND <= prev <= INPUT_BOUND && -2 * INPUT_BOUND <= prevDelta <= 2 * INPUT_BOUND
    ensures var c := TimeDeltas(ts, prev, prevDelta);
            Within(c.values, CODED_BOUND) && -INPUT_BOUND <= c.next <= INPUT_BOUND
            && -2 * INPUT_BOUND <= c.nextDelta <= 2 * INPUT_BOUND
  {
    if ts != [] {
      TimeDeltasBounded(ts[1..], ts[0], ts[0] - prev);
    }
  }

  lemma {:induction false} ValueDeltasBounded(vs: seq<int>, prev: int, bound: int)
    requires Within(vs, bound) && -bound <= prev <= bound
    ensures Within(ValueDeltas(vs, prev), 2 * bound)
  {
    if vs != [] {
      ValueDeltasBounded(vs[1..], vs[0], bound);
    }
  }

  lemma BlockInRange(stream: Stream, chunk: seq<int>, choice: Choice, ctx: Ctx)
    requires Within(chunk, INPUT_BOUND) && Bounded(ctx)
    ensures Within(FinalData(stream, chunk, choice, ctx), CODED_BOUND)
    ensures stream == VALUE && !UsesDod(choice) ==> Within(FinalData(stream, chunk, choice, ctx), 2 * INPUT_BOUND)
    ensures Bounded(Commit(stream, chunk, ctx))
  {
    hide TimeDeltas, ValueDeltas;
    match stream {
      case TIME => TimeDeltasBounded(chunk, OrZero(ctx.lastTimestamp), OrZero(ctx.lastTimestampDelta));
      case VALUE =>
        ValueDeltasBounded(chunk, OrZero(ctx.lastValue), INPUT_BOUND);
        ValueDeltasBounded(ValueDeltas(chunk, OrZero(ctx.lastValue)), 0, 2 * INPUT_BOUND);
      case _ =>
    }
  }

  /** The numbers a codec hands to the varint writer. */
  function VarintNumbers(codec: Codec, data: seq<int>, d: Dict): seq<int>
    requires WellFormed(d)
  {
    match codec
    case VARINT_DELTA => data
    case DOD_VARINT => data
    case RLE_ZIGZAG => Varint.Runs(data)
    case RLE_DOD => Varint.Runs(data)
    case DICT_VARINT => DictCodes(data, d).0
    case _ => []
  }

  lemma {:induction false} DictCodesBounded(data: seq<int>, d: Dict, bound: nat)
    requires Within(data, bound) && Coherent(d) && bound >= 128
    ensures Within(DictCodes(data, d).0, 4 * bound)
  {
    hide Update;
    if data != [] {
      if data[0] in d.index {
        DictCodesBounded(data[1..], d, bound);
      } else {
        UpdateCoherent(d, data[0]);
        DictCodesBounded(data[1..], Update(d, data[0]), bound);
      }
    }
  }

  lemma {:induction false} RunsBounded(data: seq<int>, bound: nat)
    requires Within(data, bound) && bound >= 255
    ensures Within(Varint.Runs(data), bound)
    decreases |data|
  {
    if data != [] {
      RunsBounded(data[Varint.RunLength(data, 255)..], bound);
    }
  }

  /** Zigzagged once more, no number any tried codec writes exceeds 2^53: integers and doubles agree. */
  lemma NumbersAreSafe(stream: Stream, chunk: seq<int>, choice: Choice, ctx: Ctx)
    requires Within(chunk, INPUT_BOUND) && Bounded(ctx) && Coherent(ctx.dict)
    requires choice.Core? && Possible(stream, choice, ctx.dict.enabled)
    ensures var numbers := VarintNumbers(choice.codec, FinalData(stream, chunk, choice, ctx), ctx.dict);
            forall i :: 0 <= i < |numbers| ==> Varint.ZigZag(numbers[i]) <= 0x20_0000_0000_0000
  {
    hide InputData, FinalData, DictCodes, Varint.Runs, Bounded, Coherent;
    var data := FinalData(stream, chunk, choice, ctx);
    BlockInRange(stream, chunk, choice, ctx);
    match choice.codec {
      case RLE_ZIGZAG => RunsBounded(data, CODED_BOUND);
      case RLE_DOD => RunsBounded(data, CODED_BOUND);
      case DICT_VARINT =>
        DictInput(stream, chunk, choice, ctx);
        DictCodesBounded(data, ctx.dict, 2 * INPUT_BOUND);
      case _ =>
    }
  }

  /** The numbers a codec packs into bits, and the one FOR writes in front of them. */
  function PackedNumbers(codec: Codec, data: seq<int>): seq<nat>
  {
    match codec
    case BITPACK_DELTA => BitPack.ZigZags(data)
    case FOR_BITPACK =>
      if data == [] then []
      else
        var min := FrameOfReference.Least(data);
        [Varint.ZigZag(min)] + FrameOfReference.Residuals(data, min)
    case _ => []
  }

  /** Nor does any number the two bit-packing codecs handle. */
  lemma PackedAreSafe(stream: Stream, chunk: seq<int>, choice: Choice, ctx: Ctx)
    requires Within(chunk, INPUT_BOUND) && Bounded(ctx) && choice.Core?
    ensures var numbers := PackedNumbers(choice.codec, FinalData(stream, chunk, choice, ctx));
            forall i :: 0 <= i < |numbers| ==> numbers[i] <= 0x20_0000_0000_0000
  {
    BlockInRange(stream, chunk, choice, ctx);
    hide InputData, FinalData, Bounded;
    var data := FinalData(stream, chunk, choice, ctx);
    if choice.codec == FOR_BITPACK && data != [] {
      var min := FrameOfReference.Least(data);
      var k :| 0 <= k < |data| && data[k] == min;
      assert -CODED_BOUND <= data[k] <= CODED_BOUND;
    }
    hide FrameOfReference.Least;
  }

  /** The dictionary is tried on raw values and on plain deltas only. */
  lemma DictInput(stream: Stream, chunk: seq<int>, choice: Choice, ctx: Ctx)
    requires Within(chunk, INPUT_BOUND) && Bounded(ctx)
    requires choice.Core? && choice.codec == DICT_VARINT && Possible(stream, choice, ctx.dict.enabled)
    ensures Within(FinalData(stream, chunk, choice, ctx), 2 * INPUT_BOUND)
  {
    BlockInRange(stream, chunk, choice, ctx);
  }

  // ---- lockstep -----------------------------------------------------------

  /** Timestamps and dictionary in step. */
  predicate Agree(enc: Ctx, dec: Ctx)
  {
    enc.lastTimestamp == dec.lastTimestamp && enc.lastTimestampDelta == dec.lastTimestampDelta &&
    Coherent(enc.dict) && Synced(enc.dict, dec.dict)
  }

  /** What the decoder makes of the numbers of a VALUE block. */
  function DecodedValues(chunk: seq<int>, choice: Choice, enc: Ctx, dec: Ctx): (c: Coded)
    ensures |c.values| == |chunk|
  {
    DecodeValues(FinalData(VALUE, chunk, choice, enc), OrZero(dec.lastValue), OrZero(dec.lastValueDelta), UsesDod(choice))
  }

  /** The decoder's context after a block it decoded to `values`. */
  ghost predicate Advanced(stream: Stream, chunk: seq<int>, choice: Choice, enc: Ctx, dec: Ctx, r: (seq<int>, Ctx))
  {
    if stream == VALUE then
      var c := DecodedValues(chunk, choice, enc, dec);
      r.0 == c.values && OrZero(r.1.lastValue) == c.next && OrZero(r.1.lastValueDelta) == c.nextDelta
    else r.0 == chunk && r.1.lastValue == dec.lastValue && r.1.lastValueDelta == dec.lastValueDelta
  }

  /** After any block the two contexts agree again; a block outside VALUE is decoded exactly, and a VALUE
      block is decoded as its deltas say. */
  lemma BlockLockstep(stream: Stream, chunk: seq<int>, choice: Choice, enc: Ctx, dec: Ctx)
    requires chunk != [] && Within(chunk, INPUT_BOUND) && Bounded(enc) && Agree(enc, dec)
    requires !AbsoluteFlag(choice.flags)
    ensures Within(FinalData(stream, chunk, choice, enc), CODED_BOUND)
    ensures var (b, enc') := EncodeBlock(stream, chunk, choice, enc);
            var r := DecodeBlock(stream, b, dec);
            && r.Ok? && Bounded(enc') && Agree(enc', r.value.1)
            && Advanced(stream, chunk, choice, enc, dec, r.value)
  {
    hide EncodeInner, DecodeInner, Coherent, Synced, TimeDeltas, DecodeTimes, ValueDeltas, DecodeValues, Within, Dods;
    BlockInRange(stream, chunk, choice, enc);
    var data := FinalData(stream, chunk, choice, enc);
    var codec := if choice.Core? then choice.codec else FIXED64_LE;
    InnerLockstep(codec, data, enc.dict, dec.dict);
    if stream == TIME {
      TimeRoundTrip(chunk, OrZero(enc.lastTimestamp), OrZero(enc.lastTimestampDelta));
    }
  }

  /** A VALUE block is decoded exactly if and only if it is not DOD-coded on top of a carried delta. */
  lemma ValueBlockExact(chunk: seq<int>, choice: Choice, enc: Ctx, dec: Ctx)
    requires chunk != [] && Bounded(enc) && OrZero(enc.lastValue) == OrZero(dec.lastValue)
    ensures var prev, carried := OrZero(dec.lastValue), OrZero(dec.lastValueDelta);
            var c := DecodedValues(chunk, choice, enc, dec);
            && (c.values == chunk <==> (UsesDod(choice) ==> carried == 0))
            && (c.values == chunk ==> c == Coded(chunk, Last(chunk, prev), LastDelta(chunk, prev, 0)))
  {
    hide ValueDeltas, DecodeValues, Dods;
    var prev, carried := OrZero(dec.lastValue), OrZero(dec.lastValueDelta);
    if UsesDod(choice) {
      DodExact(chunk, prev, carried);
    } else {
      DeltaRoundTrip(chunk, prev, carried);
    }
  }

  // ---- one stream ---------------------------------------------------------

  /** A chunk of a stream together with what the encoder decided for it. */
  datatype Part = Part(chunk: seq<int>, choice: Choice)

  predicate PartsOk(stream: Stream, parts: seq<Part>, enabled: bool)
  {
    forall i :: 0 <= i < |parts| ==>
      parts[i].chunk != [] && Within(parts[i].chunk, INPUT_BOUND) && Possible(stream, parts[i].choice, enabled)
  }

  function Flat(parts: seq<Part>): seq<int>
  {
    if parts == [] then [] else parts[0].chunk + Flat(parts[1..])
  }

  function EncodeBlocks(stream: Stream, parts: seq<Part>, ctx: Ctx): (r: (seq<Block>, Ctx))
    requires PartsOk(stream, parts, ctx.dict.enabled) && Bounded(ctx) && WellFormed(ctx.dict)
    ensures Bounded(r.1) && WellFormed(r.1.dict) && r.1.dict.enabled == ctx.dict.enabled
    ensures |r.0| == |parts|
    decreases |parts|
  {
    if parts == [] then ([], ctx)
    else
      BlockInRange(stream, parts[0].chunk, parts[0].choice, ctx);
      var (b, ctx') := EncodeBlock(stream, parts[0].chunk, parts[0].choice, ctx);
      var (bs, ctx'') := EncodeBlocks(stream, parts[1..], ctx');
      ([b] + bs, ctx'')
  }

  function DecodeBlocks(stream: Stream, blocks: seq<Block>, ctx: Ctx): (r: Result<(seq<int>, Ctx)>)
    requires WellFormed(ctx.dict)
    ensures r.Ok? ==> WellFormed(r.value.1.dict)
    decreases |blocks|
  {
    if blocks == [] then Ok(([], ctx))
    else
      match DecodeBlock(stream, blocks[0], ctx)
      case Err(e) => Err(e)
      case Ok((vs, ctx')) =>
        match DecodeBlocks(stream, blocks[1..], ctx')
        case Err(e) => Err(e)
        case Ok((rest, ctx'')) => Ok((vs + rest, ctx''))
  }

  /** No DOD-coded block follows a block whose last step was non-zero. This reads the input values and
      the encoder's choices only. */
  predicate NoCarry(parts: seq<Part>, prev: int, carried: int)
    decreases |parts|
  {
    parts == [] ||
    ((UsesDod(parts[0].choice) ==> carried == 0) &&
     NoCarry(parts[1..], Last(parts[0].chunk, prev), LastDelta(parts[0].chunk, prev, 0)))
  }

  /** For any codecs and routes a stream outside VALUE is decoded exactly and the contexts agree after it. */
  lemma {:induction false} StreamLockstep(stream: Stream, parts: seq<Part>, enc: Ctx, dec: Ctx)
    requires stream != VALUE && PartsOk(stream, parts, enc.dict.enabled) && Bounded(enc) && Agree(enc, dec)
    ensures var (bs, enc') := EncodeBlocks(stream, parts, enc);
            var r := DecodeBlocks(stream, bs, dec);
            && r.Ok? && r.value.0 == Flat(parts) && Agree(enc', r.value.1)
            && r.value.1.lastValue == dec.lastValue && r.value.1.lastValueDelta == dec.lastValueDelta
            && enc'.lastValue == enc.lastValue
    decreases |parts|
  {
    hide Agree, Bounded, EncodeBlock, DecodeBlock, FinalData, Synced, Coherent, Within, Possible;
    if parts != [] {
      var p := parts[0];
      PartPossible(stream, parts, enc.dict.enabled);
      AgreeWellFormed(enc, dec);
      BlockLockstep(stream, p.chunk, p.choice, enc, dec);
      var (b, enc1) := EncodeBlock(stream, p.chunk, p.choice, enc);
      var dec1 := DecodeBlock(stream, b, dec).value.1;
      CommitKeepsValue(stream, p.chunk, p.choice, enc);
      StreamLockstep(stream, parts[1..], enc1, dec1);
      AgreeWellFormed(enc1, dec1);
      var bs := EncodeBlocks(stream, parts, enc).0;
      assert bs[0] == b && bs[1..] == EncodeBlocks(stream, parts[1..], enc1).0;
    }
  }

  lemma PartPossible(stream: Stream, parts: seq<Part>, enabled: bool)
    requires PartsOk(stream, parts, enabled) && parts != []
    ensures !AbsoluteFlag(parts[0].choice.flags) && parts[0].chunk != [] && Within(parts[0].chunk, INPUT_BOUND)
    ensures PartsOk(stream, parts[1..], enabled)
  {
  }

  lemma AgreeWellFormed(enc: Ctx, dec: Ctx)
    requires Agree(enc, dec)
    ensures WellFormed(enc.dict) && WellFormed(dec.dict)
  {
  }

  lemma CommitKeepsValue(stream: Stream, chunk: seq<int>, choice: Choice, ctx: Ctx)
    requires stream != VALUE && Within(FinalData(stream, chunk, choice, ctx), CODED_BOUND) && WellFormed(ctx.dict)
    ensures EncodeBlock(stream, chunk, choice, ctx).1.lastValue == ctx.lastValue
  {
  }

  /** Whatever the values become, a VALUE stream is always accepted, keeps its length and leaves the
      contexts in agreement. */
  lemma {:induction false} ValueStreamAccepted(parts: seq<Part>, enc: Ctx, dec: Ctx)
    requires PartsOk(VALUE, parts, enc.dict.enabled) && Bounded(enc) && Agree(enc, dec)
    ensures var (bs, enc') := EncodeBlocks(VALUE, parts, enc);
            var r := DecodeBlocks(VALUE, bs, dec);
            r.Ok? && |r.value.0| == |Flat(parts)| && Agree(enc', r.value.1)
    decreases |parts|
  {
    hide Agree, Bounded, EncodeBlock, DecodeBlock, FinalData, Synced, Coherent, Within, Possible, DecodedValues;
    if parts != [] {
      var p := parts[0];
      PartPossible(VALUE, parts, enc.dict.enabled);
      AgreeWellFormed(enc, dec);
      BlockLockstep(VALUE, p.chunk, p.choice, enc, dec);
      var (b, enc1) := EncodeBlock(VALUE, p.chunk, p.choice, enc);
      var dec1 := DecodeBlock(VALUE, b, dec).value.1;
      ValueStreamAccepted(parts[1..], enc1, dec1);
      AgreeWellFormed(enc1, dec1);
      var bs := EncodeBlocks(VALUE, parts, enc).0;
      assert bs[0] == b && bs[1..] == EncodeBlocks(VALUE, parts[1..], enc1).0;
    }
  }

  lemma CommitValue(chunk: seq<int>, choice: Choice, ctx: Ctx)
    requires Within(FinalData(VALUE, chunk, choice, ctx), CODED_BOUND) && WellFormed(ctx.dict)
    ensures OrZero(EncodeBlock(VALUE, chunk, choice, ctx).1.lastValue) == Last(chunk, OrZero(ctx.lastValue))
  {
  }

  /** The exact condition: a VALUE stream comes back if and only if no DOD block meets a carried delta. */
  lemma {:induction false} ValueStreamExact(parts: seq<Part>, enc: Ctx, dec: Ctx)
    requires PartsOk(VALUE, parts, enc.dict.enabled) && Bounded(enc) && Agree(enc, dec)
    requires OrZero(enc.lastValue) == OrZero(dec.lastValue)
    ensures var bs := EncodeBlocks(VALUE, parts, enc).0;
            var r := DecodeBlocks(VALUE, bs, dec);
            r.Ok? && (r.value.0 == Flat(parts)
                      <==> NoCarry(parts, OrZero(dec.lastValue), OrZero(dec.lastValueDelta)))
    decreases |parts|
  {
    hide Agree, Bounded, EncodeBlock, DecodeBlock, FinalData, Synced, Coherent, Within, Possible, DecodedValues;
    if parts != [] {
      var p := parts[0];
      PartPossible(VALUE, parts, enc.dict.enabled);
      AgreeWellFormed(enc, dec);
      BlockLockstep(VALUE, p.chunk, p.choice, enc, dec);
      var (b, enc1) := EncodeBlock(VALUE, p.chunk, p.choice, enc);
      var (vs, dec1) := DecodeBlock(VALUE, b, dec).value;
      ValueBlockExact(p.chunk, p.choice, enc, dec);
      CommitValue(p.chunk, p.choice, enc);
      AgreeWellFormed(enc1, dec1);
      var bs := EncodeBlocks(VALUE, parts, enc).0;
      assert bs[0] == b && bs[1..] == EncodeBlocks(VALUE, parts[1..], enc1).0;
      ValueStreamAccepted(parts[1..], enc1, dec1);
      var rest := DecodeBlocks(VALUE, bs[1..], dec1).value.0;
      assert Flat(parts)[..|p.chunk|] == p.chunk && Flat(parts)[|p.chunk|..] == Flat(parts[1..]);
      assert (vs + rest)[..|p.chunk|] == vs && (vs + rest)[|p.chunk|..] == rest;
      if vs == p.chunk {
        ValueStreamExact(parts[1..], enc1, dec1);
      }
    }
  }
}
