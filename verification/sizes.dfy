/** How large what the encoder writes can get: no field of an ordinary segment overflows. An ordinary segment holds
    at most a million snapshots and a million items, and is cut at blocks of 32 numbers or more. */
module Sizes {
  import opened Bytes
  import opened Context
  import FieldMath
  import opened Blocks
  import opened Snapshots
  import opened Layout
  import opened SegmentCodec
  import opened Container
  import opened GicsFile
  import opened Pipeline
  import opened Append
  import Varint
  import BitPack
  import Bits
  import FrameOfReference
  import Fixed64
  import Grouping
  import Metrics
  import Sections
  import SegmentIndex

  const MILLION: nat := 1_000_000

  // ---- numbers ------------------------------------------------------------

  lemma {:induction false} VarintAtMost(n: nat, k: nat)
    requires k >= 1 && n < Pow2(7 * k)
    ensures |Varint.VarintBytes(n)| <= k
  {
    if n >= 128 {
      assert k >= 2 by {
        if k == 1 {
          Pow2Seven();
          assert false;
        }
      }
      Pow2Add(7, 7 * (k - 1));
      Pow2Seven();
      assert n / 128 < Pow2(7 * (k - 1));
      VarintAtMost(n / 128, k - 1);
    }
  }

  lemma Pow2Seven()
    ensures Pow2(7) == 128
  {
    Pow2Small();
    assert Pow2(7) == 2 * Pow2(6);
  }

  const SAFE: nat := 0x20_0000_0000_0000   // 2^53

  lemma SafeVarint(n: nat)
    requires n <= SAFE
    ensures |Varint.VarintBytes(n)| <= 8
  {
    Pow2Values();
    Pow2Monotone(54, 56);
    hide Pow2;
    VarintAtMost(n, 8);
  }

  predicate AllSafe(values: seq<int>)
  {
    forall i :: 0 <= i < |values| ==> Varint.ZigZag(values[i]) <= SAFE
  }

  lemma {:induction false} SafeVarints(values: seq<int>)
    requires AllSafe(values)
    ensures |Varint.VarintSeq(values)| <= 8 * |values|
  {
    hide Varint.ZigZag;
    if values != [] {
      SafeVarint(Varint.ZigZag(values[0]));
      SafeVarints(values[1..]);
    }
  }

  lemma {:induction false} RunsAtMost(values: seq<int>)
    ensures |Varint.Runs(values)| <= 2 * |values|
    decreases |values|
  {
    hide Varint.RunLength;
    if values != [] {
      RunsAtMost(values[Varint.RunLength(values, 255)..]);
    }
  }

  lemma BitPackAtMost(data: seq<int>)
    requires BitPack.Packable(data)
    ensures |BitPack.BitPackBytes(data)| <= 7 * |data| + 2
  {
    hide Bits.FlatBits, Bits.Pack, BitPack.Width;
    if data != [] {
      var us := BitPack.ZigZags(data);
      BitPack.WidthFits(data);
      var w := BitPack.Width(us);
      Bits.FlatBitsLength(us, w);
      Scale(w, 54, |data|);
      assert |data| * w == w * |data|;
    }
  }

  lemma ForAtMost(data: seq<int>)
    requires FrameOfReference.InRange(data)
    requires data != [] ==> Varint.ZigZag(FrameOfReference.Least(data)) <= SAFE
    ensures |FrameOfReference.ForBytes(data)| <= 7 * |data| + 10
  {
    hide Bits.FlatBits, Bits.Pack, FrameOfReference.WidthOf, FrameOfReference.Least, FrameOfReference.InRange;
    if data != [] {
      FrameOfReference.WidthFits(data);
      var min, w := FrameOfReference.Least(data), FrameOfReference.WidthOf(data);
      SafeVarint(Varint.ZigZag(min));
      var us := FrameOfReference.Residuals(data, min);
      Bits.FlatBitsLength(us, w);
      Scale(w, 53, |data|);
      assert |data| * w == w * |data|;
    }
  }

  lemma {:induction false} FixedAtMost(data: seq<int>)
    requires Fixed64.AllSafe(data)
    ensures |Fixed64.Fixed64Bytes(data)| == 8 * |data|
  {
    hide Fixed64.Pattern, Fixed64.ToDouble, ToLE;
    if data != [] {
      FixedAtMost(data[1..]);
    }
  }

  // ---- blocks -------------------------------------------------------------

  lemma InnerAtMost(codec: Codec, data: seq<int>, d: Dict)
    requires Within(data, CODED_BOUND) && WellFormed(d) && AllSafe(VarintNumbers(codec, data, d))
    ensures |EncodeInner(codec, data, d).0| <= 16 * |data| + 10
  {
    CodedIsEncodable(data);
    hide AllSafe, Within, WellFormed, DictCodes, Varint.VarintSeq, Varint.Runs, BitPack.BitPackBytes, FrameOfReference.ForBytes,
         Fixed64.Fixed64Bytes;
    match codec {
      case BITPACK_DELTA => BitPackAtMost(data);
      case FOR_BITPACK =>
        if data != [] {
          LeastSafe(data);
        }
        ForAtMost(data);
      case FIXED64_LE => FixedAtMost(data);
      case RLE_ZIGZAG =>
        RunsAtMost(data);
        SafeVarints(Varint.Runs(data));
      case RLE_DOD =>
        RunsAtMost(data);
        SafeVarints(Varint.Runs(data));
      case DICT_VARINT => SafeVarints(DictCodes(data, d).0);
      case VARINT_DELTA => SafeVarints(data);
      case DOD_VARINT => SafeVarints(data);
    }
  }

  lemma LeastSafe(data: seq<int>)
    requires Within(data, CODED_BOUND) && data != []
    ensures Varint.ZigZag(FrameOfReference.Least(data)) <= SAFE
  {
    var min := FrameOfReference.Least(data);
    var k :| 0 <= k < |data| && data[k] == min;
    assert -CODED_BOUND <= data[k] <= CODED_BOUND;
    hide FrameOfReference.Least;
  }

  lemma StaysCoherent(codec: Codec, data: seq<int>, d: Dict)
    requires Within(data, CODED_BOUND) && Coherent(d)
    ensures Coherent(EncodeInner(codec, data, d).1)
  {
    InnerLockstep(codec, data, d, d.(enabled := true));
    hide EncodeInner, DecodeInner, Within;
  }

  lemma BlockAtMost(stream: Stream, chunk: seq<int>, choice: Choice, ctx: Ctx)
    requires Within(chunk, INPUT_BOUND) && Bounded(ctx) && Coherent(ctx.dict) && Possible(stream, choice, ctx.dict.enabled)
    ensures Within(FinalData(stream, chunk, choice, ctx), CODED_BOUND)
    ensures var (b, next) := EncodeBlock(stream, chunk, choice, ctx);
            |b.payload| <= 16 * |chunk| + 10 && b.nItems == |chunk| && Coherent(next.dict) && Bounded(next)
  {
    BlockInRange(stream, chunk, choice, ctx);
    BlockKeepsBounds(stream, chunk, choice, ctx);
    var data := FinalData(stream, chunk, choice, ctx);
    var codec := if choice.Core? then choice.codec else FIXED64_LE;
    StaysCoherent(codec, data, ctx.dict);
    if choice.Core? {
      NumbersAreSafe(stream, chunk, choice, ctx);
    }
    hide EncodeInner, Within, FinalData, Coherent, Possible, Bounded, Varint.ZigZag;
    InnerAtMost(codec, data, ctx.dict);
  }

  // ---- one stream ---------------------------------------------------------

  /** No more than the fields and the decoder allow. */
  predicate Small(bs: seq<Block>)
  {
    && |bs| <= 62_501 && |Payloads(bs)| <= 17_000_000
    && forall i :: 0 <= i < |bs| ==> bs[i].nItems <= MILLION && |bs[i].payload| <= 17_000_000
  }

  lemma {:induction false} BlocksAtMost(stream: Stream, parts: seq<Part>, ctx: Ctx)
    requires PartsOk(stream, parts, ctx.dict.enabled) && Bounded(ctx) && Coherent(ctx.dict)
    ensures WellFormed(ctx.dict)
    ensures var (bs, end) := EncodeBlocks(stream, parts, ctx);
            && Bounded(end) && Coherent(end.dict) && |bs| == |parts|
            && |Payloads(bs)| <= 16 * |Flat(parts)| + 10 * |parts|
            && forall i :: 0 <= i < |bs| ==> bs[i].nItems <= |Flat(parts)| && |bs[i].payload| <= 16 * |Flat(parts)| + 10
    decreases |parts|
  {
    CoherentIsFine(ctx.dict);
    if parts == [] {
      EncodeNone(stream, ctx);
    } else {
      hide EncodeBlock, EncodeBlocks, FinalData, Bounded, WellFormed, Coherent, PartsOk, Within;
      PartsHead(stream, parts, ctx.dict.enabled);
      BlockAtMost(stream, parts[0].chunk, parts[0].choice, ctx);
      EncodeHead(stream, parts, ctx);
      var (b, next) := EncodeBlock(stream, parts[0].chunk, parts[0].choice, ctx);
      BlocksAtMost(stream, parts[1..], next);
      var (bs, _) := EncodeBlocks(stream, parts, ctx);
      var rest := EncodeBlocks(stream, parts[1..], next).0;
      assert bs == [b] + rest;
      assert Payloads(bs) == b.payload + Payloads(rest) by {
        assert bs[1..] == rest;
      }
      assert |Flat(parts)| == |parts[0].chunk| + |Flat(parts[1..])|;
      forall i | 0 <= i < |bs|
        ensures bs[i].nItems <= |Flat(parts)| && |bs[i].payload| <= 16 * |Flat(parts)| + 10
      {
        if i > 0 {
          assert bs[i] == rest[i - 1];
        }
      }
    }
  }

  lemma CoherentIsFine(d: Dict)
    requires Coherent(d)
    ensures WellFormed(d)
  {
  }

  lemma PartsHead(stream: Stream, parts: seq<Part>, enabled: bool)
    requires PartsOk(stream, parts, enabled) && parts != []
    ensures Within(parts[0].chunk, INPUT_BOUND) && Possible(stream, parts[0].choice, enabled)
    ensures PartsOk(stream, parts[1..], enabled)
  {
    hide Within, Possible;
  }

  /** All blocks but the last are full. */
  lemma {:induction false} CutCount(parts: seq<Part>, size: nat)
    requires CutAt(parts, size) && parts != []
    ensures (|parts| - 1) * size < |Flat(parts)|
  {
    if |parts| == 1 {
      assert parts[1..] == [];
    } else {
      assert forall i :: 0 <= i < |parts| - 1 ==> parts[1..][i] == parts[i + 1];
      CutCount(parts[1..], size);
      assert (|parts| - 1) * size == (|parts| - 2) * size + size;
    }
  }

  lemma FewBlocks(parts: seq<Part>, size: nat)
    requires CutAt(parts, size) && size >= 16 && |Flat(parts)| <= MILLION
    ensures |parts| <= 62_501
  {
    hide CutAt, Flat;
    if parts != [] {
      CutCount(parts, size);
      assert (|parts| - 1) * 16 <= (|parts| - 1) * size by {
        Scale(16, size, |parts| - 1);
        assert 16 * (|parts| - 1) == (|parts| - 1) * 16 && size * (|parts| - 1) == (|parts| - 1) * size;
      }
    }
  }

  lemma StreamSmall(stream: Stream, parts: seq<Part>, size: nat, ctx: Ctx)
    requires PartsOk(stream, parts, ctx.dict.enabled) && Bounded(ctx) && Coherent(ctx.dict)
    requires CutAt(parts, size) && size >= 16 && |Flat(parts)| <= MILLION
    ensures WellFormed(ctx.dict)
    ensures var (bs, end) := EncodeBlocks(stream, parts, ctx);
            Bounded(end) && Coherent(end.dict) && end.dict.enabled == ctx.dict.enabled && Small(bs)
  {
    hide CutAt, Flat, EncodeBlocks, Bounded, Coherent, PartsOk, Payloads;
    CoherentIsFine(ctx.dict);
    BlocksAtMost(stream, parts, ctx);
    FewBlocks(parts, size);
  }

  // ---- all streams --------------------------------------------------------

  predicate AllSmall(sections: seq<Section>)
  {
    |sections| <= 5 && forall i :: 0 <= i < |sections| ==> Small(sections[i].blocks)
  }

  lemma KeepSmall(stream: Stream, bs: seq<Block>, rest: seq<Section>)
    requires Small(bs) && |rest| <= 4 && AllSmall(rest)
    ensures AllSmall(Keep(stream, bs) + rest) && |Keep(stream, bs) + rest| <= |rest| + 1
  {
    hide Small;
  }

  ghost predicate ColumnsOrdinary(c: Columns)
  {
    |c.times| <= MILLION && |c.lengths| <= MILLION && |c.ids| <= MILLION && |c.prices| <= MILLION && |c.quantities| <= MILLION
  }

  lemma PlanSmall(p: Plan, f: Features, on: bool, blockSize: nat)
    requires PlanFits(p, f.columns, on) && blockSize >= 32 && CutLike(p, f, blockSize) && ColumnsOrdinary(f.columns)
    ensures AllSmall(EncodePlan(p, on))
  {
    hide CutAt, Flat, EncodeBlocks, Bounded, Coherent, PartsOk, Small, AllSmall, Keep, WellFormed;
    AlignedAtLeast(f, blockSize);
    FreshIsFine(on);
    FreshCoherent(on);
    var c0 := FreshCtx(on);
    var aligned := ItemBlockSize(f, blockSize);
    StreamSmall(TIME, p.time, blockSize, c0);
    var (time, c1) := EncodeBlocks(TIME, p.time, c0);
    StreamSmall(SNAPSHOT_LEN, p.lengths, blockSize, c1);
    var (lengths, c2) := EncodeBlocks(SNAPSHOT_LEN, p.lengths, c1);
    StreamSmall(ITEM_ID, p.ids, aligned, c2);
    var (ids, c3) := EncodeBlocks(ITEM_ID, p.ids, c2);
    StreamSmall(VALUE, p.values, aligned, c3);
    var (values, c4) := EncodeBlocks(VALUE, p.values, c3);
    StreamSmall(QUANTITY, p.quantities, aligned, c4);
    var (quantities, _) := EncodeBlocks(QUANTITY, p.quantities, c4);
    FiveSmall(time, lengths, ids, values, quantities);
  }

  lemma FreshCoherent(on: bool)
    ensures Coherent(FreshCtx(on).dict) && FreshCtx(on).dict.enabled == on
  {
  }

  lemma FiveSmall(time: seq<Block>, lengths: seq<Block>, ids: seq<Block>, values: seq<Block>, quantities: seq<Block>)
    requires Small(time) && Small(lengths) && Small(ids) && Small(values) && Small(quantities)
    ensures AllSmall(Keep(TIME, time) + (Keep(SNAPSHOT_LEN, lengths) + (Keep(ITEM_ID, ids)
                     + (Keep(VALUE, values) + (Keep(QUANTITY, quantities) + [])))))
  {
    hide Small, Keep;
    KeepSmall(QUANTITY, quantities, []);
    var one := Keep(QUANTITY, quantities) + [];
    KeepSmall(VALUE, values, one);
    var two := Keep(VALUE, values) + one;
    KeepSmall(ITEM_ID, ids, two);
    var three := Keep(ITEM_ID, ids) + two;
    KeepSmall(SNAPSHOT_LEN, lengths, three);
    KeepSmall(TIME, time, Keep(SNAPSHOT_LEN, lengths) + three);
  }

  lemma AlignedAtLeast(f: Features, blockSize: nat)
    requires blockSize >= 32
    ensures ItemBlockSize(f, blockSize) >= 16
  {
    if f.itemMajor && f.columns.lengths != [] {
      AlignedWhole(blockSize, |f.columns.lengths|);
    }
    hide ItemAligned;
  }

  // ---- the segment --------------------------------------------------------

  /** Compression and sealing do not blow data up: both at most double it, give or take a thousand bytes. */
  ghost predicate Compact(env: Env)
  {
    && (forall x :: |env.compress(x)| <= 2 * |x| + 1000)
    && (forall o, s, x :: |env.seal(o, s, x).0| <= |x| + 1000)
  }

  lemma {:induction false} ManifestAt(bs: seq<Block>, i: nat)
    requires i < |bs|
    ensures Manifest(bs)[i] == Sections.Entry(CodecId(bs[i].codec), bs[i].nItems, |bs[i].payload|, bs[i].flags)
  {
    if i > 0 {
      ManifestAt(bs[1..], i - 1);
      assert Manifest(bs)[i] == Manifest(bs[1..])[i - 1];
    }
  }

  lemma ManifestOk(bs: seq<Block>)
    requires Small(bs)
    ensures forall i :: 0 <= i < |bs| ==> Sections.EntryOk(Manifest(bs)[i])
  {
    hide Payloads, Manifest;
    forall i | 0 <= i < |bs|
      ensures Sections.EntryOk(Manifest(bs)[i])
    {
      ManifestAt(bs, i);
    }
  }

  const SECTION_MOST: nat := 36_000_000

  lemma WrapSmall(env: Env, ordinal: nat, s: Section, chain: seq<byte>)
    requires EnvOk(env) && Compact(env) && Small(s.blocks)
    ensures var raw := Wrap(env, ordinal, s, chain);
            Sections.SectionOk(raw, env.encrypted) && |Sections.SectionBytes(raw)| <= SECTION_MOST
  {
    ManifestOk(s.blocks);
    hide Small, Manifest, Sections.ManifestBytes, ToLE, Sections.EntryOk, Sections.HashInput;
    SmallParts(s.blocks);
    var raw := Wrap(env, ordinal, s, chain);
    assert |raw.payload| <= 2 * |Payloads(s.blocks)| + 2000;
    hide Payloads;
  }

  lemma SmallParts(bs: seq<Block>)
    requires Small(bs)
    ensures |bs| <= 62_501 && |Payloads(bs)| <= 17_000_000
  {
  }

  lemma {:induction false} WrapAllSmall(env: Env, ordinal: nat, ss: seq<Section>, chain: seq<byte>)
    requires EnvOk(env) && Compact(env) && forall i :: 0 <= i < |ss| ==> Small(ss[i].blocks)
    ensures var raws := WrapAll(env, ordinal, ss, chain).0;
            && (forall i :: 0 <= i < |raws| ==> Sections.SectionOk(raws[i], env.encrypted))
            && |Sections.SectionsBytes(raws)| <= SECTION_MOST * |raws|
    decreases |ss|
  {
    hide Small, Wrap, Sections.SectionOk, Sections.SectionBytes, EnvOk, Compact;
    if ss != [] {
      var raw := Wrap(env, ordinal, ss[0], chain);
      WrapSmall(env, ordinal, ss[0], chain);
      assert forall i :: 0 <= i < |ss| - 1 ==> ss[1..][i] == ss[i + 1];
      WrapAllSmall(env, ordinal, ss[1..], raw.hash);
      var raws, rest := WrapAll(env, ordinal, ss, chain).0, WrapAll(env, ordinal, ss[1..], raw.hash).0;
      assert raws == [raw] + rest && raws[1..] == rest;
      forall i | 0 <= i < |raws|
        ensures Sections.SectionOk(raws[i], env.encrypted)
      {
        assert i > 0 ==> raws[i] == rest[i - 1];
      }
    }
  }

  lemma IndexSmall(itemIds: seq<int>)
    requires Within(itemIds, INPUT_BOUND) && |itemIds| <= MILLION
    ensures var ix := SegmentIndex.MakeIndex(itemIds);
            SegmentIndex.IndexOk(ix) && |SegmentIndex.EncodeIndex(ix)| <= 9_000_000
  {
    Metrics.UniqueAtMost(itemIds);
    var ix := SegmentIndex.MakeIndex(itemIds);
    assert |ix.ids| == |set x | x in itemIds|;
    assert Within(ix.ids, INPUT_BOUND) by {
      forall i | 0 <= i < |ix.ids|
        ensures -INPUT_BOUND <= ix.ids[i] <= INPUT_BOUND
      {
        assert ix.ids[i] in itemIds;
      }
    }
    hide SegmentIndex.MakeIndex;
    ValueDeltasBounded(ix.ids, 0, INPUT_BOUND);
    var deltas := FieldMath.ValueDeltas(ix.ids, 0);
    DeltasSafe(deltas);
    SafeVarints(deltas);
    hide ToLE, Varint.VarintSeq, FieldMath.ValueDeltas, AllSafe, Within;
  }

  lemma DeltasSafe(deltas: seq<int>)
    requires Within(deltas, 2 * INPUT_BOUND)
    ensures AllSafe(deltas)
  {
  }

  /** An ordinary segment, coded in whatever way the encoder may code it, fits the format. */
  lemma SegmentFits(env: Env, on: bool, blockSize: nat, c: Coded, ordinal: nat, chain: seq<byte>)
    requires EnvOk(env) && Compact(env) && blockSize >= 32 && |chain| == 32
    requires CodedOk(c, on) && CutLike(c.plan, Collect(c.snaps), blockSize)
    requires ColumnsOrdinary(Collect(c.snaps).columns) && Within(Collect(c.snaps).columns.ids, INPUT_BOUND)
    ensures Fits(env, on, c, ordinal, chain)
  {
    hide EnvOk, Compact, CutLike, ColumnsOrdinary, EncodePlan, Collect, PlanFits, WrapAll, SegmentIndex.MakeIndex,
         SegmentIndex.EncodeIndex, Sections.SectionsBytes, Sections.SectionOk, Within, SegmentIndex.IndexOk;
    var f := Collect(c.snaps);
    PlanSmall(c.plan, f, on, blockSize);
    var e := EncodedOf(c, on);
    AllSmallParts(e.sections);
    WrapAllSmall(env, ordinal, e.sections, chain);
    OrdinaryIds(f.columns);
    IndexSmall(f.columns.ids);
    BytesSmall(env, ordinal, e, IndexFor(c), chain);
  }

  lemma OrdinaryIds(c: Columns)
    requires ColumnsOrdinary(c)
    ensures |c.ids| <= MILLION
  {
  }

  lemma AllSmallParts(sections: seq<Section>)
    requires AllSmall(sections)
    ensures |sections| <= 5
    ensures forall i :: 0 <= i < |sections| ==> Small(sections[i].blocks) && |Payloads(sections[i].blocks)| <= MAX_ALLOCATION
  {
    hide Payloads;
  }

  lemma BytesSmall(env: Env, ordinal: nat, e: Encoded, ix: SegmentIndex.Index, chain: seq<byte>)
    requires EnvOk(env) && |e.sections| <= 5 && |SegmentIndex.EncodeIndex(ix)| <= 9_000_000 && |chain| == 32
    requires forall i :: 0 <= i < |e.sections| ==> |Payloads(e.sections[i].blocks)| <= MAX_ALLOCATION
    requires |Sections.SectionsBytes(WrapAll(env, ordinal, e.sections, chain).0)| <= SECTION_MOST * |e.sections|
    ensures |SegmentBytes(env, ordinal, e, ix, chain)| < 0x1_0000_0000
  {
    WrapAllBack(env, ordinal, e.sections, chain);
    hide WrapAll, Sections.SectionsBytes, SegmentIndex.EncodeIndex, ToLE, UnwrapAll, FollowChain, HeaderBytes;
  }

  // ---- groups and buffers -------------------------------------------------

  /** Every number within 2^49, and no more than a million items. */
  predicate OrdinarySnapshot(s: Snapshot)
  {
    && -INPUT_BOUND <= s.timestamp <= INPUT_BOUND && |s.items| <= MILLION
    && forall id :: id in s.items ==>
         && -INPUT_BOUND <= id <= INPUT_BOUND && -INPUT_BOUND <= s.items[id].price <= INPUT_BOUND
         && -INPUT_BOUND <= s.items[id].quantity <= INPUT_BOUND
  }

  predicate AllOrdinary(snapshots: seq<Snapshot>)
  {
    forall i :: 0 <= i < |snapshots| ==> OrdinarySnapshot(snapshots[i])
  }

  lemma ItemsBounded(s: Snapshot)
    requires OrdinarySnapshot(s)
    ensures Within(Ids(s), INPUT_BOUND) && Within(Prices(s), INPUT_BOUND) && Within(Quantities(s), INPUT_BOUND)
    ensures |Ids(s)| == |s.items| == |Prices(s)| == |Quantities(s)|
  {
    assert |s.items.Keys| == |s.items|;
    assert forall i :: 0 <= i < |Ids(s)| ==> Ids(s)[i] in s.items;
    hide Sorted;
  }

  lemma {:induction false} ItemsCons(s: Snapshot, rest: seq<Snapshot>)
    ensures Grouping.Items([s] + rest) == |s.items| + Grouping.Items(rest)
  {
    if rest == [] {
      assert ([s] + rest)[..0] == [] && ([s] + rest)[0] == s;
    } else {
      var n := |rest| - 1;
      assert ([s] + rest)[..n + 1] == [s] + rest[..n];
      ItemsCons(s, rest[..n]);
    }
  }

  lemma WithinAppend(a: seq<int>, b: seq<int>, bound: int)
    requires Within(a, bound) && Within(b, bound)
    ensures Within(a + b, bound)
  {
  }

  lemma {:induction false} FlattenOrdinary(group: seq<Snapshot>)
    requires AllOrdinary(group)
    ensures var c := Flatten(group);
            && InBounds(c) && |c.times| == |c.lengths| == |group|
            && |c.ids| == |c.prices| == |c.quantities| == Grouping.Items(group)
  {
    if group != [] {
      var s, rest := group[0], group[1..];
      assert group == [s] + rest;
      ItemsCons(s, rest);
      FlattenOrdinary(rest);
      ItemsBounded(s);
      var c := Flatten(rest);
      hide Ids, Prices, Quantities, Within, Grouping.Items;
      WithinOne(s.timestamp);
      WithinOne(|Ids(s)|);
      WithinAppend([s.timestamp], c.times, INPUT_BOUND);
      WithinAppend([|Ids(s)|], c.lengths, INPUT_BOUND);
      WithinAppend(Ids(s), c.ids, INPUT_BOUND);
      WithinAppend(Prices(s), c.prices, INPUT_BOUND);
      WithinAppend(Quantities(s), c.quantities, INPUT_BOUND);
    }
  }

  lemma WithinOne(x: int)
    requires -INPUT_BOUND <= x <= INPUT_BOUND
    ensures Within([x], INPUT_BOUND)
  {
  }

  lemma TransposeWithin(data: seq<int>, rows: nat, cols: nat, bound: int)
    requires |data| == rows * cols && Within(data, bound)
    ensures Within(Transpose(data, rows, cols), bound)
  {
    forall k | 0 <= k < |data|
      ensures -bound <= Transpose(data, rows, cols)[k] <= bound
    {
      Quotient(k, rows, cols);
      InRange(k % rows, k / rows, rows, cols);
    }
  }

  lemma CollectOrdinary(group: seq<Snapshot>)
    requires AllOrdinary(group) && |group| <= MILLION && Grouping.Items(group) <= MILLION
    ensures InBounds(Collect(group).columns) && ColumnsOrdinary(Collect(group).columns)
  {
    hide Flatten, Transpose, Grouping.Items, OrdinarySnapshot, Within;
    FlattenOrdinary(group);
    FlattenConsistent(group);
    var c := Flatten(group);
    if Stable(c) {
      var rows, cols := |c.lengths|, c.lengths[0];
      TransposeWithin(c.ids, rows, cols, INPUT_BOUND);
      TransposeWithin(c.prices, rows, cols, INPUT_BOUND);
      TransposeWithin(c.quantities, rows, cols, INPUT_BOUND);
    }
  }

  lemma OrdinaryGroupFits(env: Env, on: bool, blockSize: nat, group: seq<Snapshot>)
    requires EnvOk(env) && Compact(env) && blockSize >= 32
    requires AllOrdinary(group) && |group| <= MILLION && Grouping.Items(group) <= MILLION
    ensures GroupFits(env, on, blockSize, group)
  {
    hide EnvOk, Compact, AllOrdinary, Grouping.Items, Collect, CodedOk, CutLike, Fits, ColumnsOrdinary, Within;
    CollectOrdinary(group);
    forall c: Coded, n: nat, chain: seq<byte> | CutFrom(c, on, blockSize, group) && |chain| == 32
      ensures Fits(env, on, c, n, chain)
    {
      SegmentFits(env, on, blockSize, c, n, chain);
    }
  }

  /** A group is a stretch of the buffer. */
  lemma {:induction false} GroupInside(groups: seq<seq<Snapshot>>, i: nat)
    requires i < |groups|
    ensures |groups[i]| <= |Grouping.Concat(groups)|
    ensures forall s :: s in groups[i] ==> s in Grouping.Concat(groups)
  {
    var n := |groups| - 1;
    if i < n {
      GroupInside(groups[..n], i);
      assert groups[..n][i] == groups[i];
    }
  }

  lemma OneItems(s: Snapshot)
    ensures Grouping.Items([s]) == |s.items|
  {
    assert [s][..0] == [];
  }

  /** Whatever an ordinary buffer holds, the encoder can flush it: at a block size of 32 or more, with at most a
      million items to a segment, and a million snapshots of at most a million items each in the buffer. */
  lemma OrdinaryBufferFits(env: Env, on: bool, config: Config, snapshots: seq<Snapshot>)
    requires EnvOk(env) && Compact(env) && ConfigOk(config)
    requires config.blockSize >= 32 && config.grouping.maxItemsPerSegment <= MILLION
    requires AllOrdinary(snapshots) && |snapshots| <= MILLION
    ensures BufferFits(env, on, config, snapshots)
  {
    hide EnvOk, Compact, Grouping.Items, Grouping.Concat, Grouping.Groups, GroupFits, OrdinarySnapshot;
    var groups := Grouping.Groups(snapshots, config.grouping);
    Grouping.GroupsExact(snapshots, config.grouping);
    forall i | 0 <= i < |groups|
      ensures GroupFits(env, on, config.blockSize, groups[i])
    {
      GroupInside(groups, i);
      var g := groups[i];
      assert Grouping.GroupOk(g, config.grouping.maxItemsPerSegment);
      forall k | 0 <= k < |g|
        ensures OrdinarySnapshot(g[k])
      {
        assert g[k] in snapshots;
      }
      if |g| == 1 {
        assert g == [g[0]];
        OneItems(g[0]);
        OneOrdinary(g[0]);
      }
      OrdinaryGroupFits(env, on, config.blockSize, g);
    }
  }

  lemma OneOrdinary(s: Snapshot)
    requires OrdinarySnapshot(s)
    ensures |s.items| <= MILLION
  {
  }

  // ---- a file too wide ----------------------------------------------------

  /** The encoder as it comes. */
  function DefaultConfig(): Config { Config(Grouping.Options(1_048_576, 256, 1024, MILLION), 1000, 4) }

  lemma WideOrdinary(n: nat)
    requires n <= MILLION
    ensures AllOrdinary(Wide(n))
  {
    hide UpTo;
  }

  lemma WideGroups(n: nat)
    requires 2 <= n <= 500_000
    ensures Grouping.Groups(Wide(n), DefaultConfig().grouping) == [Wide(n)]
  {
    var snaps, options := Wide(n), DefaultConfig().grouping;
    hide Wide, UpTo;
    assert Grouping.Stable(snaps) && |snaps[0].items| == n by {
      assert |snaps[0].items| == |snaps[0].items.Keys|;
    }
    assert Grouping.TargetDepth(n, options) >= 2 by {
      assert 2 <= MILLION / n;
    }
    hide Grouping.Stable, Grouping.TargetDepth;
  }

  lemma WideIsTooWide(n: nat, c: Coded)
    requires n > 0x1_0000 && n % 0x1_0000 != 0 && c.snaps == Wide(n)
    ensures TooWide(c)
  {
    hide Collect, UpTo, Wide;
    assert c.snaps == [c.snaps[0], c.snaps[1]];
    TwoAlike(c.snaps[0], c.snaps[1]);
  }

  /** A run of the encoder as it comes, on two snapshots of the same n items: what it seals passes verification and
      never decodes. */
  method SealWide(env: Env, on: bool, n: nat) returns (file: seq<byte>)
    requires EnvOk(env) && Compact(env) && 0x1_0000 < n <= 500_000 && n % 0x1_0000 != 0
    ensures VerifyFile(env, file) && DecodeFile(env, file).Err?
  {
    hide *;
    var config, snaps := DefaultConfig(), Wide(n);
    NothingSealed(env, on);
    var encoder := new GICSv2Encoder.OpenFile(env, on, config, [], []);
    encoder.AddSnapshot(snaps[0]);
    encoder.AddSnapshot(snaps[1]);
    assert encoder.snapshots == snaps;
    WideFits(env, on, n);
    WideGroups(n);
    ghost var coded := encoder.Seal();
    assert encoder.log == coded;
    OneGroup(coded, snaps);
    WideIsTooWide(n, coded[0]);
    VerifiedMayNotDecode(env, on, coded);
    file := encoder.file;
  }

  lemma NothingSealed(env: Env, on: bool)
    ensures LogOk(env, on, [], 0, Genesis()) && PriorFile(env, on, []) == []
    ensures PrepareForAppend(env, []).Ok? && ConfigOk(DefaultConfig())
  {
    PrepareNew(env);
  }

  lemma WideFits(env: Env, on: bool, n: nat)
    requires EnvOk(env) && Compact(env) && n <= 500_000
    ensures ConfigOk(DefaultConfig()) && BufferFits(env, on, DefaultConfig(), Wide(n))
  {
    hide EnvOk, Compact, AllOrdinary, BufferFits, UpTo;
    WideOrdinary(n);
    OrdinaryBufferFits(env, on, DefaultConfig(), Wide(n));
  }

  lemma OneGroup(coded: seq<Coded>, snaps: seq<Snapshot>)
    requires SameGroups(coded, [snaps])
    ensures |coded| == 1 && coded[0].snaps == snaps
  {
  }
}
