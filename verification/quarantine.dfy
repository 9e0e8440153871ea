/** Quarantine over the blocks the encoder really makes (processStreamBlock in src/gics/encode.ts with
    src/gics/chm.ts): when it can end, and a run after which it never does. */
module Quarantine {
  import opened Bytes
  import opened Context
  import opened FieldMath
  import opened Blocks
  import opened Drivers
  import opened Metrics
  import Varint
  import BitPack
  import Bits
  import FrameOfReference
  import Fixed64
  import Health

  /** A chunk and the coding context it meets: segments start afresh, the monitor goes on. */
  datatype Fed = Fed(ctx: Ctx, chunk: seq<int>)

  predicate FedOk(stream: Stream, f: Fed)
  {
    && (stream == TIME || stream == VALUE)
    && Bounded(f.ctx) && WellFormed(f.ctx.dict) && f.chunk != [] && Within(f.chunk, INPUT_BOUND)
  }

  predicate AllOk(stream: Stream, feds: seq<Fed>)
  {
    forall i :: 0 <= i < |feds| ==> FedOk(stream, feds[i])
  }

  function Tried(stream: Stream, f: Fed): Codec
    requires FedOk(stream, f)
  {
    BestCodec(Candidates(stream, f.ctx.dict.enabled), stream, f.chunk, f.ctx)
  }

  function TriedSize(stream: Stream, f: Fed): nat
    requires FedOk(stream, f)
  {
    CoreSize(stream, f.chunk, Tried(stream, f), f.ctx)
  }

  /** What the monitor is told of the block. */
  function Report(stream: Stream, interval: int, m: Health.Monitor, f: Fed): Health.Block
    requires FedOk(stream, f)
  {
    var size := TriedSize(stream, f);
    var route := Health.Decide(m, interval, Reported(f.chunk, size, 0), m.totalBlocks + 1);
    Reported(f.chunk, size, if route == Health.Quarantine then 8 * |f.chunk| else size)
  }

  /** The reports of a run of blocks through one monitor. */
  function Reports(stream: Stream, interval: int, feds: seq<Fed>): (rs: seq<Health.Block>)
    requires AllOk(stream, feds)
    ensures |rs| == |feds|
  {
    if feds == [] then []
    else
      var front := Reports(stream, interval, feds[..|feds| - 1]);
      front + [Report(stream, interval, Health.RunAll(interval, front).m, feds[|feds| - 1])]
  }

  function Monitored(stream: Stream, interval: int, feds: seq<Fed>): Health.Monitor
    requires AllOk(stream, feds)
  {
    Health.RunAll(interval, Reports(stream, interval, feds)).m
  }

  /** It is the report the block driver makes. */
  lemma DriverReports(stream: Stream, interval: int, m: Health.Monitor, f: Fed)
    requires FedOk(stream, f)
    ensures var report := Report(stream, interval, m, f);
            var route := Health.Decide(m, interval, report, m.totalBlocks + 1);
            var choice := Routed(route, Tried(stream, f), Health.Flags(m.mode, route));
            && Within(FinalData(stream, f.chunk, choice, f.ctx), CODED_BOUND)
            && report == Reported(f.chunk, TriedSize(stream, f), |EncodeBlock(stream, f.chunk, choice, f.ctx).0.payload|)
  {
    hide EncodeInner, Within, BestCodec, Bounded, Health.Decide, Health.Flags, UniqueRatio, Steps, InputData;
    var size := TriedSize(stream, f);
    var report := Report(stream, interval, m, f);
    var route := Health.Decide(m, interval, Reported(f.chunk, size, 0), m.totalBlocks + 1);
    WrittenIsNotProbed(m, interval, f.chunk, size, report.payloadOut, m.totalBlocks + 1);
    var choice := Routed(route, Tried(stream, f), Health.Flags(m.mode, route));
    BlockInRange(stream, f.chunk, choice, f.ctx);
    QuarantineSize(stream, f.chunk, choice, f.ctx);
  }

  lemma ReportsSnoc(stream: Stream, interval: int, feds: seq<Fed>, f: Fed)
    requires AllOk(stream, feds) && FedOk(stream, f)
    ensures AllOk(stream, feds + [f])
    ensures Reports(stream, interval, feds + [f])
         == Reports(stream, interval, feds) + [Report(stream, interval, Monitored(stream, interval, feds), f)]
  {
    hide FedOk, Report;
    assert (feds + [f])[..|feds|] == feds;
  }

  /** Quarantined blocks are written byte for byte. */
  lemma {:induction false} ReportsFixed(stream: Stream, interval: int, feds: seq<Fed>)
    requires AllOk(stream, feds)
    ensures Health.FixedWhenQuarantined(interval, Reports(stream, interval, feds))
  {
    hide *;
    if feds == [] {
      NothingFixed(stream, interval);
    } else {
      var front, f := feds[..|feds| - 1], feds[|feds| - 1];
      assert feds == front + [f];
      OkFront(stream, front, [f]);
      OneOk(stream, f);
      MonitoredStep(stream, interval, front, f);
      ReportsFixed(stream, interval, front);
      ReportsSnoc(stream, interval, front, f);
      var m := Monitored(stream, interval, front);
      ReportFixed(stream, interval, m, f);
      Health.FixedSnoc(interval, Reports(stream, interval, front), Report(stream, interval, m, f));
    }
  }

  lemma NothingFixed(stream: Stream, interval: int)
    ensures Health.FixedWhenQuarantined(interval, Reports(stream, interval, []))
  {
  }

  lemma ReportFixed(stream: Stream, interval: int, m: Health.Monitor, f: Fed)
    requires FedOk(stream, f)
    ensures var b := Report(stream, interval, m, f);
            && b == Reported(f.chunk, TriedSize(stream, f), b.payloadOut)
            && (Health.Decide(m, interval, b, m.totalBlocks + 1) == Health.Quarantine ==> Health.Plain(b))
  {
    hide CoreSize, BestCodec, Health.Decide, UniqueRatio, Steps;
    var size := TriedSize(stream, f);
    WrittenIsNotProbed(m, interval, f.chunk, size, Report(stream, interval, m, f).payloadOut, m.totalBlocks + 1);
  }

  // ---- when a quarantine can end ------------------------------------------

  /** Eight equal values. */
  function Flat8(v: int): (chunk: seq<int>)
    ensures |chunk| == 8 && forall i :: 0 <= i < 8 ==> chunk[i] == v
  {
    [v, v, v, v, v, v, v, v]
  }

  /** Whatever the chunk and the context, eight values never take more than 55 bytes. */
  lemma EightAtMost(stream: Stream, f: Fed)
    requires FedOk(stream, f) && |f.chunk| == 8
    ensures TriedSize(stream, f) <= 55
  {
    hide EncodeInner, BestCodec, CoreSize, Candidates, Bounded, Within, WellFormed;
    var candidates := Candidates(stream, f.ctx.dict.enabled);
    BitPackTried(stream, f.ctx.dict.enabled);
    BestIsSelected(candidates, stream, f.chunk, Tried(stream, f), f.ctx);
    PackedAtMost(stream, f);
  }

  lemma BitPackTried(stream: Stream, enabled: bool)
    requires stream == TIME || stream == VALUE
    ensures BITPACK_DELTA in Candidates(stream, enabled)
  {
    assert Candidates(stream, enabled)[2] == BITPACK_DELTA;
  }

  lemma PackedAtMost(stream: Stream, f: Fed)
    requires FedOk(stream, f) && |f.chunk| == 8
    ensures CoreSize(stream, f.chunk, BITPACK_DELTA, f.ctx) <= 55
  {
    hide InputData, Bounded, BitPack.Width, Bits.FlatBits, Bits.Pack;
    var data := FinalData(stream, f.chunk, Core(BITPACK_DELTA, 0), f.ctx);
    BlockInRange(stream, f.chunk, Core(BITPACK_DELTA, 0), f.ctx);
    CodedIsEncodable(data);
    var us := BitPack.ZigZags(data);
    BitPack.WidthFits(data);
    Bits.FlatBitsLength(us, BitPack.Width(us));
  }

  lemma FlatReport(v: int, size: nat, written: nat)
    requires size <= 55
    ensures var b := Reported(Flat8(v), size, written);
            !Health.EntropyGate(b) && b.probeRatio >= 1.0 && b.payloadIn == 64 && b.payloadOut == written
  {
    assert (set x | x in Flat8(v)) == {v};
    assert UniqueRatio(Flat8(v)) == 0.125;
    hide UniqueRatio, Steps, Flat8;
    assert 64.0 / (if size == 0 then 1 else size) as real >= 1.0;
  }

  /** A block of eight equal values is neither near-random nor ever larger than it came in. */
  lemma FlatProbes(stream: Stream, interval: int, m: Health.Monitor, f: Fed)
    requires FedOk(stream, f) && f.chunk == Flat8(f.chunk[0])
    ensures var b := Report(stream, interval, m, f);
            !Health.EntropyGate(b) && b.probeRatio >= 1.0 && b.payloadIn == 64
  {
    hide *;
    EightAtMost(stream, f);
    ReportFixed(stream, interval, m, f);
    FlatReport(f.chunk[0], TriedSize(stream, f), Report(stream, interval, m, f).payloadOut);
  }

  lemma Still(stream: Stream, on: bool)
    requires stream == TIME || stream == VALUE
    ensures FedOk(stream, Fed(FreshCtx(on), Flat8(0)))
  {
  }

  /** Good probes still missing. */
  function Missing(m: Health.Monitor): nat { if m.recoveryCounter > 3 then 0 else 3 - m.recoveryCounter }

  lemma ProbeNearer(total: nat, interval: int)
    requires interval != 0
    ensures Health.Width(interval) > 0
    ensures !Health.Probes(total + 1, interval)
        ==> Health.ToProbe(total + 1, Health.Width(interval)) < Health.ToProbe(total, Health.Width(interval))
  {
    Health.NextRemainder(total + 1, Health.Width(interval));
  }

  /** Equal values end a quarantine whose threshold is at most 1. */
  lemma {:induction false} Recovers(stream: Stream, interval: int, feds: seq<Fed>, f: Fed) returns (more: seq<Fed>)
    requires AllOk(stream, feds) && FedOk(stream, f) && f.chunk == Flat8(f.chunk[0]) && interval != 0
    requires Monitored(stream, interval, feds).mode == Health.QuarantineActive
    requires Health.RecoveryThreshold(Monitored(stream, interval, feds)) <= 1.0
    ensures AllOk(stream, feds + more) && Monitored(stream, interval, feds + more).mode == Health.Normal
    decreases Missing(Monitored(stream, interval, feds)),
              Health.ToProbe(Monitored(stream, interval, feds).totalBlocks, Health.Width(interval))
  {
    hide FedOk, Report, Reports, Health.RunAll, Health.RecoveryThreshold, Health.Decide, Health.EntropyGate, Flat8,
         Health.ToProbe, Health.Probes, Health.Width, AllOk, Health.Ratio, Health.Plain;
    var b := RecoverStep(stream, interval, feds, f);
    ReportsSnoc(stream, interval, feds, f);
    if Monitored(stream, interval, feds + [f]).mode == Health.Normal {
      more := [f];
    } else {
      var rest := Recovers(stream, interval, feds + [f], f);
      more := [f] + rest;
      assert feds + more == feds + [f] + rest;
    }
  }

  lemma MissingCounts(m: Health.Monitor)
    ensures Missing(m) == if m.recoveryCounter > 3 then 0 else 3 - m.recoveryCounter
    ensures m.recoveryCounter + 1 >= Health.RECOVERY_BLOCKS <==> m.recoveryCounter >= 2
  {
  }

  lemma MonitoredStep(stream: Stream, interval: int, feds: seq<Fed>, f: Fed)
    requires AllOk(stream, feds) && FedOk(stream, f)
    ensures AllOk(stream, feds + [f])
    ensures var rs := Reports(stream, interval, feds);
            var m := Monitored(stream, interval, feds);
            && m == Health.RunAll(interval, rs).m
            && Monitored(stream, interval, feds + [f]) == Health.RunAll(interval, rs + [Report(stream, interval, m, f)]).m
  {
    hide FedOk, Report, Reports, Health.RunAll, AllOk;
    ReportsSnoc(stream, interval, feds, f);
  }

  /** One block of equal values ends the quarantine or brings its end nearer. */
  lemma RecoverStep(stream: Stream, interval: int, feds: seq<Fed>, f: Fed) returns (b: Health.Block)
    requires AllOk(stream, feds) && FedOk(stream, f) && f.chunk == Flat8(f.chunk[0]) && interval != 0
    requires Monitored(stream, interval, feds).mode == Health.QuarantineActive
    requires Health.RecoveryThreshold(Monitored(stream, interval, feds)) <= 1.0
    ensures AllOk(stream, feds + [f])
    ensures var m, n := Monitored(stream, interval, feds), Monitored(stream, interval, feds + [f]);
            var w := Health.Width(interval);
            && w > 0
            && (n.mode == Health.Normal
                || (n.mode == Health.QuarantineActive && Health.RecoveryThreshold(n) <= 1.0
                    && (Missing(n) < Missing(m)
                        || (Missing(n) == Missing(m) && Health.ToProbe(n.totalBlocks, w) < Health.ToProbe(m.totalBlocks, w)))))
  {
    hide *;
    var rs, m := Reports(stream, interval, feds), Monitored(stream, interval, feds);
    b := Report(stream, interval, m, f);
    MonitoredStep(stream, interval, feds, f);
    MissingCounts(m);
    MissingCounts(Monitored(stream, interval, feds + [f]));
    Health.QuarantineStep(interval, rs, b);
    FlatProbes(stream, interval, m, f);
    ReportFixed(stream, interval, m, f);
    Health.PlainRatio(b);
    ProbeNearer(m.totalBlocks, interval);
  }

  lemma OkFront(stream: Stream, a: seq<Fed>, b: seq<Fed>)
    requires AllOk(stream, a + b)
    ensures AllOk(stream, a) && AllOk(stream, b)
  {
    hide FedOk;
    assert forall i :: 0 <= i < |a| ==> a[i] == (a + b)[i];
    assert forall i :: 0 <= i < |b| ==> b[i] == (a + b)[|a| + i];
  }

  lemma {:induction false} ReportsFront(stream: Stream, interval: int, feds: seq<Fed>, more: seq<Fed>)
    requires AllOk(stream, feds + more) && AllOk(stream, feds)
    ensures Reports(stream, interval, feds + more)
         == Reports(stream, interval, feds) + Reports(stream, interval, feds + more)[|feds|..]
  {
    hide *;
    if more == [] {
      assert feds + more == feds;
      assert Reports(stream, interval, feds)[|feds|..] == [];
    } else {
      var front, f := more[..|more| - 1], more[|more| - 1];
      var all := feds + front;
      assert feds + more == all + [f];
      OkFront(stream, all, [f]);
      OneOk(stream, f);
      ReportsFront(stream, interval, feds, front);
      ReportsSnoc(stream, interval, all, f);
      Rest(Reports(stream, interval, feds), Reports(stream, interval, all),
           Report(stream, interval, Monitored(stream, interval, all), f));
    }
  }

  lemma OneOk(stream: Stream, f: Fed)
    requires AllOk(stream, [f])
    ensures FedOk(stream, f)
  {
    hide FedOk;
    assert [f][0] == f;
  }

  lemma Rest<T>(a: seq<T>, b: seq<T>, x: T)
    requires |a| <= |b| && b == a + b[|a|..]
    ensures b + [x] == a + (b + [x])[|a|..]
  {
  }

  /** A quarantine can end if and only if blocks are probed at all and its threshold, the frozen baseline less ten
      deviations, is at most 1, which is what blocks written byte for byte score. Otherwise no input ends it. */
  lemma QuarantineEnds(stream: Stream, interval: int, feds: seq<Fed>)
    requires (stream == TIME || stream == VALUE) && AllOk(stream, feds)
    requires Monitored(stream, interval, feds).mode == Health.QuarantineActive
    ensures (exists more :: AllOk(stream, feds + more) && Monitored(stream, interval, feds + more).mode == Health.Normal)
       <==> interval != 0 && Health.RecoveryThreshold(Monitored(stream, interval, feds)) <= 1.0
  {
    hide FedOk, Reports, Health.RunAll, Health.RecoveryThreshold, AllOk, Flat8;
    if interval != 0 && Health.RecoveryThreshold(Monitored(stream, interval, feds)) <= 1.0 {
      Still(stream, true);
      var more := Recovers(stream, interval, feds, Fed(FreshCtx(true), Flat8(0)));
    } else {
      forall more | AllOk(stream, feds + more)
        ensures Monitored(stream, interval, feds + more).mode == Health.QuarantineActive
      {
        StaysQuarantined(stream, interval, feds, more);
      }
    }
  }

  lemma StaysQuarantined(stream: Stream, interval: int, feds: seq<Fed>, more: seq<Fed>)
    requires AllOk(stream, feds) && AllOk(stream, feds + more)
    requires Monitored(stream, interval, feds).mode == Health.QuarantineActive
    requires interval == 0 || Health.RecoveryThreshold(Monitored(stream, interval, feds)) > 1.0
    ensures Monitored(stream, interval, feds + more).mode == Health.QuarantineActive
  {
    hide FedOk, Reports, Health.RunAll, Health.RecoveryThreshold, AllOk;
    var rs := Reports(stream, interval, feds);
    ReportsFront(stream, interval, feds, more);
    ReportsFixed(stream, interval, feds + more);
    var rest := Reports(stream, interval, feds + more)[|feds|..];
    if interval == 0 {
      Health.NeverProbed(interval, rs, rest);
    } else {
      Health.NeverEnds(interval, rs, rest);
    }
  }

  // ---- a quarantine without end -------------------------------------------

  /** Eight zeros behind a zero, and eight ones behind a zero, as deltas. */
  const LEVEL: seq<int> := [0, 0, 0, 0, 0, 0, 0, 0]
  const RISE: seq<int> := [1, 0, 0, 0, 0, 0, 0, 0]

  /** A price that stands at zero. */
  predicate AtZero(f: Fed)
  {
    FedOk(VALUE, f) && OrZero(f.ctx.lastValue) == 0
  }

  lemma {:induction false} ConstantDeltas(xs: seq<int>, v: int)
    requires forall i :: 0 <= i < |xs| ==> xs[i] == v
    ensures forall i :: 0 <= i < |xs| ==> ValueDeltas(xs, v)[i] == 0
  {
    if xs != [] {
      ConstantDeltas(xs[1..], v);
      assert ValueDeltas(xs, v) == [0] + ValueDeltas(xs[1..], v);
    }
  }

  lemma ChunkDeltas(f: Fed)
    requires AtZero(f)
    ensures f.chunk == Flat8(0) ==> InputData(VALUE, f.chunk, f.ctx) == LEVEL
    ensures f.chunk == Flat8(1) ==> InputData(VALUE, f.chunk, f.ctx) == RISE
  {
    LevelDeltas();
    RiseDeltas();
    hide Bounded, Within, ValueDeltas, Flat8;
  }

  lemma LevelDeltas()
    ensures ValueDeltas(Flat8(0), 0) == LEVEL
  {
    ConstantDeltas(Flat8(0), 0);
    hide ValueDeltas, Flat8;
  }

  lemma RiseDeltas()
    ensures ValueDeltas(Flat8(1), 0) == RISE
  {
    var rest := Flat8(1)[1..];
    ConstantDeltas(rest, 1);
    assert ValueDeltas(Flat8(1), 0) == [1] + ValueDeltas(rest, 1);
    hide ValueDeltas, Flat8;
  }

  /** However it is coded, a chunk of eight takes two bytes; and three when it is not level. */
  lemma AtLeastTwo(codec: Codec, data: seq<int>, d: Dict)
    requires |data| == 8 && Within(data, CODED_BOUND) && WellFormed(d)
    ensures |EncodeInner(codec, data, d).0| >= 2
  {
    CodedIsEncodable(data);
    match codec {
      case BITPACK_DELTA => BitPackAtLeast(data, 1);
      case FOR_BITPACK =>
      case FIXED64_LE => FixedEight(data);
      case RLE_ZIGZAG => VarintSeqAtLeast(Varint.Runs(data));
      case RLE_DOD => VarintSeqAtLeast(Varint.Runs(data));
      case DICT_VARINT => VarintSeqAtLeast(DictCodes(data, d).0);
      case VARINT_DELTA => VarintSeqAtLeast(data);
      case DOD_VARINT => VarintSeqAtLeast(data);
    }
  }

  lemma FixedEight(data: seq<int>)
    requires |data| == 8 && Within(data, CODED_BOUND)
    ensures Fixed64.AllSafe(data) && |Fixed64.Fixed64Bytes(data)| == 64
  {
    CodedIsEncodable(data);
  }

  lemma BitPackAtLeast(data: seq<int>, w: nat)
    requires |data| == 8 && BitPack.Packable(data) && BitPack.Width(BitPack.ZigZags(data)) >= w
    ensures |BitPack.BitPackBytes(data)| >= 1 + w
  {
    hide Bits.FlatBits, Bits.Pack, BitPack.Width;
    var us := BitPack.ZigZags(data);
    BitPack.WidthFits(data);
    Bits.FlatBitsLength(us, BitPack.Width(us));
  }

  lemma AtLeastThree(codec: Codec, data: seq<int>, d: Dict)
    requires |data| == 8 && Within(data, CODED_BOUND) && WellFormed(d) && data[0] == 1 && data[1] != 1
    ensures |EncodeInner(codec, data, d).0| >= 3
  {
    CodedIsEncodable(data);
    match codec {
      case BITPACK_DELTA =>
        BitPack.WidthFits(data);
        assert BitPack.ZigZags(data)[0] == 2;
        WidthAtLeast(2, BitPack.Width(BitPack.ZigZags(data)));
        BitPackAtLeast(data, 2);
      case FOR_BITPACK => ForAtLeast(data);
      case FIXED64_LE => FixedEight(data);
      case RLE_ZIGZAG => TwoRuns(data);
      case RLE_DOD => TwoRuns(data);
      case DICT_VARINT => VarintSeqAtLeast(DictCodes(data, d).0);
      case VARINT_DELTA => VarintSeqAtLeast(data);
      case DOD_VARINT => VarintSeqAtLeast(data);
    }
  }

  lemma WidthAtLeast(n: nat, w: nat)
    requires n < Pow2(w)
    ensures n >= 1 ==> w >= 1
    ensures n >= 2 ==> w >= 2
  {
    Pow2Small();
  }

  lemma TwoRuns(data: seq<int>)
    requires |data| == 8 && data[1] != data[0]
    ensures |Varint.RleBytes(data)| >= 3
  {
    hide Varint.VarintSeq;
    RunsTail(data, 1);
    assert data[1..] != [];
    assert |Varint.Runs(data[1..])| >= 2;
    VarintSeqAtLeast(Varint.Runs(data));
  }

  lemma ForAtLeast(data: seq<int>)
    requires |data| == 8 && FrameOfReference.InRange(data) && data[0] != data[1]
    ensures |FrameOfReference.ForBytes(data)| >= 3
  {
    hide Bits.FlatBits, Bits.Pack, FrameOfReference.WidthOf, FrameOfReference.Least, FrameOfReference.InRange;
    var min, w := FrameOfReference.Least(data), FrameOfReference.WidthOf(data);
    FrameOfReference.WidthFits(data);
    assert min <= data[0] && min <= data[1];
    assert data[0] - min < Pow2(w) && data[1] - min < Pow2(w);
    WidthAtLeast(if data[0] > min then data[0] - min else data[1] - min, w);
    var us := FrameOfReference.Residuals(data, min);
    Bits.FlatBitsLength(us, w);
  }

  lemma LevelPacked()
    ensures FrameOfReference.InRange(LEVEL) && |FrameOfReference.ForBytes(LEVEL)| == 2
  {
    LevelWidth();
    hide FrameOfReference.Least, FrameOfReference.WidthOf;
    assert FrameOfReference.Least(LEVEL) in LEVEL;
  }

  lemma LevelWidth()
    ensures FrameOfReference.WidthOf(LEVEL) == 0
  {
    hide FrameOfReference.Least, FrameOfReference.Greatest;
    var us := FrameOfReference.Residuals(LEVEL, FrameOfReference.Least(LEVEL));
    assert FrameOfReference.Least(LEVEL) in LEVEL;
    assert forall u :: u in us ==> u == 0;
    assert FrameOfReference.Greatest(us) == 0;
  }

  lemma RiseData(f: Fed, codec: Codec)
    requires AtZero(f) && f.chunk == Flat8(1)
    ensures var data := FinalData(VALUE, f.chunk, Core(codec, 0), f.ctx);
            |data| == 8 && Within(data, CODED_BOUND) && data[0] == 1 && data[1] != 1
  {
    ChunkDeltas(f);
    BlockInRange(VALUE, f.chunk, Core(codec, 0), f.ctx);
    hide InputData, Flat8, Within;
    assert RISE[1..][0] == 0;
  }

  lemma RiseTried(f: Fed)
    requires AtZero(f) && f.chunk == Flat8(1)
    ensures TriedSize(VALUE, f) >= 3
  {
    var codec := Tried(VALUE, f);
    RiseData(f, codec);
    hide BestCodec, Candidates, FinalData, EncodeInner, Flat8, Bounded, Within;
    AtLeastThree(codec, FinalData(VALUE, f.chunk, Core(codec, 0), f.ctx), f.ctx.dict);
  }

  lemma ForInner(data: seq<int>, d: Dict)
    requires Within(data, CODED_BOUND) && WellFormed(d)
    ensures FrameOfReference.InRange(data) && EncodeInner(FOR_BITPACK, data, d).0 == FrameOfReference.ForBytes(data)
  {
    CodedIsEncodable(data);
  }

  lemma LevelData(f: Fed)
    requires AtZero(f) && f.chunk == Flat8(0)
    ensures FinalData(VALUE, f.chunk, Core(FOR_BITPACK, 0), f.ctx) == LEVEL && Within(LEVEL, CODED_BOUND)
    ensures WellFormed(f.ctx.dict)
  {
    ChunkDeltas(f);
    hide InputData, Flat8, Bounded;
  }

  lemma LevelFor(f: Fed)
    requires AtZero(f) && f.chunk == Flat8(0)
    ensures CoreSize(VALUE, f.chunk, FOR_BITPACK, f.ctx) == 2
  {
    LevelData(f);
    LevelPacked();
    ForInner(LEVEL, f.ctx.dict);
    hide FrameOfReference.ForBytes, FrameOfReference.InRange, FinalData, EncodeInner, Flat8, AtZero, Within, WellFormed;
  }

  lemma TriedAtLeastTwo(f: Fed)
    requires AtZero(f) && |f.chunk| == 8
    ensures TriedSize(VALUE, f) >= 2
  {
    var tried := Tried(VALUE, f);
    BlockInRange(VALUE, f.chunk, Core(tried, 0), f.ctx);
    hide BestCodec, Candidates, FinalData, EncodeInner, Bounded, Within, InputData;
    AtLeastTwo(tried, FinalData(VALUE, f.chunk, Core(tried, 0), f.ctx), f.ctx.dict);
  }

  lemma ForTried(enabled: bool)
    ensures FOR_BITPACK in Candidates(VALUE, enabled)
  {
    assert Candidates(VALUE, enabled)[1] == FOR_BITPACK;
  }

  lemma LevelTried(f: Fed)
    requires AtZero(f) && f.chunk == Flat8(0)
    ensures TriedSize(VALUE, f) == 2
  {
    hide EncodeInner, BestCodec, CoreSize, Candidates, Bounded, Within, WellFormed, Flat8;
    var candidates := Candidates(VALUE, f.ctx.dict.enabled);
    ForTried(f.ctx.dict.enabled);
    LevelFor(f);
    TriedAtLeastTwo(f);
    BestIsSelected(candidates, VALUE, f.chunk, Tried(VALUE, f), f.ctx);
  }

  lemma ConstantRatio(xs: seq<int>, v: int)
    requires xs != [] && forall i :: 0 <= i < |xs| ==> xs[i] == v
    ensures UniqueRatio(xs) == 1.0 / |xs| as real
  {
    assert xs[0] == v;
    assert (set x | x in xs) == {v};
  }

  lemma FlatReported(v: int, size: nat, written: nat)
    requires size > 0
    ensures Reported(Flat8(v), size, written) == Health.Block(0.125, 1.0 / 7.0, 64.0 / size as real, 64, written, 0)
  {
    ConstantRatio(Flat8(v), v);
    ConstantDeltas(Flat8(v)[1..], v);
    ConstantRatio(Steps(Flat8(v)), 0);
    hide UniqueRatio, Steps, Flat8, ValueDeltas;
  }

  /** The monitor after some blocks that compress 32-fold. */
  predicate Trained(m: Health.Monitor, blocks: nat, dev: real)
  {
    m.mode == Health.Normal && m.totalBlocks == blocks
    && m.baselineRatio == 32.0 && m.baselineDev == dev && m.baselineUnique == 0.125
  }

  lemma ReportIs(interval: int, m: Health.Monitor, f: Fed)
    requires FedOk(VALUE, f)
    ensures var size := TriedSize(VALUE, f);
            var route := Health.Decide(m, interval, Reported(f.chunk, size, 0), m.totalBlocks + 1);
            Report(VALUE, interval, m, f)
              == Reported(f.chunk, size, if route == Health.Quarantine then 8 * |f.chunk| else size)
  {
    hide TriedSize, FedOk, Health.Decide, Reported;
  }

  lemma LevelReport(interval: int, m: Health.Monitor, f: Fed)
    requires AtZero(f) && f.chunk == Flat8(0)
    requires Health.Decide(m, interval, Health.Block(0.125, 1.0 / 7.0, 32.0, 64, 0, 0), m.totalBlocks + 1) == Health.Core
    ensures FedOk(VALUE, f) && Report(VALUE, interval, m, f) == Health.Block(0.125, 1.0 / 7.0, 32.0, 64, 2, 0)
  {
    hide *;
    AtZeroOk(f);
    LevelTried(f);
    ReportIs(interval, m, f);
    FlatReported(0, 2, 0);
    FlatReported(0, 2, 2);
  }

  lemma RiseReport(interval: int, m: Health.Monitor, f: Fed)
    requires AtZero(f) && f.chunk == Flat8(1)
    ensures FedOk(VALUE, f)
    ensures var b := Report(VALUE, interval, m, f);
            b.uniqueRatio == 0.125 && b.probeRatio <= 64.0 / 3.0
  {
    hide *;
    AtZeroOk(f);
    RiseTried(f);
    ReportIs(interval, m, f);
    var size := TriedSize(VALUE, f);
    FlatReported(1, size, Report(VALUE, interval, m, f).payloadOut);
    FlatReported(1, size, 8 * |f.chunk|);
    FlatReported(1, size, size);
    assert 64.0 / size as real <= 64.0 / 3.0;
  }

  lemma LevelFirst(interval: int)
    ensures var m, b := Health.NewMonitor(), Health.Block(0.125, 1.0 / 7.0, 32.0, 64, 2, 0);
            && Health.Decide(m, interval, b.(payloadOut := 0), 1) == Health.Decide(m, interval, b, 1) == Health.Core
            && Trained(Health.Update(m, interval, Health.Core, b, 1), 1, 3.2)
  {
  }

  lemma LevelSecond(interval: int, m: Health.Monitor)
    requires Trained(m, 1, 3.2)
    ensures var b := Health.Block(0.125, 1.0 / 7.0, 32.0, 64, 2, 0);
            && Health.Decide(m, interval, b.(payloadOut := 0), 2) == Health.Decide(m, interval, b, 2) == Health.Core
            && Trained(Health.Update(m, interval, Health.Core, b, 2), 2, 2.88)
  {
  }

  lemma RiseLast(interval: int, m: Health.Monitor, b: Health.Block)
    requires Trained(m, 2, 2.88) && b.uniqueRatio == 0.125 && b.probeRatio <= 64.0 / 3.0
    ensures var r := Health.Decide(m, interval, b, 3);
            var n := Health.Update(m, interval, r, b, 3);
            r == Health.Quarantine && n.mode == Health.QuarantineActive && Health.RecoveryThreshold(n) > 1.0
  {
  }

  /** A price stands at zero for two blocks of eight, which compress 32-fold, and at one for a third, which
      does a little worse. The third is quarantined, and so is every block after it, whatever it holds. */
  lemma EndlessQuarantine(interval: int, level: Fed, again: Fed, rise: Fed, more: seq<Fed>)
    requires AtZero(level) && AtZero(again) && AtZero(rise) && AllOk(VALUE, more)
    requires level.chunk == again.chunk == Flat8(0) && rise.chunk == Flat8(1)
    ensures AllOk(VALUE, [level, again, rise] + more)
    ensures Monitored(VALUE, interval, [level, again, rise] + more).mode == Health.QuarantineActive
  {
    hide *;
    AtZeroOk(level);
    AtZeroOk(again);
    AtZeroOk(rise);
    var run := [level, again, rise];
    EndlessStart(interval, level, again, rise);
    JoinOk(VALUE, run, more);
    StaysQuarantined(VALUE, interval, run, more);
  }

  lemma AtZeroOk(f: Fed)
    requires AtZero(f)
    ensures FedOk(VALUE, f)
  {
  }

  lemma JoinOk(stream: Stream, a: seq<Fed>, b: seq<Fed>)
    requires AllOk(stream, a) && AllOk(stream, b)
    ensures AllOk(stream, a + b)
  {
    hide FedOk;
  }

  lemma EndlessStart(interval: int, level: Fed, again: Fed, rise: Fed)
    requires AtZero(level) && AtZero(again) && AtZero(rise)
    requires level.chunk == again.chunk == Flat8(0) && rise.chunk == Flat8(1)
    ensures AllOk(VALUE, [level, again, rise])
    ensures var m := Monitored(VALUE, interval, [level, again, rise]);
            m.mode == Health.QuarantineActive && Health.RecoveryThreshold(m) > 1.0
  {
    hide *;
    AtZeroOk(level);
    AtZeroOk(again);
    AtZeroOk(rise);
    NothingSeen(interval);
    assert [] + [level] == [level] && [level] + [again] == [level, again] && [level, again] + [rise] == [level, again, rise];
    LevelFirst(interval);
    MonitoredNext(interval, [], level);
    LevelReport(interval, Health.NewMonitor(), level);
    var one := Monitored(VALUE, interval, [level]);
    TrainedCount(one, 1, 3.2);
    LevelSecond(interval, one);
    MonitoredNext(interval, [level], again);
    LevelReport(interval, one, again);
    var two := Monitored(VALUE, interval, [level, again]);
    TrainedCount(two, 2, 2.88);
    MonitoredNext(interval, [level, again], rise);
    RiseReport(interval, two, rise);
    RiseLast(interval, two, Report(VALUE, interval, two, rise));
  }

  lemma TrainedCount(m: Health.Monitor, blocks: nat, dev: real)
    requires Trained(m, blocks, dev)
    ensures m.totalBlocks == blocks
  {
  }

  lemma NothingSeen(interval: int)
    ensures AllOk(VALUE, []) && Monitored(VALUE, interval, []) == Health.NewMonitor() && Health.NewMonitor().totalBlocks == 0
  {
  }

  lemma MonitoredNext(interval: int, feds: seq<Fed>, f: Fed)
    requires AllOk(VALUE, feds) && FedOk(VALUE, f)
    ensures AllOk(VALUE, feds + [f])
    ensures var m := Monitored(VALUE, interval, feds);
            var b := Report(VALUE, interval, m, f);
            var r := Health.Decide(m, interval, b, m.totalBlocks + 1);
            Monitored(VALUE, interval, feds + [f]) == Health.Update(m, interval, r, b, m.totalBlocks + 1)
  {
    hide *;
    MonitoredStep(VALUE, interval, feds, f);
    Health.Extended(interval, Reports(VALUE, interval, feds), Report(VALUE, interval, Monitored(VALUE, interval, feds), f));
  }
}
