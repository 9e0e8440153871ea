/** The imperative block drivers: trial encodings on the shared context, rolled back with snapshot and
    restore, then one committed encoding; and the decoder's block loop. */
module Drivers {
  import opened Bytes
  import opened Context
  import opened FieldMath
  import opened Blocks
  import Varint
  import BitPack
  import FrameOfReference
  import Bits
  import Fixed64
  import Health
  import opened Metrics

  /** Runs one codec. Only the dictionary codec changes the context. */
  method RunCodec(ctx: ContextV0, codec: Codec, data: seq<int>) returns (bytes: seq<byte>)
    requires Within(data, CODED_BOUND) && WellFormed(ctx.State().dict)
    modifies ctx
    ensures bytes == EncodeInner(codec, data, old(ctx.State().dict)).0
    ensures ctx.State() == old(ctx.State()).(dict := EncodeInner(codec, data, old(ctx.State().dict)).1)
  {
    CodedIsEncodable(data);
    match codec
    case DICT_VARINT => bytes := ctx.EncodeDict(data);
    case BITPACK_DELTA => bytes := BitPack.EncodeBitPack(data);
    case RLE_ZIGZAG => bytes := Varint.EncodeRLE(data);
    case RLE_DOD => bytes := Varint.EncodeRLE(data);
    case FOR_BITPACK => bytes := FrameOfReference.EncodeFOR(data);
    case FIXED64_LE => bytes := Fixed64.Fixed64Bytes(data);
    case VARINT_DELTA => bytes := Varint.EncodeVarint(data);
    case DOD_VARINT => bytes := Varint.EncodeVarint(data);
  }

  /** The size each candidate would give from the same starting dictionary. */
  function TrialSize(codec: Codec, inputs: map<Codec, seq<int>>, d: Dict): nat
    requires codec in inputs && Within(inputs[codec], CODED_BOUND) && WellFormed(d)
  {
    |EncodeInner(codec, inputs[codec], d).0|
  }

  ghost predicate Trialled(candidates: seq<Codec>, inputs: map<Codec, seq<int>>)
  {
    forall c :: c in candidates ==> c in inputs && Within(inputs[c], CODED_BOUND)
  }

  /** Tries every candidate from the same snapshot and leaves the context as it was. The winner is the
      first of the smallest. */
  method TryAll(ctx: ContextV0, candidates: seq<Codec>, inputs: map<Codec, seq<int>>, snapshot: Ctx)
    returns (best: nat)
    requires candidates != [] && Trialled(candidates, inputs)
    requires WellFormed(snapshot.dict) && snapshot.dict.enabled == ctx.enabled
    modifies ctx
    ensures ctx.State() == snapshot
    ensures best < |candidates|
    ensures forall i :: 0 <= i < |candidates| ==>
              TrialSize(candidates[best], inputs, snapshot.dict) <= TrialSize(candidates[i], inputs, snapshot.dict)
    ensures forall i :: 0 <= i < best ==>
              TrialSize(candidates[best], inputs, snapshot.dict) < TrialSize(candidates[i], inputs, snapshot.dict)
  {
    hide EncodeInner, Within;
    best := 0;
    var bestSize := 0;
    for i := 0 to |candidates|
      invariant best < |candidates| && (i > 0 ==> best < i)
      invariant i > 0 ==> bestSize == TrialSize(candidates[best], inputs, snapshot.dict)
      invariant forall j :: 0 <= j < i ==> bestSize <= TrialSize(candidates[j], inputs, snapshot.dict)
      invariant forall j :: 0 <= j < best ==> i > 0 && bestSize < TrialSize(candidates[j], inputs, snapshot.dict)
    {
      ctx.Restore(snapshot);
      var encoded := RunCodec(ctx, candidates[i], inputs[candidates[i]]);
      if i == 0 || |encoded| < bestSize {
        best, bestSize := i, |encoded|;
      }
    }
    ctx.Restore(snapshot);
  }

  /** The bytes a block takes with a codec on its core route. */
  function CoreSize(stream: Stream, chunk: seq<int>, codec: Codec, ctx: Ctx): nat
    requires WellFormed(ctx.dict)
  {
    var data := FinalData(stream, chunk, Core(codec, 0), ctx);
    if Within(data, CODED_BOUND) then |EncodeInner(codec, data, ctx.dict).0| else 0
  }

  /** selectBestCodec: the first of the smallest. */
  ghost predicate Selected(candidates: seq<Codec>, stream: Stream, chunk: seq<int>, codec: Codec, ctx: Ctx)
    requires WellFormed(ctx.dict)
  {
    exists k :: 0 <= k < |candidates| && candidates[k] == codec
      && (forall i :: 0 <= i < |candidates| ==>
            CoreSize(stream, chunk, codec, ctx) <= CoreSize(stream, chunk, candidates[i], ctx))
      && (forall i :: 0 <= i < k ==> CoreSize(stream, chunk, codec, ctx) < CoreSize(stream, chunk, candidates[i], ctx))
  }

  /** The same as a function. */
  function BestCodec(candidates: seq<Codec>, stream: Stream, chunk: seq<int>, ctx: Ctx): (codec: Codec)
    requires WellFormed(ctx.dict) && candidates != []
    ensures codec in candidates
  {
    var last := candidates[|candidates| - 1];
    if |candidates| == 1 then last
    else
      var best := BestCodec(candidates[..|candidates| - 1], stream, chunk, ctx);
      if CoreSize(stream, chunk, last, ctx) < CoreSize(stream, chunk, best, ctx) then last else best
  }

  lemma {:induction false} BestIsSelected(candidates: seq<Codec>, stream: Stream, chunk: seq<int>, codec: Codec, ctx: Ctx)
    requires WellFormed(ctx.dict) && candidates != []
    ensures Selected(candidates, stream, chunk, codec, ctx) <==> codec == BestCodec(candidates, stream, chunk, ctx)
  {
    BestSelected(candidates, stream, chunk, ctx);
    hide CoreSize, BestCodec;
    if Selected(candidates, stream, chunk, codec, ctx) {
      OneSelected(candidates, stream, chunk, codec, BestCodec(candidates, stream, chunk, ctx), ctx);
    }
  }

  lemma OneSelected(candidates: seq<Codec>, stream: Stream, chunk: seq<int>, a: Codec, b: Codec, ctx: Ctx)
    requires WellFormed(ctx.dict) && Selected(candidates, stream, chunk, a, ctx) && Selected(candidates, stream, chunk, b, ctx)
    ensures a == b
  {
    hide CoreSize;
    var i :| 0 <= i < |candidates| && candidates[i] == a
      && (forall j :: 0 <= j < |candidates| ==> CoreSize(stream, chunk, a, ctx) <= CoreSize(stream, chunk, candidates[j], ctx))
      && (forall j :: 0 <= j < i ==> CoreSize(stream, chunk, a, ctx) < CoreSize(stream, chunk, candidates[j], ctx));
    var k :| 0 <= k < |candidates| && candidates[k] == b
      && (forall j :: 0 <= j < |candidates| ==> CoreSize(stream, chunk, b, ctx) <= CoreSize(stream, chunk, candidates[j], ctx))
      && (forall j :: 0 <= j < k ==> CoreSize(stream, chunk, b, ctx) < CoreSize(stream, chunk, candidates[j], ctx));
  }

  lemma {:induction false} BestSelected(candidates: seq<Codec>, stream: Stream, chunk: seq<int>, ctx: Ctx)
    requires WellFormed(ctx.dict) && candidates != []
    ensures Selected(candidates, stream, chunk, BestCodec(candidates, stream, chunk, ctx), ctx)
  {
    hide CoreSize;
    var n := |candidates| - 1;
    if n > 0 {
      var front := candidates[..n];
      BestSelected(front, stream, chunk, ctx);
      var best := BestCodec(front, stream, chunk, ctx);
      var k :| 0 <= k < |front| && front[k] == best
        && (forall i :: 0 <= i < |front| ==> CoreSize(stream, chunk, best, ctx) <= CoreSize(stream, chunk, front[i], ctx))
        && (forall i :: 0 <= i < k ==> CoreSize(stream, chunk, best, ctx) < CoreSize(stream, chunk, front[i], ctx));
      assert forall i :: 0 <= i < n ==> candidates[i] == front[i];
      SelectedAt(candidates, stream, chunk, ctx,
                 if CoreSize(stream, chunk, candidates[n], ctx) < CoreSize(stream, chunk, best, ctx) then n else k);
    } else {
      SelectedAt(candidates, stream, chunk, ctx, 0);
    }
  }

  lemma WinnerSelected(candidates: seq<Codec>, stream: Stream, chunk: seq<int>, ctx: Ctx, inputs: map<Codec, seq<int>>,
                       best: nat)
    requires WellFormed(ctx.dict) && Trialled(candidates, inputs) && best < |candidates|
    requires forall c :: c in candidates ==> inputs[c] == FinalData(stream, chunk, Core(c, 0), ctx)
    requires forall i :: 0 <= i < |candidates| ==>
               TrialSize(candidates[best], inputs, ctx.dict) <= TrialSize(candidates[i], inputs, ctx.dict)
    requires forall i :: 0 <= i < best ==>
               TrialSize(candidates[best], inputs, ctx.dict) < TrialSize(candidates[i], inputs, ctx.dict)
    ensures Selected(candidates, stream, chunk, candidates[best], ctx)
  {
    hide EncodeInner, Within, FinalData;
    assert forall i :: 0 <= i < |candidates| ==>
        TrialSize(candidates[i], inputs, ctx.dict) == CoreSize(stream, chunk, candidates[i], ctx);
  }

  /** A structural block (SNAPSHOT_LEN, ITEM_ID, QUANTITY): the committed state is that of one encoding
      with the winning codec, no matter what the trials did to the ring. */
  method ProcessStructuralBlock(ctx: ContextV0, stream: Stream, chunk: seq<int>, candidates: seq<Codec>)
    returns (b: Block)
    requires stream != TIME && stream != VALUE && candidates != []
    requires Within(chunk, INPUT_BOUND) && WellFormed(ctx.State().dict)
    modifies ctx
    ensures b.codec in candidates
    ensures (b, ctx.State()) == EncodeBlock(stream, chunk, Core(b.codec, 0), old(ctx.State()))
    ensures Selected(candidates, stream, chunk, b.codec, old(ctx.State()))
  {
    hide EncodeInner, Selected;
    var snapshot := ctx.Snapshot();
    var inputs := map c | c in candidates :: chunk;
    var best := TryAll(ctx, candidates, inputs, snapshot);
    WinnerSelected(candidates, stream, chunk, snapshot, inputs, best);
    var bestCodec := candidates[best];
    ctx.Restore(snapshot);
    var finalEncoded := RunCodec(ctx, bestCodec, chunk);
    b := Block(bestCodec, |chunk|, 0, finalEncoded);
  }

  function StreamInputs(stream: Stream, chunk: seq<int>, ctx: Ctx): map<Codec, seq<int>>
  {
    map c | c in Candidates(stream, true) :: FinalData(stream, chunk, Core(c, 0), ctx)
  }

  /** What the monitor is told of a block: it probes the size of the tried codec and counts the written one. */
  function Reported(chunk: seq<int>, tried: nat, written: nat): Health.Block
  {
    Health.Block(UniqueRatio(chunk), UniqueRatio(Steps(chunk)),
                 (8 * |chunk|) as real / (if tried == 0 then 1 else tried) as real, 8 * |chunk|, written, 0)
  }

  /** The choice a route and the codec tried on it come to. */
  function Routed(route: Health.Route, tried: Codec, flags: byte): Choice
  {
    if route == Health.Quarantine then Quarantine(flags) else Core(tried, flags)
  }

  /** selectBestCodec, from a context that stands where its snapshot was taken. */
  method SelectBestCodec(ctx: ContextV0, stream: Stream, chunk: seq<int>, snapshot: Ctx)
    returns (codec: Codec, size: nat)
    requires Within(chunk, INPUT_BOUND) && Bounded(snapshot) && WellFormed(snapshot.dict)
    requires snapshot.dict.enabled == ctx.enabled && (stream == TIME || stream == VALUE)
    modifies ctx
    ensures ctx.State() == snapshot && codec in Candidates(stream, ctx.enabled)
    ensures Selected(Candidates(stream, ctx.enabled), stream, chunk, codec, snapshot)
    ensures size == CoreSize(stream, chunk, codec, snapshot)
  {
    hide EncodeInner, Within, Bounded, Selected, FinalData;
    var candidates := Candidates(stream, ctx.enabled);
    var inputs := StreamInputs(stream, chunk, snapshot);
    forall c | c in candidates
      ensures c in inputs && inputs[c] == FinalData(stream, chunk, Core(c, 0), snapshot) && Within(inputs[c], CODED_BOUND)
    {
      BlockInRange(stream, chunk, Core(c, 0), snapshot);
    }
    hide StreamInputs, Candidates;
    var best := TryAll(ctx, candidates, inputs, snapshot);
    codec := candidates[best];
    WinnerSelected(candidates, stream, chunk, snapshot, inputs, best);
    size := |EncodeInner(codec, inputs[codec], snapshot.dict).0|;
  }

  /** Writes a block as chosen and commits the state. */
  method WriteBlock(ctx: ContextV0, stream: Stream, chunk: seq<int>, choice: Choice) returns (encoded: seq<byte>)
    requires (stream == TIME || stream == VALUE) && Within(FinalData(stream, chunk, choice, ctx.State()), CODED_BOUND)
    requires WellFormed(ctx.State().dict)
    modifies ctx
    ensures encoded == EncodeBlock(stream, chunk, choice, old(ctx.State())).0.payload
    ensures ctx.State() == EncodeBlock(stream, chunk, choice, old(ctx.State())).1
  {
    hide EncodeInner, Within, InputData;
    var codec := if choice.Core? then choice.codec else FIXED64_LE;
    encoded := RunCodec(ctx, codec, FinalData(stream, chunk, choice, ctx.State()));
    CommitState(ctx, stream, chunk);
  }

  /** Flags are not coded, only recorded. */
  lemma FlagsRecorded(stream: Stream, chunk: seq<int>, choice: Choice, flags: byte, ctx: Ctx)
    requires Within(FinalData(stream, chunk, choice, ctx), CODED_BOUND) && WellFormed(ctx.dict)
    ensures Within(FinalData(stream, chunk, choice.(flags := flags), ctx), CODED_BOUND)
    ensures var (b, next) := EncodeBlock(stream, chunk, choice, ctx);
            EncodeBlock(stream, chunk, choice.(flags := flags), ctx) == (b.(flags := flags), next)
  {
    hide EncodeInner, Within, InputData;
  }

  /** A TIME or VALUE block: the codec tried is the first of the smallest, the monitor decides the route from its
      size, and what is committed is a function of the chunk, the route and that codec. */
  method ProcessStreamBlock(ctx: ContextV0, stream: Stream, chunk: seq<int>, chm: Health.HealthMonitor)
    returns (b: Block, tried: Codec)
    requires stream == TIME || stream == VALUE
    requires Within(chunk, INPUT_BOUND) && Bounded(ctx.State()) && WellFormed(ctx.State().dict)
    modifies ctx, chm
    ensures tried in Candidates(stream, ctx.enabled)
    ensures Selected(Candidates(stream, ctx.enabled), stream, chunk, tried, old(ctx.State()))
    ensures var m, size := old(chm.Now()), CoreSize(stream, chunk, tried, old(ctx.State()));
            var report := Reported(chunk, size, |b.payload|);
            var route := Health.Decide(m, chm.probeInterval, report, m.totalBlocks + 1);
            var choice := Routed(route, tried, Health.Flags(m.mode, route));
            && chm.Now() == Health.Update(m, chm.probeInterval, route, report, m.totalBlocks + 1)
            && Within(FinalData(stream, chunk, choice, old(ctx.State())), CODED_BOUND)
            && (b, ctx.State()) == EncodeBlock(stream, chunk, choice, old(ctx.State()))
            && (route == Health.Quarantine ==> report.payloadOut == report.payloadIn)
  {
    hide EncodeInner, EncodeBlock, Within, Bounded, Selected, FinalData, CoreSize, Health.Decide, Health.Update, Candidates;
    var snapshot := ctx.Snapshot();
    var size;
    tried, size := SelectBestCodec(ctx, stream, chunk, snapshot);
    var blockIndex := chm.totalBlocks + 1;
    var unique, uniqueDelta := CalculateBlockMetrics(chunk);
    var ratio := (8 * |chunk|) as real / (if size == 0 then 1 else size) as real;
    var route := chm.DecideRoute(Health.Block(unique, uniqueDelta, ratio, 8 * |chunk|, 0, 0), blockIndex);
    var choice := Routed(route, tried, 0);
    BlockInRange(stream, chunk, choice, snapshot);
    ctx.Restore(snapshot);
    var encoded := WriteBlock(ctx, stream, chunk, choice);
    var report := Health.Block(unique, uniqueDelta, ratio, 8 * |chunk|, |encoded|, 0);
    assert report == Reported(chunk, size, |encoded|);
    WrittenIsNotProbed(chm.Now(), chm.probeInterval, chunk, size, |encoded|, blockIndex);
    QuarantineSize(stream, chunk, choice, snapshot);
    ghost var mode := chm.mode;
    var flags := chm.UpdateBlock(route, report, blockIndex);
    FlagsRecorded(stream, chunk, choice, flags, snapshot);
    b := Block(if route == Health.Quarantine then FIXED64_LE else tried, |chunk|, flags, encoded);
    BlockShape(stream, chunk, choice, snapshot);
    assert choice.(flags := flags) == Routed(route, tried, flags);
  }

  lemma BlockShape(stream: Stream, chunk: seq<int>, choice: Choice, ctx: Ctx)
    requires Within(FinalData(stream, chunk, choice, ctx), CODED_BOUND) && WellFormed(ctx.dict)
    ensures var b := EncodeBlock(stream, chunk, choice, ctx).0;
            b == Block(if choice.Core? then choice.codec else FIXED64_LE, |chunk|, choice.flags, b.payload)
  {
    hide EncodeInner, Within, InputData;
  }

  /** The route does not depend on what is written in the end. */
  lemma WrittenIsNotProbed(m: Health.Monitor, interval: int, chunk: seq<int>, tried: nat, written: nat, index: nat)
    ensures Health.Decide(m, interval, Reported(chunk, tried, written), index)
         == Health.Decide(m, interval, Reported(chunk, tried, 0), index)
  {
    hide Health.IsAnomaly, Health.Probes, Health.RecoveryThreshold;
  }

  lemma QuarantineSize(stream: Stream, chunk: seq<int>, choice: Choice, ctx: Ctx)
    requires Within(FinalData(stream, chunk, choice, ctx), CODED_BOUND) && WellFormed(ctx.dict)
    ensures choice.Quarantine? ==> |EncodeBlock(stream, chunk, choice, ctx).0.payload| == 8 * |chunk|
  {
    hide FinalData, Within, Fixed64.Fixed64Bytes;
    CodedIsEncodable(FinalData(stream, chunk, choice, ctx));
  }

  /** The state commit shared by both routes. */
  method CommitState(ctx: ContextV0, stream: Stream, chunk: seq<int>)
    modifies ctx
    ensures ctx.State() == Commit(stream, chunk, old(ctx.State()))
  {
    if stream == TIME {
      var result := ComputeTimeDeltas(chunk, OrZero(ctx.lastTimestamp), OrZero(ctx.lastTimestampDelta));
      ctx.lastTimestamp := Some(result.next);
      ctx.lastTimestampDelta := Some(result.nextDelta);
    } else if stream == VALUE {
      var deltas, nextValue := ComputeValueDeltas(chunk, OrZero(ctx.lastValue));
      ctx.lastValue := Some(nextValue);
    }
  }

  method RunDecoder(ctx: ContextV0, codec: Codec, payload: seq<byte>, nItems: nat) returns (r: Result<seq<int>>)
    requires WellFormed(ctx.State().dict)
    modifies ctx
    ensures match DecodeInner(codec, payload, nItems, old(ctx.State().dict))
            case Err(e) => r == Err(e)
            case Ok((vs, d)) => r == Ok(vs) && ctx.State() == old(ctx.State()).(dict := d)
  {
    match codec {
      case DICT_VARINT => r := ctx.DecodeDict(payload);
      case BITPACK_DELTA =>
        var vs := BitPack.DecodeBitPack(payload, nItems);
        r := Ok(vs);
      case FOR_BITPACK => r := FrameOfReference.DecodeFOR(payload, nItems);
      case FIXED64_LE => r := Fixed64.DecodeFixed64(payload, nItems);
      case RLE_ZIGZAG =>
        var vs := Varint.DecodeRLE(payload);
        r := Ok(vs);
      case RLE_DOD =>
        var vs := Varint.DecodeRLE(payload);
        r := Ok(vs);
      case VARINT_DELTA =>
        var vs := Varint.DecodeVarint(payload);
        r := Ok(vs);
      case DOD_VARINT =>
        var vs := Varint.DecodeVarint(payload);
        r := Ok(vs);
    }
  }

  /** decodeBlock */
  method DecodeOne(ctx: ContextV0, stream: Stream, b: Block) returns (r: Result<seq<int>>)
    requires WellFormed(ctx.State().dict)
    modifies ctx
    ensures match DecodeBlock(stream, b, old(ctx.State()))
            case Err(e) => r == Err(e)
            case Ok((vs, c)) => r == Ok(vs) && ctx.State() == c
  {
    hide DecodeInner;
    var values := RunDecoder(ctx, b.codec, b.payload, b.nItems);
    if values.Err? || |values.value| == 0 {
      return values;
    }
    var vs := values.value;
    if stream == TIME {
      var c := DecodeTimeStream(vs, OrZero(ctx.lastTimestamp), OrZero(ctx.lastTimestampDelta));
      ctx.lastTimestamp := Some(c.next);
      ctx.lastTimestampDelta := Some(c.nextDelta);
      return Ok(c.values);
    }
    if stream == VALUE {
      if b.codec == FIXED64_LE && AbsoluteFlag(b.flags) {
        ctx.lastValue := Some(vs[|vs| - 1]);
        ctx.lastValueDelta := Some(0);
        return values;
      }
      var isDOD := b.codec == DOD_VARINT || b.codec == RLE_DOD;
      var c := DecodeValueStream(vs, OrZero(ctx.lastValue), OrZero(ctx.lastValueDelta), isDOD);
      ctx.lastValue := Some(c.next);
      ctx.lastValueDelta := Some(c.nextDelta);
      return Ok(c.values);
    }
    r := values;
  }

  /** The decoder's loop over one section. */
  method DecodeSection(ctx: ContextV0, stream: Stream, blocks: seq<Block>) returns (r: Result<seq<int>>)
    requires WellFormed(ctx.State().dict)
    modifies ctx
    ensures match DecodeBlocks(stream, blocks, old(ctx.State()))
            case Err(e) => r == Err(e)
            case Ok((vs, c)) => r == Ok(vs) && ctx.State() == c
  {
    hide DecodeBlock;
    var values := [];
    ghost var whole := DecodeBlocks(stream, blocks, ctx.State());
    for i := 0 to |blocks|
      invariant WellFormed(ctx.State().dict)
      invariant match DecodeBlocks(stream, blocks[i..], ctx.State())
                case Err(e) => whole == Err(e)
                case Ok((vs, c)) => whole.Ok? && whole.value.0 == values + vs && whole.value.1 == c
    {
      assert blocks[i..][0] == blocks[i] && blocks[i..][1..] == blocks[i + 1..];
      var one := DecodeOne(ctx, stream, blocks[i]);
      if one.Err? {
        return one;
      }
      values := values + one.value;
    }
    assert values + [] == values;
    r := Ok(values);
  }

  // ---- a run that does not come back --------------------------------------

  /** Two steps of 60 and two of 120; and the same in second differences. */
  const STEPS: seq<int> := [60, 60, 120, 120]
  const STEP_DODS: seq<int> := [60, 0, 60, 0]

  lemma {:induction false} VarintSeqAtLeast(values: seq<int>)
    ensures |Varint.VarintSeq(values)| >= |values|
  {
    if values != [] {
      VarintSeqAtLeast(values[1..]);
    }
  }

  lemma VarintCons(v: int, rest: seq<int>)
    ensures Varint.ZigZag(v) < 128 ==> |Varint.VarintSeq([v] + rest)| == 1 + |Varint.VarintSeq(rest)|
    ensures Varint.ZigZag(v) >= 128 ==> |Varint.VarintSeq([v] + rest)| >= 2 + |Varint.VarintSeq(rest)|
  {
    assert ([v] + rest)[1..] == rest;
  }

  lemma StepVarints()
    ensures |Varint.VarintSeq(STEP_DODS)| == 4 && |Varint.VarintSeq(STEPS)| >= 5
  {
    hide Varint.VarintSeq;
    VarintCons(60, [0, 60, 0]);
    VarintCons(0, [60, 0]);
    VarintCons(60, [0]);
    VarintCons(0, []);
    assert [60] + [0, 60, 0] == STEP_DODS && [0] + [60, 0] == [0, 60, 0] && [60] + [0] == [60, 0] && [0] + [] == [0];
    EmptyVarints();
    VarintCons(60, [60, 120, 120]);
    VarintCons(60, [120, 120]);
    VarintCons(120, [120]);
    VarintSeqAtLeast([120]);
    assert [60] + [60, 120, 120] == STEPS && [60] + [120, 120] == [60, 120, 120] && [120] + [120] == [120, 120];
  }

  lemma EmptyVarints()
    ensures Varint.VarintSeq([]) == []
  {
  }

  lemma StepRuns()
    ensures |Varint.VarintSeq(Varint.Runs(STEPS))| >= 5 && |Varint.VarintSeq(Varint.Runs(STEP_DODS))| >= 4
  {
    hide Varint.VarintSeq;
    RunsTail(STEPS, 2);
    RunsTail([120, 120], 2);
    RunsTail(STEP_DODS, 1);
    RunsTail([0, 60, 0], 1);
    VarintSeqAtLeast(Varint.Runs(STEP_DODS));
    assert STEPS[2..] == [120, 120];
    assert [120, 120][2..] == [];
    assert STEP_DODS[1..] == [0, 60, 0];
    assert Varint.Runs(STEPS) == [2, 60, 2, 120];
    VarintCons(2, [60, 2, 120]);
    VarintCons(60, [2, 120]);
    VarintCons(2, [120]);
    VarintCons(120, []);
    assert [2] + [60, 2, 120] == [2, 60, 2, 120] && [60] + [2, 120] == [60, 2, 120] && [2] + [120] == [2, 120];
    assert [120] + [] == [120];
  }

  lemma RunIs(values: seq<int>, n: nat)
    requires 1 <= n <= 2 && n <= |values| && (n == 2 ==> values[0] == values[1])
    requires n < |values| ==> values[n] != values[0]
    ensures Varint.RunLength(values, 255) == n
  {
    var k := Varint.RunLength(values, 255);
    hide Varint.RunLength, Varint.Repeat;
    assert forall i :: 0 <= i < k ==> values[i] == values[..k][i] == values[0];
  }

  lemma RunsTail(values: seq<int>, n: nat)
    requires 1 <= n <= 2 && n <= |values| && (n == 2 ==> values[0] == values[1])
    requires n < |values| ==> values[n] != values[0]
    ensures Varint.Runs(values) == [n, values[0]] + Varint.Runs(values[n..])
  {
    hide Varint.RunLength;
    RunIs(values, n);
  }

  lemma StepPacks()
    requires BitPack.Packable(STEPS) && FrameOfReference.InRange(STEPS)
    ensures |BitPack.BitPackBytes(STEPS)| >= 5 && |FrameOfReference.ForBytes(STEPS)| >= 5
  {
    StepBitPack();
    StepFor();
  }

  lemma StepBitPack()
    requires BitPack.Packable(STEPS)
    ensures |BitPack.BitPackBytes(STEPS)| >= 5
  {
    hide Pow2, Bits.FlatBits, Bits.Pack, BitPack.Width;
    var us := BitPack.ZigZags(STEPS);
    BitPack.WidthFits(STEPS);
    assert us[2] == 240;
    WideEnough(240, BitPack.Width(us));
    Bits.FlatBitsLength(us, BitPack.Width(us));
    assert |us| == 4;
    assert |Bits.FlatBits(us, BitPack.Width(us))| >= 32;
  }

  lemma StepFor()
    requires FrameOfReference.InRange(STEPS)
    ensures |FrameOfReference.ForBytes(STEPS)| >= 5
  {
    hide Pow2, Bits.FlatBits, Bits.Pack, FrameOfReference.WidthOf, FrameOfReference.Least, FrameOfReference.InRange;
    var min, w := FrameOfReference.Least(STEPS), FrameOfReference.WidthOf(STEPS);
    FrameOfReference.WidthFits(STEPS);
    assert min <= STEPS[0] && STEPS[2] - min >= 60;
    WideEnough(STEPS[2] - min, w);
    var us := FrameOfReference.Residuals(STEPS, min);
    Bits.FlatBitsLength(us, w);
    assert |us| == 4;
    assert |Bits.FlatBits(us, w)| >= 24;
  }

  lemma WideEnough(n: nat, w: nat)
    requires n < Pow2(w)
    ensures n >= 60 ==> w >= 6
    ensures n >= 240 ==> w >= 8
  {
    Pow2Small();
    if w < 6 {
      Pow2Monotone(w, 5);
    } else if w < 8 {
      Pow2Monotone(w, 7);
    }
    hide Pow2;
  }

  lemma StepData(chunk: seq<int>, ctx: Ctx, codec: Codec)
    requires Bounded(ctx) && InputData(VALUE, chunk, ctx) == STEPS
    ensures FinalData(VALUE, chunk, Core(codec, 0), ctx)
         == if codec == DOD_VARINT || codec == RLE_DOD then STEP_DODS else STEPS
  {
    assert STEPS[1..] == [60, 120, 120] && STEPS[1..][1..] == [120, 120] && STEPS[1..][1..][1..] == [120];
  }

  lemma StepSizes(chunk: seq<int>, ctx: Ctx)
    requires Bounded(ctx) && WellFormed(ctx.dict) && InputData(VALUE, chunk, ctx) == STEPS
    ensures CoreSize(VALUE, chunk, DOD_VARINT, ctx) == 4
    ensures CoreSize(VALUE, chunk, VARINT_DELTA, ctx) >= 5 && CoreSize(VALUE, chunk, FOR_BITPACK, ctx) >= 5
    ensures CoreSize(VALUE, chunk, BITPACK_DELTA, ctx) >= 5 && CoreSize(VALUE, chunk, RLE_ZIGZAG, ctx) >= 5
    ensures CoreSize(VALUE, chunk, RLE_DOD, ctx) >= 4 && CoreSize(VALUE, chunk, DICT_VARINT, ctx) >= 4
  {
    hide Bounded, InputData, FinalData, DictCodes, Varint.VarintSeq, Varint.Runs, BitPack.BitPackBytes,
         FrameOfReference.ForBytes;
    forall codec: Codec
      ensures FinalData(VALUE, chunk, Core(codec, 0), ctx)
           == if codec == DOD_VARINT || codec == RLE_DOD then STEP_DODS else STEPS
    {
      StepData(chunk, ctx, codec);
    }
    CodedIsEncodable(STEPS);
    StepVarints();
    StepRuns();
    StepPacks();
    VarintSeqAtLeast(DictCodes(STEPS, ctx.dict).0);
  }

  predicate Plain(codec: Codec)
  {
    codec == VARINT_DELTA || codec == FOR_BITPACK || codec == BITPACK_DELTA || codec == RLE_ZIGZAG
  }

  lemma ValueCandidates(enabled: bool)
    ensures var candidates := Candidates(VALUE, enabled);
            && |candidates| > 4 && candidates[4] == DOD_VARINT
            && (forall i :: 0 <= i < |candidates| ==> candidates[i] != FIXED64_LE)
            && (forall i :: 0 <= i < 4 ==> Plain(candidates[i]))
  {
  }

  lemma SelectedAt(candidates: seq<Codec>, stream: Stream, chunk: seq<int>, ctx: Ctx, k: nat)
    requires WellFormed(ctx.dict) && k < |candidates|
    requires forall i :: 0 <= i < |candidates| ==>
               CoreSize(stream, chunk, candidates[k], ctx) <= CoreSize(stream, chunk, candidates[i], ctx)
    requires forall i :: 0 <= i < k ==>
               CoreSize(stream, chunk, candidates[k], ctx) < CoreSize(stream, chunk, candidates[i], ctx)
    ensures Selected(candidates, stream, chunk, candidates[k], ctx)
  {
    hide CoreSize, WellFormed;
  }

  /** Whatever is in the dictionary, these steps are smallest as second differences. */
  lemma DodSelected(chunk: seq<int>, ctx: Ctx)
    requires Bounded(ctx) && WellFormed(ctx.dict) && InputData(VALUE, chunk, ctx) == STEPS
    ensures Selected(Candidates(VALUE, ctx.dict.enabled), VALUE, chunk, DOD_VARINT, ctx)
  {
    hide Bounded, WellFormed, InputData, CoreSize, Selected, Candidates;
    var candidates := Candidates(VALUE, ctx.dict.enabled);
    StepSizes(chunk, ctx);
    ValueCandidates(ctx.dict.enabled);
    SelectedAt(candidates, VALUE, chunk, ctx, 4);
  }

  lemma StepReports(a: int)
    ensures Reported([a, a + 60, a + 180, a + 300], 4, 4) == Health.Block(1.0, 2.0 / 3.0, 8.0, 32, 4, 0)
  {
    var chunk := [a, a + 60, a + 180, a + 300];
    ValueDeltasThree(a + 60, a + 180, a + 300, a);
    assert chunk[1..] == [a + 60, a + 180, a + 300];
    assert (set x | x in chunk) == {a, a + 60, a + 180, a + 300};
    assert Steps(chunk) == [60, 120, 120];
    assert (set x | x in [60, 120, 120]) == {60, 120};
    hide Steps;
    assert UniqueRatio(chunk) == 1.0 && UniqueRatio([60, 120, 120]) == 2.0 / 3.0;
  }

  lemma ValueDeltasThree(b: int, c: int, d: int, prev: int)
    ensures ValueDeltas([b, c, d], prev) == [b - prev, c - b, d - c]
  {
    assert [b, c, d][1..] == [c, d] && [c, d][1..] == [d] && [d][1..] == [];
    assert ValueDeltas([d], c) == [d - c];
    assert ValueDeltas([c, d], b) == [c - b, d - c];
  }

  /** A fresh monitor leaves both blocks of the example below on the core route and without a flag. */
  lemma StepsStayCore(interval: int)
    ensures var m := Health.NewMonitor();
            var first, second := Reported([60, 120, 240, 360], 4, 4), Reported([420, 480, 600, 720], 4, 4);
            && Health.Decide(m, interval, first, 1) == Health.Core
            && Health.Decide(Health.Update(m, interval, Health.Core, first, 1), interval, second, 2) == Health.Core
            && Health.Flags(m.mode, Health.Core) == 0
            && Health.Flags(Health.Update(m, interval, Health.Core, first, 1).mode, Health.Core) == 0
  {
    StepReports(60);
    StepReports(420);
    hide Reported, Health.Update, Health.Decide;
    FirstStaysCore(interval, Health.Block(1.0, 2.0 / 3.0, 8.0, 32, 4, 0));
  }

  /** A block of all different numbers trains nothing, so the next one meets a monitor as good as fresh. */
  lemma FirstStaysCore(interval: int, b: Health.Block)
    requires b.uniqueRatio == 1.0 && b.uniqueDeltaRatio < 0.7 && b.probeRatio == 8.0
    ensures Health.Decide(Health.NewMonitor(), interval, b, 1) == Health.Core
    ensures var m := Health.Update(Health.NewMonitor(), interval, Health.Core, b, 1);
            Health.Decide(m, interval, b, 2) == Health.Core && m.mode == Health.Normal
  {
    var m := Health.Update(Health.NewMonitor(), interval, Health.Core, b, 1);
    assert m.mode == Health.Normal && m.baselineRatio == Health.NewMonitor().baselineRatio;
    assert m.baselineDev == Health.NewMonitor().baselineDev;
  }

  /** Eight prices in two blocks of four. Each block is smallest as second differences and stays in core, so
      that is how it is written; the decoder still carries the last step of 120 into the second block, which
      the encoder never does, and answers something else. */
  lemma CarriedDeltaBreaksValues(enc: Ctx, dec: Ctx)
    requires Bounded(enc) && Agree(enc, dec) && OrZero(enc.lastValue) == 0
    requires OrZero(dec.lastValue) == 0 && OrZero(dec.lastValueDelta) == 0
    ensures WellFormed(enc.dict) && WellFormed(dec.dict)
    ensures var first, second, dod := [60, 120, 240, 360], [420, 480, 600, 720], Core(DOD_VARINT, 0);
            var parts := [Part(first, dod), Part(second, dod)];
            && PartsOk(VALUE, parts, enc.dict.enabled) && Within(FinalData(VALUE, first, dod, enc), CODED_BOUND)
            && Selected(Candidates(VALUE, enc.dict.enabled), VALUE, first, DOD_VARINT, enc)
            && Selected(Candidates(VALUE, enc.dict.enabled), VALUE, second, DOD_VARINT, EncodeBlock(VALUE, first, dod, enc).1)
            && DecodeBlocks(VALUE, EncodeBlocks(VALUE, parts, enc).0, dec).Ok?
            && DecodeBlocks(VALUE, EncodeBlocks(VALUE, parts, enc).0, dec).value.0 != first + second
  {
    hide Agree, DecodeBlock, Selected, EncodeBlocks, DecodeBlocks;
    AgreeWellFormed(enc, dec);
    var first, second, dod := [60, 120, 240, 360], [420, 480, 600, 720], Core(DOD_VARINT, 0);
    var parts := [Part(first, dod), Part(second, dod)];
    StepPartsOk(enc.dict.enabled);
    StepInputs(enc);
    BlockInRange(VALUE, first, dod, enc);
    DodSelected(first, enc);
    var enc1 := EncodeBlock(VALUE, first, dod, enc).1;
    hide EncodeInner;
    DodSelected(second, enc1);
    ValueStreamExact(parts, enc, dec);
    StepsCarry();
  }

  lemma StepPartsOk(enabled: bool)
    ensures var first, second, dod := [60, 120, 240, 360], [420, 480, 600, 720], Core(DOD_VARINT, 0);
            PartsOk(VALUE, [Part(first, dod), Part(second, dod)], enabled) && Within(first, INPUT_BOUND)
  {
    assert Candidates(VALUE, enabled)[4] == DOD_VARINT;
  }

  lemma StepInputs(ctx: Ctx)
    ensures OrZero(ctx.lastValue) == 0 ==> InputData(VALUE, [60, 120, 240, 360], ctx) == STEPS
    ensures InputData(VALUE, [420, 480, 600, 720], ctx.(lastValue := Some(360))) == STEPS
    ensures Last([60, 120, 240, 360], 0) == 360
  {
    ValueDeltasFour(60, 120, 240, 360, 0);
    ValueDeltasFour(420, 480, 600, 720, 360);
    hide ValueDeltas;
  }

  lemma ValueDeltasFour(a: int, b: int, c: int, d: int, prev: int)
    ensures ValueDeltas([a, b, c, d], prev) == [a - prev, b - a, c - b, d - c]
  {
    assert [a, b, c, d][1..] == [b, c, d] && [b, c, d][1..] == [c, d] && [c, d][1..] == [d];
    assert ValueDeltas([c, d], b) == [c - b, d - c];
  }

  lemma StepsCarry()
    ensures var first, second, dod := [60, 120, 240, 360], [420, 480, 600, 720], Core(DOD_VARINT, 0);
            var parts := [Part(first, dod), Part(second, dod)];
            Flat(parts) == first + second && !NoCarry(parts, 0, 0)
  {
    var first, second, dod := [60, 120, 240, 360], [420, 480, 600, 720], Core(DOD_VARINT, 0);
    var parts := [Part(first, dod), Part(second, dod)];
    assert parts[1..] == [parts[1]] && parts[1..][1..] == [];
    assert Flat([]) == [] && second + [] == second;
    assert Flat(parts) == first + Flat(parts[1..]);
    assert NoCarry(parts, 0, 0) ==> NoCarry(parts[1..], 360, 120);
  }
}
