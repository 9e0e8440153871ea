/** The compression health monitor (src/gics/chm.ts): routing to quarantine, recovery probes, block flags,
    anomaly segments and totals. Ratios are reals. */
module Health {
  import opened Bytes
  import Blocks

  datatype Route = Core | Quarantine

  datatype Mode = Normal | QuarantineActive

  /** What the monitor is told about a block. */
  datatype Block = Block(
    uniqueRatio: real, uniqueDeltaRatio: real, probeRatio: real, payloadIn: nat, payloadOut: nat, headerBytes: nat)

  datatype Totals = Totals(blocks: nat, inputBytes: nat, outputBytes: nat)

  datatype Anomaly = Anomaly(start: nat, end: Option<nat>)

  datatype Monitor = Monitor(
    mode: Mode, baselineRatio: real, baselineDev: real, baselineUnique: real, frozen: Option<real>,
    totalBlocks: nat, recoveryCounter: nat, core: Totals, quar: Totals, anomalies: seq<Anomaly>)

  const RECOVERY_BLOCKS: nat := 3
  const ANOMALY_START: byte := 1
  const ANOMALY_MID: byte := 2
  const ANOMALY_END: byte := 4
  const HEALTH_QUAR: byte := 16

  function NewMonitor(): Monitor
  {
    Monitor(Normal, 2.0, 0.5, 0.5, None, 0, 0, Totals(0, 0, 0), Totals(0, 0, 0), [])
  }

  // ---- decisions ----------------------------------------------------------

  function Max(a: real, b: real): real { if a > b then a else b }

  /** `frozen || baseline`: a frozen ratio of zero counts as none. */
  function Reference(m: Monitor): real
  {
    if m.frozen.Some? && m.frozen.value != 0.0 then m.frozen.value else m.baselineRatio
  }

  predicate EntropyGate(b: Block) { b.uniqueRatio > 0.85 && b.uniqueDeltaRatio > 0.85 }

  function RecoveryThreshold(m: Monitor): real { Reference(m) - 10.0 * Max(m.baselineDev, 0.1) }

  function AnomalyThreshold(m: Monitor): real
  {
    var expected := if m.mode == Normal then m.baselineRatio else Reference(m);
    var dev := if m.baselineDev * 3.0 > expected * 0.9 then expected * 0.9 / 3.0 else m.baselineDev;
    expected - 3.0 * dev
  }

  predicate IsAnomaly(m: Monitor, ratio: real, uniqueRatio: real)
  {
    var expected := if m.mode == Normal then m.baselineRatio else Reference(m);
    ratio < AnomalyThreshold(m) ||
    (uniqueRatio > m.baselineUnique * 1.5 && uniqueRatio > 0.5 && ratio < expected)
  }

  function Width(interval: int): nat { if interval < 0 then -interval else interval }

  /** blockIndex % interval === 0: the sign of the interval does not matter, and NaN is never 0. */
  predicate Probes(index: nat, interval: int) { interval != 0 && index % Width(interval) == 0 }

  /** decideRoute */
  function Decide(m: Monitor, interval: int, b: Block, index: nat): Route
  {
    if EntropyGate(b) then Quarantine
    else if m.mode == Normal then if IsAnomaly(m, b.probeRatio, b.uniqueRatio) then Quarantine else Core
    else if Probes(index, interval) && b.probeRatio >= RecoveryThreshold(m) && m.recoveryCounter + 1 >= RECOVERY_BLOCKS
    then Core
    else Quarantine
  }

  // ---- updates ------------------------------------------------------------

  function Ratio(b: Block): real { b.payloadIn as real / (if b.payloadOut > 0 then b.payloadOut else 1) as real }

  function Count(t: Totals, b: Block): Totals
  {
    Totals(t.blocks + 1, t.inputBytes + b.payloadIn, t.outputBytes + b.payloadOut + b.headerBytes)
  }

  function UpdateTotals(m: Monitor, r: Route, b: Block): Monitor
  {
    if r == Core then m.(core := Count(m.core, b)) else m.(quar := Count(m.quar, b))
  }

  function Flags(mode: Mode, r: Route): byte
  {
    match (mode, r)
    case (Normal, Core) => 0
    case (Normal, Quarantine) => ANOMALY_START + HEALTH_QUAR
    case (QuarantineActive, Core) => ANOMALY_END
    case (QuarantineActive, Quarantine) => ANOMALY_MID + HEALTH_QUAR
  }

  function Close(anomalies: seq<Anomaly>, index: nat): seq<Anomaly>
  {
    if anomalies == [] then []
    else anomalies[|anomalies| - 1 := anomalies[|anomalies| - 1].(end := Some(index))]
  }

  /** handleNormalState and handleQuarantineState. */
  function UpdateMode(m: Monitor, interval: int, r: Route, ratio: real, index: nat): Monitor
  {
    match (m.mode, r)
    case (Normal, Core) => m
    case (Normal, Quarantine) =>
      m.(mode := QuarantineActive, frozen := Some(m.baselineRatio), recoveryCounter := 0,
         anomalies := m.anomalies + [Anomaly(index, None)])
    case (QuarantineActive, Core) =>
      m.(mode := Normal, frozen := None, recoveryCounter := 0, anomalies := Close(m.anomalies, index))
    case (QuarantineActive, Quarantine) =>
      if !Probes(index, interval) then m
      else m.(recoveryCounter := if ratio >= RecoveryThreshold(m) then m.recoveryCounter + 1 else 0)
  }

  function Abs(x: real): real { if x < 0.0 then -x else x }

  /** trainBaselineIfNeeded: only ordinary core blocks of moderate entropy count. */
  function Train(m: Monitor, wasNormal: bool, r: Route, ratio: real, uniqueRatio: real): Monitor
  {
    if r != Core || !wasNormal || uniqueRatio > 0.8 then m
    else if m.totalBlocks <= 1 then m.(baselineRatio := ratio, baselineDev := ratio * 0.1, baselineUnique := uniqueRatio)
    else m.(baselineRatio := 0.1 * ratio + 0.9 * m.baselineRatio,
            baselineDev := 0.1 * Abs(ratio - m.baselineRatio) + 0.9 * m.baselineDev,
            baselineUnique := 0.1 * uniqueRatio + 0.9 * m.baselineUnique)
  }

  /** update */
  function Update(m: Monitor, interval: int, r: Route, b: Block, index: nat): Monitor
  {
    var counted := UpdateTotals(m.(totalBlocks := m.totalBlocks + 1), r, b);
    Train(UpdateMode(counted, interval, r, Ratio(b), index), m.mode == Normal, r, Ratio(b), b.uniqueRatio)
  }

  /** Everything an update does besides the baselines and the recovery counter. */
  predicate Advanced(m: Monitor, r: Route, b: Block, index: nat, n: Monitor)
  {
    && n.totalBlocks == m.totalBlocks + 1
    && n.mode == (if r == Core then Normal else QuarantineActive)
    && n.core == (if r == Core then Count(m.core, b) else m.core)
    && n.quar == (if r == Core then m.quar else Count(m.quar, b))
    && n.anomalies == (if m.mode == Normal && r == Quarantine then m.anomalies + [Anomaly(index, None)]
                       else if m.mode != Normal && r == Core then Close(m.anomalies, index) else m.anomalies)
    && n.frozen == (if m.mode == Normal && r == Quarantine then Some(m.baselineRatio)
                    else if m.mode != Normal && r == Core then None else m.frozen)
  }

  lemma UpdateParts(m: Monitor, interval: int, r: Route, b: Block, index: nat)
    ensures Advanced(m, r, b, index, Update(m, interval, r, b, index))
  {
    hide Ratio, Close, Count, RecoveryThreshold, Probes;
  }

  lemma UpdateBaseline(m: Monitor, interval: int, r: Route, b: Block, index: nat)
    ensures var n := Update(m, interval, r, b, index);
            var t := Train(m.(totalBlocks := m.totalBlocks + 1), m.mode == Normal, r, Ratio(b), b.uniqueRatio);
            && n.baselineRatio == t.baselineRatio && n.baselineDev == t.baselineDev
            && n.baselineUnique == t.baselineUnique
  {
    hide Ratio, Close, Count, RecoveryThreshold, Probes, Abs;
  }

  lemma UpdateCounter(m: Monitor, interval: int, r: Route, b: Block, index: nat)
    ensures Update(m, interval, r, b, index).recoveryCounter
         == if m.mode == Normal && r == Core then m.recoveryCounter
            else if m.mode == Normal || r == Core then 0
            else if !Probes(index, interval) then m.recoveryCounter
            else if Ratio(b) >= RecoveryThreshold(m) then m.recoveryCounter + 1 else 0
  {
    SameThreshold(m, r, b);
    hide Ratio, Close, Count, RecoveryThreshold, Probes, Abs;
  }

  lemma SameThreshold(m: Monitor, r: Route, b: Block)
    ensures RecoveryThreshold(UpdateTotals(m.(totalBlocks := m.totalBlocks + 1), r, b)) == RecoveryThreshold(m)
  {
  }

  /** A run of blocks of one stream through the monitor, each routed as it decides (processStreamBlock). */
  datatype Run = Run(m: Monitor, flags: seq<byte>, routes: seq<Route>)

  function Extend(run: Run, interval: int, b: Block): Run
  {
    var index := run.m.totalBlocks + 1;
    var r := Decide(run.m, interval, b, index);
    Run(Update(run.m, interval, r, b, index), run.flags + [Flags(run.m.mode, r)], run.routes + [r])
  }

  function RunAll(interval: int, blocks: seq<Block>): Run
  {
    if blocks == [] then Run(NewMonitor(), [], [])
    else Extend(RunAll(interval, blocks[..|blocks| - 1]), interval, blocks[|blocks| - 1])
  }

  lemma LastStep(interval: int, blocks: seq<Block>, b: Block)
    ensures RunAll(interval, blocks + [b]) == Extend(RunAll(interval, blocks), interval, b)
  {
    assert (blocks + [b])[..|blocks|] == blocks;
  }

  // ---- the flags form a word ----------------------------------------------

  /** What may follow a flag in (0* START MID* END)*; a word starts as if behind a 0. */
  predicate MayFollow(before: byte, flag: byte)
  {
    if before == 0 || before == ANOMALY_END then flag == 0 || flag == ANOMALY_START + HEALTH_QUAR
    else flag == ANOMALY_MID + HEALTH_QUAR || flag == ANOMALY_END
  }

  function LastFlag(flags: seq<byte>): byte { if flags == [] then 0 else flags[|flags| - 1] }

  ghost predicate Word(flags: seq<byte>)
  {
    forall i :: 0 <= i < |flags| ==> MayFollow(LastFlag(flags[..i]), flags[i])
  }

  /** The anomaly segments that can be read off the flags alone, blocks counted from 1. */
  function Spans(flags: seq<byte>): seq<Anomaly>
  {
    if flags == [] then []
    else
      var n := |flags| - 1;
      var before := Spans(flags[..n]);
      if flags[n] == ANOMALY_START + HEALTH_QUAR then before + [Anomaly(n + 1, None)]
      else if flags[n] == ANOMALY_END then Close(before, n + 1)
      else before
  }

  function Quarantined(flags: seq<byte>): nat
  {
    if flags == [] then 0
    else Quarantined(flags[..|flags| - 1]) + if flags[|flags| - 1] >= HEALTH_QUAR then 1 else 0
  }

  lemma WordSnoc(flags: seq<byte>, f: byte)
    requires Word(flags) && MayFollow(LastFlag(flags), f)
    ensures Word(flags + [f])
  {
    var next := flags + [f];
    forall i | 0 <= i < |next|
      ensures MayFollow(LastFlag(next[..i]), next[i])
    {
      if i < |flags| {
        assert next[..i] == flags[..i];
      } else {
        assert next[..i] == flags;
      }
    }
  }

  /** The flags so far are a word; they say which state the monitor is in and where its anomaly segments are,
      and leave the bit that marks absolute values alone. */
  ghost predicate FlagsTell(run: Run)
  {
    && Word(run.flags) && |run.flags| == run.m.totalBlocks
    && (run.m.mode == Normal <==> LastFlag(run.flags) == 0 || LastFlag(run.flags) == ANOMALY_END)
    && run.m.anomalies == Spans(run.flags)
    && (forall i :: 0 <= i < |run.flags| ==> !Blocks.AbsoluteFlag(run.flags[i]))
  }

  lemma FlagFits(last: byte, mode: Mode, r: Route)
    requires mode == Normal <==> last == 0 || last == ANOMALY_END
    ensures MayFollow(last, Flags(mode, r)) && !Blocks.AbsoluteFlag(Flags(mode, r))
    ensures r == Core <==> Flags(mode, r) == 0 || Flags(mode, r) == ANOMALY_END
  {
  }

  lemma SpansSnoc(flags: seq<byte>, mode: Mode, r: Route)
    ensures Spans(flags + [Flags(mode, r)])
         == if mode == Normal && r == Quarantine then Spans(flags) + [Anomaly(|flags| + 1, None)]
            else if mode != Normal && r == Core then Close(Spans(flags), |flags| + 1) else Spans(flags)
  {
    hide Close;
    assert (flags + [Flags(mode, r)])[..|flags|] == flags;
  }

  lemma FlagsStep(run: Run, r: Route, b: Block, n: Monitor)
    requires FlagsTell(run) && Advanced(run.m, r, b, run.m.totalBlocks + 1, n)
    ensures FlagsTell(Run(n, run.flags + [Flags(run.m.mode, r)], run.routes + [r]))
  {
    var f := Flags(run.m.mode, r);
    FlagFits(LastFlag(run.flags), run.m.mode, r);
    WordSnoc(run.flags, f);
    SpansSnoc(run.flags, run.m.mode, r);
    hide Word, Close, Count, MayFollow, Blocks.AbsoluteFlag, Flags, Spans;
  }

  /** The flags of every run are a word of (0* START MID* END)*, possibly cut short. */
  lemma {:induction false} FlagsAreWord(interval: int, blocks: seq<Block>)
    ensures FlagsTell(RunAll(interval, blocks)) && |RunAll(interval, blocks).flags| == |blocks|
  {
    if blocks != [] {
      var n := |blocks| - 1;
      FlagsAreWord(interval, blocks[..n]);
      var run := RunAll(interval, blocks[..n]);
      var r := Decide(run.m, interval, blocks[n], run.m.totalBlocks + 1);
      UpdateParts(run.m, interval, r, blocks[n], run.m.totalBlocks + 1);
      FlagsStep(run, r, blocks[n], Update(run.m, interval, r, blocks[n], run.m.totalBlocks + 1));
      hide FlagsTell, Decide, Update, Flags, Advanced;
    } else {
      assert Spans([]) == [];
    }
  }

  // ---- totals -------------------------------------------------------------

  function SumOf(blocks: seq<Block>, routes: seq<Route>, r: Route): Totals
    requires |blocks| == |routes|
  {
    if blocks == [] then Totals(0, 0, 0)
    else
      var n := |blocks| - 1;
      var t := SumOf(blocks[..n], routes[..n], r);
      if routes[n] == r then Count(t, blocks[n]) else t
  }

  function BytesIn(blocks: seq<Block>): nat
  {
    if blocks == [] then 0 else BytesIn(blocks[..|blocks| - 1]) + blocks[|blocks| - 1].payloadIn
  }

  function BytesOut(blocks: seq<Block>): nat
  {
    if blocks == [] then 0
    else BytesOut(blocks[..|blocks| - 1]) + blocks[|blocks| - 1].payloadOut + blocks[|blocks| - 1].headerBytes
  }

  /** Core and quarantine totals are the sums over the blocks routed there, together they account for every
      block and byte, and the quarantined blocks are the ones flagged so. */
  ghost predicate Partitioned(run: Run, blocks: seq<Block>)
  {
    && |run.routes| == |blocks|
    && run.m.core == SumOf(blocks, run.routes, Core) && run.m.quar == SumOf(blocks, run.routes, Quarantine)
    && run.m.core.blocks + run.m.quar.blocks == |blocks|
    && run.m.core.inputBytes + run.m.quar.inputBytes == BytesIn(blocks)
    && run.m.core.outputBytes + run.m.quar.outputBytes == BytesOut(blocks)
    && run.m.quar.blocks == Quarantined(run.flags)
  }

  lemma SumSnoc(blocks: seq<Block>, routes: seq<Route>, b: Block, x: Route, r: Route)
    requires |blocks| == |routes|
    ensures SumOf(blocks + [b], routes + [x], r)
         == if x == r then Count(SumOf(blocks, routes, r), b) else SumOf(blocks, routes, r)
  {
    assert (blocks + [b])[..|blocks|] == blocks && (routes + [x])[..|blocks|] == routes;
  }

  lemma BytesSnoc(blocks: seq<Block>, b: Block)
    ensures BytesIn(blocks + [b]) == BytesIn(blocks) + b.payloadIn
    ensures BytesOut(blocks + [b]) == BytesOut(blocks) + b.payloadOut + b.headerBytes
  {
    assert (blocks + [b])[..|blocks|] == blocks;
  }

  lemma QuarantinedSnoc(flags: seq<byte>, mode: Mode, r: Route)
    ensures Quarantined(flags + [Flags(mode, r)]) == Quarantined(flags) + if r == Quarantine then 1 else 0
  {
    assert (flags + [Flags(mode, r)])[..|flags|] == flags;
  }

  lemma PartitionStep(run: Run, blocks: seq<Block>, r: Route, b: Block, n: Monitor)
    requires Partitioned(run, blocks) && Advanced(run.m, r, b, run.m.totalBlocks + 1, n)
    ensures Partitioned(Run(n, run.flags + [Flags(run.m.mode, r)], run.routes + [r]), blocks + [b])
  {
    SumSnoc(blocks, run.routes, b, r, Core);
    SumSnoc(blocks, run.routes, b, r, Quarantine);
    BytesSnoc(blocks, b);
    QuarantinedSnoc(run.flags, run.m.mode, r);
    hide Close, SumOf, BytesIn, BytesOut, Quarantined, Flags;
  }

  lemma {:induction false} TotalsPartition(interval: int, blocks: seq<Block>)
    ensures Partitioned(RunAll(interval, blocks), blocks)
  {
    if blocks != [] {
      var n := |blocks| - 1;
      assert blocks == blocks[..n] + [blocks[n]];
      TotalsPartition(interval, blocks[..n]);
      var run := RunAll(interval, blocks[..n]);
      var r := Decide(run.m, interval, blocks[n], run.m.totalBlocks + 1);
      UpdateParts(run.m, interval, r, blocks[n], run.m.totalBlocks + 1);
      PartitionStep(run, blocks[..n], r, blocks[n], Update(run.m, interval, r, blocks[n], run.m.totalBlocks + 1));
      hide Partitioned, Decide, Update, Flags, Advanced;
    }
  }

  // ---- recovery -----------------------------------------------------------

  function ProbesAfter(seen: seq<bool>, m: Monitor, interval: int, r: Route, b: Block): seq<bool>
  {
    if m.mode != QuarantineActive || r == Core then []
    else if !Probes(m.totalBlocks + 1, interval) then seen
    else seen + [Ratio(b) >= RecoveryThreshold(m)]
  }

  /** The probes of the quarantine a run ends in, good or bad, in order. */
  function ProbesSeen(interval: int, blocks: seq<Block>): seq<bool>
  {
    if blocks == [] then []
    else
      var n := |blocks| - 1;
      var m := RunAll(interval, blocks[..n]).m;
      ProbesAfter(ProbesSeen(interval, blocks[..n]), m, interval, Decide(m, interval, blocks[n], m.totalBlocks + 1), blocks[n])
  }

  function Streak(probes: seq<bool>): nat
  {
    if probes == [] || !probes[|probes| - 1] then 0 else 1 + Streak(probes[..|probes| - 1])
  }

  predicate StreakOk(m: Monitor, seen: seq<bool>)
  {
    m.recoveryCounter == Streak(seen) && (m.mode == Normal ==> seen == [])
  }

  lemma StreakStep(m: Monitor, interval: int, r: Route, b: Block, seen: seq<bool>)
    requires StreakOk(m, seen)
    ensures StreakOk(Update(m, interval, r, b, m.totalBlocks + 1), ProbesAfter(seen, m, interval, r, b))
  {
    UpdateCounter(m, interval, r, b, m.totalBlocks + 1);
    UpdateParts(m, interval, r, b, m.totalBlocks + 1);
    hide Update, Ratio, RecoveryThreshold, Probes, Close, Count;
    var good := Ratio(b) >= RecoveryThreshold(m);
    assert (seen + [good])[..|seen|] == seen;
  }

  lemma SeenLast(interval: int, blocks: seq<Block>)
    requires blocks != []
    ensures var n := |blocks| - 1;
            var m := RunAll(interval, blocks[..n]).m;
            var r := Decide(m, interval, blocks[n], m.totalBlocks + 1);
            && RunAll(interval, blocks).m == Update(m, interval, r, blocks[n], m.totalBlocks + 1)
            && ProbesSeen(interval, blocks) == ProbesAfter(ProbesSeen(interval, blocks[..n]), m, interval, r, blocks[n])
  {
    hide Decide, Update, ProbesAfter, Flags;
  }

  /** The recovery counter is the length of the latest streak of good probes. */
  lemma {:induction false} CounterIsStreak(interval: int, blocks: seq<Block>)
    ensures StreakOk(RunAll(interval, blocks).m, ProbesSeen(interval, blocks))
  {
    hide *;
    if blocks == [] {
      EmptyStreak(interval);
    } else {
      var n := |blocks| - 1;
      var m := RunAll(interval, blocks[..n]).m;
      var r := Decide(m, interval, blocks[n], m.totalBlocks + 1);
      CounterIsStreak(interval, blocks[..n]);
      SeenLast(interval, blocks);
      StreakStep(m, interval, r, blocks[n], ProbesSeen(interval, blocks[..n]));
    }
  }

  lemma EmptyStreak(interval: int)
    ensures StreakOk(RunAll(interval, []).m, ProbesSeen(interval, []))
  {
  }

  /** In quarantine the baseline stands still at its frozen value, so every probe is held to one threshold. */
  lemma {:induction false} BaselineFrozen(interval: int, blocks: seq<Block>)
    ensures var m := RunAll(interval, blocks).m;
            && m.frozen == (if m.mode == Normal then None else Some(m.baselineRatio))
            && Reference(m) == m.baselineRatio
  {
    if blocks != [] {
      var n := |blocks| - 1;
      var m := RunAll(interval, blocks[..n]).m;
      BaselineFrozen(interval, blocks[..n]);
      var r := Decide(m, interval, blocks[n], m.totalBlocks + 1);
      UpdateParts(m, interval, r, blocks[n], m.totalBlocks + 1);
      UpdateBaseline(m, interval, r, blocks[n], m.totalBlocks + 1);
      hide Decide, Update, Ratio, Abs, Close, Count;
    }
  }

  lemma ThresholdConstant(interval: int, blocks: seq<Block>, b: Block)
    requires RunAll(interval, blocks).m.mode == QuarantineActive == RunAll(interval, blocks + [b]).m.mode
    ensures RecoveryThreshold(RunAll(interval, blocks + [b]).m) == RecoveryThreshold(RunAll(interval, blocks).m)
  {
    var m := RunAll(interval, blocks).m;
    BaselineFrozen(interval, blocks);
    BaselineFrozen(interval, blocks + [b]);
    LastStep(interval, blocks, b);
    var r := Decide(m, interval, b, m.totalBlocks + 1);
    UpdateParts(m, interval, r, b, m.totalBlocks + 1);
    UpdateBaseline(m, interval, r, b, m.totalBlocks + 1);
    hide Decide, Update, Ratio, Abs, Close, Count, RunAll;
  }

  /** The open quarantine is as old as its good probes take. */
  ghost predicate Paced(m: Monitor, interval: int, lastProbe: nat)
  {
    m.mode == QuarantineActive ==>
      && m.anomalies != []
      && var a := m.anomalies[|m.anomalies| - 1];
         && a.end == None && a.start <= m.totalBlocks
         && (m.recoveryCounter > 0 ==>
               && Probes(lastProbe, interval) && lastProbe <= m.totalBlocks
               && a.start + 1 + (m.recoveryCounter - 1) * Width(interval) <= lastProbe)
  }

  predicate Spaced(anomalies: seq<Anomaly>, interval: int)
  {
    forall i :: 0 <= i < |anomalies| && anomalies[i].end.Some? ==>
      interval != 0 && anomalies[i].end.value - anomalies[i].start >= 2 * Width(interval) + 1
  }

  lemma NextMultiple(p: nat, q: nat, w: nat)
    requires w > 0 && p % w == 0 && q % w == 0 && p < q
    ensures q >= p + w
  {
    var x, y := p / w, q / w;
    assert p == x * w && q == y * w;
    if y <= x {
      MulOrder(y, x, w);
      assert false;
    }
    MulOrder(x + 1, y, w);
    assert (x + 1) * w == x * w + w;
  }

  lemma MulOrder(a: int, b: int, k: nat)
    requires a <= b
    ensures a * k <= b * k
  {
  }

  /** One update of the pace, given what the route and the counter do. */
  lemma PaceUpdate(m: Monitor, interval: int, r: Route, b: Block, n: Monitor, lastProbe: nat) returns (probe: nat)
    requires Paced(m, interval, lastProbe) && Spaced(m.anomalies, interval)
    requires Advanced(m, r, b, m.totalBlocks + 1, n)
    requires m.mode == QuarantineActive && r == Core ==>
               Probes(m.totalBlocks + 1, interval) && m.recoveryCounter + 1 >= RECOVERY_BLOCKS
    requires n.recoveryCounter == m.recoveryCounter || n.recoveryCounter == 0
          || (n.recoveryCounter == m.recoveryCounter + 1 && Probes(m.totalBlocks + 1, interval))
    requires m.mode == Normal || r == Core ==> n.recoveryCounter == 0
    ensures Paced(n, interval, probe) && Spaced(n.anomalies, interval)
  {
    hide Count;
    probe := lastProbe;
    var index, w, k := m.totalBlocks + 1, Width(interval), m.recoveryCounter;
    if m.mode == QuarantineActive && Probes(index, interval) {
      if k > 0 {
        NextMultiple(lastProbe, index, w);
        assert k * w == (k - 1) * w + w;
      }
      if r == Core {
        MulOrder(2, k, w);
      } else if n.recoveryCounter == k + 1 {
        probe := index;
      }
    }
    hide Width, Probes;
  }

  lemma PaceStep(m: Monitor, interval: int, b: Block, lastProbe: nat) returns (probe: nat)
    requires Paced(m, interval, lastProbe) && Spaced(m.anomalies, interval)
    requires m.mode == Normal ==> m.recoveryCounter == 0
    ensures var n := Update(m, interval, Decide(m, interval, b, m.totalBlocks + 1), b, m.totalBlocks + 1);
            Paced(n, interval, probe) && Spaced(n.anomalies, interval)
  {
    var r := Decide(m, interval, b, m.totalBlocks + 1);
    UpdateParts(m, interval, r, b, m.totalBlocks + 1);
    UpdateCounter(m, interval, r, b, m.totalBlocks + 1);
    hide Update, Advanced, Ratio, RecoveryThreshold, IsAnomaly, EntropyGate, Paced, Spaced, Probes;
    probe := PaceUpdate(m, interval, r, b, Update(m, interval, r, b, m.totalBlocks + 1), lastProbe);
  }

  lemma NormalCounter(interval: int, blocks: seq<Block>)
    ensures RunAll(interval, blocks).m.mode == Normal ==> RunAll(interval, blocks).m.recoveryCounter == 0
  {
    CounterIsStreak(interval, blocks);
    assert Streak([]) == 0;
    hide RunAll, Streak;
  }

  lemma NothingPaced(interval: int)
    ensures Spaced(RunAll(interval, []).m.anomalies, interval) && Paced(RunAll(interval, []).m, interval, 0)
  {
  }

  /** Every completed quarantine spans at least two probe intervals and one block; with an interval of zero
      none ever completes. */
  lemma {:induction false} QuarantineSpan(interval: int, blocks: seq<Block>) returns (lastProbe: nat)
    ensures Spaced(RunAll(interval, blocks).m.anomalies, interval)
    ensures Paced(RunAll(interval, blocks).m, interval, lastProbe)
  {
    hide *;
    if blocks == [] {
      lastProbe := 0;
      NothingPaced(interval);
    } else {
      var front, b := blocks[..|blocks| - 1], blocks[|blocks| - 1];
      assert blocks == front + [b];
      var before := QuarantineSpan(interval, front);
      NormalCounter(interval, front);
      lastProbe := PaceStep(RunAll(interval, front).m, interval, b, before);
      Extended(interval, front, b);
    }
  }

  lemma Extended(interval: int, blocks: seq<Block>, b: Block)
    ensures var m := RunAll(interval, blocks).m;
            var r := Decide(m, interval, b, m.totalBlocks + 1);
            RunAll(interval, blocks + [b]).m == Update(m, interval, r, b, m.totalBlocks + 1)
  {
    LastStep(interval, blocks, b);
    hide RunAll, Decide, Update, Flags;
  }

  // ---- when a quarantine can end ------------------------------------------

  /** A quarantined block is written as FIXED64: as many bytes as came in. */
  predicate FixedWhenQuarantined(interval: int, blocks: seq<Block>)
  {
    if blocks == [] then true
    else
      var n := |blocks| - 1;
      var m := RunAll(interval, blocks[..n]).m;
      && FixedWhenQuarantined(interval, blocks[..n])
      && (Decide(m, interval, blocks[n], m.totalBlocks + 1) == Quarantine ==> Plain(blocks[n]))
  }

  predicate Plain(b: Block) { b.payloadIn == b.payloadOut > 0 }

  lemma PlainRatio(b: Block)
    ensures Plain(b) ==> Ratio(b) == 1.0
  {
  }

  lemma FixedSnoc(interval: int, blocks: seq<Block>, b: Block)
    ensures FixedWhenQuarantined(interval, blocks + [b])
       <==> FixedWhenQuarantined(interval, blocks)
            && (Decide(RunAll(interval, blocks).m, interval, b, RunAll(interval, blocks).m.totalBlocks + 1) == Quarantine
                ==> Plain(b))
  {
    hide RunAll, Decide, Plain;
    assert (blocks + [b])[..|blocks|] == blocks;
  }

  /** What one more block does to a quarantine. */
  lemma QuarantineStep(interval: int, blocks: seq<Block>, b: Block)
    requires RunAll(interval, blocks).m.mode == QuarantineActive
    ensures var m, n := RunAll(interval, blocks).m, RunAll(interval, blocks + [b]).m;
            var r := Decide(m, interval, b, m.totalBlocks + 1);
            && n.mode == (if r == Core then Normal else QuarantineActive) && n.totalBlocks == m.totalBlocks + 1
            && (r == Core <==> !EntropyGate(b) && Probes(m.totalBlocks + 1, interval)
                               && b.probeRatio >= RecoveryThreshold(m) && m.recoveryCounter + 1 >= RECOVERY_BLOCKS)
            && (r == Quarantine ==>
                  RecoveryThreshold(n) == RecoveryThreshold(m)
                  && n.recoveryCounter == (if !Probes(m.totalBlocks + 1, interval) then m.recoveryCounter
                                           else if Ratio(b) >= RecoveryThreshold(m) then m.recoveryCounter + 1 else 0))
  {
    var m := RunAll(interval, blocks).m;
    var r := Decide(m, interval, b, m.totalBlocks + 1);
    LastStep(interval, blocks, b);
    UpdateParts(m, interval, r, b, m.totalBlocks + 1);
    UpdateCounter(m, interval, r, b, m.totalBlocks + 1);
    hide RunAll, EntropyGate, Ratio, RecoveryThreshold, Probes, Update, Count, Close;
    if r == Quarantine {
      ThresholdConstant(interval, blocks, b);
    }
  }

  lemma StartsAtZero(interval: int, blocks: seq<Block>, b: Block)
    requires RunAll(interval, blocks).m.mode == Normal && RunAll(interval, blocks + [b]).m.mode == QuarantineActive
    ensures RunAll(interval, blocks + [b]).m.recoveryCounter == 0
  {
    var m := RunAll(interval, blocks).m;
    var r := Decide(m, interval, b, m.totalBlocks + 1);
    LastStep(interval, blocks, b);
    UpdateParts(m, interval, r, b, m.totalBlocks + 1);
    UpdateCounter(m, interval, r, b, m.totalBlocks + 1);
    hide RunAll, EntropyGate, Ratio, RecoveryThreshold, Probes, Update, Count, Close, Decide;
  }

  /** A quarantine whose threshold is above 1 has never seen a good probe. */
  lemma {:induction false} NoGoodProbe(interval: int, blocks: seq<Block>)
    requires FixedWhenQuarantined(interval, blocks)
    requires RunAll(interval, blocks).m.mode == QuarantineActive && RecoveryThreshold(RunAll(interval, blocks).m) > 1.0
    ensures RunAll(interval, blocks).m.recoveryCounter == 0
  {
    hide *;
    if blocks == [] {
      EmptyRun(interval);
    } else {
      var front, b := blocks[..|blocks| - 1], blocks[|blocks| - 1];
      assert blocks == front + [b];
      FixedSnoc(interval, front, b);
      if RunAll(interval, front).m.mode == Normal {
        StartsAtZero(interval, front, b);
      } else {
        QuarantineStep(interval, front, b);
        NoGoodProbe(interval, front);
        PlainRatio(b);
      }
    }
  }

  lemma EmptyRun(interval: int)
    ensures RunAll(interval, []) == Run(NewMonitor(), [], []) && NewMonitor().recoveryCounter == 0
  {
  }

  lemma {:induction false} NeverEnds(interval: int, blocks: seq<Block>, more: seq<Block>)
    requires FixedWhenQuarantined(interval, blocks + more)
    requires RunAll(interval, blocks).m.mode == QuarantineActive && RecoveryThreshold(RunAll(interval, blocks).m) > 1.0
    ensures RunAll(interval, blocks + more).m.mode == QuarantineActive
    ensures RecoveryThreshold(RunAll(interval, blocks + more).m) == RecoveryThreshold(RunAll(interval, blocks).m)
  {
    hide RunAll, RecoveryThreshold, Decide, FixedWhenQuarantined, Probes, EntropyGate;
    if more == [] {
      assert blocks + more == blocks;
    } else {
      var n := |more| - 1;
      assert blocks + more == blocks + more[..n] + [more[n]];
      FixedSnoc(interval, blocks + more[..n], more[n]);
      NeverEnds(interval, blocks, more[..n]);
      NoGoodProbe(interval, blocks + more[..n]);
      QuarantineStep(interval, blocks + more[..n], more[n]);
    }
  }

  lemma NextRemainder(t: nat, w: nat)
    requires w > 0
    ensures (t + 1) % w == if t % w == w - 1 then 0 else t % w + 1
  {
    var q, r := t / w, t % w;
    assert t == q * w + r;
    if r == w - 1 {
      assert t + 1 == (q + 1) * w + 0;
      Remainder(t + 1, q + 1, 0, w);
    } else {
      Remainder(t + 1, q, r + 1, w);
    }
  }

  lemma Remainder(n: nat, q: nat, r: nat, w: nat)
    requires r < w && n == q * w + r
    ensures n % w == r
  {
    var p, s := n / w, n % w;
    assert n == p * w + s && 0 <= s < w;
    MulGap(p, q, w);
    MulGap(q, p, w);
  }

  lemma MulGap(a: int, b: int, k: nat)
    ensures a < b ==> a * k + k <= b * k
  {
    if a < b {
      MulOrder(a + 1, b, k);
      assert (a + 1) * k == a * k + k;
    }
  }

  /** Blocks until the next probe. */
  function ToProbe(total: nat, w: nat): nat
    requires w > 0
  {
    if (total + 1) % w == 0 then 0 else w - (total + 1) % w
  }

  lemma {:induction false} NeverProbed(interval: int, blocks: seq<Block>, more: seq<Block>)
    requires interval == 0 && RunAll(interval, blocks).m.mode == QuarantineActive
    ensures RunAll(interval, blocks + more).m.mode == QuarantineActive
  {
    hide RunAll, RecoveryThreshold, Decide, EntropyGate;
    if more == [] {
      assert blocks + more == blocks;
    } else {
      var n := |more| - 1;
      assert blocks + more == blocks + more[..n] + [more[n]];
      NeverProbed(interval, blocks, more[..n]);
      QuarantineStep(interval, blocks + more[..n], more[n]);
    }
  }

  // ---- no false alarm -----------------------------------------------------

  lemma {:induction false} DeviationNonNegative(interval: int, blocks: seq<Block>)
    ensures RunAll(interval, blocks).m.baselineDev >= 0.0 && RunAll(interval, blocks).m.baselineRatio >= 0.0
  {
    if blocks != [] {
      var n := |blocks| - 1;
      var m := RunAll(interval, blocks[..n]).m;
      DeviationNonNegative(interval, blocks[..n]);
      RatioNonNegative(blocks[n]);
      UpdateBaseline(m, interval, Decide(m, interval, blocks[n], m.totalBlocks + 1), blocks[n], m.totalBlocks + 1);
      hide Decide, Update, Ratio;
    }
  }

  lemma RatioNonNegative(b: Block)
    ensures Ratio(b) >= 0.0
  {
  }

  /** A block that compresses at least as well as the baseline and is not near-random stays in core. */
  lemma AtBaselineStaysCore(interval: int, blocks: seq<Block>, b: Block)
    requires RunAll(interval, blocks).m.mode == Normal
    requires b.probeRatio >= RunAll(interval, blocks).m.baselineRatio
    ensures RunAll(interval, blocks + [b]).m.mode == Normal <==> !EntropyGate(b)
  {
    DeviationNonNegative(interval, blocks);
    var m := RunAll(interval, blocks).m;
    assert AnomalyThreshold(m) <= m.baselineRatio;
    LastStep(interval, blocks, b);
    UpdateParts(m, interval, Decide(m, interval, b, m.totalBlocks + 1), b, m.totalBlocks + 1);
    hide RunAll, AnomalyThreshold, EntropyGate, Update, Close, Count;
  }

  /** A block that compresses to less than a tenth of the baseline is quarantined, however much the baseline varies; and
      so is one below the baseline that is more than half numbers of its own and half as varied again as usual. */
  lemma CollapseIsQuarantined(interval: int, blocks: seq<Block>, b: Block)
    requires b.probeRatio < RunAll(interval, blocks).m.baselineRatio
    requires var m := RunAll(interval, blocks).m;
             b.probeRatio < 0.1 * m.baselineRatio || (b.uniqueRatio > 0.5 && b.uniqueRatio > 1.5 * m.baselineUnique)
    requires RunAll(interval, blocks).m.mode == Normal
    ensures RunAll(interval, blocks + [b]).m.mode == QuarantineActive
  {
    var m := RunAll(interval, blocks).m;
    assert AnomalyThreshold(m) >= 0.1 * m.baselineRatio;
    assert IsAnomaly(m, b.probeRatio, b.uniqueRatio);
    LastStep(interval, blocks, b);
    UpdateParts(m, interval, Decide(m, interval, b, m.totalBlocks + 1), b, m.totalBlocks + 1);
    hide RunAll, AnomalyThreshold, IsAnomaly, EntropyGate, Update, Close, Count;
  }

  /** In any state, a block that compresses better and varies no more than one left in core is left in core. */
  lemma RouteMonotone(m: Monitor, interval: int, a: Block, b: Block, index: nat)
    requires Decide(m, interval, a, index) == Core && b.probeRatio >= a.probeRatio
    requires b.uniqueRatio <= a.uniqueRatio && b.uniqueDeltaRatio <= a.uniqueDeltaRatio
    ensures Decide(m, interval, b, index) == Core
  {
  }

  // ---- the class ----------------------------------------------------------

  class HealthMonitor {
    const probeInterval: int
    var mode: Mode
    var baselineRatio: real
    var baselineRatioDev: real
    var baselineUniqueRatioProxy: real
    var frozenBaselineRatio: Option<real>
    var totalBlocks: nat
    var recoveryCounter: nat
    var core: Totals
    var quar: Totals
    var anomalies: seq<Anomaly>

    ghost function Now(): Monitor
      reads this
    {
      Monitor(mode, baselineRatio, baselineRatioDev, baselineUniqueRatioProxy, frozenBaselineRatio, totalBlocks,
              recoveryCounter, core, quar, anomalies)
    }

    constructor (probeInterval: int)
      ensures Now() == NewMonitor() && this.probeInterval == probeInterval
    {
      this.probeInterval := probeInterval;
      mode, baselineRatio, baselineRatioDev, baselineUniqueRatioProxy := Normal, 2.0, 0.5, 0.5;
      frozenBaselineRatio, totalBlocks, recoveryCounter := None, 0, 0;
      core, quar, anomalies := Totals(0, 0, 0), Totals(0, 0, 0), [];
    }

    method CheckRecoveryCriteria(probeRatio: real) returns (good: bool)
      ensures good == (probeRatio >= RecoveryThreshold(Now()))
    {
      var referenceRatio := baselineRatio;
      if frozenBaselineRatio.Some? && frozenBaselineRatio.value != 0.0 {
        referenceRatio := frozenBaselineRatio.value;
      }
      var effectiveDev := if baselineRatioDev > 0.1 then baselineRatioDev else 0.1;
      good := probeRatio >= referenceRatio - 10.0 * effectiveDev;
    }

    method DetectAnomaly(currentRatio: real, uniqueRatio: real) returns (anomaly: bool)
      ensures anomaly == IsAnomaly(Now(), currentRatio, uniqueRatio)
    {
      var expectedRatio := baselineRatio;
      if mode == QuarantineActive && frozenBaselineRatio.Some? && frozenBaselineRatio.value != 0.0 {
        expectedRatio := frozenBaselineRatio.value;
      }
      var effectiveDev := baselineRatioDev;
      if effectiveDev * 3.0 > expectedRatio * 0.9 {
        effectiveDev := expectedRatio * 0.9 / 3.0;
      }
      var threshold := expectedRatio - 3.0 * effectiveDev;
      var isEntropyBurst := uniqueRatio > baselineUniqueRatioProxy * 1.5 && uniqueRatio > 0.5
                            && currentRatio < expectedRatio;
      anomaly := currentRatio < threshold || isEntropyBurst;
    }

    method DecideRoute(b: Block, blockIndex: nat) returns (r: Route)
      ensures r == Decide(Now(), probeInterval, b, blockIndex)
    {
      hide IsAnomaly, RecoveryThreshold, Probes;
      if b.uniqueRatio > 0.85 && b.uniqueDeltaRatio > 0.85 {
        return Quarantine;
      }
      if mode == Normal {
        var anomaly := DetectAnomaly(b.probeRatio, b.uniqueRatio);
        return if anomaly then Quarantine else Core;
      }
      var shouldProbe := Probes(blockIndex, probeInterval);
      if !shouldProbe {
        return Quarantine;
      }
      var isGood := CheckRecoveryCriteria(b.probeRatio);
      return if isGood && recoveryCounter + 1 >= RECOVERY_BLOCKS then Core else Quarantine;
    }

    method UpdateBlock(r: Route, b: Block, blockIndex: nat) returns (flags: byte)
      modifies this
      ensures Now() == Update(old(Now()), probeInterval, r, b, blockIndex)
      ensures flags == Flags(old(mode), r)
    {
      hide RecoveryThreshold, Probes, Close, Ratio, Abs;
      totalBlocks := totalBlocks + 1;
      if r == Core {
        core := Count(core, b);
      } else {
        quar := Count(quar, b);
      }
      var currentRatio := Ratio(b);
      var wasNormal := mode == Normal;
      flags := UpdateStateLogic(r, currentRatio, blockIndex);
      if r == Core && wasNormal && b.uniqueRatio <= 0.8 {
        TrainBaseline(currentRatio, b.uniqueRatio);
      }
    }

    method UpdateStateLogic(r: Route, currentRatio: real, blockIndex: nat) returns (flags: byte)
      modifies this`mode, this`frozenBaselineRatio, this`recoveryCounter, this`anomalies
      ensures Now() == UpdateMode(old(Now()), probeInterval, r, currentRatio, blockIndex)
      ensures flags == Flags(old(mode), r)
    {
      hide RecoveryThreshold, Probes, Close;
      flags := 0;
      if mode == Normal {
        if r == Quarantine {
          mode, frozenBaselineRatio, recoveryCounter := QuarantineActive, Some(baselineRatio), 0;
          flags := ANOMALY_START + HEALTH_QUAR;
          anomalies := anomalies + [Anomaly(blockIndex, None)];
        }
      } else if r == Core {
        mode, frozenBaselineRatio, recoveryCounter := Normal, None, 0;
        flags := ANOMALY_END;
        anomalies := Close(anomalies, blockIndex);
      } else {
        if Probes(blockIndex, probeInterval) {
          var isGood := CheckRecoveryCriteria(currentRatio);
          recoveryCounter := if isGood then recoveryCounter + 1 else 0;
        }
        flags := ANOMALY_MID + HEALTH_QUAR;
      }
    }

    method TrainBaseline(currentRatio: real, uniqueRatio: real)
      requires uniqueRatio <= 0.8
      modifies this`baselineRatio, this`baselineRatioDev, this`baselineUniqueRatioProxy
      ensures Now() == Train(old(Now()), true, Core, currentRatio, uniqueRatio)
    {
      if totalBlocks <= 1 {
        baselineRatio, baselineRatioDev, baselineUniqueRatioProxy := currentRatio, currentRatio * 0.1, uniqueRatio;
      } else {
        var prevBaseline := baselineRatio;
        baselineRatio := 0.1 * currentRatio + 0.9 * baselineRatio;
        baselineRatioDev := 0.1 * Abs(currentRatio - prevBaseline) + 0.9 * baselineRatioDev;
        baselineUniqueRatioProxy := 0.1 * uniqueRatio + 0.9 * baselineUniqueRatioProxy;
      }
    }
  }
}
