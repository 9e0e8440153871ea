/** encodeSegment and processCoreComponents (src/gics/encode.ts): snapshots to columns, columns cut into blocks,
    every block coded on the one context of the segment. */
module Pipeline {
  import opened Bytes
  import opened Context
  import opened Blocks
  import opened Drivers
  import FieldMath
  import opened Snapshots
  import opened Layout
  import opened SegmentCodec
  import Health

  predicate InBounds(c: Columns)
  {
    Within(c.times, INPUT_BOUND) && Within(c.lengths, INPUT_BOUND) && Within(c.ids, INPUT_BOUND)
    && Within(c.prices, INPUT_BOUND) && Within(c.quantities, INPUT_BOUND)
  }

  function Max(a: nat, b: nat): nat { if a > b then a else b }

  /** getItemAlignedBlockSize */
  function ItemAligned(blockSize: nat, snapshotsPerItem: nat): (size: nat)
    requires blockSize >= 1
    ensures size >= 1
  {
    if snapshotsPerItem == 0 then blockSize
    else if snapshotsPerItem >= blockSize then snapshotsPerItem
    else Max(snapshotsPerItem, blockSize / snapshotsPerItem * snapshotsPerItem)
  }

  /** Aligned blocks hold whole items, all of one item at least, and are the largest such not above the block size
      if there is any. */
  lemma AlignedWhole(blockSize: nat, snapshotsPerItem: nat)
    requires blockSize >= 1 && snapshotsPerItem >= 1
    ensures ItemAligned(blockSize, snapshotsPerItem) % snapshotsPerItem == 0
    ensures snapshotsPerItem <= ItemAligned(blockSize, snapshotsPerItem)
    ensures snapshotsPerItem <= blockSize ==>
              blockSize - snapshotsPerItem < ItemAligned(blockSize, snapshotsPerItem) <= blockSize
    ensures snapshotsPerItem >= blockSize ==> ItemAligned(blockSize, snapshotsPerItem) == snapshotsPerItem
  {
    var q := blockSize / snapshotsPerItem;
    Multiple(1, snapshotsPerItem);
    if snapshotsPerItem < blockSize {
      assert blockSize == q * snapshotsPerItem + blockSize % snapshotsPerItem;
      Multiple(q, snapshotsPerItem);
    }
  }

  lemma Multiple(q: nat, n: nat)
    requires n >= 1
    ensures (q * n) % n == 0 && (q >= 1 ==> q * n >= n)
  {
    Health.Remainder(q * n, q, 0, n);
    if q >= 1 {
      Health.MulOrder(1, q, n);
    }
  }

  /** The block size of the streams with one number per item. */
  function ItemBlockSize(f: Features, blockSize: nat): (size: nat)
    requires blockSize >= 1
    ensures size >= 1
  {
    if f.itemMajor then ItemAligned(blockSize, |f.columns.lengths|) else blockSize
  }

  /** Blocks of one size, but for a shorter last one. */
  predicate CutAt(parts: seq<Part>, size: nat)
  {
    && (forall i :: 0 <= i < |parts| - 1 ==> |parts[i].chunk| == size)
    && (parts != [] ==> 1 <= |parts[|parts| - 1].chunk| <= size)
  }

  /** How processCoreComponents cuts: TIME and SNAPSHOT_LEN at the block size, the others at whole items when they
      are laid out by item. */
  predicate CutLike(plan: Plan, f: Features, blockSize: nat)
    requires blockSize >= 1
  {
    var aligned := ItemBlockSize(f, blockSize);
    && CutAt(plan.time, blockSize) && CutAt(plan.lengths, blockSize)
    && CutAt(plan.ids, aligned) && CutAt(plan.values, aligned) && CutAt(plan.quantities, aligned)
  }

  /** The cut so far: full blocks until the column is used up. */
  ghost predicate Cutting(parts: seq<Part>, size: nat, done: bool)
  {
    CutAt(parts, size) && (!done ==> forall i :: 0 <= i < |parts| ==> |parts[i].chunk| == size)
  }

  lemma CuttingDone(parts: seq<Part>, size: nat, done: bool)
    requires Cutting(parts, size, done)
    ensures CutAt(parts, size)
  {
  }

  lemma NothingCut(size: nat)
    ensures Cutting([], size, false) && Cutting([], size, true)
  {
  }

  lemma CuttingStep(parts: seq<Part>, p: Part, size: nat, done: bool)
    requires Cutting(parts, size, false) && 1 <= |p.chunk| <= size && (!done ==> |p.chunk| == size)
    ensures Cutting(parts + [p], size, done)
  {
  }

  lemma {:induction false} FlatSnoc(parts: seq<Part>, p: Part)
    ensures Flat(parts + [p]) == Flat(parts) + p.chunk
  {
    if parts == [] {
      assert [p][1..] == [] && Flat([]) == [];
      assert [] + [p] == [p];
    } else {
      FlatSnoc(parts[1..], p);
      assert (parts + [p])[1..] == parts[1..] + [p];
      assert parts[0].chunk + (Flat(parts[1..]) + p.chunk) == parts[0].chunk + Flat(parts[1..]) + p.chunk;
    }
  }

  lemma PartsOkSnoc(stream: Stream, parts: seq<Part>, p: Part, enabled: bool)
    requires PartsOk(stream, parts, enabled) && Possible(stream, p.choice, enabled)
    requires p.chunk != [] && Within(p.chunk, INPUT_BOUND)
    ensures PartsOk(stream, parts + [p], enabled)
  {
    hide Possible, Within;
  }

  lemma BlockKeepsBounds(stream: Stream, chunk: seq<int>, choice: Choice, ctx: Ctx)
    requires Within(chunk, INPUT_BOUND) && Bounded(ctx) && WellFormed(ctx.dict)
    ensures Within(FinalData(stream, chunk, choice, ctx), CODED_BOUND)
    ensures Bounded(EncodeBlock(stream, chunk, choice, ctx).1)
  {
    BlockInRange(stream, chunk, choice, ctx);
    hide EncodeInner, Within, FinalData, FieldMath.TimeDeltas;
  }

  lemma EncodeNone(stream: Stream, ctx: Ctx)
    requires Bounded(ctx) && WellFormed(ctx.dict)
    ensures EncodeBlocks(stream, [], ctx) == ([], ctx)
  {
  }

  lemma EncodeHead(stream: Stream, parts: seq<Part>, ctx: Ctx)
    requires PartsOk(stream, parts, ctx.dict.enabled) && Bounded(ctx) && WellFormed(ctx.dict) && parts != []
    ensures Within(FinalData(stream, parts[0].chunk, parts[0].choice, ctx), CODED_BOUND)
    ensures var (b, next) := EncodeBlock(stream, parts[0].chunk, parts[0].choice, ctx);
            && Bounded(next) && WellFormed(next.dict) && PartsOk(stream, parts[1..], next.dict.enabled)
            && var (rest, end) := EncodeBlocks(stream, parts[1..], next);
               EncodeBlocks(stream, parts, ctx) == ([b] + rest, end)
  {
    PartPossible(stream, parts, ctx.dict.enabled);
    hide EncodeBlock, FinalData, Bounded, WellFormed, Within, PartsOk;
    BlockKeepsBounds(stream, parts[0].chunk, parts[0].choice, ctx);
  }

  lemma {:induction false} EncodeBlocksSnoc(stream: Stream, parts: seq<Part>, p: Part, ctx: Ctx)
    requires PartsOk(stream, parts + [p], ctx.dict.enabled) && PartsOk(stream, parts, ctx.dict.enabled)
    requires Bounded(ctx) && WellFormed(ctx.dict)
    ensures var (bs, mid) := EncodeBlocks(stream, parts, ctx);
            && Within(FinalData(stream, p.chunk, p.choice, mid), CODED_BOUND)
            && var (b, end) := EncodeBlock(stream, p.chunk, p.choice, mid);
               EncodeBlocks(stream, parts + [p], ctx) == (bs + [b], end)
    decreases |parts|
  {
    hide EncodeBlock, EncodeBlocks, FinalData, Bounded, WellFormed, PartsOk, Within;
    var all := parts + [p];
    assert all[0] == if parts == [] then p else parts[0];
    EncodeHead(stream, all, ctx);
    if parts == [] {
      EncodeNone(stream, ctx);
      assert all[1..] == [];
      var (b, next) := EncodeBlock(stream, p.chunk, p.choice, ctx);
      EncodeNone(stream, next);
      assert [b] + [] == [b] && [] + [b] == [b];
    } else {
      var (b, next) := EncodeBlock(stream, parts[0].chunk, parts[0].choice, ctx);
      assert all[1..] == parts[1..] + [p];
      EncodeHead(stream, parts, ctx);
      EncodeBlocksSnoc(stream, parts[1..], p, next);
      var (rest, mid) := EncodeBlocks(stream, parts[1..], next);
      var last := EncodeBlock(stream, p.chunk, p.choice, mid).0;
      assert [b] + (rest + [last]) == ([b] + rest) + [last];
    }
  }

  /** The blocks so far are the encoding of the column so far. */
  ghost predicate Coding(stream: Stream, done: seq<int>, parts: seq<Part>, blocks: seq<Block>, before: Ctx, now: Ctx)
  {
    && Bounded(before) && WellFormed(before.dict) && PartsOk(stream, parts, before.dict.enabled)
    && Flat(parts) == done && EncodeBlocks(stream, parts, before) == (blocks, now)
  }

  lemma CodingStart(stream: Stream, ctx: Ctx)
    requires Bounded(ctx) && WellFormed(ctx.dict)
    ensures Coding(stream, [], [], [], ctx, ctx)
  {
  }

  lemma CodingParts(stream: Stream, done: seq<int>, parts: seq<Part>, blocks: seq<Block>, before: Ctx, now: Ctx)
    requires Coding(stream, done, parts, blocks, before, now)
    ensures Bounded(now) && WellFormed(now.dict) && now.dict.enabled == before.dict.enabled
  {
  }

  lemma CodingStep(stream: Stream, done: seq<int>, parts: seq<Part>, blocks: seq<Block>, before: Ctx, now: Ctx, p: Part)
    requires Coding(stream, done, parts, blocks, before, now)
    requires p.chunk != [] && Within(p.chunk, INPUT_BOUND) && Possible(stream, p.choice, before.dict.enabled)
    ensures Bounded(now) && WellFormed(now.dict) && Within(FinalData(stream, p.chunk, p.choice, now), CODED_BOUND)
    ensures var (b, next) := EncodeBlock(stream, p.chunk, p.choice, now);
            Coding(stream, done + p.chunk, parts + [p], blocks + [b], before, next)
  {
    hide EncodeBlocks, EncodeBlock, FinalData, Bounded, WellFormed, Possible, Within, PartsOk, Flat;
    PartsOkSnoc(stream, parts, p, before.dict.enabled);
    FlatSnoc(parts, p);
    EncodeBlocksSnoc(stream, parts, p, before);
  }

  /** slice(i, i + blockSize) */
  function Chunk(column: seq<int>, i: nat, blockSize: nat): (chunk: seq<int>)
    requires i < |column| && blockSize >= 1
    ensures chunk != [] && i + |chunk| <= |column| && column[..i] + chunk == column[..i + |chunk|]
    ensures |chunk| <= blockSize && (|chunk| == blockSize || i + |chunk| == |column|)
  {
    if i + blockSize <= |column| then column[i..i + blockSize] else column[i..]
  }

  lemma ChunkWithin(column: seq<int>, i: nat, blockSize: nat, bound: int)
    requires i < |column| && blockSize >= 1 && Within(column, bound)
    ensures Within(Chunk(column, i, blockSize), bound)
  {
  }

  /** No health flag is the absolute flag. */
  lemma HealthFlags(mode: Health.Mode, r: Health.Route)
    ensures !AbsoluteFlag(Health.Flags(mode, r))
  {
  }

  lemma RoutedPossible(stream: Stream, route: Health.Route, tried: Codec, mode: Health.Mode, enabled: bool)
    requires (stream == TIME || stream == VALUE) && tried in Candidates(stream, enabled)
    ensures Possible(stream, Routed(route, tried, Health.Flags(mode, route)), enabled)
  {
    HealthFlags(mode, route);
    hide AbsoluteFlag, Health.Flags, Candidates;
  }

  /** processTimeBlocks and processValueBlocks, on integers. */
  method ProcessMonitored(ctx: ContextV0, stream: Stream, column: seq<int>, blockSize: nat, chm: Health.HealthMonitor)
    returns (blocks: seq<Block>, ghost parts: seq<Part>)
    requires (stream == TIME || stream == VALUE) && blockSize >= 1 && Within(column, INPUT_BOUND)
    requires Bounded(ctx.State()) && WellFormed(ctx.State().dict)
    modifies ctx, chm
    ensures Coding(stream, column, parts, blocks, old(ctx.State()), ctx.State()) && CutAt(parts, blockSize)
  {
    hide Bounded, WellFormed, Within, EncodeBlock, Coding, Cutting, CutAt, Candidates, Selected, FinalData,
         Health.Decide, Health.Update, CoreSize, Reported, Routed;
    blocks, parts := [], [];
    CodingStart(stream, ctx.State());
    NothingCut(blockSize);
    var i := 0;
    assert column[..0] == [];
    while i < |column|
      invariant i <= |column| && Coding(stream, column[..i], parts, blocks, old(ctx.State()), ctx.State())
      invariant Cutting(parts, blockSize, i == |column|)
    {
      var chunk := Chunk(column, i, blockSize);
      ChunkWithin(column, i, blockSize, INPUT_BOUND);
      ghost var now, m := ctx.State(), chm.Now();
      CodingParts(stream, column[..i], parts, blocks, old(ctx.State()), now);
      var b, tried := ProcessStreamBlock(ctx, stream, chunk, chm);
      ghost var report := Reported(chunk, CoreSize(stream, chunk, tried, now), |b.payload|);
      ghost var route := Health.Decide(m, chm.probeInterval, report, m.totalBlocks + 1);
      ghost var p := Part(chunk, Routed(route, tried, Health.Flags(m.mode, route)));
      RoutedPossible(stream, route, tried, m.mode, ctx.enabled);
      CodingStep(stream, column[..i], parts, blocks, old(ctx.State()), now, p);
      CuttingStep(parts, p, blockSize, i + |chunk| == |column|);
      blocks, parts := blocks + [b], parts + [p];
      i := i + |chunk|;
    }
    assert column[..i] == column;
    CuttingDone(parts, blockSize, i == |column|);
  }

  lemma StructuralPossible(stream: Stream, codec: Codec, enabled: bool)
    requires stream != TIME && stream != VALUE && codec in Candidates(stream, true)
    ensures Possible(stream, Core(codec, 0), enabled)
  {
    assert Candidates(stream, enabled) == Candidates(stream, true);
  }

  /** processSnapshotLenBlocks, processItemIdBlocks and processQuantityBlocks, on integers. */
  method ProcessStructural(ctx: ContextV0, stream: Stream, column: seq<int>, blockSize: nat)
    returns (blocks: seq<Block>, ghost parts: seq<Part>)
    requires stream != TIME && stream != VALUE && blockSize >= 1 && Within(column, INPUT_BOUND)
    requires Bounded(ctx.State()) && WellFormed(ctx.State().dict)
    modifies ctx
    ensures Coding(stream, column, parts, blocks, old(ctx.State()), ctx.State()) && CutAt(parts, blockSize)
  {
    hide Bounded, WellFormed, Within, EncodeBlock, Coding, Cutting, CutAt, Candidates, Selected, FinalData;
    blocks, parts := [], [];
    CodingStart(stream, ctx.State());
    NothingCut(blockSize);
    var i := 0;
    assert column[..0] == [];
    while i < |column|
      invariant i <= |column| && Coding(stream, column[..i], parts, blocks, old(ctx.State()), ctx.State())
      invariant Cutting(parts, blockSize, i == |column|)
    {
      var chunk := Chunk(column, i, blockSize);
      ChunkWithin(column, i, blockSize, INPUT_BOUND);
      ghost var now := ctx.State();
      CodingParts(stream, column[..i], parts, blocks, old(ctx.State()), now);
      SomeCandidate(stream);
      var b := ProcessStructuralBlock(ctx, stream, chunk, Candidates(stream, true));
      ghost var p := Part(chunk, Core(b.codec, 0));
      StructuralPossible(stream, b.codec, ctx.enabled);
      CodingStep(stream, column[..i], parts, blocks, old(ctx.State()), now, p);
      CuttingStep(parts, p, blockSize, i + |chunk| == |column|);
      blocks, parts := blocks + [b], parts + [p];
      i := i + |chunk|;
    }
    assert column[..i] == column;
    CuttingDone(parts, blockSize, i == |column|);
  }

  lemma SomeCandidate(stream: Stream)
    ensures Candidates(stream, true) != []
  {
  }

  /** processCoreComponents: five streams one after the other on one fresh context; TIME and SNAPSHOT_LEN are cut
      at the block size, the others at item boundaries when they are laid out by item. */
  method ProcessCoreComponents(on: bool, f: Features, blockSize: nat, chmTime: Health.HealthMonitor,
                               chmValue: Health.HealthMonitor)
    returns (sections: seq<Section>, ghost plan: Plan)
    requires blockSize >= 1 && InBounds(f.columns)
    modifies chmTime, chmValue
    ensures PlanFits(plan, f.columns, on) && sections == EncodePlan(plan, on) && CutLike(plan, f, blockSize)
  {
    hide Coding, Within, CutAt;
    var ctx := new ContextV0(on);
    FreshIsFine(on);
    ghost var c0 := ctx.State();
    var aligned := ItemBlockSize(f, blockSize);
    var time, timeParts := ProcessMonitored(ctx, TIME, f.columns.times, blockSize, chmTime);
    ghost var c1 := ctx.State();
    CodingParts(TIME, f.columns.times, timeParts, time, c0, c1);
    var lengths, lengthParts := ProcessStructural(ctx, SNAPSHOT_LEN, f.columns.lengths, blockSize);
    ghost var c2 := ctx.State();
    CodingParts(SNAPSHOT_LEN, f.columns.lengths, lengthParts, lengths, c1, c2);
    var ids, idParts := ProcessStructural(ctx, ITEM_ID, f.columns.ids, aligned);
    ghost var c3 := ctx.State();
    CodingParts(ITEM_ID, f.columns.ids, idParts, ids, c2, c3);
    var values, valueParts := ProcessMonitored(ctx, VALUE, f.columns.prices, aligned, chmValue);
    ghost var c4 := ctx.State();
    CodingParts(VALUE, f.columns.prices, valueParts, values, c3, c4);
    var quantities, quantityParts := ProcessStructural(ctx, QUANTITY, f.columns.quantities, aligned);
    sections := Keep(TIME, time) + (Keep(SNAPSHOT_LEN, lengths) + (Keep(ITEM_ID, ids)
                + (Keep(VALUE, values) + (Keep(QUANTITY, quantities) + []))));
    plan := Plan(timeParts, lengthParts, idParts, valueParts, quantityParts);
    PlanOf(f.columns, plan, time, lengths, ids, values, quantities, c0, c1, c2, c3, c4, ctx.State());
  }

  lemma FreshIsFine(on: bool)
    ensures Bounded(FreshCtx(on)) && WellFormed(FreshCtx(on).dict)
  {
  }

  lemma PlanOf(c: Columns, plan: Plan, time: seq<Block>, lengths: seq<Block>, ids: seq<Block>, values: seq<Block>,
               quantities: seq<Block>, c0: Ctx, c1: Ctx, c2: Ctx, c3: Ctx, c4: Ctx, c5: Ctx)
    requires Coding(TIME, c.times, plan.time, time, c0, c1) && Coding(SNAPSHOT_LEN, c.lengths, plan.lengths, lengths, c1, c2)
    requires Coding(ITEM_ID, c.ids, plan.ids, ids, c2, c3) && Coding(VALUE, c.prices, plan.values, values, c3, c4)
    requires Coding(QUANTITY, c.quantities, plan.quantities, quantities, c4, c5) && c0 == FreshCtx(c0.dict.enabled)
    ensures PlanFits(plan, c, c0.dict.enabled)
    ensures EncodePlan(plan, c0.dict.enabled)
         == Keep(TIME, time) + (Keep(SNAPSHOT_LEN, lengths) + (Keep(ITEM_ID, ids)
            + (Keep(VALUE, values) + (Keep(QUANTITY, quantities) + []))))
  {
    CodingParts(TIME, c.times, plan.time, time, c0, c1);
    CodingParts(SNAPSHOT_LEN, c.lengths, plan.lengths, lengths, c1, c2);
    CodingParts(ITEM_ID, c.ids, plan.ids, ids, c2, c3);
    CodingParts(VALUE, c.prices, plan.values, values, c3, c4);
    hide EncodeBlocks, PartsOk, Flat, Bounded, WellFormed;
  }

  /** encodeSegment: for some codecs and routes that fit the columns, cut at the block size, what is written is the
      encoding of the snapshots under them. So every theorem about plans is about what the encoder does. */
  method EncodeSnapshots(on: bool, snapshots: seq<Snapshot>, blockSize: nat, chmTime: Health.HealthMonitor,
                         chmValue: Health.HealthMonitor)
    returns (e: Encoded, ghost plan: Plan)
    requires blockSize >= 1 && InBounds(Collect(snapshots).columns)
    modifies chmTime, chmValue
    ensures PlanFits(plan, Collect(snapshots).columns, on) && e == EncodeSegment(snapshots, plan, on)
    ensures CutLike(plan, Collect(snapshots), blockSize)
  {
    hide PlanFits, EncodePlan, Collect, InBounds, CutLike;
    var features := CollectDataFeatures(snapshots);
    var sections;
    sections, plan := ProcessCoreComponents(on, features, blockSize, chmTime, chmValue);
    e := Encoded(sections, features.itemMajor, HeaderCount(features));
  }
}
