/** A whole segment: five streams coded one after the other on one context, and the decoder replaying
    that context from codec ids and payloads alone (processCoreComponents, decompressAndDecode). */
module SegmentCodec {
  import opened Bytes
  import opened Context
  import opened Blocks
  import opened Snapshots
  import opened Layout

  /** One stream's blocks; a stream without blocks has no section. */
  datatype Section = Section(stream: Stream, blocks: seq<Block>)

  datatype Encoded = Encoded(sections: seq<Section>, itemMajor: bool, itemCount: nat)

  /** How the encoder cut the columns into blocks and what it decided for each. */
  datatype Plan = Plan(
    time: seq<Part>,
    lengths: seq<Part>,
    ids: seq<Part>,
    values: seq<Part>,
    quantities: seq<Part>)

  predicate PlanFits(p: Plan, c: Columns, enabled: bool)
  {
    && Flat(p.time) == c.times && PartsOk(TIME, p.time, enabled)
    && Flat(p.lengths) == c.lengths && PartsOk(SNAPSHOT_LEN, p.lengths, enabled)
    && Flat(p.ids) == c.ids && PartsOk(ITEM_ID, p.ids, enabled)
    && Flat(p.values) == c.prices && PartsOk(VALUE, p.values, enabled)
    && Flat(p.quantities) == c.quantities && PartsOk(QUANTITY, p.quantities, enabled)
  }

  function Keep(stream: Stream, blocks: seq<Block>): seq<Section>
  {
    if blocks == [] then [] else [Section(stream, blocks)]
  }

  /** TIME, SNAPSHOT_LEN, ITEM_ID, VALUE, QUANTITY, on one context. */
  function EncodePlan(p: Plan, enabled: bool): seq<Section>
    requires PartsOk(TIME, p.time, enabled) && PartsOk(SNAPSHOT_LEN, p.lengths, enabled)
    requires PartsOk(ITEM_ID, p.ids, enabled) && PartsOk(VALUE, p.values, enabled)
    requires PartsOk(QUANTITY, p.quantities, enabled)
  {
    var (time, c1) := EncodeBlocks(TIME, p.time, FreshCtx(enabled));
    var (lengths, c2) := EncodeBlocks(SNAPSHOT_LEN, p.lengths, c1);
    var (ids, c3) := EncodeBlocks(ITEM_ID, p.ids, c2);
    var (values, c4) := EncodeBlocks(VALUE, p.values, c3);
    var (quantities, _) := EncodeBlocks(QUANTITY, p.quantities, c4);
    Keep(TIME, time) + (Keep(SNAPSHOT_LEN, lengths) + (Keep(ITEM_ID, ids)
    + (Keep(VALUE, values) + (Keep(QUANTITY, quantities) + []))))
  }

  function EncodeSegment(snaps: seq<Snapshot>, p: Plan, enabled: bool): Encoded
    requires PlanFits(p, Collect(snaps).columns, enabled)
  {
    var f := Collect(snaps);
    Encoded(EncodePlan(p, enabled), f.itemMajor, HeaderCount(f))
  }

  /** distributeValues */
  function Push(c: Columns, stream: Stream, vs: seq<int>): Columns
  {
    match stream
    case TIME => c.(times := c.times + vs)
    case SNAPSHOT_LEN => c.(lengths := c.lengths + vs)
    case ITEM_ID => c.(ids := c.ids + vs)
    case VALUE => c.(prices := c.prices + vs)
    case QUANTITY => c.(quantities := c.quantities + vs)
  }

  function DecodeSections(sections: seq<Section>, ctx: Ctx, acc: Columns): Result<Columns>
    requires WellFormed(ctx.dict)
    decreases |sections|
  {
    if sections == [] then Ok(acc)
    else
      match DecodeBlocks(sections[0].stream, sections[0].blocks, ctx)
      case Err(e) => Err(e)
      case Ok((vs, ctx')) => DecodeSections(sections[1..], ctx', Push(acc, sections[0].stream, vs))
  }

  function DecodeSegment(s: Encoded): Result<seq<Snapshot>>
  {
    match DecodeSections(s.sections, FreshCtx(true), Columns([], [], [], [], []))
    case Err(e) => Err(e)
    case Ok(c) =>
      match Restore(c, s.itemMajor, s.itemCount)
      case Err(e) => Err(e)
      case Ok(c') => Reconstruct(c')
  }

  /** verifySegmentPayloads: everything is decoded and laid out, but only lengths are compared. */
  predicate SegmentVerifies(s: Encoded)
  {
    match DecodeSections(s.sections, FreshCtx(true), Columns([], [], [], [], []))
    case Err(_) => false
    case Ok(c) => LengthsAgree(Reversed(c, s.itemMajor, s.itemCount))
  }

  // ---- the theorem --------------------------------------------------------

  /** Reading one stream's section, present or not. */
  lemma SectionStep(stream: Stream, blocks: seq<Block>, rest: seq<Section>, ctx: Ctx, acc: Columns)
    requires WellFormed(ctx.dict) && DecodeBlocks(stream, blocks, ctx).Ok?
    ensures var (vs, ctx') := DecodeBlocks(stream, blocks, ctx).value;
            DecodeSections(Keep(stream, blocks) + rest, ctx, acc) == DecodeSections(rest, ctx', Push(acc, stream, vs))
  {
    if blocks == [] {
      assert Keep(stream, blocks) + rest == rest;
      assert Push(acc, stream, []) == acc;
    } else {
      assert (Keep(stream, blocks) + rest)[1..] == rest;
    }
  }

  /** A stream outside VALUE adds exactly its column and the contexts agree after it. */
  lemma StreamStep(stream: Stream, parts: seq<Part>, rest: seq<Section>, enc: Ctx, dec: Ctx, acc: Columns)
    returns (dec': Ctx)
    requires stream != VALUE && PartsOk(stream, parts, enc.dict.enabled) && Bounded(enc) && Agree(enc, dec)
    ensures var (bs, enc') := EncodeBlocks(stream, parts, enc);
            && Agree(enc', dec') && dec'.lastValue == dec.lastValue && dec'.lastValueDelta == dec.lastValueDelta
            && enc'.lastValue == enc.lastValue
            && WellFormed(dec.dict) && WellFormed(dec'.dict)
            && DecodeSections(Keep(stream, bs) + rest, dec, acc)
               == DecodeSections(rest, dec', Push(acc, stream, Flat(parts)))
  {
    hide EncodeBlocks, DecodeBlocks, DecodeSections, PartsOk, Bounded;
    AgreeWellFormed(enc, dec);
    StreamLockstep(stream, parts, enc, dec);
    var (bs, enc') := EncodeBlocks(stream, parts, enc);
    dec' := DecodeBlocks(stream, bs, dec).value.1;
    AgreeWellFormed(enc', dec');
    SectionStep(stream, bs, rest, dec, acc);
  }

  /** The VALUE stream adds a column of the right length, and the right one exactly without a carry. */
  lemma ValueStep(parts: seq<Part>, rest: seq<Section>, enc: Ctx, dec: Ctx, acc: Columns)
    returns (dec': Ctx, prices: seq<int>)
    requires PartsOk(VALUE, parts, enc.dict.enabled) && Bounded(enc) && Agree(enc, dec)
    requires OrZero(enc.lastValue) == OrZero(dec.lastValue)
    ensures var (bs, enc') := EncodeBlocks(VALUE, parts, enc);
            && Agree(enc', dec') && WellFormed(dec.dict) && WellFormed(dec'.dict)
            && |prices| == |Flat(parts)|
            && (prices == Flat(parts) <==> NoCarry(parts, OrZero(dec.lastValue), OrZero(dec.lastValueDelta)))
            && DecodeSections(Keep(VALUE, bs) + rest, dec, acc)
               == DecodeSections(rest, dec', Push(acc, VALUE, prices))
  {
    hide EncodeBlocks, DecodeBlocks, DecodeSections, PartsOk, Bounded, NoCarry;
    AgreeWellFormed(enc, dec);
    ValueStreamAccepted(parts, enc, dec);
    ValueStreamExact(parts, enc, dec);
    var (bs, enc') := EncodeBlocks(VALUE, parts, enc);
    prices := DecodeBlocks(VALUE, bs, dec).value.0;
    dec' := DecodeBlocks(VALUE, bs, dec).value.1;
    AgreeWellFormed(enc', dec');
    SectionStep(VALUE, bs, rest, dec, acc);
  }

  /** For any codecs and routes all five columns come back, the prices exactly without a carry. */
  lemma SectionsRoundTrip(p: Plan, c: Columns, enabled: bool) returns (prices: seq<int>)
    requires PlanFits(p, c, enabled)
    ensures |prices| == |c.prices|
    ensures DecodeSections(EncodePlan(p, enabled), FreshCtx(true), Columns([], [], [], [], []))
         == Ok(c.(prices := prices))
    ensures prices == c.prices <==> NoCarry(p.values, 0, 0)
  {
    hide EncodeBlocks, DecodeSections, PartsOk, Flat, Keep, NoCarry;
    var e0, d0 := FreshCtx(enabled), FreshCtx(true);
    var (time, e1) := EncodeBlocks(TIME, p.time, e0);
    var (lengths, e2) := EncodeBlocks(SNAPSHOT_LEN, p.lengths, e1);
    var (ids, e3) := EncodeBlocks(ITEM_ID, p.ids, e2);
    var (values, e4) := EncodeBlocks(VALUE, p.values, e3);
    var (quantities, e5) := EncodeBlocks(QUANTITY, p.quantities, e4);
    var s5: seq<Section> := [];
    var s4 := Keep(QUANTITY, quantities) + s5;
    var s3 := Keep(VALUE, values) + s4;
    var s2 := Keep(ITEM_ID, ids) + s3;
    var s1 := Keep(SNAPSHOT_LEN, lengths) + s2;
    assert Agree(e0, d0) && Bounded(e0);
    hide Agree, Bounded;
    var a0 := Columns([], [], [], [], []);
    var d1 := StreamStep(TIME, p.time, s1, e0, d0, a0);
    var a1 := Push(a0, TIME, Flat(p.time));
    var d2 := StreamStep(SNAPSHOT_LEN, p.lengths, s2, e1, d1, a1);
    var a2 := Push(a1, SNAPSHOT_LEN, Flat(p.lengths));
    var d3 := StreamStep(ITEM_ID, p.ids, s3, e2, d2, a2);
    var a3 := Push(a2, ITEM_ID, Flat(p.ids));
    var d4, ps := ValueStep(p.values, s4, e3, d3, a3);
    var a4 := Push(a3, VALUE, ps);
    var d5 := StreamStep(QUANTITY, p.quantities, s5, e4, d4, a4);
    prices := ps;
    NoSections(d5, Push(a4, QUANTITY, Flat(p.quantities)));
    assert Push(a4, QUANTITY, Flat(p.quantities)) == c.(prices := prices);
  }

  lemma NoSections(ctx: Ctx, acc: Columns)
    requires WellFormed(ctx.dict)
    ensures DecodeSections([], ctx, acc) == Ok(acc)
  {
  }

  /** The segment theorem. For any snapshots, any cutting into blocks, any codecs and any routing, the
      decoder returns the snapshots if and only if no DOD-coded VALUE block follows a non-zero step and an
      item-major segment has fewer than 65536 items per snapshot. */
  lemma SegmentExact(snaps: seq<Snapshot>, p: Plan, enabled: bool)
    requires snaps != [] && PlanFits(p, Collect(snaps).columns, enabled)
    ensures DecodeSegment(EncodeSegment(snaps, p, enabled)) == Ok(snaps)
       <==> NoCarry(p.values, 0, 0)
            && (Collect(snaps).itemMajor ==> Collect(snaps).itemsPerSnapshot < 0x1_0000)
  {
    hide EncodePlan, DecodeSections, NoCarry, Restore, Reconstruct, PlanFits, Collect, Flatten;
    var f := Collect(snaps);
    var prices := SectionsRoundTrip(p, f.columns, enabled);
    ColumnLengths(snaps);
    if f.itemMajor && f.itemsPerSnapshot >= 0x1_0000 {
      TooManyItems(snaps, prices);
    } else {
      RestoreWithPrices(snaps, prices);
      var restored := Restore(f.columns.(prices := prices), f.itemMajor, HeaderCount(f)).value;
      ReconstructDeterminesPrices(snaps, restored.prices);
    }
  }

  lemma ColumnLengths(snaps: seq<Snapshot>)
    ensures |Collect(snaps).columns.prices| == |Flatten(snaps).prices|
  {
    hide Transpose, Stable;
  }

  lemma AtMember(data: seq<int>, rows: nat, cols: nat, k: nat)
    requires |data| == rows * cols && k < |data|
    ensures At(data, rows, cols, k) in data
  {
    Quotient(k, rows, cols);
    InRange(k % rows, k / rows, rows, cols);
  }

  lemma TransposeMembers(data: seq<int>, rows: nat, cols: nat)
    requires |data| == rows * cols
    ensures forall x :: x in Transpose(data, rows, cols) ==> x in data
  {
    hide At;
    forall k | 0 <= k < |data|
      ensures Transpose(data, rows, cols)[k] in data
    {
      AtMember(data, rows, cols, k);
    }
  }

  lemma RestoreShape(c: Columns, itemMajor: bool, itemCount: nat)
    ensures match Restore(c, itemMajor, itemCount)
            case Err(_) => true
            case Ok(r) => r.times == c.times && r.lengths == c.lengths && forall x :: x in r.ids ==> x in c.ids
  {
    hide Transpose;
    if itemMajor && itemCount > 0 && c.lengths != [] && |c.ids| == itemCount * |c.lengths| {
      TransposeMembers(c.ids, itemCount, |c.lengths|);
    }
  }

  /** Right or wrong, whatever is decoded has as many snapshots, and no id that is not in the segment. */
  lemma DecodedShape(snaps: seq<Snapshot>, p: Plan, enabled: bool)
    requires PlanFits(p, Collect(snaps).columns, enabled)
    ensures match DecodeSegment(EncodeSegment(snaps, p, enabled))
            case Err(_) => true
            case Ok(xs) =>
              && |xs| == |snaps|
              && forall i, id :: 0 <= i < |xs| && id in xs[i].items ==> id in Collect(snaps).columns.ids
  {
    hide EncodePlan, DecodeSections, NoCarry, Restore, PlanFits, Collect, Flatten, Build, Sum;
    var f := Collect(snaps);
    var prices := SectionsRoundTrip(p, f.columns, enabled);
    var c := f.columns.(prices := prices);
    RestoreShape(c, f.itemMajor, HeaderCount(f));
    var r := Restore(c, f.itemMajor, HeaderCount(f));
    if r.Ok? && Consistent(r.value) {
      var b := r.value;
      BuildShape(b.times, b.lengths, b.ids, b.prices, b.quantities, set x | x in f.columns.ids);
      CollectTimes(snaps);
    }
  }

  lemma CollectTimes(snaps: seq<Snapshot>)
    ensures |Collect(snaps).columns.times| == |snaps|
  {
    hide Transpose, Stable, Flatten;
    FlattenConsistent(snaps);
  }

  // ---- verification and decoding ------------------------------------------

  /** The header's 16 bits say nothing wrong about the item count, or nothing at all. */
  predicate CountUsable(snaps: seq<Snapshot>)
  {
    var f := Collect(snaps);
    f.itemMajor ==> f.itemsPerSnapshot < 0x1_0000 || f.itemsPerSnapshot % 0x1_0000 == 0
  }

  /** The shape of the encoder's columns. */
  lemma CollectShape(snaps: seq<Snapshot>)
    requires snaps != []
    ensures var f := Collect(snaps);
            && |f.columns.times| == |f.columns.lengths| && f.columns.lengths != []
            && (forall i :: 0 <= i < |f.columns.lengths| ==> f.columns.lengths[i] >= 0)
            && Sum(f.columns.lengths) == |f.columns.ids| == |f.columns.prices| == |f.columns.quantities|
            && (f.itemMajor ==> |f.columns.ids| == f.itemsPerSnapshot * |f.columns.lengths|)
  {
    hide Flatten, Transpose, Sum;
    FlattenConsistent(snaps);
    var c := Flatten(snaps);
    if Stable(c) {
      StableShape(c);
      assert |c.lengths| * c.lengths[0] == c.lengths[0] * |c.lengths|;
    }
  }

  /** A count that lost its upper bits leaves a column its length. */
  lemma FieldNoLonger(n: nat, sc: nat)
    ensures (n % 0x1_0000) * sc <= n * sc
    ensures n % 0x1_0000 != n && sc > 0 ==> (n % 0x1_0000) * sc != n * sc
  {
    Scale(n % 0x1_0000, n, sc);
    if n % 0x1_0000 != n && sc > 0 {
      WrongCount(n * sc, sc, n, n % 0x1_0000);
      assert sc * n == n * sc;
    }
  }

  /** Every encoded segment passes verification, whatever its item count. */
  lemma SegmentAlwaysVerifies(snaps: seq<Snapshot>, p: Plan, enabled: bool)
    requires snaps != [] && PlanFits(p, Collect(snaps).columns, enabled)
    ensures SegmentVerifies(EncodeSegment(snaps, p, enabled))
  {
    hide EncodePlan, DecodeSections, NoCarry, PlanFits, Collect, Sum, FromItemMajor, Whole;
    var f := Collect(snaps);
    var prices := SectionsRoundTrip(p, f.columns, enabled);
    CollectShape(snaps);
    FieldNoLonger(f.itemsPerSnapshot, |f.columns.lengths|);
  }

  /** But one whose item count lost bits and kept some does not decode: the layout step leaves holes. */
  lemma SegmentDecodesExact(snaps: seq<Snapshot>, p: Plan, enabled: bool)
    requires snaps != [] && PlanFits(p, Collect(snaps).columns, enabled)
    ensures DecodeSegment(EncodeSegment(snaps, p, enabled)).Ok? <==> CountUsable(snaps)
  {
    hide EncodePlan, DecodeSections, NoCarry, PlanFits, Collect, Sum, Transpose, Build, Flatten;
    var f := Collect(snaps);
    var prices := SectionsRoundTrip(p, f.columns, enabled);
    CollectShape(snaps);
    FieldNoLonger(f.itemsPerSnapshot, |f.columns.lengths|);
    var c := f.columns.(prices := prices);
    if f.itemMajor && HeaderCount(f) > 0 && f.itemsPerSnapshot < 0x1_0000 {
      RestoredConsistent(c, f.itemsPerSnapshot);
    }
  }

  lemma RestoredConsistent(c: Columns, n: nat)
    requires Consistent(c) && n > 0 && |c.ids| == n * |c.lengths|
    ensures Restore(c, true, n).Ok? && Consistent(Restore(c, true, n).value)
  {
    hide Transpose, Sum;
  }

  lemma TwoColumns(a: Snapshot, b: Snapshot)
    requires a.items.Keys == b.items.Keys
    ensures Ids(a) == Ids(b)
    ensures Flatten([a, b]).ids == Ids(a) + Ids(a) && Flatten([a, b]).lengths == [|Ids(a)|, |Ids(a)|]
  {
    SortedUnique(Ids(a), Ids(b));
    hide Ids, Prices, Quantities;
    OneFlat(b);
    assert [a, b][1..] == [b];
    assert [|Ids(a)|] + [|Ids(a)|] == [|Ids(a)|, |Ids(a)|];
  }

  lemma OneFlat(b: Snapshot)
    ensures Flatten([b]).ids == Ids(b) && Flatten([b]).lengths == [|Ids(b)|]
  {
    hide Ids, Prices, Quantities;
    assert [b][1..] == [];
    assert Ids(b) + [] == Ids(b) && [|Ids(b)|] + [] == [|Ids(b)|];
  }

  lemma StableTwice(c: Columns, ids: seq<int>)
    requires c.ids == ids + ids && c.lengths == [|ids|, |ids|] && |ids| >= 2
    ensures Stable(c)
  {
    var n := |ids|;
    forall s, i | 0 <= s < 2 && 0 <= i < n
      ensures |c.ids| == 2 * n && SameId(c.ids, 2, n, s, i)
    {
      SameIdAt(c.ids, 2, n, s, i);
      assert s == 0 || s == 1;
      assert 1 * n + i == n + i && 0 * n + i == i;
    }
  }

  /** Two snapshots of the same two or more ids are laid out item-major under their number. */
  lemma TwoAlike(a: Snapshot, b: Snapshot)
    requires a.items.Keys == b.items.Keys && |a.items.Keys| >= 2
    ensures Collect([a, b]).itemMajor && Collect([a, b]).itemsPerSnapshot == |a.items.Keys|
  {
    TwoColumns(a, b);
    StableTwice(Flatten([a, b]), Ids(a));
    assert |Ids(a)| == |a.items.Keys|;
    hide Flatten, Transpose, Stable, Ids;
  }

  function UpTo(n: nat): (ids: set<int>)
    ensures |ids| == n && forall k :: k in ids ==> 0 <= k < n
  {
    if n == 0 then {} else UpTo(n - 1) + {n - 1}
  }

  /** Two snapshots of the same n items. */
  function Wide(n: nat): (snaps: seq<Snapshot>)
    ensures |snaps| == 2 && snaps[0].items.Keys == snaps[1].items.Keys == UpTo(n)
  {
    var items := map k | k in UpTo(n) :: Item(0, 0);
    [Snapshot(0, items), Snapshot(1, items)]
  }

  /** Such inputs exist from n = 65537 on: the segment verifies and never decodes. */
  lemma TooWideSegment(n: nat, p: Plan, enabled: bool)
    requires n > 0x1_0000 && n % 0x1_0000 != 0 && PlanFits(p, Collect(Wide(n)).columns, enabled)
    ensures SegmentVerifies(EncodeSegment(Wide(n), p, enabled))
    ensures DecodeSegment(EncodeSegment(Wide(n), p, enabled)).Err?
  {
    hide DecodeSections, PlanFits, Collect, SegmentVerifies, DecodeSegment, UpTo, Wide;
    var snaps := Wide(n);
    TwoAlike(snaps[0], snaps[1]);
    assert snaps == [snaps[0], snaps[1]];
    SegmentAlwaysVerifies(snaps, p, enabled);
    SegmentDecodesExact(snaps, p, enabled);
  }
}
