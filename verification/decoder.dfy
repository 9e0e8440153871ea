/** The decoder's loops (src/gics/decode.ts): one segment's sections on one context, the snapshots rebuilt
    from the columns, and a position advancing over the segments of a file. */
module Decoder {
  import opened Bytes
  import opened Context
  import opened Blocks
  import opened Snapshots
  import opened Layout
  import opened Drivers
  import opened SegmentCodec
  import opened Sections
  import opened SegmentIndex
  import opened Container
  import opened Integrity
  import opened GicsFile

  /** The same result; two failures may differ in what they report first. */
  predicate SameAnswer<T(==)>(r: Result<T>, s: Result<T>)
  {
    (r.Ok? <==> s.Ok?) && (r.Ok? ==> r == s)
  }

  // ---- sections -----------------------------------------------------------

  /** decompressAndDecode: unwrap and decode section by section. */
  function DecodeRaws(env: Env, ordinal: nat, raws: seq<RawSection>, ctx: Ctx, acc: Columns): Result<Columns>
    requires WellFormed(ctx.dict)
    decreases |raws|
  {
    if raws == [] then Ok(acc)
    else
      match Unwrap(env, ordinal, raws[0])
      case Err(e) => Err(e)
      case Ok(s) =>
        match DecodeBlocks(s.stream, s.blocks, ctx)
        case Err(e) => Err(e)
        case Ok((vs, ctx')) => DecodeRaws(env, ordinal, raws[1..], ctx', Push(acc, s.stream, vs))
  }

  function DecodeUnwrapped(r: Result<seq<Section>>, ctx: Ctx, acc: Columns): Result<Columns>
    requires WellFormed(ctx.dict)
  {
    match r
    case Err(e) => Err(e)
    case Ok(ss) => DecodeSections(ss, ctx, acc)
  }

  /** Decoding while unwrapping is unwrapping everything first. */
  lemma {:induction false} RawsAreSections(env: Env, ordinal: nat, raws: seq<RawSection>, ctx: Ctx, acc: Columns)
    requires WellFormed(ctx.dict)
    ensures SameAnswer(DecodeRaws(env, ordinal, raws, ctx, acc),
                       DecodeUnwrapped(UnwrapAll(env, ordinal, raws), ctx, acc))
    decreases |raws|
  {
    hide Unwrap, DecodeBlocks, Push;
    if raws != [] && Unwrap(env, ordinal, raws[0]).Ok? {
      var s := Unwrap(env, ordinal, raws[0]).value;
      var rest := UnwrapAll(env, ordinal, raws[1..]);
      if rest.Ok? {
        assert ([s] + rest.value)[1..] == rest.value;
      }
      var d := DecodeBlocks(s.stream, s.blocks, ctx);
      if d.Ok? {
        RawsAreSections(env, ordinal, raws[1..], d.value.1, Push(acc, s.stream, d.value.0));
      }
    }
  }

  method DecompressAndDecode(env: Env, ordinal: nat, raws: seq<RawSection>) returns (r: Result<Columns>)
    ensures r == DecodeRaws(env, ordinal, raws, FreshCtx(true), Columns([], [], [], [], []))
  {
    hide Unwrap, DecodeBlocks, Push;
    var ctx := new ContextV0(true);
    var res := Columns([], [], [], [], []);
    ghost var whole := DecodeRaws(env, ordinal, raws, FreshCtx(true), res);
    for i := 0 to |raws|
      invariant WellFormed(ctx.State().dict) && fresh(ctx)
      invariant whole == DecodeRaws(env, ordinal, raws[i..], ctx.State(), res)
    {
      assert raws[i..][0] == raws[i] && raws[i..][1..] == raws[i + 1..];
      var section := Unwrap(env, ordinal, raws[i]);
      if section.Err? {
        return Err(section.error);
      }
      ghost var before := ctx.State();
      var values := DecodeSection(ctx, section.value.stream, section.value.blocks);
      if values.Err? {
        return Err(values.error);
      }
      res := Push(res, section.value.stream, values.value);
    }
    assert raws[|raws|..] == [];
    r := Ok(res);
  }

  // ---- layout and snapshots -----------------------------------------------

  /** reverseItemMajorIfNeeded, holes included. */
  method ReverseItemMajor(c: Columns, itemMajor: bool, itemCount: nat) returns (h: Holey)
    ensures h == Reversed(c, itemMajor, itemCount)
  {
    hide FromItemMajor, Whole;
    if !itemMajor || itemCount == 0 || |c.lengths| == 0 {
      return Holey(c.times, c.lengths, Whole(c.ids), Whole(c.prices), Whole(c.quantities));
    }
    var ids := FromItemMajorLoop(c.ids, itemCount, |c.lengths|);
    var prices := FromItemMajorLoop(c.prices, itemCount, |c.lengths|);
    var quantities := FromItemMajorLoop(c.quantities, itemCount, |c.lengths|);
    h := Holey(c.times, c.lengths, ids, prices, quantities);
  }

  /** validateCrossStreams */
  method ValidateCrossStreams(h: Holey) returns (ok: bool)
    ensures ok == LengthsAgree(h)
  {
    if |h.lengths| == 0 || |h.times| != |h.lengths| {
      return false;
    }
    var total := 0;
    for i := 0 to |h.lengths|
      invariant forall j :: 0 <= j < i ==> h.lengths[j] >= 0
      invariant total + Sum(h.lengths[i..]) == Sum(h.lengths)
    {
      if h.lengths[i] < 0 {
        return false;
      }
      assert h.lengths[i..][0] == h.lengths[i] && h.lengths[i..][1..] == h.lengths[i + 1..];
      total := total + h.lengths[i];
    }
    assert h.lengths[|h.lengths|..] == [];
    ok := total == |h.ids| && |h.ids| == |h.prices| && |h.ids| == |h.quantities|;
  }

  /** A column with something in its holes. */
  function Filled(h: HoleyColumn): (data: seq<int>)
    ensures |data| == |h| && forall k :: 0 <= k < |h| && h[k].Some? ==> data[k] == h[k].value
  {
    seq(|h|, k requires 0 <= k < |h| => if h[k].Some? then h[k].value else 0)
  }

  function FilledColumns(h: Holey): Columns
  {
    Columns(h.times, h.lengths, Filled(h.ids), Filled(h.prices), Filled(h.quantities))
  }

  /** No hole in any column up to an offset. */
  ghost predicate FullUpTo(h: Holey, offset: nat)
  {
    && offset <= |h.ids| && offset <= |h.prices| && offset <= |h.quantities|
    && forall k :: 0 <= k < offset ==> h.ids[k].Some? && h.prices[k].Some? && h.quantities[k].Some?
  }

  /** The inner loop of reconstructSnapshots: `count` items from `offset` on, or the first hole. */
  method BuildMap(h: Holey, offset: nat, count: nat) returns (items: Option<map<int, Item>>)
    requires |h.ids| == |h.prices| == |h.quantities| && offset + count <= |h.ids| && FullUpTo(h, offset)
    ensures items == None ==> !NoHoles(h.ids) || !NoHoles(h.prices) || !NoHoles(h.quantities)
    ensures items.Some? ==> FullUpTo(h, offset + count)
    ensures var c := FilledColumns(h);
            var all := BuildItems(c.ids[offset..][..count], c.prices[offset..][..count], c.quantities[offset..][..count]);
            items.Some? ==> items.value == all
  {
    hide Filled;
    ghost var c := FilledColumns(h);
    var m: map<int, Item> := map[];
    for j := 0 to count
      invariant FullUpTo(h, offset + j)
      invariant m == BuildItems(c.ids[offset..][..j], c.prices[offset..][..j], c.quantities[offset..][..j])
    {
      ghost var ids, ps, qs := c.ids[offset..], c.prices[offset..], c.quantities[offset..];
      assert ids[..j + 1][..j] == ids[..j] && ps[..j + 1][..j] == ps[..j] && qs[..j + 1][..j] == qs[..j];
      var id, price, quantity := h.ids[offset + j], h.prices[offset + j], h.quantities[offset + j];
      if id == None || price == None || quantity == None {
        return None;
      }
      m := m[id.value := Item(price.value, quantity.value)];
    }
    items := Some(m);
  }

  /** Snapshots built so far and what the rest of the columns will give. */
  ghost predicate Building(c: Columns, s: nat, offset: nat, result: seq<Snapshot>)
    requires Consistent(c)
  {
    && s <= |c.lengths| && offset <= |c.ids| && Sum(c.lengths[s..]) == |c.ids| - offset
    && Build(c.times, c.lengths, c.ids, c.prices, c.quantities)
       == result + Build(c.times[s..], c.lengths[s..], c.ids[offset..], c.prices[offset..], c.quantities[offset..])
  }

  lemma BuildingStart(c: Columns)
    requires Consistent(c)
    ensures Building(c, 0, 0, [])
  {
    hide Build;
    assert c.times[0..] == c.times && c.lengths[0..] == c.lengths;
    assert c.ids[0..] == c.ids && c.prices[0..] == c.prices && c.quantities[0..] == c.quantities;
    var all := Build(c.times, c.lengths, c.ids, c.prices, c.quantities);
    assert [] + all == all;
  }

  lemma BuildingStep(c: Columns, s: nat, offset: nat, result: seq<Snapshot>)
    requires Consistent(c) && s < |c.lengths| && Building(c, s, offset, result)
    ensures c.lengths[s] >= 0
    ensures var n: nat := c.lengths[s];
            && offset + n <= |c.ids|
            && Building(c, s + 1, offset + n, result + [Snapshot(c.times[s],
                 BuildItems(c.ids[offset..][..n], c.prices[offset..][..n], c.quantities[offset..][..n]))])
  {
    hide BuildItems;
    var n: nat := c.lengths[s];
    assert c.lengths[s..][0] == n && c.lengths[s..][1..] == c.lengths[s + 1..] && c.times[s..][1..] == c.times[s + 1..];
    SumNonNegative(c.lengths[s + 1..]);
    assert c.ids[offset..][n..] == c.ids[offset + n..] && c.prices[offset..][n..] == c.prices[offset + n..];
    assert c.quantities[offset..][n..] == c.quantities[offset + n..];
    var one := Snapshot(c.times[s],
                 BuildItems(c.ids[offset..][..n], c.prices[offset..][..n], c.quantities[offset..][..n]));
    var rest := Build(c.times[s + 1..], c.lengths[s + 1..], c.ids[offset + n..], c.prices[offset + n..],
                      c.quantities[offset + n..]);
    assert result + ([one] + rest) == result + [one] + rest;
  }

  lemma BuildingDone(c: Columns, offset: nat, result: seq<Snapshot>)
    requires Consistent(c) && Building(c, |c.lengths|, offset, result)
    ensures Reconstruct(c) == Ok(result)
  {
    assert result + [] == result;
  }

  /** reconstructSnapshots: the lengths are compared, then every entry is read. */
  method ReconstructSnapshots(h: Holey) returns (r: Result<seq<Snapshot>>)
    ensures r == ReconstructHoley(h)
  {
    hide Building, Build, BuildItems, Sum, Filled, LengthsAgree, NoHoles;
    var ok := ValidateCrossStreams(h);
    if !ok {
      return Err(IntegrityMismatch);
    }
    AgreeingShape(h);
    ghost var c := FilledColumns(h);
    var result: seq<Snapshot> := [];
    var itemOffset: nat := 0;
    BuildingStart(c);
    for s := 0 to |h.lengths|
      invariant Building(c, s, itemOffset, result) && FullUpTo(h, itemOffset)
    {
      BuildingStep(c, s, itemOffset, result);
      var count: nat := h.lengths[s];
      var items := BuildMap(h, itemOffset, count);
      if items == None {
        return Err(IntegrityMismatch);
      }
      result := result + [Snapshot(h.times[s], items.value)];
      itemOffset := itemOffset + count;
    }
    BuildingDone(c, itemOffset, result);
    NothingMissing(h, itemOffset, result);
    r := Ok(result);
  }

  lemma AgreeingShape(h: Holey)
    requires LengthsAgree(h)
    ensures |h.times| == |h.lengths| && |h.ids| == |h.prices| == |h.quantities|
    ensures Consistent(FilledColumns(h))
  {
    hide Sum, Filled;
  }

  /** Once every item is read there was no hole. */
  lemma NothingMissing(h: Holey, offset: nat, result: seq<Snapshot>)
    requires LengthsAgree(h) && FullUpTo(h, offset) && Consistent(FilledColumns(h))
    requires Building(FilledColumns(h), |h.lengths|, offset, result) && Reconstruct(FilledColumns(h)) == Ok(result)
    ensures ReconstructHoley(h) == Ok(result)
  {
    hide Build, Filled, Reconstruct;
    assert h.lengths[|h.lengths|..] == [] && offset == |h.ids|;
    assert Values(h.ids) == Filled(h.ids) && Values(h.prices) == Filled(h.prices);
    assert Values(h.quantities) == Filled(h.quantities);
  }

  // ---- one segment --------------------------------------------------------

  lemma ParsedAnswers(env: Env, p: Parsed, ordinal: nat, data: Result<Columns>)
    requires SameAnswer(data, DecodeUnwrapped(UnwrapAll(env, ordinal, p.raws), FreshCtx(true), Columns([], [], [], [], [])))
    ensures if data.Err? then DecodeParsed(env, p, ordinal).Err? && !VerifyParsed(env, p, ordinal)
            else
              var h := Reversed(data.value, p.itemMajor, p.itemCount);
              SameAnswer(ReconstructHoley(h), DecodeParsed(env, p, ordinal))
              && VerifyParsed(env, p, ordinal) == LengthsAgree(h)
  {
    hide UnwrapAll, DecodeSections, Reversed, ReconstructHoley, Restore, Reconstruct, LengthsAgree;
    if data.Ok? {
      HoleyAnswers(data.value, p.itemMajor, p.itemCount);
    }
  }

  /** Everything decodeSegment does with a parsed segment but look at its index. */
  method DecodeParts(env: Env, p: Parsed, ordinal: nat) returns (r: Result<seq<Snapshot>>)
    ensures SameAnswer(r, DecodeParsed(env, p, ordinal))
  {
    hide UnwrapAll, DecodeSections, DecodeRaws, Reversed, ReconstructHoley, DecodeParsed, VerifyParsed;
    RawsAreSections(env, ordinal, p.raws, FreshCtx(true), Columns([], [], [], [], []));
    var data := DecompressAndDecode(env, ordinal, p.raws);
    ParsedAnswers(env, p, ordinal, data);
    if data.Err? {
      return Err(data.error);
    }
    var h := ReverseItemMajor(data.value, p.itemMajor, p.itemCount);
    r := ReconstructSnapshots(h);
  }

  /** verifySegmentPayloads: the same up to the comparison of lengths. */
  method VerifyParts(env: Env, p: Parsed, ordinal: nat) returns (ok: bool)
    ensures ok == VerifyParsed(env, p, ordinal)
  {
    hide UnwrapAll, DecodeSections, DecodeRaws, Reversed, ReconstructHoley, DecodeParsed, VerifyParsed, LengthsAgree;
    RawsAreSections(env, ordinal, p.raws, FreshCtx(true), Columns([], [], [], [], []));
    var data := DecompressAndDecode(env, ordinal, p.raws);
    ParsedAnswers(env, p, ordinal, data);
    if data.Err? {
      return false;
    }
    var h := ReverseItemMajor(data.value, p.itemMajor, p.itemCount);
    ok := ValidateCrossStreams(h);
  }

  method FilterById(xs: seq<Snapshot>, id: int) returns (r: seq<Snapshot>)
    ensures r == WithId(xs, id)
  {
    r := [];
    for i := 0 to |xs|
      invariant r + WithId(xs[i..], id) == WithId(xs, id)
    {
      assert xs[i..][0] == xs[i] && xs[i..][1..] == xs[i + 1..];
      if id in xs[i].items {
        r := r + [xs[i]];
      }
    }
    assert xs[|xs|..] == [];
  }

  // ---- files --------------------------------------------------------------

  /** parseSegmentParts, and the CRC check that follows it everywhere. */
  method ParseSegmentParts(env: Env, data: seq<byte>, pos: nat) returns (r: Result<Parsed>)
    requires pos <= |data|
    ensures SameAnswer(r, ParseSegment(env, data[pos..]))
  {
    hide ReadSections, DecodeIndex, FromLE, ReadHeader;
    ghost var s := data[pos..];
    var header := ReadHeader(data[pos..]);
    if header.Err? {
      return Err(header.error);
    }
    var h := header.value;
    if h.totalLength < 50 {
      return Err(Unsupported);
    }
    if h.totalLength > |data| - pos || h.indexOffset > h.totalLength - 36 {
      return Err(Truncated);
    }
    HeaderLong(s);
    var nextPos := pos + h.totalLength;
    var footerPos := nextPos - 36;
    var sections := ExtractSections(data, pos + 14, pos + h.indexOffset, env.encrypted);
    assert data[pos + 14..] == s[14..];
    if sections.Err? {
      return Err(sections.error);
    }
    assert data[pos + h.indexOffset..footerPos] == s[h.indexOffset..h.totalLength - 36];
    var index := DeserializeIndex(data[pos + h.indexOffset..footerPos]);
    if index.Err? {
      return Err(index.error);
    }
    assert data[pos..footerPos] == s[..h.totalLength - 36];
    assert data[footerPos + 32..nextPos] == s[h.totalLength - 4..h.totalLength];
    assert data[footerPos..footerPos + 32] == s[h.totalLength - 36..h.totalLength - 4];
    if env.crc(data[pos..footerPos]) != FromLE(data[footerPos + 32..nextPos]) {
      return Err(IntegrityMismatch);
    }
    r := Ok(Parsed(h.flags % 2 == 1, h.itemCount, sections.value, index.value, data[footerPos..footerPos + 32], h.totalLength));
  }

  lemma HeaderLong(s: seq<byte>)
    requires ReadHeader(s).Ok?
    ensures |s| >= 14
  {
  }

  /** Where getAllSnapshotsV3 stands: what it has and what the rest of the file will give. */
  ghost predicate Reading(env: Env, data: seq<byte>, start: nat, pos: nat, ordinal: nat, chain: seq<byte>, got: seq<Snapshot>)
  {
    start <= pos <= |data| &&
    SameAnswer(DecodeSegs(env, data[start..], 0, Genesis()), Prepend(got, DecodeSegs(env, data[pos..], ordinal, chain)))
  }

  lemma ReadingStart(env: Env, data: seq<byte>, start: nat)
    requires start <= |data|
    ensures Reading(env, data, start, start, 0, Genesis(), [])
  {
    hide DecodeSegs, Genesis;
    var r := DecodeSegs(env, data[start..], 0, Genesis());
    if r.Ok? {
      assert [] + r.value.0 == r.value.0;
    }
  }

  lemma ReadingStep(env: Env, data: seq<byte>, start: nat, pos: nat, ordinal: nat, chain: seq<byte>, got: seq<Snapshot>)
    requires Reading(env, data, start, pos, ordinal, chain, got) && pos + EOS_SIZE < |data|
    ensures var whole := DecodeSegs(env, data[start..], 0, Genesis());
            var p := ParseSegment(env, data[pos..]);
            if p.Err? then whole.Err?
            else
              var f := FollowChain(env, p.value.raws, chain);
              if f.Err? then whole.Err?
              else
                var d := DecodeParsed(env, p.value, ordinal);
                if d.Err? then whole.Err?
                else Reading(env, data, start, pos + p.value.size, ordinal + 1, f.value, got + d.value)
  {
    hide ParseSegment, FollowChain, DecodeParsed, Genesis;
    var p := ParseSegment(env, data[pos..]);
    if p.Ok? && FollowChain(env, p.value.raws, chain).Ok? && DecodeParsed(env, p.value, ordinal).Ok? {
      var xs := DecodeParsed(env, p.value, ordinal).value;
      assert data[pos..][p.value.size..] == data[pos + p.value.size..];
      var rest := DecodeSegs(env, data[pos + p.value.size..], ordinal + 1, FollowChain(env, p.value.raws, chain).value);
      if rest.Ok? {
        assert got + (xs + rest.value.0) == got + xs + rest.value.0;
      }
    }
  }

  lemma ReadingDone(env: Env, data: seq<byte>, start: nat, pos: nat, ordinal: nat, chain: seq<byte>, got: seq<Snapshot>)
    requires Reading(env, data, start, pos, ordinal, chain, got) && pos + EOS_SIZE >= |data|
    ensures DecodeSegs(env, data[start..], 0, Genesis()) == Ok((got, chain))
  {
    assert got + [] == got;
  }

  ghost predicate Verifying(env: Env, data: seq<byte>, start: nat, pos: nat, ordinal: nat, chain: seq<byte>)
  {
    start <= pos <= |data| &&
    SameAnswer(VerifySegs(env, data[start..], 0, Genesis()), VerifySegs(env, data[pos..], ordinal, chain))
  }

  lemma VerifyingStep(env: Env, data: seq<byte>, start: nat, pos: nat, ordinal: nat, chain: seq<byte>)
    requires Verifying(env, data, start, pos, ordinal, chain)
    ensures var whole := VerifySegs(env, data[start..], 0, Genesis());
            if pos + EOS_SIZE >= |data| then whole == Ok(chain)
            else
              var p := ParseSegment(env, data[pos..]);
              if p.Err? then whole.Err?
              else
                var f := FollowChain(env, p.value.raws, chain);
                if f.Err? || f.value != p.value.root || !VerifyParsed(env, p.value, ordinal) then whole.Err?
                else Verifying(env, data, start, pos + p.value.size, ordinal + 1, f.value)
  {
    hide ParseSegment, FollowChain, VerifyParsed, Genesis;
    var p := ParseSegment(env, data[pos..]);
    if p.Ok? {
      assert data[pos..][p.value.size..] == data[pos + p.value.size..];
    }
  }

  ghost predicate Querying(env: Env, data: seq<byte>, start: nat, pos: nat, ordinal: nat, id: int, got: seq<Snapshot>)
  {
    start <= pos <= |data| &&
    SameAnswer(QuerySegs(env, data[start..], 0, id), Append(got, QuerySegs(env, data[pos..], ordinal, id)))
  }

  function Append(front: seq<Snapshot>, r: Result<seq<Snapshot>>): Result<seq<Snapshot>>
  {
    match r
    case Err(e) => Err(e)
    case Ok(rest) => Ok(front + rest)
  }

  lemma QueryingStart(env: Env, data: seq<byte>, start: nat, id: int)
    requires start <= |data|
    ensures Querying(env, data, start, start, 0, id, [])
  {
    hide QuerySegs;
    var r := QuerySegs(env, data[start..], 0, id);
    if r.Ok? {
      assert [] + r.value == r.value;
    }
  }

  lemma QueryingStep(env: Env, data: seq<byte>, start: nat, pos: nat, ordinal: nat, id: int, got: seq<Snapshot>)
    requires Querying(env, data, start, pos, ordinal, id, got)
    ensures var whole := QuerySegs(env, data[start..], 0, id);
            if pos + EOS_SIZE >= |data| then whole == Ok(got)
            else
              var p := ParseSegment(env, data[pos..]);
              if p.Err? then whole.Err?
              else
                var q := QueryParsed(env, p.value, ordinal, id);
                if q.Err? then whole.Err?
                else Querying(env, data, start, pos + p.value.size, ordinal + 1, id, got + q.value)
  {
    hide ParseSegment, QueryParsed;
    if pos + EOS_SIZE >= |data| {
      assert got + [] == got;
    } else {
      var p := ParseSegment(env, data[pos..]);
      if p.Ok? && QueryParsed(env, p.value, ordinal, id).Ok? {
        var xs := QueryParsed(env, p.value, ordinal, id).value;
        assert data[pos..][p.value.size..] == data[pos + p.value.size..];
        var rest := QuerySegs(env, data[pos + p.value.size..], ordinal + 1, id);
        if rest.Ok? {
          assert got + (xs + rest.value) == got + xs + rest.value;
        }
      }
    }
  }

  class GICSv2Decoder {
    const env: Env
    const data: seq<byte>
    var pos: nat

    constructor (env: Env, data: seq<byte>)
      ensures this.env == env && this.data == data
    {
      this.env, this.data, pos := env, data, 0;
    }

    /** getAllSnapshots in strict mode. */
    method GetAllSnapshots() returns (r: Result<seq<Snapshot>>)
      modifies this
      ensures SameAnswer(r, DecodeFile(env, data))
    {
      hide ReadFileHeader, Reading, DecodeSegs, ParseSegment, FollowChain, DecodeParsed, EosOk, Genesis;
      if |data| < EOS_SIZE || data[|data| - EOS_SIZE] != 0xFF {
        return Err(Truncated);
      }
      var start := ReadFileHeader(env, data);
      if start.Err? {
        return Err(start.error);
      }
      pos := start.value;
      var snapshots: seq<Snapshot> := [];
      var integrity := new IntegrityChain(env, Some(Genesis()));
      var segmentOrdinal := 0;
      ReadingStart(env, data, pos);
      while pos + EOS_SIZE < |data|
        invariant Reading(env, data, start.value, pos, segmentOrdinal, integrity.currentHash, snapshots)
        invariant pos <= |data| && fresh(integrity) && integrity.env == env
        decreases |data| - pos
      {
        ReadingStep(env, data, start.value, pos, segmentOrdinal, integrity.currentHash, snapshots);
        var p := ParseSegmentParts(env, data, pos);
        if p.Err? {
          return Err(p.error);
        }
        var ok := AdvanceSections(env, p.value.raws, integrity);
        if !ok {
          return Err(IntegrityMismatch);
        }
        var xs := DecodeParts(env, p.value, segmentOrdinal);
        if xs.Err? {
          return Err(xs.error);
        }
        snapshots := snapshots + xs.value;
        pos := pos + p.value.size;
        segmentOrdinal := segmentOrdinal + 1;
      }
      ReadingDone(env, data, start.value, pos, segmentOrdinal, integrity.currentHash, snapshots);
      r := if EosOk(env, data, integrity.currentHash) then Ok(snapshots) else Err(IntegrityMismatch);
    }

    method VerifyIntegrityOnly() returns (ok: bool)
      modifies this
      ensures ok == VerifyFile(env, data)
    {
      hide ReadFileHeader, Verifying, VerifySegs, ParseSegment, FollowChain, VerifyParsed, EosOk, Genesis;
      if |data| < 14 + EOS_SIZE {
        return false;
      }
      var start := ReadFileHeader(env, data);
      if start.Err? {
        return false;
      }
      pos := start.value;
      var integrity := new IntegrityChain(env, Some(Genesis()));
      var segmentOrdinal := 0;
      VerifyingStart(env, data, pos);
      while pos + EOS_SIZE < |data|
        invariant Verifying(env, data, start.value, pos, segmentOrdinal, integrity.currentHash)
        invariant pos <= |data| && fresh(integrity) && integrity.env == env
        decreases |data| - pos
      {
        VerifyingStep(env, data, start.value, pos, segmentOrdinal, integrity.currentHash);
        var p := ParseSegmentParts(env, data, pos);
        if p.Err? {
          return false;
        }
        var advanced := AdvanceSections(env, p.value.raws, integrity);
        if !advanced || integrity.currentHash != p.value.root {
          return false;
        }
        var readable := VerifyParts(env, p.value, segmentOrdinal);
        if !readable {
          return false;
        }
        pos := pos + p.value.size;
        segmentOrdinal := segmentOrdinal + 1;
      }
      VerifyingStep(env, data, start.value, pos, segmentOrdinal, integrity.currentHash);
      ok := EosOk(env, data, integrity.currentHash);
    }

    /** query(id): a segment whose index does not hold the id is not decoded. */
    method Query(id: int) returns (r: Result<seq<Snapshot>>)
      modifies this
      ensures SameAnswer(r, QueryFile(env, data, id))
    {
      hide ReadFileHeader, Querying, QuerySegs, ParseSegment, DecodeParsed, WithId, Contains;
      var start := ReadFileHeader(env, data);
      if start.Err? {
        return Err(start.error);
      }
      pos := start.value;
      var result: seq<Snapshot> := [];
      var segmentOrdinal := 0;
      QueryingStart(env, data, pos, id);
      while pos + EOS_SIZE < |data|
        invariant Querying(env, data, start.value, pos, segmentOrdinal, id, result)
        invariant pos <= |data|
        decreases |data| - pos
      {
        QueryingStep(env, data, start.value, pos, segmentOrdinal, id, result);
        var p := ParseSegmentParts(env, data, pos);
        if p.Err? {
          return Err(p.error);
        }
        var found := Lookup(p.value.index, id);
        if !found {
          assert result + [] == result;
        } else {
          var xs := DecodeParts(env, p.value, segmentOrdinal);
          if xs.Err? {
            return Err(xs.error);
          }
          var kept := FilterById(xs.value, id);
          result := result + kept;
        }
        pos := pos + p.value.size;
        segmentOrdinal := segmentOrdinal + 1;
      }
      QueryingStep(env, data, start.value, pos, segmentOrdinal, id, result);
      r := Ok(result);
    }
  }

  lemma VerifyingStart(env: Env, data: seq<byte>, start: nat)
    requires start <= |data|
    ensures Verifying(env, data, start, start, 0, Genesis())
  {
  }
}
