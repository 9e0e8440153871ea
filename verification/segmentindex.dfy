/** src/gics/segment.ts and src/gics/string-dict.ts: the segment index, its bytes, and lookups in it. */
module SegmentIndex {
  import opened Bytes
  import opened Varint
  import opened FieldMath
  import Bloom
  import Snapshots

  /** A string key is its UTF-8 bytes. */
  type Key = seq<byte>

  datatype StringDict = StringDict(index: map<Key, nat>, entries: seq<Key>)

  datatype Index = Index(bloom: seq<byte>, ids: seq<int>, dict: Option<StringDict>)

  // ---- string dictionary --------------------------------------------------

  /** What build() makes: distinct entries, each mapped to its position. */
  ghost predicate DictOk(d: StringDict)
  {
    d.index.Keys == (set k | k in d.entries) &&
    forall i :: 0 <= i < |d.entries| ==> d.entries[i] in d.index && d.index[d.entries[i]] == i
  }

  function Lengths(entries: seq<Key>): (ls: seq<int>)
    ensures |ls| == |entries|
  {
    if entries == [] then [] else [|entries[0]|] + Lengths(entries[1..])
  }

  function Join(entries: seq<Key>): seq<byte>
  {
    if entries == [] then [] else entries[0] + Join(entries[1..])
  }

  function EncodeDict(d: StringDict): seq<byte>
  {
    if d.entries == [] then VarintSeq([0])
    else VarintSeq([|d.entries|]) + (VarintSeq(ValueDeltas(Lengths(d.entries), 0)) + Join(d.entries))
  }

  function Cut(data: seq<byte>, lengths: seq<int>): Result<seq<Key>>
  {
    if lengths == [] then Ok([])
    else if lengths[0] < 0 || lengths[0] > |data| then Err(Truncated)
    else
      match Cut(data[lengths[0]..], lengths[1..])
      case Err(e) => Err(e)
      case Ok(rest) => Ok([data[..lengths[0]]] + rest)
  }

  /** forwardMap.set(str, idx) in order. */
  function IndexOf(entries: seq<Key>): (m: map<Key, nat>)
    ensures m.Keys == set k | k in entries
  {
    if entries == [] then map[]
    else IndexOf(entries[..|entries| - 1])[entries[|entries| - 1] := |entries| - 1]
  }

  function DecodeDict(data: seq<byte>): Result<StringDict>
  {
    if data == [] then Ok(StringDict(map[], []))
    else
      match ReadVarintStrict(data)
      case Err(e) => Err(e)
      case Ok((z, used)) =>
        var count := UnZigZag(z);
        if count <= 0 then Ok(StringDict(map[], []))
        else
          match DecodeVarintCount(data[used..], count)
          case Err(e) => Err(e)
          case Ok((deltas, used')) =>
            match Cut(data[used..][used'..], DecodeValues(deltas, 0, 0, false).values)
            case Err(e) => Err(e)
            case Ok(entries) => Ok(StringDict(IndexOf(entries), entries))
  }

  lemma {:induction false} CutJoin(entries: seq<Key>, rest: seq<byte>)
    ensures Cut(Join(entries) + rest, Lengths(entries)) == Ok(entries)
  {
    if entries != [] {
      var data := Join(entries) + rest;
      var n := |entries[0]|;
      CutJoin(entries[1..], rest);
      assert Lengths(entries)[1..] == Lengths(entries[1..]);
      assert data[..n] == entries[0] && data[n..] == Join(entries[1..]) + rest;
      assert entries == [entries[0]] + entries[1..];
    }
  }

  lemma {:induction false} IndexOfDistinct(d: StringDict, n: nat)
    requires DictOk(d) && n <= |d.entries|
    ensures forall k :: k in d.entries[..n] ==> k in IndexOf(d.entries[..n]) && IndexOf(d.entries[..n])[k] == d.index[k]
  {
    if n > 0 {
      IndexOfDistinct(d, n - 1);
      assert d.entries[..n][..n - 1] == d.entries[..n - 1];
    }
  }

  lemma DictRoundTrip(d: StringDict)
    requires DictOk(d)
    ensures DecodeDict(EncodeDict(d)) == Ok(d)
  {
    hide VarintSeq, VarintBytes, ReadVarintStrict, DecodeVarintCount, DecodeValues, ValueDeltas, Cut, Join, Lengths, IndexOf;
    var n := |d.entries|;
    IndexOfDistinct(d, n);
    assert d.entries[..n] == d.entries;
    assert IndexOf(d.entries) == d.index;
    var deltas := ValueDeltas(Lengths(d.entries), 0);
    var tail := if n == 0 then [] else VarintSeq(deltas) + Join(d.entries);
    CountInFront(n, tail);
    assert VarintSeq([0]) + [] == VarintSeq([0]);
    if n > 0 {
      assert EncodeDict(d) == VarintSeq([n]) + tail;
      DecodeVarintCountAppend(deltas, Join(d.entries));
      DeltaRoundTrip(Lengths(d.entries), 0, 0);
      CutJoin(d.entries, []);
      assert Join(d.entries) + [] == Join(d.entries);
      assert tail[|VarintSeq(deltas)|..] == Join(d.entries);
    } else {
      NoEntries([]);
    }
  }

  lemma NoEntries(data: seq<byte>)
    ensures DecodeVarintCount(data, 0) == Ok(([], 0))
    ensures DecodeValues([], 0, 0, false).values == []
    ensures Cut(data, []) == Ok([])
  {
  }

  /** A count in front of a tail reads back, and the tail is what follows. */
  lemma CountInFront(n: nat, tail: seq<byte>)
    ensures VarintSeq([n]) + tail != []
    ensures ReadVarintStrict(VarintSeq([n]) + tail) == Ok((ZigZag(n), |VarintSeq([n])|))
    ensures UnZigZag(ZigZag(n)) == n
    ensures (VarintSeq([n]) + tail)[|VarintSeq([n])|..] == tail
  {
    hide VarintBytes, ReadVarintStrict, VarintSeq, ZigZag, UnZigZag;
    OneVarint(n);
    ZigZagBijection(n, 0);
    var head := VarintSeq([n]);
    assert head == VarintBytes(ZigZag(n));
    ReadVarintBytes(ZigZag(n), tail);
    assert (head + tail)[|head|..] == tail;
  }

  // ---- index bytes --------------------------------------------------------

  function DictSection(dict: Option<StringDict>): seq<byte>
  {
    match dict
    case None => []
    case Some(d) => [1] + (ToLE(|EncodeDict(d)|, 4) + EncodeDict(d))
  }

  function EncodeIndex(ix: Index): seq<byte>
  {
    ToLE(|ix.bloom|, 2) + (ix.bloom + (ToLE(|ix.ids|, 4)
    + (VarintSeq(ValueDeltas(ix.ids, 0)) + DictSection(ix.dict))))
  }

  function Prefix(xs: seq<int>, n: nat): seq<int> { if n <= |xs| then xs[..n] else xs }

  /** The trailing section; one that is cut short is ignored, as the source does. */
  function DecodeDictSection(data: seq<byte>): Result<Option<StringDict>>
  {
    if data == [] || data[0] != 1 || |data| < 5 then Ok(None)
    else
      var n := FromLE(data[1..5]);
      if 5 + n > |data| then Ok(None)
      else
        match DecodeDict(data[5..5 + n])
        case Err(e) => Err(e)
        case Ok(d) => Ok(Some(d))
  }

  /** Ids and dictionary: the whole rest is decoded as varints, then the boundary is found by
      re-encoding the first `count` of them. */
  function DecodeIds(data: seq<byte>, count: nat): Result<(seq<int>, Option<StringDict>)>
  {
    var deltas := Prefix(DecodeVarintSeq(data), count);
    var consumed := |VarintSeq(deltas)|;
    var ids := DecodeValues(deltas, 0, 0, false).values;
    if consumed > |data| then Ok((ids, None))
    else
      match DecodeDictSection(data[consumed..])
      case Err(e) => Err(e)
      case Ok(d) => Ok((ids, d))
  }

  function DecodeIndex(data: seq<byte>): Result<Index>
  {
    if |data| < 2 then Err(Truncated)
    else
      var bloomSize := FromLE(data[..2]);
      if |data| < 2 + bloomSize then Err(Truncated)
      else if |data| < 2 + bloomSize + 4 then Err(Truncated)
      else
        var count := FromLE(data[2 + bloomSize..2 + bloomSize + 4]);
        match DecodeIds(data[2 + bloomSize + 4..], count)
        case Err(e) => Err(e)
        case Ok((ids, dict)) => Ok(Index(data[2..2 + bloomSize], ids, dict))
  }

  ghost predicate IndexOk(ix: Index)
  {
    |ix.bloom| < 0x1_0000 && |ix.ids| < 0x1_0000_0000 &&
    (ix.dict.Some? ==> DictOk(ix.dict.value) && |EncodeDict(ix.dict.value)| < 0x1_0000_0000)
  }

  lemma DictSectionRoundTrip(dict: Option<StringDict>)
    requires dict.Some? ==> DictOk(dict.value) && |EncodeDict(dict.value)| < 0x1_0000_0000
    ensures DecodeDictSection(DictSection(dict)) == Ok(dict)
  {
    hide EncodeDict, DecodeDict, ToLE, FromLE;
    if dict.Some? {
      var bytes := EncodeDict(dict.value);
      FieldWidths();
      FromLEToLE(|bytes|, 4);
      DictRoundTrip(dict.value);
      assert DictSection(dict)[1..5] == ToLE(|bytes|, 4);
      assert DictSection(dict)[5..5 + |bytes|] == bytes;
    }
  }

  /** The boundary between ids and dictionary is found, whatever the dictionary bytes look like as varints. */
  lemma IdsRoundTrip(ids: seq<int>, dict: Option<StringDict>)
    requires dict.Some? ==> DictOk(dict.value) && |EncodeDict(dict.value)| < 0x1_0000_0000
    ensures DecodeIds(VarintSeq(ValueDeltas(ids, 0)) + DictSection(dict), |ids|) == Ok((ids, dict))
  {
    hide VarintSeq, DecodeVarintSeq, ValueDeltas, DecodeValues, DictSection, DecodeDictSection;
    var deltas := ValueDeltas(ids, 0);
    var data := VarintSeq(deltas) + DictSection(dict);
    DecodeVarintAppend(deltas, DictSection(dict));
    assert Prefix(DecodeVarintSeq(data), |ids|) == deltas;
    DeltaRoundTrip(ids, 0, 0);
    assert data[|VarintSeq(deltas)|..] == DictSection(dict);
    DictSectionRoundTrip(dict);
  }

  /** Index bytes round-trip with and without a string dictionary. */
  lemma IndexRoundTrip(ix: Index)
    requires IndexOk(ix)
    ensures DecodeIndex(EncodeIndex(ix)) == Ok(ix)
  {
    hide VarintSeq, ValueDeltas, DictSection, DecodeIds, ToLE, FromLE, EncodeDict;
    FieldWidths();
    FromLEToLE(|ix.bloom|, 2);
    FromLEToLE(|ix.ids|, 4);
    IdsRoundTrip(ix.ids, ix.dict);
    var data, b := EncodeIndex(ix), |ix.bloom|;
    var tail := VarintSeq(ValueDeltas(ix.ids, 0)) + DictSection(ix.dict);
    assert data[..2] == ToLE(b, 2);
    assert data[2..2 + b] == ix.bloom;
    assert data[2 + b..2 + b + 4] == ToLE(|ix.ids|, 4);
    assert data[2 + b + 4..] == tail;
  }

  // ---- the loops ----------------------------------------------------------

  lemma JoinSnoc(front: seq<Key>, k: Key)
    ensures Join(front + [k]) == Join(front) + k
  {
    if front == [] {
      assert [k][1..] == [] && k + [] == k && [] + [k] == [k] && [] + k == k;
    } else {
      JoinSnoc(front[1..], k);
      assert (front + [k])[1..] == front[1..] + [k];
      assert front[0] + (Join(front[1..]) + k) == front[0] + Join(front[1..]) + k;
    }
  }

  lemma LengthsSnoc(front: seq<Key>, k: Key)
    ensures Lengths(front + [k]) == Lengths(front) + [|k|]
  {
    if front == [] {
      assert [] + [k] == [k];
    } else {
      LengthsSnoc(front[1..], k);
      assert (front + [k])[1..] == front[1..] + [k];
    }
  }

  /** build, on the distinct keys in the order they were sorted to. */
  method BuildDict(unique: seq<Key>) returns (d: StringDict)
    requires forall i, j :: 0 <= i < j < |unique| ==> unique[i] != unique[j]
    ensures DictOk(d) && d.entries == unique
  {
    var index: map<Key, nat> := map[];
    for i := 0 to |unique|
      invariant index.Keys == set k | k in unique[..i]
      invariant forall j :: 0 <= j < i ==> unique[j] in index && index[unique[j]] == j
    {
      assert unique[..i + 1] == unique[..i] + [unique[i]];
      assert unique[i] !in unique[..i];
      index := index[unique[i] := i];
    }
    assert unique[..|unique|] == unique;
    d := StringDict(index, unique);
  }

  /** encode */
  method EncodeStringDict(d: StringDict) returns (result: seq<byte>)
    ensures result == EncodeDict(d)
  {
    hide VarintSeq, ValueDeltas;
    if |d.entries| == 0 {
      result := EncodeVarint([0]);
      return;
    }
    var lengths: seq<int> := [];
    var payload: seq<byte> := [];
    for i := 0 to |d.entries|
      invariant lengths == Lengths(d.entries[..i]) && payload == Join(d.entries[..i])
    {
      assert d.entries[..i + 1] == d.entries[..i] + [d.entries[i]];
      LengthsSnoc(d.entries[..i], d.entries[i]);
      JoinSnoc(d.entries[..i], d.entries[i]);
      lengths := lengths + [|d.entries[i]|];
      payload := payload + d.entries[i];
    }
    assert d.entries[..|d.entries|] == d.entries;
    var deltas, last := ComputeValueDeltas(lengths, 0);
    var countBytes := EncodeVarint([|d.entries|]);
    var lengthBytes := EncodeVarint(deltas);
    result := countBytes + (lengthBytes + payload);
  }

  function WithFront(front: seq<Key>, rest: Result<seq<Key>>): Result<seq<Key>>
  {
    match rest
    case Err(e) => Err(e)
    case Ok(ks) => Ok(front + ks)
  }

  /** The string loop of decode: every entry is cut off at the moving position. */
  method CutStrings(data: seq<byte>, start: nat, lengths: seq<int>) returns (r: Result<seq<Key>>)
    requires start <= |data|
    ensures r == Cut(data[start..], lengths)
  {
    var pos: nat, entries: seq<Key> := start, [];
    ghost var whole := Cut(data[start..], lengths);
    assert whole.Ok? ==> [] + whole.value == whole.value;
    assert lengths[0..] == lengths;
    for i := 0 to |lengths|
      invariant start <= pos <= |data|
      invariant whole == WithFront(entries, Cut(data[pos..], lengths[i..]))
    {
      assert lengths[i..][0] == lengths[i] && lengths[i..][1..] == lengths[i + 1..];
      if lengths[i] < 0 || pos + lengths[i] > |data| {
        return Err(Truncated);
      }
      var nextPos: nat := pos + lengths[i];
      ghost var rest := Cut(data[nextPos..], lengths[i + 1..]);
      assert data[pos..][..lengths[i]] == data[pos..nextPos] && data[pos..][lengths[i]..] == data[nextPos..];
      assert rest.Ok? ==> entries + ([data[pos..nextPos]] + rest.value) == entries + [data[pos..nextPos]] + rest.value;
      entries := entries + [data[pos..nextPos]];
      pos := nextPos;
    }
    assert lengths[|lengths|..] == [] && entries + [] == entries;
    r := Ok(entries);
  }

  /** decode, and the maps deserialize builds from it. */
  method DecodeStringDict(data: seq<byte>) returns (r: Result<StringDict>)
    ensures r == DecodeDict(data)
  {
    hide ReadVarintStrict, DecodeVarintCount, Cut, DecodeValues, UnZigZag;
    if |data| == 0 {
      return Ok(StringDict(map[], []));
    }
    assert data[0..] == data;
    var counted := DecodeVarintAt(data, 0);
    if counted.Err? {
      return Err(counted.error);
    }
    var (count, pos) := counted.value;
    if count <= 0 {
      return Ok(StringDict(map[], []));
    }
    var deltas := DecodeVarintN(data, pos, count);
    if deltas.Err? {
      return Err(deltas.error);
    }
    var lengths := DecodeValueStream(deltas.value.0, 0, 0, false);
    assert data[pos..][deltas.value.1 - pos..] == data[deltas.value.1..];
    var entries := CutStrings(data, deltas.value.1, lengths.values);
    if entries.Err? {
      return Err(entries.error);
    }
    var index: map<Key, nat> := map[];
    for i := 0 to |entries.value|
      invariant index == IndexOf(entries.value[..i])
    {
      assert entries.value[..i + 1][..i] == entries.value[..i];
      index := index[entries.value[i] := i];
    }
    assert entries.value[..|entries.value|] == entries.value;
    r := Ok(StringDict(index, entries.value));
  }

  /** serialize */
  method SerializeIndex(ix: Index) returns (buffer: seq<byte>)
    ensures buffer == EncodeIndex(ix)
  {
    hide VarintSeq, ValueDeltas, EncodeDict, ToLE;
    var deltas, last := ComputeValueDeltas(ix.ids, 0);
    var deltaBytes := EncodeVarint(deltas);
    buffer := ToLE(|ix.bloom|, 2) + ix.bloom;
    buffer := buffer + ToLE(|ix.ids|, 4) + deltaBytes;
    if ix.dict.Some? {
      var dictBytes := EncodeStringDict(ix.dict.value);
      buffer := buffer + [1] + ToLE(|dictBytes|, 4) + dictBytes;
    }
  }

  /** deserialize */
  method DeserializeIndex(data: seq<byte>) returns (r: Result<Index>)
    ensures r == DecodeIndex(data)
  {
    hide VarintSeq, DecodeVarintSeq, DecodeValues, DecodeDict, FromLE;
    if |data| < 2 {
      return Err(Truncated);
    }
    var bloomSize := FromLE(data[..2]);
    var pos: nat := 2;
    if |data| < pos + bloomSize {
      return Err(Truncated);
    }
    var bloom := data[pos..pos + bloomSize];
    pos := pos + bloomSize;
    if |data| < pos + 4 {
      return Err(Truncated);
    }
    var count := FromLE(data[pos..pos + 4]);
    pos := pos + 4;
    ghost var rest := data[pos..];
    var deltas := DecodeVarint(data[pos..]);
    var firsts := if count <= |deltas| then deltas[..count] else deltas;
    var ids := DecodeValueStream(firsts, 0, 0, false);
    var reencoded := EncodeVarint(firsts);
    pos := pos + |reencoded|;
    if pos > |data| {
      return Ok(Index(bloom, ids.values, None));
    }
    assert data[pos..] == rest[|reencoded|..];
    var dict := DeserializeDict(data, pos);
    if dict.Err? {
      return Err(dict.error);
    }
    r := Ok(Index(bloom, ids.values, dict.value));
  }

  method DeserializeDict(data: seq<byte>, start: nat) returns (r: Result<Option<StringDict>>)
    requires start <= |data|
    ensures r == DecodeDictSection(data[start..])
  {
    hide DecodeDict, FromLE;
    var pos := start;
    if pos >= |data| {
      return Ok(None);
    }
    var hasDict := data[pos];
    pos := pos + 1;
    if hasDict != 1 || pos + 4 > |data| {
      return Ok(None);
    }
    assert data[pos..pos + 4] == data[start..][1..5];
    var dictLen := FromLE(data[pos..pos + 4]);
    pos := pos + 4;
    if pos + dictLen > |data| {
      return Ok(None);
    }
    assert data[pos..pos + dictLen] == data[start..][5..5 + dictLen];
    var d := DecodeStringDict(data[pos..pos + dictLen]);
    r := if d.Err? then Err(d.error) else Ok(Some(d.value));
  }

  // ---- lookups ------------------------------------------------------------

  /** Binary search between two places, in whatever order the ids are. */
  predicate Found(ids: seq<int>, id: int, low: nat, high: nat)
    requires low <= high <= |ids|
    decreases high - low
  {
    low < high &&
    var mid := (low + high - 1) / 2;
    if ids[mid] == id then true
    else if ids[mid] < id then Found(ids, id, mid + 1, high)
    else Found(ids, id, low, mid)
  }

  /** Among ascending ids the search finds exactly those that are there. */
  lemma {:induction false} FoundExact(ids: seq<int>, id: int, low: nat, high: nat)
    requires Snapshots.Ascending(ids) && low <= high <= |ids|
    ensures Found(ids, id, low, high) <==> exists i :: low <= i < high && ids[i] == id
    decreases high - low
  {
    if low < high {
      var mid := (low + high - 1) / 2;
      if ids[mid] < id {
        FoundExact(ids, id, mid + 1, high);
      } else if ids[mid] > id {
        FoundExact(ids, id, low, mid);
      }
    }
  }

  predicate Contains(ix: Index, id: int)
    requires ix.bloom != []
  {
    Bloom.MaybeContains(ix.bloom, id) && Found(ix.ids, id, 0, |ix.ids|)
  }

  const BLOOM_SIZE: nat := 256

  /** createSegmentIndex: the distinct ids in order and a filter holding each. */
  function MakeIndex(itemIds: seq<int>): (ix: Index)
    ensures |ix.bloom| == BLOOM_SIZE && Snapshots.Ascending(ix.ids) && ix.dict == None
    ensures forall x :: x in ix.ids <==> x in itemIds
  {
    var ids := Snapshots.Sorted(set x | x in itemIds);
    Index(Bloom.AddAll(seq(BLOOM_SIZE, _ => 0), ids), ids, None)
  }

  /** createSegmentIndex over a Bloom filter. */
  method CreateSegmentIndex(itemIds: seq<int>) returns (ix: Index)
    ensures ix == MakeIndex(itemIds)
  {
    hide Bloom.AddId, Snapshots.Sorted;
    var uniqueIds := Snapshots.Sorted(set x | x in itemIds);
    var bits := FilterOf(uniqueIds);
    ix := Index(bits, uniqueIds, None);
  }

  method FilterOf(uniqueIds: seq<int>) returns (bits: seq<byte>)
    ensures bits == Bloom.AddAll(seq(BLOOM_SIZE, _ => 0), uniqueIds)
  {
    hide Bloom.AddId;
    var bf := new Bloom.BloomFilter(BLOOM_SIZE);
    ghost var empty := bf.bits[..];
    assert empty == seq(BLOOM_SIZE, _ => 0);
    for i := 0 to |uniqueIds|
      invariant fresh(bf) && fresh(bf.bits)
      invariant bf.bits[..] == Bloom.AddAll(empty, uniqueIds[..i])
    {
      assert uniqueIds[..i + 1][..i] == uniqueIds[..i];
      bf.Add(uniqueIds[i]);
    }
    assert uniqueIds[..|uniqueIds|] == uniqueIds;
    bits := bf.bits[..];
  }

  /** Neither the filter nor the search ever misses an id of the segment, or invents one. */
  lemma ContainsExact(itemIds: seq<int>, id: int)
    ensures Contains(MakeIndex(itemIds), id) <==> id in itemIds
  {
    hide Bloom.MaybeContains, Bloom.AddAll, Found;
    var ids := Snapshots.Sorted(set x | x in itemIds);
    FoundExact(ids, id, 0, |ids|);
    assert (exists i :: 0 <= i < |ids| && ids[i] == id) <==> id in ids;
    if id in ids {
      Bloom.NoFalseNegatives(seq(BLOOM_SIZE, _ => 0), ids, id);
    }
  }

  /** contains(): filter first, then binary search; a filter of no bytes has no bit set. */
  method Lookup(ix: Index, id: int) returns (found: bool)
    ensures found <==> ix.bloom != [] && Contains(ix, id)
  {
    hide Bloom.MaybeContains;
    if ix.bloom == [] || !Bloom.MaybeContains(ix.bloom, id) {
      return false;
    }
    var low, high := 0, |ix.ids| - 1;
    while low <= high
      invariant 0 <= low <= high + 1 <= |ix.ids|
      invariant Found(ix.ids, id, 0, |ix.ids|) == Found(ix.ids, id, low, high + 1)
      decreases high - low
    {
      var mid := (low + high) / 2;
      var val := ix.ids[mid];
      if val == id {
        return true;
      }
      if val < id {
        low := mid + 1;
      } else {
        high := mid - 1;
      }
    }
    found := false;
  }
}
