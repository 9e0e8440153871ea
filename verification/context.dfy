/** src/gics/context.ts and the dictionary codec of src/gics/codecs.ts: the coding context that the
    encoder and the decoder keep in step. */
module Context {
  import opened Bytes
  import opened Varint

  /** Ring size; an index fits one byte. */
  const MAX_DICT: nat := 256

  /** `enabled` is false when the context id is null: nothing is then ever remembered. */
  datatype Dict = Dict(enabled: bool, entries: seq<int>, index: map<int, nat>, pos: nat)

  /** The coding state a snapshot saves. */
  datatype Ctx = Ctx(
    lastTimestamp: Option<int>,
    lastTimestampDelta: Option<int>,
    lastValue: Option<int>,
    lastValueDelta: Option<int>,
    dict: Dict)

  /** x ?? 0 */
  function OrZero(x: Option<int>): int
  {
    match x
    case None => 0
    case Some(v) => v
  }

  function FreshDict(enabled: bool): Dict { Dict(enabled, [], map[], 0) }

  function FreshCtx(enabled: bool): Ctx { Ctx(None, None, None, None, FreshDict(enabled)) }

  predicate WellFormed(d: Dict)
  {
    |d.entries| <= MAX_DICT && d.pos < MAX_DICT
  }

  /** The reverse map never points at another value. */
  predicate Coherent(d: Dict)
  {
    WellFormed(d) &&
    (!d.enabled ==> d.index == map[]) &&
    forall v :: v in d.index ==> d.index[v] < |d.entries| && d.entries[d.index[v]] == v
  }

  /** updateDictionary: append until full, then overwrite the oldest slot. */
  function Update(d: Dict, v: int): (r: Dict)
    requires WellFormed(d)
    ensures WellFormed(r) && r.enabled == d.enabled
  {
    if !d.enabled then d
    else if |d.entries| < MAX_DICT then
      d.(index := d.index[v := |d.entries|], entries := d.entries + [v])
    else
      var evicted := d.entries[d.pos];
      var index := if evicted in d.index && d.index[evicted] == d.pos then d.index - {evicted} else d.index;
      d.(index := index[v := d.pos], entries := d.entries[d.pos := v], pos := (d.pos + 1) % MAX_DICT)
  }

  lemma UpdateCoherent(d: Dict, v: int)
    requires Coherent(d)
    ensures Coherent(Update(d, v))
  {
  }

  // ---- the dictionary codec ----------------------------------------------

  /** Odd codes are hits, even codes are literals. */
  function DictCodes(values: seq<int>, d: Dict): (r: (seq<int>, Dict))
    requires WellFormed(d)
    ensures WellFormed(r.1) && r.1.enabled == d.enabled && |r.0| == |values|
  {
    if values == [] then ([], d)
    else if values[0] in d.index then
      var (codes, d') := DictCodes(values[1..], d);
      ([d.index[values[0]] * 2 + 1] + codes, d')
    else
      var (codes, d') := DictCodes(values[1..], Update(d, values[0]));
      ([ZigZag(values[0]) * 2] + codes, d')
  }

  /** A negative code is never produced; what the decoder makes of one is not modelled. */
  function DecodeCodes(raw: seq<int>, d: Dict): (r: Result<(seq<int>, Dict)>)
    requires WellFormed(d)
    ensures r.Ok? ==> WellFormed(r.value.1) && |r.value.0| == |raw|
  {
    if raw == [] then Ok(([], d))
    else if raw[0] < 0 then Err(Malformed)
    else if raw[0] % 2 == 1 then
      if raw[0] / 2 >= |d.entries| then Err(IntegrityMismatch)
      else
        match DecodeCodes(raw[1..], d)
        case Err(e) => Err(e)
        case Ok((vs, d')) => Ok(([d.entries[raw[0] / 2]] + vs, d'))
    else
      var v := UnZigZag(raw[0] / 2);
      match DecodeCodes(raw[1..], Update(d, v))
      case Err(e) => Err(e)
      case Ok((vs, d')) => Ok(([v] + vs, d'))
  }

  /** The decoder's ring is the encoder's; with the context off the encoder never refers to it. */
  predicate Synced(enc: Dict, dec: Dict)
  {
    WellFormed(dec) && dec.enabled &&
    (enc.enabled ==> enc.entries == dec.entries && enc.pos == dec.pos)
  }

  lemma UpdateSynced(enc: Dict, dec: Dict, v: int)
    requires Coherent(enc) && Synced(enc, dec)
    ensures Synced(Update(enc, v), Update(dec, v))
  {
  }

  /** Lockstep: from rings with equal contents, whatever their reverse maps, the values come back and
      the rings are equal again. */
  lemma {:induction false} DictLockstep(values: seq<int>, enc: Dict, dec: Dict)
    requires Coherent(enc) && Synced(enc, dec)
    ensures Coherent(DictCodes(values, enc).1)
    ensures var r := DecodeCodes(DictCodes(values, enc).0, dec);
            r.Ok? && r.value.0 == values && Synced(DictCodes(values, enc).1, r.value.1)
  {
    hide Update;
    if values != [] {
      var v := values[0];
      var codes := DictCodes(values, enc).0;
      assert values == [v] + values[1..];
      if v in enc.index {
        DictLockstep(values[1..], enc, dec);
        assert codes[1..] == DictCodes(values[1..], enc).0;
      } else {
        UpdateCoherent(enc, v);
        UpdateSynced(enc, dec, v);
        ZigZagBijection(v, 0);
        DictLockstep(values[1..], Update(enc, v), Update(dec, v));
        assert codes[1..] == DictCodes(values[1..], Update(enc, v)).0;
        assert codes[0] == ZigZag(v) * 2;
      }
    }
  }

  // ---- what the dictionary holds ------------------------------------------

  /** The reverse map finds every value of an enabled ring where it stands, so no value stands in it twice. */
  predicate Covered(d: Dict)
  {
    d.enabled ==> forall i :: 0 <= i < |d.entries| ==> d.entries[i] in d.index && d.index[d.entries[i]] == i
  }

  predicate Distinct(values: seq<int>)
  {
    forall i, j :: 0 <= i < j < |values| ==> values[i] != values[j]
  }

  /** A new value, even one that evicts another, is found again and hides none of those that stay. */
  lemma UpdateCovered(d: Dict, v: int)
    requires Coherent(d) && Covered(d) && v !in d.index
    ensures Covered(Update(d, v))
  {
    if d.enabled {
      var r := Update(d, v);
      forall i | 0 <= i < |r.entries|
        ensures r.entries[i] in r.index && r.index[r.entries[i]] == i
      {
        if i < |d.entries| && r.entries[i] != v {
          assert r.entries[i] == d.entries[i] && d.index[d.entries[i]] == i;
        }
      }
    }
  }

  lemma {:induction false} CodesCovered(values: seq<int>, d: Dict)
    requires Coherent(d) && Covered(d)
    ensures Coherent(DictCodes(values, d).1) && Covered(DictCodes(values, d).1)
  {
    hide Update, Covered, Coherent;
    if values != [] {
      CoherentIsWellFormed(d);
      if values[0] in d.index {
        CodesCovered(values[1..], d);
      } else {
        UpdateCoherent(d, values[0]);
        UpdateCovered(d, values[0]);
        CoherentIsWellFormed(Update(d, values[0]));
        CodesCovered(values[1..], Update(d, values[0]));
      }
    }
  }

  lemma CoherentIsWellFormed(d: Dict)
    requires Coherent(d)
    ensures WellFormed(d)
  {
  }

  /** The ring after any number of blocks. */
  function RingAfter(blocks: seq<seq<int>>, enabled: bool): (d: Dict)
    ensures WellFormed(d) && d.enabled == enabled
  {
    if blocks == [] then FreshDict(enabled)
    else DictCodes(blocks[|blocks| - 1], RingAfter(blocks[..|blocks| - 1], enabled)).1
  }

  /** In every run from a fresh ring, through any evictions, the ring holds no value twice and finds each it holds. */
  lemma {:induction false} RingDistinct(blocks: seq<seq<int>>, enabled: bool)
    ensures var d := RingAfter(blocks, enabled); Coherent(d) && Covered(d) && (enabled ==> Distinct(d.entries))
  {
    hide DictCodes;
    if blocks != [] {
      var front := blocks[..|blocks| - 1];
      RingDistinct(front, enabled);
      CodesCovered(blocks[|blocks| - 1], RingAfter(front, enabled));
    }
    hide RingAfter;
    if enabled {
      CoveredDistinct(RingAfter(blocks, enabled));
    }
  }

  lemma CoveredDistinct(d: Dict)
    requires Covered(d) && d.enabled
    ensures Distinct(d.entries)
  {
  }

  /** The dictionary is used: a value the ring holds is one odd code that names its place, and the ring stays as it is;
      any other is a literal, and the ring takes it in. */
  lemma DictUsed(v: int, rest: seq<int>, d: Dict)
    requires Coherent(d) && Covered(d) && d.enabled
    ensures var (codes, after) := DictCodes([v] + rest, d);
            && (v in d.entries ==> exists i :: 0 <= i < |d.entries| && d.entries[i] == v && codes[0] == 2 * i + 1
                                     && (codes[1..], after) == DictCodes(rest, d))
            && (v !in d.entries ==> codes[0] == 2 * ZigZag(v)
                                    && (codes[1..], after) == DictCodes(rest, Update(d, v)))
  {
    hide Update;
    var all := [v] + rest;
    assert all[1..] == rest;
    if v in d.index {
      assert d.entries[d.index[v]] == v;
    }
  }

  // ---- the mutable context ------------------------------------------------

  class ContextV0 {
    const enabled: bool
    var lastTimestamp: Option<int>
    var lastTimestampDelta: Option<int>
    var lastValue: Option<int>
    var lastValueDelta: Option<int>
    var dictionary: seq<int>
    var dictMap: map<int, nat>
    var dictPos: nat

    constructor (enabled: bool)
      ensures State() == FreshCtx(enabled)
    {
      this.enabled := enabled;
      lastTimestamp, lastTimestampDelta, lastValue, lastValueDelta := None, None, None, None;
      dictionary, dictMap, dictPos := [], map[], 0;
    }

    function State(): Ctx
      reads this
    {
      Ctx(lastTimestamp, lastTimestampDelta, lastValue, lastValueDelta,
          Dict(enabled, dictionary, dictMap, dictPos))
    }

    method UpdateDictionary(val: int)
      requires WellFormed(State().dict)
      modifies this
      ensures State() == old(State()).(dict := Update(old(State().dict), val))
    {
      if !enabled {
        return;
      }
      if |dictionary| < MAX_DICT {
        dictMap := dictMap[val := |dictionary|];
        dictionary := dictionary + [val];
      } else {
        var oldVal := dictionary[dictPos];
        if oldVal in dictMap && dictMap[oldVal] == dictPos {
          dictMap := dictMap - {oldVal};
        }
        dictionary := dictionary[dictPos := val];
        dictMap := dictMap[val := dictPos];
        dictPos := (dictPos + 1) % MAX_DICT;
      }
    }

    method Snapshot() returns (s: Ctx)
      ensures s == State()
    {
      s := State();
    }

    method Restore(s: Ctx)
      requires s.dict.enabled == enabled
      modifies this
      ensures State() == s
    {
      lastTimestamp, lastTimestampDelta := s.lastTimestamp, s.lastTimestampDelta;
      lastValue, lastValueDelta := s.lastValue, s.lastValueDelta;
      dictionary, dictMap, dictPos := s.dict.entries, s.dict.index, s.dict.pos;
    }

    method EncodeDict(values: seq<int>) returns (out: seq<byte>)
      requires WellFormed(State().dict)
      modifies this
      ensures out == VarintSeq(DictCodes(values, old(State().dict)).0)
      ensures State() == old(State()).(dict := DictCodes(values, old(State().dict)).1)
    {
      hide Update;
      var output := [];
      ghost var whole := DictCodes(values, State().dict);
      for i := 0 to |values|
        invariant WellFormed(State().dict)
        invariant State() == old(State()).(dict := State().dict)
        invariant var rest := DictCodes(values[i..], State().dict);
                  output + rest.0 == whole.0 && rest.1 == whole.1
      {
        var val := values[i];
        assert values[i..][1..] == values[i + 1..];
        if val !in dictMap {
          output := output + [ZigZag(val) * 2];
          UpdateDictionary(val);
        } else {
          output := output + [dictMap[val] * 2 + 1];
        }
      }
      assert output + [] == output;
      out := EncodeVarint(output);
    }

    method DecodeDict(data: seq<byte>) returns (result: Result<seq<int>>)
      requires WellFormed(State().dict)
      modifies this
      ensures var r := DecodeCodes(DecodeVarintSeq(data), old(State().dict));
              match r
              case Err(e) => result == Err(e)
              case Ok((vs, d)) => result == Ok(vs) && State() == old(State()).(dict := d)
    {
      hide Update;
      var raw := DecodeVarint(data);
      var values := [];
      ghost var whole := DecodeCodes(raw, State().dict);
      for i := 0 to |raw|
        invariant WellFormed(State().dict)
        invariant State() == old(State()).(dict := State().dict)
        invariant match DecodeCodes(raw[i..], State().dict)
                  case Err(e) => whole == Err(e)
                  case Ok((vs, d)) => whole.Ok? && whole.value.0 == values + vs && whole.value.1 == d
      {
        var r := raw[i];
        assert raw[i..][1..] == raw[i + 1..];
        if r < 0 {
          return Err(Malformed);
        }
        if r % 2 == 1 {
          var idx := r / 2;
          if idx >= |dictionary| {
            return Err(IntegrityMismatch);
          }
          values := values + [dictionary[idx]];
        } else {
          var val := UnZigZag(r / 2);
          values := values + [val];
          UpdateDictionary(val);
        }
      }
      assert values + [] == values;
      result := Ok(values);
    }
  }
}
