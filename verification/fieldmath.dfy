/** src/gics/field-math.ts: delta and delta-of-delta coding with state carried from block to block. */
module FieldMath {
  datatype Coded = Coded(values: seq<int>, next: int, nextDelta: int)

  // ---- timestamps ---------------------------------------------------------

  /** Delta-of-deltas, the last timestamp and the last delta. */
  function TimeDeltas(ts: seq<int>, prev: int, prevDelta: int): (c: Coded)
    ensures |c.values| == |ts|
  {
    if ts == [] then Coded([], prev, prevDelta)
    else
      var delta := ts[0] - prev;
      var rest := TimeDeltas(ts[1..], ts[0], delta);
      rest.(values := [delta - prevDelta] + rest.values)
  }

  function DecodeTimes(dods: seq<int>, prev: int, prevDelta: int): (c: Coded)
    ensures |c.values| == |dods|
  {
    if dods == [] then Coded([], prev, prevDelta)
    else
      var delta := prevDelta + dods[0];
      var rest := DecodeTimes(dods[1..], prev + delta, delta);
      rest.(values := [prev + delta] + rest.values)
  }

  /** Timestamps come back exactly and both sides carry the same state on. */
  lemma {:induction false} TimeRoundTrip(ts: seq<int>, prev: int, prevDelta: int)
    ensures DecodeTimes(TimeDeltas(ts, prev, prevDelta).values, prev, prevDelta)
         == TimeDeltas(ts, prev, prevDelta).(values := ts)
  {
    if ts != [] {
      var dods := TimeDeltas(ts, prev, prevDelta).values;
      TimeRoundTrip(ts[1..], ts[0], ts[0] - prev);
      assert dods[1..] == TimeDeltas(ts[1..], ts[0], ts[0] - prev).values;
      assert ts == [ts[0]] + ts[1..];
    }
  }

  method ComputeTimeDeltas(timestamps: seq<int>, lastTimestamp: int, lastTimestampDelta: int) returns (c: Coded)
    ensures c == TimeDeltas(timestamps, lastTimestamp, lastTimestampDelta)
  {
    hide TimeDeltas;
    var deltas, prev, prevDelta := [], lastTimestamp, lastTimestampDelta;
    ghost var whole := TimeDeltas(timestamps, prev, prevDelta);
    for i := 0 to |timestamps|
      invariant var rest := TimeDeltas(timestamps[i..], prev, prevDelta);
                whole == rest.(values := deltas + rest.values)
    {
      TimeCons(timestamps, i, prev, prevDelta);
      var current := timestamps[i];
      var currentDelta := current - prev;
      var deltaOfDelta := currentDelta - prevDelta;
      deltas := deltas + [deltaOfDelta];
      prev, prevDelta := current, currentDelta;
    }
    TimeNil(prev, prevDelta);
    assert deltas + [] == deltas;
    c := Coded(deltas, prev, prevDelta);
  }

  lemma TimeCons(s: seq<int>, i: nat, prev: int, prevDelta: int)
    requires i < |s|
    ensures var delta := s[i] - prev;
            var rest := TimeDeltas(s[i + 1..], s[i], delta);
            TimeDeltas(s[i..], prev, prevDelta) == rest.(values := [delta - prevDelta] + rest.values)
    ensures var delta := prevDelta + s[i];
            var rest := DecodeTimes(s[i + 1..], prev + delta, delta);
            DecodeTimes(s[i..], prev, prevDelta) == rest.(values := [prev + delta] + rest.values)
  {
    assert s[i..][1..] == s[i + 1..];
  }

  lemma TimeNil(prev: int, prevDelta: int)
    ensures TimeDeltas([], prev, prevDelta) == Coded([], prev, prevDelta) == DecodeTimes([], prev, prevDelta)
  {
  }

  method DecodeTimeStream(deltas: seq<int>, lastTimestamp: int, lastTimestampDelta: int) returns (c: Coded)
    ensures c == DecodeTimes(deltas, lastTimestamp, lastTimestampDelta)
  {
    hide DecodeTimes;
    var timestamps, prev, prevDelta := [], lastTimestamp, lastTimestampDelta;
    ghost var whole := DecodeTimes(deltas, prev, prevDelta);
    for i := 0 to |deltas|
      invariant var rest := DecodeTimes(deltas[i..], prev, prevDelta);
                whole == rest.(values := timestamps + rest.values)
    {
      TimeCons(deltas, i, prev, prevDelta);
      var currentDelta := prevDelta + deltas[i];
      var current := prev + currentDelta;
      timestamps := timestamps + [current];
      prev, prevDelta := current, currentDelta;
    }
    TimeNil(prev, prevDelta);
    assert timestamps + [] == timestamps;
    c := Coded(timestamps, prev, prevDelta);
  }

  // ---- values -------------------------------------------------------------

  function ValueDeltas(vs: seq<int>, prev: int): (ds: seq<int>)
    ensures |ds| == |vs|
  {
    if vs == [] then [] else [vs[0] - prev] + ValueDeltas(vs[1..], vs[0])
  }

  function Last(vs: seq<int>, prev: int): int
  {
    if vs == [] then prev else vs[|vs| - 1]
  }

  /** The last step of a block that follows `prev`. */
  function LastDelta(vs: seq<int>, prev: int, prevDelta: int): int
  {
    if vs == [] then prevDelta
    else if |vs| == 1 then vs[0] - prev
    else vs[|vs| - 1] - vs[|vs| - 2]
  }

  /** prepareDODStream: differences of the deltas, starting from a carried delta. */
  function Dods(deltas: seq<int>, carried: int): seq<int>
  {
    ValueDeltas(deltas, carried)
  }

  function DecodeValues(changes: seq<int>, prev: int, prevDelta: int, isDod: bool): (c: Coded)
    ensures |c.values| == |changes|
  {
    if changes == [] then Coded([], prev, prevDelta)
    else
      var delta := if isDod then prevDelta + changes[0] else changes[0];
      var rest := DecodeValues(changes[1..], prev + delta, delta, isDod);
      rest.(values := [prev + delta] + rest.values)
  }

  lemma DecodeValuesCons(change: int, changes: seq<int>, prev: int, prevDelta: int, isDod: bool)
    ensures var delta := if isDod then prevDelta + change else change;
            var rest := DecodeValues(changes, prev + delta, delta, isDod);
            DecodeValues([change] + changes, prev, prevDelta, isDod)
              == rest.(values := [prev + delta] + rest.values)
  {
    assert ([change] + changes)[1..] == changes;
  }

  /** Plain delta blocks come back exactly, whatever delta the decoder carries. */
  lemma {:induction false} DeltaRoundTrip(vs: seq<int>, prev: int, carried: int)
    ensures DecodeValues(ValueDeltas(vs, prev), prev, carried, false)
         == Coded(vs, Last(vs, prev), LastDelta(vs, prev, carried))
  {
    if vs != [] {
      DeltaRoundTrip(vs[1..], vs[0], vs[0] - prev);
      DecodeValuesCons(vs[0] - prev, ValueDeltas(vs[1..], vs[0]), prev, carried, false);
      assert vs == [vs[0]] + vs[1..];
    }
  }

  lemma DodsCons(vs: seq<int>, prev: int, pd: int)
    requires vs != []
    ensures Dods(ValueDeltas(vs, prev), pd)
         == [vs[0] - prev - pd] + Dods(ValueDeltas(vs[1..], vs[0]), vs[0] - prev)
  {
    assert ValueDeltas(vs, prev)[1..] == ValueDeltas(vs[1..], vs[0]);
  }

  /** What a DOD block coded from carried delta `pd` becomes when decoded from `pd + drift`. */
  function Drifted(vs: seq<int>, offset: int, drift: int): (ws: seq<int>)
    ensures |ws| == |vs|
  {
    if vs == [] then [] else [vs[0] + offset + drift] + Drifted(vs[1..], offset + drift, drift)
  }

  lemma {:induction false} DriftedAt(vs: seq<int>, offset: int, drift: int, j: nat)
    requires j < |vs|
    ensures Drifted(vs, offset, drift)[j] == vs[j] + offset + (j + 1) * drift
  {
    if j > 0 {
      DriftedAt(vs[1..], offset + drift, drift, j - 1);
      assert (j + 1) * drift == j * drift + drift;
    }
  }

  /** Value j of the block comes back as the true value plus (j + 1) * drift (DriftedAt). */
  lemma {:induction false} DodDrift(vs: seq<int>, prev: int, pd: int, offset: int, drift: int)
    ensures var ws := Drifted(vs, offset, drift);
            DecodeValues(Dods(ValueDeltas(vs, prev), pd), prev + offset, pd + drift, true)
              == Coded(ws, Last(ws, prev + offset), LastDelta(vs, prev, pd) + drift)
  {
    hide Dods, ValueDeltas, DecodeValues;
    if vs != [] {
      var d := vs[0] - prev;
      DodsCons(vs, prev, pd);
      DodDrift(vs[1..], vs[0], d, offset + drift, drift);
      DecodeValuesCons(d - pd, Dods(ValueDeltas(vs[1..], vs[0]), d), prev + offset, pd + drift, true);
      LastCons(vs[0] + offset + drift, Drifted(vs[1..], offset + drift, drift), prev + offset);
    } else {
      NoValues(prev + offset, pd + drift, pd, prev);
    }
  }

  lemma LastCons(w: int, ws: seq<int>, prev: int)
    ensures Last([w] + ws, prev) == Last(ws, w)
  {
  }

  lemma NoValues(prev: int, prevDelta: int, pd: int, p: int)
    ensures DecodeValues(Dods(ValueDeltas([], p), pd), prev, prevDelta, true) == Coded([], prev, prevDelta)
  {
  }

  /** A non-empty DOD block coded from 0 is decoded right exactly when the decoder carries no delta. */
  lemma DodExact(vs: seq<int>, prev: int, carried: int)
    requires vs != []
    ensures var c := DecodeValues(Dods(ValueDeltas(vs, prev), 0), prev, carried, true);
            && (c.values == vs <==> carried == 0)
            && (carried == 0 ==> c == Coded(vs, Last(vs, prev), LastDelta(vs, prev, 0)))
  {
    hide Dods, ValueDeltas, DecodeValues, Drifted;
    DodDrift(vs, prev, 0, 0, carried);
    var ws := Drifted(vs, 0, carried);
    DriftedAt(vs, 0, carried, 0);
    if carried == 0 {
      forall j | 0 <= j < |vs|
        ensures ws[j] == vs[j]
      {
        DriftedAt(vs, 0, carried, j);
      }
      assert ws == vs;
    }
  }

  method ComputeValueDeltas(values: seq<int>, lastValue: int) returns (deltas: seq<int>, nextValue: int)
    ensures deltas == ValueDeltas(values, lastValue)
    ensures nextValue == Last(values, lastValue)
  {
    deltas := [];
    var prev := lastValue;
    for i := 0 to |values|
      invariant deltas + ValueDeltas(values[i..], prev) == ValueDeltas(values, lastValue)
      invariant prev == Last(values[..i], lastValue)
    {
      var current := values[i];
      assert values[i..][1..] == values[i + 1..];
      deltas := deltas + [current - prev];
      prev := current;
    }
    assert values[..|values|] == values;
    assert deltas + [] == deltas;
    nextValue := prev;
  }

  method DecodeValueStream(deltas: seq<int>, lastValue: int, lastValueDelta: int, isDOD: bool) returns (c: Coded)
    ensures c == DecodeValues(deltas, lastValue, lastValueDelta, isDOD)
  {
    hide DecodeValues;
    var values, prev, prevDelta := [], lastValue, lastValueDelta;
    ghost var whole := DecodeValues(deltas, prev, prevDelta, isDOD);
    for i := 0 to |deltas|
      invariant var rest := DecodeValues(deltas[i..], prev, prevDelta, isDOD);
                whole == rest.(values := values + rest.values)
    {
      DecodeValuesCons(deltas[i], deltas[i + 1..], prev, prevDelta, isDOD);
      assert [deltas[i]] + deltas[i + 1..] == deltas[i..];
      var change := deltas[i];
      if isDOD {
        change := prevDelta + change;
      }
      prevDelta := change;
      values := values + [prev + change];
      prev := prev + change;
    }
    NoMoreValues(prev, prevDelta, isDOD);
    assert values + [] == values;
    c := Coded(values, prev, prevDelta);
  }

  lemma NoMoreValues(prev: int, prevDelta: int, isDod: bool)
    ensures DecodeValues([], prev, prevDelta, isDod) == Coded([], prev, prevDelta)
  {
  }

  method PrepareDODStream(inputData: seq<int>, lastValueDelta: int) returns (dodStream: seq<int>)
    ensures dodStream == Dods(inputData, lastValueDelta)
  {
    var next;
    dodStream, next := ComputeValueDeltas(inputData, lastValueDelta);
  }
}
