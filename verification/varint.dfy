/** src/gics-utils.ts: zigzag, base-128 varints and run-length coding. */
module Varint {
  import opened Bytes

  // ---- zigzag -------------------------------------------------------------

  function ZigZag(v: int): nat
  {
    if v >= 0 then v * 2 else -v * 2 - 1
  }

  function UnZigZag(z: nat): int
  {
    if z % 2 == 0 then z / 2 else -((z + 1) / 2)
  }

  lemma ZigZagBijection(v: int, z: nat)
    ensures UnZigZag(ZigZag(v)) == v
    ensures ZigZag(UnZigZag(z)) == z
  {
  }

  // ---- one varint ---------------------------------------------------------

  /** Base-128 digits, least significant first; every byte but the last has its top bit set. */
  function VarintBytes(n: nat): (s: seq<byte>)
    ensures |s| >= 1
  {
    if n >= 128 then [n % 128 + 128] + VarintBytes(n / 128) else [n]
  }

  /** What decodeVarint reads from a non-empty suffix: the number and how many bytes it took.
      A number cut off by the end of the data is taken as it stands. */
  function ReadVarint(data: seq<byte>): (r: (nat, nat))
    requires data != []
    ensures 1 <= r.1 <= |data|
  {
    if data[0] < 128 || |data| == 1 then (data[0] % 128, 1)
    else
      var (z, k) := ReadVarint(data[1..]);
      (data[0] % 128 + 128 * z, k + 1)
  }

  /** What decodeVarintAt and decodeVarintN read: a cut-off number is an error. */
  function ReadVarintStrict(data: seq<byte>): (r: Result<(nat, nat)>)
    ensures r.Ok? ==> 1 <= r.value.1 <= |data|
  {
    if data == [] then Err(Truncated)
    else if data[0] < 128 then Ok((data[0], 1))
    else
      match ReadVarintStrict(data[1..])
      case Err(e) => Err(e)
      case Ok((z, k)) => Ok((data[0] % 128 + 128 * z, k + 1))
  }

  lemma {:induction false} ReadVarintBytes(n: nat, rest: seq<byte>)
    ensures VarintBytes(n) + rest != []
    ensures ReadVarint(VarintBytes(n) + rest) == (n, |VarintBytes(n)|)
    ensures ReadVarintStrict(VarintBytes(n) + rest) == Ok((n, |VarintBytes(n)|))
  {
    var data := VarintBytes(n) + rest;
    if n >= 128 {
      ReadVarintBytes(n / 128, rest);
      assert data[1..] == VarintBytes(n / 128) + rest;
    } else {
      assert data[0] == n;
    }
  }

  /** No proper prefix of a varint is a complete varint. */
  lemma {:induction false} StrictRejectsPrefix(n: nat, cut: nat)
    requires cut < |VarintBytes(n)|
    ensures ReadVarintStrict(VarintBytes(n)[..cut]).Err?
  {
    var p := VarintBytes(n)[..cut];
    if cut > 0 {
      assert n >= 128;
      StrictRejectsPrefix(n / 128, cut - 1);
      assert p[1..] == VarintBytes(n / 128)[..cut - 1];
    }
  }

  // ---- sequences of varints -----------------------------------------------

  function VarintSeq(values: seq<int>): seq<byte>
  {
    if values == [] then [] else VarintBytes(ZigZag(values[0])) + VarintSeq(values[1..])
  }

  function DecodeVarintSeq(data: seq<byte>): seq<int>
    decreases |data|
  {
    if data == [] then []
    else
      var (z, k) := ReadVarint(data);
      [UnZigZag(z)] + DecodeVarintSeq(data[k..])
  }

  /** decodeVarintN from the front of `data`: exactly n numbers and the bytes they took. */
  function DecodeVarintCount(data: seq<byte>, n: nat): (r: Result<(seq<int>, nat)>)
    ensures r.Ok? ==> |r.value.0| == n && r.value.1 <= |data|
  {
    if n == 0 then Ok(([], 0))
    else
      match ReadVarintStrict(data)
      case Err(e) => Err(e)
      case Ok((z, k)) =>
        match DecodeVarintCount(data[k..], n - 1)
        case Err(e) => Err(e)
        case Ok((vs, used)) => Ok(([UnZigZag(z)] + vs, k + used))
  }

  lemma DecodeVarintStep(z: nat, rest: seq<byte>)
    ensures DecodeVarintSeq(VarintBytes(z) + rest) == [UnZigZag(z)] + DecodeVarintSeq(rest)
  {
    ReadVarintBytes(z, rest);
    assert (VarintBytes(z) + rest)[|VarintBytes(z)|..] == rest;
  }

  lemma VarintSeqCons(x: int, xs: seq<int>, rest: seq<byte>)
    ensures VarintSeq([x] + xs) + rest == VarintBytes(ZigZag(x)) + (VarintSeq(xs) + rest)
  {
    assert ([x] + xs)[1..] == xs;
  }

  lemma OneVarint(v: int)
    ensures VarintSeq([v]) == VarintBytes(ZigZag(v))
  {
    assert [v][1..] == [];
  }

  /** Varints are self-delimiting: whatever follows the numbers is decoded on its own. */
  lemma {:induction false} DecodeVarintAppend(xs: seq<int>, rest: seq<byte>)
    ensures DecodeVarintSeq(VarintSeq(xs) + rest) == xs + DecodeVarintSeq(rest)
  {
    hide VarintBytes, DecodeVarintSeq;
    if xs == [] {
      assert VarintSeq(xs) + rest == rest;
    } else {
      var x, tail := xs[0], xs[1..];
      assert xs == [x] + tail;
      VarintSeqCons(x, tail, rest);
      DecodeVarintStep(ZigZag(x), VarintSeq(tail) + rest);
      DecodeVarintAppend(tail, rest);
    }
  }

  lemma VarintRoundTrip(xs: seq<int>)
    ensures DecodeVarintSeq(VarintSeq(xs)) == xs
  {
    DecodeVarintAppend(xs, []);
    assert VarintSeq(xs) + [] == VarintSeq(xs);
  }

  lemma DecodeVarintCountStep(z: nat, rest: seq<byte>, n: nat)
    ensures DecodeVarintCount(VarintBytes(z) + rest, n + 1) ==
            match DecodeVarintCount(rest, n)
            case Err(e) => Err(e)
            case Ok((vs, used)) => Ok(([UnZigZag(z)] + vs, |VarintBytes(z)| + used))
  {
    ReadVarintBytes(z, rest);
    assert (VarintBytes(z) + rest)[|VarintBytes(z)|..] == rest;
  }

  lemma {:induction false} DecodeVarintCountAppend(xs: seq<int>, rest: seq<byte>)
    ensures DecodeVarintCount(VarintSeq(xs) + rest, |xs|) == Ok((xs, |VarintSeq(xs)|))
  {
    hide VarintBytes, ReadVarintStrict;
    if xs != [] {
      var x, tail := xs[0], xs[1..];
      assert xs == [x] + tail;
      VarintSeqCons(x, tail, rest);
      VarintSeqCons(x, tail, []);
      assert VarintSeq(tail) + [] == VarintSeq(tail) && VarintSeq(xs) + [] == VarintSeq(xs);
      DecodeVarintCountAppend(tail, rest);
      hide DecodeVarintCount;
      DecodeVarintCountStep(ZigZag(x), VarintSeq(tail) + rest, |tail|);
    }
  }

  lemma {:induction false} VarintSeqAppend(xs: seq<int>, ys: seq<int>)
    ensures VarintSeq(xs + ys) == VarintSeq(xs) + VarintSeq(ys)
  {
    hide VarintBytes, ZigZag;
    if xs == [] {
      assert xs + ys == ys;
    } else {
      VarintSeqAppend(xs[1..], ys);
      assert (xs + ys)[1..] == xs[1..] + ys;
      var a, b, c := VarintBytes(ZigZag(xs[0])), VarintSeq(xs[1..]), VarintSeq(ys);
      assert a + (b + c) == a + b + c;
    }
  }

  method EncodeVarint(values: seq<int>) returns (buffer: seq<byte>)
    ensures buffer == VarintSeq(values)
  {
    buffer := [];
    for i := 0 to |values|
      invariant buffer == VarintSeq(values[..i])
    {
      var n := ZigZag(values[i]);
      while n >= 0x80
        invariant n >= 0
        invariant buffer + VarintBytes(n) == VarintSeq(values[..i]) + VarintBytes(ZigZag(values[i]))
      {
        buffer := buffer + [n % 128 + 128];
        n := n / 128;
      }
      buffer := buffer + [n];
      VarintSeqAppend(values[..i], [values[i]]);
      assert values[..i] + [values[i]] == values[..i + 1];
      assert VarintSeq([values[i]]) == VarintBytes(ZigZag(values[i]));
    }
    assert values[..|values|] == values;
  }

  lemma DigitStep(acc: nat, p: nat, digit: nat, z: nat)
    ensures acc + p * (digit + 128 * z) == (acc + digit * p) + (p * 128) * z
  {
    assert p * (digit + 128 * z) == p * digit + p * (128 * z);
    assert p * (128 * z) == (p * 128) * z;
  }

  /** One byte of the number being read: the bytes so far are worth `zigzag`, the next digit weighs `p2d`. */
  ghost predicate ReadSoFar(data: seq<byte>, zigzag: nat, p2d: nat, i: nat, whole: (nat, nat), start: nat)
  {
    i < |data| &&
    whole.0 == zigzag + p2d * ReadVarint(data[i..]).0 &&
    start + whole.1 == i + ReadVarint(data[i..]).1
  }

  lemma ReadSoFarStep(data: seq<byte>, zigzag: nat, p2d: nat, i: nat, whole: (nat, nat), start: nat)
    requires ReadSoFar(data, zigzag, p2d, i, whole, start)
    ensures if data[i] < 128 || i + 1 == |data|
            then whole == (zigzag + (data[i] % 128) * p2d, i + 1 - start)
            else ReadSoFar(data, zigzag + (data[i] % 128) * p2d, p2d * 128, i + 1, whole, start)
  {
    assert data[i..][1..] == data[i + 1..];
    if data[i] >= 128 && i + 1 < |data| {
      DigitStep(zigzag, p2d, data[i] % 128, ReadVarint(data[i + 1..]).0);
    }
  }

  method DecodeVarint(data: seq<byte>) returns (values: seq<int>)
    ensures values == DecodeVarintSeq(data)
  {
    hide ReadVarint, UnZigZag;
    values := [];
    var i := 0;
    while i < |data|
      invariant 0 <= i <= |data|
      invariant values + DecodeVarintSeq(data[i..]) == DecodeVarintSeq(data)
    {
      var zigzag: nat, p2d: nat := 0, 1;
      ghost var start := i;
      ghost var whole := ReadVarint(data[start..]);
      var done := false;
      while i < |data| && !done
        invariant start <= i <= |data|
        invariant p2d >= 1
        invariant !done ==> ReadSoFar(data, zigzag, p2d, i, whole, start)
        invariant done ==> whole == (zigzag, i - start)
        decreases |data| - i, !done
      {
        var byte := data[i];
        ReadSoFarStep(data, zigzag, p2d, i, whole, start);
        i := i + 1;
        zigzag := zigzag + (byte % 128) * p2d;
        done := byte < 128 || i == |data|;
        p2d := p2d * 128;
      }
      assert data[start..][whole.1..] == data[i..];
      assert DecodeVarintSeq(data[start..]) == [UnZigZag(zigzag)] + DecodeVarintSeq(data[i..]);
      values := values + [UnZigZag(zigzag)];
    }
    assert data[|data|..] == [];
    assert values + [] == values;
  }

  /** The bytes read so far are worth `zigzag` and the next digit weighs `p2d`; the varint may still be cut. */
  ghost predicate ReadingAt(data: seq<byte>, start: nat, i: nat, zigzag: nat, p2d: nat)
  {
    start <= i <= |data| &&
    var whole, rest := ReadVarintStrict(data[start..]), ReadVarintStrict(data[i..]);
    if rest.Err? then whole == Err(Truncated)
    else whole == Ok((zigzag + p2d * rest.value.0, i - start + rest.value.1))
  }

  lemma ReadingAtStep(data: seq<byte>, start: nat, i: nat, zigzag: nat, p2d: nat)
    requires ReadingAt(data, start, i, zigzag, p2d)
    ensures if i == |data| then ReadVarintStrict(data[start..]) == Err(Truncated)
            else if data[i] < 128 then ReadVarintStrict(data[start..]) == Ok((zigzag + data[i] * p2d, i + 1 - start))
            else ReadingAt(data, start, i + 1, zigzag + (data[i] % 128) * p2d, p2d * 128)
  {
    if i < |data| {
      assert data[i..][1..] == data[i + 1..];
      var rest := ReadVarintStrict(data[i + 1..]);
      if data[i] >= 128 && rest.Ok? {
        DigitStep(zigzag, p2d, data[i] % 128, rest.value.0);
      }
      StrictError(data[i..]);
      StrictError(data[i + 1..]);
    }
  }

  lemma {:induction false} StrictError(data: seq<byte>)
    ensures ReadVarintStrict(data).Err? ==> ReadVarintStrict(data) == Err(Truncated)
  {
    if data != [] && data[0] >= 128 {
      StrictError(data[1..]);
    }
  }

  /** decodeVarintAt for one number: the value and the position behind it. */
  method DecodeVarintAt(data: seq<byte>, pos: nat) returns (r: Result<(int, nat)>)
    requires pos <= |data|
    ensures match ReadVarintStrict(data[pos..])
            case Err(e) => r == Err(e)
            case Ok((z, k)) => r == Ok((UnZigZag(z), pos + k))
  {
    hide ReadVarintStrict, UnZigZag, ReadingAt;
    var i: nat := pos;
    var zigzag: nat, p2d: nat := 0, 1;
    ReadingAtStart(data, pos);
    while i < |data|
      invariant pos <= i <= |data| && ReadingAt(data, pos, i, zigzag, p2d)
    {
      ReadingAtStep(data, pos, i, zigzag, p2d);
      var byte := data[i];
      i := i + 1;
      zigzag := zigzag + (byte % 128) * p2d;
      if byte < 128 {
        return Ok((UnZigZag(zigzag), i));
      }
      p2d := p2d * 128;
    }
    ReadingAtStep(data, pos, i, zigzag, p2d);
    r := Err(Truncated);
  }

  lemma ReadingAtStart(data: seq<byte>, pos: nat)
    requires pos <= |data|
    ensures ReadingAt(data, pos, pos, 0, 1)
  {
    StrictError(data[pos..]);
  }

  function Behind(front: seq<int>, used: nat, rest: Result<(seq<int>, nat)>): Result<(seq<int>, nat)>
  {
    match rest
    case Err(e) => Err(e)
    case Ok((vs, k)) => Ok((front + vs, used + k))
  }

  lemma CountStep(data: seq<byte>, start: nat, pos: nat, n: nat, front: seq<int>)
    requires start <= pos <= |data|
    ensures Behind(front, pos - start, DecodeVarintCount(data[pos..], n + 1))
         == match ReadVarintStrict(data[pos..])
            case Err(e) => Err(e)
            case Ok((z, k)) => Behind(front + [UnZigZag(z)], pos + k - start, DecodeVarintCount(data[pos + k..], n))
  {
    hide ReadVarintStrict, UnZigZag;
    var one := ReadVarintStrict(data[pos..]);
    if one.Ok? {
      var (z, k) := one.value;
      assert data[pos..][k..] == data[pos + k..];
      var rest := DecodeVarintCount(data[pos + k..], n);
      if rest.Ok? {
        assert front + ([UnZigZag(z)] + rest.value.0) == front + [UnZigZag(z)] + rest.value.0;
      }
    }
  }

  lemma CountNothing(data: seq<byte>)
    ensures DecodeVarintCount(data, 0) == Ok(([], 0))
  {
  }

  /** decodeVarintN: the values and the position behind them. */
  method DecodeVarintN(data: seq<byte>, start: nat, count: nat) returns (r: Result<(seq<int>, nat)>)
    requires start <= |data|
    ensures match DecodeVarintCount(data[start..], count)
            case Err(e) => r == Err(e)
            case Ok((vs, used)) => r == Ok((vs, start + used))
  {
    hide ReadVarintStrict, UnZigZag, DecodeVarintCount;
    var values: seq<int>, pos: nat := [], start;
    ghost var whole := DecodeVarintCount(data[start..], count);
    assert whole.Ok? ==> [] + whole.value.0 == whole.value.0;
    for i := 0 to count
      invariant start <= pos <= |data| && |values| == i
      invariant whole == Behind(values, pos - start, DecodeVarintCount(data[pos..], count - i))
    {
      CountStep(data, start, pos, count - i - 1, values);
      var one := DecodeVarintAt(data, pos);
      if one.Err? {
        return Err(one.error);
      }
      values := values + [one.value.0];
      pos := one.value.1;
    }
    CountNothing(data[pos..]);
    assert values + [] == values;
    r := Ok((values, pos));
  }

  // ---- run-length coding --------------------------------------------------

  function Repeat(v: int, n: int): (s: seq<int>)
    ensures |s| == if n < 0 then 0 else n
    ensures forall i :: 0 <= i < |s| ==> s[i] == v
  {
    if n <= 0 then [] else [v] + Repeat(v, n - 1)
  }

  /** The length of the leading run, capped at 255. */
  function RunLength(values: seq<int>, limit: nat): (n: nat)
    requires values != [] && limit >= 1
    ensures 1 <= n <= |values| && n <= limit
    ensures values[..n] == Repeat(values[0], n)
    ensures n < |values| && n < limit ==> values[n] != values[0]
  {
    if limit == 1 || |values| == 1 || values[1] != values[0] then
      assert values[..1] == Repeat(values[0], 1);
      1
    else
      var n := RunLength(values[1..], limit - 1);
      assert values[..n + 1] == [values[0]] + values[1..][..n];
      n + 1
  }

  function Runs(values: seq<int>): (r: seq<int>)
    ensures |r| % 2 == 0
    decreases |values|
  {
    if values == [] then []
    else
      var n := RunLength(values, 255);
      [n, values[0]] + Runs(values[n..])
  }

  /** An odd trailing number is ignored; a non-positive count expands to nothing. */
  function ExpandRuns(runs: seq<int>): seq<int>
  {
    if |runs| < 2 then [] else Repeat(runs[1], runs[0]) + ExpandRuns(runs[2..])
  }

  function RleBytes(values: seq<int>): seq<byte> { VarintSeq(Runs(values)) }

  function DecodeRleBytes(data: seq<byte>): seq<int> { ExpandRuns(DecodeVarintSeq(data)) }

  lemma {:induction false} ExpandRunsOfRuns(values: seq<int>)
    ensures ExpandRuns(Runs(values)) == values
    decreases |values|
  {
    hide RunLength, Repeat;
    if values != [] {
      var n := RunLength(values, 255);
      var runs := Runs(values);
      assert runs == [n, values[0]] + Runs(values[n..]);
      ExpandRunsOfRuns(values[n..]);
      assert runs[2..] == Runs(values[n..]);
      assert values == values[..n] + values[n..];
    }
  }

  lemma RleRoundTrip(values: seq<int>)
    ensures DecodeRleBytes(RleBytes(values)) == values
  {
    VarintRoundTrip(Runs(values));
    ExpandRunsOfRuns(values);
  }

  /** Counting equal values to 255 finds the capped leading run. */
  method CountRun(values: seq<int>, i: nat) returns (count: nat)
    requires i < |values|
    ensures count == RunLength(values[i..], 255)
  {
    var val := values[i];
    count := 1;
    while i + count < |values| && values[i + count] == val && count < 255
      invariant 1 <= count <= 255 && i + count <= |values|
      invariant forall j :: i <= j < i + count ==> values[j] == val
    {
      count := count + 1;
    }
    RunLengthUnique(values[i..], 255, count);
  }

  method EncodeRLE(values: seq<int>) returns (out: seq<byte>)
    ensures out == RleBytes(values)
  {
    hide RunLength;
    if |values| == 0 {
      return [];
    }
    var runs := [];
    var i := 0;
    while i < |values|
      invariant 0 <= i <= |values|
      invariant runs + Runs(values[i..]) == Runs(values)
    {
      var count := CountRun(values, i);
      assert values[i..][count..] == values[i + count..];
      assert Runs(values[i..]) == [count, values[i]] + Runs(values[i + count..]);
      runs := runs + [count, values[i]];
      i := i + count;
    }
    assert runs + [] == runs;
    out := EncodeVarint(runs);
  }

  /** The capped leading run is the only prefix that cannot be extended. */
  lemma RunLengthUnique(values: seq<int>, limit: nat, n: nat)
    requires values != [] && 1 <= n <= |values| && n <= limit
    requires forall j :: 0 <= j < n ==> values[j] == values[0]
    requires n < |values| && n < limit ==> values[n] != values[0]
    ensures RunLength(values, limit) == n
  {
    var m := RunLength(values, limit);
    assert forall j :: 0 <= j < m ==> values[j] == values[..m][j];
  }

  method DecodeRLE(data: seq<byte>) returns (values: seq<int>)
    ensures values == DecodeRleBytes(data)
  {
    var runs := DecodeVarint(data);
    values := [];
    var pairCount := |runs| / 2;
    for i := 0 to pairCount
      invariant values + ExpandRuns(runs[2 * i..]) == ExpandRuns(runs)
    {
      var count, val := runs[2 * i], runs[2 * i + 1];
      ghost var before := values;
      var j := 0;
      while j < count
        invariant 0 <= j && (count >= 0 ==> j <= count) && (count < 0 ==> j == 0)
        invariant values == before + Repeat(val, j)
      {
        assert Repeat(val, j) + [val] == Repeat(val, j + 1);
        values := values + [val];
        j := j + 1;
      }
      assert Repeat(val, j) == Repeat(val, count);
      assert runs[2 * i..][2..] == runs[2 * (i + 1)..];
    }
    assert ExpandRuns(runs[2 * pairCount..]) == [];
  }
}
