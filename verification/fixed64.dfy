/** src/gics/codecs.ts: FIXED64 LE. Integers are stored as IEEE-754 doubles, so a quarantined block of
    integers survives only because a safe integer has an exact double. */
module Fixed64 {
  import opened Bytes
  import Bits

  const FRACTIONS: nat := 0x10_0000_0000_0000          // 2^52
  const MAX_SAFE: int := 0x20_0000_0000_0000           // 2^53

  /** The fields of a double. */
  datatype Double = Double(negative: bool, exponent: nat, fraction: nat)

  predicate IsDouble(d: Double)
  {
    d.exponent < 2048 && d.fraction < FRACTIONS
  }

  function Pattern(d: Double): nat
  {
    ((if d.negative then 2048 else 0) + d.exponent) * FRACTIONS + d.fraction
  }

  function FromPattern(p: nat): (d: Double)
  {
    Double(p / FRACTIONS >= 2048, (p / FRACTIONS) % 2048, p % FRACTIONS)
  }

  lemma PatternRoundTrip(d: Double)
    requires IsDouble(d)
    ensures Pattern(d) < Pow256(8)
    ensures FromPattern(Pattern(d)) == d
  {
    FieldWidths();
  }

  function Abs(v: int): nat { if v >= 0 then v else -v }

  /** The double nearest to an integer below 2^53, which is the integer itself. */
  function ToDouble(v: int): (d: Double)
    requires Abs(v) < MAX_SAFE
    ensures IsDouble(d)
  {
    if v == 0 then Double(false, 0, 0)
    else
      var e := Exponent(v);
      Normalised(Abs(v), e);
      Double(v < 0, e + 1023, Abs(v) * Pow2(52 - e) - FRACTIONS)
  }

  function Exponent(v: int): (e: nat)
    requires v != 0 && Abs(v) < MAX_SAFE
    ensures e <= 52 && Pow2(e) <= Abs(v) < Pow2(e + 1)
  {
    Pow2Values();
    Bits.BitWidthBound(Abs(v), 53);
    assert Pow2(0) == 1;
    Bits.BitWidth(Abs(v)) - 1
  }

  /** 2^52 <= n * 2^(52 - e) < 2^53 */
  lemma Normalised(n: nat, e: nat)
    requires e <= 52 && Pow2(e) <= n < Pow2(e + 1)
    ensures FRACTIONS <= n * Pow2(52 - e) < 2 * FRACTIONS
  {
    Pow2Values();
    Pow2Add(e, 52 - e);
    Pow2Add(e + 1, 52 - e);
    hide Pow2;
    var p := Pow2(52 - e);
    MulMonotone(Pow2(e), n, p);
    MulMonotone(n + 1, Pow2(e + 1), p);
    MulMonotone(n, n + 1, p);
  }

  /** The integer a double denotes, if it denotes one below 2^53. */
  function ToInt(d: Double): Option<int>
  {
    if d.exponent == 0 && d.fraction == 0 then Some(0)
    else if 1023 <= d.exponent <= 1075 then
      var m := FRACTIONS + d.fraction;
      var scale := Pow2(1075 - d.exponent);
      if m % scale == 0 then Some(if d.negative then -(m / scale) else m / scale) else None
    else None
  }

  lemma ToIntToDouble(v: int)
    requires Abs(v) < MAX_SAFE
    ensures ToInt(ToDouble(v)) == Some(v)
  {
    hide Pow2, Exponent, Bits.BitWidth;
    if v != 0 {
      var e := Exponent(v);
      var scale := Pow2(52 - e);
      var m := FRACTIONS + ToDouble(v).fraction;
      assert m == Abs(v) * scale;
      DivideExact(Abs(v), scale);
    }
  }

  lemma DivideExact(n: nat, scale: nat)
    requires scale >= 1
    ensures (n * scale) % scale == 0 && (n * scale) / scale == n
  {
    DivideBack(n * scale, n, scale);
  }

  lemma DivideBack(m: nat, n: nat, scale: nat)
    requires scale >= 1 && m == n * scale
    ensures m % scale == 0 && m / scale == n
  {
    var q := m / scale;
    assert m == q * scale + m % scale;
    if n > q {
      MulMonotone(q + 1, n, scale);
    } else {
      MulMonotone(n, q, scale);
      if q > n {
        MulMonotone(n + 1, q, scale);
      }
    }
  }

  lemma MulMonotone(a: nat, b: nat, p: nat)
    requires a <= b
    ensures a * p <= b * p
    ensures (a + 1) * p == a * p + p
  {
  }

  lemma {:induction false} BitsOfPower(k: nat)
    ensures Bits.BitWidth(Pow2(k)) == k + 1
  {
    if k > 0 {
      BitsOfPower(k - 1);
    }
  }

  lemma SmallPower(k: nat)
    requires k < 53
    ensures 1 <= Pow2(k) < MAX_SAFE && Pow2(k) * Pow2(52 - k) == FRACTIONS
  {
    Pow2Values();
    Pow2Add(k, 52 - k);
    hide Pow2;
    Pow2Monotone(k, 52);
  }

  lemma ExponentOfPower(k: nat, v: int)
    requires k < 53 && Abs(v) == Pow2(k) < MAX_SAFE && v != 0
    ensures Exponent(v) == k
  {
    BitsOfPower(k);
    hide Pow2, Bits.BitWidth;
  }

  /** The powers of two stand where IEEE-754 has them: no fraction, the exponent biased by 1023, the sign on top. */
  lemma PowersOfTwo(k: nat, v: int)
    requires k < 53 && Abs(v) == Pow2(k)
    ensures 1 <= Abs(v) < MAX_SAFE
    ensures Pattern(ToDouble(v)) == ((if v < 0 then 2048 else 0) + 1023 + k) * FRACTIONS
  {
    hide Pow2, Exponent;
    SmallPower(k);
    ExponentOfPower(k, v);
  }

  /** Infinity, zero or a normal number: the payload cannot be an old integer one. */
  predicate StrongSignal(d: Double)
  {
    (d.exponent == 0 && d.fraction == 0) || 1 <= d.exponent < 2047 || (d.exponent == 2047 && d.fraction == 0)
  }

  lemma IntegersAreStrong(v: int)
    requires Abs(v) < MAX_SAFE
    ensures StrongSignal(ToDouble(v))
  {
  }

  predicate AllSafe(values: seq<int>)
  {
    forall i :: 0 <= i < |values| ==> Abs(values[i]) < MAX_SAFE
  }

  function Fixed64Bytes(values: seq<int>): (s: seq<byte>)
    requires AllSafe(values)
    ensures |s| == 8 * |values|
  {
    if values == [] then [] else ToLE(Pattern(ToDouble(values[0])), 8) + Fixed64Bytes(values[1..])
  }

  function Doubles(data: seq<byte>): (ds: seq<Double>)
    ensures |ds| == |data| / 8
  {
    if |data| < 8 then [] else [FromPattern(FromLE(data[..8]))] + Doubles(data[8..])
  }

  function ToInts(ds: seq<Double>): (r: Result<seq<int>>)
    ensures r.Ok? ==> |r.value| == |ds|
  {
    if ds == [] then Ok([])
    else
      match (ToInt(ds[0]), ToInts(ds[1..]))
      case (Some(v), Ok(vs)) => Ok([v] + vs)
      case _ => Err(Unsupported)
  }

  /** Doubles that are not integers, and the old integer payloads without a strong signal, are not modelled. */
  function DecodeFixed64(data: seq<byte>, count: nat): (r: Result<seq<int>>)
    ensures r.Ok? ==> |r.value| == count
  {
    if |data| != count * 8 then Err(LengthMismatch)
    else
      var ds := Doubles(data);
      if count > 0 && (forall d :: d in ds ==> !StrongSignal(d)) then Err(Unsupported)
      else ToInts(ds)
  }

  lemma {:induction false} DoublesBack(values: seq<int>)
    requires AllSafe(values)
    ensures ToInts(Doubles(Fixed64Bytes(values))) == Ok(values)
    ensures forall d :: d in Doubles(Fixed64Bytes(values)) ==> StrongSignal(d)
  {
    hide Pattern, FromPattern, ToLE, FromLE, ToDouble, ToInt, StrongSignal;
    if values != [] {
      var d := ToDouble(values[0]);
      var data := Fixed64Bytes(values);
      PatternRoundTrip(d);
      FromLEToLE(Pattern(d), 8);
      assert data[..8] == ToLE(Pattern(d), 8) && data[8..] == Fixed64Bytes(values[1..]);
      ToIntToDouble(values[0]);
      IntegersAreStrong(values[0]);
      DoublesBack(values[1..]);
      assert Doubles(data) == [d] + Doubles(Fixed64Bytes(values[1..]));
      assert Doubles(data)[1..] == Doubles(Fixed64Bytes(values[1..]));
      assert values == [values[0]] + values[1..];
    }
  }

  /** A block of safe integers survives FIXED64, and the legacy fallback is never taken. */
  lemma Fixed64RoundTrip(values: seq<int>)
    requires AllSafe(values)
    ensures DecodeFixed64(Fixed64Bytes(values), |values|) == Ok(values)
  {
    hide Doubles, Fixed64Bytes, ToInts, StrongSignal;
    DoublesBack(values);
    if values != [] {
      assert Doubles(Fixed64Bytes(values))[0] in Doubles(Fixed64Bytes(values));
    }
  }
}
