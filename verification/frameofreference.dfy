/** src/gics/codecs.ts: FOR BITPACK. The minimum as a varint, a width byte, the bit-packed residuals. */
module FrameOfReference {
  import opened Bytes
  import opened Bits
  import opened Varint

  /** The decoder refuses widths above this. */
  const MAX_WIDTH := 53

  function Least(values: seq<int>): (m: int)
    requires values != []
    ensures m in values && forall i :: 0 <= i < |values| ==> m <= values[i]
  {
    if |values| == 1 then values[0]
    else
      var m := Least(values[1..]);
      if values[0] < m then values[0] else m
  }

  function Residuals(values: seq<int>, min: int): (us: seq<nat>)
    requires forall i :: 0 <= i < |values| ==> min <= values[i]
    ensures |us| == |values|
    ensures forall i :: 0 <= i < |us| ==> us[i] == values[i] - min
  {
    seq(|values|, i requires 0 <= i < |values| => values[i] - min)
  }

  function Greatest(us: seq<nat>): (m: nat)
    ensures forall i :: 0 <= i < |us| ==> us[i] <= m
    ensures m == 0 || m in us
  {
    if us == [] then 0
    else
      var m := Greatest(us[1..]);
      if us[0] > m then us[0] else m
  }

  /** The spread of the list is a safe integer. */
  predicate InRange(values: seq<int>)
  {
    forall i, j :: 0 <= i < |values| && 0 <= j < |values| ==> values[i] - values[j] < 0x20_0000_0000_0000
  }

  function WidthOf(values: seq<int>): nat
    requires values != []
  {
    BitWidth(Greatest(Residuals(values, Least(values))))
  }

  lemma WidthFits(values: seq<int>)
    requires values != [] && InRange(values)
    ensures WidthOf(values) <= MAX_WIDTH
    ensures forall i :: 0 <= i < |values| ==> values[i] - Least(values) < Pow2(WidthOf(values))
  {
    var min := Least(values);
    var us := Residuals(values, min);
    var m := Greatest(us);
    var k :| 0 <= k < |values| && values[k] == min;
    assert m < 0x20_0000_0000_0000;
    Pow2Values();
    BitWidthBound(m, 53);
    assert forall i :: 0 <= i < |values| ==> us[i] <= m;
  }

  function Payload(values: seq<int>): seq<byte>
    requires values != []
  {
    if WidthOf(values) == 0 then [] else Pack(FlatBits(Residuals(values, Least(values)), WidthOf(values)))
  }

  function ForBytes(values: seq<int>): seq<byte>
    requires InRange(values)
  {
    if values == [] then []
    else
      WidthFits(values);
      VarintBytes(ZigZag(Least(values))) + [WidthOf(values)] + Payload(values)
  }

  function AddBase(min: int, us: seq<nat>): (values: seq<int>)
    ensures |values| == |us|
    ensures forall i :: 0 <= i < |us| ==> values[i] == min + us[i]
  {
    seq(|us|, i requires 0 <= i < |us| => min + us[i])
  }

  /** Everything after the base value: the width byte and the residuals. */
  function DecodeResiduals(min: int, tail: seq<byte>, count: nat): Result<seq<int>>
  {
    if tail == [] then Err(Truncated)
    else if tail[0] > MAX_WIDTH then Err(OutOfRange)
    else if tail[0] == 0 then Ok(Repeat(min, count))
    else if 8 * |tail[1..]| < count * tail[0] then Err(Truncated)
    else Ok(AddBase(min, Groups(Unpack(tail[1..]), tail[0], count)))
  }

  function DecodeForBytes(data: seq<byte>, count: nat): Result<seq<int>>
  {
    if count == 0 then Ok([])
    else if data == [] then Err(Truncated)
    else
      match ReadVarintStrict(data)
      case Err(_) => Err(Malformed)
      case Ok((z, offset)) => DecodeResiduals(UnZigZag(z), data[offset..], count)
  }

  lemma AddBaseResiduals(values: seq<int>, min: int)
    requires forall i :: 0 <= i < |values| ==> min <= values[i]
    ensures AddBase(min, Residuals(values, min)) == values
  {
  }

  lemma ConstantList(values: seq<int>, min: int)
    requires forall i :: 0 <= i < |values| ==> min <= values[i] && values[i] - min < Pow2(0)
    ensures Repeat(min, |values|) == values
  {
  }

  lemma DecodeResidualsRoundTrip(values: seq<int>)
    requires values != [] && InRange(values)
    ensures WidthOf(values) <= MAX_WIDTH
    ensures DecodeResiduals(Least(values), [WidthOf(values)] + Payload(values), |values|) == Ok(values)
  {
    hide WidthOf, Least, Pack, Unpack, FlatBits, Groups, Repeat, AddBase, Residuals;
    WidthFits(values);
    var min, w := Least(values), WidthOf(values);
    var us := Residuals(values, min);
    var tail := [w as byte] + Payload(values);
    assert tail[1..] == Payload(values);
    if w == 0 {
      ConstantList(values, min);
    } else {
      var bits := FlatBits(us, w);
      FlatBitsLength(us, w);
      UnpackPack(bits);
      GroupsOfFlatBits(us, w, Zeros(8 * |Pack(bits)| - |bits|));
      AddBaseResiduals(values, min);
      assert 8 * |Pack(bits)| >= |values| * w;
    }
  }

  lemma ForRoundTrip(values: seq<int>)
    requires InRange(values)
    ensures DecodeForBytes(ForBytes(values), |values|) == Ok(values)
  {
    hide VarintBytes, ReadVarintStrict, DecodeResiduals, Payload, WidthOf;
    if values != [] {
      WidthFits(values);
      var base := ZigZag(Least(values));
      var tail := [WidthOf(values) as byte] + Payload(values);
      assert ForBytes(values) == VarintBytes(base) + tail;
      ReadVarintBytes(base, tail);
      assert ForBytes(values)[|VarintBytes(base)|..] == tail;
      ZigZagBijection(Least(values), base);
      DecodeResidualsRoundTrip(values);
    }
  }

  /** Cutting any number of bytes off the end is noticed. */
  lemma ForRejectsPrefix(values: seq<int>, cut: nat)
    requires values != [] && InRange(values) && cut < |ForBytes(values)|
    ensures DecodeForBytes(ForBytes(values)[..cut], |values|).Err?
  {
    hide VarintBytes, ReadVarintStrict, DecodeResiduals, Payload, WidthOf;
    WidthFits(values);
    var base := ZigZag(Least(values));
    var head := VarintBytes(base);
    var tail := [WidthOf(values) as byte] + Payload(values);
    assert ForBytes(values) == head + tail;
    var data := ForBytes(values)[..cut];
    if cut == 0 {
    } else if cut < |head| {
      assert data == head[..cut];
      StrictRejectsPrefix(base, cut);
    } else {
      assert data == head + tail[..cut - |head|];
      ReadVarintBytes(base, tail[..cut - |head|]);
      assert data[|head|..] == tail[..cut - |head|];
      ResidualsRejectPrefix(UnZigZag(base), values, cut - |head|);
    }
  }

  lemma ResidualsRejectPrefix(min: int, values: seq<int>, cut: nat)
    requires values != [] && WidthOf(values) <= MAX_WIDTH && cut < 1 + |Payload(values)|
    ensures DecodeResiduals(min, ([WidthOf(values) as byte] + Payload(values))[..cut], |values|).Err?
  {
    hide Pack, FlatBits, BitWidth, Unpack, Groups;
    var w := WidthOf(values);
    var tail := ([w as byte] + Payload(values))[..cut];
    if cut > 0 && w > 0 {
      var us := Residuals(values, Least(values));
      FlatBitsLength(us, w);
      assert |tail[1..]| == cut - 1;
      assert |Payload(values)| == (|values| * w + 7) / 8;
    }
  }

  // ---- the imperative codec -----------------------------------------------

  method FindLeast(values: seq<int>) returns (min: int)
    requires values != []
    ensures min == Least(values)
  {
    min := values[0];
    for i := 0 to |values|
      invariant min in values
      invariant forall j :: 0 <= j < i ==> min <= values[j]
    {
      if values[i] < min {
        min := values[i];
      }
    }
  }

  method FindResiduals(values: seq<int>, min: int) returns (residuals: seq<nat>, maxResidual: nat)
    requires forall i :: 0 <= i < |values| ==> min <= values[i]
    ensures residuals == Residuals(values, min)
    ensures maxResidual == Greatest(residuals)
  {
    residuals, maxResidual := [], 0;
    for i := 0 to |values|
      invariant residuals == Residuals(values[..i], min)
      invariant maxResidual == 0 || maxResidual in residuals
      invariant forall j :: 0 <= j < i ==> residuals[j] <= maxResidual
    {
      var residual: nat := values[i] - min;
      residuals := residuals + [residual];
      if residual > maxResidual {
        maxResidual := residual;
      }
    }
  }

  method EncodeFOR(values: seq<int>) returns (result: seq<byte>)
    requires InRange(values)
    ensures result == ForBytes(values)
  {
    if |values| == 0 {
      return [];
    }
    hide BitWidth, Greatest, Least, Pack, FlatBits, Residuals, VarintBytes, VarintSeq, ZigZag;
    var min := FindLeast(values);
    var residuals, maxResidual := FindResiduals(values, min);
    var bitWidth := CountBits(maxResidual);
    WidthFits(values);
    var minBytes := EncodeVarint([min]);
    OneVarint(min);
    var header := minBytes + [bitWidth];
    if bitWidth == 0 {
      return header;
    }
    var payload := WriteAll(residuals, bitWidth);
    result := header + payload;
  }

  method WriteAll(residuals: seq<nat>, bitWidth: nat) returns (payload: seq<byte>)
    ensures payload == Pack(FlatBits(residuals, bitWidth))
  {
    hide Pack, ToBits;
    var writer := new BitWriter();
    for i := 0 to |residuals|
      invariant writer.Valid() && fresh(writer)
      invariant writer.Written() == FlatBits(residuals[..i], bitWidth)
    {
      FlatBitsSnoc(residuals, i, bitWidth);
      writer.WriteBits(residuals[i], bitWidth);
    }
    assert residuals[..|residuals|] == residuals;
    payload := writer.Finish();
  }

  method DecodeFOR(data: seq<byte>, count: nat) returns (result: Result<seq<int>>)
    ensures result == DecodeForBytes(data, count)
  {
    if count == 0 {
      return Ok([]);
    }
    if |data| == 0 {
      return Err(Truncated);
    }
    var base := ReadVarintStrict(data);
    if base.Err? {
      return Err(Malformed);
    }
    var min, offset := UnZigZag(base.value.0), base.value.1;
    if offset >= |data| {
      return Err(Truncated);
    }
    var bitWidth := data[offset];
    var payload := data[offset + 1..];
    assert data[offset..][1..] == payload;
    if bitWidth > 53 {
      return Err(OutOfRange);
    }
    if bitWidth == 0 {
      return Ok(Repeat(min, count));
    }
    var expectedBits := count * bitWidth;
    if |payload| * 8 < expectedBits {
      return Err(Truncated);
    }
    var residuals := ReadAll(payload, bitWidth, count);
    var values := [];
    for i := 0 to count
      invariant values == AddBase(min, residuals[..i])
    {
      values := values + [min + residuals[i]];
    }
    assert residuals[..count] == residuals;
    result := Ok(values);
  }

  lemma GroupsSnoc(us: seq<nat>, rest: seq<bool>, width: nat, count: nat, whole: seq<nat>)
    requires count > 0 && us + Groups(rest, width, count) == whole
    ensures us + [FromBits(rest[..Min(width, |rest|)])] + Groups(rest[Min(width, |rest|)..], width, count - 1) == whole
  {
    hide FromBits;
  }

  method ReadAll(payload: seq<byte>, bitWidth: nat, count: nat) returns (residuals: seq<nat>)
    ensures residuals == Groups(Unpack(payload), bitWidth, count)
  {
    hide Unpack, FromBits, Groups;
    var reader := new BitReader(payload);
    residuals := [];
    ghost var whole := Groups(Unpack(payload), bitWidth, count);
    for i := 0 to count
      invariant reader.Valid() && fresh(reader)
      invariant residuals + Groups(reader.Remaining(), bitWidth, count - i) == whole
    {
      GroupsSnoc(residuals, reader.Remaining(), bitWidth, count - i, whole);
      var residual := reader.ReadBits(bitWidth);
      residuals := residuals + [residual];
    }
    assert Groups(reader.Remaining(), bitWidth, 0) == [];
  }
}
