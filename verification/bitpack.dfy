/** src/gics/codecs.ts: BITPACKING. A width byte, then every zigzagged value in that many bits. */
module BitPack {
  import opened Bytes
  import opened Bits
  import Varint

  /** The integers whose zigzag code is an exact double and so fits 54 bits. */
  const MAX_PACKED: int := 0x10_0000_0000_0000   // 2^52

  predicate Packable(values: seq<int>)
  {
    forall i :: 0 <= i < |values| ==> -MAX_PACKED <= values[i] <= MAX_PACKED
  }

  function ZigZags(values: seq<int>): (us: seq<nat>)
    ensures |us| == |values|
    ensures forall i :: 0 <= i < |us| ==> us[i] == Varint.ZigZag(values[i])
  {
    seq(|values|, i requires 0 <= i < |values| => Varint.ZigZag(values[i]))
  }

  function UnZigZags(us: seq<nat>): (values: seq<int>)
    ensures |us| == |values|
    ensures forall i :: 0 <= i < |us| ==> values[i] == Varint.UnZigZag(us[i])
  {
    seq(|us|, i requires 0 <= i < |us| => Varint.UnZigZag(us[i]))
  }

  function Max(us: seq<nat>): (m: nat)
    ensures forall i :: 0 <= i < |us| ==> us[i] <= m
    ensures us == [] ==> m == 0
    ensures us != [] ==> m in us
  {
    if us == [] then 0
    else
      var m := Max(us[1..]);
      if us[0] > m || |us| == 1 then us[0] else m
  }

  method FindMax(us: seq<nat>) returns (max: nat)
    ensures max == Max(us)
  {
    max := 0;
    for i := 0 to |us|
      invariant forall j :: 0 <= j < i ==> us[j] <= max
      invariant max == 0 || max in us[..i]
    {
      if us[i] > max {
        max := us[i];
      }
    }
    assert us[..|us|] == us;
  }

  /** Zero is given one bit. */
  function Width(us: seq<nat>): nat
  {
    if Max(us) == 0 then 1 else BitWidth(Max(us))
  }

  lemma WidthFits(values: seq<int>)
    requires Packable(values)
    ensures 1 <= Width(ZigZags(values)) <= 54
    ensures forall i :: 0 <= i < |values| ==> ZigZags(values)[i] < Pow2(Width(ZigZags(values)))
  {
    var us := ZigZags(values);
    var m := Max(us);
    Pow2Values();
    BitWidthBound(m, 54);
  }

  function BitPackBytes(values: seq<int>): seq<byte>
    requires Packable(values)
  {
    if values == [] then []
    else
      WidthFits(values);
      var us := ZigZags(values);
      [Width(us)] + Pack(FlatBits(us, Width(us)))
  }

  function DecodeBitPackBytes(data: seq<byte>, count: nat): seq<int>
  {
    if data == [] then [] else UnZigZags(Groups(Unpack(data[1..]), data[0], count))
  }

  lemma BitPackRoundTrip(values: seq<int>)
    requires Packable(values)
    ensures DecodeBitPackBytes(BitPackBytes(values), |values|) == values
  {
    if values != [] {
      var us := ZigZags(values);
      var w := Width(us);
      WidthFits(values);
      var bits := FlatBits(us, w);
      UnpackPack(bits);
      GroupsOfFlatBits(us, w, Zeros(8 * |Pack(bits)| - |bits|));
      assert BitPackBytes(values)[1..] == Pack(bits);
      forall i | 0 <= i < |values|
        ensures UnZigZags(us)[i] == values[i]
      {
        Varint.ZigZagBijection(values[i], us[i]);
      }
    }
  }

  // ---- the in-place writer ------------------------------------------------

  /** The first `k` bits are written, everything above is still zero. */
  ghost predicate WrittenUpTo(bytes: seq<byte>, bits: seq<bool>, k: nat)
  {
    |bits| <= 8 * |bytes| && k <= |bits| &&
    forall j :: 0 <= j < 8 * |bytes| ==> Unpack(bytes)[j] == (j < k && bits[j])
  }

  lemma WriteOne(bytes: seq<byte>, bits: seq<bool>, k: nat, bytes': seq<byte>)
    requires WrittenUpTo(bytes, bits, k) && k < |bits|
    requires bits[k] ==> SetBit(bytes[k / 8], k % 8) < 256 && bytes' == bytes[k / 8 := SetBit(bytes[k / 8], k % 8)]
    requires !bits[k] ==> bytes' == bytes
    ensures WrittenUpTo(bytes', bits, k + 1)
  {
    hide Unpack, SetBit;
    if bits[k] {
      SetBitInBytes(bytes, k, bytes');
    }
  }

  lemma WrittenIsPacked(bytes: seq<byte>, bits: seq<bool>)
    requires WrittenUpTo(bytes, bits, |bits|) && |bytes| == (|bits| + 7) / 8
    ensures bytes == Pack(bits)
  {
    hide Unpack, Pack;
    UnpackPack(bits);
    assert Unpack(bytes) == Unpack(Pack(bits));
    UnpackInjective(bytes, Pack(bits));
  }

  lemma {:induction false} UnpackZeros(n: nat, bytes: seq<byte>)
    requires |bytes| == n && forall i :: 0 <= i < n ==> bytes[i] == 0
    ensures forall j :: 0 <= j < 8 * n ==> !Unpack(bytes)[j]
  {
    if n > 0 {
      UnpackZeros(n - 1, bytes[1..]);
      FromBitsZeros(8);
      ToBitsFromBits(Zeros(8));
    }
  }

  lemma SetBitStaysByte(x: byte, i: nat)
    requires i < 8
    ensures SetBit(x, i) < 256
  {
    Pow2Small();
    SetBitBits(x, i, 8);
  }

  /** One value: OR its `bits` low bits into the buffer behind the `bitPos` bits already there. */
  method PackOne(result: array<byte>, ghost all: seq<bool>, bitPos: nat, val: nat, bits: nat)
    requires result.Length >= 1 && WrittenUpTo(result[1..], all, bitPos)
    requires bitPos + bits <= |all| && all[bitPos..bitPos + bits] == ToBits(val, bits)
    modifies result
    ensures WrittenUpTo(result[1..], all, bitPos + bits) && result[0] == old(result[0])
  {
    hide Unpack, SetBit, WrittenUpTo;
    var currentVal := val;
    for b := 0 to bits
      invariant WrittenUpTo(result[1..], all, bitPos + b) && result[0] == old(result[0])
      invariant ToBits(currentVal, bits - b) == ToBits(val, bits)[b..]
    {
      ghost var before := result[1..];
      var totalBit := bitPos + b;
      assert all[totalBit] == ToBits(val, bits)[b] == (currentVal % 2 == 1);
      WrittenBounds(before, all, totalBit);
      if currentVal % 2 != 0 {
        var byteIdx := 1 + totalBit / 8;
        var bitIdx := totalBit % 8;
        assert before[totalBit / 8] == result[byteIdx];
        SetBitStaysByte(result[byteIdx], bitIdx);
        result[byteIdx] := SetBit(result[byteIdx], bitIdx);
        assert result[1..] == before[totalBit / 8 := SetBit(before[totalBit / 8], bitIdx)];
      }
      WriteOne(before, all, totalBit, result[1..]);
      currentVal := currentVal / 2;
    }
  }

  lemma WrittenBounds(bytes: seq<byte>, bits: seq<bool>, k: nat)
    requires WrittenUpTo(bytes, bits, k)
    ensures |bits| <= 8 * |bytes|
  {
  }

  method EncodeBitPack(values: seq<int>) returns (out: seq<byte>)
    requires Packable(values)
    ensures out == BitPackBytes(values)
  {
    if |values| == 0 {
      return [];
    }
    hide Width, FlatBits, Pack;
    var unsigned := ZigZags(values);
    var max := FindMax(unsigned);
    var bits := CountBits(max);
    if max == 0 {
      bits := 1;
    }
    WidthIs(unsigned, bits);
    WidthFits(values);
    out := PackAll(unsigned, bits);
  }

  /** Allocate the zeroed buffer, OR every value in, and put the width in front. */
  method PackAll(unsigned: seq<nat>, bits: byte) returns (out: seq<byte>)
    ensures out == [bits] + Pack(FlatBits(unsigned, bits))
  {
    hide FlatBits, Pack, Unpack, WrittenUpTo;
    ghost var all := FlatBits(unsigned, bits);
    FlatBitsLength(unsigned, bits);
    var dataBytes := (|unsigned| * bits + 7) / 8;
    var result := new byte[1 + dataBytes](_ => 0);
    result[0] := bits;
    NothingWritten(result[1..], all);
    var bitPos := 0;
    NoBits(bits);
    assert unsigned[..0] == [];
    for i := 0 to |unsigned|
      invariant bitPos == |FlatBits(unsigned[..i], bits)|
      invariant WrittenUpTo(result[1..], all, bitPos) && result[0] == bits
    {
      FlatBitsSnoc(unsigned, i, bits);
      PackOne(result, all, bitPos, unsigned[i], bits);
      bitPos := bitPos + bits;
    }
    assert unsigned[..|unsigned|] == unsigned;
    WrittenIsPacked(result[1..], all);
    out := result[..];
    assert out == [bits] + result[1..];
  }

  lemma NoBits(width: nat)
    ensures FlatBits([], width) == []
  {
  }

  lemma WidthIs(us: seq<nat>, bits: nat)
    requires bits == if Max(us) == 0 then 1 else BitWidth(Max(us))
    ensures bits == Width(us)
  {
  }

  lemma NothingWritten(bytes: seq<byte>, bits: seq<bool>)
    requires |bytes| == (|bits| + 7) / 8 && forall i :: 0 <= i < |bytes| ==> bytes[i] == 0
    ensures WrittenUpTo(bytes, bits, 0)
  {
    UnpackZeros(|bytes|, bytes);
  }

  // ---- the reader ---------------------------------------------------------

  function From(s: seq<bool>, i: nat): seq<bool> { s[Min(i, |s|)..] }

  function Group(s: seq<bool>, width: nat): seq<bool> { s[..Min(width, |s|)] }

  /** `us` is what has been read, `count` numbers are left, together they are `whole`. */
  ghost predicate Pending(us: seq<nat>, s: seq<bool>, bitPos: nat, width: nat, count: nat, whole: seq<nat>)
  {
    us + Groups(From(s, bitPos), width, count) == whole
  }

  lemma PendingStep(us: seq<nat>, s: seq<bool>, bitPos: nat, width: nat, count: nat, whole: seq<nat>)
    requires count > 0 && Pending(us, s, bitPos, width, count, whole)
    ensures Pending(us + [FromBits(Group(From(s, bitPos), width))], s, bitPos + width, width, count - 1, whole)
  {
    hide FromBits;
    var t := From(s, bitPos);
    assert t[Min(width, |t|)..] == From(s, bitPos + width);
  }

  lemma PendingStart(s: seq<bool>, width: nat, count: nat)
    ensures Pending([], s, 0, width, count, Groups(s, width, count))
  {
    assert From(s, 0) == s;
  }

  lemma PendingDone(us: seq<nat>, s: seq<bool>, bitPos: nat, width: nat, whole: seq<nat>)
    requires Pending(us, s, bitPos, width, 0, whole)
    ensures us == whole
  {
  }

  /** The number in bits [bitPos, bitPos + bits); a byte past the end contributes nothing. */
  method ReadGroup(data: seq<byte>, bitPos: nat, bits: nat) returns (val: nat)
    requires data != []
    ensures val == FromBits(Group(From(Unpack(data[1..]), bitPos), bits))
  {
    hide Unpack, FromBits;
    val := 0;
    var powerOfTwo: nat := 1;
    ghost var all := From(Unpack(data[1..]), bitPos);
    EmptyBits();
    assert Group(all, 0) == [];
    for b := 0 to bits
      invariant powerOfTwo == Pow2(b)
      invariant val == FromBits(Group(all, b))
    {
      var totalBit := bitPos + b;
      var byteIdx := 1 + totalBit / 8;
      var bitIdx := totalBit % 8;
      if byteIdx < |data| {
        UnpackAt(data[1..], totalBit);
        GetBitBits(data[byteIdx], bitIdx, 8);
        assert all[b] == Unpack(data[1..])[totalBit];
        assert Group(all, b + 1) == Group(all, b) + [all[b]];
        FromBitsAppend(Group(all, b), all[b]);
        if GetBit(data[byteIdx], bitIdx) == 1 {
          val := val + powerOfTwo;
        }
      } else {
        assert Group(all, b + 1) == Group(all, b);
      }
      powerOfTwo := powerOfTwo * 2;
    }
  }

  lemma EmptyBits()
    ensures FromBits([]) == 0
  {
  }

  method DecodeBitPack(data: seq<byte>, count: nat) returns (result: seq<int>)
    ensures result == DecodeBitPackBytes(data, count)
  {
    if |data| == 0 {
      return [];
    }
    hide Unpack, FromBits, Groups, Group, From, Pending, Varint.UnZigZag, UnZigZags;
    var bits := data[0];
    ghost var all := Unpack(data[1..]);
    ghost var whole := Groups(all, bits, count);
    PendingStart(all, bits, count);
    var bitPos: nat := 0;
    ghost var us: seq<nat> := [];
    result := [];
    for i := 0 to count
      invariant Pending(us, all, bitPos, bits, count - i, whole)
      invariant result == UnZigZags(us)
    {
      PendingStep(us, all, bitPos, bits, count - i, whole);
      var val := ReadGroup(data, bitPos, bits);
      UnZigZagsSnoc(us, val);
      result := result + [Varint.UnZigZag(val)];
      bitPos := bitPos + bits;
      us := us + [val];
    }
    PendingDone(us, all, bitPos, bits, whole);
  }

  lemma UnZigZagsSnoc(us: seq<nat>, val: nat)
    ensures UnZigZags(us + [val]) == UnZigZags(us) + [Varint.UnZigZag(val)]
  {
  }
}
