/** Bit strings (least significant bit first) and the BitWriter / BitReader of src/gics/codecs.ts. */
module Bits {
  import opened Bytes

  // ---- numbers and bit strings --------------------------------------------

  function ToBits(n: nat, width: nat): (s: seq<bool>)
    ensures |s| == width
  {
    if width == 0 then [] else [n % 2 == 1] + ToBits(n / 2, width - 1)
  }

  function FromBits(s: seq<bool>): nat
  {
    if s == [] then 0 else (if s[0] then 1 else 0) + 2 * FromBits(s[1..])
  }

  function Zeros(n: nat): (s: seq<bool>)
    ensures |s| == n
    ensures forall i :: 0 <= i < n ==> !s[i]
  {
    seq(n, _ => false)
  }

  lemma {:induction false} FromBitsToBits(n: nat, width: nat)
    requires n < Pow2(width)
    ensures FromBits(ToBits(n, width)) == n
  {
    if width > 0 {
      FromBitsToBits(n / 2, width - 1);
      assert ToBits(n, width)[1..] == ToBits(n / 2, width - 1);
    }
  }

  lemma {:induction false} ToBitsFromBits(s: seq<bool>)
    ensures FromBits(s) < Pow2(|s|)
    ensures ToBits(FromBits(s), |s|) == s
  {
    if s != [] {
      ToBitsFromBits(s[1..]);
      assert s == [s[0]] + s[1..];
    }
  }

  /** Zero bits above the top do not change the number. */
  lemma {:induction false} FromBitsPadded(s: seq<bool>, k: nat)
    ensures FromBits(s + Zeros(k)) == FromBits(s)
  {
    if s == [] {
      FromBitsZeros(k);
      assert s + Zeros(k) == Zeros(k);
    } else {
      FromBitsPadded(s[1..], k);
      assert (s + Zeros(k))[1..] == s[1..] + Zeros(k);
    }
  }

  lemma {:induction false} FromBitsZeros(k: nat)
    ensures FromBits(Zeros(k)) == 0
  {
    if k > 0 {
      FromBitsZeros(k - 1);
      assert Zeros(k)[1..] == Zeros(k - 1);
    }
  }

  lemma {:induction false} FromBitsAppend(s: seq<bool>, bit: bool)
    ensures FromBits(s + [bit]) == FromBits(s) + (if bit then Pow2(|s|) else 0)
  {
    if s == [] {
      assert s + [bit] == [bit];
      assert [bit][1..] == [];
    } else {
      FromBitsAppend(s[1..], bit);
      assert (s + [bit])[1..] == s[1..] + [bit];
    }
  }

  /** The number of bits of `n`; zero has none. */
  function BitWidth(n: nat): (w: nat)
    ensures n < Pow2(w)
    ensures w > 0 ==> Pow2(w - 1) <= n
  {
    if n == 0 then 0 else BitWidth(n / 2) + 1
  }

  lemma {:induction false} BitWidthBound(n: nat, w: nat)
    requires n < Pow2(w)
    ensures BitWidth(n) <= w
  {
    if n > 0 {
      BitWidthBound(n / 2, w - 1);
    }
  }

  method CountBits(n: nat) returns (bits: nat)
    ensures bits == BitWidth(n)
  {
    bits := 0;
    var tmp := n;
    while tmp > 0
      invariant tmp >= 0
      invariant bits + BitWidth(tmp) == BitWidth(n)
    {
      tmp := tmp / 2;
      bits := bits + 1;
    }
  }

  // ---- bit strings and bytes ----------------------------------------------

  /** Eight bits to a byte; the last byte is filled up with zero bits. */
  function Pack(bits: seq<bool>): (s: seq<byte>)
    ensures |s| == (|bits| + 7) / 8
  {
    if |bits| == 0 then []
    else if |bits| <= 8 then
      ToBitsFromBits(bits);
      Pow2Monotone(|bits|, 8);
      Pow2Small();
      [FromBits(bits)]
    else
      ToBitsFromBits(bits[..8]);
      Pow2Small();
      [FromBits(bits[..8])] + Pack(bits[8..])
  }

  function Unpack(bytes: seq<byte>): (s: seq<bool>)
    ensures |s| == 8 * |bytes|
  {
    if bytes == [] then [] else ToBits(bytes[0], 8) + Unpack(bytes[1..])
  }

  lemma {:induction false} UnpackPack(bits: seq<bool>)
    ensures Unpack(Pack(bits)) == bits + Zeros(8 * |Pack(bits)| - |bits|)
  {
    if |bits| == 0 {
    } else if |bits| <= 8 {
      ToBitsPadded(bits, 8);
      assert Pack(bits)[1..] == [];
    } else {
      UnpackPack(bits[8..]);
      ToBitsFromBits(bits[..8]);
      assert Pack(bits)[1..] == Pack(bits[8..]);
      assert bits == bits[..8] + bits[8..];
    }
  }

  lemma ToBitsPadded(bits: seq<bool>, width: nat)
    requires |bits| <= width
    ensures ToBits(FromBits(bits), width) == bits + Zeros(width - |bits|)
  {
    FromBitsPadded(bits, width - |bits|);
    ToBitsFromBits(bits + Zeros(width - |bits|));
  }

  lemma {:induction false} UnpackAppend(a: seq<byte>, b: seq<byte>)
    ensures Unpack(a + b) == Unpack(a) + Unpack(b)
  {
    hide ToBits;
    if a == [] {
      assert a + b == b;
    } else {
      UnpackAppend(a[1..], b);
      assert (a + b)[1..] == a[1..] + b;
    }
  }

  lemma {:induction false} UnpackInjective(a: seq<byte>, b: seq<byte>)
    requires |a| == |b| && Unpack(a) == Unpack(b)
    ensures a == b
  {
    if a != [] {
      assert ToBits(a[0], 8) == Unpack(a)[..8] == Unpack(b)[..8] == ToBits(b[0], 8);
      Pow2Small();
      FromBitsToBits(a[0], 8);
      FromBitsToBits(b[0], 8);
      assert Unpack(a[1..]) == Unpack(a)[8..] == Unpack(b)[8..] == Unpack(b[1..]);
      UnpackInjective(a[1..], b[1..]);
      assert a == [a[0]] + a[1..] && b == [b[0]] + b[1..];
    }
  }

  /** Bit `k` of a byte string sits in byte k / 8 at position k % 8. */
  lemma {:induction false} UnpackAt(bytes: seq<byte>, k: nat)
    requires k < 8 * |bytes|
    ensures Unpack(bytes)[k] == ToBits(bytes[k / 8], 8)[k % 8]
  {
    if k >= 8 {
      UnpackAt(bytes[1..], k - 8);
      assert Unpack(bytes)[k] == Unpack(bytes[1..])[k - 8];
      assert bytes[1..][(k - 8) / 8] == bytes[k / 8];
    } else {
      assert Unpack(bytes)[k] == ToBits(bytes[0], 8)[k];
    }
  }

  /** x | (1 << i) */
  function SetBit(x: nat, i: nat): nat
  {
    if i == 0 then (if x % 2 == 1 then x else x + 1) else x % 2 + 2 * SetBit(x / 2, i - 1)
  }

  lemma {:induction false} SetBitBits(x: nat, i: nat, width: nat)
    requires i < width && x < Pow2(width)
    ensures SetBit(x, i) < Pow2(width)
    ensures ToBits(SetBit(x, i), width) == ToBits(x, width)[i := true]
  {
    if i > 0 {
      SetBitBits(x / 2, i - 1, width - 1);
    }
  }

  /** (x >> i) & 1 */
  function GetBit(x: nat, i: nat): nat
  {
    if i == 0 then x % 2 else GetBit(x / 2, i - 1)
  }

  lemma {:induction false} GetBitBits(x: nat, i: nat, width: nat)
    requires i < width
    ensures (GetBit(x, i) == 1) == ToBits(x, width)[i]
    ensures GetBit(x, i) <= 1
  {
    if i > 0 {
      GetBitBits(x / 2, i - 1, width - 1);
    }
  }

  /** OR-ing one bit into one byte changes exactly that bit of the byte string. */
  lemma SetBitInBytes(bytes: seq<byte>, k: nat, bytes': seq<byte>)
    requires k < 8 * |bytes|
    requires SetBit(bytes[k / 8], k % 8) < 256
    requires bytes' == bytes[k / 8 := SetBit(bytes[k / 8], k % 8)]
    ensures Unpack(bytes') == Unpack(bytes)[k := true]
  {
    Pow2Small();
    SetBitBits(bytes[k / 8], k % 8, 8);
    forall j | 0 <= j < 8 * |bytes|
      ensures Unpack(bytes')[j] == Unpack(bytes)[k := true][j]
    {
      UnpackAt(bytes, j);
      UnpackAt(bytes', j);
      if j / 8 == k / 8 {
        assert j % 8 == k % 8 <==> j == k;
      }
    }
  }

  // ---- fixed-width groups -------------------------------------------------

  function FlatBits(us: seq<nat>, width: nat): seq<bool>
  {
    if us == [] then [] else ToBits(us[0], width) + FlatBits(us[1..], width)
  }

  function Min(a: int, b: int): int { if a <= b then a else b }

  /** `count` numbers of `width` bits each; bits past the end read as zero. */
  function Groups(bits: seq<bool>, width: nat, count: nat): (us: seq<nat>)
    ensures |us| == count
    decreases count
  {
    if count == 0 then []
    else
      var w := Min(width, |bits|);
      [FromBits(bits[..w])] + Groups(bits[w..], width, count - 1)
  }

  lemma {:induction false} GroupsOfFlatBits(us: seq<nat>, width: nat, rest: seq<bool>)
    requires forall i :: 0 <= i < |us| ==> us[i] < Pow2(width)
    ensures Groups(FlatBits(us, width) + rest, width, |us|) == us
  {
    if us != [] {
      var bits := FlatBits(us, width) + rest;
      FromBitsToBits(us[0], width);
      assert bits[..width] == ToBits(us[0], width);
      assert bits[width..] == FlatBits(us[1..], width) + rest;
      GroupsOfFlatBits(us[1..], width, rest);
    }
  }

  lemma {:induction false} FlatBitsLength(us: seq<nat>, width: nat)
    ensures |FlatBits(us, width)| == |us| * width
  {
    if us != [] {
      FlatBitsLength(us[1..], width);
      assert |us| * width == (|us| - 1) * width + width;
    }
  }

  lemma {:induction false} FlatBitsAppend(us: seq<nat>, vs: seq<nat>, width: nat)
    ensures FlatBits(us + vs, width) == FlatBits(us, width) + FlatBits(vs, width)
  {
    if us == [] {
      assert us + vs == vs;
    } else {
      FlatBitsAppend(us[1..], vs, width);
      assert (us + vs)[1..] == us[1..] + vs;
    }
  }

  lemma FlatBitsSnoc(us: seq<nat>, i: nat, width: nat)
    requires i < |us|
    ensures FlatBits(us[..i + 1], width) == FlatBits(us[..i], width) + ToBits(us[i], width)
    ensures FlatBits(us, width) == FlatBits(us[..i + 1], width) + FlatBits(us[i + 1..], width)
  {
    assert us[..i + 1] == us[..i] + [us[i]];
    FlatBitsAppend(us[..i], [us[i]], width);
    assert FlatBits([us[i]], width) == ToBits(us[i], width);
    assert us == us[..i + 1] + us[i + 1..];
    FlatBitsAppend(us[..i + 1], us[i + 1..], width);
  }

  // ---- BitWriter ----------------------------------------------------------

  lemma PackPartial(bytes: seq<byte>, cur: nat, k: nat)
    requires k <= 8 && cur < Pow2(k)
    ensures Pow2(k) <= 256
    ensures Pack(Unpack(bytes) + ToBits(cur, k)) == if k == 0 then bytes else bytes + [cur as byte]
  {
    Pow2Monotone(k, 8);
    Pow2Small();
    PackPartialBytes(bytes, cur, k);
  }

  lemma {:induction false} PackPartialBytes(bytes: seq<byte>, cur: nat, k: nat)
    requires k <= 8 && cur < Pow2(k) && cur < 256
    ensures Pack(Unpack(bytes) + ToBits(cur, k)) == if k == 0 then bytes else bytes + [cur]
  {
    var bits := Unpack(bytes) + ToBits(cur, k);
    if bytes == [] {
      FromBitsToBits(cur, k);
      assert bits == ToBits(cur, k);
    } else {
      assert bits == ToBits(bytes[0], 8) + (Unpack(bytes[1..]) + ToBits(cur, k));
      Pow2Small();
      FromBitsToBits(bytes[0], 8);
      assert bits[..8] == ToBits(bytes[0], 8);
      assert bits[8..] == Unpack(bytes[1..]) + ToBits(cur, k);
      PackPartialBytes(bytes[1..], cur, k);
      if |bits| <= 8 {
        assert bits == bits[..8];
        assert bytes == [bytes[0]];
      }
    }
  }

  class BitWriter {
    var bytes: seq<byte>
    var currentByte: nat
    var bitPos: nat

    ghost predicate Valid()
      reads this
    {
      bitPos < 8 && currentByte < Pow2(bitPos)
    }

    /** Every bit written so far. */
    ghost function Written(): seq<bool>
      reads this
    {
      Unpack(bytes) + ToBits(currentByte, bitPos)
    }

    constructor ()
      ensures Valid() && Written() == []
    {
      bytes, currentByte, bitPos := [], 0, 0;
    }

    method WriteBit(bit: nat)
      requires Valid()
      modifies this
      ensures Valid()
      ensures Written() == old(Written()) + [bit != 0]
    {
      ghost var bits := ToBits(currentByte, bitPos);
      ToBitsPadded(bits, bitPos + 1);
      FromBitsToBits(currentByte, bitPos);
      if bit != 0 {
        SetBitBits(currentByte, bitPos, bitPos + 1);
        currentByte := SetBit(currentByte, bitPos);
      }
      bitPos := bitPos + 1;
      assert ToBits(currentByte, bitPos) == bits + [bit != 0];
      if bitPos == 8 {
        Pow2Small();
        UnpackAppend(bytes, [currentByte]);
        assert Unpack([currentByte]) == ToBits(currentByte, 8);
        bytes := bytes + [currentByte];
        currentByte := 0;
        bitPos := 0;
      }
    }

    method WriteBits(value: nat, width: nat)
      requires Valid()
      modifies this
      ensures Valid()
      ensures Written() == old(Written()) + ToBits(value, width)
    {
      hide Unpack;
      var v := value;
      for i := 0 to width
        invariant Valid()
        invariant Written() + ToBits(v, width - i) == old(Written()) + ToBits(value, width)
      {
        ghost var before := Written();
        WriteBit(v % 2);
        assert ToBits(v, width - i) == [v % 2 == 1] + ToBits(v / 2, width - i - 1);
        assert before + ([v % 2 == 1] + ToBits(v / 2, width - i - 1)) == Written() + ToBits(v / 2, width - i - 1);
        v := v / 2;
      }
    }

    method Finish() returns (out: seq<byte>)
      requires Valid()
      modifies this
      ensures out == Pack(old(Written()))
    {
      PackPartial(bytes, currentByte, bitPos);
      if bitPos > 0 {
        bytes := bytes + [currentByte];
        currentByte := 0;
        bitPos := 0;
      }
      out := bytes;
    }
  }

  // ---- BitReader ----------------------------------------------------------

  class BitReader {
    const data: seq<byte>
    var bytePos: nat
    var bitPos: nat

    ghost predicate Valid()
      reads this
    {
      bitPos < 8 && bytePos <= |data| && (bytePos == |data| ==> bitPos == 0)
    }

    /** Every bit not read yet. */
    ghost function Remaining(): seq<bool>
      reads this
      requires Valid()
    {
      Unpack(data)[8 * bytePos + bitPos..]
    }

    constructor (data: seq<byte>)
      ensures Valid() && this.data == data && Remaining() == Unpack(data)
    {
      this.data := data;
      bytePos, bitPos := 0, 0;
    }

    /** Null at the end of the data. */
    method ReadBit() returns (bit: Option<nat>)
      requires Valid()
      modifies this
      ensures Valid()
      ensures old(Remaining()) == [] ==> bit == None && Remaining() == []
      ensures old(Remaining()) != [] ==>
                bit == Some(if old(Remaining())[0] then 1 else 0) && Remaining() == old(Remaining())[1..]
    {
      hide Unpack, ToBits, GetBit;
      if bytePos >= |data| {
        return None;
      }
      UnpackAt(data, 8 * bytePos + bitPos);
      GetBitBits(data[bytePos], bitPos, 8);
      bit := Some(GetBit(data[bytePos], bitPos));
      bitPos := bitPos + 1;
      if bitPos == 8 {
        bitPos := 0;
        bytePos := bytePos + 1;
      }
    }

    method ReadBits(width: nat) returns (result: nat)
      requires Valid()
      modifies this
      ensures Valid()
      ensures result == FromBits(old(Remaining())[..Min(width, |old(Remaining())|)])
      ensures Remaining() == old(Remaining())[Min(width, |old(Remaining())|)..]
    {
      result := 0;
      ghost var bits := Remaining();
      var i, weight := 0, 1;
      while i < width
        invariant 0 <= i <= width && i <= |bits| && weight == Pow2(i)
        invariant Valid() && Remaining() == bits[i..]
        invariant result == FromBits(bits[..i])
      {
        var bit := ReadBit();
        if bit == None {
          break;
        }
        assert bits[..i + 1] == bits[..i] + [bits[i]];
        FromBitsAppend(bits[..i], bits[i]);
        if bit.value == 1 {
          result := result + weight;
        }
        weight := weight * 2;
        i := i + 1;
      }
    }
  }

  /** A reader placed on a writer's output reads back every bit that was written, then only zero padding. */
  lemma ReaderInvertsWriter(bits: seq<bool>)
    ensures bits <= Unpack(Pack(bits))
    ensures |Unpack(Pack(bits))| - |bits| < 8
    ensures forall i :: |bits| <= i < |Unpack(Pack(bits))| ==> !Unpack(Pack(bits))[i]
  {
    UnpackPack(bits);
  }
}
