/** src/gics/segment.ts: the Bloom filter over item ids. */
module Bloom {
  import opened Bytes
  import opened Bits

  /** ToInt32 on an integer: the low 32 bits. */
  function ToInt32(v: int): bv32
  {
    (v % 0x1_0000_0000) as bv32
  }

  function Hash(v: int, seed: bv32): nat
  {
    var h0 := seed ^ ToInt32(v);
    var h1 := (h0 ^ (h0 >> 16)) * 0x85ebca6b;
    var h2 := (h1 ^ (h1 >> 13)) * 0xc2b2ae35;
    (h2 ^ (h2 >> 16)) as nat
  }

  /** The three hashes of the id 1. */
  lemma HashesOfOne()
    ensures Hash(1, 0x1234_5678) == 0x5974_5785 && Hash(1, 0x8765_4321) == 0x464C_CC38 && Hash(1, 0xABCD_EF01) == 0xEA65_21A2
  {
    assert ToInt32(1) == 1;
  }

  /** The three bit positions of an id in a filter of `size` bytes. */
  function Positions(id: int, size: nat): (ps: seq<nat>)
    requires size > 0
    ensures |ps| == 3 && forall i :: 0 <= i < 3 ==> ps[i] < 8 * size
  {
    hide Hash;
    [Hash(id, 0x12345678) % (8 * size), Hash(id, 0x87654321) % (8 * size), Hash(id, 0xABCDEF01) % (8 * size)]
  }

  function SetAt(bits: seq<byte>, p: nat): (r: seq<byte>)
    requires p < 8 * |bits|
    ensures |r| == |bits|
  {
    Pow2Small();
    SetBitBits(bits[p / 8], p % 8, 8);
    bits[p / 8 := SetBit(bits[p / 8], p % 8)]
  }

  predicate GetAt(bits: seq<byte>, p: nat)
    requires p < 8 * |bits|
  {
    GetBit(bits[p / 8], p % 8) == 1
  }

  lemma SetThenGet(bits: seq<byte>, p: nat, q: nat)
    requires p < 8 * |bits| && q < 8 * |bits|
    ensures GetAt(SetAt(bits, p), q) <==> p == q || GetAt(bits, q)
  {
    hide Unpack, ToBits, GetBit, SetBit;
    Pow2Small();
    SetBitBits(bits[p / 8], p % 8, 8);
    var bits' := SetAt(bits, p);
    SetBitInBytes(bits, p, bits');
    UnpackAt(bits', q);
    UnpackAt(bits, q);
    GetBitBits(bits'[q / 8], q % 8, 8);
    GetBitBits(bits[q / 8], q % 8, 8);
  }

  function AddId(bits: seq<byte>, id: int): (r: seq<byte>)
    requires bits != []
    ensures |r| == |bits|
  {
    var ps := Positions(id, |bits|);
    SetAt(SetAt(SetAt(bits, ps[0]), ps[1]), ps[2])
  }

  predicate MaybeContains(bits: seq<byte>, id: int)
    requires bits != []
  {
    var ps := Positions(id, |bits|);
    GetAt(bits, ps[0]) && GetAt(bits, ps[1]) && GetAt(bits, ps[2])
  }

  lemma AddIdKeeps(bits: seq<byte>, id: int, other: int)
    requires bits != []
    ensures MaybeContains(AddId(bits, id), id)
    ensures MaybeContains(bits, other) ==> MaybeContains(AddId(bits, id), other)
  {
    hide Positions, SetAt, GetAt;
    var ps, qs := Positions(id, |bits|), Positions(other, |bits|);
    var b1 := SetAt(bits, ps[0]);
    var b2 := SetAt(b1, ps[1]);
    forall q | q in ps + qs
      ensures q < 8 * |bits| && (GetAt(SetAt(b2, ps[2]), q) <==> q in ps || GetAt(bits, q))
    {
      SetThenGet(bits, ps[0], q);
      SetThenGet(b1, ps[1], q);
      SetThenGet(b2, ps[2], q);
    }
    assert forall i :: 0 <= i < 3 ==> ps[i] in ps + qs && qs[i] in ps + qs;
  }

  function AddAll(bits: seq<byte>, ids: seq<int>): (r: seq<byte>)
    requires bits != []
    ensures |r| == |bits|
  {
    if ids == [] then bits else AddId(AddAll(bits, ids[..|ids| - 1]), ids[|ids| - 1])
  }

  /** No false negatives: every id that was added is reported. */
  lemma {:induction false} NoFalseNegatives(bits: seq<byte>, ids: seq<int>, id: int)
    requires bits != [] && id in ids
    ensures MaybeContains(AddAll(bits, ids), id)
  {
    var init := ids[..|ids| - 1];
    AddIdKeeps(AddAll(bits, init), ids[|ids| - 1], id);
    if id != ids[|ids| - 1] {
      var i :| 0 <= i < |ids| && ids[i] == id;
      assert init[i] == id;
      NoFalseNegatives(bits, init, id);
    }
  }

  lemma AddIdSets(bits: seq<byte>, id: int, q: nat)
    requires bits != [] && q < 8 * |bits|
    ensures GetAt(AddId(bits, id), q) <==> q in Positions(id, |bits|) || GetAt(bits, q)
  {
    hide Positions, SetAt, GetAt;
    var ps := Positions(id, |bits|);
    var b1 := SetAt(bits, ps[0]);
    var b2 := SetAt(b1, ps[1]);
    SetThenGet(bits, ps[0], q);
    SetThenGet(b1, ps[1], q);
    SetThenGet(b2, ps[2], q);
  }

  predicate SomeonesBit(ids: seq<int>, q: nat, size: nat)
    requires size > 0
  {
    exists i :: 0 <= i < |ids| && q in Positions(ids[i], size)
  }

  lemma {:induction false} BitsExact(bits: seq<byte>, ids: seq<int>, q: nat)
    requires bits != [] && q < 8 * |bits|
    ensures GetAt(AddAll(bits, ids), q) <==> SomeonesBit(ids, q, |bits|) || GetAt(bits, q)
  {
    hide Positions, GetAt, AddId;
    if ids != [] {
      var n := |ids| - 1;
      BitsExact(bits, ids[..n], q);
      AddIdSets(AddAll(bits, ids[..n]), ids[n], q);
      assert forall i :: 0 <= i < n ==> ids[..n][i] == ids[i];
      assert SomeonesBit(ids, q, |bits|) <==> SomeonesBit(ids[..n], q, |bits|) || q in Positions(ids[n], |bits|);
    }
  }

  /** What a fresh filter reports after some ids were added: exactly the ids all of whose bits are bits of added ones. */
  lemma FilterExact(size: nat, ids: seq<int>, id: int)
    requires size > 0
    ensures MaybeContains(AddAll(seq(size, _ => 0), ids), id)
       <==> forall q :: q in Positions(id, size) ==> SomeonesBit(ids, q, size)
  {
    hide Positions, GetAt, AddAll, SomeonesBit;
    var bits: seq<byte> := seq(size, _ => 0);
    var ps := Positions(id, size);
    forall q | q in ps
      ensures q < 8 * size && (GetAt(AddAll(bits, ids), q) <==> SomeonesBit(ids, q, size))
    {
      BitsExact(bits, ids, q);
      NoBit(bits, q);
    }
    assert ps == [ps[0], ps[1], ps[2]];
    assert MaybeContains(AddAll(bits, ids), id) <==>
           GetAt(AddAll(bits, ids), ps[0]) && GetAt(AddAll(bits, ids), ps[1]) && GetAt(AddAll(bits, ids), ps[2]);
  }

  lemma NoBit(bits: seq<byte>, q: nat)
    requires q < 8 * |bits| && bits[q / 8] == 0
    ensures !GetAt(bits, q)
  {
    ZeroBit(q % 8);
  }

  lemma {:induction false} ZeroBit(i: nat)
    ensures GetBit(0, i) == 0
  {
    if i > 0 {
      ZeroBit(i - 1);
    }
  }

  class BloomFilter {
    const bits: array<byte>

    constructor (sizeBytes: nat)
      requires sizeBytes > 0
      ensures bits.Length == sizeBytes && fresh(bits)
      ensures forall i :: 0 <= i < sizeBytes ==> bits[i] == 0
    {
      bits := new byte[sizeBytes](_ => 0);
    }

    method SetBitAt(hash: nat)
      requires bits.Length > 0
      modifies bits
      ensures bits[..] == SetAt(old(bits[..]), hash % (8 * bits.Length))
    {
      var bitIdx := hash % (bits.Length * 8);
      var byteIdx := bitIdx / 8;
      var bitOffset := bitIdx % 8;
      Pow2Small();
      SetBitBits(bits[byteIdx], bitOffset, 8);
      bits[byteIdx] := SetBit(bits[byteIdx], bitOffset);
    }

    method Add(id: int)
      requires bits.Length > 0
      modifies bits
      ensures bits[..] == AddId(old(bits[..]), id)
    {
      hide Hash, SetAt;
      var h1 := Hash(id, 0x12345678);
      var h2 := Hash(id, 0x87654321);
      var h3 := Hash(id, 0xABCDEF01);
      SetBitAt(h1);
      SetBitAt(h2);
      SetBitAt(h3);
    }

    method Maybe(id: int) returns (b: bool)
      requires bits.Length > 0
      ensures b == MaybeContains(bits[..], id)
    {
      hide Hash, GetBit;
      var ps := Positions(id, bits.Length);
      b := GetBit(bits[ps[0] / 8], ps[0] % 8) == 1 && GetBit(bits[ps[1] / 8], ps[1] % 8) == 1
           && GetBit(bits[ps[2] / 8], ps[2] % 8) == 1;
    }
  }
}
