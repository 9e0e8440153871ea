/** src/gics/codecs.ts: XOR FLOAT. Each double is XORed with the one before it and only the span of
    changed bits is stored. A double is its 64-bit pattern, least significant bit first. */
module XorFloat {
  import opened Bytes
  import opened Bits

  type Word = w: seq<bool> | |w| == 64 witness Zeros(64)

  function Xor(a: Word, b: Word): Word
  {
    seq(64, i requires 0 <= i < 64 => a[i] != b[i])
  }

  lemma XorInverts(a: Word, b: Word)
    ensures Xor(a, Xor(a, b)) == b
    ensures a != b ==> exists i :: 0 <= i < 64 && Xor(a, b)[i]
  {
    if a != b {
      assert exists i :: 0 <= i < 64 && a[i] != b[i];
    }
  }

  // ---- zero counts --------------------------------------------------------

  /** The number of zero bits below the lowest set bit; 64 for zero. */
  ghost predicate IsTrailing(x: Word, n: nat)
  {
    n <= 64 && (forall i :: 0 <= i < n ==> !x[i]) && (n < 64 ==> x[n])
  }

  /** The number of zero bits above the highest set bit; 64 for zero. */
  ghost predicate IsLeading(x: Word, n: nat)
  {
    n <= 64 && (forall i :: 64 - n <= i < 64 ==> !x[i]) && (n < 64 ==> x[63 - n])
  }

  function TrailingFrom(x: Word, i: nat): (n: nat)
    requires i <= 64 && forall j :: 0 <= j < i ==> !x[j]
    ensures IsTrailing(x, n)
    decreases 64 - i
  {
    if i == 64 || x[i] then i else TrailingFrom(x, i + 1)
  }

  function LeadingFrom(x: Word, i: nat): (n: nat)
    requires i <= 64 && forall j :: i <= j < 64 ==> !x[j]
    ensures IsLeading(x, n)
  {
    if i == 0 || x[i - 1] then 64 - i else LeadingFrom(x, i - 1)
  }

  function TrailingZeros(x: Word): (n: nat)
    ensures IsTrailing(x, n)
  {
    TrailingFrom(x, 0)
  }

  function LeadingZeros(x: Word): (n: nat)
    ensures IsLeading(x, n)
  {
    LeadingFrom(x, 64)
  }

  method LeadingZeros64(x: Word) returns (n: nat)
    ensures n == LeadingZeros(x)
  {
    var i := 64;
    while i > 0
      invariant 0 <= i <= 64
      invariant forall j :: i <= j < 64 ==> !x[j]
      invariant LeadingFrom(x, 64) == LeadingFrom(x, i)
    {
      if x[i - 1] {
        return 64 - i;
      }
      i := i - 1;
    }
    n := 64;
  }

  method TrailingZeros64(x: Word) returns (n: nat)
    ensures n == TrailingZeros(x)
  {
    var i := 0;
    while i < 64
      invariant 0 <= i <= 64
      invariant forall j :: 0 <= j < i ==> !x[j]
      invariant TrailingFrom(x, 0) == TrailingFrom(x, i)
    {
      if x[i] {
        return i;
      }
      i := i + 1;
    }
    n := 64;
  }

  /** The span of changed bits is non-empty, so all three header fields fit six bits. */
  lemma HeaderFieldsFit(x: Word)
    requires exists i :: 0 <= i < 64 && x[i]
    ensures LeadingZeros(x) < 64 && TrailingZeros(x) < 64
    ensures 1 <= 64 - LeadingZeros(x) - TrailingZeros(x) <= 64
    ensures x == Zeros(TrailingZeros(x)) + Span(x) + Zeros(LeadingZeros(x))
  {
    var i :| 0 <= i < 64 && x[i];
    var lead, trail := LeadingZeros(x), TrailingZeros(x);
    assert x[63 - lead] && x[trail];
    assert trail <= i <= 63 - lead;
  }

  /** xor >> trailingZeros, kept to its meaningful bits. */
  function Span(x: Word): seq<bool>
  {
    if TrailingZeros(x) <= 64 - LeadingZeros(x) then x[TrailingZeros(x)..64 - LeadingZeros(x)] else []
  }

  // ---- the bit stream -----------------------------------------------------

  /** What follows the marker bit of a changed word. */
  function ChangedBits(x: Word): (bits: seq<bool>)
    requires 1 <= 64 - LeadingZeros(x) - TrailingZeros(x)
    ensures |bits| == 18 + (64 - LeadingZeros(x) - TrailingZeros(x))
  {
    ToBits(LeadingZeros(x), 6) + (ToBits(TrailingZeros(x), 6)
    + (ToBits(64 - LeadingZeros(x) - TrailingZeros(x) - 1, 6) + Span(x)))
  }

  function StepBits(prev: Word, cur: Word): seq<bool>
  {
    if prev == cur then [false]
    else
      XorInverts(prev, cur);
      HeaderFieldsFit(Xor(prev, cur));
      [true] + ChangedBits(Xor(prev, cur))
  }

  function StreamBits(prev: Word, words: seq<Word>): seq<bool>
    decreases |words|
  {
    if words == [] then [] else StepBits(prev, words[0]) + StreamBits(words[0], words[1..])
  }

  function XorBytes(words: seq<Word>): seq<byte>
  {
    if words == [] then [] else Pack(words[0]) + Pack(StreamBits(words[0], words[1..]))
  }

  function Clamp(lo: int, hi: int, x: int): int { if Min(hi, x) >= lo then Min(hi, x) else lo }

  /** readBits(width) at the front of what is left. */
  function Take(bits: seq<bool>, width: nat): seq<bool> { bits[..Min(width, |bits|)] }

  function Drop(bits: seq<bool>, width: nat): seq<bool> { bits[Min(width, |bits|)..] }

  datatype Header = Header(leading: nat, trailing: nat, meaningful: nat)

  function ReadHeader(bits: seq<bool>): Header
  {
    Header(FromBits(Take(bits, 6)), FromBits(Take(Drop(bits, 6), 6)), FromBits(Take(Drop(bits, 12), 6)) + 1)
  }

  /** The decoder's clamps. */
  function Clamped(h: Header): (c: Header)
    ensures c.trailing + c.meaningful <= 64
  {
    var leading := Clamp(0, 63, h.leading);
    var trailing := Clamp(0, 63, h.trailing);
    var most := Clamp(1, 64, 64 - leading - trailing);
    Header(leading, trailing, Clamp(1, most, h.meaningful))
  }

  /** packed << trailing */
  function Shifted(packed: seq<bool>, trailing: nat): Word
    requires trailing + |packed| <= 64
  {
    Zeros(trailing) + packed + Zeros(64 - trailing - |packed|)
  }

  /** The XOR behind a set marker bit. */
  function ReadChanged(bits: seq<bool>): Word
  {
    var c := Clamped(ReadHeader(bits));
    Shifted(Take(Drop(bits, 18), c.meaningful), c.trailing)
  }

  /** One decoded word and the number of bits it took; the marker bit is present. */
  function ReadStep(prev: Word, bits: seq<bool>): (r: (Word, nat))
    requires bits != []
    ensures 1 <= r.1
  {
    if !bits[0] then (prev, 1)
    else (Xor(prev, ReadChanged(bits[1..])), 19 + Clamped(ReadHeader(bits[1..])).meaningful)
  }

  /** Stops early when the bits run out. */
  function DecodeBits(prev: Word, bits: seq<bool>, count: nat): seq<Word>
    decreases count
  {
    if count == 0 || bits == [] then []
    else
      var (cur, used) := ReadStep(prev, bits);
      [cur] + DecodeBits(cur, Drop(bits, used), count - 1)
  }

  function DecodeXorBytes(data: seq<byte>, count: nat): seq<Word>
  {
    if count == 0 || |data| < 8 then []
    else [Unpack(data[..8])] + DecodeBits(Unpack(data[..8]), Unpack(data[8..]), count - 1)
  }

  // ---- round trip ---------------------------------------------------------

  lemma ReadHeaderBack(a: nat, b: nat, c: nat, rest: seq<bool>)
    requires a < 64 && b < 64 && c < 64
    ensures var bits := ToBits(a, 6) + (ToBits(b, 6) + (ToBits(c, 6) + rest));
            ReadHeader(bits) == Header(a, b, c + 1) && Drop(bits, 18) == rest
  {
    hide ToBits, FromBits;
    Pow2Small();
    var bits := ToBits(a, 6) + (ToBits(b, 6) + (ToBits(c, 6) + rest));
    FromBitsToBits(a, 6);
    FromBitsToBits(b, 6);
    FromBitsToBits(c, 6);
    assert Take(bits, 6) == ToBits(a, 6);
    assert Take(Drop(bits, 6), 6) == ToBits(b, 6);
    assert Take(Drop(bits, 12), 6) == ToBits(c, 6);
  }

  /** On what the encoder writes the decoder's clamps change nothing. */
  lemma ClampsAreNoOps(x: Word)
    requires exists i :: 0 <= i < 64 && x[i]
    ensures var h := Header(LeadingZeros(x), TrailingZeros(x), 64 - LeadingZeros(x) - TrailingZeros(x));
            h.meaningful >= 1 && Clamped(h) == h
  {
    HeaderFieldsFit(x);
  }

  lemma ReadChangedBack(x: Word, rest: seq<bool>)
    requires exists i :: 0 <= i < 64 && x[i]
    ensures LeadingZeros(x) < 64 && 1 <= 64 - LeadingZeros(x) - TrailingZeros(x)
    ensures ReadChanged(ChangedBits(x) + rest) == x
    ensures Clamped(ReadHeader(ChangedBits(x) + rest)).meaningful == 64 - LeadingZeros(x) - TrailingZeros(x)
  {
    hide LeadingZeros, TrailingZeros, ToBits, FromBits, ReadHeader, Clamped, Span;
    HeaderFieldsFit(x);
    ClampsAreNoOps(x);
    var lead, trail := LeadingZeros(x), TrailingZeros(x);
    var m := 64 - lead - trail;
    var bits := ToBits(lead, 6) + (ToBits(trail, 6) + (ToBits(m - 1, 6) + (Span(x) + rest)));
    assert ChangedBits(x) + rest == bits;
    ReadHeaderBack(lead, trail, m - 1, Span(x) + rest);
    assert |Span(x)| == m;
    assert Take(Drop(bits, 18), m) == Span(x);
    assert Shifted(Span(x), trail) == x;
  }

  lemma ReadStepBack(prev: Word, cur: Word, rest: seq<bool>)
    ensures StepBits(prev, cur) != []
    ensures ReadStep(prev, StepBits(prev, cur) + rest) == (cur, |StepBits(prev, cur)|)
  {
    hide LeadingZeros, TrailingZeros, ReadHeader, Clamped, ReadChanged, Xor, Span, ChangedBits, ToBits;
    if prev != cur {
      XorInverts(prev, cur);
      var x := Xor(prev, cur);
      HeaderFieldsFit(x);
      ReadChangedBack(x, rest);
      assert (StepBits(prev, cur) + rest)[1..] == ChangedBits(x) + rest;
    }
  }

  lemma {:induction false} DecodeStream(prev: Word, words: seq<Word>, rest: seq<bool>)
    ensures DecodeBits(prev, StreamBits(prev, words) + rest, |words|) == words
    decreases |words|
  {
    hide StepBits, ReadStep;
    if words != [] {
      var cur, tail := words[0], words[1..];
      var bits := StreamBits(prev, words) + rest;
      assert bits == StepBits(prev, cur) + (StreamBits(cur, tail) + rest);
      ReadStepBack(prev, cur, StreamBits(cur, tail) + rest);
      assert Drop(bits, |StepBits(prev, cur)|) == StreamBits(cur, tail) + rest;
      DecodeStream(cur, tail, rest);
    }
  }

  lemma XorRoundTrip(words: seq<Word>)
    ensures DecodeXorBytes(XorBytes(words), |words|) == words
  {
    hide Pack, Unpack, StreamBits, DecodeBits;
    if words != [] {
      var first := Pack(words[0]);
      var bits := StreamBits(words[0], words[1..]);
      UnpackPack(words[0]);
      assert words[0] + Zeros(0) == words[0];
      assert XorBytes(words)[..8] == first && XorBytes(words)[8..] == Pack(bits);
      UnpackPack(bits);
      DecodeStream(words[0], words[1..], Zeros(8 * |Pack(bits)| - |bits|));
    }
  }

  // ---- the imperative codec -----------------------------------------------

  /** What is written so far, and what is still to come after `prev`. */
  ghost predicate Unwritten(written: seq<bool>, prev: Word, words: seq<Word>, whole: seq<bool>)
  {
    written + StreamBits(prev, words) == whole
  }

  lemma UnwrittenStep(written: seq<bool>, prev: Word, words: seq<Word>, whole: seq<bool>)
    requires words != [] && Unwritten(written, prev, words, whole)
    ensures Unwritten(written + StepBits(prev, words[0]), words[0], words[1..], whole)
  {
    hide StepBits;
  }

  lemma UnwrittenStart(prev: Word, words: seq<Word>)
    ensures Unwritten([], prev, words, StreamBits(prev, words))
  {
    hide StreamBits;
  }

  method EncodeXorFloat(values: seq<Word>) returns (result: seq<byte>)
    ensures result == XorBytes(values)
  {
    if |values| == 0 {
      return [];
    }
    hide Pack, StepBits, StreamBits, Unwritten;
    var writer := new BitWriter();
    var prevBits := values[0];
    ghost var whole := StreamBits(values[0], values[1..]);
    UnwrittenStart(values[0], values[1..]);
    for i := 1 to |values|
      invariant writer.Valid() && fresh(writer)
      invariant prevBits == values[i - 1]
      invariant Unwritten(writer.Written(), prevBits, values[i..], whole)
    {
      assert values[i..][1..] == values[i + 1..];
      UnwrittenStep(writer.Written(), prevBits, values[i..], whole);
      WriteStep(writer, prevBits, values[i]);
      prevBits := values[i];
    }
    UnwrittenDone(writer.Written(), prevBits, whole);
    var tail := writer.Finish();
    result := Pack(values[0]) + tail;
  }

  lemma UnwrittenDone(written: seq<bool>, prev: Word, whole: seq<bool>)
    requires Unwritten(written, prev, [], whole)
    ensures written == whole
  {
  }

  method WriteStep(writer: BitWriter, prevBits: Word, currentBits: Word)
    requires writer.Valid()
    modifies writer
    ensures writer.Valid()
    ensures writer.Written() == old(writer.Written()) + StepBits(prevBits, currentBits)
  {
    hide Unpack, ToBits, FromBits, LeadingZeros, TrailingZeros, Xor, ChangedBits, Span;
    if prevBits == currentBits {
      writer.WriteBit(0);
      return;
    }
    XorInverts(prevBits, currentBits);
    var xor := Xor(prevBits, currentBits);
    HeaderFieldsFit(xor);
    ghost var before := writer.Written();
    writer.WriteBit(1);
    WriteChanged(writer, xor);
    assert before + [true] + ChangedBits(xor) == before + ([true] + ChangedBits(xor));
  }

  method WriteChanged(writer: BitWriter, xor: Word)
    requires writer.Valid()
    requires 1 <= 64 - LeadingZeros(xor) - TrailingZeros(xor)
    modifies writer
    ensures writer.Valid()
    ensures writer.Written() == old(writer.Written()) + ChangedBits(xor)
  {
    hide Unpack, ToBits, FromBits, LeadingZeros, TrailingZeros;
    ghost var before := writer.Written();
    var leadingZeros := LeadingZeros64(xor);
    var trailingZeros := TrailingZeros64(xor);
    var meaningfulBits := 64 - leadingZeros - trailingZeros;
    var packed := Span(xor);
    ToBitsFromBits(packed);
    writer.WriteBits(leadingZeros, 6);
    writer.WriteBits(trailingZeros, 6);
    writer.WriteBits(meaningfulBits - 1, 6);
    writer.WriteBits(FromBits(packed), meaningfulBits);
    Regroup(before, ToBits(leadingZeros, 6), ToBits(trailingZeros, 6), ToBits(meaningfulBits - 1, 6), packed);
  }

  lemma Regroup(s: seq<bool>, b: seq<bool>, c: seq<bool>, d: seq<bool>, e: seq<bool>)
    ensures s + b + c + d + e == s + (b + (c + (d + e)))
  {
  }

  /** What is decoded so far, and what the remaining bits still hold. */
  ghost predicate Undecoded(result: seq<Word>, prev: Word, bits: seq<bool>, count: nat, whole: seq<Word>)
  {
    result + DecodeBits(prev, bits, count) == whole
  }

  lemma UndecodedStep(result: seq<Word>, prev: Word, bits: seq<bool>, count: nat, whole: seq<Word>)
    requires Undecoded(result, prev, bits, count, whole)
    ensures bits == [] || count == 0 ==> result == whole
    ensures bits != [] && count > 0 ==>
              var (cur, used) := ReadStep(prev, bits);
              Undecoded(result + [cur], cur, Drop(bits, used), count - 1, whole)
  {
    hide ReadStep;
  }

  method DecodeXorFloat(data: seq<byte>, count: nat) returns (result: seq<Word>)
    ensures result == DecodeXorBytes(data, count)
  {
    if count == 0 || |data| < 8 {
      return [];
    }
    var firstValue: Word := Unpack(data[..8]);
    var tail := DecodeTail(firstValue, data[8..], count - 1);
    result := [firstValue] + tail;
  }

  method DecodeTail(firstValue: Word, data: seq<byte>, count: nat) returns (result: seq<Word>)
    ensures result == DecodeBits(firstValue, Unpack(data), count)
  {
    hide Unpack, ReadStep, DecodeBits, Undecoded;
    ghost var whole := DecodeBits(firstValue, Unpack(data), count);
    result := [];
    var prevBits := firstValue;
    var reader := new BitReader(data);
    UndecodedStart(firstValue, Unpack(data), count);
    for i := 0 to count
      invariant reader.Valid() && fresh(reader)
      invariant Undecoded(result, prevBits, reader.Remaining(), count - i, whole)
    {
      UndecodedStep(result, prevBits, reader.Remaining(), count - i, whole);
      var current := ReadWord(reader, prevBits);
      if current == None {
        return;
      }
      result := result + [current.value];
      prevBits := current.value;
    }
    UndecodedStep(result, prevBits, reader.Remaining(), 0, whole);
  }

  lemma UndecodedStart(prev: Word, bits: seq<bool>, count: nat)
    ensures Undecoded([], prev, bits, count, DecodeBits(prev, bits, count))
  {
    hide DecodeBits;
  }

  lemma DropTwice(bits: seq<bool>, a: nat, b: nat)
    ensures Drop(Drop(bits, a), b) == Drop(bits, a + b)
  {
  }

  method ReadField(reader: BitReader) returns (n: nat)
    requires reader.Valid()
    modifies reader
    ensures reader.Valid()
    ensures n == FromBits(Take(old(reader.Remaining()), 6))
    ensures reader.Remaining() == Drop(old(reader.Remaining()), 6)
  {
    hide Unpack, FromBits;
    n := reader.ReadBits(6);
  }

  method ReadFields(reader: BitReader) returns (h: Header)
    requires reader.Valid()
    modifies reader
    ensures reader.Valid()
    ensures h == ReadHeader(old(reader.Remaining()))
    ensures reader.Remaining() == Drop(old(reader.Remaining()), 18)
  {
    hide Unpack, FromBits, Take, Drop;
    ghost var bits := reader.Remaining();
    var leadingZeros := ReadField(reader);
    var trailingZeros := ReadField(reader);
    DropTwice(bits, 6, 6);
    var meaningfulBits := ReadField(reader);
    DropTwice(bits, 12, 6);
    h := Header(leadingZeros, trailingZeros, meaningfulBits + 1);
  }

  method ReadWord(reader: BitReader, prevBits: Word) returns (current: Option<Word>)
    requires reader.Valid()
    modifies reader
    ensures reader.Valid()
    ensures old(reader.Remaining()) == [] ==> current == None
    ensures old(reader.Remaining()) != [] ==>
              var (cur, used) := ReadStep(prevBits, old(reader.Remaining()));
              current == Some(cur) && reader.Remaining() == Drop(old(reader.Remaining()), used)
  {
    hide Unpack, ToBits, FromBits, Xor, ReadHeader, Clamped, Shifted;
    ghost var bits := reader.Remaining();
    var marker := reader.ReadBit();
    if marker == None {
      return None;
    }
    if marker.value == 0 {
      return Some(prevBits);
    }
    var fields := ReadFields(reader);
    var safe := Clamped(fields);
    ghost var packedBits := Take(reader.Remaining(), safe.meaningful);
    var packed := reader.ReadBits(safe.meaningful);
    ShiftedNumber(packedBits, safe.trailing);
    var xor: Word := Zeros(safe.trailing) + ToBits(packed, 64 - safe.trailing);
    assert reader.Remaining() == Drop(bits, 19 + safe.meaningful);
    current := Some(Xor(prevBits, xor));
  }

  /** packed << trailing, on the number the reader returned, puts the span where it was. */
  lemma ShiftedNumber(packedBits: seq<bool>, trailing: nat)
    requires trailing + |packedBits| <= 64
    ensures Zeros(trailing) + ToBits(FromBits(packedBits), 64 - trailing) == Shifted(packedBits, trailing)
  {
    ToBitsPadded(packedBits, 64 - trailing);
  }
}
