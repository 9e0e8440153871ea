/** CRC-32 as src/daemon/wal.ts computes it, from a table, and the bit-serial checksum it stands for
    (RFC 1952, section 8). */
module Crc {
  import opened Bytes

  const POLYNOMIAL: bv32 := 0xEDB88320

  function Xor(x: bv32, y: bv32): bv32 { x ^ y }

  function Half(c: bv32): bv32 { c >> 1 }

  predicate Odd(c: bv32) { c & 1 != 0 }

  /** One division step of the reflected polynomial. */
  function Step(c: bv32): bv32
  {
    if Odd(c) then Xor(POLYNOMIAL, Half(c)) else Half(c)
  }

  function Steps(c: bv32, n: nat): bv32
  {
    if n == 0 then c else Step(Steps(c, n - 1))
  }

  function Octet(b: byte): bv8 { b as bv8 }

  function Word(x: bv8): bv32 { x as bv32 }

  /** The bit-serial checksum: a byte is xored in and divided out bit by bit. */
  function Serial(crc: bv32, data: seq<byte>): bv32
  {
    if data == [] then crc
    else Steps(Xor(Serial(crc, data[..|data| - 1]), Word(Octet(data[|data| - 1]))), 8)
  }

  function Crc32(data: seq<byte>): (n: nat)
    ensures n < 0x1_0000_0000
  {
    (Serial(0xFFFF_FFFF, data) ^ 0xFFFF_FFFF) as nat
  }

  lemma XorHalf(x: bv32, y: bv32)
    ensures Half(Xor(x, y)) == Xor(Half(x), Half(y))
  {
  }

  lemma XorOdd(x: bv32, y: bv32)
    ensures Odd(Xor(x, y)) <==> Odd(x) != Odd(y)
  {
  }

  lemma XorAssociative(x: bv32, y: bv32, z: bv32)
    ensures (x ^ y) ^ z == x ^ (y ^ z)
  {
  }

  lemma XorCommutes(x: bv32, y: bv32)
    ensures x ^ y == y ^ x
  {
  }

  lemma XorTwice(p: bv32, x: bv32)
    ensures p ^ (p ^ x) == x
  {
  }

  lemma XorAssoc(x: bv32, y: bv32, z: bv32)
    ensures Xor(Xor(x, y), z) == Xor(x, Xor(y, z))
  {
    XorAssociative(x, y, z);
  }

  lemma XorComm(x: bv32, y: bv32)
    ensures Xor(x, y) == Xor(y, x)
  {
    XorCommutes(x, y);
  }

  lemma XorPair(p: bv32, x: bv32)
    ensures Xor(p, Xor(p, x)) == x
  {
    XorTwice(p, x);
  }

  lemma XorMoves(p: bv32, x: bv32, y: bv32)
    ensures Xor(p, Xor(x, y)) == Xor(Xor(p, x), y) == Xor(x, Xor(p, y))
    ensures Xor(Xor(p, x), Xor(p, y)) == Xor(x, y)
  {
    hide Xor;
    XorAssoc(p, x, y);
    XorAssoc(x, p, y);
    XorComm(p, x);
    XorAssoc(Xor(p, x), p, y);
    XorAssoc(p, x, p);
    XorComm(x, p);
    XorPair(p, x);
  }

  lemma StepLinear(x: bv32, y: bv32)
    ensures Step(Xor(x, y)) == Xor(Step(x), Step(y))
  {
    hide Xor, Half, Odd;
    XorHalf(x, y);
    XorOdd(x, y);
    XorMoves(POLYNOMIAL, Half(x), Half(y));
  }

  lemma {:induction false} StepsLinear(x: bv32, y: bv32, n: nat)
    ensures Steps(Xor(x, y), n) == Xor(Steps(x, n), Steps(y, n))
  {
    hide Step, Xor;
    if n > 0 {
      StepsLinear(x, y, n - 1);
      StepLinear(Steps(x, n - 1), Steps(y, n - 1));
    }
  }

  /** The upper 24 bits. */
  function Mask(c: bv32): bv32 { c & 0xFFFF_FF00 }

  function Shr8(c: bv32): bv32 { c >> 8 }

  lemma LowBitsClear(c: bv32)
    ensures !Odd(Mask(c)) && !Odd(Half(Mask(c))) && !Odd(Half(Half(Mask(c)))) && !Odd(Half(Half(Half(Mask(c)))))
    ensures !Odd(Half(Half(Half(Half(Mask(c)))))) && !Odd(Half(Half(Half(Half(Half(Mask(c)))))))
    ensures !Odd(Half(Half(Half(Half(Half(Half(Mask(c))))))))
    ensures !Odd(Half(Half(Half(Half(Half(Half(Half(Mask(c)))))))))
  {
  }

  lemma EightHalves(c: bv32)
    ensures Half(Half(Half(Half(Half(Half(Half(Half(Mask(c))))))))) == Shr8(c)
  {
  }

  /** Eight steps only shift the upper 24 bits. */
  lemma StepsHigh(c: bv32)
    ensures Steps(Mask(c), 8) == Shr8(c)
  {
    hide Odd, Half, Mask, Shr8, Xor;
    LowBitsClear(c);
    EightHalves(c);
    var x := Mask(c);
    assert Steps(x, 1) == Half(x);
    assert Steps(x, 2) == Half(Half(x));
    assert Steps(x, 3) == Half(Half(Half(x)));
    assert Steps(x, 4) == Half(Half(Half(Half(x))));
    assert Steps(x, 5) == Half(Half(Half(Half(Half(x)))));
    assert Steps(x, 6) == Half(Half(Half(Half(Half(Half(x))))));
    assert Steps(x, 7) == Half(Half(Half(Half(Half(Half(Half(x)))))));
  }

  function Low(c: bv32): bv8 { (c & 0xFF) as bv8 }

  function LowWord(c: bv32): bv32 { c & 0xFF }

  lemma LowWordIsLow(c: bv32)
    ensures LowWord(c) == Word(Low(c))
  {
  }

  lemma SplitSelf(c: bv32)
    ensures c == Xor(Mask(c), LowWord(c))
  {
  }

  lemma WordKeepsMask(c: bv32, b: bv8)
    ensures Mask(Xor(c, Word(b))) == Mask(c)
  {
  }

  lemma SplitWord(c: bv32, b: bv8)
    ensures Xor(c, Word(b)) == Xor(Mask(c), Word(Low(Xor(c, Word(b)))))
  {
    hide *;
    SplitSelf(Xor(c, Word(b)));
    WordKeepsMask(c, b);
    LowWordIsLow(Xor(c, Word(b)));
  }

  /** A table lookup does eight division steps at once. */
  lemma TableStep(crc: bv32, b: bv8)
    ensures Steps(Xor(crc, Word(b)), 8) == Xor(Shr8(crc), Steps(Word(Low(Xor(crc, Word(b)))), 8))
  {
    hide Word, Low, Steps, Xor, Mask, Shr8;
    SplitWord(crc, b);
    StepsLinear(Mask(crc), Word(Low(Xor(crc, Word(b)))), 8);
    StepsHigh(crc);
  }

  lemma OctetIndex(x: bv8)
    ensures 0 <= x as int < 256 && Octet(x as int) == x
  {
  }

  /** Entry i holds i divided out. */
  predicate TableOk(table: array<bv32>)
    reads table
  {
    table.Length == 256 && forall i: byte :: table[i] == Steps(Word(Octet(i)), 8)
  }

  /** The table, built bit by bit at start-up. */
  method CrcTable() returns (table: array<bv32>)
    ensures fresh(table) && TableOk(table)
  {
    table := new bv32[256];
    for i := 0 to 256
      invariant forall k: byte :: k < i ==> table[k] == Steps(Word(Octet(k)), 8)
    {
      hide Octet, Word, Xor, Half, Odd;
      var c := Word(Octet(i));
      for j := 0 to 8
        invariant c == Steps(Word(Octet(i)), j)
      {
        c := if Odd(c) then Xor(POLYNOMIAL, Half(c)) else Half(c);
      }
      table[i] := c;
    }
  }

  // ---- which checksum -----------------------------------------------------

  lemma TwoSteps(c: bv32, n: nat)
    ensures Steps(c, n + 2) == Step(Step(Steps(c, n)))
  {
    assert Steps(c, n + 1) == Step(Steps(c, n));
  }

  lemma EightSteps(c: bv32)
    ensures Steps(c, 8) == Step(Step(Step(Step(Step(Step(Step(Step(c))))))))
  {
    hide Step;
    TwoSteps(c, 0);
    TwoSteps(c, 2);
    TwoSteps(c, 4);
    TwoSteps(c, 6);
  }

  /** The checksum after one more byte. */
  predicate Turns(crc: bv32, b: byte, after: bv32) { Steps(Xor(crc, Word(Octet(b))), 8) == after }

  lemma Digit1()
    ensures Turns(0xFFFF_FFFF, 0x31, 0x7C23_1048)
  {
    assert Xor(0xFFFF_FFFF, Word(Octet(0x31))) == 0xFFFF_FFCE;
    EightSteps(0xFFFF_FFCE);
  }

  lemma Digit2()
    ensures Turns(0x7C23_1048, 0x32, 0xB0AC_BB32)
  {
    assert Xor(0x7C23_1048, Word(Octet(0x32))) == 0x7C23_107A;
    EightSteps(0x7C23_107A);
  }

  lemma Digit3()
    ensures Turns(0xB0AC_BB32, 0x33, 0x77B7_9C2D)
  {
    assert Xor(0xB0AC_BB32, Word(Octet(0x33))) == 0xB0AC_BB01;
    EightSteps(0xB0AC_BB01);
  }

  lemma Digit4()
    ensures Turns(0x77B7_9C2D, 0x34, 0x641C_1F5C)
  {
    assert Xor(0x77B7_9C2D, Word(Octet(0x34))) == 0x77B7_9C19;
    EightSteps(0x77B7_9C19);
  }

  lemma Digit5()
    ensures Turns(0x641C_1F5C, 0x35, 0x340A_C5E3)
  {
    assert Xor(0x641C_1F5C, Word(Octet(0x35))) == 0x641C_1F69;
    EightSteps(0x641C_1F69);
  }

  lemma Digit6()
    ensures Turns(0x340A_C5E3, 0x36, 0xF68D_2C9E)
  {
    assert Xor(0x340A_C5E3, Word(Octet(0x36))) == 0x340A_C5D5;
    EightSteps(0x340A_C5D5);
  }

  lemma Digit7()
    ensures Turns(0xF68D_2C9E, 0x37, 0xAFFC_9660)
  {
    assert Xor(0xF68D_2C9E, Word(Octet(0x37))) == 0xF68D_2CA9;
    EightSteps(0xF68D_2CA9);
  }

  lemma Digit8()
    ensures Turns(0xAFFC_9660, 0x38, 0x651F_2550)
  {
    assert Xor(0xAFFC_9660, Word(Octet(0x38))) == 0xAFFC_9658;
    EightSteps(0xAFFC_9658);
  }

  lemma Digit9()
    ensures Turns(0x651F_2550, 0x39, 0x340B_C6D9)
  {
    assert Xor(0x651F_2550, Word(Octet(0x39))) == 0x651F_2569;
    EightSteps(0x651F_2569);
  }

  lemma OneMore(data: seq<byte>, crc: bv32, b: byte, after: bv32)
    requires Serial(0xFFFF_FFFF, data) == crc && Turns(crc, b, after)
    ensures Serial(0xFFFF_FFFF, data + [b]) == after
  {
    hide Steps, Word, Octet, Xor;
    assert (data + [b])[..|data|] == data;
  }

  /** The check value the standard is known by: of the digits 1 to 9. */
  lemma CheckValue()
    ensures Crc32([0x31, 0x32, 0x33, 0x34, 0x35, 0x36, 0x37, 0x38, 0x39]) == 0xCBF4_3926
  {
    hide Turns, Serial;
    NoBytes();
    Digit1();
    OneMore([], 0xFFFF_FFFF, 0x31, 0x7C23_1048);
    assert [] + [0x31] == [0x31];
    Digit2();
    OneMore([0x31], 0x7C23_1048, 0x32, 0xB0AC_BB32);
    assert [0x31] + [0x32] == [0x31, 0x32];
    Digit3();
    OneMore([0x31, 0x32], 0xB0AC_BB32, 0x33, 0x77B7_9C2D);
    assert [0x31, 0x32] + [0x33] == [0x31, 0x32, 0x33];
    Digit4();
    OneMore([0x31, 0x32, 0x33], 0x77B7_9C2D, 0x34, 0x641C_1F5C);
    assert [0x31, 0x32, 0x33] + [0x34] == [0x31, 0x32, 0x33, 0x34];
    Digit5();
    OneMore([0x31, 0x32, 0x33, 0x34], 0x641C_1F5C, 0x35, 0x340A_C5E3);
    assert [0x31, 0x32, 0x33, 0x34] + [0x35] == [0x31, 0x32, 0x33, 0x34, 0x35];
    Digit6();
    OneMore([0x31, 0x32, 0x33, 0x34, 0x35], 0x340A_C5E3, 0x36, 0xF68D_2C9E);
    assert [0x31, 0x32, 0x33, 0x34, 0x35] + [0x36] == [0x31, 0x32, 0x33, 0x34, 0x35, 0x36];
    Digit7();
    OneMore([0x31, 0x32, 0x33, 0x34, 0x35, 0x36], 0xF68D_2C9E, 0x37, 0xAFFC_9660);
    assert [0x31, 0x32, 0x33, 0x34, 0x35, 0x36] + [0x37] == [0x31, 0x32, 0x33, 0x34, 0x35, 0x36, 0x37];
    Digit8();
    OneMore([0x31, 0x32, 0x33, 0x34, 0x35, 0x36, 0x37], 0xAFFC_9660, 0x38, 0x651F_2550);
    assert [0x31, 0x32, 0x33, 0x34, 0x35, 0x36, 0x37] + [0x38] == [0x31, 0x32, 0x33, 0x34, 0x35, 0x36, 0x37, 0x38];
    Digit9();
    OneMore([0x31, 0x32, 0x33, 0x34, 0x35, 0x36, 0x37, 0x38], 0x651F_2550, 0x39, 0x340B_C6D9);
    assert [0x31, 0x32, 0x33, 0x34, 0x35, 0x36, 0x37, 0x38] + [0x39] == [0x31, 0x32, 0x33, 0x34, 0x35, 0x36, 0x37, 0x38, 0x39];
  }

  lemma NoBytes()
    ensures Serial(0xFFFF_FFFF, []) == 0xFFFF_FFFF
  {
  }

  /** The table-driven checksum is the bit-serial one. */
  method ComputeCrc32(table: array<bv32>, buffer: seq<byte>) returns (n: nat)
    requires TableOk(table)
    ensures n == Crc32(buffer)
  {
    hide Octet, Word, Low, Steps, Xor, Shr8;
    var crc: bv32 := 0xFFFF_FFFF;
    for i := 0 to |buffer|
      invariant crc == Serial(0xFFFF_FFFF, buffer[..i])
    {
      assert buffer[..i + 1][..i] == buffer[..i];
      var x := Octet(buffer[i]);
      var low := Low(Xor(crc, Word(x)));
      TableStep(crc, x);
      OctetIndex(low);
      crc := Xor(Shr8(crc), table[low as int]);
    }
    assert buffer[..|buffer|] == buffer;
    n := (crc ^ 0xFFFF_FFFF) as nat;
  }
}
