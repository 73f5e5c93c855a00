/** The octet-wise CRC equals a bit-serial one, and detects short bursts and odd errors. */
module CrcDetection {
  import opened Common
  import opened Crc

  // ---------- the bit-serial register ----------

  function FeedBit(crc: bv16, bit: bool): bv16 {
    Shift(if bit then Xor(crc, 1) else crc)
  }

  function FeedBits(crc: bv16, bits: seq<bool>): bv16
    decreases |bits|
  {
    if bits == [] then crc else FeedBits(FeedBit(crc, bits[0]), bits[1..])
  }

  /** The low `n` bits of a word, least significant first. */
  function BitsOf(word: bv16, n: nat): (bits: seq<bool>)
    ensures |bits| == n
    decreases n
  {
    if n == 0 then [] else [Odd(word)] + BitsOf(Halve(word), n - 1)
  }

  function ShiftRight(word: bv16, n: nat): bv16
    decreases n
  {
    if n == 0 then word else ShiftRight(Halve(word), n - 1)
  }

  /** The bits of the octets in transmission order. */
  function Bits(data: seq<Octet>): (bits: seq<bool>)
    ensures |bits| == 8 * |data|
    decreases |data|
  {
    if data == [] then [] else BitsOf(Widen(data[0]), 8) + Bits(data[1..])
  }

  lemma ShiftOfOne()
    ensures Shift(1) == Reduce(0)
  {
  }

  /** Shifting out the lowest bit of an added word feeds that bit and keeps the rest added. */
  lemma FeedLowestBit(crc: bv16, word: bv16)
    ensures Shift(Xor(crc, word)) == Xor(FeedBit(crc, Odd(word)), Halve(word))
  {
    hide Xor, Odd, Halve, Reduce;
    ShiftLinear(crc, word);
    if Odd(word) {
      ShiftLinear(crc, 1);
      ShiftOfOne();
      ReduceXor(0, Halve(word));
      XorCancels(Halve(word), 0);
      XorAssociates(Shift(crc), Reduce(0), Halve(word));
    }
  }

  lemma {:induction false} SerialWord(crc: bv16, word: bv16, n: nat)
    ensures Shifts(Xor(crc, word), n) == Xor(FeedBits(crc, BitsOf(word, n)), ShiftRight(word, n))
    decreases n
  {
    if n > 0 {
      hide Xor, Odd, Halve, Shift, FeedBit;
      FeedLowestBit(crc, word);
      SerialWord(FeedBit(crc, Odd(word)), Halve(word), n - 1);
      assert BitsOf(word, n)[1..] == BitsOf(Halve(word), n - 1);
    }
  }

  lemma ShiftRight4(word: bv16)
    ensures ShiftRight(word, 0) == word && ShiftRight(word, 1) == word >> 1
    ensures ShiftRight(word, 2) == word >> 2 && ShiftRight(word, 3) == word >> 3
    ensures ShiftRight(word, 4) == word >> 4
  {
    assert Halve(word) == word >> 1 && Halve(word >> 1) == word >> 2;
    assert Halve(word >> 2) == word >> 3 && Halve(word >> 3) == word >> 4;
    hide Halve;
    assert ShiftRight(word, 2) == ShiftRight(word >> 1, 1);
    assert ShiftRight(word, 3) == ShiftRight(word >> 1, 2) == ShiftRight(word >> 2, 1);
    assert ShiftRight(word, 4) == ShiftRight(word >> 1, 3) == ShiftRight(word >> 2, 2) == ShiftRight(word >> 3, 1);
  }

  lemma {:induction false} ShiftRightAdd(word: bv16, m: nat, n: nat)
    ensures ShiftRight(word, m + n) == ShiftRight(ShiftRight(word, m), n)
    decreases m
  {
    if m > 0 {
      hide Halve;
      ShiftRightAdd(Halve(word), m - 1, n);
    }
  }

  lemma ShiftRight8(word: bv16)
    ensures ShiftRight(word, 5) == word >> 5 && ShiftRight(word, 6) == word >> 6
    ensures ShiftRight(word, 7) == word >> 7 && ShiftRight(word, 8) == word >> 8
  {
    ShiftRight6(word);
    hide ShiftRight;
    ShiftRight4(word >> 4);
    ShiftRightAdd(word, 4, 3);
    ShiftRightAdd(word, 4, 4);
    ShiftRight4(word);
  }

  lemma ShiftRight6(word: bv16)
    ensures ShiftRight(word, 5) == word >> 5 && ShiftRight(word, 6) == word >> 6
  {
    hide ShiftRight;
    ShiftRight4(word >> 4);
    ShiftRightAdd(word, 4, 1);
    ShiftRightAdd(word, 4, 2);
    ShiftRight4(word);
  }

  lemma OctetShiftsOut(octet: Octet)
    ensures Widen(octet) >> 8 == 0
  {
  }

  /** Per octet, the byte-wise step is eight bit-serial ones. */
  lemma SerialOctet(crc: bv16, octet: Octet)
    ensures FeedOctet(crc, octet) == FeedBits(crc, BitsOf(Widen(octet), 8))
  {
    hide Xor, Widen, Shifts, FeedBits, ShiftRight, BitsOf;
    SerialWord(crc, Widen(octet), 8);
    ShiftRight8(Widen(octet));
    OctetShiftsOut(octet);
    XorCancels(FeedBits(crc, BitsOf(Widen(octet), 8)), 0);
  }

  lemma {:induction false} FeedBitsConcat(crc: bv16, x: seq<bool>, y: seq<bool>)
    ensures FeedBits(crc, x + y) == FeedBits(FeedBits(crc, x), y)
    decreases |x|
  {
    if x == [] {
      assert x + y == y;
    } else {
      hide FeedBit;
      FeedBitsConcat(FeedBit(crc, x[0]), x[1..], y);
      assert (x + y)[1..] == x[1..] + y;
    }
  }

  /** The nested loops equal a bit-serial register on the transmitted bits. */
  lemma {:induction false} SerialEquivalence(crc: bv16, data: seq<Octet>)
    ensures Feed(crc, data) == FeedBits(crc, Bits(data))
    decreases |data|
  {
    if data != [] {
      hide FeedOctet, BitsOf, FeedBits;
      SerialOctet(crc, data[0]);
      SerialEquivalence(FeedOctet(crc, data[0]), data[1..]);
      FeedBitsConcat(crc, BitsOf(Widen(data[0]), 8), Bits(data[1..]));
    } else {
      assert FeedBits(crc, []) == crc;
    }
  }

  // ---------- the residue ----------

  /** What the register holds after any intact block. */
  function Residue(): bv16 { Shifts(0xFFFF, 16) }

  lemma {:induction false} BitAt(word: bv16, n: nat, k: nat)
    requires k < n
    ensures BitsOf(word, n)[k] == Odd(ShiftRight(word, k))
    decreases n
  {
    if k > 0 {
      hide Odd, Halve;
      BitAt(Halve(word), n - 1, k - 1);
    }
  }

  lemma LowBits(word: bv16)
    ensures BitsOf(Widen(Low(word)), 8) == BitsOf(word, 8)
  {
    hide Odd, Widen, Low, BitsOf, ShiftRight;
    ShiftRight4(word);
    ShiftRight8(word);
    ShiftRight4(Widen(Low(word)));
    ShiftRight8(Widen(Low(word)));
    SameLowBits(word);
    forall k: nat | k < 8
      ensures BitsOf(Widen(Low(word)), 8)[k] == BitsOf(word, 8)[k]
    {
      BitAt(word, 8, k);
      BitAt(Widen(Low(word)), 8, k);
    }
  }

  lemma SameLowBits(word: bv16)
    ensures Odd(word) == Odd(Widen(Low(word)))
    ensures Odd(word >> 1) == Odd(Widen(Low(word)) >> 1)
    ensures Odd(word >> 2) == Odd(Widen(Low(word)) >> 2)
    ensures Odd(word >> 3) == Odd(Widen(Low(word)) >> 3)
    ensures Odd(word >> 4) == Odd(Widen(Low(word)) >> 4)
    ensures Odd(word >> 5) == Odd(Widen(Low(word)) >> 5)
    ensures Odd(word >> 6) == Odd(Widen(Low(word)) >> 6)
    ensures Odd(word >> 7) == Odd(Widen(Low(word)) >> 7)
  {
  }

  lemma HighPart(word: bv16)
    ensures Widen(High(word)) == word >> 8
  {
  }

  lemma FeedTwo(crc: bv16, low: Octet, high: Octet)
    ensures Feed(crc, [low, high]) == FeedOctet(FeedOctet(crc, low), high)
  {
    hide FeedOctet;
    assert [low, high][1..] == [high] && [high][1..] == [];
    assert Feed(FeedOctet(crc, low), [high]) == Feed(FeedOctet(FeedOctet(crc, low), high), []);
  }

  /** Feeding a word as two little-endian octets is adding it and shifting sixteen times. */
  lemma FeedWord(crc: bv16, word: bv16)
    ensures Feed(crc, LittleEndian(word)) == Shifts(Xor(crc, word), 16)
  {
    var low, high := Low(word), High(word);
    FeedTwo(crc, low, high);
    FeedLowThenHigh(crc, word);
    ShiftsAdd(Xor(crc, word), 8, 8);
  }

  lemma FeedLowThenHigh(crc: bv16, word: bv16)
    ensures FeedOctet(FeedOctet(crc, Low(word)), High(word)) == Shifts(Shifts(Xor(crc, word), 8), 8)
  {
    hide Xor, Widen, Shifts, FeedBits, BitsOf, ShiftRight, Low, High;
    SerialOctet(crc, Low(word));
    LowBits(word);
    SerialWord(crc, word, 8);
    ShiftRight8(word);
    HighPart(word);
  }

  /** A block is intact exactly when the register over the whole block holds the constant residue. */
  lemma IntactExactly(data: seq<Octet>, word: bv16)
    ensures Feed(0, data + LittleEndian(word)) == Residue() <==> word == Crc16(data)
  {
    hide Xor, Shifts, Feed, LittleEndian;
    var crc := Feed(0, data);
    FeedConcat(0, data, LittleEndian(word));
    FeedWord(crc, word);
    if Shifts(Xor(crc, word), 16) == Shifts(0xFFFF, 16) {
      ShiftsInjective(Xor(crc, word), 0xFFFF, 16);
      XorCancels(crc, word);
    }
    XorCancels(crc, 0xFFFF);
  }

  lemma OctetsOfWord(block: seq<Octet>) returns (word: bv16)
    requires |block| >= 2
    ensures block == block[..|block| - 2] + LittleEndian(word)
  {
    var low, high := block[|block| - 2], block[|block| - 1];
    word := Join(low, high);
    SplitJoin(low, high);
  }

  function Join(low: Octet, high: Octet): bv16 { Widen(low) | (Widen(high) << 8) }

  lemma SplitJoin(low: Octet, high: Octet)
    ensures Low(Join(low, high)) == low && High(Join(low, high)) == high
  {
  }

  lemma JoinSplit(word: bv16)
    ensures Join(Low(word), High(word)) == word
  {
  }

  /** The residue test and the comparison with the appended CRC are the same check. */
  lemma ResidueTest(block: seq<Octet>)
    requires |block| >= 2
    ensures Intact(block) <==> Feed(0, block) == Residue()
  {
    hide Feed, Residue, Crc16, Low, High;
    var data := block[..|block| - 2];
    var word := OctetsOfWord(block);
    IntactExactly(data, word);
    if Intact(block) {
      assert LittleEndian(word) == block[|block| - 2..] == LittleEndian(Crc16(data));
      JoinSplit(word);
      JoinSplit(Crc16(data));
      assert LittleEndian(word)[0] == LittleEndian(Crc16(data))[0];
      assert LittleEndian(word)[1] == LittleEndian(Crc16(data))[1];
    }
  }

  lemma SealIsIntact(data: seq<Octet>)
    ensures Intact(Seal(data))
  {
    assert Seal(data)[..|data|] == data;
  }

  // ---------- the published check value ----------

  lemma FeedFirst(crc: bv16, octet: Octet, rest: seq<Octet>, next: bv16)
    requires Eight(Xor(crc, Widen(octet))) == next
    ensures Feed(crc, [octet] + rest) == Feed(next, rest)
  {
    hide Xor, Eight, Shifts, Widen;
    ShiftsEight(Xor(crc, Widen(octet)));
    assert ([octet] + rest)[1..] == rest;
  }

  lemma NothingFed(crc: bv16)
    ensures Feed(crc, []) == crc
  {
  }

  lemma Register1()
    ensures Eight(Xor(0x0000, Widen(0x31))) == 0xAD9A
  {
    assert Xor(0x0000, Widen(0x31)) == 0x0031;
  }

  lemma Register2()
    ensures Eight(Xor(0xAD9A, Widen(0x32))) == 0x7037
  {
    assert Xor(0xAD9A, Widen(0x32)) == 0xADA8;
  }

  lemma Register3()
    ensures Eight(Xor(0x7037, Widen(0x33))) == 0xD908
  {
    assert Xor(0x7037, Widen(0x33)) == 0x7004;
  }

  lemma Register4()
    ensures Eight(Xor(0xD908, Widen(0x34))) == 0xBDEC
  {
    assert Xor(0xD908, Widen(0x34)) == 0xD93C;
  }

  lemma Register5()
    ensures Eight(Xor(0xBDEC, Widen(0x35))) == 0x8EE3
  {
    assert Xor(0xBDEC, Widen(0x35)) == 0xBDD9;
  }

  lemma Register6()
    ensures Eight(Xor(0x8EE3, Widen(0x36))) == 0xA821
  {
    assert Xor(0x8EE3, Widen(0x36)) == 0x8ED5;
  }

  lemma Register7()
    ensures Eight(Xor(0xA821, Widen(0x37))) == 0x0707
  {
    assert Xor(0xA821, Widen(0x37)) == 0xA816;
  }

  lemma Register8()
    ensures Eight(Xor(0x0707, Widen(0x38))) == 0xE7D0
  {
    assert Xor(0x0707, Widen(0x38)) == 0x073F;
  }

  lemma Register9()
    ensures Eight(Xor(0xE7D0, Widen(0x39))) == 0x157D
  {
    assert Xor(0xE7D0, Widen(0x39)) == 0xE7E9;
  }

  /** The CRC of the nine digits 1 to 9 in ASCII. */
  lemma CheckValue()
    ensures Crc16([0x31, 0x32, 0x33, 0x34, 0x35, 0x36, 0x37, 0x38, 0x39]) == 0xEA82
  {
    hide Feed, Eight, Xor, Widen;
    var none: seq<Octet> := [];
    Register1();
    FeedFirst(0x0000, 0x31,
              [0x32] + ([0x33] + ([0x34] + ([0x35] + ([0x36] + ([0x37] + ([0x38] + ([0x39] + none))))))), 0xAD9A);
    Register2();
    FeedFirst(0xAD9A, 0x32, [0x33] + ([0x34] + ([0x35] + ([0x36] + ([0x37] + ([0x38] + ([0x39] + none)))))), 0x7037);
    Register3();
    FeedFirst(0x7037, 0x33, [0x34] + ([0x35] + ([0x36] + ([0x37] + ([0x38] + ([0x39] + none))))), 0xD908);
    Register4();
    FeedFirst(0xD908, 0x34, [0x35] + ([0x36] + ([0x37] + ([0x38] + ([0x39] + none)))), 0xBDEC);
    Register5();
    FeedFirst(0xBDEC, 0x35, [0x36] + ([0x37] + ([0x38] + ([0x39] + none))), 0x8EE3);
    Register6();
    FeedFirst(0x8EE3, 0x36, [0x37] + ([0x38] + ([0x39] + none)), 0xA821);
    Register7();
    FeedFirst(0xA821, 0x37, [0x38] + ([0x39] + none), 0x0707);
    Register8();
    FeedFirst(0x0707, 0x38, [0x39] + none, 0xE7D0);
    Register9();
    FeedFirst(0xE7D0, 0x39, none, 0x157D);
    NothingFed(0x157D);
    Complemented();
    assert [0x31 as Octet, 0x32, 0x33, 0x34, 0x35, 0x36, 0x37, 0x38, 0x39]
        == [0x31] + ([0x32] + ([0x33] + ([0x34] + ([0x35] + ([0x36] + ([0x37] + ([0x38] + ([0x39] + none))))))));
  }

  lemma Complemented()
    ensures Complement(0x157D) == 0xEA82
  {
  }

  // ---------- error detection ----------

  /** An error goes unnoticed exactly when its own register value is zero. */
  lemma UnnoticedExactly(block: seq<Octet>, error: seq<Octet>)
    requires Intact(block) && |error| == |block|
    ensures Intact(XorData(block, error)) <==> Feed(0, error) == 0
  {
    hide Feed, Residue, Seal, Xor, XorData;
    XorDataStep(block, error);
    ResidueTest(block);
    ResidueTest(XorData(block, error));
    XorCancels(0, 0);
    FeedLinear(0, 0, block, error);
    XorCancels(Feed(0, block), Feed(0, error));
    XorCancels(Residue(), Feed(0, error));
  }

  ghost predicate HasError(bits: seq<bool>) {
    exists i :: 0 <= i < |bits| && bits[i]
  }

  /** All wrong bits lie among `length` consecutive ones from `start`. */
  ghost predicate Burst(bits: seq<bool>, start: nat, length: nat) {
    forall i :: 0 <= i < |bits| && bits[i] ==> start <= i < start + length
  }

  // ---------- the bits of parts ----------

  lemma BitsStep(octet: Octet, rest: seq<Octet>)
    ensures Bits([octet] + rest) == BitsOf(Widen(octet), 8) + Bits(rest)
  {
    hide BitsOf, Widen;
    assert ([octet] + rest)[1..] == rest;
  }

  lemma {:induction false} BitsConcat(x: seq<Octet>, y: seq<Octet>)
    ensures Bits(x + y) == Bits(x) + Bits(y)
    decreases |x|
  {
    if x == [] {
      assert x + y == y;
    } else {
      hide BitsOf, Widen, Bits;
      BitsConcat(x[1..], y);
      BitsStep(x[0], x[1..]);
      BitsStep(x[0], x[1..] + y);
      assert x == [x[0]] + x[1..];
      ConcatAssociates([x[0]], x[1..], y);
      ConcatAssociates(BitsOf(Widen(x[0]), 8), Bits(x[1..]), Bits(y));
    }
  }

  lemma {:induction false} ZeroBits(n: nat)
    ensures !HasError(BitsOf(0, n))
  {
    if n > 0 {
      ZeroBits(n - 1);
      assert forall i :: 0 < i < n ==> BitsOf(0, n)[i] == BitsOf(0, n - 1)[i - 1];
    }
  }

  lemma ErrorSplit(x: seq<bool>, y: seq<bool>)
    ensures HasError(x + y) <==> HasError(x) || HasError(y)
  {
    if HasError(x) {
      var i :| 0 <= i < |x| && x[i];
      assert (x + y)[i];
    }
    if HasError(y) {
      var i :| 0 <= i < |y| && y[i];
      assert (x + y)[|x| + i];
    }
  }

  /** The parts of a burst are bursts. */
  lemma BurstSplit(x: seq<bool>, y: seq<bool>, start: nat, length: nat)
    requires Burst(x + y, start, length)
    ensures Burst(x, start, length)
    ensures Burst(y, if start >= |x| then start - |x| else 0, length)
  {
    forall i | 0 <= i < |x| && x[i]
      ensures start <= i < start + length
    {
      assert (x + y)[i];
    }
    forall i | 0 <= i < |y| && y[i]
      ensures start <= |x| + i < start + length
    {
      assert (x + y)[|x| + i];
    }
  }

  lemma ZeroOctet(octet: Octet)
    ensures HasError(BitsOf(Widen(octet), 8)) <==> octet != 0
  {
    if octet == 0 {
      assert Widen(octet) == 0;
      ZeroBits(8);
    } else {
      var k := SomeBit(octet);
      hide BitsOf, Widen, ShiftRight, Odd;
      BitAt(Widen(octet), 8, k);
    }
  }

  lemma SomeBit(octet: Octet) returns (k: nat)
    requires octet != 0
    ensures k < 8 && Odd(ShiftRight(Widen(octet), k))
  {
    var word := Widen(octet);
    ShiftRight4(word);
    ShiftRight8(word);
    hide ShiftRight;
    if octet & 0x01 != 0 { k := 0; }
    else if octet & 0x02 != 0 { k := 1; }
    else if octet & 0x04 != 0 { k := 2; }
    else if octet & 0x08 != 0 { k := 3; }
    else if octet & 0x10 != 0 { k := 4; }
    else if octet & 0x20 != 0 { k := 5; }
    else if octet & 0x40 != 0 { k := 6; }
    else { k := 7; }
  }

  ghost predicate AllZero(error: seq<Octet>) {
    forall i :: 0 <= i < |error| ==> error[i] == 0
  }

  /** An error has a wrong bit exactly when it has a nonzero octet. */
  lemma {:induction false} WrongOctet(error: seq<Octet>)
    ensures HasError(Bits(error)) <==> !AllZero(error)
    decreases |error|
  {
    if error != [] {
      hide Widen, BitsOf, HasError, Bits, AllZero;
      WrongOctet(error[1..]);
      BitsStep(error[0], error[1..]);
      assert error == [error[0]] + error[1..];
      ErrorSplit(BitsOf(Widen(error[0]), 8), Bits(error[1..]));
      ZeroOctet(error[0]);
      AllZeroStep(error);
    } else {
      assert Bits(error) == [];
    }
  }

  lemma AllZeroStep(error: seq<Octet>)
    requires error != []
    ensures AllZero(error) <==> error[0] == 0 && AllZero(error[1..])
  {
    if AllZero(error[1..]) {
      assert forall i :: 0 < i < |error| ==> error[i] == error[1..][i - 1];
    }
  }

  /** An error over two adjacent parts, and which of them it hits. */
  lemma ErrorParts(x: seq<Octet>, y: seq<Octet>, start: nat)
    requires Burst(Bits(x + y), start, 16)
    ensures HasError(Bits(x + y)) <==> HasError(Bits(x)) || HasError(Bits(y))
    ensures Burst(Bits(x), start, 16)
    ensures Burst(Bits(y), if start >= |Bits(x)| then start - |Bits(x)| else 0, 16)
  {
    hide Bits, HasError, Burst;
    BitsConcat(x, y);
    ErrorSplit(Bits(x), Bits(y));
    BurstSplit(Bits(x), Bits(y), start, 16);
  }

  lemma XorSplit(data: seq<Octet>, error: seq<Octet>, n: nat)
    requires |data| == |error| && n <= |data|
    ensures |XorData(data, error)| == |data|
    ensures XorData(data, error)[..n] == XorData(data[..n], error[..n])
    ensures XorData(data, error)[n..] == XorData(data[n..], error[n..])
  {
  }

  // ---------- bursts ----------

  lemma {:induction false} FeedZeros(crc: bv16, zeros: seq<bool>)
    requires !HasError(zeros)
    ensures FeedBits(crc, zeros) == Shifts(crc, |zeros|)
    decreases |zeros|
  {
    if zeros != [] {
      hide Shift;
      forall i | 0 <= i < |zeros[1..]|
        ensures !zeros[1..][i]
      {
        assert zeros[1..][i] == zeros[i + 1];
      }
      FeedZeros(Shift(crc), zeros[1..]);
      assert !zeros[0];
    }
  }

  /** The register value that the bits of `word` cancel. */
  function WordOf(bits: seq<bool>): bv16
    decreases |bits|
  {
    if bits == [] then 0
    else if bits[0] then DoubleOdd(WordOf(bits[1..]))
    else Double(WordOf(bits[1..]))
  }

  /** Zero in the low `n` bits, one above. */
  function Mask(n: nat): bv16 {
    if n == 0 then 0xFFFF else Double(Mask(n - 1))
  }

  predicate Below(word: bv16, mask: bv16) { word & mask == 0 }

  lemma BelowDouble(word: bv16, mask: bv16)
    requires Below(word, mask)
    ensures Below(Double(word), Double(mask)) && Below(DoubleOdd(word), Double(mask))
  {
  }

  lemma {:induction false} WordBelow(bits: seq<bool>)
    ensures Below(WordOf(bits), Mask(|bits|))
    decreases |bits|
  {
    if bits != [] {
      hide Below, Double, DoubleOdd;
      WordBelow(bits[1..]);
      BelowDouble(WordOf(bits[1..]), Mask(|bits| - 1));
    } else {
      assert WordOf(bits) == 0 && Mask(0) == 0xFFFF;
    }
  }

  /** Up to fifteen bits leave the top bit of the word clear. */
  lemma MaskTop(n: nat)
    requires n <= 15
    ensures TopSet(Mask(n))
  {
    hide Mask;
    MaskLow();
    MaskHigh();
    match n
    case 0 =>
    case 1 =>
    case 2 =>
    case 3 =>
    case 4 =>
    case 5 =>
    case 6 =>
    case 7 =>
    case 8 =>
    case 9 =>
    case 10 =>
    case 11 =>
    case 12 =>
    case 13 =>
    case 14 =>
    case 15 =>
  }

  lemma MaskLow()
    ensures Mask(0) == 0xFFFF && Mask(1) == 0xFFFE && Mask(2) == 0xFFFC && Mask(3) == 0xFFF8
    ensures Mask(4) == 0xFFF0 && Mask(5) == 0xFFE0 && Mask(6) == 0xFFC0 && Mask(7) == 0xFF80
  {
    assert Mask(2) == Double(Mask(1));
    assert Mask(4) == Double(Mask(3));
    assert Mask(6) == Double(Mask(5));
  }

  lemma MaskHigh()
    ensures Mask(8) == 0xFF00 && Mask(9) == 0xFE00 && Mask(10) == 0xFC00 && Mask(11) == 0xF800
    ensures Mask(12) == 0xF000 && Mask(13) == 0xE000 && Mask(14) == 0xC000 && Mask(15) == 0x8000
  {
    MaskLow();
    assert Mask(8) == Double(Mask(7));
    assert Mask(10) == Double(Mask(9));
    assert Mask(12) == Double(Mask(11));
    assert Mask(14) == Double(Mask(13));
  }

  lemma BelowTop(word: bv16, mask: bv16)
    requires Below(word, mask) && TopSet(mask)
    ensures !TopSet(word)
  {
  }

  lemma WordTopClear(bits: seq<bool>)
    requires |bits| <= 15
    ensures !TopSet(WordOf(bits))
  {
    hide Below, TopSet, WordOf, Mask;
    WordBelow(bits);
    MaskTop(|bits|);
    BelowTop(WordOf(bits), Mask(|bits|));
  }

  /** A shift whose result has a clear top bit shifted out a zero. */
  lemma ShiftTopClear(crc: bv16)
    requires !TopSet(Shift(crc))
    ensures !Odd(crc) && crc == Double(Shift(crc))
  {
    hide Odd, TopSet, Halve, Double, Reduce;
    HalveClearsTop(crc);
    ReduceTop(Halve(crc));
    HalveEven(crc);
  }

  lemma FeedBitCancels(crc: bv16, bit: bool, word: bv16)
    requires FeedBit(crc, bit) == word && !TopSet(word)
    ensures crc == if bit then DoubleOdd(word) else Double(word)
  {
    hide Xor, TopSet, Shift;
    ShiftTopClear(if bit then Xor(crc, 1) else crc);
    if bit {
      XorCancels(crc, 1);
      XorOne(word);
    }
  }

  lemma XorOne(word: bv16)
    ensures Xor(Double(word), 1) == DoubleOdd(word)
  {
  }

  /** At most sixteen bits reduce the register to zero only if it held exactly them. */
  lemma {:induction false} ShortCancels(crc: bv16, bits: seq<bool>)
    requires |bits| <= 16 && FeedBits(crc, bits) == 0
    ensures crc == WordOf(bits)
    decreases |bits|
  {
    if bits != [] {
      hide FeedBit, TopSet, Double, DoubleOdd;
      ShortCancels(FeedBit(crc, bits[0]), bits[1..]);
      WordTopClear(bits[1..]);
      FeedBitCancels(crc, bits[0], WordOf(bits[1..]));
    }
  }

  lemma DoubleNonZero(word: bv16)
    requires !TopSet(word) && word != 0
    ensures Double(word) != 0
  {
  }

  lemma DoubleOddNonZero(word: bv16)
    ensures DoubleOdd(word) != 0
  {
  }

  lemma {:induction false} WordNonZero(bits: seq<bool>)
    requires |bits| <= 16 && HasError(bits)
    ensures WordOf(bits) != 0
    decreases |bits|
  {
    hide Double, DoubleOdd, TopSet;
    if bits[0] {
      DoubleOddNonZero(WordOf(bits[1..]));
    } else {
      var i :| 0 <= i < |bits| && bits[i];
      assert bits[1..][i - 1];
      WordNonZero(bits[1..]);
      WordTopClear(bits[1..]);
      DoubleNonZero(WordOf(bits[1..]));
    }
  }

  /** A burst of at most sixteen bits never leaves the register at zero. */
  lemma BurstRegister(bits: seq<bool>, start: nat)
    requires Burst(bits, start, 16) && HasError(bits)
    ensures FeedBits(0, bits) != 0
  {
    hide FeedBits;
    var end := if start + 16 <= |bits| then start + 16 else |bits|;
    var k :| 0 <= k < |bits| && bits[k];
    var before, window, after := bits[..start], bits[start..end], bits[end..];
    assert window[k - start] == bits[k];
    assert !HasError(before) && !HasError(after) by {
      hide HasError;
      OutsideBurst(bits, start, end);
    }
    assert bits == before + (window + after);
    SplitRegister(before, window, after);
  }

  lemma OutsideBurst(bits: seq<bool>, start: nat, end: nat)
    requires start <= end <= |bits| && (end == start + 16 || end == |bits|) && Burst(bits, start, 16)
    ensures !HasError(bits[..start]) && !HasError(bits[end..])
  {
    forall i | 0 <= i < |bits| - end
      ensures !bits[end..][i]
    {
      assert bits[end..][i] == bits[end + i];
    }
  }

  lemma SplitRegister(before: seq<bool>, window: seq<bool>, after: seq<bool>)
    requires !HasError(before) && !HasError(after) && |window| <= 16 && HasError(window)
    ensures FeedBits(0, before + (window + after)) != 0
  {
    hide FeedBits, Shifts, HasError, WordOf;
    FeedBitsConcat(0, before, window + after);
    FeedZeros(0, before);
    ShiftsZero(|before|);
    FeedBitsConcat(0, window, after);
    FeedZeros(FeedBits(0, window), after);
    if FeedBits(0, window) == 0 {
      ShortCancels(0, window);
      WordNonZero(window);
    } else if Shifts(FeedBits(0, window), |after|) == 0 {
      ShiftsZero(|after|);
      ShiftsInjective(FeedBits(0, window), 0, |after|);
    }
  }

  /**
   * Every nonzero burst of at most sixteen consecutive bits is detected, in blocks of any
   * length and also where it straddles data and CRC.
   */
  lemma BurstDetected(block: seq<Octet>, error: seq<Octet>, start: nat)
    requires Intact(block) && |error| == |block|
    requires HasError(Bits(error)) && Burst(Bits(error), start, 16)
    ensures !Intact(XorData(block, error))
  {
    hide Feed, FeedBits, Bits, HasError, Burst, Intact, XorData;
    SerialEquivalence(0, error);
    BurstRegister(Bits(error), start);
    UnnoticedExactly(block, error);
  }

  lemma ShiftRightAll(word: bv16)
    ensures ShiftRight(word, 16) == 0
  {
    hide ShiftRight;
    ShiftRight8(word);
    ShiftRight8(word >> 8);
    ShiftRightAdd(word, 8, 8);
  }

  // ---------- errors of odd weight ----------

  predicate Parity(bits: seq<bool>)
    decreases |bits|
  {
    if bits == [] then false else bits[0] != Parity(bits[1..])
  }

  lemma {:induction false} ParityConcat(x: seq<bool>, y: seq<bool>)
    ensures Parity(x + y) == (Parity(x) != Parity(y))
    decreases |x|
  {
    if x == [] {
      assert x + y == y;
    } else {
      ParityConcat(x[1..], y);
      assert (x + y)[1..] == x[1..] + y;
    }
  }

  lemma ParityStep(word: bv16, n: nat)
    ensures Parity(BitsOf(word, n + 1)) == (Odd(word) != Parity(BitsOf(Halve(word), n)))
  {
    hide Odd, Halve;
    assert BitsOf(word, n + 1)[1..] == BitsOf(Halve(word), n);
  }

  lemma {:induction false} ParityXor(x: bv16, y: bv16, n: nat)
    ensures Parity(BitsOf(Xor(x, y), n)) == (Parity(BitsOf(x, n)) != Parity(BitsOf(y, n)))
    decreases n
  {
    hide Xor, Odd, Halve, BitsOf, Parity;
    if n > 0 {
      HalveXor(x, y);
      ParityXor(Halve(x), Halve(y), n - 1);
      ParityStep(x, n - 1);
      ParityStep(y, n - 1);
      ParityStep(Xor(x, y), n - 1);
    } else {
      NoParity(x);
      NoParity(y);
      NoParity(Xor(x, y));
    }
  }

  lemma NoParity(word: bv16)
    ensures !Parity(BitsOf(word, 0))
  {
  }

  lemma {:induction false} BitsOfLast(word: bv16, n: nat)
    ensures BitsOf(word, n + 1) == BitsOf(word, n) + [Odd(ShiftRight(word, n))]
    decreases n
  {
    hide Odd, Halve;
    if n > 0 {
      BitsOfLast(Halve(word), n - 1);
    } else {
      assert BitsOf(Halve(word), 0) == [];
    }
  }

  lemma ShiftRight16(word: bv16)
    ensures !Odd(ShiftRight(word, 16))
  {
    hide ShiftRight;
    ShiftRightAll(word);
  }

  /** The lowest bit makes the difference between the parity of a word and of its half. */
  lemma ParityHalve(word: bv16)
    ensures Parity(BitsOf(word, 16)) == (Odd(word) != Parity(BitsOf(Halve(word), 16)))
  {
    hide Odd, Halve, ShiftRight, BitsOf;
    BitsOfLast(word, 16);
    ShiftRight16(word);
    ParityConcat(BitsOf(word, 16), [Odd(ShiftRight(word, 16))]);
    assert Parity([Odd(ShiftRight(word, 16))]) == Odd(ShiftRight(word, 16));
    ParityStep(word, 16);
  }

  lemma PolynomialParity()
    ensures Parity(BitsOf(0xA6BC, 16))
  {
    ParityStep(0xA6BC, 15);
    ParityStep(0x535E, 14);
    ParityStep(0x29AF, 13);
    ParityStep(0x14D7, 12);
    ParityStep(0x0A6B, 11);
    ParityStep(0x0535, 10);
    ParityStep(0x029A, 9);
    ParityStep(0x014D, 8);
    ParityStep(0x00A6, 7);
    ParityStep(0x0053, 6);
    ParityStep(0x0029, 5);
    ParityStep(0x0014, 4);
    ParityStep(0x000A, 3);
    ParityStep(0x0005, 2);
    ParityStep(0x0002, 1);
    ParityStep(0x0001, 0);
  }

  /** The polynomial has an odd number of terms besides the one it cancels, so a shift keeps the parity. */
  lemma ShiftParity(crc: bv16)
    ensures Parity(BitsOf(Shift(crc), 16)) == Parity(BitsOf(crc, 16))
  {
    hide Odd, Halve, BitsOf, Parity, Xor;
    ParityHalve(crc);
    ParityXor(Halve(crc), 0xA6BC, 16);
    PolynomialParity();
  }

  lemma {:induction false} ZeroParity(n: nat)
    ensures !Parity(BitsOf(0, n))
  {
    if n > 0 {
      ZeroParity(n - 1);
      ParityStep(0, n - 1);
    }
  }

  lemma OneParity()
    ensures Parity(BitsOf(1, 16))
  {
    ParityStep(1, 15);
    ZeroParity(15);
  }

  lemma {:induction false} FeedParity(crc: bv16, bits: seq<bool>)
    ensures Parity(BitsOf(FeedBits(crc, bits), 16)) == (Parity(BitsOf(crc, 16)) != Parity(bits))
    decreases |bits|
  {
    if bits != [] {
      hide BitsOf, Xor, Shift;
      FeedParity(FeedBit(crc, bits[0]), bits[1..]);
      ShiftParity(if bits[0] then Xor(crc, 1) else crc);
      ParityXor(crc, 1, 16);
      OneParity();
    }
  }

  /** Every error that flips an odd number of bits is detected. */
  lemma OddErrorDetected(block: seq<Octet>, error: seq<Octet>)
    requires Intact(block) && |error| == |block| && Parity(Bits(error))
    ensures !Intact(XorData(block, error))
  {
    hide Feed, FeedBits, Bits, BitsOf, Intact, XorData, Parity;
    SerialEquivalence(0, error);
    FeedParity(0, Bits(error));
    ZeroParity(16);
    UnnoticedExactly(block, error);
  }
}
