/** What the CRC cannot promise: a burst of seventeen bits, or six wrong bits, can leave a block sealed. */
module CrcLimit {
  import opened Crc
  import opened CrcDetection
  import opened CrcDistance

  /** Sixteen shifts of a word leave one octet. */
  lemma SixteenShifts(word: bv16, middle: bv16, last: Octet)
    requires Eight(word) == middle && Eight(middle) == Widen(last)
    ensures Shifts(word, 16) == Widen(last)
  {
    hide Eight, Shifts, Widen;
    ShiftsEight(word);
    ShiftsEight(middle);
    ShiftsAdd(word, 8, 8);
  }

  function Zeroes(n: nat): seq<Octet> { seq(n, _ => 0) }

  /** A word, an octet, and zeroes up to `n` octets. */
  function Padded(word: bv16, last: Octet, n: nat): seq<Octet>
    requires n >= 3
  {
    LittleEndian(word) + ([last] + Zeroes(n - 3))
  }

  /** The octet that cancels what the word has left in the register. */
  lemma WordCancels(word: bv16, last: Octet)
    requires Shifts(word, 16) == Widen(last)
    ensures Feed(0, LittleEndian(word) + [last]) == 0
  {
    hide Shifts, Xor, Feed, LittleEndian, Widen;
    FeedWord(0, word);
    XorCancels(word, 0);
    FeedConcat(0, LittleEndian(word), [last]);
    OctetCancels(last);
  }

  lemma OctetCancels(octet: Octet)
    ensures Feed(Widen(octet), [octet]) == 0
  {
    XorCancels(Widen(octet), 0);
    ShiftsZero(8);
    hide Xor, Shifts, Widen;
    assert [octet][1..] == [];
    assert Feed(Widen(octet), [octet]) == Feed(FeedOctet(Widen(octet), octet), []);
  }

  /** Such an error slips through every sealed block. */
  lemma PaddedSlips(block: seq<Octet>, word: bv16, last: Octet)
    requires Intact(block) && |block| >= 3 && Shifts(word, 16) == Widen(last)
    ensures |Padded(word, last, |block|)| == |block| && Intact(XorData(block, Padded(word, last, |block|)))
  {
    var error := Padded(word, last, |block|);
    hide Feed, Intact, XorData, Shifts, Widen, Low, High;
    WordCancels(word, last);
    ZeroesCancel(|block| - 3);
    FeedConcat(0, LittleEndian(word) + [last], Zeroes(|block| - 3));
    assert error == (LittleEndian(word) + [last]) + Zeroes(|block| - 3);
    UnnoticedExactly(block, error);
  }

  lemma {:induction false} ZeroesCancel(n: nat)
    ensures Feed(0, Zeroes(n)) == 0
  {
    if n > 0 {
      ZeroesCancel(n - 1);
      ZeroOctetCancels();
      hide FeedOctet;
      assert Zeroes(n)[1..] == Zeroes(n - 1);
    }
  }

  lemma ZeroOctetCancels()
    ensures FeedOctet(0, 0) == 0
  {
    assert Widen(0) == 0;
    XorCancels(0, 0);
    ShiftsZero(8);
    hide Xor, Shifts;
  }

  lemma ZeroesClean(n: nat)
    ensures !HasError(Bits(Zeroes(n)))
  {
    hide Bits, HasError;
    WrongOctet(Zeroes(n));
  }

  lemma PaddedBits(word: bv16, last: Octet, n: nat)
    requires n >= 3
    ensures Bits(Padded(word, last, n)) == Bits(LittleEndian(word)) + (BitsOf(Widen(last), 8) + Bits(Zeroes(n - 3)))
  {
    hide Bits, BitsOf, Widen, LittleEndian;
    BitsConcat(LittleEndian(word), [last] + Zeroes(n - 3));
    BitsStep(last, Zeroes(n - 3));
  }

  // ---------- bursts ----------

  const BURST: bv16 := 0x4D79

  lemma BurstShifts()
    ensures Shifts(BURST, 16) == Widen(0x01)
  {
    assert Eight(0x4D79) == 0x0100 && Eight(0x0100) == 0x0001 && Widen(0x01) == 0x0001;
    hide Eight, Widen;
    SixteenShifts(0x4D79, 0x0100, 0x01);
  }

  /** The only wrong bit of the last octet is its first. */
  lemma LastOctet()
    ensures BitsOf(Widen(0x01), 8)[0]
    ensures forall i :: 0 < i < 8 ==> !BitsOf(Widen(0x01), 8)[i]
  {
    assert Widen(0x01) == 1 && Halve(1) == 0;
    ZeroBits(7);
    hide HasError, Halve, Odd;
    assert BitsOf(1, 8) == [Odd(1)] + BitsOf(0, 7);
    CleanBits(BitsOf(0, 7));
    OneIsOdd();
  }

  lemma OneIsOdd()
    ensures Odd(1)
  {
  }

  lemma CleanBits(bits: seq<bool>)
    ensures !HasError(bits) ==> forall i :: 0 <= i < |bits| ==> !bits[i]
  {
  }

  lemma BurstBits(n: nat)
    requires n >= 3
    ensures HasError(Bits(Padded(BURST, 0x01, n))) && Burst(Bits(Padded(BURST, 0x01, n)), 0, 17)
  {
    hide BitsOf, Widen, Bits, LittleEndian;
    var word, last, rest := Bits(LittleEndian(BURST)), BitsOf(Widen(0x01), 8), Bits(Zeroes(n - 3));
    PaddedBits(BURST, 0x01, n);
    LastOctet();
    ZeroesClean(n - 3);
    WordBits(BURST);
    var bits := word + (last + rest);
    assert bits[16] == last[0];
    forall i | 17 <= i < |bits|
      ensures !bits[i]
    {
      if i < 24 {
        assert bits[i] == last[i - 16];
      } else {
        assert bits[i] == rest[i - 24];
      }
    }
  }

  lemma WordBits(word: bv16)
    ensures |Bits(LittleEndian(word))| == 16
  {
  }

  /** Every sealed block of three octets or more lets some burst of seventeen bits through. */
  lemma SeventeenBitsSlip(block: seq<Octet>)
    requires Intact(block) && |block| >= 3
    ensures exists error: seq<Octet> ::
              && |error| == |block| && HasError(Bits(error)) && Burst(Bits(error), 0, 17)
              && Intact(XorData(block, error))
  {
    hide Padded, Intact, XorData, HasError, Burst, Bits, Shifts, Widen;
    BurstBits(|block|);
    BurstShifts();
    PaddedSlips(block, BURST, 0x01);
  }

  // ---------- six wrong bits ----------

  const SPREAD: bv16 := 0x0041

  lemma SpreadShifts()
    ensures Shifts(SPREAD, 16) == Widen(0x65)
  {
    assert Eight(0x0041) == 0x6500 && Eight(0x6500) == 0x0065 && Widen(0x65) == 0x0065;
    hide Eight, Widen;
    SixteenShifts(0x0041, 0x6500, 0x65);
  }

  lemma CountStep(word: bv16, n: nat)
    ensures ErrorCount(BitsOf(word, n + 1)) == (if Odd(word) then 1 else 0) + ErrorCount(BitsOf(Halve(word), n))
  {
    hide Odd, Halve;
    assert BitsOf(word, n + 1)[1..] == BitsOf(Halve(word), n);
  }

  lemma NoCount(word: bv16)
    ensures ErrorCount(BitsOf(word, 0)) == 0
  {
  }

  /** The wrong bits of the word's two octets and of the third. */
  lemma SpreadCount()
    ensures ErrorCount(BitsOf(Widen(0x41), 8)) == 2 && ErrorCount(BitsOf(Widen(0x00), 8)) == 0
    ensures ErrorCount(BitsOf(Widen(0x65), 8)) == 4
  {
    CountOf41();
    CountOf65();
    ZeroBits(8);
    Counted(BitsOf(0, 8));
    assert Widen(0x00) == 0;
  }

  lemma CountOf41()
    ensures ErrorCount(BitsOf(Widen(0x41), 8)) == 2
  {
    hide BitsOf, ErrorCount;
    CountStep(0x0041, 7);
    CountStep(0x0020, 6);
    CountStep(0x0010, 5);
    CountStep(0x0008, 4);
    CountStep(0x0004, 3);
    CountStep(0x0002, 2);
    CountStep(0x0001, 1);
    CountStep(0x0000, 0);
    NoCount(0);
    assert Widen(0x41) == 0x0041;
  }

  lemma CountOf65()
    ensures ErrorCount(BitsOf(Widen(0x65), 8)) == 4
  {
    hide BitsOf, ErrorCount;
    CountStep(0x0065, 7);
    CountStep(0x0032, 6);
    CountStep(0x0019, 5);
    CountStep(0x000C, 4);
    CountStep(0x0006, 3);
    CountStep(0x0003, 2);
    CountStep(0x0001, 1);
    CountStep(0x0000, 0);
    NoCount(0);
    assert Widen(0x65) == 0x0065;
  }

  lemma SpreadOctets()
    ensures LittleEndian(SPREAD) == [0x41, 0x00]
  {
  }

  lemma SixWrong(n: nat)
    requires n >= 3
    ensures ErrorCount(Bits(Padded(SPREAD, 0x65, n))) == 6
  {
    hide Bits, BitsOf, ErrorCount, HasError, LittleEndian;
    PaddedBits(SPREAD, 0x65, n);
    SpreadOctets();
    SpreadCount();
    BitsStep(0x41, [0x00]);
    BitsStep(0x00, []);
    NoBits();
    assert [0x41 as Octet] + [0x00] == [0x41, 0x00] && [0x00 as Octet] + [] == [0x00];
    ZeroesClean(n - 3);
    Counted(Bits(Zeroes(n - 3)));
    CountConcat(BitsOf(Widen(0x00), 8), []);
    CountConcat(BitsOf(Widen(0x41), 8), Bits([0x00]));
    CountConcat(BitsOf(Widen(0x65), 8), Bits(Zeroes(n - 3)));
    CountConcat(Bits([0x41, 0x00]), BitsOf(Widen(0x65), 8) + Bits(Zeroes(n - 3)));
  }

  lemma NoBits()
    ensures Bits([]) == [] && ErrorCount([]) == 0
  {
  }

  /** Five is the most: every sealed block of three octets or more lets some six wrong bits through. */
  lemma SixBitsSlip(block: seq<Octet>)
    requires Intact(block) && |block| >= 3
    ensures exists error: seq<Octet> ::
              |error| == |block| && ErrorCount(Bits(error)) == 6 && Intact(XorData(block, error))
  {
    hide Padded, Intact, XorData, Bits, ErrorCount, Shifts, Widen;
    SixWrong(|block|);
    SpreadShifts();
    PaddedSlips(block, SPREAD, 0x65);
  }
}
