/** The distance of the CRC: which numbers of wrong bits a sealed block always shows. */
module CrcDistance {
  import opened Common
  import opened Crc
  import opened CrcDetection
  import opened ShiftOrbit
  import opened OrbitSums

  /** How many bits are wrong. */
  function ErrorCount(bits: seq<bool>): nat {
    if bits == [] then 0 else (if bits[0] then 1 else 0) + ErrorCount(bits[1..])
  }

  lemma {:induction false} CountConcat(x: seq<bool>, y: seq<bool>)
    ensures ErrorCount(x + y) == ErrorCount(x) + ErrorCount(y)
    decreases |x|
  {
    if x == [] {
      assert x + y == y;
    } else {
      CountConcat(x[1..], y);
      assert (x + y)[1..] == x[1..] + y;
    }
  }

  lemma {:induction false} Counted(bits: seq<bool>)
    ensures HasError(bits) <==> ErrorCount(bits) > 0
    decreases |bits|
  {
    if bits != [] {
      Counted(bits[1..]);
      if HasError(bits[1..]) {
        var i :| 0 <= i < |bits| - 1 && bits[1..][i];
        assert bits[i + 1];
      }
      if HasError(bits) && !bits[0] {
        var i :| 0 <= i < |bits| && bits[i];
        assert bits[1..][i - 1];
      }
    }
  }

  /** For each wrong bit, how many shifts the register makes from that bit on. */
  function Places(bits: seq<bool>): (places: seq<nat>)
    ensures |places| == ErrorCount(bits)
  {
    if bits == [] then [] else (if bits[0] then [|bits|] else []) + Places(bits[1..])
  }

  function Total(places: seq<nat>): bv16 {
    if places == [] then 0 else Xor(Orbit(places[0]), Total(places[1..]))
  }

  lemma TotalStep(place: nat, rest: seq<nat>)
    ensures Total([place] + rest) == Xor(Orbit(place), Total(rest))
  {
    assert ([place] + rest)[1..] == rest;
  }

  lemma ShiftsStep(crc: bv16, n: nat)
    ensures Shifts(crc, n + 1) == Shifts(Shift(crc), n)
  {
  }

  /** The register is the sum of what each wrong bit has become. */
  lemma {:induction false} RegisterSum(crc: bv16, bits: seq<bool>)
    ensures FeedBits(crc, bits) == Xor(Shifts(crc, |bits|), Total(Places(bits)))
    decreases |bits|
  {
    hide Xor, Shifts, Orbit, Total, FeedBit;
    if bits == [] {
      NoRegisterSum(crc);
    } else {
      RegisterSum(FeedBit(crc, bits[0]), bits[1..]);
      BitSum(crc, bits[0], |bits| - 1, Places(bits[1..]));
    }
  }

  lemma NoRegisterSum(crc: bv16)
    ensures crc == Xor(Shifts(crc, 0), Total([]))
  {
    XorCancels(crc, 0);
  }

  /** What one bit adds to the sum. */
  lemma BitSum(crc: bv16, bit: bool, n: nat, rest: seq<nat>)
    ensures Xor(Shifts(FeedBit(crc, bit), n), Total(rest))
         == Xor(Shifts(crc, n + 1), Total((if bit then [n + 1] else []) + rest))
  {
    hide Xor, Shift, Shifts, Orbit, Total;
    ShiftsStep(crc, n);
    if bit {
      ShiftsStep(Xor(crc, 1), n);
      ShiftsLinear(crc, 1, n + 1);
      TotalStep(n + 1, rest);
      XorAssociates(Shifts(crc, n + 1), Orbit(n + 1), Total(rest));
      OrbitIs(n + 1);
    } else {
      assert [] + rest == rest;
    }
  }

  lemma OrbitIs(n: nat)
    ensures Orbit(n) == Shifts(1, n)
  {
  }

  /** An error goes unnoticed exactly when what its bits have become cancels. */
  lemma UnnoticedSum(block: seq<Octet>, error: seq<Octet>)
    requires Intact(block) && |error| == |block|
    ensures Intact(XorData(block, error)) <==> Total(Places(Bits(error))) == 0
  {
    hide Feed, FeedBits, Bits, Places, Total, Xor, Shifts, Intact, XorData;
    UnnoticedExactly(block, error);
    SerialEquivalence(0, error);
    RegisterSum(0, Bits(error));
    ShiftsZero(|Bits(error)|);
    XorCancels(Total(Places(Bits(error))), 0);
  }

  ghost predicate Descending(places: seq<nat>, limit: nat) {
    && (forall i :: 0 <= i < |places| ==> 0 < places[i] <= limit)
    && (forall i, j :: 0 <= i < j < |places| ==> places[i] > places[j])
  }

  lemma {:induction false} PlacesDescend(bits: seq<bool>)
    ensures Descending(Places(bits), |bits|)
    decreases |bits|
  {
    if bits != [] {
      PlacesDescend(bits[1..]);
    }
  }

  lemma {:induction false} CountParity(bits: seq<bool>)
    ensures Parity(bits) <==> ErrorCount(bits) % 2 == 1
    decreases |bits|
  {
    if bits != [] {
      CountParity(bits[1..]);
    }
  }

  lemma TotalOfTwo(places: seq<nat>)
    requires |places| == 2
    ensures Total(places) == 0 <==> Orbit(places[0]) == Orbit(places[1])
  {
    hide Orbit, Xor;
    assert places == [places[0]] + ([places[1]] + []);
    TotalStep(places[0], [places[1]] + []);
    TotalStep(places[1], []);
    XorCancels(Orbit(places[1]), 0);
    SameSums(Orbit(places[0]), Orbit(places[1]));
  }

  lemma TwoPlacesUnnoticed(block: seq<Octet>, error: seq<Octet>)
    requires Intact(block) && |error| == |block| && ErrorCount(Bits(error)) == 2
    ensures var places := Places(Bits(error));
      && places[0] > places[1]
      && (Intact(XorData(block, error)) <==> (places[0] - places[1]) % PERIOD == 0)
  {
    hide Bits, Places, Total, Orbit, Intact, XorData, ErrorCount;
    var places := Places(Bits(error));
    UnnoticedSum(block, error);
    PlacesDescend(Bits(error));
    TotalOfTwo(places);
    OrbitInjective(places[1], places[0]);
  }

  ghost predicate WrongAt(bits: seq<bool>, i: nat, j: nat) {
    forall k :: 0 <= k < |bits| ==> (bits[k] <==> k == i || k == j)
  }

  lemma {:induction false} NoPlaces(bits: seq<bool>)
    requires !HasError(bits)
    ensures Places(bits) == []
    decreases |bits|
  {
    if bits != [] {
      forall k | 0 <= k < |bits| - 1
        ensures !bits[1..][k]
      {
        assert !bits[k + 1];
      }
      NoPlaces(bits[1..]);
    }
  }

  lemma {:induction false} OnePlace(bits: seq<bool>, i: nat)
    requires i < |bits| && WrongAt(bits, i, i)
    ensures Places(bits) == [|bits| - i]
    decreases |bits|
  {
    if i == 0 {
      NoPlaces(bits[1..]);
    } else {
      OnePlace(bits[1..], i - 1);
    }
  }

  lemma {:induction false} TwoPlaces(bits: seq<bool>, i: nat, j: nat)
    requires i < j < |bits| && WrongAt(bits, i, j)
    ensures Places(bits) == [|bits| - i, |bits| - j]
    decreases |bits|
  {
    if i == 0 {
      OnePlace(bits[1..], j - 1);
    } else {
      TwoPlaces(bits[1..], i - 1, j - 1);
    }
  }

  /** In blocks of any length, two wrong bits go unnoticed exactly when they are a multiple of 151 apart. */
  lemma TwoBitsUnnoticedExactly(block: seq<Octet>, error: seq<Octet>, i: nat, j: nat)
    requires Intact(block) && |error| == |block| && i < j < |Bits(error)| && WrongAt(Bits(error), i, j)
    ensures Intact(XorData(block, error)) <==> (j - i) % PERIOD == 0
  {
    hide Bits, Intact, XorData;
    TwoPlaces(Bits(error), i, j);
    TwoPlacesUnnoticed(block, error);
  }

  lemma TotalOfFour(places: seq<nat>)
    requires |places| == 4
    ensures Total(places) == FourSum(places[0], places[1], places[2], places[3])
  {
    hide Orbit, Xor;
    assert places == [places[0]] + ([places[1]] + ([places[2]] + ([places[3]] + [])));
    TotalStep(places[0], [places[1]] + ([places[2]] + ([places[3]] + [])));
    TotalStep(places[1], [places[2]] + ([places[3]] + []));
    TotalStep(places[2], [places[3]] + []);
    TotalStep(places[3], []);
    XorCancels(Orbit(places[3]), 0);
    XorAssociates(Orbit(places[0]), Orbit(places[1]), Xor(Orbit(places[2]), Orbit(places[3])));
  }

  /** Four wrong bits within 151 never cancel. */
  lemma FourBitsDetected(block: seq<Octet>, error: seq<Octet>)
    requires Intact(block) && |error| == |block| <= 18 && ErrorCount(Bits(error)) == 4
    ensures !Intact(XorData(block, error))
  {
    hide Bits, Places, Total, Intact, XorData, ErrorCount, FourSum;
    var places := Places(Bits(error));
    UnnoticedSum(block, error);
    PlacesDescend(Bits(error));
    TotalOfFour(places);
    NoFourCancel(places[0], places[1], places[2], places[3]);
  }

  /**
   * In every sealed block of the sizes the link layer uses, at most eighteen octets, up to
   * five wrong bits anywhere in data and CRC are always detected.
   */
  lemma FiveBitsDetected(block: seq<Octet>, error: seq<Octet>)
    requires Intact(block) && |error| == |block| <= 18 && 1 <= ErrorCount(Bits(error)) <= 5
    ensures !Intact(XorData(block, error))
  {
    hide Bits, Places, Intact, XorData, ErrorCount, Parity;
    CountParity(Bits(error));
    if Parity(Bits(error)) {
      OddErrorDetected(block, error);
    } else if ErrorCount(Bits(error)) == 2 {
      PlacesDescend(Bits(error));
      TwoPlacesUnnoticed(block, error);
    } else {
      FourBitsDetected(block, error);
    }
  }
}
