/**
 * CRC-16/DNP as the emulator computes it, octet by octet.
 * The bit order is the reflected one: the least significant bit of each octet comes first.
 */
module Crc {

  type Octet = bv8

  function Xor(x: bv16, y: bv16): bv16 { x ^ y }

  /** The reflected polynomial 0x3D65. */
  function Reduce(crc: bv16): bv16 { Xor(crc, 0xA6BC) }

  predicate Odd(crc: bv16) { crc & 1 == 1 }

  function Halve(crc: bv16): bv16 { crc >> 1 }

  /** One shift of the register. */
  function Shift(crc: bv16): bv16 {
    if Odd(crc) then Reduce(Halve(crc)) else Halve(crc)
  }

  function Shifts(crc: bv16, n: nat): bv16
    decreases n
  {
    if n == 0 then crc else Shifts(Shift(crc), n - 1)
  }

  function Widen(octet: Octet): bv16 { octet as bv16 }

  function FeedOctet(crc: bv16, octet: Octet): bv16 {
    Shifts(Xor(crc, Widen(octet)), 8)
  }

  /** The register after a list of octets. */
  function Feed(crc: bv16, data: seq<Octet>): bv16
    decreases |data|
  {
    if data == [] then crc else Feed(FeedOctet(crc, data[0]), data[1..])
  }

  function Complement(crc: bv16): bv16 { Xor(crc, 0xFFFF) }

  function Crc16(data: seq<Octet>): bv16 {
    Complement(Feed(0, data))
  }

  /** The nested loops of the emulator. */
  method ComputeCrc(data: seq<Octet>) returns (result: bv16)
    ensures result == Crc16(data)
  {
    var crc: bv16 := 0;
    for i := 0 to |data|
      invariant Feed(0, data) == Feed(crc, data[i..])
    {
      crc := ShiftInOctet(crc, data[i]);
      assert data[i..][0] == data[i] && data[i..][1..] == data[i + 1..];
    }
    assert data[|data|..] == [];
    result := Complement(crc);
  }

  method ShiftInOctet(start: bv16, octet: Octet) returns (crc: bv16)
    ensures crc == FeedOctet(start, octet)
  {
    crc := Xor(start, Widen(octet));
    ghost var before := crc;
    for k := 0 to 8
      invariant Shifts(crc, 8 - k) == Shifts(before, 8)
    {
      crc := Shift(crc);
    }
  }

  // ---------- the register as a linear bijection ----------

  lemma XorCommutes(x: bv16, y: bv16)
    ensures Xor(x, y) == Xor(y, x)
  {
  }

  lemma XorAssociates(x: bv16, y: bv16, z: bv16)
    ensures Xor(Xor(x, y), z) == Xor(x, Xor(y, z))
  {
  }

  lemma XorCancels(x: bv16, y: bv16)
    ensures Xor(x, x) == 0 && Xor(x, 0) == x && Xor(0, x) == x
    ensures Xor(Xor(x, y), y) == x && Xor(x, Xor(x, y)) == y
  {
  }

  lemma XorExchange(a: bv16, b: bv16, c: bv16, d: bv16)
    ensures Xor(Xor(a, b), Xor(c, d)) == Xor(Xor(a, c), Xor(b, d))
  {
    hide Xor;
    XorAssociates(a, b, Xor(c, d));
    XorAssociates(b, c, d);
    XorCommutes(b, c);
    XorAssociates(c, b, d);
    XorAssociates(a, c, Xor(b, d));
  }

  lemma ReduceXor(x: bv16, y: bv16)
    ensures Xor(Reduce(x), y) == Reduce(Xor(x, y)) && Xor(x, Reduce(y)) == Reduce(Xor(x, y))
    ensures Xor(Reduce(x), Reduce(y)) == Xor(x, y)
  {
    hide Xor;
    var p: bv16 := 0xA6BC;
    XorCommutes(p, y);
    XorAssociates(x, p, y);
    XorAssociates(x, y, p);
    XorExchange(x, p, y, p);
    XorCancels(p, 0);
    XorCancels(Xor(x, y), 0);
  }

  lemma HalveXor(x: bv16, y: bv16)
    ensures Halve(Xor(x, y)) == Xor(Halve(x), Halve(y))
    ensures Odd(Xor(x, y)) <==> Odd(x) != Odd(y)
  {
    if Odd(x) {
      if Odd(y) {} else {}
    } else if Odd(y) {
    } else {
    }
  }

  lemma ShiftLinear(x: bv16, y: bv16)
    ensures Shift(Xor(x, y)) == Xor(Shift(x), Shift(y))
  {
    hide Xor, Reduce, Halve, Odd;
    HalveXor(x, y);
    ReduceXor(Halve(x), Halve(y));
  }

  predicate TopSet(crc: bv16) { crc & 0x8000 == 0x8000 }

  function Double(crc: bv16): bv16 { crc << 1 }

  function DoubleOdd(crc: bv16): bv16 { (crc << 1) | 1 }

  /** Undoes a shift: the top bit tells whether the polynomial was added. */
  function Unshift(crc: bv16): bv16 {
    if TopSet(crc) then DoubleOdd(Reduce(crc)) else Double(crc)
  }

  lemma HalveClearsTop(x: bv16)
    ensures !TopSet(Halve(x))
  {
  }

  lemma HalveOdd(x: bv16)
    requires Odd(x)
    ensures DoubleOdd(Halve(x)) == x
  {
  }

  lemma HalveEven(x: bv16)
    requires !Odd(x)
    ensures Double(Halve(x)) == x
  {
  }

  lemma DoubleOddHalves(x: bv16)
    ensures Odd(DoubleOdd(x))
    ensures !TopSet(x) ==> Halve(DoubleOdd(x)) == x
  {
  }

  lemma DoubleHalves(x: bv16)
    ensures !Odd(Double(x))
    ensures !TopSet(x) ==> Halve(Double(x)) == x
  {
  }

  lemma ReduceTop(x: bv16)
    ensures TopSet(Reduce(x)) <==> !TopSet(x)
    ensures Reduce(Reduce(x)) == x
  {
    if TopSet(x) {} else {}
  }

  /** The shift is a bijection. */
  lemma ShiftBijective(x: bv16)
    ensures Unshift(Shift(x)) == x && Shift(Unshift(x)) == x
  {
    hide Xor, Reduce, Halve, Odd, TopSet, Double, DoubleOdd;
    HalveClearsTop(x);
    if Odd(x) {
      HalveOdd(x);
    } else {
      HalveEven(x);
    }
    DoubleHalves(x);
    DoubleOddHalves(Reduce(x));
    ReduceTop(Halve(x));
    ReduceTop(x);
  }

  lemma {:induction false} ShiftsLinear(x: bv16, y: bv16, n: nat)
    ensures Shifts(Xor(x, y), n) == Xor(Shifts(x, n), Shifts(y, n))
    decreases n
  {
    if n > 0 {
      hide Xor, Shift;
      ShiftLinear(x, y);
      ShiftsLinear(Shift(x), Shift(y), n - 1);
    }
  }

  /** The register map is injective for any number of shifts. */
  lemma {:induction false} ShiftsInjective(x: bv16, y: bv16, n: nat)
    requires Shifts(x, n) == Shifts(y, n)
    ensures x == y
    decreases n
  {
    if n > 0 {
      hide Shift, Unshift;
      ShiftsInjective(Shift(x), Shift(y), n - 1);
      ShiftBijective(x);
      ShiftBijective(y);
    }
  }

  lemma {:induction false} ShiftsZero(n: nat)
    ensures Shifts(0, n) == 0
  {
    if n > 0 {
      ShiftsZero(n - 1);
    }
  }

  lemma {:induction false} ShiftsAdd(x: bv16, m: nat, n: nat)
    ensures Shifts(x, m + n) == Shifts(Shifts(x, m), n)
    decreases m
  {
    if m > 0 {
      hide Shift;
      ShiftsAdd(Shift(x), m - 1, n);
    }
  }

  function Eight(x: bv16): bv16 { Shift(Shift(Shift(Shift(Shift(Shift(Shift(Shift(x)))))))) }

  lemma ShiftsOnce(x: bv16, n: nat)
    requires n > 0
    ensures Shifts(x, n) == Shifts(Shift(x), n - 1)
  {
  }

  lemma ShiftsEight(x: bv16)
    ensures Shifts(x, 8) == Eight(x)
  {
    hide Shift, Shifts;
    ShiftsOnce(x, 8);
    ShiftsOnce(Shift(x), 7);
    ShiftsOnce(Shift(Shift(x)), 6);
    ShiftsOnce(Shift(Shift(Shift(x))), 5);
    ShiftsOnce(Shift(Shift(Shift(Shift(x)))), 4);
    ShiftsOnce(Shift(Shift(Shift(Shift(Shift(x))))), 3);
    ShiftsOnce(Shift(Shift(Shift(Shift(Shift(Shift(x)))))), 2);
    ShiftsOnce(Shift(Shift(Shift(Shift(Shift(Shift(Shift(x))))))), 1);
    NoShift(Eight(x));
  }

  lemma NoShift(x: bv16)
    ensures Shifts(x, 0) == x
  {
  }

  lemma WidenXor(x: Octet, y: Octet)
    ensures Widen(x ^ y) == Xor(Widen(x), Widen(y))
  {
  }

  function XorData(x: seq<Octet>, y: seq<Octet>): seq<Octet>
    requires |x| == |y|
  {
    seq(|x|, i requires 0 <= i < |x| => x[i] ^ y[i])
  }

  lemma XorDataStep(x: seq<Octet>, y: seq<Octet>)
    requires |x| == |y|
    ensures |XorData(x, y)| == |x|
    ensures x != [] ==> XorData(x, y)[0] == x[0] ^ y[0] && XorData(x, y)[1..] == XorData(x[1..], y[1..])
  {
  }

  lemma FeedOctetLinear(a: bv16, b: bv16, x: Octet, y: Octet)
    ensures FeedOctet(Xor(a, b), x ^ y) == Xor(FeedOctet(a, x), FeedOctet(b, y))
  {
    hide Xor, Widen, Shifts;
    WidenXor(x, y);
    XorExchange(a, b, Widen(x), Widen(y));
    ShiftsLinear(Xor(a, Widen(x)), Xor(b, Widen(y)), 8);
  }

  /** The loop is linear over exclusive or, in the register and in the data. */
  lemma {:induction false} FeedLinear(a: bv16, b: bv16, x: seq<Octet>, y: seq<Octet>)
    requires |x| == |y|
    ensures Feed(Xor(a, b), XorData(x, y)) == Xor(Feed(a, x), Feed(b, y))
    decreases |x|
  {
    XorDataStep(x, y);
    if x != [] {
      hide FeedOctet, Xor, XorData;
      FeedOctetLinear(a, b, x[0], y[0]);
      FeedLinear(FeedOctet(a, x[0]), FeedOctet(b, y[0]), x[1..], y[1..]);
    }
  }

  lemma {:induction false} FeedConcat(crc: bv16, x: seq<Octet>, y: seq<Octet>)
    ensures Feed(crc, x + y) == Feed(Feed(crc, x), y)
    decreases |x|
  {
    if x == [] {
      assert x + y == y;
    } else {
      hide FeedOctet;
      FeedConcat(FeedOctet(crc, x[0]), x[1..], y);
      assert (x + y)[1..] == x[1..] + y;
    }
  }

  // ---------- sealed blocks ----------

  function Low(word: bv16): Octet { (word & 0xFF) as Octet }

  function High(word: bv16): Octet { (word >> 8) as Octet }

  /** Two octets, least significant first. */
  function LittleEndian(word: bv16): seq<Octet> { [Low(word), High(word)] }

  /** A block as the emulator sends it: the data followed by its CRC. */
  function Seal(data: seq<Octet>): seq<Octet> {
    data + LittleEndian(Crc16(data))
  }

  /** What a receiver checks. */
  predicate Intact(block: seq<Octet>) {
    |block| >= 2 && block == Seal(block[..|block| - 2])
  }
}
