/** The 151 register values a single wrong bit runs through, tabled by the binary digits of the number of shifts. */
module ShiftOrbit {
  import opened Common
  import opened Crc

  /** The register that held 1, `i` shifts later. */
  function Orbit(i: nat): bv16 { Shifts(1, i) }

  function Row0(b3: bool, b2: bool, b1: bool, b0: bool): bv16 {
    if b3 then
      if b2 then (if b1 then (if b0 then 0x1BE5 else 0x37CA) else if b0 then 0x6F94 else 0xDF28)
      else if b1 then (if b0 then 0xF329 else 0xAB2B) else if b0 then 0x1B2F else 0x365E
    else
      if b2 then (if b1 then (if b0 then 0x6CBC else 0xD978) else if b0 then 0xFF89 else 0xB26B)
      else if b1 then (if b0 then 0x29AF else 0x535E) else if b0 then 0xA6BC else 0x0001
  }

  function Row1(b3: bool, b2: bool, b1: bool, b0: bool): bv16 {
    if b3 then
      if b2 then (if b1 then (if b0 then 0xC8A9 else 0xDC2B) else if b0 then 0xF52F else 0xA727)
      else if b1 then (if b0 then 0x0337 else 0x066E) else if b0 then 0x0CDC else 0x19B8
    else
      if b2 then (if b1 then (if b0 then 0x3370 else 0x66E0) else if b0 then 0xCDC0 else 0xD6F9)
      else if b1 then (if b0 then 0xE08B else 0x8C6F) else if b0 then 0x55A7 else 0xAB4E
  }

  function Row2(b3: bool, b2: bool, b1: bool, b0: bool): bv16 {
    if b3 then
      if b2 then (if b1 then (if b0 then 0x26B7 else 0x4D6E) else if b0 then 0x9ADC else 0x78C1)
      else if b1 then (if b0 then 0xF182 else 0xAE7D) else if b0 then 0x1183 else 0x2306
    else
      if b2 then (if b1 then (if b0 then 0x460C else 0x8C18) else if b0 then 0x5549 else 0xAA92)
      else if b1 then (if b0 then 0x185D else 0x30BA) else if b0 then 0x6174 else 0xC2E8
  }

  function Row3(b3: bool, b2: bool, b1: bool, b0: bool): bv16 {
    if b3 then
      if b2 then (if b1 then (if b0 then 0x2C24 else 0x5848) else if b0 then 0xB090 else 0x2C59)
      else if b1 then (if b0 then 0x58B2 else 0xB164) else if b0 then 0x2FB1 else 0x5F62
    else
      if b2 then (if b1 then (if b0 then 0xBEC4 else 0x30F1) else if b0 then 0x61E2 else 0xC3C4)
      else if b1 then (if b0 then 0xCAF1 else 0xD89B) else if b0 then 0xFC4F else 0xB5E7
  }

  function Row4(b3: bool, b2: bool, b1: bool, b0: bool): bv16 {
    if b3 then
      if b2 then (if b1 then (if b0 then 0xCBBD else 0xDA03) else if b0 then 0xF97F else 0xBF87)
      else if b1 then (if b0 then 0x3277 else 0x64EE) else if b0 then 0xC9DC else 0xDEC1
    else
      if b2 then (if b1 then (if b0 then 0xF0FB else 0xAC8F) else if b0 then 0x1467 else 0x28CE)
      else if b1 then (if b0 then 0x519C else 0xA338) else if b0 then 0x0B09 else 0x1612
  }

  function Row5(b3: bool, b2: bool, b1: bool, b0: bool): bv16 {
    if b3 then
      if b2 then (if b1 then (if b0 then 0x94B7 else 0x6417) else if b0 then 0xC82E else 0xDD25)
      else if b1 then (if b0 then 0xF733 else 0xA31F) else if b0 then 0x0B47 else 0x168E
    else
      if b2 then (if b1 then (if b0 then 0x2D1C else 0x5A38) else if b0 then 0xB470 else 0x2599)
      else if b1 then (if b0 then 0x4B32 else 0x9664) else if b0 then 0x61B1 else 0xC362
  }

  function Row6(b3: bool, b2: bool, b1: bool, b0: bool): bv16 {
    if b3 then
      if b2 then (if b1 then (if b0 then 0x7DE0 else 0xFBC0) else if b0 then 0xBAF9 else 0x388B)
      else if b1 then (if b0 then 0x7116 else 0xE22C) else if b0 then 0x8921 else 0x5F3B
    else
      if b2 then (if b1 then (if b0 then 0xBE76 else 0x3195) else if b0 then 0x632A else 0xC654)
      else if b1 then (if b0 then 0xC1D1 else 0xCEDB) else if b0 then 0xD0CF else 0xECE7
  }

  function Row7(b3: bool, b2: bool, b1: bool, b0: bool): bv16 {
    if b3 then
      if b2 then (if b1 then (if b0 then 0x9B18 else 0x7B49) else if b0 then 0xF692 else 0xA05D)
      else if b1 then (if b0 then 0x0DC3 else 0x1B86) else if b0 then 0x370C else 0x6E18
    else
      if b2 then (if b1 then (if b0 then 0xDC30 else 0xF519) else if b0 then 0xA74B else 0x03EF)
      else if b1 then (if b0 then 0x07DE else 0x0FBC) else if b0 then 0x1F78 else 0x3EF0
  }

  function Row8(b3: bool, b2: bool, b1: bool, b0: bool): bv16 {
    if b3 then
      if b2 then (if b1 then (if b0 then 0x0100 else 0x0200) else if b0 then 0x0400 else 0x0800)
      else if b1 then (if b0 then 0x1000 else 0x2000) else if b0 then 0x4000 else 0x8000
    else
      if b2 then (if b1 then (if b0 then 0x4D79 else 0x9AF2) else if b0 then 0x789D else 0xF13A)
      else if b1 then (if b0 then 0xAF0D else 0x1363) else if b0 then 0x26C6 else 0x4D8C
  }

  function Row9(b3: bool, b2: bool, b1: bool, b0: bool): bv16 {
    if b3 then
      if b2 then (if b1 then (if b0 then 0x365E else 0x6CBC) else if b0 then 0xD978 else 0xFF89)
      else if b1 then (if b0 then 0xB26B else 0x29AF) else if b0 then 0x535E else 0xA6BC
    else
      if b2 then (if b1 then (if b0 then 0x0001 else 0x0002) else if b0 then 0x0004 else 0x0008)
      else if b1 then (if b0 then 0x0010 else 0x0020) else if b0 then 0x0040 else 0x0080
  }

  /** The orbit at 16 * row + 8 * b3 + 4 * b2 + 2 * b1 + b0. */
  function At(row: nat, b3: bool, b2: bool, b1: bool, b0: bool): bv16 {
    if row == 0 then Row0(b3, b2, b1, b0) else
    if row == 1 then Row1(b3, b2, b1, b0) else
    if row == 2 then Row2(b3, b2, b1, b0) else
    if row == 3 then Row3(b3, b2, b1, b0) else
    if row == 4 then Row4(b3, b2, b1, b0) else
    if row == 5 then Row5(b3, b2, b1, b0) else
    if row == 6 then Row6(b3, b2, b1, b0) else
    if row == 7 then Row7(b3, b2, b1, b0) else
    if row == 8 then Row8(b3, b2, b1, b0) else
    Row9(b3, b2, b1, b0)
  }

  lemma StepOne(row: nat, b3: bool, b2: bool, b1: bool)
    ensures At(row, b3, b2, b1, true) == Shift(At(row, b3, b2, b1, false))
  {
    match row
    case 0 => case 1 => case 2 => case 3 => case 4 => case 5 => case 6 => case 7 => case 8 => case _ =>
  }

  lemma StepTwo(row: nat, b3: bool, b2: bool)
    ensures At(row, b3, b2, true, false) == Shift(At(row, b3, b2, false, true))
  {
    match row
    case 0 => case 1 => case 2 => case 3 => case 4 => case 5 => case 6 => case 7 => case 8 => case _ =>
  }

  lemma StepFour(row: nat, b3: bool)
    ensures At(row, b3, true, false, false) == Shift(At(row, b3, false, true, true))
  {
    match row
    case 0 => case 1 => case 2 => case 3 => case 4 => case 5 => case 6 => case 7 => case 8 => case _ =>
  }

  lemma StepEight(row: nat)
    ensures At(row, true, false, false, false) == Shift(At(row, false, true, true, true))
  {
  }

  lemma StepSixteen(row: nat)
    requires row < 9
    ensures At(row + 1, false, false, false, false) == Shift(At(row, true, true, true, true))
  {
  }

  /** The number with these digits. */
  function Number(row: nat, b3: bool, b2: bool, b1: bool, b0: bool): nat {
    16 * row + Weight(b3, 8) + Weight(b2, 4) + Weight(b1, 2) + Weight(b0, 1)
  }

  lemma DigitsOf(i: nat) returns (row: nat, b3: bool, b2: bool, b1: bool, b0: bool)
    ensures Number(row, b3, b2, b1, b0) == i && row == i / 16
  {
    row := i / 16;
    var rest := i % 16;
    b3 := rest >= 8;
    rest := rest - Weight(b3, 8);
    b2 := rest >= 4;
    rest := rest - Weight(b2, 4);
    b1 := rest >= 2;
    b0 := rest - Weight(b1, 2) == 1;
  }

  lemma OrbitStep(i: nat)
    ensures Orbit(i + 1) == Shift(Orbit(i))
  {
    hide Shift;
    ShiftsAdd(1, i, 1);
    assert Shifts(Orbit(i), 1) == Shifts(Shift(Orbit(i)), 0);
  }

  /** The table is the orbit. */
  lemma {:induction false} OrbitTabled(row: nat, b3: bool, b2: bool, b1: bool, b0: bool)
    requires row <= 9
    ensures Orbit(Number(row, b3, b2, b1, b0)) == At(row, b3, b2, b1, b0)
    decreases Number(row, b3, b2, b1, b0)
  {
    hide Orbit, At, Shift;
    if b0 {
      OrbitTabled(row, b3, b2, b1, false);
      StepOne(row, b3, b2, b1);
      OrbitStep(Number(row, b3, b2, b1, false));
    } else if b1 {
      OrbitTabled(row, b3, b2, false, true);
      StepTwo(row, b3, b2);
      OrbitStep(Number(row, b3, b2, false, true));
    } else if b2 {
      OrbitTabled(row, b3, false, true, true);
      StepFour(row, b3);
      OrbitStep(Number(row, b3, false, true, true));
    } else if b3 {
      OrbitTabled(row, false, true, true, true);
      StepEight(row);
      OrbitStep(Number(row, false, true, true, true));
    } else if row > 0 {
      OrbitTabled(row - 1, true, true, true, true);
      StepSixteen(row - 1);
      OrbitStep(Number(row - 1, true, true, true, true));
    } else {
      OrbitStart();
    }
  }

  lemma OrbitStart()
    ensures Orbit(0) == 1 == At(0, false, false, false, false)
  {
  }
}
