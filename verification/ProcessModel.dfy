/** The Modbus stand-in's process model: intake and treatment steps over a register dictionary. */
module ProcessModel {
  import P = IntakeProgram

  datatype Asset = Intake | Treatment

  function Offsets(asset: Asset): set<nat> {
    match asset
    case Intake => {0, 1, 5, 6}
    case Treatment => {0, 1, 2, 5, 6}
  }

  datatype IntakeState = IntakeState(valve: int, pump: int, level: int, alarm: int)

  const POWER_UP := IntakeState(0, 0, 0, 0)

  datatype TreatmentState = TreatmentState(flow: int, dosing: int, rate: int, chlorine: int, alarm: int)

  function Clamp(x: int): int { if x > 100 then 100 else if x < 0 then 0 else x }

  function StepIntake(s: IntakeState): IntakeState {
    var called := if s.level < 20 then 1 else s.valve;
    var level := Clamp(s.level + if called == 1 then 1 else -1);
    var valve := if level > 95 then 0 else called;
    IntakeState(valve, if valve != 0 then 60 else 0, level, if level > 95 then 1 else 0)
  }

  function StepTreatment(s: TreatmentState): TreatmentState {
    var decayed := if s.chlorine > 0 then s.chlorine - 1 else 0;
    var (dosing, rate, chlorine) :=
      if decayed < 20 then (1, 50, if decayed + 3 < 100 then decayed + 3 else 100)
      else if decayed >= 40 then (0, 0, decayed)
      else (s.dosing, s.rate, decayed);
    TreatmentState(40, dosing, rate, chlorine, if chlorine > 60 || chlorine == 0 then 1 else 0)
  }

  /** The registers of a state. */
  function IntakeMap(s: IntakeState): map<nat, int> {
    map[0 := s.valve, 1 := s.pump, 5 := s.level, 6 := s.alarm]
  }

  function TreatmentMap(s: TreatmentState): map<nat, int> {
    map[0 := s.flow, 1 := s.dosing, 2 := s.rate, 5 := s.chlorine, 6 := s.alarm]
  }

  class Model {
    const asset: Asset
    var registers: map<nat, int>

    ghost predicate Valid()
      reads this
    {
      registers.Keys == Offsets(asset)
    }

    function IntakeImage(): IntakeState
      reads this
      requires Valid() && asset == Intake
    {
      IntakeState(registers[0], registers[1], registers[5], registers[6])
    }

    function TreatmentImage(): TreatmentState
      reads this
      requires Valid() && asset == Treatment
    {
      TreatmentState(registers[0], registers[1], registers[2], registers[5], registers[6])
    }

    constructor (asset: Asset)
      ensures Valid() && this.asset == asset
      ensures asset == Intake ==> IntakeImage() == POWER_UP
      ensures asset == Treatment ==> TreatmentImage() == TreatmentState(0, 0, 0, 0, 0)
    {
      this.asset := asset;
      registers := map offset | offset in Offsets(asset) :: 0;
    }

    method Step()
      requires Valid()
      modifies this
      ensures Valid()
      ensures asset == Intake ==> IntakeImage() == StepIntake(old(IntakeImage()))
      ensures asset == Intake ==> registers == IntakeMap(StepIntake(old(IntakeImage())))
      ensures asset == Treatment ==> TreatmentImage() == StepTreatment(old(TreatmentImage()))
      ensures asset == Treatment ==> registers == TreatmentMap(StepTreatment(old(TreatmentImage())))
    {
      hide StepIntake, StepTreatment;
      if asset == Intake {
        StepIntakeRegisters();
      } else {
        StepTreatmentRegisters();
      }
    }

    method StepIntakeRegisters()
      requires Valid() && asset == Intake
      modifies this
      ensures Valid() && IntakeImage() == StepIntake(old(IntakeImage()))
    {
      if registers[5] < 20 {
        registers := registers[0 := 1];
      }
      registers := registers[5 := registers[5] + if registers[0] == 1 then 1 else -1];
      registers := registers[5 := Clamp(registers[5])];
      if registers[5] > 95 {
        registers := registers[0 := 0];
        registers := registers[6 := 1];
      } else {
        registers := registers[6 := 0];
      }
      registers := registers[1 := if registers[0] != 0 then 60 else 0];
    }

    method StepTreatmentRegisters()
      requires Valid() && asset == Treatment
      modifies this
      ensures Valid() && TreatmentImage() == StepTreatment(old(TreatmentImage()))
    {
      registers := registers[0 := 40];
      registers := registers[5 := if registers[5] > 0 then registers[5] - 1 else 0];
      if registers[5] < 20 {
        registers := registers[1 := 1][2 := 50];
        registers := registers[5 := if registers[5] + 3 < 100 then registers[5] + 3 else 100];
      } else if registers[5] >= 40 {
        registers := registers[1 := 0][2 := 0];
      }
      registers := registers[6 := if registers[5] > 60 || (registers[0] > 0 && registers[5] == 0) then 1 else 0];
    }
  }

  function RunIntake(s: IntakeState, n: nat): IntakeState
    decreases n
  {
    if n == 0 then s else RunIntake(StepIntake(s), n - 1)
  }

  function RunTreatment(s: TreatmentState, n: nat): TreatmentState
    decreases n
  {
    if n == 0 then s else RunTreatment(StepTreatment(s), n - 1)
  }

  // ---------- the two intake controllers ----------

  /** Valve, level and alarm are the same. */
  ghost predicate Matches(r: P.Registers, s: IntakeState) {
    r.inletValve == s.valve && r.tankLevel == s.level && r.alarm == s.alarm
  }

  /** From any 16-bit registers one step keeps the controllers matched, but for the one level that wraps. */
  lemma StepsMatchExactly(r: P.Registers, s: IntakeState)
    requires Matches(r, s)
    ensures Matches(P.Scan(r), StepIntake(s)) <==> !(r.tankLevel == 0xFFFF && r.inletValve == 1)
  {
  }

  /** The stand-in drives the pump in the coming step. */
  predicate DrivesPump(valve: int, level: int) {
    level < 20 || (valve == 1 && level < 95) || (valve != 0 && valve != 1 && level <= 96)
  }

  /** Only the stand-in drives the pump: after a step the pumps agree exactly when the PLC's already was as driven. */
  lemma PumpMatchesExactly(r: P.Registers, s: IntakeState)
    requires Matches(r, s)
    ensures P.Scan(r).pump == StepIntake(s).pump
       <==> r.pump == if DrivesPump(r.inletValve, r.tankLevel) then 60 else 0
  {
  }

  /** In autonomous runs from matched registers inside the tank the controllers match after every scan. */
  lemma {:induction false} ControllersAgree(r: P.Registers, s: IntakeState, n: nat)
    requires Matches(r, s) && r.tankLevel <= 100
    ensures Matches(P.Run(r, P.Scans(n)), RunIntake(s, n))
    ensures P.Run(r, P.Scans(n)).tankLevel <= 100
  {
    if n > 0 {
      hide P.Run;
      ControllersAgree(r, s, n - 1);
      P.RunScansStep(r, n - 1);
      RunIntakeStep(s, n - 1);
      P.ScanSafe(P.Run(r, P.Scans(n - 1)));
      StepsMatchExactly(P.Run(r, P.Scans(n - 1)), RunIntake(s, n - 1));
    } else {
      assert P.Scans(0) == [];
    }
  }

  lemma {:induction false} RunIntakeAdd(s: IntakeState, m: nat, n: nat)
    ensures RunIntake(s, m + n) == RunIntake(RunIntake(s, m), n)
    decreases m
  {
    if m > 0 {
      hide StepIntake;
      RunIntakeAdd(StepIntake(s), m - 1, n);
    }
  }

  lemma RunIntakeStep(s: IntakeState, n: nat)
    ensures RunIntake(s, n + 1) == StepIntake(RunIntake(s, n))
  {
    hide StepIntake;
    RunIntakeAdd(s, n, 1);
    assert RunIntake(RunIntake(s, n), 1) == RunIntake(StepIntake(RunIntake(s, n)), 0);
  }

  /**
   * A valve write reaches the PLC only. From matched registers inside the tank the next
   * scan matches again exactly if the level is low enough to open the valve anyway, the
   * write changed nothing, or both valves are shut and the interlock shuts them.
   */
  lemma WriteKeepsMatchExactly(r: P.Registers, s: IntakeState, value: P.UInt)
    requires Matches(r, s) && r.tankLevel <= 100
    ensures Matches(P.Scan(r.(inletValve := value)), StepIntake(s))
       <==> r.tankLevel < 20 || value == s.valve || (value != 1 && s.valve != 1 && r.tankLevel > 96)
  {
  }

  // ---------- the autonomous intake cycle ----------

  const PERIOD := 154

  const PEAK := IntakeState(0, 0, 96, 1)

  /** The state `p` scans after the peak: falling to 19, then filling to 95. */
  function Phase(p: nat): IntakeState
    requires p < PERIOD
  {
    if p <= 77 then IntakeState(0, 0, 96 - p, if p == 0 then 1 else 0)
    else IntakeState(1, 60, p - 58, 0)
  }

  function NextPhase(p: nat): nat
    requires p < PERIOD
  {
    if p == PERIOD - 1 then 0 else p + 1
  }

  lemma PhaseStep(p: nat)
    requires p < PERIOD
    ensures NextPhase(p) < PERIOD && StepIntake(Phase(p)) == Phase(NextPhase(p))
  {
  }

  lemma PhaseIndex(p: nat, n: nat)
    requires p < PERIOD && n > 0
    ensures (NextPhase(p) + (n - 1)) % PERIOD == (p + n) % PERIOD
  {
  }

  lemma {:induction false} PhaseRun(p: nat, n: nat)
    requires p < PERIOD
    ensures RunIntake(Phase(p), n) == Phase((p + n) % PERIOD)
    decreases n
  {
    if n > 0 {
      hide Phase, StepIntake, NextPhase;
      PhaseStep(p);
      PhaseRun(NextPhase(p), n - 1);
      PhaseIndex(p, n);
    }
  }

  /** From the peak the run is periodic with period exactly 154, and the level stays in 19..96. */
  lemma CycleFromPeak(n: nat)
    ensures RunIntake(PEAK, n + PERIOD) == RunIntake(PEAK, n)
    ensures RunIntake(PEAK, n) == PEAK <==> n % PERIOD == 0
    ensures 19 <= RunIntake(PEAK, n).level <= 96
  {
    hide RunIntake;
    PhaseRun(0, n);
    PhaseRun(0, n + PERIOD);
    assert (n + PERIOD) % PERIOD == n % PERIOD;
  }

  /** Scans from a state to the next peak. */
  function ToPeak(s: IntakeState): nat
    requires 0 <= s.level <= 100
  {
    if s.level < 20 || s.valve == 1 then
      if s.level <= 95 then 96 - s.level else if s.level == 100 then 5 else s.level - 94
    else if s.level >= 97 then s.level - 96
    else s.level - 19 + 77
  }

  lemma ToPeakStep(s: IntakeState)
    requires 0 <= s.level <= 100
    ensures var next := StepIntake(s);
      0 <= next.level <= 100 && (next == PEAK || (ToPeak(s) > 1 && ToPeak(next) == ToPeak(s) - 1))
    ensures StepIntake(s) == PEAK ==> ToPeak(s) == 1
  {
  }

  lemma {:induction false} ReachesPeak(s: IntakeState)
    requires 0 <= s.level <= 100
    ensures RunIntake(s, ToPeak(s)) == PEAK
    decreases ToPeak(s)
  {
    ToPeakStep(s);
    if StepIntake(s) != PEAK {
      ReachesPeak(StepIntake(s));
    }
  }

  /** From any valve value and any level in 0..100 the peak is reached within one period. */
  lemma PeakWithinPeriod(s: IntakeState)
    requires 0 <= s.level <= 100
    ensures 1 <= ToPeak(s) <= PERIOD && RunIntake(s, ToPeak(s)) == PEAK
  {
    ReachesPeak(s);
  }

  /** A run that starts at or below 95, or at 96 with the valve not open, never exceeds 96. */
  lemma {:induction false} NeverAbove96(s: IntakeState, n: nat)
    requires 0 <= s.level <= 96 && (s.level == 96 ==> s.valve != 1)
    ensures 0 <= RunIntake(s, n).level <= 96
    decreases n
  {
    if n > 0 {
      NeverAbove96(StepIntake(s), n - 1);
    }
  }

  lemma ZeroStartNeverAbove96(n: nat)
    ensures 0 <= RunIntake(POWER_UP, n).level <= 96
  {
    NeverAbove96(POWER_UP, n);
  }

  lemma {:induction false} Rising(s: IntakeState, n: nat)
    requires 0 <= s.level && s.level + n <= 95 && (s.level < 20 || s.valve == 1) && n > 0
    ensures RunIntake(s, n).level == s.level + n && RunIntake(s, n).pump == 60
    decreases n
  {
    if n == 1 {
      assert RunIntake(StepIntake(s), 0) == StepIntake(s);
    } else {
      Rising(StepIntake(s), n - 1);
    }
  }

  /** Of an autonomous run from power-up: the first filling takes 96 scans, then the cycle repeats. */
  lemma RunFromPowerUp(n: nat)
    ensures n >= 96 ==> RunIntake(POWER_UP, n) == Phase((n - 96) % PERIOD)
    ensures 0 < n < 96 ==> RunIntake(POWER_UP, n).pump == 60
  {
    if n >= 96 {
      ReachesPeak(POWER_UP);
      RunIntakeAdd(POWER_UP, 96, n - 96);
      PhaseRun(0, n - 96);
    } else if n > 0 {
      Rising(POWER_UP, n);
    }
  }

  /** From power-up the pumps agree after n scans exactly at the start and while the tank of the cycle drains. */
  lemma PumpsAgreeExactly(n: nat)
    ensures P.Run(P.Registers(0, 0, 0, 0), P.Scans(n)).pump == RunIntake(POWER_UP, n).pump
       <==> n == 0 || (n >= 96 && (n - 96) % PERIOD <= 77)
  {
    P.PumpUndriven(P.Registers(0, 0, 0, 0), P.Scans(n));
    RunFromPowerUp(n);
  }

  /** A run that diverges: after 142 scans both are draining at 50; an open command fills the PLC's tank only. */
  lemma WriteDiverges()
    ensures var r := P.Run(P.Registers(0, 0, 0, 0), P.Scans(142)); var s := RunIntake(POWER_UP, 142);
      && Matches(r, s) && s.level == 50
      && P.Scan(r.(inletValve := 1)).tankLevel == 51 && StepIntake(s).level == 49
  {
    ControllersAgree(P.Registers(0, 0, 0, 0), POWER_UP, 142);
    hide P.Run, RunIntake;
    RunFromPowerUp(142);
  }

  // ---------- treatment ----------

  predicate InBand(s: TreatmentState) { 20 <= s.chlorine <= 22 }

  /** An upper bound on the scans until the residual is in the band. */
  function ToBand(chlorine: int): nat {
    if chlorine > 22 then chlorine - 22 else if chlorine < 20 then 20 - chlorine else 0
  }

  lemma TreatmentStep(s: TreatmentState)
    requires 0 <= s.chlorine <= 100
    ensures var next := StepTreatment(s);
      && 1 <= next.chlorine <= 100
      && ToBand(next.chlorine) <= (if ToBand(s.chlorine) == 0 then 0 else ToBand(s.chlorine) - 1)
      && (InBand(next) ==> next.alarm == 0)
  {
  }

  /** From any residual in 0..100 the chlorine is in 20..22 and the alarm clear from scan 78 on; no later one is 0. */
  lemma {:induction false} TreatmentConverges(s: TreatmentState, n: nat)
    requires 0 <= s.chlorine <= 100
    ensures n >= 1 ==> RunTreatment(s, n).chlorine > 0
    ensures n >= 1 && n >= ToBand(s.chlorine) ==> InBand(RunTreatment(s, n)) && RunTreatment(s, n).alarm == 0
    ensures ToBand(s.chlorine) <= 78
    decreases n
  {
    if n > 0 {
      TreatmentStep(s);
      TreatmentConverges(StepTreatment(s), n - 1);
    }
  }

  lemma {:induction false} Decay(s: TreatmentState, n: nat)
    requires 21 <= s.chlorine <= 100 && s.chlorine - n >= 20
    ensures RunTreatment(s, n).chlorine == s.chlorine - n
    decreases n
  {
    if n > 0 {
      if s.chlorine > 21 {
        Decay(StepTreatment(s), n - 1);
      } else {
        assert RunTreatment(StepTreatment(s), 0) == StepTreatment(s);
      }
    }
  }

  /** The bound is tight: from 100 the band is still missed at scan 77. */
  lemma SeventyEightIsTight(s: TreatmentState)
    requires s.chlorine == 100
    ensures !InBand(RunTreatment(s, 77)) && InBand(RunTreatment(s, 78))
  {
    Decay(s, 77);
    Decay(s, 78);
  }

  lemma {:induction false} RunTreatmentStep(s: TreatmentState, n: nat)
    ensures RunTreatment(s, n + 1) == StepTreatment(RunTreatment(s, n))
    decreases n
  {
    hide StepTreatment;
    if n > 0 {
      RunTreatmentStep(StepTreatment(s), n - 1);
    } else {
      assert RunTreatment(s, 1) == RunTreatment(StepTreatment(s), 0);
    }
  }

  /** The band is a cycle of three scans. */
  function BandResidual(k: nat): int {
    if k % 3 == 0 then 21 else if k % 3 == 1 then 20 else 22
  }

  /** The whole run from power-up: flow, dosing at half rate, no alarm; the residual rises by two, then cycles. */
  lemma {:induction false} TreatmentFromZero(n: nat)
    requires n >= 1
    ensures RunTreatment(TreatmentState(0, 0, 0, 0, 0), n)
         == TreatmentState(40, 1, 50, if n <= 10 then 2 * n + 1 else BandResidual(n - 10), 0)
  {
    var s := TreatmentState(0, 0, 0, 0, 0);
    if n == 1 {
      assert RunTreatment(s, 1) == RunTreatment(StepTreatment(s), 0);
    } else {
      hide RunTreatment;
      TreatmentFromZero(n - 1);
      RunTreatmentStep(s, n - 1);
    }
  }

  /**
   * The whole run from an overdosed residual of 100, whatever the other registers held: no
   * dosing for 80 scans, then dosing at half rate for ever; alarm for the first 39 scans.
   */
  lemma {:induction false} TreatmentFromHundred(s: TreatmentState, n: nat)
    requires s.chlorine == 100 && n >= 1
    ensures RunTreatment(s, n)
         == TreatmentState(40, if n <= 80 then 0 else 1, if n <= 80 then 0 else 50,
                           if n <= 80 then 100 - n else BandResidual(n - 79), if n <= 39 then 1 else 0)
  {
    if n == 1 {
      assert RunTreatment(s, 1) == RunTreatment(StepTreatment(s), 0);
    } else {
      hide RunTreatment;
      TreatmentFromHundred(s, n - 1);
      RunTreatmentStep(s, n - 1);
    }
  }

  /** From any state: the command changes only outside 20..39, on below and off above; the alarm is by residual. */
  lemma DosingCommand(s: TreatmentState)
    requires 0 <= s.chlorine <= 100
    ensures var next := StepTreatment(s); var left := if s.chlorine == 0 then 0 else s.chlorine - 1;
      && (20 <= left < 40 ==> next.dosing == s.dosing && next.rate == s.rate && next.chlorine == left)
      && (left < 20 ==> next.dosing == 1 && next.rate == 50 && next.chlorine == left + 3)
      && (left >= 40 ==> next.dosing == 0 && next.rate == 0 && next.chlorine == left)
      && next.flow == 40 && next.alarm == if next.chlorine > 60 then 1 else 0
  {
  }
}
