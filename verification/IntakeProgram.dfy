/** The intake PLC program: a level controller over 16-bit unsigned registers with an overflow interlock. */
module IntakeProgram {

  type UInt = x: int | 0 <= x < 0x1_0000

  /** UINT arithmetic wraps. */
  function Wrap(x: int): UInt { x % 0x1_0000 }

  /** The located variables. */
  datatype Registers = Registers(inletValve: UInt, pump: UInt, tankLevel: UInt, alarm: UInt)

  /** The effect of one scan. */
  function Scan(r: Registers): Registers {
    var valve := if r.tankLevel < 20 then 1 else r.inletValve;
    var moved := if valve == 1 then Wrap(r.tankLevel + 1) else Wrap(r.tankLevel - 1);
    var level := if moved > 100 then 100 else moved;
    if level > 95 then r.(inletValve := 0, tankLevel := level, alarm := 1)
    else r.(inletValve := valve, tankLevel := level, alarm := 0)
  }

  class Program {
    var inletValve: UInt
    var pump: UInt
    var tankLevel: UInt
    var alarm: UInt

    function Image(): Registers
      reads this
    {
      Registers(inletValve, pump, tankLevel, alarm)
    }

    constructor ()
      ensures Image() == Registers(0, 0, 0, 0)
    {
      inletValve, pump, tankLevel, alarm := 0, 0, 0, 0;
    }

    method RunScan()
      modifies this
      ensures Image() == Scan(old(Image()))
    {
      if tankLevel < 20 {
        inletValve := 1;
      }
      if inletValve == 1 {
        tankLevel := Wrap(tankLevel + 1);
      } else {
        tankLevel := Wrap(tankLevel - 1);
      }
      if tankLevel > 100 {
        tankLevel := 100;
      }
      // The program's test for a level below 0 cannot hold of an unsigned register.
      if tankLevel > 95 {
        inletValve := 0;
        alarm := 1;
      } else {
        alarm := 0;
      }
    }
  }

  /** What happens to the registers between two scans is any sequence of valve writes. */
  datatype Event = ScanCycle | WriteValve(value: UInt)

  function Apply(r: Registers, event: Event): Registers {
    match event
    case ScanCycle => Scan(r)
    case WriteValve(value) => r.(inletValve := value)
  }

  function Run(r: Registers, events: seq<Event>): Registers
    decreases |events|
  {
    if events == [] then r else Apply(Run(r, events[..|events| - 1]), events[|events| - 1])
  }

  /** An autonomous run: nothing but scans. */
  function Scans(n: nat): seq<Event> { seq(n, _ => ScanCycle) }

  lemma RunScansStep(r: Registers, n: nat)
    ensures Run(r, Scans(n + 1)) == Scan(Run(r, Scans(n)))
  {
    assert Scans(n + 1)[..n] == Scans(n);
  }

  /** The program never drives the pump, in no run. */
  lemma {:induction false} PumpUndriven(r: Registers, events: seq<Event>)
    ensures Run(r, events).pump == r.pump
    decreases |events|
  {
    if events != [] {
      PumpUndriven(r, events[..|events| - 1]);
    }
  }

  /** One scan from inside the tank: no wrap-around, at most one step, and the interlock decided on the new level. */
  lemma ScanSafe(r: Registers)
    requires r.tankLevel <= 100
    ensures var next := Scan(r);
      && next.tankLevel <= 100
      && (next.tankLevel == r.tankLevel + 1 || next.tankLevel == r.tankLevel - 1
          || next.tankLevel == r.tankLevel == 100)
      && (next.alarm == 1 <==> next.tankLevel > 95) && next.alarm <= 1
      && (next.tankLevel > 95 ==> next.inletValve == 0)
      && (r.tankLevel >= 19 ==> next.tankLevel >= 19)
      && (next.tankLevel < r.tankLevel ==> r.tankLevel >= 20)
  {
  }

  /** Under arbitrary valve writes between scans the level stays in 0..100, and once at 19 never falls below it. */
  lemma {:induction false} LevelInvariant(r: Registers, events: seq<Event>)
    requires r.tankLevel <= 100
    ensures Run(r, events).tankLevel <= 100
    ensures r.tankLevel >= 19 ==> Run(r, events).tankLevel >= 19
    decreases |events|
  {
    if events != [] {
      LevelInvariant(r, events[..|events| - 1]);
      ScanSafe(Run(r, events[..|events| - 1]));
    }
  }

  /** After every scan of every run the alarm says whether the level is above 95, and then the valve is shut. */
  lemma InterlockInvariant(r: Registers, events: seq<Event>)
    requires r.tankLevel <= 100
    ensures var after := Run(r, events + [ScanCycle]);
      && (after.alarm == 1 <==> after.tankLevel > 95)
      && (after.tankLevel > 95 ==> after.inletValve == 0)
  {
    LevelInvariant(r, events);
    ScanSafe(Run(r, events));
    assert (events + [ScanCycle])[..|events|] == events;
  }

  /** In every run a valve command decides the next scan: 1 fills by one, anything else drains by one. */
  lemma CommandMoves(r: Registers, events: seq<Event>, value: UInt)
    requires 20 <= Run(r, events).tankLevel <= 99
    ensures Run(r, events + [WriteValve(value), ScanCycle]).tankLevel
         == Run(r, events).tankLevel + if value == 1 then 1 else -1
  {
    var written := events + [WriteValve(value)];
    assert written + [ScanCycle] == events + [WriteValve(value), ScanCycle];
    assert (written + [ScanCycle])[..|written|] == written && written[..|events|] == events;
  }
}
