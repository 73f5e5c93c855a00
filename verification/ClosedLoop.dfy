/** The intake PLC, the Modbus traffic and the safety monitor running together. */
module ClosedLoop {
  import opened Common
  import opened Modbus
  import opened SafetyMonitor
  import P = IntakeProgram

  /** The register map the PLC and the monitor share. */
  ghost predicate SharesMap(cfg: Config) {
    cfg.inletValveReg == 0 && cfg.tankLevelReg == 5
  }

  /**
   * `Read` is the PLC's answer to a read of `count` registers from 0 on; `Request` is any
   * packet from another host, valve writes of either function code included, that leaves
   * the level register alone, which the register map declares read-only.
   */
  datatype Event =
    | ScanCycle
    | Read(dstIp: string, count: nat, unitId: Byte)
    | Request(packet: Packet)

  ghost predicate LeavesLevel(cfg: Config, packet: Packet) {
    forall i :: 0 <= i < |PlcWrites(cfg, packet)| ==> PlcWrites(cfg, packet)[i].register != cfg.tankLevelReg
  }

  /** A read is complete when it reaches the level register and fits in a response. */
  ghost predicate Allowed(cfg: Config, event: Event) {
    match event
    case ScanCycle => true
    case Read(_, count, _) => 6 <= count <= 127
    case Request(packet) => packet.Traffic? && packet.srcIp != cfg.plcIp && LeavesLevel(cfg, packet)
  }

  /** The PLC, everything the monitor has seen, and the scans since the last read or power-up. */
  datatype Loop = Loop(plc: P.Registers, trace: seq<Packet>, age: nat)

  const POWER_UP := Loop(P.Registers(0, 0, 0, 0), [], 0)

  function HoldingRegister(plc: P.Registers, i: nat): Register {
    if i == 0 then plc.inletValve
    else if i == 1 then plc.pump
    else if i == 5 then plc.tankLevel
    else if i == 6 then plc.alarm
    else 0
  }

  function HoldingRegisters(plc: P.Registers, count: nat): seq<Register> {
    seq(count, i requires 0 <= i < count => HoldingRegister(plc, i))
  }

  /** The read response on the wire. */
  function Answer(cfg: Config, plc: P.Registers, dstIp: string, count: nat, unitId: Byte): Packet
    requires count <= 127
  {
    Traffic(cfg.plcIp, dstIp, ReadResponse(HoldingRegisters(plc, count), unitId).value)
  }

  /** What the PLC does with a request: take over a valve command. */
  function Obey(cfg: Config, plc: P.Registers, packet: Packet): P.Registers {
    match ValveCommand(cfg, packet)
    case None => plc
    case Some(value) => plc.(inletValve := value)
  }

  ghost function Step(cfg: Config, loop: Loop, event: Event): Loop
    requires Allowed(cfg, event)
  {
    match event
    case ScanCycle => loop.(plc := P.Scan(loop.plc), age := loop.age + 1)
    case Read(dstIp, count, unitId) =>
      loop.(trace := loop.trace + [Answer(cfg, loop.plc, dstIp, count, unitId)], age := 0)
    case Request(packet) => loop.(plc := Obey(cfg, loop.plc, packet), trace := loop.trace + [packet])
  }

  ghost predicate AllAllowed(cfg: Config, events: seq<Event>) {
    forall i :: 0 <= i < |events| ==> Allowed(cfg, events[i])
  }

  /** Every interleaving of scans, reads and requests. */
  ghost function RunLoop(cfg: Config, events: seq<Event>): Loop
    requires AllAllowed(cfg, events)
    decreases |events|
  {
    if events == [] then POWER_UP else Step(cfg, RunLoop(cfg, Front(events)), Last(events))
  }

  function Distance(x: int, y: int): nat { if x >= y then x - y else y - x }

  /** The shadow level is off by at most the scans since the last read. */
  ghost predicate Tracks(cfg: Config, loop: Loop) {
    loop.plc.tankLevel <= 100 && Distance(LatestLevel(cfg, loop.trace), loop.plc.tankLevel) <= loop.age
  }

  lemma AnswerTeachesLevel(cfg: Config, plc: P.Registers, dstIp: string, count: nat, unitId: Byte, trace: seq<Packet>)
    requires SharesMap(cfg) && 6 <= count <= 127
    ensures LatestLevel(cfg, trace + [Answer(cfg, plc, dstIp, count, unitId)]) == plc.tankLevel
  {
    hide Learned, ReadResponse;
    LearnedIsRegister(cfg, cfg.plcIp, dstIp, HoldingRegisters(plc, count), unitId);
    assert Last(trace + [Answer(cfg, plc, dstIp, count, unitId)]) == Answer(cfg, plc, dstIp, count, unitId);
  }

  lemma RequestTeachesNothing(cfg: Config, trace: seq<Packet>, packet: Packet)
    requires packet.Traffic? && packet.srcIp != cfg.plcIp
    ensures LatestLevel(cfg, trace + [packet]) == LatestLevel(cfg, trace)
  {
    assert Front(trace + [packet]) == trace;
    assert Learned(cfg, packet) == None;
  }

  lemma StepTracks(cfg: Config, loop: Loop, event: Event)
    requires SharesMap(cfg) && Allowed(cfg, event) && Tracks(cfg, loop)
    ensures Tracks(cfg, Step(cfg, loop, event))
  {
    hide LatestLevel, Answer, ValveCommand;
    match event
    case ScanCycle => P.ScanSafe(loop.plc);
    case Read(dstIp, count, unitId) => AnswerTeachesLevel(cfg, loop.plc, dstIp, count, unitId, loop.trace);
    case Request(packet) => RequestTeachesNothing(cfg, loop.trace, packet);
  }

  /** In every interleaving, k scans after the last read the shadow level is within k of the true level. */
  lemma {:induction false} ShadowLag(cfg: Config, events: seq<Event>)
    requires SharesMap(cfg) && AllAllowed(cfg, events)
    ensures Tracks(cfg, RunLoop(cfg, events))
    decreases |events|
  {
    if events != [] {
      hide Tracks, Step;
      ShadowLag(cfg, Front(events));
      StepTracks(cfg, RunLoop(cfg, Front(events)), Last(events));
    } else {
      assert LatestLevel(cfg, []) == 0;
    }
  }

  /** The packet makes the monitor raise one alert. */
  ghost predicate Alarms(cfg: Config, trace: seq<Packet>, packet: Packet) {
    |SafetyMonitor.Run(cfg, trace + [packet]).1| == |SafetyMonitor.Run(cfg, trace).1| + 1
  }

  /**
   * An open command at a level more than k above the threshold always alerts, and every
   * alert is at a level above the threshold less k, where k counts scans since the last read.
   */
  lemma CommandCoverage(cfg: Config, events: seq<Event>, packet: Packet)
    requires SharesMap(cfg) && AllAllowed(cfg, events)
    ensures var loop := RunLoop(cfg, events);
      && (ValveCommand(cfg, packet) == Some(1) && loop.plc.tankLevel > cfg.levelThreshold + loop.age
          ==> Alarms(cfg, loop.trace, packet))
      && (Alarms(cfg, loop.trace, packet)
          ==> ValveCommand(cfg, packet) == Some(1) && loop.plc.tankLevel > cfg.levelThreshold - loop.age)
  {
    hide RunLoop, LatestLevel, ValveCommand, SafetyMonitor.Run;
    ShadowLag(cfg, events);
    AlertsExact(cfg, RunLoop(cfg, events).trace, packet);
  }

  /** With the shipped threshold, reads at most five scans old cover every open command above the interlock. */
  lemma InterlockCovered(cfg: Config, events: seq<Event>, packet: Packet)
    requires SharesMap(cfg) && cfg.levelThreshold == 90 && AllAllowed(cfg, events)
    requires RunLoop(cfg, events).age <= 5 && RunLoop(cfg, events).plc.tankLevel > 95
    requires ValveCommand(cfg, packet) == Some(1)
    ensures Alarms(cfg, RunLoop(cfg, events).trace, packet)
  {
    hide RunLoop, ValveCommand, Alarms;
    CommandCoverage(cfg, events, packet);
  }

  // ---------- commands and answers on the wire ----------

  lemma BuiltCommand(cfg: Config, src: string, value: Register, unitId: Byte)
    requires SharesMap(cfg) && src != cfg.plcIp
    ensures var packet := Traffic(src, cfg.plcIp, SingleWrite(0, value, unitId));
      ValveCommand(cfg, packet) == Some(value) && Allowed(cfg, Request(packet))
  {
    BuiltOctets(0, value, [], unitId);
    hide SingleWrite;
    var packet := Traffic(src, cfg.plcIp, SingleWrite(0, value, unitId));
    assert PlcWrites(cfg, packet) == [Write(0, value)];
  }

  /** In every interleaving a built valve command decides the next scan: 1 fills by one, anything else drains by one. */
  lemma BuiltCommandMoves(cfg: Config, events: seq<Event>, src: string, value: Register, unitId: Byte)
    requires SharesMap(cfg) && AllAllowed(cfg, events) && src != cfg.plcIp
    requires 20 <= RunLoop(cfg, events).plc.tankLevel <= 99
    ensures var longer := events + [Request(Traffic(src, cfg.plcIp, SingleWrite(0, value, unitId))), ScanCycle];
      && AllAllowed(cfg, longer)
      && RunLoop(cfg, longer).plc.tankLevel
         == RunLoop(cfg, events).plc.tankLevel + if value == 1 then 1 else -1
  {
    hide RunLoop, AllAllowed, ValveCommand, SingleWrite;
    BuiltCommand(cfg, src, value, unitId);
    var request := Request(Traffic(src, cfg.plcIp, SingleWrite(0, value, unitId)));
    RunLoopStep(cfg, events, request);
    RunLoopStep(cfg, events + [request], ScanCycle);
    assert events + [request] + [ScanCycle] == events + [request, ScanCycle];
  }

  /** A read answer carries valve, pump, level and alarm at registers 0, 1, 5 and 6. */
  lemma AnswerCarries(cfg: Config, plc: P.Registers, dstIp: string, count: nat, unitId: Byte)
    requires 7 <= count <= 127
    ensures var payload := Answer(cfg, plc, dstIp, count, unitId).payload;
      && |payload| == 9 + 2 * count && payload[7] == 3 && payload[8] == 2 * count
      && WordAt(payload, 9) == plc.inletValve && WordAt(payload, 11) == plc.pump
      && WordAt(payload, 19) == plc.tankLevel && WordAt(payload, 21) == plc.alarm
  {
    var values := HoldingRegisters(plc, count);
    ReadResponseLayout(values, unitId);
    ReadResponseWord(values, unitId, 0);
    ReadResponseWord(values, unitId, 1);
    ReadResponseWord(values, unitId, 5);
    ReadResponseWord(values, unitId, 6);
    hide ReadResponse, WordAt;
  }

  // ---------- five scans is the limit ----------

  function Scans(n: nat): seq<Event> { seq(n, _ => ScanCycle) }

  lemma RunLoopStep(cfg: Config, events: seq<Event>, event: Event)
    requires AllAllowed(cfg, events) && Allowed(cfg, event)
    ensures AllAllowed(cfg, events + [event])
    ensures RunLoop(cfg, events + [event]) == Step(cfg, RunLoop(cfg, events), event)
  {
    assert Front(events + [event]) == events;
  }

  ghost predicate Fills(plc: P.Registers) { plc.inletValve == 1 || plc.tankLevel < 20 }

  /** `after` is `loop` after `n` scans that each raised the level by one. */
  ghost predicate Filled(loop: Loop, after: Loop, n: nat) {
    && after.plc.tankLevel == loop.plc.tankLevel + n && after.trace == loop.trace && after.age == loop.age + n
    && (after.plc.tankLevel <= 95 ==> Fills(after.plc))
  }

  lemma ScanFills(cfg: Config, loop: Loop, after: Loop, n: nat)
    requires Filled(loop, after, n) && after.plc.tankLevel <= 95
    ensures Filled(loop, Step(cfg, after, ScanCycle), n + 1)
  {
  }

  /** While the level stays at or below 95 each scan of a filling tank raises it by one. */
  lemma {:induction false} Filling(cfg: Config, events: seq<Event>, n: nat)
    requires AllAllowed(cfg, events)
    requires var plc := RunLoop(cfg, events).plc; Fills(plc) && plc.tankLevel + n <= 96
    ensures AllAllowed(cfg, events + Scans(n))
    ensures Filled(RunLoop(cfg, events), RunLoop(cfg, events + Scans(n)), n)
  {
    if n == 0 {
      assert events + Scans(0) == events;
    } else {
      hide RunLoop, Step, Fills;
      Filling(cfg, events, n - 1);
      var before := events + Scans(n - 1);
      assert events + Scans(n) == before + [ScanCycle];
      RunLoopStep(cfg, before, ScanCycle);
      ScanFills(cfg, RunLoop(cfg, events), RunLoop(cfg, before), n - 1);
    }
  }

  /** The run that misses: fill to 90, read, and scan six more times. */
  function MissingRun(dstIp: string, unitId: Byte): seq<Event> {
    Scans(90) + [Read(dstIp, 6, unitId)] + Scans(6)
  }

  /** With a read six scans old an open command at level 96, above the interlock, can go unnoticed. */
  lemma SixScansMiss(cfg: Config, dstIp: string, unitId: Byte, packet: Packet)
    requires SharesMap(cfg) && cfg.levelThreshold == 90
    ensures AllAllowed(cfg, MissingRun(dstIp, unitId))
    ensures var loop := RunLoop(cfg, MissingRun(dstIp, unitId));
      loop.age == 6 && loop.plc.tankLevel == 96 && !Alarms(cfg, loop.trace, packet)
  {
    hide RunLoop, LatestLevel, ValveCommand, SafetyMonitor.Run;
    MissingRunState(cfg, dstIp, unitId);
    AlertsExact(cfg, RunLoop(cfg, MissingRun(dstIp, unitId)).trace, packet);
  }

  lemma FilledToNinety(cfg: Config)
    ensures AllAllowed(cfg, Scans(90))
    ensures var full := RunLoop(cfg, Scans(90)); full.plc.tankLevel == 90 && Fills(full.plc)
  {
    assert RunLoop(cfg, []) == POWER_UP;
    Filling(cfg, [], 90);
    hide RunLoop, Scans;
    assert [] + Scans(90) == Scans(90);
  }

  lemma ReadAtNinety(cfg: Config, dstIp: string, unitId: Byte)
    requires SharesMap(cfg)
    ensures var events := Scans(90) + [Read(dstIp, 6, unitId)];
      && AllAllowed(cfg, events)
      && var loop := RunLoop(cfg, events);
        loop.plc.tankLevel == 90 && Fills(loop.plc) && loop.age == 0 && LatestLevel(cfg, loop.trace) == 90
  {
    FilledToNinety(cfg);
    var read := Read(dstIp, 6, unitId);
    hide RunLoop, Scans, LatestLevel, Answer;
    RunLoopStep(cfg, Scans(90), read);
    var full := RunLoop(cfg, Scans(90));
    AnswerTeachesLevel(cfg, full.plc, dstIp, 6, unitId, full.trace);
  }

  lemma MissingRunState(cfg: Config, dstIp: string, unitId: Byte)
    requires SharesMap(cfg)
    ensures AllAllowed(cfg, MissingRun(dstIp, unitId))
    ensures var loop := RunLoop(cfg, MissingRun(dstIp, unitId));
      loop.age == 6 && loop.plc.tankLevel == 96 && LatestLevel(cfg, loop.trace) == 90
  {
    hide RunLoop, Scans, LatestLevel, Fills, AllAllowed;
    ReadAtNinety(cfg, dstIp, unitId);
    Filling(cfg, Scans(90) + [Read(dstIp, 6, unitId)], 6);
  }
}
