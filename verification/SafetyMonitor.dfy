/** The physics-aware monitor: shadows the tank level from read responses and judges valve writes. */
module SafetyMonitor {
  import opened Common
  import opened Modbus

  datatype Config = Config(plcIp: string, inletValveReg: nat, tankLevelReg: nat, levelThreshold: int)

  /** `Other` is a packet without an IP or Raw layer. */
  datatype Packet = Other | Traffic(srcIp: string, dstIp: string, payload: seq<Byte>)

  datatype Alert = Alert(srcIp: string, level: nat)

  type Shadow = map<nat, nat>

  function InitialShadow(cfg: Config): Shadow {
    map[cfg.inletValveReg := 0, cfg.tankLevelReg := 0]
  }

  predicate Ignored(packet: Packet) {
    packet == Other || |packet.payload| < 8
  }

  // ---------- the two parts of the packet handler ----------

  /** The level a packet teaches, from the bytes that are there. */
  function Learned(cfg: Config, packet: Packet): Option<nat> {
    if Ignored(packet) then None
    else
      var payload := packet.payload;
      if packet.srcIp == cfg.plcIp && payload[MBAP_LEN] == READ_HOLDING && |payload| >= 9
         && payload[8] / 2 > cfg.tankLevelReg
      then
        var offset := MBAP_LEN + 2 + cfg.tankLevelReg * 2;
        Some(FromBytes(Slice(payload, offset, offset + 2)))
      else None
  }

  function AfterLearning(cfg: Config, shadow: Shadow, packet: Packet): Shadow {
    match Learned(cfg, packet)
    case None => shadow
    case Some(level) => shadow[cfg.tankLevelReg := level]
  }

  /** The writes to the PLC a packet carries. */
  function PlcWrites(cfg: Config, packet: Packet): seq<Write> {
    if Ignored(packet) || packet.dstIp != cfg.plcIp then []
    else Writes(packet.payload, packet.payload[MBAP_LEN])
  }

  function Level(cfg: Config, shadow: Shadow): nat {
    if cfg.tankLevelReg in shadow then shadow[cfg.tankLevelReg] else 0
  }

  function WriteAlerts(cfg: Config, shadow: Shadow, srcIp: string, write: Write): seq<Alert> {
    if write.register == cfg.inletValveReg && write.value == 1 && Level(cfg, shadow) > cfg.levelThreshold
    then [Alert(srcIp, Level(cfg, shadow))] else []
  }

  function AfterWrite(cfg: Config, shadow: Shadow, write: Write): Shadow {
    if write.register == cfg.inletValveReg then shadow[cfg.inletValveReg := write.value] else shadow
  }

  /** The shadow and the alerts after a list of writes. */
  function ApplyWrites(cfg: Config, shadow: Shadow, srcIp: string, writes: seq<Write>): (Shadow, seq<Alert>)
    decreases |writes|
  {
    if writes == [] then (shadow, [])
    else
      var (before, alerts) := ApplyWrites(cfg, shadow, srcIp, Front(writes));
      (AfterWrite(cfg, before, Last(writes)), alerts + WriteAlerts(cfg, before, srcIp, Last(writes)))
  }

  function Source(packet: Packet): string { if packet == Other then "" else packet.srcIp }

  function Process(cfg: Config, shadow: Shadow, packet: Packet): (Shadow, seq<Alert>) {
    ApplyWrites(cfg, AfterLearning(cfg, shadow, packet), Source(packet), PlcWrites(cfg, packet))
  }

  /** The shadow and all alerts after a packet sequence. */
  function Run(cfg: Config, trace: seq<Packet>): (Shadow, seq<Alert>)
    decreases |trace|
  {
    if trace == [] then (InitialShadow(cfg), [])
    else
      var (shadow, alerts) := Run(cfg, Front(trace));
      var (next, more) := Process(cfg, shadow, Last(trace));
      (next, alerts + more)
  }

  class Monitor {
    const cfg: Config
    var shadowRegisters: Shadow
    var alerts: seq<Alert>
    ghost var trace: seq<Packet>

    ghost predicate Valid()
      reads this
    {
      && (shadowRegisters, alerts) == Run(cfg, trace)
      && cfg.inletValveReg in shadowRegisters && cfg.tankLevelReg in shadowRegisters
    }

    constructor (cfg: Config)
      ensures Valid() && this.cfg == cfg && trace == []
    {
      this.cfg := cfg;
      shadowRegisters := map[cfg.inletValveReg := 0, cfg.tankLevelReg := 0];
      alerts, trace := [], [];
    }

    method ProcessPacket(packet: Packet)
      requires Valid()
      modifies this
      ensures Valid() && trace == old(trace) + [packet]
      ensures (shadowRegisters, alerts)
           == (Process(cfg, old(shadowRegisters), packet).0, old(alerts) + Process(cfg, old(shadowRegisters), packet).1)
    {
      hide Run, Writes, FromBytes;
      RunStep(cfg, trace, packet);
      trace := trace + [packet];
      assert alerts + [] == alerts;
      if packet == Other {
        return;
      }
      var payload := packet.payload;
      if |payload| < 8 {
        return;
      }
      var funcCode := payload[MBAP_LEN];
      ghost var before, earlier := shadowRegisters, alerts;
      if packet.srcIp == cfg.plcIp && funcCode == READ_HOLDING && |payload| >= 9 {
        var registerCount := payload[8] / 2;
        if registerCount > cfg.tankLevelReg {
          var offset := MBAP_LEN + 2 + cfg.tankLevelReg * 2;
          shadowRegisters := shadowRegisters[cfg.tankLevelReg := FromBytes(Slice(payload, offset, offset + 2))];
        }
      }
      assert shadowRegisters == AfterLearning(cfg, before, packet);
      if packet.dstIp == cfg.plcIp && funcCode in {WRITE_SINGLE, WRITE_MULTIPLE} {
        EnforceWrites(packet.srcIp, payload, funcCode);
      } else {
        NoWrites(payload, funcCode);
      }
    }

    method EnforceWrites(srcIp: string, payload: seq<Byte>, funcCode: Byte)
      requires cfg.inletValveReg in shadowRegisters && cfg.tankLevelReg in shadowRegisters
      modifies this`shadowRegisters, this`alerts
      ensures cfg.inletValveReg in shadowRegisters && cfg.tankLevelReg in shadowRegisters
      ensures shadowRegisters == ApplyWrites(cfg, old(shadowRegisters), srcIp, Writes(payload, funcCode)).0
      ensures alerts == old(alerts) + ApplyWrites(cfg, old(shadowRegisters), srcIp, Writes(payload, funcCode)).1
    {
      hide Writes;
      var writes := IterWrites(payload, funcCode);
      for i := 0 to |writes|
        invariant cfg.inletValveReg in shadowRegisters && cfg.tankLevelReg in shadowRegisters
        invariant shadowRegisters == ApplyWrites(cfg, old(shadowRegisters), srcIp, writes[..i]).0
        invariant alerts == old(alerts) + ApplyWrites(cfg, old(shadowRegisters), srcIp, writes[..i]).1
      {
        var write := writes[i];
        assert Front(writes[..i + 1]) == writes[..i];
        if write.register != cfg.inletValveReg {
          continue;
        }
        if write.value == 1 {
          var currentLevel := shadowRegisters[cfg.tankLevelReg];
          if currentLevel > cfg.levelThreshold {
            alerts := alerts + [Alert(srcIp, currentLevel)];
          }
        }
        shadowRegisters := shadowRegisters[cfg.inletValveReg := write.value];
      }
      assert writes[..|writes|] == writes;
    }
  }

  lemma RunStep(cfg: Config, trace: seq<Packet>, packet: Packet)
    ensures var (shadow, alerts) := Run(cfg, trace); var (next, more) := Process(cfg, shadow, packet);
      Run(cfg, trace + [packet]) == (next, alerts + more)
  {
    assert Front(trace + [packet]) == trace;
  }

  lemma NoWrites(payload: seq<Byte>, funcCode: Byte)
    ensures funcCode !in {WRITE_SINGLE, WRITE_MULTIPLE} ==> Writes(payload, funcCode) == []
  {
  }

  // ---------- the trace specification ----------

  /** The level the latest read response carried, or 0 before any. */
  function LatestLevel(cfg: Config, trace: seq<Packet>): nat
    decreases |trace|
  {
    if trace == [] then 0
    else match Learned(cfg, Last(trace))
      case Some(level) => level
      case None => LatestLevel(cfg, Front(trace))
  }

  /** Read off the bytes: the value a packet writes to the inlet valve register of the PLC, if any. */
  function ValveCommand(cfg: Config, packet: Packet): Option<Register> {
    if Ignored(packet) || packet.dstIp != cfg.plcIp then None
    else
      var payload := packet.payload;
      if payload[MBAP_LEN] == WRITE_SINGLE && |payload| >= 12 then
        if WordAt(payload, 8) == cfg.inletValveReg then Some(WordAt(payload, 10)) else None
      else if payload[MBAP_LEN] == WRITE_MULTIPLE && |payload| >= 13 then
        var start := WordAt(payload, 8);
        if start <= cfg.inletValveReg < start + WriteCount(payload)
        then ValveWord(payload, cfg.inletValveReg - start)
        else None
      else None
  }

  function ValveWord(payload: seq<Byte>, i: nat): Option<Register>
    requires |payload| >= 13 && i < WriteCount(payload)
  {
    WriteBounds(payload, i);
    Some(WordAt(payload, 13 + 2 * i))
  }

  /** The last value written to the inlet valve, or 0 before any. */
  function LatestValve(cfg: Config, trace: seq<Packet>): nat
    decreases |trace|
  {
    if trace == [] then 0
    else match ValveCommand(cfg, Last(trace))
      case Some(value) => value
      case None => LatestValve(cfg, Front(trace))
  }

  /** No register occurs twice among the writes. */
  ghost predicate DistinctRegisters(writes: seq<Write>) {
    forall i, j :: 0 <= i < j < |writes| ==> writes[i].register != writes[j].register
  }

  lemma WritesDistinct(payload: seq<Byte>, funcCode: Byte)
    ensures DistinctRegisters(Writes(payload, funcCode))
  {
    if funcCode == WRITE_MULTIPLE && |payload| >= 13 {
      ParseAnyMultipleWrite(payload);
    }
  }

  lemma {:induction false} UntouchedValve(cfg: Config, shadow: Shadow, srcIp: string, writes: seq<Write>)
    requires forall i :: 0 <= i < |writes| ==> writes[i].register != cfg.inletValveReg
    ensures ApplyWrites(cfg, shadow, srcIp, writes) == (shadow, [])
    decreases |writes|
  {
    if writes != [] {
      UntouchedValve(cfg, shadow, srcIp, Front(writes));
      var last := Last(writes);
      assert last.register != cfg.inletValveReg;
      var none: seq<Alert> := [];
      assert none + WriteAlerts(cfg, shadow, srcIp, last) == none;
    }
  }

  /** Of distinct writes only the one at position `k`, to the valve, has an effect. */
  lemma {:induction false} SingleValveWrite(cfg: Config, shadow: Shadow, srcIp: string, writes: seq<Write>, k: nat)
    requires DistinctRegisters(writes) && k < |writes| && writes[k].register == cfg.inletValveReg
    ensures ApplyWrites(cfg, shadow, srcIp, writes)
         == (shadow[cfg.inletValveReg := writes[k].value], WriteAlerts(cfg, shadow, srcIp, writes[k]))
    decreases |writes|
  {
    if k == |writes| - 1 {
      UntouchedValve(cfg, shadow, srcIp, Front(writes));
      var alerts := WriteAlerts(cfg, shadow, srcIp, writes[k]);
      assert [] + alerts == alerts;
    } else {
      SingleValveWrite(cfg, shadow, srcIp, Front(writes), k);
      assert Last(writes).register != writes[k].register;
      var alerts := WriteAlerts(cfg, shadow, srcIp, writes[k]);
      assert alerts + [] == alerts;
    }
  }

  /** The parsed writes touch the valve exactly as the bytes command. */
  lemma ValveCommandParsed(cfg: Config, packet: Packet)
    ensures match ValveCommand(cfg, packet)
            case None =>
              forall i :: 0 <= i < |PlcWrites(cfg, packet)| ==> PlcWrites(cfg, packet)[i].register != cfg.inletValveReg
            case Some(value) => Write(cfg.inletValveReg, value) in PlcWrites(cfg, packet)
  {
    var writes := PlcWrites(cfg, packet);
    if !Ignored(packet) && packet.dstIp == cfg.plcIp
       && packet.payload[MBAP_LEN] == WRITE_MULTIPLE && |packet.payload| >= 13 {
      ParseAnyMultipleWrite(packet.payload);
      var start := WordAt(packet.payload, 8);
      if start <= cfg.inletValveReg < start + WriteCount(packet.payload) {
        assert writes[cfg.inletValveReg - start] == WriteNumber(packet.payload, cfg.inletValveReg - start);
      }
    }
  }

  /** One packet: at most one alert, exactly for an opening command above the threshold. */
  lemma ProcessExactly(cfg: Config, shadow: Shadow, packet: Packet)
    requires cfg.tankLevelReg in shadow
    ensures var learned := AfterLearning(cfg, shadow, packet);
      && Process(cfg, shadow, packet).0
         == (match ValveCommand(cfg, packet)
             case None => learned
             case Some(value) => learned[cfg.inletValveReg := value])
      && Process(cfg, shadow, packet).1
         == if ValveCommand(cfg, packet) == Some(1) && Level(cfg, learned) > cfg.levelThreshold
            then [Alert(Source(packet), Level(cfg, learned))] else []
  {
    hide Writes, ValveCommand, AfterLearning;
    var writes, learned := PlcWrites(cfg, packet), AfterLearning(cfg, shadow, packet);
    ValveCommandParsed(cfg, packet);
    assert DistinctRegisters(writes) by {
      if !Ignored(packet) {
        WritesDistinct(packet.payload, packet.payload[MBAP_LEN]);
      }
    }
    match ValveCommand(cfg, packet)
    case None => UntouchedValve(cfg, learned, Source(packet), writes);
    case Some(value) =>
      var k :| 0 <= k < |writes| && writes[k] == Write(cfg.inletValveReg, value);
      SingleValveWrite(cfg, learned, Source(packet), writes, k);
  }

  /** Over every packet sequence the shadow holds the latest level and the latest valve command. */
  lemma {:induction false} ShadowExact(cfg: Config, trace: seq<Packet>)
    requires cfg.inletValveReg != cfg.tankLevelReg
    ensures Run(cfg, trace).0
         == map[cfg.inletValveReg := LatestValve(cfg, trace), cfg.tankLevelReg := LatestLevel(cfg, trace)]
    decreases |trace|
  {
    if trace != [] {
      hide Process, Learned, ValveCommand;
      ShadowExact(cfg, Front(trace));
      ProcessExactly(cfg, Run(cfg, Front(trace)).0, Last(trace));
    }
  }

  /**
   * Over every packet sequence a packet alerts exactly when it writes 1 to the inlet valve
   * while the latest level exceeds the threshold, and then exactly once.
   */
  lemma AlertsExact(cfg: Config, trace: seq<Packet>, packet: Packet)
    requires cfg.inletValveReg != cfg.tankLevelReg
    ensures var level := LatestLevel(cfg, trace);
      var opens := ValveCommand(cfg, packet) == Some(1);
      Run(cfg, trace + [packet]).1
      == Run(cfg, trace).1 + if opens && level > cfg.levelThreshold then [Alert(Source(packet), level)] else []
  {
    CommandTeachesNothing(cfg, packet);
    hide Run, LatestLevel, LatestValve, Process, Learned, ValveCommand;
    RunStep(cfg, trace, packet);
    ShadowExact(cfg, trace);
    ProcessExactly(cfg, Run(cfg, trace).0, packet);
  }

  lemma CommandTeachesNothing(cfg: Config, packet: Packet)
    ensures ValveCommand(cfg, packet).Some? ==> Learned(cfg, packet) == None
  {
  }

  // ---------- which packets teach and which alert, from the bytes ----------

  /** The big-endian word at `offset`, or what is left of it. */
  function WordLeft(payload: seq<Byte>, offset: nat): nat {
    if offset + 2 <= |payload| then 256 * (payload[offset] as int) + (payload[offset + 1] as int)
    else if offset + 1 == |payload| then payload[offset]
    else 0
  }

  lemma SliceIsWordLeft(payload: seq<Byte>, offset: nat)
    ensures FromBytes(Slice(payload, offset, offset + 2)) == WordLeft(payload, offset)
  {
    if offset + 2 <= |payload| {
      SliceIsWord(payload, offset);
    } else if offset + 1 == |payload| {
      assert Slice(payload, offset, offset + 2) == [payload[offset]];
      OneByte(payload[offset]);
    } else {
      assert Slice(payload, offset, offset + 2) == [];
      NoBytes();
    }
  }

  /**
   * Over every packet sequence a packet sets the shadow level exactly when the PLC sent it, its
   * function code is 3, and its byte count covers the level register; otherwise the level stays.
   */
  lemma TeachesExactly(cfg: Config, trace: seq<Packet>, packet: Packet)
    requires cfg.inletValveReg != cfg.tankLevelReg
    ensures var (before, after) := (Run(cfg, trace).0, Run(cfg, trace + [packet]).0);
      && cfg.tankLevelReg in before && cfg.tankLevelReg in after
      && after[cfg.tankLevelReg]
         == if packet.Traffic? && packet.srcIp == cfg.plcIp && |packet.payload| >= 9
               && packet.payload[7] == 3 && packet.payload[8] >= 2 * (cfg.tankLevelReg + 1)
            then WordLeft(packet.payload, 9 + 2 * cfg.tankLevelReg)
            else before[cfg.tankLevelReg]
  {
    ShadowExact(cfg, trace);
    ShadowExact(cfg, trace + [packet]);
    LearnedBytes(cfg, packet);
    LatestLevelStep(cfg, trace, packet);
    hide Run, Learned, LatestLevel, LatestValve, WordLeft;
  }

  lemma LearnedBytes(cfg: Config, packet: Packet)
    ensures Learned(cfg, packet)
         == if packet.Traffic? && packet.srcIp == cfg.plcIp && |packet.payload| >= 9
               && packet.payload[7] == 3 && packet.payload[8] >= 2 * (cfg.tankLevelReg + 1)
            then Some(WordLeft(packet.payload, 9 + 2 * cfg.tankLevelReg)) else None
  {
    hide FromBytes, Slice, WordLeft;
    if packet.Traffic? {
      SliceIsWordLeft(packet.payload, 9 + 2 * cfg.tankLevelReg);
    }
  }

  lemma LatestLevelStep(cfg: Config, trace: seq<Packet>, packet: Packet)
    ensures LatestLevel(cfg, trace + [packet])
         == if Learned(cfg, packet).Some? then Learned(cfg, packet).value else LatestLevel(cfg, trace)
  {
    hide Learned;
    assert Front(trace + [packet]) == trace;
  }

  /** A response with too few registers, or of any other function, leaves the level as it was. */
  lemma ShortReadKeepsLevel(cfg: Config, trace: seq<Packet>, dst: string, values: seq<Register>, unitId: Byte)
    requires |values| <= cfg.tankLevelReg && |values| <= 127
    ensures ReadResponse(values, unitId).Some?
    ensures LatestLevel(cfg, trace + [Traffic(cfg.plcIp, dst, ReadResponse(values, unitId).value)])
         == LatestLevel(cfg, trace)
  {
    ReadResponseLayout(values, unitId);
    var packet := Traffic(cfg.plcIp, dst, ReadResponse(values, unitId).value);
    hide ReadResponse, Learned, LatestLevel, WordLeft;
    LearnedBytes(cfg, packet);
    LatestLevelStep(cfg, trace, packet);
  }

  lemma OtherFunctionKeepsLevel(cfg: Config, trace: seq<Packet>, packet: Packet)
    requires packet.Traffic? && |packet.payload| >= 8 && packet.payload[7] != 3
    ensures LatestLevel(cfg, trace + [packet]) == LatestLevel(cfg, trace)
  {
    hide Learned, LatestLevel, WordLeft;
    LearnedBytes(cfg, packet);
    LatestLevelStep(cfg, trace, packet);
  }

  /** A built write of one register alerts exactly if it opens the inlet valve above the threshold. */
  lemma BuiltWriteAlerts(
    cfg: Config, trace: seq<Packet>, src: string, register: Register, value: Register, unitId: Byte)
    requires cfg.inletValveReg != cfg.tankLevelReg
    ensures var packet := Traffic(src, cfg.plcIp, SingleWrite(register, value, unitId));
      Run(cfg, trace + [packet]).1
      == Run(cfg, trace).1
         + if register == cfg.inletValveReg && value == 1 && LatestLevel(cfg, trace) > cfg.levelThreshold
           then [Alert(src, LatestLevel(cfg, trace))] else []
  {
    var packet := Traffic(src, cfg.plcIp, SingleWrite(register, value, unitId));
    BuiltOctets(register, value, [], unitId);
    assert ValveCommand(cfg, packet) == if register == cfg.inletValveReg then Some(value) else None;
    hide Run, LatestLevel, SingleWrite, ValveCommand;
    AlertsExact(cfg, trace, packet);
  }

  /** A built write of several registers alerts exactly if it covers the inlet valve with the value 1. */
  lemma BuiltMultipleWriteAlerts(
    cfg: Config, trace: seq<Packet>, src: string, start: Register, values: seq<Register>, unitId: Byte)
    requires cfg.inletValveReg != cfg.tankLevelReg && |values| <= 127
    ensures MultipleWrite(start, values, unitId).Some?
    ensures var packet := Traffic(src, cfg.plcIp, MultipleWrite(start, values, unitId).value);
      Run(cfg, trace + [packet]).1
      == Run(cfg, trace).1
         + if start <= cfg.inletValveReg < start + |values| && values[cfg.inletValveReg - start] == 1
              && LatestLevel(cfg, trace) > cfg.levelThreshold
           then [Alert(src, LatestLevel(cfg, trace))] else []
  {
    MultipleWriteLayout(start, values, unitId);
    var packet := Traffic(src, cfg.plcIp, MultipleWrite(start, values, unitId).value);
    BuiltValveCommand(cfg, src, start, values, unitId);
    hide Run, LatestLevel, MultipleWrite, ValveCommand;
    AlertsExact(cfg, trace, packet);
  }

  lemma BuiltValveCommand(
    cfg: Config, src: string, start: Register, values: seq<Register>, unitId: Byte)
    requires |values| <= 127
    ensures MultipleWrite(start, values, unitId).Some?
    ensures ValveCommand(cfg, Traffic(src, cfg.plcIp, MultipleWrite(start, values, unitId).value))
         == if start <= cfg.inletValveReg < start + |values| then Some(values[cfg.inletValveReg - start]) else None
  {
    MultipleWriteLayout(start, values, unitId);
    hide MultipleWrite;
    var payload := MultipleWrite(start, values, unitId).value;
    if start <= cfg.inletValveReg < start + |values| {
      var i := cfg.inletValveReg - start;
      DataAt(values, i);
      assert payload[13 + 2 * i] == payload[13..][2 * i] && payload[13 + 2 * i + 1] == payload[13..][2 * i + 1];
    }
  }

  /** Traffic that the PLC neither sent nor receives changes nothing. */
  lemma BystanderIgnored(cfg: Config, trace: seq<Packet>, packet: Packet)
    requires packet.Traffic? ==> packet.srcIp != cfg.plcIp && packet.dstIp != cfg.plcIp
    ensures Run(cfg, trace + [packet]) == Run(cfg, trace)
  {
    hide Writes;
    RunStep(cfg, trace, packet);
    var alerts := Run(cfg, trace).1;
    assert alerts + [] == alerts;
  }

  // ---------- truncated read responses ----------

  /** What the first `n` bytes of a read response teach. */
  lemma LearnedFromPrefix(cfg: Config, src: string, dst: string, values: seq<Register>, unitId: Byte, n: nat)
    requires src == cfg.plcIp && cfg.tankLevelReg < |values| <= 127 && 9 <= n <= 9 + 2 * |values|
    ensures ReadResponse(values, unitId).Some? && |ReadResponse(values, unitId).value| == 9 + 2 * |values|
    ensures var offset := 9 + 2 * cfg.tankLevelReg; var prefix := ReadResponse(values, unitId).value[..n];
      Learned(cfg, Traffic(src, dst, prefix)) == Some(FromBytes(Slice(prefix, offset, offset + 2)))
  {
    ReadResponseLayout(values, unitId);
    hide ReadResponse, FromBytes, Slice;
    var prefix := ReadResponse(values, unitId).value[..n];
    assert prefix[MBAP_LEN] == READ_HOLDING && prefix[8] == 2 * |values|;
  }

  /** A complete response teaches the register's value. */
  lemma LearnedIsRegister(cfg: Config, src: string, dst: string, values: seq<Register>, unitId: Byte)
    requires src == cfg.plcIp && cfg.tankLevelReg < |values| <= 127
    ensures ReadResponse(values, unitId).Some?
    ensures Learned(cfg, Traffic(src, dst, ReadResponse(values, unitId).value)) == Some(values[cfg.tankLevelReg])
  {
    var n := 9 + 2 * |values|;
    TruncatedExactly(cfg, src, dst, values, unitId, n);
    assert ReadResponse(values, unitId).value[..n] == ReadResponse(values, unitId).value;
  }

  /** A response cut after its byte count teaches a level: the right one exactly if the word is complete or zero. */
  lemma TruncatedExactly(cfg: Config, src: string, dst: string, values: seq<Register>, unitId: Byte, n: nat)
    requires src == cfg.plcIp && cfg.tankLevelReg < |values| <= 127 && 9 <= n <= 9 + 2 * |values|
    ensures ReadResponse(values, unitId).Some? && |ReadResponse(values, unitId).value| == 9 + 2 * |values|
    ensures Learned(cfg, Traffic(src, dst, ReadResponse(values, unitId).value[..n])) == Some(values[cfg.tankLevelReg])
       <==> n >= 9 + 2 * cfg.tankLevelReg + 2 || values[cfg.tankLevelReg] == 0
  {
    LearnedFromPrefix(cfg, src, dst, values, unitId, n);
    ReadResponseWord(values, unitId, cfg.tankLevelReg);
    hide ReadResponse, FromBytes, Learned;
    var payload, offset := ReadResponse(values, unitId).value, 9 + 2 * cfg.tankLevelReg;
    if n >= offset + 2 {
      SliceIsWord(payload[..n], offset);
    } else if n == offset + 1 {
      assert Slice(payload[..n], offset, offset + 2) == [payload[offset]];
      OneByte(payload[offset]);
    } else {
      assert Slice(payload[..n], offset, offset + 2) == [];
      NoBytes();
    }
  }

  lemma OneByte(byte: Byte)
    ensures FromBytes([byte]) == byte
  {
    assert [byte][..0] == [];
  }

  lemma NoBytes()
    ensures FromBytes([]) == 0
  {
  }
}
