/** The stand-in's Modbus server: the process model is copied to the served registers, never back. */
module StandInServer {
  import opened ProcessModel
  import P = IntakeProgram

  const REGISTER_COUNT := 16

  type Word = x: int | 0 <= x < 0x1_0000

  /** The value of a model register as served. */
  function Serve(value: int): Word { value % 0x1_0000 }

  /** The model and the served holding registers. */
  datatype State = State(model: IntakeState, block: seq<Word>)

  const ZEROES: seq<Word> := [0, 0, 0, 0, 0, 0, 0, 0, 0, 0, 0, 0, 0, 0, 0, 0]

  const INITIAL := State(POWER_UP, ZEROES)

  /** One round of the updater. */
  function Publish(s: IntakeState, block: seq<Word>): seq<Word>
    requires |block| == REGISTER_COUNT
  {
    block[0 := Serve(s.valve)][1 := Serve(s.pump)][5 := Serve(s.level)][6 := Serve(s.alarm)]
  }

  class Server {
    const model: Model
    var block: seq<Word>

    ghost predicate Valid()
      reads this, model
    {
      model.Valid() && model.asset == Intake && |block| == REGISTER_COUNT
    }

    ghost function Image(): State
      reads this, model
      requires Valid()
    {
      State(model.IntakeImage(), block)
    }

    constructor ()
      ensures Valid() && fresh(model) && Image() == INITIAL
    {
      var processModel := new Model(Intake);
      model := processModel;
      block := ZEROES;
    }

    method UpdateOnce()
      requires Valid()
      modifies this, model
      ensures Valid() && Image() == Apply(old(Image()), Update)
    {
      hide StepIntake, StepTreatment;
      ghost var before := block;
      model.Step();
      ghost var registers := model.registers;
      for offset := 0 to REGISTER_COUNT
        invariant model.registers == registers && |block| == REGISTER_COUNT
        invariant forall i :: 0 <= i < REGISTER_COUNT ==>
          block[i] == if i < offset && i in model.registers then Serve(model.registers[i]) else before[i]
      {
        if offset in model.registers {
          block := block[offset := Serve(model.registers[offset])];
        }
      }
      PublishAt(model.IntakeImage(), before, block);
    }

    method WriteRegister(offset: nat, value: Word)
      requires Valid() && offset < REGISTER_COUNT
      modifies this
      ensures Valid() && Image() == Apply(old(Image()), ClientWrite(offset, value))
    {
      block := block[offset := value];
    }
  }

  lemma PublishAt(s: IntakeState, before: seq<Word>, block: seq<Word>)
    requires |before| == |block| == REGISTER_COUNT
    requires forall i :: 0 <= i < REGISTER_COUNT ==>
      block[i] == if i == 0 then Serve(s.valve) else if i == 1 then Serve(s.pump)
                  else if i == 5 then Serve(s.level) else if i == 6 then Serve(s.alarm) else before[i]
    ensures block == Publish(s, before)
  {
  }

  datatype Event = Update | ClientWrite(offset: nat, value: Word)

  function Apply(s: State, event: Event): State
    requires |s.block| == REGISTER_COUNT
    requires event.ClientWrite? ==> event.offset < REGISTER_COUNT
  {
    match event
    case Update => var next := StepIntake(s.model); State(next, Publish(next, s.block))
    case ClientWrite(offset, value) => s.(block := s.block[offset := value])
  }

  ghost predicate InRange(events: seq<Event>) {
    forall i :: 0 <= i < |events| ==> events[i].ClientWrite? ==> events[i].offset < REGISTER_COUNT
  }

  function Run(events: seq<Event>): (s: State)
    requires InRange(events)
    ensures |s.block| == REGISTER_COUNT
    decreases |events|
  {
    if events == [] then INITIAL else Apply(Run(events[..|events| - 1]), events[|events| - 1])
  }

  function Updates(events: seq<Event>): nat
    decreases |events|
  {
    if events == [] then 0 else Updates(events[..|events| - 1]) + if events[|events| - 1].Update? then 1 else 0
  }

  /** In every run, whatever clients write, the model is where its own steps have taken it. */
  lemma {:induction false} ClientWritesIgnored(events: seq<Event>)
    requires InRange(events)
    ensures Run(events).model == RunIntake(POWER_UP, Updates(events))
    decreases |events|
  {
    if events != [] {
      hide StepIntake, RunIntake;
      var front := events[..|events| - 1];
      ClientWritesIgnored(front);
      RunIntakeStep(POWER_UP, Updates(front));
    }
  }

  /** The next update overwrites every client write to a model register with the model's value. */
  lemma UpdateOverwrites(events: seq<Event>)
    requires InRange(events)
    ensures InRange(events + [Update])
    ensures var block := Run(events + [Update]).block; var s := RunIntake(POWER_UP, Updates(events) + 1);
      block[0] == s.valve && block[1] == s.pump && block[5] == s.level && block[6] == s.alarm
  {
    hide Run, RunIntake, StepIntake;
    var longer := events + [Update];
    assert longer[..|longer| - 1] == events;
    ClientWritesIgnored(longer);
    ServedRange(Updates(events) + 1);
    LastUpdate(events);
  }

  /** What clients last wrote to a register since it was last overwritten, or 0. */
  function LastWritten(events: seq<Event>, offset: nat): Word
    decreases |events|
  {
    if events == [] then 0
    else
      var last := events[|events| - 1];
      if last.ClientWrite? && last.offset == offset then last.value
      else LastWritten(events[..|events| - 1], offset)
  }

  /** A client reads back its write until the next round. */
  lemma WriteServedBack(events: seq<Event>, offset: nat, value: Word)
    requires InRange(events) && offset < REGISTER_COUNT
    ensures InRange(events + [ClientWrite(offset, value)])
    ensures var block := Run(events + [ClientWrite(offset, value)]).block;
      && block[offset] == value
      && forall other :: 0 <= other < REGISTER_COUNT && other != offset ==> block[other] == Run(events).block[other]
  {
    hide StepIntake;
    assert (events + [ClientWrite(offset, value)])[..|events|] == events;
  }

  /** Over every run a register the process does not use serves the last client write, through all rounds. */
  lemma {:induction false} UnusedRegistersKept(events: seq<Event>, offset: nat)
    requires InRange(events) && offset < REGISTER_COUNT && offset !in {0, 1, 5, 6}
    ensures Run(events).block[offset] == LastWritten(events, offset)
    decreases |events|
  {
    if events != [] {
      hide StepIntake;
      UnusedRegistersKept(events[..|events| - 1], offset);
    }
  }

  /**
   * A client that opens or shuts the valve on both controllers: whatever was written to the
   * stand-in before, the controllers match after the next scan and update exactly if the level
   * is low enough to open the valve anyway, the write changed nothing, or the interlock shuts.
   */
  lemma ServedWriteMatchesExactly(events: seq<Event>, r: P.Registers, value: P.UInt)
    requires InRange(events) && Matches(r, Run(events).model)
    ensures InRange(events + [ClientWrite(0, value), Update])
    ensures var s := RunIntake(POWER_UP, Updates(events));
      Matches(P.Scan(r.(inletValve := value)), Run(events + [ClientWrite(0, value), Update]).model)
      <==> s.level < 20 || value == s.valve || (value != 1 && s.valve != 1 && s.level > 96)
  {
    hide Run, RunIntake, StepIntake, P.Scan, Matches, Updates;
    var written := events + [ClientWrite(0, value)];
    ClientWritesIgnored(events);
    WrittenOnce(events, value);
    LastUpdate(written);
    assert written + [Update] == events + [ClientWrite(0, value), Update];
    ServedRange(Updates(events));
    MatchedLevel(r, Run(events).model);
    WriteKeepsMatchExactly(r, Run(events).model, value);
  }

  lemma MatchedLevel(r: P.Registers, s: IntakeState)
    requires Matches(r, s)
    ensures r.tankLevel == s.level
  {
  }

  lemma WrittenOnce(events: seq<Event>, value: Word)
    requires InRange(events)
    ensures InRange(events + [ClientWrite(0, value)])
    ensures Run(events + [ClientWrite(0, value)]).model == Run(events).model
  {
    assert (events + [ClientWrite(0, value)])[..|events|] == events;
  }

  lemma LastUpdate(events: seq<Event>)
    requires InRange(events) && InRange(events + [Update])
    ensures Run(events + [Update]) == Apply(Run(events), Update)
    ensures Updates(events + [Update]) == Updates(events) + 1
  {
    assert (events + [Update])[..|events|] == events;
  }

  /** From power-up the model's registers fit in 16 bits. */
  lemma {:induction false} ServedRange(n: nat)
    ensures var s := RunIntake(POWER_UP, n);
      0 <= s.valve <= 1 && 0 <= s.pump <= 60 && 0 <= s.level <= 100 && 0 <= s.alarm <= 1
  {
    if n > 0 {
      hide RunIntake;
      ServedRange(n - 1);
      RunIntakeStep(POWER_UP, n - 1);
    }
  }
}
