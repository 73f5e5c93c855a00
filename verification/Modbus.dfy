/** Modbus/TCP payloads: the write-PDU parser of the safety monitor and the builders it is read against. */
module Modbus {
  import opened Common

  type Byte = x: int | 0 <= x < 0x100
  type Register = x: int | 0 <= x < 0x1_0000

  const MBAP_LEN := 7
  const WRITE_SINGLE: Byte := 6
  const WRITE_MULTIPLE: Byte := 16
  const READ_HOLDING: Byte := 3

  /** Big-endian value of all the bytes, however many there are. */
  function FromBytes(bytes: seq<Byte>): nat {
    if bytes == [] then 0 else 0x100 * FromBytes(bytes[..|bytes| - 1]) + (bytes[|bytes| - 1] as int)
  }

  /** A slice clamped to the payload, as Python's are. */
  function Slice(payload: seq<Byte>, from: nat, to: nat): seq<Byte>
    requires from <= to
  {
    if to <= |payload| then payload[from..to] else if from <= |payload| then payload[from..] else []
  }

  /** The big-endian word at an offset. */
  function WordAt(payload: seq<Byte>, offset: nat): (word: nat)
    requires offset + 2 <= |payload|
    ensures word < 0x1_0000
  {
    0x100 * (payload[offset] as int) + (payload[offset + 1] as int)
  }

  lemma SliceIsWord(payload: seq<Byte>, offset: nat)
    requires offset + 2 <= |payload|
    ensures FromBytes(Slice(payload, offset, offset + 2)) == WordAt(payload, offset)
  {
    var two := Slice(payload, offset, offset + 2);
    assert two[..1][..0] == [];
    assert FromBytes(two[..1]) == two[0];
    assert FromBytes(two) == 0x100 * FromBytes(two[..1]) + two[1] as int;
  }

  // ---------- the write parser ----------

  datatype Write = Write(register: nat, value: nat)

  /** How many registers a multiple-write payload really carries. */
  function WriteCount(payload: seq<Byte>): nat
    requires |payload| >= 13
  {
    Min(Min(WordAt(payload, 10), payload[12] / 2), (|payload| - 13) / 2)
  }

  lemma WriteBounds(payload: seq<Byte>, i: nat)
    requires |payload| >= 13 && i < WriteCount(payload)
    ensures 13 + 2 * i + 2 <= |payload|
  {
  }

  function WriteNumber(payload: seq<Byte>, i: nat): Write
    requires |payload| >= 13 && i < WriteCount(payload)
  {
    WriteBounds(payload, i);
    Write(WordAt(payload, 8) + i, WordAt(payload, 13 + 2 * i))
  }

  /** The register writes a payload asks for, in order. */
  function Writes(payload: seq<Byte>, funcCode: Byte): seq<Write> {
    if funcCode == WRITE_SINGLE && |payload| >= 12 then [Write(WordAt(payload, 8), WordAt(payload, 10))]
    else if funcCode == WRITE_MULTIPLE && |payload| >= 13 then
      seq(WriteCount(payload), i requires 0 <= i < WriteCount(payload) => WriteNumber(payload, i))
    else []
  }

  method IterWrites(payload: seq<Byte>, funcCode: Byte) returns (writes: seq<Write>)
    ensures writes == Writes(payload, funcCode)
  {
    writes := [];
    if funcCode == WRITE_SINGLE && |payload| >= 12 {
      SliceIsWord(payload, 8);
      SliceIsWord(payload, 10);
      writes := [Write(FromBytes(Slice(payload, 8, 10)), FromBytes(Slice(payload, 10, 12)))];
    } else if funcCode == WRITE_MULTIPLE && |payload| >= 13 {
      SliceIsWord(payload, 8);
      SliceIsWord(payload, 10);
      hide FromBytes;
      var start, quantity := FromBytes(Slice(payload, 8, 10)), FromBytes(Slice(payload, 10, 12));
      var available := payload[12] / 2;
      for index := 0 to Min(quantity, available)
        invariant index <= WriteCount(payload) && |writes| == index
        invariant forall i :: 0 <= i < index ==> writes[i] == WriteNumber(payload, i)
      {
        var offset := 13 + index * 2;
        if offset + 2 > |payload| {
          break;
        }
        SliceIsWord(payload, offset);
        writes := writes + [Write(start + index, FromBytes(Slice(payload, offset, offset + 2)))];
      }
    }
  }

  // ---------- builders ----------

  function Big(word: Register): seq<Byte> { [word / 0x100, word % 0x100] }

  /** The registers as consecutive big-endian words. */
  function Data(values: seq<Register>): (bytes: seq<Byte>)
    ensures |bytes| == 2 * |values|
  {
    if values == [] then [] else Data(values[..|values| - 1]) + Big(values[|values| - 1])
  }

  lemma {:induction false} DataAt(values: seq<Register>, i: nat)
    requires i < |values|
    ensures Data(values)[2 * i] == values[i] / 0x100 && Data(values)[2 * i + 1] == values[i] % 0x100
  {
    if i < |values| - 1 {
      DataAt(values[..|values| - 1], i);
    }
  }

  /** Transaction 1, protocol 0, the length of what follows, and the unit. */
  function Mbap(pduLength: nat, unitId: Byte): (header: seq<Byte>)
    requires pduLength < 0xFFFF
    ensures |header| == MBAP_LEN
  {
    [0, 1, 0, 0] + Big(pduLength + 1) + [unitId]
  }

  /** A write-single request. */
  function SingleWrite(register: Register, value: Register, unitId: Byte): seq<Byte> {
    Mbap(5, unitId) + [WRITE_SINGLE] + Big(register) + Big(value)
  }

  /** A write-multiple request; `None` is the byte count that does not fit in a byte. */
  function MultipleWrite(start: Register, values: seq<Register>, unitId: Byte): Option<seq<Byte>> {
    if 2 * |values| > 255 then None
    else
      Some(Mbap(6 + 2 * |values|, unitId)
           + [WRITE_MULTIPLE] + Big(start) + Big(|values|) + [2 * |values|] + Data(values))
  }

  /** A read response carrying the holding registers from 0 on. */
  function ReadResponse(values: seq<Register>, unitId: Byte): Option<seq<Byte>> {
    if 2 * |values| > 255 then None
    else Some(Mbap(2 + 2 * |values|, unitId) + [READ_HOLDING, 2 * |values|] + Data(values))
  }

  /** The built payloads octet by octet. */
  lemma BuiltOctets(register: Register, value: Register, values: seq<Register>, unitId: Byte)
    ensures SingleWrite(register, value, unitId)
         == [0, 1, 0, 0, 0, 6, unitId, 6, register / 256, register % 256, value / 256, value % 256]
    ensures |values| <= 123 ==>
              && MultipleWrite(register, values, unitId).Some?
              && MultipleWrite(register, values, unitId).value[..13]
                 == [0, 1, 0, 0, 0, 7 + 2 * |values|, unitId, 16,
                     register / 256, register % 256, 0, |values|, 2 * |values|]
    ensures |values| <= 126 ==>
              && ReadResponse(values, unitId).Some?
              && ReadResponse(values, unitId).value[..9]
                 == [0, 1, 0, 0, 0, 3 + 2 * |values|, unitId, 3, 2 * |values|]
  {
    hide Data;
  }

  lemma MultipleWriteLayout(start: Register, values: seq<Register>, unitId: Byte)
    requires |values| <= 127
    ensures var payload := MultipleWrite(start, values, unitId);
      && payload.Some? && |payload.value| == 13 + 2 * |values|
      && payload.value[MBAP_LEN] == WRITE_MULTIPLE
      && WordAt(payload.value, 8) == start && WordAt(payload.value, 10) == |values|
      && payload.value[12] == 2 * |values| && payload.value[13..] == Data(values)
  {
    hide Data, Mbap;
    var payload := MultipleWrite(start, values, unitId).value;
    assert payload[8] == start / 0x100 && payload[9] == start % 0x100;
    assert payload[10] == |values| / 0x100 && payload[11] == |values| % 0x100;
  }

  /** Parsing a built write-multiple request yields exactly (start + i, values[i]), for every list that can be built. */
  lemma ParseMultipleWrite(start: Register, values: seq<Register>, unitId: Byte)
    ensures MultipleWrite(start, values, unitId).Some? <==> |values| <= 127
    ensures |values| <= 127 ==>
              var writes := Writes(MultipleWrite(start, values, unitId).value, WRITE_MULTIPLE);
              |writes| == |values| && forall i :: 0 <= i < |values| ==> writes[i] == Write(start + i, values[i])
  {
    if |values| <= 127 {
      MultipleWriteLayout(start, values, unitId);
      var payload := MultipleWrite(start, values, unitId).value;
      hide MultipleWrite, Data;
      forall i | 0 <= i < |values|
        ensures Writes(payload, WRITE_MULTIPLE)[i] == Write(start + i, values[i])
      {
        DataAt(values, i);
        assert payload[13 + 2 * i] == payload[13..][2 * i];
        assert payload[13 + 2 * i + 1] == payload[13..][2 * i + 1];
      }
    }
  }

  lemma ParseSingleWrite(register: Register, value: Register, unitId: Byte)
    ensures var payload := SingleWrite(register, value, unitId);
      && |payload| == 12 && payload[MBAP_LEN] == WRITE_SINGLE
      && Writes(payload, WRITE_SINGLE) == [Write(register, value)]
  {
    hide Mbap;
    var payload := SingleWrite(register, value, unitId);
    assert payload[8] == register / 0x100 && payload[9] == register % 0x100;
    assert payload[10] == value / 0x100 && payload[11] == value % 0x100;
  }

  /** On arbitrary payloads: consecutive registers, exactly as many as quantity, byte count and length allow. */
  lemma ParseAnyMultipleWrite(payload: seq<Byte>)
    requires |payload| >= 13
    ensures var writes := Writes(payload, WRITE_MULTIPLE);
      && |writes| <= WordAt(payload, 10) && 2 * |writes| <= payload[12] && 13 + 2 * |writes| <= |payload|
      && (|writes| == WordAt(payload, 10) || 2 * (|writes| + 1) > payload[12] || 13 + 2 * (|writes| + 1) > |payload|)
      && forall i :: 0 <= i < |writes| ==>
           writes[i].register == WordAt(payload, 8) + i && writes[i].value == WordAt(payload, 13 + 2 * i)
  {
  }

  lemma ReadResponseLayout(values: seq<Register>, unitId: Byte)
    requires |values| <= 127
    ensures var payload := ReadResponse(values, unitId);
      && payload.Some? && |payload.value| == 9 + 2 * |values|
      && payload.value[MBAP_LEN] == READ_HOLDING && payload.value[8] == 2 * |values|
      && payload.value[9..] == Data(values)
  {
    hide Data, Mbap;
  }

  lemma ReadResponseWord(values: seq<Register>, unitId: Byte, i: nat)
    requires i < |values| <= 127
    ensures var payload := ReadResponse(values, unitId);
      payload.Some? && |payload.value| == 9 + 2 * |values| && WordAt(payload.value, 9 + 2 * i) == values[i]
  {
    ReadResponseLayout(values, unitId);
    DataAt(values, i);
    var payload := ReadResponse(values, unitId).value;
    hide ReadResponse, Data;
    assert payload[9 + 2 * i] == payload[9..][2 * i] && payload[9 + 2 * i + 1] == payload[9..][2 * i + 1];
  }
}
