/** The DNP3 decoder of the detection rules, read against the emulator's frames. */
module Dnp3Decoder {
  import opened Common
  import opened Crc
  import opened CrcDetection
  import opened LinkFrame

  datatype Direction = Request | Response

  /** The fields below the application header; an object field is absent when the octets run out. */
  datatype Application = Application(
    sequence: Octet,
    functionCode: Octet,
    objectGroup: Option<Octet>,
    objectVariation: Option<Octet>,
    objectCount: Option<Octet>,
    controlCode: Option<Octet>)

  datatype Event = Event(
    direction: Direction,
    linkSource: bv16,
    linkDestination: bv16,
    linkFunction: Octet,
    transportSequence: Octet,
    application: Application)

  const CONTROL_BLOCK: Octet := 12

  function At(octets: seq<Octet>, i: nat): Option<Octet> {
    if |octets| > i then Some(octets[i]) else None
  }

  function ReadApplication(octets: seq<Octet>): Option<Application> {
    if |octets| < 2 then None
    else
      var group := At(octets, 2);
      Some(Application(octets[0] & 0x0F, octets[1], group, At(octets, 3), At(octets, 5),
                       if group == Some(CONTROL_BLOCK) then At(octets, 6) else None))
  }

  function DirectionOf(control: Octet): Direction {
    if control & 0x80 != 0 then Request else Response
  }

  /** Decodes one application message, or returns `None`. */
  function Decode(payload: seq<Octet>): Option<Event> {
    if |payload| < 12 || payload[0] != 0x05 || payload[1] != 0x64 then None
    else match ReadApplication(payload[11..])
      case None => None
      case Some(application) =>
        Some(Event(DirectionOf(payload[3]), Join(payload[6], payload[7]), Join(payload[4], payload[5]),
                   payload[3] & 0x0F, payload[10] & 0x3F, application))
  }

  /** What the sender put into the frame. */
  function Sent(link: Link, application: Application, control: Octet): Event {
    Event(DirectionOf(control), link.master, link.outstation, control & 0x0F, 0, application)
  }

  /** The first user octets of a frame are the transport octet and the application. */
  lemma FirstOctets(link: Link, application: seq<Octet>, control: Octet)
    requires |application| <= 249
    ensures var frame := Frame(link, application, control);
      && frame.Some? && |frame.value| >= 13 && |frame.value| >= 13 + |application| && frame.value[10] == TRANSPORT
      && (forall i :: 0 <= i < |application| && i < 15 ==> frame.value[11 + i] == application[i])
      && (|application| <= 15 ==> frame.value[11..] == application + LittleEndian(Crc16([TRANSPORT] + application)))
  {
    hide Crc16, LittleEndian, Frame, Seal, Blocks, Header;
    FrameParts(link, application, control);
    var frame := Frame(link, application, control).value;
    var user := [TRANSPORT] + application;
    BlocksLength(user);
    FirstSixteen(user);
    assert frame[10] == frame[10..][0];
    forall i | 0 <= i < |application| && i < 15
      ensures frame[11 + i] == application[i]
    {
      assert frame[11 + i] == frame[10..][i + 1] == user[i + 1];
    }
    if |application| <= 15 {
      assert frame[11..] == frame[10..][1..];
      assert frame[10..] == user + LittleEndian(Crc16(user));
    }
  }

  lemma FirstSixteen(user: seq<Octet>)
    requires user != []
    ensures |Blocks(user)| >= |user| + 2
    ensures forall i :: 0 <= i < |user| && i < 16 ==> Blocks(user)[i] == user[i]
    ensures |user| <= 16 ==> Blocks(user) == user + LittleEndian(Crc16(user))
  {
    hide Crc16, LittleEndian;
    BlocksLength(user);
    var n := Min(BLOCK, |user|);
    assert Blocks(user) == Seal(user[..n]) + Blocks(user[n..]);
    if n == |user| {
      assert user[..n] == user && Blocks(user[n..]) == [];
    }
  }

  lemma HeaderOctets(link: Link, application: seq<Octet>, control: Octet)
    requires |application| <= 249
    ensures var frame := Frame(link, application, control);
      && frame.Some? && |frame.value| >= 10
      && frame.value[0] == 0x05 && frame.value[1] == 0x64 && frame.value[3] == control
      && Join(frame.value[4], frame.value[5]) == link.outstation
      && Join(frame.value[6], frame.value[7]) == link.master
  {
    hide Crc16, Blocks, Join, Low, High, LengthOctet;
    JoinSplit(link.outstation);
    JoinSplit(link.master);
  }

  lemma TransportSequence()
    ensures TRANSPORT & 0x3F == 0
  {
  }

  /** The decoder always reads the addresses, the direction and the transport octet as sent. */
  lemma DecodeFrame(link: Link, application: seq<Octet>, control: Octet)
    requires |application| <= 249
    ensures var frame := Frame(link, application, control);
      && frame.Some? && |frame.value| >= 13
      && Decode(frame.value)
         == match ReadApplication(frame.value[11..])
            case None => None
            case Some(read) => Some(Sent(link, read, control))
  {
    FirstOctets(link, application, control);
    HeaderOctets(link, application, control);
    TransportSequence();
    hide Frame, Join, DirectionOf, ReadApplication;
  }

  /** For every application of two octets or more the link fields, the sequence and the function code are as sent. */
  lemma DecodeHeader(link: Link, application: seq<Octet>, control: Octet)
    requires 2 <= |application| <= 249
    ensures var event := Decode(Frame(link, application, control).value);
      && event.Some?
      && event.value.direction == DirectionOf(control)
      && event.value.linkSource == link.master && event.value.linkDestination == link.outstation
      && event.value.application.sequence == application[0] & 0x0F
      && event.value.application.functionCode == application[1]
  {
    hide Frame, DirectionOf;
    DecodeFrame(link, application, control);
    FirstOctets(link, application, control);
    var frame := Frame(link, application, control).value;
    assert frame[11..][0] == frame[11 + 0] && frame[11..][1] == frame[11 + 1];
  }

  lemma LowFourBits(octet: Octet)
    ensures Number(octet & 0x0F) == Weight(octet & 1 != 0, 1) + Weight(octet & 2 != 0, 2)
                                    + Weight(octet & 4 != 0, 4) + Weight(octet & 8 != 0, 8)
  {
  }

  lemma LowSixBits(octet: Octet)
    ensures Number(octet & 0x3F) == Weight(octet & 1 != 0, 1) + Weight(octet & 2 != 0, 2)
                                    + Weight(octet & 4 != 0, 4) + Weight(octet & 8 != 0, 8)
                                    + Weight(octet & 16 != 0, 16) + Weight(octet & 32 != 0, 32)
  {
  }

  lemma WeightIs(b: bool, weight: nat)
    ensures Weight(b, weight) == if b then weight else 0
  {
  }

  /** The masks of the decoder as numbers: the top bit is worth 128, the low four or six bits are remainders. */
  lemma MaskNumbers(octet: Octet)
    ensures octet & 0x80 != 0 <==> Number(octet) >= 128
    ensures Number(octet & 0x0F) == Number(octet) % 16
    ensures Number(octet & 0x3F) == Number(octet) % 64
  {
    LowFourBits(octet);
    LowSixBits(octet);
    BinaryNumber(octet & 1 != 0, octet & 2 != 0, octet & 4 != 0, octet & 8 != 0,
                 octet & 16 != 0, octet & 32 != 0, octet & 64 != 0, octet & 128 != 0);
    hide Weight;
  }

  lemma BinaryNumber(b0: bool, b1: bool, b2: bool, b3: bool, b4: bool, b5: bool, b6: bool, b7: bool)
    ensures var four := Weight(b0, 1) + Weight(b1, 2) + Weight(b2, 4) + Weight(b3, 8);
      var six := four + Weight(b4, 16) + Weight(b5, 32);
      var n := six + Weight(b6, 64) + Weight(b7, 128);
      (b7 <==> n >= 128) && n % 16 == four && n % 64 == six
  {
    var low := Weight(b0, 1) + Weight(b1, 2) + Weight(b2, 4) + Weight(b3, 8);
    var middle := Weight(b4, 1) + Weight(b5, 2);
    var high := Weight(b6, 1) + Weight(b7, 2);
    assert low < 16 && middle < 4;
    Remainder16(low, middle + 4 * high);
    Remainder64(low + 16 * middle, high);
  }

  lemma Remainder16(low: nat, q: nat)
    requires low < 16
    ensures (low + 16 * q) % 16 == low
  {
  }

  lemma Remainder64(low: nat, q: nat)
    requires low < 64
    ensures (low + 64 * q) % 64 == low
  {
  }

  /** A frame whose control octet is at least 128 is a request; the link function is the remainder by 16. */
  lemma DecodeControl(link: Link, application: seq<Octet>, control: Octet)
    requires 2 <= |application| <= 249
    ensures var event := Decode(Frame(link, application, control).value);
      && event.Some?
      && (event.value.direction == Request <==> Number(control) >= 128)
      && Number(event.value.linkFunction) == Number(control) % 16
      && Number(event.value.transportSequence) == 0
      && Number(event.value.application.sequence) == Number(application[0]) % 16
  {
    DecodeHeader(link, application, control);
    DecodeFrame(link, application, control);
    MaskNumbers(control);
    MaskNumbers(application[0]);
    hide Frame, Decode, Number, ReadApplication;
    NumberOfZero();
  }

  /** From seven octets on the object fields are octets 2, 3 and 5, and octet 6 for group 12 only. */
  lemma DecodeObjects(link: Link, application: seq<Octet>, control: Octet)
    requires 7 <= |application| <= 249
    ensures var event := Decode(Frame(link, application, control).value);
      && event.Some?
      && event.value.application.objectGroup == Some(application[2])
      && event.value.application.objectVariation == Some(application[3])
      && event.value.application.objectCount == Some(application[5])
      && event.value.application.controlCode == if application[2] == 12 then Some(application[6]) else None
  {
    DecodeExactly(link, application, control);
    FrameExists(link, application, control);
    hide Frame, Decode, DirectionOf;
  }

  lemma FrameExists(link: Link, application: seq<Octet>, control: Octet)
    requires |application| <= 249
    ensures Frame(link, application, control).Some?
  {
    hide Header, Blocks, Seal;
  }

  /** Of any octets: what is refused, the transport sequence, and which object fields the length leaves absent. */
  lemma DecodeAnyPayload(payload: seq<Octet>)
    ensures Decode(payload) == None <==> |payload| < 13 || payload[0] != 0x05 || payload[1] != 0x64
    ensures Decode(payload).Some? ==>
              var read := Decode(payload).value.application;
              && Number(Decode(payload).value.transportSequence) == Number(payload[10]) % 64
              && (read.objectGroup.Some? <==> |payload| >= 14)
              && (read.objectVariation.Some? <==> |payload| >= 15)
              && (read.objectCount.Some? <==> |payload| >= 17)
              && (read.controlCode.Some? <==> |payload| >= 18 && payload[13] == 12)
  {
    if |payload| > 10 {
      MaskNumbers(payload[10]);
    }
    hide DirectionOf, Join, Number;
  }

  lemma ReadPrefix(x: seq<Octet>, y: seq<Octet>)
    requires |x| >= 7 && |y| >= 7 && x[..7] == y[..7]
    ensures ReadApplication(x) == ReadApplication(y)
  {
    forall i | 0 <= i < 7
      ensures x[i] == y[i]
    {
      assert x[..7][i] == y[..7][i];
    }
  }

  /** With two more octets behind it, an application reads the same only with six octets and no control block. */
  lemma ReadTrailing(application: seq<Octet>, a: Octet, b: Octet)
    requires |application| <= 6
    ensures ReadApplication(application + [a, b]) == ReadApplication(application)
       <==> |application| == 6 && application[2] != CONTROL_BLOCK
  {
    if |application| == 6 {
      assert (application + [a, b])[6] == a;
    } else if |application| >= 2 {
      assert At(application, 5) == None;
      assert |application| >= 4 ==> At(application + [a, b], 5).Some?;
      assert |application| <= 3 ==> At(application + [a, b], 3).Some? && At(application, 3) == None;
    }
  }

  /**
   * The decoder recovers exactly what was sent when the application has at least seven
   * octets, or six of which the object group is not a control block. Otherwise it takes
   * CRC octets for application octets.
   */
  lemma DecodeExactly(link: Link, application: seq<Octet>, control: Octet)
    requires Frame(link, application, control).Some?
    ensures Decode(Frame(link, application, control).value)
            == (match ReadApplication(application)
                case None => None
                case Some(sent) => Some(Sent(link, sent, control)))
       <==> |application| >= 7 || (|application| == 6 && application[2] != CONTROL_BLOCK)
  {
    var frame := Frame(link, application, control).value;
    DecodeFrame(link, application, control);
    FirstOctets(link, application, control);
    hide Frame, Decode, ReadApplication, Crc16, Low, High;
    if |application| >= 7 {
      forall i | 0 <= i < 7
        ensures frame[11..][i] == application[i]
      {
        assert frame[11..][i] == frame[11 + i];
      }
      assert frame[11..][..7] == application[..7];
      ReadPrefix(frame[11..], application);
    } else {
      var crc := Crc16([TRANSPORT] + application);
      ReadTrailing(application, Low(crc), High(crc));
    }
  }
}
