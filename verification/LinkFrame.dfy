/** The emulator's DNP3 link frames, a receiver that strips them, and what the receiver rejects. */
module LinkFrame {
  import opened Common
  import opened Crc
  import opened CrcDetection

  const BLOCK := 16
  const TRANSPORT: Octet := 0xC0
  const START: seq<Octet> := [0x05, 0x64]

  function Flag(b: bool, octet: Octet): Octet { if b then octet else 0 }

  function Pack(b0: bool, b1: bool, b2: bool, b3: bool, b4: bool, b5: bool, b6: bool, b7: bool): Octet {
    Flag(b0, 1) | Flag(b1, 2) | Flag(b2, 4) | Flag(b3, 8) | Flag(b4, 16) | Flag(b5, 32) | Flag(b6, 64) | Flag(b7, 128)
  }

  predicate OddNumber(n: nat) { n % 2 == 1 }

  /** The octet whose bits are the binary digits of the length. */
  function LengthOctet(length: nat): Octet
    requires length <= 255
  {
    var h1 := length / 2; var h2 := h1 / 2; var h3 := h2 / 2; var h4 := h3 / 2;
    var h5 := h4 / 2; var h6 := h5 / 2; var h7 := h6 / 2;
    Pack(OddNumber(length), OddNumber(h1), OddNumber(h2), OddNumber(h3),
         OddNumber(h4), OddNumber(h5), OddNumber(h6), OddNumber(h7))
  }

  /** The number an octet stands for. */
  function Number(octet: Octet): nat {
    Weight(octet & 1 != 0, 1) + Weight(octet & 2 != 0, 2) + Weight(octet & 4 != 0, 4) + Weight(octet & 8 != 0, 8)
    + Weight(octet & 16 != 0, 16) + Weight(octet & 32 != 0, 32) + Weight(octet & 64 != 0, 64)
    + Weight(octet & 128 != 0, 128)
  }

  lemma PackedLow(b0: bool, b1: bool, b2: bool, b3: bool, b4: bool, b5: bool, b6: bool, b7: bool)
    ensures var octet := Pack(b0, b1, b2, b3, b4, b5, b6, b7);
      && (octet & 1 != 0 <==> b0) && (octet & 2 != 0 <==> b1) && (octet & 4 != 0 <==> b2) && (octet & 8 != 0 <==> b3)
  {
  }

  lemma PackedHigh(b0: bool, b1: bool, b2: bool, b3: bool, b4: bool, b5: bool, b6: bool, b7: bool)
    ensures var octet := Pack(b0, b1, b2, b3, b4, b5, b6, b7);
      && (octet & 16 != 0 <==> b4) && (octet & 32 != 0 <==> b5)
      && (octet & 64 != 0 <==> b6) && (octet & 128 != 0 <==> b7)
  {
  }

  lemma PackedNumber(b0: bool, b1: bool, b2: bool, b3: bool, b4: bool, b5: bool, b6: bool, b7: bool)
    ensures Number(Pack(b0, b1, b2, b3, b4, b5, b6, b7))
         == Weight(b0, 1) + Weight(b1, 2) + Weight(b2, 4) + Weight(b3, 8)
            + Weight(b4, 16) + Weight(b5, 32) + Weight(b6, 64) + Weight(b7, 128)
  {
    hide Pack, Weight;
    PackedLow(b0, b1, b2, b3, b4, b5, b6, b7);
    PackedHigh(b0, b1, b2, b3, b4, b5, b6, b7);
  }

  lemma LowDigits(n: nat)
    ensures n == 16 * (n / 2 / 2 / 2 / 2) + Weight(OddNumber(n), 1) + Weight(OddNumber(n / 2), 2)
              + Weight(OddNumber(n / 2 / 2), 4) + Weight(OddNumber(n / 2 / 2 / 2), 8)
  {
    OddPart(n, 1);
    OddPart(n / 2, 2);
    OddPart(n / 2 / 2, 4);
    OddPart(n / 2 / 2 / 2, 8);
  }

  lemma OddPart(n: nat, weight: nat)
    ensures weight * n == weight * (2 * (n / 2)) + Weight(OddNumber(n), weight)
  {
    assert n == 2 * (n / 2) + n % 2;
  }

  lemma WeightTimes16(b: bool, weight: nat)
    ensures Weight(b, 16 * weight) == 16 * Weight(b, weight)
  {
  }

  lemma HighDigits(h: nat)
    requires h < 16
    ensures 16 * h == Weight(OddNumber(h), 16) + Weight(OddNumber(h / 2), 32)
                      + Weight(OddNumber(h / 2 / 2), 64) + Weight(OddNumber(h / 2 / 2 / 2), 128)
  {
    hide OddNumber, Weight;
    LowDigits(h);
    WeightTimes16(OddNumber(h), 1);
    WeightTimes16(OddNumber(h / 2), 2);
    WeightTimes16(OddNumber(h / 2 / 2), 4);
    WeightTimes16(OddNumber(h / 2 / 2 / 2), 8);
    Sixteenth(h);
  }

  lemma Sixteenth(h: nat)
    requires h < 16
    ensures h / 2 / 2 / 2 / 2 == 0
  {
  }

  lemma UnderSixteen(n: nat)
    requires n <= 255
    ensures n / 2 / 2 / 2 / 2 < 16
  {
  }

  /** The length octet stands for the length. */
  lemma LengthNumber(length: nat)
    requires length <= 255
    ensures Number(LengthOctet(length)) == length
  {
    hide Pack, OddNumber, Weight, Number;
    var h := length / 2 / 2 / 2 / 2;
    PackedNumber(OddNumber(length), OddNumber(length / 2), OddNumber(length / 2 / 2), OddNumber(length / 2 / 2 / 2),
                 OddNumber(h), OddNumber(h / 2), OddNumber(h / 2 / 2), OddNumber(h / 2 / 2 / 2));
    UnderSixteen(length);
    LowDigits(length);
    HighDigits(h);
  }

  /** The link addresses of the two stations. */
  datatype Link = Link(outstation: bv16, master: bv16)

  function Header(link: Link, length: nat, control: Octet): seq<Octet>
    requires length <= 255
  {
    [LengthOctet(length), control] + LittleEndian(link.outstation) + LittleEndian(link.master)
  }

  /** User data in sealed blocks of at most sixteen octets. */
  function Blocks(user: seq<Octet>): seq<Octet>
    decreases |user|
  {
    if user == [] then []
    else
      var n := Min(BLOCK, |user|);
      Seal(user[..n]) + Blocks(user[n..])
  }

  /** `None` is the length that does not fit in an octet. */
  function Frame(link: Link, application: seq<Octet>, control: Octet): Option<seq<Octet>> {
    var user := [TRANSPORT] + application;
    var length := 5 + |user|;
    if length > 255 then None
    else Some(START + Seal(Header(link, length, control)) + Blocks(user))
  }

  method BuildFrame(link: Link, application: seq<Octet>, control: Octet) returns (result: Option<seq<Octet>>)
    ensures result == Frame(link, application, control)
  {
    hide Intact, Crc16, Blocks, LittleEndian, Header;
    var user := [TRANSPORT] + application;
    var length := 5 + |user|;
    if length > 255 {
      return None;
    }
    var header := Header(link, length, control);
    var crc := ComputeCrc(header);
    var frame := START + (header + LittleEndian(crc));
    ghost var start := frame;
    var index := 0;
    assert user[0..] == user;
    while index < |user|
      invariant 0 <= index
      invariant start + Blocks(user) == frame + (if index < |user| then Blocks(user[index..]) else [])
    {
      var block := user[index..Min(index + BLOCK, |user|)];
      crc := ComputeCrc(block);
      BlocksStep(user, index);
      ConcatAssociates(frame, Seal(block), if index + BLOCK < |user| then Blocks(user[index + BLOCK..]) else []);
      frame := frame + (block + LittleEndian(crc));
      index := index + BLOCK;
    }
    assert frame + [] == frame;
    return Some(frame);
  }

  lemma BlocksStep(user: seq<Octet>, index: nat)
    requires index < |user|
    ensures var next := index + BLOCK;
      Blocks(user[index..])
      == Seal(user[index..Min(next, |user|)]) + (if next < |user| then Blocks(user[next..]) else [])
  {
    var rest := user[index..];
    var n := Min(BLOCK, |rest|);
    assert rest[..n] == user[index..Min(index + BLOCK, |user|)];
    if index + BLOCK < |user| {
      assert rest[n..] == user[index + BLOCK..];
    } else {
      assert rest[n..] == [];
    }
  }

  // ---------- the receiver ----------

  /** Checks and removes the CRC of each block. */
  function Strip(body: seq<Octet>): Option<seq<Octet>>
    decreases |body|
  {
    if body == [] then Some([])
    else
      var n := Min(BLOCK + 2, |body|);
      if n < 3 || !Intact(body[..n]) then None
      else match Strip(body[n..])
        case None => None
        case Some(rest) => Some(body[..n - 2] + rest)
  }

  datatype Received = Received(header: seq<Octet>, user: seq<Octet>)

  function Receive(frame: seq<Octet>): Option<Received> {
    if |frame| < 10 || frame[..2] != START || !Intact(frame[2..10]) then None
    else match Strip(frame[10..])
      case None => None
      case Some(user) => Some(Received(frame[2..8], user))
  }

  lemma SealLength(data: seq<Octet>)
    ensures |Seal(data)| == |data| + 2 && Seal(data)[..|data|] == data
  {
  }

  /** n octets of user data travel in n + 2 * ceil(n / 16) octets. */
  lemma {:induction false} BlocksLength(user: seq<Octet>)
    ensures |Blocks(user)| == |user| + 2 * ((|user| + 15) / 16)
    decreases |user|
  {
    if user != [] {
      hide Seal;
      var n := Min(BLOCK, |user|);
      SealLength(user[..n]);
      BlocksLength(user[n..]);
      assert |Blocks(user)| == n + 2 + |Blocks(user[n..])|;
    }
  }

  /** Stripping the block CRCs restores the user data. */
  lemma {:induction false} StripBlocks(user: seq<Octet>)
    ensures Strip(Blocks(user)) == Some(user)
    decreases |user|
  {
    if user != [] {
      hide Seal, Intact;
      var n := Min(BLOCK, |user|);
      var block, rest := Seal(user[..n]), Blocks(user[n..]);
      SealLength(user[..n]);
      SealIsIntact(user[..n]);
      StripBlocks(user[n..]);
      BlocksLength(user[n..]);
      assert Min(BLOCK + 2, |block + rest|) == n + 2;
      assert (block + rest)[..n + 2] == block && (block + rest)[n + 2..] == rest;
      assert (block + rest)[..n] == user[..n];
      assert user[..n] + user[n..] == user;
    }
  }

  /** The parts of a frame. */
  lemma FrameParts(link: Link, application: seq<Octet>, control: Octet)
    requires |application| <= 249
    ensures var frame := Frame(link, application, control);
      && frame.Some?
      && |frame.value| == 10 + |Blocks([TRANSPORT] + application)|
      && frame.value[..2] == START
      && frame.value[2..10] == Seal(Header(link, 6 + |application|, control))
      && frame.value[10..] == Blocks([TRANSPORT] + application)
  {
    hide Seal, Blocks;
    SealLength(Header(link, 6 + |application|, control));
  }

  /** Framing is defined up to 250 user octets, invertible, and of the stated length. */
  lemma FrameRoundTrip(link: Link, application: seq<Octet>, control: Octet)
    ensures var user := [TRANSPORT] + application; var frame := Frame(link, application, control);
      && (frame.Some? <==> |user| <= 250)
      && (frame.Some? ==>
          && |frame.value| == 10 + |user| + 2 * ((|user| + 15) / 16)
          && Receive(frame.value) == Some(Received(Header(link, 5 + |user|, control), user)))
  {
    if |application| <= 249 {
      hide Seal, Blocks, Strip, Intact, LittleEndian, LengthOctet;
      FrameParts(link, application, control);
      BlocksLength([TRANSPORT] + application);
      StripBlocks([TRANSPORT] + application);
      SealIsIntact(Header(link, 6 + |application|, control));
      HeaderRead(link, application, control);
    }
  }

  lemma HeaderRead(link: Link, application: seq<Octet>, control: Octet)
    requires |application| <= 249
    ensures var frame := Frame(link, application, control);
      && frame.Some? && |frame.value| >= 10 && frame.value[2..8] == Header(link, 6 + |application|, control)
      && frame.value[2] == LengthOctet(6 + |application|)
  {
    hide Blocks, Crc16, LengthOctet, Low, High;
  }

  /** What a transport layer delivers of a segment that is both the first and the last; its sequence number is below. */
  function Deliver(segment: seq<Octet>): Option<(nat, seq<Octet>)> {
    if segment == [] || segment[0] & 0x40 == 0 || segment[0] & 0x80 == 0 then None
    else Some((Number(segment[0] & 0x3F), segment[1..]))
  }

  lemma WholeSegment(application: seq<Octet>)
    ensures Deliver([0xC0] + application) == Some((0, application))
  {
    assert ([0xC0 as Octet] + application)[1..] == application;
    NumberOfZero();
  }

  lemma NumberOfZero()
    ensures Number(0) == 0 && 0xC0 as Octet & 0x3F == 0
  {
  }

  /** Every frame built is delivered as one whole segment, sequence 0, carrying exactly the application. */
  lemma FrameDelivers(link: Link, application: seq<Octet>, control: Octet)
    requires |application| <= 249
    ensures var frame := Frame(link, application, control);
      && frame.Some? && |frame.value| > 10 && frame.value[10] == 0xC0
      && var received := Receive(frame.value);
        received.Some? && Deliver(received.value.user) == Some((0, application))
  {
    WholeSegment(application);
    FrameRoundTrip(link, application, control);
    hide Receive, Frame, Header, Deliver, Blocks;
    FrameParts(link, application, control);
    FirstUserOctet([TRANSPORT] + application);
  }

  lemma FirstUserOctet(user: seq<Octet>)
    requires user != []
    ensures Blocks(user) != [] && Blocks(user)[0] == user[0]
  {
    hide Crc16, LittleEndian;
  }

  /** The length octet counts the control octet, the addresses and the user data. */
  lemma LengthField(link: Link, application: seq<Octet>, control: Octet)
    requires |application| <= 249
    ensures var frame := Frame(link, application, control);
      frame.Some? && |frame.value| >= 10 && Number(frame.value[2]) == 5 + |[TRANSPORT] + application|
  {
    hide LengthOctet, Number, Frame;
    HeaderRead(link, application, control);
    LengthNumber(6 + |application|);
  }

  // ---------- what the receiver rejects ----------

  lemma StripStep(body: seq<Octet>, n: nat)
    requires body != [] && n == Min(BLOCK + 2, |body|) && n >= 3
    ensures Strip(body) == None <==> !Intact(body[..n]) || Strip(body[n..]) == None
  {
    hide Intact;
  }

  /** A burst anywhere in the blocks, also across their boundaries, is rejected. */
  lemma {:induction false} BodyBurstRejected(user: seq<Octet>, error: seq<Octet>, start: nat)
    requires |error| == |Blocks(user)| && HasError(Bits(error)) && Burst(Bits(error), start, 16)
    ensures Strip(XorData(Blocks(user), error)) == None
    decreases |user|
  {
    if user == [] {
      assert false;
    }
    var n := Min(BLOCK, |user|) + 2;
    var body, rest := Blocks(user), Blocks(user[n - 2..]);
    FirstBlock(user);
    XorSplit(body, error, n);
    assert error == error[..n] + error[n..];
    hide Blocks, Strip, Intact, XorData, Bits, HasError, Burst;
    ErrorParts(error[..n], error[n..], start);
    StripStep(XorData(body, error), n);
    if HasError(Bits(error[..n])) {
      BurstDetected(body[..n], error[..n], start);
    } else {
      BodyBurstRejected(user[n - 2..], error[n..],
                        if start >= |Bits(error[..n])| then start - |Bits(error[..n])| else 0);
    }
  }

  lemma FirstBlock(user: seq<Octet>)
    requires user != []
    ensures var n := Min(BLOCK, |user|) + 2; var body := Blocks(user);
      && n >= 3 && n == Min(BLOCK + 2, |body|) && Intact(body[..n]) && body[n..] == Blocks(user[n - 2..])
  {
    hide Seal, Intact;
    var m := Min(BLOCK, |user|);
    SealLength(user[..m]);
    SealIsIntact(user[..m]);
    BlocksLength(user[m..]);
    assert Blocks(user)[..m + 2] == Seal(user[..m]);
    assert Blocks(user)[m + 2..] == Blocks(user[m..]);
  }

  /** A wrong bit in the start octets is a wrong start octet. */
  lemma StartOctets(frame: seq<Octet>, error: seq<Octet>)
    requires |error| == |frame| >= 2 && frame[..2] == START && HasError(Bits(error[..2]))
    ensures |XorData(frame, error)| == |frame| && XorData(frame, error)[..2] != START
  {
    hide Bits, HasError;
    WrongOctet(error[..2]);
    assert frame[0] == frame[..2][0] && frame[1] == frame[..2][1];
    XorChanges(0x05, error[0]);
    XorChanges(0x64, error[1]);
  }

  lemma XorChanges(octet: Octet, error: Octet)
    ensures octet ^ error == octet <==> error == 0
  {
  }

  /** A burst in the start octets or the header block is rejected. */
  lemma HeadBurstRejected(frame: seq<Octet>, error: seq<Octet>, start: nat)
    requires |error| == |frame| >= 10 && frame[..2] == START && Intact(frame[2..10])
    requires HasError(Bits(error[..10])) && Burst(Bits(error[..10]), start, 16)
    ensures Receive(XorData(frame, error)) == None
  {
    hide Strip, Intact, XorData, Bits, HasError, Burst;
    ReceivedParts(frame, error);
    assert error[..10] == error[..2] + error[2..10];
    ErrorParts(error[..2], error[2..10], start);
    if HasError(Bits(error[..2])) {
      StartOctets(frame, error);
    } else {
      BurstDetected(frame[2..10], error[2..10],
                    if start >= |Bits(error[..2])| then start - |Bits(error[..2])| else 0);
    }
  }

  lemma BodyDecides(frame: seq<Octet>)
    requires |frame| >= 10 && Strip(frame[10..]) == None
    ensures Receive(frame) == None
  {
    hide Strip, Intact;
  }

  /**
   * A frame as sent, hit by a nonzero burst of at most sixteen consecutive bits anywhere,
   * is rejected by a receiver that checks the start octets and every CRC.
   */
  lemma FrameBurstRejected(link: Link, application: seq<Octet>, control: Octet, error: seq<Octet>, start: nat)
    requires Frame(link, application, control).Some? && |error| == |Frame(link, application, control).value|
    requires HasError(Bits(error)) && Burst(Bits(error), start, 16)
    ensures Receive(XorData(Frame(link, application, control).value, error)) == None
  {
    FrameRoundTrip(link, application, control);
    hide Frame, Blocks, Strip, Intact, XorData, Bits, HasError, Burst, Seal, Header, Receive;
    var frame := Frame(link, application, control).value;
    FrameParts(link, application, control);
    SealIsIntact(Header(link, 6 + |application|, control));
    ReceivedParts(frame, error);
    assert error == error[..10] + error[10..];
    ErrorParts(error[..10], error[10..], start);
    if HasError(Bits(error[..10])) {
      HeadBurstRejected(frame, error, start);
    } else {
      BodyBurstRejected([TRANSPORT] + application, error[10..],
                        if start >= |Bits(error[..10])| then start - |Bits(error[..10])| else 0);
      BodyDecides(XorData(frame, error));
    }
  }

  lemma ReceivedParts(frame: seq<Octet>, error: seq<Octet>)
    requires |error| == |frame| >= 10
    ensures |XorData(frame, error)| == |frame|
    ensures XorData(frame, error)[2..10] == XorData(frame[2..10], error[2..10])
    ensures XorData(frame, error)[10..] == XorData(frame[10..], error[10..])
  {
  }
}
