/**
 * The emulator's frames against the data link layer of IEEE Std 1815-2012, clause 9, whose
 * header CRC covers the start octets too.
 */
module LinkConformance {
  import opened Common
  import opened Crc
  import opened CrcDetection
  import opened LinkFrame

  /** A receiver whose header check covers the eight octets from the start octets on. */
  function ReceiveStandard(frame: seq<Octet>): Option<Received> {
    if |frame| < 10 || frame[..2] != START || !Intact(frame[..10]) then None
    else match Strip(frame[10..])
      case None => None
      case Some(user) => Some(Received(frame[2..8], user))
  }

  /** A frame whose header CRC covers the start octets. */
  function StandardFrame(link: Link, application: seq<Octet>, control: Octet): Option<seq<Octet>> {
    var user := [TRANSPORT] + application;
    var length := 5 + |user|;
    if length > 255 then None
    else Some(Seal(START + Header(link, length, control)) + Blocks(user))
  }

  lemma FeedOctetInjective(a: bv16, b: bv16, octet: Octet)
    requires FeedOctet(a, octet) == FeedOctet(b, octet)
    ensures a == b
  {
    hide Xor, Widen, Shifts;
    ShiftsInjective(Xor(a, Widen(octet)), Xor(b, Widen(octet)), 8);
    XorCancels(a, Widen(octet));
    XorCancels(b, Widen(octet));
  }

  /** Registers that differ stay different over any data. */
  lemma {:induction false} FeedInjective(a: bv16, b: bv16, data: seq<Octet>)
    requires Feed(a, data) == Feed(b, data)
    ensures a == b
    decreases |data|
  {
    if data != [] {
      hide FeedOctet;
      FeedInjective(FeedOctet(a, data[0]), FeedOctet(b, data[0]), data[1..]);
      FeedOctetInjective(a, b, data[0]);
    }
  }

  lemma StartWord()
    ensures LittleEndian(0x6405) == START
  {
  }

  lemma StartChangesRegister()
    ensures Feed(0, START) != 0
  {
    StartWord();
    hide Xor, Shifts, Feed, Low, High;
    FeedWord(0, 0x6405);
    XorCancels(0x6405, 0);
    ShiftsZero(16);
    if Feed(0, START) == 0 {
      ShiftsInjective(0x6405, 0, 16);
    }
  }

  /** For every header, leaving the start octets out gives another CRC. */
  lemma HeaderCrcNeverConforms(header: seq<Octet>)
    ensures Crc16(START + header) != Crc16(header)
  {
    hide Xor, Feed;
    FeedConcat(0, START, header);
    StartChangesRegister();
    var a, b := Feed(Feed(0, START), header), Feed(0, header);
    XorCancels(a, 0xFFFF);
    XorCancels(b, 0xFFFF);
    if a == b {
      FeedInjective(Feed(0, START), 0, header);
    }
  }

  lemma LittleEndianInjective(x: bv16, y: bv16)
    requires LittleEndian(x) == LittleEndian(y)
    ensures x == y
  {
    hide Low, High, Join;
    assert LittleEndian(x)[0] == LittleEndian(y)[0] && LittleEndian(x)[1] == LittleEndian(y)[1];
    JoinSplit(x);
    JoinSplit(y);
  }

  /** Start octets in front of a sealed header are no sealed block. */
  lemma BuiltHeaderBroken(header: seq<Octet>)
    ensures !Intact(START + Seal(header))
  {
    hide Crc16, LittleEndian;
    HeaderCrcNeverConforms(header);
    var block, n := START + Seal(header), 2 + |header|;
    LittleEndianLength(header);
    assert block[..n] == START + header;
    assert block[n..] == LittleEndian(Crc16(header));
    if Intact(block) {
      assert block[n..] == LittleEndian(Crc16(START + header));
      LittleEndianInjective(Crc16(header), Crc16(START + header));
    }
  }

  lemma LittleEndianLength(data: seq<Octet>)
    ensures |LittleEndian(Crc16(data))| == 2
  {
  }

  /** A receiver that follows the standard rejects every frame the emulator builds. */
  lemma StandardReceiverRejects(link: Link, application: seq<Octet>, control: Octet)
    requires Frame(link, application, control).Some?
    ensures ReceiveStandard(Frame(link, application, control).value) == None
  {
    FrameParts(link, application, control);
    var frame, header := Frame(link, application, control).value, Header(link, 6 + |application|, control);
    hide Frame, Blocks, Strip, Intact, Seal, Header;
    BuiltHeaderBroken(header);
    assert frame[..10] == frame[..2] + frame[2..10];
  }

  lemma HeaderLength(link: Link, length: nat, control: Octet)
    requires length <= 255
    ensures |Header(link, length, control)| == 6
  {
  }

  lemma TwoOctets(word: bv16)
    ensures |LittleEndian(word)| == 2
  {
  }

  /** Start octets and header, then the header CRC, then the blocks. */
  function Laid(header: seq<Octet>, crc: bv16, body: seq<Octet>): seq<Octet> {
    START + (header + LittleEndian(crc)) + body
  }

  lemma Layout(header: seq<Octet>, crc: bv16, body: seq<Octet>)
    requires |header| == 6
    ensures var frame := Laid(header, crc, body);
      && |frame| == 10 + |body| && frame[..2] == START && frame[2..8] == header && frame[..8] == START + header
      && frame[8..10] == LittleEndian(crc) && frame[10..] == body
  {
    TwoOctets(crc);
    hide LittleEndian;
    var frame, head, tail := Laid(header, crc, body), START + header, LittleEndian(crc) + body;
    assert |head| == 8 && frame == head + tail;
    assert frame[..8] == head && frame[8..] == tail;
    assert frame[..2] == head[..2] && frame[2..8] == head[2..];
    assert frame[8..10] == tail[..2] && frame[10..] == tail[2..];
  }

  lemma SealIs(data: seq<Octet>)
    ensures Seal(data) == data + LittleEndian(Crc16(data))
  {
  }

  lemma FrameIs(link: Link, application: seq<Octet>, control: Octet)
    requires |application| <= 249
    ensures var header := Header(link, 6 + |application|, control); var user := [TRANSPORT] + application;
      && Frame(link, application, control) == Some(START + Seal(header) + Blocks(user))
      && StandardFrame(link, application, control) == Some(Seal(START + header) + Blocks(user))
  {
    hide Blocks, Header, Seal;
    assert 5 + |[TRANSPORT] + application| == 6 + |application|;
  }

  lemma BuiltLayout(link: Link, application: seq<Octet>, control: Octet)
    requires |application| <= 249
    ensures var header := Header(link, 6 + |application|, control);
      && |header| == 6
      && Frame(link, application, control) == Some(Laid(header, Crc16(header), Blocks([TRANSPORT] + application)))
  {
    HeaderLength(link, 6 + |application|, control);
    hide Blocks, Header, Crc16, LittleEndian, Seal, Frame, StandardFrame;
    FrameIs(link, application, control);
    SealIs(Header(link, 6 + |application|, control));
  }

  lemma StandardLayout(link: Link, application: seq<Octet>, control: Octet)
    requires |application| <= 249
    ensures var header := Header(link, 6 + |application|, control); var body := Blocks([TRANSPORT] + application);
      && |header| == 6
      && StandardFrame(link, application, control) == Some(Laid(header, Crc16(START + header), body))
  {
    HeaderLength(link, 6 + |application|, control);
    hide Blocks, Header, Crc16, LittleEndian, Seal, Frame, StandardFrame;
    var header := Header(link, 6 + |application|, control);
    FrameIs(link, application, control);
    SealIs(START + header);
    StartFirst(header, LittleEndian(Crc16(START + header)));
  }

  lemma StartFirst(header: seq<Octet>, crc: seq<Octet>)
    ensures START + (header + crc) == START + header + crc
  {
  }

  /** The parts of a conforming frame. */
  lemma StandardParts(link: Link, application: seq<Octet>, control: Octet)
    requires |application| <= 249
    ensures var header := Header(link, 6 + |application|, control);
      var frame := StandardFrame(link, application, control);
      && frame.Some? && |frame.value| == 10 + |Blocks([TRANSPORT] + application)|
      && frame.value[..2] == START && frame.value[2..8] == header
      && frame.value[..10] == Seal(START + header) && frame.value[10..] == Blocks([TRANSPORT] + application)
  {
    var header := Header(link, 6 + |application|, control);
    StandardLayout(link, application, control);
    hide Blocks, Header, Crc16, LittleEndian, Laid, StandardFrame;
    Layout(header, Crc16(START + header), Blocks([TRANSPORT] + application));
    var frame := StandardFrame(link, application, control).value;
    assert frame[..10] == frame[..8] + frame[8..10];
  }

  /** It accepts the same header and user data when the header CRC covers the start octets. */
  lemma StandardReceiverAccepts(link: Link, application: seq<Octet>, control: Octet)
    requires |application| <= 249
    ensures var user := [TRANSPORT] + application; var frame := StandardFrame(link, application, control);
      frame.Some? && ReceiveStandard(frame.value) == Some(Received(Header(link, 5 + |user|, control), user))
  {
    hide Blocks, Strip, Intact, Seal, Header, StandardFrame;
    var user := [TRANSPORT] + application;
    StripBlocks(user);
    SealIsIntact(START + Header(link, 6 + |application|, control));
    StandardParts(link, application, control);
  }

  /** The two frames differ in the header CRC only. */
  lemma FramesDifferInCrcOnly(link: Link, application: seq<Octet>, control: Octet)
    requires |application| <= 249
    ensures var built := Frame(link, application, control); var standard := StandardFrame(link, application, control);
      && built.Some? && standard.Some? && |built.value| == |standard.value| >= 10
      && built.value[..8] == standard.value[..8] && built.value[10..] == standard.value[10..]
      && built.value[8..10] != standard.value[8..10]
  {
    hide Blocks, Header, Crc16, LittleEndian, Laid, Frame, StandardFrame;
    var header := Header(link, 6 + |application|, control);
    var body := Blocks([TRANSPORT] + application);
    HeaderCrcNeverConforms(header);
    BuiltLayout(link, application, control);
    StandardLayout(link, application, control);
    Layout(header, Crc16(header), body);
    Layout(header, Crc16(START + header), body);
    if LittleEndian(Crc16(header)) == LittleEndian(Crc16(START + header)) {
      LittleEndianInjective(Crc16(header), Crc16(START + header));
    }
  }
}
