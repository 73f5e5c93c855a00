/** Up to five wrong bits anywhere in a frame are rejected, in the frame as built and in the conforming one. */
module FrameDistance {
  import opened Common
  import opened Crc
  import opened CrcDetection
  import opened CrcDistance
  import opened LinkFrame
  import opened LinkConformance

  lemma CountParts(x: seq<Octet>, y: seq<Octet>)
    ensures ErrorCount(Bits(x + y)) == ErrorCount(Bits(x)) + ErrorCount(Bits(y))
  {
    hide Bits, ErrorCount;
    BitsConcat(x, y);
    CountConcat(Bits(x), Bits(y));
  }

  lemma {:induction false} BodyErrorsRejected(user: seq<Octet>, error: seq<Octet>)
    requires |error| == |Blocks(user)| && 1 <= ErrorCount(Bits(error)) <= 5
    ensures Strip(XorData(Blocks(user), error)) == None
    decreases |user|
  {
    if user == [] {
      assert false;
    }
    var n := Min(BLOCK, |user|) + 2;
    var body := Blocks(user);
    FirstBlock(user);
    XorSplit(body, error, n);
    assert error == error[..n] + error[n..];
    hide Blocks, Strip, Intact, XorData, Bits, ErrorCount;
    CountParts(error[..n], error[n..]);
    StripStep(XorData(body, error), n);
    if ErrorCount(Bits(error[..n])) > 0 {
      FiveBitsDetected(body[..n], error[..n]);
    } else {
      BodyErrorsRejected(user[n - 2..], error[n..]);
    }
  }

  lemma HeadErrorsRejected(frame: seq<Octet>, error: seq<Octet>)
    requires |error| == |frame| >= 10 && frame[..2] == START && Intact(frame[2..10])
    requires 1 <= ErrorCount(Bits(error[..10])) <= 5
    ensures Receive(XorData(frame, error)) == None
  {
    hide Strip, Intact, XorData, Bits, ErrorCount, HasError;
    ReceivedParts(frame, error);
    assert error[..10] == error[..2] + error[2..10];
    CountParts(error[..2], error[2..10]);
    if ErrorCount(Bits(error[..2])) > 0 {
      Counted(Bits(error[..2]));
      StartOctets(frame, error);
    } else {
      FiveBitsDetected(frame[2..10], error[2..10]);
    }
  }

  /** A frame as built, with one to five wrong bits anywhere, is rejected. */
  lemma FiveWrongBitsRejected(link: Link, application: seq<Octet>, control: Octet, error: seq<Octet>)
    requires Frame(link, application, control).Some? && |error| == |Frame(link, application, control).value|
    requires 1 <= ErrorCount(Bits(error)) <= 5
    ensures Receive(XorData(Frame(link, application, control).value, error)) == None
  {
    FrameRoundTrip(link, application, control);
    hide Frame, Blocks, Strip, Intact, XorData, Bits, ErrorCount, Seal, Header, Receive;
    var frame := Frame(link, application, control).value;
    FrameParts(link, application, control);
    SealIsIntact(Header(link, 6 + |application|, control));
    ReceivedParts(frame, error);
    assert error == error[..10] + error[10..];
    CountParts(error[..10], error[10..]);
    if ErrorCount(Bits(error[..10])) > 0 {
      HeadErrorsRejected(frame, error);
    } else {
      BodyErrorsRejected([TRANSPORT] + application, error[10..]);
      BodyDecides(XorData(frame, error));
    }
  }

  lemma StandardBroken(frame: seq<Octet>)
    requires |frame| >= 10 && (!Intact(frame[..10]) || Strip(frame[10..]) == None)
    ensures ReceiveStandard(frame) == None
  {
    hide Strip, Intact;
  }

  lemma Framable(link: Link, application: seq<Octet>, control: Octet)
    ensures StandardFrame(link, application, control).Some? ==> |application| <= 249
  {
    hide Blocks, Seal, Header;
  }

  /** So is a conforming frame, by a receiver that follows the standard. */
  lemma StandardFiveWrongBitsRejected(link: Link, application: seq<Octet>, control: Octet, error: seq<Octet>)
    requires StandardFrame(link, application, control).Some?
    requires |error| == |StandardFrame(link, application, control).value| && 1 <= ErrorCount(Bits(error)) <= 5
    ensures ReceiveStandard(XorData(StandardFrame(link, application, control).value, error)) == None
  {
    Framable(link, application, control);
    hide StandardFrame, Blocks, Strip, Intact, XorData, Bits, ErrorCount, Seal, Header, ReceiveStandard;
    var frame := StandardFrame(link, application, control).value;
    StandardParts(link, application, control);
    SealIsIntact(START + Header(link, 6 + |application|, control));
    XorSplit(frame, error, 10);
    assert error == error[..10] + error[10..];
    CountParts(error[..10], error[10..]);
    if ErrorCount(Bits(error[..10])) > 0 {
      FiveBitsDetected(frame[..10], error[..10]);
    } else {
      BodyErrorsRejected([TRANSPORT] + application, error[10..]);
    }
    StandardBroken(XorData(frame, error));
  }
}
