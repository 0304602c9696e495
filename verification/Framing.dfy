/** The vpcd wire format: every message travels behind its length in two
    bytes, most significant first (vpcd.c, sendToVICC and recvFromVICC). */
module Framing {
  import opened Basics
  import opened Bytes

  const MAX_MESSAGE := 0xFFFF

  type Message = m: seq<byte> | |m| <= MAX_MESSAGE

  function Frame(m: Message): (f: seq<byte>)
  {
    BE16(|m|) + m
  }

  /** The byte stream of a list of messages sent one after the other. */
  function Frames(ms: seq<Message>): (s: seq<byte>)
  {
    if ms == [] then [] else Frame(ms[0]) + Frames(ms[1..])
  }

  /** A receiver that reads one frame off a stream reads the frame that was
      written, and leaves exactly what followed it. */
  lemma FrameIsPrefixFree(a: Message, x: seq<byte>, b: Message, y: seq<byte>)
    requires Frame(a) + x == Frame(b) + y
    ensures a == b && x == y
  {
    var s, t := Frame(a) + x, Frame(b) + y;
    assert s[..2] == BE16(|a|) && t[..2] == BE16(|b|);
    assert FromBE16(s[..2]) == |a| && FromBE16(t[..2]) == |b|;
    assert s[2..2 + |a|] == a && t[2..2 + |b|] == b;
    assert s[2 + |a|..] == x && t[2 + |b|..] == y;
  }

  lemma FirstFrame(m: Message, ms: seq<Message>)
    ensures Frames([m] + ms) == Frame(m) + Frames(ms)
  {
    assert ([m] + ms)[1..] == ms;
  }

  lemma {:induction false} FramesAppend(ms: seq<Message>, ns: seq<Message>)
    ensures Frames(ms + ns) == Frames(ms) + Frames(ns)
  {
    if ms == [] {
      assert ms + ns == ns;
    } else {
      FramesAppend(ms[1..], ns);
      assert ms + ns == [ms[0]] + (ms[1..] + ns);
      FirstFrame(ms[0], ms[1..] + ns);
      Regroup(Frame(ms[0]), Frames(ms[1..]), Frames(ns));
    }
  }

  lemma FramesSnoc(ms: seq<Message>, m: Message)
    ensures Frames(ms + [m]) == Frames(ms) + Frame(m)
  {
    FramesAppend(ms, [m]);
    FirstFrame(m, []);
    assert [m] + [] == [m] && Frame(m) + [] == Frame(m);
  }

  /** Reading k frames off a stream of frames recovers the first k messages
      that were sent, whatever the reader believes it read. */
  lemma {:induction false} ReceivedIsSent(got: seq<Message>, left: seq<byte>, sent: seq<Message>, tail: seq<byte>)
    requires |got| <= |sent|
    requires Frames(got) + left == Frames(sent) + tail
    ensures got == sent[..|got|]
    ensures left == Frames(sent[|got|..]) + tail
  {
    if got == [] {
      assert sent[|got|..] == sent;
    } else {
      var x, y := Frames(got[1..]) + left, Frames(sent[1..]) + tail;
      assert Frame(got[0]) + x == Frames(got) + left;
      assert Frame(sent[0]) + y == Frames(sent) + tail;
      FrameIsPrefixFree(got[0], x, sent[0], y);
      ReceivedIsSent(got[1..], left, sent[1..], tail);
      assert sent[1..][|got| - 1..] == sent[|got|..];
      assert sent[..|got|] == [sent[0]] + sent[1..][..|got| - 1];
    }
  }
}
