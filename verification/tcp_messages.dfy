/** Messages as their sender knows them: what was sent on which channel, what was said in which text. */
module TcpMessages {
  import opened Wrappers
  import opened TcpReassembly
  import opened TcpCoverage
  import opened TcpDecoder
  import opened TcpStream
  import TcpOffsets
  import TcpConnection

  /** Data on an interleaved channel, or an RTSP message: its header up to the blank line, and its body. */
  datatype Sent = OnChannel(channel: byte, payload: seq<byte>) | Said(head: seq<byte>, body: seq<byte>)

  /** The bytes on the wire (section 10.12 of RFC 2326). */
  function Encoded(m: Sent): seq<byte>
    requires m.OnChannel? ==> |m.payload| < 0x1_0000
  {
    match m
    case OnChannel(channel, payload) => [0x24, channel, |payload| / 256, |payload| % 256] + payload
    case Said(head, body) => head + body
  }

  predicate Begins(b: seq<byte>, s: string)
  {
    |s| <= |b| && forall i :: 0 <= i < |s| ==> b[i] == s[i] as int
  }

  /** The text begins with a method, or with the protocol of a status line. */
  predicate Named(b: seq<byte>)
  {
    || Begins(b, "RTSP/") || Begins(b, "OPTIONS ") || Begins(b, "DESCRIBE ") || Begins(b, "SETUP ")
    || Begins(b, "PLAY ") || Begins(b, "PAUSE ") || Begins(b, "TEARDOWN ") || Begins(b, "GET_PARAMETER ")
    || Begins(b, "SET_PARAMETER ") || Begins(b, "ANNOUNCE ") || Begins(b, "RECORD ")
  }

  predicate Blank(b: seq<byte>, i: nat)
  {
    i + 4 <= |b| && b[i..i + 4] == [13, 10, 13, 10]
  }

  /** Data that begins like RTP or RTCP version 2; a text with one blank line, at the end of its header,
      that names a method and has the body its header declares, within the limits of 64 and 256 KiB. */
  predicate Sendable(lengthOf: LengthOf, m: Sent)
  {
    match m
    case OnChannel(channel, payload) => 4 <= |payload| < 0x1_0000 && payload[0] / 64 == 2
    case Said(head, body) =>
      && Named(head) && |head| >= 4 && Blank(head, |head| - 4)
      && (forall i: nat :: i < |head| - 4 ==> !Blank(head, i))
      && |body| == lengthOf(head) && |head| <= 65_536 && |head| + |body| <= 262_144
  }

  ghost predicate AllSendable(lengthOf: LengthOf, sent: seq<Sent>)
  {
    forall i :: 0 <= i < |sent| ==> Sendable(lengthOf, sent[i])
  }

  function Raws(lengthOf: LengthOf, sent: seq<Sent>): (raws: seq<seq<byte>>)
    requires AllSendable(lengthOf, sent)
    ensures |raws| == |sent| && forall i :: 0 <= i < |sent| ==> raws[i] == Encoded(sent[i])
  {
    seq(|sent|, i requires 0 <= i < |sent| => Encoded(sent[i]))
  }

  /** The message received says what was sent. */
  predicate Says(m: Message, s: Sent)
  {
    match s
    case OnChannel(channel, payload) => m.Interleaved? && m.channel == channel && m.payload == payload
    case Said(head, body) => m.Rtsp? && m.text == head + body
  }

  // ---------------------------------------------------------------- what is recognised

  /** The decoder recognises exactly these methods. */
  lemma NamedExactly(b: seq<byte>)
    ensures StartsRtsp(b) <==> Named(b)
  {
    if StartsRtsp(b) {
      var m :| 0 <= m < |METHODS| && StartsWith(b, METHODS[m]);
      assert Begins(b, METHODS[m]);
    }
    if Named(b) {
      NamedStarts(b);
    }
  }

  lemma NamedStarts(b: seq<byte>)
    requires Named(b)
    ensures StartsRtsp(b)
  {
    assert Begins(b, "RTSP/") ==> StartsWith(b, METHODS[0]);
    assert Begins(b, "OPTIONS ") ==> StartsWith(b, METHODS[1]);
    assert Begins(b, "DESCRIBE ") ==> StartsWith(b, METHODS[2]);
    assert Begins(b, "SETUP ") ==> StartsWith(b, METHODS[3]);
    assert Begins(b, "PLAY ") ==> StartsWith(b, METHODS[4]);
    assert Begins(b, "PAUSE ") ==> StartsWith(b, METHODS[5]);
    assert Begins(b, "TEARDOWN ") ==> StartsWith(b, METHODS[6]);
    assert Begins(b, "GET_PARAMETER ") ==> StartsWith(b, METHODS[7]);
    assert Begins(b, "SET_PARAMETER ") ==> StartsWith(b, METHODS[8]);
    assert Begins(b, "ANNOUNCE ") ==> StartsWith(b, METHODS[9]);
    assert Begins(b, "RECORD ") ==> StartsWith(b, METHODS[10]);
  }

  lemma BlankIs(b: seq<byte>, i: nat)
    ensures BlankLine(b, i) <==> Blank(b, i)
  {
    if i + 4 <= |b| {
      var four := b[i..i + 4];
      assert four[0] == b[i] && four[1] == b[i + 1] && four[2] == b[i + 2] && four[3] == b[i + 3];
    }
  }

  /** The header of an encoded text ends where it should. */
  lemma {:induction false} HeadEnds(head: seq<byte>, body: seq<byte>)
    requires |head| >= 4 && Blank(head, |head| - 4) && forall i: nat :: i < |head| - 4 ==> !Blank(head, i)
    ensures HeaderEnd(head + body, 0) == Some(|head|)
  {
    hide HeaderEnd, Blank, BlankLine;
    BlankIs(head, |head| - 4);
    forall i: nat | i < |head| - 4 ensures !BlankLine(head, i) {
      BlankIs(head, i);
    }
    FirstBlank(head, |head| - 4);
    HeaderEndStable(head, body);
  }

  lemma {:induction false} FirstBlank(b: seq<byte>, i: nat)
    requires BlankLine(b, i) && forall j: nat :: j < i ==> !BlankLine(b, j)
    ensures HeaderEnd(b, 0) == Some(i + 4)
  {
    var end := HeaderEnd(b, 0);
    assert end.Some?;
    assert BlankLine(b, end.value - 4);
  }

  lemma EncodedWellFormed(lengthOf: LengthOf, m: Sent)
    requires Sendable(lengthOf, m)
    ensures WellFormed(lengthOf, Encoded(m))
  {
    hide StartsRtsp, HeaderEnd, Blank;
    var raw := Encoded(m);
    if m.Said? {
      NamedFirst(m.head);
      NamedExactly(m.head);
      StartsRtspStable(m.head, m.body);
      HeadEnds(m.head, m.body);
      assert raw[..|m.head|] == m.head;
    }
  }

  lemma NamedFirst(b: seq<byte>)
    requires Named(b)
    ensures b != [] && b[0] != 0x24
  {
  }

  /** Encoding and decoding a message: the channel, the payload and the text are those sent. */
  lemma EncodedSays(lengthOf: LengthOf, m: Sent, meta: FrameMeta)
    requires Sendable(lengthOf, m)
    ensures Proper(Encoded(m)) && Says(ToMessage(Encoded(m), meta), m)
  {
    var raw := Encoded(m);
    if m.Said? {
      NamedFirst(m.head);
      assert raw[0] == m.head[0];
    } else {
      assert raw[4..] == m.payload;
    }
  }

  // ---------------------------------------------------------------- captures

  /** Where the `i`-th message begins. */
  function OffsetOf(raws: seq<seq<byte>>, i: nat): nat
    requires i <= |raws|
  {
    if i == 0 then 0 else OffsetOf(raws, i - 1) + |raws[i - 1]|
  }

  lemma {:induction false} FrameIs(raws: seq<seq<byte>>, at: nat, i: nat)
    requires i < |raws|
    ensures |FramesOf(raws, at)| == |raws| && FramesOf(raws, at)[i] == Frame(at + OffsetOf(raws, i), raws[i])
    decreases |raws|
  {
    FramesCount(raws, at);
    if i > 0 {
      FrameIs(raws[1..], at + |raws[0]|, i - 1);
      OffsetTail(raws, i);
    }
  }

  lemma {:induction false} FramesCount(raws: seq<seq<byte>>, at: int)
    ensures |FramesOf(raws, at)| == |raws|
  {
    if raws != [] {
      FramesCount(raws[1..], at + |raws[0]|);
    }
  }

  lemma {:induction false} OffsetTail(raws: seq<seq<byte>>, i: nat)
    requires 0 < i <= |raws|
    ensures OffsetOf(raws, i) == |raws[0]| + OffsetOf(raws[1..], i - 1)
    decreases i
  {
    if i > 1 {
      OffsetTail(raws, i - 1);
    }
  }

  /** The messages are the first ones sent, in order, each with the metadata of the chunk that brought its
      first byte. */
  ghost predicate Received(lengthOf: LengthOf, sent: seq<Sent>, messages: seq<Message>, es: seq<Emission>)
    requires AllSendable(lengthOf, sent)
  {
    && |messages| <= |sent|
    && forall i :: 0 <= i < |messages| ==>
         Says(messages[i], sent[i]) && InChunk(es, OffsetOf(Raws(lengthOf, sent), i), 1, messages[i].meta)
  }

  lemma LabelledReceived(lengthOf: LengthOf, sent: seq<Sent>, frames: seq<Frame>, messages: seq<Message>,
                         es: seq<Emission>)
    requires AllSendable(lengthOf, sent) && frames <= FramesOf(Raws(lengthOf, sent), 0)
    requires Labelled(frames, messages, es)
    ensures Received(lengthOf, sent, messages, es)
  {
    hide InChunk, Says, Encoded, Sendable, FramesOf;
    var raws := Raws(lengthOf, sent);
    FramesCount(raws, 0);
    forall i | 0 <= i < |messages|
      ensures Says(messages[i], sent[i]) && InChunk(es, OffsetOf(raws, i), 1, messages[i].meta)
    {
      FrameIs(raws, 0, i);
      assert frames[i] == FramesOf(raws, 0)[i];
      assert LabelledBy(frames[i], messages[i], es);
      EncodedSays(lengthOf, sent[i], messages[i].meta);
    }
  }

  lemma RawsWellFormed(lengthOf: LengthOf, sent: seq<Sent>)
    requires AllSendable(lengthOf, sent)
    ensures AllWellFormed(lengthOf, Raws(lengthOf, sent))
  {
    hide WellFormed, Encoded, Sendable;
    forall i | 0 <= i < |sent| ensures WellFormed(lengthOf, Raws(lengthOf, sent)[i]) {
      EncodedWellFormed(lengthOf, sent[i]);
    }
  }

  /** While no hole is skipped, the messages received are the first ones sent. */
  lemma {:induction false} SentSoFar(lengthOf: LengthOf, sent: seq<Sent>, isn: u32, events: seq<Event>,
                                     ds: seq<Segment>)
    requires AllSendable(lengthOf, sent) && InWindow(ds) && Captured(isn, events, ds)
    requires forall i :: 0 <= i < |ds| ==>
      FromStream(Flatten(Raws(lengthOf, sent)), ds[i]) && Fits(Raws(lengthOf, sent), |ds[i].data|)
    requires Run(events).state.gaps == 0
    ensures Received(lengthOf, sent, Feed(lengthOf, Run(events).out).messages, Run(events).out)
  {
    hide AllSendable, AllWellFormed, Received, Feed, Run, Flatten, FramesOf, Labelled, Captured, InWindow, FromStream,
      Fits, Raws, Decode, Frontier;
    var raws := Raws(lengthOf, sent);
    RawsWellFormed(lengthOf, sent);
    EndToEnd(lengthOf, raws, isn, events, ds);
    var f := Feed(lengthOf, Run(events).out);
    LabelledReceived(lengthOf, sent, f.frames, f.messages, Run(events).out);
  }

  /** The main result: a captured direction that holds every byte of the messages sent, in any order and
      with any overlap and retransmission, yields exactly these messages: every channel, payload and text
      as it was sent, nothing skipped, discarded or left over. */
  lemma {:induction false} CaptureRecoversSent(lengthOf: LengthOf, sent: seq<Sent>, isn: u32, events: seq<Event>,
                                               ds: seq<Segment>)
    requires AllSendable(lengthOf, sent) && InWindow(ds) && WithinLimits(ds) && Captured(isn, events, ds)
    requires forall i :: 0 <= i < |ds| ==>
      FromStream(Flatten(Raws(lengthOf, sent)), ds[i]) && Fits(Raws(lengthOf, sent), |ds[i].data|)
    requires forall p :: 0 <= p < |Flatten(Raws(lengthOf, sent))| ==> Covered(ds, p)
    ensures var t := Run(events + [Close]);
      var f := Feed(lengthOf, t.out);
      && |f.messages| == |sent| && Received(lengthOf, sent, f.messages, t.out)
      && f.state.buffer == [] && f.state.discardedBytes == 0
      && t.state.gaps == 0 && t.state.pending == map[]
  {
    hide AllSendable, AllWellFormed, Received, Feed, Run, Flatten, FramesOf, Captured, InWindow, WithinLimits,
      FromStream, Fits, Covered, LabelledBy;
    var raws := Raws(lengthOf, sent);
    RawsWellFormed(lengthOf, sent);
    TcpConnection.CaptureRecoversMessages(lengthOf, raws, isn, events, ds);
    var t := Run(events + [Close]);
    var f := Feed(lengthOf, t.out);
    FramesCount(raws, 0);
    LabelledReceived(lengthOf, sent, f.frames, f.messages, t.out);
  }

  // ---------------------------------------------------------------- any run

  /** A message cut from a stream, re-encoded, is the bytes it was cut from. */
  ghost predicate CutFrom(m: Message, raw: seq<byte>)
  {
    match m
    case Interleaved(channel, payload, _) =>
      && 4 <= |payload| < 0x1_0000 && payload[0] / 64 == 2
      && raw == Encoded(OnChannel(channel, payload))
    case Rtsp(text, _) => Named(text) && raw == text
  }

  /** What the decoder takes for a message. */
  predicate Shaped(raw: seq<byte>)
  {
    if raw != [] && raw[0] == 0x24 then
      |raw| >= 8 && |raw| - 4 == Be16(raw[2], raw[3]) && raw[4] / 64 == 2
    else Named(raw)
  }

  ghost predicate AllShaped(frames: seq<Frame>)
  {
    forall i :: 0 <= i < |frames| ==> Shaped(frames[i].raw)
  }

  lemma ShapedCut(raw: seq<byte>, meta: FrameMeta)
    requires Shaped(raw)
    ensures Proper(raw) && CutFrom(ToMessage(raw, meta), raw)
  {
    if raw != [] && raw[0] == 0x24 {
      var payload := raw[4..];
      assert raw == raw[..4] + payload;
      assert |payload| / 256 == raw[2] && |payload| % 256 == raw[3];
      assert raw[..4] == [0x24, raw[1], |payload| / 256, |payload| % 256];
    } else {
      NamedFirst(raw);
    }
  }

  predicate OneLine(s: string)
  {
    forall i :: 0 <= i < |s| ==> s[i] as int != 13
  }

  lemma BeginsHead(b: seq<byte>, end: nat, s: string)
    requires 4 <= end <= |b| && BlankLine(b, end - 4) && OneLine(s) && Begins(b, s)
    ensures Begins(b[..end], s)
  {
    assert b[end - 4] == 13;
  }

  /** A method name contains no carriage return, so the blank line comes behind it. */
  lemma NamedHead(b: seq<byte>, end: nat)
    requires Named(b) && 4 <= end <= |b| && BlankLine(b, end - 4)
    ensures Named(b[..end])
  {
    hide Begins, BlankLine, OneLine;
    OneLiners();
    if Begins(b, "RTSP/") { BeginsHead(b, end, "RTSP/"); }
    if Begins(b, "OPTIONS ") { BeginsHead(b, end, "OPTIONS "); }
    if Begins(b, "DESCRIBE ") { BeginsHead(b, end, "DESCRIBE "); }
    if Begins(b, "SETUP ") { BeginsHead(b, end, "SETUP "); }
    if Begins(b, "PLAY ") { BeginsHead(b, end, "PLAY "); }
    if Begins(b, "PAUSE ") { BeginsHead(b, end, "PAUSE "); }
    if Begins(b, "TEARDOWN ") { BeginsHead(b, end, "TEARDOWN "); }
    if Begins(b, "GET_PARAMETER ") { BeginsHead(b, end, "GET_PARAMETER "); }
    if Begins(b, "SET_PARAMETER ") { BeginsHead(b, end, "SET_PARAMETER "); }
    if Begins(b, "ANNOUNCE ") { BeginsHead(b, end, "ANNOUNCE "); }
    if Begins(b, "RECORD ") { BeginsHead(b, end, "RECORD "); }
  }

  lemma OneLiners()
    ensures OneLine("RTSP/")
    ensures OneLine("OPTIONS ")
    ensures OneLine("DESCRIBE ")
    ensures OneLine("SETUP ")
    ensures OneLine("PLAY ")
    ensures OneLine("PAUSE ")
    ensures OneLine("TEARDOWN ")
    ensures OneLine("GET_PARAMETER ")
    ensures OneLine("SET_PARAMETER ")
    ensures OneLine("ANNOUNCE ")
    ensures OneLine("RECORD ")
  {
  }

  lemma TakeShaped(lengthOf: LengthOf, b: seq<byte>)
    requires b != [] && Next(lengthOf, b).Take?
    ensures Shaped(b[..Next(lengthOf, b).n])
  {
    hide StartsRtsp, HeaderEnd, Named;
    if b[0] != DOLLAR {
      NamedExactly(b);
      var end := HeaderEnd(b, 0).value;
      var n := Next(lengthOf, b).n;
      assert Named(b[..end]) by { NamedHead(b, end); }
      assert b[..n] == b[..end] + b[end..n];
      NamedMore(b[..end], b[end..n]);
    }
  }

  lemma NamedMore(b: seq<byte>, x: seq<byte>)
    requires Named(b)
    ensures Named(b + x) && b != [] && b[0] != 0x24
  {
    NamedFirst(b);
    NamedExactly(b);
    StartsRtspStable(b, x);
    NamedExactly(b + x);
  }

  lemma {:induction false} DecodeShaped(lengthOf: LengthOf, b: seq<byte>, at: int)
    ensures AllShaped(Decode(lengthOf, b, at).frames)
    decreases |b|
  {
    hide Next, Shaped, Decode;
    if b != [] {
      DecodeOnce(lengthOf, b, at);
      if Next(lengthOf, b).Take? || Next(lengthOf, b).Drop? {
        DecodeShaped(lengthOf, b[Next(lengthOf, b).n..], at + Next(lengthOf, b).n);
        if Next(lengthOf, b).Take? {
          TakeShaped(lengthOf, b);
        }
      }
    } else {
      DecodeNothing(lengthOf, at);
    }
  }

  lemma {:induction false} DecodeNothing(lengthOf: LengthOf, at: int)
    ensures Decode(lengthOf, [], at).frames == []
  {
  }

  lemma {:induction false} FeedShaped(lengthOf: LengthOf, es: seq<Emission>)
    ensures AllShaped(Feed(lengthOf, es).frames)
    decreases |es|
  {
    hide Decode, Shaped;
    if es != [] {
      var prefix, last := es[..|es|-1], es[|es|-1];
      FeedShaped(lengthOf, prefix);
      var d := Filled(Feed(lengthOf, prefix).state, last.chunk);
      DecodeShaped(lengthOf, d.buffer, BufferStart(Feed(lengthOf, prefix).state, last));
    }
  }

  /** Any chunks, with holes and garbage: every message handed over is its frame's bytes, rightly taken
      apart, whatever stands before and behind it. */
  lemma {:induction false} MessagesCut(lengthOf: LengthOf, es: seq<Emission>)
    requires Ordered(es)
    ensures var f := Feed(lengthOf, es);
      |f.messages| == |f.frames| && forall i :: 0 <= i < |f.messages| ==> CutFrom(f.messages[i], f.frames[i].raw)
  {
    hide Feed, Shaped, CutFrom, InChunk, Own;
    MessagesLabelled(lengthOf, es);
    FeedShaped(lengthOf, es);
    var f := Feed(lengthOf, es);
    forall i | 0 <= i < |f.messages| ensures CutFrom(f.messages[i], f.frames[i].raw) {
      assert LabelledBy(f.frames[i], f.messages[i], es) && Shaped(f.frames[i].raw);
      ShapedCut(f.frames[i].raw, f.messages[i].meta);
    }
  }

  /** And a whole capture, lossy or not: every message is one contiguous slice of what the sender sent,
      rightly taken apart, and messages come in order. */
  lemma {:induction false} LossyMessages(lengthOf: LengthOf, stream: int -> byte, isn: u32, events: seq<Event>,
                                         sent: seq<Segment>)
    requires TcpOffsets.SentAs(isn, events, sent) && TcpOffsets.InReach(events, sent)
    requires forall i :: 0 <= i < |sent| ==> Agrees(stream, sent[i].at, sent[i].data)
    ensures var f := Feed(lengthOf, Run(events).out);
      && |f.messages| == |f.frames|
      && (forall i :: 0 <= i < |f.frames| ==>
            && sent != [] && Agrees(From(stream, sent[0].at), f.frames[i].at, f.frames[i].raw)
            && CutFrom(f.messages[i], f.frames[i].raw))
      && forall i, j :: 0 <= i < j < |f.frames| ==> f.frames[i].End() <= f.frames[j].at
  {
    hide Feed, Run, CutFrom, TcpOffsets.SentAs, TcpOffsets.InReach, Agrees, Inv;
    RunInv(events);
    var es := Run(events).out;
    InvOrdered(Run(events).state, Run(events).history, es);
    MessagesCut(lengthOf, es);
    CaptureNeverFabricates(lengthOf, stream, isn, events, sent);
    if es == [] {
      FeedEmptyFrames(lengthOf);
    } else {
      WithinOrder(es[0].at, Feed(lengthOf, es).frames, es[|es|-1].End() - |Feed(lengthOf, es).state.buffer|);
    }
  }

  lemma {:induction false} WithinOrder(from: int, frames: seq<Frame>, to: int)
    requires Within(from, frames, to)
    ensures forall i :: 0 <= i < |frames| ==> from <= frames[i].at
    ensures forall i, j :: 0 <= i < j < |frames| ==> frames[i].End() <= frames[j].at
    decreases |frames|
  {
    if frames != [] {
      WithinOrder(frames[0].End(), frames[1..], to);
      assert forall j :: 0 < j < |frames| ==> frames[j] == frames[1..][j - 1];
    }
  }

  lemma InvOrdered(s: State, h: seq<Segment>, out: seq<Emission>)
    requires Inv(s, h, out)
    ensures Ordered(out)
  {
  }

  lemma FeedEmptyFrames(lengthOf: LengthOf)
    ensures Feed(lengthOf, []).frames == []
  {
  }

  // ---------------------------------------------------------------- garbage and limits

  /** No message can begin at the position. */
  predicate Junk(b: seq<byte>, i: nat)
    requires i < |b|
  {
    b[i] != 0x24 && !Named(b[i..])
  }

  lemma JunkIs(b: seq<byte>, i: nat)
    requires i < |b|
    ensures Junk(b, i) <==> !Candidate(b, i)
  {
    hide StartsRtsp, Named;
    NamedExactly(b[i..]);
  }

  /** Where no message can begin but at `n`, or nowhere, the decoder drops what precedes `n`, or all but
      the last 15 bytes. */
  lemma JunkMove(lengthOf: LengthOf, b: seq<byte>, n: nat)
    requires |b| >= 16 && 0 < n <= |b| && forall i: nat :: i < n ==> Junk(b, i)
    requires n < |b| ==> !Junk(b, n)
    ensures Next(lengthOf, b) == Drop(if n < |b| then n else |b| - 15)
  {
    hide StartsRtsp, Named, Junk;
    forall i: nat | i < |b| ensures Junk(b, i) <==> !Candidate(b, i) {
      JunkIs(b, i);
    }
    assert b[0..] == b;
    assert !Candidate(b, 0);
    var c := FirstCandidate(b, 1);
    if c.Some? {
      assert Candidate(b, c.value);
    }
  }

  /** Garbage in front of messages is dropped, counted byte for byte, and costs none of them. */
  lemma {:induction false} GarbageSkipped(lengthOf: LengthOf, garbage: seq<byte>, raws: seq<seq<byte>>, at: int)
    requires AllWellFormed(lengthOf, raws) && raws != [] && garbage != []
    requires var b := garbage + Flatten(raws);
      |b| >= 16 && forall i: nat :: i < |garbage| ==> Junk(b, i)
    ensures Decode(lengthOf, garbage + Flatten(raws), at)
      == Decoded(FramesOf(raws, at + |garbage|), |garbage|, [], false)
  {
    hide WellFormed, Junk, Decode, Next, Flatten, FramesOf;
    var b, n := garbage + Flatten(raws), |garbage|;
    FlattenFirst(lengthOf, raws);
    assert b[n..] == Flatten(raws);
    MessageIsNoJunk(lengthOf, raws, b, n);
    JunkMove(lengthOf, b, n);
    DecodeOnce(lengthOf, b, at);
    DecodeBeginning(lengthOf, raws, Flatten(raws), at + n);
  }

  lemma {:induction false} FlattenFirst(lengthOf: LengthOf, raws: seq<seq<byte>>)
    requires AllWellFormed(lengthOf, raws) && raws != []
    ensures raws[0] != [] && |Flatten(raws)| > 0 && Flatten(raws)[0] == raws[0][0]
    ensures Flatten(raws) == raws[0] + Flatten(raws[1..]) && WellFormed(lengthOf, raws[0])
  {
    WellFormedNonEmpty(lengthOf, raws);
  }

  lemma {:induction false} MessageIsNoJunk(lengthOf: LengthOf, raws: seq<seq<byte>>, b: seq<byte>, n: nat)
    requires AllWellFormed(lengthOf, raws) && raws != [] && n < |b| && b[n..] == Flatten(raws)
    ensures !Junk(b, n)
  {
    hide Named, StartsRtsp, HeaderEnd, Flatten;
    FlattenFirst(lengthOf, raws);
    assert b[n] == b[n..][0];
    if raws[0][0] != 0x24 {
      StartsRtspStable(raws[0], Flatten(raws[1..]));
      NamedExactly(b[n..]);
    }
  }

  /** Of bytes in which no message can begin the last 15 are kept, for a method cut in two. */
  lemma {:induction false} GarbageWaits(lengthOf: LengthOf, b: seq<byte>, at: int)
    requires |b| >= 16 && forall i: nat :: i < |b| ==> Junk(b, i)
    ensures Decode(lengthOf, b, at) == Decoded([], |b| - 15, b[|b| - 15..], false)
  {
    hide Junk, Decode;
    JunkMove(lengthOf, b, |b|);
    DecodeOnce(lengthOf, b, at);
    var rest := b[|b| - 15..];
    assert rest[0..] == b[|b| - 15..];
    JunkIs(b, |b| - 15);
    assert rest[0] == b[|b| - 15];
    DecodeOnce(lengthOf, rest, at + |b| - 15);
  }

  /** What looks like a frame but is too short for one, or carries another version, is stepped over. */
  lemma BadFrameDropped(lengthOf: LengthOf, b: seq<byte>)
    requires |b| >= 4 && b[0] == 0x24
    requires Be16(b[2], b[3]) < 4 || (|b| >= 5 && b[4] / 64 != 2)
    ensures Next(lengthOf, b) == Drop(1)
  {
  }

  /** A header beyond 64 KiB without a blank line, and a message beyond 256 KiB, clear the buffer. */
  lemma {:induction false} OverlongCleared(lengthOf: LengthOf, b: seq<byte>, at: int)
    requires Named(b)
    requires (|b| > 65_536 && forall i: nat :: i < |b| ==> !Blank(b, i)) || Oversized(lengthOf, b)
    ensures Decode(lengthOf, b, at) == Decoded([], |b|, [], true)
  {
    hide Named, StartsRtsp, HeaderEnd, Blank, BlankLine;
    NamedExactly(b);
    NamedMore(b, []);
    if Oversized(lengthOf, b) {
      var end: nat :| 4 <= end <= |b| && Blank(b, end - 4) && (forall i: nat :: i < end - 4 ==> !Blank(b, i))
        && end + lengthOf(b[..end]) > 262_144;
      BlankIs(b, end - 4);
      forall i: nat | i < end - 4 ensures !BlankLine(b, i) {
        BlankIs(b, i);
      }
      FirstBlank(b, end - 4);
    } else {
      forall i: nat | i < |b| ensures !BlankLine(b, i) {
        BlankIs(b, i);
      }
      NoBlank(b);
    }
    DecodeOnce(lengthOf, b, at);
  }

  ghost predicate Oversized(lengthOf: LengthOf, b: seq<byte>)
  {
    exists end: nat :: 4 <= end <= |b| && Blank(b, end - 4) && (forall i: nat :: i < end - 4 ==> !Blank(b, i))
      && end + lengthOf(b[..end]) > 262_144
  }

  lemma {:induction false} NoBlank(b: seq<byte>)
    requires forall i: nat :: i < |b| ==> !BlankLine(b, i)
    ensures HeaderEnd(b, 0).None?
  {
  }

  /** Up to 64 KiB a header without a blank line is waited for. */
  lemma {:induction false} HeaderAwaited(lengthOf: LengthOf, b: seq<byte>, at: int)
    requires Named(b) && |b| <= 65_536 && forall i: nat :: i < |b| ==> !Blank(b, i)
    ensures Decode(lengthOf, b, at) == Decoded([], 0, b, false)
  {
    hide Named, StartsRtsp, HeaderEnd, Blank, BlankLine;
    NamedExactly(b);
    NamedMore(b, []);
    forall i: nat | i < |b| ensures !BlankLine(b, i) {
      BlankIs(b, i);
    }
    NoBlank(b);
    DecodeOnce(lengthOf, b, at);
  }

  /** Up to 256 KiB everything in the buffer is decoded. */
  lemma {:induction false} BufferRead(lengthOf: LengthOf, d: Buffered, at: int)
    requires Consistent(d) && |d.buffer| <= 262_144
    ensures Parse(lengthOf, d, at).frames == Decode(lengthOf, d.buffer, at).frames
    ensures Parse(lengthOf, d, at).state.buffer == Decode(lengthOf, d.buffer, at).rest
  {
    hide Decode;
  }

  /** A buffer beyond 256 KiB is cleared before anything is read from it. */
  lemma BufferCleared(lengthOf: LengthOf, d: Buffered, at: int)
    requires Consistent(d) && |d.buffer| > 262_144
    ensures Parse(lengthOf, d, at) == Parsed(Buffered([], [], d.discardedBytes + |d.buffer|), [], [])
  {
  }

  lemma {:induction false} FramedBytesConcat(a: seq<Frame>, b: seq<Frame>)
    ensures FramedBytes(a + b) == FramedBytes(a) + FramedBytes(b)
  {
    if a == [] {
      assert a + b == b;
    } else {
      assert (a + b)[1..] == a[1..] + b;
      FramedBytesConcat(a[1..], b);
    }
  }

  lemma ParseConserves(lengthOf: LengthOf, d: Buffered, at: int)
    requires Consistent(d)
    ensures var p := Parse(lengthOf, d, at);
      |d.buffer| + d.discardedBytes == FramedBytes(p.frames) + p.state.discardedBytes + |p.state.buffer|
  {
    hide Decode;
    DecodeConserves(lengthOf, d.buffer, at);
  }

  /** Every byte handed to the decoder is in a message, counted as discarded, or still buffered, through
      holes, garbage and cleared buffers. */
  lemma {:induction false} FeedConserves(lengthOf: LengthOf, es: seq<Emission>)
    ensures var f := Feed(lengthOf, es);
      |Bytes(es)| == FramedBytes(f.frames) + f.state.discardedBytes + |f.state.buffer|
    decreases |es|
  {
    hide Parse;
    if es != [] {
      var prefix, last := es[..|es|-1], es[|es|-1];
      FeedConserves(lengthOf, prefix);
      FeedGrows(lengthOf, es);
      var f := Feed(lengthOf, prefix);
      var d, at := Filled(f.state, last.chunk), BufferStart(f.state, last);
      FilledConsistent(f.state, last.chunk);
      ParseConserves(lengthOf, d, at);
      FramedBytesConcat(f.frames, Parse(lengthOf, d, at).frames);
    }
  }
}
