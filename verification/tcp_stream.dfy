/** Reassembled chunks fed to the decoder, as `Capture::frame` wires them
    (crates/capture/src/lib.rs:744-753): what the messages are, over whole runs. */
module TcpStream {
  import opened Wrappers
  import opened TcpReassembly
  import opened TcpCoverage
  import TcpOffsets
  import opened TcpDecoder

  datatype Fed = Fed(state: Buffered, frames: seq<Frame>, messages: seq<Message>)

  /** Position of the first buffered byte once `e` has been taken in. */
  function BufferStart(d: Buffered, e: Emission): int
  {
    e.End() - |Filled(d, e.chunk).buffer|
  }

  function FeedOne(lengthOf: LengthOf, f: Fed, e: Emission): (r: Fed)
    requires Consistent(f.state)
    ensures Consistent(r.state)
  {
    FilledConsistent(f.state, e.chunk);
    ParseConsistent(lengthOf, Filled(f.state, e.chunk), BufferStart(f.state, e));
    var p := Parse(lengthOf, Filled(f.state, e.chunk), BufferStart(f.state, e));
    Fed(p.state, f.frames + p.frames, f.messages + p.messages)
  }

  function Feed(lengthOf: LengthOf, es: seq<Emission>): (f: Fed)
    ensures Consistent(f.state)
  {
    if es == [] then Fed(IDLE, [], [])
    else FeedOne(lengthOf, Feed(lengthOf, es[..|es|-1]), es[|es|-1])
  }

  function Bytes(es: seq<Emission>): seq<byte>
  {
    if es == [] then [] else Bytes(es[..|es|-1]) + es[|es|-1].chunk.data
  }

  function Spans(es: seq<Emission>): seq<Span>
  {
    seq(|es|, i requires 0 <= i < |es| => Span(|es[i].chunk.data|, es[i].chunk.meta))
  }

  lemma {:induction false} SpansBytes(es: seq<Emission>)
    ensures SpanBytes(Spans(es)) == |Bytes(es)|
  {
    if es != [] {
      var prefix := es[..|es|-1];
      SpansBytes(prefix);
      var last := [Span(|es[|es|-1].chunk.data|, es[|es|-1].chunk.meta)];
      assert Spans(es) == Spans(prefix) + last;
      SpanBytesConcat(Spans(prefix), last);
      assert last[1..] == [];
    }
  }

  // ---------------------------------------------------------------- no message spans a hole

  /** The bytes at a position are those of the true stream. */
  ghost predicate Agrees(stream: int -> byte, at: int, data: seq<byte>)
  {
    forall i :: 0 <= i < |data| ==> data[i] == stream(at + i)
  }

  ghost predicate FramesAgree(stream: int -> byte, frames: seq<Frame>)
  {
    forall i :: 0 <= i < |frames| ==> Agrees(stream, frames[i].at, frames[i].raw)
  }

  /** What is buffered is the part of the stream just before `end`, and all frames lie before it. */
  ghost predicate OnStream(stream: int -> byte, from: int, f: Fed, end: int)
  {
    && Agrees(stream, end - |f.state.buffer|, f.state.buffer)
    && Within(from, f.frames, end - |f.state.buffer|)
    && FramesAgree(stream, f.frames)
  }

  lemma SliceAgrees(stream: int -> byte, f: Frame, b: seq<byte>, at: int)
    requires SliceAt(f, b, at) && Agrees(stream, at, b)
    ensures Agrees(stream, f.at, f.raw)
  {
    forall i | 0 <= i < |f.raw| ensures f.raw[i] == stream(f.at + i) {
      assert f.raw[i] == b[f.at - at + i];
    }
  }

  lemma WithinLater(from: int, frames: seq<Frame>, to: int, later: int)
    requires Within(from, frames, to) && to <= later
    ensures Within(from, frames, later)
    decreases |frames|
  {
  }

  lemma AgreesSuffix(stream: int -> byte, at: int, b: seq<byte>, n: nat)
    requires n <= |b| && Agrees(stream, at, b)
    ensures Agrees(stream, at + n, b[n..])
  {
  }

  lemma {:induction false} ParseOnStream(lengthOf: LengthOf, stream: int -> byte, d: Buffered, at: int)
    requires Consistent(d) && Agrees(stream, at, d.buffer)
    ensures var p := Parse(lengthOf, d, at);
      var end := at + |d.buffer|;
      && Agrees(stream, end - |p.state.buffer|, p.state.buffer)
      && Within(at, p.frames, end - |p.state.buffer|)
      && FramesAgree(stream, p.frames)
  {
    hide Decode, Consistent;
    if |d.buffer| <= MAX_MESSAGE_BYTES {
      var r := Decode(lengthOf, d.buffer, at);
      DecodeOrder(lengthOf, d.buffer, at);
      DecodeSlices(lengthOf, d.buffer, at);
      DecodeRest(lengthOf, d.buffer, at);
      AgreesSuffix(stream, at, d.buffer, |d.buffer| - |r.rest|);
      hide Agrees, SliceAt;
      forall i | 0 <= i < |r.frames| ensures Agrees(stream, r.frames[i].at, r.frames[i].raw) {
        SliceAgrees(stream, r.frames[i], d.buffer, at);
      }
    }
  }

  lemma FilledOnStream(stream: int -> byte, d: Buffered, end: int, e: Emission)
    requires Agrees(stream, end - |d.buffer|, d.buffer) && Agrees(stream, e.at, e.chunk.data)
    requires if e.chunk.discontinuity then end < e.at else end == e.at
    ensures Agrees(stream, BufferStart(d, e), Filled(d, e.chunk).buffer)
    ensures BufferStart(d, e) >= end - |d.buffer|
  {
  }

  lemma FeedOneOnStream(lengthOf: LengthOf, stream: int -> byte, from: int, f: Fed, end: int, e: Emission)
    requires Consistent(f.state) && OnStream(stream, from, f, end) && Agrees(stream, e.at, e.chunk.data)
    requires if e.chunk.discontinuity then end < e.at else end == e.at
    ensures OnStream(stream, from, FeedOne(lengthOf, f, e), e.End())
  {
    hide Parse, Agrees;
    FilledConsistent(f.state, e.chunk);
    FilledOnStream(stream, f.state, end, e);
    var filled, at := Filled(f.state, e.chunk), BufferStart(f.state, e);
    ParseOnStream(lengthOf, stream, filled, at);
    var p := Parse(lengthOf, filled, at);
    hide Filled, BufferStart;
    WithinLater(from, f.frames, end - |f.state.buffer|, at);
    WithinConcat(from, f.frames, at, p.frames, e.End() - |p.state.buffer|);
  }

  /** No message spans a hole: over any chunks with flagged holes, every frame is one contiguous
      slice of the stream, and successive frames are disjoint and increasing. */
  lemma {:induction false} NoFrameSpansAHole(lengthOf: LengthOf, stream: int -> byte, es: seq<Emission>)
    requires Ordered(es) && es != []
    requires forall i :: 0 <= i < |es| ==> Agrees(stream, es[i].at, es[i].chunk.data)
    ensures OnStream(stream, es[0].at, Feed(lengthOf, es), es[|es|-1].End())
    decreases |es|
  {
    hide Agrees, FeedOne, OnStream, Parse;
    var prefix, last := es[..|es|-1], es[|es|-1];
    if prefix == [] {
      FirstOnStream(lengthOf, stream, last);
      assert Feed(lengthOf, prefix) == Fed(IDLE, [], []);
    } else {
      NoFrameSpansAHole(lengthOf, stream, prefix);
      assert Follows(es[|es|-2], last);
      FeedOneOnStream(lengthOf, stream, es[0].at, Feed(lengthOf, prefix), prefix[|prefix|-1].End(), last);
    }
  }

  lemma FirstOnStream(lengthOf: LengthOf, stream: int -> byte, e: Emission)
    requires Agrees(stream, e.at, e.chunk.data)
    ensures OnStream(stream, e.at, FeedOne(lengthOf, Fed(IDLE, [], []), e), e.End())
  {
    hide Parse, Agrees;
    var filled := Filled(IDLE, e.chunk);
    FilledConsistent(IDLE, e.chunk);
    assert filled.buffer == e.chunk.data;
    ParseOnStream(lengthOf, stream, filled, e.at);
    assert [] + Parse(lengthOf, filled, e.at).frames == Parse(lengthOf, filled, e.at).frames;
  }

  /** Received segments that agree with the stream at their unwrapped positions make every emitted
      chunk agree with it. */
  lemma BackedAgrees(stream: int -> byte, h: seq<Segment>, at: int, c: Chunk)
    requires forall i :: 0 <= i < |h| ==> Agrees(stream, h[i].at, h[i].data)
    requires Backed(h, at, c)
    ensures Agrees(stream, at, c.data)
  {
    var i :| 0 <= i < |h| && CoveredBy(h[i], at, c.data) && h[i].meta == c.meta;
    assert Agrees(stream, h[i].at, h[i].data);
  }

  /** The stream as seen from one of its offsets. */
  function From(stream: int -> byte, offset: int): int -> byte
  {
    (p: int) => stream(offset + p)
  }

  /** The whole pipeline under any loss, duplication and reordering, skipped holes, repeated SYNs and
      closes included: if every segment carries the sender's bytes at its offset and arrives within half
      the sequence space of the position reached, every message is one contiguous slice of what the
      sender sent, and successive messages are disjoint and increasing. */
  lemma {:induction false} CaptureNeverFabricates(lengthOf: LengthOf, stream: int -> byte, isn: u32,
                                                  events: seq<Event>, sent: seq<Segment>)
    requires TcpOffsets.SentAs(isn, events, sent) && TcpOffsets.InReach(events, sent)
    requires forall i :: 0 <= i < |sent| ==> Agrees(stream, sent[i].at, sent[i].data)
    ensures var out := Run(events).out;
      && Flags(out) == Run(events).state.gaps
      && (out != [] ==>
            && sent != []
            && OnStream(From(stream, sent[0].at), out[0].at, Feed(lengthOf, out), out[|out|-1].End()))
  {
    RunInv(events);
    TcpOffsets.RunPlaces(isn, events, sent);
    hide Run, Feed, OnStream, Backed, TcpOffsets.InReach, TcpOffsets.SentAs, TcpOffsets.Placed;
    var t := Run(events);
    SeenFromFirst(stream, t, sent);
    if t.out != [] {
      FirstArrival(t);
      var seen := From(stream, sent[0].at);
      forall i | 0 <= i < |t.out| ensures Agrees(seen, t.out[i].at, t.out[i].chunk.data) {
        BackedAgrees(seen, t.history, t.out[i].at, t.out[i].chunk);
      }
      NoFrameSpansAHole(lengthOf, seen, t.out);
    }
  }

  lemma SeenFromFirst(stream: int -> byte, t: Trace, sent: seq<Segment>)
    requires TcpOffsets.Placed(t, sent) && forall i :: 0 <= i < |sent| ==> Agrees(stream, sent[i].at, sent[i].data)
    ensures |t.history| == |sent|
    ensures forall i :: 0 <= i < |sent| ==> Agrees(From(stream, sent[0].at), t.history[i].at, t.history[i].data)
  {
    forall i | 0 <= i < |sent| ensures Agrees(From(stream, sent[0].at), t.history[i].at, t.history[i].data) {
      assert Agrees(stream, sent[i].at, sent[i].data);
      forall k | 0 <= k < |sent[i].data| ensures t.history[i].data[k] == From(stream, sent[0].at)(t.history[i].at + k) {
        assert sent[0].at + (t.history[i].at + k) == sent[i].at + k;
      }
    }
  }

  lemma FirstArrival(t: Trace)
    requires Inv(t.state, t.history, t.out) && t.out != []
    ensures t.history != []
  {
    assert Backed(t.history, t.out[0].at, t.out[0].chunk);
  }

  // ---------------------------------------------------------------- chunking independence

  /** No push ran into a size limit. */
  ghost predicate Calm(lengthOf: LengthOf, es: seq<Emission>)
    decreases |es|
  {
    es == [] ||
    var prefix, last := es[..|es|-1], es[|es|-1];
    var d := Feed(lengthOf, prefix).state;
    Calm(lengthOf, prefix) && !Overfull(lengthOf, Filled(d, last.chunk), BufferStart(d, last))
  }

  /** The decoder is where decoding all of `bytes` at once would leave it. */
  ghost predicate Matches(lengthOf: LengthOf, f: Fed, from: int, bytes: seq<byte>, spans: seq<Span>)
  {
    var r := Decode(lengthOf, bytes, from);
    && !r.overflow
    && f.frames == r.frames
    && f.state == Buffered(r.rest, DropSpans(spans, |bytes| - |r.rest|), r.discarded)
  }

  ghost predicate AllAtOnce(lengthOf: LengthOf, from: int, es: seq<Emission>)
  {
    Matches(lengthOf, Feed(lengthOf, es), from, Bytes(es), Spans(es))
  }

  lemma {:induction false} ParseCalm(lengthOf: LengthOf, d: Buffered, at: int)
    requires Consistent(d) && !Overfull(lengthOf, d, at)
    ensures var r := Decode(lengthOf, d.buffer, at);
      var p := Parse(lengthOf, d, at);
      && p.frames == r.frames
      && p.state == Buffered(r.rest, DropSpans(d.spans, |d.buffer| - |r.rest|), d.discardedBytes + r.discarded)
  {
    hide Decode, DropSpans;
  }

  lemma BytesPrefix(es: seq<Emission>)
    requires es != []
    ensures var prefix, last := es[..|es|-1], es[|es|-1];
      && Bytes(es) == Bytes(prefix) + last.chunk.data
      && Spans(es) == Spans(prefix) + [Span(|last.chunk.data|, last.chunk.meta)]
  {
  }

  lemma {:induction false} ChainBytes(from: int, es: seq<Emission>, to: int)
    requires Chain(from, es, to)
    ensures |Bytes(es)| == to - from
    ensures es != [] ==> Chain(from, es[..|es|-1], es[|es|-1].at) && !es[|es|-1].chunk.discontinuity
    decreases |es|
  {
    if es != [] {
      var prefix, last := es[..|es|-1], es[|es|-1];
      if |es| > 1 {
        assert Follows(es[|es|-2], last);
      }
      ChainBytes(from, prefix, last.at);
    }
  }

  lemma {:induction false} FeedOneMatches(lengthOf: LengthOf, f: Fed, from: int, bytes: seq<byte>, spans: seq<Span>,
                                          last: Emission)
    requires Consistent(f.state) && Matches(lengthOf, f, from, bytes, spans) && SpanBytes(spans) == |bytes|
    requires !last.chunk.discontinuity && from + |bytes| == last.at
    requires !Overfull(lengthOf, Filled(f.state, last.chunk), BufferStart(f.state, last))
    ensures Matches(lengthOf, FeedOne(lengthOf, f, last), from, bytes + last.chunk.data,
                    spans + [Span(|last.chunk.data|, last.chunk.meta)])
  {
    hide Decode, Overfull, Parse, DropSpans, SpanBytes;
    var filled := Filled(f.state, last.chunk);
    var at := BufferStart(f.state, last);
    FilledConsistent(f.state, last.chunk);
    ParseCalm(lengthOf, filled, at);
    NotOverflowing(lengthOf, filled, at);
    DecodeExtends(lengthOf, bytes, last.chunk.data, from);
    var first := Decode(lengthOf, bytes, from);
    var r := Decode(lengthOf, filled.buffer, at);
    SpansFollow(spans, last, |bytes| - |first.rest|, |filled.buffer| - |r.rest|);
  }

  lemma {:induction false} NotOverflowing(lengthOf: LengthOf, d: Buffered, at: int)
    requires !Overfull(lengthOf, d, at)
    ensures !Decode(lengthOf, d.buffer, at).overflow
  {
    hide Decode;
  }

  lemma {:induction false} SpansFollow(spans: seq<Span>, last: Emission, a: nat, b: nat)
    requires a <= SpanBytes(spans) && a + b <= SpanBytes(spans) + |last.chunk.data|
    ensures var more := [Span(|last.chunk.data|, last.chunk.meta)];
      DropSpans(DropSpans(spans, a) + more, b) == DropSpans(spans + more, a + b)
  {
    var more := [Span(|last.chunk.data|, last.chunk.meta)];
    assert more[1..] == [];
    SpanBytesConcat(spans, more);
    DropSpansAppend(spans, more, a);
    DropSpansTwice(spans + more, a, b);
  }

  /** Chunking independence on arbitrary bytes, garbage included: without a hole and without a size
      limit, frames, discarded bytes, buffer and spans depend only on the bytes. */
  lemma {:induction false} ChunkingIndependence(lengthOf: LengthOf, from: int, es: seq<Emission>, to: int)
    requires Chain(from, es, to) && Calm(lengthOf, es)
    ensures AllAtOnce(lengthOf, from, es)
    decreases |es|
  {
    ChainBytes(from, es, to);
    if es == [] {
      assert Spans(es) == [];
    } else {
      var prefix, last := es[..|es|-1], es[|es|-1];
      ChunkingIndependence(lengthOf, from, prefix, last.at);
      BytesPrefix(es);
      SpansBytes(prefix);
      hide Matches, Bytes, Spans, Overfull, FeedOne, Filled, BufferStart;
      FeedOneMatches(lengthOf, Feed(lengthOf, prefix), from, Bytes(prefix), Spans(prefix), last);
    }
  }

  // ---------------------------------------------------------------- well-formed streams

  /** A complete interleaved frame (at least four payload bytes, version 2) or RTSP message. */
  predicate WellFormed(lengthOf: LengthOf, raw: seq<byte>)
  {
    if raw == [] then false
    else if raw[0] == DOLLAR then
      |raw| >= 8 && |raw| == 4 + Be16(raw[2], raw[3]) && Version(raw[4]) == 2
    else
      && StartsRtsp(raw)
      && var end := HeaderEnd(raw, 0);
      && end.Some? && end.value <= MAX_HEADER_BYTES
      && |raw| == end.value + lengthOf(raw[..end.value])
      && |raw| <= MAX_MESSAGE_BYTES
  }

  function FramesOf(raws: seq<seq<byte>>, at: int): seq<Frame>
  {
    if raws == [] then [] else [Frame(at, raws[0])] + FramesOf(raws[1..], at + |raws[0]|)
  }

  ghost predicate AllWellFormed(lengthOf: LengthOf, raws: seq<seq<byte>>)
  {
    forall i :: 0 <= i < |raws| ==> WellFormed(lengthOf, raws[i])
  }

  lemma WellFormedTakes(lengthOf: LengthOf, raw: seq<byte>, x: seq<byte>)
    requires WellFormed(lengthOf, raw)
    ensures Next(lengthOf, raw + x) == Take(|raw|)
  {
    hide StartsRtsp;
    StartsRtspStable(raw, x);
    if raw[0] != DOLLAR {
      HeaderEndStable(raw, x);
      var end := HeaderEnd(raw, 0).value;
      assert (raw + x)[..end] == raw[..end];
    }
  }

  /** An unfinished message is waited for. */
  lemma UnfinishedWaits(lengthOf: LengthOf, raw: seq<byte>, p: seq<byte>)
    requires WellFormed(lengthOf, raw) && p < raw && p != []
    ensures Next(lengthOf, p) == Wait
  {
    hide StartsRtsp;
    var x := raw[|p|..];
    assert raw == p + x;
    StartsRtspStable(p, x);
    if raw[0] != DOLLAR && StartsRtsp(p) {
      var end := HeaderEnd(raw, 0).value;
      assert end <= |p| ==> BlankLine(p, end - 4);
      if HeaderEnd(p, 0).Some? {
        HeaderEndStable(p, x);
        assert p[..end] == raw[..end];
      }
    }
  }

  /** Every whole message is framed, and what is left over is shorter than the message it begins. */
  ghost predicate Beginning(lengthOf: LengthOf, raws: seq<seq<byte>>, p: seq<byte>, at: int)
  {
    var r := Decode(lengthOf, p, at);
    && !r.overflow && r.discarded == 0
    && r.frames <= FramesOf(raws, at)
    && (r.rest == [] || (|r.frames| < |raws| && |r.rest| < |raws[|r.frames|]|))
    && (p == Flatten(raws) ==> r.frames == FramesOf(raws, at) && r.rest == [])
  }

  lemma BeginningStep(lengthOf: LengthOf, raws: seq<seq<byte>>, rest: seq<byte>, at: int)
    requires raws != [] && WellFormed(lengthOf, raws[0]) && |raws[0]| > 0
    requires Beginning(lengthOf, raws[1..], rest, at + |raws[0]|)
    ensures Beginning(lengthOf, raws, raws[0] + rest, at)
  {
    hide WellFormed, Next, Flatten;
    var raw := raws[0];
    var p := raw + rest;
    WellFormedTakes(lengthOf, raw, rest);
    DecodeOnce(lengthOf, p, at);
    CutConcat(raw, rest);
    FlattenTail(raws, rest);
    hide Decode;
    var later := Decode(lengthOf, rest, at + |raw|);
    if later.rest != [] {
      var i := |later.frames|;
      assert raws[i + 1] == raws[1..][i];
    }
  }

  lemma CutConcat(a: seq<byte>, b: seq<byte>)
    ensures (a + b)[..|a|] == a && (a + b)[|a|..] == b
  {
  }

  lemma {:induction false} FlattenTail(raws: seq<seq<byte>>, rest: seq<byte>)
    requires raws != []
    ensures raws[0] + rest == Flatten(raws) ==> rest == Flatten(raws[1..])
  {
    CutConcat(raws[0], rest);
    CutConcat(raws[0], Flatten(raws[1..]));
  }

  /** Any beginning of a well-formed stream decodes without loss. */
  lemma {:induction false} DecodeBeginning(lengthOf: LengthOf, raws: seq<seq<byte>>, p: seq<byte>, at: int)
    requires AllWellFormed(lengthOf, raws) && p <= Flatten(raws)
    ensures Beginning(lengthOf, raws, p, at)
    decreases |raws|
  {
    hide WellFormed, Next;
    WellFormedNonEmpty(lengthOf, raws);
    if p != [] {
      var raw := raws[0];
      if |p| < |raw| {
        assert p < raw;
        UnfinishedWaits(lengthOf, raw, p);
      } else {
        hide Beginning, FramesOf, Decode;
        var rest := p[|raw|..];
        assert p == raw + rest && rest <= Flatten(raws[1..]);
        DecodeBeginning(lengthOf, raws[1..], rest, at + |raw|);
        BeginningStep(lengthOf, raws, rest, at);
      }
    }
  }

  lemma WellFormedNonEmpty(lengthOf: LengthOf, raws: seq<seq<byte>>)
    requires AllWellFormed(lengthOf, raws)
    ensures forall i :: 0 <= i < |raws| ==> |raws[i]| > 0
  {
  }

  // ---------------------------------------------------------------- message metadata

  /** Some emitted chunk with this metadata covers `[at, at + length)`. */
  ghost predicate InChunk(es: seq<Emission>, at: int, length: nat, meta: FrameMeta)
  {
    exists k :: 0 <= k < |es| && es[k].at <= at && at + length <= es[k].End() && es[k].chunk.meta == meta
  }

  /** The spans from position `at` on are non-empty pieces of emitted chunks. */
  ghost predicate Own(spans: seq<Span>, at: int, es: seq<Emission>)
    decreases |spans|
  {
    spans == [] ||
    (spans[0].length > 0 && InChunk(es, at, spans[0].length, spans[0].meta)
     && Own(spans[1..], at + spans[0].length, es))
  }

  /** Every message carries the metadata of the chunk that brought its first byte. */
  ghost predicate Labelled(frames: seq<Frame>, messages: seq<Message>, es: seq<Emission>)
  {
    |messages| == |frames| &&
    forall i :: 0 <= i < |frames| ==> LabelledBy(frames[i], messages[i], es)
  }

  ghost predicate LabelledBy(f: Frame, m: Message, es: seq<Emission>)
  {
    Proper(f.raw) && InChunk(es, f.at, 1, m.meta) && m == ToMessage(f.raw, m.meta)
  }

  lemma InChunkPiece(es: seq<Emission>, at: int, length: nat, meta: FrameMeta, from: int, piece: nat)
    requires InChunk(es, at, length, meta) && at <= from && from + piece <= at + length
    ensures InChunk(es, from, piece, meta)
  {
  }

  lemma InChunkMore(es: seq<Emission>, e: Emission, at: int, length: nat, meta: FrameMeta)
    requires InChunk(es, at, length, meta)
    ensures InChunk(es + [e], at, length, meta)
  {
    var k :| 0 <= k < |es| && es[k].at <= at && at + length <= es[k].End() && es[k].chunk.meta == meta;
    assert (es + [e])[k] == es[k];
  }

  lemma {:induction false} OwnDrop(spans: seq<Span>, at: int, es: seq<Emission>, n: nat)
    requires Own(spans, at, es) && n <= SpanBytes(spans)
    ensures Own(DropSpans(spans, n), at + n, es)
    decreases |spans|
  {
    if n != 0 {
      if spans[0].length > n {
        var cut := spans[0].(length := spans[0].length - n);
        InChunkPiece(es, at, spans[0].length, cut.meta, at + n, cut.length);
        assert DropSpans(spans, n)[1..] == spans[1..] && DropSpans(spans, n)[0] == cut;
      } else {
        OwnDrop(spans[1..], at + spans[0].length, es, n - spans[0].length);
      }
    }
  }

  lemma {:induction false} OwnAppend(spans: seq<Span>, at: int, es: seq<Emission>, e: Emission)
    requires Own(spans, at, es) && at + SpanBytes(spans) == e.at && |e.chunk.data| > 0
    ensures Own(spans + [Span(|e.chunk.data|, e.chunk.meta)], at, es + [e])
    decreases |spans|
  {
    var more := [Span(|e.chunk.data|, e.chunk.meta)];
    var all := spans + more;
    if spans == [] {
      assert (es + [e])[|es|] == e;
      assert all == more && all[1..] == [];
    } else {
      InChunkMore(es, e, at, spans[0].length, spans[0].meta);
      OwnAppend(spans[1..], at + spans[0].length, es, e);
      assert all[1..] == spans[1..] + more;
    }
  }

  lemma {:induction false} MetaOwned(spans: seq<Span>, at: int, es: seq<Emission>, n: nat)
    requires Own(spans, at, es) && n < SpanBytes(spans)
    ensures InChunk(es, at + n, 1, MetaAt(spans, n))
  {
    OwnDrop(spans, at, es, n);
    DropSpansBytes(spans, n);
    var left := DropSpans(spans, n);
    InChunkPiece(es, at + n, left[0].length, left[0].meta, at + n, 1);
  }

  lemma {:induction false} ParseLabelled(lengthOf: LengthOf, d: Buffered, at: int, es: seq<Emission>)
    requires Consistent(d) && Own(d.spans, at, es)
    ensures var p := Parse(lengthOf, d, at);
      Labelled(p.frames, p.messages, es) && Own(p.state.spans, at + |d.buffer| - |p.state.buffer|, es)
  {
    hide Decode, InChunk, MetaAt, SpanBytes, Own;
    assert Own([], at + |d.buffer|, es) by { OwnNothing(at + |d.buffer|, es); }
    if |d.buffer| <= MAX_MESSAGE_BYTES {
      var r := Decode(lengthOf, d.buffer, at);
      DecodeSlices(lengthOf, d.buffer, at);
      OverflowEmpty(lengthOf, d.buffer, at);
      OwnDrop(d.spans, at, es, |d.buffer| - |r.rest|);
      var messages := Messages(r.frames, d.spans, at);
      forall i | 0 <= i < |r.frames| ensures LabelledBy(r.frames[i], messages[i], es) {
        assert SliceAt(r.frames[i], d.buffer, at) && Proper(r.frames[i].raw);
        MetaOwned(d.spans, at, es, r.frames[i].at - at);
      }
    }
  }

  lemma {:induction false} OwnNothing(at: int, es: seq<Emission>)
    ensures Own([], at, es)
  {
  }

  lemma LabelledMore(frames: seq<Frame>, messages: seq<Message>, es: seq<Emission>, e: Emission)
    requires Labelled(frames, messages, es)
    ensures Labelled(frames, messages, es + [e])
  {
    forall i | 0 <= i < |frames| ensures LabelledBy(frames[i], messages[i], es + [e]) {
      InChunkMore(es, e, frames[i].at, 1, messages[i].meta);
    }
  }

  lemma FilledOwn(d: Buffered, end: int, es: seq<Emission>, e: Emission)
    requires Consistent(d) && Own(d.spans, end - |d.buffer|, es) && |e.chunk.data| > 0
    requires !e.chunk.discontinuity ==> end == e.at
    ensures Own(Filled(d, e.chunk).spans, BufferStart(d, e), es + [e])
  {
    if e.chunk.discontinuity {
      OwnNothing(e.at, es);
      OwnAppend([], e.at, es, e);
      assert [] + [Span(|e.chunk.data|, e.chunk.meta)] == [Span(|e.chunk.data|, e.chunk.meta)];
    } else {
      OwnAppend(d.spans, end - |d.buffer|, es, e);
    }
  }

  /** Where the stream stands before `e`: at the end of what was emitted, or at `e` when nothing was. */
  function EndOf(es: seq<Emission>, e: Emission): int
  {
    if es == [] then e.at else es[|es|-1].End()
  }

  lemma OrderedLast(es: seq<Emission>)
    requires Ordered(es) && es != []
    ensures var e := es[|es|-1];
      Ordered(es[..|es|-1]) && |e.chunk.data| > 0 && (!e.chunk.discontinuity ==> EndOf(es[..|es|-1], e) == e.at)
  {
    if |es| > 1 {
      assert Follows(es[|es|-2], es[|es|-1]);
    }
  }

  /** What labelling keeps: every message so far is labelled, and so is every byte still buffered. */
  ghost predicate Labels(lengthOf: LengthOf, es: seq<Emission>)
  {
    var f := Feed(lengthOf, es);
    Labelled(f.frames, f.messages, es)
    && (es != [] ==> Own(f.state.spans, es[|es|-1].End() - |f.state.buffer|, es))
  }

  lemma {:induction false} FeedGrows(lengthOf: LengthOf, es: seq<Emission>)
    requires es != []
    ensures Feed(lengthOf, es) == FeedOne(lengthOf, Feed(lengthOf, es[..|es|-1]), es[|es|-1])
  {
    hide FeedOne;
  }

  lemma FeedEmpty(lengthOf: LengthOf)
    ensures Feed(lengthOf, []).state == IDLE
  {
  }

  lemma LabelsGrow(lengthOf: LengthOf, es: seq<Emission>)
    requires Ordered(es) && es != [] && Labels(lengthOf, es[..|es|-1])
    ensures Labels(lengthOf, es)
  {
    hide Labelled, Own, Ordered, Feed, FeedOne, Consistent, Parse;
    var prefix, last := es[..|es|-1], es[|es|-1];
    var f := Feed(lengthOf, prefix);
    var end := EndOf(prefix, last);
    assert es == prefix + [last];
    OrderedLast(es);
    if prefix == [] {
      FeedEmpty(lengthOf);
      OwnNothing(end, prefix);
    }
    FeedGrows(lengthOf, es);
    FeedOneLabelled(lengthOf, f, end, prefix, last);
  }

  /** Holds for every run, skipped holes included. */
  lemma {:induction false} MessagesLabelled(lengthOf: LengthOf, es: seq<Emission>)
    requires Ordered(es)
    ensures Labels(lengthOf, es)
    decreases |es|
  {
    if es != [] {
      hide Labels, Follows;
      MessagesLabelled(lengthOf, es[..|es|-1]);
      LabelsGrow(lengthOf, es);
    }
  }

  lemma FeedOneLabelled(lengthOf: LengthOf, f: Fed, end: int, es: seq<Emission>, e: Emission)
    requires Consistent(f.state) && Own(f.state.spans, end - |f.state.buffer|, es) && |e.chunk.data| > 0
    requires Labelled(f.frames, f.messages, es)
    requires !e.chunk.discontinuity ==> end == e.at
    ensures var r := FeedOne(lengthOf, f, e);
      Labelled(r.frames, r.messages, es + [e]) && Own(r.state.spans, e.End() - |r.state.buffer|, es + [e])
  {
    hide Own, Parse, LabelledBy;
    FilledConsistent(f.state, e.chunk);
    FilledOwn(f.state, end, es, e);
    ParseLabelled(lengthOf, Filled(f.state, e.chunk), BufferStart(f.state, e), es + [e]);
    LabelledMore(f.frames, f.messages, es, e);
  }

  // ---------------------------------------------------------------- end to end

  /** The segment carries the bytes of the stream at its offset. */
  predicate FromStream(stream: seq<byte>, g: Segment)
  {
    0 <= g.at && g.End() <= |stream| && g.data == stream[g.at..g.End()]
  }

  /** No buffer of an unfinished message plus one chunk exceeds the decoder's limit. */
  ghost predicate Fits(raws: seq<seq<byte>>, length: nat)
  {
    length <= MAX_MESSAGE_BYTES && forall j :: 0 <= j < |raws| ==> |raws[j]| + length <= MAX_MESSAGE_BYTES + 1
  }

  lemma EmissionFromStream(stream: seq<byte>, h: seq<Segment>, e: Emission)
    requires forall i :: 0 <= i < |h| ==> FromStream(stream, h[i])
    requires Backed(h, e.at, e.chunk)
    ensures FromStream(stream, Segment(e.at, e.chunk.data, e.chunk.meta))
    ensures exists i :: 0 <= i < |h| && |e.chunk.data| <= |h[i].data|
  {
    var i :| 0 <= i < |h| && CoveredBy(h[i], e.at, e.chunk.data) && h[i].meta == e.chunk.meta;
    assert FromStream(stream, h[i]);
    assert e.chunk.data == stream[e.at..e.End()];
  }

  lemma {:induction false} ChainSpells(stream: seq<byte>, h: seq<Segment>, es: seq<Emission>, to: int)
    requires forall i :: 0 <= i < |h| ==> FromStream(stream, h[i])
    requires Chain(0, es, to) && AllBacked(h, es)
    ensures 0 <= to <= |stream| && Bytes(es) == stream[..to]
    decreases |es|
  {
    ChainBytes(0, es, to);
    if es != [] {
      var prefix, last := es[..|es|-1], es[|es|-1];
      ChainSpells(stream, h, prefix, last.at);
      EmissionFromStream(stream, h, last);
    }
  }

  lemma CalmStep(lengthOf: LengthOf, raws: seq<seq<byte>>, es: seq<Emission>)
    requires AllWellFormed(lengthOf, raws) && es != [] && Bytes(es) <= Flatten(raws)
    requires AllAtOnce(lengthOf, 0, es[..|es|-1]) && Fits(raws, |es[|es|-1].chunk.data|)
    requires |Bytes(es)| == es[|es|-1].End() && !es[|es|-1].chunk.discontinuity
    ensures var last := es[|es|-1];
      var d := Feed(lengthOf, es[..|es|-1]).state;
      !Overfull(lengthOf, Filled(d, last.chunk), BufferStart(d, last))
  {
    hide Decode, Feed, Flatten, Spans, DropSpans, FramesOf, AllWellFormed;
    var prefix, last := es[..|es|-1], es[|es|-1];
    BytesPrefix(es);
    hide Bytes;
    DecodeBeginning(lengthOf, raws, Bytes(prefix), 0);
    DecodeBeginning(lengthOf, raws, Bytes(es), 0);
    DecodeExtends(lengthOf, Bytes(prefix), last.chunk.data, 0);
  }

  lemma {:induction false} WholeStreamCalm(lengthOf: LengthOf, raws: seq<seq<byte>>, es: seq<Emission>, to: int)
    requires AllWellFormed(lengthOf, raws) && Chain(0, es, to) && Bytes(es) <= Flatten(raws)
    requires forall i :: 0 <= i < |es| ==> Fits(raws, |es[i].chunk.data|)
    ensures Calm(lengthOf, es)
    decreases |es|
  {
    hide Overfull, Flatten, AllWellFormed, Feed, Fits;
    ChainBytes(0, es, to);
    if es != [] {
      var prefix, last := es[..|es|-1], es[|es|-1];
      BytesPrefix(es);
      WholeStreamCalm(lengthOf, raws, prefix, last.at);
      ChunkingIndependence(lengthOf, 0, prefix, last.at);
      hide Bytes, AllAtOnce, Chain;
      CalmStep(lengthOf, raws, es);
    }
  }

  /** End to end: a stream of well-formed messages is segmented arbitrarily; after the SYN, its
      segments arrive in any order, with any overlap and retransmission, each within the sequence
      window. If no hole had to be skipped, the messages decoded so far are exactly the sent
      messages in the contiguous part, in order; once everything arrived, all of them, with nothing
      discarded, buffered or pending. */
  lemma {:induction false} EndToEnd(lengthOf: LengthOf, raws: seq<seq<byte>>, isn: u32, events: seq<Event>,
                                    ds: seq<Segment>)
    requires AllWellFormed(lengthOf, raws) && InWindow(ds) && Captured(isn, events, ds)
    requires forall i :: 0 <= i < |ds| ==> FromStream(Flatten(raws), ds[i]) && Fits(raws, |ds[i].data|)
    requires Run(events).state.gaps == 0
    ensures var t := Run(events);
      var f := Feed(lengthOf, t.out);
      var received := Frontier(ds, 0);
      && 0 <= received <= |Flatten(raws)|
      && f.frames == Decode(lengthOf, Flatten(raws)[..received], 0).frames
      && f.frames <= FramesOf(raws, 0)
      && (f.state.buffer == [] || (|f.frames| < |raws| && |f.state.buffer| < |raws[|f.frames|]|))
      && f.state.discardedBytes == 0
      && Labelled(f.frames, f.messages, t.out)
      && (received == |Flatten(raws)| ==>
            f.frames == FramesOf(raws, 0) && f.state.buffer == [] && t.state.pending == map[])
  {
    hide Decode, Feed, Flatten, AllWellFormed, Run, Captured, Frontier, InWindow, FramesOf, Labelled, Fits, Bytes,
      Spans, Covered, FromStream, Own;
    var t := Run(events);
    var stream := Flatten(raws);
    var to := Frontier(ds, 0);
    ArrivalOrder(isn, events, ds);
    hide Tracking, Sound, Chain;
    ChainSpells(stream, ds, t.out, to);
    forall i | 0 <= i < |t.out| ensures Fits(raws, |t.out[i].chunk.data|) {
      EmissionFromStream(stream, ds, t.out[i]);
      var j :| 0 <= j < |ds| && |t.out[i].chunk.data| <= |ds[j].data|;
      FitsLess(raws, |ds[j].data|, |t.out[i].chunk.data|);
    }
    WholeStreamCalm(lengthOf, raws, t.out, to);
    ChunkingIndependence(lengthOf, 0, t.out, to);
    DecodeBeginning(lengthOf, raws, Bytes(t.out), 0);
    MessagesLabelled(lengthOf, t.out);
    if to == |stream| {
      assert stream[..to] == stream;
      StreamReach(stream, ds);
      CaughtUpEmpty(t.state, ds);
    }
  }

  lemma FitsLess(raws: seq<seq<byte>>, more: nat, less: nat)
    requires Fits(raws, more) && less <= more
    ensures Fits(raws, less)
  {
  }

  lemma {:induction false} StreamReach(stream: seq<byte>, ds: seq<Segment>)
    requires forall i :: 0 <= i < |ds| ==> FromStream(stream, ds[i])
    ensures Reach(ds) <= |stream|
  {
    if ds != [] {
      StreamReach(stream, ds[..|ds|-1]);
      assert FromStream(stream, ds[|ds|-1]);
    }
  }
}
