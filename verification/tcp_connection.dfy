/** One direction of a captured connection: the reassembly and the decoder behind it, wired as in
    `Capture::frame` and `finish_connection` (crates/capture/src/lib.rs:744-774). */
module TcpConnection {
  import opened Wrappers
  import opened TcpReassembly
  import opened TcpCoverage
  import opened TcpDecoder
  import opened TcpStream

  function FeedFrom(lengthOf: LengthOf, f: Fed, es: seq<Emission>): (r: Fed)
    requires Consistent(f.state)
    ensures Consistent(r.state)
    decreases |es|
  {
    if es == [] then f else FeedFrom(lengthOf, FeedOne(lengthOf, f, es[0]), es[1..])
  }

  lemma {:induction false} FeedConcat(lengthOf: LengthOf, a: seq<Emission>, b: seq<Emission>)
    ensures Feed(lengthOf, a + b) == FeedFrom(lengthOf, Feed(lengthOf, a), b)
    decreases |b|
  {
    if b == [] {
      assert a + b == a;
    } else {
      var a' := a + [b[0]];
      assert a'[..|a'|-1] == a;
      assert a + b == a' + b[1..];
      FeedConcat(lengthOf, a', b[1..]);
    }
  }

  lemma FeedNothing(lengthOf: LengthOf, f: Fed)
    requires Consistent(f.state)
    ensures FeedFrom(lengthOf, f, []) == f
  {
  }

  /** Feeding one chunk is what one push of the decoder computes. */
  lemma FeedStep(lengthOf: LengthOf, f: Fed, es: seq<Emission>)
    requires Consistent(f.state) && es != []
    ensures FeedFrom(lengthOf, f, es) == FeedFrom(lengthOf, FeedOne(lengthOf, f, es[0]), es[1..])
    ensures Consistent(Filled(f.state, es[0].chunk))
    ensures var p := Parse(lengthOf, Filled(f.state, es[0].chunk), BufferStart(f.state, es[0]));
      FeedOne(lengthOf, f, es[0]) == Fed(p.state, f.frames + p.frames, f.messages + p.messages)
  {
    hide Parse, Filled;
    FilledConsistent(f.state, es[0].chunk);
  }

  class Direction {
    const reassembly: Reassembly
    const decoder: Decoder
    ghost var trace: Trace

    ghost predicate Valid()
      reads this, reassembly, decoder
    {
      && reassembly.View() == trace.state
      && decoder.View() == Feed(decoder.lengthOf, trace.out).state
    }

    constructor (lengthOf: LengthOf)
      ensures Valid() && trace == Trace(EMPTY, [], []) && decoder.lengthOf == lengthOf
      ensures fresh(reassembly) && fresh(decoder)
    {
      reassembly := new Reassembly();
      decoder := new Decoder(lengthOf);
      trace := Trace(EMPTY, [], []);
    }

    /** Hands chunks to the decoder in order. */
    method Decode(chunks: seq<Chunk>, ghost es: seq<Emission>, ghost before: Fed) returns (messages: seq<Message>)
      requires chunks == Chunks(es) && Consistent(before.state) && decoder.View() == before.state
      modifies decoder
      ensures decoder.View() == FeedFrom(decoder.lengthOf, before, es).state
      ensures before.messages + messages == FeedFrom(decoder.lengthOf, before, es).messages
    {
      hide FeedFrom, FeedOne, Chunks;
      ghost var f := before;
      ghost var left := es;
      messages := [];
      assert before.messages + [] == before.messages;
      var i := 0;
      while i < |chunks|
        invariant 0 <= i <= |chunks| && left == es[i..]
        invariant Consistent(f.state) && decoder.View() == f.state
        invariant FeedFrom(decoder.lengthOf, f, left) == FeedFrom(decoder.lengthOf, before, es)
        invariant before.messages + messages == f.messages
      {
        FeedStep(decoder.lengthOf, f, left);
        assert chunks[i] == left[0].chunk;
        var more := decoder.Push(chunks[i], BufferStart(f.state, left[0]));
        assert before.messages + (messages + more) == before.messages + messages + more;
        messages := messages + more;
        f := FeedOne(decoder.lengthOf, f, left[0]);
        left := left[1..];
        i := i + 1;
      }
      assert left == [];
      FeedNothing(decoder.lengthOf, f);
    }

    /** A captured segment. */
    method OnSegment(sequence: u32, syn: bool, data: seq<byte>, meta: FrameMeta) returns (messages: seq<Message>)
      requires Valid()
      modifies this, reassembly, decoder
      ensures Valid() && trace == Step(old(trace), Arrive(sequence, syn, data, meta))
      ensures Feed(decoder.lengthOf, old(trace).out).messages + messages == Feed(decoder.lengthOf, trace.out).messages
    {
      hide PushState, FeedOne;
      ghost var es := PushState(trace.state, sequence, syn, data, meta).1;
      var chunks := reassembly.Push(sequence, syn, data, meta);
      messages := Decode(chunks, es, Feed(decoder.lengthOf, trace.out));
      FeedConcat(decoder.lengthOf, trace.out, es);
      trace := Step(trace, Arrive(sequence, syn, data, meta));
    }

    /** FIN, RST or the end of the capture. */
    method OnClose() returns (messages: seq<Message>)
      requires Valid()
      modifies this, reassembly, decoder
      ensures Valid() && trace == Step(old(trace), Close)
      ensures Feed(decoder.lengthOf, old(trace).out).messages + messages == Feed(decoder.lengthOf, trace.out).messages
    {
      hide FinishState, FeedOne;
      ghost var es := FinishState(trace.state).1;
      var chunks := reassembly.Finish();
      messages := Decode(chunks, es, Feed(decoder.lengthOf, trace.out));
      FeedConcat(decoder.lengthOf, trace.out, es);
      trace := Step(trace, Close);
    }
  }

  /** Replays a capture of one direction. */
  method Replay(lengthOf: LengthOf, events: seq<Event>) returns (messages: seq<Message>, gaps: nat, discarded: nat)
    ensures messages == Feed(lengthOf, Run(events).out).messages
    ensures gaps == Run(events).state.gaps
    ensures discarded == Feed(lengthOf, Run(events).out).state.discardedBytes
  {
    hide Step, FeedOne;
    var direction := new Direction(lengthOf);
    messages := [];
    var i := 0;
    assert events[..0] == [];
    while i < |events|
      invariant 0 <= i <= |events| && direction.Valid() && direction.decoder.lengthOf == lengthOf
      invariant fresh(direction) && fresh(direction.reassembly) && fresh(direction.decoder)
      invariant direction.trace == Run(events[..i])
      invariant messages == Feed(lengthOf, direction.trace.out).messages
    {
      assert events[..i+1][..i] == events[..i];
      var more;
      match events[i] {
        case Arrive(sequence, syn, data, meta) => more := direction.OnSegment(sequence, syn, data, meta);
        case Close => more := direction.OnClose();
      }
      messages := messages + more;
      i := i + 1;
    }
    assert events[..|events|] == events;
    gaps := direction.reassembly.gaps;
    discarded := direction.decoder.discardedBytes;
  }

  /** The main result: a captured direction that starts with its SYN and then contains every byte of a
      stream of well-formed messages, in any order and with any overlap and retransmission, the SYN's
      included, yields exactly those messages; nothing is skipped, discarded or left over. */
  lemma {:induction false} CaptureRecoversMessages(lengthOf: LengthOf, raws: seq<seq<byte>>, isn: u32,
                                                   events: seq<Event>, ds: seq<Segment>)
    requires AllWellFormed(lengthOf, raws) && InWindow(ds) && WithinLimits(ds) && Captured(isn, events, ds)
    requires forall i :: 0 <= i < |ds| ==> FromStream(Flatten(raws), ds[i]) && Fits(raws, |ds[i].data|)
    requires forall p :: 0 <= p < |Flatten(raws)| ==> Covered(ds, p)
    ensures var t := Run(events + [Close]);
      var f := Feed(lengthOf, t.out);
      && f.frames == FramesOf(raws, 0) && Labelled(f.frames, f.messages, t.out)
      && f.state.buffer == [] && f.state.discardedBytes == 0
      && t.state.gaps == 0 && t.state.pending == map[]
  {
    hide Deliver, Feed, Flatten, Labelled, AllWellFormed, InWindow, WithinLimits, Fits, FromStream, Covered,
      SkipState, Bounded, Captured;
    NoLimitFires(isn, ds);
    CaptureDelivers(isn, events, ds);
    EndToEnd(lengthOf, raws, isn, events, ds);
    var received := Frontier(ds, 0);
    assert !Covered(ds, received);
    var all := events + [Close];
    assert all[..|all|-1] == events && all[|all|-1] == Close;
    var t := Run(events);
    assert Run(all) == Step(t, Close);
    assert t.out + [] == t.out;
  }
}
