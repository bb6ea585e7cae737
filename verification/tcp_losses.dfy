/** What `Reassembly` may and may not lose, on any run: a received byte is emitted or waits unless the
    stream had passed it; where a capture without a SYN begins; when exactly a hole is given up. */
module TcpLosses {
  import opened Wrappers
  import opened TcpReassembly
  import opened TcpCoverage

  /** Some chunk handed over holds the byte at this position. */
  ghost predicate Emits(out: seq<Emission>, p: int)
  {
    exists i :: 0 <= i < |out| && out[i].at <= p < out[i].End()
  }

  /** The byte waits, and will be emitted when its turn comes. */
  ghost predicate Waits(s: State, p: int)
  {
    Held(s.pending, p) && (s.expected.Some? ==> p >= s.expected.value)
  }

  lemma EmitsMore(a: seq<Emission>, b: seq<Emission>, p: int)
    ensures Emits(a + b, p) <==> Emits(a, p) || Emits(b, p)
  {
    var all := a + b;
    if i :| 0 <= i < |a| && a[i].at <= p < a[i].End() {
      assert all[i] == a[i];
    }
    if i :| 0 <= i < |b| && b[i].at <= p < b[i].End() {
      assert all[|a| + i] == b[i];
    }
  }

  lemma EmitsFlagged(out: seq<Emission>, p: int)
    requires out != [] && Emits(out, p)
    ensures Emits(Flagged(out), p)
  {
    var i :| 0 <= i < |out| && out[i].at <= p < out[i].End();
    assert Flagged(out)[i].at == out[i].at && Flagged(out)[i].End() == out[i].End();
  }

  // ---------------------------------------------------------------- one push

  lemma PopKeeps(s: State, p: int)
    requires Ready(s) && Waits(s, p)
    ensures Waits(PopState(s), p) || Emits(PopOutput(s), p)
  {
    hide Held;
    var k := Least(s.pending.Keys);
    PopShape(s);
    HeldRemove(s.pending, k, p);
    if p < k + |s.pending[k].data| {
      PopEmits(s, p);
    }
  }

  lemma PopEmits(s: State, p: int)
    requires Ready(s)
    requires s.expected.value <= p < Least(s.pending.Keys) + |s.pending[Least(s.pending.Keys)].data|
    ensures Emits(PopOutput(s), p)
  {
    var e := PopOutput(s)[0];
    assert e.at == s.expected.value && e.End() == Least(s.pending.Keys) + |s.pending[Least(s.pending.Keys)].data|;
  }

  lemma {:induction false} DrainKeeps(s: State, p: int)
    requires Waits(s, p)
    ensures Waits(DrainState(s).0, p) || Emits(DrainState(s).1, p)
    decreases |s.pending|
  {
    hide PopState, PopOutput, Earliest, Held, Emits;
    if Ready(s) {
      PopKeeps(s, p);
      EmitsMore(PopOutput(s), DrainState(PopState(s)).1, p);
      if Waits(PopState(s), p) {
        DrainKeeps(PopState(s), p);
      }
    }
  }

  lemma SkipKeeps(s: State, p: int)
    requires Held(s.pending, p)
    ensures Waits(SkipState(s).0, p) || Emits(SkipState(s).1, p)
  {
    hide DrainState, Emits;
    var k := Least(s.pending.Keys);
    var gap := s.expected.Some? && k > s.expected.value;
    var from := s.(expected := Some(k), gaps := if gap then s.gaps + 1 else s.gaps);
    assert Waits(from, p);
    DrainKeeps(from, p);
    var (end, out) := DrainState(from);
    if gap && out != [] && Emits(out, p) {
      EmitsFlagged(out, p);
    }
  }

  lemma {:induction false} FinishKeeps(s: State, p: int)
    requires Waits(s, p)
    ensures Emits(FinishState(s).1, p)
    decreases |s.pending|
  {
    hide SkipState, Emits;
    SkipKeeps(s, p);
    SkipShrinks(s);
    EmitsMore(SkipState(s).1, FinishState(SkipState(s).0).1, p);
    if !Emits(SkipState(s).1, p) {
      FinishKeeps(SkipState(s).0, p);
    }
  }

  lemma InsertKeeps(s: State, at: int, chunk: Chunk, p: int)
    requires !AlreadyHeld(s, at, chunk) && (Held(s.pending, p) || at <= p < at + |chunk.data|)
    ensures Held(InsertState(s, at, chunk).pending, p)
  {
    var after := s.pending[at := chunk];
    assert at in after && after[at] == chunk;
    if k :| k in s.pending && k <= p < k + |s.pending[k].data| {
      assert k in after && |after[k].data| >= |s.pending[k].data|;
    }
  }

  lemma StoreKeeps(s: State, at: int, chunk: Chunk, p: int)
    requires Held(s.pending, p) || at <= p < at + |chunk.data|
    requires s.expected.Some? ==> p >= s.expected.value
    ensures Waits(StoreState(s, at, chunk).0, p) || Emits(StoreState(s, at, chunk).1, p)
  {
    hide DrainState, SkipState, Emits, Earliest;
    if AlreadyHeld(s, at, chunk) {
      assert at in s.pending;
    } else {
      InsertKeeps(s, at, chunk, p);
      var synced := SyncState(InsertState(s, at, chunk), Age(s, chunk));
      SyncKeeps(InsertState(s, at, chunk), Age(s, chunk), p);
      DrainKeeps(synced, p);
      var (drained, out) := DrainState(synced);
      EmitsMore(out, SkipState(drained).1, p);
      if Held(drained.pending, p) {
        SkipKeeps(drained, p);
      }
    }
  }

  /** Without a SYN the stream begins in front of everything that waits. */
  lemma SyncKeeps(s: State, age: int, p: int)
    requires Waits(s, p)
    ensures Waits(SyncState(s, age), p)
  {
  }

  /** A push loses nothing that waited or that it brings, from `expected` on. */
  lemma PushKeeps(s: State, sequence: u32, syn: bool, data: seq<byte>, meta: FrameMeta, p: int)
    requires var at := PositionOf(s, sequence, syn); Held(s.pending, p) || at <= p < at + |data|
    requires var open := OpenState(s, sequence, syn); open.expected.Some? ==> p >= open.expected.value
    ensures var (next, more) := PushState(s, sequence, syn, data, meta); Waits(next, p) || Emits(more, p)
  {
    hide StoreState, PositionOf, Emits;
    var at, open := PositionOf(s, sequence, syn), OpenState(s, sequence, syn);
    if data != [] {
      var start := Stale(open, at, |data|);
      var counted := open.(
        retransmittedBytes := open.retransmittedBytes + start,
        lateBytes := if open.gaps > 0 then open.lateBytes + start else open.lateBytes);
      if start < |data| {
        StoreKeeps(counted, at + start, Chunk(data[start..], meta, false), p);
      }
    }
  }

  // ---------------------------------------------------------------- whole runs

  /** `expected` once the header of arrival `j` has been taken in. */
  function OpenedAt(events: seq<Event>, j: nat): Option<int>
    requires j < |events| && events[j].Arrive?
  {
    OpenState(Run(events[..j]).state, events[j].sequence, events[j].syn).expected
  }

  /** Arrival `i` brings the byte at this position. */
  predicate BringsByte(events: seq<Event>, i: nat, p: int)
    requires i < |events|
  {
    events[i].Arrive? &&
    var at := PositionOf(Run(events[..i]).state, events[i].sequence, events[i].syn);
    at <= p < at + |events[i].data|
  }

  /** The stream had passed the position when it came, or a SYN fixed the stream's start behind it. */
  ghost predicate Passed(events: seq<Event>, i: nat, p: int)
  {
    exists j: nat :: i <= j < |events| && PassedBy(events, i, j, p)
  }

  ghost predicate PassedBy(events: seq<Event>, i: nat, j: nat, p: int)
    requires i <= j < |events|
  {
    && events[j].Arrive? && OpenedAt(events, j).Some? && p < OpenedAt(events, j).value
    && (j == i || (events[j].syn && Run(events[..j]).state.expected.None?))
  }

  lemma PassedMore(events: seq<Event>, i: nat, p: int)
    requires events != [] && Passed(events[..|events|-1], i, p)
    ensures Passed(events, i, p)
  {
    hide Run;
    var prefix := events[..|events|-1];
    var j: nat :| i <= j < |prefix| && PassedBy(prefix, i, j, p);
    assert prefix[..j] == events[..j];
    assert PassedBy(events, i, j, p);
  }

  lemma StepKeeps(s: State, e: Event, p: int)
    requires Waits(s, p)
    requires e.Arrive? && e.syn && s.expected.None? ==> p >= OpenState(s, e.sequence, true).expected.value
    ensures var t := Step(Trace(s, [], []), e); Waits(t.state, p) || Emits(t.out, p)
  {
    hide PushState, FinishState, Emits, PositionOf, Held;
    match e
    case Arrive(sequence, syn, data, meta) =>
      PushKeeps(s, sequence, syn, data, meta, p);
      assert [] + PushState(s, sequence, syn, data, meta).1 == PushState(s, sequence, syn, data, meta).1;
    case Close =>
      FinishKeeps(s, p);
      assert [] + FinishState(s).1 == FinishState(s).1;
  }

  lemma StepAppends(t: Trace, e: Event)
    ensures Step(t, e).state == Step(Trace(t.state, [], []), e).state
    ensures Step(t, e).out == t.out + Step(Trace(t.state, [], []), e).out
  {
    hide PushState, FinishState;
    match e
    case Arrive(sequence, syn, data, meta) =>
      assert [] + PushState(t.state, sequence, syn, data, meta).1 == PushState(t.state, sequence, syn, data, meta).1;
    case Close =>
      assert [] + FinishState(t.state).1 == FinishState(t.state).1;
  }

  /** Every run: a byte that arrived has been emitted or waits, unless the stream had passed it. */
  lemma {:induction false} RunLosesNothing(events: seq<Event>, i: nat, p: int)
    requires i < |events| && BringsByte(events, i, p)
    ensures Emits(Run(events).out, p) || Waits(Run(events).state, p) || Passed(events, i, p)
    decreases |events|
  {
    hide Step, Emits, Waits, Passed, PositionOf, OpenState;
    var prefix, e := events[..|events|-1], events[|events|-1];
    var t := Run(prefix);
    StepAppends(t, e);
    EmitsMore(t.out, Step(Trace(t.state, [], []), e).out, p);
    if i == |prefix| {
      ArrivalKept(events, p);
    } else {
      assert prefix[..i] == events[..i];
      RunLosesNothing(prefix, i, p);
      if Passed(prefix, i, p) {
        PassedMore(events, i, p);
      } else if Waits(t.state, p) {
        WaitingKept(events, i, p);
      }
    }
  }

  lemma ArrivalKept(events: seq<Event>, p: int)
    requires events != [] && BringsByte(events, |events| - 1, p)
    ensures var t := Step(Trace(Run(events[..|events|-1]).state, [], []), events[|events|-1]);
      Emits(t.out, p) || Waits(t.state, p) || Passed(events, |events| - 1, p)
  {
    hide PushState, Emits, Held, PositionOf, Run;
    var n := |events| - 1;
    var s, e := Run(events[..n]).state, events[n];
    var open := OpenState(s, e.sequence, e.syn);
    if open.expected.Some? && p < open.expected.value {
      assert PassedBy(events, n, n, p);
    } else {
      PushKeeps(s, e.sequence, e.syn, e.data, e.meta, p);
      var more := PushState(s, e.sequence, e.syn, e.data, e.meta).1;
      assert [] + more == more;
    }
  }

  lemma WaitingKept(events: seq<Event>, i: nat, p: int)
    requires events != [] && i < |events| - 1 && Waits(Run(events[..|events|-1]).state, p)
    ensures var t := Step(Trace(Run(events[..|events|-1]).state, [], []), events[|events|-1]);
      Emits(t.out, p) || Waits(t.state, p) || Passed(events, i, p)
  {
    hide Emits, Held, PositionOf, Run, Step;
    var n := |events| - 1;
    var s, e := Run(events[..n]).state, events[n];
    if e.Arrive? && e.syn && s.expected.None? && p < OpenState(s, e.sequence, true).expected.value {
      assert PassedBy(events, i, n, p);
    } else {
      StepKeeps(s, e, p);
    }
  }

  // ---------------------------------------------------------------- where a stream without a SYN begins

  /** A chunk that is popped at its own position is emitted whole. */
  lemma {:induction false} PopWhole(s: State)
    requires Ready(s) && Least(s.pending.Keys) == s.expected.value && |s.pending[Least(s.pending.Keys)].data| > 0
    ensures DrainState(s).1 != [] && DrainState(s).1[0] == Emission(s.expected.value, s.pending[s.expected.value])
  {
    var c := s.pending[s.expected.value];
    assert c.data[0..] == c.data;
  }

  /** Enough waits to begin: 16 chunks, 64 KiB, or one that came 200 ms after the oldest. */
  predicate Enough(before: map<int, Chunk>, waiting: map<int, Chunk>, micros: nat)
  {
    || |waiting| >= 16 || TotalBytes(waiting) >= 65_536
    || (Earliest(before).Some? && micros - Earliest(before).value >= 200_000)
  }

  /** Without a SYN nothing is emitted until enough waits; then the stream begins at the least position
      waiting, with the whole chunk that waits there. */
  lemma StoreBegins(s: State, h: seq<Segment>, at: int, chunk: Chunk)
    requires Sound(s, h) && s.firstMicros == Earliest(s.pending) && s.expected.None?
    requires Backed(h, at, chunk) && !chunk.discontinuity && !AlreadyHeld(s, at, chunk)
    ensures var (next, more) := StoreState(s, at, chunk);
      var waiting := s.pending[at := chunk];
      if Enough(s.pending, waiting, chunk.meta.micros) then
        && next.expected.Some? && more != []
        && more[0] == Emission(Least(waiting.Keys), waiting[Least(waiting.Keys)])
      else next.expected.None? && more == [] && next.pending == waiting
  {
    hide DrainState, SkipState, Earliest, TotalBytes, Backed;
    var inserted := InsertState(s, at, chunk);
    InsertSound(s, h, at, chunk);
    var synced := SyncState(inserted, Age(s, chunk));
    DrainFrame(synced);
    if synced.expected.Some? {
      var k := Least(synced.pending.Keys);
      BackedNonEmpty(h, k, synced.pending[k]);
      PopWhole(synced);
      SkipOpen(DrainState(synced).0);
    } else {
      DrainOnce(synced);
    }
  }

  lemma BackedNonEmpty(h: seq<Segment>, at: int, c: Chunk)
    requires Backed(h, at, c)
    ensures |c.data| > 0
  {
  }

  lemma HeldIgnored(s: State, at: int, chunk: Chunk)
    requires AlreadyHeld(s, at, chunk)
    ensures var (next, more) := StoreState(s, at, chunk);
      next.pending == s.pending && next.expected == s.expected && more == []
  {
  }

  /** The same for an arrival. */
  lemma PushBegins(s: State, h: seq<Segment>, out: seq<Emission>, sequence: u32, data: seq<byte>, meta: FrameMeta)
    requires Inv(s, h, out) && s.expected.None?
    ensures var (next, more) := PushState(s, sequence, false, data, meta);
      var at, chunk := PositionOf(s, sequence, false), Chunk(data, meta, false);
      var waiting := if data == [] || AlreadyHeld(s, at, chunk) then s.pending else s.pending[at := chunk];
      if waiting != s.pending && Enough(s.pending, waiting, meta.micros) then
        && next.expected.Some? && more != []
        && more[0] == Emission(Least(waiting.Keys), waiting[Least(waiting.Keys)])
      else next.expected.None? && more == [] && next.pending == waiting
  {
    hide StoreState, PositionOf, Earliest, TotalBytes;
    var at, chunk := PositionOf(s, sequence, false), Chunk(data, meta, false);
    var open := OpenState(s, sequence, false);
    assert data[0..] == data;
    if data != [] && !AlreadyHeld(s, at, chunk) {
      var g := Segment(at, data, meta);
      SoundGrows(s, h, g);
      assert (h + [g])[|h|] == g && CoveredBy(g, at, data);
      assert Backed(h + [g], at, chunk);
      StoreBegins(open, h + [g], at, chunk);
      assert s.pending[at := chunk][at] == chunk;
    } else if data != [] {
      HeldIgnored(open, at, chunk);
    }
  }

  // ---------------------------------------------------------------- captures without a SYN

  predicate WithoutSyn(events: seq<Event>)
  {
    forall i :: 0 <= i < |events| ==> events[i].Arrive? ==> !events[i].syn
  }

  /** Unflagged chunks leave no position out. */
  lemma {:induction false} ChainEmits(out: seq<Emission>, p: int)
    requires Ordered(out) && Flags(out) == 0 && out != [] && out[0].at <= p < out[|out|-1].End()
    ensures Emits(out, p)
    decreases |out|
  {
    var prefix, last := out[..|out|-1], out[|out|-1];
    if p >= last.at {
      assert out[|out|-1].at <= p < out[|out|-1].End();
    } else {
      assert Follows(out[|out|-2], last);
      ChainEmits(prefix, p);
      EmitsMore(prefix, [last], p);
      assert out == prefix + [last];
    }
  }

  lemma {:induction false} GapsOnly(events: seq<Event>, n: nat)
    requires n <= |events|
    ensures Run(events[..n]).state.gaps <= Run(events).state.gaps && Run(events[..n]).out <= Run(events).out
    decreases |events|
  {
    hide Step;
    if n == |events| {
      assert events[..n] == events;
    } else {
      var prefix := events[..|events|-1];
      assert prefix[..n] == events[..n];
      GapsOnly(prefix, n);
      GapsGrow(Run(prefix), events[|events|-1]);
      StepAppends(Run(prefix), events[|events|-1]);
    }
  }

  /** Without a SYN, a stream that has begun has emitted something. */
  lemma {:induction false} BegunEmitted(events: seq<Event>)
    requires WithoutSyn(events)
    ensures Run(events).state.expected.Some? ==> Run(events).out != []
    decreases |events|
  {
    hide Step;
    if events != [] {
      var prefix, e := events[..|events|-1], events[|events|-1];
      BegunEmitted(prefix);
      RunInv(prefix);
      StepAppends(Run(prefix), e);
      if Run(prefix).state.expected.None? {
        BeginsWithOutput(Run(prefix), e);
      }
    }
  }

  lemma BeginsWithOutput(t: Trace, e: Event)
    requires Inv(t.state, t.history, t.out) && t.state.expected.None? && (e.Arrive? ==> !e.syn)
    ensures var next := Step(Trace(t.state, [], []), e);
      next.state.expected.Some? ==> next.out != []
  {
    hide PushState, FinishState, PositionOf;
    var s := t.state;
    match e
    case Arrive(sequence, syn, data, meta) =>
      PushBegins(s, t.history, t.out, sequence, data, meta);
    case Close =>
      FinishBegins(s, t.history, t.out);
  }

  lemma {:induction false} FinishBegins(s: State, h: seq<Segment>, out: seq<Emission>)
    requires Inv(s, h, out) && s.expected.None?
    ensures FinishState(s).0.expected.Some? ==> FinishState(s).1 != []
  {
    hide DrainState, Earliest, TotalBytes, Backed;
    if s.pending != map[] {
      var k := Least(s.pending.Keys);
      BackedNonEmpty(h, k, s.pending[k]);
      PopWhole(s.(expected := Some(k)));
    }
  }

  /** Without a SYN and without a skipped hole, every byte received from the first emitted one on is
      emitted or waits; before anything is emitted, all of them wait. */
  lemma {:induction false} NothingMissing(events: seq<Event>, i: nat, p: int)
    requires WithoutSyn(events) && Run(events).state.gaps == 0
    requires i < |events| && BringsByte(events, i, p)
    requires Run(events).out != [] ==> p >= Run(events).out[0].at
    ensures Emits(Run(events).out, p) || Waits(Run(events).state, p)
  {
    hide Run, Step, Emits, Waits, PositionOf, Inv;
    RunLosesNothing(events, i, p);
    if Passed(events, i, p) {
      var j: nat :| i <= j < |events| && PassedBy(events, i, j, p);
      var before := events[..j];
      PassedSome(events, i, j, p);
      BegunEmitted(before);
      GapsOnly(events, j);
      RunInv(before);
      LineOf(Run(before).state, Run(before).history, Run(before).out);
      ChainEmits(Run(before).out, p);
      var rest := Run(events).out[|Run(before).out|..];
      assert Run(events).out == Run(before).out + rest;
      EmitsMore(Run(before).out, rest, p);
    }
  }

  lemma PassedSome(events: seq<Event>, i: nat, j: nat, p: int)
    requires WithoutSyn(events) && i <= j < |events| && PassedBy(events, i, j, p)
    ensures var s := Run(events[..j]).state; s.expected.Some? && p < s.expected.value
  {
    hide Run, PositionOf;
  }

  lemma {:induction false} LineOf(s: State, h: seq<Segment>, out: seq<Emission>)
    requires Inv(s, h, out)
    ensures Ordered(out) && Flags(out) == s.gaps && (out != [] ==> s.expected == Some(out[|out|-1].End()))
  {
  }

  // ---------------------------------------------------------------- when a hole is given up

  /** What waits is too much or too old: more than 64 KiB, more than 256 chunks, or anything when a chunk
      comes two seconds after the oldest that waited before it. */
  predicate TooMuch(before: map<int, Chunk>, waiting: map<int, Chunk>, micros: nat)
  {
    waiting != map[] &&
    (|| TotalBytes(waiting) > 65_536 || |waiting| > 256
     || (Earliest(before).Some? && micros - Earliest(before).value >= 2_000_000))
  }

  /** Storing a chunk first emits, without a hole, what has become contiguous. If then too much waits, the
      hole in front of it is given up: one gap more, and the next chunk emitted is the first that waits,
      flagged. Otherwise nothing else happens. */
  lemma StoreGivesUp(s: State, h: seq<Segment>, at: int, chunk: Chunk) returns (drained: State)
    requires Sound(s, h) && s.firstMicros == Earliest(s.pending) && s.expected.Some?
    requires Backed(h, at, chunk) && !chunk.discontinuity && !AlreadyHeld(s, at, chunk)
    ensures drained.expected.Some? && drained.gaps == s.gaps
    ensures forall k :: k in drained.pending ==> k > drained.expected.value
    ensures var (next, more) := StoreState(s, at, chunk);
      var first := DrainState(InsertState(s, at, chunk)).1;
      && Chain(s.expected.value, first, drained.expected.value) && first <= more
      && if TooMuch(s.pending, drained.pending, chunk.meta.micros) then
           var k := Least(drained.pending.Keys);
           && next.gaps == s.gaps + 1 && next.expected.Some? && next.expected.value > k
           && |more| > |first|
           && more[|first|] == Emission(k, drained.pending[k].(discontinuity := true))
         else next == drained && more == first
  {
    hide DrainState, SkipState, Earliest, TotalBytes, Backed;
    var inserted := InsertState(s, at, chunk);
    InsertSound(s, h, at, chunk);
    DrainFrame(inserted);
    DrainSound(inserted, h);
    DrainChain(inserted, h);
    drained := DrainState(inserted).0;
    WaitingBeyond(drained);
    if OverLimit(drained, Age(s, chunk)) && drained.pending != map[] {
      SkipFlags(drained, h);
    } else {
      SkipNothing(drained);
      assert DrainState(inserted).1 + [] == DrainState(inserted).1;
    }
  }

  /** The same for an arrival with something new in it. `drained` is what waits once everything contiguous
      has been emitted. */
  lemma PushGivesUp(s: State, h: seq<Segment>, out: seq<Emission>, g: Segment, sequence: u32)
    returns (drained: State, contiguous: seq<Emission>)
    requires Inv(s, h, out) && s.expected.Some? && s.anchor.Some? && PositionOf(s, sequence, false) == g.at
    requires Fresh(s, g) && !AlreadyHeld(s, Landing(s, g), Piece(s, g))
    ensures drained.expected.Some? && Chain(s.expected.value, contiguous, drained.expected.value)
    ensures forall k :: k in drained.pending ==> k > drained.expected.value
    ensures var (next, more) := PushState(s, sequence, false, g.data, g.meta);
      && contiguous <= more
      && if TooMuch(s.pending, drained.pending, g.meta.micros) then
           var k := Least(drained.pending.Keys);
           && next.gaps == s.gaps + 1 && next.expected.Some? && next.expected.value > k
           && |more| > |contiguous|
           && more[|contiguous|] == Emission(k, drained.pending[k].(discontinuity := true))
         else next.gaps == s.gaps && next.expected == drained.expected && next.pending == drained.pending
              && more == contiguous
  {
    hide StoreState, DrainState, PositionOf, Earliest, TotalBytes, Chain, Sound;
    var start := Stale(s, g.at, |g.data|);
    var counted := s.(
      retransmittedBytes := s.retransmittedBytes + start,
      lateBytes := if s.gaps > 0 then s.lateBytes + start else s.lateBytes);
    InvSound(s, h, out);
    SoundGrows(s, h, g);
    CountersSound(s, counted, h + [g]);
    PieceBacked(s, h, g);
    drained := StoreGivesUp(counted, h + [g], Landing(s, g), Piece(s, g));
    contiguous := DrainState(InsertState(counted, Landing(s, g), Piece(s, g))).1;
  }

  lemma WaitingBeyond(s: State)
    requires !Ready(s) && s.expected.Some?
    ensures forall k :: k in s.pending ==> k > s.expected.value
  {
  }

  lemma SkipNothing(s: State)
    ensures s.pending == map[] ==> SkipState(s) == (s, [])
  {
  }

  lemma SkipIs(s: State)
    requires s.pending != map[] && s.expected.Some? && Least(s.pending.Keys) > s.expected.value
    ensures var (end, run) := DrainState(s.(expected := Some(Least(s.pending.Keys)), gaps := s.gaps + 1));
      SkipState(s) == if run != [] then (end, Flagged(run)) else (end, run)
  {
    hide DrainState, Flagged;
  }

  lemma FlaggedFirst(run: seq<Emission>)
    requires run != []
    ensures Flagged(run) != [] && Flagged(run)[0] == Emission(run[0].at, run[0].chunk.(discontinuity := true))
  {
  }

  lemma SkipFlags(s: State, h: seq<Segment>)
    requires Sound(s, h) && s.pending != map[] && s.expected.Some? && !Ready(s)
    ensures var (next, more) := SkipState(s);
      var k := Least(s.pending.Keys);
      && next.gaps == s.gaps + 1 && next.expected.Some? && next.expected.value > k
      && more != [] && more[0] == Emission(k, s.pending[k].(discontinuity := true))
  {
    hide DrainState, SkipState, Flagged, Earliest, TotalBytes, Backed, Chain;
    var k := Least(s.pending.Keys);
    BackedNonEmpty(h, k, s.pending[k]);
    var from := s.(expected := Some(k), gaps := s.gaps + 1);
    SkipIs(s);
    PopWhole(from);
    FlaggedFirst(DrainState(from).1);
    DrainFrame(from);
    DrainChain(from, h);
    ChainReaches(k, DrainState(from).1, DrainState(from).0.expected.value);
  }

  lemma {:induction false} ChainReaches(from: int, out: seq<Emission>, to: int)
    requires Chain(from, out, to) && out != []
    ensures to > from
    decreases |out|
  {
    if |out| > 1 {
      EmittedInOrder(out, 0, |out| - 1);
    }
  }

  // ---------------------------------------------------------------- duplicates and counters

  /** A chunk no longer than the one that waits at its position changes nothing but the count of
      retransmitted bytes: the first to come keeps its place and its metadata. */
  lemma DuplicateIgnored(s: State, at: int, chunk: Chunk)
    requires at in s.pending && |chunk.data| <= |s.pending[at].data| && s.firstMicros.Some?
    ensures StoreState(s, at, chunk) == (s.(retransmittedBytes := s.retransmittedBytes + |chunk.data|), [])
  {
  }

  /** The bytes of an arrival that lie below `expected`. */
  function Below(expected: Option<int>, at: int, length: nat): nat
  {
    if expected.None? then 0 else Max(0, Min(length, expected.value - at))
  }

  /** Bytes that come too late are counted as late exactly once a hole has been skipped. */
  lemma LateCounted(s: State, sequence: u32, syn: bool, data: seq<byte>, meta: FrameMeta)
    ensures var expected, at := OpenState(s, sequence, syn).expected, PositionOf(s, sequence, syn);
      PushState(s, sequence, syn, data, meta).0.lateBytes
      == s.lateBytes + (if s.gaps > 0 then Below(expected, at, |data|) else 0)
  {
    hide StoreState, PositionOf;
    var open, at := OpenState(s, sequence, syn), PositionOf(s, sequence, syn);
    if data != [] {
      var start := Stale(open, at, |data|);
      var counted := open.(
        retransmittedBytes := open.retransmittedBytes + start,
        lateBytes := if open.gaps > 0 then open.lateBytes + start else open.lateBytes);
      StoreLate(counted, at + start, Chunk(data[start..], meta, false));
    }
  }

  lemma StoreLate(s: State, at: int, chunk: Chunk)
    ensures StoreState(s, at, chunk).0.lateBytes == s.lateBytes
  {
    hide DrainState, SkipState, Earliest;
    var synced := SyncState(InsertState(s, at, chunk), Age(s, chunk));
    DrainFrame(synced);
    SkipLate(DrainState(synced).0);
  }

  lemma SkipLate(s: State)
    ensures SkipState(s).0.lateBytes == s.lateBytes
  {
    hide DrainState, Earliest;
    if s.pending != map[] {
      var k := Least(s.pending.Keys);
      DrainFrame(s.(expected := Some(k),
        gaps := if s.expected.Some? && k > s.expected.value then s.gaps + 1 else s.gaps));
    }
  }
}
