/** Arrival-order independence: after a leading SYN, what `Reassembly` holds is a function of the set
    of bytes received, for every arrival order, overlap and retransmission. */
module TcpCoverage {
  import opened Wrappers
  import opened TcpReassembly

  ghost predicate Covered(h: seq<Segment>, p: int)
  {
    exists i :: 0 <= i < |h| && h[i].at <= p < h[i].End()
  }

  ghost predicate Held(pending: map<int, Chunk>, p: int)
  {
    exists k :: k in pending && k <= p < k + |pending[k].data|
  }

  /** Every received byte lies below `expected` or is pending, and `pending` holds nothing else. */
  ghost predicate Accounted(s: State, h: seq<Segment>)
  {
    && s.expected.Some? && s.expected.value >= 0
    && (forall p :: 0 <= p < s.expected.value ==> Covered(h, p))
    && (forall p :: p >= s.expected.value ==> (Covered(h, p) <==> Held(s.pending, p)))
  }

  /** `expected` is the least position not received, and `pending` is exactly what lies beyond it. */
  ghost predicate Tracking(s: State, h: seq<Segment>)
  {
    Accounted(s, h) && !Ready(s)
  }

  lemma TrackingFrontier(s: State, h: seq<Segment>)
    requires Tracking(s, h)
    ensures !Covered(h, s.expected.value)
    ensures forall k :: k in s.pending ==> k > s.expected.value
  {
  }

  lemma HeldRemove(pending: map<int, Chunk>, k: int, p: int)
    requires k in pending
    ensures Held(pending, p) <==> Held(pending - {k}, p) || k <= p < k + |pending[k].data|
  {
    if Held(pending, p) {
      var j :| j in pending && j <= p < j + |pending[j].data|;
      assert j != k ==> j in pending - {k};
    }
    if Held(pending - {k}, p) {
      var j :| j in pending - {k} && j <= p < j + |(pending - {k})[j].data|;
      assert j in pending;
    }
  }

  lemma PopAccounted(s: State, h: seq<Segment>)
    requires Ready(s) && Accounted(s, h)
    ensures Accounted(PopState(s), h)
  {
    var k := Least(s.pending.Keys);
    var popped := PopState(s);
    hide PopState, Covered, Held;
    assert popped.expected == Some(Max(s.expected.value, k + |s.pending[k].data|))
      && popped.pending == s.pending - {k} by {
      PopShape(s);
    }
    forall p | 0 <= p < popped.expected.value ensures Covered(h, p) {
      HeldRemove(s.pending, k, p);
    }
    forall p | p >= popped.expected.value ensures Covered(h, p) <==> Held(popped.pending, p) {
      HeldRemove(s.pending, k, p);
    }
  }

  lemma PopShape(s: State)
    requires Ready(s)
    ensures var k := Least(s.pending.Keys);
      PopState(s).expected == Some(Max(s.expected.value, k + |s.pending[k].data|))
        && PopState(s).pending == s.pending - {k}
  {
  }

  lemma {:induction false} DrainTracking(s: State, h: seq<Segment>)
    requires Accounted(s, h)
    ensures Tracking(DrainState(s).0, h)
    decreases |s.pending|
  {
    if Ready(s) {
      PopAccounted(s, h);
      hide Accounted, PopState;
      DrainTracking(PopState(s), h);
    }
  }

  lemma CoveredAppend(h: seq<Segment>, g: Segment, p: int)
    ensures Covered(h + [g], p) <==> Covered(h, p) || g.at <= p < g.End()
  {
    var all := h + [g];
    if Covered(h, p) {
      var i :| 0 <= i < |h| && h[i].at <= p < h[i].End();
      assert all[i] == h[i];
    }
    assert all[|h|] == g;
  }

  /** A segment that adds nothing at or beyond `expected` leaves the state accounted for. */
  lemma NothingNew(s: State, h: seq<Segment>, g: Segment)
    requires Accounted(s, h)
    requires forall p :: p >= s.expected.value && g.at <= p < g.End() ==> Held(s.pending, p)
    ensures Accounted(s, h + [g])
  {
    hide Covered, Held;
    forall p ensures Covered(h + [g], p) <==> Covered(h, p) || g.at <= p < g.End() {
      CoveredAppend(h, g, p);
    }
  }

  lemma InsertAccounted(s: State, h: seq<Segment>, g: Segment, at: int, chunk: Chunk)
    requires Accounted(s, h)
    requires at == Max(g.at, s.expected.value) && at + |chunk.data| == g.End() && |chunk.data| > 0
    requires !AlreadyHeld(s, at, chunk)
    ensures Accounted(InsertState(s, at, chunk), h + [g])
  {
    hide Covered, Held;
    var after := s.pending[at := chunk];
    assert after - {at} == s.pending - {at};
    forall p ensures Held(after, p) <==> Held(s.pending, p) || at <= p < g.End() {
      HeldRemove(after, at, p);
      if at in s.pending {
        HeldRemove(s.pending, at, p);
      } else {
        assert s.pending - {at} == s.pending;
      }
    }
    forall p ensures Covered(h + [g], p) <==> Covered(h, p) || g.at <= p < g.End() {
      CoveredAppend(h, g, p);
    }
  }

  /** Storing a chunk keeps the tracking unless a limit skips a hole. */
  lemma StoreTracking(s: State, h: seq<Segment>, g: Segment, at: int, chunk: Chunk)
    requires Tracking(s, h)
    requires at == Max(g.at, s.expected.value) && at + |chunk.data| == g.End() && |chunk.data| > 0
    ensures var synced := InsertState(s, at, chunk);
      && (AlreadyHeld(s, at, chunk) ==> Tracking(StoreState(s, at, chunk).0, h + [g]))
      && (!AlreadyHeld(s, at, chunk) ==> Accounted(synced, h + [g]) && Tracking(DrainState(synced).0, h + [g]))
  {
    hide DrainState, Covered;
    if AlreadyHeld(s, at, chunk) {
      assert forall p :: p >= s.expected.value && g.at <= p < g.End() ==> Held(s.pending, p) by {
        assert at in s.pending;
      }
      NothingNew(s, h, g);
    } else {
      InsertAccounted(s, h, g, at, chunk);
      DrainTracking(InsertState(s, at, chunk), h + [g]);
    }
  }

  // ---------------------------------------------------------------- one arrival

  predicate Skips(s: State, at: int, chunk: Chunk)
  {
    && !AlreadyHeld(s, at, chunk)
    && var drained := DrainState(SyncState(InsertState(s, at, chunk), Age(s, chunk))).0;
       drained.pending != map[] && OverLimit(drained, Age(s, chunk))
  }

  lemma StoreCalm(s: State, h: seq<Segment>, g: Segment, at: int, chunk: Chunk)
    requires Tracking(s, h) && Sound(s, h) && Backed(h + [g], at, chunk) && !chunk.discontinuity
    requires at == Max(g.at, s.expected.value) && at + |chunk.data| == g.End()
    ensures var (end, more) := StoreState(s, at, chunk);
      if Skips(s, at, chunk) then end.gaps == s.gaps + 1
      else
        && end.gaps == s.gaps && end.anchor == s.anchor && Tracking(end, h + [g])
        && Chain(s.expected.value, more, end.expected.value)
  {
    hide DrainState, SkipState, Covered, CoveredBy, Earliest, TotalBytes, Sound;
    StoreTracking(s, h, g, at, chunk);
    if !AlreadyHeld(s, at, chunk) {
      var inserted := InsertState(s, at, chunk);
      assert SyncState(inserted, Age(s, chunk)) == inserted;
      SoundGrows(s, h, g);
      InsertSound(s, h + [g], at, chunk);
      DrainFrame(inserted);
      DrainChain(inserted, h + [g]);
      var drained := DrainState(inserted).0;
      SkipCounts(drained);
      assert DrainState(inserted).1 + [] == DrainState(inserted).1;
    }
  }

  lemma SkipCounts(s: State)
    requires s.expected.Some? && !Ready(s)
    ensures if s.pending == map[] then SkipState(s) == (s, []) else SkipState(s).0.gaps == s.gaps + 1
  {
    if s.pending != map[] {
      DrainFrame(s.(expected := Some(Least(s.pending.Keys)), gaps := s.gaps + 1));
    }
  }

  lemma SoundGrows(s: State, h: seq<Segment>, g: Segment)
    requires Sound(s, h)
    ensures Sound(s, h + [g])
  {
    forall k | k in s.pending ensures Backed(h + [g], k, s.pending[k]) {
      BackedMonotone(h, g, k, s.pending[k]);
    }
  }

  /** The piece of an arriving segment that is new, if there is one. */
  predicate Fresh(s: State, g: Segment)
    requires s.expected.Some?
  {
    Stale(s, g.at, |g.data|) < |g.data|
  }

  function Piece(s: State, g: Segment): Chunk
    requires s.expected.Some? && Fresh(s, g)
  {
    Chunk(g.data[Stale(s, g.at, |g.data|)..], g.meta, false)
  }

  function Landing(s: State, g: Segment): int
    requires s.expected.Some?
  {
    g.at + Stale(s, g.at, |g.data|)
  }

  /** The arrival makes `push` skip a hole. */
  predicate Overruns(s: State, g: Segment)
    requires s.expected.Some?
  {
    Fresh(s, g) && Skips(s, Landing(s, g), Piece(s, g))
  }

  lemma SkipsSame(s: State, t: State, at: int, chunk: Chunk)
    requires t == s.(retransmittedBytes := t.retransmittedBytes, lateBytes := t.lateBytes)
    ensures Skips(s, at, chunk) == Skips(t, at, chunk)
  {
    hide DrainState;
    DrainCounters(SyncState(InsertState(s, at, chunk), Age(s, chunk)),
      SyncState(InsertState(t, at, chunk), Age(t, chunk)));
  }

  lemma {:induction false} DrainCounters(s: State, t: State)
    requires t == s.(retransmittedBytes := t.retransmittedBytes, lateBytes := t.lateBytes)
    ensures DrainState(t).0 == DrainState(s).0.(
              retransmittedBytes := DrainState(t).0.retransmittedBytes, lateBytes := DrainState(t).0.lateBytes)
    decreases |s.pending|
  {
    if Ready(s) {
      DrainCounters(PopState(s), PopState(t));
    }
  }

  /** One arrival after the SYN: unless it overruns a limit, the chunks handed over continue the
      stream without a hole up to the new frontier. */
  lemma PushCalm(s: State, h: seq<Segment>, g: Segment, sequence: u32)
    requires Tracking(s, h) && Sound(s, h) && s.anchor.Some? && PositionOf(s, sequence, false) == g.at
    ensures var (end, more) := PushState(s, sequence, false, g.data, g.meta);
      if Overruns(s, g) then end.gaps == s.gaps + 1
      else
        && end.gaps == s.gaps && end.anchor == s.anchor && Tracking(end, h + [g])
        && Chain(s.expected.value, more, end.expected.value)
  {
    hide StoreState, DrainState, PositionOf, Covered, Skips, Sound, AlreadyHeld;
    var start := Stale(s, g.at, |g.data|);
    var counted := s.(
      retransmittedBytes := s.retransmittedBytes + start,
      lateBytes := if s.gaps > 0 then s.lateBytes + start else s.lateBytes);
    assert Tracking(counted, h);
    if Fresh(s, g) {
      SkipsSame(s, counted, Landing(s, g), Piece(s, g));
      assert Sound(counted, h) by { CountersSound(s, counted, h); }
      PieceBacked(s, h, g);
      StoreCalm(counted, h, g, Landing(s, g), Piece(s, g));
    } else {
      NothingNew(s, h, g);
    }
  }

  lemma CountersSound(s: State, t: State, h: seq<Segment>)
    requires Sound(s, h) && t.pending == s.pending && t.pendingBytes == s.pendingBytes
    ensures Sound(t, h)
  {
  }

  lemma PieceBacked(s: State, h: seq<Segment>, g: Segment)
    requires s.expected.Some? && Fresh(s, g)
    ensures Backed(h + [g], Landing(s, g), Piece(s, g))
  {
    assert (h + [g])[|h|] == g && CoveredBy(g, Landing(s, g), Piece(s, g).data);
  }

  // ---------------------------------------------------------------- whole deliveries

  /** The sequence number of the byte at an offset behind the SYN. */
  function Sequence(isn: u32, offset: int): u32
  {
    (isn + 1 + offset) % TWO_32
  }

  /** The SYN arrives first, then the segments in the given order. */
  function Deliver(isn: u32, ds: seq<Segment>): Trace
  {
    if ds == [] then Trace(OpenState(EMPTY, isn, true), [], [])
    else
      var g := ds[|ds|-1];
      Step(Deliver(isn, ds[..|ds|-1]), Arrive(Sequence(isn, g.at), false, g.data, g.meta))
  }

  function Reach(h: seq<Segment>): int
  {
    if h == [] then 0 else Max(Reach(h[..|h|-1]), h[|h|-1].End())
  }

  lemma {:induction false} CoveredBelowReach(h: seq<Segment>, p: int)
    requires Covered(h, p)
    ensures p < Reach(h)
  {
    var prefix := h[..|h|-1];
    assert h == prefix + [h[|h|-1]];
    CoveredAppend(prefix, h[|h|-1], p);
    if Covered(prefix, p) {
      CoveredBelowReach(prefix, p);
    }
  }

  /** The least position at or after `from` that no segment covers. */
  ghost function Frontier(h: seq<Segment>, from: int): (p: int)
    ensures p >= from && !Covered(h, p)
    ensures forall q :: from <= q < p ==> Covered(h, q)
    decreases Reach(h) - from
  {
    if Covered(h, from) then
      CoveredBelowReach(h, from);
      Frontier(h, from + 1)
    else from
  }

  /** Every segment arrives within half the sequence space of the frontier at that time. */
  ghost predicate InWindow(ds: seq<Segment>)
  {
    forall i :: 0 <= i < |ds| ==> -I32_MAX <= ds[i].at - Frontier(ds[..i], 0) <= I32_MAX + 1
  }

  /** What the receiver holds after a delivery that skipped no hole: it depends only on which bytes
      were received. */
  ghost predicate Delivered(t: Trace, isn: u32, ds: seq<Segment>)
  {
    && t.history == ds
    && t.state.gaps == 0
    && t.state.anchor == Some((isn + 1) % TWO_32)
    && Inv(t.state, ds, t.out)
    && Tracking(t.state, ds)
    && t.state.expected == Some(Frontier(ds, 0))
    && Chain(0, t.out, Frontier(ds, 0))
  }

  lemma {:induction false} TrackingIsFrontier(s: State, h: seq<Segment>)
    requires Tracking(s, h)
    ensures s.expected.value == Frontier(h, 0)
  {
    TrackingFrontier(s, h);
    assert !Covered(h, Frontier(h, 0));
  }

  lemma ChainConcat(from: int, a: seq<Emission>, mid: int, b: seq<Emission>, to: int)
    requires Chain(from, a, mid) && Chain(mid, b, to)
    ensures Chain(from, a + b, to)
  {
    OrderedConcat(a, b);
    hide Ordered;
  }

  lemma {:induction false} DeliverStart(isn: u32)
    ensures Delivered(Deliver(isn, []), isn, [])
  {
    var s := OpenState(EMPTY, isn, true);
    assert s.expected == Some(0);
    assert Frontier([], 0) == 0;
  }

  lemma Lands(s: State, isn: u32, g: Segment)
    requires s.anchor == Some((isn + 1) % TWO_32) && s.expected.Some?
    requires -I32_MAX <= g.at - s.expected.value <= I32_MAX + 1
    ensures PositionOf(s, Sequence(isn, g.at), false) == g.at
  {
    hide Unwrap;
    var q := Sequence(isn, g.at);
    var a, b := (isn + 1 + g.at) / TWO_32, (isn + 1) / TWO_32;
    assert g.at - (q - s.anchor.value) == TWO_32 * (a - b);
    MultipleOf(a - b);
    assert q == (q + 0) % TWO_32;
    UnwrapUnique(s.anchor.value, q, s.expected.value, g.at);
  }

  lemma {:induction false} DeliverStep(t: Trace, isn: u32, ds: seq<Segment>, g: Segment)
    requires Delivered(t, isn, ds)
    requires -I32_MAX <= g.at - Frontier(ds, 0) <= I32_MAX + 1
    ensures var next := Step(t, Arrive(Sequence(isn, g.at), false, g.data, g.meta));
      if Overruns(t.state, g) then next.state.gaps == 1 else Delivered(next, isn, ds + [g])
  {
    hide PushState, Inv, Tracking, Chain, Overruns, PositionOf, Covered;
    var q := Sequence(isn, g.at);
    Lands(t.state, isn, g);
    InvSound(t.state, ds, t.out);
    PushCalm(t.state, ds, g, q);
    PushInv(t.state, ds, t.out, q, false, g.data, g.meta);
    var (end, more) := PushState(t.state, q, false, g.data, g.meta);
    if !Overruns(t.state, g) {
      TrackingIsFrontier(end, ds + [g]);
      assert end.expected.Some? by { TrackingSome(end, ds + [g]); }
      ChainConcat(0, t.out, t.state.expected.value, more, end.expected.value);
    }
  }

  lemma InvSound(s: State, h: seq<Segment>, out: seq<Emission>)
    requires Inv(s, h, out)
    ensures Sound(s, h) && s.firstMicros == Earliest(s.pending)
  {
  }

  lemma TrackingSome(s: State, h: seq<Segment>)
    requires Tracking(s, h)
    ensures s.expected.Some?
  {
  }

  lemma {:induction false} GapsGrow(t: Trace, e: Event)
    ensures Step(t, e).state.gaps >= t.state.gaps
  {
    hide DrainState, PositionOf, Earliest;
    match e
    case Arrive(sequence, syn, data, meta) => PushGaps(t.state, sequence, syn, data, meta);
    case Close => FinishGaps(t.state);
  }

  lemma SkipGaps(s: State)
    ensures SkipState(s).0.gaps >= s.gaps
  {
    if s.pending != map[] {
      var k := Least(s.pending.Keys);
      DrainFrame(s.(expected := Some(k),
        gaps := if s.expected.Some? && k > s.expected.value then s.gaps + 1 else s.gaps));
    }
  }

  lemma {:induction false} FinishGaps(s: State)
    ensures FinishState(s).0.gaps >= s.gaps
    decreases |s.pending|
  {
    if s.pending != map[] {
      SkipGaps(s);
      SkipShrinks(s);
      FinishGaps(SkipState(s).0);
    }
  }

  lemma StoreGaps(s: State, at: int, chunk: Chunk)
    ensures StoreState(s, at, chunk).0.gaps >= s.gaps
  {
    hide DrainState, Earliest, SkipState;
    var synced := SyncState(InsertState(s, at, chunk), Age(s, chunk));
    DrainFrame(synced);
    SkipGaps(DrainState(synced).0);
  }

  lemma PushGaps(s: State, sequence: u32, syn: bool, data: seq<byte>, meta: FrameMeta)
    ensures PushState(s, sequence, syn, data, meta).0.gaps >= s.gaps
  {
    hide StoreState, PositionOf;
    var open := OpenState(s, sequence, syn);
    var start := Stale(open, PositionOf(s, sequence, syn), |data|);
    var counted := open.(
      retransmittedBytes := open.retransmittedBytes + start,
      lateBytes := if open.gaps > 0 then open.lateBytes + start else open.lateBytes);
    StoreGaps(counted, PositionOf(s, sequence, syn) + start, Chunk(data[start..], meta, false));
  }

  lemma WindowPrefix(ds: seq<Segment>)
    requires InWindow(ds) && ds != []
    ensures var prefix := ds[..|ds|-1];
      InWindow(prefix) && -I32_MAX <= ds[|ds|-1].at - Frontier(prefix, 0) <= I32_MAX + 1
  {
    hide Frontier;
    var prefix := ds[..|ds|-1];
    forall i | 0 <= i < |prefix| ensures -I32_MAX <= prefix[i].at - Frontier(prefix[..i], 0) <= I32_MAX + 1 {
      assert prefix[i] == ds[i] && prefix[..i] == ds[..i];
    }
  }

  /** The same for a SYN followed by the data segments alone. */
  lemma {:induction false} DeliveryOrder(isn: u32, ds: seq<Segment>)
    requires InWindow(ds)
    ensures Deliver(isn, ds).state.gaps == 0 ==> Delivered(Deliver(isn, ds), isn, ds)
  {
    if ds == [] {
      DeliverStart(isn);
    } else {
      var prefix := ds[..|ds|-1];
      var g := ds[|ds|-1];
      WindowPrefix(ds);
      hide Delivered, Step, InWindow, Frontier;
      DeliveryOrder(isn, prefix);
      GapsGrow(Deliver(isn, prefix), Arrive(Sequence(isn, g.at), false, g.data, g.meta));
      assert ds == prefix + [g];
      if Deliver(isn, ds).state.gaps == 0 {
        DeliverStep(Deliver(isn, prefix), isn, prefix, g);
      }
    }
  }

  // ---------------------------------------------------------------- deliveries that hit no limit

  /** Segments, bytes and oldest timestamp received since everything received was contiguous. */
  datatype Backlog = Backlog(count: nat, bytes: nat, earliest: Option<int>)

  ghost predicate CaughtUp(ds: seq<Segment>)
  {
    Frontier(ds, 0) >= Reach(ds)
  }

  ghost function BacklogOf(ds: seq<Segment>): Backlog
  {
    if ds == [] || CaughtUp(ds) then Backlog(0, 0, None)
    else Grown(BacklogOf(ds[..|ds|-1]), ds[|ds|-1])
  }

  function Grown(b: Backlog, g: Segment): Backlog
  {
    Backlog(b.count + 1, b.bytes + |g.data|,
      Some(if b.earliest.Some? then Min(b.earliest.value, g.meta.micros) else g.meta.micros))
  }

  predicate Small(b: Backlog, g: Segment)
  {
    && b.count < MAX_PENDING_SEGMENTS
    && b.bytes + |g.data| <= MAX_PENDING_BYTES
    && (b.earliest.Some? ==> g.meta.micros - b.earliest.value < GAP_MICROS)
  }

  /** Checkable before the run: while a hole is open, at most 256 segments, 64 KiB and two seconds of
      traffic arrive behind it. */
  ghost predicate WithinLimits(ds: seq<Segment>)
  {
    forall i :: 0 <= i < |ds| ==> CaughtUp(ds[..i+1]) || Small(BacklogOf(ds[..i]), ds[i])
  }

  ghost predicate Bounded(s: State, b: Backlog)
  {
    && |s.pending| <= b.count && s.pendingBytes <= b.bytes
    && (s.pending != map[] ==> b.earliest.Some? && s.firstMicros.Some? && b.earliest.value <= s.firstMicros.value)
  }

  lemma CaughtUpEmpty(s: State, h: seq<Segment>)
    requires Tracking(s, h) && Sound(s, h) && CaughtUp(h)
    ensures s.pending == map[] && s.pendingBytes == 0
  {
    TrackingIsFrontier(s, h);
    forall k | k in s.pending ensures false {
      assert Backed(h, k, s.pending[k]);
      assert Held(s.pending, k);
      assert Covered(h, k);
      CoveredBelowReach(h, k);
    }
  }

  lemma {:induction false} DrainBytes(s: State)
    ensures DrainState(s).0.pendingBytes <= s.pendingBytes
    decreases |s.pending|
  {
    if Ready(s) {
      DrainBytes(PopState(s));
    }
  }

  lemma DrainedBounded(s: State, b: Backlog, g: Segment, at: int, chunk: Chunk)
    requires Bounded(s, b) && s.firstMicros == Earliest(s.pending)
    requires |chunk.data| <= |g.data| && chunk.meta == g.meta
    ensures Bounded(DrainState(InsertState(s, at, chunk)).0, Grown(b, g))
  {
    hide DrainState;
    var inserted := InsertState(s, at, chunk);
    assert |inserted.pending| <= |s.pending| + 1;
    DrainFrame(inserted);
    DrainBytes(inserted);
    var end := DrainState(inserted).0;
    if end.pending != map[] {
      var k :| k in end.pending && end.firstMicros.value == end.pending[k].meta.micros;
      assert k == at || k in s.pending;
    }
  }

  lemma StoreBounded(s: State, h: seq<Segment>, b: Backlog, g: Segment, at: int, chunk: Chunk)
    requires Bounded(s, b) && Tracking(s, h) && Sound(s, h) && s.firstMicros == Earliest(s.pending)
    requires Backed(h + [g], at, chunk) && !chunk.discontinuity && chunk.meta == g.meta
    requires at == Max(g.at, s.expected.value) && at + |chunk.data| == g.End()
    requires CaughtUp(h + [g]) || Small(b, g)
    ensures !Skips(s, at, chunk)
    ensures Bounded(StoreState(s, at, chunk).0, Grown(b, g))
  {
    hide DrainState, Covered, Sound, CoveredBy, CaughtUp;
    if !AlreadyHeld(s, at, chunk) {
      var inserted := InsertState(s, at, chunk);
      assert SyncState(inserted, Age(s, chunk)) == inserted;
      DrainedBounded(s, b, g, at, chunk);
      StoreTracking(s, h, g, at, chunk);
      if CaughtUp(h + [g]) {
        SoundGrows(s, h, g);
        InsertSound(s, h + [g], at, chunk);
        DrainSound(inserted, h + [g]);
        CaughtUpEmpty(DrainState(inserted).0, h + [g]);
      }
    }
  }

  lemma {:induction false} BacklogStep(t: Trace, isn: u32, ds: seq<Segment>, g: Segment)
    requires Delivered(t, isn, ds) && Bounded(t.state, BacklogOf(ds))
    requires -I32_MAX <= g.at - Frontier(ds, 0) <= I32_MAX + 1
    requires CaughtUp(ds + [g]) || Small(BacklogOf(ds), g)
    ensures var next := Step(t, Arrive(Sequence(isn, g.at), false, g.data, g.meta));
      Delivered(next, isn, ds + [g]) && Bounded(next.state, BacklogOf(ds + [g]))
  {
    hide StoreState, Covered, Sound, Earliest, Skips, Frontier, BacklogOf, CaughtUp, PositionOf, Inv, Chain, Small;
    var s := t.state;
    var q := Sequence(isn, g.at);
    Lands(s, isn, g);
    InvSound(s, ds, t.out);
    var start := Stale(s, g.at, |g.data|);
    var counted := s.(retransmittedBytes := s.retransmittedBytes + start);
    if Fresh(s, g) {
      SkipsSame(s, counted, Landing(s, g), Piece(s, g));
      PieceBacked(s, ds, g);
      CountersSound(s, counted, ds);
      StoreBounded(counted, ds, BacklogOf(ds), g, Landing(s, g), Piece(s, g));
    }
    DeliverStep(t, isn, ds, g);
    var next := Step(t, Arrive(q, false, g.data, g.meta));
    assert Bounded(next.state, Grown(BacklogOf(ds), g));
    InvSound(next.state, ds + [g], next.out);
    BacklogNext(next.state, ds, g);
  }

  lemma {:induction false} BacklogNext(s: State, ds: seq<Segment>, g: Segment)
    requires Bounded(s, Grown(BacklogOf(ds), g)) && Tracking(s, ds + [g]) && Sound(s, ds + [g])
    ensures Bounded(s, BacklogOf(ds + [g]))
  {
    var all := ds + [g];
    assert all[..|all|-1] == ds && all[|all|-1] == g;
    if CaughtUp(all) {
      CaughtUpEmpty(s, all);
    }
  }

  /** Within these limits no hole is ever skipped, so the whole delivery is arrival-order independent. */
  lemma {:induction false} NoLimitFires(isn: u32, ds: seq<Segment>)
    requires InWindow(ds) && WithinLimits(ds)
    ensures Delivered(Deliver(isn, ds), isn, ds)
    ensures Bounded(Deliver(isn, ds).state, BacklogOf(ds))
  {
    hide Delivered, Step, InWindow, WithinLimits, Frontier, CaughtUp, Small;
    if ds == [] {
      DeliverStart(isn);
    } else {
      var prefix := ds[..|ds|-1];
      var g := ds[|ds|-1];
      WindowPrefix(ds);
      LimitsPrefix(ds);
      hide Bounded, BacklogOf;
      NoLimitFires(isn, prefix);
      assert ds == prefix + [g];
      BacklogStep(Deliver(isn, prefix), isn, prefix, g);
    }
  }

  lemma LimitsPrefix(ds: seq<Segment>)
    requires WithinLimits(ds) && ds != []
    ensures var prefix := ds[..|ds|-1];
      WithinLimits(prefix) && (CaughtUp(ds) || Small(BacklogOf(prefix), ds[|ds|-1]))
  {
    hide CaughtUp, BacklogOf, Small;
    var prefix := ds[..|ds|-1];
    forall i | 0 <= i < |prefix| ensures CaughtUp(prefix[..i+1]) || Small(BacklogOf(prefix[..i]), prefix[i]) {
      assert prefix[i] == ds[i] && prefix[..i] == ds[..i] && prefix[..i+1] == ds[..i+1];
    }
    assert ds[..|ds|] == ds;
  }

  // ---------------------------------------------------------------- captures with repeated SYNs

  /** An arrival without payload: a SYN, an acknowledgement, a window update. */
  predicate Bare(e: Event)
  {
    e.Arrive? && e.data == []
  }

  /** The arrivals that bring bytes. */
  function Loaded(events: seq<Event>): seq<Event>
  {
    if events == [] then []
    else Loaded(events[..|events|-1]) + (if Bare(events[|events|-1]) then [] else [events[|events|-1]])
  }

  /** The arrival brings the segment's bytes, the first of them possibly on the SYN itself. */
  predicate Brings(isn: u32, e: Event, g: Segment)
  {
    && e.Arrive? && e.data == g.data && e.meta == g.meta
    && if e.syn then g.at == 0 && e.sequence == isn else e.sequence == Sequence(isn, g.at)
  }

  /** A capture that begins with the SYN, bare or with data, and in which the segments arrive in this
      order; SYNs, with or without data, and other empty segments may repeat anywhere. */
  ghost predicate Captured(isn: u32, events: seq<Event>, ds: seq<Segment>)
  {
    && events != [] && events[0].Arrive? && events[0].syn && events[0].sequence == isn
    && |Loaded(events)| == |ds| && forall i :: 0 <= i < |ds| ==> Brings(isn, Loaded(events)[i], ds[i])
  }

  lemma OpenStays(s: State, sequence: u32, syn: bool, data: seq<byte>, meta: FrameMeta)
    ensures var next := PushState(s, sequence, syn, data, meta).0;
      next.anchor.Some? && (s.expected.Some? || syn ==> next.expected.Some?)
  {
    hide StoreState, Unwrap;
    var open := OpenState(s, sequence, syn);
    var start := Stale(open, PositionOf(s, sequence, syn), |data|);
    var counted := open.(
      retransmittedBytes := open.retransmittedBytes + start,
      lateBytes := if open.gaps > 0 then open.lateBytes + start else open.lateBytes);
    StoreOpen(counted, PositionOf(s, sequence, syn) + start, Chunk(data[start..], meta, false));
  }

  lemma StoreOpen(s: State, at: int, chunk: Chunk)
    ensures var next := StoreState(s, at, chunk).0;
      next.anchor == s.anchor && (s.expected.Some? ==> next.expected.Some?)
  {
    hide DrainState, Earliest, SkipState;
    var synced := SyncState(InsertState(s, at, chunk), Age(s, chunk));
    DrainFrame(synced);
    SkipOpen(DrainState(synced).0);
  }

  lemma SkipOpen(s: State)
    ensures var next := SkipState(s).0; next.anchor == s.anchor && (s.expected.Some? ==> next.expected.Some?)
  {
    hide DrainState, Earliest;
    if s.pending != map[] {
      var k := Least(s.pending.Keys);
      DrainFrame(s.(expected := Some(k),
        gaps := if s.expected.Some? && k > s.expected.value then s.gaps + 1 else s.gaps));
    }
  }

  lemma {:induction false} DeliverOpen(isn: u32, ds: seq<Segment>)
    ensures Deliver(isn, ds).state.anchor.Some? && Deliver(isn, ds).state.expected.Some?
    decreases |ds|
  {
    hide PushState;
    if ds == [] {
      DeliverStart(isn);
    } else {
      var g := ds[|ds|-1];
      DeliverOpen(isn, ds[..|ds|-1]);
      OpenStays(Deliver(isn, ds[..|ds|-1]).state, Sequence(isn, g.at), false, g.data, g.meta);
    }
  }

  /** Once the stream is open, an arrival without payload changes nothing. */
  lemma BareIgnored(s: State, e: Event)
    requires Bare(e) && s.anchor.Some? && s.expected.Some?
    ensures PushState(s, e.sequence, e.syn, e.data, e.meta) == (s, [])
  {
  }

  /** Data on a SYN is data behind the SYN. */
  lemma SynData(s: State, isn: u32, data: seq<byte>, meta: FrameMeta)
    requires s.anchor.Some? && s.expected.Some?
    ensures PushState(s, isn, true, data, meta) == PushState(s, Sequence(isn, 0), false, data, meta)
  {
    hide StoreState, Unwrap;
  }

  lemma FirstSyn(isn: u32, data: seq<byte>, meta: FrameMeta)
    ensures var open := OpenState(EMPTY, isn, true);
      && open.anchor.Some? && open.expected.Some?
      && PushState(EMPTY, isn, true, data, meta)
         == if data == [] then (open, []) else PushState(open, Sequence(isn, 0), false, data, meta)
  {
    hide StoreState;
    assert (Sequence(isn, 0) + 0) % TWO_32 == Sequence(isn, 0);
  }

  /** A capture leaves what the plain delivery of its segments leaves. */
  lemma {:induction false} CaptureDelivers(isn: u32, events: seq<Event>, ds: seq<Segment>)
    requires Captured(isn, events, ds)
    ensures Run(events).state == Deliver(isn, ds).state && Run(events).out == Deliver(isn, ds).out
    decreases |events|
  {
    hide PushState, Sequence, OpenState;
    var prefix, e := events[..|events|-1], events[|events|-1];
    var loaded := Loaded(prefix);
    if |events| == 1 {
      assert prefix == [] && loaded == [];
      FirstSyn(isn, e.data, e.meta);
      if !Bare(e) {
        assert Loaded(events)[0] == e && ds[..0] == [];
        assert ds[|ds|-1] == ds[0];
      }
    } else if Bare(e) {
      CaptureDelivers(isn, prefix, ds);
      DeliverOpen(isn, ds);
      BareIgnored(Run(prefix).state, e);
    } else {
      var before, g := ds[..|ds|-1], ds[|ds|-1];
      assert Loaded(events)[|loaded|] == e && Brings(isn, e, g);
      forall i | 0 <= i < |before| ensures Brings(isn, loaded[i], before[i]) {
        assert Loaded(events)[i] == loaded[i] && Brings(isn, Loaded(events)[i], ds[i]);
      }
      CaptureDelivers(isn, prefix, before);
      DeliverOpen(isn, before);
      if e.syn {
        SynData(Run(prefix).state, isn, g.data, g.meta);
      }
    }
  }

  /** Arrival-order independence: if no hole was skipped, the frontier, the pending bytes and the
      emitted stream are those of the set of received bytes, however often the SYN is repeated and
      whether or not it carries data. */
  lemma {:induction false} ArrivalOrder(isn: u32, events: seq<Event>, ds: seq<Segment>)
    requires Captured(isn, events, ds) && InWindow(ds) && Run(events).state.gaps == 0
    ensures Delivered(Trace(Run(events).state, ds, Run(events).out), isn, ds)
  {
    hide Run, Deliver, InWindow, Frontier, Captured;
    CaptureDelivers(isn, events, ds);
    DeliveryOrder(isn, ds);
    DeliveredHistory(Deliver(isn, ds), isn, ds);
  }

  lemma DeliveredHistory(t: Trace, isn: u32, ds: seq<Segment>)
    requires Delivered(t, isn, ds)
    ensures Trace(t.state, ds, t.out) == t
  {
  }
}
