/** Conditions on the arrivals alone under which every arrival is in reach. */
module TcpWindow {
  import opened Wrappers
  import opened TcpReassembly
  import opened TcpOffsets
  import TcpCoverage

  // ---------------------------------------------------------------- a short stream

  function Lowest(sent: seq<Segment>): (m: int)
    requires sent != []
    ensures forall i :: 0 <= i < |sent| ==> m <= sent[i].at
  {
    if |sent| == 1 then sent[0].at else Min(Lowest(sent[..|sent|-1]), sent[|sent|-1].at)
  }

  function Highest(sent: seq<Segment>): (m: int)
    requires sent != []
    ensures forall i :: 0 <= i < |sent| ==> sent[i].End() <= m
  {
    if |sent| == 1 then sent[0].End() else Max(Highest(sent[..|sent|-1]), sent[|sent|-1].End())
  }

  /** Each arrival starts within half the sequence space of everything that arrived before it. */
  ghost predicate Near(sent: seq<Segment>)
  {
    forall i :: 0 < i < |sent| ==> NearAt(sent[..i], sent[i])
  }

  ghost predicate NearAt(before: seq<Segment>, g: Segment)
    requires before != []
  {
    -I32_MAX <= g.at - Highest(before) && g.at - Lowest(before) <= I32_MAX + 1
  }

  /** `expected` and everything pending lie in a range of positions. */
  ghost predicate Within(s: State, lo: int, hi: int)
  {
    && (s.expected.Some? ==> lo <= s.expected.value <= hi)
    && forall k :: k in s.pending ==> lo <= k && k + |s.pending[k].data| <= hi
  }

  lemma PopWithin(s: State, lo: int, hi: int)
    requires Within(s, lo, hi) && Ready(s)
    ensures Within(PopState(s), lo, hi)
  {
  }

  lemma {:induction false} DrainWithin(s: State, lo: int, hi: int)
    requires Within(s, lo, hi)
    ensures Within(DrainState(s).0, lo, hi)
    decreases |s.pending|
  {
    hide PopState, PopOutput, Earliest;
    if Ready(s) {
      PopWithin(s, lo, hi);
      DrainWithin(PopState(s), lo, hi);
    }
  }

  lemma SkipWithin(s: State, lo: int, hi: int)
    requires Within(s, lo, hi)
    ensures Within(SkipState(s).0, lo, hi)
  {
    hide DrainState, Flagged;
    if s.pending != map[] {
      var k := Least(s.pending.Keys);
      var gap := s.expected.Some? && k > s.expected.value;
      DrainWithin(s.(expected := Some(k), gaps := if gap then s.gaps + 1 else s.gaps), lo, hi);
    }
  }

  lemma {:induction false} FinishWithin(s: State, lo: int, hi: int)
    requires Within(s, lo, hi)
    ensures Within(FinishState(s).0, lo, hi)
    decreases |s.pending|
  {
    hide SkipState, Within;
    if s.pending != map[] {
      SkipWithin(s, lo, hi);
      SkipShrinks(s);
      FinishWithin(SkipState(s).0, lo, hi);
    }
  }

  lemma StoreWithin(s: State, at: int, chunk: Chunk, lo: int, hi: int)
    requires Within(s, lo, hi) && lo <= at && at + |chunk.data| <= hi
    ensures Within(StoreState(s, at, chunk).0, lo, hi)
  {
    hide DrainState, SkipState, Earliest;
    if !AlreadyHeld(s, at, chunk) {
      var synced := SyncState(InsertState(s, at, chunk), Age(s, chunk));
      assert Within(synced, lo, hi);
      DrainWithin(synced, lo, hi);
      SkipWithin(DrainState(synced).0, lo, hi);
    }
  }

  lemma PushWithin(s: State, sequence: u32, syn: bool, data: seq<byte>, meta: FrameMeta, lo: int, hi: int)
    requires Within(s, lo, hi)
    requires lo <= PositionOf(s, sequence, syn) && PositionOf(s, sequence, syn) + |data| <= hi
    ensures Within(PushState(s, sequence, syn, data, meta).0, lo, hi)
  {
    hide StoreState, PositionOf;
    var position := PositionOf(s, sequence, syn);
    var open := OpenState(s, sequence, syn);
    assert Within(open, lo, hi);
    var start := Stale(open, position, |data|);
    var counted := open.(
      retransmittedBytes := open.retransmittedBytes + start,
      lateBytes := if open.gaps > 0 then open.lateBytes + start else open.lateBytes);
    assert Within(counted, lo, hi);
    if start < |data| {
      StoreWithin(counted, position + start, Chunk(data[start..], meta, false), lo, hi);
    }
  }

  lemma WithinMore(s: State, lo: int, hi: int, less: int, more: int)
    requires Within(s, lo, hi) && less <= lo && hi <= more
    ensures Within(s, less, more)
  {
  }

  lemma EmptyWithin(lo: int, hi: int)
    ensures Within(EMPTY, lo, hi)
  {
  }

  lemma {:induction false} ReferenceWithin(s: State, lo: int, hi: int, sent: seq<Segment>)
    requires Within(s, lo, hi) && sent != [] && lo == Lowest(sent) - sent[0].at && hi == Highest(sent) - sent[0].at
    ensures lo <= Reference(s) <= hi
  {
  }

  lemma {:induction false} ArrivalWithin(t: Trace, sent: seq<Segment>, g: Segment, e: Event)
    requires e.Arrive? && e.data == g.data
    requires sent != [] ==> Within(t.state, Lowest(sent) - sent[0].at, Highest(sent) - sent[0].at)
    requires sent == [] ==> t.state == EMPTY
    requires PositionOf(t.state, e.sequence, e.syn) == g.at - (sent + [g])[0].at
    ensures var all := sent + [g];
      Within(Step(t, e).state, Lowest(all) - all[0].at, Highest(all) - all[0].at)
  {
    hide PushState, PositionOf, Within;
    var all := sent + [g];
    assert all[..|sent|] == sent && all[|all|-1] == g;
    var first, lo, hi := all[0].at, Lowest(all), Highest(all);
    if sent == [] {
      EmptyWithin(lo - first, hi - first);
    } else {
      WithinMore(t.state, Lowest(sent) - first, Highest(sent) - first, lo - first, hi - first);
    }
    PushWithin(t.state, e.sequence, e.syn, e.data, e.meta, lo - first, hi - first);
  }

  lemma {:induction false} NearInReach(s: State, sent: seq<Segment>, g: Segment)
    requires sent != [] ==> NearAt(sent, g) && Within(s, Lowest(sent) - sent[0].at, Highest(sent) - sent[0].at)
    requires sent == [] ==> s == EMPTY
    ensures Reaches(s, g.at - (sent + [g])[0].at)
  {
    if sent != [] {
      ReferenceWithin(s, Lowest(sent) - sent[0].at, Highest(sent) - sent[0].at, sent);
    }
  }

  ghost predicate Kept(s: State, sent: seq<Segment>)
  {
    if sent == [] then s == EMPTY else Within(s, Lowest(sent) - sent[0].at, Highest(sent) - sent[0].at)
  }

  lemma {:induction false} KeptClosed(s: State, sent: seq<Segment>)
    requires Kept(s, sent)
    ensures Kept(FinishState(s).0, sent)
  {
    hide Within, SkipState;
    if sent != [] {
      FinishWithin(s, Lowest(sent) - sent[0].at, Highest(sent) - sent[0].at);
    }
  }

  lemma {:induction false} NearStep(isn: u32, prefix: seq<Event>, before: seq<Segment>, g: Segment, e: Event)
    requires SentAs(isn, prefix, before) && Kept(Run(prefix).state, before) && (before != [] ==> NearAt(before, g))
    requires e.Arrive? && e.sequence == OnWire(isn, g.at, e.syn) && e.data == g.data
    ensures Reaches(Run(prefix).state, g.at - (before + [g])[0].at)
    ensures Kept(Step(Run(prefix), e).state, before + [g])
  {
    hide SentAs, OnWire, Within, NearAt, PositionOf, Reaches, Lowest, Highest, Run, Step;
    NearInReach(Run(prefix).state, before, g);
    PositionIs(isn, prefix, before, g, e);
    ArrivalWithin(Run(prefix), before, g, e);
  }

  /** A stream of which no arrival is further than half the sequence space from any before it. */
  lemma {:induction false} NearReaches(isn: u32, events: seq<Event>, sent: seq<Segment>)
    requires SentAs(isn, events, sent) && Near(sent)
    ensures InReach(events, sent) && Kept(Run(events).state, sent)
    decreases |events|
  {
    hide SentAs, OnWire, Kept, Near, NearAt, PushState, FinishState, Reaches;
    if events == [] {
      NoneSent(isn, sent);
      NothingKept();
    } else {
      var prefix, e := events[..|events|-1], events[|events|-1];
      SentPrefix(isn, events, sent);
      if e.Arrive? {
        var before, g := sent[..|sent|-1], sent[|sent|-1];
        assert sent == before + [g];
        NearPrefix(sent);
        NearReaches(isn, prefix, before);
        NearStep(isn, prefix, before, g, e);
      } else {
        NearReaches(isn, prefix, sent);
        KeptClosed(Run(prefix).state, sent);
      }
    }
  }

  lemma NothingKept()
    ensures Kept(EMPTY, [])
  {
  }

  lemma NearPrefix(sent: seq<Segment>)
    requires Near(sent) && sent != []
    ensures var before := sent[..|sent|-1];
      Near(before) && (before != [] ==> NearAt(before, sent[|sent|-1]))
  {
    hide NearAt;
    var before := sent[..|sent|-1];
    forall i | 0 < i < |before| ensures NearAt(before[..i], before[i]) {
      assert before[..i] == sent[..i] && before[i] == sent[i];
    }
  }

  // ---------------------------------------------------------------- a stream of any length

  /** 2 MiB. */
  const STRIDE: int := 0x20_0000

  /** The end of the furthest byte so far. */
  function Peak(sent: seq<Segment>): int
    requires sent != []
  {
    var g := sent[|sent|-1];
    if |sent| == 1 then g.End()
    else
      var before := Peak(sent[..|sent|-1]);
      if g.data == [] then before else Max(before, g.End())
  }

  predicate SteadyAt(before: seq<Segment>, g: Segment)
  {
    |g.data| <= STRIDE && (before != [] ==> Peak(before) - STRIDE <= g.at <= Peak(before) + STRIDE)
  }

  /** No segment carries more than 2 MiB, and none starts further than that from the furthest byte that
      arrived before it, on either side. Nothing is said about the length of the stream. */
  ghost predicate Steady(sent: seq<Segment>)
  {
    forall i :: 0 <= i < |sent| ==> SteadyAt(sent[..i], sent[i])
  }

  /** Nothing arrives after a close. */
  predicate ClosedLast(events: seq<Event>)
  {
    forall i :: 0 <= i < |events| - 1 ==> events[i].Arrive?
  }

  predicate Holding(s: State, k: int, x: int)
  {
    k in s.pending && k <= x <= k + |s.pending[k].data| + 2 * STRIDE
  }

  /** The position is close behind `expected` or behind a pending chunk. */
  ghost predicate Beside(s: State, x: int)
  {
    || (s.expected.Some? && s.expected.value <= x <= s.expected.value + 2 * STRIDE)
    || exists k :: Holding(s, k, x)
  }

  /** The position is not behind what was already emitted. */
  ghost predicate Ahead(s: State, x: int)
  {
    if s.expected.Some? then s.expected.value <= x else exists k :: k in s.pending && k <= x
  }

  /** The furthest byte is at `expected` or at the end of a pending chunk, or at most a stride behind it. */
  ghost predicate Touches(s: State, top: int)
  {
    || (s.expected.None? && s.pending == map[])
    || (s.expected.Some? && top <= s.expected.value + STRIDE)
    || exists k :: k in s.pending && top <= k + |s.pending[k].data| + STRIDE
  }

  /** No chunk is long, and between `expected` and the furthest byte there is no long stretch without one. */
  ghost predicate Dense(s: State, top: int)
  {
    && (forall k :: k in s.pending ==> |s.pending[k].data| <= STRIDE && k + |s.pending[k].data| <= top)
    && (s.expected.Some? ==> s.expected.value <= top + STRIDE)
    && (s.expected.None? ==> if s.pending == map[] then top == 0 else exists k :: k in s.pending && k <= STRIDE)
    && 0 <= top && Touches(s, top)
    && forall x :: x <= top && Ahead(s, x) ==> Beside(s, x)
  }

  function Upto(s: State, x: int): set<int>
  {
    set k | k in s.pending && k <= x
  }

  /** Chunk by chunk back from `x` to `base`. */
  lemma {:induction false} LagAt(s: State, base: int, top: int, x: int)
    requires Dense(s, top) && base <= x <= top
    requires s.expected.Some? ==> base == s.expected.value
    requires s.expected.None? ==> base in s.pending
    ensures x <= base + 2 * STRIDE + (3 * STRIDE + 1) * |Upto(s, x)|
    decreases x - base
  {
    assert Ahead(s, x) && Beside(s, x);
    if x > base + 2 * STRIDE {
      var k :| Holding(s, k, x);
      assert k in Upto(s, x);
      if k > base {
        LagAt(s, base, top, k - 1);
        UptoGrows(s, k, x);
      } else {
        assert |Upto(s, x)| >= 1;
      }
    }
  }

  lemma UptoGrows(s: State, k: int, x: int)
    requires k in s.pending && k <= x
    ensures |Upto(s, k - 1)| + 1 <= |Upto(s, x)|
  {
    assert Upto(s, k - 1) + {k} <= Upto(s, x);
    SubsetCount(Upto(s, k - 1) + {k}, Upto(s, x));
  }

  /** The furthest byte is within 771 strides of the position reached. */
  lemma Lag(s: State, top: int)
    requires Dense(s, top) && |s.pending| <= MAX_PENDING_SEGMENTS
    ensures -STRIDE <= top - Reference(s) <= 772 * STRIDE - MAX_PENDING_SEGMENTS
  {
    if s.expected.Some? {
      if s.expected.value <= top {
        LagAt(s, s.expected.value, top, top);
        UptoBound(s, top);
      }
    } else if s.pending != map[] {
      var k :| k in s.pending && k <= STRIDE;
      LagAt(s, k, top, top);
      UptoBound(s, top);
    }
  }

  lemma UptoBound(s: State, x: int)
    requires |s.pending| <= MAX_PENDING_SEGMENTS
    ensures |Upto(s, x)| <= MAX_PENDING_SEGMENTS
  {
    SubsetCount(Upto(s, x), s.pending.Keys);
  }

  lemma SteadyInReach(s: State, top: int, at: int)
    requires Dense(s, top) && |s.pending| <= MAX_PENDING_SEGMENTS && top - STRIDE <= at <= top + STRIDE
    ensures Reaches(s, at)
  {
    hide Dense;
    Lag(s, top);
  }

  /** Only `expected` and the pending chunks matter. */
  lemma DenseSame(s: State, t: State, top: int)
    requires Dense(s, top) && s.expected == t.expected && s.pending == t.pending
    ensures Dense(t, top)
  {
    forall x | x <= top && Ahead(t, x) ensures Beside(t, x) {
      assert Ahead(s, x) && Beside(s, x);
      if k :| Holding(s, k, x) {
        assert Holding(t, k, x);
      }
    }
  }

  lemma OpenDense(s: State, top: int, sequence: u32, syn: bool)
    requires Dense(s, top)
    requires top - STRIDE <= PositionOf(s, sequence, syn) <= top + STRIDE
    ensures Dense(OpenState(s, sequence, syn), top)
  {
    hide PositionOf;
    var t := OpenState(s, sequence, syn);
    if t.expected == s.expected {
      DenseSame(s, t, top);
    } else {
      forall x | x <= top && Ahead(t, x) ensures Beside(t, x) {
      }
    }
  }

  /** A segment that ends below `expected` moves the furthest byte at most up to it. */
  lemma StaleDense(s: State, top: int, end: int)
    requires Dense(s, top) && s.expected.Some? && end <= s.expected.value
    ensures Dense(s, Max(top, end))
  {
    forall x | x <= Max(top, end) && Ahead(s, x) ensures Beside(s, x) {
    }
  }

  lemma HeldAfter(s: State, at: int, chunk: Chunk, k: int, x: int)
    requires Holding(s, k, x) && !AlreadyHeld(s, at, chunk)
    ensures Holding(InsertState(s, at, chunk), k, x)
  {
  }

  lemma InsertDense(s: State, top: int, at: int, chunk: Chunk)
    requires Dense(s, top) && !AlreadyHeld(s, at, chunk) && |chunk.data| <= STRIDE
    requires top - STRIDE <= at <= top + STRIDE && (s.expected.Some? ==> s.expected.value <= at)
    ensures Dense(InsertState(s, at, chunk), Max(top, at + |chunk.data|))
  {
    var t, end := InsertState(s, at, chunk), at + |chunk.data|;
    assert at in t.pending && t.pending[at] == chunk;
    InsertTouches(s, top, at, chunk);
    forall x | x <= Max(top, end) && Ahead(t, x) ensures Beside(t, x) {
      if at <= x {
        if x <= end + 2 * STRIDE {
          assert Holding(t, at, x);
        }
      } else {
        InsertBehind(s, top, at, chunk, x);
      }
    }
    assert s.expected.None? && s.pending == map[] ==> at <= STRIDE;
    assert s.expected.None? && s.pending != map[] ==> exists k :: k in s.pending && k in t.pending && k <= STRIDE;
  }

  lemma InsertTouches(s: State, top: int, at: int, chunk: Chunk)
    requires top - STRIDE <= at
    ensures Touches(InsertState(s, at, chunk), Max(top, at + |chunk.data|))
  {
    var t, end := InsertState(s, at, chunk), at + |chunk.data|;
    assert at in t.pending && t.pending[at] == chunk;
  }

  /** In front of the new chunk: the old chunks still hold, up to where the furthest byte was and one
      stride on. */
  lemma InsertBehind(s: State, top: int, at: int, chunk: Chunk, x: int)
    requires Dense(s, top) && !AlreadyHeld(s, at, chunk) && at <= top + STRIDE && x < at
    requires Ahead(InsertState(s, at, chunk), x)
    ensures Beside(InsertState(s, at, chunk), x)
  {
    var t := InsertState(s, at, chunk);
    assert Ahead(s, x);
    if x <= top {
      assert Beside(s, x);
      if k :| Holding(s, k, x) {
        HeldAfter(s, at, chunk, k, x);
      }
    } else if !(s.expected.Some? && top <= s.expected.value + STRIDE) {
      var k :| k in s.pending && top <= k + |s.pending[k].data| + STRIDE;
      assert Holding(s, k, x);
      HeldAfter(s, at, chunk, k, x);
    }
  }

  /** Moving `expected` forward to a pending chunk, or setting it there. */
  lemma MoveDense(s: State, t: State, top: int, k: int)
    requires Dense(s, top) && k in s.pending && (s.expected.Some? ==> s.expected.value <= k)
    requires t.pending == s.pending && t.expected == Some(k)
    ensures Dense(t, top)
  {
    forall x | x <= top && Ahead(t, x) ensures Beside(t, x) {
      assert Ahead(s, x) && Beside(s, x);
      if j :| Holding(s, j, x) {
        assert Holding(t, j, x);
      }
    }
    assert Touches(t, top) by {
      if j :| j in s.pending && top <= j + |s.pending[j].data| + STRIDE {
        assert j in t.pending;
      }
    }
  }

  lemma PopDense(s: State, top: int)
    requires Dense(s, top) && Ready(s)
    ensures Dense(PopState(s), top)
  {
    var k, t := Least(s.pending.Keys), PopState(s);
    TcpCoverage.PopShape(s);
    forall x | x <= top && Ahead(t, x) ensures Beside(t, x) {
      assert Ahead(s, x) && Beside(s, x);
      if j :| Holding(s, j, x) {
        assert j != k ==> Holding(t, j, x);
      }
    }
    assert Touches(t, top) by {
      if j :| j in s.pending && top <= j + |s.pending[j].data| + STRIDE {
        assert j != k ==> j in t.pending;
      }
    }
  }

  lemma {:induction false} DrainDense(s: State, top: int)
    requires Dense(s, top)
    ensures Dense(DrainState(s).0, top)
    decreases |s.pending|
  {
    hide Dense, PopState, PopOutput, Earliest;
    if Ready(s) {
      PopDense(s, top);
      DrainDense(PopState(s), top);
    } else {
      DenseSame(s, DrainState(s).0, top);
    }
  }

  lemma SkipDense(s: State, top: int)
    requires Dense(s, top) && !Ready(s)
    ensures Dense(SkipState(s).0, top)
  {
    hide Dense, DrainState;
    if s.pending != map[] {
      var k := Least(s.pending.Keys);
      var gap := s.expected.Some? && k > s.expected.value;
      var t := s.(expected := Some(k), gaps := if gap then s.gaps + 1 else s.gaps);
      MoveDense(s, t, top, k);
      DrainDense(t, top);
    }
  }

  lemma SyncDense(s: State, top: int, age: int)
    requires Dense(s, top)
    ensures Dense(SyncState(s, age), top)
  {
    hide Dense;
    var t := SyncState(s, age);
    if t != s {
      MoveDense(s, t, top, Least(s.pending.Keys));
    }
  }

  lemma StoreDense(s: State, top: int, at: int, chunk: Chunk)
    requires Dense(s, top) && |chunk.data| <= STRIDE
    requires top - STRIDE <= at <= top + STRIDE && (s.expected.Some? ==> s.expected.value <= at)
    ensures Dense(StoreState(s, at, chunk).0, Max(top, at + |chunk.data|))
  {
    hide Dense, DrainState, SkipState, SyncState;
    var end := Max(top, at + |chunk.data|);
    if AlreadyHeld(s, at, chunk) {
      HeldBelow(s, top, at);
      DenseSame(s, StoreState(s, at, chunk).0, top);
    } else {
      InsertDense(s, top, at, chunk);
      SyncDense(InsertState(s, at, chunk), end, Age(s, chunk));
      var synced := SyncState(InsertState(s, at, chunk), Age(s, chunk));
      DrainDense(synced, end);
      DrainFrame(synced);
      SkipDense(DrainState(synced).0, end);
    }
  }

  lemma HeldBelow(s: State, top: int, at: int)
    requires Dense(s, top) && at in s.pending
    ensures at + |s.pending[at].data| <= top
  {
  }

  /** Any push within a stride of the furthest byte. */
  lemma PushDense(s: State, top: int, sequence: u32, syn: bool, data: seq<byte>, meta: FrameMeta)
    requires Dense(s, top) && |data| <= STRIDE
    requires top - STRIDE <= PositionOf(s, sequence, syn) <= top + STRIDE
    ensures Dense(PushState(s, sequence, syn, data, meta).0,
      if data == [] then top else Max(top, PositionOf(s, sequence, syn) + |data|))
  {
    hide Dense, StoreState, PositionOf;
    var position := PositionOf(s, sequence, syn);
    var open := OpenState(s, sequence, syn);
    OpenDense(s, top, sequence, syn);
    if data != [] {
      var start := Stale(open, position, |data|);
      var counted := open.(
        retransmittedBytes := open.retransmittedBytes + start,
        lateBytes := if open.gaps > 0 then open.lateBytes + start else open.lateBytes);
      DenseSame(open, counted, top);
      if start == |data| {
        StaleDense(counted, top, position + |data|);
      } else {
        DenseExpected(counted, top);
        StoreDense(counted, top, position + start, Chunk(data[start..], meta, false));
      }
    }
  }

  lemma DenseExpected(s: State, top: int)
    requires Dense(s, top)
    ensures s.expected.Some? ==> s.expected.value <= top + STRIDE
  {
  }

  lemma EmptyDense()
    ensures Dense(EMPTY, 0)
  {
  }

  /** Where the furthest byte is, as positions count. */
  function Top(sent: seq<Segment>): int
  {
    if sent == [] then 0 else Peak(sent) - sent[0].at
  }

  lemma TopStep(sent: seq<Segment>, g: Segment)
    requires SteadyAt(sent, g)
    ensures var at := g.at - (sent + [g])[0].at;
      && Top(sent) - STRIDE <= at <= Top(sent) + STRIDE
      && Top(sent + [g]) == if g.data == [] then Top(sent) else Max(Top(sent), at + |g.data|)
  {
    assert (sent + [g])[..|sent|] == sent;
  }

  lemma SteadyPrefix(sent: seq<Segment>)
    requires Steady(sent) && sent != []
    ensures Steady(sent[..|sent|-1]) && SteadyAt(sent[..|sent|-1], sent[|sent|-1])
  {
    hide SteadyAt;
    var before := sent[..|sent|-1];
    forall i | 0 <= i < |before| ensures SteadyAt(before[..i], before[i]) {
      assert before[..i] == sent[..i] && before[i] == sent[i];
    }
  }

  lemma {:induction false} SteadyStep(isn: u32, prefix: seq<Event>, before: seq<Segment>, g: Segment, e: Event)
    requires SentAs(isn, prefix, before) && SteadyAt(before, g) && Dense(Run(prefix).state, Top(before))
    requires e.Arrive? && e.sequence == OnWire(isn, g.at, e.syn) && e.data == g.data
    ensures Reaches(Run(prefix).state, g.at - (before + [g])[0].at)
    ensures Dense(Step(Run(prefix), e).state, Top(before + [g]))
  {
    hide SentAs, OnWire, Dense, Run, PushState, PositionOf, Reaches, Top;
    TopStep(before, g);
    RunInv(prefix);
    var s, at := Run(prefix).state, g.at - (before + [g])[0].at;
    SteadyInReach(s, Top(before), at);
    PositionIs(isn, prefix, before, g, e);
    PushDense(s, Top(before), e.sequence, e.syn, e.data, e.meta);
  }

  /** A capture of any length whose arrivals keep within 2 MiB of the furthest byte is in reach from
      beginning to end: no more than 256 chunks ever wait, so `expected` follows. */
  lemma {:induction false} SteadyReaches(isn: u32, events: seq<Event>, sent: seq<Segment>)
    requires SentAs(isn, events, sent) && Steady(sent) && ClosedLast(events)
    ensures InReach(events, sent)
    ensures events != [] && events[|events|-1].Arrive? ==> Dense(Run(events).state, Top(sent))
    decreases |events|
  {
    hide SentAs, OnWire, Dense, SteadyAt, Steady, Step, Reaches, Top;
    if events != [] {
      var prefix, e := events[..|events|-1], events[|events|-1];
      SentPrefix(isn, events, sent);
      if e.Arrive? {
        var before, g := sent[..|sent|-1], sent[|sent|-1];
        assert sent == before + [g];
        SteadyPrefix(sent);
        SteadyReaches(isn, prefix, before);
        if prefix == [] {
          NoneSent(isn, before);
          BeginsDense();
        }
        SteadyStep(isn, prefix, before, g, e);
      } else {
        SteadyReaches(isn, prefix, sent);
      }
    }
  }

  lemma BeginsDense()
    ensures Dense(Run([]).state, Top([]))
  {
    EmptyDense();
  }
}
