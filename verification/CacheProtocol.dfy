/** The cache protocol of vec/api.go and vec/search.go for one cache key: any number of Search calls,
    builders and writers, interleaved one critical section at a time.

    A version of the shadow table is the number of writes committed to it; an index of version v was
    built from the rows after the first v writes.  Writers commit a write and invalidate afterwards;
    until they have, the write is pending.  Other invalidations may happen at any time. */
module CacheProtocol {
  import opened Wire
  import opened CacheEntry

  type Cached = Entry<nat, nat>

  // ---------------------------------------------------------------- state

  /** What all threads share. */
  datatype Shared = Shared(committed: nat, pending: set<nat>, entry: Option<Cached>, closed: set<nat>, nextChan: nat)

  /** A builder's place between startBuild and finishBuild. */
  datatype Stage =
    | Claimed
    | Checked
    | Stamped(generation: nat)
    | Read(generation: nat, version: nat)
    | Leaving(result: Option<nat>)

  /** A Search call's place in ensureIndex. */
  datatype PC =
    | Called
    | Looking
    | Looping
    | Claiming
    | Asking
    | Blocked(chan: nat)
    | Woken
    | Building(chan: nat, stage: Stage)
    | Returned(version: nat)
    | Failed

  /** `settled` are the writes already invalidated when the call started. */
  datatype Thread = Thread(settled: set<nat>, pc: PC)

  datatype State = State(shared: Shared, threads: map<nat, Thread>)

  const START: State := State(Shared(0, {}, None, {}, 0), map[])

  // ---------------------------------------------------------------- steps

  datatype Action =
    | Commit
    | Invalidate(writes: set<nat>)
    | CallSearch(id: nat)
    | Move(id: nat, fails: bool)

  function CurrentEntry(h: Shared): Cached {
    if h.entry.None? then NewEntry() else h.entry.value
  }

  function FromCache(e: Cached, otherwise: PC): PC {
    if e.idx.Some? then Returned(e.idx.value) else otherwise
  }

  /** One critical section of a Search call.  `fails` is a cancelled context or a database error. */
  function Moved(h: Shared, pc: PC, fails: bool): (Shared, PC) {
    var e := CurrentEntry(h);
    match pc
    case Called => (h.(entry := Some(e)), Looking)
    case Looking => (h, FromCache(e, Looping))
    case Looping => (h, FromCache(e, Claiming))
    case Claiming =>
      if MayBuild(e)
      then (h.(entry := Some(StartBuild(e, h.nextChan)), nextChan := h.nextChan + 1), Building(h.nextChan, Claimed))
      else (h, Asking)
    case Asking => (h, if e.building && e.done.Some? then Blocked(e.done.value) else Woken)
    case Blocked(chan) => (h, if fails then Failed else if chan in h.closed then Woken else pc)
    case Woken => (h, if fails then Failed else FromCache(e, Looping))
    case Building(chan, stage) => MovedBuilder(h, e, chan, stage, fails)
    case Returned(_) => (h, pc)
    case Failed => (h, pc)
  }

  function MovedBuilder(h: Shared, e: Cached, chan: nat, stage: Stage, fails: bool): (Shared, PC) {
    match stage
    case Claimed =>
      (h, Building(chan, if fails then Leaving(None) else if e.idx.Some? then Leaving(e.idx) else Checked))
    case Checked => (h, Building(chan, if fails then Leaving(None) else Stamped(e.generation)))
    case Stamped(g) => (h, Building(chan, if fails then Leaving(None) else Read(g, h.committed)))
    case Read(g, v) =>
      if fails then (h, Building(chan, Leaving(None)))
      else (h.(entry := Some(Publish(e, g, v))), Building(chan, Leaving(Some(v))))
    case Leaving(r) =>
      (h.(entry := Some(FinishBuild(e)), closed := h.closed + {chan}), if r.Some? then Returned(r.value) else Failed)
  }

  function Settled(h: Shared): set<nat> {
    set w: nat | 1 <= w <= h.committed && w !in h.pending
  }

  /** InvalidateCache on this key: an entry not made yet is not touched. */
  function Invalidated(h: Shared, writes: set<nat>): Shared {
    h.(pending := h.pending - writes, entry := if h.entry.None? then None else Some(SetIdx(h.entry.value, None)))
  }

  predicate Allowed(s: State, a: Action) {
    match a
    case Commit => true
    case Invalidate(writes) => writes <= s.shared.pending
    case CallSearch(id) => id !in s.threads
    case Move(id, _) => id in s.threads
  }

  function Next(s: State, a: Action): State
    requires Allowed(s, a)
  {
    match a
    case Commit =>
      var w := s.shared.committed + 1;
      s.(shared := s.shared.(committed := w, pending := s.shared.pending + {w}))
    case Invalidate(writes) => s.(shared := Invalidated(s.shared, writes))
    case CallSearch(id) => s.(threads := s.threads[id := Thread(Settled(s.shared), Called)])
    case Move(id, fails) =>
      var t := s.threads[id];
      var (shared, pc) := Moved(s.shared, t.pc, fails);
      State(shared, s.threads[id := t.(pc := pc)])
  }

  // ---------------------------------------------------------------- invariant

  /** An index of version `v` misses only writes whose invalidation is still to come. */
  ghost predicate Fresh(h: Shared, v: nat) {
    v <= h.committed && forall w :: v < w <= h.committed ==> w in h.pending
  }

  ghost predicate Sees(v: nat, writes: set<nat>) {
    forall w :: w in writes ==> w <= v
  }

  ghost predicate SharedOk(h: Shared) {
    && (forall w :: w in h.pending ==> 1 <= w <= h.committed)
    && (forall c :: c in h.closed ==> c < h.nextChan)
    && (h.entry.Some? ==>
          var e := h.entry.value;
          && (e.idx.Some? ==> Fresh(h, e.idx.value))
          && (e.building ==> e.done.Some? && e.done.value < h.nextChan && e.done.value !in h.closed))
  }

  ghost predicate BuilderOk(h: Shared, e: Cached, settled: set<nat>, chan: nat, stage: Stage) {
    && e.building && e.done == Some(chan)
    && match stage
       case Claimed => true
       case Checked => true
       case Stamped(g) => g <= e.generation
       case Read(g, v) =>
         g <= e.generation && v <= h.committed && Sees(v, settled) && (g == e.generation ==> Fresh(h, v))
       case Leaving(r) => r.Some? ==> r.value <= h.committed && Sees(r.value, settled)
  }

  ghost predicate ThreadOk(h: Shared, t: Thread) {
    && (forall w :: w in t.settled ==> 1 <= w <= h.committed && w !in h.pending)
    && (!t.pc.Called? ==> h.entry.Some?)
    && match t.pc
       case Blocked(c) => c in h.closed || (h.entry.value.building && h.entry.value.done == Some(c))
       case Building(c, stage) => BuilderOk(h, h.entry.value, t.settled, c, stage)
       case Returned(v) => v <= h.committed && Sees(v, t.settled)
       case _ => true
  }

  predicate Builds(threads: map<nat, Thread>, i: nat) {
    i in threads && threads[i].pc.Building?
  }

  ghost predicate OneBuilder(s: State) {
    && (forall i, j :: Builds(s.threads, i) && Builds(s.threads, j) ==> i == j)
    && (s.shared.entry.Some? && s.shared.entry.value.building ==> exists i :: Builds(s.threads, i))
  }

  ghost predicate Inv(s: State) {
    && SharedOk(s.shared)
    && (forall i :: i in s.threads ==> ThreadOk(s.shared, s.threads[i]))
    && OneBuilder(s)
  }

  // ---------------------------------------------------------------- every step keeps it

  lemma CommitKeeps(h: Shared, t: Thread)
    requires SharedOk(h)
    ensures var w := h.committed + 1;
            var next := h.(committed := w, pending := h.pending + {w});
            SharedOk(next) && (ThreadOk(h, t) ==> ThreadOk(next, t))
  {
  }

  lemma InvalidateKeeps(h: Shared, t: Thread, writes: set<nat>)
    requires SharedOk(h)
    ensures SharedOk(Invalidated(h, writes))
    ensures ThreadOk(h, t) ==> ThreadOk(Invalidated(h, writes), t)
  {
  }

  /** A cached or just-read version is recent enough for a call whose settled writes are settled still. */
  lemma FreshSees(h: Shared, v: nat, settled: set<nat>)
    requires Fresh(h, v) && forall w :: w in settled ==> 1 <= w <= h.committed && w !in h.pending
    ensures Sees(v, settled)
  {
  }

  /** The thread that moves. */
  lemma MoverKeeps(h: Shared, t: Thread, fails: bool)
    requires SharedOk(h) && ThreadOk(h, t)
    ensures var (next, pc) := Moved(h, t.pc, fails);
            SharedOk(next) && ThreadOk(next, t.(pc := pc))
  {
    var e := CurrentEntry(h);
    if e.idx.Some? {
      FreshSees(h, e.idx.value, t.settled);
    }
    FreshSees(h, h.committed, t.settled);
  }

  /** Any other thread. */
  lemma OtherKeeps(h: Shared, t: Thread, u: Thread, fails: bool)
    requires SharedOk(h) && ThreadOk(h, t) && ThreadOk(h, u) && !(t.pc.Building? && u.pc.Building?)
    ensures ThreadOk(Moved(h, t.pc, fails).0, u)
  {
  }

  /** A thread becomes a builder only when nobody builds, and stops being one only by ending the build. */
  lemma MovedBuilds(h: Shared, pc: PC, fails: bool)
    ensures var (next, after) := Moved(h, pc, fails);
            && (after.Building? && !pc.Building? ==> !CurrentEntry(h).building)
            && (pc.Building? && !after.Building? ==> !CurrentEntry(next).building)
            && (!pc.Building? && !after.Building? ==> CurrentEntry(next).building == CurrentEntry(h).building)
  {
  }

  lemma BuilderMeansBuilding(h: Shared, t: Thread)
    requires ThreadOk(h, t) && t.pc.Building?
    ensures h.entry.Some? && CurrentEntry(h).building
  {
  }

  lemma MoveKeepsOneBuilder(s: State, id: nat, fails: bool)
    requires Inv(s) && id in s.threads
    ensures OneBuilder(Next(s, Move(id, fails)))
  {
    hide Moved, SharedOk, ThreadOk;
    var next := Next(s, Move(id, fails));
    var t := s.threads[id];
    MovedBuilds(s.shared, t.pc, fails);
    forall i | Builds(s.threads, i)
      ensures CurrentEntry(s.shared).building
    {
      BuilderMeansBuilding(s.shared, s.threads[i]);
    }
    assert forall i :: i != id ==> (Builds(next.threads, i) <==> Builds(s.threads, i));
    if CurrentEntry(next.shared).building && !Builds(next.threads, id) {
      var i :| Builds(s.threads, i);
      assert Builds(next.threads, i);
    }
  }

  lemma StepKeeps(s: State, a: Action)
    requires Inv(s) && Allowed(s, a)
    ensures Inv(Next(s, a))
  {
    hide Moved, MovedBuilder, SharedOk, ThreadOk, OneBuilder, Invalidated, Settled;
    match a
    case Commit =>
      CommitKeeps(s.shared, Thread({}, Failed));
      forall i | i in s.threads ensures ThreadOk(Next(s, a).shared, s.threads[i]) {
        CommitKeeps(s.shared, s.threads[i]);
      }
      SameBuilders(s, Next(s, a));
    case Invalidate(writes) =>
      InvalidateKeeps(s.shared, Thread({}, Failed), writes);
      forall i | i in s.threads ensures ThreadOk(Next(s, a).shared, s.threads[i]) {
        InvalidateKeeps(s.shared, s.threads[i], writes);
      }
      SameBuildersInvalidated(s, writes);
    case CallSearch(id) =>
      CallKeeps(s, id);
    case Move(id, fails) =>
      var t := s.threads[id];
      MoverKeeps(s.shared, t, fails);
      forall i | i in s.threads && i != id ensures ThreadOk(Next(s, a).shared, s.threads[i]) {
        NotBothBuild(s, id, i);
        OtherKeeps(s.shared, t, s.threads[i], fails);
      }
      MoveKeepsOneBuilder(s, id, fails);
  }

  lemma NotBothBuild(s: State, i: nat, j: nat)
    requires OneBuilder(s) && i in s.threads && j in s.threads && i != j
    ensures !(s.threads[i].pc.Building? && s.threads[j].pc.Building?)
  {
    assert !(Builds(s.threads, i) && Builds(s.threads, j));
  }

  lemma SameBuilders(s: State, next: State)
    requires OneBuilder(s) && next.threads == s.threads && next.shared.entry == s.shared.entry
    ensures OneBuilder(next)
  {
  }

  lemma SameBuildersInvalidated(s: State, writes: set<nat>)
    requires OneBuilder(s)
    ensures OneBuilder(s.(shared := Invalidated(s.shared, writes)))
  {
  }

  lemma CallKeeps(s: State, id: nat)
    requires Inv(s) && id !in s.threads
    ensures Inv(Next(s, CallSearch(id)))
  {
    var next := Next(s, CallSearch(id));
    assert forall i :: Builds(next.threads, i) <==> Builds(s.threads, i);
  }

  // ---------------------------------------------------------------- whole runs

  ghost predicate Runs(s: State, actions: seq<Action>)
    decreases |actions|
  {
    actions == [] || (Allowed(s, actions[0]) && Runs(Next(s, actions[0]), actions[1..]))
  }

  function After(s: State, actions: seq<Action>): State
    requires Runs(s, actions)
    decreases |actions|
  {
    if actions == [] then s else After(Next(s, actions[0]), actions[1..])
  }

  lemma {:induction false} RunsSplit(s: State, a: seq<Action>, b: seq<Action>)
    requires Runs(s, a + b)
    ensures Runs(s, a) && Runs(After(s, a), b) && After(s, a + b) == After(After(s, a), b)
    decreases |a|
  {
    hide Allowed, Next;
    if a == [] {
      assert a + b == b;
    } else {
      assert (a + b)[0] == a[0] && (a + b)[1..] == a[1..] + b;
      RunsSplit(Next(s, a[0]), a[1..], b);
    }
  }

  lemma {:induction false} RunKeeps(s: State, actions: seq<Action>)
    requires Inv(s) && Runs(s, actions)
    ensures Inv(After(s, actions))
    decreases |actions|
  {
    hide Inv, Allowed, Next;
    if actions == [] {
    } else {
      StepKeeps(s, actions[0]);
      RunKeeps(Next(s, actions[0]), actions[1..]);
    }
  }

  /** A call keeps the writes it must see, and an invalidated write stays invalidated. */
  lemma {:induction false} RunRemembers(s: State, actions: seq<Action>, id: nat, w: nat)
    requires Runs(s, actions)
    ensures id in s.threads ==>
              id in After(s, actions).threads && After(s, actions).threads[id].settled == s.threads[id].settled
    ensures w <= s.shared.committed <= After(s, actions).shared.committed && w !in s.shared.pending
            ==> w !in After(s, actions).shared.pending
    ensures s.shared.committed <= After(s, actions).shared.committed
    decreases |actions|
  {
    if actions == [] {
    } else {
      StepRemembers(s, actions[0], id, w);
      RunRemembers(Next(s, actions[0]), actions[1..], id, w);
    }
  }

  lemma StepRemembers(s: State, a: Action, id: nat, w: nat)
    requires Allowed(s, a)
    ensures id in s.threads ==> id in Next(s, a).threads && Next(s, a).threads[id].settled == s.threads[id].settled
    ensures w <= s.shared.committed && w !in s.shared.pending ==> w !in Next(s, a).shared.pending
    ensures s.shared.committed <= Next(s, a).shared.committed
  {
  }

  /** In every reachable state a cached index misses only writes whose invalidation is pending. */
  lemma CacheMissesOnlyPendingWrites(actions: seq<Action>, w: nat)
    requires Runs(START, actions)
    ensures var h := After(START, actions).shared;
            h.entry.Some? && h.entry.value.idx.Some? && h.entry.value.idx.value < w <= h.committed ==> w in h.pending
  {
    RunKeeps(START, actions);
  }

  /** A call sees every write that was committed and no longer pending when it started, and nothing
      that is not committed when it returns. */
  lemma SearchSeesSettledWrites(before: seq<Action>, id: nat, later: seq<Action>, v: nat)
    requires Runs(START, before + ([CallSearch(id)] + later))
    requires var s := After(START, before + ([CallSearch(id)] + later));
             id in s.threads && s.threads[id].pc == Returned(v)
    ensures Runs(START, before)
    ensures Sees(v, Settled(After(START, before).shared))
    ensures v <= After(START, before + ([CallSearch(id)] + later)).shared.committed
  {
    hide Inv, Settled;
    RunsSplit(START, before, [CallSearch(id)] + later);
    var called := Next(After(START, before), CallSearch(id));
    assert ([CallSearch(id)] + later)[1..] == later;
    RunRemembers(called, later, id, 0);
    StartIsOk();
    RunKeeps(START, before + ([CallSearch(id)] + later));
    ReturnedIsOk(After(called, later), id, v);
  }

  lemma StartIsOk()
    ensures Inv(START)
  {
  }

  lemma ReturnedIsOk(s: State, id: nat, v: nat)
    requires Inv(s) && id in s.threads && s.threads[id].pc == Returned(v)
    ensures v <= s.shared.committed && Sees(v, s.threads[id].settled)
  {
  }

  /** The promise of the writer contract: a Search started after an invalidation returned sees the
      writes it was for. */
  lemma SearchAfterInvalidation(first: seq<Action>, writes: set<nat>, between: seq<Action>, id: nat,
                                later: seq<Action>, v: nat, w: nat)
    requires var run := (first + ([Invalidate(writes)] + between)) + ([CallSearch(id)] + later);
             && Runs(START, run) && id in After(START, run).threads && After(START, run).threads[id].pc == Returned(v)
    requires w in writes
    ensures w <= v
  {
    hide Inv, Next, Settled, Sees;
    var before := first + ([Invalidate(writes)] + between);
    SearchSeesSettledWrites(before, id, later, v);
    RunsSplit(START, first, [Invalidate(writes)] + between);
    var s := After(START, first);
    assert ([Invalidate(writes)] + between)[1..] == between;
    StartIsOk();
    RunKeeps(START, first);
    InvalidationSettles(s, writes, w);
    var t := Next(s, Invalidate(writes));
    RunRemembers(t, between, id, w);
    SettledIs(After(START, before).shared, w);
    SeesOne(v, Settled(After(START, before).shared), w);
  }

  lemma InvalidationSettles(s: State, writes: set<nat>, w: nat)
    requires Inv(s) && Allowed(s, Invalidate(writes)) && w in writes
    ensures var h := Next(s, Invalidate(writes)).shared; 1 <= w <= h.committed && w !in h.pending
  {
  }

  lemma SettledIs(h: Shared, w: nat)
    ensures w in Settled(h) <==> 1 <= w <= h.committed && w !in h.pending
  {
  }

  lemma SeesOne(v: nat, writes: set<nat>, w: nat)
    requires Sees(v, writes) && w in writes
    ensures w <= v
  {
  }

  // ---------------------------------------------------------------- single flight, no lost wakeup

  lemma SingleFlight(actions: seq<Action>, i: nat, j: nat)
    requires Runs(START, actions)
    requires var ts := After(START, actions).threads;
             Builds(ts, i) && Builds(ts, j)
    ensures i == j
  {
    RunKeeps(START, actions);
  }

  /** close is never called on a closed channel: a builder's channel is open, whatever its stage. */
  lemma ClosedOnce(actions: seq<Action>, id: nat)
    requires Runs(START, actions)
    requires id in After(START, actions).threads && After(START, actions).threads[id].pc.Building?
    ensures After(START, actions).threads[id].pc.chan !in After(START, actions).shared.closed
  {
    hide Inv;
    StartIsOk();
    RunKeeps(START, actions);
    BuilderIsOk(After(START, actions), id);
  }

  lemma BuilderIsOk(s: State, id: nat)
    requires Inv(s) && id in s.threads && s.threads[id].pc.Building?
    ensures s.threads[id].pc.chan !in s.shared.closed
  {
  }

  /** Every blocked waiter holds a closed channel or the open channel of a live builder. */
  lemma WaiterIsServed(actions: seq<Action>, id: nat) returns (builder: nat)
    requires Runs(START, actions)
    requires id in After(START, actions).threads && After(START, actions).threads[id].pc.Blocked?
    ensures var s := After(START, actions);
            var chan := s.threads[id].pc.chan;
            chan in s.shared.closed || (Builds(s.threads, builder) && s.threads[builder].pc.chan == chan)
  {
    hide Inv;
    StartIsOk();
    RunKeeps(START, actions);
    builder := ServedIn(After(START, actions), id);
  }

  lemma ServedIn(s: State, id: nat) returns (builder: nat)
    requires Inv(s) && id in s.threads && s.threads[id].pc.Blocked?
    ensures var chan := s.threads[id].pc.chan;
            chan in s.shared.closed || (Builds(s.threads, builder) && s.threads[builder].pc.chan == chan)
  {
    assert ThreadOk(s.shared, s.threads[id]);
    builder := id;
    if s.threads[id].pc.chan !in s.shared.closed {
      builder :| Builds(s.threads, builder);
      assert ThreadOk(s.shared, s.threads[builder]);
    }
  }

  /** The critical sections a builder still has before it closes its channel. */
  function Rank(stage: Stage): nat {
    match stage
    case Claimed => 4
    case Checked => 3
    case Stamped(_) => 2
    case Read(_, _) => 1
    case Leaving(_) => 0
  }

  function MovesOf(actions: seq<Action>, id: nat): nat {
    if actions == [] then 0
    else (if actions[0].Move? && actions[0].id == id then 1 else 0) + MovesOf(actions[1..], id)
  }

  lemma BuilderAdvances(s: State, a: Action, id: nat, chan: nat)
    requires Allowed(s, a) && id in s.threads && s.threads[id].pc.Building? && s.threads[id].pc.chan == chan
    ensures id in Next(s, a).threads && s.shared.closed <= Next(s, a).shared.closed
    ensures var pc := Next(s, a).threads[id].pc;
            if a.Move? && a.id == id
            then chan in Next(s, a).shared.closed
                 || (pc.Building? && pc.chan == chan && Rank(pc.stage) < Rank(s.threads[id].pc.stage))
            else pc == s.threads[id].pc
  {
  }

  lemma ClosedStays(s: State, a: Action)
    requires Allowed(s, a)
    ensures s.shared.closed <= Next(s, a).shared.closed
  {
  }

  lemma {:induction false} StaysClosed(s: State, actions: seq<Action>, chan: nat)
    requires Runs(s, actions) && chan in s.shared.closed
    ensures chan in After(s, actions).shared.closed
    decreases |actions|
  {
    if actions == [] {
    } else {
      ClosedStays(s, actions[0]);
      StaysClosed(Next(s, actions[0]), actions[1..], chan);
    }
  }

  /** No lost wakeup: whatever else happens, after at most five critical sections of the builder its
      channel is closed, and with it every waiter on it can go on. */
  lemma {:induction false} BuilderWakesWaiters(s: State, actions: seq<Action>, id: nat, chan: nat)
    requires Runs(s, actions) && id in s.threads && s.threads[id].pc.Building? && s.threads[id].pc.chan == chan
    requires MovesOf(actions, id) > Rank(s.threads[id].pc.stage)
    ensures chan in After(s, actions).shared.closed
    decreases |actions|
  {
    hide Next, Allowed;
    var next := Next(s, actions[0]);
    BuilderAdvances(s, actions[0], id, chan);
    if chan in next.shared.closed {
      StaysClosed(next, actions[1..], chan);
    } else {
      BuilderWakesWaiters(next, actions[1..], id, chan);
    }
  }
}
