/** What a Search call reaches in the cache protocol: nothing fails by itself, a build that no
    invalidation overtakes is cached, and a call that is left alone ends with an index. */
module CacheProgress {
  import opened Wire
  import opened CacheEntry
  import opened CacheProtocol

  // ---------------------------------------------------------------- only a failing step fails

  /** The call has not failed and is not on its way to fail. */
  predicate GoesWell(pc: PC) {
    !pc.Failed? && !(pc.Building? && pc.stage == Leaving(None))
  }

  lemma StepGoesWell(s: State, a: Action, id: nat)
    requires Allowed(s, a) && a != Move(id, true)
    requires id in s.threads ==> GoesWell(s.threads[id].pc)
    ensures id in Next(s, a).threads ==> GoesWell(Next(s, a).threads[id].pc)
  {
  }

  /** A call none of whose own steps failed has not failed, whatever the other threads did. */
  lemma {:induction false} OnlyOwnFailures(s: State, actions: seq<Action>, id: nat)
    requires Runs(s, actions) && Move(id, true) !in actions
    requires id in s.threads ==> GoesWell(s.threads[id].pc)
    ensures id in After(s, actions).threads ==> GoesWell(After(s, actions).threads[id].pc)
    decreases |actions|
  {
    hide Allowed, Next, GoesWell;
    if actions == [] {
    } else {
      StepGoesWell(s, actions[0], id);
      OnlyOwnFailures(Next(s, actions[0]), actions[1..], id);
    }
  }

  lemma {:induction false} StaysReturned(s: State, actions: seq<Action>, id: nat)
    requires Runs(s, actions) && id in s.threads && s.threads[id].pc.Returned?
    ensures id in After(s, actions).threads && After(s, actions).threads[id].pc == s.threads[id].pc
    decreases |actions|
  {
    if actions == [] {
    } else {
      StaysReturned(Next(s, actions[0]), actions[1..], id);
    }
  }

  /** A builder is closer to its end, or has returned an index. */
  lemma BuilderNearsReturn(s: State, a: Action, id: nat)
    requires Allowed(s, a) && a != Move(id, true)
    requires id in s.threads && s.threads[id].pc.Building? && GoesWell(s.threads[id].pc)
    ensures id in Next(s, a).threads && GoesWell(Next(s, a).threads[id].pc)
    ensures var pc := Next(s, a).threads[id].pc;
            if a.Move? && a.id == id
            then pc.Returned? || (pc.Building? && Rank(pc.stage) < Rank(s.threads[id].pc.stage))
            else pc == s.threads[id].pc
  {
  }

  /** A builder whose steps do not fail returns an index after at most five of them. */
  lemma {:induction false} BuilderReturns(s: State, actions: seq<Action>, id: nat)
    requires Runs(s, actions) && Move(id, true) !in actions
    requires id in s.threads && s.threads[id].pc.Building? && GoesWell(s.threads[id].pc)
    requires MovesOf(actions, id) > Rank(s.threads[id].pc.stage)
    ensures id in After(s, actions).threads && After(s, actions).threads[id].pc.Returned?
    decreases |actions|
  {
    hide Next, Allowed, GoesWell;
    var next := Next(s, actions[0]);
    BuilderNearsReturn(s, actions[0], id);
    if next.threads[id].pc.Returned? {
      StaysReturned(next, actions[1..], id);
    } else {
      BuilderReturns(next, actions[1..], id);
    }
  }

  // ---------------------------------------------------------------- a build is cached

  ghost predicate Reachable(s: State) {
    Inv(s) && NothingCachedYet(s)
  }

  /** While a builder has not published, nothing is cached. */
  ghost predicate NothingCachedYet(s: State) {
    forall i :: Builds(s.threads, i) && !s.threads[i].pc.stage.Leaving? ==> CurrentEntry(s.shared).idx.None?
  }

  lemma StepKeepsNothingCached(s: State, a: Action)
    requires Inv(s) && NothingCachedYet(s) && Allowed(s, a)
    ensures NothingCachedYet(Next(s, a))
  {
    hide SharedOk, ThreadOk, Settled;
    var next := Next(s, a);
    forall i | Builds(next.threads, i) && !next.threads[i].pc.stage.Leaving?
      ensures CurrentEntry(next.shared).idx.None?
    {
      if a.Move? && a.id != i {
        NotBothBuild(s, a.id, i);
        IdxChanges(s.shared, s.threads[a.id].pc, a.fails);
      } else if a.Move? {
        MoverHasNothingCached(s.shared, s.threads[i].pc, a.fails);
      }
    }
  }

  lemma IdxChanges(h: Shared, pc: PC, fails: bool)
    requires !pc.Building? || !pc.stage.Read?
    ensures CurrentEntry(Moved(h, pc, fails).0).idx == CurrentEntry(h).idx
  {
  }

  lemma MoverHasNothingCached(h: Shared, pc: PC, fails: bool)
    requires pc.Building? && !pc.stage.Leaving? ==> CurrentEntry(h).idx.None?
    ensures var (next, after) := Moved(h, pc, fails);
            after.Building? && !after.stage.Leaving? ==> CurrentEntry(next).idx.None?
  {
  }

  lemma {:induction false} RunReaches(s: State, actions: seq<Action>)
    requires Reachable(s) && Runs(s, actions)
    ensures Reachable(After(s, actions))
    decreases |actions|
  {
    hide Inv, Allowed, Next, NothingCachedYet;
    if actions == [] {
    } else {
      StepKeeps(s, actions[0]);
      StepKeepsNothingCached(s, actions[0]);
      RunReaches(Next(s, actions[0]), actions[1..]);
    }
  }

  /** Every state of every run. */
  lemma ReachedFromStart(actions: seq<Action>)
    requires Runs(START, actions)
    ensures Reachable(After(START, actions))
  {
    RunReaches(START, actions);
  }

  lemma CachedStep(s: State, a: Action, v: nat)
    requires Reachable(s) && Allowed(s, a) && !a.Invalidate? && CurrentEntry(s.shared).idx == Some(v)
    ensures CurrentEntry(Next(s, a).shared).idx == Some(v)
  {
    hide Inv;
    if a.Move? {
      var pc := s.threads[a.id].pc;
      assert pc.Building? ==> Builds(s.threads, a.id);
      IdxChanges(s.shared, pc, a.fails);
    }
  }

  /** A cached index stays cached until an invalidation: no builder replaces it and no waiter drops it. */
  lemma {:induction false} CachedUntilInvalidated(s: State, actions: seq<Action>, v: nat)
    requires Reachable(s) && Runs(s, actions) && forall a :: a in actions ==> !a.Invalidate?
    requires CurrentEntry(s.shared).idx == Some(v)
    ensures CurrentEntry(After(s, actions).shared).idx == Some(v)
    decreases |actions|
  {
    hide Reachable, Allowed, Next;
    if actions == [] {
    } else {
      CachedStep(s, actions[0], v);
      RunReaches(s, [actions[0]]);
      CachedUntilInvalidated(Next(s, actions[0]), actions[1..], v);
    }
  }

  /** A build whose generation is the entry's own when it publishes leaves its version in the entry; a
      build that was overtaken changes nothing, and the builder answers with it all the same. */
  lemma PublishCachesIff(h: Shared, chan: nat, g: nat, v: nat)
    ensures var (next, pc) := Moved(h, Building(chan, Read(g, v)), false);
            && pc == Building(chan, Leaving(Some(v)))
            && next.entry == Some(CurrentEntry(next)) && CurrentEntry(next).generation == CurrentEntry(h).generation
            && CurrentEntry(next).idx == if g == CurrentEntry(h).generation then Some(v) else CurrentEntry(h).idx
  {
  }

  /** What a builder that nobody overtakes has done so far, of at least the rows of version `floor`. */
  predicate OnTrack(e: Cached, pc: PC, floor: nat) {
    match pc
    case Building(_, Checked) => true
    case Building(_, Stamped(g)) => g == e.generation
    case Building(_, Read(g, v)) => g == e.generation && floor <= v
    case Building(_, Leaving(r)) => r.Some? && r == e.idx && floor <= r.value
    case Returned(v) => e.idx == Some(v) && floor <= v
    case _ => false
  }

  lemma BuilderStaysOnTrack(s: State, a: Action, id: nat, floor: nat)
    requires Reachable(s) && Allowed(s, a) && a != Move(id, true) && !a.Invalidate?
    requires id in s.threads && OnTrack(CurrentEntry(s.shared), s.threads[id].pc, floor) && floor <= s.shared.committed
    ensures id in Next(s, a).threads && floor <= Next(s, a).shared.committed
    ensures OnTrack(CurrentEntry(Next(s, a).shared), Next(s, a).threads[id].pc, floor)
  {
    hide SharedOk, ThreadOk;
    if a.Move? && a.id != id {
      var pc := s.threads[a.id].pc;
      NotBothBuild(s, a.id, id);
      assert pc.Building? ==> Builds(s.threads, a.id);
      GenerationStays(s.shared, pc, a.fails);
    }
  }

  lemma GenerationStays(h: Shared, pc: PC, fails: bool)
    ensures CurrentEntry(Moved(h, pc, fails).0).generation == CurrentEntry(h).generation
  {
  }

  lemma {:induction false} RunStaysOnTrack(s: State, actions: seq<Action>, id: nat, floor: nat)
    requires Reachable(s) && Runs(s, actions)
    requires Move(id, true) !in actions && forall a :: a in actions ==> !a.Invalidate?
    requires id in s.threads && OnTrack(CurrentEntry(s.shared), s.threads[id].pc, floor) && floor <= s.shared.committed
    ensures id in After(s, actions).threads
    ensures OnTrack(CurrentEntry(After(s, actions).shared), After(s, actions).threads[id].pc, floor)
    decreases |actions|
  {
    hide Reachable, Allowed, Next, OnTrack;
    if actions == [] {
    } else {
      BuilderStaysOnTrack(s, actions[0], id, floor);
      RunReaches(s, [actions[0]]);
      RunStaysOnTrack(Next(s, actions[0]), actions[1..], id, floor);
    }
  }

  /** A builder past its second look at the cache, whose four steps do not fail and meet no
      invalidation, returns an index of at least everything committed by then, and leaves it cached. */
  lemma BuildIsCached(s: State, actions: seq<Action>, id: nat, chan: nat) returns (v: nat)
    requires Reachable(s) && Runs(s, actions)
    requires Move(id, true) !in actions && forall a :: a in actions ==> !a.Invalidate?
    requires id in s.threads && s.threads[id].pc == Building(chan, Checked) && MovesOf(actions, id) >= 4
    ensures id in After(s, actions).threads && After(s, actions).threads[id].pc == Returned(v)
    ensures CurrentEntry(After(s, actions).shared).idx == Some(v)
    ensures s.shared.committed <= v <= After(s, actions).shared.committed
  {
    hide Inv, Next, Allowed;
    BuilderReturns(s, actions, id);
    RunStaysOnTrack(s, actions, id, s.shared.committed);
    v := After(s, actions).threads[id].pc.version;
    RunReaches(s, actions);
    ReturnedIsOk(After(s, actions), id, v);
  }

  // ---------------------------------------------------------------- a call left alone

  /** `k` steps of one call, none of them failing. */
  function Alone(id: nat, k: nat): seq<Action> {
    seq(k, _ => Move(id, false))
  }

  /** The steps a call still takes when nobody else builds. */
  function StepsLeft(cached: bool, pc: PC): nat {
    match pc
    case Called => if cached then 2 else 9
    case Looking => if cached then 1 else 8
    case Looping => if cached then 1 else 7
    case Claiming => if cached then 3 else 6
    case Asking => if cached then 2 else 9
    case Blocked(_) => if cached then 2 else 9
    case Woken => if cached then 1 else 8
    case Building(_, stage) => if cached && stage.Claimed? then 2 else Rank(stage) + 1
    case Returned(_) => 0
    case Failed => 0
  }

  function StepsLeftIn(h: Shared, pc: PC): nat {
    StepsLeft(CurrentEntry(h).idx.Some?, pc)
  }

  /** The call will answer with version `v`, which is or will be cached. */
  predicate HeadsFor(h: Shared, pc: PC, v: nat) {
    var e := CurrentEntry(h);
    match pc
    case Building(_, Checked) => e.idx.None? && v == h.committed
    case Building(_, Stamped(g)) => g == e.generation && v == h.committed
    case Building(_, Read(g, u)) => g == e.generation && v == u
    case Building(_, Leaving(r)) => r == Some(v) == e.idx
    case Returned(u) => u == v && e.idx == Some(v)
    case Blocked(c) => c in h.closed && v == if e.idx.Some? then e.idx.value else h.committed
    case Failed => false
    case _ => v == if e.idx.Some? then e.idx.value else h.committed
  }

  lemma AloneStep(h: Shared, pc: PC, v: nat)
    requires HeadsFor(h, pc, v) && (CurrentEntry(h).building ==> pc.Building?)
    ensures var (next, after) := Moved(h, pc, false);
            && HeadsFor(next, after, v) && (CurrentEntry(next).building ==> after.Building?)
            && (StepsLeftIn(next, after) == 0 || StepsLeftIn(next, after) < StepsLeftIn(h, pc))
  {
  }

  lemma {:induction false} AloneArrives(s: State, id: nat, k: nat, v: nat)
    requires id in s.threads && k >= StepsLeftIn(s.shared, s.threads[id].pc)
    requires HeadsFor(s.shared, s.threads[id].pc, v)
    requires CurrentEntry(s.shared).building ==> s.threads[id].pc.Building?
    ensures Runs(s, Alone(id, k)) && id in After(s, Alone(id, k)).threads
    ensures After(s, Alone(id, k)).threads[id].pc == Returned(v)
    ensures CurrentEntry(After(s, Alone(id, k)).shared).idx == Some(v)
    decreases k
  {
    hide HeadsFor, Moved;
    if k == 0 {
      ArrivedIs(s.shared, s.threads[id].pc, v);
    } else {
      AloneStep(s.shared, s.threads[id].pc, v);
      assert Alone(id, k)[1..] == Alone(id, k - 1);
      AloneArrives(Next(s, Move(id, false)), id, k - 1, v);
    }
  }

  lemma ArrivedIs(h: Shared, pc: PC, v: nat)
    requires HeadsFor(h, pc, v) && StepsLeftIn(h, pc) == 0
    ensures pc == Returned(v) && CurrentEntry(h).idx == Some(v)
  {
  }

  /** From every state of every run in which nobody builds, a call that has not ended ends within nine
      of its own steps (two for a new call that finds a cached index): with the cached index if there is
      one, and otherwise with an index of all the committed rows, which is then cached. */
  lemma SearchEnds(actions: seq<Action>, id: nat, k: nat)
    requires Runs(START, actions)
    requires id in After(START, actions).threads && !CurrentEntry(After(START, actions).shared).building
    requires var s := After(START, actions);
             var pc := s.threads[id].pc;
             !pc.Returned? && !pc.Failed? && k >= if pc.Called? && CurrentEntry(s.shared).idx.Some? then 2 else 9
    ensures var s := After(START, actions);
            var e := CurrentEntry(s.shared);
            && Runs(s, Alone(id, k)) && id in After(s, Alone(id, k)).threads
            && var v := if e.idx.Some? then e.idx.value else s.shared.committed;
               && After(s, Alone(id, k)).threads[id].pc == Returned(v)
               && CurrentEntry(After(s, Alone(id, k)).shared).idx == Some(v)
  {
    hide Inv, Moved;
    StartIsOk();
    RunKeeps(START, actions);
    var s := After(START, actions);
    var e := CurrentEntry(s.shared);
    var v := if e.idx.Some? then e.idx.value else s.shared.committed;
    NobodyBuildsHeadsFor(s, id, v);
    AloneArrives(s, id, k, v);
  }

  lemma NobodyBuildsHeadsFor(s: State, id: nat, v: nat)
    requires Inv(s) && id in s.threads && !CurrentEntry(s.shared).building
    requires !s.threads[id].pc.Returned? && !s.threads[id].pc.Failed?
    requires var e := CurrentEntry(s.shared);
             v == if e.idx.Some? then e.idx.value else s.shared.committed
    ensures HeadsFor(s.shared, s.threads[id].pc, v)
    ensures var pc := s.threads[id].pc;
            StepsLeftIn(s.shared, pc) <= if pc.Called? && CurrentEntry(s.shared).idx.Some? then 2 else 9
  {
    assert ThreadOk(s.shared, s.threads[id]);
  }

  // ---------------------------------------------------------------- what the writers do

  function CommitsIn(actions: seq<Action>): nat {
    if actions == [] then 0 else (if actions[0].Commit? then 1 else 0) + CommitsIn(actions[1..])
  }

  /** Every commit makes the next write, pending until an invalidation that is for it. */
  lemma {:induction false} CommitsCount(s: State, actions: seq<Action>, w: nat)
    requires Runs(s, actions)
    ensures After(s, actions).shared.committed == s.shared.committed + CommitsIn(actions)
    ensures (forall a :: a in actions ==> !(a.Invalidate? && w in a.writes)) ==>
              (w in After(s, actions).shared.pending
               <==> w in s.shared.pending || s.shared.committed < w <= After(s, actions).shared.committed)
    decreases |actions|
  {
    if actions == [] {
    } else {
      StepCounts(s, actions[0], w);
      CommitsCount(Next(s, actions[0]), actions[1..], w);
    }
  }

  lemma StepCounts(s: State, a: Action, w: nat)
    requires Allowed(s, a)
    ensures Next(s, a).shared.committed == s.shared.committed + if a.Commit? then 1 else 0
    ensures !(a.Invalidate? && w in a.writes) ==>
              (w in Next(s, a).shared.pending
               <==> w in s.shared.pending || s.shared.committed < w <= Next(s, a).shared.committed)
  {
  }

  /** One write and one Search: when nobody builds, a Search started after the write was invalidated, and
      left alone, answers within nine steps with an index of all the writes, which is then cached. */
  lemma WriteThenSearch(actions: seq<Action>, w: nat, id: nat)
    requires Runs(START, actions) && w == After(START, actions).shared.committed + 1
    requires id !in After(START, actions).threads && !CurrentEntry(After(START, actions).shared).building
    ensures var s := After(START, actions);
            && Allowed(s, Commit) && Allowed(Next(s, Commit), Invalidate({w}))
            && var t := Next(Next(Next(s, Commit), Invalidate({w})), CallSearch(id));
               && Runs(t, Alone(id, 9)) && id in After(t, Alone(id, 9)).threads
               && After(t, Alone(id, 9)).threads[id].pc == Returned(w)
               && CurrentEntry(After(t, Alone(id, 9)).shared).idx == Some(w)
  {
    var s := After(START, actions);
    var t := Next(Next(Next(s, Commit), Invalidate({w})), CallSearch(id));
    AloneArrives(t, id, 9, w);
  }
}
