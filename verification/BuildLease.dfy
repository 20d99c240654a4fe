/** The cross-process build lease of vec/api.go: one row per (shadow table, dataset), taken in one
    transaction, and taken over when it is stale. */
module BuildLease {
  import opened Wire

  /** lockStaleAfter, in seconds. */
  const STALE_AFTER: int := 120

  datatype Row = Row(owner: nat, lockedAt: int)

  /** The transaction of acquireIndexBuildLock: insert unless a row is there, read it back, and take it
      over when it is another's and old enough.  `now` was read before the transaction, `clock` inside it. */
  function Attempt(row: Option<Row>, me: nat, now: int, clock: int): Row {
    var r := if row.None? then Row(me, now) else row.value;
    if r.owner != me && r.lockedAt <= clock - STALE_AFTER then Row(me, now) else r
  }

  /** The row is deleted when it is the caller's. */
  function Release(row: Option<Row>, me: nat): Option<Row> {
    if row.Some? && row.value.owner == me then None else row
  }

  /** The table row and the two operations on it. */
  class LockTable {
    var row: Option<Row>

    constructor ()
      ensures row == None
    {
      row := None;
    }

    method TryAcquire(me: nat, now: int, clock: int) returns (acquired: bool)
      modifies this
      ensures row == Some(Attempt(old(row), me, now, clock))
      ensures acquired <==> row.value.owner == me
      ensures old(row).None? ==> row == Some(Row(me, now))
      ensures old(row).Some? && old(row).value.owner == me ==> row == old(row)
      ensures old(row).Some? && old(row).value.owner != me ==>
                row == if clock - old(row).value.lockedAt >= 120 then Some(Row(me, now)) else old(row)
    {
      if row.None? {
        row := Some(Row(me, now));
      }
      var owner, lockedAt := row.value.owner, row.value.lockedAt;
      if owner != me && lockedAt <= clock - STALE_AFTER {
        if row.value.lockedAt == lockedAt {
          row := Some(Row(me, now));
          owner := me;
        }
      }
      acquired := owner == me;
    }

    method Unlock(me: nat)
      modifies this
      ensures row == Release(old(row), me)
      ensures row.None? <==> old(row).None? || old(row).value.owner == me
      ensures row.Some? ==> row == old(row)
    {
      if row.Some? && row.value.owner == me {
        row := None;
      }
    }
  }

  // ---------------------------------------------------------------- the machine

  /** A process between attempts, with the time it read, or holding the lease recorded at a time. */
  datatype PC = Idle | Sampled(now: int) | Held(lockedAt: int)

  datatype State = State(row: Option<Row>, clock: int, procs: map<nat, PC>)

  datatype Action =
    | Tick(seconds: nat)
    | Sample(p: nat)
    | TryLock(p: nat)
    | GiveUp(p: nat)
    | Unlock(p: nat, fails: bool)

  function At(s: State, p: nat): PC {
    if p in s.procs then s.procs[p] else Idle
  }

  predicate Allowed(s: State, a: Action) {
    match a
    case Tick(_) => true
    case Sample(p) => At(s, p).Idle?
    case TryLock(p) => At(s, p).Sampled?
    case GiveUp(p) => At(s, p).Sampled?
    case Unlock(p, _) => At(s, p).Held?
  }

  /** An unlock whose statement fails, and a crash, leave the row behind. */
  function Next(s: State, a: Action): State
    requires Allowed(s, a)
  {
    match a
    case Tick(d) => s.(clock := s.clock + d)
    case Sample(p) => s.(procs := s.procs[p := Sampled(s.clock)])
    case TryLock(p) =>
      var r := Attempt(s.row, p, s.procs[p].now, s.clock);
      s.(row := Some(r), procs := s.procs[p := if r.owner == p then Held(r.lockedAt) else Idle])
    case GiveUp(p) => s.(procs := s.procs[p := Idle])
    case Unlock(p, fails) => State(if fails then s.row else Release(s.row, p), s.clock, s.procs[p := Idle])
  }

  ghost predicate Runs(s: State, actions: seq<Action>)
    decreases |actions|
  {
    actions == [] || (Allowed(s, actions[0]) && Runs(Next(s, actions[0]), actions[1..]))
  }

  function After(s: State, actions: seq<Action>): State
    requires Runs(s, actions)
    decreases |actions|
  {
    if actions == [] then s else After(Next(s, actions[0]), actions[1..])
  }

  predicate Unexpired(s: State, lockedAt: int) {
    s.clock - lockedAt < STALE_AFTER
  }

  /** A holder whose recorded time is not stale owns the row, with that very time. */
  ghost predicate Inv(s: State) {
    && (s.row.Some? ==> s.row.value.lockedAt <= s.clock)
    && (forall p :: p in s.procs && s.procs[p].Sampled? ==> s.procs[p].now <= s.clock)
    && (forall p :: p in s.procs && s.procs[p].Held? && Unexpired(s, s.procs[p].lockedAt) ==>
          s.row == Some(Row(p, s.procs[p].lockedAt)))
  }

  lemma StepKeeps(s: State, a: Action)
    requires Inv(s) && Allowed(s, a)
    ensures Inv(Next(s, a))
  {
  }

  lemma {:induction false} RunKeeps(s: State, actions: seq<Action>)
    requires Inv(s) && Runs(s, actions)
    ensures Inv(After(s, actions))
    decreases |actions|
  {
    if actions == [] {
    } else {
      StepKeeps(s, actions[0]);
      RunKeeps(Next(s, actions[0]), actions[1..]);
    }
  }

  ghost predicate Start(s: State) {
    s.row == None && s.procs == map[]
  }

  /** In no run do two processes hold the lease with times that are both not stale. */
  lemma MutualExclusion(s: State, actions: seq<Action>, p: nat, q: nat)
    requires Start(s) && Runs(s, actions)
    requires var t := After(s, actions);
             At(t, p).Held? && Unexpired(t, At(t, p).lockedAt) && At(t, q).Held? && Unexpired(t, At(t, q).lockedAt)
    ensures p == q
  {
    RunKeeps(s, actions);
  }

  /** While a holder's recorded time is not stale no other process acquires the lease. */
  lemma NoTakeoverWhileFresh(s: State, actions: seq<Action>, p: nat, q: nat)
    requires Start(s) && Runs(s, actions) && p != q
    requires var t := After(s, actions);
             At(t, p).Held? && Unexpired(t, At(t, p).lockedAt) && At(t, q).Sampled?
    ensures At(Next(After(s, actions), TryLock(q)), q) == Idle
    ensures Next(After(s, actions), TryLock(q)).row == After(s, actions).row
  {
    RunKeeps(s, actions);
  }

  /** Whoever unlocks, even after being superseded, another owner's row stays. */
  lemma UnlockSparesOthers(s: State, p: nat, fails: bool)
    requires Allowed(s, Unlock(p, fails)) && s.row.Some? && s.row.value.owner != p
    ensures Next(s, Unlock(p, fails)).row == s.row
  {
  }

  /** Waiting and then trying, from any state of any run: the lease is acquired exactly when there is no
      row, or the row is the process's own, or the row is stale by the end of the wait. */
  lemma TakeoverIff(s: State, actions: seq<Action>, q: nat, wait: nat)
    requires Start(s) && Runs(s, actions) && At(After(s, actions), q).Idle?
    ensures Runs(After(s, actions), [Tick(wait), Sample(q), TryLock(q)])
    ensures var t := After(s, actions);
            At(After(t, [Tick(wait), Sample(q), TryLock(q)]), q).Held?
            <==> t.row == None || t.row.value.owner == q || t.clock + wait - t.row.value.lockedAt >= 120
  {
    ThreeSteps(After(s, actions), q, wait);
  }

  lemma ThreeSteps(t: State, q: nat, wait: nat)
    requires At(t, q).Idle?
    ensures Runs(t, [Tick(wait), Sample(q), TryLock(q)])
    ensures After(t, [Tick(wait), Sample(q), TryLock(q)]) ==
            Next(Next(Next(t, Tick(wait)), Sample(q)), TryLock(q))
  {
    var a, b, c := Tick(wait), Sample(q), TryLock(q);
    assert [a, b, c][1..] == [b, c] && [b, c][1..] == [c] && [c][1..] == [];
    var t1 := Next(t, a);
    var t2 := Next(t1, b);
    var t3 := Next(t2, c);
    assert Runs(t3, []) && After(t3, []) == t3;
    assert Runs(t2, [c]) && After(t2, [c]) == t3;
    assert Runs(t1, [b, c]) && After(t1, [b, c]) == t3;
  }

  /** No holder, crashed or failing to unlock, keeps the others out for longer than the stale age: after
      any run a process that waits that long acquires the lease. */
  lemma LeaseExpires(s: State, actions: seq<Action>, q: nat, wait: nat)
    requires Start(s) && Runs(s, actions) && At(After(s, actions), q).Idle? && wait >= 120
    ensures Runs(After(s, actions), [Tick(wait), Sample(q), TryLock(q)])
    ensures At(After(After(s, actions), [Tick(wait), Sample(q), TryLock(q)]), q).Held?
  {
    RunKeeps(s, actions);
    TakeoverIff(s, actions, q, wait);
  }

  // ---------------------------------------------------------------- how long a lease lasts

  function ActorOf(a: Action): Option<nat> {
    match a
    case Tick(_) => None
    case Sample(p) => Some(p)
    case TryLock(p) => Some(p)
    case GiveUp(p) => Some(p)
    case Unlock(p, _) => Some(p)
  }

  predicate NoneBy(actions: seq<Action>, p: nat) {
    forall a :: a in actions ==> ActorOf(a) != Some(p)
  }

  predicate NoUnlockBy(actions: seq<Action>, p: nat) {
    forall a :: a in actions ==> !(a.Unlock? && a.p == p)
  }

  lemma {:induction false} OthersLeave(s: State, actions: seq<Action>, p: nat)
    requires Runs(s, actions) && NoneBy(actions, p)
    ensures At(After(s, actions), p) == At(s, p)
    decreases |actions|
  {
    if actions == [] {
    } else {
      assert ActorOf(actions[0]) != Some(p);
      OthersLeave(Next(s, actions[0]), actions[1..], p);
    }
  }

  lemma {:induction false} HolderStays(s: State, actions: seq<Action>, p: nat)
    requires Runs(s, actions) && NoUnlockBy(actions, p) && At(s, p).Held?
    ensures At(After(s, actions), p) == At(s, p)
    decreases |actions|
  {
    if actions == [] {
    } else {
      assert !(actions[0].Unlock? && actions[0].p == p);
      HolderStays(Next(s, actions[0]), actions[1..], p);
    }
  }

  /** A process that samples the clock and then acquires a row that is not its own holds the lease from
      the sampled time on: for 120 seconds after it, unless it unlocks, no other process acquires. */
  lemma LeaseKeepsOthersOut(start: State, before: seq<Action>, p: nat, middle: seq<Action>, rest: seq<Action>, q: nat)
    requires Start(start) && Runs(start, before)
    requires var s := After(start, before);
             Allowed(s, Sample(p)) && Runs(Next(s, Sample(p)), middle) && NoneBy(middle, p)
    requires var s := After(start, before);
             var t := After(Next(s, Sample(p)), middle);
             && Allowed(t, TryLock(p)) && (t.row.None? || t.row.value.owner != p) && At(Next(t, TryLock(p)), p).Held?
             && Runs(Next(t, TryLock(p)), rest) && NoUnlockBy(rest, p)
             && After(Next(t, TryLock(p)), rest).clock < s.clock + 120
             && q != p && At(After(Next(t, TryLock(p)), rest), q).Sampled?
    ensures var s := After(start, before);
            var t := After(Next(s, Sample(p)), middle);
            var end := After(Next(t, TryLock(p)), rest);
            && At(end, p) == Held(s.clock) && end.row == Some(Row(p, s.clock))
            && At(Next(end, TryLock(q)), q) == Idle && Next(end, TryLock(q)).row == end.row
  {
    hide NoneBy, NoUnlockBy;
    var s := After(start, before);
    var t := After(Next(s, Sample(p)), middle);
    var held := Next(t, TryLock(p));
    RunKeeps(start, before);
    StepKeeps(s, Sample(p));
    RunKeeps(Next(s, Sample(p)), middle);
    StepKeeps(t, TryLock(p));
    RunKeeps(held, rest);
    OthersLeave(Next(s, Sample(p)), middle, p);
    HolderStays(held, rest, p);
  }

  /** An acquisition dates from the sampled time exactly when the row was not the process's own from
      before: its own row is taken over as it stands. */
  lemma RenewedIff(s: State, p: nat)
    requires Allowed(s, TryLock(p)) && At(Next(s, TryLock(p)), p).Held?
    ensures At(Next(s, TryLock(p)), p) == Held(At(s, p).now)
            <==> s.row.None? || s.row.value.owner != p || s.row.value.lockedAt == At(s, p).now
  {
  }

  /** After a failed unlock the row left behind ages on: two minutes later its owner acquires it again,
      and another process takes it over in the same second, so both build. */
  lemma LeftRowAdmitsTwo()
    ensures var start := State(None, 1000, map[]);
            var run := [Sample(1), TryLock(1), Unlock(1, true), Tick(120), Sample(1), TryLock(1), Sample(2),
                        TryLock(2)];
            && Start(start) && Runs(start, run)
            && At(After(start, run), 1).Held? && At(After(start, run), 2) == Held(1120)
  {
  }

  /** An unlock that succeeds frees the row: whoever tries next acquires it at once, dated then. */
  lemma UnlockFrees(s: State, p: nat, q: nat)
    requires Allowed(s, Unlock(p, false)) && s.row.Some? && s.row.value.owner == p
    requires q == p || At(s, q).Idle?
    ensures var free := Next(s, Unlock(p, false));
            && free.row == None && Runs(free, [Tick(0), Sample(q), TryLock(q)])
            && At(After(free, [Tick(0), Sample(q), TryLock(q)]), q) == Held(s.clock)
  {
    ThreeSteps(Next(s, Unlock(p, false)), q, 0);
  }
}
