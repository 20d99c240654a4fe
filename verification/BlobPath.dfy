/** The persisted-blob path of ensureIndex beside the cache protocol: a writable table reads a blob and
    later sets it as the cached index, without looking at the generation. */
module BlobPath {
  import opened Wire
  import opened CacheEntry
  import opened CacheProtocol

  /** A blob that was read: its version, the generation of the entry at that moment, and whether the
      version then missed only pending writes. */
  datatype Loaded = Loaded(version: nat, generation: nat, current: bool)

  datatype RwState = RwState(base: State, loads: map<nat, Loaded>)

  datatype RwAction =
    | Plain(action: Action)
    | LoadBlob(id: nat, version: nat)
    | SetBlob(id: nat)

  const RW_START: RwState := RwState(START, map[])

  ghost predicate Misses(h: Shared, v: nat) {
    exists w :: w in Settled(h) && w > v
  }

  /** The entry is looked up before the blob is read; the blob is of some committed version. */
  ghost predicate RwAllowed(s: RwState, a: RwAction) {
    match a
    case Plain(b) => Allowed(s.base, b)
    case LoadBlob(id, v) => s.base.shared.entry.Some? && id !in s.loads && v <= s.base.shared.committed
    case SetBlob(id) => s.base.shared.entry.Some? && id in s.loads
  }

  /** setSharedIndex: an unguarded set. */
  function Stored(h: Shared, v: nat): Shared
    requires h.entry.Some?
  {
    h.(entry := Some(SetIdx(h.entry.value, Some(v))))
  }

  ghost function RwNext(s: RwState, a: RwAction): RwState
    requires RwAllowed(s, a)
  {
    match a
    case Plain(b) => s.(base := Next(s.base, b))
    case LoadBlob(id, v) =>
      var h := s.base.shared;
      s.(loads := s.loads[id := Loaded(v, h.entry.value.generation, !Misses(h, v))])
    case SetBlob(id) =>
      RwState(s.base.(shared := Stored(s.base.shared, s.loads[id].version)), s.loads - {id})
  }

  ghost predicate RwRuns(s: RwState, actions: seq<RwAction>)
    decreases |actions|
  {
    actions == [] || (RwAllowed(s, actions[0]) && RwRuns(RwNext(s, actions[0]), actions[1..]))
  }

  ghost function RwAfter(s: RwState, actions: seq<RwAction>): RwState
    requires RwRuns(s, actions)
    decreases |actions|
  {
    if actions == [] then s else RwAfter(RwNext(s, actions[0]), actions[1..])
  }

  // ---------------------------------------------------------------- the exact condition

  lemma FreshIff(h: Shared, v: nat)
    requires v <= h.committed
    ensures Fresh(h, v) <==> !Misses(h, v)
  {
    if Fresh(h, v) {
      assert forall w :: w in Settled(h) ==> w <= v;
    } else {
      var w: nat :| v < w <= h.committed && w !in h.pending;
      assert w in Settled(h);
    }
  }

  /** Setting a blob keeps the cache correct exactly when no settled write is newer than the blob. */
  lemma SetBlobKeepsIff(h: Shared, v: nat)
    requires SharedOk(h) && h.entry.Some? && v <= h.committed
    ensures SharedOk(Stored(h, v)) <==> !Misses(h, v)
  {
    FreshIff(h, v);
    FreshIff(Stored(h, v), v);
  }

  // ---------------------------------------------------------------- an unchanged generation is enough

  /** While the generation is the one at the load, a blob that was current then still is. */
  ghost predicate LoadsOk(s: RwState) {
    forall id :: id in s.loads ==> LoadOk(s.base.shared, s.loads[id])
  }

  ghost predicate LoadOk(h: Shared, l: Loaded) {
    && h.entry.Some? && l.version <= h.committed && l.generation <= h.entry.value.generation
    && (l.current && l.generation == h.entry.value.generation ==> Fresh(h, l.version))
  }

  lemma LoadOkMoves(h: Shared, pc: PC, fails: bool, l: Loaded)
    requires LoadOk(h, l)
    ensures LoadOk(Moved(h, pc, fails).0, l)
  {
  }

  lemma LoadOkCommits(h: Shared, l: Loaded)
    requires LoadOk(h, l)
    ensures LoadOk(h.(committed := h.committed + 1, pending := h.pending + {h.committed + 1}), l)
  {
  }

  lemma LoadOkInvalidates(h: Shared, writes: set<nat>, l: Loaded)
    requires LoadOk(h, l)
    ensures LoadOk(Invalidated(h, writes), l)
  {
  }

  /** Every step, guarded or not, keeps it. */
  lemma LoadsKept(s: RwState, a: RwAction)
    requires LoadsOk(s) && RwAllowed(s, a)
    ensures LoadsOk(RwNext(s, a))
  {
    hide LoadOk, Moved, Invalidated, Settled;
    var next := RwNext(s, a);
    forall id | id in next.loads
      ensures LoadOk(next.base.shared, next.loads[id])
    {
      match a
      case Plain(Commit) =>
        LoadOkCommits(s.base.shared, s.loads[id]);
      case Plain(Invalidate(writes)) =>
        LoadOkInvalidates(s.base.shared, writes, s.loads[id]);
      case Plain(CallSearch(_)) =>
      case Plain(Move(m, fails)) =>
        LoadOkMoves(s.base.shared, s.base.threads[m].pc, fails, s.loads[id]);
      case LoadBlob(l, v) =>
        LoadedOk(s.base.shared, v);
      case SetBlob(l) =>
        StoredOk(s.base.shared, s.loads[l].version, s.loads[id]);
    }
  }

  lemma LoadedOk(h: Shared, v: nat)
    requires h.entry.Some? && v <= h.committed
    ensures LoadOk(h, Loaded(v, h.entry.value.generation, !Misses(h, v)))
  {
    FreshIff(h, v);
  }

  lemma StoredOk(h: Shared, v: nat, l: Loaded)
    requires h.entry.Some? && LoadOk(h, l)
    ensures LoadOk(Stored(h, v), l)
  {
  }

  /** The step the code does not take: set only a blob that was current, and only in its generation. */
  ghost predicate Guarded(s: RwState, a: RwAction) {
    a.SetBlob? && a.id in s.loads && s.base.shared.entry.Some? ==>
      s.loads[a.id].current && s.loads[a.id].generation == s.base.shared.entry.value.generation
  }

  ghost predicate GuardedRuns(s: RwState, actions: seq<RwAction>)
    decreases |actions|
  {
    actions == [] ||
    (RwAllowed(s, actions[0]) && Guarded(s, actions[0]) && GuardedRuns(RwNext(s, actions[0]), actions[1..]))
  }

  lemma StoredKeepsThreads(s: State, v: nat)
    requires Inv(s) && s.shared.entry.Some? && Fresh(s.shared, v)
    ensures Inv(s.(shared := Stored(s.shared, v)))
  {
    var next := s.(shared := Stored(s.shared, v));
    forall i | i in s.threads
      ensures ThreadOk(next.shared, s.threads[i])
    {
      assert ThreadOk(s.shared, s.threads[i]);
    }
  }

  lemma GuardedStepKeeps(s: RwState, a: RwAction)
    requires Inv(s.base) && LoadsOk(s) && RwAllowed(s, a) && Guarded(s, a)
    ensures Inv(RwNext(s, a).base) && LoadsOk(RwNext(s, a))
  {
    hide Inv, Next, Allowed;
    LoadsKept(s, a);
    match a
    case Plain(b) =>
      StepKeeps(s.base, b);
    case LoadBlob(_, _) =>
    case SetBlob(id) =>
      assert LoadOk(s.base.shared, s.loads[id]);
      StoredKeepsThreads(s.base, s.loads[id].version);
  }

  /** With that guard the whole invariant of the protocol, and so every promise to Search, survives any
      number of blob loads and sets in any interleaving. */
  lemma {:induction false} GuardedRunsKeep(s: RwState, actions: seq<RwAction>)
    requires Inv(s.base) && LoadsOk(s) && GuardedRuns(s, actions)
    ensures RwRuns(s, actions)
    ensures Inv(RwAfter(s, actions).base) && LoadsOk(RwAfter(s, actions))
    decreases |actions|
  {
    hide Inv, LoadsOk, RwAllowed, RwNext, Guarded;
    if actions == [] {
    } else {
      GuardedStepKeeps(s, actions[0]);
      GuardedRunsKeep(RwNext(s, actions[0]), actions[1..]);
    }
  }

  // ---------------------------------------------------------------- the run that goes wrong

  /** Read a blob, commit a write, invalidate, set the blob: the cache misses a settled write, although
      the blob was current when it was read. */
  lemma UnguardedRunGoesWrong()
    ensures var actions := [Plain(CallSearch(0)), Plain(Move(0, false)), LoadBlob(0, 0), Plain(Commit),
                            Plain(Invalidate({1})), SetBlob(0)];
            && RwRuns(RW_START, actions)
            && var h := RwAfter(RW_START, actions).base.shared;
            && h.entry.Some? && h.entry.value.idx == Some(0) && 1 in Settled(h) && !SharedOk(h)
  {
  }
}
