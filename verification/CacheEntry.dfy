/** The shared cache of indexes in vec/api.go: the entry with its single-flight bookkeeping, and the
    table of entries by key. */
module CacheEntry {
  import opened Wire
  import opened Names

  /** An entry as a value; I is the index and C identifies a channel. */
  datatype Entry<+I, +C> = Entry(idx: Option<I>, building: bool, done: Option<C>, generation: nat)

  function NewEntry<I, C>(): Entry<I, C> {
    Entry(None, false, None, 0)
  }

  /** set: clearing the index starts a new generation. */
  function SetIdx<I, C>(e: Entry<I, C>, idx: Option<I>): Entry<I, C> {
    e.(idx := idx, generation := if idx.None? then e.generation + 1 else e.generation)
  }

  predicate MayBuild<I, C>(e: Entry<I, C>) {
    e.idx.None? && !e.building
  }

  /** startBuild with the new channel `c`. */
  function StartBuild<I, C>(e: Entry<I, C>, c: C): Entry<I, C> {
    if MayBuild(e) then e.(building := true, done := Some(c)) else e
  }

  function FinishBuild<I, C>(e: Entry<I, C>): Entry<I, C> {
    e.(building := false)
  }

  /** The publication at the end of ensureIndex: only into the generation the build started in. */
  function Publish<I, C>(e: Entry<I, C>, generation: nat, built: I): Entry<I, C> {
    if e.generation == generation then e.(idx := Some(built)) else e
  }

  class Channel {
    var closed: bool

    constructor ()
      ensures !closed
    {
      closed := false;
    }

    /** Closing a closed channel panics in Go, so the callers must not. */
    method Close()
      requires !closed
      modifies this
      ensures closed
    {
      closed := true;
    }
  }

  class SharedEntry<I> {
    var idx: Option<I>
    var building: bool
    var done: Channel?
    var generation: nat

    constructor ()
      ensures State() == NewEntry() && Valid()
    {
      idx, building, done, generation := None, false, null, 0;
    }

    function State(): Entry<I, Channel>
      reads this
    {
      Entry(idx, building, if done == null then None else Some(done), generation)
    }

    /** A builder's channel is open until the builder finishes. */
    ghost predicate Valid()
      reads this, done
    {
      building ==> done != null && !done.closed
    }

    method Get() returns (r: Option<I>)
      ensures r == State().idx
    {
      r := idx;
    }

    method Set(i: Option<I>)
      requires Valid()
      modifies `idx, `generation
      ensures Valid() && State() == SetIdx(old(State()), i)
      ensures idx == i && generation == old(generation) + if i.None? then 1 else 0
    {
      idx := i;
      if i.None? {
        generation := generation + 1;
      }
    }

    method Start() returns (started: bool)
      requires Valid()
      modifies `building, `done
      ensures Valid()
      ensures started <==> MayBuild(old(State()))
      ensures started ==> done != null && fresh(done) && State() == StartBuild(old(State()), done)
      ensures !started ==> State() == old(State())
    {
      if idx.Some? || building {
        return false;
      }
      building := true;
      done := new Channel();
      return true;
    }

    method Finish()
      requires Valid() && building
      modifies `building, done
      ensures Valid() && State() == FinishBuild(old(State())) && done != null && done.closed
    {
      building := false;
      done.Close();
    }

    method PublishIn(g: nat, built: I)
      requires Valid()
      modifies `idx
      ensures Valid() && State() == Publish(old(State()), g, built)
    {
      if generation == g {
        idx := Some(built);
      }
    }
  }

  /** The process-wide table. */
  class SharedCache<I> {
    var byKey: map<string, SharedEntry<I>>

    constructor ()
      ensures byKey == map[]
    {
      byKey := map[];
    }

    ghost predicate Separate()
      reads this
    {
      forall k, l :: k in byKey && l in byKey && byKey[k] == byKey[l] ==> k == l
    }

    /** getCacheEntry: one entry per key, made on first use. */
    method GetCacheEntry(key: string) returns (e: SharedEntry<I>)
      requires Separate()
      modifies this
      ensures Separate() && key in byKey && byKey[key] == e
      ensures key in old(byKey) ==> byKey == old(byKey)
      ensures key !in old(byKey) ==> byKey == old(byKey)[key := e] && fresh(e) && e.State() == NewEntry() && e.Valid()
    {
      if key in byKey {
        return byKey[key];
      }
      e := new SharedEntry();
      byKey := byKey[key := e];
    }

    /** Every entry is as in `before`, except that those of `cleared` have been cleared. */
    ghost predicate ClearedTo(before: map<string, Entry<I, Channel>>, cleared: set<string>)
      reads this, byKey.Values, set k | k in byKey :: byKey[k].done
    {
      && before.Keys == byKey.Keys
      && forall k :: k in byKey ==>
           && byKey[k].Valid()
           && byKey[k].State() == if k in cleared then SetIdx(before[k], None) else before[k]
    }

    method ClearOne(k: string, e: SharedEntry<I>, ghost before: map<string, Entry<I, Channel>>,
                    ghost cleared: set<string>)
      requires Separate() && k in byKey && byKey[k] == e && k !in cleared && ClearedTo(before, cleared)
      modifies e`idx, e`generation
      ensures Separate() && ClearedTo(before, cleared + {k})
    {
      hide SetIdx;
      e.Set(None);
    }

    /** InvalidateCache: clears exactly the targeted entries, in whatever order the map yields them. */
    method InvalidateCache(shadow: string, dataset: string) returns (count: nat)
      requires Separate() && forall k :: k in byKey ==> byKey[k].Valid()
      modifies byKey.Values
      ensures byKey == old(byKey) && count == |set k | k in byKey && Targets(shadow, dataset, k)|
      ensures forall k :: k in byKey ==> byKey[k].Valid()
      ensures forall k :: k in byKey ==>
                byKey[k].State() ==
                if Targets(shadow, dataset, k) then SetIdx(old(byKey[k].State()), None) else old(byKey[k].State())
    {
      hide Targets, SetIdx, SharedEntry.State, SharedEntry.Valid, Separate;
      count := 0;
      var left := byKey.Keys;
      ghost var cleared: set<string> := {};
      ghost var before := map k | k in byKey :: byKey[k].State();
      while left != {}
        invariant left <= byKey.Keys && cleared !! left
        invariant forall k :: k in cleared <==> k in byKey && k !in left && Targets(shadow, dataset, k)
        invariant count == |cleared|
        invariant Separate() && ClearedTo(before, cleared)
        decreases |left|
      {
        var k :| k in left;
        left := left - {k};
        if Targets(shadow, dataset, k) {
          ClearOne(k, byKey[k], before, cleared);
          count := count + 1;
          cleared := cleared + {k};
        }
      }
      assert cleared == set k | k in byKey && Targets(shadow, dataset, k);
    }
  }
}
