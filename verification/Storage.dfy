/** The stored and cached indexes of one process, run sequentially: row changes with their triggers,
    MATCH, read-only Search, admin reindex, manual invalidation and restart. */
module Storage {
  import opened Wire
  import opened Names
  import opened Persisted

  // ---------------------------------------------------------------- state

  datatype Key = Key(dataset: string, id: Bytes)

  type Rows = map<Key, Option<Bytes>>

  datatype TableId = TableId(dbName: string, tableName: string)

  /** A shadow table; its triggers are made by the first MATCH. */
  datatype Table = Table(rows: Rows, triggers: bool)

  datatype Slot = Slot(shadow: string, dataset: string)

  /** `path` gives the file behind a schema name. */
  datatype World = World(
    path: string -> string,
    tables: map<TableId, Table>,
    blobs: map<Slot, Bytes>,
    cache: map<string, Contents>)

  function Shadow(t: TableId): string {
    QualifiedShadow(t.dbName, t.tableName)
  }

  function CacheKeyOf(w: World, t: TableId, dataset: string): string {
    CacheKey(w.path(t.dbName), t.tableName, dataset)
  }

  // ---------------------------------------------------------------- the rows an index is built from

  /** The rows a build reads: those whose embedding is present and not empty. */
  predicate HasEmbedding(e: Option<Bytes>) {
    e.Some? && e.value != []
  }

  predicate Decodes(e: Bytes) {
    |e| % 4 == 0
  }

  function VectorOf(e: Bytes): seq<U32> {
    GetWords(e, |e| / 4)
  }

  predicate IsEmbedded(rows: Rows, dataset: string, k: Key) {
    k in rows && k.dataset == dataset && HasEmbedding(rows[k])
  }

  /** The current embedded rows of a dataset. */
  function Embedded(rows: Rows, dataset: string): (m: Contents)
    ensures forall id :: IsEmbedded(rows, dataset, Key(dataset, id)) ==> id in m
    ensures forall id :: id in m ==>
              IsEmbedded(rows, dataset, Key(dataset, id)) && m[id] == VectorOf(rows[Key(dataset, id)].value)
  {
    var m := map k | k in rows && IsEmbedded(rows, dataset, k) :: k.id := VectorOf(rows[k].value);
    assert forall id :: IsEmbedded(rows, dataset, Key(dataset, id)) ==> Key(dataset, id).id in m;
    m
  }

  /** Every embedding decodes and all have one dimension: otherwise the build is an error. */
  ghost predicate Buildable(rows: Rows, dataset: string) {
    && (forall k :: IsEmbedded(rows, dataset, k) ==> Decodes(rows[k].value))
    && (forall k, l ::
          IsEmbedded(rows, dataset, k) && IsEmbedded(rows, dataset, l) ==> |rows[k].value| == |rows[l].value|)
  }

  /** vector.EncodeEmbedding and back, for every vector and every blob of a multiple of four bytes. */
  lemma EmbeddingRoundTrip(v: seq<U32>)
    ensures Decodes(PutWords(v)) && VectorOf(PutWords(v)) == v
    ensures HasEmbedding(Some(PutWords(v))) <==> v != []
  {
    WordsRoundTrip(v, []);
    assert PutWords(v) + [] == PutWords(v);
  }

  lemma EmbeddingCanonical(e: Bytes)
    requires Decodes(e)
    ensures PutWords(VectorOf(e)) == e
  {
    WordsCanonical(e, |e| / 4);
  }

  /** 1.0 and 2.0 as little-endian IEEE 754 words. */
  lemma OneAndTwo()
    ensures VectorOf([0x00, 0x00, 0x80, 0x3F, 0x00, 0x00, 0x00, 0x40]) == [0x3F80_0000, 0x4000_0000]
  {
  }

  /** An index has a vector under an id exactly when the row's blob is that vector's encoding. */
  lemma IndexedIff(rows: Rows, d: string, id: Bytes, v: seq<U32>)
    requires v != [] && forall k :: IsEmbedded(rows, d, k) ==> Decodes(rows[k].value)
    ensures (id in Embedded(rows, d) && Embedded(rows, d)[id] == v)
            <==> (Key(d, id) in rows && rows[Key(d, id)] == Some(PutWords(v)))
  {
    EmbeddingRoundTrip(v);
    if id in Embedded(rows, d) {
      EmbeddingCanonical(rows[Key(d, id)].value);
    }
  }

  // ---------------------------------------------------------------- steps

  /** `blob` is what the built index marshals to; None when writing it failed, which is ignored. */
  datatype Action =
    | Write(table: TableId, gone: Option<Key>, made: Option<(Key, Option<Bytes>)>)
    | Match(table: TableId, dataset: string, blob: Option<Bytes>)
    | Search(table: TableId, dataset: string)
    | Reindex(table: TableId, dataset: string, data: Bytes)
    | Invalidate(shadow: string, dataset: string)
    | Restart

  /** Insert (nothing gone), delete (nothing made) or update of one row, to the same key or a free one. */
  predicate Applies(rows: Rows, gone: Option<Key>, made: Option<(Key, Option<Bytes>)>) {
    && (gone.Some? ==> gone.value in rows)
    && (made.Some? ==> made.value.0 !in rows || gone == Some(made.value.0))
  }

  function NewRows(rows: Rows, gone: Option<Key>, made: Option<(Key, Option<Bytes>)>): Rows {
    var rest := if gone.Some? then rows - {gone.value} else rows;
    if made.Some? then rest[made.value.0 := made.value.1] else rest
  }

  /** NEW.dataset_id and OLD.dataset_id. */
  function Touched(gone: Option<Key>, made: Option<(Key, Option<Bytes>)>): set<string> {
    (if gone.Some? then {gone.value.dataset} else {}) + (if made.Some? then {made.value.0.dataset} else {})
  }

  function Kept(cache: map<string, Contents>, shadow: string, dataset: string): map<string, Contents> {
    map k | k in cache && !Targets(shadow, dataset, k) :: cache[k]
  }

  function KeptAll(cache: map<string, Contents>, shadow: string, datasets: set<string>): map<string, Contents> {
    map k | k in cache && (forall d :: d in datasets ==> !Targets(shadow, d, k)) :: cache[k]
  }

  function KeptBlobs(blobs: map<Slot, Bytes>, shadow: string, datasets: set<string>): map<Slot, Bytes> {
    map s | s in blobs && !(s.shadow == shadow && s.dataset in datasets) :: blobs[s]
  }

  function Written(w: World, t: TableId, gone: Option<Key>, made: Option<(Key, Option<Bytes>)>): (next: World)
    requires t in w.tables
    ensures next.tables.Keys == w.tables.Keys && next.path == w.path
  {
    var table := w.tables[t];
    if !Applies(table.rows, gone, made) then w
    else
      var changed := w.(tables := w.tables[t := table.(rows := NewRows(table.rows, gone, made))]);
      if !table.triggers then changed
      else
        changed.(blobs := KeptBlobs(w.blobs, Shadow(t), Touched(gone, made)),
                 cache := KeptAll(w.cache, Shadow(t), Touched(gone, made)))
  }

  function Cached(w: World, key: string, m: Contents): World {
    w.(cache := w.cache[key := m])
  }

  function Installed(w: World, t: TableId): World
    requires t in w.tables
  {
    w.(tables := w.tables[t := w.tables[t].(triggers := true)])
  }

  /** ensureIndex for a writable table. */
  ghost function Matched(w: World, t: TableId, dataset: string, blob: Option<Bytes>): (next: World)
    requires t in w.tables
    ensures next.tables.Keys == w.tables.Keys && next.path == w.path
  {
    if Blank(dataset) then w
    else
      var ready := Installed(w, t);
      var rows, key, slot := w.tables[t].rows, CacheKeyOf(w, t, dataset), Slot(Shadow(t), dataset);
      if key in w.cache then ready
      else if slot in w.blobs && LoadPairs(w.blobs[slot]).Ok? then
        Cached(ready, key, ContentsOf(LoadPairs(w.blobs[slot]).value))
      else if !Buildable(rows, dataset) then ready
      else
        Cached(if blob.Some? then ready.(blobs := w.blobs[slot := blob.value]) else ready, key, Embedded(rows, dataset))
  }

  /** ensureIndex for a read-only table: no triggers, no blobs. */
  ghost function Searched(w: World, t: TableId, dataset: string): (next: World)
    requires t in w.tables
    ensures next.tables.Keys == w.tables.Keys && next.path == w.path
  {
    var rows, key := w.tables[t].rows, CacheKeyOf(w, t, dataset);
    if Blank(dataset) || key in w.cache || !Buildable(rows, dataset) then w
    else Cached(w, key, Embedded(rows, dataset))
  }

  ghost function Reindexed(w: World, t: TableId, dataset: string, blob: Bytes): (next: World)
    requires t in w.tables
    ensures next.tables.Keys == w.tables.Keys && next.path == w.path
  {
    if !Buildable(w.tables[t].rows, dataset) then w else w.(blobs := w.blobs[Slot(Shadow(t), dataset) := blob])
  }

  /** The tables are there, and a blob is what an index over the current rows marshals to. */
  ghost predicate Allowed(w: World, a: Action) {
    match a
    case Write(t, _, _) => t in w.tables
    case Match(t, d, blob) => t in w.tables && (blob.Some? ==> Encodes(blob.value, Embedded(w.tables[t].rows, d)))
    case Search(t, _) => t in w.tables
    case Reindex(t, d, blob) => t in w.tables && Encodes(blob, Embedded(w.tables[t].rows, d))
    case Invalidate(_, _) => true
    case Restart => true
  }

  ghost function Next(w: World, a: Action): World
    requires Allowed(w, a)
  {
    match a
    case Write(t, gone, made) => Written(w, t, gone, made)
    case Match(t, d, blob) => Matched(w, t, d, blob)
    case Search(t, d) => Searched(w, t, d)
    case Reindex(t, d, blob) => Reindexed(w, t, d, blob)
    case Invalidate(shadow, d) => w.(cache := Kept(w.cache, shadow, d))
    case Restart => w.(cache := map[])
  }

  /** The table's triggers are installed before an index of it is stored or cached by other means than
      MATCH, which installs them itself. */
  predicate Disciplined(w: World, a: Action) {
    match a
    case Search(t, _) => t in w.tables ==> w.tables[t].triggers
    case Reindex(t, _, _) => t in w.tables ==> w.tables[t].triggers
    case _ => true
  }

  // ---------------------------------------------------------------- invariant

  predicate WellNamed(w: World, t: TableId) {
    && !Blank(t.dbName) && t.tableName != "" && !Contains(t.dbName, DOT_VEC)
    && NoBar(w.path(t.dbName)) && NoBar(t.tableName)
  }

  /** Names lead back to the tables they came from. */
  ghost predicate Named(w: World) {
    && (forall t :: t in w.tables ==> WellNamed(w, t))
    && (forall t, u :: t in w.tables && u in w.tables && w.path(t.dbName) == w.path(u.dbName) ==> t.dbName == u.dbName)
  }

  ghost predicate Current(w: World, t: TableId, d: string)
    requires t in w.tables
  {
    var table, slot, key := w.tables[t], Slot(Shadow(t), d), CacheKeyOf(w, t, d);
    && (slot in w.blobs ==> table.triggers && Encodes(w.blobs[slot], Embedded(table.rows, d)))
    && (key in w.cache ==> table.triggers && w.cache[key] == Embedded(table.rows, d))
  }

  /** Every persisted blob and every cached index holds exactly the current embedded rows. */
  ghost predicate AllCurrent(w: World) {
    forall t, d :: t in w.tables ==> Current(w, t, d)
  }

  // ---------------------------------------------------------------- every step keeps it

  lemma SameKey(w: World, t: TableId, d: string, u: TableId, e: string)
    requires Named(w) && t in w.tables && u in w.tables
    ensures CacheKeyOf(w, t, d) == CacheKeyOf(w, u, e) ==> t == u && d == e
    ensures Shadow(t) == Shadow(u) ==> t == u
  {
    if CacheKeyOf(w, t, d) == CacheKeyOf(w, u, e) {
      KeysSeparate(w.path(t.dbName), t.tableName, d, w.path(u.dbName), u.tableName, e);
    }
    if Shadow(t) == Shadow(u) {
      ShadowsSeparate(t.dbName, t.tableName, u.dbName, u.tableName);
    }
  }

  lemma OtherDatasetsKept(rows: Rows, gone: Option<Key>, made: Option<(Key, Option<Bytes>)>, d: string)
    requires d !in Touched(gone, made)
    ensures Embedded(NewRows(rows, gone, made), d) == Embedded(rows, d)
  {
    hide VectorOf;
    var after := NewRows(rows, gone, made);
    forall id
      ensures Key(d, id) in after <==> Key(d, id) in rows
      ensures Key(d, id) in rows ==> after[Key(d, id)] == rows[Key(d, id)]
    {
    }
  }

  /** What the triggers leave of the blobs and the cache is what was there. */
  lemma WrittenLess(w: World, t: TableId, gone: Option<Key>, made: Option<(Key, Option<Bytes>)>)
    requires t in w.tables
    ensures var next := Written(w, t, gone, made);
            && (forall k :: k in next.cache ==> k in w.cache && next.cache[k] == w.cache[k])
            && (forall k :: k in next.blobs ==> k in w.blobs && next.blobs[k] == w.blobs[k])
            && (forall u :: u in w.tables && u != t ==> next.tables[u] == w.tables[u])
            && next.tables[t].triggers == w.tables[t].triggers
            && next.tables[t].rows ==
            if Applies(w.tables[t].rows, gone, made) then NewRows(w.tables[t].rows, gone, made) else w.tables[t].rows
  {
    hide NewRows, Targets, QualifiedShadow, Applies;
  }

  /** A touched dataset loses its blob and its cached index. */
  lemma WrittenDrops(w: World, t: TableId, gone: Option<Key>, made: Option<(Key, Option<Bytes>)>, d: string)
    requires Named(w) && t in w.tables && w.tables[t].triggers && Applies(w.tables[t].rows, gone, made)
    requires d in Touched(gone, made)
    ensures Slot(Shadow(t), d) !in Written(w, t, gone, made).blobs
    ensures CacheKeyOf(w, t, d) !in Written(w, t, gone, made).cache
  {
    hide NewRows, Targets, QualifiedShadow, Applies, CacheKey;
    InvalidationReaches(t.dbName, t.tableName, w.path(t.dbName), d);
  }

  lemma WriteKeeps(w: World, t: TableId, gone: Option<Key>, made: Option<(Key, Option<Bytes>)>, u: TableId, d: string)
    requires Named(w) && t in w.tables && u in w.tables && Current(w, t, d) && Current(w, u, d)
    ensures Current(Written(w, t, gone, made), u, d)
  {
    hide Encodes, Embedded, QualifiedShadow, CacheKey, NewRows, Written, Applies, Touched;
    WrittenLess(w, t, gone, made);
    if t == u && Applies(w.tables[t].rows, gone, made) {
      if d !in Touched(gone, made) {
        OtherDatasetsKept(w.tables[t].rows, gone, made, d);
      } else if w.tables[t].triggers {
        WrittenDrops(w, t, gone, made, d);
      }
    }
  }

  lemma SameNames(w: World, next: World)
    requires Named(w) && next.tables.Keys == w.tables.Keys && next.path == w.path
    ensures Named(next)
  {
  }

  /** Installing the triggers, storing a blob of the rows and caching them each keep what is current. */
  lemma InstalledKeeps(w: World, t: TableId, u: TableId, e: string)
    requires t in w.tables && u in w.tables && Current(w, u, e)
    ensures Current(Installed(w, t), u, e)
  {
    hide Encodes, Embedded;
  }

  lemma CachedKeeps(w: World, t: TableId, d: string, m: Contents, u: TableId, e: string)
    requires Named(w) && t in w.tables && u in w.tables && Current(w, u, e)
    requires w.tables[t].triggers && m == Embedded(w.tables[t].rows, d)
    ensures Current(Cached(w, CacheKeyOf(w, t, d), m), u, e)
  {
    hide Encodes, Embedded, QualifiedShadow, CacheKey;
    SameKey(w, t, d, u, e);
  }

  lemma StoredKeeps(w: World, t: TableId, d: string, blob: Bytes, u: TableId, e: string)
    requires Named(w) && t in w.tables && u in w.tables && Current(w, u, e)
    requires w.tables[t].triggers && Encodes(blob, Embedded(w.tables[t].rows, d))
    ensures Current(w.(blobs := w.blobs[Slot(Shadow(t), d) := blob]), u, e)
  {
    hide Encodes, Embedded, QualifiedShadow, CacheKey;
    SameKey(w, t, d, u, e);
  }

  lemma BlobIsCurrent(w: World, t: TableId, d: string)
    requires t in w.tables && Current(w, t, d) && Slot(Shadow(t), d) in w.blobs
    ensures ContentsOf(LoadPairs(w.blobs[Slot(Shadow(t), d)]).value) == Embedded(w.tables[t].rows, d)
  {
  }

  lemma MatchKeeps(w: World, t: TableId, d: string, blob: Option<Bytes>, u: TableId, e: string)
    requires Named(w) && t in w.tables && u in w.tables && Current(w, t, d) && Current(w, u, e)
    requires blob.Some? ==> Encodes(blob.value, Embedded(w.tables[t].rows, d))
    ensures Current(Matched(w, t, d, blob), u, e)
  {
    hide Current, LoadPairs, Embedded, QualifiedShadow, ContentsOf, CacheKey, Encodes, Buildable, Blank, WellNamed;
    var ready, slot := Installed(w, t), Slot(Shadow(t), d);
    var m := Embedded(w.tables[t].rows, d);
    InstalledKeeps(w, t, u, e);
    SameNames(w, ready);
    if slot in w.blobs {
      BlobIsCurrent(w, t, d);
    }
    CachedKeeps(ready, t, d, m, u, e);
    if blob.Some? {
      var stored := ready.(blobs := w.blobs[slot := blob.value]);
      StoredKeeps(ready, t, d, blob.value, u, e);
      SameNames(ready, stored);
      CachedKeeps(stored, t, d, m, u, e);
    }
  }

  lemma SearchKeeps(w: World, t: TableId, d: string, u: TableId, e: string)
    requires Named(w) && t in w.tables && u in w.tables && Current(w, u, e) && w.tables[t].triggers
    ensures Current(Searched(w, t, d), u, e)
  {
    hide Current, Embedded, CacheKey, Buildable, Blank;
    CachedKeeps(w, t, d, Embedded(w.tables[t].rows, d), u, e);
  }

  lemma ReindexKeeps(w: World, t: TableId, d: string, blob: Bytes, u: TableId, e: string)
    requires Named(w) && t in w.tables && u in w.tables && Current(w, u, e) && w.tables[t].triggers
    requires Encodes(blob, Embedded(w.tables[t].rows, d))
    ensures Current(Reindexed(w, t, d, blob), u, e)
  {
    hide Current, Embedded, Buildable, Encodes, QualifiedShadow;
    StoredKeeps(w, t, d, blob, u, e);
  }

  lemma StepKeeps(w: World, a: Action)
    requires Named(w) && AllCurrent(w) && Allowed(w, a) && Disciplined(w, a)
    ensures Named(Next(w, a)) && AllCurrent(Next(w, a))
  {
    hide Current, Written, Matched, Searched, Reindexed, WellNamed;
    TablesStay(w, a);
    forall u, e | u in w.tables
      ensures Current(Next(w, a), u, e)
    {
      assert Current(w, u, e);
      match a
      case Write(t, gone, made) =>
        WriteAllKeeps(w, t, gone, made, u, e);
      case Match(t, d, blob) =>
        assert Current(w, t, d);
        MatchKeeps(w, t, d, blob, u, e);
      case Search(t, d) =>
        SearchKeeps(w, t, d, u, e);
      case Reindex(t, d, blob) =>
        ReindexKeeps(w, t, d, blob, u, e);
      case Invalidate(shadow, d) =>
        FewerCached(w, Kept(w.cache, shadow, d), u, e);
      case Restart =>
        FewerCached(w, map[], u, e);
    }
  }

  lemma WriteAllKeeps(w: World, t: TableId, gone: Option<Key>, made: Option<(Key, Option<Bytes>)>, u: TableId,
                      d: string)
    requires Named(w) && t in w.tables && u in w.tables && AllCurrent(w)
    ensures Current(Written(w, t, gone, made), u, d)
  {
    hide Current, Written;
    assert Current(w, t, d) && Current(w, u, d);
    WriteKeeps(w, t, gone, made, u, d);
  }

  lemma FewerCached(w: World, cache: map<string, Contents>, u: TableId, e: string)
    requires u in w.tables && Current(w, u, e)
    requires forall k :: k in cache ==> k in w.cache && cache[k] == w.cache[k]
    ensures Current(w.(cache := cache), u, e)
  {
  }

  lemma TablesStay(w: World, a: Action)
    requires Named(w) && Allowed(w, a)
    ensures Next(w, a).tables.Keys == w.tables.Keys && Next(w, a).path == w.path && Named(Next(w, a))
  {
    hide Written, Matched, Searched, Reindexed, Encodes, Embedded, Kept;
    SameNames(w, Next(w, a));
  }

  // ---------------------------------------------------------------- whole runs

  ghost predicate Runs(w: World, actions: seq<Action>)
    decreases |actions|
  {
    actions == [] || (Allowed(w, actions[0]) && Disciplined(w, actions[0]) && Runs(Next(w, actions[0]), actions[1..]))
  }

  ghost function After(w: World, actions: seq<Action>): World
    requires Runs(w, actions)
    decreases |actions|
  {
    if actions == [] then w else After(Next(w, actions[0]), actions[1..])
  }

  /** The rows at the start are arbitrary, but nothing is stored or cached. */
  ghost predicate Start(w: World) {
    Named(w) && w.blobs == map[] && w.cache == map[]
  }

  lemma {:induction false} RunKeeps(w: World, actions: seq<Action>)
    requires Named(w) && AllCurrent(w) && Runs(w, actions)
    ensures Named(After(w, actions)) && AllCurrent(After(w, actions))
    decreases |actions|
  {
    hide Named, AllCurrent, Allowed, Disciplined, Next;
    if actions == [] {
    } else {
      StepKeeps(w, actions[0]);
      RunKeeps(Next(w, actions[0]), actions[1..]);
    }
  }

  /** After any sequential run, whatever blob is stored for a dataset of a table loads as exactly its
      current embedded rows, each once, and whatever index is cached for it holds exactly those. */
  lemma IndexesAgreeWithRows(w: World, actions: seq<Action>, t: TableId, d: string)
    requires Start(w) && Runs(w, actions) && t in After(w, actions).tables
    ensures var end := After(w, actions);
            var rows := Embedded(end.tables[t].rows, d);
            && (Slot(Shadow(t), d) in end.blobs ==> Encodes(end.blobs[Slot(Shadow(t), d)], rows))
            && (CacheKeyOf(end, t, d) in end.cache ==> end.cache[CacheKeyOf(end, t, d)] == rows)
  {
    hide Named, Allowed, Disciplined, Next, Embedded, Encodes;
    RunKeeps(w, actions);
    assert Current(After(w, actions), t, d);
  }

  /** A MATCH over rows that can be indexed leaves an index of exactly those rows in the cache, wherever
      it came from. */
  lemma MatchAnswersFromRows(w: World, t: TableId, d: string, blob: Option<Bytes>)
    requires Named(w) && AllCurrent(w) && Allowed(w, Match(t, d, blob)) && !Blank(d) && Buildable(w.tables[t].rows, d)
    ensures var end := Matched(w, t, d, blob);
            CacheKeyOf(end, t, d) in end.cache && end.cache[CacheKeyOf(end, t, d)] == Embedded(w.tables[t].rows, d)
  {
    hide Embedded, LoadPairs, ContentsOf, Encodes, Buildable, Current, CacheKey, QualifiedShadow, Blank;
    assert Current(w, t, d);
    CacheIsCurrent(w, t, d);
    if Slot(Shadow(t), d) in w.blobs {
      BlobIsCurrent(w, t, d);
    }
  }

  lemma CacheIsCurrent(w: World, t: TableId, d: string)
    requires t in w.tables && Current(w, t, d)
    ensures CacheKeyOf(w, t, d) in w.cache ==> w.cache[CacheKeyOf(w, t, d)] == Embedded(w.tables[t].rows, d)
  {
  }

  /** A write to some datasets of a table leaves every other stored blob as it is. */
  lemma WriteSparesOtherBlobs(w: World, t: TableId, gone: Option<Key>, made: Option<(Key, Option<Bytes>)>, slot: Slot)
    requires t in w.tables
    requires slot.shadow == Shadow(t) ==>
               && (gone.Some? ==> gone.value.dataset != slot.dataset)
               && (made.Some? ==> made.value.0.dataset != slot.dataset)
    ensures slot in Written(w, t, gone, made).blobs <==> slot in w.blobs
    ensures slot in w.blobs ==> Written(w, t, gone, made).blobs[slot] == w.blobs[slot]
  {
  }

  /** An invalidation, and the triggers of a write, drop exactly the cached indexes of that table name and
      those datasets, of every dataset when one of the names is empty. */
  lemma InvalidateClearsIff(w: World, t: TableId, d: string, u: TableId, e: string)
    requires Named(w) && t in w.tables && u in w.tables && NoBar(e)
    ensures var key, next := CacheKeyOf(w, u, e), Next(w, Invalidate(Shadow(t), d));
            && (key in next.cache <==> key in w.cache && !(u.tableName == t.tableName && (d == "" || e == d)))
            && (key in next.cache ==> next.cache[key] == w.cache[key])
            && next == w.(cache := next.cache)
  {
    hide Targets, QualifiedShadow, CacheKey;
    TargetsExactlyIff(t.dbName, t.tableName, d, w.path(u.dbName), u.tableName, e);
  }

  lemma WriteClearsIff(w: World, t: TableId, gone: Option<Key>, made: Option<(Key, Option<Bytes>)>, u: TableId,
                       e: string)
    requires Named(w) && t in w.tables && u in w.tables && NoBar(e)
    ensures var key, next := CacheKeyOf(w, u, e), Written(w, t, gone, made);
            var runs := w.tables[t].triggers && Applies(w.tables[t].rows, gone, made);
            var touched := || (gone.Some? && (gone.value.dataset == e || gone.value.dataset == ""))
                           || (made.Some? && (made.value.0.dataset == e || made.value.0.dataset == ""));
            && (key in next.cache <==> key in w.cache && !(runs && u.tableName == t.tableName && touched))
            && (key in next.cache ==> next.cache[key] == w.cache[key])
  {
    hide Targets, QualifiedShadow, CacheKey, Applies, NewRows;
    forall d
      ensures Targets(Shadow(t), d, CacheKeyOf(w, u, e)) <==> u.tableName == t.tableName && (d == "" || e == d)
    {
      TargetsExactlyIff(t.dbName, t.tableName, d, w.path(u.dbName), u.tableName, e);
    }
  }

  /** A row change is the row's: the row gone is not there (unless it is the one made), the row made holds
      its new embedding, and no other row changes. */
  lemma WriteChangesOneRow(w: World, t: TableId, gone: Option<Key>, made: Option<(Key, Option<Bytes>)>, k: Key)
    requires t in w.tables
    requires gone.Some? ==> gone.value in w.tables[t].rows
    requires made.Some? ==> made.value.0 !in w.tables[t].rows || gone == Some(made.value.0)
    ensures var rows, next := w.tables[t].rows, Written(w, t, gone, made).tables[t].rows;
            && (made.Some? && k == made.value.0 ==> k in next && next[k] == made.value.1)
            && ((made.None? || k != made.value.0) && gone == Some(k) ==> k in rows && k !in next)
            && ((made.None? || k != made.value.0) && gone != Some(k) ==>
                  (k in next <==> k in rows) && (k in rows ==> next[k] == rows[k]))
  {
    WrittenLess(w, t, gone, made);
  }

  /** After a write with an embedding the next build holds the row with that vector. */
  lemma WrittenIsIndexed(w: World, t: TableId, gone: Option<Key>, k: Key, v: seq<U32>)
    requires t in w.tables && v != [] && (gone.Some? ==> gone.value in w.tables[t].rows)
    requires k !in w.tables[t].rows || gone == Some(k)
    ensures var m := Embedded(Written(w, t, gone, Some((k, Some(PutWords(v))))).tables[t].rows, k.dataset);
            k.id in m && m[k.id] == v
  {
    hide Written;
    WriteChangesOneRow(w, t, gone, Some((k, Some(PutWords(v)))), k);
    EmbeddingRoundTrip(v);
    assert k == Key(k.dataset, k.id);
  }

  /** The MATCH must build: nothing is cached and no stored blob loads. */
  predicate MustBuild(w: World, t: TableId, d: string) {
    CacheKeyOf(w, t, d) !in w.cache
    && (Slot(Shadow(t), d) in w.blobs ==> LoadPairs(w.blobs[Slot(Shadow(t), d)]).Err?)
  }

  /** A MATCH that has to build stores its blob, and a MATCH after a restart reads that back. */
  lemma BuiltBlobIsStored(w: World, t: TableId, d: string, blob: Bytes, again: Option<Bytes>)
    requires Allowed(w, Match(t, d, Some(blob))) && !Blank(d) && Buildable(w.tables[t].rows, d) && MustBuild(w, t, d)
    ensures var built := Matched(w, t, d, Some(blob));
            var reread := Matched(Next(built, Restart), t, d, again);
            && built.blobs == w.blobs[Slot(Shadow(t), d) := blob]
            && reread.blobs == built.blobs && reread.cache == map[CacheKeyOf(w, t, d) := Embedded(w.tables[t].rows, d)]
  {
    hide Embedded, LoadPairs, ContentsOf, Buildable, CacheKey, QualifiedShadow, Blank;
  }

  /** A read-only Search that can build caches the current rows, and stores nothing. */
  lemma SearchAnswersFromRows(w: World, t: TableId, d: string)
    requires Named(w) && AllCurrent(w) && t in w.tables && !Blank(d) && Buildable(w.tables[t].rows, d)
    ensures var end := Searched(w, t, d);
            && CacheKeyOf(end, t, d) in end.cache && end.cache[CacheKeyOf(end, t, d)] == Embedded(w.tables[t].rows, d)
            && end.blobs == w.blobs && end.tables == w.tables
  {
    hide Embedded, Encodes, Buildable, Current, CacheKey, QualifiedShadow, Blank;
    assert Current(w, t, d);
    CacheIsCurrent(w, t, d);
  }

  // ---------------------------------------------------------------- the discipline is needed

  /** A row change of one table. */
  datatype Change = Change(gone: Option<Key>, made: Option<(Key, Option<Bytes>)>)

  function WrittenAll(w: World, t: TableId, changes: seq<Change>): (next: World)
    requires t in w.tables
    ensures t in next.tables && next.tables[t].triggers == w.tables[t].triggers
    decreases |changes|
  {
    if changes == [] then w
    else
      var before := WrittenAll(w, t, changes[..|changes| - 1]);
      Written(before, t, changes[|changes| - 1].gone, changes[|changes| - 1].made)
  }

  /** A blob stored for the dataset loads as its rows, each once. */
  ghost predicate Agrees(w: World, t: TableId, d: string)
    requires t in w.tables
  {
    Slot(Shadow(t), d) in w.blobs ==> Encodes(w.blobs[Slot(Shadow(t), d)], Embedded(w.tables[t].rows, d))
  }

  lemma WriteAgrees(w: World, t: TableId, d: string, gone: Option<Key>, made: Option<(Key, Option<Bytes>)>)
    requires t in w.tables && w.tables[t].triggers && Agrees(w, t, d)
    ensures Agrees(Written(w, t, gone, made), t, d)
  {
    hide Encodes, Embedded, QualifiedShadow, KeptAll, NewRows;
    if d !in Touched(gone, made) {
      OtherDatasetsKept(w.tables[t].rows, gone, made, d);
    }
  }

  lemma {:induction false} WritesAgree(w: World, t: TableId, d: string, changes: seq<Change>)
    requires t in w.tables && w.tables[t].triggers && Agrees(w, t, d)
    ensures Agrees(WrittenAll(w, t, changes), t, d)
    decreases |changes|
  {
    hide Agrees, Written;
    if changes == [] {
    } else {
      var n := |changes| - 1;
      WritesAgree(w, t, d, changes[..n]);
      WriteAgrees(WrittenAll(w, t, changes[..n]), t, d, changes[n].gone, changes[n].made);
    }
  }

  lemma {:induction false} LongerThanAll(keys: set<Key>) returns (n: nat)
    ensures forall k :: k in keys ==> |k.id| < n
    decreases |keys|
  {
    if keys == {} {
      n := 0;
    } else {
      var k :| k in keys;
      n := LongerThanAll(keys - {k});
      n := if n > |k.id| then n else |k.id| + 1;
    }
  }

  lemma FreshId(rows: Rows, d: string) returns (id: Bytes)
    ensures Key(d, id) !in rows
  {
    var n := LongerThanAll(rows.Keys);
    id := seq(n, i => 0);
    assert Key(d, id).id == id;
  }

  /** Without triggers one insert is enough to make a stored blob wrong, whatever the rows. */
  lemma InsertDisagrees(w: World, t: TableId, d: string) returns (c: Change)
    requires t in w.tables && !w.tables[t].triggers && Agrees(w, t, d) && Slot(Shadow(t), d) in w.blobs
    ensures !Agrees(Written(w, t, c.gone, c.made), t, d)
  {
    hide QualifiedShadow, LoadPairs;
    var rows := w.tables[t].rows;
    var id := FreshId(rows, d);
    var e: Bytes := [0, 0, 0, 0];
    c := Change(None, Some((Key(d, id), Some(e))));
    var after := Written(w, t, c.gone, c.made).tables[t].rows;
    assert IsEmbedded(after, d, Key(d, id)) && !IsEmbedded(rows, d, Key(d, id));
    assert id in Embedded(after, d) && id !in Embedded(rows, d);
  }

  /** After a reindex of any dataset that can be indexed, what it stored keeps agreeing with the rows
      through every later sequence of row changes exactly when the table's triggers are installed. */
  lemma ReindexSurvivesIff(w: World, t: TableId, d: string, blob: Bytes)
    requires t in w.tables && Buildable(w.tables[t].rows, d) && Encodes(blob, Embedded(w.tables[t].rows, d))
    ensures (forall changes: seq<Change> :: Agrees(WrittenAll(Reindexed(w, t, d, blob), t, changes), t, d))
            <==> w.tables[t].triggers
  {
    hide Buildable, Encodes, Embedded, Written, QualifiedShadow;
    var next := Reindexed(w, t, d, blob);
    assert Agrees(next, t, d);
    if w.tables[t].triggers {
      forall changes: seq<Change>
        ensures Agrees(WrittenAll(next, t, changes), t, d)
      {
        WritesAgree(next, t, d, changes);
      }
    } else {
      var c := InsertDisagrees(next, t, d);
      assert [c][..0] == [];
      assert WrittenAll(next, t, [c]) == Written(next, t, c.gone, c.made);
    }
  }
}
