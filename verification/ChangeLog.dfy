/** The SCN change log of vecsync/logging.go: what the emitted SQLite triggers do to the sequence table
    and the log on every row change, and what a replica gets by replaying the log. */
module ChangeLog {
  import opened Wire

  // ---------------------------------------------------------------- rows and payloads

  datatype Key = Key(dataset: string, id: string)

  /** The columns of a shadow row besides its key; None is NULL. */
  datatype Row = Row(content: Option<string>, meta: Option<string>, embedding: Option<Bytes>,
                     model: Option<string>, scn: int, archived: int)

  /** The JSON payload of a log entry.  The embedding is a hex string. */
  datatype Payload = Payload(content: Option<string>, meta: Option<string>, embedding: string,
                             model: Option<string>, scn: int, archived: int)

  const DIGITS: string := "0123456789abcdef"

  /** Lower-case hex. */
  function Hex(b: Bytes): (h: string)
    ensures |h| == 2 * |b|
  {
    if b == [] then "" else [DIGITS[b[0] / 16], DIGITS[b[0] % 16]] + Hex(b[1..])
  }

  function DigitValue(c: char): int {
    if '0' <= c <= '9' then c as int - '0' as int
    else if 'a' <= c <= 'f' then c as int - 'a' as int + 10
    else 0
  }

  function Byte16(hi: char, lo: char): Byte {
    (16 * DigitValue(hi) + DigitValue(lo)) % 256
  }

  function Unhex(h: string): Bytes {
    if |h| < 2 then [] else [Byte16(h[0], h[1])] + Unhex(h[2..])
  }

  lemma ByteBack(b: Byte)
    ensures Byte16(DIGITS[b / 16], DIGITS[b % 16]) == b
  {
    assert DigitValue(DIGITS[b / 16]) == b / 16;
    assert DigitValue(DIGITS[b % 16]) == b % 16;
  }

  lemma {:induction false} HexRoundTrip(b: Bytes)
    ensures Unhex(Hex(b)) == b
  {
    if b == [] {
    } else {
      ByteBack(b[0]);
      HexRoundTrip(b[1..]);
      assert Hex(b)[2..] == Hex(b[1..]);
    }
  }

  /** The high digit of each byte comes first. */
  lemma {:induction false} HexAt(b: Bytes, i: nat)
    requires i < |b|
    ensures Hex(b)[2 * i] == DIGITS[b[i] / 16] && Hex(b)[2 * i + 1] == DIGITS[b[i] % 16]
  {
    hide DigitValue;
    if i == 0 {
    } else {
      HexAt(b[1..], i - 1);
    }
  }

  /** The digits are lower case. */
  lemma HexDigits()
    ensures DIGITS == "0123456789abcdef" && DigitValue('0') == 0 && DigitValue('9') == 9
    ensures DigitValue('a') == 10 && DigitValue('f') == 15
  {
  }

  /** The hex of a NULL embedding is the empty string, as that of an empty one is. */
  function PayloadOf(r: Row): Payload {
    Payload(r.content, r.meta, if r.embedding.None? then "" else Hex(r.embedding.value), r.model, r.scn, r.archived)
  }

  /** The row a replica stores for a payload. */
  function RowOf(p: Payload): Row {
    Row(p.content, p.meta, Some(Unhex(p.embedding)), p.model, p.scn, p.archived)
  }

  /** A row up to the difference between a NULL and an empty embedding. */
  function Canonical(r: Row): Row {
    r.(embedding := Some(if r.embedding.None? then [] else r.embedding.value))
  }

  /** What a replica restores is the row, except that a NULL embedding comes back empty. */
  lemma PayloadRoundTrip(r: Row)
    ensures RowOf(PayloadOf(r)) == Canonical(r)
    ensures RowOf(PayloadOf(r)) == r <==> r.embedding.Some?
    ensures var p := PayloadOf(r);
            && p.content == r.content && p.meta == r.meta && p.model == r.model
            && p.scn == r.scn && p.archived == r.archived
            && Unhex(p.embedding) == Canonical(r).embedding.value
  {
    if r.embedding.Some? {
      HexRoundTrip(r.embedding.value);
    }
  }

  // ---------------------------------------------------------------- the upstream database

  datatype Op = Inserted | Updated | Deleted

  datatype LogKey = LogKey(dataset: string, table: string, scn: nat)

  datatype Entry = Entry(op: Op, id: string, payload: Payload)

  /** Several shadow tables share the sequence table and the log. */
  datatype Db = Db(tables: map<string, map<Key, Row>>, seqs: map<string, nat>, log: map<LogKey, Entry>)

  const EMPTY: Db := Db(map[], map[], map[])

  function Rows(db: Db, table: string): map<Key, Row> {
    if table in db.tables then db.tables[table] else map[]
  }

  function LastScn(db: Db, dataset: string): nat {
    if dataset in db.seqs then db.seqs[dataset] else 0
  }

  /** A statement that changes one row.  Update may also move the row to another key. */
  datatype Change =
    | Insert(table: string, key: Key, row: Row)
    | Update(table: string, key: Key, newKey: Key, row: Row)
    | Delete(table: string, key: Key)

  /** The statement changes a row: inserts need a free key, updates and deletes an existing row, and a
      moved row a free destination.  Otherwise no trigger fires and nothing changes. */
  predicate Applies(db: Db, c: Change) {
    match c
    case Insert(t, k, _) => k !in Rows(db, t)
    case Update(t, k, k2, _) => k in Rows(db, t) && (k2 == k || k2 !in Rows(db, t))
    case Delete(t, k) => k in Rows(db, t)
  }

  /** The trigger body: advance the dataset's sequence, then log under the new number. */
  function Logged(db: Db, table: string, key: Key, op: Op, row: Row): Db {
    var scn := LastScn(db, key.dataset) + 1;
    db.(seqs := db.seqs[key.dataset := scn],
        log := db.log[LogKey(key.dataset, table, scn) := Entry(op, key.id, PayloadOf(row))])
  }

  function WithRows(db: Db, table: string, rows: map<Key, Row>): Db {
    db.(tables := db.tables[table := rows])
  }

  function Target(c: Change): Key {
    if c.Update? then c.newKey else c.key
  }

  /** The table after the statement. */
  function NewRows(rows: map<Key, Row>, c: Change): map<Key, Row> {
    match c
    case Insert(_, k, r) => rows[k := r]
    case Update(_, k, k2, r) => (rows - {k})[k2 := r]
    case Delete(_, k) => rows - {k}
  }

  function OpOf(c: Change): Op {
    match c
    case Insert(_, _, _) => Inserted
    case Update(_, _, _, _) => Updated
    case Delete(_, _) => Deleted
  }

  /** NEW, or OLD for a delete. */
  function LoggedRow(rows: map<Key, Row>, c: Change): Row
    requires c.Delete? ==> c.key in rows
  {
    if c.Delete? then rows[c.key] else c.row
  }

  function Changed(db: Db, c: Change): Db {
    if !Applies(db, c) then db
    else
      var rows := Rows(db, c.table);
      Logged(WithRows(db, c.table, NewRows(rows, c)), c.table, Target(c), OpOf(c), LoggedRow(rows, c))
  }

  /** A change is logged under the next number of its dataset: as an insert when there was no such row
      before, as a delete, with the old row, when there is none after, and otherwise as an update. */
  lemma LoggedAs(db: Db, c: Change)
    requires c.key in Rows(db, c.table) <==> !c.Insert?
    requires c.Update? ==> c.newKey == c.key || c.newKey !in Rows(db, c.table)
    ensures var next, k := Changed(db, c), Target(c);
            var before, after := Rows(db, c.table), Rows(next, c.table);
            var at := LogKey(k.dataset, c.table, LastScn(db, k.dataset) + 1);
            && LastScn(next, k.dataset) == at.scn && at in next.log && next.log[at].id == k.id
            && (next.log[at].op == Inserted <==> c.key !in before)
            && (next.log[at].op == Deleted <==> k !in after)
            && (next.log[at].op == Updated <==> c.key in before && k in after)
            && (!c.Delete? ==> k in after && after[k] == c.row)
            && next.log[at].payload == PayloadOf(if k in after then after[k] else before[k])
  {
    hide PayloadOf;
  }

  /** Keys are immutable. */
  predicate KeepsKey(c: Change) {
    c.Update? ==> c.newKey == c.key
  }

  function Run(db: Db, changes: seq<Change>): Db
    decreases |changes|
  {
    if changes == [] then db else Changed(Run(db, changes[..|changes| - 1]), changes[|changes| - 1])
  }

  // ---------------------------------------------------------------- the log is gap-free

  ghost predicate IsLogged(log: map<LogKey, Entry>, dataset: string, scn: nat) {
    exists t :: LogKey(dataset, t, scn) in log
  }

  /** Each of 1..n is the number of exactly one entry of the dataset, in whichever table, and nothing
      else is logged for it. */
  ghost predicate GapFree(db: Db) {
    && (forall k :: k in db.log ==> 1 <= k.scn <= LastScn(db, k.dataset))
    && (forall d, n :: 1 <= n <= LastScn(db, d) ==> IsLogged(db.log, d, n))
    && (forall k, l :: k in db.log && l in db.log && k.dataset == l.dataset && k.scn == l.scn ==> k == l)
  }

  lemma LoggedGapFree(db: Db, table: string, key: Key, op: Op, row: Row)
    requires GapFree(db)
    ensures LogKey(key.dataset, table, LastScn(db, key.dataset) + 1) !in db.log
    ensures GapFree(Logged(db, table, key, op, row))
  {
    var next := Logged(db, table, key, op, row);
    var added := LogKey(key.dataset, table, LastScn(db, key.dataset) + 1);
    forall d, n: nat | 1 <= n <= LastScn(next, d)
      ensures IsLogged(next.log, d, n)
    {
      if d == key.dataset && n == added.scn {
        assert LogKey(d, table, n) in next.log;
      } else {
        assert IsLogged(db.log, d, n);
        var t :| LogKey(d, t, n) in db.log;
        assert LogKey(d, t, n) in next.log;
      }
    }
  }

  lemma ChangeGapFree(db: Db, c: Change)
    requires GapFree(db)
    ensures GapFree(Changed(db, c))
    ensures Applies(db, c) ==>
              LogKey(Target(c).dataset, c.table, LastScn(db, Target(c).dataset) + 1) !in db.log
  {
    if Applies(db, c) {
      var rows := Rows(db, c.table);
      LoggedGapFree(WithRows(db, c.table, NewRows(rows, c)), c.table, Target(c), OpOf(c), LoggedRow(rows, c));
    }
  }

  /** After any statements on any number of tables each dataset's numbers are exactly 1..n, and no
      trigger ever met a taken log key. */
  lemma {:induction false} LogGapFree(changes: seq<Change>)
    ensures GapFree(Run(EMPTY, changes))
    decreases |changes|
  {
    if changes == [] {
    } else {
      LogGapFree(changes[..|changes| - 1]);
      ChangeGapFree(Run(EMPTY, changes[..|changes| - 1]), changes[|changes| - 1]);
    }
  }

  // ---------------------------------------------------------------- the row's own number

  /** The writer put the number the trigger is about to allocate into the row; for a delete, the row
      already carried it. */
  predicate Numbered(db: Db, c: Change) {
    Applies(db, c) ==> LoggedRow(Rows(db, c.table), c).scn == LastScn(db, Target(c).dataset) + 1
  }

  ghost predicate AllNumbered(changes: seq<Change>) {
    forall i :: 0 <= i < |changes| ==> Numbered(Run(EMPTY, changes[..i]), changes[i])
  }

  /** Every payload repeats the number it is logged under. */
  ghost predicate PayloadsNumbered(log: map<LogKey, Entry>) {
    forall k :: k in log ==> log[k].payload.scn == k.scn
  }

  lemma NumberedStep(db: Db, c: Change)
    requires GapFree(db)
    ensures PayloadsNumbered(Changed(db, c).log) <==> PayloadsNumbered(db.log) && Numbered(db, c)
  {
    hide NewRows, PayloadOf, GapFree;
    ChangeGapFree(db, c);
    ChangedLog(db, c);
    PayloadKeepsScn(if c.Delete? && !Applies(db, c) then Row(None, None, None, None, 0, 0)
                    else LoggedRow(Rows(db, c.table), c));
  }

  lemma ChangedLog(db: Db, c: Change)
    ensures Changed(db, c).log ==
            if !Applies(db, c) then db.log
            else db.log[LogKey(Target(c).dataset, c.table, LastScn(db, Target(c).dataset) + 1)
                        := Entry(OpOf(c), Target(c).id, PayloadOf(LoggedRow(Rows(db, c.table), c)))]
  {
  }

  lemma PayloadKeepsScn(r: Row)
    ensures PayloadOf(r).scn == r.scn
  {
  }

  /** The triggers never write the row's own scn: over a whole run the logged payloads repeat the numbers
      they are logged under exactly when the writer put the right number into every row himself. */
  lemma {:induction false} PayloadsNumberedIff(changes: seq<Change>)
    ensures PayloadsNumbered(Run(EMPTY, changes).log) <==> AllNumbered(changes)
    decreases |changes|
  {
    hide Changed, Numbered, PayloadsNumbered, AllNumbered, GapFree;
    if changes == [] {
      NothingLogged();
    } else {
      var n := |changes| - 1;
      var before := changes[..n];
      PayloadsNumberedIff(before);
      LogGapFree(before);
      NumberedStep(Run(EMPTY, before), changes[n]);
      AllNumberedStep(changes);
    }
  }

  lemma AllNumberedStep(changes: seq<Change>)
    requires changes != []
    ensures var n := |changes| - 1;
            AllNumbered(changes) <==> AllNumbered(changes[..n]) && Numbered(Run(EMPTY, changes[..n]), changes[n])
  {
    hide Run, Numbered;
    var n := |changes| - 1;
    var before := changes[..n];
    assert forall i :: 0 <= i < n ==> before[..i] == changes[..i] && before[i] == changes[i];
    if AllNumbered(changes) {
      forall i | 0 <= i < n
        ensures Numbered(Run(EMPTY, before[..i]), before[i])
      {
        assert Numbered(Run(EMPTY, changes[..i]), changes[i]);
      }
    }
  }

  lemma NothingLogged()
    ensures PayloadsNumbered(EMPTY.log) && AllNumbered([])
  {
  }

  /** The first insert that leaves scn to the column's default of 0 is logged under 1 with payload scn 0. */
  lemma DefaultScnIsNotTheNumber(table: string, key: Key, row: Row)
    requires row.scn == 0
    ensures var db := Run(EMPTY, [Insert(table, key, row)]);
            var k := LogKey(key.dataset, table, 1);
            k in db.log && db.log[k].payload.scn == 0 && Rows(db, table)[key].scn == 0
  {
  }

  // ---------------------------------------------------------------- replay

  /** One dataset of a table, as a replica can know it. */
  function Slice(rows: map<Key, Row>, dataset: string): (slice: map<string, Row>)
    ensures forall id :: id in slice <==> Key(dataset, id) in rows
    ensures forall id :: id in slice ==> slice[id] == Canonical(rows[Key(dataset, id)])
  {
    var slice := map k | k in rows && k.dataset == dataset :: k.id := Canonical(rows[k]);
    assert forall id :: Key(dataset, id) in rows ==> Key(dataset, id).id in slice;
    slice
  }

  function Applied(rows: map<string, Row>, e: Entry): map<string, Row> {
    if e.op == Deleted then rows - {e.id} else rows[e.id := RowOf(e.payload)]
  }

  /** The entries of (dataset, table) with numbers in (lo, hi], applied in order. */
  function Replay(log: map<LogKey, Entry>, dataset: string, table: string, lo: nat, hi: nat, rows: map<string,
                  Row>): map<string, Row>
    decreases hi
  {
    if hi <= lo then rows
    else
      var before := Replay(log, dataset, table, lo, hi - 1, rows);
      if LogKey(dataset, table, hi) in log then Applied(before, log[LogKey(dataset, table, hi)]) else before
  }

  lemma {:induction false} ReplayCompose(log: map<LogKey, Entry>, dataset: string, table: string, lo: nat, mid: nat,
                                         hi: nat, rows: map<string, Row>)
    requires lo <= mid <= hi
    ensures Replay(log, dataset, table, lo, hi, rows) ==
            Replay(log, dataset, table, mid, hi, Replay(log, dataset, table, lo, mid, rows))
    decreases hi
  {
    if mid == hi {
    } else {
      ReplayCompose(log, dataset, table, lo, mid, hi - 1, rows);
    }
  }

  /** The log of one slice after a change: the same entries, and possibly one more at the end. */
  lemma ChangeAppends(db: Db, c: Change, dataset: string, table: string, n: nat)
    requires GapFree(db) && n <= LastScn(db, dataset)
    ensures var k := LogKey(dataset, table, n);
            (k in db.log <==> k in Changed(db, c).log) && (k in db.log ==> db.log[k] == Changed(db, c).log[k])
    ensures LastScn(Changed(db, c), dataset) ==
            LastScn(db, dataset) + if Applies(db, c) && Target(c).dataset == dataset then 1 else 0
  {
  }

  lemma SliceWith(rows: map<Key, Row>, dataset: string, k: Key, r: Row)
    ensures Slice(rows[k := r], dataset) ==
            if k.dataset == dataset then Slice(rows, dataset)[k.id := Canonical(r)] else Slice(rows, dataset)
  {
  }

  lemma SliceWithout(rows: map<Key, Row>, dataset: string, k: Key)
    ensures Slice(rows - {k}, dataset) ==
            if k.dataset == dataset then Slice(rows, dataset) - {k.id} else Slice(rows, dataset)
  {
  }

  lemma ChangedRows(db: Db, c: Change, table: string)
    ensures Rows(Changed(db, c), table) ==
            if Applies(db, c) && c.table == table then NewRows(Rows(db, table), c) else Rows(db, table)
  {
  }

  lemma ChangedEntry(db: Db, c: Change)
    requires Applies(db, c)
    ensures var k := LogKey(Target(c).dataset, c.table, LastScn(db, Target(c).dataset) + 1);
            k in Changed(db, c).log
            && Changed(db, c).log[k] == Entry(OpOf(c), Target(c).id, PayloadOf(LoggedRow(Rows(db, c.table), c)))
  {
  }

  /** Applying the entry of a key-preserving change to the old slice gives the new one. */
  lemma EntryApplies(rows: map<Key, Row>, c: Change)
    requires KeepsKey(c) && (c.Update? || c.Delete? ==> c.key in rows)
    ensures Applied(Slice(rows, c.key.dataset), Entry(OpOf(c), c.key.id, PayloadOf(LoggedRow(rows, c))))
            == Slice(NewRows(rows, c), c.key.dataset)
  {
    hide Slice, RowOf, PayloadOf, Canonical;
    var d := c.key.dataset;
    match c
    case Insert(_, k, r) =>
      PayloadRoundTrip(r);
      SliceWith(rows, d, k, r);
    case Update(_, k, _, r) =>
      PayloadRoundTrip(r);
      assert (rows - {k})[k := r] == rows[k := r];
      SliceWith(rows, d, k, r);
    case Delete(_, k) =>
      SliceWithout(rows, d, k);
  }

  lemma SliceElsewhere(rows: map<Key, Row>, c: Change, dataset: string)
    requires KeepsKey(c) && c.key.dataset != dataset
    ensures Slice(NewRows(rows, c), dataset) == Slice(rows, dataset)
  {
  }

  /** One key-preserving change: replaying what it logged on the old slice gives the new slice. */
  lemma ChangeReplays(db: Db, c: Change, dataset: string, table: string)
    requires GapFree(db) && KeepsKey(c)
    ensures Replay(Changed(db, c).log, dataset, table, LastScn(db, dataset), LastScn(Changed(db, c), dataset),
                   Slice(Rows(db, table), dataset))
            == Slice(Rows(Changed(db, c), table), dataset)
  {
    hide Changed, Slice, NewRows, GapFree, Applied, PayloadOf, LoggedRow;
    var log, n, rows := Changed(db, c).log, LastScn(db, dataset), Rows(db, table);
    ChangeAppends(db, c, dataset, table, n);
    ChangedRows(db, c, table);
    if Applies(db, c) {
      if c.key.dataset != dataset {
        SliceElsewhere(rows, c, dataset);
      } else {
        assert Replay(log, dataset, table, n, n, Slice(rows, dataset)) == Slice(rows, dataset);
        ChangedEntry(db, c);
        if c.table == table {
          EntryApplies(rows, c);
        } else {
          OneTablePerNumber(db, c, table);
        }
      }
    }
  }

  lemma OneTablePerNumber(db: Db, c: Change, table: string)
    requires GapFree(db) && Applies(db, c) && table != c.table
    ensures LogKey(Target(c).dataset, table, LastScn(db, Target(c).dataset) + 1) !in Changed(db, c).log
  {
  }

  // ---------------------------------------------------------------- whole runs

  ghost predicate KeepKeys(changes: seq<Change>) {
    forall i :: 0 <= i < |changes| ==> KeepsKey(changes[i])
  }

  /** A replica that starts from a slice and replays everything logged since has the current slice:
      the numbers are the state at `start` and after `changes`. */
  lemma {:induction false} ReplayFollows(start: Db, changes: seq<Change>, dataset: string, table: string)
    requires GapFree(start) && KeepKeys(changes)
    ensures GapFree(Run(start, changes)) && LastScn(start, dataset) <= LastScn(Run(start, changes), dataset)
    ensures Replay(Run(start, changes).log, dataset, table,
                   LastScn(start, dataset), LastScn(Run(start, changes), dataset),
                   Slice(Rows(start, table), dataset))
            == Slice(Rows(Run(start, changes), table), dataset)
    decreases |changes|
  {
    hide Changed, Slice, GapFree, Rows, LastScn, Applied;
    var from := LastScn(start, dataset);
    if changes == [] {
      var rows := Slice(Rows(start, table), dataset);
      assert Replay(start.log, dataset, table, from, from, rows) == rows;
    } else {
      var n := |changes| - 1;
      var before, c := Run(start, changes[..n]), changes[n];
      var now, mid := Changed(before, c), LastScn(before, dataset);
      var rows := Slice(Rows(start, table), dataset);
      ReplayFollows(start, changes[..n], dataset, table);
      ChangeGapFree(before, c);
      ChangeAppends(before, c, dataset, table, 0);
      LogKept(before, c, dataset, table, from, mid, rows);
      ReplayCompose(now.log, dataset, table, from, mid, LastScn(now, dataset), rows);
      ChangeReplays(before, c, dataset, table);
    }
  }

  /** A later change does not alter what was logged before it. */
  lemma LogKept(db: Db, c: Change, dataset: string, table: string, lo: nat, hi: nat, rows: map<string, Row>)
    requires GapFree(db) && hi <= LastScn(db, dataset)
    ensures Replay(Changed(db, c).log, dataset, table, lo, hi, rows) == Replay(db.log, dataset, table, lo, hi, rows)
  {
  }

  /** From empty tables, a replica at any checkpoint that resumes there ends with the current rows. */
  lemma ReplayFromCheckpoint(changes: seq<Change>, dataset: string, table: string, checkpoint: nat)
    requires KeepKeys(changes) && checkpoint <= LastScn(Run(EMPTY, changes), dataset)
    ensures var db := Run(EMPTY, changes);
            var replica := Replay(db.log, dataset, table, 0, checkpoint, map[]);
            Replay(db.log, dataset, table, checkpoint, LastScn(db, dataset), replica) == Slice(Rows(db, table), dataset)
  {
    hide Replay, Run;
    var db := Run(EMPTY, changes);
    ReplayFollows(EMPTY, changes, dataset, table);
    assert Slice(Rows(EMPTY, table), dataset) == map[];
    ReplayCompose(db.log, dataset, table, 0, checkpoint, LastScn(db, dataset), map[]);
  }

  // ---------------------------------------------------------------- updates that move a row

  /** An update replays correctly on the row's own dataset exactly when it keeps the key: only the new
      key is logged, so a moved row's old copy stays in the replica. */
  lemma MoveReplaysIff(db: Db, c: Change, dataset: string)
    requires GapFree(db) && c.Update? && Applies(db, c) && dataset == c.key.dataset
    ensures Replay(Changed(db, c).log, dataset, c.table, LastScn(db, dataset), LastScn(Changed(db, c), dataset),
                   Slice(Rows(db, c.table), dataset))
            == Slice(Rows(Changed(db, c), c.table), dataset)
            <==> KeepsKey(c)
  {
    hide Changed, GapFree, PayloadOf, Canonical, RowOf;
    if KeepsKey(c) {
      ChangeReplays(db, c, dataset, c.table);
    } else {
      var log, n, before := Changed(db, c).log, LastScn(db, dataset), Slice(Rows(db, c.table), dataset);
      ChangeAppends(db, c, dataset, c.table, n);
      ChangedRows(db, c, c.table);
      ChangedEntry(db, c);
      assert Replay(log, dataset, c.table, n, n, before) == before;
      assert c.key.id in before;
      assert Key(dataset, c.key.id) !in Rows(Changed(db, c), c.table);
    }
  }
}
