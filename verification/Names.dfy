/** Shadow names, cache keys and the string functions of Go they rest on. */
module Names {
  // ---------------------------------------------------------------- strings

  predicate OccursAt(s: string, sub: string, i: int) {
    0 <= i <= |s| - |sub| && s[i..i + |sub|] == sub
  }

  /** strings.Index, starting at `from`. */
  function IndexFrom(s: string, sub: string, from: nat): (i: int)
    requires from <= |s|
    ensures i < 0 ==> forall j :: from <= j ==> !OccursAt(s, sub, j)
    ensures i >= 0 ==> i >= from && OccursAt(s, sub, i) && forall j :: from <= j < i ==> !OccursAt(s, sub, j)
    decreases |s| - from
  {
    if OccursAt(s, sub, from) then from
    else if from == |s| then -1
    else IndexFrom(s, sub, from + 1)
  }

  function Index(s: string, sub: string): (i: int)
    ensures i < 0 <==> forall j :: !OccursAt(s, sub, j)
    ensures i >= 0 ==> OccursAt(s, sub, i) && forall j :: 0 <= j < i ==> !OccursAt(s, sub, j)
  {
    IndexFrom(s, sub, 0)
  }

  predicate Contains(s: string, sub: string) {
    Index(s, sub) >= 0
  }

  predicate HasPrefix(s: string, p: string) {
    |p| <= |s| && s[..|p|] == p
  }

  predicate HasSuffix(s: string, p: string) {
    |p| <= |s| && s[|s| - |p|..] == p
  }

  /** The white space strings.TrimSpace removes, up to U+00A0. */
  const SPACES: string := "\t\n\U{0b}\U{0c}\r \U{85}\U{a0}"

  /** strings.TrimSpace leaves nothing. */
  predicate Blank(s: string) {
    forall i :: 0 <= i < |s| ==> s[i] in SPACES
  }

  /** White space alone is blank; any other character anywhere makes a name. */
  lemma BlankSamples(before: string, after: string)
    ensures Blank("") && Blank(" ") && Blank("\t\r\n")
    ensures !Blank(before + "a" + after) && !Blank(before + "_" + after) && !Blank(before + "0" + after)
  {
    assert (before + "a" + after)[|before|] == 'a';
    assert (before + "_" + after)[|before|] == '_';
    assert (before + "0" + after)[|before|] == '0';
  }

  // ---------------------------------------------------------------- names

  const VEC: string := "_vec_"
  const DOT_VEC: string := "._vec_"

  function QualifiedShadow(dbName: string, tableName: string): string {
    if Blank(dbName) then VEC + tableName else dbName + "." + (VEC + tableName)
  }

  function TableNameFromShadow(shadow: string): string {
    var i := Index(shadow, DOT_VEC);
    if i >= 0 then shadow[i + |DOT_VEC|..]
    else if HasPrefix(shadow, VEC) then shadow[|VEC|..]
    else ""
  }

  function CacheKey(dbPath: string, tableName: string, dataset: string): string {
    dbPath + "|" + tableName + "|" + dataset
  }

  /** The table InvalidateCache takes a shadow name for. */
  function TargetTable(shadow: string): string {
    if TableNameFromShadow(shadow) == "" then shadow else TableNameFromShadow(shadow)
  }

  /** The keys InvalidateCache clears. */
  predicate Targets(shadow: string, dataset: string, key: string) {
    if dataset == "" then Contains(key, "|" + TargetTable(shadow) + "|")
    else HasSuffix(key, "|" + TargetTable(shadow) + "|" + dataset)
  }

  // ---------------------------------------------------------------- the shadow name leads back to the table

  lemma LetterAt(s: string, sub: string, i: int, k: nat)
    requires OccursAt(s, sub, i) && k < |sub|
    ensures s[i + k] == sub[k]
  {
  }

  /** No occurrence of "._vec_" ends beyond a '.' it does not start at. */
  lemma OccurrenceBefore(a: string, b: string, i: int)
    requires |b| > 0 && b[0] == '.' && OccursAt(a + b, DOT_VEC, i) && i < |a|
    ensures OccursAt(a, DOT_VEC, i)
  {
    var s := a + b;
    if i + |DOT_VEC| > |a| {
      LetterAt(s, DOT_VEC, i, |a| - i);
      assert false;
    }
    assert s[i..i + |DOT_VEC|] == a[i..i + |DOT_VEC|];
  }

  lemma OccurrenceAfterVec(b: string, i: int)
    requires OccursAt(VEC + b, DOT_VEC, i)
    ensures i >= |VEC| && OccursAt(b, DOT_VEC, i - |VEC|)
  {
    var s := VEC + b;
    if i < |VEC| {
      LetterAt(s, DOT_VEC, i, 0);
      assert false;
    }
    assert s[i..i + |DOT_VEC|] == b[i - |VEC|..i - |VEC| + |DOT_VEC|];
  }

  lemma OccursInside(a: string, b: string, sub: string, i: int)
    ensures OccursAt(a, sub, i) ==> OccursAt(a + b, sub, i)
    ensures OccursAt(b, sub, i) ==> OccursAt(a + b, sub, |a| + i)
  {
  }

  lemma UnqualifiedTable(tableName: string)
    ensures TableNameFromShadow(VEC + tableName) == tableName <==> !Contains(tableName, DOT_VEC)
  {
    var shadow := VEC + tableName;
    var i := Index(shadow, DOT_VEC);
    if i >= 0 {
      OccurrenceAfterVec(tableName, i);
      assert |TableNameFromShadow(shadow)| < |tableName|;
    } else {
      forall j ensures !OccursAt(tableName, DOT_VEC, j) {
        OccursInside(VEC, tableName, DOT_VEC, j);
      }
    }
  }

  lemma QualifiedTable(dbName: string, tableName: string)
    ensures TableNameFromShadow(dbName + "." + (VEC + tableName)) == tableName <==> !Contains(dbName, DOT_VEC)
  {
    var b := "." + (VEC + tableName);
    var shadow := dbName + b;
    assert dbName + "." + (VEC + tableName) == shadow;
    var i := Index(shadow, DOT_VEC);
    assert OccursAt(shadow, DOT_VEC, |dbName|) by {
      assert shadow[|dbName|..|dbName| + |DOT_VEC|] == DOT_VEC;
    }
    if i < |dbName| {
      OccurrenceBefore(dbName, b, i);
      assert |TableNameFromShadow(shadow)| > |tableName|;
    } else {
      assert shadow[|dbName| + |DOT_VEC|..] == tableName;
      forall j ensures !OccursAt(dbName, DOT_VEC, j) {
        OccursInside(dbName, b, DOT_VEC, j);
      }
    }
  }

  /** Invalidating by shadow name reaches the table's own keys exactly when the name has a table part
      and "._vec_" does not occur in what stands before it (or, unqualified, in the table name). */
  lemma ShadowLeadsBack(dbName: string, tableName: string)
    ensures TargetTable(QualifiedShadow(dbName, tableName)) == tableName
            <==> tableName != "" && !Contains(if Blank(dbName) then tableName else dbName, DOT_VEC)
  {
    if Blank(dbName) {
      UnqualifiedTable(tableName);
    } else {
      QualifiedTable(dbName, tableName);
    }
  }

  lemma KeySuffix(dbPath: string, tableName: string, dataset: string)
    ensures HasSuffix(CacheKey(dbPath, tableName, dataset), "|" + tableName + "|" + dataset)
    ensures Contains(CacheKey(dbPath, tableName, dataset), "|" + tableName + "|")
  {
    var key, tail := CacheKey(dbPath, tableName, dataset), "|" + tableName + "|" + dataset;
    assert key == dbPath + tail;
    var sub := "|" + tableName + "|";
    assert tail == sub + dataset;
    assert key[|dbPath|..|dbPath| + |sub|] == sub;
    assert OccursAt(key, sub, |dbPath|);
  }

  /** Every database path's entry for the table and dataset is among the keys cleared; so are all its
      datasets when none is named. */
  lemma InvalidationReaches(dbName: string, tableName: string, dbPath: string, dataset: string)
    requires tableName != "" && !Contains(if Blank(dbName) then tableName else dbName, DOT_VEC)
    ensures Targets(QualifiedShadow(dbName, tableName), dataset, CacheKey(dbPath, tableName, dataset))
    ensures Targets(QualifiedShadow(dbName, tableName), "", CacheKey(dbPath, tableName, dataset))
  {
    ShadowLeadsBack(dbName, tableName);
    KeySuffix(dbPath, tableName, dataset);
  }

  predicate NoBar(s: string) {
    forall i :: 0 <= i < |s| ==> s[i] != '|'
  }

  lemma FirstPart(a: string, b: string, c: string, d: string)
    requires a + "|" + b == c + "|" + d && NoBar(a) && NoBar(c)
    ensures a == c && b == d
  {
    var s, t := a + "|" + b, c + "|" + d;
    assert s[|a|] == '|' && t[|c|] == '|';
    assert forall j :: 0 <= j < |a| ==> s[j] == a[j];
    assert forall j :: 0 <= j < |c| ==> t[j] == c[j];
    assert s[..|a|] == a && t[..|c|] == c;
    assert s[|a| + 1..] == b && t[|c| + 1..] == d;
  }

  /** Two users of the cache share an entry only when they mean the same data, as long as '|' occurs in
      no path and no table name. */
  lemma KeysSeparate(p: string, t: string, d: string, p': string, t': string, d': string)
    requires NoBar(p) && NoBar(t) && NoBar(p') && NoBar(t')
    requires CacheKey(p, t, d) == CacheKey(p', t', d')
    ensures p == p' && t == t' && d == d'
  {
    assert CacheKey(p, t, d) == p + "|" + (t + "|" + d);
    assert CacheKey(p', t', d') == p' + "|" + (t' + "|" + d');
    FirstPart(p, t + "|" + d, p', t' + "|" + d');
    FirstPart(t, d, t', d');
  }

  // ---------------------------------------------------------------- exactly which keys are cleared

  lemma OccursBeyond(a: string, b: string, sub: string, i: int)
    requires i >= |a|
    ensures OccursAt(a + b, sub, i) <==> OccursAt(b, sub, i - |a|)
  {
    if |a| <= i <= |a| + |b| - |sub| {
      assert (a + b)[i..i + |sub|] == b[i - |a|..i - |a| + |sub|];
    }
  }

  /** Where a string that begins with a bar can stand in a key: at the table, or in the dataset. */
  lemma OccursInKey(p: string, t: string, d: string, sub: string, i: nat)
    requires NoBar(p) && NoBar(t) && |sub| > 0 && sub[0] == '|' && OccursAt(CacheKey(p, t, d), sub, i)
    ensures || (i == |p| && HasPrefix("|" + (t + "|" + d), sub))
            || (i >= |p| + 1 + |t| && OccursAt("|" + d, sub, i - |p| - 1 - |t|))
  {
    var key, head, rest := CacheKey(p, t, d), p + "|" + t, "|" + (t + "|" + d);
    KeyParts(p, t, d);
    assert key == p + rest;
    assert key[i] == '|' by {
      LetterAt(key, sub, i, 0);
    }
    if i == |p| {
      OccursBeyond(p, rest, sub, i);
    } else {
      assert i > |p| by {
        assert forall j :: 0 <= j < |p| ==> key[j] == p[j];
      }
      assert i >= |head| by {
        assert forall j :: |p| + 1 <= j < |head| ==> key[j] == t[j - |p| - 1];
      }
      OccursBeyond(head, "|" + d, sub, i);
    }
  }

  /** A dataset name that itself ends in, or contains, the table's part of a key. */
  predicate LooksLike(key: string, t: string, d: string) {
    if d == "" then Contains("|" + key, "|" + t + "|") else HasSuffix("|" + key, "|" + t + "|" + d)
  }

  /** A key and what follows its table. */
  lemma KeyParts(p: string, t: string, d: string)
    ensures CacheKey(p, t, d) == (p + "|" + t) + ("|" + d)
    ensures "|" + t + "|" + d == "|" + (t + "|" + d)
  {
  }

  lemma SuffixOfSuffix(a: string, b: string, sub: string)
    requires HasSuffix(b, sub)
    ensures HasSuffix(a + b, sub)
  {
    assert (a + b)[|a + b| - |sub|..] == b[|b| - |sub|..];
  }

  lemma SuffixInKeyIs(p: string, t': string, d': string, t: string, d: string)
    requires NoBar(p) && NoBar(t') && NoBar(t)
    requires HasSuffix(CacheKey(p, t', d'), "|" + t + "|" + d)
    ensures (t' == t && d' == d) || HasSuffix("|" + d', "|" + t + "|" + d)
  {
    var key, sub := CacheKey(p, t', d'), "|" + t + "|" + d;
    var i := |key| - |sub|;
    assert OccursAt(key, sub, i);
    OccursInKey(p, t', d', sub, i);
    if i == |p| {
      KeyParts(p, t', d');
      KeyParts(p, t, d);
      assert "|" + (t' + "|" + d') == "|" + (t + "|" + d);
      SameHead("|", t' + "|" + d', "|", t + "|" + d);
      FirstPart(t', d', t, d);
    }
  }

  lemma SuffixInKey(p: string, t': string, d': string, t: string, d: string)
    requires NoBar(p) && NoBar(t') && NoBar(t)
    ensures HasSuffix(CacheKey(p, t', d'), "|" + t + "|" + d)
            <==> (t' == t && d' == d) || HasSuffix("|" + d', "|" + t + "|" + d)
  {
    hide CacheKey, HasSuffix, NoBar;
    if HasSuffix(CacheKey(p, t', d'), "|" + t + "|" + d) {
      SuffixInKeyIs(p, t', d', t, d);
    }
    if HasSuffix("|" + d', "|" + t + "|" + d) {
      KeyParts(p, t', d');
      SuffixOfSuffix(p + "|" + t', "|" + d', "|" + t + "|" + d);
    }
    KeySuffix(p, t', d');
  }

  lemma SameHead(a: string, b: string, c: string, d: string)
    requires a + b == c + d && |a| == |c|
    ensures b == d
  {
    assert (a + b)[|a|..] == b && (c + d)[|c|..] == d;
  }

  lemma TableInKeyIs(p: string, t': string, d': string, t: string)
    requires NoBar(p) && NoBar(t') && NoBar(t)
    requires Contains(CacheKey(p, t', d'), "|" + t + "|")
    ensures t' == t || Contains("|" + d', "|" + t + "|")
  {
    var key, sub := CacheKey(p, t', d'), "|" + t + "|";
    var i := Index(key, sub);
    OccursInKey(p, t', d', sub, i);
    if i == |p| {
      var rest := "|" + (t' + "|" + d');
      var tail := rest[|sub|..];
      assert rest == sub + tail;
      KeyParts(p, t', d');
      KeyParts(p, t, tail);
      SameHead("|", t' + "|" + d', "|", t + "|" + tail);
      FirstPart(t', d', t, tail);
    }
  }

  lemma ContainedAfter(a: string, b: string, sub: string)
    requires Contains(b, sub)
    ensures Contains(a + b, sub)
  {
    OccursInside(a, b, sub, Index(b, sub));
  }

  lemma TableInKey(p: string, t': string, d': string, t: string)
    requires NoBar(p) && NoBar(t') && NoBar(t)
    ensures Contains(CacheKey(p, t', d'), "|" + t + "|") <==> t' == t || Contains("|" + d', "|" + t + "|")
  {
    hide CacheKey, Contains, NoBar;
    if Contains(CacheKey(p, t', d'), "|" + t + "|") {
      TableInKeyIs(p, t', d', t);
    }
    if Contains("|" + d', "|" + t + "|") {
      KeyParts(p, t', d');
      ContainedAfter(p + "|" + t', "|" + d', "|" + t + "|");
    }
    KeySuffix(p, t', d');
  }

  /** Invalidating a well-named table clears exactly the entries of that table name and dataset (of every
      dataset when none is named), and those whose dataset name itself reads like the table's key. */
  lemma TargetsIff(dbName: string, t: string, d: string, p: string, t': string, d': string)
    requires t != "" && !Contains(if Blank(dbName) then t else dbName, DOT_VEC)
    requires NoBar(t) && NoBar(p) && NoBar(t')
    ensures Targets(QualifiedShadow(dbName, t), d, CacheKey(p, t', d'))
            <==> (t' == t && (d == "" || d' == d)) || LooksLike(d', t, d)
  {
    hide QualifiedShadow, Contains, HasSuffix, CacheKey;
    ShadowLeadsBack(dbName, t);
    if d == "" {
      TableInKey(p, t', d', t);
    } else {
      SuffixInKey(p, t', d', t, d);
    }
  }

  lemma PlainDataset(d': string, t: string, d: string)
    requires NoBar(d')
    ensures !LooksLike(d', t, d)
  {
    var s := "|" + d';
    assert forall i :: 1 <= i < |s| ==> s[i] == d'[i - 1];
    if LooksLike(d', t, d) {
      var sub := "|" + t + "|" + d;
      var i := if d == "" then Index(s, "|" + t + "|") else |s| - |sub|;
      assert OccursAt(s, "|" + t + "|", i) by {
        assert sub == "|" + t + "|" + d && (d != "" ==> s[i..i + |sub|] == sub);
        assert d != "" ==> s[i..i + |sub|][..|t| + 2] == sub[..|t| + 2];
      }
      LetterAt(s, "|" + t + "|", i, |t| + 1);
    }
  }

  /** With no bar in the dataset names an invalidation clears its own entries and no others. */
  lemma TargetsExactlyIff(dbName: string, t: string, d: string, p: string, t': string, d': string)
    requires t != "" && !Contains(if Blank(dbName) then t else dbName, DOT_VEC)
    requires NoBar(t) && NoBar(p) && NoBar(t') && NoBar(d')
    ensures Targets(QualifiedShadow(dbName, t), d, CacheKey(p, t', d')) <==> t' == t && (d == "" || d' == d)
  {
    TargetsIff(dbName, t, d, p, t', d');
    PlainDataset(d', t, d);
  }

  /** A dataset named after a key of the table loses its entry with that key, whatever its own table. */
  lemma BarredDatasetIsCleared(dbName: string, t: string, d: string, p: string, t': string)
    requires t != "" && !Contains(if Blank(dbName) then t else dbName, DOT_VEC) && d != ""
    requires NoBar(t) && NoBar(p) && NoBar(t')
    ensures Targets(QualifiedShadow(dbName, t), d, CacheKey(p, t', t + "|" + d))
  {
    hide Contains, Blank, Targets, QualifiedShadow, CacheKey, NoBar;
    TargetsIff(dbName, t, d, p, t', t + "|" + d);
    KeyParts(p, t, d);
  }

  /** What stands before the first '|' and after it. */
  lemma FirstBar(s: string) returns (head: string, tail: string)
    requires !NoBar(s)
    ensures s == head + "|" + tail && NoBar(head)
    decreases |s|
  {
    if s[0] == '|' {
      head, tail := "", s[1..];
    } else {
      assert exists i :: 0 <= i < |s| && s[i] == '|';
      var i :| 0 <= i < |s| && s[i] == '|';
      assert s[1..][i - 1] == '|';
      head, tail := FirstBar(s[1..]);
      head := [s[0]] + head;
    }
  }

  /** A key read with its first two bars as the separators. */
  lemma ReadsAs(p: string, t: string, d: string) returns (p': string, t': string, d': string)
    ensures NoBar(p') && NoBar(t') && CacheKey(p', t', d') == CacheKey(p, t, d)
  {
    var key := CacheKey(p, t, d);
    assert key[|p|] == '|';
    var rest;
    p', rest := FirstBar(key);
    if NoBar(rest) {
      assert key == p + "|" + (t + "|" + d);
      assert key[|p| + 1 + |t|] == '|';
      TwoBars(key, p', rest, |p|, |p| + 1 + |t|);
      assert false;
    }
    t', d' := FirstBar(rest);
    assert p' + "|" + t' + "|" + d' == p' + "|" + (t' + "|" + d');
  }

  lemma TwoBars(key: string, head: string, tail: string, i: nat, j: nat)
    requires key == head + "|" + tail && NoBar(head) && i < j < |key| && key[i] == '|' && key[j] == '|'
    ensures !NoBar(tail)
  {
    assert forall k :: 0 <= k < |head| ==> key[k] == head[k];
    assert tail[j - |head| - 1] == key[j];
  }

  /** A key stands for one path, table and dataset only among all bar-free names exactly when its own path
      and table have no bar. */
  lemma KeyIsUnambiguousIff(p: string, t: string, d: string)
    ensures (forall p', t', d' :: NoBar(p') && NoBar(t') && CacheKey(p', t', d') == CacheKey(p, t, d)
                                  ==> p' == p && t' == t && d' == d)
            <==> NoBar(p) && NoBar(t)
  {
    if NoBar(p) && NoBar(t) {
      forall p', t', d' | NoBar(p') && NoBar(t') && CacheKey(p', t', d') == CacheKey(p, t, d)
        ensures p' == p && t' == t && d' == d
      {
        KeysSeparate(p', t', d', p, t, d);
      }
    } else {
      var p', t', d' := ReadsAs(p, t, d);
      assert p' != p || t' != t;
    }
  }

  lemma SameTail(a: string, b: string, c: string, d: string)
    requires a + b == c + d && |b| == |d|
    ensures a == c
  {
    assert (a + b)[..|a|] == a && (c + d)[..|c|] == c;
  }

  /** Distinct well-named tables have distinct shadow names. */
  lemma ShadowsSeparate(dbName: string, tableName: string, dbName': string, tableName': string)
    requires !Blank(dbName) && !Blank(dbName') && !Contains(dbName, DOT_VEC) && !Contains(dbName', DOT_VEC)
    requires QualifiedShadow(dbName, tableName) == QualifiedShadow(dbName', tableName')
    ensures dbName == dbName' && tableName == tableName'
  {
    hide Blank, Contains, TableNameFromShadow;
    QualifiedTable(dbName, tableName);
    QualifiedTable(dbName', tableName');
    SameTail(dbName + ".", VEC + tableName, dbName' + ".", VEC + tableName');
    SameTail(dbName, ".", dbName', ".");
  }

  /** What Search accepts as a table name, besides its not being blank. */
  predicate IsIdentifier(table: string) {
    forall i :: 0 <= i < |table| ==>
      'a' <= table[i] <= 'z' || 'A' <= table[i] <= 'Z' || '0' <= table[i] <= '9' || table[i] == '_'
  }

  /** Every table Search accepts is invalidated under the shadow name it reads, and its keys are its own. */
  lemma SearchedTablesAreReached(table: string, dbPath: string, dataset: string)
    requires IsIdentifier(table) && !Blank(table)
    ensures QualifiedShadow("main", table) == "main._vec_" + table
    ensures Targets("main._vec_" + table, dataset, CacheKey(dbPath, table, dataset)) && NoBar(table)
  {
    var main := "main";
    assert main[0] == 'm' && !Blank(main);
    assert main + "." + (VEC + table) == "main._vec_" + table;
    InvalidationReaches(main, table, dbPath, dataset);
  }
}
