/** Public search: LIKE escaping against plain containment, and the ordered page both stores return. */
module Search {
  import opened Base
  import opened Text
  import opened Domain
  import Mem = MemoryStore
  import Order
  import Pg = Tables
  import opened Agreement

  // ---------------------------------------------------------------- escaping

  /** string.Replace for a one-character pattern. */
  function Replace(s: string, c: char, put: string): string {
    if s == "" then "" else (if s[0] == c then put else [s[0]]) + Replace(s[1..], c, put)
  }

  /** Backslash first, then percent, then underscore. */
  function EscapeLike(s: string): string {
    Replace(Replace(Replace(s, '\\', "\\\\"), '%', "\\%"), '_', "\\_")
  }

  predicate Special(c: char) {
    c == '\\' || c == '%' || c == '_'
  }

  /** Escaping every special character in one pass. */
  function Escaped(s: string): string {
    if s == "" then "" else (if Special(s[0]) then ['\\', s[0]] else [s[0]]) + Escaped(s[1..])
  }

  lemma {:induction false} ReplaceConcat(a: string, b: string, c: char, put: string)
    ensures Replace(a + b, c, put) == Replace(a, c, put) + Replace(b, c, put)
  {
    if a == "" {
      assert a + b == b;
    } else {
      var head, rest := if a[0] == c then put else [a[0]], a[1..];
      ReplaceConcat(rest, b, c, put);
      assert (a + b)[0] == a[0] && (a + b)[1..] == rest + b;
      assert head + (Replace(rest, c, put) + Replace(b, c, put)) == head + Replace(rest, c, put) + Replace(b, c, put);
    }
  }

  lemma ReplaceShort(x: char, y: char, c: char, put: string)
    ensures Replace([x], c, put) == if x == c then put else [x]
    ensures Replace([x, y], c, put) == (if x == c then put else [x]) + (if y == c then put else [y])
  {
    assert [x][1..] == "";
    assert [x, y][1..] == [y];
    assert [y][1..] == "";
  }

  /** The three sequential replacements do not disturb each other. */
  lemma {:induction false} EscapeLikeIsOnePass(s: string)
    ensures EscapeLike(s) == Escaped(s)
  {
    if s != "" {
      var c, rest := s[0], s[1..];
      EscapeLikeIsOnePass(rest);
      var one := if c == '\\' then "\\\\" else [c];
      var first := Replace(rest, '\\', "\\\\");
      assert Replace(s, '\\', "\\\\") == one + first;
      ReplaceConcat(one, first, '%', "\\%");
      ReplaceShort('\\', '\\', '%', "\\%");
      ReplaceShort(c, c, '%', "\\%");
      var two := if c == '%' then "\\%" else one;
      assert Replace(one, '%', "\\%") == two;
      ReplaceConcat(two, Replace(first, '%', "\\%"), '_', "\\_");
      ReplaceShort('\\', '\\', '_', "\\_");
      ReplaceShort('\\', '%', '_', "\\_");
      ReplaceShort(c, c, '_', "\\_");
      assert Replace(two, '_', "\\_") == if Special(c) then ['\\', c] else [c];
    }
  }

  // ---------------------------------------------------------------- matching

  /** ILIKE with backslash as escape, under a case fold: '%' is any text, '_' any character. */
  predicate Like(text: string, pattern: string, fold: char -> char)
    decreases |pattern|
  {
    if pattern == "" then text == ""
    else if pattern[0] == '%' then exists k :: 0 <= k <= |text| && Like(text[k..], pattern[1..], fold)
    else if pattern[0] == '_' then text != "" && Like(text[1..], pattern[1..], fold)
    else if pattern[0] == '\\' then
      |pattern| >= 2 && text != "" && fold(text[0]) == fold(pattern[1]) && Like(text[1..], pattern[2..], fold)
    else text != "" && fold(text[0]) == fold(pattern[0]) && Like(text[1..], pattern[1..], fold)
  }

  predicate SameFolded(a: string, b: string, fold: char -> char) {
    |a| == |b| && forall i :: 0 <= i < |a| ==> fold(a[i]) == fold(b[i])
  }

  predicate OccursAt(text: string, query: string, i: int, fold: char -> char) {
    0 <= i <= |text| - |query| && SameFolded(text[i..i + |query|], query, fold)
  }

  /** string.Contains ignoring case. */
  predicate Contains(text: string, query: string, fold: char -> char) {
    exists i | 0 <= i <= |text| :: OccursAt(text, query, i, fold)
  }

  lemma LikePercent(text: string, fold: char -> char)
    ensures Like(text, "%", fold)
  {
    assert text[|text|..] == "";
    assert "%"[1..] == "";
    assert Like(text[|text|..], "", fold);
  }

  /** An escaped query followed by '%' matches exactly the texts that begin with the query. */
  lemma {:induction false} LikeEscapedPrefix(text: string, query: string, fold: char -> char)
    ensures Like(text, Escaped(query) + "%", fold) <==> |query| <= |text| && SameFolded(text[..|query|], query, fold)
    decreases |query|
  {
    var pattern := Escaped(query) + "%";
    if query == "" {
      assert pattern == "%";
      LikePercent(text, fold);
    } else {
      var tail := Escaped(query[1..]) + "%";
      if Special(query[0]) {
        assert pattern == ['\\', query[0]] + tail;
        assert pattern[2..] == tail;
      } else {
        assert pattern == [query[0]] + tail;
        assert pattern[1..] == tail;
      }
      if text != "" {
        LikeEscapedPrefix(text[1..], query[1..], fold);
        if |query| <= |text| {
          assert text[..|query|][1..] == text[1..][..|query| - 1];
          PrefixByHead(text[..|query|], query, fold);
        }
      }
    }
  }

  lemma PrefixByHead(a: string, b: string, fold: char -> char)
    requires a != "" && b != ""
    ensures SameFolded(a, b, fold) <==> fold(a[0]) == fold(b[0]) && SameFolded(a[1..], b[1..], fold)
  {
    if fold(a[0]) == fold(b[0]) && SameFolded(a[1..], b[1..], fold) {
      assert forall i :: 1 <= i < |a| ==> a[i] == a[1..][i - 1] && b[i] == b[1..][i - 1];
    }
    if SameFolded(a, b, fold) {
      assert forall i :: 0 <= i < |a| - 1 ==> a[1..][i] == a[i + 1] && b[1..][i] == b[i + 1];
    }
  }

  /** For every text and query, %EscapeLike(query)% under LIKE is plain containment. */
  lemma LikeIsContains(text: string, query: string, fold: char -> char)
    ensures Like(text, "%" + EscapeLike(query) + "%", fold) <==> Contains(text, query, fold)
  {
    EscapeLikeIsOnePass(query);
    var tail := Escaped(query) + "%";
    var pattern := "%" + Escaped(query) + "%";
    assert pattern == "%" + tail;
    assert pattern[1..] == tail;
    if Like(text, pattern, fold) {
      var k :| 0 <= k <= |text| && Like(text[k..], tail, fold);
      LikeEscapedPrefix(text[k..], query, fold);
      assert text[k..][..|query|] == text[k..k + |query|];
      assert OccursAt(text, query, k, fold);
    }
    if Contains(text, query, fold) {
      var k :| 0 <= k <= |text| && OccursAt(text, query, k, fold);
      assert text[k..][..|query|] == text[k..k + |query|];
      LikeEscapedPrefix(text[k..], query, fold);
      assert Like(text[k..], pattern[1..], fold);
    }
  }

  // ----------------------------------------------------------------- filters

  datatype Query = Query(tenantId: Guid, text: Option<string>, tag: Option<string>, limit: int)

  /** The LINQ filter: an absent or blank text or tag does not restrict. */
  predicate MemorySelects(s: Snapshot, q: Query, fold: char -> char) {
    && s.tenantId == q.tenantId && s.status == Published
    && (q.text.None? || IsBlank(Trim(q.text.value))
        || (var text := Trim(q.text.value);
            || Contains(s.title, text, fold) || Contains(s.body, text, fold)
            || exists i :: 0 <= i < |s.tags| && Contains(s.tags[i], text, fold)))
    && (q.tag.None? || IsBlank(Trim(q.tag.value))
        || exists i :: 0 <= i < |s.tags| && SameFolded(s.tags[i], Trim(q.tag.value), fold))
  }

  function Normalized(text: Option<string>): string {
    if text.None? then "" else Trim(text.value)
  }

  /** The WHERE clause: empty parameters do not restrict. */
  predicate SqlSelects(s: Snapshot, q: Query, fold: char -> char) {
    var text := Normalized(q.text);
    var pattern := "%" + EscapeLike(text) + "%";
    && s.tenantId == q.tenantId && s.status == Published
    && (text == "" || Like(s.title, pattern, fold) || Like(s.body, pattern, fold)
        || exists i :: 0 <= i < |s.tags| && Like(s.tags[i], pattern, fold))
    && (Normalized(q.tag) == ""
        || exists i :: 0 <= i < |s.tags| && SameFolded(s.tags[i], Normalized(q.tag), fold))
  }

  lemma FiltersAgree(s: Snapshot, q: Query, fold: char -> char)
    ensures SqlSelects(s, q, fold) <==> MemorySelects(s, q, fold)
  {
    var text := Normalized(q.text);
    LikeIsContains(s.title, text, fold);
    LikeIsContains(s.body, text, fold);
    forall i | 0 <= i < |s.tags|
      ensures Like(s.tags[i], "%" + EscapeLike(text) + "%", fold) <==> Contains(s.tags[i], text, fold)
    {
      LikeIsContains(s.tags[i], text, fold);
    }
    if q.text.Some? { TrimBlank(q.text.value); }
    if q.tag.Some? { TrimBlank(q.tag.value); }
  }

  // ------------------------------------------------------------------- pages

  /** Newest publication first, ties by id. */
  predicate Before(a: Snapshot, b: Snapshot) {
    var p, q := PublishedKey(a), PublishedKey(b);
    p > q || (p == q && a.id < b.id)
  }

  function PublishedKey(s: Snapshot): int {
    if s.publishedAt.Some? then s.publishedAt.value else -1
  }

  predicate Ascending(r: seq<Snapshot>) {
    Order.Ascending(r, Before)
  }

  /** The first k candidates in order. */
  ghost predicate IsPage(r: seq<Snapshot>, candidates: set<Snapshot>, k: nat) {
    && Ascending(r) && |r| <= k
    && (forall i :: 0 <= i < |r| ==> r[i] in candidates)
    && forall x :: x in candidates && x !in r ==> |r| == k && forall i :: 0 <= i < |r| ==> Before(r[i], x)
  }

  lemma {:induction false} PagesAgreeAt(r: seq<Snapshot>, s: seq<Snapshot>, c: set<Snapshot>, k: nat, i: nat)
    requires IsPage(r, c, k) && IsPage(s, c, k) && i < |r| && i < |s|
    ensures r[i] == s[i]
    decreases i
  {
    forall j | 0 <= j < i ensures r[j] == s[j] { PagesAgreeAt(r, s, c, k, j); }
    LaterComesAfter(r, s, c, k, i);
    LaterComesAfter(s, r, c, k, i);
  }

  lemma LaterComesAfter(r: seq<Snapshot>, s: seq<Snapshot>, c: set<Snapshot>, k: nat, i: nat)
    requires IsPage(r, c, k) && IsPage(s, c, k) && i < |r| && i < |s|
    requires forall j :: 0 <= j < i ==> r[j] == s[j]
    ensures r[i] == s[i] || Before(s[i], r[i])
  {
    assert forall j :: 0 <= j < i ==> Before(r[j], r[i]);
    if r[i] in s {
      var j :| 0 <= j < |s| && s[j] == r[i];
      assert j >= i;
    }
  }

  /** A set of candidates has one page. */
  lemma PageUnique(r: seq<Snapshot>, s: seq<Snapshot>, c: set<Snapshot>, k: nat)
    requires IsPage(r, c, k) && IsPage(s, c, k)
    ensures r == s
  {
    forall i | 0 <= i < |r| && i < |s| ensures r[i] == s[i] { PagesAgreeAt(r, s, c, k, i); }
    PageNoShorter(r, s, c, k);
    PageNoShorter(s, r, c, k);
  }

  lemma PageNoShorter(r: seq<Snapshot>, s: seq<Snapshot>, c: set<Snapshot>, k: nat)
    requires IsPage(r, c, k) && IsPage(s, c, k)
    requires forall i :: 0 <= i < |r| && i < |s| ==> r[i] == s[i]
    ensures |s| <= |r|
  {
    if |r| < |s| { FullPage(r, s, c, k); }
  }

  /** A page that leaves something out is full. */
  lemma FullPage(r: seq<Snapshot>, s: seq<Snapshot>, c: set<Snapshot>, k: nat)
    requires IsPage(r, c, k) && Ascending(s) && |r| < |s| && forall i :: 0 <= i < |s| ==> s[i] in c
    requires forall i :: 0 <= i < |r| ==> r[i] == s[i]
    ensures |r| == k
  {
    var x := s[|r|];
    forall j | 0 <= j < |r| ensures r[j] != x {
      assert Before(s[j], s[|r|]);
    }
    assert x in c && x !in r;
  }

  predicate DistinctIds(rows: seq<Snapshot>) {
    DistinctBy(rows, (s: Snapshot) => s.id)
  }

  /** The first k of an ordered list of all candidates is the page. */
  lemma TakeIsPage(sorted: seq<Snapshot>, candidates: set<Snapshot>, k: nat)
    requires Ascending(sorted) && forall y :: y in sorted <==> y in candidates
    ensures IsPage(if |sorted| <= k then sorted else sorted[..k], candidates, k)
  {
    var r := if |sorted| <= k then sorted else sorted[..k];
    forall x | x in candidates && x !in r ensures |r| == k && forall i :: 0 <= i < |r| ==> Before(r[i], x) {
      var j :| 0 <= j < |sorted| && sorted[j] == x;
      assert forall l :: 0 <= l < |r| ==> r[l] == sorted[l];
      assert j >= |r|;
    }
  }

  function Clamp(n: int, low: nat, high: nat): nat
    requires low <= high
  {
    if n < low then low else if n > high then high else n
  }

  /** How many results a request may get. */
  function PageSize(limit: int): nat {
    Clamp(limit, 1, 50)
  }

  lemma BeforeTransitive()
    ensures Order.Transitive(Before)
  {
  }

  /** Filter and order: what both engines do with the rows. */
  method OrderedRows(rows: seq<Snapshot>, keep: Snapshot -> bool) returns (sorted: seq<Snapshot>)
    requires DistinctIds(rows)
    ensures Ascending(sorted) && forall s :: s in sorted <==> s in rows && keep(s)
  {
    sorted := [];
    BeforeTransitive();
    for i := 0 to |rows|
      invariant Ascending(sorted)
      invariant forall s :: s in sorted <==> s in rows[..i] && keep(s)
    {
      assert forall s :: s in rows[..i] ==> s.id != rows[i].id;
      if keep(rows[i]) {
        assert forall j :: 0 <= j < |sorted| ==> sorted[j] in sorted && sorted[j].id != rows[i].id;
        Order.InsertSorts(sorted, rows[i], Before);
        sorted := Order.Insert(sorted, rows[i], Before);
      }
      assert rows[..i + 1] == rows[..i] + [rows[i]];
    }
    assert rows[..|rows|] == rows;
  }

  /** The LINQ query over the dictionary's values. */
  method SearchPublic(values: seq<Snapshot>, q: Query, fold: char -> char) returns (page: seq<Snapshot>)
    requires DistinctIds(values)
    ensures IsPage(page, (set s | s in values && MemorySelects(s, q, fold)), PageSize(q.limit))
  {
    hide MemorySelects;
    var k := PageSize(q.limit);
    var sorted := OrderedRows(values, s => MemorySelects(s, q, fold));
    page := if |sorted| <= k then sorted else sorted[..k];
    TakeIsPage(sorted, (set s | s in values && MemorySelects(s, q, fold)), k);
  }

  /** The SQL query over the table's rows: a cursor that is read row by row into a list, up to the limit. */
  method SearchPublicAsync(rows: seq<Snapshot>, q: Query, fold: char -> char) returns (results: seq<Snapshot>)
    requires DistinctIds(rows)
    ensures IsPage(results, (set s | s in rows && SqlSelects(s, q, fold)), PageSize(q.limit))
  {
    hide SqlSelects;
    var k := PageSize(q.limit);
    var cursor := OrderedRows(rows, s => SqlSelects(s, q, fold));
    results := [];
    while |results| < k && |results| < |cursor|
      invariant |results| <= k && results <= cursor
    {
      results := results + [cursor[|results|]];
    }
    assert results == if |cursor| <= k then cursor else cursor[..k];
    TakeIsPage(cursor, (set s | s in rows && SqlSelects(s, q, fold)), k);
  }

  /** Whatever order the dictionary and the table list their rows in, a page the in-memory query
      returns and a page the SQL query returns over agreeing stores are the same list. */
  lemma SearchesAgree(
    m: Mem.State, db: Pg.Db, values: seq<Snapshot>, rows: seq<Snapshot>, q: Query, fold: char -> char,
    r: seq<Snapshot>, s: seq<Snapshot>)
    requires Agree(m, db)
    requires forall x :: x in values <==> x in m.questions.Values
    requires forall x :: x in rows <==> exists id :: id in db.questions && db.questions[id].data == x
    requires IsPage(r, (set x | x in values && MemorySelects(x, q, fold)), PageSize(q.limit))
    requires IsPage(s, (set x | x in rows && SqlSelects(x, q, fold)), PageSize(q.limit))
    ensures r == s
  {
    var mine := set x | x in values && MemorySelects(x, q, fold);
    var theirs := set x | x in rows && SqlSelects(x, q, fold);
    forall x ensures x in mine <==> x in theirs {
      FiltersAgree(x, q, fold);
      if x in values {
        var id :| id in m.questions && m.questions[id] == x;
        assert db.questions[id].data == x;
      }
      if x in rows {
        var id :| id in db.questions && db.questions[id].data == x;
        assert m.questions[id] == x;
      }
    }
    assert mine == theirs;
    PageUnique(r, s, mine, PageSize(q.limit));
  }
}
