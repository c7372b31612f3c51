/** Code-point order on strings and sorting by a string key. */
module Order {
  import opened Base

  predicate Less(a: string, b: string) {
    b != "" && (a == "" || a[0] < b[0] || (a[0] == b[0] && Less(a[1..], b[1..])))
  }

  lemma {:induction false} LessIrreflexive(a: string)
    ensures !Less(a, a)
  {
    if a != "" { LessIrreflexive(a[1..]); }
  }

  lemma {:induction false} LessTransitive(a: string, b: string, c: string)
    requires Less(a, b) && Less(b, c)
    ensures Less(a, c)
  {
    if a != "" && a[0] == b[0] == c[0] { LessTransitive(a[1..], b[1..], c[1..]); }
  }

  lemma {:induction false} LessTotal(a: string, b: string)
    ensures a == b || Less(a, b) || Less(b, a)
  {
    if a != "" && b != "" && a[0] == b[0] {
      LessTotal(a[1..], b[1..]);
      if a[1..] == b[1..] { assert a == [a[0]] + a[1..] && b == [b[0]] + b[1..]; }
    }
  }

  /** The order given by a string key. */
  function ByKey<T>(key: T -> string): (T, T) -> bool {
    (a: T, b: T) => Less(key(a), key(b))
  }

  predicate Ascending<T>(xs: seq<T>, below: (T, T) -> bool) {
    forall i, j :: 0 <= i < j < |xs| ==> below(xs[i], xs[j])
  }

  predicate Sorted<T>(xs: seq<T>, key: T -> string) {
    forall i, j :: 0 <= i < j < |xs| ==> Less(key(xs[i]), key(xs[j]))
  }

  function Insert<T>(xs: seq<T>, x: T, below: (T, T) -> bool): seq<T> {
    if xs == [] then [x]
    else if below(x, xs[0]) then [x] + xs
    else [xs[0]] + Insert(xs[1..], x, below)
  }

  /** sorted(): insertion from the left. */
  function Sort<T>(xs: seq<T>, key: T -> string): (r: seq<T>)
    ensures |r| == |xs|
  {
    if xs == [] then [] else
      var r := Sort(xs[..|xs| - 1], key);
      InsertLength(r, xs[|xs| - 1], ByKey(key));
      Insert(r, xs[|xs| - 1], ByKey(key))
  }

  lemma {:induction false} InsertLength<T>(xs: seq<T>, x: T, below: (T, T) -> bool)
    ensures |Insert(xs, x, below)| == |xs| + 1
  {
    if xs != [] { InsertLength(xs[1..], x, below); }
  }

  ghost predicate Transitive<T(!new)>(below: (T, T) -> bool) {
    forall a, b, c :: below(a, b) && below(b, c) ==> below(a, c)
  }

  /** Inserting keeps the order and adds exactly the new element. */
  lemma {:induction false} InsertSorts<T(!new)>(xs: seq<T>, x: T, below: (T, T) -> bool)
    requires Transitive(below) && Ascending(xs, below)
    requires forall i :: 0 <= i < |xs| ==> below(x, xs[i]) || below(xs[i], x)
    ensures Ascending(Insert(xs, x, below), below)
    ensures forall y :: y in Insert(xs, x, below) <==> y == x || y in xs
  {
    if xs != [] {
      var rest := xs[1..];
      assert xs == [xs[0]] + rest;
      if below(x, xs[0]) {
        assert forall j :: 0 < j < |xs| ==> below(xs[0], xs[j]);
      } else {
        assert forall i :: 0 <= i < |rest| ==> rest[i] == xs[i + 1];
        InsertSorts(rest, x, below);
        var tail := Insert(rest, x, below);
        forall y | y in tail ensures below(xs[0], y) {
          if y != x {
            var j :| 0 <= j < |rest| && rest[j] == y;
            assert y == xs[j + 1];
          }
        }
        assert forall j :: 0 <= j < |tail| ==> tail[j] in tail;
      }
    }
  }

  lemma ByKeyTransitive<T(!new)>(key: T -> string)
    ensures Transitive(ByKey(key))
  {
    forall a, b, c | Less(key(a), key(b)) && Less(key(b), key(c)) ensures Less(key(a), key(c)) {
      LessTransitive(key(a), key(b), key(c));
    }
  }

  /** The last element compares with every listed one of those before it. */
  lemma LastCompares<T(!new)>(xs: seq<T>, key: T -> string, r: seq<T>)
    requires xs != [] && DistinctBy(xs, key) && forall y :: y in r ==> y in xs[..|xs| - 1]
    ensures forall i :: 0 <= i < |r| ==> ByKey(key)(xs[|xs| - 1], r[i]) || ByKey(key)(r[i], xs[|xs| - 1])
  {
    var before, last := xs[..|xs| - 1], xs[|xs| - 1];
    forall i | 0 <= i < |r| ensures ByKey(key)(last, r[i]) || ByKey(key)(r[i], last) {
      assert r[i] in r;
      var j :| 0 <= j < |before| && before[j] == r[i];
      assert xs[j] == r[i] && key(xs[j]) != key(xs[|xs| - 1]);
      LessTotal(key(last), key(r[i]));
    }
  }

  lemma {:induction false} SortSorts<T(!new)>(xs: seq<T>, key: T -> string)
    requires DistinctBy(xs, key)
    ensures Sorted(Sort(xs, key), key)
    ensures forall y :: y in Sort(xs, key) <==> y in xs
  {
    if xs != [] {
      var before, last := xs[..|xs| - 1], xs[|xs| - 1];
      assert xs == before + [last];
      assert forall i, j :: 0 <= i < j < |before| ==> before[i] == xs[i] && before[j] == xs[j];
      SortSorts(before, key);
      LastCompares(xs, key, Sort(before, key));
      ByKeyTransitive(key);
      InsertSorts(Sort(before, key), last, ByKey(key));
    }
  }

  /** A collection with distinct keys has one sorted listing. */
  lemma {:induction false} SortedUnique<T(!new)>(xs: seq<T>, ys: seq<T>, key: T -> string)
    requires Sorted(xs, key) && Sorted(ys, key)
    requires forall z :: z in xs <==> z in ys
    ensures xs == ys
  {
    assert ys != [] ==> ys[0] in xs;
    assert xs != [] ==> xs[0] in ys;
    if xs != [] {
      HeadIsLeast(xs, ys[0], key);
      HeadIsLeast(ys, xs[0], key);
      LeastUnique(xs[0], ys[0], key);
      TailElements(xs, key);
      TailElements(ys, key);
      SortedUnique(xs[1..], ys[1..], key);
      assert xs == [xs[0]] + xs[1..] && ys == [ys[0]] + ys[1..];
    }
  }

  lemma HeadIsLeast<T>(xs: seq<T>, y: T, key: T -> string)
    requires xs != [] && Sorted(xs, key) && y in xs
    ensures y == xs[0] || Less(key(xs[0]), key(y))
  {
  }

  lemma LeastUnique<T>(x: T, y: T, key: T -> string)
    requires (y == x || Less(key(x), key(y))) && (x == y || Less(key(y), key(x)))
    ensures x == y
  {
    if x != y {
      LessTransitive(key(x), key(y), key(x));
      LessIrreflexive(key(x));
    }
  }

  lemma TailElements<T(!new)>(xs: seq<T>, key: T -> string)
    requires xs != [] && Sorted(xs, key)
    ensures forall z :: z in xs[1..] <==> z in xs && z != xs[0]
  {
    LessIrreflexive(key(xs[0]));
    assert xs == [xs[0]] + xs[1..];
    forall z | z in xs[1..] ensures z != xs[0] {
      var j :| 0 <= j < |xs[1..]| && xs[1..][j] == z;
      assert z == xs[j + 1];
    }
  }

  function Self(s: string): string {
    s
  }

  function Dedup(xs: seq<string>): (r: seq<string>)
    ensures DistinctBy(r, Self)
    ensures forall x :: x in r <==> x in xs
  {
    if xs == [] then []
    else
      var r, last := Dedup(xs[..|xs| - 1]), xs[|xs| - 1];
      assert xs == xs[..|xs| - 1] + [last];
      if last in r then r else r + [last]
  }

  /** sorted(set(paths)). */
  function SortedSet(paths: seq<string>): seq<string> {
    Sort(Dedup(paths), Self)
  }

  lemma SortedSetElements(paths: seq<string>)
    ensures Sorted(SortedSet(paths), Self)
    ensures forall x :: x in SortedSet(paths) <==> x in paths
  {
    SortSorts(Dedup(paths), Self);
  }

  /** a comes before b: at the first place where they part, a ends or has the smaller character. */
  ghost predicate Precedes(a: string, b: string) {
    exists k :: 0 <= k <= |a| && k < |b| && a[..k] == b[..k] && (k == |a| || a[k] < b[k])
  }

  /** The recursive comparison is that order. */
  lemma {:induction false} LessIsPrecedes(a: string, b: string)
    ensures Less(a, b) <==> Precedes(a, b)
  {
    if a != "" && b != "" && a[0] == b[0] {
      LessIsPrecedes(a[1..], b[1..]);
      if Precedes(a[1..], b[1..]) {
        var k :| 0 <= k <= |a[1..]| && k < |b[1..]| && a[1..][..k] == b[1..][..k]
          && (k == |a[1..]| || a[1..][k] < b[1..][k]);
        assert a[..k + 1] == [a[0]] + a[1..][..k] && b[..k + 1] == [b[0]] + b[1..][..k];
      }
      if Precedes(a, b) {
        var k :| 0 <= k <= |a| && k < |b| && a[..k] == b[..k] && (k == |a| || a[k] < b[k]);
        assert k > 0;
        assert a[1..][..k - 1] == a[..k][1..] && b[1..][..k - 1] == b[..k][1..];
      }
    } else if b != "" {
      assert a[..0] == b[..0];
      if a != "" { PrefixesPart(a, b); }
    }
  }

  lemma PrefixesPart(a: string, b: string)
    requires a != "" && b != "" && a[0] != b[0]
    ensures forall k :: 0 < k <= |a| && k <= |b| ==> a[..k] != b[..k]
  {
    forall k | 0 < k <= |a| && k <= |b| ensures a[..k] != b[..k] { assert a[..k][0] != b[..k][0]; }
  }
}
