/** The scope check over the entries as they are given: which paths it refuses and with which reasons. */
module ScopeLaws {
  import opened Scope
  import Order

  // ------------------------------------------------------------------ entries

  /** The entry is a prefix of the path, apart from the stars it ends in. */
  ghost predicate Covers(entry: string, path: string) {
    exists prefix: string :: StarredFrom(entry, prefix) && prefix <= path
  }

  /** The entry is this prefix and then only stars, and the prefix ends in none. */
  ghost predicate StarredFrom(entry: string, prefix: string) {
    && prefix <= entry && (forall i :: |prefix| <= i < |entry| ==> entry[i] == '*')
    && (prefix != "" ==> prefix[|prefix| - 1] != '*')
  }

  ghost predicate Covered(path: string, entries: seq<string>) {
    exists i :: 0 <= i < |entries| && Covers(entries[i], path)
  }

  lemma {:induction false} StripStarsIs(entry: string)
    ensures StarredFrom(entry, StripStars(entry))
  {
    if entry != "" && entry[|entry| - 1] == '*' { StripStarsIs(entry[..|entry| - 1]); }
  }

  lemma OnePrefix(entry: string, a: string, b: string)
    requires StarredFrom(entry, a) && StarredFrom(entry, b)
    ensures a == b
  {
    assert b != "" ==> b[|b| - 1] == entry[|b| - 1];
    assert a != "" ==> a[|a| - 1] == entry[|a| - 1];
    assert a == entry[..|a|] && b == entry[..|b|];
  }

  lemma CoversIs(entry: string, path: string)
    ensures Covers(entry, path) <==> StripStars(entry) <= path
  {
    hide StarredFrom;
    StripStarsIs(entry);
    forall prefix | StarredFrom(entry, prefix) ensures prefix == StripStars(entry) {
      OnePrefix(entry, prefix, StripStars(entry));
    }
  }

  lemma CoveredIs(path: string, entries: seq<string>)
    ensures Covered(path, entries) <==> StartsWithAny(path, Prefixes(entries))
  {
    hide Covers, StripStars;
    forall i | 0 <= i < |entries| ensures Covers(entries[i], path) <==> Prefixes(entries)[i] <= path {
      CoversIs(entries[i], path);
    }
  }

  /** An entry that ends in two stars covers exactly the paths that begin with what stands before them. */
  lemma TwoStarsCover(prefix: string, path: string)
    requires prefix != "" ==> prefix[|prefix| - 1] != '*'
    ensures Covers(prefix + "**", path) <==> prefix <= path
  {
    hide Covers;
    var entry := prefix + "**";
    assert StarredFrom(entry, prefix);
    CoversIs(entry, path);
    StripStarsIs(entry);
    OnePrefix(entry, prefix, StripStars(entry));
  }

  // ------------------------------------------------------------------ denied paths

  /** The segment stands somewhere in the path, between slashes or its ends. */
  ghost predicate HasSegment(path: string, segment: string) {
    exists i: nat, j: nat :: SegmentAt(path, segment, i, j)
  }

  ghost predicate SegmentAt(path: string, segment: string, i: nat, j: nat) {
    && i <= j <= |path| && path[i..j] == segment && '/' !in segment
    && (i == 0 || path[i - 1] == '/') && (j == |path| || path[j] == '/')
  }

  ghost predicate InControlPlane(location: string) {
    || location in ["AGENTS.md", "CLAUDE.md", "REVIEW.md", "scripts/qf-ai-controller.py",
                    "scripts/test-github-autodrive-controller.sh"]
    || ".github/ai/" <= location || ".github/workflows/" <= location || "docs/governance/" <= location
    || "docs/evidence/automation/reviews/" <= location || "docs/evidence/automation/dispositions/" <= location
    || "scripts/ai_controller/" <= location || "tests/automation/" <= location
  }

  /** Empty, with a NUL or a backslash, rooted, with an empty or dotted segment, or in the control plane. */
  ghost predicate Denied(path: string) {
    || path == "" || (exists i :: 0 <= i < |path| && (path[i] == '\\' || path[i] as int == 0))
    || path[0] == '/'
    || (|path| >= 3 && path[1] == ':' && path[2] == '/' && ('a' <= path[0] <= 'z' || 'A' <= path[0] <= 'Z'))
    || var rest := if |path| >= 2 && path[0] == '.' && path[1] == '/' then path[2..] else path;
       HasSegment(rest, "") || HasSegment(rest, ".") || HasSegment(rest, "..") || InControlPlane(rest)
  }

  lemma AtNext(path: string, segment: string, i: nat, j: nat)
    requires path != ""
    ensures SegmentAt(path, segment, i + 1, j + 1) <==>
      (i > 0 || path[0] == '/') && SegmentAt(path[1..], segment, i, j)
  {
    if i <= j < |path| { assert path[i + 1..j + 1] == path[1..][i..j]; }
  }

  ghost predicate First(path: string, segment: string) {
    exists j: nat :: SegmentAt(path, segment, 0, j)
  }

  ghost predicate Later(path: string, segment: string) {
    exists i: nat, j: nat :: i > 0 && SegmentAt(path, segment, i, j)
  }

  lemma {:induction false} LaterIs(path: string, segment: string)
    requires path != ""
    ensures Later(path, segment) <==> Later(path[1..], segment) || (path[0] == '/' && First(path[1..], segment))
  {
    hide SegmentAt;
    if i: nat, j: nat :| i > 0 && SegmentAt(path, segment, i, j) {
      AtLeast(path, segment, i, j);
      AtNext(path, segment, i - 1, j - 1);
    }
    if i: nat, j: nat :| i > 0 && SegmentAt(path[1..], segment, i, j) { AtNext(path, segment, i, j); }
    if path[0] == '/' {
      if j: nat :| SegmentAt(path[1..], segment, 0, j) {
        AtNext(path, segment, 0, j);
        assert SegmentAt(path, segment, 1, j + 1);
      }
    }
  }

  lemma AtLeast(path: string, segment: string, i: nat, j: nat)
    requires SegmentAt(path, segment, i, j)
    ensures i <= j
  {
  }

  lemma SegmentHead(path: string, segment: string, j: nat)
    requires SegmentAt(path, segment, 0, j)
    ensures segment != "" ==> path != "" && path[0] != '/'
  {
    if segment != "" { assert segment[0] == path[0] && segment[0] in segment; }
  }

  lemma FirstOfSlash(path: string, segment: string)
    requires path != "" && path[0] == '/'
    ensures First(path, segment) <==> segment == ""
  {
    assert SegmentAt(path, "", 0, 0);
    if j: nat :| SegmentAt(path, segment, 0, j) { SegmentHead(path, segment, j); }
  }

  lemma FirstOfOther(path: string, segment: string)
    requires path != "" && path[0] != '/'
    ensures First(path, segment) <==> segment != "" && segment[0] == path[0] && First(path[1..], segment[1..])
  {
    if j: nat :| SegmentAt(path, segment, 0, j) {
      assert segment[1..] == path[1..][0..j - 1];
      assert SegmentAt(path[1..], segment[1..], 0, j - 1);
    }
    if segment != "" && segment[0] == path[0] {
      if j: nat :| SegmentAt(path[1..], segment[1..], 0, j) {
        assert path[0..j + 1] == [path[0]] + path[1..][0..j];
        assert SegmentAt(path, segment, 0, j + 1);
      }
    }
  }

  lemma {:induction false} SegmentsAre(path: string, segment: string)
    ensures First(path, segment) <==> segment == Segments(path)[0]
    ensures Later(path, segment) <==> segment in Segments(path)[1..]
    decreases path
  {
    hide SegmentAt, First, Later;
    if path == "" {
      OnlyEmpty(segment);
    } else {
      var rest := path[1..];
      var r := Segments(rest);
      LaterIs(path, segment);
      SegmentsAre(rest, segment);
      assert r == [r[0]] + r[1..];
      if path[0] == '/' {
        FirstOfSlash(path, segment);
        assert Segments(path)[1..] == r;
      } else {
        FirstOfOther(path, segment);
        assert Segments(path)[1..] == r[1..];
        if segment != "" {
          SegmentsAre(rest, segment[1..]);
          assert segment == [segment[0]] + segment[1..];
        }
      }
    }
  }

  lemma OnlyEmpty(segment: string)
    ensures First("", segment) <==> segment == ""
    ensures !Later("", segment)
  {
    assert SegmentAt("", "", 0, 0);
  }

  /** Splitting at the slashes gives exactly the segments that stand between them. */
  lemma SegmentsStand(path: string, segment: string)
    ensures segment in Segments(path) <==> HasSegment(path, segment)
  {
    hide SegmentAt;
    SegmentsAre(path, segment);
    assert Segments(path) == [Segments(path)[0]] + Segments(path)[1..];
    if i: nat, j: nat :| SegmentAt(path, segment, i, j) { assert First(path, segment) || Later(path, segment); }
  }

  lemma ControlPlaneIs(location: string)
    ensures ControlPlane(location) <==> InControlPlane(location)
  {
    if ControlPlane(location) && location !in DENIED_FILES {
      var i :| 0 <= i < |DENIED_PREFIXES| && DENIED_PREFIXES[i] <= location;
    }
    if InControlPlane(location) && location !in DENIED_FILES {
      assert DENIED_PREFIXES[0] <= location || DENIED_PREFIXES[1] <= location || DENIED_PREFIXES[2] <= location
        || DENIED_PREFIXES[3] <= location || DENIED_PREFIXES[4] <= location || DENIED_PREFIXES[5] <= location
        || DENIED_PREFIXES[6] <= location;
    }
  }

  lemma AllProper(path: string)
    ensures (exists i :: 0 <= i < |Segments(path)| && !Proper(Segments(path)[i]))
      <==> HasSegment(path, "") || HasSegment(path, ".") || HasSegment(path, "..")
  {
    hide HasSegment, Segments;
    SegmentsStand(path, "");
    SegmentsStand(path, ".");
    SegmentsStand(path, "..");
    if segment :| segment in Segments(path) && !Proper(segment) {
      var i :| 0 <= i < |Segments(path)| && Segments(path)[i] == segment;
    }
  }

  /** The check denies exactly those paths. */
  lemma DeniedExactly(path: string)
    ensures PathIsDenied(path) <==> Denied(path)
  {
    hide HasSegment, Segments, ControlPlane, InControlPlane;
    AllProper(Normalized(path));
    ControlPlaneIs(Normalized(path));
  }

  // ------------------------------------------------------------------ the decision

  /** Refused for the first, second or third reason the check looks at. */
  ghost predicate Refused(path: string, kind: nat, allowed: seq<string>, prohibited: seq<string>) {
    match kind
    case 0 => Denied(path)
    case 1 => Covered(path, prohibited)
    case 2 => allowed != [] && !Covered(path, allowed)
    case _ => false
  }

  function ReasonText(path: string, kind: nat): string
    requires kind < 3
  {
    (match kind case 0 => "control-plane-denied:" case 1 => "work-order-prohibited:" case 2 => "scope-exceeded:") + path
  }

  lemma ReasonTextInjective(p: string, k: nat, q: string, l: nat)
    requires k < 3 && l < 3 && ReasonText(p, k) == ReasonText(q, l)
    ensures p == q && k == l
  {
    var a, b := ReasonText(p, k), ReasonText(q, l);
    assert a[0] == (match k case 0 => 'c' case 1 => 'w' case 2 => 's');
    assert b[0] == (match l case 0 => 'c' case 1 => 'w' case 2 => 's');
    assert p == a[|a| - |p|..] && q == b[|b| - |q|..];
  }

  lemma PathReasons(path: string, allowed: seq<string>, prohibited: seq<string>)
    ensures PathErrors(path, Prefixes(allowed), Prefixes(prohibited)) ==
      (if Refused(path, 0, allowed, prohibited) then [ReasonText(path, 0)] else [])
      + (if Refused(path, 1, allowed, prohibited) then [ReasonText(path, 1)] else [])
      + (if Refused(path, 2, allowed, prohibited) then [ReasonText(path, 2)] else [])
  {
    hide PathIsDenied, Denied, StartsWithAny, Covered;
    DeniedExactly(path);
    CoveredIs(path, allowed);
    CoveredIs(path, prohibited);
  }

  function Reasons(paths: seq<string>, allowed: seq<string>, prohibited: seq<string>): seq<string> {
    ScopeErrors(paths, Prefixes(allowed), Prefixes(prohibited))
  }

  lemma OwnReasons(path: string, allowed: seq<string>, prohibited: seq<string>, p: string, k: nat)
    requires k < 3
    ensures ReasonText(p, k) in PathErrors(path, Prefixes(allowed), Prefixes(prohibited))
      <==> p == path && Refused(path, k, allowed, prohibited)
  {
    hide PathErrors, Refused, ReasonText;
    PathReasons(path, allowed, prohibited);
    forall l: nat | l < 3 && ReasonText(p, k) == ReasonText(path, l) ensures p == path && k == l {
      ReasonTextInjective(p, k, path, l);
    }
  }

  lemma {:induction false} ReasonsIn(paths: seq<string>, allowed: seq<string>, prohibited: seq<string>, p: string,
                                     k: nat)
    requires k < 3
    ensures ReasonText(p, k) in Reasons(paths, allowed, prohibited)
      <==> p in paths && Refused(p, k, allowed, prohibited)
  {
    hide PathErrors, Refused, ReasonText;
    if paths != [] {
      OwnReasons(paths[0], allowed, prohibited, p, k);
      ReasonsIn(paths[1..], allowed, prohibited, p, k);
      assert paths == [paths[0]] + paths[1..];
    }
  }

  /** The reasons for a path are among those of the decision exactly when the path was changed and is refused so. */
  lemma ReasonsExactly(changed: seq<string>, allowed: seq<string>, prohibited: seq<string>, path: string, kind: nat)
    requires kind < 3
    ensures ReasonText(path, kind) in ScopeDecision(changed, allowed, prohibited).reasons
      <==> path in changed && Refused(path, kind, allowed, prohibited)
  {
    hide Refused, ReasonText, Order.SortedSet, ScopeErrors;
    Order.SortedSetElements(changed);
    ReasonsIn(Order.SortedSet(changed), allowed, prohibited, path, kind);
  }

  /** Reason a comes before reason b: its path does, or it is the earlier reason for the same path. */
  ghost predicate Earlier(a: string, b: string) {
    exists p: string, k: nat, q: string, l: nat ::
      k < 3 && l < 3 && a == ReasonText(p, k) && b == ReasonText(q, l) && (Order.Precedes(p, q) || (p == q && k < l))
  }

  /** A text is one of the reasons for the path. */
  ghost predicate ReasonOf(text: string, path: string) {
    exists k: nat :: k < 3 && text == ReasonText(path, k)
  }

  /** A text is a reason for one of the paths. */
  ghost predicate ReasonFor(text: string, paths: seq<string>) {
    exists p: string :: p in paths && ReasonOf(text, p)
  }

  lemma PathReasonsOrdered(path: string, allowed: seq<string>, prohibited: seq<string>) returns (r: seq<string>)
    ensures r == PathErrors(path, Prefixes(allowed), Prefixes(prohibited))
    ensures forall i :: 0 <= i < |r| ==> ReasonOf(r[i], path)
    ensures forall i, j :: 0 <= i < j < |r| ==> Earlier(r[i], r[j])
  {
    hide PathErrors, Refused, ReasonText, Order.Precedes;
    PathReasons(path, allowed, prohibited);
    r := PathErrors(path, Prefixes(allowed), Prefixes(prohibited));
    assert ReasonOf(ReasonText(path, 0), path) && ReasonOf(ReasonText(path, 1), path)
      && ReasonOf(ReasonText(path, 2), path);
    assert Earlier(ReasonText(path, 0), ReasonText(path, 1));
    assert Earlier(ReasonText(path, 0), ReasonText(path, 2));
    assert Earlier(ReasonText(path, 1), ReasonText(path, 2));
  }

  lemma MoreReasons(text: string, some: seq<string>, all: seq<string>)
    requires ReasonFor(text, some) && forall p :: p in some ==> p in all
    ensures ReasonFor(text, all)
  {
  }

  lemma {:induction false} ReasonsForPaths(paths: seq<string>, allowed: seq<string>, prohibited: seq<string>)
    ensures forall text :: text in Reasons(paths, allowed, prohibited) ==> ReasonFor(text, paths)
  {
    hide PathErrors, ReasonOf;
    if paths != [] {
      ReasonsForPaths(paths[1..], allowed, prohibited);
      var a := PathReasonsOrdered(paths[0], allowed, prohibited);
      assert paths == [paths[0]] + paths[1..];
      forall text | text in Reasons(paths, allowed, prohibited) ensures ReasonFor(text, paths) {
        if text in a {
          var i :| 0 <= i < |a| && a[i] == text;
          assert ReasonOf(a[i], paths[0]);
        } else {
          MoreReasons(text, paths[1..], paths);
        }
      }
    }
  }

  lemma {:induction false} ReasonsOrdered(paths: seq<string>, allowed: seq<string>, prohibited: seq<string>)
    requires forall i, j :: 0 <= i < j < |paths| ==> Order.Precedes(paths[i], paths[j])
    ensures var r := Reasons(paths, allowed, prohibited); forall i, j :: 0 <= i < j < |r| ==> Earlier(r[i], r[j])
  {
    hide PathErrors, ReasonText, Order.Precedes, Earlier, ReasonOf;
    if paths != [] {
      var rest := paths[1..];
      ReasonsOrdered(rest, allowed, prohibited);
      ReasonsForPaths(rest, allowed, prohibited);
      var a := PathReasonsOrdered(paths[0], allowed, prohibited);
      var b := Reasons(rest, allowed, prohibited);
      forall i, j | 0 <= i < |a| && 0 <= j < |b| ensures Earlier(a[i], b[j]) {
        assert b[j] in b;
        EarlierPath(paths, a[i], b[j]);
      }
      var r := Reasons(paths, allowed, prohibited);
      assert r == a + b;
      assert forall i :: 0 <= i < |a| ==> r[i] == a[i];
      assert forall i :: |a| <= i < |r| ==> r[i] == b[i - |a|];
    }
  }

  lemma EarlierPath(paths: seq<string>, a: string, b: string)
    requires forall i, j :: 0 <= i < j < |paths| ==> Order.Precedes(paths[i], paths[j])
    requires paths != [] && ReasonFor(b, paths[1..])
    requires ReasonOf(a, paths[0])
    ensures Earlier(a, b)
  {
    hide ReasonText, Order.Precedes;
    var k: nat :| k < 3 && a == ReasonText(paths[0], k);
    var q: string :| q in paths[1..] && ReasonOf(b, q);
    var l: nat :| l < 3 && b == ReasonText(q, l);
    var j :| 0 <= j < |paths[1..]| && paths[1..][j] == q;
    assert Order.Precedes(paths[0], paths[j + 1]);
  }

  /** The decision: the changed paths in ascending order, each once; the reasons in their order; and acceptance
      exactly when no changed path is refused. */
  lemma DecidesExactly(changed: seq<string>, allowed: seq<string>, prohibited: seq<string>)
    ensures var d := ScopeDecision(changed, allowed, prohibited);
      && (forall x :: x in d.changedPaths <==> x in changed)
      && (forall i, j :: 0 <= i < j < |d.changedPaths| ==> Order.Precedes(d.changedPaths[i], d.changedPaths[j]))
      && (forall text :: text in d.reasons ==> ReasonFor(text, changed))
      && (forall i, j :: 0 <= i < j < |d.reasons| ==> Earlier(d.reasons[i], d.reasons[j]))
      && (d.accepted <==> forall x, k: nat :: x in changed ==> !Refused(x, k, allowed, prohibited))
      && d.state == (if d.accepted then "qf:manufacturing" else "qf:stopped")
  {
    hide Refused, ReasonText, Order.SortedSet, ScopeErrors, Order.Precedes, Earlier;
    Order.SortedSetElements(changed);
    var paths := Order.SortedSet(changed);
    forall i, j | 0 <= i < j < |paths| ensures Order.Precedes(paths[i], paths[j]) {
      Order.LessIsPrecedes(paths[i], paths[j]);
    }
    ReasonsOrdered(paths, allowed, prohibited);
    ReasonsForPaths(paths, allowed, prohibited);
    forall text | text in Reasons(paths, allowed, prohibited) ensures ReasonFor(text, changed) {
      MoreReasons(text, paths, changed);
    }
    NoneRefused(changed, allowed, prohibited);
  }

  lemma NoneRefused(changed: seq<string>, allowed: seq<string>, prohibited: seq<string>)
    ensures ScopeDecision(changed, allowed, prohibited).accepted
      <==> forall x, k: nat :: x in changed ==> !Refused(x, k, allowed, prohibited)
  {
    hide ScopeDecision, PathIsDenied, StartsWithAny, Prefixes, Denied, Covered;
    AcceptedExactly(changed, allowed, prohibited);
    forall x | x in changed
      ensures (PathIsDenied(x) <==> Refused(x, 0, allowed, prohibited))
        && (StartsWithAny(x, Prefixes(prohibited)) <==> Refused(x, 1, allowed, prohibited))
        && (allowed != [] && !StartsWithAny(x, Prefixes(allowed)) <==> Refused(x, 2, allowed, prohibited))
    {
      DeniedExactly(x);
      CoveredIs(x, allowed);
      CoveredIs(x, prohibited);
    }
  }
}
