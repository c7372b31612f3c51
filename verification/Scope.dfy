/** Which changed paths a work order may touch. */
module Scope {
  import opened Base
  import Order

  const DENIED_PREFIXES: seq<string> :=
    [".github/ai/", ".github/workflows/", "docs/governance/", "docs/evidence/automation/reviews/",
     "docs/evidence/automation/dispositions/", "scripts/ai_controller/", "tests/automation/"]

  const DENIED_FILES: seq<string> :=
    ["AGENTS.md", "CLAUDE.md", "REVIEW.md", "scripts/qf-ai-controller.py",
     "scripts/test-github-autodrive-controller.sh"]

  predicate StartsWithAny(path: string, prefixes: seq<string>) {
    exists i :: 0 <= i < |prefixes| && prefixes[i] <= path
  }

  predicate ControlPlane(location: string) {
    location in DENIED_FILES || StartsWithAny(location, DENIED_PREFIXES)
  }

  /** path.split("/"). */
  function Segments(path: string): (r: seq<string>)
    ensures |r| >= 1
  {
    if path == "" then [""]
    else
      var r := Segments(path[1..]);
      if path[0] == '/' then [""] + r else [[path[0]] + r[0]] + r[1..]
  }

  function JoinSegments(segments: seq<string>): string
    requires |segments| >= 1
  {
    if |segments| == 1 then segments[0] else segments[0] + "/" + JoinSegments(segments[1..])
  }

  predicate Proper(segment: string) {
    segment != "" && segment != "." && segment != ".."
  }

  predicate IsLetter(c: char) {
    'a' <= c <= 'z' || 'A' <= c <= 'Z'
  }

  function Normalized(path: string): string {
    if "./" <= path then path[2..] else path
  }

  predicate Rooted(path: string) {
    "/" <= path || (|path| >= 3 && IsLetter(path[0]) && path[1] == ':' && path[2] == '/')
  }

  predicate PathIsDenied(path: string) {
    || path == "" || 0 as char in path || '\\' in path
    || Rooted(path)
    || (exists i :: 0 <= i < |Segments(Normalized(path))| && !Proper(Segments(Normalized(path))[i]))
    || ControlPlane(Normalized(path))
  }

  // --------------------------------------------------------------- path resolution

  /** Full resolution below the repository root: empty and "." segments stay, ".." goes up; None escapes. */
  function Resolve(segments: seq<string>, at: seq<string>): Option<seq<string>> {
    if segments == [] then Some(at)
    else if segments[0] == "" || segments[0] == "." then Resolve(segments[1..], at)
    else if segments[0] == ".." then (if at == [] then None else Resolve(segments[1..], at[..|at| - 1]))
    else Resolve(segments[1..], at + [segments[0]])
  }

  /** The place inside the repository that a path names, if any. */
  function Location(path: string): Option<string> {
    if Rooted(path) then None
    else
      match Resolve(Segments(path), [])
      case Some(at) => if at == [] then None else Some(JoinSegments(at))
      case None => None
  }

  lemma {:induction false} SegmentsJoin(path: string)
    ensures JoinSegments(Segments(path)) == path
  {
    if path != "" {
      SegmentsJoin(path[1..]);
      var r := Segments(path[1..]);
      assert path == [path[0]] + path[1..];
      if path[0] == '/' {
        assert ([""] + r)[1..] == r;
      } else {
        var s := [[path[0]] + r[0]] + r[1..];
        assert s[1..] == r[1..];
      }
    }
  }

  lemma {:induction false} ProperResolves(segments: seq<string>, at: seq<string>)
    requires forall i :: 0 <= i < |segments| ==> Proper(segments[i])
    ensures Resolve(segments, at) == Some(at + segments)
  {
    if segments == [] {
      assert at + segments == at;
    } else {
      ProperResolves(segments[1..], at + [segments[0]]);
      assert at + [segments[0]] + segments[1..] == at + segments;
    }
  }

  lemma DotSlash(rest: string)
    ensures Segments("./" + rest) == ["."] + Segments(rest)
  {
    var path := "./" + rest;
    assert path[1..] == "/" + rest;
    assert ("/" + rest)[1..] == rest;
    assert Segments("/" + rest) == [""] + Segments(rest);
    assert ([""] + Segments(rest))[1..] == Segments(rest);
    assert "." + "" == ".";
  }

  /** A path that is not denied names the place its normalized form spells, inside the repository, and that
      place is no control-plane file and lies under no control-plane prefix. */
  lemma AllowedPathResolves(path: string)
    requires !PathIsDenied(path)
    ensures Location(path) == Some(Normalized(path)) && !ControlPlane(Normalized(path))
  {
    hide ControlPlane, Rooted;
    var n := Normalized(path);
    var segments := Segments(n);
    ProperResolves(segments, []);
    assert [] + segments == segments;
    SegmentsJoin(n);
    if "./" <= path {
      assert path == "./" + n;
      DotSlash(n);
      assert (["."] + segments)[1..] == segments;
    }
  }

  /** However a path is spelled, it is denied if it leaves the repository or names a control-plane place. */
  lemma EverySpellingDenied(path: string)
    requires Location(path).None? || ControlPlane(Location(path).value)
    ensures PathIsDenied(path)
  {
    hide Location, ControlPlane;
    if !PathIsDenied(path) { AllowedPathResolves(path); }
  }

  /** A plainly spelled relative path is denied only for a backslash, a NUL, a drive letter or a control-plane place. */
  lemma PlainPathAllowed(path: string)
    requires path != "" && '\\' !in path && 0 as char !in path && !Rooted(path)
    requires forall i :: 0 <= i < |Segments(path)| ==> Proper(Segments(path)[i])
    ensures Location(path) == Some(path)
    ensures PathIsDenied(path) <==> ControlPlane(path)
    ensures PathIsDenied("./" + path) <==> ControlPlane(path)
  {
    hide ControlPlane, Rooted;
    ProperResolves(Segments(path), []);
    assert [] + Segments(path) == Segments(path);
    SegmentsJoin(path);
    NoDotSlash(path);
    assert ("./" + path)[2..] == path;
    NotRooted(path);
    assert forall c :: c in "./" + path <==> c in "./" || c in path;
  }

  lemma NotRooted(path: string)
    ensures !Rooted("./" + path)
  {
    assert ("./" + path)[0] == '.';
  }

  lemma NoDotSlash(path: string)
    requires forall i :: 0 <= i < |Segments(path)| ==> Proper(Segments(path)[i])
    ensures !("./" <= path)
  {
    var rest := if |path| >= 2 then path[2..] else "";
    DotSlash(rest);
    assert Segments("./" + rest)[0] == ".";
    assert "./" <= path ==> path == "./" + rest;
  }

  // --------------------------------------------------------------------- the check

  function StripStars(s: string): string {
    if s != "" && s[|s| - 1] == '*' then StripStars(s[..|s| - 1]) else s
  }

  function Prefixes(items: seq<string>): (r: seq<string>)
    ensures |r| == |items| && forall i :: 0 <= i < |r| ==> r[i] == StripStars(items[i])
  {
    if items == [] then [] else [StripStars(items[0])] + Prefixes(items[1..])
  }

  function PathErrors(path: string, allowed: seq<string>, prohibited: seq<string>): seq<string> {
    (if PathIsDenied(path) then ["control-plane-denied:" + path] else [])
    + (if StartsWithAny(path, prohibited) then ["work-order-prohibited:" + path] else [])
    + (if allowed != [] && !StartsWithAny(path, allowed) then ["scope-exceeded:" + path] else [])
  }

  function ScopeErrors(paths: seq<string>, allowed: seq<string>, prohibited: seq<string>): seq<string> {
    if paths == [] then [] else PathErrors(paths[0], allowed, prohibited) + ScopeErrors(paths[1..], allowed, prohibited)
  }

  datatype Decision = Decision(state: string, accepted: bool, reasons: seq<string>, changedPaths: seq<string>)

  function ScopeDecision(changed: seq<string>, allowed: seq<string>, prohibited: seq<string>): Decision {
    var paths := Order.SortedSet(changed);
    var errors := ScopeErrors(paths, Prefixes(allowed), Prefixes(prohibited));
    Decision(if errors != [] then "qf:stopped" else "qf:manufacturing", errors == [], errors, paths)
  }

  lemma {:induction false} StepErrors(paths: seq<string>, i: nat, allowed: seq<string>, prohibited: seq<string>)
    requires i <= |paths|
    ensures ScopeErrors(paths[i..], allowed, prohibited) ==
      if i == |paths| then []
      else PathErrors(paths[i], allowed, prohibited) + ScopeErrors(paths[i + 1..], allowed, prohibited)
  {
    hide PathErrors;
    if i < |paths| { assert paths[i..][0] == paths[i] && paths[i..][1..] == paths[i + 1..]; }
  }

  lemma {:induction false} NextErrors(paths: seq<string>, i: nat, allowed: seq<string>, prohibited: seq<string>,
                   errors: seq<string>)
    requires i < |paths|
    ensures errors + ScopeErrors(paths[i..], allowed, prohibited)
      == errors + PathErrors(paths[i], allowed, prohibited) + ScopeErrors(paths[i + 1..], allowed, prohibited)
  {
    hide PathErrors, ScopeErrors;
    StepErrors(paths, i, allowed, prohibited);
  }

  /** validate_scope as it runs. */
  method ValidateScope(changed: seq<string>, allowed: seq<string>, prohibited: seq<string>) returns (d: Decision)
    ensures d == ScopeDecision(changed, allowed, prohibited)
  {
    hide PathIsDenied, StartsWithAny, Order.SortedSet, Prefixes, PathErrors, ScopeErrors;
    var allowedPrefixes, prohibitedPrefixes := Prefixes(allowed), Prefixes(prohibited);
    var errors: seq<string> := [];
    var paths := Order.SortedSet(changed);
    assert paths[0..] == paths;
    for i := 0 to |paths|
      invariant errors + ScopeErrors(paths[i..], allowedPrefixes, prohibitedPrefixes)
        == ScopeErrors(paths, allowedPrefixes, prohibitedPrefixes)
    {
      NextErrors(paths, i, allowedPrefixes, prohibitedPrefixes, errors);
      errors := CheckPath(paths[i], allowedPrefixes, prohibitedPrefixes, errors);
    }
    StepErrors(paths, |paths|, allowedPrefixes, prohibitedPrefixes);
    return Decision(if errors != [] then "qf:stopped" else "qf:manufacturing", errors == [], errors, paths);
  }

  /** The body of the loop over paths. */
  method CheckPath(path: string, allowed: seq<string>, prohibited: seq<string>, before: seq<string>)
    returns (errors: seq<string>)
    ensures errors == before + PathErrors(path, allowed, prohibited)
  {
    hide PathIsDenied;
    errors := before;
    if PathIsDenied(path) { errors := errors + ["control-plane-denied:" + path]; }
    if prohibited != [] && StartsWithAny(path, prohibited) { errors := errors + ["work-order-prohibited:" + path]; }
    if allowed != [] && !StartsWithAny(path, allowed) { errors := errors + ["scope-exceeded:" + path]; }
  }

  lemma {:induction false} NoErrors(paths: seq<string>, allowed: seq<string>, prohibited: seq<string>)
    ensures ScopeErrors(paths, allowed, prohibited) == [] <==>
      forall x :: x in paths ==> PathErrors(x, allowed, prohibited) == []
  {
    hide PathErrors;
    if paths != [] {
      NoErrors(paths[1..], allowed, prohibited);
      assert paths == [paths[0]] + paths[1..];
    }
  }

  /** Accepted exactly when each changed path, on its own, is in scope. */
  lemma AcceptedExactly(changed: seq<string>, allowed: seq<string>, prohibited: seq<string>)
    ensures ScopeDecision(changed, allowed, prohibited).accepted <==>
      forall x :: x in changed ==>
        && !PathIsDenied(x) && !StartsWithAny(x, Prefixes(prohibited))
        && (allowed != [] ==> StartsWithAny(x, Prefixes(allowed)))
  {
    hide PathIsDenied, StartsWithAny, Order.SortedSet;
    Order.SortedSetElements(changed);
    NoErrors(Order.SortedSet(changed), Prefixes(allowed), Prefixes(prohibited));
  }

  /** A union of path sets is accepted exactly when each set is. */
  lemma UnionAccepted(a: seq<string>, b: seq<string>, allowed: seq<string>, prohibited: seq<string>)
    ensures ScopeDecision(a + b, allowed, prohibited).accepted
      <==> ScopeDecision(a, allowed, prohibited).accepted && ScopeDecision(b, allowed, prohibited).accepted
  {
    hide PathIsDenied, StartsWithAny, ScopeDecision;
    AcceptedExactly(a + b, allowed, prohibited);
    AcceptedExactly(a, allowed, prohibited);
    AcceptedExactly(b, allowed, prohibited);
    assert forall x :: x in a + b <==> x in a || x in b;
  }

  /** The decision, with its reasons and listing, depends only on the set of changed paths. */
  lemma OrderIrrelevant(a: seq<string>, b: seq<string>, allowed: seq<string>, prohibited: seq<string>)
    requires forall x :: x in a <==> x in b
    ensures ScopeDecision(a, allowed, prohibited) == ScopeDecision(b, allowed, prohibited)
  {
    hide PathIsDenied, ScopeErrors;
    Order.SortedSetElements(a);
    Order.SortedSetElements(b);
    Order.SortedUnique(Order.SortedSet(a), Order.SortedSet(b), Order.Self);
  }

  /** Whatever an accepted scope touches lies inside the repository and outside the control plane. */
  lemma AcceptedScopeIsSafe(changed: seq<string>, allowed: seq<string>, prohibited: seq<string>, path: string)
    requires ScopeDecision(changed, allowed, prohibited).accepted && path in changed
    ensures Location(path) == Some(Normalized(path)) && !ControlPlane(Normalized(path))
  {
    hide PathIsDenied, ScopeDecision, StartsWithAny, Location, ControlPlane;
    AcceptedExactly(changed, allowed, prohibited);
    AllowedPathResolves(path);
  }

  // ------------------------------------------------- prohibited prefixes and "./" spellings

  /** Accepted work stays out of the prohibited places, however its paths are spelled. */
  ghost predicate KeepsOut(allowed: seq<string>, prohibited: seq<string>) {
    forall changed: seq<string>, path: string ::
      path in changed && ScopeDecision(changed, allowed, prohibited).accepted ==>
      !StartsWithAny(Normalized(path), Prefixes(prohibited))
  }

  /** The prohibition covers a place but not its "./" spelling, which nothing else refuses. */
  predicate SlipsThrough(place: string, allowed: seq<string>, prohibited: seq<string>) {
    && !PathIsDenied("./" + place) && StartsWithAny(place, Prefixes(prohibited))
    && !StartsWithAny("./" + place, Prefixes(prohibited))
    && (allowed != [] ==> StartsWithAny("./" + place, Prefixes(allowed)))
  }

  /** Prefixes are compared with the path as it is spelled, so an accepted path lies in a prohibited place exactly when
      it begins with "./" and the prohibition covers the rest. */
  lemma ProhibitedPlace(changed: seq<string>, allowed: seq<string>, prohibited: seq<string>,
                        path: string)
    requires ScopeDecision(changed, allowed, prohibited).accepted && path in changed
    ensures StartsWithAny(Normalized(path), Prefixes(prohibited)) <==>
      "./" <= path && SlipsThrough(path[2..], allowed, prohibited)
  {
    hide PathIsDenied, ScopeDecision, StartsWithAny;
    AcceptedExactly(changed, allowed, prohibited);
    if "./" <= path { assert path == "./" + path[2..]; }
  }

  /** The lists keep accepted work out of the prohibited places exactly when no place slips through. */
  lemma KeepsOutExactly(allowed: seq<string>, prohibited: seq<string>)
    ensures KeepsOut(allowed, prohibited) <==> forall place: string :: !SlipsThrough(place, allowed, prohibited)
  {
    hide PathIsDenied, ScopeDecision, StartsWithAny, SlipsThrough;
    if forall place: string :: !SlipsThrough(place, allowed, prohibited) {
      forall changed: seq<string>, path: string | path in changed
        && ScopeDecision(changed, allowed, prohibited).accepted
        ensures !StartsWithAny(Normalized(path), Prefixes(prohibited))
      {
        ProhibitedPlace(changed, allowed, prohibited, path);
      }
    }
    forall place: string | SlipsThrough(place, allowed, prohibited) ensures !KeepsOut(allowed, prohibited) {
      SlippedIn(place, allowed, prohibited);
    }
  }

  lemma SlippedIn(place: string, allowed: seq<string>, prohibited: seq<string>)
    requires SlipsThrough(place, allowed, prohibited)
    ensures !KeepsOut(allowed, prohibited)
  {
    hide PathIsDenied, ScopeDecision, StartsWithAny;
    var path := "./" + place;
    AcceptedExactly([path], allowed, prohibited);
    assert path in [path] && path[2..] == place;
  }

  lemma PlainPrefix(prefix: string, place: string)
    requires !(prefix <= "./") && !("./" <= prefix)
    ensures !(prefix <= "./" + place)
  {
  }

  /** A list of allowed prefixes keeps them out if none of them is a beginning or a continuation of "./". */
  lemma PlainAllowedKeepsOut(allowed: seq<string>, prohibited: seq<string>)
    requires allowed != []
    requires forall i :: 0 <= i < |allowed| ==> !(StripStars(allowed[i]) <= "./") && !("./" <= StripStars(allowed[i]))
    ensures KeepsOut(allowed, prohibited)
  {
    hide PathIsDenied, KeepsOut;
    KeepsOutExactly(allowed, prohibited);
    forall place: string ensures !SlipsThrough(place, allowed, prohibited) {
      forall i | 0 <= i < |allowed| ensures !(Prefixes(allowed)[i] <= "./" + place) {
        PlainPrefix(StripStars(allowed[i]), place);
      }
    }
  }

  /** Without such a list they need not: "./x" is accepted although everything beginning with "x" is prohibited. */
  lemma DotSlashSlipsThrough()
    ensures ScopeDecision(["./x"], [], ["x"]).accepted && Normalized("./x") == "x"
      && StartsWithAny("x", Prefixes(["x"]))
    ensures !KeepsOut([], ["x"])
  {
    hide PathIsDenied, ScopeDecision, KeepsOut, StripStars;
    XSlipsThrough();
    assert "./" + "x" == "./x";
    AcceptedExactly(["./x"], [], ["x"]);
    SlippedIn("x", [], ["x"]);
  }

  lemma XSlipsThrough()
    ensures SlipsThrough("x", [], ["x"]) && Prefixes(["x"])[0] == "x"
  {
    hide ControlPlane;
    assert "x"[1..] == "" && Segments("") == [""];
    assert ['x'] + "" == "x" && [""][1..] == [];
    assert Segments("x") == ["x"];
    XIsPlain();
    PlainPathAllowed("x");
    var prefixes := Prefixes(["x"]);
    assert StripStars("x") == "x";
    assert prefixes[0] == "x";
    assert ("./x")[0] == '.' && !("x" <= "./x");
  }

  lemma XIsPlain()
    ensures !ControlPlane("x")
  {
  }
}
