/** The review gate and the bounded retry loop. */
module ReviewLoop {
  import opened Base
  import opened Text
  import opened Json
  import opened Schema
  import opened Instance
  import opened Record

  const PROTOCOL := "QF-AI-COLLAB-v5"

  type Fields = seq<Member>

  /** isinstance(v, dict) else {}. */
  function Dict(v: Json): Fields {
    if v.Obj? then v.members else []
  }

  /** The dictionaries in a list, in order. */
  function Dicts(items: seq<Json>): seq<Fields> {
    if items == [] then [] else (if items[0].Obj? then [items[0].members] else []) + Dicts(items[1..])
  }

  /** [item for item in d.get(key, []) if isinstance(item, dict)], or [] unless it is a list. */
  function DictList(ms: Fields, key: string): seq<Fields> {
    match Get(ms, key) case Some(Arr(items)) => Dicts(items) case _ => []
  }

  predicate Is(ms: Fields, key: string, text: string) {
    Get(ms, key) == Some(Str(text))
  }

  predicate IsTruth(ms: Fields, key: string, truth: bool) {
    Get(ms, key) == Some(Bool(truth))
  }

  predicate HasText(ms: Fields, key: string) {
    Get(ms, key).Some? && Get(ms, key).value.Str?
  }

  function TextAt(ms: Fields, key: string): string
    requires HasText(ms, key)
  {
    Get(ms, key).value.text
  }

  /** Python equality: True is 1 and False is 0, at every depth. */
  predicate PyEqual(v: Json, w: Json)
    decreases v
  {
    match v
    case Bool(b) => w == v || w == Int(if b then 1 else 0)
    case Int(n) => w == v || (w == Bool(true) && n == 1) || (w == Bool(false) && n == 0)
    case Arr(xs) => w.Arr? && |xs| == |w.items| && forall i :: 0 <= i < |xs| ==> PyEqual(xs[i], w.items[i])
    case Obj(ms) =>
      && w.Obj? && KeysIn(ms, w.members) && KeysIn(w.members, ms)
      && forall i, j :: 0 <= i < |ms| && 0 <= j < |w.members| && ms[i].key == w.members[j].key ==>
           PyEqual(ms[i].value, w.members[j].value)
    case _ => v == w
  }

  predicate FindingId(s: string) {
    && |s| == 16 && s[..11] == "AUTO-IMPL-P" && '0' <= s[11] <= '3' && s[12] == '-'
    && IsDigit(s[13]) && IsDigit(s[14]) && IsDigit(s[15])
  }

  datatype Input = Input(
    request: Json, review: Json, head: string, tree: string, checksGreen: bool, exitCode: int, driftAllowed: bool,
    expectedDefault: Option<string>)

  /** The two approved schemas, regular expressions, the hash and the gate registry. */
  datatype Setup = Setup(requestSchema: Json, reviewSchema: Json, env: Env, sha256: Digest, registry: set<string>)

  predicate Loaded(s: Setup) {
    Sound(s.requestSchema, s.env.compiles) && Sound(s.reviewSchema, s.env.compiles)
  }

  // ------------------------------------------------------------------ the twenty gates

  function Findings(review: Json): seq<Fields> {
    DictList(Dict(review), "findings")
  }

  function Candidates(request: Json): seq<Fields> {
    DictList(Dict(request), "fix_candidates")
  }

  function EligibleIds(request: Json): seq<string> {
    match Get(Dict(request), "eligible_finding_ids")
    case Some(Arr(items)) => if AllText(items) then Texts(items) else []
    case _ => []
  }

  predicate Coverage(review: Fields) {
    && (match Get(review, "coverage")
        case Some(Obj(ms)) => Has(ms, "files_read") && Has(ms, "checks_confirmed") && Has(ms, "review_areas")
        case _ => false)
    && Has(review, "unverified")
  }

  predicate RequestShape(request: Fields, errors: seq<string>) {
    && errors == [] && Is(request, "protocol", PROTOCOL)
    && Is(request, "schema_version", "review-request.schema.json@1")
    && (match Get(request, "pr_number") case Some(Int(n)) => n >= 1 case Some(Bool(b)) => b case _ => false)
    && HexField(request, "head_sha", 40).Some?
  }

  predicate ReviewShape(request: Fields, review: Fields, errors: seq<string>) {
    && errors == [] && Is(review, "protocol", PROTOCOL)
    && Is(review, "schema_version", "technical-review.schema.json@3")
    && Is(review, "role", "claude_reviewer")
    && PyEqual(GetValue(review, "work_order_id"), GetValue(request, "work_order_id"))
    && HexField(review, "default_branch_sha", 40).Some?
  }

  predicate DecisionConsistent(review: Fields, findings: seq<Fields>) {
    || (Is(review, "decision", "PASS") && findings == [] && IsTruth(review, "blocking", false))
    || (Is(review, "decision", "PASS_WITH_FINDINGS") && findings != [] && IsTruth(review, "blocking", false))
    || (Is(review, "decision", "FAIL") && IsTruth(review, "blocking", true))
  }

  predicate ModeConsistent(request: Json, review: Fields) {
    var ms := Dict(request);
    || (&& Is(ms, "expected_review_mode", "INITIAL") && Is(review, "review_mode", "INITIAL")
        && GetValue(ms, "prior_review_artifact_sha256") == Null && EligibleIds(request) == []
        && Candidates(request) == [])
    || (&& Is(ms, "expected_review_mode", "REVERIFY") && Is(review, "review_mode", "REVERIFY")
        && HexField(ms, "prior_review_artifact_sha256", 64).Some? && EligibleIds(request) != []
        && Candidates(request) != [])
  }

  predicate FindingShape(item: Fields) {
    && HasText(item, "id") && FindingId(TextAt(item, "id"))
    && HasText(item, "severity") && TextAt(item, "severity") in ["P0", "P1", "P2", "P3"]
    && (set m | m in item :: m.key)
       == {"id", "severity", "verification_status", "disposition", "path", "evidence", "risk", "required_change",
         "residual_risk"}
  }

  predicate FindingsShape(findings: seq<Fields>) {
    && (forall i :: 0 <= i < |findings| ==> FindingShape(findings[i]))
    && forall i, j :: 0 <= i < j < |findings| ==> TextAt(findings[i], "id") != TextAt(findings[j], "id")
  }

  predicate StatusAllowed(request: Fields, item: Fields) {
    Is(item, "verification_status", "OPEN")
    || (!Is(request, "expected_review_mode", "INITIAL") && Is(item, "verification_status", "VERIFIED"))
  }

  predicate IsVerified(item: Fields) {
    Is(item, "verification_status", "VERIFIED")
  }

  /** The candidate that a dictionary keyed by finding_id keeps: the last with its id. */
  predicate Kept(candidates: seq<Fields>, i: nat) {
    && i < |candidates| && HasText(candidates[i], "finding_id")
    && forall j :: i < j < |candidates| && HasText(candidates[j], "finding_id") ==>
         TextAt(candidates[j], "finding_id") != TextAt(candidates[i], "finding_id")
  }

  predicate AtHead(candidate: Fields, head: string) {
    Is(candidate, "candidate_sha", head) && HexField(candidate, "record_sha256", 64).Some?
  }

  predicate Addressed(id: string, eligible: seq<string>, candidates: seq<Fields>) {
    id in eligible && exists j :: 0 <= j < |candidates| && Is(candidates[j], "finding_id", id)
  }

  predicate FixesConsistent(request: Json, findings: seq<Fields>, head: string) {
    && (forall i :: 0 <= i < |findings| && IsVerified(findings[i]) && HasText(findings[i], "id") ==>
          Addressed(TextAt(findings[i], "id"), EligibleIds(request), Candidates(request)))
    && forall i :: 0 <= i < |Candidates(request)| && Kept(Candidates(request), i) ==>
      AtHead(Candidates(request)[i], head)
  }

  predicate Severe(item: Fields) {
    HasText(item, "severity") && (TextAt(item, "severity") == "P0" || TextAt(item, "severity") == "P1")
  }

  predicate NoUnresolved(findings: seq<Fields>) {
    forall i :: 0 <= i < |findings| && Severe(findings[i]) ==> IsVerified(findings[i])
  }

  predicate DefaultBranchMatches(review: Fields, expected: Option<string>) {
    expected.Some? ==> Is(review, "default_branch_sha", expected.value)
  }

  function GateName(n: nat): string
    requires 1 <= n <= 20
  {
    "REV-GATE-0" + [DigitChar(n / 10), DigitChar(n % 10)]
  }

  /** All gates green or red, in gate order. */
  function Gates(x: Input, s: Setup, requestErrors: seq<string>, reviewErrors: seq<string>): (g: seq<bool>)
    ensures |g| == 20
  {
    var request, review, findings := Dict(x.request), Dict(x.review), Findings(x.review);
    [x.exitCode == 0,
     review != [],
     Is(review, "reviewed_commit_sha", x.head),
     Is(request, "tree_sha", x.tree) && Is(review, "reviewed_tree_sha", x.tree),
     x.checksGreen,
     Coverage(review),
     RequestShape(request, requestErrors),
     ReviewShape(request, review, reviewErrors),
     DecisionConsistent(review, findings),
     ModeConsistent(x.request, review),
     Is(review, "review_request_sha256", ContentHash(Obj(request), s.sha256)),
     FindingsShape(findings),
     forall i :: 0 <= i < |findings| ==> StatusAllowed(request, findings[i]),
     FixesConsistent(x.request, findings, x.head),
     forall i :: 0 <= i < |findings| ==> !Is(findings[i], "verification_status", "CLOSED"),
     forall i :: 0 <= i < |findings| ==> Is(findings[i], "disposition", "UNDECIDED"),
     NoUnresolved(findings) || IsTruth(review, "blocking", true),
     Is(request, "head_sha", x.head) && Is(review, "reviewed_commit_sha", x.head),
     x.driftAllowed && DefaultBranchMatches(review, x.expectedDefault),
     s.registry == (set n | 1 <= n <= 20 :: GateName(n))]
  }

  function RedFrom(g: seq<bool>, n: nat): seq<string>
    requires |g| == 20 && n <= 20
    decreases 20 - n
  {
    if n == 20 then [] else (if g[n] then [] else [GateName(n + 1)]) + RedFrom(g, n + 1)
  }

  datatype Decision = Decision(state: string, accepted: bool, reasons: seq<string>)

  /** validate_review_gate; None when a schema check raises. */
  function ReviewGate(x: Input, s: Setup): Option<Decision>
    requires Loaded(s)
  {
    var requestReport := Validate(x.request, s.requestSchema, [], s.env);
    var reviewReport := Validate(if x.review == Null then Obj([]) else x.review, s.reviewSchema, [], s.env);
    if requestReport.Crashed? || reviewReport.Crashed? then None
    else
      var reasons := RedFrom(Gates(x, s, requestReport.list, reviewReport.list), 0);
      var state :=
        if reasons != [] then "qf:stopped"
        else if !NoUnresolved(Findings(x.review)) || Findings(x.review) != [] then "qf:changes-requested"
        else "qf:review-green";
      Some(Decision(state, reasons == [], reasons))
  }

  // --------------------------------------------------------------------- the loop

  datatype Answer = Yes | No | Raises

  /** Whether one entry is an unresolved P0 or P1; a non-dictionary or an unhashable severity raises. */
  function Unresolved(item: Json): Answer {
    if !item.Obj? then Raises
    else
      match Get(item.members, "severity")
      case Some(Arr(_)) => Raises
      case Some(Obj(_)) => Raises
      case _ => if Severe(item.members) && !IsVerified(item.members) then Yes else No
  }

  /** any(...), which stops at the first hit. */
  function AnyUnresolved(items: seq<Json>): Answer {
    if items == [] then No
    else match Unresolved(items[0]) case No => AnyUnresolved(items[1..]) case a => a
  }

  /** review.get("findings", []): what the loop iterates over, unless iterating or reading an entry raises. */
  function Iterated(review: Json): Option<seq<Json>> {
    if !review.Obj? then None
    else
      match Get(review.members, "findings")
      case None => Some([])
      case Some(Arr(items)) => Some(items)
      case Some(Str(s)) => if s == "" then Some([]) else None
      case Some(Obj(ms)) => if ms == [] then Some([]) else None
      case _ => None
  }

  function PhaseLimit(phase: string): nat {
    if phase == "B" then 1 else if phase == "C" then 3 else 0
  }

  function Min(a: int, b: int): int {
    if a < b then a else b
  }

  datatype Round = Round(review: Json, previousPatch: string, patch: string, budgetExceeded: bool)

  datatype Move = Move(decision: Decision, iteration: int)

  /** loop_transition; None when it raises. An absent patch hash is the empty text. */
  function Transition(r: Round, phase: string, iteration: int, maxIterations: int): Option<Move> {
    match Iterated(r.review)
    case None => None
    case Some(findings) =>
      var answer := AnyUnresolved(findings);
      if answer.Raises? then None
      else
        var reasons :=
          (if r.budgetExceeded || iteration > maxIterations then ["STOP-020"] else [])
          + (if r.patch != "" && r.previousPatch != "" && r.patch == r.previousPatch then ["STOP-018"] else [])
          + (if answer.Yes? then ["STOP-001"] else []);
        if reasons != [] then Some(Move(Decision("qf:stopped", false, reasons), iteration))
        else if findings == [] then Some(Move(Decision("qf:organizer-acceptance", true, []), iteration))
        else if phase == "A" || iteration >= Min(PhaseLimit(phase), maxIterations) then
          Some(Move(Decision("qf:changes-requested", true, ["human-return"]), iteration))
        else Some(Move(Decision("qf:manufacturing", true, ["bounded-retry"]), iteration + 1))
  }

  /** loop_transition as it builds its list of reasons. */
  method LoopTransition(r: Round, phase: string, iteration: int, maxIterations: int) returns (move: Option<Move>)
    ensures move == Transition(r, phase, iteration, maxIterations)
  {
    var iterated := Iterated(r.review);
    if iterated.None? { return None; }
    var findings := iterated.value;
    var reasons: seq<string> := [];
    if r.budgetExceeded || iteration > maxIterations {
      reasons := reasons + ["STOP-020"];
    }
    if r.patch != "" && r.previousPatch != "" && r.patch == r.previousPatch {
      reasons := reasons + ["STOP-018"];
    }
    var i := 0;
    var found := false;
    while i < |findings| && !found
      invariant i <= |findings|
      invariant AnyUnresolved(findings) == if found then Yes else AnyUnresolved(findings[i..])
      decreases |findings| - i, !found
    {
      assert findings[i..][0] == findings[i] && findings[i..][1..] == findings[i + 1..];
      var answer := Unresolved(findings[i]);
      if answer.Raises? { return None; }
      found := answer.Yes?;
      i := i + 1;
    }
    assert findings[i..] == [] || found;
    if found {
      reasons := reasons + ["STOP-001"];
    }
    assert reasons ==
      (if r.budgetExceeded || iteration > maxIterations then ["STOP-020"] else [])
      + (if r.patch != "" && r.previousPatch != "" && r.patch == r.previousPatch then ["STOP-018"] else [])
      + (if found then ["STOP-001"] else []);
    if reasons != [] { return Some(Move(Decision("qf:stopped", false, reasons), iteration)); }
    if findings == [] { return Some(Move(Decision("qf:organizer-acceptance", true, []), iteration)); }
    var permitted := PhaseLimit(phase);
    if phase == "A" || iteration >= Min(permitted, maxIterations) {
      return Some(Move(Decision("qf:changes-requested", true, ["human-return"]), iteration));
    }
    return Some(Move(Decision("qf:manufacturing", true, ["bounded-retry"]), iteration + 1));
  }

  // --------------------------------------------------------------------- the budget

  predicate PositiveInt(v: Json) {
    v.Int? && v.number > 0
  }

  /** WO-PRE-014: booleans are no integers here. */
  predicate BudgetAllowed(budget: Fields) {
    && GetValue(budget, "max_iterations").Int? && 0 <= GetValue(budget, "max_iterations").number <= 3
    && PositiveInt(GetValue(budget, "max_wall_minutes")) && PositiveInt(GetValue(budget, "max_openai_tokens"))
    && PositiveInt(GetValue(budget, "max_anthropic_tokens")) && PositiveInt(GetValue(budget, "max_actions_minutes"))
  }

  // ------------------------------------------------------------- what the gate saw

  lemma {:induction false} RedIsEmpty(g: seq<bool>, n: nat, k: nat)
    requires |g| == 20 && n <= k < 20 && RedFrom(g, n) == []
    ensures g[k]
    decreases 20 - n
  {
    if n < k { RedIsEmpty(g, n + 1, k); }
  }

  /** The review speaks of this head, this tree and this request. */
  ghost predicate Bound(x: Input, sha256: Digest) {
    var request, review := Dict(x.request), Dict(x.review);
    && Is(review, "reviewed_commit_sha", x.head) && Is(request, "head_sha", x.head)
    && Is(request, "tree_sha", x.tree) && Is(review, "reviewed_tree_sha", x.tree)
    && Is(review, "review_request_sha256", ContentHash(Obj(request), sha256))
    && x.exitCode == 0 && x.checksGreen && x.driftAllowed && DefaultBranchMatches(review, x.expectedDefault)
  }

  ghost predicate GatesPassed(x: Input) {
    var request, review, findings := Dict(x.request), Dict(x.review), Findings(x.review);
    && review != [] && DecisionConsistent(review, findings) && ModeConsistent(x.request, review)
    && FindingsShape(findings) && FixesConsistent(x.request, findings, x.head)
    && (forall i :: 0 <= i < |findings| ==> StatusAllowed(request, findings[i]))
    && (NoUnresolved(findings) || IsTruth(review, "blocking", true))
  }

  lemma GreenGates(x: Input, s: Setup, requestErrors: seq<string>, reviewErrors: seq<string>)
    requires forall k :: 0 <= k < 20 ==> Gates(x, s, requestErrors, reviewErrors)[k]
    ensures GatesPassed(x) && Bound(x, s.sha256)
  {
    hide DecisionConsistent, ModeConsistent, FindingsShape, FixesConsistent, StatusAllowed, NoUnresolved, Coverage;
    hide RequestShape, ReviewShape, GateName, Is, IsTruth, DefaultBranchMatches, ContentHash, Findings, Dict;
    var g := Gates(x, s, requestErrors, reviewErrors);
    assert g[1] && g[8] && g[9];
    assert g[11] && g[12] && g[13] && g[16];
    assert g[0] && g[2] && g[3] && g[4];
    assert g[10] && g[17] && g[18];
  }

  /** What an accepted gate guarantees: the review is bound to head, tree and request, and its findings,
      decision, mode and fixes are consistent. */
  lemma AcceptedGate(x: Input, s: Setup)
    requires Loaded(s) && ReviewGate(x, s).Some? && ReviewGate(x, s).value.accepted
    ensures GatesPassed(x) && Bound(x, s.sha256)
  {
    hide Validate, Gates, Sound, RedFrom, GatesPassed, Bound;
    var requestReport := Validate(x.request, s.requestSchema, [], s.env);
    var reviewReport := Validate(if x.review == Null then Obj([]) else x.review, s.reviewSchema, [], s.env);
    var g := Gates(x, s, requestReport.list, reviewReport.list);
    forall k | 0 <= k < 20 ensures g[k] { RedIsEmpty(g, 0, k); }
    GreenGates(x, s, requestReport.list, reviewReport.list);
  }

  /** One accepted review fits one request, up to the order of keys, as long as their texts do not collide. */
  lemma ReviewFitsOneRequest(x: Input, y: Input, s: Setup)
    requires Loaded(s) && x.review == y.review
    requires ReviewGate(x, s).Some? && ReviewGate(x, s).value.accepted
    requires ReviewGate(y, s).Some? && ReviewGate(y, s).value.accepted
    requires WellFormed(Obj(Dict(x.request))) && WellFormed(Obj(Dict(y.request)))
    requires var a, b := CanonicalJson(Obj(Dict(x.request))), CanonicalJson(Obj(Dict(y.request)));
      s.sha256(a) == s.sha256(b) ==> a == b
    ensures Same(Obj(Dict(x.request)), Obj(Dict(y.request))) && x.head == y.head && x.tree == y.tree
  {
    hide ReviewGate, GatesPassed, Get, CanonicalJson, Same, WellFormed, DefaultBranchMatches;
    AcceptedGate(x, s);
    AcceptedGate(y, s);
    CanonicalJsonDecidesSame(Obj(Dict(x.request)), Obj(Dict(y.request)));
  }

  lemma GateNamesDiffer(m: nat, n: nat)
    requires 1 <= m <= 20 && 1 <= n <= 20 && GateName(m) == GateName(n)
    ensures m == n
  {
    var a, b := GateName(m), GateName(n);
    assert a[10] == DigitChar(m / 10) && b[10] == DigitChar(n / 10);
    assert a[11] == DigitChar(m % 10) && b[11] == DigitChar(n % 10);
    assert DigitValue(a[10]) == m / 10 && DigitValue(b[10]) == n / 10;
    assert DigitValue(a[11]) == m % 10 && DigitValue(b[11]) == n % 10;
  }

  /** The reasons name exactly the red gates. */
  lemma {:induction false} ReasonsNameRedGates(g: seq<bool>, n: nat, k: nat)
    requires |g| == 20 && n <= 20 && 1 <= k <= 20
    ensures GateName(k) in RedFrom(g, n) <==> k > n && !g[k - 1]
    decreases 20 - n
  {
    hide GateName;
    if n < 20 {
      ReasonsNameRedGates(g, n + 1, k);
      if GateName(k) == GateName(n + 1) { GateNamesDiffer(k, n + 1); }
    }
  }

  /** A fix for the finding was recorded, at the head under review. */
  ghost predicate FixedAtHead(x: Input, id: string) {
    && Is(Dict(x.request), "expected_review_mode", "REVERIFY")
    && id in EligibleIds(x.request)
    && exists j :: 0 <= j < |Candidates(x.request)| && Is(Candidates(x.request)[j], "finding_id", id)
         && AtHead(Candidates(x.request)[j], x.head)
  }

  /** The last candidate with an id is the one the dictionary keeps. */
  lemma {:induction false} LastIsKept(candidates: seq<Fields>, id: string, j: nat) returns (k: nat)
    requires j < |candidates| && Is(candidates[j], "finding_id", id)
    ensures Kept(candidates, k) && Is(candidates[k], "finding_id", id)
    decreases |candidates| - j
  {
    hide Get;
    if Kept(candidates, j) {
      k := j;
    } else {
      var l :| j < l < |candidates| && HasText(candidates[l], "finding_id")
        && TextAt(candidates[l], "finding_id") == id;
      k := LastIsKept(candidates, id, l);
    }
  }

  /** A finding an accepted gate saw as VERIFIED was fixed at the current head, in a re-verification. */
  lemma VerifiedWasFixed(x: Input, s: Setup, i: nat)
    requires Loaded(s) && ReviewGate(x, s).Some? && ReviewGate(x, s).value.accepted
    requires i < |Findings(x.review)| && IsVerified(Findings(x.review)[i])
    ensures HasText(Findings(x.review)[i], "id") && FixedAtHead(x, TextAt(Findings(x.review)[i], "id"))
  {
    hide ReviewGate, Get, Findings, Candidates, EligibleIds, AtHead, DecisionConsistent, NoUnresolved;
    AcceptedGate(x, s);
    var item := Findings(x.review)[i];
    assert FindingShape(item);
    var id := TextAt(item, "id");
    assert StatusAllowed(Dict(x.request), item);
    assert Addressed(id, EligibleIds(x.request), Candidates(x.request));
    var j :| 0 <= j < |Candidates(x.request)| && Is(Candidates(x.request)[j], "finding_id", id);
    var k := LastIsKept(Candidates(x.request), id, j);
  }

  lemma {:induction false} DictsOfDictionaries(items: seq<Json>, i: nat)
    requires i < |items| && forall k :: 0 <= k < |items| ==> items[k].Obj?
    ensures |Dicts(items)| == |items| && Dicts(items)[i] == items[i].members
  {
    if |items| > 1 { DictsOfDictionaries(items[1..], if i == 0 then 0 else i - 1); }
  }

  lemma {:induction false} NoneUnresolved(items: seq<Json>)
    requires AnyUnresolved(items) == No
    ensures forall i :: 0 <= i < |items| ==> Unresolved(items[i]) == No
  {
    hide Unresolved;
    if items != [] {
      NoneUnresolved(items[1..]);
      assert forall i :: 0 < i < |items| ==> items[i] == items[1..][i - 1];
    }
  }

  /** After an accepted gate, the loop lets a P0 or P1 finding pass only if the gate saw it VERIFIED, in a
      re-verification, with a fix candidate at the current head. */
  lemma SeverePassesOnlyFixed(x: Input, s: Setup, r: Round, phase: string, iteration: int, maxIterations: int, i: nat)
    requires Loaded(s) && ReviewGate(x, s).Some? && ReviewGate(x, s).value.accepted
    requires r.review == x.review
    requires Transition(r, phase, iteration, maxIterations).Some?
    requires Transition(r, phase, iteration, maxIterations).value.decision.state != "qf:stopped"
    requires i < |Iterated(x.review).value|
    ensures var item := Iterated(x.review).value[i];
      && item.Obj?
      && (Severe(item.members) ==> HasText(item.members, "id") && FixedAtHead(x, TextAt(item.members, "id")))
  {
    hide ReviewGate, Get, FixedAtHead, Severe, IsVerified;
    var items := Iterated(x.review).value;
    NoneUnresolved(items);
    assert forall k :: 0 <= k < |items| ==> Unresolved(items[k]) == No;
    DictsOfDictionaries(items, i);
    IteratedIsFindings(x.review);
    if Severe(items[i].members) { VerifiedWasFixed(x, s, i); }
  }

  lemma IteratedIsFindings(review: Json)
    requires Iterated(review).Some?
    ensures Findings(review) == Dicts(Iterated(review).value)
  {
  }

  /** The loop hands a review to acceptance exactly when nothing stops it and its findings are empty. */
  lemma AcceptanceMeansNoFindings(r: Round, phase: string, iteration: int, maxIterations: int)
    requires Transition(r, phase, iteration, maxIterations).Some?
    ensures Transition(r, phase, iteration, maxIterations).value.decision.state == "qf:organizer-acceptance" <==>
      && Iterated(r.review) == Some([]) && !r.budgetExceeded && iteration <= maxIterations
      && !(r.patch != "" && r.patch == r.previousPatch)
  {
    hide Iterated, Unresolved;
  }

  /** A green gate has no findings; its decision is PASS exactly when it is not blocking, and otherwise FAIL. */
  lemma GreenMeansNoFindings(x: Input, s: Setup)
    requires Loaded(s) && ReviewGate(x, s).Some?
    ensures var d := ReviewGate(x, s).value; var review := Dict(x.review);
      && (d.state == "qf:review-green" <==> d.accepted && Findings(x.review) == [])
      && (d.state == "qf:review-green" ==>
            && (Is(review, "decision", "PASS") <==> IsTruth(review, "blocking", false))
            && (Is(review, "decision", "FAIL") <==> IsTruth(review, "blocking", true))
            && (Is(review, "decision", "PASS") || Is(review, "decision", "FAIL")))
  {
    hide Validate, Findings, Gates, RedFrom, Get, Sound;
    if ReviewGate(x, s).value.accepted {
      AcceptedGate(x, s);
    }
  }

  lemma {:induction false} DictsCount(items: seq<Json>)
    requires forall k :: 0 <= k < |items| ==> items[k].Obj?
    ensures |Dicts(items)| == |items|
  {
    if items != [] {
      assert forall k :: 0 < k < |items| ==> items[k] == items[1..][k - 1];
      DictsCount(items[1..]);
    }
  }

  /** After an accepted gate, unless something stops it, the loop reaches acceptance exactly when the gate was green. */
  lemma AcceptanceIsGreen(x: Input, s: Setup, r: Round, phase: string, iteration: int, maxIterations: int)
    requires Loaded(s) && ReviewGate(x, s).Some? && ReviewGate(x, s).value.accepted && r.review == x.review
    requires Transition(r, phase, iteration, maxIterations).Some?
    requires Transition(r, phase, iteration, maxIterations).value.decision.state != "qf:stopped"
    ensures Transition(r, phase, iteration, maxIterations).value.decision.state == "qf:organizer-acceptance"
      <==> ReviewGate(x, s).value.state == "qf:review-green"
  {
    hide ReviewGate, Get, Severe, IsVerified, Findings, Iterated;
    var items := Iterated(x.review).value;
    NoneUnresolved(items);
    assert forall k :: 0 <= k < |items| ==> Unresolved(items[k]) == No;
    DictsCount(items);
    IteratedIsFindings(x.review);
    GreenMeansNoFindings(x, s);
    AcceptanceMeansNoFindings(r, phase, iteration, maxIterations);
  }

  // --------------------------------------------------------------------- whole runs

  /** How often a run retries: each round that asks for manufacturing continues with its new iteration. */
  function Retries(rounds: seq<Round>, phase: string, iteration: int, maxIterations: int): nat
    decreases |rounds|
  {
    if rounds == [] then 0
    else
      match Transition(rounds[0], phase, iteration, maxIterations)
      case Some(move) =>
        if move.decision.state == "qf:manufacturing" then 1 + Retries(rounds[1..], phase, move.iteration, maxIterations)
        else 0
      case None => 0
  }

  /** The iteration in front of round k, for a run that reaches it. */
  function IterationAt(rounds: seq<Round>, phase: string, iteration: int, maxIterations: int, k: nat): Option<int>
    decreases k
  {
    if k > |rounds| then None
    else if k == 0 then Some(iteration)
    else
      match Transition(rounds[0], phase, iteration, maxIterations)
      case Some(move) =>
        if move.decision.state == "qf:manufacturing"
          then IterationAt(rounds[1..], phase, move.iteration, maxIterations, k - 1) else None
      case None => None
  }

  lemma {:induction false} RetriesLeft(rounds: seq<Round>, phase: string, iteration: int, maxIterations: int)
    ensures Retries(rounds, phase, iteration, maxIterations) > 0 ==>
      Retries(rounds, phase, iteration, maxIterations) <= Min(PhaseLimit(phase), maxIterations) - iteration
    decreases |rounds|
  {
    hide Iterated, AnyUnresolved;
    if rounds != [] && Transition(rounds[0], phase, iteration, maxIterations).Some? {
      RetriesLeft(rounds[1..], phase, Transition(rounds[0], phase, iteration, maxIterations).value.iteration,
        maxIterations);
    }
  }

  /** From iteration 0 and an allowed budget a run retries at most min(phase limit, max_iterations) times. */
  lemma RetriesAreBounded(rounds: seq<Round>, phase: string, budget: Fields)
    requires BudgetAllowed(budget)
    ensures Retries(rounds, phase, 0, GetValue(budget, "max_iterations").number)
      <= Min(PhaseLimit(phase), GetValue(budget, "max_iterations").number) <= 3
  {
    hide Transition, Retries;
    RetriesLeft(rounds, phase, 0, GetValue(budget, "max_iterations").number);
  }

  /** The run's own retries never exceed max_iterations, so only an exceeded budget raises STOP-020. */
  lemma {:induction false} OwnRetriesNeverStop(rounds: seq<Round>, phase: string, iteration: int, maxIterations: int,
                                               k: nat)
    requires iteration <= maxIterations
    requires IterationAt(rounds, phase, iteration, maxIterations, k).Some? && k < |rounds|
    ensures var at := IterationAt(rounds, phase, iteration, maxIterations, k).value;
      && at == iteration + k && at <= maxIterations
      && (var next := Transition(rounds[k], phase, at, maxIterations);
          next.Some? ==> ("STOP-020" in next.value.decision.reasons <==> rounds[k].budgetExceeded))
    decreases k
  {
    hide Iterated, AnyUnresolved;
    if k > 0 {
      OwnRetriesNeverStop(rounds[1..], phase, Transition(rounds[0], phase, iteration, maxIterations).value.iteration,
        maxIterations, k - 1);
    }
  }

  /** A review the loop can send back: findings, none of them an unresolved P0 or P1, and no other stop. */
  predicate Returnable(r: Round) {
    && Iterated(r.review).Some? && Iterated(r.review).value != [] && AnyUnresolved(Iterated(r.review).value) == No
    && !r.budgetExceeded && !(r.patch != "" && r.patch == r.previousPatch)
  }

  lemma ReturnableMoves(r: Round, phase: string, iteration: int, maxIterations: int)
    requires Returnable(r) && 0 <= iteration <= maxIterations
    ensures var move := Transition(r, phase, iteration, maxIterations);
      && move.Some?
      && if iteration < Min(PhaseLimit(phase), maxIterations)
         then move.value.decision.state == "qf:manufacturing" && move.value.iteration == iteration + 1
         else move.value.decision.state == "qf:changes-requested"
  {
    hide Iterated, AnyUnresolved;
    assert phase == "A" ==> phase[0] == 'A' && PhaseLimit(phase) == 0;
  }

  /** The bound is reached: a run of such reviews retries until it is used up. */
  lemma {:induction false} RetriesReachTheBound(rounds: seq<Round>, phase: string, iteration: int, maxIterations: int)
    requires 0 <= iteration <= maxIterations && forall i :: 0 <= i < |rounds| ==> Returnable(rounds[i])
    ensures var bound := Min(PhaseLimit(phase), maxIterations) - iteration;
      Retries(rounds, phase, iteration, maxIterations) == if bound < 0 then 0 else Min(|rounds|, bound)
    decreases |rounds|
  {
    hide Transition, Returnable;
    if rounds != [] {
      ReturnableMoves(rounds[0], phase, iteration, maxIterations);
      if iteration < Min(PhaseLimit(phase), maxIterations) {
        RetriesReachTheBound(rounds[1..], phase, iteration + 1, maxIterations);
      }
    }
  }

  // ------------------------------------------- the review schema keeps the loop from raising

  /** The schema makes findings a list of dictionaries whose severity is one of some texts. */
  predicate DescribesFindings(schema: Json) {
    && schema.Obj?
    && var f := Property(schema.members, "findings");
       && f.Some? && f.value.Obj? && Types(f.value.members) == ["array"]
       && var item := GetValue(f.value.members, "items");
          && item.Obj? && Types(item.members) == ["object"]
          && var severity := Property(item.members, "severity");
             && severity.Some? && severity.value.Obj?
             && match Get(severity.value.members, "enum") case Some(Arr(values)) => AllText(values) case _ => false
  }

  lemma FieldSatisfies(v: Json, schema: Json, name: string, env: Env)
    requires schema.Obj? && v.Obj? && Sound(schema, env.compiles) && Satisfies(v, schema, env)
    requires Property(schema.members, name).Some? && Has(v.members, name)
    ensures var child := Property(schema.members, name).value;
      Sound(child, env.compiles) && Satisfies(Get(v.members, name).value, child, env)
  {
    hide Sound, NamesMeet, ValueMeets, TypeAllowed;
    PropertySound(schema, name, env.compiles);
    var i := IndexOf(v.members, name);
    assert v.members[i].key == name;
  }

  lemma SeverityIsText(v: Json, schema: Json, env: Env)
    requires schema.Obj? && Sound(schema, env.compiles) && Satisfies(v, schema, env)
    requires match Get(schema.members, "enum") case Some(Arr(values)) => AllText(values) case _ => false
    ensures v.Str?
  {
    hide Sound, TypeAllowed, LeafMeets, Get;
    var values := Get(schema.members, "enum").value.items;
    var i :| 0 <= i < |values| && Same(v, values[i]);
  }

  lemma FindingIsReadable(item: Json, schema: Json, env: Env)
    requires schema.Obj? && Sound(schema, env.compiles) && Satisfies(item, schema, env)
    requires Types(schema.members) == ["object"]
    requires var severity := Property(schema.members, "severity");
      && severity.Some? && severity.value.Obj?
      && match Get(severity.value.members, "enum") case Some(Arr(values)) => AllText(values) case _ => false
    ensures Unresolved(item) != Raises
  {
    hide Sound, NamesMeet, ValueMeets, Get, Severe, IsVerified, Property;
    if Has(item.members, "severity") {
      FieldSatisfies(item, schema, "severity", env);
      SeverityIsText(Get(item.members, "severity").value, Property(schema.members, "severity").value, env);
    }
  }

  lemma {:induction false} ReadableNeverRaises(items: seq<Json>)
    requires forall i :: 0 <= i < |items| ==> Unresolved(items[i]) != Raises
    ensures AnyUnresolved(items) != Raises
  {
    hide Unresolved;
    if items != [] {
      assert forall i :: 0 < i < |items| ==> items[i] == items[1..][i - 1];
      ReadableNeverRaises(items[1..]);
    }
  }

  lemma FindingsAreReadable(list: Json, schema: Json, env: Env)
    requires schema.Obj? && Sound(schema, env.compiles) && Satisfies(list, schema, env)
      && Types(schema.members) == ["array"]
    requires var item := GetValue(schema.members, "items");
      && item.Obj? && Types(item.members) == ["object"]
      && var severity := Property(item.members, "severity");
         && severity.Some? && severity.value.Obj?
         && match Get(severity.value.members, "enum") case Some(Arr(values)) => AllText(values) case _ => false
    ensures list.Arr? && AnyUnresolved(list.items) != Raises
  {
    hide Sound, SizeMeets, ValueMeets, Get, Property, Unresolved;
    ItemsSound(schema, env.compiles);
    forall i | 0 <= i < |list.items| ensures Unresolved(list.items[i]) != Raises {
      FindingIsReadable(list.items[i], GetValue(schema.members, "items"), env);
    }
    ReadableNeverRaises(list.items);
  }

  /** With a review schema of that kind, the loop never raises on a review an accepted gate let through. */
  lemma AcceptedReviewNeverRaises(x: Input, s: Setup, r: Round, phase: string, iteration: int, maxIterations: int)
    requires Loaded(s) && Clean(s.reviewSchema, s.env) && DescribesFindings(s.reviewSchema) && WellFormed(x.review)
    requires ReviewGate(x, s).Some? && ReviewGate(x, s).value.accepted && r.review == x.review
    ensures Transition(r, phase, iteration, maxIterations).Some?
  {
    hide ReviewGate, Sound, Satisfies, GatesPassed, Get, AnyUnresolved, Property, WellFormed, NullFree;
    AcceptedSatisfies(x, s);
    if Has(x.review.members, "findings") {
      FieldSatisfies(x.review, s.reviewSchema, "findings", s.env);
      FindingsAreReadable(Get(x.review.members, "findings").value, Property(s.reviewSchema.members, "findings").value,
        s.env);
    } else {
      assert AnyUnresolved([]) == No by { NothingUnresolved(); }
    }
  }

  lemma NothingUnresolved()
    ensures AnyUnresolved([]) == No
  {
  }

  lemma AcceptedSatisfies(x: Input, s: Setup)
    requires Loaded(s) && Clean(s.reviewSchema, s.env) && WellFormed(x.review)
    requires ReviewGate(x, s).Some? && ReviewGate(x, s).value.accepted
    ensures x.review.Obj? && Satisfies(x.review, s.reviewSchema, s.env)
  {
    hide Validate, Gates, Sound, RedFrom, Satisfies, NullFree, WellFormed;
    var requestReport := Validate(x.request, s.requestSchema, [], s.env);
    var reviewReport := Validate(if x.review == Null then Obj([]) else x.review, s.reviewSchema, [], s.env);
    var g := Gates(x, s, requestReport.list, reviewReport.list);
    RedIsEmpty(g, 0, 1);
    RedIsEmpty(g, 0, 7);
    GateSeven(x, s, requestReport.list, reviewReport.list);
    ValidateDecides(x.review, s.reviewSchema, [], s.env);
  }

  lemma GateSeven(x: Input, s: Setup, requestErrors: seq<string>, reviewErrors: seq<string>)
    requires Gates(x, s, requestErrors, reviewErrors)[7] && Gates(x, s, requestErrors, reviewErrors)[1]
    ensures reviewErrors == [] && x.review.Obj?
  {
    hide Findings, Coverage, RequestShape, ModeConsistent, FindingsShape, StatusAllowed, FixesConsistent, NoUnresolved;
  }
}
