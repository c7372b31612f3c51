/** Concrete inputs under the approved schemas: a green gate with decision FAIL, and an accepted gate with a
    verified P0 finding. Also an accepted schema on which the validator raises. */
module Examples {
  import opened Base
  import opened Json
  import opened Schema
  import opened Instance
  import opened Record
  import opened ReviewLoop
  import opened ApprovedSchemas
  import opened ApprovedDocuments

  /** The controller as shipped. */
  function Approved(env: Env, sha256: Digest): Setup {
    Setup(REVIEW_REQUEST, TECHNICAL_REVIEW, env, sha256, set n | 1 <= n <= 20 :: GateName(n))
  }

  /** The gate at the reviewed head, with green checks and an unmoved default branch. */
  function AtReviewedHead(request: Fields, review: Fields): Input {
    Input(Obj(request), Obj(review), SHA, SHA, true, 0, true, Some(SHA))
  }

  /** The shipped review schema is accepted and keeps the loop from raising on any review an accepted gate let
      through. */
  lemma ApprovedReviewNeverRaises(
    x: Input, env: Env, sha256: Digest, r: Round, phase: string, iteration: int, maxIterations: int)
    requires Compiles(env) && WellFormed(x.review) && r.review == x.review
    ensures Loaded(Approved(env, sha256))
    ensures ReviewGate(x, Approved(env, sha256)).Some? && ReviewGate(x, Approved(env, sha256)).value.accepted ==>
      Transition(r, phase, iteration, maxIterations).Some?
  {
    hide ReviewGate, Sound, Transition, DescribesFindings, WellFormed, NullFree;
    RequestSchemaAccepted(env);
    ReviewSchemaAccepted(env);
    ReviewSchemaDescribesFindings();
    if ReviewGate(x, Approved(env, sha256)).Some? && ReviewGate(x, Approved(env, sha256)).value.accepted {
      AcceptedReviewNeverRaises(x, Approved(env, sha256), r, phase, iteration, maxIterations);
    }
  }

  // -------------------------------------------------------------------- the shared gates

  lemma ShapeGates(request: Fields, review: Fields, d: Draft)
    requires RequestReads(request, d) && ReviewNames(review, d) && ReviewReads(review, d)
    ensures RequestShape(request, []) && ReviewShape(request, review, []) && Coverage(review)
  {
    hide Get, IsHex;
    ShaIsHex();
    CoverageIsRead();
  }

  lemma ShaIsHex()
    ensures IsHex(SHA, 40) && IsHex(PRIOR, 64)
  {
  }

  lemma CoverageIsRead()
    ensures Has(COVERAGE_FIELDS, "files_read") && Has(COVERAGE_FIELDS, "checks_confirmed")
    ensures Has(COVERAGE_FIELDS, "review_areas")
  {
    HasKey(COVERAGE_FIELDS, 0);
    HasKey(COVERAGE_FIELDS, 1);
    HasKey(COVERAGE_FIELDS, 2);
  }

  /** The gates about decision, mode and findings. */
  ghost predicate FindingGates(x: Input) {
    var request, review, findings := Dict(x.request), Dict(x.review), Findings(x.review);
    && DecisionConsistent(review, findings) && ModeConsistent(x.request, review) && FindingsShape(findings)
    && (forall i :: 0 <= i < |findings| ==> StatusAllowed(request, findings[i]))
    && FixesConsistent(x.request, findings, x.head)
    && (forall i :: 0 <= i < |findings| ==> !Is(findings[i], "verification_status", "CLOSED"))
    && (forall i :: 0 <= i < |findings| ==> Is(findings[i], "disposition", "UNDECIDED"))
    && (NoUnresolved(findings) || IsTruth(review, "blocking", true))
  }

  /** Gate k + 1 is green when the schemas report nothing. */
  predicate Green(x: Input, s: Setup, k: nat)
    requires k < 20
  {
    Gates(x, s, [], [])[k]
  }

  /** The fields that bind a request and a review to the head. */
  ghost predicate AtHeadFields(request: Fields, review: Fields, digest: string) {
    && Is(request, "head_sha", SHA) && Is(request, "tree_sha", SHA)
    && Is(review, "reviewed_commit_sha", SHA) && Is(review, "reviewed_tree_sha", SHA)
    && Is(review, "default_branch_sha", SHA) && Is(review, "review_request_sha256", digest)
  }

  lemma HeadFields(d: Draft)
    ensures AtHeadFields(Request(d), Review(d), d.digest)
  {
    hide Get, Request, Review, Is;
    RequestFields(d);
    ReviewNameFields(d);
    ReviewFields(d);
  }

  lemma CommitGates(request: Fields, review: Fields, s: Setup, digest: string)
    requires review != [] && AtHeadFields(request, review, digest)
    ensures var x := AtReviewedHead(request, review);
            Green(x, s, 0) && Green(x, s, 1) && Green(x, s, 2) && Green(x, s, 3) && Green(x, s, 4)
  {
    hide GateName, ContentHash, Coverage, RequestShape, ReviewShape, DecisionConsistent, ModeConsistent, Findings;
    hide Candidates;
    hide EligibleIds, FindingsShape, StatusAllowed, FixesConsistent, NoUnresolved, IsTruth, Is;
  }

  lemma BindingGates(request: Fields, review: Fields, s: Setup, digest: string)
    requires AtHeadFields(request, review, digest) && ContentHash(Obj(request), s.sha256) == digest
    ensures var x := AtReviewedHead(request, review); Green(x, s, 10) && Green(x, s, 17) && Green(x, s, 18)
  {
    hide GateName, ContentHash, Coverage, RequestShape, ReviewShape, DecisionConsistent, ModeConsistent, Findings;
    hide Candidates;
    hide EligibleIds, FindingsShape, StatusAllowed, FixesConsistent, NoUnresolved, IsTruth, Is;
  }

  lemma FormGates(x: Input, s: Setup)
    requires RequestShape(Dict(x.request), []) && ReviewShape(Dict(x.request), Dict(x.review), [])
      && Coverage(Dict(x.review))
    ensures Green(x, s, 5) && Green(x, s, 6) && Green(x, s, 7)
  {
    hide GateName, ContentHash, Coverage, RequestShape, ReviewShape, DecisionConsistent, ModeConsistent, Findings;
    hide Candidates;
    hide EligibleIds, FindingsShape, StatusAllowed, FixesConsistent, NoUnresolved, IsTruth, Is;
  }

  lemma RegistryGate(x: Input, env: Env, sha256: Digest)
    ensures Green(x, Approved(env, sha256), 19)
  {
    hide GateName, ContentHash, Coverage, RequestShape, ReviewShape, DecisionConsistent, ModeConsistent, Findings;
    hide Candidates;
    hide EligibleIds, FindingsShape, StatusAllowed, FixesConsistent, NoUnresolved, IsTruth, Is;
  }

  lemma RestGates(x: Input, s: Setup)
    requires FindingGates(x)
    ensures Green(x, s, 8) && Green(x, s, 9) && Green(x, s, 11) && Green(x, s, 12) && Green(x, s, 13) && Green(x, s, 14)
    ensures Green(x, s, 15) && Green(x, s, 16)
  {
    hide Get, GateName, ContentHash, Coverage, RequestShape, ReviewShape, DecisionConsistent, ModeConsistent, Findings;
    hide Candidates;
    hide EligibleIds, Is, FindingsShape, StatusAllowed, FixesConsistent, NoUnresolved, IsTruth;
  }

  lemma {:induction false} NoRedGate(g: seq<bool>, n: nat)
    requires |g| == 20 && n <= 20 && forall k :: 0 <= k < 20 ==> g[k]
    ensures RedFrom(g, n) == []
    decreases 20 - n
  {
    if n < 20 { NoRedGate(g, n + 1); }
  }

  lemma GateAccepts(x: Input, s: Setup)
    requires Loaded(s) && x.review.Obj?
    requires Validate(x.request, s.requestSchema, [], s.env) == Errors([])
    requires Validate(x.review, s.reviewSchema, [], s.env) == Errors([])
    requires forall k :: 0 <= k < 20 ==> Green(x, s, k)
    ensures var state :=
              if NoUnresolved(Findings(x.review)) && Findings(x.review) == [] then "qf:review-green"
              else "qf:changes-requested";
            ReviewGate(x, s) == Some(Decision(state, true, []))
  {
    hide Validate, Gates, RedFrom, Sound, NoUnresolved, Findings;
    forall k | 0 <= k < 20 ensures Gates(x, s, [], [])[k] { assert Green(x, s, k); }
    NoRedGate(Gates(x, s, [], []), 0);
  }

  lemma NothingReported(v: Json, schema: Json, env: Env)
    requires WellFormed(v) && Clean(schema, env) && Fits(v, schema, env)
    ensures Validate(v, schema, [], env) == Errors([])
  {
    hide Validate, Satisfies, Sound, WellFormed, NullFree;
    ValidateDecides(v, schema, [], env);
  }

  /** The gate input of a draft. */
  function InputOf(d: Draft): Input {
    AtReviewedHead(Request(d), Review(d))
  }

  /** A request and a review that satisfy the schemas and pass the gates about findings are accepted. */
  lemma DraftAccepted(d: Draft, env: Env, sha256: Digest)
    requires Understands(env) && DraftFits(d, env) && DraftWellFormed(d)
    requires ContentHash(Obj(Request(d)), sha256) == d.digest && FindingGates(InputOf(d))
    ensures Loaded(Approved(env, sha256))
    ensures ReviewGate(InputOf(d), Approved(env, sha256)) == Some(Decision(
      if NoUnresolved(Findings(InputOf(d).review)) && Findings(InputOf(d).review) == [] then "qf:review-green"
      else "qf:changes-requested", true, []))
  {
    hide ContentHash, FindingGates, Sound, NullFree, WellFormed, Green, ReviewGate, Request, Review, Understands;
    hide DraftFits;
    hide RequestReads, ReviewNames, ReviewReads, DraftWellFormed, NoUnresolved, Findings, RequestShape, ReviewShape;
    hide Coverage;
    hide AtHeadFields;
    var x, s := InputOf(d), Approved(env, sha256);
    DraftReportsNothing(d, env);
    DraftGates(d, env, sha256);
    GateAccepts(x, s);
  }

  lemma DraftGates(d: Draft, env: Env, sha256: Digest)
    requires ContentHash(Obj(Request(d)), sha256) == d.digest && FindingGates(InputOf(d))
    ensures forall k :: 0 <= k < 20 ==> Green(InputOf(d), Approved(env, sha256), k)
  {
    hide ContentHash, FindingGates, Green, Request, Review, RequestReads, ReviewNames, ReviewReads, AtHeadFields;
    hide RequestShape, ReviewShape, Coverage, Approved;
    var x, s := InputOf(d), Approved(env, sha256);
    HeadFields(d);
    RequestFields(d);
    ReviewNameFields(d);
    ReviewFields(d);
    ShapeGates(Request(d), Review(d), d);
    assert s.sha256 == sha256 by { ApprovedHash(env, sha256); }
    CommitGates(Request(d), Review(d), s, d.digest);
    BindingGates(Request(d), Review(d), s, d.digest);
    FormGates(x, s);
    RegistryGate(x, env, sha256);
    RestGates(x, s);
  }

  lemma ApprovedHash(env: Env, sha256: Digest)
    ensures Approved(env, sha256).sha256 == sha256
  {
  }

  lemma DraftReportsNothing(d: Draft, env: Env)
    requires Understands(env) && DraftFits(d, env) && DraftWellFormed(d)
    ensures Clean(REVIEW_REQUEST, env) && Clean(TECHNICAL_REVIEW, env)
    ensures Validate(Obj(Request(d)), REVIEW_REQUEST, [], env) == Errors([])
    ensures Validate(Obj(Review(d)), TECHNICAL_REVIEW, [], env) == Errors([])
  {
    hide Fits, Sound, NullFree, WellFormed, Request, Review, Validate, DraftFits, DraftWellFormed;
    RequestSchemaAccepted(env);
    ReviewSchemaAccepted(env);
    RequestFits(d, env);
    ReviewFits(d, env);
    RequestIsWellFormed(d);
    ReviewIsWellFormed(d);
    NothingReported(Obj(Request(d)), REVIEW_REQUEST, env);
    NothingReported(Obj(Review(d)), TECHNICAL_REVIEW, env);
  }

  // ----------------------------------------------------------------- a green gate with FAIL

  /** A failing, blocking review without findings. */
  function FailDraft(digest: string): Draft {
    Draft("INITIAL", Null, [], [], digest, "FAIL", [], true)
  }

  lemma FailFits(digest: string, env: Env)
    requires Understands(env) && IsHex(digest, 64)
    ensures DraftFits(FailDraft(digest), env) && DraftWellFormed(FailDraft(digest))
  {
    hide Fits, Good, IsHex, Closed, Matching, MatchingOrNull, ListOf, UniqueListOf;
    assert Compiles(env);
    NullFits(SHA256, env);
    MatchingIsGood(FINDING, env);
    UniqueListFits([], Matching(FINDING), env);
    CandidateIsGood(env);
    FindingIsGood(env);
    ListFits([], Closed(CANDIDATE_PROPERTIES), env);
    ListFits([], Closed(FINDING_PROPERTIES), env);
  }

  lemma FailGates(digest: string)
    ensures FindingGates(InputOf(FailDraft(digest))) && Findings(InputOf(FailDraft(digest)).review) == []
  {
    hide Get, Request, Review;
    RequestFields(FailDraft(digest));
    ReviewNameFields(FailDraft(digest));
    ReviewFields(FailDraft(digest));
  }

  lemma FailReachesAcceptance(digest: string)
    ensures Transition(Round(InputOf(FailDraft(digest)).review, "", "", false), "A", 0, 0)
      == Some(Move(Decision("qf:organizer-acceptance", true, []), 0))
  {
    hide Get, Review;
    ReviewFields(FailDraft(digest));
  }

  /** A digest is 64 hexadecimal digits. */
  ghost predicate GivesHex(sha256: Digest) {
    forall text: string :: IsHex(sha256(text), 64)
  }

  lemma HashIsHex(v: Json, sha256: Digest)
    requires GivesHex(sha256)
    ensures IsHex(ContentHash(v, sha256), 64)
  {
    hide CanonicalJson, IsHex;
  }

  /** There are such patterns and digests. */
  lemma SomeSetting() returns (env: Env, sha256: Digest)
    ensures Understands(env) && GivesHex(sha256)
  {
    env, sha256 := Env(_ => true, (_, _) => true, (_, _) => true), _ => PRIOR;
    ShaIsHex();
  }

  /** Under the approved schemas green does not mean PASS: this review fails, blocks and has no findings, passes all
      twenty gates and ends green, and the loop hands it to organizer acceptance. */
  lemma GreenDespiteFail(env: Env, sha256: Digest)
    requires Understands(env) && GivesHex(sha256)
    ensures var digest := ContentHash(Obj(Request(FailDraft(""))), sha256);
            var x, s := InputOf(FailDraft(digest)), Approved(env, sha256);
            && Loaded(s) && Is(Dict(x.review), "decision", "FAIL") && IsTruth(Dict(x.review), "blocking", true)
            && ReviewGate(x, s) == Some(Decision("qf:review-green", true, []))
            && Transition(Round(x.review, "", "", false), "A", 0, 0)
               == Some(Move(Decision("qf:organizer-acceptance", true, []), 0))
  {
    hide Get, ContentHash, IsHex, GivesHex, Understands, DraftFits, DraftWellFormed, FindingGates, ReviewGate, Sound;
    hide Document, Findings, Transition;
    var digest := ContentHash(Obj(Request(FailDraft(""))), sha256);
    var d := FailDraft(digest);
    assert RequestValues(d) == RequestValues(FailDraft(""));
    HashIsHex(Obj(Request(d)), sha256);
    FailFits(digest, env);
    FailGates(digest);
    DraftAccepted(d, env, sha256);
    FailReachesAcceptance(digest);
    ReviewFields(d);
  }

  // ------------------------------------------------ an accepted gate with a verified P0 finding

  const ID := "AUTO-IMPL-P0-001"

  const CANDIDATE_VALUES: seq<Json> := [Str(ID), Str(SHA), Str(PRIOR)]
  const CANDIDATE := Document(CANDIDATE_PROPERTIES, CANDIDATE_VALUES)

  const FINDING_VALUES: seq<Json> :=
    [Str(ID), Str("P0"), Str("VERIFIED"), Str("UNDECIDED"), Str("src"), Str("seen"), Str("high"), Str("fix"), Str("")]

  const VERIFIED_FINDING := Document(FINDING_PROPERTIES, FINDING_VALUES)

  /** The re-verification of a fixed P0 finding. */
  function FixedDraft(digest: string): Draft {
    Draft("REVERIFY", Str(PRIOR), [Str(ID)], [Obj(CANDIDATE)], digest, "PASS_WITH_FINDINGS", [Obj(VERIFIED_FINDING)],
      false)
  }

  lemma IdIsFindingId()
    ensures FindingId(ID)
  {
    assert ID[..11] == "AUTO-IMPL-P";
  }

  lemma CandidateReads()
    ensures Is(CANDIDATE, "finding_id", ID) && Is(CANDIDATE, "candidate_sha", SHA)
      && Is(CANDIDATE, "record_sha256", PRIOR)
    ensures WellFormed(Obj(CANDIDATE))
  {
    hide Get, Document, DistinctKeys, WellFormed;
    var ps := CANDIDATE_PROPERTIES;
    CandidateKeys();
    FieldReads(ps, CANDIDATE_VALUES);
    assert ps[0].key == "finding_id" && ps[1].key == "candidate_sha" && ps[2].key == "record_sha256";
    forall k | 0 <= k < 3 ensures WellFormed(CANDIDATE_VALUES[k]) { ScalarIsWellFormed(CANDIDATE_VALUES[k]); }
    DocumentWellFormed(ps, CANDIDATE_VALUES);
  }

  lemma CandidateFits(env: Env)
    requires Understands(env)
    ensures Fits(Obj(CANDIDATE), Closed(CANDIDATE_PROPERTIES), env)
  {
    hide Fits, View, Sound, AllGood, Good, Matching, Closed, DistinctKeys, FindingId, Document;
    HexTexts(env);
    IdIsFindingId();
    MatchingFits(ID, FINDING, env);
    MatchingFits(SHA, SHA40, env);
    MatchingFits(PRIOR, SHA256, env);
    CandidateIsGood(env);
    GoodIsSound(Closed(CANDIDATE_PROPERTIES), env);
    ObjectFits(CANDIDATE, Closed(CANDIDATE_PROPERTIES), CANDIDATE_PROPERTIES, env);
  }

  lemma FindingReads()
    ensures Is(VERIFIED_FINDING, "id", ID) && Is(VERIFIED_FINDING, "severity", "P0")
    ensures Is(VERIFIED_FINDING, "verification_status", "VERIFIED") && Is(VERIFIED_FINDING, "disposition", "UNDECIDED")
    ensures WellFormed(Obj(VERIFIED_FINDING))
  {
    hide Get, Document, DistinctKeys, WellFormed, Matching, OneOf, Exactly;
    var ps := FINDING_PROPERTIES;
    FindingKeys();
    FieldReads(ps, FINDING_VALUES);
    assert ps[0].key == "id" && ps[1].key == "severity" && ps[2].key == "verification_status"
      && ps[3].key == "disposition";
    forall k | 0 <= k < 9 ensures WellFormed(FINDING_VALUES[k]) { ScalarIsWellFormed(FINDING_VALUES[k]); }
    DocumentWellFormed(ps, FINDING_VALUES);
  }

  lemma VerifiedFindingFits(env: Env)
    requires Understands(env)
    ensures Fits(Obj(VERIFIED_FINDING), Closed(FINDING_PROPERTIES), env)
  {
    hide Fits, View, Sound, AllGood, Good, Matching, OneOf, Exactly, Closed, DistinctKeys, FindingId, Document;
    IdIsFindingId();
    FindingTexts();
    MatchingFits(ID, FINDING, env);
    OneOfFits(["P0", "P1", "P2", "P3"], 0, env);
    OneOfFits(["OPEN", "VERIFIED"], 1, env);
    ExactlyFits("UNDECIDED", env);
    TextFits("src", env);
    TextFits("seen", env);
    TextFits("high", env);
    TextFits("fix", env);
    TextFits("", env);
    FindingIsGood(env);
    GoodIsSound(Closed(FINDING_PROPERTIES), env);
    ObjectFits(VERIFIED_FINDING, Closed(FINDING_PROPERTIES), FINDING_PROPERTIES, env);
  }

  lemma FixedFits(digest: string, env: Env)
    requires Understands(env) && IsHex(digest, 64)
    ensures DraftFits(FixedDraft(digest), env)
  {
    hide Fits, Good, IsHex, FindingId, Closed, Matching, MatchingOrNull, ListOf, UniqueListOf, Document, Same;
    assert Compiles(env);
    HexTexts(env);
    IdIsFindingId();
    TextOrNullFits(PRIOR, SHA256, env);
    MatchingIsGood(FINDING, env);
    MatchingFits(ID, FINDING, env);
    UniqueListFits([Str(ID)], Matching(FINDING), env);
    CandidateIsGood(env);
    CandidateFits(env);
    ListFits([Obj(CANDIDATE)], Closed(CANDIDATE_PROPERTIES), env);
    FindingIsGood(env);
    VerifiedFindingFits(env);
    ListFits([Obj(VERIFIED_FINDING)], Closed(FINDING_PROPERTIES), env);
  }

  lemma FixedWellFormed(digest: string)
    ensures DraftWellFormed(FixedDraft(digest))
  {
    hide Get, Document, WellFormed;
    CandidateReads();
    FindingReads();
    ScalarIsWellFormed(Str(ID));
    ScalarIsWellFormed(Str(PRIOR));
    OneIsWellFormed(Str(ID));
    OneIsWellFormed(Obj(CANDIDATE));
    OneIsWellFormed(Obj(VERIFIED_FINDING));
  }

  lemma OneIsWellFormed(v: Json)
    requires WellFormed(v)
    ensures WellFormed(Arr([v]))
  {
    assert forall i :: 0 <= i < |[v]| ==> WellFormed([v][i]);
  }

  lemma FindingKeySet()
    ensures (set m | m in VERIFIED_FINDING :: m.key)
      == {"id", "severity", "verification_status", "disposition", "path", "evidence", "risk", "required_change",
        "residual_risk"}
  {
    hide Document, Matching, OneOf, Exactly;
    NineKeys(VERIFIED_FINDING);
  }

  lemma NineKeys(f: Fields)
    requires |f| == 9 && f[0].key == "id" && f[1].key == "severity" && f[2].key == "verification_status"
    requires f[3].key == "disposition" && f[4].key == "path" && f[5].key == "evidence" && f[6].key == "risk"
    requires f[7].key == "required_change" && f[8].key == "residual_risk"
    ensures (set m | m in f :: m.key)
      == {"id", "severity", "verification_status", "disposition", "path", "evidence", "risk", "required_change",
        "residual_risk"}
  {
    var keys := {f[0].key, f[1].key, f[2].key, f[3].key, f[4].key, f[5].key, f[6].key, f[7].key, f[8].key};
    forall key | key in keys ensures key in (set m | m in f :: m.key) {
      var k :| 0 <= k < 9 && f[k].key == key;
      assert f[k] in f;
    }
  }

  lemma FixedLists(digest: string)
    ensures var x := InputOf(FixedDraft(digest));
            && Findings(x.review) == [VERIFIED_FINDING] && Candidates(x.request) == [CANDIDATE]
            && EligibleIds(x.request) == [ID]
  {
    hide Get, Request, Review, Document;
    RequestFields(FixedDraft(digest));
    ReviewFields(FixedDraft(digest));
    OneDict(VERIFIED_FINDING);
    OneDict(CANDIDATE);
    OneText(ID);
  }

  lemma OneDict(ms: Fields)
    ensures Dicts([Obj(ms)]) == [ms]
  {
    assert [Obj(ms)][1..] == [];
  }

  lemma OneText(s: string)
    ensures AllText([Str(s)]) && Texts([Str(s)]) == [s]
  {
  }

  lemma VerifiedFindingShape()
    ensures FindingShape(VERIFIED_FINDING)
  {
    hide Get, Document, FindingId;
    FindingReads();
    IdIsFindingId();
    FindingKeySet();
  }

  lemma FixedFindingGates()
    ensures FindingsShape([VERIFIED_FINDING]) && NoUnresolved([VERIFIED_FINDING])
  {
    hide Get, Document, FindingShape;
    FindingReads();
    VerifiedFindingShape();
  }

  lemma FixedIsConsistent(x: Input)
    requires Candidates(x.request) == [CANDIDATE] && EligibleIds(x.request) == [ID] && x.head == SHA
    ensures FixesConsistent(x.request, [VERIFIED_FINDING], x.head)
  {
    hide Get, Document, IsHex;
    FindingReads();
    CandidateReads();
    ShaIsHex();
    assert Addressed(ID, [ID], [CANDIDATE]) by { assert Is([CANDIDATE][0], "finding_id", ID); }
  }

  lemma FixedModes(x: Input, review: Fields, digest: string)
    requires RequestReads(Dict(x.request), FixedDraft(digest)) && ReviewNames(review, FixedDraft(digest))
    requires ReviewReads(review, FixedDraft(digest))
    requires Candidates(x.request) == [CANDIDATE] && EligibleIds(x.request) == [ID]
    ensures ModeConsistent(x.request, review) && DecisionConsistent(review, [VERIFIED_FINDING])
  {
    hide Get, Document, IsHex;
    ShaIsHex();
  }

  lemma FixedStatus(request: Fields)
    requires Is(request, "expected_review_mode", "REVERIFY")
    ensures StatusAllowed(request, VERIFIED_FINDING) && !Is(VERIFIED_FINDING, "verification_status", "CLOSED")
    ensures Is(VERIFIED_FINDING, "disposition", "UNDECIDED")
  {
    hide Get, Document;
    FindingReads();
  }

  lemma FixedGates(digest: string)
    ensures FindingGates(InputOf(FixedDraft(digest)))
  {
    hide Get, Request, Review, Document, FindingsShape, NoUnresolved, Findings, Candidates, EligibleIds, IsHex;
    hide StatusAllowed, ModeConsistent, DecisionConsistent, FixesConsistent;
    var d := FixedDraft(digest);
    RequestFields(d);
    ReviewNameFields(d);
    ReviewFields(d);
    FixedLists(digest);
    FixedFindingGates();
    FixedIsConsistent(InputOf(d));
    FixedModes(InputOf(d), Review(d), digest);
    FixedStatus(Request(d));
  }

  lemma VerifiedReturnsToHuman(digest: string)
    ensures Transition(Round(InputOf(FixedDraft(digest)).review, "", "", false), "A", 0, 0)
      == Some(Move(Decision("qf:changes-requested", true, ["human-return"]), 0))
  {
    hide Get, Review, Document, AnyUnresolved, Iterated;
    FixedIterated(digest);
    OneVerified();
  }

  lemma FixedIterated(digest: string)
    ensures Iterated(InputOf(FixedDraft(digest)).review) == Some([Obj(VERIFIED_FINDING)])
  {
    hide Get, Review, Document;
    ReviewFields(FixedDraft(digest));
  }

  lemma OneVerified()
    ensures AnyUnresolved([Obj(VERIFIED_FINDING)]) == No
  {
    hide Get, Document;
    FindingReads();
    assert [Obj(VERIFIED_FINDING)][1..] == [];
    assert Unresolved(Obj(VERIFIED_FINDING)) == No;
  }

  /** An accepted gate with a P0 finding: a re-verification that reports it VERIFIED, with a fix candidate at the
      head. The loop is not stopped by it. */
  lemma VerifiedPassesGate(env: Env, sha256: Digest)
    requires Understands(env) && GivesHex(sha256)
    ensures var digest := ContentHash(Obj(Request(FixedDraft(""))), sha256);
            var x, s := InputOf(FixedDraft(digest)), Approved(env, sha256);
            && Loaded(s) && ReviewGate(x, s) == Some(Decision("qf:changes-requested", true, []))
            && |Findings(x.review)| == 1 && Is(Findings(x.review)[0], "severity", "P0")
            && IsVerified(Findings(x.review)[0])
            && Transition(Round(x.review, "", "", false), "A", 0, 0)
               == Some(Move(Decision("qf:changes-requested", true, ["human-return"]), 0))
  {
    hide Get, ContentHash, IsHex, GivesHex, Understands, DraftFits, DraftWellFormed, FindingGates, ReviewGate, Sound;
    hide Document, Findings, Transition, Candidates, EligibleIds;
    var digest := ContentHash(Obj(Request(FixedDraft(""))), sha256);
    var d := FixedDraft(digest);
    assert RequestValues(d) == RequestValues(FixedDraft(""));
    HashIsHex(Obj(Request(d)), sha256);
    FixedFits(digest, env);
    FixedWellFormed(digest);
    FixedGates(digest);
    FixedLists(digest);
    FindingReads();
    DraftAccepted(d, env, sha256);
    VerifiedReturnsToHuman(digest);
  }

  // ------------------------------------------------------- an accepted schema that crashes

  const NULL_ID := "null.schema.json@1"

  /** An accepted definition whose properties keyword is null. */
  const NULL_SCHEMA := Obj([Member("$schema", Str(DRAFT)), Member("$id", Str(NULL_ID)), Member("type", Str("object")),
                            Member("properties", Null)])

  lemma NullSchemaView()
    ensures View(NULL_SCHEMA.members) == BARE.(typ := Some(Str("object")), properties := Some(Null))
  {
    hide View, With;
    var ms := NULL_SCHEMA.members;
    ViewTwo(ms[2], ms[3]);
    ViewThree(ms[1], ms[2], ms[3]);
    ViewFront(ms[0], [ms[1], ms[2], ms[3]]);
    assert [ms[0]] + [ms[1], ms[2], ms[3]] == ms;
    var below := BARE.(typ := Some(Str("object")), properties := Some(Null));
    WithParts(Null, BARE);
    WithText(Str("object"), BARE.(properties := Some(Null)));
    WithParts(Str(NULL_ID), below);
    WithParts(Str(DRAFT), below);
  }

  lemma NullSchemaKeys(ms: seq<Member>)
    requires |ms| == 4 && ms[0].key == "$schema" && ms[1].key == "$id" && ms[2].key == "type"
      && ms[3].key == "properties"
    ensures DistinctKeys(ms) && Get(ms, "title") == None
    ensures Get(ms, "$schema") == Some(ms[0].value) && Get(ms, "$id") == Some(ms[1].value)
  {
  }

  lemma NullSchemaKeywords(ms: seq<Member>)
    requires |ms| == 4 && ms[0].key == "$schema" && ms[1].key == "$id" && ms[2].key == "type"
      && ms[3].key == "properties"
    ensures forall i :: 0 <= i < |ms| ==> IsKeyword(ms[i].key)
  {
    hide IsKeyword, NestedKeyword;
    RootKeyword();
    forall i | 0 <= i < |ms| ensures IsKeyword(ms[i].key) {
      if i >= 2 {
        assert NestedKeyword(ms[i].key) by { RestNested(); }
        NestedKeywordAllowed(ms[i].key);
      }
    }
  }

  lemma NullSchemaHead(ms: seq<Member>)
    requires |ms| == 4 && ms[0].key == "$schema" && ms[1].key == "$id" && ms[2].key == "type"
      && ms[3].key == "properties"
    requires ms[0].value == Str(DRAFT) && ms[1].value == Str(NULL_ID)
    ensures HeadCheck(ms, Root(Some(NULL_ID))).Accepted?
  {
    hide IsKeyword, Get, DistinctKeys;
    NullSchemaKeywords(ms);
    NullSchemaKeys(ms);
  }

  lemma NullSchemaBody(compiles: string -> bool)
    ensures Sound(NULL_SCHEMA, compiles)
  {
    hide Get, IndexOf, Repeats;
    NullSchemaView();
    var ms := NULL_SCHEMA.members;
    TypeIsOne(ms, "object");
    assert IndexOf(ms, "properties") < |ms| && ms[IndexOf(ms, "properties")].value == Null
      && IndexOf(ms, "items") == |ms| by {
      LookedUp(ms);
    }
  }

  lemma {:induction false} LookedUp(ms: seq<Member>)
    requires Get(ms, "properties") == Some(Null) && Get(ms, "items") == None
    ensures IndexOf(ms, "properties") < |ms| && ms[IndexOf(ms, "properties")].value == Null
      && IndexOf(ms, "items") == |ms|
  {
  }

  lemma NullSchemaForm()
    ensures WellFormed(NULL_SCHEMA) && !NullFree(NULL_SCHEMA)
  {
    hide Get, DistinctKeys;
    NullSchemaKeys(NULL_SCHEMA.members);
    NullSchemaView();
    NotNullFree(NULL_SCHEMA);
    MembersWellFormed(NULL_SCHEMA.members);
  }

  lemma MembersWellFormed(ms: seq<Member>)
    requires DistinctKeys(ms) && |ms| == 4 && ms[0].value.Str? && ms[1].value.Str? && ms[2].value.Str?
      && ms[3].value == Null
    ensures WellFormed(Obj(ms))
  {
    hide DistinctKeys;
    assert WellFormed(ms[0].value) && WellFormed(ms[1].value) && WellFormed(ms[2].value) && WellFormed(ms[3].value);
  }

  lemma NotNullFree(schema: Json)
    requires schema.Obj? && Get(schema.members, "properties") == Some(Null)
    ensures !NullFree(schema)
  {
    hide Get;
  }

  /** The walk accepts it, it is not null-free, and the validator raises on the empty object. */
  lemma AcceptedSchemaCrashes(env: Env)
    ensures ValidateSchemaDefinition(NULL_SCHEMA, Some(NULL_ID), env.compiles).Accepted?
    ensures WellFormed(NULL_SCHEMA) && !NullFree(NULL_SCHEMA)
    ensures Sound(NULL_SCHEMA, env.compiles) && Validate(Obj([]), NULL_SCHEMA, [], env).Crashed?
  {
    hide Get, IndexOf, Body, Validate, HeadCheck, WellFormed, NullFree;
    NullSchemaView();
    NullSchemaBody(env.compiles);
    NullSchemaHead(NULL_SCHEMA.members);
    NullSchemaForm();
    EmptyObjectCrash(NULL_SCHEMA, env);
  }
}
