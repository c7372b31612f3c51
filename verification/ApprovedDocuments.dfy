/** Requests and reviews that satisfy the approved schemas. */
module ApprovedDocuments {
  import opened Base
  import opened Json
  import opened Schema
  import opened Instance
  import opened Record
  import opened ReviewLoop
  import opened ApprovedSchemas

  /** The search finds what the four patterns describe. */
  ghost predicate Understands(env: Env) {
    && Compiles(env) && env.search(WORK_ORDER, "WO-0001")
    && (forall s: string :: IsHex(s, 40) ==> env.search(SHA40, s))
    && (forall s: string :: IsHex(s, 64) ==> env.search(SHA256, s))
    && (forall s: string :: FindingId(s) ==> env.search(FINDING, s))
  }

  ghost predicate Fits(v: Json, schema: Json, env: Env) {
    Sound(schema, env.compiles) && Satisfies(v, schema, env)
  }

  // ------------------------------------------------------------------ scalars

  lemma ScalarFits(v: Json, node: Json, env: Env)
    requires Good(node, env) && !v.Obj? && !v.Arr?
    requires TypeAllowed(v, node.members) && ValueMeets(v, node.members) && LeafMeets(v, node.members, env)
    ensures Fits(v, node, env)
  {
    hide Sound, TypeAllowed, TypeMeets, ValueMeets, LeafMeets, Walk;
    GoodParts(node, env);
    TypeDecided(v, node, env);
  }

  lemma OneType(v: Json, ms: seq<Member>, name: string)
    requires Get(ms, "type") == Some(Str(name)) && TypeMatches(v, name)
    ensures TypeAllowed(v, ms)
  {
    assert Types(ms)[0] == name;
  }

  lemma MatchingFits(s: string, pattern: string, env: Env)
    requires env.compiles(pattern) && env.search(pattern, s)
    ensures Fits(Str(s), Matching(pattern), env)
  {
    hide Get, Good, TypeAllowed, Fits;
    var ms := Matching(pattern).members;
    ViewMatching(pattern);
    MatchingIsGood(pattern, env);
    OneType(Str(s), ms, "string");
    ScalarFits(Str(s), Matching(pattern), env);
  }

  lemma TextOrNullAllowed(v: Json, ms: seq<Member>)
    requires Get(ms, "type") == Some(Arr([Str("string"), Str("null")])) && (v.Str? || v == Null)
    ensures TypeAllowed(v, ms)
  {
    hide Get;
    TypeIsTextOrNull(ms);
    assert Types(ms)[0] == "string" && Types(ms)[1] == "null";
  }

  lemma NullFits(pattern: string, env: Env)
    requires env.compiles(pattern)
    ensures Fits(Null, MatchingOrNull(pattern), env)
  {
    hide Get, Good, Fits, TypeAllowed;
    var ms := MatchingOrNull(pattern).members;
    ViewMatching(pattern);
    MatchingOrNullIsGood(pattern, env);
    TextOrNullAllowed(Null, ms);
    ScalarFits(Null, MatchingOrNull(pattern), env);
  }

  lemma TextOrNullFits(s: string, pattern: string, env: Env)
    requires env.compiles(pattern) && env.search(pattern, s)
    ensures Fits(Str(s), MatchingOrNull(pattern), env)
  {
    hide Get, Good, Fits, TypeAllowed;
    var ms := MatchingOrNull(pattern).members;
    ViewMatching(pattern);
    MatchingOrNullIsGood(pattern, env);
    TextOrNullAllowed(Str(s), ms);
    ScalarFits(Str(s), MatchingOrNull(pattern), env);
  }

  lemma TextFits(s: string, env: Env)
    ensures Fits(Str(s), TEXT, env)
    ensures s != "" ==> Fits(Str(s), NON_EMPTY, env)
  {
    hide Get, Good, TypeAllowed, Fits;
    ViewScalars();
    TextIsGood(env);
    MinimumIsGood(env);
    OneType(Str(s), TEXT.members, "string");
    OneType(Str(s), NON_EMPTY.members, "string");
    ScalarFits(Str(s), TEXT, env);
    if s != "" { ScalarFits(Str(s), NON_EMPTY, env); }
  }

  lemma NumberFits(n: int, b: bool, env: Env)
    requires n >= 1
    ensures Fits(Int(n), POSITIVE, env) && Fits(Bool(b), FLAG, env)
  {
    hide Get, Good, TypeAllowed, Fits;
    ViewScalars();
    TextIsGood(env);
    MinimumIsGood(env);
    OneType(Int(n), POSITIVE.members, "integer");
    OneType(Bool(b), FLAG.members, "boolean");
    ScalarFits(Int(n), POSITIVE, env);
    ScalarFits(Bool(b), FLAG, env);
  }

  lemma ExactlyFits(text: string, env: Env)
    ensures Fits(Str(text), Exactly(text), env)
  {
    hide Get, Good, Fits;
    ViewValues(text, []);
    ExactlyIsGood(text, env);
    ScalarFits(Str(text), Exactly(text), env);
  }

  lemma OneOfFits(texts: seq<string>, k: nat, env: Env)
    requires k < |texts| && Distinct(texts)
    ensures Fits(Str(texts[k]), OneOf(texts), env)
  {
    hide Get, Good, Fits;
    ViewValues("", texts);
    OneOfIsGood(texts, env);
    assert Same(Str(texts[k]), Texts2Json(texts)[k]);
    ScalarFits(Str(texts[k]), OneOf(texts), env);
  }

  // ------------------------------------------------------------------ lists and objects

  lemma ListSatisfies(items: seq<Json>, schema: Json, node: Json, env: Env)
    requires schema.Obj? && Sound(schema, env.compiles) && GetValue(schema.members, "items") == node
      && Sound(node, env.compiles)
    requires TypeAllowed(Arr(items), schema.members) && ValueMeets(Arr(items), schema.members)
      && SizeMeets(items, schema.members)
    requires forall i :: 0 <= i < |items| ==> Satisfies(items[i], node, env)
    ensures Satisfies(Arr(items), schema, env)
  {
    hide Sound, TypeAllowed, TypeMeets, ValueMeets, SizeMeets, GetValue;
    TypeDecided(Arr(items), schema, env);
  }

  lemma ListParts(items: seq<Json>, ms: seq<Member>, node: Json)
    requires View(ms) == BARE.(typ := Some(Str("array")), items := Some(node), uniqueItems := View(ms).uniqueItems)
    requires View(ms).uniqueItems.Some? ==> forall i, j :: 0 <= i < j < |items| ==> !Same(items[i], items[j])
    ensures GetValue(ms, "items") == node && TypeAllowed(Arr(items), ms) && ValueMeets(Arr(items), ms)
      && SizeMeets(items, ms)
  {
    hide Get, Same, TypeAllowed;
    OneType(Arr(items), ms, "array");
  }

  lemma ItemsSatisfy(items: seq<Json>, node: Json, env: Env)
    requires Sound(node, env.compiles) && forall i :: 0 <= i < |items| ==> Fits(items[i], node, env)
    ensures forall i :: 0 <= i < |items| ==> Satisfies(items[i], node, env)
  {
    hide Sound, Satisfies, Fits;
    forall i | 0 <= i < |items| ensures Satisfies(items[i], node, env) { FitsIs(items[i], node, env); }
  }

  lemma GoodIsSound(node: Json, env: Env)
    requires Good(node, env)
    ensures node.Obj? && Sound(node, env.compiles)
  {
    hide Sound, Walk, WellFormed, NullFree;
  }

  lemma ListNodeFits(items: seq<Json>, schema: Json, node: Json, env: Env)
    requires Good(schema, env) && Good(node, env) && schema.Obj? && forall i :: 0 <= i < |items| ==>
      Fits(items[i], node, env)
    requires View(schema.members)
      == BARE.(typ := Some(Str("array")), items := Some(node), uniqueItems := View(schema.members).uniqueItems)
    requires View(schema.members).uniqueItems.Some? ==> forall i, j :: 0 <= i < j < |items| ==>
      !Same(items[i], items[j])
    ensures Fits(Arr(items), schema, env)
  {
    hide View, Get, Good, Sound, Satisfies, TypeAllowed, ValueMeets, SizeMeets, GetValue, Same, Fits;
    ListParts(items, schema.members, node);
    GoodIsSound(schema, env);
    GoodIsSound(node, env);
    ItemsSatisfy(items, node, env);
    ListSatisfies(items, schema, node, env);
    FitsIs(Arr(items), schema, env);
  }

  lemma ListFits(items: seq<Json>, node: Json, env: Env)
    requires Good(node, env) && forall i :: 0 <= i < |items| ==> Fits(items[i], node, env)
    ensures Fits(Arr(items), ListOf(node), env)
  {
    hide View, Good, Fits;
    ViewLists(node);
    ListsAreGood(node, env);
    ListNodeFits(items, ListOf(node), node, env);
  }

  lemma UniqueListFits(items: seq<Json>, node: Json, env: Env)
    requires Good(node, env) && forall i :: 0 <= i < |items| ==> Fits(items[i], node, env)
    requires forall i, j :: 0 <= i < j < |items| ==> !Same(items[i], items[j])
    ensures Fits(Arr(items), UniqueListOf(node), env)
  {
    hide View, Good, Fits, Same;
    ViewLists(node);
    ListsAreGood(node, env);
    ListNodeFits(items, UniqueListOf(node), node, env);
  }

  /** The values of the properties, in their order. */
  function Document(props: seq<Member>, values: seq<Json>): (r: seq<Member>)
    requires |values| == |props|
    ensures |r| == |props| && forall k :: 0 <= k < |r| ==> r[k] == Member(props[k].key, values[k])
  {
    if props == [] then [] else [Member(props[0].key, values[0])] + Document(props[1..], values[1..])
  }

  lemma HasKey(fields: seq<Member>, k: nat)
    requires k < |fields|
    ensures Has(fields, fields[k].key)
  {
  }

  lemma RequiredPresentIf(fields: seq<Member>, ms: seq<Member>, required: seq<Json>)
    requires Get(ms, "required") == Some(Arr(required))
    requires forall i :: 0 <= i < |required| && required[i].Str? ==> Has(fields, required[i].text)
    ensures RequiredPresent(fields, ms)
  {
    hide Has, Get;
  }

  lemma {:induction false} RequiredFit(fields: seq<Member>, props: seq<Member>, required: seq<Json>)
    requires |fields| == |props| && forall k :: 0 <= k < |fields| ==> fields[k].key == props[k].key
    requires required == Texts2Json(Keys(props))
    ensures forall i :: 0 <= i < |required| && required[i].Str? ==> Has(fields, required[i].text)
  {
    hide Has, Get, Keys, Texts2Json;
    forall i | 0 <= i < |required| ensures Has(fields, required[i].text) { HasKey(fields, i); }
  }

  lemma NamesFit(fields: seq<Member>, ms: seq<Member>, props: seq<Member>)
    requires RequiredPresent(fields, ms) && Get(ms, "properties") == Some(Obj(props))
    requires DistinctKeys(props) && |fields| == |props|
    requires forall k :: 0 <= k < |fields| ==> fields[k].key == props[k].key
    ensures NamesMeet(fields, ms)
    ensures forall k :: 0 <= k < |fields| ==> Property(ms, fields[k].key) == Some(props[k].value)
  {
    hide Get, DistinctKeys, RequiredPresent;
    KeysPresent(props);
  }

  lemma FieldsSatisfy(fields: seq<Member>, schema: Json, props: seq<Member>, env: Env)
    requires schema.Obj? && Sound(schema, env.compiles) && |fields| == |props|
    requires TypeAllowed(Obj(fields), schema.members) && ValueMeets(Obj(fields), schema.members)
    requires NamesMeet(fields, schema.members)
    requires forall k :: 0 <= k < |fields| ==> Property(schema.members, fields[k].key) == Some(props[k].value)
    requires forall k :: 0 <= k < |props| ==> Fits(fields[k].value, props[k].value, env)
    ensures Satisfies(Obj(fields), schema, env)
  {
    hide Sound, TypeAllowed, TypeMeets, ValueMeets, NamesMeet, Property;
    TypeDecided(Obj(fields), schema, env);
    forall i | 0 <= i < |fields| && Property(schema.members, fields[i].key).Some?
      ensures (PropertySound(schema, fields[i].key, env.compiles);
               Satisfies(fields[i].value, Property(schema.members, fields[i].key).value, env))
    {
      PropertySound(schema, fields[i].key, env.compiles);
      assert Fits(fields[i].value, props[i].value, env);
    }
  }

  lemma ObjectFits(fields: seq<Member>, schema: Json, props: seq<Member>, env: Env)
    requires AllGood(props, env) && schema.Obj? && Sound(schema, env.compiles)
    requires View(schema.members) == View(Closed(props).members)
    requires |fields| == |props| && forall k :: 0 <= k < |fields| ==> fields[k].key == props[k].key
    requires forall k :: 0 <= k < |props| ==> Fits(fields[k].value, props[k].value, env)
    ensures Fits(Obj(fields), schema, env) && DistinctKeys(fields)
  {
    hide Get, Sound, Satisfies, TypeAllowed, Good, NamesMeet, Property, Fits;
    ViewClosed(props);
    assert forall k :: 0 <= k < |fields| ==> KeyOf(fields[k]) == KeyOf(props[k]);
    OneType(Obj(fields), schema.members, "object");
    RequiredFit(fields, props, Texts2Json(Keys(props)));
    RequiredPresentIf(fields, schema.members, Texts2Json(Keys(props)));
    NamesFit(fields, schema.members, props);
    FieldsSatisfy(fields, schema, props, env);
    assert Fits(Obj(fields), schema, env) by { FitsIs(Obj(fields), schema, env); }
  }

  lemma FitsIs(v: Json, schema: Json, env: Env)
    requires Sound(schema, env.compiles)
    ensures Fits(v, schema, env) <==> Satisfies(v, schema, env)
  {
    hide Sound, Satisfies;
  }

  // ------------------------------------------------------------------- the request

  /** The letter a, n times. */
  function Letters(n: nat): (s: string)
    ensures |s| == n && forall i :: 0 <= i < n ==> s[i] == 'a'
  {
    if n == 0 then "" else "a" + Letters(n - 1)
  }

  const SHA := Letters(40)
  const PRIOR := Letters(64)

  lemma HexTexts(env: Env)
    requires Understands(env)
    ensures IsHex(SHA, 40) && IsHex(PRIOR, 64) && env.search(SHA40, SHA) && env.search(SHA256, PRIOR)
  {
  }

  /** What a request and its review say beyond the names and the commit they share. */
  datatype Draft = Draft(
    mode: string, prior: Json, eligible: seq<Json>, candidates: seq<Json>, digest: string, decision: string,
    findings: seq<Json>, blocking: bool)

  ghost predicate DraftFits(d: Draft, env: Env) {
    && d.mode in ["INITIAL", "REVERIFY"] && d.decision in ["PASS", "PASS_WITH_FINDINGS", "FAIL"] && IsHex(d.digest, 64)
    && Fits(d.prior, MatchingOrNull(SHA256), env) && Fits(Arr(d.eligible), UniqueListOf(Matching(FINDING)), env)
    && Fits(Arr(d.candidates), ListOf(Closed(CANDIDATE_PROPERTIES)), env)
    && Fits(Arr(d.findings), ListOf(Closed(FINDING_PROPERTIES)), env)
  }

  predicate DraftWellFormed(d: Draft) {
    WellFormed(d.prior) && WellFormed(Arr(d.eligible)) && WellFormed(Arr(d.candidates)) && WellFormed(Arr(d.findings))
  }

  function RequestValues(d: Draft): (r: seq<Json>)
    ensures |r| == 11
  {
    [Str(PROTOCOL), Str("review-request.schema.json@1"), Str("request-1"), Str("WO-0001"), Int(1), Str(d.mode),
     Str(SHA), Str(SHA), d.prior, Arr(d.eligible), Arr(d.candidates)]
  }

  /** A request for a review of this head. */
  function Request(d: Draft): (r: Fields)
    ensures |r| == 11 && r != []
  {
    Document(REQUEST_PROPERTIES, RequestValues(d))
  }

  lemma {:induction false} DocumentDistinct(props: seq<Member>, values: seq<Json>)
    requires |values| == |props| && DistinctKeys(props)
    ensures DistinctKeys(Document(props, values))
  {
    assert forall k :: 0 <= k < |props| ==> KeyOf(Document(props, values)[k]) == KeyOf(props[k]);
  }

  lemma {:induction false} DocumentWellFormed(props: seq<Member>, values: seq<Json>)
    requires |values| == |props| && DistinctKeys(props) && forall k :: 0 <= k < |values| ==> WellFormed(values[k])
    ensures WellFormed(Obj(Document(props, values)))
  {
    hide DistinctKeys, Document;
    DocumentDistinct(props, values);
  }

  lemma {:induction false} FieldReads(props: seq<Member>, values: seq<Json>)
    requires |values| == |props| && DistinctKeys(props)
    ensures forall k :: 0 <= k < |props| ==> Get(Document(props, values), props[k].key) == Some(values[k])
  {
    hide Get, DistinctKeys, Document;
    DocumentDistinct(props, values);
    KeysPresent(Document(props, values));
  }

  ghost predicate RequestReads(r: Fields, d: Draft) {
    && Is(r, "protocol", PROTOCOL) && Is(r, "schema_version", "review-request.schema.json@1")
    && Is(r, "work_order_id", "WO-0001") && Get(r, "pr_number") == Some(Int(1))
    && Is(r, "expected_review_mode", d.mode) && Is(r, "head_sha", SHA) && Is(r, "tree_sha", SHA)
    && Get(r, "prior_review_artifact_sha256") == Some(d.prior)
    && Get(r, "eligible_finding_ids") == Some(Arr(d.eligible)) && Get(r, "fix_candidates") == Some(Arr(d.candidates))
  }

  lemma RequestFields(d: Draft)
    ensures RequestReads(Request(d), d)
  {
    hide Get, Document, DistinctKeys, Matching, MatchingOrNull, OneOf, Exactly, ListOf, UniqueListOf, Closed;
    var ps := REQUEST_PROPERTIES;
    RequestKeys();
    FieldReads(ps, RequestValues(d));
    assert ps[0].key == "protocol" && ps[1].key == "schema_version" && ps[3].key == "work_order_id"
      && ps[4].key == "pr_number";
    assert ps[5].key == "expected_review_mode" && ps[6].key == "head_sha" && ps[7].key == "tree_sha";
    assert ps[8].key == "prior_review_artifact_sha256" && ps[9].key == "eligible_finding_ids"
      && ps[10].key == "fix_candidates";
  }

  lemma ModeFits(mode: string, env: Env)
    requires mode in ["INITIAL", "REVERIFY"]
    ensures Fits(Str(mode), OneOf(["INITIAL", "REVERIFY"]), env)
  {
    hide Fits;
    RequestModes();
    var k :| 0 <= k < 2 && ["INITIAL", "REVERIFY"][k] == mode;
    OneOfFits(["INITIAL", "REVERIFY"], k, env);
  }

  lemma DecisionFits(decision: string, env: Env)
    requires decision in ["PASS", "PASS_WITH_FINDINGS", "FAIL"]
    ensures Fits(Str(decision), OneOf(["PASS", "PASS_WITH_FINDINGS", "FAIL"]), env)
  {
    hide Fits;
    Decisions();
    var k :| 0 <= k < 3 && ["PASS", "PASS_WITH_FINDINGS", "FAIL"][k] == decision;
    OneOfFits(["PASS", "PASS_WITH_FINDINGS", "FAIL"], k, env);
  }

  lemma SharedFit(env: Env)
    requires Understands(env)
    ensures Fits(Str(PROTOCOL), Exactly("QF-AI-COLLAB-v5"), env)
    ensures Fits(Str("WO-0001"), Matching(WORK_ORDER), env) && Fits(Str(SHA), Matching(SHA40), env)
  {
    hide Fits;
    HexTexts(env);
    ExactlyFits(PROTOCOL, env);
    MatchingFits("WO-0001", WORK_ORDER, env);
    MatchingFits(SHA, SHA40, env);
  }

  lemma RequestFits(d: Draft, env: Env)
    requires Understands(env) && DraftFits(d, env)
    ensures Fits(Obj(Request(d)), REVIEW_REQUEST, env)
  {
    hide Fits, View, Sound, AllGood, Matching, MatchingOrNull, OneOf, Exactly, ListOf, UniqueListOf, Closed;
    hide DistinctKeys, IsHex;
    ModeFits(d.mode, env);
    SharedFit(env);
    ExactlyFits("review-request.schema.json@1", env);
    TextFits("request-1", env);
    NumberFits(1, true, env);
    RequestPropertiesAreGood(env);
    RequestSchemaSound(env);
    ViewRooted("review-request.schema.json@1", REQUEST_PROPERTIES);
    ObjectFits(Request(d), REVIEW_REQUEST, REQUEST_PROPERTIES, env);
  }

  lemma RequestSchemaSound(env: Env)
    requires Compiles(env)
    ensures Sound(REVIEW_REQUEST, env.compiles)
  {
    hide Sound, WellFormed, NullFree;
    RequestSchemaAccepted(env);
  }

  lemma RequestIsWellFormed(d: Draft)
    requires DraftWellFormed(d)
    ensures WellFormed(Obj(Request(d)))
  {
    hide WellFormed, Document, DistinctKeys, Matching, MatchingOrNull, OneOf, Exactly, ListOf, UniqueListOf, Closed;
    RequestKeys();
    var values := RequestValues(d);
    forall k | 0 <= k < 11 ensures WellFormed(values[k]) {
      if k < 8 { ScalarIsWellFormed(values[k]); }
    }
    DocumentWellFormed(REQUEST_PROPERTIES, values);
  }

  // ------------------------------------------------------------------- the review

  const COVERAGE_FIELDS: Fields :=
    [Member("files_read", Arr([])), Member("checks_confirmed", Arr([])), Member("review_areas", Arr([]))]

  function ReviewValues(d: Draft): (r: seq<Json>)
    ensures |r| == 15
  {
    [Str(PROTOCOL), Str("technical-review.schema.json@3"), Str("claude_reviewer"), Str(d.mode), Str(d.digest),
     Str("WO-0001"), Str(SHA), Str(SHA), Str(SHA), Str(d.decision), Obj(COVERAGE_FIELDS), Arr(d.findings), Arr([]),
     Bool(d.blocking), Arr([])]
  }

  /** A review of that head, for the request with that digest. */
  function Review(d: Draft): (r: Fields)
    ensures |r| == 15 && r != []
  {
    Document(REVIEW_PROPERTIES, ReviewValues(d))
  }

  ghost predicate ReviewNames(r: Fields, d: Draft) {
    && Is(r, "protocol", PROTOCOL) && Is(r, "schema_version", "technical-review.schema.json@3")
    && Is(r, "role", "claude_reviewer") && Is(r, "review_mode", d.mode) && Is(r, "review_request_sha256", d.digest)
    && Is(r, "work_order_id", "WO-0001")
  }

  ghost predicate ReviewReads(r: Fields, d: Draft) {
    && Is(r, "reviewed_commit_sha", SHA) && Is(r, "reviewed_tree_sha", SHA) && Is(r, "default_branch_sha", SHA)
    && Is(r, "decision", d.decision) && Get(r, "coverage") == Some(Obj(COVERAGE_FIELDS))
    && Get(r, "findings") == Some(Arr(d.findings)) && IsTruth(r, "blocking", d.blocking) && Has(r, "unverified")
  }

  lemma ReviewNameFields(d: Draft)
    ensures ReviewNames(Review(d), d)
  {
    hide Get, Document, DistinctKeys, Matching, OneOf, Exactly, ListOf, Closed;
    var ps := REVIEW_PROPERTIES;
    ReviewKeys();
    FieldReads(ps, ReviewValues(d));
    assert ps[0].key == "protocol" && ps[1].key == "schema_version" && ps[2].key == "role"
      && ps[3].key == "review_mode";
    assert ps[4].key == "review_request_sha256" && ps[5].key == "work_order_id";
  }

  lemma ReviewFields(d: Draft)
    ensures ReviewReads(Review(d), d)
  {
    hide Get, Document, DistinctKeys, Matching, OneOf, Exactly, ListOf, Closed;
    var ps := REVIEW_PROPERTIES;
    ReviewKeys();
    FieldReads(ps, ReviewValues(d));
    assert ps[6].key == "reviewed_commit_sha" && ps[7].key == "reviewed_tree_sha" && ps[8].key == "default_branch_sha";
    assert ps[9].key == "decision" && ps[10].key == "coverage" && ps[11].key == "findings";
    assert ps[13].key == "blocking" && ps[14].key == "unverified";
  }

  lemma CoverageFits(env: Env)
    ensures Fits(Obj(COVERAGE_FIELDS), Closed(COVERAGE_PROPERTIES), env) && Fits(Arr([]), ListOf(TEXT), env)
    ensures DistinctKeys(COVERAGE_FIELDS)
  {
    hide Fits, View, Sound, AllGood, ListOf, Good, DistinctKeys;
    TextIsGood(env);
    ListFits([], TEXT, env);
    CoverageIsGood(env);
    GoodIsSound(Closed(COVERAGE_PROPERTIES), env);
    ObjectFits(COVERAGE_FIELDS, Closed(COVERAGE_PROPERTIES), COVERAGE_PROPERTIES, env);
  }

  lemma ReviewSchemaSound(env: Env)
    requires Compiles(env)
    ensures Sound(TECHNICAL_REVIEW, env.compiles)
  {
    hide Sound, WellFormed, NullFree;
    ReviewSchemaAccepted(env);
  }

  lemma ReviewFits(d: Draft, env: Env)
    requires Understands(env) && DraftFits(d, env)
    ensures Fits(Obj(Review(d)), TECHNICAL_REVIEW, env)
  {
    hide Fits, View, Sound, AllGood, Matching, MatchingOrNull, OneOf, Exactly, ListOf, UniqueListOf, Closed;
    hide DistinctKeys, IsHex;
    ModeFits(d.mode, env);
    DecisionFits(d.decision, env);
    SharedFit(env);
    ExactlyFits("technical-review.schema.json@3", env);
    ExactlyFits("claude_reviewer", env);
    MatchingFits(d.digest, SHA256, env);
    NumberFits(1, d.blocking, env);
    CoverageFits(env);
    ReviewPropertiesAreGood(env);
    ReviewSchemaSound(env);
    ViewRooted("technical-review.schema.json@3", REVIEW_PROPERTIES);
    ObjectFits(Review(d), TECHNICAL_REVIEW, REVIEW_PROPERTIES, env);
  }

  lemma ReviewIsWellFormed(d: Draft)
    requires DraftWellFormed(d)
    ensures WellFormed(Obj(Review(d)))
  {
    hide WellFormed, Document, DistinctKeys, Matching, OneOf, Exactly, ListOf, Closed;
    ReviewKeys();
    var values := ReviewValues(d);
    CoverageIsWellFormed();
    forall k | 0 <= k < 15 ensures WellFormed(values[k]) {
      if k < 10 || k == 13 { ScalarIsWellFormed(values[k]); }
    }
    DocumentWellFormed(REVIEW_PROPERTIES, values);
  }

  lemma CoverageIsWellFormed()
    ensures WellFormed(Arr([])) && WellFormed(Obj(COVERAGE_FIELDS))
  {
  }
}
