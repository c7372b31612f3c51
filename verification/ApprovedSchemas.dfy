/** The approved schemas of review requests and technical reviews, and that the definition walk accepts them. */
module ApprovedSchemas {
  import opened Base
  import opened Json
  import opened Schema
  import opened Instance
  import opened ReviewLoop

  // ------------------------------------------------------------------- kinds of nodes

  const TEXT := Obj([Member("type", Str("string"))])
  const FLAG := Obj([Member("type", Str("boolean"))])
  const NON_EMPTY := Obj([Member("type", Str("string")), Member("minLength", Int(1))])
  const POSITIVE := Obj([Member("type", Str("integer")), Member("minimum", Int(1))])

  function Exactly(text: string): Json {
    Obj([Member("const", Str(text))])
  }

  function Texts2Json(texts: seq<string>): (r: seq<Json>)
    ensures |r| == |texts| && forall i :: 0 <= i < |r| ==> r[i] == Str(texts[i])
  {
    if texts == [] then [] else [Str(texts[0])] + Texts2Json(texts[1..])
  }

  function OneOf(texts: seq<string>): Json {
    Obj([Member("enum", Arr(Texts2Json(texts)))])
  }

  function Matching(pattern: string): Json {
    Obj([Member("type", Str("string")), Member("pattern", Str(pattern))])
  }

  function MatchingOrNull(pattern: string): Json {
    Obj([Member("type", Arr([Str("string"), Str("null")])), Member("pattern", Str(pattern))])
  }

  function ListOf(items: Json): Json {
    Obj([Member("type", Str("array")), Member("items", items)])
  }

  function UniqueListOf(items: Json): Json {
    Obj([Member("type", Str("array")), Member("uniqueItems", Bool(true)), Member("items", items)])
  }

  /** A closed object all of whose properties are required. */
  function Closed(props: seq<Member>): Json {
    Obj([Member("type", Str("object")), Member("additionalProperties", Bool(false)),
         Member("required", Arr(Texts2Json(Keys(props)))), Member("properties", Obj(props))])
  }

  function Rooted(id: string, props: seq<Member>): Json {
    Obj([Member("$schema", Str(DRAFT)), Member("$id", Str(id)),
         Member("type", Str("object")), Member("additionalProperties", Bool(false)),
         Member("required", Arr(Texts2Json(Keys(props)))), Member("properties", Obj(props))])
  }

  // ------------------------------------------------------------------- the two schemas

  const SHA40 := "^[0-9a-f]{40}$"
  const SHA256 := "^[0-9a-f]{64}$"
  const WORK_ORDER := "^WO-[0-9]{4,}$"
  const FINDING := "^AUTO-IMPL-P[0-3]-[0-9]{3}$"

  const CANDIDATE_PROPERTIES: seq<Member> :=
    [Member("finding_id", Matching(FINDING)), Member("candidate_sha", Matching(SHA40)),
     Member("record_sha256", Matching(SHA256))]

  const REQUEST_PROPERTIES: seq<Member> :=
    [Member("protocol", Exactly("QF-AI-COLLAB-v5")), Member("schema_version", Exactly("review-request.schema.json@1")),
     Member("request_id", NON_EMPTY), Member("work_order_id", Matching(WORK_ORDER)), Member("pr_number", POSITIVE),
     Member("expected_review_mode", OneOf(["INITIAL", "REVERIFY"])),
     Member("head_sha", Matching(SHA40)), Member("tree_sha", Matching(SHA40)),
     Member("prior_review_artifact_sha256", MatchingOrNull(SHA256)),
     Member("eligible_finding_ids", UniqueListOf(Matching(FINDING))),
     Member("fix_candidates", ListOf(Closed(CANDIDATE_PROPERTIES)))]

  const REVIEW_REQUEST := Rooted("review-request.schema.json@1", REQUEST_PROPERTIES)

  const COVERAGE_PROPERTIES: seq<Member> :=
    [Member("files_read", ListOf(TEXT)), Member("checks_confirmed", ListOf(TEXT)), Member("review_areas", ListOf(TEXT))]

  const FINDING_PROPERTIES: seq<Member> :=
    [Member("id", Matching(FINDING)), Member("severity", OneOf(["P0", "P1", "P2", "P3"])),
     Member("verification_status", OneOf(["OPEN", "VERIFIED"])), Member("disposition", Exactly("UNDECIDED")),
     Member("path", NON_EMPTY), Member("evidence", NON_EMPTY), Member("risk", NON_EMPTY),
     Member("required_change", NON_EMPTY), Member("residual_risk", TEXT)]

  const REVIEW_PROPERTIES: seq<Member> :=
    [Member("protocol", Exactly("QF-AI-COLLAB-v5")),
     Member("schema_version", Exactly("technical-review.schema.json@3")),
     Member("role", Exactly("claude_reviewer")), Member("review_mode", OneOf(["INITIAL", "REVERIFY"])),
     Member("review_request_sha256", Matching(SHA256)), Member("work_order_id", Matching(WORK_ORDER)),
     Member("reviewed_commit_sha", Matching(SHA40)), Member("reviewed_tree_sha", Matching(SHA40)),
     Member("default_branch_sha", Matching(SHA40)), Member("decision", OneOf(["PASS", "PASS_WITH_FINDINGS", "FAIL"])),
     Member("coverage", Closed(COVERAGE_PROPERTIES)), Member("findings", ListOf(Closed(FINDING_PROPERTIES))),
     Member("notes", ListOf(TEXT)), Member("blocking", FLAG), Member("unverified", ListOf(TEXT))]

  const TECHNICAL_REVIEW := Rooted("technical-review.schema.json@3", REVIEW_PROPERTIES)

  // --------------------------------------------------------------------- keyword lookup

  /** The keywords that are as long as another one. */
  lemma KeywordsDiffer()
    ensures "type" != "enum" && "items" != "const" && "items" != "title" && "const" != "title"
    ensures "$schema" != "pattern" && "$schema" != "minimum" && "$schema" != "maximum"
    ensures "pattern" != "minimum" && "pattern" != "maximum" && "minimum" != "maximum" && "required" != "minItems"
  {
    assert "type"[0] == 't' && "enum"[0] == 'e' && "items"[0] == 'i' && "const"[0] == 'c' && "title"[0] == 't';
    assert "$schema"[0] == '$' && "pattern"[0] == 'p' && "minimum"[1] == 'i' && "maximum"[1] == 'a';
    assert "minimum"[0] == 'm' && "maximum"[0] == 'm' && "required"[0] == 'r' && "minItems"[0] == 'm';
  }

  /** What lookups of the constraining keywords give. */
  datatype Node = Node(
    typ: Option<Json>, properties: Option<Json>, required: Option<Json>, additional: Option<Json>, const_: Option<Json>,
    enum: Option<Json>, items: Option<Json>, minItems: Option<Json>, uniqueItems: Option<Json>, minLength: Option<Json>,
    pattern: Option<Json>, format: Option<Json>, minimum: Option<Json>, maximum: Option<Json>)

  function View(ms: seq<Member>): Node {
    Node(Get(ms, "type"), Get(ms, "properties"), Get(ms, "required"), Get(ms, "additionalProperties"), Get(ms, "const"),
         Get(ms, "enum"), Get(ms, "items"), Get(ms, "minItems"), Get(ms, "uniqueItems"), Get(ms, "minLength"),
         Get(ms, "pattern"), Get(ms, "format"), Get(ms, "minimum"), Get(ms, "maximum"))
  }

  const BARE := Node(None, None, None, None, None, None, None, None, None, None, None, None, None, None)

  function Or(m: Member, key: string, rest: Option<Json>): Option<Json> {
    if m.key == key then Some(m.value) else rest
  }

  function With(m: Member, n: Node): Node {
    Node(Or(m, "type", n.typ), Or(m, "properties", n.properties), Or(m, "required", n.required),
         Or(m, "additionalProperties", n.additional), Or(m, "const", n.const_), Or(m, "enum", n.enum),
         Or(m, "items", n.items), Or(m, "minItems", n.minItems), Or(m, "uniqueItems", n.uniqueItems),
         Or(m, "minLength", n.minLength), Or(m, "pattern", n.pattern), Or(m, "format", n.format),
         Or(m, "minimum", n.minimum), Or(m, "maximum", n.maximum))
  }

  lemma GetFront(m: Member, rest: seq<Member>, key: string)
    ensures Get([m] + rest, key) == Or(m, key, Get(rest, key))
  {
    assert ([m] + rest)[1..] == rest;
  }

  /** A lookup sees the first member first. */
  lemma ViewFront(m: Member, rest: seq<Member>)
    ensures View([m] + rest) == With(m, View(rest))
  {
    hide Get, Or;
    forall key: string ensures Get([m] + rest, key) == Or(m, key, Get(rest, key)) { GetFront(m, rest, key); }
  }

  lemma ViewNone()
    ensures View([]) == BARE
  {
  }

  lemma WithText(v: Json, n: Node)
    ensures With(Member("type", v), n) == n.(typ := Some(v))
    ensures With(Member("minLength", v), n) == n.(minLength := Some(v))
    ensures With(Member("minimum", v), n) == n.(minimum := Some(v))
    ensures With(Member("pattern", v), n) == n.(pattern := Some(v))
    ensures With(Member("const", v), n) == n.(const_ := Some(v))
  {
    KeywordsDiffer();
  }

  lemma WithParts(v: Json, n: Node)
    ensures With(Member("enum", v), n) == n.(enum := Some(v))
    ensures With(Member("items", v), n) == n.(items := Some(v))
    ensures With(Member("uniqueItems", v), n) == n.(uniqueItems := Some(v))
    ensures With(Member("additionalProperties", v), n) == n.(additional := Some(v))
    ensures With(Member("required", v), n) == n.(required := Some(v))
    ensures With(Member("properties", v), n) == n.(properties := Some(v))
    ensures With(Member("$schema", v), n) == n && With(Member("$id", v), n) == n
  {
    KeywordsDiffer();
  }

  /** The lookups in each kind of node. */
  lemma ViewOne(m: Member)
    ensures View([m]) == With(m, BARE)
  {
    hide View, With;
    ViewNone();
    ViewFront(m, []);
    assert [m] + [] == [m];
  }

  lemma ViewTwo(m: Member, n: Member)
    ensures View([m, n]) == With(m, With(n, BARE))
  {
    hide View, With;
    ViewOne(n);
    ViewFront(m, [n]);
    assert [m] + [n] == [m, n];
  }

  lemma ViewThree(l: Member, m: Member, n: Member)
    ensures View([l, m, n]) == With(l, With(m, With(n, BARE)))
  {
    hide View, With;
    ViewTwo(m, n);
    ViewFront(l, [m, n]);
    assert [l] + [m, n] == [l, m, n];
  }

  const OBJECT := BARE.(typ := Some(Str("object")), additional := Some(Bool(false)))

  lemma ViewClosed(props: seq<Member>)
    ensures View(Closed(props).members)
      == OBJECT.(required := Some(Arr(Texts2Json(Keys(props)))), properties := Some(Obj(props)))
  {
    hide View, With, Keys, Texts2Json;
    var ms := Closed(props).members;
    ViewTwo(ms[2], ms[3]);
    ViewFront(ms[1], [ms[2], ms[3]]);
    ViewFront(ms[0], [ms[1], ms[2], ms[3]]);
    assert [ms[1]] + [ms[2], ms[3]] == [ms[1], ms[2], ms[3]];
    assert [ms[0]] + [ms[1], ms[2], ms[3]] == ms;
    WithParts(ms[3].value, BARE);
    WithParts(ms[2].value, BARE.(properties := Some(ms[3].value)));
    WithParts(ms[1].value, BARE.(properties := Some(ms[3].value), required := Some(ms[2].value)));
    WithText(ms[0].value, OBJECT.(typ := None, properties := Some(ms[3].value), required := Some(ms[2].value)));
  }

  lemma ViewRooted(id: string, props: seq<Member>)
    ensures View(Rooted(id, props).members) == View(Closed(props).members)
  {
    hide View, With, Keys, Texts2Json;
    var ms, body := Rooted(id, props).members, Closed(props).members;
    ViewFront(ms[1], body);
    ViewFront(ms[0], [ms[1]] + body);
    assert [ms[0]] + ([ms[1]] + body) == ms;
    WithParts(ms[1].value, View(body));
    WithParts(ms[0].value, View(body));
  }

  // ------------------------------------------------------------- the definition walk accepts

  /** A nested definition the walk accepts, without the nulls on which the validator raises. */
  predicate Good(node: Json, env: Env) {
    Clean(node, env) && Walk(node, Nested, env.compiles).Accepted?
  }

  predicate AllGood(props: seq<Member>, env: Env) {
    DistinctKeys(props) && forall k :: 0 <= k < |props| ==> Good(props[k].value, env)
  }

  lemma {:induction false} WalkAllGood(props: seq<Member>, env: Env)
    requires forall k :: 0 <= k < |props| ==> Good(props[k].value, env)
    ensures WalkAll(props, env.compiles).Accepted?
  {
    hide Walk, Clean;
    if props != [] {
      assert forall k :: 0 < k < |props| ==> props[k] == props[1..][k - 1];
      WalkAllGood(props[1..], env);
      assert Good(props[0].value, env);
    }
  }

  lemma BodyAccepts(ms: seq<Member>, compiles: string -> bool)
    requires Checked(ms, compiles)
    requires Has(ms, "properties") ==>
      Get(ms, "properties").value.Obj? && WalkAll(Get(ms, "properties").value.members, compiles).Accepted?
    requires Has(ms, "items") ==> Walk(Get(ms, "items").value, Nested, compiles).Accepted?
    ensures Sound(Obj(ms), compiles)
  {
    hide TypeCheck, RequiredCheck, EnumCheck, CountCheck, BoundsCheck, TextCheck, TypeNeeds, BooleanCheck, WalkAll;
    hide Walk, IndexOf;
  }

  lemma NoNulls(ms: seq<Member>)
    requires Get(ms, "properties") != Some(Null) && Get(ms, "required") != Some(Null)
    requires Get(ms, "enum") != Some(Null) && Get(ms, "items") != Some(Null)
    requires Has(ms, "properties") ==>
      var props := Get(ms, "properties").value;
      props.Obj? && forall k :: 0 <= k < |props.members| ==> NullFree(props.members[k].value)
    requires Has(ms, "items") ==> NullFree(Get(ms, "items").value)
    ensures NullFree(Obj(ms))
  {
    hide IndexOf;
  }

  lemma GoodParts(node: Json, env: Env)
    requires Good(node, env)
    ensures node.Obj? && Clean(node, env) && Walk(node, Nested, env.compiles).Accepted? && NullFree(node)
      && WellFormed(node)
  {
    hide Walk, NullFree, WellFormed, Sound;
  }

  /** Subschemas are good, and what else the walk checks of a node holds. */
  lemma NodeIsClean(ms: seq<Member>, env: Env)
    requires WellFormed(Obj(ms)) && Checked(ms, env.compiles)
    requires Get(ms, "required") != Some(Null) && Get(ms, "enum") != Some(Null)
    requires Has(ms, "properties") ==>
      Get(ms, "properties").value.Obj? && AllGood(Get(ms, "properties").value.members, env)
    requires Has(ms, "items") ==> Good(Get(ms, "items").value, env)
    ensures Clean(Obj(ms), env)
  {
    hide Checked, WalkAll, Walk, WellFormed, Sound, NullFree, Get, DistinctKeys, Good;
    if Has(ms, "properties") {
      var props := Get(ms, "properties").value.members;
      WalkAllGood(props, env);
      forall k | 0 <= k < |props| ensures NullFree(props[k].value) { GoodParts(props[k].value, env); }
    }
    if Has(ms, "items") { GoodParts(Get(ms, "items").value, env); }
    BodyAccepts(ms, env.compiles);
    NoNulls(ms);
  }

  lemma NodeIsGood(ms: seq<Member>, env: Env)
    requires Clean(Obj(ms), env) && HeadCheck(ms, Nested).Accepted?
    ensures Good(Obj(ms), env)
  {
    hide Body, HeadCheck, NullFree, WellFormed;
  }

  /** A keyword allowed below the root. */
  predicate NestedKeyword(key: string) {
    key in ["type", "const", "enum", "minLength", "minimum", "pattern", "items", "uniqueItems", "required",
            "properties", "additionalProperties"]
  }

  lemma NestedKeywordAllowed(key: string)
    requires NestedKeyword(key)
    ensures IsKeyword(key) && key != "$schema" && key != "$id" && key != "title"
  {
    KeywordsDiffer();
  }

  lemma NestedHead(ms: seq<Member>)
    requires forall i :: 0 <= i < |ms| ==> NestedKeyword(ms[i].key)
    ensures HeadCheck(ms, Nested).Accepted?
  {
    hide NestedKeyword, IsKeyword;
    forall i | 0 <= i < |ms|
      ensures IsKeyword(ms[i].key) && ms[i].key != "$schema" && ms[i].key != "$id" && ms[i].key != "title"
    {
      NestedKeywordAllowed(ms[i].key);
    }
  }

  lemma TypeIsOne(ms: seq<Member>, name: string)
    requires Get(ms, "type") == Some(Str(name)) && IsType(name)
    ensures TypeCheck(ms).Accepted? && Types(ms) == [name]
  {
    hide Get, IsType, Repeats;
    RepeatsIffNotDistinct([name]);
  }

  predicate SimpleText(n: Node, compiles: string -> bool) {
    && n == BARE.(typ := Some(Str("string")), minLength := n.minLength, pattern := n.pattern)
    && n.minLength in [None, Some(Int(1))]
    && (n.pattern.None? || (n.pattern.value.Str? && compiles(n.pattern.value.text)))
  }

  lemma SimpleTextIsClean(ms: seq<Member>, env: Env)
    requires SimpleText(View(ms), env.compiles) && WellFormed(Obj(ms))
    ensures Clean(Obj(ms), env)
  {
    hide Get, Repeats, Clean, WellFormed;
    TypeIsOne(ms, "string");
    NodeIsClean(ms, env);
  }

  lemma TypeIsTextOrNull(ms: seq<Member>)
    requires Get(ms, "type") == Some(Arr([Str("string"), Str("null")]))
    ensures TypeCheck(ms).Accepted? && Types(ms) == ["string", "null"]
  {
    hide Get, Repeats, IsType;
    assert AllText([Str("string"), Str("null")]);
    assert Texts([Str("string"), Str("null")]) == ["string", "null"];
    assert IsType("string") && IsType("null") by { BothTypes(); }
    RepeatsIffNotDistinct(["string", "null"]);
  }

  lemma BothTypes()
    ensures IsType("string") && IsType("null")
  {
  }

  lemma TextOrNullIsClean(ms: seq<Member>, pattern: string, env: Env)
    requires View(ms) == BARE.(typ := Some(Arr([Str("string"), Str("null")])), pattern := Some(Str(pattern)))
    requires env.compiles(pattern) && WellFormed(Obj(ms))
    ensures Clean(Obj(ms), env)
  {
    hide Get, Repeats, Clean, WellFormed;
    TypeIsTextOrNull(ms);
    NodeIsClean(ms, env);
  }

  lemma {:induction false} PowerGrows(n: nat, k: nat)
    ensures Power2(n + k + 1) >= 2 * Power2(n) && Power2(n) > n
  {
    if k > 0 { PowerGrows(n, k - 1); }
    if n > 0 { PowerGrows(n - 1, 0); }
  }

  lemma OneFits()
    ensures FitsDouble(1)
  {
    hide Power2;
    PowerGrows(970, 53);
  }

  lemma PositiveIsClean(ms: seq<Member>, env: Env)
    requires View(ms) == BARE.(typ := Some(Str("integer")), minimum := Some(Int(1))) && WellFormed(Obj(ms))
    ensures Clean(Obj(ms), env)
  {
    hide Get, Repeats, Clean, WellFormed, FitsDouble;
    TypeIsOne(ms, "integer");
    OneFits();
    NodeIsClean(ms, env);
  }

  lemma FlagIsClean(ms: seq<Member>, env: Env)
    requires View(ms) == BARE.(typ := Some(Str("boolean"))) && WellFormed(Obj(ms))
    ensures Clean(Obj(ms), env)
  {
    hide Get, Repeats, Clean, WellFormed;
    TypeIsOne(ms, "boolean");
    NodeIsClean(ms, env);
  }

  lemma ConstIsClean(ms: seq<Member>, v: Json, env: Env)
    requires View(ms) == BARE.(const_ := Some(v)) && WellFormed(Obj(ms))
    ensures Clean(Obj(ms), env)
  {
    hide Get, Clean, WellFormed;
    NodeIsClean(ms, env);
  }

  lemma TextsCanonical(texts: seq<string>)
    requires Distinct(texts)
    ensures !Repeats(CanonicalTexts(Texts2Json(texts)))
  {
    hide CanonicalJson, Repeats;
    var values := Texts2Json(texts);
    RepeatsIffNotDistinct(CanonicalTexts(values));
    forall i, j | 0 <= i < j < |values| ensures CanonicalTexts(values)[i] != CanonicalTexts(values)[j] {
      CanonicalJsonDecidesSame(values[i], values[j]);
    }
  }

  lemma EnumIsClean(ms: seq<Member>, texts: seq<string>, env: Env)
    requires View(ms) == BARE.(enum := Some(Arr(Texts2Json(texts)))) && WellFormed(Obj(ms))
    requires texts != [] && Distinct(texts)
    ensures Clean(Obj(ms), env)
  {
    hide Get, Clean, WellFormed, CanonicalTexts, Repeats, Texts2Json;
    TextsCanonical(texts);
    NodeIsClean(ms, env);
  }

  lemma ListIsClean(ms: seq<Member>, items: Json, env: Env)
    requires View(ms) == BARE.(typ := Some(Str("array")), items := Some(items), uniqueItems := View(ms).uniqueItems)
    requires View(ms).uniqueItems in [None, Some(Bool(true))]
    requires WellFormed(Obj(ms)) && Good(items, env)
    ensures Clean(Obj(ms), env)
  {
    hide Get, Repeats, Clean, WellFormed, Good;
    TypeIsOne(ms, "array");
    NodeIsClean(ms, env);
  }

  lemma TextsBack(texts: seq<string>)
    ensures AllText(Texts2Json(texts)) && Texts(Texts2Json(texts)) == texts
  {
  }

  lemma {:induction false} KeysPresent(props: seq<Member>)
    requires DistinctKeys(props)
    ensures Distinct(Keys(props)) && forall k :: 0 <= k < |props| ==> Get(props, props[k].key) == Some(props[k].value)
  {
    hide Get;
    assert forall k :: 0 <= k < |props| ==> KeyOf(props[k]) == Keys(props)[k];
    forall k | 0 <= k < |props| ensures Get(props, props[k].key) == Some(props[k].value) {
      GetIs(props, props[k].key, props[k].value);
      assert props[k] == Member(props[k].key, props[k].value);
    }
  }

  lemma RequiredKeys(ms: seq<Member>, props: seq<Member>)
    requires Get(ms, "required") == Some(Arr(Texts2Json(Keys(props)))) && Get(ms, "properties") == Some(Obj(props))
    requires DistinctKeys(props)
    ensures RequiredCheck(ms).Accepted?
  {
    hide Get, Repeats, DistinctKeys, Texts;
    TextsBack(Keys(props));
    KeysPresent(props);
    RepeatsIffNotDistinct(Keys(props));
  }

  lemma ClosedIsClean(ms: seq<Member>, props: seq<Member>, env: Env)
    requires View(ms) == OBJECT.(required := Some(Arr(Texts2Json(Keys(props)))), properties := Some(Obj(props)))
    requires WellFormed(Obj(ms)) && AllGood(props, env)
    ensures Clean(Obj(ms), env)
  {
    hide Get, Repeats, Clean, WellFormed, Good, RequiredCheck, Texts2Json;
    TypeIsOne(ms, "object");
    RequiredKeys(ms, props);
    NodeIsClean(ms, env);
  }

  // ------------------------------------------------------------- each kind of definition

  lemma OneMember(m: Member)
    requires NestedKeyword(m.key) && WellFormed(m.value)
    ensures WellFormed(Obj([m])) && HeadCheck([m], Nested).Accepted?
  {
    hide NestedKeyword, HeadCheck;
    NestedHead([m]);
  }

  lemma TwoMembers(m: Member, n: Member)
    requires NestedKeyword(m.key) && NestedKeyword(n.key) && m.key != n.key && WellFormed(m.value)
      && WellFormed(n.value)
    ensures WellFormed(Obj([m, n])) && HeadCheck([m, n], Nested).Accepted?
  {
    hide NestedKeyword, HeadCheck;
    NestedHead([m, n]);
  }

  lemma ScalarIsWellFormed(v: Json)
    requires v.Str? || v.Int? || v.Bool?
    ensures WellFormed(v)
  {
  }

  lemma ViewScalars()
    ensures View(TEXT.members) == BARE.(typ := Some(Str("string")))
    ensures View(FLAG.members) == BARE.(typ := Some(Str("boolean")))
    ensures View(NON_EMPTY.members) == BARE.(typ := Some(Str("string")), minLength := Some(Int(1)))
    ensures View(POSITIVE.members) == BARE.(typ := Some(Str("integer")), minimum := Some(Int(1)))
  {
    hide View, With;
    ViewOne(TEXT.members[0]);
    ViewOne(FLAG.members[0]);
    ViewTwo(NON_EMPTY.members[0], NON_EMPTY.members[1]);
    ViewTwo(POSITIVE.members[0], POSITIVE.members[1]);
    WithText(Int(1), BARE);
    WithText(Str("string"), BARE);
    WithText(Str("boolean"), BARE);
    WithText(Str("string"), BARE.(minLength := Some(Int(1))));
    WithText(Str("integer"), BARE.(minimum := Some(Int(1))));
  }

  lemma TextIsGood(env: Env)
    ensures Good(TEXT, env) && Good(FLAG, env)
  {
    hide View, Clean, WellFormed, Good, HeadCheck;
    ScalarIsWellFormed(Str("string"));
    ScalarIsWellFormed(Str("boolean"));
    OneMember(TEXT.members[0]);
    OneMember(FLAG.members[0]);
    ViewScalars();
    SimpleTextIsClean(TEXT.members, env);
    NodeIsGood(TEXT.members, env);
    FlagIsClean(FLAG.members, env);
    NodeIsGood(FLAG.members, env);
  }

  lemma MinimumIsGood(env: Env)
    ensures Good(NON_EMPTY, env) && Good(POSITIVE, env)
  {
    hide View, Clean, WellFormed, Good, HeadCheck;
    ScalarIsWellFormed(Str("string"));
    ScalarIsWellFormed(Str("integer"));
    ScalarIsWellFormed(Int(1));
    TwoMembers(NON_EMPTY.members[0], NON_EMPTY.members[1]);
    TwoMembers(POSITIVE.members[0], POSITIVE.members[1]);
    ViewScalars();
    SimpleTextIsClean(NON_EMPTY.members, env);
    NodeIsGood(NON_EMPTY.members, env);
    PositiveIsClean(POSITIVE.members, env);
    NodeIsGood(POSITIVE.members, env);
  }

  lemma ViewMatching(pattern: string)
    ensures View(Matching(pattern).members) == BARE.(typ := Some(Str("string")), pattern := Some(Str(pattern)))
    ensures View(MatchingOrNull(pattern).members)
      == BARE.(typ := Some(Arr([Str("string"), Str("null")])), pattern := Some(Str(pattern)))
  {
    hide View, With;
    var ms, ns := Matching(pattern).members, MatchingOrNull(pattern).members;
    ViewTwo(ms[0], ms[1]);
    ViewTwo(ns[0], ns[1]);
    WithText(ms[1].value, BARE);
    WithText(ms[0].value, BARE.(pattern := Some(ms[1].value)));
    WithText(ns[0].value, BARE.(pattern := Some(ms[1].value)));
  }

  lemma MatchingIsGood(pattern: string, env: Env)
    requires env.compiles(pattern)
    ensures Good(Matching(pattern), env)
  {
    hide View, Clean, WellFormed, Good, HeadCheck;
    var ms := Matching(pattern).members;
    ScalarIsWellFormed(ms[0].value);
    ScalarIsWellFormed(ms[1].value);
    TwoMembers(ms[0], ms[1]);
    ViewMatching(pattern);
    SimpleTextIsClean(ms, env);
    NodeIsGood(ms, env);
  }

  lemma MatchingOrNullIsGood(pattern: string, env: Env)
    requires env.compiles(pattern)
    ensures Good(MatchingOrNull(pattern), env)
  {
    hide View, Clean, Good, HeadCheck;
    var ms := MatchingOrNull(pattern).members;
    TwoMembers(ms[0], ms[1]);
    ViewMatching(pattern);
    TextOrNullIsClean(ms, pattern, env);
    NodeIsGood(ms, env);
  }

  lemma {:induction false} ViewValues(text: string, texts: seq<string>)
    ensures View(Exactly(text).members) == BARE.(const_ := Some(Str(text)))
    ensures View(OneOf(texts).members) == BARE.(enum := Some(Arr(Texts2Json(texts))))
  {
    hide View, With, Texts2Json;
    ViewOne(Exactly(text).members[0]);
    ViewOne(OneOf(texts).members[0]);
    WithText(Str(text), BARE);
    WithParts(Arr(Texts2Json(texts)), BARE);
  }

  lemma ExactlyIsGood(text: string, env: Env)
    ensures Good(Exactly(text), env)
  {
    hide View, Clean, WellFormed, Good, HeadCheck;
    var ms := Exactly(text).members;
    ScalarIsWellFormed(ms[0].value);
    OneMember(ms[0]);
    ViewValues(text, []);
    ConstIsClean(ms, ms[0].value, env);
    NodeIsGood(ms, env);
  }

  lemma TextsAreWellFormed(texts: seq<string>)
    ensures WellFormed(Arr(Texts2Json(texts)))
  {
  }

  lemma OneOfIsGood(texts: seq<string>, env: Env)
    requires texts != [] && Distinct(texts)
    ensures Good(OneOf(texts), env)
  {
    hide View, Clean, WellFormed, Good, HeadCheck, Texts2Json;
    var ms := OneOf(texts).members;
    TextsAreWellFormed(texts);
    OneMember(ms[0]);
    ViewValues("", texts);
    EnumIsClean(ms, texts, env);
    NodeIsGood(ms, env);
  }

  lemma ViewLists(items: Json)
    ensures View(ListOf(items).members) == BARE.(typ := Some(Str("array")), items := Some(items))
    ensures View(UniqueListOf(items).members)
      == BARE.(typ := Some(Str("array")), uniqueItems := Some(Bool(true)), items := Some(items))
  {
    hide View, With;
    var ms, ns := ListOf(items).members, UniqueListOf(items).members;
    ViewTwo(ms[0], ms[1]);
    ViewThree(ns[0], ns[1], ns[2]);
    WithParts(items, BARE);
    WithParts(ns[1].value, BARE.(items := Some(items)));
    WithText(ms[0].value, BARE.(items := Some(items)));
    WithText(ns[0].value, BARE.(uniqueItems := Some(Bool(true)), items := Some(items)));
  }

  lemma ListOfIsGood(items: Json, env: Env)
    requires Good(items, env)
    ensures Good(ListOf(items), env)
  {
    hide View, Clean, WellFormed, Good, HeadCheck;
    var ms := ListOf(items).members;
    GoodParts(items, env);
    ScalarIsWellFormed(ms[0].value);
    TwoMembers(ms[0], ms[1]);
    ViewLists(items);
    ListIsClean(ms, items, env);
    NodeIsGood(ms, env);
  }

  lemma ListsAreGood(items: Json, env: Env)
    requires Good(items, env)
    ensures Good(ListOf(items), env) && Good(UniqueListOf(items), env)
  {
    hide View, Clean, WellFormed, Good, HeadCheck;
    var ns := UniqueListOf(items).members;
    ListOfIsGood(items, env);
    GoodParts(items, env);
    ListMembers(ns);
    ViewLists(items);
    ListIsClean(ns, items, env);
    NodeIsGood(ns, env);
  }

  lemma ListMembers(ns: seq<Member>)
    requires |ns| == 3 && ns[0].key == "type" && ns[1].key == "uniqueItems" && ns[2].key == "items"
    requires ns[0].value.Str? && ns[1].value.Bool? && WellFormed(ns[2].value)
    ensures WellFormed(Obj(ns)) && HeadCheck(ns, Nested).Accepted?
  {
    hide HeadCheck, NestedKeyword;
    ListKeys(ns);
    NestedHead(ns);
    ScalarIsWellFormed(ns[0].value);
    ScalarIsWellFormed(ns[1].value);
  }

  lemma ListKeys(ns: seq<Member>)
    requires |ns| == 3 && ns[0].key == "type" && ns[1].key == "uniqueItems" && ns[2].key == "items"
    ensures DistinctKeys(ns) && forall i :: 0 <= i < |ns| ==> NestedKeyword(ns[i].key)
  {
  }

  lemma ClosedIsGood(props: seq<Member>, env: Env)
    requires AllGood(props, env)
    ensures Good(Closed(props), env)
  {
    hide View, Clean, WellFormed, Good, HeadCheck, Texts2Json, Keys, DistinctKeys;
    var ms := Closed(props).members;
    ClosedMembers(ms, props, env);
    NestedHead(ms) by { ClosedKeys(ms); }
    ViewClosed(props);
    ClosedIsClean(ms, props, env);
    NodeIsGood(ms, env);
  }

  lemma ClosedKeys(ms: seq<Member>)
    requires |ms| == 4 && ms[0].key == "type" && ms[1].key == "additionalProperties"
    requires ms[2].key == "required" && ms[3].key == "properties"
    ensures DistinctKeys(ms) && forall i :: 0 <= i < |ms| ==> NestedKeyword(ms[i].key)
  {
  }

  lemma PropsAreWellFormed(props: seq<Member>, env: Env)
    requires AllGood(props, env)
    ensures WellFormed(Obj(props))
  {
    hide Good, DistinctKeys;
    forall k | 0 <= k < |props| ensures WellFormed(props[k].value) { GoodParts(props[k].value, env); }
  }

  lemma ClosedMembers(ms: seq<Member>, props: seq<Member>, env: Env)
    requires AllGood(props, env) && ms == Closed(props).members
    ensures WellFormed(Obj(ms))
  {
    hide Good, AllGood, DistinctKeys, Texts2Json, Keys;
    PropsAreWellFormed(props, env);
    TextsAreWellFormed(Keys(props));
    ClosedKeys(ms);
    assert WellFormed(ms[0].value) && WellFormed(ms[1].value);
  }

  // ------------------------------------------------------------------- the root

  lemma RootedKeys(ms: seq<Member>)
    requires |ms| == 6 && ms[0].key == "$schema" && ms[1].key == "$id" && ms[2].key == "type"
    requires ms[3].key == "additionalProperties" && ms[4].key == "required" && ms[5].key == "properties"
    ensures DistinctKeys(ms) && Get(ms, "title") == None
    ensures Get(ms, "$schema") == Some(ms[0].value) && Get(ms, "$id") == Some(ms[1].value)
  {
  }

  lemma RootedKeywords(ms: seq<Member>)
    requires |ms| == 6 && ms[0].key == "$schema" && ms[1].key == "$id" && ms[2].key == "type"
    requires ms[3].key == "additionalProperties" && ms[4].key == "required" && ms[5].key == "properties"
    ensures forall i :: 0 <= i < |ms| ==> IsKeyword(ms[i].key)
  {
    hide IsKeyword, NestedKeyword;
    RootKeyword();
    forall i | 0 <= i < |ms| ensures IsKeyword(ms[i].key) {
      if i >= 2 {
        assert NestedKeyword(ms[i].key) by { RestNested(); }
        NestedKeywordAllowed(ms[i].key);
      }
    }
  }

  lemma RestNested()
    ensures NestedKeyword("type") && NestedKeyword("additionalProperties")
    ensures NestedKeyword("required") && NestedKeyword("properties")
  {
  }

  lemma RootKeyword()
    ensures IsKeyword("$schema") && IsKeyword("$id")
  {
  }

  lemma RootedIsAccepted(id: string, props: seq<Member>, env: Env)
    requires AllGood(props, env)
    ensures Clean(Rooted(id, props), env)
    ensures ValidateSchemaDefinition(Rooted(id, props), Some(id), env.compiles).Accepted?
  {
    hide View, WellFormed, Good, Texts2Json, Keys, DistinctKeys, Get, IsKeyword, Body, NullFree;
    var ms := Rooted(id, props).members;
    RootedMembers(id, props, env);
    ViewClosed(props);
    ViewRooted(id, props);
    ClosedIsClean(ms, props, env);
    RootedKeys(ms);
    RootedKeywords(ms);
  }

  lemma RootedMembers(id: string, props: seq<Member>, env: Env)
    requires AllGood(props, env)
    ensures WellFormed(Rooted(id, props))
  {
    hide Good, AllGood, DistinctKeys, Texts2Json, Keys, Get;
    var ms := Rooted(id, props).members;
    PropsAreWellFormed(props, env);
    TextsAreWellFormed(Keys(props));
    RootedKeys(ms);
    assert WellFormed(ms[0].value) && WellFormed(ms[1].value) && WellFormed(ms[2].value) && WellFormed(ms[3].value);
  }

  // ------------------------------------------------------------- both schemas are accepted

  /** The four patterns compile. */
  predicate Compiles(env: Env) {
    env.compiles(SHA40) && env.compiles(SHA256) && env.compiles(WORK_ORDER) && env.compiles(FINDING)
  }

  lemma CandidateKeys()
    ensures DistinctKeys(CANDIDATE_PROPERTIES)
  {
    assert "candidate_sha"[0] == 'c' && "record_sha256"[0] == 'r';
  }

  lemma CandidateIsGood(env: Env)
    requires Compiles(env)
    ensures AllGood(CANDIDATE_PROPERTIES, env) && Good(Closed(CANDIDATE_PROPERTIES), env)
  {
    hide Good, DistinctKeys;
    CandidateKeys();
    MatchingIsGood(FINDING, env);
    MatchingIsGood(SHA40, env);
    MatchingIsGood(SHA256, env);
    ClosedIsGood(CANDIDATE_PROPERTIES, env);
  }

  lemma RequestKeys()
    ensures DistinctKeys(REQUEST_PROPERTIES)
  {
    hide Matching, MatchingOrNull, OneOf, Exactly, ListOf, UniqueListOf, Closed;
    assert "protocol"[0] == 'p' && "head_sha"[0] == 'h' && "tree_sha"[0] == 't';
    assert "schema_version"[0] == 's' && "fix_candidates"[0] == 'f';
  }

  lemma RequestModes()
    ensures Distinct(["INITIAL", "REVERIFY"])
  {
  }

  lemma RequestPropertiesAreGood(env: Env)
    requires Compiles(env)
    ensures AllGood(REQUEST_PROPERTIES, env)
  {
    hide Good, DistinctKeys, Matching, MatchingOrNull, OneOf, Exactly, ListOf, UniqueListOf, Closed;
    RequestKeys();
    RequestModes();
    CandidateIsGood(env);
    ExactlyIsGood("QF-AI-COLLAB-v5", env);
    ExactlyIsGood("review-request.schema.json@1", env);
    MinimumIsGood(env);
    OneOfIsGood(["INITIAL", "REVERIFY"], env);
    MatchingIsGood(FINDING, env);
    MatchingIsGood(WORK_ORDER, env);
    MatchingIsGood(SHA40, env);
    MatchingOrNullIsGood(SHA256, env);
    ListsAreGood(Matching(FINDING), env);
    ListsAreGood(Closed(CANDIDATE_PROPERTIES), env);
  }

  /** The definition walk accepts the request schema, and the validator is total on it. */
  lemma RequestSchemaAccepted(env: Env)
    requires Compiles(env)
    ensures ValidateSchemaDefinition(REVIEW_REQUEST, Some("review-request.schema.json@1"), env.compiles).Accepted?
    ensures Clean(REVIEW_REQUEST, env)
  {
    RequestPropertiesAreGood(env);
    RootedIsAccepted("review-request.schema.json@1", REQUEST_PROPERTIES, env);
  }

  lemma CoverageKeys()
    ensures DistinctKeys(COVERAGE_PROPERTIES)
  {
  }

  lemma FindingKeys()
    ensures DistinctKeys(FINDING_PROPERTIES)
  {
    assert "severity"[0] == 's' && "evidence"[0] == 'e' && "path"[0] == 'p' && "risk"[0] == 'r';
  }

  lemma FindingTexts()
    ensures Distinct(["P0", "P1", "P2", "P3"]) && Distinct(["OPEN", "VERIFIED"])
  {
    assert "P0"[1] == '0' && "P1"[1] == '1' && "P2"[1] == '2' && "P3"[1] == '3';
  }

  lemma CoverageIsGood(env: Env)
    ensures AllGood(COVERAGE_PROPERTIES, env) && Good(Closed(COVERAGE_PROPERTIES), env)
  {
    hide Good, DistinctKeys, ListOf;
    CoverageKeys();
    TextIsGood(env);
    ListsAreGood(TEXT, env);
    ClosedIsGood(COVERAGE_PROPERTIES, env);
  }

  lemma FindingIsGood(env: Env)
    requires Compiles(env)
    ensures AllGood(FINDING_PROPERTIES, env) && Good(Closed(FINDING_PROPERTIES), env)
  {
    hide Good, DistinctKeys, Matching, OneOf, Exactly, Closed;
    FindingKeys();
    FindingTexts();
    MatchingIsGood(FINDING, env);
    OneOfIsGood(["P0", "P1", "P2", "P3"], env);
    OneOfIsGood(["OPEN", "VERIFIED"], env);
    ExactlyIsGood("UNDECIDED", env);
    MinimumIsGood(env);
    TextIsGood(env);
    ClosedIsGood(FINDING_PROPERTIES, env);
  }

  lemma ReviewKeys()
    ensures DistinctKeys(REVIEW_PROPERTIES)
  {
    hide Matching, MatchingOrNull, OneOf, Exactly, ListOf, UniqueListOf, Closed;
    assert "protocol"[0] == 'p' && "coverage"[0] == 'c' && "decision"[0] == 'd' && "blocking"[0] == 'b'
      && "findings"[0] == 'f';
  }

  lemma Decisions()
    ensures Distinct(["PASS", "PASS_WITH_FINDINGS", "FAIL"])
  {
    assert "PASS"[0] == 'P' && "FAIL"[0] == 'F';
  }

  lemma ReviewPropertiesAreGood(env: Env)
    requires Compiles(env)
    ensures AllGood(REVIEW_PROPERTIES, env)
  {
    hide Good, DistinctKeys, Matching, OneOf, Exactly, ListOf, Closed;
    ReviewKeys();
    RequestModes();
    Decisions();
    CoverageIsGood(env);
    FindingIsGood(env);
    ExactlyIsGood("QF-AI-COLLAB-v5", env);
    ExactlyIsGood("technical-review.schema.json@3", env);
    ExactlyIsGood("claude_reviewer", env);
    OneOfIsGood(["INITIAL", "REVERIFY"], env);
    OneOfIsGood(["PASS", "PASS_WITH_FINDINGS", "FAIL"], env);
    MatchingIsGood(WORK_ORDER, env);
    MatchingIsGood(SHA40, env);
    MatchingIsGood(SHA256, env);
    ListsAreGood(Closed(FINDING_PROPERTIES), env);
    TextIsGood(env);
    ListsAreGood(TEXT, env);
  }

  /** The definition walk accepts the review schema, and the validator is total on it. */
  lemma ReviewSchemaAccepted(env: Env)
    requires Compiles(env)
    ensures ValidateSchemaDefinition(TECHNICAL_REVIEW, Some("technical-review.schema.json@3"), env.compiles).Accepted?
    ensures Clean(TECHNICAL_REVIEW, env)
  {
    ReviewPropertiesAreGood(env);
    RootedIsAccepted("technical-review.schema.json@3", REVIEW_PROPERTIES, env);
  }

  // --------------------------------------------- the review schema describes findings

  lemma PropertyOf(ms: seq<Member>, props: seq<Member>, k: nat)
    requires View(ms) == View(Closed(props).members) && DistinctKeys(props) && k < |props|
    ensures Property(ms, props[k].key) == Some(props[k].value)
  {
    hide Get, DistinctKeys, Keys, Texts2Json;
    ViewClosed(props);
    KeysPresent(props);
  }

  lemma ClosedType(props: seq<Member>, texts: seq<string>, items: Json)
    ensures Types(Closed(props).members) == ["object"] && Types(ListOf(items).members) == ["array"]
    ensures GetValue(ListOf(items).members, "items") == items
    ensures Get(OneOf(texts).members, "enum") == Some(Arr(Texts2Json(texts))) && AllText(Texts2Json(texts))
  {
    hide Get, Keys, Texts2Json;
    ViewClosed(props);
    ViewLists(items);
    ViewValues("", texts);
    TextsBack(texts);
  }

  lemma FindingsProperty()
    ensures Property(TECHNICAL_REVIEW.members, "findings") == Some(ListOf(Closed(FINDING_PROPERTIES)))
  {
    hide View, DistinctKeys, Property, Matching, Exactly, OneOf;
    ReviewKeys();
    ViewRooted("technical-review.schema.json@3", REVIEW_PROPERTIES);
    PropertyOf(TECHNICAL_REVIEW.members, REVIEW_PROPERTIES, 11);
    assert REVIEW_PROPERTIES[11] == Member("findings", ListOf(Closed(FINDING_PROPERTIES)));
  }

  lemma SeverityProperty()
    ensures Property(Closed(FINDING_PROPERTIES).members, "severity") == Some(OneOf(["P0", "P1", "P2", "P3"]))
  {
    hide View, DistinctKeys, Property, Matching, Exactly;
    FindingKeys();
    PropertyOf(Closed(FINDING_PROPERTIES).members, FINDING_PROPERTIES, 1);
    assert FINDING_PROPERTIES[1] == Member("severity", OneOf(["P0", "P1", "P2", "P3"]));
  }

  /** The shipped review schema meets the condition under which the loop never raises on an accepted review. */
  lemma ReviewSchemaDescribesFindings()
    ensures DescribesFindings(TECHNICAL_REVIEW)
  {
    hide Types, GetValue, Get, Property, AllText, Keys, Texts2Json;
    FindingsProperty();
    SeverityProperty();
    ClosedType(FINDING_PROPERTIES, ["P0", "P1", "P2", "P3"], Closed(FINDING_PROPERTIES));
  }
}
