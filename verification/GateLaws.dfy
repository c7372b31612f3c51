/** The review gate, condition by condition: which names are among its reasons, and when it accepts. */
module GateLaws {
  import opened Base
  import opened Text
  import opened Json
  import opened Schema
  import opened Instance
  import opened Record
  import opened ReviewLoop

  // ------------------------------------------------------------------ the twenty conditions

  /** Lower-case hexadecimal of a length. */
  ghost predicate Hexadecimal(s: string, length: nat) {
    |s| == length && forall c :: c in s ==> c in "0123456789abcdef"
  }

  /** The field, as str() gives it, is lower-case hexadecimal: a text, or an integer's decimal digits. */
  ghost predicate HexAt(ms: Fields, key: string, length: nat) {
    exists t: string :: Hexadecimal(t, length)
      && (Get(ms, key) == Some(Str(t)) || exists n: int :: Get(ms, key) == Some(Int(n)) && IntText(n) == t)
  }

  ghost predicate TextIs(ms: Fields, key: string, text: string) {
    Get(ms, key) == Some(Str(text))
  }

  ghost predicate NullOrAbsent(ms: Fields, key: string) {
    Get(ms, key) == None || Get(ms, key) == Some(Null)
  }

  /** f is an entry of the list under the key, the i-th of it. */
  ghost predicate EntryAt(ms: Fields, key: string, i: int, f: Fields) {
    exists items: seq<Json> :: Get(ms, key) == Some(Arr(items)) && 0 <= i < |items| && items[i] == Obj(f)
  }

  ghost predicate Entry(ms: Fields, key: string, f: Fields) {
    exists i: int :: EntryAt(ms, key, i, f)
  }

  /** The ids are listed, all of them texts, and this is one of them. */
  ghost predicate Eligible(request: Fields, id: string) {
    exists items: seq<Json> ::
      && Get(request, "eligible_finding_ids") == Some(Arr(items)) && Str(id) in items
      && forall j: Json :: j in items ==> j.Str?
  }

  /** Booleans as the numbers Python takes them for, at every depth. */
  function Numbered(v: Json): (r: Json)
    decreases v
  {
    match v
    case Bool(b) => Int(if b then 1 else 0)
    case Arr(items) => Arr(NumberedItems(items))
    case Obj(ms) => Obj(NumberedMembers(ms))
    case _ => v
  }

  function NumberedItems(items: seq<Json>): (r: seq<Json>)
    ensures |r| == |items| && forall i :: 0 <= i < |items| ==> r[i] == Numbered(items[i])
    decreases items
  {
    if items == [] then [] else [Numbered(items[0])] + NumberedItems(items[1..])
  }

  function NumberedMembers(ms: seq<Member>): (r: seq<Member>)
    ensures |r| == |ms| && forall i :: 0 <= i < |ms| ==> r[i] == Member(ms[i].key, Numbered(ms[i].value))
    decreases ms
  {
    if ms == [] then [] else [Member(ms[0].key, Numbered(ms[0].value))] + NumberedMembers(ms[1..])
  }

  /** 6: coverage names what was read, confirmed and reviewed, and what stayed unverified is said. */
  ghost predicate CoverageReported(review: Fields) {
    && Get(review, "unverified").Some?
    && exists c: Fields ::
         && Get(review, "coverage") == Some(Obj(c))
         && Get(c, "files_read").Some? && Get(c, "checks_confirmed").Some? && Get(c, "review_areas").Some?
  }

  /** The value satisfies the schema, which the definition walk accepts. */
  ghost predicate Meets(v: Json, schema: Json, env: Env) {
    Sound(schema, env.compiles) && Satisfies(v, schema, env)
  }

  /** 7 */
  ghost predicate RequestFits(given: Json, request: Fields, s: Setup) {
    && Meets(given, s.requestSchema, s.env) && TextIs(request, "protocol", "QF-AI-COLLAB-v5")
    && TextIs(request, "schema_version", "review-request.schema.json@1")
    && (Get(request, "pr_number") == Some(Bool(true))
        || exists n: int :: Get(request, "pr_number") == Some(Int(n)) && n >= 1)
    && HexAt(request, "head_sha", 40)
  }

  /** 8 */
  ghost predicate ReviewFits(given: Json, request: Fields, review: Fields, s: Setup) {
    && Meets(if given == Null then Obj([]) else given, s.reviewSchema, s.env)
    && TextIs(review, "protocol", "QF-AI-COLLAB-v5")
    && TextIs(review, "schema_version", "technical-review.schema.json@3")
    && TextIs(review, "role", "claude_reviewer")
    && Same(Numbered(GetValue(review, "work_order_id")), Numbered(GetValue(request, "work_order_id")))
    && HexAt(review, "default_branch_sha", 40)
  }

  /** 9 */
  ghost predicate DecisionFits(review: Fields) {
    && (Get(review, "blocking") == Some(Bool(true)) || Get(review, "blocking") == Some(Bool(false)))
    && (Get(review, "blocking") == Some(Bool(true)) <==> TextIs(review, "decision", "FAIL"))
    && (Get(review, "blocking") == Some(Bool(false)) ==>
          if exists f: Fields :: Entry(review, "findings", f) then TextIs(review, "decision", "PASS_WITH_FINDINGS")
          else TextIs(review, "decision", "PASS"))
  }

  /** 10: a first review has nothing to go back to, a re-verification has all of it. */
  ghost predicate ModeFits(request: Fields, review: Fields) {
    || (&& TextIs(request, "expected_review_mode", "INITIAL") && TextIs(review, "review_mode", "INITIAL")
        && NullOrAbsent(request, "prior_review_artifact_sha256")
        && (forall id: string :: !Eligible(request, id)) && forall f: Fields :: !Entry(request, "fix_candidates", f))
    || (&& TextIs(request, "expected_review_mode", "REVERIFY") && TextIs(review, "review_mode", "REVERIFY")
        && HexAt(request, "prior_review_artifact_sha256", 64)
        && (exists id: string :: Eligible(request, id)) && exists f: Fields :: Entry(request, "fix_candidates", f))
  }

  /** AUTO-IMPL-P, a digit up to 3, a hyphen and three digits. */
  ghost predicate IsFindingId(s: string) {
    exists p: char, a: char, b: char, c: char :: FindingIdOf(s, p, a, b, c)
  }

  ghost predicate FindingIdOf(s: string, p: char, a: char, b: char, c: char) {
    && p in "0123" && a in "0123456789" && b in "0123456789" && c in "0123456789"
    && s == "AUTO-IMPL-P" + [p] + "-" + [a] + [b] + [c]
  }

  /** 12, for one finding. */
  ghost predicate FindingFits(f: Fields) {
    && (exists id: string :: TextIs(f, "id", id) && IsFindingId(id))
    && (TextIs(f, "severity", "P0") || TextIs(f, "severity", "P1") || TextIs(f, "severity", "P2")
        || TextIs(f, "severity", "P3"))
    && forall key: string :: Get(f, key).Some? <==>
         key in ["id", "severity", "verification_status", "disposition", "path", "evidence", "risk", "required_change",
                 "residual_risk"]
  }

  /** 12: no two findings share an id. */
  ghost predicate IdsDiffer(review: Fields) {
    forall i: int, j: int, f: Fields, g: Fields, id: string ::
      (EntryAt(review, "findings", i, f) && EntryAt(review, "findings", j, g)
       && TextIs(f, "id", id) && TextIs(g, "id", id)) ==> i == j
  }

  /** 13, for one finding: open, or in a re-verification verified. */
  ghost predicate StatusFits(request: Fields, f: Fields) {
    || TextIs(f, "verification_status", "OPEN")
    || (TextIs(f, "verification_status", "VERIFIED") && !TextIs(request, "expected_review_mode", "INITIAL"))
  }

  /** 14: a finding said to be verified is eligible and has a fix candidate. */
  ghost predicate VerifiedFits(request: Fields, review: Fields) {
    forall f: Fields, id: string ::
      Entry(review, "findings", f) && TextIs(f, "verification_status", "VERIFIED") && TextIs(f, "id", id) ==>
        Eligible(request, id) && exists g: Fields :: Entry(request, "fix_candidates", g) && TextIs(g, "finding_id", id)
  }

  /** The last candidate of its finding. */
  ghost predicate LastFor(request: Fields, i: int, id: string) {
    forall j: int, g: Fields :: EntryAt(request, "fix_candidates", j, g) && TextIs(g, "finding_id", id) ==> j <= i
  }

  /** 14: the last candidate for each finding is at the head, with the hash of its record. */
  ghost predicate CandidatesFit(request: Fields, head: string) {
    forall i: int, f: Fields, id: string ::
      EntryAt(request, "fix_candidates", i, f) && TextIs(f, "finding_id", id) && LastFor(request, i, id) ==>
        TextIs(f, "candidate_sha", head) && HexAt(f, "record_sha256", 64)
  }

  /** 17: an open P0 or P1 finding needs a blocking review. */
  ghost predicate SevereFits(review: Fields) {
    || Get(review, "blocking") == Some(Bool(true))
    || forall f: Fields ::
         Entry(review, "findings", f) && (TextIs(f, "severity", "P0") || TextIs(f, "severity", "P1")) ==>
           TextIs(f, "verification_status", "VERIFIED")
  }

  const GATES: seq<string> :=
    ["REV-GATE-001", "REV-GATE-002", "REV-GATE-003", "REV-GATE-004", "REV-GATE-005", "REV-GATE-006", "REV-GATE-007",
     "REV-GATE-008", "REV-GATE-009", "REV-GATE-010", "REV-GATE-011", "REV-GATE-012", "REV-GATE-013", "REV-GATE-014",
     "REV-GATE-015", "REV-GATE-016", "REV-GATE-017", "REV-GATE-018", "REV-GATE-019", "REV-GATE-020"]

  /** The name of gate n. */
  function Named(n: nat): string
    requires 1 <= n <= 20
  {
    GATES[n - 1]
  }

  /** 20: the registry lists these names and no other. */
  ghost predicate RegistryFits(registry: set<string>) {
    forall name: string :: name in registry <==> name in GATES
  }

  /** What gate n asks. A request or review that is no dictionary is read as an empty one. */
  ghost predicate Asked(n: nat, x: Input, s: Setup) {
    var request := if x.request.Obj? then x.request.members else [];
    var review := if x.review.Obj? then x.review.members else [];
    match n
    case 1 => x.exitCode == 0
    case 2 => exists m: Member :: m in review
    case 3 => TextIs(review, "reviewed_commit_sha", x.head)
    case 4 => TextIs(request, "tree_sha", x.tree) && TextIs(review, "reviewed_tree_sha", x.tree)
    case 5 => x.checksGreen
    case 6 => CoverageReported(review)
    case 7 => RequestFits(x.request, request, s)
    case 8 => ReviewFits(x.review, request, review, s)
    case 9 => DecisionFits(review)
    case 10 => ModeFits(request, review)
    case 11 => TextIs(review, "review_request_sha256", s.sha256(CanonicalJson(Obj(request))))
    case 12 => (forall f: Fields :: Entry(review, "findings", f) ==> FindingFits(f)) && IdsDiffer(review)
    case 13 => forall f: Fields :: Entry(review, "findings", f) ==> StatusFits(request, f)
    case 14 => VerifiedFits(request, review) && CandidatesFit(request, x.head)
    case 15 => forall f: Fields :: Entry(review, "findings", f) ==> !TextIs(f, "verification_status", "CLOSED")
    case 16 => forall f: Fields :: Entry(review, "findings", f) ==> TextIs(f, "disposition", "UNDECIDED")
    case 17 => SevereFits(review)
    case 18 => TextIs(request, "head_sha", x.head) && TextIs(review, "reviewed_commit_sha", x.head)
    case 19 =>
      x.driftAllowed && (x.expectedDefault.Some? ==> TextIs(review, "default_branch_sha", x.expectedDefault.value))
    case 20 => RegistryFits(s.registry)
    case _ => true
  }

  // ------------------------------------------------------------------ single fields

  lemma DigitIn(c: char)
    ensures c in "0123456789" <==> '0' <= c <= '9'
  {
    if '0' <= c <= '9' { assert "0123456789"[c as int - 48] == c; }
  }

  lemma LowDigitIn(c: char)
    ensures c in "0123" <==> '0' <= c <= '3'
  {
    if '0' <= c <= '3' { assert "0123"[c as int - 48] == c; }
  }

  lemma HexDigitIn(c: char)
    ensures c in "0123456789abcdef" <==> '0' <= c <= '9' || 'a' <= c <= 'f'
  {
    if '0' <= c <= '9' { assert "0123456789abcdef"[c as int - 48] == c; }
    if 'a' <= c <= 'f' { assert "0123456789abcdef"[c as int - 87] == c; }
  }

  lemma HexadecimalIsHex(s: string, length: nat)
    ensures Hexadecimal(s, length) <==> IsHex(s, length)
  {
    forall i | 0 <= i < |s| ensures s[i] in "0123456789abcdef" <==> '0' <= s[i] <= '9' || 'a' <= s[i] <= 'f' {
      HexDigitIn(s[i]);
    }
    forall c | c in s && IsHex(s, length) ensures c in "0123456789abcdef" { HexDigitIn(c); }
  }

  lemma HexFieldIs(ms: Fields, key: string, length: nat)
    requires length >= 5
    ensures HexField(ms, key, length).Some? <==> HexAt(ms, key, length)
  {
    hide Get, IsHex, Hexadecimal, IntText;
    match Get(ms, key)
    case Some(Str(t)) => HexadecimalIsHex(t, length);
    case Some(Int(n)) => HexadecimalIsHex(IntText(n), length);
    case Some(Bool(b)) => ShortIsNoHex(if b then "True" else "False", length);
    case Some(Null) => ShortIsNoHex("None", length);
    case _ =>
  }

  lemma ShortIsNoHex(s: string, length: nat)
    requires s in ["True", "False", "None"]
    ensures !IsHex(s, length)
  {
    assert s[0] in "TFN";
  }

  // ------------------------------------------------------------------ lists of dictionaries

  /** Where the k-th dictionary of the list stands. */
  function Place(items: seq<Json>, k: nat): (i: nat)
    requires k < |Dicts(items)|
    ensures i < |items| && items[i] == Obj(Dicts(items)[k])
  {
    if !items[0].Obj? then 1 + Place(items[1..], k)
    else if k == 0 then 0
    else
      assert Dicts(items)[k] == Dicts(items[1..])[k - 1];
      1 + Place(items[1..], k - 1)
  }

  lemma {:induction false} PlacesAscend(items: seq<Json>, k: nat, l: nat)
    requires k < l < |Dicts(items)|
    ensures Place(items, k) < Place(items, l)
  {
    if !items[0].Obj? { PlacesAscend(items[1..], k, l); }
    else if k > 0 { PlacesAscend(items[1..], k - 1, l - 1); }
  }

  /** Every dictionary of the list is placed. */
  lemma {:induction false} Placed(items: seq<Json>, i: nat) returns (k: nat)
    requires i < |items| && items[i].Obj?
    ensures k < |Dicts(items)| && Place(items, k) == i
  {
    if i == 0 {
      k := 0;
    } else {
      assert items[i] == items[1..][i - 1];
      k := Placed(items[1..], i - 1);
      if items[0].Obj? { k := k + 1; }
    }
  }

  /** The k-th dictionary is an entry, at some place of the list. */
  lemma ListedAt(ms: Fields, key: string, k: nat) returns (i: nat)
    requires k < |DictList(ms, key)|
    ensures EntryAt(ms, key, i, DictList(ms, key)[k]) && i == Place(Get(ms, key).value.items, k)
  {
    hide Get, Dicts;
    i := Place(Get(ms, key).value.items, k);
  }

  /** An entry is listed, at a rank that goes by its place. */
  lemma RankOf(ms: Fields, key: string, i: int, f: Fields) returns (k: nat)
    requires EntryAt(ms, key, i, f)
    ensures k < |DictList(ms, key)| && DictList(ms, key)[k] == f && i == Place(Get(ms, key).value.items, k)
  {
    hide Get, Dicts;
    k := Placed(Get(ms, key).value.items, i);
  }

  /** The entries are the listed dictionaries. */
  lemma EntriesListed(ms: Fields, key: string)
    ensures forall f: Fields :: Entry(ms, key, f) <==> f in DictList(ms, key)
    ensures (exists f: Fields :: Entry(ms, key, f)) <==> DictList(ms, key) != []
    ensures forall k :: 0 <= k < |DictList(ms, key)| ==> Entry(ms, key, DictList(ms, key)[k])
  {
    hide DictList, EntryAt, Get, Place;
    forall f: Fields | f in DictList(ms, key) ensures Entry(ms, key, f) {
      var k :| 0 <= k < |DictList(ms, key)| && DictList(ms, key)[k] == f;
      var i := ListedAt(ms, key, k);
    }
    forall f: Fields | Entry(ms, key, f) ensures f in DictList(ms, key) {
      var i :| EntryAt(ms, key, i, f);
      var k := RankOf(ms, key, i, f);
    }
    if DictList(ms, key) != [] { assert DictList(ms, key)[0] in DictList(ms, key); }
    forall k | 0 <= k < |DictList(ms, key)| ensures Entry(ms, key, DictList(ms, key)[k]) {
      assert DictList(ms, key)[k] in DictList(ms, key);
    }
  }

  lemma TextsHold(items: seq<Json>, id: string)
    requires AllText(items)
    ensures id in Texts(items) <==> Str(id) in items
  {
    if id in Texts(items) {
      var i :| 0 <= i < |items| && Texts(items)[i] == id;
      assert items[i] == Str(id);
    }
    if Str(id) in items {
      var i :| 0 <= i < |items| && items[i] == Str(id);
      assert Texts(items)[i] == id;
    }
  }

  lemma AllTextIs(items: seq<Json>)
    ensures AllText(items) <==> forall j: Json :: j in items ==> j.Str?
  {
    if j: Json :| j in items && !j.Str? {
      var i :| 0 <= i < |items| && items[i] == j;
    }
  }

  lemma EligibleListed(request: Json, id: string)
    ensures Eligible(Dict(request), id) <==> id in EligibleIds(request)
  {
    hide Get, AllText, Texts;
    match Get(Dict(request), "eligible_finding_ids")
    case Some(Arr(items)) =>
      AllTextIs(items);
      if AllText(items) { TextsHold(items, id); }
    case _ =>
  }

  lemma EligibleAny(request: Json)
    ensures (exists id: string :: Eligible(Dict(request), id)) <==> EligibleIds(request) != []
  {
    hide EligibleIds, Eligible, Dict;
    forall id: string ensures Eligible(Dict(request), id) <==> id in EligibleIds(request) {
      EligibleListed(request, id);
    }
    if EligibleIds(request) != [] { assert EligibleIds(request)[0] in EligibleIds(request); }
  }

  // ------------------------------------------------------------------ gate by gate

  lemma SameKeys(ms: Fields, ns: Fields, a: Fields, b: Fields)
    requires |a| == |ms| && forall i :: 0 <= i < |ms| ==> a[i].key == ms[i].key
    requires |b| == |ns| && forall j :: 0 <= j < |ns| ==> b[j].key == ns[j].key
    requires KeysIn(ms, ns)
    ensures KeysIn(a, b)
  {
    forall i | 0 <= i < |a| ensures exists j :: 0 <= j < |b| && b[j].key == a[i].key {
      assert a[i].key == ms[i].key;
      var j :| 0 <= j < |ns| && ns[j].key == ms[i].key;
      assert b[j].key == ns[j].key;
    }
    assert forall i :: 0 <= i < |a| ==> exists j :: 0 <= j < |b| && b[j].key == a[i].key;
  }

  lemma KeysNumbered(ms: Fields, ns: Fields)
    ensures KeysIn(NumberedMembers(ms), NumberedMembers(ns)) <==> KeysIn(ms, ns)
  {
    hide KeysIn;
    var a, b := NumberedMembers(ms), NumberedMembers(ns);
    if KeysIn(ms, ns) { SameKeys(ms, ns, a, b); }
    if KeysIn(a, b) { SameKeys(a, b, ms, ns); }
  }

  lemma NumberedKind(v: Json)
    ensures Numbered(v).Arr? <==> v.Arr?
    ensures Numbered(v).Obj? <==> v.Obj?
    ensures !Numbered(v).Bool?
  {
  }

  lemma ScalarsNumbered(v: Json, w: Json)
    requires !v.Arr? && !v.Obj?
    ensures PyEqual(v, w) <==> Same(Numbered(v), Numbered(w))
  {
    NumberedKind(w);
  }

  lemma {:induction false} ItemsNumbered(xs: seq<Json>, ys: seq<Json>)
    ensures PyEqual(Arr(xs), Arr(ys)) <==> Same(Arr(NumberedItems(xs)), Arr(NumberedItems(ys)))
    decreases xs
  {
    forall i | 0 <= i < |xs| && i < |ys|
      ensures PyEqual(xs[i], ys[i]) <==> Same(NumberedItems(xs)[i], NumberedItems(ys)[i])
    {
      PyEqualIsSame(xs[i], ys[i]);
    }
  }

  /** Python's equality is structural equality once booleans are numbers. */
  lemma {:induction false} PyEqualIsSame(v: Json, w: Json)
    ensures PyEqual(v, w) <==> Same(Numbered(v), Numbered(w))
    decreases v
  {
    NumberedKind(w);
    match v
    case Arr(xs) => if w.Arr? { ItemsNumbered(xs, w.items); }
    case Obj(ms) => if w.Obj? { MembersNumbered(ms, w.members); }
    case _ => ScalarsNumbered(v, w);
  }

  lemma {:induction false} MembersNumbered(ms: Fields, ns: Fields)
    ensures PyEqual(Obj(ms), Obj(ns)) <==> Same(Obj(NumberedMembers(ms)), Obj(NumberedMembers(ns)))
    decreases ms
  {
    hide KeysIn;
    KeysNumbered(ms, ns);
    KeysNumbered(ns, ms);
    var a, b := NumberedMembers(ms), NumberedMembers(ns);
    forall i, j | 0 <= i < |ms| && 0 <= j < |ns|
      ensures a[i].key == b[j].key <==> ms[i].key == ns[j].key
      ensures PyEqual(ms[i].value, ns[j].value) <==> Same(a[i].value, b[j].value)
    {
      PyEqualIsSame(ms[i].value, ns[j].value);
    }
  }

  lemma CoverageIs(review: Fields)
    ensures Coverage(review) <==> CoverageReported(review)
  {
    hide Get;
    assert "unverified" != "coverage";
  }

  lemma RequestShapeIs(request: Fields, errors: seq<string>, x: Input, s: Setup)
    requires errors == [] <==> Meets(x.request, s.requestSchema, s.env)
    ensures RequestShape(request, errors) <==> RequestFits(x.request, request, s)
  {
    hide Get, Meets, HexField, HexAt;
    HexFieldIs(request, "head_sha", 40);
  }

  lemma ReviewShapeIs(request: Fields, review: Fields, errors: seq<string>, x: Input, s: Setup)
    requires errors == [] <==> Meets(if x.review == Null then Obj([]) else x.review, s.reviewSchema, s.env)
    ensures ReviewShape(request, review, errors) <==> ReviewFits(x.review, request, review, s)
  {
    hide Get, Meets, HexField, HexAt, PyEqual, Same, Numbered;
    HexFieldIs(review, "default_branch_sha", 40);
    PyEqualIsSame(GetValue(review, "work_order_id"), GetValue(request, "work_order_id"));
  }

  lemma DecisionIs(review: Fields)
    ensures DecisionConsistent(review, DictList(review, "findings")) <==> DecisionFits(review)
  {
    hide Get, DictList, Entry;
    EntriesListed(review, "findings");
    assert "PASS" != "FAIL" && "PASS_WITH_FINDINGS" != "FAIL" && "PASS" != "PASS_WITH_FINDINGS" by {
      assert "PASS"[0] == 'P' && "FAIL"[0] == 'F' && "PASS_WITH_FINDINGS"[0] == 'P';
    }
  }

  lemma ModeIs(request: Json, review: Fields)
    ensures ModeConsistent(request, review) <==> ModeFits(Dict(request), review)
  {
    hide Get, DictList, Entry, Eligible, EligibleIds, HexField, HexAt, Dict;
    EntriesListed(Dict(request), "fix_candidates");
    EligibleAny(request);
    HexFieldIs(Dict(request), "prior_review_artifact_sha256", 64);
  }

  lemma FindingIdSpelled(s: string)
    requires FindingId(s)
    ensures IsFindingId(s)
  {
    LowDigitIn(s[11]);
    DigitIn(s[13]);
    DigitIn(s[14]);
    DigitIn(s[15]);
    assert s == s[..11] + [s[11]] + "-" + [s[13]] + [s[14]] + [s[15]];
    assert FindingIdOf(s, s[11], s[13], s[14], s[15]);
  }

  lemma SpelledFindingId(s: string, p: char, a: char, b: char, c: char)
    requires FindingIdOf(s, p, a, b, c)
    ensures FindingId(s)
  {
    LowDigitIn(p);
    DigitIn(a);
    DigitIn(b);
    DigitIn(c);
    assert s[..11] == "AUTO-IMPL-P";
  }

  lemma FindingIdIs(s: string)
    ensures FindingId(s) <==> IsFindingId(s)
  {
    hide FindingId, FindingIdOf;
    if FindingId(s) { FindingIdSpelled(s); }
    if p: char, a: char, b: char, c: char :| FindingIdOf(s, p, a, b, c) { SpelledFindingId(s, p, a, b, c); }
  }

  lemma KeySetIs(f: Fields, keys: set<string>)
    ensures (set m | m in f :: m.key) == keys <==> forall key: string :: Get(f, key).Some? <==> key in keys
  {
    var present := set m | m in f :: m.key;
    forall key: string ensures Get(f, key).Some? <==> key in present {
      if key in present {
        var m :| m in f && m.key == key;
        var i :| 0 <= i < |f| && f[i] == m;
      }
      if Get(f, key).Some? { assert f[IndexOf(f, key)] in f; }
    }
    if forall key: string :: Get(f, key).Some? <==> key in keys {
      assert forall key :: key in present <==> key in keys;
    }
  }

  lemma FindingKeysAre(f: Fields)
    ensures (set m | m in f :: m.key)
      == {"id", "severity", "verification_status", "disposition", "path", "evidence", "risk", "required_change",
          "residual_risk"}
      <==> forall key: string :: Get(f, key).Some? <==>
             key in ["id", "severity", "verification_status", "disposition", "path", "evidence", "risk",
                     "required_change", "residual_risk"]
  {
    hide Get;
    KeySetIs(f, {"id", "severity", "verification_status", "disposition", "path", "evidence", "risk",
                 "required_change", "residual_risk"});
  }

  lemma FindingShapeIs(f: Fields)
    ensures FindingShape(f) <==> FindingFits(f)
  {
    hide Get, FindingId, IsFindingId;
    if HasText(f, "id") { FindingIdIs(TextAt(f, "id")); }
    FindingKeysAre(f);
  }

  lemma OnePerId(l: seq<Fields>, i: nat, j: nat, id: string)
    requires forall k :: 0 <= k < |l| ==> HasText(l[k], "id")
    requires forall k, m :: 0 <= k < m < |l| ==> TextAt(l[k], "id") != TextAt(l[m], "id")
    requires i < |l| && j < |l| && TextIs(l[i], "id", id) && TextIs(l[j], "id", id)
    ensures i == j
  {
    hide Get;
  }

  lemma IdsDifferWhenListed(review: Fields)
    requires var l := DictList(review, "findings");
      && (forall i :: 0 <= i < |l| ==> HasText(l[i], "id"))
      && forall i, j :: 0 <= i < j < |l| ==> TextAt(l[i], "id") != TextAt(l[j], "id")
    ensures IdsDiffer(review)
  {
    hide DictList, EntryAt, Get, Place;
    forall i: int, j: int, f: Fields, g: Fields, id: string
      | EntryAt(review, "findings", i, f) && EntryAt(review, "findings", j, g) && TextIs(f, "id", id)
        && TextIs(g, "id", id)
      ensures i == j
    {
      var k := RankOf(review, "findings", i, f);
      var l := RankOf(review, "findings", j, g);
      OnePerId(DictList(review, "findings"), k, l, id);
    }
  }

  lemma ListedIdsDiffer(review: Fields, k: nat, l: nat)
    requires IdsDiffer(review) && k < l < |DictList(review, "findings")|
    requires HasText(DictList(review, "findings")[k], "id") && HasText(DictList(review, "findings")[l], "id")
    ensures TextAt(DictList(review, "findings")[k], "id") != TextAt(DictList(review, "findings")[l], "id")
  {
    hide DictList, EntryAt, Get, Place;
    var i := ListedAt(review, "findings", k);
    var j := ListedAt(review, "findings", l);
    FindingPlacesDiffer(review, k, l);
    var f, g := DictList(review, "findings")[k], DictList(review, "findings")[l];
    assert TextIs(f, "id", TextAt(f, "id")) && TextIs(g, "id", TextAt(g, "id"));
    assert forall id: string :: TextIs(f, "id", id) && TextIs(g, "id", id) ==> i == j;
  }

  lemma FindingPlacesDiffer(ms: Fields, k: nat, l: nat)
    requires k < l < |DictList(ms, "findings")|
    ensures Place(Get(ms, "findings").value.items, k) < Place(Get(ms, "findings").value.items, l)
  {
    hide Get, Place, Dicts;
    PlacesAscend(Get(ms, "findings").value.items, k, l);
  }

  lemma FindingsAre(review: Fields)
    ensures FindingsShape(DictList(review, "findings")) <==>
      (forall f: Fields :: Entry(review, "findings", f) ==> FindingFits(f)) && IdsDiffer(review)
  {
    hide DictList, Entry, Get, FindingShape, FindingFits, IdsDiffer;
    var l := DictList(review, "findings");
    EntriesListed(review, "findings");
    forall i | 0 <= i < |l| ensures FindingShape(l[i]) <==> FindingFits(l[i]) { FindingShapeIs(l[i]); }
    if forall i :: 0 <= i < |l| ==> FindingShape(l[i]) {
      ShapeHasId(l);
      if IdsDiffer(review) {
        forall i, j | 0 <= i < j < |l| ensures TextAt(l[i], "id") != TextAt(l[j], "id") {
          ListedIdsDiffer(review, i, j);
        }
      }
      if forall i, j :: 0 <= i < j < |l| ==> TextAt(l[i], "id") != TextAt(l[j], "id") { IdsDifferWhenListed(review); }
    }
  }

  lemma ShapeHasId(l: seq<Fields>)
    requires forall i :: 0 <= i < |l| ==> FindingShape(l[i])
    ensures forall i :: 0 <= i < |l| ==> HasText(l[i], "id")
  {
    hide Get;
  }

  lemma AddressedIs(request: Json, id: string)
    ensures Addressed(id, EligibleIds(request), Candidates(request)) <==>
      Eligible(Dict(request), id)
      && exists g: Fields :: Entry(Dict(request), "fix_candidates", g) && TextIs(g, "finding_id", id)
  {
    hide DictList, Entry, Get, Eligible, EligibleIds, Dict;
    EligibleListed(request, id);
    EntriesListed(Dict(request), "fix_candidates");
    var l := Candidates(request);
    if g: Fields :| Entry(Dict(request), "fix_candidates", g) && TextIs(g, "finding_id", id) {
      var j :| 0 <= j < |l| && l[j] == g;
      assert Is(l[j], "finding_id", id);
    }
    if j :| 0 <= j < |l| && Is(l[j], "finding_id", id) {
      assert l[j] in l && TextIs(l[j], "finding_id", id);
    }
  }

  ghost predicate VerifiedAddressed(request: Json, l: seq<Fields>) {
    forall i :: 0 <= i < |l| && IsVerified(l[i]) && HasText(l[i], "id") ==>
      Addressed(TextAt(l[i], "id"), EligibleIds(request), Candidates(request))
  }

  lemma VerifiedWhenAddressed(request: Json, review: Fields, f: Fields, id: string)
    requires VerifiedAddressed(request, DictList(review, "findings"))
    requires Entry(review, "findings", f) && TextIs(f, "verification_status", "VERIFIED") && TextIs(f, "id", id)
    ensures Addressed(id, EligibleIds(request), Candidates(request))
  {
    hide DictList, Entry, Get, EligibleIds, Addressed;
    EntriesListed(review, "findings");
    assert HasText(f, "id") && TextAt(f, "id") == id;
  }

  lemma AddressedWhenVerified(request: Json, review: Fields, i: nat)
    requires VerifiedFits(Dict(request), review) && i < |DictList(review, "findings")|
    requires var f := DictList(review, "findings")[i]; IsVerified(f) && HasText(f, "id")
    ensures Addressed(TextAt(DictList(review, "findings")[i], "id"), EligibleIds(request), Candidates(request))
  {
    hide DictList, Entry, Get, EligibleIds, Addressed, Eligible, Dict;
    EntriesListed(review, "findings");
    var f := DictList(review, "findings")[i];
    assert f in DictList(review, "findings") && TextIs(f, "id", TextAt(f, "id"));
    AddressedIs(request, TextAt(f, "id"));
  }

  lemma VerifiedAre(request: Json, review: Fields)
    ensures VerifiedFits(Dict(request), review) <==> VerifiedAddressed(request, DictList(review, "findings"))
  {
    hide DictList, Entry, Get, Eligible, EligibleIds, Dict, Addressed, IsVerified, HasText;
    if VerifiedFits(Dict(request), review) {
      forall i | 0 <= i < |DictList(review, "findings")| && IsVerified(DictList(review, "findings")[i])
                 && HasText(DictList(review, "findings")[i], "id")
        ensures Addressed(TextAt(DictList(review, "findings")[i], "id"), EligibleIds(request), Candidates(request))
      {
        AddressedWhenVerified(request, review, i);
      }
    } else {
      var f, id :| Entry(review, "findings", f) && TextIs(f, "verification_status", "VERIFIED") && TextIs(f, "id", id)
        && !(Eligible(Dict(request), id)
             && exists g: Fields :: Entry(Dict(request), "fix_candidates", g) && TextIs(g, "finding_id", id));
      AddressedIs(request, id);
      if VerifiedAddressed(request, DictList(review, "findings")) { VerifiedWhenAddressed(request, review, f, id); }
    }
  }

  lemma NoLaterOne(l: seq<Fields>, k: nat, r: nat, id: string)
    requires Kept(l, k) && TextIs(l[k], "finding_id", id) && r < |l| && TextIs(l[r], "finding_id", id)
    ensures r <= k
  {
    hide Get;
  }

  lemma KeptIsLast(request: Fields, k: nat, i: int, id: string)
    requires k < |DictList(request, "fix_candidates")| && i == Place(Get(request, "fix_candidates").value.items, k)
    requires TextIs(DictList(request, "fix_candidates")[k], "finding_id", id)
    ensures Kept(DictList(request, "fix_candidates"), k) ==> LastFor(request, i, id)
  {
    hide DictList, EntryAt, Get, Place;
    var l := DictList(request, "fix_candidates");
    if Kept(l, k) {
      forall j: int, g: Fields | EntryAt(request, "fix_candidates", j, g) && TextIs(g, "finding_id", id)
        ensures j <= i
      {
        var r := RankOf(request, "fix_candidates", j, g);
        NoLaterOne(l, k, r, id);
        if r < k { CandidatePlaces(request, r, k); }
      }
    }
  }

  lemma LastIsKept(request: Fields, k: nat, i: int, id: string)
    requires k < |DictList(request, "fix_candidates")| && i == Place(Get(request, "fix_candidates").value.items, k)
    requires TextIs(DictList(request, "fix_candidates")[k], "finding_id", id) && LastFor(request, i, id)
    ensures Kept(DictList(request, "fix_candidates"), k)
  {
    hide DictList, EntryAt, Get, Place;
    var l := DictList(request, "fix_candidates");
    forall r | k < r < |l| && HasText(l[r], "finding_id") ensures TextAt(l[r], "finding_id") != id {
      if TextAt(l[r], "finding_id") == id {
        var j := ListedAt(request, "fix_candidates", r);
        assert TextIs(l[r], "finding_id", id);
        CandidatePlaces(request, k, r);
      }
    }
  }

  lemma CandidatePlaces(ms: Fields, k: nat, l: nat)
    requires k < l < |DictList(ms, "fix_candidates")|
    ensures Place(Get(ms, "fix_candidates").value.items, k) < Place(Get(ms, "fix_candidates").value.items, l)
  {
    hide Get, Place, Dicts;
    PlacesAscend(Get(ms, "fix_candidates").value.items, k, l);
  }

  lemma CandidatesAre(request: Fields, head: string)
    ensures CandidatesFit(request, head) <==>
      forall k :: 0 <= k < |DictList(request, "fix_candidates")| && Kept(DictList(request, "fix_candidates"), k) ==>
        AtHead(DictList(request, "fix_candidates")[k], head)
  {
    hide DictList, EntryAt, Get, Place, LastFor, Kept, AtHead;
    var l := DictList(request, "fix_candidates");
    if CandidatesFit(request, head) {
      forall k | 0 <= k < |l| && Kept(l, k) ensures AtHead(l[k], head) {
        var i := ListedAt(request, "fix_candidates", k);
        var id := KeptId(l, k);
        KeptIsLast(request, k, i, id);
        AtHeadIs(l[k], head);
      }
    }
    if forall k :: 0 <= k < |l| && Kept(l, k) ==> AtHead(l[k], head) {
      forall i: int, f: Fields, id: string
        | EntryAt(request, "fix_candidates", i, f) && TextIs(f, "finding_id", id) && LastFor(request, i, id)
        ensures TextIs(f, "candidate_sha", head) && HexAt(f, "record_sha256", 64)
      {
        var k := RankOf(request, "fix_candidates", i, f);
        LastIsKept(request, k, i, id);
        AtHeadIs(f, head);
      }
    }
  }

  lemma KeptId(l: seq<Fields>, k: nat) returns (id: string)
    requires Kept(l, k)
    ensures TextIs(l[k], "finding_id", id)
  {
    id := TextAt(l[k], "finding_id");
  }

  lemma AtHeadIs(f: Fields, head: string)
    ensures AtHead(f, head) <==> TextIs(f, "candidate_sha", head) && HexAt(f, "record_sha256", 64)
  {
    hide Get, HexField, HexAt;
    HexFieldIs(f, "record_sha256", 64);
  }

  lemma SevereAre(review: Fields)
    ensures NoUnresolved(DictList(review, "findings")) || IsTruth(review, "blocking", true) <==> SevereFits(review)
  {
    hide DictList, Entry, Get;
    EntriesListed(review, "findings");
    var l := DictList(review, "findings");
    forall f: Fields ensures Severe(f) <==> TextIs(f, "severity", "P0") || TextIs(f, "severity", "P1") {}
  }

  // ------------------------------------------------------------------ the registry

  lemma LowGateNames(n: nat)
    requires 1 <= n <= 10
    ensures GateName(n) == Named(n)
  {
    if n == 10 {
      assert GateName(10) == "REV-GATE-0" + ['1', '0'] == "REV-GATE-010";
    } else {
      assert GateName(n) == "REV-GATE-0" + ['0', DigitChar(n)];
    }
  }

  lemma HighGateNames(n: nat)
    requires 11 <= n <= 20
    ensures GateName(n) == Named(n)
  {
    if n == 20 {
      assert GateName(20) == "REV-GATE-0" + ['2', '0'] == "REV-GATE-020";
    } else {
      assert GateName(n) == "REV-GATE-0" + ['1', DigitChar(n - 10)];
    }
  }

  lemma GateNames(n: nat)
    requires 1 <= n <= 20
    ensures GateName(n) == Named(n)
  {
    hide GateName, Named;
    if n <= 10 { LowGateNames(n); } else { HighGateNames(n); }
  }

  lemma RegistryIs(registry: set<string>)
    ensures registry == (set n | 1 <= n <= 20 :: GateName(n))
      <==> RegistryFits(registry)
  {
    hide GateName;
    var names := set n | 1 <= n <= 20 :: GateName(n);
    forall name: string ensures name in names <==> name in GATES {
      if name in names {
        var n :| 1 <= n <= 20 && GateName(n) == name;
        GateNames(n);
      }
      if name in GATES {
        var k :| 0 <= k < |GATES| && GATES[k] == name;
        GateNames(k + 1);
      }
    }
  }

  // ------------------------------------------------------------------ the gate

  ghost predicate Decided(x: Input, s: Setup, requestErrors: seq<string>, reviewErrors: seq<string>) {
    && (requestErrors == [] <==> Meets(x.request, s.requestSchema, s.env))
    && (reviewErrors == [] <==> Meets(if x.review == Null then Obj([]) else x.review, s.reviewSchema, s.env))
  }

  lemma FirstFive(x: Input, s: Setup, requestErrors: seq<string>, reviewErrors: seq<string>)
    ensures var g, request, review := Gates(x, s, requestErrors, reviewErrors), Dict(x.request), Dict(x.review);
      && g[0] == (x.exitCode == 0) && g[1] == (review != []) && g[2] == Is(review, "reviewed_commit_sha", x.head)
      && g[3] == (Is(request, "tree_sha", x.tree) && Is(review, "reviewed_tree_sha", x.tree))
      && g[4] == x.checksGreen
  {
    hide Coverage, RequestShape, ReviewShape, DecisionConsistent, ModeConsistent, FindingsShape, StatusAllowed;
    hide FixesConsistent, NoUnresolved, GateName, Is, IsTruth, DefaultBranchMatches, ContentHash, Findings, Dict;
  }

  lemma FirstGates(x: Input, s: Setup, requestErrors: seq<string>, reviewErrors: seq<string>, n: nat)
    requires 1 <= n <= 5
    ensures Gates(x, s, requestErrors, reviewErrors)[n - 1] <==> Asked(n, x, s)
  {
    hide Gates, CoverageReported, RequestFits, ReviewFits, DecisionFits, ModeFits, FindingFits, IdsDiffer, StatusFits;
    hide VerifiedFits, CandidatesFit, SevereFits, RegistryFits, Meets, Entry, Get, CanonicalJson;
    FirstFive(x, s, requestErrors, reviewErrors);
    if Dict(x.review) != [] { assert Dict(x.review)[0] in Dict(x.review); }
  }

  lemma ShapeGates(x: Input, s: Setup, requestErrors: seq<string>, reviewErrors: seq<string>, n: nat)
    requires Decided(x, s, requestErrors, reviewErrors) && 6 <= n <= 8
    ensures Gates(x, s, requestErrors, reviewErrors)[n - 1] <==> Asked(n, x, s)
  {
    hide Coverage, CoverageReported, RequestShape, RequestFits, ReviewShape, ReviewFits, DecisionConsistent;
    hide DecisionFits, ModeConsistent, ModeFits, FindingsShape, FindingFits, IdsDiffer, StatusAllowed, StatusFits;
    hide FixesConsistent, VerifiedFits, CandidatesFit, NoUnresolved, SevereFits, RegistryFits, GateName, Meets;
    hide Entry, DictList, Get, ContentHash, CanonicalJson;
    CoverageIs(Dict(x.review));
    RequestShapeIs(Dict(x.request), requestErrors, x, s);
    ReviewShapeIs(Dict(x.request), Dict(x.review), reviewErrors, x, s);
  }

  lemma ModeGates(x: Input, s: Setup, requestErrors: seq<string>, reviewErrors: seq<string>, n: nat)
    requires 9 <= n <= 11
    ensures Gates(x, s, requestErrors, reviewErrors)[n - 1] <==> Asked(n, x, s)
  {
    hide Coverage, CoverageReported, RequestShape, RequestFits, ReviewShape, ReviewFits, DecisionConsistent;
    hide DecisionFits, ModeConsistent, ModeFits, FindingsShape, FindingFits, IdsDiffer, StatusAllowed, StatusFits;
    hide FixesConsistent, VerifiedFits, CandidatesFit, NoUnresolved, SevereFits, RegistryFits, GateName, Meets;
    hide Entry, DictList, Get, CanonicalJson;
    DecisionIs(Dict(x.review));
    ModeIs(x.request, Dict(x.review));
  }

  lemma FindingGates(x: Input, s: Setup, requestErrors: seq<string>, reviewErrors: seq<string>, n: nat)
    requires 12 <= n <= 14
    ensures Gates(x, s, requestErrors, reviewErrors)[n - 1] <==> Asked(n, x, s)
  {
    hide Coverage, CoverageReported, RequestShape, RequestFits, ReviewShape, ReviewFits, DecisionConsistent;
    hide DecisionFits, ModeConsistent, ModeFits, FindingsShape, FindingFits, IdsDiffer, StatusAllowed, StatusFits;
    hide FixesConsistent, VerifiedFits, CandidatesFit, NoUnresolved, SevereFits, RegistryFits, GateName, Meets;
    hide Entry, DictList, Get, ContentHash, CanonicalJson;
    var request, review := Dict(x.request), Dict(x.review);
    FindingsAre(review);
    StatusesAre(request, review);
    FixesAre(x.request, review, x.head);
  }

  lemma LastSix(x: Input, s: Setup, requestErrors: seq<string>, reviewErrors: seq<string>)
    ensures var g, request, review := Gates(x, s, requestErrors, reviewErrors), Dict(x.request), Dict(x.review);
      && g[14] == (forall i :: 0 <= i < |Findings(x.review)| ==>
                     !Is(Findings(x.review)[i], "verification_status", "CLOSED"))
      && g[15] == (forall i :: 0 <= i < |Findings(x.review)| ==>
                     Is(Findings(x.review)[i], "disposition", "UNDECIDED"))
      && g[16] == (NoUnresolved(Findings(x.review)) || IsTruth(review, "blocking", true))
      && g[17] == (Is(request, "head_sha", x.head) && Is(review, "reviewed_commit_sha", x.head))
      && g[18] == (x.driftAllowed && DefaultBranchMatches(review, x.expectedDefault))
      && g[19] == (s.registry == (set n | 1 <= n <= 20 :: GateName(n)))
  {
    hide Coverage, RequestShape, ReviewShape, DecisionConsistent, ModeConsistent, FindingsShape, StatusAllowed;
    hide FixesConsistent, NoUnresolved, GateName, Is, IsTruth, DefaultBranchMatches, ContentHash, Findings, Dict;
  }

  lemma LastGates(x: Input, s: Setup, requestErrors: seq<string>, reviewErrors: seq<string>, n: nat)
    requires 15 <= n <= 20
    ensures Gates(x, s, requestErrors, reviewErrors)[n - 1] <==> Asked(n, x, s)
  {
    hide Gates, CoverageReported, RequestFits, ReviewFits, DecisionFits, ModeFits, FindingFits, IdsDiffer, StatusFits;
    hide VerifiedFits, CandidatesFit, SevereFits, RegistryFits, Meets, Entry, Get, CanonicalJson, DictList;
    hide NoUnresolved, GateName;
    LastSix(x, s, requestErrors, reviewErrors);
    FieldsAre(Dict(x.review));
    SevereAre(Dict(x.review));
    RegistryIs(s.registry);
  }

  lemma GateIs(x: Input, s: Setup, requestErrors: seq<string>, reviewErrors: seq<string>, n: nat)
    requires Decided(x, s, requestErrors, reviewErrors) && 1 <= n <= 20
    ensures Gates(x, s, requestErrors, reviewErrors)[n - 1] <==> Asked(n, x, s)
  {
    hide Gates, Asked, Decided;
    if n <= 5 { FirstGates(x, s, requestErrors, reviewErrors, n); }
    else if n <= 8 { ShapeGates(x, s, requestErrors, reviewErrors, n); }
    else if n <= 11 { ModeGates(x, s, requestErrors, reviewErrors, n); }
    else if n <= 14 { FindingGates(x, s, requestErrors, reviewErrors, n); }
    else { LastGates(x, s, requestErrors, reviewErrors, n); }
  }

  lemma FieldsAre(review: Fields)
    ensures (forall i :: 0 <= i < |DictList(review, "findings")| ==>
               !Is(DictList(review, "findings")[i], "verification_status", "CLOSED"))
      <==> forall f: Fields :: Entry(review, "findings", f) ==> !TextIs(f, "verification_status", "CLOSED")
    ensures (forall i :: 0 <= i < |DictList(review, "findings")| ==>
               Is(DictList(review, "findings")[i], "disposition", "UNDECIDED"))
      <==> forall f: Fields :: Entry(review, "findings", f) ==> TextIs(f, "disposition", "UNDECIDED")
  {
    hide DictList, Entry, Get;
    EntriesListed(review, "findings");
    forall f: Fields ensures TextIs(f, "verification_status", "CLOSED") <==> Is(f, "verification_status", "CLOSED") {}
    forall f: Fields ensures TextIs(f, "disposition", "UNDECIDED") <==> Is(f, "disposition", "UNDECIDED") {}
  }

  lemma StatusesAre(request: Fields, review: Fields)
    ensures (forall i :: 0 <= i < |DictList(review, "findings")| ==>
               StatusAllowed(request, DictList(review, "findings")[i]))
      <==> forall f: Fields :: Entry(review, "findings", f) ==> StatusFits(request, f)
  {
    hide DictList, Entry, Get;
    EntriesListed(review, "findings");
  }

  lemma FixesAre(request: Json, review: Fields, head: string)
    ensures FixesConsistent(request, DictList(review, "findings"), head)
      <==> VerifiedFits(Dict(request), review) && CandidatesFit(Dict(request), head)
  {
    hide DictList, Get, Addressed, VerifiedFits, CandidatesFit, Kept, AtHead, IsVerified, HasText, EligibleIds, Dict;
    VerifiedAre(request, review);
    CandidatesAre(Dict(request), head);
    assert Candidates(request) == DictList(Dict(request), "fix_candidates");
    assert VerifiedAddressed(request, DictList(review, "findings")) <==>
      forall i :: 0 <= i < |DictList(review, "findings")| && IsVerified(DictList(review, "findings")[i])
                  && HasText(DictList(review, "findings")[i], "id") ==>
        Addressed(TextAt(DictList(review, "findings")[i], "id"), EligibleIds(request), Candidates(request));
  }

  /** The schema checks of the gate raise nothing, and decide what they check. */
  lemma ChecksDecide(x: Input, s: Setup)
    requires Clean(s.requestSchema, s.env) && Clean(s.reviewSchema, s.env)
    requires WellFormed(x.request) && WellFormed(x.review)
    ensures var given := if x.review == Null then Obj([]) else x.review;
      && Validate(x.request, s.requestSchema, [], s.env).Errors? && Validate(given, s.reviewSchema, [], s.env).Errors?
      && Decided(x, s, Validate(x.request, s.requestSchema, [], s.env).list,
                 Validate(given, s.reviewSchema, [], s.env).list)
  {
    hide Validate, Satisfies, Sound, NullFree;
    ValidateDecides(x.request, s.requestSchema, [], s.env);
    ValidateDecides(if x.review == Null then Obj([]) else x.review, s.reviewSchema, [], s.env);
  }

  /** The name of gate n is among the reasons exactly when what that gate asks is not so. */
  lemma ReasonExactly(x: Input, s: Setup, n: nat)
    requires Loaded(s) && Clean(s.requestSchema, s.env) && Clean(s.reviewSchema, s.env)
    requires WellFormed(x.request) && WellFormed(x.review) && 1 <= n <= 20
    ensures ReviewGate(x, s).Some?
    ensures Named(n) in ReviewGate(x, s).value.reasons <==> !Asked(n, x, s)
  {
    hide Validate, Gates, Sound, RedFrom, Clean, WellFormed, Asked, GateName, Named, NoUnresolved, Findings, Decided;
    ChecksDecide(x, s);
    var requestErrors := Validate(x.request, s.requestSchema, [], s.env).list;
    var reviewErrors := Validate(if x.review == Null then Obj([]) else x.review, s.reviewSchema, [], s.env).list;
    GateIs(x, s, requestErrors, reviewErrors, n);
    GateNames(n);
    ReasonsNameRedGates(Gates(x, s, requestErrors, reviewErrors), 0, n);
  }

  lemma {:induction false} NothingRed(g: seq<bool>, n: nat)
    requires |g| == 20 && n <= 20
    ensures RedFrom(g, n) == [] <==> forall k :: n <= k < 20 ==> g[k]
    decreases 20 - n
  {
    hide GateName;
    if n < 20 { NothingRed(g, n + 1); }
  }

  /** The gate accepts exactly when all twenty things are so. */
  lemma AcceptedExactly(x: Input, s: Setup)
    requires Loaded(s) && Clean(s.requestSchema, s.env) && Clean(s.reviewSchema, s.env)
    requires WellFormed(x.request) && WellFormed(x.review)
    ensures ReviewGate(x, s).Some?
    ensures ReviewGate(x, s).value.accepted <==> forall n: nat :: 1 <= n <= 20 ==> Asked(n, x, s)
  {
    hide Validate, Gates, Sound, RedFrom, Clean, WellFormed, Asked, GateName, Decided, Findings, NoUnresolved;
    ChecksDecide(x, s);
    var requestErrors := Validate(x.request, s.requestSchema, [], s.env).list;
    var reviewErrors := Validate(if x.review == Null then Obj([]) else x.review, s.reviewSchema, [], s.env).list;
    var g := Gates(x, s, requestErrors, reviewErrors);
    NothingRed(g, 0);
    if forall n: nat :: 1 <= n <= 20 ==> Asked(n, x, s) {
      forall k | 0 <= k < 20 ensures g[k] { GateIs(x, s, requestErrors, reviewErrors, k + 1); }
    } else {
      var n: nat :| 1 <= n <= 20 && !Asked(n, x, s);
      GateIs(x, s, requestErrors, reviewErrors, n);
    }
  }

  /** The next state: stopped unless accepted, and else green exactly when nothing was found. */
  lemma StateExactly(x: Input, s: Setup)
    requires Loaded(s) && ReviewGate(x, s).Some?
    ensures var d := ReviewGate(x, s).value;
      d.state == (if !d.accepted then "qf:stopped"
                  else if x.review.Obj? && exists f: Fields :: Entry(x.review.members, "findings", f)
                  then "qf:changes-requested" else "qf:review-green")
  {
    hide Validate, Gates, Sound, RedFrom, Entry, DictList;
    EntriesListed(Dict(x.review), "findings");
    NoneInEmpty();
  }

  lemma NoneInEmpty()
    ensures DictList([], "findings") == []
  {
  }

  /** An accepted gate had a request and a review that satisfy their schemas. */
  lemma AcceptedFitsSchemas(x: Input, s: Setup)
    requires Loaded(s) && Clean(s.requestSchema, s.env) && Clean(s.reviewSchema, s.env)
    requires WellFormed(x.request) && WellFormed(x.review)
    requires ReviewGate(x, s).Some? && ReviewGate(x, s).value.accepted
    ensures Satisfies(x.request, s.requestSchema, s.env)
    ensures x.review.Obj? && Satisfies(x.review, s.reviewSchema, s.env)
  {
    hide ReviewGate, Satisfies, Sound, Clean, WellFormed, CoverageReported, DecisionFits, ModeFits, FindingFits;
    hide IdsDiffer, StatusFits, VerifiedFits, CandidatesFit, SevereFits, RegistryFits, Entry, Get, CanonicalJson;
    AcceptedExactly(x, s);
    assert Asked(2, x, s);
    assert Asked(7, x, s);
    assert Asked(8, x, s);
  }

  /** Names of gates from this one on, each once and in the order of the gates. */
  ghost predicate NamesInOrder(names: seq<string>, from: nat) {
    names == []
    || exists m: nat :: from <= m <= 20 && 1 <= m && names[0] == Named(m) && NamesInOrder(names[1..], m + 1)
  }

  lemma NamesFromEarlier(names: seq<string>, from: nat, later: nat)
    requires NamesInOrder(names, later) && from <= later
    ensures NamesInOrder(names, from)
  {
    hide Named;
  }

  lemma {:induction false} RedInOrder(g: seq<bool>, n: nat)
    requires |g| == 20 && n <= 20
    ensures NamesInOrder(RedFrom(g, n), n + 1)
    decreases 20 - n
  {
    hide GateName, Named;
    if n < 20 {
      RedInOrder(g, n + 1);
      GateNames(n + 1);
      var rest := RedFrom(g, n + 1);
      if g[n] {
        assert [] + rest == rest;
        NamesFromEarlier(rest, n + 1, n + 2);
      } else {
        assert ([Named(n + 1)] + rest)[1..] == rest;
      }
    }
  }

  /** The reasons are names of gates, each once and in the order of the gates. */
  lemma ReasonsInOrder(x: Input, s: Setup)
    requires Loaded(s) && ReviewGate(x, s).Some?
    ensures NamesInOrder(ReviewGate(x, s).value.reasons, 1)
  {
    hide Validate, Gates, Sound, RedFrom, NamesInOrder, Findings, NoUnresolved;
    RedInOrder(Gates(x, s, Validate(x.request, s.requestSchema, [], s.env).list,
                     Validate(if x.review == Null then Obj([]) else x.review, s.reviewSchema, [], s.env).list), 0);
  }
}
