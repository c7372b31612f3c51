/** The supported subset of JSON Schema: the definition walk and the instance validator. Regular
    expressions and format checks are parameters. */
module Schema {
  import opened Base
  import opened Json

  const DRAFT := "https://json-schema.org/draft/2020-12/schema"

  predicate IsKeyword(key: string) {
    key in ["$schema", "$id", "title", "type", "additionalProperties", "required", "properties", "const", "enum",
            "items", "minItems", "uniqueItems", "minLength", "minimum", "maximum", "pattern", "format"]
  }

  predicate IsType(name: string) {
    name in ["object", "array", "string", "integer", "boolean", "null"]
  }

  datatype Env = Env(compiles: string -> bool, search: (string, string) -> bool,
    formatIsValid: (string, string) -> bool)

  datatype Why =
    | NotAnObject | UnsupportedKeyword | RootOnlyKeyword | WrongDialect | WrongId | TitleNotText
    | BadType | UnsupportedType | PropertiesNotObject | BadRequired | UndeclaredRequired | BadAdditionalProperties
    | BadEnum | RepeatedEnumValue | NotACount(keyword: string) | NotABound(keyword: string) | MinimumAboveMaximum
    | BadUniqueItems | BadPattern | UnsupportedFormat | NeedsType(keyword: string)

  /** Accepted, refused with a ControllerError, or any other exception. */
  datatype Verdict = Accepted | Refused(why: Why) | Crash

  datatype Place = Root(expectedId: Option<string>) | Nested

  function Then(a: Verdict, b: Verdict): Verdict {
    if a.Accepted? then b else a
  }

  function Need(ok: bool, why: Why): Verdict {
    if ok then Accepted else Refused(why)
  }

  /** len(xs) != len(set(xs)). */
  predicate Repeats(xs: seq<string>) {
    |xs| != |(set x | x in xs)|
  }

  lemma {:induction false} RepeatsIffNotDistinct(xs: seq<string>)
    ensures |(set x | x in xs)| <= |xs|
    ensures Repeats(xs) <==> !Distinct(xs)
  {
    if xs != [] {
      var before, last := xs[..|xs| - 1], xs[|xs| - 1];
      RepeatsIffNotDistinct(before);
      assert xs == before + [last];
      assert (set x | x in xs) == (set x | x in before) + {last};
      if last in before {
        assert (set x | x in xs) == (set x | x in before);
        var i :| 0 <= i < |before| && before[i] == last;
        assert xs[i] == xs[|xs| - 1];
      } else {
        assert forall i :: 0 <= i < |before| ==> xs[i] in before;
        assert Distinct(before) ==> Distinct(xs);
        assert Distinct(xs) ==> Distinct(before);
      }
    }
  }

  function CanonicalTexts(items: seq<Json>): (r: seq<string>)
    ensures |r| == |items| && forall i :: 0 <= i < |r| ==> r[i] == CanonicalJson(items[i])
  {
    if items == [] then [] else [CanonicalJson(items[0])] + CanonicalTexts(items[1..])
  }

  predicate AllText(items: seq<Json>) {
    forall i :: 0 <= i < |items| ==> items[i].Str?
  }

  function Texts(items: seq<Json>): (r: seq<string>)
    requires AllText(items)
    ensures |r| == |items| && forall i :: 0 <= i < |r| ==> r[i] == items[i].text
  {
    if items == [] then [] else [items[0].text] + Texts(items[1..])
  }

  function Keys(ms: seq<Member>): (r: seq<string>)
    ensures |r| == |ms| && forall i :: 0 <= i < |r| ==> r[i] == ms[i].key
  {
    if ms == [] then [] else [ms[0].key] + Keys(ms[1..])
  }

  predicate Has(ms: seq<Member>, key: string) {
    Get(ms, key).Some?
  }

  /** dict.get(key), with JSON null and absence alike. */
  function GetValue(ms: seq<Member>, key: string): Json {
    match Get(ms, key) case Some(v) => v case None => Null
  }

  // ------------------------------------------------------------- definition walk

  /** The declared types; none when the keyword is absent or null. */
  function Types(ms: seq<Member>): seq<string> {
    match GetValue(ms, "type")
    case Str(s) => [s]
    case Arr(items) => if AllText(items) then Texts(items) else []
    case _ => []
  }

  function HeadCheck(ms: seq<Member>, place: Place): Verdict {
    Then(Need(forall i :: 0 <= i < |ms| ==> IsKeyword(ms[i].key), UnsupportedKeyword),
    if place.Nested? then Need(!Has(ms, "$schema") && !Has(ms, "$id") && !Has(ms, "title"), RootOnlyKeyword)
    else
      Then(Need(Get(ms, "$schema") == Some(Str(DRAFT)), WrongDialect),
      Then(Need(place.expectedId.Some? ==> Get(ms, "$id") == Some(Str(place.expectedId.value)), WrongId),
      Need(Has(ms, "title") ==> Get(ms, "title").value.Str?, TitleNotText))))
  }

  function TypeCheck(ms: seq<Member>): Verdict {
    var t := GetValue(ms, "type");
    if t == Null then Accepted
    else
      Then(Need(t.Str? || (t.Arr? && t.items != [] && AllText(t.items)), BadType),
      Need((forall i :: 0 <= i < |Types(ms)| ==> IsType(Types(ms)[i])) && !Repeats(Types(ms)), UnsupportedType))
  }

  function RequiredCheck(ms: seq<Member>): Verdict {
    var required, properties := GetValue(ms, "required"), GetValue(ms, "properties");
    if required == Null then Accepted
    else if !(required.Arr? && AllText(required.items) && !Repeats(Texts(required.items))) then Refused(BadRequired)
    else
      Need(properties.Obj? ==> forall i :: 0 <= i < |required.items| ==>
        Has(properties.members, required.items[i].text),
        UndeclaredRequired)
  }

  function EnumCheck(ms: seq<Member>): Verdict {
    match GetValue(ms, "enum")
    case Null => Accepted
    case Arr(items) =>
      if items == [] then Refused(BadEnum) else Need(!Repeats(CanonicalTexts(items)), RepeatedEnumValue)
    case _ => Refused(BadEnum)
  }

  function CountCheck(ms: seq<Member>, keyword: string): Verdict {
    match Get(ms, keyword)
    case None => Accepted
    case Some(Int(n)) => Need(n >= 0, NotACount(keyword))
    case _ => Refused(NotACount(keyword))
  }

  function Power2(n: nat): nat {
    if n == 0 then 1 else 2 * Power2(n - 1)
  }

  /** Whether the integer rounds to a finite double; beyond that the finiteness test raises. */
  predicate FitsDouble(n: int) {
    -(Power2(1024) - Power2(970)) < n < Power2(1024) - Power2(970)
  }

  function BoundCheck(ms: seq<Member>, keyword: string): Verdict {
    match Get(ms, keyword)
    case None => Accepted
    case Some(Int(n)) => if FitsDouble(n) then Accepted else Crash
    case _ => Refused(NotABound(keyword))
  }

  function BoundsCheck(ms: seq<Member>): Verdict {
    Then(BoundCheck(ms, "minimum"),
    Then(BoundCheck(ms, "maximum"),
    match (Get(ms, "minimum"), Get(ms, "maximum"))
    case (Some(Int(low)), Some(Int(high))) => Need(low <= high, MinimumAboveMaximum)
    case _ => Accepted))
  }

  /** A list or dictionary as format is not hashable. */
  function TextCheck(ms: seq<Member>, compiles: string -> bool): Verdict {
    Then(match Get(ms, "pattern")
         case None => Accepted
         case Some(Str(p)) => Need(compiles(p), BadPattern)
         case _ => Refused(BadPattern),
    match Get(ms, "format")
    case None => Accepted
    case Some(Str(f)) => Need(f == "date" || f == "date-time", UnsupportedFormat)
    case Some(v) => if v.Arr? || v.Obj? then Crash else Refused(UnsupportedFormat))
  }

  function NeedType(ms: seq<Member>, keyword: string, name: string): Verdict {
    Need(Has(ms, keyword) ==> name in Types(ms), NeedsType(keyword))
  }

  function TypeNeeds(ms: seq<Member>): Verdict {
    Then(NeedType(ms, "properties", "object"),
    Then(NeedType(ms, "required", "object"),
    Then(NeedType(ms, "additionalProperties", "object"),
    Then(NeedType(ms, "items", "array"),
    Then(NeedType(ms, "minItems", "array"),
    Then(NeedType(ms, "uniqueItems", "array"),
    Then(NeedType(ms, "minLength", "string"),
    Then(NeedType(ms, "pattern", "string"),
    Then(NeedType(ms, "format", "string"),
    Then(NeedType(ms, "minimum", "integer"), NeedType(ms, "maximum", "integer")))))))))))
  }

  function BooleanCheck(ms: seq<Member>, keyword: string, why: Why): Verdict {
    Need(Has(ms, keyword) ==> Get(ms, keyword).value.Bool?, why)
  }

  /** The walk below the keyword check of one node, in source order. */
  function Body(ms: seq<Member>, compiles: string -> bool): Verdict
    decreases ms
  {
    var p, i := IndexOf(ms, "properties"), IndexOf(ms, "items");
    Then(TypeCheck(ms),
    Then(if p == |ms| || ms[p].value == Null then Accepted
         else if ms[p].value.Obj? then WalkAll(ms[p].value.members, compiles)
         else Refused(PropertiesNotObject),
    Then(RequiredCheck(ms),
    Then(BooleanCheck(ms, "additionalProperties", BadAdditionalProperties),
    Then(EnumCheck(ms),
    Then(if i == |ms| || ms[i].value == Null then Accepted else Walk(ms[i].value, Nested, compiles),
    Then(CountCheck(ms, "minLength"),
    Then(CountCheck(ms, "minItems"),
    Then(BoundsCheck(ms),
    Then(BooleanCheck(ms, "uniqueItems", BadUniqueItems),
    Then(TextCheck(ms, compiles),
    TypeNeeds(ms))))))))))))
  }

  function WalkAll(children: seq<Member>, compiles: string -> bool): Verdict
    decreases children
  {
    if children == [] then Accepted
    else Then(Walk(children[0].value, Nested, compiles), WalkAll(children[1..], compiles))
  }

  function Walk(node: Json, place: Place, compiles: string -> bool): Verdict
    decreases node
  {
    if !node.Obj? then Refused(NotAnObject) else Then(HeadCheck(node.members, place), Body(node.members, compiles))
  }

  /** validate_schema_definition. */
  function ValidateSchemaDefinition(schema: Json, expectedId: Option<string>, compiles: string -> bool): Verdict {
    Walk(schema, Root(expectedId), compiles)
  }

  /** A node the walk accepts, whether at the root or nested. */
  predicate Sound(schema: Json, compiles: string -> bool) {
    schema.Obj? && Body(schema.members, compiles).Accepted?
  }

  lemma AcceptedIsSound(schema: Json, expectedId: Option<string>, compiles: string -> bool)
    requires ValidateSchemaDefinition(schema, expectedId, compiles).Accepted?
    ensures Sound(schema, compiles)
  {
    hide Body;
  }

  lemma {:induction false} WalkAllAccepts(children: seq<Member>, compiles: string -> bool, i: nat)
    requires WalkAll(children, compiles).Accepted? && i < |children|
    ensures Sound(children[i].value, compiles)
  {
    hide Body;
    if i > 0 { WalkAllAccepts(children[1..], compiles, i - 1); }
  }

  /** What acceptance says about one node, keyword by keyword. */
  ghost predicate Checked(ms: seq<Member>, compiles: string -> bool) {
    && TypeCheck(ms).Accepted? && RequiredCheck(ms).Accepted? && EnumCheck(ms).Accepted?
    && CountCheck(ms, "minLength").Accepted? && CountCheck(ms, "minItems").Accepted?
    && BoundsCheck(ms).Accepted? && TextCheck(ms, compiles).Accepted? && TypeNeeds(ms).Accepted?
    && BooleanCheck(ms, "additionalProperties", BadAdditionalProperties).Accepted?
    && BooleanCheck(ms, "uniqueItems", BadUniqueItems).Accepted?
  }

  lemma SoundIsChecked(schema: Json, compiles: string -> bool)
    requires Sound(schema, compiles)
    ensures Checked(schema.members, compiles)
  {
    hide TypeCheck, RequiredCheck, EnumCheck, CountCheck, BoundsCheck, TextCheck, TypeNeeds, BooleanCheck;
  }

  /** The subschema under properties for a name. */
  function Property(ms: seq<Member>, name: string): Option<Json> {
    match GetValue(ms, "properties") case Obj(ps) => Get(ps, name) case _ => None
  }

  lemma PropertiesSound(schema: Json, compiles: string -> bool)
    requires Sound(schema, compiles)
    ensures var v := GetValue(schema.members, "properties");
      v == Null || (v.Obj? && forall i :: 0 <= i < |v.members| ==>
        v.members[i].value.Obj? && Sound(v.members[i].value, compiles))
  {
    hide TypeCheck, RequiredCheck, EnumCheck, CountCheck, BoundsCheck, TextCheck, TypeNeeds, BooleanCheck, WalkAll;
    var v := GetValue(schema.members, "properties");
    if v.Obj? {
      assert WalkAll(v.members, compiles).Accepted?;
      forall i | 0 <= i < |v.members| ensures Sound(v.members[i].value, compiles) {
        WalkAllAccepts(v.members, compiles, i);
      }
    }
  }

  lemma ItemsSound(schema: Json, compiles: string -> bool)
    requires Sound(schema, compiles)
    ensures var v := GetValue(schema.members, "items"); v == Null || (v.Obj? && Sound(v, compiles))
  {
    hide TypeCheck, RequiredCheck, EnumCheck, CountCheck, BoundsCheck, TextCheck, TypeNeeds, BooleanCheck, WalkAll;
    hide HeadCheck;
    assert Walk(GetValue(schema.members, "items"), Nested, compiles).Accepted?
      || GetValue(schema.members, "items") == Null;
  }

  lemma PropertySound(schema: Json, name: string, compiles: string -> bool)
    requires Sound(schema, compiles)
    ensures var p := Property(schema.members, name); p.Some? ==> Sound(p.value, compiles)
  {
    hide Body;
    PropertiesSound(schema, compiles);
  }
}
