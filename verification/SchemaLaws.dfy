/** What the definition walk refuses, fault by fault. */
module SchemaLaws {
  import opened Base
  import opened Json
  import opened Schema

  // ------------------------------------------------------------------ the faults of one node

  ghost predicate HeadFault(v: Verdict, ms: seq<Member>, place: Place) {
    match v
    case Refused(UnsupportedKeyword) =>
      exists i :: 0 <= i < |ms| &&
        ms[i].key !in ["$schema", "$id", "title", "type", "additionalProperties", "required", "properties", "const",
                       "enum", "items", "minItems", "uniqueItems", "minLength", "minimum", "maximum", "pattern",
                       "format"]
    case Refused(RootOnlyKeyword) =>
      place.Nested? && (Get(ms, "$schema").Some? || Get(ms, "$id").Some? || Get(ms, "title").Some?)
    case Refused(WrongDialect) =>
      place.Root? && Get(ms, "$schema") != Some(Str("https://json-schema.org/draft/2020-12/schema"))
    case Refused(WrongId) =>
      place.Root? && place.expectedId.Some? && Get(ms, "$id") != Some(Str(place.expectedId.value))
    case Refused(TitleNotText) => place.Root? && exists t :: Get(ms, "title") == Some(t) && !t.Str?
    case _ => false
  }

  ghost predicate KnownType(name: string) {
    || name == "object" || name == "array" || name == "string" || name == "integer" || name == "boolean"
    || name == "null"
  }

  ghost predicate TypeFault(v: Verdict, ms: seq<Member>) {
    match v
    case Refused(BadType) =>
      exists t :: Get(ms, "type") == Some(t) && t != Null && !t.Str?
        && (t.Arr? ==> t.items == [] || exists i :: 0 <= i < |t.items| && !t.items[i].Str?)
    case Refused(UnsupportedType) =>
      || (exists name :: Get(ms, "type") == Some(Str(name)) && !KnownType(name))
      || exists items: seq<Json> :: Get(ms, "type") == Some(Arr(items))
           && ((exists i :: 0 <= i < |items| && items[i].Str? && !KnownType(items[i].text))
               || exists i, j :: 0 <= i < j < |items| && items[i] == items[j])
    case _ => false
  }

  ghost predicate PropertiesFault(v: Verdict, ms: seq<Member>) {
    v == Refused(PropertiesNotObject) && exists p :: Get(ms, "properties") == Some(p) && p != Null && !p.Obj?
  }

  ghost predicate NoKey(ps: seq<Member>, key: string) {
    forall k :: 0 <= k < |ps| ==> ps[k].key != key
  }

  ghost predicate RequiredFault(v: Verdict, ms: seq<Member>) {
    match v
    case Refused(BadRequired) =>
      exists r :: Get(ms, "required") == Some(r) && r != Null
        && (r.Arr? ==>
              (exists i :: 0 <= i < |r.items| && !r.items[i].Str?)
              || exists i, j :: 0 <= i < j < |r.items| && r.items[i] == r.items[j])
    case Refused(UndeclaredRequired) =>
      exists names: seq<Json>, ps: seq<Member>, i: int ::
        Get(ms, "required") == Some(Arr(names)) && Get(ms, "properties") == Some(Obj(ps))
        && 0 <= i < |names| && names[i].Str? && NoKey(ps, names[i].text)
    case _ => false
  }

  ghost predicate FlagFault(v: Verdict, ms: seq<Member>) {
    match v
    case Refused(BadAdditionalProperties) => exists b :: Get(ms, "additionalProperties") == Some(b) && !b.Bool?
    case Refused(BadUniqueItems) => exists b :: Get(ms, "uniqueItems") == Some(b) && !b.Bool?
    case _ => false
  }

  ghost predicate EnumFault(v: Verdict, ms: seq<Member>) {
    match v
    case Refused(BadEnum) => exists e :: Get(ms, "enum") == Some(e) && e != Null && (e.Arr? ==> e.items == [])
    case Refused(RepeatedEnumValue) =>
      exists items: seq<Json>, i, j ::
        Get(ms, "enum") == Some(Arr(items)) && 0 <= i < j < |items| && Same(items[i], items[j])
    case _ => false
  }

  ghost predicate CountFault(v: Verdict, ms: seq<Member>) {
    exists keyword, n :: (keyword == "minLength" || keyword == "minItems") && v == Refused(NotACount(keyword))
      && Get(ms, keyword) == Some(n) && !(n.Int? && n.number >= 0)
  }

  /** Beyond the largest finite double, (2^53 - 1) * 2^971, by at least half the way to 2^1024. */
  ghost predicate Overflows(n: int) {
    2 * (if n < 0 then -n else n) >= (Power2(53) - 1) * Power2(971) + Power2(1024)
  }

  ghost predicate BoundFault(v: Verdict, ms: seq<Member>) {
    || (exists keyword, n :: (keyword == "minimum" || keyword == "maximum") && v == Refused(NotABound(keyword))
          && Get(ms, keyword) == Some(n) && !n.Int?)
    || (v == Crash
        && exists keyword, n :: (keyword == "minimum" || keyword == "maximum") && Get(ms, keyword) == Some(Int(n))
             && Overflows(n))
    || (v == Refused(MinimumAboveMaximum)
        && exists low, high :: Get(ms, "minimum") == Some(Int(low)) && Get(ms, "maximum") == Some(Int(high))
             && low > high)
  }

  ghost predicate TextFault(v: Verdict, ms: seq<Member>, compiles: string -> bool) {
    match v
    case Refused(BadPattern) => exists p :: Get(ms, "pattern") == Some(p) && !(p.Str? && compiles(p.text))
    case Refused(UnsupportedFormat) =>
      exists f :: Get(ms, "format") == Some(f) && f != Str("date") && f != Str("date-time") && !f.Arr? && !f.Obj?
    case Crash => exists f :: Get(ms, "format") == Some(f) && (f.Arr? || f.Obj?)
    case _ => false
  }

  /** The declared type is this one, or a list with it. */
  ghost predicate Declares(ms: seq<Member>, name: string) {
    || Get(ms, "type") == Some(Str(name))
    || exists items: seq<Json> :: Get(ms, "type") == Some(Arr(items)) && Str(name) in items
  }

  /** The keywords that go with a type. */
  ghost predicate GoesWith(keyword: string, name: string) {
    || (name == "object" && (keyword == "properties" || keyword == "required" || keyword == "additionalProperties"))
    || (name == "array" && (keyword == "items" || keyword == "minItems" || keyword == "uniqueItems"))
    || (name == "string" && (keyword == "minLength" || keyword == "pattern" || keyword == "format"))
    || (name == "integer" && (keyword == "minimum" || keyword == "maximum"))
  }

  ghost predicate NeedFault(v: Verdict, ms: seq<Member>) {
    exists keyword, name ::
      GoesWith(keyword, name) && v == Refused(NeedsType(keyword)) && Get(ms, keyword).Some? && !Declares(ms, name)
  }

  ghost predicate NodeFault(v: Verdict, node: Json, place: Place, compiles: string -> bool) {
    match node
    case Obj(ms) =>
      || HeadFault(v, ms, place) || TypeFault(v, ms) || PropertiesFault(v, ms) || RequiredFault(v, ms)
      || FlagFault(v, ms) || EnumFault(v, ms) || CountFault(v, ms) || BoundFault(v, ms)
      || TextFault(v, ms, compiles) || NeedFault(v, ms)
    case _ => v == Refused(NotAnObject)
  }

  /** The node has the fault, or one of the schemas under its properties or its items has. */
  ghost predicate Faulty(v: Verdict, node: Json, place: Place, compiles: string -> bool)
    decreases node
  {
    || NodeFault(v, node, place, compiles)
    || (node.Obj?
        && exists k :: 0 <= k < |node.members| && ChildFaulty(v, node.members[k], compiles))
  }

  ghost predicate ChildFaulty(v: Verdict, m: Member, compiles: string -> bool)
    decreases m
  {
    || (m.key == "items" && m.value != Null && Faulty(v, m.value, Nested, compiles))
    || (m.key == "properties" && m.value.Obj?
        && exists j :: 0 <= j < |m.value.members| && Faulty(v, m.value.members[j].value, Nested, compiles))
  }

  // ------------------------------------------------------------------ check by check

  lemma HeadIs(ms: seq<Member>, place: Place)
    ensures HeadCheck(ms, place).Accepted? ==> forall v :: !HeadFault(v, ms, place)
    ensures !HeadCheck(ms, place).Accepted? ==> HeadFault(HeadCheck(ms, place), ms, place)
  {
    hide Get;
  }

  lemma TypesRepeat(items: seq<Json>)
    requires AllText(items)
    ensures Repeats(Texts(items)) <==> exists i, j :: 0 <= i < j < |items| && items[i] == items[j]
  {
    RepeatsIffNotDistinct(Texts(items));
    if i, j :| 0 <= i < j < |items| && items[i] == items[j] { assert Texts(items)[i] == Texts(items)[j]; }
    if !Distinct(Texts(items)) {
      var i, j :| 0 <= i < j < |items| && Texts(items)[i] == Texts(items)[j];
      assert items[i] == items[j];
    }
  }

  lemma KnownTypes(name: string)
    ensures IsType(name) <==> KnownType(name)
  {
  }

  lemma ListedTypesAre(ms: seq<Member>, items: seq<Json>)
    requires Get(ms, "type") == Some(Arr(items)) && items != [] && AllText(items)
    ensures TypeCheck(ms).Accepted? ==> forall v :: !TypeFault(v, ms)
    ensures !TypeCheck(ms).Accepted? ==> TypeCheck(ms) == Refused(UnsupportedType) && TypeFault(TypeCheck(ms), ms)
  {
    hide Get, Repeats, IsType, KnownType;
    TypesRepeat(items);
    forall i | 0 <= i < |items| ensures IsType(Types(ms)[i]) <==> items[i].Str? && KnownType(items[i].text) {
      KnownTypes(items[i].text);
    }
  }

  lemma NamedTypeIs(ms: seq<Member>, name: string)
    requires Get(ms, "type") == Some(Str(name))
    ensures TypeCheck(ms).Accepted? ==> forall v :: !TypeFault(v, ms)
    ensures !TypeCheck(ms).Accepted? ==> TypeFault(TypeCheck(ms), ms)
  {
    hide Get, Repeats, IsType, KnownType;
    RepeatsIffNotDistinct([name]);
    KnownTypes(name);
    assert Types(ms) == [name] && Types(ms)[0] == name;
    assert Distinct(Types(ms));
  }

  lemma TypeIs(ms: seq<Member>)
    ensures TypeCheck(ms).Accepted? ==> forall v :: !TypeFault(v, ms)
    ensures !TypeCheck(ms).Accepted? ==> TypeFault(TypeCheck(ms), ms)
  {
    hide Get, Repeats, IsType, KnownType;
    match Get(ms, "type")
    case Some(Str(name)) => NamedTypeIs(ms, name);
    case Some(Arr(items)) => if items != [] && AllText(items) { ListedTypesAre(ms, items); }
    case _ =>
  }

  lemma NoKeyIs(ps: seq<Member>, key: string)
    ensures NoKey(ps, key) <==> !Has(ps, key)
  {
  }

  lemma NamesDeclared(names: seq<Json>, ps: seq<Member>)
    requires AllText(names)
    ensures (forall i :: 0 <= i < |names| ==> Has(ps, names[i].text))
      <==> !exists i :: 0 <= i < |names| && names[i].Str? && NoKey(ps, names[i].text)
  {
    hide Has, NoKey;
    forall i | 0 <= i < |names| ensures NoKey(ps, names[i].text) <==> !Has(ps, names[i].text) {
      NoKeyIs(ps, names[i].text);
    }
  }

  lemma RequiredNamesAre(ms: seq<Member>, names: seq<Json>)
    requires Get(ms, "required") == Some(Arr(names)) && AllText(names)
    ensures RequiredCheck(ms).Accepted? ==> forall v :: !RequiredFault(v, ms)
    ensures !RequiredCheck(ms).Accepted? ==> RequiredFault(RequiredCheck(ms), ms)
  {
    hide Get, Repeats, Has, NoKey;
    TypesRepeat(names);
    match Get(ms, "properties")
    case Some(Obj(ps)) => NamesDeclared(names, ps);
    case _ =>
  }

  lemma RequiredIs(ms: seq<Member>)
    ensures RequiredCheck(ms).Accepted? ==> forall v :: !RequiredFault(v, ms)
    ensures !RequiredCheck(ms).Accepted? ==> RequiredFault(RequiredCheck(ms), ms)
  {
    hide Get, Repeats;
    match Get(ms, "required")
    case Some(Arr(names)) => if AllText(names) { RequiredNamesAre(ms, names); }
    case _ =>
  }

  lemma TextIs(ms: seq<Member>, compiles: string -> bool)
    ensures TextCheck(ms, compiles).Accepted? ==> forall v :: !TextFault(v, ms, compiles)
    ensures !TextCheck(ms, compiles).Accepted? ==> TextFault(TextCheck(ms, compiles), ms, compiles)
  {
    hide Get;
  }

  lemma EnumRepeats(items: seq<Json>)
    requires forall i :: 0 <= i < |items| ==> WellFormed(items[i])
    ensures Repeats(CanonicalTexts(items)) <==> exists i, j :: 0 <= i < j < |items| && Same(items[i], items[j])
  {
    hide CanonicalJson, Same, WellFormed, Repeats;
    RepeatsIffNotDistinct(CanonicalTexts(items));
    forall i, j | 0 <= i < j < |items|
      ensures Same(items[i], items[j]) <==> CanonicalTexts(items)[i] == CanonicalTexts(items)[j]
    {
      CanonicalJsonDecidesSame(items[i], items[j]);
    }
  }

  lemma EnumIs(ms: seq<Member>)
    requires WellFormed(Obj(ms))
    ensures EnumCheck(ms).Accepted? ==> forall v :: !EnumFault(v, ms)
    ensures !EnumCheck(ms).Accepted? ==> EnumFault(EnumCheck(ms), ms)
  {
    hide Get, Repeats, Same, CanonicalTexts;
    match Get(ms, "enum")
    case Some(Arr(items)) =>
      GetWellFormed(ms, "enum");
      EnumRepeats(items);
    case _ =>
  }

  lemma {:induction false} Power2Adds(a: nat, b: nat)
    ensures Power2(a + b) == Power2(a) * Power2(b)
  {
    if a > 0 { Power2Adds(a - 1, b); }
  }

  /** An integer fits exactly when it does not overflow. */
  lemma FitsExactly(n: int)
    ensures FitsDouble(n) <==> !Overflows(n)
  {
    hide Power2;
    Power2Adds(53, 971);
    Power2Adds(1, 970);
    assert Power2(1) == 2 by { OneDoubling(); }
  }

  lemma OneDoubling()
    ensures Power2(1) == 2
  {
    assert Power2(0) == 1;
  }

  lemma BoundIs(ms: seq<Member>, keyword: string)
    requires keyword == "minimum" || keyword == "maximum"
    ensures BoundCheck(ms, keyword).Accepted?
      <==> forall n :: Get(ms, keyword) == Some(n) ==> n.Int? && !Overflows(n.number)
    ensures BoundCheck(ms, keyword).Refused? ==> BoundCheck(ms, keyword) == Refused(NotABound(keyword))
    ensures BoundCheck(ms, keyword).Refused? ==> BoundFault(Refused(NotABound(keyword)), ms)
    ensures BoundCheck(ms, keyword).Crash? ==> BoundFault(Crash, ms)
  {
    hide Get, FitsDouble, Overflows;
    match Get(ms, keyword)
    case Some(Int(n)) => FitsExactly(n);
    case _ =>
  }

  lemma BoundsAre(ms: seq<Member>)
    ensures BoundsCheck(ms).Accepted? ==> forall v :: !BoundFault(v, ms)
    ensures !BoundsCheck(ms).Accepted? ==> BoundFault(BoundsCheck(ms), ms)
  {
    hide Get, BoundCheck, Overflows;
    BoundIs(ms, "minimum");
    BoundIs(ms, "maximum");
  }

  lemma NeedIs(ms: seq<Member>, keyword: string, name: string)
    requires TypeCheck(ms).Accepted?
    ensures NeedType(ms, keyword, name).Accepted? <==> (Get(ms, keyword).Some? ==> Declares(ms, name))
    ensures !NeedType(ms, keyword, name).Accepted? ==> NeedType(ms, keyword, name) == Refused(NeedsType(keyword))
  {
    hide Get, Repeats, IsType;
    match Get(ms, "type")
    case Some(Arr(items)) => TextsHold(items, name);
    case _ =>
  }

  lemma TextsHold(items: seq<Json>, name: string)
    requires AllText(items)
    ensures name in Texts(items) <==> Str(name) in items
  {
    if name in Texts(items) {
      var i :| 0 <= i < |items| && Texts(items)[i] == name;
      assert items[i] == Str(name);
    }
    if Str(name) in items {
      var i :| 0 <= i < |items| && items[i] == Str(name);
      assert Texts(items)[i] == name;
    }
  }

  lemma NeedsAre(ms: seq<Member>)
    requires TypeCheck(ms).Accepted?
    ensures TypeNeeds(ms).Accepted? ==> forall v :: !NeedFault(v, ms)
    ensures !TypeNeeds(ms).Accepted? ==> NeedFault(TypeNeeds(ms), ms)
  {
    hide Get, NeedType, TypeCheck, Declares;
    forall keyword, name | GoesWith(keyword, name)
      ensures NeedType(ms, keyword, name).Accepted? <==> (Get(ms, keyword).Some? ==> Declares(ms, name))
      ensures !NeedType(ms, keyword, name).Accepted? ==> NeedType(ms, keyword, name) == Refused(NeedsType(keyword))
    {
      NeedIs(ms, keyword, name);
    }
  }

  // ------------------------------------------------------------------ the walk

  lemma FlagsAre(ms: seq<Member>)
    ensures (&& BooleanCheck(ms, "additionalProperties", BadAdditionalProperties).Accepted?
             && BooleanCheck(ms, "uniqueItems", BadUniqueItems).Accepted?) ==> forall v :: !FlagFault(v, ms)
    ensures !BooleanCheck(ms, "additionalProperties", BadAdditionalProperties).Accepted? ==>
              FlagFault(BooleanCheck(ms, "additionalProperties", BadAdditionalProperties), ms)
    ensures !BooleanCheck(ms, "uniqueItems", BadUniqueItems).Accepted? ==>
              FlagFault(BooleanCheck(ms, "uniqueItems", BadUniqueItems), ms)
  {
    hide Get;
  }

  lemma CountsAre(ms: seq<Member>)
    ensures CountCheck(ms, "minLength").Accepted? && CountCheck(ms, "minItems").Accepted? ==>
              forall v :: !CountFault(v, ms)
    ensures !CountCheck(ms, "minLength").Accepted? ==> CountFault(CountCheck(ms, "minLength"), ms)
    ensures !CountCheck(ms, "minItems").Accepted? ==> CountFault(CountCheck(ms, "minItems"), ms)
  {
    hide Get;
  }

  /** Some check of the node itself, apart from those below it, gives this verdict. */
  ghost predicate Checks(v: Verdict, ms: seq<Member>, compiles: string -> bool) {
    || v == TypeCheck(ms) || v == RequiredCheck(ms)
    || v == BooleanCheck(ms, "additionalProperties", BadAdditionalProperties) || v == EnumCheck(ms)
    || v == CountCheck(ms, "minLength") || v == CountCheck(ms, "minItems") || v == BoundsCheck(ms)
    || v == BooleanCheck(ms, "uniqueItems", BadUniqueItems) || v == TextCheck(ms, compiles)
    || (TypeCheck(ms).Accepted? && v == TypeNeeds(ms))
  }

  lemma CheckIsFault(v: Verdict, ms: seq<Member>, place: Place, compiles: string -> bool)
    requires WellFormed(Obj(ms)) && !v.Accepted? && Checks(v, ms, compiles)
    ensures NodeFault(v, Obj(ms), place, compiles)
  {
    hide TypeCheck, RequiredCheck, EnumCheck, CountCheck, BoundsCheck, TextCheck, TypeNeeds, BooleanCheck, HeadFault;
    hide TypeFault, RequiredFault, FlagFault, EnumFault, CountFault, BoundFault, TextFault, NeedFault, WellFormed;
    hide PropertiesFault;
    TypeIs(ms);
    RequiredIs(ms);
    FlagsAre(ms);
    EnumIs(ms);
    CountsAre(ms);
    BoundsAre(ms);
    TextIs(ms, compiles);
    if TypeCheck(ms).Accepted? { NeedsAre(ms); }
  }

  lemma CheckedHasNoFault(ms: seq<Member>, compiles: string -> bool)
    requires WellFormed(Obj(ms)) && Checked(ms, compiles)
    ensures forall v :: !TypeFault(v, ms) && !RequiredFault(v, ms) && !FlagFault(v, ms) && !EnumFault(v, ms)
    ensures forall v :: !CountFault(v, ms) && !BoundFault(v, ms) && !TextFault(v, ms, compiles) && !NeedFault(v, ms)
  {
    hide TypeCheck, RequiredCheck, EnumCheck, CountCheck, BoundsCheck, TextCheck, TypeNeeds, BooleanCheck;
    hide TypeFault, RequiredFault, FlagFault, EnumFault, CountFault, BoundFault, TextFault, NeedFault, WellFormed;
    TypeIs(ms);
    RequiredIs(ms);
    FlagsAre(ms);
    EnumIs(ms);
    CountsAre(ms);
    BoundsAre(ms);
    TextIs(ms, compiles);
    NeedsAre(ms);
  }

  /** A verdict of the part below the head is that of a check, of a property schema, or of the items schema. */
  lemma BodySays(ms: seq<Member>, compiles: string -> bool)
    requires !Body(ms, compiles).Accepted?
    ensures var v := Body(ms, compiles); var p, i := IndexOf(ms, "properties"), IndexOf(ms, "items");
      || Checks(v, ms, compiles) || PropertiesFault(v, ms)
      || (p < |ms| && ms[p].value.Obj? && v == WalkAll(ms[p].value.members, compiles))
      || (i < |ms| && ms[i].value != Null && v == Walk(ms[i].value, Nested, compiles))
  {
    hide TypeCheck, RequiredCheck, EnumCheck, CountCheck, BoundsCheck, TextCheck, TypeNeeds, BooleanCheck, HeadCheck;
    hide WalkAll, Walk;
  }

  lemma MemberOf(ms: seq<Member>, k: nat)
    requires DistinctKeys(ms) && k < |ms|
    ensures IndexOf(ms, ms[k].key) == k
  {
  }

  lemma NodeParts(ms: seq<Member>, k: nat)
    requires WellFormed(Obj(ms)) && k < |ms|
    ensures DistinctKeys(ms) && WellFormed(ms[k].value)
  {
  }

  /** A refusal or crash of the walk names a fault that the node or one below it has. */
  lemma {:induction false} RefusedForFault(node: Json, place: Place, compiles: string -> bool)
    requires WellFormed(node) && !Walk(node, place, compiles).Accepted?
    ensures Faulty(Walk(node, place, compiles), node, place, compiles)
    decreases node
  {
    hide Body, HeadCheck, Checks, NodeFault, HeadFault, PropertiesFault, WellFormed, DistinctKeys;
    match node
    case Obj(ms) =>
      HeadIs(ms, place);
      OwnFault(Walk(node, place, compiles), ms, place, compiles);
      if HeadCheck(ms, place).Accepted? {
        BodySays(ms, compiles);
        var v := Body(ms, compiles);
        var p, i := IndexOf(ms, "properties"), IndexOf(ms, "items");
        if Checks(v, ms, compiles) {
          CheckIsFault(v, ms, place, compiles);
        } else if p < |ms| && ms[p].value.Obj? && v == WalkAll(ms[p].value.members, compiles) {
          NodeParts(ms, p);
          SomeChildRefused(ms[p].value.members, compiles);
          assert ChildFaulty(v, ms[p], compiles);
        } else if i < |ms| && ms[i].value != Null && v == Walk(ms[i].value, Nested, compiles) {
          NodeParts(ms, i);
          RefusedForFault(ms[i].value, Nested, compiles);
          assert ChildFaulty(v, ms[i], compiles);
        }
      }
    case _ => NoObjectFault(node, place, compiles);
  }

  lemma OwnFault(v: Verdict, ms: seq<Member>, place: Place, compiles: string -> bool)
    ensures HeadFault(v, ms, place) || PropertiesFault(v, ms) ==> NodeFault(v, Obj(ms), place, compiles)
  {
  }

  lemma NoObjectFault(node: Json, place: Place, compiles: string -> bool)
    requires !node.Obj?
    ensures forall v :: NodeFault(v, node, place, compiles) <==> v == Refused(NotAnObject)
    ensures Walk(node, place, compiles) == Refused(NotAnObject)
  {
  }

  lemma {:induction false} SomeChildRefused(children: seq<Member>, compiles: string -> bool)
    requires forall j :: 0 <= j < |children| ==> WellFormed(children[j].value)
    requires !WalkAll(children, compiles).Accepted?
    ensures exists j ::
      0 <= j < |children| && Faulty(WalkAll(children, compiles), children[j].value, Nested, compiles)
    decreases children
  {
    hide Walk, Faulty, WellFormed;
    if Walk(children[0].value, Nested, compiles).Accepted? {
      var rest := children[1..];
      SomeChildRefused(rest, compiles);
      var j :| 0 <= j < |rest| && Faulty(WalkAll(rest, compiles), rest[j].value, Nested, compiles);
      assert children[j + 1] == rest[j];
    } else {
      RefusedForFault(children[0].value, Nested, compiles);
    }
  }

  lemma AcceptedParts(ms: seq<Member>, compiles: string -> bool)
    requires Body(ms, compiles).Accepted?
    ensures Checked(ms, compiles) && forall v :: !PropertiesFault(v, ms)
    ensures var p, i := IndexOf(ms, "properties"), IndexOf(ms, "items");
      && (p < |ms| && ms[p].value.Obj? ==> WalkAll(ms[p].value.members, compiles).Accepted?)
      && (i < |ms| && ms[i].value != Null ==> Walk(ms[i].value, Nested, compiles).Accepted?)
  {
    hide TypeCheck, RequiredCheck, EnumCheck, CountCheck, BoundsCheck, TextCheck, TypeNeeds, BooleanCheck, HeadCheck;
    hide WalkAll, Walk;
  }

  lemma AcceptedNode(ms: seq<Member>, place: Place, compiles: string -> bool, v: Verdict)
    requires WellFormed(Obj(ms)) && HeadCheck(ms, place).Accepted? && Body(ms, compiles).Accepted?
    ensures !NodeFault(v, Obj(ms), place, compiles)
  {
    hide Body, HeadCheck, Checked, PropertiesFault, WellFormed, HeadFault, TypeFault, RequiredFault, FlagFault;
    hide EnumFault, CountFault, BoundFault, TextFault, NeedFault;
    HeadIs(ms, place);
    AcceptedParts(ms, compiles);
    CheckedHasNoFault(ms, compiles);
  }

  lemma {:induction false} AcceptedChildren(children: seq<Member>, compiles: string -> bool, j: nat, v: Verdict)
    requires forall i :: 0 <= i < |children| ==> WellFormed(children[i].value)
    requires WalkAll(children, compiles).Accepted? && j < |children|
    ensures !Faulty(v, children[j].value, Nested, compiles)
    decreases children
  {
    hide Walk, Faulty, WellFormed;
    if j == 0 {
      AcceptedHasNoFault(children[0].value, Nested, compiles, v);
    } else {
      AcceptedChildren(children[1..], compiles, j - 1, v);
    }
  }

  /** What the walk accepts has none of these faults, at any depth. */
  lemma {:induction false} AcceptedHasNoFault(node: Json, place: Place, compiles: string -> bool, v: Verdict)
    requires WellFormed(node) && Walk(node, place, compiles).Accepted?
    ensures !Faulty(v, node, place, compiles)
    decreases node
  {
    hide Body, HeadCheck, Checked, NodeFault, PropertiesFault, WellFormed, DistinctKeys;
    var ms := node.members;
    AcceptedParts(ms, compiles);
    AcceptedNode(ms, place, compiles, v);
    forall k | 0 <= k < |ms| ensures !ChildFaulty(v, ms[k], compiles) {
      NodeParts(ms, k);
      MemberOf(ms, k);
      if ms[k].key == "items" && ms[k].value != Null {
        AcceptedHasNoFault(ms[k].value, Nested, compiles, v);
      }
      if ms[k].key == "properties" && ms[k].value.Obj? {
        var children := ms[k].value.members;
        forall j | 0 <= j < |children| ensures WellFormed(children[j].value) { NodeParts(children, j); }
        forall j | 0 <= j < |children| ensures !Faulty(v, children[j].value, Nested, compiles) {
          AcceptedChildren(children, compiles, j, v);
        }
      }
    }
  }

  /** The walk accepts exactly the definitions without a fault; otherwise it names a fault that is there. */
  lemma WalkExactly(node: Json, place: Place, compiles: string -> bool)
    requires WellFormed(node)
    ensures Walk(node, place, compiles).Accepted? <==> forall v :: !Faulty(v, node, place, compiles)
    ensures !Walk(node, place, compiles).Accepted? ==> Faulty(Walk(node, place, compiles), node, place, compiles)
  {
    hide Walk, Faulty, WellFormed;
    if Walk(node, place, compiles).Accepted? {
      forall v ensures !Faulty(v, node, place, compiles) { AcceptedHasNoFault(node, place, compiles, v); }
    } else {
      RefusedForFault(node, place, compiles);
    }
  }
}
