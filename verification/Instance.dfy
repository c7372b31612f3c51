/** The instance validator of the supported JSON Schema subset, over schemas the definition walk accepts. */
module Instance {
  import opened Base
  import opened Text
  import opened Json
  import opened Schema
  import Order

  datatype Part = Name(name: string) | Index(index: nat)

  function Location(path: seq<Part>): string
    decreases |path|
  {
    if path == [] then "$"
    else
      var last := path[|path| - 1];
      Location(path[..|path| - 1]) + match last case Index(i) => "[" + NatText(i) + "]" case Name(s) => "." + s
  }

  predicate TypeMatches(v: Json, name: string) {
    match v
    case Obj(_) => name == "object"
    case Arr(_) => name == "array"
    case Str(_) => name == "string"
    case Int(_) => name == "integer"
    case Bool(_) => name == "boolean"
    case Null => name == "null"
  }

  /** The errors appended by a call, or an exception other than a ControllerError. */
  datatype Report = Errors(list: seq<string>) | Crashed

  function Join(a: Report, b: Report): Report {
    if a.Errors? && b.Errors? then Errors(a.list + b.list) else Crashed
  }

  lemma JoinAssociative(a: Report, b: Report, c: Report)
    ensures Join(Join(a, b), c) == Join(a, Join(b, c))
  {
    if a.Errors? && b.Errors? && c.Errors? { assert a.list + b.list + c.list == a.list + (b.list + c.list); }
  }

  function Check(ok: bool, error: string): Report {
    Errors(if ok then [] else [error])
  }

  function ConstErrors(v: Json, ms: seq<Member>, at: string): Report {
    match Get(ms, "const")
    case None => Errors([])
    case Some(c) => Check(CanonicalJson(v) == CanonicalJson(c), at + ":const")
  }

  /** A null enumeration cannot be iterated. */
  function EnumErrors(v: Json, ms: seq<Member>, at: string): Report {
    match Get(ms, "enum")
    case None => Errors([])
    case Some(Arr(es)) => Check(CanonicalJson(v) in CanonicalTexts(es), at + ":enum")
    case _ => Crashed
  }

  function MissingErrors(names: seq<string>, fields: seq<Member>, at: string): seq<string> {
    if names == [] then []
    else
      (if Has(fields, names[0]) then [] else [at + "." + names[0] + ":required"])
      + MissingErrors(names[1..], fields, at)
  }

  function RequiredErrors(fields: seq<Member>, ms: seq<Member>, at: string): Report {
    match Get(ms, "required")
    case None => Errors([])
    case Some(Arr(names)) => if AllText(names) then Errors(MissingErrors(Texts(names), fields, at)) else Crashed
    case _ => Crashed
  }

  function Undeclared(keys: seq<string>, props: seq<Member>): seq<string> {
    if keys == [] then [] else (if Has(props, keys[0]) then [] else [keys[0]]) + Undeclared(keys[1..], props)
  }

  function ExtraErrors(names: seq<string>, at: string): seq<string> {
    if names == [] then [] else [at + "." + names[0] + ":additionalProperties"] + ExtraErrors(names[1..], at)
  }

  /** Names outside the declared properties, in code-point order. */
  function AdditionalErrors(fields: seq<Member>, ms: seq<Member>, at: string): Report {
    if Get(ms, "additionalProperties") != Some(Bool(false)) then Errors([])
    else
      match Get(ms, "properties")
      case None => Errors(ExtraErrors(Order.Sort(Undeclared(Keys(fields), []), Order.Self), at))
      case Some(Obj(props)) => Errors(ExtraErrors(Order.Sort(Undeclared(Keys(fields), props), Order.Self), at))
      case _ => Crashed
  }

  predicate LengthOk(s: string, ms: seq<Member>) {
    match Get(ms, "minLength") case Some(Int(n)) => |s| >= n case _ => true
  }

  predicate PatternOk(s: string, ms: seq<Member>, env: Env) {
    match Get(ms, "pattern") case Some(Str(p)) => env.search(p, s) case _ => true
  }

  predicate FormatOk(s: string, ms: seq<Member>, env: Env) {
    match Get(ms, "format") case Some(Str(f)) => env.formatIsValid(f, s) case _ => true
  }

  predicate MinimumOk(n: int, ms: seq<Member>) {
    match Get(ms, "minimum") case Some(Int(low)) => n >= low case _ => true
  }

  predicate MaximumOk(n: int, ms: seq<Member>) {
    match Get(ms, "maximum") case Some(Int(high)) => n <= high case _ => true
  }

  function LeafErrors(v: Json, ms: seq<Member>, at: string, env: Env): Report {
    match v
    case Str(s) =>
      Join(Join(Check(LengthOk(s, ms), at + ":minLength"), Check(PatternOk(s, ms, env), at + ":pattern")),
        Check(FormatOk(s, ms, env), at + ":format"))
    case Int(n) =>
      Join(Check(MinimumOk(n, ms), at + ":minimum"), Check(MaximumOk(n, ms), at + ":maximum"))
    case _ => Errors([])
  }

  function SizeErrors(items: seq<Json>, ms: seq<Member>, at: string): Report {
    Join(Check(match Get(ms, "minItems") case Some(Int(n)) => |items| >= n case _ => true, at + ":minItems"),
    Check(Get(ms, "uniqueItems") == Some(Bool(true)) ==> !Repeats(CanonicalTexts(items)), at + ":uniqueItems"))
  }

  predicate TypeAllowed(v: Json, ms: seq<Member>) {
    Types(ms) == [] || exists i :: 0 <= i < |Types(ms)| && TypeMatches(v, Types(ms)[i])
  }

  /** What one call appends. */
  function Validate(v: Json, schema: Json, path: seq<Part>, env: Env): Report
    requires Sound(schema, env.compiles)
    decreases v, 1
  {
    var ms, at := schema.members, Location(path);
    if !TypeAllowed(v, ms) then Errors([at + ":type"])
    else
      Join(Join(ConstErrors(v, ms, at), EnumErrors(v, ms, at)),
        if v.Obj? then ObjectErrors(v, schema, path, env)
        else if v.Arr? then ArrayErrors(v, schema, path, env)
        else LeafErrors(v, ms, at, env))
  }

  function ObjectErrors(v: Json, schema: Json, path: seq<Part>, env: Env): Report
    requires v.Obj? && Sound(schema, env.compiles)
    decreases v, 0
  {
    var ms, at := schema.members, Location(path);
    PropertiesSound(schema, env.compiles);
    Join(RequiredErrors(v.members, ms, at),
    Join(AdditionalErrors(v.members, ms, at),
    match Get(ms, "properties")
    case None => Errors([])
    case Some(Obj(props)) => PropertyErrors(v.members, props, path, env)
    case _ => Crashed))
  }

  function ArrayErrors(v: Json, schema: Json, path: seq<Part>, env: Env): Report
    requires v.Arr? && Sound(schema, env.compiles)
    decreases v, 0
  {
    var ms := schema.members;
    ItemsSound(schema, env.compiles);
    Join(SizeErrors(v.items, ms, Location(path)),
    match Get(ms, "items")
    case None => Errors([])
    case Some(s) =>
      if s != Null then ItemErrors(v.items, 0, s, path, env)
      else if v.items == [] then Errors([]) else Crashed)
  }

  function PropertyErrors(fields: seq<Member>, props: seq<Member>, path: seq<Part>, env: Env): Report
    requires forall i :: 0 <= i < |props| ==> Sound(props[i].value, env.compiles)
    decreases fields, |props|
  {
    if props == [] then Errors([])
    else
      var i := IndexOf(fields, props[0].key);
      Join(if i < |fields| then Validate(fields[i].value, props[0].value, path + [Name(props[0].key)], env)
        else Errors([]),
        PropertyErrors(fields, props[1..], path, env))
  }

  function ItemErrors(items: seq<Json>, k: nat, schema: Json, path: seq<Part>, env: Env): Report
    requires Sound(schema, env.compiles) && k <= |items|
    decreases items, |items| - k
  {
    if k == |items| then Errors([])
    else Join(Validate(items[k], schema, path + [Index(k)], env), ItemErrors(items, k + 1, schema, path, env))
  }

  // ----------------------------------------------------- the declarative reading

  /** The value is of the kind the type name stands for; a boolean is no integer. */
  ghost predicate OfType(v: Json, name: string) {
    || (name == "object" && v.Obj?) || (name == "array" && v.Arr?) || (name == "string" && v.Str?)
    || (name == "integer" && v.Int?) || (name == "boolean" && v.Bool?) || (name == "null" && v == Null)
  }

  /** type: the named kind, or one of those listed. */
  ghost predicate TypeMeets(v: Json, ms: seq<Member>) {
    && (forall name :: Get(ms, "type") == Some(Str(name)) ==> OfType(v, name))
    && (forall names: seq<Json> :: Get(ms, "type") == Some(Arr(names)) ==>
          exists i :: 0 <= i < |names| && names[i].Str? && OfType(v, names[i].text))
  }

  /** const and enum, with structural equality. */
  ghost predicate ValueMeets(v: Json, ms: seq<Member>) {
    && (forall c :: Get(ms, "const") == Some(c) ==> Same(v, c))
    && (forall es :: Get(ms, "enum") == Some(Arr(es)) ==> exists i :: 0 <= i < |es| && Same(v, es[i]))
  }

  /** Lengths, patterns and bounds. */
  ghost predicate LeafMeets(v: Json, ms: seq<Member>, env: Env) {
    match v
    case Str(s) =>
      && (forall n :: Get(ms, "minLength") == Some(Int(n)) ==> |s| >= n)
      && (forall p :: Get(ms, "pattern") == Some(Str(p)) ==> env.search(p, s))
      && (forall f :: Get(ms, "format") == Some(Str(f)) ==> env.formatIsValid(f, s))
    case Int(n) =>
      && (forall low :: Get(ms, "minimum") == Some(Int(low)) ==> low <= n)
      && (forall high :: Get(ms, "maximum") == Some(Int(high)) ==> n <= high)
    case _ => true
  }

  /** minItems and uniqueItems, with structural equality. */
  ghost predicate SizeMeets(items: seq<Json>, ms: seq<Member>) {
    && (forall n :: Get(ms, "minItems") == Some(Int(n)) ==> |items| >= n)
    && (Get(ms, "uniqueItems") == Some(Bool(true)) ==> forall i, j :: 0 <= i < j < |items| ==>
      !Same(items[i], items[j]))
  }

  ghost predicate NamesMeet(fields: seq<Member>, ms: seq<Member>) {
    && RequiredPresent(fields, ms)
    && (Get(ms, "additionalProperties") == Some(Bool(false)) ==>
          forall i :: 0 <= i < |fields| ==> Property(ms, fields[i].key).Some?)
  }

  /** What the keywords mean for a value, read declaratively. */
  ghost predicate Satisfies(v: Json, schema: Json, env: Env)
    requires Sound(schema, env.compiles)
    decreases v
  {
    var ms := schema.members;
    && TypeMeets(v, ms) && ValueMeets(v, ms)
    && match v
       case Obj(fields) =>
         && NamesMeet(fields, ms)
         && forall i :: 0 <= i < |fields| && Property(ms, fields[i].key).Some? ==>
              (PropertySound(schema, fields[i].key, env.compiles);
               Satisfies(fields[i].value, Property(ms, fields[i].key).value, env))
       case Arr(items) =>
         ItemsSound(schema, env.compiles);
         && SizeMeets(items, ms)
         && (GetValue(ms, "items") != Null ==>
               forall i :: 0 <= i < |items| ==> Satisfies(items[i], GetValue(ms, "items"), env))
       case _ => LeafMeets(v, ms, env)
  }

  ghost predicate RequiredPresent(fields: seq<Member>, ms: seq<Member>) {
    forall names: seq<Json>, i: nat :: Get(ms, "required") == Some(Arr(names)) && i < |names| && names[i].Str? ==>
      Has(fields, names[i].text)
  }

  /** No node of the schema has null for a keyword the validator iterates over or descends into. */
  predicate NullFree(schema: Json)
    decreases schema
  {
    schema.Obj? ==>
      var ms := schema.members;
      var p, i := IndexOf(ms, "properties"), IndexOf(ms, "items");
      && Get(ms, "properties") != Some(Null) && Get(ms, "required") != Some(Null)
      && Get(ms, "enum") != Some(Null) && Get(ms, "items") != Some(Null)
      && (p < |ms| && ms[p].value.Obj? ==>
            forall k :: 0 <= k < |ms[p].value.members| ==> NullFree(ms[p].value.members[k].value))
      && (i < |ms| ==> NullFree(ms[i].value))
  }

  // ------------------------------------------------------- no errors means satisfied

  /** An accepted schema without those nulls. */
  predicate Clean(schema: Json, env: Env) {
    schema.Obj? && Sound(schema, env.compiles) && WellFormed(schema) && NullFree(schema)
  }

  lemma NullFreeParts(schema: Json)
    requires schema.Obj? && NullFree(schema)
    ensures var ms := schema.members;
      && Get(ms, "properties") != Some(Null) && Get(ms, "required") != Some(Null)
      && Get(ms, "enum") != Some(Null) && Get(ms, "items") != Some(Null)
      && (Has(ms, "items") ==> NullFree(Get(ms, "items").value))
      && (Has(ms, "properties") && Get(ms, "properties").value.Obj? ==>
            forall k :: 0 <= k < |Get(ms, "properties").value.members| ==>
              NullFree(Get(ms, "properties").value.members[k].value))
  {
  }

  lemma CleanProperties(schema: Json, env: Env)
    requires Clean(schema, env)
    ensures Get(schema.members, "properties") == Some(GetValue(schema.members, "properties"))
      || Get(schema.members, "properties") == None
    ensures Has(schema.members, "properties") ==>
      var v := Get(schema.members, "properties").value;
      v.Obj? && DistinctKeys(v.members) && forall k :: 0 <= k < |v.members| ==> Clean(v.members[k].value, env)
  {
    hide Sound, NullFree, WellFormed, Get;
    var ms := schema.members;
    NullFreeParts(schema);
    PropertiesSound(schema, env.compiles);
    if Has(ms, "properties") {
      GetWellFormed(ms, "properties");
      ObjectParts(Get(ms, "properties").value);
    }
  }

  lemma ObjectParts(v: Json)
    requires WellFormed(v) && v.Obj?
    ensures DistinctKeys(v.members) && forall k :: 0 <= k < |v.members| ==> WellFormed(v.members[k].value)
  {
  }

  lemma CleanItems(schema: Json, env: Env)
    requires Clean(schema, env)
    ensures Has(schema.members, "items") ==> Clean(Get(schema.members, "items").value, env)
  {
    hide Sound, NullFree, WellFormed, Get;
    var ms := schema.members;
    NullFreeParts(schema);
    ItemsSound(schema, env.compiles);
    if Has(ms, "items") { GetWellFormed(ms, "items"); }
  }

  predicate Empty(r: Report) {
    r == Errors([])
  }

  lemma {:induction false} TextsDecide(v: Json, es: seq<Json>)
    requires WellFormed(v) && forall i :: 0 <= i < |es| ==> WellFormed(es[i])
    ensures CanonicalJson(v) in CanonicalTexts(es) <==> exists i :: 0 <= i < |es| && Same(v, es[i])
  {
    hide CanonicalJson, Same, WellFormed;
    forall i | 0 <= i < |es| ensures CanonicalJson(v) == CanonicalTexts(es)[i] <==> Same(v, es[i]) {
      CanonicalJsonDecidesSame(v, es[i]);
    }
  }

  lemma ConstDecided(v: Json, ms: seq<Member>, at: string)
    requires WellFormed(v) && WellFormed(Obj(ms))
    ensures ConstErrors(v, ms, at).Errors?
    ensures Empty(ConstErrors(v, ms, at)) <==> forall c :: Get(ms, "const") == Some(c) ==> Same(v, c)
  {
    hide CanonicalJson, Same, WellFormed, Get;
    if Has(ms, "const") {
      GetWellFormed(ms, "const");
      CanonicalJsonDecidesSame(v, Get(ms, "const").value);
    }
  }

  lemma EnumDecided(v: Json, ms: seq<Member>, at: string)
    requires WellFormed(v) && WellFormed(Obj(ms)) && EnumCheck(ms).Accepted? && Get(ms, "enum") != Some(Null)
    ensures EnumErrors(v, ms, at).Errors?
    ensures Empty(EnumErrors(v, ms, at)) <==>
      forall es :: Get(ms, "enum") == Some(Arr(es)) ==> exists i :: 0 <= i < |es| && Same(v, es[i])
  {
    hide CanonicalJson, Same, WellFormed, Get, CanonicalTexts;
    if Has(ms, "enum") {
      GetWellFormed(ms, "enum");
      ArrayParts(Get(ms, "enum").value);
      TextsDecide(v, Get(ms, "enum").value.items);
    }
  }

  lemma ArrayParts(v: Json)
    requires WellFormed(v) && v.Arr?
    ensures forall k :: 0 <= k < |v.items| ==> WellFormed(v.items[k])
  {
  }

  lemma {:induction false} ValueDecided(v: Json, schema: Json, env: Env, at: string)
    requires WellFormed(v) && Clean(schema, env)
    ensures ConstErrors(v, schema.members, at).Errors? && EnumErrors(v, schema.members, at).Errors?
    ensures Empty(ConstErrors(v, schema.members, at)) && Empty(EnumErrors(v, schema.members, at))
      <==> ValueMeets(v, schema.members)
  {
    hide Same, Sound, WellFormed, Get, ConstErrors, EnumErrors, NullFree, EnumCheck;
    SoundIsChecked(schema, env.compiles);
    NullFreeParts(schema);
    assert schema == Obj(schema.members);
    ConstDecided(v, schema.members, at);
    EnumDecided(v, schema.members, at);
  }

  lemma LeafDecided(v: Json, schema: Json, env: Env, at: string)
    requires Sound(schema, env.compiles)
    ensures LeafErrors(v, schema.members, at, env).Errors?
    ensures Empty(LeafErrors(v, schema.members, at, env)) <==> LeafMeets(v, schema.members, env)
  {
    hide Sound, Get;
  }

  lemma SizeDecided(items: seq<Json>, schema: Json, env: Env, at: string)
    requires schema.Obj? && forall i :: 0 <= i < |items| ==> WellFormed(items[i])
    ensures SizeErrors(items, schema.members, at).Errors?
    ensures Empty(SizeErrors(items, schema.members, at)) <==> SizeMeets(items, schema.members)
  {
    hide CanonicalJson, Same, Get, Repeats, WellFormed;
    RepeatsIffNotDistinct(CanonicalTexts(items));
    forall i, j | 0 <= i < j < |items|
      ensures CanonicalTexts(items)[i] == CanonicalTexts(items)[j] <==> Same(items[i], items[j])
    {
      CanonicalJsonDecidesSame(items[i], items[j]);
    }
  }

  lemma {:induction false} MissingDecided(names: seq<string>, fields: seq<Member>, at: string)
    ensures MissingErrors(names, fields, at) == [] <==> forall i :: 0 <= i < |names| ==> Has(fields, names[i])
  {
    hide Has;
    if names != [] {
      MissingDecided(names[1..], fields, at);
      assert forall i :: 0 < i < |names| ==> names[i] == names[1..][i - 1];
    }
  }

  lemma {:induction false} UndeclaredDecided(keys: seq<string>, props: seq<Member>, at: string)
    ensures ExtraErrors(Order.Sort(Undeclared(keys, props), Order.Self), at) == []
      <==> forall i :: 0 <= i < |keys| ==> Has(props, keys[i])
  {
    hide Has;
    UndeclaredEmpty(keys, props);
  }

  lemma {:induction false} UndeclaredEmpty(keys: seq<string>, props: seq<Member>)
    ensures Undeclared(keys, props) == [] <==> forall i :: 0 <= i < |keys| ==> Has(props, keys[i])
  {
    hide Has;
    if keys != [] {
      UndeclaredEmpty(keys[1..], props);
      assert forall i :: 0 < i < |keys| ==> keys[i] == keys[1..][i - 1];
    }
  }

  lemma RequiredDecided(fields: seq<Member>, ms: seq<Member>, at: string)
    requires RequiredCheck(ms).Accepted? && Get(ms, "required") != Some(Null)
    ensures RequiredErrors(fields, ms, at).Errors?
    ensures Empty(RequiredErrors(fields, ms, at)) <==> RequiredPresent(fields, ms)
  {
    hide Get, Has, Repeats, MissingErrors;
    if Get(ms, "required").Some? {
      var names := Get(ms, "required").value.items;
      MissingDecided(Texts(names), fields, at);
      assert RequiredPresent(fields, ms) <==> forall i :: 0 <= i < |names| ==> Has(fields, names[i].text);
      assert forall i :: 0 <= i < |names| ==> Texts(names)[i] == names[i].text;
    }
  }

  lemma AdditionalDecided(fields: seq<Member>, ms: seq<Member>, at: string)
    requires Get(ms, "properties").Some? ==> Get(ms, "properties").value.Obj?
    ensures AdditionalErrors(fields, ms, at).Errors?
    ensures Empty(AdditionalErrors(fields, ms, at)) <==>
      (Get(ms, "additionalProperties") == Some(Bool(false)) ==> forall i :: 0 <= i < |fields| ==>
        Property(ms, fields[i].key).Some?)
  {
    hide ExtraErrors, Undeclared;
    var props := match Get(ms, "properties") case Some(v) => v.members case None => [];
    UndeclaredDecided(Keys(fields), props, at);
    assert forall i :: 0 <= i < |fields| ==> Keys(fields)[i] == fields[i].key;
    assert forall i :: 0 <= i < |fields| ==> (Property(ms, fields[i].key).Some? <==> Has(props, fields[i].key));
  }

  lemma NamesDecided(fields: seq<Member>, schema: Json, env: Env, at: string)
    requires Clean(schema, env)
    ensures RequiredErrors(fields, schema.members, at).Errors? && AdditionalErrors(fields, schema.members, at).Errors?
    ensures Empty(RequiredErrors(fields, schema.members, at)) && Empty(AdditionalErrors(fields, schema.members, at))
      <==> NamesMeet(fields, schema.members)
  {
    hide Sound, Get, NullFree, WellFormed, RequiredErrors, AdditionalErrors, RequiredPresent, Property, RequiredCheck;
    SoundIsChecked(schema, env.compiles);
    NullFreeParts(schema);
    CleanProperties(schema, env);
    RequiredDecided(fields, schema.members, at);
    AdditionalDecided(fields, schema.members, at);
  }

  /** The type test takes each value under exactly one of the six names, the one of its constructor. */
  lemma TypeNamed(v: Json, name: string)
    ensures TypeMatches(v, name) <==> OfType(v, name)
    ensures TypeMatches(v, name) ==> IsType(name)
    ensures forall other :: TypeMatches(v, name) && TypeMatches(v, other) ==> other == name
    ensures exists one :: TypeMatches(v, one)
  {
    var kind := match v case Obj(_) => "object" case Arr(_) => "array" case Str(_) => "string" case Int(_) => "integer"
                case Bool(_) => "boolean" case Null => "null";
    assert TypeMatches(v, kind);
    assert "object" != "string" && "boolean" != "integer" by { assert "object"[0] == 'o' && "string"[0] == 's'; }
  }

  lemma OneTypeDecided(v: Json, ms: seq<Member>, name: string)
    requires Get(ms, "type") == Some(Str(name))
    ensures TypeAllowed(v, ms) <==> TypeMeets(v, ms)
  {
    hide Get, TypeMatches, OfType;
    TypeNamed(v, name);
    assert Types(ms) == [name] && Types(ms)[0] == name;
  }

  lemma ListedTypesDecided(v: Json, ms: seq<Member>, names: seq<Json>)
    requires Get(ms, "type") == Some(Arr(names)) && names != [] && AllText(names)
    ensures TypeAllowed(v, ms) <==> TypeMeets(v, ms)
  {
    hide Get, TypeMatches, OfType;
    assert Types(ms) == Texts(names);
    forall i | 0 <= i < |names| ensures TypeMatches(v, Types(ms)[i]) <==> names[i].Str? && OfType(v, names[i].text) {
      TypeNamed(v, names[i].text);
    }
  }

  lemma NoTypeDecided(v: Json, ms: seq<Member>)
    requires Get(ms, "type") == None || Get(ms, "type") == Some(Null)
    ensures TypeAllowed(v, ms) && TypeMeets(v, ms)
  {
    hide Get, TypeMatches, OfType;
  }

  lemma TypeDecided(v: Json, schema: Json, env: Env)
    requires schema.Obj? && Sound(schema, env.compiles)
    ensures TypeAllowed(v, schema.members) <==> TypeMeets(v, schema.members)
  {
    hide Sound, Get, TypeAllowed, TypeMeets, Types, Repeats;
    var ms := schema.members;
    SoundIsChecked(schema, env.compiles);
    match Get(ms, "type")
    case Some(Str(name)) => OneTypeDecided(v, ms, name);
    case Some(Arr(names)) => ListedTypesDecided(v, ms, names);
    case _ => NoTypeDecided(v, ms);
  }

  // ------------------------------------------------------------------- main result

  /** The validator reports nothing exactly when the value satisfies the schema, and never crashes. */
  lemma ValidateDecides(v: Json, schema: Json, path: seq<Part>, env: Env)
    requires WellFormed(v) && Clean(schema, env)
    ensures Validate(v, schema, path, env).Errors?
    ensures Validate(v, schema, path, env).list == [] <==> Satisfies(v, schema, env)
    decreases v, 1
  {
    hide Sound, ConstErrors, EnumErrors, LeafErrors, SizeErrors, RequiredErrors, AdditionalErrors, PropertyErrors;
    hide ItemErrors;
    hide ValueMeets, LeafMeets, SizeMeets, NamesMeet, TypeAllowed, Get, Location, NullFree;
    hide TypeMeets;
    var ms, at := schema.members, Location(path);
    TypeDecided(v, schema, env);
    if TypeAllowed(v, ms) {
      ValueDecided(v, schema, env, at);
      match v
      case Obj(fields) =>
        NamesDecided(fields, schema, env, at);
        CleanProperties(schema, env);
        if Has(ms, "properties") {
          PropertiesDecided(fields, Get(ms, "properties").value.members, path, env);
          FieldsByName(fields, schema, env);
        }
      case Arr(items) =>
        SizeDecided(items, schema, env, at);
        CleanItems(schema, env);
        if Has(ms, "items") { ItemsDecided(items, 0, Get(ms, "items").value, path, env); }
      case _ =>
        LeafDecided(v, schema, env, at);
    }
  }

  ghost predicate FieldsMeet(fields: seq<Member>, props: seq<Member>, env: Env)
    requires forall k :: 0 <= k < |props| ==> Sound(props[k].value, env.compiles)
  {
    forall k :: 0 <= k < |props| && IndexOf(fields, props[k].key) < |fields| ==>
      Satisfies(fields[IndexOf(fields, props[k].key)].value, props[k].value, env)
  }

  lemma {:induction false} PropertiesDecided(fields: seq<Member>, props: seq<Member>, path: seq<Part>, env: Env)
    requires forall i :: 0 <= i < |fields| ==> WellFormed(fields[i].value)
    requires forall k :: 0 <= k < |props| ==> Clean(props[k].value, env)
    requires forall k :: 0 <= k < |props| ==> Sound(props[k].value, env.compiles)
    ensures PropertyErrors(fields, props, path, env).Errors?
    ensures PropertyErrors(fields, props, path, env).list == [] <==> FieldsMeet(fields, props, env)
    decreases fields, |props|
  {
    hide Sound, Satisfies, Validate, Clean;
    if props != [] {
      var i := IndexOf(fields, props[0].key);
      if i < |fields| {
        ValidateDecides(fields[i].value, props[0].value, path + [Name(props[0].key)], env);
      }
      PropertiesDecided(fields, props[1..], path, env);
      FieldsMeetStep(fields, props, env);
    }
  }

  lemma FieldsMeetStep(fields: seq<Member>, props: seq<Member>, env: Env)
    requires props != [] && forall k :: 0 <= k < |props| ==> Sound(props[k].value, env.compiles)
    ensures FieldsMeet(fields, props, env) <==>
      && (IndexOf(fields, props[0].key) < |fields| ==>
        Satisfies(fields[IndexOf(fields, props[0].key)].value, props[0].value, env))
      && FieldsMeet(fields, props[1..], env)
  {
    hide Sound, Satisfies, IndexOf;
    var rest := props[1..];
    assert forall k :: 0 < k < |props| ==> props[k] == rest[k - 1];
  }

  lemma FieldsByName(fields: seq<Member>, schema: Json, env: Env)
    requires Clean(schema, env) && Has(schema.members, "properties") && DistinctKeys(fields)
    ensures var ps := Get(schema.members, "properties").value;
      && ps.Obj? && (forall k :: 0 <= k < |ps.members| ==> Sound(ps.members[k].value, env.compiles))
      && (FieldsMeet(fields, ps.members, env) <==>
          forall i :: 0 <= i < |fields| && Property(schema.members, fields[i].key).Some? ==>
            (PropertySound(schema, fields[i].key, env.compiles);
             Satisfies(fields[i].value, Property(schema.members, fields[i].key).value, env)))
  {
    hide Sound, Satisfies, WellFormed, NullFree;
    CleanProperties(schema, env);
  }

  lemma {:induction false} ItemsDecided(items: seq<Json>, k: nat, schema: Json, path: seq<Part>, env: Env)
    requires forall i :: 0 <= i < |items| ==> WellFormed(items[i])
    requires Clean(schema, env) && k <= |items|
    ensures ItemErrors(items, k, schema, path, env).Errors?
    ensures ItemErrors(items, k, schema, path, env).list == []
      <==> forall i :: k <= i < |items| ==> Satisfies(items[i], schema, env)
    decreases items, |items| - k
  {
    hide Sound, Satisfies, Validate, NullFree, WellFormed;
    if k < |items| {
      ValidateDecides(items[k], schema, path + [Index(k)], env);
      ItemsDecided(items, k + 1, schema, path, env);
    }
  }

  // ----------------------------------------------------------------------- totality

  /** Some value of the declared type. */
  function Sample(ms: seq<Member>): (v: Json)
    requires TypeCheck(ms).Accepted?
    ensures WellFormed(v) && TypeAllowed(v, ms)
  {
    var ts := Types(ms);
    if ts == [] then Null
    else
      assert IsType(ts[0]);
      var v := if ts[0] == "object" then Obj([]) else if ts[0] == "array" then Arr([])
        else if ts[0] == "string" then Str("")
               else if ts[0] == "integer" then Int(0) else if ts[0] == "boolean" then Bool(true) else Null;
      assert TypeMatches(v, ts[0]);
      v
  }

  lemma KeywordAllowsType(v: Json, schema: Json, env: Env)
    requires schema.Obj? && Sound(schema, env.compiles)
    requires v.Obj? ==> Has(schema.members, "properties") || Has(schema.members, "required")
    requires v.Arr? ==> Has(schema.members, "items")
    requires v.Obj? || v.Arr?
    ensures TypeAllowed(v, schema.members)
  {
    hide Body, Types, Has;
    SoundIsChecked(schema, env.compiles);
    var ms := schema.members;
    var name := if v.Obj? then "object" else "array";
    assert name in Types(ms);
    var i :| 0 <= i < |Types(ms)| && Types(ms)[i] == name;
    assert TypeMatches(v, Types(ms)[i]);
  }

  /** The value crashes the validator wherever it is met. */
  ghost predicate Crashes(w: Json, schema: Json, env: Env)
    requires Sound(schema, env.compiles)
  {
    WellFormed(w) && forall path: seq<Part> :: Validate(w, schema, path, env).Crashed?
  }

  lemma EmptyObjectCrash(schema: Json, env: Env)
    requires schema.Obj? && Sound(schema, env.compiles)
    requires Get(schema.members, "properties") == Some(Null) || Get(schema.members, "required") == Some(Null)
    ensures Crashes(Obj([]), schema, env)
  {
    hide Sound, Get, ConstErrors, EnumErrors, AdditionalErrors, TypeAllowed, PropertyErrors;
    KeywordAllowsType(Obj([]), schema, env);
  }

  lemma ChildCrash(inner: Json, child: Json, name: string, schema: Json, env: Env)
    requires schema.Obj? && Sound(schema, env.compiles) && Has(schema.members, "properties")
    requires Property(schema.members, name) == Some(child) && Sound(child, env.compiles) && Crashes(inner, child, env)
    ensures Crashes(Obj([Member(name, inner)]), schema, env)
  {
    hide Sound, Get, ConstErrors, EnumErrors, AdditionalErrors, RequiredErrors, TypeAllowed, PropertyErrors, Crashes;
    var v := Obj([Member(name, inner)]);
    CrashIsWellFormed(inner, child, env);
    assert WellFormed(v);
    KeywordAllowsType(v, schema, env);
    PropertiesSound(schema, env.compiles);
    forall path: seq<Part> ensures Validate(v, schema, path, env).Crashed? {
      PropertyCrash(inner, child, Get(schema.members, "properties").value.members, name, path, env);
    }
    CrashesBecause(v, schema, env);
  }

  lemma {:induction false} CrashesBecause(v: Json, schema: Json, env: Env)
    requires Sound(schema, env.compiles) && WellFormed(v) && forall path: seq<Part> ::
      Validate(v, schema, path, env).Crashed?
    ensures Crashes(v, schema, env)
  {
    hide Sound;
  }

  lemma {:induction false} PropertyCrash(inner: Json, child: Json, props: seq<Member>, name: string, path: seq<Part>,
                                         env: Env)
    requires forall i :: 0 <= i < |props| ==> Sound(props[i].value, env.compiles)
    requires Get(props, name) == Some(child) && Sound(child, env.compiles) && Crashes(inner, child, env)
    ensures PropertyErrors([Member(name, inner)], props, path, env).Crashed?
    decreases |props|
  {
    hide Sound, Validate;
    var fields := [Member(name, inner)];
    assert fields[0] == Member(name, inner);
    if props[0].key == name {
      assert IndexOf(fields, name) == 0;
    } else {
      assert forall i :: 0 < i < |props| ==> props[1..][i - 1] == props[i];
      PropertyCrash(inner, child, props[1..], name, path, env);
    }
  }

  lemma ArrayCrash(item: Json, schema: Json, env: Env)
    requires schema.Obj? && Sound(schema, env.compiles) && WellFormed(item) && Has(schema.members, "items")
    requires Get(schema.members, "items") == Some(Null)
      || (Sound(Get(schema.members, "items").value, env.compiles)
        && Crashes(item, Get(schema.members, "items").value, env))
    ensures Crashes(Arr([item]), schema, env)
  {
    hide Sound, Get, ConstErrors, EnumErrors, SizeErrors, TypeAllowed;
    KeywordAllowsType(Arr([item]), schema, env);
    ItemsSound(schema, env.compiles);
    assert WellFormed(Arr([item]));
    var s := Get(schema.members, "items").value;
    forall path: seq<Part> ensures Validate(Arr([item]), schema, path, env).Crashed? {
      if s != Null { assert ItemErrors([item], 0, s, path, env).Crashed?; }
    }
  }

  lemma EnumCrash(schema: Json, env: Env)
    requires schema.Obj? && Sound(schema, env.compiles) && TypeCheck(schema.members).Accepted?
    requires Get(schema.members, "enum") == Some(Null)
    ensures Crashes(Sample(schema.members), schema, env)
  {
    hide Sound, Get, ConstErrors, PropertyErrors, ItemErrors, TypeAllowed, Sample;
  }

  /** A null in one of the four places crashes the validator on some value. */
  lemma NullCrashes(schema: Json, env: Env) returns (w: Json)
    requires Sound(schema, env.compiles) && WellFormed(schema) && !NullFree(schema)
    ensures Crashes(w, schema, env)
    decreases schema
  {
    hide Crashes, Body;
    var ms := schema.members;
    SoundIsChecked(schema, env.compiles);
    PropertiesSound(schema, env.compiles);
    ItemsSound(schema, env.compiles);
    if Get(ms, "enum") == Some(Null) {
      EnumCrash(schema, env);
      w := Sample(ms);
    } else if Get(ms, "properties") == Some(Null) || Get(ms, "required") == Some(Null) {
      w := Obj([]);
      EmptyObjectCrash(schema, env);
    } else if Get(ms, "items") == Some(Null) {
      w := Arr([Null]);
      ArrayCrash(Null, schema, env);
    } else {
      w := NestedNullCrashes(schema, env);
    }
  }

  lemma NestedNullCrashes(schema: Json, env: Env) returns (w: Json)
    requires Sound(schema, env.compiles) && WellFormed(schema) && !NullFree(schema)
    requires var ms := schema.members;
      && Get(ms, "properties") != Some(Null) && Get(ms, "required") != Some(Null)
      && Get(ms, "enum") != Some(Null) && Get(ms, "items") != Some(Null)
    ensures Crashes(w, schema, env)
    decreases schema, 0
  {
    hide Crashes, Sound, WellFormed;
    var ms := schema.members;
    var p, i := IndexOf(ms, "properties"), IndexOf(ms, "items");
    assert schema == Obj(ms) by { SoundIsObject(schema, env); }
    if i < |ms| && !NullFree(ms[i].value) {
      GetWellFormed(ms, "items");
      ItemsSound(schema, env.compiles);
      var inner := NullCrashes(ms[i].value, env);
      CrashIsWellFormed(inner, ms[i].value, env);
      w := Arr([inner]);
      ArrayCrash(inner, schema, env);
    } else {
      GetWellFormed(ms, "properties");
      PropertiesSound(schema, env.compiles);
      var props := ms[p].value.members;
      var k :| 0 <= k < |props| && !NullFree(props[k].value);
      ObjectParts(ms[p].value);
      var inner := NullCrashes(props[k].value, env);
      w := Obj([Member(props[k].key, inner)]);
      GetIs(props, props[k].key, props[k].value);
      assert Member(props[k].key, props[k].value) in props;
      ChildCrash(inner, props[k].value, props[k].key, schema, env);
    }
  }

  lemma SoundIsObject(schema: Json, env: Env)
    requires Sound(schema, env.compiles)
    ensures schema.Obj? && schema == Obj(schema.members)
  {
    hide Body;
  }

  lemma CrashIsWellFormed(w: Json, schema: Json, env: Env)
    requires Sound(schema, env.compiles) && Crashes(w, schema, env)
    ensures WellFormed(w)
  {
  }

  ghost predicate Total(schema: Json, env: Env)
    requires Sound(schema, env.compiles)
  {
    forall v: Json, path: seq<Part> :: WellFormed(v) ==> Validate(v, schema, path, env).Errors?
  }

  /** For an accepted schema the validator is total exactly when no node has such a null. */
  lemma TotalExactlyWhenNullFree(schema: Json, env: Env)
    requires Sound(schema, env.compiles) && WellFormed(schema)
    ensures NullFree(schema) <==> Total(schema, env)
  {
    hide Body, Satisfies;
    if NullFree(schema) {
      forall v: Json, path: seq<Part> | WellFormed(v) ensures Validate(v, schema, path, env).Errors? {
        ValidateDecides(v, schema, path, env);
      }
    } else {
      var w := NullCrashes(schema, env);
      CrashIsNotTotal(w, schema, env);
    }
  }

  lemma CrashIsNotTotal(w: Json, schema: Json, env: Env)
    requires Sound(schema, env.compiles) && Crashes(w, schema, env)
    ensures !Total(schema, env)
  {
    hide Sound;
    var path: seq<Part> := [];
    assert WellFormed(w) && !Validate(w, schema, path, env).Errors?;
  }

  // --------------------------------------------------- what acceptance guarantees

  /** At this node and every nested one: types are known and distinct, required names are texts that are
      declared, counts are non-negative, bounds are ordered integers. */
  ghost predicate Tidy(schema: Json)
    decreases schema
  {
    && schema.Obj? && TidyNode(schema.members)
    && var ms := schema.members;
       var p, i := IndexOf(ms, "properties"), IndexOf(ms, "items");
       && (p < |ms| ==>
             ms[p].value.Obj? && forall k :: 0 <= k < |ms[p].value.members| ==> Tidy(ms[p].value.members[k].value))
       && (i < |ms| ==> Tidy(ms[i].value))
  }

  ghost predicate TidyNode(ms: seq<Member>) {
    && (forall t :: t in Types(ms) ==> IsType(t)) && Distinct(Types(ms))
    && (Has(ms, "required") ==>
          Get(ms, "required").value.Arr?
          && forall name :: name in Get(ms, "required").value.items ==>
               name.Str? && (Has(ms, "properties") ==> Property(ms, name.text).Some?))
    && (Has(ms, "enum") ==> Get(ms, "enum").value.Arr?)
    && (Has(ms, "minLength") ==> Get(ms, "minLength").value.Int? && Get(ms, "minLength").value.number >= 0)
    && (Has(ms, "minItems") ==> Get(ms, "minItems").value.Int? && Get(ms, "minItems").value.number >= 0)
    && (Has(ms, "minimum") ==> Get(ms, "minimum").value.Int?)
    && (Has(ms, "maximum") ==> Get(ms, "maximum").value.Int?)
    && (Has(ms, "minimum") && Has(ms, "maximum") ==> Get(ms, "minimum").value.number <= Get(ms, "maximum").value.number)
    && (Has(ms, "pattern") ==> Get(ms, "pattern").value.Str?)
    && (Has(ms, "format") ==> Get(ms, "format").value in [Str("date"), Str("date-time")])
  }

  lemma CheckedIsTidy(schema: Json, env: Env)
    requires schema.Obj? && Checked(schema.members, env.compiles)
    requires Get(schema.members, "required") != Some(Null) && Get(schema.members, "enum") != Some(Null)
    requires Has(schema.members, "properties") ==> Get(schema.members, "properties").value.Obj?
    ensures TidyNode(schema.members)
  {
    hide Get, Repeats, TypeNeeds, BooleanCheck, IsType;
    var ms := schema.members;
    RepeatsIffNotDistinct(Types(ms));
    forall t | t in Types(ms) ensures IsType(t) {
      var i :| 0 <= i < |Types(ms)| && Types(ms)[i] == t;
    }
  }

  lemma {:induction false} SoundIsTidy(schema: Json, env: Env)
    requires schema.Obj? && Sound(schema, env.compiles) && NullFree(schema)
    ensures Tidy(schema)
    decreases schema
  {
    hide Sound, TidyNode, Checked;
    var ms := schema.members;
    NullFreeParts(schema);
    PropertiesSound(schema, env.compiles);
    ItemsSound(schema, env.compiles);
    SoundIsChecked(schema, env.compiles);
    CheckedIsTidy(schema, env);
    var p, i := IndexOf(ms, "properties"), IndexOf(ms, "items");
    if p < |ms| {
      forall k | 0 <= k < |ms[p].value.members| ensures Tidy(ms[p].value.members[k].value) {
        SoundIsTidy(ms[p].value.members[k].value, env);
      }
    }
    if i < |ms| { SoundIsTidy(ms[i].value, env); }
  }
}
