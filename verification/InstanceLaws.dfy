/** Which errors the instance validator reports, text by text. */
module InstanceLaws {
  import opened Base
  import opened Text
  import opened Json
  import opened Schema
  import opened Instance
  import Order

  // ------------------------------------------------------------------ what is wrong with a value

  ghost predicate ValueError(e: string, v: Json, ms: seq<Member>, at: string) {
    || (e == at + ":const" && exists c :: Get(ms, "const") == Some(c) && !Same(v, c))
    || (e == at + ":enum" && exists es: seq<Json> ::
          Get(ms, "enum") == Some(Arr(es)) && forall i :: 0 <= i < |es| ==> !Same(v, es[i]))
  }

  ghost predicate NameError(e: string, fields: seq<Member>, ms: seq<Member>, at: string) {
    || (exists names: seq<Json>, i: int ::
          Get(ms, "required") == Some(Arr(names)) && 0 <= i < |names| && names[i].Str?
          && Get(fields, names[i].text).None? && e == at + "." + names[i].text + ":required")
    || (Get(ms, "additionalProperties") == Some(Bool(false))
        && exists i :: 0 <= i < |fields| && UndeclaredName(e, fields[i].key, ms, at))
  }

  ghost predicate UndeclaredName(e: string, name: string, ms: seq<Member>, at: string) {
    Property(ms, name).None? && e == at + "." + name + ":additionalProperties"
  }

  ghost predicate SizeError(e: string, items: seq<Json>, ms: seq<Member>, at: string) {
    || (e == at + ":minItems" && exists n :: Get(ms, "minItems") == Some(Int(n)) && |items| < n)
    || (e == at + ":uniqueItems" && Get(ms, "uniqueItems") == Some(Bool(true))
        && exists i, j :: 0 <= i < j < |items| && Same(items[i], items[j]))
  }

  ghost predicate LeafError(e: string, v: Json, ms: seq<Member>, at: string, env: Env) {
    match v
    case Str(s) =>
      || (e == at + ":minLength" && exists n :: Get(ms, "minLength") == Some(Int(n)) && |s| < n)
      || (e == at + ":pattern" && exists p :: Get(ms, "pattern") == Some(Str(p)) && !env.search(p, s))
      || (e == at + ":format" && exists f :: Get(ms, "format") == Some(Str(f)) && !env.formatIsValid(f, s))
    case Int(n) =>
      || (e == at + ":minimum" && exists low :: Get(ms, "minimum") == Some(Int(low)) && n < low)
      || (e == at + ":maximum" && exists high :: Get(ms, "maximum") == Some(Int(high)) && n > high)
    case _ => false
  }

  /** The text reports something wrong with the value at the place, or below it. */
  ghost predicate Wrong(e: string, v: Json, schema: Json, at: string, env: Env)
    decreases v
  {
    schema.Obj?
    && var ms := schema.members;
       if !TypeMeets(v, ms) then e == at + ":type"
       else
         || ValueError(e, v, ms, at)
         || match v
            case Obj(fields) =>
              || NameError(e, fields, ms, at)
              || exists i :: 0 <= i < |fields| && FieldWrong(e, fields[i], ms, at, env)
            case Arr(items) =>
              || SizeError(e, items, ms, at)
              || exists i: nat :: i < |items|
                   && Wrong(e, items[i], GetValue(ms, "items"), at + "[" + NatText(i) + "]", env)
            case _ => LeafError(e, v, ms, at, env)
  }

  ghost predicate FieldWrong(e: string, field: Member, ms: seq<Member>, at: string, env: Env)
    decreases field
  {
    && Property(ms, field.key).Some?
    && Wrong(e, field.value, Property(ms, field.key).value, at + "." + field.key, env)
  }

  // ------------------------------------------------------------------ check by check

  lemma ConstErrorIs(e: string, v: Json, ms: seq<Member>, at: string)
    requires WellFormed(v) && WellFormed(Obj(ms))
    ensures ConstErrors(v, ms, at).Errors?
    ensures e in ConstErrors(v, ms, at).list
      <==> e == at + ":const" && exists c :: Get(ms, "const") == Some(c) && !Same(v, c)
  {
    hide Same, WellFormed, Get, CanonicalJson;
    ConstDecided(v, ms, at);
  }

  lemma EnumErrorIs(e: string, v: Json, ms: seq<Member>, at: string)
    requires WellFormed(v) && WellFormed(Obj(ms)) && EnumCheck(ms).Accepted? && Get(ms, "enum") != Some(Null)
    ensures EnumErrors(v, ms, at).Errors?
    ensures e in EnumErrors(v, ms, at).list <==> e == at + ":enum" && exists es: seq<Json> ::
      Get(ms, "enum") == Some(Arr(es)) && forall i :: 0 <= i < |es| ==> !Same(v, es[i])
  {
    hide Same, WellFormed, Get, CanonicalJson, CanonicalTexts;
    EnumDecided(v, ms, at);
  }

  lemma ValueErrors(e: string, v: Json, schema: Json, env: Env, at: string)
    requires WellFormed(v) && Clean(schema, env)
    ensures ConstErrors(v, schema.members, at).Errors? && EnumErrors(v, schema.members, at).Errors?
    ensures ValueError(e, v, schema.members, at) <==>
      e in ConstErrors(v, schema.members, at).list || e in EnumErrors(v, schema.members, at).list
  {
    hide Same, Sound, WellFormed, Get, NullFree, EnumCheck, ConstErrors, EnumErrors;
    SoundIsChecked(schema, env.compiles);
    NullFreeParts(schema);
    assert schema == Obj(schema.members);
    ConstErrorIs(e, v, schema.members, at);
    EnumErrorIs(e, v, schema.members, at);
  }

  lemma TextErrorsAre(e: string, s: string, ms: seq<Member>, env: Env, at: string)
    ensures LeafErrors(Str(s), ms, at, env).Errors?
    ensures e in LeafErrors(Str(s), ms, at, env).list <==> LeafError(e, Str(s), ms, at, env)
  {
    hide Get;
  }

  lemma NumberErrorsAre(e: string, n: int, ms: seq<Member>, env: Env, at: string)
    ensures LeafErrors(Int(n), ms, at, env).Errors?
    ensures e in LeafErrors(Int(n), ms, at, env).list <==> LeafError(e, Int(n), ms, at, env)
  {
    hide Get;
  }

  lemma LeafErrorsAre(e: string, v: Json, ms: seq<Member>, env: Env, at: string)
    ensures LeafErrors(v, ms, at, env).Errors?
    ensures e in LeafErrors(v, ms, at, env).list <==> LeafError(e, v, ms, at, env)
  {
    match v
    case Str(s) => TextErrorsAre(e, s, ms, env, at);
    case Int(n) => NumberErrorsAre(e, n, ms, env, at);
    case _ =>
  }

  lemma SizeErrorsAre(e: string, items: seq<Json>, schema: Json, env: Env, at: string)
    requires schema.Obj? && forall i :: 0 <= i < |items| ==> WellFormed(items[i])
    ensures SizeErrors(items, schema.members, at).Errors?
    ensures e in SizeErrors(items, schema.members, at).list <==> SizeError(e, items, schema.members, at)
  {
    hide CanonicalJson, Same, Get, Repeats, WellFormed;
    RepeatsIffNotDistinct(CanonicalTexts(items));
    forall i, j | 0 <= i < j < |items|
      ensures CanonicalTexts(items)[i] == CanonicalTexts(items)[j] <==> Same(items[i], items[j])
    {
      CanonicalJsonDecidesSame(items[i], items[j]);
    }
  }

  lemma {:induction false} MissingIs(e: string, names: seq<string>, fields: seq<Member>, at: string)
    ensures e in MissingErrors(names, fields, at) <==>
      exists i :: 0 <= i < |names| && !Has(fields, names[i]) && e == at + "." + names[i] + ":required"
  {
    hide Has;
    if names != [] {
      MissingIs(e, names[1..], fields, at);
      assert forall i :: 0 < i < |names| ==> names[i] == names[1..][i - 1];
      if i :| 0 <= i < |names| && !Has(fields, names[i]) && e == at + "." + names[i] + ":required" {
        assert i > 0 ==> names[1..][i - 1] == names[i];
      }
    }
  }

  lemma {:induction false} InsertHolds(xs: seq<string>, x: string, y: string, below: (string, string) -> bool)
    ensures y in Order.Insert(xs, x, below) <==> y == x || y in xs
  {
    if xs != [] {
      InsertHolds(xs[1..], x, y, below);
      assert xs == [xs[0]] + xs[1..];
    }
  }

  lemma {:induction false} SortHolds(xs: seq<string>, y: string)
    ensures y in Order.Sort(xs, Order.Self) <==> y in xs
  {
    if xs != [] {
      var before, last := xs[..|xs| - 1], xs[|xs| - 1];
      SortHolds(before, y);
      InsertHolds(Order.Sort(before, Order.Self), last, y, Order.ByKey(Order.Self));
      assert xs == before + [last];
    }
  }

  lemma {:induction false} ExtraIs(e: string, names: seq<string>, at: string)
    ensures e in ExtraErrors(names, at)
      <==> exists name :: name in names && e == at + "." + name + ":additionalProperties"
  {
    if names != [] {
      ExtraIs(e, names[1..], at);
      assert names == [names[0]] + names[1..];
    }
  }

  lemma {:induction false} UndeclaredIs(name: string, keys: seq<string>, props: seq<Member>)
    ensures name in Undeclared(keys, props) <==> name in keys && !Has(props, name)
  {
    hide Has;
    if keys != [] {
      UndeclaredIs(name, keys[1..], props);
      assert keys == [keys[0]] + keys[1..];
    }
  }

  lemma RequiredErrorsAre(e: string, fields: seq<Member>, ms: seq<Member>, at: string)
    requires RequiredCheck(ms).Accepted? && Get(ms, "required") != Some(Null)
    ensures RequiredErrors(fields, ms, at).Errors?
    ensures e in RequiredErrors(fields, ms, at).list <==> exists names: seq<Json>, i: int ::
      Get(ms, "required") == Some(Arr(names)) && 0 <= i < |names| && names[i].Str?
      && Get(fields, names[i].text).None? && e == at + "." + names[i].text + ":required"
  {
    hide Get, Repeats, MissingErrors;
    if Get(ms, "required").Some? {
      var names := Get(ms, "required").value.items;
      MissingIs(e, Texts(names), fields, at);
      assert forall i :: 0 <= i < |names| ==> Texts(names)[i] == names[i].text;
    }
  }

  ghost predicate Extra(e: string, name: string, props: seq<Member>, at: string) {
    !Has(props, name) && e == at + "." + name + ":additionalProperties"
  }

  lemma ExtrasAre(e: string, fields: seq<Member>, props: seq<Member>, at: string)
    ensures e in ExtraErrors(Order.Sort(Undeclared(Keys(fields), props), Order.Self), at) <==>
      exists i :: 0 <= i < |fields| && Extra(e, fields[i].key, props, at)
  {
    hide Has, ExtraErrors, Undeclared;
    var names := Order.Sort(Undeclared(Keys(fields), props), Order.Self);
    ExtraIs(e, names, at);
    forall name ensures name in names <==> name in Keys(fields) && !Has(props, name) {
      SortHolds(Undeclared(Keys(fields), props), name);
      UndeclaredIs(name, Keys(fields), props);
    }
    assert forall i :: 0 <= i < |fields| ==> Keys(fields)[i] == fields[i].key;
    if i :| 0 <= i < |fields| && Extra(e, fields[i].key, props, at) {
      assert Keys(fields)[i] in Keys(fields);
    }
  }

  lemma {:induction false} ExtraTexts(names: seq<string>, at: string)
    ensures |ExtraErrors(names, at)| == |names|
    ensures forall i :: 0 <= i < |names| ==> ExtraErrors(names, at)[i] == at + "." + names[i] + ":additionalProperties"
  {
    if names != [] { ExtraTexts(names[1..], at); }
  }

  lemma {:induction false} UndeclaredDistinct(keys: seq<string>, props: seq<Member>)
    requires Distinct(keys)
    ensures Distinct(Undeclared(keys, props))
  {
    hide Has;
    if keys != [] {
      var rest := keys[1..];
      assert forall i, j :: 0 <= i < j < |rest| ==> rest[i] == keys[i + 1] && rest[j] == keys[j + 1];
      UndeclaredDistinct(rest, props);
      UndeclaredIs(keys[0], rest, props);
      assert keys[0] !in rest;
    }
  }

  /** Undeclared names are reported in ascending order, each once. */
  lemma ExtrasAscend(fields: seq<Member>, ms: seq<Member>, at: string) returns (names: seq<string>)
    requires DistinctKeys(fields) && AdditionalErrors(fields, ms, at).Errors?
    ensures forall i, j :: 0 <= i < j < |names| ==> Order.Precedes(names[i], names[j])
    ensures |AdditionalErrors(fields, ms, at).list| == |names|
    ensures forall i :: 0 <= i < |names| ==>
              AdditionalErrors(fields, ms, at).list[i] == at + "." + names[i] + ":additionalProperties"
  {
    hide ExtraErrors, Undeclared, Order.Precedes, Order.Less;
    names := [];
    if Get(ms, "additionalProperties") == Some(Bool(false)) {
      var props := match Get(ms, "properties") case Some(v) => v.members case None => [];
      assert forall i :: 0 <= i < |fields| ==> Keys(fields)[i] == fields[i].key;
      UndeclaredDistinct(Keys(fields), props);
      names := Order.Sort(Undeclared(Keys(fields), props), Order.Self);
      Order.SortSorts(Undeclared(Keys(fields), props), Order.Self);
      forall i, j | 0 <= i < j < |names| ensures Order.Precedes(names[i], names[j]) {
        Order.LessIsPrecedes(names[i], names[j]);
      }
      ExtraTexts(names, at);
    }
  }

  lemma AdditionalErrorsAre(e: string, fields: seq<Member>, ms: seq<Member>, at: string)
    requires Get(ms, "properties").Some? ==> Get(ms, "properties").value.Obj?
    ensures AdditionalErrors(fields, ms, at).Errors?
    ensures e in AdditionalErrors(fields, ms, at).list <==>
      Get(ms, "additionalProperties") == Some(Bool(false))
      && exists i :: 0 <= i < |fields| && UndeclaredName(e, fields[i].key, ms, at)
  {
    hide ExtraErrors, Undeclared, Keys;
    var props := match Get(ms, "properties") case Some(v) => v.members case None => [];
    ExtrasAre(e, fields, props, at);
    assert forall i :: 0 <= i < |fields| ==> (Property(ms, fields[i].key).Some? <==> Has(props, fields[i].key));
  }

  lemma NameErrorsAre(e: string, fields: seq<Member>, schema: Json, env: Env, at: string)
    requires Clean(schema, env)
    ensures RequiredErrors(fields, schema.members, at).Errors? && AdditionalErrors(fields, schema.members, at).Errors?
    ensures NameError(e, fields, schema.members, at) <==>
      || e in RequiredErrors(fields, schema.members, at).list
      || e in AdditionalErrors(fields, schema.members, at).list
  {
    hide Sound, Get, NullFree, WellFormed, RequiredErrors, AdditionalErrors, Property, RequiredCheck;
    SoundIsChecked(schema, env.compiles);
    NullFreeParts(schema);
    CleanProperties(schema, env);
    RequiredErrorsAre(e, fields, schema.members, at);
    AdditionalErrorsAre(e, fields, schema.members, at);
  }

  lemma PlaceOf(path: seq<Part>, part: Part)
    ensures Location(path + [part]) ==
      Location(path) + (match part case Name(s) => "." + s case Index(i) => "[" + NatText(i) + "]")
  {
    assert (path + [part])[..|path|] == path;
  }

  // ------------------------------------------------------------------ the whole list

  ghost predicate PropertyWrong(e: string, fields: seq<Member>, prop: Member, at: string, env: Env)
    decreases fields
  {
    var i := IndexOf(fields, prop.key);
    i < |fields| && Wrong(e, fields[i].value, prop.value, at + "." + prop.key, env)
  }

  lemma {:induction false} PropertiesWrong(e: string, fields: seq<Member>, props: seq<Member>, path: seq<Part>,
                                           env: Env)
    requires forall i :: 0 <= i < |fields| ==> WellFormed(fields[i].value)
    requires forall k :: 0 <= k < |props| ==> Clean(props[k].value, env)
    requires forall k :: 0 <= k < |props| ==> Sound(props[k].value, env.compiles)
    ensures PropertyErrors(fields, props, path, env).Errors?
    ensures e in PropertyErrors(fields, props, path, env).list
      <==> exists k :: 0 <= k < |props| && PropertyWrong(e, fields, props[k], Location(path), env)
    decreases fields, |props|
  {
    hide Sound, Wrong, Validate, Clean, Location;
    if props != [] {
      var i := IndexOf(fields, props[0].key);
      if i < |fields| {
        ErrorsExactly(e, fields[i].value, props[0].value, path + [Name(props[0].key)], env);
        PlaceOf(path, Name(props[0].key));
        assert Location(path) + ("." + props[0].key) == Location(path) + "." + props[0].key;
      }
      PropertiesWrong(e, fields, props[1..], path, env);
      SomeProperty(e, fields, props, Location(path), env);
    }
  }

  lemma SomeProperty(e: string, fields: seq<Member>, props: seq<Member>, at: string, env: Env)
    requires props != []
    ensures (exists k :: 0 <= k < |props| && PropertyWrong(e, fields, props[k], at, env)) <==>
      || PropertyWrong(e, fields, props[0], at, env)
      || exists k :: 0 <= k < |props[1..]| && PropertyWrong(e, fields, props[1..][k], at, env)
  {
    hide PropertyWrong;
    assert props == [props[0]] + props[1..];
    if k :| 0 <= k < |props| && PropertyWrong(e, fields, props[k], at, env) {
      assert k > 0 ==> props[1..][k - 1] == props[k];
    }
  }

  /** The wrong properties are the wrong fields: both sides have distinct keys. */
  lemma FieldsWrong(e: string, fields: seq<Member>, schema: Json, at: string, env: Env)
    requires Clean(schema, env) && Has(schema.members, "properties") && DistinctKeys(fields)
    requires Get(schema.members, "properties").value.Obj?
    ensures (exists k :: 0 <= k < |Get(schema.members, "properties").value.members|
               && PropertyWrong(e, fields, Get(schema.members, "properties").value.members[k], at, env))
      <==> exists i :: 0 <= i < |fields| && FieldWrong(e, fields[i], schema.members, at, env)
  {
    hide Sound, Wrong, WellFormed, NullFree;
    CleanProperties(schema, env);
    var props := Get(schema.members, "properties").value.members;
    if k :| 0 <= k < |props| && PropertyWrong(e, fields, props[k], at, env) {
      FieldOfProperty(fields, props, k);
      assert FieldWrong(e, fields[IndexOf(fields, props[k].key)], schema.members, at, env);
    }
    if i :| 0 <= i < |fields| && FieldWrong(e, fields[i], schema.members, at, env) {
      FieldOfProperty(props, fields, i);
      assert PropertyWrong(e, fields, props[IndexOf(props, fields[i].key)], at, env);
    }
  }

  lemma FieldOfProperty(fields: seq<Member>, props: seq<Member>, k: nat)
    requires DistinctKeys(props) && k < |props| && IndexOf(fields, props[k].key) < |fields|
    ensures IndexOf(props, fields[IndexOf(fields, props[k].key)].key) == k
  {
  }

  lemma {:induction false} ItemsWrong(e: string, items: seq<Json>, k: nat, schema: Json, path: seq<Part>, env: Env)
    requires forall i :: 0 <= i < |items| ==> WellFormed(items[i])
    requires Clean(schema, env) && k <= |items|
    ensures ItemErrors(items, k, schema, path, env).Errors?
    ensures e in ItemErrors(items, k, schema, path, env).list <==> exists i: nat ::
      k <= i < |items| && Wrong(e, items[i], schema, Location(path) + "[" + NatText(i) + "]", env)
    decreases items, |items| - k
  {
    hide Sound, Wrong, Validate, NullFree, WellFormed, Location;
    if k < |items| {
      ErrorsExactly(e, items[k], schema, path + [Index(k)], env);
      PlaceOf(path, Index(k));
      assert Location(path) + ("[" + NatText(k) + "]") == Location(path) + "[" + NatText(k) + "]";
      ItemsWrong(e, items, k + 1, schema, path, env);
    }
  }

  /** The validator reports exactly the texts that say what is wrong and where. */
  lemma {:induction false} ErrorsExactly(e: string, v: Json, schema: Json, path: seq<Part>, env: Env)
    requires WellFormed(v) && Clean(schema, env)
    ensures Validate(v, schema, path, env).Errors?
    ensures e in Validate(v, schema, path, env).list <==> Wrong(e, v, schema, Location(path), env)
    decreases v, 1
  {
    hide Sound, ConstErrors, EnumErrors, LeafErrors, SizeErrors, RequiredErrors, AdditionalErrors, PropertyErrors;
    hide ItemErrors, ValueError, NameError, SizeError, LeafError, TypeAllowed, TypeMeets, Get, Location, NullFree;
    var ms, at := schema.members, Location(path);
    TypeDecided(v, schema, env);
    if TypeAllowed(v, ms) {
      ValueErrors(e, v, schema, env, at);
      match v
      case Obj(fields) =>
        NameErrorsAre(e, fields, schema, env, at);
        CleanProperties(schema, env);
        if Has(ms, "properties") {
          PropertiesWrong(e, fields, Get(ms, "properties").value.members, path, env);
          FieldsWrong(e, fields, schema, at, env);
        }
      case Arr(items) =>
        SizeErrorsAre(e, items, schema, env, at);
        CleanItems(schema, env);
        if Has(ms, "items") { ItemsWrong(e, items, 0, Get(ms, "items").value, path, env); }
      case _ =>
        LeafErrorsAre(e, v, ms, env, at);
    }
  }
}
