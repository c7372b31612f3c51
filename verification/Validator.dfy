/** _validate_instance as it runs: one list of errors, appended to in loops. */
module Validator {
  import opened Base
  import opened Json
  import opened Schema
  import opened Instance
  import Order

  class ErrorList {
    var entries: seq<string>

    constructor ()
      ensures entries == []
    {
      entries := [];
    }

    method Append(e: string)
      modifies this
      ensures entries == old(entries) + [e]
    {
      entries := entries + [e];
    }

    method AppendUnless(ok: bool, e: string)
      modifies this
      ensures Errors(entries) == Join(Errors(old(entries)), Check(ok, e))
    {
      if !ok { Append(e); }
    }
  }

  /** The list grew by exactly the report, or the call raised after appending some entries. */
  predicate Appended(before: seq<string>, r: Report, after: seq<string>, crashed: bool) {
    before <= after && if r.Crashed? then crashed else !crashed && after == before + r.list
  }

  lemma AppendedThen(a: seq<string>, r: Report, b: seq<string>, s: Report, c: seq<string>, crashed: bool)
    requires Appended(a, r, b, false) && Appended(b, s, c, crashed)
    ensures Appended(a, Join(r, s), c, crashed)
  {
    if s.Errors? { assert a + r.list + s.list == a + (r.list + s.list); }
  }

  method CheckValue(v: Json, ms: seq<Member>, at: string, errors: ErrorList) returns (crashed: bool)
    modifies errors
    ensures Appended(old(errors.entries), Join(ConstErrors(v, ms, at), EnumErrors(v, ms, at)), errors.entries, crashed)
  {
    hide CanonicalJson, CanonicalTexts, Get;
    if Get(ms, "const").Some? {
      errors.AppendUnless(CanonicalJson(v) == CanonicalJson(Get(ms, "const").value), at + ":const");
    }
    assert Appended(old(errors.entries), ConstErrors(v, ms, at), errors.entries, false);
    if Get(ms, "enum").Some? {
      var enum := Get(ms, "enum").value;
      if !enum.Arr? { return true; }
      errors.AppendUnless(CanonicalJson(v) in CanonicalTexts(enum.items), at + ":enum");
    }
    crashed := false;
  }

  method CheckRequired(fields: seq<Member>, ms: seq<Member>, at: string, errors: ErrorList) returns (crashed: bool)
    modifies errors
    ensures Appended(old(errors.entries), RequiredErrors(fields, ms, at), errors.entries, crashed)
  {
    hide Get, Has;
    if Get(ms, "required").None? { return false; }
    var required := Get(ms, "required").value;
    if !required.Arr? || !AllText(required.items) { return true; }
    var names := Texts(required.items);
    for i := 0 to |names|
      invariant old(errors.entries) <= errors.entries
      invariant errors.entries + MissingErrors(names[i..], fields, at)
        == old(errors.entries) + MissingErrors(names, fields, at)
    {
      ghost var before, rest := errors.entries, MissingErrors(names[i + 1..], fields, at);
      assert names[i..][0] == names[i] && names[i..][1..] == names[i + 1..];
      if !Has(fields, names[i]) {
        errors.Append(at + "." + names[i] + ":required");
        assert before + ([at + "." + names[i] + ":required"] + rest)
          == before + [at + "." + names[i] + ":required"] + rest;
      }
    }
    assert names[|names|..] == [];
    return false;
  }

  method CheckAdditional(fields: seq<Member>, ms: seq<Member>, at: string, errors: ErrorList) returns (crashed: bool)
    modifies errors
    ensures Appended(old(errors.entries), AdditionalErrors(fields, ms, at), errors.entries, crashed)
  {
    hide Get, Undeclared, Keys;
    if Get(ms, "additionalProperties") != Some(Bool(false)) { return false; }
    var properties := match Get(ms, "properties") case Some(p) => p case None => Obj([]);
    if !properties.Obj? { return true; }
    var names := Order.Sort(Undeclared(Keys(fields), properties.members), Order.Self);
    for i := 0 to |names|
      invariant old(errors.entries) <= errors.entries
      invariant errors.entries + ExtraErrors(names[i..], at) == old(errors.entries) + ExtraErrors(names, at)
    {
      ghost var before, rest := errors.entries, ExtraErrors(names[i + 1..], at);
      assert names[i..][0] == names[i] && names[i..][1..] == names[i + 1..];
      var e := at + "." + names[i] + ":additionalProperties";
      errors.Append(e);
      assert before + ([e] + rest) == before + [e] + rest;
    }
    assert names[|names|..] == [];
    return false;
  }

  method CheckText(s: string, ms: seq<Member>, at: string, env: Env, errors: ErrorList)
    modifies errors
    ensures Appended(old(errors.entries), LeafErrors(Str(s), ms, at, env), errors.entries, false)
  {
    hide LengthOk, PatternOk, FormatOk;
    errors.AppendUnless(LengthOk(s, ms), at + ":minLength");
    errors.AppendUnless(PatternOk(s, ms, env), at + ":pattern");
    errors.AppendUnless(FormatOk(s, ms, env), at + ":format");
  }

  method CheckLeaf(v: Json, ms: seq<Member>, at: string, env: Env, errors: ErrorList)
    modifies errors
    ensures Appended(old(errors.entries), LeafErrors(v, ms, at, env), errors.entries, false)
  {
    hide LengthOk, PatternOk, FormatOk, MinimumOk, MaximumOk;
    match v
    case Str(s) => CheckText(s, ms, at, env, errors);
    case Int(n) =>
      errors.AppendUnless(MinimumOk(n, ms), at + ":minimum");
      errors.AppendUnless(MaximumOk(n, ms), at + ":maximum");
    case _ =>
  }

  method CheckSize(items: seq<Json>, ms: seq<Member>, at: string, errors: ErrorList)
    modifies errors
    ensures Appended(old(errors.entries), SizeErrors(items, ms, at), errors.entries, false)
  {
    hide Get, Repeats, CanonicalTexts;
    errors.AppendUnless(match Get(ms, "minItems") case Some(Int(n)) => |items| >= n case _ => true, at + ":minItems");
    errors.AppendUnless(Get(ms, "uniqueItems") == Some(Bool(true)) ==> !Repeats(CanonicalTexts(items)),
                        at + ":uniqueItems");
  }

  /** Appends what the specification lists for this value, or raises exactly when the specification crashes. */
  method ValidateInstance(v: Json, schema: Json, path: seq<Part>, env: Env, errors: ErrorList) returns (crashed: bool)
    requires Sound(schema, env.compiles)
    modifies errors
    ensures Appended(old(errors.entries), Validate(v, schema, path, env), errors.entries, crashed)
    decreases v, 1
  {
    hide Get, ConstErrors, EnumErrors, LeafErrors, Location, TypeAllowed, Body, ObjectErrors, ArrayErrors;
    var ms, at := schema.members, Location(path);
    if !TypeAllowed(v, ms) {
      errors.Append(at + ":type");
      return false;
    }
    crashed := CheckValue(v, ms, at, errors);
    if crashed { return; }
    ghost var middle := errors.entries;
    if v.Obj? {
      crashed := ValidateObject(v, schema, path, env, errors);
    } else if v.Arr? {
      crashed := ValidateArray(v, schema, path, env, errors);
    } else {
      CheckLeaf(v, ms, at, env, errors);
    }
    ghost var rest := if v.Obj? then ObjectErrors(v, schema, path, env)
                      else if v.Arr? then ArrayErrors(v, schema, path, env) else LeafErrors(v, ms, at, env);
    AppendedThen(old(errors.entries), Join(ConstErrors(v, ms, at), EnumErrors(v, ms, at)), middle, rest, errors.entries,
      crashed);
  }

  method ValidateObject(v: Json, schema: Json, path: seq<Part>, env: Env, errors: ErrorList) returns (crashed: bool)
    requires v.Obj? && Sound(schema, env.compiles)
    modifies errors
    ensures Appended(old(errors.entries), ObjectErrors(v, schema, path, env), errors.entries, crashed)
    decreases v, 0
  {
    hide Get, RequiredErrors, AdditionalErrors, PropertyErrors, Location, Body;
    var ms, at := schema.members, Location(path);
    PropertiesSound(schema, env.compiles);
    crashed := CheckRequired(v.members, ms, at, errors);
    if crashed { return; }
    ghost var first := errors.entries;
    crashed := CheckAdditional(v.members, ms, at, errors);
    if crashed { return; }
    ghost var second := errors.entries;
    AppendedThen(old(errors.entries), RequiredErrors(v.members, ms, at), first, AdditionalErrors(v.members, ms, at),
      second, false);
    if Get(ms, "properties").Some? {
      var properties := Get(ms, "properties").value;
      if properties == Null { return true; }
      crashed := ValidateProperties(v.members, properties.members, path, env, errors);
    }
    ghost var third := match Get(ms, "properties")
      case None => Errors([])
      case Some(Obj(props)) => PropertyErrors(v.members, props, path, env)
      case _ => Crashed;
    AppendedThen(old(errors.entries), Join(RequiredErrors(v.members, ms, at), AdditionalErrors(v.members, ms, at)),
      second, third, errors.entries, crashed);
    JoinAssociative(RequiredErrors(v.members, ms, at), AdditionalErrors(v.members, ms, at), third);
  }

  method ValidateProperties(fields: seq<Member>, props: seq<Member>, path: seq<Part>, env: Env, errors: ErrorList)
    returns (crashed: bool)
    requires forall i :: 0 <= i < |props| ==> Sound(props[i].value, env.compiles)
    modifies errors
    ensures Appended(old(errors.entries), PropertyErrors(fields, props, path, env), errors.entries, crashed)
    decreases fields, 2
  {
    hide Sound, Validate;
    for i := 0 to |props|
      invariant old(errors.entries) <= errors.entries
      invariant Join(Errors(errors.entries), PropertyErrors(fields, props[i..], path, env))
             == Join(Errors(old(errors.entries)), PropertyErrors(fields, props, path, env))
    {
      assert props[i..][0] == props[i] && props[i..][1..] == props[i + 1..];
      ghost var before := errors.entries;
      ghost var rest := PropertyErrors(fields, props[i + 1..], path, env);
      var j := IndexOf(fields, props[i].key);
      if j < |fields| {
        var part := path + [Name(props[i].key)];
        crashed := ValidateInstance(fields[j].value, props[i].value, part, env, errors);
        if crashed { return; }
        JoinAssociative(Errors(before), Validate(fields[j].value, props[i].value, part, env), rest);
      }
    }
    assert props[|props|..] == [];
    return false;
  }

  method ValidateArray(v: Json, schema: Json, path: seq<Part>, env: Env, errors: ErrorList) returns (crashed: bool)
    requires v.Arr? && Sound(schema, env.compiles)
    modifies errors
    ensures Appended(old(errors.entries), ArrayErrors(v, schema, path, env), errors.entries, crashed)
    decreases v, 0
  {
    hide Get, SizeErrors, ItemErrors, Location, Body;
    var ms, at := schema.members, Location(path);
    ItemsSound(schema, env.compiles);
    CheckSize(v.items, ms, at, errors);
    ghost var first := errors.entries;
    crashed := false;
    ghost var second := Errors([]);
    if Get(ms, "items").Some? {
      var items := Get(ms, "items").value;
      if items != Null {
        second := ItemErrors(v.items, 0, items, path, env);
        crashed := ValidateItems(v.items, items, path, env, errors);
      } else {
        second := if v.items == [] then Errors([]) else Crashed;
        crashed := v.items != [];
      }
    }
    AppendedThen(old(errors.entries), SizeErrors(v.items, ms, at), first, second, errors.entries, crashed);
  }

  method ValidateItems(items: seq<Json>, schema: Json, path: seq<Part>, env: Env, errors: ErrorList)
    returns (crashed: bool)
    requires Sound(schema, env.compiles)
    modifies errors
    ensures Appended(old(errors.entries), ItemErrors(items, 0, schema, path, env), errors.entries, crashed)
    decreases items, 2
  {
    hide Sound, Validate;
    for i := 0 to |items|
      invariant old(errors.entries) <= errors.entries
      invariant Join(Errors(errors.entries), ItemErrors(items, i, schema, path, env))
             == Join(Errors(old(errors.entries)), ItemErrors(items, 0, schema, path, env))
    {
      ghost var before := errors.entries;
      crashed := ValidateInstance(items[i], schema, path + [Index(i)], env, errors);
      if crashed { return; }
      JoinAssociative(Errors(before), Validate(items[i], schema, path + [Index(i)], env),
        ItemErrors(items, i + 1, schema, path, env));
    }
    return false;
  }

  /** schema_validation_errors over a loaded schema: for one the definition walk accepts, without those
      nulls, the list is empty exactly when the document satisfies the schema. */
  method SchemaValidationErrors(document: Json, schema: Json, expectedId: string, env: Env)
    returns (r: Result<seq<string>, Verdict>)
    requires WellFormed(document) && WellFormed(schema)
    ensures var verdict := ValidateSchemaDefinition(schema, Some(expectedId), env.compiles);
      && (!verdict.Accepted? ==> r == Err(verdict))
      && (verdict.Accepted? && NullFree(schema) ==>
            && r.Ok?
            && (AcceptedIsSound(schema, Some(expectedId), env.compiles);
                r.value == [] <==> Satisfies(document, schema, env)))
      && (verdict.Accepted? && r.Err? ==> r.error.Crash? && !NullFree(schema))
  {
    hide Sound, Validate, Satisfies, NullFree;
    var verdict := ValidateSchemaDefinition(schema, Some(expectedId), env.compiles);
    if !verdict.Accepted? { return Err(verdict); }
    AcceptedIsSound(schema, Some(expectedId), env.compiles);
    if NullFree(schema) { ValidateDecides(document, schema, [], env); }
    var errors := new ErrorList();
    var crashed := ValidateInstance(document, schema, [], env, errors);
    return if crashed then Err(Schema.Verdict.Crash) else Ok(errors.entries);
  }
}
