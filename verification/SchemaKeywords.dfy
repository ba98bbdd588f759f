/** What each keyword means on its own, over every value. */
module SchemaKeywords {
  import opened Text
  import opened Json
  import opened SchemaLint

  /** A schema with one keyword. */
  function Single(key: string, v: Json): Json { Obj([Field(key, v)]) }

  lemma SingleHas(key: string, v: Json, k: string)
    ensures Kw(Single(key, v), k) <==> k == key
    ensures Kw(Single(key, v), key) && Val(Single(key, v), key) == v
  {
    assert [Field(key, v)][0] == Field(key, v);
    assert Has([Field(key, v)], key);
  }

  /** The keywords that say something about the value at hand. */
  predicate IsLocal(key: string) {
    key in ["type", "const", "enum", "minLength", "pattern", "minimum", "maximum", "required", "additionalProperties"]
  }

  lemma LocalIsNothingElse(key: string)
    requires IsLocal(key)
    ensures key != "$ref" && key != "properties" && key != "items" && key != "oneOf" && key != "anyOf" && key != "if" && key != "allOf"
  {
  }

  /** The node holds one local keyword, and validation of it is defined. */
  ghost predicate Alone(key: string, v: Json, n: Node, env: Env, ranks: map<Node, nat>) {
    IsLocal(key) && n.schema == Single(key, v) && n in ranks && Ranked(ranks, env)
  }

  /** Then only the local conditions count. */
  lemma SatAlone(obj: Json, key: string, v: Json, n: Node, env: Env, ranks: map<Node, nat>)
    requires Alone(key, v, n, env, ranks)
    ensures WellTyped(n.schema)
    ensures Sat(obj, n, env, ranks) <==>
              && ShapeOk(obj, n.schema) && StringOk(obj, n.schema, env) && NumberOk(obj, n.schema)
              && (obj.Obj? ==> RequiredOk(obj, n.schema) && (ForbidsOthers(n.schema) ==> obj.fields == []))
  {
    LocalIsNothingElse(key);
    hide IsLocal;
    forall k ensures Kw(Single(key, v), k) <==> k == key { SingleHas(key, v, k); }
    hide ShapeOk, StringOk, NumberOk, RequiredOk, ForbidsOthers, WellTyped, Kw;
    assert Props(n.schema) == [];
    if obj.Obj? { NoProperties(obj, n, env, ranks); }
  }

  lemma NoProperties(obj: Json, n: Node, env: Env, ranks: map<Node, nat>)
    requires Ranked(ranks, env) && n in ranks && obj.Obj? && n.schema.Obj? && !Kw(n.schema, "$ref") && Props(n.schema) == []
    ensures FieldsSat(obj, n, env, ranks) <==> (ForbidsOthers(n.schema) ==> obj.fields == [])
  {
    hide Ranked, Kw, ForbidsOthers, Props;
    forall i: nat | i < |obj.fields| ensures FieldSat(obj, n, i, env, ranks) <==> !ForbidsOthers(n.schema) {
      assert !Has(Props(n.schema), obj.fields[i].key);
    }
    if obj.fields != [] && FieldsSat(obj, n, env, ranks) { assert FieldSat(obj, n, 0, env, ranks); }
  }

  /** The seven type names. A boolean is no number; any other name accepts everything. */
  predicate OfType(obj: Json, name: string) {
    match obj
    case Null => name == "null"
    case Bool(_) => name == "boolean"
    case Int(_) => name == "integer" || name == "number"
    case Float(_) => name == "number"
    case Str(_) => name == "string"
    case Arr(_) => name == "array"
    case Obj(_) => name == "object"
  }

  predicate IsTypeName(name: string) {
    name in ["null", "boolean", "integer", "number", "string", "array", "object"]
  }

  lemma TypeMeans(obj: Json, name: string, n: Node, env: Env, ranks: map<Node, nat>)
    requires Alone("type", Str(name), n, env, ranks)
    ensures Sat(obj, n, env, ranks) <==> !IsTypeName(name) || OfType(obj, name)
  {
    SatAlone(obj, "type", Str(name), n, env, ranks);
    OthersAllow(obj, "type", Str(name), env);
    SingleHas("type", Str(name), "type");
    CheckTypeMeans(obj, name);
    hide Sat, CheckType, OfType, IsTypeName;
  }

  lemma CheckTypeMeans(obj: Json, name: string)
    ensures CheckType(obj, Str(name)) <==> !IsTypeName(name) || OfType(obj, name)
  {
  }

  /** A list of type names accepts what one of them accepts. */
  lemma TypesMean(obj: Json, types: seq<Json>, n: Node, env: Env, ranks: map<Node, nat>)
    requires Alone("type", Arr(types), n, env, ranks) && AllStrings(types)
    ensures Sat(obj, n, env, ranks) <==> exists i :: 0 <= i < |types| && (!IsTypeName(types[i].s) || OfType(obj, types[i].s))
  {
    SatAlone(obj, "type", Arr(types), n, env, ranks);
    OthersAllow(obj, "type", Arr(types), env);
    SingleHas("type", Arr(types), "type");
    hide Sat, OfType, IsTypeName;
    forall i | 0 <= i < |types|
      ensures CheckType(obj, types[i]) <==> !IsTypeName(types[i].s) || OfType(obj, types[i].s)
    {
      CheckTypeMeans(obj, types[i].s);
    }
    TypeListMeans(obj, types);
    hide CheckType;
  }

  lemma TypeListMeans(obj: Json, types: seq<Json>)
    ensures CheckType(obj, Arr(types)) <==> exists i :: 0 <= i < |types| && CheckType(obj, types[i])
  {
  }

  /** A local keyword leaves the other checks alone. */
  lemma OthersAllow(obj: Json, key: string, v: Json, env: Env)
    requires IsLocal(key) && WellTyped(Single(key, v))
    ensures key != "type" && key != "const" && key != "enum" ==> ShapeOk(obj, Single(key, v))
    ensures key == "type" ==> (ShapeOk(obj, Single(key, v)) <==> CheckType(obj, v))
    ensures key == "const" ==> (ShapeOk(obj, Single(key, v)) <==> ConstEq(obj, v))
    ensures key == "enum" && v.Arr? ==>
              (ShapeOk(obj, Single(key, v)) <==> exists i :: 0 <= i < |v.items| && ConstEq(obj, v.items[i]))
    ensures key != "minLength" && key != "pattern" ==> StringOk(obj, Single(key, v), env)
    ensures key != "minimum" && key != "maximum" ==> NumberOk(obj, Single(key, v))
    ensures key != "required" && obj.Obj? ==> RequiredOk(obj, Single(key, v))
    ensures key != "additionalProperties" ==> !ForbidsOthers(Single(key, v))
  {
    forall k ensures Kw(Single(key, v), k) <==> k == key { SingleHas(key, v, k); }
    SingleHas(key, v, key);
    hide IsLocal, Kw, Val, CheckType, ConstEq;
  }

  /** A constant, and a list of constants. */
  lemma ConstMeans(obj: Json, v: Json, n: Node, env: Env, ranks: map<Node, nat>)
    requires Alone("const", v, n, env, ranks)
    ensures Sat(obj, n, env, ranks) <==> ConstEq(obj, v)
  {
    SatAlone(obj, "const", v, n, env, ranks);
    OthersAllow(obj, "const", v, env);
    hide Sat, ShapeOk, StringOk, NumberOk, RequiredOk, ForbidsOthers, ConstEq;
  }

  lemma EnumMeans(obj: Json, values: seq<Json>, n: Node, env: Env, ranks: map<Node, nat>)
    requires Alone("enum", Arr(values), n, env, ranks)
    ensures Sat(obj, n, env, ranks) <==> exists i :: 0 <= i < |values| && ConstEq(obj, values[i])
  {
    SatAlone(obj, "enum", Arr(values), n, env, ranks);
    OthersAllow(obj, "enum", Arr(values), env);
    hide Sat, ShapeOk, StringOk, NumberOk, RequiredOk, ForbidsOthers, ConstEq;
  }

  /** Bounds are inclusive and concern numbers only, booleans not being numbers. */
  lemma BoundsMean(obj: Json, bound: Json, n: Node, env: Env, ranks: map<Node, nat>)
    requires IsNumeric(bound)
    ensures Alone("minimum", bound, n, env, ranks) ==>
              (Sat(obj, n, env, ranks) <==> ((obj.Int? ==> obj.i as real >= Number(bound)) && (obj.Float? ==> obj.r >= Number(bound))))
    ensures Alone("maximum", bound, n, env, ranks) ==>
              (Sat(obj, n, env, ranks) <==> ((obj.Int? ==> obj.i as real <= Number(bound)) && (obj.Float? ==> obj.r <= Number(bound))))
  {
    if Alone("minimum", bound, n, env, ranks) {
      SatAlone(obj, "minimum", bound, n, env, ranks);
      OthersAllow(obj, "minimum", bound, env);
      NumberAlone(obj, "minimum", bound);
    }
    if Alone("maximum", bound, n, env, ranks) {
      SatAlone(obj, "maximum", bound, n, env, ranks);
      OthersAllow(obj, "maximum", bound, env);
      NumberAlone(obj, "maximum", bound);
    }
    hide Sat, ShapeOk, StringOk, NumberOk, RequiredOk, ForbidsOthers, IsLocal, WellTyped;
  }

  lemma NumberAlone(obj: Json, key: string, bound: Json)
    requires WellTyped(Single(key, bound)) && IsNumeric(bound)
    ensures key == "minimum" ==> (NumberOk(obj, Single(key, bound)) <==> (obj.Int? || obj.Float? ==> Number(obj) >= Number(bound)))
    ensures key == "maximum" ==> (NumberOk(obj, Single(key, bound)) <==> (obj.Int? || obj.Float? ==> Number(obj) <= Number(bound)))
  {
    SingleHas(key, bound, "minimum");
    SingleHas(key, bound, "maximum");
  }

  /** A least length and a pattern concern texts only. */
  lemma TextsMean(obj: Json, v: Json, n: Node, env: Env, ranks: map<Node, nat>)
    ensures IsNumeric(v) && Alone("minLength", v, n, env, ranks) ==>
              (Sat(obj, n, env, ranks) <==> (obj.Str? ==> |obj.s| as real >= Number(v)))
    ensures v.Str? && Alone("pattern", v, n, env, ranks) ==>
              (Sat(obj, n, env, ranks) <==> (obj.Str? ==> env.search(v.s, obj.s) == Some(true)))
  {
    if IsNumeric(v) && Alone("minLength", v, n, env, ranks) {
      SatAlone(obj, "minLength", v, n, env, ranks);
      OthersAllow(obj, "minLength", v, env);
      StringAlone(obj, "minLength", v, env);
    }
    if v.Str? && Alone("pattern", v, n, env, ranks) {
      SatAlone(obj, "pattern", v, n, env, ranks);
      OthersAllow(obj, "pattern", v, env);
      StringAlone(obj, "pattern", v, env);
    }
    hide Sat, ShapeOk, StringOk, NumberOk, RequiredOk, ForbidsOthers, IsLocal, WellTyped;
  }

  lemma StringAlone(obj: Json, key: string, v: Json, env: Env)
    requires WellTyped(Single(key, v))
    ensures key == "minLength" && IsNumeric(v) ==>
              (StringOk(obj, Single(key, v), env) <==> (obj.Str? ==> |obj.s| as real >= Number(v)))
    ensures key == "pattern" && v.Str? ==>
              (StringOk(obj, Single(key, v), env) <==> (obj.Str? ==> env.search(v.s, obj.s) == Some(true)))
  {
    SingleHas(key, v, "minLength");
    SingleHas(key, v, "pattern");
  }

  /** Required names must be there, in an object. */
  lemma RequiredMeans(obj: Json, names: seq<Json>, n: Node, env: Env, ranks: map<Node, nat>)
    requires Alone("required", Arr(names), n, env, ranks) && AllStrings(names)
    ensures Sat(obj, n, env, ranks) <==> (obj.Obj? ==> forall i :: 0 <= i < |names| ==> Has(obj.fields, names[i].s))
  {
    SatAlone(obj, "required", Arr(names), n, env, ranks);
    OthersAllow(obj, "required", Arr(names), env);
    SingleHas("required", Arr(names), "required");
    hide Sat, ShapeOk, StringOk, NumberOk, ForbidsOthers, Has;
  }

  /** Without properties, `additionalProperties` of false leaves the empty object. */
  lemma ClosedMeans(obj: Json, v: Json, n: Node, env: Env, ranks: map<Node, nat>)
    requires Alone("additionalProperties", v, n, env, ranks)
    ensures Sat(obj, n, env, ranks) <==> (v == Bool(false) && obj.Obj? ==> obj.fields == [])
  {
    SatAlone(obj, "additionalProperties", v, n, env, ranks);
    OthersAllow(obj, "additionalProperties", v, env);
    SingleHas("additionalProperties", v, "additionalProperties");
    hide Sat, ShapeOk, StringOk, NumberOk, RequiredOk;
  }
}
