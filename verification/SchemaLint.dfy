/** The protocol linter's JSON Schema validator. */
module SchemaLint {
  import opened Text
  import opened Json

  /** A schema together with the document its internal references resolve against. */
  datatype Node = Node(schema: Json, root: Json)

  /** The outside world: sibling schema files by name, and regular-expression search, which
      yields nothing for an invalid pattern. */
  datatype Env = Env(files: string -> Option<Json>, search: (string, string) -> Option<bool>)

  /** Where an error is, and which keyword raised it. */
  datatype Violation = Violation(path: seq<string>, keyword: string)

  // ---------------------------------------------------------------------
  // Keywords
  // ---------------------------------------------------------------------

  predicate Kw(schema: Json, key: string) { schema.Obj? && Has(schema.fields, key) }

  function Val(schema: Json, key: string): Json
    requires Kw(schema, key)
  {
    Get(schema.fields, key)
  }

  /** The keyword's list of subschemas, empty if the keyword is absent. */
  function Subs(schema: Json, key: string): seq<Json> {
    if Kw(schema, key) && Val(schema, key).Arr? then Val(schema, key).items else []
  }

  function Props(schema: Json): seq<Field> {
    if Kw(schema, "properties") && Val(schema, "properties").Obj? then Val(schema, "properties").fields else []
  }

  predicate AllStrings(items: seq<Json>) { forall i :: 0 <= i < |items| ==> items[i].Str? }

  /** The keyword types without which the program would raise an exception. */
  predicate WellTyped(s: Json) {
    && (Kw(s, "$ref") ==> Val(s, "$ref").Str?)
    && (Kw(s, "enum") ==> Val(s, "enum").Arr?)
    && (Kw(s, "minLength") ==> IsNumeric(Val(s, "minLength")))
    && (Kw(s, "pattern") ==> Val(s, "pattern").Str?)
    && (Kw(s, "minimum") ==> IsNumeric(Val(s, "minimum")))
    && (Kw(s, "maximum") ==> IsNumeric(Val(s, "maximum")))
    && (Kw(s, "required") ==> Val(s, "required").Arr? && AllStrings(Val(s, "required").items))
    && (Kw(s, "properties") ==> Val(s, "properties").Obj?)
    && (Kw(s, "oneOf") ==> Val(s, "oneOf").Arr?)
    && (Kw(s, "anyOf") ==> Val(s, "anyOf").Arr?)
    && (Kw(s, "allOf") ==> Val(s, "allOf").Arr?)
  }

  // ---------------------------------------------------------------------
  // Types and constants
  // ---------------------------------------------------------------------

  /** `_check_type`; unknown type names are accepted. */
  predicate CheckType(obj: Json, t: Json)
    decreases t
  {
    match t
    case Arr(items) => exists i :: 0 <= i < |items| && CheckType(obj, items[i])
    case Str(name) =>
      if name == "object" then obj.Obj?
      else if name == "array" then obj.Arr?
      else if name == "string" then obj.Str?
      else if name == "integer" then obj.Int?
      else if name == "number" then obj.Int? || obj.Float?
      else if name == "boolean" then obj.Bool?
      else if name == "null" then obj.Null?
      else true
    case _ => true
  }

  /** `_const_eq`: a boolean never equals a number, at the top level. */
  predicate ConstEq(a: Json, b: Json) {
    if a.Bool? || b.Bool? then a.Bool? && b.Bool? && a == b else PyEq(a, b)
  }

  // ---------------------------------------------------------------------
  // References
  // ---------------------------------------------------------------------

  function StripSlashes(s: string): string {
    if s != "" && s[0] == '/' then StripSlashes(s[1..]) else s
  }

  /** Down the keys; with `stop`, an empty part ends the walk. */
  function Walk(node: Json, parts: seq<string>, stop: bool): Option<Json> {
    if parts == [] || (stop && parts[0] == "") then Some(node)
    else if Kw(node, parts[0]) then Walk(Val(node, parts[0]), parts[1..], stop)
    else None
  }

  predicate StartsWith(s: string, prefix: string) { |prefix| <= |s| && s[..|prefix|] == prefix }

  /** Python's None doubles as "unresolved", so a reference to a JSON null fails. */
  function NotNull(j: Option<Json>, root: Json): Option<Node> {
    if j.Some? && !j.value.Null? then Some(Node(j.value, root)) else None
  }

  function Resolve(ref: string, root: Json, env: Env): Option<Node> {
    if StartsWith(ref, "#/") then NotNull(Walk(root, Split(ref[2..], '/'), false), root)
    else if '#' in ref && UpTo(ref, '#') != "" then
      UpToIsPrefix(ref, '#');
      var file := UpTo(ref, '#');
      match env.files(file)
      case None => None
      case Some(sibling) =>
        var fragment := if |file| < |ref| then ref[|file| + 1..] else "";
        NotNull(Walk(sibling, Split(StripSlashes(fragment), '/'), true), sibling)
    else None
  }

  /** `_resolve_ref`. */
  method ResolveRef(ref: string, root: Json, env: Env) returns (r: Option<Node>)
    ensures r == Resolve(ref, root, env)
  {
    if StartsWith(ref, "#/") {
      var node := WalkParts(root, Split(ref[2..], '/'), false);
      return NotNull(node, root);
    }
    if '#' in ref {
      UpToIsPrefix(ref, '#');
      var file := UpTo(ref, '#');
      if file != "" {
        var sibling := env.files(file);
        if sibling.None? { return None; }
        var fragment := if |file| < |ref| then ref[|file| + 1..] else "";
        var node := WalkParts(sibling.value, Split(StripSlashes(fragment), '/'), true);
        return NotNull(node, sibling.value);
      }
    }
    return None;
  }

  method WalkParts(start: Json, parts: seq<string>, stop: bool) returns (r: Option<Json>)
    ensures r == Walk(start, parts, stop)
  {
    var node := start;
    for i := 0 to |parts|
      invariant Walk(start, parts, stop) == Walk(node, parts[i..], stop)
    {
      assert parts[i..][1..] == parts[i + 1..] && parts[i..][0] == parts[i];
      if stop && parts[i] == "" { break; }
      if !Kw(node, parts[i]) { return None; }
      node := Val(node, parts[i]);
    }
    r := Some(node);
  }

  // ---------------------------------------------------------------------
  // Steps between nodes, and when validation terminates
  // ---------------------------------------------------------------------

  /** Validating at `n` validates the same value at `m`. */
  ghost predicate InPlace(n: Node, m: Node, env: Env) {
    if Kw(n.schema, "$ref") then Val(n.schema, "$ref").Str? && Resolve(Val(n.schema, "$ref").s, n.root, env) == Some(m)
    else
      && m.root == n.root
      && (m.schema in Subs(n.schema, "oneOf") || m.schema in Subs(n.schema, "anyOf") || m.schema in Subs(n.schema, "allOf")
          || (Kw(n.schema, "if") && exists key | key in ["if", "then", "else"] ::
                Follows(n.schema, key) && Val(n.schema, key) == m.schema))
  }

  /** The condition, or a consequence: those are followed only if there is a condition, and
      only if they are objects. */
  predicate Follows(schema: Json, key: string) {
    && key in ["if", "then", "else"] && Kw(schema, "if") && Kw(schema, key)
    && (key != "if" ==> Val(schema, key).Obj?)
  }

  predicate IsBranch(schema: Json, key: string, sub: Json) { Kw(schema, key) && Val(schema, key) == sub }

  /** Validating at `n` validates parts of the value at `m`. */
  ghost predicate Descends(n: Node, m: Node) {
    && !Kw(n.schema, "$ref") && m.root == n.root
    && ((exists i :: 0 <= i < |Props(n.schema)| && Props(n.schema)[i].value == m.schema)
        || (IsBranch(n.schema, "items", m.schema) && m.schema.Obj?))
  }

  /** A ranking of the nodes that validation can reach, in which every in-place step goes
      down: there is one exactly when every cycle of steps descends into the value. */
  ghost predicate Ranked(ranks: map<Node, nat>, env: Env) {
    && (forall n :: n in ranks ==> WellTyped(n.schema))
    && (forall n, m :: n in ranks && InPlace(n, m, env) ==> m in ranks && ranks[m] < ranks[n])
    && (forall n, m :: n in ranks && Descends(n, m) ==> m in ranks)
  }

  // ---------------------------------------------------------------------
  // Satisfaction
  // ---------------------------------------------------------------------

  predicate ShapeOk(obj: Json, s: Json)
    requires WellTyped(s)
  {
    && (Kw(s, "type") ==> CheckType(obj, Val(s, "type")))
    && (Kw(s, "const") ==> ConstEq(obj, Val(s, "const")))
    && (Kw(s, "enum") ==> exists i :: 0 <= i < |Val(s, "enum").items| && ConstEq(obj, Val(s, "enum").items[i]))
  }

  predicate StringOk(obj: Json, s: Json, env: Env)
    requires WellTyped(s)
  {
    obj.Str? ==>
      && (Kw(s, "minLength") ==> |obj.s| as real >= Number(Val(s, "minLength")))
      && (Kw(s, "pattern") ==> env.search(Val(s, "pattern").s, obj.s) == Some(true))
  }

  predicate NumberOk(obj: Json, s: Json)
    requires WellTyped(s)
  {
    obj.Int? || obj.Float? ==>
      && (Kw(s, "minimum") ==> Number(obj) >= Number(Val(s, "minimum")))
      && (Kw(s, "maximum") ==> Number(obj) <= Number(Val(s, "maximum")))
  }

  predicate RequiredOk(obj: Json, s: Json)
    requires obj.Obj? && WellTyped(s)
  {
    Kw(s, "required") ==> forall i :: 0 <= i < |Val(s, "required").items| ==> Has(obj.fields, Val(s, "required").items[i].s)
  }

  predicate ForbidsOthers(s: Json) { Kw(s, "additionalProperties") && Val(s, "additionalProperties") == Bool(false) }

  /** The value satisfies the schema. Siblings of `$ref` are ignored; `oneOf` wants exactly
      one branch. */
  ghost predicate Sat(obj: Json, n: Node, env: Env, ranks: map<Node, nat>)
    requires Ranked(ranks, env) && n in ranks
    decreases obj, ranks[n], 3
  {
    var s := n.schema;
    if !s.Obj? then true
    else if Kw(s, "$ref") then
      match Resolve(Val(s, "$ref").s, n.root, env)
      case None => false
      case Some(m) => assert InPlace(n, m, env); Sat(obj, m, env, ranks)
    else
      && ShapeOk(obj, s) && StringOk(obj, s, env) && NumberOk(obj, s)
      && (obj.Obj? ==> RequiredOk(obj, s) && FieldsSat(obj, n, env, ranks))
      && (obj.Arr? && Kw(s, "items") && Val(s, "items").Obj? ==> ItemsSat(obj, n, env, ranks))
      && (Kw(s, "oneOf") ==> OneOfSat(obj, n, env, ranks))
      && (Kw(s, "anyOf") ==> AnyOfSat(obj, n, env, ranks))
      && (Kw(s, "if") ==> ConditionalSat(obj, n, env, ranks))
      && (Kw(s, "allOf") ==> AllOfSat(obj, n, env, ranks))
  }

  /** Exactly one branch is satisfied. */
  ghost predicate OneOfSat(obj: Json, n: Node, env: Env, ranks: map<Node, nat>)
    requires Ranked(ranks, env) && n in ranks && !Kw(n.schema, "$ref")
    decreases obj, ranks[n], 2
  {
    exists i :: OnlyBranchSat(obj, n, i, env, ranks)
  }

  ghost predicate OnlyBranchSat(obj: Json, n: Node, i: int, env: Env, ranks: map<Node, nat>)
    requires Ranked(ranks, env) && n in ranks && !Kw(n.schema, "$ref")
    decreases obj, ranks[n], 1
  {
    && BranchSat(obj, n, "oneOf", i, env, ranks)
    && forall j :: BranchSat(obj, n, "oneOf", j, env, ranks) ==> j == i
  }

  ghost predicate AnyOfSat(obj: Json, n: Node, env: Env, ranks: map<Node, nat>)
    requires Ranked(ranks, env) && n in ranks && !Kw(n.schema, "$ref")
    decreases obj, ranks[n], 1
  {
    exists i :: BranchSat(obj, n, "anyOf", i, env, ranks)
  }

  ghost predicate AllOfSat(obj: Json, n: Node, env: Env, ranks: map<Node, nat>)
    requires Ranked(ranks, env) && n in ranks && !Kw(n.schema, "$ref")
    decreases obj, ranks[n], 1
  {
    forall i :: 0 <= i < |Subs(n.schema, "allOf")| ==> BranchSat(obj, n, "allOf", i, env, ranks)
  }

  /** `then` applies when the condition is satisfied, `else` when it is not; either is
      ignored if absent or not an object. */
  ghost predicate ConditionalSat(obj: Json, n: Node, env: Env, ranks: map<Node, nat>)
    requires Ranked(ranks, env) && n in ranks && !Kw(n.schema, "$ref") && Kw(n.schema, "if")
    decreases obj, ranks[n], 1
  {
    var s := n.schema;
    if OneSat(obj, n, "if", env, ranks)
    then Kw(s, "then") && Val(s, "then").Obj? ==> OneSat(obj, n, "then", env, ranks)
    else Kw(s, "else") && Val(s, "else").Obj? ==> OneSat(obj, n, "else", env, ranks)
  }

  /** Every field satisfies its property schema, or is unnamed and allowed. */
  ghost predicate FieldsSat(obj: Json, n: Node, env: Env, ranks: map<Node, nat>)
    requires Ranked(ranks, env) && n in ranks && obj.Obj? && n.schema.Obj? && !Kw(n.schema, "$ref")
    decreases obj, ranks[n], 1
  {
    forall i :: 0 <= i < |obj.fields| ==> FieldSat(obj, n, i, env, ranks)
  }

  ghost predicate FieldSat(obj: Json, n: Node, i: nat, env: Env, ranks: map<Node, nat>)
    requires Ranked(ranks, env) && n in ranks && obj.Obj? && !Kw(n.schema, "$ref") && i < |obj.fields|
    decreases obj, 0, 0
  {
    var f, props := obj.fields[i], Props(n.schema);
    if Has(props, f.key) then
      assert Descends(n, Node(Get(props, f.key), n.root));
      Sat(f.value, Node(Get(props, f.key), n.root), env, ranks)
    else !ForbidsOthers(n.schema)
  }

  ghost predicate ItemsSat(obj: Json, n: Node, env: Env, ranks: map<Node, nat>)
    requires Ranked(ranks, env) && n in ranks && obj.Arr? && !Kw(n.schema, "$ref")
    requires Kw(n.schema, "items") && Val(n.schema, "items").Obj?
    decreases obj, ranks[n], 0
  {
    var m := Node(Val(n.schema, "items"), n.root);
    assert Descends(n, m);
    forall i :: 0 <= i < |obj.items| ==> Sat(obj.items[i], m, env, ranks)
  }

  /** There is an i-th branch under the keyword and the value satisfies it. */
  ghost predicate BranchSat(obj: Json, n: Node, key: string, i: int, env: Env, ranks: map<Node, nat>)
    requires Ranked(ranks, env) && n in ranks && !Kw(n.schema, "$ref") && key in ["oneOf", "anyOf", "allOf"]
    decreases obj, ranks[n], 0
  {
    && 0 <= i < |Subs(n.schema, key)|
    && (assert InPlace(n, Node(Subs(n.schema, key)[i], n.root), env);
        Sat(obj, Node(Subs(n.schema, key)[i], n.root), env, ranks))
  }

  ghost predicate OneSat(obj: Json, n: Node, key: string, env: Env, ranks: map<Node, nat>)
    requires Ranked(ranks, env) && n in ranks && !Kw(n.schema, "$ref") && Follows(n.schema, key)
    decreases obj, ranks[n], 0
  {
    assert InPlace(n, Node(Val(n.schema, key), n.root), env);
    Sat(obj, Node(Val(n.schema, key), n.root), env, ranks)
  }

  // ---------------------------------------------------------------------
  // The validator
  // ---------------------------------------------------------------------

  /** Every error lies at the path or below it. */
  predicate Under(path: seq<string>, errors: seq<Violation>) {
    forall i :: 0 <= i < |errors| ==> path <= errors[i].path
  }

  method CheckShape(obj: Json, s: Json, path: seq<string>) returns (errors: seq<Violation>)
    requires WellTyped(s)
    ensures errors == [] <==> ShapeOk(obj, s)
    ensures Under(path, errors)
  {
    hide CheckType, ConstEq, Has, Get;
    var found := true;
    if Kw(s, "enum") { found := InEnum(obj, Val(s, "enum").items); }
    errors := [];
    if Kw(s, "type") && !CheckType(obj, Val(s, "type")) {
      errors := errors + [Violation(path, "type")];
    }
    if Kw(s, "const") && !ConstEq(obj, Val(s, "const")) {
      errors := errors + [Violation(path, "const")];
    }
    if Kw(s, "enum") && !found {
      errors := errors + [Violation(path, "enum")];
    }
  }

  method CheckString(obj: Json, s: Json, path: seq<string>, env: Env) returns (errors: seq<Violation>)
    requires WellTyped(s)
    ensures errors == [] <==> StringOk(obj, s, env)
    ensures Under(path, errors)
  {
    hide Kw, Val;
    errors := [];
    if Kw(s, "minLength") && obj.Str? && |obj.s| as real < Number(Val(s, "minLength")) {
      errors := errors + [Violation(path, "minLength")];
    }
    if Kw(s, "pattern") && obj.Str? {
      match env.search(Val(s, "pattern").s, obj.s) {
        case None => errors := errors + [Violation(path, "invalid pattern")];
        case Some(matched) => if !matched { errors := errors + [Violation(path, "pattern")]; }
      }
    }
  }

  method CheckNumber(obj: Json, s: Json, path: seq<string>) returns (errors: seq<Violation>)
    requires WellTyped(s)
    ensures errors == [] <==> NumberOk(obj, s)
    ensures Under(path, errors)
  {
    hide Kw, Val;
    errors := [];
    if obj.Int? || obj.Float? {
      if Kw(s, "minimum") && Number(obj) < Number(Val(s, "minimum")) {
        errors := errors + [Violation(path, "minimum")];
      }
      if Kw(s, "maximum") && Number(obj) > Number(Val(s, "maximum")) {
        errors := errors + [Violation(path, "maximum")];
      }
    }
  }

  method InEnum(obj: Json, values: seq<Json>) returns (found: bool)
    ensures found <==> exists i :: 0 <= i < |values| && ConstEq(obj, values[i])
  {
    for i := 0 to |values|
      invariant forall j :: 0 <= j < i ==> !ConstEq(obj, values[j])
    {
      if ConstEq(obj, values[i]) { return true; }
    }
    return false;
  }

  method CheckRequired(obj: Json, s: Json, path: seq<string>) returns (errors: seq<Violation>)
    requires obj.Obj? && WellTyped(s)
    ensures errors == [] <==> RequiredOk(obj, s)
    ensures Under(path, errors)
  {
    errors := [];
    if Kw(s, "required") {
      var names := Val(s, "required").items;
      for i := 0 to |names|
        invariant errors == [] <==> forall j :: 0 <= j < i ==> Has(obj.fields, names[j].s)
        invariant Under(path, errors)
      {
        if !Has(obj.fields, names[i].s) {
          errors := errors + [Violation(path, "required")];
        }
      }
    }
  }

  /** `_validate`: the errors of a value against a schema. It terminates on every ranked
      schema, and finds no error exactly when the value satisfies the schema. */
  method Validate(obj: Json, n: Node, path: seq<string>, env: Env, ghost ranks: map<Node, nat>)
    returns (errors: seq<Violation>)
    requires Ranked(ranks, env) && n in ranks
    ensures errors == [] <==> Sat(obj, n, env, ranks)
    ensures Under(path, errors)
    decreases obj, ranks[n], 2
  {
    var s := n.schema;
    if !s.Obj? {
      return [];
    }
    if Kw(s, "$ref") {
      var resolved := ResolveRef(Val(s, "$ref").s, n.root, env);
      if resolved.None? {
        return [Violation(path, "$ref")];
      }
      assert InPlace(n, resolved.value, env);
      errors := Validate(obj, resolved.value, path, env, ranks);
      return;
    }
    errors := ValidatePlain(obj, n, path, env, ranks);
  }

  /** A schema object without `$ref`. */
  method ValidatePlain(obj: Json, n: Node, path: seq<string>, env: Env, ghost ranks: map<Node, nat>)
    returns (errors: seq<Violation>)
    requires Ranked(ranks, env) && n in ranks && n.schema.Obj? && !Kw(n.schema, "$ref") && WellTyped(n.schema)
    ensures errors == [] <==>
              && ShapeOk(obj, n.schema) && StringOk(obj, n.schema, env) && NumberOk(obj, n.schema)
              && PartsSat(obj, n, env, ranks) && CombinedSat(obj, n, env, ranks)
    ensures Under(path, errors)
    decreases obj, ranks[n], 1, 2
  {
    hide ShapeOk, StringOk, NumberOk, PartsSat, CombinedSat, WellTyped, Ranked, Kw;
    var shape := CheckShape(obj, n.schema, path);
    var text := CheckString(obj, n.schema, path, env);
    var number := CheckNumber(obj, n.schema, path);
    var parts := ValidateParts(obj, n, path, env, ranks);
    var combined := ValidateCombined(obj, n, path, env, ranks);
    errors := shape + text + number + parts + combined;
  }

  /** What the keywords about parts of the value ask for. */
  ghost predicate PartsSat(obj: Json, n: Node, env: Env, ranks: map<Node, nat>)
    requires Ranked(ranks, env) && n in ranks && n.schema.Obj? && !Kw(n.schema, "$ref")
  {
    && (obj.Obj? ==> RequiredOk(obj, n.schema) && FieldsSat(obj, n, env, ranks))
    && (obj.Arr? && Kw(n.schema, "items") && Val(n.schema, "items").Obj? ==> ItemsSat(obj, n, env, ranks))
  }

  method ValidateParts(obj: Json, n: Node, path: seq<string>, env: Env, ghost ranks: map<Node, nat>)
    returns (errors: seq<Violation>)
    requires Ranked(ranks, env) && n in ranks && n.schema.Obj? && !Kw(n.schema, "$ref")
    ensures errors == [] <==> PartsSat(obj, n, env, ranks)
    ensures Under(path, errors)
    decreases obj, ranks[n], 1, 1
  {
    errors := [];
    if obj.Obj? {
      var missing := CheckRequired(obj, n.schema, path);
      var inside := ValidateFields(obj, n, path, env, ranks);
      hide RequiredOk, FieldsSat;
      errors := missing + inside;
    } else if obj.Arr? && Kw(n.schema, "items") && Val(n.schema, "items").Obj? {
      errors := ValidateItems(obj, n, path, env, ranks);
    }
  }

  /** The fields of an object against `properties` and `additionalProperties`. */
  method ValidateFields(obj: Json, n: Node, path: seq<string>, env: Env, ghost ranks: map<Node, nat>)
    returns (errors: seq<Violation>)
    requires Ranked(ranks, env) && n in ranks && obj.Obj? && n.schema.Obj? && !Kw(n.schema, "$ref")
    ensures errors == [] <==> FieldsSat(obj, n, env, ranks)
    ensures Under(path, errors)
    decreases obj, ranks[n], 0, 1
  {
    hide Ranked, Kw, Sat;
    errors := [];
    for i := 0 to |obj.fields|
      invariant errors == [] <==> forall j :: 0 <= j < i ==> FieldSat(obj, n, j, env, ranks)
      invariant Under(path, errors)
    {
      var below := ValidateField(obj, n, i, path, env, ranks);
      errors := errors + below;
    }
    assert errors == [] <==> forall j :: 0 <= j < |obj.fields| ==> FieldSat(obj, n, j, env, ranks);
    FieldsMean(obj, n, env, ranks);
    assert errors == [] <==> FieldsSat(obj, n, env, ranks);
  }

  lemma FieldsMean(obj: Json, n: Node, env: Env, ranks: map<Node, nat>)
    requires Ranked(ranks, env) && n in ranks && obj.Obj? && n.schema.Obj? && !Kw(n.schema, "$ref")
    ensures FieldsSat(obj, n, env, ranks) ==> forall j :: 0 <= j < |obj.fields| ==> FieldSat(obj, n, j, env, ranks)
    ensures (forall j :: 0 <= j < |obj.fields| ==> FieldSat(obj, n, j, env, ranks)) ==> FieldsSat(obj, n, env, ranks)
  {
  }

  method ValidateField(obj: Json, n: Node, i: nat, path: seq<string>, env: Env, ghost ranks: map<Node, nat>)
    returns (errors: seq<Violation>)
    requires Ranked(ranks, env) && n in ranks && obj.Obj? && !Kw(n.schema, "$ref") && i < |obj.fields|
    ensures errors == [] <==> FieldSat(obj, n, i, env, ranks)
    ensures Under(path, errors)
    ensures if Has(Props(n.schema), obj.fields[i].key) then Under(path + [obj.fields[i].key], errors)
            else errors == [] || errors == [Violation(path, "additionalProperties")]
    decreases obj, 0, 0, 0
  {
    var f, props := obj.fields[i], Props(n.schema);
    if Has(props, f.key) {
      var m := Node(Get(props, f.key), n.root);
      assert Descends(n, m);
      errors := Validate(f.value, m, path + [f.key], env, ranks);
    } else if ForbidsOthers(n.schema) {
      errors := [Violation(path, "additionalProperties")];
    } else {
      errors := [];
    }
  }

  /** Every error lies at or below one of the first `n` items. */
  predicate UnderItems(path: seq<string>, n: nat, errors: seq<Violation>) {
    forall k :: 0 <= k < |errors| ==> UnderItem(path, n, errors[k])
  }

  predicate UnderItem(path: seq<string>, n: nat, error: Violation) {
    exists j: nat :: j < n && path + [Decimal(j)] <= error.path
  }

  lemma ItemsBelow(path: seq<string>, i: nat, errors: seq<Violation>, below: seq<Violation>)
    requires UnderItems(path, i, errors) && Under(path + [Decimal(i)], below)
    ensures UnderItems(path, i + 1, errors + below)
  {
    hide Decimal;
    forall k | 0 <= k < |errors| ensures UnderItem(path, i + 1, errors[k]) {
      assert UnderItem(path, i, errors[k]);
    }
    forall k | 0 <= k < |below| ensures UnderItem(path, i + 1, below[k]) {
      assert path + [Decimal(i)] <= below[k].path;
    }
  }

  method ValidateItems(obj: Json, n: Node, path: seq<string>, env: Env, ghost ranks: map<Node, nat>)
    returns (errors: seq<Violation>)
    requires Ranked(ranks, env) && n in ranks && obj.Arr? && !Kw(n.schema, "$ref")
    requires Kw(n.schema, "items") && Val(n.schema, "items").Obj?
    ensures errors == [] <==> ItemsSat(obj, n, env, ranks)
    ensures Under(path, errors)
    ensures UnderItems(path, |obj.items|, errors)
    decreases obj, ranks[n], 0, 1
  {
    errors := [];
    var m := Node(Val(n.schema, "items"), n.root);
    assert Descends(n, m);
    for i := 0 to |obj.items|
      invariant errors == [] <==> forall j :: 0 <= j < i ==> Sat(obj.items[j], m, env, ranks)
      invariant Under(path, errors)
      invariant UnderItems(path, i, errors)
    {
      hide UnderItems;
      var below := Validate(obj.items[i], m, path + [Decimal(i)], env, ranks);
      ItemsBelow(path, i, errors, below);
      errors := errors + below;
    }
  }

  function CountTrue(flags: seq<bool>): nat {
    if flags == [] then 0 else CountTrue(flags[..|flags| - 1]) + if flags[|flags| - 1] then 1 else 0
  }

  lemma {:induction false} NoneTrue(flags: seq<bool>)
    ensures CountTrue(flags) == 0 <==> forall i :: 0 <= i < |flags| ==> !flags[i]
  {
    if flags != [] {
      var rest := flags[..|flags| - 1];
      NoneTrue(rest);
      assert forall i :: 0 <= i < |rest| ==> rest[i] == flags[i];
    }
  }

  predicate OnlyTrue(flags: seq<bool>, i: int) {
    0 <= i < |flags| && flags[i] && forall j :: 0 <= j < |flags| && flags[j] ==> j == i
  }

  lemma {:induction false} OneTrue(flags: seq<bool>)
    ensures CountTrue(flags) == 1 <==> exists i :: OnlyTrue(flags, i)
  {
    if flags != [] {
      var n := |flags| - 1;
      var rest := flags[..n];
      NoneTrue(rest);
      OneTrue(rest);
      assert forall i :: 0 <= i < n ==> rest[i] == flags[i];
      if flags[n] {
        if CountTrue(rest) == 0 { assert OnlyTrue(flags, n); }
      } else {
        if i :| OnlyTrue(rest, i) { assert OnlyTrue(flags, i); }
        if i :| OnlyTrue(flags, i) { assert OnlyTrue(rest, i); }
      }
    }
  }

  /** Counts the satisfied branches of `oneOf`. */
  method CountBranches(obj: Json, n: Node, path: seq<string>, env: Env, ghost ranks: map<Node, nat>)
    returns (matches: nat, ghost flags: seq<bool>)
    requires Ranked(ranks, env) && n in ranks && !Kw(n.schema, "$ref")
    ensures matches == CountTrue(flags) && |flags| == |Subs(n.schema, "oneOf")|
    ensures forall i :: 0 <= i < |flags| ==> flags[i] == BranchSat(obj, n, "oneOf", i, env, ranks)
    decreases obj, ranks[n], 0, 1
  {
    hide BranchSat, Ranked, Subs;
    matches, flags := 0, [];
    for i := 0 to |Subs(n.schema, "oneOf")|
      invariant matches == CountTrue(flags) && |flags| == i
      invariant forall j :: 0 <= j < i ==> flags[j] == BranchSat(obj, n, "oneOf", j, env, ranks)
    {
      var below := ValidateBranch(obj, n, "oneOf", i, path, env, ranks);
      if below == [] {
        matches := matches + 1;
      }
      ghost var before := flags;
      flags := flags + [below == []];
      assert flags[..i] == before;
    }
  }

  method ValidateBranch(obj: Json, n: Node, key: string, i: nat, path: seq<string>, env: Env, ghost ranks: map<Node, nat>)
    returns (errors: seq<Violation>)
    requires Ranked(ranks, env) && n in ranks && !Kw(n.schema, "$ref") && key in ["oneOf", "anyOf", "allOf"]
    requires i < |Subs(n.schema, key)|
    ensures errors == [] <==> BranchSat(obj, n, key, i, env, ranks)
    ensures Under(path, errors)
    decreases obj, ranks[n], 0, 0
  {
    var m := Node(Subs(n.schema, key)[i], n.root);
    assert InPlace(n, m, env);
    errors := Validate(obj, m, path, env, ranks);
  }

  method ValidateOne(obj: Json, n: Node, key: string, path: seq<string>, env: Env, ghost ranks: map<Node, nat>)
    returns (errors: seq<Violation>)
    requires Ranked(ranks, env) && n in ranks && !Kw(n.schema, "$ref") && Follows(n.schema, key)
    ensures errors == [] <==> OneSat(obj, n, key, env, ranks)
    ensures Under(path, errors)
    decreases obj, ranks[n], 0, 0
  {
    assert InPlace(n, Node(Val(n.schema, key), n.root), env);
    errors := Validate(obj, Node(Val(n.schema, key), n.root), path, env, ranks);
  }

  method ValidateOneOf(obj: Json, n: Node, path: seq<string>, env: Env, ghost ranks: map<Node, nat>)
    returns (errors: seq<Violation>)
    requires Ranked(ranks, env) && n in ranks && !Kw(n.schema, "$ref")
    ensures errors == [] <==> OneOfSat(obj, n, env, ranks)
    ensures Under(path, errors)
    decreases obj, ranks[n], 1, 0
  {
    var matches, flags := CountBranches(obj, n, path, env, ranks);
    errors := if matches != 1 then [Violation(path, "oneOf")] else [];
    OneTrue(flags);
    FlagsMeanOneOf(obj, n, env, ranks, flags);
  }

  lemma FlagsMeanOneOf(obj: Json, n: Node, env: Env, ranks: map<Node, nat>, flags: seq<bool>)
    requires Ranked(ranks, env) && n in ranks && !Kw(n.schema, "$ref") && |flags| == |Subs(n.schema, "oneOf")|
    requires forall i :: 0 <= i < |flags| ==> flags[i] == BranchSat(obj, n, "oneOf", i, env, ranks)
    ensures (exists i :: OnlyTrue(flags, i)) <==> OneOfSat(obj, n, env, ranks)
  {
    BranchesInRange(obj, n, "oneOf", env, ranks);
    hide Ranked, Subs, Kw, InPlace;
    forall i
      ensures OnlyTrue(flags, i) <==> OnlyBranchSat(obj, n, i, env, ranks)
    {
      if OnlyTrue(flags, i) {
        forall j | BranchSat(obj, n, "oneOf", j, env, ranks) ensures j == i { assert flags[j]; }
      }
    }
    assert OneOfSat(obj, n, env, ranks) <==> exists i :: OnlyBranchSat(obj, n, i, env, ranks);
  }

  lemma BranchesInRange(obj: Json, n: Node, key: string, env: Env, ranks: map<Node, nat>)
    requires Ranked(ranks, env) && n in ranks && !Kw(n.schema, "$ref") && key in ["oneOf", "anyOf", "allOf"]
    ensures forall i :: BranchSat(obj, n, key, i, env, ranks) ==> 0 <= i < |Subs(n.schema, key)|
  {
  }

  method ValidateAnyOf(obj: Json, n: Node, path: seq<string>, env: Env, ghost ranks: map<Node, nat>)
    returns (errors: seq<Violation>)
    requires Ranked(ranks, env) && n in ranks && !Kw(n.schema, "$ref")
    ensures errors == [] <==> AnyOfSat(obj, n, env, ranks)
    ensures Under(path, errors)
    decreases obj, ranks[n], 1, 0
  {
    BranchesInRange(obj, n, "anyOf", env, ranks);
    hide Ranked, Subs, Kw, InPlace;
    for i := 0 to |Subs(n.schema, "anyOf")|
      invariant forall j :: 0 <= j < i ==> !BranchSat(obj, n, "anyOf", j, env, ranks)
    {
      var below := ValidateBranch(obj, n, "anyOf", i, path, env, ranks);
      if below == [] { return []; }
    }
    errors := [Violation(path, "anyOf")];
  }

  lemma AllOfMeans(obj: Json, n: Node, env: Env, ranks: map<Node, nat>)
    requires Ranked(ranks, env) && n in ranks && !Kw(n.schema, "$ref")
    ensures AllOfSat(obj, n, env, ranks) ==>
              forall j :: 0 <= j < |Subs(n.schema, "allOf")| ==> BranchSat(obj, n, "allOf", j, env, ranks)
    ensures (forall j :: 0 <= j < |Subs(n.schema, "allOf")| ==> BranchSat(obj, n, "allOf", j, env, ranks)) ==>
              AllOfSat(obj, n, env, ranks)
  {
  }

  method ValidateAllOf(obj: Json, n: Node, path: seq<string>, env: Env, ghost ranks: map<Node, nat>)
    returns (errors: seq<Violation>)
    requires Ranked(ranks, env) && n in ranks && !Kw(n.schema, "$ref")
    ensures errors == [] <==> AllOfSat(obj, n, env, ranks)
    ensures Under(path, errors)
    decreases obj, ranks[n], 1, 0
  {
    hide Ranked, Subs, Kw, InPlace;
    errors := [];
    for i := 0 to |Subs(n.schema, "allOf")|
      invariant errors == [] <==> forall j :: 0 <= j < i ==> BranchSat(obj, n, "allOf", j, env, ranks)
      invariant Under(path, errors)
    {
      var below := ValidateBranch(obj, n, "allOf", i, path, env, ranks);
      errors := errors + below;
    }
    assert errors == [] <==>
           forall j :: 0 <= j < |Subs(n.schema, "allOf")| ==> BranchSat(obj, n, "allOf", j, env, ranks);
    AllOfMeans(obj, n, env, ranks);
    assert errors == [] <==> AllOfSat(obj, n, env, ranks);
  }

  method ValidateConditional(obj: Json, n: Node, path: seq<string>, env: Env, ghost ranks: map<Node, nat>)
    returns (errors: seq<Violation>)
    requires Ranked(ranks, env) && n in ranks && !Kw(n.schema, "$ref") && Kw(n.schema, "if")
    ensures errors == [] <==> ConditionalSat(obj, n, env, ranks)
    ensures Under(path, errors)
    decreases obj, ranks[n], 1, 0
  {
    hide Ranked, InPlace;
    var s := n.schema;
    errors := [];
    var condition := ValidateOne(obj, n, "if", path, env, ranks);
    if condition == [] {
      if Kw(s, "then") && Val(s, "then").Obj? {
        errors := ValidateOne(obj, n, "then", path, env, ranks);
      }
    } else if Kw(s, "else") && Val(s, "else").Obj? {
      errors := ValidateOne(obj, n, "else", path, env, ranks);
    }
  }

  /** What the combining keywords ask for. */
  ghost predicate CombinedSat(obj: Json, n: Node, env: Env, ranks: map<Node, nat>)
    requires Ranked(ranks, env) && n in ranks && !Kw(n.schema, "$ref")
  {
    && (Kw(n.schema, "oneOf") ==> OneOfSat(obj, n, env, ranks))
    && (Kw(n.schema, "anyOf") ==> AnyOfSat(obj, n, env, ranks))
    && (Kw(n.schema, "if") ==> ConditionalSat(obj, n, env, ranks))
    && (Kw(n.schema, "allOf") ==> AllOfSat(obj, n, env, ranks))
  }

  method ValidateCombined(obj: Json, n: Node, path: seq<string>, env: Env, ghost ranks: map<Node, nat>)
    returns (errors: seq<Violation>)
    requires Ranked(ranks, env) && n in ranks && !Kw(n.schema, "$ref")
    ensures errors == [] <==> CombinedSat(obj, n, env, ranks)
    ensures Under(path, errors)
    decreases obj, ranks[n], 1, 1
  {
    hide OneOfSat, AnyOfSat, ConditionalSat, AllOfSat, Ranked, Kw;
    var oneOf: seq<Violation>, anyOf: seq<Violation> := [], [];
    var branch: seq<Violation>, allOf: seq<Violation> := [], [];
    if Kw(n.schema, "oneOf") { oneOf := ValidateOneOf(obj, n, path, env, ranks); }
    if Kw(n.schema, "anyOf") { anyOf := ValidateAnyOf(obj, n, path, env, ranks); }
    if Kw(n.schema, "if") { branch := ValidateConditional(obj, n, path, env, ranks); }
    if Kw(n.schema, "allOf") { allOf := ValidateAllOf(obj, n, path, env, ranks); }
    errors := oneOf + anyOf + branch + allOf;
  }
}
