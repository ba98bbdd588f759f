/** When the protocol linter's validator terminates, and what its equality means. */
module SchemaLintTheorems {
  import opened Text
  import opened Json
  import opened SchemaLint
  import opened Rankings

  // ---------------------------------------------------------------------
  // Satisfaction does not depend on the ranking that bounds the recursion
  // ---------------------------------------------------------------------

  lemma {:induction false} BranchSame(obj: Json, n: Node, key: string, i: int, env: Env, a: map<Node, nat>, b: map<Node, nat>)
    requires Ranked(a, env) && n in a && Ranked(b, env) && n in b && !Kw(n.schema, "$ref") && key in ["oneOf", "anyOf", "allOf"]
    ensures BranchSat(obj, n, key, i, env, a) == BranchSat(obj, n, key, i, env, b)
    decreases obj, a[n], 0
  {
    if 0 <= i < |Subs(n.schema, key)| {
      var m := Node(Subs(n.schema, key)[i], n.root);
      assert InPlace(n, m, env);
      SatIndependentOfRanking(obj, m, env, a, b);
    }
  }

  lemma {:induction false} OneSame(obj: Json, n: Node, key: string, env: Env, a: map<Node, nat>, b: map<Node, nat>)
    requires Ranked(a, env) && n in a && Ranked(b, env) && n in b && !Kw(n.schema, "$ref")
    requires Follows(n.schema, key)
    ensures OneSat(obj, n, key, env, a) == OneSat(obj, n, key, env, b)
    decreases obj, a[n], 0
  {
    var m := Node(Val(n.schema, key), n.root);
    assert InPlace(n, m, env);
    SatIndependentOfRanking(obj, m, env, a, b);
  }

  lemma {:induction false} FieldSame(obj: Json, n: Node, i: nat, env: Env, a: map<Node, nat>, b: map<Node, nat>)
    requires Ranked(a, env) && n in a && Ranked(b, env) && n in b && obj.Obj? && !Kw(n.schema, "$ref") && i < |obj.fields|
    ensures FieldSat(obj, n, i, env, a) == FieldSat(obj, n, i, env, b)
    decreases obj, 0, 0
  {
    var f, props := obj.fields[i], Props(n.schema);
    if Has(props, f.key) {
      var m := Node(Get(props, f.key), n.root);
      assert Descends(n, m);
      SatIndependentOfRanking(f.value, m, env, a, b);
    }
  }

  lemma {:induction false} PartsSame(obj: Json, n: Node, env: Env, a: map<Node, nat>, b: map<Node, nat>)
    requires Ranked(a, env) && n in a && Ranked(b, env) && n in b && n.schema.Obj? && !Kw(n.schema, "$ref")
    ensures PartsSat(obj, n, env, a) == PartsSat(obj, n, env, b)
    decreases obj, a[n], 1
  {
    if obj.Obj? {
      forall i | 0 <= i < |obj.fields|
        ensures FieldSat(obj, n, i, env, a) == FieldSat(obj, n, i, env, b)
      {
        FieldSame(obj, n, i, env, a, b);
      }
      FieldsMean(obj, n, env, a);
      FieldsMean(obj, n, env, b);
      hide FieldSat;
    } else if obj.Arr? && Kw(n.schema, "items") && Val(n.schema, "items").Obj? {
      var m := Node(Val(n.schema, "items"), n.root);
      assert Descends(n, m);
      forall i | 0 <= i < |obj.items|
        ensures Sat(obj.items[i], m, env, a) == Sat(obj.items[i], m, env, b)
      {
        SatIndependentOfRanking(obj.items[i], m, env, a, b);
      }
    }
  }

  lemma {:induction false} BranchesSame(obj: Json, n: Node, env: Env, a: map<Node, nat>, b: map<Node, nat>)
    requires Ranked(a, env) && n in a && Ranked(b, env) && n in b && !Kw(n.schema, "$ref")
    ensures OneOfSat(obj, n, env, a) == OneOfSat(obj, n, env, b)
    ensures AnyOfSat(obj, n, env, a) == AnyOfSat(obj, n, env, b)
    ensures AllOfSat(obj, n, env, a) == AllOfSat(obj, n, env, b)
    decreases obj, a[n], 1
  {
    forall i ensures BranchSat(obj, n, "oneOf", i, env, a) == BranchSat(obj, n, "oneOf", i, env, b) {
      BranchSame(obj, n, "oneOf", i, env, a, b);
    }
    forall i ensures BranchSat(obj, n, "anyOf", i, env, a) == BranchSat(obj, n, "anyOf", i, env, b) {
      BranchSame(obj, n, "anyOf", i, env, a, b);
    }
    forall i ensures BranchSat(obj, n, "allOf", i, env, a) == BranchSat(obj, n, "allOf", i, env, b) {
      BranchSame(obj, n, "allOf", i, env, a, b);
    }
    AllOfMeans(obj, n, env, a);
    AllOfMeans(obj, n, env, b);
    OneOfTransfers(obj, n, env, a, b);
    OneOfTransfers(obj, n, env, b, a);
  }

  lemma OneOfTransfers(obj: Json, n: Node, env: Env, a: map<Node, nat>, b: map<Node, nat>)
    requires Ranked(a, env) && n in a && Ranked(b, env) && n in b && !Kw(n.schema, "$ref")
    requires forall i :: BranchSat(obj, n, "oneOf", i, env, a) == BranchSat(obj, n, "oneOf", i, env, b)
    ensures OneOfSat(obj, n, env, a) ==> OneOfSat(obj, n, env, b)
  {
    BranchesInRange(obj, n, "oneOf", env, a);
    hide Ranked, Subs, Kw, InPlace;
    forall i | OnlyBranchSat(obj, n, i, env, a) ensures OnlyBranchSat(obj, n, i, env, b) {}
    assert OneOfSat(obj, n, env, a) <==> exists i :: OnlyBranchSat(obj, n, i, env, a);
    assert OneOfSat(obj, n, env, b) <==> exists i :: OnlyBranchSat(obj, n, i, env, b);
  }

  lemma {:induction false} ConditionalSame(obj: Json, n: Node, env: Env, a: map<Node, nat>, b: map<Node, nat>)
    requires Ranked(a, env) && n in a && Ranked(b, env) && n in b && !Kw(n.schema, "$ref") && Kw(n.schema, "if")
    ensures ConditionalSat(obj, n, env, a) == ConditionalSat(obj, n, env, b)
    decreases obj, a[n], 1
  {
    OneSame(obj, n, "if", env, a, b);
    if Follows(n.schema, "then") { OneSame(obj, n, "then", env, a, b); }
    if Follows(n.schema, "else") { OneSame(obj, n, "else", env, a, b); }
  }

  /** Whichever ranking bounds the recursion, the same values satisfy the schema. */
  lemma {:induction false} SatIndependentOfRanking(obj: Json, n: Node, env: Env, a: map<Node, nat>, b: map<Node, nat>)
    requires Ranked(a, env) && n in a && Ranked(b, env) && n in b
    ensures Sat(obj, n, env, a) == Sat(obj, n, env, b)
    decreases obj, a[n], 2
  {
    if n.schema.Obj? {
      if Kw(n.schema, "$ref") {
        var resolved := Resolve(Val(n.schema, "$ref").s, n.root, env);
        if resolved.Some? {
          assert InPlace(n, resolved.value, env);
          SatIndependentOfRanking(obj, resolved.value, env, a, b);
        }
      } else {
        PartsSame(obj, n, env, a, b);
        BranchesSame(obj, n, env, a, b);
        if Kw(n.schema, "if") { ConditionalSame(obj, n, env, a, b); }
      }
    }
  }

  // ---------------------------------------------------------------------
  // A ranking exists exactly when no cycle of steps stays in place
  // ---------------------------------------------------------------------

  /** Well-typed schemas, closed under every step validation can take. */
  ghost predicate Closed(nodes: set<Node>, env: Env) {
    && (forall n :: n in nodes ==> WellTyped(n.schema))
    && (forall n, m :: n in nodes && InPlace(n, m, env) ==> m in nodes)
    && (forall n, m :: n in nodes && Descends(n, m) ==> m in nodes)
  }

  ghost predicate CanRank(nodes: set<Node>, env: Env) {
    exists ranks: map<Node, nat> :: ranks.Keys == nodes && Ranked(ranks, env)
  }

  /** In-place steps lead from a node of the set back to it. */
  ghost predicate HasInPlaceCycle(nodes: set<Node>, env: Env) {
    HasCycle(nodes, (n: Node, m: Node) => InPlace(n, m, env))
  }

  lemma RankedIsDownhill(ranks: map<Node, nat>, nodes: set<Node>, step: (Node, Node) -> bool, env: Env)
    requires Closed(nodes, env) && forall n, m :: step(n, m) == InPlace(n, m, env)
    ensures GoesDown(ranks, nodes, step) <==> ranks.Keys == nodes && Ranked(ranks, env)
  {
    hide InPlace, Descends, WellTyped;
  }

  /** Validation from any of a finite, closed set of schema nodes is bounded exactly when no
      cycle of `$ref` and combining keywords returns to a node without descending. */
  lemma RankedExactly(nodes: set<Node>, env: Env)
    requires Closed(nodes, env)
    ensures CanRank(nodes, env) <==> !HasInPlaceCycle(nodes, env)
  {
    hide InPlace, Descends, WellTyped, Ranked, GoesDown, HasCycle;
    var step := (n: Node, m: Node) => InPlace(n, m, env);
    GoesDownExactly(nodes, step);
    forall ranks: map<Node, nat>
      ensures GoesDown(ranks, nodes, step) <==> ranks.Keys == nodes && Ranked(ranks, env)
    {
      RankedIsDownhill(ranks, nodes, step, env);
    }
  }

  /** The smallest cycle: a reference to itself. */
  lemma SelfReferenceCannotBeRanked(env: Env, ranks: map<Node, nat>)
    ensures var root := Obj([Field("a", Obj([Field("$ref", Str("#/a"))]))]);
            Ranked(ranks, env) ==> Node(root.fields[0].value, root) !in ranks
  {
    var loop := Obj([Field("$ref", Str("#/a"))]);
    var root := Obj([Field("a", loop)]);
    var n := Node(loop, root);
    assert Kw(loop, "$ref") by { assert loop.fields[0].key == "$ref"; }
    assert Kw(root, "a") by { assert root.fields[0].key == "a"; }
    assert Split("a", '/') == ["a"];
    assert Walk(root, ["a"], false) == Walk(loop, [], false);
    assert "#/a"[2..] == "a";
    assert StartsWith("#/a", "#/");
    assert InPlace(n, n, env);
  }

  // ---------------------------------------------------------------------
  // Equality for `const` and `enum`
  // ---------------------------------------------------------------------

  /** `const` and `enum` tell booleans from numbers, except inside arrays and objects. */
  lemma ConstIsStrictExactly(a: Json, b: Json)
    ensures ConstEq(a, b) != StrictEq(a, b) <==>
            !a.Bool? && !b.Bool? && PyEq(a, b) && BooleanMeetsNumber(a, b)
  {
    PyEqIsStrictExactly(a, b);
  }

  /** The constant `[true]` accepts the value `[1]`. */
  lemma NestedBooleanPassesAsNumber()
    ensures ConstEq(Arr([Int(1)]), Arr([Bool(true)])) && !ConstEq(Int(1), Bool(true))
  {
  }
}
