/** What the references of a schema resolve to. */
module SchemaRefs {
  import opened Text
  import opened Json
  import opened SchemaLint

  /** From one value down through the keys to another. */
  ghost predicate Descent(chain: seq<Json>, keys: seq<string>) {
    && |chain| == |keys| + 1
    && forall k :: 0 <= k < |keys| ==> DescendsBy(chain, k, keys[k])
  }

  predicate DescendsBy(chain: seq<Json>, k: nat, key: string) {
    k + 1 < |chain| && chain[k].Obj? && Has(chain[k].fields, key) && chain[k + 1] == Get(chain[k].fields, key)
  }

  ghost predicate LeadsTo(from: Json, keys: seq<string>, to: Json) {
    exists chain :: Descent(chain, keys) && chain[0] == from && chain[|keys|] == to
  }

  predicate NoneEmpty(keys: seq<string>) {
    forall k :: 0 <= k < |keys| ==> keys[k] != ""
  }

  lemma TailDescends(chain: seq<Json>, keys: seq<string>)
    requires Descent(chain, keys) && keys != []
    ensures Descent(chain[1..], keys[1..]) && DescendsBy(chain, 0, keys[0])
  {
    hide Has, Get;
    forall k | 0 <= k < |keys| - 1 ensures DescendsBy(chain[1..], k, keys[1..][k]) {
      assert DescendsBy(chain, k + 1, keys[k + 1]);
    }
  }

  lemma ConsDescends(node: Json, chain: seq<Json>, keys: seq<string>)
    requires keys != [] && Descent(chain, keys[1..]) && Kw(node, keys[0]) && chain[0] == Val(node, keys[0])
    ensures Descent([node] + chain, keys)
  {
    hide Has, Get;
    var all := [node] + chain;
    forall k | 0 <= k < |keys| ensures DescendsBy(all, k, keys[k]) {
      if k > 0 { assert DescendsBy(chain, k - 1, keys[1..][k - 1]); }
    }
  }

  lemma {:induction false} DescentIsWalked(chain: seq<Json>, keys: seq<string>, stop: bool)
    requires Descent(chain, keys) && (stop ==> NoneEmpty(keys))
    ensures Walk(chain[0], keys, stop) == Some(chain[|keys|])
    decreases |keys|
  {
    if keys != [] {
      TailDescends(chain, keys);
      DescentIsWalked(chain[1..], keys[1..], stop);
    }
  }

  lemma {:induction false} WalkDescends(node: Json, keys: seq<string>, stop: bool) returns (chain: seq<Json>)
    requires Walk(node, keys, stop).Some? && (stop ==> NoneEmpty(keys))
    ensures Descent(chain, keys) && chain[0] == node && chain[|keys|] == Walk(node, keys, stop).value
    decreases |keys|
  {
    if keys == [] {
      chain := [node];
    } else {
      var rest := WalkDescends(Val(node, keys[0]), keys[1..], stop);
      ConsDescends(node, rest, keys);
      chain := [node] + rest;
    }
  }

  lemma WalkFollows(node: Json, keys: seq<string>, stop: bool, to: Json)
    requires stop ==> NoneEmpty(keys)
    ensures Walk(node, keys, stop) == Some(to) <==> LeadsTo(node, keys, to)
  {
    hide Walk;
    if Walk(node, keys, stop) == Some(to) {
      var chain := WalkDescends(node, keys, stop);
    }
    if LeadsTo(node, keys, to) {
      var chain :| Descent(chain, keys) && chain[0] == node && chain[|keys|] == to;
      DescentIsWalked(chain, keys, stop);
    }
  }

  // ---------------------------------------------------------------------
  // Inside the document, and in another one
  // ---------------------------------------------------------------------

  /** The keys lead to a value other than JSON null, which stands for "unresolved". */
  ghost predicate Target(from: Json, keys: seq<string>, to: Json) { LeadsTo(from, keys, to) && !to.Null? }

  /** A reference into the document itself: `#/` and keys without a slash between slashes. */
  lemma InternalReference(keys: seq<string>, root: Json, env: Env)
    requires keys != [] && NoneHas(keys, '/')
    ensures var r := Resolve("#/" + Join(keys, "/"), root, env);
            && (forall v :: r == Some(Node(v, root)) <==> Target(root, keys, v))
            && (r == None <==> forall v :: !Target(root, keys, v))
  {
    var ref := "#/" + Join(keys, "/");
    assert ref[..2] == "#/" && ref[2..] == Join(keys, "/");
    SplitOfJoin(keys, '/');
    forall v ensures Walk(root, keys, false) == Some(v) <==> LeadsTo(root, keys, v) {
      WalkFollows(root, keys, false, v);
    }
    hide Walk, Split, LeadsTo, Join;
    assert Resolve(ref, root, env) == NotNull(Walk(root, keys, false), root);
  }

  /** A file name, then `#` and a fragment. */
  lemma FileParts(file: string, fragment: string, root: Json, env: Env)
    requires file != "" && '#' !in file
    ensures var ref := file + ("#" + fragment);
            Resolve(ref, root, env) ==
              match env.files(file)
              case None => None
              case Some(sibling) => NotNull(Walk(sibling, Split(StripSlashes(fragment), '/'), true), sibling)
  {
    var ref := file + ("#" + fragment);
    assert ref[0] == file[0] && ref[0] != '#';
    assert ref[|file|] == '#';
    UpToStops(file, "#" + fragment, '#');
    assert ref[|file| + 1..] == fragment;
    hide Walk, Split, StripSlashes;
  }

  /** A reference into another document: the keys are followed in that document, and it
      becomes the root against which further references resolve. */
  lemma FileReference(file: string, keys: seq<string>, root: Json, env: Env, sibling: Json)
    requires file != "" && '#' !in file && env.files(file) == Some(sibling)
    requires keys != [] && NoneHas(keys, '/') && NoneEmpty(keys)
    ensures var r := Resolve(file + ("#" + ("/" + Join(keys, "/"))), root, env);
            && (forall v :: r == Some(Node(v, sibling)) <==> Target(sibling, keys, v))
            && (r == None <==> forall v :: !Target(sibling, keys, v))
  {
    var path := Join(keys, "/");
    FileParts(file, "/" + path, root, env);
    assert ("/" + path)[1..] == path;
    assert path != "" && path[0] == keys[0][0];
    assert keys[0][0] in keys[0];
    assert StripSlashes("/" + path) == path;
    SplitOfJoin(keys, '/');
    forall v ensures Walk(sibling, keys, true) == Some(v) <==> LeadsTo(sibling, keys, v) {
      WalkFollows(sibling, keys, true, v);
    }
    hide Walk, Split, LeadsTo, Join, StripSlashes;
  }

  /** Without keys it is the whole other document; without that document, or without a `#`
      behind a file name, there is nothing. */
  lemma OtherReferences(file: string, root: Json, env: Env)
    requires file != "" && '#' !in file
    ensures env.files(file).Some? && !env.files(file).value.Null? ==>
              Resolve(file + ("#" + ""), root, env) == Some(Node(env.files(file).value, env.files(file).value))
    ensures forall fragment :: env.files(file) == None ==> Resolve(file + ("#" + fragment), root, env) == None
    ensures Resolve(file, root, env) == None
    ensures Resolve("#", root, env) == None
  {
    FileParts(file, "", root, env);
    assert Split("", '/') == [""] && StripSlashes("") == "";
    forall fragment ensures env.files(file) == None ==> Resolve(file + ("#" + fragment), root, env) == None {
      FileParts(file, fragment, root, env);
    }
    assert file[0] in file;
  }

  /** A reference is satisfied exactly when it resolves and its target is satisfied, with the
      target's own references resolved against the target's document. */
  lemma ReferenceMeansTarget(obj: Json, n: Node, ref: string, env: Env, ranks: map<Node, nat>)
    requires Ranked(ranks, env) && n in ranks && Kw(n.schema, "$ref") && Val(n.schema, "$ref") == Str(ref)
    ensures Sat(obj, n, env, ranks) <==>
              match Resolve(ref, n.root, env)
              case None => false
              case Some(m) => m in ranks && Sat(obj, m, env, ranks)
  {
    var r := Resolve(ref, n.root, env);
    if r.Some? { assert InPlace(n, r.value, env); }
  }

  /** Across two documents: a reference into another one, whose target refers within itself,
      is satisfied exactly when what the second one leads to there is. */
  lemma TargetRefersWithinItsDocument(obj: Json, n: Node, file: string, keys: seq<string>, sibling: Json, v: Json,
                                      inner: seq<string>, w: Json, env: Env, ranks: map<Node, nat>)
    requires Ranked(ranks, env) && n in ranks && Kw(n.schema, "$ref")
    requires file != "" && '#' !in file && env.files(file) == Some(sibling)
    requires keys != [] && NoneHas(keys, '/') && NoneEmpty(keys) && inner != [] && NoneHas(inner, '/')
    requires Val(n.schema, "$ref") == Str(file + ("#" + ("/" + Join(keys, "/")))) && Target(sibling, keys, v)
    requires Kw(v, "$ref") && Val(v, "$ref") == Str("#/" + Join(inner, "/")) && Target(sibling, inner, w)
    ensures Node(w, sibling) in ranks && (Sat(obj, n, env, ranks) <==> Sat(obj, Node(w, sibling), env, ranks))
  {
    hide Sat, Resolve, Target, Join, Kw, Val, InPlace, Ranked;
    FileReference(file, keys, n.root, env, sibling);
    InternalReference(inner, sibling, env);
    ReferenceStaysRanked(n, Val(n.schema, "$ref").s, env, ranks);
    ReferenceMeansTarget(obj, n, Val(n.schema, "$ref").s, env, ranks);
    ReferenceStaysRanked(Node(v, sibling), "#/" + Join(inner, "/"), env, ranks);
    ReferenceMeansTarget(obj, Node(v, sibling), "#/" + Join(inner, "/"), env, ranks);
  }

  lemma ReferenceStaysRanked(n: Node, ref: string, env: Env, ranks: map<Node, nat>)
    requires Ranked(ranks, env) && n in ranks && Kw(n.schema, "$ref") && Val(n.schema, "$ref") == Str(ref)
    ensures Resolve(ref, n.root, env).Some? ==> Resolve(ref, n.root, env).value in ranks
  {
    var r := Resolve(ref, n.root, env);
    if r.Some? { assert InPlace(n, r.value, env); }
  }
}
