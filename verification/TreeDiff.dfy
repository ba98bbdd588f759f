/** The cross-platform diff: where a candidate result tree departs from the canonical one. */
module TreeDiff {
  import opened Text
  import opened Ordering
  import opened Json

  datatype Step = Key(name: string) | Index(i: nat)

  type Path = seq<Step>

  datatype Kind = MissingInCandidate | UnexpectedInCandidate | ValueMismatch

  /** A divergence; the program renders the two values as snippets. */
  datatype Difference = Difference(path: Path, kind: Kind, canonical: Option<Json>, candidate: Option<Json>)

  // ---------------------------------------------------------------------
  // The walk
  // ---------------------------------------------------------------------

  function Child(j: Json, step: Step): Option<Json> {
    match (j, step)
    case (Obj(fields), Key(name)) => if Has(fields, name) then Some(Get(fields, name)) else None
    case (Arr(items), Index(i)) => if i < |items| then Some(items[i]) else None
    case _ => None
  }

  predicate SameContainer(a: Json, b: Json) { (a.Obj? && b.Obj?) || (a.Arr? && b.Arr?) }

  function Max(m: nat, n: nat): nat { if m < n then n else m }

  /** The steps the walk takes below two containers of the same sort. */
  function Steps(a: Json, b: Json): seq<Step> {
    match (a, b)
    case (Obj(x), Obj(y)) =>
      var keys := Sorted(Keys(x) + Keys(y));
      seq(|keys|, i requires 0 <= i < |keys| => Key(keys[i]))
    case (Arr(x), Arr(y)) => seq(Max(|x|, |y|), i requires 0 <= i => Index(i))
    case _ => []
  }

  function Differences(a: Json, b: Json, prefix: Path): seq<Difference>
    decreases a, 1, 0
  {
    if SameContainer(a, b) then Below(a, b, Steps(a, b), prefix)
    else if PyEq(a, b) then []
    else [Difference(prefix, ValueMismatch, Some(a), Some(b))]
  }

  function Below(a: Json, b: Json, steps: seq<Step>, prefix: Path): seq<Difference>
    decreases a, 0, |steps| + 1
  {
    if steps == [] then []
    else
      var n := |steps| - 1;
      Below(a, b, steps[..n], prefix) + Across(a, b, steps[n], prefix)
  }

  function Across(a: Json, b: Json, step: Step, prefix: Path): seq<Difference>
    decreases a, 0, 0
  {
    match (Child(a, step), Child(b, step))
    case (None, None) => []
    case (Some(x), None) => [Difference(prefix + [step], MissingInCandidate, Some(x), None)]
    case (None, Some(y)) => [Difference(prefix + [step], UnexpectedInCandidate, None, Some(y))]
    case (Some(x), Some(y)) => Differences(x, y, prefix + [step])
  }

  lemma BelowSnoc(a: Json, b: Json, steps: seq<Step>, i: nat, prefix: Path)
    requires i < |steps|
    ensures Below(a, b, steps[..i + 1], prefix) == Below(a, b, steps[..i], prefix) + Across(a, b, steps[i], prefix)
  {
    assert steps[..i + 1][..i] == steps[..i];
  }

  /** `collect_differences`. */
  method CollectDifferences(canonical: Json, candidate: Json, prefix: Path) returns (diffs: seq<Difference>)
    ensures diffs == Differences(canonical, candidate, prefix)
    decreases canonical, 1
  {
    if canonical.Obj? && candidate.Obj? {
      diffs := CollectFromObjects(canonical, candidate, prefix);
    } else if canonical.Arr? && candidate.Arr? {
      diffs := CollectFromLists(canonical, candidate, prefix);
    } else if !PyEq(canonical, candidate) {
      diffs := [Difference(prefix, ValueMismatch, Some(canonical), Some(candidate))];
    } else {
      diffs := [];
    }
  }

  /** Its branch for two objects. */
  method CollectFromObjects(canonical: Json, candidate: Json, prefix: Path) returns (diffs: seq<Difference>)
    requires canonical.Obj? && candidate.Obj?
    ensures diffs == Below(canonical, candidate, Steps(canonical, candidate), prefix)
    decreases canonical, 0
  {
    diffs := [];
    var x, y := canonical.fields, candidate.fields;
    var keys := Sorted(Keys(x) + Keys(y));
    SortedIsAscending(Keys(x) + Keys(y));
    ghost var steps := Steps(canonical, candidate);
    for i := 0 to |keys|
      invariant diffs == Below(canonical, candidate, steps[..i], prefix)
    {
      BelowSnoc(canonical, candidate, steps, i, prefix);
      var key := keys[i];
      assert key in keys && steps[i] == Key(key);
      hide Below, Steps, Differences, Sorted;
      var ptr := prefix + [Key(key)];
      if !Has(y, key) {
        diffs := diffs + [Difference(ptr, MissingInCandidate, Some(Get(x, key)), None)];
      } else if !Has(x, key) {
        diffs := diffs + [Difference(ptr, UnexpectedInCandidate, None, Some(Get(y, key)))];
      } else {
        var deeper := CollectDifferences(Get(x, key), Get(y, key), ptr);
        diffs := diffs + deeper;
      }
    }
    assert steps[..|keys|] == steps;
  }

  /** Its branch for two lists. */
  method CollectFromLists(canonical: Json, candidate: Json, prefix: Path) returns (diffs: seq<Difference>)
    requires canonical.Arr? && candidate.Arr?
    ensures diffs == Below(canonical, candidate, Steps(canonical, candidate), prefix)
    decreases canonical, 0
  {
    diffs := [];
    var x, y := canonical.items, candidate.items;
    var length := Max(|x|, |y|);
    ghost var steps := Steps(canonical, candidate);
    for i := 0 to length
      invariant diffs == Below(canonical, candidate, steps[..i], prefix)
    {
      BelowSnoc(canonical, candidate, steps, i, prefix);
      assert steps[i] == Index(i);
      hide Below, Steps, Differences;
      var ptr := prefix + [Index(i)];
      if i >= |x| {
        diffs := diffs + [Difference(ptr, UnexpectedInCandidate, None, Some(y[i]))];
      } else if i >= |y| {
        diffs := diffs + [Difference(ptr, MissingInCandidate, Some(x[i]), None)];
      } else {
        var deeper := CollectDifferences(x[i], y[i], ptr);
        diffs := diffs + deeper;
      }
    }
    assert steps[..length] == steps;
  }

  // ---------------------------------------------------------------------
  // Disagreement, without the walk
  // ---------------------------------------------------------------------

  function Lookup(j: Json, path: Path): Option<Json>
    decreases |path|
  {
    if path == [] then Some(j)
    else match Child(j, path[0])
      case None => None
      case Some(c) => Lookup(c, path[1..])
  }

  /** Both trees have a container of the same sort there. */
  predicate BothContainers(a: Json, b: Json, path: Path) {
    match (Lookup(a, path), Lookup(b, path))
    case (Some(x), Some(y)) => SameContainer(x, y)
    case _ => false
  }

  /** One tree has a value there and the other none, or they have different values that
      are not both objects or both lists. */
  predicate Disagree(a: Json, b: Json, path: Path) {
    match (Lookup(a, path), Lookup(b, path))
    case (Some(x), Some(y)) => !SameContainer(x, y) && !PyEq(x, y)
    case (None, None) => false
    case _ => true
  }

  /** A topmost position of disagreement. */
  predicate Topmost(a: Json, b: Json, path: Path) {
    Disagree(a, b, path) && forall n :: 0 <= n < |path| ==> BothContainers(a, b, path[..n])
  }

  /** The record for a position. */
  function Report(a: Json, b: Json, prefix: Path, path: Path): Difference {
    var (x, y) := (Lookup(a, path), Lookup(b, path));
    Difference(prefix + path,
               if y.None? then MissingInCandidate else if x.None? then UnexpectedInCandidate else ValueMismatch,
               x, y)
  }

  /** A topmost disagreement below a step. */
  lemma TopmostBelow(a: Json, b: Json, step: Step, rest: Path)
    ensures Topmost(a, b, [step] + rest) <==>
            SameContainer(a, b) &&
            match (Child(a, step), Child(b, step))
            case (Some(x), Some(y)) => Topmost(x, y, rest)
            case (None, None) => false
            case _ => rest == []
  {
    var path := [step] + rest;
    assert path[1..] == rest && path[..0] == [];
    assert BothContainers(a, b, path[..0]) <==> SameContainer(a, b);
    assert Topmost(a, b, path) ==> BothContainers(a, b, path[..0]);
    assert Topmost(a, b, path) && rest != [] ==> BothContainers(a, b, path[..1]);
    forall n | 1 <= n < |path|
      ensures BothContainers(a, b, path[..n]) <==> BothBelow(Child(a, step), Child(b, step), rest[..n - 1])
    {
      assert path[..n][0] == step && path[..n][1..] == rest[..n - 1];
    }
    if SameContainer(a, b) && Child(a, step).Some? && Child(b, step).Some? {
      var x, y := Child(a, step).value, Child(b, step).value;
      if Topmost(a, b, path) {
        forall n | 0 <= n < |rest|
          ensures BothContainers(x, y, rest[..n])
        {
          assert BothContainers(a, b, path[..n + 1]);
        }
      }
      if Topmost(x, y, rest) {
        forall n | 0 <= n < |path|
          ensures BothContainers(a, b, path[..n])
        {
          if n > 0 { assert BothContainers(x, y, rest[..n - 1]); }
        }
      }
    } else if SameContainer(a, b) && rest == [] {
      assert forall n :: 0 <= n < |path| ==> path[..n] == path[..0];
      LookupStep(a, step, path);
      LookupStep(b, step, path);
    }
  }

  lemma LookupStep(j: Json, step: Step, path: Path)
    requires path == [step]
    ensures Lookup(j, path) == Child(j, step)
  {
    assert path[1..] == [];
  }

  predicate BothBelow(a: Option<Json>, b: Option<Json>, path: Path) {
    a.Some? && b.Some? && BothContainers(a.value, b.value, path)
  }

  lemma TopmostHere(a: Json, b: Json)
    ensures Topmost(a, b, []) <==> !SameContainer(a, b) && !PyEq(a, b)
  {
  }

  /** The walk takes every step either container offers, and no step twice. */
  lemma StepsComplete(a: Json, b: Json)
    requires SameContainer(a, b)
    ensures forall step :: step in Steps(a, b) <==> Child(a, step).Some? || Child(b, step).Some?
    ensures forall i, j :: 0 <= i < j < |Steps(a, b)| ==> Steps(a, b)[i] != Steps(a, b)[j]
  {
    if a.Obj? {
      var keys := Sorted(Keys(a.fields) + Keys(b.fields));
      SortedIsAscending(Keys(a.fields) + Keys(b.fields));
      forall step
        ensures step in Steps(a, b) <==> Child(a, step).Some? || Child(b, step).Some?
      {
        if step.Key? && step.name in keys {
          var i :| 0 <= i < |keys| && keys[i] == step.name;
          assert Steps(a, b)[i] == step;
        }
      }
      forall i, j | 0 <= i < j < |Steps(a, b)|
        ensures Steps(a, b)[i] != Steps(a, b)[j]
      {
        LessIrreflexive(keys[i]);
      }
    } else {
      forall step
        ensures step in Steps(a, b) <==> Child(a, step).Some? || Child(b, step).Some?
      {
        if step.Index? && step.i < |Steps(a, b)| {
          assert Steps(a, b)[step.i] == step;
        }
      }
    }
  }

  // ---------------------------------------------------------------------
  // The diff is exact
  // ---------------------------------------------------------------------

  /** A difference is listed exactly if it reports a topmost disagreement. */
  lemma {:induction false} DiffIsExact(a: Json, b: Json, prefix: Path, d: Difference)
    ensures d in Differences(a, b, prefix) <==>
            exists path: Path :: Topmost(a, b, path) && d == Report(a, b, prefix, path)
    decreases a, 1, 0
  {
    hide Report, Disagree, BothContainers, Topmost;
    TopmostHere(a, b);
    if SameContainer(a, b) {
      StepsComplete(a, b);
      BelowIsExact(a, b, Steps(a, b), prefix, d);
      if path: Path :| Topmost(a, b, path) && d == Report(a, b, prefix, path) {
        var step, rest := path[0], path[1..];
        assert path == [step] + rest;
        TopmostBelow(a, b, step, rest);
        assert Reports(a, b, step, rest, prefix, d);
      }
    } else {
      LeafIsExact(a, b, prefix, d);
    }
  }

  lemma LeafIsExact(a: Json, b: Json, prefix: Path, d: Difference)
    requires !SameContainer(a, b)
    ensures d in Differences(a, b, prefix) <==>
            exists path: Path :: Topmost(a, b, path) && d == Report(a, b, prefix, path)
  {
    TopmostHere(a, b);
    forall path: Path | Topmost(a, b, path)
      ensures path == []
    {
      if path != [] {
        assert path == [path[0]] + path[1..];
        TopmostBelow(a, b, path[0], path[1..]);
      }
    }
    assert Report(a, b, prefix, []).path == prefix;
  }

  predicate Reports(a: Json, b: Json, step: Step, rest: Path, prefix: Path, d: Difference) {
    Topmost(a, b, [step] + rest) && d == Report(a, b, prefix, [step] + rest)
  }

  lemma {:induction false} BelowIsExact(a: Json, b: Json, steps: seq<Step>, prefix: Path, d: Difference)
    requires SameContainer(a, b)
    ensures d in Below(a, b, steps, prefix) <==>
            exists step, rest :: step in steps && Reports(a, b, step, rest, prefix, d)
    decreases a, 0, |steps| + 1
  {
    hide Reports, Across, Steps;
    if steps != [] {
      var n := |steps| - 1;
      BelowIsExact(a, b, steps[..n], prefix, d);
      AcrossIsExact(a, b, steps[n], prefix, d);
      assert forall s :: s in steps <==> s in steps[..n] || s == steps[n];
    }
  }

  lemma ReportBelow(a: Json, b: Json, step: Step, rest: Path, prefix: Path)
    requires Child(a, step).Some? && Child(b, step).Some?
    ensures Report(a, b, prefix, [step] + rest) ==
            Report(Child(a, step).value, Child(b, step).value, prefix + [step], rest)
  {
    var path := [step] + rest;
    assert path[1..] == rest && prefix + path == prefix + [step] + rest;
  }

  lemma {:induction false} AcrossIsExact(a: Json, b: Json, step: Step, prefix: Path, d: Difference)
    requires SameContainer(a, b)
    ensures d in Across(a, b, step, prefix) <==> exists rest :: Reports(a, b, step, rest, prefix, d)
    decreases a, 0, 0
  {
    match (Child(a, step), Child(b, step))
    case (Some(x), Some(y)) =>
      DiffIsExact(x, y, prefix + [step], d);
      if d in Across(a, b, step, prefix) {
        var rest :| Topmost(x, y, rest) && d == Report(x, y, prefix + [step], rest);
        TopmostBelow(a, b, step, rest);
        ReportBelow(a, b, step, rest, prefix);
        assert Reports(a, b, step, rest, prefix, d);
      }
      if rest :| Reports(a, b, step, rest, prefix, d) {
        TopmostBelow(a, b, step, rest);
        ReportBelow(a, b, step, rest, prefix);
      }
    case _ =>
      TopmostBelow(a, b, step, []);
      assert [step] + [] == [step];
      assert prefix + [step] == Report(a, b, prefix, [step] + []).path;
      assert Lookup(a, [step]) == Child(a, step) && Lookup(b, [step]) == Child(b, step);
      if d in Across(a, b, step, prefix) {
        assert Reports(a, b, step, [], prefix, d);
      }
      if rest :| Reports(a, b, step, rest, prefix, d) {
        TopmostBelow(a, b, step, rest);
      }
  }

  lemma AboveTopmost(a: Json, b: Json, p: Path, q: Path)
    requires Topmost(a, b, q) && p < q
    ensures BothContainers(a, b, p)
  {
    assert p == q[..|p|];
  }

  /** Of two topmost disagreements neither lies above the other. */
  lemma TopmostAntichain(a: Json, b: Json, p: Path, q: Path)
    ensures Topmost(a, b, p) && Topmost(a, b, q) && p <= q ==> p == q
  {
    if Topmost(a, b, q) && p < q {
      AboveTopmost(a, b, p, q);
    }
  }

  /** Every listed path extends the prefix. */
  lemma {:induction false} PathsExtend(a: Json, b: Json, prefix: Path, d: Difference)
    requires d in Differences(a, b, prefix)
    ensures prefix <= d.path
  {
    DiffIsExact(a, b, prefix, d);
  }

  /** No path is listed twice. */
  predicate DistinctPaths(ds: seq<Difference>) {
    forall i, j :: 0 <= i < j < |ds| ==> ds[i].path != ds[j].path
  }

  lemma {:induction false} DifferencesDistinct(a: Json, b: Json, prefix: Path)
    ensures DistinctPaths(Differences(a, b, prefix))
    decreases a, 1, 0
  {
    if SameContainer(a, b) {
      StepsComplete(a, b);
      BelowDistinct(a, b, Steps(a, b), prefix);
    }
  }

  lemma {:induction false} BelowDistinct(a: Json, b: Json, steps: seq<Step>, prefix: Path)
    requires forall i, j :: 0 <= i < j < |steps| ==> steps[i] != steps[j]
    ensures DistinctPaths(Below(a, b, steps, prefix))
    ensures forall d :: d in Below(a, b, steps, prefix) ==>
              prefix < d.path && exists s :: s in steps && d.path[|prefix|] == s
    decreases a, 0, |steps| + 1
  {
    if steps != [] {
      var n := |steps| - 1;
      var first, last := Below(a, b, steps[..n], prefix), Across(a, b, steps[n], prefix);
      BelowDistinct(a, b, steps[..n], prefix);
      AcrossDistinct(a, b, steps[n], prefix);
      var all: seq<Difference> := first + last;
      forall i, j | 0 <= i < j < |all|
        ensures all[i].path != all[j].path
      {
        if i < |first| && j >= |first| {
          assert first[i] in first && last[j - |first|] in last;
          assert steps[n] !in steps[..n];
        }
      }
      forall d: Difference | d in all
        ensures prefix < d.path && exists s :: s in steps && d.path[|prefix|] == s
      {
        if d in first {
          var s :| s in steps[..n] && d.path[|prefix|] == s;
          assert s in steps;
        } else {
          assert steps[n] in steps;
        }
      }
    }
  }

  lemma {:induction false} AcrossDistinct(a: Json, b: Json, step: Step, prefix: Path)
    ensures DistinctPaths(Across(a, b, step, prefix))
    ensures forall d :: d in Across(a, b, step, prefix) ==> prefix < d.path && d.path[|prefix|] == step
    decreases a, 0, 0
  {
    match (Child(a, step), Child(b, step))
    case (Some(x), Some(y)) =>
      DifferencesDistinct(x, y, prefix + [step]);
      forall d: Difference | d in Differences(x, y, prefix + [step])
        ensures prefix < d.path && d.path[|prefix|] == step
      {
        PathsExtend(x, y, prefix + [step], d);
        assert d.path[..|prefix| + 1] == prefix + [step];
      }
    case _ =>
  }

  /** The records are listed once each, and no path is a prefix of another. */
  lemma DiffIsAntichain(a: Json, b: Json, i: nat, j: nat)
    requires i < |Differences(a, b, [])| && j < |Differences(a, b, [])|
    requires Differences(a, b, [])[i].path <= Differences(a, b, [])[j].path
    ensures i == j
  {
    hide Differences, Topmost, Disagree;
    var ds := Differences(a, b, []);
    DiffIsExact(a, b, [], ds[i]);
    DiffIsExact(a, b, [], ds[j]);
    assert ds[i] in ds && ds[j] in ds;
    var p: Path :| Topmost(a, b, p) && ds[i] == Report(a, b, [], p);
    var q: Path :| Topmost(a, b, q) && ds[j] == Report(a, b, [], q);
    assert [] + p == p && [] + q == q;
    TopmostAntichain(a, b, p, q);
    DifferencesDistinct(a, b, []);
  }

  // ---------------------------------------------------------------------
  // Empty exactly on equal trees, agreement elsewhere, symmetry
  // ---------------------------------------------------------------------

  lemma {:induction false} BelowEmpty(a: Json, b: Json, steps: seq<Step>, prefix: Path)
    ensures Below(a, b, steps, prefix) == [] <==> forall s :: s in steps ==> Across(a, b, s, prefix) == []
    decreases |steps|
  {
    hide Across;
    if steps != [] {
      var n := |steps| - 1;
      var first, last := Below(a, b, steps[..n], prefix), Across(a, b, steps[n], prefix);
      BelowEmpty(a, b, steps[..n], prefix);
      assert Below(a, b, steps, prefix) == first + last;
      assert |first + last| == |first| + |last|;
      assert steps[n] in steps && forall s :: s in steps[..n] ==> s in steps;
      assert forall s :: s in steps ==> s in steps[..n] || s == steps[n];
    }
  }

  /** There are no differences exactly when Python finds the trees equal. */
  lemma {:induction false} EmptyExactlyOnEqual(a: Json, b: Json, prefix: Path)
    ensures Differences(a, b, prefix) == [] <==> PyEq(a, b)
    decreases a
  {
    if SameContainer(a, b) {
      hide PyEq, Steps, Below, Child;
      StepsComplete(a, b);
      BelowEmpty(a, b, Steps(a, b), prefix);
      forall s: Step | Child(a, s).Some? && Child(b, s).Some?
        ensures Across(a, b, s, prefix) == [] <==> PyEq(Child(a, s).value, Child(b, s).value)
      {
        EmptyExactlyOnEqual(Child(a, s).value, Child(b, s).value, prefix + [s]);
      }
      EqualByStep(a, b);
      forall s: Step
        ensures EqualAt(a, b, s) <==> Across(a, b, s, prefix) == []
      {
        hide Differences;
      }
    }
  }

  lemma EqualByStep(a: Json, b: Json)
    requires SameContainer(a, b)
    ensures PyEq(a, b) <==> forall s: Step :: EqualAt(a, b, s)
  {
    if a.Obj? {
      ObjectsEqualByStep(a, b);
    } else {
      ListsEqualByStep(a, b);
    }
  }

  /** Two containers are equal step by step. */
  predicate EqualAt(a: Json, b: Json, s: Step) {
    match (Child(a, s), Child(b, s))
    case (Some(x), Some(y)) => PyEq(x, y)
    case (None, None) => true
    case _ => false
  }

  lemma ObjectsEqualByStep(a: Json, b: Json)
    requires a.Obj? && b.Obj?
    ensures PyEq(a, b) <==> forall s: Step :: EqualAt(a, b, s)
  {
    if forall s: Step :: EqualAt(a, b, s) {
      forall k | k in Keys(a.fields) || k in Keys(b.fields)
        ensures Has(a.fields, k) && Has(b.fields, k) && PyEq(Get(a.fields, k), Get(b.fields, k))
      {
        assert EqualAt(a, b, Key(k));
      }
    }
  }

  lemma ListsEqualByStep(a: Json, b: Json)
    requires a.Arr? && b.Arr?
    ensures PyEq(a, b) <==> forall s: Step :: EqualAt(a, b, s)
  {
    if forall s: Step :: EqualAt(a, b, s) {
      assert EqualAt(a, b, Index(|a.items|)) && EqualAt(a, b, Index(|b.items|));
      forall i | 0 <= i < |a.items|
        ensures PyEq(a.items[i], b.items[i])
      {
        assert EqualAt(a, b, Index(i));
      }
    }
  }

  /** Where no reported path leads, the trees agree: both lack the position, or both have
      containers of the same sort or equal values there. */
  lemma {:induction false} AgreeOutside(a: Json, b: Json, path: Path)
    requires forall p: Path :: Topmost(a, b, p) ==> !(p <= path)
    ensures !Disagree(a, b, path)
    decreases |path|
  {
    TopmostHere(a, b);
    if path != [] {
      var step, rest := path[0], path[1..];
      assert path == [step] + rest;
      if SameContainer(a, b) {
        TopmostBelow(a, b, step, []);
        assert [step] + [] == [step] <= path;
        if Child(a, step).Some? && Child(b, step).Some? {
          forall p: Path | Topmost(Child(a, step).value, Child(b, step).value, p)
            ensures !(p <= rest)
          {
            TopmostBelow(a, b, step, p);
            assert p <= rest ==> [step] + p <= path;
          }
          AgreeOutside(Child(a, step).value, Child(b, step).value, rest);
        }
      } else {
        assert [] <= path;
        assert PyEq(a, b);
      }
    }
  }

  function Swap(d: Difference): Difference {
    Difference(d.path,
               match d.kind
               case MissingInCandidate => UnexpectedInCandidate
               case UnexpectedInCandidate => MissingInCandidate
               case ValueMismatch => ValueMismatch,
               d.candidate, d.canonical)
  }

  function SwapAll(ds: seq<Difference>): seq<Difference> {
    if ds == [] then [] else SwapAll(ds[..|ds| - 1]) + [Swap(ds[|ds| - 1])]
  }

  lemma {:induction false} SwapConcat(x: seq<Difference>, y: seq<Difference>)
    ensures SwapAll(x + y) == SwapAll(x) + SwapAll(y)
  {
    if y == [] {
      assert x + y == x;
    } else {
      assert (x + y)[..|x + y| - 1] == x + y[..|y| - 1];
      SwapConcat(x, y[..|y| - 1]);
    }
  }

  lemma StepsSymmetric(a: Json, b: Json)
    ensures Steps(a, b) == Steps(b, a)
  {
    if a.Obj? && b.Obj? {
      var x, y := Keys(a.fields), Keys(b.fields);
      SortedIsAscending(x + y);
      SortedIsAscending(y + x);
      AscendingUnique(Sorted(x + y), Sorted(y + x));
    }
  }

  /** Swapping the trees swaps missing with unexpected, record by record. */
  lemma {:induction false} DiffSwaps(a: Json, b: Json, prefix: Path)
    ensures Differences(b, a, prefix) == SwapAll(Differences(a, b, prefix))
    decreases a, 1, 0
  {
    if SameContainer(a, b) {
      StepsSymmetric(a, b);
      BelowSwaps(a, b, Steps(a, b), prefix);
    } else {
      if PyEq(a, b) { PyEqSymmetric(a, b); }
      if PyEq(b, a) { PyEqSymmetric(b, a); }
      assert SwapAll([]) == [];
    }
  }

  lemma {:induction false} BelowSwaps(a: Json, b: Json, steps: seq<Step>, prefix: Path)
    ensures Below(b, a, steps, prefix) == SwapAll(Below(a, b, steps, prefix))
    decreases a, 0, |steps| + 1
  {
    if steps != [] {
      var n := |steps| - 1;
      BelowSwaps(a, b, steps[..n], prefix);
      AcrossSwaps(a, b, steps[n], prefix);
      SwapConcat(Below(a, b, steps[..n], prefix), Across(a, b, steps[n], prefix));
    }
  }

  lemma {:induction false} AcrossSwaps(a: Json, b: Json, step: Step, prefix: Path)
    ensures Across(b, a, step, prefix) == SwapAll(Across(a, b, step, prefix))
    decreases a, 0, 0
  {
    match (Child(a, step), Child(b, step))
    case (Some(x), Some(y)) => DiffSwaps(x, y, prefix + [step]);
    case (None, None) =>
    case _ =>
      var ds := Across(a, b, step, prefix);
      assert ds[..0] == [] && ds == [ds[0]];
      assert SwapAll(ds[..0]) == [];
  }

  /** The diff is silent about trees that are not equal as JSON exactly when Python finds
      them equal and somewhere a boolean meets the number it equals in Python. */
  lemma SilentWronglyExactly(a: Json, b: Json, prefix: Path)
    ensures Differences(a, b, prefix) == [] && !StrictEq(a, b) <==> PyEq(a, b) && BooleanMeetsNumber(a, b)
  {
    EmptyExactlyOnEqual(a, b, prefix);
    PyEqIsStrictExactly(a, b);
  }

  /** Python's equality makes the diff blind to a boolean turned into a number. */
  lemma BlindToBooleans(k: string)
    ensures Differences(Obj([Field(k, Bool(true))]), Obj([Field(k, Int(1))]), []) == []
  {
    var x, y := [Field(k, Bool(true))], [Field(k, Int(1))];
    assert x[0].key == k && y[0].key == k;
    assert forall l :: l in Keys(x) <==> l == k;
    assert forall l :: l in Keys(y) <==> l == k;
    assert PyEq(Get(x, k), Get(y, k));
    EmptyExactlyOnEqual(Obj(x), Obj(y), []);
  }
}
