/** How many blockers a diff-result leaves open, against how many divergences it reports. */
module GateCount {
  import opened Text
  import opened Ordering
  import opened Json
  import opened TreeDiff
  import opened DiffResult
  import opened RenderedPaths
  import opened BlockerRegister

  // ---------------------------------------------------------------------
  // Drafts with keys of their own
  // ---------------------------------------------------------------------

  predicate SameKey(d: Draft, e: Draft) { d.platform == e.platform && d.fieldPath == e.fieldPath }

  predicate Apart(drafts: seq<Draft>) {
    forall i, j :: 0 <= i < j < |drafts| ==> !SameKey(drafts[i], drafts[j])
  }

  /** There are as many keys as drafts exactly when no two drafts share one. */
  lemma {:induction false} KeysCountDrafts(drafts: seq<Draft>)
    ensures |DraftKeys(drafts)| <= |drafts|
    ensures |DraftKeys(drafts)| == |drafts| <==> Apart(drafts)
  {
    if drafts != [] {
      var n := |drafts| - 1;
      var front, d := drafts[..n], drafts[n];
      KeysCountDrafts(front);
      DraftKeysSnoc(front, d);
      ApartSnoc(front, d);
      assert drafts == front + [d];
      hide DraftKeys, Apart;
    }
  }

  lemma ApartSnoc(front: seq<Draft>, d: Draft)
    ensures Apart(front + [d]) <==> Apart(front) && (d.platform, d.fieldPath) !in DraftKeys(front)
  {
    var n, drafts := |front|, front + [d];
    if (d.platform, d.fieldPath) in DraftKeys(front) {
      var e :| e in front && SameKey(e, d);
      var i :| 0 <= i < n && front[i] == e;
      assert SameKey(drafts[i], drafts[n]);
    } else {
      forall i | 0 <= i < n ensures !SameKey(drafts[i], d) {
        assert front[i] in front;
      }
      if Apart(drafts) {
        forall i, j | 0 <= i < j < n ensures !SameKey(front[i], front[j]) {
          assert !SameKey(drafts[i], drafts[j]);
        }
      }
    }
  }

  /** Drafts of different platforms have different keys. */
  lemma ApartConcat(x: seq<Draft>, y: seq<Draft>)
    requires forall d, e :: d in x && e in y ==> d.platform != e.platform
    ensures Apart(x + y) <==> Apart(x) && Apart(y)
  {
    var z := x + y;
    if Apart(x) && Apart(y) {
      forall i, j | 0 <= i < j < |z| ensures !SameKey(z[i], z[j]) {
        if i < |x| <= j { assert z[i] in x && z[j] in y; }
      }
    }
    if Apart(z) {
      forall i, j | 0 <= i < j < |x| ensures !SameKey(x[i], x[j]) {
        assert !SameKey(z[i], z[j]);
      }
      forall i, j | 0 <= i < j < |y| ensures !SameKey(y[i], y[j]) {
        assert !SameKey(z[|x| + i], z[|x| + j]);
      }
    }
  }

  predicate NoRepeats(names: seq<string>) {
    forall i, j :: 0 <= i < j < |names| ==> names[i] != names[j]
  }

  lemma SortedHasNoRepeats(names: seq<string>)
    ensures NoRepeats(Sorted(names)) && forall n :: n in Sorted(names) <==> n in names
  {
    SortedIsAscending(names);
    var s := Sorted(names);
    forall i, j | 0 <= i < j < |s| ensures s[i] != s[j] {
      LessIrreflexive(s[i]);
    }
  }

  // ---------------------------------------------------------------------
  // Missing platforms
  // ---------------------------------------------------------------------

  lemma {:induction false} MissingAreApart(platforms: seq<string>, present: seq<string>)
    requires NoRepeats(platforms)
    ensures Apart(MissingDrafts(platforms, present))
    ensures forall d :: d in MissingDrafts(platforms, present) ==> d.platform in platforms && d.platform !in present
    ensures |MissingDrafts(platforms, present)| == |set p | p in platforms && p !in present|
  {
    if platforms != [] {
      var n := |platforms| - 1;
      var front, p := platforms[..n], platforms[n];
      MissingAreApart(front, present);
      var x := MissingDrafts(front, present);
      assert forall q :: q in platforms <==> q in front || q == p;
      var below, all := set q | q in front && q !in present, set q | q in platforms && q !in present;
      if p in present {
        assert all == below;
        assert MissingDrafts(platforms, present) == x;
      } else {
        assert p !in below && all == below + {p};
        ApartConcat(x, [Draft(p, "<candidate>", MissingReason)]);
      }
    }
  }

  // ---------------------------------------------------------------------
  // Divergences
  // ---------------------------------------------------------------------

  lemma {:induction false} DiffDraftAt(name: string, ds: seq<Difference>, i: nat)
    requires i < |ds|
    ensures |DiffDrafts(name, ds)| == |ds|
    ensures DiffDrafts(name, ds)[i] == Draft(name, FieldPath(ds[i]), DivergenceReason)
  {
    var n := |ds| - 1;
    DiffDraftsLength(name, ds[..n]);
    if i < n { DiffDraftAt(name, ds[..n], i); }
  }

  lemma DiffDraftsApart(name: string, ds: seq<Difference>)
    ensures Apart(DiffDrafts(name, ds)) <==> RenderedApart(ds)
    ensures |DiffDrafts(name, ds)| == |ds| && forall d :: d in DiffDrafts(name, ds) ==> d.platform == name
  {
    hide FieldPath, DiffDrafts;
    DiffDraftsLength(name, ds);
    forall i | 0 <= i < |ds| ensures DiffDrafts(name, ds)[i] == Draft(name, FieldPath(ds[i]), DivergenceReason) {
      DiffDraftAt(name, ds, i);
    }
    var drafts := DiffDrafts(name, ds);
    if Apart(drafts) {
      forall i, j | 0 <= i < j < |ds| ensures FieldPath(ds[i]) != FieldPath(ds[j]) {
        assert !SameKey(drafts[i], drafts[j]);
      }
    }
  }

  /** What one candidate contributes. */
  function TotalFor(results: seq<CandidateResult>, name: string): nat {
    if name in Names(results) then Find(results, name).total else 0
  }

  function TotalByName(results: seq<CandidateResult>, names: seq<string>): nat {
    if names == [] then 0
    else TotalByName(results, names[..|names| - 1]) + TotalFor(results, names[|names| - 1])
  }

  /** The result reports its differences truthfully. */
  predicate Truthful(r: CandidateResult) {
    r.total == |r.differences| && (r.matches <==> r.differences == [])
  }

  lemma {:induction false} CandidatesApart(names: seq<string>, results: seq<CandidateResult>)
    requires NoRepeats(names) && forall name :: name in names ==> name in Names(results)
    requires forall r :: r in results ==> Truthful(r)
    ensures Apart(CandidateDrafts(names, results)) <==>
            forall name :: name in names ==> RenderedApart(Find(results, name).differences)
    ensures forall d :: d in CandidateDrafts(names, results) ==> d.platform in names
    ensures |CandidateDrafts(names, results)| == TotalByName(results, names)
  {
    hide RenderedApart, DiffDrafts, Names, Find;
    if names != [] {
      var n := |names| - 1;
      var front, name := names[..n], names[n];
      CandidatesApart(front, results);
      var result := Find(results, name);
      assert result in results;
      var x, y := CandidateDrafts(front, results), if result.matches then [] else DiffDrafts(name, result.differences);
      DiffDraftsApart(name, result.differences);
      if result.matches { NoneIsApart(result.differences); }
      assert Apart(y) <==> RenderedApart(result.differences);
      assert CandidateDrafts(names, results) == x + y;
      assert forall m :: m in names <==> m in front || m == name;
      forall d, e | d in x && e in y ensures d.platform != e.platform {
        assert d.platform in front && e.platform == name;
      }
      assert TotalByName(results, names) == TotalByName(results, front) + result.total;
      hide *;
      ApartConcat(x, y);
    }
  }

  lemma NoneIsApart(ds: seq<Difference>)
    requires ds == []
    ensures RenderedApart(ds)
  {
  }

  // ---------------------------------------------------------------------
  // Sums do not depend on the order of names
  // ---------------------------------------------------------------------

  lemma {:induction false} TotalWithout(results: seq<CandidateResult>, names: seq<string>, k: nat)
    requires k < |names|
    ensures TotalByName(results, names) ==
            TotalByName(results, names[..k] + names[k + 1..]) + TotalFor(results, names[k])
    decreases |names|
  {
    hide TotalFor;
    var n := |names| - 1;
    if k < n {
      TotalWithout(results, names[..n], k);
      var rest := names[..k] + names[k + 1..];
      assert rest[..|rest| - 1] == names[..n][..k] + names[..n][k + 1..];
    } else {
      assert names[..k] + names[k + 1..] == names[..n];
    }
  }

  lemma {:induction false} TotalInAnyOrder(results: seq<CandidateResult>, x: seq<string>, y: seq<string>)
    requires NoRepeats(x) && NoRepeats(y) && forall n :: n in x <==> n in y
    ensures TotalByName(results, x) == TotalByName(results, y)
    decreases |x|
  {
    hide TotalFor;
    if x == [] {
      assert forall i :: 0 <= i < |y| ==> y[i] in y;
    } else {
      var last := x[|x| - 1];
      assert last in x;
      var k :| 0 <= k < |y| && y[k] == last;
      var front, rest := x[..|x| - 1], y[..k] + y[k + 1..];
      TotalWithout(results, y, k);
      forall n ensures n in front <==> n in rest {
        if n in front { var i :| 0 <= i < |front| && front[i] == n; assert x[i] in x && n != last; }
        if n in rest { var i :| 0 <= i < |rest| && rest[i] == n; assert n in y && n != last; }
      }
      TotalInAnyOrder(results, front, rest);
    }
  }

  lemma {:induction false} TotalOfNames(results: seq<CandidateResult>, n: nat)
    requires n <= |results| && forall i, j :: 0 <= i < j < |results| ==> results[i].name != results[j].name
    ensures TotalByName(results, Names(results[..n])) == TotalOf(results[..n])
  {
    if n > 0 {
      TotalOfNames(results, n - 1);
      FindInDistinct(results, n - 1);
      assert Names(results[..n])[..n - 1] == Names(results[..n - 1]);
      assert results[..n][..n - 1] == results[..n - 1];
    }
  }

  // ---------------------------------------------------------------------
  // The gate counts every divergence
  // ---------------------------------------------------------------------

  /** The required platforms without a candidate. */
  ghost function MissingPlatforms(candidates: seq<NamedTree>): set<string> {
    set p | p in RequiredPlatforms && forall c :: c in candidates ==> c.name != p
  }

  /** No candidate has two divergences with one path text. */
  predicate AllRenderedApart(canonical: Json, candidates: seq<NamedTree>) {
    forall c :: c in candidates ==> RenderedApart(Differences(canonical, c.tree, []))
  }

  lemma MissingCounted(candidates: seq<NamedTree>, names: seq<string>)
    requires |names| == |candidates| && forall i :: 0 <= i < |names| ==> names[i] == candidates[i].name
    ensures |MissingDrafts(Sorted(RequiredPlatforms), names)| == |MissingPlatforms(candidates)|
    ensures Apart(MissingDrafts(Sorted(RequiredPlatforms), names))
    ensures forall d :: d in MissingDrafts(Sorted(RequiredPlatforms), names) ==> d.platform !in names
  {
    SortedHasNoRepeats(RequiredPlatforms);
    MissingAreApart(Sorted(RequiredPlatforms), names);
    PresentExactly(candidates, names);
    assert MissingPlatforms(candidates) == set p | p in Sorted(RequiredPlatforms) && p !in names;
  }

  lemma NamesOfResults(canonical: Json, candidates: seq<NamedTree>)
    ensures var names := Names(Compared(canonical, candidates));
            |names| == |candidates| && forall i :: 0 <= i < |names| ==> names[i] == candidates[i].name
  {
    hide Differences;
  }

  lemma ResultsTruthful(canonical: Json, candidates: seq<NamedTree>)
    requires DistinctNames(candidates)
    ensures var results := Compared(canonical, candidates);
            && (forall r :: r in results ==> Truthful(r)) && NoRepeats(Names(results))
            && (forall i, j :: 0 <= i < j < |results| ==> results[i].name != results[j].name)
            && forall i :: 0 <= i < |results| ==> results[i].differences == Differences(canonical, candidates[i].tree, [])
  {
    hide Differences;
    var results := Compared(canonical, candidates);
    forall r | r in results ensures Truthful(r) {
      var i :| 0 <= i < |results| && results[i] == r;
    }
  }

  lemma ApartByName(canonical: Json, candidates: seq<NamedTree>)
    requires DistinctNames(candidates)
    ensures var results := Compared(canonical, candidates);
            (forall name :: name in Names(results) ==> RenderedApart(Find(results, name).differences)) <==>
            AllRenderedApart(canonical, candidates)
  {
    var results := Compared(canonical, candidates);
    ResultFacts(canonical, candidates);
    ResultsTruthful(canonical, candidates);
    hide *;
    ApartByResult(results);
    ApartByTree(canonical, candidates, results);
  }

  lemma ApartByResult(results: seq<CandidateResult>)
    requires forall i :: 0 <= i < |results| ==>
               results[i].name in Names(results) && Find(results, results[i].name) == results[i]
    ensures (forall name :: name in Names(results) ==> RenderedApart(Find(results, name).differences)) <==>
            forall i :: 0 <= i < |results| ==> RenderedApart(results[i].differences)
  {
    hide RenderedApart, Find;
    assert forall i :: 0 <= i < |results| ==> Names(results)[i] == results[i].name;
  }

  lemma ApartByTree(canonical: Json, candidates: seq<NamedTree>, results: seq<CandidateResult>)
    requires |results| == |candidates|
    requires forall i :: 0 <= i < |results| ==> results[i].differences == Differences(canonical, candidates[i].tree, [])
    ensures AllRenderedApart(canonical, candidates) <==>
            forall i :: 0 <= i < |results| ==> RenderedApart(results[i].differences)
  {
    hide RenderedApart, Differences;
    assert forall i :: 0 <= i < |candidates| ==> candidates[i] in candidates;
  }

  lemma DivergencesCounted(canonical: Json, candidates: seq<NamedTree>)
    requires DistinctNames(candidates)
    ensures var results := Compared(canonical, candidates);
            && (forall name :: name in Sorted(Names(results)) <==> name in Names(results))
            && var drafts := CandidateDrafts(Sorted(Names(results)), results);
            && |drafts| == TotalOf(results)
            && (Apart(drafts) <==> AllRenderedApart(canonical, candidates))
            && forall d :: d in drafts ==> d.platform in Names(results)
  {
    hide *;
    var results := Compared(canonical, candidates);
    ResultsTruthful(canonical, candidates);
    SortedHasNoRepeats(Names(results));
    assert results[..|results|] == results;
    TotalOfNames(results, |results|);
    ApartByName(canonical, candidates);
    CandidatesApart(Sorted(Names(results)), results);
    TotalInAnyOrder(results, Sorted(Names(results)), Names(results));
  }

  lemma DraftsCounted(canonical: Json, candidates: seq<NamedTree>)
    requires DistinctNames(candidates)
    ensures var document := Build(canonical, candidates);
            var drafts := BlockersFromDiff(document);
            && |drafts| == |MissingPlatforms(candidates)| + document.total
            && (Apart(drafts) <==> AllRenderedApart(canonical, candidates))
  {
    var results := Compared(canonical, candidates);
    var names := Names(results);
    DraftsOfBuild(canonical, candidates);
    NamesOfResults(canonical, candidates);
    hide *;
    DivergencesCounted(canonical, candidates);
    MissingCounted(candidates, names);
    var m, c := MissingDrafts(Sorted(RequiredPlatforms), names), CandidateDrafts(Sorted(names), results);
    ApartConcat(m, c);
  }

  /** Registering a built diff-result for a run without blockers leaves one open blocker for
      each missing platform and each divergence, exactly when no candidate has two
      divergences with one path text; otherwise fewer. */
  lemma OpenCountExactly(s: State, run: string, canonical: Json, candidates: seq<NamedTree>, severity: string, now: string)
    requires run != "" && NoBlockerOf(s, run) && DistinctNames(candidates)
    ensures var document := Build(canonical, candidates);
            var t := Apply(s, AddFromDiff(document, Some(run), severity, now));
            var open, all := OpenCount(t.blockers, Some(run)), |MissingPlatforms(candidates)| + document.total;
            open <= all && (open == all <==> AllRenderedApart(canonical, candidates))
  {
    GateIsCorrect(s, run, canonical, candidates, severity, now);
    DraftsCounted(canonical, candidates);
    KeysCountDrafts(BlockersFromDiff(Build(canonical, candidates)));
  }

  /** When no key in any of the trees is empty or contains a `.` or a `[`, the gate counts
      every missing platform and every divergence. */
  lemma PlainTreesAreCounted(s: State, run: string, canonical: Json, candidates: seq<NamedTree>, severity: string, now: string)
    requires run != "" && NoBlockerOf(s, run) && DistinctNames(candidates)
    requires PlainTree(canonical) && forall c :: c in candidates ==> PlainTree(c.tree)
    ensures var document := Build(canonical, candidates);
            var t := Apply(s, AddFromDiff(document, Some(run), severity, now));
            OpenCount(t.blockers, Some(run)) == |MissingPlatforms(candidates)| + document.total
  {
    forall c | c in candidates ensures RenderedApart(Differences(canonical, c.tree, [])) {
      PlainTreesRenderApart(canonical, c.tree);
    }
    OpenCountExactly(s, run, canonical, candidates, severity, now);
  }

  /** With the trees of `PathStringsCollide` a divergence is reported and never registered. */
  lemma CollidingPathsLoseBlockers(s: State, run: string, name: string, u: Json, v: Json, severity: string, now: string)
    requires run != "" && NoBlockerOf(s, run) && !SameContainer(u, v) && !PyEq(u, v)
    ensures var candidates := [NamedTree(name, Dotted(v))];
            var document := Build(Dotted(u), candidates);
            var t := Apply(s, AddFromDiff(document, Some(run), severity, now));
            OpenCount(t.blockers, Some(run)) < |MissingPlatforms(candidates)| + document.total
  {
    var candidates := [NamedTree(name, Dotted(v))];
    PathStringsCollide(u, v);
    assert candidates[0] in candidates;
    hide PyEq, Dotted, Differences, Build, Apply, OpenCount, RenderedApart;
    OpenCountExactly(s, run, Dotted(u), candidates, severity, now);
  }

  // ---------------------------------------------------------------------
  // What the gate means by equal
  // ---------------------------------------------------------------------

  predicate AllStrictlyEqual(canonical: Json, candidates: seq<NamedTree>) {
    forall c :: c in candidates ==> StrictEq(canonical, c.tree)
  }

  /** The gate opens on trees that are not equal as JSON exactly when Python finds them equal
      and in one of them a boolean meets the number it equals in Python. */
  lemma GateMistakesExactly(s: State, run: string, canonical: Json, candidates: seq<NamedTree>, severity: string, now: string)
    requires run != "" && NoBlockerOf(s, run) && DistinctNames(candidates)
    ensures var t := Apply(s, AddFromDiff(Build(canonical, candidates), Some(run), severity, now));
            (OpenCount(t.blockers, Some(run)) == 0 && !AllStrictlyEqual(canonical, candidates)) <==>
            (AllPresent(candidates) && AllEqual(canonical, candidates)
             && exists c :: c in candidates && BooleanMeetsNumber(canonical, c.tree))
  {
    GateIsCorrect(s, run, canonical, candidates, severity, now);
    hide Apply, OpenCount, Build, AllPresent, PyEq, StrictEq, BooleanMeetsNumber;
    forall c | c in candidates
      ensures StrictEq(canonical, c.tree) <==> PyEq(canonical, c.tree) && !BooleanMeetsNumber(canonical, c.tree)
    {
      PyEqIsStrictExactly(canonical, c.tree);
    }
  }
}
