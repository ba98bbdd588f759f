/** The diff-result document for one canonical tree and several named candidates. */
module DiffResult {
  import opened Text
  import opened Json
  import opened TreeDiff

  datatype NamedTree = NamedTree(name: string, tree: Json)

  datatype CandidateResult = CandidateResult(name: string, matches: bool, total: nat, differences: seq<Difference>)

  /** `candidates` and `summary` are dictionaries keyed by name; the summary repeats each
      candidate's `matches` and `total`. */
  datatype Document = Document(candidates: seq<CandidateResult>, matches: bool, total: nat)

  /** Hashes, paths and timestamps of the document are not modelled. */
  function Compare(canonical: Json, candidate: NamedTree): CandidateResult {
    var ds := Differences(canonical, candidate.tree, []);
    CandidateResult(candidate.name, |ds| == 0, |ds|, ds)
  }

  function Compared(canonical: Json, candidates: seq<NamedTree>): (r: seq<CandidateResult>)
    ensures |r| == |candidates|
    ensures forall i :: 0 <= i < |r| ==> r[i] == Compare(canonical, candidates[i])
  {
    if candidates == [] then []
    else
      var n := |candidates| - 1;
      Compared(canonical, candidates[..n]) + [Compare(canonical, candidates[n])]
  }

  function TotalOf(results: seq<CandidateResult>): nat {
    if results == [] then 0 else TotalOf(results[..|results| - 1]) + results[|results| - 1].total
  }

  predicate AllMatch(results: seq<CandidateResult>) {
    forall r :: r in results ==> r.matches
  }

  predicate DistinctNames(candidates: seq<NamedTree>) {
    forall i, j :: 0 <= i < j < |candidates| ==> candidates[i].name != candidates[j].name
  }

  /** Assignment to a dictionary: a result of the same name is replaced where it stands. */
  function Put(results: seq<CandidateResult>, r: CandidateResult): seq<CandidateResult> {
    if results == [] then [r]
    else if results[0].name == r.name then [r] + results[1..]
    else [results[0]] + Put(results[1..], r)
  }

  /** The dictionary after all assignments. */
  function ByName(results: seq<CandidateResult>): seq<CandidateResult> {
    if results == [] then [] else Put(ByName(results[..|results| - 1]), results[|results| - 1])
  }

  /** The overall figures count every candidate, also one whose name is given again. */
  function Build(canonical: Json, candidates: seq<NamedTree>): Document {
    var results := Compared(canonical, candidates);
    Document(ByName(results), AllMatch(results), TotalOf(results))
  }

  lemma {:induction false} PutNew(results: seq<CandidateResult>, r: CandidateResult)
    requires forall x :: x in results ==> x.name != r.name
    ensures Put(results, r) == results + [r]
  {
    if results != [] {
      assert results[0] in results;
      PutNew(results[1..], r);
    }
  }

  lemma {:induction false} DistinctAreKept(results: seq<CandidateResult>)
    requires forall i, j :: 0 <= i < j < |results| ==> results[i].name != results[j].name
    ensures ByName(results) == results
  {
    if results != [] {
      var n := |results| - 1;
      DistinctAreKept(results[..n]);
      PutNew(results[..n], results[n]);
    }
  }

  predicate FirstOfName(results: seq<CandidateResult>, i: nat) {
    i < |results| && forall j :: 0 <= j < i ==> results[j].name != results[i].name
  }

  /** Among the first `n` results. */
  predicate LastOfName(results: seq<CandidateResult>, n: nat, i: nat) {
    i < n <= |results| && forall j :: i < j < n ==> results[j].name != results[i].name
  }

  /** What is kept stands where its name first occurs, and is the last result of that name. */
  predicate KeptAt(results: seq<CandidateResult>, n: nat, r: CandidateResult, first: nat, last: nat) {
    && FirstOfName(results, first) && LastOfName(results, n, last)
    && results[first].name == r.name && r == results[last]
  }

  /** For each name among the first `n` results one is kept, in the order of the names. */
  ghost predicate Keeps(results: seq<CandidateResult>, n: nat, kept: seq<CandidateResult>, first: seq<nat>, last: seq<nat>) {
    && |first| == |last| == |kept|
    && (forall a, b :: 0 <= a < b < |kept| ==> first[a] < first[b])
    && (forall a :: 0 <= a < |kept| ==> KeptAt(results, n, kept[a], first[a], last[a]))
    && forall i: nat :: i in first <==> i < n && FirstOfName(results, i)
  }

  lemma {:induction false} PutReplaces(kept: seq<CandidateResult>, a: nat, r: CandidateResult)
    requires a < |kept| && kept[a].name == r.name && forall b :: 0 <= b < a ==> kept[b].name != r.name
    ensures Put(kept, r) == kept[a := r]
  {
    if a > 0 { PutReplaces(kept[1..], a - 1, r); }
  }

  /** For any list of results the dictionary holds each name once, at the place of its first
      result and with its last one. */
  lemma LastResultsKept(results: seq<CandidateResult>) returns (first: seq<nat>, last: seq<nat>)
    ensures Keeps(results, |results|, ByName(results), first, last)
  {
    first, last := KeptOfPrefix(results, |results|);
    assert results[..|results|] == results;
  }

  lemma {:induction false} KeptOfPrefix(results: seq<CandidateResult>, n: nat) returns (first: seq<nat>, last: seq<nat>)
    requires n <= |results|
    ensures Keeps(results, n, ByName(results[..n]), first, last)
  {
    if n == 0 {
      first, last := [], [];
    } else {
      first, last := KeptOfPrefix(results, n - 1);
      ByNameStep(results, n - 1);
      hide *;
      first, last := KeepsOneMore(results, n - 1, ByName(results[..n - 1]), first, last);
    }
  }

  lemma ByNameStep(results: seq<CandidateResult>, n: nat)
    requires n < |results|
    ensures ByName(results[..n + 1]) == Put(ByName(results[..n]), results[n])
  {
    assert results[..n + 1][..n] == results[..n];
  }

  lemma KeepsOneMore(results: seq<CandidateResult>, n: nat, kept: seq<CandidateResult>, first: seq<nat>, last: seq<nat>)
    returns (first': seq<nat>, last': seq<nat>)
    requires n < |results| && Keeps(results, n, kept, first, last)
    ensures Keeps(results, n + 1, Put(kept, results[n]), first', last')
  {
    if a: nat :| a < |kept| && kept[a].name == results[n].name {
      ReplacedName(results, n, kept, first, last, a);
      first', last' := first, last[a := n];
    } else {
      NewName(results, n, kept, first, last);
      first', last' := first + [n], last + [n];
    }
  }

  lemma NamesApart(results: seq<CandidateResult>, n: nat, kept: seq<CandidateResult>, first: seq<nat>, last: seq<nat>)
    requires Keeps(results, n, kept, first, last)
    ensures forall b, c :: 0 <= b < c < |kept| ==> kept[b].name != kept[c].name
  {
    forall b, c | 0 <= b < c < |kept| ensures kept[b].name != kept[c].name {
      assert KeptAt(results, n, kept[b], first[b], last[b]) && KeptAt(results, n, kept[c], first[c], last[c]);
    }
  }

  lemma StillKept(results: seq<CandidateResult>, n: nat, r: CandidateResult, first: nat, last: nat)
    requires n < |results| && KeptAt(results, n, r, first, last) && r.name != results[n].name
    ensures KeptAt(results, n + 1, r, first, last)
  {
  }

  lemma ReplacedName(results: seq<CandidateResult>, n: nat, kept: seq<CandidateResult>, first: seq<nat>, last: seq<nat>, a: nat)
    requires n < |results| && Keeps(results, n, kept, first, last)
    requires a < |kept| && kept[a].name == results[n].name
    ensures Keeps(results, n + 1, Put(kept, results[n]), first, last[a := n])
  {
    hide *;
    NamesApart(results, n, kept, first, last);
    PutReplaces(kept, a, results[n]);
    HolderAt(results, n, kept, first, last, a);
    AllStillKept(results, n, kept, first, last, {a});
    ReplaceKeeps(results, n, kept, first, last, a);
  }

  lemma HolderAt(results: seq<CandidateResult>, n: nat, kept: seq<CandidateResult>, first: seq<nat>, last: seq<nat>, a: nat)
    requires n < |results| && Keeps(results, n, kept, first, last)
    requires a < |kept| && kept[a].name == results[n].name
    ensures |first| == |last| == |kept| && KeptAt(results, n + 1, results[n], first[a], n) && !FirstOfName(results, n)
  {
    assert KeptAt(results, n, kept[a], first[a], last[a]);
    assert first[a] in first;
  }

  lemma ReplaceKeeps(results: seq<CandidateResult>, n: nat, kept: seq<CandidateResult>, first: seq<nat>, last: seq<nat>, a: nat)
    requires n < |results| && Keeps(results, n, kept, first, last) && a < |kept| && !FirstOfName(results, n)
    requires KeptAt(results, n + 1, results[n], first[a], n)
    requires forall b: nat :: b < |kept| && b !in {a} ==> KeptAt(results, n + 1, kept[b], first[b], last[b])
    ensures Keeps(results, n + 1, kept[a := results[n]], first, last[a := n])
  {
    hide KeptAt, FirstOfName;
  }

  lemma AllStillKept(results: seq<CandidateResult>, n: nat, kept: seq<CandidateResult>, first: seq<nat>, last: seq<nat>, but: set<nat>)
    requires n < |results| && Keeps(results, n, kept, first, last)
    requires forall b: nat :: b < |kept| && b !in but ==> kept[b].name != results[n].name
    ensures |first| == |last| == |kept|
    ensures forall b: nat :: b < |kept| && b !in but ==> KeptAt(results, n + 1, kept[b], first[b], last[b])
  {
    forall b: nat | b < |kept| && b !in but ensures KeptAt(results, n + 1, kept[b], first[b], last[b]) {
      StillKept(results, n, kept[b], first[b], last[b]);
    }
  }

  lemma NewName(results: seq<CandidateResult>, n: nat, kept: seq<CandidateResult>, first: seq<nat>, last: seq<nat>)
    requires n < |results| && Keeps(results, n, kept, first, last)
    requires forall a :: 0 <= a < |kept| ==> kept[a].name != results[n].name
    ensures Keeps(results, n + 1, Put(kept, results[n]), first + [n], last + [n])
  {
    hide *;
    NoneNamed(kept, results[n]);
    PutNew(kept, results[n]);
    NotBefore(results, n, kept, first, last);
    AllStillKept(results, n, kept, first, last, {});
    NewKeeps(results, n, kept, first, last);
  }

  lemma NoneNamed(kept: seq<CandidateResult>, r: CandidateResult)
    requires forall a :: 0 <= a < |kept| ==> kept[a].name != r.name
    ensures forall x :: x in kept ==> x.name != r.name
  {
  }

  lemma NewKeeps(results: seq<CandidateResult>, n: nat, kept: seq<CandidateResult>, first: seq<nat>, last: seq<nat>)
    requires n < |results| && Keeps(results, n, kept, first, last) && FirstOfName(results, n)
    requires forall b: nat :: b < |kept| && b !in {} ==> KeptAt(results, n + 1, kept[b], first[b], last[b])
    ensures Keeps(results, n + 1, kept + [results[n]], first + [n], last + [n])
  {
    assert KeptAt(results, n + 1, results[n], n, n);
    hide KeptAt, FirstOfName;
    forall a | 0 <= a < |first| ensures first[a] < n { assert first[a] in first; }
    assert forall i: nat :: i in first + [n] <==> i in first || i == n;
  }

  lemma NotBefore(results: seq<CandidateResult>, n: nat, kept: seq<CandidateResult>, first: seq<nat>, last: seq<nat>)
    requires n < |results| && Keeps(results, n, kept, first, last)
    requires forall a :: 0 <= a < |kept| ==> kept[a].name != results[n].name
    ensures FirstOfName(results, n)
  {
    forall j | 0 <= j < n ensures results[j].name != results[n].name {
      var i := NamedFirst(results, j);
      assert i in first;
      var a :| 0 <= a < |first| && first[a] == i;
      assert KeptAt(results, n, kept[a], first[a], last[a]);
    }
  }

  lemma {:induction false} NamedFirst(results: seq<CandidateResult>, j: nat) returns (i: nat)
    requires j < |results|
    ensures i <= j && FirstOfName(results, i) && results[i].name == results[j].name
  {
    i := j;
    if !FirstOfName(results, j) {
      var k: nat :| k < j && results[k].name == results[j].name;
      i := NamedFirst(results, k);
    }
  }

  /** With distinct names every result stays, in order. */
  lemma BuildOfDistinct(canonical: Json, candidates: seq<NamedTree>)
    requires DistinctNames(candidates)
    ensures Build(canonical, candidates).candidates == Compared(canonical, candidates)
  {
    hide Differences;
    DistinctAreKept(Compared(canonical, candidates));
  }

  lemma ResultsSnoc(results: seq<CandidateResult>, r: CandidateResult)
    ensures TotalOf(results + [r]) == TotalOf(results) + r.total
    ensures AllMatch(results + [r]) <==> AllMatch(results) && r.matches
    ensures ByName(results + [r]) == Put(ByName(results), r)
  {
    assert (results + [r])[..|results|] == results;
    assert forall x :: x in results + [r] <==> x in results || x == r;
  }

  lemma ComparedSnoc(canonical: Json, candidates: seq<NamedTree>, i: nat)
    requires i < |candidates|
    ensures Compared(canonical, candidates[..i + 1]) ==
            Compared(canonical, candidates[..i]) + [Compare(canonical, candidates[i])]
  {
    assert candidates[..i + 1][..i] == candidates[..i];
  }

  lemma EmptyResults(canonical: Json, candidates: seq<NamedTree>)
    ensures Compared(canonical, candidates[..0]) == [] && ByName([]) == [] && AllMatch([]) && TotalOf([]) == 0
    ensures var results := Compared(canonical, candidates);
            Build(canonical, candidates) == Document(ByName(results), AllMatch(results), TotalOf(results))
  {
  }

  /** `build_diff_result`. */
  method BuildDiffResult(canonical: Json, candidates: seq<NamedTree>) returns (document: Document)
    ensures document == Build(canonical, candidates)
  {
    hide *;
    EmptyResults(canonical, candidates);
    var kept: seq<CandidateResult>, overallMatch, overallTotal := [], true, 0;
    ghost var results: seq<CandidateResult> := [];
    for i := 0 to |candidates|
      invariant results == Compared(canonical, candidates[..i]) && kept == ByName(results)
      invariant overallMatch == AllMatch(results) && overallTotal == TotalOf(results)
    {
      var result := CompareCandidate(canonical, candidates[i]);
      ComparedSnoc(canonical, candidates, i);
      ResultsSnoc(results, result);
      results := results + [result];
      kept := Put(kept, result);
      overallMatch := overallMatch && result.matches;
      overallTotal := overallTotal + result.total;
    }
    assert candidates[..|candidates|] == candidates;
    document := Document(kept, overallMatch, overallTotal);
  }

  /** `compare_candidate`. */
  method CompareCandidate(canonical: Json, candidate: NamedTree) returns (result: CandidateResult)
    ensures result == Compare(canonical, candidate)
  {
    var diffs := CollectDifferences(canonical, candidate.tree, []);
    result := CandidateResult(candidate.name, |diffs| == 0, |diffs|, diffs);
  }

  lemma {:induction false} TotalZeroExactly(results: seq<CandidateResult>)
    ensures TotalOf(results) == 0 <==> forall r :: r in results ==> r.total == 0
  {
    if results != [] {
      var n := |results| - 1;
      TotalZeroExactly(results[..n]);
      assert forall r :: r in results <==> r in results[..n] || r == results[n];
    }
  }

  /** The document reports a match, and a zero total, exactly when Python finds every
      candidate tree equal to the canonical one. */
  lemma MatchExactly(canonical: Json, candidates: seq<NamedTree>)
    ensures Build(canonical, candidates).matches <==> forall c :: c in candidates ==> PyEq(canonical, c.tree)
    ensures Build(canonical, candidates).matches <==> Build(canonical, candidates).total == 0
    ensures forall i :: 0 <= i < |candidates| ==>
              (Compared(canonical, candidates)[i].matches <==> PyEq(canonical, candidates[i].tree))
  {
    var results := Compared(canonical, candidates);
    TotalZeroExactly(results);
    forall i | 0 <= i < |candidates|
      ensures results[i].matches <==> PyEq(canonical, candidates[i].tree)
      ensures results[i].matches <==> results[i].total == 0
    {
      EmptyExactlyOnEqual(canonical, candidates[i].tree, []);
    }
    if forall c :: c in candidates ==> PyEq(canonical, c.tree) {
      forall r | r in results ensures r.matches {
        var i :| 0 <= i < |results| && results[i] == r;
        assert candidates[i] in candidates;
      }
    }
    if AllMatch(results) {
      forall c | c in candidates ensures PyEq(canonical, c.tree) {
        var i :| 0 <= i < |candidates| && candidates[i] == c;
        assert results[i] in results;
      }
    }
  }

  // ---------------------------------------------------------------------
  // Rendered paths
  // ---------------------------------------------------------------------

  /** The dotted path string; keys are not escaped. */
  function Render(path: Path): string {
    if path == [] then ""
    else
      var parent := Render(path[..|path| - 1]);
      match path[|path| - 1]
      case Key(name) => if parent == "" then name else parent + "." + name
      case Index(i) => parent + "[" + Decimal(i) + "]"
  }

  function FieldPath(d: Difference): string {
    var path := Render(d.path);
    if d.kind == ValueMismatch && path == "" then "<root>" else path
  }
}
