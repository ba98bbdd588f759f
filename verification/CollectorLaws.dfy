/** What the figures of a run say about the trees that were compared. */
module CollectorLaws {
  import opened Text
  import opened Ordering
  import opened Json
  import opened TreeDiff
  import opened DiffResult
  import opened BlockerRegister
  import opened Collector
  import opened Packager

  predicate IsHost(name: string) { name == "ios" || name == "android" || name == "harmony" }

  predicate HasCandidate(candidates: seq<NamedTree>, name: string) {
    exists i :: 0 <= i < |candidates| && candidates[i].name == name
  }

  lemma HostsListed(name: string)
    ensures name in HostPlatforms <==> IsHost(name)
  {
    assert HostPlatforms[0] == "ios" && HostPlatforms[1] == "android" && HostPlatforms[2] == "harmony";
  }

  lemma NamesOfCandidates(canonical: Json, candidates: seq<NamedTree>, name: string)
    requires DistinctNames(candidates)
    ensures name in Names(Compared(canonical, candidates)) <==> HasCandidate(candidates, name)
  {
    hide Differences;
    var names := Names(Compared(canonical, candidates));
    assert forall i :: 0 <= i < |candidates| ==> names[i] == candidates[i].name;
  }

  /** The entry of a candidate tells whether its tree equals the canonical one, and how many
      divergences there are. */
  lemma ParityOfCandidate(canonical: Json, candidates: seq<NamedTree>, i: nat)
    requires DistinctNames(candidates) && i < |candidates|
    ensures ParityOf(Compared(canonical, candidates), candidates[i].name) ==
            PlatformParity(true, PyEq(canonical, candidates[i].tree), Some(|Differences(canonical, candidates[i].tree, [])|))
  {
    ResultFacts(canonical, candidates);
    hide Differences, PyEq, Find;
    assert Compared(canonical, candidates)[i] == Compare(canonical, candidates[i]);
  }

  lemma {:induction false} TotalOfThree(results: seq<CandidateResult>)
    ensures ParityTotal(results, HostPlatforms) ==
            ParityOf(results, "ios").total.GetOr(0) + ParityOf(results, "android").total.GetOr(0)
            + ParityOf(results, "harmony").total.GetOr(0)
  {
    hide ParityOf;
    assert HostPlatforms[..2] == ["ios", "android"] && HostPlatforms[..2][..1] == ["ios"] && ["ios"][..0] == [];
    assert HostPlatforms[2] == "harmony";
    assert ParityTotal(results, ["ios"]) == ParityTotal(results, []) + ParityOf(results, "ios").total.GetOr(0);
    assert ParityTotal(results, ["ios", "android"]) == ParityTotal(results, ["ios"]) + ParityOf(results, "android").total.GetOr(0)
      by { assert ["ios", "android"][..1] == ["ios"]; }
  }

  lemma ParityIs(results: seq<CandidateResult>)
    ensures var parity := ParityFor(results, HostPlatforms);
            && (parity.allPresent <==> forall p :: IsHost(p) ==> p in Names(results))
            && (parity.matches <==> forall p :: IsHost(p) ==> p in Names(results) && ParityOf(results, p).matches)
            && (forall p :: p in parity.byPlatform <==> IsHost(p))
            && (forall p :: IsHost(p) ==> parity.byPlatform[p] == ParityOf(results, p))
            && parity.total == ParityTotal(results, HostPlatforms)
  {
    forall p ensures p in HostPlatforms <==> IsHost(p) { HostsListed(p); }
    hide ParityOf, Names, ParityTotal, IsHost;
  }

  /** Host parity in terms of the candidates: which hosts are there, whether all of them are
      there with a tree equal to the canonical one, each host's own verdict and number of
      divergences, and the sum of these numbers. Other candidates do not matter. */
  lemma ParityTells(canonical: Json, candidates: seq<NamedTree>)
    requires DistinctNames(candidates)
    ensures var parity := ParityFor(Build(canonical, candidates).candidates, HostPlatforms);
            && (parity.allPresent <==> forall p :: IsHost(p) ==> HasCandidate(candidates, p))
            && (parity.matches <==>
                  && parity.allPresent
                  && forall i :: 0 <= i < |candidates| && IsHost(candidates[i].name) ==> PyEq(canonical, candidates[i].tree))
            && (forall p :: p in parity.byPlatform <==> IsHost(p))
            && (forall i :: 0 <= i < |candidates| && IsHost(candidates[i].name) ==>
                  parity.byPlatform[candidates[i].name] ==
                  PlatformParity(true, PyEq(canonical, candidates[i].tree), Some(|Differences(canonical, candidates[i].tree, [])|)))
            && (forall p :: IsHost(p) && !HasCandidate(candidates, p) ==>
                  parity.byPlatform[p] == PlatformParity(false, false, None))
            && "ios" in parity.byPlatform && "android" in parity.byPlatform && "harmony" in parity.byPlatform
            && parity.total == parity.byPlatform["ios"].total.GetOr(0) + parity.byPlatform["android"].total.GetOr(0)
                               + parity.byPlatform["harmony"].total.GetOr(0)
  {
    var results := Compared(canonical, candidates);
    hide *;
    BuildOfDistinct(canonical, candidates);
    ParityIs(results);
    TotalOfThree(results);
    HostNames();
    ParityByCandidate(canonical, candidates);
  }

  lemma HostNames()
    ensures IsHost("ios") && IsHost("android") && IsHost("harmony")
  {
  }

  lemma ParityByCandidate(canonical: Json, candidates: seq<NamedTree>)
    requires DistinctNames(candidates)
    ensures var results := Compared(canonical, candidates);
            && (forall p :: p in Names(results) <==> HasCandidate(candidates, p))
            && (forall p :: !HasCandidate(candidates, p) ==> ParityOf(results, p) == PlatformParity(false, false, None))
            && (forall i :: 0 <= i < |candidates| ==>
                  ParityOf(results, candidates[i].name) ==
                  PlatformParity(true, PyEq(canonical, candidates[i].tree), Some(|Differences(canonical, candidates[i].tree, [])|)))
            && (forall p :: HasCandidate(candidates, p) ==> exists i :: 0 <= i < |candidates| && candidates[i].name == p)
            && (forall i :: 0 <= i < |candidates| ==> HasCandidate(candidates, candidates[i].name))
  {
    hide Differences, PyEq, Find, Compared, Names;
    forall p ensures p in Names(Compared(canonical, candidates)) <==> HasCandidate(candidates, p) {
      NamesOfCandidates(canonical, candidates, p);
    }
    forall i | 0 <= i < |candidates|
      ensures ParityOf(Compared(canonical, candidates), candidates[i].name) ==
              PlatformParity(true, PyEq(canonical, candidates[i].tree), Some(|Differences(canonical, candidates[i].tree, [])|))
    {
      ParityOfCandidate(canonical, candidates, i);
    }
  }

  /** Exactly the platforms that are not named, once each and in ascending order. */
  lemma {:induction false} AbsentExactly(platforms: seq<string>, names: seq<string>)
    requires Ascending(platforms)
    ensures Ascending(Absent(platforms, names))
    ensures forall p :: p in Absent(platforms, names) <==> p in platforms && p !in names
  {
    if platforms != [] {
      var n := |platforms| - 1;
      AbsentExactly(platforms[..n], names);
      var front := Absent(platforms[..n], names);
      assert platforms == platforms[..n] + [platforms[n]];
      forall i | 0 <= i < |front| ensures Less(front[i], platforms[n]) {
        assert front[i] in front;
        var j :| 0 <= j < n && platforms[j] == front[i];
      }
    }
  }

  /** The proof's list of missing platforms. */
  lemma MissingExactly(canonical: Json, candidates: seq<NamedTree>)
    requires DistinctNames(candidates)
    ensures var missing := Absent(Sorted(RequiredPlatforms), Names(Build(canonical, candidates).candidates));
            && Ascending(missing) && (forall p :: p in missing <==> p in RequiredPlatforms && !HasCandidate(candidates, p))
            && (missing == [] <==> forall p :: p in RequiredPlatforms ==> HasCandidate(candidates, p))
  {
    var names := Names(Build(canonical, candidates).candidates);
    var missing := Absent(Sorted(RequiredPlatforms), names);
    hide *;
    SortedIsAscending(RequiredPlatforms);
    AbsentExactly(Sorted(RequiredPlatforms), names);
    BuildOfDistinct(canonical, candidates);
    forall p ensures p in names <==> HasCandidate(candidates, p) { NamesOfCandidates(canonical, candidates, p); }
    if missing != [] { assert missing[0] in missing; }
  }

  /** The id is given, not blank, and is the wanted one up to white space around it. */
  predicate Identifies(binding: Option<string>, wanted: string) {
    binding.Some? && !AllWhitespace(binding.value) && Trim(binding.value) == wanted
  }

  /** The conditions in terms of the inputs: the source manifest field by field, and the four
      outcome conditions in terms of the trees. */
  lemma ConditionsTell(source: Option<SourceManifest>, canonical: Json, candidates: seq<NamedTree>, open: nat,
                       run: string, scenario: string)
    requires DistinctNames(candidates)
    ensures var document := Build(canonical, candidates);
            var c := ConditionsOf(source, document, ParityFor(document.candidates, HostPlatforms), open, run, scenario);
            && c.sourceManifestPresent == source.Some?
            && (c.schemaVersionBound <==> source.Some? && source.value.schemaVersionBound)
            && (c.coreIdentityBound <==> source.Some? && source.value.coreIdentityBound)
            && (c.artifactHashesBound <==> source.Some? && source.value.artifactHashesBound)
            && (c.runBindingDeclared <==> source.Some? && exists id :: Identifies(source.value.runId, id))
            && (c.runBindingMatches <==> source.Some? && Identifies(source.value.runId, run))
            && (c.scenarioBindingDeclared <==> source.Some? && exists id :: Identifies(source.value.scenario, id))
            && (c.scenarioBindingMatches <==> source.Some? && Identifies(source.value.scenario, scenario))
            && (c.expectedDeclared <==> source.Some? && source.value.expected.Some?)
            && (c.fullDiffExpectedDeclared <==> c.expectedDeclared && source.value.expected.value.fullDiff)
            && (c.byPlatformExpectedDeclared <==> c.expectedDeclared && source.value.expected.value.byPlatform)
            && (c.hostParityExpectedDeclared <==> c.expectedDeclared && source.value.expected.value.hostParity)
            && c.fourPlatformCandidatesPresent == c.fourPlatformSummaryPresent
               == (forall p :: p in RequiredPlatforms ==> HasCandidate(candidates, p))
            && (c.fullDiffMatch <==> AllEqual(canonical, candidates))
            && (c.hostParityMatch <==>
                  && (forall p :: IsHost(p) ==> HasCandidate(candidates, p))
                  && forall i :: 0 <= i < |candidates| && IsHost(candidates[i].name) ==> PyEq(canonical, candidates[i].tree))
            && c.openBlockers == open
  {
    var document := Build(canonical, candidates);
    hide *;
    MatchExactly(canonical, candidates);
    MissingExactly(canonical, candidates);
    ParityTells(canonical, candidates);
    MatchMeansZero(canonical, candidates);
    ConditionsAre(source, document, ParityFor(document.candidates, HostPlatforms), open, run, scenario);
    AllEqualIs(canonical, candidates);
  }

  lemma AllEqualIs(canonical: Json, candidates: seq<NamedTree>)
    ensures AllEqual(canonical, candidates) <==> forall c :: c in candidates ==> PyEq(canonical, c.tree)
  {
  }

  lemma ConditionsAre(source: Option<SourceManifest>, document: Document, parity: HostParity, open: nat,
                      run: string, scenario: string)
    ensures var c := ConditionsOf(source, document, parity, open, run, scenario);
            && c.sourceManifestPresent == source.Some?
            && (c.schemaVersionBound <==> source.Some? && source.value.schemaVersionBound)
            && (c.coreIdentityBound <==> source.Some? && source.value.coreIdentityBound)
            && (c.artifactHashesBound <==> source.Some? && source.value.artifactHashesBound)
            && (c.runBindingDeclared <==> source.Some? && exists id :: Identifies(source.value.runId, id))
            && (c.runBindingMatches <==> source.Some? && Identifies(source.value.runId, run))
            && (c.scenarioBindingDeclared <==> source.Some? && exists id :: Identifies(source.value.scenario, id))
            && (c.scenarioBindingMatches <==> source.Some? && Identifies(source.value.scenario, scenario))
            && (c.expectedDeclared <==> source.Some? && source.value.expected.Some?)
            && (c.fullDiffExpectedDeclared <==> c.expectedDeclared && source.value.expected.value.fullDiff)
            && (c.byPlatformExpectedDeclared <==> c.expectedDeclared && source.value.expected.value.byPlatform)
            && (c.hostParityExpectedDeclared <==> c.expectedDeclared && source.value.expected.value.hostParity)
            && c.fourPlatformCandidatesPresent == c.fourPlatformSummaryPresent
               == (Absent(Sorted(RequiredPlatforms), Names(document.candidates)) == [])
            && (c.fullDiffMatch <==> document.total == 0 && document.matches)
            && (c.hostParityMatch <==> parity.total == 0 && parity.matches)
            && c.openBlockers == open
  {
    hide Absent, Sorted, Names, Trim, IsWhitespace;
    if source.Some? {
      BindingIs(source.value.runId, run);
      BindingIs(source.value.scenario, scenario);
    }
    hide Declared, Bound, Identifies;
  }

  lemma BindingIs(binding: Option<string>, wanted: string)
    ensures Declared(binding) <==> exists id :: Identifies(binding, id)
    ensures Bound(binding, wanted) <==> Identifies(binding, wanted)
  {
    if binding.Some? {
      BlankExactly(binding.value);
      assert Identifies(binding, Trim(binding.value)) <==> !AllWhitespace(binding.value);
    }
  }
}
