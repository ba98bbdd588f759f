/** The packager: it recomputes what a collector manifest claims and decides whether a
    packaged corpus proof is acceptable. */
module Packager {
  import opened Text
  import opened Ordering
  import opened Json
  import opened DiffResult
  import opened BlockerRegister
  import opened Collector

  datatype ConsistencyError =
    | DiffSummaryWrong | HostParityWrong | RegisterMissing | RegisterNotLoaded | NotARegister
    | OpenWrong | OpenByPlatformWrong
    | FullDiffConditionWrong | HostParityConditionWrong | OpenBlockersConditionWrong
    | PassDespiteDiff | PassDespiteHostParity | PassDespiteOpenBlockers

  datatype ProofError =
    | StatusNotPass | HostParityNotTrue | ConditionNotTrue(name: string)
    | OpenBlockersNotZero | ReasonsNotEmpty | MissingCandidatesNotEmpty | MissingSummaryNotEmpty

  /** `_host_parity_from_diff`, the packager's own recomputation. */
  method HostParityFromDiff(document: Document) returns (parity: HostParity)
    ensures parity == ParityFor(document.candidates, HostPlatforms)
  {
    var results, allPresent, allMatch, total := document.candidates, true, true, 0;
    var byPlatform: map<string, PlatformParity> := map[];
    for i := 0 to |HostPlatforms|
      invariant allPresent == AllPresentIn(results, HostPlatforms[..i])
      invariant allMatch == AllMatchIn(results, HostPlatforms[..i])
      invariant total == ParityTotal(results, HostPlatforms[..i])
      invariant byPlatform == ByPlatform(results, HostPlatforms[..i])
    {
      var name := HostPlatforms[i];
      ParitySnoc(results, HostPlatforms, i);
      hide AllPresentIn, AllMatchIn, ParityTotal, ByPlatform;
      var present := name in Names(results);
      allPresent := allPresent && present;
      if !present {
        allMatch := false;
        byPlatform := byPlatform[name := PlatformParity(false, false, None)];
      } else {
        var actual := Find(results, name);
        total := total + actual.total;
        allMatch := allMatch && actual.matches;
        byPlatform := byPlatform[name := PlatformParity(true, actual.matches, Some(actual.total))];
      }
    }
    assert HostPlatforms[..|HostPlatforms|] == HostPlatforms;
    parity := HostParity(allPresent, allPresent && allMatch, total, byPlatform);
  }

  /** `_register_open_state`, over the register document. */
  method RegisterOpenState(blockers: seq<Blocker>, runId: Option<string>)
    returns (count: nat, breakdown: map<string, nat>)
    ensures count == OpenCount(blockers, runId) && breakdown == Breakdown(blockers, runId)
  {
    count, breakdown := 0, map[];
    for i := 0 to |blockers|
      invariant count == OpenCount(blockers[..i], runId) && breakdown == Breakdown(blockers[..i], runId)
    {
      assert blockers[..i + 1][..i] == blockers[..i];
      var entry := blockers[i];
      if entry.status != Open { continue; }
      if runId.Some? && entry.runId != runId { continue; }
      breakdown := breakdown[entry.platform := 1 + if entry.platform in breakdown then breakdown[entry.platform] else 0];
      count := count + 1;
    }
    assert blockers[..|blockers|] == blockers;
  }

  /** The packaged JSON files by relative path; only one shaped like a register has blockers. */
  type Package = map<string, Option<seq<Blocker>>>

  /** The blockers of the register that the manifest names, if it is one. */
  function NamedRegister(m: Manifest, files: Package): Option<seq<Blocker>> {
    if m.registerPath.Some? && m.registerPath.value in files then files[m.registerPath.value] else None
  }

  /** The recomputation finds nothing wrong. */
  predicate Consistent(m: Manifest, document: Document, files: Package) {
    && NamedRegister(m, files).Some?
    && Truthful(m, document, NamedRegister(m, files).value)
  }

  /** The figures are those of the diff-result and the register, and a pass is justified. */
  predicate Truthful(m: Manifest, document: Document, blockers: seq<Blocker>) {
    var parity := ParityFor(document.candidates, HostPlatforms);
    var open := OpenCount(blockers, Some(m.runId));
    && m.summaryMatches == document.matches && m.summaryTotal == document.total && m.summary == document.candidates
    && m.hostParity == parity
    && m.open == open && m.openByPlatform == Breakdown(blockers, Some(m.runId))
    && m.corpusProof.conditions.fullDiffMatch == document.matches
    && m.corpusProof.conditions.hostParityMatch == parity.matches
    && m.corpusProof.conditions.openBlockers == open
    && (m.corpusProof.status == Pass ==> document.matches && parity.matches && open == 0)
  }

  /** What can be wrong with the named register or the figures taken from it. */
  predicate RegisterFault(m: Manifest, files: Package, e: ConsistencyError) {
    match e
    case RegisterMissing => m.registerPath.None?
    case RegisterNotLoaded => m.registerPath.Some? && m.registerPath.value !in files
    case NotARegister => m.registerPath.Some? && m.registerPath.value in files && files[m.registerPath.value].None?
    case OpenWrong =>
      NamedRegister(m, files).Some? && m.open != OpenCount(NamedRegister(m, files).value, Some(m.runId))
    case OpenByPlatformWrong =>
      NamedRegister(m, files).Some? && m.openByPlatform != Breakdown(NamedRegister(m, files).value, Some(m.runId))
    case _ => false
  }

  /** What can be wrong with the proof's conditions and its pass. */
  predicate ProofFault(proof: CorpusProof, document: Document, parity: HostParity, open: Option<nat>, e: ConsistencyError) {
    match e
    case FullDiffConditionWrong => proof.conditions.fullDiffMatch != document.matches
    case HostParityConditionWrong => proof.conditions.hostParityMatch != parity.matches
    case OpenBlockersConditionWrong => open.Some? && proof.conditions.openBlockers != open.value
    case PassDespiteDiff => proof.status == Pass && !document.matches
    case PassDespiteHostParity => proof.status == Pass && !parity.matches
    case PassDespiteOpenBlockers => proof.status == Pass && open.Some? && open.value != 0
    case _ => false
  }

  /** The open blockers of the run in the named register, if there is one. */
  function OpenIn(m: Manifest, files: Package): Option<nat> {
    match NamedRegister(m, files)
    case None => None
    case Some(blockers) => Some(OpenCount(blockers, Some(m.runId)))
  }

  /** What can be wrong at all. A register that is not there is not counted. */
  predicate Fault(m: Manifest, document: Document, files: Package, e: ConsistencyError) {
    var parity := ParityFor(document.candidates, HostPlatforms);
    match e
    case DiffSummaryWrong =>
      m.summaryMatches != document.matches || m.summaryTotal != document.total || m.summary != document.candidates
    case HostParityWrong => m.hostParity != parity
    case _ => RegisterFault(m, files, e) || ProofFault(m.corpusProof, document, parity, OpenIn(m, files), e)
  }

  lemma NoFaultOfOthers(m: Manifest, document: Document, files: Package, parity: HostParity, open: Option<nat>)
    ensures !RegisterFault(m, files, DiffSummaryWrong) && !RegisterFault(m, files, HostParityWrong)
    ensures !ProofFault(m.corpusProof, document, parity, open, DiffSummaryWrong)
    ensures !ProofFault(m.corpusProof, document, parity, open, HostParityWrong)
  {
  }

  /** There is a fault exactly when the manifest is not consistent. */
  lemma FaultlessExactly(m: Manifest, document: Document, files: Package)
    ensures Consistent(m, document, files) <==> forall e :: !Fault(m, document, files, e)
  {
    hide ParityFor, OpenCount, Breakdown;
    if forall e :: !Fault(m, document, files, e) {
      assert !Fault(m, document, files, DiffSummaryWrong) && !Fault(m, document, files, HostParityWrong);
      assert !Fault(m, document, files, RegisterMissing) && !Fault(m, document, files, RegisterNotLoaded);
      assert !Fault(m, document, files, NotARegister) && !Fault(m, document, files, OpenWrong);
      assert !Fault(m, document, files, OpenByPlatformWrong) && !Fault(m, document, files, FullDiffConditionWrong);
      assert !Fault(m, document, files, HostParityConditionWrong) && !Fault(m, document, files, OpenBlockersConditionWrong);
      assert !Fault(m, document, files, PassDespiteDiff) && !Fault(m, document, files, PassDespiteHostParity);
      assert !Fault(m, document, files, PassDespiteOpenBlockers);
    }
  }

  /** The named register, loaded and counted, against the manifest's figures. */
  method CheckRegister(m: Manifest, files: Package) returns (open: Option<nat>, errors: seq<ConsistencyError>)
    ensures open == OpenIn(m, files)
    ensures forall e :: e in errors <==> RegisterFault(m, files, e)
  {
    hide OpenCount, Breakdown;
    if m.registerPath.None? { return None, [RegisterMissing]; }
    if m.registerPath.value !in files { return None, [RegisterNotLoaded]; }
    var register := files[m.registerPath.value];
    if register.None? { return None, [NotARegister]; }
    var count, breakdown := RegisterOpenState(register.value, Some(m.runId));
    open, errors := Some(count), [];
    if m.open != count { errors := errors + [OpenWrong]; }
    if m.openByPlatform != breakdown { errors := errors + [OpenByPlatformWrong]; }
  }

  /** The conditions of the proof, and what a pass needs, against the recomputed figures. */
  method CheckProof(proof: CorpusProof, document: Document, expectedHost: HostParity, open: Option<nat>)
    returns (errors: seq<ConsistencyError>)
    ensures forall e :: e in errors <==> ProofFault(proof, document, expectedHost, open, e)
  {
    errors := [];
    if proof.conditions.fullDiffMatch != document.matches { errors := errors + [FullDiffConditionWrong]; }
    if proof.conditions.hostParityMatch != expectedHost.matches { errors := errors + [HostParityConditionWrong]; }
    if open.Some? && proof.conditions.openBlockers != open.value { errors := errors + [OpenBlockersConditionWrong]; }
    if proof.status == Pass {
      if !document.matches { errors := errors + [PassDespiteDiff]; }
      if !expectedHost.matches { errors := errors + [PassDespiteHostParity]; }
      if open.Some? && open.value != 0 { errors := errors + [PassDespiteOpenBlockers]; }
    }
  }

  /** `validate_collector_consistency`, on a manifest of the right shape. */
  method ValidateCollectorConsistency(m: Manifest, document: Document, files: Package)
    returns (errors: seq<ConsistencyError>)
    ensures errors == [] <==> Consistent(m, document, files)
    ensures forall e :: e in errors <==> Fault(m, document, files, e)
  {
    FaultlessExactly(m, document, files);
    hide Consistent, ParityFor, OpenCount, Breakdown, RegisterFault, ProofFault, NamedRegister;
    errors := [];
    if !(m.summaryMatches == document.matches && m.summaryTotal == document.total && m.summary == document.candidates) {
      errors := errors + [DiffSummaryWrong];
    }
    var expectedHost := HostParityFromDiff(document);
    if m.hostParity != expectedHost { errors := errors + [HostParityWrong]; }
    var open, registerErrors := CheckRegister(m, files);
    var proofErrors := CheckProof(m.corpusProof, document, expectedHost, open);
    errors := errors + registerErrors + proofErrors;
    NoFaultOfOthers(m, document, files, expectedHost, open);
    assert forall e :: e in errors <==> Fault(m, document, files, e);
    hide Fault;
    assert errors == [] || errors[0] in errors;
  }

  /** The conditions in the order in which they are checked. */
  function Checked(c: Conditions): seq<(string, bool)> {
    [("sourceManifestPresent", c.sourceManifestPresent), ("schemaVersionBound", c.schemaVersionBound),
     ("coreIdentityBound", c.coreIdentityBound), ("artifactHashesBound", c.artifactHashesBound),
     ("runBindingDeclared", c.runBindingDeclared), ("runBindingMatches", c.runBindingMatches),
     ("scenarioBindingDeclared", c.scenarioBindingDeclared), ("scenarioBindingMatches", c.scenarioBindingMatches),
     ("expectedDeclared", c.expectedDeclared), ("fullDiffExpectedDeclared", c.fullDiffExpectedDeclared),
     ("byPlatformExpectedDeclared", c.byPlatformExpectedDeclared),
     ("hostParityExpectedDeclared", c.hostParityExpectedDeclared),
     ("fourPlatformCandidatesPresent", c.fourPlatformCandidatesPresent),
     ("fourPlatformSummaryPresent", c.fourPlatformSummaryPresent),
     ("fullDiffMatch", c.fullDiffMatch), ("hostParityMatch", c.hostParityMatch)]
  }

  predicate Acceptable(parity: HostParity, proof: CorpusProof) {
    && proof.status == Pass && parity.matches && AllHold(proof.conditions)
    && proof.reasons == [] && proof.missingCandidates == [] && proof.missingSummary == []
  }

  /** What can make a packaged proof unacceptable; nothing more is said of one that does not
      claim to pass. */
  predicate Rejects(parity: HostParity, proof: CorpusProof, e: ProofError) {
    match e
    case StatusNotPass => proof.status != Pass
    case HostParityNotTrue => proof.status == Pass && !parity.matches
    case ConditionNotTrue(name) => proof.status == Pass && (name, false) in Checked(proof.conditions)
    case OpenBlockersNotZero => proof.status == Pass && proof.conditions.openBlockers != 0
    case ReasonsNotEmpty => proof.status == Pass && proof.reasons != []
    case MissingCandidatesNotEmpty => proof.status == Pass && proof.missingCandidates != []
    case MissingSummaryNotEmpty => proof.status == Pass && proof.missingSummary != []
  }

  /** `_validate_required_corpus_proof`, on the packaged host parity and proof. */
  method ValidateRequiredCorpusProof(parity: HostParity, proof: CorpusProof) returns (errors: seq<ProofError>)
    ensures errors == [] <==> Acceptable(parity, proof)
    ensures forall e :: e in errors <==> Rejects(parity, proof, e)
  {
    hide Checked, AllHold;
    if proof.status != Pass {
      return [StatusNotPass];
    }
    errors := [];
    if !parity.matches { errors := errors + [HostParityNotTrue]; }
    var checks := Checked(proof.conditions);
    for i := 0 to |checks|
      invariant forall e :: e in errors <==>
                  (e == HostParityNotTrue && !parity.matches)
                  || (e.ConditionNotTrue? && (e.name, false) in checks[..i])
    {
      assert checks[..i + 1] == checks[..i] + [checks[i]];
      if !checks[i].1 { errors := errors + [ConditionNotTrue(checks[i].0)]; }
    }
    assert checks[..|checks|] == checks;
    if proof.conditions.openBlockers != 0 { errors := errors + [OpenBlockersNotZero]; }
    if proof.reasons != [] { errors := errors + [ReasonsNotEmpty]; }
    if proof.missingCandidates != [] { errors := errors + [MissingCandidatesNotEmpty]; }
    if proof.missingSummary != [] { errors := errors + [MissingSummaryNotEmpty]; }
    assert forall e :: e in errors <==> Rejects(parity, proof, e);
    AcceptableExactly(parity, proof);
    hide Acceptable, Rejects;
    assert errors == [] || errors[0] in errors;
  }

  lemma AcceptableExactly(parity: HostParity, proof: CorpusProof)
    ensures Acceptable(parity, proof) <==> forall e :: !Rejects(parity, proof, e)
  {
    AllChecked(proof.conditions);
    hide Checked, AllHold;
    var checks := Checked(proof.conditions);
    if forall e :: !Rejects(parity, proof, e) {
      assert !Rejects(parity, proof, StatusNotPass) && !Rejects(parity, proof, HostParityNotTrue);
      forall j | 0 <= j < |checks| ensures checks[j].1 {
        assert !Rejects(parity, proof, ConditionNotTrue(checks[j].0));
        assert checks[j] == (checks[j].0, checks[j].1) && checks[j] in checks;
      }
      assert !Rejects(parity, proof, OpenBlockersNotZero) && !Rejects(parity, proof, ReasonsNotEmpty);
      assert !Rejects(parity, proof, MissingCandidatesNotEmpty) && !Rejects(parity, proof, MissingSummaryNotEmpty);
    }
    if Acceptable(parity, proof) {
      assert forall check :: check in checks ==> check.1;
    }
  }

  lemma AllChecked(c: Conditions)
    ensures AllHold(c) <==> c.openBlockers == 0 && forall j :: 0 <= j < |Checked(c)| ==> Checked(c)[j].1
  {
    var k := Checked(c);
    if forall j :: 0 <= j < |k| ==> k[j].1 {
      assert k[0].1 && k[1].1 && k[2].1 && k[3].1 && k[4].1 && k[5].1 && k[6].1 && k[7].1;
      assert k[8].1 && k[9].1 && k[10].1 && k[11].1 && k[12].1 && k[13].1 && k[14].1 && k[15].1;
    }
  }

  // ---------------------------------------------------------------------
  // Producer meets verifier
  // ---------------------------------------------------------------------

  lemma {:induction false} ParityTotalOfMatching(results: seq<CandidateResult>, platforms: seq<string>)
    requires forall r :: r in results && r.matches ==> r.total == 0
    requires forall p :: p in platforms ==> p in Names(results) && ParityOf(results, p).matches
    ensures ParityTotal(results, platforms) == 0
  {
    if platforms != [] {
      var n := |platforms| - 1;
      ParityTotalOfMatching(results, platforms[..n]);
      assert platforms[n] in platforms;
      assert Find(results, platforms[n]) in results;
    }
  }

  /** The condition "zero total and match" is just "match", for the whole diff and for the
      hosts. */
  lemma MatchMeansZero(canonical: Json, candidates: seq<NamedTree>)
    requires DistinctNames(candidates)
    ensures var d := Build(canonical, candidates);
            var parity := ParityFor(d.candidates, HostPlatforms);
            (d.matches ==> d.total == 0) && (parity.matches ==> parity.total == 0)
  {
    MatchExactly(canonical, candidates);
    BuildOfDistinct(canonical, candidates);
    hide PyEq, TreeDiff.Differences;
    var results := Compared(canonical, candidates);
    forall r | r in results && r.matches
      ensures r.total == 0
    {
      var i :| 0 <= i < |results| && results[i] == r;
    }
    if ParityFor(results, HostPlatforms).matches {
      ParityTotalOfMatching(results, HostPlatforms);
    }
  }

  /** Whatever the collector writes passes the packager's recomputation, and the packager's
      required-proof check accepts exactly the proofs the collector passes. */
  lemma ProducerMeetsVerifier(m: Manifest, canonical: Json, trees: map<string, Json>, s: State, files: Package,
                              run: string, scenario: string, source: Option<SourceManifest>)
    requires RegisterPath in files && files[RegisterPath] == Some(s.blockers)
    requires forall p :: p in RequiredPlatforms ==> p in trees
    requires Describes(m, Build(canonical, FourTrees(trees)), s, run, scenario, source)
    ensures Consistent(m, Build(canonical, FourTrees(trees)), files)
    ensures Acceptable(m.hostParity, m.corpusProof) <==> m.corpusProof.status == Pass
  {
    FourTreesDistinct(trees);
    HonestProof(m.corpusProof, Build(canonical, FourTrees(trees)), m.hostParity, m.open, run, scenario, source);
    hide ParityFor, OpenCount, Breakdown, Build, Absent, FourTrees, Reasons;
    MatchMeansZero(canonical, FourTrees(trees));
  }

  /** The strongest claim that can be written about a diff-result and a register. */
  function BoldestManifest(document: Document, path: string, blockers: seq<Blocker>, run: string): Manifest {
    var parity := ParityFor(document.candidates, HostPlatforms);
    var conditions := Conditions(true, true, true, true, true, true, true, true, true, true, true, true, true, true,
                                 document.matches, parity.matches, OpenCount(blockers, Some(run)));
    Manifest(run, document.matches, document.total, document.candidates, parity,
             CorpusProof(Pass, [], conditions, [], []), 0,
             OpenCount(blockers, Some(run)), Breakdown(blockers, Some(run)), Some(path))
  }

  /** Some manifest for the run passes both checks. */
  ghost predicate CanPass(document: Document, files: Package, run: string) {
    exists m: Manifest :: m.runId == run && Consistent(m, document, files) && Acceptable(m.hostParity, m.corpusProof)
  }

  /** The file is shaped like a register, and the run has no open blocker in it. */
  predicate ClearRegister(files: Package, path: string, run: string) {
    path in files && files[path].Some? && OpenCount(files[path].value, Some(run)) == 0
  }

  lemma ClearRegisterPasses(document: Document, files: Package, path: string, run: string)
    requires document.matches && ParityFor(document.candidates, HostPlatforms).matches && ClearRegister(files, path, run)
    ensures CanPass(document, files, run)
  {
    hide ParityFor, OpenCount, Breakdown;
    var m := BoldestManifest(document, path, files[path].value, run);
    assert m.runId == run && Consistent(m, document, files) && Acceptable(m.hostParity, m.corpusProof);
  }

  lemma PassNeedsClearRegister(document: Document, files: Package, run: string)
    requires CanPass(document, files, run)
    ensures document.matches && ParityFor(document.candidates, HostPlatforms).matches
    ensures exists path :: ClearRegister(files, path, run)
  {
    hide ParityFor, OpenCount, Breakdown;
    var m: Manifest :| m.runId == run && Consistent(m, document, files) && Acceptable(m.hostParity, m.corpusProof);
    assert ClearRegister(files, m.registerPath.value, run);
  }

  /** Over all manifests, the named register file included: with a built diff-result some
      manifest passes both checks exactly when every candidate tree equals the canonical one,
      the three hosts are among the candidates and some packaged file shaped like a register
      holds no open blocker of the run. */
  lemma PassableExactly(canonical: Json, candidates: seq<NamedTree>, files: Package, run: string)
    requires DistinctNames(candidates)
    ensures CanPass(Build(canonical, candidates), files, run) <==>
              && AllEqual(canonical, candidates)
              && (forall p :: p in HostPlatforms ==> exists c :: c in candidates && c.name == p)
              && exists path :: ClearRegister(files, path, run)
  {
    var document := Build(canonical, candidates);
    MatchExactly(canonical, candidates);
    HostsMatchExactly(canonical, candidates);
    hide Build, ParityFor, OpenCount, Breakdown, PyEq, CanPass, ClearRegister;
    if CanPass(document, files, run) { PassNeedsClearRegister(document, files, run); }
    if path :| ClearRegister(files, path, run) && document.matches && ParityFor(document.candidates, HostPlatforms).matches {
      ClearRegisterPasses(document, files, path, run);
    }
  }

  /** The register is packaged, and no other file is shaped like one. */
  predicate OnlyRegister(files: Package, blockers: seq<Blocker>) {
    && RegisterPath in files && files[RegisterPath].Some?
    && forall path :: path in files && files[path].Some? ==> files[path].value == blockers
  }

  /** If the diff-result has just been registered for a run without blockers and that register
      is the only one in the package, a pass takes all four platforms, the one that is not a
      host included. */
  lemma PassableAfterRegistering(canonical: Json, candidates: seq<NamedTree>, files: Package, s: State, run: string,
                                 severity: string, now: string)
    requires DistinctNames(candidates) && run != "" && NoBlockerOf(s, run)
    requires OnlyRegister(files, Apply(s, AddFromDiff(Build(canonical, candidates), Some(run), severity, now)).blockers)
    ensures CanPass(Build(canonical, candidates), files, run) <==> AllPresent(candidates) && AllEqual(canonical, candidates)
  {
    var t := Apply(s, AddFromDiff(Build(canonical, candidates), Some(run), severity, now));
    PassableExactly(canonical, candidates, files, run);
    GateIsCorrect(s, run, canonical, candidates, severity, now);
    HostsAreRequired();
    assert OpenCount(t.blockers, Some(run)) == 0 ==> ClearRegister(files, RegisterPath, run);
    hide Apply, OpenCount, Build, CanPass, PyEq;
  }

  /** For matching trees, host parity is the presence of the hosts. */
  lemma HostsMatchExactly(canonical: Json, candidates: seq<NamedTree>)
    requires DistinctNames(candidates)
    ensures AllEqual(canonical, candidates) ==>
              (ParityFor(Build(canonical, candidates).candidates, HostPlatforms).matches <==>
               forall p :: p in HostPlatforms ==> exists c :: c in candidates && c.name == p)
  {
    var results := Compared(canonical, candidates);
    BuildOfDistinct(canonical, candidates);
    ResultFacts(canonical, candidates);
    hide *;
    PresentExactly(candidates, Names(results));
    AllMatchByName(canonical, candidates, results);
    if AllEqual(canonical, candidates) { ParityIsPresence(results); }
  }

  lemma ParityIsPresence(results: seq<CandidateResult>)
    requires forall name :: name in Names(results) ==> Find(results, name).matches
    ensures ParityFor(results, HostPlatforms).matches <==> forall p :: p in HostPlatforms ==> p in Names(results)
  {
    hide Find, Names;
  }

  /** The source manifest is complete and bound to this run and scenario. */
  predicate FullyBound(source: Option<SourceManifest>, run: string, scenario: string) {
    && source.Some?
    && var m := source.value;
       && m.schemaVersionBound && m.coreIdentityBound && m.artifactHashesBound
       && Bound(m.runId, run) && Bound(m.scenario, scenario)
       && m.expected.Some? && m.expected.value.fullDiff && m.expected.value.byPlatform && m.expected.value.hostParity
  }

  lemma {:induction false} NothingAbsent(platforms: seq<string>, names: seq<string>)
    requires forall p :: p in platforms ==> p in names
    ensures Absent(platforms, names) == []
  {
    if platforms != [] {
      var n := |platforms| - 1;
      NothingAbsent(platforms[..n], names);
      assert platforms[n] in platforms;
    }
  }

  /** The names of the built results are the candidates' names. */
  lemma BuiltNames(canonical: Json, candidates: seq<NamedTree>)
    requires AllPresent(candidates)
    ensures forall p :: p in RequiredPlatforms ==> p in Names(Compared(canonical, candidates))
  {
    hide TreeDiff.Differences;
    var results := Compared(canonical, candidates);
    assert forall i :: 0 <= i < |results| ==> Names(results)[i] == candidates[i].name;
    PresentExactly(candidates, Names(results));
  }

  /** All equal trees make the hosts match too. */
  lemma EqualMeansParity(canonical: Json, candidates: seq<NamedTree>)
    requires DistinctNames(candidates) && AllPresent(candidates) && AllEqual(canonical, candidates)
    ensures ParityFor(Build(canonical, candidates).candidates, HostPlatforms).matches
  {
    var results := Compared(canonical, candidates);
    MatchExactly(canonical, candidates);
    BuildOfDistinct(canonical, candidates);
    BuiltNames(canonical, candidates);
    hide TreeDiff.Differences, PyEq;
    forall p | p in HostPlatforms
      ensures p in Names(results) && ParityOf(results, p).matches
    {
      assert p in RequiredPlatforms by { HostsAreRequired(); }
      assert Find(results, p) in results;
    }
  }

  lemma HostsAreRequired()
    ensures forall p :: p in HostPlatforms ==> p in RequiredPlatforms
  {
    assert RequiredPlatforms[1] == HostPlatforms[0];
    assert RequiredPlatforms[2] == HostPlatforms[1];
    assert RequiredPlatforms[3] == HostPlatforms[2];
  }

  /** End to end: for any canonical tree, four candidate trees, prior register and source
      manifest, the collector's proof passes, and the packager accepts it, exactly when the
      source manifest is fully bound, all four trees equal the canonical one and the run
      had no open blocker before. */
  lemma PassExactly(canonical: Json, trees: map<string, Json>, before: State,
                    run: string, scenario: string, source: Option<SourceManifest>, severity: string, now: string)
    requires forall p :: p in RequiredPlatforms ==> p in trees
    ensures var document := Build(canonical, FourTrees(trees));
            var after := Apply(before, AddFromDiff(document, Some(run), severity, now));
            forall m :: Describes(m, document, after, run, scenario, source) ==>
              (Acceptable(m.hostParity, m.corpusProof) <==>
                && FullyBound(source, run, scenario)
                && (forall p :: p in RequiredPlatforms ==> PyEq(canonical, trees[p]))
                && OpenCount(before.blockers, Some(run)) == 0)
  {
    var document := Build(canonical, FourTrees(trees));
    var after := Apply(before, AddFromDiff(document, Some(run), severity, now));
    hide *;
    forall m | Describes(m, document, after, run, scenario, source)
      ensures Acceptable(m.hostParity, m.corpusProof) <==>
                && FullyBound(source, run, scenario)
                && (forall p :: p in RequiredPlatforms ==> PyEq(canonical, trees[p]))
                && OpenCount(before.blockers, Some(run)) == 0
    {
      FourTreeFacts(canonical, trees, before, run, severity, now);
      ProducerMeetsVerifier(m, canonical, trees, after, map[RegisterPath := Some(after.blockers)], run, scenario, source);
      PassCondition(m, document, after, run, scenario, source);
    }
  }

  /** Four platforms are there; the host trees are equal if all four are, and then nothing is
      registered. */
  lemma FourTreeFacts(canonical: Json, trees: map<string, Json>, before: State, run: string, severity: string, now: string)
    requires forall p :: p in RequiredPlatforms ==> p in trees
    ensures var document := Build(canonical, FourTrees(trees));
            var after := Apply(before, AddFromDiff(document, Some(run), severity, now));
            && Absent(Sorted(RequiredPlatforms), Names(document.candidates)) == []
            && (document.matches <==> forall p :: p in RequiredPlatforms ==> PyEq(canonical, trees[p]))
            && (document.matches ==> document.total == 0 && ParityFor(document.candidates, HostPlatforms).matches
                                     && ParityFor(document.candidates, HostPlatforms).total == 0 && after == before)
  {
    var candidates := FourTrees(trees);
    var document := Build(canonical, candidates);
    FourTreesDistinct(trees);
    EqualByPlatform(canonical, trees);
    MatchExactly(canonical, candidates);
    MatchMeansZero(canonical, candidates);
    BuildOfDistinct(canonical, candidates);
    BuiltNames(canonical, candidates);
    SortedIsAscending(RequiredPlatforms);
    NothingAbsent(Sorted(RequiredPlatforms), Names(document.candidates));
    if AllEqual(canonical, candidates) {
      EqualMeansParity(canonical, candidates);
      NoDraftsExactly(canonical, candidates);
    }
    hide BlockersFromDiff, ParityFor, Absent, Sorted, Compared, FourTrees, PyEq;
  }

  /** A pass, in terms of the conditions. */
  lemma PassCondition(m: Manifest, document: Document, after: State, run: string, scenario: string,
                      source: Option<SourceManifest>)
    requires Describes(m, document, after, run, scenario, source)
    requires Absent(Sorted(RequiredPlatforms), Names(document.candidates)) == []
    requires document.matches ==> document.total == 0 && ParityFor(document.candidates, HostPlatforms).matches
                                  && ParityFor(document.candidates, HostPlatforms).total == 0
    ensures m.corpusProof.status == Pass <==>
              FullyBound(source, run, scenario) && document.matches && OpenCount(after.blockers, Some(run)) == 0
  {
    HonestProof(m.corpusProof, document, m.hostParity, m.open, run, scenario, source);
    hide OpenCount, Breakdown, ParityFor, Absent, Sorted, Trim, Reasons;
  }

  lemma EqualByPlatform(canonical: Json, trees: map<string, Json>)
    requires forall p :: p in RequiredPlatforms ==> p in trees
    ensures AllEqual(canonical, FourTrees(trees)) <==> forall p :: p in RequiredPlatforms ==> PyEq(canonical, trees[p])
  {
    hide PyEq;
    var c := FourTrees(trees);
    if AllEqual(canonical, c) {
      forall p | p in RequiredPlatforms
        ensures PyEq(canonical, trees[p])
      {
        var i :| 0 <= i < 4 && RequiredPlatforms[i] == p;
        assert c[i] in c;
      }
    }
  }
}
