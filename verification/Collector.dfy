/** The run collector: it diffs four platform results, registers the divergences and
    writes a manifest with a corpus proof. */
module Collector {
  import opened Text
  import opened Ordering
  import opened Json
  import opened DiffResult
  import opened BlockerRegister

  const HostPlatforms := ["ios", "android", "harmony"]

  // ---------------------------------------------------------------------
  // Host parity
  // ---------------------------------------------------------------------

  datatype PlatformParity = PlatformParity(present: bool, matches: bool, total: Option<nat>)

  datatype HostParity =
    HostParity(allPresent: bool, matches: bool, total: nat, byPlatform: map<string, PlatformParity>)

  function ParityOf(results: seq<CandidateResult>, name: string): PlatformParity {
    if name in Names(results) then
      PlatformParity(true, Find(results, name).matches, Some(Find(results, name).total))
    else PlatformParity(false, false, None)
  }

  function ParityTotal(results: seq<CandidateResult>, platforms: seq<string>): nat {
    if platforms == [] then 0
    else
      ParityTotal(results, platforms[..|platforms| - 1]) + ParityOf(results, platforms[|platforms| - 1]).total.GetOr(0)
  }

  /** What host parity means: the host platforms are there, all match, and their totals
      add up. */
  function ParityFor(results: seq<CandidateResult>, platforms: seq<string>): HostParity {
    HostParity(AllPresentIn(results, platforms), AllPresentIn(results, platforms) && AllMatchIn(results, platforms),
               ParityTotal(results, platforms), ByPlatform(results, platforms))
  }

  predicate AllPresentIn(results: seq<CandidateResult>, platforms: seq<string>) {
    forall p :: p in platforms ==> p in Names(results)
  }

  predicate AllMatchIn(results: seq<CandidateResult>, platforms: seq<string>) {
    forall p :: p in platforms ==> ParityOf(results, p).matches
  }

  function ByPlatform(results: seq<CandidateResult>, platforms: seq<string>): map<string, PlatformParity> {
    map p | p in platforms :: ParityOf(results, p)
  }

  /** One more platform. */
  lemma ParitySnoc(results: seq<CandidateResult>, platforms: seq<string>, i: nat)
    requires i < |platforms|
    ensures var done, name := platforms[..i], platforms[i];
            var next, parity := platforms[..i + 1], ParityOf(results, name);
            && (AllPresentIn(results, next) <==> AllPresentIn(results, done) && name in Names(results))
            && (AllMatchIn(results, next) <==> AllMatchIn(results, done) && parity.matches)
            && ParityTotal(results, next) == ParityTotal(results, done) + parity.total.GetOr(0)
            && ByPlatform(results, next) == ByPlatform(results, done)[name := parity]
  {
    PrefixSnoc(platforms, i);
    hide ParityOf, Names;
  }

  /** `build_host_parity`. */
  method BuildHostParity(document: Document) returns (parity: HostParity)
    ensures parity == ParityFor(document.candidates, HostPlatforms)
  {
    var results, allPresent, allMatch, total := document.candidates, true, true, 0;
    var byPlatform: map<string, PlatformParity> := map[];
    for i := 0 to |HostPlatforms|
      invariant allPresent == AllPresentIn(results, HostPlatforms[..i])
      invariant allMatch == AllMatchIn(results, HostPlatforms[..i])
      invariant total == ParityTotal(results, HostPlatforms[..i])
      invariant byPlatform == ByPlatform(results, HostPlatforms[..i])
    {
      var name := HostPlatforms[i];
      ParitySnoc(results, HostPlatforms, i);
      hide AllPresentIn, AllMatchIn, ParityTotal, ByPlatform;
      if name in Names(results) {
        var actual := Find(results, name);
        total := total + actual.total;
        allMatch := allMatch && actual.matches;
        byPlatform := byPlatform[name := PlatformParity(true, actual.matches, Some(actual.total))];
      } else {
        allPresent := false;
        allMatch := false;
        byPlatform := byPlatform[name := PlatformParity(false, false, None)];
      }
    }
    assert HostPlatforms[..|HostPlatforms|] == HostPlatforms;
    parity := HostParity(allPresent, allPresent && allMatch, total, byPlatform);
  }

  lemma PrefixSnoc(s: seq<string>, i: nat)
    requires i < |s|
    ensures s[..i + 1][..i] == s[..i]
    ensures forall p :: p in s[..i + 1] <==> p in s[..i] || p == s[i]
  {
    assert s[..i + 1] == s[..i] + [s[i]];
  }

  // ---------------------------------------------------------------------
  // The corpus proof
  // ---------------------------------------------------------------------

  /** Which expectations a source manifest declares in full. */
  datatype Expectations = Expectations(fullDiff: bool, byPlatform: bool, hostParity: bool)

  /** What the proof reads off a source manifest; whether versions, identities and hashes
      are well formed is taken as given. */
  datatype SourceManifest =
    SourceManifest(schemaVersionBound: bool, coreIdentityBound: bool, artifactHashesBound: bool,
                   runId: Option<string>, scenario: Option<string>, expected: Option<Expectations>)

  datatype Reason =
    | SourceManifestMissing | SchemaVersionNotBound | CoreIdentityNotBound | ArtifactHashesNotBound
    | RunIdNotBound | RunIdMismatch | ScenarioNotBound | ScenarioMismatch
    | ExpectedMissing | ExpectedFullDiffMissing | ExpectedByPlatformMissing | ExpectedHostParityMissing
    | MissingCandidates(names: seq<string>) | MissingSummary(names: seq<string>)
    | FullDiffMismatch | HostParityMismatch | OpenBlockers(count: nat)

  datatype Conditions = Conditions(
    sourceManifestPresent: bool, schemaVersionBound: bool, coreIdentityBound: bool, artifactHashesBound: bool,
    runBindingDeclared: bool, runBindingMatches: bool, scenarioBindingDeclared: bool, scenarioBindingMatches: bool,
    expectedDeclared: bool, fullDiffExpectedDeclared: bool, byPlatformExpectedDeclared: bool,
    hostParityExpectedDeclared: bool, fourPlatformCandidatesPresent: bool, fourPlatformSummaryPresent: bool,
    fullDiffMatch: bool, hostParityMatch: bool, openBlockers: nat)

  datatype ProofStatus = Pass | Blocked

  datatype CorpusProof = CorpusProof(status: ProofStatus, reasons: seq<Reason>, conditions: Conditions,
                                     missingCandidates: seq<string>, missingSummary: seq<string>)

  predicate Declared(binding: Option<string>) { binding.Some? && Trim(binding.value) != "" }

  predicate Bound(binding: Option<string>, wanted: string) { Declared(binding) && Trim(binding.value) == wanted }

  function Absent(platforms: seq<string>, names: seq<string>): seq<string> {
    if platforms == [] then []
    else
      var n := |platforms| - 1;
      Absent(platforms[..n], names) + if platforms[n] in names then [] else [platforms[n]]
  }

  function ConditionsOf(source: Option<SourceManifest>, document: Document, parity: HostParity, open: nat,
                        run: string, scenario: string): Conditions
  {
    var m := source.Some?;
    var e := m && source.value.expected.Some?;
    var present := Absent(Sorted(RequiredPlatforms), Names(document.candidates)) == [];
    Conditions(m, m && source.value.schemaVersionBound, m && source.value.coreIdentityBound,
               m && source.value.artifactHashesBound,
               m && Declared(source.value.runId), m && Bound(source.value.runId, run),
               m && Declared(source.value.scenario), m && Bound(source.value.scenario, scenario),
               e, e && source.value.expected.value.fullDiff, e && source.value.expected.value.byPlatform,
               e && source.value.expected.value.hostParity, present, present,
               document.total == 0 && document.matches, parity.total == 0 && parity.matches, open)
  }

  /** Every condition holds and no blocker is open. */
  predicate AllHold(c: Conditions) {
    && c.sourceManifestPresent && c.schemaVersionBound && c.coreIdentityBound && c.artifactHashesBound
    && c.runBindingDeclared && c.runBindingMatches && c.scenarioBindingDeclared && c.scenarioBindingMatches
    && c.expectedDeclared && c.fullDiffExpectedDeclared && c.byPlatformExpectedDeclared
    && c.hostParityExpectedDeclared && c.fourPlatformCandidatesPresent && c.fourPlatformSummaryPresent
    && c.fullDiffMatch && c.hostParityMatch && c.openBlockers == 0
  }

  function When(fails: bool, reason: Reason): seq<Reason> { if fails then [reason] else [] }

  function IdentityReasons(c: Conditions): seq<Reason> {
    When(!c.sourceManifestPresent, SourceManifestMissing) + When(!c.schemaVersionBound, SchemaVersionNotBound)
    + When(!c.coreIdentityBound, CoreIdentityNotBound) + When(!c.artifactHashesBound, ArtifactHashesNotBound)
  }

  function BindingReasons(c: Conditions): seq<Reason> {
    When(!c.runBindingDeclared, RunIdNotBound) + When(c.runBindingDeclared && !c.runBindingMatches, RunIdMismatch)
    + When(!c.scenarioBindingDeclared, ScenarioNotBound)
    + When(c.scenarioBindingDeclared && !c.scenarioBindingMatches, ScenarioMismatch)
  }

  function ExpectationReasons(c: Conditions): seq<Reason> {
    When(!c.expectedDeclared, ExpectedMissing) + When(!c.fullDiffExpectedDeclared, ExpectedFullDiffMissing)
    + When(!c.byPlatformExpectedDeclared, ExpectedByPlatformMissing)
    + When(!c.hostParityExpectedDeclared, ExpectedHostParityMissing)
  }

  function OutcomeReasons(c: Conditions, missing: seq<string>): seq<Reason> {
    When(missing != [], MissingCandidates(missing)) + When(missing != [], MissingSummary(missing))
    + When(!c.fullDiffMatch, FullDiffMismatch) + When(!c.hostParityMatch, HostParityMismatch)
    + When(c.openBlockers != 0, OpenBlockers(c.openBlockers))
  }

  /** The reasons in their order. */
  function Reasons(c: Conditions, missing: seq<string>): seq<Reason> {
    IdentityReasons(c) + BindingReasons(c) + ExpectationReasons(c) + OutcomeReasons(c, missing)
  }

  /** The reason is given: what it names fails. */
  predicate Applies(reason: Reason, c: Conditions, missing: seq<string>) {
    match reason
    case SourceManifestMissing => !c.sourceManifestPresent
    case SchemaVersionNotBound => !c.schemaVersionBound
    case CoreIdentityNotBound => !c.coreIdentityBound
    case ArtifactHashesNotBound => !c.artifactHashesBound
    case RunIdNotBound => !c.runBindingDeclared
    case RunIdMismatch => c.runBindingDeclared && !c.runBindingMatches
    case ScenarioNotBound => !c.scenarioBindingDeclared
    case ScenarioMismatch => c.scenarioBindingDeclared && !c.scenarioBindingMatches
    case ExpectedMissing => !c.expectedDeclared
    case ExpectedFullDiffMissing => !c.fullDiffExpectedDeclared
    case ExpectedByPlatformMissing => !c.byPlatformExpectedDeclared
    case ExpectedHostParityMissing => !c.hostParityExpectedDeclared
    case MissingCandidates(names) => names == missing && missing != []
    case MissingSummary(names) => names == missing && missing != []
    case FullDiffMismatch => !c.fullDiffMatch
    case HostParityMismatch => !c.hostParityMatch
    case OpenBlockers(count) => count == c.openBlockers && count != 0
  }

  datatype Concern = Identity | Binding | Expectation | Outcome

  function Concerns(reason: Reason): Concern {
    match reason
    case SourceManifestMissing | SchemaVersionNotBound | CoreIdentityNotBound | ArtifactHashesNotBound => Identity
    case RunIdNotBound | RunIdMismatch | ScenarioNotBound | ScenarioMismatch => Binding
    case ExpectedMissing | ExpectedFullDiffMissing | ExpectedByPlatformMissing | ExpectedHostParityMissing => Expectation
    case MissingCandidates(_) | MissingSummary(_) | FullDiffMismatch | HostParityMismatch | OpenBlockers(_) => Outcome
  }

  lemma InWhen(reason: Reason, fails: bool, named: Reason)
    ensures reason in When(fails, named) <==> fails && reason == named
  {
  }

  lemma IdentityApplies(c: Conditions, reason: Reason)
    ensures reason in IdentityReasons(c) <==> Applies(reason, c, []) && Concerns(reason) == Identity
  {
    hide When;
    InWhen(reason, !c.sourceManifestPresent, SourceManifestMissing);
    InWhen(reason, !c.schemaVersionBound, SchemaVersionNotBound);
    InWhen(reason, !c.coreIdentityBound, CoreIdentityNotBound);
    InWhen(reason, !c.artifactHashesBound, ArtifactHashesNotBound);
  }

  lemma BindingApplies(c: Conditions, reason: Reason)
    ensures reason in BindingReasons(c) <==> Applies(reason, c, []) && Concerns(reason) == Binding
  {
    hide When;
    InWhen(reason, !c.runBindingDeclared, RunIdNotBound);
    InWhen(reason, c.runBindingDeclared && !c.runBindingMatches, RunIdMismatch);
    InWhen(reason, !c.scenarioBindingDeclared, ScenarioNotBound);
    InWhen(reason, c.scenarioBindingDeclared && !c.scenarioBindingMatches, ScenarioMismatch);
  }

  lemma ExpectationApplies(c: Conditions, reason: Reason)
    ensures reason in ExpectationReasons(c) <==> Applies(reason, c, []) && Concerns(reason) == Expectation
  {
    hide When;
    InWhen(reason, !c.expectedDeclared, ExpectedMissing);
    InWhen(reason, !c.fullDiffExpectedDeclared, ExpectedFullDiffMissing);
    InWhen(reason, !c.byPlatformExpectedDeclared, ExpectedByPlatformMissing);
    InWhen(reason, !c.hostParityExpectedDeclared, ExpectedHostParityMissing);
  }

  lemma OutcomeApplies(c: Conditions, missing: seq<string>, reason: Reason)
    ensures reason in OutcomeReasons(c, missing) <==> Applies(reason, c, missing) && Concerns(reason) == Outcome
  {
    hide When;
    InWhen(reason, missing != [], MissingCandidates(missing));
    InWhen(reason, missing != [], MissingSummary(missing));
    InWhen(reason, !c.fullDiffMatch, FullDiffMismatch);
    InWhen(reason, !c.hostParityMatch, HostParityMismatch);
    InWhen(reason, c.openBlockers != 0, OpenBlockers(c.openBlockers));
  }

  /** Exactly the reasons that apply are given. */
  lemma ReasonsApply(c: Conditions, missing: seq<string>, reason: Reason)
    ensures reason in Reasons(c, missing) <==> Applies(reason, c, missing)
  {
    hide IdentityReasons, BindingReasons, ExpectationReasons, OutcomeReasons;
    IdentityApplies(c, reason);
    BindingApplies(c, reason);
    ExpectationApplies(c, reason);
    OutcomeApplies(c, missing, reason);
  }

  /** The reasons that concern the source manifest itself. */
  method FindIdentityReasons(c: Conditions) returns (reasons: seq<Reason>)
    ensures reasons == IdentityReasons(c)
  {
    reasons := [];
    if !c.sourceManifestPresent { reasons := reasons + [SourceManifestMissing]; }
    if !c.schemaVersionBound { reasons := reasons + [SchemaVersionNotBound]; }
    if !c.coreIdentityBound { reasons := reasons + [CoreIdentityNotBound]; }
    if !c.artifactHashesBound { reasons := reasons + [ArtifactHashesNotBound]; }
  }

  /** The reasons that concern the run and the scenario it is for. */
  method FindBindingReasons(c: Conditions) returns (reasons: seq<Reason>)
    ensures reasons == BindingReasons(c)
  {
    reasons := [];
    if !c.runBindingDeclared {
      reasons := reasons + [RunIdNotBound];
    } else if !c.runBindingMatches {
      reasons := reasons + [RunIdMismatch];
    }
    if !c.scenarioBindingDeclared {
      reasons := reasons + [ScenarioNotBound];
    } else if !c.scenarioBindingMatches {
      reasons := reasons + [ScenarioMismatch];
    }
  }

  /** The reasons that concern what it expects. */
  method FindExpectationReasons(c: Conditions) returns (reasons: seq<Reason>)
    ensures reasons == ExpectationReasons(c)
  {
    reasons := [];
    if !c.expectedDeclared { reasons := reasons + [ExpectedMissing]; }
    if !c.fullDiffExpectedDeclared { reasons := reasons + [ExpectedFullDiffMissing]; }
    if !c.byPlatformExpectedDeclared { reasons := reasons + [ExpectedByPlatformMissing]; }
    if !c.hostParityExpectedDeclared { reasons := reasons + [ExpectedHostParityMissing]; }
  }

  /** `build_corpus_proof`: one reason for each condition that fails. */
  method BuildCorpusProof(source: Option<SourceManifest>, document: Document, parity: HostParity, open: nat,
                          run: string, scenario: string) returns (proof: CorpusProof)
    ensures ProvesFrom(proof, document, parity, open, run, scenario, source)
    ensures proof.reasons == [] <==> AllHold(proof.conditions)
  {
    hide *;
    var missing := Absent(Sorted(RequiredPlatforms), Names(document.candidates));
    var c := ConditionsOf(source, document, parity, open, run, scenario);
    PresenceConditions(source, document, parity, open, run, scenario);
    var reasons := FindIdentityReasons(c);
    var bindings := FindBindingReasons(c);
    var expectations := FindExpectationReasons(c);
    reasons := reasons + bindings + expectations;
    ghost var before := reasons;
    if missing != [] { reasons := reasons + [MissingCandidates(missing)]; }
    if missing != [] { reasons := reasons + [MissingSummary(missing)]; }
    if !c.fullDiffMatch { reasons := reasons + [FullDiffMismatch]; }
    if !c.hostParityMatch { reasons := reasons + [HostParityMismatch]; }
    if open != 0 { reasons := reasons + [OpenBlockers(open)]; }
    assert reasons == before + OutcomeReasons(c, missing) by { OutcomeIs(c, missing); }
    ReasonsAre(c, missing);
    NoReasonExactly(c, missing);
    proof := CorpusProof(if reasons == [] then Pass else Blocked, reasons, c, missing, missing);
    ProofIs(proof, document, parity, open, run, scenario, source);
  }

  lemma OutcomeIs(c: Conditions, missing: seq<string>)
    ensures OutcomeReasons(c, missing) ==
            (if missing != [] then [MissingCandidates(missing)] else []) + (if missing != [] then [MissingSummary(missing)] else [])
            + (if !c.fullDiffMatch then [FullDiffMismatch] else []) + (if !c.hostParityMatch then [HostParityMismatch] else [])
            + (if c.openBlockers != 0 then [OpenBlockers(c.openBlockers)] else [])
  {
  }

  lemma ReasonsAre(c: Conditions, missing: seq<string>)
    ensures Reasons(c, missing) == IdentityReasons(c) + BindingReasons(c) + ExpectationReasons(c) + OutcomeReasons(c, missing)
  {
  }

  /** There is no reason exactly when everything holds. */
  lemma NoReasonExactly(c: Conditions, missing: seq<string>)
    requires c.fourPlatformCandidatesPresent == c.fourPlatformSummaryPresent == (missing == [])
    ensures Reasons(c, missing) == [] <==> AllHold(c)
  {
    hide Reasons;
    if Reasons(c, missing) == [] {
      forall reason ensures !Applies(reason, c, missing) { ReasonsApply(c, missing, reason); }
      assert !Applies(SourceManifestMissing, c, missing) && !Applies(SchemaVersionNotBound, c, missing);
      assert !Applies(CoreIdentityNotBound, c, missing) && !Applies(ArtifactHashesNotBound, c, missing);
      assert !Applies(RunIdNotBound, c, missing) && !Applies(RunIdMismatch, c, missing);
      assert !Applies(ScenarioNotBound, c, missing) && !Applies(ScenarioMismatch, c, missing);
      assert !Applies(ExpectedMissing, c, missing) && !Applies(ExpectedFullDiffMissing, c, missing);
      assert !Applies(ExpectedByPlatformMissing, c, missing) && !Applies(ExpectedHostParityMissing, c, missing);
      assert !Applies(MissingCandidates(missing), c, missing) && !Applies(FullDiffMismatch, c, missing);
      assert !Applies(HostParityMismatch, c, missing) && !Applies(OpenBlockers(c.openBlockers), c, missing);
    } else {
      var reason := Reasons(c, missing)[0];
      ReasonsApply(c, missing, reason);
    }
  }

  lemma ProofIs(proof: CorpusProof, document: Document, parity: HostParity, open: nat,
                run: string, scenario: string, source: Option<SourceManifest>)
    requires proof.conditions == ConditionsOf(source, document, parity, open, run, scenario)
    requires proof.missingCandidates == proof.missingSummary == Absent(Sorted(RequiredPlatforms), Names(document.candidates))
    requires proof.reasons == Reasons(proof.conditions, proof.missingCandidates)
    requires proof.status == Pass <==> proof.reasons == []
    ensures ProvesFrom(proof, document, parity, open, run, scenario, source)
  {
  }

  lemma PresenceConditions(source: Option<SourceManifest>, document: Document, parity: HostParity, open: nat,
                           run: string, scenario: string)
    ensures var c := ConditionsOf(source, document, parity, open, run, scenario);
            && c.fourPlatformCandidatesPresent == c.fourPlatformSummaryPresent
               == (Absent(Sorted(RequiredPlatforms), Names(document.candidates)) == [])
            && c.openBlockers == open
  {
  }

  // ---------------------------------------------------------------------
  // The manifest
  // ---------------------------------------------------------------------

  /** The parts of the manifest that the packager recomputes. */
  datatype Manifest = Manifest(
    runId: string, summaryMatches: bool, summaryTotal: nat, summary: seq<CandidateResult>,
    hostParity: HostParity, corpusProof: CorpusProof, added: nat, open: nat, openByPlatform: map<string, nat>,
    registerPath: Option<string>)

  /** Where a run's register lies in its package. */
  const RegisterPath := "corpus-blocker-register.json"

  datatype Collected = Written(manifest: Manifest, document: Document) | Refused

  /** The four results in the order of the required platforms. */
  function FourTrees(trees: map<string, Json>): seq<NamedTree>
    requires forall p :: p in RequiredPlatforms ==> p in trees
  {
    seq(4, i requires 0 <= i < 4 => NamedTree(RequiredPlatforms[i], trees[RequiredPlatforms[i]]))
  }

  lemma FourTreesDistinct(trees: map<string, Json>)
    requires forall p :: p in RequiredPlatforms ==> p in trees
    ensures DistinctNames(FourTrees(trees)) && AllPresent(FourTrees(trees))
  {
    var c := FourTrees(trees);
    assert RequiredPlatforms[0] == "cli" && RequiredPlatforms[1] == "ios";
    assert RequiredPlatforms[2] == "android" && RequiredPlatforms[3] == "harmony";
    forall p | p in RequiredPlatforms
      ensures exists x :: x in c && x.name == p
    {
      var i :| 0 <= i < 4 && RequiredPlatforms[i] == p;
      assert c[i] in c && c[i].name == p;
    }
    assert "cli"[0] == 'c' && "ios"[0] == 'i' && "android"[0] == 'a' && "harmony"[0] == 'h';
  }

  /** `collect_real_run` from the parsed inputs on. The register is the one loaded from its
      file; `accepted` says that the source manifest, if any, passed its validation. */
  method CollectRealRun(rawRunId: string, rawScenario: string, canonical: Json, trees: map<string, Json>,
                        source: Option<SourceManifest>, accepted: bool, severity: string, now: string,
                        register: Register) returns (r: Collected)
    requires forall p :: p in RequiredPlatforms ==> p in trees
    modifies register
    ensures Trim(rawRunId) == "" || !accepted <==> r == Refused
    ensures r == Refused ==> register.Now() == old(register.Now())
    ensures r.Written? ==> r.manifest.added == |register.blockers| - |old(register.blockers)|
    ensures r.Written? ==>
              var run, scenario := Trim(rawRunId), if AllWhitespace(rawScenario) then "corpus-real-run" else Trim(rawScenario);
              && r.document == Build(canonical, FourTrees(trees))
              && register.Now() == Apply(old(register.Now()), AddFromDiff(r.document, Some(run), severity, now))
              && Describes(r.manifest, r.document, register.Now(), run, scenario, source)
  {
    hide ParityFor, OpenCount, Breakdown, ProvesFrom, Apply, Build, FourTrees, Trim, ScenarioOf, DistinctNames, AllPresent, IsWhitespace;
    var run, scenario := Trim(rawRunId), ScenarioOf(rawScenario);
    if run == "" || !accepted {
      return Refused;
    }
    ScenarioIs(rawScenario);
    FourTreesDistinct(trees);
    var document := BuildDiffResult(canonical, FourTrees(trees));
    var parity := BuildHostParity(document);
    var added := register.AddBlockersFromDiff(document, Some(run), severity, now);
    var open, breakdown := register.GateEvaluate(Some(run));
    var proof := BuildCorpusProof(source, document, parity, open, run, scenario);
    var manifest := Manifest(run, document.matches, document.total, document.candidates, parity, proof,
                             |added|, open, breakdown, Some(RegisterPath));
    r := Written(manifest, document);
  }

  function ScenarioOf(raw: string): string {
    if Trim(raw) == "" then "corpus-real-run" else Trim(raw)
  }

  lemma ScenarioIs(raw: string)
    ensures ScenarioOf(raw) == if AllWhitespace(raw) then "corpus-real-run" else Trim(raw)
  {
    BlankExactly(raw);
  }

  /** The proof has the conditions of the run, a reason for each that fails, and passes
      exactly when there is no reason. */
  predicate ProvesFrom(proof: CorpusProof, document: Document, parity: HostParity, open: nat,
                       run: string, scenario: string, source: Option<SourceManifest>) {
    && proof.conditions == ConditionsOf(source, document, parity, open, run, scenario)
    && proof.missingCandidates == proof.missingSummary == Absent(Sorted(RequiredPlatforms), Names(document.candidates))
    && proof.reasons == Reasons(proof.conditions, proof.missingCandidates)
    && (proof.status == Pass <==> proof.reasons == [])
  }

  /** Whatever the inputs, a proof has no reason exactly when its conditions all hold. */
  lemma HonestProof(proof: CorpusProof, document: Document, parity: HostParity, open: nat,
                    run: string, scenario: string, source: Option<SourceManifest>)
    requires ProvesFrom(proof, document, parity, open, run, scenario, source)
    ensures proof.reasons == [] <==> AllHold(proof.conditions)
  {
    PresenceConditions(source, document, parity, open, run, scenario);
    hide ConditionsOf, Absent, Sorted, Reasons;
    NoReasonExactly(proof.conditions, proof.missingCandidates);
  }

  /** The manifest tells the truth about the diff-result and the register. */
  predicate Describes(m: Manifest, document: Document, s: State, run: string, scenario: string,
                      source: Option<SourceManifest>) {
    && m.runId == run && m.summaryMatches == document.matches && m.summaryTotal == document.total
    && m.summary == document.candidates
    && m.hostParity == ParityFor(document.candidates, HostPlatforms)
    && m.open == OpenCount(s.blockers, Some(run)) && m.openByPlatform == Breakdown(s.blockers, Some(run))
    && m.registerPath == Some(RegisterPath)
    && ProvesFrom(m.corpusProof, document, m.hostParity, m.open, run, scenario, source)
  }

}
