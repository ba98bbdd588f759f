/** What the register's operations do to their entries and to the gate. */
module RegisterLaws {
  import opened Text
  import opened Ordering
  import opened DiffResult
  import opened BlockerRegister

  // ---------------------------------------------------------------------
  // The gate counts positions
  // ---------------------------------------------------------------------

  /** The blocker at `i` is open, and of the run if one is given. */
  predicate OpenAt(blockers: seq<Blocker>, i: nat, runId: Option<string>) {
    i < |blockers| && blockers[i].status == Open && (runId == None || blockers[i].runId == runId)
  }

  function OpenPositions(blockers: seq<Blocker>, runId: Option<string>): set<nat> {
    set i: nat | i < |blockers| && OpenAt(blockers, i, runId)
  }

  function OpenPositionsOf(blockers: seq<Blocker>, runId: Option<string>, platform: string): set<nat> {
    set i: nat | i < |blockers| && OpenAt(blockers, i, runId) && blockers[i].platform == platform
  }

  /** The gate's count is the number of open blockers of the run. */
  lemma {:induction false} OpenCountCounts(blockers: seq<Blocker>, runId: Option<string>)
    ensures OpenCount(blockers, runId) == |OpenPositions(blockers, runId)|
  {
    if blockers == [] {
      assert OpenPositions(blockers, runId) == {};
    } else {
      OpenCountCounts(blockers[..|blockers| - 1], runId);
      OpenSnoc(blockers, runId);
      hide OpenPositions, Counts;
    }
  }

  lemma OpenSnoc(blockers: seq<Blocker>, runId: Option<string>)
    requires blockers != []
    ensures var n := |blockers| - 1;
            var before, own := OpenPositions(blockers[..n], runId), OpenPositions(blockers, runId);
            if Counts(blockers[n], runId) then own == before + {n} && n !in before else own == before
  {
    var n := |blockers| - 1;
    var before, own := OpenPositions(blockers[..n], runId), OpenPositions(blockers, runId);
    forall i: nat | i < n ensures i in own <==> i in before {
      assert blockers[i] == blockers[..n][i];
    }
    assert forall i :: i in own ==> i <= n;
    assert OpenAt(blockers, n, runId) <==> Counts(blockers[n], runId);
    hide OpenAt, Counts;
    assert own - {n} == before;
  }

  /** The breakdown names exactly the platforms with an open blocker of the run, each with
      the number of its own. */
  lemma {:induction false} BreakdownCounts(blockers: seq<Blocker>, runId: Option<string>, platform: string)
    ensures var own := OpenPositionsOf(blockers, runId, platform);
            && (platform in Breakdown(blockers, runId) <==> own != {})
            && (platform in Breakdown(blockers, runId) ==> Breakdown(blockers, runId)[platform] == |own|)
  {
    if blockers == [] {
      assert OpenPositionsOf(blockers, runId, platform) == {};
    } else {
      var n := |blockers| - 1;
      BreakdownCounts(blockers[..n], runId, platform);
      OpenOfSnoc(blockers, runId, platform);
      hide OpenPositionsOf;
    }
  }

  lemma OpenOfSnoc(blockers: seq<Blocker>, runId: Option<string>, platform: string)
    requires blockers != []
    ensures var n := |blockers| - 1;
            var before, own := OpenPositionsOf(blockers[..n], runId, platform), OpenPositionsOf(blockers, runId, platform);
            if Counts(blockers[n], runId) && blockers[n].platform == platform then own == before + {n} && n !in before
            else own == before
  {
    var n := |blockers| - 1;
    var before, own := OpenPositionsOf(blockers[..n], runId, platform), OpenPositionsOf(blockers, runId, platform);
    forall i: nat | i < n ensures i in own <==> i in before {
      assert blockers[i] == blockers[..n][i];
    }
    assert forall i :: i in own ==> i <= n;
    assert OpenAt(blockers, n, runId) <==> Counts(blockers[n], runId);
    hide OpenAt, Counts;
    assert own - {n} == before;
  }

  // ---------------------------------------------------------------------
  // What a diff-result registers
  // ---------------------------------------------------------------------

  /** The diff-result asks for this entry: a required platform is not among its candidates,
      or a candidate that does not match has a divergence there. */
  ghost predicate Wanted(document: Document, d: Draft) {
    || (d.platform in RequiredPlatforms && d.platform !in Names(document.candidates)
        && d.fieldPath == "<candidate>" && d.reason == "required four-platform candidate missing from diff-result")
    || (d.platform in Names(document.candidates) && !Find(document.candidates, d.platform).matches
        && d.reason == "cross-platform divergence from canonical reference"
        && exists x :: x in Find(document.candidates, d.platform).differences && d.fieldPath == FieldPath(x))
  }

  lemma {:induction false} MissingExactly(platforms: seq<string>, present: seq<string>, d: Draft)
    ensures d in MissingDrafts(platforms, present) <==>
            d.platform in platforms && d.platform !in present && d == Draft(d.platform, "<candidate>", MissingReason)
  {
    if platforms != [] {
      var n := |platforms| - 1;
      MissingExactly(platforms[..n], present, d);
      assert platforms == platforms[..n] + [platforms[n]];
    }
  }

  lemma {:induction false} DivergencesExactly(name: string, differences: seq<TreeDiff.Difference>, d: Draft)
    ensures d in DiffDrafts(name, differences) <==>
            d.platform == name && d.reason == DivergenceReason && exists x :: x in differences && d.fieldPath == FieldPath(x)
  {
    hide FieldPath;
    if differences != [] {
      var n := |differences| - 1;
      DivergencesExactly(name, differences[..n], d);
      assert differences == differences[..n] + [differences[n]];
      assert DiffDrafts(name, differences) ==
             DiffDrafts(name, differences[..n]) + [Draft(name, FieldPath(differences[n]), DivergenceReason)];
      assert forall x :: x in differences <==> x in differences[..n] || x == differences[n];
    }
  }

  lemma {:induction false} CandidatesExactly(names: seq<string>, results: seq<CandidateResult>, d: Draft)
    requires forall name :: name in names ==> name in Names(results)
    ensures d in CandidateDrafts(names, results) <==>
            d.platform in names && !Find(results, d.platform).matches
            && d in DiffDrafts(d.platform, Find(results, d.platform).differences)
  {
    hide Find, Names, DiffDrafts;
    if names != [] {
      var n := |names| - 1;
      CandidatesExactly(names[..n], results, d);
      var result := Find(results, names[n]);
      DivergencesExactly(names[n], result.differences, d);
      assert names == names[..n] + [names[n]];
      assert d.platform in names <==> d.platform in names[..n] || d.platform == names[n];
    }
  }

  /** Exactly the wanted entries are derived. */
  lemma DraftsExactly(document: Document, d: Draft)
    ensures d in BlockersFromDiff(document) <==> Wanted(document, d)
  {
    var names := Names(document.candidates);
    SortedNames(document.candidates);
    SortedIsAscending(RequiredPlatforms);
    hide Find, Names, DiffDrafts, Sorted, MissingDrafts, CandidateDrafts, FieldPath;
    MissingExactly(Sorted(RequiredPlatforms), names, d);
    CandidatesExactly(Sorted(names), document.candidates, d);
    if d.platform in names {
      DivergencesExactly(d.platform, Find(document.candidates, d.platform).differences, d);
    }
  }

  /** No blocker has this entry's key for the run, and no earlier entry has it. */
  predicate IsNew(s: State, runId: Option<string>, drafts: seq<Draft>, k: nat)
    requires k < |drafts|
  {
    && (forall i :: 0 <= i < |s.blockers| ==>
          !(s.blockers[i].runId.GetOr("") == runId.GetOr("") && s.blockers[i].platform == drafts[k].platform
            && s.blockers[i].fieldPath == drafts[k].fieldPath))
    && forall j :: 0 <= j < k ==> !(drafts[j].platform == drafts[k].platform && drafts[j].fieldPath == drafts[k].fieldPath)
  }

  /** The entry that registering draft `d` as number `n` makes. */
  function EntryOf(n: nat, runId: Option<string>, d: Draft, severity: string, now: string): Blocker {
    Blocker(FormatId(n), runId, d.platform, d.fieldPath, severity, Open, d.reason, None, now, None)
  }

  /** The positions picked are those of the new entries, in order. */
  ghost predicate Picks(s: State, runId: Option<string>, drafts: seq<Draft>, picked: seq<nat>) {
    && (forall a, b :: 0 <= a < b < |picked| ==> picked[a] < picked[b])
    && (forall a :: 0 <= a < |picked| ==> picked[a] < |drafts|)
    && forall k: nat :: k < |drafts| ==> (k in picked <==> IsNew(s, runId, drafts, k))
  }

  /** The register has grown by the picked entries, numbered on. */
  predicate Grown(s: State, t: State, runId: Option<string>, drafts: seq<Draft>, picked: seq<nat>, severity: string,
                  now: string) {
    && (forall a :: 0 <= a < |picked| ==> picked[a] < |drafts|)
    && t.nextId == s.nextId + |picked| && |t.blockers| == |s.blockers| + |picked|
    && (forall i :: 0 <= i < |s.blockers| ==> t.blockers[i] == s.blockers[i])
    && forall a :: 0 <= a < |picked| ==>
         t.blockers[|s.blockers| + a] == EntryOf(s.nextId + a, runId, drafts[picked[a]], severity, now)
  }

  lemma KeyIsNew(s: State, t: State, runId: Option<string>, drafts: seq<Draft>, picked: seq<nat>, severity: string, now: string)
    requires drafts != []
    requires Picks(s, runId, drafts[..|drafts| - 1], picked)
    requires Grown(s, t, runId, drafts[..|drafts| - 1], picked, severity, now)
    ensures var n := |drafts| - 1;
            KeyFor(runId, drafts[n].platform, drafts[n].fieldPath) in ExistingKeys(t.blockers) <==> !IsNew(s, runId, drafts, n)
  {
    hide FormatId;
    var n := |drafts| - 1;
    var front, d := drafts[..n], drafts[n];
    var key := KeyFor(runId, d.platform, d.fieldPath);
    if key in ExistingKeys(t.blockers) {
      var b :| b in t.blockers && KeyOf(b) == key;
      var i :| 0 <= i < |t.blockers| && t.blockers[i] == b;
      if i < |s.blockers| {
        assert s.blockers[i] == b;
      } else {
        var a := i - |s.blockers|;
        assert t.blockers[|s.blockers| + a] == EntryOf(s.nextId + a, runId, front[picked[a]], severity, now);
        assert drafts[picked[a]] == front[picked[a]];
      }
    }
    if !IsNew(s, runId, drafts, n) {
      var i := KeyHolder(s, t, runId, drafts, picked, severity, now);
      assert t.blockers[i] in t.blockers;
    }
  }

  /** The first entry of a key is picked, so its blocker holds the key. */
  lemma KeyHolder(s: State, t: State, runId: Option<string>, drafts: seq<Draft>, picked: seq<nat>, severity: string, now: string)
    returns (i: nat)
    requires drafts != []
    requires Picks(s, runId, drafts[..|drafts| - 1], picked)
    requires Grown(s, t, runId, drafts[..|drafts| - 1], picked, severity, now)
    requires !IsNew(s, runId, drafts, |drafts| - 1)
    ensures i < |t.blockers| && KeyOf(t.blockers[i]) == KeyFor(runId, drafts[|drafts| - 1].platform, drafts[|drafts| - 1].fieldPath)
  {
    hide FormatId;
    var n := |drafts| - 1;
    var front, d := drafts[..n], drafts[n];
    if j: nat :| j < |s.blockers| && s.blockers[j].runId.GetOr("") == runId.GetOr("")
                 && s.blockers[j].platform == d.platform && s.blockers[j].fieldPath == d.fieldPath
    {
      assert t.blockers[j] == s.blockers[j];
      i := j;
    } else {
      var j := FirstOfKey(drafts, d.platform, d.fieldPath);
      assert drafts[j] == front[j];
      assert IsNew(s, runId, front, j);
      var a :| 0 <= a < |picked| && picked[a] == j;
      i := |s.blockers| + a;
      assert t.blockers[i] == EntryOf(s.nextId + a, runId, front[j], severity, now);
    }
  }

  lemma {:induction false} FirstOfKey(drafts: seq<Draft>, platform: string, fieldPath: string) returns (j: nat)
    requires exists k :: 0 <= k < |drafts| - 1 && drafts[k].platform == platform && drafts[k].fieldPath == fieldPath
    ensures j < |drafts| - 1 && drafts[j].platform == platform && drafts[j].fieldPath == fieldPath
    ensures forall k :: 0 <= k < j ==> !(drafts[k].platform == platform && drafts[k].fieldPath == fieldPath)
  {
    j := 0;
    while !(drafts[j].platform == platform && drafts[j].fieldPath == fieldPath)
      invariant j < |drafts| - 1
      invariant forall k :: 0 <= k < j ==> !(drafts[k].platform == platform && drafts[k].fieldPath == fieldPath)
      decreases |drafts| - j
    {
      j := j + 1;
    }
  }

  lemma PicksSnoc(s: State, runId: Option<string>, drafts: seq<Draft>, picked: seq<nat>)
    requires drafts != [] && Picks(s, runId, drafts[..|drafts| - 1], picked)
    ensures var n := |drafts| - 1;
            Picks(s, runId, drafts, if IsNew(s, runId, drafts, n) then picked + [n] else picked)
  {
    var n := |drafts| - 1;
    var next := if IsNew(s, runId, drafts, n) then picked + [n] else picked;
    forall k: nat | k < |drafts| ensures k in next <==> IsNew(s, runId, drafts, k) {
      if k < n { IsNewInFront(s, runId, drafts, k); }
      assert k in next <==> k in picked || (k == n && IsNew(s, runId, drafts, n));
    }
  }

  lemma IsNewInFront(s: State, runId: Option<string>, drafts: seq<Draft>, k: nat)
    requires k < |drafts| - 1
    ensures IsNew(s, runId, drafts, k) <==> IsNew(s, runId, drafts[..|drafts| - 1], k)
  {
    var front := drafts[..|drafts| - 1];
    assert forall j :: 0 <= j <= k ==> drafts[j] == front[j];
  }

  lemma GrownSnoc(s: State, t: State, runId: Option<string>, drafts: seq<Draft>, picked: seq<nat>, severity: string, now: string)
    requires drafts != [] && Grown(s, t, runId, drafts[..|drafts| - 1], picked, severity, now)
    ensures Grown(s, t, runId, drafts, picked, severity, now)
    ensures var n := |drafts| - 1;
            Grown(s, State(t.nextId + 1, t.blockers + [EntryOf(t.nextId, runId, drafts[n], severity, now)]), runId, drafts,
                  picked + [n], severity, now)
  {
    hide FormatId;
    var front := drafts[..|drafts| - 1];
    forall a | 0 <= a < |picked| ensures drafts[picked[a]] == front[picked[a]] {}
  }

  lemma AddDraftIs(t: State, runId: Option<string>, d: Draft, severity: string, now: string)
    ensures AddDraft(t, runId, d, severity, now) ==
            if KeyFor(runId, d.platform, d.fieldPath) in ExistingKeys(t.blockers) then t
            else State(t.nextId + 1, t.blockers + [EntryOf(t.nextId, runId, d, severity, now)])
  {
  }

  /** Registering adds one open blocker for each entry whose key is new, the first of its
      key, in order, numbered on; nothing else changes. */
  lemma {:induction false} AddedExactly(s: State, runId: Option<string>, drafts: seq<Draft>, severity: string, now: string)
    returns (picked: seq<nat>)
    ensures Picks(s, runId, drafts, picked)
    ensures Grown(s, AddDrafts(s, runId, drafts, severity, now), runId, drafts, picked, severity, now)
  {
    if drafts == [] {
      picked := [];
    } else {
      var n := |drafts| - 1;
      var t := AddDrafts(s, runId, drafts[..n], severity, now);
      picked := AddedExactly(s, runId, drafts[..n], severity, now);
      hide IsNew, Picks, Grown, ExistingKeys, FormatId, AddDraft, EntryOf, KeyFor;
      KeyIsNew(s, t, runId, drafts, picked, severity, now);
      PicksSnoc(s, runId, drafts, picked);
      GrownSnoc(s, t, runId, drafts, picked, severity, now);
      AddDraftIs(t, runId, drafts[n], severity, now);
      if IsNew(s, runId, drafts, n) { picked := picked + [n]; }
    }
  }

  // ---------------------------------------------------------------------
  // The life cycle
  // ---------------------------------------------------------------------

  /** The first blocker with the id. */
  predicate FirstWithId(s: State, i: nat, id: string) {
    i < |s.blockers| && s.blockers[i].id == id && forall j :: 0 <= j < i ==> s.blockers[j].id != id
  }

  /** Only the blocker at `i` may differ. */
  predicate OnlyAt(s: State, t: State, i: nat) {
    && t.nextId == s.nextId && |t.blockers| == |s.blockers|
    && forall j :: 0 <= j < |s.blockers| && j != i ==> t.blockers[j] == s.blockers[j]
  }

  lemma UnknownIdChangesNothing(s: State, id: string, rationale: string, waivedBy: string, now: string)
    requires forall i :: 0 <= i < |s.blockers| ==> s.blockers[i].id != id
    ensures Apply(s, Waive(id, rationale, waivedBy, now)) == s
    ensures Apply(s, Close(id, now)) == s && Apply(s, Reopen(id)) == s
  {
  }

  /** A waiver with a rationale waives a blocker that is not closed, and only that one. */
  lemma WaiveLaw(s: State, i: nat, id: string, rationale: string, waivedBy: string, now: string)
    requires FirstWithId(s, i, id)
    ensures var b, t := s.blockers[i], Apply(s, Waive(id, rationale, waivedBy, now));
            if AllWhitespace(rationale) || b.status == Closed then t == s
            else
              && OnlyAt(s, t, i) && SameIdentity(b, t.blockers[i]) && t.blockers[i].status == Waived
              && t.blockers[i].waiver == Some(Waiver(Trim(rationale), waivedBy, now))
              && t.blockers[i].resolvedAt == Some(now)
  {
    BlankExactly(rationale);
  }

  /** Closing works from every status; the first resolution stands if it is closed already. */
  lemma CloseLaw(s: State, i: nat, id: string, now: string)
    requires FirstWithId(s, i, id)
    ensures var b, t := s.blockers[i], Apply(s, Close(id, now));
            && OnlyAt(s, t, i) && SameIdentity(b, t.blockers[i]) && t.blockers[i].status == Closed
            && t.blockers[i].waiver == b.waiver
            && t.blockers[i].resolvedAt == (if b.status == Closed then b.resolvedAt else Some(now))
  {
  }

  /** Reopening works from every status and takes waiver and resolution back. */
  lemma ReopenLaw(s: State, i: nat, id: string)
    requires FirstWithId(s, i, id)
    ensures var b, t := s.blockers[i], Apply(s, Reopen(id));
            && OnlyAt(s, t, i) && SameIdentity(b, t.blockers[i])
            && t.blockers[i].status == Open && t.blockers[i].waiver == None && t.blockers[i].resolvedAt == None
  {
  }

  /** A manual entry is always added, with a stock reason if none is given. */
  lemma ManualLaw(s: State, runId: Option<string>, platform: string, fieldPath: string, severity: string, reason: string,
                  now: string)
    ensures var t := Apply(s, AddManual(runId, platform, fieldPath, severity, reason, now));
            && t.nextId == s.nextId + 1
            && t.blockers == s.blockers + [Blocker(FormatId(s.nextId), runId, platform, fieldPath, severity, Open,
                                                   if reason != "" then reason else "manually registered blocker",
                                                   None, now, None)]
  {
  }

  /** Reopening undoes a waiver or a closing of an open blocker, on every sound register. */
  lemma ReopenUndoes(s: State, i: nat, id: string, rationale: string, waivedBy: string, now: string)
    requires Sound(s) && FirstWithId(s, i, id) && s.blockers[i].status == Open
    ensures Apply(Apply(s, Waive(id, rationale, waivedBy, now)), Reopen(id)) == s
    ensures Apply(Apply(s, Close(id, now)), Reopen(id)) == s
  {
    var w, c := Apply(s, Waive(id, rationale, waivedBy, now)), Apply(s, Close(id, now));
    assert s.blockers[i] in s.blockers;
    assert LifeCycle(s.blockers[i]);
    WaiveLaw(s, i, id, rationale, waivedBy, now);
    CloseLaw(s, i, id, now);
    assert FirstWithId(w, i, id) && FirstWithId(c, i, id);
    ReopenLaw(w, i, id);
    ReopenLaw(c, i, id);
    ReopenLaw(s, i, id);
    hide Apply, FormatId, LifeCycle, Numbered;
    assert Apply(w, Reopen(id)).blockers == s.blockers;
    assert Apply(c, Reopen(id)).blockers == s.blockers;
  }

  /** Changing one blocker moves the gate's count by that blocker alone. */
  lemma GateMoves(s: State, t: State, i: nat, runId: Option<string>)
    requires OnlyAt(s, t, i) && i < |s.blockers|
    ensures OpenCount(t.blockers, runId) + (if OpenAt(s.blockers, i, runId) then 1 else 0) ==
            OpenCount(s.blockers, runId) + if OpenAt(t.blockers, i, runId) then 1 else 0
  {
    OpenCountCounts(s.blockers, runId);
    OpenCountCounts(t.blockers, runId);
    forall j: nat | j != i ensures OpenAt(s.blockers, j, runId) == OpenAt(t.blockers, j, runId) {
      assert j < |s.blockers| ==> t.blockers[j] == s.blockers[j];
    }
    hide OpenAt;
    var a, b := OpenPositions(s.blockers, runId), OpenPositions(t.blockers, runId);
    assert a - {i} == b - {i};
    WithoutOne(a, i);
    WithoutOne(b, i);
  }

  lemma WithoutOne(a: set<nat>, i: nat)
    ensures |a| == |a - {i}| + if i in a then 1 else 0
  {
    if i !in a { assert a - {i} == a; }
  }
}
