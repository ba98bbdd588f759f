/** The release-blocker register: a persistent list of blockers with a small life cycle. */
module BlockerRegister {
  import opened Text
  import opened Ordering
  import opened Json
  import opened TreeDiff
  import opened DiffResult

  datatype Status = Open | Waived | Closed

  datatype Waiver = Waiver(rationale: string, waivedBy: string, waivedAt: string)

  /** Hashes and snippets of an entry are not modelled. */
  datatype Blocker = Blocker(
    id: string, runId: Option<string>, platform: string, fieldPath: string,
    severity: string, status: Status, reason: string, waiver: Option<Waiver>,
    createdAt: string, resolvedAt: Option<string>)

  /** The register's persistent state. */
  datatype State = State(nextId: nat, blockers: seq<Blocker>)

  const Empty := State(1, [])

  const RequiredPlatforms := ["cli", "ios", "android", "harmony"]

  // ---------------------------------------------------------------------
  // Identifiers
  // ---------------------------------------------------------------------

  /** Zeros in front up to four characters. */
  function Pad4(s: string): string
    decreases 4 - |s|
  {
    if |s| >= 4 then s else Pad4("0" + s)
  }

  function FormatId(n: nat): string { "BLK-" + Pad4(Decimal(n)) }

  lemma {:induction false} PadKeepsNumber(s: string)
    ensures ParseDecimal(Pad4(s)) == ParseDecimal(s)
    decreases 4 - |s|
  {
    if |s| < 4 {
      LeadingZero(s);
      PadKeepsNumber("0" + s);
    }
  }

  lemma {:induction false} PadLength(s: string)
    ensures |Pad4(s)| == if |s| < 4 then 4 else |s|
    decreases 4 - |s|
  {
    if |s| < 4 { PadLength("0" + s); }
  }

  /** An identifier is `BLK-` and the number, in four digits if they suffice. */
  lemma FormatIdText(n: nat)
    ensures FormatId(n)[..4] == "BLK-" && ParseDecimal(FormatId(n)[4..]) == n
    ensures |FormatId(n)| == 4 + if |Decimal(n)| < 4 then 4 else |Decimal(n)|
  {
    var s := Pad4(Decimal(n));
    assert ("BLK-" + s)[..4] == "BLK-" && ("BLK-" + s)[4..] == s;
    PadLength(Decimal(n));
    PadKeepsNumber(Decimal(n));
    DecimalRoundTrip(n);
  }

  lemma {:induction false} LeadingZero(s: string)
    ensures ParseDecimal("0" + s) == ParseDecimal(s)
  {
    if s == "" {
      assert "0" + s == "0" && "0"[..0] == "";
    } else {
      assert ("0" + s)[..|s|] == "0" + s[..|s| - 1];
      LeadingZero(s[..|s| - 1]);
    }
  }

  /** Different numbers give different identifiers, past four digits too. */
  lemma FormatIdInjective(m: nat, n: nat)
    requires FormatId(m) == FormatId(n)
    ensures m == n
  {
    FormatIdText(m);
    FormatIdText(n);
  }

  // ---------------------------------------------------------------------
  // Entries derived from a diff-result
  // ---------------------------------------------------------------------

  /** An entry before it gets its id and time. */
  datatype Draft = Draft(platform: string, fieldPath: string, reason: string)

  const MissingReason := "required four-platform candidate missing from diff-result"

  const DivergenceReason := "cross-platform divergence from canonical reference"

  function Names(results: seq<CandidateResult>): seq<string> {
    seq(|results|, i requires 0 <= i < |results| => results[i].name)
  }

  function MissingDrafts(platforms: seq<string>, present: seq<string>): seq<Draft> {
    if platforms == [] then []
    else
      var n := |platforms| - 1;
      MissingDrafts(platforms[..n], present) +
      if platforms[n] in present then [] else [Draft(platforms[n], "<candidate>", MissingReason)]
  }

  /** The entry the name stands for. */
  function Find(results: seq<CandidateResult>, name: string): (r: CandidateResult)
    requires name in Names(results)
    ensures r in results && r.name == name
  {
    if results[0].name == name then results[0]
    else
      assert Names(results)[1..] == Names(results[1..]);
      assert name in Names(results)[1..];
      Find(results[1..], name)
  }

  function DiffDrafts(name: string, differences: seq<Difference>): seq<Draft> {
    if differences == [] then []
    else
      var n := |differences| - 1;
      DiffDrafts(name, differences[..n]) + [Draft(name, FieldPath(differences[n]), DivergenceReason)]
  }

  function CandidateDrafts(names: seq<string>, results: seq<CandidateResult>): seq<Draft>
    requires forall name :: name in names ==> name in Names(results)
  {
    if names == [] then []
    else
      var n := |names| - 1;
      var result := Find(results, names[n]);
      CandidateDrafts(names[..n], results) +
      if result.matches then [] else DiffDrafts(names[n], result.differences)
  }

  lemma SortedNames(results: seq<CandidateResult>)
    ensures forall name :: name in Sorted(Names(results)) <==> name in Names(results)
  {
    SortedIsAscending(Names(results));
  }

  /** Missing platforms first, then the divergences of each candidate that does not match. */
  function BlockersFromDiff(document: Document): seq<Draft> {
    var names := Names(document.candidates);
    SortedNames(document.candidates);
    MissingDrafts(Sorted(RequiredPlatforms), names) + CandidateDrafts(Sorted(names), document.candidates)
  }

  // ---------------------------------------------------------------------
  // The operations, as functions of the state
  // ---------------------------------------------------------------------

  type BlockerKey = (string, string, string)

  function KeyFor(runId: Option<string>, platform: string, fieldPath: string): BlockerKey {
    (runId.GetOr(""), platform, fieldPath)
  }

  function KeyOf(b: Blocker): BlockerKey { KeyFor(b.runId, b.platform, b.fieldPath) }

  function ExistingKeys(blockers: seq<Blocker>): set<BlockerKey> {
    set b | b in blockers :: KeyOf(b)
  }

  function Fresh(id: string, runId: Option<string>, d: Draft, severity: string, now: string): Blocker {
    Blocker(id, runId, d.platform, d.fieldPath, severity, Open, d.reason, None, now, None)
  }

  /** One derived entry, unless its key is already registered. */
  function AddDraft(s: State, runId: Option<string>, d: Draft, severity: string, now: string): State {
    if KeyFor(runId, d.platform, d.fieldPath) in ExistingKeys(s.blockers) then s
    else State(s.nextId + 1, s.blockers + [Fresh(FormatId(s.nextId), runId, d, severity, now)])
  }

  function AddDrafts(s: State, runId: Option<string>, drafts: seq<Draft>, severity: string, now: string): State {
    if drafts == [] then s
    else
      var n := |drafts| - 1;
      AddDraft(AddDrafts(s, runId, drafts[..n], severity, now), runId, drafts[n], severity, now)
  }

  /** The position of the first blocker with this id, or the length of the list. */
  function IndexOf(blockers: seq<Blocker>, id: string): (i: nat)
    ensures i <= |blockers|
    ensures i < |blockers| ==> blockers[i].id == id
    ensures forall j :: 0 <= j < i ==> blockers[j].id != id
  {
    if blockers == [] || blockers[0].id == id then 0 else 1 + IndexOf(blockers[1..], id)
  }

  datatype Op =
    | AddFromDiff(document: Document, runId: Option<string>, severity: string, now: string)
    | AddManual(runId: Option<string>, platform: string, fieldPath: string, severity: string, reason: string, now: string)
    | Waive(id: string, rationale: string, waivedBy: string, now: string)
    | Close(id: string, now: string)
    | Reopen(id: string)

  function WaiveEntry(b: Blocker, rationale: string, waivedBy: string, now: string): Blocker {
    b.(status := Waived, waiver := Some(Waiver(Trim(rationale), waivedBy, now)), resolvedAt := Some(now))
  }

  function CloseEntry(b: Blocker, now: string): Blocker {
    if b.status == Closed then b else b.(status := Closed, resolvedAt := Some(now))
  }

  function ReopenEntry(b: Blocker): Blocker {
    b.(status := Open, resolvedAt := None, waiver := None)
  }

  /** Refused operations leave the register as it is. */
  function Apply(s: State, op: Op): State {
    match op
    case AddFromDiff(document, runId, severity, now) =>
      AddDrafts(s, runId, BlockersFromDiff(document), severity, now)
    case AddManual(runId, platform, fieldPath, severity, reason, now) =>
      var d := Draft(platform, fieldPath, if reason == "" then "manually registered blocker" else reason);
      State(s.nextId + 1, s.blockers + [Fresh(FormatId(s.nextId), runId, d, severity, now)])
    case Waive(id, rationale, waivedBy, now) =>
      var i := IndexOf(s.blockers, id);
      if i == |s.blockers| || Trim(rationale) == "" || s.blockers[i].status == Closed then s
      else s.(blockers := s.blockers[i := WaiveEntry(s.blockers[i], rationale, waivedBy, now)])
    case Close(id, now) =>
      var i := IndexOf(s.blockers, id);
      if i == |s.blockers| then s else s.(blockers := s.blockers[i := CloseEntry(s.blockers[i], now)])
    case Reopen(id) =>
      var i := IndexOf(s.blockers, id);
      if i == |s.blockers| then s else s.(blockers := s.blockers[i := ReopenEntry(s.blockers[i])])
  }

  function Run(s: State, ops: seq<Op>): State
    decreases |ops|
  {
    if ops == [] then s else Run(Apply(s, ops[0]), ops[1..])
  }

  // ---------------------------------------------------------------------
  // The gate
  // ---------------------------------------------------------------------

  /** The blocker is open and belongs to the run, or to any run if none is given. */
  predicate Counts(b: Blocker, runId: Option<string>) {
    b.status == Open && (runId.Some? ==> b.runId == runId)
  }

  function OpenCount(blockers: seq<Blocker>, runId: Option<string>): nat {
    if blockers == [] then 0
    else OpenCount(blockers[..|blockers| - 1], runId) + if Counts(blockers[|blockers| - 1], runId) then 1 else 0
  }

  function Breakdown(blockers: seq<Blocker>, runId: Option<string>): map<string, nat> {
    if blockers == [] then map[]
    else
      var n := |blockers| - 1;
      var rest, b := Breakdown(blockers[..n], runId), blockers[n];
      if Counts(b, runId) then rest[b.platform := 1 + if b.platform in rest then rest[b.platform] else 0] else rest
  }

  lemma AddDraftsSnoc(s: State, runId: Option<string>, drafts: seq<Draft>, i: nat, severity: string, now: string)
    requires i < |drafts|
    ensures AddDrafts(s, runId, drafts[..i + 1], severity, now) ==
            AddDraft(AddDrafts(s, runId, drafts[..i], severity, now), runId, drafts[i], severity, now)
  {
    assert drafts[..i + 1][..i] == drafts[..i];
  }

  datatype Outcome = Done | NoSuchBlocker | BlankRationale | AlreadyClosed

  /** The register document; entries are values in its list. */
  class Register {
    var nextId: nat
    var blockers: seq<Blocker>

    constructor ()
      ensures Now() == Empty
    {
      nextId, blockers := 1, [];
    }

    ghost function Now(): State
      reads this
    {
      State(nextId, blockers)
    }

    method NewId() returns (id: string)
      modifies this`nextId
      ensures id == FormatId(old(nextId)) && nextId == old(nextId) + 1
    {
      id := FormatId(nextId);
      nextId := nextId + 1;
    }

    /** `add_blockers_from_diff`. */
    method AddBlockersFromDiff(document: Document, runId: Option<string>, severity: string, now: string)
      returns (added: seq<Blocker>)
      modifies this
      ensures Now() == Apply(old(Now()), AddFromDiff(document, runId, severity, now))
      ensures blockers == old(blockers) + added
    {
      var existing := ExistingKeys(blockers);
      var drafts := BlockersFromDiff(document);
      added := [];
      for i := 0 to |drafts|
        invariant Now() == AddDrafts(old(Now()), runId, drafts[..i], severity, now)
        invariant existing == ExistingKeys(blockers) && blockers == old(blockers) + added
      {
        AddDraftsSnoc(old(Now()), runId, drafts, i, severity, now);
        var d := drafts[i];
        hide AddDrafts, ExistingKeys, BlockersFromDiff;
        if KeyFor(runId, d.platform, d.fieldPath) !in existing {
          var id := NewId();
          var entry := Fresh(id, runId, d, severity, now);
          ExistingKeysSnoc(blockers, entry);
          blockers := blockers + [entry];
          existing := existing + {KeyFor(runId, d.platform, d.fieldPath)};
          added := added + [entry];
        }
      }
      assert drafts[..|drafts|] == drafts;
    }

    /** `add_manual_blocker`. */
    method AddManualBlocker(runId: Option<string>, platform: string, fieldPath: string,
                            severity: string, reason: string, now: string)
      modifies this
      ensures Now() == Apply(old(Now()), AddManual(runId, platform, fieldPath, severity, reason, now))
    {
      var id := NewId();
      var text := if reason == "" then "manually registered blocker" else reason;
      blockers := blockers + [Blocker(id, runId, platform, fieldPath, severity, Open, text, None, now, None)];
    }

    method FindBlocker(id: string) returns (i: nat)
      ensures i == IndexOf(blockers, id)
    {
      i := 0;
      while i < |blockers| && blockers[i].id != id
        invariant i <= |blockers|
        invariant forall j :: 0 <= j < i ==> blockers[j].id != id
      {
        i := i + 1;
      }
    }

    /** `find_blocker` then `waive_blocker`. */
    method WaiveBlocker(id: string, rationale: string, waivedBy: string, now: string) returns (outcome: Outcome)
      modifies this`blockers
      ensures Now() == Apply(old(Now()), Waive(id, rationale, waivedBy, now))
      ensures outcome != Done ==> blockers == old(blockers)
      ensures outcome == BlankRationale <==> IndexOf(old(blockers), id) < |old(blockers)| && Trim(rationale) == ""
    {
      var i := FindBlocker(id);
      if i == |blockers| { return NoSuchBlocker; }
      if Trim(rationale) == "" { return BlankRationale; }
      var b := blockers[i];
      if b.status == Closed { return AlreadyClosed; }
      b := b.(status := Waived);
      b := b.(waiver := Some(Waiver(Trim(rationale), waivedBy, now)));
      b := b.(resolvedAt := Some(b.waiver.value.waivedAt));
      blockers := blockers[i := b];
      outcome := Done;
    }

    /** `find_blocker` then `close_blocker`. */
    method CloseBlocker(id: string, now: string) returns (outcome: Outcome)
      modifies this`blockers
      ensures Now() == Apply(old(Now()), Close(id, now))
      ensures outcome == Done <==> IndexOf(old(blockers), id) < |old(blockers)|
    {
      var i := FindBlocker(id);
      if i == |blockers| { return NoSuchBlocker; }
      if blockers[i].status != Closed {
        blockers := blockers[i := blockers[i].(status := Closed, resolvedAt := Some(now))];
      }
      outcome := Done;
    }

    /** `find_blocker` then `reopen_blocker`. */
    method ReopenBlocker(id: string) returns (outcome: Outcome)
      modifies this`blockers
      ensures Now() == Apply(old(Now()), Reopen(id))
      ensures outcome == Done <==> IndexOf(old(blockers), id) < |old(blockers)|
    {
      var i := FindBlocker(id);
      if i == |blockers| { return NoSuchBlocker; }
      blockers := blockers[i := blockers[i].(status := Open, resolvedAt := None, waiver := None)];
      outcome := Done;
    }

    /** `gate_evaluate`. */
    method GateEvaluate(runId: Option<string>) returns (count: nat, breakdown: map<string, nat>)
      ensures count == OpenCount(blockers, runId) && breakdown == Breakdown(blockers, runId)
    {
      count, breakdown := 0, map[];
      for i := 0 to |blockers|
        invariant count == OpenCount(blockers[..i], runId) && breakdown == Breakdown(blockers[..i], runId)
      {
        assert blockers[..i + 1][..i] == blockers[..i];
        if Counts(blockers[i], runId) {
          var platform := blockers[i].platform;
          breakdown := breakdown[platform := 1 + if platform in breakdown then breakdown[platform] else 0];
          count := count + 1;
        }
      }
      assert blockers[..|blockers|] == blockers;
    }
  }

  lemma ExistingKeysSnoc(blockers: seq<Blocker>, b: Blocker)
    ensures ExistingKeys(blockers + [b]) == ExistingKeys(blockers) + {KeyOf(b)}
  {
    assert forall x :: x in blockers + [b] <==> x in blockers || x == b;
  }

  // ---------------------------------------------------------------------
  // What every run keeps
  // ---------------------------------------------------------------------

  /** The i-th blocker ever registered carries number i + 1, and the counter is ahead of
      them all. */
  predicate Numbered(s: State) {
    s.nextId == |s.blockers| + 1 && forall i :: 0 <= i < |s.blockers| ==> s.blockers[i].id == FormatId(i + 1)
  }

  /** A waiver is never blank and only a waived or closed blocker has one; an open blocker
      has no resolution time and every other one does. */
  predicate LifeCycle(b: Blocker) {
    && (b.waiver.Some? ==> Trim(b.waiver.value.rationale) != "")
    && match b.status
       case Open => b.waiver.None? && b.resolvedAt.None?
       case Waived => b.waiver.Some? && b.resolvedAt == Some(b.waiver.value.waivedAt)
       case Closed => b.resolvedAt.Some?
  }

  predicate Sound(s: State) {
    Numbered(s) && forall b :: b in s.blockers ==> LifeCycle(b)
  }

  /** What identifies a blocker never changes. */
  predicate SameIdentity(b: Blocker, c: Blocker) {
    && b.id == c.id && b.runId == c.runId && b.platform == c.platform && b.fieldPath == c.fieldPath
    && b.severity == c.severity && b.reason == c.reason && b.createdAt == c.createdAt
  }

  /** Every blocker of `s` is still in `t`, at its place. */
  predicate Persists(s: State, t: State) {
    |s.blockers| <= |t.blockers| && forall i :: 0 <= i < |s.blockers| ==> SameIdentity(s.blockers[i], t.blockers[i])
  }

  lemma {:induction false} AddDraftsKeeps(s: State, runId: Option<string>, drafts: seq<Draft>, severity: string, now: string)
    requires Sound(s)
    ensures Sound(AddDrafts(s, runId, drafts, severity, now))
    ensures Persists(s, AddDrafts(s, runId, drafts, severity, now))
  {
    hide FormatId, Trim;
    if drafts != [] {
      AddDraftsKeeps(s, runId, drafts[..|drafts| - 1], severity, now);
    }
  }

  lemma ApplyKeeps(s: State, op: Op)
    requires Sound(s)
    ensures Sound(Apply(s, op)) && Persists(s, Apply(s, op))
  {
    hide FormatId, Trim, AddDrafts, BlockersFromDiff;
    match op
    case AddFromDiff(document, runId, severity, now) =>
      AddDraftsKeeps(s, runId, BlockersFromDiff(document), severity, now);
    case AddManual(_, _, _, _, _, _) =>
    case Waive(id, rationale, waivedBy, now) =>
      TrimTwice(rationale);
      var i := IndexOf(s.blockers, id);
      if i < |s.blockers| { UpdateKeeps(s, i, WaiveEntry(s.blockers[i], rationale, waivedBy, now)); }
    case Close(id, now) =>
      var i := IndexOf(s.blockers, id);
      if i < |s.blockers| { UpdateKeeps(s, i, CloseEntry(s.blockers[i], now)); }
    case Reopen(id) =>
      var i := IndexOf(s.blockers, id);
      if i < |s.blockers| { UpdateKeeps(s, i, ReopenEntry(s.blockers[i])); }
  }

  lemma UpdateKeeps(s: State, i: nat, b: Blocker)
    requires Sound(s) && i < |s.blockers| && SameIdentity(s.blockers[i], b)
    ensures LifeCycle(b) ==> Sound(s.(blockers := s.blockers[i := b]))
    ensures Persists(s, s.(blockers := s.blockers[i := b]))
    ensures LifeCycle(s.blockers[i])
  {
    hide FormatId, Trim;
    assert s.blockers[i] in s.blockers;
  }

  /** Over every sequence of operations from a sound register, the empty one included:
      ids stay numbered in order, the life cycle holds and no blocker disappears. */
  lemma {:induction false} RunKeeps(s: State, ops: seq<Op>)
    requires Sound(s)
    ensures Sound(Run(s, ops)) && Persists(s, Run(s, ops))
    decreases |ops|
  {
    hide Apply, FormatId, LifeCycle;
    if ops != [] {
      ApplyKeeps(s, ops[0]);
      RunKeeps(Apply(s, ops[0]), ops[1..]);
    }
  }

  /** Ids are pairwise distinct, and a lookup by id finds its own blocker. */
  lemma IdsDistinct(ops: seq<Op>)
    ensures var s := Run(Empty, ops);
            forall i, j :: 0 <= i < |s.blockers| && 0 <= j < |s.blockers| && s.blockers[i].id == s.blockers[j].id ==> i == j
  {
    hide Run, FormatId, LifeCycle;
    var s := Run(Empty, ops);
    RunKeeps(Empty, ops);
    forall i, j | 0 <= i < |s.blockers| && 0 <= j < |s.blockers| && s.blockers[i].id == s.blockers[j].id
      ensures i == j
    {
      FormatIdInjective(i + 1, j + 1);
    }
  }

  // ---------------------------------------------------------------------
  // Registering a diff again adds nothing
  // ---------------------------------------------------------------------

  predicate Registered(s: State, runId: Option<string>, drafts: seq<Draft>) {
    forall d :: d in drafts ==> KeyFor(runId, d.platform, d.fieldPath) in ExistingKeys(s.blockers)
  }

  lemma {:induction false} AddDraftsRegisters(s: State, runId: Option<string>, drafts: seq<Draft>, severity: string, now: string)
    ensures ExistingKeys(s.blockers) <= ExistingKeys(AddDrafts(s, runId, drafts, severity, now).blockers)
    ensures Registered(AddDrafts(s, runId, drafts, severity, now), runId, drafts)
  {
    if drafts != [] {
      var n := |drafts| - 1;
      AddDraftsRegisters(s, runId, drafts[..n], severity, now);
      var t := AddDrafts(s, runId, drafts[..n], severity, now);
      hide AddDrafts, ExistingKeys, FormatId;
      ExistingKeysSnoc(t.blockers, Fresh(FormatId(t.nextId), runId, drafts[n], severity, now));
      assert forall d :: d in drafts ==> d in drafts[..n] || d == drafts[n];
    }
  }

  lemma {:induction false} RegisteredAddsNothing(s: State, runId: Option<string>, drafts: seq<Draft>, severity: string, now: string)
    requires Registered(s, runId, drafts)
    ensures AddDrafts(s, runId, drafts, severity, now) == s
  {
    if drafts != [] {
      RegisteredAddsNothing(s, runId, drafts[..|drafts| - 1], severity, now);
    }
  }

  lemma KeysPersist(s: State, t: State)
    requires Persists(s, t)
    ensures ExistingKeys(s.blockers) <= ExistingKeys(t.blockers)
  {
    forall k | k in ExistingKeys(s.blockers)
      ensures k in ExistingKeys(t.blockers)
    {
      var b :| b in s.blockers && KeyOf(b) == k;
      var i :| 0 <= i < |s.blockers| && s.blockers[i] == b;
      assert t.blockers[i] in t.blockers && KeyOf(t.blockers[i]) == k;
    }
  }

  /** Whatever happens to the register in between, registering the same diff for the same
      run again adds nothing and changes nothing. */
  lemma ReAddAddsNothing(s: State, document: Document, runId: Option<string>, severity: string, now: string,
                         ops: seq<Op>, severity': string, now': string)
    requires Sound(s)
    ensures var t := Run(Apply(s, AddFromDiff(document, runId, severity, now)), ops);
            Apply(t, AddFromDiff(document, runId, severity', now')) == t
  {
    hide AddDrafts, BlockersFromDiff, ExistingKeys, Sound, Persists;
    var drafts := BlockersFromDiff(document);
    var first := AddFromDiff(document, runId, severity, now);
    var after := Apply(s, first);
    ApplyKeeps(s, first);
    RunKeeps(after, ops);
    KeysPersist(after, Run(after, ops));
    AddDraftsRegisters(s, runId, drafts, severity, now);
    RegisteredAddsNothing(Run(after, ops), runId, drafts, severity', now');
  }

  // ---------------------------------------------------------------------
  // The gate is correct
  // ---------------------------------------------------------------------

  function DraftKeys(drafts: seq<Draft>): set<(string, string)> {
    set d | d in drafts :: (d.platform, d.fieldPath)
  }

  predicate NoBlockerOf(s: State, run: string) {
    forall b :: b in s.blockers ==> b.runId != Some(run)
  }

  lemma {:induction false} NoneOpen(blockers: seq<Blocker>, run: string)
    requires forall b :: b in blockers ==> b.runId != Some(run)
    ensures OpenCount(blockers, Some(run)) == 0
  {
    if blockers != [] {
      NoneOpen(blockers[..|blockers| - 1], run);
    }
  }

  /** The keys registered for a run are those of its drafts, and each is open once. */
  lemma {:induction false} RegisteredForRun(s: State, run: string, drafts: seq<Draft>, severity: string, now: string)
    requires run != "" && NoBlockerOf(s, run)
    ensures var t := AddDrafts(s, Some(run), drafts, severity, now);
            && (forall p, f :: (run, p, f) in ExistingKeys(t.blockers) <==> (p, f) in DraftKeys(drafts))
            && OpenCount(t.blockers, Some(run)) == |DraftKeys(drafts)|
  {
    if drafts == [] {
      NoneOpen(s.blockers, run);
    } else {
      var n := |drafts| - 1;
      var t, d := AddDrafts(s, Some(run), drafts[..n], severity, now), drafts[n];
      assert drafts[..n] + [d] == drafts;
      assert AddDrafts(s, Some(run), drafts, severity, now) == AddDraft(t, Some(run), d, severity, now);
      hide AddDrafts, AddDraft, ExistingKeys, DraftKeys, OpenCount;
      RegisteredForRun(s, run, drafts[..n], severity, now);
      RegistersOne(t, run, drafts[..n], d, severity, now);
    }
  }

  lemma DraftKeysSnoc(drafts: seq<Draft>, d: Draft)
    ensures DraftKeys(drafts + [d]) == DraftKeys(drafts) + {(d.platform, d.fieldPath)}
  {
    assert forall x :: x in drafts + [d] <==> x in drafts || x == d;
  }

  lemma RegistersOne(t: State, run: string, drafts: seq<Draft>, d: Draft, severity: string, now: string)
    requires forall p, f :: (run, p, f) in ExistingKeys(t.blockers) <==> (p, f) in DraftKeys(drafts)
    requires OpenCount(t.blockers, Some(run)) == |DraftKeys(drafts)|
    ensures var u := AddDraft(t, Some(run), d, severity, now);
            && (forall p, f :: (run, p, f) in ExistingKeys(u.blockers) <==> (p, f) in DraftKeys(drafts + [d]))
            && OpenCount(u.blockers, Some(run)) == |DraftKeys(drafts + [d])|
  {
    DraftKeysSnoc(drafts, d);
    hide FormatId, ExistingKeys, DraftKeys;
    if (d.platform, d.fieldPath) !in DraftKeys(drafts) {
      var b := Fresh(FormatId(t.nextId), Some(run), d, severity, now);
      ExistingKeysSnoc(t.blockers, b);
      assert (t.blockers + [b])[..|t.blockers|] == t.blockers;
    } else {
      assert DraftKeys(drafts + [d]) == DraftKeys(drafts);
    }
  }

  lemma {:induction false} NothingMissingExactly(platforms: seq<string>, present: seq<string>)
    ensures MissingDrafts(platforms, present) == [] <==> forall p :: p in platforms ==> p in present
  {
    if platforms != [] {
      var n := |platforms| - 1;
      NothingMissingExactly(platforms[..n], present);
      assert |MissingDrafts(platforms, present)| >= |MissingDrafts(platforms[..n], present)|;
      assert forall p :: p in platforms <==> p in platforms[..n] || p == platforms[n];
    }
  }

  lemma {:induction false} DiffDraftsLength(name: string, ds: seq<Difference>)
    ensures |DiffDrafts(name, ds)| == |ds|
  {
    if ds != [] { DiffDraftsLength(name, ds[..|ds| - 1]); }
  }

  lemma {:induction false} NothingDivergesExactly(names: seq<string>, results: seq<CandidateResult>)
    requires forall name :: name in names ==> name in Names(results)
    requires forall r :: r in results ==> (r.matches <==> r.differences == [])
    ensures CandidateDrafts(names, results) == [] <==> forall name :: name in names ==> Find(results, name).matches
  {
    hide Find, DiffDrafts, Names;
    if names != [] {
      var n := |names| - 1;
      NothingDivergesExactly(names[..n], results);
      var result := Find(results, names[n]);
      DiffDraftsLength(names[n], result.differences);
      var first, last := CandidateDrafts(names[..n], results),
                         if result.matches then [] else DiffDrafts(names[n], result.differences);
      assert CandidateDrafts(names, results) == first + last && |first + last| == |first| + |last|;
      assert result in results;
      assert forall name :: name in names <==> name in names[..n] || name == names[n];
    }
  }

  lemma {:induction false} FindInDistinct(results: seq<CandidateResult>, i: nat)
    requires i < |results| && forall j, k :: 0 <= j < k < |results| ==> results[j].name != results[k].name
    ensures results[i].name in Names(results) && Find(results, results[i].name) == results[i]
  {
    assert Names(results)[i] == results[i].name;
    var r := Find(results, results[i].name);
    var k :| 0 <= k < |results| && results[k] == r;
  }

  predicate AllPresent(candidates: seq<NamedTree>) {
    forall p :: p in RequiredPlatforms ==> exists c :: c in candidates && c.name == p
  }

  predicate AllEqual(canonical: Json, candidates: seq<NamedTree>) {
    forall c :: c in candidates ==> PyEq(canonical, c.tree)
  }

  /** A built diff-result yields no entries exactly when all four platforms are present
      and every candidate tree equals the canonical one. */
  lemma NoDraftsExactly(canonical: Json, candidates: seq<NamedTree>)
    requires DistinctNames(candidates)
    ensures BlockersFromDiff(Build(canonical, candidates)) == [] <==>
              AllPresent(candidates) && AllEqual(canonical, candidates)
  {
    hide *;
    var results := Compared(canonical, candidates);
    var names := Names(results);
    ResultFacts(canonical, candidates);
    SortedIsAscending(RequiredPlatforms);
    SortedIsAscending(names);
    NothingMissingExactly(Sorted(RequiredPlatforms), names);
    NothingDivergesExactly(Sorted(names), results);
    PresentExactly(candidates, names);
    AllMatchByName(canonical, candidates, results);
    DraftsOfBuild(canonical, candidates);
  }

  /** The entries of a built diff-result, by their two sources. */
  lemma DraftsOfBuild(canonical: Json, candidates: seq<NamedTree>)
    requires DistinctNames(candidates)
    ensures var results := Compared(canonical, candidates);
            && (forall name :: name in Sorted(Names(results)) ==> name in Names(results))
            && BlockersFromDiff(Build(canonical, candidates)) ==
                 MissingDrafts(Sorted(RequiredPlatforms), Names(results)) + CandidateDrafts(Sorted(Names(results)), results)
            && Build(canonical, candidates).total == TotalOf(results)
  {
    BuildOfDistinct(canonical, candidates);
    SortedNames(Compared(canonical, candidates));
    hide MissingDrafts, CandidateDrafts, Compared, Sorted, Names, ByName, AllMatch, TotalOf;
  }

  lemma ResultFacts(canonical: Json, candidates: seq<NamedTree>)
    requires DistinctNames(candidates)
    ensures var results := Compared(canonical, candidates);
            && |Names(results)| == |results| == |candidates|
            && (forall i :: 0 <= i < |results| ==>
                 && Names(results)[i] == results[i].name == candidates[i].name
                 && results[i].name in Names(results) && Find(results, results[i].name) == results[i]
                 && (results[i].matches <==> PyEq(canonical, candidates[i].tree)))
            && (forall r :: r in results ==> (r.matches <==> r.differences == []))
  {
    var results := Compared(canonical, candidates);
    MatchExactly(canonical, candidates);
    hide Differences, PyEq, Find, Build, AllMatch, TotalOf, ByName;
    forall i | 0 <= i < |results|
      ensures results[i].name in Names(results) && Find(results, results[i].name) == results[i]
    {
      FindInDistinct(results, i);
    }
    forall r | r in results
      ensures r.matches <==> r.differences == []
    {
      var i :| 0 <= i < |results| && results[i] == r;
    }
  }

  lemma PresentExactly(candidates: seq<NamedTree>, names: seq<string>)
    requires |names| == |candidates| && forall i :: 0 <= i < |names| ==> names[i] == candidates[i].name
    ensures forall p :: p in names <==> exists c :: c in candidates && c.name == p
    ensures AllPresent(candidates) <==> forall p :: p in RequiredPlatforms ==> p in names
  {
    forall p
      ensures p in names <==> exists c :: c in candidates && c.name == p
    {
      if p in names {
        var i :| 0 <= i < |names| && names[i] == p;
        assert candidates[i] in candidates;
      }
      if c :| c in candidates && c.name == p {
        var i :| 0 <= i < |candidates| && candidates[i] == c;
        assert names[i] == p;
      }
    }
  }

  lemma AllMatchByName(canonical: Json, candidates: seq<NamedTree>, results: seq<CandidateResult>)
    requires |results| == |candidates|
    requires forall i :: 0 <= i < |candidates| ==>
               results[i].name == candidates[i].name && (results[i].matches <==> PyEq(canonical, candidates[i].tree))
    requires forall i :: 0 <= i < |results| ==>
               results[i].name in Names(results) && Find(results, results[i].name) == results[i]
    ensures (forall name :: name in Names(results) ==> Find(results, name).matches) <==> AllEqual(canonical, candidates)
  {
    hide PyEq;
    if AllEqual(canonical, candidates) {
      forall name | name in Names(results)
        ensures Find(results, name).matches
      {
        var i :| 0 <= i < |results| && results[i] == Find(results, name);
        assert candidates[i] in candidates;
      }
    }
    if forall name :: name in Names(results) ==> Find(results, name).matches {
      forall c | c in candidates
        ensures PyEq(canonical, c.tree)
      {
        var i :| 0 <= i < |candidates| && candidates[i] == c;
        assert results[i].name in Names(results);
      }
    }
  }

  /** Gate correctness: registering a built diff-result for a run without blockers leaves
      as many open blockers of the run as there are distinct (platform, path) keys, and
      none exactly when all four platforms are present and all trees are equal. */
  lemma GateIsCorrect(s: State, run: string, canonical: Json, candidates: seq<NamedTree>, severity: string, now: string)
    requires run != "" && NoBlockerOf(s, run) && DistinctNames(candidates)
    ensures var document := Build(canonical, candidates);
            var t := Apply(s, AddFromDiff(document, Some(run), severity, now));
            && OpenCount(t.blockers, Some(run)) == |DraftKeys(BlockersFromDiff(document))|
            && (OpenCount(t.blockers, Some(run)) == 0 <==> AllPresent(candidates) && AllEqual(canonical, candidates))
  {
    hide BlockersFromDiff, AddDrafts, OpenCount, AllPresent, AllEqual, Build;
    var drafts := BlockersFromDiff(Build(canonical, candidates));
    RegisteredForRun(s, run, drafts, severity, now);
    NoDraftsExactly(canonical, candidates);
    if drafts != [] {
      assert (drafts[0].platform, drafts[0].fieldPath) in DraftKeys(drafts);
    }
  }
}
