/** The in-memory library of content documents and its snapshots. */
module Library {
  import opened Text
  import opened Ordering
  import opened Documents

  datatype DocumentKey = DocumentKey(sourceId: string, bookId: string)

  const SchemaVersion := 1

  datatype Snapshot = Snapshot(schemaVersion: int, exportedAt: int, documents: seq<ContentDocument>)

  type Store = map<DocumentKey, ContentDocument>

  function KeyOf(d: ContentDocument): DocumentKey { DocumentKey(d.sourceId, d.book.bookId) }

  /** The key a caller's ids stand for, or the blank id. */
  function LookupKey(sourceId: string, bookId: string): Result<DocumentKey> {
    if Trim(sourceId) == "" then Err(InvalidDocument("source_id"))
    else if Trim(bookId) == "" then Err(InvalidDocument("book_id"))
    else Ok(DocumentKey(Trim(sourceId), Trim(bookId)))
  }

  // ---------------------------------------------------------------------
  // Order of documents
  // ---------------------------------------------------------------------

  predicate Before(a: DocumentKey, b: DocumentKey) {
    Less(a.sourceId, b.sourceId) || (a.sourceId == b.sourceId && Less(a.bookId, b.bookId))
  }

  /** By source, and within a source by book. */
  lemma BeforeIs(d: ContentDocument, e: ContentDocument)
    ensures Before(KeyOf(d), KeyOf(e)) <==>
            Less(d.sourceId, e.sourceId) || (d.sourceId == e.sourceId && Less(d.book.bookId, e.book.bookId))
  {
  }

  lemma BeforeTransitive(a: DocumentKey, b: DocumentKey, c: DocumentKey)
    requires Before(a, b) && Before(b, c)
    ensures Before(a, c)
  {
    if Less(a.sourceId, b.sourceId) && Less(b.sourceId, c.sourceId) {
      LessTransitive(a.sourceId, b.sourceId, c.sourceId);
    } else if a.sourceId == b.sourceId && b.sourceId == c.sourceId {
      LessTransitive(a.bookId, b.bookId, c.bookId);
    }
  }

  lemma BeforeIrreflexive(a: DocumentKey)
    ensures !Before(a, a)
  {
    LessIrreflexive(a.sourceId);
    LessIrreflexive(a.bookId);
  }

  lemma BeforeTotal(a: DocumentKey, b: DocumentKey)
    ensures a == b || Before(a, b) || Before(b, a)
  {
    LessTotal(a.sourceId, b.sourceId);
    LessTotal(a.bookId, b.bookId);
  }

  /** Strictly ascending by source and book. */
  predicate Ascends(documents: seq<ContentDocument>) {
    forall i, j :: 0 <= i < j < |documents| ==> Before(KeyOf(documents[i]), KeyOf(documents[j]))
  }

  /** A listing holds exactly the stored documents, in order. */
  ghost predicate Lists(documents: seq<ContentDocument>, stored: Store) {
    Ascends(documents) && forall d :: d in documents <==> d in stored.Values
  }

  /** Every document is valid and stored under its own key. */
  ghost predicate Stored(documents: Store, hash: Hash) {
    forall k :: k in documents ==> ValidDocument(documents[k], hash) && KeyOf(documents[k]) == k
  }

  /** Sorting leaves no choice: there is one listing. */
  lemma {:induction false} AscendsOnlyOnce(a: seq<ContentDocument>, b: seq<ContentDocument>)
    requires Ascends(a) && Ascends(b) && forall d :: d in a <==> d in b
    ensures a == b
  {
    if a == [] {
      assert forall i :: 0 <= i < |b| ==> b[i] in b;
    } else {
      assert a[0] in a && a[0] in b;
      assert b != [] && b[0] in b && b[0] in a;
      var i :| 0 <= i < |b| && b[i] == a[0];
      var j :| 0 <= j < |a| && a[j] == b[0];
      if i > 0 && j > 0 {
        BeforeTransitive(KeyOf(a[0]), KeyOf(b[0]), KeyOf(a[0]));
        BeforeIrreflexive(KeyOf(a[0]));
      }
      assert a[0] == b[0];
      forall d ensures d in a[1..] <==> d in b[1..] {
        RestMembers(a, d);
        RestMembers(b, d);
      }
      AscendsOnlyOnce(a[1..], b[1..]);
    }
  }

  lemma RestMembers(a: seq<ContentDocument>, d: ContentDocument)
    requires Ascends(a) && a != []
    ensures d in a[1..] <==> d in a && d != a[0]
  {
    BeforeIrreflexive(KeyOf(a[0]));
    if d in a[1..] {
      var i :| 0 <= i < |a[1..]| && a[1..][i] == d;
      assert a[i + 1] == d;
    }
  }

  // ---------------------------------------------------------------------
  // Snapshots
  // ---------------------------------------------------------------------

  function KeysOf(documents: seq<ContentDocument>): set<DocumentKey> {
    set d | d in documents :: KeyOf(d)
  }

  function SnapshotError(s: Snapshot, hash: Hash): Option<string> {
    if s.schemaVersion != SchemaVersion then Some("schema_version") else FirstBadDocument(s.documents, 0, hash)
  }

  /** What is wrong with one document, given the keys before it. */
  function ProblemAt(documents: seq<ContentDocument>, i: nat, hash: Hash): Option<string>
    requires i < |documents|
  {
    if DocumentError(documents[i], hash).Some? then DocumentError(documents[i], hash)
    else if KeyOf(documents[i]) in KeysOf(documents[..i]) then Some("documents")
    else None
  }

  /** The first document that is invalid or repeats a key. */
  function FirstBadDocument(documents: seq<ContentDocument>, i: nat, hash: Hash): Option<string>
    requires i <= |documents|
    decreases |documents| - i
  {
    if i == |documents| then None
    else if ProblemAt(documents, i, hash).Some? then ProblemAt(documents, i, hash)
    else FirstBadDocument(documents, i + 1, hash)
  }

  /** `ContentLibrarySnapshot::validate`. */
  method ValidateSnapshot(s: Snapshot, hash: Hash) returns (r: Option<string>)
    ensures r == SnapshotError(s, hash)
  {
    hide *;
    if s.schemaVersion != SchemaVersion {
      VersionFirst(s, hash);
      return Some("schema_version");
    }
    var keys: set<DocumentKey> := {};
    KeysOfNone(s.documents);
    VersionFirst(s, hash);
    for i := 0 to |s.documents|
      invariant keys == KeysOf(s.documents[..i])
      invariant SnapshotError(s, hash) == FirstBadDocument(s.documents, i, hash)
    {
      BadDocumentStep(s.documents, i, hash);
      var problem;
      problem, keys := CheckDocument(s.documents, i, keys, hash);
      if problem.Some? { return problem; }
    }
    BadDocumentStep(s.documents, |s.documents|, hash);
    r := None;
  }

  lemma VersionFirst(s: Snapshot, hash: Hash)
    ensures SnapshotError(s, hash) == if s.schemaVersion != SchemaVersion then Some("schema_version")
                                      else FirstBadDocument(s.documents, 0, hash)
  {
  }

  lemma KeysOfNone(documents: seq<ContentDocument>)
    ensures KeysOf(documents[..0]) == {}
  {
  }

  lemma BadDocumentStep(documents: seq<ContentDocument>, i: nat, hash: Hash)
    requires i <= |documents|
    ensures FirstBadDocument(documents, i, hash) ==
            if i == |documents| then None
            else if ProblemAt(documents, i, hash).Some? then ProblemAt(documents, i, hash)
            else FirstBadDocument(documents, i + 1, hash)
  {
    hide ProblemAt;
  }

  /** One document of a snapshot against the keys seen so far. */
  method CheckDocument(documents: seq<ContentDocument>, i: nat, keys: set<DocumentKey>, hash: Hash)
    returns (problem: Option<string>, next: set<DocumentKey>)
    requires i < |documents| && keys == KeysOf(documents[..i])
    ensures problem == ProblemAt(documents, i, hash) && next == KeysOf(documents[..i + 1])
  {
    hide DocumentError, KeysOf;
    KeysSnoc(documents, i);
    next := keys + {KeyOf(documents[i])};
    problem := ValidateContentDocument(documents[i], hash);
    if problem.None? && KeyOf(documents[i]) in keys {
      problem := Some("documents");
    }
  }

  lemma KeysSnoc(documents: seq<ContentDocument>, i: nat)
    requires i < |documents|
    ensures KeysOf(documents[..i + 1]) == KeysOf(documents[..i]) + {KeyOf(documents[i])}
  {
    assert documents[..i + 1] == documents[..i] + [documents[i]];
  }

  predicate DistinctKeys(documents: seq<ContentDocument>) {
    forall i, j :: 0 <= i < j < |documents| ==> KeyOf(documents[i]) != KeyOf(documents[j])
  }

  ghost predicate ValidSnapshot(s: Snapshot, hash: Hash) {
    && s.schemaVersion == SchemaVersion && DistinctKeys(s.documents)
    && forall d :: d in s.documents ==> ValidDocument(d, hash)
  }

  lemma {:induction false} NoBadDocumentExactly(documents: seq<ContentDocument>, i: nat, hash: Hash)
    requires i <= |documents|
    ensures FirstBadDocument(documents, i, hash) == None <==>
            forall j :: i <= j < |documents| ==>
              ValidDocument(documents[j], hash) && KeyOf(documents[j]) !in KeysOf(documents[..j])
    decreases |documents| - i
  {
    hide ValidDocument, DocumentError, KeysOf;
    if i < |documents| {
      ValidExactly(documents[i], hash);
      NoBadDocumentExactly(documents, i + 1, hash);
    }
  }

  /** Validation passes exactly the snapshots of this version with valid documents under
      distinct keys. */
  lemma SnapshotValidExactly(s: Snapshot, hash: Hash)
    ensures SnapshotError(s, hash) == None <==> ValidSnapshot(s, hash)
  {
    hide ValidDocument, DocumentError;
    var documents := s.documents;
    NoBadDocumentExactly(documents, 0, hash);
    forall j | 0 <= j < |documents|
      ensures KeyOf(documents[j]) !in KeysOf(documents[..j]) <==>
              forall i :: 0 <= i < j ==> KeyOf(documents[i]) != KeyOf(documents[j])
    {
      forall i | 0 <= i < j ensures KeyOf(documents[i]) in KeysOf(documents[..j]) {
        assert documents[..j][i] == documents[i];
      }
    }
    assert forall j :: 0 <= j < |documents| ==> documents[j] in documents;
  }

  // ---------------------------------------------------------------------
  // The library
  // ---------------------------------------------------------------------

  /** The documents of a list under their keys, later ones replacing earlier ones. */
  function Rebuilt(documents: seq<ContentDocument>): Store {
    if documents == [] then map[]
    else
      var last := documents[|documents| - 1];
      Rebuilt(documents[..|documents| - 1])[KeyOf(last) := last]
  }

  class ContentDocumentLibrary {
    var documents: Store
    const hash: Hash

    ghost predicate Valid() reads this { Stored(documents, hash) }

    constructor (hash: Hash)
      ensures Valid() && documents == map[] && this.hash == hash
    {
      this.hash := hash;
      documents := map[];
    }

    method UpsertDocument(d: ContentDocument) returns (r: Result<ContentDocument>)
      requires Valid()
      modifies this
      ensures Valid()
      ensures r == match DocumentError(d, hash) case None => Ok(d) case Some(field) => Err(InvalidDocument(field))
      ensures ValidDocument(d, hash) ==> r == Ok(d) && documents == old(documents)[KeyOf(d) := d]
      ensures !ValidDocument(d, hash) ==> r.Err? && documents == old(documents)
      ensures documents == Step(old(documents), Upsert(d), hash)
    {
      ValidExactly(d, hash);
      var error := ValidateContentDocument(d, hash);
      if error.Some? { return Err(InvalidDocument(error.value)); }
      documents := documents[KeyOf(d) := d];
      r := Ok(d);
    }

    method GetDocument(sourceId: string, bookId: string) returns (r: Result<Option<ContentDocument>>)
      ensures r == Got(documents, sourceId, bookId)
      ensures AllWhitespace(sourceId) ==> r == Err(InvalidDocument("source_id"))
      ensures !AllWhitespace(sourceId) && AllWhitespace(bookId) ==> r == Err(InvalidDocument("book_id"))
      ensures !AllWhitespace(sourceId) && !AllWhitespace(bookId) ==>
                var key := DocumentKey(Trim(sourceId), Trim(bookId));
                r == Ok(if key in documents then Some(documents[key]) else None)
    {
      BlankExactly(sourceId);
      BlankExactly(bookId);
      var key := LookupKey(sourceId, bookId);
      match key
      case Err(e) => r := Err(e);
      case Ok(k) => r := Ok(if k in documents then Some(documents[k]) else None);
    }

    method GetChapter(sourceId: string, bookId: string, index: TocRefresh.u32) returns (r: Result<Option<NormalizedChapter>>)
      requires Valid()
      ensures var got := Got(documents, sourceId, bookId);
              match got
              case Err(e) => r == Err(e)
              case Ok(None) => r == Ok(None)
              case Ok(Some(d)) => r == Ok(if index < |d.chapters| then Some(d.chapters[index]) else None)
    {
      var found := GetDocument(sourceId, bookId);
      if found.Err? { return Err(found.error); }
      if found.value.None? { return Ok(None); }
      var chapter := FindChapter(found.value.value, index, hash);
      r := Ok(chapter);
    }

    method RemoveDocument(sourceId: string, bookId: string) returns (r: Result<bool>)
      requires Valid()
      modifies this
      ensures Valid()
      ensures AllWhitespace(sourceId) ==> r == Err(InvalidDocument("source_id")) && documents == old(documents)
      ensures !AllWhitespace(sourceId) && AllWhitespace(bookId) ==>
                r == Err(InvalidDocument("book_id")) && documents == old(documents)
      ensures !AllWhitespace(sourceId) && !AllWhitespace(bookId) ==>
                var key := DocumentKey(Trim(sourceId), Trim(bookId));
                r == Ok(key in old(documents)) && documents == old(documents) - {key}
      ensures documents == Step(old(documents), Remove(sourceId, bookId), hash)
    {
      BlankExactly(sourceId);
      BlankExactly(bookId);
      var key := LookupKey(sourceId, bookId);
      if key.Err? { return Err(key.error); }
      r := Ok(key.value in documents);
      documents := documents - {key.value};
    }

    /** The stored documents in no particular order, then sorted. */
    method ListDocuments() returns (listed: seq<ContentDocument>)
      requires Valid()
      ensures Lists(listed, documents)
      ensures forall i, j :: 0 <= i < j < |listed| ==>
                var d, e := listed[i], listed[j];
                Less(d.sourceId, e.sourceId) || (d.sourceId == e.sourceId && Less(d.book.bookId, e.book.bookId))
    {
      hide ValidDocument, Before;
      listed := [];
      var left := documents;
      while left != map[]
        invariant left.Keys <= documents.Keys && forall k :: k in left ==> left[k] == documents[k]
        invariant Ascends(listed)
        invariant forall d :: d in listed <==> KeyOf(d) in documents && KeyOf(d) !in left && documents[KeyOf(d)] == d
        decreases |left|
      {
        var k :| k in left;
        var before := listed;
        listed := InsertDocument(listed, left[k]);
        left := left - {k};
      }
      forall d ensures d in listed <==> d in documents.Values {}
      forall i, j | 0 <= i < j < |listed|
        ensures Before(KeyOf(listed[i]), KeyOf(listed[j]))
        ensures var d, e := listed[i], listed[j];
                Less(d.sourceId, e.sourceId) || (d.sourceId == e.sourceId && Less(d.book.bookId, e.book.bookId))
      {
        BeforeIs(listed[i], listed[j]);
      }
    }

    method ExportSnapshot(at: int) returns (r: Result<Snapshot>)
      requires Valid()
      ensures r.Ok? && r.value.schemaVersion == SchemaVersion && r.value.exportedAt == at
      ensures Lists(r.value.documents, documents)
    {
      var listed := ListDocuments();
      var snapshot := Snapshot(SchemaVersion, at, listed);
      ListingIsValid(snapshot, documents, hash);
      SnapshotValidExactly(snapshot, hash);
      var error := ValidateSnapshot(snapshot, hash);
      r := match error
        case Some(field) => Err(InvalidDocument(field))
        case None => Ok(snapshot);
    }

    method ReplaceWithSnapshot(s: Snapshot) returns (r: Result<()>)
      requires Valid()
      modifies this
      ensures Valid()
      ensures r == match SnapshotError(s, hash) case None => Ok(()) case Some(field) => Err(InvalidDocument(field))
      ensures ValidSnapshot(s, hash) ==> r.Ok? && documents == Rebuilt(s.documents)
      ensures !ValidSnapshot(s, hash) ==> r.Err? && documents == old(documents)
      ensures documents == Step(old(documents), Replace(s), hash)
    {
      SnapshotValidExactly(s, hash);
      assert ValidSnapshot(s, hash) ==> forall d :: d in s.documents ==> ValidDocument(d, hash);
      hide ValidDocument, ValidSnapshot, SnapshotError, Stored;
      var error := ValidateSnapshot(s, hash);
      if error.Some? { return Err(InvalidDocument(error.value)); }
      var next: Store := map[];
      for i := 0 to |s.documents|
        invariant next == Rebuilt(s.documents[..i])
      {
        assert s.documents[..i + 1][..i] == s.documents[..i];
        next := next[KeyOf(s.documents[i]) := s.documents[i]];
      }
      assert s.documents[..|s.documents|] == s.documents;
      RebuiltIsStored(s.documents, hash);
      documents := next;
      r := Ok(());
    }
  }

  /** The first chapter with the index: in a valid document, the one at that position. */
  method FindChapter(d: ContentDocument, index: TocRefresh.u32, ghost hash: Hash) returns (r: Option<NormalizedChapter>)
    requires ValidDocument(d, hash)
    ensures r == if index < |d.chapters| then Some(d.chapters[index]) else None
  {
    hide CacheKey, DocumentFingerprint, Trim;
    for i := 0 to |d.chapters|
      invariant i <= index
    {
      assert Fits(d, i, hash);
      if d.chapters[i].chapterIndex == index { return Some(d.chapters[i]); }
    }
    r := None;
  }

  /** A document put in its place in a sorted list. */
  method InsertDocument(documents: seq<ContentDocument>, d: ContentDocument) returns (r: seq<ContentDocument>)
    requires Ascends(documents) && forall e :: e in documents ==> KeyOf(e) != KeyOf(d)
    ensures Ascends(r) && forall e :: e in r <==> e in documents || e == d
  {
    hide Before, KeyOf;
    var i := 0;
    while i < |documents| && Before(KeyOf(documents[i]), KeyOf(d))
      invariant 0 <= i <= |documents|
      invariant forall j :: 0 <= j < i ==> Before(KeyOf(documents[j]), KeyOf(d))
    {
      i := i + 1;
    }
    InsertAscends(documents, d, i);
    r := documents[..i] + [d] + documents[i..];
    InsertMembers(documents, d, i);
  }

  lemma InsertAscends(documents: seq<ContentDocument>, d: ContentDocument, i: nat)
    requires Ascends(documents) && i <= |documents| && forall e :: e in documents ==> KeyOf(e) != KeyOf(d)
    requires forall j :: 0 <= j < i ==> Before(KeyOf(documents[j]), KeyOf(d))
    requires i < |documents| ==> !Before(KeyOf(documents[i]), KeyOf(d))
    ensures Ascends(documents[..i] + [d] + documents[i..])
  {
    hide Before, KeyOf;
    forall j | i <= j < |documents| ensures Before(KeyOf(d), KeyOf(documents[j])) {
      assert documents[i] in documents;
      BeforeTotal(KeyOf(documents[i]), KeyOf(d));
      if i < j { BeforeTransitive(KeyOf(d), KeyOf(documents[i]), KeyOf(documents[j])); }
    }
  }

  lemma InsertMembers(documents: seq<ContentDocument>, d: ContentDocument, i: nat)
    requires i <= |documents|
    ensures forall e :: e in documents[..i] + [d] + documents[i..] <==> e in documents || e == d
  {
    assert documents == documents[..i] + documents[i..];
  }

  function Got(documents: Store, sourceId: string, bookId: string): Result<Option<ContentDocument>> {
    match LookupKey(sourceId, bookId)
    case Err(e) => Err(e)
    case Ok(k) => Ok(if k in documents then Some(documents[k]) else None)
  }

  // ---------------------------------------------------------------------
  // Runs
  // ---------------------------------------------------------------------

  datatype Op = Upsert(d: ContentDocument) | Remove(sourceId: string, bookId: string) | Replace(s: Snapshot)

  /** One operation; a rejected one changes nothing. */
  ghost function Step(documents: Store, op: Op, hash: Hash): Store {
    match op
    case Upsert(d) => if ValidDocument(d, hash) then documents[KeyOf(d) := d] else documents
    case Remove(sourceId, bookId) =>
      (match LookupKey(sourceId, bookId)
       case Err(_) => documents
       case Ok(k) => documents - {k})
    case Replace(s) => if ValidSnapshot(s, hash) then Rebuilt(s.documents) else documents
  }

  ghost function Run(documents: Store, ops: seq<Op>, hash: Hash): Store {
    if ops == [] then documents else Step(Run(documents, ops[..|ops| - 1], hash), ops[|ops| - 1], hash)
  }

  lemma {:induction false} RebuiltIsStored(documents: seq<ContentDocument>, hash: Hash)
    requires forall d :: d in documents ==> ValidDocument(d, hash)
    ensures Stored(Rebuilt(documents), hash)
    ensures forall k :: k in Rebuilt(documents) ==> Rebuilt(documents)[k] in documents
  {
    if documents != [] { RebuiltIsStored(documents[..|documents| - 1], hash); }
  }

  /** In every run each document is valid and under its own key. */
  lemma {:induction false} RunKeepsStored(ops: seq<Op>, hash: Hash)
    ensures Stored(Run(map[], ops, hash), hash)
  {
    if ops != [] {
      RunKeepsStored(ops[..|ops| - 1], hash);
      match ops[|ops| - 1] {
        case Replace(s) => if ValidSnapshot(s, hash) { RebuiltIsStored(s.documents, hash); }
        case Upsert(_) =>
        case Remove(_, _) =>
      }
    }
  }

  lemma ListingIsValid(s: Snapshot, documents: Store, hash: Hash)
    requires Stored(documents, hash) && s.schemaVersion == SchemaVersion && Lists(s.documents, documents)
    ensures ValidSnapshot(s, hash)
  {
    forall i, j | 0 <= i < j < |s.documents| ensures KeyOf(s.documents[i]) != KeyOf(s.documents[j]) {
      BeforeIrreflexive(KeyOf(s.documents[i]));
    }
    forall d | d in s.documents ensures ValidDocument(d, hash) {
      assert d in documents.Values;
    }
  }

  lemma {:induction false} RebuiltValues(documents: seq<ContentDocument>, k: DocumentKey)
    ensures k in Rebuilt(documents) ==> Rebuilt(documents)[k] in documents && KeyOf(Rebuilt(documents)[k]) == k
  {
    if documents != [] { RebuiltValues(documents[..|documents| - 1], k); }
  }

  lemma {:induction false} RebuiltLookup(documents: seq<ContentDocument>, d: ContentDocument)
    requires DistinctKeys(documents) && d in documents
    ensures KeyOf(d) in Rebuilt(documents) && Rebuilt(documents)[KeyOf(d)] == d
  {
    var n := |documents| - 1;
    assert documents == documents[..n] + [documents[n]];
    if d != documents[n] {
      var i :| 0 <= i < n && documents[i] == d;
      assert d == documents[..n][i];
      RebuiltLookup(documents[..n], d);
    }
  }

  /** Exporting and then importing restores the library: whatever the run, its snapshot is
      accepted, and replacing the contents of any library with it gives the same documents. */
  lemma ExportImportRestores(ops: seq<Op>, s: Snapshot, other: Store, hash: Hash)
    requires var documents := Run(map[], ops, hash); Lists(s.documents, documents)
    requires s.schemaVersion == SchemaVersion
    ensures Step(other, Replace(s), hash) == Run(map[], ops, hash)
  {
    var documents := Run(map[], ops, hash);
    RunKeepsStored(ops, hash);
    ListingIsValid(s, documents, hash);
    hide Run, ValidDocument, Rebuilt, Ascends;
    var again := Rebuilt(s.documents);
    forall k | k in documents ensures k in again && again[k] == documents[k] {
      assert documents[k] in documents.Values && documents[k] in s.documents;
      RebuiltLookup(s.documents, documents[k]);
    }
    forall k | k in again ensures k in documents {
      RebuiltValues(s.documents, k);
      assert again[k] in documents.Values;
    }
  }

  /** After any run a removed document is gone, every other one is untouched, and removing it
      again finds nothing. */
  lemma RemovedIsGone(ops: seq<Op>, sourceId: string, bookId: string, hash: Hash)
    requires !AllWhitespace(sourceId) && !AllWhitespace(bookId)
    ensures var before, after := Run(map[], ops, hash), Run(map[], ops + [Remove(sourceId, bookId)], hash);
            && Got(after, sourceId, bookId) == Ok(None)
            && DocumentKey(Trim(sourceId), Trim(bookId)) !in after
            && (forall k :: k != DocumentKey(Trim(sourceId), Trim(bookId)) ==>
                  (k in after <==> k in before) && (k in before ==> after[k] == before[k]))
            && Step(after, Remove(sourceId, bookId), hash) == after
  {
    var all := ops + [Remove(sourceId, bookId)];
    assert all[..|all| - 1] == ops;
    BlankExactly(sourceId);
    BlankExactly(bookId);
    hide Trim;
  }

  /** A removal with a blank id changes nothing. */
  lemma BlankRemovesNothing(documents: Store, sourceId: string, bookId: string, hash: Hash)
    requires AllWhitespace(sourceId) || AllWhitespace(bookId)
    ensures Step(documents, Remove(sourceId, bookId), hash) == documents
    ensures Got(documents, sourceId, bookId).Err?
  {
    BlankExactly(sourceId);
    BlankExactly(bookId);
  }

  /** The snapshot error names the first thing that is wrong: the version, then document by
      document what is wrong with it or, if it is valid, that its key was there before. */
  lemma SnapshotErrorNamesFirstFault(s: Snapshot, i: nat, hash: Hash)
    ensures s.schemaVersion != 1 ==> SnapshotError(s, hash) == Some("schema_version")
    ensures s.schemaVersion == 1 && i < |s.documents| && DistinctKeys(s.documents[..i])
            && (forall j :: 0 <= j < i ==> ValidDocument(s.documents[j], hash)) ==>
              && (!ValidDocument(s.documents[i], hash) ==> SnapshotError(s, hash) == DocumentError(s.documents[i], hash))
              && (ValidDocument(s.documents[i], hash)
                  && (exists j :: 0 <= j < i && KeyOf(s.documents[j]) == KeyOf(s.documents[i])) ==>
                    SnapshotError(s, hash) == Some("documents"))
  {
    if s.schemaVersion == 1 && i < |s.documents| && DistinctKeys(s.documents[..i])
       && forall j :: 0 <= j < i ==> ValidDocument(s.documents[j], hash)
    {
      hide ValidDocument, DocumentError;
      ValidExactly(s.documents[i], hash);
      FirstProblemAt(s.documents, 0, i, hash);
      KeysBefore(s.documents, i);
    }
  }

  lemma KeysBefore(documents: seq<ContentDocument>, i: nat)
    requires i < |documents|
    ensures KeyOf(documents[i]) in KeysOf(documents[..i]) <==> exists j :: 0 <= j < i && KeyOf(documents[j]) == KeyOf(documents[i])
  {
    forall j | 0 <= j < i ensures KeyOf(documents[j]) in KeysOf(documents[..i]) {
      assert documents[..i][j] == documents[j];
    }
  }

  lemma {:induction false} FirstProblemAt(documents: seq<ContentDocument>, from: nat, i: nat, hash: Hash)
    requires from <= i < |documents| && DistinctKeys(documents[..i])
    requires forall j :: 0 <= j < i ==> ValidDocument(documents[j], hash)
    ensures ProblemAt(documents, i, hash).Some? ==> FirstBadDocument(documents, from, hash) == ProblemAt(documents, i, hash)
    decreases i - from
  {
    hide ValidDocument, DocumentError, KeyOf;
    if from < i {
      ValidExactly(documents[from], hash);
      KeysBefore(documents, from);
      forall j | 0 <= j < from ensures KeyOf(documents[j]) != KeyOf(documents[from]) {
        assert documents[..i][j] == documents[j] && documents[..i][from] == documents[from];
      }
      FirstProblemAt(documents, from + 1, i, hash);
    }
  }

  predicate IdsTrimmed(d: ContentDocument) { Trim(d.sourceId) == d.sourceId && Trim(d.book.bookId) == d.book.bookId }

  /** A document just stored is found under its own ids exactly when they carry no white
      space at either end. */
  lemma GetAfterUpsertExactly(ops: seq<Op>, d: ContentDocument, hash: Hash)
    requires ValidDocument(d, hash)
    ensures Got(Run(map[], ops + [Upsert(d)], hash), d.sourceId, d.book.bookId) == Ok(Some(d)) <==> IdsTrimmed(d)
  {
    var all := ops + [Upsert(d)];
    assert all[..|all| - 1] == ops;
    RunKeepsStored(all, hash);
  }

  /** A document can be built and is valid although its book id starts with a blank. */
  lemma UntrimmedIsAccepted(at: int, hash: Hash) returns (d: ContentDocument)
    ensures ValidDocument(d, hash) && !IdsTrimmed(d)
  {
    PaddedB();
    hide Trim, ValidDocument, NormalChapter;
    PlainChapter("s", " b", hash);
    d := OneChapterDocument("s", Book(" b", ""), TocRefresh.TocEntry(0, "t", ""), "x", at, hash);
  }

  lemma PaddedB()
    ensures Trim("s") == "s" && Trim(" b") == "b"
  {
    assert " b"[1..] == "b";
    assert TrimStart(" b") == TrimStart("b");
  }

  /** A document whose ids do carry white space cannot be found or removed under any ids. */
  lemma UntrimmedIsUnreachable(ops: seq<Op>, d: ContentDocument, sourceId: string, bookId: string, hash: Hash)
    requires var documents := Run(map[], ops, hash); KeyOf(d) in documents && documents[KeyOf(d)] == d
    requires !IdsTrimmed(d)
    ensures var documents := Run(map[], ops, hash);
            && Got(documents, sourceId, bookId) != Ok(Some(d))
            && KeyOf(d) in Step(documents, Remove(sourceId, bookId), hash)
  {
    RunKeepsStored(ops, hash);
    TrimTwice(sourceId);
    TrimTwice(bookId);
  }

  predicate Touches(op: Op, key: DocumentKey) {
    match op
    case Upsert(d) => KeyOf(d) == key
    case Remove(sourceId, bookId) => LookupKey(sourceId, bookId) == Ok(key)
    case Replace(_) => true
  }

  lemma OtherStepKeeps(documents: Store, op: Op, key: DocumentKey, hash: Hash)
    requires key in documents && !Touches(op, key)
    ensures key in Step(documents, op, hash) && Step(documents, op, hash)[key] == documents[key]
  {
  }

  lemma {:induction false} OthersKeep(documents: Store, later: seq<Op>, key: DocumentKey, hash: Hash)
    requires key in documents && forall i :: 0 <= i < |later| ==> !Touches(later[i], key)
    ensures key in Run(documents, later, hash) && Run(documents, later, hash)[key] == documents[key]
  {
    if later != [] {
      OthersKeep(documents, later[..|later| - 1], key, hash);
      OtherStepKeeps(Run(documents, later[..|later| - 1], hash), later[|later| - 1], key, hash);
    }
  }

  /** A lookup sees the latest document stored under its key, whatever happens to others. */
  lemma LatestIsFound(ops: seq<Op>, d: ContentDocument, later: seq<Op>, hash: Hash)
    requires ValidDocument(d, hash) && IdsTrimmed(d)
    requires forall i :: 0 <= i < |later| ==> !Touches(later[i], KeyOf(d))
    ensures Got(Run(Run(map[], ops + [Upsert(d)], hash), later, hash), d.sourceId, d.book.bookId) == Ok(Some(d))
  {
    var all := ops + [Upsert(d)];
    assert all[..|all| - 1] == ops;
    OthersKeep(Run(map[], all, hash), later, KeyOf(d), hash);
  }
}
