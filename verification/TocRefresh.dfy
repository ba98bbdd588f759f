/** Matching the chapters of a refreshed table of contents to the old ones, and
    moving the reader's position along. */
module TocRefresh {
  import opened Text

  type u32 = x: int | 0 <= x < 0x1_0000_0000

  datatype TocEntry = TocEntry(index: u32, title: string, url: string)

  datatype IdentityKind = Url | Title

  datatype ChapterIdentity =
    ChapterIdentity(index: u32, value: string, occurrence: nat, kind: IdentityKind)

  /** A normalised locator or title together with an occurrence rank. */
  type Key = (string, nat)

  datatype TocRemapEntry =
    TocRemapEntry(oldIndex: u32, newIndex: Option<u32>, identityKind: IdentityKind, identity: string)

  datatype TocRefreshDiff =
    TocRefreshDiff(oldLen: nat, newLen: nat, mappings: seq<TocRemapEntry>,
                   inserted: seq<TocEntry>, removed: seq<TocEntry>)

  /** `chapterProgress` is a float in the program; it is only copied or set to zero. */
  datatype ReadingProgress =
    ReadingProgress(bookId: string, chapterIndex: u32, chapterOffset: nat, chapterProgress: real)

  datatype ProgressRemapStatus = Unchanged | Remapped | ChapterRemovedClamped | EmptyToc

  datatype RemappedReadingProgress =
    RemappedReadingProgress(progress: ReadingProgress, status: ProgressRemapStatus)

  /** What a counter counts: chapters with one identity, or all chapters with one
      normalised title, whether or not they also have a URL. */
  datatype Tag = Identity(kind: IdentityKind, value: string) | AnyTitle(title: string)

  function NormalizeIdentity(value: string): Option<string> {
    var value := Trim(value);
    if value == "" then None
    else
      var value := Trim(UpTo(value, '#'));
      if value == "" then None else Some(Lower(value))
  }

  predicate Positional(toc: seq<TocEntry>) {
    forall i :: 0 <= i < |toc| ==> toc[i].index == i
  }

  function CountIn(counts: map<string, nat>, key: string): nat {
    if key in counts then counts[key] else 0
  }

  function Lookup(table: map<Key, u32>, key: Key): Option<u32> {
    if key in table then Some(table[key]) else None
  }

  /** The indexes that some of the mappings point to. */
  function Targets(mappings: seq<TocRemapEntry>): set<u32> {
    set m | m in mappings && m.newIndex.Some? :: m.newIndex.value
  }

  function NotIn(toc: seq<TocEntry>, taken: set<u32>): seq<TocEntry> {
    if toc == [] then []
    else NotIn(toc[..|toc| - 1], taken) + if toc[|toc| - 1].index in taken then [] else [toc[|toc| - 1]]
  }

  function AsSet(s: seq<u32>): set<u32> { set x | x in s }

  /** The list holds the chapters at the positions `at`, in order and each once. */
  ghost predicate Selects(toc: seq<TocEntry>, at: seq<nat>, list: seq<TocEntry>) {
    && |list| == |at|
    && (forall a, b :: 0 <= a < b < |at| ==> at[a] < at[b])
    && forall a :: 0 <= a < |at| ==> at[a] < |toc| && list[a] == toc[at[a]]
  }

  lemma SelectsSnoc(toc: seq<TocEntry>, at: seq<nat>, list: seq<TocEntry>, i: nat)
    requires Selects(toc, at, list) && i < |toc| && forall j :: j in at ==> j < i
    ensures Selects(toc, at + [i], list + [toc[i]])
    ensures forall j :: j in at + [i] <==> j in at || j == i
  {
    assert forall a :: 0 <= a < |at| ==> at[a] in at;
  }

  lemma TargetsSnoc(mappings: seq<TocRemapEntry>, entry: TocRemapEntry, taken: seq<u32>)
    requires AsSet(taken) == Targets(mappings)
    ensures AsSet(if entry.newIndex.Some? then taken + [entry.newIndex.value] else taken)
            == Targets(mappings + [entry])
  {
    if entry.newIndex.Some? {
      var x := entry.newIndex.value;
      assert forall y :: y in taken + [x] <==> y in taken || y == x;
      assert AsSet(taken + [x]) == AsSet(taken) + {x};
    }
    assert forall m :: m in mappings + [entry] <==> m in mappings || m == entry;
  }

  /** An old chapter's place: by URL, else by title; one without a URL by title only. */
  function Resolve(identity: ChapterIdentity, title: Option<Key>, urlMap: map<Key, u32>, titleMap: map<Key, u32>)
    : Option<u32>
  {
    var key := (identity.value, identity.occurrence);
    match identity.kind
    case Title => Lookup(titleMap, key)
    case Url =>
      match Lookup(urlMap, key)
      case Some(index) => Some(index)
      case None => if title.Some? then Lookup(titleMap, title.value) else None
  }

  /** TOC matching over any way of normalising a locator or a title; the program's
      own is `Matcher(NormalizeIdentity)`. */
  datatype Matcher = Matcher(normalize: string -> Option<string>) {

    // ---------------------------------------------------------------------
    // Identities and occurrence ranks
    // ---------------------------------------------------------------------

    function KindOf(e: TocEntry): IdentityKind {
      if normalize(e.url).Some? then Url else Title
    }

    function ValueOf(e: TocEntry): string {
      match normalize(e.url)
      case Some(url) => url
      case None => normalize(e.title).GetOr(Decimal(e.index))
    }

    predicate Bears(e: TocEntry, tag: Tag) {
      match tag
      case Identity(kind, value) => KindOf(e) == kind && ValueOf(e) == value
      case AnyTitle(title) => normalize(e.title) == Some(title)
    }

    function IdentityTag(e: TocEntry): Tag { Identity(KindOf(e), ValueOf(e)) }

    /** How many of the first `n` chapters bear the tag. */
    function Rank(toc: seq<TocEntry>, n: nat, tag: Tag): nat
      requires n <= |toc|
    {
      if n == 0 then 0 else Rank(toc, n - 1, tag) + if Bears(toc[n - 1], tag) then 1 else 0
    }

    /** The chapter at position `i` is the `k`-th (from zero) bearing the tag. */
    predicate IsKth(toc: seq<TocEntry>, i: nat, tag: Tag, k: nat) {
      i < |toc| && Bears(toc[i], tag) && Rank(toc, i, tag) == k
    }

    function IdentityAt(toc: seq<TocEntry>, i: nat): ChapterIdentity
      requires i < |toc|
    {
      ChapterIdentity(toc[i].index, ValueOf(toc[i]), Rank(toc, i, IdentityTag(toc[i])), KindOf(toc[i]))
    }

    /** The title key of the first titled chapter at or after `from` with this index. */
    function TitleKeyFrom(toc: seq<TocEntry>, from: nat, index: u32): Option<Key>
      requires from <= |toc|
      decreases |toc| - from
    {
      if from == |toc| then None
      else match normalize(toc[from].title)
        case Some(title) =>
          if toc[from].index == index then Some((title, Rank(toc, from, AnyTitle(title))))
          else TitleKeyFrom(toc, from + 1, index)
        case None => TitleKeyFrom(toc, from + 1, index)
    }

    method TocIdentities(toc: seq<TocEntry>) returns (identities: seq<ChapterIdentity>)
      ensures |identities| == |toc|
      ensures forall i :: 0 <= i < |toc| ==> identities[i] == IdentityAt(toc, i)
    {
      var urlCounts: map<string, nat> := map[];
      var titleCounts: map<string, nat> := map[];
      identities := [];
      for i := 0 to |toc|
        invariant |identities| == i
        invariant forall j :: 0 <= j < i ==> identities[j] == IdentityAt(toc, j)
        invariant forall u :: CountIn(urlCounts, u) == Rank(toc, i, Identity(Url, u))
        invariant forall t :: CountIn(titleCounts, t) == Rank(toc, i, Identity(Title, t))
      {
        var entry := toc[i];
        match normalize(entry.url)
        case Some(url) =>
          var occurrence := CountIn(urlCounts, url);
          urlCounts := urlCounts[url := occurrence + 1];
          identities := identities + [ChapterIdentity(entry.index, url, occurrence, Url)];
        case None =>
          var title := normalize(entry.title).GetOr(Decimal(entry.index));
          var occurrence := CountIn(titleCounts, title);
          titleCounts := titleCounts[title := occurrence + 1];
          identities := identities + [ChapterIdentity(entry.index, title, occurrence, Title)];
      }
    }

    method TitleOccurrenceFor(toc: seq<TocEntry>, index: u32) returns (key: Option<Key>)
      ensures key == TitleKeyFrom(toc, 0, index)
    {
      var counts: map<string, nat> := map[];
      for i := 0 to |toc|
        invariant forall t :: CountIn(counts, t) == Rank(toc, i, AnyTitle(t))
        invariant TitleKeyFrom(toc, 0, index) == TitleKeyFrom(toc, i, index)
      {
        match normalize(toc[i].title)
        case None =>
        case Some(title) =>
          var occurrence := CountIn(counts, title);
          if toc[i].index == index {
            return Some((title, occurrence));
          }
          counts := counts[title := occurrence + 1];
      }
      return None;
    }

    method TitleOccurrences(toc: seq<TocEntry>) returns (keys: seq<Option<Key>>)
      ensures |keys| == |toc|
      ensures forall i :: 0 <= i < |toc| ==> keys[i] == TitleKeyFrom(toc, 0, toc[i].index)
    {
      keys := [];
      for i := 0 to |toc|
        invariant |keys| == i
        invariant forall j :: 0 <= j < i ==> keys[j] == TitleKeyFrom(toc, 0, toc[j].index)
      {
        var key := TitleOccurrenceFor(toc, toc[i].index);
        keys := keys + [key];
      }
    }

    // ---------------------------------------------------------------------
    // The two lookup tables of the new TOC
    // ---------------------------------------------------------------------

    /** The URL table after the first `n` chapters. */
    function UrlTable(toc: seq<TocEntry>, n: nat): map<Key, u32>
      requires n <= |toc|
    {
      if n == 0 then map[]
      else
        var (table, e) := (UrlTable(toc, n - 1), toc[n - 1]);
        if KindOf(e) == Url then table[(ValueOf(e), Rank(toc, n - 1, IdentityTag(e))) := e.index] else table
    }

    /** The title table after the first `n` chapters. A chapter without a URL writes
        its rank among such chapters; every titled chapter then writes its rank
        among all chapters with that title. */
    function TitleTable(toc: seq<TocEntry>, n: nat): map<Key, u32>
      requires n <= |toc|
    {
      if n == 0 then map[]
      else
        var (table, e) := (TitleTable(toc, n - 1), toc[n - 1]);
        var table := if KindOf(e) == Title
          then table[(ValueOf(e), Rank(toc, n - 1, IdentityTag(e))) := e.index] else table;
        match TitleKeyFrom(toc, 0, e.index)
        case Some(key) => table[key := e.index]
        case None => table
    }

    function NewIndexOf(oldToc: seq<TocEntry>, i: nat, newToc: seq<TocEntry>): Option<u32>
      requires i < |oldToc|
    {
      Resolve(IdentityAt(oldToc, i), TitleKeyFrom(oldToc, 0, oldToc[i].index),
              UrlTable(newToc, |newToc|), TitleTable(newToc, |newToc|))
    }

    /** Where each of the first `n` old chapters goes. */
    function Mappings(oldToc: seq<TocEntry>, n: nat, newToc: seq<TocEntry>): (m: seq<TocRemapEntry>)
      requires n <= |oldToc|
      ensures |m| == n
      ensures forall i :: 0 <= i < n ==> m[i] == MappingAt(oldToc, i, newToc)
    {
      if n == 0 then [] else Mappings(oldToc, n - 1, newToc) + [MappingAt(oldToc, n - 1, newToc)]
    }

    function MappingAt(oldToc: seq<TocEntry>, i: nat, newToc: seq<TocEntry>): TocRemapEntry
      requires i < |oldToc|
    {
      TocRemapEntry(oldToc[i].index, NewIndexOf(oldToc, i, newToc), KindOf(oldToc[i]), ValueOf(oldToc[i]))
    }

    /** The first `n` old chapters that have no place in the new TOC, in order. */
    function Removed(oldToc: seq<TocEntry>, n: nat, newToc: seq<TocEntry>): seq<TocEntry>
      requires n <= |oldToc|
    {
      if n == 0 then []
      else Removed(oldToc, n - 1, newToc) + if NewIndexOf(oldToc, n - 1, newToc).None? then [oldToc[n - 1]] else []
    }

    function Diff(oldToc: seq<TocEntry>, newToc: seq<TocEntry>): TocRefreshDiff {
      var mappings := Mappings(oldToc, |oldToc|, newToc);
      TocRefreshDiff(|oldToc|, |newToc|, mappings, NotIn(newToc, Targets(mappings)), Removed(oldToc, |oldToc|, newToc))
    }

    /** The first pass of `diff_toc`: the new chapters fill the two tables. */
    method BuildTables(newToc: seq<TocEntry>) returns (urlMap: map<Key, u32>, titleMap: map<Key, u32>)
      ensures urlMap == UrlTable(newToc, |newToc|) && titleMap == TitleTable(newToc, |newToc|)
    {
      var newIdentities := TocIdentities(newToc);
      urlMap, titleMap := map[], map[];
      for i := 0 to |newToc|
        invariant urlMap == UrlTable(newToc, i) && titleMap == TitleTable(newToc, i)
      {
        var identity := newIdentities[i];
        match identity.kind {
          case Url => urlMap := urlMap[(identity.value, identity.occurrence) := identity.index];
          case Title => titleMap := titleMap[(identity.value, identity.occurrence) := identity.index];
        }
        var key := TitleOccurrenceFor(newToc, newToc[i].index);
        if key.Some? {
          titleMap := titleMap[key.value := newToc[i].index];
        }
      }
    }

    /** The second pass: the old chapters are looked up in order. */
    method MapOldChapters(oldToc: seq<TocEntry>, newToc: seq<TocEntry>,
                          urlMap: map<Key, u32>, titleMap: map<Key, u32>)
      returns (mappings: seq<TocRemapEntry>, removed: seq<TocEntry>, taken: seq<u32>)
      requires urlMap == UrlTable(newToc, |newToc|) && titleMap == TitleTable(newToc, |newToc|)
      ensures mappings == Mappings(oldToc, |oldToc|, newToc) && removed == Removed(oldToc, |oldToc|, newToc)
      ensures AsSet(taken) == Targets(mappings)
    {
      var oldIdentities := TocIdentities(oldToc);
      var oldTitles := TitleOccurrences(oldToc);
      mappings, removed, taken := [], [], [];
      for i := 0 to |oldToc|
        invariant mappings == Mappings(oldToc, i, newToc) && removed == Removed(oldToc, i, newToc)
        invariant AsSet(taken) == Targets(mappings)
      {
        var identity := oldIdentities[i];
        var newIndex := Resolve(identity, oldTitles[i], urlMap, titleMap);
        var entry := TocRemapEntry(oldToc[i].index, newIndex, identity.kind, identity.value);
        assert entry == MappingAt(oldToc, i, newToc);
        TargetsSnoc(mappings, entry, taken);
        if newIndex.Some? {
          taken := taken + [newIndex.value];
        } else {
          removed := removed + [oldToc[i]];
        }
        mappings := mappings + [entry];
      }
    }

    /** `diff_toc`. */
    method DiffToc(oldToc: seq<TocEntry>, newToc: seq<TocEntry>) returns (diff: TocRefreshDiff)
      ensures diff == Diff(oldToc, newToc)
    {
      var urlMap, titleMap := BuildTables(newToc);
      var mappings, removed, taken := MapOldChapters(oldToc, newToc, urlMap, titleMap);
      var inserted: seq<TocEntry> := [];
      for i := 0 to |newToc|
        invariant inserted == NotIn(newToc[..i], Targets(mappings))
      {
        assert newToc[..i + 1][..i] == newToc[..i];
        assert newToc[i].index in taken <==> newToc[i].index in AsSet(taken);
        if newToc[i].index !in taken {
          inserted := inserted + [newToc[i]];
        }
      }
      assert newToc[..|newToc|] == newToc;
      diff := TocRefreshDiff(|oldToc|, |newToc|, mappings, inserted, removed);
    }

    // ---------------------------------------------------------------------
    // Ranks
    // ---------------------------------------------------------------------

    lemma {:induction false} RankMonotone(toc: seq<TocEntry>, m: nat, n: nat, tag: Tag)
      requires m <= n <= |toc|
      ensures Rank(toc, m, tag) <= Rank(toc, n, tag) <= Rank(toc, m, tag) + (n - m)
      ensures m < n && Bears(toc[m], tag) ==> Rank(toc, m, tag) < Rank(toc, n, tag)
    {
      if m < n {
        RankMonotone(toc, m, n - 1, tag);
      }
    }

    lemma {:induction false} KthExists(toc: seq<TocEntry>, n: nat, tag: Tag, k: nat) returns (i: nat)
      requires n <= |toc| && k < Rank(toc, n, tag)
      ensures i < n && IsKth(toc, i, tag, k)
    {
      if k < Rank(toc, n - 1, tag) {
        i := KthExists(toc, n - 1, tag, k);
      } else {
        i := n - 1;
      }
    }

    // ---------------------------------------------------------------------
    // The tables in closed form
    // ---------------------------------------------------------------------

    /** The URL table sends (u, k) to the index of the k-th chapter whose URL is u. */
    lemma {:induction false} UrlTableHit(toc: seq<TocEntry>, n: nat, j: nat, url: string, k: nat)
      requires j < n <= |toc| && IsKth(toc, j, Identity(Url, url), k)
      ensures Lookup(UrlTable(toc, n), (url, k)) == Some(toc[j].index)
    {
      if j < n - 1 {
        UrlTableHit(toc, n - 1, j, url, k);
        RankMonotone(toc, j, n - 1, Identity(Url, url));
      }
    }

    lemma {:induction false} UrlTableMiss(toc: seq<TocEntry>, n: nat, url: string, k: nat)
      requires n <= |toc| && Rank(toc, n, Identity(Url, url)) <= k
      ensures Lookup(UrlTable(toc, n), (url, k)) == None
    {
      if n > 0 {
        UrlTableMiss(toc, n - 1, url, k);
      }
    }

    /** In a positional TOC the title key of a chapter is its own title and rank. */
    lemma {:induction false} OwnTitleKey(toc: seq<TocEntry>, from: nat, i: nat)
      requires Positional(toc) && from <= |toc| && i < |toc|
      ensures TitleKeyFrom(toc, from, toc[i].index) ==
              if i < from then None
              else match normalize(toc[i].title)
                   case Some(title) => Some((title, Rank(toc, i, AnyTitle(title))))
                   case None => None
      decreases |toc| - from
    {
      if from < |toc| {
        OwnTitleKey(toc, from + 1, i);
      }
    }

    /** The chapter at `j` writes the key (title, k) of the title table. */
    predicate Writes(toc: seq<TocEntry>, j: nat, title: string, k: nat) {
      IsKth(toc, j, Identity(Title, title), k) || IsKth(toc, j, AnyTitle(title), k)
    }

    predicate LastWriter(toc: seq<TocEntry>, n: nat, j: nat, title: string, k: nat)
      requires n <= |toc|
    {
      j < n && Writes(toc, j, title, k) && forall i :: j < i < n ==> !Writes(toc, i, title, k)
    }

    /** Two counters write the title table; the later of the at most two writers wins. */
    lemma {:induction false} TitleTableHit(toc: seq<TocEntry>, n: nat, title: string, k: nat)
      requires Positional(toc) && n <= |toc|
      ensures match Lookup(TitleTable(toc, n), (title, k))
              case Some(index) => LastWriter(toc, n, index, title, k)
              case None => forall i :: 0 <= i < n ==> !Writes(toc, i, title, k)
    {
      if n > 0 {
        TitleTableHit(toc, n - 1, title, k);
        OwnTitleKey(toc, 0, n - 1);
      }
    }

    /** An old chapter, seen through the closed forms. */
    predicate MatchesByUrl(oldToc: seq<TocEntry>, i: nat, newToc: seq<TocEntry>)
      requires i < |oldToc|
    {
      && KindOf(oldToc[i]) == Url
      && Rank(oldToc, i, IdentityTag(oldToc[i])) < Rank(newToc, |newToc|, IdentityTag(oldToc[i]))
    }

    // ---------------------------------------------------------------------
    // Occurrence matching
    // ---------------------------------------------------------------------

    /** The k-th old chapter with URL u goes to the k-th new chapter with URL u,
        exactly when the new TOC has more than k chapters with that URL. */
    lemma UrlOccurrenceMatching(oldToc: seq<TocEntry>, i: nat, newToc: seq<TocEntry>, url: string, k: nat)
      requires IsKth(oldToc, i, Identity(Url, url), k)
      ensures MatchesByUrl(oldToc, i, newToc) <==> exists j: nat :: IsKth(newToc, j, Identity(Url, url), k)
      ensures forall j: nat :: IsKth(newToc, j, Identity(Url, url), k) ==>
                NewIndexOf(oldToc, i, newToc) == Some(newToc[j].index)
    {
      var tag := Identity(Url, url);
      if MatchesByUrl(oldToc, i, newToc) {
        var j := KthExists(newToc, |newToc|, tag, k);
      }
      forall j: nat | IsKth(newToc, j, tag, k)
        ensures MatchesByUrl(oldToc, i, newToc)
        ensures NewIndexOf(oldToc, i, newToc) == Some(newToc[j].index)
      {
        RankMonotone(newToc, j, |newToc|, tag);
        UrlTableHit(newToc, |newToc|, j, url, k);
      }
    }

    /** How many of the first `n` old chapters with this URL are matched by it. */
    function UrlMatches(oldToc: seq<TocEntry>, n: nat, newToc: seq<TocEntry>, url: string): nat
      requires n <= |oldToc|
    {
      if n == 0 then 0
      else
        UrlMatches(oldToc, n - 1, newToc, url) +
        if Bears(oldToc[n - 1], Identity(Url, url)) && MatchesByUrl(oldToc, n - 1, newToc) then 1 else 0
    }

    /** As many chapters are matched by a URL as the poorer TOC has of it. */
    lemma {:induction false} UrlMatchCount(oldToc: seq<TocEntry>, n: nat, newToc: seq<TocEntry>, url: string)
      requires n <= |oldToc|
      ensures var before := Rank(oldToc, n, Identity(Url, url));
              var available := Rank(newToc, |newToc|, Identity(Url, url));
              UrlMatches(oldToc, n, newToc, url) == if before <= available then before else available
    {
      if n > 0 {
        UrlMatchCount(oldToc, n - 1, newToc, url);
      }
    }

    /** Where a URL match leads: to the same rank of the same URL. */
    lemma UrlMatchTarget(oldToc: seq<TocEntry>, i: nat, newToc: seq<TocEntry>) returns (j: nat)
      requires Positional(newToc) && i < |oldToc| && MatchesByUrl(oldToc, i, newToc)
      ensures NewIndexOf(oldToc, i, newToc) == Some(j)
      ensures IsKth(newToc, j, IdentityTag(oldToc[i]), Rank(oldToc, i, IdentityTag(oldToc[i])))
    {
      var tag := IdentityTag(oldToc[i]);
      var k := Rank(oldToc, i, tag);
      j := KthExists(newToc, |newToc|, tag, k);
      UrlOccurrenceMatching(oldToc, i, newToc, tag.value, k);
    }

    /** URL matches never merge two old chapters, and keep the order of chapters
        that share a URL. */
    lemma UrlMatchesNeitherMergeNorCross(oldToc: seq<TocEntry>, i1: nat, i2: nat, newToc: seq<TocEntry>)
      requires Positional(newToc) && i1 < i2 < |oldToc|
      requires MatchesByUrl(oldToc, i1, newToc) && MatchesByUrl(oldToc, i2, newToc)
      ensures NewIndexOf(oldToc, i1, newToc).Some? && NewIndexOf(oldToc, i2, newToc).Some?
      ensures NewIndexOf(oldToc, i1, newToc) != NewIndexOf(oldToc, i2, newToc)
      ensures ValueOf(oldToc[i1]) == ValueOf(oldToc[i2]) ==>
                NewIndexOf(oldToc, i1, newToc).value < NewIndexOf(oldToc, i2, newToc).value
    {
      var j1 := UrlMatchTarget(oldToc, i1, newToc);
      var j2 := UrlMatchTarget(oldToc, i2, newToc);
      var tag := IdentityTag(oldToc[i1]);
      if ValueOf(oldToc[i1]) == ValueOf(oldToc[i2]) {
        RankMonotone(oldToc, i1, i2, tag);
        if j2 <= j1 {
          RankMonotone(newToc, j2, j1, tag);
        }
      }
    }

    lemma {:induction false} UrlTableRange(toc: seq<TocEntry>, n: nat, key: Key)
      requires Positional(toc) && n <= |toc| && key in UrlTable(toc, n)
      ensures UrlTable(toc, n)[key] < n
    {
      if n > 0 && key in UrlTable(toc, n - 1) {
        UrlTableRange(toc, n - 1, key);
      }
    }

    /** Every target is a position of the new TOC. */
    lemma TargetInRange(oldToc: seq<TocEntry>, i: nat, newToc: seq<TocEntry>)
      requires Positional(newToc) && i < |oldToc|
      ensures NewIndexOf(oldToc, i, newToc).Some? ==> NewIndexOf(oldToc, i, newToc).value < |newToc|
    {
      var identity := IdentityAt(oldToc, i);
      TitleTableHit(newToc, |newToc|, identity.value, identity.occurrence);
      var title := TitleKeyFrom(oldToc, 0, oldToc[i].index);
      if title.Some? {
        TitleTableHit(newToc, |newToc|, title.value.0, title.value.1);
      }
      var key := (identity.value, identity.occurrence);
      if key in UrlTable(newToc, |newToc|) {
        UrlTableRange(newToc, |newToc|, key);
      }
    }

    // ---------------------------------------------------------------------
    // Stability under insertion
    // ---------------------------------------------------------------------

    /** The chapter has a URL or a title that survives normalisation. */
    predicate Named(e: TocEntry) {
      normalize(e.url).Some? || normalize(e.title).Some?
    }

    /** `newToc` is `oldToc` with chapters put in anywhere: the i-th old chapter is now
        at `at[i]`, and no added chapter has the identity of an old one. */
    predicate IsInsertion(oldToc: seq<TocEntry>, newToc: seq<TocEntry>, at: seq<nat>) {
      && |at| == |oldToc|
      && (forall i :: 0 <= i < |at| ==>
           at[i] < |newToc| && newToc[at[i]].title == oldToc[i].title && newToc[at[i]].url == oldToc[i].url)
      && (forall i, j :: 0 <= i < j < |at| ==> at[i] < at[j])
      && (forall q, i :: 0 <= q < |newToc| && q !in at && 0 <= i < |oldToc| ==>
           IdentityTag(newToc[q]) != IdentityTag(oldToc[i]))
    }

    /** A chapter that moved bears the tags it bore; an added one bears no old tag. */
    lemma InsertedBears(oldToc: seq<TocEntry>, newToc: seq<TocEntry>, at: seq<nat>, q: nat, c: nat)
      requires IsInsertion(oldToc, newToc, at) && (forall e :: e in oldToc ==> Named(e))
      requires q < |newToc| && c < |oldToc|
      ensures forall a :: 0 <= a < |at| && at[a] == q ==>
                Bears(newToc[q], IdentityTag(oldToc[c])) == Bears(oldToc[a], IdentityTag(oldToc[c]))
      ensures q !in at ==> !Bears(newToc[q], IdentityTag(oldToc[c]))
    {
      forall a | 0 <= a < |at| && at[a] == q
        ensures Bears(newToc[q], IdentityTag(oldToc[c])) == Bears(oldToc[a], IdentityTag(oldToc[c]))
      {
        assert Named(oldToc[a]);
      }
      if q !in at {
        assert IdentityTag(newToc[q]) != IdentityTag(oldToc[c]);
      }
    }

    predicate Splits(at: seq<nat>, q: nat, i: nat) {
      && i <= |at|
      && (forall a :: 0 <= a < i ==> at[a] < q)
      && (forall a :: i <= a < |at| ==> q <= at[a])
    }

    /** Position for position, the moved chapters bear the tag as before and the added
        ones do not bear it. */
    predicate SameBearers(oldToc: seq<TocEntry>, newToc: seq<TocEntry>, at: seq<nat>, tag: Tag) {
      && |at| == |oldToc|
      && (forall a :: 0 <= a < |at| ==> at[a] < |newToc| && Bears(newToc[at[a]], tag) == Bears(oldToc[a], tag))
      && (forall q :: 0 <= q < |newToc| && q !in at ==> !Bears(newToc[q], tag))
    }

    lemma InsertionKeepsBearers(oldToc: seq<TocEntry>, newToc: seq<TocEntry>, at: seq<nat>, c: nat)
      requires IsInsertion(oldToc, newToc, at) && (forall e :: e in oldToc ==> Named(e)) && c < |oldToc|
      ensures SameBearers(oldToc, newToc, at, IdentityTag(oldToc[c]))
    {
      forall q | 0 <= q < |newToc|
        ensures forall a :: 0 <= a < |at| && at[a] == q ==>
                  Bears(newToc[q], IdentityTag(oldToc[c])) == Bears(oldToc[a], IdentityTag(oldToc[c]))
        ensures q !in at ==> !Bears(newToc[q], IdentityTag(oldToc[c]))
      {
        InsertedBears(oldToc, newToc, at, q, c);
      }
    }

    /** Insertion leaves every old chapter's rank alone. */
    lemma {:induction false} InsertedRank(oldToc: seq<TocEntry>, newToc: seq<TocEntry>, at: seq<nat>,
                                          q: nat, i: nat, tag: Tag)
      requires SameBearers(oldToc, newToc, at, tag)
      requires forall a, b :: 0 <= a < b < |at| ==> at[a] < at[b]
      requires q <= |newToc| && Splits(at, q, i)
      ensures Rank(newToc, q, tag) == Rank(oldToc, i, tag)
    {
      if q == 0 {
        assert i == 0;
      } else if i > 0 && at[i - 1] == q - 1 {
        InsertedRank(oldToc, newToc, at, q - 1, i - 1, tag);
      } else {
        SplitsBelow(at, q, i);
        InsertedRank(oldToc, newToc, at, q - 1, i, tag);
      }
    }

    lemma SplitsBelow(at: seq<nat>, q: nat, i: nat)
      requires Splits(at, q, i) && q > 0 && (forall a, b :: 0 <= a < b < |at| ==> at[a] < at[b])
      requires i == 0 || at[i - 1] != q - 1
      ensures Splits(at, q - 1, i) && q - 1 !in at
    {
      forall a | 0 <= a < i
        ensures at[a] < q - 1
      {
        if a < i - 1 { assert at[a] < at[i - 1]; }
      }
    }

    /** Chapters without a URL rank no higher among themselves than among all
        chapters of that title. */
    lemma {:induction false} BareRankBelowTitleRank(toc: seq<TocEntry>, n: nat, title: string)
      requires n <= |toc|
      requires forall i :: 0 <= i < n && Bears(toc[i], Identity(Title, title)) ==> Bears(toc[i], AnyTitle(title))
      ensures Rank(toc, n, Identity(Title, title)) <= Rank(toc, n, AnyTitle(title))
    {
      if n > 0 {
        BareRankBelowTitleRank(toc, n - 1, title);
      }
    }

    /** The k-th URL-less chapter with a title keeps its key, if every chapter that
        could be counted with it really has that title. */
    lemma BareTitleLookup(toc: seq<TocEntry>, j: nat, title: string, k: nat)
      requires Positional(toc) && IsKth(toc, j, Identity(Title, title), k)
      requires forall i :: 0 <= i <= j && Bears(toc[i], Identity(Title, title)) ==> Bears(toc[i], AnyTitle(title))
      ensures Lookup(TitleTable(toc, |toc|), (title, k)) == Some(toc[j].index)
    {
      TitleTableHit(toc, |toc|, title, k);
      assert Writes(toc, j, title, k);
      var w: nat := Lookup(TitleTable(toc, |toc|), (title, k)).value;
      if w > j {
        RankMonotone(toc, j, w, Identity(Title, title));
        BareRankBelowTitleRank(toc, j, title);
        RankMonotone(toc, j, w, AnyTitle(title));
      }
    }

    /** After an insertion every old chapter is found at its shifted position. */
    lemma InsertionKeepsChapter(oldToc: seq<TocEntry>, newToc: seq<TocEntry>, at: seq<nat>, i: nat)
      requires IsInsertion(oldToc, newToc, at) && Positional(newToc)
      requires (forall e :: e in oldToc ==> Named(e)) && i < |oldToc|
      ensures NewIndexOf(oldToc, i, newToc) == Some(newToc[at[i]].index)
    {
      var tag := IdentityTag(oldToc[i]);
      var k := Rank(oldToc, i, tag);
      InsertionKeepsBearers(oldToc, newToc, at, i);
      InsertedRank(oldToc, newToc, at, at[i], i, tag);
      assert Named(oldToc[i]);
      assert IsKth(newToc, at[i], tag, k);
      if tag.kind == Url {
        UrlOccurrenceMatching(oldToc, i, newToc, tag.value, k);
      } else {
        forall q | 0 <= q <= at[i] && Bears(newToc[q], tag)
          ensures Bears(newToc[q], AnyTitle(tag.value))
        {
          if q in at {
            var a :| 0 <= a < |at| && at[a] == q;
            assert Named(oldToc[a]);
          }
        }
        BareTitleLookup(newToc, at[i], tag.value, k);
      }
    }

    /** The chapters among the first `n` whose position is not in `at`. */
    function Outside(toc: seq<TocEntry>, n: nat, at: seq<nat>): seq<TocEntry>
      requires n <= |toc|
    {
      if n == 0 then [] else Outside(toc, n - 1, at) + if n - 1 in at then [] else [toc[n - 1]]
    }

    lemma {:induction false} OutsideIsNotIn(toc: seq<TocEntry>, n: nat, at: seq<nat>, taken: set<u32>)
      requires Positional(toc) && n <= |toc|
      requires forall q :: 0 <= q < |toc| ==> (q in at <==> toc[q].index in taken)
      ensures NotIn(toc[..n], taken) == Outside(toc, n, at)
    {
      if n > 0 {
        assert toc[..n][..n - 1] == toc[..n - 1];
        OutsideIsNotIn(toc, n - 1, at, taken);
      }
    }

    lemma {:induction false} NothingRemoved(oldToc: seq<TocEntry>, n: nat, newToc: seq<TocEntry>)
      requires n <= |oldToc| && forall i :: 0 <= i < n ==> NewIndexOf(oldToc, i, newToc).Some?
      ensures Removed(oldToc, n, newToc) == []
    {
      if n > 0 {
        NothingRemoved(oldToc, n - 1, newToc);
      }
    }

    // ---------------------------------------------------------------------
    // The diff as a whole
    // ---------------------------------------------------------------------

    lemma {:induction false} RemovedAt(oldToc: seq<TocEntry>, n: nat, newToc: seq<TocEntry>) returns (at: seq<nat>)
      requires n <= |oldToc|
      ensures Selects(oldToc, at, Removed(oldToc, n, newToc))
      ensures forall i: nat :: i in at <==> i < n && NewIndexOf(oldToc, i, newToc).None?
    {
      hide NewIndexOf, Selects;
      if n == 0 {
        at := [];
        NothingSelected(oldToc);
      } else {
        at := RemovedAt(oldToc, n - 1, newToc);
        if NewIndexOf(oldToc, n - 1, newToc).None? {
          SelectsSnoc(oldToc, at, Removed(oldToc, n - 1, newToc), n - 1);
          at := at + [n - 1];
        } else {
          assert Removed(oldToc, n, newToc) == Removed(oldToc, n - 1, newToc);
        }
      }
    }

    lemma NothingSelected(toc: seq<TocEntry>)
      ensures Selects(toc, [], [])
    {
    }

    lemma {:induction false} NotInAt(toc: seq<TocEntry>, n: nat, taken: set<u32>) returns (at: seq<nat>)
      requires n <= |toc|
      ensures Selects(toc, at, NotIn(toc[..n], taken))
      ensures forall i: nat :: i in at <==> i < n && toc[i].index !in taken
    {
      hide Selects;
      if n == 0 {
        at := [];
        NothingSelected(toc);
      } else {
        assert toc[..n][..n - 1] == toc[..n - 1];
        at := NotInAt(toc, n - 1, taken);
        if toc[n - 1].index !in taken {
          SelectsSnoc(toc, at, NotIn(toc[..n - 1], taken), n - 1);
          at := at + [n - 1];
        } else {
          assert NotIn(toc[..n], taken) == NotIn(toc[..n - 1], taken);
        }
      }
    }

    /** For all TOCs: there is one mapping for each old chapter, in order and under its
        index; the removed chapters are the old ones whose mapping leads nowhere, and the
        inserted ones the new ones that no mapping leads to, in order and each once. */
    lemma DiffIsComplete(oldToc: seq<TocEntry>, newToc: seq<TocEntry>) returns (gone: seq<nat>, added: seq<nat>)
      ensures var diff := Diff(oldToc, newToc);
              && diff.oldLen == |oldToc| == |diff.mappings| && diff.newLen == |newToc|
              && (forall i :: 0 <= i < |oldToc| ==> diff.mappings[i].oldIndex == oldToc[i].index)
              && Selects(oldToc, gone, diff.removed)
              && (forall i: nat :: i in gone <==> i < |oldToc| && diff.mappings[i].newIndex.None?)
              && Selects(newToc, added, diff.inserted)
              && (forall i: nat :: i in added <==>
                   i < |newToc| && forall m :: m in diff.mappings ==> m.newIndex != Some(newToc[i].index))
    {
      var mappings := Mappings(oldToc, |oldToc|, newToc);
      gone := RemovedAt(oldToc, |oldToc|, newToc);
      added := NotInAt(newToc, |newToc|, Targets(mappings));
      assert newToc[..|newToc|] == newToc;
      forall i: nat | i < |newToc|
        ensures newToc[i].index in Targets(mappings) <==> exists m :: m in mappings && m.newIndex == Some(newToc[i].index)
      {
      }
    }

    /** What a mapping is labelled with: the normalised URL, else the normalised title,
        else the index. */
    lemma MappingLabel(oldToc: seq<TocEntry>, i: nat, newToc: seq<TocEntry>)
      requires i < |oldToc|
      ensures var (e, m) := (oldToc[i], Diff(oldToc, newToc).mappings[i]);
              match (normalize(e.url), normalize(e.title))
              case (Some(url), _) => m.identityKind == Url && m.identity == url
              case (None, Some(title)) => m.identityKind == Title && m.identity == title
              case (None, None) => m.identityKind == Title && m.identity == Decimal(e.index)
    {
    }

    /** Insertion stability: each old chapter maps to its shifted position, nothing is
        removed and exactly the added chapters are reported as inserted. */
    lemma InsertionStability(oldToc: seq<TocEntry>, newToc: seq<TocEntry>, at: seq<nat>)
      requires IsInsertion(oldToc, newToc, at) && Positional(newToc)
      requires forall e :: e in oldToc ==> Named(e)
      ensures forall i :: 0 <= i < |oldToc| ==>
                Diff(oldToc, newToc).mappings[i].newIndex == Some(newToc[at[i]].index)
      ensures Diff(oldToc, newToc).removed == []
      ensures Diff(oldToc, newToc).inserted == Outside(newToc, |newToc|, at)
    {
      var mappings := Mappings(oldToc, |oldToc|, newToc);
      forall i | 0 <= i < |oldToc|
        ensures NewIndexOf(oldToc, i, newToc) == Some(newToc[at[i]].index)
      {
        InsertionKeepsChapter(oldToc, newToc, at, i);
      }
      NothingRemoved(oldToc, |oldToc|, newToc);
      TargetsAreShiftedPositions(mappings, newToc, at);
      OutsideIsNotIn(newToc, |newToc|, at, Targets(mappings));
      assert newToc[..|newToc|] == newToc;
    }

    /** A reader in an old chapter stays in it, at the same offset. */
    lemma InsertionKeepsReader(oldToc: seq<TocEntry>, newToc: seq<TocEntry>, at: seq<nat>, progress: ReadingProgress)
      requires IsInsertion(oldToc, newToc, at) && Positional(oldToc) && Positional(newToc)
      requires (forall e :: e in oldToc ==> Named(e)) && progress.chapterIndex < |oldToc|
      ensures var to := newToc[at[progress.chapterIndex]].index;
              RemapReadingProgress(progress, Diff(oldToc, newToc)) ==
              RemappedReadingProgress(progress.(chapterIndex := to),
                                      if to == progress.chapterIndex then Unchanged else Remapped)
    {
      InsertionKeepsChapter(oldToc, newToc, at, progress.chapterIndex);
      FindsPositionalMapping(Mappings(oldToc, |oldToc|, newToc), 0, progress.chapterIndex);
    }

    /** Diffing a TOC with itself sends chapter `i` to itself unless it has no URL and a
        later chapter has, among all chapters of its name, the rank that `i` has among
        the URL-less ones. `NamedSelfDiff` shows that this takes some chapter with neither
        URL nor title. */
    lemma SelfDiffExactly(toc: seq<TocEntry>, i: nat)
      requires Positional(toc) && i < |toc|
      ensures NewIndexOf(toc, i, toc) == Some(toc[i].index) <==>
              (KindOf(toc[i]) == Url ||
               !TitledLater(toc, i, ValueOf(toc[i]), Rank(toc, i, IdentityTag(toc[i]))))
    {
      var tag := IdentityTag(toc[i]);
      var k := Rank(toc, i, tag);
      assert IsKth(toc, i, tag, k);
      if tag.kind == Url {
        UrlOccurrenceMatching(toc, i, toc, tag.value, k);
      } else {
        BareLookupExactly(toc, i, tag.value, k);
      }
    }

    /** A chapter after `i` is the k-th of all chapters with this title. */
    predicate TitledLater(toc: seq<TocEntry>, i: nat, title: string, k: nat) {
      exists j: nat :: i < j < |toc| && IsKth(toc, j, AnyTitle(title), k)
    }

    /** A URL-less chapter keeps its key in the title table unless a later chapter
        writes it. */
    lemma BareLookupExactly(toc: seq<TocEntry>, i: nat, title: string, k: nat)
      requires Positional(toc) && IsKth(toc, i, Identity(Title, title), k)
      ensures Lookup(TitleTable(toc, |toc|), (title, k)) == Some(toc[i].index) <==>
              !TitledLater(toc, i, title, k)
    {
      TitleTableHit(toc, |toc|, title, k);
      assert Writes(toc, i, title, k);
      var w: nat := Lookup(TitleTable(toc, |toc|), (title, k)).value;
      if w > i {
        RankMonotone(toc, i, w, Identity(Title, title));
        assert IsKth(toc, w, AnyTitle(title), k);
      } else {
        forall j: nat | i < j
          ensures !IsKth(toc, j, AnyTitle(title), k)
        {
          assert j < |toc| ==> !Writes(toc, j, title, k);
        }
      }
    }

    // ---------------------------------------------------------------------
    // When two old chapters collapse into one
    // ---------------------------------------------------------------------

    /** The key under which an old chapter is looked up by title: its rank among the
        URL-less chapters of its name if it is one of them, else its rank among all
        chapters with its title. */
    function TitleKeyOf(oldToc: seq<TocEntry>, i: nat): Option<Key>
      requires i < |oldToc|
    {
      if KindOf(oldToc[i]) == Title then Some((ValueOf(oldToc[i]), Rank(oldToc, i, IdentityTag(oldToc[i]))))
      else match normalize(oldToc[i].title)
        case Some(title) => Some((title, Rank(oldToc, i, AnyTitle(title))))
        case None => None
    }

    /** The old chapter at `i` is not matched by URL, and the new one at `j` is the last
        that writes its title key, under either count. */
    predicate LedByTitle(oldToc: seq<TocEntry>, i: nat, newToc: seq<TocEntry>, j: nat) {
      && i < |oldToc| && !MatchesByUrl(oldToc, i, newToc)
      && match TitleKeyOf(oldToc, i)
         case Some(key) => LastWriter(newToc, |newToc|, j, key.0, key.1)
         case None => false
    }

    /** Where an old chapter that is not matched by URL goes: exactly where its title
        key leads, if anywhere. */
    lemma TitleFallback(oldToc: seq<TocEntry>, i: nat, newToc: seq<TocEntry>)
      requires Positional(oldToc) && Positional(newToc) && i < |oldToc| && !MatchesByUrl(oldToc, i, newToc)
      ensures forall j: nat :: j < |newToc| ==>
                (NewIndexOf(oldToc, i, newToc) == Some(newToc[j].index) <==> LedByTitle(oldToc, i, newToc, j))
      ensures NewIndexOf(oldToc, i, newToc).Some? ==> NewIndexOf(oldToc, i, newToc).value < |newToc|
    {
      var tag := IdentityTag(oldToc[i]);
      if tag.kind == Url { UrlTableMiss(newToc, |newToc|, tag.value, Rank(oldToc, i, tag)); }
      OwnTitleKey(oldToc, 0, i);
      match TitleKeyOf(oldToc, i)
      case None =>
      case Some(key) =>
        TitleTableHit(newToc, |newToc|, key.0, key.1);
        assert NewIndexOf(oldToc, i, newToc) == Lookup(TitleTable(newToc, |newToc|), key);
    }

    /** The new chapter at `j` has a URL that also occurs in the old TOC at its rank. */
    predicate TakenByUrl(oldToc: seq<TocEntry>, newToc: seq<TocEntry>, j: nat) {
      && j < |newToc| && KindOf(newToc[j]) == Url
      && Rank(newToc, j, IdentityTag(newToc[j])) < Rank(oldToc, |oldToc|, IdentityTag(newToc[j]))
    }

    ghost predicate Merges(oldToc: seq<TocEntry>, newToc: seq<TocEntry>, i1: nat, i2: nat) {
      && i1 < |oldToc| && i2 < |oldToc| && i1 != i2
      && NewIndexOf(oldToc, i1, newToc).Some?
      && NewIndexOf(oldToc, i1, newToc) == NewIndexOf(oldToc, i2, newToc)
    }

    /** The title of the old chapter at `i` leads to a chapter that another one reaches by
        its URL, or by its own title key. */
    ghost predicate Collides(oldToc: seq<TocEntry>, i: nat, newToc: seq<TocEntry>, j: nat) {
      && LedByTitle(oldToc, i, newToc, j)
      && (TakenByUrl(oldToc, newToc, j) || exists i2: nat :: i2 != i && LedByTitle(oldToc, i2, newToc, j))
    }

    /** Over all TOCs with positional indexes, two old chapters collapse into one exactly
        when the title of an unmatched one leads to a chapter that another reaches by its
        URL or by its own title key. */
    lemma MergesExactly(oldToc: seq<TocEntry>, newToc: seq<TocEntry>)
      requires Positional(oldToc) && Positional(newToc)
      ensures (exists i1, i2 :: Merges(oldToc, newToc, i1, i2)) <==>
              (exists i: nat, j: nat :: Collides(oldToc, i, newToc, j))
    {
      forall i1, i2 | Merges(oldToc, newToc, i1, i2)
        ensures exists i: nat, j: nat :: Collides(oldToc, i, newToc, j)
      {
        if !MatchesByUrl(oldToc, i1, newToc) {
          MergeMeansCollision(oldToc, newToc, i1, i2);
        } else if !MatchesByUrl(oldToc, i2, newToc) {
          MergeMeansCollision(oldToc, newToc, i2, i1);
        } else if i1 < i2 {
          UrlMatchesNeitherMergeNorCross(oldToc, i1, i2, newToc);
        } else {
          UrlMatchesNeitherMergeNorCross(oldToc, i2, i1, newToc);
        }
      }
      forall i: nat, j: nat | Collides(oldToc, i, newToc, j)
        ensures exists i1, i2 :: Merges(oldToc, newToc, i1, i2)
      {
        CollisionMeansMerge(oldToc, newToc, i, j);
      }
    }

    lemma MergeMeansCollision(oldToc: seq<TocEntry>, newToc: seq<TocEntry>, i: nat, other: nat)
      requires Positional(oldToc) && Positional(newToc)
      requires Merges(oldToc, newToc, i, other) && !MatchesByUrl(oldToc, i, newToc)
      ensures exists j: nat :: Collides(oldToc, i, newToc, j)
    {
      TitleFallback(oldToc, i, newToc);
      var j: nat := NewIndexOf(oldToc, i, newToc).value;
      assert LedByTitle(oldToc, i, newToc, j);
      if MatchesByUrl(oldToc, other, newToc) {
        var j2 := UrlMatchTarget(oldToc, other, newToc);
        assert j2 == j;
        RankMonotone(oldToc, other, |oldToc|, IdentityTag(oldToc[other]));
        assert TakenByUrl(oldToc, newToc, j);
      } else {
        TitleFallback(oldToc, other, newToc);
        assert LedByTitle(oldToc, other, newToc, j);
      }
      assert Collides(oldToc, i, newToc, j);
    }

    lemma CollisionMeansMerge(oldToc: seq<TocEntry>, newToc: seq<TocEntry>, i: nat, j: nat)
      requires Positional(oldToc) && Positional(newToc) && Collides(oldToc, i, newToc, j)
      ensures exists i2 :: Merges(oldToc, newToc, i, i2)
    {
      TitleFallback(oldToc, i, newToc);
      if TakenByUrl(oldToc, newToc, j) {
        var tag := IdentityTag(newToc[j]);
        var k := Rank(newToc, j, tag);
        var i2 := KthExists(oldToc, |oldToc|, tag, k);
        assert IsKth(newToc, j, tag, k);
        UrlOccurrenceMatching(oldToc, i2, newToc, tag.value, k);
        assert Merges(oldToc, newToc, i, i2);
      } else {
        var i2: nat :| i2 != i && LedByTitle(oldToc, i2, newToc, j);
        TitleFallback(oldToc, i2, newToc);
        assert Merges(oldToc, newToc, i, i2);
      }
    }

    /** When no chapter is left without both URL and title, a self-diff moves nobody. */
    lemma NamedSelfDiff(toc: seq<TocEntry>, i: nat)
      requires Positional(toc) && (forall e :: e in toc ==> Named(e)) && i < |toc|
      ensures NewIndexOf(toc, i, toc) == Some(toc[i].index)
    {
      var at := seq(|toc|, k requires 0 <= k < |toc| => k);
      assert IsInsertion(toc, toc, at);
      InsertionKeepsChapter(toc, toc, at, i);
    }
  }

  // ---------------------------------------------------------------------
  // Moving the reader
  // ---------------------------------------------------------------------

  /** The first surviving target among the mappings whose old index exceeds `index`. */
  function NextSurviving(mappings: seq<TocRemapEntry>, index: u32): Option<u32> {
    if mappings == [] then None
    else if mappings[0].oldIndex > index && mappings[0].newIndex.Some? then mappings[0].newIndex
    else NextSurviving(mappings[1..], index)
  }

  /** The last surviving target among the mappings whose old index is below `index`. */
  function PreviousSurviving(mappings: seq<TocRemapEntry>, index: u32): Option<u32> {
    if mappings == [] then None
    else
      var last := mappings[|mappings| - 1];
      if last.oldIndex < index && last.newIndex.Some? then last.newIndex
      else PreviousSurviving(mappings[..|mappings| - 1], index)
  }

  function NearestSurvivingIndex(index: u32, mappings: seq<TocRemapEntry>): u32 {
    match NextSurviving(mappings, index)
    case Some(next) => next
    case None => PreviousSurviving(mappings, index).GetOr(0)
  }

  function FindMapping(mappings: seq<TocRemapEntry>, index: u32): Option<TocRemapEntry> {
    if mappings == [] then None
    else if mappings[0].oldIndex == index then Some(mappings[0])
    else FindMapping(mappings[1..], index)
  }

  function RemapReadingProgress(progress: ReadingProgress, diff: TocRefreshDiff): RemappedReadingProgress {
    if diff.newLen == 0 then
      RemappedReadingProgress(ReadingProgress(progress.bookId, 0, 0, 0.0), EmptyToc)
    else
      var mapping := FindMapping(diff.mappings, progress.chapterIndex);
      if mapping.Some? && mapping.value.newIndex.Some? then
        var index := mapping.value.newIndex.value;
        RemappedReadingProgress(progress.(chapterIndex := index),
                                if index == progress.chapterIndex then Unchanged else Remapped)
      else
        var fallback := NearestSurvivingIndex(progress.chapterIndex, diff.mappings);
        RemappedReadingProgress(ReadingProgress(progress.bookId, fallback, 0, 0.0), ChapterRemovedClamped)
  }

  lemma {:induction false} FindsPositionalMapping(mappings: seq<TocRemapEntry>, base: nat, c: nat)
    requires forall i :: 0 <= i < |mappings| ==> mappings[i].oldIndex == base + i
    requires base <= c < 0x1_0000_0000
    ensures FindMapping(mappings, c) == if c < base + |mappings| then Some(mappings[c - base]) else None
  {
    if mappings != [] && c != base {
      FindsPositionalMapping(mappings[1..], base + 1, c);
    }
  }

  lemma TargetsAreShiftedPositions(mappings: seq<TocRemapEntry>, toc: seq<TocEntry>, at: seq<nat>)
    requires Positional(toc) && |at| == |mappings|
    requires forall i :: 0 <= i < |at| ==> at[i] < |toc| && mappings[i].newIndex == Some(toc[at[i]].index)
    ensures forall q :: 0 <= q < |toc| ==> (q in at <==> toc[q].index in Targets(mappings))
  {
    forall q | 0 <= q < |toc|
      ensures q in at <==> toc[q].index in Targets(mappings)
    {
      if q in at {
        var a :| 0 <= a < |at| && at[a] == q;
        assert mappings[a] in mappings;
      }
    }
  }

  // ---------------------------------------------------------------------
  // The reading position stays valid
  // ---------------------------------------------------------------------

  predicate Ascending(mappings: seq<TocRemapEntry>) {
    forall i, j :: 0 <= i < j < |mappings| ==> mappings[i].oldIndex < mappings[j].oldIndex
  }

  /** `target` is where the nearest surviving chapter after `index` went. */
  predicate NearestAfter(mappings: seq<TocRemapEntry>, index: u32, target: u32) {
    exists m :: && m in mappings && m.oldIndex > index && m.newIndex == Some(target)
                && forall n :: n in mappings && index < n.oldIndex < m.oldIndex ==> n.newIndex.None?
  }

  /** `target` is where the nearest surviving chapter before `index` went. */
  predicate NearestBefore(mappings: seq<TocRemapEntry>, index: u32, target: u32) {
    exists m :: && m in mappings && m.oldIndex < index && m.newIndex == Some(target)
                && forall n :: n in mappings && m.oldIndex < n.oldIndex < index ==> n.newIndex.None?
  }

  predicate NoneSurvives(mappings: seq<TocRemapEntry>) {
    forall m :: m in mappings ==> m.newIndex.None?
  }

  lemma {:induction false} NextSurvivingIsNearest(mappings: seq<TocRemapEntry>, index: u32)
    requires Ascending(mappings)
    ensures match NextSurviving(mappings, index)
            case Some(target) => NearestAfter(mappings, index, target)
            case None => forall m :: m in mappings && m.oldIndex > index ==> m.newIndex.None?
  {
    if mappings != [] {
      var first, rest := mappings[0], mappings[1..];
      assert forall m :: m in mappings <==> m == first || m in rest;
      if first.oldIndex > index && first.newIndex.Some? {
        assert first in mappings && first.newIndex == Some(first.newIndex.value);
      } else {
        NextSurvivingIsNearest(rest, index);
        if target: u32 :| NextSurviving(rest, index) == Some(target) {
          var m :| && m in rest && m.oldIndex > index && m.newIndex == Some(target)
                   && forall n :: n in rest && index < n.oldIndex < m.oldIndex ==> n.newIndex.None?;
          assert m in mappings;
        }
      }
    }
  }

  lemma {:induction false} PreviousSurvivingIsNearest(mappings: seq<TocRemapEntry>, index: u32)
    requires Ascending(mappings)
    ensures match PreviousSurviving(mappings, index)
            case Some(target) => NearestBefore(mappings, index, target)
            case None => forall m :: m in mappings && m.oldIndex < index ==> m.newIndex.None?
  {
    if mappings != [] {
      var n := |mappings| - 1;
      var last, rest := mappings[n], mappings[..n];
      assert forall m :: m in mappings <==> m == last || m in rest;
      if last.oldIndex < index && last.newIndex.Some? {
        assert last in mappings && last.newIndex == Some(last.newIndex.value);
      } else {
        PreviousSurvivingIsNearest(rest, index);
        if target: u32 :| PreviousSurviving(rest, index) == Some(target) {
          var m :| && m in rest && m.oldIndex < index && m.newIndex == Some(target)
                   && forall n :: n in rest && m.oldIndex < n.oldIndex < index ==> n.newIndex.None?;
          assert m in mappings;
        }
      }
    }
  }

  lemma {:induction false} FoundMappingIsMember(mappings: seq<TocRemapEntry>, index: u32)
    ensures match FindMapping(mappings, index)
            case Some(m) => m in mappings && m.oldIndex == index
            case None => forall m :: m in mappings ==> m.oldIndex != index
  {
    if mappings != [] && mappings[0].oldIndex != index {
      FoundMappingIsMember(mappings[1..], index);
      assert mappings == [mappings[0]] + mappings[1..];
    }
  }

  /** The reader's chapter did not survive the refresh, or was never in the old TOC. */
  predicate Lost(mappings: seq<TocRemapEntry>, index: u32) {
    forall m :: m in mappings && m.oldIndex == index ==> m.newIndex.None?
  }

  /** Where a reader whose chapter is gone should land. */
  predicate LandsNearest(mappings: seq<TocRemapEntry>, index: u32, target: u32) {
    || NearestAfter(mappings, index, target)
    || ((forall m :: m in mappings && m.oldIndex > index ==> m.newIndex.None?) && NearestBefore(mappings, index, target))
    || (NoneSurvives(mappings) && target == 0)
  }

  lemma FallbackLandsNearest(mappings: seq<TocRemapEntry>, index: u32)
    requires Ascending(mappings) && Lost(mappings, index)
    ensures LandsNearest(mappings, index, NearestSurvivingIndex(index, mappings))
  {
    NextSurvivingIsNearest(mappings, index);
    PreviousSurvivingIsNearest(mappings, index);
  }

  lemma {:induction false} FallbackInRange(mappings: seq<TocRemapEntry>, index: u32, len: nat)
    requires len > 0 && forall m :: m in mappings && m.newIndex.Some? ==> m.newIndex.value < len
    ensures NextSurviving(mappings, index).Some? ==> NextSurviving(mappings, index).value < len
    ensures PreviousSurviving(mappings, index).Some? ==> PreviousSurviving(mappings, index).value < len
  {
    if mappings != [] {
      FallbackInRange(mappings[1..], index, len);
      FallbackInRange(mappings[..|mappings| - 1], index, len);
    }
  }

  lemma MappingsInRange(matcher: Matcher, oldToc: seq<TocEntry>, newToc: seq<TocEntry>)
    requires Positional(newToc)
    ensures forall m :: m in matcher.Mappings(oldToc, |oldToc|, newToc) && m.newIndex.Some? ==>
              m.newIndex.value < |newToc|
  {
    forall i | 0 <= i < |oldToc|
      ensures matcher.MappingAt(oldToc, i, newToc).newIndex.Some? ==>
                matcher.MappingAt(oldToc, i, newToc).newIndex.value < |newToc|
    {
      matcher.TargetInRange(oldToc, i, newToc);
    }
  }

  /** Against a non-empty TOC the reader always lands on one of its chapters: the image
      of their own, at the same offset, or, when that is gone, the image of the nearest
      surviving later chapter, else of the nearest surviving earlier one, else the
      first chapter, at its start. */
  lemma ProgressStaysValid(matcher: Matcher, oldToc: seq<TocEntry>, newToc: seq<TocEntry>, progress: ReadingProgress)
    requires Positional(oldToc) && Positional(newToc) && newToc != []
    ensures var mappings := matcher.Diff(oldToc, newToc).mappings;
            var index := progress.chapterIndex;
            var r := RemapReadingProgress(progress, matcher.Diff(oldToc, newToc));
            var target := r.progress.chapterIndex;
            && target < |newToc|
            && r.progress.bookId == progress.bookId
            && (if Lost(mappings, index) then
                  && r.status == ChapterRemovedClamped
                  && r.progress.chapterOffset == 0 && r.progress.chapterProgress == 0.0
                  && LandsNearest(mappings, index, target)
                else
                  && index < |oldToc| && mappings[index].newIndex == Some(target)
                  && r.progress == progress.(chapterIndex := target)
                  && r.status == if target == index then Unchanged else Remapped)
  {
    var mappings := matcher.Mappings(oldToc, |oldToc|, newToc);
    var index := progress.chapterIndex;
    MappingsInRange(matcher, oldToc, newToc);
    LostExactly(mappings, index);
    FallbackInRange(mappings, index, |newToc|);
    if Lost(mappings, index) {
      FallbackLandsNearest(mappings, index);
    } else {
      assert mappings[index] in mappings;
    }
  }

  /** An empty TOC leaves the reader at the start of chapter 0 of the same book. */
  lemma EmptyTocResets(matcher: Matcher, oldToc: seq<TocEntry>, progress: ReadingProgress)
    ensures RemapReadingProgress(progress, matcher.Diff(oldToc, [])) ==
            RemappedReadingProgress(ReadingProgress(progress.bookId, 0, 0, 0.0), EmptyToc)
  {
  }

  lemma LostExactly(mappings: seq<TocRemapEntry>, index: u32)
    requires forall i :: 0 <= i < |mappings| ==> mappings[i].oldIndex == i
    ensures Lost(mappings, index) <==> !(index < |mappings| && mappings[index].newIndex.Some?)
    ensures FindMapping(mappings, index) == if index < |mappings| then Some(mappings[index]) else None
  {
    FindsPositionalMapping(mappings, 0, index);
    FoundMappingIsMember(mappings, index);
    if index < |mappings| {
      assert mappings[index] in mappings;
    }
  }

  // ---------------------------------------------------------------------
  // The program's own normalisation
  // ---------------------------------------------------------------------

  /** Locators and titles are compared without white space around them, without what
      follows a `#`, and in lower case; one with nothing left is no identity. */
  lemma NormalizationLaws(before: string, s: string, blank: string, fragment: string, after: string)
    requires AllWhitespace(before) && AllWhitespace(blank) && AllWhitespace(after)
    requires Trimmed(s) && '#' !in s && (fragment == "" || (fragment[0] == '#' && Trimmed(fragment)))
    ensures NormalizeIdentity(before + (s + (blank + fragment)) + after) == if s == "" then None else Some(Lower(s))
  {
    var t := s + (blank + fragment);
    if fragment == "" {
      assert before + t + after == before + s + (blank + after);
      TrimPadded(before, s, blank + after);
      UpToNone(s, '#');
    } else if s == "" {
      assert before + t + after == (before + blank) + fragment + after;
      TrimPadded(before + blank, fragment, after);
    } else {
      assert t[|t| - 1] == fragment[|fragment| - 1];
      TrimPadded(before, t, after);
      assert forall i :: 0 <= i < |blank| ==> IsWhitespace(blank[i]);
      assert t == (s + blank) + fragment;
      UpToStops(s + blank, fragment, '#');
      assert s + blank == "" + s + blank;
      TrimPadded("", s, blank);
    }
    TrimOfTrimmed(s);
  }

  /** `to_ascii_lowercase`: capitals become small, everything else stays. */
  lemma LowerLaws(s: string, i: nat)
    requires i < |s|
    ensures |Lower(s)| == |s|
    ensures 'A' <= s[i] <= 'Z' ==> Lower(s)[i] as int == s[i] as int + 32
    ensures !('A' <= s[i] <= 'Z') ==> Lower(s)[i] == s[i]
  {
  }

  /** `diff_toc` as the program runs it. */
  const Legado := Matcher(NormalizeIdentity)

  /** Two old chapters can collapse into one new chapter: the first lost its URL but
      kept its title, the second kept its URL and took that title. */
  lemma TitleFallbackCanMerge()
    ensures Legado.Merges([TocEntry(0, "t", "a"), TocEntry(1, "s", "b")], [TocEntry(0, "t", "b")], 0, 1)
  {
    NormalizeLetter('a'); NormalizeLetter('b'); NormalizeLetter('s'); NormalizeLetter('t');
    MergeByTitle(Legado, "t", "a", "s", "b");
  }

  lemma MergeByTitle(m: Matcher, t: string, a: string, s: string, b: string)
    requires a != b && m.normalize(a) == Some(a) && m.normalize(b) == Some(b) && m.normalize(t) == Some(t)
    ensures m.Merges([TocEntry(0, t, a), TocEntry(1, s, b)], [TocEntry(0, t, b)], 0, 1)
  {
    var oldToc := [TocEntry(0, t, a), TocEntry(1, s, b)];
    var newToc := [TocEntry(0, t, b)];
    assert m.IsKth(newToc, 0, Identity(Url, b), 0);
    assert m.Rank(oldToc, 1, Identity(Url, b)) == 0;
    m.UrlOccurrenceMatching(oldToc, 1, newToc, b, 0);
    assert m.Rank(newToc, 1, Identity(Url, a)) == 0;
    assert m.IsKth(newToc, 0, AnyTitle(t), 0);
    assert m.LedByTitle(oldToc, 0, newToc, 0);
    m.TitleFallback(oldToc, 0, newToc);
  }

  /** Without any URL match: two old chapters of one title lost their URLs, and the second
      new chapter of that title, which has none, writes both their keys. */
  lemma TitleCountersCanMerge()
    ensures Legado.Merges([TocEntry(0, "t", "x"), TocEntry(1, "t", "y")],
                          [TocEntry(0, "t", "b"), TocEntry(1, "t", "")], 0, 1)
  {
    NormalizeLetter('b'); NormalizeLetter('t'); NormalizeLetter('x'); NormalizeLetter('y');
    assert NormalizeIdentity("") == None;
    MergeByCounters(Legado, "t", "x", "y", "b");
  }

  lemma MergeByCounters(m: Matcher, t: string, x: string, y: string, b: string)
    requires x != b && y != b && m.normalize("") == None && m.normalize(t) == Some(t)
    requires m.normalize(x) == Some(x) && m.normalize(y) == Some(y) && m.normalize(b) == Some(b)
    ensures m.Merges([TocEntry(0, t, x), TocEntry(1, t, y)], [TocEntry(0, t, b), TocEntry(1, t, "")], 0, 1)
  {
    var oldToc := [TocEntry(0, t, x), TocEntry(1, t, y)];
    var newToc := [TocEntry(0, t, b), TocEntry(1, t, "")];
    assert m.Rank(newToc, 1, Identity(Url, x)) == m.Rank(newToc, 1, Identity(Url, y)) == 0;
    assert m.Rank(newToc, 0, AnyTitle(t)) == m.Rank(oldToc, 0, AnyTitle(t)) == m.Rank(newToc, 0, Identity(Title, t)) == 0;
    assert m.Bears(newToc[0], AnyTitle(t)) && m.Bears(oldToc[0], AnyTitle(t)) && !m.Bears(newToc[0], Identity(Title, t));
    assert m.Rank(newToc, 1, AnyTitle(t)) == m.Rank(oldToc, 1, AnyTitle(t)) == 1;
    assert m.Rank(newToc, 1, Identity(Title, t)) == 0;
    assert m.LedByTitle(oldToc, 0, newToc, 1) && m.LedByTitle(oldToc, 1, newToc, 1);
    m.TitleFallback(oldToc, 0, newToc);
    m.TitleFallback(oldToc, 1, newToc);
  }

  /** Diffing a TOC with itself can move the reader: a chapter with neither URL nor
      title is named "0" by its index and yields to a later chapter titled "0". */
  lemma SelfDiffCanMoveReader()
    ensures Legado.NewIndexOf([TocEntry(0, "", ""), TocEntry(1, "0", "a")], 0,
                              [TocEntry(0, "", ""), TocEntry(1, "0", "a")]) != Some(0)
  {
    NormalizeLetter('a'); NormalizeLetter('0');
    assert Decimal(0) == "0" && NormalizeIdentity("") == None;
    NamelessYields(Legado, "0", "a");
  }

  lemma NamelessYields(m: Matcher, zero: string, a: string)
    requires zero == Decimal(0) && m.normalize("") == None
    requires m.normalize(zero) == Some(zero) && m.normalize(a) == Some(a)
    ensures m.NewIndexOf([TocEntry(0, "", ""), TocEntry(1, zero, a)], 0,
                         [TocEntry(0, "", ""), TocEntry(1, zero, a)]) != Some(0)
  {
    var toc := [TocEntry(0, "", ""), TocEntry(1, zero, a)];
    assert m.KindOf(toc[0]) == Title && m.ValueOf(toc[0]) == zero;
    LaterNamesakeWins(m, toc, 0, 1);
  }

  lemma LaterNamesakeWins(m: Matcher, toc: seq<TocEntry>, i: nat, j: nat)
    requires Positional(toc) && i < j && i < |toc| && m.KindOf(toc[i]) == Title
    requires m.IsKth(toc, j, AnyTitle(m.ValueOf(toc[i])), m.Rank(toc, i, m.IdentityTag(toc[i])))
    ensures m.NewIndexOf(toc, i, toc) != Some(toc[i].index)
  {
    m.SelfDiffExactly(toc, i);
  }

  lemma NormalizeLetter(c: char)
    requires 'a' <= c <= 'z' || '0' <= c <= '9'
    ensures NormalizeIdentity([c]) == Some([c])
  {
    assert Trimmed([c]);
    TrimOfTrimmed([c]);
    assert UpTo([c], '#') == [c];
    assert Lower([c]) == [c];
  }
}
