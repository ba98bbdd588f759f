/** What the keys, fingerprints and error names of documents tell. */
module DocumentTheorems {
  import opened Text
  import opened TocRefresh
  import opened Documents

  // ---------------------------------------------------------------------
  // Cache keys
  // ---------------------------------------------------------------------

  /** The last separator of a text splits it in one way. */
  lemma LastPart(a: string, f: string, a2: string, f2: string)
    requires a + ":" + f == a2 + ":" + f2 && ':' !in f && ':' !in f2
    ensures a == a2 && f == f2
  {
    var s, s2 := a + ":" + f, a2 + ":" + f2;
    assert s[|a|] == ':' && s2[|a2|] == ':';
    forall i | |a| < i < |s| ensures s[i] != ':' { assert s[i] == f[i - |a| - 1]; }
    forall i | |a2| < i < |s2| ensures s2[i] != ':' { assert s2[i] == f2[i - |a2| - 1]; }
    assert s[..|a|] == a && s2[..|a2|] == a2;
    assert s[|a| + 1..] == f && s2[|a2| + 1..] == f2;
  }

  lemma {:induction false} DecimalHasNoColon(n: nat)
    ensures ':' !in Decimal(n)
  {
    if n >= 10 { DecimalHasNoColon(n / 10); }
  }

  /** Fingerprints are hexadecimal. A cache key then tells the index and the fingerprint, and
      of the ids exactly what `source:book` tells. */
  lemma CacheKeysEqualExactly(source: string, book: string, index: u32, fingerprint: string,
                              source2: string, book2: string, index2: u32, fingerprint2: string)
    requires ':' !in fingerprint && ':' !in fingerprint2
    ensures CacheKey(source, book, index, fingerprint) == CacheKey(source2, book2, index2, fingerprint2) <==>
            source + ":" + book == source2 + ":" + book2 && index == index2 && fingerprint == fingerprint2
  {
    if CacheKey(source, book, index, fingerprint) == CacheKey(source2, book2, index2, fingerprint2) {
      var ids, ids2 := source + ":" + book, source2 + ":" + book2;
      LastPart(ids + ":" + Decimal(index), fingerprint, ids2 + ":" + Decimal(index2), fingerprint2);
      DecimalHasNoColon(index);
      DecimalHasNoColon(index2);
      LastPart(ids, Decimal(index), ids2, Decimal(index2));
      DecimalRoundTrip(index);
      DecimalRoundTrip(index2);
    }
  }

  /** Ids without a colon are told apart. */
  lemma CacheKeysTellIds(source: string, book: string, index: u32, fingerprint: string,
                         source2: string, book2: string, index2: u32, fingerprint2: string)
    requires ':' !in fingerprint && ':' !in fingerprint2 && ':' !in book && ':' !in book2
    requires CacheKey(source, book, index, fingerprint) == CacheKey(source2, book2, index2, fingerprint2)
    ensures source == source2 && book == book2 && index == index2 && fingerprint == fingerprint2
  {
    CacheKeysEqualExactly(source, book, index, fingerprint, source2, book2, index2, fingerprint2);
    LastPart(source, book, source2, book2);
  }

  /** With a colon in an id they need not be: the same chapter text of two books of two sources
      shares one key. */
  lemma CacheKeysCollide(a: string, b: string, c: string, index: u32, fingerprint: string)
    ensures CacheKey(a + ":" + b, c, index, fingerprint) == CacheKey(a, b + ":" + c, index, fingerprint)
    ensures a + ":" + b != a
  {
    assert (a + ":" + b) + ":" + c == a + ":" + (b + ":" + c);
    assert |a + ":" + b| > |a|;
  }

  // ---------------------------------------------------------------------
  // Fingerprints
  // ---------------------------------------------------------------------

  lemma {:induction false} TocPartsAt(toc: seq<TocEntry>)
    ensures |TocParts(toc)| == 2 * |toc|
    ensures forall i :: 0 <= i < |toc| ==> TocParts(toc)[2 * i] == toc[i].title && TocParts(toc)[2 * i + 1] == toc[i].url
  {
    if toc != [] { TocPartsAt(toc[..|toc| - 1]); }
  }

  function Parts(d: ContentDocument): seq<string> {
    [d.sourceId, d.book.bookId] + TocParts(d.toc) + Fingerprints(d.chapters)
  }

  /** No part of the hashed text holds the separator, the unit separator U+001F. */
  predicate NoSeparators(d: ContentDocument) {
    && '\U{001F}' !in d.sourceId && '\U{001F}' !in d.book.bookId
    && (forall i :: 0 <= i < |d.toc| ==> '\U{001F}' !in d.toc[i].title && '\U{001F}' !in d.toc[i].url)
    && forall i :: 0 <= i < |d.chapters| ==> '\U{001F}' !in d.chapters[i].contentFingerprint
  }

  lemma {:induction false} TocPartsClean(toc: seq<TocEntry>)
    requires forall i :: 0 <= i < |toc| ==> '\U{001F}' !in toc[i].title && '\U{001F}' !in toc[i].url
    ensures NoneHas(TocParts(toc), '\U{001F}')
  {
    if toc != [] { TocPartsClean(toc[..|toc| - 1]); }
  }

  lemma PartsClean(d: ContentDocument)
    requires NoSeparators(d)
    ensures NoneHas(Parts(d), '\U{001F}')
  {
    TocPartsClean(d.toc);
  }

  lemma PartsAt(d: ContentDocument)
    ensures var parts, n := Parts(d), |d.toc|;
            && |parts| == 2 + 2 * n + |d.chapters| && parts[0] == d.sourceId && parts[1] == d.book.bookId
            && (forall i :: 0 <= i < n ==> parts[2 + 2 * i] == d.toc[i].title && parts[3 + 2 * i] == d.toc[i].url)
            && forall i :: 0 <= i < |d.chapters| ==> parts[2 + 2 * n + i] == d.chapters[i].contentFingerprint
  {
    TocPartsAt(d.toc);
  }

  /** The same book with the same chapter names, locators and chapter fingerprints. */
  predicate SameBook(d: ContentDocument, e: ContentDocument) {
    && d.sourceId == e.sourceId && d.book.bookId == e.book.bookId
    && |d.toc| == |e.toc| && |d.chapters| == |e.chapters|
    && (forall i :: 0 <= i < |d.toc| ==> d.toc[i].title == e.toc[i].title && d.toc[i].url == e.toc[i].url)
    && forall i :: 0 <= i < |d.chapters| ==> d.chapters[i].contentFingerprint == e.chapters[i].contentFingerprint
  }

  /** Documents with a chapter for each entry hash the same text exactly when they are the
      same book, if no part holds the separator. */
  lemma SameTextExactly(d: ContentDocument, e: ContentDocument)
    requires |d.toc| == |d.chapters| && |e.toc| == |e.chapters| && NoSeparators(d) && NoSeparators(e)
    ensures FingerprintText(d) == FingerprintText(e) <==> SameBook(d, e)
  {
    var p, q := Parts(d), Parts(e);
    PartsAt(d);
    PartsAt(e);
    PartsClean(d);
    PartsClean(e);
    hide Parts, NoSeparators;
    SplitOfJoin(p, '\U{001F}');
    SplitOfJoin(q, '\U{001F}');
    TextOfParts(d);
    TextOfParts(e);
    hide Join, Split, FingerprintText;
    if p == q {
      SamePartsSameBook(d, e);
    } else if SameBook(d, e) {
      SameBookSameParts(d, e);
    }
  }

  lemma TextOfParts(d: ContentDocument)
    ensures FingerprintText(d) == Join(Parts(d), ['\U{001F}'])
  {
  }

  lemma SamePartsSameBook(d: ContentDocument, e: ContentDocument)
    requires |d.toc| == |d.chapters| && |e.toc| == |e.chapters| && Parts(d) == Parts(e)
    ensures SameBook(d, e)
  {
    PartsAt(d);
    PartsAt(e);
    hide Parts;
    var p, n := Parts(d), |d.toc|;
    forall i | 0 <= i < n ensures d.toc[i].title == e.toc[i].title && d.toc[i].url == e.toc[i].url {
      assert p[2 + 2 * i] == d.toc[i].title && p[3 + 2 * i] == d.toc[i].url;
    }
    forall i | 0 <= i < n ensures d.chapters[i].contentFingerprint == e.chapters[i].contentFingerprint {
      assert p[2 + 2 * n + i] == d.chapters[i].contentFingerprint;
    }
  }

  lemma {:induction false} SameTocParts(a: seq<TocEntry>, b: seq<TocEntry>)
    requires |a| == |b| && forall i :: 0 <= i < |a| ==> a[i].title == b[i].title && a[i].url == b[i].url
    ensures TocParts(a) == TocParts(b)
  {
    if a != [] { SameTocParts(a[..|a| - 1], b[..|b| - 1]); }
  }

  lemma SameBookSameParts(d: ContentDocument, e: ContentDocument)
    requires SameBook(d, e)
    ensures Parts(d) == Parts(e)
  {
    SameTocParts(d.toc, e.toc);
    assert Fingerprints(d.chapters) == Fingerprints(e.chapters);
  }

  // ---------------------------------------------------------------------
  // Error names
  // ---------------------------------------------------------------------

  const EntryFields := ["toc.index", "chapters.index", "chapters.source_id", "chapters.book_id", "chapters.title",
                        "chapters.url", "chapters.content", "chapters.char_len", "chapters.content_fingerprint",
                        "chapters.cache_key"]

  /** The field `EntryFields[n]` does not fit at position `i`. */
  predicate Misfit(d: ContentDocument, i: nat, n: nat, hash: Hash)
    requires i < |d.toc| && |d.toc| == |d.chapters|
  {
    var entry, c := d.toc[i], d.chapters[i];
    match n
    case 0 => entry.index != AsU32(i)
    case 1 => c.chapterIndex != AsU32(i)
    case 2 => c.sourceId != d.sourceId
    case 3 => c.bookId != d.book.bookId
    case 4 => c.title != entry.title
    case 5 => c.url != entry.url
    case 6 => AllWhitespace(c.content)
    case 7 => c.charLen != |c.content|
    case 8 => c.contentFingerprint != hash(c.content)
    case 9 => c.cacheKey != CacheKey(c.sourceId, c.bookId, c.chapterIndex, c.contentFingerprint)
    case _ => false
  }

  /** At position `i` field `n` is the first in order that does not fit. */
  predicate FirstMisfit(d: ContentDocument, i: nat, n: nat, hash: Hash)
    requires i < |d.toc| && |d.toc| == |d.chapters|
  {
    n < 10 && Misfit(d, i, n, hash) && forall m: nat :: m < n ==> !Misfit(d, i, m, hash)
  }

  lemma EntryErrorIs(d: ContentDocument, i: nat, n: nat, hash: Hash)
    requires i < |d.toc| && |d.toc| == |d.chapters| && FirstMisfit(d, i, n, hash)
    ensures EntryError(d, i, hash) == Some(EntryFields[n])
  {
    BlankExactly(d.chapters[i].content);
    hide AsU32, CacheKey, Trim, AllWhitespace;
    assert forall m: nat :: m < n ==> !Misfit(d, i, m, hash);
    assert 0 < n ==> !Misfit(d, i, 0, hash);
    assert 1 < n ==> !Misfit(d, i, 1, hash);
    assert 2 < n ==> !Misfit(d, i, 2, hash);
    assert 3 < n ==> !Misfit(d, i, 3, hash);
    assert 4 < n ==> !Misfit(d, i, 4, hash);
    assert 5 < n ==> !Misfit(d, i, 5, hash);
    assert 6 < n ==> !Misfit(d, i, 6, hash);
    assert 7 < n ==> !Misfit(d, i, 7, hash);
    assert 8 < n ==> !Misfit(d, i, 8, hash);
  }

  /** Every position before `i` fits. */
  predicate FitsBefore(d: ContentDocument, i: nat, hash: Hash)
    requires i <= |d.toc| && |d.toc| == |d.chapters|
  {
    forall j :: 0 <= j < i ==> Fits(d, j, hash)
  }

  lemma {:induction false} FirstErrorAt(d: ContentDocument, from: nat, i: nat, hash: Hash)
    requires from <= i < |d.toc| && |d.toc| == |d.chapters| && FitsBefore(d, i, hash) && EntryError(d, i, hash).Some?
    ensures FirstEntryError(d, from, hash) == EntryError(d, i, hash)
    decreases i - from
  {
    if from < i {
      FitsHasNoError(d, from, hash);
      FirstErrorAt(d, from + 1, i, hash);
    }
  }

  lemma FitsHasNoError(d: ContentDocument, i: nat, hash: Hash)
    requires i < |d.toc| && |d.toc| == |d.chapters| && Fits(d, i, hash)
    ensures EntryError(d, i, hash) == None
  {
    hide AsU32, CacheKey, Trim;
  }

  /** The error names the first thing that is wrong: blank ids, missing chapters, lists of
      different length, then position by position and field by field, then the fingerprint. */
  lemma ErrorNamesFirstFault(d: ContentDocument, hash: Hash)
    ensures var error, idsOk := DocumentError(d, hash), !AllWhitespace(d.sourceId) && !AllWhitespace(d.book.bookId);
            && (AllWhitespace(d.sourceId) ==> error == Some("source_id"))
            && (!AllWhitespace(d.sourceId) && AllWhitespace(d.book.bookId) ==> error == Some("book.book_id"))
            && (idsOk && (d.toc == [] || d.chapters == []) ==> error == Some("chapters"))
            && (idsOk && d.toc != [] && d.chapters != [] && |d.toc| != |d.chapters| ==> error == Some("toc"))
            && (idsOk && d.toc != [] && |d.toc| == |d.chapters| ==>
                  && (forall i: nat, n: nat :: i < |d.toc| && FitsBefore(d, i, hash) && FirstMisfit(d, i, n, hash) ==>
                        error == Some(EntryFields[n]))
                  && (FitsBefore(d, |d.toc|, hash) ==>
                        error == if d.contentFingerprint == hash(FingerprintText(d)) then None else Some("content_fingerprint")))
  {
    BlankExactly(d.sourceId);
    BlankExactly(d.book.bookId);
    hide AsU32, CacheKey, Trim, AllWhitespace, FingerprintText, EntryError, Fits;
    if |d.toc| == |d.chapters| {
      forall i: nat, n: nat | i < |d.toc| && FitsBefore(d, i, hash) && FirstMisfit(d, i, n, hash)
        ensures FirstEntryError(d, 0, hash) == Some(EntryFields[n])
      {
        EntryErrorIs(d, i, n, hash);
        FirstErrorAt(d, 0, i, hash);
      }
      EntriesFitExactly(d, 0, hash);
    }
  }
}
