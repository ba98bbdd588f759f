/** Building and validating the persistable content document of a book. */
module Documents {
  import opened Text
  import opened Chapter
  import opened ChapterNormalForm
  import opened ChapterParagraphs
  import opened DuplicateTitle
  import opened TocRefresh

  datatype ContentError = InvalidChapter(field: string) | InvalidDocument(field: string)

  datatype Result<+T> = Ok(value: T) | Err(error: ContentError)

  datatype Book = Book(bookId: string, title: string)

  datatype NormalizedChapter =
    NormalizedChapter(sourceId: string, bookId: string, chapterIndex: u32, title: string, url: string,
                      content: string, paragraphs: seq<string>, charLen: nat,
                      contentFingerprint: string, cacheKey: string)

  datatype ContentDocument =
    ContentDocument(sourceId: string, book: Book, toc: seq<TocEntry>, chapters: seq<NormalizedChapter>,
                    updatedAt: int, contentFingerprint: string)

  type Hash = string -> string

  // ---------------------------------------------------------------------
  // Normalising one chapter
  // ---------------------------------------------------------------------

  function CacheKey(sourceId: string, bookId: string, index: u32, fingerprint: string): string {
    sourceId + ":" + bookId + ":" + Decimal(index) + ":" + fingerprint
  }

  function Body(book: Book, entry: TocEntry, raw: string): string {
    WithoutTitle(Normalized(raw), book.title, entry.title)
  }

  function ChapterOf(sourceId: string, book: Book, entry: TocEntry, content: string, hash: Hash): NormalizedChapter {
    NormalizedChapter(sourceId, book.bookId, entry.index, entry.title, entry.url, content,
                      SplitParagraphs(content), |content|, hash(content),
                      CacheKey(sourceId, book.bookId, entry.index, hash(content)))
  }

  function NormalChapter(sourceId: string, book: Book, entry: TocEntry, raw: string, hash: Hash): Result<NormalizedChapter> {
    if Trim(sourceId) == "" then Err(InvalidChapter("source_id"))
    else if Trim(book.bookId) == "" then Err(InvalidChapter("book_id"))
    else if Trim(Body(book, entry, raw)) == "" then Err(InvalidChapter("content"))
    else Ok(ChapterOf(sourceId, book, entry, Body(book, entry, raw), hash))
  }

  /** `normalize_chapter`. */
  method NormalizeChapter(sourceId: string, book: Book, entry: TocEntry, raw: string, hash: Hash)
    returns (r: Result<NormalizedChapter>)
    ensures r == NormalChapter(sourceId, book, entry, raw, hash)
  {
    if Trim(sourceId) == "" { return Err(InvalidChapter("source_id")); }
    if Trim(book.bookId) == "" { return Err(InvalidChapter("book_id")); }
    var content := NormalizeChapterContent(raw);
    content := RemoveLeadingDuplicateChapterTitle(content, book.title, entry.title);
    if Trim(content) == "" { return Err(InvalidChapter("content")); }
    r := Ok(ChapterOf(sourceId, book, entry, content, hash));
  }

  /** Every accepted body is a normalised text: the normal form, the paragraph laws and the
      idempotence law all hold of it. */
  lemma BodyIsNormalized(book: Book, entry: TocEntry, raw: string) returns (text: string)
    ensures Body(book, entry, raw) == Normalized(text)
    ensures NormalForm(Body(book, entry, raw))
  {
    var content := Normalized(raw);
    match TitleEnd(content, book.title, entry.title)
    case None =>
      text := raw;
      NormalizedIsNormal(raw);
    case Some(end) =>
      text := content[end..];
      NormalizedIsNormal(text);
  }

  lemma NormalIsBlankOnlyIfEmpty(t: string)
    requires NormalForm(t)
    ensures Trim(t) == "" <==> t == ""
  {
    if t != "" {
      TrimStartMaximal(t);
      TrimEndMaximal(TrimStart(t));
      assert t[..|t|] == t;
    }
  }

  /** A chapter is accepted exactly when its ids are not blank and text remains; then the
      content is in normal form, and joining the paragraphs gives it back if none is indented. */
  lemma ChapterLaws(sourceId: string, book: Book, entry: TocEntry, raw: string, hash: Hash)
    ensures var r := NormalChapter(sourceId, book, entry, raw, hash);
            && (r.Ok? <==> Trim(sourceId) != "" && Trim(book.bookId) != "" && Body(book, entry, raw) != "")
            && (r.Ok? ==>
                  && NormalForm(r.value.content) && r.value.content != ""
                  && (Join(r.value.paragraphs, "\n\n") == r.value.content <==> NoneIndented(r.value.content)))
  {
    var text := BodyIsNormalized(book, entry, raw);
    NormalIsBlankOnlyIfEmpty(Body(book, entry, raw));
    JoinBackExactly(text);
  }

  /** `rest` is what is left of a text without the chapter title it repeats at its start:
      the normalised text after the repetition and its white space, or all of it. */
  ghost predicate LeftOver(text: string, bookTitle: string, chapterTitle: string, rest: string) {
    if exists p, e :: Repeated(text, p, e, UsableBook(bookTitle), chapterTitle)
    then exists p, e :: Repeated(text, p, e, UsableBook(bookTitle), chapterTitle) && rest == Normalized(text[SkipWhite(text, e)..])
    else rest == text
  }

  lemma LeftOverExactly(text: string, bookTitle: string, chapterTitle: string, rest: string)
    ensures LeftOver(text, bookTitle, chapterTitle, rest) <==> rest == WithoutTitle(text, bookTitle, chapterTitle)
  {
    hide Normalized, Repeated, TitleEnd, SkipWhite, UsableBook;
    var book := UsableBook(bookTitle);
    forall p: nat, e: nat | Repeated(text, p, e, book, chapterTitle)
      ensures p <= e <= |text| && TitleEnd(text, bookTitle, chapterTitle) == Some(SkipWhite(text, e))
    {
      RepetitionWithin(text, p, e, book, chapterTitle);
      CutExactly(text, bookTitle, chapterTitle, SkipWhite(text, e));
    }
    match TitleEnd(text, bookTitle, chapterTitle)
    case None =>
    case Some(k) =>
      CutExactly(text, bookTitle, chapterTitle, k);
  }

  lemma RepetitionWithin(text: string, p: nat, e: nat, bookTitle: string, chapterTitle: string)
    requires Repeated(text, p, e, bookTitle, chapterTitle)
    ensures p <= e <= |text|
  {
  }

  /** Every accepted chapter has lost the title its text repeats, and nothing else. A text is
      rejected when an id is blank or nothing is left of it. */
  lemma RepeatedTitleIsGone(sourceId: string, book: Book, entry: TocEntry, raw: string, rest: string, hash: Hash)
    requires LeftOver(Normalized(raw), book.title, entry.title, rest)
    ensures var r := NormalChapter(sourceId, book, entry, raw, hash);
            && (Trim(sourceId) == "" ==> r == Err(InvalidChapter("source_id")))
            && (Trim(sourceId) != "" && Trim(book.bookId) == "" ==> r == Err(InvalidChapter("book_id")))
            && (Trim(sourceId) != "" && Trim(book.bookId) != "" && rest == "" ==> r == Err(InvalidChapter("content")))
            && (Trim(sourceId) != "" && Trim(book.bookId) != "" && rest != "" ==> r.Ok? && r.value.content == rest)
  {
    LeftOverExactly(Normalized(raw), book.title, entry.title, rest);
    var text := BodyIsNormalized(book, entry, raw);
    NormalIsBlankOnlyIfEmpty(rest);
  }

  /** There is always exactly one such rest. */
  lemma OneLeftOver(text: string, bookTitle: string, chapterTitle: string) returns (rest: string)
    ensures forall other :: LeftOver(text, bookTitle, chapterTitle, other) <==> other == rest
  {
    rest := WithoutTitle(text, bookTitle, chapterTitle);
    forall other ensures LeftOver(text, bookTitle, chapterTitle, other) <==> other == rest {
      LeftOverExactly(text, bookTitle, chapterTitle, other);
    }
  }

  predicate AllSeparators(s: string) {
    forall i :: 0 <= i < |s| ==> IsSeparator(s[i])
  }

  lemma {:induction false} SeparatorsAreTokens(s: string, i: nat, j: nat, book: string)
    requires i <= j <= |s| && forall k :: i <= k < j ==> IsSeparator(s[k])
    ensures Tokens(s, i, j, book)
    decreases j - i
  {
    if i < j { SeparatorsAreTokens(s, i + 1, j, book); }
  }

  /** A title reads itself. */
  lemma {:induction false} ReadsItself(s: string, i: nat, title: string)
    requires At(s, i, title)
    ensures Reads(s, i, title, i + |title|)
    decreases |title|
  {
    if title != "" {
      assert s[i] == title[0];
      assert At(s, i + 1, title[1..]);
      ReadsItself(s, i + 1, title[1..]);
      if IsWhitespace(title[0]) { assert White(s, i, i + 1); }
    }
  }

  lemma {:induction false} SkipsRun(s: string, i: nat, j: nat)
    requires i <= j < |s| && !IsWhitespace(s[j]) && forall k :: i <= k < j ==> IsWhitespace(s[k])
    ensures SkipWhite(s, i) == j
    decreases j - i
  {
    if i < j { SkipsRun(s, i + 1, j); }
  }

  /** Book title, separators, chapter title, white space and the rest. */
  function Headed(bookTitle: string, separators: string, chapterTitle: string, gap: string, rest: string): string {
    bookTitle + (separators + (chapterTitle + (gap + rest)))
  }

  lemma HeadedAt(b: string, u: string, c: string, g: string, rest: string)
    ensures var s := Headed(b, u, c, g, rest); var p := |b| + |u|; var e := p + |c|; var k := e + |g|;
            && At(s, 0, b) && At(s, |b|, u) && At(s, p, c) && At(s, e, g) && k <= |s| && s[k..] == rest
            && At(s, p, c + (g + rest)) && |s| == p + |c + (g + rest)|
  {
  }

  /** Both titles are without white space around them and start with no separator, and the
      chapter title is not read as the book title once more. */
  predicate PlainTitles(bookTitle: string, chapterTitle: string, after: string) {
    && Trimmed(bookTitle) && bookTitle != "" && !IsSeparator(bookTitle[0])
    && Trimmed(chapterTitle) && chapterTitle != "" && !IsSeparator(chapterTitle[0])
    && !At(chapterTitle + after, 0, bookTitle)
  }

  lemma HeadedIsCut(b: string, u: string, c: string, g: string, rest: string)
    requires PlainTitles(b, c, g + rest) && AllSeparators(u) && AllWhitespace(g) && g != ""
    requires rest != "" && !IsWhitespace(rest[0])
    ensures TitleEnd(Headed(b, u, c, g, rest), b, c) == Some(|b| + |u| + |c| + |g|)
  {
    hide *;
    HeadedAt(b, u, c, g, rest);
    HeadedTokens(Headed(b, u, c, g, rest), b, u);
    HeadedGap(Headed(b, u, c, g, rest), |b| + |u| + |c|, g, rest);
    HeadedTitle(Headed(b, u, c, g, rest), |b| + |u|, b, c, g + rest);
  }

  /** The book title and the separators are skipped. */
  lemma HeadedTokens(s: string, b: string, u: string)
    requires At(s, 0, b) && At(s, |b|, u) && AllSeparators(u)
    ensures Tokens(s, 0, |b| + |u|, b)
  {
    var p := |b| + |u|;
    forall k | |b| <= k < p ensures IsSeparator(s[k]) { assert s[k] == u[k - |b|]; }
    SeparatorsAreTokens(s, |b|, p, b);
  }

  lemma HeadedGap(s: string, e: nat, g: string, rest: string)
    requires At(s, e, g) && AllWhitespace(g) && g != ""
    requires e + |g| <= |s| && s[e + |g|..] == rest && rest != "" && !IsWhitespace(rest[0])
    ensures e < |s| && IsWhitespace(s[e]) && SkipWhite(s, e) == e + |g|
  {
    var k := e + |g|;
    assert s[k] == s[k..][0] && s[e] == g[0];
    hide IsWhitespace;
    forall n | e <= n < k ensures IsWhitespace(s[n]) { assert s[n] == g[n - e]; }
    SkipsRun(s, e, k);
  }

  lemma HeadedTitle(s: string, p: nat, b: string, c: string, after: string)
    requires PlainTitles(b, c, after) && Tokens(s, 0, p, b) && At(s, p, c)
    requires At(s, p, c + after) && |s| == p + |c + after|
    requires p + |c| < |s| && IsWhitespace(s[p + |c|])
    ensures TitleEnd(s, b, c) == Some(SkipWhite(s, p + |c|))
  {
    TrimOfTrimmed(b);
    TrimOfTrimmed(c);
    assert !At(s, p, b) by {
      if |b| <= |c + after| {
        var n :| 0 <= n < |b| && (c + after)[n] != b[n];
        assert s[p + n] == (c + after)[n];
      }
    }
    ReadsItself(s, p, c);
    hide Trim, Reads, At, IsSeparator, IsWhitespace, TitleEnd, SkipWhite, Tokens;
    CutWhenInSight(s, p, p + |c|, b, c);
  }

  /** A chapter whose text opens with the two titles keeps exactly what follows them. */
  lemma HeadedChapter(sourceId: string, book: Book, entry: TocEntry, raw: string, u: string, g: string, rest: string, hash: Hash)
    requires Trim(sourceId) != "" && Trim(book.bookId) != ""
    requires Normalized(raw) == Headed(book.title, u, entry.title, g, rest)
    requires PlainTitles(book.title, entry.title, g + rest) && AllSeparators(u) && AllWhitespace(g) && g != ""
    requires rest != "" && !IsWhitespace(rest[0]) && rest[0] != Bom
    ensures var r := NormalChapter(sourceId, book, entry, raw, hash); r.Ok? && r.value.content == rest
  {
    hide *;
    HeadedBody(book, entry, raw, u, g, rest);
    NormalChapterIs(sourceId, book, entry, raw, rest, hash);
  }

  lemma HeadedBody(book: Book, entry: TocEntry, raw: string, u: string, g: string, rest: string)
    requires Normalized(raw) == Headed(book.title, u, entry.title, g, rest)
    requires PlainTitles(book.title, entry.title, g + rest) && AllSeparators(u) && AllWhitespace(g) && g != ""
    requires rest != "" && !IsWhitespace(rest[0]) && rest[0] != Bom
    ensures Body(book, entry, raw) == rest
  {
    var b, c := book.title, entry.title;
    hide *;
    NormalizedIsNormal(raw);
    HeadedIsCut(b, u, c, g, rest);
    HeadedAt(b, u, c, g, rest);
    KeptTextIsSuffixExactly(Normalized(raw), b, c);
    BodyIs(book, entry, raw);
  }

  lemma BodyIs(book: Book, entry: TocEntry, raw: string)
    ensures Body(book, entry, raw) == WithoutTitle(Normalized(raw), book.title, entry.title)
  {
  }

  lemma NormalChapterIs(sourceId: string, book: Book, entry: TocEntry, raw: string, rest: string, hash: Hash)
    requires Trim(sourceId) != "" && Trim(book.bookId) != "" && Body(book, entry, raw) == rest && rest != ""
    ensures var r := NormalChapter(sourceId, book, entry, raw, hash); r.Ok? && r.value.content == rest
  {
    var text := BodyIsNormalized(book, entry, raw);
    NormalIsBlankOnlyIfEmpty(rest);
    hide Body, Trim;
  }

  // ---------------------------------------------------------------------
  // Validating a document
  // ---------------------------------------------------------------------

  function TocParts(toc: seq<TocEntry>): seq<string> {
    if toc == [] then [] else TocParts(toc[..|toc| - 1]) + [toc[|toc| - 1].title, toc[|toc| - 1].url]
  }

  function Fingerprints(chapters: seq<NormalizedChapter>): seq<string> {
    seq(|chapters|, i requires 0 <= i < |chapters| => chapters[i].contentFingerprint)
  }

  /** The text that is hashed for a document. */
  function FingerprintText(d: ContentDocument): string {
    Join([d.sourceId, d.book.bookId] + TocParts(d.toc) + Fingerprints(d.chapters), "\U{001F}")
  }

  /** `content_document_fingerprint`. */
  function DocumentFingerprint(d: ContentDocument, hash: Hash): string {
    hash(FingerprintText(d))
  }

  /** `expected_index as u32`. */
  function AsU32(i: nat): u32 { i % 0x1_0000_0000 }

  /** The first field of a chapter that does not fit its document. */
  function ChapterError(d: ContentDocument, entry: TocEntry, c: NormalizedChapter, hash: Hash): Option<string> {
    if c.sourceId != d.sourceId then Some("chapters.source_id")
    else if c.bookId != d.book.bookId then Some("chapters.book_id")
    else if c.title != entry.title then Some("chapters.title")
    else if c.url != entry.url then Some("chapters.url")
    else if Trim(c.content) == "" then Some("chapters.content")
    else if c.charLen != |c.content| then Some("chapters.char_len")
    else if c.contentFingerprint != hash(c.content) then Some("chapters.content_fingerprint")
    else if c.cacheKey != CacheKey(c.sourceId, c.bookId, c.chapterIndex, c.contentFingerprint) then Some("chapters.cache_key")
    else None
  }

  /** The first check that fails at position `i`. */
  function EntryError(d: ContentDocument, i: nat, hash: Hash): Option<string>
    requires i < |d.toc| && |d.toc| == |d.chapters|
  {
    if d.toc[i].index != AsU32(i) then Some("toc.index")
    else if d.chapters[i].chapterIndex != AsU32(i) then Some("chapters.index")
    else ChapterError(d, d.toc[i], d.chapters[i], hash)
  }

  function HeaderError(d: ContentDocument): Option<string> {
    if Trim(d.sourceId) == "" then Some("source_id")
    else if Trim(d.book.bookId) == "" then Some("book.book_id")
    else if d.toc == [] || d.chapters == [] then Some("chapters")
    else if |d.toc| != |d.chapters| then Some("toc")
    else None
  }

  function FirstEntryError(d: ContentDocument, i: nat, hash: Hash): Option<string>
    requires i <= |d.toc| && |d.toc| == |d.chapters|
    decreases |d.toc| - i
  {
    if i == |d.toc| then None
    else if EntryError(d, i, hash).Some? then EntryError(d, i, hash)
    else FirstEntryError(d, i + 1, hash)
  }

  /** The field named by the first check that fails. */
  function DocumentError(d: ContentDocument, hash: Hash): Option<string> {
    if HeaderError(d).Some? then HeaderError(d)
    else if FirstEntryError(d, 0, hash).Some? then FirstEntryError(d, 0, hash)
    else if d.contentFingerprint != DocumentFingerprint(d, hash) then Some("content_fingerprint")
    else None
  }

  /** `validate_content_document`. */
  method ValidateContentDocument(d: ContentDocument, hash: Hash) returns (r: Option<string>)
    ensures r == DocumentError(d, hash)
  {
    var header := HeaderError(d);
    if header.Some? { return header; }
    for i := 0 to |d.toc|
      invariant FirstEntryError(d, 0, hash) == FirstEntryError(d, i, hash)
    {
      var error := EntryError(d, i, hash);
      if error.Some? { return error; }
    }
    r := if d.contentFingerprint != DocumentFingerprint(d, hash) then Some("content_fingerprint") else None;
  }

  /** The chapter and the table of contents agree at position `i`. */
  predicate Fits(d: ContentDocument, i: nat, hash: Hash)
    requires i < |d.toc| && |d.toc| == |d.chapters|
  {
    var c := d.chapters[i];
    && d.toc[i] == TocEntry(AsU32(i), c.title, c.url) && Trim(c.content) != ""
    && c.chapterIndex == AsU32(i) && c.sourceId == d.sourceId && c.bookId == d.book.bookId
    && c.charLen == |c.content| && c.contentFingerprint == hash(c.content)
    && c.cacheKey == CacheKey(d.sourceId, d.book.bookId, AsU32(i), hash(c.content))
  }

  predicate ValidDocument(d: ContentDocument, hash: Hash) {
    && Trim(d.sourceId) != "" && Trim(d.book.bookId) != ""
    && d.toc != [] && |d.toc| == |d.chapters|
    && (forall i :: 0 <= i < |d.toc| ==> Fits(d, i, hash))
    && d.contentFingerprint == DocumentFingerprint(d, hash)
  }

  lemma {:induction false} EntriesFitExactly(d: ContentDocument, i: nat, hash: Hash)
    requires i <= |d.toc| && |d.toc| == |d.chapters|
    ensures FirstEntryError(d, i, hash) == None <==> forall j :: i <= j < |d.toc| ==> Fits(d, j, hash)
    decreases |d.toc| - i
  {
    if i < |d.toc| {
      EntriesFitExactly(d, i + 1, hash);
      assert EntryError(d, i, hash) == None <==> Fits(d, i, hash);
    }
  }

  /** Validation passes exactly the documents whose parts all agree. */
  lemma ValidExactly(d: ContentDocument, hash: Hash)
    ensures DocumentError(d, hash) == None <==> ValidDocument(d, hash)
  {
    if |d.toc| == |d.chapters| { EntriesFitExactly(d, 0, hash); }
  }

  // ---------------------------------------------------------------------
  // Building a document from normalised chapters
  // ---------------------------------------------------------------------

  function Built(sourceId: string, book: Book, toc: seq<TocEntry>, chapters: seq<NormalizedChapter>, at: int, hash: Hash)
    : ContentDocument
  {
    var d := ContentDocument(Trim(sourceId), book, toc, chapters, at, "");
    d.(contentFingerprint := DocumentFingerprint(d, hash))
  }

  /** `ContentDocument::new`. */
  method NewContentDocument(sourceId: string, book: Book, toc: seq<TocEntry>, chapters: seq<NormalizedChapter>,
                            at: int, hash: Hash)
    returns (r: Result<ContentDocument>)
    ensures r == match DocumentError(Built(sourceId, book, toc, chapters, at, hash), hash)
                 case None => Ok(Built(sourceId, book, toc, chapters, at, hash))
                 case Some(field) => Err(InvalidDocument(field))
    ensures r.Ok? <==> ValidDocument(Built(sourceId, book, toc, chapters, at, hash), hash)
    ensures r.Ok? ==> r.value == ContentDocument(Trim(sourceId), book, toc, chapters, at, r.value.contentFingerprint)
  {
    var document := ContentDocument(Trim(sourceId), book, toc, chapters, at, "");
    document := document.(contentFingerprint := DocumentFingerprint(document, hash));
    ValidExactly(document, hash);
    var error := ValidateContentDocument(document, hash);
    r := match error
      case Some(field) => Err(InvalidDocument(field))
      case None => Ok(document);
  }

  /** Each chapter is the normalisation of some raw text for its entry. */
  ghost predicate AllNormalized(sourceId: string, book: Book, toc: seq<TocEntry>, chapters: seq<NormalizedChapter>,
                                raws: seq<string>, hash: Hash)
  {
    && |toc| == |chapters| == |raws|
    && forall i :: 0 <= i < |toc| ==> NormalChapter(sourceId, book, toc[i], raws[i], hash) == Ok(chapters[i])
  }

  /** The text "x" under the title "t" is accepted, whatever the ids, if they are not blank. */
  lemma PlainChapter(sourceId: string, bookId: string, hash: Hash)
    requires Trim(sourceId) != "" && Trim(bookId) != ""
    ensures NormalChapter(sourceId, Book(bookId, ""), TocEntry(0, "t", ""), "x", hash).Ok?
  {
    assert NormalForm("x");
    hide NormalForm, Normalized, Trim;
    NormalIsFixed("x");
    NoTitleInX();
    NormalIsBlankOnlyIfEmpty("x");
  }

  lemma BuiltIds(sourceId: string, book: Book, toc: seq<TocEntry>, chapters: seq<NormalizedChapter>, at: int, hash: Hash)
    ensures var d := Built(sourceId, book, toc, chapters, at, hash); d.sourceId == Trim(sourceId) && d.book == book
  {
    hide DocumentFingerprint, Trim;
  }

  /** One accepted chapter makes a valid document under a trimmed source id. */
  lemma OneChapterDocument(sourceId: string, book: Book, entry: TocEntry, raw: string, at: int, hash: Hash)
    returns (d: ContentDocument)
    requires NormalChapter(sourceId, book, entry, raw, hash).Ok? && entry.index == 0 && Trim(sourceId) == sourceId
    ensures ValidDocument(d, hash) && d.sourceId == sourceId && d.book == book
  {
    var chapters := [NormalChapter(sourceId, book, entry, raw, hash).value];
    hide ValidDocument, NormalChapter, Trim, Built, DocumentFingerprint;
    assert AsU32(0) == 0;
    assert AllNormalized(sourceId, book, [entry], chapters, [raw], hash) && IndexesArePositions([entry]);
    hide *;
    BuiltIds(sourceId, book, [entry], chapters, at, hash);
    BuildThenValidate(sourceId, book, [entry], chapters, [raw], at, hash);
    d := Built(sourceId, book, [entry], chapters, at, hash);
  }

  lemma NoTitleInX()
    ensures TitleEnd("x", "", "t") == None
  {
    assert Trim("t") == "t" && Trim("") == "";
    hide Trim;
    assert SkipAll("x", 0, "") == 0 && MatchTitle("x", 0, "t") == None;
  }

  predicate IndexesArePositions(toc: seq<TocEntry>) {
    forall i :: 0 <= i < |toc| ==> toc[i].index == AsU32(i)
  }

  /** A document built from chapters that were all accepted for it is accepted exactly when
      the table of contents is not empty and numbered by position, and the source id has no
      white space around it. */
  lemma BuildThenValidate(sourceId: string, book: Book, toc: seq<TocEntry>, chapters: seq<NormalizedChapter>,
                          raws: seq<string>, at: int, hash: Hash)
    requires AllNormalized(sourceId, book, toc, chapters, raws, hash)
    ensures ValidDocument(Built(sourceId, book, toc, chapters, at, hash), hash) <==>
            toc != [] && IndexesArePositions(toc) && Trim(sourceId) == sourceId
  {
    var d := Built(sourceId, book, toc, chapters, at, hash);
    forall i | 0 <= i < |toc|
      ensures Trim(sourceId) != "" && Trim(book.bookId) != ""
      ensures Fits(d, i, hash) <==> toc[i].index == AsU32(i) && Trim(sourceId) == sourceId
    {
      assert NormalChapter(sourceId, book, toc[i], raws[i], hash) == Ok(chapters[i]);
    }
    assert DocumentFingerprint(d, hash) == d.contentFingerprint;
    if toc != [] {
      assert Fits(d, 0, hash) <==> toc[0].index == AsU32(0) && Trim(sourceId) == sourceId;
      assert IndexesArePositions(toc) ==> toc[0].index == AsU32(0);
    }
  }
}
