/** Removing a chapter title that the body repeats at its start. */
module DuplicateTitle {
  import opened Text
  import opened Chapter
  import opened ChapterNormalForm

  predicate IsAsciiPunctuation(c: char) {
    '!' <= c <= '/' || ':' <= c <= '@' || '[' <= c <= '`' || '{' <= c <= '~'
  }

  /** `is_duplicate_title_prefix_separator`. */
  predicate IsSeparator(c: char) {
    || IsWhitespace(c) || IsAsciiPunctuation(c)
    || '\U{3000}' <= c <= '\U{3002}' || '\U{300A}' <= c <= '\U{3011}'
    || c == '\U{FF01}' || c == '\U{FF08}' || c == '\U{FF09}' || c == '\U{FF0C}'
    || c == '\U{FF1A}' || c == '\U{FF1B}' || c == '\U{FF1F}'
    || c == '\U{2013}' || c == '\U{2014}' || c == '\U{2026}' || c == '\U{00B7}'
  }

  const WideMarks := "\U{3000}\U{3001}\U{3002}\U{300A}\U{300B}\U{300C}\U{300D}\U{300E}\U{300F}\U{3010}\U{3011}"

  const FullWidthMarks := "\U{FF01}\U{FF08}\U{FF09}\U{FF0C}\U{FF1A}\U{FF1B}\U{FF1F}\U{2013}\U{2014}\U{2026}\U{00B7}"

  /** White space, every visible ASCII character but letters and digits, and the marks listed. */
  lemma SeparatorsAre(c: char)
    ensures IsSeparator(c) <==>
            || IsWhitespace(c) || c in WideMarks || c in FullWidthMarks
            || ('!' <= c <= '~' && !('a' <= LowerChar(c) <= 'z') && !('0' <= c <= '9'))
  {
    WideMarksAre(c);
    FullWidthMarksAre(c);
  }

  lemma WideMarksAre(c: char)
    ensures '\U{3000}' <= c <= '\U{3002}' || '\U{300A}' <= c <= '\U{3011}' <==> c in WideMarks
  {
    var n := c as int;
    if '\U{3000}' <= c <= '\U{3002}' { assert WideMarks[n - 0x3000] == c; }
    if '\U{300A}' <= c <= '\U{3011}' { assert WideMarks[n - 0x300A + 3] == c; }
  }

  lemma FullWidthMarksAre(c: char)
    ensures (c == '\U{FF01}' || c == '\U{FF08}' || c == '\U{FF09}' || c == '\U{FF0C}' || c == '\U{FF1A}' || c == '\U{FF1B}'
             || c == '\U{FF1F}' || c == '\U{2013}' || c == '\U{2014}' || c == '\U{2026}' || c == '\U{00B7}')
            <==> c in FullWidthMarks
  {
  }

  // ---------------------------------------------------------------------
  // The cursor functions
  // ---------------------------------------------------------------------

  function SkipWhite(s: string, i: nat): (j: nat)
    requires i <= |s|
    ensures i <= j <= |s| && (j == |s| || !IsWhitespace(s[j]))
    ensures forall k :: i <= k < j ==> IsWhitespace(s[k])
    decreases |s| - i
  {
    if i < |s| && IsWhitespace(s[i]) then SkipWhite(s, i + 1) else i
  }

  function SkipSeparators(s: string, i: nat): (j: nat)
    requires i <= |s|
    ensures i <= j <= |s| && (j == |s| || !IsSeparator(s[j]))
    decreases |s| - i
  {
    if i < |s| && IsSeparator(s[i]) then SkipSeparators(s, i + 1) else i
  }

  /** One round: separators, then the book title if it is there. */
  function SkipRound(s: string, i: nat, book: string): (j: nat)
    requires i <= |s|
    ensures i <= j <= |s|
  {
    var j := SkipSeparators(s, i);
    if book != "" && At(s, j, book) then j + |book| else j
  }

  /** Rounds until the cursor stands still. */
  function SkipAll(s: string, i: nat, book: string): (j: nat)
    requires i <= |s|
    ensures i <= j <= |s|
    decreases |s| - i
  {
    var j := SkipRound(s, i, book);
    if j == i then i else SkipAll(s, j, book)
  }

  /** The title taken greedily: each white-space character takes the whole run at the cursor. */
  function MatchTitle(s: string, i: nat, title: string): (r: Option<nat>)
    requires i <= |s|
    ensures r.Some? ==> i <= r.value <= |s|
    decreases |title|
  {
    if title == "" then Some(i)
    else if IsWhitespace(title[0]) then MatchTitle(s, SkipWhite(s, i), title[1..])
    else if i < |s| && s[i] == title[0] then MatchTitle(s, i + 1, title[1..])
    else None
  }

  function TitleEnd(s: string, bookTitle: string, chapterTitle: string): (r: Option<nat>)
    ensures r.Some? ==> r.value <= |s|
  {
    if Trim(chapterTitle) == "" then None
    else
      match MatchTitle(s, SkipAll(s, 0, Trim(bookTitle)), Trim(chapterTitle))
      case None => None
      case Some(e) => if e < |s| && !IsWhitespace(s[e]) then None else Some(SkipWhite(s, e))
  }

  /** `skip_duplicate_title_prefix_tokens`. */
  method SkipPrefixTokens(content: string, start: nat, bookTitle: string) returns (next: nat)
    requires start <= |content|
    ensures next == SkipRound(content, start, bookTitle)
  {
    var cursor := start;
    while cursor < |content|
      invariant start <= cursor <= |content|
      invariant SkipSeparators(content, start) == SkipSeparators(content, cursor)
    {
      if !IsSeparator(content[cursor]) { break; }
      cursor := cursor + 1;
    }
    assert cursor == SkipSeparators(content, start);
    if bookTitle != "" && cursor + |bookTitle| <= |content| && content[cursor..cursor + |bookTitle|] == bookTitle {
      return cursor + |bookTitle|;
    }
    return cursor;
  }

  /** `match_flexible_title_at`. */
  method MatchFlexibleTitleAt(content: string, start: nat, title: string) returns (r: Option<nat>)
    requires start <= |content|
    ensures r == MatchTitle(content, start, title)
  {
    var cursor := start;
    for i := 0 to |title|
      invariant start <= cursor <= |content|
      invariant MatchTitle(content, start, title) == MatchTitle(content, cursor, title[i..])
    {
      assert title[i..][0] == title[i] && title[i..][1..] == title[i + 1..];
      if IsWhitespace(title[i]) {
        ghost var run := cursor;
        while cursor < |content|
          invariant run <= cursor <= |content|
          invariant SkipWhite(content, run) == SkipWhite(content, cursor)
        {
          if !IsWhitespace(content[cursor]) { break; }
          cursor := cursor + 1;
        }
        assert cursor == SkipWhite(content, run);
      } else {
        if cursor == |content| || content[cursor] != title[i] { return None; }
        cursor := cursor + 1;
      }
    }
    r := Some(cursor);
  }

  /** `leading_duplicate_chapter_title_end`. */
  method LeadingDuplicateChapterTitleEnd(content: string, bookTitle: string, chapterTitle: string) returns (r: Option<nat>)
    ensures r == TitleEnd(content, bookTitle, chapterTitle)
  {
    var title := Trim(chapterTitle);
    if title == "" { return None; }
    var cursor := 0;
    var book := Trim(bookTitle);
    while true
      invariant cursor <= |content|
      invariant SkipAll(content, 0, book) == SkipAll(content, cursor, book)
      decreases |content| - cursor
    {
      var next := SkipPrefixTokens(content, cursor, book);
      if next == cursor { break; }
      cursor := next;
    }
    var matched := MatchFlexibleTitleAt(content, cursor, title);
    if matched.None? { return None; }
    cursor := matched.value;
    if cursor < |content| && !IsWhitespace(content[cursor]) { return None; }
    ghost var end := cursor;
    while cursor < |content|
      invariant end <= cursor <= |content|
      invariant SkipWhite(content, end) == SkipWhite(content, cursor)
    {
      if !IsWhitespace(content[cursor]) { break; }
      cursor := cursor + 1;
    }
    r := Some(cursor);
  }

  function WithoutTitle(content: string, bookTitle: string, chapterTitle: string): string {
    match TitleEnd(content, bookTitle, chapterTitle)
    case None => content
    case Some(end) => Normalized(content[end..])
  }

  /** `remove_leading_duplicate_chapter_title`. */
  method RemoveLeadingDuplicateChapterTitle(content: string, bookTitle: string, chapterTitle: string) returns (r: string)
    ensures r == WithoutTitle(content, bookTitle, chapterTitle)
  {
    var end := LeadingDuplicateChapterTitleEnd(content, bookTitle, chapterTitle);
    if end.None? { return content; }
    r := NormalizeChapterContent(content[end.value..]);
  }

  // ---------------------------------------------------------------------
  // What is found
  // ---------------------------------------------------------------------

  /** The title with each white-space character standing for any white-space run. */
  ghost predicate Reads(s: string, i: nat, title: string, j: nat)
    decreases |title|
  {
    if title == "" then i == j
    else if IsWhitespace(title[0]) then exists k :: White(s, i, k) && Reads(s, k, title[1..], j)
    else i < |s| && s[i] == title[0] && Reads(s, i + 1, title[1..], j)
  }

  predicate White(s: string, i: nat, k: nat) {
    i <= k <= |s| && forall n :: i <= n < k ==> IsWhitespace(s[n])
  }

  predicate EndsSolid(title: string) { title != "" && !IsWhitespace(title[|title| - 1]) }

  /** Starting further into a white-space run finds nothing that starting at its end does not. */
  lemma LaterStart(s: string, i: nat, k: nat, title: string)
    requires EndsSolid(title) && White(s, i, k)
    ensures MatchTitle(s, k, title).Some? ==> MatchTitle(s, SkipWhite(s, i), title) == MatchTitle(s, k, title)
  {
    SkipWhiteFrom(s, i, k);
  }

  lemma {:induction false} SkipWhiteFrom(s: string, i: nat, k: nat)
    requires White(s, i, k)
    ensures SkipWhite(s, i) == SkipWhite(s, k)
    decreases k - i
  {
    if i < k { SkipWhiteFrom(s, i + 1, k); }
  }

  /** The greedy cursor finds the title wherever a run for each white-space character would. */
  lemma {:induction false} GreedyFindsAll(s: string, i: nat, title: string, j: nat)
    requires i <= |s| && EndsSolid(title)
    ensures MatchTitle(s, i, title) == Some(j) <==> Reads(s, i, title, j)
    decreases |title|
  {
    var rest := title[1..];
    if IsWhitespace(title[0]) {
      assert EndsSolid(rest);
      GreedyFindsAll(s, SkipWhite(s, i), rest, j);
      assert White(s, i, SkipWhite(s, i));
      forall k | White(s, i, k) && Reads(s, k, rest, j)
        ensures MatchTitle(s, i, title) == Some(j)
      {
        GreedyFindsAll(s, k, rest, j);
        LaterStart(s, i, k, rest);
      }
    } else if i < |s| && s[i] == title[0] && rest != "" {
      GreedyFindsAll(s, i + 1, rest, j);
    }
  }

  /** Separators and book titles, in any order and number. */
  ghost predicate Tokens(s: string, i: nat, j: nat, book: string)
    decreases |s| - i
  {
    && i <= j <= |s|
    && (i == j
        || (IsSeparator(s[i]) && Tokens(s, i + 1, j, book))
        || (book != "" && At(s, i, book) && Tokens(s, i + |book|, j, book)))
  }

  /** Neither a separator nor the book title comes next. */
  predicate Stuck(s: string, j: nat, book: string) {
    !(j < |s| && IsSeparator(s[j])) && !(book != "" && At(s, j, book))
  }

  lemma {:induction false} TokensOfSeparators(s: string, i: nat, j: nat, book: string)
    requires i <= |s| && Tokens(s, SkipSeparators(s, i), j, book)
    ensures Tokens(s, i, j, book)
    decreases |s| - i
  {
    if i < |s| && IsSeparator(s[i]) { TokensOfSeparators(s, i + 1, j, book); }
  }

  /** What is skipped is made of separators and book titles, and nothing more can be skipped. */
  lemma {:induction false} SkippedAreTokens(s: string, i: nat, book: string)
    requires i <= |s|
    ensures Tokens(s, i, SkipAll(s, i, book), book) && Stuck(s, SkipAll(s, i, book), book)
    decreases |s| - i
  {
    var j := SkipRound(s, i, book);
    if j != i {
      SkippedAreTokens(s, j, book);
      TokensOfSeparators(s, i, SkipAll(s, j, book), book);
    }
  }

  /** The skipping goes on from any point that separators and book titles lead to, unless the
      book title itself starts with a separator. */
  lemma {:induction false} SkipPasses(s: string, i: nat, j: nat, book: string)
    requires Tokens(s, i, j, book) && (book == "" || !IsSeparator(book[0]))
    ensures SkipAll(s, i, book) == SkipAll(s, j, book)
    decreases |s| - i
  {
    if i < j {
      if IsSeparator(s[i]) && Tokens(s, i + 1, j, book) {
        SkipOneSeparator(s, i, book);
        SkipPasses(s, i + 1, j, book);
      } else {
        assert s[i] == s[i..i + |book|][0];
        SkipPasses(s, i + |book|, j, book);
      }
    }
  }

  lemma SkipOneSeparator(s: string, i: nat, book: string)
    requires i < |s| && IsSeparator(s[i])
    ensures SkipAll(s, i, book) == SkipAll(s, i + 1, book)
  {
    var j := SkipRound(s, i + 1, book);
    assert SkipRound(s, i, book) == j;
  }

  /** A repeated title at `p`: the title, then white space or the end of the text. */
  ghost predicate TitleAt(s: string, p: nat, e: nat, chapterTitle: string) {
    && p <= e <= |s|
    && Reads(s, p, Trim(chapterTitle), e)
    && (e == |s| || IsWhitespace(s[e]))
  }

  /** A repeated title that the remover sees. */
  ghost predicate Repeated(s: string, p: nat, e: nat, bookTitle: string, chapterTitle: string) {
    && Trim(chapterTitle) != ""
    && Tokens(s, 0, p, Trim(bookTitle)) && Stuck(s, p, Trim(bookTitle))
    && TitleAt(s, p, e, chapterTitle)
  }

  predicate PlainBook(bookTitle: string) {
    Trim(bookTitle) == "" || !IsSeparator(Trim(bookTitle)[0])
  }

  /** If a prefix is cut, it is separators and book titles as far as they go, the chapter
      title, and the white space after it. */
  lemma CutIsRepetition(s: string, bookTitle: string, chapterTitle: string) returns (p: nat, e: nat)
    requires TitleEnd(s, bookTitle, chapterTitle).Some?
    ensures Repeated(s, p, e, bookTitle, chapterTitle)
    ensures TitleEnd(s, bookTitle, chapterTitle) == Some(SkipWhite(s, e))
  {
    p := SkipAll(s, 0, Trim(bookTitle));
    e := MatchTitle(s, p, Trim(chapterTitle)).value;
    SkippedAreTokens(s, 0, Trim(bookTitle));
    TrimIsTrimmed(chapterTitle);
    GreedyFindsAll(s, p, Trim(chapterTitle), e);
  }

  /** With a book title that does not start with a separator, every repetition is cut, and
      cut at one place only. */
  lemma RepetitionIsCut(s: string, p: nat, e: nat, bookTitle: string, chapterTitle: string)
    requires PlainBook(bookTitle) && Repeated(s, p, e, bookTitle, chapterTitle)
    ensures TitleEnd(s, bookTitle, chapterTitle) == Some(SkipWhite(s, e))
  {
    SkipPasses(s, 0, p, Trim(bookTitle));
    StuckStays(s, p, Trim(bookTitle));
    TrimIsTrimmed(chapterTitle);
    GreedyFindsAll(s, p, Trim(chapterTitle), e);
  }

  lemma StuckStays(s: string, p: nat, book: string)
    requires p <= |s| && Stuck(s, p, book)
    ensures SkipAll(s, p, book) == p
  {
  }

  /** A book title that starts with a separator is never recognised, because separators are
      skipped before it is looked for. */
  function UsableBook(bookTitle: string): string {
    if PlainBook(bookTitle) then bookTitle else ""
  }

  lemma AtHead(s: string, i: nat, t: string)
    requires t != ""
    ensures At(s, i, t) ==> s[i] == t[0]
  {
    if At(s, i, t) { assert s[i] == s[i..i + |t|][0]; }
  }

  lemma {:induction false} SeparatorBookIsIgnored(s: string, i: nat, book: string)
    requires i <= |s| && book != "" && IsSeparator(book[0])
    ensures SkipAll(s, i, book) == SkipAll(s, i, "")
    decreases |s| - i
  {
    var j := SkipSeparators(s, i);
    AtHead(s, j, book);
    if j != i { SeparatorBookIsIgnored(s, j, book); }
  }

  /** Over every body, book and chapter title: what is cut is exactly the repetitions. */
  lemma CutExactly(s: string, bookTitle: string, chapterTitle: string, k: nat)
    ensures TitleEnd(s, bookTitle, chapterTitle) == Some(k) <==>
            exists p, e :: Repeated(s, p, e, UsableBook(bookTitle), chapterTitle) && k == SkipWhite(s, e)
  {
    var book := UsableBook(bookTitle);
    assert Trim("") == "";
    if !PlainBook(bookTitle) { SeparatorBookIsIgnored(s, 0, Trim(bookTitle)); }
    assert TitleEnd(s, bookTitle, chapterTitle) == TitleEnd(s, book, chapterTitle);
    if TitleEnd(s, book, chapterTitle).Some? {
      var p, e := CutIsRepetition(s, book, chapterTitle);
      assert Repeated(s, p, e, book, chapterTitle);
    }
    forall p, e | Repeated(s, p, e, book, chapterTitle)
      ensures TitleEnd(s, book, chapterTitle) == Some(SkipWhite(s, e))
    {
      RepetitionIsCut(s, p, e, book, chapterTitle);
    }
  }

  /** A title that starts with a separator is skipped over before it is looked for. */
  lemma SeparatorTitleNeverCut(s: string, bookTitle: string, chapterTitle: string)
    requires Trim(chapterTitle) != "" && IsSeparator(Trim(chapterTitle)[0])
    ensures TitleEnd(s, bookTitle, chapterTitle) == None
  {
    TrimIsTrimmed(chapterTitle);
    SkippedAreTokens(s, 0, Trim(bookTitle));
  }

  /** So is a title that starts with the book title. */
  lemma BookTitleInTitleNeverCut(s: string, bookTitle: string, chapterTitle: string)
    requires Trim(bookTitle) != "" && At(Trim(chapterTitle), 0, Trim(bookTitle))
    requires forall i :: 0 <= i < |Trim(bookTitle)| ==> !IsWhitespace(Trim(bookTitle)[i])
    ensures TitleEnd(s, bookTitle, chapterTitle) == None
  {
    var book, title := Trim(bookTitle), Trim(chapterTitle);
    var p := SkipAll(s, 0, book);
    SkippedAreTokens(s, 0, book);
    assert title == book + title[|book|..];
    MatchPlain(s, p, book, title[|book|..]);
  }

  lemma {:induction false} MatchPlain(s: string, i: nat, plain: string, after: string)
    requires i <= |s| && forall k :: 0 <= k < |plain| ==> !IsWhitespace(plain[k])
    ensures MatchTitle(s, i, plain + after).Some? ==> At(s, i, plain)
    decreases |plain|
  {
    if plain != "" {
      var title := plain + after;
      assert title[0] == plain[0] && title[1..] == plain[1..] + after;
      if i < |s| {
        MatchPlain(s, i + 1, plain[1..], after);
        if MatchTitle(s, i, title).Some? {
          assert s[i..i + |plain|] == [s[i]] + s[i + 1..i + 1 + |plain| - 1];
        }
      }
    }
  }

  /** Any text of the form prefix, title, white space is cut after the title, unless the title
      itself starts with a separator or the book title is what comes there. */
  lemma CutWhenInSight(s: string, p: nat, e: nat, bookTitle: string, chapterTitle: string)
    requires PlainBook(bookTitle) && Trim(chapterTitle) != ""
    requires Tokens(s, 0, p, Trim(bookTitle)) && TitleAt(s, p, e, chapterTitle)
    requires !IsSeparator(Trim(chapterTitle)[0]) && (Trim(bookTitle) == "" || !At(s, p, Trim(bookTitle)))
    ensures TitleEnd(s, bookTitle, chapterTitle) == Some(SkipWhite(s, e))
  {
    TrimIsTrimmed(chapterTitle);
    RepetitionIsCut(s, p, e, bookTitle, chapterTitle);
  }

  // ---------------------------------------------------------------------
  // What is kept
  // ---------------------------------------------------------------------

  lemma SuffixIsNormal(t: string, k: nat)
    requires NormalForm(t) && k <= |t| && (k == |t| || !IsWhitespace(t[k]))
    ensures NormalForm(t[k..])
  {
    var r := t[k..];
    forall i | 0 < i < |r| && Nl(r, i) ensures Nl(r, i - 1) || !IsWhitespace(r[i - 1]) {
      assert Nl(t, k + i) && r[i - 1] == t[k + i - 1];
      assert Nl(t, k + i - 1) || !IsWhitespace(t[k + i - 1]);
    }
    forall i | Nl(r, i) && Nl(r, i + 1) ensures 0 < i && !Nl(r, i - 1) {
      assert Nl(t, k + i) && Nl(t, k + i + 1);
      assert !Nl(t, k + i - 1);
    }
  }

  /** What remains of a normalised body is its text after the cut, character for character,
      exactly when that does not start with a byte order mark. */
  lemma KeptTextIsSuffixExactly(t: string, bookTitle: string, chapterTitle: string)
    requires NormalForm(t) && TitleEnd(t, bookTitle, chapterTitle).Some?
    ensures var k := TitleEnd(t, bookTitle, chapterTitle).value;
            WithoutTitle(t, bookTitle, chapterTitle) == t[k..] <==> k == |t| || t[k] != Bom
  {
    var k := TitleEnd(t, bookTitle, chapterTitle).value;
    SuffixIsNormal(t, k);
    if k == |t| || t[k] != Bom {
      NormalIsFixed(t[k..]);
    } else {
      StripBomShrinks(t[k..]);
      NormalizedShrinks(t[k..]);
    }
  }
}
