/** How the paragraphs of a normalised chapter body relate to its text. */
module ChapterParagraphs {
  import opened Text
  import opened Chapter
  import opened ChapterNormalForm

  // ---------------------------------------------------------------------
  // The lines of a normalised body
  // ---------------------------------------------------------------------

  lemma {:induction false} LinesOfJoin(lines: seq<string>)
    requires TidyLines(lines)
    ensures Lines(Join(lines, "\n")) == lines
  {
    if lines != [] {
      JoinOfTidy(lines);
      assert CleanLine(lines[0]);
      if |lines| > 1 {
        var rest := Join(lines[1..], "\n");
        assert Join(lines, "\n") == lines[0] + "\n" + rest;
        LinesOfJoin(lines[1..]);
        hide *;
        LinesCons(lines[0], rest);
      } else {
        hide IsWhitespace, AllButFirst;
        FirstLine(lines[0], "");
        assert lines[0] + "" == lines[0];
        LinesStep(lines[0], |lines[0]|);
      }
    }
  }

  lemma LinesCons(line: string, rest: string)
    requires CleanLine(line)
    ensures Lines(line + "\n" + rest) == [line] + Lines(rest)
  {
    var t := line + "\n" + rest;
    assert t == line + ("\n" + rest);
    FirstLine(line, "\n" + rest);
    LinesStep(t, |line|);
    assert t[..|line|] == line && t[|line| + 1..] == rest;
  }

  lemma {:induction false} FirstLine(line: string, after: string)
    requires CleanLine(line) && (after == "" || after[0] == '\n')
    ensures UpTo(line + after, '\n') == line
  {
    if line == "" {
      assert line + after == after;
    } else {
      assert (line + after)[1..] == line[1..] + after;
      FirstLine(line[1..], after);
    }
  }

  lemma {:induction false} KeptCons(line: string, lines: seq<string>)
    ensures Kept([line] + lines) == (if line == "" then [] else [line]) + Kept(lines)
  {
    var all := [line] + lines;
    if lines == [] {
      assert all[..0] == [];
    } else {
      assert all[..|all| - 1] == [line] + lines[..|lines| - 1];
      KeptCons(line, lines[..|lines| - 1]);
    }
  }

  lemma {:induction false} KeptConcat(a: seq<string>, b: seq<string>)
    ensures Kept(a + b) == Kept(a) + Kept(b)
  {
    if a == [] {
      assert a + b == b;
    } else {
      assert a + b == [a[0]] + (a[1..] + b);
      assert a == [a[0]] + a[1..];
      KeptCons(a[0], a[1..] + b);
      KeptCons(a[0], a[1..]);
      KeptConcat(a[1..], b);
    }
  }

  lemma {:induction false} KeptOfGroup(group: seq<string>)
    requires NonBlank(group)
    ensures Kept(group) == group
  {
    if group != [] { KeptOfGroup(group[..|group| - 1]); }
  }

  lemma {:induction false} FlattenCons(group: seq<string>, g: seq<seq<string>>)
    ensures Flatten([group] + g) == group + Flatten(g)
  {
    var all := [group] + g;
    if g == [] {
      assert all[..0] == [];
    } else {
      assert all[..|all| - 1] == [group] + g[..|g| - 1];
      FlattenCons(group, g[..|g| - 1]);
    }
  }

  lemma {:induction false} KeptOfSpread(g: seq<seq<string>>)
    requires ProperGroups(g)
    ensures Kept(Spread(g)) == Flatten(g)
  {
    if g != [] {
      assert Proper(g[0]);
      KeptOfGroup(g[0]);
      FlattenCons(g[0], g[1..]);
      assert [g[0]] + g[1..] == g;
      if |g| > 1 {
        var rest := Spread(g[1..]);
        assert Spread(g) == g[0] + ([""] + rest);
        KeptOfSpread(g[1..]);
        hide *;
        KeptConcat(g[0], [""] + rest);
        KeptCons("", rest);
      }
    }
  }

  /** Normalising keeps every non-blank line, in order, apart from white space at its end. */
  lemma NonBlankLinesKept(raw: string)
    ensures Kept(Lines(Normalized(raw))) == Kept(TrimLines(RawLines(raw)))
  {
    NormalizedIsGroups(raw);
    var g := RawGroups(raw);
    SpreadIsTidy(g);
    LinesOfJoin(Spread(g));
    KeptOfSpread(g);
    GroupsKeepLines(TrimLines(RawLines(raw)));
  }

  // ---------------------------------------------------------------------
  // Paragraphs are the groups
  // ---------------------------------------------------------------------

  function Bodies(g: seq<seq<string>>): seq<string> {
    seq(|g|, i requires 0 <= i < |g| => Join(g[i], "\n"))
  }

  function TrimAll(chunks: seq<string>): seq<string> {
    seq(|chunks|, i requires 0 <= i < |chunks| => Trim(chunks[i]))
  }

  /** A chunk: not empty, no blank line inside, no line break at its start, no white space
      at its end. */
  ghost predicate Chunk(p: string) {
    && p != "" && !IsWhitespace(p[|p| - 1])
    && forall i :: Nl(p, i) ==> 0 < i && !Nl(p, i - 1)
  }

  lemma {:induction false} GroupIsChunk(group: seq<string>)
    requires Proper(group)
    ensures Chunk(Join(group, "\n"))
  {
    var line, p := group[0], Join(group, "\n");
    assert CleanLine(line);
    if |group| > 1 {
      var rest := Join(group[1..], "\n");
      GroupIsChunk(group[1..]);
      assert p == line + "\n" + rest;
      forall i | Nl(p, i) ensures 0 < i && !Nl(p, i - 1) {
        assert i >= |line|;
        if i > |line| {
          assert Nl(rest, i - |line| - 1);
          assert p[i - 1] == rest[i - |line| - 2];
          assert !Nl(rest, i - |line| - 2);
        }
      }
    }
  }

  lemma {:induction false} JoinConcat(a: seq<string>, b: seq<string>, sep: string)
    requires a != [] && b != []
    ensures Join(a + b, sep) == Join(a, sep) + sep + Join(b, sep)
  {
    assert (a + b)[1..] == a[1..] + b;
    if |a| > 1 {
      JoinConcat(a[1..], b, sep);
    } else {
      assert a[1..] + b == b;
    }
  }

  lemma JoinOfSpreadStep(g: seq<seq<string>>)
    requires ProperGroups(g) && |g| > 1
    ensures Join(Spread(g), "\n") == Join(g[0], "\n") + "\n\n" + Join(Spread(g[1..]), "\n")
  {
    var rest := Spread(g[1..]);
    assert Proper(g[0]);
    SpreadIsTidy(g[1..]);
    assert Spread(g) == g[0] + ([""] + rest);
    assert g[0] != [];
    assert Join([""], "\n") == "";
    hide *;
    JoinConcat(g[0], [""] + rest, "\n");
    JoinConcat([""], rest, "\n");
    TwoBreaks(Join(g[0], "\n"), Join(rest, "\n"));
  }

  lemma TwoBreaks(a: string, b: string)
    ensures a + "\n" + ("" + "\n" + b) == a + "\n\n" + b
  {
  }

  lemma {:induction false} FirstBreakAfter(p: string, q: string)
    requires Chunk(p)
    ensures FirstBreak(p) == |p| && FirstBreak(p + "\n\n" + q) == |p|
  {
    var s := p + "\n\n" + q;
    forall i | 0 <= i < |p|
      ensures !(Nl(p, i) && Nl(p, i + 1)) && !(Nl(s, i) && Nl(s, i + 1))
    {
      assert Nl(p, i + 1) ==> !Nl(p, i + 1 - 1);
    }
    NoBreakBefore(p, |p|);
    NoBreakBefore(s, |p|);
  }

  lemma {:induction false} NoBreakBefore(s: string, n: nat)
    requires n <= |s| && forall i :: 0 <= i < n ==> !(Nl(s, i) && Nl(s, i + 1))
    requires n == |s| || (Nl(s, n) && Nl(s, n + 1))
    ensures FirstBreak(s) == n
  {
    if n > 0 {
      assert !(Nl(s, 0) && Nl(s, 0 + 1));
      var rest := s[1..];
      forall i | 0 <= i < n - 1 ensures !(Nl(rest, i) && Nl(rest, i + 1)) {
        assert !(Nl(s, i + 1) && Nl(s, i + 1 + 1));
      }
      NoBreakBefore(rest, n - 1);
    }
  }

  lemma {:induction false} ChunksOfSpread(g: seq<seq<string>>)
    requires ProperGroups(g) && g != []
    ensures Chunks(Join(Spread(g), "\n")) == Bodies(g)
  {
    var p, t := Join(g[0], "\n"), Join(Spread(g), "\n");
    assert Proper(g[0]);
    GroupIsChunk(g[0]);
    if |g| > 1 {
      var q := Join(Spread(g[1..]), "\n");
      JoinOfSpreadStep(g);
      FirstBreakAfter(p, q);
      ChunksOfSpread(g[1..]);
      assert t[..|p|] == p && t[|p| + 2..] == q;
      assert Bodies(g) == [p] + Bodies(g[1..]);
    } else {
      FirstBreakAfter(p, "");
      assert Bodies(g) == [p];
    }
  }

  lemma {:induction false} JoinOfBodies(g: seq<seq<string>>)
    requires ProperGroups(g)
    ensures Join(Spread(g), "\n") == Join(Bodies(g), "\n\n")
  {
    if |g| > 1 {
      JoinOfSpreadStep(g);
      JoinOfBodies(g[1..]);
      assert Bodies(g)[1..] == Bodies(g[1..]);
    }
  }

  lemma TrimChunk(p: string)
    requires Chunk(p)
    ensures Trim(p) != "" && |Trim(p)| <= |p|
    ensures Trim(p) == p <==> !IsWhitespace(p[0])
    ensures IsWhitespace(p[0]) ==> |Trim(p)| < |p|
  {
    TrimStartMaximal(p);
    TrimEndMaximal(TrimStart(p));
    var s := TrimStart(p);
    assert p[..|p|] == p;
    assert s != "";
    assert s[|s| - 1] == p[|p| - 1];
    assert Trim(p) == s;
  }

  lemma {:induction false} NothingFiltered(chunks: seq<string>)
    requires forall i :: 0 <= i < |chunks| ==> Chunk(chunks[i])
    ensures TrimmedChunks(chunks) == TrimAll(chunks)
  {
    if chunks != [] {
      assert Chunk(chunks[0]);
      TrimChunk(chunks[0]);
      NothingFiltered(chunks[1..]);
      assert TrimAll(chunks) == [Trim(chunks[0])] + TrimAll(chunks[1..]);
    }
  }

  lemma BodiesAreChunks(g: seq<seq<string>>)
    requires ProperGroups(g)
    ensures forall i :: 0 <= i < |g| ==> Chunk(Bodies(g)[i])
  {
    forall i | 0 <= i < |g| ensures Chunk(Bodies(g)[i]) {
      assert Proper(g[i]);
      GroupIsChunk(g[i]);
    }
  }

  /** The paragraphs of a normalised body are the groups of non-blank lines of the raw text,
      each trimmed; none is lost. */
  lemma ParagraphsAreGroups(raw: string)
    ensures SplitParagraphs(Normalized(raw)) == TrimAll(Bodies(RawGroups(raw)))
  {
    var g := RawGroups(raw);
    NormalizedIsGroups(raw);
    if g == [] {
      assert Chunks("") == [""] && TrimmedChunks([""]) == [];
    } else {
      ChunksOfSpread(g);
      BodiesAreChunks(g);
      NothingFiltered(Bodies(g));
    }
  }

  lemma {:induction false} ShorterJoin(a: seq<string>, b: seq<string>, sep: string)
    requires |a| == |b| && forall i :: 0 <= i < |a| ==> |a[i]| <= |b[i]|
    ensures |Join(a, sep)| <= |Join(b, sep)|
    ensures (exists i :: 0 <= i < |a| && |a[i]| < |b[i]|) ==> |Join(a, sep)| < |Join(b, sep)|
  {
    if |a| > 1 {
      ShorterJoin(a[1..], b[1..], sep);
      forall i | 0 < i < |a| && |a[i]| < |b[i]|
        ensures |a[1..][i - 1]| < |b[1..][i - 1]|
      {
      }
    }
  }

  /** No paragraph of the body is indented. */
  predicate NoneIndented(content: string) {
    forall c :: c in Chunks(content) ==> c == "" || !IsWhitespace(c[0])
  }

  /** Joining the paragraphs with blank lines gives the body back exactly when no paragraph
      starts with white space. */
  lemma JoinBackExactly(raw: string)
    ensures Join(SplitParagraphs(Normalized(raw)), "\n\n") == Normalized(raw) <==> NoneIndented(Normalized(raw))
  {
    var g := RawGroups(raw);
    var t, b := Normalized(raw), Bodies(g);
    NormalizedIsGroups(raw);
    ParagraphsAreGroups(raw);
    JoinOfBodies(g);
    BodiesAreChunks(g);
    TrimIndented(b);
    if g == [] {
      assert Chunks(t) == [""];
    } else {
      ChunksOfSpread(g);
    }
  }

  lemma TrimIndented(b: seq<string>)
    requires forall i :: 0 <= i < |b| ==> Chunk(b[i])
    ensures (forall c :: c in b ==> c == "" || !IsWhitespace(c[0])) <==> Join(TrimAll(b), "\n\n") == Join(b, "\n\n")
  {
    var trimmed := TrimAll(b);
    forall i | 0 <= i < |b|
      ensures |trimmed[i]| <= |b[i]| && b[i] != ""
      ensures trimmed[i] == b[i] <==> !IsWhitespace(b[i][0])
      ensures IsWhitespace(b[i][0]) ==> |trimmed[i]| < |b[i]|
    {
      assert Chunk(b[i]);
      TrimChunk(b[i]);
    }
    hide IsWhitespace, TrimAll, Chunk, Join;
    ShorterJoin(trimmed, b, "\n\n");
    assert forall i :: 0 <= i < |b| ==> b[i] in b;
    if forall c :: c in b ==> c == "" || !IsWhitespace(c[0]) { assert trimmed == b; }
  }
}
