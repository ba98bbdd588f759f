/** The normal form of chapter bodies. */
module ChapterNormalForm {
  import opened Text
  import opened Chapter

  // ---------------------------------------------------------------------
  // What the normaliser keeps: the groups of adjacent non-blank lines
  // ---------------------------------------------------------------------

  predicate NonBlank(lines: seq<string>) {
    forall i :: 0 <= i < |lines| ==> lines[i] != ""
  }

  /** Whether the next line continues the last group. */
  predicate Open(lines: seq<string>) { lines != [] && lines[|lines| - 1] != "" }

  function AddLine(g: seq<seq<string>>, open: bool, line: string): seq<seq<string>> {
    if line == "" then g
    else if open && g != [] then g[..|g| - 1] + [g[|g| - 1] + [line]]
    else g + [[line]]
  }

  /** The maximal runs of non-blank lines. */
  function Groups(lines: seq<string>): seq<seq<string>> {
    if lines == [] then []
    else
      var front := lines[..|lines| - 1];
      AddLine(Groups(front), Open(front), lines[|lines| - 1])
  }

  /** The groups with one blank line between neighbours. */
  function Spread(g: seq<seq<string>>): seq<string> {
    if g == [] then [] else if |g| == 1 then g[0] else g[0] + [""] + Spread(g[1..])
  }

  /** Non-empty groups of trimmed, non-blank lines. */
  predicate ProperGroups(g: seq<seq<string>>) {
    forall i :: 0 <= i < |g| ==> Proper(g[i])
  }

  predicate Proper(group: seq<string>) {
    group != [] && forall i :: 0 <= i < |group| ==> group[i] != "" && CleanLine(group[i])
  }

  /** No line break and no white space at the end. */
  predicate CleanLine(line: string) {
    && (forall i :: 0 <= i < |line| ==> line[i] != '\n' && line[i] != '\r')
    && (line != "" ==> !IsWhitespace(line[|line| - 1]))
  }

  predicate CleanLines(lines: seq<string>) {
    forall i :: 0 <= i < |lines| ==> CleanLine(lines[i])
  }

  lemma {:induction false} GroupsAreProper(lines: seq<string>)
    requires CleanLines(lines)
    ensures ProperGroups(Groups(lines))
  {
    if lines != [] { GroupsAreProper(lines[..|lines| - 1]); }
  }

  lemma {:induction false} SpreadSnoc(g: seq<seq<string>>, group: seq<string>)
    requires g != []
    ensures Spread(g + [group]) == Spread(g) + [""] + group
  {
    assert (g + [group])[1..] == g[1..] + [group];
    if |g| > 1 {
      SpreadSnoc(g[1..], group);
    } else {
      assert g[1..] + [group] == [group];
    }
  }

  lemma SpreadAdd(g: seq<seq<string>>, open: bool, line: string)
    requires line != ""
    ensures Spread(AddLine(g, open, line)) == Spread(g) + (if g == [] || open then [] else [""]) + [line]
  {
    if g == [] {
      assert AddLine(g, open, line) == [[line]];
    } else if open {
      var front, last := g[..|g| - 1], g[|g| - 1];
      assert g == front + [last];
      if front != [] {
        SpreadSnoc(front, last);
        SpreadSnoc(front, last + [line]);
      }
    } else {
      SpreadSnoc(g, [line]);
    }
  }

  /** A blank line at the start, or after the last group, that squeezing leaves there. */
  function Lead(lines: seq<string>): seq<string> {
    if lines != [] && lines[0] == "" then [""] else []
  }

  function Trail(lines: seq<string>): seq<string> {
    if lines != [] && !Open(lines) && Groups(lines) != [] then [""] else []
  }

  lemma {:induction false} SqueezeLast(lines: seq<string>)
    requires lines != []
    ensures Squeeze(lines) != [] && Squeeze(lines)[|Squeeze(lines)| - 1] == lines[|lines| - 1]
  {
    var rest := Squeeze(lines[..|lines| - 1]);
    assert Squeeze(lines) == rest || Squeeze(lines) == rest + [lines[|lines| - 1]];
  }

  lemma {:induction false} OpenHasGroup(lines: seq<string>)
    requires Open(lines)
    ensures Groups(lines) != []
  {
  }

  lemma {:induction false} SqueezeIsSpread(lines: seq<string>)
    ensures Squeeze(lines) == Lead(lines) + Spread(Groups(lines)) + Trail(lines)
    decreases |lines|
  {
    if lines != [] {
      var front, line := lines[..|lines| - 1], lines[|lines| - 1];
      SqueezeIsSpread(front);
      SqueezeStep(lines, front, line);
    }
  }

  lemma SqueezeStep(lines: seq<string>, front: seq<string>, line: string)
    requires lines != [] && front == lines[..|lines| - 1] && line == lines[|lines| - 1]
    requires Squeeze(front) == Lead(front) + Spread(Groups(front)) + Trail(front)
    ensures Squeeze(lines) == Lead(lines) + Spread(Groups(lines)) + Trail(lines)
  {
    var g := Groups(front);
    if front != [] { SqueezeLast(front); }
    if Open(front) { OpenHasGroup(front); }
    if line != "" {
      SpreadAdd(g, Open(front), line);
      assert Trail(lines) == [];
      assert Lead(front) == Lead(lines);
      assert Squeeze(lines) == Squeeze(front) + [line];
      assert Trail(front) == if g == [] || Open(front) then [] else [""];
      assert Groups(lines) == AddLine(g, Open(front), line);
      hide *;
      MoveLast(Lead(front), Spread(g), Trail(front), [line]);
    } else {
      assert Groups(lines) == g;
      assert Squeeze(lines) == if front != [] && !Open(front) then Squeeze(front) else Squeeze(front) + [""];
      assert Trail(lines) == if g != [] then [""] else [];
      assert Trail(front) == if g == [] || Open(front) then [] else [""];
      assert Lead(lines) == if front == [] then [""] else Lead(front);
      assert front == [] ==> g == [] && Squeeze(front) == [];
      assert Spread([]) == [];
      hide *;
    }
  }

  lemma MoveLast<T>(a: seq<T>, b: seq<T>, c: seq<T>, d: seq<T>)
    ensures a + b + c + d == a + (b + c + d) + []
  {
  }

  // ---------------------------------------------------------------------
  // Normalising is: split into groups, join with one blank line
  // ---------------------------------------------------------------------

  /** Where the groups of a text come from. */
  function RawGroups(raw: string): seq<seq<string>> { Groups(TrimLines(RawLines(raw))) }

  lemma {:induction false} NewlinesHasNoCr(s: string)
    ensures forall i :: 0 <= i < |Newlines(s)| ==> Newlines(s)[i] != '\r'
    decreases |s|
  {
    if s != "" {
      if s[0] == '\r' { NewlinesHasNoCr(if |s| > 1 && s[1] == '\n' then s[2..] else s[1..]); } else { NewlinesHasNoCr(s[1..]); }
    }
  }

  lemma TrimLinesCons(line: string, lines: seq<string>)
    requires CleanLines(TrimLines(lines)) && forall i :: 0 <= i < |line| ==> line[i] != '\n' && line[i] != '\r'
    ensures CleanLines(TrimLines([line] + lines))
  {
    TrimEndMaximal(line);
    assert TrimLines([line] + lines) == [TrimEnd(line)] + TrimLines(lines);
  }

  lemma {:induction false} LinesHaveNoBreaks(s: string)
    requires forall i :: 0 <= i < |s| ==> s[i] != '\r'
    ensures CleanLines(TrimLines(Lines(s)))
    decreases |s|
  {
    if s != "" {
      var n := |UpTo(s, '\n')|;
      LinesStep(s, n);
      hide IsWhitespace, TrimEnd, Lines, UpTo;
      if n < |s| {
        LinesHaveNoBreaks(s[n + 1..]);
        TrimLinesCons(s[..n], Lines(s[n + 1..]));
      } else {
        assert [s] + [] == [s];
        TrimLinesCons(s, []);
      }
    }
  }

  lemma RawGroupsAreProper(raw: string)
    ensures ProperGroups(RawGroups(raw))
  {
    NewlinesHasNoCr(StripBom(raw));
    LinesHaveNoBreaks(Newlines(StripBom(raw)));
    GroupsAreProper(TrimLines(RawLines(raw)));
  }

  /** Clean lines, no two blank ones adjacent, the last one not blank. */
  predicate TidyLines(lines: seq<string>) {
    && CleanLines(lines)
    && (forall i :: 0 < i < |lines| && lines[i] == "" ==> lines[i - 1] != "")
    && (lines != [] ==> lines[|lines| - 1] != "")
  }

  lemma {:induction false} SpreadIsTidy(g: seq<seq<string>>)
    requires ProperGroups(g)
    ensures TidyLines(Spread(g))
    ensures g != [] ==> Spread(g) != [] && Spread(g)[0] != ""
    ensures g == [] ==> Spread(g) == []
  {
    if g != [] {
      assert Proper(g[0]);
      if |g| > 1 { SpreadIsTidy(g[1..]); }
    }
  }

  lemma StripSpread(lines: seq<string>, lead: seq<string>, trail: seq<string>)
    requires lead == [] || lead == [""]
    requires lines == [] ==> trail == []
    requires trail == [] || trail == [""]
    requires lines != [] ==> lines[0] != "" && lines[|lines| - 1] != ""
    ensures StripBack(StripFront(lead + lines + trail)) == lines
  {
    var all := lead + lines + trail;
    if lead != [] {
      assert all[1..] == lines + trail;
      assert StripFront(all) == StripFront(lines + trail);
    } else {
      assert all == lines + trail;
    }
    assert StripFront(lines + trail) == lines + trail;
    if trail != [] {
      assert (lines + trail)[..|lines + trail| - 1] == lines;
    } else {
      assert lines + trail == lines;
    }
  }

  /** The normalised text is the groups of non-blank lines of the raw text, trimmed at their
      ends, in order, neighbours separated by exactly one blank line. */
  lemma NormalizedIsGroups(raw: string)
    ensures ProperGroups(RawGroups(raw))
    ensures Normalized(raw) == Join(Spread(RawGroups(raw)), "\n")
  {
    var lines := TrimLines(RawLines(raw));
    RawGroupsAreProper(raw);
    SpreadIsTidy(RawGroups(raw));
    SqueezeIsSpread(lines);
    StripSpread(Spread(Groups(lines)), Lead(lines), Trail(lines));
  }

  /** The non-blank lines. */
  function Kept(lines: seq<string>): seq<string> {
    if lines == [] then []
    else Kept(lines[..|lines| - 1]) + (if lines[|lines| - 1] == "" then [] else [lines[|lines| - 1]])
  }

  function Flatten(g: seq<seq<string>>): seq<string> {
    if g == [] then [] else Flatten(g[..|g| - 1]) + g[|g| - 1]
  }

  /** The groups hold the non-blank lines, all of them and in order. */
  lemma {:induction false} GroupsKeepLines(lines: seq<string>)
    ensures Flatten(Groups(lines)) == Kept(lines)
  {
    if lines != [] {
      var front, line := lines[..|lines| - 1], lines[|lines| - 1];
      GroupsKeepLines(front);
      var g := Groups(front);
      if line != "" {
        var h := AddLine(g, Open(front), line);
        if Open(front) && g != [] {
          assert h[..|h| - 1] == g[..|g| - 1];
        } else {
          assert h[..|h| - 1] == g;
        }
      }
    }
  }

  // ---------------------------------------------------------------------
  // Normal form by characters
  // ---------------------------------------------------------------------

  predicate Nl(t: string, i: int) { 0 <= i < |t| && t[i] == '\n' }

  ghost predicate AllButFirst(t: string) {
    && (forall i :: 0 <= i < |t| ==> t[i] != '\r')
    && (t != "" ==> !IsWhitespace(t[|t| - 1]))
    && (forall i :: 0 < i < |t| && Nl(t, i) ==> Nl(t, i - 1) || !IsWhitespace(t[i - 1]))
    && (forall i :: Nl(t, i) && Nl(t, i + 1) ==> 0 < i && !Nl(t, i - 1))
  }

  /** No carriage return, no white space at the end of a line, no two blank lines in a row,
      first and last lines not blank. */
  ghost predicate NormalForm(t: string) {
    AllButFirst(t) && !Nl(t, 0)
  }

  lemma {:induction false} JoinOfTidy(lines: seq<string>)
    requires TidyLines(lines)
    ensures AllButFirst(Join(lines, "\n"))
    ensures Nl(Join(lines, "\n"), 0) <==> lines != [] && lines[0] == ""
    ensures lines != [] ==> Join(lines, "\n") != ""
  {
    if |lines| > 1 {
      var rest := Join(lines[1..], "\n");
      var line := lines[0];
      assert TidyLines(lines[1..]) by {
        forall i | 0 < i < |lines[1..]| && lines[1..][i] == "" ensures lines[1..][i - 1] != "" {
          assert lines[i + 1] == "";
        }
      }
      JoinOfTidy(lines[1..]);
      assert CleanLine(line);
      ConsLine(line, rest);
    } else if |lines| == 1 {
      assert CleanLine(lines[0]);
    }
  }

  lemma ConsLine(line: string, rest: string)
    requires CleanLine(line) && AllButFirst(rest) && rest != ""
    requires line == "" ==> !Nl(rest, 0)
    ensures AllButFirst(line + "\n" + rest)
  {
    var t, n := line + "\n" + rest, |line|;
    assert t[|t| - 1] == rest[|rest| - 1];
    forall i | 0 <= i < |t| ensures t[i] != '\r' {
      if i > n { assert t[i] == rest[i - n - 1]; }
    }
    ConsLineEnds(line, rest);
    ConsLineBreaks(line, rest);
  }

  lemma ConsLineEnds(line: string, rest: string)
    requires CleanLine(line) && AllButFirst(rest)
    ensures var t := line + "\n" + rest;
            forall i :: 0 < i < |t| && Nl(t, i) ==> Nl(t, i - 1) || !IsWhitespace(t[i - 1])
  {
    hide IsWhitespace;
    var t, n := line + "\n" + rest, |line|;
    forall i | 0 < i < |t| && Nl(t, i) ensures Nl(t, i - 1) || !IsWhitespace(t[i - 1]) {
      if i > n + 1 { assert Nl(rest, i - n - 1) && t[i - 1] == rest[i - n - 2]; }
    }
  }

  lemma ConsLineBreaks(line: string, rest: string)
    requires CleanLine(line) && AllButFirst(rest)
    requires line == "" ==> !Nl(rest, 0)
    ensures var t := line + "\n" + rest;
            forall i :: Nl(t, i) && Nl(t, i + 1) ==> 0 < i && !Nl(t, i - 1)
  {
    hide IsWhitespace;
    var t, n := line + "\n" + rest, |line|;
    forall i | Nl(t, i) && Nl(t, i + 1) ensures 0 < i && !Nl(t, i - 1) {
      if i > n {
        assert Nl(rest, i - n - 1) && Nl(rest, i - n - 1 + 1);
        assert !Nl(rest, i - n - 2) && t[i - 1] == rest[i - n - 2];
      } else {
        assert i == n;
        assert t[n + 1] == rest[0];
        assert n > 0 ==> t[n - 1] == line[n - 1];
      }
    }
  }

  /** Every normalised body is in normal form. */
  lemma NormalizedIsNormal(raw: string)
    ensures NormalForm(Normalized(raw))
  {
    NormalizedIsGroups(raw);
    SpreadIsTidy(RawGroups(raw));
    JoinOfTidy(Spread(RawGroups(raw)));
  }

  // ---------------------------------------------------------------------
  // Normalising again
  // ---------------------------------------------------------------------

  lemma SplitAt(t: string, n: nat)
    requires n < |t| && t[n] == '\n'
    ensures t == t[..n] + "\n" + t[n + 1..]
  {
  }

  lemma LinesStep(t: string, n: nat)
    requires t != "" && n == |UpTo(t, '\n')|
    ensures n <= |t| && forall i :: 0 <= i < n ==> t[i] != '\n'
    ensures n < |t| ==> t[n] == '\n' && Lines(t) == [t[..n]] + Lines(t[n + 1..])
    ensures n == |t| ==> Lines(t) == [t]
  {
    UpToIsLine(t);
    var line := UpTo(t, '\n');
    assert line == t[..n];
    assert n == |t| ==> line == t;
  }

  lemma {:induction false} LinesOfNormal(t: string)
    requires AllButFirst(t)
    ensures TidyLines(Lines(t)) && Join(Lines(t), "\n") == t
    ensures t != "" ==> Lines(t) != []
    ensures Nl(t, 0) <==> Lines(t) != [] && Lines(t)[0] == ""
    decreases |t|
  {
    if t != "" {
      var n := |UpTo(t, '\n')|;
      LinesStep(t, n);
      if n < |t| {
        var line, rest := t[..n], t[n + 1..];
        LineEnds(t, n);
        LinesOfNormal(rest);
        SplitAt(t, n);
        hide *;
        TidyCons(line, Lines(rest));
      }
    }
  }

  /** What comes after a line break, and the line before it. */
  lemma LineEnds(t: string, n: nat)
    requires AllButFirst(t) && n < |t| && t[n] == '\n' && forall i :: 0 <= i < n ==> t[i] != '\n'
    ensures AllButFirst(t[n + 1..]) && t[n + 1..] != "" && CleanLine(t[..n])
    ensures n == 0 ==> !Nl(t[n + 1..], 0)
  {
    var rest := t[n + 1..];
    assert Nl(t, n);
    assert !IsWhitespace(t[|t| - 1]) && IsWhitespace(t[n]);
    forall i | 0 < i < |rest| && Nl(rest, i) ensures Nl(rest, i - 1) || !IsWhitespace(rest[i - 1]) {
      assert Nl(t, n + 1 + i) && rest[i - 1] == t[n + i];
      assert Nl(t, n + 1 + i - 1) || !IsWhitespace(t[n + 1 + i - 1]);
    }
    forall i | Nl(rest, i) && Nl(rest, i + 1) ensures 0 < i && !Nl(rest, i - 1) {
      assert Nl(t, n + 1 + i) && Nl(t, n + 1 + i + 1);
      assert !Nl(t, n + 1 + i - 1);
    }
    assert !Nl(t, n - 1);
    assert Nl(rest, 0) ==> Nl(t, n + 1);
  }

  lemma TidyCons(line: string, rest: seq<string>)
    requires CleanLine(line) && TidyLines(rest) && rest != [] && (line == "" ==> rest[0] != "")
    ensures TidyLines([line] + rest)
    ensures Join([line] + rest, "\n") == line + "\n" + Join(rest, "\n")
  {
    var all := [line] + rest;
    assert all[1..] == rest;
    forall i | 0 < i < |all| && all[i] == "" ensures all[i - 1] != "" {
      assert all[i] == rest[i - 1];
      if i > 1 { assert rest[i - 2] != ""; }
    }
  }

  lemma {:induction false} NewlinesFixed(s: string)
    requires forall i :: 0 <= i < |s| ==> s[i] != '\r'
    ensures Newlines(s) == s
  {
    if s != "" { NewlinesFixed(s[1..]); }
  }

  lemma TrimLinesFixed(lines: seq<string>)
    requires CleanLines(lines)
    ensures TrimLines(lines) == lines
  {
    forall i | 0 <= i < |lines| ensures TrimEnd(lines[i]) == lines[i] {
      assert CleanLine(lines[i]);
    }
  }

  lemma {:induction false} SqueezeFixed(lines: seq<string>)
    requires forall i :: 0 < i < |lines| && lines[i] == "" ==> lines[i - 1] != ""
    ensures Squeeze(lines) == lines
  {
    if lines != [] {
      SqueezeFixed(lines[..|lines| - 1]);
      assert lines == lines[..|lines| - 1] + [lines[|lines| - 1]];
    }
  }

  lemma TidyIsFixed(lines: seq<string>)
    requires TidyLines(lines) && (lines != [] ==> lines[0] != "")
    ensures StripBack(StripFront(Squeeze(TrimLines(lines)))) == lines
  {
    hide CleanLine, Squeeze, TrimLines, StripFront, StripBack;
    TrimLinesFixed(lines);
    SqueezeFixed(lines);
    StripSpread(lines, [], []);
    assert [] + lines + [] == lines;
  }

  /** A text in normal form is unchanged, unless it starts with a byte order mark. */
  lemma NormalIsFixed(t: string)
    requires NormalForm(t) && (t == "" || t[0] != Bom)
    ensures Normalized(t) == t
  {
    NewlinesFixed(t);
    LinesOfNormal(t);
    assert RawLines(t) == Lines(t);
    hide TidyLines, Lines, Squeeze, TrimLines, RawLines, Join, StripFront, StripBack, IsWhitespace;
    TidyIsFixed(Lines(t));
  }

  /** The number of characters with one more for the end of each line. */
  function Total(lines: seq<string>): nat {
    if lines == [] then 0 else Total(lines[..|lines| - 1]) + |lines[|lines| - 1]| + 1
  }

  lemma {:induction false} TotalCons(line: string, lines: seq<string>)
    ensures Total([line] + lines) == |line| + 1 + Total(lines)
  {
    var all := [line] + lines;
    if lines == [] {
      assert all[..0] == [];
    } else {
      assert all[..|all| - 1] == [line] + lines[..|lines| - 1];
      TotalCons(line, lines[..|lines| - 1]);
    }
  }

  lemma {:induction false} TotalOfJoin(lines: seq<string>)
    ensures lines != [] ==> |Join(lines, "\n")| + 1 == Total(lines)
  {
    if lines != [] {
      TotalCons(lines[0], lines[1..]);
      assert [lines[0]] + lines[1..] == lines;
      TotalOfJoin(lines[1..]);
    }
  }

  lemma {:induction false} TotalOfLines(s: string)
    ensures Total(Lines(s)) <= |s| + 1
    ensures s == "" ==> Lines(s) == []
    decreases |s|
  {
    if s != "" {
      UpToIsLine(s);
      var line := UpTo(s, '\n');
      if |line| < |s| {
        TotalOfLines(s[|line| + 1..]);
        TotalCons(line, Lines(s[|line| + 1..]));
        assert s[|line| + 1..] == "" ==> Total(Lines(s[|line| + 1..])) == 0;
      } else {
        TotalCons(line, []);
      }
    }
  }

  lemma {:induction false} TotalOfTrimmed(lines: seq<string>)
    ensures Total(TrimLines(lines)) <= Total(lines)
  {
    if lines != [] {
      var n := |lines| - 1;
      assert TrimLines(lines)[..n] == TrimLines(lines[..n]);
      TrimEndMaximal(lines[n]);
      TotalOfTrimmed(lines[..n]);
    }
  }

  lemma {:induction false} TotalOfSqueezed(lines: seq<string>)
    ensures Total(Squeeze(lines)) <= Total(lines)
  {
    if lines != [] {
      var n := |lines| - 1;
      TotalOfSqueezed(lines[..n]);
      var rest := Squeeze(lines[..n]);
      assert (rest + [lines[n]])[..|rest|] == rest;
    }
  }

  lemma {:induction false} TotalOfFront(lines: seq<string>)
    ensures Total(StripFront(lines)) <= Total(lines)
  {
    if lines != [] && lines[0] == "" {
      TotalCons(lines[0], lines[1..]);
      assert [lines[0]] + lines[1..] == lines;
      TotalOfFront(lines[1..]);
    }
  }

  lemma {:induction false} TotalOfBack(lines: seq<string>)
    ensures Total(StripBack(lines)) <= Total(lines)
  {
    if lines != [] && lines[|lines| - 1] == "" { TotalOfBack(lines[..|lines| - 1]); }
  }

  lemma {:induction false} NewlinesShrinks(s: string)
    ensures |Newlines(s)| <= |s|
    decreases |s|
  {
    if s != "" {
      if s[0] == '\r' { NewlinesShrinks(if |s| > 1 && s[1] == '\n' then s[2..] else s[1..]); } else { NewlinesShrinks(s[1..]); }
    }
  }

  lemma {:induction false} StripBomShrinks(s: string)
    ensures |StripBom(s)| <= |s|
    ensures s != "" && s[0] == Bom ==> |StripBom(s)| < |s|
  {
    if s != "" { StripBomShrinks(s[1..]); }
  }

  lemma NormalizedShrinks(raw: string)
    ensures |Normalized(raw)| <= |StripBom(raw)|
  {
    var lines := RawLines(raw);
    var tidy := Squeeze(TrimLines(lines));
    NewlinesShrinks(StripBom(raw));
    TotalOfLines(Newlines(StripBom(raw)));
    TotalOfTrimmed(lines);
    TotalOfSqueezed(TrimLines(lines));
    TotalOfFront(tidy);
    TotalOfBack(StripFront(tidy));
    TotalOfJoin(StripBack(StripFront(tidy)));
  }

  /** The first line that is not blank starts with a byte order mark. */
  predicate MarkedFirst(g: seq<seq<string>>) {
    g != [] && g[0] != [] && g[0][0] != "" && g[0][0][0] == Bom
  }

  lemma {:induction false} FirstOfJoin(lines: seq<string>)
    requires lines != [] && lines[0] != ""
    ensures Join(lines, "\n") != "" && Join(lines, "\n")[0] == lines[0][0]
  {
  }

  lemma MarkedResult(raw: string)
    ensures (Normalized(raw) != "" && Normalized(raw)[0] == Bom) <==> MarkedFirst(RawGroups(raw))
  {
    var g := RawGroups(raw);
    NormalizedIsGroups(raw);
    SpreadIsTidy(g);
    if g != [] {
      assert Proper(g[0]) && Spread(g)[0] == g[0][0];
      FirstOfJoin(Spread(g));
    }
  }

  /** Normalising twice is normalising once exactly when the first non-blank line of the raw
      text, behind the marks and blank lines it starts with, does not start with a byte order
      mark. */
  lemma IdempotentExactly(raw: string)
    ensures Normalized(Normalized(raw)) == Normalized(raw) <==> !MarkedFirst(RawGroups(raw))
  {
    var once := Normalized(raw);
    MarkedResult(raw);
    NormalizedIsNormal(raw);
    if once == "" || once[0] != Bom {
      NormalIsFixed(once);
    } else {
      StripBomShrinks(once);
      NormalizedShrinks(once);
    }
  }

  /** A mark behind a blank line survives the first pass and not the second. */
  lemma BomBehindBlankLine()
    ensures Normalized(['\n', Bom, 'x']) == [Bom, 'x']
    ensures Normalized([Bom, 'x']) == "x"
  {
    var raw, marked := ['\n', Bom, 'x'], [Bom, 'x'];
    NewlinesFixed(raw);
    assert raw[1..] == marked && marked[1..] == "x";
    assert UpTo("x", '\n') == "x";
    assert UpTo(marked, '\n') == marked;
    assert Lines(marked) == [marked];
    assert Lines(raw) == ["", marked];
    var lines := ["", marked];
    TrimLinesFixed(lines);
    SqueezeFixed(lines);
    assert StripFront(lines) == [marked];
    NormalIsFixed("x");
    assert StripBom(marked) == StripBom("x");
  }

  /** Any number of marks at the very start makes no difference. */
  lemma {:induction false} LeadingMarksIgnored(marks: string, raw: string)
    requires forall i :: 0 <= i < |marks| ==> marks[i] == Bom
    ensures Normalized(marks + raw) == Normalized(raw)
  {
    if marks == "" {
      assert marks + raw == raw;
    } else {
      LeadingMarksIgnored(marks[1..], raw);
      assert (marks + raw)[0] == Bom && (marks + raw)[1..] == marks[1..] + raw;
    }
  }
}
