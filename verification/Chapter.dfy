/** Chapter bodies: the line normaliser, the paragraph splitter and their normal form. */
module Chapter {
  import opened Text

  const Bom: char := '\U{FEFF}'

  // ---------------------------------------------------------------------
  // Lines
  // ---------------------------------------------------------------------

  /** `trim_start_matches` of the byte order mark. */
  function StripBom(s: string): string {
    if s != "" && s[0] == Bom then StripBom(s[1..]) else s
  }

  /** `\r\n` and then every remaining `\r` become `\n`. */
  function Newlines(s: string): string {
    if s == "" then ""
    else if s[0] == '\r' then "\n" + Newlines(if |s| > 1 && s[1] == '\n' then s[2..] else s[1..])
    else [s[0]] + Newlines(s[1..])
  }

  /** `str::lines` of a text without `\r`: a final newline ends the last line. */
  function Lines(s: string): seq<string> {
    UpToIsLine(s);
    var line := UpTo(s, '\n');
    if s == "" then []
    else if |line| == |s| then [line]
    else [line] + Lines(s[|line| + 1..])
  }

  lemma {:induction false} UpToIsLine(s: string)
    ensures UpTo(s, '\n') <= s
    ensures forall i :: 0 <= i < |UpTo(s, '\n')| ==> s[i] != '\n'
    ensures |UpTo(s, '\n')| < |s| ==> s[|UpTo(s, '\n')|] == '\n'
  {
    if s != "" && s[0] != '\n' { UpToIsLine(s[1..]); }
  }

  function TrimLines(lines: seq<string>): seq<string> {
    seq(|lines|, i requires 0 <= i < |lines| => TrimEnd(lines[i]))
  }

  /** Every run of blank lines becomes one blank line. */
  function Squeeze(lines: seq<string>): seq<string> {
    if lines == [] then []
    else
      var rest, line := Squeeze(lines[..|lines| - 1]), lines[|lines| - 1];
      if line == "" && rest != [] && rest[|rest| - 1] == "" then rest else rest + [line]
  }

  function StripFront(lines: seq<string>): seq<string> {
    if lines != [] && lines[0] == "" then StripFront(lines[1..]) else lines
  }

  function StripBack(lines: seq<string>): seq<string> {
    if lines != [] && lines[|lines| - 1] == "" then StripBack(lines[..|lines| - 1]) else lines
  }

  function RawLines(raw: string): seq<string> { Lines(Newlines(StripBom(raw))) }

  function Normalized(raw: string): string {
    Join(StripBack(StripFront(Squeeze(TrimLines(RawLines(raw))))), "\n")
  }

  lemma BlankLine(line: string)
    ensures Trim(TrimEnd(line)) == "" <==> TrimEnd(line) == ""
  {
    TrimEndMaximal(line);
    var t := TrimEnd(line);
    if t != "" {
      TrimStartMaximal(t);
      TrimEndMaximal(TrimStart(t));
      assert !IsWhitespace(t[|t| - 1]);
      assert t[..|t|] == t;
    }
  }

  /** `normalize_chapter_content`. */
  method NormalizeChapterContent(raw: string) returns (r: string)
    ensures r == Normalized(raw)
  {
    var lines := RawLines(raw);
    var output: seq<string> := [];
    var blankRun := 0;
    ghost var trimmed := TrimLines(lines);
    for i := 0 to |lines|
      invariant output == Squeeze(trimmed[..i])
      invariant blankRun > 0 <==> output != [] && output[|output| - 1] == ""
    {
      assert trimmed[..i + 1][..i] == trimmed[..i];
      BlankLine(lines[i]);
      var line := TrimEnd(lines[i]);
      if Trim(line) == "" {
        blankRun := blankRun + 1;
        if blankRun <= 1 {
          output := output + [""];
        }
      } else {
        blankRun := 0;
        output := output + [line];
      }
    }
    assert trimmed[..|lines|] == trimmed;
    while output != [] && output[0] == ""
      invariant StripFront(output) == StripFront(Squeeze(trimmed))
    {
      output := output[1..];
    }
    while output != [] && output[|output| - 1] == ""
      invariant StripBack(output) == StripBack(StripFront(Squeeze(trimmed)))
    {
      output := output[..|output| - 1];
    }
    r := Join(output, "\n");
  }

  // ---------------------------------------------------------------------
  // Paragraphs
  // ---------------------------------------------------------------------

  /** Where the first two adjacent line breaks are, the length if there are none. */
  function FirstBreak(s: string): nat {
    if s == "" || (|s| > 1 && s[0] == '\n' && s[1] == '\n') then 0 else 1 + FirstBreak(s[1..])
  }

  lemma {:induction false} FirstBreakInRange(s: string)
    ensures FirstBreak(s) == |s| || FirstBreak(s) + 2 <= |s|
  {
    if s != "" && !(|s| > 1 && s[0] == '\n' && s[1] == '\n') { FirstBreakInRange(s[1..]); }
  }

  /** `split("\n\n")`. */
  function Chunks(s: string): seq<string>
    decreases |s|
  {
    FirstBreakInRange(s);
    var n := FirstBreak(s);
    if n == |s| then [s] else [s[..n]] + Chunks(s[n + 2..])
  }

  /** The chunks trimmed, without the empty ones. */
  function TrimmedChunks(chunks: seq<string>): seq<string> {
    if chunks == [] then []
    else (if Trim(chunks[0]) == "" then [] else [Trim(chunks[0])]) + TrimmedChunks(chunks[1..])
  }

  /** `split_paragraphs`. */
  function SplitParagraphs(content: string): seq<string> { TrimmedChunks(Chunks(content)) }
}
