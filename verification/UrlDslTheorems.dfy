/** Splitting "url, {options}@js:tail" recovers its parts. */
module UrlDslTheorems {
  import opened Text
  import opened LooseJson
  import opened LooseJsonTheorems
  import opened UrlDsl

  // ---------------------------------------------------------------------
  // URLs and option texts
  // ---------------------------------------------------------------------

  /** A URL with `{{...}}` templates, texts in quotes and parts in brackets. */
  datatype Pieces =
    | End
    | Plain(c: char, rest: Pieces)
    | Template(body: string, rest: Pieces)
    | Quoted(q: char, text: string, rest: Pieces)
    | Bracketed(body: string, rest: Pieces)

  function Url(p: Pieces): string {
    match p
    case End => ""
    case Plain(c, rest) => [c] + Url(rest)
    case Template(body, rest) => "{{" + (body + ("}}" + Url(rest)))
    case Quoted(q, text, rest) => [q] + (text + ([q] + Url(rest)))
    case Bracketed(body, rest) => "[" + (body + ("]" + Url(rest)))
  }

  /** The quote flags after a text without braces. */
  function QuoteScan(t: string, scan: Scan): Scan {
    if t == "" then scan else QuoteScan(t[1..], Advance(scan, t[0]))
  }

  /** Elsewhere no quotes, brackets or single braces and no JS marker; a template holds no
      braces and only balanced quotes, a text anything but its quote, and a part in brackets
      single braces that balance, but no quotes, brackets or markers. */
  predicate Clean(p: Pieces) {
    match p
    case End => true
    case Plain(c, rest) =>
      && c != '"' && c != '\'' && c != '[' && c != ']' && c != '{' && c != '}'
      && !MarkerAt(Url(p), 0) && Clean(rest)
    case Template(body, rest) =>
      && (forall k :: 0 <= k < |body| ==> body[k] != '{' && body[k] != '}')
      && QuoteScan(body, Scan(false, false, 2)) == Scan(false, false, 2) && Clean(rest)
    case Quoted(q, text, rest) => (q == '"' || q == '\'') && q !in text && Clean(rest)
    case Bracketed(body, rest) => CleanPart(body) && Clean(rest)
  }

  predicate CleanPart(body: string) {
    && QuoteScan(body, Outside) == Outside
    && forall k :: 0 <= k < |body| ==>
         body[k] != '"' && body[k] != '\'' && body[k] != '[' && body[k] != ']' && !Twice(body, k, '{') && !MarkerAt(body, k)
  }

  /** From position `i` the scan stays inside the object until its last character. */
  predicate EnclosedFrom(t: string, i: nat, scan: Scan)
    decreases |t| - i
  {
    && i < |t|
    && if t[i] == '}' && !scan.Quoted() && scan.depth == 1 then i + 1 == |t|
       else EnclosedFrom(t, i + 1, Advance(scan, t[i]))
  }

  /** A text that opens with a single brace and closes it with its last character. */
  predicate Enclosed(t: string) {
    |t| >= 2 && t[0] == '{' && t[1] != '{' && EnclosedFrom(t, 1, Scan(false, false, 1))
  }

  /** What is written before a JS tail: a URL and blanks, or a URL, a comma, options and
      blanks. The URL may be empty. */
  datatype Written =
    | Bare(p: Pieces, end: string)
    | Full(p: Pieces, b1: string, b2: string, t: string, end: string)

  function Front(w: Written): string {
    match w
    case Bare(p, end) => Url(p) + end
    case Full(p, b1, b2, t, end) => Comma(Url(p), b1, b2, t, end)
  }

  function Comma(url: string, b1: string, b2: string, t: string, end: string): string {
    url + (b1 + ("," + (b2 + (t + end))))
  }

  predicate WellFormed(w: Written) {
    && Clean(w.p) && Trimmed(Url(w.p)) && AllWhitespace(w.end)
    && match w
       case Bare(p, end) => p == End ==> end == ""
       case Full(p, b1, b2, t, _) => AllWhitespace(b1) && AllWhitespace(b2) && Enclosed(t) && (p == End ==> b1 == "")
  }

  /** A JS tail. The tags are tags in any letter case; a script is closed by the first
      closing tag, whatever follows it, or runs to the end of the text. */
  datatype Tail =
    | NoTail
    | AtTail(marker: string, e: string)
    | Script(open: string, e: string, close: string, after: string)
    | Unclosed(open: string, e: string)

  function TailText(tail: Tail): string {
    match tail
    case NoTail => ""
    case AtTail(marker, e) => marker + e
    case Script(open, e, close, after) => open + (e + (close + after))
    case Unclosed(open, e) => open + e
  }

  predicate WellTagged(tail: Tail) {
    match tail
    case NoTail => true
    case AtTail(marker, _) => |marker| == 4 && Stands(marker, 0, AtJs)
    case Script(open, e, close, _) => |open| == 4 && Stands(open, 0, OpenTag) && ClosedBy(e, close)
    case Unclosed(open, e) => |open| == 4 && Stands(open, 0, OpenTag) && NeverCloses(e)
  }

  predicate ClosedBy(e: string, close: string) {
    && |close| == 5 && Stands(close, 0, CloseTag)
    && forall k :: 0 <= k < |e| ==> !Stands(e + close, k, CloseTag)
  }

  predicate NeverCloses(e: string) {
    forall k :: 0 <= k < |e| ==> !Stands(e, k, CloseTag)
  }

  function TailExpression(tail: Tail): Option<string> {
    if tail.NoTail? then None else Some(Trim(tail.e))
  }

  // ---------------------------------------------------------------------
  // The JS scanner
  // ---------------------------------------------------------------------

  predicate JsSkips(s: string, i: nat, j: nat) {
    i <= |s| && j <= |s| && FindJs(s, i, Outside) == FindJs(s, j, Outside)
  }

  /** Inside braces no marker counts. */
  lemma {:induction false} JsSkipsBody(s: string, i: nat, body: string, scan: Scan)
    requires At(s, i, body) && scan.depth == 2
    requires forall k :: 0 <= k < |body| ==> body[k] != '{' && body[k] != '}'
    ensures QuoteScan(body, scan).depth == 2
    ensures FindJs(s, i, scan) == FindJs(s, i + |body|, QuoteScan(body, scan))
    decreases |body|
  {
    if body != "" {
      AtHead(s, i, body);
      JsSkipsBody(s, i + 1, body[1..], Advance(scan, body[0]));
    }
  }

  lemma JsSkipsTemplate(s: string, i: nat, body: string)
    requires At(s, i, "{{") && At(s, i + 2, body) && At(s, i + 2 + |body|, "}}")
    requires forall k :: 0 <= k < |body| ==> body[k] != '{' && body[k] != '}'
    requires QuoteScan(body, Scan(false, false, 2)) == Scan(false, false, 2)
    ensures JsSkips(s, i, i + 4 + |body|)
  {
    hide At, FindJs, MarkerAt;
    var j := i + 2 + |body|;
    TwoAt(s, i, '{');
    TwoAt(s, j, '}');
    JsSkipsBody(s, i + 2, body, Scan(false, false, 2));
    JsOpens(s, i);
    JsCloses(s, j);
  }

  lemma JsOpens(s: string, i: nat)
    requires Twice(s, i, '{')
    ensures FindJs(s, i, Outside) == FindJs(s, i + 2, Scan(false, false, 2))
  {
    hide MarkerAt;
    assert FindJs(s, i, Outside) == FindJs(s, i + 1, Scan(false, false, 1));
  }

  lemma JsCloses(s: string, i: nat)
    requires Twice(s, i, '}')
    ensures FindJs(s, i, Scan(false, false, 2)) == FindJs(s, i + 2, Outside)
  {
    hide MarkerAt;
    assert FindJs(s, i, Scan(false, false, 2)) == FindJs(s, i + 1, Scan(false, false, 1));
  }

  lemma AtBound(s: string, i: nat, t: string)
    requires At(s, i, t)
    ensures i + |t| <= |s|
  {
  }

  lemma TwoAt(s: string, i: nat, c: char)
    requires At(s, i, [c, c])
    ensures Twice(s, i, c)
  {
    AtHead(s, i, [c, c]);
    AtHead(s, i + 1, [c, c][1..]);
  }

  /** The text ends at `j`, or goes on with a character that is never inside a marker. */
  predicate Boundary(s: string, j: nat) {
    j <= |s| && (j < |s| ==> IsWhitespace(s[j]) || s[j] in {',', '@', '<'})
  }

  /** A marker does not reach past the end of the URL. */
  lemma MarkerWithin(s: string, i: nat, text: string)
    requires At(s, i, text) && text != "" && MarkerAt(s, i)
    requires Boundary(s, i + |text|)
    ensures MarkerAt(text, 0)
  {
    assert |text| >= 4;
  }

  function QuotedScan(q: char): Scan { Scan(q == '"', q == '\'', 0) }

  /** Inside quotes no marker counts. */
  lemma {:induction false} JsSkipsText(s: string, i: nat, q: char, text: string)
    requires (q == '"' || q == '\'') && q !in text && At(s, i, text) && At(s, i + |text|, [q])
    ensures FindJs(s, i, QuotedScan(q)) == FindJs(s, i + |text| + 1, Outside)
    decreases |text|
  {
    hide MarkerAt;
    if text == "" {
      AtHead(s, i, [q]);
    } else {
      AtHead(s, i, text);
      JsSkipsText(s, i + 1, q, text[1..]);
    }
  }

  lemma JsSkipsQuoted(s: string, i: nat, q: char, text: string)
    requires (q == '"' || q == '\'') && q !in text
    requires At(s, i, [q]) && At(s, i + 1, text) && At(s, i + 1 + |text|, [q])
    ensures JsSkips(s, i, i + |text| + 2)
  {
    hide MarkerAt;
    AtHead(s, i, [q]);
    JsSkipsText(s, i + 1, q, text);
  }

  /** A part in brackets holds no marker, whatever the braces. */
  lemma {:induction false} JsSkipsPart(s: string, i: nat, body: string, scan: Scan)
    requires At(s, i, body) && i + |body| < |s| && s[i + |body|] == ']' && !scan.Quoted()
    requires forall k :: 0 <= k < |body| ==> body[k] != '"' && body[k] != '\'' && !MarkerAt(body, k)
    ensures !QuoteScan(body, scan).Quoted()
    ensures FindJs(s, i, scan) == FindJs(s, i + |body|, QuoteScan(body, scan))
    decreases |body|
  {
    hide MarkerAt;
    if body != "" {
      AtHead(s, i, body);
      if MarkerAt(s, i) { MarkerInPart(s, i, body); }
      forall k | 0 <= k < |body| - 1 ensures !MarkerAt(body[1..], k) { MarkerLater(body, k); }
      JsSkipsPart(s, i + 1, body[1..], Advance(scan, body[0]));
    }
  }

  lemma MarkerLater(body: string, k: nat)
    requires body != ""
    ensures MarkerAt(body[1..], k) <==> MarkerAt(body, k + 1)
  {
  }

  lemma MarkerInPart(s: string, i: nat, body: string)
    requires At(s, i, body) && body != "" && MarkerAt(s, i) && i + |body| < |s| && s[i + |body|] == ']'
    ensures MarkerAt(body, 0)
  {
    assert |body| >= 4;
  }

  lemma JsSkipsBracketed(s: string, i: nat, body: string)
    requires CleanPart(body) && At(s, i, "[") && At(s, i + 1, body) && At(s, i + 1 + |body|, "]")
    ensures JsSkips(s, i, i + |body| + 2)
  {
    AtHead(s, i, "[");
    AtHead(s, i + 1 + |body|, "]");
    JsSkipsPart(s, i + 1, body, Outside);
    BracketIsNoMarker(s, i);
    BracketIsNoMarker(s, i + 1 + |body|);
  }

  lemma BracketIsNoMarker(s: string, i: nat)
    requires i < |s| && (s[i] == '[' || s[i] == ']')
    ensures FindJs(s, i, Outside) == FindJs(s, i + 1, Outside)
  {
  }

  lemma JsSkipsPlain(s: string, i: nat)
    requires i < |s| && !MarkerAt(s, i) && s[i] != '"' && s[i] != '\'' && s[i] != '{' && s[i] != '}'
    ensures JsSkips(s, i, i + 1)
  {
    hide MarkerAt;
  }

  lemma {:induction false} JsSkipsUrl(s: string, i: nat, p: Pieces)
    requires Clean(p) && At(s, i, Url(p))
    requires Boundary(s, i + |Url(p)|)
    ensures JsSkips(s, i, i + |Url(p)|)
    decreases p
  {
    hide At, MarkerAt, FindJs, Boundary, CleanPart;
    match p
    case End =>
      AtBound(s, i, "");
    case Plain(c, rest) =>
      AtSplit(s, i, [c], Url(rest));
      AtHead(s, i, [c]);
      if MarkerAt(s, i) { MarkerWithin(s, i, Url(p)); }
      JsSkipsPlain(s, i);
      JsSkipsUrl(s, i + 1, rest);
    case Template(body, rest) =>
      AtTemplate(s, i, body, Url(rest));
      JsSkipsTemplate(s, i, body);
      JsSkipsUrl(s, i + 4 + |body|, rest);
    case Quoted(q, text, rest) =>
      AtThree(s, i, [q], text, [q], Url(rest));
      JsSkipsQuoted(s, i, q, text);
      JsSkipsUrl(s, i + 2 + |text|, rest);
    case Bracketed(body, rest) =>
      AtThree(s, i, "[", body, "]", Url(rest));
      JsSkipsBracketed(s, i, body);
      JsSkipsUrl(s, i + 2 + |body|, rest);
  }

  lemma AtTemplate(s: string, i: nat, body: string, rest: string)
    requires At(s, i, "{{" + (body + ("}}" + rest)))
    ensures At(s, i, "{{") && At(s, i + 2, body) && At(s, i + 2 + |body|, "}}") && At(s, i + 4 + |body|, rest)
  {
    AtThree(s, i, "{{", body, "}}", rest);
  }

  lemma AtThree(s: string, i: nat, a: string, b: string, c: string, rest: string)
    requires At(s, i, a + (b + (c + rest)))
    ensures At(s, i, a) && At(s, i + |a|, b) && At(s, i + |a| + |b|, c) && At(s, i + |a| + |b| + |c|, rest)
  {
    hide At;
    AtSplit(s, i, a, b + (c + rest));
    AtSplit(s, i + |a|, b, c + rest);
    AtSplit(s, i + |a| + |b|, c, rest);
  }

  lemma {:induction false} JsSkipsBlank(s: string, i: nat, blank: string)
    requires AllWhitespace(blank) && At(s, i, blank)
    ensures JsSkips(s, i, i + |blank|)
    decreases |blank|
  {
    if blank != "" {
      AtHead(s, i, blank);
      NoMarkerAtBlank(s, i);
      JsSkipsBlank(s, i + 1, blank[1..]);
    }
  }

  lemma NoMarkerAtBlank(s: string, i: nat)
    requires i < |s| && (IsWhitespace(s[i]) || s[i] == ',')
    ensures !MarkerAt(s, i) && Advance(Outside, s[i]) == Outside
  {
  }

  lemma {:induction false} JsSkipsEnclosed(s: string, at: nat, t: string, i: nat, scan: Scan)
    requires At(s, at, t) && i <= |t| && scan.depth >= 1 && EnclosedFrom(t, i, scan)
    ensures FindJs(s, at + i, scan) == FindJs(s, at + |t|, Outside)
    decreases |t| - i
  {
    var c := t[i];
    assert s[at + i] == c;
    if c == '}' && !scan.Quoted() && scan.depth == 1 {
    } else {
      JsSkipsEnclosed(s, at, t, i + 1, Advance(scan, c));
    }
  }

  /** Nothing written before a tail holds a JS marker that counts. */
  lemma JsSkipsFront(s: string, w: Written)
    requires WellFormed(w) && At(s, 0, Front(w)) && Boundary(s, |Front(w)|)
    ensures JsSkips(s, 0, |Front(w)|)
  {
    hide At, MarkerAt, Url, Clean, Boundary, FindJs;
    var i1 := |Url(w.p)|;
    match w
    case Bare(p, end) =>
      AtSplit(s, 0, Url(p), end);
      BoundaryBefore(s, i1, end);
      JsSkipsUrl(s, 0, p);
      JsSkipsBlank(s, i1, end);
    case Full(p, b1, b2, t, end) =>
      var i2 := i1 + |b1|; var i3 := i2 + 1; var i4 := i3 + |b2|;
      CoreAt(s, Url(p), b1, b2, t, end);
      AtHead(s, i2, ",");
      CommaIsBoundary(s, i2);
      BoundaryBefore(s, i1, b1);
      JsSkipsUrl(s, 0, p);
      JsSkipsBlank(s, i1, b1);
      JsSkipsBlank(s, i3, b2);
      JsSkipsOptions(s, i4, t);
      JsSkipsBlank(s, i4 + |t|, end);
  }

  lemma CommaIsBoundary(s: string, i: nat)
    requires i < |s| && s[i] == ','
    ensures Boundary(s, i) && JsSkips(s, i, i + 1)
  {
    NoMarkerAtBlank(s, i);
  }

  lemma BoundaryBefore(s: string, i: nat, b: string)
    requires AllWhitespace(b) && At(s, i, b) && Boundary(s, i + |b|)
    ensures Boundary(s, i)
  {
    if b != "" { AtHead(s, i, b); }
  }

  lemma JsSkipsOptions(s: string, i: nat, t: string)
    requires Enclosed(t) && At(s, i, t)
    ensures JsSkips(s, i, i + |t|)
  {
    AtHead(s, i, t);
    JsSkipsEnclosed(s, i, t, 1, Scan(false, false, 1));
  }

  lemma CoreAt(s: string, url: string, b1: string, b2: string, t: string, end: string)
    requires At(s, 0, url + (b1 + ("," + (b2 + (t + end)))))
    ensures var i1 := |url|; var i2 := i1 + |b1|; var i3 := i2 + 1; var i4 := i3 + |b2|;
            && At(s, 0, url) && At(s, i1, b1) && At(s, i2, ",") && At(s, i3, b2) && At(s, i4, t)
            && At(s, i4 + |t|, end)
  {
    hide At;
    AtSplit(s, 0, url, b1 + ("," + (b2 + (t + end))));
    AtSplit(s, |url|, b1, "," + (b2 + (t + end)));
    AtSplit(s, |url| + |b1|, ",", b2 + (t + end));
    AtSplit(s, |url| + |b1| + 1, b2, t + end);
    AtSplit(s, |url| + |b1| + 1 + |b2|, t, end);
  }

  // ---------------------------------------------------------------------
  // The separator scanner
  // ---------------------------------------------------------------------

  predicate SepSkips(s: string, i: nat, j: nat) {
    i <= |s| && j <= |s| && FindSeparator(s, i, SepStart) == FindSeparator(s, j, SepStart)
  }

  lemma {:induction false} SepSkipsBody(s: string, i: nat, body: string)
    requires At(s, i, body) && forall k :: 0 <= k < |body| ==> body[k] != '}'
    ensures FindSeparator(s, i, SepStart.(inTemplate := true)) ==
            FindSeparator(s, i + |body|, SepStart.(inTemplate := true))
    decreases |body|
  {
    if body != "" {
      AtHead(s, i, body);
      SepSkipsBody(s, i + 1, body[1..]);
    }
  }

  lemma SepSkipsTemplate(s: string, i: nat, body: string)
    requires At(s, i, "{{") && At(s, i + 2, body) && At(s, i + 2 + |body|, "}}")
    requires forall k :: 0 <= k < |body| ==> body[k] != '}'
    ensures SepSkips(s, i, i + 4 + |body|)
  {
    var inside, j := SepStart.(inTemplate := true), i + 2 + |body|;
    TwoAt(s, i, '{');
    TwoAt(s, j, '}');
    assert FindSeparator(s, i, SepStart) == FindSeparator(s, i + 1, inside) == FindSeparator(s, i + 2, inside);
    SepSkipsBody(s, i + 2, body);
    assert FindSeparator(s, j, inside) == FindSeparator(s, j + 1, SepStart) == FindSeparator(s, j + 2, SepStart);
  }

  predicate CommaOrEnd(s: string, i: nat) {
    i <= |s| && (i < |s| ==> s[i] == ',')
  }

  /** Inside quotes no comma counts. */
  lemma {:induction false} SepSkipsText(s: string, i: nat, q: char, text: string)
    requires (q == '"' || q == '\'') && q !in text && At(s, i, text) && At(s, i + |text|, [q])
    ensures FindSeparator(s, i, SepScan(q == '"', q == '\'', 0, false)) == FindSeparator(s, i + |text| + 1, SepStart)
    decreases |text|
  {
    if text == "" {
      AtHead(s, i, [q]);
    } else {
      AtHead(s, i, text);
      SepSkipsText(s, i + 1, q, text[1..]);
    }
  }

  lemma SepSkipsQuoted(s: string, i: nat, q: char, text: string)
    requires (q == '"' || q == '\'') && q !in text
    requires At(s, i, [q]) && At(s, i + 1, text) && At(s, i + 1 + |text|, [q])
    ensures SepSkips(s, i, i + |text| + 2)
  {
    AtHead(s, i, [q]);
    SepSkipsText(s, i + 1, q, text);
  }

  /** Nor does one inside brackets, even before a brace. */
  lemma {:induction false} SepSkipsPart(s: string, i: nat, body: string)
    requires At(s, i, body) && i + |body| < |s| && s[i + |body|] == ']'
    requires forall k :: 0 <= k < |body| ==>
               body[k] != '"' && body[k] != '\'' && body[k] != '[' && body[k] != ']' && !Twice(body, k, '{')
    ensures FindSeparator(s, i, SepScan(false, false, 1, false)) ==
            FindSeparator(s, i + |body|, SepScan(false, false, 1, false))
    decreases |body|
  {
    hide OpensOptions;
    if body != "" {
      AtHead(s, i, body);
      assert !Twice(body, 0, '{');
      assert !Twice(s, i, '{') by { if |body| > 1 { AtHead(s, i + 1, body[1..]); } }
      forall k | 0 <= k < |body| - 1 ensures !Twice(body[1..], k, '{') { assert !Twice(body, k + 1, '{'); }
      SepSkipsPart(s, i + 1, body[1..]);
    }
  }

  lemma SepSkipsBracketed(s: string, i: nat, body: string)
    requires CleanPart(body) && At(s, i, "[") && At(s, i + 1, body) && At(s, i + 1 + |body|, "]")
    ensures SepSkips(s, i, i + |body| + 2)
  {
    AtHead(s, i, "[");
    AtHead(s, i + 1 + |body|, "]");
    SepSkipsPart(s, i + 1, body);
  }

  /** What follows a comma of the URL is not a single brace: the rest of the URL starts a
      template, starts otherwise, or is blank up to the separator or the end. */
  lemma {:induction false} NoOptionsInUrl(s: string, i: nat, p: Pieces, b1: string)
    requires Clean(p) && AllWhitespace(b1) && At(s, i, Url(p)) && At(s, i + |Url(p)|, b1)
    requires CommaOrEnd(s, i + |Url(p)| + |b1|)
    ensures !OpensOptions(s, i)
    decreases p
  {
    match p
    case End =>
      NoOptionsInBlank(s, i, b1);
    case Plain(c, rest) =>
      AtSplit(s, i, [c], Url(rest));
      AtHead(s, i, [c]);
      NoOptionsInUrl(s, i + 1, rest, b1);
    case Template(body, rest) =>
      AtTemplate(s, i, body, Url(rest));
      TwoAt(s, i, '{');
    case Quoted(q, text, rest) =>
      AtHead(s, i, Url(p));
    case Bracketed(body, rest) =>
      AtHead(s, i, Url(p));
  }

  lemma {:induction false} NoOptionsInBlank(s: string, i: nat, b: string)
    requires AllWhitespace(b) && At(s, i, b) && CommaOrEnd(s, i + |b|)
    ensures !OpensOptions(s, i)
    decreases |b|
  {
    if b != "" {
      AtHead(s, i, b);
      NoOptionsInBlank(s, i + 1, b[1..]);
    }
  }

  lemma SepSkipsPlain(s: string, i: nat)
    requires i < |s| && !OpensOptions(s, i + 1)
    requires s[i] != '"' && s[i] != '\'' && s[i] != '[' && s[i] != ']' && s[i] != '{'
    ensures SepSkips(s, i, i + 1)
  {
    hide OpensOptions;
  }

  /** The first piece alone. */
  function Head(p: Pieces): string
    requires p != End
  {
    match p
    case Plain(c, _) => [c]
    case Template(body, _) => "{{" + (body + "}}")
    case Quoted(q, text, _) => [q] + (text + [q])
    case Bracketed(body, _) => "[" + (body + "]")
  }

  lemma HeadFirst(p: Pieces)
    requires p != End
    ensures Url(p) == Head(p) + Url(p.rest)
  {
  }

  lemma SepSkipsHead(s: string, i: nat, p: Pieces)
    requires p != End && Clean(p) && At(s, i, Head(p)) && (p.Plain? ==> !OpensOptions(s, i + 1))
    ensures SepSkips(s, i, i + |Head(p)|)
  {
    hide At, OpensOptions, SepSkips, FindSeparator, CleanPart, MarkerAt, QuoteScan, Url;
    match p
    case Plain(c, _) =>
      AtHead(s, i, [c]);
      SepSkipsPlain(s, i);
    case Template(body, _) =>
      SepSkipsTemplateText(s, i, body);
    case Quoted(q, text, _) =>
      SepSkipsQuotedText(s, i, q, text);
    case Bracketed(body, _) =>
      SepSkipsBracketedText(s, i, body);
  }

  lemma SepSkipsTemplateText(s: string, i: nat, body: string)
    requires At(s, i, "{{" + (body + "}}")) && forall k :: 0 <= k < |body| ==> body[k] != '}'
    ensures SepSkips(s, i, i + |"{{" + (body + "}}")|)
  {
    hide *;
    AtSplit(s, i, "{{", body + "}}");
    AtSplit(s, i + 2, body, "}}");
    SepSkipsTemplate(s, i, body);
  }

  lemma SepSkipsQuotedText(s: string, i: nat, q: char, text: string)
    requires (q == '"' || q == '\'') && q !in text && At(s, i, [q] + (text + [q]))
    ensures SepSkips(s, i, i + |[q] + (text + [q])|)
  {
    hide *;
    AtSplit(s, i, [q], text + [q]);
    AtSplit(s, i + 1, text, [q]);
    SepSkipsQuoted(s, i, q, text);
  }

  lemma SepSkipsBracketedText(s: string, i: nat, body: string)
    requires CleanPart(body) && At(s, i, "[" + (body + "]"))
    ensures SepSkips(s, i, i + |"[" + (body + "]")|)
  {
    hide *;
    AtSplit(s, i, "[", body + "]");
    AtSplit(s, i + 1, body, "]");
    SepSkipsBracketed(s, i, body);
  }

  lemma {:induction false} SepSkipsUrl(s: string, i: nat, p: Pieces, b1: string)
    requires Clean(p) && AllWhitespace(b1) && At(s, i, Url(p)) && At(s, i + |Url(p)|, b1)
    requires CommaOrEnd(s, i + |Url(p)| + |b1|)
    ensures SepSkips(s, i, i + |Url(p)|)
    decreases p
  {
    hide At, OpensOptions, FindSeparator, CommaOrEnd, CleanPart, AllWhitespace, MarkerAt, Head;
    AtBound(s, i, Url(p));
    if p != End {
      HeadFirst(p);
      AtSplit(s, i, Head(p), Url(p.rest));
      if p.Plain? {
        assert Head(p) == [p.c] by { PlainHead(p); }
        NoOptionsInUrl(s, i + 1, p.rest, b1);
      }
      hide Url;
      SepSkipsHead(s, i, p);
      SepSkipsUrl(s, i + |Head(p)|, p.rest, b1);
    }
  }

  lemma PlainHead(p: Pieces)
    requires p.Plain?
    ensures Head(p) == [p.c]
  {
  }

  lemma {:induction false} SepSkipsBlank(s: string, i: nat, blank: string)
    requires AllWhitespace(blank) && At(s, i, blank)
    ensures SepSkips(s, i, i + |blank|)
    decreases |blank|
  {
    if blank != "" {
      AtHead(s, i, blank);
      SepSkipsBlank(s, i + 1, blank[1..]);
    }
  }

  lemma {:induction false} BlankThenOptions(s: string, i: nat, b: string, t: string)
    requires AllWhitespace(b) && At(s, i, b) && At(s, i + |b|, t) && Enclosed(t)
    ensures OpensOptions(s, i)
    decreases |b|
  {
    if b == "" {
      AtHead(s, i, t);
      AtHead(s, i + 1, t[1..]);
    } else {
      AtHead(s, i, b);
      BlankThenOptions(s, i + 1, b[1..], t);
    }
  }

  /** The separator found is the comma written, past every template. */
  lemma SeparatorFound(w: Written)
    requires WellFormed(w) && w.Full?
    ensures FindSeparator(Front(w), 0, SepStart) == Some(|Url(w.p)| + |w.b1|)
  {
    hide At, OpensOptions, Url, Clean, Enclosed;
    var s, i1 := Front(w), |Url(w.p)|;
    var i2 := i1 + |w.b1|;
    AtAll(s);
    CoreAt(s, Url(w.p), w.b1, w.b2, w.t, w.end);
    AtHead(s, i2, ",");
    SepSkipsUrl(s, 0, w.p, w.b1);
    SepSkipsBlank(s, i1, w.b1);
    BlankThenOptions(s, i2 + 1, w.b2, w.t);
  }

  /** No separator is found in a URL alone. */
  lemma NoSeparatorFound(w: Written)
    requires WellFormed(w) && w.Bare?
    ensures FindSeparator(Front(w), 0, SepStart) == None
  {
    hide At, OpensOptions, Url, Clean;
    var s, i1 := Front(w), |Url(w.p)|;
    AtAll(s);
    AtSplit(s, 0, Url(w.p), w.end);
    SepSkipsUrl(s, 0, w.p, w.end);
    SepSkipsBlank(s, i1, w.end);
  }

  // ---------------------------------------------------------------------
  // Splitting off the tail
  // ---------------------------------------------------------------------

  lemma {:induction false} EnclosedEnds(t: string, i: nat, scan: Scan)
    requires EnclosedFrom(t, i, scan)
    ensures t[|t| - 1] == '}'
    decreases |t| - i
  {
    if !(t[i] == '}' && !scan.Quoted() && scan.depth == 1) {
      EnclosedEnds(t, i + 1, Advance(scan, t[i]));
    }
  }

  lemma {:induction false} UpToFound(a: string, b: string, c: char)
    requires c in a
    ensures UpTo(a + b, c) == UpTo(a, c)
  {
    assert (a + b)[0] == a[0];
    if a[0] != c {
      assert (a + b)[1..] == a[1..] + b;
      UpToFound(a[1..], b, c);
    }
  }

  lemma {:induction false} FirstAt(s: string, i: nat, j: nat, p: Pattern)
    requires i <= j <= |s| && (j == |s| || Stands(s, j, p)) && forall k :: i <= k < j ==> !Stands(s, k, p)
    ensures First(s, i, p) == j
    decreases j - i
  {
    if i < j { FirstAt(s, i + 1, j, p); }
  }

  lemma StandsThere(s: string, i: nat, t: string, k: nat, p: Pattern)
    requires At(s, i, t) && k + 5 <= |t|
    ensures Stands(s, i + k, p) <==> Stands(t, k, p)
  {
    assert s[i + k] == t[k] && s[i + (k + 1)] == t[k + 1] && s[i + (k + 2)] == t[k + 2]
           && s[i + (k + 3)] == t[k + 3] && s[i + (k + 4)] == t[k + 4];
  }

  lemma ClosesAt(s: string, i: nat, e: string, close: string, after: string)
    requires i <= |s| && s[i..] == e + (close + after) && ClosedBy(e, close)
    ensures First(s, i, CloseTag) == i + |e|
  {
    assert forall k :: 0 <= k < |e + close| ==> s[i + k] == s[i..][k] == (e + close)[k];
    assert At(s, i, e + close);
    hide At;
    forall k | i <= k <= i + |e| ensures Stands(s, k, CloseTag) <==> k == i + |e| {
      StandsThere(s, i, e + close, k - i, CloseTag);
      if k == i + |e| { TagAtEnd(e, close); }
    }
    FirstAt(s, i, i + |e|, CloseTag);
  }

  lemma TagAtEnd(e: string, close: string)
    requires |close| == 5 && Stands(close, 0, CloseTag)
    ensures Stands(e + close, |e|, CloseTag)
  {
    var t, n := e + close, |e|;
    assert t[n] == close[0] && t[n + 1] == close[1] && t[n + 2] == close[2] && t[n + 3] == close[3] && t[n + 4] == close[4];
  }

  lemma RunsToEnd(s: string, i: nat, e: string)
    requires i <= |s| && s[i..] == e && NeverCloses(e)
    ensures First(s, i, CloseTag) == |s|
  {
    forall k | i <= k < |s| ensures !Stands(s, k, CloseTag) {
      assert forall m :: 0 <= m < |e| ==> s[i + m] == e[m];
      if Stands(s, k, CloseTag) {
        StandsThere(s, i, e, k - i, CloseTag);
      }
    }
    FirstAt(s, i, |s|, CloseTag);
  }

  /** The marker of a tail is where it was put, and is the first that counts. */
  lemma FindsTail(w: Written, marker: string, rest: string, kind: Pattern)
    requires WellFormed(w) && |marker| == 4 && Stands(marker, 0, kind) && kind != CloseTag
    ensures var front := Front(w); var s := front + (marker + rest);
            FindJs(s, 0, Outside) == Some(|front|) && Stands(s, |front|, kind) && s[..|front|] == front && s[|front| + 4..] == rest
  {
    var front := Front(w);
    var s, i := front + (marker + rest), |front|;
    assert At(s, 0, front);
    hide Front, At, WellFormed;
    assert s[i] == marker[0] && s[i + 1] == marker[1] && s[i + 2] == marker[2] && s[i + 3] == marker[3];
    JsSkipsFront(s, w);
  }

  /** Exactly the tail is split off, and without a tail nothing is. */
  lemma SplitWritten(w: Written, tail: Tail)
    requires WellFormed(w) && WellTagged(tail)
    ensures SplitJs(Front(w) + TailText(tail)) == (Front(w), TailExpression(tail))
  {
    hide Front, At, WellFormed, FindJs, Trim, ClosedBy, NeverCloses, First, SplitJs;
    var s := Front(w) + TailText(tail);
    match tail
    case NoTail =>
      assert s == Front(w);
      AtAll(s);
      JsSkipsFront(s, w);
      NothingSplit(s);
    case AtTail(marker, e) =>
      FindsTail(w, marker, e, AtJs);
      SplitAt(s, |Front(w)|);
    case Script(open, e, close, after) =>
      FindsTail(w, open, e + (close + after), OpenTag);
      SplitScript(s, |Front(w)|, e, close, after);
    case Unclosed(open, e) =>
      FindsTail(w, open, e, OpenTag);
      SplitUnclosed(s, |Front(w)|, e);
  }

  lemma NothingSplit(s: string)
    requires JsSkips(s, 0, |s|)
    ensures SplitJs(s) == (s, None)
  {
  }

  lemma SplitAt(s: string, i: nat)
    requires FindJs(s, 0, Outside) == Some(i) && Stands(s, i, AtJs)
    ensures SplitJs(s) == (s[..i], Some(Trim(s[i + 4..])))
  {
  }

  lemma SplitScript(s: string, i: nat, e: string, close: string, after: string)
    requires FindJs(s, 0, Outside) == Some(i) && Stands(s, i, OpenTag) && s[i + 4..] == e + (close + after) && ClosedBy(e, close)
    ensures SplitJs(s) == (s[..i], Some(Trim(e)))
  {
    hide FindJs, Trim, First, ClosedBy;
    ClosesAt(s, i + 4, e, close, after);
    assert s[i + 4..i + 4 + |e|] == s[i + 4..][..|e|] == e;
  }

  lemma SplitUnclosed(s: string, i: nat, e: string)
    requires FindJs(s, 0, Outside) == Some(i) && Stands(s, i, OpenTag) && s[i + 4..] == e && NeverCloses(e)
    ensures SplitJs(s) == (s[..i], Some(Trim(e)))
  {
    hide FindJs, Trim, First, NeverCloses;
    RunsToEnd(s, i + 4, e);
    assert s[i + 4..|s|] == e;
  }

  // ---------------------------------------------------------------------
  // White space around the text
  // ---------------------------------------------------------------------

  /** White space at the end of the whole text belongs to the last part of its tail. */
  lemma TrimWithTail(front: string, tail: string, last: string)
    requires tail != "" && !IsWhitespace(tail[|tail| - 1])
    requires if front == "" then !IsWhitespace(tail[0]) else !IsWhitespace(front[0])
    ensures Trim(front + (tail + last)) == front + (tail + TrimEnd(last))
  {
    TrimEndMaximal(last);
    hide IsWhitespace, TrimEnd, TrimStart;
    var end := TrimEnd(last);
    var s, after := front + (tail + end), last[|end|..];
    assert last == end + after;
    assert s[|s| - 1] == if end == "" then tail[|tail| - 1] else end[|end| - 1];
    assert s[0] == if front == "" then tail[0] else front[0];
    assert Trimmed(s);
    hide *;
    assert front + (tail + last) == "" + s + after;
    TrimPadded("", s, after);
  }

  /** The tail without the white space at its end. */
  function TrimTail(tail: Tail): Tail {
    match tail
    case NoTail => NoTail
    case AtTail(marker, e) => AtTail(marker, TrimEnd(e))
    case Script(open, e, close, after) => Script(open, e, close, TrimEnd(after))
    case Unclosed(open, e) => Unclosed(open, TrimEnd(e))
  }

  lemma TrimTailKeeps(tail: Tail)
    requires WellTagged(tail)
    ensures WellTagged(TrimTail(tail)) && TailExpression(TrimTail(tail)) == TailExpression(tail)
  {
    hide Trim, Stands, TrimEnd;
    match tail
    case NoTail =>
    case AtTail(_, e) => TrimAfterTrimEnd(e);
    case Script(_, _, _, _) =>
    case Unclosed(_, e) =>
      TrimAfterTrimEnd(e);
      TrimEndMaximal(e);
      ShorterNeverCloses(TrimEnd(e), e);
  }

  lemma ShorterNeverCloses(a: string, b: string)
    requires a <= b && NeverCloses(b)
    ensures NeverCloses(a)
  {
    forall k | 0 <= k < |a| ensures !Stands(a, k, CloseTag) {
      assert !Stands(b, k, CloseTag);
    }
  }

  lemma FrontEnds(w: Written)
    requires WellFormed(w)
    ensures var s := Front(w); s != "" ==> !IsWhitespace(s[0]) && (w.end == "" ==> !IsWhitespace(s[|s| - 1]))
  {
    var s := Front(w);
    if w.p != End { assert Url(w.p) != "" && s[0] == Url(w.p)[0]; }
    match w
    case Bare(p, end) =>
      if end == "" { assert s == Url(p); }
    case Full(p, _, _, t, end) =>
      if p == End { assert s[0] == ','; }
      EnclosedEnds(t, 1, Scan(false, false, 1));
      if end == "" { assert s[|s| - 1] == t[|t| - 1]; }
  }

  lemma TrimWritten(w: Written, tail: Tail)
    requires WellFormed(w) && WellTagged(tail) && (tail.NoTail? ==> w.end == "")
    ensures Trim(Front(w) + TailText(tail)) == Front(w) + TailText(TrimTail(tail))
  {
    FrontEnds(w);
    hide Front, WellFormed, Trim, TrimEnd;
    match tail
    case NoTail =>
      assert Front(w) + "" == Front(w);
      TrimOfTrimmed(Front(w));
    case AtTail(marker, e) =>
      TrimWithTail(Front(w), marker, e);
    case Script(open, e, close, after) =>
      TrimWithScript(Front(w), open, e, close, after);
    case Unclosed(open, e) =>
      TrimWithTail(Front(w), open, e);
  }

  lemma TrimWithScript(front: string, open: string, e: string, close: string, after: string)
    requires |open| == 4 && Stands(open, 0, OpenTag) && |close| == 5 && Stands(close, 0, CloseTag)
    requires front == "" || !IsWhitespace(front[0])
    ensures Trim(front + (open + (e + (close + after)))) == front + (open + (e + (close + TrimEnd(after))))
  {
    hide Trim, TrimEnd;
    var tail := open + (e + close);
    assert tail[0] == open[0] && tail[|tail| - 1] == close[4];
    ScriptParts(open, e, close, after);
    ScriptParts(open, e, close, TrimEnd(after));
    TrimWithTail(front, tail, after);
  }

  lemma ScriptParts(open: string, e: string, close: string, after: string)
    ensures open + (e + (close + after)) == (open + (e + close)) + after
  {
  }

  // ---------------------------------------------------------------------
  // The legacy form "METHOD,url"
  // ---------------------------------------------------------------------

  /** `s` and `t` agree but for the case of ASCII letters. */
  predicate SameLetters(s: string, t: string) {
    |s| == |t| && forall k :: 0 <= k < |s| ==> LowerChar(s[k]) == LowerChar(t[k])
  }

  /** Exactly the seven method names count, in any letter case, and only before a comma. */
  lemma LegacyMethods(b1: string, m: string, b2: string, rest: string)
    requires AllWhitespace(b1) && AllWhitespace(b2) && Trimmed(m) && ',' !in m
    ensures HasLegacyMethodPrefix(b1 + m + b2 + ("," + rest)) <==>
            exists name :: name in {"GET", "POST", "PUT", "DELETE", "PATCH", "HEAD", "OPTIONS"} && SameLetters(m, name)
    ensures !HasLegacyMethodPrefix(b1 + m + b2)
  {
    LegacyAt(b1, m, b2, rest);
    hide HasLegacyMethodPrefix, Upper, SameLetters;
    forall name | name in {"GET", "POST", "PUT", "DELETE", "PATCH", "HEAD", "OPTIONS"}
      ensures Upper(m) == name <==> SameLetters(m, name)
    {
      UpperIs(m, name);
    }
    var upper := Upper(m);
    if upper in {"GET", "POST", "PUT", "DELETE", "PATCH", "HEAD", "OPTIONS"} { assert SameLetters(m, upper); }
  }

  lemma LegacyAt(b1: string, m: string, b2: string, rest: string)
    requires AllWhitespace(b1) && AllWhitespace(b2) && Trimmed(m) && ',' !in m
    ensures HasLegacyMethodPrefix(b1 + m + b2 + ("," + rest)) <==>
            Upper(m) in {"GET", "POST", "PUT", "DELETE", "PATCH", "HEAD", "OPTIONS"}
    ensures !HasLegacyMethodPrefix(b1 + m + b2)
  {
    var s, tail := b1 + m + b2, "," + rest;
    assert (s + tail)[|s|] == ',';
    assert ',' !in s;
    UpToStops(s, tail, ',');
    TrimPadded(b1, m, b2);
  }

  lemma UpperIs(m: string, name: string)
    requires forall k :: 0 <= k < |name| ==> 'A' <= name[k] <= 'Z'
    ensures Upper(m) == name <==> SameLetters(m, name)
  {
    if SameLetters(m, name) {
      assert forall k :: 0 <= k < |m| ==> LowerChar(m[k]) == LowerChar(name[k]) ==> Upper(m)[k] == name[k];
    }
    if Upper(m) == name {
      assert forall k :: 0 <= k < |m| ==> Upper(m)[k] == name[k];
    }
  }

  /** Blanks before the comma do not make a method name. */
  lemma LegacyPrefixIgnoresBlank(url: string, blank: string, rest: string)
    requires Trimmed(url) && AllWhitespace(blank)
    ensures HasLegacyMethodPrefix(url + (blank + ("," + rest))) <==> HasLegacyMethodPrefix(url + ",")
  {
    hide Upper, Trim, UpTo;
    var long, short := url + (blank + ("," + rest)), url + ",";
    assert long[|url| + |blank|] == ',' && short[|url|] == ',';
    if ',' in url {
      UpToFound(url, blank + ("," + rest), ',');
      UpToFound(url, ",", ',');
    } else {
      assert long == (url + blank) + ("," + rest);
      UpToStops(url + blank, "," + rest, ',');
      UpToStops(url, ",", ',');
      TrimPadded("", url, blank);
      TrimOfTrimmed(url);
      assert "" + url + blank == url + blank;
    }
  }

  // ---------------------------------------------------------------------
  // JS inside the URL itself
  // ---------------------------------------------------------------------

  /** The three marks, in any letter case. */
  lemma MarksAre(s: string, i: nat)
    ensures Stands(s, i, AtJs) <==> i + 4 <= |s| && SameLetters(s[i..i + 4], "@js:")
    ensures Stands(s, i, OpenTag) <==> i + 4 <= |s| && SameLetters(s[i..i + 4], "<js>")
    ensures Stands(s, i, CloseTag) <==> i + 5 <= |s| && SameLetters(s[i..i + 5], "</js>")
  {
    if i + 4 <= |s| {
      FourAre(s, i, "@js:");
      FourAre(s, i, "<js>");
    }
    if i + 5 <= |s| {
      FourAre(s, i, "</js>"[..4]);
      assert SameLetters(s[i..i + 5], "</js>") <==>
             SameLetters(s[i..i + 4], "</js>"[..4]) && LowerChar(s[i + 4]) == '>' by { FiveAre(s, i); }
    }
  }

  lemma FourAre(s: string, i: nat, t: string)
    requires i + 4 <= |s| && |t| == 4
    ensures SameLetters(s[i..i + 4], t) <==>
            && LowerChar(s[i]) == LowerChar(t[0]) && LowerChar(s[i + 1]) == LowerChar(t[1])
            && LowerChar(s[i + 2]) == LowerChar(t[2]) && LowerChar(s[i + 3]) == LowerChar(t[3])
  {
    var u := s[i..i + 4];
    assert u[0] == s[i] && u[1] == s[i + 1] && u[2] == s[i + 2] && u[3] == s[i + 3];
  }

  lemma FiveAre(s: string, i: nat)
    requires i + 5 <= |s|
    ensures SameLetters(s[i..i + 5], "</js>") <==>
            SameLetters(s[i..i + 4], "</js>"[..4]) && LowerChar(s[i + 4]) == '>'
  {
    var u, t := s[i..i + 5], "</js>";
    assert u[..4] == s[i..i + 4] && u[4] == s[i + 4];
    assert forall k :: 0 <= k < 4 ==> u[k] == u[..4][k] && t[k] == t[..4][k];
    if SameLetters(u, t) { assert SameLetters(u[..4], t[..4]) && LowerChar(u[4]) == LowerChar(t[4]); }
  }

  predicate Occurs(url: string, p: Pattern) {
    exists i :: 0 <= i < |url| && Stands(url, i, p)
  }

  predicate FirstIs(url: string, i: nat, p: Pattern) {
    i < |url| && Stands(url, i, p) && forall k :: 0 <= k < i ==> !Stands(url, k, p)
  }

  predicate LastIs(url: string, i: nat, p: Pattern) {
    i < |url| && Stands(url, i, p) && forall k :: i < k < |url| ==> !Stands(url, k, p)
  }

  lemma {:induction false} LastAt(s: string, i: nat, j: nat, p: Pattern)
    requires j < i <= |s| && Stands(s, j, p) && forall k :: j < k < i ==> !Stands(s, k, p)
    ensures Last(s, i, p) == Some(j)
    decreases i
  {
    if j < i - 1 { LastAt(s, i - 1, j, p); }
  }

  lemma {:induction false} LastNone(s: string, i: nat, p: Pattern)
    requires i <= |s| && forall k :: 0 <= k < i ==> !Stands(s, k, p)
    ensures Last(s, i, p) == None
  {
    if i > 0 { LastNone(s, i - 1, p); }
  }

  /** All that follows the first `@js:` counts; failing one, what stands between the first
      `<js>` and the last `</js>`, if in that order; failing that, nothing. */
  lemma ClassifyLaws(url: string)
    ensures forall i: nat :: FirstIs(url, i, AtJs) ==> Classify(url) == (Some(Trim(url[i + 4..])), RequiresJsSandbox)
    ensures forall i: nat, j: nat :: !Occurs(url, AtJs) && FirstIs(url, i, OpenTag) && LastIs(url, j, CloseTag) ==>
              Classify(url) == if i + 4 <= j then (Some(Trim(url[i + 4..j])), RequiresJsSandbox) else (None, NoJs)
    ensures !Occurs(url, AtJs) && (!Occurs(url, OpenTag) || !Occurs(url, CloseTag)) ==> Classify(url) == (None, NoJs)
  {
    hide Trim;
    forall i: nat | FirstIs(url, i, AtJs) ensures Classify(url) == (Some(Trim(url[i + 4..])), RequiresJsSandbox) {
      FirstAt(url, 0, i, AtJs);
    }
    if !Occurs(url, AtJs) {
      FirstAt(url, 0, |url|, AtJs);
      forall i: nat, j: nat | FirstIs(url, i, OpenTag) && LastIs(url, j, CloseTag)
        ensures Classify(url) == if i + 4 <= j then (Some(Trim(url[i + 4..j])), RequiresJsSandbox) else (None, NoJs)
      {
        FirstAt(url, 0, i, OpenTag);
        LastAt(url, |url|, j, CloseTag);
      }
      if !Occurs(url, OpenTag) { FirstAt(url, 0, |url|, OpenTag); }
      if !Occurs(url, CloseTag) { LastNone(url, |url|, CloseTag); }
    }
  }

  // ---------------------------------------------------------------------
  // What parsing makes of a written text
  // ---------------------------------------------------------------------

  /** The expression of the tail, in need of the sandbox; without a tail the URL's own. */
  function Made<O>(url: string, options: O, js: Option<string>): DslResult<O> {
    match js
    case Some(e) => DslResult(url, options, Some(e), RequiresJsSandbox)
    case None => DslResult(url, options, Classify(url).0, Classify(url).1)
  }

  /** The parser on what stands before the tail. */
  lemma PartsOfFull(w: Written)
    requires WellFormed(w) && w.Full?
    ensures var s, comma := Front(w), |Url(w.p)| + |w.b1|;
            && FindSeparator(s, 0, SepStart) == Some(comma) && comma < |s|
            && Trim(s[..comma]) == Url(w.p) && Trim(s[comma + 1..]) == w.t && w.t != "" && w.t[0] == '{'
  {
    hide *;
    FullBlanks(w);
    SeparatorFound(w);
    OptionsTrimmed(w.t);
    PartsTrim(Url(w.p), w.b1, w.b2, w.t, w.end);
    FrontOfFull(w);
  }

  lemma FrontOfFull(w: Written)
    requires w.Full?
    ensures Front(w) == Comma(Url(w.p), w.b1, w.b2, w.t, w.end)
  {
  }

  lemma LegacyOfFull(w: Written)
    requires WellFormed(w) && w.Full?
    ensures HasLegacyMethodPrefix(Front(w)) <==> HasLegacyMethodPrefix(Url(w.p) + ",")
  {
    FullBlanks(w);
    FrontOfFull(w);
    hide HasLegacyMethodPrefix, Url, Front, WellFormed, Enclosed;
    LegacyPrefixIgnoresBlank(Url(w.p), w.b1, w.b2 + (w.t + w.end));
  }

  lemma FullBlanks(w: Written)
    requires WellFormed(w) && w.Full?
    ensures Trimmed(Url(w.p)) && AllWhitespace(w.b1) && AllWhitespace(w.b2) && AllWhitespace(w.end) && Enclosed(w.t)
  {
  }

  lemma OptionsTrimmed(t: string)
    requires Enclosed(t)
    ensures Trimmed(t) && t != "" && t[0] == '{'
  {
    EnclosedEnds(t, 1, Scan(false, false, 1));
  }

  lemma PartsTrim(url: string, b1: string, b2: string, t: string, end: string)
    requires Trimmed(url) && Trimmed(t) && AllWhitespace(b1) && AllWhitespace(b2) && AllWhitespace(end)
    ensures var s, comma := Comma(url, b1, b2, t, end), |url| + |b1|;
            comma < |s| && Trim(s[..comma]) == url && Trim(s[comma + 1..]) == t
  {
    hide Trim, Trimmed, IsWhitespace;
    var s, comma := url + (b1 + ("," + (b2 + (t + end)))), |url| + |b1|;
    assert s[..comma] == "" + url + b1;
    assert s[comma + 1..] == b2 + t + end;
    TrimPadded("", url, b1);
    TrimPadded(b2, t, end);
  }

  /** Without options the text before the tail is the URL as written, with the default
      options, a method name and commas included. Blanks before a tail stay in the URL. */
  lemma PlainUrl<O>(w: Written, tail: Tail, decode: string -> Option<O>, default: O)
    requires WellFormed(w) && w.Bare? && WellTagged(tail) && (tail.NoTail? ==> w.end == "")
    ensures Parse(Url(w.p) + w.end + TailText(tail), decode, default) ==
            Ok(Made(Url(w.p) + w.end, default, TailExpression(tail)))
  {
    hide Trim, HasLegacyMethodPrefix, FindSeparator, SplitJs, Normalized, Classify, Front, WellFormed, TailText, WellTagged;
    FrontIs(w);
    var s := Front(w) + TailText(TrimTail(tail));
    TrimWritten(w, tail);
    TrimTailKeeps(tail);
    SplitWritten(w, TrimTail(tail));
    NoSeparatorFound(w);
    EmptyHasNoTail(s);
  }

  lemma FrontIs(w: Written)
    requires w.Bare?
    ensures Front(w) == Url(w.p) + w.end
  {
  }

  lemma EmptyHasNoTail(s: string)
    ensures s == "" ==> SplitJs(s) == ("", None)
  {
  }

  /** A text that is only a tail has the empty URL. */
  lemma TailOnly<O>(tail: Tail, decode: string -> Option<O>, default: O)
    requires WellTagged(tail) && !tail.NoTail?
    ensures Parse(TailText(tail), decode, default) == Ok(DslResult("", default, Some(Trim(tail.e)), RequiresJsSandbox))
  {
    hide Parse, Trim, TailText, WellTagged;
    PlainUrl(Bare(End, ""), tail, decode, default);
    assert Url(End) + "" + TailText(tail) == TailText(tail);
  }

  /** A text of blanks alone has the empty URL and no JS. */
  lemma BlankText<O>(blank: string, decode: string -> Option<O>, default: O)
    requires AllWhitespace(blank)
    ensures Parse(blank, decode, default) == Ok(DslResult("", default, None, NoJs))
  {
    TrimPadded(blank, "", "");
    assert blank + "" + "" == blank;
    ClassifyLaws("");
  }

  /** After a method name the whole text before the tail is the URL, options and all. */
  lemma LegacyWhole<O>(w: Written, tail: Tail, decode: string -> Option<O>, default: O)
    requires WellFormed(w) && w.Full? && WellTagged(tail) && (tail.NoTail? ==> w.end == "")
    requires HasLegacyMethodPrefix(Url(w.p) + ",")
    ensures Parse(Front(w) + TailText(tail), decode, default) == Ok(Made(Front(w), default, TailExpression(tail)))
  {
    hide Trim, HasLegacyMethodPrefix, FindSeparator, SplitJs, Normalized, Classify, Front, WellFormed, TailText, WellTagged;
    TrimWritten(w, tail);
    TrimTailKeeps(tail);
    SplitWritten(w, TrimTail(tail));
    PartsOfFull(w);
    LegacyOfFull(w);
    EmptyHasNoTail("");
  }

  /** Parsing "url, options" with or without a tail recovers exactly the URL and hands
      exactly the options text to the normaliser and the decoder, whatever the text holds,
      `@js:` included. A tail changes the JS fields and nothing else. */
  lemma DslRoundTrip<O>(w: Written, tail: Tail, decode: string -> Option<O>, default: O)
    requires WellFormed(w) && w.Full? && WellTagged(tail) && (tail.NoTail? ==> w.end == "")
    requires !HasLegacyMethodPrefix(Url(w.p) + ",")
    ensures Parse(Front(w) + TailText(tail), decode, default) ==
            match decode(Normalized(w.t))
            case Some(options) => Ok(Made(Url(w.p), options, TailExpression(tail)))
            case None => MalformedJson(w.t)
  {
    hide Trim, HasLegacyMethodPrefix, FindSeparator, SplitJs, Normalized, Classify, Front, WellFormed, TailText, WellTagged;
    TrimWritten(w, tail);
    TrimTailKeeps(tail);
    SplitWritten(w, TrimTail(tail));
    PartsOfFull(w);
    LegacyOfFull(w);
    EmptyHasNoTail("");
  }

  /** Blanks around the whole text do not matter. */
  lemma ParseIgnoresPadding<O>(before: string, s: string, after: string, decode: string -> Option<O>, default: O)
    requires AllWhitespace(before) && AllWhitespace(after) && Trimmed(s)
    ensures Parse(before + s + after, decode, default) == Parse(s, decode, default)
  {
    hide Trim, SplitJs, HasLegacyMethodPrefix, FindSeparator, Normalized, Classify;
    TrimPadded(before, s, after);
    TrimOfTrimmed(s);
  }

  // ---------------------------------------------------------------------
  // With loosely printed options
  // ---------------------------------------------------------------------

  /** If a cut inside `t + trailing` falls at the end of `t`, `t` encloses itself. */
  lemma {:induction false} EnclosedFromCut(t: string, trailing: char, i: nat, scan: Scan)
    requires i <= |t| && scan.depth >= 1 && CutEnd(t + [trailing], i, scan) == |t|
    ensures EnclosedFrom(t, i, scan)
    decreases |t| - i
  {
    var s := t + [trailing];
    if i < |t| && !(t[i] == '}' && !scan.Quoted() && scan.depth == 1) {
      assert s[i] == t[i];
      EnclosedFromCut(t, trailing, i + 1, Advance(scan, t[i]));
    }
  }

  lemma LooseIsEnclosed(o: Object)
    requires Loose(o) && NoEscapedQuotes(o)
    ensures Enclosed(Print(o, false))
  {
    var t := Print(o, false);
    CutAfterObject(o, "x");
    assert (t + "x")[0] == '{';
    SecondIsNoBrace(o);
    EnclosedFromCut(t, 'x', 1, Scan(false, false, 1));
  }

  lemma SecondIsNoBrace(o: Object)
    requires Styled(o)
    ensures |Print(o, false)| >= 2 && Print(o, false)[1] != '{'
  {
    var t := Print(o, false);
    if o.blank != "" {
      assert t[1] == o.blank[0];
    } else if o.members.Cons? {
      var m := o.members.member;
      assert StyledMember(m);
      hide PrintMember, StyledMember;
      FirstOfMember(m);
      assert PrintMembers(o.members, false)[0] == PrintMember(m, false)[0];
      assert t[1] == (o.blank + (PrintMembers(o.members, false) + "}"))[0];
    } else {
      assert PrintMembers(o.members, false) == "" && t == "{}";
    }
  }

  lemma FirstOfMember(m: Member)
    requires StyledMember(m)
    ensures PrintMember(m, false) != "" && PrintMember(m, false)[0] != '{'
  {
    var key := PrintKey(m.key, false);
    assert key != "" && key[0] != '{';
    if m.b0 != "" {
      assert PrintMember(m, false)[0] == m.b0[0];
    } else {
      assert PrintMember(m, false)[0] == key[0];
    }
  }

  /** End to end: options printed in any loose style reach the decoder as their strict
      print, next to exactly the URL and the JS tail that were written. */
  lemma LooseOptionsRoundTrip<O>(w: Written, o: Object, tail: Tail, decode: string -> Option<O>, default: O)
    requires Loose(o) && NoEscapedQuotes(o) && w.Full? && w.t == Print(o, false)
    requires WellFormed(w) && WellTagged(tail) && (tail.NoTail? ==> w.end == "")
    requires !HasLegacyMethodPrefix(Url(w.p) + ",")
    ensures Parse(Front(w) + TailText(tail), decode, default) ==
            match decode(Print(o, true))
            case Some(options) => Ok(Made(Url(w.p), options, TailExpression(tail)))
            case None => MalformedJson(Print(o, false))
  {
    hide Parse, Front, Print, Normalized, Classify, WellFormed, TailText, HasLegacyMethodPrefix;
    DslRoundTrip(w, tail, decode, default);
    LooseToStrict(o, "");
    assert Print(o, false) + "" == Print(o, false);
  }
}
