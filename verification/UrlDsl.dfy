/** The URL DSL: `url, {options}` with an optional `@js:` or `<js>` tail. */
module UrlDsl {
  import opened Text
  import opened LooseJson

  datatype Pattern = AtJs | OpenTag | CloseTag

  /** `@js:`, `<js>` or `</js>` stands at position `i`, letter case aside. */
  predicate Stands(s: string, i: nat, p: Pattern) {
    match p
    case AtJs => i + 4 <= |s| && s[i] == '@' && JsLetters(s, i + 1) && s[i + 3] == ':'
    case OpenTag => i + 4 <= |s| && s[i] == '<' && JsLetters(s, i + 1) && s[i + 3] == '>'
    case CloseTag => i + 5 <= |s| && s[i] == '<' && s[i + 1] == '/' && JsLetters(s, i + 2) && s[i + 4] == '>'
  }

  predicate JsLetters(s: string, i: nat)
    requires i + 1 < |s|
  {
    LowerChar(s[i]) == 'j' && LowerChar(s[i + 1]) == 's'
  }

  predicate MarkerAt(s: string, i: nat) {
    Stands(s, i, AtJs) || Stands(s, i, OpenTag)
  }

  // ---------------------------------------------------------------------
  // Splitting off the JS tail
  // ---------------------------------------------------------------------

  /** The first JS marker outside quotes and braces, from position `i` on. */
  function FindJs(s: string, i: nat, scan: Scan): (r: Option<nat>)
    requires i <= |s|
    ensures r.Some? ==> i <= r.value && MarkerAt(s, r.value) && r.value + 4 <= |s|
    decreases |s| - i
  {
    if i == |s| then None
    else if Advance(scan, s[i]) == scan && scan == Outside && MarkerAt(s, i) then Some(i)
    else FindJs(s, i + 1, Advance(scan, s[i]))
  }

  /** The first occurrence at or after `i`, or the end of the text. */
  function First(s: string, i: nat, pattern: Pattern): (r: nat)
    requires i <= |s|
    ensures i <= r <= |s|
    decreases |s| - i
  {
    if i == |s| || Stands(s, i, pattern) then i else First(s, i + 1, pattern)
  }

  function SplitJs(input: string): (string, Option<string>) {
    match FindJs(input, 0, Outside)
    case None => (input, None)
    case Some(i) =>
      if Stands(input, i, AtJs) then (input[..i], Some(Trim(input[i + 4..])))
      else (input[..i], Some(Trim(input[i + 4..First(input, i + 4, CloseTag)])))
  }

  method FindClosingTag(input: string, start: nat) returns (end: nat)
    requires start <= |input|
    ensures end == First(input, start, CloseTag)
  {
    end := start;
    while end < |input| && !Stands(input, end, CloseTag)
      invariant start <= end <= |input|
      invariant First(input, start, CloseTag) == First(input, end, CloseTag)
    {
      end := end + 1;
    }
  }

  /** `split_js_suffix`. */
  method SplitJsSuffix(input: string) returns (dslPart: string, js: Option<string>)
    ensures (dslPart, js) == SplitJs(input)
  {
    var inDouble, inSingle, depth := false, false, 0;
    for i := 0 to |input|
      invariant FindJs(input, 0, Outside) == FindJs(input, i, Scan(inDouble, inSingle, depth))
    {
      var c := input[i];
      if c == '"' && !inSingle {
        inDouble := !inDouble;
      } else if c == '\'' && !inDouble {
        inSingle := !inSingle;
      } else if c == '{' && !inDouble && !inSingle {
        depth := depth + 1;
      } else if c == '}' && !inDouble && !inSingle {
        depth := depth - 1;
      } else if !inDouble && !inSingle && depth == 0 {
        if Stands(input, i, AtJs) {
          return input[..i], Some(Trim(input[i + 4..]));
        }
        if Stands(input, i, OpenTag) {
          var end := FindClosingTag(input, i + 4);
          return input[..i], Some(Trim(input[i + 4..end]));
        }
      }
    }
    return input, None;
  }

  // ---------------------------------------------------------------------
  // The separator between URL and options
  // ---------------------------------------------------------------------

  datatype SepScan = SepScan(inDouble: bool, inSingle: bool, brackets: int, inTemplate: bool) {
    predicate Quoted() { inDouble || inSingle }
  }

  const SepStart := SepScan(false, false, 0, false)

  /** Two of the character stand at position `i`. */
  predicate Twice(s: string, i: nat, c: char) {
    i + 1 < |s| && s[i] == c && s[i + 1] == c
  }

  /** After the comma at `i - 1`, blanks aside, comes a single opening brace. */
  predicate OpensOptions(s: string, i: nat)
    requires i <= |s|
    decreases |s| - i
  {
    if i < |s| && IsWhitespace(s[i]) then OpensOptions(s, i + 1)
    else i < |s| && s[i] == '{' && !Twice(s, i, '{')
  }

  function SepAdvance(s: string, i: nat, scan: SepScan): SepScan
    requires i < |s|
  {
    var c := s[i];
    if scan.inTemplate then scan.(inTemplate := !Twice(s, i, '}'))
    else if c == '"' && !scan.inSingle then scan.(inDouble := !scan.inDouble)
    else if c == '\'' && !scan.inDouble then scan.(inSingle := !scan.inSingle)
    else if scan.Quoted() then scan
    else if c == '[' then scan.(brackets := scan.brackets + 1)
    else if c == ']' then scan.(brackets := scan.brackets - 1)
    else if Twice(s, i, '{') then scan.(inTemplate := true)
    else scan
  }

  function FindSeparator(s: string, i: nat, scan: SepScan): (r: Option<nat>)
    requires i <= |s|
    ensures r.Some? ==> i <= r.value < |s|
    decreases |s| - i
  {
    if i == |s| then None
    else if s[i] == ',' && scan == SepStart && OpensOptions(s, i + 1) then Some(i)
    else FindSeparator(s, i + 1, SepAdvance(s, i, scan))
  }

  /** `find_dsl_separator`. */
  method FindDslSeparator(input: string) returns (index: Option<nat>)
    ensures index == FindSeparator(input, 0, SepStart)
  {
    var inDouble, inSingle, brackets, inTemplate := false, false, 0, false;
    for i := 0 to |input|
      invariant FindSeparator(input, 0, SepStart) ==
                FindSeparator(input, i, SepScan(inDouble, inSingle, brackets, inTemplate))
    {
      var c := input[i];
      if inTemplate {
        if Twice(input, i, '}') {
          inTemplate := false;
        }
      } else if c == '"' && !inSingle {
        inDouble := !inDouble;
      } else if c == '\'' && !inDouble {
        inSingle := !inSingle;
      } else if c == '[' && !inDouble && !inSingle {
        brackets := brackets + 1;
      } else if c == ']' && !inDouble && !inSingle {
        brackets := brackets - 1;
      } else if c == '{' && !inDouble && !inSingle && Twice(input, i, '{') {
        inTemplate := true;
      } else if c == ',' && !inDouble && !inSingle && brackets == 0 {
        var j := i + 1;
        while j < |input| && IsWhitespace(input[j])
          invariant i + 1 <= j <= |input|
          invariant OpensOptions(input, i + 1) == OpensOptions(input, j)
        {
          j := j + 1;
        }
        if j < |input| && input[j] == '{' && !Twice(input, j, '{') {
          return Some(i);
        }
      }
    }
    return None;
  }

  // ---------------------------------------------------------------------
  // The parser
  // ---------------------------------------------------------------------

  function UpperChar(c: char): char {
    if 'a' <= c <= 'z' then c - 'a' + 'A' else c
  }

  function Upper(s: string): string {
    seq(|s|, i requires 0 <= i < |s| => UpperChar(s[i]))
  }

  /** A comma occurs, and what precedes the first one is a method name. */
  predicate HasLegacyMethodPrefix(raw: string) {
    && ',' in raw
    && Upper(Trim(UpTo(raw, ','))) in {"GET", "POST", "PUT", "DELETE", "PATCH", "HEAD", "OPTIONS"}
  }

  datatype JsClass = NoJs | SafeExpression | RequiresJsSandbox

  datatype DslResult<O> = DslResult(url: string, options: O, jsExpression: Option<string>, jsClass: JsClass)

  datatype Parsed<O> = Ok(result: DslResult<O>) | MalformedJson(options: string)

  /** The last occurrence that starts before `i`. */
  function Last(s: string, i: nat, pattern: Pattern): (r: Option<nat>)
    requires i <= |s|
    ensures r.Some? ==> r.value < i
  {
    if i == 0 then None else if Stands(s, i - 1, pattern) then Some(i - 1) else Last(s, i - 1, pattern)
  }

  /** `classify_js_expression`. */
  function Classify(url: string): (Option<string>, JsClass) {
    var at := First(url, 0, AtJs);
    if Stands(url, at, AtJs) then (Some(Trim(url[at + 4..])), RequiresJsSandbox)
    else
      var open := First(url, 0, OpenTag);
      var close := Last(url, |url|, CloseTag);
      if Stands(url, open, OpenTag) && close.Some? && open + 4 <= close.value
      then (Some(Trim(url[open + 4..close.value])), RequiresJsSandbox)
      else (None, NoJs)
  }

  function New<O>(url: string, options: O): DslResult<O> {
    DslResult(url, options, Classify(url).0, Classify(url).1)
  }

  function AttachStrippedJs<O>(result: DslResult<O>, js: Option<string>): DslResult<O> {
    match js
    case None => result
    case Some(e) => result.(jsExpression := Some(e), jsClass := RequiresJsSandbox)
  }

  /** `UrlDslParser::parse`; `decode` stands for the JSON decoder and `default` for the
      options of a URL without any. */
  function Parse<O>(raw: string, decode: string -> Option<O>, default: O): Parsed<O> {
    var trimmed := Trim(raw);
    if trimmed == "" then Ok(New("", default))
    else
      var (dslPart, js) := SplitJs(trimmed);
      if dslPart == "" then Ok(AttachStrippedJs(New("", default), js))
      else if HasLegacyMethodPrefix(dslPart) then Ok(AttachStrippedJs(New(dslPart, default), js))
      else
        match FindSeparator(dslPart, 0, SepStart)
        case None => Ok(AttachStrippedJs(New(dslPart, default), js))
        case Some(comma) =>
          var url := Trim(dslPart[..comma]);
          var options := Trim(dslPart[comma + 1..]);
          if options == "" then Ok(AttachStrippedJs(New(url, default), js))
          else if options[0] != '{' then Ok(AttachStrippedJs(New(dslPart, default), js))
          else
            match decode(Normalized(options))
            case Some(o) => Ok(AttachStrippedJs(New(url, o), js))
            case None => MalformedJson(options)
  }
}
