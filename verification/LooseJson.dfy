/** The loose-JSON normaliser for request options: single quotes, bare keys,
    semicolons and bare values become strict JSON, and text after the object's
    closing brace is cut off. */
module LooseJson {
  import opened Text

  // ---------------------------------------------------------------------
  // Cutting at the matching brace
  // ---------------------------------------------------------------------

  /** Quote flags and brace depth, as the URL and option scanners keep them. */
  datatype Scan = Scan(inDouble: bool, inSingle: bool, depth: int) {
    predicate Quoted() { inDouble || inSingle }
  }

  const Outside := Scan(false, false, 0)

  function Advance(scan: Scan, c: char): Scan {
    if c == '"' && !scan.inSingle then scan.(inDouble := !scan.inDouble)
    else if c == '\'' && !scan.inDouble then scan.(inSingle := !scan.inSingle)
    else if c == '{' && !scan.Quoted() then scan.(depth := scan.depth + 1)
    else if c == '}' && !scan.Quoted() then scan.(depth := scan.depth - 1)
    else scan
  }

  /** The scanner ignores closing braces at depth zero. */
  function AdvanceInside(scan: Scan, c: char): Scan {
    if c == '}' && !scan.Quoted() && scan.depth <= 0 then scan else Advance(scan, c)
  }

  /** The position just after the brace that closes the first opened one, or the end. */
  function CutEnd(s: string, i: nat, scan: Scan): (end: nat)
    requires i <= |s|
    ensures i <= end <= |s|
    decreases |s| - i
  {
    if i == |s| then i
    else if s[i] == '}' && !scan.Quoted() && scan.depth == 1 then i + 1
    else CutEnd(s, i + 1, AdvanceInside(scan, s[i]))
  }

  method TruncateAtMatchingBrace(input: string) returns (r: string)
    ensures r == input[..CutEnd(input, 0, Outside)]
  {
    var depth, inDouble, inSingle, end := 0, false, false, |input|;
    for i := 0 to |input|
      invariant end == |input| && depth >= 0
      invariant CutEnd(input, 0, Outside) == CutEnd(input, i, Scan(inDouble, inSingle, depth))
    {
      var c := input[i];
      if c == '"' && !inSingle {
        inDouble := !inDouble;
      } else if c == '\'' && !inDouble {
        inSingle := !inSingle;
      } else if c == '{' && !inDouble && !inSingle {
        depth := depth + 1;
      } else if c == '}' && !inDouble && !inSingle {
        if depth > 0 {
          depth := depth - 1;
          if depth == 0 {
            end := i + 1;
            break;
          }
        }
      }
    }
    r := input[..end];
  }

  // ---------------------------------------------------------------------
  // The translator
  // ---------------------------------------------------------------------

  datatype QuoteState = Normal | InSingle | InDouble | EscapeDouble

  datatype ValuePosition = Other | ExpectKey | ExpectValue

  predicate IsLetter(c: char) { 'a' <= c <= 'z' || 'A' <= c <= 'Z' }

  predicate IsDigit(c: char) { '0' <= c <= '9' }

  predicate IsIdentStart(c: char) { IsLetter(c) || c == '_' || c == '$' }

  predicate IsIdentContinue(c: char) { IsLetter(c) || IsDigit(c) || c == '_' || c == '$' || c == '-' }

  predicate IsBareValueStart(c: char) {
    || IsDigit(c) || c == '-' || c == '+' || c == '"' || c == '\'' || c == '{' || c == '['
    || c == 't' || c == 'f' || c == 'n'
  }

  predicate EndsBareValue(c: char) { c == ',' || c == '}' || c == ']' }

  /** Where the identifier that starts before `i` ends. */
  function IdentEnd(s: string, i: nat): (end: nat)
    requires i <= |s|
    ensures i <= end <= |s|
    decreases |s| - i
  {
    if i < |s| && IsIdentContinue(s[i]) then IdentEnd(s, i + 1) else i
  }

  /** Where the bare value that starts before `i` ends, trailing blanks included. */
  function BareEnd(s: string, i: nat): (end: nat)
    requires i <= |s|
    ensures i <= end <= |s|
    decreases |s| - i
  {
    if i < |s| && !EndsBareValue(s[i]) then BareEnd(s, i + 1) else i
  }

  /** `end` moved back over white space, but not before `start`. */
  function BackOverBlanks(s: string, start: nat, end: nat): (e: nat)
    requires start <= end <= |s|
    ensures start <= e <= end
  {
    if end > start && IsWhitespace(s[end - 1]) then BackOverBlanks(s, start, end - 1) else end
  }

  /** Double quotes escaped; a bare value's backslashes are left as they are. */
  function EscapeQuotes(t: string): string {
    if t == "" then "" else EscapeQuotes(t[..|t| - 1]) + (if t[|t| - 1] == '"' then "\\\"" else [t[|t| - 1]])
  }

  predicate IsSpecial(c: char) {
    || c == '\'' || c == '"' || c == ';' || c == '{' || c == '}' || c == '[' || c == ']' || c == ',' || c == ':'
  }

  function InQuotes(t: string): string { "\"" + (t + "\"") }

  /** What position is expected after a special character outside quotes. */
  function After(c: char): ValuePosition {
    if c == ';' || c == '{' || c == ',' then ExpectKey else if c == ':' then ExpectValue else Other
  }

  /** What the translator still writes from position `i` on. */
  function Out(s: string, i: nat, state: QuoteState, position: ValuePosition): string
    requires i <= |s|
    decreases |s| - i
  {
    if i == |s| then ""
    else
      var c := s[i];
      match state
      case InSingle =>
        if c == '\'' then "\"" + Out(s, i + 1, Normal, position)
        else if c == '"' then "\\\"" + Out(s, i + 1, InSingle, position)
        else if c == '\\' then "\\\\" + Out(s, i + 1, InSingle, position)
        else [c] + Out(s, i + 1, InSingle, position)
      case InDouble =>
        [c] + Out(s, i + 1, if c == '"' then Normal else if c == '\\' then EscapeDouble else InDouble, position)
      case EscapeDouble => [c] + Out(s, i + 1, InDouble, position)
      case Normal =>
        if c == '\'' then "\"" + Out(s, i + 1, InSingle, position)
        else if c == '"' then "\"" + Out(s, i + 1, InDouble, position)
        else if c == ';' then "," + Out(s, i + 1, Normal, ExpectKey)
        else if IsSpecial(c) then [c] + Out(s, i + 1, Normal, After(c))
        else if IsWhitespace(c) then [c] + Out(s, i + 1, Normal, position)
        else if position == ExpectKey && IsIdentStart(c) then
          var end := IdentEnd(s, i + 1);
          InQuotes(s[i..end]) + Out(s, end, Normal, Other)
        else if position == ExpectValue && !IsBareValueStart(c) then
          var end := BareEnd(s, i + 1);
          InQuotes(EscapeQuotes(s[i..BackOverBlanks(s, i, end)])) + Out(s, end, Normal, Other)
        else [c] + Out(s, i + 1, Normal, if position == ExpectValue then Other else position)
  }

  function Normalized(input: string): string {
    Out(input[..CutEnd(input, 0, Outside)], 0, Normal, Other)
  }

  method ReadIdent(chars: string, start: nat) returns (i: nat)
    requires start < |chars| && IsIdentContinue(chars[start])
    ensures i == IdentEnd(chars, start + 1)
  {
    i := start;
    while i < |chars| && IsIdentContinue(chars[i])
      invariant start <= i <= |chars|
      invariant IdentEnd(chars, i) == IdentEnd(chars, start)
    {
      i := i + 1;
    }
  }

  /** The text up to the next delimiter without its trailing blanks, quotes escaped. */
  method ReadBareValue(chars: string, start: nat) returns (value: string, i: nat)
    requires start < |chars| && !EndsBareValue(chars[start])
    ensures i == BareEnd(chars, start + 1)
    ensures value == EscapeQuotes(chars[start..BackOverBlanks(chars, start, i)])
  {
    i := start;
    while i < |chars| && !EndsBareValue(chars[i])
      invariant start <= i <= |chars|
      invariant BareEnd(chars, i) == BareEnd(chars, start)
    {
      i := i + 1;
    }
    var end := i;
    while end > start && IsWhitespace(chars[end - 1])
      invariant start <= end <= i
      invariant BackOverBlanks(chars, start, end) == BackOverBlanks(chars, start, i)
    {
      end := end - 1;
    }
    value := EscapeBareValue(chars[start..end]);
  }

  /** `normalize_legado_json`. */
  method NormalizeLegadoJson(input: string) returns (result: string)
    ensures result == Normalized(input)
  {
    var chars := TruncateAtMatchingBrace(input);
    result := "";
    var state, position, i := Normal, Other, 0;
    while i < |chars|
      invariant i <= |chars|
      invariant result + Out(chars, i, state, position) == Out(chars, 0, Normal, Other)
    {
      var c, before := chars[i], result;
      match state {
        case Normal =>
          if c == '\'' {
            state := InSingle;
            result := result + "\"";
          } else if c == '"' {
            state := InDouble;
            result := result + "\"";
          } else if c == ';' {
            result := result + ",";
            position := ExpectKey;
          } else if c == '{' {
            result := result + [c];
            position := ExpectKey;
          } else if c == '[' || c == '}' || c == ']' {
            result := result + [c];
            position := Other;
          } else if c == ',' {
            result := result + [c];
            position := ExpectKey;
          } else if c == ':' {
            result := result + [c];
            position := ExpectValue;
          } else if IsWhitespace(c) {
            result := result + [c];
          } else if position == ExpectKey && IsIdentStart(c) {
            var start := i;
            i := ReadIdent(chars, i);
            result := result + InQuotes(chars[start..i]);
            position := Other;
            Reassociate(before, InQuotes(chars[start..i]), Out(chars, i, Normal, Other));
            continue;
          } else if position == ExpectValue && !IsBareValueStart(c) {
            var value;
            value, i := ReadBareValue(chars, i);
            result := result + InQuotes(value);
            position := Other;
            Reassociate(before, InQuotes(value), Out(chars, i, Normal, Other));
            continue;
          } else {
            result := result + [c];
            if position == ExpectValue {
              position := Other;
            }
          }
        case InSingle =>
          if c == '\'' {
            state := Normal;
            result := result + "\"";
          } else if c == '"' {
            result := result + "\\\"";
          } else if c == '\\' {
            result := result + "\\\\";
          } else {
            result := result + [c];
          }
        case InDouble =>
          if c == '"' {
            state := Normal;
          } else if c == '\\' {
            state := EscapeDouble;
          }
          result := result + [c];
        case EscapeDouble =>
          result := result + [c];
          state := InDouble;
      }
      Reassociate(before, result[|before|..], Out(chars, i + 1, state, position));
      i := i + 1;
    }
  }

  method EscapeBareValue(value: string) returns (r: string)
    ensures r == EscapeQuotes(value)
  {
    r := "";
    for i := 0 to |value|
      invariant r == EscapeQuotes(value[..i])
    {
      assert value[..i + 1][..i] == value[..i];
      if value[i] == '"' {
        r := r + ['\\'];
      }
      r := r + [value[i]];
    }
    assert value[..|value|] == value;
  }
}
