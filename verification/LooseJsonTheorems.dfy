/** Printing an array-free object in any loose style and normalising gives its strict
    print. */
module LooseJsonTheorems {
  import opened Text
  import opened LooseJson

  // ---------------------------------------------------------------------
  // Objects and their prints
  // ---------------------------------------------------------------------

  datatype Quote = SingleQuote | DoubleQuote

  datatype Key = BareKey(text: string) | QuotedKey(quote: Quote, text: string)

  /** Texts are written as they stand between their quotes: a single-quoted one is plain
      text, a double-quoted one the body of a JSON string, escapes included. Literals are
      JSON's; any other text without quotes and delimiters is unquoted text. */
  datatype Value =
    | Str(quote: Quote, text: string)
    | Literal(text: string)
    | Unquoted(text: string)
    | Nested(obj: Object)

  /** Blanks may stand before and after the key and before and after the value. */
  datatype Member = Member(b0: string, key: Key, b1: string, b2: string, value: Value, b3: string)

  datatype Separator = Comma | Semicolon

  datatype Members = Nil | Cons(member: Member, separator: Separator, rest: Members)

  datatype Object = Object(blank: string, members: Members)

  /** A text as the contents of a strict JSON string: `"` and `\` escaped. */
  function Escape(t: string): string {
    if t == "" then "" else EscapeChar(t[0]) + Escape(t[1..])
  }

  function EscapeChar(c: char): string {
    if c == '"' then "\\\"" else if c == '\\' then "\\\\" else [c]
  }

  function QuoteChar(q: Quote): char {
    match q case SingleQuote => '\'' case DoubleQuote => '"'
  }

  function QuotedText(q: Quote, t: string): string {
    [QuoteChar(q)] + (t + [QuoteChar(q)])
  }

  /** The text as the body of a strict string. */
  function Body(q: Quote, t: string): string {
    match q case SingleQuote => Escape(t) case DoubleQuote => t
  }

  function KeyBody(k: Key): string {
    match k
    case BareKey(text) => text
    case QuotedKey(q, text) => Body(q, text)
  }

  function PrintKey(k: Key, strict: bool): string {
    if strict then InQuotes(KeyBody(k))
    else match k
      case BareKey(text) => text
      case QuotedKey(q, text) => QuotedText(q, text)
  }

  function PrintValue(v: Value, strict: bool): string {
    match v
    case Str(q, text) => if strict then InQuotes(Body(q, text)) else QuotedText(q, text)
    case Literal(text) => text
    case Unquoted(text) => if strict then InQuotes(Escape(text)) else text
    case Nested(obj) => Print(obj, strict)
  }

  /** Blanks after an unquoted value are dropped. */
  function Trailing(m: Member, strict: bool): string {
    if strict && m.value.Unquoted? then "" else m.b3
  }

  function PrintMember(m: Member, strict: bool): string {
    m.b0 + (PrintKey(m.key, strict) + (m.b1 + (":" + (m.b2 + (PrintValue(m.value, strict) + Trailing(m, strict))))))
  }

  function PrintSeparator(s: Separator, strict: bool): string {
    if s == Semicolon && !strict then ";" else ","
  }

  function PrintMembers(ms: Members, strict: bool): string {
    match ms
    case Nil => ""
    case Cons(m, separator, rest) =>
      if rest.Nil? then PrintMember(m, strict)
      else PrintMember(m, strict) + (PrintSeparator(separator, strict) + PrintMembers(rest, strict))
  }

  /** The loose print in the styles the object carries, or the strict one. Control characters,
      unknown escapes and blanks that JSON does not know are carried over, so the strict
      print is JSON if the object holds none. */
  function Print(o: Object, strict: bool): string {
    "{" + (o.blank + (PrintMembers(o.members, strict) + "}"))
  }

  // ---------------------------------------------------------------------
  // What may be printed loosely
  // ---------------------------------------------------------------------

  /** The body of a JSON string: no bare `"`, and a character after each `\`. */
  predicate IsBody(t: string) {
    t == "" || if t[0] == '\\' then |t| > 1 && IsBody(t[2..]) else t[0] != '"' && IsBody(t[1..])
  }

  predicate Quotable(q: Quote, text: string) {
    match q case SingleQuote => '\'' !in text case DoubleQuote => IsBody(text)
  }

  predicate IsIdent(text: string) {
    text != "" && IsIdentStart(text[0]) && forall i :: 0 <= i < |text| ==> IsIdentContinue(text[i])
  }

  predicate IsDigits(t: string) { t != "" && forall i :: 0 <= i < |t| ==> IsDigit(t[i]) }

  /** Digits without a leading zero, after an optional minus. */
  predicate IsInteger(t: string) {
    var n := if t != "" && t[0] == '-' then t[1..] else t;
    IsDigits(n) && (|n| == 1 || n[0] != '0')
  }

  predicate IsFraction(t: string) { t == "" || (t[0] == '.' && IsDigits(t[1..])) }

  predicate IsExponent(t: string) {
    t == "" || ((t[0] == 'e' || t[0] == 'E')
                && (IsDigits(t[1..]) || (|t| > 1 && (t[1] == '+' || t[1] == '-') && IsDigits(t[2..]))))
  }

  /** JSON's numbers. */
  ghost predicate IsNumber(t: string) {
    exists a, b, c :: t == a + (b + c) && IsInteger(a) && IsFraction(b) && IsExponent(c)
  }

  /** JSON's literals. */
  ghost predicate IsLiteral(t: string) { t == "true" || t == "false" || t == "null" || IsNumber(t) }

  /** What the translator copies as if it were a literal. */
  predicate IsVerbatim(text: string) {
    && text != "" && IsBareValueStart(text[0])
    && forall i :: 0 <= i < |text| ==> !IsSpecial(text[i]) && !IsWhitespace(text[i])
  }

  /** Any text that is not a literal, without quotes, and without what delimits values. */
  ghost predicate IsUnquoted(text: string) {
    && text != "" && Trimmed(text) && !IsSpecial(text[0]) && !IsLiteral(text)
    && forall i :: 0 <= i < |text| ==> !EndsBareValue(text[i]) && text[i] != '\'' && text[i] != '"' && text[i] != '{'
  }

  /** It does not begin like a literal, and holds no backslash. */
  predicate GetsQuoted(text: string) { text != "" && !IsBareValueStart(text[0]) && '\\' !in text }

  predicate LooseKey(k: Key) {
    match k
    case BareKey(text) => IsIdent(text)
    case QuotedKey(q, text) => Quotable(q, text)
  }

  ghost predicate StyledValue(v: Value) {
    match v
    case Str(q, text) => Quotable(q, text)
    case Literal(text) => IsLiteral(text)
    case Unquoted(text) => IsUnquoted(text)
    case Nested(obj) => Styled(obj)
  }

  ghost predicate StyledMember(m: Member) {
    && AllWhitespace(m.b0) && AllWhitespace(m.b1) && AllWhitespace(m.b2) && AllWhitespace(m.b3)
    && LooseKey(m.key) && StyledValue(m.value)
  }

  ghost predicate StyledMembers(ms: Members) {
    ms.Cons? ==> StyledMember(ms.member) && StyledMembers(ms.rest)
  }

  /** Written in any mix of styles. */
  ghost predicate Styled(o: Object) {
    AllWhitespace(o.blank) && StyledMembers(o.members)
  }

  /** What the normaliser understands: no unquoted value is followed by a semicolon, begins
      like a literal or holds a backslash. */
  predicate Understood(o: Object) { UnderstoodIn(o.members) }

  predicate UnderstoodIn(ms: Members) {
    ms.Cons? ==>
      && UnderstoodValue(ms.member.value) && UnderstoodIn(ms.rest)
      && (ms.member.value.Unquoted? && ms.rest.Cons? ==> ms.separator == Comma)
  }

  predicate UnderstoodValue(v: Value) {
    match v
    case Unquoted(text) => GetsQuoted(text)
    case Nested(obj) => Understood(obj)
    case _ => true
  }

  ghost predicate LooseValue(v: Value) { StyledValue(v) && UnderstoodValue(v) }

  ghost predicate LooseMember(m: Member) { StyledMember(m) && UnderstoodValue(m.value) }

  ghost predicate LooseMembers(ms: Members) { StyledMembers(ms) && UnderstoodIn(ms) }

  /** In any mix of styles, and understood. */
  ghost predicate Loose(o: Object) { Styled(o) && Understood(o) }

  /** No double-quoted text contains a double quote: the brace scanner, unlike the
      translator, does not know that `\` escapes it. */
  predicate NoEscapedQuotes(o: Object) {
    NoEscapedQuotesIn(o.members)
  }

  predicate NoEscapedQuotesIn(ms: Members) {
    match ms
    case Nil => true
    case Cons(m, _, rest) =>
      && (m.key.QuotedKey? && m.key.quote == DoubleQuote ==> '"' !in m.key.text)
      && NoEscapedQuotesInValue(m.value) && NoEscapedQuotesIn(rest)
  }

  predicate NoEscapedQuotesInValue(v: Value) {
    match v
    case Str(q, text) => q == DoubleQuote ==> '"' !in text
    case Nested(obj) => NoEscapedQuotes(obj)
    case _ => true
  }

  // ---------------------------------------------------------------------
  // Texts at positions
  // ---------------------------------------------------------------------

  lemma AtSplit(s: string, i: nat, a: string, b: string)
    requires At(s, i, a + b)
    ensures At(s, i, a) && At(s, i + |a|, b)
  {
    forall k | 0 <= k < |a|
      ensures s[i + k] == a[k]
    {
      assert (a + b)[k] == a[k];
    }
    forall k | 0 <= k < |b|
      ensures s[i + |a| + k] == b[k]
    {
      assert s[i + (|a| + k)] == (a + b)[|a| + k];
    }
  }

  lemma AtHead(s: string, i: nat, text: string)
    requires At(s, i, text) && text != ""
    ensures i < |s| && s[i] == text[0] && At(s, i + 1, text[1..])
  {
    assert text == [text[0]] + text[1..];
    AtSplit(s, i, [text[0]], text[1..]);
    assert s[i + 0] == text[0];
  }

  lemma AtSlice(s: string, i: nat, text: string)
    requires At(s, i, text)
    ensures s[i..i + |text|] == text
  {
  }

  /** From (i, state, position) the translator writes `out` and goes on at (j, state', position'). */
  predicate Writes(s: string, i: nat, st: QuoteState, p: ValuePosition, out: string,
                   j: nat, st': QuoteState, p': ValuePosition)
  {
    i <= |s| && j <= |s| && Out(s, i, st, p) == out + Out(s, j, st', p')
  }

  lemma WritesThen(s: string, i: nat, st: QuoteState, p: ValuePosition, a: string,
                   j: nat, st': QuoteState, p': ValuePosition, b: string,
                   k: nat, st'': QuoteState, p'': ValuePosition)
    requires Writes(s, i, st, p, a, j, st', p') && Writes(s, j, st', p', b, k, st'', p'')
    ensures Writes(s, i, st, p, a + b, k, st'', p'')
  {
    Reassociate(a, b, Out(s, k, st'', p''));
  }

  // The single steps of the translator.

  lemma StepSpecial(s: string, i: nat, p: ValuePosition)
    requires i < |s| && IsSpecial(s[i]) && s[i] != '"' && s[i] != '\''
    ensures Writes(s, i, Normal, p, if s[i] == ';' then "," else [s[i]], i + 1, Normal, After(s[i]))
  {
  }

  lemma StepQuote(s: string, i: nat, p: ValuePosition, q: Quote)
    requires i < |s| && s[i] == QuoteChar(q)
    ensures Writes(s, i, Normal, p, "\"", i + 1, if q == SingleQuote then InSingle else InDouble, p)
  {
  }

  lemma StepBlank(s: string, i: nat, p: ValuePosition)
    requires i < |s| && IsWhitespace(s[i])
    ensures Writes(s, i, Normal, p, [s[i]], i + 1, Normal, p)
  {
  }

  lemma StepSingle(s: string, i: nat, p: ValuePosition)
    requires i < |s|
    ensures Writes(s, i, InSingle, p, if s[i] == '\'' then "\"" else EscapeChar(s[i]),
                   i + 1, if s[i] == '\'' then Normal else InSingle, p)
  {
  }

  lemma StepDouble(s: string, i: nat, p: ValuePosition)
    requires i < |s|
    ensures s[i] == '"' ==> Writes(s, i, InDouble, p, "\"", i + 1, Normal, p)
    ensures s[i] != '"' && s[i] != '\\' ==> Writes(s, i, InDouble, p, [s[i]], i + 1, InDouble, p)
  {
  }

  lemma StepEscape(s: string, i: nat, p: ValuePosition)
    requires i + 1 < |s| && s[i] == '\\'
    ensures Writes(s, i, InDouble, p, ['\\', s[i + 1]], i + 2, InDouble, p)
  {
    var rest := Out(s, i + 2, InDouble, p);
    assert Out(s, i + 1, EscapeDouble, p) == [s[i + 1]] + rest;
    assert ['\\'] + ([s[i + 1]] + rest) == ['\\', s[i + 1]] + rest;
  }

  lemma StepVerbatim(s: string, i: nat, p: ValuePosition)
    requires i < |s| && !IsSpecial(s[i]) && !IsWhitespace(s[i])
    requires p == Other || (p == ExpectValue && IsBareValueStart(s[i]))
    ensures Writes(s, i, Normal, p, [s[i]], i + 1, Normal, Other)
  {
  }

  lemma StepIdent(s: string, i: nat)
    requires i < |s| && IsIdentStart(s[i])
    ensures var end := IdentEnd(s, i + 1);
            Writes(s, i, Normal, ExpectKey, InQuotes(s[i..end]), end, Normal, Other)
  {
  }

  lemma StepBare(s: string, i: nat)
    requires i < |s| && !IsBareValueStart(s[i]) && !IsSpecial(s[i]) && !IsWhitespace(s[i])
    ensures var end := BareEnd(s, i + 1);
            Writes(s, i, Normal, ExpectValue, InQuotes(EscapeQuotes(s[i..BackOverBlanks(s, i, end)])),
                   end, Normal, Other)
  {
  }

  lemma {:induction false} WritesBlank(s: string, i: nat, p: ValuePosition, blank: string)
    requires AllWhitespace(blank) && At(s, i, blank)
    ensures Writes(s, i, Normal, p, blank, i + |blank|, Normal, p)
    decreases |blank|
  {
    hide Out;
    if blank != "" {
      AtHead(s, i, blank);
      StepBlank(s, i, p);
      WritesBlank(s, i + 1, p, blank[1..]);
      WritesThen(s, i, Normal, p, [blank[0]], i + 1, Normal, p, blank[1..], i + |blank|, Normal, p);
      assert [blank[0]] + blank[1..] == blank;
    } else {
      assert "" + Out(s, i, Normal, p) == Out(s, i, Normal, p);
    }
  }

  lemma {:induction false} WritesSingle(s: string, i: nat, p: ValuePosition, t: string)
    requires '\'' !in t && At(s, i, t) && At(s, i + |t|, "'")
    ensures Writes(s, i, InSingle, p, Escape(t) + "\"", i + |t| + 1, Normal, p)
    decreases |t|
  {
    hide Out;
    StepSingle(s, i, p);
    if t == "" {
      AtHead(s, i, "'");
      assert "" + "\"" == "\"";
    } else {
      AtHead(s, i, t);
      var head, tail := EscapeChar(t[0]), Escape(t[1..]) + "\"";
      WritesSingle(s, i + 1, p, t[1..]);
      WritesThen(s, i, InSingle, p, head, i + 1, InSingle, p, tail, i + |t| + 1, Normal, p);
      Reassociate(head, Escape(t[1..]), "\"");
    }
  }

  lemma {:induction false} WritesDouble(s: string, i: nat, p: ValuePosition, t: string)
    requires IsBody(t) && At(s, i, t) && At(s, i + |t|, "\"")
    ensures Writes(s, i, InDouble, p, t + "\"", i + |t| + 1, Normal, p)
    decreases |t|
  {
    hide Out, Writes, At;
    if t == "" {
      AtHead(s, i, "\"");
      StepDouble(s, i, p);
      assert "" + "\"" == "\"";
    } else {
      AtHead(s, i, t);
      var n := if t[0] == '\\' then 2 else 1;
      if n == 2 {
        AtHead(s, i + 1, t[1..]);
        StepEscape(s, i, p);
        assert t[..n] == ['\\', t[1]] && t[1..][1..] == t[2..];
      } else {
        StepDouble(s, i, p);
        assert t[..n] == [t[0]];
      }
      WritesDouble(s, i + n, p, t[n..]);
      WritesThen(s, i, InDouble, p, t[..n], i + n, InDouble, p, t[n..] + "\"", i + |t| + 1, Normal, p);
      Reassociate(t[..n], t[n..], "\"");
      assert t[..n] + t[n..] == t;
    }
  }

  lemma WritesSingleQuoted(s: string, i: nat, p: ValuePosition, t: string)
    requires Quotable(SingleQuote, t) && At(s, i, QuotedText(SingleQuote, t))
    ensures Writes(s, i, Normal, p, InQuotes(Escape(t)), i + |t| + 2, Normal, p)
  {
    hide Out, Writes, At, Escape;
    AtSplit(s, i, "'", t + "'");
    AtSplit(s, i + 1, t, "'");
    AtHead(s, i, "'");
    StepQuote(s, i, p, SingleQuote);
    WritesSingle(s, i + 1, p, t);
    WritesThen(s, i, Normal, p, "\"", i + 1, InSingle, p, Escape(t) + "\"", i + |t| + 2, Normal, p);
  }

  lemma WritesDoubleQuoted(s: string, i: nat, p: ValuePosition, t: string)
    requires IsBody(t) && At(s, i, QuotedText(DoubleQuote, t))
    ensures Writes(s, i, Normal, p, InQuotes(t), i + |t| + 2, Normal, p)
  {
    hide Out, Writes, At, IsBody;
    AtSplit(s, i, "\"", t + "\"");
    AtSplit(s, i + 1, t, "\"");
    AtHead(s, i, "\"");
    StepQuote(s, i, p, DoubleQuote);
    WritesDouble(s, i + 1, p, t);
    WritesThen(s, i, Normal, p, "\"", i + 1, InDouble, p, t + "\"", i + |t| + 2, Normal, p);
  }

  lemma WritesQuoted(s: string, i: nat, p: ValuePosition, q: Quote, t: string)
    requires Quotable(q, t) && At(s, i, QuotedText(q, t))
    ensures Writes(s, i, Normal, p, InQuotes(Body(q, t)), i + |QuotedText(q, t)|, Normal, p)
  {
    hide Out, Writes, At, Escape, IsBody;
    match q
    case SingleQuote => WritesSingleQuoted(s, i, p, t);
    case DoubleQuote => WritesDoubleQuoted(s, i, p, t);
  }

  lemma {:induction false} IdentEndsAt(s: string, i: nat, t: string)
    requires At(s, i, t) && forall k :: 0 <= k < |t| ==> IsIdentContinue(t[k])
    requires i + |t| == |s| || !IsIdentContinue(s[i + |t|])
    ensures IdentEnd(s, i) == i + |t|
    decreases |t|
  {
    if t != "" {
      AtHead(s, i, t);
      IdentEndsAt(s, i + 1, t[1..]);
    }
  }

  lemma {:induction false} EscapeNothing(t: string)
    requires forall k :: 0 <= k < |t| ==> t[k] != '"' && t[k] != '\\'
    ensures Escape(t) == t
  {
    if t != "" {
      EscapeNothing(t[1..]);
      assert [t[0]] + t[1..] == t;
    }
  }

  lemma WritesIdent(s: string, i: nat, t: string)
    requires IsIdent(t) && At(s, i, t)
    requires i + |t| < |s| && !IsIdentContinue(s[i + |t|])
    ensures Writes(s, i, Normal, ExpectKey, InQuotes(t), i + |t|, Normal, Other)
  {
    hide Out, Writes;
    AtHead(s, i, t);
    assert IsIdentContinue(t[0]);
    IdentEndsAt(s, i + 1, t[1..]);
    StepIdent(s, i);
    AtSlice(s, i, t);
  }

  lemma {:induction false} WritesVerbatim(s: string, i: nat, t: string)
    requires At(s, i, t) && forall k :: 0 <= k < |t| ==> !IsSpecial(t[k]) && !IsWhitespace(t[k])
    ensures Writes(s, i, Normal, Other, t, i + |t|, Normal, Other)
    decreases |t|
  {
    hide Out;
    if t != "" {
      AtHead(s, i, t);
      StepVerbatim(s, i, Other);
      WritesVerbatim(s, i + 1, t[1..]);
      WritesThen(s, i, Normal, Other, [t[0]], i + 1, Normal, Other, t[1..], i + |t|, Normal, Other);
      assert [t[0]] + t[1..] == t;
    } else {
      assert "" + Out(s, i, Normal, Other) == Out(s, i, Normal, Other);
    }
  }

  lemma NumberIsVerbatim(a: string, b: string, c: string)
    requires IsInteger(a) && IsFraction(b) && IsExponent(c)
    ensures IsVerbatim(a + (b + c))
  {
    var t := a + (b + c);
    forall i | 0 <= i < |t| ensures IsDigit(t[i]) || t[i] == '-' || t[i] == '+' || t[i] == '.' || t[i] == 'e' || t[i] == 'E' {
      if i < |a| {
        assert t[i] == a[i] && (a[0] == '-' && i > 0 ==> a[1..][i - 1] == a[i]);
      } else if i < |a| + |b| {
        var k := i - |a|;
        assert t[i] == b[k] && (k > 0 ==> b[1..][k - 1] == b[k]);
      } else {
        var k := i - |a| - |b|;
        assert t[i] == c[k] && (k > 0 ==> c[1..][k - 1] == c[k]) && (k > 1 ==> c[2..][k - 2] == c[k]);
      }
    }
    assert t[0] == a[0];
  }

  lemma LiteralIsVerbatim(t: string)
    requires IsLiteral(t)
    ensures IsVerbatim(t)
  {
    if t != "true" && t != "false" && t != "null" {
      var a, b, c :| t == a + (b + c) && IsInteger(a) && IsFraction(b) && IsExponent(c);
      NumberIsVerbatim(a, b, c);
    }
  }

  lemma WritesLiteral(s: string, i: nat, t: string)
    requires IsVerbatim(t) && At(s, i, t)
    ensures Writes(s, i, Normal, ExpectValue, t, i + |t|, Normal, Other)
  {
    hide Out;
    AtHead(s, i, t);
    StepVerbatim(s, i, ExpectValue);
    WritesVerbatim(s, i + 1, t[1..]);
    WritesThen(s, i, Normal, ExpectValue, [t[0]], i + 1, Normal, Other, t[1..], i + |t|, Normal, Other);
    assert [t[0]] + t[1..] == t;
  }

  lemma {:induction false} BareEndsAt(s: string, i: nat, t: string)
    requires At(s, i, t) && forall k :: 0 <= k < |t| ==> !EndsBareValue(t[k])
    requires i + |t| < |s| && EndsBareValue(s[i + |t|])
    ensures BareEnd(s, i) == i + |t|
    decreases |t|
  {
    if t != "" {
      AtHead(s, i, t);
      BareEndsAt(s, i + 1, t[1..]);
    }
  }

  lemma {:induction false} BacksOver(s: string, start: nat, mid: nat, end: nat)
    requires start < mid <= end <= |s| && !IsWhitespace(s[mid - 1])
    requires forall k :: mid <= k < end ==> IsWhitespace(s[k])
    ensures BackOverBlanks(s, start, end) == mid
    decreases end
  {
    if end > mid {
      BacksOver(s, start, mid, end - 1);
    }
  }

  lemma {:induction false} EscapeQuotesNothing(t: string)
    requires '"' !in t
    ensures EscapeQuotes(t) == t
  {
    if t != "" {
      EscapeQuotesNothing(t[..|t| - 1]);
      assert t == t[..|t| - 1] + [t[|t| - 1]];
    }
  }

  /** The bare value runs to the delimiter; its text ends before the blanks. */
  lemma UnquotedEnds(s: string, i: nat, t: string, blank: string)
    requires IsUnquoted(t) && AllWhitespace(blank) && At(s, i, t) && At(s, i + |t|, blank)
    requires i + |t| + |blank| < |s| && EndsBareValue(s[i + |t| + |blank|])
    ensures BareEnd(s, i + 1) == i + |t| + |blank|
    ensures BackOverBlanks(s, i, i + |t| + |blank|) == i + |t|
  {
    var mid, end := i + |t|, i + |t| + |blank|;
    assert forall k :: 0 <= k < |blank| ==> IsWhitespace(blank[k]);
    BareEndsAt(s, mid, blank);
    BareRunsOver(s, i, t);
    AtHead(s, i, t);
    assert s[i + (|t| - 1)] == t[|t| - 1];
    forall k | mid <= k < end
      ensures IsWhitespace(s[k])
    {
      assert s[mid + (k - mid)] == blank[k - mid];
    }
    BacksOver(s, i, mid, end);
  }

  lemma {:induction false} BareRunsOver(s: string, i: nat, t: string)
    requires At(s, i, t) && forall k :: 0 <= k < |t| ==> !EndsBareValue(t[k])
    ensures BareEnd(s, i) == BareEnd(s, i + |t|)
    decreases |t|
  {
    if t != "" {
      AtHead(s, i, t);
      BareRunsOver(s, i + 1, t[1..]);
    }
  }

  lemma WritesUnquoted(s: string, i: nat, t: string, blank: string)
    requires IsUnquoted(t) && GetsQuoted(t) && AllWhitespace(blank) && At(s, i, t + blank)
    requires i + |t| + |blank| < |s| && EndsBareValue(s[i + |t| + |blank|])
    ensures Writes(s, i, Normal, ExpectValue, InQuotes(Escape(t)), i + |t| + |blank|, Normal, Other)
  {
    hide *;
    AtSplit(s, i, t, blank);
    UnquotedFacts(t);
    AtHead(s, i, t);
    AtSlice(s, i, t);
    UnquotedEnds(s, i, t, blank);
    StepBare(s, i);
    EscapeQuotesNothing(t);
    EscapeNothing(t);
  }

  lemma UnquotedFacts(t: string)
    requires IsUnquoted(t)
    ensures t != "" && !IsSpecial(t[0]) && !IsWhitespace(t[0]) && !IsWhitespace(t[|t| - 1]) && !EndsBareValue(t[0])
    ensures '"' !in t && (GetsQuoted(t) ==> !IsBareValueStart(t[0]) && '\\' !in t)
  {
  }

  // ---------------------------------------------------------------------
  // From loose to strict
  // ---------------------------------------------------------------------

  function AfterKey(k: Key): ValuePosition {
    if k.BareKey? then Other else ExpectKey
  }

  function AfterValue(v: Value): ValuePosition {
    if v.Str? then ExpectValue else Other
  }

  lemma WritesKey(s: string, i: nat, k: Key)
    requires LooseKey(k) && At(s, i, PrintKey(k, false))
    requires var j := i + |PrintKey(k, false)|; j < |s| && !IsIdentContinue(s[j])
    ensures Writes(s, i, Normal, ExpectKey, PrintKey(k, true), i + |PrintKey(k, false)|, Normal, AfterKey(k))
  {
    hide Out, Writes, Escape, At;
    match k
    case BareKey(text) => WritesIdent(s, i, text);
    case QuotedKey(q, text) => WritesQuoted(s, i, ExpectKey, q, text);
  }

  /** A value that is not unquoted; those also take the blanks after them. */
  lemma WritesValue(s: string, i: nat, v: Value)
    requires LooseValue(v) && !v.Unquoted? && At(s, i, PrintValue(v, false))
    ensures Writes(s, i, Normal, ExpectValue, PrintValue(v, true), i + |PrintValue(v, false)|, Normal, AfterValue(v))
    decreases v
  {
    hide Out, Writes, Escape, At;
    match v
    case Str(q, text) => WritesQuoted(s, i, ExpectValue, q, text);
    case Literal(text) => LiteralIsVerbatim(text); WritesLiteral(s, i, text);
    case Nested(obj) => WritesObject(s, i, obj, ExpectValue);
  }

  predicate Ends(s: string, j: nat, v: Value) {
    j < |s| && (s[j] == ',' || s[j] == ';' || s[j] == '}') && (v.Unquoted? ==> EndsBareValue(s[j]))
  }

  lemma WritesValueAndBlanks(s: string, i: nat, m: Member)
    requires LooseMember(m) && At(s, i, PrintValue(m.value, false) + m.b3)
    requires Ends(s, i + |PrintValue(m.value, false) + m.b3|, m.value)
    ensures Writes(s, i, Normal, ExpectValue, PrintValue(m.value, true) + Trailing(m, true),
                   i + |PrintValue(m.value, false) + m.b3|, Normal, AfterValue(m.value))
    decreases m, 0
  {
    hide Out, Writes;
    assert StyledValue(m.value);
    if m.value.Unquoted? {
      WritesUnquoted(s, i, m.value.text, m.b3);
      assert PrintValue(m.value, true) + "" == PrintValue(m.value, true);
    } else {
      AtSplit(s, i, PrintValue(m.value, false), m.b3);
      WritesValue(s, i, m.value);
      var j := i + |PrintValue(m.value, false)|;
      WritesBlank(s, j, AfterValue(m.value), m.b3);
      WritesThen(s, i, Normal, ExpectValue, PrintValue(m.value, true),
                 j, Normal, AfterValue(m.value), m.b3, j + |m.b3|, Normal, AfterValue(m.value));
    }
  }

  /** Where the parts of a member stand. */
  lemma MemberParts(s: string, i: nat, m: Member)
    requires At(s, i, PrintMember(m, false))
    ensures var i1 := i + |m.b0|; var i2 := i1 + |PrintKey(m.key, false)|; var i3 := i2 + |m.b1|;
            var i4 := i3 + 1 + |m.b2|;
            && At(s, i, m.b0) && At(s, i1, PrintKey(m.key, false)) && At(s, i2, m.b1) && At(s, i3, ":")
            && At(s, i3 + 1, m.b2) && At(s, i4, PrintValue(m.value, false) + m.b3)
            && i4 + |PrintValue(m.value, false) + m.b3| == i + |PrintMember(m, false)|
  {
    hide At, PrintKey, PrintValue;
    var key, valueB3 := PrintKey(m.key, false), PrintValue(m.value, false) + m.b3;
    var i1 := i + |m.b0|; var i2 := i1 + |key|; var i3 := i2 + |m.b1|;
    AtSplit(s, i, m.b0, key + (m.b1 + (":" + (m.b2 + valueB3))));
    AtSplit(s, i1, key, m.b1 + (":" + (m.b2 + valueB3)));
    AtSplit(s, i2, m.b1, ":" + (m.b2 + valueB3));
    AtSplit(s, i3, ":", m.b2 + valueB3);
    AtSplit(s, i3 + 1, m.b2, valueB3);
  }

  /** What stands before a member's value. */
  function Head(m: Member, strict: bool): string {
    m.b0 + (PrintKey(m.key, strict) + (m.b1 + (":" + m.b2)))
  }

  lemma HeadAndValue(m: Member, strict: bool)
    ensures PrintMember(m, strict) == Head(m, strict) + (PrintValue(m.value, strict) + Trailing(m, strict))
  {
    hide PrintKey, PrintValue, Trailing;
    var key, value := PrintKey(m.key, strict), PrintValue(m.value, strict) + Trailing(m, strict);
    Reassociate(":", m.b2, value);
    Reassociate(m.b1, ":" + m.b2, value);
    Reassociate(key, m.b1 + (":" + m.b2), value);
    Reassociate(m.b0, key + (m.b1 + (":" + m.b2)), value);
  }

  lemma WritesHead(s: string, i: nat, m: Member)
    requires StyledMember(m) && At(s, i, PrintMember(m, false))
    ensures Writes(s, i, Normal, ExpectKey, Head(m, true), i + |Head(m, false)|, Normal, ExpectValue)
    ensures At(s, i + |Head(m, false)|, PrintValue(m.value, false) + m.b3)
  {
    hide Out, Writes, At, PrintKey, PrintValue;
    MemberParts(s, i, m);
    var i1 := i + |m.b0|; var i2 := i1 + |PrintKey(m.key, false)|; var i3 := i2 + |m.b1|;
    var i4 := i3 + 1; var i5 := i4 + |m.b2|;
    var q := AfterKey(m.key);
    AtHead(s, i3, ":");
    if m.b1 != "" { AtHead(s, i2, m.b1); }
    WritesBlank(s, i4, ExpectValue, m.b2);
    StepSpecial(s, i3, q);
    WritesThen(s, i3, Normal, q, ":", i4, Normal, ExpectValue, m.b2, i5, Normal, ExpectValue);
    WritesBlank(s, i2, q, m.b1);
    WritesThen(s, i2, Normal, q, m.b1, i3, Normal, q, ":" + m.b2, i5, Normal, ExpectValue);
    WritesKey(s, i1, m.key);
    WritesThen(s, i1, Normal, ExpectKey, PrintKey(m.key, true), i2, Normal, q, m.b1 + (":" + m.b2), i5, Normal, ExpectValue);
    WritesBlank(s, i, ExpectKey, m.b0);
    WritesThen(s, i, Normal, ExpectKey, m.b0, i1, Normal, ExpectKey,
               PrintKey(m.key, true) + (m.b1 + (":" + m.b2)), i5, Normal, ExpectValue);
  }

  lemma WritesMember(s: string, i: nat, m: Member)
    requires LooseMember(m) && At(s, i, PrintMember(m, false))
    requires Ends(s, i + |PrintMember(m, false)|, m.value)
    ensures Writes(s, i, Normal, ExpectKey, PrintMember(m, true),
                   i + |PrintMember(m, false)|, Normal, AfterValue(m.value))
    decreases m, 1
  {
    hide Out, Writes, At, PrintMember, PrintValue;
    var j, end := i + |Head(m, false)|, i + |PrintMember(m, false)|;
    WritesHead(s, i, m);
    HeadAndValue(m, false);
    HeadAndValue(m, true);
    WritesValueAndBlanks(s, j, m);
    WritesThen(s, i, Normal, ExpectKey, Head(m, true), j, Normal, ExpectValue,
               PrintValue(m.value, true) + Trailing(m, true), end, Normal, AfterValue(m.value));
  }

  /** Members and the brace that closes them. */
  lemma WritesMembers(s: string, i: nat, ms: Members)
    requires LooseMembers(ms) && At(s, i, PrintMembers(ms, false)) && At(s, i + |PrintMembers(ms, false)|, "}")
    ensures Writes(s, i, Normal, ExpectKey, PrintMembers(ms, true) + "}",
                   i + |PrintMembers(ms, false)| + 1, Normal, Other)
    decreases ms, 1
  {
    hide Out, Writes, At, PrintMember;
    var end := i + |PrintMembers(ms, false)|;
    AtHead(s, end, "}");
    match ms
    case Nil =>
      StepSpecial(s, end, ExpectKey);
      assert "" + "}" == "}";
    case Cons(m, separator, rest) =>
      var p := AfterValue(m.value);
      if rest.Nil? {
        StepSpecial(s, end, p);
        WritesMember(s, i, m);
        WritesThen(s, i, Normal, ExpectKey, PrintMember(m, true), end, Normal, p, "}", end + 1, Normal, Other);
      } else {
        WritesFirstMember(s, i, m, separator, rest);
      }
  }

  lemma WritesFirstMember(s: string, i: nat, m: Member, separator: Separator, rest: Members)
    requires LooseMembers(Cons(m, separator, rest)) && rest.Cons?
    requires At(s, i, PrintMember(m, false) + (PrintSeparator(separator, false) + PrintMembers(rest, false)))
    requires At(s, i + |PrintMember(m, false)| + 1 + |PrintMembers(rest, false)|, "}")
    ensures Writes(s, i, Normal, ExpectKey, (PrintMember(m, true) + ("," + PrintMembers(rest, true))) + "}",
                   i + |PrintMember(m, false)| + 1 + |PrintMembers(rest, false)| + 1, Normal, Other)
    decreases Cons(m, separator, rest), 0
  {
    hide Out, Writes, At, PrintMember, PrintMembers;
    var sep, tail, p := PrintSeparator(separator, false), PrintMembers(rest, false), AfterValue(m.value);
    var j := i + |PrintMember(m, false)|;
    var end := j + 1 + |tail|;
    AtSplit(s, i, PrintMember(m, false), sep + tail);
    AtSplit(s, j, sep, tail);
    AtHead(s, j, sep);
    WritesMember(s, i, m);
    WritesMembers(s, j + 1, rest);
    StepSpecial(s, j, p);
    var strictTail := PrintMembers(rest, true);
    WritesThen(s, j, Normal, p, ",", j + 1, Normal, ExpectKey, strictTail + "}", end + 1, Normal, Other);
    WritesThen(s, i, Normal, ExpectKey, PrintMember(m, true), j, Normal, p, "," + (strictTail + "}"), end + 1, Normal, Other);
    Reassociate(",", strictTail, "}");
    Reassociate(PrintMember(m, true), "," + strictTail, "}");
  }

  lemma WritesObject(s: string, i: nat, o: Object, p: ValuePosition)
    requires Loose(o) && At(s, i, Print(o, false))
    ensures Writes(s, i, Normal, p, Print(o, true), i + |Print(o, false)|, Normal, Other)
    decreases o
  {
    hide Out, Writes, At, PrintMembers;
    var members := PrintMembers(o.members, false);
    var j, end := i + 1 + |o.blank|, i + |Print(o, false)|;
    var strictBody := PrintMembers(o.members, true) + "}";
    AtSplit(s, i, "{", o.blank + (members + "}"));
    AtSplit(s, i + 1, o.blank, members + "}");
    AtSplit(s, j, members, "}");
    AtHead(s, i, "{");
    WritesMembers(s, j, o.members);
    WritesBlank(s, i + 1, ExpectKey, o.blank);
    WritesThen(s, i + 1, Normal, ExpectKey, o.blank, j, Normal, ExpectKey, strictBody, end, Normal, Other);
    StepSpecial(s, i, p);
    WritesThen(s, i, Normal, p, "{", i + 1, Normal, ExpectKey, o.blank + strictBody, end, Normal, Other);
  }

  // ---------------------------------------------------------------------
  // The cut falls on the closing brace
  // ---------------------------------------------------------------------

  /** From `i` to `j` the scan comes back to the same depth, outside quotes. */
  predicate Skips(s: string, i: nat, j: nat, depth: nat) {
    i <= |s| && j <= |s| && CutEnd(s, i, Scan(false, false, depth)) == CutEnd(s, j, Scan(false, false, depth))
  }

  predicate Inert(c: char) { c != '\'' && c != '"' && c != '{' && c != '}' }

  lemma {:induction false} SkipsInert(s: string, i: nat, t: string, depth: nat)
    requires At(s, i, t) && forall k :: 0 <= k < |t| ==> Inert(t[k])
    ensures Skips(s, i, i + |t|, depth)
    decreases |t|
  {
    if t != "" {
      AtHead(s, i, t);
      SkipsInert(s, i + 1, t[1..], depth);
    }
  }

  lemma {:induction false} CutQuoted(s: string, i: nat, q: Quote, t: string, depth: nat)
    requires At(s, i, t) && At(s, i + |t|, [QuoteChar(q)]) && QuoteChar(q) !in t
    ensures CutEnd(s, i, Scan(q == DoubleQuote, q == SingleQuote, depth)) ==
            CutEnd(s, i + |t| + 1, Scan(false, false, depth))
    decreases |t|
  {
    if t == "" {
      AtHead(s, i, [QuoteChar(q)]);
    } else {
      AtHead(s, i, t);
      CutQuoted(s, i + 1, q, t[1..], depth);
    }
  }

  lemma SkipsQuoted(s: string, i: nat, q: Quote, t: string, depth: nat)
    requires Quotable(q, t) && (q == DoubleQuote ==> '"' !in t) && At(s, i, QuotedText(q, t))
    ensures Skips(s, i, i + |QuotedText(q, t)|, depth)
  {
    hide At;
    AtSplit(s, i, [QuoteChar(q)], t + [QuoteChar(q)]);
    AtSplit(s, i + 1, t, [QuoteChar(q)]);
    AtHead(s, i, [QuoteChar(q)]);
    CutQuoted(s, i + 1, q, t, depth);
  }

  lemma SkipsBlank(s: string, i: nat, blank: string, depth: nat)
    requires AllWhitespace(blank) && At(s, i, blank)
    ensures Skips(s, i, i + |blank|, depth)
  {
    hide At;
    assert forall k :: 0 <= k < |blank| ==> IsWhitespace(blank[k]);
    SkipsInert(s, i, blank, depth);
  }

  lemma SkipsKey(s: string, i: nat, k: Key, depth: nat)
    requires LooseKey(k) && (k.QuotedKey? && k.quote == DoubleQuote ==> '"' !in k.text) && At(s, i, PrintKey(k, false))
    ensures Skips(s, i, i + |PrintKey(k, false)|, depth)
  {
    match k
    case BareKey(text) => SkipsInert(s, i, text, depth);
    case QuotedKey(q, text) => SkipsQuoted(s, i, q, text, depth);
  }

  lemma SkipsValue(s: string, i: nat, v: Value, depth: nat)
    requires StyledValue(v) && NoEscapedQuotesInValue(v) && At(s, i, PrintValue(v, false)) && depth > 0
    ensures Skips(s, i, i + |PrintValue(v, false)|, depth)
    decreases v
  {
    match v
    case Str(q, text) => SkipsQuoted(s, i, q, text, depth);
    case Literal(text) => LiteralIsVerbatim(text); SkipsInert(s, i, text, depth);
    case Unquoted(text) => SkipsInert(s, i, text, depth);
    case Nested(obj) => SkipsObject(s, i, obj, depth);
  }

  lemma SkipsMember(s: string, i: nat, m: Member, depth: nat)
    requires StyledMember(m) && NoEscapedQuotesIn(Cons(m, Comma, Nil)) && At(s, i, PrintMember(m, false)) && depth > 0
    ensures Skips(s, i, i + |PrintMember(m, false)|, depth)
    decreases m
  {
    hide At, CutEnd, PrintKey, PrintValue;
    MemberParts(s, i, m);
    var value := PrintValue(m.value, false);
    var i1 := i + |m.b0|; var i2 := i1 + |PrintKey(m.key, false)|; var i3 := i2 + |m.b1|;
    var i4 := i3 + 1; var i5 := i4 + |m.b2|;
    AtSplit(s, i5, value, m.b3);
    SkipsBlank(s, i, m.b0, depth);
    SkipsKey(s, i1, m.key, depth);
    SkipsBlank(s, i2, m.b1, depth);
    SkipsInert(s, i3, ":", depth);
    SkipsBlank(s, i4, m.b2, depth);
    SkipsValue(s, i5, m.value, depth);
    SkipsBlank(s, i5 + |value|, m.b3, depth);
  }

  lemma SkipsMembers(s: string, i: nat, ms: Members, depth: nat)
    requires StyledMembers(ms) && NoEscapedQuotesIn(ms) && At(s, i, PrintMembers(ms, false)) && depth > 0
    ensures Skips(s, i, i + |PrintMembers(ms, false)|, depth)
    decreases ms
  {
    hide At, CutEnd, PrintMember;
    match ms
    case Nil => SkipsInert(s, i, "", depth);
    case Cons(m, separator, rest) =>
      if rest.Nil? {
        SkipsMember(s, i, m, depth);
      } else {
        var sep, tail := PrintSeparator(separator, false), PrintMembers(rest, false);
        var j := i + |PrintMember(m, false)|;
        AtSplit(s, i, PrintMember(m, false), sep + tail);
        AtSplit(s, j, sep, tail);
        SkipsMember(s, i, m, depth);
        SkipsInert(s, j, sep, depth);
        SkipsMembers(s, j + 1, rest, depth);
      }
  }

  /** Up to the closing brace, which stands at the returned position. */
  lemma SkipsBody(s: string, i: nat, o: Object, depth: nat) returns (close: nat)
    requires Styled(o) && NoEscapedQuotes(o) && At(s, i, Print(o, false)) && depth > 0
    ensures i + 1 <= close == i + |Print(o, false)| - 1 < |s| && s[i] == '{' && s[close] == '}'
    ensures Skips(s, i + 1, close, depth)
    decreases o, 0
  {
    hide At, CutEnd, PrintMembers;
    var members := PrintMembers(o.members, false);
    var j := i + 1 + |o.blank|;
    close := j + |members|;
    AtSplit(s, i, "{", o.blank + (members + "}"));
    AtSplit(s, i + 1, o.blank, members + "}");
    AtSplit(s, j, members, "}");
    AtHead(s, i, "{");
    AtHead(s, close, "}");
    SkipsBlank(s, i + 1, o.blank, depth);
    SkipsMembers(s, j, o.members, depth);
  }

  lemma SkipsObject(s: string, i: nat, o: Object, depth: nat)
    requires Styled(o) && NoEscapedQuotes(o) && At(s, i, Print(o, false)) && depth > 0
    ensures Skips(s, i, i + |Print(o, false)|, depth)
    decreases o, 1
  {
    hide At, Print;
    var close := SkipsBody(s, i, o, depth + 1);
  }

  /** Whatever follows a print in any styles is cut off, and nothing else is. */
  lemma CutAfterObject(o: Object, trailing: string)
    requires Styled(o) && NoEscapedQuotes(o)
    ensures CutEnd(Print(o, false) + trailing, 0, Outside) == |Print(o, false)|
  {
    hide Print;
    var s := Print(o, false) + trailing;
    var close := SkipsBody(s, 0, o, 1);
  }

  /** Printed in any mix of styles and followed by anything, an object normalises to its
      strict print. */
  lemma LooseToStrict(o: Object, trailing: string)
    requires Loose(o) && NoEscapedQuotes(o)
    ensures Normalized(Print(o, false) + trailing) == Print(o, true)
  {
    hide Print, Out;
    var s := Print(o, false);
    CutAfterObject(o, trailing);
    assert (s + trailing)[..|s|] == s;
    TranslatesToStrict(o);
  }

  /** The translator alone, without the cut, also handles escaped quotes. */
  lemma TranslatesToStrict(o: Object)
    requires Loose(o)
    ensures Out(Print(o, false), 0, Normal, Other) == Print(o, true)
  {
    hide Print;
    var s := Print(o, false);
    WritesObject(s, 0, o, Other);
    assert Print(o, true) + "" == Print(o, true);
  }

  // ---------------------------------------------------------------------
  // Strict objects are fixed points
  // ---------------------------------------------------------------------

  /** The object restyled so that its loose print is its strict one: every text in double
      quotes, every separator a comma. */
  function Restyle(o: Object): Object {
    Object(o.blank, RestyleMembers(o.members))
  }

  function RestyleMembers(ms: Members): Members {
    match ms
    case Nil => Nil
    case Cons(m, _, rest) =>
      Cons(Member(m.b0, QuotedKey(DoubleQuote, KeyBody(m.key)), m.b1, m.b2, RestyleValue(m.value), Trailing(m, true)),
           Comma, RestyleMembers(rest))
  }

  function RestyleValue(v: Value): Value {
    match v
    case Str(q, text) => Str(DoubleQuote, Body(q, text))
    case Literal(_) => v
    case Unquoted(text) => Str(DoubleQuote, Escape(text))
    case Nested(obj) => Nested(Restyle(obj))
  }

  lemma {:induction false} EscapeIsBody(t: string)
    ensures IsBody(Escape(t))
  {
    if t != "" {
      EscapeIsBody(t[1..]);
      var e := EscapeChar(t[0]);
      assert (e + Escape(t[1..]))[|e|..] == Escape(t[1..]);
    }
  }

  lemma {:induction false} PlainIsBody(t: string)
    requires '"' !in t && '\\' !in t
    ensures IsBody(t)
  {
    if t != "" { PlainIsBody(t[1..]); }
  }

  lemma KeyBodyIsBody(k: Key)
    requires LooseKey(k)
    ensures IsBody(KeyBody(k))
  {
    match k
    case BareKey(text) => PlainIsBody(text);
    case QuotedKey(q, text) => if q == SingleQuote { EscapeIsBody(text); }
  }

  lemma RestyledValue(v: Value)
    requires StyledValue(v)
    ensures LooseValue(RestyleValue(v))
    ensures forall strict :: PrintValue(RestyleValue(v), strict) == PrintValue(v, true)
    decreases v
  {
    match v
    case Nested(obj) => Restyled(obj);
    case Str(_, text) => EscapeIsBody(text);
    case Unquoted(text) => EscapeIsBody(text);
    case Literal(_) =>
  }

  lemma RestyledMembers(ms: Members)
    requires StyledMembers(ms)
    ensures LooseMembers(RestyleMembers(ms))
    ensures forall strict :: PrintMembers(RestyleMembers(ms), strict) == PrintMembers(ms, true)
    decreases ms
  {
    match ms
    case Nil =>
    case Cons(m, _, rest) =>
      RestyledValue(m.value);
      KeyBodyIsBody(m.key);
      RestyledMembers(rest);
      var m' := RestyleMembers(ms).member;
      assert forall strict :: PrintMember(m', strict) == PrintMember(m, true);
  }

  lemma Restyled(o: Object)
    requires Styled(o)
    ensures Loose(Restyle(o))
    ensures forall strict :: Print(Restyle(o), strict) == Print(o, true)
    decreases o
  {
    RestyledMembers(o.members);
  }

  lemma {:induction false} IdentEndOfPrefix(s: string, k: nat, i: nat)
    requires i < k <= |s| && s[k - 1] == '}'
    ensures IdentEnd(s, i) == IdentEnd(s[..k], i) < k
    decreases k - i
  {
    if IsIdentContinue(s[i]) {
      IdentEndOfPrefix(s, k, i + 1);
    }
  }

  lemma {:induction false} BareEndOfPrefix(s: string, k: nat, i: nat)
    requires i < k <= |s| && s[k - 1] == '}'
    ensures BareEnd(s, i) == BareEnd(s[..k], i) < k
    decreases k - i
  {
    if !EndsBareValue(s[i]) {
      BareEndOfPrefix(s, k, i + 1);
    }
  }

  lemma {:induction false} BackOverOfPrefix(s: string, k: nat, start: nat, end: nat)
    requires start <= end <= k <= |s|
    ensures BackOverBlanks(s, start, end) == BackOverBlanks(s[..k], start, end)
    decreases end
  {
    if end > start {
      BackOverOfPrefix(s, k, start, end - 1);
    }
  }

  /** The translator writes a prefix that ends in a brace in the same way. */
  lemma {:induction false} OutOfPrefix(s: string, k: nat, i: nat, st: QuoteState, p: ValuePosition)
    returns (st': QuoteState, p': ValuePosition)
    requires i <= k <= |s| && (i < k ==> s[k - 1] == '}')
    ensures Out(s, i, st, p) == Out(s[..k], i, st, p) + Out(s, k, st', p')
    decreases k - i
  {
    if i == k {
      st', p' := st, p;
      assert "" + Out(s, k, st, p) == Out(s, k, st, p);
    } else {
      var out, j, st1, p1 := FirstStep(s, k, i, st, p);
      st', p' := OutOfPrefix(s, k, j, st1, p1);
      Reassociate(out, Out(s[..k], j, st1, p1), Out(s, k, st', p'));
    }
  }

  lemma FirstStep(s: string, k: nat, i: nat, st: QuoteState, p: ValuePosition)
    returns (out: string, j: nat, st': QuoteState, p': ValuePosition)
    requires i < k <= |s| && s[k - 1] == '}'
    ensures i < j <= k && Writes(s, i, st, p, out, j, st', p') && Writes(s[..k], i, st, p, out, j, st', p')
  {
    hide Out, Writes;
    var c, t := s[i], s[..k];
    assert t[i] == c;
    if st == Normal && !IsSpecial(c) && !IsWhitespace(c) && p == ExpectKey && IsIdentStart(c) {
      IdentEndOfPrefix(s, k, i + 1);
      j := IdentEnd(s, i + 1);
      assert t[i..j] == s[i..j];
      StepIdent(s, i);
      StepIdent(t, i);
      out, st', p' := InQuotes(s[i..j]), Normal, Other;
    } else if st == Normal && !IsSpecial(c) && !IsWhitespace(c) && p == ExpectValue && !IsBareValueStart(c) {
      BareEndOfPrefix(s, k, i + 1);
      j := BareEnd(s, i + 1);
      BackOverOfPrefix(s, k, i, j);
      assert t[i..BackOverBlanks(s, i, j)] == s[i..BackOverBlanks(s, i, j)];
      StepBare(s, i);
      StepBare(t, i);
      out, st', p' := InQuotes(EscapeQuotes(s[i..BackOverBlanks(s, i, j)])), Normal, Other;
    } else {
      out, st', p' := BothStep(s, t, i, st, p);
      j := i + 1;
    }
  }

  lemma BothStep(s: string, t: string, i: nat, st: QuoteState, p: ValuePosition)
    returns (out: string, st': QuoteState, p': ValuePosition)
    requires i < |s| && i < |t| && s[i] == t[i]
    requires st == Normal && !IsSpecial(s[i]) && !IsWhitespace(s[i]) ==>
               !(p == ExpectKey && IsIdentStart(s[i])) && !(p == ExpectValue && !IsBareValueStart(s[i]))
    ensures Writes(s, i, st, p, out, i + 1, st', p') && Writes(t, i, st, p, out, i + 1, st', p')
  {
    hide *;
    out, st', p' := CharStep(s, i, st, p);
    var out2, st2, p2 := CharStep(t, i, st, p);
  }

  /** Every other step looks at one character. */
  lemma CharStep(s: string, i: nat, st: QuoteState, p: ValuePosition)
    returns (out: string, st': QuoteState, p': ValuePosition)
    requires i < |s|
    requires st == Normal && !IsSpecial(s[i]) && !IsWhitespace(s[i]) ==>
               !(p == ExpectKey && IsIdentStart(s[i])) && !(p == ExpectValue && !IsBareValueStart(s[i]))
    ensures (out, st', p') == CharResult(s[i], st, p) && Writes(s, i, st, p, out, i + 1, st', p')
  {
    out, st', p' := CharResult(s[i], st, p).0, CharResult(s[i], st, p).1, CharResult(s[i], st, p).2;
  }

  function CharResult(c: char, st: QuoteState, p: ValuePosition): (string, QuoteState, ValuePosition) {
    match st
    case InSingle =>
      if c == '\'' then ("\"", Normal, p) else (EscapeChar(c), InSingle, p)
    case InDouble => ([c], if c == '"' then Normal else if c == '\\' then EscapeDouble else InDouble, p)
    case EscapeDouble => ([c], InDouble, p)
    case Normal =>
      if c == '\'' then ("\"", InSingle, p)
      else if c == '"' then ("\"", InDouble, p)
      else if IsSpecial(c) then (if c == ';' then "," else [c], Normal, After(c))
      else ([c], Normal, if p == ExpectValue && !IsWhitespace(c) then Other else p)
  }

  lemma CutEndIsBrace(s: string, i: nat, scan: Scan)
    requires i <= |s|
    ensures CutEnd(s, i, scan) == |s| || (i < CutEnd(s, i, scan) && s[CutEnd(s, i, scan) - 1] == '}')
    decreases |s| - i
  {
    if i < |s| {
      CutEndIsBrace(s, i + 1, AdvanceInside(scan, s[i]));
    }
  }

  lemma OutIsNonEmpty(s: string, i: nat, st: QuoteState, p: ValuePosition)
    requires i < |s|
    ensures Out(s, i, st, p) != ""
  {
  }

  /** The translator takes every loose print to the strict one, escaped quotes included; so
      the whole normalisation does, whatever follows, exactly when the brace scanner, which
      escaped quotes can mislead, cuts at the end of the object. */
  lemma LooseToStrictExactlyCut(o: Object, trailing: string)
    requires Loose(o)
    ensures var s := Print(o, false);
            Normalized(s + trailing) == Print(o, true) <==> CutEnd(s + trailing, 0, Outside) == |s|
  {
    hide Print, Out, CutEnd, Loose;
    var s := Print(o, false);
    var all := s + trailing;
    var k := CutEnd(all, 0, Outside);
    TranslatesToStrict(o);
    CutEndIsBrace(all, 0, Outside);
    ClosedByBrace(o);
    if k < |s| {
      assert all[..k] == s[..k] && (k > 0 ==> s[k - 1] == all[k - 1]);
      var st, p := OutOfPrefix(s, k, 0, Normal, Other);
      OutIsNonEmpty(s, k, st, p);
      assert |Out(s, 0, Normal, Other)| == |Out(s[..k], 0, Normal, Other)| + |Out(s, k, st, p)|;
    } else if k > |s| {
      assert all[..k][..|s|] == s && all[..k][|s| - 1] == s[|s| - 1];
      var st, p := OutOfPrefix(all[..k], |s|, 0, Normal, Other);
      OutIsNonEmpty(all[..k], |s|, st, p);
      assert |Out(all[..k], 0, Normal, Other)| == |Out(s, 0, Normal, Other)| + |Out(all[..k], |s|, st, p)|;
    } else {
      assert all[..k] == s;
    }
  }

  lemma ClosedByBrace(o: Object)
    ensures var s := Print(o, false); s != "" && s[|s| - 1] == '}'
  {
    hide PrintMembers;
  }

  /** Strict objects are fixed points, whatever follows them, exactly when the brace scanner
      cuts at their end. */
  lemma StrictIsFixedExactlyCut(o: Object, trailing: string)
    requires Styled(o)
    ensures var s := Print(o, true);
            Normalized(s + trailing) == s <==> CutEnd(s + trailing, 0, Outside) == |s|
  {
    hide Print, Out, CutEnd;
    Restyled(o);
    LooseToStrictExactlyCut(Restyle(o), trailing);
  }

  /** Strict objects without escaped quotes are fixed points, whatever follows them. */
  lemma StrictIsFixed(o: Object, trailing: string)
    requires Styled(o) && NoEscapedQuotes(Restyle(o))
    ensures Normalized(Print(o, true) + trailing) == Print(o, true)
  {
    hide Print;
    Restyled(o);
    LooseToStrict(Restyle(o), trailing);
  }

  // ---------------------------------------------------------------------
  // A semicolon after an unquoted value
  // ---------------------------------------------------------------------

  /** From (i, state, position) the translator writes something that `out` does not begin. */
  predicate Clashes(s: string, i: nat, st: QuoteState, p: ValuePosition, out: string) {
    i <= |s| && exists n :: 0 <= n < |out| && n < |Out(s, i, st, p)| && Out(s, i, st, p)[n] != out[n]
  }

  lemma ClashesLater(s: string, i: nat, st: QuoteState, p: ValuePosition, a: string,
                     j: nat, st': QuoteState, p': ValuePosition, b: string)
    requires Writes(s, i, st, p, a, j, st', p') && Clashes(s, j, st', p', b)
    ensures Clashes(s, i, st, p, a + b)
  {
    hide Out;
    var n :| 0 <= n < |b| && n < |Out(s, j, st', p')| && Out(s, j, st', p')[n] != b[n];
    assert Out(s, i, st, p)[|a| + n] == Out(s, j, st', p')[n] && (a + b)[|a| + n] == b[n];
  }

  lemma ClashesLonger(s: string, i: nat, st: QuoteState, p: ValuePosition, a: string, b: string)
    requires Clashes(s, i, st, p, a)
    ensures Clashes(s, i, st, p, a + b)
  {
    hide Out;
    var n :| 0 <= n < |a| && n < |Out(s, i, st, p)| && Out(s, i, st, p)[n] != a[n];
    assert (a + b)[n] == a[n];
  }

  lemma {:induction false} EscapeQuotesKeeps(u: string, w: string)
    requires '"' !in u
    ensures |EscapeQuotes(u + w)| >= |u| && EscapeQuotes(u + w)[..|u|] == u
    decreases |w|
  {
    if w == "" {
      assert u + w == u;
      EscapeQuotesNothing(u);
    } else {
      assert (u + w)[..|u + w| - 1] == u + w[..|w| - 1];
      EscapeQuotesKeeps(u, w[..|w| - 1]);
    }
  }

  lemma {:induction false} BackStops(s: string, start: nat, end: nat, q: nat)
    requires start <= q < end <= |s| && !IsWhitespace(s[q])
    ensures BackOverBlanks(s, start, end) > q
    decreases end
  {
    if end > q + 1 && IsWhitespace(s[end - 1]) { BackStops(s, start, end - 1, q); }
  }

  predicate IsDelimiter(c: char) { c == ',' || c == ';' || c == '}' }

  /** What is written for an unquoted text that gets quotes: the text, and then the closing
      quote if a comma or a brace follows, a blank or a semicolon otherwise. */
  lemma UnquotedStart(s: string, i: nat, t: string, blank: string) returns (c: char)
    requires IsUnquoted(t) && !IsBareValueStart(t[0]) && AllWhitespace(blank) && At(s, i, t + blank)
    requires var q := i + |t| + |blank|; q < |s| && IsDelimiter(s[q])
    ensures |Out(s, i, Normal, ExpectValue)| >= |t| + 2
    ensures Out(s, i, Normal, ExpectValue)[..|t| + 2] == "\"" + (t + [c])
    ensures c != '\\' && (s[i + |t| + |blank|] == ';' ==> c != '"')
  {
    hide *;
    AtSplit(s, i, t, blank);
    UnquotedFacts(t);
    AtHead(s, i, t);
    AtSlice(s, i, t);
    AfterText(s, i, t, blank);
    BareRunsPast(s, i, t, blank);
    StepBare(s, i);
    var mid, end := i + |t|, BareEnd(s, i + 1);
    var back := BackOverBlanks(s, i, end);
    if back == mid {
      EscapeQuotesNothing(t);
      c := '"';
      StartOfQuoted(s, i, t, '"', t, end);
    } else {
      c := s[mid];
      assert s[i..back] == (t + [c]) + s[mid + 1..back];
      EscapeQuotesKeeps(t + [c], s[mid + 1..back]);
      StartOfQuoted(s, i, t, c, EscapeQuotes(s[i..back]), end);
    }
  }

  lemma StartOfQuoted(s: string, i: nat, t: string, c: char, value: string, j: nat)
    requires Writes(s, i, Normal, ExpectValue, InQuotes(value), j, Normal, Other)
    requires (value == t && c == '"') || (|value| > |t| && value[..|t| + 1] == t + [c])
    ensures |Out(s, i, Normal, ExpectValue)| >= |t| + 2
    ensures Out(s, i, Normal, ExpectValue)[..|t| + 2] == "\"" + (t + [c])
  {
    hide Out;
    var out := Out(s, i, Normal, ExpectValue);
    assert forall n :: 0 <= n < |value| + 2 ==> out[n] == InQuotes(value)[n];
    if value != t {
      assert forall n :: 0 <= n <= |t| ==> value[n] == value[..|t| + 1][n];
    }
  }

  lemma AfterText(s: string, i: nat, t: string, blank: string)
    requires AllWhitespace(blank) && At(s, i + |t|, blank)
    requires var q := i + |t| + |blank|; q < |s| && IsDelimiter(s[q])
    ensures s[i + |t|] != '"' && s[i + |t|] != '\\'
  {
    if blank != "" { AtHead(s, i + |t|, blank); }
  }

  lemma BareRunsPast(s: string, i: nat, t: string, blank: string)
    requires IsUnquoted(t) && AllWhitespace(blank) && At(s, i, t) && At(s, i + |t|, blank)
    requires var q := i + |t| + |blank|; q < |s|
    ensures BackOverBlanks(s, i, BareEnd(s, i + 1)) >= i + |t|
    ensures s[i + |t| + |blank|] == ';' ==> BackOverBlanks(s, i, BareEnd(s, i + 1)) > i + |t| + |blank|
  {
    var q, last := i + |t| + |blank|, i + |t| - 1;
    UnquotedFacts(t);
    assert forall k :: 0 <= k < |blank| ==> IsWhitespace(blank[k]);
    assert s[i + (|t| - 1)] == t[|t| - 1];
    BareRunsOver(s, i, t);
    BareRunsOver(s, i + |t|, blank);
    AtHead(s, i, t);
    hide At, IsUnquoted, AllWhitespace;
    assert BareEnd(s, i) == BareEnd(s, i + 1) == BareEnd(s, q);
    BackStops(s, i, BareEnd(s, i + 1), last);
    if s[q] == ';' {
      assert BareEnd(s, q) == BareEnd(s, q + 1);
      BackStops(s, i, BareEnd(s, i + 1), q);
    }
  }

  lemma {:induction false} EscapeOfBackslashes(t: string, k: nat)
    requires k <= |t| && forall n :: 0 <= n < k ==> t[n] == '\\'
    ensures |Escape(t)| >= 2 * k && forall n :: 0 <= n < 2 * k ==> Escape(t)[n] == '\\'
    decreases k
  {
    if k > 0 {
      EscapeOfBackslashes(t[1..], k - 1);
      assert Escape(t) == "\\\\" + Escape(t[1..]);
    }
  }

  /** Where the leading backslashes of `t` end. */
  function Backslashes(t: string): (k: nat)
    ensures k <= |t| && (forall n :: 0 <= n < k ==> t[n] == '\\') && (k < |t| ==> t[k] != '\\')
  {
    if t != "" && t[0] == '\\' then 1 + Backslashes(t[1..]) else 0
  }

  /** Backslashes that are not doubled show where they end. */
  lemma {:induction false} BackslashShows(t: string, c: char) returns (n: nat)
    requires '\\' in t && '"' !in t && c != '\\'
    ensures n <= |t| && n < |Escape(t)| && (t + [c])[n] != Escape(t)[n]
  {
    if t[0] == '\\' {
      n := Backslashes(t);
      EscapeOfBackslashes(t, n);
    } else {
      var k := BackslashShows(t[1..], c);
      n := k + 1;
      assert (t + [c])[n] == (t[1..] + [c])[k] && Escape(t)[n] == Escape(t[1..])[k];
    }
  }

  lemma ClashesAtOnce(s: string, i: nat, t: string, strict: string)
    requires i < |s| && t != "" && s[i] == t[0] && IsBareValueStart(t[0]) && !IsSpecial(t[0]) && !IsWhitespace(t[0])
    ensures Clashes(s, i, Normal, ExpectValue, InQuotes(strict))
  {
    StepVerbatim(s, i, ExpectValue);
    hide IsWhitespace;
    assert Out(s, i, Normal, ExpectValue)[0] == t[0] && InQuotes(strict)[0] == '"';
  }

  lemma ClashesWithin(s: string, i: nat, t: string, c: char)
    requires i <= |s| && '"' !in t && c != '\\' && ('\\' in t || c != '"')
    requires var out := Out(s, i, Normal, ExpectValue); |out| >= |t| + 2 && out[..|t| + 2] == "\"" + (t + [c])
    ensures Clashes(s, i, Normal, ExpectValue, InQuotes(Escape(t)))
  {
    hide Out;
    var out, strict := Out(s, i, Normal, ExpectValue), InQuotes(Escape(t));
    var n: nat;
    if '\\' in t {
      n := BackslashShows(t, c);
      assert strict[n + 1] == Escape(t)[n];
    } else {
      EscapeNothing(t);
      n := |t|;
      assert strict[n + 1] == '"';
    }
    assert out[n + 1] == out[..|t| + 2][n + 1] == (t + [c])[n];
  }

  /** An unquoted value that is not understood, or is followed by a semicolon, does not come
      out as the strict string. */
  lemma ClashesUnquoted(s: string, i: nat, t: string, blank: string)
    requires IsUnquoted(t) && AllWhitespace(blank) && At(s, i, t + blank)
    requires var q := i + |t| + |blank|; q < |s| && IsDelimiter(s[q]) && (!GetsQuoted(t) || s[q] == ';')
    ensures Clashes(s, i, Normal, ExpectValue, InQuotes(Escape(t)))
  {
    assert GetsQuoted(t) <==> t != "" && !IsBareValueStart(t[0]) && '\\' !in t;
    hide *;
    UnquotedFacts(t);
    AtSplit(s, i, t, blank);
    AtHead(s, i, t);
    if IsBareValueStart(t[0]) {
      ClashesAtOnce(s, i, t, Escape(t));
    } else {
      var c := UnquotedStart(s, i, t, blank);
      ClashesWithin(s, i, t, c);
    }
  }

  /** The value is not understood, or is unquoted with a semicolon after it. */
  predicate BreaksAt(s: string, i: nat, m: Member) {
    var q := i + |PrintMember(m, false)|;
    q < |s| && IsDelimiter(s[q]) && (!UnderstoodValue(m.value) || (m.value.Unquoted? && s[q] == ';'))
  }

  lemma ClashesValue(s: string, i: nat, m: Member)
    requires StyledMember(m) && At(s, i, PrintValue(m.value, false) + m.b3)
    requires var q := i + |PrintValue(m.value, false) + m.b3|;
             q < |s| && IsDelimiter(s[q]) && (!UnderstoodValue(m.value) || (m.value.Unquoted? && s[q] == ';'))
    ensures Clashes(s, i, Normal, ExpectValue, PrintValue(m.value, true))
    decreases m, 0
  {
    assert StyledValue(m.value);
    hide Out, At, Clashes, IsUnquoted, GetsQuoted, IsDelimiter;
    match m.value
    case Nested(obj) =>
      AtSplit(s, i, PrintValue(m.value, false), m.b3);
      ClashesObject(s, i, obj, ExpectValue);
    case Unquoted(text) => ClashesUnquoted(s, i, text, m.b3);
    case _ =>
  }

  lemma ClashesMember(s: string, i: nat, m: Member)
    requires StyledMember(m) && At(s, i, PrintMember(m, false)) && BreaksAt(s, i, m)
    ensures Clashes(s, i, Normal, ExpectKey, PrintMember(m, true))
    decreases m, 1
  {
    hide Out, Writes, At, Clashes, PrintMember, Head, StyledMember, IsDelimiter, UnderstoodValue, PrintValue, Trailing;
    var j := i + |Head(m, false)|;
    WritesHead(s, i, m);
    HeadAndValue(m, false);
    HeadAndValue(m, true);
    LooseTrailing(m);
    ClashesValue(s, j, m);
    ClashesLonger(s, j, Normal, ExpectValue, PrintValue(m.value, true), Trailing(m, true));
    ClashesLater(s, i, Normal, ExpectKey, Head(m, true), j, Normal, ExpectValue, PrintValue(m.value, true) + Trailing(m, true));
  }

  lemma LooseTrailing(m: Member)
    ensures Trailing(m, false) == m.b3
  {
  }

  lemma ClashesMembers(s: string, i: nat, ms: Members)
    requires StyledMembers(ms) && !UnderstoodIn(ms)
    requires At(s, i, PrintMembers(ms, false)) && At(s, i + |PrintMembers(ms, false)|, "}")
    ensures Clashes(s, i, Normal, ExpectKey, PrintMembers(ms, true))
    decreases ms, 2
  {
    hide Out, Writes, At, Clashes, PrintMember, StyledMember, UnderstoodValue;
    AtHead(s, i + |PrintMembers(ms, false)|, "}");
    if ms.rest.Nil? {
      assert UnderstoodIn(Nil);
      ClashesMember(s, i, ms.member);
    } else {
      ClashesFirst(s, i, ms.member, ms.separator, ms.rest);
    }
  }

  lemma ClashesFirst(s: string, i: nat, m: Member, separator: Separator, rest: Members)
    requires var ms := Cons(m, separator, rest); StyledMembers(ms) && !UnderstoodIn(ms) && rest.Cons?
    requires At(s, i, PrintMember(m, false) + (PrintSeparator(separator, false) + PrintMembers(rest, false)))
    requires At(s, i + |PrintMember(m, false)| + 1 + |PrintMembers(rest, false)|, "}")
    ensures Clashes(s, i, Normal, ExpectKey, PrintMember(m, true) + ("," + PrintMembers(rest, true)))
    decreases Cons(m, separator, rest), 1
  {
    hide Out, Writes, At, Clashes, PrintMember, PrintMembers, StyledMember, UnderstoodValue;
    var sep, tail, j := PrintSeparator(separator, false), PrintMembers(rest, false), i + |PrintMember(m, false)|;
    AtSplit(s, i, PrintMember(m, false), sep + tail);
    AtSplit(s, j, sep, tail);
    AtHead(s, j, sep);
    var strictTail, p := "," + PrintMembers(rest, true), AfterValue(m.value);
    if BreaksAt(s, i, m) {
      ClashesMember(s, i, m);
      ClashesLonger(s, i, Normal, ExpectKey, PrintMember(m, true), strictTail);
    } else {
      WritesMember(s, i, m);
      StepSpecial(s, j, p);
      ClashesMembers(s, j + 1, rest);
      ClashesLater(s, j, Normal, p, ",", j + 1, Normal, ExpectKey, PrintMembers(rest, true));
      ClashesLater(s, i, Normal, ExpectKey, PrintMember(m, true), j, Normal, p, strictTail);
    }
  }

  lemma ClashesObject(s: string, i: nat, o: Object, p: ValuePosition)
    requires Styled(o) && !Understood(o) && At(s, i, Print(o, false))
    ensures Clashes(s, i, Normal, p, Print(o, true))
    decreases o
  {
    hide Out, Writes, At, PrintMembers, Clashes;
    var members, strict, j := PrintMembers(o.members, false), PrintMembers(o.members, true), i + 1 + |o.blank|;
    AtSplit(s, i, "{", o.blank + (members + "}"));
    AtSplit(s, i + 1, o.blank, members + "}");
    AtSplit(s, j, members, "}");
    AtHead(s, i, "{");
    ClashesMembers(s, j, o.members);
    StepSpecial(s, i, p);
    ClashesLonger(s, j, Normal, ExpectKey, strict, "}");
    WritesBlank(s, i + 1, ExpectKey, o.blank);
    ClashesLater(s, i + 1, Normal, ExpectKey, o.blank, j, Normal, ExpectKey, strict + "}");
    ClashesLater(s, i, Normal, p, "{", i + 1, Normal, ExpectKey, o.blank + (strict + "}"));
  }

  /** An object written in any styles, without escaped quotes and followed by anything,
      normalises to its strict print exactly when no unquoted value is followed by a semicolon,
      begins with a digit, a sign, `t`, `f` or `n`, or holds a backslash. */
  lemma UnderstoodExactly(o: Object, trailing: string)
    requires Styled(o) && NoEscapedQuotes(o)
    ensures Normalized(Print(o, false) + trailing) == Print(o, true) <==> Understood(o)
  {
    hide Print, Out, Styled, NoEscapedQuotes;
    var s := Print(o, false);
    if Understood(o) {
      LooseToStrict(o, trailing);
    } else {
      CutAfterObject(o, trailing);
      assert (s + trailing)[..|s|] == s;
      ClashesObject(s, 0, o, Other);
    }
  }

  // ---------------------------------------------------------------------
  // Two surprises
  // ---------------------------------------------------------------------

  /** The object {"k":"\"}"}, for any key text without quotes. */
  function Misleading(k: string): Object {
    Single(MisleadingMember(k))
  }

  function MisleadingMember(k: string): Member {
    Member("", QuotedKey(DoubleQuote, k), "", "", Str(DoubleQuote, "\\\"}"), "")
  }

  function Single(m: Member): Object { Object("", Cons(m, Comma, Nil)) }

  lemma SingleMember(m: Member, strict: bool)
    ensures Print(Single(m), strict) == "{" + (PrintMember(m, strict) + "}")
    ensures Styled(Single(m)) <==> StyledMember(m)
    ensures Understood(Single(m)) <==> UnderstoodValue(m.value)
    ensures NoEscapedQuotes(Single(m)) <==>
              (m.key.QuotedKey? && m.key.quote == DoubleQuote ==> '"' !in m.key.text) && NoEscapedQuotesInValue(m.value)
  {
    hide PrintMember, StyledMember, UnderstoodValue, NoEscapedQuotesInValue;
    assert PrintMembers(Cons(m, Comma, Nil), strict) == PrintMember(m, strict);
    assert StyledMembers(Nil) && UnderstoodIn(Nil) && NoEscapedQuotesIn(Nil);
    assert StyledMembers(Cons(m, Comma, Nil)) <==> StyledMember(m);
    assert UnderstoodIn(Cons(m, Comma, Nil)) <==> UnderstoodValue(m.value);
    assert "" + (PrintMember(m, strict) + "}") == PrintMember(m, strict) + "}";
  }

  /** An escaped quote before a closing brace makes the scanner cut a strict object after
      the brace inside its text, so the object is not a fixed point. */
  lemma EscapedQuoteCutsShort(k: string)
    requires IsBody(k) && '"' !in k
    ensures Loose(Misleading(k)) && Print(Misleading(k), false) == Print(Misleading(k), true)
    ensures CutEnd(Print(Misleading(k), false), 0, Outside) == |Print(Misleading(k), false)| - 2
  {
    hide At, CutEnd, PrintMember, PrintKey, PrintValue, Print;
    MisleadingPrints(k);
    var m, s := MisleadingMember(k), Print(Misleading(k), false);
    AtAll(s);
    ReachesValue(s, m);
    var i := 2 + |PrintKey(m.key, false)|;
    AtHead(s, 0, s);
    CutOpens(s);
    CutsInside(s, i);
    SingleLength(m);
  }

  lemma SingleLength(m: Member)
    requires m.b0 == m.b1 == m.b2 == m.b3 == ""
    ensures |Print(Single(m), false)| == |PrintKey(m.key, false)| + |PrintValue(m.value, false)| + 3
  {
    hide PrintKey, PrintValue;
    SingleMember(m, false);
  }

  /** With no blanks, the scan gets from the opening brace to the value at depth one. */
  lemma ReachesValue(s: string, m: Member)
    requires m.b0 == m.b1 == m.b2 == m.b3 == "" && m.key.QuotedKey? && '"' !in m.key.text && LooseKey(m.key)
    requires At(s, 0, "{" + (PrintMember(m, false) + "}"))
    ensures Skips(s, 1, 2 + |PrintKey(m.key, false)|, 1)
    ensures At(s, 2 + |PrintKey(m.key, false)|, PrintValue(m.value, false))
  {
    hide At, CutEnd, PrintMember, PrintKey, PrintValue;
    var i := 1 + |PrintKey(m.key, false)|;
    AtSplit(s, 0, "{", PrintMember(m, false) + "}");
    AtSplit(s, 1, PrintMember(m, false), "}");
    MemberParts(s, 1, m);
    SkipsKey(s, 1, m.key, 1);
    SkipsInert(s, i, ":", 1);
    AtSplit(s, i + 1, PrintValue(m.value, false), "");
  }

  lemma MisleadingPrints(k: string)
    requires IsBody(k)
    ensures Loose(Misleading(k)) && Print(Misleading(k), false) == Print(Misleading(k), true)
    ensures Print(Misleading(k), false) == "{" + (PrintMember(MisleadingMember(k), false) + "}")
    ensures PrintValue(MisleadingMember(k).value, false) == "\"\\\"}\""
  {
    var m := MisleadingMember(k);
    SingleMember(m, false);
    SingleMember(m, true);
    assert StyledValue(m.value) && StyledMember(m) && UnderstoodValue(m.value);
    hide Print;
    assert PrintMember(m, false) == PrintMember(m, true);
    assert QuotedText(DoubleQuote, "\\\"}") == "\"\\\"}\"";
  }

  lemma AtAll(s: string)
    ensures At(s, 0, s)
  {
  }

  lemma CutOpens(s: string)
    requires s != "" && s[0] == '{'
    ensures CutEnd(s, 0, Outside) == CutEnd(s, 1, Scan(false, false, 1))
  {
  }

  lemma CutsInside(s: string, i: nat)
    requires At(s, i, "\"\\\"}\"")
    ensures CutEnd(s, i, Scan(false, false, 1)) == i + 4
  {
    var t := "\"\\\"}\"";
    assert s[i] == t[0] && s[i + 1] == t[1] && s[i + 2] == t[2] && s[i + 3] == t[3];
    assert CutEnd(s, i + 3, Scan(false, false, 1)) == i + 4;
    assert CutEnd(s, i + 1, Scan(true, false, 1)) == CutEnd(s, i + 2, Scan(true, false, 1));
  }

  /** After an unquoted value a semicolon does not separate: what looks like a second
      member becomes part of the first one's text. */
  lemma SemicolonAfterUnquoted(k: string, u: string, v: string)
    requires IsIdent(k) && IsUnquoted(u + ";" + v) && GetsQuoted(u + ";" + v)
    ensures Normalized("{" + (k + (":" + ((u + ";" + v) + "}")))) ==
            "{" + (InQuotes(k) + (":" + (InQuotes(u + ";" + v) + "}")))
  {
    var text := u + ";" + v;
    var m := Member("", BareKey(k), "", "", Unquoted(text), "");
    SingleMember(m, false);
    SingleMember(m, true);
    assert StyledValue(m.value) && StyledMember(m) && UnderstoodValue(m.value);
    LooseToStrict(Single(m), "");
    EscapeNothing(text);
    Flatten(k, text);
    Flatten(InQuotes(k), InQuotes(text));
    assert Print(Single(m), false) + "" == Print(Single(m), false);
  }

  /** A bare word that begins like a literal stays bare, which is not JSON. */
  lemma BareWordStaysBare(k: string, w: string)
    requires IsIdent(k) && IsUnquoted(w) && IsVerbatim(w)
    ensures Normalized("{" + (k + (":" + (w + "}")))) == "{" + (InQuotes(k) + (":" + (w + "}")))
  {
    hide Out, Writes, At, CutEnd, IsUnquoted, IsVerbatim, Print;
    var m := Member("", BareKey(k), "", "", Unquoted(w), "");
    var o, s := Single(m), "{" + (k + (":" + (w + "}")));
    SingleMember(m, false);
    Flatten(k, w);
    CutAfterObject(o, "");
    assert s + "" == s && s[..|s|] == s;
    AtAll(s);
    WritesBareWord(s, k, w);
  }

  lemma WritesBareWord(s: string, k: string, w: string)
    requires s == "{" + (k + (":" + (w + "}"))) && IsIdent(k) && IsVerbatim(w)
    ensures Out(s, 0, Normal, Other) == "{" + (InQuotes(k) + (":" + (w + "}")))
  {
    var i, end := 1 + |k|, |s|;
    AtAll(s);
    hide *;
    AtSplit(s, 0, "{", k + (":" + (w + "}")));
    AtSplit(s, 1, k, ":" + (w + "}"));
    AtHead(s, 0, "{");
    AtHead(s, i, ":" + (w + "}"));
    WritesBareValue(s, i, w);
    ColonEndsKey();
    WritesIdent(s, 1, k);
    WritesThen(s, 1, Normal, ExpectKey, InQuotes(k), i, Normal, Other, ":" + (w + "}"), end, Normal, Other);
    BraceOpens(s);
    WritesThen(s, 0, Normal, Other, "{", 1, Normal, ExpectKey, InQuotes(k) + (":" + (w + "}")), end, Normal, Other);
    NothingLeft(s);
  }

  lemma WritesBareValue(s: string, i: nat, w: string)
    requires IsVerbatim(w) && At(s, i, ":" + (w + "}"))
    ensures Writes(s, i, Normal, Other, ":" + (w + "}"), i + |w| + 2, Normal, Other)
  {
    hide Out, Writes, At, IsVerbatim;
    var j := i + 1 + |w|;
    AtSplit(s, i, ":", w + "}");
    AtSplit(s, i + 1, w, "}");
    AtHead(s, i, ":");
    AtHead(s, j, "}");
    StepSpecial(s, j, Other);
    WritesLiteral(s, i + 1, w);
    WritesThen(s, i + 1, Normal, ExpectValue, w, j, Normal, Other, "}", j + 1, Normal, Other);
    StepSpecial(s, i, Other);
    WritesThen(s, i, Normal, Other, ":", i + 1, Normal, ExpectValue, w + "}", j + 1, Normal, Other);
  }

  lemma ColonEndsKey()
    ensures !IsIdentContinue(':')
  {
  }

  lemma BraceOpens(s: string)
    requires s != "" && s[0] == '{'
    ensures Writes(s, 0, Normal, Other, "{", 1, Normal, ExpectKey)
  {
    hide Out;
    StepSpecial(s, 0, Other);
  }

  lemma NothingLeft(s: string)
    ensures forall out :: Writes(s, 0, Normal, Other, out, |s|, Normal, Other) ==> Out(s, 0, Normal, Other) == out
  {
    forall out: string ensures out + "" == out {}
  }

  lemma NumberStarts(t: string)
    requires IsNumber(t)
    ensures t != "" && (IsDigit(t[0]) || t[0] == '-')
  {
    var a, b, c :| t == a + (b + c) && IsInteger(a) && IsFraction(b) && IsExponent(c);
    assert t[0] == a[0];
  }

  /** `test` is such a word. */
  lemma TestIsSuchAWord()
    ensures IsUnquoted("test") && IsVerbatim("test")
  {
    assert IsNumber("test") ==> IsDigit('t') || 't' == '-' by {
      if IsNumber("test") { NumberStarts("test"); }
    }
  }

  /** A backslash in a bare value is not doubled, so the value is not the text it was. */
  lemma BackslashIsMisread(k: string)
    requires IsIdent(k)
    ensures var o := Single(Member("", BareKey(k), "", "", Unquoted("a\\b"), ""));
            Styled(o) && NoEscapedQuotes(o) && Normalized(Print(o, false)) != Print(o, true)
  {
    var t := "a\\b";
    var m := Member("", BareKey(k), "", "", Unquoted(t), "");
    var o := Single(m);
    assert t[1] == '\\' && !GetsQuoted(t);
    assert IsNumber(t) ==> IsDigit('a') || 'a' == '-' by {
      if IsNumber(t) { NumberStarts(t); }
    }
    assert IsUnquoted(t);
    SingleMember(m, false);
    UnderstoodExactly(o, "");
    assert Print(o, false) + "" == Print(o, false);
  }

  lemma Flatten(k: string, v: string)
    ensures "{" + (k + (":" + (v + "}"))) == "{" + (("" + (k + ("" + (":" + ("" + (v + "")))))) + "}")
  {
  }

  // ---------------------------------------------------------------------
  // Characters, and braces before the object
  // ---------------------------------------------------------------------

  /** What a bare key starts with and consists of, what starts a value that gets no quotes,
      and what ends a value that does. */
  lemma CharacterClasses(c: char)
    ensures IsIdentStart(c) <==> 'a' <= LowerChar(c) <= 'z' || c in "_$"
    ensures IsIdentContinue(c) <==> 'a' <= LowerChar(c) <= 'z' || c in "0123456789_$-"
    ensures !IsSpecial(c) ==> (IsBareValueStart(c) <==> c in "0123456789-+tfn")
    ensures EndsBareValue(c) <==> c in ",}]"
  {
    if IsDigit(c) {
      var n := c as int - '0' as int;
      assert "0123456789_$-"[n] == c && "0123456789-+tfn"[n] == c;
    }
  }

  lemma {:induction false} CutShift(a: string, s: string, i: nat, scan: Scan)
    requires i <= |s|
    ensures CutEnd(a + s, |a| + i, scan) == |a| + CutEnd(s, i, scan)
    decreases |s| - i
  {
    if i < |s| {
      assert (a + s)[|a| + i] == s[i];
      CutShift(a, s, i + 1, AdvanceInside(scan, s[i]));
    }
  }

  /** Closing braces before the object do not count. */
  lemma StrayClosingBrace(s: string)
    ensures CutEnd("}" + s, 0, Outside) == 1 + CutEnd(s, 0, Outside)
  {
    CutShift("}", s, 0, Outside);
    assert ("}" + s)[0] == '}';
  }
}
