/** Characters and strings as the Rust crates see them: `char` is a Unicode
    scalar value, `trim` removes Unicode white space, case folding is ASCII. */
module Text {

  datatype Option<+T> = None | Some(value: T) {
    function GetOr(default: T): T {
      match this
      case Some(v) => v
      case None => default
    }
  }

  lemma Reassociate<T>(a: seq<T>, b: seq<T>, c: seq<T>)
    ensures (a + b) + c == a + (b + c)
  {
  }

  /** `t` stands at position `i` of `s`. */
  predicate At(s: string, i: nat, t: string) {
    i + |t| <= |s| && forall k :: 0 <= k < |t| ==> s[i + k] == t[k]
  }

  /** The Unicode property White_Space, which `char::is_whitespace` tests. */
  predicate IsWhitespace(c: char) {
    || '\U{0009}' <= c <= '\U{000D}'
    || c == ' ' || c == '\U{0085}' || c == '\U{00A0}' || c == '\U{1680}'
    || '\U{2000}' <= c <= '\U{200A}'
    || c == '\U{2028}' || c == '\U{2029}' || c == '\U{202F}'
    || c == '\U{205F}' || c == '\U{3000}'
  }

  predicate AllWhitespace(s: string) {
    forall i :: 0 <= i < |s| ==> IsWhitespace(s[i])
  }

  /** The last white-space run of `s` removed. */
  function TrimEnd(s: string): string {
    if s != "" && IsWhitespace(s[|s| - 1]) then TrimEnd(s[..|s| - 1]) else s
  }

  lemma {:induction false} TrimEndMaximal(s: string)
    ensures TrimEnd(s) <= s && AllWhitespace(s[|TrimEnd(s)|..])
    ensures TrimEnd(s) == "" || !IsWhitespace(TrimEnd(s)[|TrimEnd(s)| - 1])
  {
    if s != "" && IsWhitespace(s[|s| - 1]) {
      TrimEndMaximal(s[..|s| - 1]);
      assert s[|TrimEnd(s)|..] == s[..|s| - 1][|TrimEnd(s)|..] + [s[|s| - 1]];
    }
  }

  /** The first white-space run of `s` removed. */
  function TrimStart(s: string): string {
    if s != "" && IsWhitespace(s[0]) then TrimStart(s[1..]) else s
  }

  lemma {:induction false} TrimStartMaximal(s: string)
    ensures |TrimStart(s)| <= |s| && TrimStart(s) == s[|s| - |TrimStart(s)|..]
    ensures AllWhitespace(s[..|s| - |TrimStart(s)|])
    ensures TrimStart(s) == "" || !IsWhitespace(TrimStart(s)[0])
  {
    if s != "" && IsWhitespace(s[0]) {
      TrimStartMaximal(s[1..]);
      var n := |s| - |TrimStart(s)|;
      assert s[..n] == [s[0]] + s[1..][..n - 1];
    }
  }

  function Trim(s: string): string { TrimEnd(TrimStart(s)) }

  /** No white space at either end. */
  predicate Trimmed(s: string) {
    s == "" || (!IsWhitespace(s[0]) && !IsWhitespace(s[|s| - 1]))
  }

  lemma TrimIsTrimmed(s: string)
    ensures Trimmed(Trim(s)) && |Trim(s)| <= |s|
  {
    TrimStartMaximal(s);
    TrimEndMaximal(TrimStart(s));
  }

  lemma TrimOfTrimmed(s: string)
    requires Trimmed(s)
    ensures Trim(s) == s
  {
  }

  lemma TrimTwice(s: string)
    ensures Trim(Trim(s)) == Trim(s)
  {
    TrimIsTrimmed(s);
    TrimOfTrimmed(Trim(s));
  }

  /** `trim` strips any white space put around a text that has none at its ends. */
  lemma TrimPadded(before: string, s: string, after: string)
    requires AllWhitespace(before) && AllWhitespace(after) && Trimmed(s)
    ensures Trim(before + s + after) == s
  {
    TrimStartPadded(before, s + after);
    assert before + s + after == before + (s + after);
    if s == "" {
      assert s + after == after;
      TrimStartPadded(after, "");
      assert after + "" == after;
    } else {
      assert TrimStart(s + after) == s + after;
      TrimEndPadded(s, after);
    }
  }

  /** Trimming the end first makes no difference. */
  lemma TrimAfterTrimEnd(s: string)
    ensures Trim(TrimEnd(s)) == Trim(s)
  {
    var x := TrimEnd(s);
    TrimEndMaximal(s);
    TrimStartMaximal(x);
    TrimEndMaximal(TrimStart(x));
    TrimIsTrimmed(x);
    var m, k := Trim(x), |x| - |TrimStart(x)|;
    var after := TrimStart(x)[|m|..] + s[|x|..];
    assert x == x[..k] + TrimStart(x) && TrimStart(x) == m + TrimStart(x)[|m|..];
    assert s == x[..k] + m + after;
    TrimPadded(x[..k], m, after);
  }

  lemma TrimStartPadded(before: string, s: string)
    requires AllWhitespace(before)
    ensures TrimStart(before + s) == TrimStart(s)
  {
    if before == "" {
      assert before + s == s;
    } else {
      assert (before + s)[1..] == before[1..] + s;
      TrimStartPadded(before[1..], s);
    }
  }

  lemma TrimEndPadded(s: string, after: string)
    requires AllWhitespace(after)
    ensures TrimEnd(s + after) == TrimEnd(s)
  {
    if after == "" {
      assert s + after == s;
    } else {
      var a := after[..|after| - 1];
      assert (s + after)[..|s + after| - 1] == s + a;
      TrimEndPadded(s, a);
    }
  }

  /** A text is blank exactly when nothing is left of it. */
  lemma BlankExactly(s: string)
    ensures Trim(s) == "" <==> AllWhitespace(s)
  {
    TrimStartMaximal(s);
    TrimEndMaximal(TrimStart(s));
    if AllWhitespace(s) {
      TrimPadded(s, "", "");
      assert s + "" + "" == s;
    }
    if TrimStart(s) == "" { assert s[..|s|] == s; }
  }

  function LowerChar(c: char): char {
    if 'A' <= c <= 'Z' then c - 'A' + 'a' else c
  }

  /** `to_ascii_lowercase`. */
  function Lower(s: string): string {
    seq(|s|, i requires 0 <= i < |s| => LowerChar(s[i]))
  }

  /** The text before the first occurrence of `c`, all of it if there is none. */
  function UpTo(s: string, c: char): string {
    if s == "" || s[0] == c then "" else [s[0]] + UpTo(s[1..], c)
  }

  lemma {:induction false} UpToNone(s: string, c: char)
    requires c !in s
    ensures UpTo(s, c) == s
  {
    if s != "" { UpToNone(s[1..], c); }
  }

  lemma {:induction false} UpToStops(s: string, rest: string, c: char)
    requires c !in s && rest != "" && rest[0] == c
    ensures UpTo(s + rest, c) == s
  {
    if s == "" {
      assert s + rest == rest;
    } else {
      assert (s + rest)[1..] == s[1..] + rest;
      UpToStops(s[1..], rest, c);
    }
  }

  function Join(parts: seq<string>, sep: string): string {
    if parts == [] then "" else if |parts| == 1 then parts[0] else parts[0] + sep + Join(parts[1..], sep)
  }

  lemma {:induction false} UpToIsPrefix(s: string, c: char)
    ensures |UpTo(s, c)| <= |s|
  {
    if s != "" && s[0] != c { UpToIsPrefix(s[1..], c); }
  }

  function Split(s: string, c: char): seq<string> {
    var part := UpTo(s, c);
    UpToIsPrefix(s, c);
    if |part| == |s| then [s] else [part] + Split(s[|part| + 1..], c)
  }

  predicate NoneHas(parts: seq<string>, c: char) {
    forall k :: 0 <= k < |parts| ==> c !in parts[k]
  }

  /** Parts free of the separator are told apart by their join. */
  lemma {:induction false} SplitOfJoin(parts: seq<string>, c: char)
    requires parts != [] && NoneHas(parts, c)
    ensures Split(Join(parts, [c]), c) == parts
  {
    var first, s := parts[0], Join(parts, [c]);
    if |parts| == 1 {
      UpToNone(first, c);
    } else {
      var rest := [c] + Join(parts[1..], [c]);
      assert s == first + rest;
      UpToStops(first, rest, c);
      assert s[|first| + 1..] == Join(parts[1..], [c]);
      SplitOfJoin(parts[1..], c);
    }
  }

  function Digit(d: nat): char
    requires d < 10
  {
    '0' + d as char
  }

  /** Decimal rendering without leading zeros. */
  function Decimal(n: nat): string {
    if n < 10 then [Digit(n)] else Decimal(n / 10) + [Digit(n % 10)]
  }

  function ParseDecimal(s: string): int {
    if s == "" then 0
    else ParseDecimal(s[..|s| - 1]) * 10 + (s[|s| - 1] as int - '0' as int)
  }

  lemma {:induction false} DecimalRoundTrip(n: nat)
    ensures ParseDecimal(Decimal(n)) == n
  {
    if n < 10 {
      assert [Digit(n)][..0] == "";
    } else {
      var s := Decimal(n);
      assert s[..|s| - 1] == Decimal(n / 10);
      DecimalRoundTrip(n / 10);
    }
  }
}
