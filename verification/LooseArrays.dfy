/** What the normaliser makes of arrays. It takes the elements after a comma for keys. */
module LooseArrays {
  import opened Text
  import opened LooseJson
  import opened LooseJsonTheorems

  /** A text in quotes, a word such as `true`, or a number without letters. */
  datatype Item = Quoted(quote: Quote, text: string) | Word(text: string) | Plain(text: string)

  datatype Element = Element(before: string, item: Item, after: string)

  predicate GoodItem(item: Item) {
    match item
    case Quoted(q, t) => Quotable(q, t)
    case Word(t) => IsIdent(t)
    case Plain(t) => t != "" && forall k :: 0 <= k < |t| ==> !IsSpecial(t[k]) && !IsWhitespace(t[k]) && !IsIdentStart(t[k])
  }

  predicate GoodElement(e: Element) { AllWhitespace(e.before) && GoodItem(e.item) && AllWhitespace(e.after) }

  predicate Good(es: seq<Element>) { forall k :: 0 <= k < |es| ==> GoodElement(es[k]) }

  function PrintItem(item: Item): string {
    match item
    case Quoted(q, t) => QuotedText(q, t)
    case Word(t) => t
    case Plain(t) => t
  }

  function PrintElement(e: Element): string { e.before + (PrintItem(e.item) + e.after) }

  /** Each element after a comma. */
  function PrintRest(es: seq<Element>): string {
    if es == [] then "" else "," + (PrintElement(es[0]) + PrintRest(es[1..]))
  }

  function PrintArray(es: seq<Element>): string {
    if es == [] then "[]" else "[" + (PrintElement(es[0]) + (PrintRest(es[1..]) + "]"))
  }

  /** What becomes of an item: texts get double quotes, and so does a word that is not the
      first element. */
  function BecomesItem(item: Item, first: bool): string {
    match item
    case Quoted(q, t) => InQuotes(Body(q, t))
    case Word(t) => if first then t else InQuotes(t)
    case Plain(t) => t
  }

  function BecomesElement(e: Element, first: bool): string { e.before + (BecomesItem(e.item, first) + e.after) }

  function BecomesRest(es: seq<Element>): string {
    if es == [] then "" else "," + (BecomesElement(es[0], false) + BecomesRest(es[1..]))
  }

  function BecomesArray(es: seq<Element>): string {
    if es == [] then "[]" else "[" + (BecomesElement(es[0], true) + (BecomesRest(es[1..]) + "]"))
  }

  // ---------------------------------------------------------------------
  // The translator on an array
  // ---------------------------------------------------------------------

  function Start(first: bool): ValuePosition { if first then Other else ExpectKey }

  lemma StepPlain(s: string, i: nat)
    requires i < |s| && !IsSpecial(s[i]) && !IsWhitespace(s[i]) && !IsIdentStart(s[i])
    ensures Writes(s, i, Normal, ExpectKey, [s[i]], i + 1, Normal, ExpectKey)
  {
  }

  lemma {:induction false} WritesPlain(s: string, i: nat, t: string)
    requires At(s, i, t)
    requires forall k :: 0 <= k < |t| ==> !IsSpecial(t[k]) && !IsWhitespace(t[k]) && !IsIdentStart(t[k])
    ensures Writes(s, i, Normal, ExpectKey, t, i + |t|, Normal, ExpectKey)
    decreases |t|
  {
    hide Out;
    if t != "" {
      AtHead(s, i, t);
      StepPlain(s, i);
      WritesPlain(s, i + 1, t[1..]);
      WritesThen(s, i, Normal, ExpectKey, [t[0]], i + 1, Normal, ExpectKey, t[1..], i + |t|, Normal, ExpectKey);
      assert [t[0]] + t[1..] == t;
    } else {
      assert "" + Out(s, i, Normal, ExpectKey) == Out(s, i, Normal, ExpectKey);
    }
  }

  lemma IdentIsVerbatim(t: string)
    requires IsIdent(t)
    ensures forall k :: 0 <= k < |t| ==> !IsSpecial(t[k]) && !IsWhitespace(t[k]) && Inert(t[k])
  {
  }

  lemma WritesItem(s: string, i: nat, item: Item, first: bool) returns (p: ValuePosition)
    requires GoodItem(item) && At(s, i, PrintItem(item))
    requires var j := i + |PrintItem(item)|; j < |s| && !IsIdentContinue(s[j])
    ensures Writes(s, i, Normal, Start(first), BecomesItem(item, first), i + |PrintItem(item)|, Normal, p)
  {
    hide Out, Writes, At, QuotedText, Body, IsIdent, IsIdentContinue, Quotable;
    match item
    case Quoted(q, t) =>
      WritesQuoted(s, i, Start(first), q, t);
      p := Start(first);
    case Word(t) =>
      IdentIsVerbatim(t);
      if first { WritesVerbatim(s, i, t); } else { WritesIdent(s, i, t); }
      p := Other;
    case Plain(t) =>
      if first { WritesVerbatim(s, i, t); } else { WritesPlain(s, i, t); }
      p := Start(first);
  }

  predicate EndsElement(s: string, j: nat) { j < |s| && (s[j] == ',' || s[j] == ']') }

  lemma ElementParts(s: string, i: nat, e: Element)
    requires GoodElement(e) && At(s, i, PrintElement(e)) && EndsElement(s, i + |PrintElement(e)|)
    ensures var i1 := i + |e.before|; var i2 := i1 + |PrintItem(e.item)|;
            && At(s, i, e.before) && At(s, i1, PrintItem(e.item)) && At(s, i2, e.after)
            && i2 + |e.after| == i + |PrintElement(e)| && i2 < |s| && !IsIdentContinue(s[i2])
  {
    hide At, PrintItem, GoodItem;
    var i1 := i + |e.before|;
    AtSplit(s, i, e.before, PrintItem(e.item) + e.after);
    AtSplit(s, i1, PrintItem(e.item), e.after);
    if e.after != "" { AtHead(s, i1 + |PrintItem(e.item)|, e.after); }
  }

  lemma WritesElement(s: string, i: nat, e: Element, first: bool) returns (p: ValuePosition)
    requires GoodElement(e) && At(s, i, PrintElement(e)) && EndsElement(s, i + |PrintElement(e)|)
    ensures Writes(s, i, Normal, Start(first), BecomesElement(e, first), i + |PrintElement(e)|, Normal, p)
  {
    hide Out, Writes, At, PrintItem, BecomesItem, GoodItem, EndsElement, PrintElement;
    ElementParts(s, i, e);
    var i1 := i + |e.before|; var i2 := i1 + |PrintItem(e.item)|;
    p := WritesItem(s, i1, e.item, first);
    WritesBlank(s, i, Start(first), e.before);
    WritesBlank(s, i2, p, e.after);
    WritesThen(s, i1, Normal, Start(first), BecomesItem(e.item, first), i2, Normal, p, e.after, i2 + |e.after|, Normal, p);
    WritesThen(s, i, Normal, Start(first), e.before, i1, Normal, Start(first),
               BecomesItem(e.item, first) + e.after, i2 + |e.after|, Normal, p);
  }

  /** The elements after a comma, and the bracket that closes the array. */
  lemma {:induction false} WritesRest(s: string, i: nat, es: seq<Element>, p: ValuePosition)
    requires Good(es) && At(s, i, PrintRest(es)) && At(s, i + |PrintRest(es)|, "]")
    ensures Writes(s, i, Normal, p, BecomesRest(es) + "]", i + |PrintRest(es)| + 1, Normal, Other)
    decreases |es|
  {
    hide Out, Writes, At, PrintElement, BecomesElement, GoodElement;
    var end := i + |PrintRest(es)|;
    AtHead(s, end, "]");
    if es == [] {
      StepSpecial(s, i, p);
      assert "" + "]" == "]";
    } else {
      var e, j := es[0], i + 1 + |PrintElement(es[0])|;
      AtSplit(s, i, ",", PrintElement(e) + PrintRest(es[1..]));
      AtSplit(s, i + 1, PrintElement(e), PrintRest(es[1..]));
      AtHead(s, i, ",");
      RestStarts(s, j, es[1..]);
      var q := WritesElement(s, i + 1, e, false);
      WritesRest(s, j, es[1..], q);
      StepSpecial(s, i, p);
      var tail := BecomesRest(es[1..]);
      WritesThen(s, i + 1, Normal, ExpectKey, BecomesElement(e, false), j, Normal, q, tail + "]", end + 1, Normal, Other);
      WritesThen(s, i, Normal, p, ",", i + 1, Normal, ExpectKey, BecomesElement(e, false) + (tail + "]"), end + 1, Normal, Other);
      Reassociate(BecomesElement(e, false), tail, "]");
      Reassociate(",", BecomesElement(e, false) + tail, "]");
    }
  }

  lemma RestStarts(s: string, i: nat, es: seq<Element>)
    requires At(s, i, PrintRest(es)) && At(s, i + |PrintRest(es)|, "]")
    ensures EndsElement(s, i)
  {
    hide At;
    if es == [] { AtHead(s, i, "]"); } else { AtHead(s, i, PrintRest(es)); }
  }

  lemma WritesArray(s: string, i: nat, es: seq<Element>, p: ValuePosition)
    requires Good(es) && At(s, i, PrintArray(es))
    ensures Writes(s, i, Normal, p, BecomesArray(es), i + |PrintArray(es)|, Normal, Other)
  {
    hide Out, Writes, At, PrintElement, BecomesElement, GoodElement, PrintRest, BecomesRest;
    AtHead(s, i, PrintArray(es));
    StepSpecial(s, i, p);
    if es == [] {
      assert "[]"[1..] == "]" && "[" + "]" == "[]";
      AtHead(s, i + 1, "]");
      StepSpecial(s, i + 1, Other);
      WritesThen(s, i, Normal, p, "[", i + 1, Normal, Other, "]", i + 2, Normal, Other);
    } else {
      var e, rest := es[0], es[1..];
      var j, end := i + 1 + |PrintElement(e)|, i + |PrintArray(es)|;
      AtSplit(s, i, "[", PrintElement(e) + (PrintRest(rest) + "]"));
      AtSplit(s, i + 1, PrintElement(e), PrintRest(rest) + "]");
      AtSplit(s, j, PrintRest(rest), "]");
      RestStarts(s, j, rest);
      var q := WritesElement(s, i + 1, e, true);
      WritesRest(s, j, rest, q);
      var tail := BecomesRest(rest) + "]";
      WritesThen(s, i + 1, Normal, Other, BecomesElement(e, true), j, Normal, q, tail, end, Normal, Other);
      WritesThen(s, i, Normal, p, "[", i + 1, Normal, Other, BecomesElement(e, true) + tail, end, Normal, Other);
    }
  }

  // ---------------------------------------------------------------------
  // The cut
  // ---------------------------------------------------------------------

  /** No text in double quotes holds an escaped one. */
  predicate NoQuoteInside(item: Item) { item.Quoted? && item.quote == DoubleQuote ==> '"' !in item.text }

  predicate NoneInside(es: seq<Element>) { forall k :: 0 <= k < |es| ==> NoQuoteInside(es[k].item) }

  lemma SkipsElement(s: string, i: nat, e: Element, depth: nat)
    requires GoodElement(e) && NoQuoteInside(e.item) && At(s, i, PrintElement(e))
    ensures Skips(s, i, i + |PrintElement(e)|, depth)
  {
    hide At, CutEnd, QuotedText;
    var i1 := i + |e.before|; var i2 := i1 + |PrintItem(e.item)|;
    AtSplit(s, i, e.before, PrintItem(e.item) + e.after);
    AtSplit(s, i1, PrintItem(e.item), e.after);
    SkipsBlank(s, i, e.before, depth);
    match e.item {
      case Quoted(q, t) => SkipsQuoted(s, i1, q, t, depth);
      case Word(t) => IdentIsVerbatim(t); SkipsInert(s, i1, t, depth);
      case Plain(t) => SkipsInert(s, i1, t, depth);
    }
    SkipsBlank(s, i2, e.after, depth);
  }

  lemma {:induction false} SkipsRest(s: string, i: nat, es: seq<Element>, depth: nat)
    requires Good(es) && NoneInside(es) && At(s, i, PrintRest(es))
    ensures Skips(s, i, i + |PrintRest(es)|, depth)
    decreases |es|
  {
    hide At, CutEnd, PrintElement, GoodElement;
    if es == [] {
      SkipsInert(s, i, "", depth);
    } else {
      var j := i + 1 + |PrintElement(es[0])|;
      AtSplit(s, i, ",", PrintElement(es[0]) + PrintRest(es[1..]));
      AtSplit(s, i + 1, PrintElement(es[0]), PrintRest(es[1..]));
      SkipsInert(s, i, ",", depth);
      SkipsElement(s, i + 1, es[0], depth);
      SkipsRest(s, j, es[1..], depth);
    }
  }

  lemma SkipsArray(s: string, i: nat, es: seq<Element>, depth: nat)
    requires Good(es) && NoneInside(es) && At(s, i, PrintArray(es))
    ensures Skips(s, i, i + |PrintArray(es)|, depth)
  {
    if es == [] {
      SkipsInert(s, i, "[]", depth);
    } else {
      SkipsElements(s, i, es, depth);
    }
  }

  lemma SkipsElements(s: string, i: nat, es: seq<Element>, depth: nat)
    requires Good(es) && NoneInside(es) && es != []
    requires At(s, i, "[" + (PrintElement(es[0]) + (PrintRest(es[1..]) + "]")))
    ensures Skips(s, i, i + |PrintElement(es[0])| + |PrintRest(es[1..])| + 2, depth)
  {
    hide At, CutEnd, PrintElement, GoodElement, PrintRest, NoQuoteInside;
    var e, rest := es[0], es[1..];
    var j := i + 1 + |PrintElement(e)|;
    AtSplit(s, i, "[", PrintElement(e) + (PrintRest(rest) + "]"));
    AtSplit(s, i + 1, PrintElement(e), PrintRest(rest) + "]");
    AtSplit(s, j, PrintRest(rest), "]");
    SkipsInert(s, i, "[", depth);
    SkipsElement(s, i + 1, e, depth);
    SkipsRest(s, j, rest, depth);
    SkipsInert(s, j + |PrintRest(rest)|, "]", depth);
  }

  // ---------------------------------------------------------------------
  // An object with an array
  // ---------------------------------------------------------------------

  function ObjectText(key: string, list: string): string { "{" + (key + (":" + (list + "}"))) }

  predicate GoodKey(k: Key) { LooseKey(k) && (k.QuotedKey? && k.quote == DoubleQuote ==> '"' !in k.text) }

  lemma ObjectParts(s: string, key: string, list: string, trailing: string)
    requires s == ObjectText(key, list) + trailing
    ensures var i := 1 + |key|; var j := i + 1 + |list|;
            && At(s, 0, "{") && At(s, 1, key) && At(s, i, ":") && At(s, i + 1, list) && At(s, j, "}") && |ObjectText(key, list)| == j + 1
  {
    var i := 1 + |key|;
    assert At(s, 0, ObjectText(key, list));
    hide At;
    AtSplit(s, 0, "{", key + (":" + (list + "}")));
    AtSplit(s, 1, key, ":" + (list + "}"));
    AtSplit(s, i, ":", list + "}");
    AtSplit(s, i + 1, list, "}");
  }

  lemma CutAfterArray(k: Key, es: seq<Element>, trailing: string)
    requires GoodKey(k) && Good(es) && NoneInside(es)
    ensures var t := ObjectText(PrintKey(k, false), PrintArray(es)); CutEnd(t + trailing, 0, Outside) == |t|
  {
    hide *;
    var key, list := PrintKey(k, false), PrintArray(es);
    var s, i := ObjectText(key, list) + trailing, 1 + |key|;
    ObjectParts(s, key, list, trailing);
    GoodKeyMeans(k);
    SkipsKey(s, 1, k, 1);
    ColonIsInert();
    SkipsInert(s, i, ":", 1);
    SkipsArray(s, i + 1, es, 1);
    SkipsThrough(s, i, i + 1, i + 1 + |list|);
    AtHead(s, 0, "{");
    AtHead(s, i + 1 + |list|, "}");
    CutBetween(s, i + 1 + |list|);
  }

  lemma GoodKeyMeans(k: Key)
    ensures GoodKey(k) <==> LooseKey(k) && (k.QuotedKey? && k.quote == DoubleQuote ==> '"' !in k.text)
  {
  }

  lemma ColonIsInert()
    ensures Inert(':')
  {
  }

  lemma SkipsThrough(s: string, i: nat, j: nat, end: nat)
    requires Skips(s, 1, i, 1) && Skips(s, i, j, 1) && Skips(s, j, end, 1)
    ensures Skips(s, 1, end, 1)
  {
    hide CutEnd;
  }

  lemma CutBetween(s: string, end: nat)
    requires s != "" && s[0] == '{' && Skips(s, 1, end, 1) && end < |s| && s[end] == '}'
    ensures CutEnd(s, 0, Outside) == end + 1
  {
    CutOpens(s);
  }

  lemma WritesArrayObject(s: string, k: Key, es: seq<Element>)
    requires GoodKey(k) && Good(es) && s == ObjectText(PrintKey(k, false), PrintArray(es))
    ensures Out(s, 0, Normal, Other) == ObjectText(PrintKey(k, true), BecomesArray(es))
  {
    hide *;
    var key, list, become := PrintKey(k, false), PrintArray(es), BecomesArray(es);
    var i := 1 + |key|;
    assert s + "" == s;
    ObjectParts(s, key, list, "");
    GoodKeyMeans(k);
    WritesArrayPart(s, i, es, AfterKey(k));
    AtHead(s, i, ":");
    ColonEndsKey();
    WritesKey(s, 1, k);
    WritesThen(s, 1, Normal, ExpectKey, PrintKey(k, true), i, Normal, AfterKey(k), ":" + (become + "}"), |s|, Normal, Other);
    AtHead(s, 0, "{");
    BraceOpens(s);
    WritesThen(s, 0, Normal, Other, "{", 1, Normal, ExpectKey, PrintKey(k, true) + (":" + (become + "}")), |s|, Normal, Other);
    NothingLeft(s);
    ObjectTextIs(PrintKey(k, true), become);
  }

  lemma ObjectTextIs(key: string, list: string)
    ensures ObjectText(key, list) == "{" + (key + (":" + (list + "}")))
  {
  }

  lemma WritesArrayPart(s: string, i: nat, es: seq<Element>, p: ValuePosition)
    requires Good(es) && At(s, i, ":") && At(s, i + 1, PrintArray(es)) && At(s, i + 1 + |PrintArray(es)|, "}")
    ensures Writes(s, i, Normal, p, ":" + (BecomesArray(es) + "}"), i + 2 + |PrintArray(es)|, Normal, Other)
  {
    hide Out, Writes, At, PrintArray, BecomesArray, Good;
    var j := i + 1 + |PrintArray(es)|;
    AtHead(s, i, ":");
    AtHead(s, j, "}");
    StepSpecial(s, j, Other);
    WritesArray(s, i + 1, es, ExpectValue);
    WritesThen(s, i + 1, Normal, ExpectValue, BecomesArray(es), j, Normal, Other, "}", j + 1, Normal, Other);
    StepSpecial(s, i, p);
    WritesThen(s, i, Normal, p, ":", i + 1, Normal, ExpectValue, BecomesArray(es) + "}", j + 1, Normal, Other);
  }

  /** For every key and every array of texts, words and numbers in any style: the options
      come out with each text in double quotes, and each word but the first as well. */
  lemma ArrayNormalizes(k: Key, es: seq<Element>, trailing: string)
    requires GoodKey(k) && Good(es) && NoneInside(es)
    ensures Normalized(ObjectText(PrintKey(k, false), PrintArray(es)) + trailing) ==
            ObjectText(PrintKey(k, true), BecomesArray(es))
  {
    var t := ObjectText(PrintKey(k, false), PrintArray(es));
    CutAfterArray(k, es, trailing);
    assert (t + trailing)[..|t|] == t;
    hide *;
    NormalizedOf(t + trailing);
    WritesArrayObject(t, k, es);
  }

  lemma NormalizedOf(s: string)
    ensures Normalized(s) == Out(s[..CutEnd(s, 0, Outside)], 0, Normal, Other)
  {
  }

  // ---------------------------------------------------------------------
  // When a strict array survives
  // ---------------------------------------------------------------------

  /** Texts in double quotes only. */
  predicate Strict(es: seq<Element>) { forall k :: 0 <= k < |es| ==> (es[k].item.Quoted? ==> es[k].item.quote == DoubleQuote) }

  predicate WordAfterFirst(es: seq<Element>) { exists k :: 1 <= k < |es| && es[k].item.Word? }

  /** Each word that gets quotes makes the text longer by two. */
  lemma {:induction false} RestLength(es: seq<Element>)
    requires Strict(es)
    ensures |BecomesRest(es)| >= |PrintRest(es)|
    ensures |BecomesRest(es)| == |PrintRest(es)| <==> forall k :: 0 <= k < |es| ==> !es[k].item.Word?
    ensures (forall k :: 0 <= k < |es| ==> !es[k].item.Word?) ==> BecomesRest(es) == PrintRest(es)
    decreases |es|
  {
    if es != [] {
      RestLength(es[1..]);
      ElementLength(es[0], false);
      hide BecomesElement, PrintElement;
      assert forall k :: 1 <= k < |es| ==> es[k] == es[1..][k - 1];
      assert forall k :: 0 <= k < |es| - 1 ==> es[1..][k] == es[k + 1];
    }
  }

  lemma ElementLength(e: Element, first: bool)
    requires e.item.Quoted? ==> e.item.quote == DoubleQuote
    ensures if e.item.Word? && !first then |BecomesElement(e, first)| == |PrintElement(e)| + 2
            else BecomesElement(e, first) == PrintElement(e)
  {
  }

  /** A strict object with an array keeps its text exactly when no word such as `true` stands
      after the first element. */
  lemma StrictArrayFixedExactly(key: string, es: seq<Element>, trailing: string)
    requires GoodKey(QuotedKey(DoubleQuote, key)) && Good(es) && NoneInside(es) && Strict(es)
    ensures var t := ObjectText(InQuotes(key), PrintArray(es));
            Normalized(t + trailing) == t <==> !WordAfterFirst(es)
  {
    var k := QuotedKey(DoubleQuote, key);
    assert PrintKey(k, false) == InQuotes(key) == PrintKey(k, true);
    hide Normalized;
    ArrayNormalizes(k, es, trailing);
    hide GoodKey, Good, NoneInside;
    if es != [] {
      RestLength(es[1..]);
      ElementLength(es[0], true);
      hide BecomesElement, PrintElement, BecomesRest, PrintRest;
      WordsInRest(es);
    }
  }

  lemma WordsInRest(es: seq<Element>)
    requires es != []
    ensures WordAfterFirst(es) <==> !forall k :: 0 <= k < |es[1..]| ==> !es[1..][k].item.Word?
  {
    if k :| 1 <= k < |es| && es[k].item.Word? { assert es[1..][k - 1].item.Word?; }
  }

  /** So of any two words, two booleans say, the second becomes a text. */
  lemma SecondWordBecomesText(key: string, u: string, w: string, trailing: string)
    requires GoodKey(QuotedKey(DoubleQuote, key)) && IsIdent(u) && IsIdent(w)
    ensures Normalized(ObjectText(InQuotes(key), "[" + (u + ("," + (w + "]")))) + trailing) ==
            ObjectText(InQuotes(key), "[" + (u + ("," + (InQuotes(w) + "]"))))
  {
    var es := [Element("", Word(u), ""), Element("", Word(w), "")];
    hide *;
    TwoWords(es, u, w);
    KeyPrints(key);
    ArrayNormalizes(QuotedKey(DoubleQuote, key), es, trailing);
  }

  lemma TwoWords(es: seq<Element>, u: string, w: string)
    requires es == [Element("", Word(u), ""), Element("", Word(w), "")] && IsIdent(u) && IsIdent(w)
    ensures Good(es) && NoneInside(es)
    ensures PrintArray(es) == "[" + (u + ("," + (w + "]"))) && BecomesArray(es) == "[" + (u + ("," + (InQuotes(w) + "]")))
  {
    hide IsIdent, InQuotes;
    TwoElements(es);
    Alone(u);
    Alone(w);
    Alone(InQuotes(w));
    assert PrintElement(es[0]) == u && BecomesElement(es[0], true) == u;
    assert PrintElement(es[1]) == w && BecomesElement(es[1], false) == InQuotes(w);
    hide PrintElement, BecomesElement, PrintRest, BecomesRest;
    Reassociate(",", w, "]");
    Reassociate(",", InQuotes(w), "]");
  }

  lemma KeyPrints(key: string)
    ensures forall strict :: PrintKey(QuotedKey(DoubleQuote, key), strict) == InQuotes(key)
  {
  }

  lemma Alone(t: string)
    ensures "" + (t + "") == t
  {
  }

  lemma TwoElements(es: seq<Element>)
    requires |es| == 2
    ensures PrintRest(es[1..]) == "," + PrintElement(es[1]) && BecomesRest(es[1..]) == "," + BecomesElement(es[1], false)
  {
    assert es[1..] == [es[1]] && es[1..][1..] == [];
    assert PrintElement(es[1]) + "" == PrintElement(es[1]);
    assert BecomesElement(es[1], false) + "" == BecomesElement(es[1], false);
  }
}
