/** When the rendered path of a difference identifies its position. */
module RenderedPaths {
  import opened Text
  import opened Json
  import opened TreeDiff
  import opened DiffResult

  // ---------------------------------------------------------------------
  // Keys that keep paths apart
  // ---------------------------------------------------------------------

  /** Not empty, and without the two characters that separate steps. */
  predicate PlainKey(name: string) { name != "" && '.' !in name && '[' !in name }

  predicate PlainPath(path: Path) {
    forall k :: 0 <= k < |path| && path[k].Key? ==> PlainKey(path[k].name)
  }

  /** Every key of every object in the tree is plain. */
  predicate PlainTree(j: Json)
    decreases j
  {
    match j
    case Arr(items) => forall i :: 0 <= i < |items| ==> PlainTree(items[i])
    case Obj(fields) => forall i :: 0 <= i < |fields| ==> PlainKey(fields[i].key) && PlainTree(fields[i].value)
    case _ => true
  }

  /** What the last step adds to the rendering of the steps before it. */
  function Suffix(parent: string, step: Step): string {
    match step
    case Key(name) => if parent == "" then name else "." + name
    case Index(i) => "[" + (Decimal(i) + "]")
  }

  lemma RenderSnoc(path: Path)
    requires path != []
    ensures var parent := Render(path[..|path| - 1]);
            Render(path) == parent + Suffix(parent, path[|path| - 1])
  {
    var parent := Render(path[..|path| - 1]);
    match path[|path| - 1]
    case Key(name) => Reassociate(parent, ".", name);
    case Index(i) => Reassociate(parent, "[", Decimal(i) + "]"); Reassociate(parent + "[", Decimal(i), "]");
  }

  lemma {:induction false} DigitsOnly(n: nat)
    ensures Decimal(n) != "" && forall k :: 0 <= k < |Decimal(n)| ==> '0' <= Decimal(n)[k] <= '9'
  {
    if n >= 10 { DigitsOnly(n / 10); }
  }

  lemma {:induction false} RenderedIsNotEmpty(path: Path)
    requires PlainPath(path)
    ensures Render(path) == "" <==> path == []
  {
    if path != [] {
      RenderSnoc(path);
      assert path[|path| - 1].Key? ==> PlainKey(path[|path| - 1].name);
    }
  }

  /** The text ends in `c` followed by a text with neither separator. */
  predicate EndsWith(s: string, a: string, c: char, rest: string) {
    s == a + ([c] + rest) && '.' !in rest && '[' !in rest
  }

  /** The last separator splits a text in one way only. */
  lemma LastSeparator(s: string, a: string, c: char, x: string, b: string, d: char, y: string)
    requires EndsWith(s, a, c, x) && EndsWith(s, b, d, y) && (c == '.' || c == '[') && (d == '.' || d == '[')
    ensures a == b && c == d && x == y
  {
    NoneAfter(s, a, c, x);
    NoneAfter(s, b, d, y);
    assert s[|a|] == c && s[|b|] == d;
    assert |a| == |b|;
    assert a == s[..|a|] == b && x == s[|a| + 1..] == y;
  }

  lemma NoneAfter(s: string, a: string, c: char, x: string)
    requires EndsWith(s, a, c, x)
    ensures forall k :: |a| < k < |s| ==> s[k] != '.' && s[k] != '['
  {
    forall k | |a| < k < |s| ensures s[k] != '.' && s[k] != '[' {
      assert s[k] == x[k - |a| - 1];
    }
  }

  /** How a rendered path ends: at its last step if there is a separator before it. */
  lemma RenderEnds(path: Path)
    requires PlainPath(path) && path != []
    ensures var parent := Render(path[..|path| - 1]);
            match path[|path| - 1]
            case Index(i) => EndsWith(Render(path), parent, '[', Decimal(i) + "]")
            case Key(name) => PlainKey(name) && if |path| == 1 then Render(path) == name else EndsWith(Render(path), parent, '.', name)
  {
    RenderSnoc(path);
    RenderedIsNotEmpty(path[..|path| - 1]);
    match path[|path| - 1]
    case Index(i) => DigitsOnly(i);
    case Key(name) => assert PlainKey(name);
  }

  /** Paths with plain keys are identified by their rendering. */
  lemma {:induction false} RenderIsInjective(p: Path, q: Path)
    requires PlainPath(p) && PlainPath(q) && Render(p) == Render(q)
    ensures p == q
    decreases |p|
  {
    RenderedIsNotEmpty(p);
    RenderedIsNotEmpty(q);
    if p != [] {
      RenderEnds(p);
      RenderEnds(q);
      var p', q' := p[..|p| - 1], q[..|q| - 1];
      SameEnd(p, q);
      RenderIsInjective(p', q');
      assert p == p' + [p[|p| - 1]] && q == q' + [q[|q| - 1]];
    }
  }

  lemma SeparatorShows(s: string, a: string, c: char, x: string)
    requires EndsWith(s, a, c, x) && (c == '.' || c == '[')
    ensures !PlainKey(s)
  {
    assert s[|a|] == c;
  }

  lemma SameEnd(p: Path, q: Path)
    requires PlainPath(p) && PlainPath(q) && p != [] && q != [] && Render(p) == Render(q)
    ensures Render(p[..|p| - 1]) == Render(q[..|q| - 1]) && p[|p| - 1] == q[|q| - 1]
  {
    RenderEnds(p);
    RenderEnds(q);
    assert Render([]) == "" && (|p| == 1 ==> p[..0] == []) && (|q| == 1 ==> q[..0] == []);
    hide Render, PlainPath, PlainKey, EndsWith;
    SameLastStep(Render(p), Render(p[..|p| - 1]), Render(q[..|q| - 1]), p[|p| - 1], q[|q| - 1], |p| == 1, |q| == 1);
  }

  /** The text ends as a path does whose last step this is. */
  predicate EndsInStep(s: string, parent: string, step: Step, only: bool) {
    match step
    case Index(i) => EndsWith(s, parent, '[', Decimal(i) + "]")
    case Key(name) => PlainKey(name) && if only then s == name && parent == "" else EndsWith(s, parent, '.', name)
  }

  lemma SameLastStep(s: string, a: string, b: string, x: Step, y: Step, onlyX: bool, onlyY: bool)
    requires EndsInStep(s, a, x, onlyX) && EndsInStep(s, b, y, onlyY)
    ensures a == b && x == y
  {
    hide PlainKey, EndsWith;
    var loneX, loneY := x.Key? && onlyX, y.Key? && onlyY;
    if loneX && !loneY {
      SeparatorShows(s, b, if y.Key? then '.' else '[', if y.Key? then y.name else Decimal(y.i) + "]");
    } else if loneY && !loneX {
      SeparatorShows(s, a, if x.Key? then '.' else '[', if x.Key? then x.name else Decimal(x.i) + "]");
    } else if !loneX {
      LastSeparator(s, a, if x.Key? then '.' else '[', if x.Key? then x.name else Decimal(x.i) + "]",
                    b, if y.Key? then '.' else '[', if y.Key? then y.name else Decimal(y.i) + "]");
      if x.Index? {
        SameDecimal(x.i, y.i);
      }
    }
  }

  lemma SameDecimal(m: nat, n: nat)
    requires Decimal(m) + "]" == Decimal(n) + "]"
    ensures m == n
  {
    var x, y := Decimal(m), Decimal(n);
    assert x == (x + "]")[..|x + "]"| - 1] == (y + "]")[..|y + "]"| - 1] == y;
    DecimalRoundTrip(m);
    DecimalRoundTrip(n);
  }

  // ---------------------------------------------------------------------
  // Reported paths
  // ---------------------------------------------------------------------

  lemma {:induction false} PlainLookup(j: Json, path: Path)
    requires PlainTree(j) && Lookup(j, path).Some?
    ensures PlainPath(path)
    decreases |path|
  {
    if path != [] {
      var child := Child(j, path[0]).value;
      assert PlainTree(child) && (path[0].Key? ==> PlainKey(path[0].name));
      PlainLookup(child, path[1..]);
      assert path == [path[0]] + path[1..];
    }
  }

  /** A reported position is a topmost disagreement, and the report's path is its path. */
  lemma ReportedIsTopmost(a: Json, b: Json, d: Difference)
    requires d in Differences(a, b, [])
    ensures Topmost(a, b, d.path) && d == Report(a, b, [], d.path)
  {
    hide Differences, Topmost;
    DiffIsExact(a, b, [], d);
    var path: Path :| Topmost(a, b, path) && d == Report(a, b, [], path);
    assert [] + path == path;
  }

  /** No two differences of the list have the same text for a path. */
  predicate RenderedApart(ds: seq<Difference>) {
    forall i, j :: 0 <= i < j < |ds| ==> FieldPath(ds[i]) != FieldPath(ds[j])
  }

  lemma PlainReport(a: Json, b: Json, d: Difference)
    requires PlainTree(a) && PlainTree(b) && d in Differences(a, b, [])
    ensures PlainPath(d.path) && FieldPath(d) == if d.path == [] then "<root>" else Render(d.path)
  {
    ReportedIsTopmost(a, b, d);
    if Lookup(a, d.path).Some? { PlainLookup(a, d.path); } else { PlainLookup(b, d.path); }
    RenderedIsNotEmpty(d.path);
  }

  /** In trees with plain keys every difference has its own path text. */
  lemma PlainTreesRenderApart(a: Json, b: Json)
    requires PlainTree(a) && PlainTree(b)
    ensures RenderedApart(Differences(a, b, []))
  {
    var ds := Differences(a, b, []);
    forall i, j | 0 <= i < j < |ds| ensures FieldPath(ds[i]) != FieldPath(ds[j]) {
      assert ds[i] in ds && ds[j] in ds;
      PlainReport(a, b, ds[i]);
      PlainReport(a, b, ds[j]);
      DiffApart(a, b, i, j);
      if FieldPath(ds[i]) == FieldPath(ds[j]) { RenderIsInjective(ds[i].path, ds[j].path); }
    }
  }

  lemma DiffApart(a: Json, b: Json, i: nat, j: nat)
    requires i < j < |Differences(a, b, [])|
    ensures var ds := Differences(a, b, []); ds[i].path != ds[j].path && ds[i].path != [] && ds[j].path != []
  {
    var ds := Differences(a, b, []);
    if ds[i].path <= ds[j].path { DiffIsAntichain(a, b, i, j); }
    if ds[j].path <= ds[i].path { DiffIsAntichain(a, b, j, i); }
  }

  // ---------------------------------------------------------------------
  // Paths that collide
  // ---------------------------------------------------------------------

  /** {"a.b": v, "a": {"b": v}} */
  function Dotted(v: Json): Json { Obj([Field("a.b", v), Field("a", Obj([Field("b", v)]))]) }

  lemma DottedParts(v: Json)
    ensures Child(Dotted(v), Key("a.b")) == Some(v)
    ensures Child(Dotted(v), Key("a")) == Some(Obj([Field("b", v)]))
    ensures Child(Obj([Field("b", v)]), Key("b")) == Some(v)
  {
    var outer, inner := Dotted(v).fields, [Field("b", v)];
    assert outer[0].key == "a.b" && outer[1].key == "a" && inner[0].key == "b";
    assert "a.b"[1] == '.' && |"a.b"| == 3 && |"a"| == 1;
    assert outer[1..] == [outer[1]];
  }

  /** Two differences at different positions with one path text: in all trees of this form
      whose leaves differ, {"a.b": u, "a": {"b": u}} against {"a.b": v, "a": {"b": v}}. */
  lemma PathStringsCollide(u: Json, v: Json)
    requires !SameContainer(u, v) && !PyEq(u, v)
    ensures !RenderedApart(Differences(Dotted(u), Dotted(v), []))
  {
    var a, b := Dotted(u), Dotted(v);
    DottedParts(u);
    DottedParts(v);
    var p, q: Path := [Key("a.b")], [Key("a"), Key("b")];
    hide PyEq, Render, Topmost;
    TopmostHere(u, v);
    TopmostBelow(Obj([Field("b", u)]), Obj([Field("b", v)]), Key("b"), []);
    TopmostBelow(a, b, Key("a"), [Key("b")]);
    TopmostBelow(a, b, Key("a.b"), []);
    assert [Key("a.b")] + [] == p && [Key("a")] + [Key("b")] == q && [Key("b")] + [] == [Key("b")];
    assert Topmost(a, b, p) && Topmost(a, b, q);
    hide SameContainer, Child, Dotted;
    BothReported(a, b, p, q);
    RenderBoth();
  }

  lemma RenderBoth()
    ensures Render([Key("a.b")]) == Render([Key("a"), Key("b")]) == "a.b"
  {
    assert [Key("a.b")][..0] == [] && [Key("a"), Key("b")][..1] == [Key("a")] && [Key("a")][..0] == [];
    assert Render([Key("a")]) == "a";
  }

  lemma BothReported(a: Json, b: Json, p: Path, q: Path)
    requires Topmost(a, b, p) && Topmost(a, b, q) && p != q
    ensures Render(p) == Render(q) && Render(p) != "" ==> !RenderedApart(Differences(a, b, []))
  {
    hide Topmost, Differences, Render;
    var ds, d, e := Differences(a, b, []), Report(a, b, [], p), Report(a, b, [], q);
    DiffIsExact(a, b, [], d);
    DiffIsExact(a, b, [], e);
    assert [] + p == p && [] + q == q;
    var i :| 0 <= i < |ds| && ds[i] == d;
    var j :| 0 <= j < |ds| && ds[j] == e;
    assert i != j;
    if Render(p) == Render(q) && Render(p) != "" {
      assert FieldPath(ds[i]) == FieldPath(ds[j]);
    }
  }
}
