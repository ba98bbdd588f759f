/** JSON values as Python holds them after `json.load`, with Python's `==`. */
module Json {

  datatype Field = Field(key: string, value: Json)

  /** An object keeps its keys in insertion order; a lookup sees the first of a name. */
  datatype Json =
    | Null
    | Bool(b: bool)
    | Int(i: int)
    | Float(r: real)
    | Str(s: string)
    | Arr(items: seq<Json>)
    | Obj(fields: seq<Field>)

  predicate Has(fields: seq<Field>, key: string) {
    exists i :: 0 <= i < |fields| && fields[i].key == key
  }

  function Get(fields: seq<Field>, key: string): (v: Json)
    requires Has(fields, key)
    ensures exists i :: 0 <= i < |fields| && fields[i] == Field(key, v)
  {
    if fields[0].key == key then
      assert fields[0] == Field(key, fields[0].value);
      fields[0].value
    else
      var rest := fields[1..];
      var i :| 0 <= i < |fields| && fields[i].key == key;
      assert rest[i - 1] == fields[i];
      var v := Get(rest, key);
      var j :| 0 <= j < |rest| && rest[j] == Field(key, v);
      assert fields[j + 1] == Field(key, v);
      v
  }

  function Keys(fields: seq<Field>): (keys: seq<string>)
    ensures |keys| == |fields|
    ensures forall k :: k in keys <==> Has(fields, k)
  {
    var keys := seq(|fields|, i requires 0 <= i < |fields| => fields[i].key);
    assert forall i :: 0 <= i < |fields| ==> keys[i] == fields[i].key;
    keys
  }

  /** In Python `True == 1 == 1.0`. */
  predicate IsNumeric(j: Json) { j.Bool? || j.Int? || j.Float? }

  function Number(j: Json): real
    requires IsNumeric(j)
  {
    match j
    case Bool(b) => if b then 1.0 else 0.0
    case Int(i) => i as real
    case Float(r) => r
  }

  /** Python's `==` on decoded JSON. */
  predicate PyEq(a: Json, b: Json)
    decreases a
  {
    if IsNumeric(a) && IsNumeric(b) then Number(a) == Number(b)
    else match (a, b)
      case (Null, Null) => true
      case (Str(s), Str(t)) => s == t
      case (Arr(x), Arr(y)) => |x| == |y| && forall i :: 0 <= i < |x| ==> PyEq(x[i], y[i])
      case (Obj(x), Obj(y)) =>
        && (forall k :: k in Keys(x) ==> Has(x, k) && Has(y, k) && PyEq(Get(x, k), Get(y, k)))
        && (forall k :: k in Keys(y) ==> Has(x, k))
      case _ => false
  }

  lemma PyEqSymmetric(a: Json, b: Json)
    requires PyEq(a, b)
    ensures PyEq(b, a)
    decreases a
  {
    match (a, b)
    case (Arr(x), Arr(y)) =>
      forall i | 0 <= i < |x| ensures PyEq(y[i], x[i]) { PyEqSymmetric(x[i], y[i]); }
    case (Obj(x), Obj(y)) =>
      forall k | k in Keys(y)
        ensures Has(x, k) && PyEq(Get(y, k), Get(x, k))
      {
        PyEqSymmetric(Get(x, k), Get(y, k));
      }
    case _ =>
  }

  /** JSON equality as the specification has it: numbers by value, booleans apart. */
  predicate StrictEq(a: Json, b: Json)
    decreases a
  {
    match (a, b)
    case (Bool(x), Bool(y)) => x == y
    case (Arr(x), Arr(y)) => |x| == |y| && forall i :: 0 <= i < |x| ==> StrictEq(x[i], y[i])
    case (Obj(x), Obj(y)) =>
      && (forall k :: k in Keys(x) ==> Has(x, k) && Has(y, k) && StrictEq(Get(x, k), Get(y, k)))
      && (forall k :: k in Keys(y) ==> Has(x, k))
    case _ => !a.Bool? && !b.Bool? && PyEq(a, b)
  }

  predicate BooleanAsNumber(a: Json, b: Json) {
    a.Bool? != b.Bool? && PyEq(a, b)
  }

  /** Somewhere at the same place in both, a boolean meets the number it equals in Python. */
  predicate BooleanMeetsNumber(a: Json, b: Json)
    decreases a
  {
    match (a, b)
    case (Arr(x), Arr(y)) => |x| == |y| && exists i :: 0 <= i < |x| && BooleanMeetsNumber(x[i], y[i])
    case (Obj(x), Obj(y)) =>
      exists k :: k in Keys(x) && Has(x, k) && Has(y, k) && BooleanMeetsNumber(Get(x, k), Get(y, k))
    case _ => BooleanAsNumber(a, b)
  }

  /** Python's `==` is JSON equality exactly where no boolean meets its number. */
  lemma {:induction false} PyEqIsStrictExactly(a: Json, b: Json)
    ensures StrictEq(a, b) <==> PyEq(a, b) && !BooleanMeetsNumber(a, b)
    decreases a
  {
    if a.Arr? && b.Arr? {
      forall i | 0 <= i < |a.items| && i < |b.items|
        ensures StrictEq(a.items[i], b.items[i]) <==>
                PyEq(a.items[i], b.items[i]) && !BooleanMeetsNumber(a.items[i], b.items[i])
      {
        PyEqIsStrictExactly(a.items[i], b.items[i]);
      }
    } else if a.Obj? && b.Obj? {
      forall k | k in Keys(a.fields) && Has(a.fields, k) && Has(b.fields, k)
        ensures StrictEq(Get(a.fields, k), Get(b.fields, k)) <==>
                PyEq(Get(a.fields, k), Get(b.fields, k)) && !BooleanMeetsNumber(Get(a.fields, k), Get(b.fields, k))
      {
        PyEqIsStrictExactly(Get(a.fields, k), Get(b.fields, k));
      }
    }
  }
}
