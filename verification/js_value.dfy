/** The small part of JavaScript's value model the pages depend on: the
    values a form field or a fetched column can hold, and truthiness, which
    every `if (x)`, `!x`, `x || y` and `x ? a : b` in the pages tests. */
module JsValue {

  /** A value that may be `undefined`: a key missing from an object, or a
      cell the summary table has no row for. */
  datatype Option<+T> = None | Some(value: T)

  /** A primitive JavaScript value. Numbers are exact reals: floating-point
      rounding and NaN are not part of this model. */
  datatype Value = Null | Str(s: string) | Num(x: real) | Bool(b: bool)

  /** JavaScript truthiness: `null`, `''`, `0` and `false` are falsy. */
  predicate Truthy(v: Value) {
    match v
    case Null => false
    case Str(s) => s != ""
    case Num(x) => x != 0.0
    case Bool(b) => b
  }

  /** `a || b`: the left operand when it is truthy, otherwise the right one. */
  function Or(a: Value, b: Value): (r: Value)
    ensures Truthy(a) ==> r == a
    ensures !Truthy(a) ==> r == b
  {
    if Truthy(a) then a else b
  }

  /** The empty string, the value of every blank form field. */
  const Blank: Value := Str("")

  /** A value loaded with `|| ''` is truthy exactly when the original was,
      and is then the original value. */
  lemma OrBlankKeepsTruthiness(v: Value)
    ensures Truthy(Or(v, Blank)) <==> Truthy(v)
    ensures Truthy(v) ==> Or(v, Blank) == v
  {
  }

  /** Chaining `|| ''` and then `|| null` maps a value to itself when it is
      truthy and to `null` otherwise, exactly as `|| null` alone does; this is
      why a field that an edit loads with `|| ''` is written back unchanged by
      a submit that normalises it with `|| null`. */
  lemma OrBlankThenNull(v: Value)
    ensures Or(Or(v, Blank), Null) == Or(v, Null)
    ensures Truthy(v) ==> Or(Or(v, Blank), Null) == v
    ensures !Truthy(v) ==> Or(Or(v, Blank), Null) == Null
  {
    if !Truthy(v) {
      assert !Truthy(Or(v, Blank));
    }
  }
}
