/** The scalar values a JSON request body can carry into the `/mine` handler,
    with the two Python operations the ledger applies to them: truthiness
    (`if proof and bId`) and `str` (the f-string that builds a proof guess). */
module PyValue {
  import Decimal

  /** JSON null, booleans, integers and strings. A string here is a sequence
      of Unicode scalar values, so a Python string holding a lone surrogate
      is not representable. */
  datatype Value = None | Bool(b: bool) | Int(i: int) | Str(s: string)

  /** Python's truth test: `None`, `False`, `0` and `""` are falsy. */
  predicate Truthy(v: Value) {
    match v
    case None => false
    case Bool(b) => b
    case Int(i) => i != 0
    case Str(s) => s != ""
  }

  lemma FalsyValues(v: Value)
    ensures !Truthy(v) <==> v in {None, Bool(false), Int(0), Str("")}
  {
  }

  /** Python's `str(v)`, which is what `f"{...}{v}"` splices in. */
  function ToStr(v: Value): (r: string)
    ensures v.Int? ==> Decimal.ParseInt(r) == Decimal.Some(v.i)
    ensures v.Str? ==> r == v.s
  {
    match v
    case None => "None"
    case Bool(b) => if b then "True" else "False"
    case Int(i) => Decimal.ParseIntToDecimal(i); Decimal.IntToDecimal(i)
    case Str(s) => s
  }
}
