/**
 * Rows as the ingestion code sees them: dictionaries from column names to
 * scalar cells, read with `dict.get(key, default)` and rendered with `str()`.
 */
module Records {
  import opened Text

  /** A scalar cell; a number is carried as the text Python's `str()` gives for it. */
  datatype Cell = Text(s: string) | Number(repr: string) | Flag(b: bool) | Null

  type Record = map<string, Cell>
  /** `str(cell)`. */
  function Str(c: Cell): string
  {
    match c
    case Text(s) => s
    case Number(r) => r
    case Flag(b) => if b then "True" else "False"
    case Null => "None"
  }

  /** Python's spellings of a non-finite float, in any case and with either sign: `nan`, `inf`, `infinity`. */
  predicate NonFinite(r: string)
  {
    var u := if r != [] && (r[0] == '-' || r[0] == '+') then r[1..] else r;
    SameIgnoringCase(u, "nan") || SameIgnoringCase(u, "inf") || SameIgnoringCase(u, "infinity")
  }

  /** `u.lower() == w` for a lower-case `w`. */
  predicate SameIgnoringCase(u: string, w: string)
  {
    |u| == |w| && forall i :: 0 <= i < |u| ==> LowerChar(u[i]) == w[i]
  }

  /** A number's text denotes zero when it is finite and every digit of its mantissa is `0`. */
  predicate ZeroRepr(r: string)
  {
    !NonFinite(r) &&
    forall i :: 0 <= i < |r| && (forall j :: 0 <= j <= i ==> r[j] != 'e' && r[j] != 'E') ==> !('1' <= r[i] <= '9')
  }

  /** Python truthiness of a cell. */
  predicate Truthy(c: Cell)
  {
    match c
    case Text(s) => s != ""
    case Number(r) => !ZeroRepr(r)
    case Flag(b) => b
    case Null => false
  }

  /** NaN and the infinities are truthy, as every non-zero float is. */
  lemma NonFiniteTruthy()
    ensures Truthy(Number("nan")) && Truthy(Number("NaN")) && Truthy(Number("inf")) && Truthy(Number("-inf"))
    ensures Truthy(Number("-Infinity"))
  {
    assert SameIgnoringCase("nan", "nan") && SameIgnoringCase("NaN", "nan") && SameIgnoringCase("inf", "inf");
    assert "-inf"[1..] == "inf";
    assert "-Infinity"[1..] == "Infinity" && SameIgnoringCase("Infinity", "infinity");
  }

  /** `pd.notna(value)`: a missing cell or a NaN number is "not available". */
  predicate Available(c: Cell)
  {
    c != Null && c != Number("nan")
  }
}
