/** The values `json.load` produces, and Python's `int()` applied to one of them. */
module JsonValue {
  import opened PyText

  /** A decoded JSON document: `None`, `bool`, `int`, `str`, `list` or `dict`. */
  datatype Json =
    | JNull
    | JBool(b: bool)
    | JInt(i: int)
    | JStr(s: string)
    | JList(items: seq<Json>)
    | JObj(fields: map<string, Json>)

  /** What `int(value)` does: return an integer, raise `ValueError`, or raise
      `TypeError` (the last is never caught by the upload parsers). */
  datatype IntConversion = Converted(value: int) | ValueErrorRaised | TypeErrorRaised

  /** The text `int(str)` accepts once its surrounding whitespace is stripped:
      an optional sign followed by at least one decimal digit. */
  predicate IsIntLiteral(t: string) {
    if |t| > 0 && (t[0] == '+' || t[0] == '-') then |t| > 1 && AllDigits(t[1..])
    else |t| > 0 && AllDigits(t)
  }

  function IntLiteralValue(t: string): int
    requires IsIntLiteral(t)
  {
    if t[0] == '-' then 0 - DigitsValue(t[1..]) as int
    else if t[0] == '+' then DigitsValue(t[1..])
    else DigitsValue(t)
  }

  /** Python's `int(value)` on a decoded JSON value. */
  function ToInt(j: Json): (r: IntConversion)
    ensures j.JInt? ==> r == Converted(j.i)
    ensures r.TypeErrorRaised? <==> j.JNull? || j.JList? || j.JObj?
    ensures r.ValueErrorRaised? ==> j.JStr?
  {
    match j
    case JInt(i) => Converted(i)
    case JBool(b) => Converted(if b then 1 else 0)
    case JStr(s) =>
      var t := Strip(s);
      if IsIntLiteral(t) then Converted(IntLiteralValue(t)) else ValueErrorRaised
    case _ => TypeErrorRaised
  }

  /** `int(str(i)) == i`: the decimal text of any integer converts back to it. */
  lemma ToIntOfIntString(i: int)
    ensures ToInt(JStr(IntToString(i))) == Converted(i)
  {
    var s := IntToString(i);
    var n: nat := if i < 0 then -i else i;
    NatToStringRoundTrip(n);
    if i < 0 {
      assert s[1..] == NatToString(n);
    }
    assert IsIntLiteral(s) && IntLiteralValue(s) == i;
    assert !IsSpace(s[0]) && !IsSpace(s[|s| - 1]);
    StripOfStripped(s);
  }
}
