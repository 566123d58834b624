/** Scalars of a parsed JSON request body, and the two ways the handlers turn
    one into something else: Python's `str()` (the search term is spliced into
    an `ILIKE` pattern by an f-string) and the database's reading of a value
    into an integer column (the `difficulty` and `category` of a new row). */
module JsonValues {
  import opened Wrappers

  /** A JSON scalar as `request.get_json()` hands it to a handler. */
  datatype JsonValue = JNull | JBool(b: bool) | JInt(n: int) | JStr(s: string)

  /** A parsed JSON object. */
  type Body = map<string, JsonValue>

  /** Python's `data.get(key, default)`. */
  function Get(body: Body, key: string, default: JsonValue): JsonValue
  {
    if key in body then body[key] else default
  }

  predicate IsDigit(c: char)
  {
    '0' <= c <= '9'
  }

  predicate IsDecimal(s: string)
  {
    |s| > 0 && forall i :: 0 <= i < |s| ==> IsDigit(s[i])
  }

  function DigitChar(d: nat): (c: char)
    requires d < 10
    ensures IsDigit(c)
  {
    ('0' as int + d) as char
  }

  /** The decimal digits of `n`, most significant first, without leading zeros. */
  function NatToDecimal(n: nat): (s: string)
    ensures IsDecimal(s)
    ensures n > 0 ==> s[0] != '0'
  {
    if n < 10 then [DigitChar(n)] else NatToDecimal(n / 10) + [DigitChar(n % 10)]
  }

  /** Python's `str(n)` for an integer. */
  function IntToDecimal(n: int): string
  {
    if n < 0 then "-" + NatToDecimal(-n) else NatToDecimal(n)
  }

  /** The number a string of decimal digits denotes. */
  function DigitsValue(s: string): nat
    requires forall i :: 0 <= i < |s| ==> IsDigit(s[i])
  {
    if s == [] then 0
    else
      assert IsDigit(s[|s| - 1]);
      DigitsValue(s[..|s| - 1]) * 10 + (s[|s| - 1] as int - '0' as int)
  }

  /** The integer a database integer column reads from a string: an optional
      sign followed by at least one decimal digit; anything else is refused. */
  function ParseInt(s: string): Option<int>
  {
    if |s| > 0 && (s[0] == '-' || s[0] == '+') then
      if IsDecimal(s[1..]) then
        Some(if s[0] == '-' then -(DigitsValue(s[1..]) as int) else DigitsValue(s[1..]))
      else None
    else if IsDecimal(s) then Some(DigitsValue(s))
    else None
  }

  /** Python's `str(v)`, as an f-string renders the value. */
  function PyStr(v: JsonValue): string
  {
    match v
    case JNull => "None"
    case JBool(b) => if b then "True" else "False"
    case JInt(n) => IntToDecimal(n)
    case JStr(s) => s
  }

  /** The value a text column stores; only JSON strings are modelled as accepted. */
  function TextColumn(v: JsonValue): Option<string>
  {
    if v.JStr? then Some(v.s) else None
  }

  /** The value an integer column stores: a JSON integer, or a string the
      database reads as an integer (the tests send `category` as `'1'`). */
  function IntColumn(v: JsonValue): Option<int>
  {
    match v
    case JInt(n) => Some(n)
    case JStr(s) => ParseInt(s)
    case _ => None
  }

  lemma {:induction false} NatToDecimalValue(n: nat)
    ensures DigitsValue(NatToDecimal(n)) == n
  {
    if n >= 10 {
      NatToDecimalValue(n / 10);
      var s := NatToDecimal(n);
      assert s[..|s| - 1] == NatToDecimal(n / 10);
    }
  }

  /** An integer rendered by `str()` is read back by an integer column as itself. */
  lemma IntColumnReadsRendering(n: int)
    ensures IntColumn(JStr(IntToDecimal(n))) == Some(n)
    ensures IntColumn(JStr(PyStr(JInt(n)))) == Some(n)
  {
    if n < 0 {
      NatToDecimalValue(-n);
      assert IntToDecimal(n)[1..] == NatToDecimal(-n);
    } else {
      NatToDecimalValue(n);
    }
  }
}
