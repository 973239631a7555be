/** Decimal text of integers: how Python's f-strings render an int, and how the
    database reads an integer column value given as text. */
module Decimal {
  import opened Model

  const Int32Min: int := -0x8000_0000
  const Int32Max: int := 0x7fff_ffff

  /** The range of the database's 4-byte `integer` column type. */
  predicate InInt32(i: int)
  {
    Int32Min <= i <= Int32Max
  }

  predicate IsDigit(c: char)
  {
    '0' <= c <= '9'
  }

  predicate AllDigits(s: string)
  {
    |s| > 0 && forall k :: 0 <= k < |s| ==> IsDigit(s[k])
  }

  function DigitChar(d: nat): (c: char)
    requires d < 10
    ensures IsDigit(c) && c as int - '0' as int == d
  {
    ('0' as int + d) as char
  }

  /** Value of a string of decimal digits, most significant first. */
  function DigitsValue(s: string): nat
    requires AllDigits(s)
  {
    var last := (s[|s| - 1] as int - '0' as int) as nat;
    if |s| == 1 then last else DigitsValue(s[..|s| - 1]) * 10 + last
  }

  /** Shortest decimal digits of a natural number. */
  function NatText(n: nat): (s: string)
    ensures AllDigits(s)
  {
    if n < 10 then [DigitChar(n)] else NatText(n / 10) + [DigitChar(n % 10)]
  }

  /** `str(i)` / `f'{i}'` in Python: a minus sign for negatives, then the digits. */
  function IntText(i: int): string
  {
    if i < 0 then "-" + NatText(-i) else NatText(i)
  }

  /** An optional sign followed by at least one digit, read as an integer. */
  function ParseInt(s: string): Option<int>
  {
    if |s| > 0 && s[0] == '-' && AllDigits(s[1..]) then Some(0 - DigitsValue(s[1..]) as int)
    else if |s| > 0 && s[0] == '+' && AllDigits(s[1..]) then Some(DigitsValue(s[1..]))
    else if AllDigits(s) then Some(DigitsValue(s))
    else None
  }

  /** The database's reading of text as a 4-byte `integer`: a signed decimal in
      range, or `None` (the statement fails). */
  function IntOfText(s: string): (r: Option<int>)
    ensures r.Some? ==> InInt32(r.value) && ParseInt(s) == r
  {
    var v := ParseInt(s);
    if v.Some? && InInt32(v.value) then v else None
  }

  /** `f'{j}'` for a JSON scalar; also what a text column stores for it, since the
      database casts an integer to its decimal text. */
  function JsonText(j: Json): string
  {
    match j
    case JStr(s) => s
    case JInt(i) => IntText(i)
  }

  /** The value the database stores in an `integer` column, or `None` when the
      insert fails: text that is not a signed decimal, or a value out of range. */
  function IntColumn(j: Json): (r: Option<int>)
    ensures r.Some? ==> InInt32(r.value)
    ensures j.JInt? && InInt32(j.i) ==> r == Some(j.i)
  {
    match j
    case JInt(i) => if InInt32(i) then Some(i) else None
    case JStr(s) => IntOfText(s)
  }

  lemma {:induction false} NatTextValue(n: nat)
    ensures DigitsValue(NatText(n)) == n
  {
    if n >= 10 {
      var s := NatText(n);
      assert s[..|s| - 1] == NatText(n / 10);
      NatTextValue(n / 10);
    }
  }

  /** Reading back the text of an integer gives that integer. */
  lemma ParseIntText(i: int)
    ensures ParseInt(IntText(i)) == Some(i)
  {
    if i < 0 {
      var t := NatText(-i);
      assert IntText(i)[1..] == t;
      NatTextValue(-i);
    } else {
      NatTextValue(i);
    }
  }
}
