/** The loosely typed values that the CSV parser hands to the normaliser
    (PapaParse with `dynamicTyping`: numeric-looking cells become numbers),
    JavaScript truthiness, and the string conversion that property access and
    `toString()` apply to them. */
module JsValues {
  import opened Wrappers

  /** One cell of a parsed CSV row: a string, a number, or absent (`undefined`). */
  datatype Cell = Str(s: string) | Num(n: int) | Missing

  /** A parsed row: column name to cell; a column the row lacks reads as `undefined`. */
  type Row = map<string, Cell>

  function Field(row: Row, column: string): (c: Cell)
    ensures column !in row ==> c == Missing
  {
    if column in row then row[column] else Missing
  }

  /** What `if (x)` and `x || y` test: absent, the empty string and the number 0 are falsy. */
  predicate Truthy(c: Cell)
  {
    match c
    case Str(s) => s != ""
    case Num(n) => n != 0
    case Missing => false
  }

  /** `x || null` */
  function OrNull(c: Cell): (r: Option<Cell>)
    ensures r.Some? <==> Truthy(c)
    ensures r.Some? ==> r.value == c
  {
    if Truthy(c) then Some(c) else None
  }

  predicate IsDigit(ch: char) { '0' <= ch <= '9' }

  predicate AllDigits(s: string) { forall i :: 0 <= i < |s| ==> IsDigit(s[i]) }

  function DigitChar(d: nat): (ch: char)
    requires d < 10
    ensures IsDigit(ch) && (ch as int) - ('0' as int) == d
  {
    ((d + '0' as int) as char)
  }

  /** The decimal numeral of `n`, as `Number.prototype.toString` prints an integer. */
  function NatToDecimal(n: nat): (r: string)
    ensures |r| > 0 && AllDigits(r)
    ensures r[0] == '0' ==> n == 0
  {
    if n < 10 then [DigitChar(n)] else NatToDecimal(n / 10) + [DigitChar(n % 10)]
  }

  /** The value of a string of decimal digits (the empty string counts as 0). */
  function DigitsValue(s: string): nat
    requires AllDigits(s)
  {
    if s == [] then 0 else DigitsValue(s[..|s| - 1]) * 10 + ((s[|s| - 1] as int) - ('0' as int))
  }

  lemma {:induction false} DecimalRoundTrip(n: nat)
    ensures DigitsValue(NatToDecimal(n)) == n
  {
    if n >= 10 {
      var r := NatToDecimal(n);
      assert r[..|r| - 1] == NatToDecimal(n / 10);
      DecimalRoundTrip(n / 10);
    }
  }

  lemma DecimalInjective(m: nat, n: nat)
    requires NatToDecimal(m) == NatToDecimal(n)
    ensures m == n
  {
    DecimalRoundTrip(m);
    DecimalRoundTrip(n);
  }

  /** Two number cells share a record key only when they hold the same number. */
  lemma NumberKeyInjective(m: int, n: int)
    requires ToJsString(Num(m)) == ToJsString(Num(n))
    ensures m == n
  {
    var a, b := ToJsString(Num(m)), ToJsString(Num(n));
    if m >= 0 && n >= 0 {
      DecimalInjective(m, n);
    } else if m < 0 && n < 0 {
      assert NatToDecimal(-m) == a[1..] == b[1..] == NatToDecimal(-n);
      DecimalInjective(-m, -n);
    }
  }

  function IntToDecimal(n: int): (r: string)
    ensures |r| > 0
    ensures n >= 0 ==> r == NatToDecimal(n)
    ensures n < 0 ==> r == "-" + NatToDecimal(-n)
  {
    if n < 0 then "-" + NatToDecimal(-n) else NatToDecimal(n)
  }

  /** `String(c)`: the key that `record[c]` looks up, and the result of `c.toString()`. */
  function ToJsString(c: Cell): (r: string)
    ensures c.Str? ==> r == c.s
    ensures c.Num? ==> r == IntToDecimal(c.n)
    ensures c.Missing? ==> r == "undefined"
  {
    match c
    case Str(s) => s
    case Num(n) => IntToDecimal(n)
    case Missing => "undefined"
  }
}
