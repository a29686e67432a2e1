/** JavaScript values and the string operations of the export pipeline:
    truthiness, `String(v)`, `||` defaults, `toLowerCase`, `trim` and `join`. */
module JsValues {

  datatype Option<+T> = None | Some(value: T)

  /** An operation either returns normally or lets an exception propagate to its caller. */
  datatype Result<+T> = Ok(value: T) | Thrown

  /** The answer of one authenticated HTTP call. `TokenError`: the token refresh that the
      caller performs before its `try` block threw, so the error propagates. `RequestError`:
      the request (or reading its body) failed inside the `try` block. */
  datatype Reply<+B> = TokenError | RequestError | Response(body: B)

  /** A primitive value of an API body or a spreadsheet cell (integers only). */
  datatype Value = Undefined | Null | Bool(b: bool) | Num(n: int) | Text(s: string)

  predicate Truthy(v: Value) {
    match v
    case Undefined => false
    case Null => false
    case Bool(b) => b
    case Num(n) => n != 0
    case Text(s) => s != ""
  }

  /** A row of a spreadsheet read with `sheet_to_json`: column header to cell value. */
  type Row = map<string, Value>

  /** `row[key]`: `undefined` for a missing column. */
  function Get(row: Row, key: string): Value {
    if key in row then row[key] else Undefined
  }

  /** `v || d` */
  function Or(v: Value, d: Value): Value {
    if Truthy(v) then v else d
  }

  /** `(s || d)` for a field that holds a string or is absent. */
  function OrDefault(s: Option<string>, d: string): string {
    if s.Some? && s.value != "" then s.value else d
  }

  /** `(s || '')` */
  function OrEmpty(s: Option<string>): string {
    OrDefault(s, "")
  }

  function DigitChar(d: nat): char
    requires d < 10
  {
    ('0' as int + d) as char
  }

  function NatDecimal(n: nat): (r: string)
    ensures |r| > 0
    ensures forall i :: 0 <= i < |r| ==> '0' <= r[i] <= '9'
  {
    if n < 10 then [DigitChar(n)] else NatDecimal(n / 10) + [DigitChar(n % 10)]
  }

  function Decimal(n: int): string {
    if n < 0 then "-" + NatDecimal(-n) else NatDecimal(n)
  }

  /** `String(v)` */
  function ToJsString(v: Value): string {
    match v
    case Undefined => "undefined"
    case Null => "null"
    case Bool(b) => if b then "true" else "false"
    case Num(n) => Decimal(n)
    case Text(s) => s
  }

  /** `toLowerCase` on the Basic Latin and Cyrillic letters. */
  function LowerChar(c: char): char {
    if 'A' <= c <= 'Z' then (c as int + 32) as char
    else if 0x0410 <= c as int <= 0x042F then (c as int + 32) as char
    else if 0x0400 <= c as int <= 0x040F then (c as int + 80) as char
    else c
  }

  function Lower(s: string): string {
    seq(|s|, i requires 0 <= i < |s| => LowerChar(s[i]))
  }

  lemma LowerIdempotent(s: string)
    ensures Lower(Lower(s)) == Lower(s)
  {
    assert forall i :: 0 <= i < |s| ==> LowerChar(LowerChar(s[i])) == LowerChar(s[i]);
  }

  /** The white space and line terminators that `trim` removes. */
  predicate IsSpace(c: char) {
    c as int in {0x09, 0x0A, 0x0B, 0x0C, 0x0D, 0x20, 0xA0, 0x1680, 0x2028, 0x2029,
                 0x202F, 0x205F, 0x3000, 0xFEFF}
    || 0x2000 <= c as int <= 0x200A
  }

  function TrimStart(s: string): (r: string)
    ensures r == [] || !IsSpace(r[0])
    ensures exists k :: 0 <= k <= |s| && r == s[k..]
  {
    if |s| > 0 && IsSpace(s[0]) then
      var r := TrimStart(s[1..]);
      ghost var k :| 0 <= k <= |s[1..]| && r == s[1..][k..];
      assert r == s[k + 1..];
      r
    else
      assert s == s[0..];
      s
  }

  function TrimEnd(s: string): (r: string)
    ensures r == [] || !IsSpace(r[|r| - 1])
    ensures exists k :: 0 <= k <= |s| && r == s[..k]
  {
    if |s| > 0 && IsSpace(s[|s| - 1]) then
      var r := TrimEnd(s[..|s| - 1]);
      ghost var k :| 0 <= k <= |s| - 1 && r == s[..|s| - 1][..k];
      assert r == s[..k];
      r
    else
      assert s == s[..|s|];
      s
  }

  /** `trim` */
  function Trim(s: string): string {
    TrimEnd(TrimStart(s))
  }

  /** A trimmed string starts and ends with a character that is not white space. */
  lemma TrimmedEnds(s: string)
    ensures Trim(s) == [] || (!IsSpace(Trim(s)[0]) && !IsSpace(Trim(s)[|Trim(s)| - 1]))
  {
    var t := TrimStart(s);
    var k :| 0 <= k <= |t| && Trim(s) == t[..k];
  }

  lemma {:induction false} TrimIdempotent(s: string)
    ensures Trim(Trim(s)) == Trim(s)
  {
    var t := Trim(s);
    TrimmedEnds(s);
    assert TrimStart(t) == t;
    assert TrimEnd(t) == t;
  }

  /** A single space trims to nothing. */
  lemma {:induction false} TrimSpace()
    ensures Trim(" ") == ""
  {
    assert IsSpace(' ');
    assert TrimStart(" "[1..]) == "";
  }

  /** A trimmed non-empty string followed by a space trims back to itself. */
  lemma {:induction false} TrimTrailingSpace(x: string)
    requires x != "" && Trim(x) == x
    ensures Trim(x + " ") == x
  {
    TrimmedEnds(x);
    assert TrimStart(x + " ") == x + " ";
    assert (x + " ")[..|x + " "| - 1] == x;
    assert TrimStart(x) == x;
  }

  /** `xs.join(sep)` */
  function Join(xs: seq<string>, sep: string): string {
    if |xs| == 0 then ""
    else if |xs| == 1 then xs[0]
    else xs[0] + sep + Join(xs[1..], sep)
  }
}
