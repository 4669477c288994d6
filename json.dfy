/**
 * JSON values as the board's JavaScript sees them after `JSON.parse`, and the
 * coercions the code relies on: truthiness, property reads, and the text a
 * value turns into inside a template literal (`${v}`).
 */
module Json {
  import opened Maybe

  /** Numbers are integers in this model (see README, "Left out"). */
  datatype Json =
    | JNull
    | JBool(b: bool)
    | JNum(n: int)
    | JStr(s: string)
    | JArr(items: seq<Json>)
    | JObj(fields: map<string, Json>)

  /** `Boolean(v)` for a value that is present. */
  predicate Truthy(v: Json) {
    match v
    case JNull => false
    case JBool(b) => b
    case JNum(n) => n != 0
    case JStr(s) => s != ""
    case _ => true
  }

  /** `Boolean(v)` for a property read; `None` is `undefined`, which is falsy. */
  predicate Present(v: Option<Json>) {
    v.Some? && Truthy(v.value)
  }

  /** `typeof v === 'number'` */
  predicate IsNumber(v: Option<Json>) {
    v.Some? && v.value.JNum?
  }

  /** `typeof v === 'boolean'` */
  predicate IsBoolean(v: Option<Json>) {
    v.Some? && v.value.JBool?
  }

  /**
   * `v.key`, as destructuring reads it: only objects carry the data
   * properties the board looks up, so every other value yields `undefined`.
   */
  function Field(v: Json, key: string): Option<Json> {
    if v.JObj? && key in v.fields then Some(v.fields[key]) else None
  }

  predicate IsDigit(c: char) {
    '0' <= c <= '9'
  }

  function DigitChar(d: int): (c: char)
    requires 0 <= d < 10
    ensures IsDigit(c) && c as int - '0' as int == d
  {
    ('0' as int + d) as char
  }

  function DigitValue(c: char): int {
    if IsDigit(c) then c as int - '0' as int else 0
  }

  /** Decimal text of a non-negative integer, most significant digit first, no leading zeros. */
  function NatText(n: nat): (s: string)
    ensures 1 <= |s|
    ensures forall i :: 0 <= i < |s| ==> IsDigit(s[i])
    ensures n < 10 <==> |s| == 1
  {
    if n < 10 then [DigitChar(n)] else NatText(n / 10) + [DigitChar(n % 10)]
  }

  /** `String(n)` for an integer number. */
  function IntText(n: int): (s: string)
    ensures 1 <= |s|
  {
    if n < 0 then "-" + NatText(-n) else NatText(n)
  }

  /** Reads a digit string back, most significant digit first. */
  function ParseNat(s: string): nat {
    if s == [] then 0 else ParseNat(s[..|s| - 1]) * 10 + DigitValue(s[|s| - 1])
  }

  function ParseInt(s: string): int {
    if |s| > 0 && s[0] == '-' then 0 - ParseNat(s[1..]) else ParseNat(s)
  }

  lemma {:induction false} ParseNatText(n: nat)
    ensures ParseNat(NatText(n)) == n
  {
    if n >= 10 {
      var s := NatText(n);
      assert s[..|s| - 1] == NatText(n / 10);
      ParseNatText(n / 10);
    }
  }

  /** Reading the text of an integer gives the integer back. */
  lemma ParseIntText(n: int)
    ensures ParseInt(IntText(n)) == n
  {
    var s := IntText(n);
    if n < 0 {
      var t := NatText(-n);
      assert s == "-" + t;
      assert s[1..] == t;
      ParseNatText(-n);
    } else {
      var t := NatText(n);
      assert s == t;
      assert IsDigit(t[0]);
      ParseNatText(n);
    }
  }

  /** Distinct integers have distinct texts. */
  lemma IntTextInjective(a: int, b: int)
    ensures IntText(a) == IntText(b) <==> a == b
  {
    ParseIntText(a);
    ParseIntText(b);
  }

  /** The text of `null` or `undefined` inside an array's `join`. */
  function ElementText(v: Json): string
    decreases v, if v.JArr? then |v.items| + 3 else 2
  {
    if v.JNull? then "" else Text(v)
  }

  /** `items.join(',')` over the first `n` items of the array `v`. */
  function JoinedItems(v: Json, n: nat): string
    requires v.JArr? && n <= |v.items|
    decreases v, n + 1
  {
    if n == 0 then ""
    else if n == 1 then ElementText(v.items[0])
    else JoinedItems(v, n - 1) + "," + ElementText(v.items[n - 1])
  }

  /** The text a present value becomes in a template literal `${v}`. */
  function Text(v: Json): string
    decreases v, if v.JArr? then |v.items| + 2 else 1
  {
    match v
    case JNull => "null"
    case JBool(b) => if b then "true" else "false"
    case JNum(n) => IntText(n)
    case JStr(s) => s
    case JArr(items) => JoinedItems(v, |items|)
    case JObj(_) => "[object Object]"
  }

  /** The text of a property read in a template literal; `undefined` prints as such. */
  function FieldText(v: Option<Json>): string {
    if v.Some? then Text(v.value) else "undefined"
  }

  /** `parts.join(sep)` for a list of strings. */
  function Join(parts: seq<string>, sep: char): string {
    if |parts| == 0 then ""
    else if |parts| == 1 then parts[0]
    else parts[0] + [sep] + Join(parts[1..], sep)
  }
}
