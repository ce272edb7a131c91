/** The values the handlers manipulate: what `JSON.parse` yields, plus
    JavaScript's `undefined` for a property an object does not have. Numbers
    are integers (money in cents); NaN is represented by its JSON form, `null`. */
module Json {
  import opened Util
  import opened Text

  datatype Value =
    | Undefined
    | Null
    | Bool(b: bool)
    | Num(n: int)
    | Str(s: string)
    | Arr(elems: seq<Value>)
    | Obj(props: map<string, Value>)

  /** The properties of a plain object. */
  type Fields = map<string, Value>

  /** JavaScript truthiness: `undefined`, `null`, `false`, `0` and `""` are falsy. */
  predicate Truthy(v: Value) {
    match v
    case Undefined => false
    case Null => false
    case Bool(b) => b
    case Num(n) => n != 0
    case Str(s) => s != ""
    case Arr(_) => true
    case Obj(_) => true
  }

  /** `a || b`. */
  function Or(a: Value, b: Value): Value {
    if Truthy(a) then a else b
  }

  /** Property access `m[k]`: `undefined` when the object has no such property. */
  function Get(m: Fields, k: string): Value {
    if k in m then m[k] else Undefined
  }

  /** An object as `JSON.stringify` writes it: no property holds `undefined`. */
  predicate Defined(m: Fields) {
    forall k :: k in m ==> m[k] != Undefined
  }

  /** Adding one property that is not `undefined` keeps an object written out. */
  lemma UpdateKeepsDefined(m: Fields, k: string, v: Value)
    requires Defined(m) && v != Undefined
    ensures Defined(m[k := v]) && m[k := v].Keys == m.Keys + {k}
  {
  }

  /** `{...m, [k]: v}` as it is written out: a property set to `undefined` disappears. */
  function Put(m: Fields, k: string, v: Value): (r: Fields)
    ensures Get(r, k) == v
    ensures forall j :: j != k ==> Get(r, j) == Get(m, j)
    ensures Defined(m) ==> Defined(r)
  {
    if v == Undefined then m - {k} else m[k := v]
  }

  /** `{...base, ...over}` as it is written out. */
  function Spread(base: Fields, over: Fields): (r: Fields)
    ensures forall k :: Get(r, k) == (if k in over then over[k] else Get(base, k))
    ensures Defined(r)
  {
    map k | k in base.Keys + over.Keys && (if k in over then over[k] else base[k]) != Undefined
      :: if k in over then over[k] else base[k]
  }

  /** The object restricted to `keys`, with `undefined` for the missing ones, as
      the object literal `{a: body.a, b: body.b, ...}` builds it. */
  function Pick(body: Fields, keys: set<string>): (r: Fields)
    ensures r.Keys == keys
    ensures forall k :: k in keys ==> r[k] == Get(body, k)
  {
    map k | k in keys :: Get(body, k)
  }

  /** NaN where a number is expected is stored as `null`. */
  function NumberOrNull(n: Option<int>): Value {
    if n.Some? then Num(n.value) else Null
  }

  // ----- parseInt and parseFloat -----------------------------------------

  /** The value of a digit in bases up to 36, or 36 when `c` is not a digit. */
  function DigitValue(c: char): nat {
    if '0' <= c <= '9' then c as int - '0' as int
    else if 'a' <= c <= 'z' then c as int - 'a' as int + 10
    else if 'A' <= c <= 'Z' then c as int - 'A' as int + 10
    else 36
  }

  /** The length of the longest prefix of `s` made of digits of `radix`. */
  function DigitRun(s: string, radix: nat): (n: nat)
    ensures n <= |s|
    ensures forall i :: 0 <= i < n ==> DigitValue(s[i]) < radix
    ensures n < |s| ==> DigitValue(s[n]) >= radix
  {
    if s != [] && DigitValue(s[0]) < radix then 1 + DigitRun(s[1..], radix) else 0
  }

  /** The number the digit string `ds` denotes in `radix`. */
  function Positional(ds: string, radix: nat): nat {
    if ds == [] then 0
    else Positional(ds[..|ds| - 1], radix) * radix + DigitValue(ds[|ds| - 1])
  }

  /** The sign and the unsigned part of a numeral after its leading whitespace. */
  function SplitSign(s: string): (bool, string) {
    var t := SkipWhile(s, IsSpace);
    if t != [] && t[0] == '-' then (true, t[1..])
    else if t != [] && t[0] == '+' then (false, t[1..])
    else (false, t)
  }

  function Signed(negative: bool, n: nat): int {
    if negative then -(n as int) else n
  }

  /** `parseInt(s)`: leading whitespace, a sign, then a `0x` hexadecimal or a
      decimal digit prefix; `None` (NaN) when there is no digit. */
  function ParseIntText(s: string): Option<int> {
    var (neg, u) := SplitSign(s);
    var hex := |u| >= 2 && u[0] == '0' && (u[1] == 'x' || u[1] == 'X');
    var digits := if hex then u[2..] else u;
    var radix := if hex then 16 else 10;
    var n := DigitRun(digits, radix);
    if n == 0 then None else Some(Signed(neg, Positional(digits[..n], radix)))
  }

  /** `parseFloat(s)` restricted to integers: leading whitespace, a sign and a
      decimal digit prefix. */
  function ParseFloatText(s: string): Option<int> {
    var (neg, u) := SplitSign(s);
    var n := DigitRun(u, 10);
    if n == 0 then None else Some(Signed(neg, Positional(u[..n], 10)))
  }

  /** `parseInt(v)` for a JSON value. */
  function ParseInt(v: Value): Option<int> {
    match v
    case Num(n) => Some(n)
    case Str(s) => ParseIntText(s)
    case _ => None
  }

  /** `parseFloat(v)` for a JSON value. */
  function ParseFloat(v: Value): Option<int> {
    match v
    case Num(n) => Some(n)
    case Str(s) => ParseFloatText(s)
    case _ => None
  }

  // NoSignOnTwelve, TwoDigitsInTwelve and TwelveValue each settle one step of
  // ParseIntIgnoresTail below on its concrete string; they state nothing further.

  lemma NoSignOnTwelve()
    ensures SplitSign("12abc") == (false, "12abc")
  {
    assert "12abc"[0] == '1' && !IsSpace('1');
    assert SkipWhile("12abc", IsSpace) == "12abc";
  }

  lemma TwoDigitsInTwelve()
    ensures DigitRun("12abc", 10) == 2
  {
    assert "12abc"[1..] == "2abc" && "2abc"[1..] == "abc";
    assert DigitRun("abc", 10) == 0;
  }

  lemma TwelveValue()
    ensures Positional("12", 10) == 12
  {
    assert "12"[..1] == "1";
    assert "1"[..0] == "";
  }

  /** A numeral with a non-digit tail still parses: `parseInt("12abc") == 12`. */
  lemma ParseIntIgnoresTail()
    ensures ParseIntText("12abc") == Some(12)
  {
    NoSignOnTwelve();
    TwoDigitsInTwelve();
    assert "12abc"[..2] == "12";
    TwelveValue();
  }

  /** A string without a leading digit is NaN. */
  lemma ParseIntNoDigits()
    ensures ParseIntText("abc") == None
  {
    assert "abc"[0] == 'a' && !IsSpace('a');
    assert SkipWhile("abc", IsSpace) == "abc";
  }
}
