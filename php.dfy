/**
 * The PHP value model shared by every component: session values as a tagged
 * JSON-like type, string helpers, and the casts (`(int)`, `===` on arrays,
 * `strcasecmp`) the session code applies to them. PHP strings are byte
 * strings; here a `string` is a `seq<char>` in which every char stands for one byte.
 */
module Php {

  /** A session value. PHP arrays appear as `List` (integer keys 0..n-1) or `Assoc` (string keys). */
  datatype Value =
    | Null
    | Bool(b: bool)
    | Int(i: int)
    | Str(s: string)
    | List(items: seq<Value>)
    | Assoc(entries: map<string, Value>)

  /** The session data map: string keys to values. */
  type Data = map<string, Value>

  predicate IsArray(v: Value) {
    v.List? || v.Assoc?
  }

  predicate IsEmptyArray(v: Value) {
    v == List([]) || v == Assoc(map[])
  }

  /** `$a === $b` as the session code uses it: structural equality, where the two shapes of `[]` coincide. */
  predicate Identical(a: Value, b: Value) {
    a == b || (IsEmptyArray(a) && IsEmptyArray(b))
  }

  /** `$d[$k] ?? null`: a missing key and a stored null read alike. */
  function Lookup(d: Data, k: string): (v: Value)
    ensures k !in d ==> v == Null
    ensures k in d ==> v == d[k]
  {
    if k in d then d[k] else Null
  }

  /** `$d[$k] ?? $default`. */
  function Coalesce(d: Data, k: string, default: Value): (v: Value)
    ensures v == default || (k in d && v == d[k] && v != Null)
    ensures k in d && d[k] != Null ==> v == d[k]
  {
    if k in d && d[k] != Null then d[k] else default
  }

  predicate StartsWith(s: string, prefix: string) {
    |prefix| <= |s| && s[..|prefix|] == prefix
  }

  /** `rtrim($s, $chars)`: drops trailing characters that belong to `chars`. */
  function RTrim(s: string, chars: set<char>): (r: string)
    ensures StartsWith(s, r)
    ensures r == [] || r[|r| - 1] !in chars
    ensures forall i :: |r| <= i < |s| ==> s[i] in chars
  {
    if s == [] || s[|s| - 1] !in chars then s else RTrim(s[..|s| - 1], chars)
  }

  predicate IsDecimalDigit(c: char) {
    '0' <= c <= '9'
  }

  predicate IsWhitespace(c: char) {
    c == ' ' || c == '\t' || c == '\n' || c == '\r' || c == '\U{B}' || c == '\U{C}'
  }

  /** The value of the run of decimal digits at the start of `s`, appended to `acc`. */
  function DigitRun(s: string, acc: nat): nat
  {
    if s != [] && IsDecimalDigit(s[0]) then DigitRun(s[1..], 10 * acc + (s[0] as int - '0' as int)) else acc
  }

  /**
   * `(int) $s` for a string, by its integer prefix: leading whitespace, an
   * optional sign, then the leading digits (0 if none). A prefix in float
   * notation (`"1e3"`, `"1.5e3"`) is read only up to its first non-digit.
   */
  function StrToInt(s: string): int
  {
    if s != [] && IsWhitespace(s[0]) then StrToInt(s[1..])
    else if s != [] && s[0] == '-' then 0 - DigitRun(s[1..], 0) as int
    else if s != [] && s[0] == '+' then DigitRun(s[1..], 0)
    else DigitRun(s, 0)
  }

  /** `(bool) $v`: null, false, 0, `""`, `"0"` and the empty array are false. */
  function BoolCast(v: Value): (b: bool)
    ensures v.Bool? ==> b == v.b
    ensures v == Null || IsEmptyArray(v) || v == Str("") || v == Str("0") || v == Int(0) ==> !b
  {
    match v
    case Null => false
    case Bool(b) => b
    case Int(i) => i != 0
    case Str(s) => s != "" && s != "0"
    case List(items) => |items| != 0
    case Assoc(entries) => |entries| != 0
  }

  /** `(int) $v`. */
  function IntCast(v: Value): (n: int)
    ensures v.Int? ==> n == v.i
    ensures v == Null || v == Bool(false) || IsEmptyArray(v) ==> n == 0
  {
    match v
    case Null => 0
    case Bool(b) => if b then 1 else 0
    case Int(i) => i
    case Str(s) => StrToInt(s)
    case List(items) => if |items| == 0 then 0 else 1
    case Assoc(entries) => if |entries| == 0 then 0 else 1
  }

  function LowerAscii(c: char): char {
    if 'A' <= c <= 'Z' then (c as int + 32) as char else c
  }

  /** `strcasecmp($a, $b) === 0`: equality after ASCII case folding. */
  predicate EqualsIgnoreCase(a: string, b: string) {
    |a| == |b| && forall i :: 0 <= i < |a| ==> LowerAscii(a[i]) == LowerAscii(b[i])
  }

  predicate IsLowerHexDigit(c: char) {
    '0' <= c <= '9' || 'a' <= c <= 'f'
  }

  /** `ctype_xdigit` on one character. */
  predicate IsHexDigit(c: char) {
    '0' <= c <= '9' || 'a' <= c <= 'f' || 'A' <= c <= 'F'
  }

  function HexDigit(n: nat): (c: char)
    requires n < 16
    ensures IsLowerHexDigit(c)
  {
    if n < 10 then ('0' as int + n) as char else ('a' as int + n - 10) as char
  }

  function HexValue(c: char): (n: nat)
    requires IsHexDigit(c)
    ensures n < 16
  {
    if '0' <= c <= '9' then c as int - '0' as int
    else if 'a' <= c <= 'f' then c as int - 'a' as int + 10
    else c as int - 'A' as int + 10
  }

  /** `bin2hex`: two lower-case hex digits per byte (a char's code modulo 256 is its byte). */
  function Bin2Hex(bytes: string): (r: string)
    ensures |r| == 2 * |bytes|
    ensures forall i :: 0 <= i < |r| ==> IsLowerHexDigit(r[i])
  {
    if bytes == [] then []
    else
      var b := bytes[0] as int % 256;
      [HexDigit(b / 16), HexDigit(b % 16)] + Bin2Hex(bytes[1..])
  }

  /** `hex2bin` on an even-length string of hex digits: one byte per digit pair. */
  function Hex2Bin(hex: string): (r: string)
    requires |hex| % 2 == 0
    requires forall i :: 0 <= i < |hex| ==> IsHexDigit(hex[i])
    ensures 2 * |r| == |hex|
    ensures forall i :: 0 <= i < |r| ==> r[i] as int < 256
  {
    if hex == [] then []
    else [(16 * HexValue(hex[0]) + HexValue(hex[1])) as char] + Hex2Bin(hex[2..])
  }

  /** An integer array key as it reads once the array is a string-keyed map: its decimal digits. */
  function Decimal(n: nat): (r: string)
    ensures r != [] && (n < 10 <==> |r| == 1)
  {
    if n < 10 then [('0' as int + n) as char] else Decimal(n / 10) + [('0' as int + n % 10) as char]
  }

  /** Different indexes have different keys. */
  lemma {:induction false} DecimalInjective(n: nat, m: nat)
    requires Decimal(n) == Decimal(m)
    ensures n == m
  {
    if n >= 10 && m >= 10 {
      var a, b := Decimal(n), Decimal(m);
      assert a[|a| - 1] == b[|b| - 1];
      assert n % 10 == m % 10;
      assert Decimal(n / 10) == a[..|a| - 1] == b[..|b| - 1] == Decimal(m / 10);
      DecimalInjective(n / 10, m / 10);
    }
  }

  /** The keys of the indexes below `n`. */
  function DecimalsBelow(n: nat): set<string>
  {
    if n == 0 then {} else DecimalsBelow(n - 1) + {Decimal(n - 1)}
  }

  /** The key of an index `n` is not among the keys of the indexes below `m <= n`. */
  lemma {:induction false} DecimalNotBelow(m: nat, n: nat)
    requires m <= n
    ensures Decimal(n) !in DecimalsBelow(m)
  {
    if m > 0 {
      DecimalNotBelow(m - 1, n);
      if Decimal(n) == Decimal(m - 1) {
        DecimalInjective(n, m - 1);
      }
    }
  }

  /** The keys below `n` are `n` different strings. */
  lemma {:induction false} DecimalsBelowCount(n: nat)
    ensures |DecimalsBelow(n)| == n
  {
    if n > 0 {
      DecimalsBelowCount(n - 1);
      DecimalNotBelow(n - 1, n - 1);
    }
  }

  /** A set holding the key of every index below `n` holds all of `DecimalsBelow(n)`. */
  lemma {:induction false} DecimalsBelowIn(keys: set<string>, n: nat)
    requires forall i :: 0 <= i < n ==> Decimal(i) in keys
    ensures DecimalsBelow(n) <= keys
  {
    if n > 0 {
      DecimalsBelowIn(keys, n - 1);
    }
  }

  /** A set holding the keys of every index below `n` has at least `n` elements. */
  lemma {:induction false} DecimalsCounted(keys: set<string>, n: nat)
    requires forall i :: 0 <= i < n ==> Decimal(i) in keys
    ensures n <= |keys|
  {
    DecimalsBelowCount(n);
    DecimalsBelowIn(keys, n);
    var below := DecimalsBelow(n);
    assert keys == below + (keys - below);
  }

  /** The least index from `n` on whose key is unused, when every index below `n` is used. */
  function FirstFreeIndex(keys: set<string>, n: nat): (r: nat)
    requires forall i :: 0 <= i < n ==> Decimal(i) in keys
    ensures n <= r && Decimal(r) !in keys
    ensures forall i :: 0 <= i < r ==> Decimal(i) in keys
    decreases |keys| - n
  {
    if Decimal(n) !in keys then n
    else
      DecimalsCounted(keys, n + 1);
      FirstFreeIndex(keys, n + 1)
  }

  /** The index `$a[] = $v` appends under, for an array whose integer keys are `0..k-1`. */
  function NextIndex(keys: set<string>): (r: nat)
    ensures Decimal(r) !in keys
    ensures forall i :: 0 <= i < r ==> Decimal(i) in keys
  {
    FirstFreeIndex(keys, 0)
  }
}
