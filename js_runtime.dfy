/** The pieces of JavaScript's built-in behaviour that the server's logic
    depends on: optional values, JSON values and their truthiness, the
    whitespace that `String.prototype.trim` strips, and `parseInt`.
    Section numbers below refer to ECMAScript 2024 (ECMA-262, 15th edition). */
module JsRuntime {

  /** A value that may be absent: `undefined`/`null` on the JavaScript side. */
  datatype Option<+T> = None | Some(value: T)

  /** A value as `JSON.parse` returns it. Numbers are kept to integers
      (the only numbers the server ever compares or stores); objects and
      arrays, which are always truthy, are collapsed into `Composite`. */
  datatype JsonValue =
    | Undefined
    | Null
    | Bool(b: bool)
    | Number(n: int)
    | Str(s: string)
    | Composite

  /** ToBoolean (section 7.1.2): what `if (v)` and `!v` test. The falsy
      values are exactly `undefined`, `null`, `false`, `0` and `""`. */
  function Truthy(v: JsonValue): (b: bool)
    ensures !b <==> v == Undefined || v == Null || v == Bool(false) || v == Number(0) || v == Str("")
  {
    match v
    case Undefined => false
    case Null => false
    case Bool(b) => b
    case Number(n) => n != 0
    case Str(s) => s != ""
    case Composite => true
  }

  /** WhiteSpace and LineTerminator code points (sections 12.2 and 12.3)
      outside the block U+2000..U+200A of spaces. */
  const SingleSpaces: set<char> :=
    {'\t', '\n', '\U{B}', '\U{C}', '\r', ' ', '\U{A0}', '\U{1680}',
     '\U{2028}', '\U{2029}', '\U{202F}', '\U{205F}', '\U{3000}', '\U{FEFF}'}

  /** The code points that `trim` strips and that `parseInt` skips. */
  predicate IsWhiteSpace(c: char)
  {
    c in SingleSpaces || '\U{2000}' <= c <= '\U{200A}'
  }

  /** Every character of `s` is whitespace (the empty string included). */
  predicate Blank(s: string)
  {
    forall i :: 0 <= i < |s| ==> IsWhiteSpace(s[i])
  }

  /** `s` with its leading whitespace removed: the longest suffix of `s`
      that does not start with whitespace. */
  function TrimStart(s: string): (r: string)
    ensures |r| <= |s| && r == s[|s| - |r|..]
    ensures forall i :: 0 <= i < |s| - |r| ==> IsWhiteSpace(s[i])
    ensures r == [] || !IsWhiteSpace(r[0])
  {
    if s != [] && IsWhiteSpace(s[0]) then
      var r := TrimStart(s[1..]);
      assert s[1..][|s| - 1 - |r|..] == s[|s| - |r|..];
      assert forall i :: 1 <= i < |s| - |r| ==> s[i] == s[1..][i - 1];
      r
    else s
  }

  /** `s` with its trailing whitespace removed: the longest prefix of `s`
      that does not end with whitespace. */
  function TrimEnd(s: string): (r: string)
    ensures |r| <= |s| && r == s[..|r|]
    ensures forall i :: |r| <= i < |s| ==> IsWhiteSpace(s[i])
    ensures r == [] || !IsWhiteSpace(r[|r| - 1])
  {
    if s != [] && IsWhiteSpace(s[|s| - 1]) then TrimEnd(s[..|s| - 1]) else s
  }

  /** `String.prototype.trim` (section 22.1.3.32). */
  function Trim(s: string): (r: string)
    ensures |r| <= |s|
    ensures r == [] || (!IsWhiteSpace(r[0]) && !IsWhiteSpace(r[|r| - 1]))
  {
    TrimEnd(TrimStart(s))
  }

  /** `trim()` cuts `s` into a whitespace prefix (what `TrimStart` drops),
      its result and a whitespace suffix; with the ends of the result not
      whitespace, this fixes the result. */
  lemma TrimCutsOuterWhitespace(s: string) returns (i: nat)
    ensures i + |Trim(s)| <= |s|
    ensures forall k :: 0 <= k < |Trim(s)| ==> Trim(s)[k] == s[i + k]
    ensures forall k :: 0 <= k < i ==> IsWhiteSpace(s[k])
    ensures forall k :: i + |Trim(s)| <= k < |s| ==> IsWhiteSpace(s[k])
  {
    var t := TrimStart(s);
    var r := TrimEnd(t);
    i := |s| - |t|;
    CutOfCut(s, t, r, i);
  }

  /** A prefix `r` of the suffix `t` of `s` from `i`, followed in `t` by
      whitespace only, sits in `s` at `i` and is followed by whitespace. */
  lemma CutOfCut(s: string, t: string, r: string, i: nat)
    requires i <= |s| && t == s[i..]
    requires |r| <= |t| && r == t[..|r|]
    requires forall k :: |r| <= k < |t| ==> IsWhiteSpace(t[k])
    ensures forall k :: 0 <= k < |r| ==> r[k] == s[i + k]
    ensures forall k :: i + |r| <= k < |s| ==> IsWhiteSpace(s[k])
  {
    forall k | i + |r| <= k < |s|
      ensures IsWhiteSpace(s[k])
    {
      assert s[k] == t[k - i];
    }
  }

  /** `s.trim() === ""` exactly when `s` consists of whitespace only. */
  lemma TrimEmptyIffBlank(s: string)
    ensures Trim(s) == "" <==> Blank(s)
  {
    if Blank(s) {
      TrimStartOfBlank(s);
    }
    if Trim(s) == "" {
      var t := TrimStart(s);
      assert Blank(t);
    }
  }

  lemma {:induction false} TrimStartOfBlank(s: string)
    requires Blank(s)
    ensures TrimStart(s) == []
  {
    if s != [] {
      assert IsWhiteSpace(s[0]);
      TrimStartOfBlank(s[1..]);
    }
  }

  /** A digit of the given radix (10 or 16). */
  predicate IsRadixDigit(c: char, radix: int)
  {
    || ('0' <= c <= '9')
    || (radix == 16 && (('a' <= c <= 'f') || ('A' <= c <= 'F')))
  }

  function DigitValue(c: char): (d: nat)
    ensures '0' <= c <= '9' ==> d < 10
  {
    if '0' <= c <= '9' then c as int - '0' as int
    else if 'a' <= c <= 'f' then c as int - 'a' as int + 10
    else if 'A' <= c <= 'F' then c as int - 'A' as int + 10
    else 0
  }

  /** The longest prefix of `s` made of digits of `radix`. */
  function DigitPrefix(s: string, radix: int): (r: string)
    ensures |r| <= |s| && r == s[..|r|]
    ensures forall i :: 0 <= i < |r| ==> IsRadixDigit(r[i], radix)
    ensures |r| == |s| || !IsRadixDigit(s[|r|], radix)
  {
    if s == [] || !IsRadixDigit(s[0], radix) then []
    else
      var p := DigitPrefix(s[1..], radix);
      assert s[..|p| + 1] == [s[0]] + s[1..][..|p|];
      [s[0]] + p
  }

  lemma DigitPrefixOfDigits(s: string, radix: int)
    requires forall i :: 0 <= i < |s| ==> IsRadixDigit(s[i], radix)
    ensures DigitPrefix(s, radix) == s
  {
  }

  /** The number that the digits `z` denote in `radix`, most significant first. */
  function DigitsValue(z: string, radix: nat): nat
  {
    if z == [] then 0 else DigitsValue(z[..|z| - 1], radix) * radix + DigitValue(z[|z| - 1])
  }

  /** The digits after an optional sign: a `0x`/`0X` prefix selects
      radix 16, otherwise radix 10; the longest run of digits is read and
      whatever follows it is ignored. `None` when there are no digits. */
  function ParseUnsigned(u: string): Option<nat>
  {
    var hex := |u| >= 2 && u[0] == '0' && (u[1] == 'x' || u[1] == 'X');
    var radix := if hex then 16 else 10;
    var z := DigitPrefix(if hex then u[2..] else u, radix);
    if z == [] then None else Some(DigitsValue(z, radix))
  }

  /** `parseInt(s)` with no radix argument (section 19.2.5): skip leading
      whitespace, take one optional sign, then read the digits as
      `ParseUnsigned` does. `None` is NaN. Precision loss beyond 2^53 is
      not modelled. */
  function ParseInt(s: string): (r: Option<int>)
    ensures r.Some? ==> TrimStart(s) != []
    ensures r.Some? && r.value < 0 ==> TrimStart(s)[0] == '-'
    ensures r.Some? && TrimStart(s)[0] != '-' ==> r.value >= 0
  {
    var t := TrimStart(s);
    var negative := t != [] && t[0] == '-';
    var digits := ParseUnsigned(AfterSign(t));
    match digits
    case None => None
    case Some(v) =>
      var r: int := if negative then -(v as int) else v;
      Some(r)
  }

  /** `t` without its one optional leading sign. */
  function AfterSign(t: string): string
  {
    if t != [] && (t[0] == '+' || t[0] == '-') then t[1..] else t
  }

  function DigitChar(d: nat): char
    requires d < 10
  {
    ('0' as int + d) as char
  }

  /** `String(n)` for a non-negative integer below 10^21 (larger numbers
      are written in exponent notation): its decimal digits without
      leading zeros. This is what the client puts into a request path such
      as `/api/notes/12`. */
  function DecimalString(n: nat): (s: string)
    requires n < 1000000000000000000000
    ensures s != []
    ensures forall i :: 0 <= i < |s| ==> '0' <= s[i] <= '9'
    ensures s[0] == '0' ==> n == 0 && s == "0"
    ensures DigitsValue(s, 10) == n
  {
    if n < 10 then [DigitChar(n)]
    else
      var p := DecimalString(n / 10);
      var s := p + [DigitChar(n % 10)];
      assert s[..|s| - 1] == p;
      s
  }

  /** Reading back what `String(n)` wrote gives `n`: the path parameter of a
      note id survives `parseInt` unchanged. */
  lemma ParseIntDecimal(n: nat)
    requires n < 1000000000000000000000
    ensures ParseInt(DecimalString(n)) == Some(n)
  {
    var s := DecimalString(n);
    assert !IsWhiteSpace(s[0]);
    assert TrimStart(s) == s;
    assert s[0] != '+' && s[0] != '-';
    DigitPrefixOfDigits(s, 10);
    assert ParseUnsigned(s) == Some(n);
  }

  /** After the whitespace and the one optional sign, text that does not
      start with a decimal digit is NaN: `/api/notes/abc` names no note. */
  lemma ParseIntNaN(s: string)
    requires AfterSign(TrimStart(s)) == [] || !('0' <= AfterSign(TrimStart(s))[0] <= '9')
    ensures ParseInt(s) == None
  {
    var u := AfterSign(TrimStart(s));
    assert DigitPrefix(u, 10) == [];
  }

  /** A run of digits followed by one non-digit and any text: the digits
      are read and the rest is ignored. */
  lemma {:induction false} DigitPrefixStops(z: string, rest: string, radix: int)
    requires forall i :: 0 <= i < |z| ==> IsRadixDigit(z[i], radix)
    requires rest == [] || !IsRadixDigit(rest[0], radix)
    ensures DigitPrefix(z + rest, radix) == z
  {
    if z != [] {
      assert (z + rest)[0] == z[0];
      assert (z + rest)[1..] == z[1..] + rest;
      DigitPrefixStops(z[1..], rest, radix);
      assert z == [z[0]] + z[1..];
    } else {
      assert z + rest == rest;
    }
  }

  /** `parseInt(String(n) + rest)` is `n` whenever `rest` does not go on
      with a digit: digits are read up to the first non-digit. The second
      condition is needed because `"0x1"` reads as hexadecimal. */
  lemma ParseIntStopsAtNonDigit(n: nat, rest: string)
    requires n < 1000000000000000000000
    requires rest == [] || !('0' <= rest[0] <= '9')
    requires n != 0 || rest == [] || (rest[0] != 'x' && rest[0] != 'X')
    ensures ParseInt(DecimalString(n) + rest) == Some(n)
  {
    var d := DecimalString(n);
    assert (d + rest)[0] == d[0];
    UnsignedStopsAtNonDigit(n, rest);
    ParseIntOfDigits(d + rest);
  }

  /** Text that starts with a digit has no whitespace or sign to skip. */
  lemma ParseIntOfDigits(s: string)
    requires s != [] && '0' <= s[0] <= '9'
    ensures ParseUnsigned(s).Some? ==> ParseInt(s) == Some(ParseUnsigned(s).value)
  {
    DigitIsNotWhiteSpace(s[0]);
    KeepsNonBlankStart(s);
    assert AfterSign(s) == s;
  }

  lemma DigitIsNotWhiteSpace(c: char)
    requires '0' <= c <= '9'
    ensures !IsWhiteSpace(c)
  {
  }

  lemma KeepsNonBlankStart(s: string)
    requires s != [] && !IsWhiteSpace(s[0])
    ensures TrimStart(s) == s
  {
  }

  lemma UnsignedStopsAtNonDigit(n: nat, rest: string)
    requires n < 1000000000000000000000
    requires rest == [] || !('0' <= rest[0] <= '9')
    requires n != 0 || rest == [] || (rest[0] != 'x' && rest[0] != 'X')
    ensures ParseUnsigned(DecimalString(n) + rest) == Some(n)
  {
    var d := DecimalString(n);
    var s := d + rest;
    if |s| >= 2 && s[0] == '0' {
      assert d == "0" && s[1] == rest[0];
    }
    DigitPrefixStops(d, rest, 10);
  }
}
