/**
 * The JavaScript string operations the core relies on, on `string` (a sequence of chars):
 * `trim`, `toLowerCase` (ASCII letters only), `includes`, `parseInt`, number-to-string
 * conversion in template literals, and `Buffer.toString('hex')`.
 */
module JsText {
  import opened Wrappers

  newtype byte = x: int | 0 <= x < 256

  /** ECMAScript WhiteSpace and LineTerminator code points: what `trim` and `parseInt` skip. */
  predicate IsWhitespace(c: char)
  {
    c == '\t' || c == '\n' || c == '\U{B}' || c == '\U{C}' || c == '\r' || c == ' '
    || c == '\U{A0}' || c == '\U{1680}' || ('\U{2000}' <= c <= '\U{200A}')
    || c == '\U{2028}' || c == '\U{2029}' || c == '\U{202F}' || c == '\U{205F}'
    || c == '\U{3000}' || c == '\U{FEFF}'
  }

  /** `s.trimStart()`: the suffix of `s` left after dropping its longest all-whitespace prefix. */
  function TrimStart(s: string): (r: string)
    ensures |r| <= |s| && r == s[|s| - |r|..]
    ensures forall i :: 0 <= i < |s| - |r| ==> IsWhitespace(s[i])
    ensures r != [] ==> !IsWhitespace(r[0])
  {
    if s != [] && IsWhitespace(s[0]) then TrimStart(s[1..]) else s
  }

  /** `s.trimEnd()`: the prefix of `s` left after dropping its longest all-whitespace suffix. */
  function TrimEnd(s: string): (r: string)
    ensures |r| <= |s| && r == s[..|r|]
    ensures forall i :: |r| <= i < |s| ==> IsWhitespace(s[i])
    ensures r != [] ==> !IsWhitespace(r[|r| - 1])
  {
    if s != [] && IsWhitespace(s[|s| - 1]) then TrimEnd(s[..|s| - 1]) else s
  }

  /** `s.trim()`. */
  function Trim(s: string): string
  {
    TrimEnd(TrimStart(s))
  }

  /** `s.trim()` is the empty (falsy) string exactly when every character of `s` is whitespace. */
  lemma TrimEmptyIffAllWhitespace(s: string)
    ensures Trim(s) == [] <==> forall i :: 0 <= i < |s| ==> IsWhitespace(s[i])
  {
    var t := TrimStart(s);
    if Trim(s) == [] {
      assert t == [];
    } else {
      assert t != [];
      assert !IsWhitespace(s[|s| - |t|]);
    }
  }

  /** ASCII case folding of one character, as `toLowerCase` does for the letters A to Z. */
  function LowerChar(c: char): char
  {
    if 'A' <= c <= 'Z' then (c as int + 32) as char else c
  }

  /** `s.toLowerCase()` restricted to ASCII letters. */
  function ToLower(s: string): (r: string)
    ensures |r| == |s|
    ensures forall i :: 0 <= i < |s| ==> r[i] == LowerChar(s[i])
  {
    seq(|s|, i requires 0 <= i < |s| => LowerChar(s[i]))
  }

  /** Lower-casing twice is lower-casing once: a lower-cased string holds no capital letter. */
  lemma ToLowerIdempotent(s: string)
    ensures ToLower(ToLower(s)) == ToLower(s)
    ensures forall i :: 0 <= i < |s| ==> !('A' <= ToLower(s)[i] <= 'Z')
  {
  }

  predicate StartsWith(s: string, prefix: string)
  {
    |prefix| <= |s| && s[..|prefix|] == prefix
  }

  /** `sub` occurs in `s` starting at index `i`. */
  predicate OccursAt(s: string, sub: string, i: int)
  {
    0 <= i && i + |sub| <= |s| && s[i..i + |sub|] == sub
  }

  /** `s.includes(sub)`, scanning start positions from left to right. */
  predicate Includes(s: string, sub: string)
    decreases |s|
  {
    StartsWith(s, sub) || (s != [] && Includes(s[1..], sub))
  }

  /** The scan in `Includes` finds `sub` exactly when `sub` occurs somewhere in `s`. */
  lemma {:induction false} IncludesIffOccurs(s: string, sub: string)
    ensures Includes(s, sub) <==> exists i :: OccursAt(s, sub, i)
    decreases |s|
  {
    if Includes(s, sub) {
      if StartsWith(s, sub) {
        assert OccursAt(s, sub, 0);
      } else {
        IncludesIffOccurs(s[1..], sub);
        var i :| OccursAt(s[1..], sub, i);
        assert s[i + 1..i + 1 + |sub|] == s[1..][i..i + |sub|];
        assert OccursAt(s, sub, i + 1);
      }
    }
    if exists i :: OccursAt(s, sub, i) {
      var i :| OccursAt(s, sub, i);
      if i > 0 {
        assert s[1..][i - 1..i - 1 + |sub|] == s[i..i + |sub|];
        assert OccursAt(s[1..], sub, i - 1);
        IncludesIffOccurs(s[1..], sub);
      } else {
        assert StartsWith(s, sub);
      }
    }
  }

  /** The digit characters, indexed by their value, as JavaScript prints them (lower case). */
  const DIGITS: string := "0123456789abcdef"

  /** The value of a digit character in radix 16 or less; letters in either case. */
  function DigitValue(c: char): (r: Option<nat>)
    ensures r.Some? ==> r.value < 16
  {
    if '0' <= c <= '9' then Some(c as int - '0' as int)
    else if 'a' <= c <= 'f' then Some(c as int - 'a' as int + 10)
    else if 'A' <= c <= 'F' then Some(c as int - 'A' as int + 10)
    else None
  }

  predicate IsDigitIn(c: char, radix: nat)
  {
    DigitValue(c).Some? && DigitValue(c).value < radix
  }

  /** Every digit value below 16 is printed as a character that reads back as that value. */
  lemma DigitCharRoundTrip(d: nat)
    requires d < 16
    ensures DigitValue(DIGITS[d]) == Some(d)
  {
    if d < 10 {
      assert DIGITS[d] as int == '0' as int + d;
    } else {
      assert DIGITS[d] as int == 'a' as int + (d - 10);
    }
  }

  /** `String(n)` for a non-negative integer: its decimal digits, most significant first. */
  function Decimal(n: nat): (r: string)
    ensures r != []
    ensures forall i :: 0 <= i < |r| ==> IsDigitIn(r[i], 10)
    decreases n
  {
    DigitCharRoundTrip(n % 10);
    if n < 10 then [DIGITS[n]] else Decimal(n / 10) + [DIGITS[n % 10]]
  }

  /** `String(k)` for any integer. */
  function IntToString(k: int): string
  {
    if k < 0 then "-" + Decimal(-k) else Decimal(k)
  }

  /**
   * The number a string of digits denotes in the given radix. Every caller passes digits of
   * the radix; a character that is no digit would count as 0.
   */
  function ValueOf(digits: string, radix: nat): nat
  {
    if digits == [] then 0
    else
      var low: nat := match DigitValue(digits[|digits| - 1]) case Some(v) => v case None => 0;
      ValueOf(digits[..|digits| - 1], radix) * radix + low
  }

  /** Reading back the decimal rendering of `n` gives `n`. */
  lemma {:induction false} DecimalValue(n: nat)
    ensures ValueOf(Decimal(n), 10) == n
    decreases n
  {
    DigitCharRoundTrip(n % 10);
    if n >= 10 {
      var d := Decimal(n / 10);
      assert (d + [DIGITS[n % 10]])[..|d|] == d;
      DecimalValue(n / 10);
    }
  }

  /** Two numbers with the same decimal rendering are equal. */
  lemma DecimalInjective(m: nat, n: nat)
    requires Decimal(m) == Decimal(n)
    ensures m == n
  {
    DecimalValue(m);
    DecimalValue(n);
  }

  /** The longest prefix of `s` made of digits of the radix. */
  function DigitPrefix(s: string, radix: nat): (r: string)
    ensures |r| <= |s| && r == s[..|r|]
    ensures forall i :: 0 <= i < |r| ==> IsDigitIn(r[i], radix)
    ensures |r| < |s| ==> !IsDigitIn(s[|r|], radix)
  {
    if s != [] && IsDigitIn(s[0], radix) then [s[0]] + DigitPrefix(s[1..], radix) else []
  }

  /**
   * `parseInt(s)` with no radix argument: skip leading whitespace, take an optional sign,
   * then read the number that follows (see `ParseUnsigned`). `None` stands for `NaN`.
   */
  function ParseInt(s: string): (r: Option<int>)
  {
    var t := TrimStart(s);
    var signed := t != [] && (t[0] == '-' || t[0] == '+');
    var magnitude := ParseUnsigned(if signed then t[1..] else t);
    if magnitude.None? then None
    else if signed && t[0] == '-' then Some(-(magnitude.value as int))
    else Some(magnitude.value as int)
  }

  /**
   * The unsigned part of `parseInt`: radix 16 after a `0x` or `0X` prefix and 10 otherwise,
   * then the value of the longest run of digits; `None` (`NaN`) when that run is empty.
   */
  function ParseUnsigned(u: string): Option<nat>
  {
    var hex := |u| >= 2 && u[0] == '0' && (u[1] == 'x' || u[1] == 'X');
    var radix := if hex then 16 else 10;
    var digits := DigitPrefix(if hex then u[2..] else u, radix);
    if digits == [] then None else Some(ValueOf(digits, radix))
  }

  /** A run of decimal digits parses to its value. */
  lemma UnsignedDigitsParse(d: string)
    requires d != [] && forall i :: 0 <= i < |d| ==> IsDigitIn(d[i], 10)
    ensures ParseUnsigned(d) == Some(ValueOf(d, 10))
  {
    assert !(|d| >= 2 && d[0] == '0' && (d[1] == 'x' || d[1] == 'X')) by {
      if |d| >= 2 {
        assert IsDigitIn(d[1], 10);
      }
    }
    DigitPrefixOfDigits(d, 10);
  }

  /** The longest digit prefix of a string made only of digits is the whole string. */
  lemma {:induction false} DigitPrefixOfDigits(d: string, radix: nat)
    requires forall i :: 0 <= i < |d| ==> IsDigitIn(d[i], radix)
    ensures DigitPrefix(d, radix) == d
  {
    if d != [] {
      assert IsDigitIn(d[0], radix);
      assert forall i :: 0 <= i < |d[1..]| ==> d[1..][i] == d[i + 1];
      DigitPrefixOfDigits(d[1..], radix);
      assert d == [d[0]] + d[1..];
    }
  }

  /** A minus sign followed by an unsigned number parses to the negated number. */
  lemma NegativeParse(m: string, v: nat)
    requires m != [] && m[0] == '-' && ParseUnsigned(m[1..]) == Some(v)
    ensures ParseInt(m) == Some(-(v as int))
  {
    assert TrimStart(m) == m;
  }

  /** An unsigned number that does not start with whitespace or a sign parses as itself. */
  lemma PositiveParse(m: string, v: nat)
    requires m != [] && !IsWhitespace(m[0]) && m[0] != '-' && m[0] != '+'
    requires ParseUnsigned(m) == Some(v)
    ensures ParseInt(m) == Some(v)
  {
    assert TrimStart(m) == m;
  }

  /** `parseInt(String(k)) == k`: an integer printed in decimal parses back to itself. */
  lemma ParseIntOfString(k: int)
    ensures ParseInt(IntToString(k)) == Some(k)
  {
    var n: nat := if k < 0 then -k else k;
    var d := Decimal(n);
    DecimalValue(n);
    UnsignedDigitsParse(d);
    if k < 0 {
      var m := IntToString(k);
      assert m[1..] == d;
      NegativeParse(m, n);
    } else {
      DigitIsNotBlankOrSign(d[0]);
      PositiveParse(d, n);
    }
  }

  lemma DigitIsNotBlankOrSign(c: char)
    requires IsDigitIn(c, 10)
    ensures !IsWhitespace(c) && c != '-' && c != '+'
  {
  }

  /** `Buffer.toString('hex')` of one byte: two lower-case hex digits, high nibble first. */
  function HexByte(b: byte): string
  {
    [DIGITS[b as int / 16], DIGITS[b as int % 16]]
  }

  /** `Buffer.toString('hex')`. */
  function Hex(bytes: seq<byte>): (r: string)
    ensures |r| == 2 * |bytes|
  {
    if bytes == [] then [] else HexByte(bytes[0]) + Hex(bytes[1..])
  }

  /** Reads a hex string back into bytes, two digits per byte; `None` if it is not one. */
  function UnHex(s: string): Option<seq<byte>>
    decreases |s|
  {
    if s == [] then Some([])
    else if |s| < 2 then None
    else match (DigitValue(s[0]), DigitValue(s[1]), UnHex(s[2..]))
      case (Some(h), Some(l), Some(rest)) => Some([(h * 16 + l) as byte] + rest)
      case _ => None
  }

  /** The two digits of one byte read back as that byte, ahead of whatever follows. */
  lemma HexByteReadsBack(b: byte, rest: string)
    ensures UnHex(HexByte(b) + rest) ==
      if UnHex(rest).Some? then Some([b] + UnHex(rest).value) else None
  {
    var v := b as int;
    DigitCharRoundTrip(v / 16);
    DigitCharRoundTrip(v % 16);
    var s := HexByte(b) + rest;
    assert s[0] == DIGITS[v / 16] && s[1] == DIGITS[v % 16] && s[2..] == rest;
    assert (v / 16) * 16 + v % 16 == v;
  }

  /** Reading back the hex rendering of some bytes gives those bytes. */
  lemma {:induction false} HexRoundTrip(bytes: seq<byte>)
    ensures UnHex(Hex(bytes)) == Some(bytes)
  {
    if bytes != [] {
      HexRoundTrip(bytes[1..]);
      HexByteReadsBack(bytes[0], Hex(bytes[1..]));
      assert bytes == [bytes[0]] + bytes[1..];
    }
  }

  /** Different byte strings have different hex renderings. */
  lemma HexInjective(a: seq<byte>, b: seq<byte>)
    requires Hex(a) == Hex(b)
    ensures a == b
  {
    HexRoundTrip(a);
    HexRoundTrip(b);
  }
}
