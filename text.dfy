/**
 * The string primitives of JavaScript that the components rely on: `split`, `padStart`,
 * `Number.parseInt`, `Number(...)` on a string, `trim` (only whether anything is left),
 * `toLowerCase`, `includes` and the `<` ordering of strings.
 */
module Text {
  import opened Wrappers

  // ---------------------------------------------------------------- digits and numbers

  predicate IsDigit(c: char) { '0' <= c <= '9' }

  predicate AllDigits(s: string) { forall i :: 0 <= i < |s| ==> IsDigit(s[i]) }

  function DigitValue(c: char): (d: nat)
    requires IsDigit(c)
    ensures d < 10
  {
    (c as int) - ('0' as int)
  }

  function DigitChar(d: nat): (c: char)
    requires d < 10
    ensures IsDigit(c) && DigitValue(c) == d
  {
    (('0' as int) + d) as char
  }

  /** The value of a string of decimal digits; leading zeros are allowed. */
  function DigitsValue(s: string): nat
    requires AllDigits(s)
  {
    if s == [] then 0 else 10 * DigitsValue(s[..|s| - 1]) + DigitValue(s[|s| - 1])
  }

  /** `n.toString()` for a non-negative integer: decimal digits without leading zeros. */
  function NatToString(n: nat): (r: string)
    ensures AllDigits(r) && 1 <= |r|
    ensures |r| > 1 ==> r[0] != '0'
  {
    if n < 10 then [DigitChar(n)] else NatToString(n / 10) + [DigitChar(n % 10)]
  }

  /** Reading back what `NatToString` wrote gives the number. */
  lemma {:induction false} NatToStringValue(n: nat)
    ensures DigitsValue(NatToString(n)) == n
  {
    if n >= 10 {
      NatToStringValue(n / 10);
      var r := NatToString(n);
      assert r[..|r| - 1] == NatToString(n / 10);
    }
  }

  /** `i.toString()` for any integer. */
  function IntToString(i: int): (r: string)
    ensures 1 <= |r|
    ensures 0 <= i ==> AllDigits(r)
  {
    if i < 0 then "-" + NatToString(-i) else NatToString(i)
  }

  /** `s.padStart(width, fill)` for a one-character fill. */
  function PadStart(s: string, width: nat, fill: char): (r: string)
    ensures |r| == if |s| >= width then |s| else width
    ensures r[|r| - |s|..] == s
    ensures forall i :: 0 <= i < |r| - |s| ==> r[i] == fill
    decreases width - |s|
  {
    if |s| >= width then s else PadStart([fill] + s, width, fill)
  }

  /** `i.toString().padStart(2, "0")`. */
  function Pad2(i: int): string {
    PadStart(IntToString(i), 2, '0')
  }

  /** Zero-padding does not change the value of a digit string. */
  lemma {:induction false} PadStartValue(s: string, width: nat)
    requires AllDigits(s)
    ensures AllDigits(PadStart(s, width, '0'))
    ensures DigitsValue(PadStart(s, width, '0')) == DigitsValue(s)
    decreases width - |s|
  {
    if |s| < width {
      ZeroPrefixValue(s);
      PadStartValue(['0'] + s, width);
    }
  }

  lemma {:induction false} ZeroPrefixValue(s: string)
    requires AllDigits(s)
    ensures AllDigits(['0'] + s) && DigitsValue(['0'] + s) == DigitsValue(s)
    decreases |s|
  {
    if s != [] {
      var t := ['0'] + s;
      assert t[..|t| - 1] == ['0'] + s[..|s| - 1];
      ZeroPrefixValue(s[..|s| - 1]);
    }
  }

  /** A non-negative number, zero-padded, is all digits and reads back as itself. */
  lemma PadNatValue(n: nat, width: nat)
    ensures AllDigits(PadStart(IntToString(n), width, '0'))
    ensures DigitsValue(PadStart(IntToString(n), width, '0')) == n
  {
    NatToStringValue(n);
    PadStartValue(NatToString(n), width);
  }

  /** `Pad2` writes the numbers 0..99 as exactly two digits that read back as the number. */
  lemma Pad2Exact(n: nat)
    requires n < 100
    ensures |Pad2(n)| == 2 && AllDigits(Pad2(n)) && DigitsValue(Pad2(n)) == n
  {
    PadNatValue(n, 2);
    NatToStringShort(n);
  }

  lemma NatToStringShort(n: nat)
    requires n < 100
    ensures |IntToString(n)| <= 2
  {
    if n >= 10 {
      assert NatToString(n) == NatToString(n / 10) + [DigitChar(n % 10)];
    }
  }

  // ---------------------------------------------------------------- split

  /** `s.split(sep)` for a one-character separator: always at least one piece. */
  function Split(s: string, sep: char): (r: seq<string>)
    ensures |r| >= 1
    ensures forall k :: 0 <= k < |r| ==> sep !in r[k]
  {
    if s == [] then [""]
    else
      var rest := Split(s[1..], sep);
      if s[0] == sep then [""] + rest else [[s[0]] + rest[0]] + rest[1..]
  }

  /** `pieces.join(sep)`. */
  function Join(pieces: seq<string>, sep: char): string
    requires |pieces| >= 1
  {
    if |pieces| == 1 then pieces[0] else pieces[0] + [sep] + Join(pieces[1..], sep)
  }

  /** Splitting and joining again gives back the string. */
  lemma {:induction false} SplitJoin(s: string, sep: char)
    ensures Join(Split(s, sep), sep) == s
  {
    if s != [] {
      SplitJoin(s[1..], sep);
      var rest := Split(s[1..], sep);
      if s[0] == sep {
        assert ([""] + rest)[1..] == rest;
      } else if |rest| > 1 {
        assert ([[s[0]] + rest[0]] + rest[1..])[1..] == rest[1..];
      }
    }
  }

  /** The first piece ends at the first separator. */
  lemma {:induction false} SplitAt(a: string, sep: char, b: string)
    requires sep !in a
    ensures Split(a + [sep] + b, sep) == [a] + Split(b, sep)
  {
    var s := a + [sep] + b;
    if a == [] {
      assert s[0] == sep && s[1..] == b;
    } else {
      assert s[0] == a[0] && s[1..] == a[1..] + [sep] + b;
      SplitAt(a[1..], sep, b);
      assert [a[0]] + a[1..] == a;
    }
  }

  /** A string without the separator is its own single piece. */
  lemma {:induction false} SplitNone(a: string, sep: char)
    requires sep !in a
    ensures Split(a, sep) == [a]
  {
    if a != [] {
      SplitNone(a[1..], sep);
      assert [a[0]] + a[1..] == a;
    }
  }

  // ---------------------------------------------------------------- whitespace and parsing

  /** The characters that `trim` and `parseInt` skip: WhiteSpace and LineTerminator. */
  predicate IsSpace(c: char) {
    c == ' ' || c == '\t' || c == '\n' || c == '\r' || c == '\U{000B}' || c == '\U{000C}'
    || c == '\U{00A0}' || c == '\U{1680}' || ('\U{2000}' <= c <= '\U{200A}')
    || c == '\U{2028}' || c == '\U{2029}' || c == '\U{202F}' || c == '\U{205F}'
    || c == '\U{3000}' || c == '\U{FEFF}'
  }

  /** `!s.trim()`: nothing but whitespace is left. */
  predicate Blank(s: string) { forall i :: 0 <= i < |s| ==> IsSpace(s[i]) }

  function TrimStart(s: string): (r: string)
    ensures |r| <= |s| && r == s[|s| - |r|..]
    ensures r != [] ==> !IsSpace(r[0])
    ensures Blank(s[..|s| - |r|])
  {
    if s != [] && IsSpace(s[0]) then TrimStart(s[1..]) else s
  }

  function TrimEnd(s: string): (r: string)
    ensures |r| <= |s| && r == s[..|r|]
    ensures r != [] ==> !IsSpace(r[|r| - 1])
    ensures Blank(s[|r|..])
  {
    if s != [] && IsSpace(s[|s| - 1]) then
      var r := TrimEnd(s[..|s| - 1]);
      assert s[|r|..] == s[..|s| - 1][|r|..] + [s[|s| - 1]];
      r
    else s
  }

  /** `s.trim()`. */
  function Trim(s: string): string {
    TrimEnd(TrimStart(s))
  }

  /** `!s.trim()` holds exactly when `s` is nothing but whitespace. */
  lemma TrimEmpty(s: string)
    ensures Trim(s) == [] <==> Blank(s)
  {
    var r := TrimStart(s);
    if r != [] {
      assert !IsSpace(s[|s| - |r|]);
    } else {
      assert s[..|s|] == s;
    }
  }

  /** The longest prefix of digits. */
  function LeadingDigits(s: string): (r: string)
    ensures AllDigits(r) && |r| <= |s| && r == s[..|r|]
    ensures |r| < |s| ==> !IsDigit(s[|r|])
  {
    if s != [] && IsDigit(s[0]) then [s[0]] + LeadingDigits(s[1..]) else []
  }

  /** The value of a letter or digit as a digit of a radix up to 36; 36 for any other character. */
  function CharValue(c: char): (v: nat)
    ensures v <= 36
    ensures IsDigit(c) ==> v == DigitValue(c)
  {
    if '0' <= c <= '9' then (c as int) - ('0' as int)
    else if 'a' <= c <= 'z' then (c as int) - ('a' as int) + 10
    else if 'A' <= c <= 'Z' then (c as int) - ('A' as int) + 10
    else 36
  }

  predicate IsRadixDigit(c: char, radix: nat) { CharValue(c) < radix }

  predicate AllRadixDigits(s: string, radix: nat) { forall i :: 0 <= i < |s| ==> IsRadixDigit(s[i], radix) }

  /** The value of a string of digits in `radix`. */
  function RadixValue(s: string, radix: nat): nat
    requires AllRadixDigits(s, radix)
  {
    if s == [] then 0 else radix * RadixValue(s[..|s| - 1], radix) + CharValue(s[|s| - 1])
  }

  /** The longest prefix of digits in `radix`. */
  function LeadingRadixDigits(s: string, radix: nat): (r: string)
    ensures AllRadixDigits(r, radix) && |r| <= |s| && r == s[..|r|]
    ensures |r| < |s| ==> !IsRadixDigit(s[|r|], radix)
  {
    if s != [] && IsRadixDigit(s[0], radix) then [s[0]] + LeadingRadixDigits(s[1..], radix) else []
  }

  /** The radix a `0x`, `0o` or `0b` prefix (either case) announces; 0 when there is none. */
  function PrefixRadix(t: string): (r: nat)
    ensures r == 0 || r == 2 || r == 8 || r == 16
    ensures r != 0 ==> |t| >= 2 && t[0] == '0'
  {
    if |t| < 2 || t[0] != '0' then 0
    else if t[1] == 'x' || t[1] == 'X' then 16
    else if t[1] == 'o' || t[1] == 'O' then 8
    else if t[1] == 'b' || t[1] == 'B' then 2
    else 0
  }

  /**
   * `Number.parseInt(s)` without a radix: leading whitespace, an optional sign, then a `0x`
   * or `0X` prefix switches to hexadecimal; the result is the longest run of digits after
   * that, and `None` stands for NaN (no digits).
   */
  function ParseInt(s: string): (r: Option<int>)
    ensures var u := Unsigned(TrimStart(s));
            PrefixRadix(u) != 16 ==> (r.None? <==> LeadingDigits(u) == [])
    ensures var u := Unsigned(TrimStart(s));
            PrefixRadix(u) == 16 ==> (r.None? <==> LeadingRadixDigits(u[2..], 16) == [])
  {
    var t := TrimStart(s);
    var u := Unsigned(t);
    if PrefixRadix(u) == 16 then
      var digits := LeadingRadixDigits(u[2..], 16);
      if digits == [] then None
      else if t[0] == '-' then Some(0 - RadixValue(digits, 16))
      else Some(RadixValue(digits, 16))
    else
      var digits := LeadingDigits(u);
      if digits == [] then None
      else if t[0] == '-' then Some(0 - DigitsValue(digits))
      else Some(DigitsValue(digits))
  }

  function Unsigned(t: string): string {
    if |t| > 0 && (t[0] == '-' || t[0] == '+') then t[1..] else t
  }

  /** `Number.parseInt` reads a plain digit string as its decimal value. */
  lemma ParseIntDigits(s: string)
    requires s != [] && AllDigits(s)
    ensures ParseInt(s) == Some(DigitsValue(s))
  {
    assert IsDigit(s[0]);
    DigitStart(s);
    LeadingDigitsAll(s);
    DecimalStart(s);
  }

  /** `Number.parseInt` stops at the first non-digit, unless a lone `0` and an `x` make a hexadecimal prefix. */
  lemma ParseIntPrefix(s: string, rest: string)
    requires s != [] && AllDigits(s)
    requires rest == [] || !IsDigit(rest[0])
    requires |s| == 1 && rest != [] ==> rest[0] != 'x' && rest[0] != 'X'
    ensures ParseInt(s + rest) == Some(DigitsValue(s))
  {
    var t := s + rest;
    assert t[0] == s[0] && IsDigit(t[0]);
    assert |s| >= 2 ==> t[1] == s[1] && IsDigit(t[1]);
    assert |s| == 1 && rest != [] ==> t[1] == rest[0];
    DigitStart(t);
    NotHexStart(t);
    LeadingDigitsStop(s, rest);
  }

  /** After a `0x` or `0X` prefix, `Number.parseInt` reads hexadecimal digits up to the first that is not one. */
  lemma ParseIntHex(x: char, h: string, rest: string)
    requires x == 'x' || x == 'X'
    requires h != [] && AllRadixDigits(h, 16)
    requires rest == [] || !IsRadixDigit(rest[0], 16)
    ensures ParseInt(['0', x] + h + rest) == Some(RadixValue(h, 16))
  {
    var t := ['0', x] + h + rest;
    assert t[0] == '0' && IsDigit(t[0]) && t[1] == x;
    DigitStart(t);
    assert t[2..] == h + rest;
    LeadingRadixDigitsStop(h, rest, 16);
  }

  /** A `0x` prefix with no hexadecimal digit after it is NaN, although `0` alone is a number. */
  lemma ParseIntHexEmpty(x: char, rest: string)
    requires x == 'x' || x == 'X'
    requires rest == [] || !IsRadixDigit(rest[0], 16)
    ensures ParseInt(['0', x] + rest) == None
  {
    var t := ['0', x] + rest;
    assert t[0] == '0' && IsDigit(t[0]) && t[1] == x;
    DigitStart(t);
    assert t[2..] == rest;
  }

  /** `parseInt("0x1A")` is 26. */
  lemma ParseIntHexExample()
    ensures ParseInt("0x1A") == Some(26)
  {
    var h := ['1', 'A'];
    HexOneA(h);
    ParseIntHex('x', h, []);
    assert ['0', 'x'] + h + [] == "0x1A";
  }

  lemma HexOneA(h: string)
    requires h == ['1', 'A']
    ensures AllRadixDigits(h, 16) && RadixValue(h, 16) == 26
  {
    assert CharValue(h[0]) == 1 && CharValue(h[1]) == 10;
    assert h[..1] == ['1'] && ['1'][..0] == [];
  }

  /** `parseInt("0x")` is NaN. */
  lemma ParseIntHexEmptyExample()
    ensures ParseInt("0x") == None
  {
    ParseIntHexEmpty('x', []);
    assert ['0', 'x'] + [] == "0x";
  }

  /** A string whose first two characters are digits carries no radix prefix. */
  lemma DecimalStart(u: string)
    requires u != [] && IsDigit(u[0]) && (|u| >= 2 ==> IsDigit(u[1]))
    ensures PrefixRadix(u) == 0
  {
  }

  lemma NotHexStart(u: string)
    requires u != [] && (|u| >= 2 ==> u[1] != 'x' && u[1] != 'X')
    ensures PrefixRadix(u) != 16
  {
  }

  /** A string that starts with a digit has no leading space and no sign to skip. */
  lemma DigitStart(t: string)
    requires t != [] && IsDigit(t[0])
    ensures TrimStart(t) == t && Unsigned(t) == t
  {
  }

  lemma {:induction false} LeadingDigitsAll(s: string)
    requires AllDigits(s)
    ensures LeadingDigits(s) == s
  {
    if s != [] { LeadingDigitsAll(s[1..]); }
  }

  lemma {:induction false} LeadingDigitsStop(s: string, rest: string)
    requires AllDigits(s)
    requires rest == [] || !IsDigit(rest[0])
    ensures LeadingDigits(s + rest) == s
  {
    if s != [] {
      assert (s + rest)[1..] == s[1..] + rest;
      LeadingDigitsStop(s[1..], rest);
    }
  }

  lemma {:induction false} LeadingRadixDigitsStop(s: string, rest: string, radix: nat)
    requires AllRadixDigits(s, radix)
    requires rest == [] || !IsRadixDigit(rest[0], radix)
    ensures LeadingRadixDigits(s + rest, radix) == s
  {
    if s != [] {
      assert (s + rest)[1..] == s[1..] + rest;
      LeadingRadixDigitsStop(s[1..], rest, radix);
    }
  }

  /**
   * `Number(s)` for a string, restricted to integers: surrounding whitespace is ignored and
   * an empty string is 0; an unsigned `0x`, `0o` or `0b` prefix (either case) followed by
   * digits of that radix is their value; an optional sign followed by decimal digits is
   * that integer; anything else is `None` (NaN, or a non-integer form this model does
   * not read).
   */
  function NumberOf(s: string): Option<int> {
    NumberOfTrimmed(Trim(s))
  }

  /** `Number` of a string with no surrounding whitespace. */
  function NumberOfTrimmed(t: string): Option<int> {
    var u := Unsigned(t);
    var radix := PrefixRadix(t);
    if t == [] then Some(0)
    else if radix != 0 then
      if |t| > 2 && AllRadixDigits(t[2..], radix) then Some(RadixValue(t[2..], radix)) else None
    else if u == [] || !AllDigits(u) then None
    else if t[0] == '-' then Some(0 - DigitsValue(u))
    else Some(DigitsValue(u))
  }

  lemma NumberOfDigits(s: string)
    requires s != [] && AllDigits(s)
    ensures NumberOf(s) == Some(DigitsValue(s))
  {
    assert IsDigit(s[0]) && IsDigit(s[|s| - 1]);
    assert TrimStart(s) == s;
    assert TrimEnd(s) == s;
    assert Unsigned(s) == s;
    DecimalStart(s);
  }

  /** A prefixed literal with at least one digit of its radix is that value; with none it is NaN. */
  lemma NumberOfRadix(s: string)
    requires PrefixRadix(s) != 0 && !IsSpace(s[|s| - 1])
    ensures |s| > 2 && AllRadixDigits(s[2..], PrefixRadix(s)) ==> NumberOf(s) == Some(RadixValue(s[2..], PrefixRadix(s)))
    ensures |s| == 2 || !AllRadixDigits(s[2..], PrefixRadix(s)) ==> NumberOf(s) == None
  {
    assert TrimStart(s) == s;
    assert TrimEnd(s) == s;
  }

  /** A sign before a prefixed literal makes it NaN. */
  lemma NumberOfSignedRadix(sign: char, s: string)
    requires sign == '-' || sign == '+'
    requires PrefixRadix(s) != 0 && !IsSpace(s[|s| - 1])
    ensures NumberOf([sign] + s) == None
  {
    var t := [sign] + s;
    assert t[0] == sign && t[|t| - 1] == s[|s| - 1];
    TrimUnchanged(t);
    assert t[1..] == s;
    assert !IsDigit(s[1]);
  }

  /** A string with no whitespace at either end is its own trim. */
  lemma TrimUnchanged(t: string)
    requires t != [] && !IsSpace(t[0]) && !IsSpace(t[|t| - 1])
    ensures Trim(t) == t
  {
  }

  // ---------------------------------------------------------------- case and search

  function ToLowerChar(c: char): char {
    if 'A' <= c <= 'Z' then ((c as int) + 32) as char else c
  }

  /** `s.toLowerCase()` on ASCII letters. */
  function ToLower(s: string): (r: string)
    ensures |r| == |s|
    ensures forall i :: 0 <= i < |s| ==> r[i] == ToLowerChar(s[i])
  {
    if s == [] then [] else [ToLowerChar(s[0])] + ToLower(s[1..])
  }

  /** `s.includes(t)`: `t` occurs in `s` at some position. */
  predicate Contains(s: string, t: string) {
    exists i | 0 <= i <= |s| - |t| :: OccursAt(s, t, i)
  }

  predicate OccursAt(s: string, t: string, i: int)
    requires 0 <= i <= |s| - |t|
  {
    s[i..i + |t|] == t
  }

  /** Every string includes the empty string. */
  lemma ContainsEmpty(s: string)
    ensures Contains(s, "")
  {
    assert OccursAt(s, "", 0);
  }

  /** `a < b` on strings: lexicographic, a proper prefix first. */
  predicate LexLess(a: string, b: string) {
    if a == [] then b != []
    else if b == [] then false
    else if a[0] != b[0] then a[0] < b[0]
    else LexLess(a[1..], b[1..])
  }

  lemma {:induction false} LexLessIrreflexive(a: string)
    ensures !LexLess(a, a)
  {
    if a != [] { LexLessIrreflexive(a[1..]); }
  }

  lemma {:induction false} LexLessTransitive(a: string, b: string, c: string)
    requires LexLess(a, b) && LexLess(b, c)
    ensures LexLess(a, c)
  {
    if a != [] && b != [] && c != [] && a[0] == b[0] && b[0] == c[0] {
      LexLessTransitive(a[1..], b[1..], c[1..]);
    }
  }

  /** Two different strings are ordered one way or the other. */
  lemma {:induction false} LexLessTotal(a: string, b: string)
    requires a != b
    ensures LexLess(a, b) || LexLess(b, a)
  {
    if a != [] && b != [] && a[0] == b[0] {
      assert a == [a[0]] + a[1..] && b == [b[0]] + b[1..];
      LexLessTotal(a[1..], b[1..]);
    }
  }
}
