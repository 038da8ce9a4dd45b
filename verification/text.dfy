/**
 * String operations of the two runtimes the system runs on (JavaScript in the
 * browser, Java on the server), written out because their exact behaviour
 * decides the edge cases of the modelled code.
 */
module Text {
  import opened Wrappers

  /** Java's string concatenation of a possibly null string: `null` prints as "null". */
  function Str(s: Option<string>): string {
    if s.Some? then s.value else "null"
  }

  /** JavaScript truthiness of a value that is a string or `null`/`undefined`: the empty string is falsy. */
  predicate Truthy(s: Option<string>) {
    s.Some? && s.value != ""
  }

  // ---------------------------------------------------------------------
  // Whitespace and trimming
  // ---------------------------------------------------------------------

  /** Characters removed by JavaScript's `String.prototype.trim` (WhiteSpace and LineTerminator). */
  predicate IsJsWhitespace(c: char) {
    c == ' ' || c == '\t' || c == '\n' || c == '\U{B}' || c == '\U{C}' || c == '\r'
    || c == '\U{A0}' || c == '\U{1680}' || ('\U{2000}' <= c <= '\U{200A}')
    || c == '\U{2028}' || c == '\U{2029}' || c == '\U{202F}' || c == '\U{205F}'
    || c == '\U{3000}' || c == '\U{FEFF}'
  }

  /** Characters removed by Java's `String.trim`: every code point up to and including the space. */
  predicate IsJavaTrimmed(c: char) {
    c <= ' '
  }

  /** `s` without its longest prefix of characters satisfying `drop`. */
  function DropStart(s: string, drop: char -> bool): (r: string)
    ensures |r| <= |s| && r == s[|s| - |r|..]
    ensures r == [] || !drop(r[0])
    ensures forall i :: 0 <= i < |s| - |r| ==> drop(s[i])
    decreases |s|
  {
    if s != [] && drop(s[0]) then
      var r := DropStart(s[1..], drop);
      assert s[1..][|s| - 1 - |r|..] == s[|s| - |r|..];
      assert forall i :: 1 <= i < |s| - |r| ==> s[i] == s[1..][i - 1];
      r
    else s
  }

  /** `s` without its longest suffix of characters satisfying `drop`. */
  function DropEnd(s: string, drop: char -> bool): (r: string)
    ensures |r| <= |s| && r == s[..|r|]
    ensures r == [] || !drop(r[|r| - 1])
    ensures forall i :: |r| <= i < |s| ==> drop(s[i])
    decreases |s|
  {
    if s != [] && drop(s[|s| - 1]) then
      var r := DropEnd(s[..|s| - 1], drop);
      assert s[..|s| - 1][..|r|] == s[..|r|];
      assert forall i :: |r| <= i < |s| - 1 ==> s[i] == s[..|s| - 1][i];
      r
    else s
  }

  /** `s` without leading and trailing characters satisfying `drop`. */
  function Trim(s: string, drop: char -> bool): string {
    DropEnd(DropStart(s, drop), drop)
  }

  function JsTrim(s: string): string { Trim(s, IsJsWhitespace) }
  function JavaTrim(s: string): string { Trim(s, IsJavaTrimmed) }

  /** A string trims to the empty string exactly when every character of it is trimmed. */
  lemma {:induction false} TrimEmptyIff(s: string, drop: char -> bool)
    ensures Trim(s, drop) == [] <==> forall i :: 0 <= i < |s| ==> drop(s[i])
  {
    var a := DropStart(s, drop);
    if Trim(s, drop) == [] {
      forall i | 0 <= i < |s| ensures drop(s[i]) {
        if i >= |s| - |a| {
          assert s[i] == a[i - (|s| - |a|)];
        }
      }
    }
    if forall i :: 0 <= i < |s| ==> drop(s[i]) {
      if a != [] {
        assert a[0] == s[|s| - |a|];
      }
    }
  }

  /** Java's `s.trim().isEmpty()`, stated on the characters: every one of them is trimmed. */
  predicate IsJavaBlank(s: string) {
    forall i :: 0 <= i < |s| ==> IsJavaTrimmed(s[i])
  }

  lemma JavaBlankIff(s: string)
    ensures JavaTrim(s) == "" <==> IsJavaBlank(s)
  {
    TrimEmptyIff(s, IsJavaTrimmed);
  }

  /** Trimming removes exactly a prefix of trimmed characters from a string that has none inside. */
  lemma {:induction false} TrimPadded(pad: string, s: string, drop: char -> bool)
    requires forall i :: 0 <= i < |pad| ==> drop(pad[i])
    requires forall i :: 0 <= i < |s| ==> !drop(s[i])
    ensures Trim(pad + s, drop) == s
    decreases |pad|
  {
    if pad == [] {
      assert pad + s == s;
      if s != [] {
        assert DropStart(s, drop) == s;
      }
    } else {
      assert (pad + s)[1..] == pad[1..] + s;
      TrimPadded(pad[1..], s, drop);
    }
  }

  // ---------------------------------------------------------------------
  // Case conversion (ASCII letters; see README for what this leaves out)
  // ---------------------------------------------------------------------

  function UpperChar(c: char): char {
    if 'a' <= c <= 'z' then (c as int - 32) as char else c
  }

  function LowerChar(c: char): char {
    if 'A' <= c <= 'Z' then (c as int + 32) as char else c
  }

  function ToUpper(s: string): (r: string)
    ensures |r| == |s| && forall i :: 0 <= i < |s| ==> r[i] == UpperChar(s[i])
  {
    seq(|s|, i requires 0 <= i < |s| => UpperChar(s[i]))
  }

  function ToLower(s: string): (r: string)
    ensures |r| == |s| && forall i :: 0 <= i < |s| ==> r[i] == LowerChar(s[i])
  {
    seq(|s|, i requires 0 <= i < |s| => LowerChar(s[i]))
  }

  /** Java's `equalsIgnoreCase` on ASCII text. */
  predicate EqualsIgnoreCase(a: string, b: string) {
    ToUpper(a) == ToUpper(b)
  }

  // ---------------------------------------------------------------------
  // Prefixes, suffixes, substrings
  // ---------------------------------------------------------------------

  predicate StartsWith(s: string, prefix: string) {
    |prefix| <= |s| && s[..|prefix|] == prefix
  }

  predicate EndsWith(s: string, suffix: string) {
    |suffix| <= |s| && s[|s| - |suffix|..] == suffix
  }

  predicate OccursAt(s: string, sub: string, i: int) {
    0 <= i && i + |sub| <= |s| && s[i..i + |sub|] == sub
  }

  /** JavaScript's `includes` / Java's `contains`. */
  predicate Contains(s: string, sub: string) {
    exists i | 0 <= i <= |s| :: OccursAt(s, sub, i)
  }

  /** JavaScript's `s.replace(pat, rep)` with a string pattern: only the first occurrence is replaced. */
  function ReplaceFirst(s: string, pat: string, rep: string): (r: string)
    requires pat != ""
    ensures StartsWith(s, pat) ==> r == rep + s[|pat|..]
    decreases |s|
  {
    if StartsWith(s, pat) then rep + s[|pat|..]
    else if s == [] then s
    else [s[0]] + ReplaceFirst(s[1..], pat, rep)
  }

  /** Text without the pattern comes back unchanged. */
  lemma {:induction false} ReplaceFirstAbsent(s: string, pat: string, rep: string)
    requires pat != "" && !Contains(s, pat)
    ensures ReplaceFirst(s, pat, rep) == s
    decreases |s|
  {
    assert !OccursAt(s, pat, 0);
    if s != [] {
      forall i | 0 <= i <= |s| - 1 ensures !OccursAt(s[1..], pat, i) {
        assert !OccursAt(s, pat, i + 1);
        if i + |pat| <= |s| - 1 {
          assert s[1..][i..i + |pat|] == s[i + 1..i + 1 + |pat|];
        }
      }
      ReplaceFirstAbsent(s[1..], pat, rep);
    }
  }

  /** The first occurrence of the pattern, and only it, is replaced. */
  lemma {:induction false} ReplaceFirstAt(s: string, pat: string, rep: string, i: nat)
    requires pat != "" && OccursAt(s, pat, i)
    requires forall j :: 0 <= j < i ==> !OccursAt(s, pat, j)
    ensures ReplaceFirst(s, pat, rep) == s[..i] + rep + s[i + |pat|..]
    decreases i
  {
    if i == 0 {
      assert StartsWith(s, pat);
    } else {
      assert !OccursAt(s, pat, 0);
      var t := s[1..];
      forall j | 0 <= j < i - 1 ensures !OccursAt(t, pat, j) {
        assert !OccursAt(s, pat, j + 1);
        if j + |pat| <= |t| {
          assert t[j..j + |pat|] == s[j + 1..j + 1 + |pat|];
        }
      }
      assert t[i - 1..i - 1 + |pat|] == s[i..i + |pat|];
      ReplaceFirstAt(t, pat, rep, i - 1);
      assert t[..i - 1] == s[1..i] && t[i - 1 + |pat|..] == s[i + |pat|..];
      assert [s[0]] + s[1..i] == s[..i];
    }
  }

  // ---------------------------------------------------------------------
  // Splitting and joining
  // ---------------------------------------------------------------------

  /** Joins `parts` with `sep` between consecutive parts (JavaScript `join`, Java `String.join`). */
  function Join(parts: seq<string>, sep: string): string
    decreases |parts|
  {
    if parts == [] then ""
    else if |parts| == 1 then parts[0]
    else parts[0] + sep + Join(parts[1..], sep)
  }

  /** JavaScript's `s.split(c)` for a one-character separator: every segment, empty ones included. */
  function Split(s: string, c: char): (r: seq<string>)
    ensures |r| >= 1
    ensures |r[0]| <= |s| && r[0] == s[..|r[0]|] && c !in r[0]
    ensures |r[0]| < |s| ==> s[|r[0]|] == c
    decreases |s|
  {
    if s == [] then [""]
    else
      var rest := Split(s[1..], c);
      if s[0] == c then [""] + rest else [[s[0]] + rest[0]] + rest[1..]
  }

  /** No segment of a split contains the separator, and joining the segments gives back the input. */
  lemma {:induction false} SplitJoin(s: string, c: char)
    ensures forall i :: 0 <= i < |Split(s, c)| ==> c !in Split(s, c)[i]
    ensures Join(Split(s, c), [c]) == s
    decreases |s|
  {
    if s != [] {
      SplitJoin(s[1..], c);
      var rest := Split(s[1..], c);
      if s[0] == c {
        assert Split(s, c)[1..] == rest;
      } else {
        var r := Split(s, c);
        assert r[1..] == rest[1..];
        forall i | 0 <= i < |r| ensures c !in r[i] {
          if i == 0 {
            assert r[0] == [s[0]] + rest[0];
          } else {
            assert r[i] == rest[i];
          }
        }
        if |rest| == 1 {
          assert Join(r, [c]) == [s[0]] + rest[0];
          assert Join(rest, [c]) == rest[0];
        } else {
          assert Join(rest, [c]) == rest[0] + [c] + Join(rest[1..], [c]);
          assert Join(r, [c]) == ([s[0]] + rest[0]) + [c] + Join(rest[1..], [c]);
        }
      }
    }
  }

  /** Splitting a join gives back the parts when no part contains the separator. */
  lemma {:induction false} JoinSplit(parts: seq<string>, c: char)
    requires |parts| >= 1
    requires forall i :: 0 <= i < |parts| ==> c !in parts[i]
    ensures Split(Join(parts, [c]), c) == parts
    decreases |parts|
  {
    if |parts| == 1 {
      SplitNoSeparator(parts[0], c);
    } else {
      JoinSplit(parts[1..], c);
      SplitConcat(parts[0], Join(parts[1..], [c]), c);
      assert Join(parts, [c]) == parts[0] + ([c] + Join(parts[1..], [c]));
    }
  }

  lemma {:induction false} SplitNoSeparator(s: string, c: char)
    requires c !in s
    ensures Split(s, c) == [s]
    decreases |s|
  {
    if s != [] {
      SplitNoSeparator(s[1..], c);
      assert [s[0]] + s[1..] == s;
    }
  }

  lemma {:induction false} SplitConcat(a: string, b: string, c: char)
    requires c !in a
    ensures Split(a + ([c] + b), c) == [a] + Split(b, c)
    decreases |a|
  {
    if a == [] {
      assert a + ([c] + b) == [c] + b;
      assert ([c] + b)[1..] == b;
    } else {
      SplitConcat(a[1..], b, c);
      assert (a + ([c] + b))[1..] == a[1..] + ([c] + b);
      assert [a[0]] + a[1..] == a;
    }
  }

  /** Drops the empty strings at the end of `parts`. */
  function DropTrailingEmpty(parts: seq<string>): (r: seq<string>)
    ensures |r| <= |parts| && r == parts[..|r|]
    ensures r == [] || r[|r| - 1] != ""
    ensures forall i :: |r| <= i < |parts| ==> parts[i] == ""
    decreases |parts|
  {
    if parts != [] && parts[|parts| - 1] == "" then DropTrailingEmpty(parts[..|parts| - 1]) else parts
  }

  /** Java's split of a text whose first separator follows `a`. */
  lemma JavaSplitAround(a: string, b: string, c: char)
    requires c !in a
    ensures JavaSplit(a + ([c] + b), c) == DropTrailingEmpty([a] + Split(b, c))
  {
    var s := a + ([c] + b);
    assert s[|a|] == c;
    SplitConcat(a, b, c);
  }

  /**
   * Java's `s.split(regex)` for a regular expression matching one literal character:
   * the input itself when the separator does not occur, otherwise the segments with
   * trailing empty segments removed.
   */
  function JavaSplit(s: string, c: char): seq<string> {
    if c !in s then [s] else DropTrailingEmpty(Split(s, c))
  }

  // ---------------------------------------------------------------------
  // Numbers and their decimal text
  // ---------------------------------------------------------------------

  predicate IsDigit(c: char) { '0' <= c <= '9' }

  function DigitChar(d: nat): char
    requires d < 10
  {
    ('0' as int + d) as char
  }

  /** Decimal digits of `n`, without leading zeros. */
  function NatToString(n: nat): (r: string)
    ensures |r| >= 1 && forall i :: 0 <= i < |r| ==> IsDigit(r[i])
    ensures r[0] == '0' ==> n == 0
  {
    if n < 10 then [DigitChar(n)] else NatToString(n / 10) + [DigitChar(n % 10)]
  }

  /** Decimal text of an integer, as JavaScript's `toString` and Java's `String.valueOf` write it. */
  function IntToString(n: int): string {
    if n < 0 then "-" + NatToString(-n) else NatToString(n)
  }

  function DigitValue(c: char): nat
    requires IsDigit(c)
  {
    c as int - '0' as int
  }

  /** Value of a string of decimal digits. */
  function DigitsValue(ds: string): nat
    requires forall i :: 0 <= i < |ds| ==> IsDigit(ds[i])
    decreases |ds|
  {
    if ds == [] then 0 else DigitsValue(ds[..|ds| - 1]) * 10 + DigitValue(ds[|ds| - 1])
  }

  lemma {:induction false} DigitsOfNat(n: nat)
    ensures DigitsValue(NatToString(n)) == n
  {
    if n >= 10 {
      DigitsOfNat(n / 10);
      var s := NatToString(n);
      assert s[..|s| - 1] == NatToString(n / 10);
    }
  }

  /** Value of the ASCII hexadecimal digit `c`, if it is one. */
  function HexDigit(c: char): Option<nat> {
    if '0' <= c <= '9' then Some(c as int - '0' as int)
    else if 'a' <= c <= 'f' then Some(c as int - 'a' as int + 10)
    else if 'A' <= c <= 'F' then Some(c as int - 'A' as int + 10)
    else None
  }

  /** Value of `c` as a digit of `radix` (10 or 16), if it is one. */
  function RadixDigit(c: char, radix: nat): Option<nat> {
    match HexDigit(c)
    case Some(d) => if d < radix then Some(d) else None
    case None => None
  }

  /** Length of the longest prefix of `s` made of digits of `radix`. */
  function DigitPrefixLength(s: string, radix: nat): (k: nat)
    ensures k <= |s|
    ensures forall i :: 0 <= i < k ==> RadixDigit(s[i], radix).Some?
    ensures k < |s| ==> RadixDigit(s[k], radix).None?
    decreases |s|
  {
    if s != [] && RadixDigit(s[0], radix).Some? then 1 + DigitPrefixLength(s[1..], radix) else 0
  }

  /** Value of a string of digits of `radix`. */
  function RadixValue(ds: string, radix: nat): nat
    requires forall i :: 0 <= i < |ds| ==> RadixDigit(ds[i], radix).Some?
    decreases |ds|
  {
    if ds == [] then 0
    else
      var init := ds[..|ds| - 1];
      assert forall i :: 0 <= i < |init| ==> init[i] == ds[i];
      var v := RadixValue(init, radix);
      NatProduct(v, radix);
      v * radix + RadixDigit(ds[|ds| - 1], radix).value
  }

  lemma NatProduct(a: nat, b: nat)
    ensures a * b >= 0
  {
  }

  /** The digits after the sign for `parseInt`: a `0x`/`0X` prefix selects base 16, else base 10. */
  function ParseUnsigned(u: string): Option<nat> {
    var hex := |u| >= 2 && u[0] == '0' && (u[1] == 'x' || u[1] == 'X');
    var radix := if hex then 16 else 10;
    var v := if hex then u[2..] else u;
    var k := DigitPrefixLength(v, radix);
    if k == 0 then None else Some(RadixValue(v[..k], radix))
  }

  /**
   * JavaScript's `parseInt(s)` without a radix argument: leading whitespace is skipped,
   * one sign is read, and the longest prefix of digits is converted; `None` stands for
   * `NaN` (no digit at all).
   */
  function ParseInt(s: string): Option<int> {
    var t := DropStart(s, IsJsWhitespace);
    if t != [] && t[0] == '-' then Signed(true, ParseUnsigned(t[1..]))
    else if t != [] && t[0] == '+' then Signed(false, ParseUnsigned(t[1..]))
    else Signed(false, ParseUnsigned(t))
  }

  /** The value read after a sign. */
  function Signed(negative: bool, p: Option<nat>): Option<int> {
    if p.None? then None else Some(if negative then -(p.value as int) else p.value as int)
  }

  lemma {:induction false} RadixValueDecimal(ds: string)
    requires forall i :: 0 <= i < |ds| ==> IsDigit(ds[i])
    ensures forall i :: 0 <= i < |ds| ==> RadixDigit(ds[i], 10).Some?
    ensures RadixValue(ds, 10) == DigitsValue(ds)
    decreases |ds|
  {
    if ds != [] {
      RadixValueDecimal(ds[..|ds| - 1]);
    }
  }

  lemma {:induction false} DigitPrefixAll(s: string, radix: nat)
    requires forall i :: 0 <= i < |s| ==> RadixDigit(s[i], radix).Some?
    ensures DigitPrefixLength(s, radix) == |s|
    decreases |s|
  {
    if s != [] {
      DigitPrefixAll(s[1..], radix);
    }
  }

  lemma ParseUnsignedOfDigits(d: string)
    requires |d| >= 1 && forall i :: 0 <= i < |d| ==> IsDigit(d[i])
    requires |d| >= 2 ==> d[0] != '0'
    ensures ParseUnsigned(d) == Some(DigitsValue(d))
  {
    RadixValueDecimal(d);
    DigitPrefixAll(d, 10);
    assert d[..|d|] == d;
  }

  lemma SignNotWhitespace(c: char)
    requires c == '-' || IsDigit(c)
    ensures !IsJsWhitespace(c)
  {
  }

  lemma KeepStart(s: string)
    requires s != [] && !IsJsWhitespace(s[0])
    ensures DropStart(s, IsJsWhitespace) == s
  {
  }

  lemma ParseIntMinus(d: string)
    ensures ParseInt("-" + d) == Signed(true, ParseUnsigned(d))
  {
    var s := "-" + d;
    assert s[0] == '-' && s[1..] == d;
    SignNotWhitespace(s[0]);
    KeepStart(s);
  }

  lemma ParseIntDigit(s: string)
    requires s != [] && IsDigit(s[0])
    ensures ParseInt(s) == Signed(false, ParseUnsigned(s))
  {
    SignNotWhitespace(s[0]);
    KeepStart(s);
  }

  /** A minus sign followed by a string that `parseInt` reads as `v` reads as `-v`. */
  lemma ParseIntOfMinusValue(d: string, v: nat)
    requires ParseUnsigned(d) == Some(v)
    ensures ParseInt("-" + d) == Some(-(v as int))
  {
    ParseIntMinus(d);
  }

  /** Reading back the decimal text of an integer with `parseInt` gives the integer. */
  lemma ParseIntOfIntToString(n: int)
    ensures ParseInt(IntToString(n)) == Some(n)
  {
    var m: nat := if n < 0 then -n else n;
    var digits := NatToString(m);
    DigitsOfNat(m);
    ParseUnsignedOfDigits(digits);
    if n < 0 {
      ParseIntOfMinusValue(digits, m);
    } else {
      ParseIntDigit(digits);
    }
  }

  /** The range of Java's `long`. */
  const LONG_MIN: int := -0x8000_0000_0000_0000
  const LONG_MAX: int := 0x7FFF_FFFF_FFFF_FFFF

  /**
   * Java's `Long.parseLong(s)` on ASCII digits: one optional sign followed by at least
   * one digit and nothing else, with a value inside the range of `long`; `None`
   * stands for the NumberFormatException thrown otherwise.
   */
  function ParseLong(s: string): (r: Option<int>)
    ensures r.Some? ==> LONG_MIN <= r.value <= LONG_MAX
  {
    var signed := s != [] && (s[0] == '-' || s[0] == '+');
    var ds := if signed then s[1..] else s;
    if ds == [] || !(forall i :: 0 <= i < |ds| ==> IsDigit(ds[i])) then None
    else
      var m: int := DigitsValue(ds);
      var v := if signed && s[0] == '-' then -m else m;
      if LONG_MIN <= v <= LONG_MAX then Some(v) else None
  }

  /** `Long.parseLong` reads back what `String.valueOf(long)` writes. */
  lemma ParseLongOfIntToString(n: int)
    requires LONG_MIN <= n <= LONG_MAX
    ensures ParseLong(IntToString(n)) == Some(n)
  {
    var m: nat := if n < 0 then -n else n;
    var d := NatToString(m);
    DigitsOfNat(m);
    if n < 0 {
      assert ("-" + d)[1..] == d;
    }
  }

  // ---------------------------------------------------------------------
  // Length in UTF-16 code units
  // ---------------------------------------------------------------------

  /** Java's `String.length()`: characters outside the Basic Multilingual Plane count twice. */
  function Utf16Length(s: string): (n: nat)
    ensures |s| <= n <= 2 * |s|
    decreases |s|
  {
    if s == [] then 0 else (if s[0] as int > 0xFFFF then 2 else 1) + Utf16Length(s[1..])
  }
}
