/**
  The JavaScript string operations the pages rely on, over `seq<char>`:
  `trim`, an ASCII approximation of `toLowerCase`, `includes`, a lexicographic
  stand-in for `localeCompare` and for the default `sort` order, `split`, the
  conversion of an integer Number to its decimal text, and `parseInt` as
  section 19.2.5 of ECMA-262 defines it when no radix is given.
 */
module Strings {
  import opened Common

  // ---------------------------------------------------------------------------
  // Whitespace and trimming
  // ---------------------------------------------------------------------------

  /**
    The WhiteSpace code points of section 12.2 of ECMA-262 (TAB, VT, FF,
    ZWNBSP and the Unicode "Zs" space separators) together with the
    LineTerminator code points of section 12.3 (LF, CR, LS, PS). These are
    what `String.prototype.trim` removes and what `parseInt` skips.
   */
  predicate IsJsSpace(c: char) {
    || c == '\t' || c == '\U{000B}' || c == '\U{000C}' || c == '\U{FEFF}'
    || c == ' ' || c == '\U{00A0}' || c == '\U{1680}' || '\U{2000}' <= c <= '\U{200A}'
    || c == '\U{202F}' || c == '\U{205F}' || c == '\U{3000}'
    || c == '\n' || c == '\r' || c == '\U{2028}' || c == '\U{2029}'
  }

  /** `s` with its leading whitespace removed. */
  function TrimStart(s: string): (r: string)
    ensures |r| <= |s| && r == s[|s| - |r|..]
    ensures r == [] || !IsJsSpace(r[0])
  {
    if s != [] && IsJsSpace(s[0]) then TrimStart(s[1..]) else s
  }

  /** Everything `TrimStart` removes is whitespace. */
  lemma {:induction false} TrimStartRemovesSpace(s: string)
    ensures forall i :: 0 <= i < |s| - |TrimStart(s)| ==> IsJsSpace(s[i])
  {
    if s != [] && IsJsSpace(s[0]) {
      TrimStartRemovesSpace(s[1..]);
      assert forall i :: 1 <= i < |s| ==> s[i] == s[1..][i - 1];
    }
  }

  /** `s` with its trailing whitespace removed. */
  function TrimEnd(s: string): (r: string)
    ensures r <= s
    ensures r == [] || !IsJsSpace(r[|r| - 1])
    ensures forall i :: |r| <= i < |s| ==> IsJsSpace(s[i])
  {
    if s != [] && IsJsSpace(s[|s| - 1]) then TrimEnd(s[..|s| - 1]) else s
  }

  /** Every character of `s` outside `s[i..j]` is whitespace. */
  predicate SpaceOutside(s: string, i: int, j: int) {
    0 <= i <= j <= |s| &&
    (forall k :: 0 <= k < i ==> IsJsSpace(s[k])) && (forall k :: j <= k < |s| ==> IsJsSpace(s[k]))
  }

  /**
    A prefix `r` of a suffix `t` of `s` is a slice of `s`; when only whitespace
    was dropped at either step, only whitespace lies outside it.
   */
  lemma PrefixOfSuffix(s: string, t: string, r: string)
    requires |t| <= |s| && t == s[|s| - |t|..] && r <= t
    requires forall k :: 0 <= k < |s| - |t| ==> IsJsSpace(s[k])
    requires forall k :: |r| <= k < |t| ==> IsJsSpace(t[k])
    ensures SpaceOutside(s, |s| - |t|, |s| - |t| + |r|)
    ensures r == s[|s| - |t|..|s| - |t| + |r|]
  {
    var i := |s| - |t|;
    forall k | i + |r| <= k < |s| ensures IsJsSpace(s[k]) {
      assert s[k] == t[k - i];
    }
  }

  /** `String.prototype.trim`: the middle slice left after dropping whitespace from both ends. */
  function Trim(s: string): (r: string)
    ensures |r| <= |s|
    ensures r == [] || (!IsJsSpace(r[0]) && !IsJsSpace(r[|r| - 1]))
    ensures exists i, j :: SpaceOutside(s, i, j) && r == s[i..j]
  {
    TrimStartRemovesSpace(s);
    PrefixOfSuffix(s, TrimStart(s), TrimEnd(TrimStart(s)));
    TrimEnd(TrimStart(s))
  }

  /** A string trims to nothing exactly when every character of it is whitespace. */
  lemma TrimEmptyIffAllSpace(s: string)
    ensures Trim(s) == [] <==> forall i :: 0 <= i < |s| ==> IsJsSpace(s[i])
  {
    TrimStartRemovesSpace(s);
  }

  /** Trimming a string that starts and ends with a non-space character changes nothing. */
  lemma TrimUnchanged(s: string)
    requires s != [] && !IsJsSpace(s[0]) && !IsJsSpace(s[|s| - 1])
    ensures Trim(s) == s
  {
  }

  // ---------------------------------------------------------------------------
  // Case folding and substring search
  // ---------------------------------------------------------------------------

  /** ASCII upper-case letters. */
  predicate IsUpper(c: char) {
    'A' <= c <= 'Z'
  }

  /** ASCII case folding of one character. */
  function LowerChar(c: char): (r: char)
    ensures !IsUpper(r)
    ensures IsUpper(c) ==> r as int == c as int + 32
    ensures !IsUpper(c) ==> r == c
  {
    if IsUpper(c) then (c as int + 32) as char else c
  }

  /** `toLowerCase`, restricted to the ASCII letters. */
  function Lower(s: string): (r: string)
    ensures |r| == |s|
    ensures forall i :: 0 <= i < |s| ==> r[i] == LowerChar(s[i])
  {
    if s == [] then [] else [LowerChar(s[0])] + Lower(s[1..])
  }

  lemma {:induction false} LowerIdempotent(s: string)
    ensures Lower(Lower(s)) == Lower(s)
  {
    if s != [] {
      LowerIdempotent(s[1..]);
      assert Lower(s)[1..] == Lower(s[1..]);
    }
  }

  predicate StartsWith(s: string, t: string) {
    |t| <= |s| && s[..|t|] == t
  }

  /** `s.includes(t)`: `t` occurs in `s` at some position. */
  predicate Includes(s: string, t: string)
    decreases |s|
  {
    StartsWith(s, t) || (s != [] && Includes(s[1..], t))
  }

  /** `t` occurs in `s` starting at index `i`. */
  predicate OccursAt(s: string, t: string, i: int) {
    0 <= i <= |s| - |t| && s[i..i + |t|] == t
  }

  /** The search above finds `t` exactly when `t` occurs somewhere in `s`. */
  lemma {:induction false} IncludesIffOccurs(s: string, t: string)
    ensures Includes(s, t) <==> exists i :: OccursAt(s, t, i)
  {
    if StartsWith(s, t) {
      assert OccursAt(s, t, 0);
    } else if s == [] {
      assert forall i :: !OccursAt(s, t, i);
    } else {
      IncludesIffOccurs(s[1..], t);
      if Includes(s[1..], t) {
        var j :| OccursAt(s[1..], t, j);
        assert s[j + 1..j + 1 + |t|] == s[1..][j..j + |t|];
        assert OccursAt(s, t, j + 1);
      } else {
        forall i | OccursAt(s, t, i) ensures false {
          assert i != 0;
          assert s[1..][i - 1..i - 1 + |t|] == s[i..i + |t|];
          assert OccursAt(s[1..], t, i - 1);
        }
      }
    }
  }

  /** Every string includes the empty string. */
  lemma IncludesEmpty(s: string)
    ensures Includes(s, [])
  {
  }

  // ---------------------------------------------------------------------------
  // Lexicographic order
  // ---------------------------------------------------------------------------

  /**
    Code-point lexicographic comparison: -1, 0 or 1. It agrees with the
    UTF-16 code-unit order of the default `Array.prototype.sort` on strings
    whose characters all lie in the Basic Multilingual Plane, and stands in
    for `localeCompare`.
   */
  function LexCompare(a: string, b: string): (r: int)
    ensures -1 <= r <= 1
  {
    if a == [] && b == [] then 0
    else if a == [] then -1
    else if b == [] then 1
    else if a[0] < b[0] then -1
    else if a[0] > b[0] then 1
    else LexCompare(a[1..], b[1..])
  }

  predicate LexLess(a: string, b: string) {
    LexCompare(a, b) < 0
  }

  /** Swapping the arguments flips the sign of the comparison. */
  lemma {:induction false} LexCompareAntisymmetric(a: string, b: string)
    ensures LexCompare(b, a) == -LexCompare(a, b)
  {
    if a != [] && b != [] && a[0] == b[0] {
      LexCompareAntisymmetric(a[1..], b[1..]);
    }
  }

  /** The comparison reports equality only for equal strings. */
  lemma {:induction false} LexCompareZeroIffEqual(a: string, b: string)
    ensures LexCompare(a, b) == 0 <==> a == b
  {
    if a != [] && b != [] && a[0] == b[0] {
      LexCompareZeroIffEqual(a[1..], b[1..]);
      if a[1..] == b[1..] {
        assert a == [a[0]] + a[1..] && b == [b[0]] + b[1..];
      }
    }
  }

  lemma {:induction false} LexLessTransitive(a: string, b: string, c: string)
    requires LexLess(a, b) && LexLess(b, c)
    ensures LexLess(a, c)
  {
    if a != [] && b != [] && c != [] && a[0] == b[0] && b[0] == c[0] {
      LexLessTransitive(a[1..], b[1..], c[1..]);
    }
  }

  // ---------------------------------------------------------------------------
  // Splitting
  // ---------------------------------------------------------------------------

  /** `s.split(sep)` for a one-character separator. */
  function Split(s: string, sep: char): (r: seq<string>)
    ensures |r| >= 1
    ensures forall k :: 0 <= k < |r| ==> sep !in r[k]
  {
    if s == [] then [[]]
    else if s[0] == sep then [[]] + Split(s[1..], sep)
    else
      var rest := Split(s[1..], sep);
      [[s[0]] + rest[0]] + rest[1..]
  }

  /** `pieces.join(sep)`. */
  function Join(pieces: seq<string>, sep: char): string
    requires |pieces| >= 1
  {
    if |pieces| == 1 then pieces[0] else pieces[0] + [sep] + Join(pieces[1..], sep)
  }

  lemma {:induction false} SplitPrefix(a: string, sep: char, rest: string)
    requires sep !in a
    ensures Split(a + [sep] + rest, sep) == [a] + Split(rest, sep)
  {
    if a != [] {
      assert (a + [sep] + rest)[1..] == a[1..] + [sep] + rest;
      SplitPrefix(a[1..], sep, rest);
      assert [a[0]] + a[1..] == a;
    } else {
      assert a + [sep] + rest == [sep] + rest;
    }
  }

  lemma {:induction false} SplitNoSeparator(a: string, sep: char)
    requires sep !in a
    ensures Split(a, sep) == [a]
  {
    if a != [] {
      SplitNoSeparator(a[1..], sep);
      assert [a[0]] + a[1..] == a;
    }
  }

  /** Splitting a joined list gives the pieces back when no piece holds the separator. */
  lemma {:induction false} SplitJoin(pieces: seq<string>, sep: char)
    requires |pieces| >= 1
    requires forall k :: 0 <= k < |pieces| ==> sep !in pieces[k]
    ensures Split(Join(pieces, sep), sep) == pieces
  {
    if |pieces| == 1 {
      SplitNoSeparator(pieces[0], sep);
    } else {
      SplitJoin(pieces[1..], sep);
      SplitPrefix(pieces[0], sep, Join(pieces[1..], sep));
      assert [pieces[0]] + pieces[1..] == pieces;
    }
  }

  /** The text before the first space, or all of `s` when it has none. */
  function FirstWord(s: string): (r: string)
    ensures r <= s
    ensures ' ' !in r
    ensures |r| == |s| || s[|r|] == ' '
  {
    if s == [] || s[0] == ' ' then [] else [s[0]] + FirstWord(s[1..])
  }

  /** A word followed by a space and anything else has that word first. */
  lemma {:induction false} FirstWordOfWords(w: string, rest: string)
    requires ' ' !in w
    ensures FirstWord(w + [' '] + rest) == w
  {
    if w != [] {
      assert (w + [' '] + rest)[1..] == w[1..] + [' '] + rest;
      FirstWordOfWords(w[1..], rest);
      assert [w[0]] + w[1..] == w;
    } else {
      assert w + [' '] + rest == [' '] + rest;
    }
  }

  /** `s.split(' ')[0]` is the text before the first space. */
  lemma FirstWordIsSplitHead(s: string)
    ensures Split(s, ' ')[0] == FirstWord(s)
  {
    var w := FirstWord(s);
    if |w| == |s| {
      assert w == s;
      SplitNoSeparator(s, ' ');
    } else {
      var rest := s[|w| + 1..];
      assert s == w + [' '] + rest;
      SplitPrefix(w, ' ', rest);
    }
  }

  // ---------------------------------------------------------------------------
  // Numbers as text
  // ---------------------------------------------------------------------------

  predicate IsDecimalDigit(c: char) {
    '0' <= c <= '9'
  }

  function DigitChar(d: nat): (c: char)
    requires d < 10
    ensures IsDecimalDigit(c) && c as int - '0' as int == d
  {
    ('0' as int + d) as char
  }

  /** The decimal text of a natural number, without leading zeros. */
  function NatToString(n: nat): (r: string)
    ensures |r| >= 1
    ensures forall i :: 0 <= i < |r| ==> IsDecimalDigit(r[i])
    ensures r[0] == '0' ==> n == 0
  {
    if n < 10 then [DigitChar(n)] else NatToString(n / 10) + [DigitChar(n % 10)]
  }

  /** The text a template literal produces for an integer-valued Number. */
  function IntToString(n: int): (r: string)
    ensures |r| >= 1
    ensures r[0] == '-' <==> n < 0
    ensures forall i :: 0 <= i < |r| ==> IsDecimalDigit(r[i]) || (i == 0 && n < 0)
  {
    if n < 0 then "-" + NatToString(-n) else NatToString(n)
  }

  /** The value of `c` as a digit in radix 36 (36 itself for a non-digit). */
  function DigitValue(c: char): (v: nat)
    ensures v <= 36
    ensures v < 10 <==> IsDecimalDigit(c)
  {
    if '0' <= c <= '9' then c as int - '0' as int
    else if 'a' <= c <= 'z' then c as int - 'a' as int + 10
    else if 'A' <= c <= 'Z' then c as int - 'A' as int + 10
    else 36
  }

  /** Length of the longest prefix of `s` made of radix-`radix` digits. */
  function DigitRun(s: string, radix: nat): (k: nat)
    ensures k <= |s|
    ensures k == |s| || DigitValue(s[k]) >= radix
  {
    if s != [] && DigitValue(s[0]) < radix then 1 + DigitRun(s[1..], radix) else 0
  }

  /** The number a digit string denotes, most significant digit first. */
  function DigitsValue(z: string, radix: nat): nat {
    if z == [] then 0 else DigitsValue(z[..|z| - 1], radix) * radix + DigitValue(z[|z| - 1])
  }

  predicate IsHexPrefix(u: string) {
    |u| >= 2 && u[0] == '0' && (u[1] == 'x' || u[1] == 'X')
  }

  /** The magnitude `parseInt` reads once whitespace and sign are gone. */
  function ParseMagnitude(u: string): (r: Option<nat>)
    ensures r.Some? ==> u != [] && IsDecimalDigit(u[0])
  {
    var radix := if IsHexPrefix(u) then 16 else 10;
    var w := if IsHexPrefix(u) then u[2..] else u;
    var k := DigitRun(w, radix);
    if k == 0 then None else Some(DigitsValue(w[..k], radix))
  }

  /**
    `parseInt(s)` with no radix (section 19.2.5 of ECMA-262): skip leading
    whitespace, take one optional sign, treat a `0x`/`0X` prefix as radix 16
    and otherwise use radix 10, then read the longest run of digits. An empty
    run is NaN, modelled as `None`.
   */
  function ParseInt(s: string): Option<int> {
    var t := TrimStart(s);
    var signed := t != [] && (t[0] == '-' || t[0] == '+');
    var u := if signed then t[1..] else t;
    match ParseMagnitude(u)
    case None => None
    case Some(v) =>
      var n: int := v;
      Some(if signed && t[0] == '-' then -n else n)
  }

  lemma {:induction false} DigitsValueOfNat(n: nat)
    ensures DigitsValue(NatToString(n), 10) == n
  {
    var z := NatToString(n);
    if n >= 10 {
      DigitsValueOfNat(n / 10);
      assert z[..|z| - 1] == NatToString(n / 10);
    }
  }

  lemma {:induction false} DigitRunOfDigits(a: string, rest: string)
    requires forall i :: 0 <= i < |a| ==> IsDecimalDigit(a[i])
    requires rest == [] || !IsDecimalDigit(rest[0])
    ensures DigitRun(a + rest, 10) == |a|
  {
    if a != [] {
      assert (a + rest)[1..] == a[1..] + rest;
      DigitRunOfDigits(a[1..], rest);
    } else {
      assert a + rest == rest;
    }
  }

  /** A string that starts with a decimal digit and no `0x` prefix is read in radix 10. */
  lemma ParseIntUnsigned(s: string)
    requires s != [] && IsDecimalDigit(s[0]) && !IsHexPrefix(s)
    ensures ParseInt(s) == Some(DigitsValue(s[..DigitRun(s, 10)], 10))
  {
    assert !IsJsSpace(s[0]);
    assert TrimStart(s) == s;
    assert !(s[0] == '-' || s[0] == '+');
  }

  /** A minus sign followed by such a string is read as the negated value. */
  lemma ParseIntNegative(s: string, n: int)
    requires |s| >= 2 && s[0] == '-' && IsDecimalDigit(s[1]) && !IsHexPrefix(s[1..])
    requires n <= 0 && DigitsValue(s[1..][..DigitRun(s[1..], 10)], 10) == -n
    ensures ParseInt(s) == Some(n)
  {
    var a := s[1..];
    ParseMagnitudeDecimal(a);
    ParseIntMinus(s, n);
  }

  /** Without a `0x` prefix, the magnitude is the value of the leading decimal digits. */
  lemma ParseMagnitudeDecimal(a: string)
    requires a != [] && IsDecimalDigit(a[0]) && !IsHexPrefix(a)
    ensures ParseMagnitude(a) == Some(DigitsValue(a[..DigitRun(a, 10)], 10))
  {
    assert DigitValue(a[0]) < 10;
  }

  /** After a leading minus sign, `parseInt` negates the magnitude that follows. */
  lemma ParseIntMinus(s: string, n: int)
    requires s != [] && s[0] == '-' && n <= 0 && ParseMagnitude(s[1..]) == Some(-n)
    ensures ParseInt(s) == Some(n)
  {
    assert !IsJsSpace(s[0]);
    assert TrimStart(s) == s;
  }

  /**
    `parseInt` reads back the decimal text of a natural number followed by
    anything that does not continue the number, such as `"10 years"`.
   */
  lemma ParseIntOfNatPrefix(n: nat, rest: string)
    requires rest == [] || (!IsDecimalDigit(rest[0]) && rest[0] != 'x' && rest[0] != 'X')
    ensures ParseInt(NatToString(n) + rest) == Some(n)
  {
    var a := NatToString(n);
    var s := a + rest;
    assert s[0] == a[0];
    assert !IsHexPrefix(s) by {
      if |a| == 1 && |s| > 1 {
        assert s[1] == rest[0];
      } else if |a| > 1 {
        assert s[1] == a[1];
      }
    }
    ParseIntUnsigned(s);
    DigitRunOfDigits(a, rest);
    assert s[..|a|] == a;
    DigitsValueOfNat(n);
  }

  /** The text of a natural number, with a tail that does not continue it, reads as that number. */
  lemma NatTextReads(n: nat, rest: string)
    requires rest == [] || (!IsDecimalDigit(rest[0]) && rest[0] != 'x' && rest[0] != 'X')
    ensures var t := NatToString(n) + rest;
      t != [] && IsDecimalDigit(t[0]) && !IsHexPrefix(t) && DigitsValue(t[..DigitRun(t, 10)], 10) == n
  {
    var a := NatToString(n);
    var t := a + rest;
    assert t[0] == a[0];
    assert !IsHexPrefix(t) by {
      if |a| == 1 && |t| > 1 {
        assert t[1] == rest[0];
      } else if |a| > 1 {
        assert t[1] == a[1];
      }
    }
    DigitRunOfDigits(a, rest);
    assert t[..|a|] == a;
    DigitsValueOfNat(n);
  }

  /**
    `parseInt` reads back the text of any integer, sign included, followed by
    anything that does not continue the number, such as `"-3 minutes ago"`.
   */
  lemma ParseIntOfIntPrefix(n: int, rest: string)
    requires rest == [] || (!IsDecimalDigit(rest[0]) && rest[0] != 'x' && rest[0] != 'X')
    ensures ParseInt(IntToString(n) + rest) == Some(n)
  {
    if n >= 0 {
      ParseIntOfNatPrefix(n, rest);
    } else {
      ParseIntOfNegativePrefix(n, rest);
    }
  }

  /** The text of a negative number is a minus sign before the text of its magnitude. */
  lemma NegativeText(n: int, rest: string)
    requires n < 0
    ensures IntToString(n) + rest == "-" + (NatToString(-n) + rest)
  {
  }

  lemma ParseIntOfNegativePrefix(n: int, rest: string)
    requires n < 0
    requires rest == [] || (!IsDecimalDigit(rest[0]) && rest[0] != 'x' && rest[0] != 'X')
    ensures ParseInt(IntToString(n) + rest) == Some(n)
  {
    NegativeText(n, rest);
    ParseIntOfNegatedPrefix(n, rest);
  }

  lemma ParseIntOfNegatedPrefix(n: int, rest: string)
    requires n < 0
    requires rest == [] || (!IsDecimalDigit(rest[0]) && rest[0] != 'x' && rest[0] != 'X')
    ensures ParseInt("-" + (NatToString(-n) + rest)) == Some(n)
  {
    NegatedTextShape(n, rest);
    ParseIntNegative("-" + (NatToString(-n) + rest), n);
  }

  /** A minus sign, the digits of `-n` and a tail that does not continue them. */
  lemma NegatedTextShape(n: int, rest: string)
    requires n < 0
    requires rest == [] || (!IsDecimalDigit(rest[0]) && rest[0] != 'x' && rest[0] != 'X')
    ensures var s := "-" + (NatToString(-n) + rest);
      |s| >= 2 && s[0] == '-' && IsDecimalDigit(s[1]) && !IsHexPrefix(s[1..]) &&
      DigitsValue(s[1..][..DigitRun(s[1..], 10)], 10) == -n
  {
    var t := NatToString(-n) + rest;
    NatTextReads(-n, rest);
    assert ("-" + t)[1..] == t;
  }

  /** `parseInt` inverts the decimal text of every integer. */
  lemma ParseIntOfIntToString(n: int)
    ensures ParseInt(IntToString(n)) == Some(n)
  {
    ParseIntOfIntPrefix(n, []);
    assert IntToString(n) + [] == IntToString(n);
  }

  /** A string without a decimal digit parses to NaN. */
  lemma ParseIntNeedsDigit(s: string)
    requires forall i :: 0 <= i < |s| ==> !IsDecimalDigit(s[i])
    ensures ParseInt(s) == None
  {
  }
}
