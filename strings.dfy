/** The string operations of Python that the modelled code relies on:
    `str.isnumeric`, `int(...)`, `str(n)`, `"{:06d}".format(n)` / `"%02d" % n`,
    slicing, `in` on strings, `str.split`, `str.join`, `str.endswith` and the
    lexicographic comparison that `list.sort` uses on strings. */
module Strings {
  import opened Wrappers

  // ---------------------------------------------------------------- digits

  predicate IsDigit(ch: char) { '0' <= ch <= '9' }

  predicate AllDigits(s: string) { forall i :: 0 <= i < |s| ==> IsDigit(s[i]) }

  /** `s.isnumeric()`: non-empty and made of decimal digits (ASCII digits only). */
  predicate IsNumeric(s: string) { |s| > 0 && AllDigits(s) }

  function DigitValue(ch: char): (d: nat)
    requires IsDigit(ch)
    ensures d < 10
  {
    ch as int - '0' as int
  }

  function DigitChar(d: nat): (ch: char)
    requires d < 10
    ensures IsDigit(ch) && DigitValue(ch) == d
  {
    ('0' as int + d) as char
  }

  /** The value of a string of decimal digits, most significant digit first. */
  function DigitsValue(s: string): nat
    requires AllDigits(s)
  {
    if s == [] then 0 else 10 * DigitsValue(s[..|s| - 1]) + DigitValue(s[|s| - 1])
  }

  function Pow10(k: nat): (p: nat)
    ensures p >= 1
  {
    if k == 0 then 1 else 10 * Pow10(k - 1)
  }

  // ------------------------------------------------------- int formatting

  /** `str(n)` for a non-negative integer: no leading zeros, reads back as `n`. */
  function NatToString(n: nat): (r: string)
    ensures |r| > 0 && AllDigits(r)
    ensures DigitsValue(r) == n
    ensures |r| > 1 ==> r[0] != '0'
  {
    if n < 10 then [DigitChar(n)]
    else
      var prefix := NatToString(n / 10);
      var r := prefix + [DigitChar(n % 10)];
      assert r[..|r| - 1] == prefix;
      r
  }

  /** A number below `10^k` needs at most `k` digits. */
  lemma {:induction false} NatToStringLength(n: nat, k: nat)
    requires 1 <= k && n < Pow10(k)
    ensures |NatToString(n)| <= k
  {
    if n >= 10 {
      NatToStringLength(n / 10, k - 1);
    }
  }

  /** `str(i)` for any integer. */
  function IntToString(i: int): string
  {
    if i < 0 then "-" + NatToString(-i) else NatToString(i)
  }

  function Zeros(n: nat): (z: string)
    ensures |z| == n && AllDigits(z)
    ensures forall k :: 0 <= k < n ==> z[k] == '0'
  {
    if n == 0 then [] else "0" + Zeros(n - 1)
  }

  /** `"{:0<width>d}".format(i)` and `"%0<width>d" % i`: zero padding to `width`
      characters, placed after the minus sign of a negative number. */
  function FormatPadded(i: int, width: nat): (r: string)
    ensures i >= 0 ==> AllDigits(r) && |r| >= width
    ensures i < 0 ==> |r| > 1 && r[0] == '-' && AllDigits(r[1..])
  {
    if i >= 0 then
      var digits := NatToString(i);
      Zeros(if |digits| < width then width - |digits| else 0) + digits
    else
      var digits := NatToString(-i);
      "-" + Zeros(if |digits| + 1 < width then width - 1 - |digits| else 0) + digits
  }

  /** A number below `10^width` is padded to exactly `width` digits. */
  lemma FormatPaddedWidth(i: nat, width: nat)
    requires 1 <= width && i < Pow10(width)
    ensures |FormatPadded(i, width)| == width
  {
    NatToStringLength(i, width);
  }

  // ---------------------------------------------------------- int parsing

  /** `int(s)` for a string of digits with an optional sign; `None` stands for
      the ValueError that Python raises on anything else. */
  function ParseInt(s: string): (r: Option<int>)
    ensures r.Some? <==> IsNumeric(s) || (|s| > 1 && (s[0] == '-' || s[0] == '+') && IsNumeric(s[1..]))
    ensures IsNumeric(s) ==> r == Some(DigitsValue(s))
    ensures |s| > 1 && s[0] == '-' && IsNumeric(s[1..]) ==> r == Some(-(DigitsValue(s[1..]) as int))
    ensures |s| > 1 && s[0] == '+' && IsNumeric(s[1..]) ==> r == Some(DigitsValue(s[1..]) as int)
  {
    if |s| > 0 && (s[0] == '-' || s[0] == '+') then
      if IsNumeric(s[1..]) then Some(if s[0] == '-' then -(DigitsValue(s[1..]) as int) else DigitsValue(s[1..]) as int)
      else None
    else if IsNumeric(s) then Some(DigitsValue(s))
    else None
  }

  /** Leading zeros do not change the value of a digit string. */
  lemma {:induction false} LeadingZeros(z: string, s: string)
    requires AllDigits(z) && AllDigits(s)
    requires forall k :: 0 <= k < |z| ==> z[k] == '0'
    ensures AllDigits(z + s) && DigitsValue(z + s) == DigitsValue(s)
  {
    if s == [] {
      assert z + s == z;
      ZerosValue(z);
    } else {
      var s' := s[..|s| - 1];
      assert (z + s)[..|z + s| - 1] == z + s';
      LeadingZeros(z, s');
    }
  }

  lemma {:induction false} ZerosValue(z: string)
    requires AllDigits(z)
    requires forall k :: 0 <= k < |z| ==> z[k] == '0'
    ensures DigitsValue(z) == 0
  {
    if z != [] {
      ZerosValue(z[..|z| - 1]);
    }
  }

  /** `int("{:0Wd}".format(i)) == i`: zero-padded keys read back as their index. */
  lemma ParseFormatPadded(i: int, width: nat)
    ensures ParseInt(FormatPadded(i, width)) == Some(i)
  {
    var r := FormatPadded(i, width);
    if i >= 0 {
      var digits := NatToString(i);
      var z := Zeros(if |digits| < width then width - |digits| else 0);
      assert r == z + digits;
      LeadingZeros(z, digits);
      assert IsNumeric(r) && IsDigit(r[0]);
    } else {
      var digits := NatToString(-i);
      var z := Zeros(if |digits| + 1 < width then width - 1 - |digits| else 0);
      assert r == "-" + z + digits;
      assert r[1..] == z + digits;
      LeadingZeros(z, digits);
      assert IsNumeric(r[1..]);
    }
  }

  /** Distinct indices give distinct zero-padded keys. */
  lemma FormatPaddedInjective(i: int, j: int, width: nat)
    requires FormatPadded(i, width) == FormatPadded(j, width)
    ensures i == j
  {
    ParseFormatPadded(i, width);
    ParseFormatPadded(j, width);
  }

  // ------------------------------------------------------- slicing, search

  /** Python's slice `s[i:j]` (step 1): negative bounds count from the end,
      bounds past either end are clamped, an empty range gives `[]`. */
  function Slice<T>(s: seq<T>, i: int, j: int): (r: seq<T>)
    ensures |r| <= |s|
    ensures 0 <= i <= j <= |s| ==> r == s[i..j]
  {
    var lo := if i < 0 then (if i + |s| < 0 then 0 else i + |s|) else (if i > |s| then |s| else i);
    var hi := if j < 0 then (if j + |s| < 0 then 0 else j + |s|) else (if j > |s| then |s| else j);
    if lo < hi then s[lo..hi] else []
  }

  /** Python's `sub in s` on strings. */
  predicate Contains(s: string, sub: string)
  {
    sub <= s || (s != [] && Contains(s[1..], sub))
  }

  /** `s.endswith(suffix)` */
  predicate EndsWith(s: string, suffix: string)
  {
    |suffix| <= |s| && s[|s| - |suffix|..] == suffix
  }

  // -------------------------------------------------------- split and join

  /** `s.split(sep)` with an explicit one-character separator. */
  function Split(s: string, sep: char): (parts: seq<string>)
    ensures |parts| >= 1
    ensures forall k :: 0 <= k < |parts| ==> sep !in parts[k]
  {
    if s == [] then [[]]
    else if s[0] == sep then [[]] + Split(s[1..], sep)
    else
      var rest := Split(s[1..], sep);
      [[s[0]] + rest[0]] + rest[1..]
  }

  /** `sep.join(parts)` */
  function Join(parts: seq<string>, sep: string): string
  {
    if parts == [] then []
    else if |parts| == 1 then parts[0]
    else parts[0] + sep + Join(parts[1..], sep)
  }

  /** Splitting at a separator and joining with it gives the string back. */
  lemma {:induction false} JoinSplit(s: string, sep: char)
    ensures Join(Split(s, sep), [sep]) == s
  {
    if s != [] {
      JoinSplit(s[1..], sep);
      var rest := Split(s[1..], sep);
      if s[0] != sep {
        var parts := Split(s, sep);
        assert parts[1..] == rest[1..];
        if |rest| > 1 {
          assert Join(rest, [sep]) == rest[0] + [sep] + Join(rest[1..], [sep]);
        }
      }
    }
  }

  /** A separator ends the current part: `(a + sep + b).split(sep) == a.split(sep) + b.split(sep)`. */
  lemma {:induction false} SplitAtSeparator(a: string, b: string, sep: char)
    ensures Split(a + [sep] + b, sep) == Split(a, sep) + Split(b, sep)
  {
    var s := a + [sep] + b;
    if a == [] {
      assert s[0] == sep && s[1..] == b;
    } else {
      assert s[0] == a[0] && s[1..] == a[1..] + [sep] + b;
      SplitAtSeparator(a[1..], b, sep);
      if a[0] != sep {
        var rest := Split(s[1..], sep);
        var restA := Split(a[1..], sep);
        assert rest == restA + Split(b, sep);
        assert rest[0] == restA[0];
        assert rest[1..] == restA[1..] + Split(b, sep);
      }
    }
  }

  /** `[s[i:i+2] for i in range(0, len(s), 2)]`: two-character pieces, the
      last one shorter when the length is odd; together they spell `s`. */
  function Chunks2(s: string): (chunks: seq<string>)
    ensures |chunks| == (|s| + 1) / 2
    ensures forall k :: 0 <= k < |chunks| - 1 ==> |chunks[k]| == 2
    ensures chunks != [] ==> 1 <= |chunks[|chunks| - 1]| <= 2
  {
    if s == [] then []
    else if |s| <= 2 then [s]
    else [s[..2]] + Chunks2(s[2..])
  }

  /** Together the pieces spell `s`. */
  lemma {:induction false} Chunks2Join(s: string)
    ensures Join(Chunks2(s), "") == s
  {
    if |s| > 2 {
      Chunks2Join(s[2..]);
      var rest := Chunks2(s[2..]);
      assert Chunks2(s) == [s[..2]] + rest;
      assert Join([s[..2]] + rest, "") == s[..2] + "" + Join(rest, "");
      assert s == s[..2] + s[2..];
    }
  }

  // ------------------------------------------------- lexicographic order

  /** Python's `a <= b` on strings: code-point order, a prefix comes first. */
  predicate LexLe(a: string, b: string)
  {
    a == [] || (b != [] && (a[0] < b[0] || (a[0] == b[0] && LexLe(a[1..], b[1..]))))
  }

  lemma {:induction false} LexLeReflexive(a: string)
    ensures LexLe(a, a)
  {
    if a != [] { LexLeReflexive(a[1..]); }
  }

  lemma {:induction false} LexLeTotal(a: string, b: string)
    ensures LexLe(a, b) || LexLe(b, a)
  {
    if a != [] && b != [] && a[0] == b[0] { LexLeTotal(a[1..], b[1..]); }
  }

  lemma {:induction false} LexLeAntisymmetric(a: string, b: string)
    requires LexLe(a, b) && LexLe(b, a)
    ensures a == b
  {
    if a != [] && b != [] {
      LexLeAntisymmetric(a[1..], b[1..]);
      assert a == [a[0]] + a[1..] && b == [b[0]] + b[1..];
    }
  }

  lemma {:induction false} LexLeTransitive(a: string, b: string, c: string)
    requires LexLe(a, b) && LexLe(b, c)
    ensures LexLe(a, c)
  {
    if a != [] && b != [] && c != [] && a[0] == b[0] == c[0] {
      LexLeTransitive(a[1..], b[1..], c[1..]);
    }
  }
}
