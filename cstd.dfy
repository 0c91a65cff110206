/**
 * The pieces of the C library that the DataLink client relies on, stated as
 * Dafny functions: bytes, the `isspace`/`tolower` character classes,
 * `strstr`-style searching, glibc's `strtoul` on a 64-bit `unsigned long`,
 * and C's truncating integer division.
 */
module CStd {

  /** One byte of a C `char` buffer. */
  type Octet = c: char | c <= 255 as char

  datatype Option<+T> = None | Some(value: T)

  const ULONG_MAX: int := 0xFFFF_FFFF_FFFF_FFFF
  const INT64_MIN: int := -0x8000_0000_0000_0000
  const INT64_MAX: int := 0x7FFF_FFFF_FFFF_FFFF

  predicate InInt64(x: int) { INT64_MIN <= x <= INT64_MAX }

  /** Reads an `unsigned long` as a 64-bit `long` (two's complement). */
  function AsLong(u: int): (x: int)
    requires 0 <= u <= ULONG_MAX
    ensures InInt64(x)
    ensures x >= 0 <==> u <= INT64_MAX
    ensures x % (ULONG_MAX + 1) == u
  {
    if u <= INT64_MAX then u else u - (ULONG_MAX + 1)
  }

  /**
   * C's `a / b` for a positive divisor: the quotient truncated toward zero
   * (Dafny's own `/` is Euclidean). The bounds for a fixed divisor are proved
   * where the divisor is known, which keeps the arithmetic linear.
   */
  function CDiv(a: int, b: int): (q: int)
    requires b > 0
    ensures a >= 0 ==> q >= 0
    ensures a <= 0 ==> q <= 0
    ensures -a < b && a < b ==> q == 0
  {
    if a >= 0 then a / b else -((-a) / b)
  }

  /** `isspace` in the C locale. */
  predicate IsSpace(c: char) { c == ' ' || 9 <= c as int <= 13 }

  /** `tolower` in the C locale. */
  function ToLower(c: char): (l: char)
    ensures 'A' <= c <= 'Z' ==> l as int == c as int + 32
    ensures !('A' <= c <= 'Z') ==> l == c
  {
    if 'A' <= c <= 'Z' then (c as int + 32) as char else c
  }

  predicate OccursAt<T(==)>(s: seq<T>, pat: seq<T>, j: int)
  {
    0 <= j && j + |pat| <= |s| && s[j..j + |pat|] == pat
  }

  /**
   * The leftmost occurrence of `pat` in `s` at or after index `k`: what
   * `strstr`/`strchr` return when started at `s + k`, as an index into `s`.
   */
  function FindFrom<T(==)>(s: seq<T>, pat: seq<T>, k: nat): (r: Option<nat>)
    ensures r.Some? ==> k <= r.value && r.value + |pat| <= |s|
    decreases |s| - k
  {
    if k + |pat| > |s| then None
    else if s[k..k + |pat|] == pat then Some(k)
    else FindFrom(s, pat, k + 1)
  }

  /** `strstr`/`strchr`: the index of the leftmost occurrence of `pat` in `s`. */
  function Find<T(==)>(s: seq<T>, pat: seq<T>): (r: Option<nat>)
    ensures r.Some? ==> r.value + |pat| <= |s|
  {
    FindFrom(s, pat, 0)
  }

  // Small facts about slices, each proved on its own so that larger proofs
  // can use them without the solver re-deriving them in a crowded context.

  /** A slice of a slice is a slice of the whole. */
  lemma SliceOfSlice<T>(s: seq<T>, a: nat, b: nat, i: nat, j: nat)
    requires a <= b <= |s| && i <= j <= b - a
    ensures s[a..b][i..j] == s[a + i..a + j]
  {
    var t := s[a..b];
    forall k | 0 <= k < j - i ensures t[i..j][k] == s[a + i..a + j][k] {
      assert t[i..j][k] == t[i + k];
      assert t[i + k] == s[a + i + k];
    }
  }

  /** Concatenation of three sequences, regrouped. */
  lemma Assoc<T>(a: seq<T>, b: seq<T>, c: seq<T>)
    ensures (a + b) + c == a + (b + c)
  {
  }

  /** Concatenation of four sequences, regrouped. */
  lemma Regroup<T>(a: seq<T>, b: seq<T>, c: seq<T>, e: seq<T>)
    ensures a + ((b + c) + e) == ((a + b) + c) + e
  {
    assert a + ((b + c) + e) == (a + (b + c)) + e;
    assert a + (b + c) == (a + b) + c;
  }

  /** A suffix cut in three. */
  lemma SliceThree<T>(s: seq<T>, a: nat, b: nat, c: nat)
    requires a <= b <= c <= |s|
    ensures s[a..] == s[a..b] + s[b..c] + s[c..]
  {
    assert s[a..] == s[a..b] + s[b..];
    assert s[b..] == s[b..c] + s[c..];
  }

  /** A slice inside the first operand of a concatenation. */
  lemma SliceLeft<T>(x: seq<T>, y: seq<T>, a: nat, b: nat)
    requires a <= b <= |x|
    ensures (x + y)[a..b] == x[a..b]
  {
  }

  /** A slice inside the second operand of a concatenation. */
  lemma SliceRight<T>(x: seq<T>, y: seq<T>, a: nat)
    requires a <= |y|
    ensures (x + y)[|x| + a..] == y[a..]
  {
  }

  /** What `FindFrom` finds is an occurrence. */
  lemma {:induction false} FindFromFound<T>(s: seq<T>, pat: seq<T>, k: nat)
    ensures FindFrom(s, pat, k).Some? ==> OccursAt(s, pat, FindFrom(s, pat, k).value)
    decreases |s| - k
  {
    if k + |pat| <= |s| && s[k..k + |pat|] != pat {
      FindFromFound(s, pat, k + 1);
    }
  }

  /** What `FindFrom` finds is the leftmost occurrence from `k` on, and it finds one whenever there is one. */
  lemma {:induction false} FindFromLeftmost<T>(s: seq<T>, pat: seq<T>, k: nat)
    ensures FindFrom(s, pat, k).Some? ==> forall j :: k <= j < FindFrom(s, pat, k).value ==> !OccursAt(s, pat, j)
    ensures FindFrom(s, pat, k).None? ==> forall j :: k <= j ==> !OccursAt(s, pat, j)
    decreases |s| - k
  {
    if k + |pat| <= |s| && s[k..k + |pat|] != pat {
      FindFromLeftmost(s, pat, k + 1);
    }
  }

  /** The same for a search from the start: `strstr` returns the leftmost occurrence, or none when there is none. */
  lemma FindLeftmost<T>(s: seq<T>, pat: seq<T>)
    ensures Find(s, pat).Some? ==> OccursAt(s, pat, Find(s, pat).value)
    ensures Find(s, pat).Some? ==> forall j :: 0 <= j < Find(s, pat).value ==> !OccursAt(s, pat, j)
    ensures Find(s, pat).None? ==> forall j :: 0 <= j ==> !OccursAt(s, pat, j)
  {
    FindFromFound(s, pat, 0);
    FindFromLeftmost(s, pat, 0);
  }

  /** A slice of `x + y` that lies in `y` is the same slice of `y`, shifted. */
  lemma SliceRightRange<T>(x: seq<T>, y: seq<T>, a: nat, b: nat)
    requires a <= b <= |y|
    ensures (x + y)[|x| + a..|x| + b] == y[a..b]
  {
  }

  /** An occurrence found wholly inside `x` is still the leftmost one in `x + y`. */
  lemma {:induction false} FindInPrefix<T>(x: seq<T>, y: seq<T>, pat: seq<T>, k: nat)
    requires FindFrom(x, pat, k).Some?
    ensures FindFrom(x + y, pat, k) == FindFrom(x, pat, k)
    decreases |x| - k
  {
    SliceLeft(x, y, k, k + |pat|);
    if x[k..k + |pat|] != pat {
      FindInPrefix(x, y, pat, k + 1);
    }
  }

  /** Searching `x + y` past the end of `x` finds what searching `y` finds, shifted. */
  lemma {:induction false} FindInSuffix<T>(x: seq<T>, y: seq<T>, pat: seq<T>, k: nat, n: nat)
    requires FindFrom(y, pat, k) == Some(n)
    ensures FindFrom(x + y, pat, |x| + k) == Some(|x| + n)
    decreases |y| - k
  {
    SliceRightRange(x, y, k, k + |pat|);
    if y[k..k + |pat|] != pat {
      FindInSuffix(x, y, pat, k + 1, n);
    }
  }

  /** Searching `x + y` past the end of `x` finds nothing when searching `y` finds nothing. */
  lemma {:induction false} FindNoneInSuffix<T>(x: seq<T>, y: seq<T>, pat: seq<T>, k: nat)
    requires FindFrom(y, pat, k).None?
    ensures FindFrom(x + y, pat, |x| + k).None?
    decreases |y| - k
  {
    if k + |pat| <= |y| {
      SliceRightRange(x, y, k, k + |pat|);
      FindNoneInSuffix(x, y, pat, k + 1);
    }
  }

  /** Searching for one element: what is skipped is not that element, and what is found is. */
  lemma {:induction false} FindCharFrom<T>(s: seq<T>, c: T, k: nat)
    requires k <= |s|
    ensures FindFrom(s, [c], k).None? ==> forall j :: k <= j < |s| ==> s[j] != c
    ensures FindFrom(s, [c], k).Some? ==>
      var i := FindFrom(s, [c], k).value;
      i < |s| && s[i] == c && forall j :: k <= j < i ==> s[j] != c
    decreases |s| - k
  {
    if k < |s| {
      assert s[k..k + 1] == [s[k]];
      if s[k] != c {
        FindCharFrom(s, c, k + 1);
      }
    }
  }

  /** An element that does not occur is not found. */
  lemma {:induction false} FindCharAbsent<T>(s: seq<T>, c: T, k: nat)
    requires k <= |s| && forall j :: k <= j < |s| ==> s[j] != c
    ensures FindFrom(s, [c], k).None?
    decreases |s| - k
  {
    if k < |s| {
      assert s[k..k + 1] != [c] by {
        assert s[k..k + 1][0] == s[k];
      }
      FindCharAbsent(s, c, k + 1);
    }
  }

  /** The first occurrence of `c` in `x + [c] + y`, when `x` holds none, ends `x`. */
  lemma FindCharFirst<T>(x: seq<T>, c: T, y: seq<T>)
    requires forall j :: 0 <= j < |x| ==> x[j] != c
    ensures FindFrom(x + ([c] + y), [c], 0) == Some(|x|)
  {
    FindCharAbsent(x, c, 0);
    FindPastPrefix(x, [c] + y, [c], 0);
    FindCharAtEnd(x, c, y);
  }

  lemma FindCharAtEnd<T>(x: seq<T>, c: T, y: seq<T>)
    ensures FindFrom(x + ([c] + y), [c], |x|) == Some(|x|)
  {
    var s := x + ([c] + y);
    assert s[|x|..|x| + 1] == [c] by {
      assert s[|x|] == c;
    }
  }

  /**
   * A slice `s[a..b]` searched from `m` holds no occurrence when searching
   * `s` from `a + m` finds none, or finds one that ends past the slice.
   */
  lemma {:induction false} FindInSliceNone<T>(s: seq<T>, pat: seq<T>, a: nat, b: nat, m: nat)
    requires a + m <= b <= |s|
    requires FindFrom(s, pat, a + m).None? || FindFrom(s, pat, a + m).value + |pat| > b
    ensures FindFrom(s[a..b], pat, m).None?
    decreases b - a - m
  {
    if m + |pat| <= b - a {
      SliceOfSlice(s, a, b, m, m + |pat|);
      assert s[a + m..a + m + |pat|] != pat;
      FindInSliceNone(s, pat, a, b, m + 1);
    }
  }

  /** A pattern placed at the end of `x` is found where `x` ends. */
  lemma FindAtEnd<T>(x: seq<T>, pat: seq<T>)
    ensures FindFrom(x + pat, pat, |x|) == Some(|x|)
  {
    assert (x + pat)[|x|..|x| + |pat|] == pat;
  }

  /** Past a prefix without a one-element pattern, a search of `x + y` starts at `y`. */
  lemma {:induction false} FindPastPrefix<T>(x: seq<T>, y: seq<T>, pat: seq<T>, k: nat)
    requires |pat| == 1 && k <= |x| && FindFrom(x, pat, k).None?
    ensures FindFrom(x + y, pat, k) == FindFrom(x + y, pat, |x|)
    decreases |x| - k
  {
    if k < |x| {
      SliceLeft(x, y, k, k + 1);
      FindPastPrefix(x, y, pat, k + 1);
    }
  }

  // ---------------------------------------------------------------------
  // strtoul

  /** The value of a digit in bases up to 36; 36 for anything that is not a digit. */
  function DigitValue(c: char): (d: nat)
    ensures d <= 36
  {
    if '0' <= c <= '9' then c as int - '0' as int
    else if 'a' <= c <= 'z' then c as int - 'a' as int + 10
    else if 'A' <= c <= 'Z' then c as int - 'A' as int + 10
    else 36
  }

  predicate IsDigitIn(c: char, base: int) { DigitValue(c) < base }

  /** The first index at or after `i` that is not white space. */
  function SpaceSpan(s: string, i: nat): (j: nat)
    requires i <= |s|
    ensures i <= j <= |s|
    ensures forall k :: i <= k < j ==> IsSpace(s[k])
    ensures j < |s| ==> !IsSpace(s[j])
    decreases |s| - i
  {
    if i < |s| && IsSpace(s[i]) then SpaceSpan(s, i + 1) else i
  }

  /** The first index at or after `i` that is not a digit of `base`. */
  function DigitSpan(s: string, i: nat, base: int): (j: nat)
    requires i <= |s|
    ensures i <= j <= |s|
    ensures forall k :: i <= k < j ==> IsDigitIn(s[k], base)
    ensures j < |s| ==> !IsDigitIn(s[j], base)
    decreases |s| - i
  {
    if i < |s| && IsDigitIn(s[i], base) then DigitSpan(s, i + 1, base) else i
  }

  predicate AllDigits(s: string, base: int) { forall k :: 0 <= k < |s| ==> IsDigitIn(s[k], base) }

  /** The run `DigitSpan` measures is all digits. */
  lemma DigitSpanDigits(s: string, i: nat, base: int)
    requires i <= |s|
    ensures AllDigits(s[i..DigitSpan(s, i, base)], base)
  {
    var t := s[i..DigitSpan(s, i, base)];
    forall k | 0 <= k < |t| ensures IsDigitIn(t[k], base) {
      assert t[k] == s[i + k];
    }
  }

  /** A run of digits followed by a non-digit (or the end) is what `DigitSpan` measures. */
  lemma {:induction false} DigitSpanRun(s: string, i: nat, j: nat, base: int)
    requires i <= j <= |s|
    requires forall k :: i <= k < j ==> IsDigitIn(s[k], base)
    requires j < |s| ==> !IsDigitIn(s[j], base)
    ensures DigitSpan(s, i, base) == j
    decreases j - i
  {
    if i < j {
      DigitSpanRun(s, i + 1, j, base);
    }
  }

  /** The number a string of digits denotes, most significant digit first. */
  function DigitsValue(s: string, base: nat): nat
    requires AllDigits(s, base)
  {
    if s == [] then 0 else DigitsValue(s[..|s| - 1], base) * base + DigitValue(s[|s| - 1])
  }

  /** What `strtoul` returns: the converted value and the index its end pointer is left at. */
  datatype Conversion = Conversion(value: nat, end: nat)

  /**
   * glibc's `strtoul(s, &end, base)` for base 10 or 16 with a 64-bit
   * `unsigned long`: leading white space, an optional sign, for base 16 an
   * optional `0x` prefix, then the longest run of digits. With no digits the
   * end pointer is the start of `s`. An overflowing value gives ULONG_MAX; a
   * minus sign negates modulo 2^64.
   */
  function Strtoul(s: string, base: nat): (r: Conversion)
    requires base == 10 || base == 16
    ensures r.value <= ULONG_MAX && r.end <= |s|
  {
    var i0 := SpaceSpan(s, 0);
    var neg := i0 < |s| && s[i0] == '-';
    var i1 := if i0 < |s| && (s[i0] == '+' || s[i0] == '-') then i0 + 1 else i0;
    var i2 :=
      if base == 16 && i1 + 2 < |s| && s[i1] == '0' && (s[i1 + 1] == 'x' || s[i1 + 1] == 'X')
         && IsDigitIn(s[i1 + 2], 16)
      then i1 + 2 else i1;
    var j := DigitSpan(s, i2, base);
    if j == i2 then Conversion(0, 0)
    else
      DigitSpanDigits(s, i2, base);
      var v := DigitsValue(s[i2..j], base);
      if v > ULONG_MAX then Conversion(ULONG_MAX, j)
      else if neg then Conversion((ULONG_MAX + 1 - v) % (ULONG_MAX + 1), j)
      else Conversion(v, j)
  }

  /** On a non-empty string of plain digits, `strtoul` reads all of it and returns its value, capped at ULONG_MAX. */
  lemma StrtoulOfDigits(s: string, base: nat)
    requires base == 10 || base == 16
    requires s != [] && AllDigits(s, base)
    ensures Strtoul(s, base).end == |s|
    ensures Strtoul(s, base).value == if DigitsValue(s, base) > ULONG_MAX then ULONG_MAX else DigitsValue(s, base)
  {
    assert !IsSpace(s[0]);
    assert SpaceSpan(s, 0) == 0;
    assert s[0] != '+' && s[0] != '-';
    assert s[0..|s|] == s;
  }
}
