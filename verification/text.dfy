/**
  Byte-string helpers shared by the C++ and Python parts of the model.
  A `string` here stands for a C++ `std::string` or a Python `str`: each
  character is one byte (C++) or one code point (Python).
 */
module Text {
  import opened Wrappers

  // ---------------------------------------------------------------------
  // Character classes
  // ---------------------------------------------------------------------

  /** `absl::ascii_isspace` and the C locale's `isspace`: space, \t, \n, \v, \f and \r. */
  predicate IsAsciiSpace(c: char) {
    c == ' ' || c == '\t' || c == '\n' || c == '\U{B}' || c == '\U{C}' || c == '\r'
  }

  /** Python's `str.isspace`: the ASCII blanks, the separators \x1c to \x1f, \x85, and the Unicode spaces. */
  predicate IsPythonSpace(c: char) {
    || IsAsciiSpace(c)
    || ('\U{1C}' <= c <= '\U{1F}')
    || c == '\U{85}' || c == '\U{A0}' || c == '\U{1680}'
    || ('\U{2000}' <= c <= '\U{200A}')
    || c == '\U{2028}' || c == '\U{2029}' || c == '\U{202F}' || c == '\U{205F}' || c == '\U{3000}'
  }

  /** JSON's insignificant whitespace: space, \t, \n and \r. */
  predicate IsJsonSpace(c: char) {
    c == ' ' || c == '\t' || c == '\n' || c == '\r'
  }

  /** Which characters count as blank: C++'s ASCII set, Python's, or JSON's. */
  datatype Blanks = Ascii | Python | Json

  predicate IsBlank(w: Blanks, c: char) {
    match w
    case Ascii => IsAsciiSpace(c)
    case Python => IsPythonSpace(c)
    case Json => IsJsonSpace(c)
  }

  predicate IsDigit(c: char) {
    '0' <= c <= '9'
  }

  function DigitValue(c: char): nat
    requires IsDigit(c)
  {
    (c as int) - ('0' as int)
  }

  predicate AllDigits(s: string) {
    forall k :: 0 <= k < |s| ==> IsDigit(s[k])
  }

  // ---------------------------------------------------------------------
  // Trimming
  // ---------------------------------------------------------------------

  /** Drops the leading characters that are blank under `w`. */
  function TrimLeft(s: string, w: Blanks): string
    decreases |s|
  {
    if |s| > 0 && IsBlank(w, s[0]) then TrimLeft(s[1..], w) else s
  }

  /** `TrimLeft` cuts a run of blanks off the front and keeps the rest, which does not start with a blank. */
  lemma {:induction false} TrimLeftSpec(s: string, w: Blanks)
    ensures var r := TrimLeft(s, w);
            && |r| <= |s|
            && r == s[|s| - |r|..]
            && (forall k :: 0 <= k < |s| - |r| ==> IsBlank(w, s[k]))
            && (r == [] || !IsBlank(w, r[0]))
    decreases |s|
  {
    if |s| > 0 && IsBlank(w, s[0]) {
      TrimLeftSpec(s[1..], w);
      var r := TrimLeft(s, w);
      forall k | 0 <= k < |s| - |r| ensures IsBlank(w, s[k]) {
        if k > 0 {
          assert s[k] == s[1..][k - 1];
        }
      }
    }
  }

  /** Drops the trailing characters that are blank under `w`. */
  function TrimRight(s: string, w: Blanks): string
    decreases |s|
  {
    if |s| > 0 && IsBlank(w, s[|s| - 1]) then TrimRight(s[..|s| - 1], w) else s
  }

  /** `TrimRight` cuts a run of blanks off the back and keeps the rest, which does not end with a blank. */
  lemma {:induction false} TrimRightSpec(s: string, w: Blanks)
    ensures var r := TrimRight(s, w);
            && |r| <= |s|
            && r == s[..|r|]
            && (forall k :: |r| <= k < |s| ==> IsBlank(w, s[k]))
            && (r == [] || !IsBlank(w, r[|r| - 1]))
    decreases |s|
  {
    if |s| > 0 && IsBlank(w, s[|s| - 1]) {
      TrimRightSpec(s[..|s| - 1], w);
      var r := TrimRight(s, w);
      forall k | |r| <= k < |s| ensures IsBlank(w, s[k]) {
        if k < |s| - 1 {
          assert s[k] == s[..|s| - 1][k];
        }
      }
    }
  }

  /** `r` is the slice of `s` at `i` once a run of characters blank under `w` is cut from each end. */
  predicate IsTrimmedSlice(s: string, r: string, i: nat, w: Blanks) {
    && i + |r| <= |s|
    && r == s[i..i + |r|]
    && (forall k :: 0 <= k < i ==> IsBlank(w, s[k]))
    && (forall k :: i + |r| <= k < |s| ==> IsBlank(w, s[k]))
  }

  /** Drops leading and trailing characters blank under `w` (`absl::StripAsciiWhitespace`, Python `str.strip()`). */
  function Strip(s: string, w: Blanks): string {
    TrimRight(TrimLeft(s, w), w)
  }

  /** What `Strip` keeps starts where `TrimLeft` stopped. */
  lemma StripSliceAt(s: string, w: Blanks)
    ensures |TrimLeft(s, w)| <= |s|
    ensures IsTrimmedSlice(s, Strip(s, w), |s| - |TrimLeft(s, w)|, w)
  {
    var l := TrimLeft(s, w);
    var r := TrimRight(l, w);
    var i := |s| - |l|;
    TrimLeftSpec(s, w);
    TrimRightSpec(l, w);
    assert r == s[i..i + |r|];
    forall k | i + |r| <= k < |s| ensures IsBlank(w, s[k]) {
      assert s[k] == l[k - i];
    }
  }

  /**
    `Strip` cuts a run of characters blank under `w` off each end and keeps
    the middle as it is; what it keeps neither starts nor ends with a blank.
   */
  lemma StripSlice(s: string, w: Blanks)
    ensures var r := Strip(s, w);
            && (exists i: nat :: IsTrimmedSlice(s, r, i, w))
            && (r == [] || (!IsBlank(w, r[0]) && !IsBlank(w, r[|r| - 1])))
  {
    var l := TrimLeft(s, w);
    var r := Strip(s, w);
    StripSliceAt(s, w);
    TrimLeftSpec(s, w);
    TrimRightSpec(l, w);
    if r != [] {
      assert r[0] == l[0];
    }
  }

  /** A string whose ends are not blank under `w` is left as it is. */
  lemma StripKeeps(s: string, w: Blanks)
    requires s == [] || (!IsBlank(w, s[0]) && !IsBlank(w, s[|s| - 1]))
    ensures Strip(s, w) == s
  {
    assert TrimLeft(s, w) == s;
    assert TrimRight(s, w) == s;
  }

  /** Stripping twice is stripping once. */
  lemma StripIdempotent(s: string, w: Blanks)
    ensures Strip(Strip(s, w), w) == Strip(s, w)
  {
    StripSlice(s, w);
    StripKeeps(Strip(s, w), w);
  }

  // ---------------------------------------------------------------------
  // Decimal conversion
  // ---------------------------------------------------------------------

  const INT32_MIN: int := -0x8000_0000
  const INT32_MAX: int := 0x7FFF_FFFF

  function DigitChar(d: nat): (c: char)
    requires d < 10
    ensures IsDigit(c) && DigitValue(c) == d
  {
    ('0' as int + d) as char
  }

  /** The decimal digits of `n`, without leading zeros (`std::to_string` of a non-negative value). */
  function NatToString(n: nat): string
    decreases n
  {
    if n < 10 then [DigitChar(n)] else NatToString(n / 10) + [DigitChar(n % 10)]
  }

  /** `std::to_string` of an integer: a '-' before the digits of a negative value. */
  function IntToString(i: int): string {
    if i < 0 then "-" + NatToString(-i) else NatToString(i)
  }

  /** The value of a run of decimal digits. */
  function DigitsValue(s: string): nat
    requires AllDigits(s)
    decreases |s|
  {
    if s == [] then 0 else DigitsValue(s[..|s| - 1]) * 10 + DigitValue(s[|s| - 1])
  }

  lemma {:induction false} NatToStringDigits(n: nat)
    ensures |NatToString(n)| > 0 && AllDigits(NatToString(n))
    ensures DigitsValue(NatToString(n)) == n
    decreases n
  {
    if n >= 10 {
      NatToStringDigits(n / 10);
      var s := NatToString(n);
      assert s[..|s| - 1] == NatToString(n / 10);
    }
  }

  /**
    `absl::SimpleAtoi` into a 32-bit `int`: surrounding ASCII whitespace, an
    optional sign, at least one digit and nothing else, and a value that fits.
   */
  function ParseInt32(s: string): (r: Option<int>)
    ensures r.Some? ==> INT32_MIN <= r.value <= INT32_MAX
  {
    var t := Strip(s, Ascii);
    var neg := |t| > 0 && t[0] == '-';
    var digits := if |t| > 0 && (t[0] == '-' || t[0] == '+') then t[1..] else t;
    if |digits| == 0 || !AllDigits(digits) then None
    else
      var v := if neg then -(DigitsValue(digits) as int) else DigitsValue(digits) as int;
      if INT32_MIN <= v <= INT32_MAX then Some(v) else None
  }

  /** Printing a 32-bit value and reading it back gives the value: the group-code round trip. */
  lemma ParseIntToString(i: int)
    requires INT32_MIN <= i <= INT32_MAX
    ensures ParseInt32(IntToString(i)) == Some(i)
  {
    var s := IntToString(i);
    if i < 0 {
      NatToStringDigits(-i);
      var d := NatToString(-i);
      assert s == "-" + d && s[1..] == d;
      StripKeeps(s, Ascii);
    } else {
      NatToStringDigits(i);
      StripKeeps(s, Ascii);
    }
  }

  /** The longest run of digits at the start of `s`. */
  function DigitRun(s: string): (n: nat)
    ensures n <= |s| && AllDigits(s[..n])
    ensures n == |s| || !IsDigit(s[n])
  {
    if |s| > 0 && IsDigit(s[0]) then
      var n := 1 + DigitRun(s[1..]);
      assert s[..n] == [s[0]] + s[1..][..n - 1];
      n
    else 0
  }

  /**
    `std::stoi`: skips leading whitespace, reads an optional sign and the
    longest run of digits after it, and ignores whatever follows. `None`
    where `std::stoi` throws: no digit at all, or a value outside 32 bits.
   */
  function Stoi(s: string): (r: Option<int>)
    ensures r.Some? ==> INT32_MIN <= r.value <= INT32_MAX
  {
    var t := TrimLeft(s, Ascii);
    var neg := |t| > 0 && t[0] == '-';
    var u := if |t| > 0 && (t[0] == '-' || t[0] == '+') then t[1..] else t;
    var n := DigitRun(u);
    if n == 0 then None
    else
      var v := if neg then -(DigitsValue(u[..n]) as int) else DigitsValue(u[..n]) as int;
      if INT32_MIN <= v <= INT32_MAX then Some(v) else None
  }

  /** `std::stoi` reads back what `std::to_string` printed. */
  lemma StoiIntToString(i: int)
    requires INT32_MIN <= i <= INT32_MAX
    ensures Stoi(IntToString(i)) == Some(i)
  {
    var s := IntToString(i);
    if i < 0 {
      NatToStringDigits(-i);
      var d := NatToString(-i);
      assert s[1..] == d;
      assert TrimLeft(s, Ascii) == s;
      AllDigitsRun(d);
      assert d[..|d|] == d;
    } else {
      NatToStringDigits(i);
      assert !IsAsciiSpace(s[0]);
      assert TrimLeft(s, Ascii) == s;
      AllDigitsRun(s);
      assert s[..|s|] == s;
    }
  }

  lemma {:induction false} AllDigitsRun(s: string)
    requires AllDigits(s)
    ensures DigitRun(s) == |s|
    decreases |s|
  {
    if |s| > 0 {
      AllDigitsRun(s[1..]);
    }
  }

  // ---------------------------------------------------------------------
  // Substring search, splitting and joining
  // ---------------------------------------------------------------------

  predicate OccursAt(s: string, pat: string, i: nat) {
    i + |pat| <= |s| && s[i..i + |pat|] == pat
  }

  /** The first occurrence of `pat` in `s` at or after `from` (`std::string::find`, Python `str.find`). */
  function FindFrom(s: string, pat: string, from: nat): (r: Option<nat>)
    ensures r.Some? ==> from <= r.value && OccursAt(s, pat, r.value)
    ensures r.Some? ==> forall k :: from <= k < r.value ==> !OccursAt(s, pat, k)
    ensures r.None? ==> forall k :: from <= k ==> !OccursAt(s, pat, k)
    decreases |s| - from
  {
    if from + |pat| > |s| then None
    else if OccursAt(s, pat, from) then Some(from)
    else FindFrom(s, pat, from + 1)
  }

  function Find(s: string, pat: string): Option<nat> {
    FindFrom(s, pat, 0)
  }

  /** Python's `pat in s`. */
  predicate Contains(s: string, pat: string) {
    Find(s, pat).Some?
  }

  lemma ContainsAt(s: string, pat: string, i: nat)
    requires OccursAt(s, pat, i)
    ensures Contains(s, pat)
  {
  }

  /** Python's `s.split(sep)` for a non-empty separator: cut at every non-overlapping occurrence, left to right. */
  function Split(s: string, sep: string): (parts: seq<string>)
    requires |sep| > 0
    ensures |parts| >= 1
    ensures forall k :: 0 <= k < |parts| ==> !Contains(parts[k], sep)
    decreases |s|
  {
    match Find(s, sep)
    case None => [s]
    case Some(i) =>
      BeforeFirst(s, sep, i);
      [s[..i]] + Split(s[i + |sep|..], sep)
  }

  /** The text in front of the first occurrence holds no occurrence. */
  lemma BeforeFirst(s: string, sep: string, i: nat)
    requires |sep| > 0 && Find(s, sep) == Some(i)
    ensures !Contains(s[..i], sep)
  {
    var t := s[..i];
    forall k: nat ensures !OccursAt(t, sep, k) {
      if k + |sep| <= |t| {
        assert t[k..k + |sep|] == s[k..k + |sep|];
        assert !OccursAt(s, sep, k);
      }
    }
  }

  /** Python's `sep.join(parts)`. */
  function Join(parts: seq<string>, sep: string): string {
    if |parts| == 0 then ""
    else if |parts| == 1 then parts[0]
    else parts[0] + sep + Join(parts[1..], sep)
  }

  /** Splitting loses nothing: joining the parts with the separator gives the input back. */
  lemma {:induction false} JoinSplit(s: string, sep: string)
    requires |sep| > 0
    ensures Join(Split(s, sep), sep) == s
    decreases |s|
  {
    match Find(s, sep)
    case None =>
      assert Split(s, sep) == [s];
    case Some(i) =>
      var rest := s[i + |sep|..];
      var tail := Split(rest, sep);
      JoinSplit(rest, sep);
      var parts := Split(s, sep);
      assert parts == [s[..i]] + tail;
      assert |parts| >= 2 && parts[0] == s[..i] && parts[1..] == tail;
      assert Join(parts, sep) == s[..i] + sep + Join(tail, sep);
      assert s == s[..i] + sep + rest;
  }

  /** A string free of `c` has no occurrence of the one-character pattern `[c]`. */
  lemma Absent(s: string, c: char)
    requires c !in s
    ensures forall k :: !OccursAt(s, [c], k)
  {
    forall k: nat ensures !OccursAt(s, [c], k) {
      if k + 1 <= |s| {
        assert s[k..k + 1][0] == s[k];
      }
    }
  }

  /** Joining with a character no part contains puts it in none of the joined text but the separators. */
  lemma {:induction false} JoinFree(parts: seq<string>, sep: string, c: char)
    requires c !in sep
    requires forall k :: 0 <= k < |parts| ==> c !in parts[k]
    ensures c !in Join(parts, sep)
    decreases |parts|
  {
    if |parts| > 1 {
      JoinFree(parts[1..], sep, c);
    }
  }

  /** Joining parts that do not contain the one-character separator and splitting again gives the parts back. */
  lemma {:induction false} SplitJoin(parts: seq<string>, c: char)
    requires |parts| >= 1
    requires forall k :: 0 <= k < |parts| ==> c !in parts[k]
    ensures Split(Join(parts, [c]), [c]) == parts
    decreases |parts|
  {
    var p0 := parts[0];
    Absent(p0, c);
    if |parts| == 1 {
      assert Find(p0, [c]).None?;
    } else {
      var rest := Join(parts[1..], [c]);
      var s := Join(parts, [c]);
      assert s == p0 + [c] + rest;
      assert OccursAt(s, [c], |p0|) by { assert s[|p0|..|p0| + 1] == [c]; }
      forall k: nat | k < |p0| ensures !OccursAt(s, [c], k) {
        assert !OccursAt(p0, [c], k);
        if k + 1 <= |s| {
          assert s[k..k + 1] == p0[k..k + 1];
        }
      }
      assert Find(s, [c]) == Some(|p0|);
      assert s[..|p0|] == p0 && s[|p0| + 1..] == rest;
      SplitJoin(parts[1..], c);
    }
  }

  /** `n` copies of `c` (`std::string(n, c)`). */
  function Repeat(c: char, n: nat): (r: string)
    ensures |r| == n && forall k :: 0 <= k < n ==> r[k] == c
  {
    seq(n, _ => c)
  }

  /** The strings of `xs` one after the other. */
  function Concat(xs: seq<string>): string {
    if |xs| == 0 then "" else xs[0] + Concat(xs[1..])
  }

  lemma {:induction false} ConcatAppend(xs: seq<string>, ys: seq<string>)
    ensures Concat(xs + ys) == Concat(xs) + Concat(ys)
    decreases |xs|
  {
    if |xs| > 0 {
      ConcatAppend(xs[1..], ys);
      assert (xs + ys)[1..] == xs[1..] + ys;
      assert (xs + ys)[0] == xs[0];
    } else {
      assert xs + ys == ys;
    }
  }

  /** Every piece of a concatenation stands, in order, between the pieces before and after it. */
  lemma {:induction false} ConcatSplitAt(xs: seq<string>, i: nat)
    requires i < |xs|
    ensures Concat(xs) == Concat(xs[..i]) + xs[i] + Concat(xs[i + 1..])
    decreases i
  {
    if i > 0 {
      var tail := xs[1..];
      ConcatSplitAt(tail, i - 1);
      var a, b, c := Concat(tail[..i - 1]), tail[i - 1], Concat(tail[i..]);
      assert tail[..i - 1] == xs[..i][1..];
      assert b == xs[i] && tail[i..] == xs[i + 1..];
      assert Concat(xs[..i]) == xs[0] + a;
      assert Concat(xs) == xs[0] + (a + b + c);
    } else {
      assert Concat(xs[..0]) == "";
      assert xs[1..] == xs[i + 1..];
    }
  }
}

/**
  Lexicographic order on strings by character code: what `std::sort` on
  `std::string` and Python's `sorted` on `str` use.
 */
module StringOrder {

  predicate Le(a: string, b: string)
    decreases |a|
  {
    |a| == 0 || (|b| > 0 && (a[0] < b[0] || (a[0] == b[0] && Le(a[1..], b[1..]))))
  }

  lemma {:induction false} LeReflexive(a: string)
    ensures Le(a, a)
    decreases |a|
  {
    if |a| > 0 {
      LeReflexive(a[1..]);
    }
  }

  lemma {:induction false} LeTotal(a: string, b: string)
    ensures Le(a, b) || Le(b, a)
    decreases |a|
  {
    if |a| > 0 && |b| > 0 && a[0] == b[0] {
      LeTotal(a[1..], b[1..]);
    }
  }

  lemma {:induction false} LeAntisymmetric(a: string, b: string)
    requires Le(a, b) && Le(b, a)
    ensures a == b
    decreases |a|
  {
    if |a| > 0 {
      LeAntisymmetric(a[1..], b[1..]);
      assert a == [a[0]] + a[1..] && b == [b[0]] + b[1..];
    }
  }

  lemma {:induction false} LeTransitive(a: string, b: string, c: string)
    requires Le(a, b) && Le(b, c)
    ensures Le(a, c)
    decreases |a|
  {
    if |a| > 0 && a[0] == b[0] && b[0] == c[0] {
      LeTransitive(a[1..], b[1..], c[1..]);
    }
  }

  lemma LeAntisymmetricAll()
    ensures forall a, b :: Le(a, b) && Le(b, a) ==> a == b
  {
    forall a, b | Le(a, b) && Le(b, a)
      ensures a == b
    {
      LeAntisymmetric(a, b);
    }
  }

  predicate IsLeast(m: string, s: set<string>) {
    m in s && forall x :: x in s ==> Le(m, x)
  }

  lemma {:induction false} LeastExists(s: set<string>)
    requires s != {}
    ensures exists m :: IsLeast(m, s)
    decreases |s|
  {
    var y :| y in s;
    if s != {y} {
      LeastExists(s - {y});
      var m :| IsLeast(m, s - {y});
      LeTotal(y, m);
      if Le(y, m) {
        forall x | x in s
          ensures Le(y, x)
        {
          if x != y {
            LeTransitive(y, m, x);
          } else {
            LeReflexive(y);
          }
        }
        assert IsLeast(y, s);
      } else {
        assert IsLeast(m, s);
      }
    } else {
      LeReflexive(y);
      assert IsLeast(y, s);
    }
  }

  /** The smallest string of a non-empty set. */
  function Least(s: set<string>): (m: string)
    requires s != {}
    ensures IsLeast(m, s)
  {
    LeastExists(s);
    LeAntisymmetricAll();
    var m :| IsLeast(m, s);
    m
  }

  /** Python's `sorted(s)` for a set of strings: every element once, in ascending order. */
  function SortSet(s: set<string>): (r: seq<string>)
    ensures |r| == |s|
    ensures forall x :: x in s <==> x in r
    ensures forall i, j :: 0 <= i < j < |r| ==> Le(r[i], r[j]) && r[i] != r[j]
    decreases |s|
  {
    if s == {} then []
    else
      var m := Least(s);
      var rest := SortSet(s - {m});
      var r := [m] + rest;
      assert forall i, j :: 0 <= i < j < |r| ==> Le(r[i], r[j]) && r[i] != r[j] by {
        forall i, j | 0 <= i < j < |r|
          ensures Le(r[i], r[j]) && r[i] != r[j]
        {
          assert r[j] == rest[j - 1];
          if i > 0 {
            assert r[i] == rest[i - 1];
          } else {
            assert rest[j - 1] in s - {m};
          }
        }
      }
      r
  }
}
