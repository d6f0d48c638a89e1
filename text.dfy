/**
 * String operations the cleaner and the generator rely on: character
 * classes, decimal rendering (`f"{i}"`, `f"{i:06d}"`), stripping
 * non-digits (`str.replace(r'[^\d]', '')`), `str.title()` and Python's
 * ordering of strings (used by `Series.mode()` to sort tied values).
 *
 * Character classes are ASCII: `\d` and the cased letters of `str.title()`
 * are taken to be `0-9` and `A-Za-z`.
 */
module Text {

  predicate IsDigit(c: char) { '0' <= c <= '9' }
  predicate IsUpper(c: char) { 'A' <= c <= 'Z' }
  predicate IsLower(c: char) { 'a' <= c <= 'z' }
  predicate IsLetter(c: char) { IsUpper(c) || IsLower(c) }

  predicate AllDigits(s: string)
  {
    forall i :: 0 <= i < |s| ==> IsDigit(s[i])
  }

  function Upper(c: char): (r: char)
    ensures IsLetter(c) ==> IsUpper(r)
    ensures !IsLetter(c) ==> r == c
  {
    if IsLower(c) then (c as int - 32) as char else c
  }

  function Lower(c: char): (r: char)
    ensures IsLetter(c) ==> IsLower(r)
    ensures !IsLetter(c) ==> r == c
  {
    if IsUpper(c) then (c as int + 32) as char else c
  }

  // ---------------------------------------------------------------- decimal

  function DigitChar(d: nat): (c: char)
    requires d < 10
    ensures IsDigit(c)
  {
    ('0' as int + d) as char
  }

  function DigitValue(c: char): nat
    requires IsDigit(c)
  {
    c as int - '0' as int
  }

  /** `str(i)` for a non-negative integer: no leading zeros. */
  function Decimal(i: nat): (s: string)
    ensures |s| >= 1 && AllDigits(s)
  {
    if i < 10 then [DigitChar(i)] else Decimal(i / 10) + [DigitChar(i % 10)]
  }

  /** Reading digits back as a number; leading zeros do not change the value. */
  function ParseDecimal(s: string): nat
    requires AllDigits(s)
  {
    if s == [] then 0 else ParseDecimal(s[..|s| - 1]) * 10 + DigitValue(s[|s| - 1])
  }

  lemma {:induction false} ParseDecimalOfDecimal(i: nat)
    ensures ParseDecimal(Decimal(i)) == i
  {
    if i >= 10 {
      var s := Decimal(i);
      assert s[..|s| - 1] == Decimal(i / 10);
      ParseDecimalOfDecimal(i / 10);
    }
  }

  function Pow10(k: nat): (r: nat)
    ensures r >= 1
  {
    if k == 0 then 1 else 10 * Pow10(k - 1)
  }

  /** A number with exactly `k` decimal digits renders in `k` characters. */
  lemma {:induction false} DecimalLength(i: nat, k: nat)
    requires k >= 1 && Pow10(k - 1) <= i < Pow10(k)
    ensures |Decimal(i)| == k
  {
    if k > 1 {
      DecimalLength(i / 10, k - 1);
    }
  }

  lemma {:induction false} DecimalShort(i: nat, k: nat)
    requires k >= 1 && i < Pow10(k)
    ensures |Decimal(i)| <= k
  {
    if i >= 10 {
      DecimalShort(i / 10, k - 1);
    }
  }

  function Zeros(k: nat): (s: string)
    ensures |s| == k && AllDigits(s)
    ensures forall j :: 0 <= j < k ==> s[j] == '0'
  {
    if k == 0 then [] else Zeros(k - 1) + ['0']
  }

  /** `f"{i:0{w}d}"`: zero-padded to at least `w` characters, never truncated. */
  function ZeroPad(i: nat, w: nat): (s: string)
    ensures AllDigits(s)
    ensures |s| == if |Decimal(i)| < w then w else |Decimal(i)|
  {
    var d := Decimal(i);
    (if |d| < w then Zeros(w - |d|) else []) + d
  }

  lemma {:induction false} ParseLeadingZeros(k: nat, s: string)
    requires AllDigits(s)
    ensures AllDigits(Zeros(k) + s)
    ensures ParseDecimal(Zeros(k) + s) == ParseDecimal(s)
  {
    if s == [] {
      assert Zeros(k) + s == Zeros(k);
      ParseZeros(k);
    } else {
      var front := s[..|s| - 1];
      ParseLeadingZeros(k, front);
      assert (Zeros(k) + s)[..|Zeros(k) + s| - 1] == Zeros(k) + front;
    }
  }

  lemma {:induction false} ParseZeros(k: nat)
    ensures ParseDecimal(Zeros(k)) == 0
  {
    if k > 0 {
      assert Zeros(k)[..k - 1] == Zeros(k - 1);
      ParseZeros(k - 1);
    }
  }

  /** Zero padding loses no information: the padded string reads back as `i`. */
  lemma ParseZeroPad(i: nat, w: nat)
    ensures ParseDecimal(ZeroPad(i, w)) == i
  {
    var d := Decimal(i);
    ParseDecimalOfDecimal(i);
    if |d| < w {
      ParseLeadingZeros(w - |d|, d);
    } else {
      assert ZeroPad(i, w) == d;
    }
  }

  lemma ZeroPadInjective(i: nat, j: nat, w: nat)
    requires ZeroPad(i, w) == ZeroPad(j, w)
    ensures i == j
  {
    ParseZeroPad(i, w);
    ParseZeroPad(j, w);
  }

  // ---------------------------------------------------------- digit strip

  /** `re.sub(r'[^\d]', '', s)`: the digits of `s`, in order. */
  function StripNonDigits(s: string): (r: string)
    ensures AllDigits(r) && |r| <= |s|
  {
    if s == [] then []
    else (if IsDigit(s[0]) then [s[0]] else []) + StripNonDigits(s[1..])
  }

  lemma {:induction false} StripAppend(a: string, b: string)
    ensures StripNonDigits(a + b) == StripNonDigits(a) + StripNonDigits(b)
  {
    if a == [] {
      assert a + b == b;
    } else {
      assert (a + b)[1..] == a[1..] + b;
      StripAppend(a[1..], b);
    }
  }

  /** A string of digits is its own strip, so stripping is idempotent. */
  lemma {:induction false} StripOfDigits(s: string)
    requires AllDigits(s)
    ensures StripNonDigits(s) == s
  {
    if s != [] {
      StripOfDigits(s[1..]);
    }
  }

  lemma StripIdempotent(s: string)
    ensures StripNonDigits(StripNonDigits(s)) == StripNonDigits(s)
  {
    StripOfDigits(StripNonDigits(s));
  }

  lemma {:induction false} StripNoDigits(s: string)
    requires forall i :: 0 <= i < |s| ==> !IsDigit(s[i])
    ensures StripNonDigits(s) == []
  {
    if s != [] {
      StripNoDigits(s[1..]);
    }
  }

  /** The strip keeps exactly the digit characters: its result is the
      subsequence of `s` selected by `IsDigit`, position by position. */
  lemma {:induction false} StripIsDigitSubsequence(s: string)
    ensures |StripNonDigits(s)| == DigitCount(s)
    ensures forall i :: 0 <= i < |s| && IsDigit(s[i]) ==>
              DigitCount(s[..i]) < |StripNonDigits(s)| &&
              StripNonDigits(s)[DigitCount(s[..i])] == s[i]
  {
    if s != [] {
      StripIsDigitSubsequence(s[1..]);
      forall i | 0 < i < |s| ensures DigitCount(s[..i]) == (if IsDigit(s[0]) then 1 else 0) + DigitCount(s[1..][..i - 1]) {
        assert s[..i][1..] == s[1..][..i - 1];
      }
    }
  }

  function DigitCount(s: string): nat
  {
    if s == [] then 0 else (if IsDigit(s[0]) then 1 else 0) + DigitCount(s[1..])
  }

  // ---------------------------------------------------------- title case

  /** `str.title()`: a letter that follows a letter is lower-cased, any
      other letter is upper-cased; other characters are kept. */
  function Title(s: string): string
  {
    TitleAfter(s, false)
  }

  function TitleAfter(s: string, afterLetter: bool): (r: string)
    ensures |r| == |s|
  {
    if s == [] then []
    else
      var c := s[0];
      [if !IsLetter(c) then c else if afterLetter then Lower(c) else Upper(c)]
        + TitleAfter(s[1..], IsLetter(c))
  }

  /** The character `str.title()` puts at position `i`, judged from the input alone. */
  function TitleAt(s: string, i: nat): char
    requires i < |s|
  {
    var c := s[i];
    if !IsLetter(c) then c
    else if i > 0 && IsLetter(s[i - 1]) then Lower(c)
    else Upper(c)
  }

  lemma {:induction false} TitleAfterAt(s: string, afterLetter: bool, i: nat)
    requires i < |s|
    ensures TitleAfter(s, afterLetter)[i] ==
              if !IsLetter(s[i]) then s[i]
              else if (if i == 0 then afterLetter else IsLetter(s[i - 1])) then Lower(s[i])
              else Upper(s[i])
  {
    if i > 0 {
      TitleAfterAt(s[1..], IsLetter(s[0]), i - 1);
    }
  }

  /** Position by position, `Title` is `TitleAt`: upper case at the start of
      each run of letters, lower case inside it, other characters unchanged. */
  lemma TitleIsPointwise(s: string)
    ensures |Title(s)| == |s|
    ensures forall i :: 0 <= i < |s| ==> Title(s)[i] == TitleAt(s, i)
  {
    forall i | 0 <= i < |s| ensures Title(s)[i] == TitleAt(s, i) {
      TitleAfterAt(s, false, i);
    }
  }

  /** Title-casing keeps letters letters and non-letters unchanged, so a
      second application changes nothing. */
  lemma TitleIdempotent(s: string)
    ensures Title(Title(s)) == Title(s)
  {
    var t := Title(s);
    TitleIsPointwise(s);
    TitleIsPointwise(t);
    forall i | 0 <= i < |t| ensures Title(t)[i] == t[i] {
      assert IsLetter(t[i]) <==> IsLetter(s[i]);
      if i > 0 {
        assert IsLetter(t[i - 1]) <==> IsLetter(s[i - 1]);
      }
    }
  }

  // ------------------------------------------------------ string ordering

  /** Python's `<=` on strings: lexicographic by code point. */
  predicate LexLe(a: string, b: string)
  {
    if a == [] then true
    else if b == [] then false
    else a[0] < b[0] || (a[0] == b[0] && LexLe(a[1..], b[1..]))
  }

  lemma {:induction false} LexLeReflexive(a: string)
    ensures LexLe(a, a)
  {
    if a != [] {
      LexLeReflexive(a[1..]);
    }
  }

  lemma {:induction false} LexLeTotal(a: string, b: string)
    ensures LexLe(a, b) || LexLe(b, a)
  {
    if a != [] && b != [] && a[0] == b[0] {
      LexLeTotal(a[1..], b[1..]);
    }
  }

  lemma {:induction false} LexLeAntisymmetric(a: string, b: string)
    requires LexLe(a, b) && LexLe(b, a)
    ensures a == b
  {
    if a != [] && b != [] {
      LexLeAntisymmetric(a[1..], b[1..]);
      assert a == [a[0]] + a[1..] && b == [b[0]] + b[1..];
    }
  }

  lemma {:induction false} LexLeTransitive(a: string, b: string, c: string)
    requires LexLe(a, b) && LexLe(b, c)
    ensures LexLe(a, c)
  {
    if a != [] && b != [] && c != [] && a[0] == b[0] && b[0] == c[0] {
      LexLeTransitive(a[1..], b[1..], c[1..]);
    }
  }
}
