/**
 * Character classes and string helpers that the Go and Python sources take
 * from their standard libraries: whitespace tests, strings.Fields, decimal
 * digits, strconv.Atoi, strconv.Itoa and the "%04d" key format.
 */
module Text {
  import opened Wrappers

  const MIN_INT64: int := -0x8000_0000_0000_0000
  const MAX_INT64: int := 0x7FFF_FFFF_FFFF_FFFF

  /** Go's unicode.IsSpace: the Latin-1 spaces plus the Unicode White_Space runes. */
  predicate GoSpace(c: char) {
    c == ' ' || c == '\t' || c == '\n' || c == '\r' || c == '\U{B}' || c == '\U{C}'
    || c == '\U{85}' || c == '\U{A0}' || c == '\U{1680}'
    || ('\U{2000}' <= c <= '\U{200A}')
    || c == '\U{2028}' || c == '\U{2029}' || c == '\U{202F}' || c == '\U{205F}' || c == '\U{3000}'
  }

  /** Python's str.isspace, which also counts the four information separators U+001C..U+001F. */
  predicate PySpace(c: char) {
    GoSpace(c) || ('\U{1C}' <= c <= '\U{1F}')
  }

  /** strings.TrimSpace(s) == "": the line holds nothing but whitespace. */
  predicate IsBlank(s: string) {
    forall i :: 0 <= i < |s| ==> GoSpace(s[i])
  }

  predicate NoSpace(s: string) {
    forall i :: 0 <= i < |s| ==> !GoSpace(s[i])
  }

  /** Length of the longest space-free prefix of s. */
  function WordLength(s: string): (n: nat)
    ensures n <= |s|
    ensures NoSpace(s[..n])
    ensures n == |s| || GoSpace(s[n])
    ensures s != [] && !GoSpace(s[0]) ==> n >= 1
  {
    if s == [] || GoSpace(s[0]) then 0 else 1 + WordLength(s[1..])
  }

  /** strings.Fields: the maximal runs of non-space characters, in order. */
  function Fields(s: string): (r: seq<string>)
    decreases |s|
  {
    if s == [] then []
    else if GoSpace(s[0]) then Fields(s[1..])
    else
      var n := WordLength(s);
      [s[..n]] + Fields(s[n..])
  }

  /** Every field is a non-empty run without whitespace. */
  lemma {:induction false} FieldsAreWords(s: string)
    ensures forall k :: 0 <= k < |Fields(s)| ==> Fields(s)[k] != [] && NoSpace(Fields(s)[k])
    decreases |s|
  {
    if s == [] {
    } else if GoSpace(s[0]) {
      FieldsAreWords(s[1..]);
    } else {
      FieldsAreWords(s[WordLength(s)..]);
    }
  }

  /** A space-free word followed by a separator (or nothing) is split off as one field. */
  lemma {:induction false} FieldsOfWord(w: string, rest: string)
    requires w != [] && NoSpace(w)
    requires rest == [] || GoSpace(rest[0])
    ensures Fields(w + rest) == [w] + Fields(rest)
  {
    var s := w + rest;
    WordLengthOfWord(w, rest);
    assert s[..|w|] == w;
    assert s[|w|..] == rest;
  }

  lemma {:induction false} WordLengthOfWord(w: string, rest: string)
    requires NoSpace(w)
    requires rest == [] || GoSpace(rest[0])
    ensures WordLength(w + rest) == |w|
    decreases |w|
  {
    var t := w + rest;
    if w == [] {
      assert t == rest;
    } else {
      assert t[0] == w[0] && !GoSpace(w[0]);
      assert t[1..] == w[1..] + rest;
      assert NoSpace(w[1..]) by {
        assert forall i :: 0 <= i < |w| - 1 ==> w[1..][i] == w[i + 1];
      }
      WordLengthOfWord(w[1..], rest);
    }
  }

  /** Every word is a non-empty run without whitespace. */
  predicate Words(ws: seq<string>) {
    forall k :: 0 <= k < |ws| ==> ws[k] != [] && NoSpace(ws[k])
  }

  /** The words joined by single spaces, as the "%s %s" formats write them. */
  function Unwords(ws: seq<string>): string {
    if ws == [] then "" else if |ws| == 1 then ws[0] else ws[0] + " " + Unwords(ws[1..])
  }

  /** strings.Fields splits a space-joined line back into its words. */
  lemma {:induction false} FieldsOfUnwords(ws: seq<string>)
    requires Words(ws)
    ensures Fields(Unwords(ws)) == ws
  {
    if |ws| == 1 {
      FieldsOfWord(ws[0], []);
      assert ws[0] + [] == ws[0];
    } else if |ws| > 1 {
      var rest := " " + Unwords(ws[1..]);
      assert Unwords(ws) == ws[0] + rest;
      FieldsOfWord(ws[0], rest);
      assert rest[1..] == Unwords(ws[1..]);
      FieldsOfUnwords(ws[1..]);
    }
  }

  predicate IsDigit(c: char) {
    '0' <= c <= '9'
  }

  predicate AllDigits(s: string) {
    forall i :: 0 <= i < |s| ==> IsDigit(s[i])
  }

  function DigitChar(d: nat): (c: char)
    requires d < 10
    ensures IsDigit(c) && (c as int) - ('0' as int) == d
  {
    ('0' as int + d) as char
  }

  /** The value of a string of decimal digits, most significant first. */
  function DigitsValue(s: string): nat
    requires AllDigits(s)
  {
    if s == [] then 0 else DigitsValue(s[..|s| - 1]) * 10 + ((s[|s| - 1] as int) - ('0' as int))
  }

  /** strconv.Itoa / fmt "%d" of a non-negative number: the shortest decimal spelling. */
  function Decimal(n: nat): (r: string)
    ensures |r| >= 1 && AllDigits(r)
    ensures DigitsValue(r) == n
    ensures r[0] == '0' ==> n == 0
  {
    if n < 10 then [DigitChar(n)]
    else
      var p := Decimal(n / 10);
      var r := p + [DigitChar(n % 10)];
      assert r[..|r| - 1] == p;
      r
  }

  function Zeros(k: nat): (z: string)
    ensures |z| == k && AllDigits(z)
  {
    if k == 0 then [] else Zeros(k - 1) + ['0']
  }

  /** Leading zeros do not change the value of a digit string. */
  lemma {:induction false} LeadingZeros(k: nat, s: string)
    requires AllDigits(s)
    ensures AllDigits(Zeros(k) + s) && DigitsValue(Zeros(k) + s) == DigitsValue(s)
    decreases |s|
  {
    var t := Zeros(k) + s;
    if s == [] {
      assert t == Zeros(k);
      ZerosValue(k);
    } else {
      assert t[..|t| - 1] == Zeros(k) + s[..|s| - 1];
      LeadingZeros(k, s[..|s| - 1]);
    }
  }

  lemma {:induction false} ZerosValue(k: nat)
    ensures DigitsValue(Zeros(k)) == 0
  {
    if k > 0 {
      assert Zeros(k)[..k - 1] == Zeros(k - 1);
      ZerosValue(k - 1);
    }
  }

  /** fmt.Sprintf("%04d", n): the decimal spelling left-padded with zeros to four digits. */
  function Pad4(n: nat): (r: string)
    ensures AllDigits(r) && |r| >= 4 && DigitsValue(r) == n
    ensures |Decimal(n)| >= 4 ==> r == Decimal(n)
  {
    var d := Decimal(n);
    if |d| >= 4 then d
    else
      LeadingZeros(4 - |d|, d);
      Zeros(4 - |d|) + d
  }

  /** The value of one or more decimal digits; None for the empty string or any other character. */
  function ParseDigits(s: string): Option<nat> {
    if s == [] || !IsDigit(s[|s| - 1]) then None
    else
      var d := (s[|s| - 1] as int) - ('0' as int);
      if |s| == 1 then Some(d)
      else
        match ParseDigits(s[..|s| - 1])
        case None => None
        case Some(v) => Some(v * 10 + d)
  }

  /** ParseDigits accepts exactly the non-empty digit strings, with their value. */
  lemma {:induction false} ParseDigitsMeans(s: string)
    ensures ParseDigits(s) == if s != [] && AllDigits(s) then Some(DigitsValue(s)) else None
    decreases |s|
  {
    if |s| > 1 {
      var p := s[..|s| - 1];
      ParseDigitsMeans(p);
      if !AllDigits(p) {
        var i :| 0 <= i < |p| && !IsDigit(p[i]);
        assert s[i] == p[i];
      }
    } else if |s| == 1 {
      assert s[..0] == [];
    }
  }

  /** What strconv.Atoi reads as digits: the string after one leading sign, if there is one. */
  function Unsigned(s: string): (body: string)
    ensures |s| > 0 && (s[0] == '+' || s[0] == '-') ==> s == [s[0]] + body
    ensures !(|s| > 0 && (s[0] == '+' || s[0] == '-')) ==> body == s
  {
    if |s| > 0 && (s[0] == '+' || s[0] == '-') then s[1..] else s
  }

  /** An optional sign followed by one or more decimal digits. */
  predicate SignedDigits(s: string) {
    Unsigned(s) != [] && AllDigits(Unsigned(s))
  }

  /** The value of a signed digit string, negated after a minus sign. */
  function SignedValue(s: string): int
    requires SignedDigits(s)
  {
    var m: int := DigitsValue(Unsigned(s));
    if s[0] == '-' then -m else m
  }

  /**
   * strconv.Atoi on a 64-bit platform: it accepts exactly an optional sign
   * followed by one or more decimal digits whose signed value is in the int64
   * range, and returns that value.
   */
  function Atoi(s: string): (r: Option<int>)
    ensures r.Some? <==> SignedDigits(s) && MIN_INT64 <= SignedValue(s) <= MAX_INT64
    ensures r.Some? ==> r.value == SignedValue(s)
  {
    var body := Unsigned(s);
    ParseDigitsMeans(body);
    match ParseDigits(body)
    case None => None
    case Some(m) =>
      var k: int := m;
      var v := if s[0] == '-' then -k else k;
      if MIN_INT64 <= v <= MAX_INT64 then Some(v) else None
  }

  /** The decimal and "%04d" spellings of a number in the int64 range convert back to it. */
  lemma AtoiOfDecimal(n: nat)
    requires n <= MAX_INT64
    ensures Atoi(Decimal(n)) == Some(n)
    ensures Atoi(Pad4(n)) == Some(n)
  {
    ParseDigitsMeans(Decimal(n));
    ParseDigitsMeans(Pad4(n));
  }

  /** strconv.Itoa: a minus sign before the digits of a negative number. */
  function Itoa(k: int): (r: string)
    ensures k >= 0 ==> r == Decimal(k)
    ensures k < 0 ==> r == "-" + Decimal(-k)
  {
    if k < 0 then "-" + Decimal(-k) else Decimal(k)
  }

  predicate StartsWith(s: string, prefix: string) {
    |prefix| <= |s| && s[..|prefix|] == prefix
  }

  /** Python's `pat in s` and Go's strings.Contains. */
  predicate HasInfix(s: string, pat: string) {
    exists i :: 0 <= i <= |s| && StartsWith(s[i..], pat)
  }

  // ---------------------------------------------------------------------------
  // Python's float() and str.strip()

  /** A character of the regular-expression classes [\d.] and [0-9.], with ASCII digits. */
  predicate IsNumChar(c: char) {
    IsDigit(c) || c == '.'
  }

  predicate NumChars(s: string) {
    forall i :: 0 <= i < |s| ==> IsNumChar(s[i])
  }

  /** How many characters a greedy [0-9.]+ takes at the start of s (0 when it cannot match). */
  function NumRun(s: string): (n: nat)
    ensures n <= |s| && NumChars(s[..n])
    ensures forall i :: 0 <= i < n ==> IsNumChar(s[i])
    ensures n == |s| || !IsNumChar(s[n])
  {
    if s == [] || !IsNumChar(s[0]) then 0
    else
      var n := 1 + NumRun(s[1..]);
      assert s[..n] == [s[0]] + s[1..][..n - 1];
      n
  }

  function Pow10(k: nat): (p: nat)
    ensures p >= 1
  {
    if k == 0 then 1 else 10 * Pow10(k - 1)
  }

  /** The position of the first '.', or |s| when there is none. */
  function DotIndex(s: string): (i: nat)
    ensures i <= |s| && (i < |s| ==> s[i] == '.')
    ensures forall j :: 0 <= j < i ==> s[j] != '.'
  {
    if s == [] then 0 else if s[0] == '.' then 0 else 1 + DotIndex(s[1..])
  }

  predicate HasDigit(s: string) {
    exists i :: 0 <= i < |s| && IsDigit(s[i])
  }

  predicate TwoDots(s: string) {
    exists i, j :: 0 <= i < j < |s| && s[i] == '.' && s[j] == '.'
  }

  /**
   * Python's float() on a run of digits and dots: digits, optionally a dot
   * and more digits, with at least one digit in all; anything else raises.
   * The value is the exact decimal number (float rounding is not modelled).
   */
  function ParseFloat(s: string): (r: Option<real>)
    requires NumChars(s)
  {
    var d := DotIndex(s);
    var whole := s[..d];
    var frac := if d < |s| then s[d + 1..] else "";
    assert AllDigits(whole) by {
      forall i | 0 <= i < |whole|
        ensures IsDigit(whole[i])
      {
        assert whole[i] == s[i] && IsNumChar(s[i]) && s[i] != '.';
      }
    }
    if d < |s| && DotIndex(frac) < |frac| then None
    else if whole == [] && frac == [] then None
    else
      assert AllDigits(frac) by {
        forall i | 0 <= i < |frac|
          ensures IsDigit(frac[i])
        {
          assert frac[i] == s[d + 1 + i] && IsNumChar(frac[i]) && frac[i] != '.';
        }
      }
      Some(DigitsValue(whole) as real + (DigitsValue(frac) as real) / (Pow10(|frac|) as real))
  }

  /** float() accepts a run of digits and dots exactly when it holds a digit and at most one dot. */
  lemma {:induction false} ParseFloatAccepts(s: string)
    requires NumChars(s)
    ensures ParseFloat(s).Some? <==> HasDigit(s) && !TwoDots(s)
  {
    var d := DotIndex(s);
    if d < |s| {
      var frac := s[d + 1..];
      var e := DotIndex(frac);
      if e < |frac| {
        assert s[d + 1 + e] == '.';
        assert TwoDots(s);
      } else {
        assert !TwoDots(s) by {
          forall i, j | 0 <= i < j < |s| && s[i] == '.'
            ensures s[j] != '.'
          {
            assert i >= d;
            assert frac[j - d - 1] == s[j];
          }
        }
        if d > 0 {
          assert IsDigit(s[0]);
        } else if |frac| > 0 {
          assert IsDigit(frac[0]) && s[d + 1] == frac[0];
        } else {
          assert !HasDigit(s) by {
            forall i | 0 <= i < |s|
              ensures !IsDigit(s[i])
            {
              assert i == d;
            }
          }
        }
      }
    } else {
      assert !TwoDots(s);
      if s != [] {
        assert IsDigit(s[0]);
      }
    }
  }

  /** A "%d" spelling reads back as the number itself. */
  lemma {:induction false} ParseFloatOfDecimal(n: nat)
    ensures NumChars(Decimal(n)) && ParseFloat(Decimal(n)) == Some(n as real)
  {
    var s := Decimal(n);
    DotIndexOfDigits(s);
    assert s[..|s|] == s;
  }

  lemma {:induction false} DotIndexOfDigits(s: string)
    requires AllDigits(s)
    ensures NumChars(s) && DotIndex(s) == |s|
  {
    if s != [] {
      DotIndexOfDigits(s[1..]);
    }
  }

  /** Digits, a dot and more digits read back as the whole part plus the scaled fraction. */
  lemma {:induction false} ParseFloatOfFraction(n: nat, frac: string)
    requires AllDigits(frac)
    ensures NumChars(Decimal(n) + "." + frac)
    ensures ParseFloat(Decimal(n) + "." + frac) == Some(n as real + (DigitsValue(frac) as real) / (Pow10(|frac|) as real))
  {
    var w := Decimal(n);
    var s := w + "." + frac;
    DottedShape(w, frac);
    assert s[..|w|] == w && s[|w| + 1..] == frac;
    DotIndexOfDigits(frac);
    ParseFloatDotted(s);
  }

  /** With exactly one dot, float() reads the digits before it and after it. */
  lemma {:induction false} ParseFloatDotted(s: string)
    requires NumChars(s) && DotIndex(s) < |s|
    requires DotIndex(s[DotIndex(s) + 1..]) == |s| - DotIndex(s) - 1
    requires AllDigits(s[..DotIndex(s)]) && AllDigits(s[DotIndex(s) + 1..])
    requires DotIndex(s) > 0
    ensures ParseFloat(s) == Some(DigitsValue(s[..DotIndex(s)]) as real
      + (DigitsValue(s[DotIndex(s) + 1..]) as real) / (Pow10(|s| - DotIndex(s) - 1) as real))
  {
  }

  lemma {:induction false} DottedShape(w: string, frac: string)
    requires AllDigits(w) && AllDigits(frac)
    ensures NumChars(w + "." + frac) && DotIndex(w + "." + frac) == |w|
  {
    var s := w + "." + frac;
    forall i | 0 <= i < |s|
      ensures IsNumChar(s[i]) && (i < |w| ==> s[i] != '.')
    {
      if i < |w| {
        assert s[i] == w[i];
      } else if i > |w| {
        assert s[i] == frac[i - |w| - 1];
      }
    }
    DotIndexAt(s, |w|);
  }

  /** A second dot anywhere makes float() raise. */
  lemma TwoDotsRejected(s: string, i: nat, j: nat)
    requires NumChars(s) && i < j < |s| && s[i] == '.' && s[j] == '.'
    ensures ParseFloat(s).None?
  {
    ParseFloatAccepts(s);
  }

  lemma {:induction false} DotIndexAt(s: string, k: nat)
    requires k < |s| && s[k] == '.' && forall j :: 0 <= j < k ==> s[j] != '.'
    ensures DotIndex(s) == k
  {
    if k > 0 {
      DotIndexAt(s[1..], k - 1);
    }
  }

  /** The number of whitespace characters str.strip removes from the front. */
  function LeadingSpaces(s: string): (n: nat)
    ensures n <= |s| && (forall i :: 0 <= i < n ==> PySpace(s[i])) && (n == |s| || !PySpace(s[n]))
  {
    if s == [] || !PySpace(s[0]) then 0 else 1 + LeadingSpaces(s[1..])
  }

  /** The number of whitespace characters str.strip removes from the back. */
  function TrailingSpaces(s: string): (n: nat)
    ensures n <= |s| && (forall i :: |s| - n <= i < |s| ==> PySpace(s[i])) && (n == |s| || !PySpace(s[|s| - 1 - n]))
  {
    if s == [] || !PySpace(s[|s| - 1]) then 0 else 1 + TrailingSpaces(s[..|s| - 1])
  }

  /** Python's str.strip(): the line without its leading and trailing whitespace. */
  function PyStrip(s: string): string {
    var lead := LeadingSpaces(s);
    if lead == |s| then "" else s[lead..|s| - TrailingSpaces(s)]
  }

  /** A line with a non-space is stripped to the slice between its whitespace runs. */
  lemma {:induction false} StripIsSlice(s: string)
    requires LeadingSpaces(s) < |s|
    ensures LeadingSpaces(s) + TrailingSpaces(s) < |s|
    ensures PyStrip(s) == s[LeadingSpaces(s)..|s| - TrailingSpaces(s)]
  {
    var lead, trail := LeadingSpaces(s), TrailingSpaces(s);
    assert !PySpace(s[lead]);
  }

  /** The ends of a non-empty strip are not whitespace. */
  lemma {:induction false} StripEnds(s: string)
    requires LeadingSpaces(s) < |s|
    ensures PyStrip(s) != []
    ensures !PySpace(PyStrip(s)[0]) && !PySpace(PyStrip(s)[|PyStrip(s)| - 1])
  {
    StripIsSlice(s);
    var lead, trail := LeadingSpaces(s), TrailingSpaces(s);
    var r := PyStrip(s);
    assert r[0] == s[lead];
    assert r[|r| - 1] == s[|s| - 1 - trail];
  }

  /**
   * strip leaves nothing of an all-whitespace line, otherwise the middle of the
   * line between whitespace runs, starting and ending with a non-space; and
   * stripping twice is stripping once.
   */
  lemma {:induction false} PyStripTrims(s: string)
    ensures PyStrip(s) == [] <==> forall i :: 0 <= i < |s| ==> PySpace(s[i])
    ensures PyStrip(s) != [] ==>
      && LeadingSpaces(s) + TrailingSpaces(s) < |s|
      && PyStrip(s) == s[LeadingSpaces(s)..|s| - TrailingSpaces(s)]
      && !PySpace(PyStrip(s)[0]) && !PySpace(PyStrip(s)[|PyStrip(s)| - 1])
    ensures PyStrip(PyStrip(s)) == PyStrip(s)
  {
    if LeadingSpaces(s) < |s| {
      StripIsSlice(s);
      StripEnds(s);
      var r := PyStrip(s);
      assert LeadingSpaces(r) == 0 && TrailingSpaces(r) == 0;
      assert r[0..|r|] == r;
    }
  }

  /** A greedy number run stops exactly where the digits and dots end. */
  lemma {:induction false} NumRunOf(num: string, rest: string)
    requires NumChars(num) && (rest == [] || !IsNumChar(rest[0]))
    ensures NumRun(num + rest) == |num|
  {
    var t := num + rest;
    assert forall k :: 0 <= k < |num| ==> t[k] == num[k];
    assert |rest| > 0 ==> t[|num|] == rest[0];
  }

  /** A slice of a slice is a slice of the original. */
  lemma SliceOfSlice<T>(s: seq<T>, lo: nat, hi: nat, a: nat, b: nat)
    requires lo <= hi <= |s| && a <= b <= hi - lo
    ensures s[lo..hi][a..b] == s[lo + a..lo + b]
  {
    forall k | 0 <= k < b - a
      ensures s[lo..hi][a..b][k] == s[lo + a..lo + b][k]
    {
      assert s[lo..hi][a..b][k] == s[lo..hi][a + k] == s[lo + a + k];
    }
  }
}
