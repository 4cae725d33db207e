/**
 * Key and value handling of the storage node (redis_kv_store/util/util.go):
 * argument checks, the numeric part of a key, and slice membership.
 */
module KvUtil {
  import opened Wrappers
  import opened Text

  /** A Go `any` value: None is nil. The values stored here are strings. */
  type Any = Option<string>

  /** util.Record: a key, its value and its version timestamp (milliseconds). */
  datatype Record = Record(key: string, value: Any, timestamp: int)

  const EMPTY_KEY: string := "The passed key is an empty string, which is invalid"
  const NIL_VALUE: string := "The passed value is nil, which is not allowed"
  const NO_NUMERIC_PART: string := "no numeric part found in key"
  const OUT_OF_RANGE: string := "value out of range"

  /** CheckKey: the error, if any. */
  function CheckKey(k: string): (err: Option<string>)
    ensures err.Some? <==> k == ""
    ensures err.Some? ==> err.value == EMPTY_KEY
  {
    if k == "" then Some(EMPTY_KEY) else None
  }

  /** CheckVal: the error, if any. */
  function CheckVal(v: Any): (err: Option<string>)
    ensures err.Some? <==> v.None?
    ensures err.Some? ==> err.value == NIL_VALUE
  {
    if v.None? then Some(NIL_VALUE) else None
  }

  /** CheckKeyAndValue: the key is checked first, then the value. */
  function CheckKeyAndValue(k: string, v: Any): (err: Option<string>)
    ensures err.Some? <==> k == "" || v.None?
    ensures k == "" ==> err == Some(EMPTY_KEY)
    ensures k != "" && v.None? ==> err == Some(NIL_VALUE)
  {
    var keyErr := CheckKey(k);
    if keyErr.Some? then keyErr else CheckVal(v)
  }

  /** Index of the first decimal digit of s, or |s| when it has none. */
  function RunStart(s: string): (i: nat)
    ensures i <= |s|
    ensures forall j :: 0 <= j < i ==> !IsDigit(s[j])
    ensures i < |s| ==> IsDigit(s[i])
  {
    if s == [] || IsDigit(s[0]) then 0 else 1 + RunStart(s[1..])
  }

  /** Length of the run of digits that starts s. */
  function DigitPrefix(s: string): (n: nat)
    ensures n <= |s| && AllDigits(s[..n])
    ensures n == |s| || !IsDigit(s[n])
  {
    if s == [] || !IsDigit(s[0]) then 0 else 1 + DigitPrefix(s[1..])
  }

  /** keyNumericRegex.FindString: the leftmost maximal run of digits, "" if there is none. */
  function FindDigits(s: string): (m: string)
    ensures m == "" <==> forall j :: 0 <= j < |s| ==> !IsDigit(s[j])
    ensures AllDigits(m)
  {
    var i := RunStart(s);
    var n := DigitPrefix(s[i..]);
    assert s[i..i + n] == s[i..][..n];
    s[i..i + n]
  }

  /** KeyToInt: the value of the key's first digit run; Atoi fails past the int64 range. */
  function KeyToInt(k: string): (r: Result<int>)
    ensures r.Err? <==> FindDigits(k) == "" || DigitsValue(FindDigits(k)) > MAX_INT64
    ensures r.Ok? ==> r.value == DigitsValue(FindDigits(k))
  {
    var m := FindDigits(k);
    if m == "" then Err(NO_NUMERIC_PART)
    else
      ParseDigitsMeans(m);
      match Atoi(m)
      case None => Err(OUT_OF_RANGE)
      case Some(n) => Ok(n)
  }

  /** Keys written as a digit-free prefix followed by "%04d" of n parse back to n. */
  lemma KeyToIntOfPadded(prefix: string, n: nat)
    requires forall j :: 0 <= j < |prefix| ==> !IsDigit(prefix[j])
    requires n <= MAX_INT64
    ensures KeyToInt(prefix + Pad4(n)) == Ok(n)
  {
    var s := prefix + Pad4(n);
    var p := Pad4(n);
    assert s[|prefix|] == p[0];
    assert RunStart(s) == |prefix|;
    assert s[|prefix|..] == p;
    assert DigitPrefix(p) == |p|;
    assert s[|prefix|..|prefix| + |p|] == p;
    assert FindDigits(s) == p;
    AtoiOfDecimal(n);
  }

  /** strconv.Itoa of a key in the int64 range parses back to the key. */
  lemma KeyToIntOfItoa(n: nat)
    requires n <= MAX_INT64
    ensures KeyToInt(Itoa(n)) == Ok(n)
  {
    var s := Decimal(n);
    assert RunStart(s) == 0;
    assert s[0..] == s;
    assert DigitPrefix(s) == |s|;
    assert s[0..|s|] == s;
    assert FindDigits(s) == s;
    AtoiOfDecimal(n);
  }

  /**
   * The digit run of strconv.Itoa(k) is the decimal spelling of |k|: a
   * negative key's '-' is not a digit, so the run starts after it.
   */
  lemma FindDigitsOfItoa(k: int)
    ensures FindDigits(Itoa(k)) == Decimal(if k < 0 then -k else k)
  {
    var d := Decimal(if k < 0 then -k else k);
    assert DigitPrefix(d) == |d|;
    assert d[0..|d|] == d;
    if k < 0 {
      var s := "-" + d;
      assert s[1..] == d;
      assert RunStart(s) == 1;
      assert s[1..1 + |d|] == d;
    } else {
      assert RunStart(d) == 0;
      assert d[0..] == d;
    }
  }

  /** Contains: whether e occurs in the slice. */
  method Contains(s: seq<string>, e: string) returns (found: bool)
    ensures found <==> e in s
  {
    for i := 0 to |s|
      invariant e !in s[..i]
    {
      if s[i] == e {
        return true;
      }
    }
    assert s[..|s|] == s;
    return false;
  }
}
