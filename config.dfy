/**
 * Read-only lookups over a loaded properties map: required strings, optional strings with a
 * default, and decimal int/long settings. They are functions of the map, so none can change it.
 */
module Config {
  import opened Wrappers
  import opened Text
  import opened Secrets

  /** java.util.Properties once loaded: setting name to raw (untrimmed) text. */
  type Properties = map<string, string>

  const IntMin: int := -0x8000_0000
  const IntMax: int := 0x7FFF_FFFF
  const LongMin: int := -0x8000_0000_0000_0000
  const LongMax: int := 0x7FFF_FFFF_FFFF_FFFF

  /** True when the setting is absent or blank once trimmed. */
  predicate Missing(p: Properties, key: string)
  {
    key !in p || Trim(p[key]) == ""
  }

  /** Config.req: the trimmed value, or "Missing property: <key>" when absent or blank. */
  function Req(p: Properties, key: string): (r: Result<string, Failure>)
    ensures r.Failure? <==> Missing(p, key)
    ensures r.Failure? ==> r.error == IllegalArgument("Missing property: " + key)
    ensures r.Success? ==> key in p && r.value == Trim(p[key])
  {
    if Missing(p, key) then Failure(IllegalArgument("Missing property: " + key))
    else Success(Trim(p[key]))
  }

  /** What Req promises its callers: its value is never empty and has no surrounding blanks. */
  lemma ReqValueIsTrimmed(p: Properties, key: string)
    requires Req(p, key).Success?
    ensures Req(p, key).value != ""
    ensures Trim(Req(p, key).value) == Req(p, key).value
    ensures !IsTrimmed(Req(p, key).value[0])
    ensures !IsTrimmed(Req(p, key).value[|Req(p, key).value| - 1])
  {
    TrimIdempotent(p[key]);
    var _ := TrimIsSlice(p[key]);
  }

  /** Config.get: the trimmed value (possibly ""), or the default untouched when absent. */
  function Get(p: Properties, key: string, default: string): (r: string)
    ensures key !in p ==> r == default
    ensures key in p ==> r == Trim(p[key])
  {
    if key in p then Trim(p[key]) else default
  }

  predicate IsDigit(c: char) { '0' <= c <= '9' }

  predicate AllDigits(s: string) { forall k :: 0 <= k < |s| ==> IsDigit(s[k]) }

  /** The value of a run of decimal digits. */
  function DigitsValue(s: string): nat
    requires AllDigits(s)
  {
    if s == [] then 0 else DigitsValue(s[..|s| - 1]) * 10 + ((s[|s| - 1] as int) - ('0' as int))
  }

  /** Reading back the digits Text.Digits prints gives the number. */
  lemma {:induction false} DigitsValueOfDigits(n: nat)
    ensures AllDigits(Digits(n)) && DigitsValue(Digits(n)) == n
  {
    if n >= 10 {
      DigitsValueOfDigits(n / 10);
      var s := Digits(n);
      assert s[..|s| - 1] == Digits(n / 10);
    }
  }

  /** The NumberFormatException that parseInt and parseLong throw for s. */
  function BadNumber(s: string): Failure
  {
    NumberFormat("For input string: \"" + s + "\"")
  }

  /** The sign and the digits of a candidate number: an optional leading '-' or '+'. */
  function Unsigned(s: string): string
  {
    if s != [] && (s[0] == '-' || s[0] == '+') then s[1..] else s
  }

  /** The value of an optionally signed run of digits. */
  function SignedValue(s: string): int
    requires AllDigits(Unsigned(s))
  {
    var magnitude: int := DigitsValue(Unsigned(s));
    if s != [] && s[0] == '-' then -magnitude else magnitude
  }

  /**
   * Integer.parseInt / Long.parseLong over ASCII digits: an optional sign, at least one digit,
   * and a value within [lo, hi]; anything else is a NumberFormatException.
   */
  function ParseDecimal(s: string, lo: int, hi: int): (r: Result<int, Failure>)
    ensures r.Success? <==> Unsigned(s) != [] && AllDigits(Unsigned(s)) && lo <= SignedValue(s) <= hi
    ensures r.Success? ==> r.value == SignedValue(s) && lo <= r.value <= hi
    ensures r.Failure? ==> r.error == BadNumber(s)
  {
    var digits := Unsigned(s);
    if digits == [] || !AllDigits(digits) then Failure(BadNumber(s))
    else
      var v := SignedValue(s);
      if lo <= v <= hi then Success(v) else Failure(BadNumber(s))
  }

  /** Parsing the decimal text of any in-range number gives that number back. */
  lemma ParseDecimalOfDecimal(n: int, lo: int, hi: int)
    requires lo <= n <= hi
    ensures ParseDecimal(Decimal(n), lo, hi) == Success(n)
  {
    var s := Decimal(n);
    if n < 0 {
      assert s == "-" + Digits(-n);
      DigitsValueOfDigits(-n);
      assert Unsigned(s) == Digits(-n);
      assert SignedValue(s) == n;
    } else {
      assert s == Digits(n);
      DigitsValueOfDigits(n);
      assert s[0] != '-' && s[0] != '+';
      assert Unsigned(s) == Digits(n);
      assert SignedValue(s) == n;
    }
  }

  /** Config.getInt: the default when absent or blank, else Integer.parseInt of the trimmed text. */
  function GetInt(p: Properties, key: string, default: int): (r: Result<int, Failure>)
    ensures Missing(p, key) ==> r == Success(default)
    ensures !Missing(p, key) ==> r == ParseDecimal(Trim(p[key]), IntMin, IntMax)
  {
    if Missing(p, key) then Success(default) else ParseDecimal(Trim(p[key]), IntMin, IntMax)
  }

  /** Config.getLong: as getInt, with Long.parseLong's range. */
  function GetLong(p: Properties, key: string, default: int): (r: Result<int, Failure>)
    ensures Missing(p, key) ==> r == Success(default)
    ensures !Missing(p, key) ==> r == ParseDecimal(Trim(p[key]), LongMin, LongMax)
  {
    if Missing(p, key) then Success(default) else ParseDecimal(Trim(p[key]), LongMin, LongMax)
  }

  /** Two property sets that hold the same value, or none, for one key. */
  predicate SameSetting(p1: Properties, p2: Properties, key: string)
  {
    (key in p1 <==> key in p2) && (key in p1 ==> p1[key] == p2[key])
  }

  /** Every reader of a setting sees only that setting. */
  lemma ReadersSeeOnlyTheirKey(p1: Properties, p2: Properties, key: string, default: string, n: int)
    requires SameSetting(p1, p2, key)
    ensures Req(p1, key) == Req(p2, key)
    ensures Get(p1, key, default) == Get(p2, key, default)
    ensures GetInt(p1, key, n) == GetInt(p2, key, n)
    ensures GetLong(p1, key, n) == GetLong(p2, key, n)
  {
  }

  /**
   * A setting written as the decimal form of an int, with any blanks before and after it,
   * reads back as it.
   */
  lemma GetIntOfDecimal(p: Properties, key: string, default: int, n: int, before: string, after: string)
    requires IntMin <= n <= IntMax
    requires key in p && p[key] == before + Decimal(n) + after
    requires forall k :: 0 <= k < |before| ==> IsTrimmed(before[k])
    requires forall k :: 0 <= k < |after| ==> IsTrimmed(after[k])
    ensures GetInt(p, key, default) == Success(n)
  {
    TrimOfPadded(before, Decimal(n), after);
    ParseDecimalOfDecimal(n, IntMin, IntMax);
  }

  /**
   * A setting written as the decimal form of a long, with any blanks before and after it,
   * reads back as it.
   */
  lemma GetLongOfDecimal(p: Properties, key: string, default: int, n: int, before: string, after: string)
    requires LongMin <= n <= LongMax
    requires key in p && p[key] == before + Decimal(n) + after
    requires forall k :: 0 <= k < |before| ==> IsTrimmed(before[k])
    requires forall k :: 0 <= k < |after| ==> IsTrimmed(after[k])
    ensures GetLong(p, key, default) == Success(n)
  {
    TrimOfPadded(before, Decimal(n), after);
    ParseDecimalOfDecimal(n, LongMin, LongMax);
  }

  /**
   * A value that neither starts nor ends with a blank keeps nothing of the blanks around it
   * after trim(), whatever the two runs of blanks are.
   */
  lemma TrimOfPadded(before: string, s: string, after: string)
    requires forall k :: 0 <= k < |before| ==> IsTrimmed(before[k])
    requires forall k :: 0 <= k < |after| ==> IsTrimmed(after[k])
    requires s != [] && !IsTrimmed(s[0]) && !IsTrimmed(s[|s| - 1])
    ensures Trim(before + s + after) == s
  {
    var t := before + s + after;
    TrimStartDropsPrefix(before, s + after);
    assert before + (s + after) == t;
    TrimEndDropsSuffix(s, after);
  }

  /** trim() drops exactly a blank prefix in front of a non-blank character. */
  lemma TrimStartDropsPrefix(pad: string, rest: string)
    requires forall k :: 0 <= k < |pad| ==> IsTrimmed(pad[k])
    requires rest != [] && !IsTrimmed(rest[0])
    ensures TrimStart(pad + rest) == rest
  {
    var t := pad + rest;
    assert forall k :: 0 <= k < |pad| ==> IsTrimmed(t[k]) by {
      forall k | 0 <= k < |pad| ensures t[k] == pad[k] { }
    }
    assert !IsTrimmed(t[|pad|]) by { assert t[|pad|] == rest[0]; }
    assert LeadingBlanks(t) == |pad|;
    assert t[|pad|..] == rest;
  }

  /** trim() drops exactly a blank suffix after a non-blank character. */
  lemma TrimEndDropsSuffix(rest: string, pad: string)
    requires forall k :: 0 <= k < |pad| ==> IsTrimmed(pad[k])
    requires rest != [] && !IsTrimmed(rest[|rest| - 1])
    ensures TrimEnd(rest + pad) == rest
  {
    var t := rest + pad;
    assert forall k :: |rest| <= k < |t| ==> IsTrimmed(t[k]) by {
      forall k | |rest| <= k < |t| ensures t[k] == pad[k - |rest|] { }
    }
    assert !IsTrimmed(t[|rest| - 1]) by { assert t[|rest| - 1] == rest[|rest| - 1]; }
    assert TrailingBlanks(t) == |pad|;
    assert t[..|rest|] == rest;
  }
}
