/** `won::config`: one process-wide string-to-string map. Integers are
    stored as their `std::to_string` text and read back with `std::stoi`,
    whose exceptions are part of the result here. */
module Configuration {
  import opened Common

  /** `int` is 32 bits wide. */
  const IntMin: int := -0x8000_0000
  const IntMax: int := 0x7fff_ffff

  predicate IsInt32(n: int) {
    IntMin <= n <= IntMax
  }

  type Config = map<string, string>

  const Empty: Config := map[]

  // ---------------------------------------------------------------------
  // Decimal text

  predicate IsDigit(c: char) {
    '0' <= c <= '9'
  }

  function DigitChar(d: nat): (c: char)
    requires d < 10
    ensures IsDigit(c) && DigitValue(c) == d
  {
    ('0' as int + d) as char
  }

  function DigitValue(c: char): (d: nat)
    requires IsDigit(c)
    ensures d < 10
  {
    c as int - '0' as int
  }

  /** The decimal digits of `n`, most significant first, without leading
      zeros. */
  function NatDigits(n: nat): (r: string)
    ensures |r| > 0 && forall i :: 0 <= i < |r| ==> IsDigit(r[i])
    ensures |r| > 1 ==> r[0] != '0'
    decreases n
  {
    if n < 10 then [DigitChar(n)]
    else NatDigits(n / 10) + [DigitChar(n % 10)]
  }

  /** `std::to_string(int)`: a minus sign for negatives, then the digits. */
  function ToDecimal(n: int): (r: string)
    ensures |r| > 0
    ensures n < 0 <==> r[0] == '-'
    ensures n >= 0 ==> IsDigit(r[0])
  {
    if n < 0 then "-" + NatDigits(-n) else NatDigits(n)
  }

  /** The value of a run of digits, most significant first. */
  function DigitsValue(ds: string): (v: nat)
    requires forall i :: 0 <= i < |ds| ==> IsDigit(ds[i])
    decreases |ds|
  {
    if |ds| == 0 then 0
    else DigitsValue(ds[..|ds| - 1]) * 10 + DigitValue(ds[|ds| - 1])
  }

  /** Reading the digits of a number gives the number back. */
  lemma {:induction false} DigitsValueOfNatDigits(n: nat)
    ensures DigitsValue(NatDigits(n)) == n
    decreases n
  {
    if n >= 10 {
      DigitsValueOfNatDigits(n / 10);
      var ds := NatDigits(n);
      assert ds[..|ds| - 1] == NatDigits(n / 10);
    }
  }

  /** `isspace` in the C locale. */
  predicate IsSpace(c: char) {
    c == ' ' || c == '\t' || c == '\n' || c == '\U{000B}' || c == '\U{000C}' || c == '\r'
  }

  /** The index of the first character of `s` from `i` on that is not
      white space. */
  function SkipSpace(s: string, i: nat): (j: nat)
    requires i <= |s|
    ensures i <= j <= |s|
    ensures forall k :: i <= k < j ==> IsSpace(s[k])
    ensures j < |s| ==> !IsSpace(s[j])
    decreases |s| - i
  {
    if i < |s| && IsSpace(s[i]) then SkipSpace(s, i + 1) else i
  }

  /** The end of the run of digits starting at `i`. */
  function DigitRunEnd(s: string, i: nat): (j: nat)
    requires i <= |s|
    ensures i <= j <= |s|
    ensures forall k :: i <= k < j ==> IsDigit(s[k])
    ensures j < |s| ==> !IsDigit(s[j])
    decreases |s| - i
  {
    if i < |s| && IsDigit(s[i]) then DigitRunEnd(s, i + 1) else i
  }

  /** Where the digits of a number written at the start of `s` begin:
      after white space and at most one sign. */
  function DigitsStart(s: string): (j: nat)
    ensures j <= |s|
  {
    var i := SkipSpace(s, 0);
    if i < |s| && (s[i] == '+' || s[i] == '-') then i + 1 else i
  }

  /** `s` starts, after white space and a sign, with at least one digit. */
  predicate HasLeadingInt(s: string) {
    DigitRunEnd(s, DigitsStart(s)) > DigitsStart(s)
  }

  /** The value of the digits `s[j..k]`. */
  function RunValue(s: string, j: nat, k: nat): nat
    requires j <= k <= |s| && forall d :: j <= d < k ==> IsDigit(s[d])
  {
    assert forall d :: 0 <= d < k - j ==> s[j..k][d] == s[j + d];
    DigitsValue(s[j..k])
  }

  /** The number written at the start of `s`, of any size: its digits,
      negated after a minus sign. */
  function LeadingInt(s: string): int {
    var i := SkipSpace(s, 0);
    var j := DigitsStart(s);
    var m: int := RunValue(s, j, DigitRunEnd(s, j));
    if i < |s| && s[i] == '-' then -m else m
  }

  datatype StoiError = InvalidArgument | OutOfRange

  datatype Parsed = Parsed(value: int) | Failed(error: StoiError)

  /** `std::stoi` in base 10: skip white space, take an optional sign, then
      the longest run of digits; no digits throws `invalid_argument`, a
      value outside `int` throws `out_of_range`. Anything after the digits
      is ignored. */
  function Stoi(s: string): (r: Parsed)
    ensures r == Failed(InvalidArgument) <==> !HasLeadingInt(s)
    ensures r.Parsed? ==> IsInt32(r.value)
    // the value read is the number the text starts with ...
    ensures r.Parsed? ==> r.value == LeadingInt(s)
    // ... and it is out of range exactly when that number is outside `int`
    ensures r == Failed(OutOfRange) <==> HasLeadingInt(s) && !IsInt32(LeadingInt(s))
  {
    var i := SkipSpace(s, 0);
    var negative := i < |s| && s[i] == '-';
    var j := if i < |s| && (s[i] == '+' || s[i] == '-') then i + 1 else i;
    var k := DigitRunEnd(s, j);
    if k == j then Failed(InvalidArgument)
    else
      assert forall d :: 0 <= d < k - j ==> s[j..k][d] == s[j + d];
      var magnitude: int := DigitsValue(s[j..k]);
      var v := if negative then -magnitude else magnitude;
      if IsInt32(v) then Parsed(v) else Failed(OutOfRange)
  }

  /** `std::stoi(std::to_string(n)) == n` for every `int`. */
  lemma StoiOfDecimal(n: int)
    requires IsInt32(n)
    ensures Stoi(ToDecimal(n)) == Parsed(n)
  {
    var s := ToDecimal(n);
    var m: nat := if n < 0 then -n else n;
    var j := if n < 0 then 1 else 0;
    assert SkipSpace(s, 0) == 0;
    assert s[j..] == NatDigits(m);
    DigitRunCovers(s, j);
    DigitsValueOfNatDigits(m);
    assert s[j..|s|] == NatDigits(m);
  }

  lemma {:induction false} DigitRunCovers(s: string, j: nat)
    requires j <= |s| && forall k :: j <= k < |s| ==> IsDigit(s[k])
    ensures DigitRunEnd(s, j) == |s|
    decreases |s| - j
  {
    if j < |s| {
      DigitRunCovers(s, j + 1);
    }
  }

  /** Parsing skips leading blanks, takes the sign, and stops at the first
      character that is not a digit. */
  lemma StoiReadsPrefix()
    ensures Stoi(" -42") == Parsed(-42)
    ensures Stoi("12abc") == Parsed(12)
  {
    assert SkipSpace(" -42", 0) == 1;
    assert DigitRunEnd(" -42", 2) == 4;
    assert " -42"[2..4] == "42" && DigitsValue("42") == 42 by {
      assert "42"[..1] == "4";
    }
    assert DigitRunEnd("12abc", 0) == 2;
    assert "12abc"[0..2] == "12" && DigitsValue("12") == 12 by {
      assert "12"[..1] == "1";
    }
  }

  /** Text without a leading number throws `invalid_argument`. */
  lemma StoiRejectsText()
    ensures Stoi("abc") == Failed(InvalidArgument)
  {
    assert SkipSpace("abc", 0) == 0 && DigitRunEnd("abc", 0) == 0;
  }

  /** One past the largest `int` throws `out_of_range`. */
  lemma StoiRejectsOverflow()
    ensures Stoi(ToDecimal(IntMax + 1)) == Failed(OutOfRange)
  {
    var s := ToDecimal(IntMax + 1);
    assert SkipSpace(s, 0) == 0;
    DigitRunCovers(s, 0);
    DigitsValueOfNatDigits(IntMax + 1);
    assert s[0..|s|] == s;
  }

  // ---------------------------------------------------------------------
  // The store

  /** `SetString`: insert or overwrite. */
  function SetString(c: Config, key: string, value: string): (r: Config)
    ensures TryGetString(r, key, "") == (true, value)
    ensures forall k :: k != key ==> (k in r <==> k in c) && (k in c ==> r[k] == c[k])
  {
    c[key := value]
  }

  /** `TryGetString`: the stored text, or false with `out` untouched. */
  function TryGetString(c: Config, key: string, out: string): (r: (bool, string))
    ensures r.0 <==> key in c
    ensures r.0 ==> r.1 == c[key]
    ensures !r.0 ==> r.1 == out
  {
    if key in c then (true, c[key]) else (false, out)
  }

  /** `SetInt`: store the decimal text. */
  function SetInt(c: Config, key: string, n: int): (r: Config)
    requires IsInt32(n)
    ensures TryGetString(r, key, "") == (true, ToDecimal(n))
    ensures forall k :: k != key ==> (k in r <==> k in c) && (k in c ==> r[k] == c[k])
  {
    SetString(c, key, ToDecimal(n))
  }

  /** What `TryGetInt` does: return normally (found or not, with the value
      it leaves in `out`), or throw from `std::stoi`. */
  datatype IntLookup = Returned(found: bool, value: int) | Threw(error: StoiError)

  /** `TryGetInt`: false with `out` untouched for a missing key; otherwise
      the stored text run through `std::stoi`. */
  function TryGetInt(c: Config, key: string, out: int): (r: IntLookup)
    ensures key !in c ==> r == Returned(false, out)
    ensures key in c ==> (r.Returned? <==> Stoi(c[key]).Parsed?)
    ensures key in c && r.Returned? ==> r.found && r.value == Stoi(c[key]).value
  {
    if key !in c then Returned(false, out)
    else
      match Stoi(c[key])
      case Parsed(v) => Returned(true, v)
      case Failed(e) => Threw(e)
  }

  /** An integer comes back as itself, whatever was stored under the key
      before. */
  lemma SetIntThenGetInt(c: Config, key: string, n: int, out: int)
    requires IsInt32(n)
    ensures TryGetInt(SetInt(c, key, n), key, out) == Returned(true, n)
  {
    StoiOfDecimal(n);
  }

  /** A string that is not a number makes `TryGetInt` throw. */
  lemma TextIsNotAnInt(c: Config, key: string, out: int)
    ensures TryGetInt(SetString(c, key, "abc"), key, out) == Threw(InvalidArgument)
  {
    StoiRejectsText();
  }

  /** `Clear`: no key is left. */
  function Clear(c: Config): (r: Config)
    ensures forall k, out :: TryGetString(r, k, out) == (false, out)
  {
    Empty
  }
}
