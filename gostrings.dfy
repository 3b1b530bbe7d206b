/**
 * The parts of Go's standard string handling that the program's control
 * logic depends on: strings.TrimRight with the cutset "\n", strings.TrimSpace,
 * strconv.Atoi and the ordering sort.Strings uses. A Go string is modelled as
 * a sequence of Unicode scalar values; comparing those by code point orders
 * strings exactly as comparing their UTF-8 bytes does.
 */
module GoStrings {
  import opened Wrappers

  // ----- strings.TrimRight(s, "\n") -----

  /** Removes every trailing '\n' (and nothing else) from s. */
  function TrimRightNewlines(s: string): (r: string)
    ensures r <= s
    ensures |r| == 0 || r[|r| - 1] != '\n'
    ensures forall i | |r| <= i < |s| :: s[i] == '\n'
    decreases |s|
  {
    if |s| > 0 && s[|s| - 1] == '\n' then TrimRightNewlines(s[..|s| - 1]) else s
  }

  /** A line read together with its terminating '\n' trims to the line itself. */
  lemma {:induction false} TrimReadLine(line: string)
    requires |line| == 0 || line[|line| - 1] != '\n'
    ensures TrimRightNewlines(line + "\n") == line
  {
    assert (line + "\n")[..|line|] == line;
  }

  // ----- strings.TrimSpace -----

  /** Go's unicode.IsSpace: the Latin-1 spaces and the other White_Space code points. */
  predicate IsSpace(c: char) {
    var x := c as int;
    (9 <= x <= 13) || x == 0x20 || x == 0x85 || x == 0xA0 || x == 0x1680
    || (0x2000 <= x <= 0x200A) || x == 0x2028 || x == 0x2029 || x == 0x202F
    || x == 0x205F || x == 0x3000
  }

  predicate AllSpace(s: string) {
    forall i | 0 <= i < |s| :: IsSpace(s[i])
  }

  /** The length of the run of white space that starts s. */
  function LeadingSpaces(s: string): (k: nat)
    ensures k <= |s| && AllSpace(s[..k])
    ensures k == |s| || !IsSpace(s[k])
    decreases |s|
  {
    if |s| > 0 && IsSpace(s[0]) then
      var k := 1 + LeadingSpaces(s[1..]);
      assert forall i | 1 <= i < k :: s[..k][i] == s[1..][..k - 1][i - 1];
      k
    else 0
  }

  /** s without its trailing white space. */
  function TrimRightSpace(s: string): (r: string)
    ensures r <= s && AllSpace(s[|r|..])
    ensures |r| == 0 || !IsSpace(r[|r| - 1])
    decreases |s|
  {
    if |s| > 0 && IsSpace(s[|s| - 1]) then
      var r := TrimRightSpace(s[..|s| - 1]);
      assert s[|r|..] == s[..|s| - 1][|r|..] + [s[|s| - 1]];
      r
    else s
  }

  /**
   * strings.TrimSpace: the slice of s left after removing its leading and
   * trailing white space; only white space is removed.
   */
  function TrimSpace(s: string): (r: string)
    ensures LeadingSpaces(s) + |r| <= |s|
    ensures r == s[LeadingSpaces(s)..LeadingSpaces(s) + |r|]
    ensures AllSpace(s[LeadingSpaces(s) + |r|..])
    ensures |r| == 0 || (!IsSpace(r[0]) && !IsSpace(r[|r| - 1]))
  {
    var k := LeadingSpaces(s);
    var r := TrimRightSpace(s[k..]);
    assert s[k + |r|..] == s[k..][|r|..];
    r
  }

  /** Trimming white space is idempotent. */
  lemma TrimSpaceIdempotent(s: string)
    ensures TrimSpace(TrimSpace(s)) == TrimSpace(s)
  {
    var r := TrimSpace(s);
    if |r| > 0 {
      assert LeadingSpaces(r) == 0;
      assert TrimRightSpace(r) == r;
    }
  }

  // ----- strconv.Atoi -----

  const MinInt64: int := -0x8000_0000_0000_0000
  const MaxInt64: int := 0x7FFF_FFFF_FFFF_FFFF

  predicate IsDigit(c: char) {
    '0' <= c <= '9'
  }

  predicate AllDigits(s: string) {
    forall i | 0 <= i < |s| :: IsDigit(s[i])
  }

  /** The value of a string of decimal digits, most significant first. */
  function DigitsValue(s: string): nat
    requires AllDigits(s)
    decreases |s|
  {
    if |s| == 0 then 0
    else DigitsValue(s[..|s| - 1]) * 10 + (s[|s| - 1] as int - '0' as int)
  }

  /** Decimal integer syntax: an optional '+' or '-', then at least one digit. */
  predicate IsDecimal(s: string) {
    |s| > 0 && AllDigits(s[1..]) && (IsDigit(s[0]) || ((s[0] == '+' || s[0] == '-') && |s| > 1))
  }

  /** The value of decimal integer text; leading zeros and a '+' sign do not change it. */
  function DecimalValue(s: string): int
    requires IsDecimal(s)
  {
    if s[0] == '-' then var m: int := DigitsValue(s[1..]); -m
    else if s[0] == '+' then DigitsValue(s[1..])
    else
      assert AllDigits(s) by { assert forall i | 1 <= i < |s| :: s[i] == s[1..][i - 1]; }
      DigitsValue(s)
  }

  /**
   * strconv.Atoi on a 64-bit platform: an optional '+' or '-' followed by at
   * least one decimal digit, whose value fits in an int64; anything else is
   * an error.
   */
  function Atoi(s: string): (r: Option<int>)
    ensures r.Some? <==> IsDecimal(s) && MinInt64 <= DecimalValue(s) <= MaxInt64
    ensures r.Some? ==> r.value == DecimalValue(s)
  {
    var digits := if |s| > 0 && (s[0] == '+' || s[0] == '-') then s[1..] else s;
    if |digits| == 0 || !AllDigits(digits) then None
    else
      var magnitude: int := DigitsValue(digits);
      var v := if s[0] == '-' then -magnitude else magnitude;
      if MinInt64 <= v <= MaxInt64 then Some(v) else None
  }

  function DigitChar(d: int): (c: char)
    requires 0 <= d < 10
    ensures IsDigit(c)
  {
    ('0' as int + d) as char
  }

  /** The shortest decimal rendering of n (what strconv.Itoa prints). */
  function FormatNat(n: nat): (s: string)
    ensures |s| > 0 && AllDigits(s)
    decreases n
  {
    if n < 10 then [DigitChar(n)] else FormatNat(n / 10) + [DigitChar(n % 10)]
  }

  function FormatInt(n: int): string {
    if n < 0 then "-" + FormatNat(-n) else FormatNat(n)
  }

  lemma {:induction false} DigitsValueFormatNat(n: nat)
    ensures DigitsValue(FormatNat(n)) == n
    decreases n
  {
    var s := FormatNat(n);
    if n >= 10 {
      DigitsValueFormatNat(n / 10);
      assert s[..|s| - 1] == FormatNat(n / 10);
    }
  }

  /** Atoi reads back every int64 in its decimal rendering. */
  lemma AtoiFormatInt(n: int)
    requires MinInt64 <= n <= MaxInt64
    ensures Atoi(FormatInt(n)) == Some(n)
  {
    var s := FormatInt(n);
    if n < 0 {
      var m := FormatNat(-n);
      DigitsValueFormatNat(-n);
      assert s == "-" + m && s[0] == '-' && s[1..] == m;
    } else {
      DigitsValueFormatNat(n);
      assert IsDigit(s[0]);
    }
  }

  /** Leading zeros and a '+' are accepted; white space, an empty string and a bare sign are not. */
  lemma AtoiExamples()
    ensures Atoi("14") == Some(14)
    ensures Atoi("+14") == Some(14) && Atoi("014") == Some(14)
    ensures Atoi("-3") == Some(-3)
    ensures Atoi("") == None && Atoi("-") == None && Atoi(" 14") == None && Atoi("1e3") == None
  {
    assert DigitsValue("1") == 1;
    assert DigitsValue("01") == 1;
    assert DigitsValue("14") == 14 by { assert "14"[..1] == "1"; }
    assert DigitsValue("014") == 14 by { assert "014"[..2] == "01"; assert "01"[..1] == "0"; }
    assert "+14"[1..] == "14" && "-3"[1..] == "3";
    assert !IsDigit(" 14"[0]) && !IsDigit("1e3"[1]);
  }

  // ----- the byte-wise string order of sort.Strings -----

  /** a < b in Go: lexicographic by code point, a proper prefix coming first. */
  predicate Below(a: string, b: string)
    decreases |a|
  {
    if |a| == 0 then |b| > 0
    else |b| > 0 && (a[0] < b[0] || (a[0] == b[0] && Below(a[1..], b[1..])))
  }

  lemma {:induction false} BelowIrreflexive(a: string)
    ensures !Below(a, a)
    decreases |a|
  {
    if |a| > 0 { BelowIrreflexive(a[1..]); }
  }

  lemma {:induction false} BelowTransitive(a: string, b: string, c: string)
    requires Below(a, b) && Below(b, c)
    ensures Below(a, c)
    decreases |a|
  {
    if |a| > 0 && a[0] == b[0] && b[0] == c[0] {
      BelowTransitive(a[1..], b[1..], c[1..]);
    }
  }

  lemma {:induction false} BelowTotal(a: string, b: string)
    requires a != b
    ensures Below(a, b) || Below(b, a)
    decreases |a|
  {
    if |a| > 0 && |b| > 0 && a[0] == b[0] {
      assert a == [a[0]] + a[1..] && b == [b[0]] + b[1..];
      BelowTotal(a[1..], b[1..]);
    }
  }
}
