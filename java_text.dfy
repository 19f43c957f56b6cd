/**
  The few java.lang.String and java.lang.Integer operations the core relies on,
  over Dafny strings, which are sequences of Unicode scalar values (Java counts
  UTF-16 code units instead, so indices differ on text outside the Basic
  Multilingual Plane).
*/
module JavaText {

  /** Java's 32-bit `int`. */
  newtype int32 = x: int | -0x8000_0000 <= x < 0x8000_0000

  /** `s.startsWith(prefix)`: case-sensitive, and true for the empty prefix. */
  predicate StartsWith(s: string, prefix: string) {
    |prefix| <= |s| && s[..|prefix|] == prefix
  }

  /** Extending a prefix by one character tests one more position. */
  lemma StartsWithExtended(s: string, prefix: string, c: char)
    ensures StartsWith(s, prefix + [c]) <==> StartsWith(s, prefix) && |s| > |prefix| && s[|prefix|] == c
  {
    if StartsWith(s, prefix + [c]) {
      assert s[..|prefix|] == (prefix + [c])[..|prefix|];
      assert s[|prefix|] == (prefix + [c])[|prefix|];
    }
    if StartsWith(s, prefix) && |s| > |prefix| && s[|prefix|] == c {
      assert s[..|prefix| + 1] == s[..|prefix|] + [s[|prefix|]];
    }
  }

  /** A concatenation starts with its first part. */
  lemma StartsWithConcat(prefix: string, rest: string)
    ensures StartsWith(prefix + rest, prefix)
    ensures (prefix + rest)[|prefix|..] == rest
  {
    assert (prefix + rest)[..|prefix|] == prefix;
  }

  /** `s.endsWith(suffix)`: case-sensitive, and true for the empty suffix. */
  predicate EndsWith(s: string, suffix: string) {
    |suffix| <= |s| && s[|s| - |suffix|..] == suffix
  }

  /** `s.replace(from, to)` for one-character target and replacement: every occurrence is replaced. */
  function Replace(s: string, from: char, to: char): (r: string)
    ensures |r| == |s|
    ensures forall i :: 0 <= i < |s| ==> r[i] == if s[i] == from then to else s[i]
  {
    if s == [] then []
    else [if s[0] == from then to else s[0]] + Replace(s[1..], from, to)
  }

  /** `s.lastIndexOf(c)`: the index of the last occurrence of `c`, or -1 when there is none. */
  function LastIndexOf(s: string, c: char): (r: int)
    ensures r == -1 <==> c !in s
    ensures r != -1 ==> 0 <= r < |s| && s[r] == c && c !in s[r + 1..]
  {
    if s == [] then -1
    else if s[|s| - 1] == c then |s| - 1
    else LastIndexOf(s[..|s| - 1], c)
  }

  predicate IsDigit(c: char) {
    '0' <= c <= '9'
  }

  predicate AllDigits(s: string) {
    forall i :: 0 <= i < |s| ==> IsDigit(s[i])
  }

  function DigitChar(d: nat): (c: char)
    requires d < 10
    ensures IsDigit(c) && c as int - '0' as int == d
  {
    ('0' as int + d) as char
  }

  /** Decimal digits of `n` without leading zeros, as `Integer.toString` writes them. */
  function NatToString(n: nat): (r: string)
    ensures |r| >= 1 && AllDigits(r)
    ensures r[0] == '0' ==> n == 0
    decreases n
  {
    if n < 10 then [DigitChar(n)] else NatToString(n / 10) + [DigitChar(n % 10)]
  }

  /** The value of a string of decimal digits; the reading-back partner of NatToString. */
  function ParseNat(s: string): nat
    requires AllDigits(s)
  {
    if s == [] then 0 else ParseNat(s[..|s| - 1]) * 10 + (s[|s| - 1] as int - '0' as int)
  }

  lemma {:induction false} ParseNatToString(n: nat)
    ensures ParseNat(NatToString(n)) == n
    decreases n
  {
    var r := NatToString(n);
    if n >= 10 {
      ParseNatToString(n / 10);
      assert r[..|r| - 1] == NatToString(n / 10);
    }
  }

  /** `Integer.toString(n)`: a minus sign for negative values, then the decimal digits. */
  function IntToString(n: int32): (r: string)
    ensures |r| >= 1
    ensures r[0] == '-' <==> n < 0
    ensures n >= 0 ==> AllDigits(r)
    ensures n < 0 ==> AllDigits(r[1..])
    ensures n >= 0 && r[0] == '0' ==> n == 0
    ensures n < 0 ==> |r| >= 2 && r[1] != '0'
  {
    if n < 0 then
      var digits := NatToString(-(n as int));
      assert ("-" + digits)[1..] == digits;
      "-" + digits
    else NatToString(n as int)
  }

  /** Reads back a string written by IntToString. */
  function ParseInt(s: string): int
    requires |s| >= 1
    requires if s[0] == '-' then AllDigits(s[1..]) else AllDigits(s)
  {
    if s[0] == '-' then -(ParseNat(s[1..]) as int) else ParseNat(s)
  }

  lemma IntToStringRoundTrip(n: int32)
    ensures ParseInt(IntToString(n)) == n as int
  {
    if n < 0 {
      ParseNatToString(-(n as int));
      assert IntToString(n)[1..] == NatToString(-(n as int));
    } else {
      ParseNatToString(n as int);
    }
  }
}
