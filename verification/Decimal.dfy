/** The decimal reader used on the regulatory table. */
module Decimal {
  import opened Bytes

  predicate IsDigit(c: char) {
    '0' <= c <= '9'
  }

  /** The digits a string starts with. */
  function DigitPrefix(s: string): (p: string)
    ensures forall i | 0 <= i < |p| :: IsDigit(p[i])
    ensures |p| <= |s| && p == s[..|p|] && (|p| < |s| ==> !IsDigit(s[|p|]))
  {
    if s == [] || !IsDigit(s[0]) then [] else [s[0]] + DigitPrefix(s[1..])
  }

  function Digit(c: char): (d: nat)
    requires IsDigit(c)
  {
    (c - '0') as int
  }

  /** The number a digit string denotes. */
  function Value(digits: string): nat
    requires forall i | 0 <= i < |digits| :: IsDigit(digits[i])
  {
    if digits == [] then 0
    else Value(digits[..|digits| - 1]) * 10 + Digit(digits[|digits| - 1])
  }

  /** What the reader returns: the value of the leading digits modulo 256. */
  function Parsed(s: string): byte {
    Value(DigitPrefix(s)) % 256
  }

  method ParseDecimal(s: string) returns (v: byte)
    ensures v == Parsed(s)
  {
    ghost var p := DigitPrefix(s);
    var r: dword := 0;  // unsigned accumulator, wrapping at 2^32
    ghost var wraps: nat := 0;
    var i := 0;
    while i < |s| && IsDigit(s[i])
      invariant i <= |p|
      invariant wraps * 0x1_0000_0000 + r == Value(p[..i])
    {
      assert p[..i + 1][..i] == p[..i];
      assert p[i] == s[i];
      var next := r * 10 + Digit(s[i]);
      WrapStep(wraps, r, Digit(s[i]));
      wraps := wraps * 10 + next / 0x1_0000_0000;
      r := next % 0x1_0000_0000;
      i := i + 1;
    }
    assert p[..i] == p;
    WrapByte(wraps, r);
    v := r % 256;
  }

  /** One multiply-and-add of the wrapping accumulator, with the overflow carried along. */
  lemma WrapStep(wraps: nat, r: dword, d: nat)
    ensures var next := r * 10 + d;
      (wraps * 10 + next / 0x1_0000_0000) * 0x1_0000_0000 + next % 0x1_0000_0000
      == (wraps * 0x1_0000_0000 + r) * 10 + d
  {
  }

  lemma WrapByte(wraps: nat, r: dword)
    ensures (wraps * 0x1_0000_0000 + r) % 256 == r % 256
  {
  }

  /** Decimal printing. */
  function Print(n: nat): (s: string)
    ensures |s| > 0 && forall i | 0 <= i < |s| :: IsDigit(s[i])
  {
    if n < 10 then [n as char + '0'] else Print(n / 10) + [(n % 10) as char + '0']
  }

  lemma {:induction false} PrintValue(n: nat)
    ensures Value(Print(n)) == n
  {
    if n >= 10 {
      PrintValue(n / 10);
      assert Print(n)[..|Print(n)| - 1] == Print(n / 10);
    } else {
      assert Print(n)[..0] == [];
    }
  }

  function Zeros(k: nat): (s: string)
    ensures |s| == k && forall i | 0 <= i < k :: s[i] == '0'
  {
    seq(k, i => '0')
  }

  lemma {:induction false} LeadingZeros(k: nat, digits: string)
    requires forall i | 0 <= i < |digits| :: IsDigit(digits[i])
    ensures Value(Zeros(k) + digits) == Value(digits)
    decreases |digits|, k
  {
    var all := Zeros(k) + digits;
    if digits == [] {
      assert all == Zeros(k);
      if k > 0 {
        assert all[..k - 1] == Zeros(k - 1) + [];
        LeadingZeros(k - 1, []);
      }
    } else {
      assert all[..|all| - 1] == Zeros(k) + digits[..|digits| - 1];
      LeadingZeros(k, digits[..|digits| - 1]);
    }
  }

  lemma {:induction false} PrefixOf(digits: string, rest: string)
    requires forall i | 0 <= i < |digits| :: IsDigit(digits[i])
    requires rest == [] || !IsDigit(rest[0])
    ensures DigitPrefix(digits + rest) == digits
  {
    if digits == [] {
      assert digits + rest == rest;
    } else {
      assert (digits + rest)[1..] == digits[1..] + rest;
      PrefixOf(digits[1..], rest);
    }
  }

  /** Reading undoes printing modulo 256, whatever zeros precede and whatever non-digit follows. */
  lemma ParseUndoesPrint(n: nat, zeros: nat, rest: string)
    requires rest == [] || (rest[0] as int) < 48 || (rest[0] as int) > 57
    ensures Parsed(Zeros(zeros) + Print(n) + rest) == n % 256
  {
    PrefixOf(Zeros(zeros) + Print(n), rest);
    LeadingZeros(zeros, Print(n));
    PrintValue(n);
  }
}
