/** sprintf("%d") and atoi, between which every message id and port number travels. */
module Decimal {
  predicate IsDigit(c: char) { '0' <= c <= '9' }

  function DigitOf(c: char): int { c as int - '0' as int }

  function DigitChar(d: int): (c: char)
    requires 0 <= d < 10
    ensures IsDigit(c) && DigitOf(c) == d
  {
    (d + '0' as int) as char
  }

  function NatText(n: nat): (s: string)
    ensures s != [] && forall i :: 0 <= i < |s| ==> IsDigit(s[i])
  {
    if n < 10 then [DigitChar(n)] else NatText(n / 10) + [DigitChar(n % 10)]
  }

  /** sprintf("%d", n) */
  function IntText(n: int): string {
    if n < 0 then "-" + NatText(-n) else NatText(n)
  }

  function DigitsValue(s: string, acc: int): int {
    if s == [] || !IsDigit(s[0]) then acc else DigitsValue(s[1..], 10 * acc + DigitOf(s[0]))
  }

  predicate IsSpace(c: char) { c == ' ' || 9 <= c as int <= 13 }

  function SkipSpace(s: string): string {
    if s != [] && IsSpace(s[0]) then SkipSpace(s[1..]) else s
  }

  /** atoi : white space, an optional sign, and the digits that follow; anything else ends the number. */
  function Atoi(s: string): int {
    var t := SkipSpace(s);
    if t != [] && t[0] == '-' then -DigitsValue(t[1..], 0)
    else if t != [] && t[0] == '+' then DigitsValue(t[1..], 0)
    else DigitsValue(t, 0)
  }

  lemma {:induction false} DigitsValueSnoc(s: string, c: char, acc: int)
    requires IsDigit(c) && forall i :: 0 <= i < |s| ==> IsDigit(s[i])
    ensures DigitsValue(s + [c], acc) == 10 * DigitsValue(s, acc) + DigitOf(c)
  {
    if s == [] {
      assert s + [c] == [c] && [c][1..] == [];
    } else {
      assert (s + [c])[1..] == s[1..] + [c];
      DigitsValueSnoc(s[1..], c, 10 * acc + DigitOf(s[0]));
    }
  }

  lemma {:induction false} NatRoundTrip(n: nat)
    ensures DigitsValue(NatText(n), 0) == n
  {
    if n < 10 {
      assert [DigitChar(n)][1..] == [];
    } else {
      NatRoundTrip(n / 10);
      DigitsValueSnoc(NatText(n / 10), DigitChar(n % 10), 0);
    }
  }

  /** Reading back what was printed gives the number. */
  lemma IntRoundTrip(n: int)
    ensures Atoi(IntText(n)) == n
  {
    if n < 0 {
      NatRoundTrip(-n);
      assert IntText(n)[1..] == NatText(-n);
    } else {
      NatRoundTrip(n);
      assert IsDigit(NatText(n)[0]);
    }
  }

  lemma {:induction false} SkipBlanks(blanks: string, s: string)
    requires forall i :: 0 <= i < |blanks| ==> blanks[i] in {' ', '\t', '\n', '\U{b}', '\U{c}', '\r'}
    requires s == [] || !IsSpace(s[0])
    ensures SkipSpace(blanks + s) == s
  {
    if blanks == [] {
      assert blanks + s == s;
    } else {
      assert (blanks + s)[1..] == blanks[1..] + s && blanks[0] in {' ', '\t', '\n', '\U{b}', '\U{c}', '\r'};
      SkipBlanks(blanks[1..], s);
    }
  }

  /** The digits end at the first other character. */
  lemma {:induction false} DigitsEnd(digits: string, rest: string, acc: int)
    requires forall i :: 0 <= i < |digits| ==> IsDigit(digits[i])
    requires rest == [] || !IsDigit(rest[0])
    ensures DigitsValue(digits + rest, acc) == DigitsValue(digits, acc)
  {
    if digits == [] {
      assert digits + rest == rest;
    } else {
      assert (digits + rest)[1..] == digits[1..] + rest;
      DigitsEnd(digits[1..], rest, 10 * acc + DigitOf(digits[0]));
    }
  }

  lemma {:induction false} LeadingZeros(zeros: string, s: string)
    requires forall i :: 0 <= i < |zeros| ==> zeros[i] == '0'
    ensures DigitsValue(zeros + s, 0) == DigitsValue(s, 0)
  {
    if zeros == [] {
      assert zeros + s == s;
    } else {
      assert (zeros + s)[1..] == zeros[1..] + s;
      LeadingZeros(zeros[1..], s);
    }
  }

  /** What atoi makes of text: white space, a sign, zeros and a printed number, and then anything that does not
      go on with a digit, read as that number. */
  lemma AtoiReads(blanks: string, sign: string, zeros: string, n: nat, rest: string)
    requires forall i :: 0 <= i < |blanks| ==> blanks[i] in {' ', '\t', '\n', '\U{b}', '\U{c}', '\r'}
    requires sign in {"", "-", "+"} && forall i :: 0 <= i < |zeros| ==> zeros[i] == '0'
    requires rest == [] || !('0' <= rest[0] <= '9')
    ensures Atoi(blanks + (sign + (zeros + NatText(n) + rest))) == if sign == "-" then 0 - n else n
  {
    var digits := zeros + NatText(n);
    var s := digits + rest;
    assert forall i :: 0 <= i < |digits| ==> IsDigit(digits[i]);
    assert IsDigit(s[0]) by { assert s[0] == digits[0]; }
    SkipBlanks(blanks, sign + s);
    if sign == "" { assert sign + s == s; } else { assert (sign + s)[0] == sign[0] && (sign + s)[1..] == s; }
    DigitsEnd(digits, rest, 0);
    LeadingZeros(zeros, NatText(n));
    NatRoundTrip(n);
  }

  /** Where no digit follows the white space and the sign, it reads as 0. */
  lemma AtoiOfNoNumber(blanks: string, sign: string, rest: string)
    requires forall i :: 0 <= i < |blanks| ==> blanks[i] in {' ', '\t', '\n', '\U{b}', '\U{c}', '\r'}
    requires sign in {"", "-", "+"} && (rest == [] || !('0' <= rest[0] <= '9'))
    requires sign == "" ==> rest == [] || (!IsSpace(rest[0]) && rest[0] != '-' && rest[0] != '+')
    ensures Atoi(blanks + (sign + rest)) == 0
  {
    SkipBlanks(blanks, sign + rest);
    if sign == "" {
      assert sign + rest == rest;
    } else {
      assert (sign + rest)[0] == sign[0] && (sign + rest)[1..] == rest;
    }
  }
}
