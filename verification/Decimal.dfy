// Decimal numbers in text.

module Decimal {

  predicate IsDigit(c: char) { '0' <= c <= '9' }

  function DigitOf(n: nat): (c: char)
    requires n < 10
    ensures IsDigit(c) && (c as int) - ('0' as int) == n
  {
    ('0' as int + n) as char
  }

  // Without leading zeros.
  function Shown(n: nat): (s: string)
    ensures s != "" && forall i :: 0 <= i < |s| ==> IsDigit(s[i])
  {
    if n < 10 then [DigitOf(n)] else Shown(n / 10) + [DigitOf(n % 10)]
  }

  // The value of the digits a text starts with, after those that gave acc.
  function Read(s: string, acc: nat): nat
    decreases |s|
  {
    if s == "" || !IsDigit(s[0]) then acc else Read(s[1..], 10 * acc + (s[0] as int - '0' as int))
  }

  // What follows the digits a text starts with.
  function Tail(s: string): (t: string)
    ensures |t| <= |s| && (t != "" ==> !IsDigit(t[0]))
    decreases |s|
  {
    if s == "" || !IsDigit(s[0]) then s else Tail(s[1..])
  }

  lemma {:induction false} ReadJoined(a: string, b: string, acc: nat)
    requires forall i :: 0 <= i < |a| ==> IsDigit(a[i])
    ensures Read(a + b, acc) == Read(b, Read(a, acc)) && Tail(a + b) == Tail(b)
    decreases |a|
  {
    if a == "" {
      assert a + b == b;
    } else {
      assert (a + b)[1..] == a[1..] + b;
      ReadJoined(a[1..], b, 10 * acc + (a[0] as int - '0' as int));
    }
  }

  lemma {:induction false} ReadShown(n: nat)
    ensures Read(Shown(n), 0) == n
  {
    if n < 10 {
      ReadDigit(DigitOf(n), 0);
    } else {
      ReadShown(n / 10);
      ReadJoined(Shown(n / 10), [DigitOf(n % 10)], 0);
      ReadDigit(DigitOf(n % 10), n / 10);
    }
  }

  lemma ReadDigit(c: char, acc: nat)
    requires IsDigit(c)
    ensures Read([c], acc) == 10 * acc + (c as int - '0' as int)
  {
    assert [c][1..] == "";
  }

  // A shown number is read back up to where the digits end.
  lemma ShownReads(n: nat, rest: string)
    requires rest == "" || !IsDigit(rest[0])
    ensures Read(Shown(n) + rest, 0) == n && Tail(Shown(n) + rest) == rest
  {
    ReadShown(n);
    ReadJoined(Shown(n), rest, 0);
  }

  lemma ShownInjective(n: nat, m: nat)
    requires Shown(n) == Shown(m)
    ensures n == m
  {
    ReadShown(n);
    ReadShown(m);
  }

  // ---------------------------------------------------------------- atoi and strtol

  function SkipBlanks(s: string): (t: string)
    ensures |t| <= |s|
  {
    if s != "" && (s[0] == ' ' || '\t' <= s[0] <= '\r') then SkipBlanks(s[1..]) else s
  }

  predicate Signed(s: string) { s != "" && (s[0] == '-' || s[0] == '+') }

  function Unsigned(s: string): (t: string)
    ensures |t| <= |s|
  {
    if Signed(s) then s[1..] else s
  }

  function Atoi(s: string): int {
    var t := SkipBlanks(s);
    if t != "" && t[0] == '-' then -(Read(t[1..], 0) as int) else Read(Unsigned(t), 0)
  }

  // strtol finds no number when no digit follows the blanks and the sign.
  predicate StartsNumber(s: string) {
    var t := Unsigned(SkipBlanks(s));
    t != "" && IsDigit(t[0])
  }

  // Where strtol leaves its end pointer after a number.
  function AfterNumber(s: string): (t: string)
    ensures StartsNumber(s) ==> |t| < |s|
  {
    Tail(Unsigned(SkipBlanks(s)))
  }

  // Blanks in front do not count, and a sign does.
  lemma AtoiSigned(blank: char, n: nat, rest: string)
    requires (blank == ' ' || 9 <= blank as int <= 13) && (rest == "" || !IsDigit(rest[0]))
    ensures Atoi("-" + (Shown(n) + rest)) == 0 - n && Atoi("+" + (Shown(n) + rest)) == n
    ensures Atoi([blank] + ("-" + (Shown(n) + rest))) == 0 - n && Atoi([blank] + (Shown(n) + rest)) == n
  {
    ShownReads(n, rest);
    var digits := Shown(n) + rest;
    assert ("-" + digits)[1..] == digits && ("+" + digits)[1..] == digits;
    assert ([blank] + ("-" + digits))[1..] == "-" + digits && ([blank] + digits)[1..] == digits;
    assert SkipBlanks("-" + digits) == "-" + digits && SkipBlanks(digits) == digits;
  }

  lemma AtoiShown(n: nat, rest: string)
    requires rest == "" || !IsDigit(rest[0])
    ensures StartsNumber(Shown(n) + rest) && Atoi(Shown(n) + rest) == n && AfterNumber(Shown(n) + rest) == rest
  {
    ShownReads(n, rest);
    assert (Shown(n) + rest)[0] == Shown(n)[0];
  }
}
