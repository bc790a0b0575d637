/** The integer printers of zeos/libc.c: digits come out of a division loop
    backwards and are turned round in place. */
module Digits {

  const INT_MAX := 0x7fff_ffff

  /** The two bases there are printers for. */
  type Radix = b: nat | b == 10 || b == 16 witness 10

  function Quotient(a: nat, base: Radix): (q: nat)
    ensures a > 0 ==> q < a
  {
    if base == 10 then a / 10 else a / 16
  }

  function Remainder(a: nat, base: Radix): (r: nat)
    ensures r < base && a == Quotient(a, base) * base + r
  {
    if base == 10 then a % 10 else a % 16
  }

  /** Digits of `a`, most significant first; none for zero. */
  function Digits(a: nat, base: Radix): (r: seq<nat>)
    ensures forall k :: 0 <= k < |r| ==> r[k] < base
  {
    if a == 0 then [] else Digits(Quotient(a, base), base) + [Remainder(a, base)]
  }

  function DigitChar(d: nat): char
    requires d < 16
  {
    if d < 10 then '0' + d as char else 'A' + (d - 10) as char
  }

  function CharDigit(c: char): nat {
    if '0' <= c <= '9' then (c - '0') as nat else if 'A' <= c <= 'F' then (c - 'A') as nat + 10 else 0
  }

  function Chars(ds: seq<nat>): (r: string)
    requires forall k :: 0 <= k < |ds| ==> ds[k] < 16
  {
    seq(|ds|, k requires 0 <= k < |ds| => DigitChar(ds[k]))
  }

  /** What the printers leave in the buffer before the terminating NUL. */
  function Text(a: int, base: Radix): string
  {
    if a == 0 then "0" else if a < 0 then "" else Chars(Digits(a, base))
  }

  /** The number a text stands for. */
  function Parse(t: string, base: Radix): nat {
    if t == "" then 0 else Parse(t[..|t| - 1], base) * base + CharDigit(t[|t| - 1])
  }

  lemma {:induction false} ParseDigits(a: nat, base: Radix)
    ensures Parse(Chars(Digits(a, base)), base) == a
  {
    if a > 0 {
      ParseDigits(Quotient(a, base), base);
      var t := Chars(Digits(a, base));
      assert t[..|t| - 1] == Chars(Digits(Quotient(a, base), base));
    }
  }

  /** Reading the text back gives the number, for exactly the numbers that are not
      negative: a negative number leaves an empty text. */
  lemma RoundTripIff(a: int, base: Radix)
    ensures Parse(Text(a, base), base) == a <==> a >= 0
  {
    if a > 0 {
      ParseDigits(a, base);
    } else if a == 0 {
      assert "0"[..0] == "";
    }
  }

  /** The sixteen digits, written out. */
  const DIGIT_CHARS := "0123456789ABCDEF"

  lemma DigitIsItsChar(d: nat)
    requires d < 16
    ensures DigitChar(d) == DIGIT_CHARS[d] && CharDigit(DIGIT_CHARS[d]) == d
  {
  }

  /** No leading zero, and digits of the base only. */
  lemma {:induction false} WellFormed(a: int, base: Radix)
    requires a >= 0
    ensures var t := Text(a, base);
            && t != "" && (t[0] == '0' <==> a == 0)
            && (forall k :: 0 <= k < |t| ==> '0' <= t[k] <= '9' || (base == 16 && 'A' <= t[k] <= 'F'))
            && (forall k :: 0 <= k < |t| ==> t[k] in DIGIT_CHARS[..base])
  {
    if a > 0 {
      FirstDigit(a, base);
      var t, ds := Text(a, base), Digits(a, base);
      forall k | 0 <= k < |t|
        ensures t[k] == DIGIT_CHARS[ds[k]] && ds[k] < base
      {
        DigitIsItsChar(ds[k]);
      }
      assert DigitChar(ds[0]) != '0';
    } else {
      assert DIGIT_CHARS[..base][0] == '0';
    }
  }

  /** A negative number is printed as nothing. */
  lemma NegativeIsNothing(a: int, base: Radix)
    ensures Text(a, base) == "" <==> a < 0
  {
    if a >= 0 {
      WellFormed(a, base);
    }
  }

  lemma {:induction false} FirstDigit(a: nat, base: Radix)
    requires a > 0
    ensures Digits(a, base) != [] && Digits(a, base)[0] != 0
  {
    if Quotient(a, base) > 0 {
      FirstDigit(Quotient(a, base), base);
    }
  }

  function Power(base: Radix, k: nat): nat {
    if k == 0 then 1 else base * Power(base, k - 1)
  }

  lemma QuotientBound(a: nat, base: Radix, m: nat)
    requires a < base * m
    ensures Quotient(a, base) < m
  {
  }

  /** `k` digits reach up to `base` to the `k`. */
  lemma {:induction false} DigitsBound(a: nat, base: Radix, k: nat)
    requires a < Power(base, k)
    ensures |Digits(a, base)| <= k
  {
    if a > 0 {
      QuotientBound(a, base, Power(base, k - 1));
      DigitsBound(Quotient(a, base), base, k - 1);
    }
  }

  /** A non-negative int takes at most ten decimal or eight hexadecimal digits. */
  lemma TextFits(a: int)
    requires a <= INT_MAX
    ensures |Text(a, 10)| <= 10 && |Text(a, 16)| <= 8
  {
    if a > 0 {
      assert Power(10, 10) == 10000000000;
      assert Power(16, 8) == 0x1_0000_0000;
      DigitsBound(a, 10, 10);
      DigitsBound(a, 16, 8);
    }
  }

  // ---- the loops -----------------------------------------------------------------------

  function Reversed(s: string): (r: string)
    ensures |r| == |s| && forall k :: 0 <= k < |s| ==> r[k] == s[|s| - 1 - k]
  {
    seq(|s|, k requires 0 <= k < |s| => s[|s| - 1 - k])
  }

  /** The second loop of both printers. */
  method ReverseLoop(b: array<char>, n: nat)
    requires n <= b.Length
    modifies b
    ensures forall k :: 0 <= k < n ==> b[k] == old(b[n - 1 - k])
    ensures forall k :: n <= k < b.Length ==> b[k] == old(b[k])
  {
    var i1 := 0;
    while i1 < n / 2
      invariant 0 <= i1 <= n / 2
      invariant forall k :: 0 <= k < i1 ==> b[k] == old(b[n - 1 - k]) && b[n - 1 - k] == old(b[k])
      invariant forall k :: i1 <= k < n - i1 ==> b[k] == old(b[k])
      invariant forall k :: n <= k < b.Length ==> b[k] == old(b[k])
    {
      var c := b[i1];
      b[i1] := b[n - i1 - 1];
      b[n - i1 - 1] := c;
      i1 := i1 + 1;
    }
  }

  /** The same, and the NUL. */
  method ReverseAndEnd(b: array<char>, n: nat)
    requires n < b.Length
    modifies b
    ensures b[..n] == Reversed(old(b[..n])) && b[n] == '\0' && b[n + 1..] == old(b[n + 1..])
  {
    ghost var was := b[..n];
    ReverseLoop(b, n);
    b[n] := '\0';
    forall k | 0 <= k < n
      ensures b[k] == Reversed(was)[k]
    {
      assert was[n - 1 - k] == old(b[n - 1 - k]);
    }
  }

  lemma ReversedGrows(s: string, c: char)
    ensures Reversed(s + [c]) == [c] + Reversed(s)
  {
  }

  lemma TextStep(a: nat, base: Radix)
    requires a > 0
    ensures Chars(Digits(a, base)) == Chars(Digits(Quotient(a, base), base)) + [DigitChar(Remainder(a, base))]
  {
  }

  /** One digit moves from the number to the text so far. */
  lemma NextDigit(t: string, x: nat, base: Radix, done: string)
    requires x > 0 && t == Chars(Digits(x, base)) + Reversed(done)
    ensures t == Chars(Digits(Quotient(x, base), base)) + Reversed(done + [DigitChar(Remainder(x, base))])
  {
    TextStep(x, base);
    ReversedGrows(done, DigitChar(Remainder(x, base)));
  }

  /** The division loop of `itodeca`: the digits come out last first. */
  method DivideByTen(a: int, b: array<char>) returns (i: nat)
    requires a <= INT_MAX && a != 0 && b.Length > 10
    modifies b
    ensures i == |Text(a, 10)| < b.Length && Reversed(b[..i]) == Text(a, 10)
  {
    TextFits(a);
    ghost var t := Text(a, 10);
    var x := a;
    i := 0;
    while x > 0
      invariant 0 <= i <= |t| && (a < 0 ==> x == a) && (a > 0 ==> x >= 0)
      invariant a > 0 ==> t == Chars(Digits(x, 10)) + Reversed(b[..i])
    {
      ghost var done := b[..i];
      NextDigit(t, x, 10, done);
      b[i] := (x % 10) as char + '0';
      assert b[..i + 1] == done + [DigitChar(x % 10)];
      x := x / 10;
      i := i + 1;
    }
  }

  /** `itodeca` */
  method Itodeca(a: int, b: array<char>)
    requires a <= INT_MAX && b.Length > 10
    modifies b
    ensures var t := Text(a, 10);
            |t| < b.Length && b[..|t|] == t && b[|t|] == '\0'
  {
    if a == 0 {
      b[0] := '0';
      b[1] := '\0';
      return;
    }
    var i := DivideByTen(a, b);
    ReverseAndEnd(b, i);
  }

  /** The division loop of `itohexa`. */
  method DivideBySixteen(a: int, b: array<char>) returns (i: nat)
    requires a <= INT_MAX && a != 0 && b.Length > 8
    modifies b
    ensures i == |Text(a, 16)| < b.Length && Reversed(b[..i]) == Text(a, 16)
  {
    TextFits(a);
    ghost var t := Text(a, 16);
    var x := a;
    i := 0;
    while x > 0
      invariant 0 <= i <= |t| && (a < 0 ==> x == a) && (a > 0 ==> x >= 0)
      invariant a > 0 ==> t == Chars(Digits(x, 16)) + Reversed(b[..i])
    {
      ghost var done := b[..i];
      NextDigit(t, x, 16, done);
      var r := x % 16;
      x := x / 16;
      if r < 10 {
        b[i] := '0' + r as char;
      } else {
        b[i] := 'A' + (r - 10) as char;
      }
      assert b[..i] == done && b[i] == DigitChar(r);
      assert b[..i + 1] == done + [DigitChar(r)];
      i := i + 1;
    }
  }

  /** `itohexa` */
  method Itohexa(a: int, b: array<char>)
    requires a <= INT_MAX && b.Length > 8
    modifies b
    ensures var t := Text(a, 16);
            |t| < b.Length && b[..|t|] == t && b[|t|] == '\0'
  {
    if a == 0 {
      b[0] := '0';
      b[1] := '\0';
      return;
    }
    var i := DivideBySixteen(a, b);
    ReverseAndEnd(b, i);
  }
}
