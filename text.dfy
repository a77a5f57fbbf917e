/**
 * The C library string routines the request handlers rely on, stated over
 * `seq<char>`: `strtok` with a one-character delimiter, `atoi`, and the
 * decimal rendering of `sprintf("%d")`.
 */
module Text {

  /** A decimal digit, as C's `isdigit` in the "C" locale. */
  predicate IsDigit(c: char) {
    '0' <= c <= '9'
  }

  /** White space, as C's `isspace` in the "C" locale: blank, \t, \n, \v, \f, \r. */
  predicate IsSpace(c: char) {
    c == ' ' || '\t' <= c <= '\r'
  }

  predicate AllDigits(s: string) {
    forall i | 0 <= i < |s| :: IsDigit(s[i])
  }

  /** The length of the leading run of `s` that holds no `d`. */
  function RunLength(s: string, d: char): (n: nat)
    ensures n <= |s|
    ensures d !in s[..n]
    ensures n < |s| ==> s[n] == d
  {
    if s == [] || s[0] == d then 0
    else
      var m := RunLength(s[1..], d);
      assert s[1..][..m] == s[1..m + 1];
      1 + m
  }

  /** `s` without its leading copies of `d`. */
  function DropLeading(s: string, d: char): (r: string)
    ensures |r| <= |s| && r == s[|s| - |r|..]
    ensures r == [] || r[0] != d
    ensures forall i | 0 <= i < |s| - |r| :: s[i] == d
  {
    if s != [] && s[0] == d then DropLeading(s[1..], d) else s
  }

  /**
   * The tokens that successive `strtok` calls with the single delimiter `d`
   * return for `s`: the maximal runs of characters other than `d`, in order.
   * Leading, trailing and repeated delimiters produce no empty token.
   */
  function Tokens(s: string, d: char): (ts: seq<string>)
    ensures forall i | 0 <= i < |ts| :: ts[i] != [] && d !in ts[i]
    decreases |s|
  {
    if s == [] then []
    else if s[0] == d then Tokens(s[1..], d)
    else
      var n := RunLength(s, d);
      [s[..n]] + Tokens(s[n..], d)
  }

  /** The tokens `ts` written one after another with a `d` between neighbours. */
  function Join(ts: seq<string>, d: char): string {
    if ts == [] then []
    else if |ts| == 1 then ts[0]
    else ts[0] + [d] + Join(ts[1..], d)
  }

  lemma JoinOfTwo(a: string, b: string, d: char)
    ensures Join([a, b], d) == a + [d] + b
  {
    assert [a, b][1..] == [b];
  }

  lemma {:induction false} RunLengthOfPrefix(t: string, rest: string, d: char)
    requires d !in t
    requires rest == [] || rest[0] == d
    ensures RunLength(t + rest, d) == |t|
  {
    if t != [] {
      assert (t + rest)[1..] == t[1..] + rest;
      RunLengthOfPrefix(t[1..], rest, d);
    }
  }

  /**
   * Tokenising is the inverse of joining: non-empty tokens free of `d`,
   * joined with `d`, are split back into exactly those tokens.
   */
  lemma {:induction false} TokensOfJoin(ts: seq<string>, d: char)
    requires forall i | 0 <= i < |ts| :: ts[i] != [] && d !in ts[i]
    ensures Tokens(Join(ts, d), d) == ts
  {
    if ts == [] {
    } else if |ts| == 1 {
      var s := ts[0];
      RunLengthOfPrefix(s, [], d);
      assert s + [] == s;
      assert s[..|s|] == s && s[|s|..] == [];
    } else {
      var t, j := ts[0], Join(ts[1..], d);
      var s := t + [d] + j;
      RunLengthOfPrefix(t, [d] + j, d);
      assert s == t + ([d] + j);
      assert s[..|t|] == t;
      assert s[|t|..] == [d] + j;
      assert ([d] + j)[1..] == j;
      TokensOfJoin(ts[1..], d);
      assert [t] + ts[1..] == ts;
    }
  }

  lemma RunLengthOfLonger(a: string, r: string, d: char)
    requires RunLength(a, d) < |a|
    ensures RunLength(a + r, d) == RunLength(a, d)
  {
    var n := RunLength(a, d);
    assert a + r == a[..n] + (a[n..] + r);
    RunLengthOfPrefix(a[..n], a[n..] + r, d);
  }

  /**
   * A delimiter splits the tokens: `strtok` over `a`, a `d`, then `b` returns
   * the tokens of `a` followed by those of `b`, whatever delimiters `a` and
   * `b` begin or end with. A doubled, leading or trailing delimiter thus only
   * drops the empty token, never a neighbour.
   */
  lemma {:induction false} TokensOfSplit(a: string, b: string, d: char)
    ensures Tokens(a + [d] + b, d) == Tokens(a, d) + Tokens(b, d)
    decreases |a|
  {
    var s := a + [d] + b;
    if a == [] {
      assert s == [d] + b && s[1..] == b;
    } else if a[0] == d {
      assert s[1..] == a[1..] + [d] + b;
      TokensOfSplit(a[1..], b, d);
    } else {
      var n := RunLength(a, d);
      if n < |a| {
        RunLengthOfLonger(a, [d] + b, d);
        assert s == a + ([d] + b);
        assert s[..n] == a[..n];
        assert s[n..] == a[n..] + [d] + b;
        TokensOfSplit(a[n..], b, d);
      } else {
        RunLengthOfPrefix(a, [d] + b, d);
        assert s == a + ([d] + b);
        assert s[..n] == a && a[..n] == a && a[n..] == [];
        assert s[n..] == [d] + b && s[n..][1..] == b;
      }
    }
  }

  /** A text of delimiters alone has no token. */
  lemma {:induction false} TokensOfDelimiters(s: string, d: char)
    requires forall i | 0 <= i < |s| :: s[i] == d
    ensures Tokens(s, d) == []
  {
    if s != [] {
      TokensOfDelimiters(s[1..], d);
    }
  }

  /** A non-empty text without the delimiter is one token. */
  lemma TokensOfRun(t: string, d: char)
    requires t != [] && d !in t
    ensures Tokens(t, d) == [t]
  {
    RunLengthOfPrefix(t, [], d);
    assert t + [] == t;
    assert t[..|t|] == t && t[|t|..] == [];
  }

  /** The leading run of decimal digits of `s`. */
  function DigitPrefix(s: string): (r: string)
    ensures |r| <= |s| && r == s[..|r|]
    ensures AllDigits(r)
    ensures |r| < |s| ==> !IsDigit(s[|r|])
  {
    if s != [] && IsDigit(s[0]) then [s[0]] + DigitPrefix(s[1..]) else []
  }

  /** The value of a string of decimal digits, most significant digit first. */
  function DigitsValue(ds: string): nat
    requires AllDigits(ds)
  {
    if ds == [] then 0
    else 10 * DigitsValue(ds[..|ds| - 1]) + (ds[|ds| - 1] as int - '0' as int)
  }

  /**
   * C's `atoi`: white space is skipped, one optional sign is read, then the
   * longest run of digits; anything else ends the number, and a string with
   * no digit in that place yields 0.
   */
  function Atoi(s: string): (n: int)
    ensures (forall i | 0 <= i < |s| :: !IsDigit(s[i])) ==> n == 0
    ensures var t := DropLeadingSpaces(s);
      var u := if t != [] && (t[0] == '-' || t[0] == '+') then t[1..] else t;
      (u == [] || !IsDigit(u[0])) ==> n == 0
  {
    var t := DropLeadingSpaces(s);
    assert t != [] ==> t[1..] == s[|s| - |t| + 1..];
    SignedNumber(t)
  }

  /** What `atoi` reads once the white space is gone: one optional sign, then the digit run. */
  function SignedNumber(t: string): int {
    if t != [] && (t[0] == '-' || t[0] == '+') then
      var v: int := DigitsValue(DigitPrefix(t[1..]));
      if t[0] == '-' then -v else v
    else
      DigitsValue(DigitPrefix(t))
  }

  /** `s` without its leading white space. */
  function DropLeadingSpaces(s: string): (r: string)
    ensures |r| <= |s| && r == s[|s| - |r|..]
    ensures r == [] || !IsSpace(r[0])
  {
    if s != [] && IsSpace(s[0]) then DropLeadingSpaces(s[1..]) else s
  }

  /** Leading white space does not change what `atoi` reads. */
  lemma {:induction false} AtoiSkipsSpaces(ws: string, s: string)
    requires forall i | 0 <= i < |ws| :: IsSpace(ws[i])
    ensures Atoi(ws + s) == Atoi(s)
  {
    DropLeadingSpacesSkipsSpaces(ws, s);
  }

  lemma {:induction false} DropLeadingSpacesSkipsSpaces(ws: string, s: string)
    requires forall i | 0 <= i < |ws| :: IsSpace(ws[i])
    ensures DropLeadingSpaces(ws + s) == DropLeadingSpaces(s)
  {
    if ws != [] {
      assert (ws + s)[1..] == ws[1..] + s;
      DropLeadingSpacesSkipsSpaces(ws[1..], s);
    } else {
      assert ws + s == s;
    }
  }

  function DigitChar(d: nat): (c: char)
    requires d < 10
    ensures IsDigit(c) && c as int - '0' as int == d
  {
    ('0' as int + d) as char
  }

  /** The decimal digits of `n`, without leading zeros. */
  function NaturalDecimal(n: nat): (r: string)
    ensures r != [] && AllDigits(r)
  {
    if n < 10 then [DigitChar(n)] else NaturalDecimal(n / 10) + [DigitChar(n % 10)]
  }

  /** `sprintf(buf, "%d", n)`: a minus sign for negative `n`, then the digits. */
  function Decimal(n: int): string {
    if n < 0 then "-" + NaturalDecimal(-n) else NaturalDecimal(n)
  }

  lemma {:induction false} DigitsValueOfDecimal(n: nat)
    ensures DigitsValue(NaturalDecimal(n)) == n
  {
    if n >= 10 {
      var r := NaturalDecimal(n);
      assert r[..|r| - 1] == NaturalDecimal(n / 10);
      DigitsValueOfDecimal(n / 10);
    }
  }

  /**
   * `atoi` reads back what "%d" wrote, and stops at the first character
   * after the digits: `Atoi(Decimal(n) + rest) == n` whenever `rest` does not
   * begin with a digit.
   */
  lemma AtoiOfDecimalPrefix(n: int, rest: string)
    requires rest == [] || !IsDigit(rest[0])
    ensures Atoi(Decimal(n) + rest) == n
  {
    var m: nat := if n < 0 then -n else n;
    var ds := NaturalDecimal(m);
    DigitsValueOfDecimal(m);
    if n < 0 {
      assert Decimal(n) + rest == "-" + (ds + rest);
      AtoiOfNegativeDigits(ds, rest);
    } else {
      assert Decimal(n) + rest == ds + rest;
      AtoiOfDigits(ds, rest);
    }
  }

  lemma AtoiOfDigits(ds: string, rest: string)
    requires ds != [] && AllDigits(ds)
    requires rest == [] || !IsDigit(rest[0])
    ensures Atoi(ds + rest) == DigitsValue(ds)
  {
    var s := ds + rest;
    assert IsDigit(s[0]) && !IsSpace(s[0]);
    assert DropLeadingSpaces(s) == s;
    assert s[0] != '-' && s[0] != '+';
    DigitPrefixOfDigits(ds, rest);
    assert Atoi(s) == DigitsValue(DigitPrefix(s));
  }

  lemma AtoiOfNegativeDigits(ds: string, rest: string)
    requires ds != [] && AllDigits(ds)
    requires rest == [] || !IsDigit(rest[0])
    ensures Atoi("-" + (ds + rest)) == -(DigitsValue(ds) as int)
  {
    var s := "-" + (ds + rest);
    assert DropLeadingSpaces(s) == s;
    assert s[1..] == ds + rest;
    DigitPrefixOfDigits(ds, rest);
  }

  lemma {:induction false} DigitPrefixOfDigits(ds: string, rest: string)
    requires AllDigits(ds)
    requires rest == [] || !IsDigit(rest[0])
    ensures DigitPrefix(ds + rest) == ds
  {
    if ds != [] {
      assert (ds + rest)[1..] == ds[1..] + rest;
      DigitPrefixOfDigits(ds[1..], rest);
    }
  }

  /** An explicit '+' before the digits is read as the number itself: `atoi("+5")` is 5. */
  lemma AtoiOfPlusDecimal(n: nat)
    ensures Atoi("+" + Decimal(n)) == n
  {
    var ds := NaturalDecimal(n);
    var s := "+" + ds;
    DigitsValueOfDecimal(n);
    assert DropLeadingSpaces(s) == s;
    assert s[1..] == ds + [];
    DigitPrefixOfDigits(ds, []);
  }

  /** The rendering "%d" gives is read back exactly by `atoi`. */
  lemma AtoiOfDecimal(n: int)
    ensures Atoi(Decimal(n)) == n
  {
    AtoiOfDecimalPrefix(n, []);
    assert Decimal(n) + [] == Decimal(n);
  }

  /** Distinct integers render differently. */
  lemma DecimalInjective(a: int, b: int)
    requires Decimal(a) == Decimal(b)
    ensures a == b
  {
    AtoiOfDecimal(a);
    AtoiOfDecimal(b);
  }

  function Pow10(k: nat): (p: nat)
    ensures p >= 1
  {
    if k == 0 then 1 else 10 * Pow10(k - 1)
  }

  /** "%d" of a natural number fits in `k` characters exactly when the number is below 10^k. */
  lemma {:induction false} NaturalDecimalLength(n: nat, k: nat)
    requires k >= 1
    ensures |NaturalDecimal(n)| <= k <==> n < Pow10(k)
  {
    if k >= 2 {
      assert Pow10(k) == 10 * Pow10(k - 1) && Pow10(k - 1) == 10 * Pow10(k - 2);
    }
    if n >= 10 {
      assert |NaturalDecimal(n)| == |NaturalDecimal(n / 10)| + 1;
      if k == 1 {
        assert Pow10(1) == 10;
      } else {
        NaturalDecimalLength(n / 10, k - 1);
        assert n / 10 < Pow10(k - 1) <==> n < 10 * Pow10(k - 1);
      }
    }
  }
}
