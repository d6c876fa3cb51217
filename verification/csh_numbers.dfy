/** csh's numbers: 32-bit integers kept as text between the levels of an expression. */
module CshNumbers {

  type Word = string

  datatype Option<T> = None | Some(value: T)

  const TWO32 := 0x1_0000_0000
  const MIN32 := -0x8000_0000

  /** What a 32-bit int holds after an operation with the result x. */
  function Wrap(x: int): (r: int)
    ensures InRange(r) && (r - x) % TWO32 == 0
  {
    (x - MIN32) % TWO32 + MIN32
  }

  predicate InRange(n: int) { MIN32 <= n < -MIN32 }

  lemma WrapSame(x: int)
    requires InRange(x)
    ensures Wrap(x) == x
  {
  }

  /** Numbers that differ by a multiple of 2^32 wrap alike. */
  lemma WrapEqual(x: int, y: int, k: int)
    requires x == y + k * TWO32
    ensures Wrap(x) == Wrap(y)
  {
    var a := y - MIN32;
    assert (a + k * TWO32) % TWO32 == a % TWO32;
  }

  predicate Digit(c: char) { '0' <= c <= '9' }

  function DigitOf(n: nat): (c: char)
    requires n < 10
    ensures Digit(c) && c as int - '0' as int == n
  {
    ('0' as int + n) as char
  }

  /** `putn1`: the decimal digits of n. */
  function Putn1(n: nat): (s: Word)
    ensures s != "" && forall i :: 0 <= i < |s| ==> Digit(s[i])
  {
    if n > 9 then Putn1(n / 10) + [DigitOf(n % 10)] else [DigitOf(n)]
  }

  /** 147483648, for the digits behind the first of 2147483648. */
  function Behind2(n: nat): nat
    requires n >= 2_000_000_000
  {
    n - 2_000_000_000
  }

  /** `putn`: negating the smallest number gives it back, so it is written in two parts. */
  function Putn(n: int): Word
    requires InRange(n)
  {
    var m := if n < 0 then Wrap(-n) else n;
    var sign := if n < 0 then "-" else "";
    if m == MIN32 then sign + "2" + Putn1(Behind2(-m)) else sign + Putn1(m)
  }

  /** The loop of `getn` from the i-th character on: the number and where it ends. */
  function Digits(s: Word, i: nat, n: int): (r: (int, nat))
    requires i <= |s|
    ensures i <= r.1 <= |s| && (InRange(n) ==> InRange(r.0))
    decreases |s| - i
  {
    if i < |s| && Digit(s[i]) then Digits(s, i + 1, Wrap(n * 10 + (s[i] as int - '0' as int))) else (n, i)
  }

  /** `getn`; an error for text that is not a number. The empty text is 0. */
  function Getn(s: Word): (r: Option<int>)
    ensures r.Some? ==> InRange(r.value)
  {
    var t := if |s| > 1 && s[0] == '+' then s[1..] else s;
    var minus := t != "" && t[0] == '-';
    if minus && (|t| < 2 || !Digit(t[1])) then None
    else
      var u := if minus then t[1..] else t;
      var r := Digits(u, 0, 0);
      if r.1 < |u| then None else if minus then Some(Wrap(-r.0)) else Some(r.0)
  }

  /** `getn` with its loop. */
  method ReadNumber(s: Word) returns (r: Option<int>)
    ensures r == Getn(s)
  {
    var cp := if |s| > 1 && s[0] == '+' then s[1..] else s;
    var sign := false;
    if cp != "" && cp[0] == '-' {
      sign := true;
      cp := cp[1..];
      if cp == "" || !Digit(cp[0]) {
        return None;
      }
    }
    var n, i := 0, 0;
    while i < |cp| && Digit(cp[i])
      invariant i <= |cp| && Digits(cp, i, n) == Digits(cp, 0, 0) && InRange(n)
    {
      n := Wrap(n * 10 + (cp[i] as int - '0' as int));
      i := i + 1;
    }
    if i < |cp| {
      return None;
    }
    return Some(if sign then Wrap(-n) else n);
  }

  // ---- round trip ----------------------------------------------------------------------

  /** The number a string of digits stands for, behind n. */
  function Decimal(s: Word, n: int): int
    decreases |s|
  {
    if s == "" then n else Decimal(s[..|s| - 1], n) * 10 + (s[|s| - 1] as int - '0' as int)
  }

  predicate AllDigits(s: Word) { forall i :: 0 <= i < |s| ==> Digit(s[i]) }

  lemma {:induction false} DecimalFirst(s: Word, n: int)
    requires s != ""
    ensures Decimal(s, n) == Decimal(s[1..], n * 10 + (s[0] as int - '0' as int))
    decreases |s|
  {
    var k := |s| - 1;
    if k == 0 {
      assert s[..k] == "" && s[1..] == "";
    } else {
      DecimalFirst(s[..k], n);
      assert s[..k][1..] == s[1..][..k - 1];
    }
  }

  lemma {:induction false} DecimalWraps(s: Word, n: int, k: int)
    ensures exists j :: Decimal(s, n + k * TWO32) == Decimal(s, n) + j * TWO32
    decreases |s|
  {
    if s == "" {
      assert Decimal(s, n + k * TWO32) == Decimal(s, n) + k * TWO32;
    } else {
      DecimalWraps(s[..|s| - 1], n, k);
      var j :| Decimal(s[..|s| - 1], n + k * TWO32) == Decimal(s[..|s| - 1], n) + j * TWO32;
      assert Decimal(s, n + k * TWO32) == Decimal(s, n) + (10 * j) * TWO32;
    }
  }

  /** Wrapping at every digit is wrapping at the end. */
  lemma {:induction false} DigitsDecimal(s: Word, i: nat, n: int)
    requires i <= |s| && AllDigits(s) && InRange(n)
    ensures Digits(s, i, n) == (Wrap(Decimal(s[i..], n)), |s|)
    decreases |s| - i
  {
    if i == |s| {
      WrapSame(n);
    } else {
      var d := s[i] as int - '0' as int;
      var m := Wrap(n * 10 + d);
      DigitsDecimal(s, i + 1, m);
      DecimalFirst(s[i..], n);
      assert s[i..][1..] == s[i + 1..];
      var k := (m - (n * 10 + d)) / TWO32;
      DecimalWraps(s[i + 1..], n * 10 + d, k);
      var j :| Decimal(s[i + 1..], n * 10 + d + k * TWO32) == Decimal(s[i + 1..], n * 10 + d) + j * TWO32;
      WrapEqual(Decimal(s[i + 1..], m), Decimal(s[i + 1..], n * 10 + d), j);
    }
  }

  lemma {:induction false} Putn1Decimal(n: nat)
    ensures Decimal(Putn1(n), 0) == n
  {
    if n > 9 {
      Putn1Decimal(n / 10);
      var s := Putn1(n);
      assert s[..|s| - 1] == Putn1(n / 10);
    } else {
      assert Putn1(n)[..0] == "";
    }
  }

  /** The digits written for the smallest number. */
  lemma MinDigits(k: nat)
    requires k == Behind2(-MIN32)
    ensures Decimal("2" + Putn1(k), 0) == -MIN32
  {
    var t := Putn1(k);
    var s := "2" + t;
    DecimalFirst(s, 0);
    assert s[1..] == t;
    Putn1Decimal(k);
    Powers();
    Length(k, 9);
    Shifted(t, 2);
  }

  lemma {:induction false} Shifted(s: Word, n: int)
    ensures Decimal(s, n) == Decimal(s, 0) + n * Pow10(|s|)
    decreases |s|
  {
    if s != "" {
      Shifted(s[..|s| - 1], n);
    }
  }

  function Pow10(n: nat): int { if n == 0 then 1 else 10 * Pow10(n - 1) }

  lemma {:induction false} Length(n: nat, k: nat)
    requires k >= 1 && Pow10(k - 1) <= n < Pow10(k)
    ensures |Putn1(n)| == k
  {
    if k > 1 {
      assert n >= 10 * Pow10(k - 2) && n < 10 * Pow10(k - 1);
      PowPositive(k - 2);
      Length(n / 10, k - 1);
    }
  }

  lemma {:induction false} PowPositive(k: nat)
    ensures Pow10(k) >= 1
  {
    if k > 0 {
      PowPositive(k - 1);
    }
  }

  lemma Powers()
    ensures Pow10(8) == 100_000_000 && Pow10(9) == 1_000_000_000
  {
    assert Pow10(3) == 1_000;
    assert Pow10(6) == 1_000_000;
  }

  /** `getn(putn(n)) == n` for every 32-bit number, the smallest included. */
  lemma NumberRoundTrip(n: int)
    requires InRange(n)
    ensures Getn(Putn(n)) == Some(n)
  {
    if n == MIN32 {
      MinRoundTrip(n);
    } else if n < 0 {
      NegativeRoundTrip(n);
    } else {
      Unsigned(Putn1(n), n);
      assert "" + Putn1(n) == Putn1(n);
    }
  }

  lemma NegativeRoundTrip(n: int)
    requires MIN32 < n < 0
    ensures Getn(Putn(n)) == Some(n)
  {
    WrapSame(-n);
    WrapSame(n);
    var s := Putn(n);
    assert s == "-" + Putn1(-n) && s[1..] == Putn1(-n);
    Unsigned(s[1..], -n);
  }

  lemma Unsigned(s: Word, m: nat)
    requires s == Putn1(m) && InRange(m)
    ensures Digits(s, 0, 0) == (m, |s|)
  {
    DigitsDecimal(s, 0, 0);
    Putn1Decimal(m);
    assert s[0..] == s;
    WrapSame(m);
  }

  lemma MinRoundTrip(n: int)
    requires n == MIN32
    ensures Getn(Putn(n)) == Some(n)
  {
    var k := Behind2(-n);
    MinText(n, k);
    MinDigits(k);
    SignedDigits(Putn(n), "2" + Putn1(k));
    assert Wrap(-Wrap(-n)) == n;
  }

  lemma SignedDigits(s: Word, d: Word)
    requires s != "" && s[0] == '-' && s[1..] == d && d != "" && AllDigits(d)
    ensures Getn(s) == Some(Wrap(-Wrap(Decimal(d, 0))))
  {
    assert d[0..] == d && s[1] == d[0];
    DigitsDecimal(d, 0, 0);
  }

  lemma MinText(n: int, k: nat)
    requires n == MIN32 && k == Behind2(-n)
    ensures Putn(n) == "-" + ("2" + Putn1(k)) && Putn(n)[1..] == "2" + Putn1(k) && Putn(n)[0] == '-'
  {
    assert Wrap(-n) == n;
    assert "-" + "2" + Putn1(k) == "-" + ("2" + Putn1(k));
  }

}
