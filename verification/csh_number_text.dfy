/** Which texts are numbers, and which text a number has. */
module CshNumberText {
  import opened CshNumbers

  /** What may stand before the digits. */
  predicate Prefix(p: Word) { p == "" || p == "+" || p == "-" || p == "+-" }

  predicate Negative(p: Word) { p == "-" || p == "+-" }

  /** A sign and digits are a number: the decimal value of the digits, modulo 2^32. */
  lemma NumberOf(p: Word, d: Word)
    requires Prefix(p) && AllDigits(d) && (p != "" ==> d != "")
    ensures Getn(p + d) == Some(Wrap(if Negative(p) then -Decimal(d, 0) else Decimal(d, 0)))
  {
    DigitsDecimal(d, 0, 0);
    assert d[0..] == d;
    Negated(Decimal(d, 0));
    if p == "" {
      assert p + d == d;
      Unsigned1(d);
    } else if p == "+" {
      assert (p + d)[1..] == d;
    } else if p == "-" {
      assert (p + d)[1..] == d;
    } else {
      assert (p + d)[1..] == "-" + d && ("-" + d)[1..] == d;
    }
  }

  lemma Unsigned1(d: Word)
    requires AllDigits(d)
    ensures d != "" ==> d[0] != '+' && d[0] != '-'
  {
  }

  lemma Negated(x: int)
    ensures Wrap(-Wrap(x)) == Wrap(-x)
  {
    var k := (Wrap(x) - x) / TWO32;
    WrapEqual(-Wrap(x), -x, -k);
  }

  /** No other text is a number. */
  lemma NumberOnly(s: Word) returns (p: Word, d: Word)
    requires Getn(s).Some?
    ensures s == p + d && Prefix(p) && AllDigits(d) && (p != "" ==> d != "")
  {
    var plus := |s| > 1 && s[0] == '+';
    var t := if plus then s[1..] else s;
    var minus := t != "" && t[0] == '-';
    d := if minus then t[1..] else t;
    p := (if plus then "+" else "") + (if minus then "-" else "");
    AllRead(d, 0, 0);
    assert minus ==> t == "-" + d;
    assert plus ==> s == "+" + t;
  }

  /** If the loop gets to the end, all that is left are digits. */
  lemma {:induction false} AllRead(s: Word, i: nat, n: int)
    requires i <= |s| && Digits(s, i, n).1 == |s|
    ensures forall j :: i <= j < |s| ==> Digit(s[j])
    decreases |s| - i
  {
    if i < |s| && Digit(s[i]) {
      AllRead(s, i + 1, Wrap(n * 10 + (s[i] as int - '0' as int)));
    }
  }

  /** The text of a number: a sign if it is negative, and its digits without leading zeros. */
  lemma TextOf(n: int) returns (d: Word)
    requires InRange(n)
    ensures Putn(n) == (if n < 0 then "-" else "") + d && d != "" && AllDigits(d)
    ensures Decimal(d, 0) == (if n < 0 then -n else n) && (d[0] == '0' ==> d == "0")
  {
    if n == MIN32 {
      d := Smallest(n, Behind2(-n));
    } else {
      var m: nat := if n < 0 then -n else n;
      WrapSame(m);
      d := Putn1(m);
      Putn1Decimal(m);
      NoLeadingZero(m);
    }
  }

  lemma Smallest(n: int, k: nat) returns (d: Word)
    requires n == MIN32 && k == Behind2(-n)
    ensures Putn(n) == "-" + d && d != "" && AllDigits(d) && d[0] == '2' && Decimal(d, 0) == -n
  {
    d := "2" + Putn1(k);
    MinDigits(k);
    MinText(n, k);
  }

  lemma {:induction false} NoLeadingZero(m: nat)
    ensures m > 0 ==> Putn1(m)[0] != '0'
    ensures m == 0 ==> Putn1(m) == "0"
  {
    if m > 9 {
      NoLeadingZero(m / 10);
    }
  }
}
