/** Variable names of csh and the order the variable tree is kept in. */
module CshNames {

  /** A `short Char`; NUL only ever ends a string, so it is not a character of one. */
  newtype Char = c: int | -0x8000 <= c < 0x8000

  type Name = s: seq<Char> | 0 !in s witness []

  /** The character at a C string's first position, NUL when the string is empty. */
  function First(s: seq<Char>): int {
    if s == [] then 0 else s[0] as int
  }

  /** `s_strcmp`: the common prefix is skipped and the first difference decides;
      a string that ends first collates low, even against negative characters. */
  function StrCompare(a: seq<Char>, b: seq<Char>): int {
    if a != [] && b != [] && a[0] == b[0] then StrCompare(a[1..], b[1..])
    else if a == [] && b == [] then 0
    else if a == [] then -1
    else if b == [] then 1
    else a[0] as int - b[0] as int
  }

  method Strcmp(str1: seq<Char>, str2: seq<Char>) returns (r: int)
    ensures r == StrCompare(str1, str2)
  {
    var i := 0;
    while i < |str1| && i < |str2| && str1[i] == str2[i]
      invariant 0 <= i <= |str1| && i <= |str2|
      invariant StrCompare(str1, str2) == StrCompare(str1[i..], str2[i..])
    {
      i := i + 1;
    }
    if i == |str1| && i == |str2| {
      return 0;
    } else if i == |str1| {
      return -1;
    } else if i == |str2| {
      return 1;
    } else {
      return str1[i] as int - str2[i] as int;
    }
  }

  /** The comparison `setq` and `adrof1` both make: the first characters as
      signed numbers (the empty name counts as NUL there), then `Strcmp`. */
  function Compare(a: Name, b: Name): int {
    if First(a) != First(b) then First(a) - First(b) else StrCompare(a, b)
  }

  predicate Before(a: Name, b: Name) {
    Compare(a, b) < 0
  }

  /** Behind a common prefix of k characters: a string that ends there comes first, and otherwise the
      difference of the two characters decides. */
  lemma {:induction false} FirstDifference(a: seq<Char>, b: seq<Char>, k: nat)
    requires k <= |a| && k <= |b| && a[..k] == b[..k] && (k < |a| && k < |b| ==> a[k] != b[k])
    ensures k == |a| == |b| ==> StrCompare(a, b) == 0
    ensures k == |a| < |b| ==> StrCompare(a, b) == -1
    ensures k == |b| < |a| ==> StrCompare(a, b) == 1
    ensures k < |a| && k < |b| ==> StrCompare(a, b) == a[k] as int - b[k] as int
    decreases k
  {
    if k > 0 {
      assert a[0] == a[..k][0] == b[..k][0] == b[0];
      assert a[1..][..k - 1] == a[..k][1..] && b[1..][..k - 1] == b[..k][1..];
      FirstDifference(a[1..], b[1..], k - 1);
    }
  }

  lemma {:induction false} StrCompareZero(a: seq<Char>, b: seq<Char>)
    ensures StrCompare(a, b) == 0 <==> a == b
  {
    if a != [] && b != [] && a[0] == b[0] {
      StrCompareZero(a[1..], b[1..]);
      assert a == [a[0]] + a[1..] && b == [b[0]] + b[1..];
    }
  }

  lemma {:induction false} StrCompareAntisymmetric(a: seq<Char>, b: seq<Char>)
    ensures StrCompare(a, b) == -StrCompare(b, a)
  {
    if a != [] && b != [] && a[0] == b[0] {
      StrCompareAntisymmetric(a[1..], b[1..]);
    }
  }

  lemma {:induction false} StrCompareTransitive(a: seq<Char>, b: seq<Char>, c: seq<Char>)
    requires StrCompare(a, b) < 0 && StrCompare(b, c) < 0
    ensures StrCompare(a, c) < 0
  {
    if a != [] && b != [] && c != [] && a[0] == b[0] && b[0] == c[0] {
      StrCompareTransitive(a[1..], b[1..], c[1..]);
    }
  }

  /** The tree's comparison is a strict total order on names, negative characters included. */
  lemma CompareTotalOrder(a: Name, b: Name)
    ensures Compare(a, b) == 0 <==> a == b
    ensures Compare(a, b) == -Compare(b, a)
  {
    StrCompareZero(a, b);
    StrCompareAntisymmetric(a, b);
  }

  /** The order of the names: the first characters decide, where the empty name has a 0, and then `Strcmp`. */
  lemma NameOrder(a: Name, b: Name)
    ensures Before(a, b) <==>
      if a == [] then b != [] && b[0] > 0
      else if b == [] then a[0] < 0
      else a[0] < b[0] || (a[0] == b[0] && StrCompare(a, b) < 0)
  {
    StrCompareZero(a, b);
  }

  lemma CompareTransitive(a: Name, b: Name, c: Name)
    requires Before(a, b) && Before(b, c)
    ensures Before(a, c)
  {
    if First(a) == First(b) == First(c) {
      StrCompareTransitive(a, b, c);
    }
  }
}
