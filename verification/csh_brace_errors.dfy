/** Which words brace expansion leaves as they are, and which it rejects. */
module CshBraceErrors {
  import opened CshBraces

  /** A word without an opening brace, and the two words left for find(1). */
  lemma LeftAlone(s: Word)
    requires '{' !in s || s == "{" || s == "{}"
    ensures Expand(s) == Ok([s])
  {
    if '{' !in s {
      NoBrace(s, 0);
    }
  }

  lemma {:induction false} NoBrace(s: Word, i: nat)
    requires i <= |s| && '{' !in s
    ensures Brace(s, i) == |s|
    decreases |s| - i
  {
    if i < |s| {
      assert s[i] in s;
      NoBrace(s, i + 1);
    }
  }

  lemma {:induction false} BraceBehind(x: Word, y: Word, i: nat)
    requires i <= |x| && '{' !in x
    ensures Brace(x + "{" + y, i) == |x|
    decreases |x| - i
  {
    if i < |x| {
      assert x[i] in x && (x + "{" + y)[i] == x[i];
      BraceBehind(x, y, i + 1);
    }
  }

  /** Opening minus closing braces. */
  function Nest(y: Word): int {
    if y == "" then 0
    else Nest(y[..|y| - 1]) + if y[|y| - 1] == '{' then 1 else if y[|y| - 1] == '}' then -1 else 0
  }

  lemma NestTake(y: Word, k: nat)
    requires k < |y|
    ensures Nest(y[..k + 1]) == Nest(y[..k]) + if y[k] == '{' then 1 else if y[k] == '}' then -1 else 0
  {
    assert y[..k + 1][..k] == y[..k];
  }

  /** Where there are no brackets, the group is closed if and only if the braces go below where it began. */
  lemma {:induction false} CloseIff(s: Word, b: nat, y: Word, k: nat, l: nat)
    requires b + |y| == |s| && s[b..] == y && k <= |y| && l == Nest(y[..k])
    requires forall j :: k <= j < |y| ==> y[j] != '['
    ensures var r := Close(s, b + k, l);
      if exists j :: k <= j <= |y| && Nest(y[..j]) < 0 then r.Ok? else r == Missing('}')
    decreases |y| - k
  {
    if k < |y| {
      NestTake(y, k);
      assert s[b + k] == y[k];
      if y[k] == '}' && l == 0 {
        assert Nest(y[..k + 1]) < 0;
      } else {
        CloseIff(s, b, y, k + 1, Nest(y[..k + 1]));
      }
    }
  }

  /** A word is rejected when its first group is. */
  lemma GroupMissing(x: Word, t: Word, c: char)
    requires '{' !in x && x + "{" + t != "{" && x + "{" + t != "{}"
    requires Close(x + "{" + t, |x| + 1, 0) == Missing(c)
    ensures Expand(x + "{" + t) == Missing(c)
  {
    BraceBehind(x, t, 0);
  }

  lemma Behind(x: Word, t: Word)
    ensures var s, b := x + "{" + t, |x| + 1; |s| == b + |t| && s[b..] == t
  {
  }

  lemma PairMeans(x: Word, y: Word)
    requires '{' !in x && x + "{" + y == "{}"
    ensures y == "}"
  {
    var s := x + "{" + y;
    assert s[|x|] == '{' && s[|x| + 1..] == y;
  }

  lemma PairNests(y: Word)
    requires y == "}"
    ensures Nest(y[..1]) < 0
  {
    NestTake(y, 0);
    assert y[..0] == "";
  }

  lemma NotPair(x: Word, y: Word)
    requires '{' !in x && forall j :: 0 <= j <= |y| ==> Nest(y[..j]) >= 0
    ensures x + "{" + y != "{}"
  {
    if x + "{" + y == "{}" {
      PairMeans(x, y);
      PairNests(y);
    }
  }

  /** A brace that nothing closes. */
  lemma BraceMissing(x: Word, y: Word)
    requires '{' !in x && '[' !in y && x + "{" + y != "{"
    requires forall j :: 0 <= j <= |y| ==> Nest(y[..j]) >= 0
    ensures Expand(x + "{" + y) == Missing('}')
  {
    var s, b := x + "{" + y, |x| + 1;
    Behind(x, y);
    NoBracket(y);
    CloseUpTo(s, b, y, 0, |y|, 0);
    NotPair(x, y);
    GroupMissing(x, y, '}');
  }

  lemma NoBracket(y: Word)
    requires '[' !in y
    ensures y[..0] == "" && forall j :: 0 <= j < |y| ==> y[j] != '['
  {
  }

  /** Before a bracket, as long as the group is not closed, the search goes on. */
  lemma {:induction false} CloseUpTo(s: Word, b: nat, y: Word, k: nat, n: nat, l: nat)
    requires b + |y| == |s| && s[b..] == y && k <= n <= |y| && l == Nest(y[..k])
    requires forall j :: k <= j < n ==> y[j] != '['
    requires forall j :: k <= j <= n ==> Nest(y[..j]) >= 0
    ensures Close(s, b + k, l) == Close(s, b + n, Nest(y[..n]))
    decreases n - k
  {
    if k < n {
      NestTake(y, k);
      assert s[b + k] == y[k] && Nest(y[..k + 1]) >= 0;
      CloseUpTo(s, b, y, k + 1, n, Nest(y[..k + 1]));
    }
  }

  lemma {:induction false} NoClassEnd(s: Word, i: nat)
    requires i <= |s| && forall j :: i <= j < |s| ==> s[j] != ']'
    ensures ClassEnd(s, i) == |s|
    decreases |s| - i
  {
    if i < |s| {
      NoClassEnd(s, i + 1);
    }
  }

  /** A bracket inside a group that nothing closes. */
  lemma BracketMissing(x: Word, y: Word, z: Word)
    requires '{' !in x && '[' !in y && ']' !in z
    requires forall j :: 0 <= j <= |y| ==> Nest(y[..j]) >= 0
    ensures Expand(x + "{" + (y + "[" + z)) == Missing(']')
  {
    var t := y + "[" + z;
    var s, b := x + "{" + t, |x| + 1;
    Behind(x, t);
    UpToBracket(y, z);
    CloseUpTo(s, b, t, 0, |y|, 0);
    assert s[b + |y|] == t[|y|];
    forall j | b + |y| + 1 <= j < |s| ensures s[j] != ']' {
      assert s[j] == t[j - b];
    }
    NoClassEnd(s, b + |y| + 1);
    assert s[b + |y|] != '}' && |s| > 1;
    GroupMissing(x, t, ']');
  }

  lemma UpToBracket(y: Word, z: Word)
    requires '[' !in y && ']' !in z && forall j :: 0 <= j <= |y| ==> Nest(y[..j]) >= 0
    ensures var t := y + "[" + z;
      |t| > |y| && t[|y|] == '[' && t[..0] == "" && (forall j :: 0 <= j < |y| ==> t[j] != '[') &&
      (forall j :: 0 <= j <= |y| ==> Nest(t[..j]) >= 0) && forall j :: |y| < j < |t| ==> t[j] != ']'
  {
    var t := y + "[" + z;
    forall j | 0 <= j <= |y| ensures Nest(t[..j]) >= 0 {
      assert t[..j] == y[..j];
    }
    forall j | 0 <= j < |y| ensures t[j] != '[' {
      assert t[j] == y[j] && y[j] in y;
    }
    forall j | |y| < j < |t| ensures t[j] != ']' {
      assert t[j] == z[j - |y| - 1] && z[j - |y| - 1] in z;
    }
  }

  /** The first error in a list is that of the list, and without one the words are strung together. */
  lemma {:induction false} FirstMissing(ws: seq<Word>)
    ensures ExpandAll(ws).Missing? ==>
      exists k :: 0 <= k < |ws| && Expand(ws[k]) == ExpandAll(ws) && forall j :: 0 <= j < k ==> Expand(ws[j]).Ok?
    ensures ExpandAll(ws).Ok? <==> forall j :: 0 <= j < |ws| ==> Expand(ws[j]).Ok?
    ensures ws != [] && ExpandAll(ws).Ok? ==>
      ExpandAll(ws[1..]).Ok? && ExpandAll(ws).value == Expand(ws[0]).value + ExpandAll(ws[1..]).value
  {
    if ws != [] {
      FirstMissing(ws[1..]);
      if Expand(ws[0]).Ok? && ExpandAll(ws[1..]).Missing? {
        var k :| 0 <= k < |ws[1..]| && Expand(ws[1..][k]) == ExpandAll(ws[1..]) && forall j :: 0 <= j < k ==> Expand(ws[1..][j]).Ok?;
        assert Expand(ws[k + 1]) == ExpandAll(ws);
        forall j | 0 <= j < k + 1 ensures Expand(ws[j]).Ok? {
          assert j > 0 ==> ws[j] == ws[1..][j - 1];
        }
      }
      if ExpandAll(ws).Ok? {
        forall j | 0 <= j < |ws| ensures Expand(ws[j]).Ok? {
          assert j > 0 ==> ws[j] == ws[1..][j - 1];
        }
      }
    }
  }
}
