/** csh's `expbrace`: the brace expansion of a list of words, in place in the array that holds it. */
module CshExpbrace {
  import opened CshBraces

  datatype Slot = Null | At(word: Word)

  /** `GLOBSPACE`, by which the array grows. */
  const GLOBSPACE := 100

  /** The first el slots hold the words ws, and a null pointer ends them. */
  ghost predicate Holds(nv: array<Slot>, el: nat, ws: seq<Word>)
    reads nv
  {
    |ws| == el < nv.Length && nv[el] == Null && forall i :: 0 <= i < el ==> nv[i] == At(ws[i])
  }

  /** The slot of the null pointer behind the words. */
  method FindEnd(nv: array<Slot>, ghost ws: seq<Word>) returns (el: nat)
    requires Holds(nv, |ws|, ws)
    ensures el == |ws|
  {
    el := 0;
    while nv[el] != Null
      invariant el <= |ws|
      decreases |ws| - el
    {
      el := el + 1;
    }
  }

  /** `xrealloc`: the same words in a longer array. */
  method Grow(nv: array<Slot>, el: nat, size: nat, ghost ws: seq<Word>) returns (r: array<Slot>)
    requires Holds(nv, el, ws) && size >= nv.Length
    ensures fresh(r) && r.Length == size && Holds(r, el, ws)
  {
    r := new Slot[size](_ => Null);
    for i := 0 to nv.Length
      invariant forall j :: 0 <= j < i ==> r[j] == nv[j]
    {
      r[i] := nv[i];
    }
  }

  /** The words ws with the one at i replaced by those of bl. */
  function Spliced(ws: seq<Word>, i: nat, bl: seq<Word>): seq<Word>
    requires i < |ws|
  {
    ws[..i] + bl + ws[i + 1..]
  }

  /** The words behind slot i, and the null pointer, move len slots up, the last one first. */
  method ShiftUp(nv: array<Slot>, el: nat, i: nat, len: nat)
    requires i <= el && el + len < nv.Length
    modifies nv
    ensures forall k :: 0 <= k <= i ==> nv[k] == old(nv[k])
    ensures forall k :: i + len < k <= el + len ==> nv[k] == old(nv[k - len])
  {
    var bp := el;
    while bp != i
      invariant i <= bp <= el
      invariant forall k :: 0 <= k <= bp ==> nv[k] == old(nv[k])
      invariant forall k :: bp + len < k <= el + len ==> nv[k] == old(nv[k - len])
    {
      nv[bp + len] := nv[bp];
      bp := bp - 1;
    }
  }

  /** The words of bl from slot i on. */
  method Store(nv: array<Slot>, i: nat, bl: seq<Word>)
    requires i + |bl| <= nv.Length
    modifies nv
    ensures forall k :: 0 <= k < nv.Length ==>
      nv[k] == if i <= k < i + |bl| then At(bl[k - i]) else old(nv[k])
  {
    var n := 0;
    while n < |bl|
      invariant n <= |bl|
      invariant forall k :: 0 <= k < nv.Length ==>
        nv[k] == if i <= k < i + n then At(bl[k - i]) else old(nv[k])
    {
      nv[i + n] := At(bl[n]);
      n := n + 1;
    }
  }

  /** Put the words bl where the word at i was. */
  method Splice(nv: array<Slot>, el: nat, i: nat, bl: seq<Word>, ghost ws: seq<Word>)
    requires Holds(nv, el, ws) && i < el && bl != [] && el + |bl| - 1 < nv.Length
    modifies nv
    ensures Holds(nv, el + |bl| - 1, Spliced(ws, i, bl))
  {
    nv[i] := At(bl[0]);
    ShiftUp(nv, el, i, |bl| - 1);
    Store(nv, i + 1, bl[1..]);
    SplicedAt(ws, i, bl);
  }

  lemma SplicedAt(ws: seq<Word>, i: nat, bl: seq<Word>)
    requires i < |ws| && bl != []
    ensures var r := Spliced(ws, i, bl);
      |r| == |ws| + |bl| - 1 &&
      forall k :: 0 <= k < |r| ==>
        r[k] == if k < i then ws[k] else if k < i + |bl| then bl[k - i] else ws[k - |bl| + 1]
  {
  }

  /** What the loop has left to do: the words before i are done, and what the rest expands to
      makes the expansion of the words the loop started with. */
  ghost predicate Pending(ws: seq<Word>, i: nat, first: seq<Word>) {
    i <= |ws| && Both(Ok(ws[..i]), ExpandAll(ws[i..])) == ExpandAll(first)
  }

  lemma PendingFirst(first: seq<Word>)
    ensures Pending(first, 0, first)
  {
    assert first[0..] == first && first[..0] == [];
    if ExpandAll(first).Ok? {
      assert [] + ExpandAll(first).value == ExpandAll(first).value;
    }
  }

  lemma PendingLast(ws: seq<Word>, i: nat, first: seq<Word>)
    requires Pending(ws, i, first) && i == |ws|
    ensures ExpandAll(first) == Ok(ws)
  {
    assert ws[i..] == [] && ws[..i] == ws && ws + [] == ws;
  }

  lemma KeepWord(ws: seq<Word>, i: nat, first: seq<Word>)
    requires Pending(ws, i, first) && i < |ws| && Expand(ws[i]) == Ok([ws[i]])
    ensures Pending(ws, i + 1, first) && StepsAll(ws[i + 1..]) < StepsAll(ws[i..])
  {
    assert ws[i..][1..] == ws[i + 1..] && ws[i..][0] == ws[i];
    BothAssociative(Ok(ws[..i]), Ok([ws[i]]), ExpandAll(ws[i + 1..]));
    assert ws[..i + 1] == ws[..i] + [ws[i]];
    StepsPositive(ws[i]);
  }

  lemma StepsPositive(s: Word)
    ensures Steps(s) >= 1
  {
  }

  lemma SpliceWord(ws: seq<Word>, i: nat, first: seq<Word>)
    requires Pending(ws, i, first) && i < |ws| && !Untouched(ws[i]) && Brace(ws[i], 0) < |ws[i]|
    requires Globbrace(ws[i]).Ok?
    ensures var r := Spliced(ws, i, Globbrace(ws[i]).value);
      Pending(r, i, first) && StepsAll(r[i..]) < StepsAll(ws[i..])
  {
    SplicedParts(ws, i, Globbrace(ws[i]).value);
    Rewrite(ws[i], ws[i + 1..]);
  }

  /** The words before and from the place where bl has been put. */
  lemma SplicedParts(ws: seq<Word>, i: nat, bl: seq<Word>)
    requires i < |ws|
    ensures Spliced(ws, i, bl)[..i] == ws[..i] && Spliced(ws, i, bl)[i..] == bl + ws[i + 1..]
    ensures ws[i..] == [ws[i]] + ws[i + 1..] && i <= |Spliced(ws, i, bl)|
  {
  }

  lemma FailWord(ws: seq<Word>, i: nat, first: seq<Word>)
    requires Pending(ws, i, first) && i < |ws| && !Untouched(ws[i]) && Brace(ws[i], 0) < |ws[i]|
    requires Globbrace(ws[i]).Missing?
    ensures ExpandAll(first) == Missing(Globbrace(ws[i]).c)
  {
  }

  /** A group has at least one alternative. */
  lemma {:induction false} SomeAlternative(s: Word, pl: nat, i: nat, pe: nat, l: nat)
    requires pl <= i <= pe < |s| && Close(s, i, l) == Ok(pe)
    ensures Alternatives(s, pl, i, pe, l) != []
    decreases pe - i
  {
    if s[i] == '[' {
      SomeAlternative(s, pl, ClassEnd(s, i + 1) + 1, pe, l);
    } else if s[i] == '{' {
      SomeAlternative(s, pl, i + 1, pe, l + 1);
    } else if s[i] == '}' && l > 0 {
      SomeAlternative(s, pl, i + 1, pe, l - 1);
    } else if !(s[i] == '}' || (s[i] == ',' && l == 0)) {
      SomeAlternative(s, pl, i + 1, pe, l);
    }
  }

  lemma GlobbraceSome(s: Word)
    requires Brace(s, 0) < |s| && Globbrace(s).Ok?
    ensures Globbrace(s).value != []
  {
    var b := Brace(s, 0);
    SomeAlternative(s, b + 1, b + 1, Close(s, b + 1, 0).value, 0);
  }

  /** Whether the word has an opening brace. */
  method HasBrace(s: Word) returns (found: bool)
    ensures found == (Brace(s, 0) < |s|)
  {
    var i := 0;
    while i < |s|
      invariant i <= |s| && Brace(s, 0) == Brace(s, i)
    {
      if s[i] == '{' {
        return true;
      }
      i := i + 1;
    }
    return false;
  }

  /** The array has room for len more words, or is replaced by one that has. */
  method MakeRoom(nv: array<Slot>, el: nat, len: nat, ghost ws: seq<Word>) returns (r: array<Slot>)
    requires Holds(nv, el, ws)
    ensures (r == nv || fresh(r)) && Holds(r, el, ws) && el + len <= r.Length
  {
    r := nv;
    if el + len >= nv.Length {
      var l := el + len - nv.Length;
      r := Grow(nv, el, nv.Length + (if GLOBSPACE > l then GLOBSPACE else l), ws);
    }
  }

  /** `expbrace`: the words are replaced by their expansion, from left to right; a word with a
      bracket or brace left open ends it with an error. */
  method Expbrace(v: array<Slot>, ghost first: seq<Word>) returns (r: Result<(array<Slot>, nat)>, ghost words: seq<Word>)
    requires Holds(v, |first|, first)
    modifies v
    ensures r.Missing? ==> ExpandAll(first) == Missing(r.c)
    ensures r.Ok? ==> ExpandAll(first) == Ok(words) && Holds(r.value.0, r.value.1, words)
  {
    var nv, vl := v, 0;
    words := first;
    var el := FindEnd(nv, first);
    PendingFirst(first);
    while nv[vl] != Null
      invariant nv == v || fresh(nv)
      invariant Holds(nv, el, words) && Pending(words, vl, first)
      decreases StepsAll(words[vl..])
    {
      var s := nv[vl].word;
      var brace := HasBrace(s);
      if Untouched(s) || !brace {
        KeepWord(words, vl, first);
        vl := vl + 1;
      } else {
        var g := SplitBraces(s);
        if g.Missing? {
          FailWord(words, vl, first);
          return Missing(g.c), [];
        }
        GlobbraceSome(s);
        SpliceWord(words, vl, first);
        nv, el := Replace(nv, el, vl, g.value, words);
        words := Spliced(words, vl, g.value);
      }
    }
    PendingLast(words, vl, first);
    return Ok((nv, el)), words;
  }

  /** One rewriting step; a single alternative just takes the place of the word. */
  method Replace(nv: array<Slot>, el: nat, vl: nat, bl: seq<Word>, ghost ws: seq<Word>) returns (r: array<Slot>, e: nat)
    requires Holds(nv, el, ws) && vl < el && bl != []
    modifies nv
    ensures (r == nv || fresh(r)) && Holds(r, e, Spliced(ws, vl, bl))
  {
    if |bl| == 1 {
      nv[vl] := At(bl[0]);
      SplicedAt(ws, vl, bl);
      return nv, el;
    }
    r := MakeRoom(nv, el, |bl|, ws);
    Splice(r, el, vl, bl, ws);
    e := el + |bl| - 1;
  }
}
