/** What the records and lines of dd's conversions are, byte by byte. */
module DdLaws {
  import opened DdMeaning

  /** A byte as the table has it. */
  function Mapped(t: Ctab, c: byte): byte { if t.NoTable? then c else t.map256[c as int] }

  /** Every byte of a record: the line's, or a space behind its end, as the table has it. */
  lemma RecordAt(line: seq<byte>, cbsz: nat, t: Ctab, k: nat)
    requires k < cbsz
    ensures var c := if k < |line| then line[k] else SPACE;
      Record(line, cbsz, t)[k] == Mapped(t, c)
  {
  }

  /** Records stand one after the other, cbsz bytes each. */
  lemma {:induction false} RecordsAt(lines: seq<seq<byte>>, cbsz: nat, t: Ctab, i: nat)
    requires i < |lines|
    ensures 0 <= i * cbsz <= (i + 1) * cbsz <= |lines| * cbsz == |Records(lines, cbsz, t)|
    ensures Records(lines, cbsz, t)[i * cbsz..(i + 1) * cbsz] == Record(lines[i], cbsz, t)
    decreases |lines|
  {
    var last := |lines| - 1;
    var front, r := Records(lines[..last], cbsz, t), Record(lines[last], cbsz, t);
    RecordsLength(lines[..last], cbsz, t);
    Steps(i, last, cbsz);
    if i < last {
      RecordsAt(lines[..last], cbsz, t, i);
      assert (front + r)[i * cbsz..(i + 1) * cbsz] == front[i * cbsz..(i + 1) * cbsz];
    } else {
      assert (front + r)[|front|..|front| + cbsz] == r;
    }
  }

  lemma {:induction false} RecordsLength(lines: seq<seq<byte>>, cbsz: nat, t: Ctab)
    ensures |Records(lines, cbsz, t)| == |lines| * cbsz
    decreases |lines|
  {
    if lines != [] {
      RecordsLength(lines[..|lines| - 1], cbsz, t);
      Steps(|lines| - 1, |lines| - 1, cbsz);
    }
  }

  lemma Steps(i: nat, last: nat, sz: nat)
    requires i <= last
    ensures 0 <= i * sz && (i + 1) * sz == i * sz + sz && (last + 1) * sz == last * sz + sz
    ensures i < last ==> (i + 1) * sz <= last * sz
  {
    if i < last {
      Ordered(i + 1, last, sz);
    }
  }

  lemma Ordered(a: nat, b: nat, sz: nat)
    requires a <= b
    ensures a * sz <= b * sz
  {
  }

  /** x is the record c without the blanks at its end. */
  predicate WithoutBlanks(x: seq<byte>, c: seq<byte>) {
    x <= c && (forall j :: |x| <= j < |c| ==> c[j] == SPACE) && (x != [] ==> x[|x| - 1] != SPACE)
  }

  lemma {:induction false} StrippedBlanks(c: seq<byte>)
    ensures WithoutBlanks(Stripped(c), c)
  {
    if c != [] && c[|c| - 1] == SPACE {
      StrippedBlanks(c[..|c| - 1]);
    }
  }

  /** What `unblock` and `unblock_close` make of any input: a line for every cbsz bytes, and one for what
      is left over. */
  lemma {:induction false} UnblockMeaning(s: seq<byte>, cbsz: nat) returns (lines: seq<seq<byte>>)
    requires cbsz > 0
    ensures Unblocked(s, cbsz) + UnblockRest(s, cbsz) == Joined(lines)
    ensures Pieces(lines, s, cbsz)
    decreases |s|
  {
    if |s| < cbsz {
      lines := if s == [] then [] else [Stripped(s)];
      LastPiece(s, cbsz);
    } else {
      var rest := UnblockMeaning(s[cbsz..], cbsz);
      lines := [Stripped(s[..cbsz])] + rest;
      JoinedFirst(Stripped(s[..cbsz]), rest);
      FirstPiece(s, cbsz);
      MorePieces(Stripped(s[..cbsz]), rest, s, cbsz);
    }
  }

  /** The lines are all the pieces of s, as many as it takes. */
  predicate Pieces(lines: seq<seq<byte>>, s: seq<byte>, cbsz: nat) {
    |s| <= |lines| * cbsz < |s| + cbsz && forall i :: 0 <= i < |lines| ==> Piece(lines[i], s, i, cbsz)
  }

  lemma MorePieces(x: seq<byte>, rest: seq<seq<byte>>, s: seq<byte>, cbsz: nat)
    requires 0 < cbsz <= |s| && Piece(x, s, 0, cbsz) && Pieces(rest, s[cbsz..], cbsz)
    ensures Pieces([x] + rest, s, cbsz)
  {
    Steps(|rest|, |rest|, cbsz);
    forall i | 0 <= i < |[x] + rest| ensures Piece(([x] + rest)[i], s, i, cbsz) {
      if i > 0 {
        NextPiece(rest[i - 1], s, i, cbsz);
      }
    }
  }

  lemma LastPiece(s: seq<byte>, cbsz: nat)
    requires |s| < cbsz
    ensures Unblocked(s, cbsz) + UnblockRest(s, cbsz) == Joined(if s == [] then [] else [Stripped(s)])
    ensures Pieces(if s == [] then [] else [Stripped(s)], s, cbsz)
  {
    JoinedFirst(Stripped(s), []);
    assert [Stripped(s)] + [] == [Stripped(s)] && Stripped(s) + [NEWLINE] + [] == Stripped(s) + [NEWLINE];
    StrippedBlanks(s);
    assert [] + UnblockRest(s, cbsz) == UnblockRest(s, cbsz) && s[..|s|] == s;
  }

  lemma FirstPiece(s: seq<byte>, cbsz: nat)
    requires 0 < cbsz <= |s|
    ensures Piece(Stripped(s[..cbsz]), s, 0, cbsz)
    ensures Unblocked(s, cbsz) + UnblockRest(s, cbsz) ==
      Stripped(s[..cbsz]) + [NEWLINE] + (Unblocked(s[cbsz..], cbsz) + UnblockRest(s[cbsz..], cbsz))
  {
    StrippedBlanks(s[..cbsz]);
    Regroup(Stripped(s[..cbsz]) + [NEWLINE], Unblocked(s[cbsz..], cbsz), UnblockRest(s[cbsz..], cbsz));
  }

  /** The i-th piece of cbsz bytes, the last one shorter, without its blanks. */
  predicate Piece(x: seq<byte>, s: seq<byte>, i: nat, cbsz: nat) {
    0 <= i * cbsz < |s| && WithoutBlanks(x, s[i * cbsz..Min(i * cbsz + cbsz, |s|)])
  }

  lemma NextPiece(x: seq<byte>, s: seq<byte>, i: nat, cbsz: nat)
    requires i > 0 && cbsz <= |s| && Piece(x, s[cbsz..], i - 1, cbsz)
    ensures Piece(x, s, i, cbsz)
  {
    Steps(i - 1, i - 1, cbsz);
    var from := (i - 1) * cbsz;
    assert s[cbsz..][from..Min(from + cbsz, |s| - cbsz)] == s[i * cbsz..Min(i * cbsz + cbsz, |s|)];
  }

  lemma {:induction false} JoinedFirst(x: seq<byte>, rest: seq<seq<byte>>)
    ensures Joined([x] + rest) == x + [NEWLINE] + Joined(rest)
    decreases |rest|
  {
    var lines, last := [x] + rest, |rest| - 1;
    if rest == [] {
      assert lines[..0] == [] && [] + x == x && x + [NEWLINE] + [] == x + [NEWLINE];
    } else {
      JoinedFirst(x, rest[..last]);
      assert lines[..|lines| - 1] == [x] + rest[..last];
    }
  }

  lemma Regroup(a: seq<byte>, b: seq<byte>, c: seq<byte>)
    ensures (a + b) + c == a + (b + c)
  {
  }

  // ---- the whole conversions ---------------------------------------------------------------------

  /** Without a record conversion every byte is translated. */
  lemma DefMeaning(s: seq<byte>, cbsz: nat, t: Ctab)
    ensures |Converted(Def, s, cbsz, t)| == |s|
    ensures forall i :: 0 <= i < |s| ==> Converted(Def, s, cbsz, t)[i] == Mapped(t, s[i])
  {
    assert TrAll(t, s) + [] == TrAll(t, s);
  }

  /** `unblock` translates the input first. */
  lemma UnblockTranslated(s: seq<byte>, cbsz: nat, t: Ctab) returns (u: seq<byte>, lines: seq<seq<byte>>)
    requires cbsz > 0
    ensures |u| == |s| && forall i :: 0 <= i < |s| ==> u[i] == Mapped(t, s[i])
    ensures Converted(Unblock, s, cbsz, t) == Joined(lines) && Pieces(lines, u, cbsz)
  {
    u := TrAll(t, s);
    lines := UnblockMeaning(u, cbsz);
  }

  /** `block`: the record of every complete line, then what an incomplete last line comes to. */
  lemma BlockRecords(s: seq<byte>, cbsz: nat, t: Ctab)
    requires cbsz > 0
    ensures Joined(Lines(s)) + Tail(s) == s
    ensures Converted(Block, s, cbsz, t) == Records(Lines(s), cbsz, t) + LastLine(Tail(s), cbsz, t)
  {
    JoinedLines(s);
    var a, b, c := Records(Lines(s), cbsz, t), if |Tail(s)| >= cbsz then TrAll(t, Tail(s)[..cbsz]) else [],
                   BlockRest(s, cbsz, t);
    Regroup(a, b, c);
    if |Tail(s)| >= cbsz {
      assert b + [] == b;
    } else {
      assert [] + c == c;
    }
  }

  /** A last line without a newline: cut and translated if it is long enough, otherwise as it is, with
      translated spaces behind. */
  function LastLine(tail: seq<byte>, cbsz: nat, t: Ctab): (r: seq<byte>)
    ensures tail == [] && cbsz > 0 ==> r == []
    ensures |tail| >= cbsz ==> |r| == cbsz && forall i :: 0 <= i < cbsz ==> r[i] == Mapped(t, tail[i])
    ensures 0 < |tail| < cbsz ==> |r| == cbsz && r[..|tail|] == tail && forall i :: |tail| <= i < cbsz ==> r[i] == Mapped(t, SPACE)
  {
    if |tail| >= cbsz then TrAll(t, tail[..cbsz])
    else if tail == [] then []
    else tail + Repeat(Tr(t, SPACE), cbsz - |tail|)
  }
}
