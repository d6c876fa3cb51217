/** What dd's conversions mean, as functions of the whole input. */
module DdMeaning {

  newtype byte = x: int | 0 <= x < 256

  const NEWLINE: byte := 10
  const SPACE: byte := 32

  datatype Table = NoTable | Table(map256: seq<byte>)

  type Ctab = t: Table | t.Table? ==> |t.map256| == 256 witness NoTable

  function Tr(t: Ctab, b: byte): byte {
    if t.NoTable? then b else t.map256[b as int]
  }

  function TrAll(t: Ctab, s: seq<byte>): (r: seq<byte>)
    ensures |r| == |s| && forall i :: 0 <= i < |s| ==> r[i] == Tr(t, s[i])
  {
    seq(|s|, i requires 0 <= i < |s| => Tr(t, s[i]))
  }

  lemma TrAllAppend(t: Ctab, a: seq<byte>, b: seq<byte>)
    ensures TrAll(t, a + b) == TrAll(t, a) + TrAll(t, b)
  {
  }

  lemma TrAllNone(s: seq<byte>)
    ensures TrAll(NoTable, s) == s
  {
  }

  function Repeat(b: byte, n: nat): (r: seq<byte>)
    ensures |r| == n && forall i :: 0 <= i < n ==> r[i] == b
  {
    seq(n, _ => b)
  }

  // ---- newline-terminated records ------------------------------------------------

  /** The complete lines of s, without their newlines. */
  function Lines(s: seq<byte>): seq<seq<byte>> {
    if s == [] then []
    else
      var front := s[..|s| - 1];
      if s[|s| - 1] == NEWLINE then Lines(front) + [Tail(front)] else Lines(front)
  }

  /** What follows the last newline of s. */
  function Tail(s: seq<byte>): seq<byte> {
    if s == [] || s[|s| - 1] == NEWLINE then [] else Tail(s[..|s| - 1]) + [s[|s| - 1]]
  }

  lemma TailByte(s: seq<byte>, b: byte)
    ensures Tail(s + [b]) == (if b == NEWLINE then [] else Tail(s) + [b])
    ensures Lines(s + [b]) == (if b == NEWLINE then Lines(s) + [Tail(s)] else Lines(s))
  {
    assert (s + [b])[..|s|] == s;
  }

  /** Input without a newline only lengthens the line being read. */
  lemma {:induction false} TailExtend(s: seq<byte>, x: seq<byte>)
    requires NEWLINE !in x
    ensures Lines(s + x) == Lines(s) && Tail(s + x) == Tail(s) + x
    decreases |x|
  {
    if x == [] {
      assert s + x == s && Tail(s) + x == Tail(s);
    } else {
      var front, b := x[..|x| - 1], x[|x| - 1];
      assert x == front + [b];
      TailExtend(s, front);
      TailByte(s + front, b);
      assert s + x == s + front + [b];
      assert Tail(s) + front + [b] == Tail(s) + x;
    }
  }

  /** A newline completes the line being read. */
  lemma TailClose(s: seq<byte>, x: seq<byte>)
    requires NEWLINE !in x
    ensures Lines(s + x + [NEWLINE]) == Lines(s) + [Tail(s) + x]
    ensures Tail(s + x + [NEWLINE]) == []
  {
    TailExtend(s, x);
    TailByte(s + x, NEWLINE);
  }

  function Min(a: int, b: int): int { if a < b then a else b }

  function Max(a: int, b: int): int { if a < b then b else a }

  /** The cbsz-byte record `block` makes of a line: cut or space-padded, then translated. */
  function Record(line: seq<byte>, cbsz: nat, t: Ctab): (r: seq<byte>)
    ensures |r| == cbsz
  {
    var cut := line[..Min(|line|, cbsz)];
    TrAll(t, cut) + Repeat(Tr(t, SPACE), cbsz - |cut|)
  }

  function Records(lines: seq<seq<byte>>, cbsz: nat, t: Ctab): seq<byte> {
    if lines == [] then []
    else Records(lines[..|lines| - 1], cbsz, t) + Record(lines[|lines| - 1], cbsz, t)
  }

  lemma RecordsSnoc(lines: seq<seq<byte>>, line: seq<byte>, cbsz: nat, t: Ctab)
    ensures Records(lines + [line], cbsz, t) == Records(lines, cbsz, t) + Record(line, cbsz, t)
  {
    assert (lines + [line])[..|lines|] == lines;
  }

  /** What `block` has sent to the output once it has seen the input s: every complete
      line's record, and the record of a line already too long to be anything but cut. */
  function Blocked(s: seq<byte>, cbsz: nat, t: Ctab): seq<byte> {
    Records(Lines(s), cbsz, t) +
    if |Tail(s)| >= cbsz then TrAll(t, Tail(s)[..cbsz]) else []
  }

  lemma {:induction false} TailSuffix(s: seq<byte>)
    ensures |Tail(s)| <= |s| && s == s[..|s| - |Tail(s)|] + Tail(s) && NEWLINE !in Tail(s)
  {
    if s != [] {
      TailSuffix(s[..|s| - 1]);
    }
  }

  /** The input up to and including its last newline. */
  function UpToTail(s: seq<byte>): seq<byte> {
    s[..Max(|s| - |Tail(s)|, 0)]
  }

  lemma UpToTailFacts(s: seq<byte>, cbsz: nat, t: Ctab)
    ensures UpToTail(s) + Tail(s) == s && Tail(UpToTail(s)) == [] && Lines(UpToTail(s)) == Lines(s)
    ensures |Tail(s)| < cbsz ==> Blocked(UpToTail(s), cbsz, t) == Blocked(s, cbsz, t)
  {
    TailSuffix(s);
    TailExtend(UpToTail(s), Tail(s));
  }

  /** More of a line that is already cut sends nothing. */
  lemma CutOn(s: seq<byte>, x: seq<byte>, cbsz: nat, t: Ctab)
    requires NEWLINE !in x && |Tail(s)| >= cbsz
    ensures Blocked(s + x, cbsz, t) == Blocked(s, cbsz, t) && |Tail(s + x)| >= cbsz
  {
    TailExtend(s, x);
    assert (Tail(s) + x)[..cbsz] == Tail(s)[..cbsz];
  }

  /** Nor does its newline. */
  lemma CutEnds(s: seq<byte>, cbsz: nat, t: Ctab)
    requires |Tail(s)| >= cbsz
    ensures Blocked(s + [NEWLINE], cbsz, t) == Blocked(s, cbsz, t) && Tail(s + [NEWLINE]) == []
  {
    TailByte(s, NEWLINE);
    RecordsSnoc(Lines(s), Tail(s), cbsz, t);
    assert Record(Tail(s), cbsz, t) == TrAll(t, Tail(s)[..cbsz]) + [];
    assert Records(Lines(s), cbsz, t) + Record(Tail(s), cbsz, t) + [] == Blocked(s, cbsz, t);
  }

  /** Reading on to the newline of a line already cut sends nothing more. */
  lemma CutLine(s: seq<byte>, x: seq<byte>, cbsz: nat, t: Ctab)
    requires NEWLINE !in x && |Tail(s)| >= cbsz
    ensures Blocked(s + x, cbsz, t) == Blocked(s, cbsz, t) && |Tail(s + x)| >= cbsz
    ensures Blocked(s + x + [NEWLINE], cbsz, t) == Blocked(s, cbsz, t) && Tail(s + x + [NEWLINE]) == []
  {
    CutOn(s, x, cbsz, t);
    CutEnds(s + x, cbsz, t);
  }

  /** A complete line after a newline sends its record. */
  lemma WholeLine(s: seq<byte>, x: seq<byte>, cbsz: nat, t: Ctab)
    requires NEWLINE !in x && Tail(s) == [] && 0 < cbsz
    ensures Blocked(s + x + [NEWLINE], cbsz, t) == Blocked(s, cbsz, t) + Record(x, cbsz, t)
    ensures Tail(s + x + [NEWLINE]) == []
  {
    TailClose(s, x);
    assert [] + x == x;
    RecordsSnoc(Lines(s), x, cbsz, t);
  }

  /** So does an unfinished line once it is long enough to be cut. */
  lemma LongLine(s: seq<byte>, x: seq<byte>, cbsz: nat, t: Ctab)
    requires NEWLINE !in x && Tail(s) == [] && 0 < cbsz <= |x|
    ensures Blocked(s + x, cbsz, t) == Blocked(s, cbsz, t) + TrAll(t, x[..cbsz])
    ensures Tail(s + x) == x && Record(x, cbsz, t) == TrAll(t, x[..cbsz])
  {
    TailExtend(s, x);
    assert [] + x == x;
    assert Blocked(s, cbsz, t) == Records(Lines(s), cbsz, t);
    assert Record(x, cbsz, t) == TrAll(t, x[..cbsz]) + [];
  }

  lemma BlockedByte(s: seq<byte>, b: byte, cbsz: nat, t: Ctab)
    requires 0 < cbsz
    ensures Blocked(s, cbsz, t) <= Blocked(s + [b], cbsz, t)
  {
    var tail := Tail(s);
    if b != NEWLINE {
      TailExtend(s, [b]);
      if |tail| >= cbsz {
        assert (tail + [b])[..cbsz] == tail[..cbsz];
      }
    } else if |tail| >= cbsz {
      assert s + [] + [NEWLINE] == s + [b];
      CutLine(s, [], cbsz, t);
    } else {
      TailClose(s, []);
      assert s + [] + [NEWLINE] == s + [b] && tail + [] == tail;
      RecordsSnoc(Lines(s), tail, cbsz, t);
    }
  }

  /** More input never takes back what `block` has sent. */
  lemma {:induction false} BlockedMonotone(s: seq<byte>, x: seq<byte>, cbsz: nat, t: Ctab)
    requires 0 < cbsz
    ensures Blocked(s, cbsz, t) <= Blocked(s + x, cbsz, t)
    decreases |x|
  {
    if x == [] {
      assert s + x == s;
    } else {
      BlockedByte(s, x[0], cbsz, t);
      BlockedMonotone(s + [x[0]], x[1..], cbsz, t);
      assert s + [x[0]] + x[1..] == s + x;
    }
  }

  /** What `block_close` adds: a short last line is copied as it is, untranslated,
      and padded with translated spaces. */
  function BlockRest(s: seq<byte>, cbsz: nat, t: Ctab): seq<byte> {
    if 0 < |Tail(s)| < cbsz then Tail(s) + Repeat(Tr(t, SPACE), cbsz - |Tail(s)|) else []
  }

  /** The lines of a file, the last one with or without its newline. */
  function AllLines(s: seq<byte>): seq<seq<byte>> {
    Lines(s) + if Tail(s) == [] then [] else [Tail(s)]
  }

  /** Converting with `block` is making every line a record, unless the table would have
      changed a byte of a last line that is short and unterminated. */
  lemma BlockMeaning(s: seq<byte>, cbsz: nat, t: Ctab)
    requires cbsz > 0
    ensures Blocked(s, cbsz, t) + BlockRest(s, cbsz, t) == Records(AllLines(s), cbsz, t) <==>
      (|Tail(s)| < cbsz ==> TrAll(t, Tail(s)) == Tail(s))
  {
    var tail := Tail(s);
    if tail == [] {
      assert AllLines(s) == Lines(s);
    } else {
      RecordsSnoc(Lines(s), tail, cbsz, t);
      var pad := Repeat(Tr(t, SPACE), cbsz - Min(|tail|, cbsz));
      if |tail| >= cbsz {
        assert tail[..Min(|tail|, cbsz)] == tail[..cbsz];
        assert Record(tail, cbsz, t) == TrAll(t, tail[..cbsz]) + [];
      } else {
        assert tail[..Min(|tail|, cbsz)] == tail;
        assert Record(tail, cbsz, t)[..|tail|] == TrAll(t, tail);
        assert BlockRest(s, cbsz, t)[..|tail|] == tail;
        var a := Records(Lines(s), cbsz, t);
        assert Blocked(s, cbsz, t) == a;
        if a + BlockRest(s, cbsz, t) == a + Record(tail, cbsz, t) {
          SameSuffix(a, BlockRest(s, cbsz, t), Record(tail, cbsz, t));
        }
      }
    }
  }

  /** The table that makes 'a' an 'A' and leaves the other bytes alone. */
  function CapitalA(): Ctab {
    Table(seq(256, i requires 0 <= i < 256 => if i == 97 then 65 else i as byte))
  }

  /** The one-byte input "a" without a newline comes out of `block` as it went in. */
  lemma BlockLeavesLastLineUntranslated()
    ensures Blocked([97], 2, CapitalA()) + BlockRest([97], 2, CapitalA()) == [97, SPACE]
    ensures Records(AllLines([97]), 2, CapitalA()) == [65, SPACE]
  {
    var t, s: seq<byte> := CapitalA(), [97];
    TailByte([], 97);
    LoneByte(t);
    assert [] + s == s && AllLines(s) == [] + [s];
    RecordsSnoc([], s, 2, t);
    assert BlockRest(s, 2, t) == [97, SPACE];
  }

  lemma LoneByte(t: Ctab)
    requires t == CapitalA()
    ensures Record([97], 2, t) == [65, SPACE]
  {
    var s: seq<byte> := [97];
    assert s[..Min(1, 2)] == s;
  }

  lemma SameSuffix<T>(a: seq<T>, b: seq<T>, c: seq<T>)
    requires a + b == a + c
    ensures b == c
  {
    assert b == (a + b)[|a|..];
    assert c == (a + c)[|a|..];
  }

  // ---- fixed-length records ------------------------------------------------------

  /** s without its trailing spaces. */
  function Stripped(s: seq<byte>): seq<byte> {
    if s != [] && s[|s| - 1] == SPACE then Stripped(s[..|s| - 1]) else s
  }

  /** What `unblock` has sent to the output for the complete records of s. */
  function Unblocked(s: seq<byte>, cbsz: nat): seq<byte>
    requires cbsz > 0
    decreases |s|
  {
    if |s| < cbsz then [] else Stripped(s[..cbsz]) + [NEWLINE] + Unblocked(s[cbsz..], cbsz)
  }

  function Leftover(s: seq<byte>, cbsz: nat): seq<byte>
    requires cbsz > 0
    decreases |s|
  {
    if |s| < cbsz then s else Leftover(s[cbsz..], cbsz)
  }

  function UnblockRest(s: seq<byte>, cbsz: nat): seq<byte>
    requires cbsz > 0
  {
    if Leftover(s, cbsz) == [] then [] else Stripped(Leftover(s, cbsz)) + [NEWLINE]
  }

  /** More input only matters through the incomplete record it extends. */
  lemma {:induction false} UnblockMore(s: seq<byte>, x: seq<byte>, cbsz: nat)
    requires cbsz > 0
    ensures Unblocked(s + x, cbsz) == Unblocked(s, cbsz) + Unblocked(Leftover(s, cbsz) + x, cbsz)
    ensures Leftover(s + x, cbsz) == Leftover(Leftover(s, cbsz) + x, cbsz)
    decreases |s|
  {
    if |s| < cbsz {
      assert [] + Unblocked(s + x, cbsz) == Unblocked(s + x, cbsz);
    } else {
      assert (s + x)[..cbsz] == s[..cbsz];
      assert (s + x)[cbsz..] == s[cbsz..] + x;
      UnblockMore(s[cbsz..], x, cbsz);
    }
  }

  /** Stripping stops at the last byte that is not a space. */
  lemma {:induction false} StrippedIs(s: seq<byte>, k: nat)
    requires k <= |s| && (forall i :: k <= i < |s| ==> s[i] == SPACE) && (k > 0 ==> s[k - 1] != SPACE)
    ensures Stripped(s) == s[..k]
    decreases |s|
  {
    if k < |s| {
      StrippedIs(s[..|s| - 1], k);
      assert s[..|s| - 1][..k] == s[..k];
    } else {
      assert s[..k] == s;
    }
  }

  /** Lines short enough for their records and without trailing blanks. */
  ghost predicate Fits(lines: seq<seq<byte>>, cbsz: nat) {
    forall i :: 0 <= i < |lines| ==>
      |lines[i]| <= cbsz && (lines[i] != [] ==> lines[i][|lines[i]| - 1] != SPACE)
  }

  function Joined(lines: seq<seq<byte>>): seq<byte> {
    if lines == [] then []
    else Joined(lines[..|lines| - 1]) + lines[|lines| - 1] + [NEWLINE]
  }

  /** What is left of a line after `block` and `unblock`. */
  function Shortened(line: seq<byte>, cbsz: nat): seq<byte> {
    Stripped(line[..Min(|line|, cbsz)])
  }

  function AllShortened(lines: seq<seq<byte>>, cbsz: nat): (r: seq<seq<byte>>)
    ensures |r| == |lines| && forall i :: 0 <= i < |lines| ==> r[i] == Shortened(lines[i], cbsz)
  {
    seq(|lines|, i requires 0 <= i < |lines| => Shortened(lines[i], cbsz))
  }

  lemma {:induction false} StrippedPad(s: seq<byte>, n: nat)
    ensures Stripped(s + Repeat(SPACE, n)) == Stripped(s)
    decreases n
  {
    if n == 0 {
      assert s + Repeat(SPACE, 0) == s;
    } else {
      var u := s + Repeat(SPACE, n);
      assert u[..|u| - 1] == s + Repeat(SPACE, n - 1);
      StrippedPad(s, n - 1);
    }
  }

  lemma {:induction false} StrippedPrefix(s: seq<byte>)
    ensures |Stripped(s)| <= |s| && Stripped(s) == s[..|Stripped(s)|]
    ensures Stripped(s) == s <==> (s != [] ==> s[|s| - 1] != SPACE)
  {
    if s != [] && s[|s| - 1] == SPACE {
      StrippedPrefix(s[..|s| - 1]);
    }
  }

  lemma {:induction false} WholeRecords(lines: seq<seq<byte>>, cbsz: nat, t: Ctab)
    requires cbsz > 0
    ensures Leftover(Records(lines, cbsz, t), cbsz) == []
  {
    if lines != [] {
      var a, r := Records(lines[..|lines| - 1], cbsz, t), Record(lines[|lines| - 1], cbsz, t);
      WholeRecords(lines[..|lines| - 1], cbsz, t);
      UnblockMore(a, r, cbsz);
      assert [] + r == r && r[cbsz..] == [];
    }
  }

  lemma UnblockRecord(line: seq<byte>, cbsz: nat)
    requires cbsz > 0
    ensures Unblocked(Record(line, cbsz, NoTable), cbsz) == Shortened(line, cbsz) + [NEWLINE]
  {
    var cut, r := line[..Min(|line|, cbsz)], Record(line, cbsz, NoTable);
    TrAllNone(cut);
    assert r == cut + Repeat(SPACE, cbsz - |cut|);
    StrippedPad(cut, cbsz - |cut|);
    assert r[..cbsz] == r && r[cbsz..] == [];
    assert Unblocked(r, cbsz) == Stripped(r) + [NEWLINE] + [];
  }

  lemma {:induction false} UnblockRecords(lines: seq<seq<byte>>, cbsz: nat)
    requires cbsz > 0
    ensures Unblocked(Records(lines, cbsz, NoTable), cbsz) == Joined(AllShortened(lines, cbsz))
  {
    if lines != [] {
      var last := |lines| - 1;
      var a, r := Records(lines[..last], cbsz, NoTable), Record(lines[last], cbsz, NoTable);
      UnblockRecords(lines[..last], cbsz);
      WholeRecords(lines[..last], cbsz, NoTable);
      UnblockMore(a, r, cbsz);
      assert [] + r == r;
      UnblockRecord(lines[last], cbsz);
      assert AllShortened(lines, cbsz)[..last] == AllShortened(lines[..last], cbsz);
    }
  }

  lemma {:induction false} JoinedLines(s: seq<byte>)
    ensures Joined(Lines(s)) + Tail(s) == s
  {
    if s != [] {
      var front := s[..|s| - 1];
      JoinedLines(front);
      assert (Lines(front) + [Tail(front)])[..|Lines(front)|] == Lines(front);
      assert s == front + [s[|s| - 1]];
    }
  }

  /** Lines without newlines in them survive being joined. */
  lemma {:induction false} LinesJoined(lines: seq<seq<byte>>)
    requires forall i :: 0 <= i < |lines| ==> NEWLINE !in lines[i]
    ensures Lines(Joined(lines)) == lines && Tail(Joined(lines)) == []
  {
    if lines != [] {
      var last := |lines| - 1;
      LinesJoined(lines[..last]);
      TailClose(Joined(lines[..last]), lines[last]);
      assert [] + lines[last] == lines[last];
      assert lines[..last] + [lines[last]] == lines;
    }
  }

  lemma {:induction false} LinesHaveNoNewline(s: seq<byte>)
    ensures forall i :: 0 <= i < |Lines(s)| ==> NEWLINE !in Lines(s)[i]
    ensures NEWLINE !in Tail(s)
  {
    if s != [] {
      LinesHaveNoNewline(s[..|s| - 1]);
    }
  }

  lemma FitsIsShortened(lines: seq<seq<byte>>, cbsz: nat)
    ensures Fits(lines, cbsz) <==> AllShortened(lines, cbsz) == lines
  {
    forall i | 0 <= i < |lines|
      ensures Shortened(lines[i], cbsz) == lines[i] <==>
        |lines[i]| <= cbsz && (lines[i] != [] ==> lines[i][|lines[i]| - 1] != SPACE)
    {
      var cut := lines[i][..Min(|lines[i]|, cbsz)];
      StrippedPrefix(cut);
      if |lines[i]| <= cbsz {
        assert cut == lines[i];
      }
    }
  }

  /** `unblock` undoes `block` on exactly the inputs made of newline-terminated lines of
      at most cbsz bytes without trailing blanks. */
  lemma UnblockUndoesBlock(s: seq<byte>, cbsz: nat)
    requires cbsz > 0
    ensures var b := Blocked(s, cbsz, NoTable) + BlockRest(s, cbsz, NoTable);
      Unblocked(b, cbsz) + UnblockRest(b, cbsz) == s <==> Tail(s) == [] && Fits(Lines(s), cbsz)
  {
    var b := Blocked(s, cbsz, NoTable) + BlockRest(s, cbsz, NoTable);
    var lines := AllLines(s);
    TrAllNone(Tail(s));
    BlockMeaning(s, cbsz, NoTable);
    UnblockRecords(lines, cbsz);
    WholeRecords(lines, cbsz, NoTable);
    var u := Joined(AllShortened(lines, cbsz));
    assert Unblocked(b, cbsz) + UnblockRest(b, cbsz) == u;
    JoinedLines(s);
    FitsIsShortened(Lines(s), cbsz);
    LinesHaveNoNewline(s);
    ShortenedNoNewline(lines, cbsz);
    if u == s {
      LinesJoined(AllShortened(lines, cbsz));
      assert lines == Lines(s);
    }
    if Tail(s) == [] && Fits(Lines(s), cbsz) {
      assert lines == Lines(s);
    }
  }

  /** A line that ends in a blank loses it. */
  lemma TrailingBlankIsLost(line: seq<byte>)
    requires line == [97, SPACE]
    ensures var s := line + [NEWLINE];
      var b := Blocked(s, 2, NoTable) + BlockRest(s, 2, NoTable);
      Unblocked(b, 2) + UnblockRest(b, 2) == [97, NEWLINE]
  {
    var b := BlankBlocked(line);
    UnblockRecord(line, 2);
    assert line[..1] == [97] && line[..2] == line;
    StrippedIs(line, 1);
    NothingLeft(b);
  }

  lemma BlankBlocked(line: seq<byte>) returns (b: seq<byte>)
    requires line == [97, SPACE]
    ensures var s := line + [NEWLINE]; b == Blocked(s, 2, NoTable) + BlockRest(s, 2, NoTable)
    ensures b == Record(line, 2, NoTable) && |b| == 2
  {
    b := Record(line, 2, NoTable);
    assert [] + line + [NEWLINE] == line + [NEWLINE] && Blocked([], 2, NoTable) == [];
    WholeLine([], line, 2, NoTable);
  }

  lemma NothingLeft(b: seq<byte>)
    requires |b| == 2
    ensures Unblocked(b, 2) + UnblockRest(b, 2) == Unblocked(b, 2)
  {
    assert Leftover(b, 2) == Leftover(b[2..], 2) == [];
    assert Unblocked(b, 2) + [] == Unblocked(b, 2);
  }

  lemma ShortenedNoNewline(lines: seq<seq<byte>>, cbsz: nat)
    requires forall i :: 0 <= i < |lines| ==> NEWLINE !in lines[i]
    ensures forall i :: 0 <= i < |lines| ==> NEWLINE !in AllShortened(lines, cbsz)[i]
  {
    forall i | 0 <= i < |lines| ensures NEWLINE !in Shortened(lines[i], cbsz) {
      StrippedPrefix(lines[i][..Min(|lines[i]|, cbsz)]);
    }
  }

  datatype Conversion = Def | Block | Unblock

  /** What dd has sent to its output once it has read s, before it is told that this was all. */
  function SoFar(conv: Conversion, s: seq<byte>, cbsz: nat, t: Ctab): seq<byte>
    requires conv != Def ==> 0 < cbsz
  {
    match conv
    case Def => TrAll(t, s)
    case Block => Blocked(s, cbsz, t)
    case Unblock => Unblocked(TrAll(t, s), cbsz)
  }

  /** What dd makes of the whole input s. */
  function Converted(conv: Conversion, s: seq<byte>, cbsz: nat, t: Ctab): seq<byte>
    requires conv != Def ==> 0 < cbsz
  {
    SoFar(conv, s, cbsz, t) +
    match conv
    case Def => []
    case Block => BlockRest(s, cbsz, t)
    case Unblock => UnblockRest(TrAll(t, s), cbsz)
  }
}
