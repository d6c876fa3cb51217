/** dd's streaming core: reads of any size go in, blocks of obs bytes come out, and
    what is between calls lives in two fixed buffers and a few counters. */
module DdStream {
  import opened DdDevice
  import opened DdMeaning

  method Memmove(dst: array<byte>, to: nat, src: array<byte>, from: nat, n: nat)
    requires to + n <= dst.Length && from + n <= src.Length
    modifies dst
    ensures dst[..to] == old(dst[..to]) && dst[to..to + n] == old(src[from..from + n])
    ensures dst[to + n..] == old(dst[to + n..])
  {
    forall i | 0 <= i < n {
      dst[to + i] := src[from + i];
    }
  }

  class Dd {
    const conv: Conversion
    const cbsz: nat
    const ctab: Ctab
    const isTape: bool
    /** 0 for no limit */
    const cpyCnt: nat
    const inDb: array<byte>
    const inDbsz: nat
    const outDb: array<byte>
    const outDbsz: nat

    var inDbp: nat
    var inDbcnt: nat
    var inDbrcnt: nat
    var outDbp: nat
    var outDbcnt: nat
    /** `static int intrunc` of `block` */
    var intrunc: bool
    var inFull: nat
    var inPart: nat
    var outFull: nat
    var outPart: nat
    var bytes: nat

    /** the outside world */
    var answers: seq<ReadResult>
    var acks: seq<WriteResult>
    var written: seq<byte>
    /** every byte read so far */
    ghost var input: seq<byte>

    /** The buffers `setup` allocates. */
    ghost predicate Sized() {
      0 < inDbsz && 0 < outDbsz &&
      if conv == Def then inDb == outDb && inDb.Length == outDbsz + inDbsz - 1
      else
        0 < cbsz && inDb != outDb &&
        inDb.Length == Max(inDbsz, cbsz) + cbsz && outDb.Length == outDbsz + cbsz
    }

    /** What has left the conversion: bytes already written, then those waiting in the output buffer. */
    ghost function Sent(): seq<byte>
      reads `written, `outDbcnt, outDb
      requires outDbcnt <= outDb.Length
    {
      written + outDb[..outDbcnt]
    }

    ghost predicate Valid()
      reads `bytes, `written, `input, `inDbp, `inDbcnt, `outDbp, `outDbcnt, `intrunc, inDb, outDb
    {
      ValidBut(input)
    }

    /** Everything read up to `seen` has gone through the conversion. */
    ghost predicate ValidBut(seen: seq<byte>)
      reads `bytes, `written, `inDbp, `inDbcnt, `outDbp, `outDbcnt, `intrunc, inDb, outDb
    {
      Sized() && bytes == |written| && inDbp == inDbcnt && outDbp == outDbcnt < outDbsz && Settled(seen)
    }

    /** What is still in the buffers after the bytes seen. */
    ghost predicate Settled(seen: seq<byte>)
      reads `written, `inDbcnt, `outDbcnt, `intrunc, inDb, outDb
      requires Sized() && outDbcnt < outDbsz
    {
      match conv
      case Def => inDbcnt == outDbcnt && Sent() == TrAll(ctab, seen)
      case Block =>
        inDbcnt < cbsz && (intrunc <==> |Tail(seen)| >= cbsz) &&
        inDb[..inDbcnt] == (if intrunc then [] else Tail(seen)) &&
        Sent() == Blocked(seen, cbsz, ctab)
      case Unblock =>
        inDbcnt < cbsz && inDb[..inDbcnt] == Leftover(TrAll(ctab, seen), cbsz) &&
        Sent() == Unblocked(TrAll(ctab, seen), cbsz)
    }

    constructor (conv: Conversion, cbsz: nat, ibs: nat, obs: nat, ctab: Ctab, isTape: bool, cpyCnt: nat,
                 answers: seq<ReadResult>, acks: seq<WriteResult>)
      requires 0 < ibs && 0 < obs && (conv != Def ==> 0 < cbsz)
      ensures Valid() && input == [] && written == []
      ensures this.conv == conv && this.cbsz == cbsz && this.ctab == ctab && this.isTape == isTape
      ensures inDbsz == ibs && outDbsz == obs && this.cpyCnt == cpyCnt && inFull == inPart == 0
      ensures this.answers == answers && this.acks == acks
      ensures fresh(inDb) && fresh(outDb)
    {
      this.conv, this.cbsz, this.ctab, this.isTape, this.cpyCnt := conv, cbsz, ctab, isTape, cpyCnt;
      inDbsz, outDbsz := ibs, obs;
      if conv == Def {
        var db := new byte[obs + ibs - 1];
        inDb, outDb := db, db;
      } else {
        inDb := new byte[Max(ibs, cbsz) + cbsz];
        outDb := new byte[obs + cbsz];
      }
      inDbp, inDbcnt, inDbrcnt, outDbp, outDbcnt, intrunc := 0, 0, 0, 0, 0, false;
      inFull, inPart, outFull, outPart, bytes := 0, 0, 0, 0, 0;
      this.answers, this.acks, written, input := answers, acks, [], [];
    }

    // ---- output ------------------------------------------------------------------

    /** write(2) of cnt bytes from outp on; -1 stands for an interrupted call. */
    method Write(outp: nat, cnt: nat) returns (nw: int)
      requires 0 < cnt && outp + cnt <= outDb.Length
      modifies this`acks, this`written
      ensures -2 <= nw <= cnt
      ensures written == old(written) + outDb[outp..outp + Max(nw, 0)]
      ensures old(acks) == [] ==> nw == cnt && acks == []
      ensures old(acks) != [] ==> acks == old(acks)[1..] && (nw <= 0 && nw != -1 <==> Fatal(old(acks)[0]))
      ensures nw == -1 <==> old(acks) != [] && old(acks)[0].Interrupted?
      ensures old(acks) != [] && old(acks)[0].Wrote? ==> nw == Max(1, Min(old(acks)[0].n, cnt))
    {
      if acks == [] {
        nw := cnt;
      } else {
        match acks[0] {
          case Wrote(n) => nw := Max(1, Min(n, cnt));
          case Interrupted => nw := -1;
          case EndOfDevice => nw := 0;
          case WriteError => nw := -2;
        }
        acks := acks[1..];
      }
      written := written + outDb[outp..outp + Max(nw, 0)];
    }

    /** The size below which a write that is not complete ends the run. */
    ghost function Limit(): nat { if isTape then outDb.Length else 0 }

    /** The answers of write(2) have been taken since `was`, and none of them ended the run, or the last did. */
    ghost predicate Answered(was: seq<WriteResult>, ok: bool)
      reads `acks
    {
      Took(was, acks, Limit(), ok)
    }

    /** One output block of n bytes, in as many writes as it takes. */
    method WriteBlock(n: nat, outp0: nat) returns (outp: nat, ok: bool, ghost writes: nat)
      requires 0 < n && outp0 + n <= outDb.Length && bytes == |written|
      modifies this`acks, this`written, this`bytes, this`outFull, this`outPart
      ensures outp0 <= outp <= outp0 + n && written == old(written) + outDb[outp0..outp]
      ensures bytes == |written|
      ensures ok <==> outp == outp0 + n
      ensures Answered(old(acks), ok)
      ensures ok ==> writes > 0 && (writes == |old(acks)| - |acks| || (acks == [] && writes == |old(acks)| + 1))
      ensures ok ==> writes <= |old(acks)| + 1
      ensures outFull == old(outFull) + if ok && n == outDbsz && AllInterrupted(old(acks), writes - 1) then 1 else 0
      ensures outFull + outPart == old(outFull + outPart) + writes
    {
      outp, ok, writes := outp0, false, 0;
      var cnt := n;
      while true
        invariant 0 < cnt <= n && outp + cnt == outp0 + n && bytes == |written|
        invariant written == old(written) + outDb[outp0..outp] && !ok && Answered(old(acks), true)
        invariant writes <= |old(acks)| && acks == old(acks)[writes..]
        invariant outFull == old(outFull) && outPart == old(outPart) + writes
        invariant cnt == n <==> AllInterrupted(old(acks), writes)
        decreases cnt, |acks|
      {
        ghost var before := acks;
        var nw := Write(outp, cnt);
        OneWrite(old(acks), before, cnt, nw);
        InterruptedMore(old(acks), writes);
        if nw <= 0 {
          if nw != -1 {
            return;
          }
          nw := 0;
        }
        Seam(old(written), outp0, outp, outp + nw);
        outp := outp + nw;
        bytes := bytes + nw;
        writes := writes + 1;
        if nw == n {
          if n != outDbsz { outPart := outPart + 1; } else { outFull := outFull + 1; }
          ok := true;
          return;
        }
        outPart := outPart + 1;
        if nw == cnt {
          ok := true;
          return;
        }
        if isTape {
          return;
        }
        cnt := cnt - nw;
      }
    }

    lemma Seam(w: seq<byte>, a: nat, b: nat, c: nat)
      requires a <= b <= c <= outDb.Length
      ensures (w + outDb[a..b]) + outDb[b..c] == w + outDb[a..c]
    {
      assert outDb[a..c] == outDb[a..b] + outDb[b..c];
    }

    /** The first k answers are interruptions. */
    static ghost predicate AllInterrupted(a: seq<WriteResult>, k: int) {
      k <= |a| && forall i :: 0 <= i < k ==> a[i].Interrupted?
    }

    static lemma InterruptedMore(a: seq<WriteResult>, k: nat)
      ensures AllInterrupted(a, k + 1) <==> AllInterrupted(a, k) && k < |a| && a[k].Interrupted?
    {
    }

    /** What one write(2) of cnt bytes adds to the answers taken. */
    lemma OneWrite(was: seq<WriteResult>, before: seq<WriteResult>, cnt: nat, nw: int)
      requires Took(was, before, Limit(), true) && 0 < cnt <= outDb.Length
      requires before == [] ==> nw == cnt && acks == []
      requires before != [] ==> acks == before[1..] && (nw <= 0 && nw != -1 <==> Fatal(before[0]))
      requires nw == -1 ==> before != [] && before[0].Interrupted?
      requires before != [] && before[0].Wrote? ==> nw == Max(1, Min(before[0].n, cnt))
      ensures nw == -1 || nw > 0 ==> Answered(was, true)
      ensures nw != -1 && nw <= 0 ==> Answered(was, false)
      ensures isTape && nw < cnt ==> Answered(was, false)
    {
      if before != [] {
        TakenOne(before, Limit());
        TookMeans(before, acks, Limit(), true);
        TookMeans(before, acks, Limit(), false);
        if Took(before, acks, Limit(), true) {
          TookThen(was, before, acks, Limit(), true);
        }
        if Took(before, acks, Limit(), false) {
          TookThen(was, before, acks, Limit(), false);
        }
      }
    }

    /** `dd_out(force)`: whole blocks of outDbsz bytes, or everything when forced. A false
        result is an exit with an error; what was written by then came from the buffer, in order. */
    method DdOut(force: bool) returns (ok: bool)
      requires 0 < outDbsz && outDbcnt <= outDb.Length && outDbp <= outDb.Length && bytes == |written|
      requires if force then 0 < outDbcnt else outDbp == outDbcnt >= outDbsz
      modifies this`acks, this`written, this`bytes, this`outFull, this`outPart, this`outDbp, this`outDbcnt, outDb
      ensures bytes == |written| && old(written) <= written <= old(Sent())
      ensures ok ==> outDbp == outDbcnt < outDbsz && outDbcnt <= outDb.Length && Sent() == old(Sent())
      ensures ok && force ==> outDbcnt == 0
      ensures ok && !force ==> exists k: nat :: |written| - |old(written)| == k * outDbsz
      ensures Answered(old(acks), ok)
    {
      ghost var buf := outDb[..outDbcnt];
      ghost var outp;
      outp, ok := WriteBlocks(force, buf);
      SplitAt(old(written), buf, outp);
      if ok {
        Reassemble(buf[outp..]);
        if !force {
          WholeIsMultiple(outp, outDbsz);
        }
      }
    }

    /** The loop of `dd_out`. */
    method WriteBlocks(force: bool, ghost buf: seq<byte>) returns (ghost outp: nat, ok: bool)
      requires 0 < outDbsz && outDbcnt <= outDb.Length && bytes == |written|
      requires outDb[..outDbcnt] == buf && (if force then 0 < outDbcnt else outDbsz <= outDbcnt)
      modifies this`acks, this`written, this`bytes, this`outFull, this`outPart, this`outDbcnt
      ensures outp <= |buf| && written == old(written) + buf[..outp] && bytes == |written|
      ensures ok ==> outp + outDbcnt == |buf| && outDbcnt < outDbsz
      ensures ok && force ==> outDbcnt == 0
      ensures ok && !force ==> Whole(outp, outDbsz)
      ensures Answered(old(acks), ok)
    {
      var at := 0;
      var n := if force then outDbcnt else outDbsz;
      while true
        invariant 0 < n <= outDbcnt && at + outDbcnt == |buf|
        invariant written == old(written) + buf[..at] && bytes == |written|
        invariant n == (if force then outDbcnt else outDbsz)
        invariant !force ==> Whole(at, outDbsz)
        invariant Answered(old(acks), true)
        decreases outDbcnt
      {
        ghost var start, before, writes := at, acks, 0;
        at, ok, writes := WriteBlock(n, at);
        TookThen(old(acks), before, acks, Limit(), ok);
        outp := at;
        SliceMore(outDb[..], buf, start, at);
        if !ok {
          return;
        }
        outDbcnt := outDbcnt - n;
        if outDbcnt < outDbsz {
          break;
        }
        n := outDbsz;
      }
    }

    /** The tail of `dd_out`: the bytes of a block begun move to the front of the buffer. */
    method Reassemble(ghost rest: seq<byte>)
      requires outDbcnt <= outDbp <= outDb.Length && outDb[outDbp - outDbcnt..outDbp] == rest
      modifies this`outDbp, outDb
      ensures outDbp == outDbcnt && outDb[..outDbcnt] == rest
    {
      if outDbcnt > 0 {
        Memmove(outDb, 0, outDb, outDbp - outDbcnt, outDbcnt);
      }
      outDbp := outDbcnt;
    }

    // ---- conversions: one read's worth of input -------------------------------------

    /** The bytes d have just been read after `prev` and stand at the end of the input buffer. */
    ghost predicate Arrived(prev: seq<byte>, d: seq<byte>)
      reads `bytes, `written, `input, `inDbp, `inDbcnt, `inDbrcnt, `outDbp, `outDbcnt, `intrunc, inDb, outDb
    {
      Sized() && bytes == |written| && input == prev + d && 0 < |d| == inDbrcnt <= inDbsz &&
      inDbp == inDbcnt <= inDb.Length && |d| <= inDbcnt && outDbp == outDbcnt < outDbsz && Added(prev, d)
    }

    /** What the buffers hold when d has been read but not converted. */
    ghost predicate Added(prev: seq<byte>, d: seq<byte>)
      reads `written, `inDbcnt, `outDbcnt, `intrunc, inDb, outDb
      requires Sized() && |d| <= inDbcnt <= inDb.Length && outDbcnt < outDbsz
    {
      match conv
      case Def =>
        outDbcnt == inDbcnt - |d| && Sent() == TrAll(ctab, prev) && inDb[inDbcnt - |d|..inDbcnt] == d
      case Block =>
        inDbcnt - |d| < cbsz && (intrunc <==> |Tail(prev)| >= cbsz) &&
        inDb[..inDbcnt] == (if intrunc then [] else Tail(prev)) + d &&
        Sent() == Blocked(prev, cbsz, ctab)
      case Unblock =>
        inDbcnt - |d| < cbsz && inDb[..inDbcnt] == Leftover(TrAll(ctab, prev), cbsz) + d &&
        Sent() == Unblocked(TrAll(ctab, prev), cbsz)
    }

    /** Everything the conversion has made of the input so far. */
    ghost function Meaning(): seq<byte>
      reads `input
      requires Sized()
    {
      SoFar(conv, input, cbsz, ctab)
    }

    /** Translate the n bytes at inDb[from..] in place. */
    method Translate(from: nat, n: nat)
      requires from + n <= inDb.Length
      modifies inDb
      ensures inDb[..from] == old(inDb[..from]) && inDb[from..from + n] == TrAll(ctab, old(inDb[from..from + n]))
      ensures inDb[from + n..] == old(inDb[from + n..])
    {
      var inp, cnt := from, n;
      while cnt > 0
        invariant inp + cnt == from + n
        invariant forall i :: from <= i < inp ==> inDb[i] == Tr(ctab, old(inDb[i]))
        invariant forall i :: 0 <= i < inDb.Length && !(from <= i < inp) ==> inDb[i] == old(inDb[i])
      {
        inDb[inp] := Tr(ctab, inDb[inp]);
        cnt := cnt - 1;
        inp := inp + 1;
      }
    }

    /** `def`. */
    method DoDef(ghost prev: seq<byte>, ghost d: seq<byte>) returns (ok: bool)
      requires conv == Def && Arrived(prev, d)
      modifies this`inDbp, this`inDbcnt, this`intrunc, this`outDbp, this`outDbcnt, this`acks, this`written,
        this`bytes, this`outFull, this`outPart, inDb, outDb
      ensures if ok then Valid() else written <= Meaning()
      ensures Answered(old(acks), ok)
    {
      ShareBuffer(prev, d);
      ok := true;
      if inDbcnt >= outDbsz {
        ok := DdOut(false);
        inDbp := outDbp;
        inDbcnt := outDbcnt;
      }
    }

    /** "Make the output buffer look right." */
    method ShareBuffer(ghost prev: seq<byte>, ghost d: seq<byte>)
      requires conv == Def && Arrived(prev, d)
      modifies this`outDbp, this`outDbcnt, inDb
      ensures outDbp == inDbp && outDbcnt == inDbcnt && Sent() == TrAll(ctab, input)
    {
      ghost var front := SharedFront(prev, d);
      TranslateShared(front, d);
      SharedSent(prev, d, front);
    }

    lemma SharedFront(prev: seq<byte>, d: seq<byte>) returns (front: seq<byte>)
      requires conv == Def && Arrived(prev, d)
      ensures inDb == outDb && input == prev + d && inDbrcnt == |d| <= inDbcnt == inDbp <= inDb.Length
      ensures front == inDb[..inDbcnt - |d|] && inDb[inDbcnt - |d|..inDbcnt] == d
      ensures TrAll(ctab, prev) == written + front
    {
      assert Added(prev, d);
      front := inDb[..inDbcnt - |d|];
    }

    method TranslateShared(ghost front: seq<byte>, ghost d: seq<byte>)
      requires inDb == outDb && inDbrcnt == |d| <= inDbcnt == inDbp <= inDb.Length
      requires front == inDb[..inDbcnt - |d|] && inDb[inDbcnt - |d|..inDbcnt] == d
      modifies this`outDbp, this`outDbcnt, inDb
      ensures outDbp == inDbp && outDbcnt == inDbcnt && outDb[..outDbcnt] == front + TrAll(ctab, d)
    {
      TranslateNew(d);
      outDbp := inDbp;
      outDbcnt := inDbcnt;
    }

    lemma SharedSent(prev: seq<byte>, d: seq<byte>, front: seq<byte>)
      requires outDbcnt <= outDb.Length && outDb[..outDbcnt] == front + TrAll(ctab, d)
      requires input == prev + d && TrAll(ctab, prev) == written + front
      ensures Sent() == TrAll(ctab, input)
    {
      TrAllAppend(ctab, prev, d);
      assert written + (front + TrAll(ctab, d)) == (written + front) + TrAll(ctab, d);
    }

    /** The bytes just read are translated in place, if there is a table. */
    method TranslateNew(ghost d: seq<byte>)
      requires inDbrcnt == |d| <= inDbcnt == inDbp <= inDb.Length && inDb[inDbcnt - |d|..inDbcnt] == d
      modifies inDb
      ensures inDb[..inDbcnt] == old(inDb[..inDbcnt - |d|]) + TrAll(ctab, d)
    {
      ghost var front := inDb[..inDbcnt - |d|];
      if ctab.Table? {
        Translate(inDbp - inDbrcnt, inDbrcnt);
      } else {
        TrAllNone(d);
      }
      assert inDb[..inDbcnt] == inDb[..inDbcnt - |d|] + inDb[inDbcnt - |d|..inDbcnt];
    }

    /** Bytes from inp on are skipped until a newline has been, or cnt have; the result is
        what is left of cnt, the newline not yet subtracted. */
    method Toss(inp0: nat, cnt0: nat) returns (inp: nat, cnt: nat)
      requires inp0 + cnt0 <= inDb.Length
      ensures cnt <= cnt0 && NEWLINE !in inDb[inp0..inp0 + cnt0 - cnt]
      ensures cnt > 0 ==> inDb[inp0 + cnt0 - cnt] == NEWLINE && inp == inp0 + cnt0 - cnt + 1
    {
      inp, cnt := inp0, cnt0;
      while cnt > 0
        invariant cnt <= cnt0 && inp == inp0 + cnt0 - cnt
        invariant NEWLINE !in inDb[inp0..inp]
      {
        inp := inp + 1;
        if inDb[inp - 1] == NEWLINE {
          break;
        }
        cnt := cnt - 1;
      }
    }

    /** The copying loop of `block`: up to maxlen bytes, translated, stopping at a newline. */
    method CopyText(inp0: nat, maxlen: nat) returns (cnt: nat, inp: nat, ch: byte)
      requires 0 < maxlen && inp0 + maxlen <= inDb.Length && outDbp + maxlen <= outDb.Length && inDb != outDb
      modifies outDb
      ensures cnt <= maxlen && NEWLINE !in inDb[inp0..inp0 + cnt]
      ensures outDb[..outDbp] == old(outDb[..outDbp])
      ensures outDb[outDbp..outDbp + cnt] == TrAll(ctab, inDb[inp0..inp0 + cnt])
      ensures ch == NEWLINE <==> cnt < maxlen
      ensures cnt < maxlen ==> inDb[inp0 + cnt] == NEWLINE && inp == inp0 + cnt + 1
      ensures cnt == maxlen ==> inp == inp0 + cnt
    {
      cnt, inp, ch := 0, inp0, 0;
      var outp := outDbp;
      while cnt < maxlen
        invariant cnt <= maxlen && inp == inp0 + cnt && outp == outDbp + cnt
        invariant NEWLINE !in inDb[inp0..inp] && ch != NEWLINE
        invariant outDb[..outDbp] == old(outDb[..outDbp])
        invariant outDb[outDbp..outp] == TrAll(ctab, inDb[inp0..inp])
      {
        ch := inDb[inp];
        inp := inp + 1;
        if ch == NEWLINE {
          return;
        }
        outDb[outp] := Tr(ctab, ch);
        outp := outp + 1;
        cnt := cnt + 1;
      }
    }

    /** The same, told in terms of what is still unread. */
    method CopyLine(inp0: nat, maxlen: nat, ghost rest: seq<byte>) returns (cnt: nat, inp: nat, ch: byte)
      requires Unread(rest) && inDb != outDb && inp0 == inDbp - inDbcnt && 0 < maxlen <= |rest|
      requires outDbp == outDbcnt && outDbp + maxlen <= outDb.Length
      modifies outDb
      ensures Unread(rest) && Sent() == old(Sent())
      ensures cnt <= maxlen && NEWLINE !in rest[..cnt] && outDb[outDbp..outDbp + cnt] == TrAll(ctab, rest[..cnt])
      ensures ch == NEWLINE <==> cnt < maxlen
      ensures cnt < maxlen ==> rest[cnt] == NEWLINE
      ensures inp == inp0 + cnt + (if ch == NEWLINE then 1 else 0)
    {
      cnt, inp, ch := CopyText(inp0, maxlen);
      SliceOf(inDb[..], inp0, inDbp, rest, 0, cnt);
      assert outDb[..outDbcnt] == old(outDb[..outDbcnt]);
    }

    /** n spaces, translated, go into the output buffer. */
    method Pad(from: nat, n: nat)
      requires from + n <= outDb.Length
      modifies outDb
      ensures outDb[..from] == old(outDb[..from])
      ensures outDb[from..from + n] == Repeat(Tr(ctab, SPACE), n)
    {
      var b := Tr(ctab, SPACE);
      forall i | 0 <= i < n {
        outDb[from + i] := b;
      }
    }

    /** The bytes of `rest` are what `block` still has to look at. */
    ghost predicate Unread(rest: seq<byte>)
      reads `inDbcnt, `inDbp, inDb
    {
      inDbcnt == |rest| <= inDbp <= inDb.Length && inDb[inDbp - inDbcnt..inDbp] == rest
    }

    /** `block` between records: `past` is dealt with, `rest` still stands in the input buffer. */
    ghost predicate Between(past: seq<byte>, rest: seq<byte>)
      reads `bytes, `written, `input, `inDbp, `inDbcnt, `outDbp, `outDbcnt, `intrunc, inDb, outDb
    {
      Sized() && conv == Block && bytes == |written| && input == past + rest && Unread(rest) &&
      outDbp == outDbcnt <= outDb.Length && Sent() == Blocked(past, cbsz, ctab) &&
      if intrunc then rest == [] && |Tail(past)| >= cbsz else Tail(past) == []
    }

    /** `block`. */
    method DoBlock(ghost prev: seq<byte>, ghost d: seq<byte>) returns (ok: bool)
      requires conv == Block && Arrived(prev, d)
      modifies this`inDbp, this`inDbcnt, this`intrunc, this`outDbp, this`outDbcnt, this`acks, this`written,
        this`bytes, this`outFull, this`outPart, inDb, outDb
      ensures if ok then Valid() else written <= Meaning()
      ensures Answered(old(acks), ok)
    {
      ghost var past, rest;
      if intrunc {
        past, rest := LeaveCut(prev, d);
        if intrunc {
          return true;
        }
      } else {
        past, rest := NotCut(prev, d);
      }
      ok := BlockLoop(past, rest);
    }

    /** The record loop of `block`, and the last line of the function. */
    method BlockLoop(ghost past0: seq<byte>, ghost rest0: seq<byte>) returns (ok: bool)
      requires Between(past0, rest0) && outDbcnt < outDbsz
      modifies this`inDbp, this`inDbcnt, this`intrunc, this`outDbp, this`outDbcnt, this`acks, this`written,
        this`bytes, this`outFull, this`outPart, inDb, outDb
      ensures if ok then Valid() else written <= Meaning()
      ensures Answered(old(acks), ok)
    {
      ok := true;
      ghost var past, rest := past0, rest0;
      var inp := inDbp - inDbcnt;
      while inDbcnt > 0
        invariant Between(past, rest) && outDbcnt < outDbsz && inp == inDbp - inDbcnt
        invariant Answered(old(acks), ok) && ok
        decreases inDbcnt
      {
        var short;
        inp, short, past, rest := OneRecord(inp, past, rest);
        if short {
          inDbp := inDbcnt;
          BlockSettled(past, rest);
          return;
        }
        ghost var before := acks;
        ok := FlushFull(past, rest);
        TookThen(old(acks), before, acks, Limit(), ok);
        if !ok {
          return;
        }
      }
      inDbp := inDbcnt;
      BlockSettled(past, rest);
    }

    /** When the output buffer has a whole block in it, blocks are written. */
    method FlushFull(ghost past: seq<byte>, ghost rest: seq<byte>) returns (ok: bool)
      requires Between(past, rest)
      modifies this`acks, this`written, this`bytes, this`outFull, this`outPart, this`outDbp, this`outDbcnt, outDb
      ensures if ok then Between(past, rest) && outDbcnt < outDbsz else written <= Meaning()
      ensures Answered(old(acks), ok)
    {
      ok := true;
      if outDbcnt >= outDbsz {
        BlockedMonotone(past, rest, cbsz, ctab);
        ok := DdOut(false);
      }
    }

    lemma BlockSettled(past: seq<byte>, rest: seq<byte>)
      requires Sized() && conv == Block && bytes == |written| && input == past + rest
      requires inDbp == inDbcnt == |rest| < cbsz && inDb[..inDbcnt] == rest && NEWLINE !in rest
      requires outDbp == outDbcnt < outDbsz && Sent() == Blocked(past, cbsz, ctab)
      requires if intrunc then rest == [] && |Tail(past)| >= cbsz else Tail(past) == []
      ensures Valid()
    {
      TailExtend(past, rest);
      assert [] + rest == rest;
      if rest == [] {
        assert past + rest == past;
      }
    }

    lemma NotCut(prev: seq<byte>, d: seq<byte>) returns (past: seq<byte>, rest: seq<byte>)
      requires conv == Block && Arrived(prev, d) && !intrunc
      ensures Between(past, rest)
    {
      past, rest := LineAgain(prev, d);
    }

    /** The incomplete line from before is read again, with the bytes just read. */
    lemma LineAgain(prev: seq<byte>, d: seq<byte>) returns (past: seq<byte>, rest: seq<byte>)
      requires |Tail(prev)| < cbsz
      ensures past + rest == prev + d && rest == Tail(prev) + d
      ensures Tail(past) == [] && Blocked(past, cbsz, ctab) == Blocked(prev, cbsz, ctab)
    {
      past, rest := UpToTail(prev), Tail(prev) + d;
      UpToTailFacts(prev, cbsz, ctab);
      StreamSplit(UpToTail(prev), Tail(prev), d);
    }

    /** The start of `block`: leave a truncation, if one is going on, at the next newline. */
    method Resume(ghost d: seq<byte>) returns (ghost k: nat)
      requires intrunc && inDbrcnt == |d| == inDbcnt <= inDb.Length && inDb[..inDbcnt] == d
      modifies this`inDbp, this`inDbcnt, this`intrunc
      ensures k <= |d| && NEWLINE !in d[..k]
      ensures intrunc ==> k == |d| && inDbp == inDbcnt == 0
      ensures !intrunc ==> k < |d| && d[k] == NEWLINE && Unread(d[k + 1..])
    {
      var inp, cnt := Toss(0, inDbrcnt);
      k := inDbrcnt - cnt;
      assert inDb[0..k] == d[..k];
      if cnt == 0 {
        inDbcnt := 0;
        inDbp := 0;
        return;
      }
      assert inDb[k] == d[k];
      intrunc := false;
      inDbcnt := cnt - 1;
      inDbp := inp + cnt - 1;
      SliceOf(inDb[..], 0, |d|, d, k + 1, |d|);
    }

    method LeaveCut(ghost prev: seq<byte>, ghost d: seq<byte>) returns (ghost past: seq<byte>, ghost rest: seq<byte>)
      requires conv == Block && Arrived(prev, d) && intrunc
      modifies this`inDbp, this`inDbcnt, this`intrunc
      ensures if intrunc then Valid() else Between(past, rest) && outDbcnt < outDbsz
    {
      ArrivedCut(prev, d);
      ghost var k := Resume(d);
      if intrunc {
        past, rest := prev + d, [];
        StillCut(prev, d);
      } else {
        past, rest := CutResumes(prev, d, k);
      }
    }

    lemma ArrivedCut(prev: seq<byte>, d: seq<byte>)
      requires conv == Block && Arrived(prev, d) && intrunc
      ensures inDb[..inDbcnt] == d && |Tail(prev)| >= cbsz && Sent() == Blocked(prev, cbsz, ctab)
    {
      assert [] + d == d;
    }

    lemma StillCut(prev: seq<byte>, d: seq<byte>)
      requires Sized() && conv == Block && bytes == |written| && input == prev + d && NEWLINE !in d
      requires intrunc && inDbp == inDbcnt == 0 && outDbp == outDbcnt < outDbsz
      requires |Tail(prev)| >= cbsz && Sent() == Blocked(prev, cbsz, ctab)
      ensures Valid()
    {
      CutOn(prev, d, cbsz, ctab);
      assert (prev + d) + [] == prev + d;
      BlockSettled(prev + d, []);
    }

    lemma CutResumes(prev: seq<byte>, d: seq<byte>, k: nat) returns (past: seq<byte>, rest: seq<byte>)
      requires k < |d| && NEWLINE !in d[..k] && d[k] == NEWLINE && |Tail(prev)| >= cbsz
      ensures past + rest == prev + d && rest == d[k + 1..]
      ensures Tail(past) == [] && Blocked(past, cbsz, ctab) == Blocked(prev, cbsz, ctab)
    {
      past, rest := prev + d[..k] + [NEWLINE], d[k + 1..];
      CutLine(prev, d[..k], cbsz, ctab);
      Reseam(prev, d, k);
    }

    /** One turn of the record loop of `block`, up to the test for a full output buffer. */
    method OneRecord(inp0: nat, ghost past: seq<byte>, ghost rest: seq<byte>)
      returns (inp: nat, short: bool, ghost past': seq<byte>, ghost rest': seq<byte>)
      requires Between(past, rest) && 0 < inDbcnt && inp0 == inDbp - inDbcnt && outDbcnt < outDbsz && !intrunc
      modifies this`inDbcnt, this`intrunc, this`outDbp, this`outDbcnt, inDb, outDb
      ensures !short ==> Between(past', rest') && inp == inDbp - inDbcnt && inDbcnt < old(inDbcnt)
      ensures short ==> past' == past && rest' == rest && inDbcnt == |rest| < cbsz && !intrunc
      ensures short ==> NEWLINE !in rest && inDb[..inDbcnt] == rest && outDbcnt < outDbsz
      ensures short ==> Sent() == Blocked(past, cbsz, ctab) && outDbp == outDbcnt
    {
      past', rest', short := past, rest, false;
      var maxlen := Min(cbsz, inDbcnt);
      var cnt, ch;
      cnt, inp, ch := CopyLine(inp0, maxlen, rest);
      if ch != NEWLINE && inDbcnt < cbsz {
        assert rest[..cnt] == rest;
        Memmove(inDb, 0, inDb, inDbp - inDbcnt, inDbcnt);
        short := true;
        return;
      }
      inp, past', rest' := EndRecord(inp, cnt, ch, past, rest);
    }

    method EndRecord(inp0: nat, cnt: nat, ch: byte, ghost past: seq<byte>, ghost rest: seq<byte>)
      returns (inp: nat, ghost past': seq<byte>, ghost rest': seq<byte>)
      requires Between(past, rest) && 0 < inDbcnt && !intrunc && outDbcnt < outDbsz
      requires cnt <= cbsz && cnt <= |rest| && NEWLINE !in rest[..cnt]
      requires outDb[outDbp..outDbp + cnt] == TrAll(ctab, rest[..cnt])
      requires ch == NEWLINE ==> cnt < cbsz && cnt < |rest| && rest[cnt] == NEWLINE
      requires ch != NEWLINE ==> cnt == cbsz
      requires inp0 == inDbp - inDbcnt + cnt + (if ch == NEWLINE then 1 else 0)
      modifies this`inDbcnt, this`intrunc, this`outDbp, this`outDbcnt, outDb
      ensures Between(past', rest') && inp == inDbp - inDbcnt && inDbcnt < old(inDbcnt)
    {
      ghost var n;
      inp, n := LeaveLine(inp0, cnt, ch, rest);
      SendRecord(cnt, rest[..cnt]);
      if intrunc {
        past', rest' := LineCut(past, rest, cnt);
      } else {
        past', rest' := LineDone(past, rest, cnt, n);
      }
    }

    /** The record of the first cnt bytes is that of the whole line of n bytes. */
    lemma SameRecord(rest: seq<byte>, cnt: nat, n: nat)
      requires cnt <= cbsz && cnt <= n <= |rest| && (cnt < cbsz ==> n == cnt)
      ensures Record(rest[..cnt], cbsz, ctab) == Record(rest[..n], cbsz, ctab)
    {
      var x := rest[..n];
      assert rest[..cnt] == x[..cnt];
      assert x[..Min(|x|, cbsz)] == x[..cnt] && x[..cnt][..Min(cnt, cbsz)] == x[..cnt];
    }

    /** A line of n bytes with its newline is behind the loop. */
    lemma LineDone(past: seq<byte>, rest: seq<byte>, cnt: nat, n: nat) returns (past': seq<byte>, rest': seq<byte>)
      requires 0 < cbsz && Tail(past) == [] && n < |rest| && rest[n] == NEWLINE
      requires cnt <= cbsz && cnt <= n && (cnt < cbsz ==> n == cnt) && NEWLINE !in rest[..n]
      ensures past' + rest' == past + rest && rest' == rest[n + 1..] && Tail(past') == []
      ensures Blocked(past', cbsz, ctab) == Blocked(past, cbsz, ctab) + Record(rest[..cnt], cbsz, ctab)
    {
      past', rest' := past + rest[..n] + [NEWLINE], rest[n + 1..];
      SameRecord(rest, cnt, n);
      WholeLine(past, rest[..n], cbsz, ctab);
      Reseam(past, rest, n);
    }

    /** The beginning of a line too long for its record is behind the loop. */
    lemma LineCut(past: seq<byte>, rest: seq<byte>, cnt: nat) returns (past': seq<byte>, rest': seq<byte>)
      requires 0 < cbsz == cnt <= |rest| && Tail(past) == [] && NEWLINE !in rest
      ensures past' + rest' == past + rest && rest' == [] && |Tail(past')| >= cbsz
      ensures Blocked(past', cbsz, ctab) == Blocked(past, cbsz, ctab) + Record(rest[..cnt], cbsz, ctab)
    {
      past', rest' := past + rest, [];
      assert rest[..|rest|] == rest;
      SameRecord(rest, cnt, |rest|);
      LongLine(past, rest, cbsz, ctab);
    }

    /** The input side of a finished record: step over its newline, or toss the bytes up to the next one. */
    method LeaveLine(inp0: nat, cnt: nat, ch: byte, ghost rest: seq<byte>) returns (inp: nat, ghost n: nat)
      requires Unread(rest) && !intrunc && 0 < inDbcnt && cnt <= cbsz && cnt <= |rest| && NEWLINE !in rest[..cnt]
      requires ch == NEWLINE ==> cnt < cbsz && cnt < |rest| && rest[cnt] == NEWLINE
      requires ch != NEWLINE ==> cnt == cbsz > 0
      requires inp0 == inDbp - inDbcnt + cnt + (if ch == NEWLINE then 1 else 0)
      modifies this`inDbcnt, this`intrunc
      ensures cnt <= n <= |rest| && (cnt < cbsz ==> n == cnt) && NEWLINE !in rest[..n]
      ensures inp == inDbp - inDbcnt && inDbcnt < old(inDbcnt)
      ensures intrunc ==> n == |rest| && cnt == cbsz && Unread([])
      ensures !intrunc ==> n < |rest| && rest[n] == NEWLINE && Unread(rest[n + 1..])
    {
      ghost var base := inDbp - inDbcnt;
      inp, n := inp0, cnt;
      inDbcnt := inDbcnt - cnt;
      if ch == NEWLINE {
        inDbcnt := inDbcnt - 1;
      }
      if cnt == cbsz {
        var left;
        ghost var more := inDbcnt;
        inp, left := Toss(inp, inDbcnt);
        n := cnt + more - left;
        SliceOf(inDb[..], base, inDbp, rest, cnt, n);
        NoNewlineAcross(rest, cnt, n);
        if left == 0 {
          inDbcnt := 0;
          inp := inDbp;
          intrunc := true;
        } else {
          assert inDb[base + n] == rest[n];
          inDbcnt := left - 1;
        }
      }
    }

    /** The output side: pad a short record with spaces, and count it. */
    method SendRecord(cnt: nat, ghost x: seq<byte>)
      requires cnt == |x| <= cbsz && outDbp == outDbcnt && outDbp + cbsz <= outDb.Length
      requires outDb[outDbp..outDbp + cnt] == TrAll(ctab, x)
      modifies this`outDbp, this`outDbcnt, outDb
      ensures outDbp == outDbcnt == old(outDbcnt) + cbsz && Sent() == old(Sent()) + Record(x, cbsz, ctab)
    {
      ghost var was := outDb[..outDbp];
      PadRecord(cnt, x);
      outDbp := outDbp + cbsz;
      outDbcnt := outDbcnt + cbsz;
      assert written + (was + Record(x, cbsz, ctab)) == (written + was) + Record(x, cbsz, ctab);
    }

    method PadRecord(cnt: nat, ghost x: seq<byte>)
      requires cnt == |x| <= cbsz && outDbp + cbsz <= outDb.Length
      requires outDb[outDbp..outDbp + cnt] == TrAll(ctab, x)
      modifies outDb
      ensures outDb[..outDbp + cbsz] == old(outDb[..outDbp]) + Record(x, cbsz, ctab)
    {
      ghost var was := outDb[..outDbp];
      assert outDb[..outDbp + cnt] == was + TrAll(ctab, x);
      Pad(outDbp + cnt, cbsz - cnt);
      RecordParts(x);
      JoinedParts(outDb[..], outDbp + cnt, cbsz - cnt, was, TrAll(ctab, x));
    }

    lemma RecordParts(x: seq<byte>)
      requires |x| <= cbsz
      ensures Record(x, cbsz, ctab) == TrAll(ctab, x) + Repeat(Tr(ctab, SPACE), cbsz - |x|)
    {
      assert x[..Min(|x|, cbsz)] == x;
    }

    static lemma JoinedParts(s: seq<byte>, at: nat, n: nat, a: seq<byte>, b: seq<byte>)
      requires at + n <= |s| && s[..at] == a + b
      ensures s[..at + n] == a + (b + s[at..at + n])
    {
      assert s[..at + n] == s[..at] + s[at..at + n];
    }

    /** Where the trailing spaces of the n bytes at `from` begin. */
    method StripSpaces(from: nat, n: nat) returns (cnt: nat)
      requires from + n <= inDb.Length
      ensures cnt <= n && inDb[from..from + cnt] == Stripped(inDb[from..from + n])
    {
      var t := from + n - 1;
      while t >= from && inDb[t] == SPACE
        invariant from - 1 <= t < from + n
        invariant forall i :: t < i < from + n ==> inDb[i] == SPACE
      {
        t := t - 1;
      }
      cnt := t - from + 1;
      StrippedIs(inDb[from..from + n], cnt);
      assert inDb[from..from + n][..cnt] == inDb[from..from + cnt];
    }

    /** cnt bytes of the input buffer and a newline go to the output buffer. */
    method PutLine(from: nat, cnt: nat)
      requires inDb != outDb && from + cnt <= inDb.Length && outDbp == outDbcnt && outDbp + cnt < outDb.Length
      modifies this`outDbp, this`outDbcnt, outDb
      ensures outDbp == outDbcnt == old(outDbcnt) + cnt + 1
      ensures Sent() == old(Sent()) + (inDb[from..from + cnt] + [NEWLINE])
    {
      ghost var was := outDb[..outDbp];
      if cnt > 0 {
        Memmove(outDb, outDbp, inDb, from, cnt);
        outDbp := outDbp + cnt;
        outDbcnt := outDbcnt + cnt;
      }
      assert outDb[..outDbp] == was + inDb[from..from + cnt];
      outDbcnt := outDbcnt + 1;
      outDb[outDbp] := NEWLINE;
      outDbp := outDbp + 1;
      assert outDb[..outDbp] == was + inDb[from..from + cnt] + [NEWLINE];
    }

    /** `unblock`. */
    method DoUnblock(ghost prev: seq<byte>, ghost d: seq<byte>) returns (ok: bool)
      requires conv == Unblock && Arrived(prev, d)
      modifies this`inDbp, this`inDbcnt, this`outDbp, this`outDbcnt, this`acks, this`written,
        this`bytes, this`outFull, this`outPart, inDb, outDb
      ensures if ok then Valid() else written <= Meaning()
      ensures Answered(old(acks), ok)
    {
      ghost var w := Leftover(TrAll(ctab, prev), cbsz) + TrAll(ctab, d);
      NewFront(prev, d);
      TranslateNew(d);
      assert inDb[0..inDbcnt] == inDb[..inDbcnt] == w;
      ok := UnblockLoop(w);
    }

    lemma NewFront(prev: seq<byte>, d: seq<byte>)
      requires conv == Unblock && Arrived(prev, d)
      ensures inDb[inDbcnt - |d|..inDbcnt] == d
      ensures inDb[..inDbcnt - |d|] == Leftover(TrAll(ctab, prev), cbsz)
      ensures var w := Leftover(TrAll(ctab, prev), cbsz) + TrAll(ctab, d);
        |w| == inDbcnt &&
        Unblocked(TrAll(ctab, input), cbsz) == Unblocked(TrAll(ctab, prev), cbsz) + Unblocked(w, cbsz) &&
        Leftover(TrAll(ctab, input), cbsz) == Leftover(w, cbsz)
    {
      TrAllAppend(ctab, prev, d);
      UnblockMore(TrAll(ctab, prev), TrAll(ctab, d), cbsz);
      var l := Leftover(TrAll(ctab, prev), cbsz);
      assert inDb[..inDbcnt] == l + d;
      assert inDb[..inDbcnt - |d|] == inDb[..inDbcnt][..|l|];
      assert inDb[inDbcnt - |d|..inDbcnt] == inDb[..inDbcnt][|l|..];
    }

    /** The record loop of `unblock` over the bytes w of the input buffer. */
    method UnblockLoop(ghost w: seq<byte>) returns (ok: bool)
      requires Sized() && conv == Unblock && bytes == |written| && inDbp == inDbcnt && Unread(w)
      requires outDbp == outDbcnt < outDbsz && Meaning() == Sent() + Unblocked(w, cbsz)
      requires Leftover(TrAll(ctab, input), cbsz) == Leftover(w, cbsz)
      modifies this`inDbp, this`inDbcnt, this`outDbp, this`outDbcnt, this`acks, this`written,
        this`bytes, this`outFull, this`outPart, inDb, outDb
      ensures if ok then Valid() else written <= Meaning()
      ensures Answered(old(acks), ok)
    {
      ok := true;
      var inp := 0;
      ghost var rest := w;
      while inDbcnt >= cbsz
        invariant ok && Among(rest) && inp == inDbp - inDbcnt
        invariant Leftover(rest, cbsz) == Leftover(w, cbsz) && Answered(old(acks), true)
        decreases inDbcnt
        modifies this`inDbcnt, this`outDbp, this`outDbcnt, this`acks, this`written,
          this`bytes, this`outFull, this`outPart, outDb
      {
        ghost var before := acks;
        ok := Deblock(inp, rest);
        TookThen(old(acks), before, acks, Limit(), ok);
        if !ok {
          return;
        }
        rest := rest[cbsz..];
        inp := inp + cbsz;
      }
      CloseUp(rest);
    }

    /** `unblock` between records: `rest` still stands in the input buffer. */
    ghost predicate Among(rest: seq<byte>)
      reads `bytes, `written, `input, `inDbp, `inDbcnt, `outDbp, `outDbcnt, inDb, outDb
    {
      Sized() && conv == Unblock && bytes == |written| && Unread(rest) &&
      outDbp == outDbcnt < outDbsz && Meaning() == Sent() + Unblocked(rest, cbsz)
    }

    /** One turn of the record loop of `unblock`. */
    method Deblock(inp: nat, ghost rest: seq<byte>) returns (ok: bool)
      requires Among(rest) && cbsz <= |rest| && inp == inDbp - inDbcnt
      modifies this`inDbcnt, this`outDbp, this`outDbcnt, this`acks, this`written, this`bytes, this`outFull,
        this`outPart, outDb
      ensures if ok then Among(rest[cbsz..]) && inDbcnt == old(inDbcnt) - cbsz else written <= Meaning()
      ensures Answered(old(acks), ok)
      ensures Leftover(rest, cbsz) == Leftover(rest[cbsz..], cbsz)
    {
      ok := SendLine(inp, rest);
      inDbcnt := inDbcnt - cbsz;
    }

    method SendLine(inp: nat, ghost rest: seq<byte>) returns (ok: bool)
      requires Among(rest) && cbsz <= |rest| && inp == inDbp - inDbcnt
      modifies this`outDbp, this`outDbcnt, this`acks, this`written, this`bytes, this`outFull, this`outPart, outDb
      ensures ok ==> bytes == |written| && outDbp == outDbcnt < outDbsz
      ensures ok ==> Meaning() == Sent() + Unblocked(rest[cbsz..], cbsz)
      ensures !ok ==> written <= Meaning()
      ensures Answered(old(acks), ok)
      ensures Leftover(rest, cbsz) == Leftover(rest[cbsz..], cbsz)
      ensures inDb[inp + cbsz..inDbp] == rest[cbsz..]
    {
      SliceOf(inDb[..], inp, inDbp, rest, 0, cbsz);
      SliceOf(inDb[..], inp, inDbp, rest, cbsz, |rest|);
      ghost var sent, line := Sent(), Stripped(rest[..cbsz]) + [NEWLINE];
      PutStripped(inp, rest[..cbsz]);
      SentMore(sent, line, Unblocked(rest[cbsz..], cbsz));
      ok := true;
      if outDbcnt >= outDbsz {
        ok := DdOut(false);
      }
    }

    method PutStripped(from: nat, ghost record: seq<byte>)
      requires inDb != outDb && from + |record| <= inDb.Length && |record| == cbsz
      requires inDb[from..from + cbsz] == record && outDbp == outDbcnt && outDbp + cbsz < outDb.Length
      modifies this`outDbp, this`outDbcnt, outDb
      ensures outDbp == outDbcnt <= outDb.Length
      ensures Sent() == old(Sent()) + (Stripped(record) + [NEWLINE])
    {
      var cnt := StripSpaces(from, cbsz);
      PutLine(from, cnt);
    }

    /** The end of `unblock`: the bytes of an incomplete record move to the front. */
    method CloseUp(ghost rest: seq<byte>)
      requires Sized() && conv == Unblock && bytes == |written| && outDbp == outDbcnt < outDbsz
      requires Unread(rest) && inDbcnt < cbsz && Meaning() == Sent() + Unblocked(rest, cbsz)
      requires rest == Leftover(TrAll(ctab, input), cbsz)
      modifies this`inDbp, inDb
      ensures Valid()
    {
      assert Meaning() == Sent() + [] == Sent();
      if inDbcnt > 0 {
        Memmove(inDb, 0, inDb, inDbp - inDbcnt, inDbcnt);
      }
      inDbp := inDbcnt;
    }

    // ---- whole runs ------------------------------------------------------------------

    method PutBytes(at: nat, d: seq<byte>)
      requires at + |d| <= inDb.Length
      modifies inDb
      ensures inDb[..at] == old(inDb[..at]) && inDb[at..at + |d|] == d
    {
      forall i | 0 <= i < |d| {
        inDb[at + i] := d[i];
      }
      assert forall i :: 0 <= i < |d| ==> inDb[at..at + |d|][i] == d[i];
    }

    /** read(2) of one block into the input buffer; 0 at end of file, -1 on an error. */
    method Read() returns (n: int)
      requires inDbp + inDbsz <= inDb.Length && 0 < inDbsz
      requires outDbcnt <= outDb.Length && (inDb == outDb ==> outDbcnt <= inDbp)
      modifies this`answers, this`input, inDb
      ensures -1 <= n <= inDbsz && inDb[..inDbp] == old(inDb[..inDbp]) && Sent() == old(Sent())
      ensures n <= 0 ==> input == old(input) && Ended(old(answers), n == 0)
      ensures n > 0 ==> Next(old(answers), inDb[inDbp..inDbp + n])
      ensures n > 0 ==> input == old(input) + inDb[inDbp..inDbp + n]
    {
      if answers == [] {
        return 0;
      }
      var answer := answers[0];
      answers := answers[1..];
      match answer {
        case Eof => return 0;
        case ReadError => return -1;
        case Data(bytes) =>
          n := Min(|bytes|, inDbsz);
          PutBytes(inDbp, bytes[..n]);
          input := input + bytes[..n];
          if n == 0 {
            assert bytes[..n] == [] && input == old(input);
          }
      }
    }

    /** The blocks the next pass may read. */
    ghost function Wanted(): nat
      reads `inFull, `inPart, `answers
    {
      Budget(cpyCnt, inFull + inPart, answers)
    }

    /** `dd_in`: read and convert until end of file or the wanted number of blocks. */
    method DdIn() returns (ok: bool)
      requires Valid()
      modifies this, inDb, outDb
      ensures if ok then Valid() else Sized() && written <= Meaning()
      ensures var parts := Pass(old(answers), old(Wanted()), inDbsz);
        if ok then Counted(parts, old(input), old(inFull), old(inPart))
        else old(input) <= input <= old(input) + Flat(parts)
      ensures ok ==> answers == Unasked(old(answers), old(Wanted()), inDbsz)
      ensures ok ==> !ReadFails(old(answers), old(Wanted()), inDbsz) && Answered(old(acks), true)
      ensures !ok ==> ReadFails(old(answers), old(Wanted()), inDbsz) || Answered(old(acks), false)
    {
      ok := true;
      ghost var all, n, parts: seq<seq<byte>> := answers, Wanted(), [];
      UnderwayStarts();
      while true
        invariant Valid() && ok && Underway(all, n, parts, old(input), old(inFull), old(inPart))
        invariant Answered(old(acks), true)
        decreases |answers|
      {
        if cpyCnt != 0 && inFull + inPart >= cpyCnt {
          UnderwayEnds(all, n, parts, old(input), old(inFull), old(inPart));
          return;
        }
        ghost var before, d := acks, [];
        var more;
        more, ok, d := Turn(all, n, parts, old(input), old(inFull), old(inPart));
        TookThen(old(acks), before, acks, Limit(), ok || !more);
        if !more || !ok {
          return;
        }
        parts := parts + [d];
      }
    }

    /** The reads done are in the input behind start, and in the counts. */
    ghost predicate Counted(parts: seq<seq<byte>>, start: seq<byte>, full: nat, part: nat)
      reads `input, `inFull, `inPart
    {
      input == start + Flat(parts) && inFull == full + Fulls(parts, inDbsz) && inFull + inPart == full + part + |parts|
    }

    /** A pass over all the answers has done the reads parts; said under a quantifier so that proofs only
        look inside where they are told to. */
    ghost predicate Underway(all: seq<ReadResult>, n: nat, parts: seq<seq<byte>>, start: seq<byte>, full: nat, part: nat)
      reads `input, `answers, `inFull, `inPart
    {
      forall u {:trigger Seen(u)} :: u == parts && Seen(u) ==>
        Reading(all, n, u, answers, Wanted(), inDbsz) && Counted(u, start, full, part)
    }

    lemma UnderwayMeans(all: seq<ReadResult>, n: nat, parts: seq<seq<byte>>, start: seq<byte>, full: nat, part: nat)
      ensures Underway(all, n, parts, start, full, part) <==>
        Reading(all, n, parts, answers, Wanted(), inDbsz) && Counted(parts, start, full, part)
    {
      assert Seen(parts);
    }

    lemma UnderwayStarts()
      ensures Underway(answers, Wanted(), [], input, inFull, inPart)
    {
      ReadingStarts(answers, Wanted(), inDbsz);
      assert input + [] == input;
      UnderwayMeans(answers, Wanted(), [], input, inFull, inPart);
    }

    lemma UnderwayEnds(all: seq<ReadResult>, n: nat, parts: seq<seq<byte>>, start: seq<byte>, full: nat, part: nat)
      requires Underway(all, n, parts, start, full, part) && Wanted() == 0
      ensures Pass(all, n, inDbsz) == parts && answers == Unasked(all, n, inDbsz) && !ReadFails(all, n, inDbsz)
      ensures Counted(parts, start, full, part)
    {
      UnderwayMeans(all, n, parts, start, full, part);
      ReadingEnds(all, n, parts, answers, Wanted(), inDbsz);
    }

    /** One turn of the loop of `dd_in`, as part of a pass. */
    method Turn(ghost all: seq<ReadResult>, ghost n: nat, ghost parts: seq<seq<byte>>,
                ghost start: seq<byte>, ghost full: nat, ghost part: nat)
      returns (more: bool, ok: bool, ghost d: seq<byte>)
      requires Valid() && Underway(all, n, parts, start, full, part) && (cpyCnt == 0 || inFull + inPart < cpyCnt)
      modifies this, inDb, outDb
      ensures if ok then Valid() else Sized() && written <= Meaning()
      ensures Answered(old(acks), ok || !more) && (more ==> |answers| < |old(answers)|)
      ensures more && ok ==> Underway(all, n, parts + [d], start, full, part)
      ensures more && !ok ==> start <= input <= start + Flat(Pass(all, n, inDbsz))
      ensures !more ==> Pass(all, n, inDbsz) == parts && Counted(parts, start, full, part)
      ensures !more ==> answers == Unasked(all, n, inDbsz) && ok == !ReadFails(all, n, inDbsz)
    {
      ghost var now, m, was, f, p := answers, Wanted(), input, inFull, inPart;
      UnderwayMeans(all, n, parts, start, full, part);
      more, ok, d := OneRead();
      if more {
        ReadDone(all, n, parts, now, m, d, start, was);
        FullsAppend(parts, d, inDbsz);
        UnderwayMeans(all, n, parts + [d], start, full, part);
      } else {
        ReadingEnds(all, n, parts, now, m, inDbsz);
      }
    }

    /** A read that has delivered d is one more of the pass. */
    lemma ReadDone(all: seq<ReadResult>, n: nat, parts: seq<seq<byte>>, now: seq<ReadResult>, m: nat, d: seq<byte>,
                   start: seq<byte>, was: seq<byte>)
      requires Reading(all, n, parts, now, m, inDbsz) && Next(now, d) && m > 0
      requires was == start + Flat(parts) && input == was + d
      ensures Reading(all, n, parts + [d], answers, m - 1, inDbsz)
      ensures input == start + Flat(parts + [d]) && start <= input <= start + Flat(Pass(all, n, inDbsz))
    {
      ReadingOn(all, n, parts, now, m, inDbsz, d);
      assert start + (Flat(parts) + d) == (start + Flat(parts)) + d;
    }

    /** One turn of the loop of `dd_in`; no more when read(2) delivered nothing. */
    method OneRead() returns (more: bool, ok: bool, ghost d: seq<byte>)
      requires Valid()
      modifies this, inDb, outDb
      ensures if ok then Valid() else Sized() && written <= Meaning()
      ensures more ==> Next(old(answers), d) && input == old(input) + d && Answered(old(acks), ok)
      ensures more ==> OneMore(old(inFull), old(inPart), |d|)
      ensures !more ==> Ended(old(answers), ok) && unchanged(this`input, this`inFull, this`inPart, this`acks)
    {
      ghost var prev := input;
      var n;
      n, d := Take();
      more := n > 0;
      if more {
        ok := Convert(prev, d);
      } else {
        ok := NothingRead(n);
      }
    }

    /** A read of n bytes has been counted. */
    ghost predicate OneMore(full: nat, part: nat, n: nat)
      reads `inFull, `inPart
    {
      inFull == full + (if n == inDbsz then 1 else 0) && inFull + inPart == full + part + 1
    }

    /** The next answer has delivered d. */
    ghost predicate Next(was: seq<ReadResult>, d: seq<byte>)
      reads `answers
    {
      was != [] && Delivers(was[0], inDbsz) && answers == was[1..] && d == was[0].bytes[..Min(|was[0].bytes|, inDbsz)]
    }

    /** There was no answer, or the next one delivered nothing; ok tells an end of file from an error. */
    ghost predicate Ended(was: seq<ReadResult>, ok: bool)
      reads `answers
    {
      if was == [] then ok && answers == []
      else !Delivers(was[0], inDbsz) && answers == was[1..] && ok == !was[0].ReadError?
    }

    /** The end of the input, or an error. */
    method NothingRead(n: int) returns (ok: bool)
      requires Valid() && n <= 0
      modifies this`inDbrcnt
      ensures ok == (n == 0) && Valid() && written <= Meaning()
    {
      SentSoFar();
      ok := n == 0;
      if ok {
        inDbrcnt := 0;
      }
    }

    /** A read changes nothing of what has been converted. */
    method ReadOn() returns (n: int, ghost d: seq<byte>)
      requires Valid()
      modifies this`answers, this`input, inDb
      ensures ValidBut(old(input)) && -1 <= n <= inDbsz && inDbp + inDbsz <= inDb.Length
      ensures n <= 0 ==> input == old(input) && Ended(old(answers), n == 0)
      ensures n > 0 ==> Next(old(answers), d) && d == inDb[inDbp..inDbp + n] && input == old(input) + d
    {
      FitsIn();
      n := Read();
      d := if n > 0 then inDb[inDbp..inDbp + n] else [];
    }

    /** A read, and the counts that go with it. */
    method Take() returns (n: int, ghost d: seq<byte>)
      requires Valid()
      modifies this`answers, this`input, this`inFull, this`inPart, this`inDbp, this`inDbcnt, this`inDbrcnt, inDb
      ensures n <= 0 ==> Valid() && input == old(input) && Ended(old(answers), n == 0) && unchanged(this`inFull, this`inPart)
      ensures n > 0 ==> Arrived(old(input), d) && Next(old(answers), d) && input == old(input) + d
      ensures n > 0 ==> OneMore(old(inFull), old(inPart), |d|)
    {
      n, d := ReadOn();
      if n > 0 {
        NoteRead(n, old(input), d);
      }
    }

    /** The bytes just read go through the conversion that has been chosen. */
    method Convert(ghost prev: seq<byte>, ghost d: seq<byte>) returns (ok: bool)
      requires Arrived(prev, d)
      modifies this`inDbp, this`inDbcnt, this`intrunc, this`outDbp, this`outDbcnt, this`acks, this`written,
        this`bytes, this`outFull, this`outPart, inDb, outDb
      ensures if ok then Valid() else Sized() && written <= Meaning()
      ensures Answered(old(acks), ok)
    {
      match conv {
        case Def => ok := DoDef(prev, d);
        case Block => ok := DoBlock(prev, d);
        case Unblock => ok := DoUnblock(prev, d);
      }
    }

    /** The counts that go with a read, from a settled state but for the bytes just read. */
    method NoteRead(n: nat, ghost prev: seq<byte>, ghost d: seq<byte>)
      requires ValidBut(prev) && 0 < n <= inDbsz && inDbp + n <= inDb.Length
      requires d == inDb[inDbp..inDbp + n] && input == prev + d
      modifies this`inFull, this`inPart, this`inDbp, this`inDbcnt, this`inDbrcnt
      ensures Arrived(prev, d)
      ensures OneMore(old(inFull), old(inPart), n)
    {
      ghost var front := inDb[..inDbcnt];
      SettledFacts(prev, front);
      CountRead(n);
      assert inDb[..inDbcnt] == front + d;
      AddedBehind(prev, d, front);
    }

    method CountRead(n: nat)
      modifies this`inFull, this`inPart, this`inDbp, this`inDbcnt, this`inDbrcnt
      ensures inDbrcnt == n && inDbcnt == old(inDbcnt) + n && inDbp == old(inDbp) + n
      ensures OneMore(old(inFull), old(inPart), n)
    {
      if n == inDbsz { inFull := inFull + 1; } else { inPart := inPart + 1; }
      inDbrcnt := n;
      inDbcnt := inDbcnt + n;
      inDbp := inDbp + n;
    }

    lemma SettledFacts(seen: seq<byte>, front: seq<byte>)
      requires ValidBut(seen) && inDbcnt <= inDb.Length && front == inDb[..inDbcnt]
      ensures conv == Def ==> |front| == outDbcnt && Sent() == TrAll(ctab, seen)
      ensures conv == Block ==> |front| < cbsz && (intrunc <==> |Tail(seen)| >= cbsz)
      ensures conv == Block ==> front == (if intrunc then [] else Tail(seen)) && Sent() == Blocked(seen, cbsz, ctab)
      ensures conv == Unblock ==> |front| < cbsz && front == Leftover(TrAll(ctab, seen), cbsz)
      ensures conv == Unblock ==> Sent() == Unblocked(TrAll(ctab, seen), cbsz)
    {
    }

    lemma AddedBehind(prev: seq<byte>, d: seq<byte>, front: seq<byte>)
      requires Sized() && |front| + |d| == inDbcnt <= inDb.Length && outDbcnt < outDbsz
      requires inDb[..inDbcnt] == front + d
      requires conv == Def ==> |front| == outDbcnt && Sent() == TrAll(ctab, prev)
      requires conv == Block ==> |front| < cbsz && (intrunc <==> |Tail(prev)| >= cbsz)
      requires conv == Block ==> front == (if intrunc then [] else Tail(prev)) && Sent() == Blocked(prev, cbsz, ctab)
      requires conv == Unblock ==> |front| < cbsz && front == Leftover(TrAll(ctab, prev), cbsz)
      requires conv == Unblock ==> Sent() == Unblocked(TrAll(ctab, prev), cbsz)
      ensures Added(prev, d)
    {
      assert inDb[|front|..inDbcnt] == inDb[..inDbcnt][|front|..];
    }

    lemma StreamSplit(prev: seq<byte>, d: seq<byte>, more: seq<byte>)
      ensures (prev + d) + more == prev + (d + more)
    {
    }

    /** The sizes chosen in `setup` leave room for a whole read. */
    lemma FitsIn()
      requires Valid()
      ensures inDbp + inDbsz <= inDb.Length
    {
    }

    lemma SentSoFar()
      requires Valid()
      ensures Meaning() == Sent() && written <= Meaning()
    {
    }

    /** `block_close`: a line without its newline becomes a padded record, copied as it is. */
    method BlockClose()
      requires Valid() && conv == Block
      modifies this`outDbcnt, outDb
      ensures outDbcnt <= outDb.Length && Sent() == Converted(conv, input, cbsz, ctab)
    {
      ghost var tail := RestOfBlock();
      CloseRest(tail);
    }

    /** A non-empty rest becomes a padded record. */
    ghost function Padded(tail: seq<byte>): seq<byte>
      requires |tail| <= cbsz
    {
      if tail == [] then [] else tail + Repeat(Tr(ctab, SPACE), cbsz - |tail|)
    }

    lemma RestOfBlock() returns (tail: seq<byte>)
      requires Valid() && conv == Block
      ensures inDbcnt == inDbp == |tail| < cbsz && inDbcnt <= inDb.Length && inDb[..inDbcnt] == tail
      ensures outDbp == outDbcnt && outDbp + cbsz <= outDb.Length && inDb != outDb
      ensures Converted(conv, input, cbsz, ctab) == Sent() + Padded(tail)
    {
      tail := inDb[..inDbcnt];
    }

    method CloseRest(ghost tail: seq<byte>)
      requires inDbcnt == inDbp == |tail| < cbsz && inDbcnt <= inDb.Length && inDb[..inDbcnt] == tail
      requires outDbp == outDbcnt && outDbp + cbsz <= outDb.Length && inDb != outDb
      modifies this`outDbcnt, outDb
      ensures outDbcnt <= outDb.Length && Sent() == old(Sent()) + Padded(tail)
    {
      if inDbcnt > 0 {
        SendRaw(tail);
      } else {
        assert Sent() + [] == Sent();
      }
    }

    /** `memmove`, `memset` and the count, for the raw bytes left in the input buffer. */
    method SendRaw(ghost tail: seq<byte>)
      requires 0 < inDbcnt == inDbp == |tail| < cbsz && inDbcnt <= inDb.Length && inDb[..inDbcnt] == tail
      requires outDbp == outDbcnt && outDbp + cbsz <= outDb.Length && inDb != outDb
      modifies this`outDbcnt, outDb
      ensures outDbcnt <= outDb.Length
      ensures Sent() == old(Sent()) + (tail + Repeat(Tr(ctab, SPACE), cbsz - |tail|))
    {
      ghost var was := outDb[..outDbcnt];
      Memmove(outDb, outDbp, inDb, inDbp - inDbcnt, inDbcnt);
      assert inDb[0..inDbcnt] == tail;
      assert outDb[..outDbp + inDbcnt] == was + tail;
      Pad(outDbp + inDbcnt, cbsz - inDbcnt);
      outDbcnt := outDbcnt + cbsz;
      assert outDb[..outDbcnt] == (was + tail) + Repeat(Tr(ctab, SPACE), cbsz - |tail|);
      assert outDb[..outDbcnt] == was + (tail + Repeat(Tr(ctab, SPACE), cbsz - |tail|));
    }

    /** `unblock_close`: an incomplete record is stripped like the others. */
    method UnblockClose()
      requires Valid() && conv == Unblock
      modifies this`outDbp, this`outDbcnt, outDb
      ensures outDbp <= outDb.Length && outDbcnt <= outDb.Length && Sent() == Converted(conv, input, cbsz, ctab)
    {
      SentSoFar();
      if inDbcnt > 0 {
        var cnt := StripSpaces(0, inDbcnt);
        PutLine(0, cnt);
        assert inDb[0..inDbcnt] == inDb[..inDbcnt];
      }
    }

    /** `dd_close`. */
    method DdClose() returns (ok: bool)
      requires Valid()
      modifies this`outDbp, this`outDbcnt, this`acks, this`written, this`bytes, this`outFull, this`outPart, outDb
      ensures written <= Converted(conv, input, cbsz, ctab)
      ensures ok ==> written == Converted(conv, input, cbsz, ctab)
      ensures Answered(old(acks), ok)
    {
      CloseConversion();
      ok := true;
      if outDbcnt > 0 {
        ok := DdOut(true);
      }
    }

    /** `def_close`, `block_close` or `unblock_close`. */
    method CloseConversion()
      requires Valid()
      modifies this`outDbp, this`outDbcnt, outDb
      ensures outDbp <= outDb.Length && outDbcnt <= outDb.Length && bytes == |written| && 0 < outDbsz
      ensures Sent() == Converted(conv, input, cbsz, ctab)
    {
      match conv {
        case Def =>
          SentSoFar();
          if inDbcnt > 0 {
            outDbcnt := inDbcnt;
          }
        case Block => BlockClose();
        case Unblock => UnblockClose();
      }
    }

    /** The body of `main`: filesCnt inputs one after the other, then the flush. Whatever the sizes
        of the reads and the writes, a run that ends well has read all that it should and written exactly
        the conversion of it, and a run cut short has written a prefix of that. Only an error or a write
        that the source does not go on from cuts a run short. */
    method Copy(filesCnt: nat) returns (ok: bool)
      requires Valid()
      modifies this, inDb, outDb
      ensures old(input) <= input && written <= Converted(conv, input, cbsz, ctab)
      ensures ok ==> written == Converted(conv, input, cbsz, ctab)
      ensures var all := Flat(AllReads(old(answers), filesCnt, cpyCnt, old(inFull + inPart), inDbsz));
        if ok then input == old(input) + all else input <= old(input) + all
      ensures Answered(old(acks), ok) || (!ok && ReadError in old(answers))
      ensures ReadError !in old(answers) && (forall a :: a in old(acks) ==> !Fatal(a) && !Short(a, Limit())) ==> ok
    {
      ok := ReadFiles(filesCnt);
      if ok {
        ghost var before := acks;
        ok := DdClose();
        TookThen(old(acks), before, acks, Limit(), ok);
      }
      GivenUp(old(acks), ok);
    }

    /** The reads parts are done of all that the run does, whose input began with start, and files
        passes are to come; hidden like a pass. */
    ghost predicate Midway(all: seq<seq<byte>>, parts: seq<seq<byte>>, files: nat, start: seq<byte>)
      reads `input, `answers, `inFull, `inPart
    {
      forall u {:trigger Seen(u)} :: u == parts && Seen(u) ==>
        Filing(all, u, answers, files, cpyCnt, inFull + inPart, inDbsz) && input == start + Flat(u)
    }

    lemma MidwayMeans(all: seq<seq<byte>>, parts: seq<seq<byte>>, files: nat, start: seq<byte>)
      ensures Midway(all, parts, files, start) <==>
        Filing(all, parts, answers, files, cpyCnt, inFull + inPart, inDbsz) && input == start + Flat(parts)
    {
      assert Seen(parts);
    }

    lemma AtStart(files: nat) returns (all: seq<seq<byte>>)
      ensures Midway(all, [], files, input)
      ensures all == AllReads(answers, files, cpyCnt, inFull + inPart, inDbsz)
    {
      all := AllReads(answers, files, cpyCnt, inFull + inPart, inDbsz);
      assert [] + all == all && input + [] == input;
      MidwayMeans(all, [], files, input);
    }

    lemma AtEnd(all: seq<seq<byte>>, parts: seq<seq<byte>>, start: seq<byte>)
      requires Midway(all, parts, 0, start)
      ensures input == start + Flat(all)
    {
      MidwayMeans(all, parts, 0, start);
      assert parts + [] == parts;
    }

    /** The loop over the files. */
    method ReadFiles(filesCnt: nat) returns (ok: bool)
      requires Valid()
      modifies this, inDb, outDb
      ensures old(input) <= input && if ok then Valid() else Sized() && written <= Converted(conv, input, cbsz, ctab)
      ensures var all := Flat(AllReads(old(answers), filesCnt, cpyCnt, old(inFull + inPart), inDbsz));
        if ok then input == old(input) + all else input <= old(input) + all
      ensures Answered(old(acks), ok) || (!ok && ReadError in old(answers))
    {
      ok := true;
      var k: nat := filesCnt;
      ghost var parts: seq<seq<byte>> := [];
      ghost var all := AtStart(filesCnt);
      while k > 0
        invariant Valid() && k <= filesCnt && ok && Answered(old(acks), true)
        invariant Midway(all, parts, k, old(input)) && old(input) <= input
        invariant ReadError !in old(answers) ==> ReadError !in answers
      {
        ghost var before, p := acks, [];
        ok, p := NextFile(all, parts, k, old(input));
        if Answered(before, ok) {
          TookThen(old(acks), before, acks, Limit(), ok);
        }
        if !ok {
          return;
        }
        k := k - 1;
        parts := parts + p;
      }
      AtEnd(all, parts, old(input));
    }

    /** One turn of that loop. */
    method NextFile(ghost all: seq<seq<byte>>, ghost parts: seq<seq<byte>>, ghost files: nat, ghost start: seq<byte>)
      returns (ok: bool, ghost p: seq<seq<byte>>)
      requires Valid() && files > 0 && Midway(all, parts, files, start)
      modifies this, inDb, outDb
      ensures old(input) <= input && if ok then Valid() else Sized() && written <= Converted(conv, input, cbsz, ctab)
      ensures if ok then Midway(all, parts + p, files - 1, start) else input <= start + Flat(all)
      ensures Answered(old(acks), ok) || (!ok && ReadError in old(answers))
      ensures ok && ReadError !in old(answers) ==> ReadError !in answers
    {
      ghost var now, n, counted, was := answers, Wanted(), inFull + inPart, input;
      p := Pass(now, n, inDbsz);
      MidwayMeans(all, parts, files, start);
      ok := DdIn();
      FileRead(old(acks), ok, now, n);
      if ok {
        PassDone(all, parts, files, start, now, counted, was, p);
      } else {
        PassCut(all, parts, files, start, now, counted, was, p);
        ConvertedSoFar();
      }
    }

    lemma PassDone(all: seq<seq<byte>>, parts: seq<seq<byte>>, files: nat, start: seq<byte>,
                   now: seq<ReadResult>, counted: nat, was: seq<byte>, p: seq<seq<byte>>)
      requires files > 0 && Filing(all, parts, now, files, cpyCnt, counted, inDbsz) && was == start + Flat(parts)
      requires var n := Budget(cpyCnt, counted, now);
        p == Pass(now, n, inDbsz) && answers == Unasked(now, n, inDbsz)
      requires input == was + Flat(p) && inFull + inPart == counted + |p|
      ensures Midway(all, parts + p, files - 1, start)
    {
      var q, more := FilingOn(all, parts, now, files, cpyCnt, counted, inDbsz);
      StreamSplit(start, Flat(parts), Flat(p));
      MidwayMeans(all, parts + p, files - 1, start);
    }

    lemma ConvertedSoFar()
      requires Sized() && written <= Meaning()
      ensures written <= Converted(conv, input, cbsz, ctab)
    {
    }

    /** A pass given up has read a part of what it should. */
    lemma PassCut(all: seq<seq<byte>>, parts: seq<seq<byte>>, files: nat, start: seq<byte>,
                  now: seq<ReadResult>, counted: nat, was: seq<byte>, p: seq<seq<byte>>)
      requires files > 0 && Filing(all, parts, now, files, cpyCnt, counted, inDbsz) && was == start + Flat(parts)
      requires p == Pass(now, Budget(cpyCnt, counted, now), inDbsz) && input <= was + Flat(p)
      ensures input <= start + Flat(all)
    {
      var q, more := FilingOn(all, parts, now, files, cpyCnt, counted, inDbsz);
      StaysBelow(input, start, Flat(parts), Flat(p), more);
    }

    /** What one pass adds to what is known of the answers. */
    lemma FileRead(was: seq<WriteResult>, ok: bool, now: seq<ReadResult>, n: nat)
      requires if ok then Answered(was, true) else ReadFails(now, n, inDbsz) || Answered(was, false)
      ensures Answered(was, ok) || (!ok && ReadError in now)
      ensures ReadError !in now ==> ReadError !in Unasked(now, n, inDbsz)
    {
      if ReadError !in now {
        NoReadFails(now, n, inDbsz);
      }
    }

    /** A run is given up for a reason. */
    lemma GivenUp(was: seq<WriteResult>, ok: bool)
      ensures !ok && Answered(was, false) ==> exists a :: a in was && (Fatal(a) || Short(a, Limit()))
    {
      if !ok && Answered(was, false) {
        TookMeans(was, acks, Limit(), false);
        var k := TakenMeans(was, acks, Limit(), false);
        assert was[k - 1] in was;
      }
    }
  }

  lemma SliceOf(db: seq<byte>, base: nat, end: nat, rest: seq<byte>, i: nat, j: nat)
    requires base <= end <= |db| && db[base..end] == rest && i <= j <= |rest|
    ensures db[base + i..base + j] == rest[i..j]
    ensures j < |rest| ==> db[base + j] == rest[j]
  {
    forall k | i <= k < |rest| ensures db[base + k] == rest[k] {
      assert db[base..end][k] == db[base + k];
    }
  }

  lemma StaysBelow(x: seq<byte>, start: seq<byte>, a: seq<byte>, b: seq<byte>, more: seq<byte>)
    requires x <= (start + a) + b
    ensures x <= start + ((a + b) + more)
  {
    assert start + ((a + b) + more) == ((start + a) + b) + more;
  }

  lemma SentMore(sent: seq<byte>, line: seq<byte>, more: seq<byte>)
    ensures (sent + line) + more == sent + (line + more)
    ensures sent + line <= (sent + line) + more
  {
  }

  lemma NoNewlineAcross(s: seq<byte>, i: nat, j: nat)
    requires i <= j <= |s| && NEWLINE !in s[..i] && NEWLINE !in s[i..j]
    ensures NEWLINE !in s[..j]
  {
    assert s[..j] == s[..i] + s[i..j];
  }

  lemma Reseam(prev: seq<byte>, d: seq<byte>, k: nat)
    requires k < |d| && d[k] == NEWLINE
    ensures (prev + d[..k] + [NEWLINE]) + d[k + 1..] == prev + d
  {
  }

  /** n bytes are some number of sz-byte blocks. */
  predicate Whole(n: int, sz: nat)
    requires 0 < sz
    decreases n
  {
    n == 0 || (sz <= n && Whole(n - sz, sz))
  }

  lemma {:induction false} WholeIsMultiple(n: int, sz: nat)
    requires 0 < sz && Whole(n, sz)
    ensures exists k: nat :: n == k * sz
    decreases n
  {
    if n == 0 {
      assert n == 0 * sz;
    } else {
      WholeIsMultiple(n - sz, sz);
      var k: nat :| n - sz == k * sz;
      assert n == (k + 1) * sz;
    }
  }

  lemma SliceMore(db: seq<byte>, buf: seq<byte>, i: nat, j: nat)
    requires i <= j <= |buf| <= |db| && db[..|buf|] == buf
    ensures buf[..j] == buf[..i] + db[i..j]
  {
  }

  lemma SplitAt(w: seq<byte>, buf: seq<byte>, i: nat)
    requires i <= |buf|
    ensures w <= w + buf[..i] <= w + buf
    ensures (w + buf[..i]) + buf[i..] == w + buf
    ensures |w + buf[..i]| - |w| == i
  {
  }
}
