/** What read(2) and write(2) answer dd, and how far into the answers its loops go. */
module DdDevice {
  import opened DdMeaning

  /** One answer of read(2); running out of answers is end of file too. */
  datatype ReadResult = Data(bytes: seq<byte>) | Eof | ReadError

  /** One answer of write(2): a count (cut to what was asked for), an interruption,
      zero bytes, or another error. With no answer left, writes are complete. */
  datatype WriteResult = Wrote(n: nat) | Interrupted | EndOfDevice | WriteError

  // ---- writes ----------------------------------------------------------------------------

  /** An answer that ends every run. */
  predicate Fatal(a: WriteResult) { a.EndOfDevice? || a.WriteError? }

  /** An answer that leaves something of n bytes unwritten. */
  predicate Short(a: WriteResult, n: nat) {
    (a.Interrupted? && n > 0) || (a.Wrote? && Max(1, a.n) < n)
  }

  /** The answers now are what is left of those before. None that was taken is fatal, but the last one
      if the run has been given up; there the last one may also be short of limit bytes, which on a tape
      is the size of the buffer and elsewhere 0. */
  predicate Taken(was: seq<WriteResult>, now: seq<WriteResult>, limit: nat, ok: bool)
    decreases |was|
  {
    (ok && was == now) ||
    (was != [] &&
     ((!ok && was[1..] == now && (Fatal(was[0]) || Short(was[0], limit))) ||
      (!Fatal(was[0]) && Taken(was[1..], now, limit, ok))))
  }

  /** The same, said under a quantifier so that proofs only look inside where they are told to. */
  ghost predicate Took(was: seq<WriteResult>, now: seq<WriteResult>, limit: nat, ok: bool) {
    forall u {:trigger Asked(u)} :: u == was && Asked(u) ==> Taken(u, now, limit, ok)
  }

  ghost predicate Asked(a: seq<WriteResult>) { true }

  lemma TookMeans(was: seq<WriteResult>, now: seq<WriteResult>, limit: nat, ok: bool)
    ensures Took(was, now, limit, ok) <==> Taken(was, now, limit, ok)
  {
    assert Asked(was);
  }

  lemma TookThen(a: seq<WriteResult>, b: seq<WriteResult>, c: seq<WriteResult>, limit: nat, ok: bool)
    requires Took(a, b, limit, true) && Took(b, c, limit, ok)
    ensures Took(a, c, limit, ok)
  {
    TookMeans(a, b, limit, true);
    TookMeans(b, c, limit, ok);
    TakenThen(a, b, c, limit, ok);
    TookMeans(a, c, limit, ok);
  }

  lemma {:induction false} TakenThen(a: seq<WriteResult>, b: seq<WriteResult>, c: seq<WriteResult>, limit: nat, ok: bool)
    requires Taken(a, b, limit, true) && Taken(b, c, limit, ok)
    ensures Taken(a, c, limit, ok)
    decreases |a|
  {
    if a != b {
      TakenThen(a[1..], b, c, limit, ok);
    }
  }

  lemma TakenOne(a: seq<WriteResult>, limit: nat)
    requires a != []
    ensures !Fatal(a[0]) ==> Taken(a, a[1..], limit, true)
    ensures Fatal(a[0]) || Short(a[0], limit) ==> Taken(a, a[1..], limit, false)
  {
    assert !Fatal(a[0]) ==> Taken(a[1..], a[1..], limit, true);
  }

  /** Where the answers taken end, and what they are. */
  lemma {:induction false} TakenMeans(was: seq<WriteResult>, now: seq<WriteResult>, limit: nat, ok: bool) returns (k: nat)
    requires Taken(was, now, limit, ok)
    ensures k <= |was| && now == was[k..]
    ensures ok ==> forall a :: a in was[..k] ==> !Fatal(a)
    ensures !ok ==> k > 0 && (Fatal(was[k - 1]) || Short(was[k - 1], limit))
    decreases |was|
  {
    if ok && was == now {
      k := 0;
    } else if !ok && was[1..] == now && (Fatal(was[0]) || Short(was[0], limit)) {
      k := 1;
    } else {
      k := TakenMeans(was[1..], now, limit, ok);
      k := k + 1;
      assert was[..k] == [was[0]] + was[1..][..k - 1];
    }
  }

  // ---- reads -----------------------------------------------------------------------------

  /** An answer that delivers bytes when sz are asked for. */
  predicate Delivers(a: ReadResult, sz: nat) { a.Data? && a.bytes != [] && sz > 0 }

  /** The reads of one pass of `dd_in`: up to the first answer that delivers nothing, at most n. */
  function Pass(answers: seq<ReadResult>, n: nat, sz: nat): seq<seq<byte>> {
    if n == 0 || answers == [] || !Delivers(answers[0], sz) then []
    else [answers[0].bytes[..Min(|answers[0].bytes|, sz)]] + Pass(answers[1..], n - 1, sz)
  }

  /** The answers a pass leaves; it takes the one that ends it. */
  function Unasked(answers: seq<ReadResult>, n: nat, sz: nat): seq<ReadResult> {
    if n == 0 || answers == [] then answers
    else if !Delivers(answers[0], sz) then answers[1..]
    else Unasked(answers[1..], n - 1, sz)
  }

  /** A pass comes to an error. */
  predicate ReadFails(answers: seq<ReadResult>, n: nat, sz: nat) {
    n > 0 && answers != [] &&
    if Delivers(answers[0], sz) then ReadFails(answers[1..], n - 1, sz) else answers[0].ReadError?
  }

  function Flat(parts: seq<seq<byte>>): seq<byte> {
    if parts == [] then [] else parts[0] + Flat(parts[1..])
  }

  /** How many of the reads are whole blocks. */
  function Fulls(parts: seq<seq<byte>>, sz: nat): nat {
    if parts == [] then 0 else (if |parts[0]| == sz then 1 else 0) + Fulls(parts[1..], sz)
  }

  /** How many blocks may still be read; without a limit, as many as there are answers. */
  function Budget(cpyCnt: nat, counted: nat, answers: seq<ReadResult>): nat {
    if cpyCnt == 0 then |answers| else if counted >= cpyCnt then 0 else cpyCnt - counted
  }

  /** The reads of passes over a number of files, counted reads being done already. */
  function AllReads(answers: seq<ReadResult>, files: nat, cpyCnt: nat, counted: nat, sz: nat): seq<seq<byte>>
    decreases files
  {
    if files == 0 then []
    else
      var n := Budget(cpyCnt, counted, answers);
      var p := Pass(answers, n, sz);
      p + AllReads(Unasked(answers, n, sz), files - 1, cpyCnt, counted + |p|, sz)
  }

  lemma {:induction false} FlatAppend(a: seq<seq<byte>>, b: seq<seq<byte>>)
    ensures Flat(a + b) == Flat(a) + Flat(b)
  {
    if a == [] {
      assert a + b == b;
    } else {
      assert (a + b)[0] == a[0] && (a + b)[1..] == a[1..] + b;
      FlatAppend(a[1..], b);
    }
  }

  /** The reads of a pass answer by answer, what ends it, and what is left. */
  lemma {:induction false} PassMeans(answers: seq<ReadResult>, n: nat, sz: nat)
    ensures var k := |Pass(answers, n, sz)|;
      k <= n && k <= |answers| &&
      (forall i :: 0 <= i < k ==>
        Delivers(answers[i], sz) && Pass(answers, n, sz)[i] == answers[i].bytes[..Min(|answers[i].bytes|, sz)]) &&
      (k < n && k < |answers| ==> !Delivers(answers[k], sz)) &&
      (ReadFails(answers, n, sz) <==> k < n && k < |answers| && answers[k].ReadError?) &&
      Unasked(answers, n, sz) == answers[if k < n && k < |answers| then k + 1 else k..]
  {
    if n > 0 && answers != [] && Delivers(answers[0], sz) {
      PassMeans(answers[1..], n - 1, sz);
    }
  }

  /** Without an error in the answers a pass meets none. */
  lemma NoReadFails(answers: seq<ReadResult>, n: nat, sz: nat)
    requires ReadError !in answers
    ensures !ReadFails(answers, n, sz) && ReadError !in Unasked(answers, n, sz)
  {
    PassMeans(answers, n, sz);
  }

  /** A list that a proof looks at. */
  ghost predicate Seen(parts: seq<seq<byte>>) { true }

  // ---- a pass in the middle ----------------------------------------------------------------

  /** The pass over the answers all, n reads at most, has done the reads parts and goes on with the
      answers now, m reads at most. */
  predicate Reading(all: seq<ReadResult>, n: nat, parts: seq<seq<byte>>, now: seq<ReadResult>, m: nat, sz: nat) {
    Pass(all, n, sz) == parts + Pass(now, m, sz) && Unasked(all, n, sz) == Unasked(now, m, sz) &&
    (ReadFails(all, n, sz) <==> ReadFails(now, m, sz))
  }

  lemma ReadingStarts(all: seq<ReadResult>, n: nat, sz: nat)
    ensures Reading(all, n, [], all, n, sz)
  {
    assert [] + Pass(all, n, sz) == Pass(all, n, sz);
  }

  lemma ReadingOn(all: seq<ReadResult>, n: nat, parts: seq<seq<byte>>, now: seq<ReadResult>, m: nat, sz: nat, d: seq<byte>)
    requires Reading(all, n, parts, now, m, sz) && m > 0 && now != [] && Delivers(now[0], sz)
    requires d == now[0].bytes[..Min(|now[0].bytes|, sz)]
    ensures Reading(all, n, parts + [d], now[1..], m - 1, sz)
    ensures Flat(parts + [d]) == Flat(parts) + d && Fulls(parts + [d], sz) == Fulls(parts, sz) + if |d| == sz then 1 else 0
    ensures Flat(parts) + d <= Flat(Pass(all, n, sz))
  {
    var rest := Pass(now[1..], m - 1, sz);
    assert parts + ([d] + rest) == (parts + [d]) + rest;
    FlatAppend(parts, [d]);
    FlatOne(d);
    FlatAppend(parts + [d], rest);
    FullsAppend(parts, d, sz);
  }

  lemma FlatOne(d: seq<byte>)
    ensures Flat([d]) == d
  {
    assert [d][1..] == [] && d + [] == d;
  }

  lemma {:induction false} FullsAppend(parts: seq<seq<byte>>, d: seq<byte>, sz: nat)
    ensures Fulls(parts + [d], sz) == Fulls(parts, sz) + if |d| == sz then 1 else 0
  {
    if parts != [] {
      assert (parts + [d])[0] == parts[0] && (parts + [d])[1..] == parts[1..] + [d];
      FullsAppend(parts[1..], d, sz);
    } else {
      assert (parts + [d])[1..] == [];
    }
  }

  lemma ReadingEnds(all: seq<ReadResult>, n: nat, parts: seq<seq<byte>>, now: seq<ReadResult>, m: nat, sz: nat)
    requires Reading(all, n, parts, now, m, sz) && (m == 0 || now == [] || !Delivers(now[0], sz))
    ensures Pass(all, n, sz) == parts
    ensures Unasked(all, n, sz) == if m == 0 || now == [] then now else now[1..]
    ensures ReadFails(all, n, sz) <==> m > 0 && now != [] && now[0].ReadError?
  {
    assert parts + [] == parts;
  }

  // ---- passes over several files -------------------------------------------------------------

  /** Of the reads `all`, the parts are done, and files more passes do the rest. */
  predicate Filing(all: seq<seq<byte>>, parts: seq<seq<byte>>, now: seq<ReadResult>,
                   files: nat, cpyCnt: nat, counted: nat, sz: nat)
  {
    all == parts + AllReads(now, files, cpyCnt, counted, sz)
  }

  lemma FilingOn(all: seq<seq<byte>>, parts: seq<seq<byte>>, now: seq<ReadResult>,
                 files: nat, cpyCnt: nat, counted: nat, sz: nat)
    returns (p: seq<seq<byte>>, more: seq<byte>)
    requires files > 0 && Filing(all, parts, now, files, cpyCnt, counted, sz)
    ensures var n := Budget(cpyCnt, counted, now);
      p == Pass(now, n, sz) && Filing(all, parts + p, Unasked(now, n, sz), files - 1, cpyCnt, counted + |p|, sz)
    ensures Flat(parts + p) == Flat(parts) + Flat(p) && Flat(all) == (Flat(parts) + Flat(p)) + more
  {
    var n := Budget(cpyCnt, counted, now);
    p := Pass(now, n, sz);
    var rest := AllReads(Unasked(now, n, sz), files - 1, cpyCnt, counted + |p|, sz);
    assert parts + (p + rest) == (parts + p) + rest;
    FlatAppend(parts, p);
    FlatAppend(parts + p, rest);
    more := Flat(rest);
  }

  // ---- the reads of a run, from the answers alone ----------------------------------------------

  /** The bytes that answers deliver. */
  function Delivered(d: seq<ReadResult>, sz: nat): seq<seq<byte>>
    requires forall i :: 0 <= i < |d| ==> Delivers(d[i], sz)
  {
    seq(|d|, i requires 0 <= i < |d| && Delivers(d[i], sz) => d[i].bytes[..Min(|d[i].bytes|, sz)])
  }

  /** How many more blocks may be read, n of them being there. */
  function Allowed(n: nat, cpyCnt: nat, counted: nat): (r: nat)
    ensures r <= n
  {
    if cpyCnt == 0 || counted + n <= cpyCnt then n else if counted >= cpyCnt then 0 else cpyCnt - counted
  }

  /** A pass over answers that deliver, up to the first one that does not. */
  lemma PassUpTo(d: seq<ReadResult>, more: seq<ReadResult>, n: nat, sz: nat)
    requires forall i :: 0 <= i < |d| ==> Delivers(d[i], sz)
    requires more == [] || !Delivers(more[0], sz)
    ensures Pass(d + more, n, sz) == Delivered(d, sz)[..if n <= |d| then n else |d|]
    ensures n > |d| && more != [] ==> Unasked(d + more, n, sz) == more[1..]
  {
    var all := d + more;
    PassMeans(all, n, sz);
    var k := |Pass(all, n, sz)|;
    assert forall i :: 0 <= i < |d| ==> all[i] == d[i];
    assert more != [] ==> all[|d|] == more[0];
    assert k == if n <= |d| then n else |d|;
    if n > |d| && more != [] {
      assert all[|d| + 1..] == more[1..];
    }
  }

  /** Without answers, and once the limit is reached, nothing is read. */
  lemma {:induction false} NothingMore(answers: seq<ReadResult>, files: nat, cpyCnt: nat, counted: nat, sz: nat)
    requires answers == [] || 0 < cpyCnt <= counted
    ensures AllReads(answers, files, cpyCnt, counted, sz) == []
    decreases files
  {
    if files > 0 {
      NothingMore(answers, files - 1, cpyCnt, counted, sz);
    }
  }

  /** The first file goes up to the answer that delivers nothing, and the others follow behind it, as far
      as the limit allows. */
  lemma FileByFile(d: seq<ReadResult>, e: ReadResult, rest: seq<ReadResult>, files: nat, cpyCnt: nat, counted: nat, sz: nat)
    requires (forall i :: 0 <= i < |d| ==> Delivers(d[i], sz)) && !Delivers(e, sz) && files > 0
    ensures AllReads(d + ([e] + rest), files, cpyCnt, counted, sz) ==
      if cpyCnt == 0 || counted + |d| < cpyCnt then
        Delivered(d, sz) + AllReads(rest, files - 1, cpyCnt, counted + |d|, sz)
      else Delivered(d, sz)[..Allowed(|d|, cpyCnt, counted)]
  {
    var all := d + ([e] + rest);
    var n := Budget(cpyCnt, counted, all);
    PassUpTo(d, [e] + rest, n, sz);
    assert ([e] + rest)[1..] == rest;
    if !(cpyCnt == 0 || counted + |d| < cpyCnt) {
      NothingMore(Unasked(all, n, sz), files - 1, cpyCnt, counted + n, sz);
    }
  }

  /** Of a file that nothing ends, all is read that the limit allows. */
  lemma LastFile(d: seq<ReadResult>, files: nat, cpyCnt: nat, counted: nat, sz: nat)
    requires (forall i :: 0 <= i < |d| ==> Delivers(d[i], sz)) && files > 0
    ensures AllReads(d, files, cpyCnt, counted, sz) == Delivered(d, sz)[..Allowed(|d|, cpyCnt, counted)]
  {
    var n := Budget(cpyCnt, counted, d);
    assert d + [] == d;
    PassUpTo(d, [], n, sz);
    PassMeans(d, n, sz);
    NothingMore(Unasked(d, n, sz), files - 1, cpyCnt, counted + Allowed(|d|, cpyCnt, counted), sz);
  }
}
