/** What is in an encrypted file, block by block and byte by byte, and what is read from any file. */
module EdCipherLaws {
  import opened EdCipher

  /** What is combined with block i before it is enciphered: nothing for the first, then the cipher
      block before it. */
  function Before(file: seq<Byte>, i: nat): (r: Block)
    requires 8 * i <= |file|
    ensures forall j :: 0 <= j < 8 ==> r[j] == if i == 0 then 0 else file[8 * (i - 1) + j]
  {
    if i == 0 then [0, 0, 0, 0, 0, 0, 0, 0] else file[8 * (i - 1)..8 * i]
  }

  /** Block i of the text, the last one filled up with padding and its own length. */
  function Plain(text: seq<Byte>, pvec: Block, i: nat): (r: Block)
    requires 8 * i <= |text|
  {
    var n := |text| - 8 * i;
    seq(8, j requires 0 <= j < 8 =>
      if n >= 8 || (j < n && j < 7) then text[8 * i + j] else if j < 7 then pvec[j - n] else n as Byte)
  }

  /** Block i of a file encrypted from the vector iv on. */
  lemma {:induction false} BlockFrom(enc: Block -> Block, pvec: Block, iv: Block, text: seq<Byte>, i: nat)
    requires 8 * i <= |text|
    ensures var file := Encrypted(enc, pvec, iv, text);
      |file| >= 8 * i + 8 &&
      file[8 * i..8 * i + 8] == enc(Xor(Plain(text, pvec, i), if i == 0 then iv else file[8 * (i - 1)..8 * i]))
    decreases i
  {
    if i == 0 {
      FirstCipher(enc, pvec, iv, text);
    } else {
      var c := enc(Xor(text[..8], iv));
      BlockFrom(enc, pvec, c, text[8..], i - 1);
      LaterCipher(enc, pvec, iv, text, i);
      LaterBlock(text, pvec, i);
    }
  }

  lemma FirstCipher(enc: Block -> Block, pvec: Block, iv: Block, text: seq<Byte>)
    ensures var file := Encrypted(enc, pvec, iv, text);
      |file| >= 8 && file[0..8] == file[..8] == enc(Xor(Plain(text, pvec, 0), iv))
  {
    if |text| >= 8 {
      FirstBlock(text, pvec);
    } else {
      OnlyBlock(text, pvec);
      assert Encrypted(enc, pvec, iv, text)[..8] == Encrypted(enc, pvec, iv, text);
    }
  }

  /** The file behind its first block is that of the text behind the first block. */
  lemma LaterCipher(enc: Block -> Block, pvec: Block, iv: Block, text: seq<Byte>, i: nat)
    requires i > 0 && 8 * i <= |text|
    ensures var file, c := Encrypted(enc, pvec, iv, text), enc(Xor(text[..8], iv));
      var rest := Encrypted(enc, pvec, c, text[8..]);
      |file| == 8 + |rest| && |rest| >= 8 * i &&
      file[8 * i..8 * i + 8] == rest[8 * (i - 1)..8 * (i - 1) + 8] &&
      if i == 1 then file[8 * (i - 1)..8 * i] == c else file[8 * (i - 1)..8 * i] == rest[8 * (i - 2)..8 * (i - 1)]
  {
    var c: seq<Byte> := enc(Xor(text[..8], iv));
    var rest := Encrypted(enc, pvec, enc(Xor(text[..8], iv)), text[8..]);
    EncryptedLength(enc, pvec, enc(Xor(text[..8], iv)), text[8..]);
    LengthFits(|text|, i, |rest|);
    Behind(c, rest, i);
  }

  lemma LengthFits(n: nat, i: nat, m: nat)
    requires i > 0 && 8 * i <= n && m == 8 * ((n - 8) / 8 + 1)
    ensures m >= 8 * i
  {
  }

  lemma Behind(c: seq<Byte>, rest: seq<Byte>, i: nat)
    requires i > 0 && |c| == 8 && |rest| >= 8 * i
    ensures var file := c + rest;
      file[8 * i..8 * i + 8] == rest[8 * (i - 1)..8 * (i - 1) + 8] &&
      if i == 1 then file[8 * (i - 1)..8 * i] == c else file[8 * (i - 1)..8 * i] == rest[8 * (i - 2)..8 * (i - 1)]
  {
    var file := c + rest;
    assert file[8..] == rest && file[..8] == c;
    SliceShift(file, 8 * i, 8 * i + 8);
    if i > 1 {
      SliceShift(file, 8 * (i - 1), 8 * i);
    }
  }

  lemma SliceShift(file: seq<Byte>, a: nat, b: nat)
    requires 8 <= a <= b <= |file|
    ensures file[a..b] == file[8..][a - 8..b - 8]
  {
    var x, y := file[a..b], file[8..][a - 8..b - 8];
    assert |x| == |y|;
    forall j | 0 <= j < |x| ensures x[j] == y[j] {
      assert x[j] == file[a + j] == file[8..][a - 8 + j] == y[j];
    }
  }

  lemma FirstBlock(text: seq<Byte>, pvec: Block)
    requires |text| >= 8
    ensures Plain(text, pvec, 0) == text[..8]
  {
  }

  lemma OnlyBlock(text: seq<Byte>, pvec: Block)
    requires |text| < 8
    ensures Plain(text, pvec, 0) == LastBlock(text, pvec)
  {
  }

  lemma LaterBlock(text: seq<Byte>, pvec: Block, i: nat)
    requires 0 < i && 8 * i <= |text|
    ensures Plain(text, pvec, i) == Plain(text[8..], pvec, i - 1)
  {
  }

  /** Every block of a file, from the zero vector on: each is the cipher of the text combined with the
      block before it. */
  lemma EveryBlock(enc: Block -> Block, pvec: Block, text: seq<Byte>, i: nat)
    requires 8 * i <= |text|
    ensures var file := Encrypted(enc, pvec, ZERO, text);
      |file| >= 8 * i + 8 && file[8 * i..8 * i + 8] == enc(Xor(Plain(text, pvec, i), Before(file, i)))
  {
    BlockFrom(enc, pvec, ZERO, text, i);
  }

  /** Reading any file: every whole block but the last gives the inverse of the cipher combined with the
      block before it. */
  lemma {:induction false} BlockRead(dec: Block -> Block, iv: Block, file: seq<Byte>, i: nat)
    requires 8 * i + 8 < |file|
    ensures var text := Decrypted(dec, iv, file);
      |text| >= 8 * i + 8 &&
      text[8 * i..8 * i + 8] == Xor(dec(file[8 * i..8 * i + 8]), if i == 0 then iv else file[8 * (i - 1)..8 * i])
    decreases i
  {
    if i > 0 {
      BlockRead(dec, file[..8], file[8..], i - 1);
      var rest := Decrypted(dec, file[..8], file[8..]);
      SliceShift(file, 8 * i, 8 * i + 8);
      if i > 1 {
        SliceShift(file, 8 * (i - 1), 8 * i);
      }
      assert Decrypted(dec, iv, file)[8..] == rest;
      SliceShift(Decrypted(dec, iv, file), 8 * i, 8 * i + 8);
    }
  }

  /** The last block gives as many bytes as its last byte says, none if that is more than seven; an
      incomplete block gives nothing. */
  lemma {:induction false} LastRead(dec: Block -> Block, iv: Block, file: seq<Byte>, k: nat)
    requires 8 * k <= |file| < 8 * k + 8
    ensures |file| > 8 * k || k == 0 ==> |Decrypted(dec, iv, file)| == 8 * k
    ensures |file| == 8 * k && k > 0 ==>
      var x := Xor(dec(file[8 * (k - 1)..]), if k == 1 then iv else file[8 * (k - 2)..8 * (k - 1)]);
      var n := if x[7] <= 7 then x[7] as nat else 0;
      |Decrypted(dec, iv, file)| == 8 * (k - 1) + n && Decrypted(dec, iv, file)[8 * (k - 1)..] == x[..n]
    decreases k
  {
    if k == 1 {
      OneBlockRead(dec, iv, file);
    } else if k > 1 {
      LastRead(dec, file[..8], file[8..], k - 1);
      LastLater(dec, iv, file, k);
    }
  }

  lemma OneBlockRead(dec: Block -> Block, iv: Block, file: seq<Byte>)
    requires 8 <= |file| < 16
    ensures |file| > 8 ==> |Decrypted(dec, iv, file)| == 8
    ensures |file| == 8 ==>
      var x := Xor(dec(file[0..]), iv);
      var n := if x[7] <= 7 then x[7] as nat else 0;
      |Decrypted(dec, iv, file)| == n && Decrypted(dec, iv, file)[0..] == x[..n]
  {
    assert file[0..] == file;
    if |file| == 8 {
      assert file[..8] == file;
    } else {
      assert |file[8..]| < 8;
    }
  }

  /** A block read before does not matter to the last one. */
  lemma LastLater(dec: Block -> Block, iv: Block, file: seq<Byte>, k: nat)
    requires k > 1 && 8 * k <= |file| < 8 * k + 8
    ensures var t: seq<Byte>, all: seq<Byte> := Decrypted(dec, file[..8], file[8..]), Decrypted(dec, iv, file);
      |all| == 8 + |t| && (8 * (k - 1) <= |all| ==> all[8 * (k - 1)..] == t[8 * (k - 2)..]) &&
      file[8 * (k - 1)..] == file[8..][8 * (k - 2)..] &&
      (if k == 2 then file[8 * (k - 2)..8 * (k - 1)] == file[..8]
       else file[8 * (k - 2)..8 * (k - 1)] == file[8..][8 * (k - 3)..8 * (k - 2)])
  {
    var t: seq<Byte>, all: seq<Byte> := Decrypted(dec, file[..8], file[8..]), Decrypted(dec, iv, file);
    DecryptedLater(dec, iv, file);
    DropShift(file, 8 * (k - 1));
    if k > 2 {
      SliceShift(file, 8 * (k - 2), 8 * (k - 1));
    }
    if 8 * (k - 1) <= |all| {
      DropShift(all, 8 * (k - 1));
    }
  }

  lemma DecryptedLater(dec: Block -> Block, iv: Block, file: seq<Byte>)
    requires |file| > 8
    ensures var t: seq<Byte>, all: seq<Byte> := Decrypted(dec, file[..8], file[8..]), Decrypted(dec, iv, file);
      |all| == 8 + |t| && all[8..] == t
  {
  }

  lemma DropShift(s: seq<Byte>, a: nat)
    requires 8 <= a <= |s|
    ensures s[a..] == s[8..][a - 8..]
  {
    SliceShift(s, a, |s|);
  }
}
