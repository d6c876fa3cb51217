/** ed's encrypted files: cipher block chaining behind a one-block buffer, written and read a
    character at a time. The block cipher is any permutation of blocks. */
module EdCipher {

  type Byte = bv8

  const ZERO: Block := [0, 0, 0, 0, 0, 0, 0, 0]

  type Block = x: seq<Byte> | |x| == 8 witness [0, 0, 0, 0, 0, 0, 0, 0]

  /** A permutation of blocks of eight bytes and its inverse: the cipher under one key. */
  ghost predicate Permutation(enc: Block -> Block, dec: Block -> Block) {
    forall x :: dec(enc(x)) == x
  }

  function Xor(x: Block, y: Block): (r: Block)
    ensures forall i :: 0 <= i < 8 ==> r[i] == x[i] ^ y[i]
  {
    seq(8, i requires 0 <= i < 8 => x[i] ^ y[i])
  }

  lemma XorTwice(x: Block, y: Block)
    ensures Xor(Xor(x, y), y) == x
  {
    forall i | 0 <= i < 8 ensures (x[i] ^ y[i]) ^ y[i] == x[i] {
    }
  }

  /** A number from 0 to 8 as a byte, and back. */
  function CountByte(n: nat): (b: Byte)
    requires n < 8
    ensures b < 8 && ByteCount(b) == n
  {
    n as Byte
  }

  function ByteCount(b: Byte): (n: nat)
    ensures n < 256 && (b <= 7 <==> n <= 7)
  {
    b as nat
  }

  /** The last block: what is left of the text, padding, and in the last byte how much is text. */
  function LastBlock(tail: seq<Byte>, pvec: Block): (r: Block)
    requires |tail| < 8
    ensures r[..|tail|] == tail && r[7] == CountByte(|tail|)
  {
    (tail + pvec[..8 - |tail|])[..7] + [CountByte(|tail|)]
  }

  /** Cipher block chaining as in section 6.2 of NIST SP 800-38A: each block is combined with the
      cipher block before it, the first with the initialization vector, and then enciphered. The
      text ends with a block that says how long it is. */
  ghost function Encrypted(enc: Block -> Block, pvec: Block, iv: Block, text: seq<Byte>): seq<Byte>
    decreases |text|
  {
    if |text| < 8 then enc(Xor(LastBlock(text, pvec), iv))
    else
      var c := enc(Xor(text[..8], iv));
      c + Encrypted(enc, pvec, c, text[8..])
  }

  /** What is read from a file, whatever is in it, before the end or an error. */
  ghost function Decrypted(dec: Block -> Block, iv: Block, file: seq<Byte>): seq<Byte>
    decreases |file|
  {
    if |file| < 8 then []
    else
      var p := Xor(dec(file[..8]), iv);
      if |file| == 8 then if p[7] > 7 then [] else p[..ByteCount(p[7])]
      else p + Decrypted(dec, file[..8], file[8..])
  }

  /** The length of a file. */
  lemma {:induction false} EncryptedLength(enc: Block -> Block, pvec: Block, iv: Block, text: seq<Byte>)
    ensures |Encrypted(enc, pvec, iv, text)| == 8 * (|text| / 8 + 1)
    decreases |text|
  {
    if |text| >= 8 {
      EncryptedLength(enc, pvec, enc(Xor(text[..8], iv)), text[8..]);
    }
  }

  /** Reading what has been written gives the text back, for every text, padding and permutation. */
  lemma {:induction false} RoundTrip(enc: Block -> Block, dec: Block -> Block, pvec: Block,
                                     iv: Block, text: seq<Byte>)
    requires Permutation(enc, dec)
    ensures Decrypted(dec, iv, Encrypted(enc, pvec, iv, text)) == text
    decreases |text|
  {
    var file := Encrypted(enc, pvec, iv, text);
    EncryptedLength(enc, pvec, iv, text);
    if |text| < 8 {
      var last := LastBlock(text, pvec);
      XorTwice(last, iv);
      assert file[..8] == file;
    } else {
      var c := enc(Xor(text[..8], iv));
      XorTwice(text[..8], iv);
      EncryptedLength(enc, pvec, c, text[8..]);
      RoundTrip(enc, dec, pvec, c, text[8..]);
      assert file[..8] == c && file[8..] == Encrypted(enc, pvec, c, text[8..]);
      assert text[..8] + text[8..] == text;
    }
  }

  /** The cipher blocks of whole blocks of text, and the last of them. */
  ghost function Blocks(enc: Block -> Block, iv: Block, text: seq<Byte>): seq<Byte>
    requires |text| % 8 == 0
    decreases |text|
  {
    if text == [] then []
    else
      var c := enc(Xor(text[..8], iv));
      c + Blocks(enc, c, text[8..])
  }

  ghost function Chain(enc: Block -> Block, iv: Block, text: seq<Byte>): Block
    requires |text| % 8 == 0
    decreases |text|
  {
    if text == [] then iv else Chain(enc, enc(Xor(text[..8], iv)), text[8..])
  }

  lemma {:induction false} BlocksThen(enc: Block -> Block, pvec: Block, iv: Block, a: seq<Byte>, b: seq<Byte>)
    requires |a| % 8 == 0
    ensures Encrypted(enc, pvec, iv, a + b) == Blocks(enc, iv, a) + Encrypted(enc, pvec, Chain(enc, iv, a), b)
    decreases |a|
  {
    if a == [] {
      assert a + b == b;
    } else {
      assert (a + b)[..8] == a[..8] && (a + b)[8..] == a[8..] + b;
      var c := enc(Xor(a[..8], iv));
      BlocksThen(enc, pvec, c, a[8..], b);
    }
  }

  lemma {:induction false} OneMoreBlock(enc: Block -> Block, iv: Block, a: seq<Byte>, b: Block)
    requires |a| % 8 == 0
    ensures var c := enc(Xor(b, Chain(enc, iv, a)));
      Blocks(enc, iv, a + b) == Blocks(enc, iv, a) + c && Chain(enc, iv, a + b) == c
    decreases |a|
  {
    if a == [] {
      assert a + b == b && b[..8] == b && b[8..] == [];
      assert Blocks(enc, iv, b) == enc(Xor(b, iv)) + [];
    } else {
      assert (a + b)[..8] == a[..8] && (a + b)[8..] == a[8..] + b;
      OneMoreBlock(enc, enc(Xor(a[..8], iv)), a[8..], b);
    }
  }

  lemma TakeOne(buf: seq<Byte>, n: nat, ct: nat, t: seq<Byte>)
    requires n < ct <= |buf|
    ensures buf[n..ct] + t == [buf[n]] + ((if n + 1 < ct then buf[n + 1..ct] else []) + t)
  {
    assert buf[n..ct] == [buf[n]] + buf[n + 1..ct];
  }

  /** An encrypted file, with the buffer and the vectors the source keeps in globals. */
  class CipherFile {
    /** the block cipher under the key that has been entered, and its inverse */
    const enc: Block -> Block
    const dec: Block -> Block
    /** `des_buf` and `ivec` */
    const desBuf: array<Byte>
    const ivec: array<Byte>
    var pvec: Block
    var desCt: int
    var desN: nat
    /** what has been written, or what there is still to read */
    var file: seq<Byte>
    /** the characters written, and those of them in blocks that are in the file */
    ghost var text: seq<Byte>
    ghost var done: seq<Byte>

    ghost predicate Keyed()
      reads this
    {
      Permutation(enc, dec) && desBuf.Length == 8 == ivec.Length && desBuf != ivec
    }

    /** The file holds the blocks that are done, and the buffer the characters behind them. */
    ghost predicate Writing()
      reads this, desBuf, ivec
    {
      Keyed() && desN <= 8 && |done| % 8 == 0 && text == done + desBuf[..desN] && desCt >= 0 &&
      file == Blocks(enc, ZERO, done) && ivec[..] == Chain(enc, ZERO, done)
    }

    ghost predicate Reading()
      reads this
    {
      Keyed() && desCt <= 8 && (desN <= desCt || desN == 0)
    }

    /** The characters still to be read. */
    ghost function Unread(): seq<Byte>
      reads this, desBuf, ivec
      requires Reading()
    {
      (if desN < desCt then desBuf[desN..desCt] else []) + Decrypted(dec, ivec[..], file)
    }

    constructor (e: Block -> Block, d: Block -> Block, padding: Block)
      requires Permutation(e, d)
      ensures Keyed() && enc == e && dec == d && file == [] && fresh(desBuf) && fresh(ivec)
    {
      enc, dec, pvec := e, d, padding;
      desBuf, ivec := new Byte[8], new Byte[8];
      desCt, desN, file, text, done := 0, 0, [], [], [];
    }

    /** `init_des_cipher`, with the padding it draws. */
    method InitDesCipher(padding: Block)
      requires Keyed()
      modifies this`desCt, this`desN, this`pvec, this`text, this`done, ivec
      ensures Keyed() && Reading() && desCt == desN == 0 && ivec[..] == ZERO && pvec == padding
      ensures text == done == [] && (file == [] ==> Writing())
      ensures Unread() == Decrypted(dec, ZERO, file)
    {
      desCt, desN := 0, 0;
      pvec := padding;
      text, done := [], [];
      for i := 0 to 8
        modifies ivec
        invariant forall j :: 0 <= j < i ==> ivec[j] == 0
      {
        ivec[i] := 0;
      }
      assert ivec[..] == ZERO;
    }

    /** Each byte of the buffer is combined with that of the chaining vector. */
    method XorVector()
      requires Keyed()
      modifies desBuf
      ensures desBuf[..] == Xor(old(desBuf[..]), ivec[..])
    {
      ghost var want: seq<Byte> := Xor(desBuf[..], ivec[..]);
      for n := 0 to 8
        invariant forall j :: 0 <= j < n ==> desBuf[j] == want[j]
        invariant forall j :: n <= j < 8 ==> desBuf[j] == old(desBuf[j])
      {
        assert want[n] == old(desBuf[..])[n] ^ ivec[..][n];
        desBuf[n] := desBuf[n] ^ ivec[n];
      }
    }

    /** Eight bytes into a buffer. */
    static method Fill(a: array<Byte>, x: Block)
      requires a.Length == 8
      modifies a
      ensures a[..] == x
    {
      for n := 0 to 8
        invariant a[..n] == x[..n]
      {
        a[n] := x[n];
      }
    }

    /** `cbc_encode(des_buf, n, fp)`, when the file can be written. */
    method CbcEncode(n: nat) returns (written: int)
      requires Keyed() && n <= 8
      modifies this`file, desBuf, ivec
      ensures written == 8
      ensures var iv, buf := old(ivec[..]), old(desBuf[..]);
        if n == 8 then
          file == old(file) + enc(Xor(buf, iv)) && ivec[..] == enc(Xor(buf, iv))
        else
          file == old(file) + enc(Xor(LastBlock(buf[..n], pvec), iv)) && ivec[..] == iv
    {
      if n == 8 {
        XorVector();
        Fill(desBuf, enc(desBuf[..]));
        Fill(ivec, desBuf[..]);
        file := file + desBuf[..];
        return 8;
      }
      Pad(n);
      XorVector();
      Fill(desBuf, enc(desBuf[..]));
      file := file + desBuf[..];
      return 8;
    }

    /** Padding behind the first n bytes, and in the last byte how many there are. */
    method Pad(n: nat)
      requires Keyed() && n < 8
      modifies desBuf
      ensures desBuf[..] == LastBlock(old(desBuf[..n]), pvec)
    {
      ghost var head := desBuf[..n];
      for j := n to 8
        invariant desBuf[..n] == head && forall k :: n <= k < j ==> desBuf[k] == pvec[k - n]
      {
        desBuf[j] := pvec[j - n];
      }
      desBuf[7] := CountByte(n);
      assert forall k :: 0 <= k < 7 ==> desBuf[k] == (head + pvec[..8 - n])[k];
    }

    /** `put_des_char(c)` */
    method PutDesChar(c: Byte) returns (r: Byte)
      requires Writing()
      modifies this`desCt, this`desN, this`file, this`text, this`done, desBuf, ivec
      ensures Writing() && r == c && text == old(text) + [c]
    {
      if desN == 8 {
        WriteBlock();
      }
      desBuf[desN] := c;
      desN := desN + 1;
      text := text + [c];
      return c;
    }

    /** A full buffer goes into the file. */
    method WriteBlock()
      requires Writing() && desN == 8
      modifies this`desCt, this`desN, this`file, this`done, desBuf, ivec
      ensures Writing() && desN == 0 && text == old(text) == done
    {
      ghost var all: seq<Byte>, buf: Block := done, desBuf[..];
      OneMoreBlock(enc, ZERO, all, buf);
      assert desBuf[..8] == buf;
      desCt := CbcEncode(8);
      Emptied(all + buf);
    }

    method Emptied(ghost blocks: seq<Byte>)
      requires Keyed() && |blocks| % 8 == 0 && desCt >= 0 && text == blocks
      requires file == Blocks(enc, ZERO, blocks) && ivec[..] == Chain(enc, ZERO, blocks)
      modifies this`desN, this`done
      ensures Writing() && desN == 0 && done == blocks
    {
      desN := 0;
      done := blocks;
      assert done + desBuf[..0] == done;
    }

    /** `flush_des_file()`: the file holds the encrypted text. */
    method FlushDesFile() returns (status: int)
      requires Writing()
      modifies this`desCt, this`desN, this`file, this`done, desBuf, ivec
      ensures status == 0 && Keyed() && text == old(text)
      ensures file == Encrypted(enc, pvec, ZERO, text) && |file| == 8 * (|text| / 8 + 1)
    {
      if desN == 8 {
        WriteBlock();
      }
      BlocksThen(enc, pvec, ZERO, done, desBuf[..desN]);
      EncryptedLength(enc, pvec, ZERO, text);
      var n := CbcEncode(desN);
      return 0;
    }

    /** `cbc_decode(des_buf, fp)`: the number of characters, or -1 at the end and for a file
        that is not whole. */
    method CbcDecode() returns (n: int)
      requires Keyed()
      modifies this`file, desBuf, ivec
      ensures n <= 8
      ensures (if n > 0 then desBuf[..n] else []) + Decrypted(dec, ivec[..], file) ==
        Decrypted(dec, old(ivec[..]), old(file))
      ensures n <= 0 ==> Decrypted(dec, old(ivec[..]), old(file)) == []
    {
      if |file| < 8 {
        file := [];
        return -1;
      }
      ghost var iv, f := ivec[..], file;
      var ibuf := file[..8];
      file := file[8..];
      Fill(desBuf, dec(ibuf));
      XorVector();
      Fill(ivec, ibuf);
      ghost var p := Xor(dec(ibuf), iv);
      assert desBuf[..] == p;
      if file == [] {
        if desBuf[7] > 7 {
          return -1;
        }
        n := ByteCount(desBuf[7]);
        assert desBuf[..n] == p[..n] && p[..n] + [] == p[..n];
      } else {
        n := 8;
        assert desBuf[..8] == p;
      }
    }

    /** `get_des_char()`: the next character, or -1 when there is none. */
    method GetDesChar() returns (r: int)
      requires Reading()
      modifies this`desCt, this`desN, this`file, desBuf, ivec
      ensures Reading()
      ensures old(Unread()) == [] ==> r == -1 && Unread() == []
      ensures old(Unread()) != [] ==> r == old(Unread())[0] as int && Unread() == old(Unread())[1..]
    {
      if desN >= desCt {
        NextBlock();
      }
      if desCt > 0 {
        TakeOne(desBuf[..], desN, desCt, Decrypted(dec, ivec[..], file));
        r := desBuf[desN] as int;
        desN := desN + 1;
      } else {
        r := -1;
      }
    }

    method NextBlock()
      requires Reading() && desN >= desCt
      modifies this`desCt, this`desN, this`file, desBuf, ivec
      ensures Reading() && Unread() == old(Unread()) && desN == 0
      ensures desCt <= 0 ==> Unread() == []
    {
      ghost var unread := Unread();
      desN := 0;
      desCt := CbcDecode();
      assert [] + Decrypted(dec, ivec[..], file) == Decrypted(dec, ivec[..], file);
    }
  }

  /** Write a text, start again and read: the text comes back, and then the end of the file. */
  method WriteAndRead(f: CipherFile, text: seq<Byte>, padding: Block, padding1: Block) returns (back: seq<Byte>)
    requires f.Keyed() && f.file == []
    modifies f, f.desBuf, f.ivec
    ensures back == text
  {
    f.InitDesCipher(padding);
    for i := 0 to |text|
      invariant f.Writing() && f.text == text[..i]
    {
      var c := f.PutDesChar(text[i]);
      assert text[..i + 1] == text[..i] + [text[i]];
    }
    assert text[..|text|] == text;
    var status := f.FlushDesFile();
    RoundTrip(f.enc, f.dec, f.pvec, ZERO, text);
    f.InitDesCipher(padding1);
    back := ReadAll(f);
  }

  /** Characters up to the end of the file. */
  method ReadAll(f: CipherFile) returns (back: seq<Byte>)
    requires f.Reading()
    modifies f, f.desBuf, f.ivec
    ensures f.Reading() && back == old(f.Unread()) && f.Unread() == []
  {
    back := [];
    ghost var all := f.Unread();
    var r := f.GetDesChar();
    while r != -1
      invariant f.Reading() && -1 <= r < 256
      invariant r == -1 ==> back == all && f.Unread() == []
      invariant r != -1 ==> back + [r as Byte] + f.Unread() == all
      decreases if r == -1 then 0 else |f.Unread()| + 1
    {
      back := back + [r as Byte];
      r := f.GetDesChar();
    }
  }
}
