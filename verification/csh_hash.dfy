/** csh's command hash: a filter in front of the search for a command along the path. */
module CshHash {

  type Word = string

  const HSHSIZ := 8192
  const HSHMUL := 243

  /** `hash(a, b)` */
  function Hash(a: int, b: int): (h: nat)
    ensures h < HSHSIZ
  {
    (a * HSHMUL + b) % HSHSIZ
  }

  /** `hashname` from the i-th character on. */
  function HashFrom(name: Word, i: nat, h: int): int
    requires i <= |name|
    decreases |name| - i
  {
    if i == |name| then h else HashFrom(name, i + 1, Hash(h, name[i] as int))
  }

  function HashName(name: Word): int { HashFrom(name, 0, 0) }

  /** What the search depends on: the names a directory lists, or none if it cannot be opened,
      and whether a name can be executed from a directory; "" stands for no directory. */
  datatype Disk = Disk(listing: Word -> seq<Word>, runs: (Word, Word) -> bool)

  predicate Absolute(dir: Word) { dir != "" && dir[0] == '/' }

  /** A name `dohash` does not enter. */
  predicate DotName(name: Word) { name == "." || name == ".." }

  /** `bit`: one bit of a byte. */
  function Mask(k: nat): bv8
    requires k < 8
  {
    if k == 0 then 1 else if k == 1 then 2 else if k == 2 then 4 else if k == 3 then 8
    else if k == 4 then 16 else if k == 5 then 32 else if k == 6 then 64 else 128
  }

  predicate HasBit(x: bv8, k: nat)
    requires k < 8
  {
    x & Mask(k) != 0
  }

  /** Setting a bit sets no other. */
  lemma BitSet(x: bv8, j: nat, k: nat)
    requires j < 8 && k < 8
    ensures HasBit(x | Mask(j), k) == (j == k || HasBit(x, k))
  {
    OneBit(j, k);
    assert (x | Mask(j)) & Mask(k) == (x & Mask(k)) | (Mask(j) & Mask(k));
  }

  lemma OneBit(j: nat, k: nat)
    requires j < 8 && k < 8
    ensures Mask(j) & Mask(k) == if j == k then Mask(k) else 0
    ensures Mask(k) != 0
  {
  }

  /** A component may hold the command as far as the filter knows. */
  ghost predicate Passes(bits: set<nat>, dir: Word, i: nat, name: Word) {
    Absolute(dir) ==> Hash(HashName(name), i) in bits
  }

  /** The component of the path, or "" for the current directory. */
  function Directory(dir: Word): Word { if dir == "." then "" else dir }

  /** The search from component i on, without the hash: 1 more than the index, or 0. */
  function Search(path: seq<Word>, i: nat, name: Word, disk: Disk): nat
    requires i <= |path|
    decreases |path| - i
  {
    if i == |path| then 0
    else if disk.runs(Directory(path[i]), name) then i + 1
    else Search(path, i + 1, name, disk)
  }

  /** The search with it. */
  ghost function Filtered(bits: set<nat>, path: seq<Word>, i: nat, name: Word, disk: Disk): nat
    requires i <= |path|
    decreases |path| - i
  {
    if i == |path| then 0
    else if Passes(bits, path[i], i, name) && disk.runs(Directory(path[i]), name) then i + 1
    else Filtered(bits, path, i + 1, name, disk)
  }

  /** The bits `dohash` sets: one for every name listed in every absolute component. */
  ghost predicate Covers(bits: set<nat>, path: seq<Word>, disk: Disk) {
    forall i, name :: 0 <= i < |path| && Absolute(path[i]) && name in disk.listing(path[i]) && !DotName(name) ==>
      Hash(HashName(name), i) in bits
  }

  /** Only what is listed can be executed. */
  ghost predicate ListedOnly(path: seq<Word>, disk: Disk) {
    forall i, name :: 0 <= i < |path| && Absolute(path[i]) && disk.runs(path[i], name) ==>
      name in disk.listing(path[i]) && !DotName(name)
  }

  /** The filter changes the outcome of a search exactly if it stops the command that would be
      found from being tried. */
  lemma {:induction false} SameIff(bits: set<nat>, path: seq<Word>, i: nat, name: Word, disk: Disk)
    requires i <= |path|
    ensures var r := Search(path, i, name, disk);
      (r != 0 ==> i < r <= |path|) &&
      (Filtered(bits, path, i, name, disk) == r <==> r == 0 || Passes(bits, path[r - 1], r - 1, name))
    decreases |path| - i
  {
    if i < |path| {
      SameIff(bits, path, i + 1, name, disk);
      FilteredLater(bits, path, i + 1, name, disk);
    }
  }

  lemma {:induction false} FilteredLater(bits: set<nat>, path: seq<Word>, i: nat, name: Word, disk: Disk)
    requires i <= |path|
    ensures var r := Filtered(bits, path, i, name, disk); r == 0 || i < r
    decreases |path| - i
  {
    if i < |path| {
      FilteredLater(bits, path, i + 1, name, disk);
    }
  }

  /** With the bits of a path whose directories list all that can be executed in them, every
      search has the outcome it has without the hash. */
  lemma SameSearch(bits: set<nat>, path: seq<Word>, name: Word, disk: Disk)
    requires Covers(bits, path, disk) && ListedOnly(path, disk)
    ensures Filtered(bits, path, 0, name, disk) == Search(path, 0, name, disk)
  {
    SameIff(bits, path, 0, name, disk);
    var r := Search(path, 0, name, disk);
    if r != 0 {
      Found(path, 0, name, disk);
    }
  }

  lemma {:induction false} Found(path: seq<Word>, i: nat, name: Word, disk: Disk)
    requires i <= |path| && Search(path, i, name, disk) != 0
    ensures var r := Search(path, i, name, disk); i < r <= |path| && disk.runs(Directory(path[r - 1]), name)
    decreases |path| - i
  {
    if i < |path| && !disk.runs(Directory(path[i]), name) {
      Found(path, i + 1, name, disk);
    }
  }

  class CommandHash {
    /** `xhash` and `havhash` */
    const xhash: array<bv8>
    var havhash: bool

    ghost predicate Valid()
      reads this
    {
      xhash.Length == HSHSIZ / 8
    }

    /** The bits that are set. */
    ghost function Bits(): set<nat>
      reads this, xhash
      requires Valid()
    {
      set b: nat | b < HSHSIZ && HasBit(xhash[b / 8], b % 8)
    }

    constructor ()
      ensures Valid() && !havhash && fresh(xhash)
    {
      xhash := new bv8[HSHSIZ / 8];
      havhash := false;
    }

    /** `hashname(name)` */
    static method HashOf(name: Word) returns (h: int)
      ensures h == HashName(name)
    {
      h := 0;
      for i := 0 to |name|
        invariant HashFrom(name, i, h) == HashName(name)
      {
        h := Hash(h, name[i] as int);
      }
    }

    /** `bis(xhash, b)` */
    method SetBit(b: nat)
      requires Valid() && b < HSHSIZ
      modifies xhash
      ensures Bits() == old(Bits()) + {b}
    {
      ghost var before := xhash[..];
      xhash[b / 8] := xhash[b / 8] | Mask(b % 8);
      forall c: nat | c < HSHSIZ ensures HasBit(xhash[c / 8], c % 8) == (c == b || HasBit(before[c / 8], c % 8)) {
        BitSet(before[b / 8], b % 8, c % 8);
      }
    }

    /** `bit(xhash, b)` */
    method TestBit(b: nat) returns (r: bool)
      requires Valid() && b < HSHSIZ
      ensures r == (b in Bits())
    {
      return xhash[b / 8] & Mask(b % 8) != 0;
    }

    method Clear()
      requires Valid()
      modifies xhash
      ensures Bits() == {}
    {
      for cnt := 0 to xhash.Length
        invariant forall j :: 0 <= j < cnt ==> xhash[j] == 0
      {
        xhash[cnt] := 0;
      }
      forall b: nat | b < HSHSIZ ensures !HasBit(xhash[b / 8], b % 8) {
        assert xhash[b / 8] == 0;
      }
    }

    /** `dohash` */
    method DoHash(path: seq<Word>, disk: Disk)
      requires Valid()
      modifies this`havhash, xhash
      ensures Valid() && havhash && Covers(Bits(), path, disk)
      ensures forall b :: b in Bits() ==> Caused(b, path, disk)
    {
      havhash := true;
      Clear();
      for i := 0 to |path|
        modifies xhash
        invariant Valid() && Covers(Bits(), path[..i], disk)
        invariant forall b :: b in Bits() ==> Caused(b, path[..i], disk)
      {
        if Absolute(path[i]) {
          EnterNames(path, i, disk);
        }
        Extended(Bits(), path, i, disk);
      }
      assert path[..|path|] == path;
    }

    /** The names of one directory. */
    method EnterNames(path: seq<Word>, i: nat, disk: Disk)
      requires Valid() && i < |path| && Absolute(path[i])
      modifies xhash
      ensures old(Bits()) <= Bits()
      ensures forall name :: name in disk.listing(path[i]) && !DotName(name) ==> Hash(HashName(name), i) in Bits()
      ensures forall b :: b in Bits() && b !in old(Bits()) ==> Caused(b, path[..i + 1], disk)
    {
      var names := disk.listing(path[i]);
      for k := 0 to |names|
        invariant old(Bits()) <= Bits()
        invariant forall j :: 0 <= j < k && !DotName(names[j]) ==> Hash(HashName(names[j]), i) in Bits()
        invariant forall b :: b in Bits() && b !in old(Bits()) ==> Caused(b, path[..i + 1], disk)
      {
        if !DotName(names[k]) {
          var h := HashOf(names[k]);
          Causes(path, i, names[k], disk);
          SetBit(Hash(h, i));
        }
      }
    }

    /** `iscommand(name)` along a path */
    method IsCommand(name: Word, path: seq<Word>, disk: Disk) returns (r: nat)
      requires Valid()
      ensures '/' in name || path == [] ==> r == if disk.runs("", name) then 1 else 0
      ensures !('/' in name || path == []) ==>
        r == if havhash then Filtered(Bits(), path, 0, name, disk) else Search(path, 0, name, disk)
    {
      var slash := '/' in name;
      if slash || path == [] {
        return if disk.runs("", name) then 1 else 0;
      }
      var hashval := 0;
      if havhash {
        hashval := HashOf(name);
      }
      var i := 0;
      while i < |path|
        invariant i <= |path|
        invariant Search(path, 0, name, disk) == Search(path, i, name, disk) || havhash
        invariant Filtered(Bits(), path, 0, name, disk) == Filtered(Bits(), path, i, name, disk) || !havhash
      {
        var may := true;
        if Absolute(path[i]) && havhash {
          may := TestBit(Hash(hashval, i));
        }
        if may && disk.runs(Directory(path[i]), name) {
          return i + 1;
        }
        i := i + 1;
      }
      return 0;
    }
  }

  /** The bit of a name listed in a component. */
  ghost predicate Caused(b: nat, path: seq<Word>, disk: Disk) {
    exists i, name ::
      0 <= i < |path| && Absolute(path[i]) && name in disk.listing(path[i]) && !DotName(name) && Hash(HashName(name), i) == b
  }

  lemma Causes(path: seq<Word>, i: nat, name: Word, disk: Disk)
    requires i < |path| && Absolute(path[i]) && name in disk.listing(path[i]) && !DotName(name)
    ensures Caused(Hash(HashName(name), i), path[..i + 1], disk)
  {
    assert path[..i + 1][i] == path[i];
  }

  lemma Extended(bits: set<nat>, path: seq<Word>, i: nat, disk: Disk)
    requires i < |path| && Covers(bits, path[..i], disk)
    requires Absolute(path[i]) ==>
      forall name :: name in disk.listing(path[i]) && !DotName(name) ==> Hash(HashName(name), i) in bits
    ensures Covers(bits, path[..i + 1], disk)
    ensures forall b :: Caused(b, path[..i], disk) ==> Caused(b, path[..i + 1], disk)
  {
    var q := path[..i + 1];
    assert forall j :: 0 <= j < i ==> q[j] == path[..i][j];
    forall b | Caused(b, path[..i], disk) ensures Caused(b, q, disk) {
      var j, name :| 0 <= j < i && Absolute(path[..i][j]) && name in disk.listing(path[..i][j]) && !DotName(name) &&
        Hash(HashName(name), j) == b;
      assert q[j] == path[..i][j];
    }
  }

  /** Hashing changes what is found by no search, as long as the directories have not changed and
      list all that can be executed in them. */
  method HashedSearch(h: CommandHash, name: Word, path: seq<Word>, disk: Disk) returns (off: nat, on: nat)
    requires h.Valid() && ListedOnly(path, disk)
    modifies h, h.xhash
    ensures on == off
  {
    h.havhash := false;
    off := h.IsCommand(name, path, disk);
    h.DoHash(path, disk);
    SameSearch(h.Bits(), path, name, disk);
    on := h.IsCommand(name, path, disk);
  }
}
