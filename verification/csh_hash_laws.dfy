/** What csh's hash of a name is, and which command a search finds. */
module CshHashLaws {
  import opened CshHash

  /** A further character multiplies the hash and is added to it, modulo the size of the table. */
  lemma {:induction false} HashMore(name: Word, i: nat, h: int, c: char)
    requires i <= |name|
    ensures HashFrom(name + [c], i, h) == (HashFrom(name, i, h) * 243 + c as int) % 8192
    decreases |name| - i
  {
    var more := name + [c];
    if i < |name| {
      assert more[i] == name[i];
      HashMore(name, i + 1, Hash(h, name[i] as int), c);
    } else {
      assert more[i] == c && HashFrom(more, i + 1, Hash(h, c as int)) == Hash(h, c as int);
    }
  }

  lemma HashOfName(name: Word, c: char)
    ensures HashName("") == 0 && HashName(name + [c]) == (HashName(name) * 243 + c as int) % 8192
  {
    HashMore(name, 0, 0, c);
  }

  /** The command can be executed from component i of the path, where `.` is no directory. */
  predicate RunsAt(path: seq<Word>, i: nat, name: Word, disk: Disk)
    requires i < |path|
  {
    disk.runs(if path[i] == "." then "" else path[i], name)
  }

  /** The filter lets component i be tried: it is relative, or the bit for the name there is set. */
  ghost predicate Tried(bits: set<nat>, path: seq<Word>, i: nat, name: Word)
    requires i < |path|
  {
    (path[i] != "" && path[i][0] == '/') ==> (HashName(name) * 243 + i) % 8192 in bits
  }

  /** A search finds the first component the command runs from, and nothing exactly if there is none. */
  lemma {:induction false} SearchFirst(path: seq<Word>, from: nat, name: Word, disk: Disk)
    requires from <= |path|
    ensures var r := Search(path, from, name, disk);
      if r == 0 then forall i :: from <= i < |path| ==> !RunsAt(path, i, name, disk)
      else
        from < r <= |path| && RunsAt(path, r - 1, name, disk) &&
        forall i :: from <= i < r - 1 ==> !RunsAt(path, i, name, disk)
    decreases |path| - from
  {
    if from < |path| && !disk.runs(Directory(path[from]), name) {
      SearchFirst(path, from + 1, name, disk);
    }
  }

  /** With the filter, the first of those it lets be tried. */
  lemma {:induction false} FilteredFirst(bits: set<nat>, path: seq<Word>, from: nat, name: Word, disk: Disk)
    requires from <= |path|
    ensures var r := Filtered(bits, path, from, name, disk);
      if r == 0 then forall i :: from <= i < |path| ==> !(Tried(bits, path, i, name) && RunsAt(path, i, name, disk))
      else
        from < r <= |path| && Tried(bits, path, r - 1, name) && RunsAt(path, r - 1, name, disk) &&
        forall i :: from <= i < r - 1 ==> !(Tried(bits, path, i, name) && RunsAt(path, i, name, disk))
    decreases |path| - from
  {
    if from < |path| && !(Passes(bits, path[from], from, name) && disk.runs(Directory(path[from]), name)) {
      FilteredFirst(bits, path, from + 1, name, disk);
    }
  }

  /** Component i is absolute and lists the name, which is neither `.` nor `..`. */
  ghost predicate Enters(path: seq<Word>, i: nat, name: Word, disk: Disk)
    requires i < |path|
  {
    path[i] != "" && path[i][0] == '/' && name in disk.listing(path[i]) && name != "." && name != ".."
  }

  /** The name has a bit where it is listed. */
  lemma BitOfName(bits: set<nat>, path: seq<Word>, disk: Disk, i: nat, name: Word)
    requires Covers(bits, path, disk) && i < |path| && Enters(path, i, name, disk)
    ensures (HashName(name) * 243 + i) % 8192 in bits
  {
    assert Absolute(path[i]) && !DotName(name) && Hash(HashName(name), i) == (HashName(name) * 243 + i) % 8192;
  }

  /** A bit set by hashing a path is that of a name, at the index it is listed at. */
  lemma NameOfBit(path: seq<Word>, disk: Disk, b: nat) returns (i: nat, name: Word)
    requires Caused(b, path, disk)
    ensures i < |path| && Enters(path, i, name, disk) && (HashName(name) * 243 + i) % 8192 == b
  {
    var j: int, w :| 0 <= j < |path| && Absolute(path[j]) && w in disk.listing(path[j]) && !DotName(w) &&
      Hash(HashName(w), j) == b;
    i, name := j, w;
  }
}
