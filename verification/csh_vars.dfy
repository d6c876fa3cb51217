/** Shell variables and aliases: a header node with a tree of variables on its
    left link, operated on as csh does and seen from outside as a finite map. */
module CshVars {
  import opened CshNames
  import opened CshVarTree
  import opened CshVarStore

  /** `trim` clears the quote bit of every character; one that becomes NUL ends its word. */
  function TrimWord(w: seq<Char>): seq<Char> {
    if w == [] || w[0] as int % 0x8000 == 0 then []
    else [(w[0] as int % 0x8000) as Char] + TrimWord(w[1..])
  }

  function Trim(vec: Value): Value {
    seq(|vec|, i requires 0 <= i < |vec| => TrimWord(vec[i]))
  }

  /** r is w without its quote bits, up to the first character of which nothing is left. */
  predicate Unquoted(w: seq<Char>, r: seq<Char>) {
    |r| <= |w| && (forall k :: 0 <= k < |r| ==> r[k] as int == w[k] as int % 0x8000 != 0) &&
    (|r| == |w| || w[|r|] as int % 0x8000 == 0)
  }

  /** No character of the words is quoted or NUL: quoted ones are negative. */
  predicate Plain(vec: Value) { forall i, k :: 0 <= i < |vec| && 0 <= k < |vec[i]| ==> vec[i][k] as int > 0 }

  /** What the characters of a trimmed word are, and where it ends. */
  lemma {:induction false} TrimmedWord(w: seq<Char>)
    ensures Unquoted(w, TrimWord(w))
  {
    if w != [] {
      TrimmedWord(w[1..]);
    }
  }

  lemma TrimmedWords(vec: Value)
    ensures |Trim(vec)| == |vec| && forall i :: 0 <= i < |vec| ==> Unquoted(vec[i], Trim(vec)[i])
    ensures Plain(vec) ==> Trim(vec) == vec
  {
    forall i | 0 <= i < |vec| ensures Unquoted(vec[i], Trim(vec)[i]) && (Plain(vec) ==> Trim(vec)[i] == vec[i]) {
      TrimmedWord(vec[i]);
      if Plain(vec) {
        PlainWord(vec[i], Trim(vec)[i]);
      }
    }
  }

  lemma PlainWord(w: seq<Char>, r: seq<Char>)
    requires Unquoted(w, r) && forall k :: 0 <= k < |w| ==> w[k] as int > 0
    ensures r == w
  {
  }

  /** The variables of m whose names match no pattern of pats. */
  function Without(m: map<Name, Value>, gmatch: (Name, Name) -> bool, pats: seq<Name>): map<Name, Value> {
    map n | n in m && (forall i :: 0 <= i < |pats| ==> !gmatch(n, pats[i])) :: m[n]
  }

  /** The first node, in name order, whose name matches the pattern. */
  function FirstMatch(s: seq<Item>, gmatch: (Name, Name) -> bool, pat: Name): VarEnt? {
    if s == [] then null
    else if gmatch(s[0].name, pat) then s[0].ent
    else FirstMatch(s[1..], gmatch, pat)
  }

  lemma {:induction false} FirstMatchAppend(a: seq<Item>, b: seq<Item>, gmatch: (Name, Name) -> bool, pat: Name)
    ensures FirstMatch(a + b, gmatch, pat) ==
      var r := FirstMatch(a, gmatch, pat); if r != null then r else FirstMatch(b, gmatch, pat)
  {
    if a == [] {
      assert a + b == b;
    } else {
      assert (a + b)[0] == a[0] && (a + b)[1..] == a[1..] + b;
      FirstMatchAppend(a[1..], b, gmatch, pat);
    }
  }

  /** The match found is the first one. */
  lemma {:induction false} FirstMatchIs(s: seq<Item>, gmatch: (Name, Name) -> bool, pat: Name) returns (k: nat)
    ensures k <= |s| && forall i :: 0 <= i < k ==> !gmatch(s[i].name, pat)
    ensures if k == |s| then FirstMatch(s, gmatch, pat) == null
            else FirstMatch(s, gmatch, pat) == s[k].ent && gmatch(s[k].name, pat)
  {
    if s == [] || gmatch(s[0].name, pat) {
      k := 0;
    } else {
      k := FirstMatchIs(s[1..], gmatch, pat);
      k := k + 1;
      forall i | 0 <= i < k ensures !gmatch(s[i].name, pat) {
        assert i > 0 ==> s[i] == s[1..][i - 1];
      }
    }
  }

  lemma {:induction false} FirstMatchFound(s: seq<Item>, gmatch: (Name, Name) -> bool, pat: Name)
    ensures var r := FirstMatch(s, gmatch, pat);
      if r == null then forall i :: 0 <= i < |s| ==> !gmatch(s[i].name, pat)
      else exists i :: 0 <= i < |s| && s[i].ent == r && gmatch(s[i].name, pat)
  {
    if s != [] {
      FirstMatchFound(s[1..], gmatch, pat);
      var r := FirstMatch(s, gmatch, pat);
      if gmatch(s[0].name, pat) {
        assert s[0].ent == r;
      } else if r != null {
        var i :| 0 <= i < |s[1..]| && s[1..][i].ent == r && gmatch(s[1..][i].name, pat);
        assert s[i + 1].ent == r;
      }
    }
  }

  /** `madrof(pat, vp)` on the subtree below vp. */
  method Madrof(gmatch: (Name, Name) -> bool, pat: Name, vp0: VarEnt?, ghost t0: Tree, ghost par0: VarEnt)
    returns (r: VarEnt?)
    requires vp0 == RootOf(t0) && Rep(t0, par0)
    ensures r == FirstMatch(InOrder(t0), gmatch, pat)
    decreases t0
  {
    var vp := vp0;
    ghost var t: Tree, par: VarEnt := t0, par0;
    while vp != null
      invariant vp == RootOf(t) && Rep(t, par)
      invariant FirstMatch(InOrder(t0), gmatch, pat) == FirstMatch(InOrder(t), gmatch, pat)
      invariant t == t0 || t < t0
      decreases t
    {
      FirstMatchAppend(InOrder(t.l) + [t.item], InOrder(t.r), gmatch, pat);
      FirstMatchAppend(InOrder(t.l), [t.item], gmatch, pat);
      assert Rep(t.l, vp) && Rep(t.r, vp) && allocated(Nodes(t));
      if vp.left != null {
        var vp1 := Madrof(gmatch, pat, vp.left, t.l, vp);
        if vp1 != null {
          return vp1;
        }
      }
      if gmatch(vp.name, pat) {
        return vp;
      }
      par := vp;
      vp := vp.right;
      t := t.r;
    }
    r := null;
  }

  /** What the comparison at a node tells the search loop of `setq` and `adrof1`. */
  lemma SearchStep(c: Context, t: Tree, head: VarEnt, name: Name)
    requires t.Node? && At(c, t, head) && Sorted(InOrder(Plug(c, t))) && Brackets(c, name)
    ensures t.item.ent.name == t.item.name && t.item.ent.vec == t.item.vec
    ensures t.item.ent.left == RootOf(t.l) && t.item.ent.right == RootOf(t.r)
    ensures var k, m := t.item.name, Contents(InOrder(Plug(c, t)));
      k in m && m[k] == t.item.vec && (Compare(name, k) == 0 <==> name == k)
    ensures Before(name, t.item.name) ==> var c' := InLeft(c, t.item, t.bal, t.r);
      At(c', t.l, head) && Plug(c', t.l) == Plug(c, t) && Brackets(c', name)
    ensures Compare(name, t.item.name) > 0 ==> var c' := InRight(t.l, t.item, t.bal, c);
      At(c', t.r, head) && Plug(c', t.r) == Plug(c, t) && Brackets(c', name)
  {
    PlugInOrder(c, t);
    StoredAt(c, t);
    CompareTotalOrder(name, t.item.name);
    Descend(c, t, name);
    AtUp(InLeft(c, t.item, t.bal, t.r), t.l, head);
    AtUp(InRight(t.l, t.item, t.bal, c), t.r, head);
  }

  lemma SearchEnd(c: Context, name: Name)
    requires Brackets(c, name)
    ensures name !in Contents(InOrder(Plug(c, Leaf)))
  {
    PlugInOrder(c, Leaf);
    BracketsAbsent(c, name);
    assert Pre(c) + [] + Post(c) == Pre(c) + Post(c);
  }

  lemma SplitAround(c: Context, t: Tree)
    requires t.Node?
    ensures InOrder(Plug(c, t)) == (Pre(c) + InOrder(t.l)) + [t.item] + (InOrder(t.r) + Post(c))
  {
    PlugInOrder(c, t);
    Recentre(Pre(c), InOrder(t.l), [t.item], InOrder(t.r), Post(c));
  }

  lemma Recentre<T>(a: seq<T>, l: seq<T>, x: seq<T>, r: seq<T>, b: seq<T>)
    ensures a + (l + x + r) + b == (a + l) + x + (r + b)
  {
  }

  lemma ReplacedVec(c: Context, t: Tree, vec: Value)
    requires t.Node? && Balanced(Plug(c, t)) && Sorted(InOrder(Plug(c, t)))
    ensures var u := Plug(c, t.(item := t.item.(vec := vec)));
      Balanced(u) && Sorted(InOrder(u)) && Nodes(u) == Nodes(Plug(c, t)) &&
      Contents(InOrder(u)) == Contents(InOrder(Plug(c, t)))[t.item.name := vec]
  {
    var t' := t.(item := t.item.(vec := vec));
    assert Balanced(Plug(c, t')) by {
      PlugBalanced(c, t);
      PlugBalanced(c, t');
    }
    PlugNodes(c, t);
    PlugNodes(c, t');
    SplitAround(c, t);
    SplitAround(c, t');
    ReplaceItem(Pre(c) + InOrder(t.l), t.item, t'.item, InOrder(t.r) + Post(c));
  }

  /** The nodes' name fields are the names of the items they hold. */
  lemma {:induction false} RepNames(t: Tree, par: VarEnt)
    requires Rep(t, par)
    ensures forall i :: 0 <= i < |InOrder(t)| ==> InOrder(t)[i].ent.name == InOrder(t)[i].name
    ensures forall i :: 0 <= i < |InOrder(t)| ==> InOrder(t)[i].ent.vec == InOrder(t)[i].vec
  {
    if t.Node? {
      RepNames(t.l, t.item.ent);
      RepNames(t.r, t.item.ent);
      var a, b := InOrder(t.l), InOrder(t.r);
      var s := InOrder(t);
      assert forall i :: 0 <= i < |a| ==> s[i] == a[i];
      assert s[|a|] == t.item;
      assert forall i :: |a| < i < |s| ==> s[i] == b[i - |a| - 1];
    }
  }

  /** A new node in the empty hole the search ended in: one level higher there, in
      order, and the map gains the name. */
  lemma InsertAt(c: Context, it: Item)
    requires Balanced(Plug(c, Leaf)) && Sorted(InOrder(Plug(c, Leaf))) && Brackets(c, it.name)
    ensures OffByOne(c, Node(Leaf, it, 0, Leaf), 0)
    ensures Sorted(Pre(c) + [it] + Post(c))
    ensures Contents(Pre(c) + [it] + Post(c)) == Contents(InOrder(Plug(c, Leaf)))[it.name := it.vec]
  {
    PlugBalanced(c, Leaf);
    PlugInOrder(c, Leaf);
    assert Pre(c) + [] + Post(c) == Pre(c) + Post(c);
    SortedInsert(Pre(c), it, Post(c));
    SplitApart(Pre(c), it, Post(c));
  }

  lemma LeafItems(it: Item)
    ensures var leaf := Node(Leaf, it, 0, Leaf);
      InOrder(leaf) == [it] && Nodes(leaf) == {it.ent} && Distinct(leaf) && Balanced(leaf) && Height(leaf) == 1
  {
    assert [] + [it] + [] == [it];
    assert {} + {it.ent} + {} == {it.ent};
  }

  class VarTable {
    const head: VarEnt
    ghost var tree: Tree

    ghost predicate Valid()
      reads this, head, Nodes(tree)
    {
      At(Top, tree, head) && Balanced(tree) && Sorted(InOrder(tree))
    }

    /** What the table stores: every set variable with its words. */
    ghost function Model(): map<Name, Value>
      reads this
    {
      Contents(InOrder(tree))
    }

    constructor ()
      ensures Valid() && Model() == map[] && fresh(head) && Nodes(tree) == {}
    {
      head := new VarEnt([], null);
      tree := Leaf;
    }

    /** `adrof1(name, head)`. */
    method Adrof1(name: Name) returns (v: VarEnt?)
      requires Valid()
      ensures v == null <==> name !in Model()
      ensures v != null ==> v in Nodes(tree) && v.name == name && v.vec == Model()[name]
    {
      v := head.left;
      ghost var c, t := Top, tree;
      while v != null
        invariant v == RootOf(t) && At(c, t, head) && Plug(c, t) == tree && Brackets(c, name)
        invariant Nodes(t) <= Nodes(tree)
        decreases t
      {
        assert allocated(Nodes(t)) && allocated(ContextNodes(c));
        var cmp := First(name) - First(v.name);
        if cmp == 0 {
          cmp := Strcmp(name, v.name);
        }
        SearchStep(c, t, head, name);
        if cmp == 0 {
          return;
        }
        if cmp < 0 {
          v := v.left;
          c, t := InLeft(c, t.item, t.bal, t.r), t.l;
        } else {
          v := v.right;
          c, t := InRight(t.l, t.item, t.bal, c), t.r;
        }
      }
      SearchEnd(c, name);
    }

    /** `value1`: the first word of a variable, the null string when it has none. */
    method Value1(name: Name) returns (w: seq<Char>)
      requires Valid()
      ensures w == if name in Model() && Model()[name] != [] then Model()[name][0] else []
    {
      var vp := Adrof1(name);
      w := if vp == null || vp.vec == [] then [] else vp.vec[0];
    }

    /** A node of a tree that is about to become the table's gets a new value. */
    method SetVec(e: VarEnt, vec: Value, ghost u: Tree)
      requires At(Top, u, head) && Balanced(u) && Sorted(InOrder(u)) && e in Nodes(u)
      modifies this`tree, e`name, e`vec
      ensures Valid() && Nodes(tree) == Nodes(u)
      ensures Model() == Contents(InOrder(u))[e.name := vec] && e.name == old(e.name)
    {
      ghost var (c, t) := Locate(Top, u, e);
      AtPlug(c, t, head);
      SetItem(e, e.name, vec, c, t);
      ghost var t' := t.(item := t.item.(vec := vec));
      tree := Plug(c, t');
      AtPlug(c, t', head);
      ReplacedVec(c, t, vec);
    }

    method SetItem(e: VarEnt, name: Name, vec: Value, ghost c: Context, ghost t: Tree)
      requires t.Node? && e == t.item.ent && At(c, t, head)
      modifies e`name, e`vec
      ensures At(c, t.(item := Item(e, name, vec)), head)
      ensures e.name == name
    {
      HolderApart(c, t, head);
      assert Rep(t.l, e) && Rep(t.r, e) && RepAround(c, head, e) && e !in ContextNodes(c);
      e.name := name;
      e.vec := vec;
      assert Rep(t.l, e) && Rep(t.r, e) && RepAround(c, head, e);
    }

    /** `setq(name, vec, head)`. */
    method Setq(name: Name, vec: Value)
      requires Valid()
      modifies this`tree, head, Nodes(tree)
      ensures Valid() && Model() == old(Model())[name := Trim(vec)]
      ensures |Model()[name]| == |vec| && forall i :: 0 <= i < |vec| ==> Unquoted(vec[i], Model()[name][i])
      ensures Plain(vec) ==> Model()[name] == vec
      ensures forall e :: e in Nodes(tree) ==> e in old(Nodes(tree)) || fresh(e)
    {
      var p, f := head, 0;
      var v := head.left;
      ghost var c, t := Top, tree;
      while v != null
        invariant v == RootOf(t) && At(c, t, head) && Plug(c, t) == tree && Brackets(c, name)
        invariant p == Holder(c, head) && f == Side(c) && Nodes(t) <= Nodes(tree)
        decreases t
        modifies {}
      {
        assert allocated(Nodes(t)) && allocated(ContextNodes(c));
        f := First(name) - First(v.name);
        if f == 0 {
          f := Strcmp(name, v.name);
        }
        SearchStep(c, t, head, name);
        if f == 0 {
          break;
        }
        p := v;
        f := if f > 0 then 1 else 0;
        if f == 0 {
          v := v.left;
          c, t := InLeft(c, t.item, t.bal, t.r), t.l;
        } else {
          v := v.right;
          c, t := InRight(t.l, t.item, t.bal, c), t.r;
        }
      }
      AtPlug(c, t, head);
      TrimmedWords(vec);
      if v != null {
        SetVec(v, Trim(vec), tree);
      } else {
        AddNode(name, vec, p, f, c);
      }
    }

    /** The part of `setq` after its search found the name absent at link f of p. */
    method AddNode(name: Name, vec: Value, p: VarEnt, f: int, ghost c: Context)
      requires At(c, Leaf, head) && Plug(c, Leaf) == tree && Brackets(c, name)
      requires Balanced(tree) && Sorted(InOrder(tree))
      requires p == Holder(c, head) && f == Side(c)
      modifies this`tree, head, Nodes(tree)
      ensures Valid() && Model() == old(Model())[name := Trim(vec)]
      ensures |Model()[name]| == |vec| && forall i :: 0 <= i < |vec| ==> Unquoted(vec[i], Model()[name][i])
      ensures Plain(vec) ==> Model()[name] == vec
      ensures forall e :: e in Nodes(tree) ==> e in old(Nodes(tree)) || fresh(e)
    {
      PlugNodes(c, Leaf);
      assert Nodes(tree) == ContextNodes(c);
      var n := NewNode(name, p, c);
      ghost var u := HangNode(n, p, f, c);
      SetVec(n, Trim(vec), u);
      SetTwice(old(Model()), name, [], Trim(vec));
      TrimmedWords(vec);
    }

    method NewNode(name: Name, p: VarEnt, ghost c: Context) returns (n: VarEnt)
      requires RepAround(c, head, null)
      ensures fresh(n) && n.name == name && n.parent == p && n.left == n.right == null && n.bal == 0 && n.vec == []
      ensures RepAround(c, head, null) && n !in ContextNodes(c)
    {
      assert allocated(ContextNodes(c));
      n := new VarEnt(name, p);
    }

    /** The new node goes into its link, and the path above it is rebalanced. */
    method HangNode(n: VarEnt, p: VarEnt, f: int, ghost c: Context) returns (ghost u: Tree)
      requires RepAround(c, head, null) && DistinctAround(c, head) && Brackets(c, n.name)
      requires Balanced(Plug(c, Leaf)) && Sorted(InOrder(Plug(c, Leaf)))
      requires p == Holder(c, head) && f == Side(c)
      requires n !in ContextNodes(c) && n != head && n.parent == p && n.left == n.right == null
      requires n.bal == 0 && n.vec == []
      modifies head, ContextNodes(c), n
      ensures At(Top, u, head) && Balanced(u) && Sorted(InOrder(u)) && Nodes(u) == ContextNodes(c) + {n}
      ensures n.name == old(n.name)
      ensures Contents(InOrder(u)) == Contents(InOrder(Plug(c, Leaf)))[n.name := []]
    {
      ghost var it := Item(n, n.name, []);
      ghost var leaf := Node(Leaf, it, 0, Leaf);
      LeafItems(it);
      InsertAt(c, it);
      HolderWithin(c, Leaf, head);
      assert allocated(ContextNodes(c));
      Attach(head, p, f, n, c, null);
      u := Balance(head, p, f, 0, c, leaf);
      RepNames(u, head);
      assert InOrder(u)[|Pre(c)|] == it;
    }

    /** `unsetv1(p)`. */
    method Unsetv1(p: VarEnt)
      requires Valid() && p in Nodes(tree)
      modifies this`tree, head, Nodes(tree)
      ensures Valid() && Model() == old(Model()) - {old(p.name)}
      ensures old(p.name) in old(Model()) && Nodes(tree) < old(Nodes(tree))
    {
      ghost var (c, t) := Locate(Top, tree, p);
      AtPlug(c, t, head);
      PlugNodes(c, t);
      if p.right == null || p.left == null {
        tree := RemoveOuter(p, c, t);
      } else {
        tree := RemoveInner(p, c, t);
      }
    }

    /** p misses a child: the other one, if there is one, takes its place. */
    method RemoveOuter(p: VarEnt, ghost c: Context, ghost t: Tree) returns (ghost u: Tree)
      requires t.Node? && (t.l.Leaf? || t.r.Leaf?) && p == t.item.ent && At(c, t, head)
      requires Balanced(Plug(c, t)) && Sorted(InOrder(Plug(c, t)))
      modifies head, ContextNodes(c), Nodes(t)
      ensures At(Top, u, head) && Balanced(u) && Nodes(u) < Nodes(Plug(c, t)) && Sorted(InOrder(u))
      ensures Contents(InOrder(u)) == Contents(InOrder(Plug(c, t))) - {t.item.name}
      ensures t.item.name in Contents(InOrder(Plug(c, t)))
    {
      RemovedItem(c, t);
      var cld := if p.right == null then p.left else p.right;
      ghost var sub := if t.r.Leaf? then t.l else t.r;
      assert InOrder(t.l) + InOrder(t.r) == InOrder(sub);
      SpliceNodes(c, t, sub);
      u := SpliceOut(p, cld, c, t, sub);
    }

    /** p has two children: its predecessor's name and value move into it, and
        the predecessor, which has no right child, is spliced out instead. */
    method RemoveInner(p: VarEnt, ghost c: Context, ghost t: Tree) returns (ghost u: Tree)
      requires t.Node? && t.l.Node? && t.r.Node? && p == t.item.ent && At(c, t, head)
      requires Balanced(Plug(c, t)) && Sorted(InOrder(Plug(c, t)))
      modifies head, ContextNodes(c), Nodes(t)
      ensures At(Top, u, head) && Balanced(u) && Nodes(u) < Nodes(Plug(c, t)) && Sorted(InOrder(u))
      ensures Contents(InOrder(u)) == Contents(InOrder(Plug(c, t))) - {t.item.name}
      ensures t.item.name in Contents(InOrder(Plug(c, t)))
    {
      RemovedItem(c, t);
      var q, a, x := CopyPredecessor(p, c, t);
      u := RemovePredecessor(q, c, t, t.(item := Item(p, x.name, x.vec)), a, x);
    }

    /** The predecessor's name and value take the place of the node's own. */
    method CopyPredecessor(p: VarEnt, ghost c: Context, ghost t: Tree) returns (q: VarEnt, ghost a: seq<Item>, ghost x: Item)
      requires t.Node? && t.l.Node? && p == t.item.ent && At(c, t, head)
      modifies p`name, p`vec
      ensures At(c, t.(item := Item(p, x.name, x.vec)), head)
      ensures q == x.ent && q in Nodes(t.l) && q.right == null && InOrder(t.l) == a + [x]
    {
      assert Rep(t.l, p) && p !in Nodes(t.l);
      assert allocated(Nodes(t.l)) && allocated(Nodes(t.r)) && allocated(ContextNodes(c));
      q, a, x := Predecessor(p.left, t.l, p);
      SetItem(p, q.name, q.vec, c, t);
    }

    /** The rightmost node below q0: the last one in name order, with no right child. */
    method Predecessor(q0: VarEnt, ghost t: Tree, ghost par: VarEnt)
      returns (q: VarEnt, ghost a: seq<Item>, ghost x: Item)
      requires t.Node? && q0 == t.item.ent && Rep(t, par)
      ensures InOrder(t) == a + [x] && q == x.ent && q in Nodes(t)
      ensures q.right == null && q.name == x.name && q.vec == x.vec
    {
      q := q0;
      ghost var w: Tree, wp: VarEnt := t, par;
      a := [];
      while q.right != null
        invariant w.Node? && q == w.item.ent && Rep(w, wp) && Nodes(w) <= Nodes(t)
        invariant InOrder(t) == a + InOrder(w)
        decreases w
      {
        assert InOrder(w) == (InOrder(w.l) + [w.item]) + InOrder(w.r);
        a := a + (InOrder(w.l) + [w.item]);
        wp := q;
        q := q.right;
        w := w.r;
      }
      a, x := a + InOrder(w.l), w.item;
    }

    method RemovePredecessor(q: VarEnt, ghost c: Context, ghost t: Tree, ghost t': Tree, ghost a: seq<Item>, ghost x: Item)
      returns (ghost u: Tree)
      requires t.Node? && t' == t.(item := Item(t.item.ent, x.name, x.vec)) && At(c, t', head)
      requires q == x.ent && q in Nodes(t') && q.right == null && InOrder(t.l) == a + [x]
      requires Balanced(Plug(c, t)) && Sorted(InOrder(Plug(c, t)))
      modifies head, ContextNodes(c), Nodes(t)
      ensures At(Top, u, head) && Balanced(u) && Nodes(u) < Nodes(Plug(c, t)) && Sorted(InOrder(u))
      ensures Contents(InOrder(u)) == Contents(InOrder(Plug(c, t))) - {t.item.name}
    {
      ghost var v := Plug(c, t');
      PlugNodes(c, t);
      PlugNodes(c, t');
      ghost var (c2, t2) := Locate(Top, v, q);
      AtPlug(c, t', head);
      AtPlug(c2, t2, head);
      PlugNodes(c2, t2);
      ItemNodes(v);
      assert Balanced(v) by {
        PlugBalanced(c, t);
        PlugBalanced(c, t');
      }
      PredecessorRemoved(c, t, a, x, c2, t2);
      SpliceNodes(c2, t2, t2.l);
      u := SpliceOut(q, q.left, c2, t2, t2.l);
    }

    /** p, which has at most one child, gives its place to that child, and the path above is rebalanced. */
    method SpliceOut(p: VarEnt, cld: VarEnt?, ghost c: Context, ghost t: Tree, ghost sub: Tree)
      returns (ghost u: Tree)
      requires t.Node? && p == t.item.ent && At(c, t, head) && Balanced(Plug(c, t))
      requires (t.r.Leaf? && sub == t.l) || (t.l.Leaf? && sub == t.r)
      requires cld == RootOf(sub)
      modifies head, ContextNodes(c), Nodes(t)
      ensures At(Top, u, head) && Balanced(u) && Nodes(u) == ContextNodes(c) + Nodes(sub)
      ensures InOrder(u) == Pre(c) + InOrder(sub) + Post(c)
    {
      HolderWithin(c, t, head);
      SpliceShrinks(c, t, sub);
      var pp, f := MoveUp(p, cld, c, t, sub);
      u := Balance(head, pp, f, 1, c, sub);
    }

    /** The child, if there is one, takes p's place below p's parent. */
    method MoveUp(p: VarEnt, cld: VarEnt?, ghost c: Context, ghost t: Tree, ghost sub: Tree)
      returns (pp: VarEnt, f: int)
      requires t.Node? && p == t.item.ent && At(c, t, head)
      requires (t.r.Leaf? && sub == t.l) || (t.l.Leaf? && sub == t.r)
      requires cld == RootOf(sub)
      modifies head, ContextNodes(c), Nodes(t)
      ensures pp == Holder(c, head) && f == Side(c) && At(c, sub, head)
    {
      HolderWithin(c, t, head);
      LinkSide(c, t, head);
      SubtreeApart(p, c, t, sub);
      pp := p.parent;
      f := if pp.right == p then 1 else 0;
      Hang(p, cld, pp, f, c, sub);
    }

    lemma SubtreeApart(p: VarEnt, c: Context, t: Tree, sub: Tree)
      requires t.Node? && p == t.item.ent && At(c, t, head)
      requires (t.r.Leaf? && sub == t.l) || (t.l.Leaf? && sub == t.r)
      ensures Rep(sub, p) && RepAround(c, head, p) && Nodes(sub) <= Nodes(t)
      ensures Distinct(sub) && DistinctAround(c, head) && Nodes(sub) !! ContextNodes(c) && head !in Nodes(sub)
      ensures Holder(c, head) !in Nodes(sub)
    {
      HolderApart(c, t, head);
    }

    /** The writes of `MoveUp`. */
    method Hang(p: VarEnt, cld: VarEnt?, pp: VarEnt, f: int, ghost c: Context, ghost sub: Tree)
      requires Rep(sub, p) && RepAround(c, head, p) && cld == RootOf(sub)
      requires Distinct(sub) && DistinctAround(c, head) && Nodes(sub) !! ContextNodes(c) && head !in Nodes(sub)
      requires pp == Holder(c, head) && f == Side(c) && pp !in Nodes(sub) && pp in ContextNodes(c) + {head}
      modifies head, ContextNodes(c), Nodes(sub)
      ensures At(c, sub, head)
    {
      assert allocated(Nodes(sub)) && allocated(ContextNodes(c));
      Attach(head, pp, f, cld, c, p);
      assert Rep(sub, p) && allocated(ContextNodes(c));
      SetParent(cld, pp, sub, p);
    }

    /** `unset1`: every variable matching one of the patterns goes; patterns that
        find nothing are reported. */
    method Unset1(gmatch: (Name, Name) -> bool, pats: seq<Name>) returns (missing: seq<Name>)
      requires Valid()
      modifies this`tree, head, Nodes(tree)
      ensures Valid() && Nodes(tree) <= old(Nodes(tree))
      ensures Model() == Without(old(Model()), gmatch, pats)
      ensures missing == Missing(old(Model()), gmatch, pats)
    {
      missing := [];
      var k := 0;
      WithoutNone(Model(), gmatch);
      while k < |pats|
        invariant 0 <= k <= |pats| && Valid() && Nodes(tree) <= old(Nodes(tree))
        invariant Model() == Without(old(Model()), gmatch, pats[..k])
        invariant missing == Missing(old(Model()), gmatch, pats[..k])
      {
        var cnt := UnsetMatching(gmatch, pats[k]);
        if cnt == 0 {
          missing := missing + [pats[k]];
        }
        assert pats[..k + 1] == pats[..k] + [pats[k]];
        WithoutMore(old(Model()), gmatch, pats[..k], pats[k]);
        k := k + 1;
      }
      assert pats[..k] == pats;
    }

    lemma MatchStored(vp: VarEnt, gmatch: (Name, Name) -> bool, pat: Name)
      requires Valid() && vp == FirstMatch(InOrder(tree), gmatch, pat)
      ensures vp in Nodes(tree) && gmatch(vp.name, pat) && vp.name in Model()
    {
      MatchKeys(InOrder(tree), gmatch, pat);
      ItemNodes(tree);
      RepNames(tree, head);
    }

    /** As long as a variable matches the pattern, the first one that does is removed and counted. */
    method UnsetMatching(gmatch: (Name, Name) -> bool, pat: Name) returns (cnt: nat)
      requires Valid()
      modifies this`tree, head, Nodes(tree)
      ensures Valid() && Nodes(tree) <= old(Nodes(tree))
      ensures Model() == Without(old(Model()), gmatch, [pat])
      ensures cnt == 0 <==> Model() == old(Model())
    {
      cnt := 0;
      assert allocated(Nodes(tree));
      var vp := Madrof(gmatch, pat, head.left, tree, head);
      while vp != null
        invariant Valid() && Nodes(tree) <= old(Nodes(tree))
        invariant Without(Model(), gmatch, [pat]) == Without(old(Model()), gmatch, [pat])
        invariant vp == FirstMatch(InOrder(tree), gmatch, pat)
        invariant cnt == 0 ==> Model() == old(Model())
        invariant cnt > 0 ==> exists n :: n in old(Model()) && gmatch(n, pat)
        decreases Nodes(tree)
      {
        MatchStored(vp, gmatch, pat);
        ghost var m, name := Model(), vp.name;
        Unsetv1(vp);
        WithoutDropped(m, gmatch, pat, name);
        cnt := cnt + 1;
        assert allocated(Nodes(tree));
        vp := Madrof(gmatch, pat, head.left, tree, head);
      }
      MatchKeys(InOrder(tree), gmatch, pat);
    }

    ghost predicate Here(p: VarEnt, c: Context, t: Tree)
      reads this, head, ContextNodes(c), Nodes(t)
    {
      t.Node? && p == t.item.ent && At(c, t, head) && Plug(c, t) == tree
    }

    /** Where the parent link leads once the subtree below p has been listed. */
    lemma StepUp(p: VarEnt, c: Context, t: Tree, out: seq<(Name, Value)>)
      requires Here(p, c, t) && out == Listing(Pre(c) + InOrder(t))
      ensures p.parent == Holder(c, head) && (p.parent == head <==> c.Top?)
      ensures p.parent.right == p <==> c.InRight?
      ensures c.Top? ==> out == Listing(InOrder(tree))
      ensures !c.Top? ==> Here(p.parent, Parent(c), Enclose(c, t))
      ensures !c.Top? ==> out == Listing(Pre(Parent(c)) + InOrder(if c.InLeft? then t else Enclose(c, t)))
    {
      LinkSide(c, t, head);
      if c.Top? {
        assert Pre(c) + InOrder(t) == InOrder(tree);
      } else {
        AtUp(c, t, head);
        if c.InRight? {
          Regroup(Pre(c.up), InOrder(c.l), [c.item], InOrder(t), []);
          assert Pre(c) + InOrder(t) == Pre(c.up) + InOrder(Enclose(c, t));
        }
      }
    }

    /** Listing p itself, and where its right link leads. */
    lemma StepVisit(p: VarEnt, c: Context, t: Tree, out: seq<(Name, Value)>)
      requires Here(p, c, t) && out == Listing(Pre(c) + InOrder(t.l))
      ensures p.parent != null && p != head
      ensures var out' := out + [(p.name, p.vec)];
        var c' := InRight(t.l, t.item, t.bal, c);
        |out'| <= |InOrder(tree)| && out' == Listing(Pre(c')) &&
        (p.right == null ==> out' == Listing(Pre(c) + InOrder(t))) &&
        (p.right != null ==> p.right != head && Here(p.right, c', t.r))
    {
      var out' := out + [(p.name, p.vec)];
      var c' := InRight(t.l, t.item, t.bal, c);
      SplitAround(c, t);
      ListingAppend(Pre(c) + InOrder(t.l), [t.item]);
      assert out' == Listing(Pre(c) + InOrder(t.l) + [t.item]);
      AtUp(c', t.r, head);
      if p.right == null {
        assert Pre(c) + InOrder(t) == Pre(c) + InOrder(t.l) + [t.item];
      }
    }

    lemma StepLeft(p: VarEnt, c: Context, t: Tree)
      requires Here(p, c, t)
      ensures p.left == null ==> Pre(c) + InOrder(t.l) == Pre(c)
      ensures p.left != null ==> var c' := InLeft(c, t.item, t.bal, t.r);
        p.left != head && Here(p.left, c', t.l) && Pre(c') == Pre(c)
    {
      AtUp(InLeft(c, t.item, t.bal, t.r), t.l, head);
    }

    /** `plist`: an in-order walk that keeps no stack, only the node it is at. */
    method Plist() returns (out: seq<(Name, Value)>)
      requires Valid()
      ensures forall i, j :: 0 <= i < j < |out| ==> Before(out[i].0, out[j].0)
      ensures forall n, v :: (n, v) in out <==> n in Model() && Model()[n] == v
    {
      out := [];
      var p: VarEnt := head;
      ghost var c, t := Top, tree;
      if p.left != null {
        p := p.left;
      }
      var descend := p != head;
      while p.parent != null
        invariant p == head ==> out == Listing(InOrder(tree)) && !descend
        invariant p != head ==> Here(p, c, t)
        invariant p != head && descend ==> out == Listing(Pre(c))
        invariant p != head && !descend ==> out == Listing(Pre(c) + InOrder(t.l))
        invariant |out| <= |InOrder(tree)|
        decreases |InOrder(tree)| - |out|
      {
        if descend {
          while p.left != null
            invariant p != head && Here(p, c, t) && out == Listing(Pre(c))
            decreases t
          {
            StepLeft(p, c, t);
            p := p.left;
            c, t := InLeft(c, t.item, t.bal, t.r), t.l;
          }
          StepLeft(p, c, t);
        }
        StepVisit(p, c, t, out);
        out := out + [(p.name, p.vec)];
        if p.right != null {
          p := p.right;
          c, t := InRight(t.l, t.item, t.bal, c), t.r;
          descend := true;
        } else {
          StepUp(p, c, t, out);
          var child := p;
          p := p.parent;
          while p.right == child
            invariant Here(child, c, t) && out == Listing(Pre(c) + InOrder(t)) && p == child.parent
            decreases c
          {
            StepUp(child, c, t, out);
            child := p;
            c, t := Parent(c), Enclose(c, t);
            StepUp(child, c, t, out);
            p := p.parent;
          }
          StepUp(child, c, t, out);
          if !c.Top? {
            c, t := Parent(c), Enclose(c, t);
          }
          descend := false;
        }
      }
      ListingFacts(InOrder(tree));
    }
  }

  function Listing(s: seq<Item>): seq<(Name, Value)> {
    seq(|s|, i requires 0 <= i < |s| => (s[i].name, s[i].vec))
  }

  lemma ListingAppend(a: seq<Item>, b: seq<Item>)
    ensures Listing(a + b) == Listing(a) + Listing(b)
  {
  }

  /** Each stored name appears in the listing of a sorted sequence, with its value and in order. */
  lemma ListingFacts(s: seq<Item>)
    requires Sorted(s)
    ensures forall i, j :: 0 <= i < j < |s| ==> Before(Listing(s)[i].0, Listing(s)[j].0)
    ensures forall n, v :: (n, v) in Listing(s) <==> n in Contents(s) && Contents(s)[n] == v
  {
    forall n, v ensures (n, v) in Listing(s) <==> n in Contents(s) && Contents(s)[n] == v {
      ContentsKeys(s, n);
      if n in Contents(s) {
        var i :| 0 <= i < |s| && s[i].name == n;
        ContentsAt(s, i);
        assert Listing(s)[i] == (n, s[i].vec);
      }
      if (n, v) in Listing(s) {
        var i :| 0 <= i < |s| && Listing(s)[i] == (n, v);
        ContentsAt(s, i);
        assert s[i].name == n;
      }
    }
  }

  lemma ContentsAt(s: seq<Item>, i: int)
    requires Sorted(s) && 0 <= i < |s|
    ensures s[i].name in Contents(s) && Contents(s)[s[i].name] == s[i].vec
  {
    var a, x, b := s[..i], s[i], s[i + 1..];
    assert s == a + [x] + b;
    SplitApart(a, x, b);
  }

  /** The patterns that, taken in order, find no variable left to match. */
  function Missing(m: map<Name, Value>, gmatch: (Name, Name) -> bool, pats: seq<Name>): seq<Name> {
    if pats == [] then []
    else
      var k := |pats| - 1;
      var rest := Without(m, gmatch, pats[..k]);
      Missing(m, gmatch, pats[..k]) +
      if exists n :: n in rest && gmatch(n, pats[k]) then [] else [pats[k]]
  }

  /** What is reported: the patterns in order, those left out that match a variable which no earlier
      pattern does. */
  lemma {:induction false} MissingIs(m: map<Name, Value>, gmatch: (Name, Name) -> bool, pats: seq<Name>, pat: Name)
    ensures var used := exists n :: n in m && gmatch(n, pat) && forall i :: 0 <= i < |pats| ==> !gmatch(n, pats[i]);
      Missing(m, gmatch, pats + [pat]) == Missing(m, gmatch, pats) + if used then [] else [pat]
    ensures Missing(m, gmatch, []) == []
  {
    assert (pats + [pat])[..|pats|] == pats;
    var rest := Without(m, gmatch, pats);
    assert forall n :: n in rest <==> n in m && forall i :: 0 <= i < |pats| ==> !gmatch(n, pats[i]);
  }

  lemma WithoutNone(m: map<Name, Value>, gmatch: (Name, Name) -> bool)
    ensures Without(m, gmatch, []) == m
  {
  }

  lemma WithoutMore(m: map<Name, Value>, gmatch: (Name, Name) -> bool, pats: seq<Name>, pat: Name)
    ensures Without(Without(m, gmatch, pats), gmatch, [pat]) == Without(m, gmatch, pats + [pat])
    ensures Without(m, gmatch, pats + [pat]) == Without(m, gmatch, pats) <==>
      !exists n :: n in Without(m, gmatch, pats) && gmatch(n, pat)
    ensures (pats + [pat])[..|pats|] == pats
  {
    var w, w' := Without(m, gmatch, pats), Without(m, gmatch, pats + [pat]);
    assert forall i :: 0 <= i < |pats| ==> (pats + [pat])[i] == pats[i];
    assert (pats + [pat])[|pats|] == pat;
    forall n | n in w ensures n in w' <==> !gmatch(n, pat) {
    }
    if n :| n in w && gmatch(n, pat) {
      assert n !in w';
    }
  }

  lemma WithoutDropped(m: map<Name, Value>, gmatch: (Name, Name) -> bool, pat: Name, n: Name)
    requires gmatch(n, pat)
    ensures Without(m - {n}, gmatch, [pat]) == Without(m, gmatch, [pat])
  {
    assert [pat][0] == pat;
    assert n !in Without(m, gmatch, [pat]);
  }

  /** The search for a match fails exactly when no stored name matches. */
  lemma MatchKeys(s: seq<Item>, gmatch: (Name, Name) -> bool, pat: Name)
    requires Sorted(s)
    ensures FirstMatch(s, gmatch, pat) == null <==> forall n :: n in Contents(s) ==> !gmatch(n, pat)
    ensures var r := FirstMatch(s, gmatch, pat);
      r != null ==> exists i :: 0 <= i < |s| && s[i].ent == r && gmatch(s[i].name, pat) && s[i].name in Contents(s)
    ensures FirstMatch(s, gmatch, pat) == null ==> Without(Contents(s), gmatch, [pat]) == Contents(s)
  {
    FirstMatchFound(s, gmatch, pat);
    forall i | 0 <= i < |s| ensures s[i].name in Contents(s) {
      ContentsAt(s, i);
    }
    forall n | n in Contents(s) ensures exists i :: 0 <= i < |s| && s[i].name == n {
      ContentsKeys(s, n);
    }
  }

  lemma SpliceShrinks(c: Context, t: Tree, sub: Tree)
    requires t.Node? && Balanced(Plug(c, t))
    requires (t.r.Leaf? && sub == t.l) || (t.l.Leaf? && sub == t.r)
    ensures OffByOne(c, sub, 1) && Nodes(t) == Nodes(sub) + {t.item.ent}
  {
    PlugBalanced(c, t);
    SpliceHeights(t, sub);
    SplicedNode(t, sub);
  }

  lemma SpliceHeights(t: Tree, sub: Tree)
    requires t.Node? && Balanced(t) && ((t.r.Leaf? && sub == t.l) || (t.l.Leaf? && sub == t.r))
    ensures Balanced(sub) && Height(t) == Height(sub) + 1
  {
    HeightZero(sub);
  }

  lemma SplicedNode(t: Tree, sub: Tree)
    requires t.Node? && ((t.r.Leaf? && sub == t.l) || (t.l.Leaf? && sub == t.r))
    ensures Nodes(t) == Nodes(sub) + {t.item.ent}
  {
  }

  lemma SpliceNodes(c: Context, t: Tree, sub: Tree)
    requires t.Node? && Distinct(t) && Nodes(t) !! ContextNodes(c)
    requires (t.r.Leaf? && sub == t.l) || (t.l.Leaf? && sub == t.r)
    ensures ContextNodes(c) + Nodes(sub) < Nodes(Plug(c, t))
  {
    PlugNodes(c, t);
    assert t.item.ent in Nodes(Plug(c, t)) && t.item.ent !in ContextNodes(c) + Nodes(sub);
  }

  /** The sequence left when the predecessor x has moved into t's place and its old place is dropped. */
  lemma PredecessorRemoved(c: Context, t: Tree, a: seq<Item>, x: Item, c2: Context, t2: Tree)
    requires t.Node? && Sorted(InOrder(Plug(c, t))) && InOrder(t.l) == a + [x]
    requires t2.Node? && Plug(c2, t2) == Plug(c, t.(item := Item(t.item.ent, x.name, x.vec)))
    requires t2.item.ent == x.ent && t2.r.Leaf? && DistinctEnts(InOrder(Plug(c2, t2)))
    ensures var s := Pre(c2) + InOrder(t2.l) + Post(c2);
      Sorted(s) && Contents(s) == Contents(InOrder(Plug(c, t))) - {t.item.name}
  {
    var it' := Item(t.item.ent, x.name, x.vec);
    var t' := t.(item := it');
    var A, B := Pre(c) + a, InOrder(t.r) + Post(c);
    SplitAround(c, t');
    SplitAround(c2, t2);
    Shift1(Pre(c), a, x, it', B);
    assert [] + Post(c2) == Post(c2);
    SplitUnique(Pre(c2) + InOrder(t2.l), t2.item, Post(c2), A, x, [it'] + B);
    RemovedItem(c, t);
    Shift2(Pre(c), a, x, InOrder(t.r), Post(c));
    ReplaceLike(A, x, it', B);
  }

  lemma Shift1<T>(p: seq<T>, a: seq<T>, x: T, y: T, b: seq<T>)
    ensures (p + (a + [x])) + [y] + b == (p + a) + [x] + ([y] + b)
    ensures (p + a) + ([y] + b) == (p + a) + [y] + b
  {
  }

  lemma Shift2<T>(p: seq<T>, a: seq<T>, x: T, b: seq<T>, q: seq<T>)
    ensures p + ((a + [x]) + b) + q == (p + a) + [x] + (b + q)
  {
  }

  /** Putting an equal name and value on another node changes nothing outside. */
  lemma ReplaceLike(a: seq<Item>, x: Item, y: Item, b: seq<Item>)
    requires Sorted(a + [x] + b) && x.name == y.name && x.vec == y.vec
    ensures Sorted(a + [y] + b) && Contents(a + [y] + b) == Contents(a + [x] + b)
  {
    SplitApart(a, x, b);
    ReplaceItem(a, x, y, b);
  }

  /** Dropping the item at a position from the in-order sequence removes its name from the map. */
  lemma RemovedItem(c: Context, t: Tree)
    requires t.Node? && Sorted(InOrder(Plug(c, t)))
    ensures var s := Pre(c) + (InOrder(t.l) + InOrder(t.r)) + Post(c);
      Sorted(s) && Contents(s) == Contents(InOrder(Plug(c, t))) - {t.item.name}
    ensures t.item.name in Contents(InOrder(Plug(c, t)))
  {
    SplitAround(c, t);
    SplitApart(Pre(c) + InOrder(t.l), t.item, InOrder(t.r) + Post(c));
    Regroup4(Pre(c), InOrder(t.l), InOrder(t.r), Post(c));
  }

  lemma SetTwice(m: map<Name, Value>, n: Name, v: Value, w: Value)
    ensures var m1: map<Name, Value> := m[n := v]; m1[n := w] == m[n := w]
  {
  }

  lemma Regroup4<T>(a: seq<T>, b: seq<T>, c: seq<T>, d: seq<T>)
    ensures (a + b) + (c + d) == a + (b + c) + d
  {
  }
}
