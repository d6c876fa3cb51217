/** The shape of a csh variable tree as a value: what the v_left, v_right,
    v_parent and v_bal fields of the nodes below a header spell out. */
module CshVarTree {
  import opened CshNames

  type Value = seq<seq<Char>>

  /** `struct varent`. */
  class VarEnt {
    var vec: Value
    var name: Name
    var left: VarEnt?
    var right: VarEnt?
    var parent: VarEnt?
    var bal: int

    constructor (name: Name, parent: VarEnt?)
      ensures this.name == name && this.parent == parent && bal == 0
      ensures vec == [] && left == null && right == null
    {
      this.name, this.parent := name, parent;
      vec, left, right, bal := [], null, null, 0;
    }
  }

  datatype Item = Item(ent: VarEnt, name: Name, vec: Value)

  datatype Tree = Leaf | Node(l: Tree, item: Item, bal: int, r: Tree)

  /** A position in a tree: the path from the hole up to the header. */
  datatype Context =
    | Top
    | InLeft(up: Context, item: Item, bal: int, r: Tree)
    | InRight(l: Tree, item: Item, bal: int, up: Context)

  function Max(a: int, b: int): int { if a < b then b else a }

  function Height(t: Tree): int {
    match t
    case Leaf => 0
    case Node(l, _, _, r) => 1 + Max(Height(l), Height(r))
  }

  ghost predicate Balanced(t: Tree) {
    match t
    case Leaf => true
    case Node(l, _, bal, r) =>
      Balanced(l) && Balanced(r) && bal == Height(r) - Height(l) && -1 <= bal <= 1
  }

  function InOrder(t: Tree): seq<Item> {
    match t
    case Leaf => []
    case Node(l, it, _, r) => InOrder(l) + [it] + InOrder(r)
  }

  function Nodes(t: Tree): set<VarEnt> {
    match t
    case Leaf => {}
    case Node(l, it, _, r) => Nodes(l) + {it.ent} + Nodes(r)
  }

  function Plug(c: Context, t: Tree): Tree
    decreases c
  {
    match c
    case Top => t
    case InLeft(up, it, bal, r) => Plug(up, Node(t, it, bal, r))
    case InRight(l, it, bal, up) => Plug(up, Node(l, it, bal, t))
  }

  function Pre(c: Context): seq<Item> {
    match c
    case Top => []
    case InLeft(up, _, _, _) => Pre(up)
    case InRight(l, it, _, up) => Pre(up) + InOrder(l) + [it]
  }

  function Post(c: Context): seq<Item> {
    match c
    case Top => []
    case InLeft(up, it, _, r) => [it] + InOrder(r) + Post(up)
    case InRight(_, _, _, up) => Post(up)
  }

  function ContextNodes(c: Context): set<VarEnt> {
    match c
    case Top => {}
    case InLeft(up, it, _, r) => {it.ent} + Nodes(r) + ContextNodes(up)
    case InRight(l, it, _, up) => {it.ent} + Nodes(l) + ContextNodes(up)
  }

  /** Every balance factor above the hole is right if the hole holds a tree of height h. */
  ghost predicate BalancedAround(c: Context, h: int) {
    match c
    case Top => true
    case InLeft(up, _, bal, r) =>
      Balanced(r) && bal == Height(r) - h && -1 <= bal <= 1 &&
      BalancedAround(up, 1 + Max(h, Height(r)))
    case InRight(l, _, bal, up) =>
      Balanced(l) && bal == h - Height(l) && -1 <= bal <= 1 &&
      BalancedAround(up, 1 + Max(Height(l), h))
  }

  lemma Regroup<T>(a: seq<T>, b: seq<T>, c: seq<T>, d: seq<T>, e: seq<T>)
    ensures a + (b + c + d) + e == a + b + (c + d + e)
    ensures a + (b + c + d) + e == (a + b + c) + d + e
  {
  }

  lemma {:induction false} PlugInOrder(c: Context, t: Tree)
    ensures InOrder(Plug(c, t)) == Pre(c) + InOrder(t) + Post(c)
    decreases c
  {
    match c
    case Top =>
    case InLeft(up, it, bal, r) =>
      var u := Node(t, it, bal, r);
      PlugInOrder(up, u);
      Regroup(Pre(up), InOrder(t), [it], InOrder(r), Post(up));
    case InRight(l, it, bal, up) =>
      var u := Node(l, it, bal, t);
      PlugInOrder(up, u);
      Regroup(Pre(up), InOrder(l), [it], InOrder(t), Post(up));
  }

  lemma {:induction false} PlugNodes(c: Context, t: Tree)
    ensures Nodes(Plug(c, t)) == ContextNodes(c) + Nodes(t)
    decreases c
  {
    match c
    case Top =>
    case InLeft(up, it, bal, r) => PlugNodes(up, Node(t, it, bal, r));
    case InRight(l, it, bal, up) => PlugNodes(up, Node(l, it, bal, t));
  }

  lemma {:induction false} PlugBalanced(c: Context, t: Tree)
    ensures Balanced(Plug(c, t)) <==> Balanced(t) && BalancedAround(c, Height(t))
    decreases c
  {
    match c
    case Top =>
    case InLeft(up, it, bal, r) =>
      PlugBalanced(up, Node(t, it, bal, r));
    case InRight(l, it, bal, up) =>
      PlugBalanced(up, Node(l, it, bal, t));
  }

  // ---- rebalancing -------------------------------------------------------------

  /** The `rleft` macro on shapes (balance factors travel with their nodes). */
  function RotateLeft(t: Tree): Tree
    requires t.Node? && t.r.Node?
  {
    Node(Node(t.l, t.item, t.bal, t.r.l), t.r.item, t.r.bal, t.r.r)
  }

  function RotateRight(t: Tree): Tree
    requires t.Node? && t.l.Node?
  {
    Node(t.l.l, t.l.item, t.l.bal, Node(t.l.r, t.item, t.bal, t.r))
  }

  /** A node set with the three balance factors `balance` writes after a rotation. */
  function SetBalances(t: Tree, left: int, own: int, right: int): Tree
    requires t.Node? && t.l.Node? && t.r.Node?
  {
    t.(l := t.l.(bal := left), bal := own, r := t.r.(bal := right))
  }

  /** One pass of `balance` over node t whose right side has become relatively heavier.
      Defined only where a rotation has the children it needs. */
  function FixRightHeavy(t: Tree): Tree
    requires t.Node? && (t.bal == 1 ==> t.r.Node? && (t.r.bal == -1 ==> t.r.l.Node?))
  {
    if t.bal == -1 then t.(bal := 0)
    else if t.bal == 0 then t.(bal := 1)
    else if t.bal != 1 then t
    else if t.r.bal == 1 then
      var u := RotateLeft(t);
      u.(l := u.l.(bal := 0), bal := 0)
    else if t.r.bal == 0 then
      var u := RotateLeft(t);
      u.(l := u.l.(bal := 1), bal := -1)
    else if t.r.bal == -1 then
      var u := RotateLeft(t.(r := RotateRight(t.r)));
      SetBalances(u, if u.bal < 1 then 0 else -1, 0, if u.bal > -1 then 0 else 1)
    else t
  }

  function FixLeftHeavy(t: Tree): Tree
    requires t.Node? && (t.bal == -1 ==> t.l.Node? && (t.l.bal == 1 ==> t.l.r.Node?))
  {
    if t.bal == 1 then t.(bal := 0)
    else if t.bal == 0 then t.(bal := -1)
    else if t.bal != -1 then t
    else if t.l.bal == -1 then
      var u := RotateRight(t);
      u.(bal := 0, r := u.r.(bal := 0))
    else if t.l.bal == 0 then
      var u := RotateRight(t);
      u.(bal := 1, r := u.r.(bal := -1))
    else if t.l.bal == 1 then
      var u := RotateRight(t.(l := RotateLeft(t.l)));
      SetBalances(u, if u.bal < 1 then 0 else -1, 0, if u.bal > -1 then 0 else 1)
    else t
  }

  /** t is a balanced node except that its `f` side (0 left, 1 right) has since
      grown by one (d == 0) or shrunk by one (d == 1); h was its height before. */
  ghost predicate Disturbed(t: Tree, f: int, d: int, h: int) {
    t.Node? && Balanced(t.l) && Balanced(t.r) && 0 <= f <= 1 && 0 <= d <= 1 &&
    var was := if d == 0 then -1 else 1;
    var hl := Height(t.l) + (if f == 0 then was else 0);
    var hr := Height(t.r) + (if f == 1 then was else 0);
    0 <= hl && 0 <= hr && t.bal == hr - hl && -1 <= t.bal <= 1 && h == 1 + Max(hl, hr)
  }

  /** The loop's `f ^ d`. */
  predicate RightHeavy(f: int, d: int) { (f == 1) != (d == 1) }

  /** A disturbed node always has the children its rotation reaches for. */
  lemma DisturbedShape(t: Tree, f: int, d: int, h: int)
    requires Disturbed(t, f, d, h)
    ensures RightHeavy(f, d) && t.bal == 1 ==>
      t.r.Node? && -1 <= t.r.bal <= 1 && (t.r.bal == -1 ==> t.r.l.Node?)
    ensures !RightHeavy(f, d) && t.bal == -1 ==>
      t.l.Node? && -1 <= t.l.bal <= 1 && (t.l.bal == 1 ==> t.l.r.Node?)
  {
    HeightZero(t.l);
    HeightZero(t.r);
    if t.r.Node? {
      HeightZero(t.r.l);
      HeightZero(t.r.r);
    }
    if t.l.Node? {
      HeightZero(t.l.l);
      HeightZero(t.l.r);
    }
  }

  lemma {:induction false} HeightZero(t: Tree)
    ensures 0 <= Height(t) && (Height(t) == 0 <==> t.Leaf?)
  {
    if t.Node? {
      HeightZero(t.l);
      HeightZero(t.r);
    }
  }

  function Fix(t: Tree, f: int, d: int): Tree
    requires t.Node?
    requires RightHeavy(f, d) && t.bal == 1 ==> t.r.Node? && (t.r.bal == -1 ==> t.r.l.Node?)
    requires !RightHeavy(f, d) && t.bal == -1 ==> t.l.Node? && (t.l.bal == 1 ==> t.l.r.Node?)
  {
    if RightHeavy(f, d) then FixRightHeavy(t) else FixLeftHeavy(t)
  }

  /** One pass restores balance for the subtree it leaves, and the stop test
      `(p->v_bal == 0) ^ d` holds exactly when its height is what it was before
      the insertion or deletion; otherwise it differs by the same one. */
  lemma FixRestores(t: Tree, f: int, d: int, h: int)
    requires Disturbed(t, f, d, h)
    ensures RightHeavy(f, d) && t.bal == 1 ==> t.r.Node? && (t.r.bal == -1 ==> t.r.l.Node?)
    ensures !RightHeavy(f, d) && t.bal == -1 ==> t.l.Node? && (t.l.bal == 1 ==> t.l.r.Node?)
    ensures var u := Fix(t, f, d);
      u.Node? && Balanced(u) && InOrder(u) == InOrder(t) && Nodes(u) == Nodes(t) &&
      Height(u) == h + (if (u.bal == 0) != (d == 1) then 0 else if d == 0 then 1 else -1)
  {
    DisturbedShape(t, f, d, h);
    if RightHeavy(f, d) {
      FixRightRestores(t, f, d, h);
    } else {
      FixLeftRestores(t, f, d, h);
    }
  }

  lemma RotatedItems<T>(a: seq<T>, x: seq<T>, b: seq<T>, y: seq<T>, c: seq<T>)
    ensures (a + x + b) + y + c == a + x + (b + y + c)
  {
  }

  lemma RotateLeftItems(t: Tree)
    requires t.Node? && t.r.Node?
    ensures InOrder(RotateLeft(t)) == InOrder(t) && Nodes(RotateLeft(t)) == Nodes(t)
  {
    var a, x, b, y, c := InOrder(t.l), [t.item], InOrder(t.r.l), [t.r.item], InOrder(t.r.r);
    RotatedItems(a, x, b, y, c);
  }

  lemma RotateRightItems(t: Tree)
    requires t.Node? && t.l.Node?
    ensures InOrder(RotateRight(t)) == InOrder(t) && Nodes(RotateRight(t)) == Nodes(t)
  {
    var a, x, b, y, c := InOrder(t.l.l), [t.l.item], InOrder(t.l.r), [t.item], InOrder(t.r);
    RotatedItems(a, x, b, y, c);
  }

  /** Balance factors are not part of what a tree stores. */
  lemma RebalancedItems(t: Tree, u: Tree)
    requires t.Node? && u.Node? && t.item == u.item
    requires InOrder(t.l) == InOrder(u.l) && InOrder(t.r) == InOrder(u.r)
    requires Nodes(t.l) == Nodes(u.l) && Nodes(t.r) == Nodes(u.r)
    ensures InOrder(t) == InOrder(u) && Nodes(t) == Nodes(u)
  {
  }

  lemma FixRightItems(t: Tree)
    requires t.Node? && t.bal == 1 && t.r.Node? && -1 <= t.r.bal <= 1 && (t.r.bal == -1 ==> t.r.l.Node?)
    ensures InOrder(FixRightHeavy(t)) == InOrder(t) && Nodes(FixRightHeavy(t)) == Nodes(t)
  {
    var u := FixRightHeavy(t);
    if t.r.bal == -1 {
      RotateRightItems(t.r);
      var v := t.(r := RotateRight(t.r));
      RebalancedItems(t, v);
      RotateLeftItems(v);
      var w := RotateLeft(v);
      RebalancedItems(w.l, u.l);
      RebalancedItems(w.r, u.r);
      RebalancedItems(w, u);
    } else {
      RotateLeftItems(t);
      var w := RotateLeft(t);
      RebalancedItems(w.l, u.l);
      RebalancedItems(w, u);
    }
  }

  lemma FixLeftItems(t: Tree)
    requires t.Node? && t.bal == -1 && t.l.Node? && -1 <= t.l.bal <= 1 && (t.l.bal == 1 ==> t.l.r.Node?)
    ensures InOrder(FixLeftHeavy(t)) == InOrder(t) && Nodes(FixLeftHeavy(t)) == Nodes(t)
  {
    var u := FixLeftHeavy(t);
    if t.l.bal == 1 {
      RotateLeftItems(t.l);
      var v := t.(l := RotateLeft(t.l));
      RebalancedItems(t, v);
      RotateRightItems(v);
      var w := RotateRight(v);
      RebalancedItems(w.l, u.l);
      RebalancedItems(w.r, u.r);
      RebalancedItems(w, u);
    } else {
      RotateRightItems(t);
      var w := RotateRight(t);
      RebalancedItems(w.r, u.r);
      RebalancedItems(w, u);
    }
  }

  lemma FixRightRestores(t: Tree, f: int, d: int, h: int)
    requires Disturbed(t, f, d, h) && RightHeavy(f, d)
    requires t.bal == 1 ==> t.r.Node? && -1 <= t.r.bal <= 1 && (t.r.bal == -1 ==> t.r.l.Node?)
    ensures var u := FixRightHeavy(t);
      u.Node? && Balanced(u) && InOrder(u) == InOrder(t) && Nodes(u) == Nodes(t) &&
      Height(u) == h + (if (u.bal == 0) != (d == 1) then 0 else if d == 0 then 1 else -1)
  {
    if t.bal == 1 {
      FixRightItems(t);
      FixRightHeights(t);
    } else {
      RebalancedItems(t, FixRightHeavy(t));
    }
  }

  lemma FixLeftRestores(t: Tree, f: int, d: int, h: int)
    requires Disturbed(t, f, d, h) && !RightHeavy(f, d)
    requires t.bal == -1 ==> t.l.Node? && -1 <= t.l.bal <= 1 && (t.l.bal == 1 ==> t.l.r.Node?)
    ensures var u := FixLeftHeavy(t);
      u.Node? && Balanced(u) && InOrder(u) == InOrder(t) && Nodes(u) == Nodes(t) &&
      Height(u) == h + (if (u.bal == 0) != (d == 1) then 0 else if d == 0 then 1 else -1)
  {
    if t.bal == -1 {
      FixLeftItems(t);
      FixLeftHeights(t);
    } else {
      RebalancedItems(t, FixLeftHeavy(t));
    }
  }

  /** Rotating a node whose right side is two levels higher: the result is balanced,
      and one level lower than the node was exactly when its own factor is 0. */
  lemma FixRightHeights(t: Tree)
    requires t.Node? && t.bal == 1 && Balanced(t.l) && Balanced(t.r) && Height(t.r) == Height(t.l) + 2
    requires t.r.Node? && (t.r.bal == -1 ==> t.r.l.Node?)
    ensures var u := FixRightHeavy(t);
      u.Node? && Balanced(u) && Height(u) == Height(t.r) + (if u.bal == 0 then 0 else 1)
  {
  }

  lemma FixLeftHeights(t: Tree)
    requires t.Node? && t.bal == -1 && Balanced(t.l) && Balanced(t.r) && Height(t.l) == Height(t.r) + 2
    requires t.l.Node? && (t.l.bal == 1 ==> t.l.r.Node?)
    ensures var u := FixLeftHeavy(t);
      u.Node? && Balanced(u) && Height(u) == Height(t.l) + (if u.bal == 0 then 0 else 1)
  {
  }

  // ---- what a tree stores ------------------------------------------------------

  ghost predicate Sorted(s: seq<Item>) {
    forall i, j :: 0 <= i < j < |s| ==> Before(s[i].name, s[j].name)
  }

  /** The finite map a sequence of items stands for. */
  function Contents(s: seq<Item>): map<Name, Value> {
    if s == [] then map[] else Contents(s[..|s| - 1])[s[|s| - 1].name := s[|s| - 1].vec]
  }

  lemma {:induction false} ContentsAppend(a: seq<Item>, b: seq<Item>)
    ensures Contents(a + b) == Contents(a) + Contents(b)
  {
    if b == [] {
      assert a + b == a;
    } else {
      assert (a + b)[..|a + b| - 1] == a + b[..|b| - 1];
      ContentsAppend(a, b[..|b| - 1]);
    }
  }

  lemma {:induction false} ContentsKeys(s: seq<Item>, n: Name)
    ensures n in Contents(s) <==> exists i :: 0 <= i < |s| && s[i].name == n
  {
    if s != [] {
      var last := |s| - 1;
      ContentsKeys(s[..last], n);
      if s[last].name != n && n in Contents(s) {
        var i :| 0 <= i < last && s[..last][i].name == n;
        assert s[i].name == n;
      }
      if i :| 0 <= i < |s| && s[i].name == n {
        if i < last {
          assert s[..last][i].name == n;
        }
      }
    }
  }

  /** Items of the two parts of a sorted sequence are apart, and so are their names. */
  lemma SortedApart(a: seq<Item>, b: seq<Item>)
    requires Sorted(a + b)
    ensures Contents(a).Keys !! Contents(b).Keys
  {
    forall n | n in Contents(a) && n in Contents(b) ensures false {
      ContentsKeys(a, n);
      ContentsKeys(b, n);
      var i :| 0 <= i < |a| && a[i].name == n;
      var j :| 0 <= j < |b| && b[j].name == n;
      assert (a + b)[i] == a[i] && (a + b)[|a| + j] == b[j];
      CompareTotalOrder(n, n);
      assert false;
    }
  }

  lemma ContentsSingle(it: Item)
    ensures Contents([it]) == map[it.name := it.vec]
  {
    assert [it][..0] == [];
    assert Contents([it]) == Contents([it][..0])[it.name := it.vec];
  }

  lemma SortedRemove(a: seq<Item>, it: Item, b: seq<Item>)
    requires Sorted(a + [it] + b)
    ensures Sorted(a + b) && Sorted(a + [it]) && Sorted([it] + b)
  {
    var s := a + [it] + b;
    forall i, j | 0 <= i < j < |a + b| ensures Before((a + b)[i].name, (a + b)[j].name) {
      assert (a + b)[i] == s[if i < |a| then i else i + 1];
      assert (a + b)[j] == s[if j < |a| then j else j + 1];
    }
    forall i, j | 0 <= i < j < |a + [it]| ensures Before((a + [it])[i].name, (a + [it])[j].name) {
      assert (a + [it])[i] == s[i] && (a + [it])[j] == s[j];
    }
    forall i, j | 0 <= i < j < |[it] + b| ensures Before(([it] + b)[i].name, ([it] + b)[j].name) {
      assert ([it] + b)[i] == s[|a| + i] && ([it] + b)[j] == s[|a| + j];
    }
  }

  lemma MapInsertBetween(m: map<Name, Value>, n: map<Name, Value>, k: Name, v: Value)
    requires k !in m && k !in n
    ensures (m + map[k := v]) + n == (m + n)[k := v]
    ensures (m + n)[k := v] - {k} == m + n
  {
  }

  /** In a sorted sequence split at an item, the item's name occurs nowhere else,
      so dropping the item removes exactly its name from the map. */
  lemma SplitApart(a: seq<Item>, it: Item, b: seq<Item>)
    requires Sorted(a + [it] + b)
    ensures Sorted(a + b) && it.name !in Contents(a + b)
    ensures Contents(a + [it] + b) == Contents(a + b)[it.name := it.vec]
    ensures Contents(a + b) == Contents(a + [it] + b) - {it.name}
  {
    SortedRemove(a, it, b);
    ContentsSingle(it);
    assert it.name in Contents([it]);
    assert it.name !in Contents(a) by { SortedApart(a, [it]); }
    assert it.name !in Contents(b) by { SortedApart([it], b); }
    MapInsertBetween(Contents(a), Contents(b), it.name, it.vec);
    ContentsAppend(a, b);
    ContentsAppend(a + [it], b);
    ContentsAppend(a, [it]);
  }

  /** Inserting an item between its neighbours keeps a sequence sorted. */
  lemma SortedInsert(a: seq<Item>, it: Item, b: seq<Item>)
    requires Sorted(a + b)
    requires forall i :: 0 <= i < |a| ==> Before(a[i].name, it.name)
    requires forall i :: 0 <= i < |b| ==> Before(it.name, b[i].name)
    ensures Sorted(a + [it] + b)
  {
    var s := a + [it] + b;
    forall i, j | 0 <= i < j < |s| ensures Before(s[i].name, s[j].name) {
      if i != |a| && j != |a| {
        assert s[i] == (a + b)[if i < |a| then i else i - 1];
        assert s[j] == (a + b)[if j < |a| then j else j - 1];
      }
    }
  }

  /** Replacing an item by one of the same name keeps the order and updates the map. */
  lemma ReplaceItem(a: seq<Item>, it: Item, it': Item, b: seq<Item>)
    requires Sorted(a + [it] + b) && it.name == it'.name
    ensures Sorted(a + [it'] + b)
    ensures Contents(a + [it'] + b) == Contents(a + [it] + b)[it.name := it'.vec]
  {
    var s, s' := a + [it] + b, a + [it'] + b;
    forall i, j | 0 <= i < j < |s'| ensures Before(s'[i].name, s'[j].name) {
      assert s[i].name == s'[i].name && s[j].name == s'[j].name;
    }
    SplitApart(a, it, b);
    SplitApart(a, it', b);
  }
}
