/** The csh variable store: insertion, deletion and rebalancing by pointer
    surgery on nodes with parent links, below a header node. */
module CshVarStore {
  import opened CshNames
  import opened CshVarTree

  function RootOf(t: Tree): VarEnt? {
    if t.Leaf? then null else t.item.ent
  }

  /** The nodes spell out t, and the root's parent link is par. */
  ghost predicate Rep(t: Tree, par: VarEnt)
    reads Nodes(t)
  {
    match t
    case Leaf => true
    case Node(l, it, bal, r) =>
      it.ent.name == it.name && it.ent.vec == it.vec && it.ent.bal == bal && it.ent.parent == par &&
      it.ent.left == RootOf(l) && it.ent.right == RootOf(r) &&
      Rep(l, it.ent) && Rep(r, it.ent)
  }

  ghost predicate Distinct(t: Tree) {
    match t
    case Leaf => true
    case Node(l, it, _, r) =>
      it.ent !in Nodes(l) && it.ent !in Nodes(r) && Nodes(l) !! Nodes(r) && Distinct(l) && Distinct(r)
  }

  /** The node whose link the hole is, and which of its links (0 left, 1 right). */
  function Holder(c: Context, head: VarEnt): VarEnt {
    match c
    case Top => head
    case InLeft(_, it, _, _) => it.ent
    case InRight(_, it, _, _) => it.ent
  }

  function Side(c: Context): int {
    if c.InRight? then 1 else 0
  }

  function Parent(c: Context): Context
    requires !c.Top?
  {
    if c.InLeft? then c.up else c.up
  }

  /** The tree at the holder of the hole when t is in the hole. */
  function Enclose(c: Context, t: Tree): Tree
    requires !c.Top?
  {
    match c
    case InLeft(_, it, bal, r) => Node(t, it, bal, r)
    case InRight(l, it, bal, _) => Node(l, it, bal, t)
  }

  ghost predicate RepAround(c: Context, head: VarEnt, child: VarEnt?)
    reads ContextNodes(c), head
  {
    match c
    case Top => head.parent == null && head.left == child && head.right == null
    case InLeft(up, it, bal, r) =>
      it.ent.name == it.name && it.ent.vec == it.vec && it.ent.bal == bal &&
      it.ent.parent == Holder(up, head) && it.ent.left == child && it.ent.right == RootOf(r) &&
      Rep(r, it.ent) && RepAround(up, head, it.ent)
    case InRight(l, it, bal, up) =>
      it.ent.name == it.name && it.ent.vec == it.vec && it.ent.bal == bal &&
      it.ent.parent == Holder(up, head) && it.ent.left == RootOf(l) && it.ent.right == child &&
      Rep(l, it.ent) && RepAround(up, head, it.ent)
  }

  ghost predicate DistinctAround(c: Context, head: VarEnt) {
    match c
    case Top => true
    case InLeft(up, it, _, r) =>
      it.ent !in Nodes(r) && it.ent !in ContextNodes(up) && Nodes(r) !! ContextNodes(up) &&
      it.ent != head && head !in Nodes(r) && Distinct(r) && DistinctAround(up, head)
    case InRight(l, it, _, up) =>
      it.ent !in Nodes(l) && it.ent !in ContextNodes(up) && Nodes(l) !! ContextNodes(up) &&
      it.ent != head && head !in Nodes(l) && Distinct(l) && DistinctAround(up, head)
  }

  /** The store is at position c with t in the hole. */
  ghost predicate At(c: Context, t: Tree, head: VarEnt)
    reads ContextNodes(c), Nodes(t), head
  {
    Rep(t, Holder(c, head)) && RepAround(c, head, RootOf(t)) &&
    Distinct(t) && DistinctAround(c, head) && Nodes(t) !! ContextNodes(c) && head !in Nodes(t)
  }

  lemma {:induction false} HeadApart(c: Context, head: VarEnt)
    requires DistinctAround(c, head)
    ensures head !in ContextNodes(c)
  {
    if !c.Top? {
      HeadApart(Parent(c), head);
    }
  }

  /** Moving the position up one step, in either direction. */
  lemma AtUp(c: Context, t: Tree, head: VarEnt)
    requires !c.Top?
    ensures Plug(c, t) == Plug(Parent(c), Enclose(c, t))
    ensures At(c, t, head) <==> At(Parent(c), Enclose(c, t), head)
  {
    var up, n := Parent(c), Enclose(c, t);
    assert ContextNodes(c) + Nodes(t) == ContextNodes(up) + Nodes(n);
    if At(c, t, head) {
      HeadApart(c, head);
    }
  }

  lemma {:induction false} AtPlug(c: Context, t: Tree, head: VarEnt)
    ensures At(c, t, head) <==> At(Top, Plug(c, t), head)
    decreases c
  {
    if !c.Top? {
      AtUp(c, t, head);
      AtPlug(Parent(c), Enclose(c, t), head);
    }
  }

  // ---- link updates ------------------------------------------------------------

  method SetLink(p: VarEnt, f: int, child: VarEnt?)
    requires 0 <= f <= 1
    modifies p
    ensures p.left == (if f == 0 then child else old(p.left))
    ensures p.right == (if f == 1 then child else old(p.right))
    ensures p.name == old(p.name) && p.vec == old(p.vec) && p.bal == old(p.bal) && p.parent == old(p.parent)
  {
    if f == 0 { p.left := child; } else { p.right := child; }
  }

  /** The child goes into link ff of pp; nothing else around that position changes. */
  method Attach(head: VarEnt, pp: VarEnt, ff: int, child: VarEnt?, ghost c: Context, ghost was: VarEnt?)
    requires pp == Holder(c, head) && ff == Side(c)
    requires RepAround(c, head, was) && DistinctAround(c, head)
    modifies pp
    ensures RepAround(c, head, child)
    ensures pp.parent == old(pp.parent)
  {
    HeadApart(c, head);
    ghost var sibling := if c.InLeft? then c.r else if c.InRight? then c.l else Leaf;
    assert c.Top? || (Rep(sibling, pp) && pp !in Nodes(sibling));
    assert c.Top? || (RepAround(Parent(c), head, pp) && pp !in ContextNodes(Parent(c)) && pp != head);
    assert allocated(Nodes(sibling)) && (c.Top? || allocated(ContextNodes(Parent(c))));
    SetLink(pp, ff, child);
    assert c.Top? || Rep(sibling, pp);
    assert c.Top? || RepAround(Parent(c), head, pp);
  }

  /** If there is a child, its parent is p from now on. */
  method SetParent(child: VarEnt?, p: VarEnt, ghost t: Tree, ghost was: VarEnt)
    requires child == RootOf(t) && Rep(t, was) && Distinct(t)
    modifies child
    ensures Rep(t, p)
    ensures child != null ==> child.left == old(child.left) && child.right == old(child.right)
  {
    if child != null {
      assert Rep(t.l, child) && Rep(t.r, child);
      child.parent := p;
      assert Rep(t.l, child) && Rep(t.r, child);
    }
  }

  /** The two ways to bracket three subtrees and two nodes hold the same distinct nodes. */
  lemma RotationDistinct(a: Tree, x: Item, m: int, b: Tree, y: Item, n: int, c: Tree)
    ensures var u, v := Node(a, x, m, Node(b, y, n, c)), Node(Node(a, x, m, b), y, n, c);
      Nodes(u) == Nodes(v) && (Distinct(u) <==> Distinct(v))
    ensures Distinct(Node(Node(a, x, m, b), y, n, c)) ==>
      x.ent != y.ent && x.ent !in Nodes(a) + Nodes(b) + Nodes(c) && y.ent !in Nodes(a) + Nodes(b) + Nodes(c) &&
      Nodes(a) !! Nodes(b) && Nodes(b) !! Nodes(c) && Nodes(a) !! Nodes(c)
  {
  }

  // ---- rotations: the rleft and rright macros -----------------------------------

  method RLeft(p: VarEnt, ghost t: Tree, ghost par: VarEnt) returns (q: VarEnt)
    requires t.Node? && t.r.Node? && p == t.item.ent && Rep(t, par) && Distinct(t)
    modifies Nodes(t)
    ensures q == t.r.item.ent
    ensures Rep(RotateLeft(t), par) && Distinct(RotateLeft(t)) && Nodes(RotateLeft(t)) == Nodes(t)
  {
    q := p.right;
    RotationDistinct(t.l, t.item, t.bal, t.r.l, t.r.item, t.r.bal, t.r.r);
    ghost var a, b, c := t.l, t.r.l, t.r.r;
    assert Rep(a, p) && Rep(b, q) && Rep(c, q);
    q.parent := p.parent;
    p.right := q.left;
    assert allocated(Nodes(a)) && allocated(Nodes(c));
    SetParent(p.right, p, b, q);
    q.left := p;
    p.parent := q;
    assert Rep(a, p) && Rep(b, p) && Rep(c, q);
  }

  method RRight(p: VarEnt, ghost t: Tree, ghost par: VarEnt) returns (q: VarEnt)
    requires t.Node? && t.l.Node? && p == t.item.ent && Rep(t, par) && Distinct(t)
    modifies Nodes(t)
    ensures q == t.l.item.ent
    ensures Rep(RotateRight(t), par) && Distinct(RotateRight(t)) && Nodes(RotateRight(t)) == Nodes(t)
  {
    q := p.left;
    RotationDistinct(t.l.l, t.l.item, t.l.bal, t.l.r, t.item, t.bal, t.r);
    ghost var a, b, c := t.l.l, t.l.r, t.r;
    assert Rep(a, q) && Rep(b, q) && Rep(c, p);
    q.parent := p.parent;
    p.left := q.right;
    assert allocated(Nodes(a)) && allocated(Nodes(c));
    SetParent(p.left, p, b, q);
    q.right := p;
    p.parent := q;
    assert Rep(a, q) && Rep(b, p) && Rep(c, p);
  }

  method SetBal(q: VarEnt, b: int, ghost t: Tree, ghost par: VarEnt)
    requires t.Node? && q == t.item.ent && Rep(t, par) && Distinct(t)
    modifies q`bal
    ensures Rep(t.(bal := b), par) && Distinct(t.(bal := b)) && Nodes(t.(bal := b)) == Nodes(t)
  {
    assert Rep(t.l, q) && Rep(t.r, q);
    q.bal := b;
    assert Rep(t.l, q) && Rep(t.r, q);
  }

  method SetLeftBal(q: VarEnt, b: int, ghost t: Tree, ghost par: VarEnt)
    requires t.Node? && t.l.Node? && q == t.item.ent && Rep(t, par) && Distinct(t)
    modifies Nodes(t.l)
    ensures var u := t.(l := t.l.(bal := b));
      Rep(u, par) && Distinct(u) && Nodes(u) == Nodes(t)
  {
    assert Rep(t.l, q) && Rep(t.r, q) && allocated(Nodes(t.r));
    SetBal(q.left, b, t.l, q);
    assert Rep(t.r, q);
  }

  method SetRightBal(q: VarEnt, b: int, ghost t: Tree, ghost par: VarEnt)
    requires t.Node? && t.r.Node? && q == t.item.ent && Rep(t, par) && Distinct(t)
    modifies Nodes(t.r)
    ensures var u := t.(r := t.r.(bal := b));
      Rep(u, par) && Distinct(u) && Nodes(u) == Nodes(t)
  {
    assert Rep(t.l, q) && Rep(t.r, q) && allocated(Nodes(t.l));
    SetBal(q.right, b, t.r, q);
    assert Rep(t.l, q);
  }

  /** The right child rotates right, then p rotates left. */
  method DoubleLeft(p: VarEnt, ghost t: Tree, ghost par: VarEnt) returns (q: VarEnt)
    requires t.Node? && t.r.Node? && t.r.l.Node? && p == t.item.ent && Rep(t, par) && Distinct(t)
    modifies Nodes(t)
    ensures var u := RotateLeft(t.(r := RotateRight(t.r)));
      q == u.item.ent && Rep(u, par) && Distinct(u) && Nodes(u) == Nodes(t)
  {
    assert Rep(t.l, p) && Rep(t.r, p) && allocated(Nodes(t.l));
    var s := RRight(p.right, t.r, p);
    assert Rep(t.l, p);
    ghost var r := RotateRight(t.r);
    assert Rep(r, p) && p !in Nodes(r);
    p.right := s;
    assert Rep(t.l, p) && Rep(r, p);
    q := RLeft(p, t.(r := r), par);
  }

  method DoubleRight(p: VarEnt, ghost t: Tree, ghost par: VarEnt) returns (q: VarEnt)
    requires t.Node? && t.l.Node? && t.l.r.Node? && p == t.item.ent && Rep(t, par) && Distinct(t)
    modifies Nodes(t)
    ensures var u := RotateRight(t.(l := RotateLeft(t.l)));
      q == u.item.ent && Rep(u, par) && Distinct(u) && Nodes(u) == Nodes(t)
  {
    assert Rep(t.l, p) && Rep(t.r, p) && allocated(Nodes(t.r));
    var s := RLeft(p.left, t.l, p);
    assert Rep(t.r, p);
    ghost var l := RotateLeft(t.l);
    assert Rep(l, p) && p !in Nodes(l);
    p.left := s;
    assert Rep(t.r, p) && Rep(l, p);
    q := RRight(p, t.(l := l), par);
  }

  // ---- balance -------------------------------------------------------------------

  /** The right-heavy half of the loop body of `balance`. */
  method FixRight(p: VarEnt, ghost t: Tree, ghost par: VarEnt) returns (q: VarEnt)
    requires t.Node? && p == t.item.ent && Rep(t, par) && Distinct(t) && -1 <= t.bal <= 1
    requires t.bal == 1 ==> t.r.Node? && -1 <= t.r.bal <= 1 && (t.r.bal == -1 ==> t.r.l.Node?)
    modifies Nodes(t)
    ensures Rep(FixRightHeavy(t), par) && Distinct(FixRightHeavy(t)) && q == RootOf(FixRightHeavy(t))
    ensures Nodes(FixRightHeavy(t)) == Nodes(t)
  {
    q := p;
    if p.bal == -1 {
      SetBal(p, 0, t, par);
    } else if p.bal == 0 {
      SetBal(p, 1, t, par);
    } else {
      var heavy := p.right.bal;
      if heavy == -1 {
        q := DoubleLeft(p, t, par);
        ghost var u := RotateLeft(t.(r := RotateRight(t.r)));
        var lb := if q.bal < 1 then 0 else -1;
        var rb := if q.bal > -1 then 0 else 1;
        SetLeftBal(q, lb, u, par);
        SetRightBal(q, rb, u.(l := u.l.(bal := lb)), par);
        SetBal(q, 0, u.(l := u.l.(bal := lb), r := u.r.(bal := rb)), par);
      } else {
        q := RLeft(p, t, par);
        ghost var u := RotateLeft(t);
        SetLeftBal(q, if heavy == 1 then 0 else 1, u, par);
        SetBal(q, if heavy == 1 then 0 else -1, u.(l := u.l.(bal := if heavy == 1 then 0 else 1)), par);
      }
    }
  }

  /** The left-heavy half. */
  method FixLeft(p: VarEnt, ghost t: Tree, ghost par: VarEnt) returns (q: VarEnt)
    requires t.Node? && p == t.item.ent && Rep(t, par) && Distinct(t) && -1 <= t.bal <= 1
    requires t.bal == -1 ==> t.l.Node? && -1 <= t.l.bal <= 1 && (t.l.bal == 1 ==> t.l.r.Node?)
    modifies Nodes(t)
    ensures Rep(FixLeftHeavy(t), par) && Distinct(FixLeftHeavy(t)) && q == RootOf(FixLeftHeavy(t))
    ensures Nodes(FixLeftHeavy(t)) == Nodes(t)
  {
    q := p;
    if p.bal == 1 {
      SetBal(p, 0, t, par);
    } else if p.bal == 0 {
      SetBal(p, -1, t, par);
    } else {
      var heavy := p.left.bal;
      if heavy == 1 {
        q := DoubleRight(p, t, par);
        ghost var u := RotateRight(t.(l := RotateLeft(t.l)));
        var lb := if q.bal < 1 then 0 else -1;
        var rb := if q.bal > -1 then 0 else 1;
        SetLeftBal(q, lb, u, par);
        SetRightBal(q, rb, u.(l := u.l.(bal := lb)), par);
        SetBal(q, 0, u.(l := u.l.(bal := lb), r := u.r.(bal := rb)), par);
      } else {
        q := RRight(p, t, par);
        ghost var u := RotateRight(t);
        SetRightBal(q, if heavy == -1 then 0 else -1, u, par);
        SetBal(q, if heavy == -1 then 0 else 1, u.(r := u.r.(bal := if heavy == -1 then 0 else -1)), par);
      }
    }
  }

  /** The heights above the hole fit a hole whose tree has grown (d == 0) or shrunk (d == 1) by one. */
  ghost predicate OffByOne(c: Context, t: Tree, d: int) {
    Balanced(t) && 0 <= d <= 1 &&
    var was := if d == 0 then Height(t) - 1 else Height(t) + 1;
    0 <= was && BalancedAround(c, was)
  }

  /** What the height of the node above the hole was before the insertion or deletion. */
  ghost function HeightBefore(c: Context, t: Tree, d: int): int
    requires !c.Top?
  {
    var was := if d == 0 then Height(t) - 1 else Height(t) + 1;
    if c.InLeft? then 1 + Max(was, Height(c.r)) else 1 + Max(Height(c.l), was)
  }

  /** The node above a hole that is off by one is disturbed on the hole's side. */
  lemma OffByOneDisturbs(c: Context, t: Tree, d: int)
    requires !c.Top? && OffByOne(c, t, d)
    ensures var h := HeightBefore(c, t, d);
      Disturbed(Enclose(c, t), Side(c), d, h) && BalancedAround(Parent(c), h) && 1 <= h
  {
    HeightZero(t);
    if c.InLeft? { HeightZero(c.r); } else { HeightZero(c.l); }
  }

  /** Whether p is the right child of its parent tells which link holds it. */
  lemma LinkSide(c: Context, t: Tree, head: VarEnt)
    requires t.Node? && At(c, t, head)
    ensures t.item.ent.parent == Holder(c, head)
    ensures Holder(c, head).right == t.item.ent <==> Side(c) == 1
  {
  }

  /** Going up one step with an equivalent subtree changes no stored item. */
  lemma SequenceUp(c: Context, t: Tree, u: Tree)
    requires !c.Top? && InOrder(u) == InOrder(Enclose(c, t)) && Nodes(u) == Nodes(Enclose(c, t))
    ensures Pre(Parent(c)) + InOrder(u) + Post(Parent(c)) == Pre(c) + InOrder(t) + Post(c)
    ensures ContextNodes(Parent(c)) + Nodes(u) == ContextNodes(c) + Nodes(t)
  {
    match c
    case InLeft(up, it, _, r) => Regroup(Pre(up), InOrder(t), [it], InOrder(r), Post(up));
    case InRight(l, it, _, up) => Regroup(Pre(up), InOrder(l), [it], InOrder(t), Post(up));
  }

  /** The switch of the loop body, and the update of the link that holds p. */
  method Relink(head: VarEnt, p: VarEnt, f: int, d: int, ghost up: Context, ghost n: Tree)
    returns (q: VarEnt, pp: VarEnt, ff: int)
    requires n.Node? && p == n.item.ent && At(up, n, head) && -1 <= n.bal <= 1
    requires RightHeavy(f, d) && n.bal == 1 ==> n.r.Node? && -1 <= n.r.bal <= 1 && (n.r.bal == -1 ==> n.r.l.Node?)
    requires !RightHeavy(f, d) && n.bal == -1 ==> n.l.Node? && -1 <= n.l.bal <= 1 && (n.l.bal == 1 ==> n.l.r.Node?)
    modifies Nodes(n), Holder(up, head)
    ensures pp == Holder(up, head) && ff == Side(up)
    ensures At(up, Fix(n, f, d), head) && q == RootOf(Fix(n, f, d))
  {
    LinkSide(up, n, head);
    HolderApart(up, n, head);
    ghost var u := Fix(n, f, d);
    pp := p.parent;
    ff := if pp.right == p then 1 else 0;
    assert allocated(ContextNodes(up));
    if (f == 1) != (d == 1) {
      q := FixRight(p, n, pp);
    } else {
      q := FixLeft(p, n, pp);
    }
    assert RepAround(up, head, p);
    assert allocated(Nodes(u)) && pp !in Nodes(u);
    Attach(head, pp, ff, q, up, p);
    assert Rep(u, pp);
  }

  lemma HolderApart(c: Context, t: Tree, head: VarEnt)
    requires DistinctAround(c, head) && Nodes(t) !! ContextNodes(c) && head !in Nodes(t)
    ensures Holder(c, head) !in Nodes(t)
    ensures head !in ContextNodes(c)
  {
    HeadApart(c, head);
  }

  /** One pass of the loop at node p: its subtree comes out balanced and hangs in its
      place again. It is as high as before the change exactly when the loop stops
      here; otherwise it passes the same difference of one up. */
  method Pass(head: VarEnt, p: VarEnt, f: int, d: int, ghost c: Context, ghost t: Tree)
    returns (q: VarEnt, pp: VarEnt, ff: int, ghost u: Tree)
    requires !c.Top? && p == Holder(c, head) && f == Side(c) && At(c, t, head) && OffByOne(c, t, d)
    modifies Nodes(Enclose(c, t)), Holder(Parent(c), head)
    ensures pp == Holder(Parent(c), head) && ff == Side(Parent(c)) && q == RootOf(u)
    ensures u.Node? && Balanced(u) && At(Parent(c), u, head)
    ensures InOrder(u) == InOrder(Enclose(c, t)) && Nodes(u) == Nodes(Enclose(c, t))
    ensures if (q.bal == 0) != (d == 1) then BalancedAround(Parent(c), Height(u)) else OffByOne(Parent(c), u, d)
  {
    ghost var n := Enclose(c, t);
    AtUp(c, t, head);
    PassFacts(c, t, d);
    u := Fix(n, f, d);
    q, pp, ff := Relink(head, p, f, d, Parent(c), n);
  }

  /** What one pass needs and what it achieves, on the trees. */
  lemma PassFacts(c: Context, t: Tree, d: int)
    requires !c.Top? && OffByOne(c, t, d)
    ensures var n, f := Enclose(c, t), Side(c);
      n.Node? && -1 <= n.bal <= 1 &&
      (RightHeavy(f, d) && n.bal == 1 ==> n.r.Node? && -1 <= n.r.bal <= 1 && (n.r.bal == -1 ==> n.r.l.Node?)) &&
      (!RightHeavy(f, d) && n.bal == -1 ==> n.l.Node? && -1 <= n.l.bal <= 1 && (n.l.bal == 1 ==> n.l.r.Node?))
    ensures var n, f := Enclose(c, t), Side(c); var u := Fix(n, f, d);
      u.Node? && Balanced(u) && InOrder(u) == InOrder(n) && Nodes(u) == Nodes(n) &&
      if (u.bal == 0) != (d == 1) then BalancedAround(Parent(c), Height(u)) else OffByOne(Parent(c), u, d)
  {
    var n, f, h := Enclose(c, t), Side(c), HeightBefore(c, t, d);
    OffByOneDisturbs(c, t, d);
    DisturbedShape(n, f, d, h);
    FixRestores(n, f, d, h);
  }

  /** `balance(p, f, d)`: p holds, on its side f, a subtree that an insertion (d == 0)
      or deletion (d == 1) has made one level higher or lower than the factors above say. */
  method Balance(head: VarEnt, p0: VarEnt, f0: int, d: int, ghost c0: Context, ghost t0: Tree)
    returns (ghost tree: Tree)
    requires p0 == Holder(c0, head) && f0 == Side(c0) && At(c0, t0, head) && OffByOne(c0, t0, d)
    modifies ContextNodes(c0), Nodes(t0), head
    ensures At(Top, tree, head) && Balanced(tree)
    ensures InOrder(tree) == Pre(c0) + InOrder(t0) + Post(c0)
    ensures Nodes(tree) == ContextNodes(c0) + Nodes(t0)
  {
    var p, f := p0, f0;
    ghost var c, t := c0, t0;
    while p.parent != null
      invariant p == Holder(c, head) && f == Side(c) && At(c, t, head) && OffByOne(c, t, d)
      invariant Pre(c) + InOrder(t) + Post(c) == Pre(c0) + InOrder(t0) + Post(c0)
      invariant ContextNodes(c) + Nodes(t) == ContextNodes(c0) + Nodes(t0)
      decreases c
    {
      HolderWithin(c, t, head);
      var q, pp, ff, u := Pass(head, p, f, d, c, t);
      SequenceUp(c, t, u);
      c, t := Parent(c), u;
      if (q.bal == 0) != (d == 1) {
        break;
      }
      p, f := pp, ff;
    }
    tree := Plug(c, t);
    PlugBalanced(c, t);
    PlugInOrder(c, t);
    PlugNodes(c, t);
    AtPlug(c, t, head);
  }

  lemma HolderWithin(c: Context, t: Tree, head: VarEnt)
    ensures Holder(c, head) in ContextNodes(c) + {head}
    ensures !c.Top? ==>
      Nodes(Enclose(c, t)) + {Holder(Parent(c), head)} <= ContextNodes(c) + Nodes(t) + {head}
  {
  }

  // ---- finding positions -----------------------------------------------------------

  /** The position of node e in the tree Plug(c, t). */
  ghost function Locate(c: Context, t: Tree, e: VarEnt): (r: (Context, Tree))
    requires e in Nodes(t)
    ensures Plug(r.0, r.1) == Plug(c, t) && r.1.Node? && r.1.item.ent == e
    decreases t
  {
    if e == t.item.ent then (c, t)
    else if e in Nodes(t.l) then Locate(InLeft(c, t.item, t.bal, t.r), t.l, e)
    else Locate(InRight(t.l, t.item, t.bal, c), t.r, e)
  }

  /** Every item's node is among the tree's nodes, and no two items share one. */
  lemma {:induction false} ItemNodes(t: Tree)
    ensures forall i :: 0 <= i < |InOrder(t)| ==> InOrder(t)[i].ent in Nodes(t)
    ensures Distinct(t) ==> DistinctEnts(InOrder(t))
  {
    if t.Node? {
      ItemNodes(t.l);
      ItemNodes(t.r);
      var a, b := InOrder(t.l), InOrder(t.r);
      var s := InOrder(t);
      assert forall i :: 0 <= i < |a| ==> s[i] == a[i];
      assert s[|a|] == t.item;
      assert forall i :: |a| < i < |s| ==> s[i] == b[i - |a| - 1];
    }
  }

  ghost predicate DistinctEnts(s: seq<Item>) {
    forall i, j :: 0 <= i < j < |s| ==> s[i].ent != s[j].ent
  }

  /** A node determines where a sequence of items splits. */
  lemma SplitUnique(a: seq<Item>, x: Item, b: seq<Item>, a': seq<Item>, x': Item, b': seq<Item>)
    requires a + [x] + b == a' + [x'] + b' && x.ent == x'.ent && DistinctEnts(a + [x] + b)
    ensures a == a' && x == x' && b == b'
  {
    var s := a + [x] + b;
    assert s[|a|] == x && s[|a'|] == x';
    assert |a| == |a'|;
    assert a == s[..|a|] && a' == s[..|a|];
    assert b == s[|a| + 1..] && b' == s[|a| + 1..];
  }

  /** Names left of the position come before n, names right of it after. */
  ghost predicate Brackets(c: Context, n: Name) {
    (forall i :: 0 <= i < |Pre(c)| ==> Before(Pre(c)[i].name, n)) &&
    (forall i :: 0 <= i < |Post(c)| ==> Before(n, Post(c)[i].name))
  }

  /** One step of the search loop shared by `setq` and `adrof1`. */
  lemma Descend(c: Context, t: Tree, n: Name)
    requires t.Node? && Sorted(Pre(c) + InOrder(t) + Post(c)) && Brackets(c, n)
    ensures Before(n, t.item.name) ==> Brackets(InLeft(c, t.item, t.bal, t.r), n)
    ensures Before(t.item.name, n) ==> Brackets(InRight(t.l, t.item, t.bal, c), n)
  {
    var s := Pre(c) + InOrder(t) + Post(c);
    var k := |Pre(c)| + |InOrder(t.l)|;
    assert s[k] == t.item;
    if Before(n, t.item.name) {
      var post := Post(InLeft(c, t.item, t.bal, t.r));
      forall i | 0 <= i < |post| ensures Before(n, post[i].name) {
        assert post[i] == s[k + i];
        if i > 0 { CompareTransitive(n, t.item.name, post[i].name); }
      }
    }
    if Before(t.item.name, n) {
      var pre := Pre(InRight(t.l, t.item, t.bal, c));
      forall i | 0 <= i < |pre| ensures Before(pre[i].name, n) {
        assert pre[i] == s[i];
        if i < k { CompareTransitive(pre[i].name, t.item.name, n); }
      }
    }
  }

  /** A search that ends in an empty hole has shown the name absent. */
  lemma BracketsAbsent(c: Context, n: Name)
    requires Brackets(c, n)
    ensures n !in Contents(Pre(c) + Post(c))
  {
    CompareTotalOrder(n, n);
    ContentsKeys(Pre(c), n);
    ContentsKeys(Post(c), n);
    ContentsAppend(Pre(c), Post(c));
  }

  /** The item at a position holds the value the whole tree stores under its name. */
  lemma StoredAt(c: Context, t: Tree)
    requires t.Node? && Sorted(InOrder(Plug(c, t)))
    ensures var m := Contents(InOrder(Plug(c, t))); t.item.name in m && m[t.item.name] == t.item.vec
  {
    PlugInOrder(c, t);
    var a, b := Pre(c) + InOrder(t.l), InOrder(t.r) + Post(c);
    assert InOrder(Plug(c, t)) == a + [t.item] + b;
    SplitApart(a, t.item, b);
  }
}
