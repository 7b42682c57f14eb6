/** Shapes of red-black trees: trees and one-hole contexts over an arena of
    linked nodes, with the invariants that the rebalancing code relies on.
    Node 0 stands for NULL. */
module RbShape {

  datatype Color = Red | Black

  /** One `struct rb_node`: two child links and the packed parent/colour word. */
  datatype Node = Node(left: nat, right: nat, parent: nat, color: Color)

  datatype Tree = E | T(l: Tree, id: nat, c: Color, r: Tree)

  /** A tree with one hole, read from the hole towards the root. */
  datatype Ctx =
    | Top
    | HoleL(up: Ctx, id: nat, c: Color, r: Tree)
    | HoleR(up: Ctx, l: Tree, id: nat, c: Color)

  function Plug(k: Ctx, t: Tree): Tree
    decreases k
  {
    match k
    case Top => t
    case HoleL(up, id, c, r) => Plug(up, T(t, id, c, r))
    case HoleR(up, l, id, c) => Plug(up, T(l, id, c, t))
  }

  /** The parent of the hole, filled with `t`. */
  function Fill(k: Ctx, t: Tree): Tree
    requires !k.Top?
  {
    match k
    case HoleL(_, id, c, r) => T(t, id, c, r)
    case HoleR(_, l, id, c) => T(l, id, c, t)
  }

  ghost function Ids(t: Tree): set<nat> {
    match t
    case E => {}
    case T(l, id, _, r) => Ids(l) + {id} + Ids(r)
  }

  ghost function CtxIds(k: Ctx): set<nat> {
    match k
    case Top => {}
    case HoleL(up, id, _, r) => CtxIds(up) + {id} + Ids(r)
    case HoleR(up, l, id, _) => CtxIds(up) + {id} + Ids(l)
  }

  function RootId(t: Tree): nat {
    match t
    case E => 0
    case T(_, id, _, _) => id
  }

  function Par(k: Ctx): nat {
    match k
    case Top => 0
    case HoleL(_, id, _, _) => id
    case HoleR(_, _, id, _) => id
  }

  function Depth(k: Ctx): nat {
    match k
    case Top => 0
    case HoleL(up, _, _, _) => 1 + Depth(up)
    case HoleR(up, _, _, _) => 1 + Depth(up)
  }

  /** The nodes of a tree from left to right: its contents in search order. */
  function Inorder(t: Tree): seq<nat> {
    match t
    case E => []
    case T(l, id, _, r) => Inorder(l) + [id] + Inorder(r)
  }

  function Before(k: Ctx): seq<nat> {
    match k
    case Top => []
    case HoleL(up, _, _, _) => Before(up)
    case HoleR(up, l, id, _) => Before(up) + Inorder(l) + [id]
  }

  function After(k: Ctx): seq<nat> {
    match k
    case Top => []
    case HoleL(up, id, _, r) => [id] + Inorder(r) + After(up)
    case HoleR(up, _, _, _) => After(up)
  }

  lemma Cat5(a: seq<nat>, b: seq<nat>, c: seq<nat>, d: seq<nat>, e: seq<nat>)
    ensures a + (b + c + d) + e == a + b + (c + d + e)
    ensures a + (b + c + d) + e == (a + b + c) + d + e
  {
  }

  lemma {:induction false} InorderPlug(k: Ctx, t: Tree)
    ensures Inorder(Plug(k, t)) == Before(k) + Inorder(t) + After(k)
    decreases k
  {
    match k
    case Top =>
    case HoleL(up, id, c, r) =>
      InorderPlug(up, T(t, id, c, r));
      Cat5(Before(up), Inorder(t), [id], Inorder(r), After(up));
    case HoleR(up, l, id, c) =>
      InorderPlug(up, T(l, id, c, t));
      Cat5(Before(up), Inorder(l), [id], Inorder(t), After(up));
  }

  lemma {:induction false} IdsPlug(k: Ctx, t: Tree)
    ensures Ids(Plug(k, t)) == CtxIds(k) + Ids(t)
    decreases k
  {
    match k
    case Top =>
    case HoleL(up, id, c, r) => IdsPlug(up, T(t, id, c, r));
    case HoleR(up, l, id, c) => IdsPlug(up, T(l, id, c, t));
  }

  lemma {:induction false} InorderIds(t: Tree)
    ensures forall x :: x in Ids(t) <==> x in Inorder(t)
  {
    match t
    case E =>
    case T(l, id, _, r) => InorderIds(l); InorderIds(r);
  }

  // ---------- rotations of shapes ----------

  function RotL(t: Tree): Tree
    requires t.T? && t.r.T?
  {
    T(T(t.l, t.id, t.c, t.r.l), t.r.id, t.r.c, t.r.r)
  }

  function RotR(t: Tree): Tree
    requires t.T? && t.l.T?
  {
    T(t.l.l, t.l.id, t.l.c, T(t.l.r, t.id, t.c, t.r))
  }

  lemma RotLSame(t: Tree)
    requires t.T? && t.r.T?
    ensures Ids(RotL(t)) == Ids(t) && Inorder(RotL(t)) == Inorder(t)
  {
    var T(l, n, c, T(rl, r, rc, rr)) := t;
    assert t == T(l, n, c, T(rl, r, rc, rr)) && RotL(t) == T(T(l, n, c, rl), r, rc, rr);
    Regroup(Inorder(l), n, Inorder(rl), r, Inorder(rr));
  }

  lemma Regroup(a: seq<nat>, n: nat, b: seq<nat>, r: nat, c: seq<nat>)
    ensures a + [n] + (b + [r] + c) == (a + [n] + b) + [r] + c
  {
  }

  lemma RotRSame(t: Tree)
    requires t.T? && t.l.T?
    ensures Ids(RotR(t)) == Ids(t) && Inorder(RotR(t)) == Inorder(t)
  {
    RotLSame(RotR(t));
    assert RotL(RotR(t)) == t;
  }

  /** Replacing a subtree by one with the same nodes in the same order. */
  lemma {:induction false} SameOrder(k: Ctx, t: Tree, t': Tree)
    requires Inorder(t) == Inorder(t')
    ensures Inorder(Plug(k, t)) == Inorder(Plug(k, t'))
  {
    InorderPlug(k, t);
    InorderPlug(k, t');
  }

  // ---------- how a tree lies in the arena ----------

  /** `p` points at `t`, whose nodes are distinct and whose parent links agree. */
  ghost predicate Rep(ns: seq<Node>, p: nat, par: nat, t: Tree)
    decreases t
  {
    match t
    case E => p == 0
    case T(l, id, c, r) =>
      && p == id && 0 < id < |ns|
      && ns[id].parent == par && ns[id].color == c
      && Rep(ns, ns[id].left, id, l) && Rep(ns, ns[id].right, id, r)
      && id !in Ids(l) && id !in Ids(r) && Ids(l) !! Ids(r)
  }

  /** `p` is what the hole of `k` holds. */
  ghost predicate RepCtx(ns: seq<Node>, root: nat, p: nat, k: Ctx)
    decreases k
  {
    match k
    case Top => p == root
    case HoleL(up, id, c, r) =>
      && 0 < id < |ns| && ns[id].left == p
      && ns[id].parent == Par(up) && ns[id].color == c
      && Rep(ns, ns[id].right, id, r) && RepCtx(ns, root, id, up)
      && id !in Ids(r) && id !in CtxIds(up) && Ids(r) !! CtxIds(up)
    case HoleR(up, l, id, c) =>
      && 0 < id < |ns| && ns[id].right == p
      && ns[id].parent == Par(up) && ns[id].color == c
      && Rep(ns, ns[id].left, id, l) && RepCtx(ns, root, id, up)
      && id !in Ids(l) && id !in CtxIds(up) && Ids(l) !! CtxIds(up)
  }

  /** The whole arena tree, cut at `p`. */
  ghost predicate RepZ(ns: seq<Node>, root: nat, p: nat, t: Tree, k: Ctx) {
    Rep(ns, p, Par(k), t) && RepCtx(ns, root, p, k) && Ids(t) !! CtxIds(k)
  }

  /** All the nodes of a tree that is cut in two. */
  ghost function Span(t: Tree, k: Ctx): set<nat> { Ids(t) + CtxIds(k) }

  /** The two arenas differ at most on the nodes in `x`. */
  ghost predicate Only(ns: seq<Node>, ns': seq<Node>, x: set<nat>) {
    |ns| == |ns'| && forall i :: 0 < i < |ns| && i !in x ==> ns'[i] == ns[i]
  }

  lemma {:induction false} FrameRep(ns: seq<Node>, ns': seq<Node>, x: set<nat>, p: nat, par: nat, t: Tree)
    requires Rep(ns, p, par, t) && Only(ns, ns', x) && x !! Ids(t)
    ensures Rep(ns', p, par, t)
    decreases t
  {
    match t
    case E =>
    case T(l, id, _, r) =>
      FrameRep(ns, ns', x, ns[id].left, id, l);
      FrameRep(ns, ns', x, ns[id].right, id, r);
  }

  /** Hanging a subtree under another parent changes only its root's link. */
  lemma {:induction false} Reparent(ns: seq<Node>, ns': seq<Node>, x: set<nat>, p: nat, par: nat, par': nat, t: Tree)
    requires Rep(ns, p, par, t) && Only(ns, ns', x) && x * Ids(t) <= {p}
    requires t.T? ==> ns'[p] == ns[p].(parent := par')
    ensures Rep(ns', p, par', t)
  {
    match t
    case E =>
    case T(l, id, _, r) =>
      FrameRep(ns, ns', x, ns[id].left, id, l);
      FrameRep(ns, ns', x, ns[id].right, id, r);
  }

  lemma {:induction false} FrameCtx(ns: seq<Node>, ns': seq<Node>, x: set<nat>, root: nat, p: nat, k: Ctx)
    requires RepCtx(ns, root, p, k) && Only(ns, ns', x) && x !! CtxIds(k)
    ensures RepCtx(ns', root, p, k)
    decreases k
  {
    match k
    case Top =>
    case HoleL(up, id, _, r) =>
      FrameRep(ns, ns', x, ns[id].right, id, r);
      FrameCtx(ns, ns', x, root, id, up);
    case HoleR(up, l, id, _) =>
      FrameRep(ns, ns', x, ns[id].left, id, l);
      FrameCtx(ns, ns', x, root, id, up);
  }

  /** The node above the hole, with its link into the hole set to `q`. */
  function Relinked(k: Ctx, n: Node, q: nat): Node {
    match k
    case Top => n
    case HoleL(_, _, _, _) => n.(left := q)
    case HoleR(_, _, _, _) => n.(right := q)
  }

  /** Overwriting the link (or the root pointer) that leads into the hole. */
  lemma {:induction false} RefillHole(ns: seq<Node>, ns': seq<Node>, x: set<nat>, root: nat, p: nat, q: nat, k: Ctx)
    requires RepCtx(ns, root, p, k) && Only(ns, ns', x) && x * CtxIds(k) <= {Par(k)}
    requires !k.Top? ==> Par(k) < |ns| && ns'[Par(k)] == Relinked(k, ns[Par(k)], q)
    ensures RepCtx(ns', if k.Top? then q else root, q, k)
  {
    match k
    case Top =>
    case HoleL(up, id, _, r) =>
      FrameRep(ns, ns', x, ns[id].right, id, r);
      FrameCtx(ns, ns', x, root, id, up);
    case HoleR(up, l, id, _) =>
      FrameRep(ns, ns', x, ns[id].left, id, l);
      FrameCtx(ns, ns', x, root, id, up);
  }

  lemma {:induction false} RepPos(ns: seq<Node>, p: nat, par: nat, t: Tree)
    requires Rep(ns, p, par, t)
    ensures 0 !in Ids(t) && p == RootId(t) && (t.T? ==> p in Ids(t))
    decreases t
  {
    match t
    case E =>
    case T(l, id, _, r) =>
      RepPos(ns, ns[id].left, id, l);
      RepPos(ns, ns[id].right, id, r);
  }

  lemma {:induction false} CtxPos(ns: seq<Node>, root: nat, p: nat, k: Ctx)
    requires RepCtx(ns, root, p, k)
    ensures 0 !in CtxIds(k) && (k.Top? <==> Par(k) == 0) && (Par(k) != 0 ==> Par(k) in CtxIds(k))
    ensures Par(k) != 0 ==> Par(k) < |ns|
    decreases k
  {
    match k
    case Top =>
    case HoleL(up, id, _, r) =>
      RepPos(ns, ns[id].right, id, r);
      CtxPos(ns, root, id, up);
    case HoleR(up, l, id, _) =>
      RepPos(ns, ns[id].left, id, l);
      CtxPos(ns, root, id, up);
  }

  // Moving the cut down and up.

  lemma DownL(ns: seq<Node>, root: nat, t: Tree, k: Ctx)
    requires t.T? && RepZ(ns, root, t.id, t, k)
    ensures 0 < t.id < |ns| && ns[t.id].left == RootId(t.l)
    ensures RepZ(ns, root, ns[t.id].left, t.l, HoleL(k, t.id, t.c, t.r))
    ensures Span(t.l, HoleL(k, t.id, t.c, t.r)) == Span(t, k)
  {
    RepPos(ns, ns[t.id].left, t.id, t.l);
  }

  lemma DownR(ns: seq<Node>, root: nat, t: Tree, k: Ctx)
    requires t.T? && RepZ(ns, root, t.id, t, k)
    ensures 0 < t.id < |ns| && ns[t.id].right == RootId(t.r)
    ensures RepZ(ns, root, ns[t.id].right, t.r, HoleR(k, t.l, t.id, t.c))
    ensures Span(t.r, HoleR(k, t.l, t.id, t.c)) == Span(t, k)
  {
    RepPos(ns, ns[t.id].right, t.id, t.r);
  }

  lemma GoUp(ns: seq<Node>, root: nat, p: nat, t: Tree, k: Ctx)
    requires !k.Top? && RepZ(ns, root, p, t, k)
    ensures RepZ(ns, root, Par(k), Fill(k, t), k.up)
    ensures Span(Fill(k, t), k.up) == Span(t, k)
  {
  }

  lemma {:induction false} PlugRep(ns: seq<Node>, root: nat, p: nat, t: Tree, k: Ctx)
    requires RepZ(ns, root, p, t, k)
    ensures Rep(ns, root, 0, Plug(k, t))
    decreases k
  {
    match k
    case Top =>
    case HoleL(up, id, c, r) => PlugRep(ns, root, id, T(t, id, c, r), up);
    case HoleR(up, l, id, c) => PlugRep(ns, root, id, T(l, id, c, t), up);
  }

  lemma {:induction false} UnplugRep(ns: seq<Node>, root: nat, t: Tree, k: Ctx)
    requires Rep(ns, root, 0, Plug(k, t))
    ensures RepZ(ns, root, RootId(t), t, k)
    decreases k
  {
    match k
    case Top =>
    case HoleL(up, id, c, r) =>
      UnplugRep(ns, root, T(t, id, c, r), up);
      assert Rep(ns, ns[id].left, id, t);
    case HoleR(up, l, id, c) =>
      UnplugRep(ns, root, T(l, id, c, t), up);
      assert Rep(ns, ns[id].right, id, t);
  }

  /** Where node `n` sits in a tree. */
  ghost function Locate(t: Tree, k: Ctx, n: nat): (z: (Tree, Ctx))
    requires n in Ids(t)
    ensures z.0.T? && z.0.id == n
    ensures Plug(z.1, z.0) == Plug(k, t)
    decreases t
  {
    var T(l, id, c, r) := t;
    if id == n then (t, k)
    else if n in Ids(l) then Locate(l, HoleL(k, id, c, r), n)
    else Locate(r, HoleR(k, l, id, c), n)
  }

  // ---------- red-black invariants ----------

  predicate IsBlack(t: Tree) { t.T? ==> t.c == Black }

  /** No red node has a red child and every path down meets `h` black nodes. */
  ghost predicate RB(t: Tree, h: nat) {
    match t
    case E => h == 0
    case T(l, _, Black, r) => h > 0 && RB(l, h - 1) && RB(r, h - 1)
    case T(l, _, Red, r) => IsBlack(l) && IsBlack(r) && RB(l, h) && RB(r, h)
  }

  /** The node above the hole exists and is black. */
  predicate HeadBlack(k: Ctx) { !k.Top? && k.c == Black }

  predicate HeadRed(k: Ctx) { !k.Top? && k.c == Red }

  /** `k` is red-black once its hole is filled by a tree of black height `h`
      (black, when the node above the hole is red). */
  ghost predicate CtxRB(k: Ctx, h: nat) {
    match k
    case Top => true
    case HoleL(up, _, Black, r) => RB(r, h) && CtxRB(up, h + 1)
    case HoleL(up, _, Red, r) => IsBlack(r) && RB(r, h) && CtxRB(up, h) && HeadBlack(up)
    case HoleR(up, l, _, Black) => RB(l, h) && CtxRB(up, h + 1)
    case HoleR(up, l, _, Red) => IsBlack(l) && RB(l, h) && CtxRB(up, h) && HeadBlack(up)
  }

  ghost predicate IsRedBlack(t: Tree) {
    IsBlack(t) && exists h: nat :: RB(t, h)
  }

  lemma {:induction false} PlugRB(k: Ctx, t: Tree, h: nat)
    requires RB(t, h) && CtxRB(k, h) && (IsBlack(t) || HeadBlack(k))
    ensures IsRedBlack(Plug(k, t))
    decreases k
  {
    match k
    case Top =>
    case HoleL(up, id, c, r) => PlugRB(up, T(t, id, c, r), if c == Black then h + 1 else h);
    case HoleR(up, l, id, c) => PlugRB(up, T(l, id, c, t), if c == Black then h + 1 else h);
  }

  lemma {:induction false} UnplugRB(k: Ctx, t: Tree) returns (h: nat)
    requires IsRedBlack(Plug(k, t))
    ensures RB(t, h) && CtxRB(k, h) && (IsBlack(t) || HeadBlack(k))
    decreases k
  {
    match k
    case Top => h :| RB(t, h);
    case HoleL(up, id, c, r) =>
      h := UnplugRB(up, T(t, id, c, r));
      h := if c == Black then h - 1 else h;
    case HoleR(up, l, id, c) =>
      h := UnplugRB(up, T(l, id, c, t));
      h := if c == Black then h - 1 else h;
  }

  // ---------- height ----------

  function Height(t: Tree): nat {
    match t
    case E => 0
    case T(l, _, _, r) => 1 + if Height(l) < Height(r) then Height(r) else Height(l)
  }

  function Pow2(n: nat): nat { if n == 0 then 1 else 2 * Pow2(n - 1) }

  lemma {:induction false} RBBounds(t: Tree, h: nat)
    requires RB(t, h)
    ensures Height(t) <= 2 * h + (if IsBlack(t) then 0 else 1)
    ensures Pow2(h) <= |Inorder(t)| + 1
    decreases t
  {
    match t
    case E =>
    case T(l, _, Black, r) => RBBounds(l, h - 1); RBBounds(r, h - 1);
    case T(l, _, Red, r) => RBBounds(l, h); RBBounds(r, h);
  }

  lemma {:induction false} Pow2Mono(a: nat, b: nat)
    requires a <= b
    ensures Pow2(a) <= Pow2(b)
    decreases b
  {
    if a < b { Pow2Mono(a, b - 1); }
  }

  lemma {:induction false} Pow2Double(h: nat)
    ensures Pow2(2 * h) == Pow2(h) * Pow2(h)
  {
    if h > 0 {
      Pow2Double(h - 1);
      assert Pow2(2 * h) == 2 * (2 * Pow2(2 * h - 2));
    }
  }

  /** A red-black tree of n nodes is at most 2 log2(n + 1) high. */
  lemma {:induction false} HeightBound(t: Tree)
    requires IsRedBlack(t)
    ensures Pow2(Height(t)) <= (|Inorder(t)| + 1) * (|Inorder(t)| + 1)
  {
    var h: nat :| RB(t, h);
    RBBounds(t, h);
    Pow2Mono(Height(t), 2 * h);
    Pow2Double(h);
    MulMono(Pow2(h), |Inorder(t)| + 1);
  }

  lemma MulMono(a: nat, b: nat)
    requires a <= b
    ensures a * a <= b * b
  {
    assert a * a <= a * b <= b * b;
  }
}
