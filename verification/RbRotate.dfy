/** What a rotation leaves in the arena, as pointwise facts, and why that is the
    rotated shape. */
module RbRotate {
  import opened RbShape

  /** Node `n` and its right child `r` (whose left child is `rl`) are rotated;
      the link that led to `n` from `par` is covered by `RefillHole`. */
  ghost predicate RotatedLeft(ns: seq<Node>, ns': seq<Node>, n: nat, r: nat, rl: nat, k: Ctx) {
    && 0 < n < |ns| && 0 < r < |ns| && rl < |ns|
    && Only(ns, ns', {n, r, rl, Par(k)})
    && ns'[n] == ns[n].(right := rl, parent := r)
    && ns'[r] == ns[r].(left := n, parent := ns[n].parent)
    && (rl != 0 ==> ns'[rl] == ns[rl].(parent := n))
    && (!k.Top? ==> Par(k) < |ns| && ns'[Par(k)] == Relinked(k, ns[Par(k)], r))
  }

  ghost predicate RotatedRight(ns: seq<Node>, ns': seq<Node>, n: nat, l: nat, lr: nat, k: Ctx) {
    && 0 < n < |ns| && 0 < l < |ns| && lr < |ns|
    && Only(ns, ns', {n, l, lr, Par(k)})
    && ns'[n] == ns[n].(left := lr, parent := l)
    && ns'[l] == ns[l].(right := n, parent := ns[n].parent)
    && (lr != 0 ==> ns'[lr] == ns[lr].(parent := n))
    && (!k.Top? ==> Par(k) < |ns| && ns'[Par(k)] == Relinked(k, ns[Par(k)], l))
  }

  /** The nodes a rotation writes are distinct and where the code looks for them. */
  lemma RotateLeftFacts(ns: seq<Node>, root: nat, t: Tree, k: Ctx)
    requires t.T? && t.r.T? && RepZ(ns, root, t.id, t, k)
    ensures 0 < t.id < |ns| && ns[t.id].right == t.r.id && ns[t.id].parent == Par(k)
    ensures 0 < t.r.id < |ns| && ns[t.r.id].left == RootId(t.r.l) < |ns|
    ensures {t.id, t.r.id, RootId(t.r.l)} <= Ids(t) + {0} && 0 !in Ids(t)
    ensures t.id != t.r.id && t.id != RootId(t.r.l) && t.r.id != RootId(t.r.l)
    ensures Par(k) !in Ids(t) && (k.Top? <==> Par(k) == 0) && Par(k) < |ns|
    ensures Par(k) != 0 ==> Par(k) in CtxIds(k)
    ensures k.HoleL? ==> ns[Par(k)].left == t.id
    ensures k.HoleR? ==> ns[Par(k)].right == t.id && ns[Par(k)].left != t.id
  {
    assert Rep(ns, ns[t.id].right, t.id, t.r);
    assert Rep(ns, ns[t.r.id].left, t.r.id, t.r.l);
    RepPos(ns, t.id, Par(k), t);
    RepPos(ns, ns[t.r.id].left, t.r.id, t.r.l);
    CtxPos(ns, root, t.id, k);
    if k.HoleR? { RepPos(ns, ns[Par(k)].left, Par(k), k.l); }
  }

  lemma RotateRightFacts(ns: seq<Node>, root: nat, t: Tree, k: Ctx)
    requires t.T? && t.l.T? && RepZ(ns, root, t.id, t, k)
    ensures 0 < t.id < |ns| && ns[t.id].left == t.l.id && ns[t.id].parent == Par(k)
    ensures 0 < t.l.id < |ns| && ns[t.l.id].right == RootId(t.l.r) < |ns|
    ensures {t.id, t.l.id, RootId(t.l.r)} <= Ids(t) + {0} && 0 !in Ids(t)
    ensures t.id != t.l.id && t.id != RootId(t.l.r) && t.l.id != RootId(t.l.r)
    ensures Par(k) !in Ids(t) && (k.Top? <==> Par(k) == 0) && Par(k) < |ns|
    ensures Par(k) != 0 ==> Par(k) in CtxIds(k)
    ensures k.HoleR? ==> ns[Par(k)].right == t.id
    ensures k.HoleL? ==> ns[Par(k)].left == t.id && ns[Par(k)].right != t.id
  {
    assert Rep(ns, ns[t.id].left, t.id, t.l);
    assert Rep(ns, ns[t.l.id].right, t.l.id, t.l.r);
    RepPos(ns, t.id, Par(k), t);
    RepPos(ns, ns[t.l.id].right, t.l.id, t.l.r);
    CtxPos(ns, root, t.id, k);
    if k.HoleL? { RepPos(ns, ns[Par(k)].right, Par(k), k.r); }
  }

  lemma RotateLeftTree(ns: seq<Node>, ns': seq<Node>, l: Tree, n: nat, c: Color, rl: Tree, r: nat, rc: Color, rr: Tree, k: Ctx)
    requires Rep(ns, n, Par(k), T(l, n, c, T(rl, r, rc, rr)))
    requires Par(k) !in Ids(T(l, n, c, T(rl, r, rc, rr)))
    requires 0 !in Ids(T(l, n, c, T(rl, r, rc, rr)))
    requires RotatedLeft(ns, ns', n, r, RootId(rl), k)
    ensures Rep(ns', r, Par(k), T(T(l, n, c, rl), r, rc, rr))
  {
    var t := T(rl, r, rc, rr);
    var rlid := RootId(rl);
    assert Rep(ns, ns[n].right, n, t);
    assert Rep(ns, ns[r].left, r, rl);
    assert Ids(T(l, n, c, t)) == Ids(l) + {n} + (Ids(rl) + {r} + Ids(rr));
    assert rl.T? ==> rlid in Ids(rl);
    var x := {n, r, rlid, Par(k)};
    assert n !in Ids(l) && r !in Ids(l) && rlid !in Ids(l);
    assert n !in Ids(rr) && r !in Ids(rr) && rlid !in Ids(rr);
    FrameRep(ns, ns', x, ns[n].left, n, l);
    FrameRep(ns, ns', x, ns[r].right, r, rr);
    Reparent(ns, ns', x, rlid, r, n, rl);
  }

  lemma RotateRightTree(ns: seq<Node>, ns': seq<Node>, ll: Tree, l: nat, lc: Color, lr: Tree, n: nat, c: Color, r: Tree, k: Ctx)
    requires Rep(ns, n, Par(k), T(T(ll, l, lc, lr), n, c, r))
    requires Par(k) !in Ids(T(T(ll, l, lc, lr), n, c, r))
    requires 0 !in Ids(T(T(ll, l, lc, lr), n, c, r))
    requires RotatedRight(ns, ns', n, l, RootId(lr), k)
    ensures Rep(ns', l, Par(k), T(ll, l, lc, T(lr, n, c, r)))
  {
    var t := T(ll, l, lc, lr);
    var lrid := RootId(lr);
    assert Rep(ns, ns[n].left, n, t);
    assert Rep(ns, ns[l].right, l, lr);
    assert Ids(T(t, n, c, r)) == (Ids(ll) + {l} + Ids(lr)) + {n} + Ids(r);
    assert lr.T? ==> lrid in Ids(lr);
    var x := {n, l, lrid, Par(k)};
    assert n !in Ids(r) && l !in Ids(r) && lrid !in Ids(r);
    assert n !in Ids(ll) && l !in Ids(ll) && lrid !in Ids(ll);
    FrameRep(ns, ns', x, ns[n].right, n, r);
    FrameRep(ns, ns', x, ns[l].left, l, ll);
    Reparent(ns, ns', x, lrid, l, n, lr);
  }

  /** A left rotation in the arena is a left rotation of the shape. */
  lemma RotateLeftRep(ns: seq<Node>, ns': seq<Node>, root: nat, t: Tree, k: Ctx)
    requires t.T? && t.r.T? && RepZ(ns, root, t.id, t, k)
    requires RotatedLeft(ns, ns', t.id, t.r.id, RootId(t.r.l), k)
    ensures RepZ(ns', if k.Top? then t.r.id else root, t.r.id, RotL(t), k)
    ensures Ids(RotL(t)) == Ids(t) && Inorder(RotL(t)) == Inorder(t)
  {
    RotateLeftFacts(ns, root, t, k);
    RotateLeftTree(ns, ns', t.l, t.id, t.c, t.r.l, t.r.id, t.r.c, t.r.r, k);
    CtxPos(ns, root, t.id, k);
    RefillHole(ns, ns', {t.id, t.r.id, RootId(t.r.l), Par(k)}, root, t.id, t.r.id, k);
    RotLSame(t);
  }

  lemma RotateRightRep(ns: seq<Node>, ns': seq<Node>, root: nat, t: Tree, k: Ctx)
    requires t.T? && t.l.T? && RepZ(ns, root, t.id, t, k)
    requires RotatedRight(ns, ns', t.id, t.l.id, RootId(t.l.r), k)
    ensures RepZ(ns', if k.Top? then t.l.id else root, t.l.id, RotR(t), k)
    ensures Ids(RotR(t)) == Ids(t) && Inorder(RotR(t)) == Inorder(t)
  {
    RotateRightFacts(ns, root, t, k);
    RotateRightTree(ns, ns', t.l.l, t.l.id, t.l.c, t.l.r, t.id, t.c, t.r, k);
    CtxPos(ns, root, t.id, k);
    RefillHole(ns, ns', {t.id, t.l.id, RootId(t.l.r), Par(k)}, root, t.id, t.l.id, k);
    RotRSame(t);
  }
}
