/** Taking a node out of the arena: what rb_erase writes before it rebalances,
    and why that opens exactly the gap that `Unlink` describes. */
module RbSplice {
  import opened RbShape
  import opened RbBalance

  /** A node with at most one child is bypassed by that child. */
  ghost predicate Bypassed(ns: seq<Node>, ns': seq<Node>, child: nat, k: Ctx) {
    && child < |ns| && Only(ns, ns', {child, Par(k)})
    && (child != 0 ==> ns'[child] == ns[child].(parent := Par(k)))
    && (!k.Top? ==> Par(k) < |ns| && ns'[Par(k)] == Relinked(k, ns[Par(k)], child))
  }

  lemma BypassRep(ns: seq<Node>, ns': seq<Node>, root: nat, t: Tree, k: Ctx)
    requires t.T? && RepZ(ns, root, t.id, t, k) && (t.l.E? || t.r.E?)
    requires Bypassed(ns, ns', RootId(Unlink(t, k).t), k)
    ensures var g := Unlink(t, k);
      RepZ(ns', if k.Top? then RootId(g.t) else root, RootId(g.t), g.t, g.k)
  {
    var c := Unlink(t, k).t;
    var child := RootId(c);
    DownL(ns, root, t, k);
    DownR(ns, root, t, k);
    RepPos(ns, child, t.id, c);
    CtxPos(ns, root, t.id, k);
    Reparent(ns, ns', {child, Par(k)}, child, t.id, Par(k), c);
    RefillHole(ns, ns', {child, Par(k)}, root, t.id, child, k);
  }

  /** Node `y` has taken over the links and the colour of node `z`. */
  ghost predicate TookOver(ns: seq<Node>, ns': seq<Node>, x: set<nat>, z: nat, y: nat, k: Ctx) {
    && Only(ns, ns', x) && 0 < z < |ns| && 0 < y < |ns|
    && ns'[y].left == ns[z].left && ns'[y].parent == ns[z].parent && ns'[y].color == ns[z].color
    && 0 < ns[z].left < |ns| && ns'[ns[z].left] == ns[ns[z].left].(parent := y)
    && (!k.Top? ==> Par(k) < |ns| && ns'[Par(k)] == Relinked(k, ns[Par(k)], y))
  }

  lemma TakeOverRep(ns: seq<Node>, ns': seq<Node>, x: set<nat>, root: nat, q: nat, q': nat,
                    k: Ctx, l: Tree, z: nat, c: Color, y: nat)
    requires RepCtx(ns, root, q, HoleR(k, l, z, c)) && l.T?
    requires TookOver(ns, ns', x, z, y, k) && ns'[y].right == q'
    requires x * CtxIds(k) <= {Par(k)} && x * Ids(l) <= {ns[z].left} && y !in Ids(l) && y !in CtxIds(k)
    ensures RepCtx(ns', if k.Top? then y else root, q', HoleR(k, l, y, c))
  {
    Reparent(ns, ns', x, ns[z].left, z, y, l);
    RefillHole(ns, ns', x, root, z, y, k);
  }

  /** The nodes between `z` and the hole keep their places under `y`; the first of
      them, `z`'s right child, gets `y` as its parent. */
  lemma {:induction false} SpineRep(ns: seq<Node>, ns': seq<Node>, x: set<nat>, root: nat, q: nat, up: Ctx,
                                    k: Ctx, l: Tree, z: nat, c: Color, y: nat)
    requires Spine(up, k, l, z, c) && RepCtx(ns, root, q, up) && l.T? && q != 0 && q !in CtxIds(up)
    requires TookOver(ns, ns', x, z, y, k) && ns'[y].right == ns[z].right < |ns|
    requires x * CtxIds(up) <= {ns[z].right, ns[z].left, Par(k)} && y !in CtxIds(up)
    requires up.HoleL? ==> ns'[ns[z].right] == ns[ns[z].right].(parent := y)
    ensures RepCtx(ns', if k.Top? then y else root, q, Renamed(up, y))
    decreases up
  {
    match up
    case HoleR(_, _, _, _) =>
      SpineApart(ns, root, q, up, k, l, z, c);
      CtxPos(ns, root, z, k);
      Touched(x, CtxIds(up), CtxIds(k), ns[z].right, ns[z].left, Par(k));
      Touched(x, CtxIds(up), Ids(l), ns[z].right, Par(k), ns[z].left);
      TakeOverRep(ns, ns', x, root, q, q, k, l, z, c, y);
    case HoleL(up2, id, _, r) =>
      SpineStep(ns, x, root, q, up, k, l, z, c);
      SpineRep(ns, ns', x, root, id, up2, k, l, z, c, y);
      RenamedIds(up2, y);
      FrameRep(ns, ns', x, ns[id].right, id, r);
  }

  /** Of a frame on the spine, only the topmost node is written to. */
  lemma SpineStep(ns: seq<Node>, x: set<nat>, root: nat, q: nat, up: Ctx, k: Ctx, l: Tree, z: nat, c: Color)
    requires up.HoleL? && Spine(up, k, l, z, c) && RepCtx(ns, root, q, up) && l.T?
    requires z < |ns| && x * CtxIds(up) <= {ns[z].right, ns[z].left, Par(k)}
    ensures up.up.HoleL? ==> up.id !in x
    ensures up.up.HoleR? ==> up.id == ns[z].right
    ensures x !! Ids(up.r)
    ensures x * CtxIds(up.up) <= {ns[z].right, ns[z].left, Par(k)}
  {
    var (id, r) := (up.id, up.r);
    CtxPos(ns, root, q, up);
    SpineApart(ns, root, id, up.up, k, l, z, c);
    assert id != ns[z].left && id != Par(k);
    if id in x { assert id in x * CtxIds(up); }
    Touched(x, CtxIds(up), Ids(r), ns[z].right, ns[z].left, Par(k));
    forall o | o in x * CtxIds(up.up) ensures o in {ns[z].right, ns[z].left, Par(k)} { assert o in x * CtxIds(up); }
  }

  lemma {:induction false} RenamedIds(k: Ctx, y: nat)
    ensures CtxIds(Renamed(k, y)) <= CtxIds(k) + {y}
    decreases k
  {
    match k
    case Top =>
    case HoleL(up, _, _, _) => RenamedIds(up, y);
    case HoleR(_, _, _, _) =>
  }

  lemma Touched(x: set<nat>, big: set<nat>, small: set<nat>, a: nat, b: nat, c: nat)
    requires x * big <= {a, b, c} && small <= big && a !in small && b !in small
    ensures x * small <= {c} && (c !in small ==> x !! small)
  {
    forall o | o in small ensures o == c || o !in x {
      if o in x { assert o in x * big; }
    }
  }

  /** Where the spine keeps the nodes that removal writes to. */
  lemma {:induction false} SpineApart(ns: seq<Node>, root: nat, q: nat, up: Ctx, k: Ctx, l: Tree, z: nat, c: Color)
    requires Spine(up, k, l, z, c) && RepCtx(ns, root, q, up) && l.T?
    ensures 0 < z < |ns| && {ns[z].left, z} <= CtxIds(up) && 0 !in CtxIds(up)
    ensures ns[z].left in Ids(l) && Ids(l) <= CtxIds(up) && CtxIds(k) <= CtxIds(up)
    ensures ns[z].left !in CtxIds(k) && z !in Ids(l) && z !in CtxIds(k) && Ids(l) !! CtxIds(k)
    ensures !k.Top? ==> Par(k) in CtxIds(k)
    ensures ns[z].parent == Par(k) && ns[z].color == c && ns[z].left == RootId(l)
    ensures if up.HoleR? then q == ns[z].right else ns[z].right in CtxIds(up) - CtxIds(k) - Ids(l) - {z}
    decreases up
  {
    CtxPos(ns, root, q, up);
    match up
    case HoleR(_, _, _, _) => RepPos(ns, ns[z].left, z, l); CtxPos(ns, root, z, k);
    case HoleL(up2, id, _, _) => SpineApart(ns, root, id, up2, k, l, z, c);
  }

  /** `z`'s right child has no left child and takes `z`'s place. */
  lemma DirectRep(ns: seq<Node>, ns': seq<Node>, root: nat, k: Ctx, l: Tree, z: nat, c: Color, y: nat, yc: Color, yr: Tree)
    requires RepZ(ns, root, y, T(E, y, yc, yr), HoleR(k, l, z, c)) && l.T?
    requires TookOver(ns, ns', {y, ns[z].left, Par(k)}, z, y, k) && ns'[y].right == ns[y].right
    ensures RepZ(ns', if k.Top? then y else root, RootId(yr), yr, HoleR(k, l, y, c))
  {
    var up := HoleR(k, l, z, c);
    SpineApart(ns, root, y, up, k, l, z, c);
    DownR(ns, root, T(E, y, yc, yr), up);
    CtxPos(ns, root, y, up);
    RepPos(ns, ns[y].right, y, yr);
    FrameRep(ns, ns', {y, ns[z].left, Par(k)}, ns[y].right, y, yr);
    TakeOverRep(ns, ns', {y, ns[z].left, Par(k)}, root, y, RootId(yr), k, l, z, c, y);
  }

  /** The successor `y` sits further down: its right child takes its place there. */
  ghost predicate Lifted(ns: seq<Node>, ns': seq<Node>, z: nat, y: nat, p: nat, k: Ctx) {
    && 0 < z < |ns| && 0 < y < |ns| && 0 < p < |ns| && ns[y].right < |ns| && 0 < ns[z].right < |ns|
    && TookOver(ns, ns', {y, ns[y].right, p, ns[z].right, ns[z].left, Par(k)}, z, y, k)
    && ns'[y].right == ns[z].right
    && (ns[y].right != 0 ==> ns'[ns[y].right] == ns[ns[y].right].(parent := p))
    && ns'[p] == (if p == ns[z].right then ns[p].(left := ns[y].right, parent := y) else ns[p].(left := ns[y].right))
    && (p != ns[z].right ==> ns'[ns[z].right] == ns[ns[z].right].(parent := y))
  }

  lemma LiftRep(ns: seq<Node>, ns': seq<Node>, root: nat, up: Ctx, k: Ctx, l: Tree, z: nat, c: Color,
                p: nat, pc: Color, pr: Tree, y: nat, yc: Color, yr: Tree)
    requires RepZ(ns, root, y, T(E, y, yc, yr), HoleL(up, p, pc, pr)) && Spine(up, k, l, z, c) && l.T?
    requires Lifted(ns, ns', z, y, p, k)
    ensures RepZ(ns', if k.Top? then y else root, RootId(yr), yr, Renamed(HoleL(up, p, pc, pr), y))
  {
    var x := {y, ns[y].right, p, ns[z].right, ns[z].left, Par(k)};
    var ky := HoleL(up, p, pc, pr);
    DownR(ns, root, T(E, y, yc, yr), ky);
    LiftSets(ns, x, root, up, k, l, z, c, p, pc, pr, y, yc, yr);
    DownR(ns, root, T(E, y, yc, yr), ky);
    Reparent(ns, ns', x, ns[y].right, y, p, yr);
    FrameRep(ns, ns', x, ns[p].right, p, pr);
    SpineRep(ns, ns', x, root, p, up, k, l, z, c, y);
    RenamedIds(up, y);
  }

  lemma LiftSets(ns: seq<Node>, x: set<nat>, root: nat, up: Ctx, k: Ctx, l: Tree, z: nat, c: Color,
                 p: nat, pc: Color, pr: Tree, y: nat, yc: Color, yr: Tree)
    requires RepZ(ns, root, y, T(E, y, yc, yr), HoleL(up, p, pc, pr)) && Spine(up, k, l, z, c) && l.T?
    requires z < |ns| && x == {y, RootId(yr), p, ns[z].right, ns[z].left, Par(k)}
    ensures y < |ns| && ns[y].right == RootId(yr) && 0 < p < |ns|
    ensures x * Ids(yr) <= {RootId(yr)} && x !! Ids(pr)
    ensures x * CtxIds(up) <= {ns[z].right, ns[z].left, Par(k)} && y !in CtxIds(up)
    ensures up.HoleR? <==> p == ns[z].right
  {
    var ky := HoleL(up, p, pc, pr);
    CtxPos(ns, root, y, ky);
    SpineApart(ns, root, p, up, k, l, z, c);
    DownR(ns, root, T(E, y, yc, yr), ky);
    YoungFacts(ns, y, Par(ky), yc, yr);
    assert {y} + Ids(yr) !! CtxIds(ky) && p in CtxIds(ky) && Ids(pr) <= CtxIds(ky) && CtxIds(up) <= CtxIds(ky);
    CutSets(x, Ids(yr), Ids(pr), CtxIds(up), y, RootId(yr), p, ns[z].right, ns[z].left, Par(k));
  }

  lemma YoungFacts(ns: seq<Node>, y: nat, par: nat, yc: Color, yr: Tree)
    requires Rep(ns, y, par, T(E, y, yc, yr))
    ensures y !in Ids(yr) && 0 !in Ids(yr) && Ids(T(E, y, yc, yr)) == {y} + Ids(yr)
    ensures RootId(yr) != 0 ==> RootId(yr) in Ids(yr)
  {
    RepPos(ns, ns[y].right, y, yr);
  }

  lemma CutSets(x: set<nat>, a: set<nat>, b: set<nat>, c: set<nat>, y: nat, r: nat, p: nat, zr: nat, zl: nat, pk: nat)
    requires x == {y, r, p, zr, zl, pk}
    requires y !in a && y !in b && y !in c && 0 !in a && 0 !in b && 0 !in c
    requires p !in a && p !in b && p !in c && a !! b && a !! c && b !! c
    requires (r != 0 ==> r in a) && (zr == p || zr in c) && zl in c && (pk != 0 ==> pk in c)
    ensures x * a <= {r} && x !! b && x * c <= {zr, zl, pk}
  {
  }

  /** The nodes rb_erase writes to when `z` has two children and `y` is its
      successor are distinct, up to the overlaps the code allows for. */
  ghost predicate SpliceReady(ns: seq<Node>, z: nat, y: nat, k: Ctx) {
    && 0 < z < |ns| && 0 < y < |ns| && 0 < ns[z].left < |ns| && 0 < ns[z].right < |ns|
    && Par(k) < |ns| && (k.Top? <==> Par(k) == 0) && ns[z].parent == Par(k)
    && (k.HoleL? ==> ns[Par(k)].left == z) && (k.HoleR? ==> ns[Par(k)].left != z)
    && 0 < ns[y].parent < |ns| && ns[y].right < |ns|
    && z !in {y, ns[z].left, ns[z].right, ns[y].right, Par(k)}
    && y !in {ns[z].left, ns[y].right, Par(k), ns[y].parent}
    && ns[z].left !in {Par(k), ns[y].parent, ns[y].right, ns[z].right}
    && (Par(k) != 0 ==> Par(k) !in {ns[y].parent, ns[y].right, ns[z].right})
    && (ns[y].parent != z ==> ns[y].right !in {ns[y].parent, ns[z].right} && y != ns[z].right)
  }

  lemma SpliceFacts(ns: seq<Node>, root: nat, t: Tree, k: Ctx, y: Tree, ky: Ctx)
    requires t.T? && t.l.T? && t.r.T? && RepZ(ns, root, t.id, t, k)
    requires y.T? && y.l.E? && RepZ(ns, root, y.id, y, ky) && Spine(ky, k, t.l, t.id, t.c)
    ensures SpliceReady(ns, t.id, y.id, k)
    ensures ns[y.id].parent == Par(ky) && ns[y.id].right == RootId(y.r)
    ensures ns[y.id].parent == t.id <==> ky.HoleR?
    ensures y.id < |ns| && ns[y.id].color == y.c && Ids(y) == {y.id} + Ids(y.r)
  {
    var z := t.id;
    SpineApart(ns, root, y.id, ky, k, t.l, z, t.c);
    assert y == T(E, y.id, y.c, y.r);
    YoungFacts(ns, y.id, Par(ky), y.c, y.r);
    DownR(ns, root, y, ky);
    CtxPos(ns, root, y.id, ky);
    CtxPos(ns, root, z, k);
    SideFacts(ns, root, z, t, k);
    DownR(ns, root, t, k);
    if ky.HoleR? {
      assert ns[z].right == y.id && Par(ky) == z;
    } else {
      SpineApart(ns, root, ky.id, ky.up, k, t.l, z, t.c);
    }
  }

  /** Which child of its parent a node is can be read off the left link. */
  lemma SideFacts(ns: seq<Node>, root: nat, p: nat, t: Tree, k: Ctx)
    requires t.T? && RepZ(ns, root, p, t, k)
    ensures !k.Top? ==> Par(k) < |ns|
    ensures k.HoleL? ==> ns[Par(k)].left == p
    ensures k.HoleR? ==> ns[Par(k)].left != p && ns[Par(k)].right == p
  {
    if k.HoleR? { RepPos(ns, ns[Par(k)].left, Par(k), k.l); }
  }
}
