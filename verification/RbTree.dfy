/** The red-black tree of rbtree.c: rotations, insertion and removal with
    rebalancing through parent links, all on one arena of nodes. */
module RbTree {
  import opened RbShape
  import opened RbRotate
  import opened RbBalance
  import opened RbSplice
  import opened RbAugment
  import opened Seqs

  /** Recolouring the root of a subtree. */
  lemma RecolorRep(ns: seq<Node>, root: nat, t: Tree, k: Ctx, c: Color)
    requires t.T? && RepZ(ns, root, t.id, t, k)
    ensures t.id < |ns| && RepZ(ns[t.id := ns[t.id].(color := c)], root, t.id, t.(c := c), k)
  {
    var ns' := ns[t.id := ns[t.id].(color := c)];
    FrameRep(ns, ns', {t.id}, ns[t.id].left, t.id, t.l);
    FrameRep(ns, ns', {t.id}, ns[t.id].right, t.id, t.r);
    FrameCtx(ns, ns', {t.id}, root, t.id, k);
  }

  /** What rb_insert_color keeps: a red node, cut out of a tree whose only fault
      may be that the node's parent is red too. */
  ghost predicate InsertState(ns: seq<Node>, root: nat, node: nat, t: Tree, k: Ctx, h: nat) {
    RepZ(ns, root, node, t, k) && t.T? && t.c == Red && RB(t, h) && CtxRB(k, h)
  }

  /** A red parent has a black parent, and which child it is shows. */
  lemma GrandFacts(ns: seq<Node>, root: nat, node: nat, t: Tree, k: Ctx, h: nat)
    requires InsertState(ns, root, node, t, k, h) && HeadRed(k)
    ensures 0 < Par(k) < |ns| && !k.up.Top? && ns[Par(k)].parent == Par(k.up) && 0 < Par(k.up) < |ns|
    ensures k.up.HoleL? <==> ns[Par(k.up)].left == Par(k)
    ensures ns[Par(k)].right == node <==> k.HoleR?
    ensures ns[Par(k)].left == node <==> k.HoleL?
    ensures RepZ(ns, root, Par(k), Fill(k, t), k.up)
    ensures k.up.HoleL? ==> Rep(ns, ns[Par(k.up)].right, Par(k.up), k.up.r)
    ensures k.up.HoleR? ==> Rep(ns, ns[Par(k.up)].left, Par(k.up), k.up.l)
  {
    assert RepCtx(ns, root, Par(k), k.up);
    if k.up.HoleR? { RepPos(ns, ns[Par(k.up)].left, Par(k.up), k.up.l); }
    if k.HoleL? { RepPos(ns, ns[Par(k)].right, Par(k), k.r); } else { RepPos(ns, ns[Par(k)].left, Par(k), k.l); }
  }

  lemma {:induction false} PlugNode(k: Ctx, t: Tree)
    requires t.T?
    ensures Plug(k, t).T?
    decreases k
  {
    match k
    case Top =>
    case HoleL(up, id, c, r) => PlugNode(up, T(t, id, c, r));
    case HoleR(up, l, id, c) => PlugNode(up, T(l, id, c, t));
  }

  /** Black heights around a red node under a red parent. */
  lemma FlippedRB(t: Tree, k: Ctx, h: nat)
    requires t.T? && t.c == Red && RB(t, h) && CtxRB(k, h) && HeadRed(k)
    ensures !k.up.Top? && CtxRB(k.up.up, h + 1) && k.up.c == Black
    ensures k.up.HoleL? && !IsBlack(k.up.r) ==>
      RB(T(Blacken(Fill(k, t)), k.up.id, Red, Blacken(k.up.r)), h + 1)
    ensures k.up.HoleR? && !IsBlack(k.up.l) ==>
      RB(T(Blacken(k.up.l), k.up.id, Red, Blacken(Fill(k, t))), h + 1)
  {
    assert CtxRB(k.up, h);
    assert RB(Blacken(Fill(k, t)), h + 1);
  }

  lemma RotatedRB(t: Tree, k: Ctx, h: nat)
    requires t.T? && t.c == Red && RB(t, h) && CtxRB(k, h) && HeadRed(k)
    ensures !k.up.Top? && CtxRB(k.up.up, h + 1) && k.up.c == Black
    ensures RB(t.l, h) && RB(t.r, h) && IsBlack(t.l) && IsBlack(t.r)
    ensures k.HoleL? ==> RB(k.r, h) && IsBlack(k.r)
    ensures k.HoleR? ==> RB(k.l, h) && IsBlack(k.l)
    ensures k.up.HoleL? ==> RB(k.up.r, h)
    ensures k.up.HoleR? ==> RB(k.up.l, h)
  {
    assert CtxRB(k.up, h);
  }

  lemma LiftedShapeL(t: Tree, k: Ctx, t': Tree, k': Ctx)
    requires t.T? && HeadRed(k) && k.up.HoleL? && IsBlack(k.up.r)
    requires if k.HoleL? then t' == t && k' == HoleL(k.up.up, k.id, Black, T(k.r, k.up.id, Red, k.up.r))
             else t' == T(k.l, k.id, Red, t.l) && k' == HoleL(k.up.up, t.id, Black, T(t.r, k.up.id, Red, k.up.r))
    ensures InsertFix(t', k') == InsertFix(t, k) && Depth(k') < Depth(k)
  {
    assert Depth(k.up) == 1 + Depth(k.up.up);
  }

  lemma LiftedShapeR(t: Tree, k: Ctx, t': Tree, k': Ctx)
    requires t.T? && HeadRed(k) && k.up.HoleR? && IsBlack(k.up.l)
    requires if k.HoleR? then t' == t && k' == HoleR(k.up.up, T(k.up.l, k.up.id, Red, k.l), k.id, Black)
             else t' == T(t.r, k.id, Red, k.r) && k' == HoleR(k.up.up, T(k.up.l, k.up.id, Red, t.l), t.id, Black)
    ensures InsertFix(t', k') == InsertFix(t, k) && Depth(k') < Depth(k)
  {
    assert Depth(k.up) == 1 + Depth(k.up.up);
  }

  /** A black sibling turned so that its red child is on the far side. */
  function InnerL(o: Tree): Tree
    requires o.T? && o.l.T?
  {
    T(o.l.l, o.l.id, Black, T(o.l.r, o.id, Red, o.r))
  }

  function InnerR(o: Tree): Tree
    requires o.T? && o.r.T?
  {
    T(T(o.l, o.id, Red, o.r.l), o.r.id, Black, o.r.r)
  }

  /** A sibling with a red far child, rotated above its parent. */
  function OuterL(f: Tree): Tree
    requires f.T? && f.r.T?
  {
    T(T(f.l, f.id, Black, f.r.l), f.r.id, f.c, Blacken(f.r.r))
  }

  function OuterR(f: Tree): Tree
    requires f.T? && f.l.T?
  {
    T(Blacken(f.l.l), f.l.id, f.c, T(f.l.r, f.id, Black, f.r))
  }

  /** What __rb_erase_color keeps: the subtree at `node` is one black node short. */
  ghost predicate EraseState(ns: seq<Node>, root: nat, node: nat, parent: nat, t: Tree, k: Ctx, h: nat) {
    && RepZ(ns, root, node, t, k) && (!k.Top? ==> parent == Par(k))
    && Deficit(t, h) && CtxRB(k, h + 1)
  }

  lemma ChildColor(ns: seq<Node>, p: nat, par: nat, t: Tree)
    requires Rep(ns, p, par, t)
    ensures p == RootId(t) && (t.T? ==> p < |ns|)
    ensures IsBlack(t) <==> (p == 0 || (p < |ns| && ns[p].color == Black))
  {
  }

  /** The link to `z` is not among what is read or written next. */
  lemma RelinkKeeps(ns: seq<Node>, ns1: seq<Node>, z: nat, y: nat, k: Ctx)
    requires SpliceReady(ns, z, y, k) && Only(ns, ns1, {Par(k)})
    ensures |ns1| == |ns| && ns1[z] == ns[z] && ns1[y] == ns[y] && ns1[ns[z].left] == ns[ns[z].left]
  {
  }

  lemma TookOverBy(ns: seq<Node>, ns1: seq<Node>, ns': seq<Node>, z: nat, y: nat, k: Ctx)
    requires SpliceReady(ns, z, y, k) && Only(ns, ns1, {Par(k)})
    requires !k.Top? ==> ns1[Par(k)] == Relinked(k, ns[Par(k)], y)
    requires Copied(ns1, ns', z, y)
    ensures TookOver(ns, ns', {y, ns[z].left, Par(k)}, z, y, k) && ns'[y].right == ns[y].right
  {
    RelinkKeeps(ns, ns1, z, y, k);
    hide Relinked;
  }

  /** The writes of `LiftOut`. */
  ghost predicate LiftedOut(ns: seq<Node>, ns': seq<Node>, z: nat, y: nat, child: nat, parent: nat) {
    && 0 < z < |ns| && 0 < y < |ns| && child < |ns| && 0 < parent < |ns| && 0 < ns[z].right < |ns|
    && Only(ns, ns', {y, child, parent, ns[z].right})
    && ns'[y] == ns[y].(right := ns[z].right)
    && (child != 0 ==> ns'[child] == ns[child].(parent := parent))
    && ns'[parent] == (if parent == ns[z].right then ns[parent].(left := child, parent := y)
                       else ns[parent].(left := child))
    && (parent != ns[z].right ==> ns'[ns[z].right] == ns[ns[z].right].(parent := y))
  }

  /** The writes of `CopyLinks`. */
  ghost predicate Copied(ns: seq<Node>, ns': seq<Node>, z: nat, y: nat) {
    && 0 < z < |ns| && 0 < y < |ns| && 0 < ns[z].left < |ns|
    && Only(ns, ns', {y, ns[z].left})
    && ns'[y] == ns[y].(left := ns[z].left, parent := ns[z].parent, color := ns[z].color)
    && ns'[ns[z].left] == ns[ns[z].left].(parent := y)
  }

  lemma LiftKeeps(ns: seq<Node>, ns1: seq<Node>, ns2: seq<Node>, z: nat, y: nat, k: Ctx)
    requires SpliceReady(ns, z, y, k) && Only(ns, ns1, {Par(k)}) && ns[y].parent != z
    requires LiftedOut(ns1, ns2, z, y, ns[y].right, ns[y].parent)
    ensures |ns2| == |ns| && ns2[z] == ns[z] && ns2[ns[z].left] == ns[ns[z].left]
    ensures ns2[y] == ns[y].(right := ns[z].right) && (Par(k) != 0 ==> ns2[Par(k)] == ns1[Par(k)])
  {
  }

  lemma LiftedBy(ns: seq<Node>, ns1: seq<Node>, ns2: seq<Node>, ns': seq<Node>, z: nat, y: nat, k: Ctx)
    requires SpliceReady(ns, z, y, k) && Only(ns, ns1, {Par(k)}) && ns[y].parent != z
    requires !k.Top? ==> ns1[Par(k)] == Relinked(k, ns[Par(k)], y)
    requires LiftedOut(ns1, ns2, z, y, ns[y].right, ns[y].parent) && Copied(ns2, ns', z, y)
    ensures Lifted(ns, ns', z, y, ns[y].parent, k)
  {
    LiftKeeps(ns, ns1, ns2, z, y, k);
    hide Relinked;
  }

  lemma LeafFacts(ns: seq<Node>, root: nat, y: Tree, ky: Ctx)
    requires y.T? && RepZ(ns, root, y.id, y, ky)
    ensures 0 < y.id < |ns| && ns[y.id].right == RootId(y.r) && ns[y.id].parent == Par(ky)
    ensures y.r.T? <==> ns[y.id].right != 0
  {
    RepPos(ns, ns[y.id].right, y.id, y.r);
  }

  /** Where the gap is when the successor `y` has moved. */
  lemma AtGap(k: Ctx, l: Tree, z: nat, c: Color, y: Tree, ky: Ctx)
    requires y.T? && Spine(ky, k, l, z, c)
    ensures Par(Renamed(ky, y.id)) == if ky.HoleR? then y.id else Par(ky)
  {
  }

  lemma RootHere(ns: seq<Node>, root: nat, p: nat, t: Tree, k: Ctx)
    requires t.T? && RepZ(ns, root, p, t, k)
    ensures 0 < p < |ns| && p == t.id && ns[p].parent == Par(k) && RepZ(ns, root, t.id, t, k)
  {
  }

  lemma WholeTree(ns: seq<Node>, root: nat, t: Tree, h: nat)
    requires Rep(ns, root, 0, t) && RB(t, h) && IsBlack(t)
    ensures EraseState(ns, root, root, 0, t, Top, h)
  {
  }

  /** What the sibling's children are. */
  lemma NephewsL(ns: seq<Node>, root: nat, f: Tree, up: Ctx)
    requires f.T? && f.r.T? && RepZ(ns, root, f.id, f, up)
    ensures 0 < f.r.id < |ns| && ns[f.r.id].left < |ns| && ns[f.r.id].right < |ns|
    ensures IsBlack(f.r.l) <==> ns[f.r.id].left == 0 || ns[ns[f.r.id].left].color == Black
    ensures IsBlack(f.r.r) <==> ns[f.r.id].right == 0 || ns[ns[f.r.id].right].color == Black
  {
    assert Rep(ns, ns[f.id].right, f.id, f.r);
    ChildColor(ns, ns[f.r.id].left, f.r.id, f.r.l);
    ChildColor(ns, ns[f.r.id].right, f.r.id, f.r.r);
  }

  lemma NephewsR(ns: seq<Node>, root: nat, f: Tree, up: Ctx)
    requires f.T? && f.l.T? && RepZ(ns, root, f.id, f, up)
    ensures 0 < f.l.id < |ns| && ns[f.l.id].left < |ns| && ns[f.l.id].right < |ns|
    ensures IsBlack(f.l.l) <==> ns[f.l.id].left == 0 || ns[ns[f.l.id].left].color == Black
    ensures IsBlack(f.l.r) <==> ns[f.l.id].right == 0 || ns[ns[f.l.id].right].color == Black
  {
    assert Rep(ns, ns[f.id].left, f.id, f.l);
    ChildColor(ns, ns[f.l.id].left, f.l.id, f.l.l);
    ChildColor(ns, ns[f.l.id].right, f.l.id, f.l.r);
  }

  /** Settling is turning the sibling, if its far child is black, and then the parent. */
  lemma SettledIsL(f: Tree)
    requires f.T? && f.r.T? && !(IsBlack(f.r.l) && IsBlack(f.r.r))
    ensures SettledL(f.l, f.id, f.c, f.r) == OuterL(if IsBlack(f.r.r) then f.(r := InnerL(f.r)) else f)
  {
  }

  lemma SettledIsR(f: Tree)
    requires f.T? && f.l.T? && !(IsBlack(f.l.l) && IsBlack(f.l.r))
    ensures SettledR(f.r, f.id, f.c, f.l) == OuterR(if IsBlack(f.l.l) then f.(l := InnerR(f.l)) else f)
  {
  }

  lemma FixL(t: Tree, up: Ctx, p: nat, c: Color, o: Tree)
    requires o.T?
    ensures EraseFixL(t, up, p, c, o) ==
            if IsBlack(o.l) && IsBlack(o.r) then EraseFix(T(t, p, c, T(o.l, o.id, Red, o.r)), up)
            else EraseFix(Plug(up, SettledL(t, p, c, o)), Top)
  {
  }

  lemma FixR(t: Tree, up: Ctx, p: nat, c: Color, o: Tree)
    requires o.T?
    ensures EraseFixR(t, up, p, c, o) ==
            if IsBlack(o.l) && IsBlack(o.r) then EraseFix(T(T(o.l, o.id, Red, o.r), p, c, t), up)
            else EraseFix(Plug(up, SettledR(t, p, c, o)), Top)
  {
  }

  lemma ShortUp(t: Tree, o: Tree, h: nat)
    requires RB(t, h) && IsBlack(t) && o.T? && o.c == Black && RB(o, h + 1) && IsBlack(o.l) && IsBlack(o.r)
    ensures forall p, c :: Deficit(T(t, p, c, T(o.l, o.id, Red, o.r)), if c == Black then h + 1 else h)
    ensures forall p, c :: Deficit(T(T(o.l, o.id, Red, o.r), p, c, t), if c == Black then h + 1 else h)
  {
    assert RB(T(o.l, o.id, Red, o.r), h);
  }

  /** The sibling of a short subtree exists, and so do its children if it is red. */
  lemma SiblingRB(t: Tree, k: Ctx, h: nat)
    requires IsBlack(t) && Deficit(t, h) && CtxRB(k, h + 1) && !k.Top?
    ensures k.HoleL? ==> k.r.T? && RB(k.r, h + 1)
    ensures k.HoleL? && k.r.T? && k.r.c == Red ==>
      k.r.l.T? && k.r.l.c == Black && RB(k.r.l, h + 1) && RB(k.r.r, h + 1)
    ensures k.HoleR? ==> k.l.T? && RB(k.l, h + 1)
    ensures k.HoleR? && k.l.T? && k.l.c == Red ==>
      k.l.r.T? && k.l.r.c == Black && RB(k.l.r, h + 1) && RB(k.l.l, h + 1)
  {
    if k.HoleL? && k.r.T? && k.r.c == Red {
      assert RB(k.r.l, h + 1);
    } else if k.HoleR? && k.l.T? && k.l.c == Red {
      assert RB(k.l.r, h + 1);
    }
  }

  lemma LeftEmpty(ns: seq<Node>, root: nat, t: Tree, k: Ctx)
    requires t.T? && RepZ(ns, root, t.id, t, k) && t.id < |ns| && ns[t.id].left == 0
    ensures t.l.E?
  {
    DownL(ns, root, t, k);
    RepPos(ns, ns[t.id].left, t.id, t.l);
  }

  /** The successor `y` in place of the root of `t` leaves the gap of `Unlink`. */
  lemma UnlinkedRep(ns: seq<Node>, ns': seq<Node>, root: nat, t: Tree, k: Ctx, y: Tree, ky: Ctx)
    requires t.T? && t.l.T? && t.r.T? && RepZ(ns, root, t.id, t, k)
    requires y.T? && y.l.E? && RepZ(ns, root, y.id, y, ky) && Spine(ky, k, t.l, t.id, t.c)
    requires (y, ky) == Leftmost(t.r, HoleR(k, t.l, t.id, t.c)) && Span(y, ky) == Span(t, k)
    requires SpliceReady(ns, t.id, y.id, k) && ns[y.id].parent == Par(ky)
    requires if Par(ky) == t.id
      then TookOver(ns, ns', {y.id, ns[t.id].left, Par(k)}, t.id, y.id, k) && ns'[y.id].right == ns[y.id].right
      else Lifted(ns, ns', t.id, y.id, Par(ky), k)
    ensures var g := Unlink(t, k);
      && RepZ(ns', if k.Top? then y.id else root, RootId(g.t), g.t, g.k)
      && Span(g.t, g.k) <= Span(t, k) && Only(ns, ns', Span(t, k))
  {
    SpliceFacts(ns, root, t, k, y, ky);
    assert y == T(E, y.id, y.c, y.r);
    if ky.HoleR? {
      DirectRep(ns, ns', root, k, t.l, t.id, t.c, y.id, y.c, y.r);
    } else {
      LiftRep(ns, ns', root, ky.up, k, t.l, t.id, t.c, ky.id, ky.c, ky.r, y.id, y.c, y.r);
    }
    RenamedIds(ky, y.id);
    UnlinkTouches(ns, root, t, k, y, ky);
  }

  lemma UnlinkTouches(ns: seq<Node>, root: nat, t: Tree, k: Ctx, y: Tree, ky: Ctx)
    requires t.T? && t.l.T? && t.r.T? && RepZ(ns, root, t.id, t, k)
    requires y.T? && y.l.E? && RepZ(ns, root, y.id, y, ky) && Spine(ky, k, t.l, t.id, t.c)
    requires Span(y, ky) == Span(t, k) && SpliceReady(ns, t.id, y.id, k)
    ensures {y.id, ns[y.id].right, ns[y.id].parent, ns[t.id].right, ns[t.id].left, Par(k)} <= Span(t, k) + {0}
  {
    SpliceFacts(ns, root, t, k, y, ky);
    SpineApart(ns, root, y.id, ky, k, t.l, t.id, t.c);
    CtxPos(ns, root, y.id, ky);
    YoungFacts(ns, y.id, Par(ky), y.c, y.r);
    assert y == T(E, y.id, y.c, y.r);
  }

  /** What the loop test of __rb_erase_color tells. */
  lemma EraseFacts(ns: seq<Node>, root: nat, node: nat, parent: nat, t: Tree, k: Ctx, h: nat)
    requires EraseState(ns, root, node, parent, t, k, h)
    ensures k.Top? <==> node == root
    ensures IsBlack(t) <==> node == 0 || !(node < |ns| && ns[node].color == Red)
    ensures node == 0 <==> t.E?
    ensures !k.Top? && IsBlack(t) ==> parent < |ns| && (ns[parent].left == node <==> k.HoleL?)
  {
    ChildColor(ns, node, Par(k), t);
    RepPos(ns, node, Par(k), t);
    RootInCtx(ns, root, node, k);
    if !k.Top? && IsBlack(t) { SiblingRB(t, k, h); }
    if k.HoleR? { RepPos(ns, ns[parent].left, parent, k.l); }
  }

  lemma {:induction false} RootInCtx(ns: seq<Node>, root: nat, p: nat, k: Ctx)
    requires RepCtx(ns, root, p, k)
    ensures if k.Top? then p == root else root in CtxIds(k) && root != 0
    decreases k
  {
    match k
    case Top =>
    case HoleL(up, id, _, _) => RootInCtx(ns, root, id, up);
    case HoleR(up, _, id, _) => RootInCtx(ns, root, id, up);
  }

  // ---------- key order ----------

  /** The keys strictly increase along the list. */
  ghost predicate KeySorted(keys: seq<int>, order: seq<nat>) {
    && (forall i :: 0 <= i < |order| ==> order[i] < |keys|)
    && forall i, j :: 0 <= i < j < |order| ==> keys[order[i]] < keys[order[j]]
  }

  /** `to` is `from` with `x` put in at one place. */
  ghost predicate Inserted(from: seq<nat>, to: seq<nat>, x: nat) {
    exists i :: 0 <= i <= |from| && to == from[..i] + [x] + from[i..]
  }

  // ---------- values as map.c stores them ----------

  function StrLen(s: seq<byte>): (n: nat)
    requires 0 in s
    ensures n < |s| && s[n] == 0 && forall i :: 0 <= i < n ==> s[i] != 0
  {
    if s[0] == 0 then 0 else 1 + StrLen(s[1..])
  }

  /** The string in a buffer. */
  function Text(s: seq<byte>): seq<byte>
    requires 0 in s
  {
    s[..StrLen(s)]
  }

  /** strcpy of `src` can be done. */
  predicate Holds(dst: seq<byte>, src: seq<byte>) { 0 in src && StrLen(src) < |dst| }

  /** strcpy: what the buffer holds after the string stays. */
  function StrCopy(dst: seq<byte>, src: seq<byte>): seq<byte>
    requires Holds(dst, src)
  {
    src[..StrLen(src) + 1] + dst[StrLen(src) + 1..]
  }

  lemma CopiedText(dst: seq<byte>, src: seq<byte>)
    requires Holds(dst, src)
    ensures |StrCopy(dst, src)| == |dst| && 0 in StrCopy(dst, src) && Text(StrCopy(dst, src)) == Text(src)
    ensures forall i :: StrLen(src) < i < |dst| ==> StrCopy(dst, src)[i] == dst[i]
  {
    var r, n := StrCopy(dst, src), StrLen(src);
    assert r[n] == 0 && forall i :: 0 <= i < n ==> r[i] == src[i];
    assert StrLen(r) == n;
  }

  /** What put stores: `size` bytes for a new key; for one that is there, the string, in the
      buffer that it has. */
  function Stored(m: map<int, seq<byte>>, key: int, val: seq<byte>, size: nat): seq<byte>
    requires size <= |val| && (key in m ==> Holds(m[key], val))
  {
    if key in m then StrCopy(m[key], val) else val[..size]
  }

  /** What the tree maps its keys to. */
  ghost function Contents<V>(order: seq<nat>, keys: seq<int>, vals: seq<V>): map<int, V>
    requires KeySorted(keys, order) && |vals| == |keys|
  {
    map m | m in order :: keys[m] := vals[m]
  }

  lemma KeysOf<V>(order: seq<nat>, keys: seq<int>, vals: seq<V>)
    requires KeySorted(keys, order) && |vals| == |keys|
    ensures forall m :: m in order ==> m < |keys| && keys[m] in Contents(order, keys, vals)
    ensures forall key :: key in Contents(order, keys, vals) ==> exists m :: m in order && m < |keys| && keys[m] == key
  {
  }

  lemma ValuesOf<V>(order: seq<nat>, keys: seq<int>, vals: seq<V>)
    requires KeySorted(keys, order) && |vals| == |keys|
    ensures var c := Contents(order, keys, vals);
            forall m :: m in order ==> m < |keys| && keys[m] in c && c[keys[m]] == vals[m]
  {
  }

  lemma MoreContents<V>(order: seq<nat>, order': seq<nat>, keys: seq<int>, vals: seq<V>, node: nat, val: V)
    requires KeySorted(keys, order) && KeySorted(keys, order') && |vals| == |keys| && node < |keys|
    requires Inserted(order, order', node) && node !in order && forall m :: m in order ==> keys[m] != keys[node]
    ensures Contents(order', keys, vals[node := val]) == Contents(order, keys, vals)[keys[node] := val]
  {
    assert forall m :: m in order' <==> m in order || m == node;
  }

  /** Where put stores a value, and what the tree then holds. */
  lemma PutAt(order: seq<nat>, order': seq<nat>, keys: seq<int>, vals: seq<seq<byte>>, found: nat, node: nat,
              val: seq<byte>, size: nat)
    requires KeySorted(keys, order) && KeySorted(keys, order') && |vals| == |keys| && node < |keys| && node !in order
    requires found != 0 ==> found in order && found < |keys| && keys[found] == keys[node] && order' == order
    requires found == 0 ==> Inserted(order, order', node) && forall m :: m in order ==> m < |keys| && keys[m] != keys[node]
    requires var m := Contents(order, keys, vals);
             size <= |val| && (keys[node] in m ==> Holds(m[keys[node]], val))
    ensures var m := Contents(order, keys, vals);
            && (found == 0 <==> keys[node] !in m)
            && (keys[node] !in m ==> Stored(m, keys[node], val, size) == val[..size])
            && (found != 0 ==> found < |vals| && Holds(vals[found], val))
            && Contents(order', keys, if found == 0 then vals[node := val[..size]]
                                      else vals[found := StrCopy(vals[found], val)]) ==
               m[keys[node] := Stored(m, keys[node], val, size)]
  {
    KeysOf(order, keys, vals);
    hide KeySorted, Inserted, Contents, Holds, StrCopy;
    if found == 0 {
      MoreContents(order, order', keys, vals, node, val[..size]);
    } else {
      ValuesOf(order, keys, vals);
      NewContents(order, keys, vals, found, StrCopy(vals[found], val));
    }
  }

  lemma NewContents<V>(order: seq<nat>, keys: seq<int>, vals: seq<V>, node: nat, val: V)
    requires KeySorted(keys, order) && |vals| == |keys| && node in order
    ensures Contents(order, keys, vals[node := val]) == Contents(order, keys, vals)[keys[node] := val]
  {
  }

  lemma RootSplits(keys: seq<int>, tree: Tree, t: Tree, k: Ctx)
    requires t.T? && tree == Plug(k, t) && KeySorted(keys, Inorder(tree))
    ensures t.id in Inorder(tree) && t.id < |keys|
    ensures forall m :: m in Inorder(t.l) ==> m < |keys| && keys[m] < keys[t.id]
    ensures forall m :: m in Inorder(t.r) ==> m < |keys| && keys[t.id] < keys[m]
  {
    InorderPlug(k, t);
    var a := Before(k) + Inorder(t.l);
    var b := Inorder(t.r) + After(k);
    Cat5(Before(k), Inorder(t.l), [t.id], Inorder(t.r), After(k));
    assert a + [t.id] + b == Before(k) + Inorder(t.l) + ([t.id] + Inorder(t.r) + After(k));
    SplitSorted(keys, a, t.id, b);
    assert forall m :: m in Inorder(t.l) ==> m in a;
    assert forall m :: m in Inorder(t.r) ==> m in b;
  }

  lemma SplitSorted(keys: seq<int>, a: seq<nat>, x: nat, b: seq<nat>)
    requires KeySorted(keys, a + [x] + b)
    ensures x in a + [x] + b && x < |keys|
    ensures forall m :: m in a ==> m < |keys| && keys[m] < keys[x]
    ensures forall m :: m in b ==> m < |keys| && keys[x] < keys[m]
  {
    var s := a + [x] + b;
    assert s[|a|] == x;
    forall m | m in a ensures m < |keys| && keys[m] < keys[x] {
      var i :| 0 <= i < |a| && a[i] == m;
      assert s[i] == m;
    }
    forall m | m in b ensures m < |keys| && keys[x] < keys[m] {
      var i :| 0 <= i < |b| && b[i] == m;
      assert s[|a| + 1 + i] == m;
    }
  }

  lemma PutSorted(keys: seq<int>, a: seq<nat>, b: seq<nat>, x: nat)
    requires KeySorted(keys, a + [] + b) && x < |keys|
    requires forall m :: m in a ==> m < |keys| && keys[m] < keys[x]
    requires forall m :: m in b ==> m < |keys| && keys[x] < keys[m]
    ensures KeySorted(keys, a + [x] + b) && Inserted(a + [] + b, a + [x] + b, x)
    ensures forall m :: m in a + [] + b ==> keys[m] != keys[x]
  {
    var s, s' := a + b, a + [x] + b;
    assert a + [] + b == s && s[..|a|] == a && s[|a|..] == b;
    forall i, j | 0 <= i < j < |s'| ensures keys[s'[i]] < keys[s'[j]] {
      if j == |a| {
        assert s'[i] == a[i] && a[i] in a;
      } else if i == |a| {
        assert s'[j] == b[j - |a| - 1] && b[j - |a| - 1] in b;
      } else {
        assert s'[i] == s[if i < |a| then i else i - 1] && s'[j] == s[if j < |a| then j else j - 1];
      }
    }
  }

  lemma CurBound(ns: seq<Node>, p: nat, par: nat, t: Tree)
    requires Rep(ns, p, par, t) && |ns| > 0
    ensures p < |ns| && (p != 0 <==> t.T?)
  {
  }

  /** The state of a search that has come down to `cur`. */
  ghost predicate Searching(ns: seq<Node>, root: nat, tree: Tree, keys: seq<int>, key: int,
                            cur: nat, parent: nat, leftSide: bool, t: Tree, k: Ctx) {
    && RepZ(ns, root, cur, t, k) && Plug(k, t) == tree
    && cur < |ns| && (cur != 0 <==> t.T?) && (t.T? ==> cur == t.id)
    && parent == Par(k) && (k.HoleL? ==> leftSide) && (k.HoleR? ==> !leftSide)
    && (forall m :: m in Before(k) ==> m < |keys| && keys[m] < key)
    && (forall m :: m in After(k) ==> m < |keys| && key < keys[m])
  }

  lemma SearchLeft(ns: seq<Node>, root: nat, tree: Tree, keys: seq<int>, key: int,
                   cur: nat, parent: nat, leftSide: bool, t: Tree, k: Ctx)
    requires Searching(ns, root, tree, keys, key, cur, parent, leftSide, t, k) && cur != 0
    requires KeySorted(keys, Inorder(tree)) && cur < |keys| && key < keys[cur]
    ensures Searching(ns, root, tree, keys, key, ns[cur].left, cur, true, t.l, HoleL(k, t.id, t.c, t.r))
  {
    RootSplits(keys, tree, t, k);
    DownL(ns, root, t, k);
    CurBound(ns, ns[cur].left, cur, t.l);
  }

  lemma SearchRight(ns: seq<Node>, root: nat, tree: Tree, keys: seq<int>, key: int,
                    cur: nat, parent: nat, leftSide: bool, t: Tree, k: Ctx)
    requires Searching(ns, root, tree, keys, key, cur, parent, leftSide, t, k) && cur != 0
    requires KeySorted(keys, Inorder(tree)) && cur < |keys| && keys[cur] < key
    ensures Searching(ns, root, tree, keys, key, ns[cur].right, cur, false, t.r, HoleR(k, t.l, t.id, t.c))
  {
    RootSplits(keys, tree, t, k);
    DownR(ns, root, t, k);
    CurBound(ns, ns[cur].right, cur, t.r);
  }

  lemma PutOrder(keys: seq<int>, tree: Tree, k: Ctx, x: nat)
    requires tree == Plug(k, E) && KeySorted(keys, Inorder(tree)) && x < |keys|
    requires forall m :: m in Before(k) ==> m < |keys| && keys[m] < keys[x]
    requires forall m :: m in After(k) ==> m < |keys| && keys[x] < keys[m]
    ensures var order := Inorder(InsertFix(T(E, x, Red, E), k));
      KeySorted(keys, order) && Inserted(Inorder(tree), order, x)
    ensures forall m :: m in Inorder(tree) ==> keys[m] != keys[x]
  {
    InorderPlug(k, E);
    InsertFixOrder(T(E, x, Red, E), k);
    InorderPlug(k, T(E, x, Red, E));
    assert Inorder(T(E, x, Red, E)) == [x] && Inorder(E) == [];
    PutSorted(keys, Before(k), After(k), x);
  }

  lemma InsertedBetween(a: seq<nat>, x: nat, b: seq<nat>)
    ensures Inserted(a + b, a + [x] + b, x)
  {
    assert (a + b)[..|a|] == a && (a + b)[|a|..] == b;
  }

  /** Taking a node out keeps the keys in order. */
  lemma RemovalSorted(keys: seq<int>, from: seq<nat>, to: seq<nat>, x: nat)
    requires Inserted(to, from, x) && KeySorted(keys, from)
    ensures KeySorted(keys, to)
  {
    var i :| 0 <= i <= |to| && from == to[..i] + [x] + to[i..];
    forall a, b | 0 <= a < b < |to| ensures to[a] < |keys| && to[b] < |keys| && keys[to[a]] < keys[to[b]] {
      assert to[a] == from[if a < i then a else a + 1];
      assert to[b] == from[if b < i then b else b + 1];
    }
    forall a | 0 <= a < |to| ensures to[a] < |keys| {
      assert to[a] == from[if a < i then a else a + 1];
    }
  }

  lemma {:induction false} LeftmostBefore(t: Tree, k: Ctx)
    requires t.T?
    ensures Before(Leftmost(t, k).1) == Before(k)
    decreases t
  {
    if t.l.T? { LeftmostBefore(t.l, HoleL(k, t.id, t.c, t.r)); }
  }

  lemma {:induction false} LeftmostFirst(t: Tree, k: Ctx)
    requires t.T?
    ensures Inorder(t) != [] && Inorder(t)[0] == Leftmost(t, k).0.id
    decreases t
  {
    if t.l.T? { LeftmostFirst(t.l, HoleL(k, t.id, t.c, t.r)); }
  }

  /** `n` comes right after `x`; 0 stands for the end. */
  ghost predicate NextIn(order: seq<nat>, x: nat, n: nat) {
    exists i :: 0 <= i < |order| && NextAfter(order, i, x, n)
  }

  ghost predicate NextAfter(order: seq<nat>, i: nat, x: nat, n: nat)
    requires i < |order|
  {
    order[i] == x && n == if i + 1 < |order| then order[i + 1] else 0
  }

  lemma NextSplit(a: seq<nat>, b: seq<nat>, x: nat, c: seq<nat>, d: seq<nat>, n: nat)
    requires n == if c + d == [] then 0 else (c + d)[0]
    ensures NextIn(a + (b + [x] + c) + d, x, n)
  {
    var order := a + (b + [x] + c) + d;
    assert order == (a + b) + [x] + (c + d);
    var i := |a + b|;
    assert order[i + 1..] == c + d;
    assert NextAfter(order, i, x, n);
  }

  lemma Climb(ns: seq<Node>, root: nat, t: Tree, k: Ctx)
    requires t.T? && RepZ(ns, root, t.id, t, k) && !k.Top?
    ensures RepZ(ns, root, Par(k), Fill(k, t), k.up)
    ensures Par(k) < |ns| && ns[Par(k)].parent == Par(k.up) < |ns| && (k.up.Top? <==> Par(k.up) == 0)
    ensures ns[Par(k)].right == t.id <==> k.HoleR?
    ensures ns[Par(k)].left == t.id <==> k.HoleL?
  {
    GoUp(ns, root, t.id, t, k);
    CtxPos(ns, root, Par(k), k.up);
    if k.HoleL? { RepPos(ns, ns[Par(k)].right, Par(k), k.r); } else { RepPos(ns, ns[Par(k)].left, Par(k), k.l); }
  }

  lemma {:induction false} LinkRep(ns: seq<Node>, p: nat, par: nat, t: Tree, e: Link)
    requires Rep(ns, p, par, t) && e in Links(t)
    ensures 0 < e.id < |ns| && ns[e.id].left == e.left && ns[e.id].right == e.right
    decreases t
  {
    RepPos(ns, ns[t.id].left, t.id, t.l);
    RepPos(ns, ns[t.id].right, t.id, t.r);
    if e in Links(t.l) {
      LinkRep(ns, ns[t.id].left, t.id, t.l, e);
    } else if e in Links(t.r) {
      LinkRep(ns, ns[t.id].right, t.id, t.r, e);
    }
  }

  lemma {:induction false} LeftmostRep(ns: seq<Node>, root: nat, t: Tree, k: Ctx)
    requires t.T? && RepZ(ns, root, t.id, t, k)
    ensures var (y, ky) := Leftmost(t, k); RepZ(ns, root, y.id, y, ky)
    decreases t
  {
    if t.l.T? {
      DownL(ns, root, t, k);
      LeftmostRep(ns, root, t.l, HoleL(k, t.id, t.c, t.r));
    }
  }

  lemma PutCovered(ns: seq<Node>, root: nat, tree: Tree, k: Ctx, x: nat)
    requires RepZ(ns, root, 0, E, k) && tree == Plug(k, E) && x !in CtxIds(k) && x != 0
    ensures InsertCovered(Links(tree), InsertFix(T(E, x, Red, E), k), x)
  {
    RepCtxDistinct(ns, root, 0, k);
    CtxPos(ns, root, 0, k);
    LinksPlug(Links(tree), k, E);
    InsertFixCov(Links(tree), T(E, x, Red, E), k, x);
  }

  class RbTree {
    var nodes: seq<Node>
    var root: nat
    /** The shape that the links spell out. */
    ghost var tree: Tree

    /** A red-black tree with consistent links in both directions. */
    ghost predicate Valid()
      reads this
    {
      Rep(nodes, root, 0, tree) && IsRedBlack(tree)
    }

    /** The nodes in search order. */
    ghost function Order(): seq<nat>
      reads this
    {
      Inorder(tree)
    }

    /** RB_ROOT, with `size` nodes to link. */
    constructor (size: nat)
      ensures Valid() && Order() == [] && |nodes| == size + 1
    {
      nodes := seq(size + 1, _ => Node(0, 0, 0, Black));
      root := 0;
      tree := E;
      assert RB(E, 0);
    }

    /** __rb_rotate_left, as writes to the arena. */
    method RotateLeftLinks(node: nat, ghost k: Ctx)
      requires 0 < node < |nodes| && 0 < nodes[node].right < |nodes|
      requires nodes[nodes[node].right].left < |nodes| && nodes[nodes[node].right].left !in {node, nodes[node].right}
      requires node != nodes[node].right && nodes[node].parent == Par(k) < |nodes|
      requires Par(k) !in {node, nodes[node].right}
      requires Par(k) != 0 ==> Par(k) != nodes[nodes[node].right].left
      requires k.Top? <==> Par(k) == 0
      requires !k.Top? ==> (k.HoleL? <==> nodes[Par(k)].left == node)
      modifies this
      ensures RotatedLeft(old(nodes), nodes, node, old(nodes[node].right), old(nodes[nodes[node].right].left), k)
      ensures root == if k.Top? then old(nodes[node].right) else old(root)
    {
      var right := nodes[node].right;
      var parent := nodes[node].parent;
      nodes := nodes[node := nodes[node].(right := nodes[right].left)];
      if nodes[right].left != 0 {
        nodes := nodes[nodes[right].left := nodes[nodes[right].left].(parent := node)];
      }
      nodes := nodes[right := nodes[right].(left := node)];
      nodes := nodes[right := nodes[right].(parent := parent)];
      if parent != 0 {
        if node == nodes[parent].left {
          nodes := nodes[parent := nodes[parent].(left := right)];
        } else {
          nodes := nodes[parent := nodes[parent].(right := right)];
        }
      } else {
        root := right;
      }
      nodes := nodes[node := nodes[node].(parent := right)];
    }

    method RotateLeft(node: nat, ghost t: Tree, ghost k: Ctx)
      requires t.T? && t.r.T? && RepZ(nodes, root, node, t, k)
      modifies this
      ensures RepZ(nodes, root, t.r.id, RotL(t), k) && Span(RotL(t), k) == Span(t, k)
      ensures Only(old(nodes), nodes, Span(t, k))
    {
      RotateLeftFacts(nodes, root, t, k);
      RotateLeftLinks(node, k);
      RotateLeftRep(old(nodes), nodes, old(root), t, k);
    }

    /** __rb_rotate_right, as writes to the arena. */
    method RotateRightLinks(node: nat, ghost k: Ctx)
      requires 0 < node < |nodes| && 0 < nodes[node].left < |nodes|
      requires nodes[nodes[node].left].right < |nodes| && nodes[nodes[node].left].right !in {node, nodes[node].left}
      requires node != nodes[node].left && nodes[node].parent == Par(k) < |nodes|
      requires Par(k) !in {node, nodes[node].left}
      requires Par(k) != 0 ==> Par(k) != nodes[nodes[node].left].right
      requires k.Top? <==> Par(k) == 0
      requires !k.Top? ==> (k.HoleR? <==> nodes[Par(k)].right == node)
      modifies this
      ensures RotatedRight(old(nodes), nodes, node, old(nodes[node].left), old(nodes[nodes[node].left].right), k)
      ensures root == if k.Top? then old(nodes[node].left) else old(root)
    {
      var left := nodes[node].left;
      var parent := nodes[node].parent;
      nodes := nodes[node := nodes[node].(left := nodes[left].right)];
      if nodes[left].right != 0 {
        nodes := nodes[nodes[left].right := nodes[nodes[left].right].(parent := node)];
      }
      nodes := nodes[left := nodes[left].(right := node)];
      nodes := nodes[left := nodes[left].(parent := parent)];
      if parent != 0 {
        if node == nodes[parent].right {
          nodes := nodes[parent := nodes[parent].(right := left)];
        } else {
          nodes := nodes[parent := nodes[parent].(left := left)];
        }
      } else {
        root := left;
      }
      nodes := nodes[node := nodes[node].(parent := left)];
    }

    method RotateRight(node: nat, ghost t: Tree, ghost k: Ctx)
      requires t.T? && t.l.T? && RepZ(nodes, root, node, t, k)
      modifies this
      ensures RepZ(nodes, root, t.l.id, RotR(t), k) && Span(RotR(t), k) == Span(t, k)
      ensures Only(old(nodes), nodes, Span(t, k))
    {
      RotateRightFacts(nodes, root, t, k);
      RotateRightLinks(node, k);
      RotateRightRep(old(nodes), nodes, old(root), t, k);
    }

    predicate IsRed(p: nat)
      reads this
    {
      p < |nodes| && nodes[p].color == Red
    }

    method SetColor(node: nat, color: Color, ghost t: Tree, ghost k: Ctx)
      requires t.T? && RepZ(nodes, root, node, t, k)
      modifies this`nodes
      ensures RepZ(nodes, root, node, t.(c := color), k) && Span(t.(c := color), k) == Span(t, k)
      ensures Only(old(nodes), nodes, Span(t, k))
    {
      RecolorRep(nodes, root, t, k, color);
      nodes := nodes[node := nodes[node].(color := color)];
    }

    /** Recolouring a left child, seen from its parent. */
    method SetColorL(child: nat, color: Color, ghost t: Tree, ghost k: Ctx)
      requires t.T? && t.l.T? && child == t.l.id && RepZ(nodes, root, t.id, t, k)
      modifies this`nodes
      ensures RepZ(nodes, root, t.id, t.(l := t.l.(c := color)), k)
      ensures Span(t.(l := t.l.(c := color)), k) == Span(t, k)
      ensures Only(old(nodes), nodes, Span(t, k))
    {
      DownL(nodes, root, t, k);
      SetColor(child, color, t.l, HoleL(k, t.id, t.c, t.r));
      GoUp(nodes, root, child, t.l.(c := color), HoleL(k, t.id, t.c, t.r));
    }

    method SetColorR(child: nat, color: Color, ghost t: Tree, ghost k: Ctx)
      requires t.T? && t.r.T? && child == t.r.id && RepZ(nodes, root, t.id, t, k)
      modifies this`nodes
      ensures RepZ(nodes, root, t.id, t.(r := t.r.(c := color)), k)
      ensures Span(t.(r := t.r.(c := color)), k) == Span(t, k)
      ensures Only(old(nodes), nodes, Span(t, k))
    {
      DownR(nodes, root, t, k);
      SetColor(child, color, t.r, HoleR(k, t.l, t.id, t.c));
      GoUp(nodes, root, child, t.r.(c := color), HoleR(k, t.l, t.id, t.c));
    }

    // ---------- insertion ----------

    /** A red parent and a red uncle turn black, the grandparent red. */
    method FlipColors(left: nat, right: nat, gparent: nat, ghost g: Tree, ghost k: Ctx)
      requires g.T? && g.l.T? && g.r.T? && left == g.l.id && right == g.r.id
      requires RepZ(nodes, root, gparent, g, k)
      modifies this`nodes
      ensures RepZ(nodes, root, gparent, T(Blacken(g.l), g.id, Red, Blacken(g.r)), k)
      ensures Span(T(Blacken(g.l), g.id, Red, Blacken(g.r)), k) == Span(g, k)
      ensures Only(old(nodes), nodes, Span(g, k))
    {
      SetColorR(right, Black, g, k);
      SetColorL(left, Black, g.(r := Blacken(g.r)), k);
      SetColor(gparent, Red, T(Blacken(g.l), g.id, g.c, Blacken(g.r)), k);
    }

    /** The last rotation of an insertion: the grandparent goes down red. */
    method LiftLeft(parent: nat, gparent: nat, ghost g: Tree, ghost k: Ctx)
      requires g.T? && g.l.T? && g.l.id == parent && RepZ(nodes, root, gparent, g, k)
      modifies this
      ensures RepZ(nodes, root, parent, T(g.l.l, parent, Black, T(g.l.r, gparent, Red, g.r)), k)
      ensures Span(T(g.l.l, parent, Black, T(g.l.r, gparent, Red, g.r)), k) == Span(g, k)
      ensures Only(old(nodes), nodes, Span(g, k))
    {
      SetColorL(parent, Black, g, k);
      SetColor(gparent, Red, g.(l := Blacken(g.l)), k);
      RotateRight(gparent, g.(l := Blacken(g.l)).(c := Red), k);
    }

    method LiftRight(parent: nat, gparent: nat, ghost g: Tree, ghost k: Ctx)
      requires g.T? && g.r.T? && g.r.id == parent && RepZ(nodes, root, gparent, g, k)
      modifies this
      ensures RepZ(nodes, root, parent, T(T(g.l, gparent, Red, g.r.l), parent, Black, g.r.r), k)
      ensures Span(T(T(g.l, gparent, Red, g.r.l), parent, Black, g.r.r), k) == Span(g, k)
      ensures Only(old(nodes), nodes, Span(g, k))
    {
      SetColorR(parent, Black, g, k);
      SetColor(gparent, Red, g.(r := Blacken(g.r)), k);
      RotateLeft(gparent, g.(r := Blacken(g.r)).(c := Red), k);
    }

    method InsertRotateL(node: nat, parent: nat, gparent: nat, ghost t: Tree, ghost k: Ctx, ghost h: nat)
      returns (node': nat, ghost t': Tree, ghost k': Ctx, ghost h': nat)
      requires InsertState(nodes, root, node, t, k, h)
      requires HeadRed(k) && k.up.HoleL? && parent == Par(k) && gparent == Par(k.up)
      requires IsBlack(k.up.r)
      modifies this
      ensures InsertState(nodes, root, node', t', k', h')
      ensures InsertFix(t', k') == InsertFix(t, k) && Depth(k') < Depth(k)
      ensures Span(t', k') == Span(t, k) && Only(old(nodes), nodes, Span(t, k))
    {
      GrandFacts(nodes, root, node, t, k, h);
      RotatedRB(t, k, h);
      GoUp(nodes, root, node, t, k);
      ghost var up, u, p := k.up.up, k.up.r, Fill(k, t);
      node', t', h' := node, t, h;
      var parent' := parent;
      if nodes[parent].right == node {
        RotateLeft(parent, p, k.up);
        node', parent' := parent, node;
        t', p := RotL(p).l, RotL(p);
      }
      GoUp(nodes, root, parent', p, k.up);
      LiftLeft(parent', gparent, Fill(k.up, p), up);
      k' := HoleL(up, parent', Black, T(p.r, gparent, Red, u));
      DownL(nodes, root, Fill(k', t'), up);
      LiftedShapeL(t, k, t', k');
    }

    method InsertRotateR(node: nat, parent: nat, gparent: nat, ghost t: Tree, ghost k: Ctx, ghost h: nat)
      returns (node': nat, ghost t': Tree, ghost k': Ctx, ghost h': nat)
      requires InsertState(nodes, root, node, t, k, h)
      requires HeadRed(k) && k.up.HoleR? && parent == Par(k) && gparent == Par(k.up)
      requires IsBlack(k.up.l)
      modifies this
      ensures InsertState(nodes, root, node', t', k', h')
      ensures InsertFix(t', k') == InsertFix(t, k) && Depth(k') < Depth(k)
      ensures Span(t', k') == Span(t, k) && Only(old(nodes), nodes, Span(t, k))
    {
      GrandFacts(nodes, root, node, t, k, h);
      RotatedRB(t, k, h);
      GoUp(nodes, root, node, t, k);
      ghost var up, u, p := k.up.up, k.up.l, Fill(k, t);
      node', t', h' := node, t, h;
      var parent' := parent;
      if nodes[parent].left == node {
        RotateRight(parent, p, k.up);
        node', parent' := parent, node;
        t', p := RotR(p).r, RotR(p);
      }
      GoUp(nodes, root, parent', p, k.up);
      LiftRight(parent', gparent, Fill(k.up, p), up);
      k' := HoleR(up, T(u, gparent, Red, p.l), parent', Black);
      DownR(nodes, root, Fill(k', t'), up);
      LiftedShapeR(t, k, t', k');
    }

    /** One turn of the loop of rb_insert_color, the parent being a left child. */
    method InsertStepL(node: nat, parent: nat, gparent: nat, ghost t: Tree, ghost k: Ctx, ghost h: nat)
      returns (node': nat, ghost t': Tree, ghost k': Ctx, ghost h': nat)
      requires InsertState(nodes, root, node, t, k, h)
      requires HeadRed(k) && k.up.HoleL? && parent == Par(k) && gparent == Par(k.up)
      modifies this
      ensures InsertState(nodes, root, node', t', k', h')
      ensures InsertFix(t', k') == InsertFix(t, k) && Depth(k') < Depth(k)
      ensures Span(t', k') == Span(t, k) && Only(old(nodes), nodes, Span(t, k))
    {
      GrandFacts(nodes, root, node, t, k, h);
      ghost var up, u, p := k.up.up, k.up.r, Fill(k, t);
      var uncle := nodes[gparent].right;
      if uncle != 0 && IsRed(uncle) {
        FlipColors(parent, uncle, gparent, Fill(k.up, p), up);
        node', t', k', h' := gparent, T(Blacken(p), gparent, Red, Blacken(u)), up, h + 1;
        FlippedRB(t, k, h);
      } else {
        node', t', k', h' := InsertRotateL(node, parent, gparent, t, k, h);
      }
    }

    /** The same with the parent a right child. */
    method InsertStepR(node: nat, parent: nat, gparent: nat, ghost t: Tree, ghost k: Ctx, ghost h: nat)
      returns (node': nat, ghost t': Tree, ghost k': Ctx, ghost h': nat)
      requires InsertState(nodes, root, node, t, k, h)
      requires HeadRed(k) && k.up.HoleR? && parent == Par(k) && gparent == Par(k.up)
      modifies this
      ensures InsertState(nodes, root, node', t', k', h')
      ensures InsertFix(t', k') == InsertFix(t, k) && Depth(k') < Depth(k)
      ensures Span(t', k') == Span(t, k) && Only(old(nodes), nodes, Span(t, k))
    {
      GrandFacts(nodes, root, node, t, k, h);
      ghost var up, u, p := k.up.up, k.up.l, Fill(k, t);
      var uncle := nodes[gparent].left;
      if uncle != 0 && IsRed(uncle) {
        FlipColors(uncle, parent, gparent, Fill(k.up, p), up);
        node', t', k', h' := gparent, T(Blacken(u), gparent, Red, Blacken(p)), up, h + 1;
        FlippedRB(t, k, h);
      } else {
        node', t', k', h' := InsertRotateR(node, parent, gparent, t, k, h);
      }
    }

    /** rb_insert_color */
    method InsertColor(node0: nat, ghost t0: Tree, ghost k0: Ctx, ghost h0: nat)
      requires InsertState(nodes, root, node0, t0, k0, h0)
      modifies this
      ensures Rep(nodes, root, 0, InsertFix(t0, k0))
      ensures Only(old(nodes), nodes, Span(t0, k0))
    {
      var node := node0;
      ghost var t, k, h := t0, k0, h0;
      CtxPos(nodes, root, node, k);
      while nodes[node].parent != 0 && IsRed(nodes[node].parent)
        invariant InsertState(nodes, root, node, t, k, h)
        invariant InsertFix(t, k) == InsertFix(t0, k0)
        invariant Span(t, k) == Span(t0, k0) && Only(old(nodes), nodes, Span(t0, k0))
        invariant Par(k) == nodes[node].parent < |nodes| && (k.Top? <==> Par(k) == 0)
        decreases Depth(k)
      {
        var parent := nodes[node].parent;
        var gparent := nodes[parent].parent;
        GrandFacts(nodes, root, node, t, k, h);
        if parent == nodes[gparent].left {
          node, t, k, h := InsertStepL(node, parent, gparent, t, k, h);
        } else {
          node, t, k, h := InsertStepR(node, parent, gparent, t, k, h);
        }
        CtxPos(nodes, root, node, k);
      }
      ghost var t' := Plug(k, t);
      PlugRep(nodes, root, node, t, k);
      IdsPlug(k, t);
      PlugNode(k, t);
      SetColor(root, Black, t', Top);
    }

    // ---------- removal ----------

    /** The short subtree's red sibling goes up, its near child is the new sibling. */
    method EraseTurnL(parent: nat, other: nat, ghost f: Tree, ghost up: Ctx)
      requires f.T? && f.r.T? && f.r.id == other && RepZ(nodes, root, parent, f, up)
      modifies this
      ensures RepZ(nodes, root, parent, T(f.l, parent, Red, f.r.l), HoleL(up, other, Black, f.r.r))
      ensures Span(T(f.l, parent, Red, f.r.l), HoleL(up, other, Black, f.r.r)) == Span(f, up)
      ensures Only(old(nodes), nodes, Span(f, up))
    {
      SetColorR(other, Black, f, up);
      SetColor(parent, Red, f.(r := Blacken(f.r)), up);
      RotateLeft(parent, f.(r := Blacken(f.r)).(c := Red), up);
      DownL(nodes, root, T(T(f.l, parent, Red, f.r.l), other, Black, f.r.r), up);
    }

    method EraseTurnR(parent: nat, other: nat, ghost f: Tree, ghost up: Ctx)
      requires f.T? && f.l.T? && f.l.id == other && RepZ(nodes, root, parent, f, up)
      modifies this
      ensures RepZ(nodes, root, parent, T(f.l.r, parent, Red, f.r), HoleR(up, f.l.l, other, Black))
      ensures Span(T(f.l.r, parent, Red, f.r), HoleR(up, f.l.l, other, Black)) == Span(f, up)
      ensures Only(old(nodes), nodes, Span(f, up))
    {
      SetColorL(other, Black, f, up);
      SetColor(parent, Red, f.(l := Blacken(f.l)), up);
      RotateRight(parent, f.(l := Blacken(f.l)).(c := Red), up);
      DownR(nodes, root, T(f.l.l, other, Black, T(f.l.r, parent, Red, f.r)), up);
    }

    /** The sibling's near child is red and its far child is not: turn the sibling. */
    method EraseInnerL(other: nat, ghost f: Tree, ghost up: Ctx)
      requires f.T? && f.r.T? && f.r.l.T? && f.r.id == other && RepZ(nodes, root, f.id, f, up)
      modifies this
      ensures RepZ(nodes, root, f.id, f.(r := InnerL(f.r)), up)
      ensures Span(f.(r := InnerL(f.r)), up) == Span(f, up)
      ensures Only(old(nodes), nodes, Span(f, up))
    {
      ghost var k := HoleR(up, f.l, f.id, f.c);
      DownR(nodes, root, f, up);
      DownL(nodes, root, f.r, k);
      SetColorL(nodes[other].left, Black, f.r, k);
      SetColor(other, Red, f.r.(l := Blacken(f.r.l)), k);
      RotateRight(other, f.r.(l := Blacken(f.r.l)).(c := Red), k);
      GoUp(nodes, root, f.r.l.id, InnerL(f.r), k);
    }

    method EraseInnerR(other: nat, ghost f: Tree, ghost up: Ctx)
      requires f.T? && f.l.T? && f.l.r.T? && f.l.id == other && RepZ(nodes, root, f.id, f, up)
      modifies this
      ensures RepZ(nodes, root, f.id, f.(l := InnerR(f.l)), up)
      ensures Span(f.(l := InnerR(f.l)), up) == Span(f, up)
      ensures Only(old(nodes), nodes, Span(f, up))
    {
      ghost var k := HoleL(up, f.id, f.c, f.r);
      DownL(nodes, root, f, up);
      DownR(nodes, root, f.l, k);
      SetColorR(nodes[other].right, Black, f.l, k);
      SetColor(other, Red, f.l.(r := Blacken(f.l.r)), k);
      RotateLeft(other, f.l.(r := Blacken(f.l.r)).(c := Red), k);
      GoUp(nodes, root, f.l.r.id, InnerR(f.l), k);
    }

    /** The sibling goes up with the parent's colour, over two black children. */
    method EraseOuterL(parent: nat, other: nat, ghost f: Tree, ghost up: Ctx)
      requires f.T? && f.r.T? && f.r.r.T? && f.r.id == other && RepZ(nodes, root, parent, f, up)
      modifies this
      ensures RepZ(nodes, root, other, OuterL(f), up) && Span(OuterL(f), up) == Span(f, up)
      ensures Only(old(nodes), nodes, Span(f, up))
    {
      DownL(nodes, root, f, up);
      ghost var c := f.c;
      assert nodes[parent].color == c;
      SetColorR(other, nodes[parent].color, f, up);
      ghost var f1 := f.(r := f.r.(c := c));
      SetColor(parent, Black, f1, up);
      ghost var f2 := f1.(c := Black);
      ghost var k := HoleR(up, f2.l, parent, Black);
      DownR(nodes, root, f2, up);
      DownR(nodes, root, f2.r, k);
      SetColorR(nodes[other].right, Black, f2.r, k);
      GoUp(nodes, root, other, f2.r.(r := Blacken(f.r.r)), k);
      RotateLeft(parent, f2.(r := f2.r.(r := Blacken(f.r.r))), up);
    }

    method EraseOuterR(parent: nat, other: nat, ghost f: Tree, ghost up: Ctx)
      requires f.T? && f.l.T? && f.l.l.T? && f.l.id == other && RepZ(nodes, root, parent, f, up)
      modifies this
      ensures RepZ(nodes, root, other, OuterR(f), up) && Span(OuterR(f), up) == Span(f, up)
      ensures Only(old(nodes), nodes, Span(f, up))
    {
      DownL(nodes, root, f, up);
      ghost var c := f.c;
      assert nodes[parent].color == c;
      SetColorL(other, nodes[parent].color, f, up);
      ghost var f1 := f.(l := f.l.(c := c));
      SetColor(parent, Black, f1, up);
      ghost var f2 := f1.(c := Black);
      ghost var k := HoleL(up, parent, Black, f2.r);
      DownL(nodes, root, f2, up);
      DownL(nodes, root, f2.l, k);
      SetColorL(nodes[other].left, Black, f2.l, k);
      GoUp(nodes, root, other, f2.l.(l := Blacken(f.l.l)), k);
      RotateRight(parent, f2.(l := f2.l.(l := Blacken(f.l.l))), up);
    }

    /** The sibling has a red child: rotations make up for the missing black node. */
    method EraseSettleL(parent: nat, other0: nat, ghost f: Tree, ghost up: Ctx)
      requires f.T? && f.r.T? && f.r.id == other0 && RepZ(nodes, root, parent, f, up)
      requires !(IsBlack(f.r.l) && IsBlack(f.r.r))
      modifies this
      ensures Rep(nodes, root, 0, Plug(up, SettledL(f.l, f.id, f.c, f.r)))
      ensures Ids(Plug(up, SettledL(f.l, f.id, f.c, f.r))) == Span(f, up)
      ensures Only(old(nodes), nodes, Span(f, up))
    {
      var other := other0;
      ghost var o, x := f.r, f;
      NephewsL(nodes, root, f, up);
      RootHere(nodes, root, parent, f, up);
      SettledIsL(f);
      hide Rep, RepCtx, RepZ, Ids, CtxIds, Only, Plug, SettledL, OuterL;
      if nodes[other].right == 0 || !IsRed(nodes[other].right) {
        EraseInnerL(other, f, up);
        x := f.(r := InnerL(o));
        DownR(nodes, root, x, up);
        other := nodes[parent].right;
      }
      EraseOuterL(parent, other, x, up);
      PlugRep(nodes, root, other, OuterL(x), up);
      IdsPlug(up, OuterL(x));
    }

    method EraseSettleR(parent: nat, other0: nat, ghost f: Tree, ghost up: Ctx)
      requires f.T? && f.l.T? && f.l.id == other0 && RepZ(nodes, root, parent, f, up)
      requires !(IsBlack(f.l.l) && IsBlack(f.l.r))
      modifies this
      ensures Rep(nodes, root, 0, Plug(up, SettledR(f.r, f.id, f.c, f.l)))
      ensures Ids(Plug(up, SettledR(f.r, f.id, f.c, f.l))) == Span(f, up)
      ensures Only(old(nodes), nodes, Span(f, up))
    {
      var other := other0;
      ghost var o, x := f.l, f;
      NephewsR(nodes, root, f, up);
      RootHere(nodes, root, parent, f, up);
      SettledIsR(f);
      hide Rep, RepCtx, RepZ, Ids, CtxIds, Only, Plug, SettledR, OuterR;
      if nodes[other].left == 0 || !IsRed(nodes[other].left) {
        EraseInnerR(other, f, up);
        x := f.(l := InnerR(o));
        DownL(nodes, root, x, up);
        other := nodes[parent].left;
      }
      EraseOuterR(parent, other, x, up);
      PlugRep(nodes, root, other, OuterR(x), up);
      IdsPlug(up, OuterR(x));
    }

    /** Both nephews are black: the sibling turns red and the shortage moves up. */
    method ErasePaintL(parent: nat, other: nat, ghost f: Tree, ghost up: Ctx, ghost h: nat)
      returns (parent': nat, ghost t': Tree, ghost h': nat)
      requires f.T? && f.r.T? && f.r.id == other && RepZ(nodes, root, parent, f, up)
      requires IsBlack(f.l) && RB(f.l, h) && f.r.c == Black && RB(f.r, h + 1)
      requires CtxRB(up, if f.c == Black then h + 2 else h + 1) && IsBlack(f.r.l) && IsBlack(f.r.r)
      modifies this
      ensures t' == f.(r := f.r.(c := Red)) && EraseState(nodes, root, parent, parent', t', up, h')
      ensures Span(t', up) == Span(f, up) && Only(old(nodes), nodes, Span(f, up))
    {
      ShortUp(f.l, f.r, h);
      RootHere(nodes, root, parent, f, up);
      hide Rep, RepCtx, RepZ, CtxRB, RB, Ids, CtxIds, Span, Only, Deficit;
      SetColorR(other, Red, f, up);
      t', h' := f.(r := f.r.(c := Red)), if f.c == Black then h + 1 else h;
      RootHere(nodes, root, parent, t', up);
      parent' := nodes[parent].parent;
    }

    /** A nephew is red: rotations settle it, and the root is next. */
    method EraseRotateL(parent: nat, other: nat, ghost f: Tree, ghost up: Ctx, ghost h: nat)
      returns (ghost t': Tree, ghost h': nat)
      requires f.T? && f.r.T? && f.r.id == other && RepZ(nodes, root, parent, f, up)
      requires IsBlack(f.l) && RB(f.l, h) && f.r.c == Black && RB(f.r, h + 1)
      requires CtxRB(up, if f.c == Black then h + 2 else h + 1) && (f.c == Red ==> HeadBlack(up))
      requires !(IsBlack(f.r.l) && IsBlack(f.r.r))
      modifies this
      ensures t' == Plug(up, SettledL(f.l, f.id, f.c, f.r)) && EraseState(nodes, root, root, 0, t', Top, h')
      ensures Span(t', Top) == Span(f, up) && Only(old(nodes), nodes, Span(f, up))
    {
      t' := Plug(up, SettledL(f.l, f.id, f.c, f.r));
      SettledLRB(f.l, up, f.id, f.c, f.r, h);
      RootHere(nodes, root, parent, f, up);
      hide Rep, RepCtx, RepZ, CtxRB, RB, Ids, CtxIds, Only, Plug, SettledL;
      EraseSettleL(parent, other, f, up);
      h' :| RB(t', h');
      WholeTree(nodes, root, t', h');
    }

    /** The rest of a turn once the sibling is black. */
    method EraseBlackL(parent: nat, other: nat, ghost f: Tree, ghost up: Ctx, ghost h: nat)
      returns (node': nat, parent': nat, ghost t': Tree, ghost k': Ctx, ghost h': nat)
      requires f.T? && f.r.T? && f.r.id == other && RepZ(nodes, root, parent, f, up)
      requires IsBlack(f.l) && RB(f.l, h) && f.r.c == Black && RB(f.r, h + 1)
      requires CtxRB(up, if f.c == Black then h + 2 else h + 1) && (f.c == Red ==> HeadBlack(up))
      modifies this
      ensures EraseState(nodes, root, node', parent', t', k', h')
      ensures EraseFix(t', k') == EraseFixL(f.l, up, f.id, f.c, f.r)
      ensures (k' == up && t'.T? && t'.c == f.c) || k'.Top?
      ensures Span(t', k') == Span(f, up) && Only(old(nodes), nodes, Span(f, up))
    {
      NephewsL(nodes, root, f, up);
      RootHere(nodes, root, parent, f, up);
      FixL(f.l, up, f.id, f.c, f.r);
      hide Rep, RepCtx, RepZ, CtxRB, RB, Ids, CtxIds, Span, Only, Plug, EraseState, EraseFix, EraseFixL;
      if (nodes[other].left == 0 || !IsRed(nodes[other].left))
        && (nodes[other].right == 0 || !IsRed(nodes[other].right)) {
        parent', t', h' := ErasePaintL(parent, other, f, up, h);
        node', k' := parent, up;
      } else {
        t', h' := EraseRotateL(parent, other, f, up, h);
        node', parent', k' := root, 0, Top;
      }
    }

    /** Both nephews are black: the sibling turns red and the shortage moves up. */
    method ErasePaintR(parent: nat, other: nat, ghost f: Tree, ghost up: Ctx, ghost h: nat)
      returns (parent': nat, ghost t': Tree, ghost h': nat)
      requires f.T? && f.l.T? && f.l.id == other && RepZ(nodes, root, parent, f, up)
      requires IsBlack(f.r) && RB(f.r, h) && f.l.c == Black && RB(f.l, h + 1)
      requires CtxRB(up, if f.c == Black then h + 2 else h + 1) && IsBlack(f.l.l) && IsBlack(f.l.r)
      modifies this
      ensures t' == f.(l := f.l.(c := Red)) && EraseState(nodes, root, parent, parent', t', up, h')
      ensures Span(t', up) == Span(f, up) && Only(old(nodes), nodes, Span(f, up))
    {
      ShortUp(f.r, f.l, h);
      RootHere(nodes, root, parent, f, up);
      hide Rep, RepCtx, RepZ, CtxRB, RB, Ids, CtxIds, Span, Only, Deficit;
      SetColorL(other, Red, f, up);
      t', h' := f.(l := f.l.(c := Red)), if f.c == Black then h + 1 else h;
      RootHere(nodes, root, parent, t', up);
      parent' := nodes[parent].parent;
    }

    /** A nephew is red: rotations settle it, and the root is next. */
    method EraseRotateR(parent: nat, other: nat, ghost f: Tree, ghost up: Ctx, ghost h: nat)
      returns (ghost t': Tree, ghost h': nat)
      requires f.T? && f.l.T? && f.l.id == other && RepZ(nodes, root, parent, f, up)
      requires IsBlack(f.r) && RB(f.r, h) && f.l.c == Black && RB(f.l, h + 1)
      requires CtxRB(up, if f.c == Black then h + 2 else h + 1) && (f.c == Red ==> HeadBlack(up))
      requires !(IsBlack(f.l.l) && IsBlack(f.l.r))
      modifies this
      ensures t' == Plug(up, SettledR(f.r, f.id, f.c, f.l)) && EraseState(nodes, root, root, 0, t', Top, h')
      ensures Span(t', Top) == Span(f, up) && Only(old(nodes), nodes, Span(f, up))
    {
      t' := Plug(up, SettledR(f.r, f.id, f.c, f.l));
      SettledRRB(f.r, up, f.id, f.c, f.l, h);
      RootHere(nodes, root, parent, f, up);
      hide Rep, RepCtx, RepZ, CtxRB, RB, Ids, CtxIds, Only, Plug, SettledR;
      EraseSettleR(parent, other, f, up);
      h' :| RB(t', h');
      WholeTree(nodes, root, t', h');
    }

    /** The rest of a turn once the sibling is black. */
    method EraseBlackR(parent: nat, other: nat, ghost f: Tree, ghost up: Ctx, ghost h: nat)
      returns (node': nat, parent': nat, ghost t': Tree, ghost k': Ctx, ghost h': nat)
      requires f.T? && f.l.T? && f.l.id == other && RepZ(nodes, root, parent, f, up)
      requires IsBlack(f.r) && RB(f.r, h) && f.l.c == Black && RB(f.l, h + 1)
      requires CtxRB(up, if f.c == Black then h + 2 else h + 1) && (f.c == Red ==> HeadBlack(up))
      modifies this
      ensures EraseState(nodes, root, node', parent', t', k', h')
      ensures EraseFix(t', k') == EraseFixR(f.r, up, f.id, f.c, f.l)
      ensures (k' == up && t'.T? && t'.c == f.c) || k'.Top?
      ensures Span(t', k') == Span(f, up) && Only(old(nodes), nodes, Span(f, up))
    {
      NephewsR(nodes, root, f, up);
      RootHere(nodes, root, parent, f, up);
      FixR(f.r, up, f.id, f.c, f.l);
      hide Rep, RepCtx, RepZ, CtxRB, RB, Ids, CtxIds, Span, Only, Plug, EraseState, EraseFix, EraseFixR;
      if (nodes[other].left == 0 || !IsRed(nodes[other].left))
        && (nodes[other].right == 0 || !IsRed(nodes[other].right)) {
        parent', t', h' := ErasePaintR(parent, other, f, up, h);
        node', k' := parent, up;
      } else {
        t', h' := EraseRotateR(parent, other, f, up, h);
        node', parent', k' := root, 0, Top;
      }
    }

    /** One turn of the loop of __rb_erase_color, the short subtree being a left child. */
    method EraseStepL(node: nat, parent: nat, ghost t: Tree, ghost k: Ctx, ghost h: nat)
      returns (node': nat, parent': nat, ghost t': Tree, ghost k': Ctx, ghost h': nat)
      requires EraseState(nodes, root, node, parent, t, k, h) && IsBlack(t) && k.HoleL?
      modifies this
      ensures EraseState(nodes, root, node', parent', t', k', h')
      ensures EraseFix(t', k') == EraseFix(t, k)
      ensures Depth(k') < Depth(k) || (Depth(k') == Depth(k) && !IsBlack(t'))
      ensures Span(t', k') == Span(t, k) && Only(old(nodes), nodes, Span(t, k))
    {
      ghost var f, up := Fill(k, t), k.up;
      GoUp(nodes, root, node, t, k);
      DownR(nodes, root, f, up);
      SiblingRB(t, k, h);
      var other := nodes[parent].right;
      ChildColor(nodes, other, parent, f.r);
      if IsRed(other) {
        EraseTurnL(parent, other, f, up);
        f, up := T(t, parent, Red, k.r.l), HoleL(k.up, other, Black, k.r.r);
        DownR(nodes, root, f, up);
        other := nodes[parent].right;
      }
      node', parent', t', k', h' := EraseBlackL(parent, other, f, up, h);
    }

    method EraseStepR(node: nat, parent: nat, ghost t: Tree, ghost k: Ctx, ghost h: nat)
      returns (node': nat, parent': nat, ghost t': Tree, ghost k': Ctx, ghost h': nat)
      requires EraseState(nodes, root, node, parent, t, k, h) && IsBlack(t) && k.HoleR?
      modifies this
      ensures EraseState(nodes, root, node', parent', t', k', h')
      ensures EraseFix(t', k') == EraseFix(t, k)
      ensures Depth(k') < Depth(k) || (Depth(k') == Depth(k) && !IsBlack(t'))
      ensures Span(t', k') == Span(t, k) && Only(old(nodes), nodes, Span(t, k))
    {
      ghost var f, up := Fill(k, t), k.up;
      GoUp(nodes, root, node, t, k);
      DownL(nodes, root, f, up);
      SiblingRB(t, k, h);
      var other := nodes[parent].left;
      ChildColor(nodes, other, parent, f.l);
      if IsRed(other) {
        EraseTurnR(parent, other, f, up);
        f, up := T(k.l.r, parent, Red, t), HoleR(k.up, k.l.l, other, Black);
        DownL(nodes, root, f, up);
        other := nodes[parent].left;
      }
      node', parent', t', k', h' := EraseBlackR(parent, other, f, up, h);
    }

    /** __rb_erase_color */
    method EraseColor(node0: nat, parent0: nat, ghost t0: Tree, ghost k0: Ctx, ghost h0: nat)
      requires EraseState(nodes, root, node0, parent0, t0, k0, h0)
      modifies this
      ensures Rep(nodes, root, 0, EraseFix(t0, k0))
      ensures Only(old(nodes), nodes, Span(t0, k0))
    {
      var node: nat, parent: nat := node0, parent0;
      ghost var t, k, h := t0, k0, h0;
      EraseFacts(nodes, root, node, parent, t, k, h);
      while (node == 0 || !IsRed(node)) && node != root
        invariant EraseState(nodes, root, node, parent, t, k, h)
        invariant EraseFix(t, k) == EraseFix(t0, k0)
        invariant Span(t, k) == Span(t0, k0) && Only(old(nodes), nodes, Span(t0, k0))
        invariant (k.Top? <==> node == root) && (IsBlack(t) <==> node == 0 || !IsRed(node))
        invariant !k.Top? && IsBlack(t) ==> parent < |nodes| && (nodes[parent].left == node <==> k.HoleL?)
        decreases Depth(k), if IsBlack(t) then 1 else 0
      {
        if nodes[parent].left == node {
          node, parent, t, k, h := EraseStepL(node, parent, t, k, h);
        } else {
          node, parent, t, k, h := EraseStepR(node, parent, t, k, h);
        }
        EraseFacts(nodes, root, node, parent, t, k, h);
      }
      ghost var x := t;
      if node != 0 {
        SetColor(node, Black, t, k);
        x := Blacken(t);
      }
      PlugRep(nodes, root, node, x, k);
    }

    /** The link that led to `node` now leads to `q`. */
    method Relink(node: nat, q: nat, ghost k: Ctx)
      requires 0 < node < |nodes| && nodes[node].parent == Par(k) < |nodes| && (k.Top? <==> Par(k) == 0)
      requires (k.HoleL? ==> nodes[Par(k)].left == node) && (k.HoleR? ==> nodes[Par(k)].left != node)
      modifies this
      ensures Only(old(nodes), nodes, {Par(k)})
      ensures !k.Top? ==> nodes[Par(k)] == Relinked(k, old(nodes)[Par(k)], q)
      ensures root == if k.Top? then q else old(root)
    {
      var parent := nodes[node].parent;
      if parent != 0 {
        if nodes[parent].left == node {
          nodes := nodes[parent := nodes[parent].(left := q)];
        } else {
          nodes := nodes[parent := nodes[parent].(right := q)];
        }
      } else {
        root := q;
      }
    }

    /** A node with at most one child: the child takes its place. */
    method Bypass(node: nat, child: nat, ghost k: Ctx) returns (parent: nat, color: Color)
      requires 0 < node < |nodes| && child < |nodes| && nodes[node].parent == Par(k) < |nodes|
      requires k.Top? <==> Par(k) == 0
      requires child != node && Par(k) != node && (child != 0 ==> child != Par(k))
      requires (k.HoleL? ==> nodes[Par(k)].left == node) && (k.HoleR? ==> nodes[Par(k)].left != node)
      modifies this
      ensures parent == Par(k) && color == old(nodes[node].color)
      ensures Bypassed(old(nodes), nodes, child, k)
      ensures root == if k.Top? then child else old(root)
    {
      parent := nodes[node].parent;
      color := nodes[node].color;
      if child != 0 {
        nodes := nodes[child := nodes[child].(parent := parent)];
      }
      Relink(node, child, k);
    }

    /** The successor hands its place to its right child and takes `z`'s right subtree. */
    method LiftOut(z: nat, node: nat, child: nat, parent: nat)
      requires 0 < z < |nodes| && 0 < node < |nodes| && child < |nodes| && 0 < parent < |nodes|
      requires 0 < nodes[z].right < |nodes| && z !in {node, child, parent, nodes[z].right}
      requires node !in {child, parent, nodes[z].right} && child !in {parent, nodes[z].right}
      modifies this`nodes
      ensures LiftedOut(old(nodes), nodes, z, node, child, parent)
    {
      if child != 0 {
        nodes := nodes[child := nodes[child].(parent := parent)];
      }
      nodes := nodes[parent := nodes[parent].(left := child)];
      nodes := nodes[node := nodes[node].(right := nodes[z].right)];
      nodes := nodes[nodes[z].right := nodes[nodes[z].right].(parent := node)];
    }

    /** The successor takes over `z`'s parent, colour and left subtree. */
    method CopyLinks(z: nat, node: nat)
      requires 0 < z < |nodes| && 0 < node < |nodes| && 0 < nodes[z].left < |nodes|
      requires z !in {node, nodes[z].left} && node != nodes[z].left
      modifies this`nodes
      ensures Copied(old(nodes), nodes, z, node)
    {
      nodes := nodes[node := nodes[node].(parent := nodes[z].parent, color := nodes[z].color)];
      nodes := nodes[node := nodes[node].(left := nodes[z].left)];
      nodes := nodes[nodes[z].left := nodes[nodes[z].left].(parent := node)];
    }

    /** A node `z` with two children: its successor `node` takes its place. */
    method TakePlace(z: nat, node: nat, ghost k: Ctx) returns (child: nat, parent: nat, color: Color)
      requires SpliceReady(nodes, z, node, k)
      modifies this
      ensures child == old(nodes[node].right) && color == old(nodes[node].color)
      ensures parent == if old(nodes[node].parent) == z then node else old(nodes[node].parent)
      ensures root == if k.Top? then node else old(root)
      ensures if old(nodes[node].parent) == z
        then TookOver(old(nodes), nodes, {node, old(nodes[z].left), Par(k)}, z, node, k) && nodes[node].right == old(nodes[node].right)
        else Lifted(old(nodes), nodes, z, node, old(nodes[node].parent), k)
    {
      ghost var ns0 := nodes;
      hide Only, Relinked, TookOver, Lifted;
      Relink(z, node, k);
      ghost var ns1 := nodes;
      RelinkKeeps(ns0, ns1, z, node, k);
      child := nodes[node].right;
      parent := nodes[node].parent;
      color := nodes[node].color;
      if parent == z {
        parent := node;
        CopyLinks(z, node);
        TookOverBy(ns0, ns1, nodes, z, node, k);
      } else {
        LiftOut(z, node, child, parent);
        ghost var ns2 := nodes;
        LiftKeeps(ns0, ns1, ns2, z, node, k);
        CopyLinks(z, node);
        LiftedBy(ns0, ns1, ns2, nodes, z, node, k);
      }
    }

    /** Down the left links as far as they go. */
    method GoLeftmost(from: nat, ghost t0: Tree, ghost k0: Ctx) returns (node: nat, ghost t: Tree, ghost k: Ctx)
      requires t0.T? && RepZ(nodes, root, from, t0, k0)
      ensures t.T? && t.l.E? && RepZ(nodes, root, node, t, k)
      ensures (t, k) == Leftmost(t0, k0) && Span(t, k) == Span(t0, k0)
    {
      node, t, k := from, t0, k0;
      DownL(nodes, root, t, k);
      while nodes[node].left != 0
        invariant t.T? && RepZ(nodes, root, node, t, k)
        invariant Leftmost(t, k) == Leftmost(t0, k0) && Span(t, k) == Span(t0, k0)
        invariant node < |nodes| && nodes[node].left == RootId(t.l)
        decreases t
      {
        DownL(nodes, root, t, k);
        node := nodes[node].left;
        t, k := t.l, HoleL(k, t.id, t.c, t.r);
        DownL(nodes, root, t, k);
      }
      LeftEmpty(nodes, root, t, k);
    }

    /** The part of rb_erase before the label `color` for a node with two children. */
    method UnlinkInner(z: nat, ghost t: Tree, ghost k: Ctx) returns (child: nat, parent: nat, color: Color)
      requires t.T? && t.l.T? && t.r.T? && RepZ(nodes, root, z, t, k)
      modifies this
      ensures RepZ(nodes, root, child, Unlink(t, k).t, Unlink(t, k).k)
      ensures parent == Par(Unlink(t, k).k) && color == Unlink(t, k).c
      ensures Span(Unlink(t, k).t, Unlink(t, k).k) <= Span(t, k)
      ensures Only(old(nodes), nodes, Span(t, k))
    {
      ghost var kr := HoleR(k, t.l, z, t.c);
      DownR(nodes, root, t, k);
      LeftmostSpine(t.r, kr, k, t.l, z, t.c);
      var node, y, ky := GoLeftmost(nodes[z].right, t.r, kr);
      SpliceFacts(nodes, root, t, k, y, ky);
      child, parent, color := TakePlace(z, node, k);
      UnlinkedRep(old(nodes), nodes, old(root), t, k, y, ky);
    }

    /** rb_erase */
    method EraseNode(node: nat, ghost t: Tree, ghost k: Ctx)
      requires t.T? && RepZ(nodes, root, node, t, k) && IsRedBlack(Plug(k, t))
      modifies this
      ensures Rep(nodes, root, 0, Erased(t, k))
      ensures Only(old(nodes), nodes, Span(t, k))
    {
      ghost var g := Unlink(t, k);
      hide Rep, RepCtx, RepZ, CtxRB, RB, IsRedBlack, Ids, CtxIds, Plug, EraseFix, Unlink;
      var child, parent, color := UnlinkNode(node, t, k);
      ghost var h := GapRB(t, k);
      if color == Black {
        EraseColor(child, parent, g.t, g.k, h);
      } else {
        PlugRep(nodes, root, child, g.t, g.k);
      }
    }

    /** The part of rb_erase before the label `color`. */
    method UnlinkNode(node: nat, ghost t: Tree, ghost k: Ctx) returns (child: nat, parent: nat, color: Color)
      requires t.T? && RepZ(nodes, root, node, t, k)
      modifies this
      ensures RepZ(nodes, root, child, Unlink(t, k).t, Unlink(t, k).k)
      ensures parent == Par(Unlink(t, k).k) && color == Unlink(t, k).c
      ensures Span(Unlink(t, k).t, Unlink(t, k).k) <= Span(t, k)
      ensures Only(old(nodes), nodes, Span(t, k))
    {
      DownL(nodes, root, t, k);
      DownR(nodes, root, t, k);
      RepPos(nodes, nodes[node].left, node, t.l);
      RepPos(nodes, nodes[node].right, node, t.r);
      if nodes[node].left != 0 && nodes[node].right != 0 {
        child, parent, color := UnlinkInner(node, t, k);
      } else {
        child := if nodes[node].left == 0 then nodes[node].right else nodes[node].left;
        CtxPos(nodes, root, node, k);
        SideFacts(nodes, root, node, t, k);
        RepPos(nodes, node, Par(k), t);
        parent, color := Bypass(node, child, k);
        BypassRep(old(nodes), nodes, old(root), t, k);
      }
    }

    // ---------- whole operations ----------

    /** rb_link_node: a red leaf in the empty place that `k` describes. */
    method LinkNode(node: nat, parent: nat, leftSide: bool, ghost k: Ctx)
      requires 0 < node < |nodes| && node !in CtxIds(k)
      requires RepZ(nodes, root, 0, E, k)
      requires parent == Par(k) && (k.HoleL? ==> leftSide) && (k.HoleR? ==> !leftSide)
      modifies this
      ensures RepZ(nodes, root, node, T(E, node, Red, E), k)
      ensures Only(old(nodes), nodes, CtxIds(k) + {node})
    {
      CtxPos(nodes, root, 0, k);
      nodes := nodes[node := Node(0, 0, parent, Red)];
      if parent == 0 {
        root := node;
      } else if leftSide {
        nodes := nodes[parent := nodes[parent].(left := node)];
      } else {
        nodes := nodes[parent := nodes[parent].(right := node)];
      }
      RefillHole(old(nodes), nodes, {node, Par(k)}, old(root), 0, node, k);
    }

    /** The search of map.c: down from the root by key, to a node with that key or
        to the empty place where it belongs. */
    method FindPlace(key: int, keys: seq<int>)
      returns (cur: nat, parent: nat, leftSide: bool, ghost k: Ctx)
      requires Valid() && |keys| == |nodes| > 0 && KeySorted(keys, Order())
      ensures cur != 0 ==> cur in Order() && keys[cur] == key
      ensures cur == 0 ==> Searching(nodes, root, tree, keys, key, 0, parent, leftSide, E, k)
    {
      cur, parent, leftSide := root, 0, false;
      ghost var t := tree;
      k := Top;
      CurBound(nodes, cur, 0, t);
      while cur != 0
        invariant Searching(nodes, root, tree, keys, key, cur, parent, leftSide, t, k)
        decreases t
      {
        RootSplits(keys, tree, t, k);
        if key < keys[cur] {
          SearchLeft(nodes, root, tree, keys, key, cur, parent, leftSide, t, k);
          t, k := t.l, HoleL(k, t.id, t.c, t.r);
          parent, leftSide, cur := cur, true, nodes[cur].left;
        } else if key > keys[cur] {
          SearchRight(nodes, root, tree, keys, key, cur, parent, leftSide, t, k);
          t, k := t.r, HoleR(k, t.l, t.id, t.c);
          parent, leftSide, cur := cur, false, nodes[cur].right;
        } else {
          return;
        }
      }
    }

    /** rb_link_node followed by rb_insert_color. */
    method InsertAt(node: nat, parent: nat, leftSide: bool, ghost k: Ctx)
      requires Valid() && 0 < node < |nodes| && node !in Ids(tree)
      requires RepZ(nodes, root, 0, E, k) && Plug(k, E) == tree
      requires parent == Par(k) && (k.HoleL? ==> leftSide) && (k.HoleR? ==> !leftSide)
      modifies this
      ensures Valid() && tree == InsertFix(T(E, node, Red, E), k)
      ensures Only(old(nodes), nodes, old(Ids(tree)) + {node})
    {
      ghost var x := T(E, node, Red, E);
      ghost var h := UnplugRB(k, E);
      IdsPlug(k, E);
      LinkNode(node, parent, leftSide, k);
      InsertColor(node, x, k, h);
      InsertFixRB(x, k, h);
      tree := InsertFix(x, k);
    }

    /** The search from the root by key of map.c, and its insertion of an absent one: link,
        rebalance. `found` is the node that has the key. */
    method PutNode(node: nat, keys: seq<int>) returns (found: nat)
      requires Valid() && 0 < node < |nodes| && node !in Order() && |keys| == |nodes|
      requires KeySorted(keys, Order())
      modifies this
      ensures Valid() && KeySorted(keys, Order())
      ensures found != 0 ==> found in old(Order()) && keys[found] == keys[node]
      ensures found == 0 <==> forall m :: m in old(Order()) ==> keys[m] != keys[node]
      ensures found != 0 ==> tree == old(tree) && nodes == old(nodes) && root == old(root)
      ensures found == 0 ==> Inserted(old(Order()), Order(), node)
      ensures found == 0 ==> InsertCovered(Links(old(tree)), tree, node)
      ensures Only(old(nodes), nodes, old(Ids(tree)) + {node})
    {
      var cur, parent, leftSide, k := FindPlace(keys[node], keys);
      found := cur;
      if cur != 0 {
        return;
      }
      InorderIds(tree);
      IdsPlug(k, E);
      PutCovered(nodes, root, tree, k, node);
      PutOrder(keys, tree, k, node);
      InsertAt(node, parent, leftSide, k);
    }

    /** put of map.c: the tree is a map from keys to values, and is updated at one key. A value
        of size zero is refused. */
    method Put(node: nat, keys: seq<int>, vals: array<seq<byte>>, val: seq<byte>, size: nat) returns (added: bool)
      requires Valid() && 0 < node < |nodes| && node !in Order() && |keys| == |nodes| == vals.Length
      requires KeySorted(keys, Order()) && size <= |val|
      requires var m := Contents(Order(), keys, vals[..]); size != 0 && keys[node] in m ==> Holds(m[keys[node]], val)
      modifies this, vals
      ensures Valid() && KeySorted(keys, Order()) && |nodes| == old(|nodes|)
      ensures added <==> size != 0 && keys[node] !in old(Contents(Order(), keys, vals[..]))
      ensures var m := old(Contents(Order(), keys, vals[..]));
        Contents(Order(), keys, vals[..]) ==
        if size == 0 then m else m[keys[node] := Stored(m, keys[node], val, size)]
      ensures added ==> Contents(Order(), keys, vals[..])[keys[node]] == val[..size]
      ensures if added then Inserted(old(Order()), Order(), node) else Order() == old(Order())
    {
      if size == 0 {
        return false;
      }
      hide KeySorted, Inserted, Contents, Holds, StrCopy, Rep, IsRedBlack, Stored;
      ghost var order0, vals0 := Order(), vals[..];
      var found := PutNode(node, keys);
      PutAt(order0, Order(), keys, vals0, found, node, val, size);
      added := found == 0;
      if added {
        vals[node] := val[..size];
      } else {
        vals[found] := StrCopy(vals[found], val);
      }
    }

    /** get of map.c */
    method Get(key: int, keys: seq<int>) returns (found: nat)
      requires Valid() && |keys| == |nodes| > 0 && KeySorted(keys, Order())
      ensures found != 0 ==> found in Order() && keys[found] == key
      ensures found == 0 <==> forall m :: m in Order() ==> keys[m] != key
    {
      found := root;
      ghost var parent, leftSide, t, k := 0, false, tree, Top;
      CurBound(nodes, found, 0, t);
      while found != 0
        invariant Searching(nodes, root, tree, keys, key, found, parent, leftSide, t, k)
        decreases t
      {
        RootSplits(keys, tree, t, k);
        if key < keys[found] {
          SearchLeft(nodes, root, tree, keys, key, found, parent, leftSide, t, k);
          t, k := t.l, HoleL(k, t.id, t.c, t.r);
          parent, leftSide, found := found, true, nodes[found].left;
        } else if key > keys[found] {
          SearchRight(nodes, root, tree, keys, key, found, parent, leftSide, t, k);
          t, k := t.r, HoleR(k, t.l, t.id, t.c);
          parent, leftSide, found := found, false, nodes[found].right;
        } else {
          return;
        }
      }
      InorderPlug(k, E);
    }

    /** rb_erase of any node of the tree. */
    method Erase(node: nat)
      requires Valid() && node in Ids(tree)
      modifies this
      ensures Valid() && Inserted(Order(), old(Order()), node)
      ensures var start := old(EraseStartOf(tree, node));
        if start == 0 then tree == E else Cov(Links(old(tree)), tree, start)
      ensures Only(old(nodes), nodes, old(Ids(tree)))
    {
      InorderIds(tree);
      ghost var (t, k) := Locate(tree, Top, node);
      UnplugRep(nodes, root, t, k);
      RepDistinct(nodes, root, 0, tree);
      RepDistinct(nodes, node, Par(k), t);
      RepCtxDistinct(nodes, root, node, k);
      RepPos(nodes, node, Par(k), t);
      CtxPos(nodes, root, node, k);
      IdsPlug(k, t);
      ErasedCov(t, k);
      ErasedRB(t, k);
      ErasedOrder(t, k);
      InsertedBetween(Before(k) + Inorder(t.l), node, Inorder(t.r) + After(k));
      EraseNode(node, t, k);
      tree := Erased(t, k);
    }

    // ---------- iteration ----------

    /** rb_first */
    method First() returns (n: nat)
      requires Valid()
      ensures n == if Order() == [] then 0 else Order()[0]
    {
      n := root;
      RepPos(nodes, root, 0, tree);
      if n == 0 {
        return;
      }
      ghost var t, k;
      n, t, k := GoLeftmost(n, tree, Top);
      LeftmostBefore(tree, Top);
      InorderPlug(k, t);
    }

    /** rb_next */
    method Next(node: nat) returns (n: nat)
      requires Valid() && node in Ids(tree)
      ensures NextIn(Order(), node, n)
    {
      InorderIds(tree);
      ghost var (t, k) := Locate(tree, Top, node);
      UnplugRep(nodes, root, t, k);
      n := NextAt(node, t, k);
      InorderPlug(k, t);
      NextSplit(Before(k), Inorder(t.l), node, Inorder(t.r), After(k), n);
    }

    method NextAt(node0: nat, ghost t: Tree, ghost k0: Ctx) returns (n: nat)
      requires t.T? && RepZ(nodes, root, node0, t, k0)
      ensures n == if Inorder(t.r) + After(k0) == [] then 0 else (Inorder(t.r) + After(k0))[0]
      ensures t.r.T? ==> n == Leftmost(t.r, HoleR(k0, t.l, t.id, t.c)).0.id
    {
      DownR(nodes, root, t, k0);
      CtxPos(nodes, root, node0, k0);
      RepPos(nodes, node0, Par(k0), t);
      RepPos(nodes, nodes[node0].right, node0, t.r);
      if nodes[node0].parent == node0 {
        assert false;
      }
      if nodes[node0].right != 0 {
        ghost var y, ky, kr := E, Top, HoleR(k0, t.l, t.id, t.c);
        n, y, ky := GoLeftmost(nodes[node0].right, t.r, kr);
        LeftmostFirst(t.r, kr);
        return;
      }
      var node := node0;
      ghost var x, k := t, k0;
      n := nodes[node].parent;
      while n != 0 && node == nodes[n].right
        invariant RepZ(nodes, root, node, x, k) && x.T? && n == Par(k) && node == x.id
        invariant n < |nodes| && (n == 0 <==> k.Top?)
        invariant After(k) == After(k0)
        decreases Depth(k)
      {
        Climb(nodes, root, x, k);
        node := n;
        x, k := Fill(k, x), k.up;
        n := nodes[node].parent;
      }
      if n != 0 { Climb(nodes, root, x, k); }
    }

    // ---------- augmented values ----------

    /** The callback: a node's value from its own and its children's values. */
    method Recompute<V>(node: nat, vals: array<V>, f: Summary<V>, ghost t: Tree, ghost k: Ctx)
      requires RepZ(nodes, root, node, t, k) && t.T? && |nodes| == vals.Length
      requires BelowGood(vals[..], f, t)
      modifies vals
      ensures Good(vals[..], f, t)
      ensures forall i :: 0 <= i < vals.Length && i != node ==> vals[i] == old(vals[i])
    {
      DownL(nodes, root, t, k);
      DownR(nodes, root, t, k);
      RepPos(nodes, node, Par(k), t);
      ghost var vs := vals[..];
      vals[node] := f(node, ValueOf(vals[..], nodes[node].left), ValueOf(vals[..], nodes[node].right));
      assert vals[..] == vs[node := f(node, ValueOf(vs, RootId(t.l)), ValueOf(vs, RootId(t.r)))];
      Recomputed(vs, vals[..], f, t);
    }

    /** rb_augment_path */
    method AugmentPath<V>(start: nat, vals: array<V>, f: Summary<V>, ghost t0: Tree, ghost k0: Ctx)
      requires RepZ(nodes, root, start, t0, k0) && t0.T? && |nodes| == vals.Length
      requires BelowGood(vals[..], f, t0) && CtxBelowGood(vals[..], f, k0)
      modifies vals
      ensures Good(vals[..], f, Plug(k0, t0))
    {
      var node := start;
      ghost var t, k := t0, k0;
      while true
        invariant RepZ(nodes, root, node, t, k) && t.T? && Plug(k, t) == Plug(k0, t0)
        invariant BelowGood(vals[..], f, t) && CtxBelowGood(vals[..], f, k)
        decreases Depth(k)
      {
        CtxPos(nodes, root, node, k);
        ghost var vs := vals[..];
        Recompute(node, vals, f, t, k);
        CtxGoodFrame(vs, vals[..], f, k);
        var parent := nodes[node].parent;
        if parent == 0 {
          return;
        }
        Climb(nodes, root, t, k);
        Sibling(node, parent, vals, f, t, k);
        node := parent;
        t, k := Fill(k, t), k.up;
      }
    }

    /** The callback on the sibling of `node`, or on `node` again if it has none. */
    method Sibling<V>(node: nat, parent: nat, vals: array<V>, f: Summary<V>, ghost t: Tree, ghost k: Ctx)
      requires RepZ(nodes, root, node, t, k) && t.T? && |nodes| == vals.Length && !k.Top? && parent == Par(k) < |nodes|
      requires nodes[parent].right == node <==> k.HoleR?
      requires nodes[parent].left == node <==> k.HoleL?
      requires Good(vals[..], f, t) && CtxBelowGood(vals[..], f, k)
      modifies vals
      ensures BelowGood(vals[..], f, Fill(k, t)) && CtxBelowGood(vals[..], f, k.up)
    {
      ghost var p := Fill(k, t);
      GoUp(nodes, root, node, t, k);
      DownL(nodes, root, p, k.up);
      DownR(nodes, root, p, k.up);
      ghost var vs := vals[..];
      if node == nodes[parent].left && nodes[parent].right != 0 {
        Recompute(nodes[parent].right, vals, f, p.r, HoleR(k.up, p.l, p.id, p.c));
      } else if nodes[parent].left != 0 {
        Recompute(nodes[parent].left, vals, f, p.l, HoleL(k.up, p.id, p.c, p.r));
      }
      if k.HoleR? || nodes[parent].right != 0 { GoodFrame(vs, vals[..], f, t); }
      CtxGoodFrame(vs, vals[..], f, k.up);
    }

    /** rb_augment_insert */
    method AugmentInsert<V>(node0: nat, vals: array<V>, f: Summary<V>, ghost s: set<Link>)
      requires Valid() && |nodes| == vals.Length && InsertCovered(s, tree, node0)
      requires forall e :: e in s ==> Right(vals[..], f, e)
      modifies vals
      ensures Good(vals[..], f, tree)
    {
      ghost var e :| e in Links(tree) && e.id == node0 && Cov(s, tree, StartFrom(e));
      LinkRep(nodes, root, 0, tree, e);
      var node := node0;
      if nodes[node].left != 0 {
        node := nodes[node].left;
      } else if nodes[node].right != 0 {
        node := nodes[node].right;
      }
      AugmentFrom(node, vals, f, s);
    }

    method AugmentFrom<V>(start: nat, vals: array<V>, f: Summary<V>, ghost s: set<Link>)
      requires Valid() && |nodes| == vals.Length && Cov(s, tree, start)
      requires forall e :: e in s ==> Right(vals[..], f, e)
      modifies vals
      ensures Good(vals[..], f, tree)
    {
      CovStart(s, vals[..], f, tree, Top, start);
      ghost var (t, k) := Locate(tree, Top, start);
      UnplugRep(nodes, root, t, k);
      AugmentPath(start, vals, f, t, k);
    }

    /** rb_augment_erase_begin */
    method AugmentEraseBegin(node: nat) returns (deepest: nat)
      requires Valid() && node in Ids(tree)
      ensures deepest == EraseStartOf(tree, node)
    {
      ghost var (t, k) := Locate(tree, Top, node);
      UnplugRep(nodes, root, t, k);
      DownL(nodes, root, t, k);
      DownR(nodes, root, t, k);
      RepPos(nodes, node, Par(k), t);
      RepPos(nodes, nodes[node].left, node, t.l);
      RepPos(nodes, nodes[node].right, node, t.r);
      if nodes[node].right == 0 && nodes[node].left == 0 {
        deepest := nodes[node].parent;
      } else if nodes[node].right == 0 {
        deepest := nodes[node].left;
      } else if nodes[node].left == 0 {
        deepest := nodes[node].right;
      } else {
        deepest := BeginAtSuccessor(node, t, k);
      }
    }

    /** With two children: around the place of the successor. */
    method BeginAtSuccessor(node: nat, ghost t: Tree, ghost k: Ctx) returns (deepest: nat)
      requires t.T? && t.l.T? && t.r.T? && RepZ(nodes, root, node, t, k)
      ensures deepest == EraseStart(t, k)
    {
      ghost var kr := HoleR(k, t.l, t.id, t.c);
      ghost var (y, ky) := Leftmost(t.r, kr);
      deepest := NextAt(node, t, k);
      RootHere(nodes, root, node, t, k);
      DownR(nodes, root, t, k);
      LeftmostSpine(t.r, kr, k, t.l, t.id, t.c);
      LeftmostRep(nodes, root, t.r, kr);
      SpliceFacts(nodes, root, t, k, y, ky);
      LeafFacts(nodes, root, y, ky);
      AtGap(k, t.l, t.id, t.c, y, ky);
      hide Rep, RepCtx, RepZ, Ids, CtxIds, Spine, SpliceReady, Leftmost, Inorder, After, Par;
      if nodes[deepest].right != 0 {
        deepest := nodes[deepest].right;
      } else if nodes[deepest].parent != node {
        deepest := nodes[deepest].parent;
      }
    }

    /** rb_augment_erase_end */
    method AugmentEraseEnd<V>(node: nat, vals: array<V>, f: Summary<V>, ghost s: set<Link>)
      requires Valid() && |nodes| == vals.Length && (if node == 0 then tree == E else Cov(s, tree, node))
      requires forall e :: e in s ==> Right(vals[..], f, e)
      modifies vals
      ensures Good(vals[..], f, tree)
    {
      if node != 0 {
        AugmentFrom(node, vals, f, s);
      }
    }

    /** Insertion with its augmentation pass leaves every value right. */
    method PutAugmented<V>(node: nat, keys: seq<int>, vals: array<V>, f: Summary<V>) returns (added: bool)
      requires Valid() && 0 < node < |nodes| && node !in Order() && |keys| == |nodes|
      requires KeySorted(keys, Order()) && vals.Length == |nodes| && Good(vals[..], f, tree)
      modifies this, vals
      ensures Valid() && KeySorted(keys, Order()) && Good(vals[..], f, tree)
      ensures added <==> forall m :: m in old(Order()) ==> keys[m] != keys[node]
      ensures added ==> Inserted(old(Order()), Order(), node)
      ensures !added ==> tree == old(tree) && nodes == old(nodes) && vals[..] == old(vals[..])
    {
      ghost var s := Links(tree);
      var found := PutNode(node, keys);
      added := found == 0;
      if added {
        AugmentInsert(node, vals, f, s);
      }
    }

    /** Removal between its two augmentation hooks leaves every value right. */
    method EraseAugmented<V>(node: nat, vals: array<V>, f: Summary<V>)
      requires Valid() && node in Ids(tree) && vals.Length == |nodes| && Good(vals[..], f, tree)
      modifies this, vals
      ensures Valid() && Inserted(Order(), old(Order()), node) && Good(vals[..], f, tree)
    {
      ghost var s := Links(tree);
      var deepest := AugmentEraseBegin(node);
      Erase(node);
      AugmentEraseEnd(deepest, vals, f, s);
    }
  }
}
