/** Rebalancing on shapes: what rb_insert_color and __rb_erase_color make of a
    tree cut at the node they start from, and that the result is red-black with
    the nodes in the same order. */
module RbBalance {
  import opened RbShape

  function Blacken(t: Tree): Tree {
    match t
    case E => E
    case T(l, id, _, r) => T(l, id, Black, r)
  }

  lemma BlackenSame(t: Tree)
    ensures Inorder(Blacken(t)) == Inorder(t) && Ids(Blacken(t)) == Ids(t)
  {
  }

  // ---------- insertion ----------

  /** The tree that rebalancing makes of `t` (a red node) in `k`. */
  function InsertFix(t: Tree, k: Ctx): Tree
    requires t.T?
    decreases k
  {
    if !HeadRed(k) || k.up.Top? then Blacken(Plug(k, t))
    else
      var p := Fill(k, t);
      match k.up
      case HoleL(up, g, _, u) =>
        if !IsBlack(u) then InsertFix(T(Blacken(p), g, Red, Blacken(u)), up)
        else if k.HoleL? then Blacken(Plug(up, T(t, k.id, Black, T(k.r, g, Red, u))))
        else Blacken(Plug(up, T(T(k.l, k.id, Red, t.l), t.id, Black, T(t.r, g, Red, u))))
      case HoleR(up, u, g, _) =>
        if !IsBlack(u) then InsertFix(T(Blacken(u), g, Red, Blacken(p)), up)
        else if k.HoleR? then Blacken(Plug(up, T(T(u, g, Red, k.l), k.id, Black, t)))
        else Blacken(Plug(up, T(T(u, g, Red, t.l), t.id, Black, T(t.r, k.id, Red, k.r))))
  }

  lemma {:induction false} InsertFixRB(t: Tree, k: Ctx, h: nat)
    requires t.T? && t.c == Red && RB(t, h) && CtxRB(k, h)
    ensures IsRedBlack(InsertFix(t, k))
    decreases k
  {
    if k.Top? {
      assert RB(Blacken(t), h + 1);
    } else if k.c == Black {
      PlugRB(k, t, h);
      BlackenRB(Plug(k, t));
    } else {
      var p := Fill(k, t);
      assert CtxRB(k.up, h) && k.up.c == Black;
      assert RB(Blacken(p), h + 1);
      match k.up
      case HoleL(up, g, _, u) =>
        if !IsBlack(u) {
          InsertFixRB(T(Blacken(p), g, Red, Blacken(u)), up, h + 1);
        } else {
          var t' := if k.HoleL? then T(t, k.id, Black, T(k.r, g, Red, u))
                    else T(T(k.l, k.id, Red, t.l), t.id, Black, T(t.r, g, Red, u));
          assert RB(t'.l, h) && RB(t'.r, h);
          PlugRB(up, t', h + 1);
          BlackenRB(Plug(up, t'));
        }
      case HoleR(up, u, g, _) =>
        if !IsBlack(u) {
          InsertFixRB(T(Blacken(u), g, Red, Blacken(p)), up, h + 1);
        } else {
          var t' := if k.HoleR? then T(T(u, g, Red, k.l), k.id, Black, t)
                    else T(T(u, g, Red, t.l), t.id, Black, T(t.r, k.id, Red, k.r));
          assert RB(t'.l, h) && RB(t'.r, h);
          PlugRB(up, t', h + 1);
          BlackenRB(Plug(up, t'));
        }
    }
  }

  lemma BlackenRB(t: Tree)
    requires IsRedBlack(t)
    ensures Blacken(t) == t
  {
  }

  lemma {:induction false} InsertFixOrder(t: Tree, k: Ctx)
    requires t.T?
    ensures Inorder(InsertFix(t, k)) == Inorder(Plug(k, t))
    decreases k
  {
    if !HeadRed(k) || k.up.Top? {
      BlackenSame(Plug(k, t));
    } else {
      var p := Fill(k, t);
      var g := Fill(k.up, p);
      var up := k.up.up;
      assert Plug(k, t) == Plug(up, g);
      match k.up
      case HoleL(_, gid, _, u) =>
        if !IsBlack(u) {
          InsertFixOrder(T(Blacken(p), gid, Red, Blacken(u)), up);
          SameOrder(up, g, T(Blacken(p), gid, Red, Blacken(u)));
        } else if k.HoleL? {
          RotRSame(g);
          SettleOrder(up, g, T(t, k.id, Black, T(k.r, gid, Red, u)));
        } else {
          RotLSame(p);
          RotRSame(T(RotL(p), gid, Red, u));
          SettleOrder(up, g, T(T(k.l, k.id, Red, t.l), t.id, Black, T(t.r, gid, Red, u)));
        }
      case HoleR(_, u, gid, _) =>
        if !IsBlack(u) {
          InsertFixOrder(T(Blacken(u), gid, Red, Blacken(p)), up);
          SameOrder(up, g, T(Blacken(u), gid, Red, Blacken(p)));
        } else if k.HoleR? {
          RotLSame(g);
          SettleOrder(up, g, T(T(u, gid, Red, k.l), k.id, Black, t));
        } else {
          RotRSame(p);
          RotLSame(T(u, gid, Red, RotR(p)));
          SettleOrder(up, g, T(T(u, gid, Red, t.l), t.id, Black, T(t.r, k.id, Red, k.r)));
        }
    }
  }

  lemma SettleOrder(k: Ctx, t: Tree, t': Tree)
    requires Inorder(t) == Inorder(t')
    ensures Inorder(Blacken(Plug(k, t'))) == Inorder(Plug(k, t))
  {
    SameOrder(k, t, t');
    BlackenSame(Plug(k, t'));
  }

  // ---------- removal ----------

  /** `t` is one black node short of `h + 1`, or a red node may be blackened to
      make it up. */
  ghost predicate Deficit(t: Tree, h: nat) {
    if IsBlack(t) then RB(t, h) else RB(Blacken(t), h + 1)
  }

  /** The tree that rebalancing makes of `t`, one black node short, in `k`. */
  function EraseFix(t: Tree, k: Ctx): Tree
    decreases Depth(k), if IsBlack(t) then 2 else 0
  {
    if !IsBlack(t) || k.Top? then Plug(k, Blacken(t))
    else match k
      case HoleL(up, p, c, o) =>
        if o.E? then Plug(k, t)
        else if o.c == Black then EraseFixL(t, up, p, c, o)
        else if o.l.E? then Plug(k, t)
        else EraseFixL(t, HoleL(up, o.id, Black, o.r), p, Red, o.l)
      case HoleR(up, o, p, c) =>
        if o.E? then Plug(k, t)
        else if o.c == Black then EraseFixR(t, up, p, c, o)
        else if o.r.E? then Plug(k, t)
        else EraseFixR(t, HoleR(up, o.l, o.id, Black), p, Red, o.r)
  }

  /** `t` is the short left child of `p`, whose right child `o` is black. */
  function EraseFixL(t: Tree, up: Ctx, p: nat, c: Color, o: Tree): Tree
    requires o.T?
    decreases Depth(up), if c == Black then 3 else 1
  {
    if IsBlack(o.l) && IsBlack(o.r) then EraseFix(T(t, p, c, T(o.l, o.id, Red, o.r)), up)
    else Blacken(Plug(up, SettledL(t, p, c, o)))
  }

  /** The mirror image of `EraseFixL`. */
  function EraseFixR(t: Tree, up: Ctx, p: nat, c: Color, o: Tree): Tree
    requires o.T?
    decreases Depth(up), if c == Black then 3 else 1
  {
    if IsBlack(o.l) && IsBlack(o.r) then EraseFix(T(T(o.l, o.id, Red, o.r), p, c, t), up)
    else Blacken(Plug(up, SettledR(t, p, c, o)))
  }

  lemma {:induction false} EraseFixRB(t: Tree, k: Ctx, h: nat)
    requires Deficit(t, h) && CtxRB(k, h + 1)
    ensures IsRedBlack(EraseFix(t, k))
    decreases Depth(k), if IsBlack(t) then 2 else 0
  {
    if !IsBlack(t) {
      PlugRB(k, Blacken(t), h + 1);
    } else {
      match k
      case Top => assert Blacken(t) == t;
      case HoleL(up, p, c, o) =>
        if o.c == Black {
          EraseFixLRB(t, up, p, c, o, h);
        } else {
          assert RB(o.l, h + 1) && RB(o.r, h + 1);
          EraseFixLRB(t, HoleL(up, o.id, Black, o.r), p, Red, o.l, h);
        }
      case HoleR(up, o, p, c) =>
        if o.c == Black {
          EraseFixRRB(t, up, p, c, o, h);
        } else {
          assert RB(o.l, h + 1) && RB(o.r, h + 1);
          EraseFixRRB(t, HoleR(up, o.l, o.id, Black), p, Red, o.r, h);
        }
    }
  }

  /** The subtree that makes up for a short left child, before the root of the
      whole tree is blackened. */
  function SettledL(t: Tree, p: nat, c: Color, o: Tree): Tree
    requires o.T? && !(IsBlack(o.l) && IsBlack(o.r))
  {
    if IsBlack(o.r) then T(T(t, p, Black, o.l.l), o.l.id, c, T(o.l.r, o.id, Black, o.r))
    else T(T(t, p, Black, o.l), o.id, c, Blacken(o.r))
  }

  function SettledR(t: Tree, p: nat, c: Color, o: Tree): Tree
    requires o.T? && !(IsBlack(o.l) && IsBlack(o.r))
  {
    if IsBlack(o.l) then T(T(o.l, o.id, Black, o.r.l), o.r.id, c, T(o.r.r, p, Black, t))
    else T(Blacken(o.l), o.id, c, T(o.r, p, Black, t))
  }

  lemma SettledLRB(t: Tree, up: Ctx, p: nat, c: Color, o: Tree, h: nat)
    requires IsBlack(t) && RB(t, h) && o.T? && o.c == Black && RB(o, h + 1)
    requires CtxRB(up, if c == Black then h + 2 else h + 1) && (c == Red ==> HeadBlack(up))
    requires !(IsBlack(o.l) && IsBlack(o.r))
    ensures IsRedBlack(Plug(up, SettledL(t, p, c, o)))
  {
    var t' := SettledL(t, p, c, o);
    assert RB(t'.l, h + 1) && RB(t'.r, h + 1);
    PlugRB(up, t', if c == Black then h + 2 else h + 1);
  }

  lemma SettledRRB(t: Tree, up: Ctx, p: nat, c: Color, o: Tree, h: nat)
    requires IsBlack(t) && RB(t, h) && o.T? && o.c == Black && RB(o, h + 1)
    requires CtxRB(up, if c == Black then h + 2 else h + 1) && (c == Red ==> HeadBlack(up))
    requires !(IsBlack(o.l) && IsBlack(o.r))
    ensures IsRedBlack(Plug(up, SettledR(t, p, c, o)))
  {
    var t' := SettledR(t, p, c, o);
    assert RB(t'.l, h + 1) && RB(t'.r, h + 1);
    PlugRB(up, t', if c == Black then h + 2 else h + 1);
  }

  lemma {:induction false} EraseFixLRB(t: Tree, up: Ctx, p: nat, c: Color, o: Tree, h: nat)
    requires IsBlack(t) && RB(t, h) && o.T? && o.c == Black && RB(o, h + 1)
    requires CtxRB(up, if c == Black then h + 2 else h + 1) && (c == Red ==> HeadBlack(up))
    ensures IsRedBlack(EraseFixL(t, up, p, c, o))
    decreases Depth(up), if c == Black then 3 else 1
  {
    if IsBlack(o.l) && IsBlack(o.r) {
      var t' := T(t, p, c, T(o.l, o.id, Red, o.r));
      assert RB(T(o.l, o.id, Red, o.r), h);
      EraseFixRB(t', up, if c == Black then h + 1 else h);
    } else {
      SettledLRB(t, up, p, c, o, h);
      BlackenRB(Plug(up, SettledL(t, p, c, o)));
    }
  }

  lemma {:induction false} EraseFixRRB(t: Tree, up: Ctx, p: nat, c: Color, o: Tree, h: nat)
    requires IsBlack(t) && RB(t, h) && o.T? && o.c == Black && RB(o, h + 1)
    requires CtxRB(up, if c == Black then h + 2 else h + 1) && (c == Red ==> HeadBlack(up))
    ensures IsRedBlack(EraseFixR(t, up, p, c, o))
    decreases Depth(up), if c == Black then 3 else 1
  {
    if IsBlack(o.l) && IsBlack(o.r) {
      var t' := T(T(o.l, o.id, Red, o.r), p, c, t);
      assert RB(T(o.l, o.id, Red, o.r), h);
      EraseFixRB(t', up, if c == Black then h + 1 else h);
    } else {
      SettledRRB(t, up, p, c, o, h);
      BlackenRB(Plug(up, SettledR(t, p, c, o)));
    }
  }

  lemma {:induction false} EraseFixOrder(t: Tree, k: Ctx)
    ensures Inorder(EraseFix(t, k)) == Inorder(Plug(k, t))
    decreases Depth(k), if IsBlack(t) then 2 else 0
  {
    if !IsBlack(t) || k.Top? {
      BlackenSame(t);
      SameOrder(k, t, Blacken(t));
    } else {
      match k
      case HoleL(up, p, c, o) =>
        if o.E? {
        } else if o.c == Black {
          EraseFixLOrder(t, up, p, c, o);
        } else if o.l.T? {
          EraseFixLOrder(t, HoleL(up, o.id, Black, o.r), p, Red, o.l);
          RotLSame(T(t, p, Red, o));
          SameOrder(up, T(t, p, c, o), T(T(t, p, Red, o.l), o.id, Black, o.r));
        }
      case HoleR(up, o, p, c) =>
        if o.E? {
        } else if o.c == Black {
          EraseFixROrder(t, up, p, c, o);
        } else if o.r.T? {
          EraseFixROrder(t, HoleR(up, o.l, o.id, Black), p, Red, o.r);
          RotRSame(T(o, p, Red, t));
          SameOrder(up, T(o, p, c, t), T(o.l, o.id, Black, T(o.r, p, Red, t)));
        }
    }
  }

  lemma {:induction false} EraseFixLOrder(t: Tree, up: Ctx, p: nat, c: Color, o: Tree)
    requires o.T?
    ensures Inorder(EraseFixL(t, up, p, c, o)) == Inorder(Plug(up, T(t, p, c, o)))
    decreases Depth(up), if c == Black then 3 else 1
  {
    if IsBlack(o.l) && IsBlack(o.r) {
      EraseFixOrder(T(t, p, c, T(o.l, o.id, Red, o.r)), up);
      SameOrder(up, T(t, p, c, o), T(t, p, c, T(o.l, o.id, Red, o.r)));
    } else if IsBlack(o.r) {
      RotRSame(o);
      RotLSame(T(t, p, c, RotR(o)));
      SettleOrder(up, T(t, p, c, o), T(T(t, p, Black, o.l.l), o.l.id, c, T(o.l.r, o.id, Black, o.r)));
    } else {
      RotLSame(T(t, p, c, o));
      SettleOrder(up, T(t, p, c, o), T(T(t, p, Black, o.l), o.id, c, Blacken(o.r)));
    }
  }

  lemma {:induction false} EraseFixROrder(t: Tree, up: Ctx, p: nat, c: Color, o: Tree)
    requires o.T?
    ensures Inorder(EraseFixR(t, up, p, c, o)) == Inorder(Plug(up, T(o, p, c, t)))
    decreases Depth(up), if c == Black then 3 else 1
  {
    if IsBlack(o.l) && IsBlack(o.r) {
      EraseFixOrder(T(T(o.l, o.id, Red, o.r), p, c, t), up);
      SameOrder(up, T(o, p, c, t), T(T(o.l, o.id, Red, o.r), p, c, t));
    } else if IsBlack(o.l) {
      RotLSame(o);
      RotRSame(T(RotL(o), p, c, t));
      SettleOrder(up, T(o, p, c, t), T(T(o.l, o.id, Black, o.r.l), o.r.id, c, T(o.r.r, p, Black, t)));
    } else {
      RotRSame(T(o, p, c, t));
      SettleOrder(up, T(o, p, c, t), T(Blacken(o.l), o.id, c, T(o.r, p, Black, t)));
    }
  }

  // ---------- taking a node out ----------

  /** The leftmost node of `t`, cut out of a tree. */
  ghost function Leftmost(t: Tree, k: Ctx): (z: (Tree, Ctx))
    requires t.T?
    ensures z.0.T? && z.0.l.E? && Plug(z.1, z.0) == Plug(k, t)
    decreases t
  {
    if t.l.E? then (t, k) else Leftmost(t.l, HoleL(k, t.id, t.c, t.r))
  }

  /** Putting `y` where the nearest node left of the hole is. */
  function Renamed(k: Ctx, y: nat): Ctx {
    match k
    case Top => Top
    case HoleL(up, id, c, r) => HoleL(Renamed(up, y), id, c, r)
    case HoleR(up, l, _, c) => HoleR(up, l, y, c)
  }

  /** What is left at the place where a node goes missing, and its colour. */
  datatype Gap = Gap(t: Tree, k: Ctx, c: Color)

  /** Unlinking the root of `t`: a node with two children gives its place to its
      successor, and the gap opens where the successor was. */
  ghost function Unlink(t: Tree, k: Ctx): Gap
    requires t.T?
  {
    if t.l.E? then Gap(t.r, k, t.c)
    else if t.r.E? then Gap(t.l, k, t.c)
    else
      var (y, ky) := Leftmost(t.r, HoleR(k, t.l, t.id, t.c));
      Gap(y.r, Renamed(ky, y.id), y.c)
  }

  ghost function Erased(t: Tree, k: Ctx): Tree
    requires t.T?
  {
    var g := Unlink(t, k);
    if g.c == Black then EraseFix(g.t, g.k) else Plug(g.k, g.t)
  }

  /** The hole of `k` is reached from its nearest left neighbour `z`, the node of
      the frame `HoleR(base, l, z, c)`, by going right once and then left. */
  ghost predicate Spine(k: Ctx, base: Ctx, l: Tree, z: nat, c: Color) {
    match k
    case Top => false
    case HoleL(up, _, _, _) => Spine(up, base, l, z, c)
    case HoleR(_, _, _, _) => k == HoleR(base, l, z, c)
  }

  lemma {:induction false} LeftmostSpine(t: Tree, k: Ctx, base: Ctx, l: Tree, z: nat, c: Color)
    requires t.T? && Spine(k, base, l, z, c)
    ensures Spine(Leftmost(t, k).1, base, l, z, c)
    decreases t
  {
    if t.l.T? { LeftmostSpine(t.l, HoleL(k, t.id, t.c, t.r), base, l, z, c); }
  }

  lemma {:induction false} RenamedShape(k: Ctx, base: Ctx, l: Tree, z: nat, c: Color, y: nat, h: nat)
    requires Spine(k, base, l, z, c)
    ensures CtxRB(Renamed(k, y), h) <==> CtxRB(k, h)
    ensures HeadBlack(Renamed(k, y)) == HeadBlack(k)
    ensures Before(k) == Before(base) + Inorder(l) + [z]
    ensures Before(Renamed(k, y)) == Before(base) + Inorder(l) + [y]
    ensures After(Renamed(k, y)) == After(k)
    decreases k
  {
    match k
    case HoleL(up, _, cc, r) =>
      RenamedShape(up, base, l, z, c, y, if cc == Black then h + 1 else h);
    case HoleR(_, _, _, _) =>
  }

  lemma {:induction false} ErasedRB(t: Tree, k: Ctx)
    requires t.T? && IsRedBlack(Plug(k, t))
    ensures IsRedBlack(Erased(t, k))
  {
    var g := Unlink(t, k);
    var h := GapRB(t, k);
    if g.c == Black {
      EraseFixRB(g.t, g.k, h);
    } else {
      PlugRB(g.k, g.t, h);
    }
  }

  lemma {:induction false} GapRB(t: Tree, k: Ctx) returns (h: nat)
    requires t.T? && IsRedBlack(Plug(k, t))
    ensures var g := Unlink(t, k);
      if g.c == Black then Deficit(g.t, h) && CtxRB(g.k, h + 1)
      else RB(g.t, h) && CtxRB(g.k, h) && (IsBlack(g.t) || HeadBlack(g.k))
  {
    if t.l.E? || t.r.E? {
      h := UnplugRB(k, t);
      if t.c == Black { h := h - 1; }
    } else {
      var kr := HoleR(k, t.l, t.id, t.c);
      var (y, ky) := Leftmost(t.r, kr);
      LeftmostSpine(t.r, kr, k, t.l, t.id, t.c);
      h := UnplugRB(ky, y);
      RenamedShape(ky, k, t.l, t.id, t.c, y.id, h);
      if y.c == Black { h := h - 1; }
    }
  }

  /** Around the gap lies what was around the node. */
  lemma {:induction false} GapOrder(t: Tree, k: Ctx)
    requires t.T?
    ensures var g := Unlink(t, k);
      Before(g.k) + Inorder(g.t) + After(g.k) == (Before(k) + Inorder(t.l)) + Inorder(t.r) + After(k)
  {
    if t.l.E? {
      assert Before(k) + [] == Before(k);
    } else if t.r.E? {
      assert (Before(k) + Inorder(t.l)) + [] == Before(k) + Inorder(t.l);
    } else {
      var kr := HoleR(k, t.l, t.id, t.c);
      var (y, ky) := Leftmost(t.r, kr);
      LeftmostSpine(t.r, kr, k, t.l, t.id, t.c);
      RenamedShape(ky, k, t.l, t.id, t.c, y.id, 0);
      InorderPlug(ky, y);
      InorderPlug(kr, t.r);
      assert Inorder(y) == [y.id] + Inorder(y.r);
      SwapSuccessor(Before(k) + Inorder(t.l), t.id, y.id, Inorder(y.r), After(ky), Inorder(t.r), After(k));
    }
  }

  /** Removal takes exactly the node itself out of the order. */
  lemma {:induction false} ErasedOrder(t: Tree, k: Ctx)
    requires t.T?
    ensures Inorder(Plug(k, t)) == (Before(k) + Inorder(t.l)) + [t.id] + (Inorder(t.r) + After(k))
    ensures Inorder(Erased(t, k)) == (Before(k) + Inorder(t.l)) + (Inorder(t.r) + After(k))
  {
    var g := Unlink(t, k);
    if g.c == Black { EraseFixOrder(g.t, g.k); }
    InorderPlug(g.k, g.t);
    GapOrder(t, k);
    InorderPlug(k, t);
    Cat5(Before(k), Inorder(t.l), [t.id], Inorder(t.r), After(k));
    Cat4(Before(k) + Inorder(t.l), Inorder(t.r), [t.id], After(k));
  }

  lemma Cat4(a: seq<nat>, b: seq<nat>, x: seq<nat>, c: seq<nat>)
    ensures a + b + c == a + (b + c)
    ensures a + x + b + c == a + x + (b + c)
  {
  }

  /** If `z` is followed by `y` in one list, dropping `z` leaves `y` in its place. */
  lemma SwapSuccessor(a: seq<nat>, z: nat, y: nat, b: seq<nat>, b': seq<nat>, c: seq<nat>, c': seq<nat>)
    requires a + [z] + ([y] + b) + b' == a + [z] + c + c'
    ensures a + [y] + b + b' == a + c + c'
  {
    var u, v := [y] + b + b', c + c';
    assert a + [z] + ([y] + b) + b' == a + [z] + u && a + [z] + c + c' == a + [z] + v;
    SamePart(a + [z], u, v);
    assert a + [y] + b + b' == a + u;
    assert a + c + c' == a + v;
  }

  lemma SamePart(a: seq<nat>, u: seq<nat>, v: seq<nat>)
    requires a + u == a + v
    ensures u == v
  {
    assert (a + u)[|a|..] == u && (a + v)[|a|..] == v;
  }
}
