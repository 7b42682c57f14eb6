/** Which nodes may hold a stale augmented value, and why one upward pass that
    also revisits siblings repairs them all. */
module RbAugment {
  import opened RbShape
  import opened RbBalance

  /** A node with its two children: all that its augmented value depends on. */
  datatype Link = Link(id: nat, left: nat, right: nat)

  ghost function Links(t: Tree): set<Link> {
    match t
    case E => {}
    case T(l, id, _, r) => Links(l) + {Link(id, RootId(l), RootId(r))} + Links(r)
  }

  /** Everything strictly below the root of `t` is linked as in `s`. */
  ghost predicate BelowClean(s: set<Link>, t: Tree) {
    t.T? ==> Links(t.l) <= s && Links(t.r) <= s
  }

  /** The only nodes of `t` not linked as in `s` lie on the path from the root
      to `start` or are siblings of a node on it. */
  ghost predicate Cov(s: set<Link>, t: Tree, start: nat) {
    match t
    case E => false
    case T(l, id, _, r) =>
      if id == start then Links(l) <= s && Links(r) <= s
      else if start in Ids(l) then Cov(s, l, start) && BelowClean(s, r)
      else Cov(s, r, start) && BelowClean(s, l)
  }

  /** As `Cov`, with every sibling linked as in `s` too. */
  ghost predicate PathCov(s: set<Link>, t: Tree, start: nat) {
    match t
    case E => false
    case T(l, id, _, r) =>
      if id == start then Links(l) <= s && Links(r) <= s
      else if start in Ids(l) then PathCov(s, l, start) && Links(r) <= s
      else PathCov(s, r, start) && Links(l) <= s
  }

  /** Every subtree hanging off the path to the hole is linked as in `s`. */
  ghost predicate CtxClean(s: set<Link>, k: Ctx) {
    match k
    case Top => true
    case HoleL(up, _, _, r) => Links(r) <= s && CtxClean(s, up)
    case HoleR(up, l, _, _) => Links(l) <= s && CtxClean(s, up)
  }

  ghost predicate CtxBelowClean(s: set<Link>, k: Ctx) {
    match k
    case Top => true
    case HoleL(up, _, _, r) => BelowClean(s, r) && CtxBelowClean(s, up)
    case HoleR(up, l, _, _) => BelowClean(s, l) && CtxBelowClean(s, up)
  }

  lemma {:induction false} CtxCleanWeaken(s: set<Link>, k: Ctx)
    requires CtxClean(s, k)
    ensures CtxBelowClean(s, k)
    decreases k
  {
    match k
    case Top =>
    case HoleL(up, _, _, _) => CtxCleanWeaken(s, up);
    case HoleR(up, _, _, _) => CtxCleanWeaken(s, up);
  }

  lemma {:induction false} PathCovIn(s: set<Link>, t: Tree, start: nat)
    requires PathCov(s, t, start)
    ensures start in Ids(t) && Cov(s, t, start)
  {
    match t
    case T(l, id, _, r) =>
      if id == start {
      } else if start in Ids(l) {
        PathCovIn(s, l, start);
      } else {
        PathCovIn(s, r, start);
      }
  }

  lemma {:induction false} CovIn(s: set<Link>, t: Tree, start: nat)
    requires Cov(s, t, start)
    ensures start in Ids(t)
  {
    match t
    case T(l, id, _, r) =>
      if id == start {
      } else if start in Ids(l) {
      } else {
        CovIn(s, r, start);
      }
  }

  ghost predicate Distinct(t: Tree) {
    t.T? ==> Distinct(t.l) && Distinct(t.r) && t.id !in Ids(t.l) && t.id !in Ids(t.r) && Ids(t.l) !! Ids(t.r)
  }

  ghost predicate CtxDistinct(k: Ctx) {
    match k
    case Top => true
    case HoleL(up, id, _, r) =>
      && CtxDistinct(up) && id !in CtxIds(up)
      && id !in Ids(r) && Ids(r) !! CtxIds(up) && Distinct(r)
    case HoleR(up, l, id, _) =>
      && CtxDistinct(up) && id !in CtxIds(up)
      && id !in Ids(l) && Ids(l) !! CtxIds(up) && Distinct(l)
  }

  lemma {:induction false} RepDistinct(ns: seq<Node>, p: nat, par: nat, t: Tree)
    requires Rep(ns, p, par, t)
    ensures Distinct(t)
    decreases t
  {
    if t.T? {
      RepDistinct(ns, ns[t.id].left, t.id, t.l);
      RepDistinct(ns, ns[t.id].right, t.id, t.r);
    }
  }

  /** A repaired path inside a subtree is a repaired path of the whole tree. */
  lemma {:induction false} CovPlug(s: set<Link>, k: Ctx, t: Tree, start: nat)
    requires Cov(s, t, start) && CtxBelowClean(s, k) && Ids(t) !! CtxIds(k)
    requires CtxDistinct(k)
    ensures Cov(s, Plug(k, t), start)
    decreases k
  {
    CovIn(s, t, start);
    match k
    case Top =>
    case HoleL(up, id, c, r) => CovPlug(s, up, T(t, id, c, r), start);
    case HoleR(up, l, id, c) => CovPlug(s, up, T(l, id, c, t), start);
  }

  lemma {:induction false} RepCtxDistinct(ns: seq<Node>, root: nat, p: nat, k: Ctx)
    requires RepCtx(ns, root, p, k)
    ensures CtxDistinct(k)
    decreases k
  {
    match k
    case Top =>
    case HoleL(up, id, _, r) =>
      RepDistinct(ns, ns[id].right, id, r);
      RepCtxDistinct(ns, root, id, up);
    case HoleR(up, l, id, _) =>
      RepDistinct(ns, ns[id].left, id, l);
      RepCtxDistinct(ns, root, id, up);
  }

  lemma {:induction false} LinksPlug(s: set<Link>, k: Ctx, t: Tree)
    requires Links(Plug(k, t)) <= s
    ensures Links(t) <= s && CtxClean(s, k)
    decreases k
  {
    match k
    case Top =>
    case HoleL(up, id, c, r) => LinksPlug(s, up, T(t, id, c, r));
    case HoleR(up, l, id, c) => LinksPlug(s, up, T(l, id, c, t));
  }

  // ---------- what rebalancing leaves stale ----------

  lemma BlackenCov(s: set<Link>, t: Tree, start: nat)
    ensures Links(Blacken(t)) == Links(t)
    ensures Cov(s, t, start) <==> Cov(s, Blacken(t), start)
    ensures PathCov(s, t, start) <==> PathCov(s, Blacken(t), start)
  {
  }

  lemma {:induction false} LinksOfPlug(k: Ctx, t: Tree)
    ensures Links(t) <= Links(Plug(k, t))
    decreases k
  {
    match k
    case Top =>
    case HoleL(up, id, c, r) => LinksOfPlug(up, T(t, id, c, r));
    case HoleR(up, l, id, c) => LinksOfPlug(up, T(l, id, c, t));
  }

  /** The settled case: the repaired path of `t`, seen from the final tree. */
  lemma SettledCov(s: set<Link>, k: Ctx, t: Tree, start: nat)
    requires Cov(s, t, start) && CtxClean(s, k) && Ids(t) !! CtxIds(k) && CtxDistinct(k)
    ensures Cov(s, Blacken(Plug(k, t)), start) && Links(t) <= Links(Blacken(Plug(k, t)))
  {
    CtxCleanWeaken(s, k);
    CovPlug(s, k, t, start);
    LinksOfPlug(k, t);
    BlackenCov(s, Plug(k, t), start);
  }

  /** Where rb_augment_insert starts its pass: a child of the new node if
      rebalancing gave it one. */
  function StartFrom(e: Link): nat {
    if e.left != 0 then e.left else if e.right != 0 then e.right else e.id
  }

  ghost predicate InsertCovered(s: set<Link>, t: Tree, x: nat) {
    exists e :: e in Links(t) && e.id == x && Cov(s, t, StartFrom(e))
  }

  lemma {:induction false} InsertFixCov(s: set<Link>, t: Tree, k: Ctx, x: nat)
    requires t.T? && (t.id == x ==> t.l.E? && t.r.E?) && Link(x, 0, 0) in Links(t)
    requires PathCov(s, t, x) && CtxClean(s, k)
    requires CtxDistinct(k) && Ids(t) !! CtxIds(k) && 0 !in CtxIds(k)
    ensures InsertCovered(s, InsertFix(t, k), x)
    decreases k
  {
    PathCovIn(s, t, x);
    if !HeadRed(k) || k.up.Top? {
      SettledCov(s, k, t, x);
      assert StartFrom(Link(x, 0, 0)) == x;
    } else if !IsBlack(Uncle(k.up)) {
      FlipCov(s, t, k, x);
      hide Links, PathCov, CtxClean, CtxDistinct, InsertCovered, Ids, CtxIds;
      InsertFixCov(s, Flipped(t, k), k.up.up, x);
    } else {
      TurnCov(s, t, k, x);
    }
  }

  function Uncle(k: Ctx): Tree
    requires !k.Top?
  {
    if k.HoleL? then k.r else k.l
  }

  /** Parent and uncle black, grandparent red. */
  function Flipped(t: Tree, k: Ctx): (f: Tree)
    requires !k.Top? && !k.up.Top?
    ensures f.T?
  {
    match k.up
    case HoleL(_, g, _, u) => T(Blacken(Fill(k, t)), g, Red, Blacken(u))
    case HoleR(_, u, g, _) => T(Blacken(u), g, Red, Blacken(Fill(k, t)))
  }

  lemma FlipCov(s: set<Link>, t: Tree, k: Ctx, x: nat)
    requires t.T? && (t.id == x ==> t.l.E? && t.r.E?) && Link(x, 0, 0) in Links(t)
    requires PathCov(s, t, x) && CtxClean(s, k)
    requires CtxDistinct(k) && Ids(t) !! CtxIds(k) && 0 !in CtxIds(k)
    requires HeadRed(k) && !k.up.Top? && !IsBlack(Uncle(k.up))
    ensures InsertFix(t, k) == InsertFix(Flipped(t, k), k.up.up)
    ensures Flipped(t, k).id != x && Link(x, 0, 0) in Links(Flipped(t, k)) && PathCov(s, Flipped(t, k), x)
    ensures CtxClean(s, k.up.up) && CtxDistinct(k.up.up) && 0 !in CtxIds(k.up.up)
    ensures Ids(Flipped(t, k)) !! CtxIds(k.up.up)
  {
    PathCovIn(s, t, x);
    PathCovFill(s, t, k, x);
    BlackenCov(s, Fill(k, t), x);
    BlackenCov(s, Uncle(k.up), x);
  }

  lemma TurnCov(s: set<Link>, t: Tree, k: Ctx, x: nat)
    requires t.T? && (t.id == x ==> t.l.E? && t.r.E?) && Link(x, 0, 0) in Links(t)
    requires PathCov(s, t, x) && CtxClean(s, k)
    requires CtxDistinct(k) && Ids(t) !! CtxIds(k) && 0 !in CtxIds(k)
    requires HeadRed(k) && !k.up.Top? && IsBlack(Uncle(k.up))
    ensures InsertCovered(s, InsertFix(t, k), x)
  {
    PathCovIn(s, t, x);
    hide InsertCovered;
    match k.up
    case HoleL(up, g, _, u) =>
      if k.HoleL? {
        StraightCov(s, up, t, T(k.r, g, Red, u), T(t, k.id, Black, T(k.r, g, Red, u)), x);
      } else {
        BentCov(s, up, t, T(k.l, k.id, Red, t.l), T(t.r, g, Red, u), x);
      }
    case HoleR(up, u, g, _) =>
      if k.HoleR? {
        StraightCov(s, up, t, T(u, g, Red, k.l), T(T(u, g, Red, k.l), k.id, Black, t), x);
      } else {
        BentCov(s, up, t, T(u, g, Red, t.l), T(t.r, k.id, Red, k.r), x);
      }
  }

  /** After a single rotation the new node is still a leaf, and its uncle by
      rotation is the one sibling whose children moved. */
  lemma StraightCov(s: set<Link>, up: Ctx, t: Tree, v: Tree, t': Tree, x: nat)
    requires PathCov(s, t, x) && x in Ids(t) && Link(x, 0, 0) in Links(t) && BelowClean(s, v)
    requires t'.T? && t'.id != x && x !in Ids(v)
    requires (t'.l == t && t'.r == v) || (t'.l == v && t'.r == t)
    requires CtxClean(s, up) && CtxDistinct(up) && Ids(t') !! CtxIds(up)
    ensures InsertCovered(s, Blacken(Plug(up, t')), x)
  {
    PathCovIn(s, t, x);
    assert Links(t) <= Links(t');
    SettledCov(s, up, t', x);
    assert StartFrom(Link(x, 0, 0)) == x;
  }

  /** After a double rotation the lifted node is the root: either it is the new
      node, which now has two children, or the new node is below one of them. */
  lemma BentCov(s: set<Link>, up: Ctx, t: Tree, a: Tree, b: Tree, x: nat)
    requires t.T? && (t.id == x ==> t.l.E? && t.r.E?) && Link(x, 0, 0) in Links(t)
    requires PathCov(s, t, x) && x in Ids(t)
    requires a.T? && b.T? && a.id != 0 && a.r == t.l && b.l == t.r
    requires Links(a.l) <= s && Links(b.r) <= s
    requires a.id !in Ids(t) && b.id !in Ids(t) && Ids(a.l) !! Ids(t) && Ids(b.r) !! Ids(t)
    requires CtxClean(s, up) && CtxDistinct(up) && Ids(T(a, t.id, Black, b)) !! CtxIds(up)
    ensures InsertCovered(s, Blacken(Plug(up, T(a, t.id, Black, b))), x)
  {
    var t' := T(a, t.id, Black, b);
    if t.id == x {
      SettledCov(s, up, t', a.id);
      assert Link(x, a.id, b.id) in Links(t') && StartFrom(Link(x, a.id, b.id)) == a.id;
    } else {
      BentDeep(s, t, a, b, x);
      SettledCov(s, up, t', x);
      assert StartFrom(Link(x, 0, 0)) == x;
    }
  }

  lemma BentDeep(s: set<Link>, t: Tree, a: Tree, b: Tree, x: nat)
    requires t.T? && t.id != x && Link(x, 0, 0) in Links(t)
    requires PathCov(s, t, x) && x in Ids(t)
    requires a.T? && b.T? && a.r == t.l && b.l == t.r
    requires Links(a.l) <= s && Links(b.r) <= s
    requires a.id !in Ids(t) && b.id !in Ids(t) && Ids(a.l) !! Ids(t) && Ids(b.r) !! Ids(t)
    ensures Cov(s, T(a, t.id, Black, b), x) && Link(x, 0, 0) in Links(T(a, t.id, Black, b))
  {
    if x in Ids(t.l) {
      PathCovIn(s, t.l, x);
      assert Cov(s, a, x);
    } else {
      PathCovIn(s, t.r, x);
      assert Cov(s, b, x);
    }
  }

  lemma PathCovFill(s: set<Link>, t: Tree, k: Ctx, start: nat)
    requires PathCov(s, t, start) && start in Ids(t) && CtxClean(s, k) && !k.Top?
    requires CtxDistinct(k) && Ids(t) !! CtxIds(k)
    ensures PathCov(s, Fill(k, t), start) && start in Ids(Fill(k, t))
    ensures Ids(Fill(k, t)) !! CtxIds(k.up)
    ensures Links(t) <= Links(Fill(k, t)) && Fill(k, t).id != start
  {
  }

  /** A pass over the gap starts inside `t`, or at the parent of an empty gap. */
  ghost predicate EdgeCov(s: set<Link>, t: Tree, p: nat, start: nat) {
    if start in Ids(t) then PathCov(s, t, start) else t.E? && start == p
  }

  lemma EdgePlug(s: set<Link>, t: Tree, k: Ctx, start: nat)
    requires EdgeCov(s, t, Par(k), start) && (t.E? ==> !k.Top?)
    requires CtxClean(s, k) && CtxDistinct(k) && Ids(t) !! CtxIds(k)
    ensures Cov(s, Plug(k, t), start)
  {
    CtxCleanWeaken(s, k);
    if start in Ids(t) {
      PathCovIn(s, t, start);
      CovPlug(s, k, t, start);
    } else {
      CovPlug(s, k.up, Fill(k, t), start);
    }
  }

  lemma {:induction false} EraseFixCov(s: set<Link>, t: Tree, k: Ctx, start: nat)
    requires EdgeCov(s, t, Par(k), start) && (t.E? ==> !k.Top?)
    requires CtxClean(s, k) && CtxDistinct(k) && Ids(t) !! CtxIds(k)
    ensures Cov(s, EraseFix(t, k), start)
    decreases Depth(k), if IsBlack(t) then 2 else 0
  {
    if !IsBlack(t) || k.Top? {
      BlackenCov(s, t, start);
      EdgePlug(s, Blacken(t), k, start);
    } else {
      match k
      case HoleL(up, p, c, o) =>
        if o.E? {
          EdgePlug(s, t, k, start);
        } else if o.c == Black {
          EraseFixLCov(s, t, up, p, c, o, start);
        } else if o.l.T? {
          TurnL(up, p, c, o);
          EraseFixLCov(s, t, HoleL(up, o.id, Black, o.r), p, Red, o.l, start);
        } else {
          EdgePlug(s, t, k, start);
        }
      case HoleR(up, o, p, c) =>
        if o.E? {
          EdgePlug(s, t, k, start);
        } else if o.c == Black {
          EraseFixRCov(s, t, up, p, c, o, start);
        } else if o.r.T? {
          TurnR(up, p, c, o);
          EraseFixRCov(s, t, HoleR(up, o.l, o.id, Black), p, Red, o.r, start);
        } else {
          EdgePlug(s, t, k, start);
        }
    }
  }

  /** Rotating a red sibling up keeps the context's nodes distinct. */
  lemma TurnL(up: Ctx, p: nat, c: Color, o: Tree)
    requires o.T? && CtxDistinct(HoleL(up, p, c, o))
    ensures CtxDistinct(HoleL(HoleL(up, o.id, Black, o.r), p, Red, o.l))
    ensures CtxIds(HoleL(HoleL(up, o.id, Black, o.r), p, Red, o.l)) == CtxIds(HoleL(up, p, c, o))
  {
  }

  lemma TurnR(up: Ctx, p: nat, c: Color, o: Tree)
    requires o.T? && CtxDistinct(HoleR(up, o, p, c))
    ensures CtxDistinct(HoleR(HoleR(up, o.l, o.id, Black), o.r, p, Red))
    ensures CtxIds(HoleR(HoleR(up, o.l, o.id, Black), o.r, p, Red)) == CtxIds(HoleR(up, o, p, c))
  {
  }

  lemma {:induction false} EraseFixLCov(s: set<Link>, t: Tree, up: Ctx, p: nat, c: Color, o: Tree, start: nat)
    requires o.T? && EdgeCov(s, t, p, start) && Links(o) <= s && CtxClean(s, up)
    requires CtxDistinct(HoleL(up, p, c, o)) && Ids(t) !! CtxIds(HoleL(up, p, c, o))
    ensures Cov(s, EraseFixL(t, up, p, c, o), start)
    decreases Depth(up), if c == Black then 3 else 1
  {
    if IsBlack(o.l) && IsBlack(o.r) {
      EraseFixCov(s, T(t, p, c, T(o.l, o.id, Red, o.r)), up, start);
    } else if IsBlack(o.r) {
      ShortSideL(s, t, p, o.l.l, start);
      SettledCov(s, up, T(T(t, p, Black, o.l.l), o.l.id, c, T(o.l.r, o.id, Black, o.r)), start);
    } else {
      ShortSideL(s, t, p, o.l, start);
      BlackenCov(s, o.r, start);
      SettledCov(s, up, T(T(t, p, Black, o.l), o.id, c, Blacken(o.r)), start);
    }
  }

  /** The rotated-down parent starts or carries on the repaired path. */
  lemma ShortSideL(s: set<Link>, t: Tree, p: nat, v: Tree, start: nat)
    requires EdgeCov(s, t, p, start) && Links(v) <= s && p !in Ids(t)
    ensures Cov(s, T(t, p, Black, v), start) && start in Ids(T(t, p, Black, v))
  {
    if start in Ids(t) { PathCovIn(s, t, start); }
  }

  lemma {:induction false} EraseFixRCov(s: set<Link>, t: Tree, up: Ctx, p: nat, c: Color, o: Tree, start: nat)
    requires o.T? && EdgeCov(s, t, p, start) && Links(o) <= s && CtxClean(s, up)
    requires CtxDistinct(HoleR(up, o, p, c)) && Ids(t) !! CtxIds(HoleR(up, o, p, c))
    ensures Cov(s, EraseFixR(t, up, p, c, o), start)
    decreases Depth(up), if c == Black then 3 else 1
  {
    if IsBlack(o.l) && IsBlack(o.r) {
      EraseFixCov(s, T(T(o.l, o.id, Red, o.r), p, c, t), up, start);
    } else if IsBlack(o.l) {
      ShortSideR(s, t, p, o.r.r, start);
      SettledCov(s, up, T(T(o.l, o.id, Black, o.r.l), o.r.id, c, T(o.r.r, p, Black, t)), start);
    } else {
      ShortSideR(s, t, p, o.r, start);
      BlackenCov(s, o.l, start);
      SettledCov(s, up, T(Blacken(o.l), o.id, c, T(o.r, p, Black, t)), start);
    }
  }

  lemma ShortSideR(s: set<Link>, t: Tree, p: nat, v: Tree, start: nat)
    requires EdgeCov(s, t, p, start) && Links(v) <= s && p !in Ids(t) && Ids(v) !! Ids(t)
    ensures Cov(s, T(v, p, Black, t), start) && start in Ids(T(v, p, Black, t))
  {
    if start in Ids(t) { PathCovIn(s, t, start); }
  }

  lemma {:induction false} RenamedClean(s: set<Link>, k: Ctx, base: Ctx, l: Tree, z: nat, c: Color, y: nat)
    requires Spine(k, base, l, z, c) && CtxClean(s, k) && CtxDistinct(k) && y !in CtxIds(k)
    ensures CtxClean(s, Renamed(k, y)) && CtxDistinct(Renamed(k, y))
    ensures CtxIds(Renamed(k, y)) == CtxIds(k) - {z} + {y} && z in CtxIds(k)
    decreases k
  {
    match k
    case HoleL(up, _, _, _) => RenamedClean(s, up, base, l, z, c, y);
    case HoleR(_, _, _, _) =>
  }

  /** Where rb_augment_erase_begin says the pass has to start after the root of
      `t` is removed; 0 if nothing will be left to repair. */
  ghost function EraseStart(t: Tree, k: Ctx): nat
    requires t.T?
  {
    var g := Unlink(t, k);
    if g.t.T? then g.t.id else Par(g.k)
  }

  ghost function EraseStartOf(tree: Tree, node: nat): nat
    requires node in Ids(tree)
  {
    var (t, k) := Locate(tree, Top, node);
    EraseStart(t, k)
  }

  /** Nothing around the gap is stale except on the way up from it. */
  lemma GapClean(s: set<Link>, t: Tree, k: Ctx)
    requires t.T? && CtxDistinct(k) && Distinct(t) && Ids(t) !! CtxIds(k)
    requires 0 !in Ids(t) && 0 !in CtxIds(k) && s == Links(Plug(k, t))
    ensures var g := Unlink(t, k);
      && Links(g.t) <= s && CtxClean(s, g.k) && CtxDistinct(g.k) && Ids(g.t) !! CtxIds(g.k)
      && 0 !in Ids(g.t) && 0 !in CtxIds(g.k)
  {
    LinksPlug(s, k, t);
    if t.l.T? && t.r.T? {
      var kr := HoleR(k, t.l, t.id, t.c);
      var (y, ky) := Leftmost(t.r, kr);
      LeftmostSpine(t.r, kr, k, t.l, t.id, t.c);
      LeftmostDistinct(t.r, kr);
      LinksPlug(s, ky, y);
      RenamedClean(s, ky, k, t.l, t.id, t.c, y.id);
      IdsPlug(ky, y);
      IdsPlug(k, t);
    }
  }

  /** Removal leaves stale values only on the path from `EraseStart` and on the
      siblings along it. */
  lemma ErasedCov(t: Tree, k: Ctx)
    requires t.T? && CtxDistinct(k) && Distinct(t) && Ids(t) !! CtxIds(k)
    requires 0 !in Ids(t) && 0 !in CtxIds(k)
    ensures if EraseStart(t, k) == 0 then Erased(t, k).E?
            else Cov(Links(Plug(k, t)), Erased(t, k), EraseStart(t, k))
  {
    var s := Links(Plug(k, t));
    var g := Unlink(t, k);
    var start := EraseStart(t, k);
    GapClean(s, t, k);
    if g.t.E? && g.k.Top? {
    } else if g.c == Black {
      EraseFixCov(s, g.t, g.k, start);
    } else {
      EdgePlug(s, g.t, g.k, start);
    }
  }

  lemma {:induction false} LeftmostDistinct(t: Tree, k: Ctx)
    requires t.T? && Distinct(t) && CtxDistinct(k) && Ids(t) !! CtxIds(k)
    ensures var (y, ky) := Leftmost(t, k); Distinct(y) && CtxDistinct(ky) && Ids(y) !! CtxIds(ky)
    decreases t
  {
    if t.l.T? { LeftmostDistinct(t.l, HoleL(k, t.id, t.c, t.r)); }
  }

  // ---------- values ----------

  datatype Option<+V> = None | Some(value: V)

  /** How a node's value follows from the node and its children's values. */
  type Summary<!V> = (nat, Option<V>, Option<V>) -> V

  function ValueOf<V>(vs: seq<V>, p: nat): Option<V> {
    if 0 < p < |vs| then Some(vs[p]) else None
  }

  predicate Right<V(==)>(vs: seq<V>, f: Summary<V>, e: Link) {
    0 < e.id < |vs| && vs[e.id] == f(e.id, ValueOf(vs, e.left), ValueOf(vs, e.right))
  }

  /** Every node of `t` holds the value its children call for. */
  ghost predicate Good<V>(vs: seq<V>, f: Summary<V>, t: Tree) {
    forall e :: e in Links(t) ==> Right(vs, f, e)
  }

  ghost predicate BelowGood<V>(vs: seq<V>, f: Summary<V>, t: Tree) {
    t.T? ==> Good(vs, f, t.l) && Good(vs, f, t.r)
  }

  ghost predicate CtxBelowGood<V>(vs: seq<V>, f: Summary<V>, k: Ctx) {
    match k
    case Top => true
    case HoleL(up, _, _, r) => BelowGood(vs, f, r) && CtxBelowGood(vs, f, up)
    case HoleR(up, l, _, _) => BelowGood(vs, f, l) && CtxBelowGood(vs, f, up)
  }

  lemma {:induction false} GoodFrame<V>(vs: seq<V>, vs': seq<V>, f: Summary<V>, t: Tree)
    requires Good(vs, f, t) && |vs| == |vs'| && (forall i :: i in Ids(t) && 0 < i < |vs| ==> vs'[i] == vs[i])
    ensures Good(vs', f, t)
    decreases t
  {
    forall e | e in Links(t) ensures Right(vs', f, e) {
      LinkIds(t, e);
      assert Right(vs, f, e);
    }
  }

  lemma {:induction false} LinkIds(t: Tree, e: Link)
    requires e in Links(t)
    ensures e.id in Ids(t) && e.left in Ids(t) + {0} && e.right in Ids(t) + {0}
    decreases t
  {
    if e == Link(t.id, RootId(t.l), RootId(t.r)) {
    } else if e in Links(t.l) {
      LinkIds(t.l, e);
    } else {
      LinkIds(t.r, e);
    }
  }

  lemma {:induction false} CtxGoodFrame<V>(vs: seq<V>, vs': seq<V>, f: Summary<V>, k: Ctx)
    requires CtxBelowGood(vs, f, k) && |vs| == |vs'|
    requires forall i :: i in CtxIds(k) && 0 < i < |vs| ==> vs'[i] == vs[i]
    ensures CtxBelowGood(vs', f, k)
    decreases k
  {
    match k
    case Top =>
    case HoleL(up, _, _, r) =>
      if r.T? { GoodFrame(vs, vs', f, r.l); GoodFrame(vs, vs', f, r.r); }
      CtxGoodFrame(vs, vs', f, up);
    case HoleR(up, l, _, _) =>
      if l.T? { GoodFrame(vs, vs', f, l.l); GoodFrame(vs, vs', f, l.r); }
      CtxGoodFrame(vs, vs', f, up);
  }

  /** Recomputing the root of a subtree whose two halves are right. */
  lemma Recomputed<V>(vs: seq<V>, vs': seq<V>, f: Summary<V>, t: Tree)
    requires t.T? && BelowGood(vs, f, t) && t.id !in Ids(t.l) && t.id !in Ids(t.r) && 0 !in Ids(t)
    requires 0 < t.id < |vs| && vs' == vs[t.id := f(t.id, ValueOf(vs, RootId(t.l)), ValueOf(vs, RootId(t.r)))]
    ensures Good(vs', f, t)
  {
    GoodFrame(vs, vs', f, t.l);
    GoodFrame(vs, vs', f, t.r);
    assert RootId(t.l) != t.id && RootId(t.r) != t.id;
    assert Right(vs', f, Link(t.id, RootId(t.l), RootId(t.r)));
  }

  /** Where the pass over a covered tree starts, and what is right around it. */
  lemma {:induction false} CovStart<V>(s: set<Link>, vs: seq<V>, f: Summary<V>, t: Tree, k: Ctx, start: nat)
    requires Cov(s, t, start) && CtxBelowGood(vs, f, k) && forall e :: e in s ==> Right(vs, f, e)
    ensures start in Ids(t)
    ensures var z := Locate(t, k, start); BelowGood(vs, f, z.0) && CtxBelowGood(vs, f, z.1)
    decreases t
  {
    CovIn(s, t, start);
    var T(l, id, c, r) := t;
    if id == start {
    } else if start in Ids(l) {
      CovStart(s, vs, f, l, HoleL(k, id, c, r), start);
    } else {
      CovStart(s, vs, f, r, HoleR(k, l, id, c), start);
    }
  }
}
