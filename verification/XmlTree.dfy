/** mxml_config.c: adding and removing nodes, and walking and searching a tree. */
module XmlTree {
  import opened Links
  import opened Seqs
  import opened XmlLinks
  import opened XmlOrder

  const ADD_BEFORE: int := 0
  const ADD_AFTER: int := 1
  const DESCEND_FIRST: int := -1
  const NO_DESCEND: int := 0
  const DESCEND: int := 1

  /** Where mxmlAdd puts a node among the children `c`: next to `child` if that is one of
      them, at the end of the list otherwise. */
  function Position(c: seq<nat>, where_: int, child: int): (k: nat)
    ensures k <= |c|
  {
    if where_ == ADD_BEFORE then (if child >= 0 && child in c then IndexOf(c, child) else 0)
    else (if child >= 0 && child in c then IndexOf(c, child) + 1 else |c|)
  }

  /** The lists of children without a node. */
  function Detached(ns: seq<Node>, kids: seq<seq<nat>>, x: nat): seq<seq<nat>>
    requires x < |ns| == |kids|
  {
    var p := ns[x].parent;
    if 0 <= p < |kids| && x in kids[p] then kids[p := Cut(kids[p], IndexOf(kids[p], x))] else kids
  }

  function LinkedKids(kids: seq<seq<nat>>, p: nat, where_: int, child: int, x: nat): seq<seq<nat>> {
    if p < |kids| then kids[p := Insert(kids[p], Position(kids[p], where_, child), x)] else kids
  }

  /** The lists of children after mxmlAdd. */
  function AddedKids(ns: seq<Node>, kids: seq<seq<nat>>, p: nat, where_: int, child: int, x: nat): seq<seq<nat>>
    requires x < |ns| == |kids| && p < |kids|
  {
    LinkedKids(Detached(ns, kids, x), p, where_, child, x)
  }

  /** `c` without `x`. */
  function Others(c: seq<nat>, x: nat): seq<nat> {
    if c == [] then [] else (if c[0] == x then [] else [c[0]]) + Others(c[1..], x)
  }

  /** A node that leaves its family leaves every other list, and the order in its own, as they were. */
  lemma DetachedMeaning(ns: seq<Node>, kids: seq<seq<nat>>, x: nat)
    requires Linked(ns, kids) && x < |ns|
    ensures |Detached(ns, kids, x)| == |kids| && forall q :: 0 <= q < |kids| ==> Detached(ns, kids, x)[q] == Others(kids[q], x)
  {
    forall q: nat | q < |kids| ensures Detached(ns, kids, x)[q] == Others(kids[q], x) {
      assert Family(ns, q, kids[q]);
      if x in kids[q] {
        var i := IndexOf(kids[q], x);
        assert Sibling(ns, q, kids[q], i);
        OthersCut(kids[q], i);
      } else {
        NoneOther(kids[q], x);
      }
    }
  }

  lemma {:induction false} NoneOther(c: seq<nat>, x: nat)
    requires x !in c
    ensures Others(c, x) == c
  {
    if c != [] { NoneOther(c[1..], x); }
  }

  lemma {:induction false} OthersCut(c: seq<nat>, i: nat)
    requires NoDup(c) && i < |c|
    ensures Others(c, c[i]) == Cut(c, i)
  {
    if i == 0 {
      forall j | 0 <= j < |c[1..]| ensures c[1..][j] != c[0] {}
      NoneOther(c[1..], c[0]);
    } else {
      OthersCut(c[1..], i - 1);
      assert Cut(c, i) == [c[0]] + Cut(c[1..], i - 1);
    }
  }

  /** Place `k` among the children `c` is next to `child` on the side asked for, or first or last
      if that is none of them. */
  predicate AskedFor(c: seq<nat>, where_: int, child: int, k: nat) {
    if where_ == ADD_BEFORE then
      if child >= 0 && child in c then k < |c| && c[k] == child else k == 0
    else
      if child >= 0 && child in c then 0 < k <= |c| && c[k - 1] == child else k == |c|
  }

  ghost predicate PutIn(c: seq<nat>, c': seq<nat>, where_: int, child: int, x: nat) {
    exists k: nat :: k <= |c| && AskedFor(c, where_, child, k) && c' == Insert(c, k, x)
  }

  lemma PutAt(c: seq<nat>, where_: int, child: int, k: nat, x: nat)
    requires k <= |c| && AskedFor(c, where_, child, k)
    ensures PutIn(c, Insert(c, k, x), where_, child, x)
  {
  }

  /** The node is put in at the place asked for, and nothing else changes. */
  lemma AddedMeaning(ns: seq<Node>, kids: seq<seq<nat>>, p: nat, where_: int, child: int, x: nat)
    requires Linked(ns, kids) && x < |ns| && p < |ns|
    ensures var kids', c := AddedKids(ns, kids, p, where_, child, x), Others(kids[p], x);
            && |kids'| == |kids| && (forall q :: 0 <= q < |kids| && q != p ==> kids'[q] == Others(kids[q], x))
            && PutIn(c, kids'[p], where_, child, x)
  {
    DetachedMeaning(ns, kids, x);
    var c := Others(kids[p], x);
    var k := Position(c, where_, child);
    var kids' := AddedKids(ns, kids, p, where_, child, x);
    assert Detached(ns, kids, x)[p] == c;
    assert kids' == Detached(ns, kids, x)[p := Insert(c, k, x)];
    assert kids'[p] == Insert(c, k, x);
    PutAt(c, where_, child, k, x);
  }

  /** The uses of mxmlAdd after which the links agree. */
  predicate Sound(where_: int, child: int, node: nat) {
    (where_ == ADD_BEFORE || where_ == ADD_AFTER) && child != node
  }

  /** Node `x`, its new parent `p` and its new neighbours are distinct, or missing. */
  predicate Gap(ns: seq<Node>, p: nat, x: nat, before: int, after: int) {
    && p < |ns| && x < |ns| && p != x && -1 <= before < |ns| && -1 <= after < |ns|
    && before != p && after != p && before != x && after != x && (before == after ==> after == NULL)
    && ns[x].parent == p
  }

  lemma NewLinked(ns: seq<Node>, kids: seq<seq<nat>>, h: seq<nat>)
    requires Linked(ns, kids) && Ranked(kids, h)
    ensures var ns' := ns + [Node(NULL, NULL, NULL, NULL, NULL)];
            Linked(ns', kids + [[]]) && Ranked(kids + [[]], h + [0])
  {
    var ns', kids' := ns + [Node(NULL, NULL, NULL, NULL, NULL)], kids + [[]];
    forall p: nat | p < |ns'| ensures Family(ns', p, kids'[p]) {
      if p < |ns| {
        assert Family(ns, p, kids[p]);
        forall j: nat | j < |kids[p]| ensures Sibling(ns', p, kids[p], j) {
          assert Sibling(ns, p, kids[p], j);
        }
      }
    }
    forall x: nat | x < |ns'| ensures Attached(ns', kids', x) {
      assert x < |ns| ==> Attached(ns, kids, x);
    }
  }

  lemma AtEnd(c: seq<nat>, x: nat)
    ensures Insert(c, Position(c, ADD_AFTER, NULL), x) == c + [x]
  {
    assert c[..|c|] == c && c[|c|..] == [];
  }

  lemma NotBelow(kids: seq<seq<nat>>, h: seq<nat>, node: nat, parent: nat)
    requires Ranked(kids, h) && node < |kids| && kids[node] == [] && parent != node
    ensures parent !in Pre(kids, h, node)
  {
    assert Pre(kids, h, node) == [node];
  }

  class XmlTree {
    var ns: seq<Node>
    ghost var kids: seq<seq<nat>>
    ghost var h: seq<nat>

    ghost predicate Valid()
      reads this
    {
      Linked(ns, kids) && Ranked(kids, h)
    }

    /** No node yet. */
    constructor ()
      ensures Valid() && ns == [] && kids == []
    {
      ns, kids, h := [], [], [];
    }

    /** mxml_new: a node without children, the last child of its parent if it has one. */
    method New(parent: int) returns (node: nat)
      requires Valid() && -1 <= parent < |ns|
      modifies this
      ensures Valid() && node == |old(ns)| && |ns| == node + 1
      ensures kids == if parent == NULL then old(kids) + [[]]
                      else old(kids)[parent := old(kids)[parent] + [node]] + [[]]
    {
      NewLinked(ns, kids, h);
      node := |ns|;
      ns, kids, h := ns + [Node(NULL, NULL, NULL, NULL, NULL)], kids + [[]], h + [0];
      if parent != NULL {
        NotBelow(kids, h, node, parent);
        AtEnd(kids[parent], node);
        Add(parent, ADD_AFTER, NULL, node);
      }
    }

    /** mxmlRemove */
    method Remove(x: nat)
      requires Valid() && x < |ns|
      modifies this
      ensures Valid() && |ns| == |old(ns)| && h == old(h) && kids == Detached(old(ns), old(kids), x)
      ensures ns[x].parent == NULL && ns[x].prev == NULL && ns[x].next == NULL
      ensures NewParent(old(ns), ns, x, NULL) && (old(ns[x].parent) == NULL ==> ns == old(ns))
    {
      if ns[x].parent == NULL {
        assert Attached(ns, kids, x);
        return;
      }
      ghost var ns0 := ns;
      ghost var k := RemovePlace(ns, kids, h, x);
      hide Linked, Ranked, NewParent;
      var n := ns[x];
      if n.prev != NULL {
        ns := ns[n.prev := ns[n.prev].(next := n.next)];
      } else {
        ns := ns[n.parent := ns[n.parent].(child := n.next)];
      }
      if n.next != NULL {
        ns := ns[n.next := ns[n.next].(prev := n.prev)];
      } else {
        ns := ns[n.parent := ns[n.parent].(last := n.prev)];
      }
      ns := ns[x := ns[x].(parent := NULL, prev := NULL, next := NULL)];
      assert ns == Removed(ns0, x);
      kids := kids[n.parent as nat := Cut(kids[n.parent], k)];
    }

    /** Insert as the first node under the parent. */
    method LinkFirst(p: nat, x: nat)
      requires p < |ns| && x < |ns| && -1 <= ns[p].child < |ns| && ns[x].parent == p
      modifies this`ns
      ensures SameParents(old(ns), ns)
      ensures old(Gap(ns, p, x, NULL, ns[p].child) && ns[x].prev == NULL) ==>
                ns == Inserted(old(ns), p, x, NULL, old(ns[p].child))
    {
      ns := ns[x := ns[x].(next := ns[p].child)];
      if ns[p].child != NULL {
        var c := ns[p].child;
        ns := ns[c := ns[c].(prev := x)];
      } else {
        ns := ns[p := ns[p].(last := x)];
      }
      ns := ns[p := ns[p].(child := x)];
    }

    /** Insert before a child. */
    method LinkBefore(p: nat, child: nat, x: nat)
      requires p < |ns| && x < |ns| && child < |ns| && -1 <= ns[child].prev < |ns| && ns[x].parent == p
      modifies this`ns
      ensures SameParents(old(ns), ns)
      ensures old(Gap(ns, p, x, ns[child].prev, child)) ==> ns == Inserted(old(ns), p, x, old(ns[child].prev), child)
      ensures child == x && old(ns[x].prev) == NULL ==> ns[x].next == x
    {
      ns := ns[x := ns[x].(next := child, prev := ns[child].prev)];
      if ns[child].prev != NULL {
        var b := ns[child].prev;
        ns := ns[b := ns[b].(next := x)];
      } else {
        ns := ns[p := ns[p].(child := x)];
      }
      ns := ns[child := ns[child].(prev := x)];
    }

    /** Insert as the last node under the parent. */
    method LinkLast(p: nat, x: nat)
      requires p < |ns| && x < |ns| && -1 <= ns[p].last < |ns| && ns[x].parent == p
      modifies this`ns
      ensures SameParents(old(ns), ns)
      ensures old(Gap(ns, p, x, ns[p].last, NULL) && ns[x].next == NULL) ==>
                ns == Inserted(old(ns), p, x, old(ns[p].last), NULL)
    {
      ns := ns[x := ns[x].(parent := p, prev := ns[p].last)];
      if ns[p].last != NULL {
        var c := ns[p].last;
        ns := ns[c := ns[c].(next := x)];
      } else {
        ns := ns[p := ns[p].(child := x)];
      }
      ns := ns[p := ns[p].(last := x)];
    }

    /** Insert after a child. */
    method LinkAfter(p: nat, child: nat, x: nat)
      requires p < |ns| && x < |ns| && child < |ns| && -1 <= ns[child].next < |ns| && ns[x].parent == p
      modifies this`ns
      ensures SameParents(old(ns), ns)
      ensures old(Gap(ns, p, x, child, ns[child].next)) ==> ns == Inserted(old(ns), p, x, child, old(ns[child].next))
      ensures child == x && old(ns[x].next) == NULL ==> ns[x].next == x
    {
      ns := ns[x := ns[x].(prev := child)];
      ns := ns[x := ns[x].(next := ns[child].next)];
      if ns[child].next != NULL {
        var a := ns[child].next;
        ns := ns[a := ns[a].(prev := x)];
      } else {
        ns := ns[p := ns[p].(last := x)];
      }
      ns := ns[child := ns[child].(next := x)];
    }

    /** mxmlAdd. Under a parent that is not below the node the links stay consistent just for a
        `Sound` place; under the node itself or a node below it they go round in a circle. */
    method Add(parent: nat, where_: int, child: int, node: nat)
      requires Valid() && parent < |ns| && -1 <= child < |ns| && node < |ns|
      modifies this
      ensures |ns| == |old(ns)|
      ensures parent !in old(Pre(kids, h, node)) && Sound(where_, child, node) ==>
                Valid() && kids == AddedKids(old(ns), old(kids), parent, where_, child, node)
      ensures parent !in old(Pre(kids, h, node)) && !Sound(where_, child, node) ==> forall ks :: !Linked(ns, ks)
      ensures parent in old(Pre(kids, h, node)) ==> forall ks, hs :: !(Linked(ns, ks) && Ranked(ks, hs))
    {
      ghost var ns0, kids0, h0 := ns, kids, h;
      if parent !in Pre(kids, h, node) {
        StillOutside(ns, kids, h, parent, node);
      }
      hide Pre, Linked, Ranked, Detached;
      if ns[node].parent != NULL {
        Remove(node);
      } else {
        AttachedAt(ns, kids, node);
      }
      Link(parent, where_, child, node);
      if parent in Pre(kids0, h0, node) {
        Circular(ns0, kids0, h0, ns, node, parent);
      }
    }

    /** The rest of mxmlAdd. */
    method Link(parent: nat, where_: int, child: int, node: nat)
      requires Valid() && parent < |ns| && -1 <= child < |ns| && node < |ns|
      requires ns[node].parent == NULL && ns[node].prev == NULL && ns[node].next == NULL
      modifies this
      ensures NewParent(old(ns), ns, node, parent)
      ensures parent !in old(Pre(kids, h, node)) && Sound(where_, child, node) ==>
        Valid() && kids == LinkedKids(old(kids), parent, where_, child, node)
      ensures parent !in old(Pre(kids, h, node)) && !Sound(where_, child, node) ==> forall ks :: !Linked(ns, ks)
    {
      LinkBounds(ns, kids, parent);
      if child >= 0 { LinkBounds(ns, kids, child); }
      ghost var ns0, kids0 := ns, kids;
      hide Linked, Ranked, Inserted, NewParent, Gap, Chosen;
      ghost var c, outside, h' := kids[parent], parent !in Pre(kids, h, node), h;
      ghost var at := Position(c, where_, child);
      if outside {
        h' := Places(ns, kids, h, parent, where_, child, node);
      }
      hide Pre;
      LinkIn(parent, where_, child, node, BeforeGap(c, at), AfterGap(c, at));
      if outside {
        if Sound(where_, child, node) {
          kids, h := kids[parent := Insert(c, at, node)], h';
        } else {
          Broken(ns0, kids0, ns, parent, node);
        }
      }
    }

    /** The writes of mxmlAdd. */
    method LinkIn(parent: nat, where_: int, child: int, node: nat, ghost b: int, ghost a: int)
      requires parent < |ns| && -1 <= child < |ns| && node < |ns| && Bounded(ns, parent) && (child >= 0 ==> Bounded(ns, child))
      requires ns[node].prev == NULL && ns[node].next == NULL
      modifies this`ns
      ensures NewParent(old(ns), ns, node, parent)
      ensures Sound(where_, child, node) && old(Chosen(ns, parent, where_, child, b, a))
              && old(Gap(ns[node := ns[node].(parent := parent)], parent, node, b, a)) ==>
                ns == Inserted(old(ns), parent, node, b, a)
      ensures !Sound(where_, child, node) && parent != node && old(child == node ==> Elsewhere(ns, parent, node)) ==>
                ns[node].next == node || (ns[node].prev == NULL && ns[parent].child == old(ns)[parent].child)
    {
      hide Inserted, Gap;
      ghost var ns0 := ns;
      ns := ns[node := ns[node].(parent := parent)];
      SameInserted(ns0, ns, parent, node);
      if where_ == ADD_BEFORE {
        if child == NULL || child == ns[parent].child || ns[child].parent != parent {
          LinkFirst(parent, node);
        } else {
          LinkBefore(parent, child, node);
        }
      } else if where_ == ADD_AFTER {
        if child == NULL || child == ns[parent].last || ns[child].parent != parent {
          LinkLast(parent, node);
        } else {
          LinkAfter(parent, child, node);
        }
      }
    }
  }

  ghost predicate Bounded(ns: seq<Node>, x: nat)
    requires x < |ns|
  {
    -1 <= ns[x].child < |ns| && -1 <= ns[x].last < |ns| && -1 <= ns[x].prev < |ns| && -1 <= ns[x].next < |ns|
  }

  ghost predicate SameParents(ns: seq<Node>, ns': seq<Node>) {
    |ns'| == |ns| && forall y: nat :: y < |ns| ==> ns'[y].parent == ns[y].parent
  }

  /** Only `x` has another parent, `p`. */
  ghost predicate NewParent(ns: seq<Node>, ns': seq<Node>, x: nat, p: int) {
    && |ns'| == |ns| && x < |ns| && ns'[x].parent == p
    && forall y: nat :: y < |ns| && y != x ==> ns'[y].parent == ns[y].parent
  }

  lemma LinkBounds(ns: seq<Node>, kids: seq<seq<nat>>, x: nat)
    requires Linked(ns, kids) && x < |ns|
    ensures Bounded(ns, x)
  {
    var c := kids[x];
    assert Family(ns, x, c) && Attached(ns, kids, x);
    if c != [] { assert Sibling(ns, x, c, 0) && Sibling(ns, x, c, |c| - 1); }
    if ns[x].parent != NULL {
      var p: nat := ns[x].parent;
      var i := IndexOf(kids[p], x);
      assert Family(ns, p, kids[p]) && Sibling(ns, p, kids[p], i);
      if i > 0 { assert Sibling(ns, p, kids[p], i - 1); }
      if i + 1 < |kids[p]| { assert Sibling(ns, p, kids[p], i + 1); }
    }
  }

  lemma AttachedAt(ns: seq<Node>, kids: seq<seq<nat>>, x: nat)
    requires Linked(ns, kids) && x < |ns| && ns[x].parent == NULL
    ensures ns[x].prev == NULL && ns[x].next == NULL && Detached(ns, kids, x) == kids
  {
    assert Attached(ns, kids, x);
  }

  /** A node below `node` is below it by the parent links, and those are left as they were: with
      the parent link of `node` they go round. */
  lemma Circular(ns: seq<Node>, kids: seq<seq<nat>>, h: seq<nat>, ns': seq<Node>, node: nat, parent: nat)
    requires Linked(ns, kids) && Ranked(kids, h) && node < |ns| && parent in Pre(kids, h, node)
    requires NewParent(ns, ns', node, parent)
    ensures forall ks, hs :: !(Linked(ns', ks) && Ranked(ks, hs))
  {
    forall ks, hs ensures !(Linked(ns', ks) && Ranked(ks, hs)) {
      if Linked(ns', ks) && Ranked(ks, hs) {
        PreBounds(kids, h, node, parent);
        HigherUp(ns', ks, hs, node);
        NotHigher(ns, kids, h, ns', ks, hs, node, parent);
      }
    }
  }

  lemma {:induction false} NotHigher(ns: seq<Node>, kids: seq<seq<nat>>, h: seq<nat>, ns': seq<Node>,
                                     ks: seq<seq<nat>>, hs: seq<nat>, node: nat, x: nat)
    requires Linked(ns, kids) && Ranked(kids, h) && node < |ns| && x in Pre(kids, h, node) && |ns'| == |ns|
    requires forall y: nat :: y < |ns| && y != node ==> ns'[y].parent == ns[y].parent
    requires Linked(ns', ks) && Ranked(ks, hs)
    ensures x < |ns| == |hs| && hs[x] <= hs[node]
    decreases if x < |h| then MaxOf(h) - h[x] else 0
  {
    PreBounds(kids, h, node, x);
    if x != node {
      ParentListed(ns, kids, h, node, x);
      HigherUp(ns, kids, h, x);
      HigherUp(ns', ks, hs, x);
      NotHigher(ns, kids, h, ns', ks, hs, node, ns[x].parent);
    }
  }

  /** Everything the removal of a child needs. */
  lemma RemovePlace(ns: seq<Node>, kids: seq<seq<nat>>, h: seq<nat>, x: nat) returns (k: nat)
    requires Linked(ns, kids) && Ranked(kids, h) && x < |ns| && ns[x].parent != NULL
    ensures var p := ns[x].parent;
            && 0 <= p < |ns| == |kids| && x in kids[p] && k == IndexOf(kids[p], x) && k < |kids[p]|
            && -1 <= ns[x].prev < |ns| && -1 <= ns[x].next < |ns|
            && Linked(Removed(ns, x), kids[p := Cut(kids[p], k)]) && Ranked(kids[p := Cut(kids[p], k)], h)
            && Removed(ns, x)[x] == ns[x].(parent := NULL, prev := NULL, next := NULL)
            && NewParent(ns, Removed(ns, x), x, NULL)
  {
    assert Attached(ns, kids, x);
    var p: nat := ns[x].parent;
    k := IndexOf(kids[p], x);
    assert Family(ns, p, kids[p]);
    NotOwnChild(kids, h, p);
    RemovedOnly(ns, p, kids[p], k);
    RemovedParent(ns, x);
    RemovedLinked(ns, kids, p, k);
    hide Linked, Removed, Family, Attached;
    CutRanked(kids, h, p, k);
  }

  lemma RemovedParent(ns: seq<Node>, x: nat)
    requires x < |ns| && 0 <= ns[x].parent < |ns| && ns[x].parent != x
    requires -1 <= ns[x].prev < |ns| && -1 <= ns[x].next < |ns|
    ensures NewParent(ns, Removed(ns, x), x, NULL)
  {
  }

  lemma NotOwnChild(kids: seq<seq<nat>>, h: seq<nat>, p: nat)
    requires Ranked(kids, h) && p < |kids|
    ensures p !in kids[p]
  {
    if p in kids[p] { HigherParent(kids, h, p, p); }
  }

  lemma CutRanked(kids: seq<seq<nat>>, h: seq<nat>, p: nat, k: nat)
    requires Ranked(kids, h) && p < |kids| && k < |kids[p]|
    ensures Ranked(kids[p := Cut(kids[p], k)], h)
  {
    var kids' := kids[p := Cut(kids[p], k)];
    forall q: nat, j: nat | q < |kids'| && j < |kids'[q]| ensures kids'[q][j] < |kids'| && h[kids'[q][j]] < h[q] {
      if q == p {
        assert kids'[q][j] == kids[p][if j < k then j else j + 1];
      }
    }
  }

  // ---------- adding ----------

  lemma {:induction false} PreOfFewer(kids: seq<seq<nat>>, kids': seq<seq<nat>>, h: seq<nat>, x: nat, z: nat)
    requires Ranked(kids, h) && Ranked(kids', h) && x < |kids| && z in Pre(kids', h, x)
    requires forall p: nat, y :: p < |kids| && y in kids'[p] ==> y in kids[p]
    ensures z in Pre(kids, h, x)
    decreases h[x]
  {
    if z != x {
      PreAllMember(kids', h, kids'[x], h[x], z);
      var i: nat :| i < |kids'[x]| && kids'[x][i] < |h| && z in Pre(kids', h, kids'[x][i]);
      PreOfFewer(kids, kids', h, kids'[x][i], z);
      assert kids'[x][i] in kids'[x];
      var j: nat :| j < |kids[x]| && kids[x][j] == kids'[x][i];
      PreAllHas(kids, h, kids[x], h[x], j);
    }
  }

  /** Taking the node out does not bring the parent below it. */
  lemma StillOutside(ns: seq<Node>, kids: seq<seq<nat>>, h: seq<nat>, parent: nat, node: nat)
    requires Linked(ns, kids) && Ranked(kids, h) && parent < |ns| && node < |ns| && parent !in Pre(kids, h, node)
    ensures Ranked(Detached(ns, kids, node), h) && parent !in Pre(Detached(ns, kids, node), h, node)
  {
    var p := ns[node].parent;
    if 0 <= p < |kids| && node in kids[p] {
      var k := IndexOf(kids[p], node);
      CutRanked(kids, h, p, k);
      assert Family(ns, p, kids[p]);
      CutMembers(kids[p], k);
      var kids' := kids[p := Cut(kids[p], k)];
      if parent in Pre(kids', h, node) {
        PreOfFewer(kids, kids', h, node, parent);
      }
    }
  }

  /** Heights for the tree with the node under its new parent: all that is not below the
      node is raised. */
  lemma InsertRanked(kids: seq<seq<nat>>, h: seq<nat>, p: nat, k: nat, x: nat) returns (h': seq<nat>)
    requires Ranked(kids, h) && p < |kids| && x < |kids| && k <= |kids[p]| && p !in Pre(kids, h, x)
    ensures Ranked(kids[p := Insert(kids[p], k, x)], h')
  {
    var below := Pre(kids, h, x);
    h' := seq(|h|, y requires 0 <= y < |h| => if y in below then h[y] else h[y] + h[x] + 1);
    var kids' := kids[p := Insert(kids[p], k, x)];
    forall q: nat, j: nat | q < |kids'| && j < |kids'[q]| ensures kids'[q][j] < |kids'| && h'[kids'[q][j]] < h'[q] {
      if q == p && j == k {
        assert kids'[q][j] == x && x in below;
      } else {
        var i := if q == p && j > k then j - 1 else j;
        assert kids'[q][j] == kids[q][i];
        if q in below { PreClosed(kids, h, x, q, i); }
      }
    }
  }

  lemma SameInserted(ns: seq<Node>, ns': seq<Node>, p: nat, x: nat)
    requires p < |ns| && x < |ns| && ns' == ns[x := ns[x].(parent := p)]
    ensures forall before, after :: -1 <= before < |ns| && -1 <= after < |ns| ==>
              Inserted(ns', p, x, before, after) == Inserted(ns, p, x, before, after)
  {
  }

  lemma ChildIff(ns: seq<Node>, kids: seq<seq<nat>>, p: nat, c: nat)
    requires Linked(ns, kids) && p < |ns| && c < |ns|
    ensures ns[c].parent == p <==> c in kids[p]
  {
    assert Attached(ns, kids, c);
    if c in kids[p] { ParentOf(ns, kids, p, c); }
  }

  /** Where the four ways of linking lead, as one insertion at `Position`. */
  lemma Places(ns: seq<Node>, kids: seq<seq<nat>>, h: seq<nat>, p: nat, where_: int, child: int, x: nat)
      returns (h': seq<nat>)
    requires Linked(ns, kids) && Ranked(kids, h) && p < |ns| && -1 <= child < |ns| && x < |ns|
    requires p !in Pre(kids, h, x) && ns[x].parent == NULL
    ensures p < |kids| == |ns| && p != x && x !in kids[p]
    ensures var c := kids[p];
            var k := Position(c, where_, child);
            var b, a := BeforeGap(c, k), AfterGap(c, k);
            && Gap(ns[x := ns[x].(parent := p)], p, x, b, a)
            && Linked(Inserted(ns, p, x, b, a), kids[p := Insert(c, k, x)]) && Ranked(kids[p := Insert(c, k, x)], h')
    ensures child != x ==>
              var k := Position(kids[p], where_, child);
              Chosen(ns, p, where_, child, BeforeGap(kids[p], k), AfterGap(kids[p], k))
    ensures child == x ==> Elsewhere(ns, p, x)
  {
    var c := kids[p];
    var k := Position(c, where_, child);
    assert Family(ns, p, c);
    NotOwnChild(kids, h, p);
    ChildIff(ns, kids, p, x);
    assert p != x;
    h' := InsertRanked(kids, h, p, k, x);
    GapPointers(ns, p, c, k, x);
    InsertedLinked(ns, kids, p, k, x);
    if child >= 0 { ChildIff(ns, kids, p, child); }
    hide Inserted, Linked, Ranked;
    if child != x && child >= 0 && child in c {
      var i := IndexOf(c, child);
      assert Sibling(ns, p, c, i);
      assert child == Head(c) <==> i == 0;
      assert child == Last(c) <==> i == |c| - 1;
    }
  }

  /** The tests in mxmlAdd pick the gap between `b` and `a`. */
  predicate Chosen(ns: seq<Node>, p: nat, where_: int, child: int, b: int, a: int)
    requires p < |ns| && -1 <= child < |ns|
  {
    if where_ == ADD_BEFORE then
      if child == NULL || child == ns[p].child || ns[child].parent != p then b == NULL && a == ns[p].child
      else b == ns[child].prev && a == child
    else
      if child == NULL || child == ns[p].last || ns[child].parent != p then b == ns[p].last && a == NULL
      else b == child && a == ns[child].next
  }

  predicate Elsewhere(ns: seq<Node>, p: nat, x: nat)
    requires p < |ns|
  {
    ns[p].child != x && ns[p].last != x
  }

  /** Links in which a node follows itself, or names a parent whose list it is not in, do not
      agree. */
  lemma Broken(ns: seq<Node>, kids: seq<seq<nat>>, ns': seq<Node>, p: nat, x: nat)
    requires Linked(ns, kids) && p < |ns| && x < |ns| && x !in kids[p] && p != x
    requires |ns'| == |ns| && ns'[x].parent == p
    requires ns'[x].next == x || (ns'[x].prev == NULL && ns'[p].child == ns[p].child)
    ensures forall ks :: !Linked(ns', ks)
  {
    assert Family(ns, p, kids[p]);
    forall ks ensures !Linked(ns', ks) {
      if |ks| == |ns'| && x in ks[p] {
        NotFamily(ns', p, ks[p], IndexOf(ks[p], x));
      } else {
        assert |ks| == |ns'| ==> !Attached(ns', ks, x);
      }
    }
  }

  lemma NotFamily(ns: seq<Node>, p: nat, c: seq<nat>, j: nat)
    requires p < |ns| && j < |c| && c[j] < |ns|
    requires ns[c[j]].next == c[j] || (ns[c[j]].prev == NULL && ns[p].child != c[j])
    ensures !Family(ns, p, c)
  {
    assert Family(ns, p, c) ==> Sibling(ns, p, c, j);
  }

  // ---------- walking ----------

  /** mxmlWalkNext. Descending below a top that has a child it goes to the next node in
      document order, and stops at the end. From a top without a child it escapes, to what
      follows that in the whole tree, unless nothing does. */
  method WalkNext(tree: XmlTree, node: int, top: nat, descend: int) returns (r: int)
    requires tree.Valid() && -1 <= node < |tree.ns| && top < |tree.ns|
    ensures node == NULL ==> r == NULL
    ensures node != NULL ==> r == Following(tree.ns, tree.kids, tree.h, node, top, descend) && -1 <= r < |tree.ns|
    ensures node != NULL ==> forall root: nat :: InOrderOf(tree.ns, tree.kids, tree.h, top, node, root) ==>
              WalksTo(tree.ns, tree.kids, tree.h, root, node, descend, r)
    ensures descend != NO_DESCEND && Below(tree.kids, tree.h, top, node) ==>
              NextBelow(Pre(tree.kids, tree.h, top), node, top, r)
    ensures node == top && tree.kids[top] == [] ==>
              && (r == NULL <==> NothingFollows(tree.ns, tree.kids, tree.h, top))
              && (r != NULL ==> r >= 0 && r !in Pre(tree.kids, tree.h, top))
  {
    if node == NULL {
      return NULL;
    }
    WalkMeaning(tree.ns, tree.kids, tree.h, node, top, descend);
    forall root: nat | InOrderOf(tree.ns, tree.kids, tree.h, top, node, root)
      ensures WalksTo(tree.ns, tree.kids, tree.h, root, node, descend,
                      Following(tree.ns, tree.kids, tree.h, node, top, descend))
    {
      WalkPlace(tree.ns, tree.kids, tree.h, root, node, top, descend);
    }
    hide InOrderOf, WalksTo;
    hide Pre, Linked, Ranked, After, Rest, NextBelow, NothingFollows, Following, Below;
    r := Step(tree, node, top, descend);
  }

  /** The document order that a walk from `x` follows starts at `root`: at the top, for a node
      below it, and otherwise at the node without a parent that `x` is, or is below. */
  ghost predicate InOrderOf(ns: seq<Node>, kids: seq<seq<nat>>, h: seq<nat>, top: nat, x: nat, root: nat)
    requires Ranked(kids, h) && |ns| == |kids| && top < |ns|
  {
    && root < |ns| && x in Pre(kids, h, root)
    && if x in Pre(kids, h, top) && x != top then root == top else ns[root].parent == NULL
  }

  /** `r` is what comes right after the stretch `here` of `all`. */
  ghost predicate Passes(all: seq<nat>, here: seq<nat>, r: int) {
    exists before: seq<nat>, rest: seq<nat> :: all == before + (here + rest) && r == Head(rest)
  }

  /** Descending, the walk goes to the next node; otherwise it passes over everything below `x`. */
  ghost predicate WalksTo(ns: seq<Node>, kids: seq<seq<nat>>, h: seq<nat>, root: nat, x: nat, descend: int, r: int)
    requires Ranked(kids, h) && |ns| == |kids| && root < |ns| && x < |ns|
  {
    var all, here := Pre(kids, h, root), Pre(kids, h, x);
    if descend != NO_DESCEND then
      forall k: nat :: k < |all| && all[k] == x ==> r == NextOf(all, k)
    else
      Passes(all, here, r) && (r >= 0 ==> r !in here) && (ns[x].next != NULL ==> r == ns[x].next)
  }

  lemma WalkPlace(ns: seq<Node>, kids: seq<seq<nat>>, h: seq<nat>, root: nat, x: nat, top: nat, descend: int)
    requires Linked(ns, kids) && Ranked(kids, h) && top < |ns| && x < |ns| && InOrderOf(ns, kids, h, top, x, root)
    ensures WalksTo(ns, kids, h, root, x, descend, Following(ns, kids, h, x, top, descend))
  {
    if !(x in Pre(kids, h, top) && x != top) {
      OnlyRoot(ns, kids, h, root, x);
    }
    assert Limit(ns, kids, h, top, x) == root;
    if descend != NO_DESCEND {
      AllSuccessors(ns, kids, h, root, x);
    } else {
      PassedOver(ns, kids, h, root, x);
      Around(ns, kids, h, root, x);
      assert Attached(ns, kids, x);
    }
    hide Linked, Ranked, Pre, Rest, After;
  }

  lemma PassedOver(ns: seq<Node>, kids: seq<seq<nat>>, h: seq<nat>, root: nat, x: nat)
    requires Linked(ns, kids) && Ranked(kids, h) && root < |ns| == |kids| && x in Pre(kids, h, root)
    ensures x < |kids| && Passes(Pre(kids, h, root), Pre(kids, h, x), Head(Rest(ns, kids, h, root, x)))
    ensures var r := Head(Rest(ns, kids, h, root, x)); r >= 0 ==> r !in Pre(kids, h, x)
  {
    hide Linked, Rest;
    var before := Located(ns, kids, h, root, x);
    PreNoDup(ns, kids, h, root);
    Apart(Pre(kids, h, root), before, Pre(kids, h, x), Rest(ns, kids, h, root, x));
  }

  lemma Apart(all: seq<nat>, before: seq<nat>, here: seq<nat>, rest: seq<nat>)
    requires NoDup(all) && all == before + (here + rest)
    ensures rest != [] ==> rest[0] !in here
  {
    forall j | 0 <= j < |here| && rest != [] ensures here[j] != rest[0] {
      assert all[|before| + j] == here[j] && all[|before| + |here|] == rest[0];
    }
  }

  /** A node to walk on from. */
  ghost predicate Below(kids: seq<seq<nat>>, h: seq<nat>, top: nat, node: int)
    requires Ranked(kids, h) && top < |kids|
  {
    node >= 0 && node in Pre(kids, h, top) && (node == top ==> kids[top] != [])
  }

  /** `r` is what follows `node` in `all`, and is not the top. */
  ghost predicate NextBelow(all: seq<nat>, node: int, top: nat, r: int) {
    && (forall k: nat :: k < |all| && all[k] == node ==> r == NextOf(all, k))
    && (r == NULL || (r >= 0 && r in all && r != top))
  }

  /** Neither `x` nor anything it is below has a next sibling. */
  ghost predicate NothingFollows(ns: seq<Node>, kids: seq<seq<nat>>, h: seq<nat>, x: nat)
    requires Ranked(kids, h) && |ns| == |kids|
  {
    forall a: nat :: a < |ns| && x in Pre(kids, h, a) ==> ns[a].next == NULL
  }

  /** The node without a parent that `x` is below. */
  ghost function Root(ns: seq<Node>, kids: seq<seq<nat>>, h: seq<nat>, x: nat): (root: nat)
    requires Linked(ns, kids) && Ranked(kids, h) && x < |ns|
    ensures root < |ns| && ns[root].parent == NULL
    decreases MaxOf(h) - h[x]
  {
    if ns[x].parent == NULL then x
    else
      HigherUp(ns, kids, h, x);
      Root(ns, kids, h, ns[x].parent)
  }

  lemma {:induction false} RootHas(ns: seq<Node>, kids: seq<seq<nat>>, h: seq<nat>, x: nat)
    requires Linked(ns, kids) && Ranked(kids, h) && x < |ns|
    ensures x in Pre(kids, h, Root(ns, kids, h, x))
    decreases MaxOf(h) - h[x]
  {
    if ns[x].parent == NULL {
      TopFirst(kids, h, x);
    } else {
      HigherUp(ns, kids, h, x);
      var p: nat := ns[x].parent;
      RootHas(ns, kids, h, p);
      PreClosed(kids, h, Root(ns, kids, h, x), p, IndexOf(kids[p], x));
    }
  }

  lemma {:induction false} OnlyRoot(ns: seq<Node>, kids: seq<seq<nat>>, h: seq<nat>, root: nat, x: nat)
    requires Linked(ns, kids) && Ranked(kids, h) && root < |ns| && ns[root].parent == NULL && x in Pre(kids, h, root)
    ensures x < |ns| && Root(ns, kids, h, x) == root
    decreases if x < |h| then MaxOf(h) - h[x] else 0
  {
    PreBounds(kids, h, root, x);
    if x != root {
      ParentListed(ns, kids, h, root, x);
      HigherUp(ns, kids, h, x);
      OnlyRoot(ns, kids, h, root, ns[x].parent);
    }
  }

  /** The order in which a walk from `x` stays: below the top, if `x` is. */
  ghost function Limit(ns: seq<Node>, kids: seq<seq<nat>>, h: seq<nat>, top: nat, x: nat): (limit: nat)
    requires Linked(ns, kids) && Ranked(kids, h) && top < |ns| && x < |ns|
    ensures limit < |ns| && x in Pre(kids, h, limit)
  {
    RootHas(ns, kids, h, x);
    if x in Pre(kids, h, top) && x != top then top else Root(ns, kids, h, x)
  }

  /** Where mxmlWalkNext leads. */
  ghost function Following(ns: seq<Node>, kids: seq<seq<nat>>, h: seq<nat>, x: nat, top: nat, descend: int): int
    requires Linked(ns, kids) && Ranked(kids, h) && top < |ns| && x < |ns|
  {
    var limit := Limit(ns, kids, h, top, x);
    if descend != NO_DESCEND then Head(After(ns, kids, h, limit, x)) else Head(Rest(ns, kids, h, limit, x))
  }

  /** What that means. */
  lemma WalkMeaning(ns: seq<Node>, kids: seq<seq<nat>>, h: seq<nat>, x: nat, top: nat, descend: int)
    requires Linked(ns, kids) && Ranked(kids, h) && top < |ns| && x < |ns|
    ensures var r := Following(ns, kids, h, x, top, descend);
            && -1 <= r < |ns|
            && (descend != NO_DESCEND && Below(kids, h, top, x) ==> NextBelow(Pre(kids, h, top), x, top, r))
            && (x == top && kids[top] == [] ==>
                  (r == NULL <==> NothingFollows(ns, kids, h, top)) && (r != NULL ==> r >= 0 && r !in Pre(kids, h, top)))
  {
    var limit := Limit(ns, kids, h, top, x);
    AllSuccessors(ns, kids, h, limit, x);
    RestListed(ns, kids, h, limit, x);
    hide Linked, Ranked;
    if Below(kids, h, top, x) {
      AllSuccessors(ns, kids, h, top, x);
      if x == top {
        FirstAfter(ns, kids, h, top, top);
        FirstAfter(ns, kids, h, limit, top);
      }
    }
    if x == top && kids[top] == [] {
      Escape(ns, kids, h, limit, top);
    }
  }

  lemma FirstAfter(ns: seq<Node>, kids: seq<seq<nat>>, h: seq<nat>, top: nat, x: nat)
    requires Linked(ns, kids) && Ranked(kids, h) && top < |ns| && x in Pre(kids, h, top) && x < |ns| && kids[x] != []
    ensures Head(After(ns, kids, h, top, x)) == kids[x][0]
  {
    Around(ns, kids, h, top, x);
    assert Family(ns, x, kids[x]);
  }

  lemma RestListed(ns: seq<Node>, kids: seq<seq<nat>>, h: seq<nat>, top: nat, x: nat)
    requires Linked(ns, kids) && Ranked(kids, h) && top < |ns| && x in Pre(kids, h, top)
    ensures -1 <= Head(Rest(ns, kids, h, top, x)) < |ns|
  {
    var before := Located(ns, kids, h, top, x);
    var rest, all := Rest(ns, kids, h, top, x), Pre(kids, h, top);
    hide Rest, Pre, Linked;
    if rest != [] {
      assert all[|before| + |Pre(kids, h, x)|] == rest[0];
      assert rest[0] in all;
      PreBounds(kids, h, top, rest[0]);
    }
  }

  /** From a node without children the walk leads out, if anything follows. */
  lemma Escape(ns: seq<Node>, kids: seq<seq<nat>>, h: seq<nat>, root: nat, top: nat)
    requires Linked(ns, kids) && Ranked(kids, h) && top < |kids| && kids[top] == []
    requires root < |ns| && ns[root].parent == NULL && top in Pre(kids, h, root)
    ensures After(ns, kids, h, root, top) == Rest(ns, kids, h, root, top) && Pre(kids, h, top) == [top]
    ensures Head(Rest(ns, kids, h, root, top)) == NULL <==> NothingFollows(ns, kids, h, top)
    ensures top !in Rest(ns, kids, h, root, top)
  {
    RestNull(ns, kids, h, root, top);
    NotAgain(ns, kids, h, root, top);
    assert Pre(kids, h, top) == [top];
    assert After(ns, kids, h, root, top) == [] + Rest(ns, kids, h, root, top);
  }

  lemma NotAgain(ns: seq<Node>, kids: seq<seq<nat>>, h: seq<nat>, root: nat, x: nat)
    requires Linked(ns, kids) && Ranked(kids, h) && root < |kids| && x in Pre(kids, h, root) && x < |kids|
    ensures x !in Rest(ns, kids, h, root, x)
  {
    hide Linked, Rest;
    var before := Located(ns, kids, h, root, x);
    PreNoDup(ns, kids, h, root);
    TopFirst(kids, h, x);
    var here, rest, all := Pre(kids, h, x), Rest(ns, kids, h, root, x), Pre(kids, h, root);
    hide Pre, Ranked;
    assert all[|before|] == here[0] == x;
    forall i | 0 <= i < |rest| ensures rest[i] != x {
      assert all[|before| + |here| + i] == rest[i];
    }
  }

  lemma {:induction false} RestNull(ns: seq<Node>, kids: seq<seq<nat>>, h: seq<nat>, root: nat, x: nat)
    requires Linked(ns, kids) && Ranked(kids, h) && root < |ns| && ns[root].parent == NULL && x in Pre(kids, h, root)
    ensures Head(Rest(ns, kids, h, root, x)) == NULL <==> NothingFollows(ns, kids, h, x)
    decreases if x < |h| then MaxOf(h) - h[x] else 0
  {
    Around(ns, kids, h, root, x);
    TopFirst(kids, h, x);
    assert Attached(ns, kids, x);
    hide Rest, Linked, Ranked;
    if ns[x].next == NULL {
      if x == root {
        forall a: nat | a < |ns| && x in Pre(kids, h, a) ensures a == x {
          if a != x { ParentListed(ns, kids, h, a, x); }
        }
      } else {
        var p: nat := ns[x].parent;
        RestNull(ns, kids, h, root, p);
        forall a: nat | a < |ns| ensures x in Pre(kids, h, a) <==> a == x || p in Pre(kids, h, a) {
          AboveParent(ns, kids, h, a, x, p);
        }
      }
    }
  }

  lemma AboveParent(ns: seq<Node>, kids: seq<seq<nat>>, h: seq<nat>, a: nat, x: nat, p: nat)
    requires Linked(ns, kids) && Ranked(kids, h) && a < |ns| && x < |ns| && p < |ns| && ns[x].parent == p
    ensures x in Pre(kids, h, a) <==> a == x || p in Pre(kids, h, a)
  {
    assert Attached(ns, kids, x);
    TopFirst(kids, h, x);
    if p in Pre(kids, h, a) {
      PreClosed(kids, h, a, p, IndexOf(kids[p], x));
    } else if x in Pre(kids, h, a) && a != x {
      ParentListed(ns, kids, h, a, x);
    }
  }

  /** The branches of mxmlWalkNext. */
  method Step(tree: XmlTree, x: nat, top: nat, descend: int) returns (r: int)
    requires tree.Valid() && x < |tree.ns| && top < |tree.ns|
    ensures r == Following(tree.ns, tree.kids, tree.h, x, top, descend)
  {
    ghost var limit := Limit(tree.ns, tree.kids, tree.h, top, x);
    Around(tree.ns, tree.kids, tree.h, limit, x);
    AtLimit(tree.ns, tree.kids, tree.h, top, x);
    hide Pre, PreAll, Rest, Linked, Ranked, Limit, After;
    if tree.ns[x].child != NULL && descend != NO_DESCEND {
      r := tree.ns[x].child;
    } else if tree.ns[x].next != NULL {
      r := tree.ns[x].next;
    } else if tree.ns[x].parent != NULL && tree.ns[x].parent != top {
      r := Climb(tree, x, top);
    } else {
      r := NULL;
    }
  }

  /** Where a walk turns back: at the top, for nodes below it, and otherwise at a node without
      a parent; so it stays below the same limit when it climbs. */
  lemma AtLimit(ns: seq<Node>, kids: seq<seq<nat>>, h: seq<nat>, top: nat, x: nat)
    requires Linked(ns, kids) && Ranked(kids, h) && top < |ns| && x < |ns|
    ensures var limit, p := Limit(ns, kids, h, top, x), ns[x].parent;
            && (x == limit <==> p == NULL) && (p == top ==> limit == top)
            && (p == NULL ==> ns[x].next == NULL)
            && (p != NULL && p != top ==> 0 <= p < |ns| && Limit(ns, kids, h, top, p) == limit)
  {
    assert Attached(ns, kids, x);
    RootHas(ns, kids, h, x);
    if ns[x].parent != NULL {
      HigherUp(ns, kids, h, x);
      var p: nat := ns[x].parent;
      AboveParent(ns, kids, h, top, x, p);
      TopFirst(kids, h, top);
      if p in Pre(kids, h, top) { PreBounds(kids, h, top, p); }
      PreBounds(kids, h, Root(ns, kids, h, x), x);
    } else if x in Pre(kids, h, top) && x != top {
      ParentListed(ns, kids, h, top, x);
    }
  }

  function MaxOf(h: seq<nat>): (m: nat)
    ensures forall i :: 0 <= i < |h| ==> h[i] <= m
  {
    if h == [] then 0
    else
      var m := MaxOf(h[1..]);
      assert forall i :: 1 <= i < |h| ==> h[i] == h[1..][i - 1];
      if h[0] > m then h[0] else m
  }

  /** The loop of mxmlWalkNext. */
  method Climb(tree: XmlTree, x: nat, top: nat) returns (r: int)
    requires tree.Valid() && top < |tree.ns| && x < |tree.ns|
    requires tree.ns[x].next == NULL && tree.ns[x].parent != top && 0 <= tree.ns[x].parent < |tree.ns|
    ensures r == Head(Rest(tree.ns, tree.kids, tree.h, Limit(tree.ns, tree.kids, tree.h, top, x), x))
  {
    ghost var limit := Limit(tree.ns, tree.kids, tree.h, top, x);
    Around(tree.ns, tree.kids, tree.h, limit, x);
    AtLimit(tree.ns, tree.kids, tree.h, top, x);
    var node: nat := tree.ns[x].parent;
    ghost var bound := MaxOf(tree.h);
    hide Pre, Rest, Linked, Ranked, Limit;
    while tree.ns[node].next == NULL
      invariant node < |tree.ns| == |tree.h| && Limit(tree.ns, tree.kids, tree.h, top, node) == limit
      invariant Rest(tree.ns, tree.kids, tree.h, limit, x) == Rest(tree.ns, tree.kids, tree.h, limit, node)
      decreases bound - tree.h[node]
    {
      Around(tree.ns, tree.kids, tree.h, limit, node);
      AtLimit(tree.ns, tree.kids, tree.h, top, node);
      if tree.ns[node].parent == top || tree.ns[node].parent == NULL {
        return NULL;
      }
      HigherUp(tree.ns, tree.kids, tree.h, node);
      node := tree.ns[node].parent;
    }
    Around(tree.ns, tree.kids, tree.h, limit, node);
    AtLimit(tree.ns, tree.kids, tree.h, top, node);
    r := tree.ns[node].next;
  }

  lemma HigherUp(ns: seq<Node>, kids: seq<seq<nat>>, h: seq<nat>, x: nat)
    requires Linked(ns, kids) && Ranked(kids, h) && x < |ns| && ns[x].parent != NULL
    ensures 0 <= ns[x].parent < |ns| == |h| && h[x] < h[ns[x].parent] && x in kids[ns[x].parent]
  {
    assert Attached(ns, kids, x);
    HigherParent(kids, h, ns[x].parent, x);
  }

  /** What the links of a listed node say about what comes after it. */
  lemma Around(ns: seq<Node>, kids: seq<seq<nat>>, h: seq<nat>, top: nat, x: nat)
    requires Linked(ns, kids) && Ranked(kids, h) && top < |kids| && x in Pre(kids, h, top)
    ensures x < |kids| == |ns| == |h| && (x != top ==> h[x] < h[top]) && Lower(h, kids[x], h[x])
    ensures ns[x].child == Head(kids[x]) && ns[x].child == Head(PreAll(kids, h, kids[x], h[x]))
    ensures Head(After(ns, kids, h, top, x)) ==
            if ns[x].child != NULL then ns[x].child else Head(Rest(ns, kids, h, top, x))
    ensures top in Pre(kids, h, top) && Rest(ns, kids, h, top, top) == []
    ensures x != top ==> 0 <= ns[x].parent < |ns| && ns[x].parent in Pre(kids, h, top) && h[x] < h[ns[x].parent]
    ensures x != top && ns[x].next == NULL ==> Rest(ns, kids, h, top, x) == Rest(ns, kids, h, top, ns[x].parent)
    ensures x != top && ns[x].next != NULL ==> Head(Rest(ns, kids, h, top, x)) == ns[x].next
  {
    PreBounds(kids, h, top, x);
    assert Lower(h, kids[x], h[x]);
    assert Family(ns, x, kids[x]);
    if x != top {
      ParentListed(ns, kids, h, top, x);
      var p: nat := ns[x].parent;
      HigherParent(kids, h, p, x);
      AfterChild(ns, kids, h, top, x, p);
    }
  }

  lemma AfterChild(ns: seq<Node>, kids: seq<seq<nat>>, h: seq<nat>, top: nat, x: nat, p: nat)
    requires Linked(ns, kids) && Ranked(kids, h) && top < |kids| && x in Pre(kids, h, top) && x != top && x < |ns|
    requires p < |ns| && ns[x].parent == p && p in Pre(kids, h, top) && x in kids[p]
    ensures ns[x].next == NULL ==> Rest(ns, kids, h, top, x) == Rest(ns, kids, h, top, p)
    ensures ns[x].next != NULL ==> Head(Rest(ns, kids, h, top, x)) == ns[x].next
  {
    assert Family(ns, p, kids[p]);
    var i := IndexOf(kids[p], x);
    assert Sibling(ns, p, kids[p], i);
    var later := kids[p][i + 1..];
    assert Lower(h, later, h[p]);
    RestStep(ns, kids, h, top, x, p);
    hide Rest, Linked, Family, Pre, Ranked;
    if later != [] {
      HeadOfAll(kids, h, later, h[p], Rest(ns, kids, h, top, p));
    }
  }

  lemma RestStep(ns: seq<Node>, kids: seq<seq<nat>>, h: seq<nat>, top: nat, x: nat, p: nat)
    requires Linked(ns, kids) && Ranked(kids, h) && top < |kids| && x in Pre(kids, h, top) && x != top && x < |ns|
    requires p < |ns| && ns[x].parent == p && p in Pre(kids, h, top) && x in kids[p]
    ensures var later := kids[p][IndexOf(kids[p], x) + 1..];
            && Lower(h, later, h[p])
            && Rest(ns, kids, h, top, x) == PreAll(kids, h, later, h[p]) + Rest(ns, kids, h, top, p)
  {
    hide Pre, PreAll, Family, Attached;
    assert Lower(h, kids[p][IndexOf(kids[p], x) + 1..], h[p]);
  }

  lemma HeadOfAll(kids: seq<seq<nat>>, h: seq<nat>, cs: seq<nat>, bound: nat, rest: seq<nat>)
    requires Ranked(kids, h) && Lower(h, cs, bound) && cs != []
    ensures Head(PreAll(kids, h, cs, bound) + rest) == cs[0]
  {
    assert cs[0] < |h|;
    TopFirst(kids, h, cs[0]);
  }

  /** What follows a node in the order below `top`. */
  ghost function After(ns: seq<Node>, kids: seq<seq<nat>>, h: seq<nat>, top: nat, x: nat): seq<nat>
    requires Linked(ns, kids) && Ranked(kids, h) && top < |kids| && x in Pre(kids, h, top)
  {
    PreBounds(kids, h, top, x);
    assert Lower(h, kids[x], h[x]);
    PreAll(kids, h, kids[x], h[x]) + Rest(ns, kids, h, top, x)
  }

  /** The successor of a node, wherever it is listed. */
  lemma AllSuccessors(ns: seq<Node>, kids: seq<seq<nat>>, h: seq<nat>, top: nat, x: nat)
    requires Linked(ns, kids) && Ranked(kids, h) && top < |kids| && x in Pre(kids, h, top)
    ensures NextBelow(Pre(kids, h, top), x, top, Head(After(ns, kids, h, top, x)))
    ensures -1 <= Head(After(ns, kids, h, top, x)) < |ns|
  {
    var all := Pre(kids, h, top);
    forall k: nat | k < |all| && all[k] == x ensures NextOf(all, k) == Head(After(ns, kids, h, top, x)) {
      Successor(ns, kids, h, top, x, k);
    }
    var k: nat :| k < |all| && all[k] == x;
    PreNoDup(ns, kids, h, top);
    TopFirst(kids, h, top);
    hide Pre, After, Linked;
    if k + 1 < |all| {
      assert all[k + 1] in all && all[k + 1] != all[0];
      PreBounds(kids, h, top, all[k + 1]);
    }
  }

  lemma TopFirst(kids: seq<seq<nat>>, h: seq<nat>, top: nat)
    requires Ranked(kids, h) && top < |kids|
    ensures Pre(kids, h, top) != [] && Pre(kids, h, top)[0] == top
  {
  }

  /** The order a search from `x` follows: below the top, if it starts there and the top has
      children; otherwise the whole tree, up to the end of what is below the top if it comes
      upon that. */
  ghost function Route(ns: seq<Node>, kids: seq<seq<nat>>, h: seq<nat>, top: nat, x: nat): (all: seq<nat>)
    requires Linked(ns, kids) && Ranked(kids, h) && top < |ns| && x < |ns|
    ensures x in all
  {
    if Below(kids, h, top, x) then Pre(kids, h, top)
    else
      RootHas(ns, kids, h, x);
      var root := Root(ns, kids, h, x);
      var all := Pre(kids, h, root);
      if Ahead(kids, h, top, x, all) then
        RouteEnd(ns, kids, h, root, top, x);
        all[..IndexOf(all, top) + |Pre(kids, h, top)|]
      else
        all
  }

  /** The top has children, and comes after `x`. */
  ghost predicate Ahead(kids: seq<seq<nat>>, h: seq<nat>, top: nat, x: nat, all: seq<nat>)
    requires Ranked(kids, h) && top < |kids| && x in all
  {
    kids[top] != [] && top in all && IndexOf(all, x) < IndexOf(all, top)
  }

  /** `below` is one stretch of `all`, from `top` on. */
  ghost predicate Stretch(all: seq<nat>, below: seq<nat>, top: nat) {
    && NoDup(all) && top in all && below != [] && below[0] == top
    && var e := IndexOf(all, top);
    && e + |below| <= |all| && all[e..e + |below|] == below
    && forall k: nat :: k < |all| && all[k] in below ==> e <= k < e + |below|
  }

  /** What is below the top is one stretch of the document order. */
  lemma TopBlock(ns: seq<Node>, kids: seq<seq<nat>>, h: seq<nat>, root: nat, top: nat)
    requires Linked(ns, kids) && Ranked(kids, h) && root < |ns| && top < |ns| && top in Pre(kids, h, root)
    ensures Stretch(Pre(kids, h, root), Pre(kids, h, top), top)
  {
    var before := Located(ns, kids, h, root, top);
    PreNoDup(ns, kids, h, root);
    TopFirst(kids, h, top);
    hide Linked, Ranked, Pre;
    StretchFrom(Pre(kids, h, root), before, Pre(kids, h, top), Rest(ns, kids, h, root, top), top);
  }

  lemma StretchFrom(all: seq<nat>, before: seq<nat>, below: seq<nat>, rest: seq<nat>, top: nat)
    requires NoDup(all) && all == before + below + rest && below != [] && below[0] == top
    ensures Stretch(all, below, top)
  {
    assert all[|before|] == top;
    OneIndex(all, |before|);
    hide IndexOf;
    forall k: nat | k < |all| && all[k] in below ensures |before| <= k < |before| + |below| {
      var j :| 0 <= j < |below| && below[j] == all[k];
      assert all[|before| + j] == below[j];
    }
  }

  lemma RouteEnd(ns: seq<Node>, kids: seq<seq<nat>>, h: seq<nat>, root: nat, top: nat, x: nat)
    requires Linked(ns, kids) && Ranked(kids, h) && root < |ns| && top < |ns| && x in Pre(kids, h, root)
    requires top in Pre(kids, h, root) && IndexOf(Pre(kids, h, root), x) < IndexOf(Pre(kids, h, root), top)
    ensures var all := Pre(kids, h, root);
            var e := IndexOf(all, top) + |Pre(kids, h, top)|;
            e <= |all| && x in all[..e]
  {
    TopBlock(ns, kids, h, root, top);
    var all := Pre(kids, h, root);
    hide Pre, IndexOf, Linked, Ranked;
    var e := IndexOf(all, top) + |Pre(kids, h, top)|;
    assert all[..e][IndexOf(all, x)] == x;
  }

  /** mxmlWalkNext from place `k` of that order. */
  method NextAt(tree: XmlTree, node: nat, top: nat, ghost start: nat, ghost all: seq<nat>, ghost from: nat, ghost k: nat)
      returns (r: int)
    requires tree.Valid() && node < |tree.ns| && top < |tree.ns| && start < |tree.ns|
    requires all == Route(tree.ns, tree.kids, tree.h, top, start) && from <= k < |all| && all[from] == start
    requires all[k] == node
    ensures r == NextOf(all, k) && -1 <= r < |tree.ns|
  {
    OnRoute(tree.ns, tree.kids, tree.h, top, start, node, from, k);
    hide Pre, Linked, Ranked, Route, Following, Below, NextBelow, NothingFollows;
    r := WalkNext(tree, node, top, DESCEND);
  }

  lemma OnRoute(ns: seq<Node>, kids: seq<seq<nat>>, h: seq<nat>, top: nat, start: nat, x: nat, from: nat, k: nat)
    requires Linked(ns, kids) && Ranked(kids, h) && top < |ns| && start < |ns| && x < |ns|
    requires var all := Route(ns, kids, h, top, start); from <= k < |all| && all[from] == start && all[k] == x
    ensures Following(ns, kids, h, x, top, DESCEND) == NextOf(Route(ns, kids, h, top, start), k)
  {
    var route := Route(ns, kids, h, top, start);
    assert x in route;
    if Below(kids, h, top, start) {
      WalkMeaning(ns, kids, h, x, top, DESCEND);
      PreNoDup(ns, kids, h, top);
      TopFirst(kids, h, top);
    } else {
      var root := Root(ns, kids, h, start);
      RootHas(ns, kids, h, start);
      var all := Pre(kids, h, root);
      if Ahead(kids, h, top, start, all) {
        RouteEnd(ns, kids, h, root, top, start);
      }
      assert all[from] == start && all[k] == x;
      if Ahead(kids, h, top, start, all) {
        Approaching(ns, kids, h, root, top, x, k);
      } else {
        NeverBelow(ns, kids, h, root, top, start, x, from, k);
        AllSuccessors(ns, kids, h, root, x);
        OnlyRoot(ns, kids, h, root, x);
      }
    }
  }

  /** On the way to the top and below it. */
  lemma Approaching(ns: seq<Node>, kids: seq<seq<nat>>, h: seq<nat>, root: nat, top: nat, x: nat, k: nat)
    requires Linked(ns, kids) && Ranked(kids, h) && root < |ns| && ns[root].parent == NULL && top < |ns| && x < |ns|
    requires top in Pre(kids, h, root) && kids[top] != []
    requires k < |Pre(kids, h, root)| && Pre(kids, h, root)[k] == x
    ensures OnTheWay(Pre(kids, h, root), Pre(kids, h, top), top, k, Following(ns, kids, h, x, top, DESCEND))
  {
    WalkOf(ns, kids, h, root, top, x);
    TopBlock(ns, kids, h, root, top);
    MoreThanTop(kids, h, top);
    hide *;
    Through(Pre(kids, h, root), Pre(kids, h, top), top, x, k, Following(ns, kids, h, x, top, DESCEND));
  }

  /** A node of a whole tree is followed by the next one below the top, if it is there, or in the
      tree. */
  lemma WalkOf(ns: seq<Node>, kids: seq<seq<nat>>, h: seq<nat>, root: nat, top: nat, x: nat)
    requires Linked(ns, kids) && Ranked(kids, h) && root < |ns| && ns[root].parent == NULL && top < |ns| && x < |ns|
    requires x in Pre(kids, h, root)
    ensures Follows(if x in Pre(kids, h, top) && x != top then Pre(kids, h, top) else Pre(kids, h, root), x,
                    Following(ns, kids, h, x, top, DESCEND))
  {
    OnlyRoot(ns, kids, h, root, x);
    AllSuccessors(ns, kids, h, Limit(ns, kids, h, top, x), x);
  }

  /** `r` comes after `x`. */
  ghost predicate Follows(all: seq<nat>, x: nat, r: int) { forall k: nat :: k < |all| && all[k] == x ==> r == NextOf(all, k) }

  /** `r` comes after place `k` on the way to the end of `below`. */
  ghost predicate OnTheWay(all: seq<nat>, below: seq<nat>, top: nat, k: nat, r: int) {
    top in all && (k < IndexOf(all, top) + |below| <= |all| ==> r == NextOf(all[..IndexOf(all, top) + |below|], k))
  }

  lemma Through(all: seq<nat>, below: seq<nat>, top: nat, x: nat, k: nat, r: int)
    requires Stretch(all, below, top) && |below| > 1 && k < |all| && all[k] == x
    requires Follows(if x in below && x != top then below else all, x, r)
    ensures OnTheWay(all, below, top, k, r)
  {
    if k < IndexOf(all, top) + |below| {
      if x in below && x != top {
        InStretch(all, below, IndexOf(all, top), k);
      } else {
        BeforeStretch(all, below, IndexOf(all, top), k);
      }
    }
  }

  lemma InStretch(all: seq<nat>, below: seq<nat>, at: nat, k: nat)
    requires at <= k < at + |below| <= |all| && all[at..at + |below|] == below
    ensures below[k - at] == all[k] && NextOf(all[..at + |below|], k) == NextOf(below, k - at)
  {
    assert below[k - at] == all[at..at + |below|][k - at];
    assert k + 1 < at + |below| ==> below[k - at + 1] == all[at..at + |below|][k - at + 1];
  }

  lemma BeforeStretch(all: seq<nat>, below: seq<nat>, at: nat, k: nat)
    requires NoDup(all) && k < at + |below| <= |all| && all[at..at + |below|] == below && |below| > 1
    requires all[k] in below ==> all[k] == below[0]
    ensures NextOf(all[..at + |below|], k) == NextOf(all, k)
  {
    if k > at { InStretch(all, below, at, k); }
    InStretch(all, below, at, at);
  }

  lemma MoreThanTop(kids: seq<seq<nat>>, h: seq<nat>, top: nat)
    requires Ranked(kids, h) && top < |kids| && kids[top] != []
    ensures |Pre(kids, h, top)| > 1
  {
    assert Lower(h, kids[top], h[top]) && kids[top][0] < |h|;
    TopFirst(kids, h, kids[top][0]);
  }

  lemma OneIndex(all: seq<nat>, i: nat)
    requires NoDup(all) && i < |all|
    ensures IndexOf(all, all[i]) == i
  {
    var k := IndexOf(all, all[i]);
  }

  lemma PastStretch(all: seq<nat>, below: seq<nat>, top: nat, from: nat, k: nat)
    requires Stretch(all, below, top) && from <= k < |all|
    requires all[from] !in below && IndexOf(all, top) <= IndexOf(all, all[from])
    ensures all[k] !in below
  {
    OneIndex(all, from);
    if from < IndexOf(all, top) + |below| { InStretch(all, below, IndexOf(all, top), from); }
  }

  /** Past the top, or without children below it, a walk does not come below the top. */
  lemma NeverBelow(ns: seq<Node>, kids: seq<seq<nat>>, h: seq<nat>, root: nat, top: nat, start: nat, x: nat, from: nat,
                   k: nat)
    requires Linked(ns, kids) && Ranked(kids, h) && root < |ns| && ns[root].parent == NULL && top < |ns|
    requires var all := Pre(kids, h, root);
             && from <= k < |all| && all[from] == start && all[k] == x && start in all && start < |ns|
             && !Below(kids, h, top, start) && !Ahead(kids, h, top, start, all)
    ensures x in Pre(kids, h, top) ==> x == top
  {
    if x in Pre(kids, h, top) && x != top {
      if kids[top] == [] {
        OnlyTop(kids, h, top, x);
      } else {
        TopIn(ns, kids, h, root, top, x);
        TopBlock(ns, kids, h, root, top);
        hide Linked, Ranked, Pre, IndexOf, Stretch;
        PastStretch(Pre(kids, h, root), Pre(kids, h, top), top, from, k);
      }
    }
  }

  lemma OnlyTop(kids: seq<seq<nat>>, h: seq<nat>, top: nat, x: nat)
    requires Ranked(kids, h) && top < |kids| && kids[top] == [] && x in Pre(kids, h, top)
    ensures x == top
  {
    assert Pre(kids, h, top) == [top];
  }

  /** The tree of a node is the tree of everything it is below. */
  lemma TopIn(ns: seq<Node>, kids: seq<seq<nat>>, h: seq<nat>, root: nat, top: nat, x: nat)
    requires Linked(ns, kids) && Ranked(kids, h) && root < |ns| && ns[root].parent == NULL && top < |ns|
    requires x in Pre(kids, h, root) && x in Pre(kids, h, top)
    ensures top in Pre(kids, h, root)
  {
    var r := Root(ns, kids, h, top);
    RootHas(ns, kids, h, top);
    BelowBelow(ns, kids, h, r, top, x);
    OnlyRoot(ns, kids, h, root, x);
    OnlyRoot(ns, kids, h, r, x);
  }

  lemma {:induction false} BelowBelow(ns: seq<Node>, kids: seq<seq<nat>>, h: seq<nat>, r: nat, top: nat, x: nat)
    requires Linked(ns, kids) && Ranked(kids, h) && r < |ns| && top in Pre(kids, h, r) && top < |ns|
    requires x in Pre(kids, h, top)
    ensures x in Pre(kids, h, r)
    decreases if x < |h| then MaxOf(h) - h[x] else 0
  {
    PreBounds(kids, h, top, x);
    if x != top {
      ParentListed(ns, kids, h, top, x);
      HigherUp(ns, kids, h, x);
      var p: nat := ns[x].parent;
      BelowBelow(ns, kids, h, r, top, p);
      PreClosed(kids, h, r, p, IndexOf(kids[p], x));
    }
  }

  /** Walking on from `top` visits its descendants, each once, in document order. */
  method WalkAll(tree: XmlTree, top: nat) returns (seen: seq<nat>)
    requires tree.Valid() && top < |tree.ns| && tree.kids[top] != []
    ensures [top] + seen == Pre(tree.kids, tree.h, top) && NoDup(seen)
  {
    ghost var all := Pre(tree.kids, tree.h, top);
    PreNoDup(tree.ns, tree.kids, tree.h, top);
    TopFirst(tree.kids, tree.h, top);
    assert all == Route(tree.ns, tree.kids, tree.h, top, top);
    hide Pre, Linked, Ranked, NoDup, Route;
    seen := [];
    var node := NextAt(tree, top, top, top, all, 0, 0);
    while node != NULL
      invariant |seen| < |all| && seen == all[1..|seen| + 1] && node == NextOf(all, |seen|)
      invariant -1 <= node < |tree.ns|
      decreases |all| - |seen|
    {
      assert all[1..|seen| + 2] == all[1..|seen| + 1] + [all[|seen| + 1]];
      seen := seen + [node];
      node := NextAt(tree, node, top, top, all, 0, |seen|);
    }
    Without0(all);
  }

  lemma Without0(all: seq<nat>)
    requires NoDup(all) && all != []
    ensures NoDup(all[1..]) && [all[0]] + all[1..] == all
  {
  }

  // ---------- searching ----------

  /** `r` is the first match in `s` from place `from` on, or missing. */
  ghost predicate FirstMatch(s: seq<nat>, from: nat, matches: nat -> bool, r: int) {
    if r == NULL then forall j :: from <= j < |s| ==> !matches(s[j])
    else exists i: nat :: from <= i < |s| && s[i] == r && matches(s[i]) && forall j :: from <= j < i ==> !matches(s[j])
  }

  /** mxmlFindElement. `matches` says which nodes have the name, attribute and value looked
      for. With MXML_DESCEND the first match after the node in the order of `Route`; otherwise
      the first match among the node that mxmlWalkNext leads to and its later siblings. */
  method FindElement(tree: XmlTree, node0: nat, top: nat, matches: nat -> bool, descend: int) returns (r: int)
    requires tree.Valid() && node0 < |tree.ns| && top < |tree.ns|
    ensures descend == DESCEND ==>
              var all := Route(tree.ns, tree.kids, tree.h, top, node0);
              FirstMatch(all, IndexOf(all, node0) + 1, matches, r)
    ensures descend != DESCEND ==>
              FirstMatch(Beside(tree.ns, tree.kids, Following(tree.ns, tree.kids, tree.h, node0, top, descend)), 0,
                         matches, r)
  {
    if descend == DESCEND {
      r := FindBelow(tree, node0, top, matches);
    } else {
      hide Following, Pre, Linked, Ranked;
      var node := WalkNext(tree, node0, top, descend);
      r := FindBeside(tree, node, matches);
    }
  }

  method FindBelow(tree: XmlTree, node0: nat, top: nat, matches: nat -> bool) returns (r: int)
    requires tree.Valid() && node0 < |tree.ns| && top < |tree.ns|
    ensures var all := Route(tree.ns, tree.kids, tree.h, top, node0);
            FirstMatch(all, IndexOf(all, node0) + 1, matches, r)
  {
    ghost var all := Route(tree.ns, tree.kids, tree.h, top, node0);
    ghost var k := IndexOf(all, node0);
    hide Pre, Linked, Ranked, Route, IndexOf, FirstMatch, NoneYet;
    ghost var i := k + 1;
    NoMatch(all, i, matches, i);
    var node := NextAt(tree, node0, top, node0, all, k, k);
    while node != NULL
      invariant k < i <= |all| && node == (if i < |all| then all[i] else NULL)
      invariant NoneYet(all, k + 1, matches, i)
      invariant -1 <= node < |tree.ns|
      decreases |all| - i
    {
      if matches(node) {
        Matched(all, k + 1, matches, i);
        return node;
      }
      NoMatch(all, k + 1, matches, i);
      node := NextAt(tree, node, top, node0, all, k, i);
      i := i + 1;
    }
    NoMatch(all, k + 1, matches, i);
    r := NULL;
  }

  ghost predicate NoneYet(s: seq<nat>, from: nat, matches: nat -> bool, to: nat) {
    to <= |s| && forall j :: from <= j < to ==> !matches(s[j])
  }

  lemma Matched(s: seq<nat>, from: nat, matches: nat -> bool, i: nat)
    requires from <= i < |s| && matches(s[i]) && NoneYet(s, from, matches, i)
    ensures FirstMatch(s, from, matches, s[i])
  {
  }

  lemma NoMatch(s: seq<nat>, from: nat, matches: nat -> bool, i: nat)
    requires from <= i <= |s| && (i > from ==> NoneYet(s, from, matches, i))
    ensures NoneYet(s, from, matches, i)
    ensures i < |s| && !matches(s[i]) ==> NoneYet(s, from, matches, i + 1)
    ensures i == |s| ==> FirstMatch(s, from, matches, NULL)
  {
  }

  /** A node and its later siblings. */
  ghost function Beside(ns: seq<Node>, kids: seq<seq<nat>>, x: int): seq<nat>
    requires Linked(ns, kids)
  {
    if x < 0 || x >= |ns| then [] else
      assert Attached(ns, kids, x);
      var p := ns[x].parent;
      if p == NULL then [x] else kids[p][IndexOf(kids[p], x)..]
  }

  method FindBeside(tree: XmlTree, first: int, matches: nat -> bool) returns (r: int)
    requires tree.Valid() && -1 <= first < |tree.ns|
    ensures FirstMatch(Beside(tree.ns, tree.kids, first), 0, matches, r)
  {
    ghost var c, i: nat := Beside(tree.ns, tree.kids, first), 0;
    if first != NULL { BesideNext(tree.ns, tree.kids, first); }
    hide Linked, Ranked, Beside;
    var node := first;
    while node != NULL
      invariant i <= |c| && node == (if i < |c| then c[i] else NULL)
      invariant forall j :: 0 <= j < i ==> !matches(c[j])
      decreases |c| - i
    {
      if matches(node) {
        return node;
      }
      node := tree.ns[node].next;
      i := i + 1;
    }
    r := NULL;
  }

  lemma BesideNext(ns: seq<Node>, kids: seq<seq<nat>>, x: nat)
    requires Linked(ns, kids) && x < |ns|
    ensures var c := Beside(ns, kids, x);
            c != [] && c[0] == x && forall i: nat :: i < |c| ==> c[i] < |ns| && ns[c[i]].next == NextOf(c, i)
  {
    assert Attached(ns, kids, x);
    if ns[x].parent != NULL {
      var p: nat := ns[x].parent;
      var at, c := IndexOf(kids[p], x), Beside(ns, kids, x);
      assert Family(ns, p, kids[p]);
      forall i: nat | i < |c| ensures c[i] < |ns| && ns[c[i]].next == NextOf(c, i) {
        assert Sibling(ns, p, kids[p], at + i);
      }
    }
  }

  /** With MXML_DESCEND_FIRST from a top that has children, the children are searched. */
  lemma ChildrenSearched(ns: seq<Node>, kids: seq<seq<nat>>, h: seq<nat>, top: nat)
    requires Linked(ns, kids) && Ranked(kids, h) && top < |ns| && kids[top] != []
    ensures Following(ns, kids, h, top, top, DESCEND_FIRST) == kids[top][0] < |ns|
    ensures Beside(ns, kids, kids[top][0]) == kids[top]
  {
    FirstAfter(ns, kids, h, Limit(ns, kids, h, top, top), top);
    assert Family(ns, top, kids[top]);
    assert Sibling(ns, top, kids[top], 0);
    assert IndexOf(kids[top], kids[top][0]) == 0;
  }

  /** A search from a top without children finds only nodes that are not below it. */
  lemma RouteEscapes(ns: seq<Node>, kids: seq<seq<nat>>, h: seq<nat>, top: nat, k: nat, j: nat)
    requires Linked(ns, kids) && Ranked(kids, h) && top < |ns| && kids[top] == []
    requires var all := Route(ns, kids, h, top, top); k < j < |all| && all[k] == top
    ensures Route(ns, kids, h, top, top)[j] !in Pre(kids, h, top)
  {
    PreNoDup(ns, kids, h, Root(ns, kids, h, top));
    assert Pre(kids, h, top) == [top];
  }

  /** There are such nodes: the sibling of the first child of a root, in these links. */
  const THREE: seq<Node> := [Node(NULL, 1, 2, NULL, NULL), Node(0, NULL, NULL, NULL, 2), Node(0, NULL, NULL, 1, NULL)]
  const THREE_KIDS: seq<seq<nat>> := [[1, 2], [], []]
  const THREE_HEIGHTS: seq<nat> := [1, 0, 0]

  lemma ThreeLinked()
    ensures Linked(THREE, THREE_KIDS) && Ranked(THREE_KIDS, THREE_HEIGHTS)
  {
    assert Sibling(THREE, 0, [1, 2], 0) && Sibling(THREE, 0, [1, 2], 1);
    assert Family(THREE, 0, THREE_KIDS[0]) && Family(THREE, 1, THREE_KIDS[1]) && Family(THREE, 2, THREE_KIDS[2]);
    assert THREE_KIDS[0][0] == 1 && THREE_KIDS[0][1] == 2;
    assert Attached(THREE, THREE_KIDS, 0) && Attached(THREE, THREE_KIDS, 1) && Attached(THREE, THREE_KIDS, 2);
  }

  lemma ThreeInOrder()
    ensures Ranked(THREE_KIDS, THREE_HEIGHTS) && Pre(THREE_KIDS, THREE_HEIGHTS, 1) == [1]
    ensures Pre(THREE_KIDS, THREE_HEIGHTS, 0) == [0, 1, 2]
  {
    ThreeLinked();
    hide Ranked;
    assert Pre(THREE_KIDS, THREE_HEIGHTS, 1) == [1] && Pre(THREE_KIDS, THREE_HEIGHTS, 2) == [2];
    assert THREE_KIDS[0][1..] == [2];
    assert PreAll(THREE_KIDS, THREE_HEIGHTS, [2], 1) == [2];
  }

  /** A search from node 1, below which there is nothing, finds node 2. */
  lemma FindsOutside(matches: nat -> bool)
    requires matches(2)
    ensures Linked(THREE, THREE_KIDS) && Ranked(THREE_KIDS, THREE_HEIGHTS)
    ensures 2 !in Pre(THREE_KIDS, THREE_HEIGHTS, 1)
    ensures var all := Route(THREE, THREE_KIDS, THREE_HEIGHTS, 1, 1);
            FirstMatch(all, IndexOf(all, 1) + 1, matches, 2)
  {
    ThreeLinked();
    ThreeInOrder();
    OnlyRoot(THREE, THREE_KIDS, THREE_HEIGHTS, 0, 1);
    var all := Route(THREE, THREE_KIDS, THREE_HEIGHTS, 1, 1);
    assert all == [0, 1, 2];
    assert IndexOf(all, 1) == 1;
  }
}
