/** mxml_config.c: the five links of an XML node, and the lists of children they form. */
module XmlLinks {
  import opened Links
  import opened Seqs

  /** The link fields of mxml_node_t; nodes are numbered. */
  datatype Node = Node(parent: int, child: int, last: int, prev: int, next: int)

  function Last(c: seq<nat>): int { if c == [] then NULL else c[|c| - 1] }

  predicate Sibling(ns: seq<Node>, p: nat, c: seq<nat>, j: nat)
    requires j < |c|
  {
    && c[j] < |ns| && ns[c[j]].parent == p
    && ns[c[j]].prev == PrevOf(c, j) && ns[c[j]].next == NextOf(c, j)
  }

  /** Node `p` has the children `c`, in that order. */
  ghost predicate Family(ns: seq<Node>, p: nat, c: seq<nat>)
    requires p < |ns|
  {
    && ns[p].child == Head(c) && ns[p].last == Last(c) && NoDup(c)
    && forall j: nat :: j < |c| ==> Sibling(ns, p, c, j)
  }

  ghost predicate Attached(ns: seq<Node>, kids: seq<seq<nat>>, x: nat)
    requires x < |ns| == |kids|
  {
    if ns[x].parent == NULL then ns[x].prev == NULL && ns[x].next == NULL
    else 0 <= ns[x].parent < |ns| && x in kids[ns[x].parent]
  }

  /** All links agree, and `kids` are the lists of children. */
  ghost predicate Linked(ns: seq<Node>, kids: seq<seq<nat>>) {
    && |kids| == |ns|
    && (forall p: nat :: p < |ns| ==> Family(ns, p, kids[p]))
    && forall x: nat :: x < |ns| ==> Attached(ns, kids, x)
  }

  // ---------- changing the links of one family ----------

  /** `ns'` has the child pointers of `ns` except at `p`, and the sibling links of `ns` except
      at `p`'s children. */
  ghost predicate OnlyFamily(ns: seq<Node>, ns': seq<Node>, p: nat, x: nat) {
    && |ns'| == |ns|
    && (forall y: nat :: y < |ns| && y != p ==> ns'[y].child == ns[y].child && ns'[y].last == ns[y].last)
    && forall y: nat :: y < |ns| && y != x && ns[y].parent != p ==>
         ns'[y].parent == ns[y].parent && ns'[y].prev == ns[y].prev && ns'[y].next == ns[y].next
  }

  lemma OtherFamily(ns: seq<Node>, ns': seq<Node>, p: nat, x: nat, q: nat, c: seq<nat>)
    requires OnlyFamily(ns, ns', p, x) && q < |ns| && q != p && Family(ns, q, c) && x !in c
    ensures Family(ns', q, c)
  {
    forall j: nat | j < |c| ensures Sibling(ns', q, c, j) {
      assert Sibling(ns, q, c, j);
    }
  }

  lemma ParentOf(ns: seq<Node>, kids: seq<seq<nat>>, q: nat, x: nat)
    requires Linked(ns, kids) && q < |ns| && x in kids[q]
    ensures x < |ns| && ns[x].parent == q
  {
    assert Family(ns, q, kids[q]);
    var j: nat :| j < |kids[q]| && kids[q][j] == x;
    assert Sibling(ns, q, kids[q], j);
  }

  /** A change to the family of `p`, in which only `x` comes or goes. */
  lemma Relinked(ns: seq<Node>, ns': seq<Node>, kids: seq<seq<nat>>, p: nat, x: nat, c': seq<nat>)
    requires Linked(ns, kids) && p < |ns| && x < |ns| && (ns[x].parent == p || ns[x].parent == NULL)
    requires OnlyFamily(ns, ns', p, x) && Family(ns', p, c')
    requires forall y :: y != x ==> (y in c' <==> y in kids[p])
    requires x in c' || (ns'[x].parent == NULL && ns'[x].prev == NULL && ns'[x].next == NULL)
    ensures Linked(ns', kids[p := c'])
  {
    var kids' := kids[p := c'];
    forall q: nat | q < |ns| ensures Family(ns', q, kids'[q]) {
      if q != p {
        assert Family(ns, q, kids[q]);
        if x in kids[q] { ParentOf(ns, kids, q, x); }
        OtherFamily(ns, ns', p, x, q, kids[q]);
      }
    }
    hide Family;
    forall y: nat | y < |ns| ensures Attached(ns', kids', y) {
      assert Attached(ns, kids, y);
      if y in c' {
        ParentIs(ns', p, c', y);
      } else if y != x && ns[y].parent == p {
        assert false;
      }
    }
  }

  lemma ParentIs(ns: seq<Node>, p: nat, c: seq<nat>, y: nat)
    requires p < |ns| && Family(ns, p, c) && y in c
    ensures y < |ns| && ns[y].parent == p
  {
    var j: nat :| j < |c| && c[j] == y;
    assert Sibling(ns, p, c, j);
  }

  // ---------- mxmlRemove ----------

  function Removed(ns: seq<Node>, x: nat): (r: seq<Node>)
    requires x < |ns| && 0 <= ns[x].parent < |ns|
    requires (ns[x].prev == NULL || 0 <= ns[x].prev < |ns|) && (ns[x].next == NULL || 0 <= ns[x].next < |ns|)
    ensures |r| == |ns|
  {
    var n := ns[x];
    var a := if n.prev != NULL then ns[n.prev := ns[n.prev].(next := n.next)]
             else ns[n.parent := ns[n.parent].(child := n.next)];
    var b := if n.next != NULL then a[n.next := a[n.next].(prev := n.prev)]
             else a[n.parent := a[n.parent].(last := n.prev)];
    b[x := b[x].(parent := NULL, prev := NULL, next := NULL)]
  }

  /** The pointers of the `k`th child. */
  lemma ChildPointers(ns: seq<Node>, p: nat, c: seq<nat>, k: nat)
    requires p < |ns| && Family(ns, p, c) && k < |c|
    ensures var x := c[k];
            && x < |ns| && ns[x].parent == p && ns[x].prev == PrevOf(c, k) && ns[x].next == NextOf(c, k)
            && (ns[x].prev == NULL || 0 <= ns[x].prev < |ns|) && (ns[x].next == NULL || 0 <= ns[x].next < |ns|)
            && ns[x].prev != x && ns[x].next != x && (ns[x].next == ns[x].prev ==> ns[x].next == NULL)
            && (ns[x].prev != NULL ==> ns[ns[x].prev].parent == p) && (ns[x].next != NULL ==> ns[ns[x].next].parent == p)
  {
    assert Sibling(ns, p, c, k);
    if k > 0 { assert Sibling(ns, p, c, k - 1); }
    if k + 1 < |c| { assert Sibling(ns, p, c, k + 1); }
  }

  lemma RemovedOnly(ns: seq<Node>, p: nat, c: seq<nat>, k: nat)
    requires p < |ns| && Family(ns, p, c) && k < |c| && p !in c
    ensures c[k] < |ns| && ns[c[k]].parent == p
    ensures (ns[c[k]].prev == NULL || 0 <= ns[c[k]].prev < |ns|) && (ns[c[k]].next == NULL || 0 <= ns[c[k]].next < |ns|)
    ensures OnlyFamily(ns, Removed(ns, c[k]), p, c[k])
    ensures Removed(ns, c[k])[c[k]] == ns[c[k]].(parent := NULL, prev := NULL, next := NULL)
  {
    ChildPointers(ns, p, c, k);
    PlaceOf(c, p, k);
  }

  lemma PlaceOf(c: seq<nat>, p: nat, k: nat)
    requires p !in c && k < |c|
    ensures c[k] != p && PrevOf(c, k) != p && NextOf(c, k) != p
  {
  }

  lemma RemovedFamily(ns: seq<Node>, p: nat, c: seq<nat>, k: nat)
    requires p < |ns| && Family(ns, p, c) && k < |c| && p !in c
    requires c[k] < |ns| && ns[c[k]].parent == p
    requires (ns[c[k]].prev == NULL || 0 <= ns[c[k]].prev < |ns|) && (ns[c[k]].next == NULL || 0 <= ns[c[k]].next < |ns|)
    ensures Family(Removed(ns, c[k]), p, Cut(c, k))
  {
    var ns', c' := Removed(ns, c[k]), Cut(c, k);
    ChildPointers(ns, p, c, k);
    PlaceOf(c, p, k);
    forall j: nat | j < |c'| ensures Sibling(ns', p, c', j) {
      var i := if j < k then j else j + 1;
      assert Sibling(ns, p, c, i) && c'[j] == c[i];
    }
  }

  /** Taking a child out of its family. */
  lemma RemovedLinked(ns: seq<Node>, kids: seq<seq<nat>>, p: nat, k: nat)
    requires Linked(ns, kids) && p < |ns| && k < |kids[p]| && p !in kids[p]
    ensures var x := kids[p][k];
            && x < |ns| && ns[x].parent == p
            && (ns[x].prev == NULL || 0 <= ns[x].prev < |ns|) && (ns[x].next == NULL || 0 <= ns[x].next < |ns|)
            && Linked(Removed(ns, x), kids[p := Cut(kids[p], k)])
            && Removed(ns, x)[x].parent == NULL
  {
    var c, x := kids[p], kids[p][k];
    assert Family(ns, p, c);
    RemovedOnly(ns, p, c, k);
    RemovedFamily(ns, p, c, k);
    CutMembers(c, k);
    hide Removed, Family, Cut;
    Relinked(ns, Removed(ns, x), kids, p, x, Cut(c, k));
  }

  // ---------- mxmlAdd ----------

  /** The four ways mxmlAdd links a node in: between `before` and `after`, either of which
      may be missing. */
  function Inserted(ns: seq<Node>, p: nat, x: nat, before: int, after: int): (r: seq<Node>)
    requires p < |ns| && x < |ns| && -1 <= before < |ns| && -1 <= after < |ns|
    ensures |r| == |ns|
  {
    var a := ns[x := ns[x].(parent := p, prev := before, next := after)];
    var b := if before != NULL then a[before := a[before].(next := x)] else a[p := a[p].(child := x)];
    if after != NULL then b[after := b[after].(prev := x)] else b[p := b[p].(last := x)]
  }

  function BeforeGap(c: seq<nat>, k: nat): int
    requires k <= |c|
  {
    if k > 0 then c[k - 1] else NULL
  }

  function AfterGap(c: seq<nat>, k: nat): int
    requires k <= |c|
  {
    if k < |c| then c[k] else NULL
  }

  /** The nodes on the two sides of a gap. */
  lemma GapPointers(ns: seq<Node>, p: nat, c: seq<nat>, k: nat, x: nat)
    requires p < |ns| && Family(ns, p, c) && k <= |c| && p !in c && x !in c && x != p
    ensures var b, a := BeforeGap(c, k), AfterGap(c, k);
            && -1 <= b < |ns| && -1 <= a < |ns| && b != p && a != p && b != x && a != x && (a == b ==> a == NULL)
            && (b != NULL ==> ns[b].parent == p && ns[b].next == a) && (a != NULL ==> ns[a].parent == p && ns[a].prev == b)
            && (b == NULL ==> ns[p].child == a) && (a == NULL ==> ns[p].last == b)
  {
    if k > 0 { assert Sibling(ns, p, c, k - 1); }
    if k < |c| { assert Sibling(ns, p, c, k); }
  }

  lemma InsertedOnly(ns: seq<Node>, p: nat, c: seq<nat>, k: nat, x: nat)
    requires p < |ns| && x < |ns| && Family(ns, p, c) && k <= |c| && p !in c && x !in c && x != p
    ensures -1 <= BeforeGap(c, k) < |ns| && -1 <= AfterGap(c, k) < |ns|
    ensures OnlyFamily(ns, Inserted(ns, p, x, BeforeGap(c, k), AfterGap(c, k)), p, x)
  {
    GapPointers(ns, p, c, k, x);
  }

  lemma InsertedFamily(ns: seq<Node>, p: nat, c: seq<nat>, k: nat, x: nat)
    requires p < |ns| && x < |ns| && Family(ns, p, c) && k <= |c| && p !in c && x !in c && x != p
    requires -1 <= BeforeGap(c, k) < |ns| && -1 <= AfterGap(c, k) < |ns|
    ensures Family(Inserted(ns, p, x, BeforeGap(c, k), AfterGap(c, k)), p, Insert(c, k, x))
  {
    var ns', c' := Inserted(ns, p, x, BeforeGap(c, k), AfterGap(c, k)), Insert(c, k, x);
    GapPointers(ns, p, c, k, x);
    forall j: nat | j < |c'| ensures Sibling(ns', p, c', j) {
      if j < k {
        assert Sibling(ns, p, c, j);
      } else if j > k {
        assert Sibling(ns, p, c, j - 1) && c'[j] == c[j - 1];
      }
    }
  }

  /** Linking a node without a parent into a gap. */
  lemma InsertedLinked(ns: seq<Node>, kids: seq<seq<nat>>, p: nat, k: nat, x: nat)
    requires Linked(ns, kids) && p < |ns| && x < |ns| && k <= |kids[p]| && p !in kids[p] && x != p && ns[x].parent == NULL
    ensures -1 <= BeforeGap(kids[p], k) < |ns| && -1 <= AfterGap(kids[p], k) < |ns|
    ensures Linked(Inserted(ns, p, x, BeforeGap(kids[p], k), AfterGap(kids[p], k)), kids[p := Insert(kids[p], k, x)])
  {
    var c := kids[p];
    assert Family(ns, p, c);
    if x in c { ParentOf(ns, kids, p, x); }
    InsertedOnly(ns, p, c, k, x);
    InsertedFamily(ns, p, c, k, x);
    InsertMembers(c, k, x);
    hide Inserted, Family, Insert;
    Relinked(ns, Inserted(ns, p, x, BeforeGap(c, k), AfterGap(c, k)), kids, p, x, Insert(c, k, x));
  }
}
