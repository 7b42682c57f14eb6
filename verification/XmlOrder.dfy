/** mxml_config.c: the document order of a tree given by lists of children. */
module XmlOrder {
  import opened Links
  import opened Seqs
  import opened XmlLinks

  /** Children are lower than their parents, so there are no cycles. */
  ghost predicate Ranked(kids: seq<seq<nat>>, h: seq<nat>) {
    |h| == |kids| && forall p: nat, j: nat :: p < |kids| && j < |kids[p]| ==> kids[p][j] < |kids| && h[kids[p][j]] < h[p]
  }

  ghost predicate Lower(h: seq<nat>, cs: seq<nat>, bound: nat) {
    forall j: nat :: j < |cs| ==> cs[j] < |h| && h[cs[j]] < bound
  }

  /** A node and its descendants in document order. */
  ghost function Pre(kids: seq<seq<nat>>, h: seq<nat>, x: nat): seq<nat>
    requires Ranked(kids, h) && x < |kids|
    decreases h[x], |kids[x]| + 1
  {
    assert Lower(h, kids[x], h[x]);
    [x] + PreAll(kids, h, kids[x], h[x])
  }

  ghost function PreAll(kids: seq<seq<nat>>, h: seq<nat>, cs: seq<nat>, bound: nat): seq<nat>
    requires Ranked(kids, h) && Lower(h, cs, bound)
    decreases bound, |cs|
  {
    if cs == [] then []
    else
      assert Lower(h, cs[1..], bound);
      Pre(kids, h, cs[0]) + PreAll(kids, h, cs[1..], bound)
  }

  lemma {:induction false} PreAllSplit(kids: seq<seq<nat>>, h: seq<nat>, cs: seq<nat>, bound: nat, i: nat)
    requires Ranked(kids, h) && Lower(h, cs, bound) && i < |cs|
    ensures Lower(h, cs[..i], bound) && Lower(h, cs[i + 1..], bound) && cs[i] < |h|
    ensures PreAll(kids, h, cs, bound) ==
            PreAll(kids, h, cs[..i], bound) + (Pre(kids, h, cs[i]) + PreAll(kids, h, cs[i + 1..], bound))
  {
    if i == 0 {
      assert cs[..0] == [];
    } else {
      PreAllSplit(kids, h, cs[1..], bound, i - 1);
      assert cs[..i][1..] == cs[1..][..i - 1] && cs[1..][i..] == cs[i + 1..] && cs[..i][0] == cs[0];
    }
  }

  /** What is listed below a node: the node, or something below one of its children. */
  lemma {:induction false} PreAllMember(kids: seq<seq<nat>>, h: seq<nat>, cs: seq<nat>, bound: nat, z: nat)
    requires Ranked(kids, h) && Lower(h, cs, bound) && z in PreAll(kids, h, cs, bound)
    ensures exists i: nat :: i < |cs| && cs[i] < |h| && z in Pre(kids, h, cs[i])
    decreases |cs|
  {
    if z !in Pre(kids, h, cs[0]) {
      PreAllMember(kids, h, cs[1..], bound, z);
      var i: nat :| i < |cs[1..]| && cs[1..][i] < |h| && z in Pre(kids, h, cs[1..][i]);
      assert cs[i + 1] == cs[1..][i];
    }
  }

  lemma {:induction false} PreAllHas(kids: seq<seq<nat>>, h: seq<nat>, cs: seq<nat>, bound: nat, i: nat)
    requires Ranked(kids, h) && Lower(h, cs, bound) && i < |cs|
    ensures cs[i] < |h| && forall z :: z in Pre(kids, h, cs[i]) ==> z in PreAll(kids, h, cs, bound)
  {
    PreAllSplit(kids, h, cs, bound, i);
  }

  lemma {:induction false} PreBounds(kids: seq<seq<nat>>, h: seq<nat>, x: nat, z: nat)
    requires Ranked(kids, h) && x < |kids| && z in Pre(kids, h, x)
    ensures z < |kids| && h[z] <= h[x] && (z != x ==> h[z] < h[x])
    decreases h[x]
  {
    if z != x {
      PreAllMember(kids, h, kids[x], h[x], z);
      var i: nat :| i < |kids[x]| && kids[x][i] < |h| && z in Pre(kids, h, kids[x][i]);
      PreBounds(kids, h, kids[x][i], z);
    }
  }

  /** With a node its children are listed. */
  lemma {:induction false} PreClosed(kids: seq<seq<nat>>, h: seq<nat>, top: nat, x: nat, i: nat)
    requires Ranked(kids, h) && top < |kids| && x in Pre(kids, h, top) && x < |kids| && i < |kids[x]|
    ensures kids[x][i] in Pre(kids, h, top)
    decreases h[top]
  {
    if x == top {
      PreAllHas(kids, h, kids[x], h[x], i);
    } else {
      PreAllMember(kids, h, kids[top], h[top], x);
      var j: nat :| j < |kids[top]| && kids[top][j] < |h| && x in Pre(kids, h, kids[top][j]);
      PreClosed(kids, h, kids[top][j], x, i);
      PreAllHas(kids, h, kids[top], h[top], j);
    }
  }

  /** With a node other than the top its parent is listed. */
  lemma {:induction false} ParentListed(ns: seq<Node>, kids: seq<seq<nat>>, h: seq<nat>, top: nat, x: nat)
    requires Linked(ns, kids) && Ranked(kids, h) && top < |kids| && x in Pre(kids, h, top) && x != top
    ensures x < |ns| && 0 <= ns[x].parent < |ns| && ns[x].parent in Pre(kids, h, top) && x in kids[ns[x].parent]
    decreases h[top]
  {
    PreAllMember(kids, h, kids[top], h[top], x);
    var i: nat :| i < |kids[top]| && kids[top][i] < |h| && x in Pre(kids, h, kids[top][i]);
    var c := kids[top][i];
    if x == c {
      ParentOf(ns, kids, top, x);
    } else {
      ParentListed(ns, kids, h, c, x);
      PreAllHas(kids, h, kids[top], h[top], i);
    }
  }

  // ---------- every node once ----------

  /** Below two siblings there is nothing in common. */
  lemma {:induction false} SiblingsApart(ns: seq<Node>, kids: seq<seq<nat>>, h: seq<nat>, p: nat, a: nat, b: nat, z: nat)
    requires Linked(ns, kids) && Ranked(kids, h) && p < |kids| && a in kids[p] && b in kids[p] && a != b
    requires a < |kids| && b < |kids| && z in Pre(kids, h, a) && z < |kids| && h[z] <= h[a]
    ensures z !in Pre(kids, h, b)
    decreases h[a] - h[z]
  {
    if z in Pre(kids, h, b) {
      ParentOf(ns, kids, p, a);
      ParentOf(ns, kids, p, b);
      if z == a {
        ParentListed(ns, kids, h, b, z);
        PreBounds(kids, h, b, p);
      } else if z == b {
        ParentListed(ns, kids, h, a, z);
        PreBounds(kids, h, a, p);
      } else {
        ParentListed(ns, kids, h, a, z);
        ParentListed(ns, kids, h, b, z);
        var q := ns[z].parent;
        PreBounds(kids, h, a, q);
        HigherParent(kids, h, q, z);
        SiblingsApart(ns, kids, h, p, a, b, q);
      }
    }
  }

  lemma HigherParent(kids: seq<seq<nat>>, h: seq<nat>, p: nat, x: nat)
    requires Ranked(kids, h) && p < |kids| && x in kids[p]
    ensures x < |kids| && h[x] < h[p]
  {
    var j: nat :| j < |kids[p]| && kids[p][j] == x;
  }

  lemma {:induction false} PreNoDup(ns: seq<Node>, kids: seq<seq<nat>>, h: seq<nat>, x: nat)
    requires Linked(ns, kids) && Ranked(kids, h) && x < |kids|
    ensures NoDup(Pre(kids, h, x))
    decreases h[x], |kids[x]| + 1
  {
    assert Family(ns, x, kids[x]);
    assert kids[x] == kids[x][0..];
    PreAllNoDup(ns, kids, h, x, 0);
    var rest := PreAll(kids, h, kids[x], h[x]);
    forall k | 0 <= k < |rest| ensures rest[k] != x {
      PreAllMember(kids, h, kids[x], h[x], rest[k]);
      var i: nat :| i < |kids[x]| && kids[x][i] < |h| && rest[k] in Pre(kids, h, kids[x][i]);
      PreBounds(kids, h, kids[x][i], rest[k]);
    }
  }

  lemma {:induction false} PreAllNoDup(ns: seq<Node>, kids: seq<seq<nat>>, h: seq<nat>, p: nat, i: nat)
    requires Linked(ns, kids) && Ranked(kids, h) && p < |kids| && i <= |kids[p]|
    ensures Lower(h, kids[p][i..], h[p]) && NoDup(PreAll(kids, h, kids[p][i..], h[p]))
    decreases h[p], |kids[p]| - i
  {
    if i < |kids[p]| {
      var cs, c := kids[p][i..], kids[p][i];
      assert cs[1..] == kids[p][i + 1..] && cs[0] == c;
      PreNoDup(ns, kids, h, c);
      PreAllNoDup(ns, kids, h, p, i + 1);
      var first, rest := Pre(kids, h, c), PreAll(kids, h, cs[1..], h[p]);
      forall z | z in rest ensures z !in first { LaterApart(ns, kids, h, p, i, z); }
      hide Pre, PreAll;
      Joined(first, rest);
    }
  }

  lemma LaterApart(ns: seq<Node>, kids: seq<seq<nat>>, h: seq<nat>, p: nat, i: nat, z: nat)
    requires Linked(ns, kids) && Ranked(kids, h) && p < |kids| && i < |kids[p]|
    requires Lower(h, kids[p][i + 1..], h[p]) && z in PreAll(kids, h, kids[p][i + 1..], h[p])
    ensures kids[p][i] < |kids| && z !in Pre(kids, h, kids[p][i])
  {
    var cs := kids[p][i + 1..];
    PreAllMember(kids, h, cs, h[p], z);
    var j: nat :| j < |cs| && cs[j] < |h| && z in Pre(kids, h, cs[j]);
    assert cs[j] == kids[p][i + 1 + j];
    assert Family(ns, p, kids[p]);
    PreBounds(kids, h, cs[j], z);
    SiblingsApart(ns, kids, h, p, cs[j], kids[p][i], z);
  }

  // ---------- what follows a node ----------

  /** What comes after the descendants of `x` in the order below `top`. */
  ghost function Rest(ns: seq<Node>, kids: seq<seq<nat>>, h: seq<nat>, top: nat, x: nat): seq<nat>
    requires Linked(ns, kids) && Ranked(kids, h) && top < |kids| && x in Pre(kids, h, top)
    decreases if x < |kids| && h[x] <= h[top] then h[top] - h[x] else 0
  {
    if x == top then []
    else
      PreBounds(kids, h, top, x);
      ParentListed(ns, kids, h, top, x);
      var p := ns[x].parent;
      var i := IndexOf(kids[p], x);
      PreBounds(kids, h, top, p);
      HigherParent(kids, h, p, x);
      assert Lower(h, kids[p][i + 1..], h[p]);
      PreAll(kids, h, kids[p][i + 1..], h[p]) + Rest(ns, kids, h, top, p)
  }

  /** The order below `top`, around `x`. */
  lemma {:induction false} Located(ns: seq<Node>, kids: seq<seq<nat>>, h: seq<nat>, top: nat, x: nat)
      returns (before: seq<nat>)
    requires Linked(ns, kids) && Ranked(kids, h) && top < |kids| && x in Pre(kids, h, top)
    ensures x < |kids|
    ensures Pre(kids, h, top) == before + (Pre(kids, h, x) + Rest(ns, kids, h, top, x))
    decreases if x < |kids| && h[x] <= h[top] then h[top] - h[x] else 0
  {
    PreBounds(kids, h, top, x);
    before := [];
    if x != top {
      ParentListed(ns, kids, h, top, x);
      var p := ns[x].parent;
      PreBounds(kids, h, top, p);
      HigherParent(kids, h, p, x);
      var above := Located(ns, kids, h, top, p);
      var i := IndexOf(kids[p], x);
      PreAllSplit(kids, h, kids[p], h[p], i);
      before := above + ([p] + PreAll(kids, h, kids[p][..i], h[p]));
      Regroup(above, p, PreAll(kids, h, kids[p][..i], h[p]), Pre(kids, h, x), PreAll(kids, h, kids[p][i + 1..], h[p]),
              Rest(ns, kids, h, top, p));
    }
  }

  lemma Regroup(above: seq<nat>, p: nat, left: seq<nat>, mid: seq<nat>, right: seq<nat>, rest: seq<nat>)
    ensures above + (([p] + (left + (mid + right))) + rest) == (above + ([p] + left)) + (mid + (right + rest))
  {
  }

  /** The node after `x`. */
  lemma Successor(ns: seq<Node>, kids: seq<seq<nat>>, h: seq<nat>, top: nat, x: nat, k: nat)
    requires Linked(ns, kids) && Ranked(kids, h) && top < |kids|
    requires k < |Pre(kids, h, top)| && Pre(kids, h, top)[k] == x
    ensures x < |kids| && Lower(h, kids[x], h[x])
    ensures NextOf(Pre(kids, h, top), k) == Head(PreAll(kids, h, kids[x], h[x]) + Rest(ns, kids, h, top, x))
  {
    hide Linked, Rest;
    var all := Pre(kids, h, top);
    assert x in all;
    var before := Located(ns, kids, h, top, x);
    PreNoDup(ns, kids, h, top);
    assert Lower(h, kids[x], h[x]);
    assert Pre(kids, h, x) == [x] + PreAll(kids, h, kids[x], h[x]);
    hide Pre, PreAll;
    NextHere(all, before, x, PreAll(kids, h, kids[x], h[x]) + Rest(ns, kids, h, top, x), k);
  }

  lemma NextHere(all: seq<nat>, before: seq<nat>, x: nat, after: seq<nat>, k: nat)
    requires all == before + ([x] + after) && NoDup(all) && k < |all| && all[k] == x
    ensures NextOf(all, k) == Head(after)
  {
    assert all[|before|] == x;
  }
}
