/** The two linked structures under a safe list: the ring of nodes and, hanging off
    each node, the chain of iterators that will visit it next. Node and iterator 0
    stand for NULL. */
module SafeListChain {
  import opened Seqs

  /** `struct safe_list`: ring links and the first iterator of its chain. */
  datatype ListNode = ListNode(next: nat, prev: nat, i: nat)

  /** Where a `struct safe_list_iterator **` points: at a node's chain or at the
      `next_i` field of another iterator. */
  datatype Slot = NodeSlot(node: nat) | IterSlot(iter: nat)

  datatype Iter = Iter(head: Slot, nextI: nat, next: nat)

  function At(c: seq<nat>, j: nat): nat { if j < |c| then c[j] else 0 }

  // ---------- chains ----------

  /** What the `j`th iterator in the chain `c` of node `n` holds. */
  function ChainCell(n: nat, c: seq<nat>, j: nat): Iter
    requires j < |c|
  {
    Iter(if j == 0 then NodeSlot(n) else IterSlot(c[j - 1]), At(c, j + 1), n)
  }

  ghost predicate ChainAt(its: seq<Iter>, n: nat, c: seq<nat>, j: nat)
    requires j < |c|
  {
    0 < c[j] < |its| && its[c[j]] == ChainCell(n, c, j)
  }

  ghost predicate ChainOK(its: seq<Iter>, n: nat, first: nat, c: seq<nat>) {
    && first == At(c, 0) && NoDup(c)
    && (forall j :: 0 <= j < |c| ==> 0 < c[j] < |its|)
    && forall j :: 0 <= j < |c| ==> ChainAt(its, n, c, j)
  }

  lemma ChainFrame(its: seq<Iter>, its': seq<Iter>, n: nat, first: nat, c: seq<nat>)
    requires ChainOK(its, n, first, c) && |its| <= |its'|
    requires forall j :: 0 <= j < |c| && c[j] < |its| ==> its'[c[j]] == its[c[j]]
    ensures ChainOK(its', n, first, c)
  {
    forall j | 0 <= j < |c| ensures ChainAt(its', n, c, j) {
      assert ChainAt(its, n, c, j);
    }
  }

  lemma ChainPush(its: seq<Iter>, its': seq<Iter>, n: nat, first: nat, c: seq<nat>, it: nat)
    requires ChainOK(its, n, first, c) && it !in c && 0 < it < |its| == |its'|
    requires its'[it] == Iter(NodeSlot(n), first, n)
    requires first != 0 ==> its'[first] == its[first].(head := IterSlot(it))
    requires forall j :: 0 < j < |c| && c[j] < |its| ==> its'[c[j]] == its[c[j]]
    ensures ChainOK(its', n, it, [it] + c)
  {
    var d := [it] + c;
    forall j | 0 <= j < |d| ensures ChainAt(its', n, d, j) {
      if j > 0 {
        assert d[j] == c[j - 1] && ChainAt(its, n, c, j - 1);
        assert At(d, j + 1) == At(c, j);
      }
    }
  }

  lemma ChainRemove(its: seq<Iter>, its': seq<Iter>, n: nat, first: nat, c: seq<nat>, k: nat)
    requires ChainOK(its, n, first, c) && k < |c| && |its| == |its'|
    requires k > 0 ==> its'[c[k - 1]] == its[c[k - 1]].(nextI := At(c, k + 1))
    requires k + 1 < |c| ==> its'[c[k + 1]] == its[c[k + 1]].(head := its[c[k]].head)
    requires forall j :: 0 <= j < |c| && j != k - 1 && j != k && j != k + 1 ==> its'[c[j]] == its[c[j]]
    ensures ChainOK(its', n, if k == 0 then At(c, 1) else first, Cut(c, k))
  {
    var d := Cut(c, k);
    CutAt(c, k);
    forall j | 0 <= j < |d| ensures ChainAt(its', n, d, j) {
      var i := if j < k then j else j + 1;
      assert d[j] == c[i] && ChainAt(its, n, c, i) && ChainAt(its, n, c, k);
    }
  }

  lemma CutAt(s: seq<nat>, k: nat)
    requires k < |s|
    ensures |Cut(s, k)| == |s| - 1
    ensures forall j :: 0 <= j < k ==> Cut(s, k)[j] == s[j]
    ensures forall j :: k <= j < |s| - 1 ==> Cut(s, k)[j] == s[j + 1]
    ensures NoDup(s) ==> NoDup(Cut(s, k)) && s[k] !in Cut(s, k)
  {
  }

  /** What the `j`th iterator of `c` holds once `c` stands in front of a chain of
      node `m` that starts with `d0`. */
  function MergedCell(m: nat, c: seq<nat>, d0: nat, j: nat): Iter
    requires j < |c|
  {
    Iter(if j == 0 then NodeSlot(m) else IterSlot(c[j - 1]), if j + 1 < |c| then c[j + 1] else d0, m)
  }

  /** The iterators of a removed node go in front of its successor's. */
  lemma ChainMerge(its: seq<Iter>, its': seq<Iter>, n: nat, m: nat, c: seq<nat>, d: seq<nat>)
    requires ChainOK(its, n, At(c, 0), c) && ChainOK(its, m, At(d, 0), d) && n != m
    requires |c| > 0 && |its| == |its'|
    requires forall j :: 0 <= j < |c| ==> its'[c[j]] == MergedCell(m, c, At(d, 0), j)
    requires |d| > 0 ==> its'[d[0]] == its[d[0]].(head := IterSlot(c[|c| - 1]))
    requires forall j :: 0 < j < |d| ==> its'[d[j]] == its[d[j]]
    ensures ChainOK(its', m, c[0], c + d)
  {
    var e := c + d;
    forall j | 0 <= j < |e| ensures ChainAt(its', m, e, j) {
      if j < |c| {
        assert ChainAt(its, n, c, j);
        assert e[j] == c[j] && At(e, j + 1) == if j + 1 < |c| then c[j + 1] else At(d, 0);
      } else {
        assert ChainAt(its, m, d, j - |c|);
        assert e[j] == d[j - |c|] && At(e, j + 1) == At(d, j + 1 - |c|);
      }
    }
    forall i, j | 0 <= i < |c| && 0 <= j < |d| ensures c[i] != d[j] {
      assert ChainAt(its, n, c, i) && ChainAt(its, m, d, j);
    }
    Joined(c, d);
  }

  // ---------- the ring ----------

  function Succ(r: seq<nat>, j: nat): nat
    requires j < |r|
  {
    if j + 1 < |r| then r[j + 1] else r[0]
  }

  function Pred(r: seq<nat>, j: nat): nat
    requires j < |r|
  {
    if j > 0 then r[j - 1] else r[|r| - 1]
  }

  /** `r`, the head followed by the list in order, is linked both ways round, and
      exactly its nodes have links. */
  ghost predicate RingOK(ns: seq<ListNode>, r: seq<nat>) {
    && |r| > 0 && NoDup(r)
    && (forall j :: 0 <= j < |r| ==> RingAt(ns, r, j))
    && forall x :: 0 < x < |ns| && x !in r ==> ns[x].next == 0
  }

  ghost predicate RingAt(ns: seq<ListNode>, r: seq<nat>, j: nat)
    requires j < |r|
  {
    0 < r[j] < |ns| && ns[r[j]].next == Succ(r, j) && ns[r[j]].prev == Pred(r, j)
  }

  /** The writes of list_del: `p` and `q` are linked to each other, `n` to nothing. */
  ghost predicate Unlinked(ns: seq<ListNode>, ns': seq<ListNode>, n: nat, p: nat, q: nat) {
    && |ns'| == |ns| && n < |ns| && ns'[n].next == 0
    && forall x :: 0 < x < |ns| && x != n ==>
      && ns'[x].next == (if x == p then q else ns[x].next)
      && ns'[x].prev == (if x == q then p else ns[x].prev)
  }

  lemma RingRemoveAt(ns: seq<ListNode>, ns': seq<ListNode>, r: seq<nat>, k: nat, j: nat)
    requires RingOK(ns, r) && 0 < k < |r| && Unlinked(ns, ns', r[k], Pred(r, k), Succ(r, k))
    requires j < |Cut(r, k)|
    ensures var r' := Cut(r, k);
      RingAt(ns', r', j)
  {
    CutAt(r, k);
    var i := if j < k then j else j + 1;
    var x := r[i];
    assert Cut(r, k)[j] == x && x != r[k];
    assert RingAt(ns, r, i);
    assert x == r[k - 1] <==> i == k - 1;
    var q := if k + 1 < |r| then k + 1 else 0;
    assert x == r[q] <==> i == q;
  }

  lemma RingRemove(ns: seq<ListNode>, ns': seq<ListNode>, r: seq<nat>, k: nat)
    requires RingOK(ns, r) && 0 < k < |r| && Unlinked(ns, ns', r[k], Pred(r, k), Succ(r, k))
    ensures RingOK(ns', Cut(r, k))
  {
    var r' := Cut(r, k);
    CutAt(r, k);
    forall j | 0 <= j < |r'|
      ensures RingAt(ns', r', j)
    {
      RingRemoveAt(ns, ns', r, k, j);
    }
    assert r[k - 1] == r'[k - 1];
    forall x | 0 < x < |ns'| && x !in r' ensures ns'[x].next == 0 {
      assert x != r[k] ==> x !in r;
    }
  }

  /** The writes of _list_add: `n` is new and stands between `p` and `q`. */
  ghost predicate LinkedIn(ns: seq<ListNode>, ns': seq<ListNode>, n: nat, p: nat, q: nat) {
    && |ns'| == |ns| + 1 && n == |ns| > 0 && ns'[n].next == q && ns'[n].prev == p
    && forall x :: 0 < x < |ns| ==>
      && ns'[x].next == (if x == p then n else ns[x].next)
      && ns'[x].prev == (if x == q then n else ns[x].prev)
  }

  lemma RingInsertAt(ns: seq<ListNode>, ns': seq<ListNode>, r: seq<nat>, k: nat, n: nat, j: nat)
    requires RingOK(ns, r) && 0 < k <= |r| && n !in r && LinkedIn(ns, ns', n, r[k - 1], Succ(r, k - 1))
    requires j <= |r| && j != k
    ensures var r' := Insert(r, k, n);
      RingAt(ns', r', j)
  {
    InsertPlaces(r, k, n);
    var i := if j < k then j else j - 1;
    var x := r[i];
    assert Insert(r, k, n)[j] == x;
    assert RingAt(ns, r, i);
    assert x == r[k - 1] <==> i == k - 1;
    var q := if k < |r| then k else 0;
    assert x == r[q] <==> i == q;
  }

  lemma RingInsert(ns: seq<ListNode>, ns': seq<ListNode>, r: seq<nat>, k: nat, n: nat)
    requires RingOK(ns, r) && 0 < k <= |r| && n !in r && LinkedIn(ns, ns', n, r[k - 1], Succ(r, k - 1))
    ensures RingOK(ns', Insert(r, k, n))
  {
    var r' := Insert(r, k, n);
    InsertPlaces(r, k, n);
    forall j | 0 <= j < |r'|
      ensures RingAt(ns', r', j)
    {
      if j != k { RingInsertAt(ns, ns', r, k, n, j); }
    }
    assert r[k - 1] == r'[k - 1];
    forall x | 0 < x < |ns'| && x !in r' ensures ns'[x].next == 0 {
      assert x != n && x !in r;
    }
  }
}
