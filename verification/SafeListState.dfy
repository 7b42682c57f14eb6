/** The state of a safe list with its live iterators, and what each operation of
    list_safe.c does to it. */
module SafeListState {
  import opened Seqs
  import opened SafeListChain

  type Chains = map<nat, seq<nat>>

  /** Every node on the ring (and only those) has a chain; iterators in it name it. */
  ghost predicate Inv(ns: seq<ListNode>, its: seq<Iter>, ring: seq<nat>, ch: Chains) {
    && RingOK(ns, ring)
    && (forall n :: n in ch <==> n in ring)
    && forall n :: n in ch && n < |ns| ==> ChainOK(its, n, ns[n].i, ch[n])
  }

  ghost predicate Live(ch: Chains, it: nat) { exists n :: n in ch && it in ch[n] }

  /** A live iterator sits in exactly one chain, at one place: that of the node it
      names, which is on the list (or is its head). */
  lemma LiveInOneChain(ns: seq<ListNode>, its: seq<Iter>, ring: seq<nat>, ch: Chains, it: nat)
    requires Inv(ns, its, ring, ch) && Live(ch, it)
    ensures 0 < it < |its| && its[it].next in ring && its[it].next in ch && it in ch[its[it].next]
    ensures forall n :: n in ch && it in ch[n] ==> n == its[it].next
    ensures var c := ch[its[it].next];
      forall i, j :: 0 <= i < |c| && 0 <= j < |c| && c[i] == it && c[j] == it ==> i == j
  {
    hide RingOK, ChainOK;
    RingFacts(ns, ring);
    forall n | n in ch && it in ch[n] ensures 0 < it < |its| && n == its[it].next && NoDup(ch[n]) {
      assert n in ring;
      ChainMembers(its, n, ns[n].i, ch[n]);
    }
  }

  lemma RingFacts(ns: seq<ListNode>, ring: seq<nat>)
    requires RingOK(ns, ring)
    ensures |ring| > 0 && NoDup(ring) && forall x :: x in ring ==> 0 < x < |ns|
  {
    forall x | x in ring ensures 0 < x < |ns| {
      var j :| 0 <= j < |ring| && ring[j] == x;
      assert RingAt(ns, ring, j);
    }
  }

  lemma RingFrame(ns: seq<ListNode>, ns': seq<ListNode>, ring: seq<nat>)
    requires RingOK(ns, ring) && |ns'| == |ns|
    requires forall x :: 0 < x < |ns| ==> ns'[x].next == ns[x].next && ns'[x].prev == ns[x].prev
    ensures RingOK(ns', ring)
  {
    forall j | 0 <= j < |ring| ensures RingAt(ns', ring, j) {
      assert RingAt(ns, ring, j);
    }
  }

  /** An operation that touches only iterators that name `a` or `b` keeps the chains
      of all other nodes. */
  lemma OthersKept(ns: seq<ListNode>, its: seq<Iter>, its': seq<Iter>, ring: seq<nat>, ch: Chains, a: nat, b: nat)
    requires Inv(ns, its, ring, ch) && |its| <= |its'|
    requires forall x :: 0 < x < |its| && its[x].next != a && its[x].next != b ==> its'[x] == its[x]
    ensures forall m :: m in ch && m < |ns| && m != a && m != b ==> ChainOK(its', m, ns[m].i, ch[m])
  {
    forall m | m in ch && m < |ns| && m != a && m != b ensures ChainOK(its', m, ns[m].i, ch[m]) {
      ChainMembers(its, m, ns[m].i, ch[m]);
      ChainFrame(its, its', m, ns[m].i, ch[m]);
    }
  }

  lemma ChainMembers(its: seq<Iter>, n: nat, first: nat, c: seq<nat>)
    requires ChainOK(its, n, first, c)
    ensures forall x :: x in c ==> 0 < x < |its| && its[x].next == n
    ensures forall j :: 0 <= j < |c| ==> 0 < c[j] < |its| && its[c[j]].next == n
    ensures first == At(c, 0) && (first != 0 ==> first in c) && NoDup(c)
  {
    forall j | 0 <= j < |c| ensures its[c[j]].next == n {
      assert ChainAt(its, n, c, j);
    }
  }

  lemma InvPush(ns: seq<ListNode>, ns': seq<ListNode>, its: seq<Iter>, its': seq<Iter>,
                ring: seq<nat>, ch: Chains, n: nat, it: nat)
    requires Inv(ns, its, ring, ch) && !Live(ch, it) && n in ch && n < |ns| && 0 < it < |its| == |its'|
    requires ns' == ns[n := ns[n].(i := it)]
    requires its'[it] == Iter(NodeSlot(n), ns[n].i, n)
    requires ns[n].i != 0 ==> ns[n].i < |its| && its'[ns[n].i] == its[ns[n].i].(head := IterSlot(it))
    requires forall x :: 0 < x < |its| && x != it && x != ns[n].i ==> its'[x] == its[x]
    ensures Inv(ns', its', ring, ch[n := [it] + ch[n]])
  {
    hide ChainOK, RingOK;
    RingFrame(ns, ns', ring);
    assert n in ring && it !in ch[n] && ChainOK(its, n, ns[n].i, ch[n]);
    ChainMembers(its, n, ns[n].i, ch[n]);
    ChainPush(its, its', n, ns[n].i, ch[n], it);
    forall m | m in ch && m < |ns'| && m != n ensures ChainOK(its', m, ns'[m].i, ch[m]) {
      assert it !in ch[m] && ChainOK(its, m, ns[m].i, ch[m]);
      ChainMembers(its, m, ns[m].i, ch[m]);
      ChainFrame(its, its', m, ns[m].i, ch[m]);
    }
  }

  /** The writes of __safe_list_del_iterator for the `k`th iterator of node `n`. */
  ghost predicate Dropped(ns: seq<ListNode>, ns': seq<ListNode>, its: seq<Iter>, its': seq<Iter>, n: nat, c: seq<nat>, k: nat)
    requires k < |c|
  {
    && n < |ns| && ns' == (if k == 0 then ns[n := ns[n].(i := At(c, 1))] else ns)
    && |its'| == |its|
    && (k > 0 ==> c[k - 1] < |its| && its'[c[k - 1]] == its[c[k - 1]].(nextI := At(c, k + 1)))
    && (k + 1 < |c| ==> c[k] < |its| && c[k + 1] < |its| && its'[c[k + 1]] == its[c[k + 1]].(head := its[c[k]].head))
    && forall x :: 0 < x < |its| && (k > 0 ==> x != c[k - 1]) && (k + 1 < |c| ==> x != c[k + 1]) ==> its'[x] == its[x]
  }

  lemma InvDrop(ns: seq<ListNode>, ns': seq<ListNode>, its: seq<Iter>, its': seq<Iter>,
                ring: seq<nat>, ch: Chains, n: nat, k: nat)
    requires Inv(ns, its, ring, ch) && n in ch && k < |ch[n]| && Dropped(ns, ns', its, its', n, ch[n], k)
    ensures Inv(ns', its', ring, ch[n := Cut(ch[n], k)])
  {
    hide ChainOK, RingOK;
    RingFrame(ns, ns', ring);
    assert n in ring;
    var c := ch[n];
    ChainMembers(its, n, ns[n].i, c);
    OthersKept(ns, its, its', ring, ch, n, n);
    ChainRemove(its, its', n, ns[n].i, c, k);
  }

  // ---------- removing a node ----------

  /** Chains after node `n` is removed: its iterators now wait at its successor `m`. */
  ghost function ChainsAfterDel(ch: Chains, n: nat, m: nat): Chains
    requires n in ch && m in ch
  {
    ch[m := ch[n] + ch[m]] - {n}
  }

  /** The writes of safe_list_del to the iterators. */
  ghost predicate Moved(its: seq<Iter>, its': seq<Iter>, c: seq<nat>, d: seq<nat>, m: nat) {
    && |its'| == |its|
    && (forall j :: 0 <= j < |c| ==> c[j] < |its| && its'[c[j]] == MergedCell(m, c, At(d, 0), j))
    && (|c| > 0 && |d| > 0 ==> d[0] < |its| && its'[d[0]] == its[d[0]].(head := IterSlot(c[|c| - 1])))
    && forall x :: 0 < x < |its| && x !in c && (|c| > 0 && |d| > 0 ==> x != d[0]) ==> its'[x] == its[x]
  }

  lemma InvDel(ns: seq<ListNode>, ns': seq<ListNode>, its: seq<Iter>, its': seq<Iter>,
               ring: seq<nat>, ch: Chains, k: nat)
    requires Inv(ns, its, ring, ch) && 0 < k < |ring|
    requires var (n, m) := (ring[k], Succ(ring, k));
      && Unlinked(ns, ns', n, Pred(ring, k), m) && n in ch && m in ch
      && Moved(its, its', ch[n], ch[m], m)
      && (forall x :: 0 < x < |ns| && x != n && x != m ==> ns'[x].i == ns[x].i)
      && m < |ns'| && ns'[m].i == (if ch[n] == [] then ns[m].i else ch[n][0])
    ensures Inv(ns', its', Cut(ring, k), ChainsAfterDel(ch, ring[k], Succ(ring, k)))
  {
    var (n, m) := (ring[k], Succ(ring, k));
    var ch' := ChainsAfterDel(ch, n, m);
    hide ChainOK, RingOK, Unlinked, Moved, Cut, Pred, NoDup;
    RingFacts(ns, ring);
    RingRemove(ns, ns', ring, k);
    CutMembers(ring, k);
    SuccDiffers(ring, k);
    UnlinkedSize(ns, ns', n, Pred(ring, k), m);
    MergedChain(ns, its, its', ring, ch, n, m);
    forall x | x in ch' && x < |ns'| ensures ChainOK(its', x, ns'[x].i, ch'[x]) {
      assert x in ring && x != n;
    }
    var rr := Cut(ring, k);
    assert RingOK(ns', rr);
    forall x ensures x in ch' <==> x in rr {
      assert x in ch' <==> x in ch && x != n;
    }
    assert forall n :: n in ch' && n < |ns'| ==> ChainOK(its', n, ns'[n].i, ch'[n]);
    MkInv(ns', its', rr, ch');
  }

  lemma MkInv(ns: seq<ListNode>, its: seq<Iter>, ring: seq<nat>, ch: Chains)
    requires RingOK(ns, ring)
    requires forall n :: n in ch <==> n in ring
    requires forall n :: n in ch && n < |ns| ==> ChainOK(its, n, ns[n].i, ch[n])
    ensures Inv(ns, its, ring, ch)
  {
  }

  lemma UnlinkedSize(ns: seq<ListNode>, ns': seq<ListNode>, n: nat, p: nat, q: nat)
    requires Unlinked(ns, ns', n, p, q)
    ensures |ns'| == |ns|
  {
  }

  lemma MergedChain(ns: seq<ListNode>, its: seq<Iter>, its': seq<Iter>, ring: seq<nat>, ch: Chains, n: nat, m: nat)
    requires Inv(ns, its, ring, ch) && n in ch && m in ch && n != m && Moved(its, its', ch[n], ch[m], m)
    ensures n < |ns| && m < |ns|
    ensures ChainOK(its', m, if ch[n] == [] then ns[m].i else ch[n][0], ch[n] + ch[m])
    ensures forall x :: x in ch && x < |ns| && x != n && x != m ==> ChainOK(its', x, ns[x].i, ch[x])
  {
    hide ChainOK, RingOK, Moved;
    RingFacts(ns, ring);
    assert n in ring && m in ring;
    MovedOthers(its, its', n, m, ns[n].i, ns[m].i, ch[n], ch[m]);
    OthersKept(ns, its, its', ring, ch, n, m);
    MovedMerge(its, its', n, m, ns[n].i, ns[m].i, ch[n], ch[m]);
  }

  lemma MovedOthers(its: seq<Iter>, its': seq<Iter>, n: nat, m: nat, a: nat, b: nat, c: seq<nat>, d: seq<nat>)
    requires ChainOK(its, n, a, c) && ChainOK(its, m, b, d) && n != m && Moved(its, its', c, d, m)
    ensures |its'| == |its|
    ensures forall x :: 0 < x < |its| && its[x].next != n && its[x].next != m ==> its'[x] == its[x]
    ensures forall j :: 0 < j < |d| ==> d[j] < |its| && its'[d[j]] == its[d[j]]
  {
    hide ChainOK;
    ChainMembers(its, n, a, c);
    ChainMembers(its, m, b, d);
  }

  lemma MovedMerge(its: seq<Iter>, its': seq<Iter>, n: nat, m: nat, a: nat, b: nat, c: seq<nat>, d: seq<nat>)
    requires ChainOK(its, n, a, c) && ChainOK(its, m, b, d) && n != m && Moved(its, its', c, d, m)
    ensures ChainOK(its', m, if c == [] then b else c[0], c + d)
  {
    hide ChainOK;
    ChainMembers(its, n, a, c);
    ChainMembers(its, m, b, d);
    if c == [] {
      assert c + d == d;
      ChainFrame(its, its', m, b, d);
    } else {
      MovedOthers(its, its', n, m, a, b, c, d);
      ChainMerge(its, its', n, m, c, d);
    }
  }

  lemma SuccDiffers(ring: seq<nat>, k: nat)
    requires NoDup(ring) && 0 < k < |ring|
    ensures Succ(ring, k) != ring[k] && Succ(ring, k) in ring && Pred(ring, k) != ring[k]
    ensures Succ(ring, k) in Cut(ring, k)
  {
    var q := if k + 1 < |ring| then k + 1 else 0;
    assert ring[q] == Succ(ring, k);
    assert Cut(ring, k)[if q < k then q else q - 1] == ring[q];
  }

  lemma InvAdd(ns: seq<ListNode>, ns': seq<ListNode>, its: seq<Iter>, ring: seq<nat>, ch: Chains, k: nat, n: nat)
    requires Inv(ns, its, ring, ch) && 0 < k <= |ring| && n !in ring
    requires LinkedIn(ns, ns', n, ring[k - 1], Succ(ring, k - 1)) && ns'[n].i == 0
    requires forall x :: 0 < x < |ns| ==> ns'[x].i == ns[x].i
    ensures Inv(ns', its, Insert(ring, k, n), ch[n := []])
  {
    var ring', ch' := Insert(ring, k, n), ch[n := []];
    RingFacts(ns, ring);
    RingInsert(ns, ns', ring, k, n);
    InsertMembers(ring, k, n);
    hide RingOK, ChainOK, Insert, LinkedIn, Succ;
    forall x | x in ch' && x < |ns'| && x != n ensures ChainOK(its, x, ns'[x].i, ch'[x]) {
      assert x in ring && ChainOK(its, x, ns[x].i, ch[x]);
    }
    EmptyChain(its, n);
    MkInv(ns', its, ring', ch');
  }

  lemma EmptyChain(its: seq<Iter>, n: nat)
    ensures ChainOK(its, n, 0, [])
  {
  }
}
