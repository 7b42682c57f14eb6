/** list_safe.c: a list that callbacks may change while any number of loops are
    running over it. */
module SafeList {
  import opened Seqs
  import opened SafeListChain
  import opened SafeListState
  import opened SafeListMotion
  import opened SafeListSpec

  class SafeList {
    var nodes: seq<ListNode>
    var iters: seq<Iter>
    const head: nat
    /** The head, then the nodes on the list in order. */
    ghost var ring: seq<nat>
    /** The iterators waiting at each node. */
    ghost var chains: Chains

    ghost predicate Valid()
      reads this
    {
      Inv(nodes, iters, ring, chains) && ring[0] == head && |iters| > 0
    }

    ghost function Snapshot(): Snap
      reads this
    {
      Snap(ring, iters, |nodes|)
    }

    /** The list as callers see it, with where the iterators `q` wait. */
    ghost function ViewOf(q: seq<nat>): View
      reads this
    {
      View(ring, |nodes|, Targets(iters, q))
    }

    ghost predicate Tracked(q: seq<nat>)
      reads this
    {
      forall i :: 0 <= i < |q| ==> q[i] in LiveSet(chains)
    }

    constructor ()
      ensures Valid() && ring == [head] && LiveSet(chains) == {}
    {
      head := 1;
      nodes := [ListNode(0, 0, 0), ListNode(1, 1, 0)];
      iters := [Iter(NodeSlot(0), 0, 0)];
      ring := [1];
      chains := map[1 := []];
      new;
      assert RingAt(nodes, ring, 0);
    }

    /** `*slot = v` */
    method WriteSlot(slot: Slot, v: nat)
      requires slot.NodeSlot? ==> slot.node < |nodes|
      requires slot.IterSlot? ==> slot.iter < |iters|
      modifies this`nodes, this`iters
      ensures slot.NodeSlot? ==> nodes == old(nodes[slot.node := nodes[slot.node].(i := v)]) && iters == old(iters)
      ensures slot.IterSlot? ==> iters == old(iters[slot.iter := iters[slot.iter].(nextI := v)]) && nodes == old(nodes)
    {
      match slot
      case NodeSlot(n) => nodes := nodes[n := nodes[n].(i := v)];
      case IterSlot(it) => iters := iters[it := iters[it].(nextI := v)];
    }

    /** __safe_list_set_iterator: `it` starts to wait at the node after `list`. */
    method SetIterator(list: nat, it: nat, ghost k: nat)
      requires Valid() && k < |ring| && ring[k] == list && 0 < it < |iters| && !Live(chains, it)
      modifies this
      ensures Valid() && ring == old(ring) && |nodes| == old(|nodes|) && |iters| == old(|iters|)
      ensures chains == old(chains)[Succ(ring, k) := [it] + old(chains)[Succ(ring, k)]]
      ensures iters[it].next == Succ(ring, k)
      ensures forall x :: 0 < x < |iters| && x != it ==> iters[x].next == old(iters)[x].next
    {
      ghost var ns, its := nodes, iters;
      RingStep(nodes, ring, k);
      FirstInChain(nodes, iters, ring, chains, Succ(ring, k));
      var next := nodes[list].next;
      var nextI := nodes[next].i;
      assert nextI != it;
      nodes := nodes[next := nodes[next].(i := it)];
      iters := iters[it := Iter(NodeSlot(next), nextI, next)];
      if nextI != 0 {
        iters := iters[nextI := iters[nextI].(head := IterSlot(it))];
      }
      InvPush(ns, nodes, its, iters, ring, chains, next, it);
      chains := chains[next := [it] + chains[next]];
    }

    /** __safe_list_del_iterator */
    method DelIterator(it: nat)
      requires Valid() && Live(chains, it)
      modifies this
      ensures Valid() && ring == old(ring) && |nodes| == old(|nodes|) && |iters| == old(|iters|)
      ensures LiveSet(chains) == old(LiveSet(chains)) - {it}
      ensures forall x :: 0 < x < |iters| ==> iters[x].next == old(iters)[x].next
    {
      ghost var k := IterPlace(nodes, iters, ring, chains, it);
      ghost var ns, its, n := nodes, iters, iters[it].next;
      hide ChainOK, RingOK, NoDup;
      assert iters[it].head == if k == 0 then NodeSlot(n) else IterSlot(chains[n][k - 1]);
      WriteSlot(iters[it].head, iters[it].nextI);
      assert iters[it] == its[it];
      if iters[it].nextI != 0 {
        iters := iters[iters[it].nextI := iters[iters[it].nextI].(head := iters[it].head)];
      }
      InvDrop(ns, nodes, its, iters, ring, chains, n, k);
      LiveAfterDrop(ns, its, ring, chains, n, k);
      chains := chains[n := Cut(chains[n], k)];
    }

    /** safe_list_add and safe_list_add_first: a new node before place `k`. */
    method InsertNew(prev: nat, next: nat, ghost k: nat) returns (n: nat)
      requires Valid() && 0 < k <= |ring| && prev == ring[k - 1] && next == Succ(ring, k - 1)
      modifies this
      ensures Valid() && n == old(|nodes|) && |nodes| == n + 1 && iters == old(iters)
      ensures ring == Insert(old(ring), k, n) && LiveSet(chains) == old(LiveSet(chains))
    {
      ghost var ns := nodes;
      RingStep(nodes, ring, k - 1);
      RingFacts(nodes, ring);
      assert |nodes| !in ring;
      hide Inv, RingOK, NoDup, Succ, LiveSet;
      n := |nodes|;
      nodes := nodes + [ListNode(next, prev, 0)];
      nodes := nodes[next := nodes[next].(prev := n)];
      nodes := nodes[prev := nodes[prev].(next := n)];
      LinkNew(ns, nodes, prev, next);
      hide LinkedIn;
      InvAdd(ns, nodes, iters, ring, chains, k, n);
      LiveAfterAdd(chains, n);
      ring, chains := Insert(ring, k, n), chains[n := []];
    }

    method Add() returns (n: nat)
      requires Valid()
      modifies this
      ensures Valid() && n == old(|nodes|) && |nodes| == n + 1 && iters == old(iters)
      ensures ring == old(ring) + [n] && LiveSet(chains) == old(LiveSet(chains))
    {
      RingStep(nodes, ring, 0);
      n := InsertNew(nodes[head].prev, head, |ring|);
      assert ring == old(ring) + [n];
    }

    method AddFirst() returns (n: nat)
      requires Valid()
      modifies this
      ensures Valid() && n == old(|nodes|) && |nodes| == n + 1 && iters == old(iters)
      ensures ring == [head, n] + old(ring)[1..] && LiveSet(chains) == old(LiveSet(chains))
    {
      RingStep(nodes, ring, 0);
      n := InsertNew(head, nodes[head].next, 1);
      assert ring == [head, n] + old(ring)[1..];
    }

    /** safe_list_del: the iterators of `list` move on to the next node. */
    method Del(list: nat, ghost k: nat)
      requires Valid() && 0 < k < |ring| && ring[k] == list
      modifies this
      ensures Valid() && ring == Cut(old(ring), k) && |nodes| == old(|nodes|) && |iters| == old(|iters|)
      ensures LiveSet(chains) == old(LiveSet(chains))
      ensures forall x :: x in LiveSet(chains) ==>
        x < |iters| && iters[x].next == Forward(old(iters)[x].next, list, old(Succ(ring, k)))
    {
      ghost var ns, its, n, m := nodes, iters, list, Succ(ring, k);
      DelFacts(nodes, iters, ring, chains, k);
      hide Inv, ChainOK, RingOK, NoDup, Succ, Pred, Moved, LiveSet, Cut, Forward, ChainsAfterDel, Live;
      var next := nodes[list].next;
      UnlinkNode(list);
      HandOver(list, next);
      InvDel(ns, nodes, its, iters, ring, chains, k);
      LiveAfterDel(ns, its, iters, ring, chains, n, m);
      ring, chains := Cut(ring, k), ChainsAfterDel(chains, n, m);
    }

    /** The iterators of `list`, if it has any, go to `next`. */
    method HandOver(list: nat, next: nat)
      requires list != next && 0 < list < |nodes| && 0 < next < |nodes| && list in chains && next in chains
      requires ChainOK(iters, list, nodes[list].i, chains[list]) && ChainOK(iters, next, nodes[next].i, chains[next])
      requires nodes[list].i == At(chains[list], 0)
      modifies this`nodes, this`iters
      ensures |nodes| == old(|nodes|) && nodes[next].i == if chains[list] == [] then old(nodes[next].i) else chains[list][0]
      ensures forall x :: 0 <= x < |nodes| ==> nodes[x] == old(nodes)[x].(i := nodes[x].i)
      ensures forall x :: 0 <= x < |nodes| && x != list && x != next ==> nodes[x] == old(nodes)[x]
      ensures Moved(old(iters), iters, chains[list], chains[next], next)
    {
      FirstIs(iters, list, nodes[list].i, chains[list]);
      hide ChainOK, Moved;
      if nodes[list].i != 0 {
        MoveIterators(list, next);
      } else {
        NoneMoved(iters, chains[list], chains[next], next);
      }
    }

    /** list_del */
    method UnlinkNode(n: nat)
      requires 0 < n < |nodes| && 0 < nodes[n].next < |nodes| && 0 < nodes[n].prev < |nodes|
      requires n != nodes[n].next && n != nodes[n].prev
      modifies this`nodes
      ensures Unlinked(old(nodes), nodes, n, old(nodes[n].prev), old(nodes[n].next))
      ensures forall x :: 0 < x < |nodes| ==> nodes[x].i == old(nodes)[x].i
    {
      nodes := nodes[nodes[n].next := nodes[nodes[n].next].(prev := nodes[n].prev)];
      nodes := nodes[nodes[n].prev := nodes[nodes[n].prev].(next := nodes[n].next)];
      nodes := nodes[n := nodes[n].(next := 0, prev := 0)];
    }

    /** The second half of safe_list_del, for a node some iterators wait at. */
    method MoveIterators(list: nat, next: nat)
      requires list != next && 0 < list < |nodes| && 0 < next < |nodes| && list in chains && next in chains
      requires ChainOK(iters, list, nodes[list].i, chains[list]) && ChainOK(iters, next, nodes[next].i, chains[next])
      requires nodes[list].i != 0
      modifies this`nodes, this`iters
      ensures nodes == old(nodes[next := nodes[next].(i := nodes[list].i)][list := nodes[list].(i := 0)])
      ensures Moved(old(iters), iters, chains[list], chains[next], next)
    {
      ghost var its, nodes0, c, d := iters, nodes, chains[list], chains[next];
      hide ChainOK, NoDup, Moved;
      var nextI := nodes[next].i;
      var tail := Retarget(list, next);
      ghost var its' := iters;
      MoveFacts(its, iters, list, next, nodes[list].i, nextI, c, d);
      nodes := nodes[next := nodes[next].(i := nodes[list].i)];
      iters := iters[nodes[list].i := iters[nodes[list].i].(head := NodeSlot(next))];
      WriteSlot(IterSlot(tail), nextI);
      if nextI != 0 {
        iters := iters[nextI := iters[nextI].(head := IterSlot(tail))];
      }
      nodes := nodes[list := nodes[list].(i := 0)];
      MoveDone(its, its', iters, list, next, nodes0[list].i, nextI, c, d);
    }

    /** The loop of safe_list_del: every waiting iterator now names `next`; `tail` is
        the last of them. */
    method Retarget(list: nat, next: nat) returns (tail: nat)
      requires list != next && 0 < list < |nodes| && list in chains
      requires ChainOK(iters, list, nodes[list].i, chains[list]) && nodes[list].i != 0
      modifies this`iters
      ensures |iters| == |old(iters)| && chains[list] != [] && tail == chains[list][|chains[list]| - 1]
      ensures Renamed(old(iters), iters, chains[list], next)
    {
      ghost var c, j := chains[list], 0;
      hide ChainOK, NoDup;
      ChainMembers(iters, list, nodes[list].i, c);
      tail := 0;
      var i := nodes[list].i;
      while i != 0
        invariant 0 <= j <= |c| && i == At(c, j) && |iters| == |old(iters)|
        invariant j > 0 ==> tail == c[j - 1]
        invariant forall h :: 0 <= h < j ==> iters[c[h]] == old(iters)[c[h]].(next := next)
        invariant forall h :: j <= h < |c| ==> iters[c[h]] == old(iters)[c[h]]
        invariant forall x :: 0 < x < |iters| && x !in c ==> iters[x] == old(iters)[x]
        decreases |c| - j
      {
        DistinctFrom(c, j);
        ChainNext(old(iters), list, nodes[list].i, c, j);
        tail := i;
        iters := iters[i := iters[i].(next := next)];
        i := iters[i].nextI;
        j := j + 1;
      }
    }

    /** Whether `n` can be deleted now: deleted nodes have lost their links. */
    method OnList(n: nat) returns (b: bool, ghost k: nat)
      requires Valid()
      ensures b ==> 0 < k < |ring| && ring[k] == n
      ensures !b ==> forall j :: 0 < j < |ring| ==> ring[j] != n
    {
      k := 0;
      b := 0 < n < |nodes| && n != head && nodes[n].next != 0;
      RingFacts(nodes, ring);
      if b {
        assert n in ring;
        k :| 0 <= k < |ring| && ring[k] == n;
      } else {
        forall j | 0 < j < |ring| ensures ring[j] != n {
          RingStep(nodes, ring, j);
          assert ring[0] != ring[j];
        }
      }
    }

    /** The body of a callback; `q` are live iterators of interest. */
    method RunActions(acts: seq<Action>, ghost q: seq<nat>)
      requires Valid() && Tracked(q)
      modifies this
      ensures Valid() && LiveSet(chains) == old(LiveSet(chains))
      ensures old(ViewOf(q)).OK() && ViewOf(q) == Acts(old(ViewOf(q)), acts)
      ensures Evolves(old(Snapshot()), Snapshot(), LiveSet(chains))
      decreases acts, 0
    {
      ghost var s0, w, v0 := Snapshot(), LiveSet(chains), ViewOf(q);
      ValidSound(nodes, iters, ring, chains);
      ViewOK(s0, w, q);
      EvolvesRefl(s0, w);
      hide Inv, Evolves, LiveSet, View.OK, Deleted, Added, Targets;
      for i := 0 to |acts|
        invariant Valid() && LiveSet(chains) == w
        invariant Evolves(s0, Snapshot(), w)
        invariant ViewOf(q) == Acts(v0, acts[..i])
      {
        ghost var s1 := Snapshot();
        assert acts[..i + 1][..i] == acts[..i];
        match acts[i] {
          case DelNode(n) => DelIfOn(n, q);
          case AddTail => AddOne(true, q);
          case AddHead => AddOne(false, q);
          case Loop(visits) =>
            var _, _ := ForEach(visits, q);
        }
        EvolvesTrans(s0, s1, Snapshot(), w, w);
      }
      assert acts[..|acts|] == acts;
    }

    method DelIfOn(n: nat, ghost q: seq<nat>)
      requires Valid() && Tracked(q)
      modifies this
      ensures Valid() && LiveSet(chains) == old(LiveSet(chains))
      ensures old(ViewOf(q)).OK() && ViewOf(q) == Deleted(old(ViewOf(q)), n)
      ensures Evolves(old(Snapshot()), Snapshot(), LiveSet(chains))
    {
      ValidSound(nodes, iters, ring, chains);
      ViewOK(Snapshot(), LiveSet(chains), q);
      hide Inv, LiveSet, Evolves;
      var b, k := OnList(n);
      if b {
        ghost var v, s := ViewOf(q), Snapshot();
        assert IndexOf(ring, n) == k;
        Del(n, k);
        EvolvesDel(s, Snapshot(), k, LiveSet(chains));
        assert ViewOf(q).at == ForwardAll(v.at, n, Succ(v.r, k));
      } else {
        EvolvesRefl(Snapshot(), LiveSet(chains));
      }
    }

    method AddOne(tail: bool, ghost q: seq<nat>)
      requires Valid() && Tracked(q)
      modifies this
      ensures Valid() && LiveSet(chains) == old(LiveSet(chains))
      ensures old(ViewOf(q)).OK() && ViewOf(q) == Added(old(ViewOf(q)), tail)
      ensures Evolves(old(Snapshot()), Snapshot(), LiveSet(chains))
    {
      ValidSound(nodes, iters, ring, chains);
      ViewOK(Snapshot(), LiveSet(chains), q);
      ghost var s := Snapshot();
      hide Inv, LiveSet, Evolves;
      if tail {
        var n := Add();
        assert ring == Insert(s.r, |s.r|, n);
        EvolvesAdd(s, Snapshot(), |s.r|, LiveSet(chains));
      } else {
        var n := AddFirst();
        assert ring == Insert(s.r, 1, n);
        EvolvesAdd(s, Snapshot(), 1, LiveSet(chains));
      }
    }

    /** safe_list_for_each, with the calls of its callback given by `visits`. `trace` lists
        the nodes visited; `q` are live iterators of interest. */
    method ForEach(visits: seq<Visit>, ghost q: seq<nat>) returns (ret: int, ghost trace: seq<nat>)
      requires Valid() && Tracked(q)
      modifies this
      ensures Valid() && LiveSet(chains) == old(LiveSet(chains))
      ensures old(ViewOf(q)).OK() && Looped(old(ViewOf(q)), visits) == Run(ViewOf(q), trace, ret)
      ensures Evolves(old(Snapshot()), Snapshot(), LiveSet(chains))
      ensures NoDup(trace) && InOrder(old(ring), trace)
      ensures forall x :: x in trace ==> x != head && (x in old(ring) || old(|nodes|) <= x < |nodes|)
      ensures forall i :: 0 <= i < |trace| - 1 ==> VisitAt(visits, i).ret == 0
      ensures ret == if trace == [] then 0 else VisitAt(visits, |trace| - 1).ret
      ensures ret == 0 ==> forall x :: x in old(ring) && x in ring && x != head ==> x in trace
      decreases visits, 2
    {
      ghost var s0, w, v0 := Snapshot(), LiveSet(chains), ViewOf(q);
      ValidSound(nodes, iters, ring, chains);
      ViewOK(s0, w, q);
      hide Inv, Evolves, Place, NoDup, InOrder, LiveSet, View.OK, Targets, Ongoing, Looped, After, Touring, Ready;
      var it, cur := StartLoop(q);
      Begun(v0, visits, cur);
      ghost var pos;
      ret, trace, pos := Visits(visits, it, cur, s0, w, q, Looped(v0, visits));
      Finished(s0, w, it, pos, trace);
      EndLoop(s0, w, it, pos, trace, q);
      TraceListed(v0, visits);
    }

    /** Its for loop; `pos` is where it stops. */
    method Visits(visits: seq<Visit>, it: nat, first: nat, ghost s0: Snap, ghost w: set<nat>, ghost q: seq<nat>,
                  ghost run: Run)
        returns (ret: int, ghost trace: seq<nat>, ghost pos: nat)
      requires Touring(s0, w, it, first, []) && Ready(it, first) && first in ring
      requires Ongoing(run, ViewOf(q + [it]), visits, 0, first, []) && forall i :: 0 <= i < |q| ==> q[i] in w
      modifies this
      ensures Touring(s0, w, it, pos, trace) && run == Run(ViewOf(q + [it]).Pop(), trace, ret)
      ensures forall i :: 0 <= i < |trace| - 1 ==> VisitAt(visits, i).ret == 0
      ensures ret == if trace == [] then 0 else VisitAt(visits, |trace| - 1).ret
      ensures ret == 0 ==> pos == head
      decreases visits, 1
    {
      hide Place, View.OK, Targets, Ongoing, MovedOn, After, Touring, Ready;
      var cur := first;
      trace, ret, pos := [], 0, cur;
      var n := 0;
      while cur != head
        invariant pos == cur && cur in ring && Touring(s0, w, it, cur, trace) && Ready(it, cur)
        invariant n == |trace| && ret == 0
        invariant Ongoing(run, ViewOf(q + [it]), visits, n, cur, trace)
        invariant forall i :: 0 <= i < |trace| ==> VisitAt(visits, i).ret == 0
        decreases if n < |visits| then |visits| - n else 0, |ring| - Place(ring, cur)
      {
        Bounds(s0, w, it, cur, trace);
        ret := CallBack(visits, n, it, cur, s0, w, trace, q, run);
        trace := trace + [cur];
        pos := iters[it].next;
        n := n + 1;
        if ret != 0 {
          return;
        }
        cur := Advance(s0, w, it, trace, q);
      }
      Finished(s0, w, it, pos, trace);
      Ended(run, ViewOf(q + [it]), visits, n, cur, trace);
    }

    /** The call of the callback on `cur`. */
    method CallBack(visits: seq<Visit>, n: nat, it: nat, cur: nat, ghost s0: Snap, ghost w: set<nat>,
                    ghost trace: seq<nat>, ghost q: seq<nat>, ghost run: Run)
        returns (ret: int)
      requires Touring(s0, w, it, cur, trace) && Ready(it, cur) && cur != head
      requires Ongoing(run, ViewOf(q + [it]), visits, n, cur, trace) && forall i :: 0 <= i < |q| ==> q[i] in w
      modifies this
      ensures it < |iters| && Touring(s0, w, it, iters[it].next, trace + [cur]) && ret == VisitAt(visits, n).ret
      ensures n >= |visits| ==> ring == old(ring) && iters[it] == old(iters[it])
      ensures ViewOf(q + [it]).OK()
      ensures ret != 0 ==> run == Run(ViewOf(q + [it]).Pop(), trace + [cur], ret)
      ensures ret == 0 ==>
                Ongoing(run, MovedOn(ViewOf(q + [it])), visits, n + 1, iters[it].next, trace + [cur])
      decreases visits, 0
    {
      hide Inv, Evolves, Tour, Place, NoDup, LiveSet, View.OK, Targets, Ongoing, MovedOn, After;
      ghost var s, v := Snapshot(), ViewOf(q + [it]);
      ValidSound(nodes, iters, ring, chains);
      EvolvesRefl(s, LiveSet(chains));
      ret := 0;
      if n < |visits| {
        RunActions(visits[n].actions, q + [it]);
        ret := visits[n].ret;
      }
      ValidSound(nodes, iters, ring, chains);
      Visited(s0, s, w, it, cur, trace);
      Popped(iters, q, it);
      Turned(run, v, ViewOf(q + [it]), visits, n, cur, trace);
    }

    /** A fresh iterator on the stack, set up for the first node. */
    method StartLoop(ghost q: seq<nat>) returns (it: nat, cur: nat)
      requires Valid() && Tracked(q)
      modifies this
      ensures Touring(old(Snapshot()), old(LiveSet(chains)), it, cur, []) && Ready(it, cur) && cur in ring
      ensures cur == After(ring, ring[0]) && ViewOf(q + [it]) == old(ViewOf(q)).Push(After(ring, cur))
    {
      ghost var s0, w := Snapshot(), LiveSet(chains);
      ValidSound(nodes, iters, ring, chains);
      hide Targets, After, Inv;
      AtHead();
      it := NewIterator();
      hide Evolves, Tour, NoDup, LiveSet, Place, Sound, Succ, Tracked;
      ghost var its := iters;
      cur := nodes[head].next;
      Enter(cur, it, q);
      Started(s0, its, Snapshot(), w, it, cur, q);
    }

    /** The iterator `it` starts to wait, at the node after `list`. */
    method Enter(list: nat, it: nat, ghost q: seq<nat>)
      requires Valid() && list in ring && 0 < it < |iters| && it !in LiveSet(chains) && Tracked(q)
      modifies this
      ensures Valid() && ring == old(ring) && |nodes| == old(|nodes|) && |iters| == old(|iters|)
      ensures LiveSet(chains) == old(LiveSet(chains)) + {it} && Ready(it, list)
      ensures forall x :: 0 < x < |iters| && x != it ==> iters[x].next == old(iters)[x].next
      ensures ViewOf(q + [it]) == old(ViewOf(q)).Push(After(ring, list))
    {
      ghost var its, w := iters, LiveSet(chains);
      ValidSound(nodes, iters, ring, chains);
      LiveSetIs(chains);
      hide Targets, After;
      ghost var k := AtPlace(ring, list);
      LiveAfterPush(nodes, ring, chains, it, k);
      SetIterator(list, it, k);
      hide Inv;
      SuccPlace(ring, k);
      AfterAt(ring, k);
      Pushed(its, iters, q, it);
    }

    lemma AtHead()
      requires Valid()
      ensures 0 < head < |nodes| && ring != [] && ring[0] == head
      ensures nodes[head].next == Succ(ring, 0) && Succ(ring, 0) in ring
    {
      RingStep(nodes, ring, 0);
    }

    method NewIterator() returns (it: nat)
      requires Valid()
      modifies this`iters
      ensures Valid() && 0 < it == old(|iters|) && it !in LiveSet(chains)
      ensures iters == old(iters) + [Iter(NodeSlot(0), 0, 0)]
    {
      ghost var its := iters;
      it := |iters|;
      iters := iters + [Iter(NodeSlot(0), 0, 0)];
      hide RingOK, ChainOK;
      ItersGrow(nodes, its, iters, ring, chains);
      LiveSetIs(chains);
    }

    /** The step of the for loop: on to the node the iterator names. */
    method Advance(ghost s0: Snap, ghost w: set<nat>, it: nat, ghost trace: seq<nat>, ghost q: seq<nat>)
        returns (cur: nat)
      requires it < |iters| && Touring(s0, w, it, iters[it].next, trace) && forall i :: 0 <= i < |q| ==> q[i] in w
      modifies this
      ensures old(ViewOf(q + [it])).OK() && ViewOf(q + [it]) == MovedOn(old(ViewOf(q + [it])))
      ensures cur == old(iters[it].next) && Touring(s0, w, it, cur, trace) && Ready(it, cur)
      ensures ring == old(ring) && cur in ring
    {
      hide Inv, Evolves, Tour, LiveSet, Targets, After, NoDup;
      cur := iters[it].next;
      ghost var s, v := Snapshot(), ViewOf(q + [it]);
      ValidSound(nodes, iters, ring, chains);
      ViewOK(s, LiveSet(chains), q + [it]);
      LiveSetIs(chains);
      ghost var k := AtPlace(ring, cur);
      MoveIterator(cur, it, k);
      EvolvesRetarget(s, Snapshot(), w);
      EvolvesTrans(s0, s, Snapshot(), w, w);
      TourSame(s0.r, s, Snapshot(), cur, trace);
      SuccPlace(ring, k);
      AfterAt(ring, k);
      Pushed(s.its, iters, q, it);
      Popped(s.its, q, it);
    }

    /** The loop's iterator leaves its chain. */
    method EndLoop(ghost s0: Snap, ghost w: set<nat>, it: nat, ghost pos: nat, ghost trace: seq<nat>, ghost q: seq<nat>)
      requires Touring(s0, w, it, pos, trace) && forall i :: 0 <= i < |q| ==> q[i] in w
      modifies this
      ensures ViewOf(q) == old(ViewOf(q + [it])).Pop()
      ensures Valid() && LiveSet(chains) == w && ring == old(ring) && |nodes| == old(|nodes|)
      ensures Evolves(s0, Snapshot(), w)
    {
      hide Inv, Evolves, Tour, LiveSet;
      ghost var s := Snapshot();
      ValidSound(nodes, iters, ring, chains);
      LiveSetIs(chains);
      DelIterator(it);
      Popped(s.its, q, it);
      SameTargets(s.its, iters, q);
      EvolvesRetarget(s, Snapshot(), w);
      EvolvesTrans(s0, s, Snapshot(), w, w);
    }

    /** After the callback has run on `cur`. */
    lemma Visited(s0: Snap, s: Snap, w: set<nat>, it: nat, cur: nat, trace: seq<nat>)
      requires Valid() && LiveSet(chains) == w + {it} && it !in w && 0 < it < |iters| && s0.r != [] && s0.r[0] == head
      requires Evolves(s0, s, w) && Tour(s0.r, s, cur, trace) && cur != head
      requires Evolves(s, Snapshot(), w + {it})
      requires Place(s.r, s.its[it].next) == Place(s.r, cur) + 1
      ensures Touring(s0, w, it, iters[it].next, trace + [cur])
    {
      EvolvesTrans(s0, s, Snapshot(), w, w + {it});
      EvolvesLess(s0, s, w, {});
      TourStep(s0.r, s0, s, Snapshot(), w + {it}, it, cur, trace);
    }

    lemma Bounds(s0: Snap, w: set<nat>, it: nat, cur: nat, trace: seq<nat>)
      requires Touring(s0, w, it, cur, trace) && Ready(it, cur)
      ensures it < |iters| && cur in ring && iters[it].next in ring && Place(ring, cur) <= |ring|
      ensures cur != head ==> Place(ring, iters[it].next) == Place(ring, cur) + 1 <= |ring|
    {
      TourBounds(s0.r, Snapshot(), cur, trace);
      PlaceBound(ring, iters[it].next);
    }

    /** What the loop has done when it stops at `pos`. */
    lemma Finished(s0: Snap, w: set<nat>, it: nat, pos: nat, trace: seq<nat>)
      requires Touring(s0, w, it, pos, trace)
      ensures ring != [] && ring[0] == head && NoDup(trace) && InOrder(s0.r, trace)
      ensures forall x :: x in trace ==> x < |nodes|
      ensures pos == head ==> forall x :: x in s0.r && x in ring && x != head ==> x in trace
    {
      TourEnd(s0, Snapshot(), w, pos, trace);
    }

    /** The state between two visits: the loop is about to look at `cur`. */
    ghost predicate Touring(s0: Snap, w: set<nat>, it: nat, cur: nat, trace: seq<nat>)
      reads this
    {
      && Valid() && LiveSet(chains) == w + {it} && it !in w && 0 < it < |iters| && s0.r != [] && s0.r[0] == head
      && Evolves(s0, Snapshot(), w) && Tour(s0.r, Snapshot(), cur, trace)
    }

    /** The iterator waits right after `cur`. */
    ghost predicate Ready(it: nat, cur: nat)
      reads this
    {
      && it < |iters| && cur in ring && iters[it].next in ring
      && (cur != head ==> Place(ring, iters[it].next) == Place(ring, cur) + 1)
    }

    /** __safe_list_move_iterator */
    method MoveIterator(list: nat, it: nat, ghost k: nat)
      requires Valid() && Live(chains, it) && k < |ring| && ring[k] == list
      modifies this
      ensures Valid() && ring == old(ring) && |nodes| == old(|nodes|) && |iters| == old(|iters|)
      ensures LiveSet(chains) == old(LiveSet(chains)) && it < |iters| && iters[it].next == Succ(ring, k)
      ensures forall x :: 0 < x < |iters| && x != it ==> iters[x].next == old(iters)[x].next
    {
      LiveInOneChain(nodes, iters, ring, chains, it);
      DelIterator(it);
      assert it !in LiveSet(chains);
      LiveAfterPush(nodes, ring, chains, it, k);
      SetIterator(list, it, k);
    }
  }

  /** Where the iterators `q` wait. */
  ghost function Targets(its: seq<Iter>, q: seq<nat>): (at: seq<nat>)
    ensures |at| == |q|
  {
    seq(|q|, i requires 0 <= i < |q| => if q[i] < |its| then its[q[i]].next else 0)
  }

  lemma ViewOK(s: Snap, w: set<nat>, q: seq<nat>)
    requires Sound(s, w) && forall i :: 0 <= i < |q| ==> q[i] in w
    ensures View(s.r, s.size, Targets(s.its, q)).OK()
  {
    var at := Targets(s.its, q);
    assert forall i :: 0 <= i < |q| ==> at[i] == s.its[q[i]].next;
  }

  lemma SameTargets(its: seq<Iter>, its': seq<Iter>, q: seq<nat>)
    requires forall i :: 0 <= i < |q| ==> q[i] < |its| && q[i] < |its'| && its'[q[i]].next == its[q[i]].next
    ensures Targets(its', q) == Targets(its, q)
  {
  }

  lemma Pushed(its: seq<Iter>, its': seq<Iter>, q: seq<nat>, it: nat)
    requires forall i :: 0 <= i < |q| ==> q[i] < |its| && q[i] < |its'| && its'[q[i]].next == its[q[i]].next
    requires it < |its'|
    ensures Targets(its', q + [it]) == Targets(its, q) + [its'[it].next]
  {
  }

  lemma Popped(its: seq<Iter>, q: seq<nat>, it: nat)
    requires it < |its|
    ensures Targets(its, q + [it]) == Targets(its, q) + [its[it].next]
  {
  }

  lemma AfterAt(r: seq<nat>, k: nat)
    requires NoDup(r) && k < |r|
    ensures After(r, r[k]) == Succ(r, k)
  {
    assert IndexOf(r, r[k]) == k;
  }

  /** A loop that has visited `trace` and is about to look at `cur` ends as `run`. */
  ghost predicate Ongoing(run: Run, v: View, visits: seq<Visit>, n: nat, cur: nat, trace: seq<nat>) {
    && v.OK() && v.at != [] && cur in v.r && (cur != v.r[0] ==> v.Top() == After(v.r, cur))
    && var rest := LoopFrom(v, visits, n, cur);
       run == rest.(trace := trace + rest.trace)
  }

  lemma Begun(v: View, visits: seq<Visit>, cur: nat)
    requires v.OK() && cur == After(v.r, v.r[0])
    ensures Ongoing(Looped(v, visits), v.Push(After(v.r, cur)), visits, 0, cur, [])
  {
    hide LoopFrom, After;
  }

  lemma Ended(run: Run, v: View, visits: seq<Visit>, n: nat, cur: nat, trace: seq<nat>)
    requires Ongoing(run, v, visits, n, cur, trace) && cur == v.r[0]
    ensures v.at != [] && run == Run(v.Pop(), trace, 0)
  {
  }

  lemma Turned(run: Run, v: View, v': View, visits: seq<Visit>, n: nat, cur: nat, trace: seq<nat>)
    requires Ongoing(run, v, visits, n, cur, trace) && cur != v.r[0] && v' == Acts(v, VisitAt(visits, n).actions)
    ensures v'.OK() && v'.at != []
    ensures VisitAt(visits, n).ret != 0 ==> run == Run(v'.Pop(), trace + [cur], VisitAt(visits, n).ret)
    ensures VisitAt(visits, n).ret == 0 ==> Ongoing(run, MovedOn(v'), visits, n + 1, v'.Top(), trace + [cur])
  {
    hide LoopFrom, Acts, After, View.OK;
    OneTurn(v, visits, n, cur);
    var rest := LoopFrom(MovedOn(v'), visits, n + 1, v'.Top());
    assert trace + ([cur] + rest.trace) == (trace + [cur]) + rest.trace;
  }

  lemma TraceListed(v: View, visits: seq<Visit>)
    requires v.OK()
    ensures forall x :: x in Looped(v, visits).trace ==> x != v.r[0] && (x in v.r || v.size <= x)
  {
    var first := After(v.r, v.r[0]);
    var s := v.Push(After(v.r, first));
    hide LoopFrom, After;
    forall i | 0 <= i < |Looped(v, visits).trace|
      ensures Looped(v, visits).trace[i] != v.r[0]
      ensures Looped(v, visits).trace[i] in v.r || v.size <= Looped(v, visits).trace[i]
    {
      OnlyListed(s, visits, 0, first, i);
    }
  }

  lemma FirstIs(its: seq<Iter>, n: nat, first: nat, c: seq<nat>)
    requires ChainOK(its, n, first, c)
    ensures first == 0 <==> c == []
  {
  }

  ghost predicate Renamed(its: seq<Iter>, its': seq<Iter>, c: seq<nat>, m: nat) {
    && |its'| == |its|
    && (forall j :: 0 <= j < |c| ==> c[j] < |its| && its'[c[j]] == its[c[j]].(next := m))
    && forall x :: 0 < x < |its| && x !in c ==> its'[x] == its[x]
  }

  lemma DistinctFrom(c: seq<nat>, j: nat)
    requires NoDup(c) && j < |c|
    ensures c[j] in c && forall h :: 0 <= h < |c| && h != j ==> c[h] != c[j]
  {
  }

  lemma ChainNext(its: seq<Iter>, n: nat, first: nat, c: seq<nat>, j: nat)
    requires ChainOK(its, n, first, c) && j < |c|
    ensures 0 < c[j] < |its| && its[c[j]].nextI == At(c, j + 1)
  {
    assert ChainAt(its, n, c, j);
  }

  lemma ChainCellAt(its: seq<Iter>, n: nat, first: nat, c: seq<nat>, j: nat)
    requires ChainOK(its, n, first, c) && j < |c|
    ensures 0 < c[j] < |its| && its[c[j]] == ChainCell(n, c, j)
  {
    assert ChainAt(its, n, c, j);
  }

  lemma MoveFacts(its: seq<Iter>, its': seq<Iter>, n: nat, m: nat, a: nat, b: nat, c: seq<nat>, d: seq<nat>)
    requires ChainOK(its, n, a, c) && ChainOK(its, m, b, d) && n != m && c != [] && |its'| == |its|
    ensures a == c[0] && 0 < c[0] < |its| && 0 < c[|c| - 1] < |its| && c[0] in c && c[|c| - 1] in c
    ensures b == At(d, 0) && b < |its| && b !in c && (b != 0 ==> d != [])
  {
    hide ChainOK;
    ChainMembers(its, n, a, c);
    ChainMembers(its, m, b, d);
  }

  /** The writes after the loop turn the renamed chain into the merged one. */
  lemma MoveDone(its: seq<Iter>, its': seq<Iter>, its'': seq<Iter>, n: nat, m: nat, a: nat, b: nat, c: seq<nat>, d: seq<nat>)
    requires ChainOK(its, n, a, c) && ChainOK(its, m, b, d) && n != m && c != [] && Renamed(its, its', c, m)
    requires var (first, last) := (c[0], c[|c| - 1]);
      && first < |its| && last < |its| && b < |its|
      && var i1 := its'[first := its'[first].(head := NodeSlot(m))];
         var i2 := i1[last := i1[last].(nextI := b)];
         its'' == if b != 0 then i2[b := i2[b].(head := IterSlot(last))] else i2
    ensures Moved(its, its'', c, d, m)
  {
    hide ChainOK, Renamed, Moved;
    RenamedSize(its, its', c, m);
    MoveFacts(its, its', n, m, a, b, c, d);
    SplicedBy(its', its'', c[0], c[|c| - 1], b, m);
    hide Spliced;
    forall j | 0 <= j < |c| ensures c[j] < |its| && its''[c[j]] == MergedCell(m, c, At(d, 0), j) {
      MoveDoneAt(its, its', its'', n, m, a, b, c, d, j);
    }
    MoveDoneRest(its, its', its'', n, m, a, b, c, d);
    MkMoved(its, its'', c, d, m);
  }

  lemma MkMoved(its: seq<Iter>, its': seq<Iter>, c: seq<nat>, d: seq<nat>, m: nat)
    requires |its'| == |its|
    requires forall j :: 0 <= j < |c| ==> c[j] < |its| && its'[c[j]] == MergedCell(m, c, At(d, 0), j)
    requires |c| > 0 && |d| > 0 ==> d[0] < |its| && its'[d[0]] == its[d[0]].(head := IterSlot(c[|c| - 1]))
    requires forall x :: 0 < x < |its| && x !in c && (|c| > 0 && |d| > 0 ==> x != d[0]) ==> its'[x] == its[x]
    ensures Moved(its, its', c, d, m)
  {
  }

  /** The same writes, iterator by iterator. */
  ghost predicate Spliced(its': seq<Iter>, its'': seq<Iter>, first: nat, last: nat, b: nat, m: nat) {
    |its''| == |its'| && forall x :: 0 < x < |its'| ==>
      its''[x] == Iter(
        if b != 0 && x == b then IterSlot(last) else if x == first then NodeSlot(m) else its'[x].head,
        if x == last then b else its'[x].nextI,
        its'[x].next)
  }

  lemma LinkNew(ns: seq<ListNode>, ns': seq<ListNode>, p: nat, q: nat)
    requires 0 < p < |ns| && 0 < q < |ns|
    requires var n := |ns|;
      var n1 := ns + [ListNode(q, p, 0)];
      var n2 := n1[q := n1[q].(prev := n)];
      ns' == n2[p := n2[p].(next := n)]
    ensures LinkedIn(ns, ns', |ns|, p, q) && ns'[|ns|].i == 0
    ensures forall x :: 0 < x < |ns| ==> ns'[x].i == ns[x].i
  {
  }

  lemma SplicedBy(its': seq<Iter>, its'': seq<Iter>, first: nat, last: nat, b: nat, m: nat)
    requires first < |its'| && last < |its'| && b < |its'| && (b != 0 ==> b != first && b != last)
    requires var i1 := its'[first := its'[first].(head := NodeSlot(m))];
      var i2 := i1[last := i1[last].(nextI := b)];
      its'' == if b != 0 then i2[b := i2[b].(head := IterSlot(last))] else i2
    ensures Spliced(its', its'', first, last, b, m)
  {
  }

  lemma RenamedSize(its: seq<Iter>, its': seq<Iter>, c: seq<nat>, m: nat)
    requires Renamed(its, its', c, m)
    ensures |its'| == |its|
  {
  }

  lemma MoveDoneAt(its: seq<Iter>, its': seq<Iter>, its'': seq<Iter>, n: nat, m: nat, a: nat, b: nat, c: seq<nat>, d: seq<nat>, j: nat)
    requires ChainOK(its, n, a, c) && j < |c| && Renamed(its, its', c, m)
    requires Spliced(its', its'', c[0], c[|c| - 1], b, m) && b !in c && b == At(d, 0)
    ensures c[j] < |its| && its''[c[j]] == MergedCell(m, c, At(d, 0), j)
  {
    ChainCellAt(its, n, a, c, j);
    assert NoDup(c) && c[j] in c;
    DistinctFrom(c, j);
    hide ChainOK, NoDup;
  }

  lemma MoveDoneRest(its: seq<Iter>, its': seq<Iter>, its'': seq<Iter>, n: nat, m: nat, a: nat, b: nat, c: seq<nat>, d: seq<nat>)
    requires ChainOK(its, n, a, c) && ChainOK(its, m, b, d) && n != m && c != [] && Renamed(its, its', c, m)
    requires b == At(d, 0) && b !in c && Spliced(its', its'', c[0], c[|c| - 1], b, m)
    ensures |its''| == |its|
    ensures |d| > 0 ==> d[0] < |its| && its''[d[0]] == its[d[0]].(head := IterSlot(c[|c| - 1]))
    ensures forall x :: 0 < x < |its| && x !in c && (|d| > 0 ==> x != d[0]) ==> its''[x] == its[x]
  {
    hide ChainOK;
    ChainMembers(its, m, b, d);
    assert c[0] in c && c[|c| - 1] in c;
  }

  lemma RingStep(ns: seq<ListNode>, ring: seq<nat>, k: nat)
    requires RingOK(ns, ring) && k < |ring|
    ensures 0 < ring[k] < |ns| && ns[ring[k]].next == Succ(ring, k) && ns[ring[k]].prev == Pred(ring, k)
    ensures Succ(ring, k) in ring && 0 < Succ(ring, k) < |ns| && Pred(ring, k) in ring && 0 < Pred(ring, k) < |ns|
  {
    assert RingAt(ns, ring, k);
    var q := if k + 1 < |ring| then k + 1 else 0;
    var p := if k > 0 then k - 1 else |ring| - 1;
    assert ring[q] == Succ(ring, k) && RingAt(ns, ring, q);
    assert ring[p] == Pred(ring, k) && RingAt(ns, ring, p);
  }

  lemma FirstInChain(ns: seq<ListNode>, its: seq<Iter>, ring: seq<nat>, ch: Chains, n: nat)
    requires Inv(ns, its, ring, ch) && n in ring && n < |ns|
    ensures n in ch && ns[n].i == At(ch[n], 0) && ChainOK(its, n, ns[n].i, ch[n])
    ensures ns[n].i != 0 ==> ns[n].i < |its| && Live(ch, ns[n].i)
  {
    ChainMembers(its, n, ns[n].i, ch[n]);
  }

  lemma IterPlace(ns: seq<ListNode>, its: seq<Iter>, ring: seq<nat>, ch: Chains, it: nat) returns (k: nat)
    requires Inv(ns, its, ring, ch) && Live(ch, it)
    ensures 0 < it < |its| && its[it].next in ch && 0 < its[it].next < |ns|
    ensures var c := ch[its[it].next];
      && k < |c| && c[k] == it && its[it] == ChainCell(its[it].next, c, k) && NoDup(c)
      && (k > 0 ==> 0 < c[k - 1] < |its| && c[k - 1] != it) && (k + 1 < |c| ==> 0 < c[k + 1] < |its| && c[k + 1] != it)
      && (0 < k < |c| - 1 ==> c[k - 1] != c[k + 1])
      && its[it].nextI == At(c, k + 1)
  {
    LiveInOneChain(ns, its, ring, ch, it);
    RingFacts(ns, ring);
    var n := its[it].next;
    var c := ch[n];
    k :| 0 <= k < |c| && c[k] == it;
    assert ChainAt(its, n, c, k);
  }

  lemma LiveAfterDrop(ns: seq<ListNode>, its: seq<Iter>, ring: seq<nat>, ch: Chains, n: nat, k: nat)
    requires Inv(ns, its, ring, ch) && n in ch && k < |ch[n]|
    ensures LiveSet(ch[n := Cut(ch[n], k)]) == LiveSet(ch) - {ch[n][k]}
  {
    var it := ch[n][k];
    var ch' := ch[n := Cut(ch[n], k)];
    assert it in ch[n] && Live(ch, it);
    LiveInOneChain(ns, its, ring, ch, it);
    assert ChainOK(its, n, ns[n].i, ch[n]) by { RingFacts(ns, ring); }
    ChainMembers(its, n, ns[n].i, ch[n]);
    CutMembers(ch[n], k);
    hide ChainOK, RingOK, NoDup, Cut;
    forall x ensures x in LiveSet(ch') <==> x in LiveSet(ch) && x != it {
      if x in LiveSet(ch') {
        var m :| m in ch' && x in ch'[m];
        assert m in ch && x in ch[m];
      }
      if x in LiveSet(ch) && x != it {
        var m :| m in ch && x in ch[m];
        assert m in ch' && x in ch'[m];
      }
    }
  }

  lemma LiveAfterAdd(ch: Chains, n: nat)
    requires n !in ch
    ensures LiveSet(ch[n := []]) == LiveSet(ch)
  {
    var ch' := ch[n := []];
    forall x | x in LiveSet(ch) ensures x in LiveSet(ch') {
      var m :| m in ch && x in ch[m];
      assert m in ch' && x in ch'[m];
    }
  }

  lemma DelFacts(ns: seq<ListNode>, its: seq<Iter>, ring: seq<nat>, ch: Chains, k: nat)
    requires Inv(ns, its, ring, ch) && 0 < k < |ring|
    ensures var (n, m, p) := (ring[k], Succ(ring, k), Pred(ring, k));
      && 0 < n < |ns| && 0 < m < |ns| && 0 < p < |ns| && n != m && n != p && n in ch && m in ch
      && ns[n].next == m && ns[n].prev == p
      && ChainOK(its, n, ns[n].i, ch[n]) && ChainOK(its, m, ns[m].i, ch[m])
      && ns[n].i == At(ch[n], 0)
  {
    RingFacts(ns, ring);
    RingStep(ns, ring, k);
    SuccDiffers(ring, k);
    FirstInChain(ns, its, ring, ch, ring[k]);
    FirstInChain(ns, its, ring, ch, Succ(ring, k));
  }

  lemma NoneMoved(its: seq<Iter>, c: seq<nat>, d: seq<nat>, m: nat)
    requires c == []
    ensures Moved(its, its, c, d, m)
  {
  }

  /** The live iterators stay; those of the removed node name its successor. */
  lemma LiveAfterDel(ns: seq<ListNode>, its: seq<Iter>, its': seq<Iter>, ring: seq<nat>, ch: Chains, n: nat, m: nat)
    requires Inv(ns, its, ring, ch) && n in ch && m in ch && n != m && Moved(its, its', ch[n], ch[m], m)
    ensures LiveSet(ChainsAfterDel(ch, n, m)) == LiveSet(ch)
    ensures forall x :: x in LiveSet(ch) ==> 0 < x < |its| == |its'|
    ensures forall x :: x in LiveSet(ch) ==> its'[x].next == Forward(its[x].next, n, m)
  {
    var ch' := ChainsAfterDel(ch, n, m);
    hide ChainOK, RingOK, Moved;
    forall x | x in LiveSet(ch)
      ensures x in LiveSet(ch') && 0 < x < |its| == |its'| && its'[x].next == Forward(its[x].next, n, m)
    {
      LiveInOneChain(ns, its, ring, ch, x);
      var t := its[x].next;
      assert x in ch[t];
      assert Forward(t, n, m) in ch' && x in ch'[Forward(t, n, m)];
      RingFacts(ns, ring);
      MovedName(its, its', ch[n], ch[m], n, m, ns[n].i, ns[m].i, x);
    }
    forall x | x in LiveSet(ch') ensures x in LiveSet(ch) {
      var t :| t in ch' && x in ch'[t];
      assert t == m ==> x in ch[n] || x in ch[m];
    }
  }

  lemma MovedName(its: seq<Iter>, its': seq<Iter>, c: seq<nat>, d: seq<nat>, n: nat, m: nat, a: nat, b: nat, x: nat)
    requires ChainOK(its, n, a, c) && ChainOK(its, m, b, d) && n != m && Moved(its, its', c, d, m)
    requires 0 < x < |its| && (its[x].next == n ==> x in c) && (its[x].next == m ==> x in d)
    ensures |its'| == |its| && its'[x].next == Forward(its[x].next, n, m)
  {
    hide ChainOK;
    ChainMembers(its, n, a, c);
    ChainMembers(its, m, b, d);
    if x in c {
      var j :| 0 <= j < |c| && c[j] == x;
      assert its'[c[j]] == MergedCell(m, c, At(d, 0), j);
    }
  }

  /** What the invariant says about the iterators' targets. */
  lemma ValidSound(ns: seq<ListNode>, its: seq<Iter>, ring: seq<nat>, ch: Chains)
    requires Inv(ns, its, ring, ch)
    ensures Sound(Snap(ring, its, |ns|), LiveSet(ch)) && 0 !in LiveSet(ch)
  {
    RingFacts(ns, ring);
    forall it | it in LiveSet(ch) ensures 0 < it < |its| && its[it].next in ring {
      LiveInOneChain(ns, its, ring, ch, it);
    }
  }

  lemma LiveAfterPush(ns: seq<ListNode>, ring: seq<nat>, ch: Chains, it: nat, k: nat)
    requires RingOK(ns, ring) && k < |ring| && forall n :: n in ring ==> n in ch
    ensures Succ(ring, k) in ch
    ensures LiveSet(ch[Succ(ring, k) := [it] + ch[Succ(ring, k)]]) == LiveSet(ch) + {it}
  {
    RingStep(ns, ring, k);
    var n := Succ(ring, k);
    var ch' := ch[n := [it] + ch[n]];
    forall x ensures x in LiveSet(ch') <==> x in LiveSet(ch) || x == it {
      if x in LiveSet(ch') {
        var m :| m in ch' && x in ch'[m];
        assert m in ch && (x in ch[m] || x == it);
      }
      if x in LiveSet(ch) {
        var m :| m in ch && x in ch[m];
        assert m in ch' && x in ch'[m];
      }
      assert it in ch'[n];
    }
  }

  lemma ItersGrow(ns: seq<ListNode>, its: seq<Iter>, its': seq<Iter>, ring: seq<nat>, ch: Chains)
    requires Inv(ns, its, ring, ch) && its <= its' && |its'| == |its| + 1
    ensures Inv(ns, its', ring, ch) && !Live(ch, |its|)
    ensures forall x :: 0 < x < |its| ==> its'[x] == its[x]
  {
    RingFacts(ns, ring);
    forall n | n in ch && n < |ns| ensures ChainOK(its', n, ns[n].i, ch[n]) && |its| !in ch[n] {
      assert n in ring;
      ChainMembers(its, n, ns[n].i, ch[n]);
      ChainFrame(its, its', n, ns[n].i, ch[n]);
    }
  }

  lemma SuccPlace(r: seq<nat>, k: nat)
    requires NoDup(r) && k < |r|
    ensures Succ(r, k) in r && (k > 0 ==> Place(r, Succ(r, k)) == Place(r, r[k]) + 1)
  {
    var q := if k + 1 < |r| then k + 1 else 0;
    assert r[q] == Succ(r, k);
    PlaceAt(r, q);
    PlaceAt(r, k);
  }

  lemma PlaceBound(r: seq<nat>, x: nat)
    requires x in r
    ensures Place(r, x) <= |r|
  {
  }

  lemma Started(s0: Snap, its: seq<Iter>, s: Snap, w: set<nat>, it: nat, cur: nat, q: seq<nat>)
    requires Sound(s0, w) && cur == Succ(s0.r, 0) && s.r == s0.r && s.size == s0.size && it == |s0.its| && it !in w
    requires its == s0.its + [Iter(NodeSlot(0), 0, 0)] && 0 !in w && |s.its| == |its|
    requires forall x :: 0 < x < |its| && x != it ==> s.its[x].next == its[x].next
    requires forall i :: 0 <= i < |q| ==> q[i] in w
    ensures Evolves(s0, s, w) && Tour(s0.r, s, cur, []) && cur == After(s.r, s.r[0])
    ensures Targets(its, q) == Targets(s0.its, q)
  {
    AfterAt(s0.r, 0);
    hide NoDup, Tour, After;
    TourStart(s0, cur);
    TourSame(s0.r, s0, s, cur, []);
    hide Succ;
    EvolvesRetarget(s0, s, w);
    SameTargets(s0.its, its, q);
  }

  lemma TourBounds(r0: seq<nat>, s: Snap, cur: nat, trace: seq<nat>)
    requires Tour(r0, s, cur, trace)
    ensures cur in s.r && NoDup(trace) && InOrder(r0, trace) && Place(s.r, cur) <= |s.r|
  {
  }

  /** What has been visited when the loop ends at `pos`. */
  lemma TourEnd(s0: Snap, s: Snap, w: set<nat>, pos: nat, trace: seq<nat>)
    requires Tour(s0.r, s, pos, trace) && Evolves(s0, s, w)
    ensures NoDup(trace) && InOrder(s0.r, trace) && s.r != [] && forall x :: x in trace ==> x < s.size
    ensures pos == s.r[0] ==> forall x :: x in s0.r && x in s.r && x != s.r[0] ==> x in trace
  {
    forall x | x in s.r && x != s.r[0] ensures Place(s.r, x) < |s.r| {
      var j := AtPlace(s.r, x);
    }
  }

  lemma TourSame(r0: seq<nat>, s: Snap, s': Snap, cur: nat, trace: seq<nat>)
    requires Tour(r0, s, cur, trace) && s'.r == s.r && s'.size == s.size
    ensures Tour(r0, s', cur, trace)
  {
  }

  lemma EvolvesLess(s: Snap, s': Snap, w: set<nat>, w': set<nat>)
    requires Evolves(s, s', w) && w' <= w
    ensures Evolves(s, s', w')
  {
  }
}
