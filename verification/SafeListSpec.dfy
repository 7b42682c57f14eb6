/** list_safe.c as its callers see it: what callbacks and loops do to a list, without the
    chains of iterators. */
module SafeListSpec {
  import opened Seqs
  import opened SafeListChain
  import opened SafeListState
  import opened SafeListMotion

  /** What a callback may do: delete any node, put new ones in, run its own loop. */
  datatype Action = DelNode(n: nat) | AddTail | AddHead | Loop(visits: seq<Visit>)

  /** One call of the callback: what it does and what it returns. */
  datatype Visit = Visit(actions: seq<Action>, ret: int)

  /** The `k`th call; a callback that is called more often does nothing. */
  function VisitAt(visits: seq<Visit>, k: nat): Visit {
    if k < |visits| then visits[k] else Visit([], 0)
  }

  /** The head and the nodes on the list in order, how many nodes have ever been made, and
      the nodes that the loops of interest go to next, the innermost loop's last. */
  datatype View = View(r: seq<nat>, size: nat, at: seq<nat>) {
    ghost predicate OK() {
      |r| > 0 && NoDup(r) && (forall x :: x in r ==> x < size) && forall i :: 0 <= i < |at| ==> at[i] in r
    }

    function Push(t: nat): View { View(r, size, at + [t]) }

    function Top(): nat
      requires at != []
    {
      at[|at| - 1]
    }

    function Pop(): View
      requires at != []
    {
      View(r, size, at[..|at| - 1])
    }
  }

  /** The node after `x`; after the last comes the head. */
  function After(r: seq<nat>, x: nat): (y: nat)
    requires x in r
    ensures y in r
  {
    Succ(r, IndexOf(r, x))
  }

  /** What may become of a list: nodes leave for good or are new. */
  ghost predicate Later(s: View, s': View) {
    s'.r != [] && s.r != [] && s'.r[0] == s.r[0] && s.size <= s'.size && forall x :: x in s'.r ==> x in s.r || s.size <= x
  }

  function ForwardAll(at: seq<nat>, n: nat, m: nat): seq<nat> {
    seq(|at|, i requires 0 <= i < |at| => Forward(at[i], n, m))
  }

  ghost function Deleted(s: View, n: nat): (s': View)
    requires s.OK()
    ensures s'.OK() && |s'.at| == |s.at| && Later(s, s')
  {
    if n in s.r && n != s.r[0] then
      var k := IndexOf(s.r, n);
      CutAt(s.r, k);
      CutMembers(s.r, k);
      SuccDiffers(s.r, k);
      View(Cut(s.r, k), s.size, ForwardAll(s.at, n, Succ(s.r, k)))
    else
      s
  }

  ghost function Added(s: View, tail: bool): (s': View)
    requires s.OK()
    ensures s'.OK() && |s'.at| == |s.at| && Later(s, s')
  {
    var k := if tail then |s.r| else 1;
    InsertPlaces(s.r, k, s.size);
    InsertMembers(s.r, k, s.size);
    View(Insert(s.r, k, s.size), s.size + 1, s.at)
  }

  ghost function Acts(s: View, acts: seq<Action>): (s': View)
    requires s.OK()
    ensures s'.OK() && |s'.at| == |s.at| && Later(s, s')
    decreases acts, 0, 0
  {
    if acts == [] then s else
      var last := |acts| - 1;
      var before := Acts(s, acts[..last]);
      match acts[last]
      case DelNode(n) => Deleted(before, n)
      case AddTail => Added(before, true)
      case AddHead => Added(before, false)
      case Loop(visits) => Looped(before, visits).s
  }

  /** What one action does to the list, and that actions act one after the other. */
  lemma ActMeaning(s: View, a: Action, b: Action)
    requires s.OK()
    ensures Acts(s, []) == s && Acts(s, [a, b]) == Acts(Acts(s, [a]), [b])
    ensures a.AddTail? ==> Acts(s, [a]).r == s.r + [s.size] && Acts(s, [a]).at == s.at
    ensures a.AddHead? ==> Acts(s, [a]).r == [s.r[0], s.size] + s.r[1..] && Acts(s, [a]).at == s.at
    ensures a.DelNode? ==>
              (forall x :: x in Acts(s, [a]).r <==> x in s.r && (x != a.n || x == s.r[0]))
              && forall i :: 0 <= i < |s.at| ==>
                   Acts(s, [a]).at[i] == if s.at[i] == a.n && a.n != s.r[0] then After(s.r, a.n) else s.at[i]
  {
    hide Acts, Deleted, Added, View.OK, Later;
    ActsTwice(s, a, b);
    OneAct(s, a);
    if a.DelNode? { DeletedMeaning(s, a.n); }
  }

  lemma ActsTwice(s: View, a: Action, b: Action)
    requires s.OK()
    ensures Acts(s, []) == s && Acts(s, [a, b]) == Acts(Acts(s, [a]), [b])
  {
    hide View.OK, Later, Looped, Deleted, Added;
    assert [a, b][..1] == [a] && [b][..0] == [];
  }

  lemma OneAct(s: View, a: Action)
    requires s.OK()
    ensures a.AddTail? ==> Acts(s, [a]).r == s.r + [s.size] && Acts(s, [a]).at == s.at
    ensures a.AddHead? ==> Acts(s, [a]).r == [s.r[0], s.size] + s.r[1..] && Acts(s, [a]).at == s.at
    ensures a.DelNode? ==> Acts(s, [a]) == Deleted(s, a.n)
  {
    hide Later, Looped, Deleted;
    assert [a][..0] == [];
    assert s.r[|s.r|..] == [] && s.r[..|s.r|] == s.r && s.r[..1] == [s.r[0]];
  }

  lemma DeletedMeaning(s: View, n: nat)
    requires s.OK()
    ensures forall x :: x in Deleted(s, n).r <==> x in s.r && (x != n || x == s.r[0])
    ensures forall i :: 0 <= i < |s.at| ==>
              Deleted(s, n).at[i] == if s.at[i] == n && n != s.r[0] then After(s.r, n) else s.at[i]
  {
    if n in s.r && n != s.r[0] {
      CutMembers(s.r, IndexOf(s.r, n));
    }
  }

  /** What a loop ends with. */
  datatype Run = Run(s: View, trace: seq<nat>, ret: int)

  ghost function Looped(s: View, visits: seq<Visit>): (run: Run)
    requires s.OK()
    ensures run.s.OK() && |run.s.at| == |s.at| && Later(s, run.s)
    decreases visits, 2, 0
  {
    var first := After(s.r, s.r[0]);
    LoopFrom(s.Push(After(s.r, first)), visits, 0, first)
  }

  /** The rest of a loop that is about to look at `cur`, after `n` calls of its callback: it
      visits `cur`, unless that is the head, and goes on to where it then waits. */
  ghost function LoopFrom(s: View, visits: seq<Visit>, n: nat, cur: nat): (run: Run)
    requires s.OK() && s.at != [] && cur in s.r
    ensures run.s.OK() && |run.s.at| == |s.at| - 1 && Later(s, run.s)
    decreases visits, 1, if n < |visits| then |visits| - n else 0
  {
    if cur == s.r[0] then
      Run(s.Pop(), [], 0)
    else if n >= |visits| then
      Run(s.Pop(), s.r[IndexOf(s.r, cur)..], 0)
    else
      var s' := Acts(s, visits[n].actions);
      if visits[n].ret != 0 then
        Run(s'.Pop(), [cur], visits[n].ret)
      else
        var rest := LoopFrom(MovedOn(s'), visits, n + 1, s'.Top());
        rest.(trace := [cur] + rest.trace)
  }

  /** The innermost loop has moved to the node it waited at. */
  ghost function MovedOn(s: View): (s': View)
    requires s.OK() && s.at != []
    ensures s'.OK() && |s'.at| == |s.at| && s'.r == s.r && s'.size == s.size
    ensures s.Top() in s'.r && s'.Top() == After(s'.r, s.Top())
  {
    s.Pop().Push(After(s.r, s.Top()))
  }

  /** One turn of a loop, whether its callback does something or not. */
  lemma OneTurn(s: View, visits: seq<Visit>, n: nat, cur: nat)
    requires s.OK() && s.at != [] && cur in s.r && cur != s.r[0] && s.Top() == After(s.r, cur)
    ensures var v := VisitAt(visits, n);
            var s' := Acts(s, v.actions);
            LoopFrom(s, visits, n, cur) ==
              if v.ret != 0 then
                Run(s'.Pop(), [cur], v.ret)
              else
                var rest := LoopFrom(MovedOn(s'), visits, n + 1, s'.Top());
                rest.(trace := [cur] + rest.trace)
  {
    if n >= |visits| {
      var k := IndexOf(s.r, cur);
      var s' := Acts(s, []);
      assert s' == s && MovedOn(s).Pop() == s.Pop();
      assert LoopFrom(s, visits, n, cur) == Run(s.Pop(), s.r[k..], 0);
      hide Acts;
      if k + 1 < |s.r| {
        assert s.Top() == s.r[k + 1] && IndexOf(s.r, s.r[k + 1]) == k + 1;
        assert s.r[k..] == [cur] + s.r[k + 1..];
      } else {
        assert s.Top() == s.r[0] && s.r[k..] == [cur] + [];
      }
    } else {
      hide Acts, MovedOn, After, View.OK;
    }
  }

  // ---------- what a loop visits ----------

  /** The list at the `i`th visit from here on. */
  ghost function AtVisit(s: View, visits: seq<Visit>, n: nat, cur: nat, i: nat): (v: View)
    requires s.OK() && s.at != [] && cur in s.r && i < |LoopFrom(s, visits, n, cur).trace|
    ensures v.OK() && Later(s, v) && |v.at| == |s.at|
    decreases i
  {
    if i == 0 || n >= |visits| then s else
      var s' := Acts(s, visits[n].actions);
      AtVisit(MovedOn(s'), visits, n + 1, s'.Top(), i - 1)
  }

  /** Every node is on the list when it is visited, and a node that has left the list is
      never visited again, nor one that was never on it. */
  lemma {:induction false} OnlyListed(s: View, visits: seq<Visit>, n: nat, cur: nat, i: nat)
    requires s.OK() && s.at != [] && cur in s.r && i < |LoopFrom(s, visits, n, cur).trace|
    ensures var trace := LoopFrom(s, visits, n, cur).trace;
            && trace[i] in AtVisit(s, visits, n, cur, i).r && trace[i] != s.r[0]
            && (trace[i] in s.r || s.size <= trace[i])
    decreases i
  {
    hide Acts, MovedOn, After, View.OK;
    if i > 0 && n < |visits| {
      var s' := Acts(s, visits[n].actions);
      OnlyListed(MovedOn(s'), visits, n + 1, s'.Top(), i - 1);
    } else {
      FirstListed(s, visits, n, cur, i);
    }
  }

  lemma FirstListed(s: View, visits: seq<Visit>, n: nat, cur: nat, i: nat)
    requires s.OK() && s.at != [] && cur in s.r && i < |LoopFrom(s, visits, n, cur).trace|
    requires i == 0 || n >= |visits|
    ensures var x := LoopFrom(s, visits, n, cur).trace[i]; x in s.r && x != s.r[0]
  {
    hide Acts, MovedOn, After;
  }

  /** Between two visits only the callback changes the list, and the next visit is to the node
      the loop then waits at. */
  lemma {:induction false} BetweenVisits(s: View, visits: seq<Visit>, n: nat, cur: nat, i: nat)
    requires s.OK() && s.at != [] && cur in s.r && i + 1 < |LoopFrom(s, visits, n, cur).trace|
    requires s.Top() == After(s.r, cur)
    ensures var trace := LoopFrom(s, visits, n, cur).trace;
            var s' := Acts(AtVisit(s, visits, n, cur, i), VisitAt(visits, n + i).actions);
            && VisitAt(visits, n + i).ret == 0
            && AtVisit(s, visits, n, cur, i + 1).r == s'.r && AtVisit(s, visits, n, cur, i + 1).size == s'.size
            && (n + i < |visits| ==> trace[i + 1] == s'.Top())
    decreases i
  {
    hide MovedOn, After, View.OK, Later;
    if n >= |visits| {
      assert Acts(s, []) == s;
    } else {
      hide Acts;
      var s' := Acts(s, visits[n].actions);
      if i > 0 {
        BetweenVisits(MovedOn(s'), visits, n + 1, s'.Top(), i - 1);
      }
    }
  }

  /** A deleted node is not visited from then on. */
  lemma {:induction false} NotAfterDeletion(s: View, visits: seq<Visit>, n: nat, cur: nat, i: nat, j: nat, x: nat)
    requires s.OK() && s.at != [] && cur in s.r && i <= j < |LoopFrom(s, visits, n, cur).trace|
    requires var v := AtVisit(s, visits, n, cur, i); x < v.size && x !in v.r
    ensures LoopFrom(s, visits, n, cur).trace[j] != x
    decreases i
  {
    hide Acts, MovedOn, After, View.OK;
    if i == 0 || n >= |visits| {
      OnlyListed(s, visits, n, cur, j);
    } else {
      var s' := Acts(s, visits[n].actions);
      NotAfterDeletion(MovedOn(s'), visits, n + 1, s'.Top(), i - 1, j - 1, x);
    }
  }

  /** The first visits do not depend on what later calls do: so what is proved of a visit is true
      of it in a loop that does not end, too. */
  lemma {:induction false} SameStart(s: View, visits: seq<Visit>, visits': seq<Visit>, n: nat, cur: nat, i: nat)
    requires s.OK() && s.at != [] && cur in s.r
    requires n + i <= |visits| && n + i <= |visits'| && visits[n..n + i] == visits'[n..n + i]
    ensures i < |LoopFrom(s, visits, n, cur).trace| <==> i < |LoopFrom(s, visits', n, cur).trace|
    ensures i < |LoopFrom(s, visits, n, cur).trace| ==>
              && LoopFrom(s, visits, n, cur).trace[i] == LoopFrom(s, visits', n, cur).trace[i]
              && AtVisit(s, visits, n, cur, i) == AtVisit(s, visits', n, cur, i)
    decreases i
  {
    hide Acts, MovedOn, After, View.OK;
    if i > 0 && cur != s.r[0] {
      assert visits[n] == visits[n..n + i][0] && visits'[n] == visits'[n..n + i][0];
      assert visits[n + 1..n + i] == visits[n..n + i][1..] && visits'[n + 1..n + i] == visits'[n..n + i][1..];
      if visits[n].ret == 0 {
        var s' := Acts(s, visits[n].actions);
        SameStart(MovedOn(s'), visits, visits', n + 1, s'.Top(), i - 1);
      }
    }
  }
}
