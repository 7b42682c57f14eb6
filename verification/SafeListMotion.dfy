/** How a safe list may change under an iterator's feet: every operation keeps
    each live iterator between the same neighbours. */
module SafeListMotion {
  import opened Seqs
  import opened SafeListChain
  import opened SafeListState

  ghost function LiveSet(ch: Chains): set<nat> {
    set n, it | n in ch && it in ch[n] :: it
  }

  lemma LiveSetIs(ch: Chains)
    ensures forall it :: it in LiveSet(ch) <==> Live(ch, it)
  {
  }

  /** Position on the ring; the head counts as the end of the list. */
  ghost function Place(r: seq<nat>, x: nat): nat
    requires x in r
  {
    if x == r[0] then |r| else var j :| 0 <= j < |r| && r[j] == x; j
  }

  lemma PlaceAt(r: seq<nat>, j: nat)
    requires NoDup(r) && j < |r|
    ensures Place(r, r[j]) == if j == 0 then |r| else j
  {
  }

  lemma AtPlace(r: seq<nat>, x: nat) returns (j: nat)
    requires NoDup(r) && x in r
    ensures j < |r| && r[j] == x && Place(r, x) == if j == 0 then |r| else j
  {
    j :| 0 <= j < |r| && r[j] == x;
    PlaceAt(r, j);
  }

  /** What a run of operations looks at: the ring, the iterators' targets, and how
      many nodes have ever been made. */
  datatype Snap = Snap(r: seq<nat>, its: seq<Iter>, size: nat)

  ghost predicate Sound(s: Snap, w: set<nat>) {
    && |s.r| > 0 && NoDup(s.r) && (forall x :: x in s.r ==> x < s.size)
    && forall it :: it in w ==> it < |s.its| && s.its[it].next in s.r
  }

  ghost predicate SameOrder(r: seq<nat>, r': seq<nat>) {
    forall x, y :: x in r && y in r && x in r' && y in r' ==>
      (Place(r, x) < Place(r, y) <==> Place(r', x) < Place(r', y))
  }

  /** A node is passed by the iterator before just if it is afterwards. */
  ghost predicate SameSide(s: Snap, s': Snap, it: nat)
    requires it < |s.its| && it < |s'.its| && s.its[it].next in s.r && s'.its[it].next in s'.r
  {
    forall x :: x in s.r && x in s'.r ==>
      (Place(s.r, x) < Place(s.r, s.its[it].next) <==> Place(s'.r, x) < Place(s'.r, s'.its[it].next))
  }

  /** From `s` to `s'` nodes only leave, or come in new; the rest keep their order,
      and the iterators in `w` stay between the same nodes. */
  ghost predicate Evolves(s: Snap, s': Snap, w: set<nat>) {
    && Sound(s, w) && Sound(s', w) && s.r[0] == s'.r[0] && s.size <= s'.size
    && (forall x :: x in s'.r ==> x in s.r || s.size <= x)
    && SameOrder(s.r, s'.r)
    && forall it :: it in w ==> SameSide(s, s', it)
  }

  lemma EvolvesRefl(s: Snap, w: set<nat>)
    requires Sound(s, w)
    ensures Evolves(s, s, w)
  {
  }

  lemma EvolvesTrans(s: Snap, s': Snap, s'': Snap, w: set<nat>, w': set<nat>)
    requires Evolves(s, s', w) && Evolves(s', s'', w') && w <= w'
    ensures Evolves(s, s'', w)
  {
    hide Place;
    assert forall x :: x in s.r && x in s''.r ==> x in s'.r;
    forall it | it in w ensures SameSide(s, s'', it) {
      assert SameSide(s, s', it) && SameSide(s', s'', it);
    }
  }

  /** Only iterators outside `w` were retargeted. */
  lemma EvolvesRetarget(s: Snap, s': Snap, w: set<nat>)
    requires Sound(s, w) && s'.r == s.r && s'.size == s.size
    requires forall it :: it in w ==> it < |s'.its| && s'.its[it].next == s.its[it].next
    ensures Evolves(s, s', w)
  {
  }

  lemma PlaceWithout(r: seq<nat>, k: nat, x: nat)
    requires NoDup(r) && 0 < k < |r| && x in r && x != r[k]
    ensures x in Cut(r, k)
    ensures Place(Cut(r, k), x) == if Place(r, x) > k then Place(r, x) - 1 else Place(r, x)
    ensures Place(r, x) != k
  {
    CutMembers(r, k);
    CutAt(r, k);
    var j := AtPlace(r, x);
    PlaceAt(Cut(r, k), if j < k then j else j - 1);
  }

  lemma DelPlaces(r: seq<nat>, k: nat)
    requires NoDup(r) && 0 < k < |r|
    ensures forall x :: x in Cut(r, k) <==> x in r && x != r[k]
    ensures NoDup(Cut(r, k)) && |Cut(r, k)| == |r| - 1 && Cut(r, k)[0] == r[0]
    ensures Succ(r, k) in r && Succ(r, k) != r[k]
    ensures Place(r, r[k]) == k && Place(r, Succ(r, k)) == k + 1
    ensures forall x :: x in r && x != r[k] ==>
      && x in Cut(r, k) && Place(r, x) != k
      && Place(Cut(r, k), x) == (if Place(r, x) > k then Place(r, x) - 1 else Place(r, x))
  {
    CutMembers(r, k);
    CutAt(r, k);
    SuccDiffers(r, k);
    PlaceAt(r, k);
    PlaceAt(r, if k + 1 < |r| then k + 1 else 0);
    hide Place, Cut, NoDup;
    forall x | x in r && x != r[k]
      ensures x in Cut(r, k) && Place(r, x) != k
      ensures Place(Cut(r, k), x) == if Place(r, x) > k then Place(r, x) - 1 else Place(r, x)
    {
      PlaceWithout(r, k, x);
    }
  }

  /** Where an iterator points once the node `n`, followed by `m`, is gone. */
  function Forward(target: nat, n: nat, m: nat): nat { if target == n then m else target }

  lemma EvolvesDel(s: Snap, s': Snap, k: nat, w: set<nat>)
    requires Sound(s, w) && 0 < k < |s.r| && s'.r == Cut(s.r, k) && s'.size == s.size
    requires forall it :: it in w ==> it < |s'.its|
    requires forall it :: it in w ==> s'.its[it].next == Forward(s.its[it].next, s.r[k], Succ(s.r, k))
    ensures Evolves(s, s', w)
  {
    DelPlaces(s.r, k);
    hide Place, Cut, NoDup, Succ;
    forall it | it in w ensures s'.its[it].next in s'.r && SameSide(s, s', it) {
      assert s.its[it].next in s.r;
    }
  }

  lemma PlaceInsert(r: seq<nat>, k: nat, n: nat, x: nat)
    requires NoDup(r) && 0 < k <= |r| && n !in r && x in r
    ensures x in Insert(r, k, n)
    ensures Place(Insert(r, k, n), x) == if Place(r, x) >= k then Place(r, x) + 1 else Place(r, x)
  {
    InsertMembers(r, k, n);
    InsertPlaces(r, k, n);
    var j := AtPlace(r, x);
    PlaceAt(Insert(r, k, n), if j < k then j else j + 1);
  }

  lemma EvolvesAdd(s: Snap, s': Snap, k: nat, w: set<nat>)
    requires Sound(s, w) && 0 < k <= |s.r| && s'.r == Insert(s.r, k, s.size) && s'.size == s.size + 1
    requires s'.its == s.its
    ensures Evolves(s, s', w)
  {
    var r, r', n := s.r, s'.r, s.size;
    InsertMembers(r, k, n);
    InsertPlaces(r, k, n);
    hide Place, Insert, NoDup;
    forall x | x in r
      ensures x in r' && Place(r', x) == if Place(r, x) >= k then Place(r, x) + 1 else Place(r, x)
    {
      PlaceInsert(r, k, n, x);
    }
    forall it | it in w ensures SameSide(s, s', it) {
      assert s.its[it].next in r;
    }
  }

  // ---------- one loop over the list ----------

  /** What safe_list_for_each has done when it is about to look at `cur`, having
      visited `trace`, if the ring was `r0` when it started. */
  ghost predicate Tour(r0: seq<nat>, s: Snap, cur: nat, trace: seq<nat>) {
    && |s.r| > 0 && cur in s.r
    && NoDup(trace)
    && Behind(s, cur, trace)
    && AllSeen(r0, s, cur, trace)
    && InOrder(r0, trace)
    && Ahead(r0, s, cur, trace)
  }

  /** Visited nodes that are still on the list come before `cur`. */
  ghost predicate Behind(s: Snap, cur: nat, trace: seq<nat>)
    requires |s.r| > 0 && cur in s.r
  {
    forall x :: x in trace ==> x != s.r[0] && x < s.size && (x in s.r ==> Place(s.r, x) < Place(s.r, cur))
  }

  /** Every old node before `cur` has been visited. */
  ghost predicate AllSeen(r0: seq<nat>, s: Snap, cur: nat, trace: seq<nat>)
    requires cur in s.r
  {
    forall x :: x in s.r && x in r0 && Place(s.r, x) < Place(s.r, cur) ==> x in trace
  }

  /** Old nodes were visited in the order they had at the start. */
  ghost predicate InOrder(r0: seq<nat>, trace: seq<nat>) {
    forall i, j :: 0 <= i < j < |trace| && trace[i] in r0 && trace[j] in r0 ==>
      Place(r0, trace[i]) < Place(r0, trace[j])
  }

  /** Old nodes still to come were after all the visited ones. */
  ghost predicate Ahead(r0: seq<nat>, s: Snap, cur: nat, trace: seq<nat>)
    requires cur in s.r
  {
    forall x, y :: x in trace && x in r0 && y in s.r && y in r0 && Place(s.r, y) >= Place(s.r, cur) ==>
      Place(r0, x) < Place(r0, y)
  }

  lemma TourStart(s: Snap, cur: nat)
    requires |s.r| > 0 && NoDup(s.r) && cur == Succ(s.r, 0)
    ensures cur in s.r && Tour(s.r, s, cur, [])
  {
    var q := if 1 < |s.r| then 1 else 0;
    assert s.r[q] == cur;
    PlaceAt(s.r, q);
    forall x | x in s.r ensures Place(s.r, x) >= Place(s.r, cur) {
      var j := AtPlace(s.r, x);
    }
  }

  /** One turn of the loop: `cur` is visited, the callback runs from `s` to `s'`,
      and the loop goes on to where its iterator `it` then points. */
  lemma TourStep(r0: seq<nat>, s0: Snap, s: Snap, s': Snap, w: set<nat>, it: nat, cur: nat, trace: seq<nat>)
    requires Tour(r0, s, cur, trace) && cur != s.r[0] && r0 == s0.r
    requires Evolves(s, s', w) && it in w && Evolves(s0, s, {})
    requires Place(s.r, s.its[it].next) == Place(s.r, cur) + 1
    ensures s'.its[it].next in s'.r && Tour(r0, s', s'.its[it].next, trace + [cur])
  {
    var cur' := s'.its[it].next;
    hide Place, NoDup;
    assert SameSide(s, s', it);
    assert forall x :: x in s'.r && x < s.size ==> x in s.r;
    assert forall x :: x in trace + [cur] <==> x in trace || x == cur;
    assert Behind(s', cur', trace + [cur]);
    OldIn(r0, s0, s, s', w);
    assert AllSeen(r0, s', cur', trace + [cur]);
    TourOrder(r0, s0, s, cur, trace);
    TourAhead(r0, s0, s, s', w, it, cur, trace);
    TourNoDup(s, cur, trace);
  }

  lemma OldIn(r0: seq<nat>, s0: Snap, s: Snap, s': Snap, w: set<nat>)
    requires Evolves(s, s', w) && Evolves(s0, s, {}) && r0 == s0.r
    ensures forall x :: x in r0 && x in s'.r ==> x in s.r
  {
    hide Place, NoDup;
  }

  lemma TourNoDup(s: Snap, cur: nat, trace: seq<nat>)
    requires |s.r| > 0 && cur in s.r && NoDup(trace) && Behind(s, cur, trace)
    ensures NoDup(trace + [cur])
  {
    hide Place;
    assert cur !in trace;
  }

  lemma TourOrder(r0: seq<nat>, s0: Snap, s: Snap, cur: nat, trace: seq<nat>)
    requires Tour(r0, s, cur, trace) && r0 == s0.r
    ensures InOrder(r0, trace + [cur])
  {
    hide Place, NoDup, Behind, AllSeen;
    var u := trace + [cur];
    forall i, j | 0 <= i < j < |u| && u[i] in r0 && u[j] in r0 ensures Place(r0, u[i]) < Place(r0, u[j]) {
      assert u[i] == trace[i];
      if j < |trace| { assert u[j] == trace[j]; }
    }
  }

  lemma TourAhead(r0: seq<nat>, s0: Snap, s: Snap, s': Snap, w: set<nat>, it: nat, cur: nat, trace: seq<nat>)
    requires Tour(r0, s, cur, trace) && cur != s.r[0] && r0 == s0.r
    requires Evolves(s, s', w) && it in w && Evolves(s0, s, {})
    requires Place(s.r, s.its[it].next) == Place(s.r, cur) + 1
    ensures Ahead(r0, s', s'.its[it].next, trace + [cur])
  {
    hide Place, NoDup, Behind, AllSeen;
    OldIn(r0, s0, s, s', w);
    var cur' := s'.its[it].next;
    assert SameSide(s, s', it);
    forall x, y | x in trace + [cur] && x in r0 && y in s'.r && y in r0 && Place(s'.r, y) >= Place(s'.r, cur')
      ensures Place(r0, x) < Place(r0, y)
    {
      assert y in s.r && Place(s.r, y) > Place(s.r, cur);
      if x == cur {
        assert Place(r0, x) < Place(r0, y) <==> Place(s.r, x) < Place(s.r, y);
      } else {
        assert x in trace;
      }
    }
  }
}
