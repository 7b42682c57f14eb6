/** timerfd_hash.c: what hash_foreach visits while its callbacks delete entries. */
module HashSweep {
  import opened HashChain
  import opened Links
  import opened Seqs

  /** What a callback does: it deletes entries with hash_iter_del, and may end the loop. */
  datatype Reply = Reply(dels: seq<nat>, stop: bool)

  datatype Outcome = Outcome(visited: seq<nat>, left: set<nat>)

  function Members(s: seq<nat>): set<nat> { set x | x in s }

  /** hash_foreach over the entries `rest`, of which `live` are there; `cb(n, x)` is what the
      callback does on its `n`th call, if that is for `x`. */
  function Swept(rest: seq<nat>, live: set<nat>, n: nat, cb: (nat, nat) -> Reply): Outcome {
    if rest == [] then Outcome([], live)
    else if rest[0] !in live then Swept(rest[1..], live, n, cb)
    else
      var left := live - Members(cb(n, rest[0]).dels);
      if cb(n, rest[0]).stop then Outcome([rest[0]], left)
      else After([rest[0]], Swept(rest[1..], left, n + 1, cb))
  }

  function After(first: seq<nat>, o: Outcome): Outcome { Outcome(first + o.visited, o.left) }

  /** A callback deletes entries that are there, each once. */
  ghost predicate Sound(rest: seq<nat>, live: set<nat>, n: nat, cb: (nat, nat) -> Reply) {
    if rest == [] then true
    else if rest[0] !in live then Sound(rest[1..], live, n, cb)
    else
      var reply := cb(n, rest[0]);
      && NoDup(reply.dels) && Members(reply.dels) <= live
      && (!reply.stop ==> Sound(rest[1..], live - Members(reply.dels), n + 1, cb))
  }

  /** What the callbacks for `visited` delete. */
  function Deleted(visited: seq<nat>, n: nat, cb: (nat, nat) -> Reply): set<nat> {
    if visited == [] then {} else Members(cb(n, visited[0]).dels) + Deleted(visited[1..], n + 1, cb)
  }

  function DeletedBefore(visited: seq<nat>, k: nat, n: nat, cb: (nat, nat) -> Reply): set<nat>
    requires k <= |visited|
  {
    Deleted(visited[..k], n, cb)
  }

  /** Every entry visited is there at its turn. */
  ghost predicate ThereAtTurn(visited: seq<nat>, rest: seq<nat>, live: set<nat>, n: nat, cb: (nat, nat) -> Reply) {
    forall k: nat :: k < |visited| ==>
      visited[k] in rest && visited[k] in live && visited[k] !in DeletedBefore(visited, k, n, cb)
  }

  ghost predicate NeverStops(visited: seq<nat>, n: nat, cb: (nat, nat) -> Reply) {
    forall k: nat :: k < |visited| ==> !cb(n + k, visited[k]).stop
  }

  /** An entry is visited once, if it is there at its turn; what is left is what no callback
      has deleted; and unless a callback ends the loop, only what one has deleted is missed. */
  lemma {:induction false} SweptMeaning(rest: seq<nat>, live: set<nat>, n: nat, cb: (nat, nat) -> Reply)
    requires NoDup(rest)
    ensures var o := Swept(rest, live, n, cb);
            && NoDup(o.visited) && o.left == live - Deleted(o.visited, n, cb)
            && ThereAtTurn(o.visited, rest, live, n, cb)
            && (NeverStops(o.visited, n, cb) ==> forall x :: x in rest && x in o.left ==> x in o.visited)
    decreases |rest|
  {
    if rest != [] {
      var x, later := rest[0], rest[1..];
      assert rest == [x] + later;
      LaterOnce(x, later);
      if x !in live {
        SweptMeaning(later, live, n, cb);
        hide NoDup, Deleted, NeverStops, Members;
      } else if cb(n, x).stop {
        LastVisit(x, rest, live, n, cb);
        hide NoDup, Deleted, NeverStops, ThereAtTurn, Members;
      } else {
        var left := live - Members(cb(n, x).dels);
        SweptMeaning(later, left, n + 1, cb);
        OneVisit(x, Swept(later, left, n + 1, cb).visited, later, live, n, cb);
        hide NoDup, Deleted, ThereAtTurn, NeverStops, Members;
      }
    }
  }

  lemma LastVisit(x: nat, rest: seq<nat>, live: set<nat>, n: nat, cb: (nat, nat) -> Reply)
    requires x in rest && x in live && cb(n, x).stop
    ensures NoDup([x]) && Deleted([x], n, cb) == Members(cb(n, x).dels) && ThereAtTurn([x], rest, live, n, cb)
    ensures !NeverStops([x], n, cb)
  {
    hide Members;
    assert [x][0] == x && cb(n + 0, [x][0]).stop;
    assert [x][..0] == [];
  }

  lemma LaterOnce(x: nat, later: seq<nat>)
    requires NoDup([x] + later)
    ensures NoDup(later)
  {
    assert ([x] + later)[1..] == later;
  }

  /** `v` is part of `all`, in the same order. */
  predicate Within(v: seq<nat>, all: seq<nat>) {
    if v == [] then true
    else if all == [] then false
    else if v[0] == all[0] then Within(v[1..], all[1..])
    else Within(v, all[1..])
  }

  /** Entries are visited in the order of iteration, and `cb` is told which call it is. */
  lemma {:induction false} SweptInOrder(rest: seq<nat>, live: set<nat>, n: nat, cb: (nat, nat) -> Reply)
    requires NoDup(rest)
    ensures Within(Swept(rest, live, n, cb).visited, rest)
    decreases |rest|
  {
    if rest != [] {
      var x, later := rest[0], rest[1..];
      assert rest == [x] + later;
      Apart(x, later);
      if x !in live {
        SweptInOrder(later, live, n, cb);
        SweptMeaning(later, live, n, cb);
        var v := Swept(later, live, n, cb).visited;
        assert v != [] ==> v[0] in later;
      } else if !cb(n, x).stop {
        SweptInOrder(later, live - Members(cb(n, x).dels), n + 1, cb);
        var v := Swept(later, live - Members(cb(n, x).dels), n + 1, cb).visited;
        assert ([x] + v)[1..] == v;
      }
    }
  }

  lemma OneVisit(x: nat, visited: seq<nat>, later: seq<nat>, live: set<nat>, n: nat, cb: (nat, nat) -> Reply)
    requires x in live && NoDup([x] + later) && NoDup(visited)
    requires ThereAtTurn(visited, later, live - Members(cb(n, x).dels), n + 1, cb)
    ensures NoDup([x] + visited) && ThereAtTurn([x] + visited, [x] + later, live, n, cb)
    ensures NeverStops([x] + visited, n, cb) ==> NeverStops(visited, n + 1, cb)
    ensures Deleted([x] + visited, n, cb) == Members(cb(n, x).dels) + Deleted(visited, n + 1, cb)
  {
    var all := [x] + visited;
    assert all[1..] == visited;
    forall k: nat | 0 < k < |all| ensures all[k] in later && all[k] in live && all[k] !in DeletedBefore(all, k, n, cb) {
      assert all[k] == visited[k - 1];
      assert all[..k][1..] == visited[..k - 1];
    }
    assert forall y :: y in later ==> y != x by { Apart(x, later); }
    assert forall k: nat :: k < |visited| ==> visited[k] == all[k + 1];
  }

  lemma Apart(x: nat, later: seq<nat>)
    requires NoDup([x] + later)
    ensures x !in later
  {
    var all := [x] + later;
    assert all[0] == x && forall k :: 0 <= k < |later| ==> later[k] == all[k + 1];
  }

  /** The loop so far: what is visited, and what the rest of it does. */
  ghost predicate SoFar(rest0: seq<nat>, live0: set<nat>, cb: (nat, nat) -> Reply, visited: seq<nat>, rest: seq<nat>,
                        live: set<nat>) {
    && Swept(rest0, live0, 0, cb) == After(visited, Swept(rest, live, |visited|, cb))
    && Sound(rest, live, |visited|, cb)
  }

  lemma Turn(rest0: seq<nat>, live0: set<nat>, cb: (nat, nat) -> Reply, visited: seq<nat>, c: seq<nat>, i: nat,
             later: seq<nat>, live: set<nat>, x: nat)
    requires i < |c| && c[i] == x && x in live && SoFar(rest0, live0, cb, visited, c[i..] + later, live)
    ensures var reply, left := cb(|visited|, x), live - Members(cb(|visited|, x).dels);
            && NoDup(reply.dels) && Members(reply.dels) <= live
            && if reply.stop then Swept(rest0, live0, 0, cb) == Outcome(visited + [x], left)
               else SoFar(rest0, live0, cb, visited + [x], c[i + 1..] + later, left)
  {
    var rest := c[i..] + later;
    assert rest[0] == x && rest[1..] == c[i + 1..] + later;
    var o := Swept(rest[1..], live - Members(cb(|visited|, x).dels), |visited| + 1, cb);
    assert visited + ([x] + o.visited) == visited + [x] + o.visited;
  }

  lemma Advance(rest0: seq<nat>, live0: set<nat>, cb: (nat, nat) -> Reply, visited: seq<nat>, c: seq<nat>, i: nat,
                later: seq<nat>, live: set<nat>, d: nat)
    requires i + d <= |c| && SoFar(rest0, live0, cb, visited, c[i..] + later, live)
    requires forall j :: 0 <= j < d ==> c[i..][j] !in live
    ensures SoFar(rest0, live0, cb, visited, c[i + d..] + later, live)
  {
    PassOver(c[i..] + later, live, |visited|, cb, d);
    assert (c[i..] + later)[d..] == c[i + d..] + later;
  }

  // ---------- the entries that are still there ----------

  function Keep(c: seq<nat>, live: set<nat>): seq<nat> {
    if c == [] then [] else (if c[0] in live then [c[0]] else []) + Keep(c[1..], live)
  }

  lemma {:induction false} KeepMembers(c: seq<nat>, live: set<nat>)
    ensures forall y :: y in Keep(c, live) <==> y in c && y in live
  {
    if c != [] { KeepMembers(c[1..], live); }
  }

  lemma {:induction false} KeepJoin(a: seq<nat>, b: seq<nat>, live: set<nat>)
    ensures Keep(a + b, live) == Keep(a, live) + Keep(b, live)
  {
    if a == [] {
      assert a + b == b;
    } else {
      KeepJoin(a[1..], b, live);
      var first := if a[0] in live then [a[0]] else [];
      assert (a + b)[0] == a[0] && (a + b)[1..] == a[1..] + b;
      assert Keep(a + b, live) == first + Keep(a[1..] + b, live);
      assert Keep(a, live) == first + Keep(a[1..], live);
    }
  }

  lemma {:induction false} KeepLess(c: seq<nat>, live: set<nat>, x: nat)
    requires x !in c
    ensures Keep(c, live - {x}) == Keep(c, live)
  {
    if c != [] { KeepLess(c[1..], live, x); }
  }

  lemma {:induction false} KeepOnce(c: seq<nat>, live: set<nat>)
    requires NoDup(c)
    ensures NoDup(Keep(c, live))
  {
    if c != [] {
      KeepOnce(c[1..], live);
      assert c == [c[0]] + c[1..];
      Apart(c[0], c[1..]);
      KeepMembers(c[1..], live);
    }
  }

  /** Around an entry that is there. */
  lemma KeepAt(c: seq<nat>, live: set<nat>, i: nat)
    requires NoDup(c) && i < |c| && c[i] in live
    ensures Keep(c, live) == Keep(c[..i], live) + [c[i]] + Keep(c[i + 1..], live) && NoDup(Keep(c, live))
    ensures c[i] !in c[..i] && c[i] !in c[i + 1..]
  {
    assert c == c[..i] + ([c[i]] + c[i + 1..]);
    KeepJoin(c[..i], [c[i]] + c[i + 1..], live);
    KeepOnce(c, live);
  }

  /** Its successor in the chain. */
  lemma KeepNext(c: seq<nat>, live: set<nat>, i: nat, k: nat)
    requires NoDup(c) && i < |c| && c[i] in live && k < |Keep(c, live)| && Keep(c, live)[k] == c[i]
    ensures NextOf(Keep(c, live), k) == Head(Keep(c[i + 1..], live))
  {
    KeepAt(c, live, i);
    assert Keep(c, live)[|Keep(c[..i], live)|] == c[i];
  }

  /** Taking it out of the chain. */
  lemma KeepCut(c: seq<nat>, live: set<nat>, k: nat)
    requires NoDup(c) && k < |Keep(c, live)|
    ensures Keep(c, live - {Keep(c, live)[k]}) == Cut(Keep(c, live), k)
  {
    var x := Keep(c, live)[k];
    KeepMembers(c, live);
    assert x in Keep(c, live);
    var i: nat :| i < |c| && c[i] == x;
    KeepAt(c, live, i);
    KeepWithout(c, live, i);
    hide Keep;
    AroundCut(Keep(c, live), Keep(c[..i], live), x, Keep(c[i + 1..], live), k);
  }

  lemma AroundCut(s: seq<nat>, a: seq<nat>, x: nat, b: seq<nat>, k: nat)
    requires NoDup(s) && s == a + [x] + b && k < |s| && s[k] == x
    ensures Cut(s, k) == a + b
  {
    assert s[|a|] == x;
    assert k == |a|;
  }

  lemma KeepWithout(c: seq<nat>, live: set<nat>, i: nat)
    requires i < |c| && c[i] !in c[..i] && c[i] !in c[i + 1..]
    ensures Keep(c, live - {c[i]}) == Keep(c[..i], live) + Keep(c[i + 1..], live)
  {
    var x, live' := c[i], live - {c[i]};
    KeepLess(c[..i], live, x);
    KeepLess(c[i + 1..], live, x);
    assert c == c[..i] + ([x] + c[i + 1..]);
    KeepJoin(c[..i], [x] + c[i + 1..], live');
    assert ([x] + c[i + 1..])[1..] == c[i + 1..];
  }

  /** The first entry that is still there. */
  lemma {:induction false} FirstKept(c: seq<nat>, live: set<nat>) returns (d: nat)
    requires Keep(c, live) != []
    ensures d < |c| && c[d] in live && c[d] == Keep(c, live)[0] && forall j :: 0 <= j < d ==> c[j] !in live
  {
    if c[0] in live {
      d := 0;
    } else {
      d := FirstKept(c[1..], live);
      assert c[1..][d] == c[d + 1];
      d := d + 1;
    }
  }

  lemma {:induction false} NoneKept(c: seq<nat>, live: set<nat>)
    requires Keep(c, live) == []
    ensures forall j :: 0 <= j < |c| ==> c[j] !in live
  {
    if c != [] { NoneKept(c[1..], live); }
  }

  /** Entries that are gone are passed over. */
  lemma {:induction false} PassOver(rest: seq<nat>, live: set<nat>, n: nat, cb: (nat, nat) -> Reply, d: nat)
    requires d <= |rest| && forall j :: 0 <= j < d ==> rest[j] !in live
    ensures Swept(rest, live, n, cb) == Swept(rest[d..], live, n, cb)
    ensures Sound(rest, live, n, cb) <==> Sound(rest[d..], live, n, cb)
  {
    if d > 0 {
      PassOver(rest[1..], live, n, cb, d - 1);
      assert rest[1..][d - 1..] == rest[d..];
    }
  }

  /** The loop comes to the next entry that is there. */
  lemma ToFirst(rest0: seq<nat>, live0: set<nat>, cb: (nat, nat) -> Reply, visited: seq<nat>, c: seq<nat>, i: nat,
                later: seq<nat>, live: set<nat>, p: nat)
      returns (d: nat)
    requires i <= |c| && SoFar(rest0, live0, cb, visited, c[i..] + later, live) && p == Head(Keep(c[i..], live))
    ensures i + d < |c| && c[i + d] == p && p in live
    ensures SoFar(rest0, live0, cb, visited, c[i + d..] + later, live)
  {
    hide SoFar;
    d := FirstKept(c[i..], live);
    assert c[i..][d] == c[i + d];
    Advance(rest0, live0, cb, visited, c, i, later, live, d);
  }

  /** The inner loop is at `p`, the first entry left from place `i` of bucket `h` on. */
  ghost predicate Place(rest0: seq<nat>, live0: set<nat>, cb: (nat, nat) -> Reply, visited: seq<nat>,
                        chains0: seq<seq<nat>>, h: nat, i: nat, live: set<nat>, p: int) {
    && h < |chains0| && i <= |chains0[h]| && p == Head(Keep(chains0[h][i..], live))
    && SoFar(rest0, live0, cb, visited, chains0[h][i..] + Flat(chains0[h + 1..]), live)
  }

  /** Place `k` is where it is, and this is what the turn there comes to. */
  lemma NextTurn(rest0: seq<nat>, live0: set<nat>, cb: (nat, nat) -> Reply, visited: seq<nat>, chains0: seq<seq<nat>>,
                 h: nat, i: nat, live: set<nat>, p: nat)
      returns (k: nat)
    requires Place(rest0, live0, cb, visited, chains0, h, i, live, p)
    ensures h < |chains0| && i <= k < |chains0[h]| && chains0[h][k] == p && p in live
    ensures var reply, left := cb(|visited|, p), live - Members(cb(|visited|, p).dels);
            && NoDup(reply.dels) && Members(reply.dels) <= live
            && if reply.stop then Swept(rest0, live0, 0, cb) == Outcome(visited + [p], left)
               else Place(rest0, live0, cb, visited + [p], chains0, h, k + 1, left, Head(Keep(chains0[h][k + 1..], left)))
  {
    var c, later := chains0[h], Flat(chains0[h + 1..]);
    var d := ToFirst(rest0, live0, cb, visited, c, i, later, live, p);
    k := i + d;
    hide SoFar, Flat, Keep, Swept, Members, NoDup;
    Turn(rest0, live0, cb, visited, c, k, later, live, p);
  }

  lemma ToEnd(rest0: seq<nat>, live0: set<nat>, cb: (nat, nat) -> Reply, visited: seq<nat>, chains0: seq<seq<nat>>,
              h: nat, i: nat, live: set<nat>)
    requires Place(rest0, live0, cb, visited, chains0, h, i, live, NULL)
    ensures h < |chains0| && SoFar(rest0, live0, cb, visited, Flat(chains0[h + 1..]), live)
  {
    var c, later := chains0[h], Flat(chains0[h + 1..]);
    hide SoFar, Flat;
    NoneKept(c[i..], live);
    Advance(rest0, live0, cb, visited, c, i, later, live, |c| - i);
    assert c[|c|..] + later == later;
  }

  /** Every chain is what is left of what it was. */
  ghost predicate Kept(chains0: seq<seq<nat>>, chains: seq<seq<nat>>, live: set<nat>) {
    |chains| == |chains0| && forall g: nat :: g < |chains| ==> chains[g] == Keep(chains0[g], live)
  }

  ghost predicate Disjoint(chains: seq<seq<nat>>) {
    && (forall g: nat :: g < |chains| ==> NoDup(chains[g]))
    && forall g: nat, h: nat, x :: g < |chains| && h < |chains| && x in chains[g] && x in chains[h] ==> g == h
  }

  lemma KeptCut(chains0: seq<seq<nat>>, chains: seq<seq<nat>>, live: set<nat>, h: nat, k: nat)
    requires Kept(chains0, chains, live) && Disjoint(chains0) && h < |chains| && k < |chains[h]|
    ensures Kept(chains0, chains[h := Cut(chains[h], k)], live - {chains[h][k]})
  {
    var x := chains[h][k];
    KeepMembers(chains0[h], live);
    forall g: nat | g < |chains| ensures chains[h := Cut(chains[h], k)][g] == Keep(chains0[g], live - {x}) {
      if g == h { KeepCut(chains0[h], live, k); } else { KeepLess(chains0[g], live, x); }
    }
  }

  lemma {:induction false} KeepAll(c: seq<nat>, live: set<nat>)
    requires forall x :: x in c ==> x in live
    ensures Keep(c, live) == c
  {
    if c != [] { KeepAll(c[1..], live); }
  }

  lemma KeptStart<K, V>(es: seq<Entry<K, V>>, tab: seq<int>, chains: seq<seq<nat>>, live: set<nat>)
    requires Table(es, tab, chains, live)
    ensures Kept(chains, chains, live) && Disjoint(chains)
  {
    forall g: nat | g < |chains| ensures NoDup(chains[g]) && chains[g] == Keep(chains[g], live) {
      ChainMembers(es, tab, chains, live, g);
      KeepAll(chains[g], live);
    }
    forall g: nat, h: nat, x | g < |chains| && h < |chains| && x in chains[g] && x in chains[h] ensures g == h {
      ChainMembers(es, tab, chains, live, g);
      ChainMembers(es, tab, chains, live, h);
    }
  }
}
