/** Runs of the hash table of timerfd_hash.c, from hash_new on. */
module HashRun {
  import opened HashChain
  import opened HashSweep
  import opened HashTable
  import opened Seqs

  /** hash_add, hash_lookadd, hash_del, and hash_foreach with a callback that deletes the
      entries it is called for if `drop` says so. */
  datatype Op<!K, !V> = Add(key: K, data: V) | LookAdd(key: K) | Del(key: K) | Prune(drop: (K, V) -> bool)

  function Step<K, V>(m: map<K, V>, op: Op<K, V>, blank: V): map<K, V> {
    match op
    case Add(key, data) => m[key := data]
    case LookAdd(key) => if key in m then m else m[key := blank]
    case Del(key) => m - {key}
    case Prune(drop) => Pruned(m, drop)
  }

  function Pruned<K, V>(m: map<K, V>, drop: (K, V) -> bool): map<K, V> { map key | key in m && !drop(key, m[key]) :: m[key] }

  /** What a table holds after a run. */
  function Run<K, V>(ops: seq<Op<K, V>>, blank: V): map<K, V> {
    if ops == [] then map[] else Step(Run(ops[..|ops| - 1], blank), ops[|ops| - 1], blank)
  }

  lemma RunNext<K, V>(ops: seq<Op<K, V>>, k: nat, blank: V)
    requires k < |ops|
    ensures Run(ops[..k + 1], blank) == Step(Run(ops[..k], blank), ops[k], blank)
  {
    assert ops[..k + 1][..k] == ops[..k];
  }

  /** The operation gives `key` the data, in a table that holds `m`. */
  ghost predicate Gives<K, V>(m: map<K, V>, op: Op<K, V>, key: K, data: V, blank: V) {
    match op
    case Add(k, d) => k == key && d == data
    case LookAdd(k) => k == key && data == blank && key !in m
    case _ => false
  }

  /** The operation leaves `key` alone, if that has the data. */
  ghost predicate Spares<K, V>(op: Op<K, V>, key: K, data: V) {
    match op
    case Add(k, _) => k != key
    case LookAdd(_) => true
    case Del(k) => k != key
    case Prune(drop) => !drop(key, data)
  }

  /** Operation `i` gave `key` the data, and none has touched it since. */
  ghost predicate Since<K, V>(ops: seq<Op<K, V>>, i: nat, key: K, data: V, blank: V) {
    && i < |ops| && Gives(Run(ops[..i], blank), ops[i], key, data, blank)
    && forall j :: i < j < |ops| ==> Spares(ops[j], key, data)
  }

  /** A key has the data just if an operation of the run gave it these and none since has
      touched it. */
  lemma {:induction false} RunMeaning<K, V>(ops: seq<Op<K, V>>, key: K, data: V, blank: V)
    ensures Has(Run(ops, blank), key, data) <==> exists i: nat :: Since(ops, i, key, data, blank)
  {
    if ops != [] {
      var n := |ops| - 1;
      RunMeaning(ops[..n], key, data, blank);
      StepMeaning(Run(ops[..n], blank), ops[n], key, data, blank);
      if i: nat :| Since(ops[..n], i, key, data, blank) {
        SinceFront(ops, i, key, data, blank);
      }
      if i: nat :| Since(ops, i, key, data, blank) && i < n {
        SinceFront(ops, i, key, data, blank);
      }
      assert Since(ops, n, key, data, blank) <==> Gives(Run(ops[..n], blank), ops[n], key, data, blank);
      hide Since, Gives, Spares, Step;
    }
  }

  ghost predicate Has<K, V>(m: map<K, V>, key: K, data: V) { key in m && m[key] == data }

  lemma SinceFront<K, V>(ops: seq<Op<K, V>>, i: nat, key: K, data: V, blank: V)
    requires i + 1 < |ops|
    ensures Since(ops, i, key, data, blank) <==>
            Since(ops[..|ops| - 1], i, key, data, blank) && Spares(ops[|ops| - 1], key, data)
  {
    assert ops[..|ops| - 1][..i] == ops[..i];
  }

  lemma StepMeaning<K, V>(m: map<K, V>, op: Op<K, V>, key: K, data: V, blank: V)
    ensures Has(Step(m, op, blank), key, data) <==>
            (Has(m, key, data) && Spares(op, key, data)) || Gives(m, op, key, data, blank)
  {
  }

  // ---------- hash_foreach with callbacks that delete the entry they are called for ----------

  function OnlySelf(n: nat, x: nat, drop: bool): Reply { Reply(if drop then [x] else [], false) }

  lemma {:induction false} SelfSwept(rest: seq<nat>, live: set<nat>, n: nat, cb: (nat, nat) -> Reply, drop: nat -> bool)
    requires NoDup(rest) && forall k, x :: cb(k, x) == OnlySelf(k, x, drop(x))
    ensures Sound(rest, live, n, cb)
    ensures forall x :: x in Swept(rest, live, n, cb).left <==> x in live && !(x in rest && drop(x))
  {
    if rest != [] {
      var x, later := rest[0], rest[1..];
      assert rest == [x] + later;
      Apart(x, later);
      var dels := cb(n, x).dels;
      SelfSwept(later, live, n, cb, drop);
      SelfSwept(later, live - Members(dels), n + 1, cb, drop);
    }
  }

  lemma MapLeft<K, V>(es0: seq<Entry<K, V>>, live0: set<nat>, es: seq<Entry<K, V>>, live: set<nat>,
                      drop: (K, V) -> bool)
    requires Indices(es0, live0) && Unique(es0, live0) && SameEntries(es0, es)
    requires forall x :: x in live <==> x in live0 && 0 <= x < |es0| && !drop(es0[x].key, es0[x].data)
    ensures Indices(es, live) && Unique(es, live) && MapOf(es, live) == Pruned(MapOf(es0, live0), drop)
  {
  }

  method Prune<K(==), V>(t: HashTable<K, V>, drop: (K, V) -> bool)
    requires t.Valid() && t.Idle()
    modifies t
    ensures t.Valid() && t.Idle() && t.Map() == Pruned(old(t.Map()), drop)
  {
    hide *;
    var es0 := t.es;
    ghost var live0 := t.live;
    var dropped := (x: nat) => x < |es0| && drop(es0[x].key, es0[x].data);
    var cb := (n: nat, x: nat) => OnlySelf(n, x, dropped(x));
    WholeMap(t);
    SelfLeft(t, cb, dropped);
    var _ := t.ForEach(cb);
    WholeMap(t);
    MapLeft(es0, live0, t.es, t.live, drop);
  }

  lemma WholeMap<K, V>(t: HashTable<K, V>)
    requires t.Valid() && t.Idle()
    ensures Indices(t.es, t.live) && Unique(t.es, t.live) && t.Map() == MapOf(t.es, t.live)
  {
    KnownMap(t.es, t.tab, t.chains, t.live, t.cleared);
    assert t.live - t.cleared == t.live;
  }

  /** With such callbacks the loop leaves what is not to be dropped. */
  lemma SelfLeft<K, V>(t: HashTable<K, V>, cb: (nat, nat) -> Reply, drop: nat -> bool)
    requires t.Valid() && forall k, x :: cb(k, x) == OnlySelf(k, x, drop(x))
    ensures Sound(Flat(t.chains), t.live, 0, cb)
    ensures forall x :: x in Swept(Flat(t.chains), t.live, 0, cb).left <==> x in t.live && !drop(x)
  {
    t.EachOnce();
    SelfSwept(Flat(t.chains), t.live, 0, cb, drop);
  }

  /** A table driven through any run holds what the run says. */
  method Drive<K(==), V>(ops: seq<Op<K, V>>, size: nat, hash: K -> nat, blank: V) returns (t: HashTable<K, V>)
    ensures fresh(t) && t.Valid() && t.Idle() && t.Map() == Run(ops, blank)
    ensures t.nelem == |Run(ops, blank)|
  {
    t := new HashTable(size, hash, blank);
    for k := 0 to |ops|
      invariant fresh(t) && t.Valid() && t.Idle() && t.blank == blank && t.Map() == Run(ops[..k], blank)
    {
      RunNext(ops, k, blank);
      Perform(t, ops[k]);
    }
    assert ops[..|ops|] == ops;
    t.Counted();
  }

  method Perform<K(==), V>(t: HashTable<K, V>, op: Op<K, V>)
    requires t.Valid() && t.Idle()
    modifies t
    ensures t.Valid() && t.Idle() && t.Map() == Step(old(t.Map()), op, t.blank)
  {
    hide *;
    StepIs(t.Map(), op, t.blank);
    match op
    case Add(key, data) =>
      var _ := t.Add(key, data);
    case LookAdd(key) =>
      var _ := t.LookAdd(key);
    case Del(key) =>
      t.Del(key);
    case Prune(drop) =>
      Prune(t, drop);
  }

  lemma StepIs<K, V>(m: map<K, V>, op: Op<K, V>, blank: V)
    ensures Step(m, op, blank) ==
            match op
            case Add(key, data) => m[key := data]
            case LookAdd(key) => (if key in m then m else m[key := blank])
            case Del(key) => m - {key}
            case Prune(drop) => Pruned(m, drop)
  {
  }
}
