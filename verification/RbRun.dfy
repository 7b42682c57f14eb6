/** Runs of puts and removals on the map of map.c, from the empty tree on. */
module RbRun {
  import opened RbShape
  import opened RbTree
  import opened RbAugment
  import opened Seqs

  type Buffers = map<int, seq<byte>>

  datatype Op = Put(key: int, val: seq<byte>, size: nat) | Remove(key: int)

  /** put reads `size` bytes for a new key; for one that is there it reads a string, which
      has to fit. */
  predicate Fits(m: Buffers, op: Op) {
    op.Put? ==> op.size <= |op.val| && (op.size != 0 && op.key in m ==> Holds(m[op.key], op.val))
  }

  function Step(m: Buffers, op: Op): Buffers {
    match op
    case Put(key, val, size) =>
      if size == 0 || !Fits(m, op) then m else m[key := Stored(m, key, val, size)]
    case Remove(key) => m - {key}
  }

  predicate Legal(ops: seq<Op>) { forall k :: 0 <= k < |ops| ==> Fits(Run(ops[..k]), ops[k]) }

  /** What a map holds after a run. */
  function Run(ops: seq<Op>): Buffers {
    if ops == [] then map[] else Step(Run(ops[..|ops| - 1]), ops[|ops| - 1])
  }

  lemma RunNext(ops: seq<Op>, k: nat)
    requires k < |ops|
    ensures Run(ops[..k + 1]) == Step(Run(ops[..k]), ops[k])
  {
    assert ops[..k + 1][..k] == ops[..k];
  }

  predicate Touches(op: Op, key: int) { op.key == key && (op.Put? ==> op.size != 0) }

  /** Operation `i` is the last one of the run that concerns `key`. */
  ghost predicate LastTouch(ops: seq<Op>, key: int, i: nat) {
    i < |ops| && Touches(ops[i], key) && forall j :: i < j < |ops| ==> !Touches(ops[j], key)
  }

  /** A key is held just if the last operation that concerns it put it, and then with the
      string that was put, if that was stored whole. */
  lemma {:induction false} RunMeaning(ops: seq<Op>, key: int)
    requires Legal(ops)
    ensures key in Run(ops) <==> exists i: nat :: LastTouch(ops, key, i) && ops[i].Put?
    ensures forall i: nat :: LastTouch(ops, key, i) && WholeString(ops[i]) ==>
              key in Run(ops) && 0 in Run(ops)[key] && Text(Run(ops)[key]) == Text(ops[i].val)
  {
    if ops != [] {
      var n := |ops| - 1;
      var before := ops[..n];
      assert forall k :: 0 <= k < n ==> before[..k] == ops[..k];
      RunMeaning(before, key);
      LastOne(ops, key);
      hide LastTouch, Step, Stored, Legal, WholeString;
      if Touches(ops[n], key) {
        StepMeaning(Run(before), ops[n]);
      } else {
        StepAside(Run(before), ops[n], key);
      }
    }
  }

  lemma LastOne(ops: seq<Op>, key: int)
    requires ops != []
    ensures var n := |ops| - 1;
            forall i: nat :: LastTouch(ops, key, i) <==>
              if Touches(ops[n], key) then i == n else i < n && LastTouch(ops[..n], key, i)
  {
  }

  lemma StepAside(m: Buffers, op: Op, key: int)
    requires Fits(m, op) && !Touches(op, key)
    ensures key in Step(m, op) <==> key in m
    ensures key in m ==> Step(m, op)[key] == m[key]
  {
    hide Holds, Stored;
  }

  predicate WholeString(op: Op) { op.Put? && op.size <= |op.val| && 0 in op.val[..op.size] }

  lemma StepMeaning(m: Buffers, op: Op)
    requires Fits(m, op) && Touches(op, op.key)
    ensures op.key in Step(m, op) <==> op.Put?
    ensures WholeString(op) ==> 0 in op.val && 0 in Step(m, op)[op.key] && Text(Step(m, op)[op.key]) == Text(op.val)
  {
    if WholeString(op) {
      var i :| 0 <= i < op.size && op.val[i] == 0;
      if op.key in m {
        CopiedText(m[op.key], op.val);
      } else {
        var n := StrLen(op.val);
        assert n <= i && op.val[..op.size][n] == 0;
        assert StrLen(op.val[..op.size]) == n;
      }
    }
  }

  lemma LessContents<V>(order: seq<nat>, order': seq<nat>, keys: seq<int>, vals: seq<V>, node: nat)
    requires KeySorted(keys, order) && KeySorted(keys, order') && |vals| == |keys| && Inserted(order', order, node)
    ensures node < |keys| && Contents(order', keys, vals) == Contents(order, keys, vals) - {keys[node]}
  {
    OtherKeys(keys, order', order, node);
    hide KeySorted, Inserted, Contents;
    WithOneMore(order', order, keys, vals, node);
    TakenOut(Contents(order, keys, vals), Contents(order', keys, vals), keys[node], vals[node]);
  }

  lemma TakenOut<V>(c: map<int, V>, c': map<int, V>, key: int, val: V)
    requires c == c'[key := val] && key !in c'
    ensures c' == c - {key}
  {
  }

  lemma WithOneMore<V>(from: seq<nat>, to: seq<nat>, keys: seq<int>, vals: seq<V>, node: nat)
    requires KeySorted(keys, from) && KeySorted(keys, to) && |vals| == |keys| && node < |keys| && Inserted(from, to, node)
    requires forall m :: m in from ==> m < |keys| && keys[m] != keys[node]
    ensures Contents(to, keys, vals) == Contents(from, keys, vals)[keys[node] := vals[node]]
    ensures keys[node] !in Contents(from, keys, vals)
  {
    KeysOf(from, keys, vals);
    hide KeySorted, Inserted, Contents;
    MoreContents(from, to, keys, vals, node, vals[node]);
    assert vals[node := vals[node]] == vals;
  }

  lemma OtherKeys(keys: seq<int>, from: seq<nat>, to: seq<nat>, x: nat)
    requires KeySorted(keys, to) && Inserted(from, to, x)
    ensures x < |keys| && forall m :: m in from ==> m < |keys| && keys[m] != keys[x]
  {
    var i :| 0 <= i <= |from| && to == from[..i] + [x] + from[i..];
    assert to[i] == x;
    forall m | m in from ensures m < |keys| && keys[m] != keys[x] {
      var j :| 0 <= j < |from| && from[j] == m;
      assert to[if j < i then j else j + 1] == m;
    }
  }

  /** A node that is not in the tree takes a key. */
  lemma NewKey<V>(order: seq<nat>, keys: seq<int>, vals: seq<V>, node: nat, key: int)
    requires KeySorted(keys, order) && |vals| == |keys| && node < |keys| && node !in order
    ensures KeySorted(keys[node := key], order)
    ensures Contents(order, keys[node := key], vals) == Contents(order, keys, vals)
  {
    var keys' := keys[node := key];
    KeptSorted(order, keys, keys');
    KeysOf(order, keys, vals);
    KeysOf(order, keys', vals);
    ValuesOf(order, keys, vals);
    ValuesOf(order, keys', vals);
    hide Contents, KeySorted;
  }

  lemma KeptSorted(order: seq<nat>, keys: seq<int>, keys': seq<int>)
    requires KeySorted(keys, order) && |keys'| == |keys|
    requires forall m :: m in order ==> m < |keys| && keys'[m] == keys[m]
    ensures KeySorted(keys', order)
  {
  }

  /** A map has as many keys as its tree has nodes. */
  lemma {:induction false} ContentsSize<V>(order: seq<nat>, keys: seq<int>, vals: seq<V>)
    requires KeySorted(keys, order) && |vals| == |keys|
    ensures |Contents(order, keys, vals)| == |order|
  {
    if order != [] {
      var n := |order| - 1;
      FrontSorted(keys, order);
      FrontContents(order, keys, vals);
      ContentsSize(order[..n], keys, vals);
    }
  }

  lemma FrontSorted(keys: seq<int>, order: seq<nat>)
    requires KeySorted(keys, order) && order != []
    ensures var n := |order| - 1;
            && KeySorted(keys, order[..n]) && order[n] < |keys| && Inserted(order[..n], order, order[n])
            && forall m :: m in order[..n] ==> m < |keys| && keys[m] < keys[order[n]]
  {
    var n := |order| - 1;
    assert order == order[..n][..n] + [order[n]] + order[..n][n..];
  }

  lemma FrontContents<V>(order: seq<nat>, keys: seq<int>, vals: seq<V>)
    requires KeySorted(keys, order) && |vals| == |keys| && order != []
    requires KeySorted(keys, order[..|order| - 1])
    ensures |Contents(order, keys, vals)| == |Contents(order[..|order| - 1], keys, vals)| + 1
  {
    FrontSorted(keys, order);
    hide KeySorted, Inserted, Contents;
    WithOneMore(order[..|order| - 1], order, keys, vals, order[|order| - 1]);
  }

  lemma SameNodes(from: seq<nat>, to: seq<nat>, x: nat)
    requires Inserted(from, to, x)
    ensures forall m :: m in to <==> m in from || m == x
  {
  }

  /** A search tree in which nodes up to `k` are in use holds `m`. */
  ghost predicate InUse(t: RbTree, keys: seq<int>, vals: array<seq<byte>>, m: Buffers, k: nat)
    reads t, vals
  {
    && t.Valid() && |keys| == |t.nodes| == vals.Length && KeySorted(keys, t.Order())
    && Contents(t.Order(), keys, vals[..]) == m && forall x :: x in t.Order() ==> x <= k
  }

  /** put with a node not used before. */
  method PutKey(t: RbTree, k: nat, key: int, keys0: seq<int>, vals: array<seq<byte>>, val: seq<byte>, size: nat,
                ghost m: Buffers)
      returns (keys: seq<int>)
    requires InUse(t, keys0, vals, m, k) && k + 1 < |keys0| && Fits(m, Put(key, val, size))
    modifies t, vals
    ensures InUse(t, keys, vals, Step(m, Put(key, val, size)), k + 1) && |keys| == |keys0|
  {
    hide KeySorted, Contents, Inserted, Rep, IsRedBlack, Holds, Stored;
    ghost var order := t.Order();
    NewKey(order, keys0, vals[..], k + 1, key);
    keys := keys0[k + 1 := key];
    var added := t.Put(k + 1, keys, vals, val, size);
    if added { SameNodes(order, t.Order(), k + 1); }
  }

  /** rb_erase of the node that get finds. */
  method RemoveKey(t: RbTree, k: nat, key: int, keys: seq<int>, vals: array<seq<byte>>, ghost m: Buffers)
    requires InUse(t, keys, vals, m, k) && |keys| > 0
    modifies t
    ensures InUse(t, keys, vals, Step(m, Remove(key)), k)
  {
    hide KeySorted, Contents, Inserted, Rep, IsRedBlack, Cov, EraseStartOf, Ids;
    ghost var order := t.Order();
    var found := t.Get(key, keys);
    KeysOf(order, keys, vals[..]);
    if found != 0 {
      InorderIds(t.tree);
      t.Erase(found);
      RemovalSorted(keys, order, t.Order(), found);
      LessContents(order, t.Order(), keys, vals[..], found);
      SameNodes(t.Order(), order, found);
    }
  }

  method Perform(t: RbTree, k: nat, op: Op, keys0: seq<int>, vals: array<seq<byte>>, ghost m: Buffers)
      returns (keys: seq<int>)
    requires InUse(t, keys0, vals, m, k) && k + 1 < |keys0| && Fits(m, op)
    modifies t, vals
    ensures InUse(t, keys, vals, Step(m, op), k + 1) && |keys| == |keys0|
  {
    hide InUse;
    match op
    case Put(key, val, size) =>
      keys := PutKey(t, k, key, keys0, vals, val, size, m);
    case Remove(key) =>
      keys := keys0;
      RemoveKey(t, k, key, keys, vals, m);
      MoreInUse(t, keys, vals, Step(m, op), k);
  }

  /** RB_ROOT, `n` nodes and room for their keys and values. */
  method Start(n: nat) returns (t: RbTree, keys: seq<int>, vals: array<seq<byte>>)
    ensures fresh(t) && fresh(vals) && InUse(t, keys, vals, map[], 0) && |keys| == n + 1
  {
    t := new RbTree(n);
    keys := seq(n + 1, _ => 0);
    vals := new seq<byte>[n + 1](_ => []);
  }

  /** A tree driven through any run, each put with a node of its own, is a red-black search tree
      that holds what the run says and is at most logarithmically high. */
  method Drive(ops: seq<Op>) returns (t: RbTree, keys: seq<int>, vals: array<seq<byte>>)
    requires Legal(ops)
    ensures fresh(t) && fresh(vals) && t.Valid()
    ensures |keys| == |t.nodes| == vals.Length && KeySorted(keys, t.Order())
    ensures Contents(t.Order(), keys, vals[..]) == Run(ops) && |t.Order()| == |Run(ops)|
    ensures Pow2(Height(t.tree)) <= (|Run(ops)| + 1) * (|Run(ops)| + 1)
  {
    t, keys, vals := Start(|ops|);
    hide InUse, Run, Step;
    for k := 0 to |ops|
      invariant fresh(t) && fresh(vals) && |keys| == |ops| + 1
      invariant InUse(t, keys, vals, Run(ops[..k]), k)
    {
      RunNext(ops, k);
      keys := Perform(t, k, ops[k], keys, vals, Run(ops[..k]));
    }
    assert ops[..|ops|] == ops;
    Finish(t, keys, vals, Run(ops), |ops|);
  }

  lemma Finish(t: RbTree, keys: seq<int>, vals: array<seq<byte>>, m: Buffers, k: nat)
    requires InUse(t, keys, vals, m, k)
    ensures t.Valid() && |keys| == |t.nodes| == vals.Length && KeySorted(keys, t.Order())
    ensures Contents(t.Order(), keys, vals[..]) == m && |t.Order()| == |m|
    ensures Pow2(Height(t.tree)) <= (|m| + 1) * (|m| + 1)
  {
    ContentsSize(t.Order(), keys, vals[..]);
    HeightBound(t.tree);
  }

  lemma MoreInUse(t: RbTree, keys: seq<int>, vals: array<seq<byte>>, m: Buffers, k: nat)
    requires InUse(t, keys, vals, m, k)
    ensures InUse(t, keys, vals, m, k + 1)
  {
  }
}
