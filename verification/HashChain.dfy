/** timerfd_hash.c: bucket chains as values. Entries are numbered; NULL is -1. */
module HashChain {

  import opened Links
  import opened Seqs

  /** struct hash_iter */
  datatype Entry<K, V> = Entry(key: K, data: V, hkey: nat, next: int, prev: int)

  /** Entry `c[j]` is in its bucket, linked to its neighbours in the chain. */
  predicate Linked<K, V>(es: seq<Entry<K, V>>, size: nat, h: nat, c: seq<nat>, j: nat)
    requires j < |c| && size > 0
  {
    && 0 <= c[j] < |es|
    && es[c[j]].hkey % size == h
    && es[c[j]].next == NextOf(c, j)
    && es[c[j]].prev == PrevOf(c, j)
  }

  ghost predicate Bucket<K, V>(es: seq<Entry<K, V>>, size: nat, h: nat, head: int, c: seq<nat>)
    requires size > 0
  {
    head == Head(c) && NoDup(c) && forall j: nat :: j < |c| ==> Linked(es, size, h, c, j)
  }

  /** The bucket an entry belongs to. */
  function Home<K, V>(es: seq<Entry<K, V>>, size: nat, x: nat): (h: nat)
    requires 0 <= x < |es| && size > 0
    ensures h < size
  {
    es[x].hkey % size
  }

  ghost predicate Buckets<K, V>(es: seq<Entry<K, V>>, tab: seq<int>, chains: seq<seq<nat>>) {
    && |chains| == |tab| > 0
    && forall h: nat :: h < |tab| ==> Bucket(es, |tab|, h, tab[h], chains[h])
  }

  ghost predicate InHome<K, V>(es: seq<Entry<K, V>>, chains: seq<seq<nat>>, x: nat) {
    |chains| > 0 && 0 <= x < |es| && x in chains[Home(es, |chains|, x)]
  }

  /** The entries in the chains are `live`. */
  ghost predicate Live<K, V>(es: seq<Entry<K, V>>, chains: seq<seq<nat>>, live: set<nat>) {
    && (forall x :: x in live ==> InHome(es, chains, x))
    && forall h: nat, j: nat :: h < |chains| && j < |chains[h]| ==> chains[h][j] in live
  }

  /** No key twice. */
  ghost predicate Unique<K, V>(es: seq<Entry<K, V>>, live: set<nat>) {
    forall x, y :: x in live && y in live && 0 <= x < |es| && 0 <= y < |es| && es[x].key == es[y].key ==> x == y
  }

  /** A table: chains in the buckets, and every live entry in the chain of its hash. */
  ghost predicate Table<K, V>(es: seq<Entry<K, V>>, tab: seq<int>, chains: seq<seq<nat>>, live: set<nat>) {
    Buckets(es, tab, chains) && Live(es, chains, live)
  }

  // ---------- pushing an entry onto its bucket ----------

  function Push<K, V>(es: seq<Entry<K, V>>, tab: seq<int>, x: nat): (r: seq<Entry<K, V>>)
    requires 0 <= x < |es| && |tab| > 0
    ensures |r| == |es|
  {
    var head := tab[Home(es, |tab|, x)];
    var pushed := es[x := es[x].(next := head, prev := NULL)];
    if 0 <= head < |es| then pushed[head := pushed[head].(prev := x)] else pushed
  }

  lemma PushBucket<K, V>(es: seq<Entry<K, V>>, tab: seq<int>, c: seq<nat>, x: nat)
    requires 0 <= x < |es| && |tab| > 0 && x !in c
    requires var h := Home(es, |tab|, x); Bucket(es, |tab|, h, tab[h], c)
    ensures Bucket(Push(es, tab, x), |tab|, Home(es, |tab|, x), x, [x] + c)
  {
    var h := Home(es, |tab|, x);
    var c', es' := [x] + c, Push(es, tab, x);
    if c != [] {
      assert Linked(es, |tab|, h, c, 0);
    }
    forall j: nat | j < |c'| ensures Linked(es', |tab|, h, c', j) {
      if j > 0 {
        assert Linked(es, |tab|, h, c, j - 1);
        assert j == 1 || (c[j - 1] != c[0] && c'[j - 1] == c[j - 2]);
      }
    }
  }

  /** Entries of other buckets do not change. */
  lemma PushElsewhere<K, V>(es: seq<Entry<K, V>>, tab: seq<int>, chains: seq<seq<nat>>, x: nat, h: nat)
    requires Buckets(es, tab, chains) && 0 <= x < |es| && h < |tab| && h != Home(es, |tab|, x)
    ensures Bucket(Push(es, tab, x), |tab|, h, tab[h], chains[h])
  {
    var hx, c, es' := Home(es, |tab|, x), chains[h], Push(es, tab, x);
    if chains[hx] != [] {
      assert Linked(es, |tab|, hx, chains[hx], 0);
    }
    assert Bucket(es, |tab|, h, tab[h], c);
    forall j: nat | j < |c| ensures Linked(es', |tab|, h, c, j) {
      assert Linked(es, |tab|, h, c, j);
    }
  }

  /** Keys, data and hashes are not touched, nor are entries outside the table and `x`. */
  ghost predicate SameEntries<K, V>(es: seq<Entry<K, V>>, es': seq<Entry<K, V>>) {
    && |es'| == |es|
    && forall x :: 0 <= x < |es| ==> es'[x].key == es[x].key && es'[x].data == es[x].data && es'[x].hkey == es[x].hkey
  }

  lemma PushSame<K, V>(es: seq<Entry<K, V>>, tab: seq<int>, chains: seq<seq<nat>>, live: set<nat>, x: nat)
    requires Table(es, tab, chains, live) && 0 <= x < |es|
    ensures SameEntries(es, Push(es, tab, x))
    ensures forall y :: 0 <= y < |es| && y !in live && y != x ==> Push(es, tab, x)[y] == es[y]
  {
    var h := Home(es, |tab|, x);
    assert Bucket(es, |tab|, h, tab[h], chains[h]);
    if chains[h] != [] {
      assert chains[h][0] in live;
    }
  }

  lemma PushTable<K, V>(es: seq<Entry<K, V>>, tab: seq<int>, chains: seq<seq<nat>>, live: set<nat>, x: nat)
    requires Table(es, tab, chains, live) && 0 <= x < |es| && x !in live
    ensures var h := Home(es, |tab|, x);
            Table(Push(es, tab, x), tab[h := x], chains[h := [x] + chains[h]], live + {x})
  {
    var h := Home(es, |tab|, x);
    PushSame(es, tab, chains, live, x);
    forall j: nat | j < |chains[h]| ensures chains[h][j] != x { assert chains[h][j] in live; }
    hide Push, Bucket;
    PushBuckets(es, tab, chains, x);
    PushLive(es, Push(es, tab, x), chains, live, x, h);
    hide Buckets, Live;
  }

  lemma PushBuckets<K, V>(es: seq<Entry<K, V>>, tab: seq<int>, chains: seq<seq<nat>>, x: nat)
    requires Buckets(es, tab, chains) && 0 <= x < |es| && x !in chains[Home(es, |tab|, x)]
    ensures var h := Home(es, |tab|, x);
            Buckets(Push(es, tab, x), tab[h := x], chains[h := [x] + chains[h]])
  {
    hide Push, Bucket;
    var h := Home(es, |tab|, x);
    PushBucket(es, tab, chains[h], x);
    forall g: nat | g < |tab| && g != h ensures Bucket(Push(es, tab, x), |tab|, g, tab[g], chains[g]) {
      PushElsewhere(es, tab, chains, x, g);
    }
  }

  lemma PushLive<K, V>(es: seq<Entry<K, V>>, es': seq<Entry<K, V>>, chains: seq<seq<nat>>, live: set<nat>, x: nat, h: nat)
    requires |chains| > 0 && SameEntries(es, es') && Live(es, chains, live) && 0 <= x < |es| && h == Home(es, |chains|, x)
    ensures Live(es', chains[h := [x] + chains[h]], live + {x})
  {
    var chains' := chains[h := [x] + chains[h]];
    forall y | y in live + {x} ensures InHome(es', chains', y) {
      assert y == x || InHome(es, chains, y);
      if y == x {
        assert chains'[h][0] == x;
      } else if Home(es, |chains|, y) == h {
        var j :| 0 <= j < |chains[h]| && chains[h][j] == y;
        assert chains'[h][j + 1] == y;
      }
    }
  }

  // ---------- taking an entry out ----------

  function Unlink<K, V>(es: seq<Entry<K, V>>, x: nat): (r: seq<Entry<K, V>>)
    requires 0 <= x < |es|
    ensures |r| == |es|
  {
    var e := es[x];
    var next := if 0 <= e.next < |es| then es[e.next := es[e.next].(prev := e.prev)] else es;
    if 0 <= e.prev < |es| then next[e.prev := next[e.prev].(next := e.next)] else next
  }

  lemma UnlinkBucket<K, V>(es: seq<Entry<K, V>>, size: nat, h: nat, head: int, c: seq<nat>, k: nat)
    requires size > 0 && Bucket(es, size, h, head, c) && k < |c| && 0 <= c[k] < |es|
    ensures Bucket(Unlink(es, c[k]), size, h, if es[c[k]].prev == NULL then es[c[k]].next else head, Cut(c, k))
  {
    var c', es' := Cut(c, k), Unlink(es, c[k]);
    assert Linked(es, size, h, c, k);
    if k > 0 { assert Linked(es, size, h, c, k - 1); }
    if k + 1 < |c| { assert Linked(es, size, h, c, k + 1); }
    forall j: nat | j < |c'| ensures Linked(es', size, h, c', j) {
      var i := if j < k then j else j + 1;
      assert Linked(es, size, h, c, i) && c'[j] == c[i];
      UnlinkNeighbours(es, size, h, c, k, i);
    }
  }

  lemma UnlinkNeighbours<K, V>(es: seq<Entry<K, V>>, size: nat, h: nat, c: seq<nat>, k: nat, i: nat)
    requires size > 0 && NoDup(c) && k < |c| && i < |c| && i != k
    requires forall j: nat :: j < |c| ==> Linked(es, size, h, c, j)
    ensures 0 <= c[k] < |es| && 0 <= c[i] < |es|
    ensures Unlink(es, c[k])[c[i]] ==
            es[c[i]].(next := if i + 1 == k then NextOf(c, k) else NextOf(c, i),
                      prev := if i == k + 1 then PrevOf(c, k) else PrevOf(c, i))
  {
    assert Linked(es, size, h, c, k) && Linked(es, size, h, c, i);
    if k > 0 { assert Linked(es, size, h, c, k - 1); }
    if k + 1 < |c| { assert Linked(es, size, h, c, k + 1); }
  }

  lemma UnlinkSame<K, V>(es: seq<Entry<K, V>>, x: nat)
    requires 0 <= x < |es|
    ensures SameEntries(es, Unlink(es, x))
  {
  }

  lemma UnlinkElsewhere<K, V>(es: seq<Entry<K, V>>, tab: seq<int>, chains: seq<seq<nat>>, k: nat, h: nat, g: nat)
    requires Buckets(es, tab, chains) && h < |tab| && g < |tab| && g != h && k < |chains[h]|
    ensures 0 <= chains[h][k] < |es| && Bucket(Unlink(es, chains[h][k]), |tab|, g, tab[g], chains[g])
  {
    var c := chains[h];
    assert Bucket(es, |tab|, h, tab[h], c);
    assert Linked(es, |tab|, h, c, k);
    if k > 0 { assert Linked(es, |tab|, h, c, k - 1); }
    if k + 1 < |c| { assert Linked(es, |tab|, h, c, k + 1); }
    assert Bucket(es, |tab|, g, tab[g], chains[g]);
    forall j: nat | j < |chains[g]| ensures Linked(Unlink(es, c[k]), |tab|, g, chains[g], j) {
      assert Linked(es, |tab|, g, chains[g], j);
    }
  }

  lemma UnlinkTable<K, V>(es: seq<Entry<K, V>>, tab: seq<int>, chains: seq<seq<nat>>, live: set<nat>, h: nat, k: nat)
    requires Table(es, tab, chains, live) && h < |tab| && k < |chains[h]|
    ensures var x := chains[h][k];
            && 0 <= x < |es| && Home(es, |tab|, x) == h && x in live
            && Table(Unlink(es, x), tab[h := if es[x].prev == NULL then es[x].next else tab[h]],
                     chains[h := Cut(chains[h], k)], live - {x})
  {
    var x := chains[h][k];
    assert Bucket(es, |tab|, h, tab[h], chains[h]);
    assert Linked(es, |tab|, h, chains[h], k);
    var es', chains' := Unlink(es, x), chains[h := Cut(chains[h], k)];
    var tab' := tab[h := if es[x].prev == NULL then es[x].next else tab[h]];
    UnlinkSame(es, x);
    forall g: nat | g < |tab| ensures Bucket(es', |tab|, g, tab'[g], chains'[g]) {
      if g == h {
        UnlinkBucket(es, |tab|, h, tab[h], chains[h], k);
      } else {
        UnlinkElsewhere(es, tab, chains, k, h, g);
      }
    }
    hide Unlink;
    UnlinkLive(es, es', tab, chains, live, h, k);
  }

  lemma UnlinkLive<K, V>(es: seq<Entry<K, V>>, es': seq<Entry<K, V>>, tab: seq<int>, chains: seq<seq<nat>>,
                         live: set<nat>, h: nat, k: nat)
    requires Buckets(es, tab, chains) && Live(es, chains, live) && SameEntries(es, es') && h < |tab| && k < |chains[h]|
    ensures Live(es', chains[h := Cut(chains[h], k)], live - {chains[h][k]})
  {
    var x, c := chains[h][k], chains[h];
    var chains', c' := chains[h := Cut(c, k)], Cut(c, k);
    hide Bucket, Linked, Buckets;
    forall y | y in live - {x} ensures InHome(es', chains', y) {
      assert InHome(es, chains, y);
      if Home(es, |tab|, y) == h {
        var j :| 0 <= j < |c| && c[j] == y;
        assert c'[if j < k then j else j - 1] == y;
      }
    }
    forall g: nat, j: nat | g < |chains'| && j < |chains'[g]| ensures chains'[g][j] in live - {x} {
      CutMember(es, tab, chains, live, h, k, g, j);
    }
  }

  lemma CutMember<K, V>(es: seq<Entry<K, V>>, tab: seq<int>, chains: seq<seq<nat>>, live: set<nat>, h: nat, k: nat,
                        g: nat, j: nat)
    requires Buckets(es, tab, chains) && Live(es, chains, live) && h < |tab| && k < |chains[h]| && g < |tab|
    requires var chains' := chains[h := Cut(chains[h], k)]; j < |chains'[g]|
    ensures var chains' := chains[h := Cut(chains[h], k)]; chains'[g][j] in live - {chains[h][k]}
  {
    var c, chains' := chains[h], chains[h := Cut(chains[h], k)];
    var i := if g == h then (if j < k then j else j + 1) else j;
    assert chains'[g][j] == chains[g][i];
    assert Bucket(es, |tab|, h, tab[h], c) && Bucket(es, |tab|, g, tab[g], chains[g]);
    assert chains[g][i] in live;
    hide Live, Buckets;
    assert Linked(es, |tab|, h, c, k) && Linked(es, |tab|, g, chains[g], i);
    assert chains[g][i] != c[k];
  }

  // ---------- the finite map ----------

  ghost predicate Indices<K, V>(es: seq<Entry<K, V>>, live: set<nat>) { forall x :: x in live ==> 0 <= x < |es| }

  /** What the table maps its keys to. */
  ghost function MapOf<K, V>(es: seq<Entry<K, V>>, live: set<nat>): map<K, V>
    requires Indices(es, live) && Unique(es, live)
  {
    map x | x in live :: es[x].key := es[x].data
  }

  lemma {:induction false} MapSize<K, V>(es: seq<Entry<K, V>>, live: set<nat>)
    requires Indices(es, live) && Unique(es, live)
    ensures |MapOf(es, live)| == |live|
    decreases |live|
  {
    if x :| x in live {
      MapSize(es, live - {x});
      assert live - {x} + {x} == live;
      MapPlus(es, live - {x}, x);
    } else {
      assert live == {} && MapOf(es, live) == map[];
    }
  }

  lemma MapPlus<K, V>(es: seq<Entry<K, V>>, live: set<nat>, x: nat)
    requires Indices(es, live + {x}) && Unique(es, live + {x}) && x !in live
    ensures Indices(es, live) && Unique(es, live) && es[x].key !in MapOf(es, live)
    ensures MapOf(es, live + {x}) == MapOf(es, live)[es[x].key := es[x].data]
  {
    var all := live + {x};
    assert Indices(es, live) && Unique(es, live);
    var m, n := MapOf(es, all), MapOf(es, live)[es[x].key := es[x].data];
    forall k | k in m ensures k in n && n[k] == m[k] {
      var y: nat :| y in all && es[y].key == k;
      Maps(es, all, y);
      if y != x { Maps(es, live, y); }
    }
    forall k | k in n ensures k in m {
      Maps(es, all, x);
      if k != es[x].key {
        var y: nat :| y in live && es[y].key == k;
        Maps(es, all, y);
      }
    }
  }

  lemma Maps<K, V>(es: seq<Entry<K, V>>, live: set<nat>, x: nat)
    requires Indices(es, live) && Unique(es, live) && x in live
    ensures es[x].key in MapOf(es, live) && MapOf(es, live)[es[x].key] == es[x].data
  {
  }

  lemma MapMinus<K, V>(es: seq<Entry<K, V>>, live: set<nat>, x: nat)
    requires Indices(es, live) && Unique(es, live) && x in live
    ensures MapOf(es, live - {x}) == MapOf(es, live) - {es[x].key}
  {
    assert live - {x} + {x} == live;
    MapPlus(es, live - {x}, x);
    hide MapOf, Unique;
    AddThenRemove(MapOf(es, live - {x}), es[x].key, es[x].data);
  }

  lemma AddThenRemove<K, V>(m: map<K, V>, k: K, v: V)
    requires k !in m
    ensures m[k := v] - {k} == m
  {
  }

  lemma MapSame<K, V>(es: seq<Entry<K, V>>, es': seq<Entry<K, V>>, live: set<nat>)
    requires SameEntries(es, es') && Indices(es, live) && Unique(es, live)
    ensures Unique(es', live) && MapOf(es', live) == MapOf(es, live)
  {
  }

  // ---------- the order of iteration ----------

  /** Bucket after bucket. */
  function Flat(chains: seq<seq<nat>>): seq<nat> {
    if chains == [] then [] else chains[0] + Flat(chains[1..])
  }

  lemma {:induction false} FlatSplit(chains: seq<seq<nat>>, h: nat)
    requires h < |chains|
    ensures Flat(chains) == Flat(chains[..h]) + chains[h] + Flat(chains[h + 1..])
  {
    if h == 0 {
      assert Flat(chains[..0]) == [];
    } else {
      FlatSplit(chains[1..], h - 1);
      assert chains[..h][1..] == chains[1..][..h - 1] && chains[1..][h..] == chains[h + 1..];
    }
  }

  /** The first entry in bucket `i` or later, as the loops of hash_begin and hash_iter_next
      find it. */
  lemma {:induction false} FirstOfFlat(chains: seq<seq<nat>>, i: nat, k: nat)
    requires i <= k <= |chains| && forall h :: i <= h < k ==> chains[h] == []
    ensures k < |chains| && chains[k] != [] ==> Head(Flat(chains[i..])) == chains[k][0]
    ensures k == |chains| ==> Flat(chains[i..]) == []
    decreases k - i
  {
    if i < k {
      FirstOfFlat(chains, i + 1, k);
      assert chains[i..][1..] == chains[i + 1..];
    } else if k < |chains| {
      assert chains[i..][0] == chains[k];
    }
  }

  /** Every live entry comes up exactly once. */
  lemma {:induction false} FlatOnce<K, V>(es: seq<Entry<K, V>>, tab: seq<int>, chains: seq<seq<nat>>, live: set<nat>,
                                          i: nat)
    requires Table(es, tab, chains, live) && i <= |chains|
    ensures NoDup(Flat(chains[i..]))
    ensures forall x :: x in Flat(chains[i..]) <==> x in live && 0 <= x < |es| && Home(es, |tab|, x) >= i
    decreases |chains| - i
  {
    if i < |chains| {
      FlatOnce(es, tab, chains, live, i + 1);
      assert chains[i..][1..] == chains[i + 1..];
      ChainMembers(es, tab, chains, live, i);
      var rest := Flat(chains[i + 1..]);
      assert Flat(chains[i..]) == chains[i] + rest;
      hide Table, Flat;
      assert forall j, k :: 0 <= j < |chains[i]| && 0 <= k < |rest| ==> chains[i][j] != rest[k] by {
        forall j, k | 0 <= j < |chains[i]| && 0 <= k < |rest| ensures chains[i][j] != rest[k] {
          assert rest[k] in rest;
          assert chains[i][j] in chains[i];
        }
      }
    }
  }

  lemma ChainMembers<K, V>(es: seq<Entry<K, V>>, tab: seq<int>, chains: seq<seq<nat>>, live: set<nat>, h: nat)
    requires Table(es, tab, chains, live) && h < |chains|
    ensures NoDup(chains[h])
    ensures forall x :: x in chains[h] <==> x in live && 0 <= x < |es| && Home(es, |tab|, x) == h
  {
    assert Bucket(es, |tab|, h, tab[h], chains[h]);
    forall x | x in chains[h] ensures x in live && 0 <= x < |es| && Home(es, |tab|, x) == h {
      var j: nat :| j < |chains[h]| && chains[h][j] == x;
      assert Linked(es, |tab|, h, chains[h], j);
    }
    forall x | x in live && 0 <= x < |es| && Home(es, |tab|, x) == h ensures x in chains[h] {
      assert InHome(es, chains, x);
    }
  }
}
