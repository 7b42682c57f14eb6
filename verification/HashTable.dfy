/** timerfd_hash.c: the growing table, against a finite map. */
module HashTable {
  import opened HashChain
  import opened HashSweep
  import opened Links
  import opened Seqs

  const DEFAULT_SIZE: nat := 10

  /** How many buckets a table has room for one entry more with. */
  function Roomy(nelem: nat, size: nat): nat { if nelem > 2 * size then 4 * size else size }

  // ---------- rehashing as values ----------

  /** Buckets below `i`, and the first `j` entries of bucket `i`, have been moved to the new
      table; the others are as they were. */
  ghost predicate Progress<K, V>(es0: seq<Entry<K, V>>, tab: seq<int>, chains: seq<seq<nat>>, live: set<nat>,
                                 es: seq<Entry<K, V>>, newTab: seq<int>, newChains: seq<seq<nat>>, moved: set<nat>,
                                 i: nat, j: nat) {
    && Table(es0, tab, chains, live) && Table(es, newTab, newChains, moved) && SameEntries(es0, es)
    && Moved(es0, chains, live, moved, i, j)
    && forall x: nat :: x < |es| && x !in moved ==> es[x] == es0[x]
  }

  ghost predicate Moved<K, V>(es0: seq<Entry<K, V>>, chains: seq<seq<nat>>, live: set<nat>, moved: set<nat>, i: nat,
                              j: nat) {
    && |chains| > 0 && i <= |chains| && (if i < |chains| then j <= |chains[i]| else j == 0)
    && forall x: nat :: x in moved <==> x in live && x < |es0| && Passed(es0, chains, x, i, j)
  }

  predicate Passed<K, V>(es0: seq<Entry<K, V>>, chains: seq<seq<nat>>, x: nat, i: nat, j: nat)
    requires |chains| > 0 && x < |es0|
  {
    var h := Home(es0, |chains|, x);
    h < i || (h == i < |chains| && j <= |chains[i]| && x in chains[i][..j])
  }

  predicate AllEmpty(newTab: seq<int>, newChains: seq<seq<nat>>) {
    |newTab| == |newChains| && forall h: nat :: h < |newTab| ==> newTab[h] == NULL && newChains[h] == []
  }

  function EmptyTab(size: nat): (newTab: seq<int>)
    ensures |newTab| == size && forall h: nat :: h < size ==> newTab[h] == NULL
  {
    seq(size, _ => NULL)
  }

  ghost function EmptyChains(size: nat): (newChains: seq<seq<nat>>)
    ensures |newChains| == size && forall h: nat :: h < size ==> newChains[h] == []
  {
    seq(size, _ => [])
  }

  lemma StartMoving<K, V>(es: seq<Entry<K, V>>, tab: seq<int>, chains: seq<seq<nat>>, live: set<nat>, newTab: seq<int>,
                          newChains: seq<seq<nat>>)
    requires Table(es, tab, chains, live) && |newTab| > 0 && AllEmpty(newTab, newChains)
    ensures Progress(es, tab, chains, live, es, newTab, newChains, {}, 0, 0)
  {
    EmptyTable(es, newTab, newChains);
  }

  lemma EmptyBucket<K, V>(es: seq<Entry<K, V>>, size: nat, h: nat)
    requires size > 0
    ensures Bucket(es, size, h, NULL, [])
  {
  }

  /** The entry the inner loop is at, and where it goes next. */
  lemma AtEntry<K, V>(es0: seq<Entry<K, V>>, tab: seq<int>, chains: seq<seq<nat>>, live: set<nat>,
                      es: seq<Entry<K, V>>, newTab: seq<int>, newChains: seq<seq<nat>>, moved: set<nat>, i: nat, j: nat)
    requires Progress(es0, tab, chains, live, es, newTab, newChains, moved, i, j) && i < |tab| && j < |chains[i]|
    ensures var p := chains[i][j];
            && p < |es| && p in live && p !in moved && es[p] == es0[p] && Home(es0, |tab|, p) == i
            && es[p].next == NextOf(chains[i], j)
  {
    assert Bucket(es0, |tab|, i, tab[i], chains[i]);
    assert Linked(es0, |tab|, i, chains[i], j);
    var p := chains[i][j];
    assert forall k :: 0 <= k < j ==> chains[i][..j][k] != p;
  }

  lemma MoveOne<K, V>(es0: seq<Entry<K, V>>, tab: seq<int>, chains: seq<seq<nat>>, live: set<nat>,
                      es: seq<Entry<K, V>>, newTab: seq<int>, newChains: seq<seq<nat>>, moved: set<nat>, i: nat, j: nat,
                      p: nat)
    requires i < |tab| == |chains| && j < |chains[i]| && p == chains[i][j] < |es| && |newTab| == |newChains| > 0
    requires Progress(es0, tab, chains, live, es, newTab, newChains, moved, i, j)
    ensures var h := Home(es, |newTab|, p);
            Progress(es0, tab, chains, live, Push(es, newTab, p), newTab[h := p],
                     newChains[h := [p] + newChains[h]], moved + {p}, i, j + 1)
  {
    AtEntry(es0, tab, chains, live, es, newTab, newChains, moved, i, j);
    MovedOne(es0, chains, live, moved, i, j);
    hide Bucket, Buckets, Live, Moved, Push, SameEntries;
    PushTable(es, newTab, newChains, moved, p);
    PushSame(es, newTab, newChains, moved, p);
    hide Table;
    SameTwice(es0, es, Push(es, newTab, p));
  }

  lemma SameTwice<K, V>(es0: seq<Entry<K, V>>, es1: seq<Entry<K, V>>, es2: seq<Entry<K, V>>)
    requires SameEntries(es0, es1) && SameEntries(es1, es2)
    ensures SameEntries(es0, es2)
  {
  }

  lemma MovedOne<K, V>(es0: seq<Entry<K, V>>, chains: seq<seq<nat>>, live: set<nat>, moved: set<nat>, i: nat, j: nat)
    requires Moved(es0, chains, live, moved, i, j) && i < |chains| && j < |chains[i]|
    requires var p := chains[i][j]; p in live && p < |es0| && Home(es0, |chains|, p) == i
    ensures Moved(es0, chains, live, moved + {chains[i][j]}, i, j + 1) && moved <= live
  {
    assert chains[i][..j + 1] == chains[i][..j] + [chains[i][j]];
  }

  lemma NextBucket<K, V>(es0: seq<Entry<K, V>>, tab: seq<int>, chains: seq<seq<nat>>, live: set<nat>,
                         es: seq<Entry<K, V>>, newTab: seq<int>, newChains: seq<seq<nat>>, moved: set<nat>, i: nat)
    requires i < |tab| == |chains|
    requires Progress(es0, tab, chains, live, es, newTab, newChains, moved, i, |chains[i]|)
    ensures Progress(es0, tab, chains, live, es, newTab, newChains, moved, i + 1, 0)
  {
    assert chains[i][..|chains[i]|] == chains[i];
    forall x: nat | x in live && x < |es0|
      ensures Passed(es0, chains, x, i, |chains[i]|) <==> Passed(es0, chains, x, i + 1, 0)
    {
      assert InHome(es0, chains, x);
    }
    hide Table, Passed;
  }

  lemma AllMoved<K, V>(es0: seq<Entry<K, V>>, tab: seq<int>, chains: seq<seq<nat>>, live: set<nat>,
                       es: seq<Entry<K, V>>, newTab: seq<int>, newChains: seq<seq<nat>>, moved: set<nat>)
    requires Progress(es0, tab, chains, live, es, newTab, newChains, moved, |tab|, 0)
    ensures Table(es, newTab, newChains, live) && SameEntries(es0, es)
  {
    forall x | x in live ensures x in moved { assert InHome(es0, chains, x); }
    assert moved == live;
  }

  // ---------- the table ----------

  class HashTable<K(==), V> {
    const hash: K -> nat
    /** What a new entry's data are before they are set. */
    const blank: V
    var es: seq<Entry<K, V>>
    var tab: seq<int>
    var nelem: nat
    /** Which entries hash_foreach is at: the field of that name of every entry. */
    var foreach: seq<bool>
    /** Entries whose key and data hash_iter_del has set to NULL, and that are still in a chain. */
    var cleared: set<nat>
    ghost var chains: seq<seq<nat>>
    ghost var live: set<nat>

    ghost predicate Valid()
      reads this
    {
      && Table(es, tab, chains, live) && nelem == |live| && nelem <= 2 * |tab| + 1
      && Hashed(es, live, hash) && |foreach| == |es|
      && cleared <= live && Unique(es, live - cleared)
    }

    ghost function Map(): map<K, V>
      requires Valid()
      reads this
    {
      LiveIndices(es, tab, chains, live);
      MapOf(es, live - cleared)
    }

    /** No hash_foreach is under way. */
    ghost predicate Idle()
      reads this
    {
      Unmarked(foreach) && cleared == {}
    }

    /** hash_new */
    constructor (size: nat, hash: K -> nat, blank: V)
      ensures Valid() && Map() == map[] && nelem == 0 && this.hash == hash && this.blank == blank
      ensures Idle() && |tab| == if size == 0 then DEFAULT_SIZE else size
    {
      var n := if size == 0 then DEFAULT_SIZE else size;
      this.hash, this.blank := hash, blank;
      es, tab, nelem, chains, live := [], EmptyTab(n), 0, EmptyChains(n), {};
      foreach, cleared := [], {};
      new;
      EmptyTable(es, tab, chains);
    }

    /** hash_lookup */
    method Lookup(key: K) returns (p: int)
      requires Valid()
      ensures if key in Map()
              then 0 <= p < |es| && p in live - cleared && es[p].key == key && es[p].data == Map()[key]
              else p == NULL
    {
      Sizes(es, tab, chains, live);
      var h := hash(key) % |tab|;
      HeadOfChain(es, tab, chains, live, h);
      p := Scan(h, key);
      if p != NULL {
        FoundIn(es, tab, chains, live, cleared, h, p);
      } else {
        NotThere(es, tab, chains, live, cleared, hash, key);
      }
    }

    /** The loop over a chain. No key compares equal to NULL. */
    method Scan(h: nat, key: K) returns (p: int)
      requires Buckets(es, tab, chains) && h < |tab|
      ensures p == NULL || (0 <= p < |es| && p in chains[h] && p !in cleared && es[p].key == key)
      ensures p == NULL ==> Without(es, chains[h], cleared, key)
    {
      p := tab[h];
      ghost var j: nat := 0;
      assert Bucket(es, |tab|, h, tab[h], chains[h]);
      hide Buckets;
      while p != NULL
        invariant j <= |chains[h]| && p == (if j < |chains[h]| then chains[h][j] else NULL)
        invariant Without(es, chains[h][..j], cleared, key)
        decreases |chains[h]| - j
      {
        assert Linked(es, |tab|, h, chains[h], j);
        if p !in cleared && es[p].key == key {
          return;
        }
        p := es[p].next;
        j := j + 1;
      }
      assert chains[h][..j] == chains[h];
    }

    /** The pushing of an entry that rehash and hash_lookadd have in common. */
    method PushOnto(table: seq<int>, p: nat) returns (after: seq<int>)
      requires p < |es| && |table| > 0
      requires var head := table[Home(es, |table|, p)]; head == NULL || (0 <= head < |es| && head != p)
      modifies this`es
      ensures es == Push(old(es), table, p) && after == table[Home(old(es), |table|, p) := p]
    {
      var h := es[p].hkey % |table|;
      es := es[p := es[p].(next := table[h])];
      after := table[h := p];
      if es[p].next != NULL {
        var n := es[p].next;
        es := es[n := es[n].(prev := p)];
      }
      es := es[p := es[p].(prev := NULL)];
    }

    /** rehash */
    method Rehash()
      requires Valid()
      modifies this
      ensures Valid() && |tab| == 4 * old(|tab|) && live == old(live) && nelem == old(nelem)
      ensures SameEntries(old(es), es) && foreach == old(foreach) && cleared == old(cleared)
      ensures Map() == old(Map())
    {
      hide Progress, Table, Hashed, SameEntries, Unique, MapOf, Indices;
      ghost var es0, tab0, chains0 := es, tab, chains;
      KnownMap(es, tab, chains, live, cleared);
      Sizes(es, tab, chains, live);
      var newTab, newChains, moved := MoveAll(4 * |tab|);
      Rehashed(es0, tab0, chains0, live, cleared, hash, es, newTab, newChains, moved);
      tab, chains := newTab, newChains;
    }

    /** The outer loop of rehash. */
    method MoveAll(size: nat) returns (newTab: seq<int>, ghost newChains: seq<seq<nat>>, ghost moved: set<nat>)
      requires Table(es, tab, chains, live) && size > 0
      modifies this`es
      ensures |newTab| == size && live == old(live) && nelem == old(nelem)
      ensures Progress(old(es), tab, chains, live, es, newTab, newChains, moved, |tab|, 0)
    {
      ghost var es0 := es;
      var i: nat := 0;
      newTab, newChains, moved := EmptyTab(size), EmptyChains(size), {};
      assert |tab| == |chains|;
      hide Progress, Table;
      StartMoving(es, tab, chains, live, newTab, newChains);
      while i < |tab|
        invariant i <= |tab| == |chains| && |newTab| == size == |newChains|
        invariant Progress(es0, tab, chains, live, es, newTab, newChains, moved, i, 0)
      {
        newTab, newChains, moved := MoveBucket(newTab, newChains, moved, i, es0);
        NextBucket(es0, tab, chains, live, es, newTab, newChains, moved, i);
        i := i + 1;
      }
    }

    /** The body of the loops of rehash. */
    method MoveEntry(newTab0: seq<int>, ghost newChains0: seq<seq<nat>>, ghost moved0: set<nat>, ghost i: nat,
                     ghost j: nat, ghost es0: seq<Entry<K, V>>, p: nat)
        returns (newTab: seq<int>, ghost newChains: seq<seq<nat>>, ghost moved: set<nat>, q: int)
      requires i < |tab| == |chains| && j < |chains[i]| && p == chains[i][j] && |newTab0| == |newChains0| > 0
      requires Progress(es0, tab, chains, live, es, newTab0, newChains0, moved0, i, j)
      modifies this`es
      ensures |newTab| == |newTab0| == |newChains| && q == NextOf(chains[i], j)
      ensures Progress(es0, tab, chains, live, es, newTab, newChains, moved, i, j + 1)
    {
      hide Progress, Push, Table;
      AtEntry(es0, tab, chains, live, es, newTab0, newChains0, moved0, i, j);
      MoveOne(es0, tab, chains, live, es, newTab0, newChains0, moved0, i, j, p);
      NewHead(es0, tab, chains, live, es, newTab0, newChains0, moved0, i, j, p);
      q := es[p].next;
      ghost var h := Home(es, |newTab0|, p);
      newChains, moved := newChains0[h := [p] + newChains0[h]], moved0 + {p};
      newTab := PushOnto(newTab0, p);
    }

    /** The inner loop of rehash. */
    method MoveBucket(newTab0: seq<int>, ghost newChains0: seq<seq<nat>>, ghost moved0: set<nat>, i: nat,
                      ghost es0: seq<Entry<K, V>>)
        returns (newTab: seq<int>, ghost newChains: seq<seq<nat>>, ghost moved: set<nat>)
      requires i < |tab| == |chains| && |newTab0| == |newChains0|
      requires Progress(es0, tab, chains, live, es, newTab0, newChains0, moved0, i, 0)
      modifies this`es
      ensures |newTab| == |newTab0| == |newChains|
      ensures Progress(es0, tab, chains, live, es, newTab, newChains, moved, i, |chains[i]|)
    {
      newTab, newChains, moved := newTab0, newChains0, moved0;
      var p := tab[i];
      ghost var j: nat := 0;
      HeadOfChain(es0, tab, chains, live, i);
      hide Progress, Table, Push;
      while p != NULL
        invariant j <= |chains[i]| && p == (if j < |chains[i]| then chains[i][j] else NULL)
        invariant |newTab| == |newTab0| == |newChains|
        invariant Progress(es0, tab, chains, live, es, newTab, newChains, moved, i, j)
        decreases |chains[i]| - j
      {
        var q;
        newTab, newChains, moved, q := MoveEntry(newTab, newChains, moved, i, j, es0, p);
        p := q;
        j := j + 1;
      }
    }

    /** The end of hash_lookadd: a new entry for a key that is not there. */
    method NewEntry(key: K) returns (p: nat)
      requires Valid() && key !in Map()
      modifies this
      ensures Valid() && nelem == old(nelem) + 1 && Map() == old(Map())[key := blank]
      ensures p < |es| && p in live - cleared && es[p].key == key && live == old(live) + {p}
      ensures cleared == old(cleared) && foreach == old(foreach) + [false]
      ensures |tab| == Roomy(old(nelem), |old(tab)|) > 0 && tab[hash(key) % |tab|] == p
    {
      hide Table, MapOf, Hashed, SameEntries, Indices, Unique;
      ghost var m := Map();
      Sizes(es, tab, chains, live);
      if nelem > 2 * |tab| {
        Rehash();
      }
      KnownMap(es, tab, chains, live, cleared);
      ghost var es1, live0, held := es, live, live - cleared;
      p := Allocate(key);
      ghost var es2 := es;
      Grown(es1, es2, tab, chains, live, held, hash, p);
      Absent(es2, held, key);
      Pushed(es, tab, chains, live, p, hash);
      SameSize(es, Push(es, tab, p));
      NewMap(es, Push(es, tab, p), held, p);
      assert live + {p} - cleared == held + {p};
      assert Home(es, |tab|, p) == hash(key) % |tab|;
      InsertFresh(p);
    }

    /** calloc */
    method Allocate(key: K) returns (p: nat)
      modifies this`es, this`foreach
      ensures p == |old(es)| && es == old(es) + [Entry(key, blank, hash(key), NULL, NULL)]
      ensures foreach == old(foreach) + [false]
    {
      p := |es|;
      es := es + [Entry(key, blank, hash(key), NULL, NULL)];
      foreach := foreach + [false];
    }

    method InsertFresh(p: nat)
      requires Table(es, tab, chains, live) && p < |es| && p !in live && |foreach| == |es| && |chains| == |tab| > 0
      requires Table(Push(es, tab, p), tab[Home(es, |tab|, p) := p],
                     chains[Home(es, |tab|, p) := [p] + chains[Home(es, |tab|, p)]], live + {p})
      requires Hashed(Push(es, tab, p), live + {p}, hash) && Unique(Push(es, tab, p), live + {p} - cleared)
      requires nelem == |live| && nelem <= 2 * |tab| && cleared <= live
      requires var head := tab[Home(es, |tab|, p)]; head == NULL || (0 <= head < |es| && head != p)
      modifies this`es, this`tab, this`chains, this`live, this`nelem
      ensures Valid() && nelem == old(nelem) + 1 && live == old(live) + {p} && es == Push(old(es), old(tab), p)
      ensures tab == old(tab[Home(es, |tab|, p) := p])
    {
      hide Table, Push, Hashed, Unique;
      ghost var h := Home(es, |tab|, p);
      tab := PushOnto(tab, p);
      chains := chains[h := [p] + chains[h]];
      live := live + {p};
      nelem := nelem + 1;
    }

    /** hash_lookadd */
    method LookAdd(key: K) returns (p: nat)
      requires Valid()
      modifies this
      ensures Valid() && p < |es| && p in live - cleared && es[p].key == key
      ensures Map() == if key in old(Map()) then old(Map()) else old(Map())[key := blank]
      ensures nelem == |Map()| + |cleared| && cleared == old(cleared)
      ensures foreach == if key in old(Map()) then old(foreach) else old(foreach) + [false]
      ensures old(Idle()) ==> Idle()
      ensures if key in old(Map()) then es == old(es) && tab == old(tab)
              else |tab| == Roomy(old(nelem), |old(tab)|) > 0 && tab[hash(key) % |tab|] == p
    {
      hide Valid, Map;
      var found := Lookup(key);
      if found != NULL {
        p := found;
      } else {
        p := NewEntry(key);
      }
      Counted();
    }

    /** hash_add */
    method Add(key: K, data: V) returns (p: nat)
      requires Valid()
      modifies this
      ensures Valid() && Map() == old(Map())[key := data] && p in live - cleared
      ensures nelem == |Map()| + |cleared| && nelem <= 2 * |tab| + 1 && cleared == old(cleared)
      ensures foreach == if key in old(Map()) then old(foreach) else old(foreach) + [false]
      ensures old(Idle()) ==> Idle()
    {
      hide Valid, Map;
      ghost var m := Map();
      p := LookAdd(key);
      SetData(p, data);
      assert m[key := blank][key := data] == m[key := data];
    }

    method SetData(p: nat, data: V)
      requires Valid() && p < |es| && p in live - cleared
      modifies this
      ensures Valid() && Map() == old(Map())[old(es[p].key) := data] && live == old(live)
      ensures nelem == |Map()| + |cleared| && nelem <= 2 * |tab| + 1
      ensures foreach == old(foreach) && cleared == old(cleared)
    {
      hide Table, MapOf, Hashed, Indices, Unique;
      KnownMap(es, tab, chains, live, cleared);
      DataSet(es, tab, chains, live, live - cleared, p, data, hash);
      es := es[p := es[p].(data := data)];
      CountMap(es, tab, chains, live, cleared);
    }

    /** hash_del */
    method Del(key: K)
      requires Valid()
      modifies this
      ensures Valid() && Map() == old(Map()) - {key} && nelem == |Map()| + |cleared|
      ensures old(Idle()) ==> Idle() && foreach == old(foreach)
    {
      hide Valid, Map, Unmarked;
      var p := Lookup(key);
      if p != NULL {
        Marks(p);
        IterDel(p);
      } else {
        KeyMissing(key);
      }
      Counted();
    }

    lemma Counted()
      requires Valid()
      ensures nelem == |Map()| + |cleared|
    {
      CountMap(es, tab, chains, live, cleared);
    }

    lemma Marks(p: nat)
      requires Valid() && p in live
      ensures p < |es| == |foreach| && (Unmarked(foreach) ==> !foreach[p])
    {
      LiveIndices(es, tab, chains, live);
    }

    lemma KeyMissing(key: K)
      requires Valid() && key !in Map()
      ensures Map() - {key} == Map()
    {
    }

    /** hash_iter_del. The key and the data go at once; the entry that hash_foreach is at stays in
        its chain until the loop takes it out. */
    method IterDel(p: nat)
      requires Valid() && p < |es| && p in live
      modifies this
      ensures Valid() && |tab| == old(|tab|) && |es| == old(|es|)
      ensures Map() == if p in old(cleared) then old(Map()) else old(Map()) - {old(es[p].key)}
      ensures if old(foreach[p])
              then && foreach == old(foreach)[p := false] && cleared == old(cleared) + {p}
                   && live == old(live) && es == old(es) && chains == old(chains)
              else && foreach == old(foreach) && cleared == old(cleared) - {p} && live == old(live) - {p}
                   && SameEntries(old(es), es) && TakenFrom(old(chains), chains, p)
    {
      hide Table, MapOf, Hashed, Indices, Unique, SameEntries, TakenFrom;
      if foreach[p] {
        Cleared(p);
        foreach, cleared := foreach[p := false], cleared + {p};
        return;
      }
      ghost var h, k := AtPlace(es, tab, chains, live, p);
      TakeOut(p, h, k);
      Taken(old(chains), chains, h, k);
    }

    lemma Cleared(p: nat)
      requires Valid() && p < |es| && p in live
      ensures Indices(es, live) && cleared + {p} <= live && Unique(es, live - (cleared + {p}))
      ensures MapOf(es, live - (cleared + {p})) == if p in cleared then Map() else Map() - {es[p].key}
    {
      KnownMap(es, tab, chains, live, cleared);
      hide Table, MapOf, Indices;
      FewerHeld(es, live, cleared, p);
    }

    method TakeOut(p: nat, ghost h: nat, ghost k: nat)
      requires Valid() && h < |tab| == |chains| && k < |chains[h]| && chains[h][k] == p && p < |es|
      requires p in live && h == Home(es, |tab|, p)
      modifies this
      ensures Valid() && Map() == if p in old(cleared) then old(Map()) else old(Map()) - {old(es[p].key)}
      ensures live == old(live) - {p} && cleared == old(cleared) - {p}
      ensures foreach == old(foreach) && |tab| == old(|tab|)
      ensures SameEntries(old(es), es) && chains == old(chains)[h := Cut(old(chains[h]), k)]
    {
      hide Table, MapOf, Hashed, Indices, Unique, Unlink, SameEntries;
      KnownMap(es, tab, chains, live, cleared);
      UnlinkTable(es, tab, chains, live, h, k);
      Removed(es, live, cleared, p, hash);
      UnlinkSame(es, p);
      Neighbours(es, tab, chains, live, h, k);
      var e := es[p];
      Unhook(p);
      Detach(tab[e.hkey % |tab| := if e.prev == NULL then e.next else tab[e.hkey % |tab|]],
             chains[h := Cut(chains[h], k)], live - {p}, cleared - {p});
    }

    /** The table, the chains and the count after an entry is gone. */
    method Detach(tab1: seq<int>, ghost chains1: seq<seq<nat>>, ghost live1: set<nat>, cleared1: set<nat>)
      requires Table(es, tab1, chains1, live1) && Hashed(es, live1, hash) && |tab1| == |tab|
      requires nelem > 0 && nelem - 1 == |live1| && nelem <= 2 * |tab| + 1 && |foreach| == |es|
      requires cleared1 <= live1 && Unique(es, live1 - cleared1)
      modifies this`tab, this`chains, this`live, this`nelem, this`cleared
      ensures Valid() && live == live1 && tab == tab1 && chains == chains1 && cleared == cleared1
    {
      hide Table, Hashed, Unique;
      tab, chains, live, cleared := tab1, chains1, live1, cleared1;
      nelem := nelem - 1;
    }

    /** The neighbours of a removed entry are linked to each other. */
    method Unhook(p: nat)
      requires p < |es| && p != es[p].next && p != es[p].prev && (es[p].next == es[p].prev ==> es[p].next == NULL)
      requires es[p].next == NULL || 0 <= es[p].next < |es|
      requires es[p].prev == NULL || 0 <= es[p].prev < |es|
      modifies this`es
      ensures es == Unlink(old(es), p)
    {
      if es[p].next != NULL {
        es := es[es[p].next := es[es[p].next].(prev := es[p].prev)];
      }
      if es[p].prev != NULL {
        es := es[es[p].prev := es[es[p].prev].(next := es[p].next)];
      }
    }

    /** In the middle of hash_foreach: every chain is what is left of what it was. */
    ghost predicate Sweeping(chains0: seq<seq<nat>>, es0: seq<Entry<K, V>>)
      reads this
    {
      Valid() && Leftover(chains0, es0, chains, live, es)
    }

    /** One hash_iter_del of a callback, which hash_foreach calls for `p`. */
    method DeleteOne(x: nat, p: nat, ghost chains0: seq<seq<nat>>, ghost es0: seq<Entry<K, V>>)
      requires Sweeping(chains0, es0) && x in live && (x < |foreach| && foreach[x] <==> x == p)
      modifies this
      ensures Sweeping(chains0, es0) && |tab| == old(|tab|) && |foreach| == old(|foreach|)
      ensures live == if x == p then old(live) else old(live) - {x}
      ensures foreach == if x == p then old(foreach)[p := false] else old(foreach)
      ensures cleared == if x == p then old(cleared) + {p} else old(cleared) - {x}
    {
      hide *;
      ghost var chains1, live1, es1 := chains, live, es;
      EntryOf(chains0, es0, x);
      IterDel(x);
      if x != p {
        LessLeft(chains0, es0, chains1, live1, es1, chains, es, x);
      }
      Resumed(chains0, es0);
    }

    /** What a callback of hash_foreach, called for `p`, deletes. */
    method DeleteAll(dels: seq<nat>, p: nat, ghost chains0: seq<seq<nat>>, ghost es0: seq<Entry<K, V>>)
      requires Sweeping(chains0, es0) && At(foreach, p) && NoDup(dels) && Members(dels) <= live && cleared == {}
      modifies this
      ensures Sweeping(chains0, es0) && |tab| == old(|tab|) && live == old(live) - (Members(dels) - {p})
      ensures foreach == if p in dels then old(foreach)[p := false] else old(foreach)
      ensures cleared == if p in dels then {p} else {}
    {
      hide *;
      ghost var live0, foreach0 := live, foreach;
      NothingDeleted(dels, live, foreach, p);
      for k := 0 to |dels|
        invariant Sweeping(chains0, es0) && |tab| == old(|tab|)
        invariant AfterDeletions(dels, k, live0, live, foreach0, foreach, cleared, p)
      {
        OneMoreDeleted(dels, k, live0, live, foreach0, foreach, cleared, p);
        DeleteOne(dels[k], p, chains0, es0);
      }
      AllDeleted(dels, live0, live, foreach0, foreach, cleared, p);
    }

    /** One turn of hash_foreach. */
    method Visit(p: nat, dels: seq<nat>, ghost chains0: seq<seq<nat>>, ghost es0: seq<Entry<K, V>>, ghost h: nat,
                 ghost i: nat)
        returns (q: int)
      requires Sweeping(chains0, es0) && p in live && p < |es| && NoDup(dels) && Members(dels) <= live && Idle()
      requires h < |chains0| && i < |chains0[h]| && chains0[h][i] == p
      modifies this
      ensures Sweeping(chains0, es0) && |tab| == old(|tab|) && Idle()
      ensures live == old(live) - Members(dels) && q == Head(Keep(chains0[h][i + 1..], live))
    {
      hide *;
      ghost var live0 := live;
      Mark(p, chains0, es0);
      ghost var foreach0 := foreach;
      DeleteAll(dels, p, chains0, es0);
      OnlyAt(foreach0, foreach, dels, p, live0, live);
      q := Leave(p, chains0, es0, h, i);
    }

    method Mark(p: nat, ghost chains0: seq<seq<nat>>, ghost es0: seq<Entry<K, V>>)
      requires Sweeping(chains0, es0) && p in live && Idle()
      modifies this`foreach
      ensures Sweeping(chains0, es0) && At(foreach, p) && cleared == {}
    {
      hide Table, MapOf, Hashed, Indices, Unique, Leftover;
      Marks(p);
      foreach := foreach[p := true];
    }

    /** The end of a turn of hash_foreach. */
    method Leave(p: nat, ghost chains0: seq<seq<nat>>, ghost es0: seq<Entry<K, V>>, ghost h: nat, ghost i: nat)
        returns (q: int)
      requires Sweeping(chains0, es0) && p in live && p < |foreach| && Unmarked(foreach[p := false])
      requires cleared == if foreach[p] then {} else {p}
      requires h < |chains0| && i < |chains0[h]| && chains0[h][i] == p
      modifies this
      ensures Sweeping(chains0, es0) && |tab| == old(|tab|) && Idle()
      ensures live == (if old(foreach[p]) then old(live) else old(live) - {p})
      ensures q == Head(Keep(chains0[h][i + 1..], live))
    {
      hide Table, MapOf, Hashed, Indices, Unique, Leftover, SameEntries, TakenFrom, Keep, Map;
      ghost var es1, live1, chains1 := es, live, chains;
      Marks(p);
      NextLeft(es, tab, chains, live, chains0, es0, h, i);
      q := es[p].next;
      if !foreach[p] {
        assert foreach[p := false] == foreach && {p} - {p} == {};
        IterDel(p);
        LessLeft(chains0, es0, chains1, live1, es1, chains, es, p);
      } else {
        foreach := foreach[p := false];
      }
    }

    /** The next turn of the inner loop of hash_foreach. */
    method VisitNext(p: nat, cb: (nat, nat) -> Reply, visited: seq<nat>, ghost chains0: seq<seq<nat>>,
                     ghost es0: seq<Entry<K, V>>, ghost h: nat, ghost i: nat, ghost rest0: seq<nat>,
                     ghost live0: set<nat>)
        returns (q: int, stop: bool, ghost j: nat)
      requires Sweeping(chains0, es0) && Idle() && h < |chains0|
      requires Place(rest0, live0, cb, visited, chains0, h, i, live, p)
      modifies this
      ensures Sweeping(chains0, es0) && |tab| == old(|tab|) && Idle()
      ensures if stop then Swept(rest0, live0, 0, cb) == Outcome(visited + [p], live)
              else i < j && Place(rest0, live0, cb, visited + [p], chains0, h, j, live, q)
    {
      hide *;
      ghost var k := NextTurn(rest0, live0, cb, visited, chains0, h, i, live, p);
      EntryOf(chains0, es0, p);
      var reply := cb(|visited|, p);
      stop, j := reply.stop, k + 1;
      q := Visit(p, reply.dels, chains0, es0, h, k);
    }

    /** The inner loop of hash_foreach. */
    method SweepBucket(h: nat, cb: (nat, nat) -> Reply, visited0: seq<nat>, ghost chains0: seq<seq<nat>>,
                       ghost es0: seq<Entry<K, V>>, ghost rest0: seq<nat>, ghost live0: set<nat>)
        returns (visited: seq<nat>, stop: bool)
      requires Sweeping(chains0, es0) && Idle() && h < |tab| == |chains0|
      requires SoFar(rest0, live0, cb, visited0, Flat(chains0[h..]), live)
      modifies this
      ensures Sweeping(chains0, es0) && |tab| == old(|tab|) && Idle()
      ensures if stop then Swept(rest0, live0, 0, cb) == Outcome(visited, live)
              else SoFar(rest0, live0, cb, visited, Flat(chains0[h + 1..]), live)
    {
      hide Sweeping, SoFar, Flat, Swept, Idle, Keep;
      visited, stop := visited0, false;
      var p := tab[h];
      ghost var i: nat := 0;
      AtHead(chains0, es0, rest0, live0, cb, visited, h);
      while p != NULL
        invariant Sweeping(chains0, es0) && |tab| == old(|tab|) && Idle() && p >= NULL
        invariant Place(rest0, live0, cb, visited, chains0, h, i, live, p)
        decreases |chains0[h]| - i
      {
        var q, end;
        ghost var j;
        q, end, j := VisitNext(p, cb, visited, chains0, es0, h, i, rest0, live0);
        visited := visited + [p];
        if end {
          return visited, true;
        }
        p, i := q, j;
      }
      ToEnd(rest0, live0, cb, visited, chains0, h, i, live);
    }

    lemma AtHead(chains0: seq<seq<nat>>, es0: seq<Entry<K, V>>, rest0: seq<nat>, live0: set<nat>,
                 cb: (nat, nat) -> Reply, visited: seq<nat>, h: nat)
      requires Sweeping(chains0, es0) && h < |tab| == |chains0|
      requires SoFar(rest0, live0, cb, visited, Flat(chains0[h..]), live)
      ensures Place(rest0, live0, cb, visited, chains0, h, 0, live, tab[h])
    {
      HeadOfChain(es, tab, chains, live, h);
      assert chains0[h][0..] == chains0[h];
      assert chains0[h..][0] == chains0[h] && chains0[h..][1..] == chains0[h + 1..];
      hide SoFar, Keep;
    }

    lemma EntryOf(chains0: seq<seq<nat>>, es0: seq<Entry<K, V>>, p: nat)
      requires Sweeping(chains0, es0) && p in live
      ensures p < |es| == |foreach| && Valid() && Leftover(chains0, es0, chains, live, es)
    {
      LiveIndices(es, tab, chains, live);
    }

    lemma Resumed(chains0: seq<seq<nat>>, es0: seq<Entry<K, V>>)
      requires Valid() && Leftover(chains0, es0, chains, live, es)
      ensures Sweeping(chains0, es0)
    {
    }

    lemma Begun(cb: (nat, nat) -> Reply)
      requires Valid() && Sound(Flat(chains), live, 0, cb)
      ensures Sweeping(chains, es) && |tab| == |chains|
      ensures SoFar(Flat(chains), live, cb, [], Flat(chains[0..]), live)
    {
      KeptStart(es, tab, chains, live);
      Unchanged(es);
      assert chains[0..] == chains;
    }

    lemma Ended(chains0: seq<seq<nat>>, es0: seq<Entry<K, V>>)
      requires Sweeping(chains0, es0)
      ensures Valid() && SameEntries(es0, es)
    {
    }

    /** hash_foreach: it visits what `Swept` says, and leaves the entries that no callback has
        deleted. */
    method ForEach(cb: (nat, nat) -> Reply) returns (visited: seq<nat>)
      requires Valid() && Idle() && Sound(Flat(chains), live, 0, cb)
      modifies this
      ensures Valid() && Idle() && SameEntries(old(es), es)
      ensures Outcome(visited, live) == Swept(old(Flat(chains)), old(live), 0, cb)
    {
      hide *;
      ghost var chains0, live0, es0 := chains, live, es;
      ghost var rest0 := Flat(chains0);
      Begun(cb);
      visited := [];
      for h := 0 to |tab|
        invariant Sweeping(chains0, es0) && |tab| == |chains0| && Idle()
        invariant SoFar(rest0, live0, cb, visited, Flat(chains0[h..]), live)
      {
        var stop;
        visited, stop := SweepBucket(h, cb, visited, chains0, es0, rest0, live0);
        if stop {
          Ended(chains0, es0);
          return;
        }
      }
      Ended(chains0, es0);
      AllSwept(rest0, live0, cb, visited, chains0, live);
    }

    /** hash_begin */
    method Begin() returns (p: int)
      requires Valid()
      ensures p == Head(Flat(chains))
    {
      p := FirstFrom(0);
      assert chains[0..] == chains;
    }

    /** The loop over buckets that hash_begin and hash_iter_next share. */
    method FirstFrom(start: nat) returns (p: int)
      requires Valid() && start <= |tab| == |chains|
      ensures p == Head(Flat(chains[start..]))
    {
      var h := start;
      while h < |tab|
        invariant start <= h <= |tab| && forall g :: start <= g < h ==> chains[g] == []
      {
        HeadOfChain(es, tab, chains, live, h);
        hide Table, Flat;
        if tab[h] != NULL {
          FirstOfFlat(chains, start, h);
          return tab[h];
        }
        h := h + 1;
      }
      FirstOfFlat(chains, start, h);
      p := NULL;
    }

    /** hash_iter_next: the entry that follows in the order of iteration. */
    method IterNext(p: nat, ghost k: nat) returns (q: int)
      requires Valid() && k < |Flat(chains)| && p == Flat(chains)[k]
      ensures q == NextOf(Flat(chains), k)
    {
      ghost var h, j := InOrder(es, tab, chains, live, k);
      if es[p].next != NULL {
        return es[p].next;
      }
      q := FirstFrom(es[p].hkey % |tab| + 1);
    }

    lemma EachOnce()
      requires Valid()
      ensures NoDup(Flat(chains)) && forall x :: x in Flat(chains) <==> x in live
    {
      AllOnce(es, tab, chains, live);
    }

    /** hash_begin, then hash_iter_next until there is no more: every entry comes up, once. */
    method Entries() returns (all: seq<nat>)
      requires Valid()
      ensures NoDup(all) && forall x :: x in all <==> x in live
    {
      hide Valid, Flat, NoDup;
      ghost var order := Flat(chains);
      EachOnce();
      all := [];
      var p := Begin();
      while p != NULL
        invariant |all| <= |order| && all == order[..|all|] && p == (if |all| < |order| then order[|all|] else NULL)
        decreases |order| - |all|
      {
        ghost var k := |all|;
        all := all + [p];
        p := IterNext(p, k);
      }
      assert all == order;
    }
  }

  /** hash_foreach is at no entry. */
  ghost predicate Unmarked(foreach: seq<bool>) { forall x :: 0 <= x < |foreach| ==> !foreach[x] }

  /** No entry of a chain has this key. */
  ghost predicate Without<K, V>(es: seq<Entry<K, V>>, c: seq<nat>, cleared: set<nat>, key: K) {
    forall k :: 0 <= k < |c| ==> c[k] < |es| && (c[k] in cleared || es[c[k]].key != key)
  }

  /** hash_foreach is at `p`, and at no other entry. */
  ghost predicate At(foreach: seq<bool>, p: nat) {
    p < |foreach| && forall x :: 0 <= x < |foreach| ==> (foreach[x] <==> x == p)
  }

  /** `p` is cut out of a chain. */
  ghost predicate TakenFrom(chains: seq<seq<nat>>, chains': seq<seq<nat>>, p: nat) {
    exists h: nat, k: nat ::
      h < |chains| && k < |chains[h]| && chains[h][k] == p && chains' == chains[h := Cut(chains[h], k)]
  }

  lemma Taken(chains: seq<seq<nat>>, chains': seq<seq<nat>>, h: nat, k: nat)
    requires h < |chains| && k < |chains[h]| && chains' == chains[h := Cut(chains[h], k)]
    ensures TakenFrom(chains, chains', chains[h][k])
  {
  }

  /** After the deletions of a callback for `p` only `p` can be marked, if it is not cleared. */
  lemma OnlyAt(foreach0: seq<bool>, foreach: seq<bool>, dels: seq<nat>, p: nat, live0: set<nat>, live: set<nat>)
    requires At(foreach0, p) && foreach == if p in dels then foreach0[p := false] else foreach0
    requires p in live0 && live == live0 - (Members(dels) - {p})
    ensures p in live && p < |foreach| && Unmarked(foreach[p := false]) && (foreach[p] <==> p !in dels)
    ensures live0 - Members(dels) == if foreach[p] then live else live - {p}
  {
    assert p in Members(dels) <==> p in dels;
  }

  lemma KeptTaken(chains0: seq<seq<nat>>, chains: seq<seq<nat>>, chains': seq<seq<nat>>, live: set<nat>, p: nat)
    requires Kept(chains0, chains, live) && Disjoint(chains0) && TakenFrom(chains, chains', p)
    ensures Kept(chains0, chains', live - {p})
  {
    var h: nat, k: nat :|
      h < |chains| && k < |chains[h]| && chains[h][k] == p && chains' == chains[h := Cut(chains[h], k)];
    KeptCut(chains0, chains, live, h, k);
  }

  /** After the first `k` deletions of a callback for `p`. */
  ghost predicate AfterDeletions(dels: seq<nat>, k: nat, live0: set<nat>, live: set<nat>, foreach0: seq<bool>,
                                 foreach: seq<bool>, cleared: set<nat>, p: nat) {
    && NoDup(dels) && Members(dels) <= live0 && At(foreach0, p) && k <= |dels|
    && live == live0 - (Members(dels[..k]) - {p})
    && foreach == (if p in dels[..k] then foreach0[p := false] else foreach0)
    && cleared == if p in dels[..k] then {p} else {}
  }

  lemma NothingDeleted(dels: seq<nat>, live: set<nat>, foreach: seq<bool>, p: nat)
    requires NoDup(dels) && Members(dels) <= live && At(foreach, p)
    ensures AfterDeletions(dels, 0, live, live, foreach, foreach, {}, p)
  {
    assert Members(dels[..0]) - {p} == {};
  }

  lemma OneMoreDeleted(dels: seq<nat>, k: nat, live0: set<nat>, live: set<nat>, foreach0: seq<bool>, foreach: seq<bool>,
                       cleared: set<nat>, p: nat)
    requires AfterDeletions(dels, k, live0, live, foreach0, foreach, cleared, p) && k < |dels|
    ensures var x := dels[k];
            && x in live && (x < |foreach| && foreach[x] <==> x == p)
            && AfterDeletions(dels, k + 1, live0, if x == p then live else live - {x}, foreach0,
                              if x == p && p < |foreach| then foreach[p := false] else foreach,
                              if x == p then cleared + {p} else cleared - {x}, p)
  {
    var x := dels[k];
    assert dels[..k + 1] == dels[..k] + [x];
    assert x !in dels[..k] && x in Members(dels);
    assert Members(dels[..k + 1]) - {p} == Members(dels[..k]) - {p} + ({x} - {p});
  }

  lemma AllDeleted(dels: seq<nat>, live0: set<nat>, live: set<nat>, foreach0: seq<bool>, foreach: seq<bool>,
                   cleared: set<nat>, p: nat)
    requires AfterDeletions(dels, |dels|, live0, live, foreach0, foreach, cleared, p)
    ensures p < |foreach0| && live == live0 - (Members(dels) - {p})
    ensures foreach == if p in dels then foreach0[p := false] else foreach0
    ensures cleared == if p in dels then {p} else {}
  {
    assert dels[..|dels|] == dels;
  }

  /** The entries are what is left of them. */
  ghost predicate Leftover<K, V>(chains0: seq<seq<nat>>, es0: seq<Entry<K, V>>, chains: seq<seq<nat>>, live: set<nat>,
                                 es: seq<Entry<K, V>>) {
    Kept(chains0, chains, live) && Disjoint(chains0) && SameEntries(es0, es)
  }

  lemma LessLeft<K, V>(chains0: seq<seq<nat>>, es0: seq<Entry<K, V>>, chains: seq<seq<nat>>, live: set<nat>,
                       es: seq<Entry<K, V>>, chains': seq<seq<nat>>, es': seq<Entry<K, V>>, p: nat)
    requires Leftover(chains0, es0, chains, live, es) && TakenFrom(chains, chains', p) && SameEntries(es, es')
    ensures Leftover(chains0, es0, chains', live - {p}, es')
    ensures forall h: nat, i: nat :: h < |chains0| && i < |chains0[h]| && chains0[h][i] == p ==>
              Keep(chains0[h][i + 1..], live - {p}) == Keep(chains0[h][i + 1..], live)
  {
    KeptTaken(chains0, chains, chains', live, p);
    SameTwice(es0, es, es');
    forall h: nat, i: nat | h < |chains0| && i < |chains0[h]| && chains0[h][i] == p
      ensures Keep(chains0[h][i + 1..], live - {p}) == Keep(chains0[h][i + 1..], live)
    {
      KeepLess(chains0[h][i + 1..], live, p);
    }
  }

  lemma NextLeft<K, V>(es: seq<Entry<K, V>>, tab: seq<int>, chains: seq<seq<nat>>, live: set<nat>,
                       chains0: seq<seq<nat>>, es0: seq<Entry<K, V>>, h: nat, i: nat)
    requires Table(es, tab, chains, live) && Leftover(chains0, es0, chains, live, es)
    requires h < |chains0| && i < |chains0[h]| && chains0[h][i] in live && chains0[h][i] < |es|
    ensures es[chains0[h][i]].next == Head(Keep(chains0[h][i + 1..], live))
  {
    hide Kept, Disjoint, Table;
    NextKept(es, tab, chains, live, chains0, h, i);
  }

  /** The link of an entry leads to the next one that is there. */
  lemma NextKept<K, V>(es: seq<Entry<K, V>>, tab: seq<int>, chains: seq<seq<nat>>, live: set<nat>,
                       chains0: seq<seq<nat>>, h: nat, i: nat)
    requires Table(es, tab, chains, live) && Kept(chains0, chains, live) && Disjoint(chains0)
    requires h < |chains0| && i < |chains0[h]| && chains0[h][i] in live && chains0[h][i] < |es|
    ensures es[chains0[h][i]].next == Head(Keep(chains0[h][i + 1..], live))
  {
    var c, p := chains0[h], chains0[h][i];
    KeepMembers(c, live);
    assert p in chains[h];
    var k: nat :| k < |chains[h]| && chains[h][k] == p;
    assert Bucket(es, |tab|, h, tab[h], chains[h]) && Linked(es, |tab|, h, chains[h], k);
    KeepNext(c, live, i, k);
  }

  lemma AllSwept(rest0: seq<nat>, live0: set<nat>, cb: (nat, nat) -> Reply, visited: seq<nat>,
                 chains0: seq<seq<nat>>, live: set<nat>)
    requires SoFar(rest0, live0, cb, visited, Flat(chains0[|chains0|..]), live)
    ensures Swept(rest0, live0, 0, cb) == Outcome(visited, live)
  {
  }

  ghost predicate Hashed<K, V>(es: seq<Entry<K, V>>, live: set<nat>, hash: K -> nat) {
    forall x :: x in live && x < |es| ==> es[x].hkey == hash(es[x].key)
  }

  lemma AllOnce<K, V>(es: seq<Entry<K, V>>, tab: seq<int>, chains: seq<seq<nat>>, live: set<nat>)
    requires Table(es, tab, chains, live)
    ensures NoDup(Flat(chains)) && (forall x :: x in Flat(chains) <==> x in live) && forall x :: x in live ==> x < |es|
  {
    FlatOnce(es, tab, chains, live, 0);
    LiveIndices(es, tab, chains, live);
    assert chains[0..] == chains;
  }

  lemma EmptyTable<K, V>(es: seq<Entry<K, V>>, tab: seq<int>, chains: seq<seq<nat>>)
    requires |tab| > 0 && AllEmpty(tab, chains)
    ensures Table(es, tab, chains, {}) && MapOf(es, {}) == map[]
  {
    forall h: nat | h < |tab| ensures Bucket(es, |tab|, h, tab[h], chains[h]) { EmptyBucket(es, |tab|, h); }
    assert Live(es, chains, {});
  }

  lemma FoundIn<K, V>(es: seq<Entry<K, V>>, tab: seq<int>, chains: seq<seq<nat>>, live: set<nat>, cleared: set<nat>,
                      h: nat, p: nat)
    requires Table(es, tab, chains, live) && Unique(es, live - cleared)
    requires h < |chains| && p in chains[h] && p !in cleared && p < |es|
    ensures p in live - cleared && Indices(es, live - cleared)
    ensures var m := MapOf(es, live - cleared); es[p].key in m && m[es[p].key] == es[p].data
  {
    LiveIndices(es, tab, chains, live);
    var j: nat :| j < |chains[h]| && chains[h][j] == p;
    assert chains[h][j] in live;
    hide Buckets, Live;
    Maps(es, live - cleared, p);
  }

  lemma NotThere<K, V>(es: seq<Entry<K, V>>, tab: seq<int>, chains: seq<seq<nat>>, live: set<nat>, cleared: set<nat>,
                       hash: K -> nat, key: K)
    requires Table(es, tab, chains, live) && Hashed(es, live, hash)
    requires Without(es, chains[hash(key) % |tab|], cleared, key)
    ensures forall x :: x in live - cleared && x < |es| ==> es[x].key != key
  {
    forall x | x in live - cleared && x < |es| ensures es[x].key != key {
      assert InHome(es, chains, x);
    }
  }

  lemma HeadOfChain<K, V>(es: seq<Entry<K, V>>, tab: seq<int>, chains: seq<seq<nat>>, live: set<nat>, i: nat)
    requires Table(es, tab, chains, live) && i < |tab|
    ensures tab[i] == Head(chains[i])
  {
    assert Bucket(es, |tab|, i, tab[i], chains[i]);
  }

  lemma Sizes<K, V>(es: seq<Entry<K, V>>, tab: seq<int>, chains: seq<seq<nat>>, live: set<nat>)
    requires Table(es, tab, chains, live)
    ensures |chains| == |tab| > 0
  {
  }

  /** The head an entry is pushed onto is another entry, or none. */
  lemma NewHead<K, V>(es0: seq<Entry<K, V>>, tab: seq<int>, chains: seq<seq<nat>>, live: set<nat>,
                      es: seq<Entry<K, V>>, newTab: seq<int>, newChains: seq<seq<nat>>, moved: set<nat>, i: nat, j: nat,
                      p: nat)
    requires Progress(es0, tab, chains, live, es, newTab, newChains, moved, i, j) && p !in moved && p < |es|
    ensures |newTab| > 0
    ensures var head := newTab[Home(es, |newTab|, p)]; head == NULL || (0 <= head < |es| && head != p)
  {
    hide Table, Moved, SameEntries;
    Sizes(es, newTab, newChains, moved);
    HeadIsOther(es, newTab, newChains, moved, Home(es, |newTab|, p), p);
  }

  lemma HeadIsOther<K, V>(es: seq<Entry<K, V>>, tab: seq<int>, chains: seq<seq<nat>>, live: set<nat>, h: nat, p: nat)
    requires Table(es, tab, chains, live) && h < |tab| && p !in live
    ensures tab[h] == NULL || (0 <= tab[h] < |es| && tab[h] != p)
  {
    HeadOfChain(es, tab, chains, live, h);
    if chains[h] != [] {
      assert chains[h][0] in live;
      assert InHome(es, chains, chains[h][0]);
    }
  }

  lemma LiveIndices<K, V>(es: seq<Entry<K, V>>, tab: seq<int>, chains: seq<seq<nat>>, live: set<nat>)
    requires Table(es, tab, chains, live)
    ensures Indices(es, live)
  {
    forall x | x in live ensures x < |es| { assert InHome(es, chains, x); }
  }

  lemma SameHashes<K, V>(es0: seq<Entry<K, V>>, live: set<nat>, es: seq<Entry<K, V>>, hash: K -> nat)
    requires SameEntries(es0, es) && Hashed(es0, live, hash)
    ensures Hashed(es, live, hash)
  {
  }

  lemma Pushed<K, V>(es: seq<Entry<K, V>>, tab: seq<int>, chains: seq<seq<nat>>, live: set<nat>, p: nat, hash: K -> nat)
    requires Table(es, tab, chains, live) && Hashed(es, live + {p}, hash) && p < |es| && p !in live
    ensures |chains| == |tab| > 0 && SameEntries(es, Push(es, tab, p)) && Hashed(Push(es, tab, p), live + {p}, hash)
    ensures var h := Home(es, |tab|, p);
            && Table(Push(es, tab, p), tab[h := p], chains[h := [p] + chains[h]], live + {p})
            && (tab[h] == NULL || (0 <= tab[h] < |es| && tab[h] != p))
  {
    PushTable(es, tab, chains, live, p);
    PushSame(es, tab, chains, live, p);
    Sizes(es, tab, chains, live);
    HeadIsOther(es, tab, chains, live, Home(es, |tab|, p), p);
    hide Table, Push;
    SameHashes(es, live + {p}, Push(es, tab, p), hash);
  }

  lemma KnownMap<K, V>(es: seq<Entry<K, V>>, tab: seq<int>, chains: seq<seq<nat>>, live: set<nat>, cleared: set<nat>)
    requires Table(es, tab, chains, live)
    ensures Indices(es, live) && Indices(es, live - cleared)
  {
    LiveIndices(es, tab, chains, live);
  }

  lemma SameSize<K, V>(es: seq<Entry<K, V>>, es': seq<Entry<K, V>>)
    requires SameEntries(es, es')
    ensures |es'| == |es|
  {
  }

  lemma Unchanged<K, V>(es: seq<Entry<K, V>>)
    ensures SameEntries(es, es)
  {
  }

  lemma OtherMap<K, V>(es0: seq<Entry<K, V>>, es: seq<Entry<K, V>>, live: set<nat>)
    requires SameEntries(es0, es) && Indices(es0, live) && Unique(es0, live)
    ensures Indices(es, live) && Unique(es, live) && MapOf(es, live) == MapOf(es0, live)
  {
    MapSame(es0, es, live);
  }

  lemma Rehashed<K, V>(es0: seq<Entry<K, V>>, tab0: seq<int>, chains0: seq<seq<nat>>, live: set<nat>,
                       cleared: set<nat>, hash: K -> nat, es: seq<Entry<K, V>>, tab: seq<int>, chains: seq<seq<nat>>,
                       moved: set<nat>)
    requires Progress(es0, tab0, chains0, live, es, tab, chains, moved, |tab0|, 0) && Hashed(es0, live, hash)
    requires Indices(es0, live - cleared) && Unique(es0, live - cleared)
    ensures Table(es, tab, chains, live) && Hashed(es, live, hash) && |es| == |es0| && SameEntries(es0, es)
    ensures Indices(es, live - cleared) && Unique(es, live - cleared)
    ensures MapOf(es, live - cleared) == MapOf(es0, live - cleared)
  {
    AllMoved(es0, tab0, chains0, live, es, tab, chains, moved);
    hide Progress, Table, MapOf, Unique;
    SameHashes(es0, live, es, hash);
    OtherMap(es0, es, live - cleared);
  }

  /** A fresh entry changes nothing in the table. */
  lemma Grown<K, V>(es: seq<Entry<K, V>>, es': seq<Entry<K, V>>, tab: seq<int>, chains: seq<seq<nat>>, live: set<nat>,
                    held: set<nat>, hash: K -> nat, p: nat)
    requires Table(es, tab, chains, live) && Hashed(es, live, hash) && p == |es| && held <= live && Unique(es, held)
    requires |es'| == |es| + 1 && es'[..p] == es && es'[p].hkey == hash(es'[p].key)
    ensures Table(es', tab, chains, live) && Hashed(es', live + {p}, hash) && p !in live
    ensures Indices(es, held) && Indices(es', held + {p}) && Unique(es', held)
    ensures MapOf(es', held) == MapOf(es, held)
  {
    LiveIndices(es, tab, chains, live);
    assert forall x :: 0 <= x < |es| ==> es'[x] == es[x];
    GrownBuckets(es, es', tab, chains);
    hide Buckets;
    forall x | x in live ensures InHome(es', chains, x) { assert InHome(es, chains, x); }
  }

  lemma GrownBuckets<K, V>(es: seq<Entry<K, V>>, es': seq<Entry<K, V>>, tab: seq<int>, chains: seq<seq<nat>>)
    requires Buckets(es, tab, chains) && |es'| >= |es| && forall x :: 0 <= x < |es| ==> es'[x] == es[x]
    ensures Buckets(es', tab, chains)
  {
    forall h: nat | h < |tab| ensures Bucket(es', |tab|, h, tab[h], chains[h]) {
      assert Bucket(es, |tab|, h, tab[h], chains[h]);
      forall j: nat | j < |chains[h]| ensures Linked(es', |tab|, h, chains[h], j) {
        assert Linked(es, |tab|, h, chains[h], j);
      }
    }
  }

  lemma Absent<K, V>(es: seq<Entry<K, V>>, live: set<nat>, key: K)
    requires Indices(es, live) && Unique(es, live) && key !in MapOf(es, live)
    ensures forall y :: y in live && 0 <= y < |es| ==> es[y].key != key
  {
    forall y | y in live && 0 <= y < |es| ensures es[y].key != key {
      assert es[y].key in MapOf(es, live);
    }
  }

  lemma NewMap<K, V>(es: seq<Entry<K, V>>, es': seq<Entry<K, V>>, live: set<nat>, p: nat)
    requires Indices(es, live + {p}) && Unique(es, live) && SameEntries(es, es') && p !in live
    requires forall y :: y in live && 0 <= y < |es| ==> es[y].key != es[p].key
    ensures Indices(es', live + {p}) && Unique(es', live + {p}) && es'[p].key == es[p].key
    ensures MapOf(es', live + {p}) == MapOf(es, live)[es[p].key := es[p].data]
  {
    MapPlus(es, live, p);
    MapSame(es, es', live + {p});
  }

  lemma CountMap<K, V>(es: seq<Entry<K, V>>, tab: seq<int>, chains: seq<seq<nat>>, live: set<nat>, cleared: set<nat>)
    requires Table(es, tab, chains, live) && cleared <= live && Unique(es, live - cleared)
    ensures Indices(es, live - cleared) && |MapOf(es, live - cleared)| + |cleared| == |live|
  {
    LiveIndices(es, tab, chains, live);
    MapSize(es, live - cleared);
    assert live - cleared + cleared == live;
  }

  lemma DataSet<K, V>(es: seq<Entry<K, V>>, tab: seq<int>, chains: seq<seq<nat>>, live: set<nat>, held: set<nat>, p: nat,
                      data: V, hash: K -> nat)
    requires Table(es, tab, chains, live) && Hashed(es, live, hash) && held <= live && Unique(es, held)
    requires p in held && p < |es|
    ensures var es' := es[p := es[p].(data := data)];
            && Table(es', tab, chains, live) && Hashed(es', live, hash)
            && Indices(es', held) && Unique(es', held) && Indices(es, held)
            && MapOf(es', held) == MapOf(es, held)[es[p].key := data]
  {
    var es' := es[p := es[p].(data := data)];
    LiveIndices(es, tab, chains, live);
    DataTable(es, es', tab, chains, live, p);
    hide Table, Hashed;
    DataMap(es, es', held, p);
    hide MapOf, Unique;
    DataHashed(es, live, p, data, hash);
  }

  lemma DataHashed<K, V>(es: seq<Entry<K, V>>, live: set<nat>, p: nat, data: V, hash: K -> nat)
    requires Hashed(es, live, hash) && p < |es|
    ensures Hashed(es[p := es[p].(data := data)], live, hash)
  {
  }

  lemma DataTable<K, V>(es: seq<Entry<K, V>>, es': seq<Entry<K, V>>, tab: seq<int>, chains: seq<seq<nat>>, live: set<nat>,
                        p: nat)
    requires Table(es, tab, chains, live) && p < |es| == |es'| && es' == es[p := es[p].(data := es'[p].data)]
    ensures Table(es', tab, chains, live)
  {
    DataBuckets(es, es', tab, chains, p);
    hide Buckets;
    forall x | x in live ensures InHome(es', chains, x) { assert InHome(es, chains, x); }
  }

  lemma DataBuckets<K, V>(es: seq<Entry<K, V>>, es': seq<Entry<K, V>>, tab: seq<int>, chains: seq<seq<nat>>, p: nat)
    requires Buckets(es, tab, chains) && p < |es| == |es'| && es' == es[p := es[p].(data := es'[p].data)]
    ensures Buckets(es', tab, chains)
  {
    forall h: nat | h < |tab| ensures Bucket(es', |tab|, h, tab[h], chains[h]) {
      assert Bucket(es, |tab|, h, tab[h], chains[h]);
      forall j: nat | j < |chains[h]| ensures Linked(es', |tab|, h, chains[h], j) {
        assert Linked(es, |tab|, h, chains[h], j);
      }
    }
  }

  lemma DataMap<K, V>(es: seq<Entry<K, V>>, es': seq<Entry<K, V>>, live: set<nat>, p: nat)
    requires Indices(es, live) && Unique(es, live) && p in live && p < |es| == |es'|
    requires es' == es[p := es[p].(data := es'[p].data)]
    ensures Unique(es', live) && MapOf(es', live) == MapOf(es, live)[es[p].key := es'[p].data]
  {
    hide *;
    Rekeyed(es, es', live, p);
    MapLast(es, live, p);
    MapLast(es', live, p);
    SameData(es, es', live - {p});
    Overwrite(MapOf(es, live - {p}), es[p].key, es[p].data, es'[p].data);
  }

  lemma MapLast<K, V>(es: seq<Entry<K, V>>, live: set<nat>, p: nat)
    requires Indices(es, live) && Unique(es, live) && p in live && p < |es|
    ensures Indices(es, live - {p}) && Unique(es, live - {p})
    ensures MapOf(es, live) == MapOf(es, live - {p})[es[p].key := es[p].data]
  {
    assert live - {p} + {p} == live;
    MapPlus(es, live - {p}, p);
  }

  lemma Overwrite<K, V>(m: map<K, V>, key: K, a: V, b: V)
    ensures m[key := a][key := b] == m[key := b]
  {
  }

  lemma Rekeyed<K, V>(es: seq<Entry<K, V>>, es': seq<Entry<K, V>>, live: set<nat>, p: nat)
    requires Indices(es, live) && Unique(es, live) && p in live && p < |es| == |es'|
    requires es' == es[p := es[p].(data := es'[p].data)]
    ensures Unique(es', live) && Indices(es, live - {p}) && Unique(es, live - {p}) && Indices(es', live)
    ensures es'[p].key == es[p].key
    ensures forall x :: x in live - {p} ==> es'[x].key == es[x].key && es'[x].data == es[x].data
  {
  }

  lemma SameData<K, V>(es: seq<Entry<K, V>>, es': seq<Entry<K, V>>, live: set<nat>)
    requires Indices(es, live) && Unique(es, live) && |es'| == |es|
    requires forall x :: x in live ==> es'[x].key == es[x].key && es'[x].data == es[x].data
    ensures Unique(es', live) && MapOf(es', live) == MapOf(es, live)
  {
  }

  /** Where an entry is. */
  lemma AtPlace<K, V>(es: seq<Entry<K, V>>, tab: seq<int>, chains: seq<seq<nat>>, live: set<nat>, p: nat)
      returns (h: nat, k: nat)
    requires Table(es, tab, chains, live) && p in live && p < |es|
    ensures h < |tab| == |chains| && h == Home(es, |tab|, p) && k < |chains[h]| && chains[h][k] == p
  {
    assert InHome(es, chains, p);
    h := Home(es, |tab|, p);
    k :| 0 <= k < |chains[h]| && chains[h][k] == p;
  }

  /** What is held when an entry is cleared, and when it is taken out. */
  lemma FewerHeld<K, V>(es: seq<Entry<K, V>>, live: set<nat>, cleared: set<nat>, p: nat)
    requires Indices(es, live) && Indices(es, live - cleared) && Unique(es, live - cleared)
    requires cleared <= live && p in live && p < |es|
    ensures live - (cleared + {p}) == live - {p} - (cleared - {p}) == live - cleared - {p}
    ensures Indices(es, live - cleared - {p}) && Unique(es, live - cleared - {p})
    ensures MapOf(es, live - cleared - {p}) ==
            if p in cleared then MapOf(es, live - cleared) else MapOf(es, live - cleared) - {es[p].key}
  {
    if p in cleared {
      assert live - cleared - {p} == live - cleared;
    } else {
      MapMinus(es, live - cleared, p);
    }
  }

  lemma Removed<K, V>(es: seq<Entry<K, V>>, live: set<nat>, cleared: set<nat>, p: nat, hash: K -> nat)
    requires Indices(es, live) && Indices(es, live - cleared) && Unique(es, live - cleared) && cleared <= live
    requires p in live && p < |es| && Hashed(es, live, hash)
    ensures var held := live - {p} - (cleared - {p});
            && Indices(Unlink(es, p), held) && Unique(Unlink(es, p), held)
            && MapOf(Unlink(es, p), held) ==
               if p in cleared then MapOf(es, live - cleared) else MapOf(es, live - cleared) - {es[p].key}
    ensures Hashed(Unlink(es, p), live - {p}, hash) && |live - {p}| == |live| - 1
  {
    FewerHeld(es, live, cleared, p);
    UnlinkSame(es, p);
    hide Unlink;
    MapSame(es, Unlink(es, p), live - cleared - {p});
    hide MapOf, Unique;
  }

  /** The neighbours of an entry are two other entries, or missing. */
  lemma Neighbours<K, V>(es: seq<Entry<K, V>>, tab: seq<int>, chains: seq<seq<nat>>, live: set<nat>, h: nat, k: nat)
    requires Table(es, tab, chains, live) && h < |tab| == |chains| && k < |chains[h]|
    ensures var p := chains[h][k];
            && p < |es| && p != es[p].next && p != es[p].prev && (es[p].next == es[p].prev ==> es[p].next == NULL)
            && (es[p].next == NULL || 0 <= es[p].next < |es|) && (es[p].prev == NULL || 0 <= es[p].prev < |es|)
  {
    var c := chains[h];
    assert Bucket(es, |tab|, h, tab[h], c);
    assert Linked(es, |tab|, h, c, k);
    if k > 0 { assert Linked(es, |tab|, h, c, k - 1); }
    if k + 1 < |c| { assert Linked(es, |tab|, h, c, k + 1); }
  }

  /** An entry's place in the order of iteration is its place in its chain. */
  lemma InOrder<K, V>(es: seq<Entry<K, V>>, tab: seq<int>, chains: seq<seq<nat>>, live: set<nat>, k: nat)
      returns (h: nat, j: nat)
    requires Table(es, tab, chains, live) && k < |Flat(chains)|
    ensures var p := Flat(chains)[k];
            && p < |es| && h == Home(es, |tab|, p) < |tab| == |chains|
            && j < |chains[h]| && es[p].next == NextOf(chains[h], j)
            && NextOf(Flat(chains), k) == if j + 1 < |chains[h]| then chains[h][j + 1] else Head(Flat(chains[h + 1..]))
  {
    var p := Flat(chains)[k];
    FlatOnce(es, tab, chains, live, 0);
    assert chains[0..] == chains;
    assert p in Flat(chains);
    h, j := AtPlace(es, tab, chains, live, p);
    FlatSplit(chains, h);
    assert Bucket(es, |tab|, h, tab[h], chains[h]) && Linked(es, |tab|, h, chains[h], j);
    SamePlace(Flat(chains), Flat(chains[..h]), chains[h], Flat(chains[h + 1..]), k, j);
  }

  lemma SamePlace(all: seq<nat>, before: seq<nat>, c: seq<nat>, after: seq<nat>, k: nat, j: nat)
    requires NoDup(all) && all == before + c + after && k < |all| && j < |c| && all[k] == c[j]
    ensures NextOf(all, k) == if j + 1 < |c| then c[j + 1] else Head(after)
  {
    assert all[|before| + j] == c[j];
    assert k == |before| + j;
  }
}
