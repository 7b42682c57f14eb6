/** minheap.c: a binary heap of (key, data) pairs in cells 1 to lastIndex - 1 of an array. */
module MinHeap {

  /** struct minHeapNode */
  datatype Node<D> = Node(key: int, data: D)

  /** The pairs in the heap. */
  ghost function Pairs<D>(s: seq<Node<D>>, n: nat): multiset<Node<D>>
    requires 1 <= n <= |s|
  {
    multiset(s[1..n])
  }

  function Father(i: nat): nat { if i == 1 || i == 0 then 0 else i / 2 }

  /** No key is below its father's. */
  predicate Ordered<D>(s: seq<Node<D>>, n: nat)
    requires n <= |s|
  {
    forall i: nat :: 2 <= i < n ==> s[i / 2].key <= s[i].key
  }

  /** Ordered, but for cell `hole` and its father. */
  predicate OrderedAbove<D>(s: seq<Node<D>>, n: nat, hole: nat)
    requires n <= |s| && 1 <= hole < n
  {
    && (forall i: nat :: 2 <= i < n && i != hole ==> s[i / 2].key <= s[i].key)
    && (forall i: nat :: 2 <= i < n && i / 2 == hole && hole >= 2 ==> s[hole / 2].key <= s[i].key)
  }

  /** Ordered, but for cell `hole` and its children. */
  predicate OrderedBelow<D>(s: seq<Node<D>>, n: nat, hole: nat)
    requires n <= |s| && 1 <= hole
  {
    && (forall i: nat :: 2 <= i < n && i / 2 != hole ==> s[i / 2].key <= s[i].key)
    && (forall i: nat :: 2 <= i < n && i / 2 == hole && hole >= 2 ==> s[hole / 2].key <= s[i].key)
  }

  function Exchanged<D>(s: seq<Node<D>>, i: nat, j: nat): (r: seq<Node<D>>)
    requires i < |s| && j < |s|
    ensures |r| == |s|
  {
    s[i := s[j]][j := s[i]]
  }

  lemma ExchangedPairs<D>(s: seq<Node<D>>, n: nat, i: nat, j: nat)
    requires 1 <= i < n <= |s| && 1 <= j < n
    ensures Pairs(Exchanged(s, i, j), n) == Pairs(s, n)
  {
    var a, b := s[1..n], Exchanged(s, i, j)[1..n];
    assert b == a[i - 1 := a[j - 1]][j - 1 := a[i - 1]];
  }

  /** One step up: the new pair is smaller than its father. */
  lemma StepUp<D>(s: seq<Node<D>>, n: nat, hole: nat)
    requires n <= |s| && 2 <= hole < n && OrderedAbove(s, n, hole) && s[hole].key < s[hole / 2].key
    ensures OrderedAbove(Exchanged(s, hole / 2, hole), n, hole / 2)
  {
    var f, r := hole / 2, Exchanged(s, hole / 2, hole);
    forall i: nat | 2 <= i < n && i != f ensures r[i / 2].key <= r[i].key {
      assert i != hole ==> s[i / 2].key <= s[i].key;
    }
    forall i: nat | 2 <= i < n && i / 2 == f && f >= 2 ensures r[f / 2].key <= r[i].key {
      assert s[f / 2].key <= s[f].key;
    }
  }

  /** One step down: the pair is not smaller than its smallest child. */
  lemma StepDown<D>(s: seq<Node<D>>, n: nat, hole: nat, child: nat)
    requires n <= |s| && 1 <= hole && OrderedBelow(s, n, hole) && 2 <= child < n && child / 2 == hole
    requires s[hole].key >= s[child].key && forall i: nat :: 2 <= i < n && i / 2 == hole ==> s[child].key <= s[i].key
    ensures OrderedBelow(Exchanged(s, hole, child), n, child)
  {
    var r := Exchanged(s, hole, child);
    forall i: nat | 2 <= i < n && i / 2 != child ensures r[i / 2].key <= r[i].key {
      assert i / 2 != hole ==> s[i / 2].key <= s[i].key;
      assert i == hole ==> s[hole / 2].key <= s[child].key;
    }
    forall i: nat | 2 <= i < n && i / 2 == child ensures r[child / 2].key <= r[i].key {
      assert s[i / 2].key <= s[i].key;
    }
  }

  /** The head is a minimum. */
  lemma {:induction false} HeadIsLeast<D>(s: seq<Node<D>>, n: nat, i: nat)
    requires n <= |s| && Ordered(s, n) && 1 <= i < n
    ensures s[1].key <= s[i].key
  {
    if i > 1 {
      HeadIsLeast(s, n, i / 2);
    }
  }

  class MinHeap<D> {
    const nodes: array<Node<D>>
    var lastIndex: nat

    ghost predicate Valid()
      reads this, nodes
    {
      1 <= lastIndex <= nodes.Length && Ordered(nodes[..], lastIndex)
    }

    ghost function Contents(): multiset<Node<D>>
      requires Valid()
      reads this, nodes
    {
      Pairs(nodes[..], lastIndex)
    }

    /** What minHeapInit makes; `blank` is a zeroed node. */
    constructor (maxNum: nat, blank: Node<D>)
      requires maxNum > 0
      ensures Valid() && Contents() == multiset{} && nodes.Length == maxNum && fresh(nodes)
    {
      nodes := new Node<D>[maxNum](_ => blank);
      lastIndex := 1;
    }

    /** _exchange and _exchangePoint on two nodes */
    method Exchange(i: nat, j: nat)
      requires i < nodes.Length && j < nodes.Length
      modifies nodes
      ensures nodes[..] == Exchanged(old(nodes[..]), i, j)
    {
      nodes[i], nodes[j] := nodes[j], nodes[i];
    }

    /** _minHeapInsert; one cell at the end always stays free. */
    method Insert(key: int, data: D) returns (r: int)
      requires Valid()
      modifies this, nodes
      ensures Valid() && r == (if old(lastIndex) >= nodes.Length - 1 then -1 else 0)
      ensures r == 0 ==> Contents() == old(Contents()) + multiset{Node(key, data)} && lastIndex == old(lastIndex) + 1
      ensures r == -1 ==> Contents() == old(Contents()) && lastIndex == old(lastIndex)
    {
      if lastIndex >= nodes.Length - 1 {
        return -1;
      }
      ghost var before := nodes[..];
      var index := lastIndex;
      nodes[lastIndex] := Node(key, data);
      lastIndex := lastIndex + 1;
      OneMore(before, nodes[..], index, Node(key, data));
      SiftUp(index);
      r := 0;
    }

    /** The loop of _minHeapInsert. */
    method SiftUp(start: nat)
      requires lastIndex <= nodes.Length && 1 <= start < lastIndex && OrderedAbove(nodes[..], lastIndex, start)
      modifies nodes
      ensures Ordered(nodes[..], lastIndex) && Pairs(nodes[..], lastIndex) == old(Pairs(nodes[..], lastIndex))
    {
      var index, key := start, nodes[start].key;
      var fatherIndex := Father(index);
      while fatherIndex != 0
        invariant 1 <= index < lastIndex && fatherIndex == Father(index) && nodes[index].key == key
        invariant OrderedAbove(nodes[..], lastIndex, index)
        invariant Pairs(nodes[..], lastIndex) == old(Pairs(nodes[..], lastIndex))
        decreases index
      {
        if key < nodes[fatherIndex].key {
          StepUp(nodes[..], lastIndex, index);
          ExchangedPairs(nodes[..], lastIndex, fatherIndex, index);
          hide OrderedAbove, Pairs;
          Exchange(fatherIndex, index);
          index := fatherIndex;
          fatherIndex := Father(fatherIndex);
        } else {
          break;
        }
      }
      UpDone(nodes[..], lastIndex, index);
    }

    /** _minChildIndex */
    method MinChildIndex(index: nat) returns (c: nat)
      requires 1 <= lastIndex <= nodes.Length && index >= 1
      ensures c == 0 ==> forall i: nat :: 2 <= i < lastIndex ==> i / 2 != index
      ensures c != 0 ==> 2 <= c < lastIndex && c / 2 == index
      ensures c != 0 ==> forall i: nat :: 2 <= i < lastIndex && i / 2 == index ==> nodes[c].key <= nodes[i].key
    {
      if index >= lastIndex {
        return 0;
      }
      var l, r := index * 2, index * 2 + 1;
      if l >= lastIndex {
        return 0;
      } else if r >= lastIndex {
        return l;
      }
      c := if nodes[l].key < nodes[r].key then l else r;
    }

    /** _minHeapPop: a pair with the least key goes. */
    method Pop(blank: Node<D>) returns (r: int, node: Node<D>)
      requires Valid()
      modifies this, nodes
      ensures Valid() && r == (if old(lastIndex) == 1 then -1 else 0)
      ensures r == -1 ==> old(Contents()) == Contents() == multiset{}
      ensures r == 0 ==> node in old(Contents()) && Contents() == old(Contents()) - multiset{node}
      ensures r == 0 ==> forall x :: x in old(Contents()) ==> node.key <= x.key
      ensures r == 0 ==> lastIndex == old(lastIndex) - 1
    {
      if lastIndex == 1 {
        return -1, blank;
      }
      ghost var before, n := nodes[..], lastIndex;
      node := nodes[1];
      LeastPair(before, n);
      Exchange(lastIndex - 1, 1);
      lastIndex := lastIndex - 1;
      OneLess(before, nodes[..], n);
      SiftDown();
      r := 0;
    }

    /** The loop of _minHeapPop. */
    method SiftDown()
      requires 1 <= lastIndex <= nodes.Length && OrderedBelow(nodes[..], lastIndex, 1)
      modifies nodes
      ensures Ordered(nodes[..], lastIndex) && Pairs(nodes[..], lastIndex) == old(Pairs(nodes[..], lastIndex))
    {
      var index: nat := 1;
      var childIndex := MinChildIndex(index);
      while childIndex != 0
        invariant 1 <= index && OrderedBelow(nodes[..], lastIndex, index)
        invariant childIndex == 0 ==> forall i: nat :: 2 <= i < lastIndex ==> i / 2 != index
        invariant childIndex != 0 ==> 2 <= childIndex < lastIndex && childIndex / 2 == index
        invariant childIndex != 0 ==>
          forall i: nat :: 2 <= i < lastIndex && i / 2 == index ==> nodes[childIndex].key <= nodes[i].key
        invariant Pairs(nodes[..], lastIndex) == old(Pairs(nodes[..], lastIndex))
        decreases lastIndex - index
      {
        if nodes[index].key >= nodes[childIndex].key {
          StepDown(nodes[..], lastIndex, index, childIndex);
          ExchangedPairs(nodes[..], lastIndex, index, childIndex);
          hide OrderedBelow, Pairs;
          Exchange(index, childIndex);
          index := childIndex;
          childIndex := MinChildIndex(childIndex);
        } else {
          break;
        }
      }
      DownDone(nodes[..], lastIndex, index);
    }

    /** Popping until the heap is empty gives the pairs in order of their keys. */
    method Drain(blank: Node<D>) returns (out: seq<Node<D>>)
      requires Valid()
      modifies this, nodes
      ensures Valid() && Contents() == multiset{} && multiset(out) == old(Contents())
      ensures forall i, j :: 0 <= i < j < |out| ==> out[i].key <= out[j].key
    {
      hide Pairs, Ordered;
      out := [];
      ghost var all := Contents();
      while lastIndex != 1
        invariant Valid() && Drained(out, Contents(), all)
        decreases lastIndex
      {
        ghost var before := Contents();
        var r, node := Pop(blank);
        DrainOne(out, before, all, node);
        hide Drained;
        out := out + [node];
      }
      NonePaired(nodes[..]);
      assert multiset(out) + multiset{} == multiset(out);
    }
  }

  /** `out` is sorted and comes before all that is left of `all`. */
  ghost predicate Drained<D>(out: seq<Node<D>>, left: multiset<Node<D>>, all: multiset<Node<D>>) {
    && multiset(out) + left == all
    && (forall i, j :: 0 <= i < j < |out| ==> out[i].key <= out[j].key)
    && forall i, x :: 0 <= i < |out| && x in left ==> out[i].key <= x.key
  }

  lemma DrainOne<D>(out: seq<Node<D>>, left: multiset<Node<D>>, all: multiset<Node<D>>, x: Node<D>)
    requires Drained(out, left, all) && x in left && forall y :: y in left ==> x.key <= y.key
    ensures Drained(out + [x], left - multiset{x}, all)
  {
    assert multiset(out + [x]) == multiset(out) + multiset{x};
    assert multiset{x} + (left - multiset{x}) == left;
    assert forall y :: y in left - multiset{x} ==> y in left;
  }

  lemma NonePaired<D>(s: seq<Node<D>>)
    requires |s| >= 1
    ensures Pairs(s, 1) == multiset{}
  {
  }

  lemma OneMore<D>(s: seq<Node<D>>, s': seq<Node<D>>, n: nat, x: Node<D>)
    requires 1 <= n < |s| == |s'| && Ordered(s, n) && s' == s[n := x]
    ensures OrderedAbove(s', n + 1, n) && Pairs(s', n + 1) == Pairs(s, n) + multiset{x}
  {
    assert s'[1..n + 1] == s[1..n] + [x];
    forall i: nat | 2 <= i < n + 1 && i != n ensures s'[i / 2].key <= s'[i].key {
      assert s[i / 2].key <= s[i].key;
    }
  }

  lemma UpDone<D>(s: seq<Node<D>>, n: nat, i: nat)
    requires n <= |s| && 1 <= i < n && OrderedAbove(s, n, i) && (i >= 2 ==> s[i / 2].key <= s[i].key)
    ensures Ordered(s, n)
  {
  }

  lemma DownDone<D>(s: seq<Node<D>>, n: nat, hole: nat)
    requires n <= |s| && 1 <= hole && OrderedBelow(s, n, hole)
    requires forall i: nat :: 2 <= i < n && i / 2 == hole ==> s[hole].key <= s[i].key
    ensures Ordered(s, n)
  {
  }

  lemma LeastPair<D>(s: seq<Node<D>>, n: nat)
    requires 2 <= n <= |s| && Ordered(s, n)
    ensures s[1] in Pairs(s, n) && forall x :: x in Pairs(s, n) ==> s[1].key <= x.key
  {
    var t := s[1..n];
    assert t[0] == s[1];
    forall x | x in Pairs(s, n) ensures s[1].key <= x.key {
      assert x in t;
      var i :| 0 <= i < |t| && t[i] == x;
      HeadIsLeast(s, n, i + 1);
    }
  }

  /** minHeapInit: no heap for a size that is not positive. */
  method Init<D>(maxNum: int, blank: Node<D>) returns (heap: MinHeap?<D>)
    ensures heap == null <==> maxNum <= 0
    ensures heap != null ==>
              heap.Valid() && heap.Contents() == multiset{} && heap.nodes.Length == maxNum && fresh(heap) && fresh(heap.nodes)
  {
    if maxNum <= 0 {
      return null;
    }
    heap := new MinHeap(maxNum, blank);
  }

  lemma OneLess<D>(s: seq<Node<D>>, s': seq<Node<D>>, n: nat)
    requires 2 <= n <= |s| && Ordered(s, n) && s' == Exchanged(s, n - 1, 1)
    ensures OrderedBelow(s', n - 1, 1) && Pairs(s', n - 1) == Pairs(s, n) - multiset{s[1]}
  {
    ExchangedPairs(s, n, n - 1, 1);
    assert s'[1..n] == s'[1..n - 1] + [s[1]];
  }
}
