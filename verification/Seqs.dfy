/** Sequences without repetition, and bytes. */
module Seqs {

  type byte = x: int | 0 <= x < 256

  predicate NoDup(s: seq<nat>) { forall i, j :: 0 <= i < j < |s| ==> s[i] != s[j] }

  /** `s` without its element at `k`. */
  function Cut(s: seq<nat>, k: nat): seq<nat>
    requires k < |s|
  {
    s[..k] + s[k + 1..]
  }

  /** `s` with `x` put in at `k`. */
  function Insert(s: seq<nat>, k: nat, x: nat): seq<nat>
    requires k <= |s|
  {
    s[..k] + [x] + s[k..]
  }

  function IndexOf(s: seq<nat>, x: nat): (i: nat)
    requires x in s
    ensures i < |s| && s[i] == x
  {
    if s[0] == x then 0 else 1 + IndexOf(s[1..], x)
  }

  lemma CutMembers(s: seq<nat>, k: nat)
    requires NoDup(s) && k < |s|
    ensures forall y :: y in Cut(s, k) <==> y in s && y != s[k]
  {
    forall y | y in s && y != s[k] ensures y in Cut(s, k) {
      var i :| 0 <= i < |s| && s[i] == y;
      assert Cut(s, k)[if i < k then i else i - 1] == y;
    }
  }

  lemma InsertMembers(s: seq<nat>, k: nat, x: nat)
    requires k <= |s|
    ensures forall y :: y in Insert(s, k, x) <==> y in s || y == x
  {
    var s' := Insert(s, k, x);
    assert s'[k] == x;
    forall y | y in s ensures y in s' {
      var i :| 0 <= i < |s| && s[i] == y;
      assert s'[if i < k then i else i + 1] == y;
    }
  }

  lemma InsertPlaces(s: seq<nat>, k: nat, x: nat)
    requires k <= |s| && x !in s && NoDup(s)
    ensures var s' := Insert(s, k, x);
      && |s'| == |s| + 1 && s'[k] == x && NoDup(s')
      && (forall j :: 0 <= j < k ==> s'[j] == s[j])
      && forall j :: k < j < |s'| ==> s'[j] == s[j - 1]
  {
  }

  /** Two sequences without a common element. */
  lemma Joined(a: seq<nat>, b: seq<nat>)
    requires NoDup(a) && NoDup(b) && forall z :: z in b ==> z !in a
    ensures NoDup(a + b)
  {
    forall i, j | 0 <= i < |a| && 0 <= j < |b| ensures a[i] != b[j] {
      assert b[j] in b;
    }
  }
}
