/** timer_list.c: a list of timers kept in order by a comparison that drops fractions of a
    millisecond and wraps at 32 bits. */
module TimerList {
  import opened Seqs

  datatype Tv = Tv(sec: int, usec: int)

  /** Microseconds */
  function Micros(t: Tv): int { t.sec * 1000000 + t.usec }

  /** C's division: towards zero. */
  function Quotient(a: int, b: int): int
    requires b > 0
  {
    if a >= 0 then a / b else -(-a / b)
  }

  function Remainder(a: int, b: int): int
    requires b > 0
  {
    a - b * Quotient(a, b)
  }

  function Int32(x: int): int { (x + 0x8000_0000) % 0x1_0000_0000 - 0x8000_0000 }

  /** The milliseconds from `t2` to `t1`, as tv_diff computes them. */
  function Millis(t1: Tv, t2: Tv): int { (t1.sec - t2.sec) * 1000 + Quotient(t1.usec - t2.usec, 1000) }

  /** tv_diff: they are returned as an int. */
  function TvDiff(t1: Tv, t2: Tv): int { Int32(Millis(t1, t2)) }

  /** They fit: the times are less than about 24.8 days apart. */
  predicate Close(a: Tv, b: Tv) { -0x8000_0000 <= Millis(a, b) < 0x8000_0000 }

  lemma MillisMeaning(a: Tv, b: Tv)
    ensures -1000 < Micros(a) - Micros(b) - 1000 * Millis(a, b) < 1000
  {
    var d := a.usec - b.usec;
    assert -1000 < d - 1000 * Quotient(d, 1000) < 1000;
  }

  /** The comparison is off by less than a millisecond exactly when the count fits an int. */
  lemma TvDiffMeaning(a: Tv, b: Tv)
    ensures Close(a, b) <==> -1000 < Micros(a) - Micros(b) - 1000 * TvDiff(a, b) < 1000
  {
    MillisMeaning(a, b);
    Wrapped(Millis(a, b));
  }

  lemma Wrapped(x: int)
    ensures exists k :: Int32(x) == x - 0x1_0000_0000 * k
    ensures Int32(x) == x <==> -0x8000_0000 <= x < 0x8000_0000
  {
    assert Int32(x) == x - 0x1_0000_0000 * ((x + 0x8000_0000) / 0x1_0000_0000);
  }

  /** Which way round the comparison puts two times is read off bit 31 of the count; that
      is right for a count that fits an int, and for every other stretch of 24.8 days
      beyond. */
  predicate RightWay(a: Tv, b: Tv) {
    var low := Millis(a, b) % 0x1_0000_0000;
    if Millis(a, b) > 0 then 0 < low < 0x8000_0000 else low == 0 || low >= 0x8000_0000
  }

  /** Timers are told apart the right way round exactly then. */
  lemma RightWayMeaning(a: Tv, b: Tv)
    ensures RightWay(a, b) <==> (TvDiff(a, b) > 0 <==> Millis(a, b) > 0)
    ensures Close(a, b) ==> RightWay(a, b)
    ensures Millis(a, b) > 0 ==> Micros(a) > Micros(b)
    ensures Millis(a, b) <= 0 ==> Micros(a) < Micros(b) + 1000
  {
    MillisMeaning(a, b);
    Sign(Millis(a, b));
  }

  lemma Sign(x: int)
    ensures Int32(x) > 0 <==> 0 < x % 0x1_0000_0000 < 0x8000_0000
  {
  }

  /** The comparison does not order timers: three can each be "not later" than the next,
      the first being later than the last. */
  lemma NotTransitive()
    ensures var a, b, c := Tv(0, 1998), Tv(0, 999), Tv(0, 0);
            TvDiff(a, b) <= 0 && TvDiff(b, c) <= 0 && TvDiff(a, c) > 0
  {
    hide Int32;
    Wrapped(0);
    Wrapped(1);
    assert Quotient(999, 1000) == 0 && Quotient(1998, 1000) == 1;
    hide Quotient;
  }

  /** The comparison can be the wrong way round 24.9 days apart, and is right again at
      49.71. */
  lemma WrapsAround()
    ensures TvDiff(Tv(0, 0), Tv(2147484, 0)) > 0 && !RightWay(Tv(0, 0), Tv(2147484, 0))
    ensures TvDiff(Tv(4294968, 0), Tv(0, 0)) > 0 && RightWay(Tv(4294968, 0), Tv(0, 0))
  {
  }

  // ---------- order in the list ----------

  predicate InRange(order: seq<nat>, time: seq<Tv>) { forall i :: 0 <= i < |order| ==> order[i] < |time| }

  /** An earlier entry is less than a millisecond later than any later entry. */
  predicate Ordered(order: seq<nat>, time: seq<Tv>)
    requires InRange(order, time)
  {
    forall i, j :: 0 <= i < j < |order| ==> Micros(time[order[i]]) < Micros(time[order[j]]) + 1000
  }

  /** Every listed timer is within reach of `t`. */
  predicate AllClose(order: seq<nat>, time: seq<Tv>, t: Tv)
    requires InRange(order, time)
  {
    forall i :: 0 <= i < |order| ==> Close(time[order[i]], t)
  }

  /** Where the scan of event_timeout_add stops. */
  predicate StopsAt(order: seq<nat>, time: seq<Tv>, t: Tv, k: nat)
    requires InRange(order, time)
  {
    && k <= |order|
    && (forall i :: 0 <= i < k ==> TvDiff(time[order[i]], t) <= 0)
    && (k < |order| ==> TvDiff(time[order[k]], t) > 0)
  }

  function Scan(order: seq<nat>, time: seq<Tv>, t: Tv): (k: nat)
    requires InRange(order, time)
    ensures StopsAt(order, time, t, k)
  {
    if order == [] || TvDiff(time[order[0]], t) > 0 then
      0
    else
      assert forall i :: 0 < i < |order| ==> order[i] == order[1..][i - 1];
      1 + Scan(order[1..], time, t)
  }

  lemma StopsOnce(order: seq<nat>, time: seq<Tv>, t: Tv, k: nat)
    requires InRange(order, time) && StopsAt(order, time, t, k)
    ensures k == Scan(order, time, t)
  {
    hide TvDiff, Scan;
  }

  /** The list after event_timeout_add of a timer that is to fire at `t`. */
  function Placed(order: seq<nat>, time: seq<Tv>, ev: nat, t: Tv): seq<nat>
    requires InRange(order, time)
  {
    Insert(order, Scan(order, time, t), ev)
  }

  /** A timer goes behind every entry that the scan passes, those with the same time among them, and
      in front of any later one. */
  lemma PlacedBehind(order: seq<nat>, time: seq<Tv>, ev: nat, t: Tv, i: nat)
    requires InRange(order, time) && i < |order|
    ensures (forall j :: 0 <= j <= i ==> TvDiff(time[order[j]], t) <= 0) ==>
              Placed(order, time, ev, t)[..i + 1] == order[..i + 1]
    ensures TvDiff(time[order[i]], t) > 0 ==>
              |Placed(order, time, ev, t)| == |order| + 1 && Placed(order, time, ev, t)[i + 1..] == order[i..]
  {
    hide TvDiff;
    var k := Scan(order, time, t);
    if TvDiff(time[order[i]], t) > 0 {
      assert k <= i;
    } else if forall j :: 0 <= j <= i ==> TvDiff(time[order[j]], t) <= 0 {
      assert k > i;
    }
  }

  /** Every timer that the scan looks at is told apart from `t` the right way round. */
  predicate ScanRight(order: seq<nat>, time: seq<Tv>, t: Tv)
    requires InRange(order, time)
  {
    forall i :: 0 <= i < |order| && Scanned(order, time, t, i) ==> RightWay(time[order[i]], t)
  }

  /** The scan gets as far as place `i`. */
  predicate Scanned(order: seq<nat>, time: seq<Tv>, t: Tv, i: nat)
    requires InRange(order, time) && i < |order|
  {
    forall j :: 0 <= j < i ==> TvDiff(time[order[j]], t) <= 0
  }

  lemma AllCloseScan(order: seq<nat>, time: seq<Tv>, t: Tv)
    requires InRange(order, time) && AllClose(order, time, t)
    ensures ScanRight(order, time, t)
  {
    forall i | 0 <= i < |order| ensures RightWay(time[order[i]], t) {
      RightWayMeaning(time[order[i]], t);
    }
  }

  /** Insertion keeps the order exactly when the scan compares the right way round. */
  lemma InsertOrdered(order: seq<nat>, time: seq<Tv>, ev: nat, k: nat)
    requires InRange(order, time) && ev < |time|
    requires Ordered(order, time) && StopsAt(order, time, time[ev], k)
    ensures InRange(Insert(order, k, ev), time)
    ensures Ordered(Insert(order, k, ev), time) <==> ScanRight(order, time, time[ev])
  {
    if ScanRight(order, time, time[ev]) {
      KeepsOrder(order, time, ev, k);
    } else {
      var i :| 0 <= i < |order| && Scanned(order, time, time[ev], i) && !RightWay(time[order[i]], time[ev]);
      LosesOrder(order, time, ev, k, i);
    }
  }

  lemma KeepsOrder(order: seq<nat>, time: seq<Tv>, ev: nat, k: nat)
    requires InRange(order, time) && ev < |time|
    requires Ordered(order, time) && StopsAt(order, time, time[ev], k) && ScanRight(order, time, time[ev])
    ensures InRange(Insert(order, k, ev), time) && Ordered(Insert(order, k, ev), time)
  {
    var t := time[ev];
    hide TvDiff, RightWay, Millis, Micros;
    forall i | 0 <= i < k ensures Micros(time[order[i]]) < Micros(t) + 1000 {
      assert Scanned(order, time, t, i);
      RightWayMeaning(time[order[i]], t);
    }
    forall i | k <= i < |order| ensures Micros(t) < Micros(time[order[i]]) + 1000 {
      assert Scanned(order, time, t, k);
      RightWayMeaning(time[order[k]], t);
      assert i == k || Micros(time[order[k]]) < Micros(time[order[i]]) + 1000;
    }
    InsertBetween(order, time, ev, k);
  }

  lemma InsertBetween(order: seq<nat>, time: seq<Tv>, ev: nat, k: nat)
    requires InRange(order, time) && ev < |time| && k <= |order| && Ordered(order, time)
    requires forall i :: 0 <= i < k ==> Micros(time[order[i]]) < Micros(time[ev]) + 1000
    requires forall i :: k <= i < |order| ==> Micros(time[ev]) < Micros(time[order[i]]) + 1000
    ensures InRange(Insert(order, k, ev), time) && Ordered(Insert(order, k, ev), time)
  {
    var after := Insert(order, k, ev);
    hide Micros;
    forall i, j | 0 <= i < j < |after| ensures Micros(time[after[i]]) < Micros(time[after[j]]) + 1000 {
      assert after[i] == if i < k then order[i] else if i == k then ev else order[i - 1];
      assert after[j] == if j < k then order[j] else if j == k then ev else order[j - 1];
    }
  }

  /** A comparison the wrong way round is wrong by 24.8 days or more. */
  lemma LosesOrder(order: seq<nat>, time: seq<Tv>, ev: nat, k: nat, i: nat)
    requires InRange(order, time) && ev < |time| && StopsAt(order, time, time[ev], k)
    requires i < |order| && Scanned(order, time, time[ev], i) && !RightWay(time[order[i]], time[ev])
    ensures InRange(Insert(order, k, ev), time) && !Ordered(Insert(order, k, ev), time)
  {
    var after, t := Insert(order, k, ev), time[ev];
    RightWayMeaning(time[order[i]], t);
    MillisMeaning(time[order[i]], t);
    assert i <= k;
    assert after[k] == ev && after[if i < k then i else i + 1] == order[i];
    if i < k {
      assert !(Micros(time[after[i]]) < Micros(time[after[k]]) + 1000);
    } else {
      assert !(Micros(time[after[k]]) < Micros(time[after[i + 1]]) + 1000);
    }
  }

  /** The scan puts a timer 24.9 days ahead before one that is due at once. */
  lemma InsertOutOfReach()
    ensures var time := [Tv(0, 0), Tv(2147484, 0)];
            StopsAt([0], time, time[1], 0) && !ScanRight([0], time, time[1]) && !Ordered(Insert([0], 0, 1), time)
  {
    WrapsAround();
    var time := [Tv(0, 0), Tv(2147484, 0)];
    assert Scanned([0], time, time[1], 0) && !RightWay(time[[0][0]], time[1]);
    InsertOrdered([0], time, 1, 0);
  }

  function Without(order: seq<nat>, ev: nat): (r: seq<nat>)
    ensures forall i :: 0 <= i < |r| ==> r[i] in order
  {
    if order == [] then [] else if order[0] == ev then order[1..] else [order[0]] + Without(order[1..], ev)
  }

  lemma {:induction false} WithoutAt(order: seq<nat>, ev: nat, k: nat)
    requires k < |order| && order[k] == ev && NoDup(order)
    ensures Without(order, ev) == Cut(order, k)
  {
    if k > 0 {
      WithoutAt(order[1..], ev, k - 1);
      assert Cut(order, k) == [order[0]] + Cut(order[1..], k - 1);
    }
  }

  lemma RemoveOne(order: seq<nat>, time: seq<Tv>, ev: nat)
    requires InRange(order, time) && NoDup(order) && ev in order
    ensures var r := Without(order, ev);
            && NoDup(r) && InRange(r, time) && (forall id :: id in r <==> id in order && id != ev)
            && (Ordered(order, time) ==> Ordered(r, time))
  {
    var k :| 0 <= k < |order| && order[k] == ev;
    WithoutAt(order, ev, k);
    hide Without;
    CutOut(order, time, k);
  }

  lemma CutOut(order: seq<nat>, time: seq<Tv>, k: nat)
    requires InRange(order, time) && NoDup(order) && k < |order|
    ensures var r := Cut(order, k);
            && NoDup(r) && InRange(r, time) && (forall id :: id in r <==> id in order && id != order[k])
            && (Ordered(order, time) ==> Ordered(r, time))
  {
    var r := Cut(order, k);
    assert forall i :: 0 <= i < |r| ==> r[i] == order[if i < k then i else i + 1];
    CutMembers(order, k);
  }

  // ---------- the timers ----------

  /** What a callback may do to any timer: event_timeout_cancel, or event_timeout_set at a
      given reading of the clock. */
  datatype Action = Disarm(id: nat) | Rearm(id: nat, msecs: int, now: Tv)

  /** When event_timeout_set makes a timer fire. */
  function Deadline(now: Tv, msecs: int): Tv {
    var sec, usec := now.sec + Quotient(msecs, 1000), now.usec + Remainder(msecs, 1000) * 1000;
    if usec > 1000000 then Tv(sec + 1, usec - 1000000) else Tv(sec, usec)
  }

  lemma DeadlineMeaning(now: Tv, msecs: int)
    ensures Micros(Deadline(now, msecs)) == Micros(now) + 1000 * msecs
  {
  }

  /** A full million of microseconds is not carried. */
  lemma CarriedLate()
    ensures Deadline(Tv(0, 999000), 1) == Tv(0, 1000000) && Deadline(Tv(0, 999001), 1) == Tv(1, 1)
  {
  }

  /** About 24.8 days, in microseconds. */
  const SPAN := 0x7FFF_FFFE * 1000

  /** The list and the times set. */
  datatype State = State(order: seq<nat>, time: seq<Tv>) {
    predicate OK() { InRange(order, time) }

    function Act(a: Action): (s: State)
      requires OK() && a.id < |time|
      ensures s.OK() && |s.time| == |time|
    {
      var rest := Without(order, a.id);
      match a
      case Disarm(_) => State(rest, time)
      case Rearm(id, msecs, now) =>
        State(Placed(rest, time, id, Deadline(now, msecs)), time[id := Deadline(now, msecs)])
    }

    /** After a callback. */
    function Call(actions: seq<Action>): (s: State)
      requires OK() && Existing(actions, |time|)
      ensures s.OK() && |s.time| == |time|
      decreases |actions|
    {
      if actions == [] then this else
        var last := |actions| - 1;
        assert actions[last] in actions;
        Call(actions[..last]).Act(actions[last])
    }

    /** After a turn of event_process_timeouts that fires `id`, whose callback does `actions`. */
    function Turn(id: nat, actions: seq<Action>): (s: State)
      requires OK() && Existing(actions, |time|)
      ensures s.OK() && |s.time| == |time|
    {
      State(Without(order, id), time).Call(actions)
    }

    /** After turns that fire `fired`. */
    ghost function Turns(cb: (nat, nat) -> seq<Action>, fired: seq<nat>): (s: State)
      requires OK() && AllExist(cb, |time|)
      ensures s.OK() && |s.time| == |time|
      decreases |fired|
    {
      if fired == [] then this else
        var n := |fired| - 1;
        Turns(cb, fired[..n]).Turn(fired[n], cb(n, fired[n]))
    }

    /** Timer `id` is first in the list, and due. */
    predicate Next(id: nat, tv: Tv)
      requires OK()
    {
      order != [] && order[0] == id && TvDiff(time[id], tv) <= 0
    }

    /** The timers that event_process_timeouts fires at `tv`, and no more. */
    ghost predicate Fires(tv: Tv, cb: (nat, nat) -> seq<Action>, fired: seq<nat>)
      requires OK() && AllExist(cb, |time|)
    {
      && (forall n :: 0 <= n < |fired| ==> Turns(cb, fired[..n]).Next(fired[n], tv))
      && forall id :: !Turns(cb, fired).Next(id, tv)
    }
  }

  /** A stretch of time short enough for the comparison. */
  predicate InWindow(lo: int, t: Tv) { lo <= Micros(t) <= lo + SPAN }

  /** Callbacks name existing timers. */
  predicate Existing(actions: seq<Action>, n: nat) { forall a :: a in actions ==> a.id < n }

  ghost predicate AllExist(cb: (nat, nat) -> seq<Action>, n: nat) { forall k, id :: Existing(cb(k, id), n) }

  /** They see a clock that has not gone back, and set timers at least a millisecond ahead,
      within the window. */
  predicate Proper(a: Action, tv: Tv, lo: int) {
    a.Rearm? ==> a.msecs >= 1 && Micros(a.now) >= Micros(tv) && InWindow(lo, Deadline(a.now, a.msecs))
  }

  predicate AllProper(actions: seq<Action>, tv: Tv, lo: int) { forall a :: a in actions ==> Proper(a, tv, lo) }

  /** The listed timers that event_process_timeouts would fire at `tv`. */
  function Due(order: seq<nat>, time: seq<Tv>, tv: Tv): set<nat> {
    set id | id in order && id < |time| && TvDiff(time[id], tv) <= 0
  }

  function Ids(actions: seq<Action>): set<nat> { set a | a in actions :: a.id }

  lemma IdsMore(actions: seq<Action>, k: nat)
    requires k < |actions|
    ensures Ids(actions[..k + 1]) == Ids(actions[..k]) + {actions[k].id}
  {
    assert actions[..k + 1] == actions[..k] + [actions[k]];
    assert actions[..k + 1][k] == actions[k];
  }

  /** No timer has become due, and those that still are have kept their times. */
  ghost predicate DueKept(order0: seq<nat>, time0: seq<Tv>, order: seq<nat>, time: seq<Tv>, tv: Tv) {
    forall id :: id in Due(order, time, tv) ==> id in Due(order0, time0, tv) && time[id] == time0[id]
  }

  lemma DueKeptTwice(order0: seq<nat>, time0: seq<Tv>, order1: seq<nat>, time1: seq<Tv>, order2: seq<nat>,
                     time2: seq<Tv>, tv: Tv)
    requires DueKept(order0, time0, order1, time1, tv) && DueKept(order1, time1, order2, time2, tv)
    ensures DueKept(order0, time0, order2, time2, tv)
  {
  }

  lemma NothingTouched(order: seq<nat>, time: seq<Tv>, tv: Tv)
    ensures Untouched(order, time, order, time, Ids([])) && DueKept(order, time, order, time, tv)
  {
  }

  /** Apart from `ids`, the same timers are listed, with the same times. */
  ghost predicate Untouched(order0: seq<nat>, time0: seq<Tv>, order: seq<nat>, time: seq<Tv>, ids: set<nat>) {
    && |time0| == |time|
    && forall id: nat :: id < |time| && id !in ids ==> (id in order <==> id in order0) && time[id] == time0[id]
  }

  lemma UntouchedTwice(order0: seq<nat>, time0: seq<Tv>, order1: seq<nat>, time1: seq<Tv>, order2: seq<nat>,
                       time2: seq<Tv>, ids: set<nat>, more: set<nat>, all: set<nat>)
    requires Untouched(order0, time0, order1, time1, ids) && Untouched(order1, time1, order2, time2, more)
    requires ids <= all && more <= all
    ensures Untouched(order0, time0, order2, time2, all)
  {
  }

  class Timers {
    var order: seq<nat>
    var time: seq<Tv>
    var pending: seq<bool>

    predicate Valid()
      reads this
    {
      && |time| == |pending| && InRange(order, time) && NoDup(order)
      && forall id :: 0 <= id < |pending| ==> (pending[id] <==> id in order)
    }

    function Now(): State
      reads this
    {
      State(order, time)
    }

    constructor (n: nat)
      ensures Valid() && order == [] && |time| == n && Ordered(order, time)
    {
      order := [];
      time := seq(n, i => Tv(0, 0));
      pending := seq(n, i => false);
    }

    /** event_timeout_add */
    method Add(ev: nat) returns (r: int)
      requires Valid() && ev < |time|
      modifies this
      ensures Valid() && time == old(time)
      ensures old(pending[ev]) ==> r == -1 && order == old(order) && pending == old(pending)
      ensures !old(pending[ev]) ==> r == 0 && pending == old(pending)[ev := true]
      ensures !old(pending[ev]) ==> order == Placed(old(order), time, ev, time[ev])
      ensures !old(pending[ev]) && old(Ordered(order, time)) ==>
                (Ordered(order, time) <==> old(ScanRight(order, time, time[ev])))
    {
      hide Ordered, ScanRight;
      if pending[ev] {
        return -1;
      }
      ghost var before := order;
      var h: nat := 0;
      while h < |order|
        invariant h <= |order| && forall i :: 0 <= i < h ==> TvDiff(time[order[i]], time[ev]) <= 0
      {
        if TvDiff(time[order[h]], time[ev]) > 0 {
          break;
        }
        h := h + 1;
      }
      StopsOnce(before, time, time[ev], h);
      hide TvDiff;
      order := Insert(order, h, ev);
      pending := pending[ev := true];
      Inserted(before, h, ev);
      if Ordered(before, time) {
        InsertOrdered(before, time, ev, h);
      }
      r := 0;
    }

    /** event_timeout_cancel */
    method Cancel(ev: nat) returns (r: int)
      requires Valid() && ev < |time|
      modifies this
      ensures Valid() && time == old(time) && order == Without(old(order), ev)
      ensures r == (if old(pending[ev]) then 0 else -1) && pending == old(pending)[ev := false]
      ensures forall id :: id in order <==> id in old(order) && id != ev
      ensures old(Ordered(order, time)) ==> Ordered(order, time)
    {
      if !pending[ev] {
        NotListed(order, ev);
        return -1;
      }
      RemoveOne(order, time, ev);
      order := Without(order, ev);
      pending := pending[ev := false];
      r := 0;
    }

    /** event_timeout_set; `now` is what the clock shows. */
    method Set(ev: nat, msecs: int, now: Tv) returns (r: int)
      requires Valid() && ev < |time|
      modifies this
      ensures Valid() && time == old(time)[ev := Deadline(now, msecs)]
      ensures r == 0 && pending == old(pending)[ev := true]
      ensures order == Placed(Without(old(order), ev), old(time), ev, Deadline(now, msecs))
      ensures forall id :: id in order <==> id in old(order) || id == ev
      ensures old(Ordered(order, time)) ==>
                (Ordered(order, time) <==> ScanRight(Without(old(order), ev), old(time), Deadline(now, msecs)))
    {
      hide TvDiff, Deadline, Without, Placed, Ordered, ScanRight;
      if pending[ev] {
        var _ := Cancel(ev);
      } else {
        NotListed(order, ev);
      }
      r := Arm(ev, Deadline(now, msecs));
    }

    /** The end of event_timeout_set. */
    method Arm(ev: nat, t: Tv) returns (r: int)
      requires Valid() && ev < |time| && !pending[ev]
      modifies this
      ensures Valid() && time == old(time)[ev := t]
      ensures r == 0 && pending == old(pending)[ev := true] && order == Placed(old(order), old(time), ev, t)
      ensures forall id :: id in order <==> id in old(order) || id == ev
      ensures old(Ordered(order, time)) ==> (Ordered(order, time) <==> ScanRight(old(order), old(time), t))
    {
      hide TvDiff, Placed, Ordered, ScanRight;
      ghost var others := order;
      SameTimes(order, time, ev, t);
      time := time[ev := t];
      r := Add(ev);
      AfterInsert(others, time, ev, t);
    }

    /** event_get_next_timeout: if the first timer is within reach of the clock, it is due when
        `r` more milliseconds are over, and no timer two of them before. */
    method NextTimeout(tv: Tv) returns (r: int)
      requires Valid()
      ensures order == [] <==> r == -1
      ensures order != [] ==> r == if TvDiff(time[order[0]], tv) < 0 then 0 else TvDiff(time[order[0]], tv)
      ensures order != [] && Close(time[order[0]], tv) ==>
                r >= 0 && Micros(time[order[0]]) < Micros(tv) + 1000 * r + 1000
      ensures r > 0 && Close(time[order[0]], tv) && Ordered(order, time) ==>
                forall i :: 0 <= i < |order| ==> Micros(time[order[i]]) > Micros(tv) + 1000 * r - 2000
    {
      if order == [] {
        return -1;
      }
      TvDiffMeaning(time[order[0]], tv);
      hide TvDiff, Close;
      var diff := TvDiff(time[order[0]], tv);
      r := if diff < 0 then 0 else diff;
    }

    /** Every listed timer is in the window that starts at `lo`. */
    ghost predicate Within(lo: int)
      requires Valid()
      reads this
    {
      forall i :: 0 <= i < |order| ==> InWindow(lo, time[order[i]])
    }

    /** In order, within the window and the clock `tv` too. */
    ghost predicate Orderly(tv: Tv, lo: int)
      requires Valid()
      reads this
    {
      Ordered(order, time) && Within(lo) && InWindow(lo, tv)
    }

    /** One thing a callback does. */
    method RunAction(a: Action, ghost tv: Tv, ghost lo: int)
      requires Valid() && a.id < |time|
      modifies this
      ensures Valid() && |time| == old(|time|) && Untouched(old(order), old(time), order, time, {a.id})
      ensures Now() == old(Now()).Act(a)
      ensures old(Orderly(tv, lo)) && Proper(a, tv, lo) ==>
                Orderly(tv, lo) && DueKept(old(order), old(time), order, time, tv)
    {
      ghost var order0, time0, orderly := order, time, Orderly(tv, lo) && Proper(a, tv, lo);
      hide TvDiff, Ordered, ScanRight, Deadline, Without, InWindow, Placed, DueKept, NoDup, Due, Untouched;
      match a
      case Disarm(id) => {
        var _ := Cancel(id);
      }
      case Rearm(id, msecs, now) => {
        if orderly {
          WindowScan(order, time, id, Deadline(now, msecs), lo);
          NotDueYet(now, msecs, tv, lo);
        }
        var _ := Set(id, msecs, now);
      }
      ActionDone(order0, time0, order, time, a.id, tv, lo);
    }

    /** A callback. */
    method RunCallback(actions: seq<Action>, ghost tv: Tv, ghost lo: int)
      requires Valid() && Existing(actions, |time|)
      modifies this
      ensures Valid() && |time| == old(|time|) && Untouched(old(order), old(time), order, time, Ids(actions))
      ensures Now() == old(Now()).Call(actions)
      ensures old(Orderly(tv, lo)) && AllProper(actions, tv, lo) ==>
                Orderly(tv, lo) && DueKept(old(order), old(time), order, time, tv)
    {
      hide Ordered, InWindow, DueKept, Untouched, Ids;
      ghost var orderly := Orderly(tv, lo) && AllProper(actions, tv, lo);
      NothingTouched(order, time, tv);
      for k := 0 to |actions|
        invariant Valid() && |time| == old(|time|)
        invariant Untouched(old(order), old(time), order, time, Ids(actions[..k]))
        invariant orderly ==> Orderly(tv, lo) && DueKept(old(order), old(time), order, time, tv)
        invariant Now() == old(Now()).Call(actions[..k])
      {
        ghost var order0, time0 := order, time;
        RunAction(actions[k], tv, lo);
        IdsMore(actions, k);
        assert actions[..k + 1][..k] == actions[..k];
        UntouchedTwice(old(order), old(time), order0, time0, order, time, Ids(actions[..k]), {actions[k].id},
                       Ids(actions[..k + 1]));
        if orderly {
          DueKeptTwice(old(order), old(time), order0, time0, order, time, tv);
        }
      }
      assert actions[..|actions|] == actions;
    }

    /** One turn of event_process_timeouts: the first timer is taken off and called. */
    method FireFirst(ghost tv: Tv, actions: seq<Action>, ghost lo: int)
      requires Valid() && Existing(actions, |time|) && order != []
      modifies this
      ensures Valid() && |time| == old(|time|)
      ensures Untouched(old(order), old(time), order, time, Ids(actions) + {old(order[0])})
      ensures old(Orderly(tv, lo)) && AllProper(actions, tv, lo) ==>
                && Orderly(tv, lo) && DueKept(old(order), old(time), order, time, tv)
                && old(order[0]) !in Due(order, time, tv)
      ensures Now() == old(Now()).Turn(old(order[0]), actions)
    {
      ghost var order0, time0, orderly := order, time, Orderly(tv, lo) && AllProper(actions, tv, lo);
      var t := order[0];
      hide TvDiff, Ordered, InWindow;
      var _ := Cancel(t);
      DueWithout(order0, order, time, t, tv);
      ghost var order1 := order;
      assert Untouched(order0, time0, order1, time0, {t});
      hide Due;
      RunCallback(actions, tv, lo);
      UntouchedTwice(order0, time0, order1, time0, order, time, {t}, Ids(actions), Ids(actions) + {t});
    }

    /** event_process_timeouts. `cb(n, id)` is what the callback of timer `id` does when it
        is the `n`th to fire; `fired` lists the timers fired. */
    method Process(tv: Tv, cb: (nat, nat) -> seq<Action>, ghost lo: int) returns (fired: seq<nat>)
      requires Valid() && Orderly(tv, lo)
      requires AllExist(cb, |time|) && forall n, id :: AllProper(cb(n, id), tv, lo)
      modifies this
      ensures Valid() && Orderly(tv, lo)
      ensures old(Now()).Fires(tv, cb, fired) && Now() == old(Now()).Turns(cb, fired)
      ensures order == [] || TvDiff(time[order[0]], tv) > 0
      ensures forall i :: 0 <= i < |order| ==> Micros(tv) - Micros(time[order[i]]) < 1000
      ensures NoDup(fired) && forall i :: 0 <= i < |fired| ==> fired[i] in old(order)
      ensures forall i :: 0 <= i < |fired| ==> fired[i] < |old(time)| && TvDiff(old(time)[fired[i]], tv) <= 0
      ensures forall i :: 0 <= i < |fired| ==>
                fired[i] < |old(time)| && Micros(old(time)[fired[i]]) - Micros(tv) < 1000
      ensures OverdueHandled(old(order), old(time), tv, cb, fired)
      ensures Untouched(old(order), old(time), order, time, Touched(cb, fired))
    {
      hide Ordered, InWindow, TvDiff, Close, Due, DueKept, Untouched, FiredSoFar, OverdueHandled, NoDup, Touched,
           State.Turn, State.Turns, State.Fires, Running;
      fired := [];
      NothingDone(Now(), tv, cb);
      while order != []
        invariant Valid() && Orderly(tv, lo) && |time| == old(|time|)
        invariant FiredSoFar(fired, old(order), old(time), tv, Due(order, time, tv))
        invariant DueKept(old(order), old(time), order, time, tv)
        invariant Untouched(old(order), old(time), order, time, Touched(cb, fired))
        invariant Running(old(Now()), tv, cb, fired, Now())
        decreases Due(order, time, tv)
      {
        var t := order[0];
        if TvDiff(time[t], tv) > 0 {
          break;
        }
        ghost var s := Now();
        FirstIsDue(order, time, tv);
        FireFirst(tv, cb(|fired|, t), lo);
        FiredMore(fired, old(order), old(time), s, Now(), tv, t);
        Handled(cb, old(Now()), s, Now(), fired, t);
        OneMoreTurn(old(Now()), tv, cb, fired, s, t);
        fired := fired + [t];
      }
      LastTurn(old(Now()), tv, cb, fired, Now());
      FiredAll(fired, old(order), old(time), tv, Due(order, time, tv), lo);
      NoneOverdue(order, time, tv, lo);
      AllHandled(old(Now()), Now(), tv, cb, fired);
    }
  }

  /** The timers fired, and those that their callbacks named. */
  function Touched(cb: (nat, nat) -> seq<Action>, fired: seq<nat>): set<nat> {
    if fired == [] then {} else
      var n := |fired| - 1;
      Touched(cb, fired[..n]) + Ids(cb(n, fired[n])) + {fired[n]}
  }

  /** Every timer overdue by a millisecond or more was fired, or was named by a callback. */
  ghost predicate OverdueHandled(order: seq<nat>, time: seq<Tv>, tv: Tv, cb: (nat, nat) -> seq<Action>, fired: seq<nat>)
    requires InRange(order, time)
  {
    forall i :: 0 <= i < |order| && Micros(tv) - Micros(time[order[i]]) >= 1000 ==> order[i] in Touched(cb, fired)
  }

  /** What `Fires` says of the turns so far. */
  ghost predicate Running(s: State, tv: Tv, cb: (nat, nat) -> seq<Action>, fired: seq<nat>, r: State) {
    && s.OK() && AllExist(cb, |s.time|) && r == s.Turns(cb, fired)
    && forall n :: 0 <= n < |fired| ==> s.Turns(cb, fired[..n]).Next(fired[n], tv)
  }

  lemma OneMoreTurn(s: State, tv: Tv, cb: (nat, nat) -> seq<Action>, fired: seq<nat>, r: State, id: nat)
    requires Running(s, tv, cb, fired, r) && r.Next(id, tv)
    ensures Running(s, tv, cb, fired + [id], r.Turn(id, cb(|fired|, id)))
  {
    var more := fired + [id];
    assert more[..|fired|] == fired;
    hide State.Turn, State.Next;
    forall n | 0 <= n < |more| ensures s.Turns(cb, more[..n]).Next(more[n], tv) {
      assert n < |fired| ==> more[..n] == fired[..n];
    }
  }

  lemma LastTurn(s: State, tv: Tv, cb: (nat, nat) -> seq<Action>, fired: seq<nat>, r: State)
    requires Running(s, tv, cb, fired, r) && forall id :: !r.Next(id, tv)
    ensures s.Fires(tv, cb, fired) && r == s.Turns(cb, fired)
  {
  }

  /** Idle callbacks: the timers at the front of the list are fired, in order. */
  lemma {:induction false} IdleTurns(s: State, tv: Tv, cb: (nat, nat) -> seq<Action>, fired: seq<nat>, r: State)
    requires Running(s, tv, cb, fired, r) && forall n :: 0 <= n < |fired| ==> cb(n, fired[n]) == []
    ensures fired + r.order == s.order && r.time == s.time
    decreases |fired|
  {
    hide State.Turn, State.Next, AllExist, Existing;
    if fired != [] {
      var n := |fired| - 1;
      var before := s.Turns(cb, fired[..n]);
      OneFewer(s, tv, cb, fired, r);
      hide State.Turns, Running;
      assert forall k :: 0 <= k < n ==> fired[..n][k] == fired[k];
      IdleTurns(s, tv, cb, fired[..n], before);
      IdleTurn(before, fired[n], tv);
      assert fired == fired[..n] + [fired[n]];
    }
  }

  lemma IdleTurn(s: State, id: nat, tv: Tv)
    requires s.OK() && s.Next(id, tv)
    ensures s.Turn(id, []) == State(s.order[1..], s.time) && s.order == [id] + s.order[1..]
  {
    hide TvDiff;
  }

  lemma OneFewer(s: State, tv: Tv, cb: (nat, nat) -> seq<Action>, fired: seq<nat>, r: State)
    requires Running(s, tv, cb, fired, r) && fired != []
    ensures var n := |fired| - 1;
            var before := s.Turns(cb, fired[..n]);
            && Running(s, tv, cb, fired[..n], before) && before.Next(fired[n], tv)
            && r == before.Turn(fired[n], cb(n, fired[n]))
  {
    var n := |fired| - 1;
    var first := fired[..n];
    hide State.Turn, State.Next, AllExist;
    forall k | 0 <= k < n ensures s.Turns(cb, first[..k]).Next(first[k], tv) {
      assert first[..k] == fired[..k] && first[k] == fired[k];
    }
    assert fired[..n + 1] == fired;
    assert s.Turns(cb, fired[..n]).Next(fired[n], tv);
  }

  /** No timer fired twice, none is due again, and each was due from the start. */
  ghost predicate FiredSoFar(fired: seq<nat>, order0: seq<nat>, time0: seq<Tv>, tv: Tv, due: set<nat>) {
    NoDup(fired) && forall i :: 0 <= i < |fired| ==> fired[i] !in due && fired[i] in Due(order0, time0, tv)
  }

  lemma FirstIsDue(order: seq<nat>, time: seq<Tv>, tv: Tv)
    requires order != [] && order[0] < |time| && TvDiff(time[order[0]], tv) <= 0
    ensures order[0] in Due(order, time, tv)
  {
  }

  lemma FiredMore(fired: seq<nat>, order0: seq<nat>, time0: seq<Tv>, s: State, r: State, tv: Tv, t: nat)
    requires FiredSoFar(fired, order0, time0, tv, Due(s.order, s.time, tv))
    requires DueKept(order0, time0, s.order, s.time, tv) && DueKept(s.order, s.time, r.order, r.time, tv)
    requires t in Due(s.order, s.time, tv) && t !in Due(r.order, r.time, tv)
    ensures FiredSoFar(fired + [t], order0, time0, tv, Due(r.order, r.time, tv))
    ensures DueKept(order0, time0, r.order, r.time, tv) && Due(r.order, r.time, tv) < Due(s.order, s.time, tv)
  {
    DueKeptTwice(order0, time0, s.order, s.time, r.order, r.time, tv);
    hide Due;
  }

  lemma FiredAll(fired: seq<nat>, order: seq<nat>, time: seq<Tv>, tv: Tv, due: set<nat>, lo: int)
    requires InRange(order, time) && InWindow(lo, tv) && forall i :: 0 <= i < |order| ==> InWindow(lo, time[order[i]])
    requires FiredSoFar(fired, order, time, tv, due)
    ensures NoDup(fired) && forall i :: 0 <= i < |fired| ==> fired[i] in order && fired[i] < |time|
    ensures forall i :: 0 <= i < |fired| ==>
              TvDiff(time[fired[i]], tv) <= 0 && Micros(time[fired[i]]) - Micros(tv) < 1000
  {
    forall i | 0 <= i < |fired|
      ensures fired[i] in order && fired[i] < |time|
      ensures TvDiff(time[fired[i]], tv) <= 0 && Micros(time[fired[i]]) - Micros(tv) < 1000
    {
      assert fired[i] in Due(order, time, tv);
      var j :| 0 <= j < |order| && order[j] == fired[i];
      NotEarly(time[fired[i]], tv, lo);
    }
  }

  lemma NothingDone(s: State, tv: Tv, cb: (nat, nat) -> seq<Action>)
    requires s.OK() && AllExist(cb, |s.time|)
    ensures FiredSoFar([], s.order, s.time, tv, Due(s.order, s.time, tv)) && Running(s, tv, cb, [], s)
    ensures Untouched(s.order, s.time, s.order, s.time, Touched(cb, []))
    ensures DueKept(s.order, s.time, s.order, s.time, tv)
  {
  }

  lemma Handled(cb: (nat, nat) -> seq<Action>, s0: State, s: State, r: State, fired: seq<nat>, t: nat)
    requires Untouched(s0.order, s0.time, s.order, s.time, Touched(cb, fired))
    requires Untouched(s.order, s.time, r.order, r.time, Ids(cb(|fired|, t)) + {t})
    ensures Untouched(s0.order, s0.time, r.order, r.time, Touched(cb, fired + [t]))
  {
    assert (fired + [t])[..|fired|] == fired;
    UntouchedTwice(s0.order, s0.time, s.order, s.time, r.order, r.time, Touched(cb, fired), Ids(cb(|fired|, t)) + {t},
                   Touched(cb, fired + [t]));
  }

  lemma NotEarly(t: Tv, tv: Tv, lo: int)
    requires InWindow(lo, t) && InWindow(lo, tv) && TvDiff(t, tv) <= 0
    ensures Micros(t) - Micros(tv) < 1000
  {
    WindowClose(t, tv, lo);
    TvDiffMeaning(t, tv);
  }

  lemma AllHandled(s: State, r: State, tv: Tv, cb: (nat, nat) -> seq<Action>, fired: seq<nat>)
    requires s.OK() && r.OK() && Untouched(s.order, s.time, r.order, r.time, Touched(cb, fired))
    requires forall i :: 0 <= i < |r.order| ==> Micros(tv) - Micros(r.time[r.order[i]]) < 1000
    ensures OverdueHandled(s.order, s.time, tv, cb, fired)
  {
    forall i | 0 <= i < |s.order| && s.order[i] !in Touched(cb, fired)
      ensures Micros(tv) - Micros(s.time[s.order[i]]) < 1000
    {
      assert s.order[i] in r.order;
      var j :| 0 <= j < |r.order| && r.order[j] == s.order[i];
    }
  }

  lemma {:induction false} NotListed(order: seq<nat>, ev: nat)
    requires ev !in order
    ensures Without(order, ev) == order
  {
    if order != [] {
      NotListed(order[1..], ev);
    }
  }

  lemma Inserted(order: seq<nat>, k: nat, ev: nat)
    requires k <= |order| && NoDup(order) && ev !in order
    ensures NoDup(Insert(order, k, ev)) && forall id :: id in Insert(order, k, ev) <==> id in order || id == ev
  {
    var r := Insert(order, k, ev);
    assert r[k] == ev;
    forall i | 0 <= i < |order| ensures order[i] in r { assert r[if i < k then i else i + 1] == order[i]; }
    assert forall i :: 0 <= i < |r| && i != k ==> r[i] == order[if i < k then i else i - 1];
  }

  lemma AfterInsert(order: seq<nat>, time: seq<Tv>, ev: nat, t: Tv)
    requires NoDup(order) && ev !in order && InRange(order, time) && ev < |time|
    ensures forall id :: id in Placed(order, time, ev, t) <==> id in order || id == ev
  {
    Inserted(order, Scan(order, time, t), ev);
  }

  /** Changing the time of a timer that is not listed changes nothing for the others. */
  lemma SameTimes(order: seq<nat>, time: seq<Tv>, ev: nat, t: Tv)
    requires InRange(order, time) && ev < |time| && ev !in order
    ensures InRange(order, time[ev := t]) && (Ordered(order, time) ==> Ordered(order, time[ev := t]))
    ensures ScanRight(order, time, t) <==> ScanRight(order, time[ev := t], t)
    ensures InRange(order, time[ev := t]) && Placed(order, time[ev := t], ev, t) == Placed(order, time, ev, t)
  {
    var time' := time[ev := t];
    assert forall i :: 0 <= i < |order| ==> time'[order[i]] == time[order[i]];
    hide TvDiff, RightWay;
    assert forall i :: 0 <= i < |order| ==> (Scanned(order, time, t, i) <==> Scanned(order, time', t, i));
    StopsOnce(order, time', t, Scan(order, time, t));
  }

  // ---------- within the window ----------

  lemma WindowClose(t1: Tv, t2: Tv, lo: int)
    requires InWindow(lo, t1) && InWindow(lo, t2)
    ensures Close(t1, t2)
  {
    MillisMeaning(t1, t2);
  }

  lemma WindowScan(order: seq<nat>, time: seq<Tv>, ev: nat, t: Tv, lo: int)
    requires InRange(order, time) && InWindow(lo, t) && forall i :: 0 <= i < |order| ==> InWindow(lo, time[order[i]])
    ensures ScanRight(Without(order, ev), time, t)
  {
    var r := Without(order, ev);
    hide Without, InWindow, Close;
    forall i | 0 <= i < |r| ensures Close(time[r[i]], t) {
      var j :| 0 <= j < |order| && order[j] == r[i];
      WindowClose(time[r[i]], t, lo);
    }
    AllCloseScan(r, time, t);
  }

  /** A turn whose callback sets the timer again leaves it due just if the new deadline is
      due by the comparison. */
  lemma FiresAgain(s: State, tv: Tv, now: Tv, msecs: int)
    requires s.OK() && NoDup(s.order) && s.order != []
    ensures var ev := s.order[0];
            var r := s.Turn(ev, [Rearm(ev, msecs, now)]);
            ev in Due(r.order, r.time, tv) <==> TvDiff(Deadline(now, msecs), tv) <= 0
  {
    var ev, t := s.order[0], Deadline(now, msecs);
    var rest, a := Without(s.order, ev), Rearm(ev, msecs, now);
    RemoveOne(s.order, s.time, ev);
    hide TvDiff, Without, Deadline, Placed, State.Act;
    OneAction(State(rest, s.time), a);
    ActsAgain(rest, s.time, ev, msecs, now);
    AfterInsert(rest, s.time, ev, t);
  }

  lemma ActsAgain(rest: seq<nat>, time: seq<Tv>, ev: nat, msecs: int, now: Tv)
    requires InRange(rest, time) && ev !in rest && ev < |time|
    ensures State(rest, time).Act(Rearm(ev, msecs, now)) ==
            State(Placed(rest, time, ev, Deadline(now, msecs)), time[ev := Deadline(now, msecs)])
  {
    hide Placed, Deadline, Without;
    NotListed(rest, ev);
  }

  lemma OneAction(s: State, a: Action)
    requires s.OK() && a.id < |s.time|
    ensures s.Call([a]) == s.Act(a)
  {
    assert [a][..0] == [];
    assert s.Call([a][..0]) == s;
  }

  /** A callback's actions act one after the other. */
  lemma CallOrder(s: State, a: Action, b: Action)
    requires s.OK() && a.id < |s.time| && b.id < |s.time|
    ensures Existing([a, b], |s.time|) && s.Call([a, b]) == s.Act(a).Act(b) && s.Call([]) == s
  {
    OneAction(s, a);
    hide State.Act;
    assert [a, b][..1] == [a];
  }

  /** So the loop need not end: when the only timer is due and its callback sets it 0 ms ahead
      of a clock that stands still, the turn ends where it began. */
  lemma EndlessTurn(t: Tv)
    requires t.usec <= 1000000
    ensures var s := State([0], [t]);
            s.Next(0, t) && s.Turn(0, [Rearm(0, 0, t)]) == s
  {
    var s, a := State([0], [t]), Rearm(0, 0, t);
    assert Millis(t, t) == 0;
    assert s.Next(0, t) && Deadline(t, 0) == t;
    assert Without([0], 0) == [] && Without([], 0) == [] && Scan([], [t], t) == 0;
    hide TvDiff, Deadline, Without, Scan;
    OneAction(State([], [t]), a);
    assert State([], [t]).Act(a) == State([] + [0] + [], [t]);
  }

  lemma NotDueYet(now: Tv, msecs: int, tv: Tv, lo: int)
    requires InWindow(lo, tv) && InWindow(lo, Deadline(now, msecs)) && msecs >= 1 && Micros(now) >= Micros(tv)
    ensures TvDiff(Deadline(now, msecs), tv) > 0
  {
    DeadlineMeaning(now, msecs);
    WindowClose(Deadline(now, msecs), tv, lo);
    TvDiffMeaning(Deadline(now, msecs), tv);
  }

  lemma StillWithin(order0: seq<nat>, time0: seq<Tv>, order: seq<nat>, time: seq<Tv>, ev: nat, lo: int)
    requires InRange(order0, time0) && InRange(order, time) && Untouched(order0, time0, order, time, {ev})
    requires forall i :: 0 <= i < |order0| ==> InWindow(lo, time0[order0[i]])
    requires ev in order && ev < |time| ==> InWindow(lo, time[ev])
    ensures forall i :: 0 <= i < |order| ==> InWindow(lo, time[order[i]])
  {
    hide InWindow;
    forall i | 0 <= i < |order| && order[i] != ev ensures InWindow(lo, time[order[i]]) {
      assert order[i] in order0;
      var j :| 0 <= j < |order0| && order0[j] == order[i];
    }
  }

  lemma ActionDone(order0: seq<nat>, time0: seq<Tv>, order: seq<nat>, time: seq<Tv>, ev: nat, tv: Tv, lo: int)
    requires InRange(order0, time0) && InRange(order, time) && |time0| == |time| && ev < |time|
    requires time == time0[ev := time[ev]] && forall id :: id in order && id != ev <==> id in order0 && id != ev
    ensures Untouched(order0, time0, order, time, {ev})
    ensures (forall i :: 0 <= i < |order0| ==> InWindow(lo, time0[order0[i]]))
            && (ev in order ==> InWindow(lo, time[ev]) && TvDiff(time[ev], tv) > 0) ==>
              (forall i :: 0 <= i < |order| ==> InWindow(lo, time[order[i]])) && DueKept(order0, time0, order, time, tv)
  {
    hide TvDiff, InWindow, DueKept;
    if (forall i :: 0 <= i < |order0| ==> InWindow(lo, time0[order0[i]]))
       && (ev in order ==> InWindow(lo, time[ev]) && TvDiff(time[ev], tv) > 0) {
      StillWithin(order0, time0, order, time, ev, lo);
      DueStays(order0, time0, order, time, ev, tv);
    }
  }

  lemma DueStays(order0: seq<nat>, time0: seq<Tv>, order: seq<nat>, time: seq<Tv>, ev: nat, tv: Tv)
    requires Untouched(order0, time0, order, time, {ev})
    requires ev in order && ev < |time| ==> TvDiff(time[ev], tv) > 0
    ensures DueKept(order0, time0, order, time, tv)
  {
    hide TvDiff;
  }

  lemma DueWithout(order0: seq<nat>, order: seq<nat>, time: seq<Tv>, ev: nat, tv: Tv)
    requires forall id :: id in order <==> id in order0 && id != ev
    ensures Due(order, time, tv) == Due(order0, time, tv) - {ev}
  {
    hide TvDiff;
  }

  /** Once the first timer is not due, none is overdue by a millisecond. */
  lemma NoneOverdue(order: seq<nat>, time: seq<Tv>, tv: Tv, lo: int)
    requires InRange(order, time) && Ordered(order, time) && InWindow(lo, tv)
    requires forall i :: 0 <= i < |order| ==> InWindow(lo, time[order[i]])
    requires order != [] ==> TvDiff(time[order[0]], tv) > 0
    ensures forall i :: 0 <= i < |order| ==> Micros(tv) - Micros(time[order[i]]) < 1000
  {
    if order != [] {
      WindowClose(time[order[0]], tv, lo);
      TvDiffMeaning(time[order[0]], tv);
      hide TvDiff;
    }
  }
}
