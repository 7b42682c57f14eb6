/** Whole runs of a program over its timers: settings, cancellations and processings, in a window
    of time that moves on with every processing. */
module TimerRun {
  import opened Seqs
  import opened TimerList

  /** What the program does: set or cancel a timer, or call event_process_timeouts. */
  datatype Deed = Do(a: Action) | Tick(tv: Tv, cb: (nat, nat) -> seq<Action>)

  /** It names existing timers, and its times are in the window. */
  ghost predicate Allowed(d: Deed, n: nat, lo: int) {
    match d
    case Do(a) => a.id < n && (a.Rearm? ==> InWindow(lo, Deadline(a.now, a.msecs)))
    case Tick(tv, cb) => InWindow(lo, tv) && AllExist(cb, n) && forall k, id :: AllProper(cb(k, id), tv, lo)
  }

  /** Where the window starts after `deeds`: no timer set for an earlier time is listed any more. */
  function Low(deeds: seq<Deed>, lo: int): int {
    if deeds == [] then lo else
      var before, last := Low(deeds[..|deeds| - 1], lo), deeds[|deeds| - 1];
      if last.Tick? && Micros(last.tv) - 999 > before then Micros(last.tv) - 999 else before
  }

  /** Every deed has its times in the window at its turn. */
  ghost predicate AllAllowed(deeds: seq<Deed>, n: nat, lo: int) {
    forall k :: 0 <= k < |deeds| ==> Allowed(deeds[k], n, Low(deeds[..k], lo))
  }

  /** In order, and within the window. */
  ghost predicate Tidy(s: State, lo: int) {
    && s.OK() && NoDup(s.order) && Ordered(s.order, s.time)
    && forall i :: 0 <= i < |s.order| ==> InWindow(lo, s.time[s.order[i]])
  }

  /** The timers that are set, cancelled or fired. */
  ghost function Named(d: Deed, fired: seq<nat>): set<nat> {
    match d
    case Do(a) => {a.id}
    case Tick(_, cb) => Touched(cb, fired)
  }

  /** What the code makes of `s`. */
  ghost predicate Leads(s: State, d: Deed, fired: seq<nat>, r: State) {
    s.OK() && match d
    case Do(a) => a.id < |s.time| && fired == [] && r == s.Act(a)
    case Tick(tv, cb) => AllExist(cb, |s.time|) && s.Fires(tv, cb, fired) && r == s.Turns(cb, fired)
  }

  /** Nothing fires twice, or a millisecond early; nothing overdue by a millisecond is passed
      over, or left. */
  ghost predicate Punctual(s: State, d: Deed, fired: seq<nat>, r: State) {
    d.Tick? ==>
      && s.OK() && r.OK() && NoDup(fired) && OverdueHandled(s.order, s.time, d.tv, d.cb, fired)
      && (forall id :: id in fired ==> id in s.order && id < |s.time| && Micros(s.time[id]) < Micros(d.tv) + 1000)
      && forall i :: 0 <= i < |r.order| ==> Micros(d.tv) - Micros(r.time[r.order[i]]) < 1000
  }

  ghost predicate Follows(s: State, d: Deed, fired: seq<nat>, r: State, lo: int) {
    && Leads(s, d, fired, r) && Tidy(s, lo) && Tidy(r, lo) && Punctual(s, d, fired, r)
    && Untouched(s.order, s.time, r.order, r.time, Named(d, fired))
  }

  /** The states that a program goes through from no timer set on, and the timers fired. */
  ghost predicate IsRun(deeds: seq<Deed>, states: seq<State>, fired: seq<seq<nat>>, lo: int) {
    && |fired| == |deeds| && |states| == |deeds| + 1 && states[0].order == []
    && forall k :: 0 <= k < |deeds| ==> Follows(states[k], deeds[k], fired[k], states[k + 1], Low(deeds[..k], lo))
  }

  /** event_timeout_set or event_timeout_cancel by the program itself. */
  method Perform(t: Timers, a: Action, ghost lo: int)
    requires t.Valid() && Tidy(t.Now(), lo) && Allowed(Do(a), |t.time|, lo)
    modifies t
    ensures t.Valid() && |t.time| == old(|t.time|) && Follows(old(t.Now()), Do(a), [], t.Now(), lo)
  {
    ghost var s := t.Now();
    if a.Rearm? {
      WindowScan(t.order, t.time, a.id, Deadline(a.now, a.msecs), lo);
    }
    hide TvDiff, Ordered, ScanRight, Deadline, Without, InWindow, Placed, NoDup, Follows;
    match a
    case Disarm(id) => {
      var _ := t.Cancel(id);
    }
    case Rearm(id, msecs, now) => {
      var _ := t.Set(id, msecs, now);
    }
    Performed(s, a, t.Now(), lo);
  }

  lemma Performed(s: State, a: Action, r: State, lo: int)
    requires Tidy(s, lo) && Allowed(Do(a), |s.time|, lo)
    requires a.id < |s.time| && r == s.Act(a) && NoDup(r.order) && Ordered(r.order, r.time)
    requires forall x :: x in r.order && x != a.id <==> x in s.order && x != a.id
    ensures Follows(s, Do(a), [], r, lo)
  {
    hide Ordered, Deadline, InWindow, NoDup, Placed, Untouched, Without, State.Act;
    OnlyOne(s, r, a);
    StillWithin(s.order, s.time, r.order, r.time, a.id, lo);
  }

  lemma OnlyOne(s: State, r: State, a: Action)
    requires s.OK() && NoDup(s.order) && a.id < |s.time| && r == s.Act(a)
    requires forall x :: x in r.order && x != a.id <==> x in s.order && x != a.id
    ensures Untouched(s.order, s.time, r.order, r.time, {a.id})
    ensures if a.Disarm? then a.id !in r.order else r.time[a.id] == Deadline(a.now, a.msecs)
  {
    if a.Disarm? { CancelledGone(s, a); }
    hide Placed, Without, Deadline;
  }

  /** event_process_timeouts */
  method Process(t: Timers, tv: Tv, cb: (nat, nat) -> seq<Action>, ghost lo: int) returns (fired: seq<nat>)
    requires t.Valid() && Tidy(t.Now(), lo) && Allowed(Tick(tv, cb), |t.time|, lo)
    modifies t
    ensures t.Valid() && |t.time| == old(|t.time|) && Follows(old(t.Now()), Tick(tv, cb), fired, t.Now(), lo)
  {
    hide TvDiff, Ordered, InWindow, NoDup, Touched, Untouched, OverdueHandled, State.Fires, State.Turns;
    fired := t.Process(tv, cb, lo);
  }

  method Carry(t: Timers, d: Deed, ghost lo: int) returns (fired: seq<nat>)
    requires t.Valid() && Tidy(t.Now(), lo) && Allowed(d, |t.time|, lo)
    modifies t
    ensures t.Valid() && |t.time| == old(|t.time|) && Tidy(t.Now(), lo)
    ensures Follows(old(t.Now()), d, fired, t.Now(), lo)
  {
    match d
    case Do(a) =>
      fired := [];
      Perform(t, a, lo);
    case Tick(tv, cb) =>
      fired := Process(t, tv, cb, lo);
  }

  /** Whatever a program does within the moving window, the list stays in order, and every
      processing fires what it has to. */
  method Drive(n: nat, deeds: seq<Deed>, lo: int) returns (t: Timers, ghost states: seq<State>, fired: seq<seq<nat>>)
    requires AllAllowed(deeds, n, lo)
    ensures fresh(t) && t.Valid() && IsRun(deeds, states, fired, lo) && t.Now() == states[|deeds|]
    ensures Tidy(t.Now(), Low(deeds, lo))
  {
    hide Follows, Allowed, Low;
    t := new Timers(n);
    states, fired := [t.Now()], [];
    Begun(t.Now(), n, lo);
    hide Tidy, IsRun;
    for k := 0 to |deeds|
      invariant fresh(t) && t.Valid() && |t.time| == n && Tidy(t.Now(), Low(deeds[..k], lo))
      invariant IsRun(deeds[..k], states, fired, lo) && |states| == k + 1 && t.Now() == states[k]
    {
      var f := Carry(t, deeds[k], Low(deeds[..k], lo));
      RunMore(deeds, k, states, fired, f, t.Now(), lo);
      MovesOn(deeds, k, states[k], f, t.Now(), lo);
      states, fired := states + [t.Now()], fired + [f];
    }
    assert deeds[..|deeds|] == deeds;
  }

  lemma Begun(s: State, n: nat, lo: int)
    requires s.order == [] && |s.time| == n
    ensures Tidy(s, Low([], lo)) && IsRun([], [s], [], lo)
  {
  }

  /** What a processing leaves is in the window that starts there. */
  lemma MovesOn(deeds: seq<Deed>, k: nat, s: State, f: seq<nat>, r: State, lo: int)
    requires k < |deeds| && Follows(s, deeds[k], f, r, Low(deeds[..k], lo))
    ensures Tidy(r, Low(deeds[..k + 1], lo))
  {
    assert deeds[..k + 1][..k] == deeds[..k];
    hide Leads, Ordered, NoDup, Untouched, OverdueHandled, Low;
    LowNext(deeds, k, lo);
  }

  lemma LowNext(deeds: seq<Deed>, k: nat, lo: int)
    requires k < |deeds|
    ensures var before := Low(deeds[..k], lo);
            Low(deeds[..k + 1], lo) == if deeds[k].Tick? && Micros(deeds[k].tv) - 999 > before
                                       then Micros(deeds[k].tv) - 999 else before
  {
    assert deeds[..k + 1][..k] == deeds[..k];
  }

  lemma RunMore(deeds: seq<Deed>, k: nat, states: seq<State>, fired: seq<seq<nat>>, f: seq<nat>, r: State, lo: int)
    requires k < |deeds| && IsRun(deeds[..k], states, fired, lo) && |states| == k + 1
    requires Follows(states[k], deeds[k], f, r, Low(deeds[..k], lo))
    ensures IsRun(deeds[..k + 1], states + [r], fired + [f], lo)
  {
    hide Follows, Low;
    forall i | 0 <= i < k + 1
      ensures Follows((states + [r])[i], deeds[..k + 1][i], (fired + [f])[i], (states + [r])[i + 1],
                      Low(deeds[..k + 1][..i], lo))
    {
      assert deeds[..k + 1][..i] == deeds[..i];
      assert i < k ==> deeds[..k][..i] == deeds[..i];
    }
  }

  /** A timer stays as it is while nothing names it. */
  lemma {:induction false} Unchanged(deeds: seq<Deed>, states: seq<State>, fired: seq<seq<nat>>, lo: int, i: nat,
                                     j: nat, id: nat)
    requires IsRun(deeds, states, fired, lo) && i <= j <= |deeds| && id < |states[i].time|
    requires forall k :: i <= k < j ==> id !in Named(deeds[k], fired[k])
    ensures id < |states[j].time| && states[j].time[id] == states[i].time[id]
    ensures id in states[j].order <==> id in states[i].order
  {
    hide Follows, Named;
    if i < j {
      Unchanged(deeds, states, fired, lo, i, j - 1, id);
      NotNamed(states[j - 1], deeds[j - 1], fired[j - 1], states[j], Low(deeds[..j - 1], lo), id);
    }
  }

  lemma NotNamed(s: State, d: Deed, fired: seq<nat>, r: State, lo: int, id: nat)
    requires Follows(s, d, fired, r, lo) && id !in Named(d, fired) && id < |s.time|
    ensures id < |r.time| && r.time[id] == s.time[id] && (id in r.order <==> id in s.order)
  {
    hide Tidy, Leads, Punctual, Named;
  }

  lemma SetListed(s: State, a: Action)
    requires s.OK() && NoDup(s.order) && a.id < |s.time| && a.Rearm?
    ensures var r := s.Act(a);
            a.id in r.order && r.time[a.id] == Deadline(a.now, a.msecs)
  {
    CancelledGone(s, Disarm(a.id));
    hide Placed, Without, Deadline;
    AfterInsert(Without(s.order, a.id), s.time, a.id, Deadline(a.now, a.msecs));
  }

  lemma CancelledGone(s: State, a: Action)
    requires s.OK() && NoDup(s.order) && a.id < |s.time| && a.Disarm?
    ensures a.id !in s.Act(a).order && NoDup(s.Act(a).order)
  {
    if a.id in s.order {
      RemoveOne(s.order, s.time, a.id);
    } else {
      NotListed(s.order, a.id);
    }
  }

  /** A timer that is set, and then left alone, is fired by the processing that finds it
      overdue by a millisecond or more, unless a callback of another gets hold of it there;
      and by none before it is due, but for a millisecond. */
  lemma SetFires(deeds: seq<Deed>, states: seq<State>, fired: seq<seq<nat>>, lo: int, i: nat, j: nat)
    requires IsRun(deeds, states, fired, lo) && i < j < |deeds| && deeds[i].Do? && deeds[i].a.Rearm? && deeds[j].Tick?
    requires forall k :: i < k < j ==> deeds[i].a.id !in Named(deeds[k], fired[k])
    ensures var a, tv := deeds[i].a, deeds[j].tv;
            && (Micros(tv) >= Micros(a.now) + 1000 * a.msecs + 1000 ==> a.id in Touched(deeds[j].cb, fired[j]))
            && (a.id in fired[j] ==> Micros(tv) > Micros(a.now) + 1000 * a.msecs - 1000)
  {
    var a := deeds[i].a;
    assert Follows(states[i], deeds[i], fired[i], states[i + 1], Low(deeds[..i], lo));
    SetListed(states[i], a);
    assert Follows(states[j], deeds[j], fired[j], states[j + 1], Low(deeds[..j], lo));
    Unchanged(deeds, states, fired, lo, i + 1, j, a.id);
    DeadlineMeaning(a.now, a.msecs);
    var p :| 0 <= p < |states[j].order| && states[j].order[p] == a.id;
  }

  /** A timer that is cancelled does not fire until it is set again. */
  lemma CancelledRests(deeds: seq<Deed>, states: seq<State>, fired: seq<seq<nat>>, lo: int, i: nat, j: nat)
    requires IsRun(deeds, states, fired, lo) && i < j < |deeds| && deeds[i].Do? && deeds[i].a.Disarm?
    requires forall k :: i < k < j ==> deeds[i].a.id !in Named(deeds[k], fired[k])
    ensures deeds[i].a.id !in fired[j]
  {
    var a := deeds[i].a;
    assert Follows(states[i], deeds[i], fired[i], states[i + 1], Low(deeds[..i], lo));
    assert Follows(states[j], deeds[j], fired[j], states[j + 1], Low(deeds[..j], lo));
    CancelledGone(states[i], a);
    Unchanged(deeds, states, fired, lo, i + 1, j, a.id);
  }
}
