/**
 The timeout handler: timers whose callbacks may add, refresh and remove timers of the
 very table that is being walked through.
 */
module Timeouts {

  import opened Wrappers

  /**
   What a callback does to the handler. `delay` is the time since the walk looked at the
   clock; `cookie` is the key that a new timer gets.
   */
  datatype Op =
    | Add(cookie: nat, delay: nat, duration: nat, script: seq<Op>)
    | Refresh(cookie: nat, delay: nat)
    | Remove(cookie: nat)

  datatype Timeout = Timeout(callback: Option<seq<Op>>, time: int, duration: nat)

  type Table = map<nat, Timeout>

  // ----- One operation, one callback, one walk, on values -----

  function Added(t: Table, cookie: nat, callback: Option<seq<Op>>, clock: int, duration: nat): Table {
    if cookie in t then t else t[cookie := Timeout(callback, clock + duration, duration)]
  }

  function Refreshed(t: Table, cookie: nat, clock: int): Table {
    if cookie in t then t[cookie := t[cookie].(time := clock + t[cookie].duration)] else t
  }

  function Apply(t: Table, now: int, op: Op): Table {
    match op
    case Add(cookie, delay, duration, script) => Added(t, cookie, Some(script), now + delay, duration)
    case Refresh(cookie, delay) => Refreshed(t, cookie, now + delay)
    case Remove(cookie) => t - {cookie}
  }

  function ApplyAll(t: Table, now: int, ops: seq<Op>): Table
    decreases |ops|
  {
    if ops == [] then t else ApplyAll(Apply(t, now, ops[0]), now, ops[1..])
  }

  /** Whether an operation of the script takes a timer out. */
  predicate Removes(t: Table, now: int, ops: seq<Op>)
    decreases |ops|
  {
    ops != [] && ((ops[0].Remove? && ops[0].cookie in t) || Removes(Apply(t, now, ops[0]), now, ops[1..]))
  }

  /** A timer leaves the table, and then its callback runs. */
  function Fire(t: Table, now: int, c: nat): Table {
    if c in t && t[c].callback.Some? then ApplyAll(t - {c}, now, t[c].callback.value) else t
  }

  function Replay(t: Table, now: int, fired: seq<nat>): Table {
    if fired == [] then t else Fire(Replay(t, now, fired[..|fired| - 1]), now, fired[|fired| - 1])
  }

  predicate IsExpired(t: Table, now: int, c: nat) {
    c in t && t[c].time < now
  }

  function Expired(t: Table, now: int): set<nat> {
    set c | c in t && t[c].time < now
  }

  /** Each timer of the sequence is there and expired when its turn comes. */
  predicate Due(t: Table, now: int, fired: seq<nat>) {
    fired == [] ||
    (Due(t, now, fired[..|fired| - 1]) && IsExpired(Replay(t, now, fired[..|fired| - 1]), now, fired[|fired| - 1]))
  }

  /** Every expired timer has a callback; the walk would never get past another. */
  predicate Callable(t: Table, now: int) {
    forall c :: c in t && t[c].time < now ==> t[c].callback.Some?
  }

  // ----- The walk, one visit after the other -----

  /**
   `left` holds the timers that the walk has still to visit, in any order, and `at` the
   one that it stands on if it has not moved on from it.
   */
  datatype Walk = Walk(table: Table, invalidated: bool, left: set<nat>, at: Option<nat>)

  function Begin(t: Table, invalidated: bool): Walk {
    Walk(t, invalidated, t.Keys, None)
  }

  /** A timer that a callback adds may or may not be visited; `seen` holds those that will be. */
  predicate Visitable(w: Walk, now: int, c: nat, seen: set<nat>) {
    && c in w.left && c in w.table && (w.at.Some? ==> w.at.value == c)
    && seen <= Fire(w.table, now, c).Keys - (w.table.Keys - {c})
  }

  /** One visit; after a removal the walk starts over. */
  function Visit(w: Walk, now: int, c: nat, seen: set<nat>): Walk
    requires Visitable(w, now, c, seen)
  {
    var timer := w.table[c];
    var next :=
      if timer.time >= now then w.(left := w.left - {c}, at := None)
      else if timer.callback.None? then w.(at := Some(c))
      else
        var t := Fire(w.table, now, c);
        Walk(t, w.invalidated || Removes(w.table - {c}, now, timer.callback.value),
             (w.left - {c}) * t.Keys + seen, None);
    if next.invalidated then Begin(next.table, false) else next
  }

  ghost predicate Visits(w: Walk, now: int, next: Walk) {
    exists c, seen :: Visitable(w, now, c, seen) && next == Visit(w, now, c, seen)
  }

  ghost predicate IsWalk(walk: seq<Walk>, now: int) {
    walk != [] && forall i :: 0 <= i < |walk| - 1 ==> Visits(walk[i], now, walk[i + 1])
  }

  // ----- The handler in place -----

  /** `called` records the timers whose callbacks have been called. */
  class TimeoutHandler {
    var timeouts: Table
    var iteratorInvalidated: bool
    var called: seq<nat>

    constructor ()
      ensures timeouts == map[] && !iteratorInvalidated && called == []
    {
      timeouts, iteratorInvalidated, called := map[], false, [];
    }

    method Add(callback: Option<seq<Op>>, clock: int, duration: nat, cookie: nat)
      modifies this`timeouts
      ensures timeouts == Added(old(timeouts), cookie, callback, clock, duration)
    {
      if cookie !in timeouts {
        timeouts := timeouts[cookie := Timeout(callback, clock + duration, duration)];
      }
    }

    method Refresh(cookie: nat, clock: int)
      modifies this`timeouts
      ensures timeouts == Refreshed(old(timeouts), cookie, clock)
    {
      if cookie in timeouts {
        timeouts := timeouts[cookie := timeouts[cookie].(time := clock + timeouts[cookie].duration)];
      }
    }

    method Remove(cookie: nat)
      modifies this`timeouts, this`iteratorInvalidated
      ensures timeouts == old(timeouts) - {cookie}
      ensures iteratorInvalidated == (old(iteratorInvalidated) || cookie in old(timeouts))
    {
      if cookie in timeouts {
        timeouts := timeouts - {cookie};
        iteratorInvalidated := true;
      } else {
        assert timeouts - {cookie} == timeouts;
      }
    }

    /** A callback at work on the handler. */
    method Call(ops: seq<Op>, now: int)
      modifies this`timeouts, this`iteratorInvalidated
      ensures timeouts == ApplyAll(old(timeouts), now, ops)
      ensures iteratorInvalidated == (old(iteratorInvalidated) || Removes(old(timeouts), now, ops))
    {
      for i := 0 to |ops|
        invariant ApplyAll(timeouts, now, ops[i..]) == ApplyAll(old(timeouts), now, ops)
        invariant (iteratorInvalidated || Removes(timeouts, now, ops[i..]))
               == (old(iteratorInvalidated) || Removes(old(timeouts), now, ops))
      {
        assert ops[i..][0] == ops[i] && ops[i..][1..] == ops[i + 1..];
        match ops[i]
        case Add(cookie, delay, duration, script) => Add(Some(script), now + delay, duration, cookie);
        case Refresh(cookie, delay) => Refresh(cookie, now + delay);
        case Remove(cookie) => Remove(cookie);
      }
    }

    /**
     The body of the loop in `run_once`, on the timer that the walk stands on: an expired
     one leaves the table before its callback runs, and one without a callback stays.
     */
    method VisitTimer(c: nat, left: set<nat>, now: int) returns (rest: set<nat>, stays: bool)
      requires c in left && left <= timeouts.Keys
      modifies this
      ensures stays == (old(timeouts)[c].time < now && old(timeouts)[c].callback.None?)
      ensures exists seen ::
        && Visitable(Walk(old(timeouts), old(iteratorInvalidated), left, None), now, c, seen)
        && Visit(Walk(old(timeouts), old(iteratorInvalidated), left, None), now, c, seen)
           == Walk(timeouts, iteratorInvalidated, rest, if stays && !old(iteratorInvalidated) then Some(c) else None)
      ensures if old(timeouts)[c].time < now && !stays
              then called == old(called) + [c] && timeouts == Fire(old(timeouts), now, c)
              else called == old(called) && timeouts == old(timeouts)
      ensures !iteratorInvalidated
    {
      ghost var before := timeouts;
      ghost var w := Walk(timeouts, iteratorInvalidated, left, None);
      ghost var steps: set<nat> := {};
      rest, stays := left, false;
      if timeouts[c].time < now {
        if timeouts[c].callback.Some? {
          var ops := timeouts[c].callback.value;
          timeouts := timeouts - {c};
          called := called + [c];
          var known := timeouts.Keys;
          Call(ops, now);
          var seen: set<nat> :| seen <= timeouts.Keys - known;
          steps := seen;
          rest := (left - {c}) * timeouts.Keys + seen;
        } else {
          stays := true;
        }
      } else {
        rest := left - {c};
      }
      if iteratorInvalidated {
        iteratorInvalidated := false;
        rest := timeouts.Keys;
      }
      assert Visitable(w, now, c, steps);
    }

    /** `run_once`, called where every walk ends. */
    method RunOnce(now: int)
      requires Callable(timeouts, now)
      modifies this
      ensures exists fired :: called == old(called) + fired
                           && Due(old(timeouts), now, fired) && timeouts == Replay(old(timeouts), now, fired)
      ensures exists walk :: IsWalk(walk, now) && walk[0] == Begin(old(timeouts), old(iteratorInvalidated))
                          && walk[|walk| - 1] == Walk(timeouts, iteratorInvalidated, {}, None)
      ensures Expired(timeouts, now) == {}
      ensures iteratorInvalidated == (old(iteratorInvalidated) && old(timeouts) == map[])
    {
      hide Visit, Visitable, Fire;
      ghost var fired: seq<nat> := [];
      ghost var walk := [Begin(timeouts, iteratorInvalidated)];
      var left := timeouts.Keys;
      while left != {}
        invariant left <= timeouts.Keys && Callable(timeouts, now)
        invariant Expired(timeouts, now) <= left
        invariant called == old(called) + fired
        invariant IsWalk(walk, now) && walk[0] == Begin(old(timeouts), old(iteratorInvalidated))
        invariant walk[|walk| - 1] == Walk(timeouts, iteratorInvalidated, left, None)
        invariant Due(old(timeouts), now, fired) && timeouts == Replay(old(timeouts), now, fired)
        invariant if |walk| == 1 then timeouts == old(timeouts) && iteratorInvalidated == old(iteratorInvalidated)
                  else !iteratorInvalidated && old(timeouts) != map[]
        decreases Expired(timeouts, now), iteratorInvalidated, left
      {
        var c :| c in left;
        ghost var w, before := walk[|walk| - 1], timeouts;
        var stays: bool;
        left, stays := VisitTimer(c, left, now);
        ghost var next := Walk(timeouts, iteratorInvalidated, left, None);
        assert Visits(w, now, next);
        VisitShrinks(w, now, next);
        walk := walk + [next];
        if before[c].time < now {
          assert (fired + [c])[..|fired|] == fired;
          fired := fired + [c];
        }
      }
    }
  }

  /** A script leaves only timers that it found expired, as they were; what it adds or refreshes is not. */
  lemma {:induction false} ApplyAllYoung(t: Table, now: int, ops: seq<Op>)
    ensures forall c :: IsExpired(ApplyAll(t, now, ops), now, c) ==> c in t && ApplyAll(t, now, ops)[c] == t[c]
    ensures Callable(t, now) ==> Callable(ApplyAll(t, now, ops), now)
    decreases |ops|
  {
    if ops != [] {
      ApplyAllYoung(Apply(t, now, ops[0]), now, ops[1..]);
    }
  }

  // ----- What a walk fires -----

  /** Whether a script refreshes or removes a timer. */
  predicate Touches(ops: seq<Op>, c: nat) {
    exists i :: 0 <= i < |ops| && (ops[i].Refresh? || ops[i].Remove?) && ops[i].cookie == c
  }

  function ScriptOf(t: Table, c: nat): seq<Op> {
    if c in t && t[c].callback.Some? then t[c].callback.value else []
  }

  /** What a touched timer is afterwards, and that other timers stay. */
  lemma {:induction false} ApplyAllTouches(t: Table, now: int, ops: seq<Op>, c: nat)
    ensures Touches(ops, c) ==> !IsExpired(ApplyAll(t, now, ops), now, c)
    ensures !Touches(ops, c) && c in t ==> c in ApplyAll(t, now, ops) && ApplyAll(t, now, ops)[c] == t[c]
    decreases |ops|
  {
    if ops != [] {
      var rest, u := ops[1..], Apply(t, now, ops[0]);
      ApplyAllTouches(u, now, rest, c);
      ApplyAllYoung(u, now, rest);
      if Touches(rest, c) {
        var i :| 0 <= i < |rest| && (rest[i].Refresh? || rest[i].Remove?) && rest[i].cookie == c;
        assert ops[i + 1] == rest[i];
      } else if Touches(ops, c) {
        assert forall i :: 0 < i < |ops| ==> ops[i] == rest[i - 1];
      } else if c in t {
        assert ops[0].Add? || ops[0].cookie != c;
      }
    }
  }

  /** A walk so far: what is still expired has been there, untouched and not fired, from the start. */
  ghost predicate Walked(t: Table, now: int, fired: seq<nat>, c: nat) {
    var u := Replay(t, now, fired);
    && (IsExpired(u, now, c) ==>
          c in t && u[c] == t[c] && c !in fired && forall d :: d in fired ==> !Touches(ScriptOf(t, d), c))
    && (c in t && c !in fired && (forall d :: d in fired ==> !Touches(ScriptOf(t, d), c)) ==>
          c in u && u[c] == t[c])
  }

  lemma {:induction false} WalkKeeps(t: Table, now: int, fired: seq<nat>, c: nat)
    requires Callable(t, now) && Due(t, now, fired)
    ensures Callable(Replay(t, now, fired), now) && Walked(t, now, fired, c)
    decreases |fired|
  {
    if fired != [] {
      var before, last := fired[..|fired| - 1], fired[|fired| - 1];
      var u := Replay(t, now, before);
      WalkKeeps(t, now, before, c);
      WalkKeeps(t, now, before, last);
      assert u[last] == t[last];
      var ops := u[last].callback.value;
      assert fired == before + [last] && last in fired && ops == ScriptOf(t, last);
      assert forall d :: d in before ==> d in fired;
      ApplyAllTouches(u - {last}, now, ops, c);
      ApplyAllYoung(u - {last}, now, ops);
    }
  }

  /**
   Each timer that a walk fires was expired when it began, fires once, and was neither
   refreshed nor removed by a callback before it.
   */
  lemma {:induction false} FiredRightly(t: Table, now: int, fired: seq<nat>)
    requires Callable(t, now) && Due(t, now, fired)
    ensures forall i :: 0 <= i < |fired| ==> fired[i] in Expired(t, now)
    ensures forall i, j :: 0 <= i < j < |fired| ==>
              fired[i] != fired[j] && !Touches(ScriptOf(t, fired[i]), fired[j])
    decreases |fired|
  {
    if fired != [] {
      var before, last := fired[..|fired| - 1], fired[|fired| - 1];
      FiredRightly(t, now, before);
      WalkKeeps(t, now, before, last);
      assert forall i :: 0 <= i < |before| ==> before[i] == fired[i] && fired[i] in before;
    }
  }

  /** When a walk ends, every timer that was expired has fired or was refreshed or removed by one that has. */
  lemma ExpiredAreDealtWith(t: Table, now: int, fired: seq<nat>, c: nat)
    requires Callable(t, now) && Due(t, now, fired) && Expired(Replay(t, now, fired), now) == {}
    requires c in Expired(t, now)
    ensures c in fired || exists d :: d in fired && Touches(ScriptOf(t, d), c)
  {
    WalkKeeps(t, now, fired, c);
    assert !IsExpired(Replay(t, now, fired), now, c) by {
      assert c !in Expired(Replay(t, now, fired), now);
    }
  }

  /** A timer that has time left and that no callback touches stays as it is. */
  lemma OthersStay(t: Table, now: int, fired: seq<nat>, c: nat)
    requires Callable(t, now) && Due(t, now, fired) && c in t && t[c].time >= now
    requires forall d :: d in fired ==> !Touches(ScriptOf(t, d), c)
    ensures c in Replay(t, now, fired) && Replay(t, now, fired)[c] == t[c]
  {
    FiredRightly(t, now, fired);
    WalkKeeps(t, now, fired, c);
  }

  /** When callbacks only add timers, a walk fires exactly the expired ones, whatever its order. */
  lemma FiresTheExpired(t: Table, now: int, fired: seq<nat>)
    requires Callable(t, now) && Due(t, now, fired) && Expired(Replay(t, now, fired), now) == {}
    requires forall c, d :: c in t ==> !Touches(ScriptOf(t, c), d)
    ensures forall c :: c in fired <==> c in Expired(t, now)
  {
    FiredRightly(t, now, fired);
    forall c | c in Expired(t, now) ensures c in fired {
      ExpiredAreDealtWith(t, now, fired, c);
    }
  }

  // ----- When a timer is due -----

  /** What happens to the handler: a whole walk that fires these timers, or an operation at some clock. */
  datatype Event = Swept(now: int, fired: seq<nat>) | Done(op: Op, clock: int)

  function After(t: Table, e: Event): Table {
    match e
    case Swept(now, fired) => Replay(t, now, fired)
    case Done(op, clock) => Apply(t, clock, op)
  }

  function AfterAll(t: Table, events: seq<Event>): Table {
    if events == [] then t else After(AfterAll(t, events[..|events| - 1]), events[|events| - 1])
  }

  /** A walk over this table that ends. */
  predicate Whole(t: Table, now: int, fired: seq<nat>) {
    Callable(t, now) && Due(t, now, fired) && Expired(Replay(t, now, fired), now) == {}
  }

  /** Walks are whole, and no operation and no callback but its own refreshes or removes the timer. */
  predicate Spares(t: Table, e: Event, c: nat) {
    match e
    case Swept(now, fired) =>
      Whole(t, now, fired) && forall d :: d in fired && d != c ==> !Touches(ScriptOf(t, d), c)
    case Done(op, _) => !Touches([op], c)
  }

  predicate SparesAll(t: Table, events: seq<Event>, c: nat) {
    events == [] ||
    (SparesAll(t, events[..|events| - 1], c)
     && Spares(AfterAll(t, events[..|events| - 1]), events[|events| - 1], c))
  }

  /** No walk of the run has looked at a later clock. */
  predicate NotPast(events: seq<Event>, time: int) {
    forall i :: 0 <= i < |events| && events[i].Swept? ==> events[i].now <= time
  }

  lemma FiredIsExpired(t: Table, now: int, fired: seq<nat>, c: nat)
    requires Callable(t, now) && Due(t, now, fired) && c in fired
    ensures IsExpired(t, now, c)
  {
    FiredRightly(t, now, fired);
    var i :| 0 <= i < |fired| && fired[i] == c;
    assert fired[i] in Expired(t, now);
  }

  lemma {:induction false} StaysUntil(t: Table, events: seq<Event>, c: nat, timer: Timeout)
    requires c in t && t[c] == timer && SparesAll(t, events, c) && NotPast(events, timer.time)
    ensures var u := AfterAll(t, events); c in u && u[c] == timer
    decreases |events|
  {
    if events != [] {
      var before, e := events[..|events| - 1], events[|events| - 1];
      StaysUntil(t, before, c, timer);
      var u := AfterAll(t, before);
      match e
      case Swept(now, fired) =>
        if c in fired { FiredIsExpired(u, now, fired, c); }
        OthersStay(u, now, fired, c);
      case Done(op, clock) =>
        ApplyAllTouches(u, clock, [op], c);
        assert ApplyAll(u, clock, [op]) == Apply(u, clock, op);
    }
  }

  lemma FiresWhenDue(t: Table, events: seq<Event>, c: nat, timer: Timeout, now: int, fired: seq<nat>)
    requires c in t && t[c] == timer && SparesAll(t, events, c) && NotPast(events, timer.time)
    requires Spares(AfterAll(t, events), Swept(now, fired), c)
    ensures c in fired <==> now > timer.time
  {
    StaysUntil(t, events, c, timer);
    var u := AfterAll(t, events);
    if c in fired {
      FiredIsExpired(u, now, fired, c);
    } else if now > timer.time {
      ExpiredAreDealtWith(u, now, fired, c);
    }
  }

  /**
   A new timer that is added at some clock is fired by the first walk that looks at a clock
   more than its duration later, and by none before; whatever else happens to the table,
   unless something refreshes or removes it.
   */
  lemma AddedFiresWhenDue(t: Table, c: nat, callback: Option<seq<Op>>, clock: int, duration: nat,
                          events: seq<Event>, now: int, fired: seq<nat>)
    requires c !in t && SparesAll(Added(t, c, callback, clock, duration), events, c)
    requires NotPast(events, clock + duration)
    requires Spares(AfterAll(Added(t, c, callback, clock, duration), events), Swept(now, fired), c)
    ensures c in fired <==> now > clock + duration
  {
    var u := Added(t, c, callback, clock, duration);
    FiresWhenDue(u, events, c, u[c], now, fired);
  }

  /** A timer that is refreshed at some clock is due its own duration after it, whatever it was due before. */
  lemma RefreshedFiresWhenDue(t: Table, c: nat, clock: int, events: seq<Event>, now: int, fired: seq<nat>)
    requires c in t && SparesAll(Refreshed(t, c, clock), events, c)
    requires NotPast(events, clock + t[c].duration)
    requires Spares(AfterAll(Refreshed(t, c, clock), events), Swept(now, fired), c)
    ensures c in fired <==> now > clock + t[c].duration
  {
    var u := Refreshed(t, c, clock);
    FiresWhenDue(u, events, c, u[c], now, fired);
  }

  /** A new timer that is refreshed while it is still there is due the duration that it was added with, from then on. */
  lemma AddedThenRefreshed(t: Table, c: nat, callback: Option<seq<Op>>, clock: int, duration: nat, until: seq<Event>,
                           again: int, events: seq<Event>, now: int, fired: seq<nat>)
    requires c !in t && SparesAll(Added(t, c, callback, clock, duration), until, c)
    requires NotPast(until, clock + duration) && NotPast(events, again + duration)
    requires var u := Refreshed(AfterAll(Added(t, c, callback, clock, duration), until), c, again);
      SparesAll(u, events, c) && Spares(AfterAll(u, events), Swept(now, fired), c)
    ensures c in fired <==> now > again + duration
  {
    var u := Added(t, c, callback, clock, duration);
    StaysUntil(u, until, c, u[c]);
    RefreshedFiresWhenDue(AfterAll(u, until), c, again, events, now, fired);
  }

  /** A timer that is removed is fired by no walk before something adds it again. */
  lemma RemovedNeverFires(t: Table, c: nat, now: int, fired: seq<nat>)
    requires Whole(Apply(t, now, Remove(c)), now, fired)
    ensures c !in fired
  {
    if c in fired { FiredIsExpired(t - {c}, now, fired, c); }
  }

  // ----- Which walks end -----

  /** A walk without an end, as the sequence of its states. */
  ghost predicate Endless(f: nat -> Walk, t: Table, invalidated: bool, now: int) {
    f(0) == Begin(t, invalidated) && forall n: nat :: Visits(f(n), now, f(n + 1))
  }

  /** Every visit fires an expired timer, starts over for the last time, or leaves fewer to visit. */
  lemma VisitShrinks(w: Walk, now: int, next: Walk)
    requires Visits(w, now, next) && Callable(w.table, now) && w.at.None? && w.left <= w.table.Keys
    ensures Callable(next.table, now) && next.at.None? && next.left <= next.table.Keys
    ensures Expired(w.table, now) <= w.left ==> Expired(next.table, now) <= next.left
    ensures || Expired(next.table, now) < Expired(w.table, now)
            || (Expired(next.table, now) == Expired(w.table, now) && w.invalidated && !next.invalidated)
            || (Expired(next.table, now) == Expired(w.table, now) && w.invalidated == next.invalidated
                && next.left < w.left)
  {
    var c, seen :| Visitable(w, now, c, seen) && next == Visit(w, now, c, seen);
    if w.table[c].time < now {
      var ops := w.table[c].callback.value;
      ApplyAllYoung(w.table - {c}, now, ops);
      assert c in Expired(w.table, now) && c !in Expired(next.table, now);
    }
  }

  lemma EndsAfter(f: nat -> Walk, now: int, n: nat)
    requires forall k: nat :: Visits(f(k), now, f(k + 1))
    requires Callable(f(n).table, now) && f(n).at.None? && f(n).left <= f(n).table.Keys
    ensures false
    decreases Expired(f(n).table, now), f(n).invalidated, f(n).left
  {
    VisitShrinks(f(n), now, f(n + 1));
    EndsAfter(f, now, n + 1);
  }

  /** Standing on an expired timer that has no callback, visit after visit. */
  function Standing(t: Table, invalidated: bool, c: nat, n: nat): Walk {
    if n == 0 then Begin(t, invalidated)
    else if n == 1 && invalidated then Begin(t, false)
    else Walk(t, false, t.Keys, Some(c))
  }

  lemma StandsStill(t: Table, invalidated: bool, now: int, c: nat)
    requires IsExpired(t, now, c) && t[c].callback.None?
    ensures Endless((n: nat) => Standing(t, invalidated, c, n), t, invalidated, now)
  {
    var f := (n: nat) => Standing(t, invalidated, c, n);
    forall n: nat ensures Visits(f(n), now, f(n + 1)) {
      assert Visitable(f(n), now, c, {});
      assert f(n + 1) == Visit(f(n), now, c, {});
    }
  }

  /** Every walk over a table ends exactly if every expired timer has a callback. */
  lemma EveryWalkEndsIff(t: Table, invalidated: bool, now: int)
    ensures Callable(t, now) <==> !exists f: nat -> Walk :: Endless(f, t, invalidated, now)
  {
    if Callable(t, now) {
      forall f: nat -> Walk | Endless(f, t, invalidated, now) ensures false {
        EndsAfter(f, now, 0);
      }
    } else {
      var c :| IsExpired(t, now, c) && t[c].callback.None?;
      StandsStill(t, invalidated, now, c);
    }
  }
}
