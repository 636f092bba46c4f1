/** The delayed-acknowledgement timer, with callbacks that may run late. */
module AckTimers {
  import opened Bits

  datatype TimerState = Stopped | Started | Closed

  /** `armed` is the runtime timer; `late` counts the callbacks that it has fired and that have not run yet. */
  datatype Timer = Timer(state: TimerState, pending: byte, armed: bool, late: nat)

  /** What has become of the intervals: how many were started, and how each of them ended. `notified` lists the
      intervals that ended with a notification, by number. */
  datatype History = History(starts: nat, stopped: nat, closed: nat, notified: seq<nat>)

  datatype World = World(t: Timer, h: History)

  datatype Event =
    | Start
    | Stop
    | Close
    | Expire      // the runtime timer goes off
    | Callback    // one of the late callbacks gets to run

  const INITIAL := World(Timer(Stopped, 0, false, 0), History(0, 0, 0, []))

  function Inc(x: byte): byte { if x == 255 then 0 else x + 1 }
  function Dec(x: byte): byte { if x == 0 then 255 else x - 1 }

  /** Callbacks that are still to come: the late ones, and the one of the armed timer. */
  function Outstanding(t: Timer): nat {
    t.late + if t.armed then 1 else 0
  }

  // ---------------------------------------------------------------- steps

  function AfterStart(t: Timer): (Timer, bool) {
    if t.state != Stopped then (t, false)
    else (t.(state := Started, pending := Inc(t.pending), armed := true), true)
  }

  /** Disarming a runtime timer says whether it was armed. */
  function Disarmed(t: Timer): Timer {
    t.(armed := false, pending := if t.armed then Dec(t.pending) else t.pending)
  }

  function AfterStop(t: Timer): Timer {
    if t.state == Started then Disarmed(t).(state := Stopped) else t
  }

  function AfterClose(t: Timer): Timer {
    (if t.state == Started then Disarmed(t) else t).(state := Closed)
  }

  function AfterExpire(t: Timer): Timer {
    t.(armed := false, late := t.late + 1)
  }

  /** The callback that runs, and whether it notifies the observer. */
  function AfterTimeout(t: Timer): (Timer, bool)
    requires t.late > 0
  {
    var t1 := t.(late := t.late - 1, pending := Dec(t.pending));
    if t1.pending == 0 && t1.state == Started then (t1.(state := Stopped), true) else (t1, false)
  }

  // ---------------------------------------------------------------- runs

  predicate Enabled(w: World, e: Event) {
    match e
    case Expire => w.t.armed
    case Callback => w.t.late > 0
    case _ => true
  }

  function Apply(w: World, e: Event): World
    requires Enabled(w, e)
  {
    match e
    case Start =>
      var (t, ok) := AfterStart(w.t);
      World(t, if ok then w.h.(starts := w.h.starts + 1) else w.h)
    case Stop =>
      World(AfterStop(w.t), if w.t.state == Started then w.h.(stopped := w.h.stopped + 1) else w.h)
    case Close =>
      World(AfterClose(w.t), if w.t.state == Started then w.h.(closed := w.h.closed + 1) else w.h)
    case Expire => w.(t := AfterExpire(w.t))
    case Callback =>
      var (t, notify) := AfterTimeout(w.t);
      World(t, if notify then w.h.(notified := w.h.notified + [w.h.starts]) else w.h)
  }

  function RunFrom(w: World, es: seq<Event>): Option<World>
    decreases es
  {
    if es == [] then Some(w)
    else if !Enabled(w, es[0]) then None
    else RunFrom(Apply(w, es[0]), es[1..])
  }

  function Run(es: seq<Event>): Option<World> {
    RunFrom(INITIAL, es)
  }

  predicate Increasing(s: seq<nat>) {
    forall i, j :: 0 <= i < j < |s| ==> s[i] < s[j]
  }

  lemma IncDec(n: nat)
    ensures Inc(n % 0x100) == (n + 1) % 0x100
    ensures n > 0 ==> Dec(n % 0x100) == (n - 1) % 0x100
  {
    var q, r := n / 0x100, n % 0x100;
    assert n == 0x100 * q + r;
    if r == 255 {
      assert n + 1 == 0x100 * (q + 1);
    } else {
      assert n + 1 == 0x100 * q + (r + 1);
    }
    if n > 0 {
      if r == 0 {
        assert n - 1 == 0x100 * (q - 1) + 255;
      } else {
        assert n - 1 == 0x100 * q + (r - 1);
      }
    }
  }

  /** Each interval ends once. */
  predicate Accounted(h: History, running: bool) {
    && h.starts == h.stopped + h.closed + |h.notified| + (if running then 1 else 0)
    && Increasing(h.notified)
    && (forall i :: 0 <= i < |h.notified| ==> 0 < h.notified[i] <= h.starts)
    && (running ==> forall i :: 0 <= i < |h.notified| ==> h.notified[i] < h.starts)
  }

  lemma AccountKeeps(w: World, e: Event)
    requires Accounted(w.h, w.t.state == Started) && Enabled(w, e)
    ensures Accounted(Apply(w, e).h, Apply(w, e).t.state == Started)
  {
  }

  lemma {:induction false} RunAccounts(w: World, es: seq<Event>)
    requires Accounted(w.h, w.t.state == Started) && RunFrom(w, es).Some?
    ensures var v := RunFrom(w, es).value; Accounted(v.h, v.t.state == Started)
    decreases es
  {
    if es != [] {
      AccountKeeps(w, es[0]);
      RunAccounts(Apply(w, es[0]), es[1..]);
    }
  }

  /** In every run each start is running still or was ended exactly once, by a stop, by a close or by a notification,
      and no start is notified twice. */
  lemma EveryStartEndsOnce(es: seq<Event>)
    requires Run(es).Some?
    ensures var w := Run(es).value;
            && w.h.starts == w.h.stopped + w.h.closed + |w.h.notified| + (if w.t.state == Started then 1 else 0)
            && Increasing(w.h.notified) && (forall i :: 0 <= i < |w.h.notified| ==> 0 < w.h.notified[i] <= w.h.starts)
  {
    RunAccounts(INITIAL, es);
  }

  // ---------------------------------------------------------------- at most 256 outstanding callbacks

  const LIMIT := 0x100

  /** No event of the run happens with more than 256 callbacks outstanding. */
  predicate Within(w: World, es: seq<Event>)
    requires RunFrom(w, es).Some?
    decreases es
  {
    es == [] || (Outstanding(w.t) <= LIMIT && Within(Apply(w, es[0]), es[1..]))
  }

  predicate Counted(t: Timer) {
    && t.pending == Outstanding(t) % 0x100
    && (t.armed ==> t.state == Started)
    && (t.state == Started ==> Outstanding(t) > 0)
  }

  lemma CountKeeps(w: World, e: Event)
    requires Counted(w.t) && Enabled(w, e) && Outstanding(w.t) <= LIMIT
    ensures Counted(Apply(w, e).t)
  {
    IncDec(Outstanding(w.t));
  }

  lemma {:induction false} RunCounts(w: World, es: seq<Event>)
    requires Counted(w.t) && RunFrom(w, es).Some? && Within(w, es)
    ensures Counted(RunFrom(w, es).value.t)
    decreases es
  {
    if es != [] {
      CountKeeps(w, es[0]);
      RunCounts(Apply(w, es[0]), es[1..]);
    }
  }

  /** `pending` is the number of outstanding callbacks, for fewer than 256 of them, and that number modulo 256 beyond;
      a running timer always has a callback outstanding. */
  lemma PendingCountsOutstanding(es: seq<Event>)
    requires Run(es).Some? && Within(INITIAL, es)
    ensures var t := Run(es).value.t;
            && t.pending == Outstanding(t) % 0x100
            && (Outstanding(t) < 0x100 ==> t.pending == Outstanding(t))
            && (t.state == Started ==> Outstanding(t) > 0)
  {
    RunCounts(INITIAL, es);
  }

  /** While fewer than 256 are outstanding, no decrement goes below zero. */
  lemma NoUnderflow(es: seq<Event>, e: Event)
    requires Run(es).Some? && Within(INITIAL, es) && Enabled(Run(es).value, e)
    requires Outstanding(Run(es).value.t) < 0x100 && e != Start
    ensures var t, t1 := Run(es).value.t, Apply(Run(es).value, e).t;
            t.pending - t1.pending == Outstanding(t) - Outstanding(t1) >= 0
  {
    RunCounts(INITIAL, es);
    CountKeeps(Run(es).value, e);
  }

  /** A callback notifies exactly when the timer is started and it is the last one outstanding, or one of 257. */
  lemma NotifiesWhen(es: seq<Event>)
    requires Run(es).Some? && Within(INITIAL, es) && Run(es).value.t.late > 0
    ensures var t := Run(es).value.t;
            AfterTimeout(t).1 <==> t.state == Started && (Outstanding(t) == 1 || Outstanding(t) == LIMIT + 1)
  {
    RunCounts(INITIAL, es);
    var t := Run(es).value.t;
    IncDec(Outstanding(t));
    OneMore(INITIAL, es);
  }

  /** An event adds at most one callback. */
  lemma {:induction false} OneMore(w: World, es: seq<Event>)
    requires RunFrom(w, es).Some? && Within(w, es) && Outstanding(w.t) <= LIMIT + 1
    ensures Outstanding(RunFrom(w, es).value.t) <= LIMIT + 1
    decreases es
  {
    if es != [] { OneMore(Apply(w, es[0]), es[1..]); }
  }

  /** So with at most 256 outstanding it is the last one that notifies: no callback of an earlier interval ever
      notifies while the timer of a newer one is running. */
  lemma OnlyTheLastNotifies(es: seq<Event>)
    requires Run(es).Some? && Within(INITIAL, es) && Run(es).value.t.late > 0
    requires Outstanding(Run(es).value.t) <= LIMIT
    ensures var t := Run(es).value.t; AfterTimeout(t).1 <==> t.state == Started && t.late == 1 && !t.armed
  {
    NotifiesWhen(es);
  }

  /** `n` intervals that expire and are stopped before their callbacks run. */
  function Abandoned(n: nat): seq<Event> {
    if n == 0 then [] else Abandoned(n - 1) + [Start, Expire, Stop]
  }

  lemma {:induction false} RunAppend(w: World, a: seq<Event>, b: seq<Event>)
    requires RunFrom(w, a).Some? && RunFrom(RunFrom(w, a).value, b).Some?
    ensures RunFrom(w, a + b) == RunFrom(RunFrom(w, a).value, b)
    ensures Within(w, a) && Within(RunFrom(w, a).value, b) ==> Within(w, a + b)
    decreases a
  {
    if a == [] {
      assert a + b == b;
    } else {
      assert (a + b)[1..] == a[1..] + b;
      RunAppend(Apply(w, a[0]), a[1..], b);
    }
  }

  lemma OneAbandoned(w: World)
    requires w.t.state == Stopped && !w.t.armed && w.t.late < LIMIT
    ensures RunFrom(w, [Start, Expire, Stop]) ==
            Some(World(w.t.(pending := Inc(w.t.pending), late := w.t.late + 1),
                       w.h.(starts := w.h.starts + 1, stopped := w.h.stopped + 1)))
    ensures Within(w, [Start, Expire, Stop])
  {
    var w1 := Apply(w, Start);
    var w2 := Apply(w1, Expire);
    Unroll(w2, Event.Stop, []);
    Unroll(w1, Expire, [Event.Stop]);
    Unroll(w, Start, [Expire, Event.Stop]);
  }

  lemma Unroll(w: World, e: Event, es: seq<Event>)
    requires Enabled(w, e) && RunFrom(Apply(w, e), es).Some?
    ensures RunFrom(w, [e] + es) == RunFrom(Apply(w, e), es)
    ensures Within(w, [e] + es) <==> Outstanding(w.t) <= LIMIT && Within(Apply(w, e), es)
    ensures es == [] ==> [e] + es == [e]
    ensures |es| == 1 ==> [e] + es == [e, es[0]]
    ensures |es| == 2 ==> [e] + es == [e, es[0], es[1]]
  {
    assert ([e] + es)[1..] == es;
  }

  lemma {:induction false} AbandonedRuns(n: nat)
    requires n <= LIMIT
    ensures Run(Abandoned(n)) == Some(World(Timer(Stopped, n % 0x100, false, n), History(n, n, 0, [])))
    ensures Within(INITIAL, Abandoned(n))
  {
    if n > 0 {
      AbandonedRuns(n - 1);
      IncDec(n - 1);
      OneAbandoned(Run(Abandoned(n - 1)).value);
      RunAppend(INITIAL, Abandoned(n - 1), [Start, Expire, Stop]);
    }
  }

  /** The bound is sharp: with 257 outstanding, a callback of an abandoned interval notifies while the timer runs. */
  lemma StaleNotifyAt257() returns (es: seq<Event>)
    ensures Run(es).Some? && Within(INITIAL, es)
    ensures var t := Run(es).value.t; t.armed && Outstanding(t) == 257 && AfterTimeout(t).1
  {
    var n := LIMIT;
    AbandonedRuns(n);
    es := Abandoned(n) + [Start];
    var w := Run(Abandoned(n)).value;
    assert [Start][1..] == [];
    assert RunFrom(w, [Start]) == Some(Apply(w, Start));
    RunAppend(INITIAL, Abandoned(n), [Start]);
  }

  /** Left alone, a running timer notifies exactly once by the time nothing is outstanding, in whatever order expiry
      and callbacks come, and a timer that is not running does not notify. */
  lemma {:induction false} DrainsToOneNotification(w: World, es: seq<Event>)
    requires Counted(w.t) && Outstanding(w.t) <= LIMIT
    requires RunFrom(w, es).Some? && Outstanding(RunFrom(w, es).value.t) == 0
    requires forall i :: 0 <= i < |es| ==> es[i] == Expire || es[i] == Callback
    ensures RunFrom(w, es).value.h.notified == w.h.notified + if w.t.state == Started then [w.h.starts] else []
    decreases es
  {
    if es != [] {
      CountKeeps(w, es[0]);
      DrainsToOneNotification(Apply(w, es[0]), es[1..]);
    }
  }

  // ---------------------------------------------------------------- the code

  /** `late` counts the callbacks that have fired and not run, `history` is what became of the intervals, and `within`
      says that no call and no expiry has come with more than 256 callbacks outstanding. */
  class AckTimer {
    var state: TimerState
    var pending: byte
    var armed: bool
    ghost var late: nat
    ghost var history: History
    ghost var within: bool

    ghost function View(): World
      reads this
    {
      World(Timer(state, pending, armed, late), history)
    }

    /** Every start so far is running or was ended once, and within the limit `pending` counts the callbacks to come. */
    ghost predicate Valid()
      reads this
    {
      Accounted(history, state == Started) && (within ==> Counted(View().t))
    }

    ghost predicate InLimit()
      reads this
    {
      within && Outstanding(View().t) <= LIMIT
    }

    constructor ()
      ensures Valid() && View() == INITIAL && within
    {
      state, pending, armed := Stopped, 0, false;
      late, history, within := 0, INITIAL.h, true;
    }

    /** What the caller gets is whether a new interval has begun, and a running timer always has a callback to come. */
    method Start() returns (ok: bool)
      requires Valid()
      modifies this
      ensures Valid() && View() == Apply(old(View()), Event.Start) && within == old(InLimit())
      ensures history.starts == old(history.starts) + if ok then 1 else 0
      ensures within && state == Started ==> Outstanding(View().t) > 0
    {
      ghost var before := View();
      within := InLimit();
      if within { CountKeeps(before, Event.Start); }
      AccountKeeps(before, Event.Start);
      if state != Stopped {
        return false;
      }
      state := Started;
      pending := Inc(pending);
      armed := true;
      history := history.(starts := history.starts + 1);
      return true;
    }

    /** `Stop` of the runtime timer. */
    method StopTimer() returns (wasArmed: bool)
      modifies this`armed
      ensures wasArmed == old(armed) && !armed
    {
      wasArmed := armed;
      armed := false;
    }

    /** Ends the interval that runs, if one does, and takes its callback out of the count if that has not fired. */
    method Stop()
      requires Valid()
      modifies this
      ensures Valid() && View() == Apply(old(View()), Event.Stop) && within == old(InLimit())
      ensures state != Started && history.stopped == old(history.stopped) + if old(state) == Started then 1 else 0
      ensures within ==> !armed && pending == late % 0x100
    {
      ghost var before := View();
      within := InLimit();
      if within { CountKeeps(before, Event.Stop); }
      AccountKeeps(before, Event.Stop);
      if state == Started {
        var wasArmed := StopTimer();
        if wasArmed {
          pending := Dec(pending);
        }
        state := Stopped;
        history := history.(stopped := history.stopped + 1);
      }
    }

    /** Ends the interval that runs, if one does, and no other begins. */
    method Close()
      requires Valid()
      modifies this
      ensures Valid() && View() == Apply(old(View()), Event.Close) && within == old(InLimit())
      ensures state == Closed && history.closed == old(history.closed) + if old(state) == Started then 1 else 0
      ensures within ==> !armed && pending == late % 0x100
    {
      ghost var before := View();
      within := InLimit();
      if within { CountKeeps(before, Event.Close); }
      AccountKeeps(before, Event.Close);
      if state == Started {
        var wasArmed := StopTimer();
        if wasArmed {
          pending := Dec(pending);
        }
        history := history.(closed := history.closed + 1);
      }
      state := Closed;
    }

    /** The runtime timer goes off. */
    method Fire()
      requires Valid() && armed
      modifies this
      ensures Valid() && View() == Apply(old(View()), Expire) && within == old(InLimit())
    {
      ghost var before := View();
      within := InLimit();
      if within { CountKeeps(before, Expire); }
      armed := false;
      late := late + 1;
    }

    /** A notification is for the interval that runs, which it ends; within the limit it comes from the last callback
        outstanding and from no other. */
    method Timeout() returns (notify: bool)
      requires Valid() && late > 0
      modifies this
      ensures Valid() && View() == Apply(old(View()), Callback) && within == old(InLimit())
      ensures history.notified == old(history.notified) + if notify then [history.starts] else []
      ensures within ==> (notify <==> old(state) == Started && old(Outstanding(View().t)) == 1)
    {
      ghost var before := View();
      within := InLimit();
      if within { CountKeeps(before, Callback); }
      AccountKeeps(before, Callback);
      notify := false;
      late := late - 1;
      pending := Dec(pending);
      if pending == 0 && state == Started {
        state := Stopped;
        history := history.(notified := history.notified + [history.starts]);
        notify := true;
      }
    }
  }
}
