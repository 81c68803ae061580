/** Round-robin scheduling: a runnable process waits for at most NPROC scheduling decisions. */
module Fairness {
  import opened Paging
  import opened Physical
  import opened KernelSpec
  import opened Steps
  import opened Runs

  /** How many slots after the current one `q` comes, from 1 to NPROC. */
  function Wait(s: State, q: nat): (d: nat)
    requires Sized(s) && q < NPROC
    ensures 1 <= d <= NPROC && (s.current + d) % NPROC == q
  {
    if q > s.current then q - s.current else q + NPROC - s.current
  }

  predicate Runnable(s: State, q: nat) {
    q < |s.procs| && s.procs[q].state == PRunnable
  }

  /** A scheduling decision runs `q` or brings it strictly closer. */
  lemma ScheduleCloser(s: State, s': State, q: nat)
    requires Sized(s) && Sized(s') && q < NPROC && Runnable(s, q) && ScheduleSpec(s, s')
    ensures s'.current == q || Wait(s', q) < Wait(s, q)
  {
    var d: nat :| 1 <= d <= NPROC && Picks(s, d) && s' == s.(current := (s.current + d) % NPROC);
    var w := Wait(s, q);
    assert StateAfter(s, w) == PRunnable;
    assert (s.current + d) % NPROC == if s.current + d < NPROC then s.current + d else s.current + d - NPROC;
  }

  /** Some process is chosen whenever one is runnable, and then the choice is unique. */
  lemma ScheduleIsDetermined(s: State, a: State, b: State)
    requires Sized(s) && ScheduleSpec(s, a) && ScheduleSpec(s, b)
    ensures a == b
  {
    var d: nat :| 1 <= d <= NPROC && Picks(s, d) && a == s.(current := (s.current + d) % NPROC);
    var e: nat :| 1 <= e <= NPROC && Picks(s, e) && b == s.(current := (s.current + e) % NPROC);
    assert StateAfter(s, d) == StateAfter(s, e) == PRunnable;
  }

  /** The scheduling decisions among events `a` to `b`. */
  function Schedules(events: seq<Event>, a: nat, b: nat): nat
    requires a <= b <= |events|
    decreases b
  {
    if a == b then 0 else Schedules(events, a, b - 1) + if events[b - 1].Schedule? then 1 else 0
  }

  /** That is how many there are. */
  lemma {:induction false} SchedulesCount(events: seq<Event>, a: nat, b: nat)
    requires a <= b <= |events|
    ensures Schedules(events, a, b) == |set k: nat | a <= k < b && events[k].Schedule?|
  {
    var now := set k: nat | a <= k < b && events[k].Schedule?;
    if a < b {
      SchedulesCount(events, a, b - 1);
      var before := set k: nat | a <= k < b - 1 && events[k].Schedule?;
      assert now == if events[b - 1].Schedule? then before + {b - 1} else before;
    } else {
      assert now == {};
    }
  }

  lemma NextSchedule(s: State, e: Event, s': State)
    requires Next(s, e, s') && e.Schedule?
    ensures ScheduleSpec(s, s')
  {
  }

  lemma OtherStepsKeepCurrent(s: State, e: Event, s': State)
    requires Next(s, e, s') && !e.Schedule?
    ensures s'.current == s.current
  {
  }

  /** Each decision that does not run `q` uses up part of its waiting distance. */
  lemma {:induction false} WaitingRunsOut(run: seq<State>, events: seq<Event>, q: nat, a: nat, b: nat)
    requires IsRun(run, events) && a <= b <= |events| && q < NPROC
    requires forall k: nat :: a <= k <= b ==> Sized(run[k]) && Runnable(run[k], q)
    requires forall k: nat :: a <= k < b && events[k].Schedule? ==> run[k + 1].current != q
    ensures Schedules(events, a, b) + Wait(run[b], q) <= Wait(run[a], q)
    decreases b
  {
    hide Wait, Next, ScheduleSpec;
    if a < b {
      WaitingRunsOut(run, events, q, a, b - 1);
      var e := events[b - 1];
      assert Next(run[b - 1], e, run[b - 1 + 1]);
      if e.Schedule? {
        NextSchedule(run[b - 1], e, run[b]);
        ScheduleCloser(run[b - 1], run[b], q);
      } else {
        OtherStepsKeepCurrent(run[b - 1], e, run[b]);
        SameWait(run[b - 1], run[b], q);
      }
    }
  }

  lemma SameWait(s: State, s': State, q: nat)
    requires Sized(s) && Sized(s') && q < NPROC && s'.current == s.current
    ensures Wait(s', q) == Wait(s, q)
  {
  }

  /** In any stretch of a run with NPROC scheduling decisions, a process that stays runnable is run. */
  lemma BoundedWaiting(run: seq<State>, events: seq<Event>, q: nat, a: nat, b: nat)
    requires IsRun(run, events) && a <= b <= |events| && q < NPROC
    requires forall k: nat :: a <= k <= b ==> Runnable(run[k], q)
    requires Schedules(events, a, b) >= NPROC
    ensures exists k: nat :: a <= k < b && events[k].Schedule? && run[k + 1].current == q
  {
    if forall k: nat :: a <= k < b && events[k].Schedule? ==> run[k + 1].current != q {
      forall k: nat | a <= k <= b ensures Sized(run[k]) {
        var j := if k < b then k else k - 1;
        assert Next(run[j], events[j], run[j + 1]);
      }
      WaitingRunsOut(run, events, q, a, b);
    }
  }
}
