/** The guard of a function-local static variable: `__cxa_guard_acquire` and `__cxa_guard_release` run by any
    number of threads, one atomic operation at a time. */
module Guard {

  /** Where a thread is: not in a call, before the relaxed load, in the exchange loop, about to put 2 back,
      or initialising the variable. */
  datatype Pc = Outside | Entered | Spinning | Restoring | Initialising

  /** An acquire that returned 1, an acquire that returned 0, a release. */
  datatype Event = Won(thread: nat) | Skipped(thread: nat) | Released(thread: nat)

  /** `values` are those the guard byte has had, in order; the last is its value. */
  datatype State = State(values: seq<nat>, pc: seq<Pc>, log: seq<Event>)

  function Guard(s: State): nat
    requires s.values != []
  {
    s.values[|s.values| - 1]
  }

  function Move(s: State, t: nat, to: Pc): State
    requires t < |s.pc|
  {
    s.(pc := s.pc[t := to])
  }

  function Store(s: State, v: nat): State {
    s.(values := s.values + [v])
  }

  function Note(s: State, e: Event): State {
    s.(log := s.log + [e])
  }

  ghost predicate Init(s: State) {
    s.values == [0] && s.log == [] && forall t: nat :: t < |s.pc| ==> s.pc[t] == Outside
  }

  /** The relaxed load returns some value the byte has had, not always the newest. */
  predicate Load(s: State, t: nat, seen: nat, s': State) {
    && t < |s.pc| && s.pc[t] == Entered && seen in s.values
    && s' == if seen == 2 then Note(Move(s, t, Outside), Skipped(t)) else Move(s, t, Spinning)
  }

  predicate Exchange(s: State, t: nat, s': State) {
    && t < |s.pc| && s.pc[t] == Spinning && s.values != []
    && s' == Store(if Guard(s) == 2 then Move(s, t, Restoring)
                   else if Guard(s) == 1 then s
                   else Note(Move(s, t, Initialising), Won(t)), 1)
  }

  predicate Restore(s: State, t: nat, s': State) {
    && t < |s.pc| && s.pc[t] == Restoring
    && s' == Note(Store(Move(s, t, Outside), 2), Skipped(t))
  }

  predicate Release(s: State, t: nat, s': State) {
    && t < |s.pc| && s.pc[t] == Initialising
    && s' == Note(Store(Move(s, t, Outside), 2), Released(t))
  }

  predicate Call(s: State, t: nat, s': State) {
    t < |s.pc| && s.pc[t] == Outside && s' == Move(s, t, Entered)
  }

  /** A step inside a call. */
  ghost predicate Work(s: State, t: nat, s': State) {
    (exists seen: nat :: Load(s, t, seen, s')) || Exchange(s, t, s') || Restore(s, t, s') || Release(s, t, s')
  }

  ghost predicate Next(s: State, s': State) {
    exists t: nat :: Call(s, t, s') || Work(s, t, s')
  }

  /** A sequence of steps, from any state. */
  ghost predicate Path(states: seq<State>) {
    states != [] && forall i: nat :: i + 1 < |states| ==> Next(states[i], states[i + 1])
  }

  function Last(states: seq<State>): State
    requires states != []
  {
    states[|states| - 1]
  }

  ghost predicate Run(states: seq<State>) {
    Path(states) && Init(states[0])
  }

  // ----- What holds in every run

  predicate AllSkipped(log: seq<Event>, from: nat) {
    forall i: nat :: from <= i < |log| ==> log[i].Skipped?
  }

  /** Nobody is initialising or restoring. */
  predicate Quiet(s: State) {
    forall t: nat :: t < |s.pc| ==> !s.pc[t].Initialising? && !s.pc[t].Restoring?
  }

  /** `u` alone is at `at`, and nobody else initialises or restores. */
  predicate Alone(s: State, u: nat, at: Pc) {
    && u < |s.pc| && s.pc[u] == at
    && forall t: nat :: t < |s.pc| && t != u ==> !s.pc[t].Initialising? && !s.pc[t].Restoring?
  }

  predicate Unused(s: State) {
    s.log == [] && (forall v :: v in s.values ==> v == 0) && Quiet(s)
  }

  predicate Busy(s: State, u: nat)
    requires s.values != []
  {
    s.log == [Won(u)] && Guard(s) == 1 && 2 !in s.values && Alone(s, u, Initialising)
  }

  predicate Over(s: State, u: nat) {
    |s.log| >= 2 && s.log[0] == Won(u) && s.log[1] == Released(u) && AllSkipped(s.log, 2)
  }

  /** After the release the byte is 2, or it is 1 and exactly one thread is about to put 2 back. */
  ghost predicate Ready(s: State)
    requires s.values != []
  {
    (Guard(s) == 2 && Quiet(s)) || (Guard(s) == 1 && exists u: nat :: Alone(s, u, Restoring))
  }

  ghost predicate Inv(s: State) {
    && s.values != []
    && (Unused(s) || (exists u: nat :: Busy(s, u)) || (Ready(s) && exists u: nat :: Over(s, u)))
  }

  lemma UnusedStep(s: State, t: nat, s': State)
    requires s.values != [] && Unused(s) && (Call(s, t, s') || Work(s, t, s'))
    ensures s'.values != [] && (Unused(s') || Busy(s', t))
  {
    assert Guard(s) in s.values;
    if Exchange(s, t, s') {
      assert Guard(s') == 1;
      assert Alone(s', t, Initialising);
    }
  }

  lemma BusyStep(s: State, u: nat, t: nat, s': State)
    requires s.values != [] && Busy(s, u) && (Call(s, t, s') || Work(s, t, s'))
    ensures s'.values != [] && (Busy(s', u) || (Ready(s') && Over(s', u)))
  {
    if Release(s, t, s') {
      assert t == u && Guard(s') == 2 && Quiet(s');
    } else if Exchange(s, t, s') {
      assert Guard(s') == 1;
    }
  }

  lemma OverStep(s: State, u: nat, t: nat, s': State)
    requires s.values != [] && Ready(s) && Over(s, u) && (Call(s, t, s') || Work(s, t, s'))
    ensures s'.values != [] && Ready(s') && Over(s', u)
  {
    if Guard(s) == 2 && Quiet(s) {
      if Exchange(s, t, s') {
        assert Guard(s') == 1 && Alone(s', t, Restoring);
      } else {
        assert s'.values == s.values && Quiet(s');
      }
    } else {
      var r: nat :| Alone(s, r, Restoring);
      if Restore(s, t, s') {
        assert t == r && Guard(s') == 2 && Quiet(s');
      } else {
        assert Guard(s') == 1 && Alone(s', r, Restoring);
      }
    }
  }

  lemma NextKeepsInv(s: State, s': State)
    requires Inv(s) && Next(s, s')
    ensures Inv(s')
  {
    var t: nat :| Call(s, t, s') || Work(s, t, s');
    if Unused(s) {
      UnusedStep(s, t, s');
    } else if u: nat :| Busy(s, u) {
      BusyStep(s, u, t, s');
    } else {
      var w: nat :| Over(s, w);
      OverStep(s, w, t, s');
    }
  }

  lemma {:induction false} RunKeepsInv(states: seq<State>, i: nat)
    requires Run(states) && i < |states|
    ensures Inv(states[i])
  {
    if i == 0 {
      assert Unused(states[0]);
    } else {
      RunKeepsInv(states, i - 1);
      assert Next(states[i - 1], states[i - 1 + 1]);
      NextKeepsInv(states[i - 1], states[i]);
    }
  }

  /** In every interleaving: at most one acquire returns 1, and no acquire returns 0 before a release. */
  lemma OneInitialisation(states: seq<State>, i: nat)
    requires Run(states) && i < |states|
    ensures var s := states[i];
            && (forall j: nat, k: nat :: j < |s.log| && k < |s.log| && s.log[j].Won? && s.log[k].Won? ==> j == k)
            && (forall j: nat :: j < |s.log| && s.log[j].Skipped? ==> exists k: nat :: k < j && s.log[k].Released?)
            && (forall t: nat, u: nat :: t < |s.pc| && u < |s.pc| && s.pc[t].Initialising? && s.pc[u].Initialising? ==>
                  t == u)
  {
    RunKeepsInv(states, i);
    var s := states[i];
    forall j: nat | j < |s.log| && s.log[j].Skipped? ensures exists k: nat :: k < j && s.log[k].Released? {
      assert s.log[1].Released?;
    }
  }

  /** In every state after a release the byte is 2 or one thread will make it 2. */
  lemma AfterRelease(states: seq<State>, i: nat, j: nat)
    requires Run(states) && i < |states| && j < |states[i].log| && states[i].log[j].Released?
    ensures states[i].values != [] && Ready(states[i]) && exists u: nat :: Over(states[i], u)
  {
    RunKeepsInv(states, i);
  }

  // ----- Nobody is stranded

  /** Atomic operations a thread still has to make, the exchanges that find 1 apart. */
  function Weight(p: Pc): nat {
    match p
    case Outside => 0
    case Restoring => 1
    case Spinning => 2
    case Entered => 3
    case Initialising => 1
  }

  function Total(pc: seq<Pc>): nat {
    if pc == [] then 0 else Total(pc[..|pc| - 1]) + Weight(pc[|pc| - 1])
  }

  lemma {:induction false} TotalMoves(pc: seq<Pc>, t: nat, to: Pc)
    requires t < |pc|
    ensures Total(pc[t := to]) == Total(pc) + Weight(to) - Weight(pc[t])
  {
    var n := |pc| - 1;
    if t < n {
      assert pc[t := to][..n] == pc[..n][t := to];
      TotalMoves(pc[..n], t, to);
    } else {
      assert pc[t := to][..n] == pc[..n];
    }
  }

  lemma {:induction false} SomePending(pc: seq<Pc>) returns (t: nat)
    requires Total(pc) > 0
    ensures t < |pc| && pc[t] != Outside
  {
    t := |pc| - 1;
    if pc[t] == Outside {
      t := SomePending(pc[..t]);
    }
  }

  /** After the release every step inside a call brings the callers nearer to returning, except an exchange
      that finds the byte 1, which leaves every thread where it was. */
  lemma WorkEnds(s: State, u: nat, t: nat, s': State)
    requires s.values != [] && Ready(s) && Over(s, u) && Work(s, t, s')
    ensures Total(s'.pc) < Total(s.pc) || (Exchange(s, t, s') && Guard(s) == 1 && s'.pc == s.pc && s'.log == s.log)
  {
    TotalMoves(s.pc, t, Outside);
    TotalMoves(s.pc, t, Spinning);
    TotalMoves(s.pc, t, Restoring);
  }

  /** After the release, as long as a caller has not returned, some thread has such a step. */
  lemma NotStranded(s: State, u: nat) returns (t: nat, s': State)
    requires s.values != [] && Ready(s) && Over(s, u) && Total(s.pc) > 0
    ensures Work(s, t, s') && Total(s'.pc) < Total(s.pc)
  {
    if Guard(s) == 2 && Quiet(s) {
      t := SomePending(s.pc);
      if s.pc[t] == Entered {
        s' := Note(Move(s, t, Outside), Skipped(t));
        assert Load(s, t, 2, s');
      } else {
        s' := Store(Move(s, t, Restoring), 1);
        assert Exchange(s, t, s');
      }
    } else {
      t :| Alone(s, t, Restoring);
      s' := Note(Store(Move(s, t, Outside), 2), Skipped(t));
      assert Restore(s, t, s');
    }
    WorkEnds(s, u, t, s');
  }

  /** So from any such state the waiting calls can all return, and each of them returns 0. */
  lemma {:induction false} AllReturn(s: State, u: nat) returns (states: seq<State>)
    requires s.values != [] && Ready(s) && Over(s, u)
    ensures Path(states) && states[0] == s
    ensures var e := Last(states);
            && Total(e.pc) == 0 && e.values != [] && Guard(e) == 2 && Over(e, u)
            && |s.log| <= |e.log| && s.log == e.log[..|s.log|]
    decreases Total(s.pc)
  {
    if Total(s.pc) == 0 {
      if !(Guard(s) == 2) {
        var r: nat :| Alone(s, r, Restoring);
        TotalMoves(s.pc, r, Outside);
      }
      states := [s];
    } else {
      var t, s' := NotStranded(s, u);
      OverStep(s, u, t, s');
      var rest := AllReturn(s', u);
      states := [s] + rest;
      assert Next(s, s');
      assert s.log == s'.log[..|s.log|];
      var e := Last(states);
      assert e == Last(rest);
      assert s.log == e.log[..|s'.log|][..|s.log|];
    }
  }

  // ----- The initialisation happens

  /** What a step inside a call answers: acquire returns 1 exactly when its exchange finds 0, and then the byte is 1;
      it returns 0 when its load sees 2 or when it has put 2 back; a release leaves 2. */
  lemma Answers(s: State, t: nat, s': State)
    requires s.values != [] && Work(s, t, s')
    ensures s'.values != [] && t < |s.pc| && |s'.pc| == |s.pc|
    ensures s.pc[t] == Spinning && Guard(s) == 0 ==>
              s'.log == s.log + [Won(t)] && Guard(s') == 1 && s'.pc[t] == Initialising
    ensures s.pc[t] == Spinning && Guard(s) == 1 ==> s'.log == s.log && Guard(s') == 1 && s'.pc == s.pc
    ensures s.pc[t] == Spinning && Guard(s) == 2 ==> s'.log == s.log && s'.pc[t] == Restoring
    ensures s.pc[t] == Initialising ==> s'.log == s.log + [Released(t)] && Guard(s') == 2 && s'.pc[t] == Outside
    ensures s.pc[t] == Restoring ==> s'.log == s.log + [Skipped(t)] && Guard(s') == 2 && s'.pc[t] == Outside
    ensures s.pc[t] == Entered ==>
              && Guard(s') == Guard(s)
              && ((2 in s.values && s'.log == s.log + [Skipped(t)] && s'.pc[t] == Outside)
                  || ((exists v: nat :: v in s.values && v != 2) && s'.log == s.log && s'.pc[t] == Spinning))
  {
  }

  /** From an unused guard any thread inside a call can win. */
  lemma FirstWins(s: State, t: nat) returns (states: seq<State>)
    requires s.values != [] && Unused(s) && t < |s.pc| && s.pc[t] != Outside
    ensures Path(states) && states[0] == s && Last(states).values != [] && Busy(Last(states), t)
  {
    var s1 := s;
    assert Guard(s) in s.values;
    states := [s];
    if s.pc[t] == Entered {
      s1 := Move(s, t, Spinning);
      assert Load(s, t, 0, s1);
      assert Work(s, t, s1) && Next(s, s1);
      states := [s, s1];
    }
    assert s1.pc[t] == Spinning && Guard(s1) == 0;
    var s2 := Store(Note(Move(s1, t, Initialising), Won(t)), 1);
    assert Exchange(s1, t, s2);
    assert Work(s1, t, s2) && Next(s1, s2);
    UnusedStep(s1, t, s2);
    states := states + [s2];
  }

  lemma PathJoin(a: seq<State>, b: seq<State>)
    requires Path(a) && Path(b) && Next(Last(a), b[0])
    ensures Path(a + b) && Last(a + b) == Last(b)
  {
    var c := a + b;
    forall i: nat | i + 1 < |c| ensures Next(c[i], c[i + 1]) {
      if i + 1 < |a| {
        assert c[i] == a[i] && c[i + 1] == a[i + 1];
      } else if i + 1 > |a| {
        assert c[i] == b[i - |a|] && c[i + 1] == b[i - |a| + 1];
      }
    }
  }

  /** From every reachable state in which a thread is inside a call there is a run in which exactly one acquire has
      returned 1, that thread has released, and every caller has returned. */
  lemma Completes(run: seq<State>, i: nat, t: nat) returns (states: seq<State>, u: nat)
    requires Run(run) && i < |run| && t < |run[i].pc| && run[i].pc[t] != Outside
    ensures Path(states) && states[0] == run[i]
    ensures var e := Last(states);
            && (forall k: nat :: k < |e.pc| ==> e.pc[k] == Outside)
            && e.values != [] && Guard(e) == 2 && |e.log| >= 2 && e.log[0] == Won(u) && e.log[1] == Released(u)
            && forall k: nat :: 2 <= k < |e.log| ==> e.log[k].Skipped?
  {
    RunKeepsInv(run, i);
    states := [run[i]];
    if Unused(run[i]) {
      u := t;
      states := FirstWins(run[i], t);
    } else if w: nat :| Busy(run[i], w) {
      u := w;
    } else {
      u :| Over(run[i], u);
    }
    var s := Last(states);
    if s.log == [Won(u)] {
      var s1 := Note(Store(Move(s, u, Outside), 2), Released(u));
      assert Release(s, u, s1);
      assert Work(s, u, s1) && Next(s, s1);
      BusyStep(s, u, u, s1);
      PathJoin(states, [s1]);
      states := states + [s1];
    }
    s := Last(states);
    var rest := AllReturn(s, u);
    states := states[..|states| - 1] + rest;
    NobodyInside(Last(rest).pc);
  }

  lemma {:induction false} NobodyInside(pc: seq<Pc>)
    requires Total(pc) == 0
    ensures forall t: nat :: t < |pc| ==> pc[t] == Outside
  {
    if pc != [] {
      NobodyInside(pc[..|pc| - 1]);
    }
  }
}
