/** The deduplicating ESI worker and its lazily started thread (app/server/esi_worker.py). */
module EsiWorker {
  import opened Common

  datatype Task = Task(key: string, payload: string)

  datatype Item = Work(task: Task) | Stop

  /** Where a worker thread is in _run. */
  datatype Pc = Waiting | TimedOut | Running(task: Task) | Stopping | Gone

  /**
    `hand` is the work of a submitter that holds the lock between starting the thread and putting it in the queue;
    the three last fields are histories.
   */
  datatype State = State(
    queue: seq<Item>, pending: set<string>, idle: bool, thread: Option<nat>, closed: bool,
    pcs: seq<Pc>, hand: Option<Task>, accepted: seq<Task>, started: seq<Task>, finished: seq<Task>)

  const INIT := State([], {}, true, None, false, [], None, [], [], [])

  datatype Step =
    | Submit(task: Task) | Put | Close
    | Get(t: nat) | TimeOut(t: nat) | Retire(t: nat) | Quit(t: nat) | Finish(t: nat)

  predicate At(s: State, t: nat, pc: Pc) { t < |s.pcs| && s.pcs[t] == pc }

  predicate Alive(s: State, t: nat) { t < |s.pcs| && !s.pcs[t].Gone? }

  function Leave(s: State, t: nat): State
    requires t < |s.pcs|
  {
    s.(pcs := s.pcs[t := Gone], thread := if s.thread == Some(t) then None else s.thread)
  }

  /** One atomic step; a step that is not enabled (another thread holds the lock, say) changes nothing. */
  function Next(s: State, e: Step): State {
    match e
    case Submit(task) =>
      if s.hand.Some? || s.closed || task.key in s.pending then s
      else
        var u := s.(pending := s.pending + {task.key}, idle := false, hand := Some(task), accepted := s.accepted + [task]);
        if s.thread.Some? && Alive(s, s.thread.value) then u else u.(thread := Some(|s.pcs|), pcs := s.pcs + [Waiting])
    case Put =>
      if s.hand.None? then s else s.(queue := s.queue + [Work(s.hand.value)], hand := None)
    case Close =>
      if s.hand.Some? || s.closed then s
      else s.(closed := true, queue := if s.thread.Some? then s.queue + [Stop] else s.queue)
    case Get(t) =>
      if !At(s, t, Waiting) || s.queue == [] then s
      else
        (match s.queue[0]
         case Work(task) => s.(queue := s.queue[1..], pcs := s.pcs[t := Running(task)], started := s.started + [task])
         case Stop => s.(queue := s.queue[1..], pcs := s.pcs[t := Stopping]))
    case TimeOut(t) =>
      if At(s, t, Waiting) && s.queue == [] then s.(pcs := s.pcs[t := TimedOut]) else s
    case Retire(t) =>
      if s.hand.Some? || !At(s, t, TimedOut) then s
      else if s.closed || s.pending == {} then Leave(s, t).(idle := true)
      else s.(pcs := s.pcs[t := Waiting])
    case Quit(t) =>
      if s.hand.None? && At(s, t, Stopping) then Leave(s, t) else s
    case Finish(t) =>
      if s.hand.Some? || t >= |s.pcs| || !s.pcs[t].Running? then s
      else
        var pending := s.pending - {s.pcs[t].task.key};
        s.(pending := pending, idle := s.idle || pending == {}, pcs := s.pcs[t := Waiting], finished := s.finished + [s.pcs[t].task])
  }

  function After(s: State, run: seq<Step>): State
    decreases |run|
  {
    if run == [] then s else After(Next(s, run[0]), run[1..])
  }

  // -------------------------------------------------------------- invariants

  function Works(queue: seq<Item>): seq<Task> {
    if queue == [] then [] else (if queue[0].Work? then [queue[0].task] else []) + Works(queue[1..])
  }

  function Doing(s: State): seq<Task> {
    if s.thread.Some? && s.thread.value < |s.pcs| && s.pcs[s.thread.value].Running? then [s.pcs[s.thread.value].task] else []
  }

  function InHand(s: State): seq<Task> { if s.hand.Some? then [s.hand.value] else [] }

  /** Running, queued and in hand: everything accepted and not finished. */
  function Open(s: State): seq<Task> { Doing(s) + Works(s.queue) + InHand(s) }

  function Keys(ts: seq<Task>): set<string> { set t | t in ts :: t.key }

  ghost predicate DistinctKeys(ts: seq<Task>) { forall i, j :: 0 <= i < j < |ts| ==> ts[i].key != ts[j].key }

  /** At most one thread is alive, and it is the one the worker knows. */
  ghost predicate OneThread(s: State) {
    && (s.thread.Some? ==> Alive(s, s.thread.value))
    && (forall t :: 0 <= t < |s.pcs| && !s.pcs[t].Gone? ==> s.thread == Some(t))
  }

  /** Nothing accepted is lost, repeated or reordered. */
  ghost predicate Accounted(s: State) {
    && s.started == s.finished + Doing(s)
    && s.accepted == s.finished + Open(s)
    && s.pending == Keys(Open(s)) && DistinctKeys(Open(s))
  }

  ghost predicate StopIsLast(s: State) {
    && (forall i :: 0 <= i < |s.queue| && s.queue[i].Stop? ==> s.closed && i == |s.queue| - 1)
    && (s.thread.Some? && Alive(s, s.thread.value) && s.pcs[s.thread.value].Stopping? ==> s.closed && s.queue == [])
    && (s.closed && s.thread.Some? && Alive(s, s.thread.value) && !s.pcs[s.thread.value].Stopping? ==>
          s.queue != [] && s.queue[|s.queue| - 1].Stop?)
    && (s.hand.Some? ==> !s.closed && s.thread.Some?)
  }

  ghost predicate Inv(s: State) { OneThread(s) && Accounted(s) && StopIsLast(s) }

  /** Pending work has a serving thread, and idle says exactly that there is none. */
  ghost predicate Served(s: State) {
    && (s.pending != {} ==> s.thread.Some?)
    && (s.idle <==> s.pending == {})
  }

  /** An idle timeout seen before the last task, acted on after close. */
  predicate Strands(s: State, e: Step) {
    e.Retire? && s.hand.None? && At(s, e.t, TimedOut) && s.closed && s.pending != {}
  }

  // ------------------------------------------------------------------ lemmas

  lemma {:induction false} WorksAppend(q: seq<Item>, x: Item)
    ensures Works(q + [x]) == Works(q) + if x.Work? then [x.task] else []
  {
    if q != [] {
      assert (q + [x])[1..] == q[1..] + [x];
      WorksAppend(q[1..], x);
    }
  }

  lemma DropHead(x: Task, rest: seq<Task>)
    requires DistinctKeys([x] + rest)
    ensures DistinctKeys(rest) && Keys(rest) == Keys([x] + rest) - {x.key}
  {
    var all := [x] + rest;
    forall i | 0 <= i < |rest| ensures rest[i].key != x.key {
      assert all[0] == x && all[i + 1] == rest[i];
    }
    forall i, j | 0 <= i < j < |rest| ensures rest[i].key != rest[j].key {
      assert all[i + 1] == rest[i] && all[j + 1] == rest[j];
    }
    forall k | k in Keys(rest) ensures k in Keys(all) - {x.key} {
    }
  }

  lemma AddTail(ts: seq<Task>, x: Task)
    requires DistinctKeys(ts) && x.key !in Keys(ts)
    ensures DistinctKeys(ts + [x]) && Keys(ts + [x]) == Keys(ts) + {x.key}
  {
    forall i | 0 <= i < |ts| ensures ts[i].key != x.key {
      assert ts[i] in ts;
    }
    var all := ts + [x];
    assert forall t :: t in all <==> t in ts || t == x;
  }

  lemma SubmitKeeps(s: State, task: Task)
    requires Inv(s)
    ensures Inv(Next(s, Submit(task)))
  {
    if s.hand.None? && !s.closed && task.key !in s.pending {
      var u := Next(s, Submit(task));
      assert Doing(u) == Doing(s);
      assert Open(u) == Open(s) + [task];
      AddTail(Open(s), task);
    }
  }

  lemma PutKeeps(s: State)
    requires Inv(s)
    ensures Inv(Next(s, Put))
  {
    if s.hand.Some? {
      WorksAppend(s.queue, Work(s.hand.value));
      assert Open(Next(s, Put)) == Open(s);
    }
  }

  lemma CloseKeeps(s: State)
    requires Inv(s)
    ensures Inv(Next(s, Close))
  {
    WorksAppend(s.queue, Stop);
    assert Open(Next(s, Close)) == Open(s);
  }

  lemma GetAccounts(s: State, t: nat)
    requires Inv(s) && At(s, t, Waiting) && s.queue != []
    ensures Accounted(Next(s, Get(t)))
  {
    var u := Next(s, Get(t));
    assert s.thread == Some(t);
    assert Open(u) == Open(s);
  }

  lemma GetKeeps(s: State, t: nat)
    requires Inv(s)
    ensures Inv(Next(s, Get(t)))
  {
    if At(s, t, Waiting) && s.queue != [] {
      var u := Next(s, Get(t));
      GetAccounts(s, t);
      assert s.thread == Some(t);
      assert u.queue != [] ==> u.queue[|u.queue| - 1] == s.queue[|s.queue| - 1];
    }
  }

  /** A step that touches neither work nor its keys. */
  lemma SameAccount(s: State, u: State)
    requires Accounted(s) && u.queue == s.queue && u.hand == s.hand && u.pending == s.pending && Doing(u) == Doing(s)
    requires u.accepted == s.accepted && u.started == s.started && u.finished == s.finished
    ensures Accounted(u)
  {
    assert Open(u) == Open(s);
  }

  lemma LeavingKeeps(s: State, e: Step)
    requires Inv(s) && (e.TimeOut? || e.Retire? || e.Quit?)
    ensures Inv(Next(s, e))
  {
    if Next(s, e) != s {
      assert s.thread == Some(e.t);
      SameAccount(s, Next(s, e));
    }
  }

  lemma FinishOpen(s: State, t: nat)
    requires Inv(s) && s.hand.None? && t < |s.pcs| && s.pcs[t].Running?
    ensures Doing(s) == [s.pcs[t].task] && Doing(Next(s, Finish(t))) == []
    ensures Open(s) == [s.pcs[t].task] + Open(Next(s, Finish(t)))
  {
    assert s.thread == Some(t);
  }

  lemma FinishAccounts(s: State, t: nat)
    requires Inv(s) && s.hand.None? && t < |s.pcs| && s.pcs[t].Running?
    ensures Accounted(Next(s, Finish(t)))
  {
    var u, x := Next(s, Finish(t)), s.pcs[t].task;
    FinishOpen(s, t);
    assert s.finished + ([x] + Open(u)) == u.finished + Open(u);
    DropHead(x, Open(u));
  }

  lemma FinishKeeps(s: State, t: nat)
    requires Inv(s)
    ensures Inv(Next(s, Finish(t)))
  {
    if s.hand.None? && t < |s.pcs| && s.pcs[t].Running? {
      FinishAccounts(s, t);
    }
  }

  lemma StepKeepsInv(s: State, e: Step)
    requires Inv(s)
    ensures Inv(Next(s, e))
  {
    match e
    case Submit(task) => SubmitKeeps(s, task);
    case Put => PutKeeps(s);
    case Close => CloseKeeps(s);
    case Get(t) => GetKeeps(s, t);
    case TimeOut(_) => LeavingKeeps(s, e);
    case Retire(_) => LeavingKeeps(s, e);
    case Quit(_) => LeavingKeeps(s, e);
    case Finish(t) => FinishKeeps(s, t);
  }

  lemma QuitsWithoutWork(s: State, t: nat)
    requires Inv(s) && At(s, t, Stopping)
    ensures s.thread == Some(t) && s.pending == {}
  {
    assert s.thread == Some(t);
    assert Open(s) == [];
  }

  /** A step keeps pending work served unless it is the one step that strands it. */
  lemma ServedUnlessStranded(s: State, e: Step)
    requires Inv(s) && Served(s)
    ensures Served(Next(s, e)) <==> !Strands(s, e)
  {
    if e.Quit? && s.hand.None? && At(s, e.t, Stopping) {
      QuitsWithoutWork(s, e.t);
    }
    if e.Submit? && Next(s, e) != s {
      assert e.task.key in Next(s, e).pending;
    }
    if e.Retire? && Next(s, e) != s {
      assert s.thread == Some(e.t);
    }
  }

  /** Stranded work stays stranded: no thread is left and none is ever started. */
  ghost predicate Stranded(s: State) { s.closed && s.thread.None? && s.pending != {} && s.idle }

  lemma StrandedForGood(s: State, e: Step)
    requires Inv(s)
    ensures Served(s) && Strands(s, e) ==> Stranded(Next(s, e))
    ensures Stranded(s) ==> Stranded(Next(s, e))
  {
    if Strands(s, e) {
      assert s.thread == Some(e.t);
    }
  }

  ghost predicate NeverStrands(s: State, run: seq<Step>)
    decreases |run|
  {
    run == [] || (!Strands(s, run[0]) && NeverStrands(Next(s, run[0]), run[1..]))
  }

  lemma {:induction false} RunsFrom(s: State, run: seq<Step>)
    requires Inv(s) && (Served(s) || Stranded(s))
    ensures Inv(After(s, run))
    ensures Stranded(s) ==> Stranded(After(s, run))
    ensures Served(s) ==> (Served(After(s, run)) <==> NeverStrands(s, run))
    decreases |run|
  {
    if run != [] {
      var u := Next(s, run[0]);
      StepKeepsInv(s, run[0]);
      StrandedForGood(s, run[0]);
      if Served(s) {
        ServedUnlessStranded(s, run[0]);
      }
      RunsFrom(u, run[1..]);
    }
  }

  /**
    Every interleaving: pending keys are exactly those running, queued or in hand, each once, and accepted
    tasks run in order with none lost or repeated. Idle and a serving thread are right exactly when no idle
    timeout overtook a close.
   */
  lemma EveryRun(run: seq<Step>)
    ensures Inv(After(INIT, run))
    ensures Served(After(INIT, run)) <==> NeverStrands(INIT, run)
  {
    RunsFrom(INIT, run);
  }

  lemma {:induction false} OpenRunsNeverStrand(s: State, run: seq<Step>)
    requires !s.closed && Close !in run
    ensures NeverStrands(s, run) && !After(s, run).closed
    decreases |run|
  {
    if run != [] {
      OpenRunsNeverStrand(Next(s, run[0]), run[1..]);
    }
  }

  /** Without close, pending work is always served, and wait_idle returns only after all accepted work. */
  lemma WithoutClose(run: seq<Step>)
    requires Close !in run
    ensures var s := After(INIT, run);
            && Inv(s) && Served(s)
            && (s.idle <==> s.finished == s.accepted)
            && (!s.idle ==> s.thread.Some? && Alive(s, s.thread.value))
  {
    EveryRun(run);
    OpenRunsNeverStrand(INIT, run);
    var s := After(INIT, run);
    NoKeysNoTasks(Open(s));
  }

  /** A caller's rule: close only while nothing is pending, as after wait_idle. */
  ghost predicate ClosesIdle(s: State, run: seq<Step>)
    decreases |run|
  {
    run == [] || ((run[0].Close? ==> s.pending == {}) && ClosesIdle(Next(s, run[0]), run[1..]))
  }

  lemma {:induction false} ClosingIdleNeverStrands(s: State, run: seq<Step>)
    requires (s.closed ==> s.pending == {}) && ClosesIdle(s, run)
    ensures NeverStrands(s, run)
    decreases |run|
  {
    if run != [] {
      ClosingIdleNeverStrands(Next(s, run[0]), run[1..]);
    }
  }

  lemma NoKeysNoTasks(ts: seq<Task>)
    ensures Keys(ts) == {} <==> ts == []
  {
    if ts != [] {
      assert ts[0].key in Keys(ts);
    }
  }

  ghost predicate Reachable(s: State) { exists run :: After(INIT, run) == s }

  lemma {:induction false} AfterAppend(s: State, run: seq<Step>, e: Step)
    ensures After(s, run + [e]) == Next(After(s, run), e)
    decreases |run|
  {
    if run == [] {
      assert run + [e] == [e];
    } else {
      assert (run + [e])[1..] == run[1..] + [e];
      AfterAppend(Next(s, run[0]), run[1..], e);
    }
  }

  lemma Reach(s: State, e: Step)
    requires Reachable(s)
    ensures Reachable(Next(s, e))
  {
    var run :| After(INIT, run) == s;
    AfterAppend(INIT, run, e);
  }

  /** One task has run, and its thread saw the empty queue. */
  lemma FirstTaskTimesOut(task: Task)
    ensures Reachable(State([], {}, true, Some(0), false, [TimedOut], None, [task], [task], [task]))
  {
    InitReachable();
    Reach(INIT, Submit(task));
    var s1 := State([], {task.key}, false, Some(0), false, [Waiting], Some(task), [task], [], []);
    assert Next(INIT, Submit(task)) == s1;
    Reach(s1, Put);
    var s2 := State([Work(task)], {task.key}, false, Some(0), false, [Waiting], None, [task], [], []);
    assert Next(s1, Put) == s2;
    FirstTaskRuns(s2, task);
  }

  lemma InitReachable()
    ensures Reachable(INIT)
  {
    assert After(INIT, []) == INIT;
  }

  lemma FirstTaskRuns(s2: State, task: Task)
    requires s2 == State([Work(task)], {task.key}, false, Some(0), false, [Waiting], None, [task], [], [])
    requires Reachable(s2)
    ensures Reachable(State([], {}, true, Some(0), false, [TimedOut], None, [task], [task], [task]))
  {
    Reach(s2, Get(0));
    var s3 := State([], {task.key}, false, Some(0), false, [Running(task)], None, [task], [task], []);
    assert Next(s2, Get(0)) == s3;
    Reach(s3, Finish(0));
    var s4 := State([], {}, true, Some(0), false, [Waiting], None, [task], [task], [task]);
    assert Next(s3, Finish(0)) == s4;
    Reach(s4, TimeOut(0));
  }

  /** The race: idle is set and the thread gone with an accepted task that never ran. */
  lemma CloseCanStrand(task: Task)
    ensures exists s :: Reachable(s) && s.idle && s.thread.None? && s.finished != s.accepted && s.queue == [Work(task), Stop]
  {
    FirstTaskTimesOut(task);
    var s5 := State([], {}, true, Some(0), false, [TimedOut], None, [task], [task], [task]);
    Reach(s5, Submit(task));
    var s6 := State([], {task.key}, false, Some(0), false, [TimedOut], Some(task), [task, task], [task], [task]);
    Reach(s6, Put);
    var s7 := s6.(queue := [Work(task)], hand := None);
    Reach(s7, Close);
    var s8 := s7.(queue := [Work(task), Stop], closed := true);
    Reach(s8, Retire(0));
    var s9 := s8.(idle := true, thread := None, pcs := [Gone]);
    assert Next(s8, Retire(0)) == s9;
    assert Reachable(s9);
  }

  /** Nobody is submitting, and no idle timeout is about to overtake a close. */
  ghost predicate Drainable(s: State) {
    && Inv(s) && Served(s) && s.hand.None? && s.thread.Some?
    && (s.closed ==> !s.pcs[s.thread.value].TimedOut?)
  }

  /** What the serving thread does next. */
  function Own(s: State): Step
    requires s.thread.Some? && s.thread.value < |s.pcs|
  {
    var t := s.thread.value;
    if s.pcs[t].Running? then Finish(t) else if s.pcs[t].Waiting? then Get(t) else Retire(t)
  }

  function Stage(s: State): nat
    requires s.thread.Some? && s.thread.value < |s.pcs|
  {
    var pc := s.pcs[s.thread.value];
    if pc.Running? then 0 else if pc.Waiting? then 1 else 2
  }

  /** Work that nobody runs is at the head of the queue. */
  lemma HasWork(s: State)
    requires Drainable(s)
    ensures s.pending != {} && !s.pcs[s.thread.value].Running? ==> s.queue != [] && s.queue[0].Work? && !s.pcs[s.thread.value].Stopping?
  {
    if !s.pcs[s.thread.value].Running? && (s.queue == [] || !s.queue[0].Work?) {
      assert Works(s.queue) == [];
      assert Open(s) == [];
    }
  }

  lemma OwnStepDrains(s: State)
    requires Drainable(s) && s.pending != {}
    ensures Drainable(Next(s, Own(s)))
  {
    HasWork(s);
    StepKeepsInv(s, Own(s));
    ServedUnlessStranded(s, Own(s));
  }

  lemma OwnStepShrinks(s: State)
    requires Drainable(s) && s.pending != {}
    requires var u := Next(s, Own(s)); u.thread.Some? && u.thread.value < |u.pcs|
    ensures var u := Next(s, Own(s));
            && u.accepted == s.accepted
            && (|u.pending| < |s.pending| || (u.pending == s.pending && Stage(u) < Stage(s)))
  {
    if s.pcs[s.thread.value].Running? {
      RunningIsPending(s);
      SmallerWithout(s.pending, s.pcs[s.thread.value].task.key);
    } else {
      HasWork(s);
    }
  }

  lemma RunningIsPending(s: State)
    requires Inv(s) && s.thread.Some? && s.pcs[s.thread.value].Running?
    ensures s.pcs[s.thread.value].task.key in s.pending
  {
    assert Open(s)[0] == s.pcs[s.thread.value].task;
  }

  lemma SmallerWithout(keys: set<string>, k: string)
    requires k in keys
    ensures |keys - {k}| < |keys|
  {
  }

  /** The steps with which the serving thread alone works off everything. */
  ghost function Drain(s: State): (run: seq<Step>)
    requires Drainable(s)
    decreases |s.pending|, Stage(s)
  {
    if s.pending == {} then [] else OwnStepDrains(s); OwnStepShrinks(s); [Own(s)] + Drain(Next(s, Own(s)))
  }

  lemma DrainUnfolds(s: State)
    requires Drainable(s) && s.pending != {}
    ensures Drainable(Next(s, Own(s))) && After(s, Drain(s)) == After(Next(s, Own(s)), Drain(Next(s, Own(s))))
  {
    OwnStepDrains(s);
    OwnStepShrinks(s);
    assert Drain(s)[1..] == Drain(Next(s, Own(s)));
  }

  lemma OwnStepAcceptsNothing(s: State)
    requires s.thread.Some? && s.thread.value < |s.pcs|
    ensures Next(s, Own(s)).accepted == s.accepted && Next(s, Own(s)).closed == s.closed
  {
  }

  ghost predicate Drained(s: State, u: State) {
    Drainable(u) && u.accepted == s.accepted && u.closed == s.closed && u.pending == {}
  }

  lemma {:induction false} DrainReaches(s: State)
    requires Drainable(s)
    ensures Drained(s, After(s, Drain(s)))
    decreases |s.pending|, Stage(s)
  {
    if s.pending != {} {
      DrainUnfolds(s);
      OwnStepShrinks(s);
      OwnStepAcceptsNothing(s);
      DrainReaches(Next(s, Own(s)));
    }
  }

  /** Pending work can always be finished by the serving thread alone. */
  lemma DrainFinishes(s: State)
    requires Drainable(s)
    ensures var u := After(s, Drain(s));
            && u.accepted == s.accepted == u.finished && u.idle && u.pending == {}
            && Drainable(u) && u.closed == s.closed
  {
    DrainReaches(s);
    NoKeysNoTasks(Open(After(s, Drain(s))));
  }

  lemma OnlyStopLeft(s: State)
    requires Drainable(s) && s.closed && s.pending == {}
    ensures s.pcs[s.thread.value].Stopping? || (s.pcs[s.thread.value].Waiting? && s.queue == [Stop])
  {
    NoKeysNoTasks(Open(s));
    if !s.pcs[s.thread.value].Stopping? {
      assert s.queue[0].Work? ==> Works(s.queue) != [];
    }
  }

  /** An idle thread of a closed worker takes the stop item and leaves. */
  lemma LastSteps(u: State) returns (run: seq<Step>)
    requires Drainable(u) && u.closed && u.pending == {}
    ensures var v := After(u, run); v.thread.None? && v.accepted == u.accepted && v.finished == u.finished && v.idle == u.idle
  {
    OnlyStopLeft(u);
    var t := u.thread.value;
    if u.pcs[t].Waiting? {
      AfterAppend(u, [], Get(t));
      AfterAppend(u, [Get(t)], Quit(t));
      assert [] + [Get(t)] == [Get(t)];
      run := [Get(t)] + [Quit(t)];
    } else {
      AfterAppend(u, [], Quit(t));
      run := [] + [Quit(t)];
    }
  }

  lemma {:induction false} AfterSplits(s: State, first: seq<Step>, second: seq<Step>)
    ensures After(s, first + second) == After(After(s, first), second)
    decreases |first|
  {
    if first == [] {
      assert first + second == second;
    } else {
      assert (first + second)[1..] == first[1..] + second;
      AfterSplits(Next(s, first[0]), first[1..], second);
    }
  }

  /** After close the thread can always finish what was accepted and then exit, so that joining it ends. */
  lemma ClosedWorkerExits(s: State) returns (run: seq<Step>)
    requires Drainable(s) && s.closed
    ensures var u := After(s, run); u.thread.None? && u.finished == u.accepted == s.accepted && u.idle
  {
    DrainFinishes(s);
    var last := LastSteps(After(s, Drain(s)));
    AfterSplits(s, Drain(s), last);
    run := Drain(s) + last;
  }

  // --------------------------------------------------------------- the class

  /** The sections of the code between which other threads may run; `pcs` are the threads it started. */
  class EsiWorker {
    var queue: seq<Item>
    var pendingKeys: set<string>
    var idle: bool
    var thread: Option<nat>
    var closed: bool
    var pcs: seq<Pc>
    var hand: Option<Task>
    ghost var accepted: seq<Task>
    ghost var started: seq<Task>
    ghost var finished: seq<Task>

    ghost function Now(): State
      reads this
    {
      State(queue, pendingKeys, idle, thread, closed, pcs, hand, accepted, started, finished)
    }

    constructor ()
      ensures Now() == INIT
    {
      queue, pendingKeys, idle, thread, closed := [], {}, true, None, false;
      pcs, hand, accepted, started, finished := [], None, [], [], [];
    }

    method EnsureThread()
      modifies this`thread, this`pcs
      ensures if old(thread.Some? && Alive(Now(), thread.value)) then thread == old(thread) && pcs == old(pcs)
              else thread == Some(|old(pcs)|) && pcs == old(pcs) + [Waiting]
    {
      if thread.Some? && thread.value < |pcs| && !pcs[thread.value].Gone? {
        return;
      }
      thread := Some(|pcs|);
      pcs := pcs + [Waiting];
    }

    /** submit under the lock, up to starting the thread; None is the error for an empty key. */
    method BeginSubmit(task: Task) returns (queued: Option<bool>)
      requires hand.None?
      modifies this
      ensures Now() == if task.key == "" then old(Now()) else Next(old(Now()), Submit(task))
      ensures queued == if task.key == "" then None else Some(!old(closed) && task.key !in old(pendingKeys))
      // A task was accepted exactly when the caller is told so, and then a live thread serves it.
      ensures queued == Some(true) ==>
                && accepted == old(accepted) + [task] && hand == Some(task) && pendingKeys == old(pendingKeys) + {task.key}
                && !idle && thread.Some? && Alive(Now(), thread.value)
      ensures queued != Some(true) ==> Now() == old(Now())
      ensures queue == old(queue) && closed == old(closed) && started == old(started) && finished == old(finished)
    {
      if task.key == "" {
        return None;
      }
      if closed || task.key in pendingKeys {
        return Some(false);
      }
      pendingKeys := pendingKeys + {task.key};
      idle := false;
      EnsureThread();
      hand, accepted := Some(task), accepted + [task];
      queued := Some(true);
    }

    method EndSubmit()
      requires hand.Some?
      modifies this
      ensures Now() == Next(old(Now()), Put)
      ensures queue == old(queue) + [Work(old(hand).value)] && hand.None?
      ensures pendingKeys == old(pendingKeys) && idle == old(idle) && thread == old(thread) && pcs == old(pcs)
    {
      queue := queue + [Work(hand.value)];
      hand := None;
    }

    method CloseQueue()
      requires hand.None?
      modifies this
      ensures Now() == Next(old(Now()), Close)
      ensures closed && queue == old(queue) + if old(closed) || thread.None? then [] else [Stop]
      ensures pendingKeys == old(pendingKeys) && idle == old(idle) && thread == old(thread) && pcs == old(pcs)
    {
      if !closed {
        closed := true;
        if thread.Some? {
          queue := queue + [Stop];
        }
      }
    }

    /** queue.get with its timeout; the result is the handler's work, if any. */
    method Fetch(me: nat) returns (work: Option<Task>)
      requires At(Now(), me, Waiting)
      modifies this
      ensures Now() == Next(old(Now()), if old(queue) == [] then TimeOut(me) else Get(me))
      ensures work.Some? <==> pcs[me].Running?
      ensures work.Some? ==> pcs[me].task == work.value
      ensures if old(queue) == [] then work.None? && queue == [] && At(Now(), me, TimedOut)
              else queue == old(queue)[1..]
                   && (if old(queue)[0].Stop? then work.None? && At(Now(), me, Stopping)
                       else work == Some(old(queue)[0].task) && started == old(started) + [work.value])
      ensures pendingKeys == old(pendingKeys) && idle == old(idle) && thread == old(thread) && closed == old(closed)
    {
      if queue == [] {
        pcs := pcs[me := TimedOut];
        return None;
      }
      var item := queue[0];
      queue := queue[1..];
      if item.Stop? {
        pcs := pcs[me := Stopping];
        return None;
      }
      pcs := pcs[me := Running(item.task)];
      started := started + [item.task];
      work := Some(item.task);
    }

    method Forget(me: nat)
      requires me < |pcs|
      modifies this`thread, this`pcs
      ensures thread == (if old(thread) == Some(me) then None else old(thread)) && pcs == old(pcs)[me := Gone]
    {
      if thread == Some(me) {
        thread := None;
      }
      pcs := pcs[me := Gone];
    }

    /** The locked section after queue.Empty. */
    method OnTimeout(me: nat)
      requires hand.None? && At(Now(), me, TimedOut)
      modifies this
      ensures Now() == Next(old(Now()), Retire(me))
      // The thread ends when nothing is pending or the worker is closed; pending work of an open worker keeps it.
      ensures if old(closed) || old(pendingKeys) == {} then idle && At(Now(), me, Gone) && thread != Some(me)
              else idle == old(idle) && At(Now(), me, Waiting) && thread == old(thread)
      ensures pendingKeys == old(pendingKeys) && queue == old(queue) && closed == old(closed)
    {
      if closed || pendingKeys == {} {
        Forget(me);
        idle := true;
      } else {
        pcs := pcs[me := Waiting];
      }
    }

    method OnStop(me: nat)
      requires hand.None? && At(Now(), me, Stopping)
      modifies this
      ensures Now() == Next(old(Now()), Quit(me))
      ensures At(Now(), me, Gone) && thread != Some(me) && idle == old(idle) && pendingKeys == old(pendingKeys)
    {
      Forget(me);
    }

    /** The finally block, whether or not the handler raised. */
    method OnDone(me: nat)
      requires hand.None? && me < |pcs| && pcs[me].Running?
      modifies this
      ensures Now() == Next(old(Now()), Finish(me))
      ensures pendingKeys == old(pendingKeys) - {old(pcs[me].task.key)} && finished == old(finished) + [old(pcs[me].task)]
      ensures (pendingKeys == {} ==> idle) && (pendingKeys != {} ==> idle == old(idle)) && At(Now(), me, Waiting)
      ensures queue == old(queue) && thread == old(thread) && closed == old(closed)
    {
      pendingKeys := pendingKeys - {pcs[me].task.key};
      if pendingKeys == {} {
        idle := true;
      }
      finished := finished + [pcs[me].task];
      pcs := pcs[me := Waiting];
    }
  }
}
