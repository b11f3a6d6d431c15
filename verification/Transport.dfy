/** The shared rate limiter and connection pool of ESI requests (app/esi/transport.py). */
module Transport {
  import opened Common

  datatype Idle = Idle(conn: nat, usedAt: real)

  /** A request in progress: with its pool slot, with its permit, or using a connection. */
  datatype Call = Got(entry: Option<Idle>) | Permitted(entry: Option<Idle>) | Using(conn: nat)

  /** A permit, or a pause announced by a 420 or 429. */
  datatype Event = Permit(at: real) | Pause(at: real, retry: RetryAfter)

  /** `made` counts connections ever created, `open` are those not closed; `log` is history. */
  datatype State = State(
    interval: real, size: nat, clock: real, nextRequest: real, blockedUntil: real,
    pool: seq<Option<Idle>>, calls: map<nat, Call>, made: nat, open: set<nat>, log: seq<Event>)

  /** A Retry-After header: absent, seconds, a date some seconds ahead, or unusable. */
  datatype RetryAfter = Absent | Delay(seconds: real) | Unusable

  datatype Step =
    | Advance(d: real)
    | Get(c: nat)
    | Grant(c: nat, deadline: real)
    | Connect(c: nat)
    | Throttle(c: nat, retry: RetryAfter)
    | Return(c: nat, reusable: bool)

  predicate Free(s: State) { MaxReal(s.nextRequest, s.blockedUntil) <= s.clock }

  /** A 420 or 429 pauses everybody for at least five minutes. */
  function PauseLength(retry: RetryAfter): real {
    MaxReal(300.0, if retry.Delay? && retry.seconds >= 0.0 then retry.seconds else 300.0)
  }

  function Holds(call: Call): Option<nat> {
    if call.Using? then Some(call.conn) else if call.entry.Some? then Some(call.entry.value.conn) else None
  }

  function Closed(open: set<nat>, conn: Option<nat>): set<nat> {
    if conn.Some? then open - {conn.value} else open
  }

  /** One atomic step; one that is not enabled changes nothing. */
  function Next(s: State, e: Step): State {
    match e
    case Advance(d) => if d < 0.0 then s else s.(clock := s.clock + d)
    case Get(c) =>
      if c in s.calls || s.pool == [] then s
      else s.(pool := s.pool[..|s.pool| - 1], calls := s.calls[c := Got(s.pool[|s.pool| - 1])])
    case Grant(c, deadline) =>
      if c !in s.calls || !s.calls[c].Got? || s.clock >= deadline || !Free(s) then s
      else s.(nextRequest := s.clock + s.interval, log := s.log + [Permit(s.clock)],
              calls := s.calls[c := Permitted(s.calls[c].entry)])
    case Connect(c) =>
      if c !in s.calls || !s.calls[c].Permitted? then s
      else
        var entry := s.calls[c].entry;
        if entry.Some? && s.clock - entry.value.usedAt < 20.0 then s.(calls := s.calls[c := Using(entry.value.conn)])
        else s.(calls := s.calls[c := Using(s.made)], made := s.made + 1,
                open := Closed(s.open, Holds(s.calls[c])) + {s.made})
    case Throttle(c, retry) =>
      if c !in s.calls || !s.calls[c].Using? then s
      else
        s.(blockedUntil := MaxReal(s.blockedUntil, s.clock + PauseLength(retry)), log := s.log + [Pause(s.clock, retry)])
    case Return(c, reusable) =>
      if c !in s.calls then s
      else if reusable && s.calls[c].Using? then
        s.(calls := s.calls - {c}, pool := s.pool + [Some(Idle(s.calls[c].conn, s.clock))])
      else
        s.(calls := s.calls - {c}, pool := s.pool + [None], open := Closed(s.open, Holds(s.calls[c])))
  }

  function After(s: State, run: seq<Step>): State
    decreases |run|
  {
    if run == [] then s else After(Next(s, run[0]), run[1..])
  }

  function Init(interval: real, size: nat, clock: real): State {
    State(interval, size, clock, 0.0, 0.0, seq(size, i => None), map[], 0, {}, [])
  }

  // ----------------------------------------------------------- rate limiting

  /** Permits are an interval apart, and none falls into a pause announced before it. */
  ghost predicate Spaced(interval: real, log: seq<Event>) {
    forall i, j :: 0 <= i < j < |log| && log[j].Permit? ==>
      log[j].at >= log[i].at + (if log[i].Permit? then interval else PauseLength(log[i].retry))
  }

  ghost predicate Rated(s: State) {
    && Spaced(s.interval, s.log)
    && (forall i :: 0 <= i < |s.log| ==>
          && s.log[i].at <= s.clock
          && (if s.log[i].Permit? then s.log[i].at + s.interval <= s.nextRequest
              else s.log[i].at + PauseLength(s.log[i].retry) <= s.blockedUntil))
  }

  lemma StepKeepsRate(s: State, e: Step)
    requires Rated(s) && s.interval > 0.0
    ensures Rated(Next(s, e)) && Next(s, e).interval == s.interval && s.log <= Next(s, e).log
  {
    var u := Next(s, e);
    assert u.log == s.log || (|u.log| == |s.log| + 1 && u.log[..|s.log|] == s.log);
    assert forall i :: 0 <= i < |s.log| ==> u.log[i] == s.log[i];
  }

  /** The times of the permits of a log that fall into a window. */
  function Times(log: seq<Event>, lo: real, hi: real): seq<real> {
    if log == [] then []
    else
      var last := log[|log| - 1];
      Times(log[..|log| - 1], lo, hi) + if last.Permit? && lo <= last.at <= hi then [last.at] else []
  }

  function Total(k: nat, interval: real): real { if k == 0 then 0.0 else Total(k - 1, interval) + interval }

  lemma Distribute(x: real, y: real)
    ensures (x + 1.0) * y == x * y + y
  {
  }

  lemma {:induction false} TotalIsProduct(k: nat, interval: real)
    ensures Total(k, interval) == k as real * interval
  {
    if k > 0 {
      TotalIsProduct(k - 1, interval);
      Distribute((k - 1) as real, interval);
      assert k as real == (k - 1) as real + 1.0;
    }
  }

  lemma {:induction false} WindowSpread(interval: real, log: seq<Event>, lo: real, hi: real)
    requires interval > 0.0 && Spaced(interval, log)
    ensures var ts := Times(log, lo, hi);
            ts != [] ==> lo + Total(|ts| - 1, interval) <= ts[|ts| - 1] <= hi && Permit(ts[|ts| - 1]) in log
  {
    if log != [] {
      var init, last := log[..|log| - 1], log[|log| - 1];
      WindowSpread(interval, init, lo, hi);
      var ts := Times(init, lo, hi);
      if ts != [] && last.Permit? {
        LaterPermit(interval, log, ts[|ts| - 1]);
      }
    }
  }

  lemma LaterPermit(interval: real, log: seq<Event>, t: real)
    requires Spaced(interval, log) && log != [] && log[|log| - 1].Permit?
    requires Permit(t) in log[..|log| - 1]
    ensures log[|log| - 1].at >= t + interval
  {
    var i :| 0 <= i < |log| - 1 && log[i] == Permit(t);
  }

  // ------------------------------------------------------------- connections

  /** Every slot is free or taken, and every open connection sits in exactly one of them. */
  ghost predicate Pooled(s: State) {
    && |s.pool| + |s.calls| == s.size
    && (forall i, j :: 0 <= i < j < |s.pool| && s.pool[i].Some? && s.pool[j].Some? ==> s.pool[i].value.conn != s.pool[j].value.conn)
    && (forall i, c :: 0 <= i < |s.pool| && s.pool[i].Some? && c in s.calls ==> Holds(s.calls[c]) != Some(s.pool[i].value.conn))
    && (forall c, d :: c in s.calls && d in s.calls && c != d ==> Holds(s.calls[c]).None? || Holds(s.calls[c]) != Holds(s.calls[d]))
  }

  /** The open connections are those in the slots. */
  ghost predicate NoLeak(s: State) {
    && (forall i :: 0 <= i < |s.pool| && s.pool[i].Some? ==> s.pool[i].value.conn in s.open)
    && (forall c :: c in s.calls && Holds(s.calls[c]).Some? ==> Holds(s.calls[c]).value in s.open)
    && (forall n :: n in s.open ==> n < s.made && (InPool(s, n) || InCalls(s, n)))
  }

  ghost predicate InPool(s: State, n: nat) { exists i :: 0 <= i < |s.pool| && s.pool[i].Some? && s.pool[i].value.conn == n }

  ghost predicate InCalls(s: State, n: nat) { exists c :: c in s.calls && Holds(s.calls[c]) == Some(n) }

  lemma GetKeepsPool(s: State, c: nat)
    requires Pooled(s) && NoLeak(s)
    ensures var u := Next(s, Get(c)); Pooled(u) && NoLeak(u)
  {
    var u := Next(s, Get(c));
    if u != s {
      var last := |s.pool| - 1;
      forall n | n in u.open ensures InPool(u, n) || InCalls(u, n) {
        if InPool(s, n) {
          var i :| 0 <= i < |s.pool| && s.pool[i].Some? && s.pool[i].value.conn == n;
          if i < last {
            assert u.pool[i] == s.pool[i];
          } else {
            assert Holds(u.calls[c]) == Some(n);
          }
        } else {
          var d :| d in s.calls && Holds(s.calls[d]) == Some(n);
          assert Holds(u.calls[d]) == Some(n);
        }
      }
    }
  }

  /** A step that moves no connection. */
  lemma SameSlots(s: State, u: State)
    requires Pooled(s) && NoLeak(s)
    requires u.pool == s.pool && u.size == s.size && u.open == s.open && u.made == s.made && u.calls.Keys == s.calls.Keys
    requires forall c :: c in s.calls ==> Holds(u.calls[c]) == Holds(s.calls[c])
    ensures Pooled(u) && NoLeak(u)
  {
    assert |u.calls| == |u.calls.Keys| && |s.calls| == |s.calls.Keys|;
    forall n | n in u.open ensures InPool(u, n) || InCalls(u, n) {
      assert InPool(s, n) ==> InPool(u, n);
      if InCalls(s, n) {
        var d :| d in s.calls && Holds(s.calls[d]) == Some(n);
        assert Holds(u.calls[d]) == Some(n);
      }
    }
  }

  /** Call c drops what it held and takes a connection nobody has. */
  lemma FreshConnectionPooled(s: State, u: State, c: nat)
    requires Pooled(s) && NoLeak(s) && c in s.calls
    requires u.pool == s.pool && u.size == s.size && u.calls == s.calls[c := Using(s.made)]
    ensures Pooled(u)
  {
    assert u.calls.Keys == s.calls.Keys;
    assert |u.calls| == |u.calls.Keys| && |s.calls| == |s.calls.Keys|;
    assert s.made !in s.open;
    assert forall d :: d in s.calls && d != c ==> u.calls[d] == s.calls[d];
  }

  lemma FreshConnectionKept(s: State, u: State, c: nat)
    requires Pooled(s) && NoLeak(s) && c in s.calls
    requires u.pool == s.pool && u.calls == s.calls[c := Using(s.made)] && u.made == s.made + 1
    requires u.open == Closed(s.open, Holds(s.calls[c])) + {s.made}
    ensures NoLeak(u)
  {
    assert forall d :: d in s.calls && d != c ==> u.calls[d] == s.calls[d];
    forall n | n in u.open ensures n < u.made && (InPool(u, n) || InCalls(u, n)) {
      if n == s.made {
        assert Holds(u.calls[c]) == Some(n);
      } else if InPool(s, n) {
        assert InPool(u, n);
      } else {
        var d :| d in s.calls && Holds(s.calls[d]) == Some(n);
        assert d != c && Holds(u.calls[d]) == Some(n);
      }
    }
  }

  lemma ConnectKeepsPool(s: State, c: nat)
    requires Pooled(s) && NoLeak(s)
    ensures var u := Next(s, Connect(c)); Pooled(u) && NoLeak(u)
  {
    var u := Next(s, Connect(c));
    if u.made != s.made {
      FreshConnectionPooled(s, u, c);
      FreshConnectionKept(s, u, c);
    } else if c in s.calls {
      SameSlots(s, u);
    }
  }

  /** Call c gives back its slot, with its own connection or empty. */
  lemma ReturnPooled(s: State, u: State, c: nat, slot: Option<Idle>)
    requires Pooled(s) && c in s.calls && u.size == s.size
    requires u.calls == s.calls - {c} && u.pool == s.pool + [slot]
    requires slot.Some? ==> Holds(s.calls[c]) == Some(slot.value.conn)
    ensures Pooled(u)
  {
    assert u.calls.Keys == s.calls.Keys - {c};
    assert |u.calls| == |u.calls.Keys| && |s.calls| == |s.calls.Keys|;
    assert forall i :: 0 <= i < |s.pool| ==> u.pool[i] == s.pool[i];
    assert forall d :: d in u.calls ==> d in s.calls && d != c && u.calls[d] == s.calls[d];
  }

  lemma ReturnKept(s: State, u: State, c: nat, slot: Option<Idle>)
    requires Pooled(s) && NoLeak(s) && c in s.calls && u.made == s.made
    requires u.calls == s.calls - {c} && u.pool == s.pool + [slot]
    requires if slot.Some? then Holds(s.calls[c]) == Some(slot.value.conn) && u.open == s.open
             else u.open == Closed(s.open, Holds(s.calls[c]))
    ensures NoLeak(u)
  {
    assert forall i :: 0 <= i < |s.pool| ==> u.pool[i] == s.pool[i];
    assert u.pool[|s.pool|] == slot;
    forall n | n in u.open ensures InPool(u, n) || InCalls(u, n) {
      if InPool(s, n) {
        var i :| 0 <= i < |s.pool| && s.pool[i].Some? && s.pool[i].value.conn == n;
        assert u.pool[i] == s.pool[i];
      } else {
        var d :| d in s.calls && Holds(s.calls[d]) == Some(n);
        assert d != c ==> Holds(u.calls[d]) == Some(n);
      }
    }
  }

  lemma StepKeepsPool(s: State, e: Step)
    requires Pooled(s) && NoLeak(s)
    ensures var u := Next(s, e); Pooled(u) && NoLeak(u) && u.size == s.size
  {
    var u := Next(s, e);
    match e
    case Advance(_) => SameSlots(s, u);
    case Get(c) => GetKeepsPool(s, c);
    case Grant(_, _) => SameSlots(s, u);
    case Connect(c) => ConnectKeepsPool(s, c);
    case Throttle(_, _) => SameSlots(s, u);
    case Return(c, reusable) => ReturnKeepsPool(s, c, reusable);
  }

  lemma ReturnKeepsPool(s: State, c: nat, reusable: bool)
    requires Pooled(s) && NoLeak(s)
    ensures var u := Next(s, Return(c, reusable)); Pooled(u) && NoLeak(u)
  {
    var u := Next(s, Return(c, reusable));
    if c in s.calls {
      ReturnPooled(s, u, c, u.pool[|s.pool|]);
      ReturnKept(s, u, c, u.pool[|s.pool|]);
    }
  }

  // ------------------------------------------------------------------- runs

  ghost predicate Inv(s: State) { s.interval > 0.0 && Rated(s) && Pooled(s) && NoLeak(s) }

  lemma {:induction false} RunsFrom(s: State, run: seq<Step>)
    requires Inv(s)
    ensures var u := After(s, run); Inv(u) && u.interval == s.interval && u.size == s.size && s.log <= u.log
    decreases |run|
  {
    if run != [] {
      StepKeepsRate(s, run[0]);
      StepKeepsPool(s, run[0]);
      RunsFrom(Next(s, run[0]), run[1..]);
    }
  }

  lemma InitInv(interval: real, size: nat, clock: real)
    requires interval > 0.0
    ensures Inv(Init(interval, size, clock))
  {
  }

  /** Any number of concurrent callers, in any interleaving of their steps. */
  lemma EveryRun(interval: real, size: nat, clock: real, run: seq<Step>)
    requires interval > 0.0
    ensures var s := After(Init(interval, size, clock), run); Inv(s) && s.interval == interval && s.size == size
  {
    InitInv(interval, size, clock);
    RunsFrom(Init(interval, size, clock), run);
  }

  /** Any k + 1 permits in a window of length T have k * interval <= T. */
  lemma RateIsBounded(interval: real, size: nat, clock: real, run: seq<Step>, lo: real, hi: real, k: nat)
    requires interval > 0.0
    requires |Times(After(Init(interval, size, clock), run).log, lo, hi)| == k + 1
    ensures k as real * interval <= hi - lo
  {
    EveryRun(interval, size, clock, run);
    WindowSpread(interval, After(Init(interval, size, clock), run).log, lo, hi);
    TotalIsProduct(k, interval);
  }

  /** No permit comes within five minutes of a 420 or 429, nor before the delay that it asked for. */
  lemma PausesHold(interval: real, size: nat, clock: real, run: seq<Step>, i: nat, j: nat)
    requires interval > 0.0
    requires var log := After(Init(interval, size, clock), run).log; i < j < |log| && log[i].Pause? && log[j].Permit?
    ensures var log := After(Init(interval, size, clock), run).log;
            && log[i].at + 300.0 <= log[j].at
            && (log[i].retry.Delay? ==> log[i].at + log[i].retry.seconds <= log[j].at)
  {
    EveryRun(interval, size, clock, run);
  }

  lemma {:induction false} AfterSplits(s: State, first: seq<Step>, second: seq<Step>)
    ensures After(s, first + second) == After(After(s, first), second)
    decreases |first|
  {
    if first == [] {
      assert first + second == second;
    } else {
      assert (first + second)[1..] == first[1..] + second;
      AfterSplits(Next(s, first[0]), first[1..], second);
    }
  }

  predicate Of(e: Step, me: nat) { !e.Advance? && e.c == me }

  /** The steps of one call within a run. */
  function Mine(run: seq<Step>, me: nat): seq<Step> {
    if run == [] then []
    else Mine(run[..|run| - 1], me) + if Of(run[|run| - 1], me) then [run[|run| - 1]] else []
  }

  lemma ThenOne(s: State, run: seq<Step>, e: Step, me: nat)
    ensures After(s, run + [e]) == Next(After(s, run), e)
    ensures Mine(run + [e], me) == Mine(run, me) + if Of(e, me) then [e] else []
  {
    AfterSplits(s, run, [e]);
    assert After(Next(After(s, run), e), []) == Next(After(s, run), e);
    assert [e][1..] == [];
    assert (run + [e])[..|run|] == run;
  }

  ghost predicate SameCall(s: State, u: State, me: nat) {
    (me in u.calls <==> me in s.calls) && (me in s.calls ==> u.calls[me] == s.calls[me])
  }

  lemma OtherStep(s: State, e: Step, me: nat)
    requires !Of(e, me)
    ensures SameCall(s, Next(s, e), me)
  {
  }

  /** Steps of other calls leave this one where it is. */
  lemma {:induction false} ThenOthers(s: State, run: seq<Step>, more: seq<Step>, me: nat)
    requires Mine(more, me) == []
    ensures After(s, run + more) == After(After(s, run), more)
    ensures Mine(run + more, me) == Mine(run, me)
    ensures SameCall(After(s, run), After(s, run + more), me)
    decreases |more|
  {
    AfterSplits(s, run, more);
    if more == [] {
      assert run + more == run;
    } else {
      var init, last := more[..|more| - 1], more[|more| - 1];
      ThenOthers(s, run, init, me);
      assert run + more == (run + init) + [last];
      ThenOne(s, run + init, last, me);
      OtherStep(After(s, run + init), last, me);
    }
  }

  lemma {:induction false} Joined(s: State, run: seq<Step>, more: seq<Step>, me: nat)
    ensures After(s, run + more) == After(After(s, run), more)
    ensures Mine(run + more, me) == Mine(run, me) + Mine(more, me)
    decreases |more|
  {
    AfterSplits(s, run, more);
    if more == [] {
      assert run + more == run;
    } else {
      var init, last := more[..|more| - 1], more[|more| - 1];
      Joined(s, run, init, me);
      assert (run + more)[..|run + more| - 1] == run + init;
    }
  }

  // --------------------------------------------------- waiting comes to an end

  /** Time only passes; a permit pushes the next one out by an interval, a new pause reaches five minutes ahead. */
  ghost predicate Later(s: State, u: State) {
    && u.interval == s.interval && s.clock <= u.clock
    && (u.nextRequest == s.nextRequest || s.nextRequest + s.interval <= u.nextRequest)
    && (u.blockedUntil == s.blockedUntil || s.clock + 300.0 <= u.blockedUntil)
    && s.nextRequest <= u.nextRequest && s.blockedUntil <= u.blockedUntil
  }

  lemma {:induction false} RunsGoOn(s: State, run: seq<Step>)
    requires s.interval > 0.0
    ensures Later(s, After(s, run))
    decreases |run|
  {
    if run != [] {
      var u := Next(s, run[0]);
      assert Later(s, u);
      RunsGoOn(u, run[1..]);
    }
  }

  function Units(x: real): nat { if x <= 0.0 then 0 else x.Floor }

  /** How often a caller with this deadline can still wake up in vain, at most. */
  function Budget(s: State, deadline: real): nat
    requires s.interval > 0.0
  {
    Units(20.0 * (deadline - s.clock))
    + Units((deadline + s.interval - s.nextRequest) / s.interval)
    + if s.blockedUntil - s.clock > 0.1 then 0 else 1
  }

  lemma LessByOne(x: real, y: real, i: real)
    requires i > 0.0 && y >= x + i
    ensures (x / i) + 1.0 <= y / i
  {
    Cancel(x, i);
    Cancel(y, i);
    ByProducts(x / i, y / i, x, y, i);
  }

  lemma Cancel(x: real, i: real)
    requires i > 0.0
    ensures (x / i) * i == x
  {
  }

  lemma ByProducts(a: real, b: real, x: real, y: real, i: real)
    requires i > 0.0 && a * i == x && b * i == y && y >= x + i
    ensures a + 1.0 <= b
  {
    if b < a + 1.0 {
      Larger(b, a + 1.0, i);
      Distribute(a, i);
    }
  }

  lemma Larger(a: real, b: real, i: real)
    requires a < b && i > 0.0
    ensures a * i < b * i
  {
  }

  lemma NotMore(x: real, y: real, i: real)
    requires i > 0.0 && y >= x
    ensures x / i <= y / i
  {
  }

  lemma UnitsDrop(x: real, y: real, n: nat)
    requires y >= x + n as real && y >= n as real
    ensures Units(x) + n <= Units(y)
  {
  }

  lemma UnitsMonotone(x: real, y: real)
    requires x <= y
    ensures Units(x) <= Units(y)
  {
  }

  /** A sleep of min(wait, 0.1) spends budget, or the permit is free when it ends. */
  lemma SleepSpends(s: State, u: State, deadline: real)
    requires s.interval > 0.0 && Later(s, u) && !Free(s)
    requires var wait := MaxReal(s.nextRequest, s.blockedUntil) - s.clock;
             s.clock + wait < deadline && s.clock + MinReal(wait, 0.1) <= u.clock < deadline
    ensures Budget(u, deadline) < Budget(s, deadline) || (Budget(u, deadline) <= Budget(s, deadline) && Free(u))
  {
    var i := s.interval;
    var wait := MaxReal(s.nextRequest, s.blockedUntil) - s.clock;
    NotMore(deadline + i - u.nextRequest, deadline + i - s.nextRequest, i);
    UnitsMonotone((deadline + i - u.nextRequest) / i, (deadline + i - s.nextRequest) / i);
    UnitsMonotone(20.0 * (deadline - u.clock), 20.0 * (deadline - s.clock));
    if u.clock >= s.clock + 0.1 {
      UnitsDrop(20.0 * (deadline - u.clock), 20.0 * (deadline - s.clock), 2);
    } else if u.nextRequest != s.nextRequest {
      LessByOne(deadline + i - u.nextRequest, deadline + i - s.nextRequest, i);
      LessByOne(0.0, deadline + i - s.nextRequest, i);
      UnitsDrop((deadline + i - u.nextRequest) / i, (deadline + i - s.nextRequest) / i, 1);
    }
  }

  // --------------------------------------------------------------- the class

  /** How one request went once it was sent. */
  datatype Response = Broken | Answer(status: int, retry: RetryAfter, complete: bool, willClose: bool)

  datatype Outcome = Unavailable | Failed | HttpError(status: int) | Success

  function OutcomeOf(response: Response): Outcome {
    if response.Broken? || !response.complete then Failed
    else if response.status >= 300 then HttpError(response.status) else Success
  }

  /** What a call does after sending its request: announce a pause when told so, give the slot back. */
  function Aftermath(me: nat, response: Response): seq<Step> {
    Announced(me, response) + [Return(me, response.Answer? && response.complete && !response.willClose)]
  }

  function Announced(me: nat, response: Response): seq<Step> {
    if response.Answer? && response.status in {420, 429} then [Throttle(me, response.retry)] else []
  }

  class EsiConnections {
    const interval: real
    const size: nat
    var clock: real
    var nextRequest: real
    var blockedUntil: real
    var pool: seq<Option<Idle>>
    var calls: map<nat, Call>
    var made: nat
    ghost var open: set<nat>
    ghost var log: seq<Event>

    ghost function Now(): State
      reads this
    {
      State(interval, size, clock, nextRequest, blockedUntil, pool, calls, made, open, log)
    }

    constructor (interval: real, size: nat, clock: real)
      ensures Now() == Init(interval, size, clock)
    {
      this.interval, this.size, this.clock := interval, size, clock;
      nextRequest, blockedUntil, calls, made, open, log := 0.0, 0.0, map[], 0, {}, [];
      pool := seq(size, i => None);
    }

    method Pass(d: real)
      modifies this`clock
      ensures Now() == Next(old(Now()), Advance(d))
    {
      if d >= 0.0 {
        clock := clock + d;
      }
    }

    /** pool.get: the most recently returned slot first. */
    method TakeSlot(c: nat) returns (taken: bool)
      requires c !in calls
      modifies this
      ensures Now() == Next(old(Now()), Get(c)) && taken == (old(pool) != [])
      ensures if taken then pool + [old(pool)[|old(pool)| - 1]] == old(pool) && calls == old(calls)[c := Got(old(pool)[|old(pool)| - 1])]
              else pool == old(pool) && calls == old(calls)
    {
      taken := pool != [];
      if taken {
        calls := calls[c := Got(pool[|pool| - 1])];
        pool := pool[..|pool| - 1];
      }
    }

    /** The locked section of _permit: a permit, or the time to wait; None when out of time. */
    method TryPermit(c: nat, deadline: real) returns (granted: bool, wait: Option<real>)
      requires c in calls && calls[c].Got?
      modifies this
      ensures Now() == (if granted then Next(old(Now()), Grant(c, deadline)) else old(Now()))
      ensures granted <==> old(clock) < deadline && old(Free(Now()))
      ensures granted <==> clock < deadline && old(nextRequest) <= clock && blockedUntil <= clock
      ensures granted ==> nextRequest == clock + interval && log == old(log) + [Permit(clock)]
      ensures granted ==> calls == old(calls)[c := Permitted(old(calls[c].entry))]
      ensures clock == old(clock) && blockedUntil == old(blockedUntil) && pool == old(pool)
      ensures wait == (if old(clock) >= deadline then None else Some(MaxReal(old(nextRequest), old(blockedUntil)) - clock))
    {
      if clock >= deadline {
        return false, None;
      }
      var w := MaxReal(nextRequest, blockedUntil) - clock;
      if w <= 0.0 {
        nextRequest := clock + interval;
        log := log + [Permit(clock)];
        calls := calls[c := Permitted(calls[c].entry)];
        return true, Some(w);
      }
      granted, wait := false, Some(w);
    }

    /** A pooled connection idle for 20 seconds is closed and replaced. */
    method OpenConnection(c: nat)
      requires c in calls && calls[c].Permitted?
      modifies this
      ensures Now() == Next(old(Now()), Connect(c))
      ensures var entry := old(calls[c].entry);
              if entry.Some? && clock < entry.value.usedAt + 20.0
              then calls == old(calls)[c := Using(entry.value.conn)] && open == old(open) && made == old(made)
              else
                && calls == old(calls)[c := Using(old(made))] && made == old(made) + 1 && old(made) in open
                && (entry.Some? && entry.value.conn != old(made) ==> entry.value.conn !in open)
                && (forall x :: x != old(made) && !(entry.Some? && x == entry.value.conn) ==> (x in open <==> x in old(open)))
      ensures clock == old(clock) && pool == old(pool)
    {
      var entry := calls[c].entry;
      if entry.Some? && clock - entry.value.usedAt < 20.0 {
        calls := calls[c := Using(entry.value.conn)];
        return;
      }
      if entry.Some? {
        open := open - {entry.value.conn};
      }
      open := open + {made};
      calls := calls[c := Using(made)];
      made := made + 1;
    }

    method PauseAll(c: nat, retry: RetryAfter)
      requires c in calls && calls[c].Using?
      modifies this`blockedUntil, this`log
      ensures Now() == Next(old(Now()), Throttle(c, retry))
      // Five minutes at least, longer when the header says so, and never shorter than an earlier pause.
      ensures old(blockedUntil) <= blockedUntil && clock + 300.0 <= blockedUntil
      ensures retry.Delay? ==> clock + retry.seconds <= blockedUntil
      ensures || blockedUntil == old(blockedUntil) || blockedUntil == clock + 300.0
              || (retry.Delay? && blockedUntil == clock + retry.seconds)
      ensures log == old(log) + [Pause(clock, retry)]
    {
      var delay := if retry.Delay? then retry.seconds else 300.0;
      if delay < 0.0 {
        delay := 300.0;
      }
      var until := clock + MaxReal(300.0, delay);
      blockedUntil := MaxReal(blockedUntil, until);
      log := log + [Pause(clock, retry)];
    }

    /** The finally block: an unusable connection is closed, the slot always goes back. */
    method PutSlot(c: nat, reusable: bool)
      requires c in calls && (reusable ==> calls[c].Using?)
      modifies this
      ensures Now() == Next(old(Now()), Return(c, reusable))
      ensures c !in calls && forall x :: x in calls <==> x in old(calls) && x != c
      ensures |pool| == |old(pool)| + 1 && pool[..|old(pool)|] == old(pool)
      ensures if reusable then pool[|old(pool)|] == Some(Idle(old(calls[c].conn), clock)) && open == old(open)
              else pool[|old(pool)|].None? && forall x :: x in open <==> x in old(open) && Some(x) != old(Holds(calls[c]))
    {
      var conn := Holds(calls[c]);
      if conn.Some? && !reusable {
        open := open - {conn.value};
        conn := None;
      }
      pool := pool + [if conn.Some? then Some(Idle(conn.value, clock)) else None];
      calls := calls - {c};
    }

    /** Time passes and other callers take any of their steps. */
    method Meanwhile(me: nat) returns (ghost run: seq<Step>)
      modifies this
      ensures Mine(run, me) == [] && Now() == After(old(Now()), run)
    {
      run := [];
      var n: nat := *;
      while n > 0
        invariant Mine(run, me) == [] && Now() == After(old(Now()), run)
      {
        var e: Step := *;
        if !Of(e, me) {
          ThenOne(old(Now()), run, e, me);
          TakeStep(e);
          run := run + [e];
        }
        n := n - 1;
      }
    }

    method TakeStep(e: Step)
      modifies this
      ensures Now() == Next(old(Now()), e)
    {
      match e
      case Advance(d) => Pass(d);
      case Get(c) =>
        if c !in calls {
          var taken := TakeSlot(c);
        }
      case Grant(c, deadline) =>
        if c in calls && calls[c].Got? {
          var granted, wait := TryPermit(c, deadline);
        }
      case Connect(c) =>
        if c in calls && calls[c].Permitted? {
          OpenConnection(c);
        }
      case Throttle(c, retry) =>
        if c in calls && calls[c].Using? {
          PauseAll(c, retry);
        }
      case Return(c, reusable) =>
        if c in calls {
          PutSlot(c, reusable && calls[c].Using?);
        }
    }

    /** time.sleep: others act, and at least that much time passes. */
    method Sleep(me: nat, d: real) returns (ghost run: seq<Step>)
      modifies this
      ensures Mine(run, me) == [] && Now() == After(old(Now()), run) && old(clock) + d <= clock
      ensures interval > 0.0 ==> Later(old(Now()), Now())
    {
      ghost var s := Now();
      var start := clock;
      run := Meanwhile(me);
      if clock < start + d {
        ThenOne(s, run, Advance(start + d - clock), me);
        run := run + [Advance(start + d - clock)];
        Pass(start + d - clock);
      }
      if interval > 0.0 {
        RunsGoOn(s, run);
      }
    }

    /** Nothing can be granted before the deadline any more. */
    predicate Hopeless(deadline: real)
      reads this`clock, this`nextRequest, this`blockedUntil
    {
      clock >= deadline || MaxReal(nextRequest, blockedUntil) >= deadline
    }

    /**
      _permit: retry until granted, or until nothing can be granted in time. It always ends, whatever the other
      callers do: every vain wake-up costs a twentieth of a second, another caller's permit, or a new pause.
     */
    method AwaitPermit(me: nat, deadline: real) returns (granted: bool, ghost run: seq<Step>)
      requires interval > 0.0 && me in calls && calls[me].Got?
      modifies this
      ensures Now() == After(old(Now()), run) && me in calls
      ensures if granted then calls[me].Permitted? else calls[me] == old(calls[me]) && Hopeless(deadline)
      ensures Mine(run, me) == if granted then [Grant(me, deadline)] else []
    {
      run := [];
      ghost var s := Now();
      while true
        invariant Now() == After(s, run) && me in calls && calls[me] == s.calls[me] && Mine(run, me) == []
        decreases clock < deadline, Budget(Now(), deadline), !Free(Now())
      {
        ghost var before := Now();
        var wait: Option<real>;
        ThenOne(s, run, Grant(me, deadline), me);
        granted, wait := TryPermit(me, deadline);
        if granted {
          run := run + [Grant(me, deadline)];
          return;
        }
        if wait.None? || clock + wait.value >= deadline {
          return;
        }
        ghost var others := Sleep(me, MinReal(wait.value, 0.1));
        if clock < deadline {
          SleepSpends(before, Now(), deadline);
        }
        ThenOthers(s, run, others, me);
        run := run + others;
      }
    }

    /** pool.get with a timeout: no slot only when the time is over and none is free. */
    method AwaitSlot(me: nat, limit: real) returns (taken: bool, ghost run: seq<Step>)
      requires me !in calls
      modifies this
      ensures Now() == After(old(Now()), run)
      ensures if taken then me in calls && calls[me].Got? else me !in calls && limit <= clock
      ensures Mine(run, me) == if taken then [Get(me)] else []
    {
      ghost var s := Now();
      run := Meanwhile(me);
      ThenOthers(s, [], run, me);
      assert [] + run == run;
      if pool == [] && clock < limit {
        ghost var others := Sleep(me, limit - clock);
        ThenOthers(s, run, others, me);
        run := run + others;
      }
      ThenOne(s, run, Get(me), me);
      taken := TakeSlot(me);
      if taken {
        run := run + [Get(me)];
      }
    }

    /**
      A whole call among others. Whatever happens the slot goes back; a request is sent only with a slot and
      then a permit, and its reply is answered for exactly once. It gives up unsent only when it is out of time
      or no permit can come in time.
     */
    method Request(me: nat, allowed: bool, timeout: real, response: Response)
      returns (r: Outcome, ghost run: seq<Step>)
      requires interval > 0.0 && me !in calls
      modifies this
      ensures Now() == After(old(Now()), run) && me !in calls
      ensures r.Unavailable? && allowed ==> Hopeless(old(clock) + timeout)
      ensures !allowed ==> r.Unavailable? && run == []
      // What the caller gets of a request that was sent: a complete reply below 300, its status otherwise.
      ensures r.Success? ==> response.Answer? && response.complete && response.status < 300
      ensures r.HttpError? ==> response.Answer? && response.complete && response.status == r.status >= 300
      ensures r.Failed? ==> response.Broken? || !response.complete
      ensures if r.Unavailable? then Mine(run, me) == [] || Mine(run, me) == [Get(me), Return(me, false)]
              else r == OutcomeOf(response)
                   && Mine(run, me) == [Get(me), Grant(me, old(clock) + timeout), Connect(me)] + Aftermath(me, response)
    {
      ghost var s := Now();
      run := [];
      if !allowed {
        return Unavailable, run;
      }
      var deadline := clock + timeout;
      var taken;
      taken, run := AwaitSlot(me, clock + MaxReal(0.001, timeout));
      if !taken {
        return Unavailable, run;
      }
      r, run := WithSlot(s, me, deadline, response, run);
    }

    method WithSlot(ghost s: State, me: nat, deadline: real, response: Response, ghost before: seq<Step>)
      returns (r: Outcome, ghost run: seq<Step>)
      requires interval > 0.0 && Now() == After(s, before) && me in calls && calls[me].Got?
      modifies this
      ensures Now() == After(s, run) && me !in calls
      ensures r.Unavailable? ==> Hopeless(deadline)
      ensures if r.Unavailable? then Mine(run, me) == Mine(before, me) + [Return(me, false)]
              else r == OutcomeOf(response)
                   && Mine(run, me) == Mine(before, me) + [Grant(me, deadline), Connect(me)] + Aftermath(me, response)
    {
      var granted;
      granted, run := GrantedRun(s, me, deadline, before);
      if !granted {
        ThenOne(s, run, Return(me, false), me);
        PutSlot(me, false);
        run := run + [Return(me, false)];
        return Unavailable, run;
      }
      run := Exchange(s, me, response, run);
      r := OutcomeOf(response);
    }

    method GrantedRun(ghost s: State, me: nat, deadline: real, ghost before: seq<Step>)
      returns (granted: bool, ghost run: seq<Step>)
      requires interval > 0.0 && Now() == After(s, before) && me in calls && calls[me].Got?
      modifies this
      ensures Now() == After(s, run) && me in calls && (if granted then calls[me].Permitted? else Hopeless(deadline))
      ensures Mine(run, me) == Mine(before, me) + if granted then [Grant(me, deadline)] else []
    {
      ghost var more;
      granted, more := AwaitPermit(me, deadline);
      Joined(s, before, more, me);
      run := before + more;
    }

    /** Connecting, sending, and the head of the reply. */
    method Send(ghost s: State, me: nat, response: Response, ghost before: seq<Step>) returns (ghost run: seq<Step>)
      requires Now() == After(s, before) && me in calls && calls[me].Permitted?
      modifies this
      ensures Now() == After(s, run) && me in calls && calls[me].Using?
      ensures Mine(run, me) == Mine(before, me) + [Connect(me)] + Announced(me, response)
    {
      run := before;
      ThenOne(s, run, Connect(me), me);
      OpenConnection(me);
      run := run + [Connect(me)];
      ghost var others := Meanwhile(me);
      ThenOthers(s, run, others, me);
      run := run + others;
      if response.Answer? && response.status in {420, 429} {
        ThenOne(s, run, Throttle(me, response.retry), me);
        PauseAll(me, response.retry);
        run := run + [Throttle(me, response.retry)];
      }
    }

    /** Connecting, sending, reading the reply, and the finally block. */
    method Exchange(ghost s: State, me: nat, response: Response, ghost before: seq<Step>) returns (ghost run: seq<Step>)
      requires Now() == After(s, before) && me in calls && calls[me].Permitted?
      modifies this
      ensures Now() == After(s, run) && me !in calls
      ensures Mine(run, me) == Mine(before, me) + [Connect(me)] + Aftermath(me, response)
    {
      run := Send(s, me, response, before);
      ghost var others := Meanwhile(me);
      ThenOthers(s, run, others, me);
      run := run + others;
      var reusable := response.Answer? && response.complete && !response.willClose;
      ThenOne(s, run, Return(me, reusable), me);
      PutSlot(me, reusable);
      run := run + [Return(me, reusable)];
    }
  }
}
