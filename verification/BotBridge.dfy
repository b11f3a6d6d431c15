/**
  The embedded bot's consumer (EmbeddedBotBridge in app/server/qq_bot_runtime.py). Every await may fail,
  time passes and events are committed at will: nondeterministic choice stands for all of that, so the
  contracts hold for every run.
 */
module BotBridge {
  import opened Common
  import opened SystemState

  const PAGE_SIZE := 100

  datatype Outcome = Fine | Expired | Failed

  /** A built snapshot; `upto` is the committed prefix of the log whose state it shows. */
  datatype Snapshot = Snapshot(ready: bool, upto: nat, recent: bool)

  /** What one pass finds: the ready marker, a rate limit noticed since, and how the snapshot in flight is doing. */
  datatype World = World(marker: bool, limited: bool, poll: Poll)

  datatype Poll = Running | Raised | Built(ready: bool, recent: bool)

  /** What a delivered snapshot was compared with. */
  datatype Delivery = Delivery(state: nat, cursor: nat, initialized: bool, reconcile: bool, started: real, notBefore: real)

  ghost predicate InOrder(log: seq<Event>) {
    && (forall i, j :: 0 <= i < j < |log| ==> log[i].seqno < log[j].seqno)
    && (forall i :: 0 <= i < |log| ==> log[i].seqno > 0)
  }

  /** The highest sequence number of a committed prefix. */
  function Watermark(log: seq<Event>, n: nat): nat
    requires n <= |log|
  {
    if n == 0 then 0 else log[n - 1].seqno
  }

  /** How many events the cursor has passed. */
  function Passed(log: seq<Event>, cursor: nat, from: nat): (n: nat)
    requires from <= |log|
    ensures from <= n <= |log|
    ensures forall i :: from <= i < n ==> log[i].seqno <= cursor
    ensures n < |log| ==> log[n].seqno > cursor
    decreases |log| - from
  {
    if from == |log| || log[from].seqno > cursor then from else Passed(log, cursor, from + 1)
  }

  lemma PassedAt(log: seq<Event>, n: nat)
    requires InOrder(log) && 0 < n <= |log|
    ensures Passed(log, log[n - 1].seqno, 0) == n
  {
    assert n < |log| ==> log[n - 1].seqno < log[n].seqno;
  }

  lemma WatermarkGrows(log: seq<Event>, m: nat, n: nat)
    requires InOrder(log) && m <= n <= |log|
    ensures Watermark(log, m) <= Watermark(log, n)
    ensures forall i :: n <= i < |log| ==> Watermark(log, n) < log[i].seqno
  {
  }

  class Bridge {
    // Every event that is ever committed, and the length of the prefix committed by now.
    const log: seq<Event>
    var committed: nat
    var clock: real
    // The cursor in Redis.
    var stored: nat
    // Local variables of run.
    var cursor: nat
    var loaded: bool
    var initialized: bool
    var reconcile: bool
    var reconcileAfter: real
    var pending: bool
    var started: real
    // What the relay accepted: events processed, snapshots delivered, and the cursor inherited at start.
    ghost const inherited: nat
    ghost var processed: set<nat>
    ghost var deliveries: seq<Delivery>
    // How often an awaited call failed, or an event was too old to be announced.
    ghost var faults: nat

    /** Event i was processed, or a delivered snapshot already showed it, or it predates this run. */
    ghost predicate Reached(i: nat)
      requires i < |log|
      reads this`processed, this`deliveries
    {
      || log[i].seqno <= inherited
      || log[i].seqno in processed
      || exists d :: 0 <= d < |deliveries| && log[i].seqno <= deliveries[d].state
    }

    /** No durable event at or below c was skipped. */
    ghost predicate NoGap(c: nat)
      reads this`processed, this`deliveries
    {
      forall i :: 0 <= i < |log| && log[i].seqno <= c ==> Reached(i)
    }

    /** Every event after a, up to b, was processed one by one. */
    ghost predicate Processed(a: nat, b: nat)
      reads this`processed
    {
      Covers(processed, a, b)
    }

    ghost predicate Covers(done: set<nat>, a: nat, b: nat) {
      forall i :: 0 <= i < |log| && a < log[i].seqno <= b ==> log[i].seqno in done
    }

    lemma CoversJoin(early: set<nat>, late: set<nat>, a: nat, b: nat, c: nat)
      requires early <= late && Covers(early, a, b) && Covers(late, b, c)
      ensures Covers(late, a, c)
    {
    }

    ghost predicate Fitting(d: Delivery) {
      && (d.initialized || d.reconcile ==> d.cursor <= d.state)
      && (d.reconcile ==> d.notBefore <= d.started)
    }

    ghost predicate Valid()
      reads this
    {
      && InOrder(log) && committed <= |log|
      && NoGap(stored)
      && (loaded ==> stored <= cursor && NoGap(cursor))
      && (forall d :: 0 <= d < |deliveries| ==> Fitting(deliveries[d]))
    }

    constructor (log: seq<Event>, stored: nat)
      requires InOrder(log)
      ensures Valid() && this.log == log && this.stored == stored && inherited == stored
      ensures processed == {} && deliveries == []
    {
      this.log, this.stored, inherited := log, stored, stored;
      committed, clock, cursor, loaded, initialized, reconcile := 0, 0.0, 0, false, false, false;
      reconcileAfter, pending, started := 0.0, false, 0.0;
      processed, deliveries, faults := {}, [], 0;
    }

    /** Time passes and events are committed while a coroutine waits. */
    method Elapse()
      modifies this`committed, this`clock
      requires committed <= |log|
      ensures old(committed) <= committed <= |log| && old(clock) <= clock
    {
      var n: nat :| committed <= n <= |log|;
      var wait: real := *;
      committed, clock := n, MaxReal(clock, clock + wait);
    }

    /** _save_cursor: a failing write may or may not have reached Redis. */
    method SaveCursor() returns (ok: bool)
      requires Valid() && stored <= cursor && NoGap(cursor)
      modifies this`stored, this`faults
      ensures Valid() && old(stored) <= stored <= cursor
      ensures ok ==> stored == cursor
      ensures if ok then faults == old(faults) else faults > old(faults)
    {
      ok := *;
      if ok {
        stored := cursor;
        return;
      }
      faults := faults + 1;
      if * {
        stored := cursor;
      }
    }

    /** list_intel_event_page after the cursor. */
    function Page(): (page: seq<Event>)
      requires committed <= |log|
      reads this
      ensures |page| <= PAGE_SIZE
    {
      var p := Passed(log, cursor, 0);
      if p >= committed then [] else log[p..MinInt(p + PAGE_SIZE, committed)]
    }

    /** The relay accepted event n: the cursor moves past it, and past nothing else. */
    method PassEvent(n: nat)
      requires Valid() && loaded && n < |log| && Passed(log, cursor, 0) == n
      modifies this`cursor, this`processed
      ensures Valid() && old(processed) <= processed
      ensures cursor == log[n].seqno && old(cursor) < cursor && Passed(log, cursor, 0) == n + 1
      ensures Processed(old(cursor), cursor)
    {
      processed := processed + {log[n].seqno};
      cursor := log[n].seqno;
      PassedAt(log, n + 1);
      assert forall i :: n < i < |log| ==> log[n].seqno < log[i].seqno;
      forall i | 0 <= i < |log| && log[i].seqno <= cursor ensures Reached(i) {
      }
    }

    /** One event of a page: process it, then persist the cursor past it. */
    method ReplayEvent(n: nat) returns (outcome: Outcome)
      requires Valid() && loaded && n < |log| && Passed(log, cursor, 0) == n
      modifies this`cursor, this`processed, this`stored, this`faults
      ensures Valid() && old(stored) <= stored && old(processed) <= processed
      ensures Accounted(outcome, old(faults))
      ensures outcome.Fine? ==> cursor == log[n].seqno && old(cursor) < cursor && Passed(log, cursor, 0) == n + 1
      ensures outcome.Fine? ==> stored == cursor
      ensures !outcome.Fine? ==> cursor == old(cursor) || cursor == log[n].seqno
      ensures old(cursor) <= cursor && Processed(old(cursor), cursor)
    {
      if * {
        faults := faults + 1;
        return Expired;
      }
      if * {
        faults := faults + 1;
        return Failed;
      }
      PassEvent(n);
      var ok := SaveCursor();
      outcome := if ok then Fine else Failed;
    }

    /** Only a failed call or an expired event makes anything but Fine. */
    ghost predicate Accounted(outcome: Outcome, before: nat)
      reads this`faults
    {
      if outcome.Fine? then faults == before else faults > before
    }

    /** What replaying from cursor a has kept: only forward, not past the watermark, everything passed was processed. */
    ghost predicate Sound(a: nat, watermark: Option<nat>)
      reads this
    {
      && Valid() && loaded && a <= cursor && Processed(a, cursor)
      && (watermark.Some? ==> cursor <= MaxInt(a, watermark.value))
    }

    /** One event of a page, or the end of the replay at the watermark. */
    method ReplayNext(ghost a: nat, n: nat, watermark: Option<nat>) returns (outcome: Outcome, stop: bool)
      requires Sound(a, watermark) && n < |log| && Passed(log, cursor, 0) == n
      modifies this`cursor, this`processed, this`stored, this`faults
      ensures Sound(a, watermark) && old(stored) <= stored && old(processed) <= processed
      ensures Accounted(outcome, old(faults)) && (outcome.Fine? && old(stored == cursor) ==> stored == cursor)
      ensures outcome.Fine? && stop ==> watermark.Some? && Beyond(watermark.value)
      ensures outcome.Fine? && !stop ==> old(cursor) < cursor && Passed(log, cursor, 0) == n + 1
      ensures !outcome.Fine? ==> stop
    {
      if watermark.Some? && log[n].seqno > watermark.value {
        NothingLeft(n, watermark.value);
        return Fine, true;
      }
      outcome := ReplayEvent(n);
      CoversJoin(old(processed), processed, a, old(cursor), cursor);
      stop := !outcome.Fine?;
    }

    /** The events of one page in order; a page event past the watermark ends the replay. */
    method ReplayPage(ghost a: nat, page: seq<Event>, watermark: Option<nat>) returns (outcome: Outcome, stop: bool)
      requires Sound(a, watermark) && page == Page()
      modifies this`cursor, this`processed, this`stored, this`faults
      ensures Sound(a, watermark) && old(stored) <= stored && old(processed) <= processed
      ensures Accounted(outcome, old(faults)) && (outcome.Fine? && old(stored == cursor) ==> stored == cursor)
      ensures outcome.Fine? && stop ==> watermark.Some? && Beyond(watermark.value)
      ensures outcome.Fine? && !stop ==> Passed(log, cursor, 0) == old(Passed(log, cursor, 0)) + |page|
    {
      var p := Passed(log, cursor, 0);
      var i := 0;
      while i < |page|
        invariant 0 <= i <= |page| && (page != [] ==> p + |page| <= committed && page == log[p..p + |page|])
        invariant Sound(a, watermark) && old(stored) <= stored && old(processed) <= processed
        invariant Passed(log, cursor, 0) == p + i
        invariant faults == old(faults) && (old(stored == cursor) ==> stored == cursor)
      {
        outcome, stop := ReplayNext(a, p + i, watermark);
        if stop {
          return;
        }
        i := i + 1;
      }
      outcome, stop := Fine, false;
    }

    /** Every event up to the watermark is behind the cursor. */
    ghost predicate Beyond(watermark: nat)
      reads this`cursor
    {
      forall i :: 0 <= i < |log| ==> log[i].seqno <= cursor || log[i].seqno > watermark
    }

    /** Fetching a page takes time in which events are committed. */
    method WaitForPage(ghost a: nat, watermark: Option<nat>)
      requires Sound(a, watermark)
      modifies this`committed, this`clock
      ensures Sound(a, watermark) && old(committed) <= committed
    {
      Elapse();
    }

    /** One page of a replay: over, or on with the next page from a further cursor. */
    method ReplayTurn(ghost a: nat, watermark: Option<nat>) returns (outcome: Outcome, more: bool)
      requires Sound(a, watermark)
      modifies this`cursor, this`processed, this`stored, this`committed, this`clock, this`faults
      ensures Sound(a, watermark) && old(stored) <= stored && old(processed) <= processed && old(committed) <= committed
      ensures Accounted(outcome, old(faults)) && (outcome.Fine? && old(stored == cursor) ==> stored == cursor)
      ensures more ==> outcome.Fine?
      ensures more ==> old(Passed(log, cursor, 0)) < Passed(log, cursor, 0)
      ensures !more && outcome.Fine? ==> committed <= Passed(log, cursor, 0) || (watermark.Some? && Beyond(watermark.value))
    {
      if * {
        faults := faults + 1;
        return Failed, false;
      }
      WaitForPage(a, watermark);
      var page := Page();
      var stop: bool;
      outcome, stop := ReplayPage(a, page, watermark);
      if !outcome.Fine? || stop || |page| < PAGE_SIZE {
        return outcome, false;
      }
      if watermark.Some? && cursor >= watermark.value {
        NothingLeft(Passed(log, cursor, 0), watermark.value);
        return Fine, false;
      }
      more := true;
    }

    /**
      _replay_to_watermark: page through the log, up to a snapshot's watermark if there is one. It ends
      because each further page moves the cursor.
     */
    method Replay(watermark: Option<nat>) returns (outcome: Outcome)
      requires Valid() && loaded
      modifies this`cursor, this`processed, this`stored, this`committed, this`clock, this`faults
      ensures Valid() && old(stored) <= stored && old(processed) <= processed && old(committed) <= committed
      ensures old(cursor) <= cursor
      ensures Accounted(outcome, old(faults)) && (outcome.Fine? && old(stored == cursor) ==> stored == cursor)
      ensures watermark.Some? ==> cursor <= MaxInt(old(cursor), watermark.value)
      ensures Processed(old(cursor), cursor)
      // Success leaves nothing committed behind, up to the watermark.
      ensures outcome.Fine? ==> committed <= Passed(log, cursor, 0) || (watermark.Some? && Beyond(watermark.value))
    {
      ghost var a := cursor;
      while true
        invariant Sound(a, watermark) && old(stored) <= stored && old(processed) <= processed && old(committed) <= committed
        invariant faults == old(faults) && (old(stored == cursor) ==> stored == cursor)
        decreases |log| - Passed(log, cursor, 0)
      {
        var more: bool;
        outcome, more := ReplayTurn(a, watermark);
        if !more {
          return;
        }
      }
    }

    /** Events from position n on are past the watermark once the first of them is, or the cursor reached it. */
    lemma NothingLeft(n: nat, watermark: nat)
      requires Valid() && n <= |log| && Passed(log, cursor, 0) == n
      requires n < |log| ==> log[n].seqno > watermark || cursor >= watermark
      ensures Beyond(watermark)
    {
      assert forall i :: n < i < |log| ==> log[n].seqno < log[i].seqno;
    }

    /** process_bootstrap, then move the cursor to the snapshot's watermark and persist it. */
    method Deliver(state: nat) returns (ok: bool)
      requires Valid() && loaded
      requires initialized || reconcile ==> cursor <= state
      requires reconcile ==> reconcileAfter <= started
      modifies this`cursor, this`stored, this`deliveries, this`initialized, this`reconcile, this`faults
      ensures Valid() && old(stored) <= stored
      ensures if ok then faults == old(faults) else faults > old(faults)
      ensures ok ==> initialized && !reconcile && cursor == MaxInt(old(cursor), state) && stored == cursor
      ensures (!ok && deliveries == old(deliveries))
              || deliveries == old(deliveries) + [Delivery(state, old(cursor), old(initialized), old(reconcile), started, reconcileAfter)]
    {
      if * {
        faults := faults + 1;
        return false;
      }
      ghost var before := deliveries;
      deliveries := deliveries + [Delivery(state, cursor, initialized, reconcile, started, reconcileAfter)];
      forall i | 0 <= i < |log| && log[i].seqno <= MaxInt(cursor, state) ensures Reached(i) {
        if log[i].seqno <= state {
          assert deliveries[|before|].state == state;
        } else if exists d :: 0 <= d < |before| && log[i].seqno <= before[d].state {
          var d :| 0 <= d < |before| && log[i].seqno <= before[d].state;
          assert deliveries[d] == before[d];
        }
      }
      reconcile, initialized := false, true;
      cursor := MaxInt(cursor, state);
      ok := SaveCursor();
    }

    /** Reload the persisted acknowledgement; the ready marker decides whether a baseline exists. */
    method Load(marker: bool) returns (ok: bool)
      requires Valid()
      modifies this`cursor, this`initialized, this`loaded, this`faults
      ensures Valid() && (ok ==> loaded)
      ensures if ok then faults == old(faults) else faults > old(faults)
      ensures ok ==> cursor == (if old(loaded) then old(cursor) else stored)
      ensures ok ==> initialized == (if old(loaded) then old(initialized) else stored > 0 && marker)
    {
      if loaded {
        return true;
      }
      if * {
        faults := faults + 1;
        return false;
      }
      cursor := stored;
      initialized := cursor > 0 && marker;
      if * {
        faults := faults + 1;
        return false;
      }
      ok, loaded := true, true;
    }

    /** The refresh in flight: started once, collected when it is done, lost when it raised. */
    method PollSnapshot(poll: Poll) returns (snapshot: Option<Snapshot>)
      requires Valid()
      modifies this`pending, this`started, this`committed, this`clock
      ensures Valid() && old(committed) <= committed
      ensures started == (if old(pending) then old(started) else old(clock)) && pending == poll.Running?
      ensures if poll.Built? then snapshot.Some? && BuiltBy(snapshot.value, poll) else snapshot.None?
    {
      if !pending {
        pending, started := true, clock;
      }
      Elapse();
      match poll {
        case Running => snapshot := None;
        case Raised => pending, snapshot := false, None;
        case Built(ready, recent) =>
          var upto: nat :| upto <= committed;
          pending, snapshot := false, Some(Snapshot(ready, upto, recent));
      }
    }

    ghost predicate BuiltBy(snapshot: Snapshot, poll: Poll)
      requires poll.Built?
      reads this`committed
    {
      snapshot.upto <= committed && snapshot.ready == poll.ready && snapshot.recent == poll.recent
    }

    /** The ready snapshot of a pass, seen as the watermark of the state it shows. */
    function Shown(snapshot: Option<Snapshot>): (state: Option<nat>)
      requires snapshot.Some? ==> snapshot.value.upto <= |log|
    {
      if snapshot.Some? && snapshot.value.ready then Some(Watermark(log, snapshot.value.upto)) else None
    }

    /** One delivery, made at cursor `from` before anything else, and its watermark acknowledged. */
    ghost predicate Bootstrapped(was: seq<Delivery>, state: nat, from: nat, baseline: bool, reconciling: bool)
      reads this
    {
      && deliveries == was + [Delivery(state, from, baseline, reconciling, started, reconcileAfter)]
      && initialized && !reconcile && cursor == MaxInt(from, state)
    }

    /** Nothing to do yet: no baseline, or no snapshot to reconcile with. */
    ghost predicate Idle(was: seq<Delivery>, from: nat, baseline: bool, reconciling: bool)
      reads this
    {
      deliveries == was && cursor == from && initialized == baseline && reconcile == reconciling
    }

    /**
      With a baseline: everything committed is behind the cursor, event by event, and a ready snapshot
      that is not older than the cursor was delivered in between, at exactly its own watermark.
     */
    ghost predicate Followed(was: seq<Delivery>, from: nat, shown: Option<nat>)
      reads this
    {
      && committed <= |log| && committed <= Passed(log, cursor, 0) && from <= cursor && Processed(from, cursor)
      && initialized && !reconcile
      && deliveries == if shown.Some? && shown.value >= from
                       then was + [Delivery(shown.value, shown.value, true, false, started, reconcileAfter)] else was
    }

    /**
      What a pass that met no failure has done, from the cursor and baseline it began with: followed the
      log, or delivered a first or reconciling snapshot, or waited for one. Only following the log
      processes events, and whatever the cursor reached is persisted.
     */
    ghost predicate PassDone(was: seq<Delivery>, done: set<nat>, from: nat, baseline: bool, reconciling: bool, snapshot: Option<Snapshot>)
      requires snapshot.Some? ==> snapshot.value.upto <= |log|
      reads this
    {
      var shown := Shown(snapshot);
      && loaded && stored == cursor
      && (reconciling || !baseline ==> processed == done)
      && if reconciling then
           if shown.Some? && shown.value >= from && started >= reconcileAfter && snapshot.value.recent
           then Bootstrapped(was, shown.value, from, baseline, true) else Idle(was, from, baseline, true)
         else if !baseline then
           if shown.Some? then Bootstrapped(was, shown.value, from, false, false) else Idle(was, from, false, false)
         else
           Followed(was, from, shown)
    }

    /** Between passes the loaded cursor is the persisted one. */
    ghost predicate Settled()
      reads this
    {
      Valid() && (loaded ==> stored == cursor)
    }

    /** The body of the main loop, up to the exception handlers. */
    method Turn(world: World) returns (outcome: Outcome, snapshot: Option<Snapshot>)
      requires Settled()
      modifies this
      ensures Valid() && old(stored) <= stored && old(deliveries) <= deliveries && old(processed) <= processed
      ensures Accounted(outcome, old(faults))
      ensures !world.limited ==> reconcileAfter == old(reconcileAfter)
      ensures world.limited && outcome.Fine? ==> reconcileAfter >= old(clock)
      ensures snapshot.Some? ==> snapshot.value.upto <= |log|
      ensures outcome.Fine? ==>
                && (snapshot.Some? <==> world.poll.Built?)
                && (snapshot.Some? ==> BuiltBy(snapshot.value, world.poll))
                && PassDone(old(deliveries), old(processed), if old(loaded) then old(cursor) else old(stored),
                           if old(loaded) then old(initialized) else old(stored) > 0 && world.marker,
                           old(reconcile) || world.limited, snapshot)
    {
      snapshot := None;
      var ok := Load(world.marker);
      if !ok {
        return Failed, None;
      }
      NoticeRateLimit(world.limited);
      snapshot := PollSnapshot(world.poll);
      outcome := Act(snapshot);
    }

    /** What a pass does with the snapshot it collected, if any. */
    method Act(snapshot: Option<Snapshot>) returns (outcome: Outcome)
      requires Valid() && loaded && stored == cursor
      requires snapshot.Some? ==> snapshot.value.upto <= committed
      modifies this`cursor, this`processed, this`stored, this`committed, this`clock, this`deliveries,
               this`initialized, this`reconcile, this`faults
      ensures Valid() && old(stored) <= stored && old(deliveries) <= deliveries && old(processed) <= processed
      ensures Accounted(outcome, old(faults)) && old(committed) <= committed
      ensures outcome.Fine? ==> PassDone(old(deliveries), old(processed), old(cursor), old(initialized), old(reconcile), snapshot)
    {
      var ready := snapshot.Some? && snapshot.value.ready;
      var state := if snapshot.Some? then Watermark(log, snapshot.value.upto) else 0;
      if reconcile && (!ready || state < cursor || started < reconcileAfter || !snapshot.value.recent) {
        return Fine;
      }
      if !initialized || reconcile {
        if ready {
          var ok := Deliver(state);
          return if ok then Fine else Failed;
        }
        return Fine;
      }
      outcome := Consume(ready, state, if snapshot.Some? then snapshot.value.upto else 0);
    }

    /** With a baseline: replay through a fresh snapshot before delivering it, then follow the log. */
    method Consume(ready: bool, state: nat, ghost upto: nat) returns (outcome: Outcome)
      requires Valid() && loaded && initialized && !reconcile && stored == cursor
      requires upto <= committed && state == Watermark(log, upto)
      modifies this`cursor, this`processed, this`stored, this`committed, this`clock, this`deliveries,
               this`initialized, this`reconcile, this`faults
      ensures Valid() && old(stored) <= stored && old(deliveries) <= deliveries && old(processed) <= processed
      ensures old(committed) <= committed && Accounted(outcome, old(faults))
      // A snapshot delivered on top of a baseline never stands in for an event.
      ensures outcome.Fine? ==> stored == cursor && Followed(old(deliveries), old(cursor), if ready then Some(state) else None)
    {
      if ready && state >= cursor {
        outcome := ReplayThrough(state, upto);
        if !outcome.Fine? {
          return;
        }
        var ok := Deliver(state);
        if !ok {
          return Failed;
        }
      }
      ghost var reached, early := cursor, processed;
      outcome := Replay(None);
      CoversJoin(early, processed, old(cursor), reached, cursor);
    }

    /** Replay through this exact snapshot: the cursor ends at its watermark. */
    method ReplayThrough(state: nat, ghost upto: nat) returns (outcome: Outcome)
      requires Valid() && loaded && stored == cursor
      requires upto <= committed && cursor <= state == Watermark(log, upto)
      modifies this`cursor, this`processed, this`stored, this`committed, this`clock, this`faults
      ensures Valid() && old(stored) <= stored && old(processed) <= processed && old(committed) <= committed
      ensures Accounted(outcome, old(faults)) && (outcome.Fine? ==> stored == cursor == state)
      ensures Processed(old(cursor), cursor)
    {
      outcome := Replay(Some(state));
      if outcome.Fine? {
        WatermarkReached(upto, old(cursor));
      }
    }

    /** A replay through a snapshot ends exactly at its watermark. */
    lemma WatermarkReached(upto: nat, from: nat)
      requires Valid() && upto <= |log| && from <= Watermark(log, upto)
      requires from <= cursor <= MaxInt(from, Watermark(log, upto))
      requires upto <= Passed(log, cursor, 0) || Beyond(Watermark(log, upto))
      ensures cursor == Watermark(log, upto)
    {
      if upto > 0 {
        assert log[upto - 1].seqno <= cursor;
      }
    }

    /** The relay was rate limited: wait, then trust only snapshots started later. */
    method NoticeRateLimit(limited: bool)
      requires Valid()
      modifies this`reconcile, this`reconcileAfter, this`committed, this`clock
      ensures Valid() && old(committed) <= committed && old(clock) <= clock
      ensures reconcile == (old(reconcile) || limited)
      ensures if limited then old(clock) <= reconcileAfter == clock else reconcileAfter == old(reconcileAfter)
    {
      if limited {
        reconcile := true;
        Elapse();
        reconcileAfter := clock;
      }
    }

    /** One pass of run, with its exception handlers. */
    method Tick(world: World) returns (outcome: Outcome, snapshot: Option<Snapshot>)
      requires Settled()
      modifies this
      ensures Settled() && old(stored) <= stored && old(deliveries) <= deliveries && old(processed) <= processed
      ensures Accounted(outcome, old(faults))
      ensures !outcome.Fine? ==> !loaded
      ensures outcome.Expired? ==> reconcile && reconcileAfter == clock
      ensures snapshot.Some? ==> snapshot.value.upto <= |log|
      ensures outcome.Fine? ==>
                && (snapshot.Some? <==> world.poll.Built?)
                && (snapshot.Some? ==> BuiltBy(snapshot.value, world.poll))
                && PassDone(old(deliveries), old(processed), if old(loaded) then old(cursor) else old(stored),
                           if old(loaded) then old(initialized) else old(stored) > 0 && world.marker,
                           old(reconcile) || world.limited, snapshot)
    {
      outcome, snapshot := Turn(world);
      if outcome.Expired? {
        loaded, reconcile, reconcileAfter := false, true, clock;
      } else if outcome.Failed? {
        loaded := false;
      }
    }

    /**
      Any number of passes: the persisted cursor never falls and never passes an event that was neither
      processed nor shown by a delivered snapshot, and no snapshot delivered on top of a baseline is
      older than the cursor. A run that begins with a baseline and meets neither a failure nor a rate
      limit processes every event committed before its last pass ends, one by one.
     */
    method Run(worlds: seq<World>)
      requires Settled()
      modifies this
      ensures Settled() && old(stored) <= stored
      ensures NoGap(stored)
      ensures forall d :: 0 <= d < |deliveries| && deliveries[d].initialized ==> deliveries[d].cursor <= deliveries[d].state
      ensures old(loaded && initialized && !reconcile) && faults == old(faults) && (forall i :: 0 <= i < |worlds| ==> !worlds[i].limited) ==>
                Processed(old(cursor), cursor) && stored == cursor && (worlds != [] ==> committed <= Passed(log, cursor, 0))
    {
      ghost var calm := loaded && initialized && !reconcile && (forall i :: 0 <= i < |worlds| ==> !worlds[i].limited);
      for i := 0 to |worlds|
        invariant Settled() && old(stored) <= stored && faults >= old(faults)
        invariant calm && faults == old(faults) ==>
                    && loaded && initialized && !reconcile && old(cursor) <= cursor
                    && Processed(old(cursor), cursor) && (i > 0 ==> committed <= Passed(log, cursor, 0))
      {
        ghost var reached, early := cursor, processed;
        var outcome, snapshot := Tick(worlds[i]);
        if calm && faults == old(faults) {
          CoversJoin(early, processed, old(cursor), reached, cursor);
        }
      }
    }
  }
}
