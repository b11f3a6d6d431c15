/** Clear and unknown events (primary_clear_event, reconcile_zero_events in app/server/capture_state.py). */
module ZeroEvents {
  import opened Common
  import opened SourceAuthority
  import opened Takeover
  import opened CaptureState

  datatype EventType = Entered | Updated | Cleared

  datatype EventKey =
    | ClearKey(system: string, client: string, generation: nat, at: string)
    | UnknownKey(system: string, generation: nat, at: string)
    | OtherKey(text: string)

  datatype Payload =
    | ZeroPayload(name: string, systemId: Option<int>, active: bool, client: string, generation: nat, known: bool)
    | OtherPayload(text: string)

  datatype Event = Event(key: EventKey, kind: EventType, entity: string, at: string, payload: Payload)

  /** Reasons that make a lost zero source unknown rather than silent. */
  const LOSSES := {"heartbeat_stale", "capture_stale", "target_removed", "monitor_stopped", "system_changed"}

  /** primary_clear_event for the given client. */
  function ClearEvent(rows: seq<Row>, client: string, system: string, at: string): Option<Event> {
    var p := PrimaryOf(rows, system);
    if p.None? || rows[p.value].info.clientId != Some(client) || rows[p.value].info.iconCount != Some(0) then None
    else
      var generation := rows[p.value].joinOrder;
      Some(Event(ClearKey(system, client, generation, at), Cleared, system, at,
                 ZeroPayload(rows[p.value].info.systemName, rows[p.value].info.systemId, false, client, generation, true)))
  }

  function UnknownEvent(zero: Row, at: string): Event {
    Event(UnknownKey(zero.info.system, zero.joinOrder, at), Updated, zero.info.system, at,
          ZeroPayload(zero.info.systemName, zero.info.systemId, true, ClientText(zero), zero.joinOrder, false))
  }

  // ------------------------------------------------------------ specification

  function LastFor(events: seq<Event>, system: string): Option<Event> {
    if events == [] then None
    else if events[|events| - 1].entity == system then Some(events[|events| - 1])
    else LastFor(events[..|events| - 1], system)
  }

  function FirstLost(zeros: seq<Row>, system: string): (r: Option<Row>)
    ensures r.Some? ==> r.value in zeros && r.value.info.system == system && r.value.info.leftReason in LOSSES
    ensures r.None? ==> forall z :: z in zeros && z.info.system == system ==> z.info.leftReason !in LOSSES
  {
    if zeros == [] then None
    else
      var init := FirstLost(zeros[..|zeros| - 1], system);
      var z := zeros[|zeros| - 1];
      assert forall x :: x in zeros <==> x in zeros[..|zeros| - 1] || x == z;
      if init.Some? then init
      else if z.info.system == system && z.info.leftReason in LOSSES then Some(z) else None
  }

  /** The event a system ends up with. */
  function Final(events: seq<Event>, rows: seq<Row>, at: string, zeros: seq<Row>, positive: set<string>, system: string): Option<Event> {
    var p := PrimaryOf(rows, system);
    var clear := if p.Some? && system !in positive then ClearEvent(rows, ClientText(rows[p.value]), system, at) else None;
    if clear.Some? then clear
    else if LastFor(events, system).Some? then LastFor(events, system)
    else if p.None? && FirstLost(zeros, system).Some? then Some(UnknownEvent(FirstLost(zeros, system).value, at))
    else None
  }

  /** e is the last event given for this system. */
  ghost predicate IsLast(events: seq<Event>, system: string, e: Event) {
    exists i :: 0 <= i < |events| && events[i] == e && e.entity == system && forall j :: i < j < |events| ==> events[j].entity != system
  }

  lemma {:induction false} LastForIsLast(events: seq<Event>, system: string)
    ensures LastFor(events, system).None? ==> forall i :: 0 <= i < |events| ==> events[i].entity != system
    ensures LastFor(events, system).Some? ==> IsLast(events, system, LastFor(events, system).value)
  {
    if events != [] && events[|events| - 1].entity != system {
      LastForIsLast(events[..|events| - 1], system);
      if LastFor(events, system).Some? {
        var i :| 0 <= i < |events| - 1 && events[i] == LastFor(events, system).value
                 && forall j :: i < j < |events| - 1 ==> events[j].entity != system;
        assert events[i].entity == system;
      }
    }
  }

  /** The first lost zero row of this system. */
  ghost predicate IsFirstLoss(zeros: seq<Row>, system: string, i: int) {
    && 0 <= i < |zeros| && zeros[i].info.system == system && zeros[i].info.leftReason in LOSSES
    && forall j :: 0 <= j < i ==> zeros[j].info.system != system || zeros[j].info.leftReason !in LOSSES
  }

  lemma {:induction false} FirstLostIsFirst(zeros: seq<Row>, system: string)
    ensures FirstLost(zeros, system).Some? ==> exists i :: IsFirstLoss(zeros, system, i) && zeros[i] == FirstLost(zeros, system).value
  {
    if zeros != [] {
      var init := zeros[..|zeros| - 1];
      FirstLostIsFirst(init, system);
      if FirstLost(init, system).Some? {
        var i :| IsFirstLoss(init, system, i) && init[i] == FirstLost(init, system).value;
        assert IsFirstLoss(zeros, system, i) && zeros[i] == init[i];
      } else if FirstLost(zeros, system).Some? {
        forall j | 0 <= j < |init| ensures zeros[j].info.system != system || zeros[j].info.leftReason !in LOSSES {
          assert init[j] in init;
        }
        assert IsFirstLoss(zeros, system, |zeros| - 1);
      }
    }
  }

  /** The event that reports a zero primary as clear. */
  predicate ClearOf(e: Event, primary: Row, at: string) {
    && primary.info.clientId.Some? && primary.info.iconCount == Some(0)
    && e.kind == Cleared && e.entity == primary.info.system && e.at == at
    && e.key == ClearKey(primary.info.system, primary.info.clientId.value, primary.joinOrder, at)
    && e.payload == ZeroPayload(primary.info.systemName, primary.info.systemId, false, primary.info.clientId.value, primary.joinOrder, true)
  }

  /** The event that reports a lost zero as still active, and unknown. */
  predicate UnknownOf(e: Event, zero: Row, at: string) {
    && e.kind == Updated && e.entity == zero.info.system && e.at == at
    && e.key == UnknownKey(zero.info.system, zero.joinOrder, at)
    && e.payload.ZeroPayload? && e.payload.active && !e.payload.known
    && e.payload.client == ClientText(zero) && e.payload.generation == zero.joinOrder
    && e.payload.name == zero.info.systemName && e.payload.systemId == zero.info.systemId
  }

  /**
    What a system ends up with, and exactly when: the clear of its zero primary unless it is known hostile, else
    the last event given, else the unknown of its first lost zero if it has no primary left, else nothing.
   */
  lemma FinalMeans(events: seq<Event>, rows: seq<Row>, at: string, zeros: seq<Row>, positive: set<string>, system: string)
    ensures var p := PrimaryOf(rows, system);
            var e := Final(events, rows, at, zeros, positive, system);
            if p.Some? && system !in positive && rows[p.value].info.clientId.Some? && rows[p.value].info.iconCount == Some(0) then
              e.Some? && ClearOf(e.value, rows[p.value], at) && e.value.entity == system
            else if exists i :: 0 <= i < |events| && events[i].entity == system then
              e.Some? && IsLast(events, system, e.value)
            else if p.None? && exists i :: 0 <= i < |zeros| && zeros[i].info.system == system && zeros[i].info.leftReason in LOSSES then
              e.Some? && exists i :: IsFirstLoss(zeros, system, i) && UnknownOf(e.value, zeros[i], at)
            else
              e.None?
  {
    LastForIsLast(events, system);
    FirstLostIsFirst(zeros, system);
    var p := PrimaryOf(rows, system);
    if p.Some? {
      AllMembers(|rows|);
      PrimaryIsLeast(rows, All(|rows|), system, p.value);
    }
    var l := FirstLost(zeros, system);
    if l.Some? {
      var i :| IsFirstLoss(zeros, system, i) && zeros[i] == l.value;
    } else {
      forall i | 0 <= i < |zeros| ensures zeros[i].info.system != system || zeros[i].info.leftReason !in LOSSES {
        assert zeros[i] in zeros;
      }
    }
  }

  /** A clear that was not already asked for needs a current zero primary and no independent positive. */
  lemma ClearsAreProven(events: seq<Event>, rows: seq<Row>, at: string, zeros: seq<Row>, positive: set<string>, system: string)
    requires Final(events, rows, at, zeros, positive, system).Some?
    requires Final(events, rows, at, zeros, positive, system) != LastFor(events, system)
    requires Final(events, rows, at, zeros, positive, system).value.kind == Cleared
    ensures system !in positive
    ensures var p := PrimaryOf(rows, system);
            && p.Some? && Resident(rows[p.value]) && rows[p.value].info.system == system
            && rows[p.value].info.iconCount == Some(0)
  {
    var p := PrimaryOf(rows, system).value;
    AllMembers(|rows|);
    PrimaryIsLeast(rows, All(|rows|), system, p);
  }

  /** Losing a zero primary with no successor and no other event never reads as safe: it is unknown. */
  lemma LostZeroIsUnknown(events: seq<Event>, rows: seq<Row>, at: string, zeros: seq<Row>, positive: set<string>, zero: Row)
    requires zero in zeros && zero.info.leftReason in LOSSES
    requires PrimaryOf(rows, zero.info.system).None? && LastFor(events, zero.info.system).None?
    ensures var e := Final(events, rows, at, zeros, positive, zero.info.system);
            && e.Some? && e.value.kind == Updated && e.value.payload.ZeroPayload?
            && e.value.payload.active && !e.value.payload.known
  {
  }

  /**
    A zero primary whose capture lease runs out, with no other resident in its system, turns unknown
    and not clear: expiry marks it, and reconciliation reports the loss.
   */
  lemma ExpiredZeroIsUnknown(events: seq<Event>, before: seq<Row>, now: real, at: string, positive: set<string>, i: nat)
    requires i < |before| && LeaseOver(before[i], now) && before[i].info.iconCount == Some(0)
    requires forall j :: 0 <= j < |before| && j != i ==> !(Resident(before[j]) && before[j].info.system == before[i].info.system)
    requires LastFor(events, before[i].info.system).None?
    ensures var rows := Expire(before, now);
            var e := Final(events, rows, at, [rows[i]], positive, before[i].info.system);
            && e.Some? && e.value.kind == Updated && e.value.payload.ZeroPayload?
            && e.value.payload.active && !e.value.payload.known
  {
    var rows := Expire(before, now);
    var system := before[i].info.system;
    assert before[i].info.clientId in StaleClients(before, now);
    assert rows[i].info.leftReason == "capture_stale" && !Resident(rows[i]);
    ExpiryIsComplete(before, now);
    AllMembers(|rows|);
    var p := PrimaryOf(rows, system);
    if p.Some? {
      PrimaryIsLeast(rows, All(|rows|), system, p.value);
    }
    assert rows[i] in [rows[i]];
    LostZeroIsUnknown(events, rows, at, [rows[i]], positive, rows[i]);
  }

  /**
    Expiry and reconciliation together: an added clear rests on a resident of that system that showed zero
    before the expiry already, and whose capture lease is at most 45 s old or was never timed.
   */
  lemma ClearsRestOnLiveZeros(events: seq<Event>, before: seq<Row>, now: real, at: string, zeros: seq<Row>,
                              positive: set<string>, system: string)
    requires Final(events, Expire(before, now), at, zeros, positive, system).Some?
    requires Final(events, Expire(before, now), at, zeros, positive, system) != LastFor(events, system)
    requires Final(events, Expire(before, now), at, zeros, positive, system).value.kind == Cleared
    ensures system !in positive
    ensures exists i :: 0 <= i < |before| && Resident(before[i]) && before[i].info.system == system
                        && before[i].info.iconCount == Some(0)
                        && (before[i].info.captureReceivedAt == 0.0 || now - before[i].info.captureReceivedAt <= 45.0)
  {
    var rows := Expire(before, now);
    ClearsAreProven(events, rows, at, zeros, positive, system);
    ExpiryIsComplete(before, now);
    var p := PrimaryOf(rows, system).value;
    assert rows[p] == before[p] && !LeaseOver(rows[p], now);
  }

  // --------------------------------------------------------------- the method

  /** A dictionary in insertion order. */
  datatype Table = Table(order: seq<string>, events: map<string, Event>)

  ghost predicate Keyed(t: Table) {
    && (forall i, j :: 0 <= i < j < |t.order| ==> t.order[i] != t.order[j])
    && (forall k :: k in t.order <==> k in t.events)
    && (forall k :: k in t.events ==> t.events[k].entity == k)
  }

  function Put(t: Table, e: Event): Table {
    Table(if e.entity in t.events then t.order else t.order + [e.entity], t.events[e.entity := e])
  }

  function Get(t: Table, system: string): Option<Event> {
    if system in t.events then Some(t.events[system]) else None
  }

  lemma PutIsUpdate(t: Table, e: Event)
    requires Keyed(t)
    ensures Keyed(Put(t, e))
    ensures forall k :: Get(Put(t, e), k) == if k == e.entity then Some(e) else Get(t, k)
  {
  }

  method ByEntity(events: seq<Event>) returns (t: Table)
    ensures Keyed(t) && forall k :: Get(t, k) == LastFor(events, k)
  {
    t := Table([], map[]);
    var i := 0;
    while i < |events|
      invariant 0 <= i <= |events|
      invariant Keyed(t) && forall k :: Get(t, k) == LastFor(events[..i], k)
    {
      assert events[..i + 1][..i] == events[..i];
      PutIsUpdate(t, events[i]);
      t := Put(t, events[i]);
      i := i + 1;
    }
    assert events[..i] == events;
  }

  /** The systems that have a primary, as primary_sources lists them. */
  function Systems(rows: seq<Row>): (s: set<string>)
    ensures forall k :: k in s <==> PrimaryOf(rows, k).Some?
  {
    var s := set i | 0 <= i < |rows| && PrimaryOf(rows, rows[i].info.system).Some? :: rows[i].info.system;
    assert forall k :: PrimaryOf(rows, k).Some? ==> k in s by {
      forall k | PrimaryOf(rows, k).Some? ensures k in s {
        var p := PrimaryOf(rows, k).value;
        AllMembers(|rows|);
        PrimaryIsLeast(rows, All(|rows|), k, p);
        assert rows[p].info.system == k;
      }
    }
    s
  }

  /** At most one event per system: the proven clear, else the given event, else the unknown of a loss. */
  method ReconcileZeroEvents(events: seq<Event>, rows: seq<Row>, at: string, zeros: seq<Row>, positive: set<string>)
    returns (out: seq<Event>)
    ensures forall i, j :: 0 <= i < j < |out| ==> out[i].entity != out[j].entity
    ensures forall e :: e in out <==> Final(events, rows, at, zeros, positive, e.entity) == Some(e)
  {
    var t := ByEntity(events);
    t := AddClears(t, events, rows, at, positive);
    t := AddLosses(t, events, rows, at, zeros, positive);
    out := [];
    var i := 0;
    while i < |t.order|
      invariant 0 <= i <= |t.order| && |out| == i
      invariant forall n :: 0 <= n < i ==> t.order[n] in t.events && out[n] == t.events[t.order[n]]
    {
      assert t.order[i] in t.order;
      out := out + [t.events[t.order[i]]];
      i := i + 1;
    }
    forall e ensures e in out <==> Final(events, rows, at, zeros, positive, e.entity) == Some(e) {
      if Get(t, e.entity) == Some(e) {
        assert e.entity in t.order;
        var n :| 0 <= n < |t.order| && t.order[n] == e.entity;
        assert out[n] == e;
      }
      if e in out {
        var n :| 0 <= n < |out| && out[n] == e;
        assert t.order[n] in t.events;
      }
    }
  }

  lemma FinalWithoutLosses(events: seq<Event>, rows: seq<Row>, at: string, positive: set<string>, k: string)
    ensures Final(events, rows, at, [], positive, k) ==
            (var p := PrimaryOf(rows, k);
             var clear := if p.Some? && k !in positive then ClearEvent(rows, ClientText(rows[p.value]), k, at) else None;
             if clear.Some? then clear else LastFor(events, k))
    ensures Final(events, rows, at, [], positive, k).Some? ==> Final(events, rows, at, [], positive, k).value.entity == k
  {
    LastForIsKeyed(events, k);
  }

  lemma {:induction false} LastForIsKeyed(events: seq<Event>, k: string)
    ensures LastFor(events, k).Some? ==> LastFor(events, k).value.entity == k && LastFor(events, k).value in events
  {
    if events != [] && events[|events| - 1].entity != k {
      LastForIsKeyed(events[..|events| - 1], k);
    }
  }

  method AddClears(t0: Table, events: seq<Event>, rows: seq<Row>, at: string, positive: set<string>) returns (t: Table)
    requires Keyed(t0) && forall k :: Get(t0, k) == LastFor(events, k)
    ensures Keyed(t) && forall k :: Get(t, k) == Final(events, rows, at, [], positive, k)
  {
    t := t0;
    var rest := Systems(rows);
    forall k ensures k !in rest ==> Final(events, rows, at, [], positive, k) == LastFor(events, k) {
      FinalWithoutLosses(events, rows, at, positive, k);
    }
    while rest != {}
      invariant rest <= Systems(rows) && Keyed(t)
      invariant forall k :: k in rest ==> Get(t, k) == LastFor(events, k)
      invariant forall k :: k !in rest ==> Get(t, k) == Final(events, rows, at, [], positive, k)
      decreases |rest|
    {
      var k :| k in rest;
      rest := rest - {k};
      FinalWithoutLosses(events, rows, at, positive, k);
      t := AddClear(t, rows, k, at, positive);
    }
  }

  /** One turn of the first loop. */
  method AddClear(t0: Table, rows: seq<Row>, k: string, at: string, positive: set<string>) returns (t: Table)
    requires Keyed(t0) && PrimaryOf(rows, k).Some?
    ensures Keyed(t) && forall other :: other != k ==> Get(t, other) == Get(t0, other)
    ensures var clear := if k in positive then None else ClearEvent(rows, ClientText(rows[PrimaryOf(rows, k).value]), k, at);
            Get(t, k) == if clear.Some? then clear else Get(t0, k)
  {
    t := t0;
    if k !in positive {
      var clear := ClearEvent(rows, ClientText(rows[PrimaryOf(rows, k).value]), k, at);
      if clear.Some? {
        PutIsUpdate(t, clear.value);
        t := Put(t, clear.value);
      }
    }
  }

  lemma FirstLostGrows(zeros: seq<Row>, i: nat, k: string)
    requires i < |zeros|
    ensures FirstLost(zeros[..i + 1], k) ==
            if FirstLost(zeros[..i], k).Some? then FirstLost(zeros[..i], k)
            else if zeros[i].info.system == k && zeros[i].info.leftReason in LOSSES then Some(zeros[i]) else None
  {
    assert zeros[..i + 1][..i] == zeros[..i];
  }

  /** The table after the losses zeros[..i]. */
  ghost predicate LossesAdded(t: Table, events: seq<Event>, rows: seq<Row>, at: string, zeros: seq<Row>, positive: set<string>,
                              i: nat)
    requires i <= |zeros|
  {
    Keyed(t) && forall k :: Get(t, k) == Final(events, rows, at, zeros[..i], positive, k)
  }

  function AfterLoss(t: Table, rows: seq<Row>, at: string, zero: Row): Table {
    if PrimaryOf(rows, zero.info.system).None? && zero.info.system !in t.events && zero.info.leftReason in LOSSES
    then Put(t, UnknownEvent(zero, at)) else t
  }

  /** One turn of the second loop, seen from one system. */
  lemma LossAt(t: Table, events: seq<Event>, rows: seq<Row>, at: string, zeros: seq<Row>, positive: set<string>, i: nat, k: string)
    requires i < |zeros| && Keyed(t)
    requires Get(t, k) == Final(events, rows, at, zeros[..i], positive, k)
    requires Get(t, zeros[i].info.system) == Final(events, rows, at, zeros[..i], positive, zeros[i].info.system)
    ensures Get(AfterLoss(t, rows, at, zeros[i]), k) == Final(events, rows, at, zeros[..i + 1], positive, k)
  {
    FirstLostGrows(zeros, i, k);
    PutIsUpdate(t, UnknownEvent(zeros[i], at));
  }

  lemma LossTurn(t: Table, events: seq<Event>, rows: seq<Row>, at: string, zeros: seq<Row>, positive: set<string>, i: nat)
    requires i < |zeros| && LossesAdded(t, events, rows, at, zeros, positive, i)
    ensures LossesAdded(AfterLoss(t, rows, at, zeros[i]), events, rows, at, zeros, positive, i + 1)
  {
    PutIsUpdate(t, UnknownEvent(zeros[i], at));
    forall k ensures Get(AfterLoss(t, rows, at, zeros[i]), k) == Final(events, rows, at, zeros[..i + 1], positive, k) {
      LossAt(t, events, rows, at, zeros, positive, i, k);
    }
  }

  method AddLosses(t0: Table, events: seq<Event>, rows: seq<Row>, at: string, zeros: seq<Row>, positive: set<string>)
    returns (t: Table)
    requires Keyed(t0) && forall k :: Get(t0, k) == Final(events, rows, at, [], positive, k)
    ensures Keyed(t) && forall k :: Get(t, k) == Final(events, rows, at, zeros, positive, k)
  {
    t := t0;
    var i := 0;
    assert zeros[..0] == [];
    while i < |zeros|
      invariant 0 <= i <= |zeros| && LossesAdded(t, events, rows, at, zeros, positive, i)
    {
      LossTurn(t, events, rows, at, zeros, positive, i);
      var zero := zeros[i];
      if PrimaryOf(rows, zero.info.system).None? && zero.info.system !in t.events && zero.info.leftReason in LOSSES {
        t := Put(t, UnknownEvent(zero, at));
      }
      i := i + 1;
    }
    assert zeros[..i] == zeros;
  }
}
