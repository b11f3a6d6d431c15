/**
  Capture sessions and roster quality (app/server/capture_state.py): the rows are shared objects whose
  metadata the functions rewrite in place.
 */
module CaptureState {
  import opened Common
  import opened SourceAuthority
  import opened Takeover

  const CAPTURE_LEASE_SECONDS := 45.0
  const ROSTER_MISSING_GRACE_SECONDS := 15.0
  const ROSTER_MISSING := "roster_missing"

  class Presence {
    var row: Row

    constructor (row: Row)
      ensures this.row == row
    {
      this.row := row;
    }
  }

  function View(items: seq<Presence>): (rows: seq<Row>)
    reads items
    ensures |rows| == |items| && forall i :: 0 <= i < |items| ==> rows[i] == items[i].row
  {
    seq(|items|, i requires 0 <= i < |items| reads items => items[i].row)
  }

  // ------------------------------------------------------------- roster waits

  function Icons(r: Row): int {
    if r.info.iconCount.Some? then r.info.iconCount.value else 0
  }

  function CapturePrint(r: Row): Option<string> {
    if r.info.capture.Some? then Some(r.info.capture.value.fingerprint) else None
  }

  function SetRoster(r: Row, roster: Roster): Row {
    r.(info := r.info.(roster := roster))
  }

  /** update_roster_wait: count accepted new frames that have no matching names yet. */
  function UpdateWait(r: Row, now: real): Row {
    var o := r.info.roster;
    if r.info.capture.None? || Icons(r) <= 0 || (o.hasNames && o.fingerprint == CapturePrint(r)) then
      SetRoster(r, if Icons(r) <= 0 then Roster(false, [], None, 0.0, None, 0, 0)
                   else o.(missingSince := None, missingFrames := 0, waitSequence := 0))
    else
      var sequence := r.info.capture.value.sequence;
      SetRoster(r, o.(missingSince := Some(if o.missingSince.Some? then o.missingSince.value else now),
                      missingFrames := if sequence > o.waitSequence then o.missingFrames + 1 else o.missingFrames,
                      waitSequence := if sequence > o.waitSequence then sequence else o.waitSequence))
  }

  /** An upload retry of a counted frame neither counts again nor restarts the grace period. */
  lemma RetriesDoNotCount(r: Row, now: real, later: real)
    ensures UpdateWait(UpdateWait(r, now), later) == UpdateWait(r, now)
  {
  }

  // -------------------------------------------------------- missing-roster takeover

  function Where(n: nat, keep: nat -> bool): (xs: seq<nat>)
    ensures Ascending(xs)
    ensures forall x: nat :: x in xs <==> x < n && keep(x)
  {
    if n == 0 then []
    else
      var rest := Where(n - 1, keep);
      assert forall i :: 0 <= i < |rest| ==> rest[i] in rest;
      if keep(n - 1) then rest + [n - 1] else rest
  }

  function ResidentsOf(rows: seq<Row>, system: string): (xs: seq<nat>)
    ensures Whole(rows, xs, system)
  {
    Where(|rows|, (x: nat) => x < |rows| && Resident(rows[x]) && rows[x].info.system == system)
  }

  predicate Recent(now: real, at: real) { 0.0 <= now - at <= CAPTURE_LEASE_SECONDS }

  function LastQuality(r: Row): Quality {
    var samples := r.info.roster.samples;
    if samples == [] then Unknown else samples[|samples| - 1].1
  }

  /** A standby proven to read the roster of the picture it shows now. */
  predicate HasRoster(r: Row, now: real) {
    && Icons(r) > 0 && r.info.roster.hasNames
    && LastQuality(r) == Complete
    && r.info.roster.fingerprint == CapturePrint(r)
    && Recent(now, r.info.captureReceivedAt) && Recent(now, r.info.roster.observedAt)
  }

  /** What qualifies a standby: for missing names, or for cut-off reads. */
  function Keeps(now: real, reading: bool): Row -> bool {
    if reading then r => HasRoster(r, now) else r => CanReplace(r, now)
  }

  predicate RosterMissing(r: Row, now: real) {
    && Icons(r) > 0 && r.info.roster.missingSince.Some?
    && now - r.info.roster.missingSince.value >= ROSTER_MISSING_GRACE_SECONDS
    && r.info.roster.missingFrames >= 3
  }

  lemma AscendingLast(xs: seq<nat>)
    requires Ascending(xs) && xs != []
    ensures var init, x := xs[..|xs| - 1], xs[|xs| - 1];
            Ascending(init) && (forall y :: y in init ==> y < x) && forall y :: y in xs <==> y in init || y == x
  {
    assert xs == xs[..|xs| - 1] + [xs[|xs| - 1]];
  }

  lemma AscendingAppend(xs: seq<nat>, x: nat)
    requires Ascending(xs) && forall y :: y in xs ==> y < x
    ensures Ascending(xs + [x])
  {
    forall i | 0 <= i < |xs| ensures xs[i] < x {
      assert xs[i] in xs;
    }
  }

  function Among(rows: seq<Row>, xs: seq<nat>, primary: nat, keep: Row -> bool): (ys: seq<nat>)
    requires Indices(rows, xs) && Ascending(xs)
    ensures Ascending(ys) && forall y :: y in ys <==> y in xs && y != primary && keep(rows[y])
  {
    if xs == [] then []
    else
      AscendingLast(xs);
      var x := xs[|xs| - 1];
      assert x in xs;
      var rest := Among(rows, xs[..|xs| - 1], primary, keep);
      AscendingAppend(rest, x);
      if x != primary && keep(rows[x]) then rest + [x] else rest
  }

  /** The qualified standby a takeover would choose: the oldest of those kept. */
  function Standby(rows: seq<Row>, system: string, primary: nat, keep: Row -> bool): (chosen: Option<nat>)
    ensures chosen.Some? ==>
              && chosen.value in ResidentsOf(rows, system) && chosen.value < |rows|
              && chosen.value != primary && keep(rows[chosen.value])
    ensures chosen.None? ==> forall x :: x in ResidentsOf(rows, system) && x != primary ==> !keep(rows[x])
  {
    var xs := ResidentsOf(rows, system);
    var ys := Among(rows, xs, primary, keep);
    if ys == [] then
      assert forall x :: x in xs && x != primary && keep(rows[x]) ==> x in ys;
      None
    else
      ResidentsHavePrimary(rows, ys, system);
      PrimaryIsLeast(rows, ys, system, Primary(rows, ys, system).value);
      Primary(rows, ys, system)
  }

  /** Nobody qualified, and superseded by nobody, is passed over for the chosen standby. */
  lemma StandbyIsOldest(rows: seq<Row>, system: string, primary: nat, keep: Row -> bool, chosen: nat, x: nat)
    requires Standby(rows, system, primary, keep) == Some(chosen)
    requires x in ResidentsOf(rows, system) && x != primary && keep(rows[x]) && !Superseded(rows, All(|rows|), x)
    ensures x == chosen || Prec(rows, chosen, x)
  {
    var ys := Among(rows, ResidentsOf(rows, system), primary, keep);
    AllMembers(|rows|);
    FewerRowsRetireLess(rows, ys, All(|rows|));
    PrimaryIsLeast(rows, ys, system, chosen);
    assert x in ys;
  }

  function PrimaryOf(rows: seq<Row>, system: string): (p: Option<nat>)
    ensures p.Some? ==> p.value < |rows|
  {
    AllMembers(|rows|);
    Primary(rows, All(|rows|), system)
  }

  /** reconcile_missing_roster, with the rows it changed. */
  function ReconcileMissing(rows: seq<Row>, system: string, now: real): Moved {
    var primary := PrimaryOf(rows, system);
    if primary.None? || !RosterMissing(rows[primary.value], now) then Moved(rows, [])
    else
      var chosen := Standby(rows, system, primary.value, Keeps(now, true));
      if chosen.None? then Moved(rows, [])
      else Displace(rows, ResidentsOf(rows, system), system, chosen.value, Some(ROSTER_MISSING))
  }

  /**
    A missing roster only ever promotes a standby that still sees hostiles and reads their names, and
    that standby becomes primary unless a window has superseded it as a legacy parent.
   */
  lemma MissingRosterPromotesProven(rows: seq<Row>, system: string, now: real, primary: nat, chosen: nat)
    requires PrimaryOf(rows, system) == Some(primary) && RosterMissing(rows[primary], now)
    requires Standby(rows, system, primary, Keeps(now, true)) == Some(chosen)
    ensures Icons(rows[chosen]) > 0 && HasRoster(rows[chosen], now)
    ensures var m := ReconcileMissing(rows, system, now);
            && Safe(rows, ResidentsOf(rows, system), chosen, m)
            && (PrimaryOf(m.rows, system) == Some(chosen) <==>
                !Superseded(rows, All(|rows|), chosen))
  {
    AllMembers(|rows|);
    DisplaceIsSafe(rows, ResidentsOf(rows, system), system, chosen, Some(ROSTER_MISSING));
    TakeoverElectsChosen(rows, ResidentsOf(rows, system), system, chosen, Some(ROSTER_MISSING));
  }

  // ---------------------------------------------------------- roster quality

  predicate Owns(r: Row, client: string, system: string) {
    Resident(r) && r.info.clientId == Some(client) && r.info.system == system
  }

  function FirstOwned(rows: seq<Row>, client: string, system: string, from: nat): (r: Option<nat>)
    requires from <= |rows|
    ensures r.Some? ==> from <= r.value < |rows| && Owns(rows[r.value], client, system)
                        && forall i :: from <= i < r.value ==> !Owns(rows[i], client, system)
    ensures r.None? ==> forall i :: from <= i < |rows| ==> !Owns(rows[i], client, system)
    decreases |rows| - from
  {
    if from == |rows| then None
    else if Owns(rows[from], client, system) then Some(from)
    else FirstOwned(rows, client, system, from + 1)
  }

  function LastFive<T>(s: seq<T>): seq<T> {
    if |s| <= 5 then s else s[|s| - 5..]
  }

  function Sampled(r: Row, capture: Capture, hasNames: Option<bool>, now: real): Row {
    var quality := if hasNames == Some(false) then Unknown else capture.quality;
    UpdateWait(
      SetRoster(r, r.info.roster.(
        samples := LastFive(r.info.roster.samples + [(capture.sequence, quality)]),
        fingerprint := Some(capture.fingerprint),
        hasNames := if hasNames.Some? then hasNames.value else capture.quality == Complete,
        observedAt := now)),
      now)
  }

  function Truncations(samples: seq<(int, Quality)>): nat {
    if samples == [] then 0
    else Truncations(samples[..|samples| - 1]) + if samples[|samples| - 1].1 == Truncated then 1 else 0
  }

  /** A standby that shows a confirmed clear, or reads the picture it shows completely. */
  predicate CanReplace(r: Row, now: real) {
    && (r.info.iconCount == Some(0) || (LastQuality(r) == Complete && r.info.roster.fingerprint == CapturePrint(r)))
    && now - r.info.captureReceivedAt <= CAPTURE_LEASE_SECONDS
  }

  function ReplaceTruncated(rows: seq<Row>, system: string, now: real): Moved {
    var primary := PrimaryOf(rows, system);
    if primary.None? || Truncations(rows[primary.value].info.roster.samples) < 3 then Moved(rows, [])
    else
      var chosen := Standby(rows, system, primary.value, Keeps(now, false));
      if chosen.None? then Moved(rows, [])
      else Displace(rows, ResidentsOf(rows, system), system, chosen.value, None)
  }

  /** The takeovers in their order, as recording tries them. */
  function Takeovers(rows: seq<Row>, system: string, now: real): Moved {
    var m := ReconcileMissing(rows, system, now);
    if m.displaced != [] then m else ReplaceTruncated(rows, system, now)
  }

  /** The row a result belongs to, if it is newer than that row's last sample. */
  function WhichSample(rows: seq<Row>, client: string, system: string, capture: Option<Capture>): (k: Option<nat>)
    ensures k.Some? ==> k.value < |rows| && capture.Some?
  {
    var i := FirstOwned(rows, client, system, 0);
    if capture.None? || i.None? then None
    else
      var samples := rows[i.value].info.roster.samples;
      if samples != [] && capture.value.sequence <= samples[|samples| - 1].0 then None else i
  }

  /** record_roster_quality: the new table and whether the presence row was sampled. */
  function RecordQuality(rows: seq<Row>, client: string, system: string, capture: Option<Capture>, hasNames: Option<bool>,
                         now: real): (Moved, Option<nat>)
  {
    var k := WhichSample(rows, client, system, capture);
    if k.None? then (Moved(rows, []), None)
    else (Takeovers(rows[k.value := Sampled(rows[k.value], capture.value, hasNames, now)], system, now), k)
  }

  /** A repeatedly truncated primary yields only to a fresh standby that is clear or reads completely. */
  lemma TruncatedYieldsToGood(rows: seq<Row>, system: string, now: real, primary: nat, chosen: nat)
    requires PrimaryOf(rows, system) == Some(primary) && Truncations(rows[primary].info.roster.samples) >= 3
    requires Standby(rows, system, primary, Keeps(now, false)) == Some(chosen)
    ensures CanReplace(rows[chosen], now)
    ensures var m := ReplaceTruncated(rows, system, now);
            && Safe(rows, ResidentsOf(rows, system), chosen, m)
            && (PrimaryOf(m.rows, system) == Some(chosen) <==>
                !Superseded(rows, All(|rows|), chosen))
  {
    AllMembers(|rows|);
    DisplaceIsSafe(rows, ResidentsOf(rows, system), system, chosen, None);
    TakeoverElectsChosen(rows, ResidentsOf(rows, system), system, chosen, None);
  }

  // ------------------------------------- what recording a result comes to

  /** Hostiles without readable names for 15 s and three frames. */
  ghost predicate Waited(r: Row, now: real) {
    && r.info.iconCount.Some? && r.info.iconCount.value > 0
    && r.info.roster.missingSince.Some? && now - r.info.roster.missingSince.value >= 15.0
    && r.info.roster.missingFrames >= 3
  }

  /** The last result was complete, and of the picture now shown. */
  ghost predicate ReadsPicture(r: Row) {
    && r.info.roster.samples != [] && r.info.roster.samples[|r.info.roster.samples| - 1].1 == Complete
    && (if r.info.capture.Some? then r.info.roster.fingerprint == Some(r.info.capture.value.fingerprint)
        else r.info.roster.fingerprint.None?)
  }

  /** A standby for missing names, or for a primary whose reads are cut off. */
  ghost predicate Qualified(r: Row, now: real, reading: bool) {
    if reading then
      && r.info.iconCount.Some? && r.info.iconCount.value > 0 && r.info.roster.hasNames && ReadsPicture(r)
      && 0.0 <= now - r.info.captureReceivedAt <= 45.0 && 0.0 <= now - r.info.roster.observedAt <= 45.0
    else
      (r.info.iconCount == Some(0) || ReadsPicture(r)) && now - r.info.captureReceivedAt <= 45.0
  }

  ghost predicate ThreeTruncated(r: Row) {
    ThreeIn(r.info.roster.samples)
  }

  ghost predicate CanServe(rows: seq<Row>, system: string, primary: nat, now: real, reading: bool, x: nat) {
    x < |rows| && x != primary && Resident(rows[x]) && rows[x].info.system == system && Qualified(rows[x], now, reading)
  }

  /** Some qualified standby is a window of this row's machine. */
  ghost predicate Outlived(rows: seq<Row>, system: string, primary: nat, now: real, reading: bool, x: nat)
    requires x < |rows|
  {
    exists w: nat :: CanServe(rows, system, primary, now, reading, w) && Evidence(rows[w])
                     && rows[x].info.clientId == ParentOf(ClientText(rows[w]))
  }

  /** The oldest qualified standby. */
  ghost predicate OldestServing(rows: seq<Row>, system: string, primary: nat, now: real, reading: bool, c: nat) {
    && CanServe(rows, system, primary, now, reading, c) && !Outlived(rows, system, primary, now, reading, c)
    && forall x: nat :: CanServe(rows, system, primary, now, reading, x) && !Outlived(rows, system, primary, now, reading, x) ==>
         x == c || Prec(rows, c, x)
  }

  ghost predicate NoneServing(rows: seq<Row>, system: string, primary: nat, now: real, reading: bool) {
    forall x: nat :: !CanServe(rows, system, primary, now, reading, x)
  }

  lemma KeepsQualified(r: Row, now: real, reading: bool)
    ensures Keeps(now, reading)(r) <==> Qualified(r, now, reading)
  {
  }

  lemma ServingAmong(rows: seq<Row>, system: string, primary: nat, now: real, reading: bool, x: nat)
    ensures var ys := Among(rows, ResidentsOf(rows, system), primary, Keeps(now, reading));
            && (x in ys <==> CanServe(rows, system, primary, now, reading, x))
            && (x in ys ==> x < |rows| && (Superseded(rows, ys, x) <==> Outlived(rows, system, primary, now, reading, x)))
  {
    var ys := Among(rows, ResidentsOf(rows, system), primary, Keeps(now, reading));
    forall w: nat ensures w in ys <==> CanServe(rows, system, primary, now, reading, w) {
      if w < |rows| {
        KeepsQualified(rows[w], now, reading);
      }
    }
  }

  /** The chosen standby, told without the election. */
  lemma StandbyMeans(rows: seq<Row>, system: string, primary: nat, now: real, reading: bool)
    ensures var chosen := Standby(rows, system, primary, Keeps(now, reading));
            && (chosen.None? <==> NoneServing(rows, system, primary, now, reading))
            && forall c: nat :: chosen == Some(c) <==> OldestServing(rows, system, primary, now, reading, c)
  {
    var ys := Among(rows, ResidentsOf(rows, system), primary, Keeps(now, reading));
    var chosen := Standby(rows, system, primary, Keeps(now, reading));
    forall x: nat
      ensures x in ys <==> CanServe(rows, system, primary, now, reading, x)
      ensures x in ys ==> x < |rows| && (Superseded(rows, ys, x) <==> Outlived(rows, system, primary, now, reading, x))
    {
      ServingAmong(rows, system, primary, now, reading, x);
    }
    if ys != [] {
      assert ys[0] in ys;
      ResidentsHavePrimary(rows, ys, system);
      forall c: nat ensures chosen == Some(c) <==> OldestServing(rows, system, primary, now, reading, c) {
        PrimaryIsLeast(rows, ys, system, c);
      }
    }
  }

  ghost predicate OneIn(samples: seq<(int, Quality)>) {
    exists i :: 0 <= i < |samples| && samples[i].1 == Truncated
  }

  ghost predicate TwoIn(samples: seq<(int, Quality)>) {
    exists j :: 0 <= j < |samples| && samples[j].1 == Truncated && OneIn(samples[..j])
  }

  /** Three samples, one after another, that were cut off. */
  ghost predicate ThreeIn(samples: seq<(int, Quality)>) {
    exists k :: 0 <= k < |samples| && samples[k].1 == Truncated && TwoIn(samples[..k])
  }

  lemma {:induction false} OneTruncated(samples: seq<(int, Quality)>)
    ensures Truncations(samples) >= 1 <==> OneIn(samples)
  {
    if samples != [] {
      OneTruncated(samples[..|samples| - 1]);
    }
  }

  lemma {:induction false} TwoTruncated(samples: seq<(int, Quality)>)
    ensures Truncations(samples) >= 2 <==> TwoIn(samples)
  {
    if samples != [] {
      var init, n := samples[..|samples| - 1], |samples| - 1;
      TwoTruncated(init);
      OneTruncated(init);
      assert forall j :: 0 <= j < n ==> init[j] == samples[j] && init[..j] == samples[..j];
    }
  }

  lemma {:induction false} ThreeTruncations(samples: seq<(int, Quality)>)
    ensures Truncations(samples) >= 3 <==> ThreeIn(samples)
  {
    if samples != [] {
      var init, n := samples[..|samples| - 1], |samples| - 1;
      ThreeTruncations(init);
      TwoTruncated(init);
      assert forall k :: 0 <= k < n ==> init[k] == samples[k] && init[..k] == samples[..k];
    }
  }

  // ---- the outcome

  /** Row x was sent to the back of the queue. */
  ghost predicate Sent(rows: seq<Row>, out: seq<Row>, x: nat)
    requires |rows| == |out|
  {
    x < |rows| && out[x].joinOrder != rows[x].joinOrder
  }

  /** The oldest qualified standby c takes over, unless a window has superseded it. */
  ghost predicate TakenOver(rows: seq<Row>, out: seq<Row>, system: string, c: nat)
    requires c < |rows|
  {
    PrimaryOf(out, system) == Some(c) <==> !Superseded(rows, All(|rows|), c)
  }

  /**
    What a recorded result does to the authority over a system. `rows` is the table with the new sample. Missing
    names are looked at first, then cut-off reads; without a reason and a standby for it nothing is sent back.
   */
  ghost predicate Reconciled(rows: seq<Row>, out: seq<Row>, system: string, now: real) {
    && OnlyRequeued(rows, out)
    && (PrimaryOf(rows, system).None? ==> out == rows)
    && (PrimaryOf(rows, system).Some? ==>
          var p := PrimaryOf(rows, system).value;
          var missing := Waited(rows[p], now) && !NoneServing(rows, system, p, now, true);
          var cutOff := ThreeTruncated(rows[p]) && !NoneServing(rows, system, p, now, false);
          && (missing ==> forall c: nat :: OldestServing(rows, system, p, now, true, c) && !Superseded(rows, All(|rows|), c) ==>
                TakenOver(rows, out, system, c) && forall x: nat :: Sent(rows, out, x) ==> out[x].changeReason == "roster_missing")
          && (!missing && cutOff ==> forall c: nat :: OldestServing(rows, system, p, now, false, c) ==>
                TakenOver(rows, out, system, c) && forall x: nat :: x < |rows| ==> out[x].changeReason == rows[x].changeReason)
          && (!missing && !cutOff ==> out == rows))
  }

  /** Whoever is sent back is displaced, and the other way round. */
  lemma SentAreDisplaced(rows: seq<Row>, xs: seq<nat>, chosen: nat, m: Moved)
    requires Safe(rows, xs, chosen, m) && Indices(rows, xs)
    ensures forall x: nat :: x in m.displaced <==> Sent(rows, m.rows, x)
  {
    forall x: nat ensures x in m.displaced <==> Sent(rows, m.rows, x) {
      if x < |rows| {
        MaxOrderBounds(rows, x);
      }
    }
  }

  ghost predicate ReasonsGiven(rows: seq<Row>, m: Moved, reason: Option<string>)
    requires |rows| == |m.rows|
  {
    forall x: nat :: x in m.displaced && x < |rows| ==>
      m.rows[x].changeReason == if reason.Some? then reason.value else rows[x].changeReason
  }

  lemma {:induction false} DisplaceGivesReasons(rows: seq<Row>, xs: seq<nat>, system: string, chosen: nat, reason: Option<string>)
    requires Residents(rows, xs, system) && chosen in xs
    ensures |Displace(rows, xs, system, chosen, reason).rows| == |rows|
    ensures ReasonsGiven(rows, Displace(rows, xs, system, chosen, reason), reason)
    decreases |xs|
  {
    var d := DisplaceStep(rows, xs, system, chosen, reason);
    DisplaceIsSafe(rows, xs, system, chosen, reason);
    if d != chosen {
      var next, rest := Requeue(rows, d, reason), Drop(xs, d);
      DropKeepsRest(xs, d);
      DisplaceGivesReasons(next, rest, system, chosen, reason);
      DisplaceIsSafe(next, rest, system, chosen, reason);
    }
  }

  /** A takeover by an unsuperseded standby moves somebody: the old primary at least. */
  lemma UnsupersededDisplaces(rows: seq<Row>, system: string, primary: nat, chosen: nat, reason: Option<string>)
    requires PrimaryOf(rows, system) == Some(primary) && chosen in ResidentsOf(rows, system) && chosen != primary
    requires chosen < |rows| && !Superseded(rows, All(|rows|), chosen)
    ensures Displace(rows, ResidentsOf(rows, system), system, chosen, reason).displaced != []
  {
    TakeoverElectsChosen(rows, ResidentsOf(rows, system), system, chosen, reason);
    var d := DisplaceStep(rows, ResidentsOf(rows, system), system, chosen, reason);
  }

  lemma MissingTakesOver(rows: seq<Row>, system: string, now: real, p: nat, c: nat)
    requires PrimaryOf(rows, system) == Some(p) && Waited(rows[p], now) && OldestServing(rows, system, p, now, true, c)
    requires !Superseded(rows, All(|rows|), c)
    ensures var m := Takeovers(rows, system, now);
            && m == ReconcileMissing(rows, system, now) && |m.rows| == |rows| && ReasonsGiven(rows, m, Some("roster_missing"))
            && PrimaryOf(m.rows, system) == Some(c)
  {
    StandbyMeans(rows, system, p, now, true);
    MissingRosterPromotesProven(rows, system, now, p, c);
    UnsupersededDisplaces(rows, system, p, c, Some(ROSTER_MISSING));
    DisplaceGivesReasons(rows, ResidentsOf(rows, system), system, c, Some(ROSTER_MISSING));
  }

  lemma CutOffTakesOver(rows: seq<Row>, system: string, now: real, p: nat, c: nat)
    requires PrimaryOf(rows, system) == Some(p) && (Waited(rows[p], now) ==> NoneServing(rows, system, p, now, true))
    requires ThreeTruncated(rows[p]) && OldestServing(rows, system, p, now, false, c)
    ensures var m := Takeovers(rows, system, now);
            && m == ReplaceTruncated(rows, system, now) && |m.rows| == |rows| && ReasonsGiven(rows, m, None)
            && TakenOver(rows, m.rows, system, c)
  {
    StandbyMeans(rows, system, p, now, true);
    StandbyMeans(rows, system, p, now, false);
    ThreeTruncations(rows[p].info.roster.samples);
    assert Takeovers(rows, system, now) == ReplaceTruncated(rows, system, now);
    CutOffElects(rows, system, now, p, c);
  }

  lemma CutOffElects(rows: seq<Row>, system: string, now: real, p: nat, c: nat)
    requires PrimaryOf(rows, system) == Some(p) && Truncations(rows[p].info.roster.samples) >= 3
    requires Standby(rows, system, p, Keeps(now, false)) == Some(c)
    ensures var m := ReplaceTruncated(rows, system, now);
            |m.rows| == |rows| && ReasonsGiven(rows, m, None) && TakenOver(rows, m.rows, system, c)
  {
    TruncatedYieldsToGood(rows, system, now, p, c);
    DisplaceGivesReasons(rows, ResidentsOf(rows, system), system, c, None);
  }

  lemma NothingToTakeOver(rows: seq<Row>, system: string, now: real, p: nat)
    requires PrimaryOf(rows, system) == Some(p)
    requires Waited(rows[p], now) ==> NoneServing(rows, system, p, now, true)
    requires ThreeTruncated(rows[p]) ==> NoneServing(rows, system, p, now, false)
    ensures Takeovers(rows, system, now) == Moved(rows, [])
  {
    StandbyMeans(rows, system, p, now, true);
    StandbyMeans(rows, system, p, now, false);
    ThreeTruncations(rows[p].info.roster.samples);
  }

  /** Both takeovers write orders and reasons only, and report exactly whom they send back. */
  lemma MissingReportsSent(rows: seq<Row>, system: string, now: real)
    ensures var m := ReconcileMissing(rows, system, now);
            OnlyRequeued(rows, m.rows) && forall x: nat :: x in m.displaced <==> Sent(rows, m.rows, x)
  {
    var primary := PrimaryOf(rows, system);
    if primary.Some? {
      var chosen := Standby(rows, system, primary.value, Keeps(now, true));
      if chosen.Some? {
        DisplaceIsSafe(rows, ResidentsOf(rows, system), system, chosen.value, Some(ROSTER_MISSING));
        SentAreDisplaced(rows, ResidentsOf(rows, system), chosen.value,
                         Displace(rows, ResidentsOf(rows, system), system, chosen.value, Some(ROSTER_MISSING)));
      }
    }
  }

  lemma CutOffReportsSent(rows: seq<Row>, system: string, now: real)
    ensures var m := ReplaceTruncated(rows, system, now);
            OnlyRequeued(rows, m.rows) && forall x: nat :: x in m.displaced <==> Sent(rows, m.rows, x)
  {
    var primary := PrimaryOf(rows, system);
    if primary.Some? {
      var chosen := Standby(rows, system, primary.value, Keeps(now, false));
      if chosen.Some? {
        DisplaceIsSafe(rows, ResidentsOf(rows, system), system, chosen.value, None);
        SentAreDisplaced(rows, ResidentsOf(rows, system), chosen.value,
                         Displace(rows, ResidentsOf(rows, system), system, chosen.value, None));
      }
    }
  }

  lemma TakeoversReportSent(rows: seq<Row>, system: string, now: real)
    ensures var m := Takeovers(rows, system, now);
            OnlyRequeued(rows, m.rows) && forall x: nat :: x in m.displaced <==> Sent(rows, m.rows, x)
  {
    MissingReportsSent(rows, system, now);
    CutOffReportsSent(rows, system, now);
  }

  lemma MissingReconciles(rows: seq<Row>, system: string, now: real, p: nat, c: nat)
    requires PrimaryOf(rows, system) == Some(p) && Waited(rows[p], now) && OldestServing(rows, system, p, now, true, c)
    requires !Superseded(rows, All(|rows|), c)
    ensures var out := Takeovers(rows, system, now).rows;
            && OnlyRequeued(rows, out) && TakenOver(rows, out, system, c)
            && forall x: nat :: Sent(rows, out, x) ==> out[x].changeReason == "roster_missing"
  {
    TakeoversReportSent(rows, system, now);
    MissingTakesOver(rows, system, now, p, c);
  }

  lemma CutOffReconciles(rows: seq<Row>, system: string, now: real, p: nat, c: nat)
    requires PrimaryOf(rows, system) == Some(p) && (Waited(rows[p], now) ==> NoneServing(rows, system, p, now, true))
    requires ThreeTruncated(rows[p]) && OldestServing(rows, system, p, now, false, c)
    ensures var out := Takeovers(rows, system, now).rows;
            && OnlyRequeued(rows, out) && TakenOver(rows, out, system, c)
            && forall x: nat :: x < |rows| ==> out[x].changeReason == rows[x].changeReason
  {
    TakeoversReportSent(rows, system, now);
    CutOffTakesOver(rows, system, now, p, c);
    StandbyMeans(rows, system, p, now, false);
    DisplaceIsSafe(rows, ResidentsOf(rows, system), system, c, None);
  }

  /** Recording's takeovers do what the conditions say. */
  lemma TakeoversReconcile(rows: seq<Row>, system: string, now: real)
    ensures Reconciled(rows, Takeovers(rows, system, now).rows, system, now)
  {
    TakeoversReportSent(rows, system, now);
    var primary := PrimaryOf(rows, system);
    if primary.Some? {
      var p := primary.value;
      var missing := Waited(rows[p], now) && !NoneServing(rows, system, p, now, true);
      var cutOff := ThreeTruncated(rows[p]) && !NoneServing(rows, system, p, now, false);
      if missing {
        forall c: nat | OldestServing(rows, system, p, now, true, c) && !Superseded(rows, All(|rows|), c)
          ensures var out := Takeovers(rows, system, now).rows;
                  TakenOver(rows, out, system, c) && forall x: nat :: Sent(rows, out, x) ==> out[x].changeReason == "roster_missing"
        {
          MissingReconciles(rows, system, now, p, c);
        }
      } else if cutOff {
        forall c: nat | OldestServing(rows, system, p, now, false, c)
          ensures var out := Takeovers(rows, system, now).rows;
                  TakenOver(rows, out, system, c) && forall x: nat :: x < |rows| ==> out[x].changeReason == rows[x].changeReason
        {
          CutOffReconciles(rows, system, now, p, c);
        }
      } else {
        NothingToTakeOver(rows, system, now, p);
      }
    }
  }

  // ---- the sample

  /** The result belongs to row k: the client's first resident in the system, and newer than its last sample. */
  ghost predicate Samples(rows: seq<Row>, client: string, system: string, capture: Option<Capture>, k: nat) {
    && capture.Some? && k < |rows|
    && Resident(rows[k]) && rows[k].info.clientId == Some(client) && rows[k].info.system == system
    && (forall j :: 0 <= j < k ==> !(Resident(rows[j]) && rows[j].info.clientId == Some(client) && rows[j].info.system == system))
    && (rows[k].info.roster.samples == []
        || rows[k].info.roster.samples[|rows[k].info.roster.samples| - 1].0 < capture.value.sequence)
  }

  /** The sample is the last of at most five, and says what picture it was of, when, and whether it had names. */
  ghost predicate SampleAdded(r: Row, capture: Capture, hasNames: Option<bool>, now: real, out: Row) {
    var all := r.info.roster.samples + [(capture.sequence, if hasNames == Some(false) then Unknown else capture.quality)];
    var o, w := out.info.roster, r.info.roster;
    && out == r.(info := r.info.(roster := o))
    && |o.samples| == MinInt(5, |all|)
    && (forall j :: 0 <= j < |o.samples| ==> o.samples[j] == all[|all| - |o.samples| + j])
    && o.fingerprint == Some(capture.fingerprint) && o.observedAt == now
    && o.hasNames == (if hasNames.Some? then hasNames.value else capture.quality == Complete)
    && o.missingSince == w.missingSince && o.missingFrames == w.missingFrames && o.waitSequence == w.waitSequence
  }

  /** The wait of a row after a look at its picture. */
  ghost predicate WaitMoved(r: Row, now: real, out: Row) {
    var o, w := out.info.roster, r.info.roster;
    if r.info.capture.None? || (w.hasNames && w.fingerprint == Some(r.info.capture.value.fingerprint)) then
      out == r.(info := r.info.(roster := w.(missingSince := None, missingFrames := 0, waitSequence := 0)))
    else
      && out == r.(info := r.info.(roster := o))
      && o == w.(missingSince := o.missingSince, missingFrames := o.missingFrames, waitSequence := o.waitSequence)
      && o.missingSince == (if w.missingSince.Some? then w.missingSince else Some(now))
      && (if r.info.capture.value.sequence > w.waitSequence
          then o.missingFrames == w.missingFrames + 1 && o.waitSequence == r.info.capture.value.sequence
          else o.missingFrames == w.missingFrames && o.waitSequence == w.waitSequence)
  }

  /** What row r becomes: sampled, and then looked at for missing names; a row without hostiles forgets it all. */
  ghost predicate SampleTaken(r: Row, capture: Capture, hasNames: Option<bool>, now: real, out: Row) {
    if r.info.iconCount.None? || r.info.iconCount.value <= 0 then
      out == r.(info := r.info.(roster := Roster(false, [], None, 0.0, None, 0, 0)))
    else exists mid :: SampleAdded(r, capture, hasNames, now, mid) && WaitMoved(mid, now, out)
  }

  lemma UpdateWaitMeans(r: Row, now: real)
    ensures if r.info.iconCount.None? || r.info.iconCount.value <= 0
            then UpdateWait(r, now) == r.(info := r.info.(roster := Roster(false, [], None, 0.0, None, 0, 0)))
            else WaitMoved(r, now, UpdateWait(r, now))
  {
  }

  lemma SampledMeans(r: Row, capture: Capture, hasNames: Option<bool>, now: real)
    ensures SampleTaken(r, capture, hasNames, now, Sampled(r, capture, hasNames, now))
  {
    var all := r.info.roster.samples + [(capture.sequence, if hasNames == Some(false) then Unknown else capture.quality)];
    var mid := SetRoster(r, r.info.roster.(
      samples := LastFive(all), fingerprint := Some(capture.fingerprint),
      hasNames := if hasNames.Some? then hasNames.value else capture.quality == Complete, observedAt := now));
    assert SampleAdded(r, capture, hasNames, now, mid);
    UpdateWaitMeans(mid, now);
  }

  /**
    record_roster_quality, told over the tables: a result that is no news changes nothing; otherwise its row is
    sampled, the authority is reconciled, and exactly that row and whoever was sent back are reported.
   */
  ghost predicate Recorded(rows: seq<Row>, client: string, system: string, capture: Option<Capture>, hasNames: Option<bool>,
                           now: real, out: seq<Row>, changed: seq<nat>)
  {
    && ((forall k: nat :: !Samples(rows, client, system, capture, k)) ==> out == rows && changed == [])
    && (forall k: nat :: Samples(rows, client, system, capture, k) ==>
          RecordedAt(rows, system, capture.value, hasNames, now, out, changed, k))
  }

  ghost predicate RecordedAt(rows: seq<Row>, system: string, capture: Capture, hasNames: Option<bool>, now: real,
                             out: seq<Row>, changed: seq<nat>, k: nat)
    requires k < |rows|
  {
    exists row :: SampleTaken(rows[k], capture, hasNames, now, row) && ReportedFrom(rows[k := row], system, now, out, changed, k)
  }

  ghost predicate ReportedFrom(next: seq<Row>, system: string, now: real, out: seq<Row>, changed: seq<nat>, k: nat) {
    && Reconciled(next, out, system, now)
    && changed != [] && changed[0] == k
    && forall x: nat :: x in changed <==> x == k || Sent(next, out, x)
  }

  lemma SamplesIsFirst(rows: seq<Row>, client: string, system: string, capture: Option<Capture>, k: nat)
    requires Samples(rows, client, system, capture, k)
    ensures WhichSample(rows, client, system, capture) == Some(k)
  {
    assert Owns(rows[k], client, system);
    assert forall j :: 0 <= j < k ==> !Owns(rows[j], client, system);
  }

  lemma TakeoversReported(next: seq<Row>, system: string, now: real, changed: seq<nat>, k: nat)
    requires changed != [] && changed[0] == k
    requires forall x :: x in changed <==> x == k || x in Takeovers(next, system, now).displaced
    ensures ReportedFrom(next, system, now, Takeovers(next, system, now).rows, changed, k)
  {
    TakeoversReconcile(next, system, now);
    TakeoversReportSent(next, system, now);
  }

  lemma ReportedMeans(rows: seq<Row>, system: string, capture: Capture, hasNames: Option<bool>, now: real, out: seq<Row>,
                      changed: seq<nat>, k: nat, row: Row)
    requires k < |rows| && SampleTaken(rows[k], capture, hasNames, now, row)
    requires ReportedFrom(rows[k := row], system, now, out, changed, k)
    ensures RecordedAt(rows, system, capture, hasNames, now, out, changed, k)
  {
  }

  lemma RecordMeansAt(rows: seq<Row>, system: string, capture: Capture, hasNames: Option<bool>, now: real, changed: seq<nat>, k: nat,
                      m: Moved)
    requires k < |rows| && m == Takeovers(rows[k := Sampled(rows[k], capture, hasNames, now)], system, now)
    requires changed != [] && changed[0] == k && forall x :: x in changed <==> x == k || x in m.displaced
    ensures RecordedAt(rows, system, capture, hasNames, now, m.rows, changed, k)
  {
    var row := Sampled(rows[k], capture, hasNames, now);
    SampledMeans(rows[k], capture, hasNames, now);
    TakeoversReported(rows[k := row], system, now, changed, k);
    ReportedMeans(rows, system, capture, hasNames, now, m.rows, changed, k, row);
  }

  lemma WhichIsSampled(rows: seq<Row>, client: string, system: string, capture: Option<Capture>)
    ensures var k := WhichSample(rows, client, system, capture); k.Some? ==> Samples(rows, client, system, capture, k.value)
  {
  }

  /** The specification of recording means that. */
  lemma RecordMeans(rows: seq<Row>, client: string, system: string, capture: Option<Capture>, hasNames: Option<bool>, now: real,
                    changed: seq<nat>)
    requires var (m, sampled) := RecordQuality(rows, client, system, capture, hasNames, now);
             && (sampled.None? ==> changed == [])
             && (sampled.Some? ==> changed != [] && changed[0] == sampled.value
                                   && forall x :: x in changed <==> x == sampled.value || x in m.displaced)
    ensures Recorded(rows, client, system, capture, hasNames, now,
                     RecordQuality(rows, client, system, capture, hasNames, now).0.rows, changed)
  {
    WhichIsSampled(rows, client, system, capture);
    forall k: nat | Samples(rows, client, system, capture, k)
      ensures RecordedAt(rows, system, capture.value, hasNames, now,
                         RecordQuality(rows, client, system, capture, hasNames, now).0.rows, changed, k)
    {
      SamplesIsFirst(rows, client, system, capture, k);
      RecordMeansAt(rows, system, capture.value, hasNames, now, changed, k,
                    RecordQuality(rows, client, system, capture, hasNames, now).0);
    }
  }

  // ------------------------------------------------------- in-place methods

  /** What is done so far and what remains make up the whole takeover. */
  ghost predicate Progress(goal: Moved, rows: seq<Row>, remaining: seq<nat>, system: string, chosen: nat,
                           reason: Option<string>, displaced: seq<nat>)
  {
    && Residents(rows, remaining, system) && chosen in remaining
    && var m := Displace(rows, remaining, system, chosen, reason);
       goal == Moved(m.rows, displaced + m.displaced)
  }

  lemma ProgressTurn(goal: Moved, rows: seq<Row>, remaining: seq<nat>, system: string, chosen: nat,
                     reason: Option<string>, displaced: seq<nat>) returns (d: nat)
    requires Progress(goal, rows, remaining, system, chosen, reason, displaced)
    ensures d in remaining && d < |rows| && Primary(rows, remaining, system) == Some(d)
    ensures d == chosen ==> goal == Moved(rows, displaced)
    ensures d != chosen ==> |Drop(remaining, d)| < |remaining|
                            && Progress(goal, Requeue(rows, d, reason), Drop(remaining, d), system, chosen, reason, displaced + [d])
  {
    d := DisplaceStep(rows, remaining, system, chosen, reason);
    if d == chosen {
      assert displaced + [] == displaced;
    } else {
      Regroup(displaced, d, Displace(Requeue(rows, d, reason), Drop(remaining, d), system, chosen, reason).displaced);
    }
  }

  lemma Regroup(a: seq<nat>, d: nat, b: seq<nat>)
    ensures a + ([d] + b) == (a + [d]) + b
  {
  }

  method RequeueItem(items: seq<Presence>, d: nat, reason: Option<string>)
    requires Distinct(items) && d < |items|
    modifies items[d]
    ensures View(items) == Requeue(old(View(items)), d, reason)
  {
    items[d].row := items[d].row.(
      joinOrder := NextJoinOrder(View(items)),
      changeReason := if reason.Some? then reason.value else items[d].row.changeReason);
  }

  /** The while loop of both takeovers. */
  method DisplaceLoop(items: seq<Presence>, xs: seq<nat>, system: string, chosen: nat, reason: Option<string>)
    returns (displaced: seq<nat>)
    requires Distinct(items) && Residents(View(items), xs, system) && chosen in xs
    modifies items
    ensures Moved(View(items), displaced) == Displace(old(View(items)), xs, system, chosen, reason)
  {
    displaced := [];
    var remaining := xs;
    ghost var goal := Displace(View(items), xs, system, chosen, reason);
    assert displaced + goal.displaced == goal.displaced;
    ghost var next := ProgressTurn(goal, View(items), remaining, system, chosen, reason, displaced);
    while Primary(View(items), remaining, system) != Some(chosen)
      invariant Progress(goal, View(items), remaining, system, chosen, reason, displaced)
      invariant Primary(View(items), remaining, system) == Some(chosen) ==> goal == Moved(View(items), displaced)
      decreases |remaining|
    {
      next := ProgressTurn(goal, View(items), remaining, system, chosen, reason, displaced);
      var d := Primary(View(items), remaining, system).value;
      remaining := Drop(remaining, d);
      RequeueItem(items, d, reason);
      displaced := displaced + [d];
      next := ProgressTurn(goal, View(items), remaining, system, chosen, reason, displaced);
    }
  }

  method ReconcileMissingRoster(items: seq<Presence>, system: string, now: real) returns (changed: seq<nat>)
    requires Distinct(items)
    modifies items
    ensures Moved(View(items), changed) == ReconcileMissing(old(View(items)), system, now)
  {
    var rows := View(items);
    var primary := PrimaryOf(rows, system);
    if primary.None? || !RosterMissing(rows[primary.value], now) {
      return [];
    }
    var chosen := Standby(rows, system, primary.value, Keeps(now, true));
    if chosen.None? {
      return [];
    }
    changed := DisplaceLoop(items, ResidentsOf(rows, system), system, chosen.value, Some(ROSTER_MISSING));
  }

  /** record_roster_quality. */
  method RecordRosterQuality(items: seq<Presence>, client: string, system: string, capture: Option<Capture>,
                             hasNames: Option<bool>, now: real)
    returns (changed: seq<nat>)
    requires Distinct(items)
    modifies items
    ensures var (m, sampled) := RecordQuality(old(View(items)), client, system, capture, hasNames, now);
            && View(items) == m.rows
            && (sampled.None? ==> changed == [] && View(items) == old(View(items)))
            && (sampled.Some? ==> changed != [] && changed[0] == sampled.value
                                  && forall x :: x in changed <==> x == sampled.value || x in m.displaced)
    ensures Recorded(old(View(items)), client, system, capture, hasNames, now, View(items), changed)
  {
    ghost var before := View(items);
    changed := SampleAndReconcile(items, client, system, capture, hasNames, now);
    RecordMeans(before, client, system, capture, hasNames, now, changed);
  }

  method SampleAndReconcile(items: seq<Presence>, client: string, system: string, capture: Option<Capture>,
                            hasNames: Option<bool>, now: real)
    returns (changed: seq<nat>)
    requires Distinct(items)
    modifies items
    ensures var (m, sampled) := RecordQuality(old(View(items)), client, system, capture, hasNames, now);
            && View(items) == m.rows
            && (sampled.None? ==> changed == [] && View(items) == old(View(items)))
            && (sampled.Some? ==> changed != [] && changed[0] == sampled.value
                                  && forall x :: x in changed <==> x == sampled.value || x in m.displaced)
  {
    var k := FindSample(items, client, system, capture);
    if k.None? {
      return [];
    }
    TakeSample(items, k.value, capture.value, hasNames, now);
    var displaced := TryTakeovers(items, system, now);
    changed := Prepend(k.value, displaced);
  }

  method FindSample(items: seq<Presence>, client: string, system: string, capture: Option<Capture>) returns (k: Option<nat>)
    ensures k == WhichSample(View(items), client, system, capture)
  {
    var i := FirstOwned(View(items), client, system, 0);
    if capture.None? || i.None? {
      return None;
    }
    var samples := items[i.value].row.info.roster.samples;
    if samples != [] && capture.value.sequence <= samples[|samples| - 1].0 {
      return None;
    }
    k := i;
  }

  method TakeSample(items: seq<Presence>, i: nat, capture: Capture, hasNames: Option<bool>, now: real)
    requires Distinct(items) && i < |items|
    modifies items[i]
    ensures View(items) == old(View(items))[i := Sampled(old(items[i].row), capture, hasNames, now)]
  {
    items[i].row := Sampled(items[i].row, capture, hasNames, now);
  }

  method TryTakeovers(items: seq<Presence>, system: string, now: real) returns (displaced: seq<nat>)
    requires Distinct(items)
    modifies items
    ensures Moved(View(items), displaced) == Takeovers(old(View(items)), system, now)
  {
    NoDisplacementNoChange(View(items), system, now);
    displaced := ReconcileMissingRoster(items, system, now);
    if displaced == [] {
      displaced := ReplaceTruncatedPrimary(items, system, now);
    }
  }

  /** An empty list of displaced rows means an untouched table. */
  lemma NoDisplacementNoChange(rows: seq<Row>, system: string, now: real)
    ensures ReconcileMissing(rows, system, now).displaced == [] ==> ReconcileMissing(rows, system, now).rows == rows
  {
    var primary := PrimaryOf(rows, system);
    if primary.Some? {
      var chosen := Standby(rows, system, primary.value, Keeps(now, true));
      if chosen.Some? {
        DisplaceIsSafe(rows, ResidentsOf(rows, system), system, chosen.value, Some(ROSTER_MISSING));
      }
    }
  }

  method ReplaceTruncatedPrimary(items: seq<Presence>, system: string, now: real) returns (displaced: seq<nat>)
    requires Distinct(items)
    modifies items
    ensures Moved(View(items), displaced) == ReplaceTruncated(old(View(items)), system, now)
  {
    var rows := View(items);
    var primary := PrimaryOf(rows, system);
    if primary.None? || Truncations(rows[primary.value].info.roster.samples) < 3 {
      return [];
    }
    var chosen := Standby(rows, system, primary.value, Keeps(now, false));
    if chosen.None? {
      return [];
    }
    displaced := DisplaceLoop(items, ResidentsOf(rows, system), system, chosen.value, None);
  }

  method Prepend(first: nat, rest: seq<nat>) returns (changed: seq<nat>)
    ensures changed != [] && changed[0] == first
    ensures forall x :: x in changed <==> x == first || x in rest
  {
    changed := [first];
    var i := 0;
    while i < |rest|
      invariant 0 <= i <= |rest|
      invariant changed != [] && changed[0] == first
      invariant forall x :: x in changed <==> x == first || x in rest[..i]
    {
      if rest[i] != first {
        changed := changed + [rest[i]];
      }
      i := i + 1;
    }
  }

  // ------------------------------------------------------------- lease expiry

  predicate LeaseOver(r: Row, now: real) {
    Resident(r) && r.info.captureReceivedAt != 0.0 && now - r.info.captureReceivedAt > CAPTURE_LEASE_SECONDS
  }

  function StaleClients(rows: seq<Row>, now: real): set<Option<string>> {
    set i | 0 <= i < |rows| && LeaseOver(rows[i], now) :: rows[i].info.clientId
  }

  predicate Expires(r: Row, stale: set<Option<string>>) {
    r.info.detector && r.info.clientId in stale && (r.info.active || Resident(r))
  }

  function ExpireRow(r: Row, stale: set<Option<string>>): Row {
    if Expires(r, stale) then r.(info := r.info.(active := false, leftReason := "capture_stale")) else r
  }

  function Expire(rows: seq<Row>, now: real): (out: seq<Row>)
    ensures |out| == |rows| && forall i :: 0 <= i < |rows| ==> out[i] == ExpireRow(rows[i], StaleClients(rows, now))
  {
    seq(|rows|, i requires 0 <= i < |rows| => ExpireRow(rows[i], StaleClients(rows, now)))
  }

  /** No resident is left with a lease older than 45 seconds, and nobody new becomes resident. */
  lemma ExpiryIsComplete(rows: seq<Row>, now: real)
    ensures forall i :: 0 <= i < |rows| ==> !LeaseOver(Expire(rows, now)[i], now)
    ensures forall i :: 0 <= i < |rows| && Resident(Expire(rows, now)[i]) ==> Expire(rows, now)[i] == rows[i]
    ensures forall i :: 0 <= i < |rows| && Expire(rows, now)[i] != rows[i] ==>
              exists j :: 0 <= j < |rows| && LeaseOver(rows[j], now) && rows[j].info.clientId == rows[i].info.clientId
  {
    forall i | 0 <= i < |rows| && LeaseOver(rows[i], now) ensures rows[i].info.clientId in StaleClients(rows, now) {
    }
  }

  /**
    Exactly the active or resident detector rows of a client one of whose resident rows got its last capture
    more than 45 s ago turn inactive and say why; every other field, and every other row, stays.
   */
  lemma ExpiryMeans(rows: seq<Row>, now: real, i: nat)
    requires i < |rows|
    ensures var r, out := rows[i], Expire(rows, now)[i];
            if r.info.detector && (r.info.active || Resident(r))
               && exists j :: 0 <= j < |rows| && Resident(rows[j]) && rows[j].info.clientId == r.info.clientId
                              && rows[j].info.captureReceivedAt != 0.0 && now - rows[j].info.captureReceivedAt > 45.0
            then
              && !out.info.active && out.info.leftReason == "capture_stale" && !Resident(out)
              && out == r.(info := r.info.(active := out.info.active, leftReason := out.info.leftReason))
            else out == r
  {
  }

  lemma ExpiryIsIdempotent(rows: seq<Row>, now: real)
    ensures Expire(Expire(rows, now), now) == Expire(rows, now)
  {
    ExpiryIsComplete(rows, now);
    assert StaleClients(Expire(rows, now), now) == {};
  }

  function CountExpired(rows: seq<Row>, stale: set<Option<string>>): nat {
    if rows == [] then 0
    else CountExpired(rows[..|rows| - 1], stale) + if Expires(rows[|rows| - 1], stale) then 1 else 0
  }

  method ExpireCaptures(items: seq<Presence>, now: real) returns (changed: nat)
    requires Distinct(items)
    modifies items
    ensures View(items) == Expire(old(View(items)), now)
    ensures changed == CountExpired(old(View(items)), StaleClients(old(View(items)), now))
  {
    ghost var before := View(items);
    var stale := StaleClients(View(items), now);
    changed := 0;
    var i := 0;
    while i < |items|
      invariant 0 <= i <= |items|
      invariant forall n :: 0 <= n < i ==> items[n].row == ExpireRow(before[n], stale)
      invariant forall n :: i <= n < |items| ==> items[n].row == before[n]
      invariant changed == CountExpired(before[..i], stale)
    {
      assert before[..i + 1][..i] == before[..i];
      var item := items[i];
      if Expires(item.row, stale) {
        changed := changed + 1;
      }
      item.row := ExpireRow(item.row, stale);
      i := i + 1;
    }
    assert before[..i] == before;
  }
}
