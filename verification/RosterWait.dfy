/** What the roster bookkeeping of app/server/capture_state.py counts over a run of frames. */
module RosterWait {
  import opened Common
  import opened SourceAuthority
  import opened Takeover
  import opened CaptureState

  /** An accepted frame that shows hostiles, and when it came. */
  datatype Frame = Frame(capture: Capture, now: real)

  function Show(r: Row, f: Frame): Row {
    UpdateWait(r.(info := r.info.(capture := Some(f.capture))), f.now)
  }

  function ShowAll(r: Row, frames: seq<Frame>): Row {
    if frames == [] then r else Show(ShowAll(r, frames[..|frames| - 1]), frames[|frames| - 1])
  }

  /** No frame of the run has matching names. */
  ghost predicate Unread(r: Row, frames: seq<Frame>) {
    Icons(r) > 0 && forall i :: 0 <= i < |frames| ==>
      !(r.info.roster.hasNames && r.info.roster.fingerprint == Some(frames[i].capture.fingerprint))
  }

  /** Frames newer than every one before them, and than `floor`. */
  function NewFrames(floor: int, frames: seq<Frame>): nat {
    if frames == [] then 0
    else
      var init, last := frames[..|frames| - 1], frames[|frames| - 1];
      NewFrames(floor, init) + if last.capture.sequence > Highest(floor, init) then 1 else 0
  }

  function Highest(floor: int, frames: seq<Frame>): int {
    if frames == [] then floor else MaxInt(Highest(floor, frames[..|frames| - 1]), frames[|frames| - 1].capture.sequence)
  }

  /** A waiting row counts exactly the new frames since names were last readable, from the first of them on. */
  lemma {:induction false} WaitCountsNewFrames(r: Row, frames: seq<Frame>)
    requires Unread(r, frames) && frames != []
    ensures var o, p := r.info.roster, ShowAll(r, frames).info.roster;
            && p.missingFrames == o.missingFrames + NewFrames(o.waitSequence, frames)
            && p.waitSequence == Highest(o.waitSequence, frames)
            && p.missingSince == (if o.missingSince.Some? then o.missingSince else Some(frames[0].now))
    ensures var u := ShowAll(r, frames);
            && u.info.iconCount == r.info.iconCount && u.info.capture == Some(frames[|frames| - 1].capture)
            && u.info.roster.hasNames == r.info.roster.hasNames && u.info.roster.fingerprint == r.info.roster.fingerprint
  {
    var init := frames[..|frames| - 1];
    if init == [] {
      assert ShowAll(r, init) == r && frames == [frames[0]];
    } else {
      WaitCountsNewFrames(r, init);
    }
  }

  lemma {:induction false} NewFramesAtMost(floor: int, frames: seq<Frame>)
    ensures NewFrames(floor, frames) <= |frames|
  {
    if frames != [] {
      NewFramesAtMost(floor, frames[..|frames| - 1]);
    }
  }

  /**
    A roster counts as missing only after at least three frames newer than all before them, without
    matching names, over at least 15 s: upload retries alone never get there.
   */
  lemma MissingNeedsThreeFrames(r: Row, frames: seq<Frame>, now: real)
    requires Unread(r, frames) && frames != []
    requires r.info.roster.missingSince.None? && r.info.roster.missingFrames == 0 && r.info.roster.waitSequence == 0
    ensures RosterMissing(ShowAll(r, frames), now) <==>
            NewFrames(0, frames) >= 3 && now - frames[0].now >= 15.0
    ensures RosterMissing(ShowAll(r, frames), now) ==> |frames| >= 3
  {
    WaitCountsNewFrames(r, frames);
    NewFramesAtMost(0, frames);
  }

  // ----------------------------------------------------------------- samples

  /** At most five samples, of strictly newer and newer frames. */
  ghost predicate Sampling(r: Row) {
    var samples := r.info.roster.samples;
    && |samples| <= 5
    && forall i, j :: 0 <= i < j < |samples| ==> samples[i].0 < samples[j].0
  }

  lemma LastFiveAscend(samples: seq<(int, Quality)>, x: (int, Quality))
    requires |samples| <= 5 && forall i, j :: 0 <= i < j < |samples| ==> samples[i].0 < samples[j].0
    requires samples != [] ==> samples[|samples| - 1].0 < x.0
    ensures var all := LastFive(samples + [x]);
            && |all| <= 5
            && forall i, j :: 0 <= i < j < |all| ==> all[i].0 < all[j].0
  {
    var all := samples + [x];
    assert forall i, j :: 0 <= i < j < |all| ==> all[i].0 < all[j].0;
  }

  lemma WaitKeepsSamples(r: Row, now: real)
    ensures UpdateWait(r, now).info.roster.samples in {[], r.info.roster.samples}
  {
  }

  lemma SampledKeepsSampling(r: Row, capture: Capture, hasNames: Option<bool>, now: real)
    requires Sampling(r)
    requires r.info.roster.samples != [] ==> r.info.roster.samples[|r.info.roster.samples| - 1].0 < capture.sequence
    ensures Sampling(Sampled(r, capture, hasNames, now))
  {
    var quality := if hasNames == Some(false) then Unknown else capture.quality;
    LastFiveAscend(r.info.roster.samples, (capture.sequence, quality));
    WaitKeepsSamples(
      SetRoster(r, r.info.roster.(
        samples := LastFive(r.info.roster.samples + [(capture.sequence, quality)]),
        fingerprint := Some(capture.fingerprint),
        hasNames := if hasNames.Some? then hasNames.value else capture.quality == Complete,
        observedAt := now)), now);
  }

  ghost predicate AllSampling(rows: seq<Row>) { forall i :: 0 <= i < |rows| ==> Sampling(rows[i]) }

  lemma RequeuedKeepSampling(rows: seq<Row>, out: seq<Row>)
    requires OnlyRequeued(rows, out) && AllSampling(rows)
    ensures AllSampling(out)
  {
    forall i | 0 <= i < |out| ensures Sampling(out[i]) {
      assert Sampling(rows[i]);
    }
  }

  lemma MissingOnlyRequeues(rows: seq<Row>, system: string, now: real)
    ensures OnlyRequeued(rows, ReconcileMissing(rows, system, now).rows)
  {
    var primary := PrimaryOf(rows, system);
    if primary.Some? {
      var chosen := Standby(rows, system, primary.value, Keeps(now, true));
      if chosen.Some? {
        DisplaceIsSafe(rows, ResidentsOf(rows, system), system, chosen.value, Some(ROSTER_MISSING));
      }
    }
  }

  lemma TruncatedOnlyRequeues(rows: seq<Row>, system: string, now: real)
    ensures OnlyRequeued(rows, ReplaceTruncated(rows, system, now).rows)
  {
    var primary := PrimaryOf(rows, system);
    if primary.Some? {
      var chosen := Standby(rows, system, primary.value, Keeps(now, false));
      if chosen.Some? {
        DisplaceIsSafe(rows, ResidentsOf(rows, system), system, chosen.value, None);
      }
    }
  }

  lemma TakeoversKeepSampling(rows: seq<Row>, system: string, now: real)
    requires AllSampling(rows)
    ensures AllSampling(ReconcileMissing(rows, system, now).rows) && AllSampling(ReplaceTruncated(rows, system, now).rows)
  {
    MissingOnlyRequeues(rows, system, now);
    TruncatedOnlyRequeues(rows, system, now);
    RequeuedKeepSampling(rows, ReconcileMissing(rows, system, now).rows);
    RequeuedKeepSampling(rows, ReplaceTruncated(rows, system, now).rows);
  }

  /** Recording a result keeps every row's samples: each frame counts once, and only the last five do. */
  lemma RecordKeepsSampling(rows: seq<Row>, client: string, system: string, capture: Option<Capture>, hasNames: Option<bool>,
                            now: real)
    requires AllSampling(rows)
    ensures AllSampling(RecordQuality(rows, client, system, capture, hasNames, now).0.rows)
  {
    var i := FirstOwned(rows, client, system, 0);
    if capture.Some? && i.Some? {
      var r := rows[i.value];
      assert Sampling(r);
      if r.info.roster.samples == [] || r.info.roster.samples[|r.info.roster.samples| - 1].0 < capture.value.sequence {
        SampledKeepsSampling(r, capture.value, hasNames, now);
        TakeoversKeepSampling(rows[i.value := Sampled(r, capture.value, hasNames, now)], system, now);
      }
    }
  }
}
