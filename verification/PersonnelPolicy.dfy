/** Deterministic refresh policy (app/esi/personnel_policy.py). */
module PersonnelPolicy {
  import opened Common

  /** The source rejects negative timestamps before they reach the database. */
  predicate Timestamp(t: real) { t >= 0.0 }

  /** `5 * 2 ** min(6, failures - 1)`, capped at five minutes. */
  function BackoffBase(failures: int): (r: real)
    requires failures >= 1
  {
    if failures == 1 then 5.0
    else if failures == 2 then 10.0
    else if failures == 3 then 20.0
    else if failures == 4 then 40.0
    else if failures == 5 then 80.0
    else if failures == 6 then 160.0
    else 300.0
  }

  /** Five seconds, doubled with every further failure up to five minutes. */
  lemma BackoffDoubles(failures: int)
    requires failures >= 1
    ensures BackoffBase(1) == 5.0 && BackoffBase(failures + 1) == MinReal(2.0 * BackoffBase(failures), 300.0)
  {
  }

  /** None where the source raises ValueError. */
  function RetryDelay(failures: int, jitter: real, retryAfter: real): (r: Option<real>)
    ensures r.Some? <==> failures >= 1 && 0.0 <= jitter <= 1.0 && retryAfter >= 0.0
    ensures r.Some? ==> r.value == retryAfter || r.value == BackoffBase(failures) * (0.8 + 0.2 * jitter)
    ensures r.Some? ==> BackoffBase(failures) * (0.8 + 0.2 * jitter) <= r.value
    ensures r.Some? ==> 4.0 <= r.value && retryAfter <= r.value <= MaxReal(300.0, retryAfter)
  {
    if failures < 1 || !(0.0 <= jitter <= 1.0) || !Timestamp(retryAfter) then None
    else Some(MaxReal(BackoffBase(failures) * (0.8 + 0.2 * jitter), retryAfter))
  }

  /** More failures never shorten the wait. */
  lemma RetryDelayGrows(f: int, g: int, jitter: real, retryAfter: real)
    requires 1 <= f <= g && 0.0 <= jitter <= 1.0 && retryAfter >= 0.0
    ensures RetryDelay(f, jitter, retryAfter).value <= RetryDelay(g, jitter, retryAfter).value
  {
    assert BackoffBase(f) <= BackoffBase(g);
    assert BackoffBase(f) * (0.8 + 0.2 * jitter) <= BackoffBase(g) * (0.8 + 0.2 * jitter);
  }

  const DAY := 86400.0
  const NAME_REFRESH_SECONDS := 90.0 * DAY
  const AFFILIATION_TTL := 3600.0

  /** personnel_tier: recently seen characters first. */
  function Tier(now: real, lastSeen: real, active: bool): (tier: int)
    ensures 1 <= tier <= 5 && (tier == 1 <==> active)
    ensures !active ==> (tier <= 2 <==> now <= lastSeen + DAY) && (tier <= 3 <==> now <= lastSeen + 7.0 * DAY)
    ensures !active ==> (tier <= 4 <==> now <= lastSeen + 30.0 * DAY)
  {
    var age := MaxReal(0.0, now - lastSeen);
    if active then 1
    else if age <= DAY then 2
    else if age <= 7.0 * DAY then 3
    else if age <= 30.0 * DAY then 4
    else 5
  }

  /** refresh_due_at: the upstream's deadline may shorten the hour, never extend it; 0 is no deadline. */
  function RefreshDue(fetched: real, validUntil: real): (due: real)
    ensures due <= fetched + AFFILIATION_TTL && (validUntil > 0.0 ==> due <= validUntil)
    ensures due == fetched + AFFILIATION_TTL || (due == validUntil && validUntil != 0.0)
  {
    var cap := fetched + AFFILIATION_TTL;
    if validUntil != 0.0 then MinReal(cap, validUntil) else cap
  }
}
