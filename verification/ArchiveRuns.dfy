/**
  Whole runs of the personnel archive: every public method is one atomic transaction, and a raised
  error rolls its transaction back.
 */
module ArchiveRuns {
  import opened Common
  import opened PersonnelPolicy
  import opened RefreshJobs
  import opened Identities

  datatype Archive = Archive(jobs: Jobs, people: People, orgs: Organizations)

  datatype Result =
    | NoResult
    | IdentityResult(identity: IdentityUpdate)
    | AffiliationResult(affiliation: AffiliationUpdate)
    | OrganizationResult(organization: OrganizationUpdate)

  /** A boolean return, or an exception after which nothing was written. */
  datatype Reply = Returned(flag: bool) | Error

  // ------------------------------------------------------------ finish, fail

  predicate Matches(key: string -> string, k: JobKey, r: Result) {
    match r
    case NoResult => true
    case IdentityResult(u) =>
      (k.kind == Identity && k.entity == Id(u.id)) || (k.kind == Resolve && k.entity == Name(key(u.name)))
    case AffiliationResult(u) => k.kind == Kind.Affiliation && k.entity == Id(u.id)
    case OrganizationResult(u) =>
      k.kind == (if u.key.alliance then Alliance else Corporation) && k.entity == Id(u.key.id)
  }

  function WriteResult(key: string -> string, a: Archive, r: Result): (Archive, Outcome) {
    match r
    case NoResult => (a, Ignored)
    case IdentityResult(u) => var (s, o) := SaveIdentity(key, a.people, u); (a.(people := s), o)
    case AffiliationResult(u) => var (s, o) := SaveAffiliation(a.people, u); (a.(people := s), o)
    case OrganizationResult(u) => var (s, o) := SaveOrganization(a.orgs, u); (a.(orgs := s), o)
  }

  function Finish(key: string -> string, a: Archive, lease: Lease, now: real, nextDue: real, nextPriority: int,
                  r: Result): (Archive, Reply)
  {
    if !Timestamp(now) || nextDue < now || !(0 <= nextPriority <= 5) then (a, Error)
    else if !Leased(a.jobs, lease, now) then (a, Returned(false))
    else if !Matches(key, lease.key, r) then (a, Error)
    else
      var (b, o) := WriteResult(key, a, r);
      if o == Raised then (a, Error)
      else (b.(jobs := Release(a.jobs, lease, nextDue, nextPriority)), Returned(true))
  }

  function Fail(a: Archive, lease: Lease, now: real, code: string, jitter: real, retryAfter: real): (Archive, Reply) {
    if !Timestamp(now) || code !in SAFE_CODES then (a, Error)
    else if !Leased(a.jobs, lease, now) then (a, Returned(false))
    else
      var delay := RetryDelay(a.jobs[lease.key].failures + 1, jitter, retryAfter);
      if delay.None? then (a, Error)
      else (a.(jobs := BackOff(a.jobs, lease.key, code, now + delay.value)), Returned(true))
  }

  /** The result names the leased entity: a character by id or folded name, or an organization of that kind. */
  ghost predicate Fits(key: string -> string, k: JobKey, r: Result) {
    match r
    case NoResult => true
    case IdentityResult(u) =>
      if k.entity.Id? then k.kind == Identity && k.entity.id == u.id else k.kind == Resolve && k.entity.text == key(u.name)
    case AffiliationResult(u) => k.kind == Kind.Affiliation && k.entity.Id? && k.entity.id == u.id
    case OrganizationResult(u) =>
      k.entity.Id? && k.entity.id == u.key.id && (if u.key.alliance then k.kind == Alliance else k.kind == Corporation)
  }

  /** Writing this result raises. */
  ghost predicate Refused(key: string -> string, a: Archive, r: Result) {
    match r
    case NoResult => false
    case IdentityResult(u) => IdentityRefused(key, a.people, u)
    case AffiliationResult(u) => AffiliationRefused(a.people, u)
    case OrganizationResult(u) => OrganizationRefused(u)
  }

  /** The result has reached its table, and nothing else has moved. */
  ghost predicate Wrote(key: string -> string, a: Archive, r: Result, b: Archive) {
    match r
    case NoResult => b.people == a.people && b.orgs == a.orgs
    case IdentityResult(u) => b.orgs == a.orgs && IdentityWrote(key, a.people, u, b.people)
    case AffiliationResult(u) => b.orgs == a.orgs && AffiliationWrote(a.people, u, b.people)
    case OrganizationResult(u) => b.people == a.people && OrganizationWrote(a.orgs, u, b.orgs)
  }

  lemma WriteResultMeans(key: string -> string, a: Archive, r: Result)
    ensures var (b, o) := WriteResult(key, a, r);
            && b.jobs == a.jobs && (o == Raised <==> Refused(key, a, r))
            && (o == Raised ==> b == a) && (o != Raised ==> Wrote(key, a, r, b))
  {
    match r
    case NoResult =>
    case IdentityResult(u) => SaveIdentityMeans(key, a.people, u);
    case AffiliationResult(u) => SaveAffiliationMeans(a.people, u);
    case OrganizationResult(u) => SaveOrganizationMeans(a.orgs, u);
  }

  /** The job row a lease names, still held under it. */
  ghost predicate Held(a: Archive, lease: Lease, now: real) {
    && lease.key in a.jobs
    && var j := a.jobs[lease.key];
       j.token == lease.token && now < j.until && j.leasedRevision == lease.revision
  }

  /** Only this job moved. */
  ghost predicate OneJobMoved(a: Archive, k: JobKey, b: Archive) {
    b.jobs.Keys == a.jobs.Keys && forall n :: n in a.jobs && n != k ==> b.jobs[n] == a.jobs[n]
  }

  /**
    finish, told over the tables: it succeeds exactly for a held lease with a fitting result that can be
    written and a valid schedule; then the result is in its table and the job is free; otherwise nothing moved.
   */
  lemma FinishMeans(key: string -> string, a: Archive, lease: Lease, now: real, nextDue: real, nextPriority: int, r: Result)
    ensures var (b, reply) := Finish(key, a, lease, now, nextDue, nextPriority, r);
            var valid := 0.0 <= now <= nextDue && 0 <= nextPriority <= 5;
            && (reply == Returned(true) <==> valid && Held(a, lease, now) && Fits(key, lease.key, r) && !Refused(key, a, r))
            && (reply == Returned(false) <==> valid && !Held(a, lease, now))
            && (reply != Returned(true) ==> b == a)
            && (reply == Returned(true) ==>
                  && Wrote(key, a, r, b) && OneJobMoved(a, lease.key, b) && lease.key in a.jobs && lease.key in b.jobs
                  && var i, j := a.jobs[lease.key], b.jobs[lease.key];
                     && j.token == "" && j.until == 0.0 && j.failures == 0 && j.error == "" && j.revision == i.revision
                     && (if i.revision == lease.revision then j.due == nextDue && j.priority == nextPriority
                         else j.due == i.due && j.priority == i.priority))
  {
    WriteResultMeans(key, a, r);
  }

  /** fail, told over the tables: a held lease backs off under its category, everything else stays. */
  lemma FailMeans(a: Archive, lease: Lease, now: real, code: string, jitter: real, retryAfter: real)
    ensures var (b, reply) := Fail(a, lease, now, code, jitter, retryAfter);
            && (reply == Returned(true) ==>
                  && Held(a, lease, now) && b.people == a.people && b.orgs == a.orgs
                  && OneJobMoved(a, lease.key, b) && lease.key in a.jobs && lease.key in b.jobs
                  && var i, j := a.jobs[lease.key], b.jobs[lease.key];
                     var d := RetryDelay(i.failures + 1, jitter, retryAfter);
                     && d.Some? && j.due == now + d.value
                     && j.failures == i.failures + 1 && j.error == code && j.token == "" && j.until == 0.0
                     && j.priority == i.priority && j.revision == i.revision)
            && (reply == Returned(false) <==>
                  0.0 <= now && code in {"timeout", "throttled", "upstream", "not_found", "conflict", "storage"} && !Held(a, lease, now))
            && (reply != Returned(true) ==> b == a)
            && (Held(a, lease, now) && reply != Returned(true) ==>
                  now < 0.0 || code !in {"timeout", "throttled", "upstream", "not_found", "conflict", "storage"}
                  || !(0.0 <= jitter <= 1.0) || retryAfter < 0.0)
  {
  }

  // ------------------------------------------------------------------ batches

  /** One lease of a refresh batch: a result to write and acknowledge, or an entity upstream does not know. */
  datatype BatchStep =
    | Ack(lease: Lease, now: real, nextDue: real, nextPriority: int, result: Result)
    | Missing(lease: Lease, now: real)

  function StepBatch(key: string -> string, a: Archive, s: BatchStep): (Archive, Reply) {
    match s
    case Ack(lease, now, nextDue, nextPriority, result) => Finish(key, a, lease, now, nextDue, nextPriority, result)
    case Missing(lease, now) => Fail(a, lease, now, "not_found", 0.5, 60.0)
  }

  /** The nested transactions of a batch are one: an error anywhere leaves nothing. */
  function Batch(key: string -> string, a: Archive, steps: seq<BatchStep>): Option<(Archive, seq<bool>)> {
    if steps == [] then Some((a, []))
    else
      var head := Batch(key, a, steps[..|steps| - 1]);
      if head.None? then None
      else
        var (b, reply) := StepBatch(key, head.value.0, steps[|steps| - 1]);
        if reply.Error? then None else Some((b, head.value.1 + [reply.flag]))
  }

  lemma {:induction false} BatchErrorIsFinal(key: string -> string, a: Archive, steps: seq<BatchStep>, n: nat)
    requires n <= |steps| && Batch(key, a, steps[..n]).None?
    ensures Batch(key, a, steps).None?
    decreases |steps| - n
  {
    if n == |steps| {
      assert steps[..n] == steps;
    } else {
      assert steps[..n + 1][..n] == steps[..n];
      BatchErrorIsFinal(key, a, steps, n + 1);
    }
  }

  // -------------------------------------------------------------------- runs

  datatype Op =
    | Requested(rs: seq<Request>, promoteOnly: bool)
    | Expedited(id: int, now: real, due: real)
    | Claimed(now: real, seconds: real, lane: Lane, picks: seq<Pick>)
    | Finished(lease: Lease, now: real, nextDue: real, nextPriority: int, result: Result)
    | Failed(lease: Lease, now: real, code: string, jitter: real, retryAfter: real)
    | IdentitySaved(identity: IdentityUpdate)
    | AffiliationSaved(affiliation: AffiliationUpdate)
    | OrganizationSaved(organization: OrganizationUpdate)
    | Sighted(id: int, seen: real)

  datatype Grant = Grant(key: JobKey, token: string, revision: nat, until: real)

  datatype Write = Write(key: JobKey, token: string, at: real)

  /** The archive with the history of its leases: grants made, tokens settled, results written. */
  datatype World = World(archive: Archive, grants: seq<Grant>, settled: set<string>, writes: seq<Write>)

  const EMPTY := World(Archive(map[], People(map[], map[]), map[]), [], {}, [])

  predicate TokenUsed(grants: seq<Grant>, token: string) {
    exists i :: 0 <= i < |grants| && grants[i].token == token
  }

  /** What a claim may take: distinct eligible jobs, each under a fresh non-empty token. */
  predicate Claimable(jobs: Jobs, grants: seq<Grant>, now: real, lane: Lane, picks: seq<Pick>) {
    && (forall i :: 0 <= i < |picks| ==>
          Eligible(jobs, picks[i].key, now, lane) && picks[i].token != "" && !TokenUsed(grants, picks[i].token))
    && (forall i, j :: 0 <= i < j < |picks| ==> picks[i].key != picks[j].key && picks[i].token != picks[j].token)
  }

  predicate Enabled(w: World, op: Op) {
    op.Claimed? ==> Timestamp(op.now) && op.seconds > 0.0 && Claimable(w.archive.jobs, w.grants, op.now, op.lane, op.picks)
  }

  function GrantAll(w: World, picks: seq<Pick>, until: real): (out: World)
    requires forall i :: 0 <= i < |picks| ==> picks[i].key in w.archive.jobs
    ensures out.archive.jobs.Keys == w.archive.jobs.Keys
  {
    if picks == [] then w
    else
      var p := picks[|picks| - 1];
      var v := GrantAll(w, picks[..|picks| - 1], until);
      World(v.archive.(jobs := Take(v.archive.jobs, p, until)),
            v.grants + [Grant(p.key, p.token, v.archive.jobs[p.key].revision, until)], v.settled, v.writes)
  }

  function Step(key: string -> string, w: World, op: Op): World
    requires Enabled(w, op)
  {
    var a := w.archive;
    match op
    case Requested(rs, promoteOnly) => w.(archive := a.(jobs := UpsertAll(a.jobs, rs, promoteOnly)))
    case Expedited(id, now, due) => w.(archive := a.(jobs := Expedite(a.jobs, id, now, due)))
    case Claimed(now, seconds, lane, picks) => GrantAll(w, picks, now + seconds)
    case Finished(lease, now, nextDue, nextPriority, result) =>
      var (b, reply) := Finish(key, a, lease, now, nextDue, nextPriority, result);
      if reply == Returned(true)
      then World(b, w.grants, w.settled + {lease.token}, w.writes + [Write(lease.key, lease.token, now)])
      else w.(archive := b)
    case Failed(lease, now, code, jitter, retryAfter) =>
      var (b, reply) := Fail(a, lease, now, code, jitter, retryAfter);
      if reply == Returned(true) then w.(archive := b, settled := w.settled + {lease.token}) else w.(archive := b)
    case IdentitySaved(u) => w.(archive := a.(people := SaveIdentity(key, a.people, u).0))
    case AffiliationSaved(u) => w.(archive := a.(people := SaveAffiliation(a.people, u).0))
    case OrganizationSaved(u) => w.(archive := a.(orgs := SaveOrganization(a.orgs, u).0))
    case Sighted(id, seen) => w.(archive := a.(people := Sight(a.people, id, seen)))
  }

  /** A claim touches nothing but the claimed jobs and the history of grants. */
  lemma {:induction false} GrantAllTakes(w: World, picks: seq<Pick>, until: real)
    requires forall i :: 0 <= i < |picks| ==> picks[i].key in w.archive.jobs
    ensures GrantAll(w, picks, until).archive == w.archive.(jobs := TakeAll(w.archive.jobs, picks, until))
    ensures GrantAll(w, picks, until).settled == w.settled && GrantAll(w, picks, until).writes == w.writes
  {
    if picks != [] {
      GrantAllTakes(w, picks[..|picks| - 1], until);
    }
  }

  ghost predicate Runs(key: string -> string, w: World, ops: seq<Op>)
    decreases |ops|
  {
    ops == [] || (Enabled(w, ops[0]) && Runs(key, Step(key, w, ops[0]), ops[1..]))
  }

  ghost function After(key: string -> string, w: World, ops: seq<Op>): World
    requires Runs(key, w, ops)
    decreases |ops|
  {
    if ops == [] then w else After(key, Step(key, w, ops[0]), ops[1..])
  }

  /** The operations a batch consists of. */
  function Ops(steps: seq<BatchStep>): (ops: seq<Op>)
    ensures |ops| == |steps|
  {
    seq(|steps|, i requires 0 <= i < |steps| =>
      match steps[i]
      case Ack(lease, now, nextDue, nextPriority, result) => Finished(lease, now, nextDue, nextPriority, result)
      case Missing(lease, now) => Failed(lease, now, "not_found", 0.5, 60.0))
  }

  lemma {:induction false} RunsJoin(key: string -> string, w: World, ops: seq<Op>, op: Op)
    requires Runs(key, w, ops) && Enabled(After(key, w, ops), op)
    ensures Runs(key, w, ops + [op]) && After(key, w, ops + [op]) == Step(key, After(key, w, ops), op)
    decreases |ops|
  {
    if ops == [] {
      assert (ops + [op])[1..] == [];
    } else {
      assert (ops + [op])[1..] == ops[1..] + [op];
      RunsJoin(key, Step(key, w, ops[0]), ops[1..], op);
    }
  }

  /** A batch that succeeds is the run of its finishes and fails, so all that runs keep it keeps too. */
  lemma {:induction false} BatchIsARun(key: string -> string, w: World, steps: seq<BatchStep>)
    requires Batch(key, w.archive, steps).Some?
    ensures Runs(key, w, Ops(steps))
    ensures After(key, w, Ops(steps)).archive == Batch(key, w.archive, steps).value.0
    decreases |steps|
  {
    if steps != [] {
      var init, last := steps[..|steps| - 1], steps[|steps| - 1];
      BatchIsARun(key, w, init);
      assert Ops(steps) == Ops(init) + [Ops(steps)[|steps| - 1]];
      RunsJoin(key, w, Ops(init), Ops(steps)[|steps| - 1]);
    }
  }

  // ----------------------------------------------------------- lease fencing

  function Newest(grants: seq<Grant>, k: JobKey): Option<Grant> {
    if grants == [] then None
    else if grants[|grants| - 1].key == k then Some(grants[|grants| - 1])
    else Newest(grants[..|grants| - 1], k)
  }

  lemma {:induction false} NewestIsAGrant(grants: seq<Grant>, k: JobKey)
    ensures Newest(grants, k).Some? ==> exists i :: 0 <= i < |grants| && grants[i] == Newest(grants, k).value
    ensures Newest(grants, k).Some? ==> Newest(grants, k).value.key == k
  {
    if grants != [] && grants[|grants| - 1].key != k {
      NewestIsAGrant(grants[..|grants| - 1], k);
    }
  }

  /** A job row mirrors its newest grant until that grant is settled, and is free otherwise. */
  ghost predicate RowMirrorsGrant(j: Job, newest: Option<Grant>, settled: set<string>) {
    if j.token == "" then j.until == 0.0 && (newest.Some? ==> newest.value.token in settled)
    else newest.Some? && newest.value.token !in settled
         && j.token == newest.value.token && j.until == newest.value.until && j.leasedRevision == newest.value.revision
  }

  ghost predicate Backed(grants: seq<Grant>, wr: Write) {
    exists i :: 0 <= i < |grants| && grants[i].key == wr.key && grants[i].token == wr.token && wr.at < grants[i].until
  }

  ghost predicate Fenced(w: World) {
    && (forall k :: k in w.archive.jobs ==> RowMirrorsGrant(w.archive.jobs[k], Newest(w.grants, k), w.settled))
    && (forall i :: 0 <= i < |w.grants| ==> w.grants[i].token != "" && w.grants[i].key in w.archive.jobs)
    && (forall i, j :: 0 <= i < j < |w.grants| ==> w.grants[i].token != w.grants[j].token)
    && (forall t :: t in w.settled ==> TokenUsed(w.grants, t))
    && (forall i :: 0 <= i < |w.writes| ==> w.writes[i].token in w.settled && Backed(w.grants, w.writes[i]))
    && (forall i, j :: 0 <= i < j < |w.writes| ==> w.writes[i].token != w.writes[j].token)
  }

  /**
    Fencing, exactly: a lease is honoured if and only if it is the newest claim of its job, not
    over, and not settled before.
   */
  lemma LeasedIffNewestUnsettled(w: World, lease: Lease, now: real)
    requires Fenced(w) && Timestamp(now)
    ensures Leased(w.archive.jobs, lease, now) <==>
            var g := Newest(w.grants, lease.key);
            && g.Some? && g.value.token == lease.token && g.value.revision == lease.revision
            && now < g.value.until && lease.token !in w.settled
  {
    var k := lease.key;
    NewestIsAGrant(w.grants, k);
    if k in w.archive.jobs {
      assert RowMirrorsGrant(w.archive.jobs[k], Newest(w.grants, k), w.settled);
    }
  }

  /** A grant more still backs every write and uses every token. */
  lemma MoreGrantsBackMore(grants: seq<Grant>, g: Grant, settled: set<string>, writes: seq<Write>)
    requires forall t :: t in settled ==> TokenUsed(grants, t)
    requires forall i :: 0 <= i < |writes| ==> Backed(grants, writes[i])
    ensures forall t :: t in settled ==> TokenUsed(grants + [g], t)
    ensures forall i :: 0 <= i < |writes| ==> Backed(grants + [g], writes[i])
  {
    var gs := grants + [g];
    forall t | t in settled ensures TokenUsed(gs, t) {
      var i :| 0 <= i < |grants| && grants[i].token == t;
      assert gs[i].token == t;
    }
    forall i | 0 <= i < |writes| ensures Backed(gs, writes[i]) {
      assert Backed(grants, writes[i]);
      var n :| 0 <= n < |grants| && grants[n].key == writes[i].key && grants[n].token == writes[i].token
               && writes[i].at < grants[n].until;
      assert gs[n] == grants[n];
    }
  }

  lemma TakeOneMirrors(w: World, p: Pick, until: real, g: Grant, k: JobKey)
    requires Fenced(w) && p.key in w.archive.jobs && p.token != "" && !TokenUsed(w.grants, p.token)
    requires g == Grant(p.key, p.token, w.archive.jobs[p.key].revision, until) && k in w.archive.jobs
    ensures RowMirrorsGrant(Take(w.archive.jobs, p, until)[k], Newest(w.grants + [g], k), w.settled)
  {
    assert (w.grants + [g])[..|w.grants|] == w.grants;
    assert RowMirrorsGrant(w.archive.jobs[k], Newest(w.grants, k), w.settled);
  }

  lemma TakeOneKeepsFence(w: World, p: Pick, until: real)
    requires Fenced(w) && p.key in w.archive.jobs && p.token != "" && !TokenUsed(w.grants, p.token)
    ensures Fenced(World(w.archive.(jobs := Take(w.archive.jobs, p, until)),
                         w.grants + [Grant(p.key, p.token, w.archive.jobs[p.key].revision, until)], w.settled, w.writes))
  {
    var g := Grant(p.key, p.token, w.archive.jobs[p.key].revision, until);
    MoreGrantsBackMore(w.grants, g, w.settled, w.writes);
    forall k | k in w.archive.jobs
      ensures RowMirrorsGrant(Take(w.archive.jobs, p, until)[k], Newest(w.grants + [g], k), w.settled)
    {
      TakeOneMirrors(w, p, until, g, k);
    }
  }

  ghost predicate FreshPicks(w: World, picks: seq<Pick>) {
    && (forall i :: 0 <= i < |picks| ==>
          picks[i].key in w.archive.jobs && picks[i].token != "" && !TokenUsed(w.grants, picks[i].token))
    && (forall i, j :: 0 <= i < j < |picks| ==> picks[i].token != picks[j].token)
  }

  lemma {:induction false} GrantAllTokens(w: World, picks: seq<Pick>, until: real, t: string)
    requires FreshPicks(w, picks)
    ensures TokenUsed(GrantAll(w, picks, until).grants, t) <==>
            TokenUsed(w.grants, t) || exists i :: 0 <= i < |picks| && picks[i].token == t
  {
    if picks != [] {
      var init := picks[..|picks| - 1];
      assert forall i :: 0 <= i < |init| ==> init[i] == picks[i];
      GrantAllTokens(w, init, until, t);
      var gs, hs := GrantAll(w, picks, until).grants, GrantAll(w, init, until).grants;
      assert gs[|gs| - 1].token == picks[|picks| - 1].token;
      assert forall i :: 0 <= i < |hs| ==> gs[i] == hs[i];
    }
  }

  lemma {:induction false} GrantAllKeepsFence(w: World, picks: seq<Pick>, until: real)
    requires Fenced(w) && FreshPicks(w, picks)
    ensures Fenced(GrantAll(w, picks, until))
  {
    if picks != [] {
      var init, p := picks[..|picks| - 1], picks[|picks| - 1];
      assert FreshPicks(w, init);
      GrantAllKeepsFence(w, init, until);
      GrantAllTokens(w, init, until, p.token);
      TakeOneKeepsFence(GrantAll(w, init, until), p, until);
    }
  }

  lemma SettleKeepsFence(w: World, lease: Lease, now: real, j: Job, people: People, orgs: Organizations, write: bool)
    requires Fenced(w) && Timestamp(now) && Leased(w.archive.jobs, lease, now)
    requires j.token == "" && j.until == 0.0
    ensures Fenced(World(Archive(w.archive.jobs[lease.key := j], people, orgs), w.grants, w.settled + {lease.token},
                         if write then w.writes + [Write(lease.key, lease.token, now)] else w.writes))
  {
    LeasedIffNewestUnsettled(w, lease, now);
    NewestIsAGrant(w.grants, lease.key);
    var settled := w.settled + {lease.token};
    forall k | k in w.archive.jobs && k != lease.key
      ensures RowMirrorsGrant(w.archive.jobs[k], Newest(w.grants, k), settled)
    {
      assert RowMirrorsGrant(w.archive.jobs[k], Newest(w.grants, k), w.settled);
      NewestIsAGrant(w.grants, k);
    }
    assert Backed(w.grants, Write(lease.key, lease.token, now));
  }

  lemma FreshRowsKeepFence(w: World, jobs: Jobs)
    requires Fenced(w) && w.archive.jobs.Keys <= jobs.Keys
    requires forall k :: k in jobs ==> if k in w.archive.jobs then SameLease(w.archive.jobs[k], jobs[k]) else Fresh(jobs[k])
    ensures Fenced(w.(archive := w.archive.(jobs := jobs)))
  {
    forall k | k in jobs ensures RowMirrorsGrant(jobs[k], Newest(w.grants, k), w.settled) {
      NewestIsAGrant(w.grants, k);
      if k in w.archive.jobs {
        assert RowMirrorsGrant(w.archive.jobs[k], Newest(w.grants, k), w.settled);
      }
    }
  }

  lemma {:induction false} UpsertAllKeepsLeases(jobs: Jobs, rs: seq<Request>, promoteOnly: bool)
    ensures jobs.Keys <= UpsertAll(jobs, rs, promoteOnly).Keys
    ensures forall k :: k in UpsertAll(jobs, rs, promoteOnly) ==>
              if k in jobs then SameLease(jobs[k], UpsertAll(jobs, rs, promoteOnly)[k])
              else Fresh(UpsertAll(jobs, rs, promoteOnly)[k])
  {
    if rs != [] {
      UpsertAllKeepsLeases(jobs, rs[..|rs| - 1], promoteOnly);
    }
  }

  lemma FinishKeepsFence(key: string -> string, w: World, op: Op)
    requires Fenced(w) && op.Finished?
    ensures Fenced(Step(key, w, op))
  {
    var (b, reply) := Finish(key, w.archive, op.lease, op.now, op.nextDue, op.nextPriority, op.result);
    if reply == Returned(true) {
      SettleKeepsFence(w, op.lease, op.now, b.jobs[op.lease.key], b.people, b.orgs, true);
    }
  }

  lemma FailKeepsFence(key: string -> string, w: World, op: Op)
    requires Fenced(w) && op.Failed?
    ensures Fenced(Step(key, w, op))
  {
    var (b, reply) := Fail(w.archive, op.lease, op.now, op.code, op.jitter, op.retryAfter);
    if reply == Returned(true) {
      SettleKeepsFence(w, op.lease, op.now, b.jobs[op.lease.key], b.people, b.orgs, false);
    }
  }

  lemma ScheduleKeepsFence(key: string -> string, w: World, op: Op)
    requires Fenced(w) && (op.Requested? || op.Expedited?)
    ensures Fenced(Step(key, w, op))
  {
    if op.Requested? {
      UpsertAllKeepsLeases(w.archive.jobs, op.rs, op.promoteOnly);
      FreshRowsKeepFence(w, UpsertAll(w.archive.jobs, op.rs, op.promoteOnly));
    } else {
      FreshRowsKeepFence(w, Expedite(w.archive.jobs, op.id, op.now, op.due));
    }
  }

  lemma StepOfClaim(key: string -> string, w: World, op: Op)
    requires Enabled(w, op) && op.Claimed?
    ensures Step(key, w, op) == GrantAll(w, op.picks, op.now + op.seconds)
  {
  }

  lemma ClaimTakes(key: string -> string, w: World, op: Op)
    requires Enabled(w, op) && op.Claimed?
    ensures Step(key, w, op).archive == w.archive.(jobs := TakeAll(w.archive.jobs, op.picks, op.now + op.seconds))
  {
    StepOfClaim(key, w, op);
    GrantAllTakes(w, op.picks, op.now + op.seconds);
  }

  lemma GrantsKeepFence(w: World, now: real, lane: Lane, picks: seq<Pick>, until: real, v: World)
    requires Fenced(w) && Claimable(w.archive.jobs, w.grants, now, lane, picks) && v == GrantAll(w, picks, until)
    ensures Fenced(v)
  {
    assert FreshPicks(w, picks);
    GrantAllKeepsFence(w, picks, until);
  }

  lemma ClaimKeepsFence(key: string -> string, w: World, op: Op)
    requires Fenced(w) && op.Claimed? && Enabled(w, op)
    ensures Fenced(Step(key, w, op))
  {
    StepOfClaim(key, w, op);
    GrantsKeepFence(w, op.now, op.lane, op.picks, op.now + op.seconds, Step(key, w, op));
  }

  predicate OnlyRows(op: Op) {
    op.IdentitySaved? || op.AffiliationSaved? || op.OrganizationSaved? || op.Sighted?
  }

  lemma RowsKeepFence(key: string -> string, w: World, op: Op)
    requires Fenced(w) && OnlyRows(op)
    ensures Fenced(Step(key, w, op))
  {
    var v := Step(key, w, op);
    assert v.archive.jobs == w.archive.jobs && v.grants == w.grants && v.settled == w.settled && v.writes == w.writes;
  }

  lemma StepKeepsFence(key: string -> string, w: World, op: Op)
    requires Fenced(w) && Enabled(w, op)
    ensures Fenced(Step(key, w, op))
  {
    match op
    case Requested(_, _) => ScheduleKeepsFence(key, w, op);
    case Expedited(_, _, _) => ScheduleKeepsFence(key, w, op);
    case Claimed(_, _, _, _) => ClaimKeepsFence(key, w, op);
    case Finished(_, _, _, _, _) => FinishKeepsFence(key, w, op);
    case Failed(_, _, _, _, _) => FailKeepsFence(key, w, op);
    case _ => RowsKeepFence(key, w, op);
  }

  /**
    Over every interleaving: results are written under pairwise distinct tokens, each inside the
    lease it was granted; and a lease is honoured exactly when it is the newest unsettled one.
   */
  lemma {:induction false} RunsAreFenced(key: string -> string, w: World, ops: seq<Op>)
    requires Fenced(w) && Runs(key, w, ops)
    ensures Fenced(After(key, w, ops))
    decreases |ops|
  {
    if ops != [] {
      StepKeepsFence(key, w, ops[0]);
      RunsAreFenced(key, Step(key, w, ops[0]), ops[1..]);
    }
  }

  lemma EveryRunIsFenced(key: string -> string, ops: seq<Op>)
    requires Runs(key, EMPTY, ops)
    ensures Fenced(After(key, EMPTY, ops))
  {
    RunsAreFenced(key, EMPTY, ops);
  }

  /** A finish that writes is by the newest claimant, inside its lease, and the first under its token. */
  lemma FinishedOnlyByNewest(key: string -> string, w: World, lease: Lease, now: real, nextDue: real, nextPriority: int,
                             result: Result)
    requires Fenced(w)
    requires Finish(key, w.archive, lease, now, nextDue, nextPriority, result).1 == Returned(true)
    ensures var g := Newest(w.grants, lease.key);
            g.Some? && g.value.token == lease.token && g.value.revision == lease.revision && now < g.value.until
    ensures forall i :: 0 <= i < |w.writes| ==> w.writes[i].token != lease.token
  {
    LeasedIffNewestUnsettled(w, lease, now);
  }

  /** The finish or fail of a superseded, expired or already settled lease changes nothing. */
  lemma StaleLeaseIsInert(key: string -> string, w: World, lease: Lease, now: real, nextDue: real, nextPriority: int,
                          result: Result, code: string, jitter: real, retryAfter: real)
    requires Fenced(w)
    requires var g := Newest(w.grants, lease.key);
             g.None? || g.value.token != lease.token || g.value.until <= now || lease.token in w.settled
    ensures var (b, reply) := Finish(key, w.archive, lease, now, nextDue, nextPriority, result);
            b == w.archive && reply != Returned(true)
    ensures var (b, reply) := Fail(w.archive, lease, now, code, jitter, retryAfter);
            b == w.archive && reply != Returned(true)
  {
    if Timestamp(now) {
      LeasedIffNewestUnsettled(w, lease, now);
    }
  }

  // ----------------------------------------------------------------- backoff

  predicate Takes(op: Op, k: JobKey) {
    op.Claimed? && exists i :: 0 <= i < |op.picks| && op.picks[i].key == k
  }

  /** No claim before `due` returns job k; the first claim that does ends the waiting period. */
  ghost predicate WaitsUntil(ops: seq<Op>, k: JobKey, due: real) {
    ops == [] || (if Takes(ops[0], k) then due <= ops[0].now else WaitsUntil(ops[1..], k, due))
  }

  ghost predicate BackingOff(jobs: Jobs, k: JobKey, due: real) {
    k in jobs && jobs[k].failures > 0 && jobs[k].due == due && jobs[k].token == "" && jobs[k].until == 0.0
  }

  lemma ClaimKeepsOthers(key: string -> string, w: World, op: Op, k: JobKey)
    requires Enabled(w, op) && op.Claimed? && k in w.archive.jobs && !Takes(op, k)
    ensures k in Step(key, w, op).archive.jobs && Step(key, w, op).archive.jobs[k] == w.archive.jobs[k]
  {
    ClaimTakes(key, w, op);
    TakeAllAt(w.archive.jobs, op.picks, op.now + op.seconds, k);
  }

  lemma StepKeepsBackoff(key: string -> string, w: World, op: Op, k: JobKey, due: real)
    requires BackingOff(w.archive.jobs, k, due) && Enabled(w, op) && !Takes(op, k)
    ensures BackingOff(Step(key, w, op).archive.jobs, k, due)
  {
    match op
    case Requested(rs, promoteOnly) => UpsertAllRevision(w.archive.jobs, rs, promoteOnly, k);
    case Claimed(_, _, _, _) => ClaimKeepsOthers(key, w, op, k);
    case _ =>
  }

  lemma {:induction false} BackoffSurvivesRuns(key: string -> string, w: World, ops: seq<Op>, k: JobKey, due: real)
    requires BackingOff(w.archive.jobs, k, due) && Runs(key, w, ops)
    ensures WaitsUntil(ops, k, due)
    decreases |ops|
  {
    if ops != [] {
      if Takes(ops[0], k) {
        var i :| 0 <= i < |ops[0].picks| && ops[0].picks[i].key == k;
        assert Eligible(w.archive.jobs, ops[0].picks[i].key, ops[0].now, ops[0].lane);
      } else {
        StepKeepsBackoff(key, w, ops[0], k, due);
        BackoffSurvivesRuns(key, Step(key, w, ops[0]), ops[1..], k, due);
      }
    }
  }

  /**
    After a fail at time t that backs off by d, whatever requests, batches, expedites, leases,
    finishes and fails follow, the next claim of that job is not before t + d.
   */
  lemma FailedJobWaits(key: string -> string, w: World, lease: Lease, now: real, code: string, jitter: real, retryAfter: real,
                       ops: seq<Op>)
    requires Fail(w.archive, lease, now, code, jitter, retryAfter).1 == Returned(true)
    requires Runs(key, Step(key, w, Failed(lease, now, code, jitter, retryAfter)), ops)
    ensures var d := RetryDelay(w.archive.jobs[lease.key].failures + 1, jitter, retryAfter);
            d.Some? && d.value >= 4.0 && d.value >= retryAfter && WaitsUntil(ops, lease.key, now + d.value)
  {
    var d := RetryDelay(w.archive.jobs[lease.key].failures + 1, jitter, retryAfter);
    BackoffSurvivesRuns(key, Step(key, w, Failed(lease, now, code, jitter, retryAfter)), ops, lease.key, now + d.value);
  }

  // ------------------------------------------------ schedules moved in flight

  predicate Touches(op: Op, k: JobKey) {
    Takes(op, k) || ((op.Finished? || op.Failed?) && op.lease.key == k)
  }

  ghost predicate Pinned(a: Job, b: Job) {
    SameLease(a, b) && Advanced(a, b)
  }

  lemma StepPinsSchedule(key: string -> string, w: World, op: Op, k: JobKey)
    requires Enabled(w, op) && k in w.archive.jobs && !Touches(op, k)
    ensures k in Step(key, w, op).archive.jobs
    ensures Pinned(w.archive.jobs[k], Step(key, w, op).archive.jobs[k])
  {
    match op
    case Requested(rs, promoteOnly) => UpsertAllRevision(w.archive.jobs, rs, promoteOnly, k);
    case Expedited(id, now, due) => ExpediteOnlyAdvances(w.archive.jobs, id, now, due, k);
    case Claimed(_, _, _, _) => ClaimKeepsOthers(key, w, op, k);
    case _ =>
  }

  /** While nobody claims or settles job k, its revision stands still exactly while its schedule does. */
  lemma {:induction false} RevisionPinsSchedule(key: string -> string, w: World, ops: seq<Op>, k: JobKey)
    requires Runs(key, w, ops) && k in w.archive.jobs
    requires forall i :: 0 <= i < |ops| ==> !Touches(ops[i], k)
    ensures k in After(key, w, ops).archive.jobs
    ensures Pinned(w.archive.jobs[k], After(key, w, ops).archive.jobs[k])
    decreases |ops|
  {
    if ops != [] {
      StepPinsSchedule(key, w, ops[0], k);
      RevisionPinsSchedule(key, Step(key, w, ops[0]), ops[1..], k);
    }
  }

  /**
    finish after any activity during the lease: the worker's schedule is taken exactly when the
    revision stood still, and then nothing had moved the schedule; otherwise the moved schedule stays.
   */
  lemma FinishRespectsMovedSchedule(key: string -> string, w: World, ops: seq<Op>, lease: Lease, now: real, nextDue: real,
                                    nextPriority: int, result: Result)
    requires Runs(key, w, ops) && lease.key in w.archive.jobs
    requires w.archive.jobs[lease.key].revision == lease.revision
    requires forall i :: 0 <= i < |ops| ==> !Touches(ops[i], lease.key)
    requires Finish(key, After(key, w, ops).archive, lease, now, nextDue, nextPriority, result).1 == Returned(true)
    ensures lease.key in After(key, w, ops).archive.jobs
    ensures lease.key in Finish(key, After(key, w, ops).archive, lease, now, nextDue, nextPriority, result).0.jobs
    ensures var k := lease.key;
            var start, mid := w.archive.jobs[k], After(key, w, ops).archive.jobs[k];
            var done := Finish(key, After(key, w, ops).archive, lease, now, nextDue, nextPriority, result).0.jobs[k];
            && done.failures == 0 && done.error == "" && done.revision == mid.revision
            && (mid.revision == start.revision ==>
                  mid.due == start.due && mid.priority == start.priority && done.due == nextDue && done.priority == nextPriority)
            && (mid.revision != start.revision ==> done.due == mid.due && done.priority == mid.priority)
            && (mid.due != start.due || mid.priority != start.priority ==> done.due == mid.due && done.priority == mid.priority)
  {
    RevisionPinsSchedule(key, w, ops, lease.key);
  }

  // ---------------------------------------------------------------- identity

  lemma WriteResultKeepsIndex(key: string -> string, a: Archive, r: Result)
    requires Indexed(key, a.people)
    ensures Indexed(key, WriteResult(key, a, r).0.people) && OwnersKept(a.people, WriteResult(key, a, r).0.people)
  {
    match r
    case IdentityResult(u) => SaveIdentityKeepsIndex(key, a.people, u);
    case AffiliationResult(u) => SaveAffiliationKeepsIndex(key, a.people, u);
    case _ =>
  }

  /** The people after a finish are those before it, or those its result makes of them. */
  lemma FinishWrites(key: string -> string, a: Archive, lease: Lease, now: real, nextDue: real, nextPriority: int, r: Result)
    ensures var b := Finish(key, a, lease, now, nextDue, nextPriority, r).0;
            b.people == a.people || b.people == WriteResult(key, a, r).0.people
  {
  }

  lemma FinishKeepsIndex(key: string -> string, w: World, op: Op)
    requires Indexed(key, w.archive.people) && op.Finished?
    ensures Indexed(key, Step(key, w, op).archive.people)
    ensures OwnersKept(w.archive.people, Step(key, w, op).archive.people)
  {
    WriteResultKeepsIndex(key, w.archive, op.result);
    FinishWrites(key, w.archive, op.lease, op.now, op.nextDue, op.nextPriority, op.result);
  }

  lemma StepKeepsIndex(key: string -> string, w: World, op: Op)
    requires Indexed(key, w.archive.people) && Enabled(w, op)
    ensures Indexed(key, Step(key, w, op).archive.people)
    ensures OwnersKept(w.archive.people, Step(key, w, op).archive.people)
  {
    var people := w.archive.people;
    match op
    case Finished(_, _, _, _, _) => FinishKeepsIndex(key, w, op);
    case IdentitySaved(u) => SaveIdentityKeepsIndex(key, people, u);
    case AffiliationSaved(u) => SaveAffiliationKeepsIndex(key, people, u);
    case Sighted(id, seen) => SightKeepsIndex(key, people, id, seen);
    case Claimed(_, _, _, _) => ClaimTakes(key, w, op);
    case _ =>
  }

  /** One active key per profile, permanent key owners, growing revisions: over every run. */
  lemma {:induction false} RunsKeepIndex(key: string -> string, w: World, ops: seq<Op>)
    requires Indexed(key, w.archive.people) && Runs(key, w, ops)
    ensures Indexed(key, After(key, w, ops).archive.people)
    ensures OwnersKept(w.archive.people, After(key, w, ops).archive.people)
    decreases |ops|
  {
    if ops != [] {
      StepKeepsIndex(key, w, ops[0]);
      RunsKeepIndex(key, Step(key, w, ops[0]), ops[1..]);
    }
  }

  /** Any two profiles that ever carried the same folded name, at any two times, are one character. */
  lemma NameNeverChangesHands(key: string -> string, w: World, ops: seq<Op>, a: int, b: int)
    requires Indexed(key, w.archive.people) && Runs(key, w, ops)
    requires a in w.archive.people.profiles && b in After(key, w, ops).archive.people.profiles
    requires key(w.archive.people.profiles[a].name) == key(After(key, w, ops).archive.people.profiles[b].name)
    ensures a == b
  {
    RunsKeepIndex(key, w, ops);
  }
}
