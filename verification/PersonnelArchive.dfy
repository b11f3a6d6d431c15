/** The archive object (app/esi/personnel_archive.py); tables are fields, transactions are methods. */
module PersonnelArchive {
  import opened Common
  import opened PersonnelPolicy
  import opened RefreshJobs
  import opened Identities
  import opened NewestCell
  import opened ArchiveRuns
  import Sightings

  const MAX_BATCH := 1000
  const CHUNK := 100

  datatype Target = ByName(name: string) | ById(id: int)

  datatype RawRequest = RawRequest(kind: Kind, target: Target, priority: int, due: real)

  /** _job_key: resolve jobs take a non-empty name, all others a positive id. */
  function CleanKey(key: string -> string, kind: Kind, target: Target, context: string): Option<JobKey> {
    if kind == Resolve then
      if target.ByName? && target.name != "" then Some(JobKey(kind, Name(key(target.name)), context)) else None
    else
      if target.ById? && target.id > 0 then Some(JobKey(kind, Id(target.id), context)) else None
  }

  function Clean(key: string -> string, raw: RawRequest, context: string): Option<Request> {
    var k := CleanKey(key, raw.kind, raw.target, context);
    if k.None? || !(0 <= raw.priority <= 5) || !Timestamp(raw.due) then None
    else Some(Request(k.value, raw.priority, raw.due))
  }

  /** A request is accepted exactly for a non-empty name or a positive id, whichever its kind takes, a priority and a time. */
  lemma CleanMeans(key: string -> string, raw: RawRequest, context: string)
    ensures var r := Clean(key, raw, context);
            && (r.Some? <==>
                && (if raw.kind.Resolve? then raw.target.ByName? && raw.target.name != "" else raw.target.ById? && raw.target.id > 0)
                && 0 <= raw.priority <= 5 && raw.due >= 0.0)
            && (r.Some? ==>
                  && r.value.priority == raw.priority && r.value.due == raw.due
                  && r.value.key.kind == raw.kind && r.value.key.context == context
                  && (raw.target.ByName? ==> r.value.key.entity == Name(key(raw.target.name)))
                  && (raw.target.ById? ==> r.value.key.entity == Id(raw.target.id)))
  {
  }

  predicate AllClean(key: string -> string, raws: seq<RawRequest>) {
    forall i :: 0 <= i < |raws| ==> Clean(key, raws[i], "").Some?
  }

  function CleanAll(key: string -> string, raws: seq<RawRequest>): (rs: seq<Request>)
    requires AllClean(key, raws)
    ensures |rs| == |raws|
  {
    seq(|raws|, i requires 0 <= i < |raws| => Clean(key, raws[i], "").value)
  }

  function LeaseOf(j: Job, k: JobKey, token: string): Lease { Lease(k, token, j.revision, j.failures) }

  lemma CleanOneMore(key: string -> string, raws: seq<RawRequest>, i: nat)
    requires i < |raws| && AllClean(key, raws[..i]) && Clean(key, raws[i], "").Some?
    ensures AllClean(key, raws[..i + 1])
    ensures CleanAll(key, raws[..i + 1]) == CleanAll(key, raws[..i]) + [Clean(key, raws[i], "").value]
    ensures CleanAll(key, raws[..i + 1])[..i] == CleanAll(key, raws[..i])
  {
    assert forall n :: 0 <= n < i ==> raws[..i + 1][n] == raws[..i][n];
    assert raws[..i + 1][i] == raws[i];
  }

  /** One turn of the merging loop. */
  lemma MergeOneMore(key: string -> string, raws: seq<RawRequest>, i: nat)
    requires i < |raws| && AllClean(key, raws[..i]) && Clean(key, raws[i], "").Some?
    ensures AllClean(key, raws[..i + 1])
    ensures var m, r := Merge(CleanAll(key, raws[..i])), Clean(key, raws[i], "").value;
            var least := if r.key in m then m[r.key] else (r.priority, r.due);
            Merge(CleanAll(key, raws[..i + 1])) == m[r.key := (MinInt(r.priority, least.0), MinReal(r.due, least.1))]
  {
    CleanOneMore(key, raws, i);
  }

  class PersonnelArchive {
    const key: string -> string
    // The collation of job keys.
    const less: (JobKey, JobKey) -> bool
    var jobs: Jobs
    var profiles: map<int, Profile>
    var names: map<string, NameRow>
    var orgs: Organizations
    // Every profile row any transaction ever committed.
    ghost var committed: set<(int, Profile)>

    function State(): Archive
      reads this
    {
      Archive(jobs, People(profiles, names), orgs)
    }

    ghost predicate Valid()
      reads this
    {
      && Indexed(key, People(profiles, names))
      && (forall id :: id in profiles ==> (id, profiles[id]) in committed)
      && (forall row :: row in committed ==> key(row.1.name) in names && names[key(row.1.name)].owner == row.0)
      && (forall row :: row in committed ==> row.0 in profiles && row.1.revision <= profiles[row.0].revision)
    }

    constructor (key: string -> string, less: (JobKey, JobKey) -> bool)
      ensures Valid() && this.key == key && this.less == less
      ensures State() == EMPTY.archive && committed == {}
    {
      this.key, this.less := key, less;
      jobs, profiles, names, orgs, committed := map[], map[], map[], map[], {};
    }

    /** Publish a transaction's people tables, remembering the committed rows. */
    method Commit(people: People)
      requires Valid() && Indexed(key, people) && OwnersKept(People(profiles, names), people)
      modifies this`profiles, this`names, this`committed
      ensures Valid() && State() == old(State()).(people := people) && old(committed) <= committed
    {
      profiles, names := people.profiles, people.names;
      committed := committed + set id | id in people.profiles :: (id, people.profiles[id]);
      forall row | row in committed
        ensures key(row.1.name) in names && names[key(row.1.name)].owner == row.0
        ensures row.0 in profiles && row.1.revision <= profiles[row.0].revision
      {
        if row !in old(committed) {
          assert row.0 in people.profiles && people.profiles[row.0] == row.1;
        }
      }
    }

    method RequestRefresh(raw: RawRequest, context: string, promoteOnly: bool) returns (ok: bool)
      modifies this`jobs
      ensures ok <==> Clean(key, raw, context).Some?
      ensures jobs == if ok then Upsert(old(jobs), Clean(key, raw, context).value, promoteOnly) else old(jobs)
    {
      var r := Clean(key, raw, context);
      ok := r.Some?;
      if ok {
        jobs := Upsert(jobs, r.value, promoteOnly);
      }
    }

    /** Merge duplicates, then upsert chunk by chunk in one transaction. */
    method RequestRefreshMany(raws: seq<RawRequest>, promoteOnly: bool) returns (ok: bool)
      modifies this`jobs
      ensures ok <==> AllClean(key, raws)
      ensures !ok ==> jobs == old(jobs)
      ensures ok ==> exists rows :: Rows(Merge(CleanAll(key, raws)), rows) && jobs == UpsertAll(old(jobs), rows, promoteOnly)
      ensures ok && !promoteOnly ==> SameSchedules(jobs, UpsertAll(old(jobs), CleanAll(key, raws), false))
    {
      var cleaned := MergeRequests(raws);
      ok := cleaned.Some?;
      if ok {
        var rows := Flatten(cleaned.value);
        UpsertChunks(rows, promoteOnly);
        BatchEqualsOneByOne(old(jobs), CleanAll(key, raws), rows);
      }
    }

    method MergeRequests(raws: seq<RawRequest>) returns (cleaned: Option<map<JobKey, (int, real)>>)
      ensures cleaned.Some? <==> AllClean(key, raws)
      ensures cleaned.Some? ==> cleaned.value == Merge(CleanAll(key, raws))
    {
      var merged: map<JobKey, (int, real)> := map[];
      var i := 0;
      while i < |raws|
        invariant 0 <= i <= |raws|
        invariant AllClean(key, raws[..i])
        invariant merged == Merge(CleanAll(key, raws[..i]))
      {
        var r := Clean(key, raws[i], "");
        if r.None? {
          return None;
        }
        MergeOneMore(key, raws, i);
        var least := if r.value.key in merged then merged[r.value.key] else (r.value.priority, r.value.due);
        merged := merged[r.value.key := (MinInt(r.value.priority, least.0), MinReal(r.value.due, least.1))];
        i := i + 1;
      }
      assert raws[..i] == raws;
      cleaned := Some(merged);
    }

    method UpsertChunks(rows: seq<Request>, promoteOnly: bool)
      modifies this`jobs
      ensures jobs == UpsertAll(old(jobs), rows, promoteOnly)
    {
      var start := 0;
      while start < |rows|
        invariant 0 <= start <= |rows|
        invariant jobs == UpsertAll(old(jobs), rows[..start], promoteOnly)
      {
        var stop := MinInt(start + CHUNK, |rows|);
        UpsertAllSplits(old(jobs), rows[..start], rows[start..stop], promoteOnly);
        assert rows[..start] + rows[start..stop] == rows[..stop];
        jobs := UpsertAll(jobs, rows[start..stop], promoteOnly);
        start := stop;
      }
      assert rows[..start] == rows;
    }

    /** observe_many: the latest sighting of each character, merged before the rows are updated. */
    method ObserveMany(sightings: seq<Sightings.Sighting>) returns (ok: bool)
      requires Valid()
      modifies this
      ensures Valid() && old(committed) <= committed
      ensures ok <==> forall x :: x in sightings ==> x.id > 0 && Timestamp(x.at)
      ensures State() == old(State()).(people := if ok then Sightings.SightAll(old(State()).people, sightings) else old(State()).people)
    {
      var rows := Sightings.Merge(sightings);
      ok := rows.Some?;
      if ok {
        ghost var people := State().people;
        ghost var latest :| Sightings.Merged(sightings, latest) && Sightings.RowsOf(latest, rows.value);
        Sightings.MergedEqualsOneByOne(people, sightings, latest, rows.value);
        Sightings.SightAllKeepsIndex(key, people, sightings);
        Commit(Sightings.SightAll(People(profiles, names), rows.value));
      }
    }

    method ExpediteStaleAffiliation(id: int, now: real, due: Option<real>) returns (ok: bool)
      modifies this`jobs
      ensures ok <==> id > 0 && Timestamp(now) && (due.Some? ==> Timestamp(due.value))
      ensures jobs == if ok then Expedite(old(jobs), id, now, if due.Some? then due.value else now) else old(jobs)
    {
      ok := id > 0 && Timestamp(now) && (due.Some? ==> Timestamp(due.value));
      if ok {
        jobs := Expedite(jobs, id, now, if due.Some? then due.value else now);
      }
    }

    /** The first row in claim order among the candidates. */
    method First(candidates: set<JobKey>, oldestFirst: bool) returns (k: JobKey)
      requires StrictOrder(less) && candidates != {} && candidates <= jobs.Keys
      ensures k in candidates
      ensures forall c :: c in candidates && c != k ==> Before(less, jobs, k, c, oldestFirst)
    {
      k :| k in candidates;
      var rest := candidates - {k};
      while rest != {}
        invariant rest <= candidates && k in candidates && k !in rest
        invariant forall c :: c in candidates && c !in rest && c != k ==> Before(less, jobs, k, c, oldestFirst)
        decreases |rest|
      {
        var c :| c in rest;
        ghost var done := candidates - rest;
        BeforeIsOrder(less, jobs, c, k, oldestFirst);
        if Before(less, jobs, c, k, oldestFirst) {
          forall d | d in done && d != k ensures Before(less, jobs, c, d, oldestFirst) {
            BeforeIsTransitive(less, jobs, c, k, d, oldestFirst);
          }
          k := c;
        }
        rest := rest - {c};
      }
    }

    /** SELECT ... ORDER BY ... LIMIT ... FOR UPDATE SKIP LOCKED of claim. */
    method SelectDue(now: real, limit: nat, lane: Lane, locked: set<JobKey>) returns (rows: seq<JobKey>)
      requires StrictOrder(less)
      ensures FirstDue(less, jobs, locked, rows, now, lane, limit)
    {
      rows := [];
      var candidates := set k | k in jobs && Eligible(jobs, k, now, lane) && k !in locked;
      while |rows| < limit && candidates != {}
        invariant |rows| <= limit
        invariant forall k :: k in candidates <==> Eligible(jobs, k, now, lane) && k !in locked && k !in rows
        invariant forall i :: 0 <= i < |rows| ==> Eligible(jobs, rows[i], now, lane) && rows[i] !in locked
        invariant forall i, k :: 0 <= i < |rows| && k in candidates ==> Before(less, jobs, rows[i], k, lane.oldestFirst)
        invariant forall i, j :: 0 <= i < j < |rows| ==>
                    rows[i] != rows[j] && Before(less, jobs, rows[i], rows[j], lane.oldestFirst)
        decreases |candidates|
      {
        var k := First(candidates, lane.oldestFirst);
        candidates := candidates - {k};
        rows := rows + [k];
      }
    }

    /**
      Lease the first `limit` due jobs of a lane that no other session has locked; the tokens are the
      fresh randomness of uuid4.
     */
    method Claim(now: real, limit: int, seconds: real, lane: Lane, locked: set<JobKey>, tokens: seq<string>)
      returns (ok: bool, leases: seq<Lease>, rows: seq<JobKey>)
      requires StrictOrder(less) && |tokens| == MAX_BATCH
      modifies this`jobs
      ensures ok <==> Timestamp(now) && seconds > 0.0 && 1 <= limit <= MAX_BATCH && 0 <= lane.low <= lane.high <= 5
      ensures !ok ==> jobs == old(jobs) && leases == []
      ensures ok ==> FirstDue(less, old(jobs), locked, rows, now, lane, limit) && |rows| <= |tokens|
                     && (forall k :: k in rows ==> k in old(jobs))
                     && jobs == TakeAll(old(jobs), Picks(rows, tokens), now + seconds)
      ensures ok ==> |leases| == |rows|
                     && forall i :: 0 <= i < |rows| ==> leases[i] == LeaseOf(old(jobs)[rows[i]], rows[i], tokens[i])
    {
      leases, rows := [], [];
      ok := Timestamp(now) && seconds > 0.0 && 1 <= limit <= MAX_BATCH && 0 <= lane.low <= lane.high <= 5;
      if !ok {
        return;
      }
      rows := SelectDue(now, limit, lane, locked);
      leases := LeaseRows(rows, tokens, now + seconds);
    }

    /** The per-row UPDATE of claim. */
    method LeaseRow(row: JobKey, token: string, until: real) returns (lease: Lease)
      requires row in jobs
      modifies this`jobs
      ensures jobs == Take(old(jobs), Pick(row, token), until)
      ensures lease == LeaseOf(old(jobs)[row], row, token)
    {
      lease := Lease(row, token, jobs[row].revision, jobs[row].failures);
      jobs := Take(jobs, Pick(row, token), until);
    }

    method LeaseRows(rows: seq<JobKey>, tokens: seq<string>, until: real) returns (leases: seq<Lease>)
      requires |rows| <= |tokens|
      requires forall k :: k in rows ==> k in jobs
      requires forall i, j :: 0 <= i < j < |rows| ==> rows[i] != rows[j]
      modifies this`jobs
      ensures jobs == TakeAll(old(jobs), Picks(rows, tokens), until)
      ensures |leases| == |rows|
      ensures forall i :: 0 <= i < |rows| ==> leases[i] == LeaseOf(old(jobs)[rows[i]], rows[i], tokens[i])
    {
      leases := [];
      ghost var before, picks := jobs, Picks(rows, tokens);
      var i := 0;
      while i < |rows|
        invariant 0 <= i <= |rows| && |leases| == i
        invariant jobs == TakeAll(before, picks[..i], until)
        invariant AreLeases(leases, before, rows[..i], tokens[..i])
      {
        TakeTurn(before, picks, i, until);
        var lease := LeaseRow(rows[i], tokens[i], until);
        OneMoreLease(leases, before, rows, tokens, i, lease);
        leases := leases + [lease];
        i := i + 1;
      }
      assert picks[..i] == picks && rows[..i] == rows;
    }

    /** Write a leased result; a raised error leaves the tables alone. */
    method WriteLeased(result: Result) returns (o: Outcome)
      requires Valid()
      modifies this`profiles, this`names, this`committed, this`orgs
      ensures Valid() && old(committed) <= committed
      ensures o == WriteResult(key, old(State()), result).1
      ensures State() == if o == Raised then old(State()) else WriteResult(key, old(State()), result).0
      ensures o == Raised <==> Refused(key, old(State()), result)
      ensures o != Raised ==> Wrote(key, old(State()), result, State())
    {
      WriteResultMeans(key, State(), result);
      var (b, outcome) := WriteResult(key, State(), result);
      o := outcome;
      if o != Raised {
        WriteResultKeepsIndex(key, State(), result);
        CommitTables(b.people, b.orgs);
      }
    }

    method CommitTables(people: People, newOrgs: Organizations)
      requires Valid() && Indexed(key, people) && OwnersKept(People(profiles, names), people)
      modifies this`profiles, this`names, this`committed, this`orgs
      ensures Valid() && State() == Archive(old(jobs), people, newOrgs) && old(committed) <= committed
    {
      Commit(people);
      orgs := newOrgs;
    }

    method Finish(lease: Lease, now: real, nextDue: real, nextPriority: int, result: Result) returns (reply: Reply)
      requires Valid()
      modifies this
      ensures Valid() && old(committed) <= committed
      ensures (State(), reply) == ArchiveRuns.Finish(key, old(State()), lease, now, nextDue, nextPriority, result)
      ensures reply == Returned(true) ==> Wrote(key, old(State()), result, State()) && OneJobMoved(old(State()), lease.key, State())
      ensures reply != Returned(true) ==> State() == old(State())
    {
      FinishMeans(key, State(), lease, now, nextDue, nextPriority, result);
      if !Timestamp(now) || nextDue < now || !(0 <= nextPriority <= 5) {
        return Error;
      }
      if !Leased(jobs, lease, now) {
        return Returned(false);
      }
      if !Matches(key, lease.key, result) {
        return Error;
      }
      var o := WriteLeased(result);
      if o == Raised {
        return Error;
      }
      jobs := Release(jobs, lease, nextDue, nextPriority);
      reply := Returned(true);
    }

    method Fail(lease: Lease, now: real, code: string, jitter: real, retryAfter: real) returns (reply: Reply)
      modifies this`jobs
      ensures (State(), reply) == ArchiveRuns.Fail(old(State()), lease, now, code, jitter, retryAfter)
    {
      if !Timestamp(now) || code !in SAFE_CODES {
        return Error;
      }
      if !Leased(jobs, lease, now) {
        return Returned(false);
      }
      var delay := RetryDelay(jobs[lease.key].failures + 1, jitter, retryAfter);
      if delay.None? {
        return Error;
      }
      jobs := BackOff(jobs, lease.key, code, now + delay.value);
      reply := Returned(true);
    }

    /** One lease of a batch. */
    method Settle(step: BatchStep) returns (reply: Reply)
      requires Valid()
      modifies this
      ensures Valid() && old(committed) <= committed
      ensures (State(), reply) == StepBatch(key, old(State()), step)
    {
      match step
      case Ack(lease, now, nextDue, nextPriority, result) => reply := Finish(lease, now, nextDue, nextPriority, result);
      case Missing(lease, now) => reply := Fail(lease, now, "not_found", 0.5, 60.0);
    }

    method RollBack(saved: Archive, ghost before: set<(int, Profile)>)
      modifies this
      ensures State() == saved && committed == before
    {
      jobs, profiles, names, orgs := saved.jobs, saved.people.profiles, saved.people.names, saved.orgs;
      committed := before;
    }

    /** The transaction of commit_refresh_batch: every step, or nothing at all. */
    method FinishBatch(steps: seq<BatchStep>) returns (flags: Option<seq<bool>>)
      requires Valid()
      modifies this
      ensures Valid() && old(committed) <= committed
      ensures flags.None? <==> Batch(key, old(State()), steps).None?
      ensures flags.None? ==> State() == old(State()) && committed == old(committed)
      ensures flags.Some? ==> Batch(key, old(State()), steps) == Some((State(), flags.value))
    {
      var saved := State();
      ghost var before := committed;
      var done: seq<bool> := [];
      var i := 0;
      while i < |steps|
        invariant 0 <= i <= |steps|
        invariant Valid() && before <= committed
        invariant Batch(key, saved, steps[..i]) == Some((State(), done))
      {
        assert steps[..i + 1][..i] == steps[..i];
        var reply := Settle(steps[i]);
        if reply.Error? {
          BatchErrorIsFinal(key, saved, steps, i + 1);
          RollBack(saved, before);
          return None;
        }
        done := done + [reply.flag];
        i := i + 1;
      }
      assert steps[..i] == steps;
      flags := Some(done);
    }

    method SaveIdentity(u: IdentityUpdate) returns (o: Outcome)
      requires Valid()
      modifies this
      ensures Valid() && old(committed) <= committed
      ensures (State().people, o) == Identities.SaveIdentity(key, old(State()).people, u)
      ensures State() == old(State()).(people := State().people)
      ensures o == Raised <==> IdentityRefused(key, old(State()).people, u)
      ensures if o == Raised then State() == old(State()) else IdentityWrote(key, old(State()).people, u, State().people)
    {
      SaveIdentityMeans(key, People(profiles, names), u);
      SaveIdentityKeepsIndex(key, People(profiles, names), u);
      var (people, outcome) := Identities.SaveIdentity(key, People(profiles, names), u);
      Commit(people);
      o := outcome;
    }

    method SaveAffiliation(u: AffiliationUpdate) returns (o: Outcome)
      requires Valid()
      modifies this
      ensures Valid() && old(committed) <= committed
      ensures (State().people, o) == Identities.SaveAffiliation(old(State()).people, u)
      ensures State() == old(State()).(people := State().people)
      ensures o == Raised <==> AffiliationRefused(old(State()).people, u)
      ensures if o == Raised then State() == old(State()) else AffiliationWrote(old(State()).people, u, State().people)
    {
      SaveAffiliationMeans(People(profiles, names), u);
      SaveAffiliationKeepsIndex(key, People(profiles, names), u);
      var (people, outcome) := Identities.SaveAffiliation(People(profiles, names), u);
      Commit(people);
      o := outcome;
    }

    /**
      An invalid update errors and writes nothing. Otherwise the row ends as the newest of what it was and
      what was written, says whether the write took, and no other organization changes.
     */
    method SaveOrganization(u: OrganizationUpdate) returns (o: Outcome)
      modifies this`orgs
      ensures o == Raised <==> u.key.id <= 0 || u.name == "" || !Timestamp(u.fetched)
      ensures o == Raised ==> orgs == old(orgs)
      ensures o != Raised ==> u.key in orgs && orgs[u.key].at >= u.fetched
                              && Some(orgs[u.key]) == Newer(OrganizationCell(old(orgs), u.key), Stamped(u.fetched, u.name))
      ensures o == Written <==> OrganizationCell(orgs, u.key) != OrganizationCell(old(orgs), u.key)
      ensures forall k :: k != u.key ==> OrganizationCell(orgs, k) == OrganizationCell(old(orgs), k)
      ensures (orgs, o) == Identities.SaveOrganization(old(orgs), u)
    {
      if u.key.id <= 0 || u.name == "" || !Timestamp(u.fetched) {
        return Raised;
      }
      if u.key in orgs && orgs[u.key].at >= u.fetched {
        return Ignored;
      }
      orgs := orgs[u.key := Stamped(u.fetched, u.name)];
      o := Written;
    }

    /** One archive read for many folded names; None where the source raises on an empty or oversized list. */
    method FindNames(wanted: seq<string>) returns (found: Option<map<string, (int, Profile)>>)
      requires Valid()
      ensures found.None? <==> "" in wanted || |set w | w in wanted :: key(w)| > MAX_BATCH
      ensures found.Some? ==>
                forall k :: k in found.value <==> exists w, id :: w in wanted && key(w) == k && id in profiles && key(profiles[id].name) == k
      ensures found.Some? ==>
                forall k :: k in found.value ==>
                    var (id, row) := found.value[k];
                    id in profiles && profiles[id] == row && key(row.name) == k && (id, row) in committed
                    && k in names && names[k].owner == id
    {
      var keys := set w | w in wanted :: key(w);
      if "" in wanted || |keys| > MAX_BATCH {
        return None;
      }
      var people := People(profiles, names);
      forall k, id ensures FindName(people, k) == Some(id) <==> id in profiles && key(profiles[id].name) == k {
        FindNameIsScan(key, people, k, id);
      }
      found := Some(map k | k in keys && FindName(people, k).Some? ::
                      (FindName(people, k).value, profiles[FindName(people, k).value]));
      forall k | k in found.value
        ensures exists w, id :: w in wanted && key(w) == k && id in profiles && key(profiles[id].name) == k
      {
        var w :| w in wanted && key(w) == k;
        assert key(profiles[FindName(people, k).value].name) == k;
      }
    }
  }

  /** The rows of a dictionary, each key once. */
  method Flatten(m: map<JobKey, (int, real)>) returns (rows: seq<Request>)
    ensures Rows(m, rows)
  {
    rows := [];
    var rest := m.Keys;
    while rest != {}
      invariant rest <= m.Keys
      invariant forall i, j :: 0 <= i < j < |rows| ==> rows[i].key != rows[j].key
      invariant forall r :: r in rows <==> r.key in m && r.key !in rest && m[r.key] == (r.priority, r.due)
      decreases |rest|
    {
      var k :| k in rest;
      rest := rest - {k};
      assert forall r :: r in rows ==> r.key != k;
      rows := rows + [Request(k, m[k].0, m[k].1)];
    }
  }

  ghost predicate AreLeases(leases: seq<Lease>, before: Jobs, rows: seq<JobKey>, tokens: seq<string>)
    requires |rows| == |tokens|
  {
    |leases| == |rows| && forall n :: 0 <= n < |rows| ==> rows[n] in before && leases[n] == LeaseOf(before[rows[n]], rows[n], tokens[n])
  }

  lemma OneMoreLease(leases: seq<Lease>, before: Jobs, rows: seq<JobKey>, tokens: seq<string>, i: nat, lease: Lease)
    requires i < |rows| <= |tokens| && AreLeases(leases, before, rows[..i], tokens[..i])
    requires rows[i] in before && lease == LeaseOf(before[rows[i]], rows[i], tokens[i])
    ensures AreLeases(leases + [lease], before, rows[..i + 1], tokens[..i + 1])
  {
  }

  /** One turn of the row loop: the row is still untouched, and stamping it is one more of TakeAll. */
  lemma TakeTurn(before: Jobs, picks: seq<Pick>, i: nat, until: real)
    requires i < |picks| && forall n :: 0 <= n < |picks| ==> picks[n].key in before
    requires forall m, n :: 0 <= m < n < |picks| ==> picks[m].key != picks[n].key
    ensures var mid := TakeAll(before, picks[..i], until);
            && picks[i].key in mid && mid[picks[i].key] == before[picks[i].key]
            && Take(mid, picks[i], until) == TakeAll(before, picks[..i + 1], until)
  {
    assert picks[..i + 1][..i] == picks[..i];
    forall p | p in picks[..i] ensures p.key != picks[i].key {
      var n :| 0 <= n < i && picks[n] == p;
    }
    TakeAllAt(before, picks[..i], until, picks[i].key);
  }

  /** What claim selects, leased under fresh tokens, is a step of the archive's runs. */
  lemma ClaimIsEnabled(w: World, now: real, limit: int, seconds: real, lane: Lane,
                       less: (JobKey, JobKey) -> bool, locked: set<JobKey>, tokens: seq<string>, rows: seq<JobKey>)
    requires Timestamp(now) && seconds > 0.0 && |rows| <= |tokens|
    requires FirstDue(less, w.archive.jobs, locked, rows, now, lane, limit)
    requires forall i :: 0 <= i < |tokens| ==> tokens[i] != "" && !TokenUsed(w.grants, tokens[i])
    requires forall i, j :: 0 <= i < j < |tokens| ==> tokens[i] != tokens[j]
    ensures Enabled(w, Claimed(now, seconds, lane, Picks(rows, tokens)))
  {
    var picks := Picks(rows, tokens);
    assert forall i :: 0 <= i < |picks| ==> picks[i] == Pick(rows[i], tokens[i]);
  }
}
