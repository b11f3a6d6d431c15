/**
  The leased refresh queue (app/esi/personnel_archive.py): one row per job, scheduled by requests,
  leased by claim, acknowledged by finish and backed off by fail.
 */
module RefreshJobs {
  import opened Common
  import opened PersonnelPolicy

  datatype Kind = Resolve | Identity | Affiliation | Corporation | Alliance

  /** Resolve jobs are keyed by folded name, all others by the decimal text of a positive id. */
  datatype Entity = Name(text: string) | Id(id: int)

  datatype JobKey = JobKey(kind: Kind, entity: Entity, context: string)

  datatype Job = Job(
    priority: int, due: real, revision: nat, leasedRevision: nat,
    token: string, until: real, failures: nat, error: string)

  type Jobs = map<JobKey, Job>

  datatype Request = Request(key: JobKey, priority: int, due: real)

  datatype Lease = Lease(key: JobKey, token: string, revision: nat, failures: nat)

  datatype Pick = Pick(key: JobKey, token: string)

  datatype Lane = Lane(low: int, high: int, oldestFirst: bool, kind: Option<Kind>)

  // ---------------------------------------------------------------- requests

  /** INSERT ... ON CONFLICT DO UPDATE ... WHERE of request_refresh. */
  function Upsert(jobs: Jobs, r: Request, promoteOnly: bool): Jobs {
    if r.key !in jobs then jobs[r.key := Job(r.priority, r.due, 1, 0, "", 0.0, 0, "")]
    else
      var j := jobs[r.key];
      if r.priority < j.priority || (!promoteOnly && j.failures == 0 && r.due < j.due) then
        jobs[r.key := j.(
             priority := if r.priority < j.priority then r.priority else j.priority,
             due := if j.failures > 0 then j.due else if r.due < j.due then r.due else j.due,
             revision := j.revision + 1)]
      else jobs
  }

  function UpsertAll(jobs: Jobs, rs: seq<Request>, promoteOnly: bool): Jobs {
    if rs == [] then jobs
    else Upsert(UpsertAll(jobs, rs[..|rs| - 1], promoteOnly), rs[|rs| - 1], promoteOnly)
  }

  /**
    One request: a new job as asked for; an existing one only moves to a smaller priority or, unless it is
    retrying or this is a mere promotion, an earlier time. A promotion that moves the priority moves the time too.
   */
  lemma UpsertMeans(jobs: Jobs, r: Request, promoteOnly: bool, k: JobKey)
    ensures k in Upsert(jobs, r, promoteOnly) <==> k in jobs || k == r.key
    ensures k in jobs && k != r.key ==> Upsert(jobs, r, promoteOnly)[k] == jobs[k]
    ensures r.key !in jobs ==>
              var j := Upsert(jobs, r, promoteOnly)[r.key]; j.priority == r.priority && j.due == r.due && j.revision == 1 && Fresh(j)
    ensures r.key in jobs ==>
              var i, j := jobs[r.key], Upsert(jobs, r, promoteOnly)[r.key];
              && SameLease(i, j) && j.priority == MinInt(i.priority, r.priority)
              && j.due == (if i.failures == 0 && (!promoteOnly || r.priority < i.priority) then MinReal(i.due, r.due) else i.due)
              && (j.revision == i.revision || j.revision == i.revision + 1)
              && (j.revision == i.revision <==> j == i)
  {
  }

  function Find(jobs: Jobs, k: JobKey): Option<Job> {
    if k in jobs then Some(jobs[k]) else None
  }

  /** A job that exists keeps its lease fields, failure count and last error through any request. */
  predicate SameLease(a: Job, b: Job) {
    && a.leasedRevision == b.leasedRevision && a.token == b.token && a.until == b.until
    && a.failures == b.failures && a.error == b.error
  }

  predicate Fresh(j: Job) {
    j.leasedRevision == 0 && j.token == "" && j.until == 0.0 && j.failures == 0 && j.error == ""
  }

  /**
    The schedule of job k after the requests in rs, whatever their order, repetition or batching:
    the least requested priority, and the least requested due time unless the job is backing off.
   */
  ghost predicate Settled(before: Option<Job>, rs: seq<Request>, k: JobKey, after: Option<Job>) {
    && (after.Some? <==> before.Some? || exists r :: r in rs && r.key == k)
    && (after.Some? ==>
          && (if before.Some? then SameLease(before.value, after.value) else Fresh(after.value))
          && SettledPriority(before, rs, k, after.value)
          && SettledDue(before, rs, k, after.value))
  }

  ghost predicate SettledPriority(before: Option<Job>, rs: seq<Request>, k: JobKey, j: Job) {
    && (forall r :: r in rs && r.key == k ==> j.priority <= r.priority)
    && (before.Some? ==> j.priority <= before.value.priority)
    && ((before.Some? && j.priority == before.value.priority) || exists r :: r in rs && r.key == k && r.priority == j.priority)
  }

  ghost predicate SettledDue(before: Option<Job>, rs: seq<Request>, k: JobKey, j: Job) {
    && (j.failures > 0 ==> before.Some? && j.due == before.value.due)
    && (j.failures == 0 ==>
          && (forall r :: r in rs && r.key == k ==> j.due <= r.due)
          && (before.Some? ==> j.due <= before.value.due)
          && ((before.Some? && j.due == before.value.due) || exists r :: r in rs && r.key == k && r.due == j.due))
  }

  /** One request more. */
  lemma OneMorePriority(before: Option<Job>, rs: seq<Request>, r: Request, k: JobKey, mid: Option<Job>, j: Job)
    requires r.key == k && (mid.None? ==> before.None? && j.priority == r.priority && forall q :: q in rs ==> q.key != k)
    requires mid.Some? ==> SettledPriority(before, rs, k, mid.value)
                           && j.priority == (if r.priority < mid.value.priority then r.priority else mid.value.priority)
    ensures SettledPriority(before, rs + [r], k, j)
  {
    assert forall q :: q in rs + [r] <==> q in rs || q == r;
  }

  lemma OneMoreDue(before: Option<Job>, rs: seq<Request>, r: Request, k: JobKey, mid: Option<Job>, j: Job)
    requires r.key == k
    requires mid.None? ==> before.None? && j.due == r.due && j.failures == 0 && forall q :: q in rs ==> q.key != k
    requires mid.Some? ==> SettledDue(before, rs, k, mid.value) && j.failures == mid.value.failures
                           && j.due == (if mid.value.failures > 0 || mid.value.due <= r.due then mid.value.due else r.due)
    ensures SettledDue(before, rs + [r], k, j)
  {
    assert forall q :: q in rs + [r] <==> q in rs || q == r;
  }

  lemma UpsertAt(jobs: Jobs, r: Request)
    ensures r.key in Upsert(jobs, r, false)
    ensures var j := Upsert(jobs, r, false)[r.key];
            if r.key !in jobs then j.priority == r.priority && j.due == r.due && Fresh(j)
            else
              var i := jobs[r.key];
              && SameLease(i, j)
              && j.priority == (if r.priority < i.priority then r.priority else i.priority)
              && j.due == (if i.failures > 0 || i.due <= r.due then i.due else r.due)
  {
  }

  lemma OneMoreSettles(before: Option<Job>, rs: seq<Request>, r: Request, jobs: Jobs)
    requires Settled(before, rs, r.key, Find(jobs, r.key))
    ensures Settled(before, rs + [r], r.key, Find(Upsert(jobs, r, false), r.key))
  {
    var k := r.key;
    UpsertAt(jobs, r);
    OneMorePriority(before, rs, r, k, Find(jobs, k), Upsert(jobs, r, false)[k]);
    OneMoreDue(before, rs, r, k, Find(jobs, k), Upsert(jobs, r, false)[k]);
    assert r in rs + [r];
  }

  lemma OtherRequestSettles(before: Option<Job>, rs: seq<Request>, r: Request, k: JobKey, j: Option<Job>)
    requires Settled(before, rs, k, j) && r.key != k
    ensures Settled(before, rs + [r], k, j)
  {
    assert forall q :: q in rs + [r] <==> q in rs || q == r;
  }

  lemma {:induction false} UpsertAllSettles(jobs: Jobs, rs: seq<Request>, k: JobKey)
    ensures Settled(Find(jobs, k), rs, k, Find(UpsertAll(jobs, rs, false), k))
  {
    if rs != [] {
      var init, r := rs[..|rs| - 1], rs[|rs| - 1];
      var mid := UpsertAll(jobs, init, false);
      UpsertAllSettles(jobs, init, k);
      assert rs == init + [r];
      if r.key == k {
        OneMoreSettles(Find(jobs, k), init, r, mid);
      } else {
        assert Find(Upsert(mid, r, false), k) == Find(mid, k);
        OtherRequestSettles(Find(jobs, k), init, r, k, Find(mid, k));
      }
    }
  }

  /** Settled determines the schedule, so it is the same for every order, repetition or merge. */
  lemma SettledOnce(before: Option<Job>, rs: seq<Request>, qs: seq<Request>, k: JobKey, a: Option<Job>, b: Option<Job>)
    requires forall r :: r in rs && r.key == k <==> r in qs && r.key == k
    requires Settled(before, rs, k, a) && Settled(before, qs, k, b)
    ensures a.Some? <==> b.Some?
    ensures a.Some? ==> a.value.priority == b.value.priority && a.value.due == b.value.due && SameLease(a.value, b.value)
  {
    if before.Some? || exists r :: r in rs && r.key == k {
      var x, y := a.value, b.value;
      assert x.priority <= y.priority && y.priority <= x.priority;
      assert x.failures == y.failures;
    }
  }

  ghost predicate SameSchedules(a: Jobs, b: Jobs) {
    && a.Keys == b.Keys
    && (forall k :: k in a ==> a[k].priority == b[k].priority && a[k].due == b[k].due && SameLease(a[k], b[k]))
  }

  /** Requests one at a time, in any order and with any repetition, leave the same schedules. */
  lemma RequestOrderIrrelevant(jobs: Jobs, rs: seq<Request>, qs: seq<Request>)
    requires forall r :: r in rs <==> r in qs
    ensures SameSchedules(UpsertAll(jobs, rs, false), UpsertAll(jobs, qs, false))
  {
    var a, b := UpsertAll(jobs, rs, false), UpsertAll(jobs, qs, false);
    forall k
      ensures k in a <==> k in b
      ensures k in a ==> a[k].priority == b[k].priority && a[k].due == b[k].due && SameLease(a[k], b[k])
    {
      UpsertAllSettles(jobs, rs, k);
      UpsertAllSettles(jobs, qs, k);
      SettledOnce(Find(jobs, k), rs, qs, k, Find(a, k), Find(b, k));
    }
  }

  /** Chunks commit one after another inside one transaction; where they are cut does not matter. */
  lemma {:induction false} UpsertAllSplits(jobs: Jobs, rs: seq<Request>, qs: seq<Request>, promoteOnly: bool)
    ensures UpsertAll(jobs, rs + qs, promoteOnly) == UpsertAll(UpsertAll(jobs, rs, promoteOnly), qs, promoteOnly)
  {
    if qs == [] {
      assert rs + qs == rs;
    } else {
      UpsertAllSplits(jobs, rs, qs[..|qs| - 1], promoteOnly);
      assert (rs + qs)[..|rs + qs| - 1] == rs + qs[..|qs| - 1];
    }
  }

  /** A request moves the revision of an existing job exactly when it moves its schedule. */
  lemma UpsertRevision(jobs: Jobs, r: Request, promoteOnly: bool, k: JobKey)
    requires k in jobs
    ensures k in Upsert(jobs, r, promoteOnly)
    ensures var a, b := jobs[k], Upsert(jobs, r, promoteOnly)[k];
            && SameLease(a, b)
            && b.priority <= a.priority && b.due <= a.due
            && b.revision == a.revision + (if (a.priority, a.due) == (b.priority, b.due) then 0 else 1)
            && (a.failures > 0 ==> a.due == b.due)
  {
  }

  /** Priority and due time only ever fall, and the revision stands still exactly while both do. */
  ghost predicate Advanced(a: Job, b: Job) {
    && a.revision <= b.revision && b.priority <= a.priority && b.due <= a.due
    && (a.revision == b.revision <==> a.priority == b.priority && a.due == b.due)
  }

  /** The same over any batch. */
  lemma {:induction false} UpsertAllRevision(jobs: Jobs, rs: seq<Request>, promoteOnly: bool, k: JobKey)
    requires k in jobs
    ensures k in UpsertAll(jobs, rs, promoteOnly)
    ensures var a, b := jobs[k], UpsertAll(jobs, rs, promoteOnly)[k];
            SameLease(a, b) && Advanced(a, b) && (a.failures > 0 ==> a.due == b.due)
  {
    if rs != [] {
      UpsertAllRevision(jobs, rs[..|rs| - 1], promoteOnly, k);
      UpsertRevision(UpsertAll(jobs, rs[..|rs| - 1], promoteOnly), rs[|rs| - 1], promoteOnly, k);
    }
  }

  // ------------------------------------------------- merging a request batch

  /** The `cleaned` dictionary: least priority and least due time per key, over all duplicates. */
  function Merge(rs: seq<Request>): (m: map<JobKey, (int, real)>)
    ensures forall k :: k in m <==> exists r :: r in rs && r.key == k
  {
    if rs == [] then map[]
    else
      var init, r := rs[..|rs| - 1], rs[|rs| - 1];
      var m := Merge(init);
      var least := if r.key in m then m[r.key] else (r.priority, r.due);
      assert rs == init + [r];
      assert forall q :: q in rs <==> q in init || q == r;
      m[r.key := (MinInt(r.priority, least.0), MinReal(r.due, least.1))]
  }

  ghost predicate LeastOf(rs: seq<Request>, k: JobKey, p: int, d: real) {
    && (forall r :: r in rs && r.key == k ==> p <= r.priority && d <= r.due)
    && (exists r :: r in rs && r.key == k && r.priority == p)
    && (exists r :: r in rs && r.key == k && r.due == d)
  }

  lemma {:induction false} MergeIsLeast(rs: seq<Request>, k: JobKey)
    requires k in Merge(rs)
    ensures LeastOf(rs, k, Merge(rs)[k].0, Merge(rs)[k].1)
  {
    var init, r := rs[..|rs| - 1], rs[|rs| - 1];
    assert rs == init + [r];
    assert forall q :: q in rs <==> q in init || q == r;
    assert r in rs;
    if k in Merge(init) {
      MergeIsLeast(init, k);
    }
  }

  /** The merged rows, each key once, in some order. */
  ghost predicate Rows(m: map<JobKey, (int, real)>, rows: seq<Request>) {
    && (forall i, j :: 0 <= i < j < |rows| ==> rows[i].key != rows[j].key)
    && (forall r :: r in rows <==> r.key in m && m[r.key] == (r.priority, r.due))
  }

  lemma MergedJobSettles(jobs: Jobs, rs: seq<Request>, rows: seq<Request>, k: JobKey)
    requires Rows(Merge(rs), rows)
    ensures Settled(Find(jobs, k), rs, k, Find(UpsertAll(jobs, rows, false), k))
  {
    UpsertAllSettles(jobs, rows, k);
    var m := Merge(rs);
    if k in m {
      MergeIsLeast(rs, k);
      var row := Request(k, m[k].0, m[k].1);
      assert row in rows;
      assert forall r :: r in rows && r.key == k ==> r == row;
    }
  }

  /** Merging duplicates first leaves the schedules that the requests leave one by one. */
  lemma BatchEqualsOneByOne(jobs: Jobs, rs: seq<Request>, rows: seq<Request>)
    requires Rows(Merge(rs), rows)
    ensures SameSchedules(UpsertAll(jobs, rows, false), UpsertAll(jobs, rs, false))
  {
    var a, b := UpsertAll(jobs, rows, false), UpsertAll(jobs, rs, false);
    forall k
      ensures k in a <==> k in b
      ensures k in a ==> a[k].priority == b[k].priority && a[k].due == b[k].due && SameLease(a[k], b[k])
    {
      UpsertAllSettles(jobs, rs, k);
      MergedJobSettles(jobs, rs, rows, k);
      SettledOnce(Find(jobs, k), rs, rs, k, Find(a, k), Find(b, k));
    }
  }

  // ------------------------------------------------------------- expedite

  /** Pull a legacy affiliation deadline forward, sparing leases and retries. */
  function Expedite(jobs: Jobs, characterId: int, now: real, due: real): Jobs {
    var k := JobKey(Affiliation, Id(characterId), "");
    if k in jobs && jobs[k].failures == 0 && jobs[k].until <= now && jobs[k].due > MaxReal(due, now + 60.0)
    then jobs[k := jobs[k].(due := due, revision := jobs[k].revision + 1)]
    else jobs
  }

  /** Expediting spares leases and retries, never postpones, and moves the revision exactly with the schedule. */
  lemma ExpediteOnlyAdvances(jobs: Jobs, characterId: int, now: real, due: real, k: JobKey)
    requires k in jobs
    ensures k in Expedite(jobs, characterId, now, due)
    ensures var a, b := jobs[k], Expedite(jobs, characterId, now, due)[k];
            && SameLease(a, b) && b.priority == a.priority && b.due <= a.due
            && b.revision == a.revision + (if b.due == a.due then 0 else 1)
            && (b != a ==> k.kind == Affiliation && a.failures == 0 && a.until <= now && b.due == due)
  {
  }

  /** It acts exactly on the affiliation job of that character, neither leased nor retrying, that is due over a minute late. */
  lemma ExpediteActs(jobs: Jobs, characterId: int, now: real, due: real, k: JobKey)
    ensures Expedite(jobs, characterId, now, due).Keys == jobs.Keys
    ensures k in jobs ==>
              (Expedite(jobs, characterId, now, due)[k] != jobs[k] <==>
               && k == JobKey(Affiliation, Id(characterId), "")
               && jobs[k].failures == 0 && jobs[k].until <= now
               && jobs[k].due > due && jobs[k].due > now + 60.0)
  {
    if k in jobs && Expedite(jobs, characterId, now, due)[k] == jobs[k] {
      assert jobs[k].revision != jobs[k].revision + 1;
    }
  }

  // ---------------------------------------------------- claim, finish, fail

  predicate Eligible(jobs: Jobs, k: JobKey, now: real, lane: Lane) {
    && k in jobs
    && jobs[k].due <= now && jobs[k].until <= now
    && lane.low <= jobs[k].priority <= lane.high
    && (lane.kind.Some? ==> k.kind == lane.kind.value)
  }

  /** The database's collation of job keys: any strict total order. */
  ghost predicate StrictOrder(less: (JobKey, JobKey) -> bool) {
    && (forall a, b :: less(a, b) ==> !less(b, a))
    && (forall a, b, c :: less(a, b) && less(b, c) ==> less(a, c))
    && (forall a, b :: less(a, b) || less(b, a) || a == b)
  }

  /** ORDER BY of claim. */
  predicate Before(less: (JobKey, JobKey) -> bool, jobs: Jobs, a: JobKey, b: JobKey, oldestFirst: bool)
    requires a in jobs && b in jobs
  {
    var x, y := jobs[a], jobs[b];
    if oldestFirst then x.due < y.due || (x.due == y.due && (x.priority < y.priority || (x.priority == y.priority && less(a, b))))
    else x.priority < y.priority || (x.priority == y.priority && (x.due < y.due || (x.due == y.due && less(a, b))))
  }

  lemma BeforeIsOrder(less: (JobKey, JobKey) -> bool, jobs: Jobs, a: JobKey, b: JobKey, oldestFirst: bool)
    requires StrictOrder(less) && a in jobs && b in jobs
    ensures !(Before(less, jobs, a, b, oldestFirst) && Before(less, jobs, b, a, oldestFirst))
    ensures a == b || Before(less, jobs, a, b, oldestFirst) || Before(less, jobs, b, a, oldestFirst)
  {
    assert less(a, b) || less(b, a) || a == b;
  }

  lemma BeforeIsTransitive(less: (JobKey, JobKey) -> bool, jobs: Jobs, a: JobKey, b: JobKey, c: JobKey, oldestFirst: bool)
    requires StrictOrder(less) && a in jobs && b in jobs && c in jobs
    requires Before(less, jobs, a, b, oldestFirst) && Before(less, jobs, b, c, oldestFirst)
    ensures Before(less, jobs, a, c, oldestFirst)
  {
    assert less(a, b) && less(b, c) ==> less(a, c);
  }

  /**
    The rows a claim selects: due, unleased, in its lane, not locked by another session, each once, in
    claim order, and none passed over for a later one or for lack of room.
   */
  ghost predicate FirstDue(less: (JobKey, JobKey) -> bool, jobs: Jobs, locked: set<JobKey>, rows: seq<JobKey>, now: real,
                           lane: Lane, limit: int)
  {
    && |rows| <= limit
    && (forall i :: 0 <= i < |rows| ==> Eligible(jobs, rows[i], now, lane) && rows[i] !in locked)
    && (forall i, j :: 0 <= i < j < |rows| ==> rows[i] != rows[j] && Before(less, jobs, rows[i], rows[j], lane.oldestFirst))
    && (forall k :: Eligible(jobs, k, now, lane) && k !in locked && k !in rows ==>
          |rows| == limit && forall i :: 0 <= i < |rows| ==> Before(less, jobs, rows[i], k, lane.oldestFirst))
  }

  /** a is due before b in claim order, names apart: by urgency and then age, or the other way round. */
  predicate NoLater(a: Job, b: Job, oldestFirst: bool) {
    if oldestFirst then a.due < b.due || (a.due == b.due && a.priority <= b.priority)
    else a.priority < b.priority || (a.priority == b.priority && a.due <= b.due)
  }

  /**
    Every selected row is due, unleased and in its lane, and they come in claim order. Such a row of no other
    session is left behind only when the limit is reached, and then only for rows that are no later.
   */
  lemma SelectionMeans(less: (JobKey, JobKey) -> bool, jobs: Jobs, locked: set<JobKey>, rows: seq<JobKey>, now: real, lane: Lane, limit: int)
    requires FirstDue(less, jobs, locked, rows, now, lane, limit)
    ensures forall i :: 0 <= i < |rows| ==>
              && rows[i] in jobs && jobs[rows[i]].due <= now && jobs[rows[i]].until <= now
              && lane.low <= jobs[rows[i]].priority <= lane.high && (lane.kind == None || lane.kind == Some(rows[i].kind))
    ensures forall i, j :: 0 <= i < j < |rows| ==> NoLater(jobs[rows[i]], jobs[rows[j]], lane.oldestFirst)
    ensures forall k :: k in jobs && jobs[k].due <= now && jobs[k].until <= now && lane.low <= jobs[k].priority <= lane.high
                        && (lane.kind == None || lane.kind == Some(k.kind)) && k !in locked && k !in rows ==>
              |rows| == limit && forall i :: 0 <= i < |rows| ==> NoLater(jobs[rows[i]], jobs[k], lane.oldestFirst)
  {
    forall k | k in jobs && jobs[k].due <= now && jobs[k].until <= now && lane.low <= jobs[k].priority <= lane.high
               && (lane.kind == None || lane.kind == Some(k.kind)) && k !in locked && k !in rows
      ensures |rows| == limit && forall i :: 0 <= i < |rows| ==> NoLater(jobs[rows[i]], jobs[k], lane.oldestFirst)
    {
      assert Eligible(jobs, k, now, lane);
    }
  }

  /** The n-th selected row cannot be later than another selection's, once both agree before it. */
  lemma NotLater(less: (JobKey, JobKey) -> bool, jobs: Jobs, locked: set<JobKey>, rows: seq<JobKey>, others: seq<JobKey>,
                 now: real, lane: Lane, limit: int, n: nat)
    requires StrictOrder(less)
    requires FirstDue(less, jobs, locked, rows, now, lane, limit) && FirstDue(less, jobs, locked, others, now, lane, limit)
    requires n < |rows| && n <= |others| && rows[..n] == others[..n]
    ensures n < |others| && (rows[n] == others[n] || Before(less, jobs, others[n], rows[n], lane.oldestFirst))
  {
    assert Eligible(jobs, rows[n], now, lane);
    forall m | 0 <= m < n ensures others[m] == rows[m] != rows[n] {
      assert rows[..n][m] == others[..n][m];
    }
    assert rows[n] in others ==> rows[n] in others[n..] by {
      assert others == others[..n] + others[n..];
      forall k | k in others[..n] ensures k != rows[n] {
        var m :| 0 <= m < n && others[m] == k;
      }
    }
  }

  /** What a claim selects is determined by the table, the locked rows and its arguments. */
  lemma {:induction false} SelectionIsUnique(less: (JobKey, JobKey) -> bool, jobs: Jobs, locked: set<JobKey>, rows: seq<JobKey>,
                                             others: seq<JobKey>, now: real, lane: Lane, limit: int, n: nat)
    requires StrictOrder(less)
    requires FirstDue(less, jobs, locked, rows, now, lane, limit) && FirstDue(less, jobs, locked, others, now, lane, limit)
    requires n <= |rows| && n <= |others| && rows[..n] == others[..n]
    ensures rows == others
    decreases |rows| - n
  {
    if n < |rows| {
      NotLater(less, jobs, locked, rows, others, now, lane, limit, n);
      NotLater(less, jobs, locked, others, rows, now, lane, limit, n);
      BeforeIsOrder(less, jobs, rows[n], others[n], lane.oldestFirst);
      assert rows[..n + 1] == rows[..n] + [rows[n]] && others[..n + 1] == others[..n] + [others[n]];
      SelectionIsUnique(less, jobs, locked, rows, others, now, lane, limit, n + 1);
    } else if n < |others| {
      NotLater(less, jobs, locked, others, rows, now, lane, limit, n);
    }
  }

  function Picks(rows: seq<JobKey>, tokens: seq<string>): (ps: seq<Pick>)
    requires |rows| <= |tokens|
    ensures |ps| == |rows|
    ensures forall i :: 0 <= i < |rows| ==> ps[i] == Pick(rows[i], tokens[i])
    ensures forall p :: p in ps ==> p.key in rows
  {
    seq(|rows|, i requires 0 <= i < |rows| => Pick(rows[i], tokens[i]))
  }

  function Take(jobs: Jobs, p: Pick, until: real): Jobs
    requires p.key in jobs
  {
    jobs[p.key := jobs[p.key].(token := p.token, until := until, leasedRevision := jobs[p.key].revision)]
  }

  function TakeAll(jobs: Jobs, ps: seq<Pick>, until: real): (out: Jobs)
    requires forall i :: 0 <= i < |ps| ==> ps[i].key in jobs
    ensures out.Keys == jobs.Keys
  {
    if ps == [] then jobs
    else Take(TakeAll(jobs, ps[..|ps| - 1], until), ps[|ps| - 1], until)
  }

  lemma {:induction false} TakeAllAt(jobs: Jobs, ps: seq<Pick>, until: real, k: JobKey)
    requires forall i :: 0 <= i < |ps| ==> ps[i].key in jobs
    requires forall i, j :: 0 <= i < j < |ps| ==> ps[i].key != ps[j].key
    requires k in jobs
    ensures forall p :: p in ps && p.key == k ==>
              TakeAll(jobs, ps, until)[k] == jobs[k].(token := p.token, until := until, leasedRevision := jobs[k].revision)
    ensures (forall p :: p in ps ==> p.key != k) ==> TakeAll(jobs, ps, until)[k] == jobs[k]
  {
    if ps != [] {
      var init, l := ps[..|ps| - 1], ps[|ps| - 1];
      TakeAllAt(jobs, init, until, k);
      assert ps == init + [l];
      assert forall p :: p in ps <==> p in init || p == l;
      if l.key == k {
        assert forall p :: p in init ==> p.key != k by {
          forall p | p in init ensures p.key != k {
            var i :| 0 <= i < |init| && init[i] == p;
            assert ps[i] == p;
          }
        }
      }
    }
  }

  /** The row _leased selects: same token, same leased revision, lease not over. */
  predicate Leased(jobs: Jobs, lease: Lease, now: real) {
    && lease.key in jobs
    && jobs[lease.key].token == lease.token
    && jobs[lease.key].until > now
    && jobs[lease.key].leasedRevision == lease.revision
  }

  /** Acknowledge: release the lease; the worker's schedule stands only if nobody moved it meanwhile. */
  function Release(jobs: Jobs, lease: Lease, nextDue: real, nextPriority: int): Jobs
    requires lease.key in jobs
  {
    var j := jobs[lease.key];
    var same := j.revision == lease.revision;
    jobs[lease.key := j.(token := "", until := 0.0, failures := 0, error := "",
         due := if same then nextDue else j.due,
         priority := if same then nextPriority else j.priority)]
  }

  const SAFE_CODES := {"timeout", "throttled", "upstream", "not_found", "conflict", "storage"}

  function BackOff(jobs: Jobs, k: JobKey, code: string, due: real): Jobs
    requires k in jobs
  {
    jobs[k := jobs[k].(failures := jobs[k].failures + 1, error := code, due := due, token := "", until := 0.0)]
  }
}
