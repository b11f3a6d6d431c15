/**
  Relation snapshots (app/esi/relation_archive.py) and their refresh with a memoised view
  (app/esi/relation_refresh.py). Other processes may write the archive at any time.
 */
module RelationRefresh {
  import opened Common
  import opened RelationViews

  datatype SourceKey = SourceKey(context: string, alliance: bool, id: int)

  datatype Stored = Stored(
    revision: nat, successfulAt: Option<real>, expiresAt: real, retryAt: real, failures: nat,
    authorized: bool, entries: Entries)

  const NEW_ROW := Stored(0, None, 0.0, 0.0, 0, true, map[])

  function FromRow(alliance: bool, id: int, r: Stored): RelationSource {
    RelationSource(alliance, id, r.revision, r.successfulAt, r.expiresAt, r.retryAt, r.failures, r.authorized, r.entries)
  }

  function ToRow(s: RelationSource, revision: nat): Stored {
    Stored(revision, s.successfulAt, s.expiresAt, s.retryAt, s.failures, s.authorized, s.entries)
  }

  /** The optimistic fence: the expected revision, and no older success than the stored one. */
  predicate Fits(row: Stored, s: RelationSource, expected: nat) {
    && row.revision == expected
    && (s.successfulAt.Some? && row.successfulAt.Some? ==> s.successfulAt.value >= row.successfulAt.value)
  }

  class RelationArchive {
    var rows: map<SourceKey, Stored>
    // The entry tables saved for each source, in revision order.
    ghost var tables: map<SourceKey, seq<Entries>>

    function Row(k: SourceKey): Stored
      reads this`rows
    {
      if k in rows then rows[k] else NEW_ROW
    }

    ghost function Tables(k: SourceKey): seq<Entries>
      reads this`tables
    {
      if k in tables then tables[k] else []
    }

    ghost predicate Valid()
      reads this
    {
      forall k :: |Tables(k)| == Row(k).revision && Recorded(k, Row(k).revision, Row(k).entries)
    }

    /** Revision 0 is the empty table; later ones hold what the save that made them wrote. */
    ghost predicate Recorded(k: SourceKey, revision: nat, entries: Entries)
      reads this`tables
    {
      if revision == 0 then entries == map[] else revision <= |Tables(k)| && Tables(k)[revision - 1] == entries
    }

    /** Tables are only added, and a row changes only under a new revision. */
    twostate predicate Extends()
      reads this
    {
      && (forall k :: old(Tables(k)) <= Tables(k))
      && (forall k :: Row(k).revision == old(Row(k)).revision ==> Row(k) == old(Row(k)))
    }

    constructor ()
      ensures Valid() && rows == map[]
    {
      rows, tables := map[], map[];
    }

    method Load(k: SourceKey) returns (s: RelationSource)
      requires Valid()
      ensures Recorded(k, s.revision, s.entries)
      ensures s == FromRow(k.alliance, k.id, Row(k))
    {
      s := FromRow(k.alliance, k.id, Row(k));
    }

    /** Compare and swap: a losing writer gets None and leaves the row as it was. */
    method Save(k: SourceKey, s: RelationSource, expected: nat) returns (saved: Option<RelationSource>)
      requires Valid()
      modifies this
      ensures Valid() && Extends()
      ensures rows == old(rows)[k := if Fits(old(Row(k)), s, expected) then ToRow(s, expected + 1) else old(Row(k))]
      ensures saved == (if Fits(old(Row(k)), s, expected) then Some(s.(revision := expected + 1)) else None)
      ensures saved.Some? ==> Recorded(k, saved.value.revision, saved.value.entries)
      // Exactly a writer that saw the stored revision, and no older success than the stored one, gets in.
      ensures saved.Some? <==> old(Row(k)).revision == expected
                               && !(s.successfulAt.Some? && old(Row(k)).successfulAt.Some? && s.successfulAt.value < old(Row(k)).successfulAt.value)
    {
      var row := Row(k);
      AddRow(k);
      if row.revision != expected {
        return None;
      }
      if s.successfulAt.Some? && row.successfulAt.Some? && s.successfulAt.value < row.successfulAt.value {
        return None;
      }
      Write(k, s.(revision := expected + 1));
      saved := Some(s.(revision := expected + 1));
    }

    /** INSERT ... ON CONFLICT DO NOTHING. */
    method AddRow(k: SourceKey)
      requires Valid()
      modifies this`rows
      ensures Valid() && rows == old(rows)[k := old(Row(k))]
    {
      rows := rows[k := Row(k)];
      assert forall n :: Row(n) == old(Row(n)) && Tables(n) == old(Tables(n));
    }

    method Write(k: SourceKey, s: RelationSource)
      requires Valid() && k in rows && s.revision == rows[k].revision + 1
      modifies this
      ensures Valid() && Extends()
      ensures rows == old(rows)[k := ToRow(s, s.revision)] && Recorded(k, s.revision, s.entries)
    {
      rows := rows[k := ToRow(s, s.revision)];
      tables := tables[k := Tables(k) + [s.entries]];
      forall n ensures |Tables(n)| == Row(n).revision && Recorded(n, Row(n).revision, Row(n).entries) {
        assert old(|Tables(n)| == Row(n).revision && Recorded(n, Row(n).revision, Row(n).entries));
        assert n != k ==> Row(n) == old(Row(n)) && Tables(n) == old(Tables(n));
      }
    }

    /** Any number of writes of other processes. */
    method OtherWriters()
      requires Valid()
      modifies this
      ensures Valid() && Extends()
    {
      var n: nat := *;
      while n > 0
        invariant Valid() && Extends()
      {
        var k: SourceKey, s: RelationSource, expected: nat := *, *, *;
        var ignored := Save(k, s, expected);
        n := n - 1;
      }
    }
  }

  // ---------------------------------------------------------------- refreshing

  /** A parsed upstream reply: complete contacts with a deadline, or an error with its status. */
  datatype Reply =
    | Contacts(entries: Entries, expires: real, degraded: bool)
    | Refused(status: int, retryAfter: real)

  function Doubling(failures: nat): real
    requires failures >= 1
  {
    if failures == 1 then 30.0 else if failures == 2 then 60.0 else if failures == 3 then 120.0
    else if failures == 4 then 240.0 else 300.0
  }

  /** Half a minute, doubled with every further failure up to five minutes. */
  lemma DoublingDoubles(failures: int)
    requires failures >= 1
    ensures Doubling(1) == 30.0 && Doubling(failures + 1) == MinReal(2.0 * Doubling(failures), 300.0)
  {
  }

  /** The source a refresh attempt computes, before it is saved; `jitter` is the random factor. */
  function Attempt(s: RelationSource, reply: Reply, now: real, jitter: real): RelationSource {
    match reply
    case Contacts(entries, expires, degraded) =>
      if expires <= now || degraded then Failure(s, 0, 0.0, now, jitter)
      else s.(successfulAt := Some(now), expiresAt := expires, authorized := true, failures := 0, entries := entries,
              retryAt := MaxReal(now + 5.0, MinReal(expires - 30.0, now + 300.0)))
    case Refused(status, retryAfter) => Failure(s, status, retryAfter, now, jitter)
  }

  function Failure(s: RelationSource, status: int, retryAfter: real, now: real, jitter: real): RelationSource {
    var delay := Doubling(s.failures + 1) * (1.0 + jitter * 0.1);
    var waited := if status in {401, 403, 420, 429} then MaxReal(delay, 300.0) else delay;
    s.(failures := s.failures + 1,
       authorized := s.authorized && status !in {401, 403},
       retryAt := now + MaxReal(waited, retryAfter))
  }

  /** A failed attempt never renews anything: whatever is usable afterwards was usable before. */
  lemma FailureNeverRenews(s: RelationSource, reply: Reply, now: real, jitter: real, t: real)
    requires jitter >= 0.0
    ensures var r := Attempt(s, reply, now, jitter);
            if reply.Contacts? && !reply.degraded && now < reply.expires then
              r.entries == reply.entries && r.successfulAt == Some(now) && r.expiresAt == reply.expires
            else
              && r.entries == s.entries && r.successfulAt == s.successfulAt && r.expiresAt == s.expiresAt
              && (Usable(r, t) ==> Usable(s, t)) && now + 30.0 <= r.retryAt
    ensures reply.Refused? && reply.status in {401, 403} ==> !Usable(Attempt(s, reply, now, jitter), t)
  {
  }

  /** A success is refreshed again within five minutes, and 30 s before its deadline if that leaves 5 s at all. */
  lemma RefreshedBeforeExpiry(s: RelationSource, reply: Reply, now: real, jitter: real)
    requires reply.Contacts? && !reply.degraded && now < reply.expires
    ensures var r := Attempt(s, reply, now, jitter);
            && now + 5.0 <= r.retryAt <= now + 300.0
            && (now + 35.0 <= reply.expires ==> r.retryAt <= reply.expires - 30.0)
            && Usable(r, now)
  {
  }

  /** A complete answer: its table and deadline, authorized again, due in 5 s to 5 min and else 30 s before the deadline. */
  ghost predicate Renewed(s: RelationSource, r: RelationSource, entries: Entries, expires: real, now: real) {
    && r == RelationSource(s.alliance, s.entityId, s.revision, Some(now), expires, r.retryAt, 0, true, entries)
    && now + 5.0 <= r.retryAt <= now + 300.0
    && (now + 5.0 < r.retryAt ==> r.retryAt <= expires - 30.0)
    && (r.retryAt < now + 300.0 ==> expires - 30.0 <= r.retryAt)
  }

  /** A failure: the table stays, a revocation is noted, and the next attempt waits for the longest of its reasons. */
  ghost predicate PutOff(s: RelationSource, r: RelationSource, status: int, retryAfter: real, now: real, jitter: real) {
    var delay := Doubling(s.failures + 1) * (1.0 + jitter * 0.1);
    var throttled := status == 401 || status == 403 || status == 420 || status == 429;
    && r == s.(failures := s.failures + 1, authorized := s.authorized && status != 401 && status != 403, retryAt := r.retryAt)
    && now + delay <= r.retryAt && now + retryAfter <= r.retryAt && (throttled ==> now + 300.0 <= r.retryAt)
    && (r.retryAt == now + delay || r.retryAt == now + retryAfter || (throttled && r.retryAt == now + 300.0))
  }

  lemma AttemptMeans(s: RelationSource, reply: Reply, now: real, jitter: real)
    ensures reply.Contacts? && !reply.degraded && now < reply.expires ==>
              Renewed(s, Attempt(s, reply, now, jitter), reply.entries, reply.expires, now)
    ensures reply.Contacts? && (reply.degraded || reply.expires <= now) ==> PutOff(s, Attempt(s, reply, now, jitter), 0, 0.0, now, jitter)
    ensures reply.Refused? ==> PutOff(s, Attempt(s, reply, now, jitter), reply.status, reply.retryAfter, now, jitter)
  {
  }

  /** When the authority turns out to have changed, if it does. */
  datatype Loss = Never | AtTokens | AfterRead

  /** What a refresh of one source meets. */
  datatype Ask = Ask(granted: bool, reply: Reply, jitter: real, loss: Loss)

  /** What refreshing source s computes, before anything is saved. */
  ghost predicate Computes(s: RelationSource, r: RelationSource, ask: Ask, now: real) {
    if !ask.granted then r == s.(authorized := false, retryAt := now + 300.0)
    else if ask.reply.Refused? then PutOff(s, r, ask.reply.status, ask.reply.retryAfter, now, ask.jitter)
    else if ask.reply.degraded || ask.reply.expires <= now then PutOff(s, r, 0, 0.0, now, ask.jitter)
    else Renewed(s, r, ask.reply.entries, ask.reply.expires, now)
  }

  /** Another writer was faster: its row of the same source is of a later revision or has a newer success. */
  predicate Overtook(s: RelationSource, r: RelationSource, now: real) {
    && r.alliance == s.alliance && r.entityId == s.entityId
    && (r.revision > s.revision
        || (r.successfulAt.Some?
            && (now < r.successfulAt.value || (s.successfulAt.Some? && s.successfulAt.value < r.successfulAt.value))))
  }

  /**
    What became of source s: untouched before its time, else the computed source under the next revision. Only
    with a shared archive can another writer's row take its place, and only a storage error leaves the old table,
    for 30 s and without a permission that was just revoked.
   */
  ghost predicate Outcome(s: RelationSource, r: RelationSource, ask: Ask, now: real, shared: bool, faulty: bool) {
    if now < s.retryAt then r == s
    else
      || (r.revision == s.revision + 1 && Computes(s, r.(revision := s.revision), ask, now))
      || (shared && Overtook(s, r, now))
      || (shared && faulty && r == s.(authorized := r.authorized, retryAt := now + 30.0)
          && (r.authorized <==> s.authorized && !(ask.granted && ask.reply.Refused? && ask.reply.status in {401, 403})))
  }

  datatype ViewKey = ViewKey(context: string, ownUsable: bool, marks: seq<(nat, bool)>)

  class OrganizationRelations {
    const repository: RelationArchive?
    const digest: (string, int, Option<int>) -> string
    var auth: Option<string>
    var context: string
    var corporation: Option<int>
    var alliance: Option<int>
    var ownSuccess: Option<real>
    var ownDue: real
    var ownFailures: nat
    var sources: seq<RelationSource>
    var view: View
    var viewKey: Option<ViewKey>
    // How often the archive could not be read or written.
    ghost var faults: nat

    function UsableNow(now: real): (u: seq<bool>)
      reads this`sources
      ensures |u| == |sources| && forall i :: 0 <= i < |sources| ==> u[i] == Usable(sources[i], now)
    {
      var s := sources;
      seq(|s|, i requires 0 <= i < |s| => Usable(s[i], now))
    }

    function OwnUsable(now: real): bool
      reads this`ownSuccess
    {
      ownSuccess.Some? && ownSuccess.value <= now < ownSuccess.value + 3600.0
    }

    /** The view a reader without memo would build. */
    function Rebuilt(now: real): (v: View)
      reads this
      ensures Paired(v)
    {
      View(context, corporation, alliance, OwnUsable(now), sources, UsableNow(now))
    }

    function KeyOf(now: real): (k: ViewKey)
      reads this
      ensures |k.marks| == |sources|
      ensures forall i :: 0 <= i < |sources| ==> k.marks[i] == (sources[i].revision, Usable(sources[i], now))
    {
      var s := sources;
      ViewKey(context, OwnUsable(now), seq(|s|, i requires 0 <= i < |s| => (s[i].revision, Usable(s[i], now))))
    }

    function SourceId(i: nat): SourceKey
      requires i < |sources|
      reads this`sources, this`context
    {
      SourceKey(context, sources[i].alliance, sources[i].entityId)
    }

    /** Source s in place i carries the entry table its revision stands for. */
    ghost predicate Faithful(i: nat, s: RelationSource)
      requires i < |sources|
      reads this`sources, this`context, repository
    {
      if repository != null then repository.Recorded(SourceId(i), s.revision, s.entries)
      else s.revision <= sources[i].revision && (s.revision == sources[i].revision ==> s.entries == sources[i].entries)
    }

    /** The memo belongs to the current context, and its sources are earlier states of the current ones. */
    ghost predicate MemoFits()
      reads this, repository
    {
      viewKey.Some? ==>
        && Paired(view)
        && view.context == context && view.corporation == corporation && view.alliance == alliance
        && viewKey.value.context == context && viewKey.value.ownUsable == view.ownUsable
        && |viewKey.value.marks| == |view.sources|
        && (forall i :: 0 <= i < |view.sources| ==> viewKey.value.marks[i] == (view.sources[i].revision, view.usable[i]))
        && (sources == [] ==> view.sources == [])
        && (|view.sources| == |sources| ==> forall i :: 0 <= i < |sources| ==> Faithful(i, view.sources[i]))
    }

    ghost predicate Valid()
      reads this, repository
    {
      && (repository != null ==> repository.Valid())
      && (forall i :: 0 <= i < |sources| ==> Faithful(i, sources[i]))
      && MemoFits()
    }

    constructor (repository: RelationArchive?, digest: (string, int, Option<int>) -> string)
      requires repository != null ==> repository.Valid()
      ensures Valid() && Bound() && this.repository == repository && this.digest == digest && sources == [] && ownSuccess.None?
    {
      this.repository, this.digest := repository, digest;
      auth, context, corporation, alliance, ownSuccess := None, "", None, None, None;
      sources, viewKey := [], None;
      view := View("", None, None, false, [], []);
      ownDue, ownFailures, faults := 0.0, 0, 0;
    }

    /** Whatever may classify belongs to the current authority and its own organization. */
    ghost predicate Bound()
      reads this
    {
      sources != [] || ownSuccess.Some? ==>
        auth.Some? && corporation.Some? && context == digest(auth.value, corporation.value, alliance)
    }

    /** Two tables of one source under one revision are the same table. */
    lemma MemoMatches(now: real)
      requires Valid() && viewKey == Some(KeyOf(now))
      ensures SameKnowledge(view, Rebuilt(now))
    {
      assert |view.sources| == |sources|;
      forall i | 0 <= i < |sources|
        ensures view.usable[i] == Rebuilt(now).usable[i] && view.sources[i].entries == sources[i].entries
      {
        assert viewKey.value.marks[i] == (view.sources[i].revision, view.usable[i]);
        assert Faithful(i, view.sources[i]) && Faithful(i, sources[i]);
      }
    }

    /**
      v shows the current sources: each entry table under its usability, which is a successful authorized read
      within the last hour and before the deadline, and the own organization if it was read within the last hour.
     */
    ghost predicate Shows(v: View, now: real)
      reads this
    {
      && |v.sources| == |v.usable| == |sources|
      && (v.ownUsable <==> ownSuccess.Some? && ownSuccess.value <= now && now - ownSuccess.value < 3600.0)
      && (forall i :: 0 <= i < |sources| ==>
            (v.usable[i] <==>
             && sources[i].authorized && sources[i].successfulAt.Some? && now < sources[i].expiresAt
             && sources[i].successfulAt.value <= now && now - sources[i].successfulAt.value < 3600.0))
      && (forall i :: 0 <= i < |sources| ==> v.sources[i].entries == sources[i].entries)
    }

    /** view(): whatever memo it returns annotates every profile as a rebuilt view would. */
    method CurrentView(now: real) returns (v: View)
      requires Valid()
      modifies this`view, this`viewKey
      ensures Valid() && Paired(v)
      ensures forall p :: Annotated(v, p) == Annotated(Rebuilt(now), p)
      ensures v.context == context && v.corporation == corporation && v.alliance == alliance && Shows(v, now)
    {
      var key := KeyOf(now);
      if viewKey != Some(key) {
        viewKey := Some(key);
        view := Rebuilt(now);
        return view;
      }
      MemoMatches(now);
      forall p ensures Annotated(view, p) == Annotated(Rebuilt(now), p) {
        OnlyUsableEntriesMatter(view, Rebuilt(now), p);
      }
      v := view;
    }

    /** Other threads read the view at any time between the steps of a refresh. */
    method Readers()
      requires Valid()
      modifies this`view, this`viewKey
      ensures Valid()
    {
      var n: nat := *;
      while n > 0
        invariant Valid()
      {
        var now: real := *;
        var ignored := CurrentView(now);
        n := n - 1;
      }
    }

    /** Isolate private data: nothing of the old authority classifies anybody any more. */
    method Reset(authority: Option<string>)
      requires repository != null ==> repository.Valid()
      modifies this
      ensures Valid() && Bound() && sources == [] && auth == authority && viewKey.None?
      ensures ownSuccess.None? && ownDue == 0.0 && ownFailures == 0 && faults == old(faults)
      ensures forall now, p :: Annotated(Rebuilt(now), p).mark == Pending
    {
      auth, context, sources := authority, "", [];
      corporation, alliance, ownSuccess := None, None, None;
      ownDue, ownFailures := 0.0, 0;
      viewKey := None;
    }

    twostate lemma OtherWritersKeepValid()
      requires old(Valid()) && unchanged(this) && repository != null
      requires repository.Valid() && repository.Extends()
      ensures Valid()
    {
      forall i: nat, s: RelationSource | i < |sources| && old(Faithful(i, s)) ensures Faithful(i, s) {
      }
      assert MemoFits();
    }

    method Interfere()
      requires Valid()
      modifies repository
      ensures Valid()
      ensures repository != null ==> repository.Extends()
    {
      if repository != null {
        label before:
        repository.OtherWriters();
        OtherWritersKeepValid@before();
      }
    }

    method LoadSource(key: SourceKey) returns (s: RelationSource)
      requires Valid()
      ensures repository != null ==> repository.Recorded(key, s.revision, s.entries)
      ensures s.alliance == key.alliance && s.entityId == key.id && !s.authorized
      ensures var row := if repository != null then repository.Row(key) else NEW_ROW;
              && s.entries == row.entries && s.revision == row.revision && s.successfulAt == row.successfulAt
              && s.expiresAt == row.expiresAt && s.failures == row.failures
              && (row.failures > 0 ==> s.retryAt == row.retryAt) && (row.failures == 0 ==> s.retryAt == 0.0)
    {
      if repository != null {
        s := repository.Load(key);
      } else {
        s := FromRow(key.alliance, key.id, NEW_ROW);
      }
      // Require a successful read in this runtime before use; keep a failure's retry time.
      s := s.(authorized := false, retryAt := if s.failures > 0 then s.retryAt else 0.0);
    }

    method Isolate(next: string, corp: int, ally: Option<int>)
      requires Valid()
      modifies this
      ensures Valid() && context == next && sources == [] && auth == old(auth) && viewKey.None?
      ensures corporation == Some(corp) && alliance == ally && ownSuccess.None?
      ensures ownDue == old(ownDue) && ownFailures == old(ownFailures) && faults == old(faults)
    {
      context, sources := next, [];
      corporation, alliance, ownSuccess := Some(corp), ally, None;
      viewKey := None;
    }

    /** One source for the own corporation, and one for its alliance if it has one. */
    ghost predicate Loaded(loaded: seq<RelationSource>, corp: int, ally: Option<int>) {
      && |loaded| == (if ally.Some? then 2 else 1)
      && loaded[0].entityId == corp && !loaded[0].alliance
      && (ally.Some? ==> loaded[1].entityId == ally.value && loaded[1].alliance)
      && (forall i :: 0 <= i < |loaded| ==> !loaded[i].authorized)
    }

    method LoadSources(corp: int, ally: Option<int>)
      requires Valid() && sources == []
      modifies this`sources
      ensures Valid() && Loaded(sources, corp, ally)
    {
      var first := LoadSource(SourceKey(context, false, corp));
      if ally.Some? {
        var second := LoadSource(SourceKey(context, true, ally.value));
        sources := [first, second];
      } else {
        sources := [first];
      }
    }

    /** Nothing loaded for a new context is usable before it was read successfully in this runtime. */
    method LoadContext(next: string, corp: int, ally: Option<int>) returns (ok: bool)
      requires Valid() && auth.Some? && next == digest(auth.value, corp, ally)
      modifies this, repository
      ensures Valid() && Bound() && auth == old(auth) && context == next
      ensures corporation == Some(corp) && alliance == ally && ownSuccess.None?
      ensures forall i, t :: 0 <= i < |sources| ==> !Usable(sources[i], t)
      ensures if ok then faults == old(faults) && Loaded(sources, corp, ally) else faults > old(faults) && sources == []
      ensures ownDue == old(ownDue) && ownFailures == old(ownFailures)
    {
      Isolate(next, corp, ally);
      Readers();
      if repository != null {
        if * {
          // The archive cannot be read.
          faults := faults + 1;
          return false;
        }
        Interfere();
      }
      LoadSources(corp, ally);
      ok := true;
    }

    /** _activate_context; false is a storage error, after which the new context is isolated and empty. */
    method ActivateContext(corp: int, ally: Option<int>, now: real) returns (ok: bool)
      requires Valid() && Bound() && auth.Some?
      modifies this, repository
      ensures Valid() && Bound() && auth == old(auth) && context == digest(old(auth.value), corp, ally)
      ensures ok ==> ownSuccess == Some(now) && ownDue == now + 300.0 && ownFailures == 0
      ensures !ok ==> sources == [] && ownSuccess.None? && ownDue == old(ownDue) && ownFailures == old(ownFailures)
      ensures old(context) != context || old(sources) == [] ==> forall i, t :: 0 <= i < |sources| ==> !Usable(sources[i], t)
      ensures old(context) == context && old(sources) != [] ==> sources == old(sources)
      ensures if ok then faults == old(faults) else faults > old(faults)
      ensures ok && (old(context) != context || old(sources) == []) ==>
                Loaded(sources, corp, ally) && corporation == Some(corp) && alliance == ally
    {
      ok := true;
      var next := digest(auth.value, corp, ally);
      if next != context || sources == [] {
        ok := LoadContext(next, corp, ally);
      }
      if ok {
        NoteOwnRead(now);
      }
    }

    method NoteOwnRead(now: real)
      requires Valid() && auth.Some? && corporation.Some? && context == digest(auth.value, corporation.value, alliance)
      modifies this`ownSuccess, this`ownDue, this`ownFailures
      ensures Valid() && Bound() && ownSuccess == Some(now) && ownDue == now + 300.0 && ownFailures == 0
    {
      ownSuccess, ownDue, ownFailures := Some(now), now + 300.0, 0;
    }

    /** r is of a later revision than s, or of the same one with a newer success. */
    predicate Newer(s: RelationSource, r: RelationSource) {
      || r.revision > s.revision
      || (s.successfulAt.Some? && r.successfulAt.Some? && s.successfulAt.value < r.successfulAt.value)
    }

    /** The row another writer committed. */
    ghost predicate Committed(i: nat, s: RelationSource)
      requires i < |sources|
      reads this`sources, this`context, repository
    {
      repository != null && s == FromRow(sources[i].alliance, sources[i].entityId, repository.Row(SourceId(i)))
    }

    /** _save: a losing writer adopts the committed state; None is a storage error. */
    method SaveSource(i: nat, before: RelationSource, s: RelationSource) returns (saved: Option<RelationSource>)
      requires Valid() && i < |sources| && before == sources[i]
      requires s.alliance == before.alliance && s.entityId == before.entityId
      modifies repository, this`faults
      ensures Valid() && (repository != null ==> repository.Extends())
      ensures if saved.Some? then faults == old(faults) else faults > old(faults)
      ensures saved.Some? ==> saved.value.alliance == before.alliance && saved.value.entityId == before.entityId
      ensures saved.Some? && repository != null ==> repository.Recorded(SourceId(i), saved.value.revision, saved.value.entries)
      ensures repository == null ==> saved == Some(s.(revision := before.revision + 1))
      ensures saved.Some? ==> saved.value == s.(revision := before.revision + 1) || (Committed(i, saved.value) && Newer(s.(revision := before.revision), saved.value))
    {
      if repository == null {
        return Some(s.(revision := before.revision + 1));
      }
      if * {
        faults := faults + 1;
        return None;
      }
      var answer := Contend(i, before, s);
      if * {
        // The answer of a committed write can get lost as well.
        faults := faults + 1;
        return None;
      }
      saved := Some(answer);
    }

    /** Save against other writers; who loses reads what they committed. */
    method Contend(i: nat, before: RelationSource, s: RelationSource) returns (r: RelationSource)
      requires Valid() && repository != null && i < |sources| && before == sources[i]
      requires s.alliance == before.alliance && s.entityId == before.entityId
      modifies repository
      ensures Valid() && repository.Extends()
      ensures r.alliance == before.alliance && r.entityId == before.entityId
      ensures repository.Recorded(SourceId(i), r.revision, r.entries)
      ensures r == s.(revision := before.revision + 1) || (Committed(i, r) && Newer(s.(revision := before.revision), r))
    {
      assert Faithful(i, before);
      label start:
      repository.OtherWriters();
      assert before.revision <= repository.Row(SourceId(i)).revision;
      var saved := repository.Save(SourceId(i), s, before.revision);
      if saved.Some? {
        r := saved.value;
      } else {
        repository.OtherWriters();
        r := repository.Load(SourceId(i));
      }
      OtherWritersKeepValid@start();
    }

    /** Publish a refreshed source; its revision either moved or still names the same table. */
    method Publish(i: nat, s: RelationSource)
      requires Valid() && i < |sources|
      requires s.alliance == sources[i].alliance && s.entityId == sources[i].entityId
      requires if repository != null then repository.Recorded(SourceId(i), s.revision, s.entries)
               else s.revision > sources[i].revision || (s.revision == sources[i].revision && s.entries == sources[i].entries)
      modifies this`sources
      ensures Valid() && sources == old(sources)[i := s]
    {
      ghost var memo := view.sources;
      assert |memo| == |sources| && viewKey.Some? ==> Faithful(i, memo[i]);
      sources := sources[i := s];
    }

    /** What a refresh of a due source computes; without the scope it is only unauthorized for a while. */
    function Computed(s: RelationSource, granted: bool, reply: Reply, now: real, jitter: real): RelationSource {
      if granted then Attempt(s, reply, now, jitter) else s.(authorized := false, retryAt := now + 300.0)
    }

    /** After a storage error the old table stays, but never a permission that was just revoked. */
    function Kept(s: RelationSource, granted: bool, result: RelationSource, now: real): RelationSource {
      s.(authorized := s.authorized && (granted ==> result.authorized), retryAt := now + 30.0)
    }

    /** Save a computed source and publish what came of it. */
    method StoreResult(i: nat, granted: bool, result: RelationSource, now: real) returns (raised: bool)
      requires Valid() && i < |sources|
      requires result.alliance == sources[i].alliance && result.entityId == sources[i].entityId
      requires result.revision == sources[i].revision
      modifies this`sources, repository, this`faults
      ensures Valid() && |sources| == |old(sources)| && faults >= old(faults)
      ensures sources[i].alliance == result.alliance && sources[i].entityId == result.entityId
      ensures forall n :: 0 <= n < |sources| && n != i ==> sources[n] == old(sources)[n]
      ensures var s := old(sources)[i];
              && (sources[i] == result.(revision := s.revision + 1)
                  || (repository != null && Committed(i, sources[i]) && Newer(result, sources[i]))
                  || (repository != null && faults > old(faults) && sources[i] == Kept(s, granted, result, now)))
              && (raised ==> !granted && sources[i] == Kept(s, granted, result, now))
    {
      var source := sources[i];
      var saved := SaveSource(i, source, result);
      raised := saved.None? && !granted;
      Publish(i, if saved.Some? then saved.value else Kept(source, granted, result, now));
    }

    /** One due source of refresh: its own result under the next revision, another writer's row, or the old table. */
    method RefreshSource(i: nat, ask: Ask, now: real) returns (raised: bool)
      requires Valid() && i < |sources|
      modifies this`sources, this`view, this`viewKey, repository, this`faults
      ensures Valid() && |sources| == |old(sources)| && faults >= old(faults)
      ensures forall n :: 0 <= n < |sources| && n != i ==> sources[n] == old(sources)[n]
      ensures Outcome(old(sources)[i], sources[i], ask, now, repository != null, faults > old(faults))
      ensures raised ==> !ask.granted && faults > old(faults) && sources[i] == old(sources)[i].(retryAt := now + 30.0)
    {
      raised := false;
      var source := sources[i];
      if now < source.retryAt {
        return;
      }
      var result := Computed(source, ask.granted, ask.reply, now, ask.jitter);
      Readers();
      raised := StoreResult(i, ask.granted, result, now);
      OutcomeOf(source, sources[i], ask, now, faults > old(faults));
    }

    lemma OutcomeOf(s: RelationSource, r: RelationSource, ask: Ask, now: real, faulty: bool)
      requires now >= s.retryAt
      requires var result := Computed(s, ask.granted, ask.reply, now, ask.jitter);
               || r == result.(revision := s.revision + 1)
               || (repository != null && r.alliance == s.alliance && r.entityId == s.entityId && Newer(result, r))
               || (repository != null && faulty && r == Kept(s, ask.granted, result, now))
      ensures Outcome(s, r, ask, now, repository != null, faulty)
    {
      AttemptMeans(s, ask.reply, now, ask.jitter);
    }

    /** Every source has come to the outcome of its own refresh. */
    ghost predicate Brought(before: seq<RelationSource>, asks: nat -> Ask, now: real, faulty: bool)
      reads this
    {
      |sources| == |before| && forall i :: 0 <= i < |before| ==> Outcome(before[i], sources[i], asks(i), now, repository != null, faulty)
    }

    /** The loop of refresh over all sources; losing the authority at any check isolates everything. */
    method RefreshSources(asks: nat -> Ask, now: real)
      requires Valid() && Bound()
      modifies this, repository
      ensures Valid() && Bound() && faults >= old(faults)
      ensures (auth.None? && sources == [] && ownSuccess.None?)
              || (auth == old(auth) && |sources| == |old(sources)| && ownDue == old(ownDue) && ownSuccess == old(ownSuccess))
      ensures (exists i :: 0 <= i < |old(sources)| && !asks(i).loss.Never?) ==> auth.None? && sources == [] && ownSuccess.None?
      ensures (forall i :: 0 <= i < |old(sources)| ==> asks(i).loss.Never?) ==>
                && auth == old(auth) && context == old(context) && ownDue == old(ownDue) && ownSuccess == old(ownSuccess)
                && Brought(old(sources), asks, now, faults > old(faults))
    {
      ghost var before := sources;
      var i := 0;
      while i < |sources|
        invariant Valid() && Bound() && 0 <= i <= |sources| == |before| && faults >= old(faults)
        invariant auth == old(auth) && context == old(context) && ownDue == old(ownDue) && ownSuccess == old(ownSuccess)
        invariant forall n :: i <= n < |before| ==> sources[n] == before[n]
        invariant forall n :: 0 <= n < i ==>
                    asks(n).loss.Never? && Outcome(before[n], sources[n], asks(n), now, repository != null, faults > old(faults))
        decreases |before| - i
      {
        var ask := asks(i);
        if now >= sources[i].retryAt && ask.loss.AtTokens? {
          Reset(None);
          return;
        }
        var raised := RefreshSource(i, ask, now);
        if !ask.loss.Never? {
          Reset(None);
          return;
        }
        i := i + 1;
      }
    }

    function OwnDelay(failures: nat, status: int, retry: real): (d: real)
      requires failures >= 1
      ensures 30.0 <= d && retry <= d && (status in {401, 403, 420, 429} ==> 300.0 <= d)
    {
      MaxReal(retry, if status in {401, 403, 420, 429} then 300.0 else Doubling(failures))
    }

    /** A failed read of the own organization: bounded data of the same authority may stay, and waits. */
    method NoteOwnFailure(authority: string, status: int, retry: real, lost: bool, now: real)
      requires Valid() && Bound() && auth == Some(authority)
      modifies this
      ensures Valid() && Bound() && (auth == Some(authority) || auth.None?)
      ensures now + 30.0 <= ownDue && now + retry <= ownDue && ownFailures >= 1 && faults == old(faults)
      ensures status in {401, 403} || auth.None? ==> sources == [] && ownSuccess.None?
      ensures sources == [] || (sources == old(sources) && context == old(context))
      ensures ownSuccess.None? || ownSuccess == old(ownSuccess)
      ensures auth.None? <==> status !in {401, 403} && lost
      ensures status !in {401, 403} && !lost ==>
                sources == old(sources) && context == old(context) && ownSuccess == old(ownSuccess) && ownFailures == old(ownFailures) + 1
      ensures ownDue == now + MaxReal(retry, if status in {401, 403, 420, 429} then 300.0 else Doubling(ownFailures))
    {
      if status in {401, 403} {
        Reset(Some(authority));
      } else if lost {
        Reset(None);
      }
      ownFailures := ownFailures + 1;
      ownDue := now + OwnDelay(ownFailures, status, retry);
    }

    /** The read of the own organization, when it is due; false ends the refresh. */
    method RefreshOwn(authority: string, read: OwnRead, loss: Loss, now: real) returns (go: bool)
      requires Valid() && Bound() && auth == Some(authority)
      modifies this, repository
      ensures Valid() && Bound() && (auth == Some(authority) || auth.None?) && faults >= old(faults)
      ensures go ==> auth == Some(authority) && ownSuccess == Some(now) && ownDue == now + 300.0 && read.Own?
                     && context == digest(authority, read.corporation, read.alliance)
      ensures !go && auth.Some? ==> now + 30.0 <= ownDue
      ensures ownSuccess.None? || ownSuccess == old(ownSuccess) || ownSuccess == Some(now)
      ensures go ==> faults == old(faults) && loss.Never?
      ensures go && context == old(context) && old(sources) != [] ==> sources == old(sources)
      ensures go && (context != old(context) || old(sources) == []) ==> Loaded(sources, read.corporation, read.alliance)
      ensures read.Own? && loss.Never? && !go ==> faults > old(faults)
      ensures loss.AtTokens? || (loss.AfterRead? && (read.Own? || read.status !in {401, 403})) ==> auth.None?
      ensures read.OwnError? && loss.Never? && read.status !in {401, 403} ==>
                auth == old(auth) && sources == old(sources) && ownSuccess == old(ownSuccess) && ownFailures == old(ownFailures) + 1
    {
      if loss.AtTokens? {
        Reset(None);
        return false;
      }
      if read.OwnError? {
        NoteOwnFailure(authority, read.status, read.retry, loss.AfterRead?, now);
        return false;
      }
      if loss.AfterRead? {
        Reset(None);
        return false;
      }
      go := ActivateContext(read.corporation, read.alliance, now);
      if !go {
        var lost: bool := *;
        NoteOwnFailure(authority, 0, 0.0, lost, now);
      }
    }

    /**
      refresh with the token context it loads, None when there is none. Losing or changing the authority leaves
      nothing of the old one to classify with, and an unsuccessful read of the own organization waits. While the
      authority stays and the archive answers, every source of the own organization comes to its own outcome.
     */
    method Refresh(tokens: Option<string>, read: OwnRead, loss: Loss, asks: nat -> Ask, now: real)
      returns (ghost loaded: seq<RelationSource>)
      requires Valid() && Bound()
      modifies this, repository
      ensures Valid() && Bound()
      ensures auth == tokens || auth.None?
      ensures auth != old(auth) ==> ownSuccess.None? || ownSuccess == Some(now)
      ensures auth.None? ==> sources == [] && forall t, p :: Annotated(Rebuilt(t), p).mark == Pending
      ensures auth.Some? ==> now < ownDue
      ensures var due := now >= if tokens == old(auth) then old(ownDue) else 0.0;
              tokens.Some? && faults == old(faults) && (forall i :: asks(i).loss.Never?) ==>
                && (due && read.Own? && loss.Never? ==>
                      && auth == tokens && ownSuccess == Some(now) && ownDue == now + 300.0
                      && context == digest(tokens.value, read.corporation, read.alliance)
                      && (if tokens == old(auth) && context == old(context) && old(sources) != [] then loaded == old(sources)
                          else Loaded(loaded, read.corporation, read.alliance))
                      && Brought(loaded, asks, now, false))
                && (!due && tokens == old(auth) && old(ownSuccess).Some? ==>
                      && auth == tokens && context == old(context) && loaded == old(sources) && Brought(loaded, asks, now, false))
                && (due && read.OwnError? && loss.Never? && read.status !in {401, 403} && tokens == old(auth) ==>
                      auth == tokens && sources == old(sources) && ownSuccess == old(ownSuccess) && ownFailures == old(ownFailures) + 1)
    {
      loaded := [];
      if tokens.None? {
        Reset(None);
        return;
      }
      if tokens != auth {
        Reset(tokens);
      }
      if now >= ownDue {
        var go := RefreshOwn(tokens.value, read, loss, now);
        if !go {
          return;
        }
      }
      loaded := sources;
      if ownSuccess.Some? {
        RefreshSources(asks, now);
      }
    }
  }

  /** What reading the own organization gives. */
  datatype OwnRead = Own(corporation: int, alliance: Option<int>) | OwnError(status: int, retry: real)
}
