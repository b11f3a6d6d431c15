/**
  The durable event log and its per-system projection (app/server/system_state.py). `canon` is the
  jsonb value of a payload text; nothing is assumed about it.
 */
module SystemState {
  import opened Common

  datatype EventType = Entered | Updated | Cleared | Other(text: string)

  datatype Incoming = Incoming(key: string, kind: EventType, entity: string, at: string, payload: string)

  datatype Event = Event(seqno: nat, body: Incoming)

  datatype StateRow = StateRow(version: nat, kind: EventType, at: string, payload: string)

  type Projection = map<string, StateRow>

  datatype Store = Store(log: seq<Event>, next: nat, projection: Projection)

  predicate Alert(k: EventType) { !k.Other? }

  function RowOf(e: Event): StateRow {
    StateRow(e.seqno, e.body.kind, e.body.at, e.body.payload)
  }

  // -------------------------------------------------------------- statements

  predicate Repeats(canon: string -> string, p: Projection, i: Incoming) {
    i.entity in p && canon(p[i.entity].payload) == canon(i.payload)
  }

  predicate KeyTaken(log: seq<Event>, key: string) {
    exists e :: e in log && e.body.key == key
  }

  /** ON CONFLICT (system_key) DO UPDATE ... WHERE state_version < EXCLUDED.state_version. */
  function Advance(p: Projection, e: Event): Projection {
    if e.body.entity in p && p[e.body.entity].version >= e.seqno then p else p[e.body.entity := RowOf(e)]
  }

  /** APPEND_EVENT: a key conflict still consumes a sequence number; a repeated payload does not. */
  function Append(canon: string -> string, s: Store, i: Incoming): Store {
    if Repeats(canon, s.projection, i) then s
    else if KeyTaken(s.log, i.key) then s.(next := s.next + 1)
    else
      var e := Event(s.next, i);
      Store(s.log + [e], s.next + 1, if Alert(i.kind) then Advance(s.projection, e) else s.projection)
  }

  /** The last alert event of a system. */
  function LastAlert(log: seq<Event>, k: string): (r: Option<Event>)
    ensures r.Some? ==> r.value in log && r.value.body.entity == k && Alert(r.value.body.kind)
    ensures r.None? ==> forall e :: e in log ==> !(e.body.entity == k && Alert(e.body.kind))
  {
    if log == [] then None
    else
      var e := log[|log| - 1];
      assert forall x :: x in log <==> x in log[..|log| - 1] || x == e;
      if e.body.entity == k && Alert(e.body.kind) then Some(e) else LastAlert(log[..|log| - 1], k)
  }

  function AlertSystems(log: seq<Event>): (s: set<string>)
    ensures forall k :: k in s <==> LastAlert(log, k).Some?
  {
    set e | e in log && Alert(e.body.kind) :: e.body.entity
  }

  function Look(p: Projection, k: string): Option<StateRow> {
    if k in p then Some(p[k]) else None
  }

  function BackfillAt(log: seq<Event>, p: Projection, k: string): Option<StateRow> {
    var e := LastAlert(log, k);
    if e.Some? && (k !in p || p[k].version < e.value.seqno) then Some(RowOf(e.value)) else Look(p, k)
  }

  /** BACKFILL: the last alert event per system of the log, where it is newer than the projection. */
  function Backfill(log: seq<Event>, p: Projection): (b: Projection)
    ensures forall k :: Look(b, k) == BackfillAt(log, p, k)
  {
    map k | k in p.Keys + AlertSystems(log) :: BackfillAt(log, p, k).value
  }

  /** Every projected state is older than the next sequence number, as in all reachable stores. */
  ghost predicate Numbered(s: Store) { forall k :: k in s.projection ==> s.projection[k].version < s.next }

  /**
    A new key with a payload that is news to its system is logged under the next number, and an alert becomes
    the state of its system; otherwise log and projection stay, and only a known key costs a number.
   */
  ghost predicate AppendMeans(canon: string -> string, s: Store, i: Incoming, t: Store) {
    var known := exists e :: e in s.log && e.body.key == i.key;
    var news := i.entity !in s.projection || canon(s.projection[i.entity].payload) != canon(i.payload);
    && (news && !known ==>
          && t.log == s.log + [Event(s.next, i)] && t.next == s.next + 1
          && (i.kind.Other? ==> t.projection == s.projection)
          && (Numbered(s) && (i.kind == Entered || i.kind == Updated || i.kind == Cleared) ==>
                t.projection == s.projection[i.entity := StateRow(s.next, i.kind, i.at, i.payload)]))
    && (!news || known ==> t.log == s.log && t.projection == s.projection)
    && (!news ==> t.next == s.next)
    && (news && known ==> t.next == s.next + 1)
  }

  lemma AppendIsThat(canon: string -> string, s: Store, i: Incoming)
    ensures AppendMeans(canon, s, i, Append(canon, s, i))
  {
  }

  // -------------------------------------------------------------------- runs

  datatype Op = Appended(incoming: Incoming) | Pruned(keep: set<nat>) | Backfilled

  function Keep(log: seq<Event>, keep: set<nat>): (r: seq<Event>)
    ensures forall e :: e in r <==> e in log && e.seqno in keep
    ensures |r| <= |log|
  {
    if log == [] then []
    else
      var init, e := Keep(log[..|log| - 1], keep), log[|log| - 1];
      assert forall x :: x in log <==> x in log[..|log| - 1] || x == e;
      if e.seqno in keep then init + [e] else init
  }

  /** Retention never deletes the newest event. */
  predicate Enabled(s: Store, op: Op) {
    op.Pruned? && s.log != [] ==> s.log[|s.log| - 1].seqno in op.keep
  }

  /** The store with every event ever inserted. */
  datatype World = World(store: Store, history: seq<Event>)

  const EMPTY := World(Store([], 1, map[]), [])

  function Step(canon: string -> string, w: World, op: Op): World
    requires Enabled(w.store, op)
  {
    match op
    case Appended(i) =>
      var t := Append(canon, w.store, i);
      World(t, if t.log != w.store.log then w.history + [Event(w.store.next, i)] else w.history)
    case Pruned(keep) => w.(store := w.store.(log := Keep(w.store.log, keep)))
    case Backfilled => w.(store := w.store.(projection := Backfill(w.store.log, w.store.projection)))
  }

  ghost predicate Runs(canon: string -> string, w: World, ops: seq<Op>)
    decreases |ops|
  {
    ops == [] || (Enabled(w.store, ops[0]) && Runs(canon, Step(canon, w, ops[0]), ops[1..]))
  }

  ghost function After(canon: string -> string, w: World, ops: seq<Op>): World
    requires Runs(canon, w, ops)
    decreases |ops|
  {
    if ops == [] then w else After(canon, Step(canon, w, ops[0]), ops[1..])
  }

  // ----------------------------------------------------------------- theorems

  ghost predicate Ordered(log: seq<Event>, next: nat) {
    && (forall i, j :: 0 <= i < j < |log| ==> log[i].seqno < log[j].seqno)
    && (forall e :: e in log ==> e.seqno < next)
  }

  ghost predicate UniqueKeys(log: seq<Event>) {
    forall a, b :: a in log && b in log && a.body.key == b.body.key ==> a == b
  }

  ghost predicate ProjectedAt(h: seq<Event>, p: Projection, k: string) {
    var e := LastAlert(h, k);
    Look(p, k) == if e.Some? then Some(RowOf(e.value)) else None
  }

  /** The projection is the last alert event per system. */
  ghost predicate Projects(h: seq<Event>, p: Projection) {
    forall k :: ProjectedAt(h, p, k)
  }

  /** No alert event repeats the payload of the previous alert event of its system. */
  ghost predicate NoRepeats(canon: string -> string, h: seq<Event>) {
    forall i :: 0 <= i < |h| && Alert(h[i].body.kind) ==>
      var p := LastAlert(h[..i], h[i].body.entity);
      p.Some? ==> canon(p.value.body.payload) != canon(h[i].body.payload)
  }

  ghost predicate Sound(canon: string -> string, w: World) {
    && Ordered(w.history, w.store.next) && Ordered(w.store.log, w.store.next)
    && (forall e :: e in w.store.log ==> e in w.history)
    && UniqueKeys(w.store.log)
    && Projects(w.history, w.store.projection)
    && NoRepeats(canon, w.history)
  }

  lemma {:induction false} LastAlertIsNewest(log: seq<Event>, next: nat, e: Event)
    requires Ordered(log, next) && e in log && Alert(e.body.kind)
    ensures LastAlert(log, e.body.entity).Some? && e.seqno <= LastAlert(log, e.body.entity).value.seqno
  {
    var last := log[|log| - 1];
    if !(last.body.entity == e.body.entity && Alert(last.body.kind)) {
      assert e in log[..|log| - 1];
      LastAlertIsNewest(log[..|log| - 1], next, e);
    }
  }

  lemma LastAlertAppend(h: seq<Event>, e: Event, k: string)
    ensures LastAlert(h + [e], k) == if e.body.entity == k && Alert(e.body.kind) then Some(e) else LastAlert(h, k)
  {
    assert (h + [e])[..|h + [e]| - 1] == h;
  }

  lemma AdvanceProjectsAt(h: seq<Event>, p: Projection, e: Event, k: string)
    requires ProjectedAt(h, p, k) && ProjectedAt(h, p, e.body.entity)
    requires forall x :: x in h ==> x.seqno < e.seqno
    ensures ProjectedAt(h + [e], if Alert(e.body.kind) then Advance(p, e) else p, k)
  {
    LastAlertAppend(h, e, k);
  }

  lemma AppendKeepsProjection(h: seq<Event>, next: nat, p: Projection, e: Event)
    requires Ordered(h, next) && e.seqno == next && Projects(h, p)
    ensures Projects(h + [e], if Alert(e.body.kind) then Advance(p, e) else p)
  {
    var q := if Alert(e.body.kind) then Advance(p, e) else p;
    forall k ensures ProjectedAt(h + [e], q, k) {
      assert ProjectedAt(h, p, k) && ProjectedAt(h, p, e.body.entity);
      AdvanceProjectsAt(h, p, e, k);
    }
  }

  lemma AppendKeepsOrder(h: seq<Event>, next: nat, e: Event)
    requires Ordered(h, next) && e.seqno == next
    ensures Ordered(h + [e], next + 1)
  {
  }

  lemma AppendKeepsNoRepeats(canon: string -> string, h: seq<Event>, p: Projection, e: Event)
    requires NoRepeats(canon, h) && ProjectedAt(h, p, e.body.entity) && !Repeats(canon, p, e.body)
    ensures NoRepeats(canon, h + [e])
  {
    var g := h + [e];
    forall n | 0 <= n < |g| && Alert(g[n].body.kind)
      ensures var q := LastAlert(g[..n], g[n].body.entity);
              q.Some? ==> canon(q.value.body.payload) != canon(g[n].body.payload)
    {
      if n < |h| {
        assert g[..n] == h[..n];
      } else {
        assert g[..n] == h;
      }
    }
  }

  lemma {:induction false} KeepIsOrdered(log: seq<Event>, next: nat, keep: set<nat>)
    requires Ordered(log, next)
    ensures Ordered(Keep(log, keep), next)
  {
    if log != [] {
      KeepIsOrdered(log[..|log| - 1], next, keep);
      var init := Keep(log[..|log| - 1], keep);
      forall e | e in init ensures e.seqno < log[|log| - 1].seqno {
        assert e in log[..|log| - 1];
      }
    }
  }

  /** In every reachable state the projection is already newer than anything BACKFILL could offer. */
  lemma BackfillIsNoop(canon: string -> string, w: World)
    requires Sound(canon, w)
    ensures Backfill(w.store.log, w.store.projection) == w.store.projection
  {
    var p := w.store.projection;
    forall k ensures BackfillAt(w.store.log, p, k) == Look(p, k) {
      assert ProjectedAt(w.history, p, k);
      if LastAlert(w.store.log, k).Some? {
        LastAlertIsNewest(w.history, w.store.next, LastAlert(w.store.log, k).value);
      }
    }
    SameLooks(Backfill(w.store.log, p), p);
  }

  /** In a reachable store an alert that is news always becomes the state of its system. */
  lemma ReachableStoresAreNumbered(canon: string -> string, w: World)
    requires Sound(canon, w)
    ensures Numbered(w.store)
  {
    forall k | k in w.store.projection ensures w.store.projection[k].version < w.store.next {
      assert ProjectedAt(w.history, w.store.projection, k);
    }
  }

  lemma AppendKeepsLog(log: seq<Event>, history: seq<Event>, e: Event)
    requires (forall x :: x in log ==> x in history) && UniqueKeys(log) && !KeyTaken(log, e.body.key)
    ensures (forall x :: x in log + [e] ==> x in history + [e]) && UniqueKeys(log + [e])
  {
  }

  lemma AppendKeepsSound(canon: string -> string, w: World, i: Incoming)
    requires Sound(canon, w)
    ensures Sound(canon, Step(canon, w, Appended(i)))
  {
    if !Repeats(canon, w.store.projection, i) && !KeyTaken(w.store.log, i.key) {
      var e := Event(w.store.next, i);
      AppendedStep(canon, w, i, e);
      assert ProjectedAt(w.history, w.store.projection, i.entity);
      AppendKeepsProjection(w.history, w.store.next, w.store.projection, e);
      AppendKeepsNoRepeats(canon, w.history, w.store.projection, e);
      AppendKeepsOrder(w.history, w.store.next, e);
      AppendKeepsOrder(w.store.log, w.store.next, e);
      AppendKeepsLog(w.store.log, w.history, e);
    } else {
      assert Step(canon, w, Appended(i)).history == w.history;
    }
  }

  lemma AppendedStep(canon: string -> string, w: World, i: Incoming, e: Event)
    requires !Repeats(canon, w.store.projection, i) && !KeyTaken(w.store.log, i.key) && e == Event(w.store.next, i)
    ensures Step(canon, w, Appended(i)) ==
            World(Store(w.store.log + [e], w.store.next + 1,
                        if Alert(i.kind) then Advance(w.store.projection, e) else w.store.projection),
                  w.history + [e])
  {
    assert |w.store.log + [e]| == |w.store.log| + 1;
  }

  lemma StepKeepsSound(canon: string -> string, w: World, op: Op)
    requires Sound(canon, w) && Enabled(w.store, op)
    ensures Sound(canon, Step(canon, w, op))
  {
    match op
    case Appended(i) => AppendKeepsSound(canon, w, i);
    case Pruned(keep) => KeepIsOrdered(w.store.log, w.store.next, keep);
    case Backfilled => BackfillIsNoop(canon, w);
  }

  /** All of it over every run of appends, retention and migrations from the empty store. */
  lemma {:induction false} RunsStaySound(canon: string -> string, w: World, ops: seq<Op>)
    requires Sound(canon, w) && Runs(canon, w, ops)
    ensures Sound(canon, After(canon, w, ops))
    decreases |ops|
  {
    if ops != [] {
      StepKeepsSound(canon, w, ops[0]);
      RunsStaySound(canon, Step(canon, w, ops[0]), ops[1..]);
    }
  }

  lemma EveryRunIsSound(canon: string -> string, ops: seq<Op>)
    requires Runs(canon, EMPTY, ops)
    ensures Sound(canon, After(canon, EMPTY, ops))
  {
    RunsStaySound(canon, EMPTY, ops);
  }

  /**
    Rebuilding the projection from nothing gives the kept one exactly when retention has left the
    last alert event of every system in the log; in particular while nothing was pruned.
   */
  lemma RebuildFromEmpty(canon: string -> string, w: World)
    requires Sound(canon, w)
    ensures Backfill(w.store.log, map[]) == w.store.projection
            <==> forall k :: Retained(w, k)
  {
    var p, b := w.store.projection, Backfill(w.store.log, map[]);
    forall k ensures Look(b, k) == Look(p, k) <==> Retained(w, k) {
      RebuiltAt(canon, w, k);
    }
    SameLooks(b, p);
  }

  /** Two alerts of different systems, of which retention keeps the newer. */
  function PrunedRun(): seq<Op> {
    [Appended(Incoming("k1", Entered, "a", "t1", "p")), Appended(Incoming("k2", Entered, "b", "t2", "p")), Pruned({2})]
  }

  lemma PrunedRunLeaves(canon: string -> string)
    ensures Runs(canon, EMPTY, PrunedRun())
    ensures var s := After(canon, EMPTY, PrunedRun()).store; "a" in s.projection && LastAlert(s.log, "a").None?
  {
    var ops := PrunedRun();
    var a, b := Event(1, ops[0].incoming), Event(2, ops[1].incoming);
    var w1 := Step(canon, EMPTY, ops[0]);
    assert w1.store == Store([a], 2, map["a" := RowOf(a)]);
    var w2 := Step(canon, w1, ops[1]);
    assert w2.store == Store([a, b], 3, map["a" := RowOf(a), "b" := RowOf(b)]);
    var w3 := Step(canon, w2, ops[2]);
    assert ops[1..][0] == ops[1] && ops[1..][1..] == [ops[2]];
    assert Runs(canon, w3, []) && Runs(canon, w2, [ops[2]]) && Runs(canon, w1, ops[1..]);
    assert After(canon, w2, [ops[2]]) == w3 && After(canon, w1, ops[1..]) == w3;
  }

  /** A reachable store whose projection a rebuild from nothing would not give back: retention dropped an alert. */
  lemma PruningDefeatsRebuild(canon: string -> string)
    ensures Runs(canon, EMPTY, PrunedRun())
    ensures var s := After(canon, EMPTY, PrunedRun()).store; Backfill(s.log, map[]) != s.projection
  {
    PrunedRunLeaves(canon);
    var s := After(canon, EMPTY, PrunedRun()).store;
    assert Look(Backfill(s.log, map[]), "a") == BackfillAt(s.log, map[], "a");
  }

  /** The last alert event of this system, if it ever had one, is still in the log. */
  ghost predicate Retained(w: World, k: string) {
    LastAlert(w.history, k).Some? ==> LastAlert(w.history, k).value in w.store.log
  }

  lemma RebuiltAt(canon: string -> string, w: World, k: string)
    requires Sound(canon, w)
    ensures BackfillAt(w.store.log, map[], k) == Look(w.store.projection, k) <==> Retained(w, k)
  {
    assert ProjectedAt(w.history, w.store.projection, k);
    RetainedAlert(canon, w, k);
  }

  lemma SameLooks(a: Projection, b: Projection)
    ensures a == b <==> forall k :: Look(a, k) == Look(b, k)
  {
    if forall k :: Look(a, k) == Look(b, k) {
      forall k ensures k in a <==> k in b {
        assert Look(a, k) == Look(b, k);
      }
      forall k | k in a && k in b ensures a[k] == b[k] {
        assert Look(a, k) == Look(b, k);
      }
      assert a == b;
    }
  }

  /** The log's last alert is the history's exactly when that event was retained. */
  lemma RetainedAlert(canon: string -> string, w: World, k: string)
    requires Sound(canon, w)
    ensures var a, b := LastAlert(w.store.log, k), LastAlert(w.history, k);
            && (a.Some? ==> b.Some? && (a.value.seqno == b.value.seqno ==> a == b))
            && (b.Some? ==> (b.value in w.store.log <==> a == b))
  {
    var a, b := LastAlert(w.store.log, k), LastAlert(w.history, k);
    if a.Some? {
      LastAlertIsNewest(w.history, w.store.next, a.value);
      if a.value.seqno == b.value.seqno {
        SameSeqSameEvent(w.history, w.store.next, a.value, b.value);
      }
    }
    if b.Some? && b.value in w.store.log {
      LastAlertIsNewest(w.store.log, w.store.next, b.value);
    }
  }

  lemma SameSeqSameEvent(h: seq<Event>, next: nat, a: Event, b: Event)
    requires Ordered(h, next) && a in h && b in h && a.seqno == b.seqno
    ensures a == b
  {
    var i :| 0 <= i < |h| && h[i] == a;
    var j :| 0 <= j < |h| && h[j] == b;
  }

  // ------------------------------------------------------------- the database

  class Database {
    const canon: string -> string
    var log: seq<Event>
    var next: nat
    var projection: Projection

    function Value(): Store
      reads this
    {
      Store(log, next, projection)
    }

    constructor (canon: string -> string)
      ensures this.canon == canon && Value() == EMPTY.store
    {
      this.canon, log, next, projection := canon, [], 1, map[];
    }

    method AppendEvent(i: Incoming)
      modifies this
      ensures Value() == Append(canon, old(Value()), i)
      ensures AppendMeans(canon, old(Value()), i, Value())
    {
      AppendIsThat(canon, Value(), i);
      if Repeats(canon, projection, i) {
        return;
      }
      var e := Event(next, i);
      next := next + 1;
      if exists x :: x in log && x.body.key == i.key {
        return;
      }
      log := log + [e];
      if Alert(i.kind) && !(i.entity in projection && projection[i.entity].version >= e.seqno) {
        projection := projection[i.entity := RowOf(e)];
      }
    }

    /** migrate_system_state: the backfill, system by system. */
    method Migrate()
      modifies this`projection
      ensures Value() == old(Value()).(projection := Backfill(log, old(projection)))
    {
      ghost var before := projection;
      var rest := AlertSystems(log);
      while rest != {}
        invariant rest <= AlertSystems(log)
        invariant forall k :: k in rest ==> Look(projection, k) == Look(before, k)
        invariant forall k :: k !in rest ==> Look(projection, k) == BackfillAt(log, before, k)
        decreases |rest|
      {
        var k :| k in rest;
        rest := rest - {k};
        var e := LastAlert(log, k).value;
        assert Look(projection, k) == Look(before, k);
        if !(k in projection && projection[k].version >= e.seqno) {
          projection := projection[k := RowOf(e)];
        }
      }
      SameLooks(projection, Backfill(log, before));
    }
  }

  // ------------------------------------------------------------- active items

  /** A person of a payload; `firstSeen` is empty when the payload has none. */
  datatype Who = Who(id: int, name: string, firstSeen: string)

  /** What the adapter reads from a payload; `rest` is the metadata it only copies. */
  datatype Reading = Reading(
    count: int, active: bool, known: bool, name: string, systemId: Option<int>, people: seq<Who>, rest: string)

  /** The state of one system. */
  datatype Current = Current(system: string, row: StateRow)

  /** The fields that all nodes of a system share. */
  datatype Node = Node(system: string, name: string, systemId: Option<int>, at: string, version: nat, count: int, rest: string)

  datatype Item = Raw(system: string, text: string) | Presence(node: Node) | Person(node: Node, who: Who)

  predicate Live(r: Reading) { r.known && r.count > 0 && r.active }

  function NodeOf(r: Reading, c: Current): Node {
    Node(c.system, if r.name == "" then c.system else r.name, r.systemId, c.row.at, c.row.version, r.count, r.rest)
  }

  /** A person without a first-seen time was first seen when the state was. */
  function Seen(w: Who, at: string): Who { if w.firstSeen == "" then w.(firstSeen := at) else w }

  predicate Covered(fold: string -> string, states: seq<Current>, system: string) {
    exists c :: c in states && fold(c.system) == fold(system)
  }

  function Uncovered(fold: string -> string, raws: seq<Item>, states: seq<Current>): seq<Item>
    requires forall r :: r in raws ==> r.Raw?
  {
    if raws == [] then []
    else
      var n := |raws| - 1;
      Uncovered(fold, raws[..n], states) + if Covered(fold, states, raws[n].system) then [] else [raws[n]]
  }

  function Persons(node: Node, people: seq<Who>): seq<Item> {
    if people == [] then []
    else Persons(node, people[..|people| - 1]) + [Person(node, Seen(people[|people| - 1], node.at))]
  }

  function NodesOf(read: string -> Reading, c: Current): seq<Item> {
    var r := read(c.row.payload);
    if !Live(r) then [] else [Presence(NodeOf(r, c))] + Persons(NodeOf(r, c), r.people)
  }

  function Nodes(read: string -> Reading, states: seq<Current>): seq<Item> {
    if states == [] then [] else Nodes(read, states[..|states| - 1]) + NodesOf(read, states[|states| - 1])
  }

  lemma {:induction false} UncoveredAre(fold: string -> string, raws: seq<Item>, states: seq<Current>, x: Item)
    requires forall r :: r in raws ==> r.Raw?
    ensures x in Uncovered(fold, raws, states) <==> x in raws && !Covered(fold, states, x.system)
  {
    if raws != [] {
      UncoveredAre(fold, raws[..|raws| - 1], states, x);
      assert raws == raws[..|raws| - 1] + [raws[|raws| - 1]];
    }
  }

  lemma {:induction false} PersonsAre(node: Node, people: seq<Who>, x: Item)
    ensures x in Persons(node, people) <==> exists w :: w in people && x == Person(node, Seen(w, node.at))
  {
    if people != [] {
      PersonsAre(node, people[..|people| - 1], x);
      assert people == people[..|people| - 1] + [people[|people| - 1]];
    }
  }

  /** x is the node of a live state, or a person in it. */
  ghost predicate Shows(read: string -> Reading, c: Current, x: Item) {
    var r := read(c.row.payload);
    && r.known && r.count > 0 && r.active
    && (x.Presence? || (x.Person? && exists w :: w in r.people && x.who == (if w.firstSeen == "" then w.(firstSeen := c.row.at) else w)))
    && x.node.system == c.system && x.node.name == (if r.name == "" then c.system else r.name)
    && x.node.systemId == r.systemId && x.node.at == c.row.at && x.node.version == c.row.version
    && x.node.count == r.count && x.node.rest == r.rest
  }

  lemma NodesOfAre(read: string -> Reading, c: Current, x: Item)
    ensures x in NodesOf(read, c) <==> Shows(read, c, x)
  {
    var r := read(c.row.payload);
    PersonsAre(NodeOf(r, c), r.people, x);
  }

  lemma {:induction false} NodesAre(read: string -> Reading, states: seq<Current>, x: Item)
    ensures x in Nodes(read, states) <==> Shown(read, states, x)
  {
    if states != [] {
      NodesAre(read, states[..|states| - 1], x);
      NodesOfAre(read, states[|states| - 1], x);
      assert states == states[..|states| - 1] + [states[|states| - 1]];
    }
  }

  /** The items are exactly the raw rows of uncovered systems and what live states show. */
  ghost predicate Projected(fold: string -> string, read: string -> Reading, raws: seq<Item>, states: seq<Current>, items: seq<Item>) {
    forall x :: x in items <==> (x in raws && x.Raw? && !Covered(fold, states, x.system)) || Shown(read, states, x)
  }

  ghost predicate Shown(read: string -> Reading, states: seq<Current>, x: Item) { exists c :: c in states && Shows(read, c, x) }

  lemma NothingElseShown(fold: string -> string, read: string -> Reading, raws: seq<Item>, states: seq<Current>)
    requires forall r :: r in raws ==> r.Raw?
    ensures Projected(fold, read, raws, states, Uncovered(fold, raws, states) + Nodes(read, states))
  {
    var kept, nodes := Uncovered(fold, raws, states), Nodes(read, states);
    forall x ensures x in kept + nodes <==> (x in raws && x.Raw? && !Covered(fold, states, x.system)) || Shown(read, states, x) {
      UncoveredAre(fold, raws, states, x);
      NodesAre(read, states, x);
    }
  }

  method ListNodes(read: string -> Reading, states: seq<Current>) returns (items: seq<Item>)
    ensures items == Nodes(read, states)
  {
    items := [];
    var i := 0;
    while i < |states|
      invariant 0 <= i <= |states| && items == Nodes(read, states[..i])
    {
      assert states[..i + 1][..i] == states[..i];
      items := items + NodesOf(read, states[i]);
      i := i + 1;
    }
    assert states[..i] == states;
  }

  method KeepUncovered(fold: string -> string, raws: seq<Item>, states: seq<Current>) returns (items: seq<Item>)
    requires forall r :: r in raws ==> r.Raw?
    ensures items == Uncovered(fold, raws, states)
  {
    items := [];
    var i := 0;
    while i < |raws|
      invariant 0 <= i <= |raws| && items == Uncovered(fold, raws[..i], states)
    {
      assert raws[..i + 1][..i] == raws[..i];
      if !Covered(fold, states, raws[i].system) {
        items := items + [raws[i]];
      }
      i := i + 1;
    }
    assert raws[..i] == raws;
  }

  /**
    project_active_items; `fold` is case folding, `read` parses a payload. Raw rows of systems without a state
    come first, in order; then each live state gives one node and one per person. A clear or unknown state gives none.
   */
  method ProjectActiveItems(fold: string -> string, read: string -> Reading, raws: seq<Item>, states: seq<Current>)
    returns (items: seq<Item>)
    requires forall r :: r in raws ==> r.Raw?
    ensures items == Uncovered(fold, raws, states) + Nodes(read, states)
    ensures Projected(fold, read, raws, states, items)
  {
    var kept := KeepUncovered(fold, raws, states);
    var nodes := ListNodes(read, states);
    NothingElseShown(fold, read, raws, states);
    items := kept + nodes;
  }
}
