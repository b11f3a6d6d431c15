/**
  The hot cache in front of the archive (app/esi/personnel_runtime.py, personnel_batches.py): an LRU
  of profile rows with a reverse index from folded name to character.
 */
module PersonnelRuntime {
  import opened Common
  import opened Identities
  import opened RefreshJobs
  import opened ArchiveRuns
  import opened RefreshBatches
  import Store = PersonnelArchive

  datatype HotRow = HotRow(profile: Profile, corporationName: Option<string>, allianceName: Option<string>)

  /**
    `order` is the OrderedDict order of `hot`, oldest first; `names` is the reverse index, `changed` the
    characters to announce, `upstream` the deadlines upstream gave for affiliations.
   */
  datatype Cache = Cache(
    hot: map<int, HotRow>, order: seq<int>, names: map<string, int>, changed: set<int>, upstream: map<int, real>)

  /** What a listener sees of a row. */
  function Shown(row: HotRow): (string, nat, Option<real>, Option<string>, Option<string>) {
    (row.profile.name, row.profile.revision, row.profile.fetched, row.corporationName, row.allianceName)
  }

  /** One row of _remember: older revisions are skipped, a renamed row drops its old key. */
  function Put(key: string -> string, c: Cache, id: int, row: HotRow): Cache {
    if id in c.hot && c.hot[id].profile.revision > row.profile.revision then c
    else
      var names := if id in c.hot then c.names - {key(c.hot[id].profile.name)} else c.names;
      Cache(c.hot[id := row], Without(c.order, id) + [id], names[key(row.profile.name) := id],
            if id in c.hot && Shown(c.hot[id]) == Shown(row) then c.changed else c.changed + {id}, c.upstream)
  }

  function PutAll(key: string -> string, c: Cache, rows: seq<(int, HotRow)>): Cache {
    if rows == [] then c
    else Put(key, PutAll(key, c, rows[..|rows| - 1]), rows[|rows| - 1].0, rows[|rows| - 1].1)
  }

  /** popitem(last=False) until the bound holds. */
  function Evict(key: string -> string, c: Cache, bound: nat): (r: Cache)
    requires forall id :: id in c.order ==> id in c.hot
    requires Distinct(c.order)
    ensures |r.order| == MinInt(|c.order|, bound)
    decreases |c.order|
  {
    if |c.order| <= bound then c
    else
      var id := c.order[0];
      assert id in c.order && id in c.hot;
      Evict(key, Drop(key, c), bound)
  }

  function Drop(key: string -> string, c: Cache): Cache
    requires |c.order| > 0 && c.order[0] in c.hot
  {
    var id := c.order[0];
    Cache(c.hot - {id}, c.order[1..], c.names - {key(c.hot[id].profile.name)}, c.changed, c.upstream - {id})
  }

  /** names is the exact inverse of hot under the folded name, and order lists each resident once. */
  ghost predicate Inverse(key: string -> string, c: Cache) {
    && Distinct(c.order)
    && (forall id :: id in c.order <==> id in c.hot)
    && (forall id :: id in c.hot ==> key(c.hot[id].profile.name) in c.names && c.names[key(c.hot[id].profile.name)] == id)
    && (forall k :: k in c.names ==> c.names[k] in c.hot && key(c.hot[c.names[k]].profile.name) == k)
  }

  /** Every row's key is permanently owned by its character. */
  ghost predicate Owned(key: string -> string, owners: map<string, NameRow>, id: int, row: HotRow) {
    key(row.profile.name) in owners && owners[key(row.profile.name)].owner == id
  }

  ghost predicate AllOwned(key: string -> string, owners: map<string, NameRow>, c: Cache) {
    forall id :: id in c.hot ==> Owned(key, owners, id, c.hot[id])
  }

  lemma PutKeepsNames(key: string -> string, owners: map<string, NameRow>, c: Cache, id: int, row: HotRow)
    requires Inverse(key, c) && AllOwned(key, owners, c) && Owned(key, owners, id, row)
    ensures var d := Put(key, c, id, row);
            && (forall i :: i in d.hot ==> key(d.hot[i].profile.name) in d.names && d.names[key(d.hot[i].profile.name)] == i)
            && (forall k :: k in d.names ==> d.names[k] in d.hot && key(d.hot[d.names[k]].profile.name) == k)
  {
    var d := Put(key, c, id, row);
    forall k | k in d.names ensures d.names[k] in d.hot && key(d.hot[d.names[k]].profile.name) == k {
      if k != key(row.profile.name) && d != c {
        assert k in c.names;
      }
    }
    forall i | i in d.hot ensures key(d.hot[i].profile.name) in d.names && d.names[key(d.hot[i].profile.name)] == i {
      if i != id {
        assert Owned(key, owners, i, c.hot[i]);
      }
    }
  }

  lemma PutKeepsOrder(key: string -> string, c: Cache, id: int, row: HotRow)
    requires Distinct(c.order) && forall i :: i in c.order <==> i in c.hot
    ensures var d := Put(key, c, id, row); Distinct(d.order) && forall i :: i in d.order <==> i in d.hot
  {
    WithoutIsDistinct(c.order, id);
    var rest := Without(c.order, id);
    forall n | 0 <= n < |rest| ensures rest[n] != id {
      assert rest[n] in rest;
    }
  }

  lemma PutKeepsInverse(key: string -> string, owners: map<string, NameRow>, c: Cache, id: int, row: HotRow)
    requires Inverse(key, c) && AllOwned(key, owners, c) && Owned(key, owners, id, row)
    ensures Inverse(key, Put(key, c, id, row)) && AllOwned(key, owners, Put(key, c, id, row))
    ensures c.hot.Keys <= Put(key, c, id, row).hot.Keys && NotOlder(c, Put(key, c, id, row))
  {
    PutKeepsNames(key, owners, c, id, row);
    PutKeepsOrder(key, c, id, row);
    PutOwned(key, owners, c, id, row);
  }

  /**
    A row that is not older than the hot one replaces it and becomes the youngest; all others keep their rows
    and their places. An older row changes nothing.
   */
  lemma PutIsYoungest(key: string -> string, c: Cache, id: int, row: HotRow)
    requires Inverse(key, c)
    ensures var d := Put(key, c, id, row);
            if id in c.hot && row.profile.revision < c.hot[id].profile.revision then d == c
            else
              && d.hot == c.hot[id := row] && d.order != [] && d.order[|d.order| - 1] == id
              && d.changed == (if id in c.hot && SameFace(c.hot[id], row) then c.changed else c.changed + {id})
              && (id !in c.hot ==> d.order[..|d.order| - 1] == c.order)
              && (forall k :: 0 <= k < |c.order| && c.order[k] == id ==> d.order[..|d.order| - 1] == c.order[..k] + c.order[k + 1..])
  {
    WithoutCloses(c.order, id);
  }

  /** These characters are all among the n youngest. */
  ghost predicate Young(order: seq<int>, ids: set<int>, n: nat) {
    forall id :: id in ids ==> exists k :: 0 <= k < |order| && |order| - n <= k && order[k] == id
  }

  lemma YoungFewer(order: seq<int>, ids: set<int>, fewer: set<int>, n: nat, m: nat)
    requires Young(order, ids, n) && fewer <= ids && n <= m
    ensures Young(order, fewer, m)
  {
  }

  lemma AppendYoung(order: seq<int>, ids: set<int>, n: nat, id: int)
    requires Young(order, ids, n)
    ensures Young(order + [id], ids + {id}, n + 1)
  {
    var out := order + [id];
    assert out[|order|] == id;
    forall i | i in ids ensures exists k :: 0 <= k < |out| && |out| - (n + 1) <= k && out[k] == i {
      var k :| 0 <= k < |order| && |order| - n <= k && order[k] == i;
      assert out[k] == i;
    }
  }

  lemma CutYoung(order: seq<int>, ids: set<int>, n: nat, m: nat)
    requires Young(order, ids, n) && m < |order|
    ensures Young(order[..m] + order[m + 1..], ids - {order[m]}, n)
  {
    var out := order[..m] + order[m + 1..];
    forall i | i in ids && i != order[m] ensures exists k :: 0 <= k < |out| && |out| - n <= k && out[k] == i {
      var k :| 0 <= k < |order| && |order| - n <= k && order[k] == i;
      assert out[if k < m then k else k - 1] == i;
    }
  }

  lemma PutKeepsYoung(key: string -> string, c: Cache, id: int, row: HotRow, ids: set<int>, n: nat)
    requires Inverse(key, c) && Young(c.order, ids, n) && (id in c.hot ==> c.hot[id].profile.revision <= row.profile.revision)
    ensures Young(Put(key, c, id, row).order, ids + {id}, n + 1)
  {
    var order := Put(key, c, id, row).order;
    PutIsYoungest(key, c, id, row);
    assert order == order[..|order| - 1] + [id];
    if id in c.order {
      var m :| 0 <= m < |c.order| && c.order[m] == id;
      CutYoung(c.order, ids, n, m);
      AppendYoung(order[..|order| - 1], ids - {id}, n, id);
      assert ids - {id} + {id} == ids + {id};
    } else {
      AppendYoung(c.order, ids, n, id);
    }
  }

  function Ids(rows: seq<(int, HotRow)>): set<int> { set i | 0 <= i < |rows| :: rows[i].0 }

  lemma IdsSplit(rows: seq<(int, HotRow)>)
    requires rows != []
    ensures Ids(rows) == Ids(rows[..|rows| - 1]) + {rows[|rows| - 1].0}
  {
    var init := rows[..|rows| - 1];
    forall i | 0 <= i < |rows| ensures rows[i].0 in Ids(init) + {rows[|rows| - 1].0} {
      assert i < |init| ==> init[i] == rows[i];
    }
    forall i | 0 <= i < |init| ensures init[i].0 in Ids(rows) {
      assert init[i] == rows[i];
    }
  }

  /** One current row more. */
  lemma CurrentRowIsYoung(key: string -> string, c: Cache, id: int, row: HotRow, current: map<int, Profile>, ids: set<int>, n: nat)
    requires Inverse(key, c) && NotAhead(c, current) && id in current && row.profile == current[id]
    requires Young(c.order, ids, n)
    ensures Young(Put(key, c, id, row).order, ids + {id}, n + 1)
  {
    assert id in c.hot ==> c.hot[id].profile.revision <= row.profile.revision;
    PutKeepsYoung(key, c, id, row, ids, n);
  }

  lemma {:induction false} PutAllKeepsYoung(key: string -> string, owners: map<string, NameRow>, c: Cache, rows: seq<(int, HotRow)>,
                                            current: map<int, Profile>, ids: set<int>, n: nat)
    requires Inverse(key, c) && AllOwned(key, owners, c) && Young(c.order, ids, n)
    requires forall i :: 0 <= i < |rows| ==> Owned(key, owners, rows[i].0, rows[i].1)
    requires NotAhead(c, current) && AreCurrent(rows, current)
    ensures Young(PutAll(key, c, rows).order, ids + Ids(rows), n + |rows|)
  {
    if rows == [] {
      assert ids + Ids(rows) == ids;
    } else {
      var init := rows[..|rows| - 1];
      PutAllKeepsYoung(key, owners, c, init, current, ids, n);
      PutAllKeepsInverse(key, owners, c, init);
      CurrentRowsGetIn(key, c, init, current);
      var last := rows[|rows| - 1];
      CurrentRowIsYoung(key, PutAll(key, c, init), last.0, last.1, current, ids + Ids(init), n + |init|);
      IdsSplit(rows);
      assert ids + Ids(rows) == ids + Ids(init) + {last.0};
    }
  }

  lemma SuffixKeepsYoung(order: seq<int>, ids: set<int>, n: nat, m: nat)
    requires Young(order, ids, n) && m <= |order| && (n <= m || m == |order|)
    ensures Young(order[|order| - m..], ids, n)
  {
    var out := order[|order| - m..];
    forall id | id in ids ensures exists k :: 0 <= k < |out| && |out| - n <= k && out[k] == id {
      var k :| 0 <= k < |order| && |order| - n <= k && order[k] == id;
      assert out[k - (|order| - m)] == id;
    }
  }

  lemma EvictKeepsYoung(key: string -> string, c: Cache, bound: nat, ids: set<int>, n: nat)
    requires Inverse(key, c) && Young(c.order, ids, n) && n <= bound
    ensures Young(Evict(key, c, bound).order, ids, n)
  {
    EvictKeepsYoungest(key, c, bound);
    SuffixKeepsYoung(c.order, ids, n, MinInt(|c.order|, bound));
  }

  lemma PutOwned(key: string -> string, owners: map<string, NameRow>, c: Cache, id: int, row: HotRow)
    requires AllOwned(key, owners, c) && Owned(key, owners, id, row)
    ensures AllOwned(key, owners, Put(key, c, id, row))
  {
  }

  lemma {:induction false} PutAllKeepsInverse(key: string -> string, owners: map<string, NameRow>, c: Cache,
                                              rows: seq<(int, HotRow)>)
    requires Inverse(key, c) && AllOwned(key, owners, c)
    requires forall i :: 0 <= i < |rows| ==> Owned(key, owners, rows[i].0, rows[i].1)
    ensures Inverse(key, PutAll(key, c, rows)) && AllOwned(key, owners, PutAll(key, c, rows))
    ensures c.hot.Keys <= PutAll(key, c, rows).hot.Keys && NotOlder(c, PutAll(key, c, rows))
  {
    PutAllNeverAges(key, c, rows);
    if rows != [] {
      PutAllKeepsInverse(key, owners, c, rows[..|rows| - 1]);
      PutKeepsInverse(key, owners, PutAll(key, c, rows[..|rows| - 1]), rows[|rows| - 1].0, rows[|rows| - 1].1);
    }
  }

  /** No row is lost while rows are put, and none grows older. */
  ghost predicate NotOlder(c: Cache, d: Cache) {
    forall id :: id in c.hot && id in d.hot ==> c.hot[id].profile.revision <= d.hot[id].profile.revision
  }

  lemma {:induction false} PutAllNeverAges(key: string -> string, c: Cache, rows: seq<(int, HotRow)>)
    ensures c.hot.Keys <= PutAll(key, c, rows).hot.Keys && NotOlder(c, PutAll(key, c, rows))
    ensures PutAll(key, c, rows).upstream == c.upstream
  {
    if rows != [] {
      PutAllNeverAges(key, c, rows[..|rows| - 1]);
    }
  }

  lemma DropKeepsInverse(key: string -> string, c: Cache)
    requires Inverse(key, c) && |c.order| > 0
    ensures c.order[0] in c.hot && Inverse(key, Drop(key, c))
  {
    var id := c.order[0];
    assert id in c.order;
    assert forall x :: x in c.order <==> x == id || x in c.order[1..];
    assert id !in c.order[1..];
  }

  lemma PutAllOfOne(key: string -> string, c: Cache, rows: seq<(int, HotRow)>)
    requires |rows| == 1
    ensures PutAll(key, c, rows) == Put(key, c, rows[0].0, rows[0].1)
  {
    assert rows[..|rows| - 1] == [];
    assert PutAll(key, c, rows[..|rows| - 1]) == c;
  }

  lemma LastIsHot(key: string -> string, d: Cache, bound: nat)
    requires Inverse(key, d) && d.order != [] && 0 < bound
    ensures d.order[|d.order| - 1] in Evict(key, d, bound).hot
  {
    EvictKeepsYoungest(key, d, bound);
    var e := Evict(key, d, bound);
    assert e.order[|e.order| - 1] == d.order[|d.order| - 1];
    assert e.order[|e.order| - 1] in e.order;
  }

  lemma OneIsHot(key: string -> string, c: Cache, id: int, row: HotRow, bound: nat)
    requires Inverse(key, c) && |c.order| <= bound && 0 < bound
    requires Inverse(key, PutAll(key, c, [(id, row)]))
    ensures id in Evict(key, PutAll(key, c, [(id, row)]), bound).hot
  {
    PutAllOfOne(key, c, [(id, row)]);
    if id in c.hot && row.profile.revision < c.hot[id].profile.revision {
      assert Evict(key, c, bound) == c;
    } else {
      PutIsYoungest(key, c, id, row);
      LastIsHot(key, Put(key, c, id, row), bound);
    }
  }

  /** d holds no deadline that c does not. */
  ghost predicate FewerDeadlines(c: Cache, d: Cache) {
    forall id :: id in d.upstream ==> id in c.upstream && d.upstream[id] == c.upstream[id]
  }

  /** d holds c's youngest rows, unchanged, announces the same and forgot exactly the deadlines of the rows it lost. */
  ghost predicate Youngest(c: Cache, d: Cache, bound: nat) {
    && d.changed == c.changed && FewerDeadlines(c, d)
    && (forall id :: id in c.upstream ==> (id in d.upstream <==> (id in c.hot ==> id in d.hot)))
    && d.order == c.order[|c.order| - MinInt(|c.order|, bound)..]
    && (forall id :: id in d.hot ==> id in c.hot && d.hot[id] == c.hot[id])
  }

  lemma YoungestAfterDrop(key: string -> string, c: Cache, e: Cache, bound: nat)
    requires |c.order| > bound && c.order[0] in c.hot && Youngest(Drop(key, c), e, bound)
    ensures Youngest(c, e, bound)
  {
  }

  /** Eviction keeps exactly the youngest rows, unchanged, and their index entries. */
  lemma {:induction false} EvictKeepsYoungest(key: string -> string, c: Cache, bound: nat)
    requires Inverse(key, c)
    ensures Inverse(key, Evict(key, c, bound)) && Youngest(c, Evict(key, c, bound), bound)
    decreases |c.order|
  {
    if |c.order| > bound {
      DropKeepsInverse(key, c);
      EvictKeepsYoungest(key, Drop(key, c), bound);
      YoungestAfterDrop(key, c, Evict(key, Drop(key, c), bound), bound);
    }
  }

  /** Rows that are hot were there before or were put. */
  ghost predicate FromRows(c: Cache, rows: seq<(int, HotRow)>, d: Cache) {
    forall id :: id in d.hot ==> (id in c.hot && d.hot[id] == c.hot[id]) || (id, d.hot[id]) in rows
  }

  /** A listener sees no difference: name, revision, fetch time and organization names are the same. */
  predicate SameFace(a: HotRow, b: HotRow) {
    && a.profile.name == b.profile.name && a.profile.revision == b.profile.revision && a.profile.fetched == b.profile.fetched
    && a.corporationName == b.corporationName && a.allianceName == b.allianceName
  }

  /** Whatever a listener would see change is announced. */
  ghost predicate Announced(c: Cache, d: Cache) {
    && c.changed <= d.changed
    && (forall id :: id in d.hot ==> id in d.changed || (id in c.hot && SameFace(d.hot[id], c.hot[id])))
  }

  /** The rows put into a cache are all it can newly contain. */
  lemma {:induction false} PutAllSources(key: string -> string, c: Cache, rows: seq<(int, HotRow)>)
    ensures FromRows(c, rows, PutAll(key, c, rows))
  {
    if rows != [] {
      PutAllSources(key, c, rows[..|rows| - 1]);
      assert rows == rows[..|rows| - 1] + [rows[|rows| - 1]];
    }
  }

  lemma {:induction false} ChangesAreAnnounced(key: string -> string, c: Cache, rows: seq<(int, HotRow)>)
    ensures Announced(c, PutAll(key, c, rows))
  {
    if rows != [] {
      ChangesAreAnnounced(key, c, rows[..|rows| - 1]);
    }
  }

  /** No hot row is newer than the archive's row of its character. */
  ghost predicate NotAhead(c: Cache, current: map<int, Profile>) {
    forall id :: id in c.hot ==> id in current && c.hot[id].profile.revision <= current[id].revision
  }

  /** Rows read from the archive just now. */
  ghost predicate AreCurrent(rows: seq<(int, HotRow)>, current: map<int, Profile>) {
    forall i :: 0 <= i < |rows| ==> rows[i].0 in current && rows[i].1.profile == current[rows[i].0]
  }

  ghost predicate HoldsCurrent(c: Cache, rows: seq<(int, HotRow)>, current: map<int, Profile>) {
    forall i :: 0 <= i < |rows| && rows[i].0 in c.hot ==> rows[i].0 in current && c.hot[rows[i].0].profile == current[rows[i].0]
  }

  /** Current rows always get in: no stale copy of theirs survives. */
  lemma {:induction false} CurrentRowsGetIn(key: string -> string, c: Cache, rows: seq<(int, HotRow)>, current: map<int, Profile>)
    requires NotAhead(c, current) && AreCurrent(rows, current)
    ensures NotAhead(PutAll(key, c, rows), current) && HoldsCurrent(PutAll(key, c, rows), rows, current)
  {
    if rows != [] {
      var init, last := rows[..|rows| - 1], rows[|rows| - 1];
      CurrentRowsGetIn(key, c, init, current);
      CurrentRowGetsIn(key, PutAll(key, c, init), last.0, last.1, current);
      forall i | 0 <= i < |init| && rows[i].0 in PutAll(key, c, rows).hot
        ensures PutAll(key, c, rows).hot[rows[i].0].profile == current[rows[i].0]
      {
        assert init[i] == rows[i];
        PutAllHas(key, c, init, i);
      }
    }
  }

  lemma CurrentRowGetsIn(key: string -> string, c: Cache, id: int, row: HotRow, current: map<int, Profile>)
    requires NotAhead(c, current) && id in current && row.profile == current[id]
    ensures NotAhead(Put(key, c, id, row), current) && id in Put(key, c, id, row).hot
    ensures Put(key, c, id, row).hot[id] == row
    ensures forall k :: k != id && k in Put(key, c, id, row).hot ==> k in c.hot && Put(key, c, id, row).hot[k] == c.hot[k]
  {
  }

  lemma {:induction false} PutAllHas(key: string -> string, c: Cache, rows: seq<(int, HotRow)>, i: nat)
    requires i < |rows|
    ensures rows[i].0 in PutAll(key, c, rows).hot
  {
    if i < |rows| - 1 {
      PutAllHas(key, c, rows[..|rows| - 1], i);
    }
  }

  class PersonnelRuntime {
    const archive: Store.PersonnelArchive
    const maxHot: nat
    var hot: map<int, HotRow>
    var order: seq<int>
    var names: map<string, int>
    var changed: set<int>
    var upstream: map<int, real>
    // Names seen lately, and the characters on screen.
    var sightings: map<string, real>
    var activeIds: set<int>
    var activeNames: set<string>

    function Value(): Cache
      reads this
    {
      Cache(hot, order, names, changed, upstream)
    }

    ghost predicate Valid()
      reads this, archive
    {
      && archive.Valid()
      && Inverse(archive.key, Value())
      && |order| <= maxHot
      && (forall id :: id in hot ==> (id, hot[id].profile) in archive.committed)
    }

    constructor (archive: Store.PersonnelArchive, maxHot: nat)
      requires archive.Valid()
      ensures Valid() && this.archive == archive && this.maxHot == maxHot && hot == map[] && changed == {}
    {
      this.archive, this.maxHot := archive, maxHot;
      hot, order, names, changed, upstream := map[], [], map[], {}, map[];
      sightings, activeIds, activeNames := map[], {}, {};
    }

    /** Archive transactions of other workers cannot disturb the cache. */
    twostate lemma ArchiveStepKeepsCache()
      requires old(Valid()) && unchanged(this)
      requires archive.Valid() && old(archive.committed) <= archive.committed
      ensures Valid()
    {
    }

    lemma RowsAreOwned()
      requires Valid()
      ensures AllOwned(archive.key, archive.names, Value())
    {
      forall id | id in hot ensures Owned(archive.key, archive.names, id, hot[id]) {
        assert (id, hot[id].profile) in archive.committed;
      }
    }

    function Decorate(rows: seq<(int, Profile)>): (r: seq<(int, HotRow)>)
      reads archive
      ensures |r| == |rows|
      ensures forall i :: 0 <= i < |rows| ==> r[i].0 == rows[i].0 && r[i].1.profile == rows[i].1
    {
      seq(|rows|, i requires 0 <= i < |rows| reads archive => (rows[i].0, Dress(rows[i].1)))
    }

    /** Attach the shared organization names that the archive knows. */
    function Dress(p: Profile): (r: HotRow)
      reads archive
      ensures r.profile == p
      ensures p.affiliation.Some? && OrganizationKey(false, p.affiliation.value.corporation) in archive.orgs ==>
                r.corporationName == Some(archive.orgs[OrganizationKey(false, p.affiliation.value.corporation)].value)
      ensures p.affiliation.Some? && p.affiliation.value.alliance.Some?
              && OrganizationKey(true, p.affiliation.value.alliance.value) in archive.orgs ==>
                r.allianceName == Some(archive.orgs[OrganizationKey(true, p.affiliation.value.alliance.value)].value)
      ensures r.corporationName.Some? ==> p.affiliation.Some? && OrganizationKey(false, p.affiliation.value.corporation) in archive.orgs
      ensures r.allianceName.Some? ==> p.affiliation.Some? && p.affiliation.value.alliance.Some?
                                       && OrganizationKey(true, p.affiliation.value.alliance.value) in archive.orgs
    {
      if p.affiliation.None? then HotRow(p, None, None)
      else
        HotRow(p, OrganizationName(OrganizationKey(false, p.affiliation.value.corporation)),
               if p.affiliation.value.alliance.None? then None
               else OrganizationName(OrganizationKey(true, p.affiliation.value.alliance.value)))
    }

    function OrganizationName(k: OrganizationKey): Option<string>
      reads archive
    {
      if k in archive.orgs then Some(archive.orgs[k].value) else None
    }

    /** What remembering rows makes of a cache. */
    ghost predicate Remembered(c: Cache, rows: seq<(int, HotRow)>, d: Cache)
    {
      && NotOlder(c, d) && FromRows(c, rows, d) && Announced(c, d) && FewerDeadlines(c, d) && |d.order| <= maxHot
    }

    lemma RememberedEvict(c: Cache, rows: seq<(int, HotRow)>, full: Cache)
      requires full == PutAll(archive.key, c, rows) && Inverse(archive.key, full)
      ensures Remembered(c, rows, Evict(archive.key, full, maxHot))
    {
      EvictKeepsYoungest(archive.key, full, maxHot);
      PutAllNeverAges(archive.key, c, rows);
      PutAllSources(archive.key, c, rows);
      ChangesAreAnnounced(archive.key, c, rows);
    }

    lemma FullIsInverse(rows: seq<(int, Profile)>)
      requires Valid() && forall i :: 0 <= i < |rows| ==> rows[i] in archive.committed
      ensures Inverse(archive.key, PutAll(archive.key, Value(), Decorate(rows)))
    {
      var dressed := Decorate(rows);
      RowsAreOwned();
      forall i | 0 <= i < |dressed| ensures Owned(archive.key, archive.names, dressed[i].0, dressed[i].1) {
        assert rows[i] in archive.committed;
      }
      PutAllKeepsInverse(archive.key, archive.names, Value(), dressed);
    }

    /** _remember: newest rows in, youngest kept, everything a listener sees change announced. */
    method Remember(rows: seq<(int, Profile)>)
      requires Valid()
      requires forall i :: 0 <= i < |rows| ==> rows[i] in archive.committed
      modifies this`hot, this`order, this`names, this`changed, this`upstream
      ensures Valid()
      ensures Inverse(archive.key, PutAll(archive.key, old(Value()), old(Decorate(rows))))
      ensures Value() == Evict(archive.key, PutAll(archive.key, old(Value()), old(Decorate(rows))), maxHot)
      ensures Remembered(old(Value()), old(Decorate(rows)), Value())
    {
      var dressed := Decorate(rows);
      ghost var start := Value();
      FullIsInverse(rows);
      PutEach(dressed);
      ghost var full := Value();
      EvictOldest();
      RememberedEvict(start, dressed, full);
      EvictKeepsYoungest(archive.key, full, maxHot);
      StillCommitted(start, rows, dressed);
    }

    lemma StillCommitted(c: Cache, rows: seq<(int, Profile)>, dressed: seq<(int, HotRow)>)
      requires FromRows(c, dressed, Value()) && |dressed| == |rows|
      requires forall i :: 0 <= i < |rows| ==> dressed[i].0 == rows[i].0 && dressed[i].1.profile == rows[i].1
      requires forall id :: id in c.hot ==> (id, c.hot[id].profile) in archive.committed
      requires forall i :: 0 <= i < |rows| ==> rows[i] in archive.committed
      ensures forall id :: id in hot ==> (id, hot[id].profile) in archive.committed
    {
      forall id | id in hot ensures (id, hot[id].profile) in archive.committed {
        if (id, hot[id]) in dressed {
          var i :| 0 <= i < |dressed| && dressed[i] == (id, hot[id]);
          assert rows[i] == (id, hot[id].profile);
        }
      }
    }

    lemma HotIsNotAhead()
      requires Valid()
      ensures NotAhead(Value(), archive.profiles)
    {
      forall id | id in hot ensures id in archive.profiles && hot[id].profile.revision <= archive.profiles[id].revision {
        assert (id, hot[id].profile) in archive.committed;
      }
    }

    method PutEach(rows: seq<(int, HotRow)>)
      modifies this`hot, this`order, this`names, this`changed, this`upstream
      ensures Value() == PutAll(archive.key, old(Value()), rows)
    {
      var i := 0;
      while i < |rows|
        invariant 0 <= i <= |rows|
        invariant Value() == PutAll(archive.key, old(Value()), rows[..i])
      {
        var (id, row) := rows[i];
        assert rows[..i + 1][..i] == rows[..i];
        if !(id in hot && hot[id].profile.revision > row.profile.revision) {
          if id in hot {
            names := names - {archive.key(hot[id].profile.name)};
          }
          if !(id in hot && Shown(hot[id]) == Shown(row)) {
            changed := changed + {id};
          }
          hot := hot[id := row];
          order := Without(order, id) + [id];
          names := names[archive.key(row.profile.name) := id];
        }
        i := i + 1;
      }
      assert rows[..i] == rows;
    }

    /** popitem(last=False) with its index entry and deadline. */
    method EvictOne()
      requires Inverse(archive.key, Value()) && |order| > maxHot
      modifies this`hot, this`order, this`names, this`changed, this`upstream
      ensures old(order[0] in hot) && Value() == Drop(archive.key, old(Value()))
      ensures Inverse(archive.key, Value()) && |order| == |old(order)| - 1
      ensures Evict(archive.key, Value(), maxHot) == old(Evict(archive.key, Value(), maxHot))
    {
      DropKeepsInverse(archive.key, Value());
      var id := order[0];
      names := names - {archive.key(hot[id].profile.name)};
      hot := hot - {id};
      upstream := upstream - {id};
      order := order[1..];
    }

    method EvictOldest()
      requires Inverse(archive.key, Value())
      modifies this`hot, this`order, this`names, this`changed, this`upstream
      ensures Value() == Evict(archive.key, old(Value()), maxHot)
    {
      ghost var goal := Evict(archive.key, Value(), maxHot);
      while |order| > maxHot
        invariant Inverse(archive.key, Value()) && Evict(archive.key, Value(), maxHot) == goal
        decreases |order|
      {
        EvictOne();
      }
    }

    method RememberOne(id: int, row: Profile)
      requires Valid() && (id, row) in archive.committed
      modifies this`hot, this`order, this`names, this`changed, this`upstream
      ensures Valid() && (maxHot > 0 ==> id in hot)
    {
      ghost var before, dressed := Value(), Decorate([(id, row)]);
      Remember([(id, row)]);
      if maxHot > 0 {
        assert dressed == [(id, dressed[0].1)];
        OneIsHot(archive.key, before, id, dressed[0].1, maxHot);
      }
    }

    /**
      Hot row, else archive row. A hit of either layer is the permanent owner of the key; a miss means that no
      archived profile carries it now, or that the archive cannot be read, and changes nothing.
     */
    method Lookup(name: string, down: bool) returns (raised: bool, r: Option<(int, Profile)>)
      requires Valid()
      modifies this`hot, this`order, this`names, this`changed, this`upstream
      ensures Valid()
      ensures raised <==> name == ""
      ensures raised ==> r.None?
      ensures r.None? || archive.key(name) in old(names) ==> Value() == old(Value())
      ensures archive.key(name) in old(names) && !raised ==> r.Some?
      ensures r.Some? && maxHot > 0 ==> r.value.0 in hot
      ensures r.Some? ==>
                && r.value in archive.committed
                && archive.key(r.value.1.name) == archive.key(name)
                && archive.key(name) in archive.names && archive.names[archive.key(name)].owner == r.value.0
      ensures r.None? && !raised && !down ==> forall id :: id in archive.profiles ==> archive.key(archive.profiles[id].name) != archive.key(name)
    {
      if name == "" {
        return true, None;
      }
      var k := archive.key(name);
      if k in names {
        var id := names[k];
        assert k in Value().names && id in hot;
        RowsAreOwned();
        return false, Some((id, hot[id].profile));
      }
      if down {
        return false, None;
      }
      var found := archive.FindNames([name]);
      assert (set w | w in [name] :: archive.key(w)) == {k};
      if k !in found.value {
        assert name in [name];
        return false, None;
      }
      var (id, row) := found.value[k];
      assert (id, row) in archive.committed;
      RememberOne(id, row);
      raised, r := false, Some((id, row));
    }

    /** What commit_refresh_batch knows when it starts. */
    function Known(now: real): Context
      reads this, archive
    {
      Context(archive.profiles, sightings, activeIds, activeNames, now)
    }

    /** The steps a batch would take; None where building one raises. */
    ghost function Planned(leases: seq<Lease>, answers: map<Entity, Answer>, now: real): Option<seq<BatchStep>>
      reads this, archive
    {
      StepsOf(archive.key, Known(now), leases, answers)
    }

    method BuildSteps(leases: seq<Lease>, answers: map<Entity, Answer>, now: real) returns (steps: Option<seq<BatchStep>>)
      ensures steps == Planned(leases, answers, now)
    {
      var built: seq<BatchStep> := [];
      var i := 0;
      while i < |leases|
        invariant 0 <= i <= |leases|
        invariant StepsOf(archive.key, Known(now), leases[..i], answers) == Some(built)
      {
        assert leases[..i + 1][..i] == leases[..i];
        var step := StepOf(archive.key, Known(now), leases[i], AnswerTo(answers, leases[i]));
        if step.None? {
          StepsAreEach(archive.key, Known(now), leases, answers);
          return None;
        }
        built := built + [step.value];
        i := i + 1;
      }
      assert leases[..i] == leases;
      steps := Some(built);
    }

    /** The rows are the archive's own, as read just now. */
    ghost predicate Current(rows: seq<(int, Profile)>)
      reads archive
    {
      forall i :: 0 <= i < |rows| ==> rows[i].0 in archive.profiles && rows[i].1 == archive.profiles[rows[i].0]
    }

    /** get_profiles: the archive's rows of those ids that it has. */
    method Fetch(ids: seq<int>) returns (rows: seq<(int, Profile)>)
      ensures Current(rows) && |rows| <= |ids|
      ensures forall id :: id in ids && id in archive.profiles ==> exists i :: 0 <= i < |rows| && rows[i].0 == id
    {
      rows := [];
      var i := 0;
      while i < |ids|
        invariant 0 <= i <= |ids| && Current(rows) && |rows| <= i
        invariant forall id :: id in ids[..i] && id in archive.profiles ==> exists n :: 0 <= n < |rows| && rows[n].0 == id
      {
        var id := ids[i];
        assert ids[..i + 1] == ids[..i] + [id];
        ghost var before := rows;
        if id in archive.profiles {
          rows := rows + [(id, archive.profiles[id])];
          assert rows[|before|].0 == id;
        }
        assert forall n :: 0 <= n < |before| ==> rows[n] == before[n];
        i := i + 1;
      }
      assert ids[..i] == ids;
    }

    /** What publishing current rows keeps and achieves, over value c of the cache before the batch. */
    lemma ChunkPublished(c: Cache, d: Cache, rows: seq<(int, HotRow)>, ids: seq<int>, earlier: seq<int>)
      requires FromRows(d, rows, Value()) && NotOlder(d, Value()) && AreCurrent(rows, archive.profiles)
      requires HoldsCurrent(Value(), rows, archive.profiles) && Published(c, d, earlier)
      requires forall id :: id in ids && id in archive.profiles ==> exists i :: 0 <= i < |rows| && rows[i].0 == id
      requires NotAhead(Value(), archive.profiles)
      ensures Published(c, Value(), earlier + ids)
    {
      var e := Value();
      forall id | id in e.hot
        ensures (id in c.hot && e.hot[id] == c.hot[id]) || (id in archive.profiles && e.hot[id].profile == archive.profiles[id])
        ensures id in earlier + ids ==> id in archive.profiles && e.hot[id].profile == archive.profiles[id]
      {
        if (id, e.hot[id]) in rows {
          var i :| 0 <= i < |rows| && rows[i] == (id, e.hot[id]);
        } else {
          assert id in d.hot && e.hot[id] == d.hot[id];
          if id in ids {
            var i :| 0 <= i < |rows| && rows[i].0 == id;
          }
        }
      }
    }

    /** Every row of d is one of c or the archive's own, and the archive's own for these ids. */
    ghost predicate Published(c: Cache, d: Cache, ids: seq<int>)
      reads archive
    {
      && (forall id :: id in d.hot ==>
            (id in c.hot && d.hot[id] == c.hot[id]) || (id in archive.profiles && d.hot[id].profile == archive.profiles[id]))
      && (forall id :: id in ids && id in d.hot ==> id in archive.profiles && d.hot[id].profile == archive.profiles[id])
    }

    /** What a chunk adds to the cache. */
    lemma ChunkRows(rows: seq<(int, Profile)>)
      requires Valid() && Current(rows)
      ensures forall i :: 0 <= i < |rows| ==> rows[i] in archive.committed
      ensures Inverse(archive.key, PutAll(archive.key, Value(), Decorate(rows)))
      ensures HoldsCurrent(Evict(archive.key, PutAll(archive.key, Value(), Decorate(rows)), maxHot), Decorate(rows), archive.profiles)
    {
      var full := PutAll(archive.key, Value(), Decorate(rows));
      HotIsNotAhead();
      FullIsInverse(rows);
      CurrentRowsGetIn(archive.key, Value(), Decorate(rows), archive.profiles);
      EvictKeepsYoungest(archive.key, full, maxHot);
    }

    /** Every change a listener would see is announced, and deadlines are only dropped. */
    ghost predicate Told(c: Cache, d: Cache) { Announced(c, d) && FewerDeadlines(c, d) }

    lemma ToldFurther(c: Cache, d: Cache, e: Cache)
      requires Told(c, d) && Told(d, e)
      ensures Told(c, e)
    {
    }

    lemma DressedIds(rows: seq<(int, Profile)>, dressed: seq<(int, HotRow)>, ids: seq<int>)
      requires |dressed| == |rows| && forall i :: 0 <= i < |rows| ==> dressed[i].0 == rows[i].0
      requires forall id :: id in ids && id in archive.profiles ==> exists i :: 0 <= i < |rows| && rows[i].0 == id
      ensures forall id :: id in ids && id in archive.profiles ==> exists i :: 0 <= i < |dressed| && dressed[i].0 == id
    {
      forall id | id in ids && id in archive.profiles ensures exists i :: 0 <= i < |dressed| && dressed[i].0 == id {
        var i :| 0 <= i < |rows| && rows[i].0 == id;
        assert dressed[i].0 == id;
      }
    }

    method RememberCurrent(rows: seq<(int, Profile)>)
      requires Valid() && Current(rows)
      requires forall i :: 0 <= i < |rows| ==> rows[i] in archive.committed
      requires Inverse(archive.key, PutAll(archive.key, Value(), Decorate(rows)))
      requires HoldsCurrent(Evict(archive.key, PutAll(archive.key, Value(), Decorate(rows)), maxHot), Decorate(rows), archive.profiles)
      modifies this`hot, this`order, this`names, this`changed, this`upstream
      ensures Valid() && Remembered(old(Value()), old(Decorate(rows)), Value())
      ensures HoldsCurrent(Value(), old(Decorate(rows)), archive.profiles) && NotAhead(Value(), archive.profiles)
      ensures Value() == Evict(archive.key, PutAll(archive.key, old(Value()), old(Decorate(rows))), maxHot)
    {
      Remember(rows);
      HotIsNotAhead();
    }

    /** Those of the characters that the archive has are hot, and among the youngest. */
    ghost predicate Arrived(ids: seq<int>)
      reads this`order, archive
    {
      Young(order, set id | id in ids && id in archive.profiles, |ids|)
    }

    lemma ChunkArrives(rows: seq<(int, Profile)>, ids: seq<int>, earlier: seq<int>)
      requires Valid() && Current(rows) && |rows| <= |ids| && Arrived(earlier) && |earlier + ids| <= maxHot
      requires forall i :: 0 <= i < |rows| ==> rows[i] in archive.committed
      requires forall id :: id in ids && id in archive.profiles ==> exists i :: 0 <= i < |rows| && rows[i].0 == id
      requires Inverse(archive.key, PutAll(archive.key, Value(), Decorate(rows)))
      ensures Young(Evict(archive.key, PutAll(archive.key, Value(), Decorate(rows)), maxHot).order,
                    set id | id in earlier + ids && id in archive.profiles, |earlier + ids|)
    {
      var dressed := Decorate(rows);
      var full := PutAll(archive.key, Value(), dressed);
      var before := set id | id in earlier && id in archive.profiles;
      RowsAreOwned();
      HotIsNotAhead();
      forall i | 0 <= i < |dressed| ensures Owned(archive.key, archive.names, dressed[i].0, dressed[i].1) {
        assert rows[i] in archive.committed;
      }
      PutAllKeepsYoung(archive.key, archive.names, Value(), dressed, archive.profiles, before, |earlier|);
      DressedIds(rows, dressed, ids);
      EvictKeepsYoung(archive.key, full, maxHot, before + Ids(dressed), |earlier| + |dressed|);
      var all := set id | id in earlier + ids && id in archive.profiles;
      forall id | id in all ensures id in before + Ids(dressed) {
      }
      YoungFewer(Evict(archive.key, full, maxHot).order, before + Ids(dressed), all, |earlier| + |dressed|, |earlier + ids|);
    }

    /** One chunk of changed characters. */
    method PublishChunk(ghost c: Cache, ids: seq<int>, ghost earlier: seq<int>)
      requires Valid() && Published(c, Value(), earlier) && Told(c, Value())
      modifies this`hot, this`order, this`names, this`changed, this`upstream
      ensures Valid() && Published(c, Value(), earlier + ids) && Told(c, Value())
      ensures old(Arrived(earlier)) && |earlier + ids| <= maxHot ==> Arrived(earlier + ids)
    {
      var rows := Fetch(ids);
      ChunkRows(rows);
      if Arrived(earlier) && |earlier + ids| <= maxHot {
        ChunkArrives(rows, ids, earlier);
      }
      PublishRows(c, rows, ids, earlier);
    }

    /** The rows just fetched enter the cache. */
    method PublishRows(ghost c: Cache, rows: seq<(int, Profile)>, ghost ids: seq<int>, ghost earlier: seq<int>)
      requires Valid() && Published(c, Value(), earlier) && Told(c, Value()) && Current(rows)
      requires forall id :: id in ids && id in archive.profiles ==> exists i :: 0 <= i < |rows| && rows[i].0 == id
      requires forall i :: 0 <= i < |rows| ==> rows[i] in archive.committed
      requires Inverse(archive.key, PutAll(archive.key, Value(), Decorate(rows)))
      requires HoldsCurrent(Evict(archive.key, PutAll(archive.key, Value(), Decorate(rows)), maxHot), Decorate(rows), archive.profiles)
      modifies this`hot, this`order, this`names, this`changed, this`upstream
      ensures Valid() && Published(c, Value(), earlier + ids) && Told(c, Value())
      ensures Value() == Evict(archive.key, PutAll(archive.key, old(Value()), old(Decorate(rows))), maxHot)
    {
      ghost var d, dressed := Value(), Decorate(rows);
      RememberCurrent(rows);
      DressedIds(rows, dressed, ids);
      ChunkPublished(c, d, dressed, ids, earlier);
      ToldFurther(c, d, Value());
    }

    /** The changed characters, 500 at a time. */
    method Publish(ids: seq<int>)
      requires Valid()
      modifies this`hot, this`order, this`names, this`changed, this`upstream
      ensures Valid() && Published(old(Value()), Value(), ids) && Told(old(Value()), Value())
      // Whoever fits is hot afterwards.
      ensures |ids| <= maxHot ==> Arrived(ids)
    {
      ghost var c := Value();
      var start := 0;
      while start < |ids|
        invariant 0 <= start <= |ids| && Valid() && Published(c, Value(), ids[..start]) && Told(c, Value())
        invariant |ids| <= maxHot ==> Arrived(ids[..start])
      {
        var stop := MinInt(start + 500, |ids|);
        assert ids[..stop] == ids[..start] + ids[start..stop];
        PublishChunk(c, ids[start..stop], ids[..start]);
        start := stop;
      }
      assert ids[..start] == ids;
    }

    /** The deadlines upstream gave for the affiliations just stored. */
    method NoteDeadlines(steps: seq<BatchStep>, flags: seq<bool>)
      requires |steps| == |flags|
      modifies this`upstream
      ensures upstream == Deadlines(old(upstream), steps, flags)
    {
      var i := 0;
      while i < |steps|
        invariant 0 <= i <= |steps|
        invariant upstream == Deadlines(old(upstream), steps[..i], flags[..i])
      {
        assert steps[..i + 1][..i] == steps[..i] && flags[..i + 1][..i] == flags[..i];
        if flags[i] && steps[i].Ack? && steps[i].result.AffiliationResult? {
          var u := steps[i].result.affiliation;
          upstream := upstream[u.id := if u.expires.Some? then u.expires.value else 0.0];
        }
        i := i + 1;
      }
      assert steps[..i] == steps && flags[..i] == flags;
    }

    /**
      commit_refresh_batch: settle the leases in one transaction and only then publish the changed rows. A
      rollback leaves archive and cache as they were; after success every hot row is an old one or the archive's
      own, and no completed character or member of a renamed organization has a stale one.
     */
    method CommitRefreshBatch(leases: seq<Lease>, answers: map<Entity, Answer>, now: real) returns (flags: Option<seq<bool>>)
      requires Valid()
      modifies this, archive
      ensures Valid() && old(archive.committed) <= archive.committed
      ensures var steps := old(Planned(leases, answers, now));
              && (flags.None? <==> steps.None? || Batch(archive.key, old(archive.State()), steps.value).None?)
              && (flags.Some? ==> Batch(archive.key, old(archive.State()), steps.value) == Some((archive.State(), flags.value)))
      ensures flags.None? ==> archive.State() == old(archive.State()) && Value() == old(Value())
      ensures flags.Some? ==>
                var steps := old(Planned(leases, answers, now)).value;
                && |steps| == |flags.value|
                && Published(old(Value()), Value(), Touched(steps, flags.value, old(order), old(HotProfiles())))
                && Told(old(Value()).(upstream := Deadlines(old(upstream), steps, flags.value)), Value())
                && (|Touched(steps, flags.value, old(order), old(HotProfiles()))| <= maxHot ==>
                      Arrived(Touched(steps, flags.value, old(order), old(HotProfiles()))))
      ensures NotOlder(old(Value()), Value())
    {
      var steps := BuildSteps(leases, answers, now);
      if steps.None? {
        return None;
      }
      flags := archive.FinishBatch(steps.value);
      ArchiveStepKeepsCache();
      if flags.None? {
        return;
      }
      BatchFlags(archive.key, old(archive.State()), steps.value);
      PublishBatch(steps.value, flags.value);
    }

    /** The end of commit_refresh_batch, after the transaction. */
    method PublishBatch(steps: seq<BatchStep>, flags: seq<bool>)
      requires Valid() && |steps| == |flags|
      modifies this`hot, this`order, this`names, this`changed, this`upstream
      ensures Valid() && NotOlder(old(Value()), Value())
      ensures Published(old(Value()), Value(), Touched(steps, flags, old(order), old(HotProfiles())))
      ensures Told(old(Value()).(upstream := Deadlines(old(upstream), steps, flags)), Value())
      ensures |Touched(steps, flags, old(order), old(HotProfiles()))| <= maxHot ==>
                Arrived(Touched(steps, flags, old(order), old(HotProfiles())))
    {
      var ids := Touched(steps, flags, order, HotProfiles());
      HotIsNotAhead();
      NoteDeadlines(steps, flags);
      Publish(ids);
      PublishedNotOlder(old(Value()), Value(), ids);
    }

    lemma PublishedNotOlder(c: Cache, d: Cache, ids: seq<int>)
      requires Published(c, d, ids) && NotAhead(c, archive.profiles)
      ensures NotOlder(c, d)
    {
    }

    function HotProfiles(): map<int, Profile>
      reads this`hot
    {
      map id | id in hot :: hot[id].profile
    }
  }

  lemma {:induction false} BatchFlags(key: string -> string, a: Archive, steps: seq<BatchStep>)
    ensures Batch(key, a, steps).Some? ==> |Batch(key, a, steps).value.1| == |steps|
  {
    if steps != [] {
      BatchFlags(key, a, steps[..|steps| - 1]);
    }
  }
}
