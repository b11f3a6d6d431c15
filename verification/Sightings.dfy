/** Merged last-seen updates (observe_many of app/esi/personnel_archive.py). */
module Sightings {
  import opened Common
  import opened PersonnelPolicy
  import opened Identities

  datatype Sighting = Sighting(id: int, at: real)

  function SightAll(s: People, sightings: seq<Sighting>): People {
    if sightings == [] then s
    else
      var last := sightings[|sightings| - 1];
      Sight(SightAll(s, sightings[..|sightings| - 1]), last.id, last.at)
  }

  /** t is the latest of `base` and the sightings of id. */
  ghost predicate LatestSight(sightings: seq<Sighting>, id: int, base: real, t: real) {
    && (t == base || Sighting(id, t) in sightings)
    && base <= t
    && (forall x :: x in sightings && x.id == id ==> x.at <= t)
  }

  /** Sightings move the last-seen times of known characters to the latest, and nothing else. */
  ghost predicate SeenAfter(s: People, sightings: seq<Sighting>, u: People) {
    && u.names == s.names && u.profiles.Keys == s.profiles.Keys
    && (forall id :: id in s.profiles ==>
          && LatestSight(sightings, id, s.profiles[id].lastSeen, u.profiles[id].lastSeen)
          && u.profiles[id] == s.profiles[id].(lastSeen := u.profiles[id].lastSeen))
  }

  lemma {:induction false} SightAllIsLatest(s: People, sightings: seq<Sighting>)
    ensures SeenAfter(s, sightings, SightAll(s, sightings))
  {
    if sightings != [] {
      var init, last := sightings[..|sightings| - 1], sightings[|sightings| - 1];
      SightAllIsLatest(s, init);
      assert sightings == init + [last];
      assert forall x :: x in sightings <==> x in init || x == last;
    }
  }

  /** The `values` dictionary: the latest sighting of every character sighted. */
  ghost predicate Merged(all: seq<Sighting>, latest: map<int, real>) {
    && (forall id :: id in latest ==> Sighting(id, latest[id]) in all)
    && (forall x :: x in all ==> x.id in latest && x.at <= latest[x.id])
  }

  ghost predicate RowsOf(latest: map<int, real>, rows: seq<Sighting>) {
    forall x :: x in rows <==> x.id in latest && latest[x.id] == x.at
  }

  lemma MergedLatest(all: seq<Sighting>, latest: map<int, real>, rows: seq<Sighting>, id: int, base: real, t: real, u: real)
    requires Merged(all, latest) && RowsOf(latest, rows)
    requires LatestSight(rows, id, base, t) && LatestSight(all, id, base, u)
    ensures t == u
  {
    if id in latest {
      assert Sighting(id, latest[id]) in rows;
    }
  }

  /** Merging first leaves what the sightings leave one by one, in whatever order. */
  lemma MergedEqualsOneByOne(s: People, all: seq<Sighting>, latest: map<int, real>, rows: seq<Sighting>)
    requires Merged(all, latest) && RowsOf(latest, rows)
    ensures SightAll(s, rows) == SightAll(s, all)
  {
    SightAllIsLatest(s, all);
    SightAllIsLatest(s, rows);
    var a, b := SightAll(s, rows), SightAll(s, all);
    forall id | id in s.profiles ensures a.profiles[id] == b.profiles[id] {
      MergedLatest(all, latest, rows, id, s.profiles[id].lastSeen, a.profiles[id].lastSeen, b.profiles[id].lastSeen);
    }
    assert a.profiles == b.profiles;
  }

  lemma {:induction false} SightAllKeepsIndex(key: string -> string, s: People, sightings: seq<Sighting>)
    requires Indexed(key, s)
    ensures Indexed(key, SightAll(s, sightings)) && OwnersKept(s, SightAll(s, sightings))
  {
    if sightings != [] {
      var init, last := sightings[..|sightings| - 1], sightings[|sightings| - 1];
      SightAllKeepsIndex(key, s, init);
      SightKeepsIndex(key, SightAll(s, init), last.id, last.at);
    }
  }

  /** Validate and merge; None is the error on a bad id or time, before anything is written. */
  method Merge(sightings: seq<Sighting>) returns (rows: Option<seq<Sighting>>)
    ensures rows.Some? <==> forall x :: x in sightings ==> x.id > 0 && Timestamp(x.at)
    ensures rows.Some? ==> exists latest :: Merged(sightings, latest) && RowsOf(latest, rows.value)
  {
    var latest: map<int, real> := map[];
    var ids: seq<int> := [];
    var i := 0;
    while i < |sightings|
      invariant 0 <= i <= |sightings|
      invariant forall x :: x in sightings[..i] ==> x.id > 0 && Timestamp(x.at)
      invariant Merged(sightings[..i], latest) && (forall id :: id in ids <==> id in latest)
    {
      var x := sightings[i];
      assert x in sightings;
      if x.id <= 0 || !Timestamp(x.at) {
        return None;
      }
      assert sightings[..i + 1] == sightings[..i] + [x];
      if x.id !in latest {
        ids := ids + [x.id];
      }
      latest := latest[x.id := MaxReal(if x.id in latest then latest[x.id] else 0.0, x.at)];
      i := i + 1;
    }
    assert sightings[..i] == sightings;
    var r := seq(|ids|, n requires 0 <= n < |ids| => Sighting(ids[n], if ids[n] in latest then latest[ids[n]] else 0.0));
    forall x: Sighting | x.id in latest && latest[x.id] == x.at ensures x in r {
      var n :| 0 <= n < |ids| && ids[n] == x.id;
      assert r[n] == x;
    }
    rows := Some(r);
  }
}
