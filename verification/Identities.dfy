/**
  Confirmed identities and their fields (app/esi/personnel_archive.py): profiles, the permanent
  name index, and last-writer-wins affiliation and organization rows.

  `key` is the case folding of an already stripped display name; nothing is assumed about it.
 */
module Identities {
  import opened Common
  import opened PersonnelPolicy
  import opened NewestCell

  datatype Affiliation = Affiliation(corporation: int, alliance: Option<int>, faction: Option<int>)

  datatype Profile = Profile(
    name: string, checked: real,
    affiliation: Option<Affiliation>, fetched: Option<real>, expires: Option<real>,
    firstSeen: real, lastSeen: real, revision: nat)

  datatype NameRow = NameRow(owner: int, verified: real, active: bool)

  datatype People = People(profiles: map<int, Profile>, names: map<string, NameRow>)

  datatype IdentityUpdate = IdentityUpdate(id: int, name: string, fetched: real, seen: real)

  datatype AffiliationUpdate = AffiliationUpdate(id: int, payload: Affiliation, fetched: real, expires: Option<real>)

  /** Raised is a ValueError or NameConflict: the surrounding transaction rolls back. */
  datatype Outcome = Written | Ignored | Raised

  // ------------------------------------------------------------- identities

  function Observe(p: Profile, seen: real): Profile {
    p.(firstSeen := if p.firstSeen > seen then seen else p.firstSeen,
       lastSeen := if p.lastSeen < seen then seen else p.lastSeen)
  }

  predicate Outdated(current: Profile, u: IdentityUpdate) {
    current.checked > u.fetched || (current.checked == u.fetched && current.name != u.name)
  }

  function Current(s: People, u: IdentityUpdate): Profile {
    if u.id in s.profiles then s.profiles[u.id]
    else Profile(u.name, u.fetched, None, None, None, u.seen, u.seen, 1)
  }

  function Activate(names: map<string, NameRow>, k: string, id: int, fetched: real): map<string, NameRow> {
    map n | n in names.Keys + {k} ::
      if n == k then NameRow(id, fetched, true)
      else if names[n].owner == id then names[n].(active := false)
      else names[n]
  }

  function SaveIdentity(key: string -> string, s: People, u: IdentityUpdate): (People, Outcome) {
    if u.id <= 0 || u.name == "" || !Timestamp(u.fetched) || !Timestamp(u.seen) then (s, Raised)
    else
      var current := Current(s, u);
      var observed := Observe(current, u.seen);
      if Outdated(current, u) then (s.(profiles := s.profiles[u.id := observed]), Ignored)
      else if key(u.name) in s.names && s.names[key(u.name)].owner != u.id then (s, Raised)
      else
        (People(
           s.profiles[u.id := observed.(
             name := u.name, checked := u.fetched,
             revision := observed.revision + if current.name != u.name then 1 else 0)],
           Activate(s.names, key(u.name), u.id, u.fetched)),
         Written)
  }

  // ------------------------------------------- what writes mean, row by row

  /** Rows other than this one are as before. */
  ghost predicate OthersKept(s: People, t: People, id: int) {
    && t.profiles.Keys == s.profiles.Keys + {id}
    && (forall i :: i in s.profiles && i != id ==> t.profiles[i] == s.profiles[i])
  }

  /** Observation times widen to the sighting; the affiliation columns stay. */
  ghost predicate Observed(s: People, t: People, u: IdentityUpdate) {
    && u.id in t.profiles
    && var p := t.profiles[u.id];
       if u.id in s.profiles then
         var o := s.profiles[u.id];
         && p.firstSeen == MinReal(o.firstSeen, u.seen) && p.lastSeen == MaxReal(o.lastSeen, u.seen)
         && p.affiliation == o.affiliation && p.fetched == o.fetched && p.expires == o.expires
       else p.firstSeen == p.lastSeen == u.seen && p.affiliation.None? && p.fetched.None? && p.expires.None?
  }

  /** The update is news: nothing stored, or checked earlier, or at the same time under the same name. */
  ghost predicate IdentityNews(s: People, u: IdentityUpdate) {
    u.id in s.profiles ==>
      s.profiles[u.id].checked < u.fetched || (s.profiles[u.id].checked == u.fetched && s.profiles[u.id].name == u.name)
  }

  /** News gives the profile its name, under a key it owns and that is its only active one; old news changes no name. */
  ghost predicate Named(key: string -> string, s: People, t: People, u: IdentityUpdate) {
    && u.id in t.profiles
    && var p, k := t.profiles[u.id], key(u.name);
       if IdentityNews(s, u) then
         && p.name == u.name && p.checked == u.fetched
         && p.revision == (if u.id in s.profiles then s.profiles[u.id].revision + (if s.profiles[u.id].name == u.name then 0 else 1) else 1)
         && t.names.Keys == s.names.Keys + {k} && t.names[k] == NameRow(u.id, u.fetched, true)
         && (forall n :: n in s.names && n != k ==> t.names[n] == (if s.names[n].owner == u.id then s.names[n].(active := false) else s.names[n]))
       else
         t.names == s.names && u.id in s.profiles
         && p.name == s.profiles[u.id].name && p.checked == s.profiles[u.id].checked && p.revision == s.profiles[u.id].revision
  }

  ghost predicate IdentityWrote(key: string -> string, s: People, u: IdentityUpdate, t: People) {
    OthersKept(s, t, u.id) && Observed(s, t, u) && Named(key, s, t, u)
  }

  /** A bad update, or news under a key of another character. */
  ghost predicate IdentityRefused(key: string -> string, s: People, u: IdentityUpdate) {
    || u.id <= 0 || u.name == "" || u.fetched < 0.0 || u.seen < 0.0
    || (IdentityNews(s, u) && key(u.name) in s.names && s.names[key(u.name)].owner != u.id)
  }

  lemma SaveIdentityMeans(key: string -> string, s: People, u: IdentityUpdate)
    ensures var (t, o) := SaveIdentity(key, s, u);
            && (o == Raised <==> IdentityRefused(key, s, u))
            && (o == Raised ==> t == s)
            && (o != Raised ==> IdentityWrote(key, s, u, t) && (o == Written <==> IdentityNews(s, u)))
  {
  }

  /** observe_many: only last_seen moves, and only forward. */
  function Sight(s: People, id: int, seen: real): People {
    if id in s.profiles && s.profiles[id].lastSeen < seen
    then s.(profiles := s.profiles[id := s.profiles[id].(lastSeen := seen)])
    else s
  }

  /** Every profile has its folded name as its one active key; every key has an owning profile. */
  ghost predicate Indexed(key: string -> string, s: People) {
    && (forall id :: id in s.profiles ==>
          && key(s.profiles[id].name) in s.names
          && s.names[key(s.profiles[id].name)].owner == id
          && s.names[key(s.profiles[id].name)].active)
    && (forall k :: k in s.names ==>
          && s.names[k].owner in s.profiles
          && (s.names[k].active ==> key(s.profiles[s.names[k].owner].name) == k))
    && (forall id :: id in s.profiles ==> s.profiles[id].firstSeen <= s.profiles[id].lastSeen)
  }

  /** Keys are only ever added, and keep their first owner. */
  ghost predicate OwnersKept(before: People, after: People) {
    && (forall k :: k in before.names ==> k in after.names && after.names[k].owner == before.names[k].owner)
    && before.profiles.Keys <= after.profiles.Keys
    && (forall id :: id in before.profiles ==> before.profiles[id].revision <= after.profiles[id].revision)
  }

  lemma SaveIdentityKeepsOwners(key: string -> string, s: People, u: IdentityUpdate)
    ensures OwnersKept(s, SaveIdentity(key, s, u).0)
  {
  }

  /** The name rows after a written identity. */
  lemma ActivatedNames(key: string -> string, s: People, u: IdentityUpdate)
    requires Indexed(key, s) && SaveIdentity(key, s, u).1 == Written
    ensures var t := SaveIdentity(key, s, u).0;
            && (forall n :: n in t.names ==>
                  && t.names[n].owner in t.profiles
                  && (t.names[n].active ==> key(t.profiles[t.names[n].owner].name) == n))
  {
    var t := SaveIdentity(key, s, u).0;
    forall n | n in t.names
      ensures t.names[n].owner in t.profiles
      ensures t.names[n].active ==> key(t.profiles[t.names[n].owner].name) == n
    {
      if n != key(u.name) {
        assert n in s.names;
      }
    }
  }

  lemma NamedProfiles(key: string -> string, s: People, u: IdentityUpdate, id: int)
    requires Indexed(key, s) && SaveIdentity(key, s, u).1 == Written && id in SaveIdentity(key, s, u).0.profiles
    ensures var t := SaveIdentity(key, s, u).0;
            && key(t.profiles[id].name) in t.names
            && t.names[key(t.profiles[id].name)].owner == id && t.names[key(t.profiles[id].name)].active
            && t.profiles[id].firstSeen <= t.profiles[id].lastSeen
  {
    if id != u.id {
      assert s.names[key(s.profiles[id].name)].owner == id;
    }
  }

  lemma SaveIdentityKeepsIndex(key: string -> string, s: People, u: IdentityUpdate)
    requires Indexed(key, s)
    ensures Indexed(key, SaveIdentity(key, s, u).0)
    ensures OwnersKept(s, SaveIdentity(key, s, u).0)
  {
    SaveIdentityKeepsOwners(key, s, u);
    var (t, o) := SaveIdentity(key, s, u);
    if o == Written {
      ActivatedNames(key, s, u);
      forall id | id in t.profiles
        ensures key(t.profiles[id].name) in t.names && t.names[key(t.profiles[id].name)].owner == id
        ensures t.names[key(t.profiles[id].name)].active && t.profiles[id].firstSeen <= t.profiles[id].lastSeen
      {
        NamedProfiles(key, s, u, id);
      }
    }
  }

  lemma SightKeepsIndex(key: string -> string, s: People, id: int, seen: real)
    requires Indexed(key, s)
    ensures Indexed(key, Sight(s, id, seen)) && OwnersKept(s, Sight(s, id, seen))
  {
  }

  /** The join of find_names over active name rows. */
  function FindName(s: People, k: string): (r: Option<int>)
    ensures r.Some? ==> k in s.names && s.names[k].active && r.value == s.names[k].owner && r.value in s.profiles
  {
    if k in s.names && s.names[k].active && s.names[k].owner in s.profiles then Some(s.names[k].owner) else None
  }

  /** The name index answers exactly what a scan of the profiles would, and at most one profile fits. */
  lemma FindNameIsScan(key: string -> string, s: People, k: string, id: int)
    requires Indexed(key, s)
    ensures FindName(s, k) == Some(id) <==> id in s.profiles && key(s.profiles[id].name) == k
  {
    if id in s.profiles && key(s.profiles[id].name) == k {
      assert s.names[k].owner == id;
    }
  }

  // ------------------------------------------------ last-writer-wins fields

  function SaveAffiliation(s: People, u: AffiliationUpdate): (People, Outcome) {
    if u.id <= 0 || !ValidPayload(u.payload) || !Timestamp(u.fetched) || (u.expires.Some? && !Timestamp(u.expires.value))
       || u.id !in s.profiles
    then (s, Raised)
    else
      var p := s.profiles[u.id];
      if p.fetched.None? || p.fetched.value < u.fetched then
        (s.(profiles := s.profiles[u.id := p.(
           affiliation := Some(u.payload), fetched := Some(u.fetched), expires := u.expires,
           revision := p.revision + if p.affiliation == Some(u.payload) then 0 else 1)]),
         Written)
      else (s, Ignored)
  }

  predicate ValidPayload(a: Affiliation) {
    && a.corporation > 0
    && (a.alliance.Some? ==> a.alliance.value > 0)
    && (a.faction.Some? ==> a.faction.value > 0)
  }

  ghost predicate AffiliationRefused(s: People, u: AffiliationUpdate) {
    || u.id <= 0 || u.id !in s.profiles || u.fetched < 0.0 || (u.expires.Some? && u.expires.value < 0.0)
    || u.payload.corporation <= 0
    || (u.payload.alliance.Some? && u.payload.alliance.value <= 0) || (u.payload.faction.Some? && u.payload.faction.value <= 0)
  }

  /** Only a strictly newer fetch replaces the columns, and the revision moves with the payload alone. */
  ghost predicate AffiliationWrote(s: People, u: AffiliationUpdate, t: People) {
    && OthersKept(s, t, u.id) && t.names == s.names && u.id in s.profiles
    && var o, p := s.profiles[u.id], t.profiles[u.id];
       var news := o.fetched.None? || o.fetched.value < u.fetched;
       && AffiliationCell(p) == Newer(AffiliationCell(o), AffiliationWrite(u))
       && (news ==> p.affiliation == Some(u.payload) && p.fetched == Some(u.fetched) && p.expires == u.expires)
       && p.name == o.name && p.checked == o.checked && p.firstSeen == o.firstSeen && p.lastSeen == o.lastSeen
       && p.revision == o.revision + (if news && o.affiliation != Some(u.payload) then 1 else 0)
       && (!news ==> p == o)
  }

  lemma SaveAffiliationMeans(s: People, u: AffiliationUpdate)
    ensures var (t, o) := SaveAffiliation(s, u);
            && (o == Raised <==> AffiliationRefused(s, u))
            && (o == Raised ==> t == s)
            && (o != Raised ==> AffiliationWrote(s, u, t))
  {
  }

  lemma SaveAffiliationKeepsIndex(key: string -> string, s: People, u: AffiliationUpdate)
    requires Indexed(key, s)
    ensures Indexed(key, SaveAffiliation(s, u).0) && OwnersKept(s, SaveAffiliation(s, u).0)
  {
  }

  /** The affiliation columns of a profile as one timestamped cell. */
  function AffiliationCell(p: Profile): Option<Stamped<(Option<Affiliation>, Option<real>)>> {
    if p.fetched.None? then None else Some(Stamped(p.fetched.value, (p.affiliation, p.expires)))
  }

  function AffiliationWrite(u: AffiliationUpdate): Stamped<(Option<Affiliation>, Option<real>)> {
    Stamped(u.fetched, (Some(u.payload), u.expires))
  }

  function SaveAffiliations(s: People, us: seq<AffiliationUpdate>): People {
    if us == [] then s else SaveAffiliation(SaveAffiliations(s, us[..|us| - 1]), us[|us| - 1]).0
  }

  function AffiliationWrites(us: seq<AffiliationUpdate>): seq<Stamped<(Option<Affiliation>, Option<real>)>> {
    seq(|us|, i requires 0 <= i < |us| => AffiliationWrite(us[i]))
  }

  predicate AcceptedFor(u: AffiliationUpdate, id: int) {
    u.id == id && ValidPayload(u.payload) && Timestamp(u.fetched) && (u.expires.Some? ==> Timestamp(u.expires.value))
  }

  lemma SaveAffiliationWritesCell(s: People, u: AffiliationUpdate, id: int)
    requires id > 0 && id in s.profiles && AcceptedFor(u, id)
    ensures id in SaveAffiliation(s, u).0.profiles
    ensures AffiliationCell(SaveAffiliation(s, u).0.profiles[id]) == Newer(AffiliationCell(s.profiles[id]), AffiliationWrite(u))
  {
  }

  lemma AffiliationWritesInit(us: seq<AffiliationUpdate>)
    requires us != []
    ensures var ws := AffiliationWrites(us);
            ws != [] && ws[|ws| - 1] == AffiliationWrite(us[|us| - 1]) && ws[..|ws| - 1] == AffiliationWrites(us[..|us| - 1])
  {
  }

  /** A run of affiliation updates of one confirmed character refines the timestamped cell. */
  lemma {:induction false} SaveAffiliationsRefinesCell(s: People, us: seq<AffiliationUpdate>, id: int)
    requires id > 0 && id in s.profiles
    requires forall u :: u in us ==> AcceptedFor(u, id)
    ensures id in SaveAffiliations(s, us).profiles
    ensures AffiliationCell(SaveAffiliations(s, us).profiles[id])
            == NewerAll(AffiliationCell(s.profiles[id]), AffiliationWrites(us))
  {
    if us != [] {
      var init, u := us[..|us| - 1], us[|us| - 1];
      assert u in us && forall x :: x in init ==> x in us;
      SaveAffiliationsRefinesCell(s, init, id);
      AffiliationWritesInit(us);
      SaveAffiliationWritesCell(SaveAffiliations(s, init), u, id);
    }
  }

  /** Late workers cannot undo a change: every arrival order of the same affiliation updates agrees. */
  lemma AffiliationOrderIrrelevant(s: People, us: seq<AffiliationUpdate>, vs: seq<AffiliationUpdate>, id: int)
    requires id > 0 && id in s.profiles
    requires forall u :: u in us ==> AcceptedFor(u, id)
    requires forall u :: u in us <==> u in vs
    requires forall a, b :: a in us && b in us && a.fetched == b.fetched ==> a == b
    ensures id in SaveAffiliations(s, us).profiles && id in SaveAffiliations(s, vs).profiles
    ensures var p, q := SaveAffiliations(s, us).profiles[id], SaveAffiliations(s, vs).profiles[id];
            p.affiliation == q.affiliation && p.fetched == q.fetched && p.expires == q.expires
  {
    forall u | u in vs ensures AcceptedFor(u, id) {
      assert u in us;
    }
    SaveAffiliationsRefinesCell(s, us, id);
    SaveAffiliationsRefinesCell(s, vs, id);
    WritesSameElements(us, vs);
    WritesSameElements(vs, us);
    WritesDistinct(us);
    ArrivalOrderIrrelevant(AffiliationCell(s.profiles[id]), AffiliationWrites(us), AffiliationWrites(vs));
    NewerAllIsNewest(AffiliationCell(s.profiles[id]), AffiliationWrites(us));
    NewerAllIsNewest(AffiliationCell(s.profiles[id]), AffiliationWrites(vs));
  }

  lemma WritesDistinct(us: seq<AffiliationUpdate>)
    requires forall a, b :: a in us && b in us && a.fetched == b.fetched ==> a == b
    ensures forall a, b :: a in AffiliationWrites(us) && b in AffiliationWrites(us) && a.at == b.at ==> a == b
  {
    forall a, b | a in AffiliationWrites(us) && b in AffiliationWrites(us) && a.at == b.at ensures a == b {
      var i :| 0 <= i < |us| && a == AffiliationWrite(us[i]);
      var j :| 0 <= j < |us| && b == AffiliationWrite(us[j]);
      assert us[i] in us && us[j] in us;
    }
  }

  lemma WritesSameElements(us: seq<AffiliationUpdate>, vs: seq<AffiliationUpdate>)
    requires forall u :: u in us ==> u in vs
    ensures forall w :: w in AffiliationWrites(us) ==> w in AffiliationWrites(vs)
  {
    forall w | w in AffiliationWrites(us) ensures w in AffiliationWrites(vs) {
      var i :| 0 <= i < |us| && w == AffiliationWrite(us[i]);
      assert us[i] in vs;
      var j :| 0 <= j < |vs| && vs[j] == us[i];
      assert AffiliationWrites(vs)[j] == w;
    }
  }

  // ---------------------------------------------------------- organizations

  datatype OrganizationKey = OrganizationKey(alliance: bool, id: int)

  datatype OrganizationUpdate = OrganizationUpdate(key: OrganizationKey, name: string, fetched: real)

  type Organizations = map<OrganizationKey, Stamped<string>>

  function SaveOrganization(orgs: Organizations, u: OrganizationUpdate): (Organizations, Outcome) {
    if u.key.id <= 0 || u.name == "" || !Timestamp(u.fetched) then (orgs, Raised)
    else if u.key in orgs && orgs[u.key].at >= u.fetched then (orgs, Ignored)
    else (orgs[u.key := Stamped(u.fetched, u.name)], Written)
  }

  ghost predicate OrganizationRefused(u: OrganizationUpdate) { u.key.id <= 0 || u.name == "" || u.fetched < 0.0 }

  /** The newest name of that organization, and no other row. */
  ghost predicate OrganizationWrote(orgs: Organizations, u: OrganizationUpdate, out: Organizations) {
    && OrganizationCell(out, u.key) == Newer(OrganizationCell(orgs, u.key), Stamped(u.fetched, u.name))
    && (forall k :: k != u.key ==> OrganizationCell(out, k) == OrganizationCell(orgs, k))
  }

  lemma SaveOrganizationMeans(orgs: Organizations, u: OrganizationUpdate)
    ensures var (out, o) := SaveOrganization(orgs, u);
            && (o == Raised <==> OrganizationRefused(u))
            && (o == Raised ==> out == orgs)
            && (o != Raised ==> OrganizationWrote(orgs, u, out))
  {
  }

  function SaveOrganizations(orgs: Organizations, us: seq<OrganizationUpdate>): Organizations {
    if us == [] then orgs else SaveOrganization(SaveOrganizations(orgs, us[..|us| - 1]), us[|us| - 1]).0
  }

  function OrganizationCell(orgs: Organizations, k: OrganizationKey): Option<Stamped<string>> {
    if k in orgs then Some(orgs[k]) else None
  }

  /** The accepted writes of one organization, in arrival order. */
  function OrganizationWrites(us: seq<OrganizationUpdate>, k: OrganizationKey): seq<Stamped<string>> {
    if us == [] then []
    else
      var init, u := OrganizationWrites(us[..|us| - 1], k), us[|us| - 1];
      if u.key == k && k.id > 0 && u.name != "" && Timestamp(u.fetched) then init + [Stamped(u.fetched, u.name)] else init
  }

  lemma {:induction false} OrganizationWritesMembers(us: seq<OrganizationUpdate>, k: OrganizationKey, w: Stamped<string>)
    ensures w in OrganizationWrites(us, k) <==>
            k.id > 0 && w.value != "" && Timestamp(w.at) && OrganizationUpdate(k, w.value, w.at) in us
  {
    if us != [] {
      OrganizationWritesMembers(us[..|us| - 1], k, w);
      assert us == us[..|us| - 1] + [us[|us| - 1]];
    }
  }

  lemma {:induction false} SaveOrganizationsRefinesCell(orgs: Organizations, us: seq<OrganizationUpdate>, k: OrganizationKey)
    ensures OrganizationCell(SaveOrganizations(orgs, us), k)
            == NewerAll(OrganizationCell(orgs, k), OrganizationWrites(us, k))
  {
    if us != [] {
      SaveOrganizationsRefinesCell(orgs, us[..|us| - 1], k);
      var ws := OrganizationWrites(us, k);
      var init := OrganizationWrites(us[..|us| - 1], k);
      if ws != init {
        assert ws[..|ws| - 1] == init;
      }
    }
  }

  /** Organization names converge too, whatever order and however often the same results arrive. */
  lemma OrganizationOrderIrrelevant(orgs: Organizations, us: seq<OrganizationUpdate>, vs: seq<OrganizationUpdate>,
                                    k: OrganizationKey)
    requires forall u :: u in us <==> u in vs
    requires forall a, b :: a in us && b in us && a.key == b.key == k && a.fetched == b.fetched ==> a == b
    ensures OrganizationCell(SaveOrganizations(orgs, us), k) == OrganizationCell(SaveOrganizations(orgs, vs), k)
  {
    SaveOrganizationsRefinesCell(orgs, us, k);
    SaveOrganizationsRefinesCell(orgs, vs, k);
    var ws, xs := OrganizationWrites(us, k), OrganizationWrites(vs, k);
    forall w ensures w in ws <==> w in xs {
      OrganizationWritesMembers(us, k, w);
      OrganizationWritesMembers(vs, k, w);
    }
    forall a, b | a in ws && b in ws && a.at == b.at ensures a == b {
      OrganizationWritesMembers(us, k, a);
      OrganizationWritesMembers(us, k, b);
    }
    ArrivalOrderIrrelevant(OrganizationCell(orgs, k), ws, xs);
  }
}
