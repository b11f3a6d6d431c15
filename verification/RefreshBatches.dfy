/** From upstream answers to the steps of one refresh batch (commit_refresh_batch in app/esi/personnel_batches.py). */
module RefreshBatches {
  import opened Common
  import opened PersonnelPolicy
  import opened RefreshJobs
  import opened Identities
  import opened ArchiveRuns

  /** What upstream says about one entity: a character, its membership, or an organization's name. */
  datatype Row =
    | Character(id: int, name: string)
    | Member(affiliation: Affiliation)
    | Organization(name: string)

  /** A row with its fetch time and expiry; expiry 0 is none. */
  datatype Answer = Answer(row: Row, fetched: real, expires: real)

  /** What the runtime knows when the batch starts. */
  datatype Context = Context(
    profiles: map<int, Profile>, sightings: map<string, real>, activeIds: set<int>, activeNames: set<string>, now: real)

  function LastSeen(key: string -> string, c: Context, id: int, name: string): real {
    MaxReal(if id in c.profiles then c.profiles[id].lastSeen else 0.0,
            if key(name) in c.sightings then c.sightings[key(name)] else 0.0)
  }

  function TierOf(key: string -> string, c: Context, id: int): int
    requires id in c.profiles
  {
    var p := c.profiles[id];
    Tier(c.now, p.lastSeen, id in c.activeIds || key(p.name) in c.activeNames)
  }

  /** When an affiliation is fetched again; one that is already too old goes again in a minute. */
  function AffiliationDue(now: real, fetched: real, expires: real): real {
    if fetched == 0.0 || now - fetched >= AFFILIATION_TTL then now + 60.0
    else MaxReal(now + 60.0, RefreshDue(fetched, expires))
  }

  /** The step of one lease; None where the source raises, on a row of the wrong shape or an unknown character. */
  function StepOf(key: string -> string, c: Context, lease: Lease, answer: Option<Answer>): Option<BatchStep> {
    if answer.None? then Some(Missing(lease, c.now))
    else
      var Answer(row, fetched, expires) := answer.value;
      match lease.key.kind
      case Resolve =>
        if !row.Character? then None
        else Some(Ack(lease, c.now, c.now + 36500.0 * DAY, 2,
                      IdentityResult(IdentityUpdate(row.id, row.name, fetched, LastSeen(key, c, row.id, row.name)))))
      case Identity =>
        if !row.Character? then None
        else Some(Ack(lease, c.now, MaxReal(c.now + 60.0, MaxReal(fetched + NAME_REFRESH_SECONDS, expires)), 2,
                      IdentityResult(IdentityUpdate(row.id, row.name, fetched, LastSeen(key, c, row.id, row.name)))))
      case Affiliation =>
        if !row.Member? || !lease.key.entity.Id? || lease.key.entity.id !in c.profiles then None
        else
          var id := lease.key.entity.id;
          Some(Ack(lease, c.now, AffiliationDue(c.now, fetched, expires), TierOf(key, c, id),
                   AffiliationResult(AffiliationUpdate(id, row.affiliation, fetched,
                                                       if expires == 0.0 then None else Some(expires)))))
      case _ =>
        if !row.Organization? || !lease.key.entity.Id? then None
        else Some(Ack(lease, c.now, c.now + NAME_REFRESH_SECONDS, 2,
                      OrganizationResult(OrganizationUpdate(
                        OrganizationKey(lease.key.kind == Alliance, lease.key.entity.id), row.name, fetched))))
  }

  /** A time no earlier than the stored and the remembered sighting of this character, and one of them if there is any. */
  ghost predicate Seen(key: string -> string, c: Context, id: int, name: string, at: real) {
    && 0.0 <= at
    && (id in c.profiles ==> c.profiles[id].lastSeen <= at) && (key(name) in c.sightings ==> c.sightings[key(name)] <= at)
    && (at == 0.0 || (id in c.profiles && at == c.profiles[id].lastSeen) || (key(name) in c.sightings && at == c.sightings[key(name)]))
  }

  /** A character row becomes that character's name, as fetched. */
  ghost predicate NamesCharacter(key: string -> string, c: Context, answer: Answer, s: BatchStep) {
    && answer.row.Character? && s.Ack? && s.result.IdentityResult? && s.nextPriority == 2
    && var u := s.result.identity;
       u.id == answer.row.id && u.name == answer.row.name && u.fetched == answer.fetched && Seen(key, c, u.id, u.name, u.seen)
  }

  /** A membership row becomes the affiliation of the leased character, as fetched. */
  ghost predicate PlacesCharacter(key: string -> string, c: Context, lease: Lease, answer: Answer, s: BatchStep) {
    && answer.row.Member? && s.Ack? && s.result.AffiliationResult?
    && var u := s.result.affiliation;
       && s.nextDue == AffiliationDue(c.now, answer.fetched, answer.expires)
       && u.id in c.profiles
       && s.nextPriority == Tier(c.now, c.profiles[u.id].lastSeen, u.id in c.activeIds || key(c.profiles[u.id].name) in c.activeNames)
       && lease.key.entity == Id(u.id) && u.payload == answer.row.affiliation && u.fetched == answer.fetched
       && (u.expires.Some? <==> answer.expires != 0.0) && (u.expires.Some? ==> u.expires.value == answer.expires)
  }

  /** A name becomes that of the leased organization, as fetched. */
  ghost predicate NamesOrganization(c: Context, lease: Lease, answer: Answer, s: BatchStep) {
    && answer.row.Organization? && s.Ack? && s.result.OrganizationResult? && s.nextPriority == 2 && s.nextDue == c.now + 90.0 * 86400.0
    && var u := s.result.organization;
       && lease.key.entity == Id(u.key.id) && (u.key.alliance <==> lease.key.kind.Alliance?)
       && u.name == answer.row.name && u.fetched == answer.fetched
  }

  /**
    What becomes of an answer: nothing found fails the lease; otherwise exactly what was fetched is written for
    the leased entity, and a row of the wrong shape or of an unknown character raises.
   */
  lemma StepCarriesAnswer(key: string -> string, c: Context, lease: Lease, answer: Option<Answer>)
    requires (forall i :: i in c.profiles ==> c.profiles[i].lastSeen >= 0.0) && (forall k :: k in c.sightings ==> c.sightings[k] >= 0.0)
    ensures var s := StepOf(key, c, lease, answer);
            && (answer.None? ==> s == Some(Missing(lease, c.now)))
            && (answer.Some? ==>
                  match lease.key.kind
                  case Resolve =>
                    && (s.Some? <==> answer.value.row.Character?)
                    && (s.Some? ==> NamesCharacter(key, c, answer.value, s.value) && s.value.nextDue == c.now + 36500.0 * 86400.0)
                  case Identity =>
                    && (s.Some? <==> answer.value.row.Character?)
                    && (s.Some? ==>
                          && NamesCharacter(key, c, answer.value, s.value)
                          && c.now + 60.0 <= s.value.nextDue && answer.value.fetched + 90.0 * 86400.0 <= s.value.nextDue
                          && answer.value.expires <= s.value.nextDue
                          && (s.value.nextDue == c.now + 60.0 || s.value.nextDue == answer.value.fetched + 90.0 * 86400.0
                              || s.value.nextDue == answer.value.expires))
                  case Affiliation =>
                    && (s.Some? <==> answer.value.row.Member? && lease.key.entity.Id? && lease.key.entity.id in c.profiles)
                    && (s.Some? ==> PlacesCharacter(key, c, lease, answer.value, s.value))
                  case _ =>
                    && (s.Some? <==> answer.value.row.Organization? && lease.key.entity.Id?)
                    && (s.Some? ==> NamesOrganization(c, lease, answer.value, s.value)))
  {
  }

  /** The steps of a whole batch; None once any lease raises. */
  function StepsOf(key: string -> string, c: Context, leases: seq<Lease>, answers: map<Entity, Answer>): Option<seq<BatchStep>> {
    if leases == [] then Some([])
    else
      var init := StepsOf(key, c, leases[..|leases| - 1], answers);
      var last := StepOf(key, c, leases[|leases| - 1], AnswerTo(answers, leases[|leases| - 1]));
      if init.None? || last.None? then None else Some(init.value + [last.value])
  }

  function AnswerTo(answers: map<Entity, Answer>, lease: Lease): Option<Answer> {
    if lease.key.entity in answers then Some(answers[lease.key.entity]) else None
  }

  lemma {:induction false} StepsAreEach(key: string -> string, c: Context, leases: seq<Lease>, answers: map<Entity, Answer>)
    ensures StepsOf(key, c, leases, answers).None? <==>
            exists i :: 0 <= i < |leases| && StepOf(key, c, leases[i], AnswerTo(answers, leases[i])).None?
    ensures StepsOf(key, c, leases, answers).Some? ==>
              && |StepsOf(key, c, leases, answers).value| == |leases|
              && forall i :: 0 <= i < |leases| ==>
                   StepOf(key, c, leases[i], AnswerTo(answers, leases[i])) == Some(StepsOf(key, c, leases, answers).value[i])
  {
    if leases != [] {
      StepsAreEach(key, c, leases[..|leases| - 1], answers);
    }
  }

  /** The schedule a batch asks for is always accepted, and its result always fits the leased entity of its kind. */
  lemma ScheduleIsAccepted(key: string -> string, c: Context, lease: Lease, answer: Option<Answer>)
    requires Timestamp(c.now) && StepOf(key, c, lease, answer).Some? && StepOf(key, c, lease, answer).value.Ack?
    ensures var s := StepOf(key, c, lease, answer).value;
            && s.lease == lease && s.now == c.now
            && c.now + 60.0 <= s.nextDue && 1 <= s.nextPriority <= 5
            && (lease.key.kind in {Kind.Affiliation, Corporation, Alliance} ==> Matches(key, lease.key, s.result))
  {
  }

  /**
    An affiliation never outlives its hour unnoticed: it is due again within an hour of its fetch, or in a
    minute when that is sooner past, and no later than upstream's own expiry.
   */
  lemma AffiliationRefreshedInTime(now: real, fetched: real, expires: real)
    requires 0.0 <= fetched && 0.0 <= expires
    ensures var due := AffiliationDue(now, fetched, expires);
            && now + 60.0 <= due <= MaxReal(now + 60.0, fetched + 3600.0)
            && (expires > 0.0 ==> due <= MaxReal(now + 60.0, expires))
            // And no sooner than that, unless nothing was fetched at all.
            && (fetched == 0.0 ==> due == now + 60.0)
            && (fetched > 0.0 && expires == 0.0 ==> fetched + 3600.0 <= due)
            && (fetched > 0.0 && expires > 0.0 ==> MinReal(fetched + 3600.0, expires) <= due)
  {
  }

  /** The character whose row an acknowledged step changed. */
  function CharacterOf(s: BatchStep): Option<int> {
    if !s.Ack? then None
    else
      match s.result
      case IdentityResult(u) => Some(u.id)
      case AffiliationResult(u) => Some(u.id)
      case _ => None
  }

  /** The organization an acknowledged step named. */
  function OrganizationOf(s: BatchStep): Option<OrganizationKey> {
    if s.Ack? && s.result.OrganizationResult? then Some(s.result.organization.key) else None
  }

  predicate Belongs(p: Profile, k: OrganizationKey) {
    p.affiliation.Some? && (if k.alliance then p.affiliation.value.alliance == Some(k.id) else p.affiliation.value.corporation == k.id)
  }

  /** Step i was acknowledged in time. */
  predicate Completed(steps: seq<BatchStep>, flags: seq<bool>, i: nat)
    requires |steps| == |flags|
  {
    i < |steps| && flags[i] && steps[i].Ack?
  }

  /** Some completed step renamed an organization of this row. */
  predicate Renamed(steps: seq<BatchStep>, flags: seq<bool>, p: Profile)
    requires |steps| == |flags|
  {
    exists i :: 0 <= i < |steps| && Completed(steps, flags, i) && OrganizationOf(steps[i]).Some?
                && Belongs(p, OrganizationOf(steps[i]).value)
  }

  function Characters(steps: seq<BatchStep>, flags: seq<bool>): (ids: seq<int>)
    requires |steps| == |flags|
  {
    if steps == [] then []
    else
      var n := |steps| - 1;
      Characters(steps[..n], flags[..n])
      + if flags[n] && CharacterOf(steps[n]).Some? then [CharacterOf(steps[n]).value] else []
  }

  function Members(steps: seq<BatchStep>, flags: seq<bool>, order: seq<int>, hot: map<int, Profile>): (ids: seq<int>)
    requires |steps| == |flags|
  {
    if order == [] then []
    else
      var n := |order| - 1;
      Members(steps, flags, order[..n], hot) + if order[n] in hot && Renamed(steps, flags, hot[order[n]]) then [order[n]] else []
  }

  /** The characters to publish: those of completed steps, and hot members of renamed organizations. */
  function Touched(steps: seq<BatchStep>, flags: seq<bool>, order: seq<int>, hot: map<int, Profile>): seq<int>
    requires |steps| == |flags|
  {
    Characters(steps, flags) + Members(steps, flags, order, hot)
  }

  lemma {:induction false} CharactersAreThose(steps: seq<BatchStep>, flags: seq<bool>, id: int)
    requires |steps| == |flags|
    ensures id in Characters(steps, flags) <==> exists i :: 0 <= i < |steps| && flags[i] && CharacterOf(steps[i]) == Some(id)
  {
    if steps != [] {
      var n := |steps| - 1;
      CharactersAreThose(steps[..n], flags[..n], id);
      if i :| 0 <= i < |steps| && flags[i] && CharacterOf(steps[i]) == Some(id) {
        assert i < n ==> steps[..n][i] == steps[i] && flags[..n][i] == flags[i];
      }
    }
  }

  lemma {:induction false} MembersAreThose(steps: seq<BatchStep>, flags: seq<bool>, order: seq<int>, hot: map<int, Profile>, id: int)
    requires |steps| == |flags|
    ensures id in Members(steps, flags, order, hot) <==> id in order && id in hot && Renamed(steps, flags, hot[id])
  {
    if order != [] {
      MembersAreThose(steps, flags, order[..|order| - 1], hot, id);
      assert order == order[..|order| - 1] + [order[|order| - 1]];
    }
  }

  /** Step i completed with an affiliation of this character. */
  predicate Affiliates(steps: seq<BatchStep>, flags: seq<bool>, i: nat, id: int)
    requires |steps| == |flags| && i < |steps|
  {
    flags[i] && steps[i].Ack? && steps[i].result.AffiliationResult? && steps[i].result.affiliation.id == id
  }

  /** A character none of whose affiliations completed keeps its deadline. */
  lemma {:induction false} DeadlineKept(upstream: map<int, real>, steps: seq<BatchStep>, flags: seq<bool>, id: int)
    requires |steps| == |flags| && forall i :: 0 <= i < |steps| ==> !Affiliates(steps, flags, i, id)
    ensures id in Deadlines(upstream, steps, flags) <==> id in upstream
    ensures id in upstream ==> Deadlines(upstream, steps, flags)[id] == upstream[id]
  {
    if steps != [] {
      var n := |steps| - 1;
      forall i | 0 <= i < n ensures !Affiliates(steps[..n], flags[..n], i, id) {
        assert !Affiliates(steps, flags, i, id);
      }
      DeadlineKept(upstream, steps[..n], flags[..n], id);
      assert !Affiliates(steps, flags, n, id);
    }
  }

  /** Otherwise it is that of its last completed affiliation, 0 when upstream gave none. */
  lemma {:induction false} DeadlineIsLast(upstream: map<int, real>, steps: seq<BatchStep>, flags: seq<bool>, id: int, i: nat)
    requires |steps| == |flags| && i < |steps| && Affiliates(steps, flags, i, id)
    requires forall j :: i < j < |steps| ==> !Affiliates(steps, flags, j, id)
    ensures id in Deadlines(upstream, steps, flags)
    ensures var expires := steps[i].result.affiliation.expires;
            Deadlines(upstream, steps, flags)[id] == if expires.Some? then expires.value else 0.0
  {
    var n := |steps| - 1;
    if i < n {
      forall j | i < j < n ensures !Affiliates(steps[..n], flags[..n], j, id) {
        assert !Affiliates(steps, flags, j, id);
      }
      DeadlineIsLast(upstream, steps[..n], flags[..n], id, i);
      assert !Affiliates(steps, flags, n, id);
    }
  }

  function Deadlines(upstream: map<int, real>, steps: seq<BatchStep>, flags: seq<bool>): map<int, real>
    requires |steps| == |flags|
  {
    if steps == [] then upstream
    else
      var n := |steps| - 1;
      var before := Deadlines(upstream, steps[..n], flags[..n]);
      if flags[n] && steps[n].Ack? && steps[n].result.AffiliationResult? then
        var u := steps[n].result.affiliation;
        before[u.id := if u.expires.Some? then u.expires.value else 0.0]
      else before
  }
}
