/** Ordered classification by organization standings (app/esi/organization_relations.py). */
module RelationViews {
  import opened Common

  datatype Target = Target(alliance: bool, id: int)

  type Entries = map<Target, real>

  datatype RelationSource = RelationSource(
    alliance: bool, entityId: int, revision: nat, successfulAt: Option<real>,
    expiresAt: real, retryAt: real, failures: nat, authorized: bool, entries: Entries)

  /** A complete authorized snapshot, at most an hour old and not past its own deadline. */
  predicate Usable(s: RelationSource, now: real) {
    s.authorized && s.successfulAt.Some? && s.successfulAt.value <= now < s.successfulAt.value + 3600.0 && now < s.expiresAt
  }

  /** A profile field that is absent, a number, or something else. */
  datatype Ref = Missing | Number(id: int) | Garbled

  datatype Mark = Unmarked | Pending | Decided(kind: MatchKind, id: int, standing: real)

  datatype MatchKind = ByCorporation | ByAlliance | Neutral

  /** `mark` stands for the standing fields, `rest` for everything annotation leaves alone. */
  datatype Profile = Profile(corporation: Ref, alliance: Ref, distrusted: bool, mark: Mark, rest: string)

  datatype View = View(
    context: string, corporation: Option<int>, alliance: Option<int>, ownUsable: bool,
    sources: seq<RelationSource>, usable: seq<bool>)

  predicate Paired(v: View) { |v.sources| == |v.usable| }

  // ---------------------------------------------------------- specification

  datatype Found = Blocked | Hit(standing: real) | Miss

  /** Sources in priority order; an unknown one stops the search. */
  function Look(sources: seq<RelationSource>, usable: seq<bool>, t: Target, i: nat): Found
    requires |sources| == |usable| && i <= |sources|
    decreases |sources| - i
  {
    if i == |sources| then Miss
    else if !usable[i] then Blocked
    else if t in sources[i].entries then Hit(sources[i].entries[t])
    else Look(sources, usable, t, i + 1)
  }

  function Classify(v: View, corporation: int, alliance: Option<int>): Mark
    requires Paired(v)
  {
    if v.corporation == Some(corporation) then Decided(ByCorporation, corporation, 10.0)
    else if alliance.Some? && v.alliance == alliance then Decided(ByAlliance, alliance.value, 10.0)
    else
      match Look(v.sources, v.usable, Target(false, corporation), 0)
      case Blocked => Pending
      case Hit(standing) => Decided(ByCorporation, corporation, standing)
      case Miss =>
        if alliance.None? then Decided(Neutral, corporation, 0.0)
        else
          match Look(v.sources, v.usable, Target(true, alliance.value), 0)
          case Blocked => Pending
          case Hit(standing) => Decided(ByAlliance, alliance.value, standing)
          case Miss => Decided(Neutral, corporation, 0.0)
  }

  function Judge(v: View, p: Profile): Mark
    requires Paired(v)
  {
    if !v.ownUsable || p.distrusted then Pending
    else if !p.corporation.Number? || p.corporation.id <= 0 then Pending
    else if p.alliance.Garbled? || (p.alliance.Number? && p.alliance.id <= 0) then Pending
    else Classify(v, p.corporation.id, if p.alliance.Number? then Some(p.alliance.id) else None)
  }

  function Annotated(v: View, p: Profile): Profile
    requires Paired(v)
  {
    p.(mark := Judge(v, p))
  }

  // ------------------------------------------------------------- the method

  method Search(sources: seq<RelationSource>, usable: seq<bool>, t: Target) returns (found: Found)
    requires |sources| == |usable|
    ensures found == Look(sources, usable, t, 0)
  {
    var i := 0;
    while i < |sources|
      invariant 0 <= i <= |sources|
      invariant Look(sources, usable, t, 0) == Look(sources, usable, t, i)
    {
      if !usable[i] {
        return Blocked;
      }
      if t in sources[i].entries {
        return Hit(sources[i].entries[t]);
      }
      i := i + 1;
    }
    found := Miss;
  }

  /** Source n is the first to list the target, and it and all before it are usable. */
  ghost predicate ListedFirst(v: View, t: Target, n: nat)
    requires Paired(v)
  {
    n < |v.sources| && v.usable[n] && t in v.sources[n].entries
    && forall m :: 0 <= m < n ==> v.usable[m] && t !in v.sources[m].entries
  }

  /** Every source is usable and none lists the target. */
  ghost predicate ListedNowhere(v: View, t: Target)
    requires Paired(v)
  {
    forall n :: 0 <= n < |v.sources| ==> v.usable[n] && t !in v.sources[n].entries
  }

  /** An unusable source comes before any usable one that lists the target. */
  ghost predicate Obscured(v: View, t: Target)
    requires Paired(v)
  {
    exists n :: 0 <= n < |v.sources| && !v.usable[n] && forall m :: 0 <= m < n ==> v.usable[m] && t !in v.sources[m].entries
  }

  /** What a trusted, well-formed profile of a foreign organization is told. */
  ghost predicate ForeignMark(v: View, corporation: int, alliance: Option<int>, mark: Mark)
    requires Paired(v)
  {
    var c := Target(false, corporation);
    && (forall n: nat :: ListedFirst(v, c, n) ==> mark == Decided(ByCorporation, corporation, v.sources[n].entries[c]))
    && (Obscured(v, c) ==> mark == Pending)
    && (ListedNowhere(v, c) && alliance.None? ==> mark == Decided(Neutral, corporation, 0.0))
    && (ListedNowhere(v, c) && alliance.Some? ==>
          var a := Target(true, alliance.value);
          && (forall n: nat :: ListedFirst(v, a, n) ==> mark == Decided(ByAlliance, alliance.value, v.sources[n].entries[a]))
          && (ListedNowhere(v, a) ==> mark == Decided(Neutral, corporation, 0.0)))
    && (mark == Pending <==> Obscured(v, c))
    && (mark.Decided? && mark.kind == Neutral <==>
          ListedNowhere(v, c) && (alliance.Some? ==> ListedNowhere(v, Target(true, alliance.value))))
  }

  /** The standing a profile gets, over the view and the profile alone. */
  ghost predicate Marked(v: View, p: Profile, mark: Mark)
    requires Paired(v)
  {
    if !v.ownUsable || p.distrusted || !p.corporation.Number? || p.corporation.id <= 0
       || p.alliance.Garbled? || (p.alliance.Number? && p.alliance.id <= 0)
    then mark == Pending
    else if v.corporation == Some(p.corporation.id) then mark == Decided(ByCorporation, p.corporation.id, 10.0)
    else if p.alliance.Number? && v.alliance == Some(p.alliance.id) then mark == Decided(ByAlliance, p.alliance.id, 10.0)
    else ForeignMark(v, p.corporation.id, if p.alliance.Number? then Some(p.alliance.id) else None, mark)
  }

  /** A lookup ends at the first listing, at an unusable source before it, or nowhere: exactly one of them. */
  ghost predicate LookTells(v: View, t: Target, found: Found)
    requires Paired(v)
  {
    match found
    case Blocked => Obscured(v, t) && !ListedNowhere(v, t) && forall n: nat :: !ListedFirst(v, t, n)
    case Hit(standing) =>
      && (exists n: nat :: ListedFirst(v, t, n)) && !Obscured(v, t) && !ListedNowhere(v, t)
      && forall n: nat :: ListedFirst(v, t, n) ==> v.sources[n].entries[t] == standing
    case Miss => ListedNowhere(v, t) && !Obscured(v, t) && forall n: nat :: !ListedFirst(v, t, n)
  }

  lemma OneFirstListing(v: View, t: Target, i: nat)
    requires Paired(v) && ListedFirst(v, t, i)
    ensures forall n: nat :: ListedFirst(v, t, n) ==> n == i
    ensures !Obscured(v, t) && !ListedNowhere(v, t)
  {
  }

  lemma {:induction false} LookMeans(v: View, t: Target, i: nat)
    requires Paired(v) && i <= |v.sources|
    requires forall m :: 0 <= m < i ==> v.usable[m] && t !in v.sources[m].entries
    ensures LookTells(v, t, Look(v.sources, v.usable, t, i))
    decreases |v.sources| - i
  {
    if i < |v.sources| {
      if v.usable[i] && t !in v.sources[i].entries {
        LookMeans(v, t, i + 1);
      } else if v.usable[i] {
        assert ListedFirst(v, t, i);
        OneFirstListing(v, t, i);
      }
    }
  }

  /** The judgement, told without the lookup. */
  lemma JudgeMeans(v: View, p: Profile)
    requires Paired(v)
    ensures Marked(v, p, Judge(v, p))
  {
    if p.corporation.Number? {
      LookMeans(v, Target(false, p.corporation.id), 0);
    }
    if p.alliance.Number? {
      LookMeans(v, Target(true, p.alliance.id), 0);
    }
  }

  /** annotate: strip old standings, then decide or stay pending. */
  method Annotate(v: View, p: Profile) returns (r: Profile)
    requires Paired(v)
    ensures r == Annotated(v, p)
    ensures r == p.(mark := r.mark) && Marked(v, p, r.mark)
  {
    JudgeMeans(v, p);
    r := p.(mark := Pending);
    if !v.ownUsable || p.distrusted || !p.corporation.Number? || p.corporation.id <= 0 {
      return;
    }
    if p.alliance.Garbled? || (p.alliance.Number? && p.alliance.id <= 0) {
      return;
    }
    var corporation := p.corporation.id;
    if v.corporation == Some(corporation) {
      return p.(mark := Decided(ByCorporation, corporation, 10.0));
    }
    if p.alliance.Number? && v.alliance == Some(p.alliance.id) {
      return p.(mark := Decided(ByAlliance, p.alliance.id, 10.0));
    }
    var targets := [Target(false, corporation)] + if p.alliance.Number? then [Target(true, p.alliance.id)] else [];
    var i := 0;
    while i < |targets|
      invariant 0 <= i <= |targets|
      invariant r == p.(mark := Pending)
      invariant forall n :: 0 <= n < i ==> Look(v.sources, v.usable, targets[n], 0) == Miss
    {
      var found := Search(v.sources, v.usable, targets[i]);
      assert targets[0] == Target(false, corporation) && (i == 1 ==> targets[1] == Target(true, p.alliance.id));
      if found.Blocked? {
        return;
      }
      if found.Hit? {
        return p.(mark := Decided(if targets[i].alliance then ByAlliance else ByCorporation, targets[i].id, found.standing));
      }
      i := i + 1;
    }
    assert targets[0] == Target(false, corporation);
    assert p.alliance.Number? ==> targets[1] == Target(true, p.alliance.id);
    r := p.(mark := Decided(Neutral, corporation, 0.0));
  }

  // --------------------------------------------------------------- theorems

  /** w knows at least what v knows, about the same sources. */
  ghost predicate MoreUsable(v: View, w: View) {
    && Paired(v) && Paired(w)
    && v.corporation == w.corporation && v.alliance == w.alliance
    && v.sources == w.sources
    && (v.ownUsable ==> w.ownUsable)
    && (forall i :: 0 <= i < |v.usable| && v.usable[i] ==> w.usable[i])
  }

  lemma {:induction false} LookKeepsAnswers(sources: seq<RelationSource>, a: seq<bool>, b: seq<bool>, t: Target, i: nat)
    requires |sources| == |a| == |b| && i <= |sources|
    requires forall n :: 0 <= n < |a| && a[n] ==> b[n]
    ensures !Look(sources, a, t, i).Blocked? ==> Look(sources, b, t, i) == Look(sources, a, t, i)
    decreases |sources| - i
  {
    if i < |sources| && a[i] && t !in sources[i].entries {
      LookKeepsAnswers(sources, a, b, t, i + 1);
    }
  }

  /**
    More usable sources never change a decision, so losing sources can only turn a decision into
    pending, never into a different standing.
   */
  lemma LosingSourcesOnlyUndecides(v: View, w: View, p: Profile)
    requires MoreUsable(v, w)
    ensures Annotated(v, p).mark.Decided? ==> Annotated(w, p) == Annotated(v, p)
    ensures Annotated(v, p).mark == Annotated(w, p).mark || Annotated(v, p).mark == Pending
  {
    if p.corporation.Number? {
      LookKeepsAnswers(v.sources, v.usable, w.usable, Target(false, p.corporation.id), 0);
    }
    if p.alliance.Number? {
      LookKeepsAnswers(v.sources, v.usable, w.usable, Target(true, p.alliance.id), 0);
    }
  }

  /** The views agree wherever annotation is allowed to look: usable sources have the same entries. */
  ghost predicate SameKnowledge(v: View, w: View) {
    && Paired(v) && Paired(w)
    && v.corporation == w.corporation && v.alliance == w.alliance && v.ownUsable == w.ownUsable
    && v.usable == w.usable
    && (forall i :: 0 <= i < |v.usable| && v.usable[i] ==> v.sources[i].entries == w.sources[i].entries)
  }

  lemma {:induction false} LookSeesOnlyUsable(v: View, w: View, t: Target, i: nat)
    requires SameKnowledge(v, w) && i <= |v.sources|
    ensures Look(v.sources, v.usable, t, i) == Look(w.sources, w.usable, t, i)
    decreases |v.sources| - i
  {
    if i < |v.sources| {
      LookSeesOnlyUsable(v, w, t, i + 1);
    }
  }

  /** Annotation depends on no entry of an unusable source, nor on any other source metadata. */
  lemma OnlyUsableEntriesMatter(v: View, w: View, p: Profile)
    requires SameKnowledge(v, w)
    ensures Annotated(v, p) == Annotated(w, p)
  {
    if p.corporation.Number? {
      LookSeesOnlyUsable(v, w, Target(false, p.corporation.id), 0);
    }
    if p.alliance.Number? {
      LookSeesOnlyUsable(v, w, Target(true, p.alliance.id), 0);
    }
  }

  /** Annotating again changes nothing, and no earlier standing leaks through. */
  lemma AnnotationForgetsOldStanding(v: View, p: Profile, old1: Mark)
    requires Paired(v)
    ensures Annotated(v, Annotated(v, p)) == Annotated(v, p)
    ensures Annotated(v, p.(mark := old1)) == Annotated(v, p)
  {
  }

  /** A standing taken from a source is that of the first source listing the target, all before it being known. */
  lemma {:induction false} HitIsFirstKnown(sources: seq<RelationSource>, usable: seq<bool>, t: Target, i: nat, standing: real)
    requires |sources| == |usable| && i <= |sources|
    ensures Look(sources, usable, t, i) == Hit(standing) <==>
            exists n :: i <= n < |sources| && usable[n] && t in sources[n].entries && sources[n].entries[t] == standing
                        && forall m :: i <= m < n ==> usable[m] && t !in sources[m].entries
    decreases |sources| - i
  {
    if i < |sources| {
      HitIsFirstKnown(sources, usable, t, i + 1, standing);
      if usable[i] && t !in sources[i].entries {
        if n :| i + 1 <= n < |sources| && usable[n] && t in sources[n].entries && sources[n].entries[t] == standing
                && forall m :: i + 1 <= m < n ==> usable[m] && t !in sources[m].entries {
          assert forall m :: i <= m < n ==> usable[m] && t !in sources[m].entries;
        }
      }
    }
  }
}
