/** Which rows the chosen detectors contribute (authoritative_items in app/server/source_authority.py). */
module AuthoritativeItems {
  import opened Common
  import opened SourceAuthority
  import opened Takeover
  import opened CaptureState

  /** Some detector reports presence in this system. */
  predicate Known(rows: seq<Row>, system: string) {
    exists i :: 0 <= i < |rows| && rows[i].info.detector && rows[i].info.presenceOnly && rows[i].info.system == system
  }

  predicate Selected(rows: seq<Row>, i: nat)
    requires i < |rows|
  {
    var r := rows[i].info;
    var p := PrimaryOf(rows, r.system);
    && !r.queryOnly
    && (r.detector && Known(rows, r.system) ==>
          p.Some? && rows[p.value].info.active && SourceIdentity(rows[i]) == SourceIdentity(rows[p.value]))
  }

  method Authoritative(rows: seq<Row>) returns (selected: seq<nat>)
    ensures Ascending(selected)
    ensures forall i: nat :: i in selected <==> i < |rows| && Selected(rows, i)
  {
    selected := [];
    var i := 0;
    while i < |rows|
      invariant 0 <= i <= |rows| && Ascending(selected)
      invariant forall x: nat :: x in selected <==> x < i && Selected(rows, x)
      invariant forall n :: 0 <= n < |selected| ==> selected[n] < i
    {
      var r := rows[i].info;
      if !r.queryOnly {
        var primary := PrimaryOf(rows, r.system);
        if !r.detector || !Known(rows, r.system) {
          selected := selected + [i];
        } else if primary.Some? && rows[primary.value].info.active
                  && SourceIdentity(rows[i]) == SourceIdentity(rows[primary.value]) {
          selected := selected + [i];
        }
      }
      i := i + 1;
    }
  }

  /** Query-only rows never represent a system; manual rows, and detectors of systems nobody monitors, always do. */
  lemma OthersSpeakFreely(rows: seq<Row>, i: nat)
    requires i < |rows|
    ensures rows[i].info.queryOnly ==> !Selected(rows, i)
    ensures !rows[i].info.queryOnly && !rows[i].info.detector ==> Selected(rows, i)
    ensures !rows[i].info.queryOnly
            && (forall j :: 0 <= j < |rows| && rows[j].info.detector && rows[j].info.presenceOnly ==> rows[j].info.system != rows[i].info.system)
            ==> Selected(rows, i)
  {
  }

  /** A resident is known to its system, so its detector rows are authoritative only through a primary. */
  lemma ResidentIsKnown(rows: seq<Row>, i: nat)
    requires i < |rows| && Resident(rows[i])
    ensures Known(rows, rows[i].info.system)
  {
  }

  /** In a monitored system at most one detector speaks, and only as an active resident of it. */
  lemma OneDetectorSpeaks(rows: seq<Row>, i: nat, j: nat)
    requires i < |rows| && j < |rows| && rows[i].info.system == rows[j].info.system
    requires rows[i].info.detector && rows[j].info.detector && Known(rows, rows[i].info.system)
    requires Selected(rows, i) && Selected(rows, j)
    ensures SourceIdentity(rows[i]) == SourceIdentity(rows[j])
    ensures exists p :: 0 <= p < |rows| && Resident(rows[p]) && rows[p].info.active
                        && rows[p].info.system == rows[i].info.system && SourceIdentity(rows[p]) == SourceIdentity(rows[i])
  {
    var p := PrimaryOf(rows, rows[i].info.system).value;
    AllMembers(|rows|);
    PrimaryIsLeast(rows, All(|rows|), rows[i].info.system, p);
  }

  lemma AfterTakeover(rows: seq<Row>, xs: seq<nat>, system: string, chosen: nat, reason: Option<string>)
    requires Whole(rows, xs, system) && chosen in xs && !Superseded(rows, All(|rows|), chosen)
    ensures var out := Displace(rows, xs, system, chosen, reason).rows;
            OnlyRequeued(rows, out) && PrimaryOf(out, system) == Some(chosen)
  {
    DisplaceIsSafe(rows, xs, system, chosen, reason);
    TakeoverElectsChosen(rows, xs, system, chosen, reason);
  }

  /**
    After a takeover by a standby that no window superseded, exactly the chosen detector's rows represent
    the system, provided it sees anything at all.
   */
  lemma TakeoverShowsChosen(rows: seq<Row>, xs: seq<nat>, system: string, chosen: nat, reason: Option<string>, i: nat)
    requires Whole(rows, xs, system) && chosen in xs && !Superseded(rows, All(|rows|), chosen)
    requires i < |rows| && rows[i].info.detector && rows[i].info.system == system && !rows[i].info.queryOnly
    ensures var out := Displace(rows, xs, system, chosen, reason).rows;
            && |out| == |rows|
            && (Selected(out, i) <==> rows[chosen].info.active && SourceIdentity(rows[i]) == SourceIdentity(rows[chosen]))
  {
    AfterTakeover(rows, xs, system, chosen, reason);
    ShownAfter(rows, Displace(rows, xs, system, chosen, reason).rows, system, chosen, i);
  }

  lemma ShownAfter(rows: seq<Row>, out: seq<Row>, system: string, chosen: nat, i: nat)
    requires OnlyRequeued(rows, out) && PrimaryOf(out, system) == Some(chosen) && i < |rows|
    requires chosen < |rows| && Resident(rows[chosen]) && rows[chosen].info.system == system
    requires rows[i].info.detector && rows[i].info.system == system && !rows[i].info.queryOnly
    ensures Selected(out, i) <==> rows[chosen].info.active && SourceIdentity(rows[i]) == SourceIdentity(rows[chosen])
  {
    ShownByPrimary(out, chosen, i);
  }

  lemma ShownByPrimary(rows: seq<Row>, p: nat, i: nat)
    requires p < |rows| && i < |rows| && Resident(rows[p]) && PrimaryOf(rows, rows[p].info.system) == Some(p)
    requires rows[i].info.detector && rows[i].info.system == rows[p].info.system && !rows[i].info.queryOnly
    ensures Selected(rows, i) <==> rows[p].info.active && SourceIdentity(rows[i]) == SourceIdentity(rows[p])
  {
    ResidentIsKnown(rows, p);
  }
}
