/**
  A table on which the takeovers of app/server/capture_state.py promote nobody: the qualified standby is a
  machine row that a departed window of the same machine has superseded.
 */
module SupersededStandby {
  import opened Common
  import opened SourceAuthority
  import opened Takeover
  import opened CaptureState

  const FRAME := Capture(1, 3, "s", "f", Complete)

  function Monitor(client: string, leftReason: string, roster: Roster): Info {
    Info(true, true, false, true, leftReason, "j", "J", None, Some(client), "", "", "", Some(1), Some(FRAME), 100.0, roster)
  }

  /** A primary whose names are missing for 20 s and three frames, and whose reads were cut off three times. */
  const WAITING := Roster(false, [(1, Truncated), (2, Truncated), (3, Truncated)], None, 0.0, Some(80.0), 3, 3)

  /** A standby that reads the picture it shows. */
  const READING := Roster(true, [(3, Complete)], Some("f"), 100.0, None, 0, 0)

  const NOTHING := Roster(false, [], None, 0.0, None, 0, 0)

  /** The primary, the machine m itself, and a window of m that has left. */
  function Table(): (rows: seq<Row>)
    ensures |rows| == 3
  {
    [Row(1, "", Monitor("p", "", WAITING)),
     Row(2, "", Monitor("m", "", READING)),
     Row(3, "", Monitor("m:user-1", "target_removed", NOTHING))]
  }

  lemma ParentOfPlain(client: string)
    requires |client| == 1
    ensures ParentOf(client).None?
  {
    assert !MarkerAt(client, 0);
    assert FirstMarker(client, 0) == FirstMarker(client, 1) == None;
  }

  /** Only the departed window names a parent, and that is m. */
  lemma RetiredInTable(xs: seq<nat>)
    requires Indices(Table(), xs)
    ensures Retired(Table(), xs) == if 2 in xs then {"m"} else {}
  {
    var rows := Table();
    WindowParent();
    ParentOfPlain("p");
    ParentOfPlain("m");
    forall x | x in xs && Evidence(rows[x]) ensures x == 2 && ParentOf(ClientText(rows[x])).value == "m" {
    }
    if 2 in xs {
      assert Evidence(rows[2]);
    }
  }

  /** Exactly the first two rows are residents. */
  lemma ResidentsInTable(xs: seq<nat>)
    requires Whole(Table(), xs, "j")
    ensures forall x: nat :: x in xs <==> x < 2
  {
  }

  lemma PrimaryInTable()
    ensures PrimaryOf(Table(), "j") == Some(0)
  {
    var rows := Table();
    AllMembers(3);
    RetiredInTable(All(3));
    PrimaryIsLeast(rows, All(3), "j", 0);
  }

  lemma StandbyInTable(keep: Row -> bool)
    requires keep(Table()[1])
    ensures Standby(Table(), "j", 0, keep) == Some(1)
  {
    var rows := Table();
    ResidentsInTable(ResidentsOf(rows, "j"));
    assert 1 in ResidentsOf(rows, "j");
  }

  /** The loop does move the old primary behind the standby. */
  lemma LoopMovesPrimary(xs: seq<nat>, reason: Option<string>)
    requires Whole(Table(), xs, "j") && 0 in xs && 1 in xs
    ensures Displace(Table(), xs, "j", 1, reason).displaced != []
  {
    ResidentsInTable(xs);
    RetiredInTable(xs);
    assert Unsuperseded(Table(), xs);
    DisplacesThoseBefore(Table(), xs, "j", 1, reason);
    assert Prec(Table(), 0, 1);
  }

  lemma StandbyIsSuperseded()
    ensures Superseded(Table(), All(3), 1)
  {
    AllMembers(3);
    RetiredInTable(All(3));
  }

  lemma GuardsHold()
    ensures RosterMissing(Table()[0], 100.0) && HasRoster(Table()[1], 100.0) && CanReplace(Table()[1], 100.0)
    ensures Truncations(Table()[0].info.roster.samples) >= 3
  {
    var samples := WAITING.samples;
    assert samples[..2][..1] == samples[..1] && samples[..1][..0] == [];
    assert Truncations(samples[..1]) == 1 && Truncations(samples[..2]) == 2;
  }

  /** Row 0 is primary, row 1 is the chosen standby, the loop would move row 0, and a window retired row 1. */
  ghost predicate Stuck(rows: seq<Row>, keep: Row -> bool, reason: Option<string>) {
    && PrimaryOf(rows, "j") == Some(0) && 1 < |rows| && Standby(rows, "j", 0, keep) == Some(1)
    && Displace(rows, ResidentsOf(rows, "j"), "j", 1, reason).displaced != []
    && Superseded(rows, All(|rows|), 1)
  }

  lemma TableIsStuck(keep: Row -> bool, reason: Option<string>)
    requires keep(Table()[1])
    ensures Stuck(Table(), keep, reason)
  {
    PrimaryInTable();
    StandbyInTable(keep);
    ResidentsInTable(ResidentsOf(Table(), "j"));
    LoopMovesPrimary(ResidentsOf(Table(), "j"), reason);
    StandbyIsSuperseded();
  }

  lemma MissingStaysStuck(rows: seq<Row>, now: real)
    requires Stuck(rows, Keeps(now, true), Some(ROSTER_MISSING)) && RosterMissing(rows[0], now)
    ensures ReconcileMissing(rows, "j", now).displaced != [] && PrimaryOf(ReconcileMissing(rows, "j", now).rows, "j") != Some(1)
  {
    MissingRosterPromotesProven(rows, "j", now, 0, 1);
  }

  lemma TruncatedStaysStuck(rows: seq<Row>, now: real)
    requires Stuck(rows, Keeps(now, false), None) && Truncations(rows[0].info.roster.samples) >= 3
    ensures ReplaceTruncated(rows, "j", now).displaced != [] && PrimaryOf(ReplaceTruncated(rows, "j", now).rows, "j") != Some(1)
  {
    TruncatedYieldsToGood(rows, "j", now, 0, 1);
  }

  /**
    Names are missing, a proven standby is chosen and the loop runs, yet the standby is not primary
    afterwards: the election over the whole table sees the departed window, the loop did not.
   */
  lemma MissingRosterElectsNobodyNew()
    ensures var rows := Table();
            && PrimaryOf(rows, "j") == Some(0) && RosterMissing(rows[0], 100.0)
            && Standby(rows, "j", 0, Keeps(100.0, true)) == Some(1)
            && ReconcileMissing(rows, "j", 100.0).displaced != []
            && PrimaryOf(ReconcileMissing(rows, "j", 100.0).rows, "j") != Some(1)
  {
    GuardsHold();
    TableIsStuck(Keeps(100.0, true), Some(ROSTER_MISSING));
    MissingStaysStuck(Table(), 100.0);
  }

  /** The takeover from a repeatedly truncated primary fails on the same table in the same way. */
  lemma TruncatedElectsNobodyNew()
    ensures var rows := Table();
            && PrimaryOf(rows, "j") == Some(0) && Truncations(rows[0].info.roster.samples) >= 3
            && Standby(rows, "j", 0, Keeps(100.0, false)) == Some(1)
            && ReplaceTruncated(rows, "j", 100.0).displaced != []
            && PrimaryOf(ReplaceTruncated(rows, "j", 100.0).rows, "j") != Some(1)
  {
    GuardsHold();
    TableIsStuck(Keeps(100.0, false), None);
    TruncatedStaysStuck(Table(), 100.0);
  }
}
