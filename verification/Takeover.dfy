/**
  The requeueing loop shared by both takeovers of app/server/capture_state.py: while the chosen
  standby is not primary among the remaining residents, the primary goes to the back of the queue.
 */
module Takeover {
  import opened Common
  import opened SourceAuthority

  function MaxOrder(rows: seq<Row>): nat {
    if rows == [] then 0 else MaxInt(MaxOrder(rows[..|rows| - 1]), rows[|rows| - 1].joinOrder)
  }

  lemma {:induction false} MaxOrderBounds(rows: seq<Row>, i: nat)
    requires i < |rows|
    ensures rows[i].joinOrder <= MaxOrder(rows)
  {
    if i < |rows| - 1 {
      MaxOrderBounds(rows[..|rows| - 1], i);
    }
  }

  function NextJoinOrder(rows: seq<Row>): nat { 1 + MaxOrder(rows) }

  /** list.remove of one row. */
  function Drop(xs: seq<nat>, d: nat): (r: seq<nat>)
    ensures d in xs ==> |r| == |xs| - 1
    ensures forall x :: x in r ==> x in xs
  {
    if xs == [] then []
    else if xs[0] == d then xs[1..]
    else
      var rest := Drop(xs[1..], d);
      assert forall x :: x in xs <==> x == xs[0] || x in xs[1..];
      [xs[0]] + rest
  }

  lemma {:induction false} DropKeepsRest(xs: seq<nat>, d: nat)
    requires Ascending(xs)
    ensures Ascending(Drop(xs, d))
    ensures forall x :: x in Drop(xs, d) <==> x in xs && x != d
  {
    if xs != [] {
      DropKeepsRest(xs[1..], d);
      assert xs == [xs[0]] + xs[1..];
      assert forall x :: x in xs[1..] ==> xs[0] < x;
      if xs[0] != d {
        AscendingPrepend(xs[0], Drop(xs[1..], d));
      }
    }
  }

  lemma AscendingPrepend(x: nat, xs: seq<nat>)
    requires Ascending(xs) && forall y :: y in xs ==> x < y
    ensures Ascending([x] + xs)
  {
    forall i | 0 <= i < |xs| ensures x < xs[i] {
      assert xs[i] in xs;
    }
  }

  ghost predicate Residents(rows: seq<Row>, xs: seq<nat>, system: string) {
    Indices(rows, xs) && Ascending(xs) && forall x :: x in xs ==> Resident(rows[x]) && rows[x].info.system == system
  }

  /** Only join orders and reasons are written. */
  ghost predicate OnlyRequeued(rows: seq<Row>, out: seq<Row>) {
    |rows| == |out| && forall i :: 0 <= i < |rows| ==> out[i].info == rows[i].info
  }

  function Requeue(rows: seq<Row>, d: nat, reason: Option<string>): seq<Row>
    requires d < |rows|
  {
    rows[d := rows[d].(joinOrder := NextJoinOrder(rows),
                       changeReason := if reason.Some? then reason.value else rows[d].changeReason)]
  }

  lemma RequeuedResidents(rows: seq<Row>, xs: seq<nat>, system: string, d: nat, reason: Option<string>)
    requires Residents(rows, xs, system) && d in xs
    ensures Residents(Requeue(rows, d, reason), Drop(xs, d), system)
  {
    DropKeepsRest(xs, d);
  }

  /** The table after the loop and the rows displaced, in order. */
  datatype Moved = Moved(rows: seq<Row>, displaced: seq<nat>)

  /** The loop. It ends because a non-empty resident set has a primary. */
  function Displace(rows: seq<Row>, xs: seq<nat>, system: string, chosen: nat, reason: Option<string>): Moved
    requires Residents(rows, xs, system) && chosen in xs
    decreases |xs|
  {
    ResidentsHavePrimary(rows, xs, system);
    var d := Primary(rows, xs, system).value;
    PrimaryIsLeast(rows, xs, system, d);
    if d == chosen then Moved(rows, [])
    else
      RequeuedResidents(rows, xs, system, d, reason);
      DropKeepsRest(xs, d);
      var m := Displace(Requeue(rows, d, reason), Drop(xs, d), system, chosen, reason);
      Moved(m.rows, [d] + m.displaced)
  }

  /** One turn of the loop. */
  lemma DisplaceStep(rows: seq<Row>, xs: seq<nat>, system: string, chosen: nat, reason: Option<string>) returns (d: nat)
    requires Residents(rows, xs, system) && chosen in xs
    ensures Primary(rows, xs, system) == Some(d) && d in xs
    ensures d == chosen ==> Displace(rows, xs, system, chosen, reason) == Moved(rows, [])
    ensures d != chosen ==>
              && Residents(Requeue(rows, d, reason), Drop(xs, d), system) && chosen in Drop(xs, d) && |Drop(xs, d)| < |xs|
              && (var m := Displace(Requeue(rows, d, reason), Drop(xs, d), system, chosen, reason);
                  Displace(rows, xs, system, chosen, reason) == Moved(m.rows, [d] + m.displaced))
  {
    ResidentsHavePrimary(rows, xs, system);
    d := Primary(rows, xs, system).value;
    PrimaryIsLeast(rows, xs, system, d);
    if d != chosen {
      RequeuedResidents(rows, xs, system, d, reason);
      DropKeepsRest(xs, d);
    }
  }

  /** No resident in xs is a superseded parent. */
  ghost predicate Unsuperseded(rows: seq<Row>, xs: seq<nat>)
    requires Indices(rows, xs)
  {
    forall x :: x in xs ==> !Superseded(rows, xs, x)
  }

  ghost predicate Growing(rows: seq<Row>, displaced: seq<nat>) {
    forall i, j :: 0 <= i < j < |displaced| ==>
      && displaced[i] < |rows| && displaced[j] < |rows|
      && rows[displaced[i]].joinOrder < rows[displaced[j]].joinOrder
  }

  lemma GrowingPrepend(rows: seq<Row>, d: nat, rest: seq<nat>)
    requires d < |rows| && Growing(rows, rest)
    requires forall x :: x in rest ==> x < |rows| && rows[d].joinOrder < rows[x].joinOrder
    ensures Growing(rows, [d] + rest)
  {
    var displaced := [d] + rest;
    forall i, j | 0 <= i < j < |displaced|
      ensures displaced[i] < |rows| && displaced[j] < |rows|
      ensures rows[displaced[i]].joinOrder < rows[displaced[j]].joinOrder
    {
      assert displaced[j] == rest[j - 1] && rest[j - 1] in rest;
      if i > 0 {
        assert displaced[i] == rest[i - 1];
      }
    }
  }

  ghost predicate Safe(rows: seq<Row>, xs: seq<nat>, chosen: nat, m: Moved) {
    && OnlyRequeued(rows, m.rows)
    && chosen !in m.displaced
    && (forall d :: d in m.displaced ==> d in xs && d < |rows| && m.rows[d].joinOrder > MaxOrder(rows))
    && (forall i :: 0 <= i < |rows| && i !in m.displaced ==> m.rows[i] == rows[i])
    && Growing(m.rows, m.displaced)
  }

  lemma SafeStep(rows: seq<Row>, xs: seq<nat>, d: nat, chosen: nat, reason: Option<string>, m: Moved)
    requires Ascending(xs) && Indices(rows, xs) && d in xs && d != chosen
    requires Safe(Requeue(rows, d, reason), Drop(xs, d), chosen, m)
    ensures Safe(rows, xs, chosen, Moved(m.rows, [d] + m.displaced))
  {
    DropKeepsRest(xs, d);
    RequeuedRow(rows, d, reason);
    assert d !in m.displaced;
    GrowingPrepend(m.rows, d, m.displaced);
    SafeElsewhere(rows, d, reason, m);
  }

  lemma RequeuedRow(rows: seq<Row>, d: nat, reason: Option<string>)
    requires d < |rows|
    ensures Requeue(rows, d, reason)[d].joinOrder == MaxOrder(rows) + 1 <= MaxOrder(Requeue(rows, d, reason))
    ensures OnlyRequeued(rows, Requeue(rows, d, reason))
  {
    MaxOrderBounds(Requeue(rows, d, reason), d);
  }

  lemma SafeElsewhere(rows: seq<Row>, d: nat, reason: Option<string>, m: Moved)
    requires d < |rows| && |m.rows| == |rows|
    requires forall i :: 0 <= i < |rows| && i !in m.displaced ==> m.rows[i] == Requeue(rows, d, reason)[i]
    ensures forall i :: 0 <= i < |rows| && i !in [d] + m.displaced ==> m.rows[i] == rows[i]
  {
    forall i | 0 <= i < |rows| && i !in [d] + m.displaced ensures m.rows[i] == rows[i] {
      assert i !in m.displaced && i != d;
    }
  }

  /**
    Loop safety, with or without superseded parents: the chosen row is never displaced, only residents
    are, each once and behind every order given before, and nothing else is written.
   */
  lemma {:induction false} DisplaceIsSafe(rows: seq<Row>, xs: seq<nat>, system: string, chosen: nat, reason: Option<string>)
    requires Residents(rows, xs, system) && chosen in xs
    ensures Safe(rows, xs, chosen, Displace(rows, xs, system, chosen, reason))
    decreases |xs|
  {
    var d := DisplaceStep(rows, xs, system, chosen, reason);
    if d != chosen {
      DisplaceIsSafe(Requeue(rows, d, reason), Drop(xs, d), system, chosen, reason);
      SafeStep(rows, xs, d, chosen, reason,
               Displace(Requeue(rows, d, reason), Drop(xs, d), system, chosen, reason));
    }
  }

  /** After a displacement the rows left in xs are ordered as before. */
  lemma RequeueKeepsPrec(rows: seq<Row>, d: nat, reason: Option<string>, i: nat, j: nat)
    requires d < |rows| && i < |rows| && j < |rows| && i != d && j != d
    ensures Prec(Requeue(rows, d, reason), i, j) <==> Prec(rows, i, j)
  {
  }

  lemma RequeueKeepsRetired(rows: seq<Row>, xs: seq<nat>, d: nat, reason: Option<string>)
    requires Indices(rows, xs) && Ascending(xs) && d in xs && Unsuperseded(rows, xs)
    ensures Indices(Requeue(rows, d, reason), Drop(xs, d)) && Unsuperseded(Requeue(rows, d, reason), Drop(xs, d))
  {
    DropKeepsRest(xs, d);
    var next := Requeue(rows, d, reason);
    assert Retired(next, Drop(xs, d)) <= Retired(rows, xs);
  }

  /** The displaced rows are those ranked before the chosen one, listed in their old order. */
  ghost predicate PrefixOf(rows: seq<Row>, xs: seq<nat>, chosen: nat, displaced: seq<nat>)
    requires Indices(rows, xs) && chosen in xs
  {
    && (forall x :: x in displaced ==> x in xs)
    && (forall x :: x in xs ==> (x in displaced <==> Prec(rows, x, chosen)))
    && (forall i, j :: 0 <= i < j < |displaced| ==>
          displaced[i] in xs && displaced[j] in xs && Prec(rows, displaced[i], displaced[j]))
  }

  lemma PrefixStep(rows: seq<Row>, xs: seq<nat>, d: nat, chosen: nat, reason: Option<string>, rest: seq<nat>)
    requires Ascending(xs) && Indices(rows, xs) && d in xs && chosen in xs && d != chosen
    requires forall x :: x in xs ==> x == d || Prec(rows, d, x)
    requires chosen in Drop(xs, d) && PrefixOf(Requeue(rows, d, reason), Drop(xs, d), chosen, rest)
    ensures PrefixOf(rows, xs, chosen, [d] + rest)
  {
    DropKeepsRest(xs, d);
    forall x | x in xs ensures x in [d] + rest <==> Prec(rows, x, chosen) {
      if x != d {
        RequeueKeepsPrec(rows, d, reason, x, chosen);
      }
    }
    forall i, j | 0 <= i < j < |rest| ensures rest[i] in xs && rest[j] in xs && Prec(rows, rest[i], rest[j]) {
      RequeueKeepsPrec(rows, d, reason, rest[i], rest[j]);
    }
    forall j | 0 <= j < |rest| ensures rest[j] in xs && Prec(rows, d, rest[j]) {
      assert rest[j] in rest;
    }
  }

  /** Without superseded parents among the residents, exactly those ranked before the chosen one go. */
  lemma {:induction false} DisplacesThoseBefore(rows: seq<Row>, xs: seq<nat>, system: string, chosen: nat,
                                                reason: Option<string>)
    requires Residents(rows, xs, system) && chosen in xs && Unsuperseded(rows, xs)
    ensures PrefixOf(rows, xs, chosen, Displace(rows, xs, system, chosen, reason).displaced)
    decreases |xs|
  {
    var d := DisplaceStep(rows, xs, system, chosen, reason);
    PrimaryIsLeast(rows, xs, system, d);
    assert forall x :: x in xs ==> Candidate(rows, xs, system, x);
    if d == chosen {
      forall x | x in xs ensures !Prec(rows, x, chosen) {
        PrecIsOrder(rows, x, chosen);
      }
    } else {
      RequeueKeepsRetired(rows, xs, d, reason);
      DisplacesThoseBefore(Requeue(rows, d, reason), Drop(xs, d), system, chosen, reason);
      PrefixStep(rows, xs, d, chosen, reason,
                 Displace(Requeue(rows, d, reason), Drop(xs, d), system, chosen, reason).displaced);
    }
  }

  /**
    The new takeover order is a rotation of the old one at the chosen row: rows from the chosen one on
    keep their order, and the displaced rows follow them in their old order.
   */
  ghost predicate Rotated(rows: seq<Row>, xs: seq<nat>, chosen: nat, out: seq<Row>)
    requires Indices(rows, xs) && chosen in xs && |out| == |rows|
  {
    forall i, j :: i in xs && j in xs ==>
      (Prec(out, i, j) <==>
       if Prec(rows, i, chosen) == Prec(rows, j, chosen) then Prec(rows, i, j) else Prec(rows, j, chosen))
  }

  lemma RotationFromPrefix(rows: seq<Row>, xs: seq<nat>, chosen: nat, m: Moved, i: nat, j: nat)
    requires Indices(rows, xs) && chosen in xs && i in xs && j in xs
    requires Safe(rows, xs, chosen, m) && PrefixOf(rows, xs, chosen, m.displaced)
    ensures Prec(m.rows, i, j) <==>
            if Prec(rows, i, chosen) == Prec(rows, j, chosen) then Prec(rows, i, j) else Prec(rows, j, chosen)
  {
    PrecIsOrder(rows, i, j);
    PrecIsOrder(m.rows, i, j);
    MaxOrderBounds(rows, i);
    MaxOrderBounds(rows, j);
    if i in m.displaced && j in m.displaced && i != j {
      var a :| 0 <= a < |m.displaced| && m.displaced[a] == i;
      var b :| 0 <= b < |m.displaced| && m.displaced[b] == j;
    }
  }

  lemma TakeoverRotates(rows: seq<Row>, xs: seq<nat>, system: string, chosen: nat, reason: Option<string>)
    requires Residents(rows, xs, system) && chosen in xs && Unsuperseded(rows, xs)
    ensures |Displace(rows, xs, system, chosen, reason).rows| == |rows|
    ensures Rotated(rows, xs, chosen, Displace(rows, xs, system, chosen, reason).rows)
  {
    var m := Displace(rows, xs, system, chosen, reason);
    DisplaceIsSafe(rows, xs, system, chosen, reason);
    DisplacesThoseBefore(rows, xs, system, chosen, reason);
    forall i, j | i in xs && j in xs
      ensures Prec(m.rows, i, j) <==>
              if Prec(rows, i, chosen) == Prec(rows, j, chosen) then Prec(rows, i, j) else Prec(rows, j, chosen)
    {
      RotationFromPrefix(rows, xs, chosen, m, i, j);
    }
  }

  /** Every row of the table. */
  function All(n: nat): (xs: seq<nat>)
    ensures |xs| == n && (forall i :: 0 <= i < n ==> xs[i] == i) && Ascending(xs)
    ensures forall x :: x in xs ==> x < n
  {
    seq(n, i requires 0 <= i < n => i)
  }

  lemma AllMembers(n: nat)
    ensures forall x: nat :: x in All(n) <==> x < n
  {
    forall x: nat | x < n ensures x in All(n) {
      assert All(n)[x] == x;
    }
  }

  lemma SameInfoSameRetired(rows: seq<Row>, out: seq<Row>, xs: seq<nat>)
    requires OnlyRequeued(rows, out) && Indices(rows, xs)
    ensures Retired(rows, xs) == Retired(out, xs)
  {
  }

  /** Wherever a row is absent from the smaller set it can only be less superseded there. */
  lemma FewerRowsRetireLess(rows: seq<Row>, xs: seq<nat>, ys: seq<nat>)
    requires Indices(rows, ys) && forall x :: x in xs ==> x in ys
    ensures Retired(rows, xs) <= Retired(rows, ys)
  {
  }

  /** All residents of a system, and nobody else. */
  ghost predicate Whole(rows: seq<Row>, xs: seq<nat>, system: string) {
    && Residents(rows, xs, system)
    && forall x: nat :: x < |rows| && Resident(rows[x]) && rows[x].info.system == system ==> x in xs
  }

  /** Whoever stays in the queue, and is superseded by nobody in the whole table, ranks after the chosen row. */
  lemma {:induction false} ChosenHeadsTheRest(rows: seq<Row>, xs: seq<nat>, system: string, chosen: nat,
                                              reason: Option<string>, all: seq<nat>, x: nat)
    requires Residents(rows, xs, system) && chosen in xs
    requires Indices(rows, all) && forall y :: y in xs ==> y in all
    requires x in xs && x != chosen && !Superseded(rows, all, x)
    requires x !in Displace(rows, xs, system, chosen, reason).displaced
    ensures Prec(rows, chosen, x)
    decreases |xs|
  {
    var d := DisplaceStep(rows, xs, system, chosen, reason);
    FewerRowsRetireLess(rows, xs, all);
    PrimaryIsLeast(rows, xs, system, d);
    if d != chosen {
      var next := Requeue(rows, d, reason);
      DropKeepsRest(xs, d);
      SameInfoSameRetired(rows, next, all);
      ChosenHeadsTheRest(next, Drop(xs, d), system, chosen, reason, all, x);
      RequeueKeepsPrec(rows, d, reason, chosen, x);
    }
  }

  /**
    After the takeover the chosen standby is the primary of its system exactly when no window anywhere
    in the table has superseded it as a legacy parent.
   */
  lemma TakeoverElectsChosen(rows: seq<Row>, xs: seq<nat>, system: string, chosen: nat, reason: Option<string>)
    requires Whole(rows, xs, system) && chosen in xs
    ensures |Displace(rows, xs, system, chosen, reason).rows| == |rows|
    ensures Primary(Displace(rows, xs, system, chosen, reason).rows, All(|rows|), system) == Some(chosen)
            <==> !Superseded(rows, All(|rows|), chosen)
  {
    var all := All(|rows|);
    AllMembers(|rows|);
    var m := Displace(rows, xs, system, chosen, reason);
    DisplaceIsSafe(rows, xs, system, chosen, reason);
    SameInfoSameRetired(rows, m.rows, all);
    MaxOrderBounds(rows, chosen);
    forall x | x in all && Candidate(m.rows, all, system, x) ensures x == chosen || Prec(m.rows, chosen, x) {
      assert x in xs;
      if x != chosen && x !in m.displaced {
        ChosenHeadsTheRest(rows, xs, system, chosen, reason, all, x);
      }
    }
    PrimaryIsLeast(m.rows, all, system, chosen);
  }

  lemma WindowParent()
    ensures ParentOf("m:user-1") == Some("m")
  {
    var client := "m:user-1";
    assert client[0..6][0] == 'm' && MARKER[0] == ':';
    assert client[1..7] == MARKER;
    assert MarkerAt(client, 1) && !MarkerAt(client, 0);
    assert FirstMarker(client, 0) == FirstMarker(client, 1) == Some(1);
    assert client[..1] == "m" && client[7..] == "1";
  }
}
