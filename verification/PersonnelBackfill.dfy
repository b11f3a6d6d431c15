/** Restartable import of confirmed identities (app/esi/personnel_backfill.py). */
module PersonnelBackfill {
  import opened Common
  import opened Identities
  import Store = PersonnelArchive

  /** One report of the history stream with the confirmed identities it carries. */
  datatype Row = Row(position: int, updates: seq<IdentityUpdate>)

  datatype Progress = Progress(people: People, cursor: int, imported: nat, rejected: nat)

  /** One savepoint: a rejected identity rolls back alone. */
  function ImportOne(key: string -> string, p: Progress, u: IdentityUpdate): Progress {
    var (people, o) := SaveIdentity(key, p.people, u);
    match o
    case Written => p.(people := people, imported := p.imported + 1)
    case Ignored => p.(people := people)
    case Raised => p.(rejected := p.rejected + 1)
  }

  /** A refused identity is only counted; any other is written as SaveIdentity's callers expect, and counted when it was news. */
  lemma ImportOneMeans(key: string -> string, p: Progress, u: IdentityUpdate)
    ensures var q := ImportOne(key, p, u);
            && q.cursor == p.cursor
            && (if IdentityRefused(key, p.people, u) then q == p.(rejected := p.rejected + 1)
                else
                  && IdentityWrote(key, p.people, u, q.people) && q.rejected == p.rejected
                  && q.imported == p.imported + if IdentityNews(p.people, u) then 1 else 0)
  {
    SaveIdentityMeans(key, p.people, u);
  }

  function ImportEach(key: string -> string, p: Progress, us: seq<IdentityUpdate>): Progress {
    if us == [] then p else ImportOne(key, ImportEach(key, p, us[..|us| - 1]), us[|us| - 1])
  }

  function AfterRow(key: string -> string, p: Progress, row: Row): Progress {
    ImportEach(key, p, row.updates).(cursor := row.position)
  }

  function ImportAll(key: string -> string, p: Progress, rows: seq<Row>): Progress {
    if rows == [] then p else AfterRow(key, ImportAll(key, p, rows[..|rows| - 1]), rows[|rows| - 1])
  }

  ghost predicate Ordered(rows: seq<Row>) {
    forall i, j :: 0 <= i < j < |rows| ==> rows[i].position < rows[j].position
  }

  /** How many rows the cursor has passed: WHERE stream_position > cursor starts there. */
  function Passed(rows: seq<Row>, cursor: int, i: nat): (n: nat)
    requires i <= |rows|
    ensures i <= n <= |rows|
    ensures forall j :: i <= j < n ==> rows[j].position <= cursor
    ensures n < |rows| ==> rows[n].position > cursor
    decreases |rows| - i
  {
    if i == |rows| || rows[i].position > cursor then i else Passed(rows, cursor, i + 1)
  }

  function Page(rows: seq<Row>, cursor: int, limit: nat): (r: seq<Row>)
    ensures |r| <= limit
  {
    var n := Passed(rows, cursor, 0);
    rows[n..MinInt(n + limit, |rows|)]
  }

  function AfterStep(key: string -> string, p: Progress, rows: seq<Row>, limit: nat): Progress {
    ImportAll(key, p, Page(rows, p.cursor, limit))
  }

  function Steps(key: string -> string, p: Progress, rows: seq<Row>, limits: seq<nat>): Progress {
    if limits == [] then p else AfterStep(key, Steps(key, p, rows, limits[..|limits| - 1]), rows, limits[|limits| - 1])
  }

  function Sum(limits: seq<nat>): nat {
    if limits == [] then 0 else Sum(limits[..|limits| - 1]) + limits[|limits| - 1]
  }

  lemma {:induction false} ImportAllSplits(key: string -> string, p: Progress, a: seq<Row>, b: seq<Row>)
    ensures ImportAll(key, p, a + b) == ImportAll(key, ImportAll(key, p, a), b)
  {
    if b == [] {
      assert a + b == a;
    } else {
      ImportAllSplits(key, p, a, b[..|b| - 1]);
      assert (a + b)[..|a + b| - 1] == a + b[..|b| - 1];
    }
  }

  /**
    However the import is cut into steps and restarts, each pending row is imported once and in order:
    the outcome is that of one pass over the same number of rows.
   */
  lemma {:induction false} StepsAreOnePass(key: string -> string, p: Progress, rows: seq<Row>, limits: seq<nat>)
    requires Ordered(rows)
    ensures Steps(key, p, rows, limits) == AfterStep(key, p, rows, Sum(limits))
  {
    if limits == [] {
      assert Page(rows, p.cursor, 0) == [];
    } else {
      var init, l := limits[..|limits| - 1], limits[|limits| - 1];
      StepsAreOnePass(key, p, rows, init);
      StepTwice(key, p, rows, Sum(init), l);
    }
  }

  /** In an ordered stream the cursor on row n - 1 has passed exactly n rows. */
  lemma PassedExactly(rows: seq<Row>, n: nat)
    requires Ordered(rows) && 0 < n <= |rows|
    ensures Passed(rows, rows[n - 1].position, 0) == n
  {
    assert n < |rows| ==> rows[n - 1].position < rows[n].position;
  }

  lemma NextPageStart(rows: seq<Row>, cursor: int, limit: nat, next: int)
    requires Ordered(rows)
    requires var page := Page(rows, cursor, limit); next == if page == [] then cursor else page[|page| - 1].position
    ensures Passed(rows, next, 0) == Passed(rows, cursor, 0) + |Page(rows, cursor, limit)|
  {
    var n := Passed(rows, cursor, 0);
    var page := Page(rows, cursor, limit);
    if page != [] {
      assert page[|page| - 1] == rows[n + |page| - 1];
      PassedExactly(rows, n + |page|);
    }
  }

  /** Two pages in a row are one longer page. */
  lemma PagesJoin(rows: seq<Row>, cursor: int, a: nat, b: nat, next: int)
    requires Passed(rows, next, 0) == Passed(rows, cursor, 0) + |Page(rows, cursor, a)|
    ensures Page(rows, cursor, a) + Page(rows, next, b) == Page(rows, cursor, a + b)
  {
  }

  lemma CursorAfterAll(key: string -> string, p: Progress, rows: seq<Row>)
    ensures ImportAll(key, p, rows).cursor == if rows == [] then p.cursor else rows[|rows| - 1].position
  {
  }

  lemma StepTwice(key: string -> string, p: Progress, rows: seq<Row>, a: nat, b: nat)
    requires Ordered(rows)
    ensures AfterStep(key, AfterStep(key, p, rows, a), rows, b) == AfterStep(key, p, rows, a + b)
  {
    var first := Page(rows, p.cursor, a);
    var q := ImportAll(key, p, first);
    CursorAfterAll(key, p, first);
    NextPageStart(rows, p.cursor, a, q.cursor);
    PagesJoin(rows, p.cursor, a, b, q.cursor);
    ImportAllSplits(key, p, first, Page(rows, q.cursor, b));
  }

  /** The name index holds after every import, whatever the rejected conflicts. */
  lemma {:induction false} ImportEachKeepsIndex(key: string -> string, p: Progress, us: seq<IdentityUpdate>)
    requires Indexed(key, p.people)
    ensures Indexed(key, ImportEach(key, p, us).people)
    ensures OwnersKept(p.people, ImportEach(key, p, us).people)
    ensures ImportEach(key, p, us).imported + ImportEach(key, p, us).rejected <= p.imported + p.rejected + |us|
  {
    if us != [] {
      ImportEachKeepsIndex(key, p, us[..|us| - 1]);
      SaveIdentityKeepsIndex(key, ImportEach(key, p, us[..|us| - 1]).people, us[|us| - 1]);
    }
  }

  class PersonnelBackfill {
    const archive: Store.PersonnelArchive
    var cursor: int
    var imported: nat
    var rejected: nat

    constructor (archive: Store.PersonnelArchive)
      ensures this.archive == archive && cursor == 0 && imported == 0 && rejected == 0
    {
      this.archive, cursor, imported, rejected := archive, 0, 0, 0;
    }

    function Value(): Progress
      reads this, archive
    {
      Progress(archive.State().people, cursor, imported, rejected)
    }

    /** One savepoint. */
    method Import(u: IdentityUpdate)
      requires archive.Valid()
      modifies this, archive
      ensures archive.Valid() && archive.State() == old(archive.State()).(people := archive.State().people)
      ensures Value() == ImportOne(archive.key, old(Value()), u)
    {
      var o := archive.SaveIdentity(u);
      imported := imported + if o == Written then 1 else 0;
      rejected := rejected + if o == Raised then 1 else 0;
    }

    method ImportRow(row: Row)
      requires archive.Valid()
      modifies this, archive
      ensures archive.Valid() && archive.State() == old(archive.State()).(people := archive.State().people)
      ensures Value() == AfterRow(archive.key, old(Value()), row)
    {
      ghost var start := Value();
      var i := 0;
      while i < |row.updates|
        invariant 0 <= i <= |row.updates|
        invariant archive.Valid() && archive.State() == old(archive.State()).(people := archive.State().people)
        invariant Value() == ImportEach(archive.key, start, row.updates[..i])
      {
        assert row.updates[..i + 1][..i] == row.updates[..i];
        Import(row.updates[i]);
        i := i + 1;
      }
      assert row.updates[..i] == row.updates;
      cursor := row.position;
    }

    /** One page of the stream; None where the source raises on the batch size. */
    method Step(rows: seq<Row>, limit: int) returns (n: Option<nat>)
      requires archive.Valid()
      modifies this, archive
      ensures archive.Valid()
      ensures n.Some? <==> 1 <= limit <= 1000
      ensures n.None? ==> Value() == old(Value())
      ensures n.Some? ==> Value() == AfterStep(archive.key, old(Value()), rows, limit)
                          && n.value == |Page(rows, old(cursor), limit)|
      ensures archive.State() == old(archive.State()).(people := archive.State().people)
    {
      if !(1 <= limit <= 1000) {
        return None;
      }
      var page := Page(rows, cursor, limit);
      ghost var start := Value();
      var i := 0;
      while i < |page|
        invariant 0 <= i <= |page|
        invariant archive.Valid() && archive.State() == old(archive.State()).(people := archive.State().people)
        invariant Value() == ImportAll(archive.key, start, page[..i])
      {
        assert page[..i + 1][..i] == page[..i];
        ImportRow(page[i]);
        i := i + 1;
      }
      assert page[..i] == page;
      n := Some(|page|);
    }
  }
}
