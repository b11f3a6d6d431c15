/** Deterministic choice of one primary detector per system (app/server/source_authority.py). */
module SourceAuthority {
  import opened Common

  datatype Quality = Complete | Truncated | Unknown

  datatype Capture = Capture(epoch: int, sequence: int, session: string, fingerprint: string, quality: Quality)

  /** What a presence row says apart from its place in the queue; `system` is the folded `systemName`. */
  datatype Info = Info(
    detector: bool, presenceOnly: bool, queryOnly: bool, active: bool, leftReason: string,
    system: string, systemName: string, systemId: Option<int>, clientId: Option<string>, accountId: string,
    keyId: string, firstSeen: string,
    iconCount: Option<int>, capture: Option<Capture>, captureReceivedAt: real, roster: Roster)

  /** OCR roster bookkeeping of a row. */
  datatype Roster = Roster(
    hasNames: bool, samples: seq<(int, Quality)>, fingerprint: Option<string>, observedAt: real,
    missingSince: Option<real>, missingFrames: int, waitSequence: int)

  datatype Row = Row(joinOrder: nat, changeReason: string, info: Info)

  const MARKER := ":user-"

  // -------------------------------------------------------------- text order

  /** Code-point order of text. */
  predicate Less(a: string, b: string) {
    b != "" && (a == "" || a[0] < b[0] || (a[0] == b[0] && Less(a[1..], b[1..])))
  }

  lemma {:induction false} LessIsOrder(a: string, b: string)
    ensures !(Less(a, b) && Less(b, a)) && !(a == b && Less(a, b))
    ensures a != b ==> Less(a, b) || Less(b, a)
  {
    if a != "" && b != "" && a[0] == b[0] {
      LessIsOrder(a[1..], b[1..]);
      assert a == [a[0]] + a[1..] && b == [b[0]] + b[1..];
    }
  }

  lemma {:induction false} LessIsTransitive(a: string, b: string, c: string)
    requires Less(a, b) && Less(b, c)
    ensures Less(a, c)
  {
    if a != "" && a[0] == b[0] == c[0] {
      LessIsTransitive(a[1..], b[1..], c[1..]);
    }
  }

  // -------------------------------------------------------- identity and rank

  function ClientText(r: Row): string {
    if r.info.clientId.Some? then r.info.clientId.value else ""
  }

  function SourceIdentity(r: Row): string {
    if r.info.accountId != "" || r.info.keyId != "" then "seat:" + r.info.accountId + ":" + r.info.keyId + ":" + ClientText(r)
    else ClientText(r)
  }

  predicate Resident(r: Row) {
    r.info.detector && r.info.presenceOnly && r.info.leftReason == "" && (r.info.active || r.info.iconCount == Some(0))
  }

  /** Legacy rows (order 0) are ranked by their stored first frame. */
  function SeenText(r: Row): string {
    if r.joinOrder == 0 then r.info.firstSeen else ""
  }

  predicate RankLess(a: Row, b: Row) {
    a.joinOrder < b.joinOrder
    || (a.joinOrder == b.joinOrder
        && (Less(SeenText(a), SeenText(b)) || (SeenText(a) == SeenText(b) && Less(SourceIdentity(a), SourceIdentity(b)))))
  }

  predicate RankEqual(a: Row, b: Row) {
    a.joinOrder == b.joinOrder && SeenText(a) == SeenText(b) && SourceIdentity(a) == SourceIdentity(b)
  }

  lemma RankIsOrder(a: Row, b: Row)
    ensures !(RankLess(a, b) && RankLess(b, a)) && !(RankEqual(a, b) && RankLess(a, b))
    ensures RankLess(a, b) || RankLess(b, a) || RankEqual(a, b)
  {
    LessIsOrder(SeenText(a), SeenText(b));
    LessIsOrder(SourceIdentity(a), SourceIdentity(b));
  }

  lemma RankIsTransitive(a: Row, b: Row, c: Row)
    requires RankLess(a, b) && RankLess(b, c)
    ensures RankLess(a, c)
  {
    if Less(SeenText(a), SeenText(b)) && Less(SeenText(b), SeenText(c)) {
      LessIsTransitive(SeenText(a), SeenText(b), SeenText(c));
    }
    if Less(SourceIdentity(a), SourceIdentity(b)) && Less(SourceIdentity(b), SourceIdentity(c)) {
      LessIsTransitive(SourceIdentity(a), SourceIdentity(b), SourceIdentity(c));
    }
  }

  /** Rank first, then position: the order in which rows take over. */
  predicate Prec(rows: seq<Row>, i: nat, j: nat)
    requires i < |rows| && j < |rows|
  {
    RankLess(rows[i], rows[j]) || (RankEqual(rows[i], rows[j]) && i < j)
  }

  lemma PrecIsOrder(rows: seq<Row>, i: nat, j: nat)
    requires i < |rows| && j < |rows|
    ensures !(Prec(rows, i, j) && Prec(rows, j, i)) && !Prec(rows, i, i)
    ensures i != j ==> Prec(rows, i, j) || Prec(rows, j, i)
  {
    RankIsOrder(rows[i], rows[j]);
    RankIsOrder(rows[i], rows[i]);
  }

  lemma PrecIsTransitive(rows: seq<Row>, i: nat, j: nat, k: nat)
    requires i < |rows| && j < |rows| && k < |rows|
    requires Prec(rows, i, j) && Prec(rows, j, k)
    ensures Prec(rows, i, k)
  {
    if RankLess(rows[i], rows[j]) && RankLess(rows[j], rows[k]) {
      RankIsTransitive(rows[i], rows[j], rows[k]);
    }
  }

  // ------------------------------------------------- superseded legacy parents

  predicate MarkerAt(s: string, i: nat) {
    i + |MARKER| <= |s| && s[i..i + |MARKER|] == MARKER
  }

  predicate HasMarker(s: string) {
    exists i: nat :: i < |s| && MarkerAt(s, i)
  }

  /** str.partition: the first occurrence. */
  function FirstMarker(s: string, from: nat): (r: Option<nat>)
    ensures r.Some? ==> from <= r.value && MarkerAt(s, r.value) && forall i: nat :: from <= i < r.value ==> !MarkerAt(s, i)
    decreases |s| - from
  {
    if from >= |s| then None
    else if MarkerAt(s, from) then Some(from)
    else FirstMarker(s, from + 1)
  }

  /** The legacy machine identity that a per-window client id retires. */
  function ParentOf(client: string): (r: Option<string>)
    ensures r.Some? ==> HasMarker(client) && !HasMarker(r.value)
  {
    var i := FirstMarker(client, 0);
    if i.None? then None
    else
      var parent, window := client[..i.value], client[i.value + |MARKER|..];
      if parent == "" || window == "" || ':' in window then None
      else
        assert MarkerAt(client, i.value);
        assert forall n: nat :: n < |parent| && MarkerAt(parent, n) ==>
            client[n..n + |MARKER|] == parent[n..n + |MARKER|] && MarkerAt(client, n);
        Some(parent)
  }

  /** The window's client id is its parent, the first marker, and a window name without a colon; nothing else has a parent. */
  lemma ParentOfMeans(client: string, parent: string)
    ensures ParentOf(client) == Some(parent) <==>
            && parent != "" && !HasMarker(parent)
            && |parent| + |MARKER| < |client| && client[..|parent|] == parent && MarkerAt(client, |parent|)
            && ':' !in client[|parent| + |MARKER|..]
  {
    var n := |parent|;
    if parent != "" && !HasMarker(parent) && n + |MARKER| < |client| && client[..n] == parent && MarkerAt(client, n) {
      forall i: nat | i < n ensures !MarkerAt(client, i) {
        MarkerBefore(client, n, i);
      }
      FirstMarkerIs(client, 0, n);
    }
  }

  lemma ColonStartsMarker(s: string, i: nat, n: nat)
    requires n < |s|
    ensures MarkerAt(s, i) && i < n < i + |MARKER| ==> s[n] != ':'
  {
    if MarkerAt(s, i) && i < n < i + |MARKER| {
      assert s[n] == s[i..i + |MARKER|][n - i] == MARKER[n - i];
    }
  }

  /** Two occurrences of the marker never overlap. */
  lemma MarkerBefore(s: string, n: nat, i: nat)
    requires i < n && MarkerAt(s, n) && !HasMarker(s[..n])
    ensures !MarkerAt(s, i)
  {
    assert s[n..n + |MARKER|][0] == ':';
    ColonStartsMarker(s, i, n);
    if MarkerAt(s, i) && i + |MARKER| <= n {
      assert s[..n][i..i + |MARKER|] == s[i..i + |MARKER|];
      assert MarkerAt(s[..n], i);
    }
  }

  lemma {:induction false} FirstMarkerIs(s: string, from: nat, n: nat)
    requires from <= n < |s| && MarkerAt(s, n) && forall i: nat :: from <= i < n ==> !MarkerAt(s, i)
    ensures FirstMarker(s, from) == Some(n)
    decreases n - from
  {
    if from < n {
      FirstMarkerIs(s, from + 1, n);
    }
  }

  /** The index list xs stands for the items passed in; rows is the whole table. */
  ghost predicate Indices(rows: seq<Row>, xs: seq<nat>) {
    forall x :: x in xs ==> x < |rows|
  }

  predicate Evidence(r: Row) {
    r.info.detector && r.info.presenceOnly && !r.info.queryOnly && ParentOf(ClientText(r)).Some?
  }

  function Retired(rows: seq<Row>, xs: seq<nat>): (parents: set<string>)
    requires Indices(rows, xs)
    ensures forall p :: p in parents <==> exists x :: x in xs && Evidence(rows[x]) && ParentOf(ClientText(rows[x])).value == p
  {
    set x | x in xs && Evidence(rows[x]) :: ParentOf(ClientText(rows[x])).value
  }

  predicate Superseded(rows: seq<Row>, xs: seq<nat>, x: nat)
    requires Indices(rows, xs) && x < |rows|
  {
    rows[x].info.clientId.Some? && rows[x].info.clientId.value in Retired(rows, xs)
  }

  predicate Candidate(rows: seq<Row>, xs: seq<nat>, system: string, x: nat)
    requires Indices(rows, xs) && x < |rows|
  {
    Resident(rows[x]) && rows[x].info.system == system && !Superseded(rows, xs, x)
  }

  // ---------------------------------------------------------------- selection

  /** The scan of primary_sources over xs[..n] for one system. */
  function Scan(rows: seq<Row>, xs: seq<nat>, system: string, n: nat): (r: Option<nat>)
    requires Indices(rows, xs) && n <= |xs|
    ensures r.Some? ==> r.value in xs[..n] && r.value < |rows|
  {
    if n == 0 then None
    else
      var best := Scan(rows, xs, system, n - 1);
      var x := xs[n - 1];
      assert x in xs;
      assert forall y :: y in xs[..n] <==> y in xs[..n - 1] || y == x;
      if Candidate(rows, xs, system, x) && (best.None? || RankLess(rows[x], rows[best.value])) then Some(x) else best
  }

  function Primary(rows: seq<Row>, xs: seq<nat>, system: string): Option<nat>
    requires Indices(rows, xs)
  {
    Scan(rows, xs, system, |xs|)
  }

  ghost predicate Ascending(xs: seq<nat>) {
    forall i, j :: 0 <= i < j < |xs| ==> xs[i] < xs[j]
  }

  lemma {:induction false} ScanIsLeast(rows: seq<Row>, xs: seq<nat>, system: string, n: nat)
    requires Indices(rows, xs) && Ascending(xs) && n <= |xs|
    ensures var r := Scan(rows, xs, system, n);
            && (forall i :: 0 <= i < n && xs[i] in xs && Candidate(rows, xs, system, xs[i]) ==>
                  r.Some? && (xs[i] == r.value || Prec(rows, r.value, xs[i])))
            && (r.Some? ==> Candidate(rows, xs, system, r.value))
  {
    if n > 0 {
      ScanIsLeast(rows, xs, system, n - 1);
      var best, r, x := Scan(rows, xs, system, n - 1), Scan(rows, xs, system, n), xs[n - 1];
      assert x in xs;
      if best.Some? {
        RankIsOrder(rows[x], rows[best.value]);
        if r == Some(x) {
          forall i | 0 <= i < n - 1 && Candidate(rows, xs, system, xs[i]) ensures Prec(rows, x, xs[i]) {
            if xs[i] != best.value {
              PrecIsTransitive(rows, x, best.value, xs[i]);
            }
          }
        }
      }
    }
  }

  /** The primary of a system is its least candidate: oldest rank, ties to the earlier row. */
  lemma PrimaryIsLeast(rows: seq<Row>, xs: seq<nat>, system: string, p: nat)
    requires Indices(rows, xs) && Ascending(xs)
    ensures Primary(rows, xs, system) == Some(p) <==>
            && p in xs && Candidate(rows, xs, system, p)
            && forall x :: x in xs && Candidate(rows, xs, system, x) ==> x == p || Prec(rows, p, x)
  {
    ScanIsLeast(rows, xs, system, |xs|);
    var r := Primary(rows, xs, system);
    assert xs[..|xs|] == xs;
    forall x | x in xs && Candidate(rows, xs, system, x)
      ensures r.Some? && (x == r.value || Prec(rows, r.value, x))
    {
      var i :| 0 <= i < |xs| && xs[i] == x;
    }
    if r.Some? && p in xs {
      PrecIsOrder(rows, r.value, p);
    }
  }

  /** On duty for a system: a presence row that has not left, sees somebody or sees zero, and no window of it is listed. */
  ghost predicate OnDuty(rows: seq<Row>, xs: seq<nat>, system: string, x: nat)
    requires Indices(rows, xs) && x < |rows|
  {
    var r := rows[x].info;
    && r.detector && r.presenceOnly && r.leftReason == "" && r.system == system && (r.active || r.iconCount == Some(0))
    && !(exists w :: w in xs && rows[w].info.detector && rows[w].info.presenceOnly && !rows[w].info.queryOnly
                     && r.clientId.Some? && ParentOf(ClientText(rows[w])) == r.clientId)
  }

  /** Who joined first is primary, when no two rows on duty joined together. */
  lemma ElectionMeans(rows: seq<Row>, xs: seq<nat>, system: string, p: nat)
    requires Indices(rows, xs) && Ascending(xs)
    requires forall x, y :: x in xs && y in xs && OnDuty(rows, xs, system, x) && OnDuty(rows, xs, system, y) && x != y ==>
               rows[x].joinOrder != rows[y].joinOrder
    ensures Primary(rows, xs, system) == Some(p) <==>
            && p in xs && OnDuty(rows, xs, system, p)
            && forall x :: x in xs && OnDuty(rows, xs, system, x) ==> rows[p].joinOrder <= rows[x].joinOrder
  {
    PrimaryIsLeast(rows, xs, system, p);
    forall x | x in xs ensures OnDuty(rows, xs, system, x) <==> Candidate(rows, xs, system, x) {
    }
  }

  /** A window id can never be a superseded parent, so a non-empty resident set always has a primary. */
  lemma ResidentsHavePrimary(rows: seq<Row>, xs: seq<nat>, system: string)
    requires Indices(rows, xs) && Ascending(xs) && xs != []
    requires forall x :: x in xs ==> Resident(rows[x]) && rows[x].info.system == system
    ensures Primary(rows, xs, system).Some?
  {
    var x := xs[0];
    if w :| w in xs && Evidence(rows[w]) {
      x := w;
    }
    assert x in xs && Candidate(rows, xs, system, x);
    ScanIsLeast(rows, xs, system, |xs|);
  }
}
