/** Session fencing of uploads (capture_is_current in app/server/capture_state.py) over whole runs. */
module CaptureFence {
  import opened Common
  import opened SourceAuthority

  predicate KeyLe(a: Capture, b: Capture) {
    a.epoch < b.epoch || (a.epoch == b.epoch && a.sequence <= b.sequence)
  }

  /** A row that carries a capture of this client. */
  predicate Carries(r: Row, client: string) {
    r.info.presenceOnly && r.info.clientId == Some(client) && r.info.capture.Some?
  }

  /** The scan of max() over rows[..n]: the first of the newest. */
  function Newest(rows: seq<Row>, client: string, n: nat): Option<Capture>
    requires n <= |rows|
  {
    if n == 0 then None
    else
      var best := Newest(rows, client, n - 1);
      var r := rows[n - 1];
      if Carries(r, client) && (best.None? || !KeyLe(r.info.capture.value, best.value)) then r.info.capture else best
  }

  function Latest(rows: seq<Row>, client: string): Option<Capture> {
    Newest(rows, client, |rows|)
  }

  ghost function Captures(rows: seq<Row>, client: string): set<Capture> {
    set r | r in rows && Carries(r, client) :: r.info.capture.value
  }

  lemma {:induction false} NewestIsGreatest(rows: seq<Row>, client: string, n: nat)
    requires n <= |rows|
    ensures Newest(rows, client, n).None? ==> forall i :: 0 <= i < n ==> !Carries(rows[i], client)
    ensures Newest(rows, client, n).Some? ==>
              && (exists i :: 0 <= i < n && Carries(rows[i], client) && rows[i].info.capture == Newest(rows, client, n))
              && (forall i :: 0 <= i < n && Carries(rows[i], client) ==>
                    KeyLe(rows[i].info.capture.value, Newest(rows, client, n).value))
  {
    if n > 0 {
      NewestIsGreatest(rows, client, n - 1);
    }
  }

  lemma LatestIsGreatest(rows: seq<Row>, client: string)
    ensures Latest(rows, client).None? <==> Captures(rows, client) == {}
    ensures Latest(rows, client).Some? ==>
              && Latest(rows, client).value in Captures(rows, client)
              && forall c :: c in Captures(rows, client) ==> KeyLe(c, Latest(rows, client).value)
  {
    NewestIsGreatest(rows, client, |rows|);
    var l := Latest(rows, client);
    if l.Some? {
      var i :| 0 <= i < |rows| && Carries(rows[i], client) && rows[i].info.capture == l;
      assert rows[i] in rows;
      assert l.value in Captures(rows, client);
    }
    forall c | c in Captures(rows, client) ensures l.Some? && KeyLe(c, l.value) {
      var r :| r in rows && Carries(r, client) && r.info.capture.value == c;
      var i :| 0 <= i < |rows| && rows[i] == r;
    }
    if l.None? {
      assert forall c :: c !in Captures(rows, client);
    }
  }

  predicate IsCurrent(rows: seq<Row>, client: string, capture: Option<Capture>, ocr: bool) {
    var latest := Latest(rows, client);
    if latest.None? then !ocr || capture.None?
    else if capture.None? then false
    else
      var c, l := capture.value, latest.value;
      if c.epoch != l.epoch then !ocr && c.epoch > l.epoch
      else if c.session != l.session then false
      else if ocr then c.sequence <= l.sequence && c.fingerprint == l.fingerprint
      else c.sequence >= l.sequence
  }

  /** A presence frame: it replaces one row of its client, or adds one. */
  datatype Upload = Upload(client: string, slot: Option<nat>, row: Row)

  predicate WellFormed(rows: seq<Row>, u: Upload) {
    && u.row.info.presenceOnly && u.row.info.clientId == Some(u.client)
    && (u.slot.Some? ==> u.slot.value < |rows| && rows[u.slot.value].info.presenceOnly
                         && rows[u.slot.value].info.clientId == Some(u.client))
  }

  function Place(rows: seq<Row>, u: Upload): seq<Row>
    requires WellFormed(rows, u)
  {
    if u.slot.Some? then rows[u.slot.value := u.row] else rows + [u.row]
  }

  lemma PlaceCaptures(rows: seq<Row>, u: Upload, client: string)
    requires WellFormed(rows, u)
    ensures client != u.client ==> Captures(Place(rows, u), client) == Captures(rows, client)
    ensures var own := if u.row.info.capture.Some? then {u.row.info.capture.value} else {};
            own <= Captures(Place(rows, u), u.client) <= Captures(rows, u.client) + own
  {
    var out := Place(rows, u);
    var at := if u.slot.Some? then u.slot.value else |rows|;
    assert out[at] == u.row && u.row in out;
    forall r | r in rows && !Carries(r, u.client) && Carries(r, client) ensures r in out {
      var i :| 0 <= i < |rows| && rows[i] == r;
      assert out[i] == r;
    }
    forall r | r in out && r != u.row ensures r in rows {
      var i :| 0 <= i < |out| && out[i] == r;
      assert rows[i] == r;
    }
  }

  /** The rows, and every capture accepted so far with its client. */
  datatype Session = Session(rows: seq<Row>, accepted: set<(string, Capture)>)

  function Receive(s: Session, u: Upload): Session
    requires WellFormed(s.rows, u)
  {
    if !IsCurrent(s.rows, u.client, u.row.info.capture, false) then s
    else Session(Place(s.rows, u),
                 if u.row.info.capture.Some? then s.accepted + {(u.client, u.row.info.capture.value)} else s.accepted)
  }

  ghost predicate Runs(s: Session, us: seq<Upload>)
    decreases |us|
  {
    us == [] || (WellFormed(s.rows, us[0]) && Runs(Receive(s, us[0]), us[1..]))
  }

  ghost function After(s: Session, us: seq<Upload>): Session
    requires Runs(s, us)
    decreases |us|
  {
    if us == [] then s else After(Receive(s, us[0]), us[1..])
  }

  /** The newest row is an accepted capture and dominates all accepted ones; an epoch has one session. */
  ghost predicate Fenced(s: Session, client: string) {
    var l := Latest(s.rows, client);
    && (forall c :: c in Captures(s.rows, client) ==> (client, c) in s.accepted)
    && (forall c :: (client, c) in s.accepted ==> l.Some? && KeyLe(c, l.value))
    && (forall a, b :: (client, a) in s.accepted && (client, b) in s.accepted && a.epoch == b.epoch ==> a.session == b.session)
  }

  ghost predicate NotBack(before: Option<Capture>, after: Option<Capture>) {
    before.Some? ==> after.Some? && KeyLe(before.value, after.value)
  }

  lemma UploadKeepsFence(s: Session, u: Upload, client: string)
    requires Fenced(s, client) && WellFormed(s.rows, u)
    ensures Fenced(Receive(s, u), client)
    ensures NotBack(Latest(s.rows, client), Latest(Receive(s, u).rows, client))
  {
    var t := Receive(s, u);
    if t != s {
      PlaceCaptures(s.rows, u, client);
      LatestIsGreatest(s.rows, client);
      LatestIsGreatest(t.rows, client);
    }
  }

  /**
    Over any run of uploads of any clients: a client's newest capture never goes back, and all accepted
    captures of one epoch share one session.
   */
  lemma {:induction false} RunsAreFenced(s: Session, us: seq<Upload>, client: string)
    requires Fenced(s, client) && Runs(s, us)
    ensures Fenced(After(s, us), client)
    ensures NotBack(Latest(s.rows, client), Latest(After(s, us).rows, client))
    decreases |us|
  {
    if us != [] {
      UploadKeepsFence(s, us[0], client);
      RunsAreFenced(Receive(s, us[0]), us[1..], client);
    }
  }

  /**
    Once a client has sent captures, exactly these frames are accepted from it: a new epoch that exceeds all
    accepted ones, or the newest accepted epoch under its own session and no older sequence number. Before
    that every frame is.
   */
  lemma AcceptsExactlyNewer(s: Session, client: string, c: Capture)
    requires Fenced(s, client)
    ensures (forall a :: (client, a) !in s.accepted) ==> IsCurrent(s.rows, client, Some(c), false) && IsCurrent(s.rows, client, None, false)
    ensures (exists a :: (client, a) in s.accepted) ==>
              (IsCurrent(s.rows, client, Some(c), false) <==>
               || (forall a :: (client, a) in s.accepted ==> a.epoch < c.epoch)
               || (&& (exists a :: (client, a) in s.accepted && a.epoch == c.epoch && a.session == c.session)
                   && forall a :: (client, a) in s.accepted ==> KeyLe(a, c)))
  {
    LatestIsGreatest(s.rows, client);
    var l := Latest(s.rows, client);
    if l.Some? {
      assert (client, l.value) in s.accepted;
    }
  }

  /** An accepted frame is stored in its slot, or as one more row, and counts from then on; no other row moves. */
  lemma AcceptedIsStored(s: Session, u: Upload, at: nat)
    requires WellFormed(s.rows, u) && at == (if u.slot.Some? then u.slot.value else |s.rows|)
    requires IsCurrent(s.rows, u.client, u.row.info.capture, false)
    ensures var t := Receive(s, u);
            && |t.rows| == (if u.slot.Some? then |s.rows| else |s.rows| + 1) && t.rows[at] == u.row
            && (forall i :: 0 <= i < |s.rows| && i != at ==> t.rows[i] == s.rows[i])
            && (u.row.info.capture.Some? ==> (u.client, u.row.info.capture.value) in t.accepted)
  {
  }

  /** After its first capture, a client's captureless uploads are refused for good. */
  lemma CapturelessRefused(s: Session, us: seq<Upload>, client: string, c: Capture, ocr: bool)
    requires Fenced(s, client) && (client, c) in s.accepted && Runs(s, us)
    ensures !IsCurrent(After(s, us).rows, client, None, ocr)
  {
    RunsAreFenced(s, us, client);
  }

  /**
    An OCR upload is accepted exactly when it names the session and picture of a newest accepted frame
    and is not ahead of it.
   */
  lemma OcrMatchesNewestFrame(s: Session, client: string, c: Capture)
    requires Fenced(s, client)
    ensures IsCurrent(s.rows, client, Some(c), true) ==>
              var l := Latest(s.rows, client);
              && l.Some? && (client, l.value) in s.accepted
              && (forall a :: (client, a) in s.accepted ==> KeyLe(a, l.value))
              && c.epoch == l.value.epoch && c.session == l.value.session
              && c.fingerprint == l.value.fingerprint && c.sequence <= l.value.sequence
    ensures (exists a :: (client, a) in s.accepted && a.session == c.session && a.epoch == c.epoch && a.fingerprint == c.fingerprint
                         && c.sequence <= a.sequence && Latest(s.rows, client) == Some(a)) ==>
              IsCurrent(s.rows, client, Some(c), true)
    ensures (client, c) in s.accepted && (forall a :: (client, a) in s.accepted ==> KeyLe(a, c)) ==>
              (IsCurrent(s.rows, client, Some(c), true) <==> Latest(s.rows, client).value.fingerprint == c.fingerprint)
  {
    LatestIsGreatest(s.rows, client);
  }
}
