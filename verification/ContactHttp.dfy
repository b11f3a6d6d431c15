/** Bounded all-or-nothing paging and HTTP freshness of contact lists (app/esi/contact_http.py). */
module ContactHttp {
  import opened Common

  // -------------------------------------------------------------- freshness

  /** A numeric header field; `Garbled` is not a number, infinite or not a number at all. */
  datatype Field = Absent | Value(v: real) | Garbled

  /** The x-pages header. */
  datatype PageCount = Unstated | Pages(n: int) | Unreadable

  /** Parsed response headers; dates that do not parse count as absent. */
  datatype Headers = Headers(
    pages: PageCount, etag: Option<string>, date: Option<real>, expires: Option<real>,
    age: Field, maxAge: Field, noCache: bool, noStore: bool)

  datatype Deadline = Deadline(at: real, degraded: bool)

  /** freshness: until when a response may be used, and whether its headers were unusable. */
  function Freshness(h: Headers, started: real, received: real): Deadline {
    if h.age.Garbled? || (h.age.Value? && h.age.v < 0.0) then Deadline(received, true)
    else if h.maxAge.Garbled? || (h.maxAge.Value? && h.maxAge.v < 0.0) then Deadline(received, true)
    else if h.noCache || h.noStore then Deadline(received, false)
    else if h.date.None? || (h.maxAge.Absent? && h.expires.None?) then Deadline(received, true)
    else Deadline(received + MaxReal(0.0, Lifetime(h) - CorrectedAge(h, started, received)), false)
  }

  function AgeValue(h: Headers): real { if h.age.Value? then h.age.v else 0.0 }

  function CorrectedAge(h: Headers, started: real, received: real): real
    requires h.date.Some?
  {
    MaxReal(MaxReal(0.0, received - h.date.value), AgeValue(h) + MaxReal(0.0, received - started))
  }

  /** The smaller of every stated lifetime and five minutes. */
  function Lifetime(h: Headers): real
    requires h.date.Some? && (h.maxAge.Value? || h.expires.Some?)
  {
    var aged := if h.maxAge.Value? then MinReal(300.0, h.maxAge.v) else 300.0;
    if h.expires.Some? then MinReal(aged, MaxReal(0.0, h.expires.value - h.date.value)) else aged
  }

  /** corrected_initial_age of section 4.2.3 of RFC 9111, for a response that carries a Date. */
  function InitialAge(h: Headers, started: real, received: real): real
    requires h.date.Some?
  {
    var apparent := MaxReal(0.0, received - h.date.value);
    var corrected := AgeValue(h) + (received - started);
    MaxReal(apparent, corrected)
  }

  /** freshness_lifetime of section 4.2.1 of RFC 9111: max-age wins over Expires minus Date. */
  function RfcLifetime(h: Headers): real
    requires h.date.Some? && (h.maxAge.Value? || h.expires.Some?)
  {
    if h.maxAge.Value? then h.maxAge.v else h.expires.value - h.date.value
  }

  /**
    Whatever may still be used is fresh by RFC 9111: its current age (initial age plus resident time) is below
    its freshness lifetime, its headers were sound, and it was received less than five minutes ago.
   */
  lemma UsableIsFresh(h: Headers, started: real, received: real, t: real)
    requires started <= received <= t < Freshness(h, started, received).at
    ensures !Freshness(h, started, received).degraded && !h.noCache && !h.noStore
    ensures h.date.Some? && (h.maxAge.Value? || h.expires.Some?)
    ensures InitialAge(h, started, received) + (t - received) < RfcLifetime(h)
    ensures t < received + 300.0
  {
  }

  /** And it is refused no earlier than the five-minute cap, max-age and Expires together demand. */
  lemma FreshIsUsable(h: Headers, started: real, received: real, t: real)
    requires started <= received <= t && h.date.Some? && (h.maxAge.Value? || h.expires.Some?)
    requires !h.noCache && !h.noStore && !h.age.Garbled? && AgeValue(h) >= 0.0
    requires !h.maxAge.Garbled? && (h.maxAge.Value? ==> h.maxAge.v >= 0.0)
    requires InitialAge(h, started, received) + (t - received) < 300.0
    requires h.maxAge.Value? ==> InitialAge(h, started, received) + (t - received) < h.maxAge.v
    requires h.expires.Some? ==> InitialAge(h, started, received) + (t - received) < h.expires.value - h.date.value
    ensures t < Freshness(h, started, received).at
  {
  }

  // ------------------------------------------------------------------- rows

  datatype Kind = Character | Corporation | Alliance | Faction

  datatype Row = Row(kind: Kind, id: int, standing: real) | BadRow

  predicate RowOk(r: Row) { r.Row? && r.id > 0 && -10.0 <= r.standing <= 10.0 }

  /** Every row well-formed and no (kind, id) twice. */
  ghost predicate ValidRows(rows: seq<Row>) {
    && (forall i :: 0 <= i < |rows| ==> RowOk(rows[i]))
    && (forall i, j :: 0 <= i < j < |rows| ==> rows[i].Row? && rows[j].Row? ==> (rows[i].kind, rows[i].id) != (rows[j].kind, rows[j].id))
  }

  method ValidateRows(rows: seq<Row>) returns (ok: bool)
    ensures ok <==> ValidRows(rows)
  {
    var seen: set<(Kind, int)> := {};
    var i := 0;
    while i < |rows|
      invariant 0 <= i <= |rows| && ValidRows(rows[..i])
      invariant forall k :: k in seen <==> exists j :: 0 <= j < i && rows[j].Row? && (rows[j].kind, rows[j].id) == k
    {
      if !RowOk(rows[i]) || (rows[i].kind, rows[i].id) in seen {
        return false;
      }
      seen := seen + {(rows[i].kind, rows[i].id)};
      assert rows[..i + 1] == rows[..i] + [rows[i]];
      i := i + 1;
    }
    assert rows[..i] == rows;
    ok := true;
  }

  // ------------------------------------------------------------------ paging

  datatype Page = Page(body: seq<Row>, meta: Headers)

  datatype Reply = NotModified | Content(body: Option<seq<Row>>) | Failure

  /** One request as it would go: seconds since the read began before and after it, its reply and size. */
  datatype Exchange = Exchange(
    before: real, after: real, started: real, received: real, reply: Reply, headers: Headers, size: nat)

  const BODY_LIMIT := 4 * 1024 * 1024
  const SNAPSHOT_LIMIT := 8 * 1024 * 1024
  const ROW_LIMIT := 20000

  /** The page an exchange yields; a 304 keeps the cached body but only page count and validator of its headers. */
  function Resolve(previous: seq<Page>, i: nat, x: Exchange): Option<Page> {
    match x.reply
    case Failure => None
    case Content(body) => if body.None? || x.size > BODY_LIMIT then None else Some(Page(body.value, x.headers))
    case NotModified =>
      if i >= |previous| then None
      else
        var cached := previous[i];
        Some(Page(cached.body, x.headers.(
                  pages := if x.headers.pages.Unstated? then cached.meta.pages else x.headers.pages,
                  etag := if x.headers.etag.None? then cached.meta.etag else x.headers.etag)))
  }

  function Declared(meta: Headers): int { if meta.pages.Pages? then meta.pages.n else 1 }

  predicate PageOk(previous: seq<Page>, x: Exchange, i: nat, count: int) {
    && x.before < 30.0 && x.after < 30.0
    && Resolve(previous, i, x).Some?
    && !Resolve(previous, i, x).value.meta.pages.Unreadable?
    && Declared(Resolve(previous, i, x).value.meta) == count
  }

  function PageAt(previous: seq<Page>, i: nat, x: Exchange): seq<Page> {
    if Resolve(previous, i, x).Some? then [Resolve(previous, i, x).value] else []
  }

  function Fetched(previous: seq<Page>, env: nat -> Exchange, n: nat): seq<Page> {
    if n == 0 then [] else Fetched(previous, env, n - 1) + PageAt(previous, n - 1, env(n - 1))
  }

  function Rows(previous: seq<Page>, env: nat -> Exchange, n: nat): seq<Row> {
    if n == 0 then []
    else Rows(previous, env, n - 1) + if PageAt(previous, n - 1, env(n - 1)) == [] then [] else PageAt(previous, n - 1, env(n - 1))[0].body
  }

  function Bytes(env: nat -> Exchange, n: nat): nat { if n == 0 then 0 else Bytes(env, n - 1) + env(n - 1).size }

  function DeadlineOf(previous: seq<Page>, i: nat, x: Exchange): Deadline {
    if Resolve(previous, i, x).Some? then Freshness(Resolve(previous, i, x).value.meta, x.started, x.received)
    else Deadline(x.received, true)
  }

  /** The page count every page must repeat. */
  function Count(previous: seq<Page>, env: nat -> Exchange): int {
    if Resolve(previous, 0, env(0)).Some? then Declared(Resolve(previous, 0, env(0)).value.meta) else 1
  }

  /** The first n pages fit together and stay within every bound. */
  ghost predicate Together(previous: seq<Page>, env: nat -> Exchange, n: nat) {
    && 1 <= Count(previous, env) <= 100
    && (forall i :: 0 <= i < n ==> PageOk(previous, env(i), i, Count(previous, env)))
    && Bytes(env, n) <= SNAPSHOT_LIMIT
    && |Rows(previous, env, n)| <= ROW_LIMIT
    && ValidRows(Rows(previous, env, n))
  }

  /** A complete snapshot: all pages fit together, and of several none has expired or has unusable headers. */
  ghost predicate Coherent(previous: seq<Page>, env: nat -> Exchange, now: real) {
    && 1 <= Count(previous, env) && Together(previous, env, Count(previous, env))
    && (Count(previous, env) > 1 ==>
          forall i :: 0 <= i < Count(previous, env) ==>
            !DeadlineOf(previous, i, env(i)).degraded && now < DeadlineOf(previous, i, env(i)).at)
  }

  lemma {:induction false} FewerTogether(previous: seq<Page>, env: nat -> Exchange, k: nat, n: nat)
    requires k <= n && Together(previous, env, n)
    ensures Together(previous, env, k)
    decreases n
  {
    if k < n {
      var rows := Rows(previous, env, n);
      var fewer := Rows(previous, env, n - 1);
      assert rows[..|fewer|] == fewer;
      assert forall i :: 0 <= i < |fewer| ==> fewer[i] == rows[i];
      FewerTogether(previous, env, k, n - 1);
    }
  }

  /** A page of a coherent snapshot is valid by itself. */
  lemma PageRowsValid(previous: seq<Page>, env: nat -> Exchange, n: nat, page: Page)
    requires Together(previous, env, n + 1) && Resolve(previous, n, env(n)) == Some(page)
    ensures ValidRows(page.body)
  {
    var rows, fewer := Rows(previous, env, n + 1), Rows(previous, env, n);
    assert rows == fewer + page.body;
    assert forall i :: 0 <= i < |page.body| ==> page.body[i] == rows[|fewer| + i];
  }

  // ------------------------------------------------- what a snapshot consists of

  /**
    Page i as the exchange gives it: a body in full under its own headers, or after a 304 the cached body. The
    304's own dates and cache directives count then, but an absent page count or validator is the cached one.
   */
  ghost predicate Serves(previous: seq<Page>, i: nat, x: Exchange, page: Page) {
    || (x.reply == Content(Some(page.body)) && x.size <= 4 * 1024 * 1024 && page.meta == x.headers)
    || (&& x.reply.NotModified? && i < |previous| && page.body == previous[i].body
        && page.meta.date == x.headers.date && page.meta.expires == x.headers.expires && page.meta.age == x.headers.age
        && page.meta.maxAge == x.headers.maxAge && page.meta.noCache == x.headers.noCache && page.meta.noStore == x.headers.noStore
        && page.meta.pages == (if x.headers.pages != Unstated then x.headers.pages else previous[i].meta.pages)
        && page.meta.etag == (if x.headers.etag != None then x.headers.etag else previous[i].meta.etag))
  }

  lemma ResolveServes(previous: seq<Page>, i: nat, x: Exchange, page: Page)
    ensures Resolve(previous, i, x) == Some(page) <==> Serves(previous, i, x, page)
  {
  }

  /** A page in time that says there are this many pages; a page without a count says there is one. */
  ghost predicate PageFits(previous: seq<Page>, i: nat, x: Exchange, page: Page, count: nat) {
    && x.before < 30.0 && x.after < 30.0 && Serves(previous, i, x, page)
    && (page.meta.pages == Pages(count) || (page.meta.pages.Unstated? && count == 1))
  }

  function Joined(pages: seq<Page>): seq<Row> {
    if pages == [] then [] else pages[0].body + Joined(pages[1..])
  }

  /** One to a hundred pages in time that agree on their number, with every row sound and within every bound. */
  ghost predicate Snapshot(previous: seq<Page>, env: nat -> Exchange, pages: seq<Page>, now: real) {
    && 1 <= |pages| <= 100
    && (forall i :: 0 <= i < |pages| ==> PageFits(previous, i, env(i), pages[i], |pages|))
    && Bytes(env, |pages|) <= 8 * 1024 * 1024 && |Joined(pages)| <= 20000 && ValidRows(Joined(pages))
    && (|pages| > 1 ==> forall i :: 0 <= i < |pages| ==> Sound(pages[i], env(i), now))
  }

  ghost predicate Sound(page: Page, x: Exchange, now: real) {
    !Freshness(page.meta, x.started, x.received).degraded && now < Freshness(page.meta, x.started, x.received).at
  }

  lemma {:induction false} JoinedAppend(pages: seq<Page>, page: Page)
    ensures Joined(pages + [page]) == Joined(pages) + page.body
  {
    if pages != [] {
      assert (pages + [page])[1..] == pages[1..] + [page];
      JoinedAppend(pages[1..], page);
    }
  }

  lemma {:induction false} FetchedPages(previous: seq<Page>, env: nat -> Exchange, pages: seq<Page>, n: nat)
    requires n <= |pages| && forall i :: 0 <= i < n ==> Resolve(previous, i, env(i)) == Some(pages[i])
    ensures Fetched(previous, env, n) == pages[..n] && Rows(previous, env, n) == Joined(pages[..n])
  {
    if n > 0 {
      FetchedPages(previous, env, pages, n - 1);
      assert pages[..n] == pages[..n - 1] + [pages[n - 1]];
      JoinedAppend(pages[..n - 1], pages[n - 1]);
    }
  }

  /** A snapshot is what a read puts together, whole and in order. */
  lemma SnapshotIsRead(previous: seq<Page>, env: nat -> Exchange, pages: seq<Page>, now: real)
    requires Snapshot(previous, env, pages, now)
    ensures Coherent(previous, env, now) && Count(previous, env) == |pages|
    ensures Fetched(previous, env, |pages|) == pages && Rows(previous, env, |pages|) == Joined(pages)
    ensures forall i :: 0 <= i < |pages| ==>
              DeadlineOf(previous, i, env(i)) == Freshness(pages[i].meta, env(i).started, env(i).received)
  {
    forall i | 0 <= i < |pages| ensures Resolve(previous, i, env(i)) == Some(pages[i]) && PageOk(previous, env(i), i, |pages|) {
      ResolveServes(previous, i, env(i), pages[i]);
      assert PageFits(previous, i, env(i), pages[i], |pages|);
    }
    FetchedPages(previous, env, pages, |pages|);
    assert pages[..|pages|] == pages;
    forall i | 0 <= i < |pages| && |pages| > 1
      ensures !DeadlineOf(previous, i, env(i)).degraded && now < DeadlineOf(previous, i, env(i)).at
    {
      assert Sound(pages[i], env(i), now);
    }
  }

  /** The other way round, whatever a read puts together is a snapshot. */
  lemma CoherentIsSnapshot(previous: seq<Page>, env: nat -> Exchange, now: real)
    requires Coherent(previous, env, now)
    ensures Snapshot(previous, env, Fetched(previous, env, Count(previous, env)), now)
  {
    var n := Count(previous, env);
    var pages := seq(n, i requires 0 <= i < n => PageOf(previous, env, i));
    forall i | 0 <= i < n ensures Resolve(previous, i, env(i)) == Some(pages[i]) && PageFits(previous, i, env(i), pages[i], n) {
      assert PageOk(previous, env(i), i, n);
      ResolveServes(previous, i, env(i), pages[i]);
    }
    FetchedPages(previous, env, pages, n);
    assert pages[..n] == pages;
    forall i | 0 <= i < n && n > 1 ensures Sound(pages[i], env(i), now) {
      assert !DeadlineOf(previous, i, env(i)).degraded;
    }
  }

  function PageOf(previous: seq<Page>, env: nat -> Exchange, i: nat): Page {
    if Resolve(previous, i, env(i)).Some? then Resolve(previous, i, env(i)).value else Page([], env(i).headers)
  }

  // --------------------------------------------------------------- the class

  datatype ContactRows = ContactRows(rows: seq<Row>, expiresAt: real, degraded: bool)

  /** The earliest of the first n deadlines. */
  function Earliest(previous: seq<Page>, env: nat -> Exchange, n: nat): real
    requires n > 0
  {
    var last := DeadlineOf(previous, n - 1, env(n - 1)).at;
    if n == 1 then last else MinReal(Earliest(previous, env, n - 1), last)
  }

  lemma {:induction false} EarliestIsMin(previous: seq<Page>, env: nat -> Exchange, n: nat, now: real)
    requires n > 0
    ensures now < Earliest(previous, env, n) <==> forall i :: 0 <= i < n ==> now < DeadlineOf(previous, i, env(i)).at
  {
    if n > 1 {
      EarliestIsMin(previous, env, n - 1, now);
    }
  }

  /** What a read has put together after n pages. */
  datatype Staged = Staged(pages: seq<Page>, rows: seq<Row>, count: int, total: nat, expires: real, degraded: bool)

  ghost predicate Progress(previous: seq<Page>, env: nat -> Exchange, n: nat, s: Staged) {
    && s.pages == Fetched(previous, env, n) && s.rows == Rows(previous, env, n) && s.total == Bytes(env, n)
    && (n == 0 ==> s.count == 1 && !s.degraded)
    && (n > 0 ==>
          && s.count == Count(previous, env) && s.expires == Earliest(previous, env, n)
          && (s.degraded <==> exists i :: 0 <= i < n && DeadlineOf(previous, i, env(i)).degraded)
          && 1 <= s.count <= 100 && |s.rows| <= ROW_LIMIT && s.total <= SNAPSHOT_LIMIT
          && forall i :: 0 <= i < n ==> PageOk(previous, env(i), i, s.count))
  }

  /** One turn of the paging loop; None is an error. */
  method NextPage(previous: seq<Page>, env: nat -> Exchange, n: nat, s: Staged) returns (r: Option<Staged>)
    requires Progress(previous, env, n, s) && n < s.count
    ensures r.Some? ==> Progress(previous, env, n + 1, r.value)
    ensures r.None? ==> !Together(previous, env, n + 1)
  {
    var x := env(n);
    var resolved := Resolve(previous, n, x);
    if x.before >= 30.0 || resolved.None? {
      return None;
    }
    var page := resolved.value;
    if s.total + x.size > SNAPSHOT_LIMIT || x.after >= 30.0 || page.meta.pages.Unreadable? {
      return None;
    }
    var declared := Declared(page.meta);
    if !(1 <= declared <= 100) || (n > 0 && declared != s.count) {
      return None;
    }
    var ok := ValidateRows(page.body);
    if !ok || |s.rows| + |page.body| > ROW_LIMIT {
      if Together(previous, env, n + 1) {
        PageRowsValid(previous, env, n, page);
      }
      return None;
    }
    var d := Freshness(page.meta, x.started, x.received);
    assert d == DeadlineOf(previous, n, x);
    r := Some(Staged(s.pages + [page], s.rows + page.body, declared, s.total + x.size,
                     if n == 0 then d.at else MinReal(s.expires, d.at), s.degraded || d.degraded));
  }

  lemma OnePageSpoilsAll(previous: seq<Page>, env: nat -> Exchange, n: nat)
    requires !Together(previous, env, n + 1) && (n == 0 || n < Count(previous, env))
    ensures forall now :: !Coherent(previous, env, now)
  {
    if 1 <= Count(previous, env) && Together(previous, env, Count(previous, env)) {
      FewerTogether(previous, env, n + 1, Count(previous, env));
    }
  }

  method ReadPages(previous: seq<Page>, env: nat -> Exchange) returns (r: Option<Staged>)
    ensures r.Some? ==> r.value.count > 0 && Progress(previous, env, r.value.count, r.value)
    ensures r.None? ==> forall now :: !Coherent(previous, env, now)
  {
    var s := Staged([], [], 1, 0, 0.0, false);
    var n := 0;
    while n < s.count
      invariant 0 <= n <= s.count && Progress(previous, env, n, s)
      invariant n == 0 || s.count == Count(previous, env)
      decreases if n == 0 then 101 else s.count - n
    {
      var next := NextPage(previous, env, n, s);
      if next.None? {
        OnePageSpoilsAll(previous, env, n);
        return None;
      }
      s := next.value;
      n := n + 1;
    }
    r := Some(s);
  }

  lemma CoherentWhen(previous: seq<Page>, env: nat -> Exchange, now: real, s: Staged)
    requires s.count > 0 && Progress(previous, env, s.count, s)
    ensures Coherent(previous, env, now) <==> ValidRows(s.rows) && (s.count > 1 ==> !s.degraded && now < s.expires)
  {
    EarliestIsMin(previous, env, s.count, now);
  }

  /** The rows of all pages in order, usable until the earliest deadline of any page. */
  ghost predicate Delivers(r: ContactRows, env: nat -> Exchange, pages: seq<Page>) {
    && r.rows == Joined(pages)
    && (forall i :: 0 <= i < |pages| ==> r.expiresAt <= Freshness(pages[i].meta, env(i).started, env(i).received).at)
    && (exists i :: 0 <= i < |pages| && r.expiresAt == Freshness(pages[i].meta, env(i).started, env(i).received).at)
    && (r.degraded <==> exists i :: 0 <= i < |pages| && Freshness(pages[i].meta, env(i).started, env(i).received).degraded)
  }

  lemma ReadMeans(previous: seq<Page>, env: nat -> Exchange, now: real)
    ensures Coherent(previous, env, now) <==> exists pages :: Snapshot(previous, env, pages, now)
    ensures forall pages, r :: Snapshot(previous, env, pages, now) && ReadAs(previous, env, r) ==> Delivers(r, env, pages)
  {
    if Coherent(previous, env, now) {
      CoherentIsSnapshot(previous, env, now);
    }
    forall pages | Snapshot(previous, env, pages, now) ensures Coherent(previous, env, now) {
      SnapshotIsRead(previous, env, pages, now);
    }
    forall pages, r | Snapshot(previous, env, pages, now) && ReadAs(previous, env, r) ensures Delivers(r, env, pages) {
      SnapshotIsRead(previous, env, pages, now);
      DeliversAll(previous, env, pages, r);
    }
  }

  ghost predicate ReadAs(previous: seq<Page>, env: nat -> Exchange, r: ContactRows) {
    var n := Count(previous, env);
    && 0 < n && r.rows == Rows(previous, env, n) && r.expiresAt == Earliest(previous, env, n)
    && (r.degraded <==> exists i :: 0 <= i < n && DeadlineOf(previous, i, env(i)).degraded)
  }

  lemma {:induction false} EarliestIsOne(previous: seq<Page>, env: nat -> Exchange, n: nat)
    requires n > 0
    ensures forall i :: 0 <= i < n ==> Earliest(previous, env, n) <= DeadlineOf(previous, i, env(i)).at
    ensures exists i :: 0 <= i < n && Earliest(previous, env, n) == DeadlineOf(previous, i, env(i)).at
  {
    if n > 1 {
      EarliestIsOne(previous, env, n - 1);
    }
    assert Earliest(previous, env, n) == DeadlineOf(previous, n - 1, env(n - 1)).at
           || (n > 1 && Earliest(previous, env, n) == Earliest(previous, env, n - 1));
  }

  lemma DeliversAll(previous: seq<Page>, env: nat -> Exchange, pages: seq<Page>, r: ContactRows)
    requires |pages| > 0 && Count(previous, env) == |pages| && ReadAs(previous, env, r)
    requires Rows(previous, env, |pages|) == Joined(pages)
    requires forall i :: 0 <= i < |pages| ==>
               DeadlineOf(previous, i, env(i)) == Freshness(pages[i].meta, env(i).started, env(i).received)
    ensures Delivers(r, env, pages)
  {
    EarliestIsOne(previous, env, |pages|);
  }

  type Context = string

  class ContactHttpReader {
    var pages: map<Context, seq<Page>>
    // Least recently written first.
    var order: seq<Context>

    ghost predicate Valid()
      reads this
    {
      && |order| <= 6
      && Distinct(order)
      && (forall c :: c in pages <==> c in order)
    }

    function Previous(c: Context): seq<Page>
      reads this
    {
      if c in pages then pages[c] else []
    }

    constructor ()
      ensures Valid() && pages == map[]
    {
      pages, order := map[], [];
    }

    /** read: all pages or none; only a complete snapshot replaces the cached one. */
    method Read(c: Context, env: nat -> Exchange, now: real) returns (r: Option<ContactRows>)
      requires Valid()
      modifies this
      ensures Valid()
      ensures r.Some? <==> Coherent(old(Previous(c)), env, now)
      ensures r.None? ==> pages == old(pages) && order == old(order)
      ensures r.Some? ==>
                var previous := old(Previous(c));
                var n := Count(previous, env);
                && 0 < n
                && r.value.rows == Rows(previous, env, n)
                && r.value.expiresAt == Earliest(previous, env, n)
                && (r.value.degraded <==> exists i :: 0 <= i < n && DeadlineOf(previous, i, env(i)).degraded)
                && Committed(old(pages), old(order), c, Fetched(previous, env, n))
      // The same without naming how the pages are put together.
      ensures r.Some? <==> exists whole :: Snapshot(old(Previous(c)), env, whole, now)
      ensures forall whole :: Snapshot(old(Previous(c)), env, whole, now) ==> r.Some? && Delivers(r.value, env, whole)
    {
      var previous := Previous(c);
      ReadMeans(previous, env, now);
      var staged := ReadPages(previous, env);
      if staged.None? {
        return None;
      }
      var s := staged.value;
      var ok := ValidateRows(s.rows);
      CoherentWhen(previous, env, now, s);
      if !ok || (s.count > 1 && (s.degraded || s.expires <= now)) {
        return None;
      }
      CommitPages(c, s.pages);
      r := Some(ContactRows(s.rows, s.expires, s.degraded));
    }

    /** The cache after a success: this context last, at most six kept, oldest out; no-store keeps nothing. */
    ghost predicate Committed(before: map<Context, seq<Page>>, was: seq<Context>, c: Context, staged: seq<Page>)
      reads this
    {
      var kept := Without(was, c);
      if NoStore(staged) then pages == before - {c} && order == kept
      else
        && order == (if |kept| > 5 then kept[1..] else kept) + [c]
        && c in pages && pages[c] == staged
        && forall k :: k in pages && k != c ==> k in before && pages[k] == before[k]
    }

    method CommitPages(c: Context, staged: seq<Page>)
      requires Valid()
      modifies this
      ensures Valid() && Committed(old(pages), old(order), c, staged)
    {
      WithoutIsDistinct(order, c);
      order := Without(order, c);
      pages := pages - {c};
      if !NoStore(staged) {
        Keep(c, staged);
      }
    }

    method Keep(c: Context, staged: seq<Page>)
      requires Valid() && c !in order
      modifies this
      ensures Valid()
      ensures order == (if |old(order)| > 5 then old(order)[1..] else old(order)) + [c]
      ensures c in pages && pages[c] == staged
      ensures forall k :: k in pages && k != c ==> k in old(pages) && pages[k] == old(pages)[k]
    {
      if |order| > 5 {
        pages := pages - {order[0]};
        order := order[1..];
      }
      assert c !in order;
      pages := pages[c := staged];
      order := order + [c];
    }
  }

  predicate NoStore(staged: seq<Page>) { exists i :: 0 <= i < |staged| && staged[i].meta.noStore }
}
