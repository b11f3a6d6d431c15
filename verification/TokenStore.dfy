/**
  Token refresh against login and logout: the versioned store of app/esi/sso.py and the refresh of
  app/esi/session.py. The parts between which other threads may act are the steps.
 */
module TokenStore {
  import opened Common

  datatype TokenSet = TokenSet(access: string, refresh: string, character: Option<int>, rest: string)

  /** A refresh under the refresh lock, after its versioned load; `reply` is what the exchange returned. */
  datatype Flight = Flight(previous: TokenSet, revision: nat, reply: Option<TokenSet>)

  /** A successful exchange: of the stored token of that revision; `failed` says that its save raised. */
  datatype Exchange = Exchange(previous: TokenSet, revision: nat, reply: TokenSet, failed: bool)

  /**
    `file` and `revision` are the store. The rest is history: `line` is the latest login and its refreshes
    ([] after a logout), `start` the revision of that login or logout, `log` every successful exchange.
   */
  datatype State = State(
    file: Option<TokenSet>, revision: nat, flight: Option<Flight>,
    line: seq<TokenSet>, start: nat, log: seq<Exchange>)

  datatype Step =
    | Login(tokens: TokenSet, saved: bool)
    | Logout(saved: bool)
    | Begin(tokens: TokenSet)
    | Reply(exchanged: Option<TokenSet>)
    | Publish(saved: bool)

  function Init(file: Option<TokenSet>): State {
    State(file, 0, None, if file.Some? then [file.value] else [], 0, [])
  }

  /** A reply without a refresh token keeps the old one. */
  function Inherit(reply: TokenSet, previous: TokenSet): TokenSet {
    if reply.refresh == "" then reply.(refresh := previous.refresh) else reply
  }

  predicate CanPublish(s: State) {
    s.flight.Some? && s.flight.value.reply.Some? && s.revision == s.flight.value.revision
    && s.file == Some(s.flight.value.previous)
  }

  /** One atomic step; one that is not enabled, or raises before it writes, changes nothing. */
  function Next(s: State, e: Step): State {
    match e
    case Login(tokens, saved) =>
      if !saved then s
      else s.(file := Some(tokens), revision := s.revision + 1, line := [tokens], start := s.revision + 1)
    case Logout(saved) =>
      if !saved then s
      else s.(file := None, revision := s.revision + 1, line := [], start := s.revision + 1)
    case Begin(tokens) =>
      if s.flight.Some? || s.file != Some(tokens) || tokens.refresh == "" then s
      else s.(flight := Some(Flight(tokens, s.revision, None)))
    case Reply(exchanged) =>
      if s.flight.None? || s.flight.value.reply.Some? then s
      else if exchanged.None? then s.(flight := None)
      else
        var f := s.flight.value;
        var reply := Inherit(exchanged.value, f.previous);
        s.(flight := Some(f.(reply := Some(reply))), log := s.log + [Exchange(f.previous, f.revision, reply, false)])
    case Publish(saved) =>
      if s.flight.None? || s.flight.value.reply.None? then s
      else if !CanPublish(s) then s.(flight := None)
      else if saved then
        var reply := s.flight.value.reply.value;
        s.(file := Some(reply), revision := s.revision + 1, flight := None, line := s.line + [reply])
      else if s.log == [] then s.(flight := None)
      else s.(flight := None, log := s.log[|s.log| - 1 := s.log[|s.log| - 1].(failed := true)])
  }

  function After(s: State, run: seq<Step>): State
    decreases |run|
  {
    if run == [] then s else After(Next(s, run[0]), run[1..])
  }

  // -------------------------------------------------------------- invariants

  /** The stored token is the end of the line that began with the latest login; nothing is stored after a logout. */
  ghost predicate EndsLine(s: State) {
    if s.line == [] then s.file.None? && s.revision == s.start
    else s.file == Some(s.line[|s.line| - 1]) && s.revision + 1 == s.start + |s.line|
  }

  /** Every refresh in the line is the reply to the exchange of the token stored just before it. */
  ghost predicate Descends(s: State) {
    forall i :: 0 <= i < |s.line| - 1 ==> Link(s, i) in s.log
  }

  function Link(s: State, i: nat): Exchange
    requires i + 1 < |s.line|
  {
    Exchange(s.line[i], s.start + i, s.line[i + 1], false)
  }

  /** One revision is exchanged again only after a failed save. */
  ghost predicate ExchangedOnce(s: State) {
    forall i, j :: 0 <= i < j < |s.log| ==>
      s.log[i].revision <= s.log[j].revision && (s.log[i].revision == s.log[j].revision ==> s.log[i].failed)
  }

  /** The exchange of the flight, when it is not yet answered for. */
  predicate Answered(s: State) { s.flight.Some? && s.flight.value.reply.Some? }

  function SettledCount(s: State): nat { if Answered(s) && |s.log| > 0 then |s.log| - 1 else |s.log| }

  ghost predicate FlightFits(s: State) {
    && (s.flight.Some? ==>
          && s.flight.value.revision <= s.revision
          && (s.flight.value.revision == s.revision ==> s.file == Some(s.flight.value.previous))
          && (forall i :: 0 <= i < SettledCount(s) ==>
                s.log[i].revision <= s.flight.value.revision
                && (s.log[i].revision == s.flight.value.revision ==> s.log[i].failed)))
    && (Answered(s) ==>
          |s.log| > 0
          && s.log[|s.log| - 1] == Exchange(s.flight.value.previous, s.flight.value.revision, s.flight.value.reply.value, false))
  }

  ghost predicate PastSettled(s: State) {
    forall i :: 0 <= i < SettledCount(s) ==> s.log[i].revision <= s.revision && (s.log[i].revision == s.revision ==> s.log[i].failed)
  }

  /** Only refreshable tokens are exchanged, and every reply stays refreshable. */
  ghost predicate Refreshable(s: State) {
    && (s.flight.Some? ==> s.flight.value.previous.refresh != "")
    && (forall x :: x in s.log ==> x.previous.refresh != "" && x.reply.refresh != "")
  }

  ghost predicate Inv(s: State) {
    Refreshable(s) && EndsLine(s) && Descends(s) && ExchangedOnce(s) && FlightFits(s) && PastSettled(s)
  }

  // ------------------------------------------------------------------ lemmas

  lemma NewLineKeeps(s: State, e: Step)
    requires Inv(s) && (e.Login? || e.Logout?)
    ensures Inv(Next(s, e))
  {
  }

  lemma BeginKeeps(s: State, tokens: TokenSet)
    requires Inv(s)
    ensures Inv(Next(s, Begin(tokens)))
  {
    var u := Next(s, Begin(tokens));
    SameLine(s, u);
  }

  lemma SameLine(s: State, u: State)
    requires Descends(s) && u.line == s.line && u.start == s.start
    requires forall x :: x in s.log && !x.failed ==> x in u.log
    ensures Descends(u)
  {
    forall i | 0 <= i < |u.line| - 1 ensures Link(u, i) in u.log {
      assert Link(s, i) in s.log;
    }
  }

  lemma SuccessKeeps(s: State, e: Step)
    requires Inv(s) && e.Reply? && e.exchanged.Some? && s.flight.Some? && !Answered(s)
    ensures Inv(Next(s, e))
  {
    var u := Next(s, e);
    SameLine(s, u);
    LoggedOnce(s, u.log[|s.log|]);
    assert u.log[..SettledCount(u)] == s.log;
  }

  lemma ReplyKeeps(s: State, e: Step)
    requires Inv(s) && e.Reply?
    ensures Inv(Next(s, e))
  {
    if e.exchanged.Some? && s.flight.Some? && !Answered(s) {
      SuccessKeeps(s, e);
    } else {
      SameLine(s, Next(s, e));
    }
  }

  lemma LoggedOnce(s: State, x: Exchange)
    requires Inv(s) && s.flight.Some? && !Answered(s) && x.revision == s.flight.value.revision
    ensures ExchangedOnce(s.(log := s.log + [x]))
  {
    var log := s.log + [x];
    assert forall i :: 0 <= i < |s.log| ==> log[i] == s.log[i];
  }

  /** A refresh publishes only over the very revision it exchanged. */
  lemma PublishExtendsLine(s: State)
    requires Inv(s) && CanPublish(s)
    ensures Inv(Next(s, Publish(true)))
  {
    var u := Next(s, Publish(true));
    var last := |s.line| - 1;
    assert s.log[|s.log| - 1] in u.log;
    assert Link(u, last) == s.log[|s.log| - 1];
    forall i | 0 <= i < |u.line| - 1 ensures Link(u, i) in u.log {
      if i < last {
        assert Link(u, i) == Link(s, i) && Link(s, i) in s.log;
      }
    }
  }

  lemma FailedPublishKeeps(s: State)
    requires Inv(s) && CanPublish(s)
    ensures Inv(Next(s, Publish(false)))
  {
    var u := Next(s, Publish(false));
    forall i | 0 <= i < |u.line| - 1 ensures Link(u, i) in u.log {
      assert Link(s, i) in s.log;
      var n :| 0 <= n < |s.log| && s.log[n] == Link(s, i);
      assert s.log[|s.log| - 1].revision == s.revision;
      assert u.log[n] == s.log[n];
    }
  }

  lemma DroppedPublishKeeps(s: State)
    requires Inv(s) && !CanPublish(s)
    ensures Inv(Next(s, Publish(true))) && Next(s, Publish(true)) == Next(s, Publish(false))
  {
    SameLine(s, Next(s, Publish(true)));
  }

  lemma StepKeepsInv(s: State, e: Step)
    requires Inv(s)
    ensures Inv(Next(s, e))
  {
    match e
    case Login(_, _) => NewLineKeeps(s, e);
    case Logout(_) => NewLineKeeps(s, e);
    case Begin(tokens) => BeginKeeps(s, tokens);
    case Reply(_) => ReplyKeeps(s, e);
    case Publish(saved) =>
      if !CanPublish(s) {
        DroppedPublishKeeps(s);
      } else if saved {
        PublishExtendsLine(s);
      } else {
        FailedPublishKeeps(s);
      }
  }

  /** The latest login among the saved steps of a run; None after a logout. */
  function Latest(before: Option<TokenSet>, run: seq<Step>): Option<TokenSet>
    decreases |run|
  {
    if run == [] then before
    else
      Latest(match run[0]
             case Login(tokens, true) => Some(tokens)
             case Logout(true) => None
             case _ => before,
             run[1..])
  }

  function Head(line: seq<TokenSet>): Option<TokenSet> { if line == [] then None else Some(line[0]) }

  lemma {:induction false} RunsFrom(s: State, run: seq<Step>)
    requires Inv(s)
    ensures Inv(After(s, run)) && Head(After(s, run).line) == Latest(Head(s.line), run)
    decreases |run|
  {
    if run != [] {
      StepKeepsInv(s, run[0]);
      RunsFrom(Next(s, run[0]), run[1..]);
    }
  }

  /**
    Every interleaving of refreshes with logins and logouts: the stored token is the latest login or what
    its chain of exchanges gave, each link exchanging the revision just before; after a logout there is none.
   */
  lemma StoredDescendsFromLatest(file: Option<TokenSet>, run: seq<Step>)
    ensures var s := After(Init(file), run);
            && Inv(s)
            && Head(s.line) == Latest(file, run)
            && s.file == (if s.line == [] then None else Some(s.line[|s.line| - 1]))
  {
    RunsFrom(Init(file), run);
  }

  /** A refresh never loses the means to refresh: whatever follows the login in the chain carries a refresh token. */
  lemma ChainStaysRefreshable(file: Option<TokenSet>, run: seq<Step>, i: nat)
    requires 0 < i < |After(Init(file), run).line|
    ensures After(Init(file), run).line[i].refresh != ""
  {
    RunsFrom(Init(file), run);
    var s := After(Init(file), run);
    assert Link(s, i - 1) in s.log;
  }

  lemma {:induction false} NoFailedSave(s: State, run: seq<Step>)
    requires Publish(false) !in run && forall i :: 0 <= i < |s.log| ==> !s.log[i].failed
    ensures forall i :: 0 <= i < |After(s, run).log| ==> !After(s, run).log[i].failed
    decreases |run|
  {
    if run != [] {
      var u := Next(s, run[0]);
      assert run[0] in run;
      assert forall i :: 0 <= i < |u.log| ==> !u.log[i].failed;
      NoFailedSave(u, run[1..]);
    }
  }

  /** While saves succeed, one stored revision is exchanged at most once. */
  lemma EachRevisionExchangedOnce(file: Option<TokenSet>, run: seq<Step>)
    requires Publish(false) !in run
    ensures var log := After(Init(file), run).log;
            forall i, j :: 0 <= i < j < |log| ==> log[i].revision < log[j].revision
  {
    RunsFrom(Init(file), run);
    NoFailedSave(Init(file), run);
  }

  /** A failed save leaves the exchanged token stored, so the next refresh exchanges it again. */
  lemma FailedSaveRepeats(s: State, a: TokenSet, b: TokenSet)
    requires Inv(s) && s.flight.None? && s.file.Some? && s.file.value.refresh != ""
    ensures var u := Next(Next(Next(s, Begin(s.file.value)), Reply(Some(a))), Publish(false));
            var v := Next(Next(u, Begin(s.file.value)), Reply(Some(b)));
            && u.file == s.file && u.revision == s.revision
            && |v.log| == |s.log| + 2
            && v.log[|s.log|].revision == v.log[|s.log| + 1].revision && v.log[|s.log|].failed
  {
    var t := s.file.value;
    var s1 := Next(s, Begin(t));
    var s2 := Next(s1, Reply(Some(a)));
    assert |s2.log| == |s.log| + 1 && CanPublish(s2);
    var u := Next(s2, Publish(false));
    assert |u.log| == |s.log| + 1 && u.log[|s.log|].failed && u.flight.None?;
    var u1 := Next(u, Begin(t));
    assert u1.flight == Some(Flight(t, s.revision, None));
  }

  // ------------------------------------------------------------- the classes

  class EsiTokenStore {
    var file: Option<TokenSet>
    var revision: nat
    var refreshing: Option<Flight>
    ghost var line: seq<TokenSet>
    ghost var start: nat
    ghost var log: seq<Exchange>

    ghost function Now(): State
      reads this
    {
      State(file, revision, refreshing, line, start, log)
    }

    constructor (file: Option<TokenSet>)
      ensures Now() == Init(file)
    {
      this.file, revision, refreshing := file, 0, None;
      line, start, log := if file.Some? then [file.value] else [], 0, [];
    }

    /** save replaces the file and moves the revision, or raises before either. */
    method Save(tokens: TokenSet, disk: bool) returns (saved: bool)
      modifies this`file, this`revision
      ensures saved == disk
      ensures file == (if saved then Some(tokens) else old(file))
      ensures revision == old(revision) + (if saved then 1 else 0)
    {
      saved := disk;
      if disk {
        file := Some(tokens);
        revision := revision + 1;
      }
    }

    method LogIn(tokens: TokenSet, disk: bool) returns (saved: bool)
      modifies this
      ensures saved == disk && Now() == Next(old(Now()), Login(tokens, saved))
      ensures if saved then file == Some(tokens) && revision == old(revision) + 1 else file == old(file) && revision == old(revision)
    {
      saved := Save(tokens, disk);
      if saved {
        line, start := [tokens], revision;
      }
    }

    /** clear: a missing file is no error. */
    method Clear(disk: bool) returns (cleared: bool)
      modifies this
      ensures cleared == disk && Now() == Next(old(Now()), Logout(cleared))
      ensures if cleared then file == None && revision == old(revision) + 1 else file == old(file) && revision == old(revision)
    {
      cleared := disk;
      if disk {
        file := None;
        revision := revision + 1;
        line, start := [], revision;
      }
    }

    method SaveIfUnchanged(tokens: TokenSet, previous: TokenSet, expected: nat, disk: bool) returns (saved: Option<bool>)
      modifies this`file, this`revision
      ensures var fits := old(revision) == expected && old(file) == Some(previous);
              && saved == (if !fits then Some(false) else if disk then Some(true) else None)
              && file == (if saved == Some(true) then Some(tokens) else old(file))
              && revision == old(revision) + (if saved == Some(true) then 1 else 0)
    {
      if revision != expected || file != Some(previous) {
        return Some(false);
      }
      var done := Save(tokens, disk);
      saved := if done then Some(true) else None;
    }

    /** refresh_tokens under the refresh lock: the caller's token already replaced, no token to refresh, or go. */
    method BeginRefresh(tokens: TokenSet) returns (r: Option<TokenSet>, go: bool)
      requires refreshing.None?
      modifies this`refreshing
      ensures Now() == Next(old(Now()), Begin(tokens))
      ensures go <==> refreshing.Some?
      ensures r == (if file != Some(tokens) then file else None)
      // Only the stored token is exchanged, and only if it can be.
      ensures go <==> file == Some(tokens) && tokens.refresh != ""
      ensures go ==> refreshing == Some(Flight(tokens, revision, None))
    {
      r, go := None, false;
      if file.None? {
        return;
      }
      if file != Some(tokens) {
        return file, false;
      }
      if tokens.refresh == "" {
        return;
      }
      refreshing := Some(Flight(tokens, revision, None));
      go := true;
    }

    /** The exchange itself, during which the lock on the store is free. */
    method Receive(exchanged: Option<TokenSet>)
      requires refreshing.Some? && refreshing.value.reply.None?
      modifies this
      ensures Now() == Next(old(Now()), Reply(exchanged))
      ensures file == old(file) && revision == old(revision)
      ensures exchanged.None? ==> refreshing.None?
      // The exchanged token itself is kept for saving; only an absent refresh token is inherited.
      ensures exchanged.Some? ==>
                && refreshing.Some? && refreshing.value.reply.Some?
                && refreshing.value.previous == old(refreshing).value.previous
                && refreshing.value.revision == old(refreshing).value.revision
                && refreshing.value.reply.value.access == exchanged.value.access
                && refreshing.value.reply.value.character == exchanged.value.character
                && refreshing.value.reply.value.rest == exchanged.value.rest
                && refreshing.value.reply.value.refresh ==
                   (if exchanged.value.refresh != "" then exchanged.value.refresh else old(refreshing).value.previous.refresh)
    {
      if exchanged.None? {
        refreshing := None;
        return;
      }
      var f := refreshing.value;
      var reply := exchanged.value;
      if reply.refresh == "" {
        reply := reply.(refresh := f.previous.refresh);
      }
      refreshing := Some(f.(reply := Some(reply)));
      log := log + [Exchange(f.previous, f.revision, reply, false)];
    }

    /** The end of refresh_tokens: None is an error for the caller, a conflict or a failed save. */
    method PublishRefresh(disk: bool) returns (r: Option<TokenSet>)
      requires refreshing.Some? && refreshing.value.reply.Some?
      modifies this
      ensures Now() == Next(old(Now()), Publish(disk))
      ensures r == (if old(CanPublish(Now())) && disk then file else None)
      // It is stored and handed out together, and only over the very token and revision that were exchanged.
      ensures var f := old(refreshing).value;
              if disk && old(file) == Some(f.previous) && old(revision) == f.revision
              then r == f.reply && file == f.reply && revision == old(revision) + 1
              else r.None? && file == old(file) && revision == old(revision)
      ensures refreshing.None?
    {
      var f := refreshing.value;
      var saved := SaveIfUnchanged(f.reply.value, f.previous, f.revision, disk);
      refreshing := None;
      if saved == Some(true) {
        line := line + [f.reply.value];
        return f.reply;
      }
      if saved.None? && log != [] {
        log := log[|log| - 1 := log[|log| - 1].(failed := true)];
      }
      r := None;
    }
  }
}
