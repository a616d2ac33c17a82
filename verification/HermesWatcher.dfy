/** The watcher of the Hermes state database.  A poll takes its lock twice, for a
    snapshot and for a commit, and reads the database and calls back in between,
    so the setters may run anywhere inside it. */
module HermesWatching {

  /** A message row; times start at 1 and 0 stands for "no message yet". */
  datatype Msg = Msg(session: string, ts: nat, role: string, content: string)

  datatype Watch = Watch(sessionID: string, lastTS: nat, seeded: bool)

  /** How a poll goes on after its snapshot. */
  datatype Next = Done | SwitchTo(session: string) | Load(session: string, after: nat)

  /** Messages in order of arrival; MAX(timestamp) of one session. */
  function MaxTS(db: seq<Msg>, session: string): (t: nat)
    ensures forall i :: 0 <= i < |db| && db[i].session == session ==> db[i].ts <= t
  {
    if db == [] then 0
    else
      var r := MaxTS(db[..|db| - 1], session);
      var m := db[|db| - 1];
      if m.session == session && m.ts > r then m.ts else r
  }

  /** The rows of one session after a time, in order of arrival, which is the order
      of their times. */
  function Rows(db: seq<Msg>, session: string, after: nat): seq<Msg> {
    if db == [] then []
    else
      var m := db[|db| - 1];
      Rows(db[..|db| - 1], session, after) + (if m.session == session && m.ts > after then [m] else [])
  }

  /** Times increase within each session. */
  ghost predicate Growing(db: seq<Msg>) {
    && (forall i :: 0 <= i < |db| ==> db[i].ts > 0 && db[i].session != "")
    && (forall i, j :: 0 <= i < j < |db| && db[i].session == db[j].session ==> db[i].ts < db[j].ts)
  }

  function SnapshotOf(w: Watch, latest: string, latestTS: nat): (Watch, Next) {
    if w.sessionID == "" then (Watch(latest, latestTS, true), Done)
    else if latest != w.sessionID then (w, SwitchTo(latest))
    else if !w.seeded then (w.(lastTS := latestTS, seeded := true), Done)
    else if latestTS <= w.lastTS then (w, Done)
    else (w, Load(w.sessionID, w.lastTS))
  }

  function Committed(w: Watch, session: string, newLast: nat): Watch {
    if w.sessionID == session && newLast > w.lastTS then w.(lastTS := newLast) else w
  }

  /** `readable` is false when the database cannot be read. */
  function Tracking(session: string, db: seq<Msg>, readable: bool): Watch {
    Watch(session, if readable && session != "" then MaxTS(db, session) else 0, true)
  }

  /** The watcher's fields and the pieces of a poll between which the setters may
      run. */
  class HermesDBWatcher {
    var sessionID: string
    var lastTS: nat
    var seeded: bool
    var sent: seq<Msg>          // events handed to the callback
    var switches: seq<string>   // calls of the session-switch callback

    ghost function View(): Watch
      reads this
    {
      Watch(sessionID, lastTS, seeded)
    }

    constructor (initialSession: string)
      ensures View() == Watch(initialSession, 0, false) && sent == [] && switches == []
    {
      sessionID, lastTS, seeded, sent, switches := initialSession, 0, false, [], [];
    }

    method SetSessionID(session: string, db: seq<Msg>, readable: bool)
      modifies this`sessionID, this`lastTS, this`seeded
      ensures View() == Tracking(session, db, readable)
    {
      sessionID := session;
      lastTS := 0;
      if readable && session != "" {
        for i := 0 to |db|
          invariant lastTS == MaxTS(db[..i], session) && sessionID == session
        {
          assert db[..i + 1][..i] == db[..i];
          if db[i].session == session && db[i].ts > lastTS {
            lastTS := db[i].ts;
          }
        }
        assert db[..|db|] == db;
      }
      seeded := true;
    }

    /** The locked part at the start of a poll, and the switch callback: without a session
        the latest one is adopted; another session than the tracked one is announced,
        unless a request is in flight; at its first poll the tracked one counts as known
        up to its newest time; and then it is read on if it has something newer. */
    method Snapshot(latestSession: string, latestTS: nat, sending: bool) returns (next: Next)
      modifies this
      ensures (View(), next) == SnapshotOf(old(View()), latestSession, latestTS) && sent == old(sent)
      ensures switches == old(switches) + if old(sessionID) != "" && latestSession != old(sessionID) && !sending
                          then [latestSession] else []
      ensures View() == if old(sessionID) == "" || (latestSession == old(sessionID) && !old(seeded))
                        then Watch(latestSession, latestTS, true) else old(View())
      ensures next.Load? <==>
              old(sessionID) != "" && latestSession == old(sessionID) && old(seeded) && old(lastTS) < latestTS
      ensures next.Load? ==> next == Load(latestSession, old(lastTS))
    {
      var currentSession := sessionID;
      if currentSession == "" {
        sessionID, lastTS, seeded := latestSession, latestTS, true;
        return Done;
      }
      if latestSession != currentSession {
        if !sending {
          switches := switches + [latestSession];
        }
        return SwitchTo(latestSession);
      }
      if !seeded {
        lastTS, seeded := latestTS, true;
        return Done;
      }
      if latestTS <= lastTS {
        return Done;
      }
      return Load(currentSession, lastTS);
    }

    /** The rows newer than the snapshot, and the time of the last one. */
    static method ReadRows(db: seq<Msg>, session: string, after: nat) returns (rows: seq<Msg>, newLast: nat)
      ensures rows == Rows(db, session, after)
      ensures newLast == if rows == [] then 0 else rows[|rows| - 1].ts
    {
      rows, newLast := [], 0;
      for i := 0 to |db|
        invariant rows == Rows(db[..i], session, after)
        invariant newLast == if rows == [] then 0 else rows[|rows| - 1].ts
      {
        assert db[..i + 1][..i] == db[..i];
        if db[i].session == session && db[i].ts > after {
          rows := rows + [db[i]];
          newLast := db[i].ts;
        }
      }
      assert db[..|db|] == db;
    }

    method EmitAll(rows: seq<Msg>)
      modifies this`sent
      ensures sent == old(sent) + rows
    {
      for i := 0 to |rows|
        invariant sent == old(sent) + rows[..i]
      {
        sent := sent + [rows[i]];
      }
    }

    /** The locked part at the end of a poll. */
    method Commit(currentSession: string, newLast: nat)
      modifies this`lastTS
      ensures View() == Committed(old(View()), currentSession, newLast)
    {
      if sessionID == currentSession && newLast > lastTS {
        lastTS := newLast;
      }
    }
  }

  /* ---------- the interleaved system ---------- */

  /** Where the polling goroutine is.  `seen` is the latest time its first query
      returned. */
  datatype Phase =
    | Idle
    | Observed(latest: string, seen: nat)
    | Loading(session: string, after: nat, seen: nat)
    | Emitting(session: string, after: nat, seen: nat, rows: seq<Msg>, done: nat)

  /** `seed` is the time up to which the tracked session counts as known, `sending` says
      whether a request is in flight, `switches` are the sessions announced. */
  datatype Sys = Sys(db: seq<Msg>, w: Watch, seed: nat, phase: Phase, trace: seq<Msg>,
                     sending: bool, switches: seq<string>)

  datatype Act =
    | Insert(m: Msg)
    | SetSession(session: string, readable: bool)
    | SetSending(on: bool)
    | Observe(latest: string)   // the first query of a poll
    | TakeSnapshot
    | ReadWindow
    | EmitOne
    | CommitPoll

  ghost predicate Enabled(s: Sys, a: Act) {
    match a
    case Insert(m) => m.ts > MaxTS(s.db, m.session) && m.session != ""
    case SetSession(_, _) => true
    case SetSending(_) => true
    case Observe(latest) =>
      && s.phase.Idle? && latest != "" && MaxTS(s.db, latest) > 0
      && forall i :: 0 <= i < |s.db| ==> s.db[i].ts <= MaxTS(s.db, latest)
    case TakeSnapshot => s.phase.Observed?
    case ReadWindow => s.phase.Loading?
    case EmitOne => s.phase.Emitting? && s.phase.done < |s.phase.rows|
    case CommitPoll => s.phase.Emitting? && s.phase.done == |s.phase.rows|
  }

  function LastOf(rows: seq<Msg>): nat {
    if rows == [] then 0 else rows[|rows| - 1].ts
  }

  ghost function Step(s: Sys, a: Act): Sys
    requires Enabled(s, a)
  {
    match a
    case Insert(m) => s.(db := s.db + [m])
    case SetSession(session, readable) =>
      var w := Tracking(session, s.db, readable);
      s.(w := w, seed := w.lastTS)
    case SetSending(on) => s.(sending := on)
    case Observe(latest) => s.(phase := Observed(latest, MaxTS(s.db, latest)))
    case TakeSnapshot =>
      var (w, next) := SnapshotOf(s.w, s.phase.latest, s.phase.seen);
      var seed := if w == s.w then s.seed else w.lastTS;
      (match next
       case Load(session, after) => s.(phase := Loading(session, after, s.phase.seen))
       case SwitchTo(latest) =>
         s.(phase := Idle, switches := s.switches + if s.sending then [] else [latest])
       case Done => s.(w := w, seed := seed, phase := Idle))
    case ReadWindow =>
      var rows := Rows(s.db, s.phase.session, s.phase.after);
      if rows == [] then s.(phase := Idle)
      else s.(phase := Emitting(s.phase.session, s.phase.after, s.phase.seen, rows, 0))
    case EmitOne => s.(trace := s.trace + [s.phase.rows[s.phase.done]], phase := s.phase.(done := s.phase.done + 1))
    case CommitPoll => s.(w := Committed(s.w, s.phase.session, LastOf(s.phase.rows)), phase := Idle)
  }

  ghost function Start(session: string): Sys {
    Sys([], Watch(session, 0, false), 0, Idle, [], false, [])
  }

  /** Nothing of the session was sent yet, and no poll of it is under way. */
  ghost predicate Untouched(s: Sys, session: string) {
    && (forall i :: 0 <= i < |s.trace| ==> s.trace[i].session != session)
    && !((s.phase.Loading? || s.phase.Emitting?) && s.phase.session == session)
  }

  /** SetSessionID reads the database, or there is nothing it could forget. */
  ghost predicate Remembers(s: Sys, a: Act) {
    a.SetSession? && !a.readable ==> Untouched(s, a.session)
  }

  /** A run: every step enabled. */
  ghost predicate IsAnyRun(states: seq<Sys>, acts: seq<Act>, session: string) {
    && |states| == |acts| + 1 && states[0] == Start(session)
    && (forall i :: 0 <= i < |acts| ==> Enabled(states[i], acts[i]) && states[i + 1] == Step(states[i], acts[i]))
  }

  /** A run in which no SetSessionID forgets what was sent. */
  ghost predicate IsRun(states: seq<Sys>, acts: seq<Act>, session: string) {
    IsAnyRun(states, acts, session) && forall i :: 0 <= i < |acts| ==> Remembers(states[i], acts[i])
  }

  /* ---------- invariant ---------- */

  /** What was sent of a session is at most `t`. */
  ghost predicate SentUpTo(trace: seq<Msg>, session: string, t: nat) {
    forall i :: 0 <= i < |trace| && trace[i].session == session ==> trace[i].ts <= t
  }

  /** Within each session the messages go out in order of time, none twice. */
  ghost predicate InOrder(trace: seq<Msg>) {
    forall i, j :: 0 <= i < j < |trace| && trace[i].session == trace[j].session ==> trace[i].ts < trace[j].ts
  }

  ghost predicate AllSent(db: seq<Msg>, trace: seq<Msg>, session: string, lo: nat, hi: nat) {
    forall i :: 0 <= i < |db| && db[i].session == session && lo < db[i].ts <= hi ==> db[i] in trace
  }

  ghost predicate Ascending(rows: seq<Msg>, session: string, after: nat) {
    && (forall i :: 0 <= i < |rows| ==> rows[i].session == session && rows[i].ts > after)
    && (forall i, j :: 0 <= i < j < |rows| ==> rows[i].ts < rows[j].ts)
  }

  ghost predicate PhaseInv(s: Sys) {
    match s.phase
    case Idle => true
    case Observed(latest, seen) => latest != "" && SentUpTo(s.trace, latest, seen) && 0 < seen <= MaxTS(s.db, latest)
    case Loading(session, after, seen) =>
      && s.w.seeded && session != "" && SentUpTo(s.trace, session, after) && after < seen <= MaxTS(s.db, session)
      && (s.w.sessionID == session ==> after <= s.w.lastTS)
    case Emitting(session, after, seen, rows, done) =>
      && s.w.seeded && session != "" && 0 < |rows| && done <= |rows| && Ascending(rows, session, after)
      && seen <= LastOf(rows)
      && LastOf(rows) <= MaxTS(s.db, session)
      && (forall i :: 0 <= i < |s.db| && s.db[i].session == session && after < s.db[i].ts <= LastOf(rows) ==>
                        s.db[i] in rows)
      && (forall k :: 0 <= k < |rows| ==> rows[k] in s.db)
      && (forall k :: 0 <= k < done ==> rows[k] in s.trace)
      && SentUpTo(s.trace, session, if done == 0 then after else rows[done - 1].ts)
      && (s.w.sessionID == session ==> after <= s.w.lastTS)
  }

  /** The tracked session's own time covers what was sent of it, apart from a poll
      of that session that has not committed yet. */
  ghost predicate WatchInv(s: Sys) {
    && (s.w.seeded && s.w.sessionID != "" ==>
          && s.seed <= s.w.lastTS <= MaxTS(s.db, s.w.sessionID)
          && AllSent(s.db, s.trace, s.w.sessionID, s.seed, s.w.lastTS)
          && (!(s.phase.Emitting? && s.phase.session == s.w.sessionID) ==>
                SentUpTo(s.trace, s.w.sessionID, s.w.lastTS)))
    && (!s.w.seeded ==> s.trace == [])
  }

  ghost predicate Inv(s: Sys) {
    && Growing(s.db) && InOrder(s.trace) && PhaseInv(s) && WatchInv(s)
    && (forall i :: 0 <= i < |s.trace| ==> s.trace[i] in s.db)
  }

  lemma {:induction false} RowsMembers(db: seq<Msg>, session: string, after: nat)
    ensures forall m :: m in Rows(db, session, after) <==> m in db && m.session == session && m.ts > after
  {
    if db != [] {
      var n := |db| - 1;
      RowsMembers(db[..n], session, after);
      assert db == db[..n] + [db[n]];
    }
  }

  lemma {:induction false} RowsAscend(db: seq<Msg>, session: string, after: nat)
    requires Growing(db)
    ensures Ascending(Rows(db, session, after), session, after)
  {
    if db != [] {
      var n := |db| - 1;
      RowsAscend(db[..n], session, after);
      RowsMembers(db[..n], session, after);
      var rows := Rows(db[..n], session, after);
      forall i | 0 <= i < |rows| && db[n].session == session
        ensures rows[i].ts < db[n].ts
      {
        assert rows[i] in db[..n];
      }
    }
  }

  /** The last row read is the newest one of the session. */
  lemma {:induction false} RowsReachNewest(db: seq<Msg>, session: string, after: nat)
    requires Growing(db) && MaxTS(db, session) > after
    ensures Rows(db, session, after) != [] && LastOf(Rows(db, session, after)) == MaxTS(db, session)
  {
    var n := |db| - 1;
    var m := db[n];
    if m.session != session {
      RowsReachNewest(db[..n], session, after);
    } else {
      MaxIsMember(db[..n], session);
      assert m.ts > MaxTS(db[..n], session);
    }
  }

  lemma {:induction false} MaxIsMember(db: seq<Msg>, session: string)
    ensures MaxTS(db, session) > 0 ==>
              exists i :: 0 <= i < |db| && db[i].session == session && db[i].ts == MaxTS(db, session)
  {
    if db != [] {
      var n := |db| - 1;
      MaxIsMember(db[..n], session);
      if MaxTS(db, session) == MaxTS(db[..n], session) > 0 {
        var i :| 0 <= i < n && db[..n][i].session == session && db[..n][i].ts == MaxTS(db[..n], session);
        assert db[i] == db[..n][i];
      }
    }
  }

  lemma {:induction false} MaxAfterInsert(db: seq<Msg>, m: Msg, session: string)
    requires m.ts > MaxTS(db, m.session)
    ensures MaxTS(db + [m], session) == if session == m.session then m.ts else MaxTS(db, session)
  {
    assert (db + [m])[..|db|] == db;
  }

  lemma {:induction false} InsertKeeps(s: Sys, m: Msg)
    requires Inv(s) && Enabled(s, Insert(m))
    ensures Inv(Step(s, Insert(m)))
  {
    hide PhaseInv, InOrder, MaxTS;
    var r := Step(s, Insert(m));
    MaxAfterInsert(s.db, m, s.w.sessionID);
    assert Growing(r.db);
    assert forall x :: x in s.db ==> x in r.db;
    assert WatchInv(r);
    assert PhaseInv(r) by { InsertKeepsPhase(s, m); }
  }

  lemma {:induction false} InsertKeepsPhase(s: Sys, m: Msg)
    requires PhaseInv(s) && Enabled(s, Insert(m))
    ensures PhaseInv(Step(s, Insert(m)))
  {
    hide MaxTS, Ascending;
    var r := Step(s, Insert(m));
    match s.phase {
      case Idle =>
      case Observed(latest, seen) => MaxAfterInsert(s.db, m, latest);
      case Loading(session, after, seen) => MaxAfterInsert(s.db, m, session);
      case Emitting(session, after, seen, rows, done) =>
        MaxAfterInsert(s.db, m, session);
        assert forall x :: x in s.db ==> x in r.db;
    }
  }

  lemma {:induction false} SetSessionKeeps(s: Sys, session: string, readable: bool)
    requires Inv(s) && (readable || Untouched(s, session))
    ensures Inv(Step(s, SetSession(session, readable)))
  {
    hide MaxTS, Growing, InOrder;
    forall i | 0 <= i < |s.trace| && s.trace[i].session == session
      ensures s.trace[i].ts <= MaxTS(s.db, session)
    {
      assert s.trace[i] in s.db;
    }
  }

  lemma {:induction false} SnapshotKeeps(s: Sys)
    requires Inv(s) && s.phase.Observed?
    ensures Inv(Step(s, TakeSnapshot))
  {
  }

  lemma {:induction false} ReadWindowKeeps(s: Sys)
    requires Inv(s) && s.phase.Loading?
    ensures Inv(Step(s, ReadWindow)) && Step(s, ReadWindow).phase.Emitting?
  {
    RowsMembers(s.db, s.phase.session, s.phase.after);
    RowsAscend(s.db, s.phase.session, s.phase.after);
    RowsReachNewest(s.db, s.phase.session, s.phase.after);
  }

  lemma {:induction false} EmitKeepsPhase(s: Sys)
    requires PhaseInv(s) && Enabled(s, EmitOne)
    ensures PhaseInv(Step(s, EmitOne))
  {
    hide MaxTS;
    var r := Step(s, EmitOne);
    var k := s.phase.done;
    assert r.trace[|s.trace|] == s.phase.rows[k];
    assert forall x :: x in s.trace ==> x in r.trace;
    forall i | 0 <= i < |r.trace| && r.trace[i].session == s.phase.session
      ensures r.trace[i].ts <= s.phase.rows[k].ts
    {
      assert i < |s.trace| ==> r.trace[i] == s.trace[i];
    }
  }

  lemma {:induction false} EmitKeepsOrder(s: Sys)
    requires PhaseInv(s) && InOrder(s.trace) && Enabled(s, EmitOne)
    ensures InOrder(Step(s, EmitOne).trace)
  {
    var r := Step(s, EmitOne);
    var m := s.phase.rows[s.phase.done];
    assert forall i :: 0 <= i < |s.trace| ==> r.trace[i] == s.trace[i];
    assert forall i :: 0 <= i < |s.trace| && s.trace[i].session == m.session ==> s.trace[i].ts < m.ts;
  }

  lemma EmitKeepsWatch(s: Sys)
    requires WatchInv(s) && Enabled(s, EmitOne)
    requires s.phase.rows[s.phase.done].session == s.phase.session && s.w.seeded
    ensures WatchInv(Step(s, EmitOne))
  {
    hide MaxTS;
    var r := Step(s, EmitOne);
    assert forall x :: x in s.trace ==> x in r.trace;
    if s.w.sessionID != s.phase.session {
      assert forall i :: 0 <= i < |r.trace| && r.trace[i].session == s.w.sessionID ==>
                           i < |s.trace| && r.trace[i] == s.trace[i];
    }
  }

  lemma {:induction false} EmitKeeps(s: Sys)
    requires Inv(s) && Enabled(s, EmitOne)
    ensures Inv(Step(s, EmitOne))
  {
    EmitKeepsPhase(s);
    EmitKeepsOrder(s);
    EmitKeepsWatch(s);
    hide MaxTS, Growing, InOrder, WatchInv, SentUpTo, Ascending;
    var r := Step(s, EmitOne);
    assert forall i :: 0 <= i < |r.trace| ==> r.trace[i] in r.db;
  }

  lemma {:induction false} CommitKeeps(s: Sys)
    requires Inv(s) && Enabled(s, CommitPoll)
    ensures Inv(Step(s, CommitPoll))
    ensures s.w.sessionID == s.phase.session ==> s.phase.seen <= Step(s, CommitPoll).w.lastTS
  {
  }

  lemma ObserveKeeps(s: Sys, latest: string)
    requires Inv(s) && Enabled(s, Observe(latest))
    ensures Inv(Step(s, Observe(latest)))
  {
    forall i | 0 <= i < |s.trace| && s.trace[i].session == latest
      ensures s.trace[i].ts <= MaxTS(s.db, latest)
    {
      assert s.trace[i] in s.db;
    }
  }

  lemma SendingKeeps(s: Sys, on: bool)
    requires Inv(s)
    ensures Inv(Step(s, SetSending(on)))
  {
    hide MaxTS, InOrder, Growing, Ascending, SentUpTo, AllSent;
  }

  lemma SnapshotEnabled(s: Sys, a: Act)
    requires Enabled(s, a)
    ensures a.TakeSnapshot? ==> s.phase.Observed?
    ensures a.ReadWindow? ==> s.phase.Loading?
  {
  }

  lemma RemembersIs(s: Sys, a: Act)
    requires Remembers(s, a) && a.SetSession?
    ensures a.readable || Untouched(s, a.session)
  {
  }

  lemma {:induction false} StepKeeps(s: Sys, a: Act)
    requires Inv(s) && Enabled(s, a) && Remembers(s, a)
    ensures Inv(Step(s, a))
  {
    hide *;
    SnapshotEnabled(s, a);
    match a {
      case Insert(m) => InsertKeeps(s, m);
      case SetSession(session, readable) =>
        RemembersIs(s, a);
        SetSessionKeeps(s, session, readable);
      case SetSending(on) => SendingKeeps(s, on);
      case Observe(latest) => ObserveKeeps(s, latest);
      case TakeSnapshot => SnapshotKeeps(s);
      case ReadWindow => ReadWindowKeeps(s);
      case EmitOne => EmitKeeps(s);
      case CommitPoll => CommitKeeps(s);
    }
  }

  lemma {:induction false} RunKeeps(states: seq<Sys>, acts: seq<Act>, session: string, n: nat)
    requires IsRun(states, acts, session) && n <= |acts|
    ensures Inv(states[n])
  {
    if n > 0 {
      RunKeeps(states, acts, session, n - 1);
      assert states[n - 1 + 1] == Step(states[n - 1], acts[n - 1]);
      StepKeeps(states[n - 1], acts[n - 1]);
    }
  }

  /* ---------- theorems ---------- */

  /** Wherever SetSessionID runs, even where it cannot read the database, as long as
      nothing of the session was sent before: within each session messages go out in
      order of time and none goes out twice, everything sent is in the database, and what
      a poll is sending comes, in order of time, from the session it tracked at
      its snapshot. */
  lemma NothingIsSentTwice(states: seq<Sys>, acts: seq<Act>, session: string, n: nat)
    requires IsRun(states, acts, session) && n <= |acts|
    ensures var s := states[n];
            && (forall i, j :: 0 <= i < j < |s.trace| && s.trace[i].session == s.trace[j].session ==>
                                 s.trace[i].ts < s.trace[j].ts)
            && (forall i :: 0 <= i < |s.trace| ==> s.trace[i] in s.db)
            && (s.phase.Emitting? ==>
                  && (forall i :: 0 <= i < |s.phase.rows| ==> s.phase.rows[i].session == s.phase.session)
                  && (forall i, j :: 0 <= i < j < |s.phase.rows| ==> s.phase.rows[i].ts < s.phase.rows[j].ts))
  {
    RunKeeps(states, acts, session, n);
  }

  /* ---------- announcing a session ---------- */

  /** The poll under way has asked at step `j` and nothing but other threads ran since. */
  ghost predicate AskedAt(states: seq<Sys>, acts: seq<Act>, j: nat, n: nat)
    requires n <= |acts| < |states|
  {
    && j < n && states[n].phase.Observed? && acts[j] == Observe(states[n].phase.latest)
    && states[n].phase.seen == MaxTS(states[j].db, states[n].phase.latest)
    && forall k :: j < k < n ==> acts[k].Insert? || acts[k].SetSession? || acts[k].SetSending?
  }

  lemma {:induction false} ObservedWhen(states: seq<Sys>, acts: seq<Act>, session: string, n: nat) returns (j: nat)
    requires IsAnyRun(states, acts, session) && n <= |acts| && states[n].phase.Observed?
    ensures AskedAt(states, acts, j, n)
  {
    hide MaxTS, SnapshotOf, Committed, Rows, Tracking;
    assert n > 0;
    assert states[n - 1 + 1] == Step(states[n - 1], acts[n - 1]);
    if acts[n - 1].Observe? {
      j := n - 1;
    } else {
      j := ObservedWhen(states, acts, session, n - 1);
    }
  }

  /** In any run: a poll that has asked for the latest session announces it exactly when
      a session is tracked, it is another one, and no request is in flight.  What it asked
      for was the session with the newest message at that moment. */
  lemma PollAnnouncesExactlyWhen(states: seq<Sys>, acts: seq<Act>, session: string, n: nat) returns (j: nat)
    requires IsAnyRun(states, acts, session) && n < |acts| && acts[n].TakeSnapshot?
    ensures AskedAt(states, acts, j, n)
    ensures var s, latest := states[n], states[n].phase.latest;
            && (forall i :: 0 <= i < |states[j].db| ==> states[j].db[i].ts <= MaxTS(states[j].db, latest))
            && states[n + 1].switches ==
               s.switches + if s.w.sessionID != "" && latest != s.w.sessionID && !s.sending then [latest] else []
  {
    j := ObservedWhen(states, acts, session, n);
    assert states[n + 1] == Step(states[n], acts[n]);
    hide MaxTS;
  }

  /** Nothing else announces a session. */
  lemma OnlyPollsAnnounce(states: seq<Sys>, acts: seq<Act>, session: string, n: nat)
    requires IsAnyRun(states, acts, session) && n < |acts| && !acts[n].TakeSnapshot?
    ensures states[n + 1].switches == states[n].switches
  {
    assert states[n + 1] == Step(states[n], acts[n]);
  }

  /** A poll ends: it was not idle before the step and is idle after it. */
  ghost predicate PollEnds(s: Sys, a: Act) {
    Enabled(s, a) && !s.phase.Idle? && Step(s, a).phase.Idle?
  }

  function SeenBy(p: Phase): nat {
    match p
    case Idle => 0
    case Observed(_, seen) => seen
    case Loading(_, _, seen) => seen
    case Emitting(_, _, seen, _, _) => seen
  }

  function SessionOf(p: Phase): string {
    match p
    case Idle => ""
    case Observed(latest, _) => latest
    case Loading(session, _, _) => session
    case Emitting(session, _, _, _, _) => session
  }

  /** When a poll ends and the session it found latest is the one tracked, every
      message of that session after the seeded time, up to the newest one the poll
      saw, has been sent. */
  lemma PollCatchesUp(states: seq<Sys>, acts: seq<Act>, session: string, n: nat)
    requires IsRun(states, acts, session) && n < |acts| && PollEnds(states[n], acts[n])
    requires states[n + 1].w.sessionID == SessionOf(states[n].phase)
    ensures var s, p := states[n + 1], states[n].phase;
            forall i :: 0 <= i < |s.db| && s.db[i].session == s.w.sessionID && s.seed < s.db[i].ts <= SeenBy(p) ==>
                          s.db[i] in s.trace
  {
    RunKeeps(states, acts, session, n);
    RunKeeps(states, acts, session, n + 1);
    assert states[n + 1] == Step(states[n], acts[n]);
    hide *;
    EndCovers(states[n], acts[n]);
    WhatIsCovered(states[n + 1], SeenBy(states[n].phase));
  }

  lemma EndCovers(s: Sys, a: Act)
    requires Inv(s) && PollEnds(s, a) && Step(s, a).w.sessionID == SessionOf(s.phase)
    ensures var w := Step(s, a).w; w.seeded && w.sessionID != "" && SeenBy(s.phase) <= w.lastTS
  {
    hide MaxTS, Growing, InOrder, AllSent, SentUpTo;
    match a {
      case Insert(m) =>
      case SetSession(_, _) =>
      case SetSending(_) =>
      case Observe(_) =>
      case TakeSnapshot =>
      case ReadWindow => ReadWindowKeeps(s);
      case EmitOne =>
      case CommitPoll => CommitKeeps(s);
    }
  }

  lemma WhatIsCovered(s: Sys, seen: nat)
    requires Inv(s) && s.w.seeded && s.w.sessionID != "" && seen <= s.w.lastTS
    ensures forall i :: 0 <= i < |s.db| && s.db[i].session == s.w.sessionID && s.seed < s.db[i].ts <= seen ==>
                          s.db[i] in s.trace
  {
  }

  /* ---------- runs in which any SetSessionID may be unable to read ---------- */

  /** What a poll is sending: rows in order of time, among them whatever the session
      had beyond the time they were read from before the first one goes out. */
  ghost predicate Sending(s: Sys) {
    s.phase.Emitting? ==>
      var rows, done := s.phase.rows, s.phase.done;
      && 0 < |rows| && done <= |rows| && Ascending(rows, s.phase.session, s.phase.after)
      && (forall m :: m in rows ==> m in s.db)
      && (done == 0 ==> forall m :: m in s.trace && m.session == s.phase.session && m.ts > s.phase.after ==> m in rows)
      && (done > 0 ==> s.trace != [] && s.trace[|s.trace| - 1] == rows[done - 1])
  }

  ghost predicate LooseInv(s: Sys) {
    Growing(s.db) && Sending(s) && forall m :: m in s.trace ==> m in s.db
  }

  lemma {:induction false} StepKeepsLoose(s: Sys, a: Act)
    requires LooseInv(s) && Enabled(s, a)
    ensures LooseInv(Step(s, a))
  {
    hide MaxTS;
    match a {
      case Insert(m) => InsertKeepsLoose(s, m);
      case ReadWindow =>
        RowsMembers(s.db, s.phase.session, s.phase.after);
        RowsAscend(s.db, s.phase.session, s.phase.after);
      case _ =>
    }
  }

  lemma InsertKeepsLoose(s: Sys, m: Msg)
    requires LooseInv(s) && Enabled(s, Insert(m))
    ensures LooseInv(Step(s, Insert(m)))
  {
    hide Ascending;
    assert forall i :: 0 <= i < |s.db| && s.db[i].session == m.session ==> s.db[i].ts < m.ts;
  }

  ghost predicate FirstOfPoll(s: Sys, a: Act) {
    a.EmitOne? && s.phase.Emitting? && s.phase.done == 0
  }

  /** One step keeps the order exactly when it is not the first message of a poll, or
      nothing of the session beyond the time the poll read from was sent before. */
  lemma StepKeepsOrderExactlyWhen(s: Sys, a: Act)
    requires LooseInv(s) && Enabled(s, a)
    ensures InOrder(Step(s, a).trace) <==>
            InOrder(s.trace) && (FirstOfPoll(s, a) ==> SentUpTo(s.trace, s.phase.session, s.phase.after))
  {
    hide MaxTS, Growing;
    if a.EmitOne? {
      OneMoreInOrder(s.trace, s.phase.rows[s.phase.done]);
      if s.phase.done == 0 {
        FirstSentIsSmallest(s);
      }
    }
  }

  lemma OneMoreInOrder(trace: seq<Msg>, m: Msg)
    ensures InOrder(trace + [m]) <==>
            InOrder(trace) && forall i :: 0 <= i < |trace| && trace[i].session == m.session ==> trace[i].ts < m.ts
  {
    var r := trace + [m];
    assert forall i :: 0 <= i < |trace| ==> r[i] == trace[i];
    assert r[|trace|] == m;
  }

  lemma FirstSentIsSmallest(s: Sys)
    requires Sending(s) && s.phase.Emitting? && s.phase.done == 0
    ensures SentUpTo(s.trace, s.phase.session, s.phase.after) <==>
            forall i :: 0 <= i < |s.trace| && s.trace[i].session == s.phase.session ==>
                          s.trace[i].ts < s.phase.rows[0].ts
  {
    forall i | 0 <= i < |s.trace| && s.trace[i].session == s.phase.session && s.trace[i].ts > s.phase.after
      ensures s.trace[i].ts >= s.phase.rows[0].ts
    {
      assert s.trace[i] in s.phase.rows;
    }
  }

  ghost predicate PollsStartAbove(states: seq<Sys>, acts: seq<Act>, n: nat)
    requires n <= |acts| < |states|
  {
    forall i :: 0 <= i < n && FirstOfPoll(states[i], acts[i]) ==>
                  SentUpTo(states[i].trace, states[i].phase.session, states[i].phase.after)
  }

  lemma {:induction false} AnyRunKeepsLoose(states: seq<Sys>, acts: seq<Act>, session: string, n: nat)
    requires IsAnyRun(states, acts, session) && n <= |acts|
    ensures LooseInv(states[n])
  {
    if n > 0 {
      AnyRunKeepsLoose(states, acts, session, n - 1);
      assert states[n - 1 + 1] == Step(states[n - 1], acts[n - 1]);
      StepKeepsLoose(states[n - 1], acts[n - 1]);
    }
  }

  /** In any run at all, whichever SetSessionID cannot read the database and wherever it
      runs: within each session the messages go out in order of time and none twice,
      exactly when no poll begins to send although something later than the time
      its rows were read from was sent already. */
  lemma {:induction false} SentInOrderExactlyWhen(states: seq<Sys>, acts: seq<Act>, session: string, n: nat)
    requires IsAnyRun(states, acts, session) && n <= |acts|
    ensures InOrder(states[n].trace) <==> PollsStartAbove(states, acts, n)
  {
    hide InOrder, SentUpTo, LooseInv, Enabled, FirstOfPoll;
    if n > 0 {
      SentInOrderExactlyWhen(states, acts, session, n - 1);
      AnyRunKeepsLoose(states, acts, session, n - 1);
      assert states[n - 1 + 1] == Step(states[n - 1], acts[n - 1]);
      StepKeepsOrderExactlyWhen(states[n - 1], acts[n - 1]);
    } else {
      assert InOrder([]) by { NothingIsInOrder(); }
    }
  }

  lemma NothingIsInOrder()
    ensures InOrder([])
  {
  }

  /** When SetSessionID cannot read the database it forgets how far the session was
      read, and messages go out again. */
  lemma UnreadableDatabaseResends(m: Msg)
    requires m.ts > 0 && m.session != ""
    ensures var sent := Sys([m], Watch(m.session, m.ts, true), 0, Idle, [m], false, []);
            var s1 := Step(sent, SetSession(m.session, false));
            Inv(sent) && Enabled(s1, Observe(m.session)) &&
            var s2 := Step(s1, Observe(m.session));
            var s3 := Step(s2, TakeSnapshot);
            Enabled(s3, ReadWindow) &&
            var s4 := Step(s3, ReadWindow);
            Enabled(s4, EmitOne) && Step(s4, EmitOne).trace == [m, m]
  {
    assert [m][..0] == [];
    assert MaxTS([m], m.session) == m.ts && Rows([m], m.session, 0) == Rows([], m.session, 0) + [m];
  }

  lemma OrderOfBoth(a: seq<Msg>, rows: seq<Msg>, session: string)
    requires InOrder(a) && rows != [] && Ascending(rows, session, 0)
    requires forall m :: m in a && m.session == session ==> m in rows
    ensures InOrder(a + rows) <==> forall i :: 0 <= i < |a| ==> a[i].session != session
  {
    var all := a + rows;
    assert forall i :: 0 <= i < |all| ==> all[i] == if i < |a| then a[i] else rows[i - |a|];
    if i :| 0 <= i < |a| && a[i].session == session {
      var k :| 0 <= k < |rows| && rows[k] == a[i];
      assert all[i] == all[|a| + k] == a[i];
    }
  }

  /** In general: between polls, after SetSessionID could not read the database, the
      next poll of that session sends all of it again.  That repeats a message, or
      breaks the order, exactly when something of the session was sent before. */
  lemma UnreadableResendsExactlyWhen(s: Sys, session: string)
    requires Inv(s) && s.phase.Idle? && session != "" && Enabled(s, Observe(session))
    ensures var s1 := Step(s, SetSession(session, false));
            Enabled(s1, Observe(session)) &&
            var s3 := Step(Step(s1, Observe(session)), TakeSnapshot);
            Enabled(s3, ReadWindow) &&
            var s4 := Step(s3, ReadWindow);
            && s4.phase.Emitting? && s4.trace == s.trace && s4.phase.rows == Rows(s.db, session, 0)
            && (InOrder(s.trace + s4.phase.rows) <==> forall i :: 0 <= i < |s.trace| ==> s.trace[i].session != session)
  {
    RowsMembers(s.db, session, 0);
    RowsAscend(s.db, session, 0);
    RowsReachNewest(s.db, session, 0);
    hide Growing, InOrder, WatchInv, Ascending, MaxTS, Rows;
    OrderOfBoth(s.trace, Rows(s.db, session, 0), session);
  }
}
