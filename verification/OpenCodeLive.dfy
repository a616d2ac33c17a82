/** What the live log shows while an OpenCode session is watched: the watcher's runs
    composed with the manager's callback, clears and session switches. */
module OpenCodeLive {
  import opened Options
  import opened OpenCode
  import opened OpenCodeRuns
  import opened OpenCodeReports
  import opened SessionSwitch
  import Parts = OpenCodeParts
  import EventLog

  /** The history of the session that the database has as its latest. */
  function Replayed(db: Db, cap: nat, parses: string -> bool): EventLog.Log {
    LogReplay(EventLog.Log(0, []), cap, HistoryOf(Infos(MsgsOf(db, db.latest))), parses)
  }

  /** The live log beside a run: every event of a poll goes through the callback, a
      session switch resets and replays first, a clear resets. */
  function LogStep(s: Sys, a: Act, log: EventLog.Log, cap: nat, parses: string -> bool): EventLog.Log {
    match a
    case Tick(due) =>
      var t := Poll(s.w, s.db, due);
      var l := if SwitchDue(s.w, s.db, due) then Replayed(s.db, cap, parses) else log;
      LogCallbackAll(l, cap, t.out, t.w.session, parses)
    case Clear => EventLog.Log(0, [])
    case _ => log
  }

  function Live(s: Sys, log: EventLog.Log, cap: nat, parses: string -> bool, acts: seq<Act>): EventLog.Log {
    if acts == [] then log
    else
      var pre := acts[..|acts| - 1];
      LogStep(Run(s, pre), acts[|pre|], Live(s, log, cap, parses, pre), cap, parses)
  }

  /** The log as it was after the last start, clear or replay. */
  function BaseStep(s: Sys, a: Act, base: EventLog.Log, cap: nat, parses: string -> bool): EventLog.Log {
    match a
    case Tick(due) => if SwitchDue(s.w, s.db, due) then Replayed(s.db, cap, parses) else base
    case Clear => EventLog.Log(0, [])
    case _ => base
  }

  function Base(s: Sys, log: EventLog.Log, cap: nat, parses: string -> bool, acts: seq<Act>): EventLog.Log {
    if acts == [] then log
    else
      var pre := acts[..|acts| - 1];
      BaseStep(Run(s, pre), acts[|pre|], Base(s, log, cap, parses, pre), cap, parses)
  }

  lemma {:induction false} CallbackAllOfConcat(l: EventLog.Log, cap: nat, a: seq<Event>, b: seq<Event>,
                                               session: string, parses: string -> bool)
    ensures LogCallbackAll(l, cap, a + b, session, parses)
         == LogCallbackAll(LogCallbackAll(l, cap, a, session, parses), cap, b, session, parses)
    decreases |b|
  {
    hide LogCallback;
    if b == [] {
      assert a + b == a;
    } else {
      CallbackAllOfConcat(l, cap, a, b[..|b| - 1], session, parses);
      assert (a + b)[..|a + b| - 1] == a + b[..|b| - 1];
    }
  }

  /** The live log is what the trace has made of the base. */
  lemma {:induction false} LiveIsBaseAndTrace(s: Sys, log: EventLog.Log, cap: nat, parses: string -> bool,
                                              acts: seq<Act>)
    requires s.trace == []
    ensures var r := Run(s, acts);
            Live(s, log, cap, parses, acts) ==
            LogCallbackAll(Base(s, log, cap, parses, acts), cap, r.trace, r.w.session, parses)
  {
    hide Replayed, LogCallback, Step, SwitchDue, LogStep, BaseStep;
    if acts != [] {
      var pre := acts[..|acts| - 1];
      LiveIsBaseAndTrace(s, log, cap, parses, pre);
      StepOfBoth(Run(s, pre), acts[|pre|], Live(s, log, cap, parses, pre), Base(s, log, cap, parses, pre), cap, parses);
    }
  }

  lemma StepOfBoth(s: Sys, a: Act, live: EventLog.Log, base: EventLog.Log, cap: nat, parses: string -> bool)
    requires live == LogCallbackAll(base, cap, s.trace, s.w.session, parses)
    ensures var r := Step(s, a);
            LogStep(s, a, live, cap, parses) ==
            LogCallbackAll(BaseStep(s, a, base, cap, parses), cap, r.trace, r.w.session, parses)
  {
    hide Replayed, LogCallback, PollMsgs;
    match a {
      case Tick(due) =>
        var t := Poll(s.w, s.db, due);
        if !SwitchDue(s.w, s.db, due) {
          PollKeepsSession(s.w, MsgsOf(s.db, s.w.session));
          CallbackAllOfConcat(base, cap, s.trace, t.out, s.w.session, parses);
        }
      case _ =>
    }
  }

  /* ---------- whose events the trace holds ---------- */

  /** No interactive tool and a role that is not blank. */
  ghost predicate Calm(m: Msg) {
    FirstInteractive(m.parts) == None && !Blank(m.role)
  }

  ghost predicate CalmDb(db: Db) {
    forall session, m :: session in db.sessions && m in db.sessions[session] ==> Calm(m)
  }

  ghost predicate CalmAct(a: Act) {
    match a
    case AddMessage(_, m) => Calm(m)
    case RewriteNewest(_, parts) => FirstInteractive(parts) == None
    case _ => true
  }

  ghost predicate IsKeyOf(id: string, key: string) {
    exists part :: key == Key(id, part)
  }

  /** An event under a message's own id, or under the key of one of its parts, has the
      message's role. */
  ghost predicate Under(e: Event, id: string, role: string) {
    e.role == role && (e.msgID == id || (e.kind != "" && IsKeyOf(id, e.msgID)))
  }

  ghost predicate Attributed(e: Event, msgs: seq<Msg>) {
    e.toolUseName == "" && (e.msgID == "" || exists m <- msgs :: Under(e, m.id, m.role))
  }

  ghost predicate AllAttributed(es: seq<Event>, msgs: seq<Msg>) {
    forall e <- es :: Attributed(e, msgs)
  }

  /** An event of one message. */
  ghost predicate EventOf(e: Event, m: Info) {
    e.toolUseName == "" && (e.msgID == "" || Under(e, m.id, m.role))
  }

  ghost predicate AllEventsOf(es: seq<Event>, m: Info) {
    forall e <- es :: EventOf(e, m)
  }

  lemma {:induction false} SubEventsOf(em: set<string>, m: Info, n: nat, working: bool)
    requires n <= |m.subs| && Parts.Kinds(m)
    ensures AllEventsOf(EmitSubs(em, m, n, working).1, m)
  {
    if n > 0 {
      SubEventsOf(em, m, n - 1, working);
      assert IsKeyOf(m.id, Key(m.id, m.subs[n - 1].partID));
    }
  }

  lemma CompleteEventsOf(w: W, m: Info)
    requires m.toolName == "" && Parts.Kinds(m)
    ensures AllEventsOf(Complete(w, m).out, m)
  {
    SubEventsOf(w.emitted, m, |m.subs|, false);
  }

  lemma NewestEventsOf(w: W, m: Info)
    requires m.toolName == "" && Parts.Kinds(m)
    ensures AllEventsOf(Newest(w, m).out, m)
  {
    SubEventsOf(w.emitted, m, |m.subs|, true);
  }

  ghost predicate Among(m: Info, msgs: seq<Msg>) {
    exists x <- msgs :: x.id == m.id && x.role == m.role
  }

  lemma AttributedTo(es: seq<Event>, m: Info, msgs: seq<Msg>)
    requires AllEventsOf(es, m) && Among(m, msgs)
    ensures AllAttributed(es, msgs)
  {
    forall e <- es ensures Attributed(e, msgs) {
      assert EventOf(e, m);
    }
  }

  lemma AttributedConcat(a: seq<Event>, b: seq<Event>, msgs: seq<Msg>)
    requires AllAttributed(a, msgs) && AllAttributed(b, msgs)
    ensures AllAttributed(a + b, msgs)
  {
  }

  /** The infos of some of the messages, without interactive tools. */
  ghost predicate FromCalm(ms: seq<Info>, msgs: seq<Msg>) {
    forall m <- ms :: m.toolName == "" && Parts.Kinds(m) && Among(m, msgs)
  }

  lemma {:induction false} CompletedAreAttributed(w: W, ms: seq<Info>, msgs: seq<Msg>)
    requires FromCalm(ms, msgs)
    ensures AllAttributed(CompleteAll(w, ms).out, msgs)
  {
    hide Complete, Attributed;
    if ms != [] {
      var n := |ms| - 1;
      CompletedAreAttributed(w, ms[..n], msgs);
      var t := CompleteAll(w, ms[..n]);
      CompleteEventsOf(t.w, ms[n]);
      AttributedTo(Complete(t.w, ms[n]).out, ms[n], msgs);
      AttributedConcat(t.out, Complete(t.w, ms[n]).out, msgs);
    }
  }

  lemma PollIsAttributed(w: W, ms: seq<Info>, msgs: seq<Msg>)
    requires FromCalm(ms, msgs)
    ensures AllAttributed(PollInfos(w, ms).out, msgs)
  {
    hide Newest, Attributed, CompleteAll;
    if ms != [] {
      var n := |ms| - 1;
      CompletedAreAttributed(w, ms[..n], msgs);
      var t := CompleteAll(w, ms[..n]);
      NewestEventsOf(t.w, ms[n]);
      AttributedTo(Newest(t.w, ms[n]).out, ms[n], msgs);
      AttributedConcat(t.out, Newest(t.w, ms[n]).out, msgs);
    }
  }

  lemma {:induction false} WindowMembers(msgs: seq<Msg>, all: bool, t: int, w: W)
    ensures forall m <- Since(msgs, all, t, w) :: m in msgs
  {
    if msgs != [] {
      WindowMembers(msgs[..|msgs| - 1], all, t, w);
    }
  }

  lemma WindowIsCalm(w: W, msgs: seq<Msg>)
    requires forall m <- msgs :: Calm(m)
    ensures FromCalm(Infos(Window(w, msgs)), msgs)
  {
    hide Since;
    var from := if w.streamID != "" then w.streamID else w.lastMsgID;
    WindowMembers(msgs, from == "", TimeOf(msgs, from), w);
    var win := Window(w, msgs);
    Parts.InfosHaveKinds(win);
    forall m <- Infos(win) ensures m.toolName == "" && Parts.Kinds(m) && Among(m, msgs) {
      var i :| 0 <= i < |win| && Infos(win)[i] == m;
      assert win[i] in win && Calm(win[i]);
    }
  }

  ghost predicate TraceInv(s: Sys) {
    CalmDb(s.db) && AllAttributed(s.trace, MsgsOf(s.db, s.w.session))
  }

  lemma CalmMsgs(db: Db, session: string)
    requires CalmDb(db)
    ensures forall m <- MsgsOf(db, session) :: Calm(m)
  {
  }

  /** Messages keep their id and role, so events stay attributed. */
  lemma StayAttributed(es: seq<Event>, msgs: seq<Msg>, next: seq<Msg>)
    requires AllAttributed(es, msgs) && |msgs| <= |next|
    requires forall i :: 0 <= i < |msgs| ==> next[i].id == msgs[i].id && next[i].role == msgs[i].role
    ensures AllAttributed(es, next)
  {
    forall m <- msgs ensures exists x <- next :: x.id == m.id && x.role == m.role {
      var i :| 0 <= i < |msgs| && msgs[i] == m;
      assert next[i] in next;
    }
    forall e <- es ensures Attributed(e, next) {
      assert Attributed(e, msgs);
    }
  }

  lemma StepKeepsTrace(s: Sys, a: Act)
    requires TraceInv(s) && CalmAct(a)
    ensures TraceInv(Step(s, a))
  {
    var r := Step(s, a);
    match a {
      case AddMessage(session, m) =>
        StayAttributed(s.trace, MsgsOf(s.db, s.w.session), MsgsOf(r.db, s.w.session));
        AddedStaysCalm(s, session, m);
      case RewriteNewest(session, parts) =>
        StayAttributed(s.trace, MsgsOf(s.db, s.w.session), MsgsOf(r.db, s.w.session));
        RewrittenStaysCalm(s, session, parts);
      case SetLatest(_) =>
      case Tick(due) => TickKeepsTrace(s, due);
      case Clear =>
    }
  }

  lemma AddedStaysCalm(s: Sys, session: string, m: Msg)
    requires CalmDb(s.db) && Calm(m)
    ensures CalmDb(Step(s, AddMessage(session, m)).db)
  {
    hide Calm;
    CalmMsgs(s.db, session);
  }

  lemma RewrittenStaysCalm(s: Sys, session: string, parts: seq<Part>)
    requires CalmDb(s.db) && FirstInteractive(parts) == None
    ensures CalmDb(Step(s, RewriteNewest(session, parts)).db)
  {
    CalmMsgs(s.db, session);
    var msgs := MsgsOf(s.db, session);
    forall m <- Rewritten(msgs, parts) ensures Calm(m) {
      assert msgs != [] ==> Calm(msgs[|msgs| - 1]);
    }
  }

  lemma TickKeepsTrace(s: Sys, due: bool)
    requires TraceInv(s)
    ensures TraceInv(Step(s, Tick(due)))
  {
    hide PollInfos, Window, Attributed, Calm, CalmDb;
    var v := if SwitchDue(s.w, s.db, due) then Switched(s.w, s.db.latest) else s.w;
    var msgs := MsgsOf(s.db, v.session);
    CalmMsgs(s.db, v.session);
    WindowIsCalm(v, msgs);
    PollIsAttributed(v, Infos(Window(v, msgs)), msgs);
    PollKeepsSession(v, msgs);
    if !SwitchDue(s.w, s.db, due) {
      AttributedConcat(s.trace, PollMsgs(v, msgs).out, msgs);
    }
  }

  lemma {:induction false} RunKeepsTrace(s: Sys, acts: seq<Act>)
    requires TraceInv(s) && forall a <- acts :: CalmAct(a)
    ensures TraceInv(Run(s, acts))
  {
    hide TraceInv, Step, CalmAct;
    if acts != [] {
      RunKeepsTrace(s, acts[..|acts| - 1]);
      StepKeepsTrace(Run(s, acts[..|acts| - 1]), acts[|acts| - 1]);
    }
  }

  /* ---------- what the log says ---------- */

  /** The newest live entry under an id says this. */
  ghost predicate LogSays(l: EventLog.Log, id: string, text: string) {
    var i := EventLog.Newest(l.entries, id);
    0 <= i && l.entries[i].data.text == text
  }

  /** If any live entry has the id, the newest one says this. */
  ghost predicate LogAgrees(l: EventLog.Log, id: string, text: string) {
    0 <= EventLog.Newest(l.entries, id) ==> LogSays(l, id, text)
  }

  /** The events under this id are said by an assistant, or at any rate not by a user. */
  ghost predicate Spoken(tr: seq<Event>, id: string) {
    forall e <- tr :: e.msgID == id ==> e.role != "user" && !Blank(e.role) && e.toolUseName == ""
  }

  lemma NewestAfterPut(es: seq<EventLog.Event>, i: nat, e: EventLog.Event, id: string)
    requires i < |es| && e.data.msgId == es[i].data.msgId
    ensures EventLog.Newest(es[i := e], id) == EventLog.Newest(es, id)
  {
    var r := es[i := e];
    assert forall j :: 0 <= j < |es| ==> r[j].data.msgId == es[j].data.msgId;
  }

  lemma NewestAfterPush(es: seq<EventLog.Event>, e: EventLog.Event, id: string)
    ensures EventLog.Newest(es + [e], id) == if e.data.msgId == id then |es| else EventLog.Newest(es, id)
  {
    var r := es + [e];
    assert r[|es|] == e && forall j :: 0 <= j < |es| ==> r[j] == es[j];
  }

  lemma NewestAmongLast(es: seq<EventLog.Event>, cap: nat, id: string)
    ensures var r, i := EventLog.Suffix(es, cap), EventLog.Newest(es, id);
            var k := EventLog.Newest(r, id);
            && (0 <= k ==> 0 <= i && r[k] == es[i])
            && (|es| <= cap ==> k == i)
            && (0 < cap && 0 < |es| && i == |es| - 1 ==> 0 <= k)
  {
    EventLog.NewestOfSuffix(es, cap, id);
  }

  /** One event under another id leaves what the log says under this one, unless its
      entry is evicted. */
  lemma OtherEventKeeps(
    l: EventLog.Log, cap: nat, e: Event, id: string, text: string, session: string, parses: string -> bool)
    requires id != "" && e.msgID != id && LogAgrees(l, id, text)
    ensures var r := LogCallback(l, cap, e, session, parses);
            LogAgrees(r, id, text) && (NothingEvicted(l, r) && LogSays(l, id, text) ==> LogSays(r, id, text))
  {
    hide Blank, StatusName;
    if Normalize(e, session, parses).Some? {
      var d := Normalize(e, session, parses).value;
      PushKeeps(l, cap, d, id, text);
      if d.msgId == e.msgID {
        PutKeeps(l, cap, d, id, text);
      }
    }
  }

  lemma PushKeeps(l: EventLog.Log, cap: nat, d: EventLog.Data, id: string, text: string)
    requires d.msgId != id && LogAgrees(l, id, text)
    ensures var r := EventLog.Push(l, cap, d);
            LogAgrees(r, id, text) && (NothingEvicted(l, r) && LogSays(l, id, text) ==> LogSays(r, id, text))
  {
    hide EventLog.Newest, EventLog.Suffix, EventLog.Gone;
    var e := EventLog.Event(l.counter + 1, d);
    NewestAfterPush(l.entries, e, id);
    NewestAmongLast(l.entries + [e], cap, id);
    EventLog.PushMayEvict(l, cap, d);
  }

  lemma PutKeeps(l: EventLog.Log, cap: nat, d: EventLog.Data, id: string, text: string)
    requires d.msgId != id && LogAgrees(l, id, text)
    ensures var r := EventLog.Put(l, cap, d.msgId, d);
            LogAgrees(r, id, text) && (NothingEvicted(l, r) && LogSays(l, id, text) ==> LogSays(r, id, text))
  {
    var i := EventLog.Newest(l.entries, d.msgId);
    if EventLog.PutUpdates(l, d.msgId) {
      NewestAfterPut(l.entries, i, EventLog.Event(l.entries[i].seqNo, d), id);
    } else {
      PushKeeps(l, cap, d, id, text);
    }
  }

  lemma OwnEventSays(l: EventLog.Log, cap: nat, e: Event, session: string, parses: string -> bool)
    requires cap > 0 && e.msgID != "" && e.role != "user" && !Blank(e.role) && e.toolUseName == ""
    ensures LogSays(LogCallback(l, cap, e, session, parses), e.msgID, e.text)
  {
    assert e.role != "";
    hide Blank, StatusName;
    var d := Normalize(e, session, parses).value;
    var i, entry := EventLog.Newest(l.entries, e.msgID), EventLog.Event(l.counter + 1, d);
    NewestAfterPush(l.entries, entry, e.msgID);
    NewestAmongLast(l.entries + [entry], cap, e.msgID);
    if 0 <= i {
      NewestAfterPut(l.entries, i, EventLog.Event(l.entries[i].seqNo, d), e.msgID);
    }
  }

  /** The newest live entry under an id, if there is one, says what was last sent under
      it; and there is one when nothing was evicted. */
  lemma {:induction false} LogSaysWhatWasLastSent(
    l: EventLog.Log, cap: nat, tr: seq<Event>, id: string, session: string, parses: string -> bool)
    requires cap > 0 && id != "" && Spoken(tr, id) && LastText(tr, id).Some?
    ensures var r := LogCallbackAll(l, cap, tr, session, parses);
            && LogAgrees(r, id, LastText(tr, id).value)
            && (NothingEvicted(l, r) ==> LogSays(r, id, LastText(tr, id).value))
  {
    hide LogCallback, LogSays, LogAgrees, Blank, NothingEvicted;
    var n := |tr| - 1;
    var mid, e := LogCallbackAll(l, cap, tr[..n], session, parses), tr[n];
    var r := LogCallback(mid, cap, e, session, parses);
    if e.msgID == id {
      OwnEventSays(mid, cap, e, session, parses);
      SayingIsAgreeing(r, id, e.text);
    } else {
      var text := LastText(tr[..n], id).value;
      LogSaysWhatWasLastSent(l, cap, tr[..n], id, session, parses);
      OtherEventKeeps(mid, cap, e, id, text, session, parses);
      if NothingEvicted(l, r) {
        NothingEvictedOnTheWay(l, cap, tr, session, parses);
      }
    }
  }

  lemma SayingIsAgreeing(l: EventLog.Log, id: string, text: string)
    requires LogSays(l, id, text)
    ensures LogAgrees(l, id, text)
  {
  }

  lemma AttributedIsSpoken(tr: seq<Event>, msgs: seq<Msg>, m: Msg)
    requires WellFormed(msgs) && AllAttributed(tr, msgs) && m in msgs && m.role != "user" && !Blank(m.role)
    ensures Spoken(tr, m.id)
  {
    hide Blank;
    var i :| 0 <= i < |msgs| && msgs[i] == m;
    forall e <- tr ensures e.msgID == m.id ==> e.role == m.role && e.toolUseName == "" {
      assert Attributed(e, msgs);
      if e.msgID == m.id {
        var x :| x in msgs && Under(e, x.id, x.role);
        var j :| 0 <= j < |msgs| && msgs[j] == x;
        assert !IsKeyOf(x.id, m.id) by { NoKeyWithoutColon(x.id, m.id); }
      }
    }
  }

  lemma NoKeyWithoutColon(id: string, key: string)
    requires ':' !in key
    ensures !IsKeyOf(id, key)
  {
    forall part ensures key != Key(id, part) {
      KeyHasColon(id, part);
    }
  }

  /** Under the key of a part there are only events of its message, all of parts. */
  lemma KeyIsSpoken(tr: seq<Event>, msgs: seq<Msg>, m: Msg, part: string)
    requires WellFormed(msgs) && AllAttributed(tr, msgs) && m in msgs && m.role != "user" && !Blank(m.role)
    ensures Spoken(tr, Key(m.id, part)) && forall e <- tr :: e.msgID == Key(m.id, part) ==> e.kind != ""
  {
    hide Blank;
    var key := Key(m.id, part);
    KeyHasColon(m.id, part);
    var i :| 0 <= i < |msgs| && msgs[i] == m;
    forall e <- tr ensures e.msgID == key ==> e.role == m.role && e.toolUseName == "" && e.kind != "" {
      assert Attributed(e, msgs);
      if e.msgID == key {
        var x :| x in msgs && Under(e, x.id, x.role);
        var j :| 0 <= j < |msgs| && msgs[j] == x;
        assert x.id != key;
        var other :| key == Key(x.id, other);
        KeysAreInjective(m.id, part, x.id, other);
      }
    }
  }

  lemma {:induction false} LastTextIsOfLastPart(tr: seq<Event>, key: string)
    requires forall e <- tr :: e.msgID == key ==> e.kind != ""
    ensures LastText(tr, key) == match Parts.LastPart(tr, key)
                                 case None => None
                                 case Some(said) => Some(said.text)
  {
    if tr != [] {
      LastTextIsOfLastPart(tr[..|tr| - 1], key);
      assert tr[|tr| - 1] in tr;
    }
  }

  /** Over every run, after each poll: for every message newer than the seed that is
      not by a user and has text, the newest live entry under its id says its current
      text, if there is a live entry under it at all; and there is one when nothing was
      evicted since the last start, clear or replay -- through clears, session switches
      with their replay, and the quiet polls that settle a stream. */
  lemma EveryPollIsLive(
    session: string, db: Db, log: EventLog.Log, cap: nat, parses: string -> bool, acts: seq<Act>, due: bool)
    requires DbWellFormed(db) && AllLegal(Start(session, db), acts) && CalmDb(db) && forall a <- acts :: CalmAct(a)
    requires cap > 0
    ensures var s0, all := Start(session, db), acts + [Tick(due)];
            var s, live := Run(s0, all), Live(s0, log, cap, parses, all);
            forall m <- Parts.NewerThan(MsgsOf(s.db, s.w.session), s.seed) ::
              TextOf(m) != "" && m.role != "user" ==>
                && LogAgrees(live, m.id, TextOf(m))
                && (NothingEvicted(Base(s0, log, cap, parses, all), live) ==> LogSays(live, m.id, TextOf(m)))
  {
    assert CalmAct(Tick(due));
    hide Step, Base, Live, LogSays, LogAgrees, Spoken, CalmAct, AllLegal, LogCallbackAll, Start, LastText,
      NothingEvicted;
    var s0, all := Start(session, db), acts + [Tick(due)];
    var s, live := Run(s0, all), Live(s0, log, cap, parses, all);
    var msgs := MsgsOf(s.db, s.w.session);
    assert s0.trace == [] by { TraceOfRun(session, db, []); }
    LiveIsBaseAndTrace(s0, log, cap, parses, all);
    TextsOfRun(session, db, acts, due);
    TraceOfRun(session, db, all);
    CalmMsgs(s.db, s.w.session);
    forall m <- Parts.NewerThan(msgs, s.seed)
      ensures TextOf(m) != "" && m.role != "user" ==>
                && LogAgrees(live, m.id, TextOf(m))
                && (NothingEvicted(Base(s0, log, cap, parses, all), live) ==> LogSays(live, m.id, TextOf(m)))
    {
      if TextOf(m) != "" && m.role != "user" {
        AttributedIsSpoken(s.trace, msgs, m);
        LogSaysWhatWasLastSent(Base(s0, log, cap, parses, all), cap, s.trace, m.id, s.w.session, parses);
      }
    }
  }

  /** The same for parts: under the key of every part of such a message, the newest live
      entry says what the part said at the first poll that could see it. */
  lemma EveryPartIsLive(
    session: string, db: Db, log: EventLog.Log, cap: nat, parses: string -> bool, acts: seq<Act>, due: bool)
    requires DbWellFormed(db) && AllLegal(Start(session, db), acts) && CalmDb(db) && forall a <- acts :: CalmAct(a)
    requires cap > 0
    ensures var s0, all := Start(session, db), acts + [Tick(due)];
            var s, live := Run(s0, all), Live(s0, log, cap, parses, all);
            forall m, k :: m in Parts.NewerThan(MsgsOf(s.db, s.w.session), s.seed) && m.role != "user" &&
                           0 <= k < |AllSubs(m.parts)| ==>
                             ShowsPart(s0, log, cap, parses, all, Key(m.id, AllSubs(m.parts)[k].partID))
  {
    assert CalmAct(Tick(due));
    hide Step, ShowsPart, CalmAct, AllLegal, Start, Parts.FirstSeen, AllSubs;
    var s0, all := Start(session, db), acts + [Tick(due)];
    var s := Run(s0, all);
    var msgs := MsgsOf(s.db, s.w.session);
    TextsOfRun(session, db, acts, due);
    TraceOfRun(session, db, all);
    CalmMsgs(s.db, s.w.session);
    Parts.LegalFits(s0, acts);
    Parts.PartsAreSentOnceAsFirstSeen(session, db, acts, due);
    forall m, k | m in Parts.NewerThan(msgs, s.seed) && m.role != "user" && 0 <= k < |AllSubs(m.parts)|
      ensures ShowsPart(s0, log, cap, parses, all, Key(m.id, AllSubs(m.parts)[k].partID))
    {
      PartIsShown(s0, log, cap, parses, all, msgs, m, AllSubs(m.parts)[k].partID);
    }
  }

  /** The live log agrees with what was first seen under a key. */
  ghost predicate ShowsPart(
    s0: Sys, log: EventLog.Log, cap: nat, parses: string -> bool, acts: seq<Act>, key: string)
  {
    var seen, live := Parts.FirstSeen(s0, acts, key), Live(s0, log, cap, parses, acts);
    && seen.Some? && LogAgrees(live, key, seen.value.text)
    && (NothingEvicted(Base(s0, log, cap, parses, acts), live) ==> LogSays(live, key, seen.value.text))
  }

  lemma PartIsShown(
    s0: Sys, log: EventLog.Log, cap: nat, parses: string -> bool, acts: seq<Act>, msgs: seq<Msg>, m: Msg, part: string)
    requires cap > 0 && s0.trace == [] && WellFormed(msgs) && AllAttributed(Run(s0, acts).trace, msgs)
    requires m in msgs && m.role != "user" && !Blank(m.role)
    requires Parts.FirstSeen(s0, acts, Key(m.id, part)).Some?
    requires Parts.LastPart(Run(s0, acts).trace, Key(m.id, part)) == Parts.FirstSeen(s0, acts, Key(m.id, part))
    ensures ShowsPart(s0, log, cap, parses, acts, Key(m.id, part))
  {
    hide Live, Base, Run, Parts.FirstSeen, Parts.LastPart, LogSays, LogAgrees, LogCallbackAll, Blank, NothingEvicted,
      LastText;
    var s, key := Run(s0, acts), Key(m.id, part);
    LiveIsBaseAndTrace(s0, log, cap, parses, acts);
    KeyIsSpoken(s.trace, msgs, m, part);
    LastTextIsOfLastPart(s.trace, key);
    KeyHasColon(m.id, part);
    LogSaysWhatWasLastSent(Base(s0, log, cap, parses, acts), cap, s.trace, key, s.w.session, parses);
  }

  lemma TraceOfRun(session: string, db: Db, acts: seq<Act>)
    requires CalmDb(db) && forall a <- acts :: CalmAct(a)
    ensures TraceInv(Run(Start(session, db), acts)) && Start(session, db).trace == []
  {
    RunKeepsTrace(Start(session, db), acts);
  }

  ghost predicate NewTextsSent(msgs: seq<Msg>, seed: int, trace: seq<Event>) {
    forall i :: 0 <= i < |msgs| && seed < i && TextOf(msgs[i]) != "" ==>
                  LastText(trace, msgs[i].id) == Some(TextOf(msgs[i]))
  }

  lemma TextsOfNewer(msgs: seq<Msg>, seed: int, trace: seq<Event>)
    requires -1 <= seed && NewTextsSent(msgs, seed, trace)
    ensures forall m <- Parts.NewerThan(msgs, seed) ::
              m in msgs && (TextOf(m) != "" ==> LastText(trace, m.id) == Some(TextOf(m)))
  {
    hide LastText, TextOf;
    var newer := Parts.NewerThan(msgs, seed);
    forall m <- newer ensures m in msgs && (TextOf(m) != "" ==> LastText(trace, m.id) == Some(TextOf(m))) {
      var i :| 0 <= i < |newer| && newer[i] == m;
      assert msgs[seed + 1 + i] == m;
    }
  }

  lemma TextsOfRun(session: string, db: Db, acts: seq<Act>, due: bool)
    requires DbWellFormed(db) && AllLegal(Start(session, db), acts)
    ensures var s := Run(Start(session, db), acts + [Tick(due)]);
            var msgs := MsgsOf(s.db, s.w.session);
            && WellFormed(msgs)
            && forall m <- Parts.NewerThan(msgs, s.seed) ::
                 m in msgs && m.id != "" && (TextOf(m) != "" ==> LastText(s.trace, m.id) == Some(TextOf(m)))
  {
    hide Step, LastText, TextOf, AllLegal, Tracking, Parts.NewerThan;
    var s0, all := Start(session, db), acts + [Tick(due)];
    assert all[..|all| - 1] == acts;
    EveryPollReportsEverything(session, db, acts, due);
    StartTracks(session, db);
    RunKeeps(s0, acts);
    TickKeeps(Run(s0, acts), due);
    var s := Run(s0, all);
    assert -1 <= s.seed by { SeedIsInside(s); }
    TextsOfNewer(MsgsOf(s.db, s.w.session), s.seed, s.trace);
  }

  lemma SeedIsInside(s: Sys)
    requires SysInv(s)
    ensures -1 <= s.seed
  {
  }
}
