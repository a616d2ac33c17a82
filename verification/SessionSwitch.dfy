/** A session switch end to end: the manager clears buffer and table, replays the
    history of the new session, and the watcher sends that whole session again. */
module SessionSwitch {
  import opened Options
  import opened OpenCode
  import opened OpenCodeWatching
  import opened OpenCodeReading
  import opened OpenCodeEvents
  import opened CreatedAt
  import EventLog
  import ConversationLog
  import Paging = HistoryPaging

  /* ---------- history of a session ---------- */

  function HistorySub(m: Info, s: Sub): Event {
    SubEvent(m, s, true).(status := None)
  }

  function HistoryText(m: Info): Event {
    TextEvent(m, Working).(status := None)
  }

  function HistoryOfMessage(m: Info): (r: seq<Event>)
  {
    seq(|m.subs|, k requires 0 <= k < |m.subs| => HistorySub(m, m.subs[k])) +
    if Visible(m) then [HistoryText(m)] else []
  }

  function HistoryOf(ms: seq<Info>): seq<Event> {
    if ms == [] then [] else HistoryOf(ms[..|ms| - 1]) + HistoryOfMessage(ms[|ms| - 1])
  }

  lemma {:induction false} TextsAreNotEmpty(parts: seq<Part>)
    ensures forall i :: 0 <= i < |Texts(parts)| ==> Texts(parts)[i] != ""
    ensures Texts(parts) == [] <==> Lines(Texts(parts)) == ""
  {
    if parts != [] {
      TextsAreNotEmpty(parts[..|parts| - 1]);
    }
  }

  /** All events of a session: per message its reasoning and tool parts in order,
      then its joined text or interactive tool. */
  method OpenCodeDBHistory(msgs: seq<Msg>) returns (events: seq<Event>)
    ensures events == HistoryOf(Infos(msgs))
  {
    hide InfoOf, Texts, Lines;
    events := [];
    for i := 0 to |msgs|
      invariant events == HistoryOf(Infos(msgs)[..i])
    {
      var info := OpenCodeDBWatcher.ReadParts(msgs[i]);
      assert Infos(msgs)[..i + 1][..i] == Infos(msgs)[..i];
      var mine: seq<Event> := [];
      for k := 0 to |info.subs|
        invariant mine == seq(k, j requires 0 <= j < k && k <= |info.subs| => HistorySub(info, info.subs[j]))
      {
        mine := mine + [HistorySub(info, info.subs[k])];
      }
      TextsAreNotEmpty(msgs[i].parts);
      if |Texts(msgs[i].parts)| > 0 || info.toolName != "" {
        mine := mine + [HistoryText(info)];
      }
      assert mine == HistoryOfMessage(info);
      events := events + mine;
    }
    assert Infos(msgs)[..|msgs|] == Infos(msgs);
  }

  /* ---------- the manager's side ---------- */

  predicate IsSpace(c: char) {
    c == ' ' || ('\t' <= c <= '\r') || c == '\U{85}' || c == '\U{A0}' || c == '\U{1680}' ||
    ('\U{2000}' <= c <= '\U{200A}') || c == '\U{2028}' || c == '\U{2029}' || c == '\U{202F}' ||
    c == '\U{205F}' || c == '\U{3000}'
  }

  predicate Blank(s: string) {
    forall i :: 0 <= i < |s| ==> IsSpace(s[i])
  }

  function StatusName(s: Option<Status>): string {
    match s
    case None => ""
    case Some(Working) => "working"
    case Some(Standby) => "standby"
  }

  /** The stored form of an event, or None when it has nothing to show.  An
      interactive tool whose input `parses` becomes a structured event without an
      id of its own. */
  function Normalize(e: Event, session: string, parses: string -> bool): Option<EventLog.Data> {
    var extra := EventLog.Extra(e.toolName, session, StatusName(e.status));
    if e.toolUseName != "" && parses(e.toolInput) then
      Some(EventLog.Data("assistant", "", false, "ask_user_question", EventLog.Question(e.toolUseID, e.toolInput), "",
                         extra.(toolName := "")))
    else if e.text == "" && e.role == "" && e.kind == "" && e.toolName == "" then None
    else Some(EventLog.Data(e.role, e.text, false, e.kind, EventLog.NoPayload, e.msgID, extra))
  }

  predicate StatusOnly(e: Event) {
    Blank(e.role) && Blank(e.text) && e.toolUseName == "" && e.kind == "" && e.toolName == ""
  }

  predicate UserEcho(last: EventLog.Event, e: Event) {
    e.role == "user" && last.data.role == "user" && last.data.text == e.text
  }

  function LastEntry(l: EventLog.Log): EventLog.Event {
    if l.entries == [] then EventLog.Event(0, EventLog.NO_DATA) else l.entries[|l.entries| - 1]
  }

  function LogCallback(l: EventLog.Log, cap: nat, e: Event, session: string, parses: string -> bool): EventLog.Log {
    if StatusOnly(e) || UserEcho(LastEntry(l), e) then l
    else
      match Normalize(e, session, parses)
      case None => l
      case Some(d) => if e.msgID != "" then EventLog.Put(l, cap, d.msgId, d) else EventLog.Push(l, cap, d)
  }

  /** From `l` to `r` no live entry was evicted: as many numbers are gone as before. */
  predicate NothingEvicted(l: EventLog.Log, r: EventLog.Log) {
    EventLog.Gone(l) == EventLog.Gone(r)
  }

  lemma CallbackMayEvict(l: EventLog.Log, cap: nat, e: Event, session: string, parses: string -> bool)
    ensures EventLog.Gone(l) <= EventLog.Gone(LogCallback(l, cap, e, session, parses))
  {
    hide Blank, StatusName, EventLog.Push, EventLog.Put, EventLog.Gone;
    match Normalize(e, session, parses)
    case None =>
    case Some(d) =>
      EventLog.PushMayEvict(l, cap, d);
      EventLog.PutMayEvict(l, cap, d.msgId, d);
  }

  lemma {:induction false} CallbacksMayEvict(
    l: EventLog.Log, cap: nat, es: seq<Event>, n: nat, session: string, parses: string -> bool)
    requires n <= |es|
    ensures EventLog.Gone(LogCallbackAll(l, cap, es[..n], session, parses))
         <= EventLog.Gone(LogCallbackAll(l, cap, es, session, parses))
    decreases |es|
  {
    hide LogCallback, EventLog.Gone;
    if n == |es| {
      assert es[..n] == es;
    } else {
      var k := |es| - 1;
      CallbacksMayEvict(l, cap, es[..k], n, session, parses);
      assert es[..k][..n] == es[..n];
      CallbackMayEvict(LogCallbackAll(l, cap, es[..k], session, parses), cap, es[k], session, parses);
    }
  }

  /** When nothing was evicted over all the events, nothing was over the first of them,
      nor by the last. */
  lemma NothingEvictedOnTheWay(l: EventLog.Log, cap: nat, es: seq<Event>, session: string, parses: string -> bool)
    requires es != [] && NothingEvicted(l, LogCallbackAll(l, cap, es, session, parses))
    ensures var mid := LogCallbackAll(l, cap, es[..|es| - 1], session, parses);
            NothingEvicted(l, mid) && NothingEvicted(mid, LogCallback(mid, cap, es[|es| - 1], session, parses))
  {
    hide LogCallback, EventLog.Gone;
    CallbacksMayEvict(l, cap, es, |es| - 1, session, parses);
    CallbacksMayEvict(l, cap, es[..|es| - 1], 0, session, parses);
    assert es[..|es| - 1][..0] == [];
  }

  /** Whether the callback rewrites a live entry rather than adding one. */
  predicate CallbackUpdates(l: EventLog.Log, e: Event, session: string, parses: string -> bool) {
    && !StatusOnly(e) && !UserEcho(LastEntry(l), e) && e.msgID != ""
    && Normalize(e, session, parses).Some? && EventLog.PutUpdates(l, Normalize(e, session, parses).value.msgId)
  }

  function LogCallbackAll(l: EventLog.Log, cap: nat, es: seq<Event>, session: string,
                          parses: string -> bool): EventLog.Log {
    if es == [] then l
    else LogCallback(LogCallbackAll(l, cap, es[..|es| - 1], session, parses), cap, es[|es| - 1], session, parses)
  }

  function LogReplay(l: EventLog.Log, cap: nat, es: seq<Event>, parses: string -> bool): EventLog.Log {
    if es == [] then l
    else
      var m := LogReplay(l, cap, es[..|es| - 1], parses);
      match Normalize(es[|es| - 1], "", parses)
      case None => m
      case Some(d) => EventLog.Push(m, cap, d)
  }

  /* ---------- what the callback logs ---------- */

  /** White space, one by one. */
  lemma WhiteSpaceIs(c: char)
    ensures IsSpace(c) <==>
            c in ['\t', '\n', '\U{0B}', '\U{0C}', '\r', ' ', '\U{85}', '\U{A0}', '\U{1680}', '\U{2000}', '\U{2001}',
                  '\U{2002}', '\U{2003}', '\U{2004}', '\U{2005}', '\U{2006}', '\U{2007}', '\U{2008}', '\U{2009}',
                  '\U{200A}', '\U{2028}', '\U{2029}', '\U{202F}', '\U{205F}', '\U{3000}']
  {
  }

  /** An event that asks something the manager can read. */
  predicate AsksReadably(e: Event, parses: string -> bool) {
    e.toolUseName != "" && parses(e.toolInput)
  }

  /** What is stored of an event. */
  function Stored(e: Event, session: string, parses: string -> bool): EventLog.Data {
    var status := if e.status == Some(Working) then "working" else if e.status == Some(Standby) then "standby" else "";
    if AsksReadably(e, parses) then
      EventLog.Data("assistant", "", false, "ask_user_question", EventLog.Question(e.toolUseID, e.toolInput), "",
                    EventLog.Extra("", session, status))
    else
      EventLog.Data(e.role, e.text, false, e.kind, EventLog.NoPayload, e.msgID,
                    EventLog.Extra(e.toolName, session, status))
  }

  /** Events that are not logged: a bare status, and a user's text said again. */
  predicate NotLogged(l: EventLog.Log, e: Event) {
    || ((forall i :: 0 <= i < |e.role| ==> IsSpace(e.role[i])) && (forall i :: 0 <= i < |e.text| ==> IsSpace(e.text[i]))
        && e.toolUseName == "" && e.kind == "" && e.toolName == "")
    || (e.role == "user" && l.entries != [] && l.entries[|l.entries| - 1].data.role == "user"
        && l.entries[|l.entries| - 1].data.text == e.text)
  }

  /** The data goes to the newest live entry with the event's id, which keeps its number,
      or to a new entry when there is none, and always for a question. */
  ghost predicate LoggedAs(l: EventLog.Log, r: EventLog.Log, cap: nat, id: string, d: EventLog.Data) {
    if id != "" && exists i :: 0 <= i < |l.entries| && l.entries[i].data.msgId == id then
      exists i :: NewestWith(l.entries, id, i) &&
                  r == l.(entries := l.entries[i := EventLog.Event(l.entries[i].seqNo, d)])
    else
      && r.counter == l.counter + 1 && r.entries != []
      && r.entries[|r.entries| - 1] == EventLog.Event(l.counter + 1, d)
      && (|l.entries| < cap ==> r.entries[..|r.entries| - 1] == l.entries)
  }

  predicate NewestWith(es: seq<EventLog.Event>, id: string, i: int) {
    0 <= i < |es| && es[i].data.msgId == id && forall j :: i < j < |es| ==> es[j].data.msgId != id
  }

  /** Every event is either not logged, or logged as it is under its id. */
  lemma CallbackLogs(l: EventLog.Log, cap: nat, e: Event, session: string, parses: string -> bool)
    requires cap > 0
    ensures var r := LogCallback(l, cap, e, session, parses);
            if NotLogged(l, e) || (e.role == "" && e.text == "" && e.kind == "" && e.toolName == ""
                                   && !AsksReadably(e, parses))
            then r == l
            else LoggedAs(l, r, cap, if AsksReadably(e, parses) then "" else e.msgID, Stored(e, session, parses))
  {
    assert NotLogged(l, e) ==> StatusOnly(e) || UserEcho(LastEntry(l), e);
    if !NotLogged(l, e) && Normalize(e, session, parses).Some? {
      var d := Normalize(e, session, parses).value;
      assert d == Stored(e, session, parses);
      hide IsSpace;
      var i := EventLog.Newest(l.entries, d.msgId);
      if 0 <= i {
        assert NewestWith(l.entries, d.msgId, i);
      }
    }
  }

  /** What is called an update is an event that is logged under an id that is live. */
  lemma UpdatesAreTold(l: EventLog.Log, e: Event, session: string, parses: string -> bool)
    ensures CallbackUpdates(l, e, session, parses) <==>
            && !NotLogged(l, e) && !AsksReadably(e, parses) && e.msgID != ""
            && (e.role != "" || e.text != "" || e.kind != "" || e.toolName != "")
            && exists i :: 0 <= i < |l.entries| && l.entries[i].data.msgId == e.msgID
  {
    assert NotLogged(l, e) <==> StatusOnly(e) || UserEcho(LastEntry(l), e);
    hide IsSpace, NotLogged, StatusOnly, UserEcho;
    if Normalize(e, session, parses).Some? {
      var i := EventLog.Newest(l.entries, Normalize(e, session, parses).value.msgId);
    }
  }

  /** A question has no id once it is stored, so each time it is sent it is logged anew. */
  lemma QuestionIsLoggedAgain(l: EventLog.Log, cap: nat, e: Event, session: string, parses: string -> bool)
    requires cap > 1 && AsksReadably(e, parses) && e.role == "assistant"
    ensures var r := LogCallbackAll(l, cap, [e, e], session, parses);
            && r.counter == l.counter + 2 && |r.entries| >= 2
            && forall k :: |r.entries| - 2 <= k < |r.entries| ==>
                             && r.entries[k].data.kind == "ask_user_question"
                             && r.entries[k].data.payload == EventLog.Question(e.toolUseID, e.toolInput)
  {
    hide *;
    var d := Stored(e, session, parses);
    TwoCallbacks(l, cap, e, session, parses);
    QuestionIsPushed(l, cap, e, session, parses);
    QuestionIsPushed(EventLog.Push(l, cap, d), cap, e, session, parses);
    TwoPushes(l, cap, d);
    QuestionIsStored(e, session, parses);
    EndsWithTwo(LogCallbackAll(l, cap, [e, e], session, parses).entries, d,
                EventLog.Question(e.toolUseID, e.toolInput));
  }

  lemma QuestionIsStored(e: Event, session: string, parses: string -> bool)
    requires AsksReadably(e, parses)
    ensures var d := Stored(e, session, parses);
            d.kind == "ask_user_question" && d.payload == EventLog.Question(e.toolUseID, e.toolInput)
  {
  }

  lemma EndsWithTwo(es: seq<EventLog.Event>, d: EventLog.Data, payload: EventLog.Payload)
    requires |es| >= 2 && es[|es| - 1].data == d == es[|es| - 2].data
    requires d.kind == "ask_user_question" && d.payload == payload
    ensures forall k :: |es| - 2 <= k < |es| ==> es[k].data.kind == "ask_user_question" && es[k].data.payload == payload
  {
  }

  lemma TwoPushes(l: EventLog.Log, cap: nat, d: EventLog.Data)
    requires cap > 1
    ensures var r := EventLog.Push(EventLog.Push(l, cap, d), cap, d);
            && r.counter == l.counter + 2 && |r.entries| >= 2
            && r.entries[|r.entries| - 1].data == d == r.entries[|r.entries| - 2].data
  {
    LastOne(l, cap, d);
    LastOne(EventLog.Push(l, cap, d), cap, d);
    LastTwo(EventLog.Push(l, cap, d), cap, d);
    hide EventLog.Push;
  }

  lemma TwoCallbacks(l: EventLog.Log, cap: nat, e: Event, session: string, parses: string -> bool)
    ensures LogCallbackAll(l, cap, [e, e], session, parses) ==
            LogCallback(LogCallback(l, cap, e, session, parses), cap, e, session, parses)
  {
    hide LogCallback;
    assert [e, e][..1] == [e] && [e][..0] == [];
    assert LogCallbackAll(l, cap, [], session, parses) == l;
    assert LogCallbackAll(l, cap, [e], session, parses) == LogCallback(l, cap, e, session, parses);
  }

  lemma LastOne(l: EventLog.Log, cap: nat, d: EventLog.Data)
    requires cap > 0
    ensures var r := EventLog.Push(l, cap, d);
            r.counter == l.counter + 1 && r.entries != [] && r.entries[|r.entries| - 1].data == d
  {
  }

  lemma QuestionIsPushed(l: EventLog.Log, cap: nat, e: Event, session: string, parses: string -> bool)
    requires AsksReadably(e, parses) && e.role == "assistant"
    ensures LogCallback(l, cap, e, session, parses) == EventLog.Push(l, cap, Stored(e, session, parses))
  {
    hide IsSpace;
    assert e.role[0] == 'a';
  }

  lemma LastTwo(l: EventLog.Log, cap: nat, d: EventLog.Data)
    requires cap > 1 && l.entries != []
    ensures var r := EventLog.Push(l, cap, d);
            && |r.entries| >= 2 && r.entries[|r.entries| - 1].data == d
            && r.entries[|r.entries| - 2] == l.entries[|l.entries| - 1]
  {
  }

  /** The history of a message shows its parts said apart, one each and in order, and then
      the message in full, all without a status. */
  lemma HistoryShowsAll(m: Msg) returns (at: seq<nat>)
    ensures var h := HistoryOfMessage(InfoOf(m));
            && (forall i, j :: 0 <= i < j < |at| ==> at[i] < at[j])
            && (forall k :: 0 <= k < |m.parts| ==> (SaidApart(m.parts[k]) <==> k in at))
            && |h| == |at| + (if HasMore(m) then 1 else 0)
            && (forall i :: 0 <= i < |at| ==>
                              && at[i] < |m.parts| && h[i].status == None
                              && ShowsPart(h[i].(status := StatusFor(m, Working)), m, m.parts[at[i]], Working))
            && (HasMore(m) ==> h[|at|] == InFull(m).(status := None))
  {
    at := SubsAreTheParts(m.parts);
    FirstQuestionIsAsked(m);
    var i := InfoOf(m);
    assert (exists p <- m.parts :: IsQuestion(p)) <==> i.toolName != "";
    forall k | 0 <= k < |at|
      ensures at[k] < |m.parts|
      ensures ShowsPart(HistorySub(i, i.subs[k]).(status := StatusFor(m, Working)), m, m.parts[at[k]], Working)
    {
      SubShowsPart(m, i.subs[k], m.parts[at[k]], true);
    }
  }

  /* ---------- buffer and table ---------- */

  ghost function CallbackState(s: ConversationLog.State, cap: nat, e: Event, session: string, now: Time,
                               parses: string -> bool): ConversationLog.State {
    if StatusOnly(e) || UserEcho(LastEntry(s.log), e) then s
    else
      match Normalize(e, session, parses)
      case None => s
      case Some(d) =>
        ConversationLog.Step(s, cap, if e.msgID != "" then ConversationLog.ActUpdate(d, session, now)
                             else ConversationLog.ActAppend(d, session, now))
  }

  ghost function ReplayState(cap: nat, es: seq<Event>, session: string, now: Time,
                             parses: string -> bool): ConversationLog.State {
    if es == [] then ConversationLog.State(EventLog.Log(0, []), map[])
    else
      var s := ReplayState(cap, es[..|es| - 1], session, now, parses);
      match Normalize(es[|es| - 1], "", parses)
      case None => s
      case Some(d) => ConversationLog.Step(s, cap, ConversationLog.ActAppend(d, session, now))
  }

  /** The callback writes at most one row, under the agent's session and dated now, and it
      says what is stored of the event. */
  lemma CallbackWrites(s: ConversationLog.State, cap: nat, e: Event, session: string, now: Time, parses: string -> bool)
    returns (n: nat)
    ensures var r := CallbackState(s, cap, e, session, now, parses);
            && r.log == LogCallback(s.log, cap, e, session, parses)
            && (r == s || r.rows == s.rows[n := ConversationLog.Row(session, Stored(e, session, parses), now)])
  {
    hide IsSpace, EventLog.Push, EventLog.Newest;
    n := s.log.counter + 1;
    if Normalize(e, session, parses).Some? {
      assert Normalize(e, session, parses).value == Stored(e, session, parses);
      if e.msgID != "" {
        n := EventLog.PutSeq(s.log, Stored(e, session, parses).msgId);
      }
    }
  }

  /** Every row of a replay was written under the session replayed. */
  lemma {:induction false} ReplayIsOfOneSession(cap: nat, es: seq<Event>, session: string, now: Time,
                                                parses: string -> bool)
    ensures forall k :: k in ReplayState(cap, es, session, now, parses).rows ==>
                          ReplayState(cap, es, session, now, parses).rows[k].session == session
  {
    hide Normalize;
    if es != [] {
      ReplayIsOfOneSession(cap, es[..|es| - 1], session, now, parses);
    }
  }

  class AgentSession {
    const events: ConversationLog.EventManager
    var resumeSession: string

    constructor (events: ConversationLog.EventManager, session: string)
      ensures this.events == events && resumeSession == session
    {
      this.events := events;
      resumeSession := session;
    }

    /** The callback of every watcher. */
    method WatcherCallback(e: Event, now: Time, parses: string -> bool) returns (isUpdate: bool)
      requires events.Valid()
      modifies events.buf, events.buf.buf, events.store
      ensures events.Valid()
      ensures events.View() == CallbackState(old(events.View()), events.buf.cap, e, resumeSession, now, parses)
      ensures events.View().log == LogCallback(old(events.View().log), events.buf.cap, e, resumeSession, parses)
      ensures isUpdate == CallbackUpdates(old(events.View().log), e, resumeSession, parses)
      ensures ConversationLog.Coherent(old(events.View())) ==> ConversationLog.Coherent(events.View())
    {
      hide Blank, StatusName, ConversationLog.Coherent;
      isUpdate := false;
      if StatusOnly(e) {
        return;
      }
      if e.role == "user" {
        var last := events.buf.LastEvent();
        if last.data.role == "user" && last.data.text == e.text {
          return;
        }
      }
      var data := Normalize(e, resumeSession, parses);
      if data.None? {
        return;
      }
      ghost var was := events.View();
      if e.msgID != "" {
        var n;
        n, isUpdate := events.UpdateOrAppendEvent(data.value, resumeSession, now);
        CoherentAfter(was, events.buf.cap, ConversationLog.ActUpdate(data.value, resumeSession, now));
      } else {
        var n := events.AppendAndPersistEvent(data.value, resumeSession, now);
        CoherentAfter(was, events.buf.cap, ConversationLog.ActAppend(data.value, resumeSession, now));
      }
    }

    /** The session-switch callback: follow the session, start from nothing, and
        replay its history. */
    method OnSessionSwitch(newSession: string, history: seq<Event>, now: Time, parses: string -> bool)
      requires events.Valid()
      modifies this, events.buf, events.buf.buf, events.store
      ensures events.Valid() && resumeSession == newSession
      ensures events.View() == ReplayState(events.buf.cap, history, newSession, now, parses)
      ensures events.View().log == LogReplay(EventLog.Log(0, []), events.buf.cap, history, parses)
      ensures ConversationLog.Coherent(events.View())
    {
      resumeSession := newSession;
      events.ResetAndClear();
      for i := 0 to |history|
        invariant events.Valid() && resumeSession == newSession && ConversationLog.Coherent(events.View())
        invariant events.View() == ReplayState(events.buf.cap, history[..i], newSession, now, parses)
        invariant events.View().log == LogReplay(EventLog.Log(0, []), events.buf.cap, history[..i], parses)
      {
        assert history[..i + 1][..i] == history[..i];
        var data := Normalize(history[i], "", parses);
        if data.Some? {
          ghost var was := events.View();
          var n := events.AppendAndPersistEvent(data.value, resumeSession, now);
          CoherentAfter(was, events.buf.cap, ConversationLog.ActAppend(data.value, resumeSession, now));
        }
      }
      assert history[..|history|] == history;
    }
  }

  lemma CoherentAfter(s: ConversationLog.State, cap: nat, a: ConversationLog.Act)
    requires cap > 0
    ensures ConversationLog.Coherent(s) ==> ConversationLog.Coherent(ConversationLog.Step(s, cap, a))
  {
    if ConversationLog.Coherent(s) {
      Paging.StepKeepsCoherence(s, cap, a);
    }
  }
}
