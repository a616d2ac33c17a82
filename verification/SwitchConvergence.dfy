/** A session switch converges: what the buffer holds afterwards is what the
    database says, once per id. */
module SwitchConvergence {
  import opened Options
  import opened OpenCode
  import opened OpenCodeRuns
  import opened SessionCores
  import opened SessionSwitch
  import EventLog

  function CoreOf(e: Event): Core {
    Core(e.role, e.text, e.kind, e.msgID)
  }

  function Cores(es: seq<Event>): (r: seq<Core>)
    ensures |r| == |es| && forall i :: 0 <= i < |r| ==> r[i] == CoreOf(es[i])
  {
    seq(|es|, i requires 0 <= i < |es| => CoreOf(es[i]))
  }

  lemma CoresOfConcat(a: seq<Event>, b: seq<Event>)
    ensures Cores(a + b) == Cores(a) + Cores(b)
  {
  }

  function CoreOfData(d: EventLog.Data): Core {
    Core(d.role, d.text, d.kind, d.msgId)
  }

  function Shape(es: seq<EventLog.Event>): (r: seq<Core>)
    ensures |r| == |es| && forall i :: 0 <= i < |r| ==> r[i] == CoreOfData(es[i].data)
  {
    seq(|es|, i requires 0 <= i < |es| => CoreOfData(es[i].data))
  }

  function SubCore(m: Info, s: Sub): Core {
    Core(m.role, s.text, s.kind, Key(m.id, s.partID))
  }

  /** What one message says: its parts, then its text if any. */
  function MessageCores(m: Info): (r: seq<Core>)
    ensures |r| == |m.subs| + if m.text != "" then 1 else 0
    ensures forall k :: 0 <= k < |m.subs| ==> r[k] == SubCore(m, m.subs[k])
    ensures m.text != "" ==> r[|m.subs|] == Core(m.role, m.text, "", m.id)
  {
    seq(|m.subs|, k requires 0 <= k < |m.subs| => SubCore(m, m.subs[k])) +
    if m.text != "" then [Core(m.role, m.text, "", m.id)] else []
  }

  function AllCores(ms: seq<Info>): seq<Core> {
    if ms == [] then [] else AllCores(ms[..|ms| - 1]) + MessageCores(ms[|ms| - 1])
  }

  /** No interactive tool, a role that is not blank, and distinct part ids. */
  ghost predicate Plain(m: Info) {
    && m.toolName == "" && !Blank(m.role) && m.id != "" && ':' !in m.id
    && (forall i, j :: 0 <= i < j < |m.subs| ==> m.subs[i].partID != m.subs[j].partID)
  }

  ghost predicate AllPlain(ms: seq<Info>) {
    && (forall i :: 0 <= i < |ms| ==> Plain(ms[i]))
    && (forall i, j :: 0 <= i < j < |ms| ==> ms[i].id != ms[j].id)
  }

  /* ---------- ids ---------- */

  ghost predicate Owns(owner: string, id: string) {
    id == owner || exists p :: id == Key(owner, p)
  }

  lemma OwnedKeyHasColon(owner: string, id: string)
    requires ':' !in owner && Owns(owner, id) && id != owner
    ensures ':' in id
  {
    var p :| id == Key(owner, p);
    KeyPrefix(owner, p);
  }

  lemma OwnersDiffer(a: string, b: string, id: string)
    requires ':' !in a && ':' !in b && Owns(a, id) && Owns(b, id)
    ensures a == b
  {
    if id != a && id != b {
      var p :| id == Key(a, p);
      var q :| id == Key(b, q);
      KeyPrefix(a, p);
      KeyPrefix(b, q);
    } else if id != a {
      OwnedKeyHasColon(a, id);
    } else if id != b {
      OwnedKeyHasColon(b, id);
    }
  }

  /** The owner is the part of a key before its first ':'. */
  lemma KeyPrefix(id: string, p: string)
    requires ':' !in id
    ensures Key(id, p)[|id|] == ':' && Key(id, p)[..|id|] == id && forall i :: 0 <= i < |id| ==> Key(id, p)[i] != ':'
    ensures ':' in Key(id, p)
  {
    assert forall i :: 0 <= i < |id| ==> Key(id, p)[i] == id[i] && id[i] in id;
    assert Key(id, p)[|id|] == ':';
  }

  lemma MessageCoresDistinct(m: Info)
    requires Plain(m)
    ensures DistinctIds(MessageCores(m))
    ensures forall i :: 0 <= i < |MessageCores(m)| ==> Owns(m.id, MessageCores(m)[i].id)
  {
    var r := MessageCores(m);
    forall i | 0 <= i < |r|
      ensures Owns(m.id, r[i].id) && r[i].id != ""
    {
      if i < |m.subs| {
        assert r[i].id == Key(m.id, m.subs[i].partID);
      }
    }
    forall i, j | 0 <= i < j < |r|
      ensures r[i].id != r[j].id
    {
      KeyPrefix(m.id, m.subs[i].partID);
      assert r[i].id == Key(m.id, m.subs[i].partID);
      if j < |m.subs| {
        var k := r[j].id;
        assert k == Key(m.id, m.subs[j].partID);
        assert k[|m.id| + 1..] == m.subs[j].partID && r[i].id[|m.id| + 1..] == m.subs[i].partID;
      }
    }
  }

  lemma {:induction false} AllCoresDistinct(ms: seq<Info>)
    requires AllPlain(ms)
    ensures DistinctIds(AllCores(ms))
    ensures forall i :: 0 <= i < |AllCores(ms)| ==> exists j :: 0 <= j < |ms| && Owns(ms[j].id, AllCores(ms)[i].id)
  {
    if ms != [] {
      var n := |ms| - 1;
      var a, b := AllCores(ms[..n]), MessageCores(ms[n]);
      AllCoresDistinct(ms[..n]);
      MessageCoresDistinct(ms[n]);
      forall i, j | 0 <= i < |a| && 0 <= j < |b|
        ensures a[i].id != b[j].id
      {
        var k :| 0 <= k < n && Owns(ms[..n][k].id, a[i].id);
        if a[i].id == b[j].id {
          OwnersDiffer(ms[k].id, ms[n].id, a[i].id);
        }
      }
      forall i | 0 <= i < |a + b|
        ensures exists j :: 0 <= j < |ms| && Owns(ms[j].id, (a + b)[i].id)
      {
        if i < |a| {
          var k :| 0 <= k < n && Owns(ms[..n][k].id, a[i].id);
          assert Owns(ms[k].id, (a + b)[i].id);
        } else {
          assert Owns(ms[n].id, (a + b)[i].id);
        }
      }
    }
  }

  /* ---------- what the poll after the switch sends ---------- */

  ghost predicate KeysOfEarlier(emitted: set<string>, ms: seq<Info>) {
    forall key :: key in emitted ==> exists j :: 0 <= j < |ms| && Owns(ms[j].id, key)
  }

  lemma {:induction false} AllSubsGoOut(em: set<string>, m: Info, n: nat, working: bool)
    requires n <= |m.subs| && Plain(m)
    requires forall k :: 0 <= k < |m.subs| ==> Key(m.id, m.subs[k].partID) !in em
    ensures var (em', out) := EmitSubs(em, m, n, working);
            && Cores(out) == MessageCores(m)[..n]
            && (forall key :: key in em' ==> key in em || Owns(m.id, key))
            && (forall k :: n <= k < |m.subs| ==> Key(m.id, m.subs[k].partID) !in em')
  {
    hide Plain;
    if n > 0 {
      AllSubsGoOut(em, m, n - 1, working);
      var (em1, out1) := EmitSubs(em, m, n - 1, working);
      var e := SubEvent(m, m.subs[n - 1], working);
      var key := Key(m.id, m.subs[n - 1].partID);
      CoresOfConcat(out1, [e]);
      assert CoreOf(e) == MessageCores(m)[n - 1];
      assert Owns(m.id, key);
      MessageCoresDistinct(m);
      assert forall k :: n <= k < |m.subs| ==> MessageCores(m)[k].id != MessageCores(m)[n - 1].id;
      assert MessageCores(m)[..n] == MessageCores(m)[..n - 1] + [CoreOf(e)];
      hide Owns;
    }
  }

  lemma FreshKeys(em: set<string>, ms: seq<Info>, m: Info)
    requires KeysOfEarlier(em, ms) && Plain(m)
    requires forall i :: 0 <= i < |ms| ==> ms[i].id != m.id && ':' !in ms[i].id
    ensures forall k :: 0 <= k < |m.subs| ==> Key(m.id, m.subs[k].partID) !in em
  {
    forall k | 0 <= k < |m.subs|
      ensures Key(m.id, m.subs[k].partID) !in em
    {
      var key := Key(m.id, m.subs[k].partID);
      assert Owns(m.id, key);
      if key in em {
        var j :| 0 <= j < |ms| && Owns(ms[j].id, key);
        OwnersDiffer(ms[j].id, m.id, key);
      }
    }
  }

  /** A completed message, or the newest one, sends what it consists of. */
  lemma MessageGoesOut(em: set<string>, m: Info, working: bool, rest: seq<Event>)
    requires Plain(m) && forall k :: 0 <= k < |m.subs| ==> Key(m.id, m.subs[k].partID) !in em
    ensures var (em', subs) := EmitSubs(em, m, |m.subs|, working);
            && Cores(subs + rest) == MessageCores(m)[..|m.subs|] + Cores(rest)
            && (forall key :: key in em' ==> key in em || Owns(m.id, key))
  {
    AllSubsGoOut(em, m, |m.subs|, working);
    var (em', subs) := EmitSubs(em, m, |m.subs|, working);
    CoresOfConcat(subs, rest);
  }

  lemma CompleteSends(w: W, m: Info)
    requires Plain(m) && w.streamID == "" && forall k :: 0 <= k < |m.subs| ==> Key(m.id, m.subs[k].partID) !in w.emitted
    ensures var t := Complete(w, m);
            && Cores(t.out) == MessageCores(m) && t.w.streamID == ""
            && (forall key :: key in t.w.emitted ==> key in w.emitted || Owns(m.id, key))
  {
    var rest := if Visible(m) then [TextEvent(m, if m.hasTool then Working else Standby)] else [];
    MessageGoesOut(w.emitted, m, false, rest);
    assert Cores(rest) == MessageCores(m)[|m.subs|..];
  }

  lemma NewStreamSends(w: W, m: Info)
    requires Plain(m) && forall k :: 0 <= k < |m.subs| ==> Key(m.id, m.subs[k].partID) !in w.emitted
    ensures Cores(NewStream(w, m).out) == MessageCores(m) + OpeningCores(m)
  {
    var rest := if Visible(m) then [TextEvent(m, Working)] else if m.role == "assistant" then [StatusEvent(m)] else [];
    MessageGoesOut(w.emitted, m, true, rest);
    assert Cores(rest) == MessageCores(m)[|m.subs|..] + OpeningCores(m);
  }

  lemma {:induction false} CompletedGoOut(w: W, ms: seq<Info>)
    requires AllPlain(ms) && w.streamID == "" && w.emitted == {}
    ensures var t := CompleteAll(w, ms);
            Cores(t.out) == AllCores(ms) && t.w.streamID == "" && KeysOfEarlier(t.w.emitted, ms)
  {
    hide Complete, EmitSubs, MessageCores, CoreOf;
    if ms != [] {
      var n := |ms| - 1;
      var m := ms[n];
      CompletedGoOut(w, ms[..n]);
      var t := CompleteAll(w, ms[..n]);
      FreshKeys(t.w.emitted, ms[..n], m);
      CompleteSends(t.w, m);
      CoresOfConcat(t.out, Complete(t.w, m).out);
      forall key | key in Complete(t.w, m).w.emitted
        ensures exists j :: 0 <= j < |ms| && Owns(ms[j].id, key)
      {
        if key in t.w.emitted {
          var j :| 0 <= j < n && Owns(ms[..n][j].id, key);
          assert Owns(ms[j].id, key);
        } else {
          assert Owns(ms[n].id, key);
        }
      }
    }
  }

  /** The status-only event of an assistant message that has no text yet. */
  function OpeningCores(m: Info): seq<Core> {
    if m.text == "" && m.role == "assistant" then [Core(m.role, "", "", m.id)] else []
  }

  function SwitchPollCores(ms: seq<Info>): seq<Core> {
    if ms == [] then [] else AllCores(ms) + OpeningCores(ms[|ms| - 1])
  }

  lemma {:induction false} SwitchPollSends(w: W, ms: seq<Info>)
    requires AllPlain(ms) && w.streamID == "" && w.emitted == {}
    ensures Cores(PollInfos(w, ms).out) == SwitchPollCores(ms)
  {
    hide Complete, CompleteAll, NewStream, Newest, EmitSubs, MessageCores, OpeningCores, CoreOf;
    if ms != [] {
      var n := |ms| - 1;
      var m := ms[n];
      CompletedGoOut(w, ms[..n]);
      var t := CompleteAll(w, ms[..n]);
      FreshKeys(t.w.emitted, ms[..n], m);
      NewStreamSends(t.w, m);
      EndsWithNewStream(w, ms);
      CoresOfConcat(t.out, NewStream(t.w, m).out);
    }
  }

  lemma EndsWithNewStream(w: W, ms: seq<Info>)
    requires ms != [] && ms[|ms| - 1].id != "" && CompleteAll(w, ms[..|ms| - 1]).w.streamID == ""
    ensures var t := CompleteAll(w, ms[..|ms| - 1]);
            PollInfos(w, ms).out == t.out + NewStream(t.w, ms[|ms| - 1]).out
  {
  }

  lemma {:induction false} HistorySends(ms: seq<Info>)
    requires AllPlain(ms)
    ensures Cores(HistoryOf(ms)) == AllCores(ms)
  {
    if ms != [] {
      var n := |ms| - 1;
      HistorySends(ms[..n]);
      CoresOfConcat(HistoryOf(ms[..n]), HistoryOfMessage(ms[n]));
      assert Cores(HistoryOfMessage(ms[n])) == MessageCores(ms[n]);
    }
  }

  /* ---------- the log and its shape ---------- */

  lemma {:induction false} NewestByShape(es: seq<EventLog.Event>, id: string)
    ensures EventLog.Newest(es, id) == NewestCore(Shape(es), id)
  {
    if es != [] {
      var n := |es| - 1;
      assert Shape(es)[..n] == Shape(es[..n]);
      NewestByShape(es[..n], id);
    }
  }

  /** An event without interactive tool and with a real role and id. */
  predicate Simple(e: Event) {
    e.toolUseName == "" && !Blank(e.role) && e.msgID != ""
  }

  /** The callback delivers the event, unless the log is full and it has to append. */
  lemma {:induction false} CallbackByShape(
    l: EventLog.Log, cap: nat, e: Event, session: string, parses: string -> bool)
    requires Simple(e)
    ensures var r, now := LogCallback(l, cap, e, session, parses), Deliver(Shape(l.entries), CoreOf(e));
            && (NothingEvicted(l, r) ==> Shape(r.entries) == now)
            && (|now| <= cap ==> NothingEvicted(l, r))
            && |l.entries| <= |now|
  {
    var d := CallbackPuts(l, cap, e, session, parses);
    hide LogCallback, Echo;
    if !Echo(Shape(l.entries), CoreOf(e)) {
      PutByShape(l, cap, d);
    }
  }

  /** Such an event is dropped as an echo or put under its id. */
  lemma CallbackPuts(l: EventLog.Log, cap: nat, e: Event, session: string, parses: string -> bool)
    returns (d: EventLog.Data)
    requires Simple(e)
    ensures CoreOfData(d) == CoreOf(e)
    ensures LogCallback(l, cap, e, session, parses) ==
            if Echo(Shape(l.entries), CoreOf(e)) then l else EventLog.Put(l, cap, d.msgId, d)
  {
    assert e.role != "";
    hide Blank, StatusName;
    d := Normalize(e, session, parses).value;
  }

  lemma PutByShape(l: EventLog.Log, cap: nat, d: EventLog.Data)
    requires d.msgId != ""
    ensures var r, es, c := EventLog.Put(l, cap, d.msgId, d), Shape(l.entries), CoreOfData(d);
            var i := NewestCore(es, c.id);
            var now := if i >= 0 then es[i := c] else es + [c];
            && (NothingEvicted(l, r) ==> Shape(r.entries) == now)
            && (|now| <= cap ==> NothingEvicted(l, r))
  {
    NewestByShape(l.entries, d.msgId);
    PushByShape(l, cap, d);
    EventLog.PutMayEvict(l, cap, d.msgId, d);
    hide EventLog.Push;
  }

  lemma PushByShape(l: EventLog.Log, cap: nat, d: EventLog.Data)
    ensures var r := EventLog.Push(l, cap, d);
            && (NothingEvicted(l, r) <==> |l.entries| < cap)
            && (NothingEvicted(l, r) ==> Shape(r.entries) == Shape(l.entries) + [CoreOfData(d)])
  {
    EventLog.PushMayEvict(l, cap, d);
  }

  lemma {:induction false} CallbackAllByShape(
    l: EventLog.Log, cap: nat, es: seq<Event>, session: string, parses: string -> bool)
    requires AllSimple(es) && NothingEvicted(l, LogCallbackAll(l, cap, es, session, parses))
    ensures Shape(LogCallbackAll(l, cap, es, session, parses).entries) == DeliverAll(Shape(l.entries), Cores(es))
  {
    hide LogCallback, Deliver, NothingEvicted;
    if es != [] {
      var n := |es| - 1;
      NothingEvictedOnTheWay(l, cap, es, session, parses);
      CallbackAllByShape(l, cap, es[..n], session, parses);
      CallbackByShape(LogCallbackAll(l, cap, es[..n], session, parses), cap, es[n], session, parses);
      assert Cores(es)[..n] == Cores(es[..n]);
    }
  }

  /** Nothing is evicted when what is live in the end fits the buffer. */
  lemma {:induction false} RoomIsEnough(
    l: EventLog.Log, cap: nat, es: seq<Event>, session: string, parses: string -> bool)
    requires AllSimple(es) && |DeliverAll(Shape(l.entries), Cores(es))| <= cap
    ensures NothingEvicted(l, LogCallbackAll(l, cap, es, session, parses))
  {
    hide LogCallback;
    if es != [] {
      var n := |es| - 1;
      var mid := LogCallbackAll(l, cap, es[..n], session, parses);
      assert Cores(es)[..n] == Cores(es[..n]);
      DeliverNeverShrinks(DeliverAll(Shape(l.entries), Cores(es[..n])), CoreOf(es[n]));
      hide Deliver;
      RoomIsEnough(l, cap, es[..n], session, parses);
      CallbackAllByShape(l, cap, es[..n], session, parses);
      CallbackByShape(mid, cap, es[n], session, parses);
    }
  }

  lemma ReplayStepByShape(l: EventLog.Log, cap: nat, e: Event, parses: string -> bool)
    requires Simple(e)
    ensures Normalize(e, "", parses).Some?
    ensures var r := EventLog.Push(l, cap, Normalize(e, "", parses).value);
            && (NothingEvicted(l, r) ==> Shape(r.entries) == Shape(l.entries) + [CoreOf(e)])
            && (NothingEvicted(l, r) <==> |l.entries| < cap)
            && EventLog.Gone(l) <= EventLog.Gone(r)
  {
    assert e.role != "";
    hide Blank, StatusName;
    PushByShape(l, cap, Normalize(e, "", parses).value);
    EventLog.PushMayEvict(l, cap, Normalize(e, "", parses).value);
  }

  lemma {:induction false} ReplayByShape(cap: nat, es: seq<Event>, parses: string -> bool)
    requires AllSimple(es)
    ensures var none := EventLog.Log(0, []);
            var r := LogReplay(none, cap, es, parses);
            && 0 <= EventLog.Gone(r) && (NothingEvicted(none, r) <==> |es| <= cap)
            && (NothingEvicted(none, r) ==> Shape(r.entries) == Cores(es))
  {
    hide Normalize, EventLog.Push;
    if es != [] {
      var n := |es| - 1;
      ReplayByShape(cap, es[..n], parses);
      var l := LogReplay(EventLog.Log(0, []), cap, es[..n], parses);
      ReplayStepByShape(l, cap, es[n], parses);
      if n <= cap {
        assert |l.entries| == |Shape(l.entries)| == n;
      }
      assert Cores(es) == Cores(es[..n]) + [CoreOf(es[n])];
    }
  }

  /* ---------- sent events are simple ---------- */

  ghost predicate AllSimple(es: seq<Event>) {
    forall i :: 0 <= i < |es| ==> Simple(es[i])
  }

  lemma {:induction false} SubsAreSimple(em: set<string>, m: Info, n: nat, working: bool)
    requires n <= |m.subs| && Plain(m)
    ensures AllSimple(EmitSubs(em, m, n, working).1)
  {
    if n > 0 {
      SubsAreSimple(em, m, n - 1, working);
    }
  }

  lemma {:induction false} CompletedAreSimple(w: W, ms: seq<Info>)
    requires AllPlain(ms)
    ensures AllSimple(CompleteAll(w, ms).out)
  {
    if ms != [] {
      var n := |ms| - 1;
      CompletedAreSimple(w, ms[..n]);
      var t := CompleteAll(w, ms[..n]);
      SubsAreSimple(t.w.emitted, ms[n], |ms[n].subs|, false);
    }
  }

  lemma {:induction false} PollIsSimple(w: W, ms: seq<Info>)
    requires AllPlain(ms) && w.streamID == "" && w.emitted == {}
    ensures AllSimple(PollInfos(w, ms).out)
  {
    hide CompleteAll, EmitSubs;
    if ms != [] {
      var n := |ms| - 1;
      CompletedAreSimple(w, ms[..n]);
      CompletedGoOut(w, ms[..n]);
      SubsAreSimple(CompleteAll(w, ms[..n]).w.emitted, ms[n], |ms[n].subs|, true);
    }
  }

  lemma {:induction false} HistoryIsSimple(ms: seq<Info>)
    requires AllPlain(ms)
    ensures AllSimple(HistoryOf(ms))
  {
    if ms != [] {
      HistoryIsSimple(ms[..|ms| - 1]);
      assert AllSimple(HistoryOfMessage(ms[|ms| - 1]));
    }
  }

  /* ---------- the session as it was and as it is ---------- */

  function PartIDs(m: Info): set<string> {
    set k | 0 <= k < |m.subs| :: m.subs[k].partID
  }

  /** From the moment the history was read to the moment the poll reads the window,
      messages may be added and the newest of the old ones may grow: its text does
      not disappear and its parts stay, in a user message in front of any new ones. */
  ghost predicate Grew(past: seq<Info>, now: seq<Info>) {
    && |past| <= |now|
    && (forall i :: 0 <= i < |past| - 1 ==> now[i] == past[i])
    && (past != [] ==>
          var a, b := past[|past| - 1], now[|past| - 1];
          && a.id == b.id && a.role == b.role && (a.text != "" ==> b.text != "")
          && PartIDs(a) <= PartIDs(b) && (a.role == "user" ==> PartsInFront(a, b)))
  }

  ghost predicate PartsInFront(a: Info, b: Info) {
    |a.subs| <= |b.subs| && forall k :: 0 <= k < |a.subs| ==> b.subs[k].partID == a.subs[k].partID
  }

  lemma {:induction false} AllCoresSplit(ms: seq<Info>, n: nat)
    requires n <= |ms|
    ensures exists rest :: AllCores(ms) == AllCores(ms[..n]) + rest
    decreases |ms|
  {
    hide MessageCores;
    if n == |ms| {
      assert ms[..n] == ms;
      assert AllCores(ms) == AllCores(ms[..n]) + [];
    } else {
      var m := |ms| - 1;
      AllCoresSplit(ms[..m], n);
      assert ms[..m][..n] == ms[..n];
      var rest :| AllCores(ms[..m]) == AllCores(ms[..n]) + rest;
      assert AllCores(ms) == AllCores(ms[..n]) + (rest + MessageCores(ms[m]));
    }
  }

  lemma GrownIdsRemain(a: Info, b: Info)
    requires a.id == b.id && (a.text != "" ==> b.text != "")
    requires PartIDs(a) <= PartIDs(b)
    ensures Ids(MessageCores(a)) <= Ids(MessageCores(b))
  {
    forall id | id in Ids(MessageCores(a))
      ensures id in Ids(MessageCores(b))
    {
      var i :| 0 <= i < |MessageCores(a)| && MessageCores(a)[i].id == id;
      if i < |a.subs| {
        assert a.subs[i].partID in PartIDs(b);
        var l :| 0 <= l < |b.subs| && b.subs[l].partID == a.subs[i].partID;
        assert MessageCores(b)[l].id == id;
      } else {
        assert MessageCores(b)[|b.subs|].id == id;
      }
    }
  }

  lemma OpeningKeepsDistinct(ms: seq<Info>)
    requires AllPlain(ms) && ms != []
    ensures DistinctIds(SwitchPollCores(ms))
  {
    hide MessageCores, Plain;
    var n := |ms| - 1;
    var a, b := AllCores(ms[..n]), MessageCores(ms[n]);
    AllCoresDistinct(ms);
    assert AllCores(ms) == a + b;
    if OpeningCores(ms[n]) != [] {
      NotAmongEarlier(ms);
      NotAmongSubs(ms[n]);
      OneMoreDistinct(a, b, OpeningCores(ms[n])[0]);
    } else {
      assert SwitchPollCores(ms) == a + b;
    }
  }

  lemma OneMoreDistinct(a: seq<Core>, b: seq<Core>, c: Core)
    requires DistinctIds(a + b) && c.id != ""
    requires forall i :: 0 <= i < |a| ==> a[i].id != c.id
    requires forall i :: 0 <= i < |b| ==> b[i].id != c.id
    ensures DistinctIds((a + b) + [c])
  {
    forall i | 0 <= i < |a + b|
      ensures (a + b)[i].id != c.id
    {
      assert i < |a| ==> (a + b)[i] == a[i];
      assert i >= |a| ==> (a + b)[i] == b[i - |a|];
    }
    var s := a + b;
    assert forall i :: 0 <= i < |s| ==> (s + [c])[i] == s[i];
  }

  lemma NotAmongEarlier(ms: seq<Info>)
    requires AllPlain(ms) && ms != []
    ensures var n := |ms| - 1; forall i :: 0 <= i < |AllCores(ms[..n])| ==> AllCores(ms[..n])[i].id != ms[n].id
  {
    var n := |ms| - 1;
    var a, m := AllCores(ms[..n]), ms[n];
    AllCoresDistinct(ms[..n]);
    forall i | 0 <= i < |a|
      ensures a[i].id != m.id
    {
      var j :| 0 <= j < n && Owns(ms[..n][j].id, a[i].id);
      assert Owns(m.id, m.id);
      if a[i].id == m.id {
        OwnersDiffer(ms[j].id, m.id, m.id);
      }
    }
  }

  lemma NotAmongSubs(m: Info)
    requires Plain(m) && m.text == ""
    ensures m.id != ""
    ensures forall k :: 0 <= k < |MessageCores(m)| ==> MessageCores(m)[k].id != m.id
  {
    forall k | 0 <= k < |MessageCores(m)|
      ensures MessageCores(m)[k].id != m.id
    {
      KeyPrefix(m.id, m.subs[k].partID);
    }
  }

  lemma {:induction false} GrowthSplits(past: seq<Info>, now: seq<Info>) returns (newer: seq<Core>)
    requires Grew(past, now) && past != []
    ensures var p := |past| - 1;
            && AllCores(past) == AllCores(past[..p]) + MessageCores(past[p])
            && SwitchPollCores(now) == AllCores(past[..p]) + MessageCores(now[p]) + newer
  {
    hide MessageCores, OpeningCores, PartIDs, PartsInFront;
    var p := |past| - 1;
    assert past[..p] == now[..p];
    hide AllCores, Grew;
    LastCores(past);
    LastCores(now[..p + 1]);
    assert now[..p + 1][..p] == now[..p];
    AllCoresSplit(now, p + 1);
    var rest :| AllCores(now) == AllCores(now[..p + 1]) + rest;
    newer := rest + OpeningCores(now[|now| - 1]);
    assert (AllCores(past[..p]) + MessageCores(now[p]) + rest) + OpeningCores(now[|now| - 1])
        == AllCores(past[..p]) + MessageCores(now[p]) + newer;
  }

  lemma LastCores(ms: seq<Info>)
    requires ms != []
    ensures AllCores(ms) == AllCores(ms[..|ms| - 1]) + MessageCores(ms[|ms| - 1])
  {
  }

  /** The shape that `SwitchConverges` needs. */
  lemma {:induction false} GrowthHasSwitchShape(past: seq<Info>, now: seq<Info>)
    returns (frozen: seq<Core>, newer: seq<Core>)
    requires AllPlain(past) && AllPlain(now) && Grew(past, now) && past != []
    ensures var was, grown := MessageCores(past[|past| - 1]), MessageCores(now[|past| - 1]);
            && SwitchShape(frozen, was, grown, newer)
            && frozen + was == AllCores(past) && frozen + grown + newer == SwitchPollCores(now)
  {
    var p := |past| - 1;
    frozen := AllCores(past[..p]);
    newer := GrowthSplits(past, now);
    assert DistinctIds(frozen + MessageCores(now[p]) + newer) by { OpeningKeepsDistinct(now); }
    assert DistinctIds(frozen + MessageCores(past[p])) by { AllCoresDistinct(past); }
    GrownIdsRemain(past[p], now[p]);
  }

  lemma MessageRoles(m: Info)
    ensures forall i :: 0 <= i < |MessageCores(m)| ==> MessageCores(m)[i].role == m.role
  {
  }

  /** The text of the last event replayed for a message. */
  function LastSaid(m: Info): string {
    if m.text != "" || m.subs == [] then m.text else m.subs[|m.subs| - 1].text
  }

  /** A changed part of a user message now reads like the last event replayed, or its
      changed text reads like its last part, which is new. */
  ghost predicate Unlucky(a: Info, b: Info) {
    && a.role == "user" && |a.subs| <= |b.subs|
    && ((exists k :: 0 <= k < |a.subs| && SubCore(b, b.subs[k]) != SubCore(a, a.subs[k])
                     && b.subs[k].text == LastSaid(a))
        || (a.text != "" && b.text != a.text && |b.subs| > |a.subs| && b.subs[|b.subs| - 1].text == b.text))
  }

  lemma UserMessageHasShape(a: Info, b: Info)
    requires a.role == b.role == "user" && a.id == b.id && (a.text != "" ==> b.text != "") && PartsInFront(a, b)
    ensures UserShape(MessageCores(a), MessageCores(b), |a.subs|, |b.subs|)
  {
    MessageRoles(a);
    MessageRoles(b);
    var p, g, n := MessageCores(a), MessageCores(b), |a.subs|;
    forall k | 0 <= k < n ensures p[k].id == g[k].id {
      assert p[k] == SubCore(a, a.subs[k]) && g[k] == SubCore(b, b.subs[k]);
    }
  }

  lemma MistakenMeansUnlucky(a: Info, b: Info)
    requires a.role == b.role == "user" && a.id == b.id && (a.text != "" ==> b.text != "") && PartsInFront(a, b)
    requires UserShape(MessageCores(a), MessageCores(b), |a.subs|, |b.subs|)
    ensures Mistaken(MessageCores(a), MessageCores(b), |a.subs|, |b.subs|) <==> Unlucky(a, b)
  {
    var p, g, n, m := MessageCores(a), MessageCores(b), |a.subs|, |b.subs|;
    assert p != [] ==> p[|p| - 1].text == LastSaid(a);
    assert forall k :: 0 <= k < m ==> g[k].text == b.subs[k].text;
    hide SubCore, MessageCores, UserShape, PartsInFront, LastSaid;
    assert forall k :: 0 <= k < n ==> p[k] == SubCore(a, a.subs[k]) && g[k] == SubCore(b, b.subs[k]);
    if k :| 0 <= k < n && g[k] != p[k] && g[k].text == p[|p| - 1].text {
      assert b.subs[k].text == LastSaid(a);
    }
    if k :| 0 <= k < n && SubCore(b, b.subs[k]) != SubCore(a, a.subs[k]) && b.subs[k].text == LastSaid(a) {
      assert g[k] != p[k];
    }
  }

  /* ---------- the theorem ---------- */

  ghost predicate SaysText(m: Info, c: Core) {
    c.id == m.id && c.role == m.role && c.text == m.text && c.kind == ""
  }

  ghost predicate SaysPart(m: Info, c: Core) {
    exists k :: 0 <= k < |m.subs| && c == SubCore(m, m.subs[k])
  }

  /** What an id of the session says: a message its text, a part key its part. */
  ghost predicate SaysNow(ms: seq<Info>, c: Core) {
    exists i :: 0 <= i < |ms| && (SaysText(ms[i], c) || SaysPart(ms[i], c))
  }

  lemma MessageSaysNow(m: Info, x: Core)
    requires x in MessageCores(m)
    ensures SaysText(m, x) || SaysPart(m, x)
  {
  }

  lemma {:induction false} AllCoresSayNow(ms: seq<Info>)
    ensures forall x :: x in AllCores(ms) ==> SaysNow(ms, x)
    ensures forall i, x :: 0 <= i < |ms| && x in MessageCores(ms[i]) ==> x in AllCores(ms)
  {
    hide MessageCores, SaysText, SaysPart;
    if ms != [] {
      var n := |ms| - 1;
      AllCoresSayNow(ms[..n]);
      forall x | x in AllCores(ms)
        ensures SaysNow(ms, x)
      {
        if x in AllCores(ms[..n]) {
          var j :| 0 <= j < n && (SaysText(ms[..n][j], x) || SaysPart(ms[..n][j], x));
          assert SaysText(ms[j], x) || SaysPart(ms[j], x);
        } else {
          MessageSaysNow(ms[n], x);
        }
      }
      forall i, x | 0 <= i < |ms| && x in MessageCores(ms[i])
        ensures x in AllCores(ms)
      {
        assert i < n ==> ms[..n][i] == ms[i];
      }
    }
  }

  ghost predicate PollSaysNow(ms: seq<Info>) {
    forall x :: x in SwitchPollCores(ms) ==> SaysNow(ms, x)
  }

  lemma PollCoresSayNow(ms: seq<Info>)
    ensures PollSaysNow(ms)
    ensures forall i, x :: 0 <= i < |ms| && x in MessageCores(ms[i]) ==> x in SwitchPollCores(ms)
  {
    AllCoresSayNow(ms);
    if ms != [] {
      var m := ms[|ms| - 1];
      assert OpeningCores(m) != [] ==> SaysText(m, OpeningCores(m)[0]);
    }
  }

  ghost function AfterSwitch(w: W, session: string, past: seq<Msg>, now: seq<Msg>, cap: nat,
                             parses: string -> bool): EventLog.Log {
    var replayed := LogReplay(EventLog.Log(0, []), cap, HistoryOf(Infos(past)), parses);
    LogCallbackAll(replayed, cap, PollMsgs(Switched(w, session), now).out, session, parses)
  }

  lemma SwitchPollOut(w: W, session: string, now: seq<Msg>)
    requires WellFormed(now) && AllPlain(Infos(now))
    ensures var out := PollMsgs(Switched(w, session), now).out;
            Cores(out) == SwitchPollCores(Infos(now)) && AllSimple(out)
  {
    var v := Switched(w, session);
    assert Tracking(v, now, -1, -1, []);
    WindowIsEverythingAfterCursor(v, now, -1, -1, []);
    assert now[0..] == now;
    PollIsSimple(v, Infos(now));
    SwitchPollSends(v, Infos(now));
  }

  lemma ShapeAfterSwitch(
    w: W, session: string, past: seq<Msg>, now: seq<Msg>, cap: nat, parses: string -> bool)
    requires WellFormed(now) && AllPlain(Infos(past)) && AllPlain(Infos(now))
    requires NothingEvicted(EventLog.Log(0, []), AfterSwitch(w, session, past, now, cap, parses))
    ensures Shape(AfterSwitch(w, session, past, now, cap, parses).entries) ==
            DeliverAll(AllCores(Infos(past)), SwitchPollCores(Infos(now)))
  {
    hide PollMsgs, HistoryOf, WellFormed, AllPlain, AllCores, SwitchPollCores, LogCallback, Switched;
    var none, hist, out := EventLog.Log(0, []), HistoryOf(Infos(past)), PollMsgs(Switched(w, session), now).out;
    var l := LogReplay(none, cap, hist, parses);
    HistoryIsSimple(Infos(past));
    HistorySends(Infos(past));
    ReplayByShape(cap, hist, parses);
    SwitchPollOut(w, session, now);
    CallbacksMayEvict(l, cap, out, 0, session, parses);
    assert out[..0] == [];
    CallbackAllByShape(l, cap, out, session, parses);
  }

  /** A session that fits the buffer evicts nothing, though it arrives twice. */
  lemma OneSessionFits(
    w: W, session: string, past: seq<Msg>, now: seq<Msg>, cap: nat, parses: string -> bool)
    requires WellFormed(now) && AllPlain(Infos(past)) && AllPlain(Infos(now)) && Grew(Infos(past), Infos(now))
    requires |PollMsgs(Switched(w, session), now).out| <= cap
    ensures NothingEvicted(EventLog.Log(0, []), AfterSwitch(w, session, past, now, cap, parses))
  {
    hide PollMsgs, HistoryOf, WellFormed, AllPlain, AllCores, SwitchPollCores, LogCallback, Switched, Grew;
    var hist, out := HistoryOf(Infos(past)), PollMsgs(Switched(w, session), now).out;
    var l := LogReplay(EventLog.Log(0, []), cap, hist, parses);
    HistoryIsSimple(Infos(past));
    HistorySends(Infos(past));
    SwitchPollOut(w, session, now);
    SessionIsCounted(Infos(past), Infos(now));
    ReplayByShape(cap, hist, parses);
    RoomIsEnough(l, cap, out, session, parses);
  }

  /** What has arrived has distinct ids, all of them the session's own. */
  lemma SessionIsCounted(past: seq<Info>, now: seq<Info>)
    requires AllPlain(past) && AllPlain(now) && Grew(past, now)
    ensures var want := SwitchPollCores(now);
            |AllCores(past)| <= |want| && |DeliverAll(AllCores(past), want)| <= |want|
  {
    hide AllPlain, AllCores, SwitchPollCores, MessageCores;
    var want := SwitchPollCores(now);
    AllCoresDistinct(past);
    if now == [] {
      assert past == [] && AllCores(past) == [] && want == [] by { NothingSent(past, now); }
    } else {
      OpeningKeepsDistinct(now);
      if past == [] {
        assert AllCores(past) == [] by { NothingSent(past, now); }
      } else {
        var frozen, newer := GrowthHasSwitchShape(past, now);
        IdsAreAmong(frozen, MessageCores(past[|past| - 1]), MessageCores(now[|past| - 1]), newer);
      }
      DeliverAllKeepsIds(AllCores(past), want, Ids(want));
      FewerThanIds(AllCores(past), want);
      FewerThanIds(DeliverAll(AllCores(past), want), want);
    }
  }

  lemma NothingSent(past: seq<Info>, now: seq<Info>)
    requires |past| <= |now|
    ensures past == [] ==> AllCores(past) == []
    ensures now == [] ==> past == [] && SwitchPollCores(now) == []
  {
  }

  /** No id is live twice, every entry says what the database says under its id, the
      text of every message is live under its id or, for a user message, shown by a
      user entry, and every part of the other messages is live. */
  ghost predicate CoresConverged(r: seq<Core>, ms: seq<Info>) {
    && DistinctIds(r)
    && (forall c <- r :: SaysNow(ms, c))
    && (forall i :: 0 <= i < |ms| && ms[i].text != "" ==> TextShown(r, ms[i]))
    && (forall i, k :: 0 <= i < |ms| && 0 <= k < |ms[i].subs| && ms[i].role != "user" ==>
                         SubCore(ms[i], ms[i].subs[k]) in r)
  }

  ghost predicate TextShown(r: seq<Core>, m: Info) {
    exists c <- r :: c.role == m.role && c.text == m.text && (c.id == m.id || m.role == "user")
  }

  /** Nothing stale and everything shown, perhaps apart from parts of user messages. */
  lemma ConvergedWhenShown(r: seq<Core>, ms: seq<Info>)
    requires Good(r, SwitchPollCores(ms), {})
    requires forall x :: x in SwitchPollCores(ms) && (x.role != "user" || x.kind == "") ==>
                           Shown(r, SwitchPollCores(ms), x)
    ensures CoresConverged(r, ms)
  {
    var want := SwitchPollCores(ms);
    PollCoresSayNow(ms);
    forall c <- r ensures SaysNow(ms, c) {
      var i :| 0 <= i < |r| && r[i] == c;
    }
    forall i | 0 <= i < |ms| && ms[i].text != "" ensures TextShown(r, ms[i]) {
      var x := MessageCores(ms[i])[|ms[i].subs|];
      assert x in MessageCores(ms[i]) && x in want && Shown(r, want, x);
    }
    forall i, k | 0 <= i < |ms| && 0 <= k < |ms[i].subs| && ms[i].role != "user"
      ensures SubCore(ms[i], ms[i].subs[k]) in r
    {
      var x := MessageCores(ms[i])[k];
      assert x in MessageCores(ms[i]) && x in want && Shown(r, want, x);
    }
  }

  /** What is said under an id of a message and is not among what the poll sends is not
      what the database says. */
  lemma SaysNowIsSent(ms: seq<Info>, p: nat, e: Core)
    requires AllPlain(ms) && p < |ms| && e.id in Ids(MessageCores(ms[p])) && SaysNow(ms, e)
    ensures e in SwitchPollCores(ms)
  {
    PollCoresSayNow(ms);
    var i :| 0 <= i < |ms| && (SaysText(ms[i], e) || SaysPart(ms[i], e));
    if SaysPart(ms[i], e) {
      var k :| 0 <= k < |ms[i].subs| && e == SubCore(ms[i], ms[i].subs[k]);
      assert MessageCores(ms[i])[k] == e && e in MessageCores(ms[i]);
    } else {
      TextUnderAnId(ms, p, i, e);
    }
  }

  lemma TextUnderAnId(ms: seq<Info>, p: nat, i: nat, e: Core)
    requires AllPlain(ms) && p < |ms| && i < |ms| && e.id in Ids(MessageCores(ms[p])) && SaysText(ms[i], e)
    ensures e in MessageCores(ms[i])
  {
    var g := MessageCores(ms[p]);
    var j :| 0 <= j < |g| && g[j].id == e.id;
    MessageCoresDistinct(ms[p]);
    assert Owns(ms[p].id, e.id) && Owns(ms[i].id, e.id);
    OwnersDiffer(ms[p].id, ms[i].id, e.id);
    assert p == i;
    forall k | 0 <= k < |ms[p].subs| ensures g[k].id != ms[p].id {
      KeyPrefix(ms[p].id, ms[p].subs[k].partID);
    }
    assert j == |ms[p].subs| && g[j] == e;
  }

  lemma KindsOfCores(ms: seq<Info>, m: Info)
    requires forall k :: 0 <= k < |m.subs| ==> m.subs[k].kind != ""
    ensures forall x :: x in MessageCores(m)[..|m.subs|] ==> x.kind != "" && x.role == m.role
  {
  }

  ghost predicate AllKinds(ms: seq<Info>) {
    forall i, k :: 0 <= i < |ms| && 0 <= k < |ms[i].subs| ==> ms[i].subs[k].kind != ""
  }

  lemma CoresConvergeExactlyWhen(past: seq<Info>, now: seq<Info>)
    requires AllPlain(past) && AllPlain(now) && Grew(past, now) && AllKinds(now)
    ensures CoresConverged(DeliverAll(AllCores(past), SwitchPollCores(now)), now)
       <==> past == [] || !Unlucky(past[|past| - 1], now[|past| - 1])
  {
    hide AllPlain, SaysNow, MessageCores, AllCores, CoresConverged, SwitchPollCores;
    var want := SwitchPollCores(now);
    var r := DeliverAll(AllCores(past), want);
    if past == [] {
      NothingReplayed(now);
      ConvergedWhenShown(r, now);
    } else {
      var p := |past| - 1;
      var frozen, newer := GrowthHasSwitchShape(past, now);
      if past[p].role != "user" {
        MessageRoles(now[p]);
        SwitchConverges(frozen, MessageCores(past[p]), MessageCores(now[p]), newer);
        ConvergedWhenShown(r, now);
      } else {
        UserCoresConvergeExactlyWhen(past, now, frozen, newer);
      }
    }
  }

  lemma NothingReplayed(now: seq<Info>)
    requires AllPlain(now)
    ensures var want := SwitchPollCores(now);
            && Good(DeliverAll(AllCores([]), want), want, {})
            && forall x :: x in want ==> Shown(DeliverAll(AllCores([]), want), want, x)
  {
    var want := SwitchPollCores(now);
    if now != [] {
      OpeningKeepsDistinct(now);
    }
    assert Good([], want, {});
    DeliverFresh([], want, want);
  }

  lemma UserCoresConvergeExactlyWhen(past: seq<Info>, now: seq<Info>, frozen: seq<Core>, newer: seq<Core>)
    requires AllPlain(now) && Grew(past, now) && AllKinds(now) && past != [] && past[|past| - 1].role == "user"
    requires var was, grown := MessageCores(past[|past| - 1]), MessageCores(now[|past| - 1]);
             && SwitchShape(frozen, was, grown, newer)
             && frozen + was == AllCores(past) && frozen + grown + newer == SwitchPollCores(now)
    ensures CoresConverged(DeliverAll(AllCores(past), SwitchPollCores(now)), now)
       <==> !Unlucky(past[|past| - 1], now[|past| - 1])
  {
    hide SaysNow, MessageCores, AllCores, SwitchPollCores, SwitchShape, Mistaken, Unlucky, UserShape;
    var p := |past| - 1;
    var a, b := past[p], now[p];
    var r := DeliverAll(AllCores(past), SwitchPollCores(now));
    UserMessageHasShape(a, b);
    MistakenMeansUnlucky(a, b);
    UserSwitchConvergesExactlyWhen(frozen, MessageCores(a), MessageCores(b), newer, |a.subs|, |b.subs|);
    if Unlucky(a, b) {
      var e :| e in r && e !in SwitchPollCores(now) && e.id in Ids(MessageCores(b));
      if SaysNow(now, e) {
        SaysNowIsSent(now, p, e);
      }
    } else {
      KindsOfCores(now, b);
      ConvergedWhenShown(r, now);
    }
  }

  /** No id is live twice, and every live entry says what the database says under its id. */
  ghost predicate EachSaysNow(es: seq<EventLog.Event>, ms: seq<Info>) {
    && (forall i :: 0 <= i < |es| ==> es[i].data.msgId != "" && SaysNow(ms, CoreOfData(es[i].data)))
    && (forall i, j :: 0 <= i < j < |es| ==> es[i].data.msgId != es[j].data.msgId)
  }

  /** The text of every message is live under its id or, for a user message, shown by a
      user entry. */
  ghost predicate EachTextShown(es: seq<EventLog.Event>, ms: seq<Info>) {
    forall i :: 0 <= i < |ms| && ms[i].text != "" ==> TextLive(es, ms[i])
  }

  ghost predicate TextLive(es: seq<EventLog.Event>, m: Info) {
    exists e <- es :: e.data.role == m.role && e.data.text == m.text && (e.data.msgId == m.id || m.role == "user")
  }

  ghost predicate CoreLive(es: seq<EventLog.Event>, c: Core) {
    exists e <- es :: CoreOfData(e.data) == c
  }

  /** Every part of a message that is not by a user is live as it is. */
  ghost predicate EachPartShown(es: seq<EventLog.Event>, ms: seq<Info>) {
    forall i, k :: 0 <= i < |ms| && 0 <= k < |ms[i].subs| && ms[i].role != "user" ==>
                     CoreLive(es, SubCore(ms[i], ms[i].subs[k]))
  }

  /** The live log has converged to the session as the database has it. */
  ghost predicate Converged(es: seq<EventLog.Event>, ms: seq<Info>) {
    EachSaysNow(es, ms) && EachTextShown(es, ms) && EachPartShown(es, ms)
  }

  lemma ConvergedByShape(es: seq<EventLog.Event>, ms: seq<Info>)
    ensures Converged(es, ms) <==> CoresConverged(Shape(es), ms)
  {
    if CoresConverged(Shape(es), ms) {
      EntriesFollowShape(es, ms);
      ShownFollowsShape(es, ms);
    }
    if Converged(es, ms) {
      ShapeFollowsLog(es, ms);
    }
  }

  lemma EntriesFollowShape(es: seq<EventLog.Event>, ms: seq<Info>)
    requires CoresConverged(Shape(es), ms)
    ensures EachSaysNow(es, ms)
  {
    hide SaysNow, TextShown;
    var r := Shape(es);
    forall i | 0 <= i < |es|
      ensures r[i] == CoreOfData(es[i].data) && es[i].data.msgId == r[i].id != "" && SaysNow(ms, CoreOfData(es[i].data))
    {
      assert r[i] in r;
    }
    forall i, j | 0 <= i < j < |es| ensures es[i].data.msgId != es[j].data.msgId {
      assert r[i].id != r[j].id;
    }
  }

  lemma ShownFollowsShape(es: seq<EventLog.Event>, ms: seq<Info>)
    requires CoresConverged(Shape(es), ms)
    ensures EachTextShown(es, ms) && EachPartShown(es, ms)
  {
    hide SaysNow, DistinctIds;
    var r := Shape(es);
    forall i | 0 <= i < |ms| && ms[i].text != ""
      ensures TextLive(es, ms[i])
    {
      assert TextShown(r, ms[i]);
      var c :| c in r && c.role == ms[i].role && c.text == ms[i].text && (c.id == ms[i].id || ms[i].role == "user");
      var k :| 0 <= k < |r| && r[k] == c;
      assert es[k] in es;
    }
    forall i, k | 0 <= i < |ms| && 0 <= k < |ms[i].subs| && ms[i].role != "user"
      ensures CoreLive(es, SubCore(ms[i], ms[i].subs[k]))
    {
      var j :| 0 <= j < |r| && r[j] == SubCore(ms[i], ms[i].subs[k]);
      assert es[j] in es;
    }
  }

  lemma ShapeFollowsLog(es: seq<EventLog.Event>, ms: seq<Info>)
    requires Converged(es, ms)
    ensures CoresConverged(Shape(es), ms)
  {
    hide SaysNow;
    var r := Shape(es);
    forall e <- es ensures CoreOfData(e.data) in r {
      var k :| 0 <= k < |es| && es[k] == e;
      assert r[k] in r;
    }
    forall i | 0 <= i < |ms| && ms[i].text != "" ensures TextShown(r, ms[i]) {
      assert TextLive(es, ms[i]);
      var e :| e in es && e.data.role == ms[i].role && e.data.text == ms[i].text
               && (e.data.msgId == ms[i].id || ms[i].role == "user");
      assert CoreOfData(e.data) in r;
    }
    forall i, k | 0 <= i < |ms| && 0 <= k < |ms[i].subs| && ms[i].role != "user"
      ensures SubCore(ms[i], ms[i].subs[k]) in r
    {
      assert CoreLive(es, SubCore(ms[i], ms[i].subs[k]));
    }
  }

  /** A session switch, exactly, when nothing is evicted.  After the reset, the replay of
      the history as it was, and the poll that sends the session as it is by now, the
      live log has converged unless the message that was newest is by a user and one of
      its changes is taken for an echo: a changed part that now reads like the last
      event replayed, or a changed text that reads like a last part that is new. */
  lemma SessionSwitchConvergesExactlyWhen(w: W, session: string, past: seq<Msg>, now: seq<Msg>, cap: nat,
                                          parses: string -> bool)
    requires WellFormed(now) && AllPlain(Infos(past)) && AllPlain(Infos(now)) && Grew(Infos(past), Infos(now))
    requires NothingEvicted(EventLog.Log(0, []), AfterSwitch(w, session, past, now, cap, parses))
    ensures Converged(AfterSwitch(w, session, past, now, cap, parses).entries, Infos(now))
       <==> past == [] || !Unlucky(InfoOf(past[|past| - 1]), InfoOf(now[|past| - 1]))
  {
    hide AfterSwitch, HistoryOf, PollMsgs, AllPlain, WellFormed, SwitchPollCores, CoresConverged, Converged, Shape,
      Switched, Unlucky;
    ShapeAfterSwitch(w, session, past, now, cap, parses);
    forall i, k | 0 <= i < |now| && 0 <= k < |Infos(now)[i].subs| ensures Infos(now)[i].subs[k].kind != "" {
      SubKinds(now[i].parts);
    }
    CoresConvergeExactlyWhen(Infos(past), Infos(now));
    ConvergedByShape(AfterSwitch(w, session, past, now, cap, parses).entries, Infos(now));
  }

  /** A user message with two reasoning parts. */
  function TwoThoughts(first: string): Msg {
    Msg("m", 1, "user", [Part("1", Reasoning(first)), Part("2", Reasoning("xy"))])
  }

  /** The first part grows to the text of the second between replay and poll: the log
      keeps the first as it was. */
  lemma EchoHidesAGrownUserPart(w: W, session: string, cap: nat, parses: string -> bool)
    requires |PollMsgs(Switched(w, session), [TwoThoughts("xy")]).out| <= cap
    ensures !Converged(AfterSwitch(w, session, [TwoThoughts("x")], [TwoThoughts("xy")], cap, parses).entries,
                       Infos([TwoThoughts("xy")]))
  {
    hide *;
    FirstThoughtGrew();
    OneSessionFits(w, session, [TwoThoughts("x")], [TwoThoughts("xy")], cap, parses);
    SessionSwitchConvergesExactlyWhen(w, session, [TwoThoughts("x")], [TwoThoughts("xy")], cap, parses);
  }

  lemma FirstThoughtGrew()
    ensures var a, b := TwoThoughts("x"), TwoThoughts("xy");
            && WellFormed([b]) && AllPlain(Infos([a])) && AllPlain(Infos([b]))
            && Grew(Infos([a]), Infos([b])) && Unlucky(InfoOf(a), InfoOf(b))
  {
    ThoughtsArePlain("x");
    ThoughtsArePlain("xy");
    hide TwoThoughts, WellFormed, AllPlain, InfoOf;
    FirstPartGrew(InfoOf(TwoThoughts("x")), InfoOf(TwoThoughts("xy")));
  }

  lemma ThoughtsArePlain(first: string)
    requires first != ""
    ensures var m := TwoThoughts(first);
            var i := InfoOf(m);
            && WellFormed([m]) && Infos([m]) == [i] && AllPlain([i])
            && i.id == "m" && i.role == "user" && i.text == ""
            && i.subs == [Sub("1", "thinking", first, "", "", ""), Sub("2", "thinking", "xy", "", "", "")]
  {
    TwoReasoningParts(first, "xy");
  }

  lemma FirstPartGrew(a: Info, b: Info)
    requires a.id == b.id && a.role == b.role == "user" && a.text == b.text == ""
    requires a.subs == [Sub("1", "thinking", "x", "", "", ""), Sub("2", "thinking", "xy", "", "", "")]
    requires b.subs == [Sub("1", "thinking", "xy", "", "", ""), Sub("2", "thinking", "xy", "", "", "")]
    ensures Unlucky(a, b) && Grew([a], [b])
  {
    assert SubCore(b, b.subs[0]) != SubCore(a, a.subs[0]) && b.subs[0].text == LastSaid(a);
    forall id <- PartIDs(a) ensures id in PartIDs(b) {
      var k :| 0 <= k < |a.subs| && a.subs[k].partID == id;
      assert b.subs[k].partID == id;
    }
  }

  lemma {:induction false} ReasoningOnly(parts: seq<Part>)
    requires forall p <- parts :: p.body.Reasoning?
    ensures Texts(parts) == [] && FirstInteractive(parts) == None
  {
    if parts != [] {
      ReasoningOnly(parts[..|parts| - 1]);
      assert parts[|parts| - 1] in parts;
    }
  }

  lemma TwoReasoningParts(x: string, y: string)
    requires x != "" && y != ""
    ensures var m := InfoOf(Msg("m", 1, "user", [Part("1", Reasoning(x)), Part("2", Reasoning(y))]));
            && Plain(m) && m.text == ""
            && m.subs == [Sub("1", "thinking", x, "", "", ""), Sub("2", "thinking", y, "", "", "")]
  {
    var parts := [Part("1", Reasoning(x)), Part("2", Reasoning(y))];
    hide Blank, Texts, AllSubs, FirstInteractive, HasTool;
    UserIsNotBlank();
    ReasoningOnly(parts);
    SubsOfTwo(parts[0], parts[1]);
  }

  lemma SubsOfTwo(p: Part, q: Part)
    requires p.body.Reasoning? && q.body.Reasoning? && p.body.text != "" && q.body.text != ""
    ensures AllSubs([p, q]) ==
            [Sub(p.id, "thinking", p.body.text, "", "", ""), Sub(q.id, "thinking", q.body.text, "", "", "")]
  {
    assert [p, q][..1] == [p] && [p][..0] == [];
    assert AllSubs([]) == [];
    assert AllSubs([p]) == [] + SubsOf(p);
    assert AllSubs([p, q]) == AllSubs([p]) + SubsOf(q);
  }

  lemma UserIsNotBlank()
    ensures !Blank("user")
  {
    assert !IsSpace('u') && "user"[0] == 'u';
  }
}
