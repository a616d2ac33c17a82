/** The newest message while it streams: when a question in it is sent, and what the
    count of quiet polls does. */
module OpenCodeStreaming {
  import opened Options
  import opened OpenCode
  import opened OpenCodeReading
  import opened OpenCodeRuns
  import opened OpenCodeReports
  import opened OpenCodeEvents

  /* ---------- what is remembered of the message ---------- */

  ghost predicate Busy(m: Msg) {
    exists p <- m.parts :: Active(p)
  }

  /** If the message goes on streaming, its text and activity are remembered and its
      parts have been sent. */
  ghost predicate Remembered(w: W, m: Msg) {
    w.streamID != "" ==>
      && w.streamID == m.id && w.streamText == TextOf(m) && (w.streamTool <==> Busy(m))
      && SubsSent(w.emitted, m)
  }

  lemma NewestIsRemembered(w: W, m: Msg)
    requires m.id != ""
    ensures Remembered(Newest(w, InfoOf(m)).w, m)
  {
    var i := InfoOf(m);
    AllKeysSent(w.emitted, i, |i.subs|, true);
    hide EmitSubs, Key;
    if m.id == w.streamID && Unchanged(w, i) {
      assert forall k :: 0 <= k < |i.subs| ==> Key(m.id, i.subs[k].partID) in w.emitted;
    }
  }

  lemma {:induction false} AllKeysSent(em: set<string>, m: Info, n: nat, working: bool)
    requires n <= |m.subs|
    ensures var em' := EmitSubs(em, m, n, working).0;
            em <= em' && forall k :: 0 <= k < n ==> Key(m.id, m.subs[k].partID) in em'
  {
    if n > 0 {
      AllKeysSent(em, m, n - 1, working);
    }
  }

  /** Among the events is the message with its question, in full but still at work. */
  predicate Asks(out: seq<Event>, m: Msg) {
    exists e <- out :: e.toolUseName == "AskUserQuestion" && e == InFull(m).(status := StatusFor(m, Working))
  }

  /** Of what one poll of the streaming message sends, the question is part exactly when
      there is one and the text, the activity or an unsent part is new. */
  lemma QuestionGoesOut(w: W, was: Msg, now: Msg)
    requires w.streamID == now.id == was.id != "" && Remembered(w, was)
    ensures Asks(Restream(w, InfoOf(now)).out, now) <==>
            (exists p <- now.parts :: IsQuestion(p)) && Changed(w.emitted, was, now)
  {
    var i := InfoOf(now);
    var out := Restream(w, i).out;
    FirstQuestionIsAsked(now);
    assert i.toolName == "" <==> !exists p <- now.parts :: IsQuestion(p);
    assert Unchanged(w, i) <==> !Changed(w.emitted, was, now) by { PendingPart(w.emitted, now); }
    SubsAskNothing(w.emitted, i, |i.subs|, true);
    hide EmitSubs, Pending;
    if !Unchanged(w, i) && i.toolName != "" {
      assert out[|out| - 1] == TextEvent(i, Working);
      assert TextEvent(i, Working) in out;
    }
  }

  ghost predicate Changed(emitted: set<string>, was: Msg, now: Msg) {
    || TextOf(was) != TextOf(now) || (Busy(was) <==> !Busy(now))
    || exists p <- now.parts :: SaidApart(p) && now.id + ":" + p.id !in emitted
  }

  lemma PendingPart(emitted: set<string>, m: Msg)
    ensures Pending(emitted, InfoOf(m)) <==>
            exists p <- m.parts :: SaidApart(p) && m.id + ":" + p.id !in emitted
  {
    var at := SubsAreTheParts(m.parts);
    var subs := AllSubs(m.parts);
    if k :| 0 <= k < |subs| && Key(m.id, subs[k].partID) !in emitted {
      assert at[k] in at && m.parts[at[k]] in m.parts;
    }
    if p :| p in m.parts && SaidApart(p) && m.id + ":" + p.id !in emitted {
      var i :| 0 <= i < |m.parts| && m.parts[i] == p;
      var k :| 0 <= k < |at| && at[k] == i;
      assert subs[k].partID == p.id;
    }
  }

  lemma {:induction false} SubsAskNothing(em: set<string>, m: Info, n: nat, working: bool)
    requires n <= |m.subs|
    ensures forall e <- EmitSubs(em, m, n, working).1 :: e.toolUseName == ""
  {
    if n > 0 {
      SubsAskNothing(em, m, n - 1, working);
    }
  }

  lemma FreshQuestionGoesOut(w: W, now: Msg)
    ensures Asks(NewStream(w, InfoOf(now)).out, now) <==>
            (exists p <- now.parts :: IsQuestion(p))
  {
    var i := InfoOf(now);
    var out := NewStream(w, i).out;
    FirstQuestionIsAsked(now);
    assert i.toolName == "" <==> !exists p <- now.parts :: IsQuestion(p);
    SubsAskNothing(w.emitted, i, |i.subs|, true);
    hide EmitSubs;
    if i.toolName != "" {
      assert out[|out| - 1] == TextEvent(i, Working);
      assert TextEvent(i, Working) in out;
    }
  }

  /* ---------- over runs ---------- */

  lemma PollInfosRemembers(w: W, infos: seq<Info>, m: Msg)
    requires infos != [] && infos[|infos| - 1] == InfoOf(m) && m.id != ""
    ensures Remembered(PollInfos(w, infos).w, m)
  {
    hide CompleteAll, Newest, Remembered, InfoOf;
    NewestIsRemembered(CompleteAll(w, infos[..|infos| - 1]).w, m);
  }

  lemma NewestIsAhead(w: W, msgs: seq<Msg>, seed: int, c: int, tr: seq<Event>)
    requires Inv(w, msgs, seed, c, tr) && seed < |msgs| - 1
    ensures -1 <= c < |msgs| - 1 && msgs[|msgs| - 1].id != ""
  {
  }

  lemma PollIs(w: W, msgs: seq<Msg>)
    ensures PollMsgs(w, msgs) == PollInfos(w, Infos(Window(w, msgs)))
  {
  }

  lemma PollRemembers(w: W, msgs: seq<Msg>, seed: int, c: int, tr: seq<Event>)
    requires Inv(w, msgs, seed, c, tr) && seed < |msgs| - 1
    ensures Remembered(PollMsgs(w, msgs).w, msgs[|msgs| - 1])
  {
    WindowIsEverythingAfterCursor(w, msgs, seed, c, tr);
    NewestIsAhead(w, msgs, seed, c, tr);
    hide *;
    var rest := msgs[c + 1..];
    assert rest[|rest| - 1] == msgs[|msgs| - 1];
    PollInfosRemembers(w, Infos(rest), msgs[|msgs| - 1]);
    PollIs(w, msgs);
  }

  /** The newest message is one that is to be reported. */
  predicate HasNewest(s: Sys) {
    0 < |MsgsOf(s.db, s.w.session)| && s.seed < |MsgsOf(s.db, s.w.session)| - 1
  }

  function NewestOf(s: Sys): Msg
    requires HasNewest(s)
  {
    MsgsOf(s.db, s.w.session)[|MsgsOf(s.db, s.w.session)| - 1]
  }

  ghost predicate JustPolled(s: Sys) {
    && SysInv(s)
    && (HasNewest(s) ==> s.cursor == |MsgsOf(s.db, s.w.session)| - 2 && Remembered(s.w, NewestOf(s)))
  }

  /** The state after a run that ends with a poll. */
  lemma AfterPoll(session: string, db: Db, acts: seq<Act>, due: bool)
    requires DbWellFormed(db) && AllLegal(Start(session, db), acts)
    ensures JustPolled(Run(Start(session, db), acts + [Tick(due)]))
  {
    var all := acts + [Tick(due)];
    assert all[..|all| - 1] == acts;
    StartTracks(session, db);
    RunKeeps(Start(session, db), acts);
    PollLeaves(Run(Start(session, db), acts), due);
  }

  lemma TickIs(s: Sys, due: bool)
    requires var v := if SwitchDue(s.w, s.db, due) then Switched(s.w, s.db.latest) else s.w;
             PollMsgs(v, MsgsOf(s.db, v.session)).w.session == v.session
    ensures var switch, r := SwitchDue(s.w, s.db, due), Step(s, Tick(due));
            var v := if switch then Switched(s.w, s.db.latest) else s.w;
            && r.w == PollMsgs(v, MsgsOf(s.db, v.session)).w && r.db == s.db
            && r.seed == (if switch then -1 else s.seed)
            && r.cursor == NextCursor(if switch then -1 else s.cursor, |MsgsOf(s.db, v.session)|)
  {
    hide PollMsgs, MsgsOf;
  }

  lemma PollLeaves(s: Sys, due: bool)
    requires SysInv(s)
    ensures JustPolled(Step(s, Tick(due)))
  {
    TickKeeps(s, due);
    SysIsTracked(s);
    hide *;
    if SwitchDue(s.w, s.db, due) {
      var v := Switched(s.w, s.db.latest);
      SwitchedIsTracked(s, v);
      PollLeavesFrom(s, due, v, -1, -1, []);
    } else {
      PollLeavesFrom(s, due, s.w, s.seed, s.cursor, s.trace);
    }
  }

  lemma PollLeavesFrom(s: Sys, due: bool, v: W, seed: int, c: int, tr: seq<Event>)
    requires Inv(v, MsgsOf(s.db, v.session), seed, c, tr) && SysInv(Step(s, Tick(due)))
    requires if SwitchDue(s.w, s.db, due) then v == Switched(s.w, s.db.latest) && seed == c == -1
             else v == s.w && seed == s.seed && c == s.cursor
    ensures JustPolled(Step(s, Tick(due)))
  {
    hide *;
    PolledIs(v, MsgsOf(s.db, v.session), seed, c, tr);
    TickIs(s, due);
    IsJustPolled(Step(s, Tick(due)), MsgsOf(s.db, v.session), seed, c);
  }

  lemma IsJustPolled(r: Sys, msgs: seq<Msg>, seed: int, c: int)
    requires SysInv(r) && msgs == MsgsOf(r.db, r.w.session) && r.seed == seed && r.cursor == NextCursor(c, |msgs|)
    requires 0 < |msgs| && seed < |msgs| - 1 ==>
               NextCursor(c, |msgs|) == |msgs| - 2 && Remembered(r.w, msgs[|msgs| - 1])
    ensures JustPolled(r)
  {
    hide SysInv, NextCursor, Remembered, MsgsOf;
  }

  lemma SysIsTracked(s: Sys)
    requires SysInv(s)
    ensures DbWellFormed(s.db) && Inv(s.w, MsgsOf(s.db, s.w.session), s.seed, s.cursor, s.trace)
  {
  }

  lemma SwitchedIsTracked(s: Sys, v: W)
    requires DbWellFormed(s.db) && v == Switched(s.w, s.db.latest)
    ensures Inv(v, MsgsOf(s.db, v.session), -1, -1, [])
  {
  }

  lemma PolledIs(w: W, msgs: seq<Msg>, seed: int, c: int, tr: seq<Event>)
    requires Inv(w, msgs, seed, c, tr)
    ensures PollMsgs(w, msgs).w.session == w.session
    ensures 0 < |msgs| && seed < |msgs| - 1 ==>
              NextCursor(c, |msgs|) == |msgs| - 2 && Remembered(PollMsgs(w, msgs).w, msgs[|msgs| - 1])
  {
    hide PollMsgs, Remembered;
    PollKeepsSession(w, msgs);
    if 0 < |msgs| && seed < |msgs| - 1 {
      PollRemembers(w, msgs, seed, c, tr);
    }
  }

  /** What the next poll sends when the newest message gets these parts. */
  function SentNext(s: Sys, parts: seq<Part>, due: bool): seq<Event> {
    var t := Step(Step(s, RewriteNewest(s.w.session, parts)), Tick(due));
    if |s.trace| <= |t.trace| then t.trace[|s.trace|..] else []
  }

  /** After any run that ends with a poll, the newest message gets new parts; the next
      poll sends a question of it exactly when it has one, and the stream counts as
      settled or its text, its being active, or an unsent part is new. */
  lemma QuestionIsSentExactlyWhen(
    session: string, db: Db, acts: seq<Act>, d1: bool, parts: seq<Part>, d2: bool)
    requires DbWellFormed(db) && AllLegal(Start(session, db), acts)
    requires var s := Run(Start(session, db), acts + [Tick(d1)]);
             HasNewest(s) && !SwitchDue(s.w, s.db, d2)
    ensures var s := Run(Start(session, db), acts + [Tick(d1)]);
            Asks(SentNext(s, parts, d2), NewestOf(s).(parts := parts)) <==>
            (exists p <- parts :: IsQuestion(p)) &&
            (s.w.streamID == "" || Changed(s.w.emitted, NewestOf(s), NewestOf(s).(parts := parts)))
  {
    AfterPoll(session, db, acts, d1);
    hide Run, Step, Changed, Asks, SentNext, JustPolled, AllLegal, DbWellFormed, Start, HasNewest;
    QuestionAfterRewrite(Run(Start(session, db), acts + [Tick(d1)]), parts, d2);
  }

  lemma QuestionAfterRewrite(s: Sys, parts: seq<Part>, due: bool)
    requires HasNewest(s) && JustPolled(s) && !SwitchDue(s.w, s.db, due)
    ensures Asks(SentNext(s, parts, due), NewestOf(s).(parts := parts)) <==>
            (exists p <- parts :: IsQuestion(p)) &&
            (s.w.streamID == "" || Changed(s.w.emitted, NewestOf(s), NewestOf(s).(parts := parts)))
  {
    var was, now := NewestOf(s), NewestOf(s).(parts := parts);
    OnlyNewestIsPolled(s, parts, due);
    hide Changed, Restream, NewStream, SentNext, JustPolled, Asks;
    WasRemembered(s);
    if s.w.streamID == now.id {
      QuestionGoesOut(s.w, was, now);
    } else {
      FreshQuestionGoesOut(s.w, now);
    }
  }

  lemma WasRemembered(s: Sys)
    requires HasNewest(s) && JustPolled(s)
    ensures Remembered(s.w, NewestOf(s)) && NewestOf(s).id != ""
  {
  }

  lemma OnlyNewestIsPolled(s: Sys, parts: seq<Part>, due: bool)
    requires HasNewest(s) && JustPolled(s) && !SwitchDue(s.w, s.db, due)
    ensures SentNext(s, parts, due) == Newest(s.w, InfoOf(NewestOf(s).(parts := parts))).out
    ensures s.w.streamID == "" || s.w.streamID == NewestOf(s).id
  {
    var r := Step(s, RewriteNewest(s.w.session, parts));
    var next := MsgsOf(r.db, s.w.session);
    RewriteNewestKeeps(s, s.w.session, parts);
    SysIsTracked(r);
    hide Newest, InfoOf, PollMsgs, Remembered, Inv, SysInv, WellFormed, DbWellFormed;
    assert next[|next| - 1] == NewestOf(s).(parts := parts) && r.w == s.w && r.cursor == |next| - 2;
    OnlyNewestIsRead(r.w, next, r.seed, r.cursor, r.trace);
    var out := Newest(s.w, InfoOf(next[|next| - 1])).out;
    OnePollSends(r, due, out);
  }

  lemma OnePollSends(r: Sys, due: bool, out: seq<Event>)
    requires !SwitchDue(r.w, r.db, due) && PollMsgs(r.w, MsgsOf(r.db, r.w.session)).out == out
    ensures var t := Step(r, Tick(due)).trace; |r.trace| <= |t| && t[|r.trace|..] == out
  {
    hide PollMsgs;
    assert Step(r, Tick(due)).trace == r.trace + out;
    assert (r.trace + out)[|r.trace|..] == out;
  }

  lemma OnlyNewestIsRead(w: W, msgs: seq<Msg>, seed: int, c: int, tr: seq<Event>)
    requires Inv(w, msgs, seed, c, tr) && c == |msgs| - 2
    ensures var t := Newest(w, InfoOf(msgs[|msgs| - 1]));
            PollMsgs(w, msgs).w == t.w && PollMsgs(w, msgs).out == t.out
    ensures w.streamID == "" || w.streamID == msgs[|msgs| - 1].id
  {
    WindowIsEverythingAfterCursor(w, msgs, seed, c, tr);
    InvIs(w, msgs, seed, c, tr);
    hide *;
    assert msgs[c + 1..] == [msgs[c + 1]];
    OnlyOneRead(w, msgs, msgs[c + 1]);
  }

  lemma InvIs(w: W, msgs: seq<Msg>, seed: int, c: int, tr: seq<Event>)
    requires Inv(w, msgs, seed, c, tr)
    ensures -1 <= c < |msgs| && (w.streamID == "" || (c + 1 < |msgs| && w.streamID == msgs[c + 1].id))
  {
  }

  lemma OnlyOneRead(w: W, msgs: seq<Msg>, m: Msg)
    requires Window(w, msgs) == [m]
    ensures PollMsgs(w, msgs) == Turn(Newest(w, InfoOf(m)).w, Newest(w, InfoOf(m)).out)
  {
    hide Newest, InfoOf, Window, CompleteAll;
    assert Infos([m]) == [InfoOf(m)] && [InfoOf(m)][..0] == [];
    CompleteNothing(w);
  }

  lemma CompleteNothing(w: W)
    ensures CompleteAll(w, []) == Turn(w, [])
  {
  }

  /** So a question can wait: the step mark before it was seen at one poll, and the question
      that follows brings no text and no other part. */
  lemma QuestionWaits(call: string, input: string)
    ensures var m := Msg("m", 1, "assistant", [Part("1", StepMark)]);
            var s := Run(Start("s", Db(map["s" := []], "s")), [AddMessage("s", m), Tick(false)]);
            && HasNewest(s) && NewestOf(s) == m
            && SentNext(s, m.parts + [Part("2", Tool("question", call, input, "", ""))], false) == []
  {
    var m := Msg("m", 1, "assistant", [Part("1", StepMark)]);
    var s := Sys(W("s", "", "m", "", true, 0, {}), Db(map["s" := [m]], "s"), -1, -1, [StatusEvent(InfoOf(m))]);
    StepMarkSeen(m);
    var next := WithPart(m, Part("2", Tool("question", call, input, "", "")));
    QuestionsSayNothing(m, next, call, input);
    SecondPollOfOne(s.w, next);
    hide InfoOf, Run, Start;
    NothingNew(s, m, next);
  }

  lemma NothingNew(s: Sys, m: Msg, next: Msg)
    requires s.w.session == "s" && s.db == Db(map["s" := [m]], "s") && next == m.(parts := next.parts)
    requires PollMsgs(s.w, [next]).out == [] && PollMsgs(s.w, [next]).w.session == "s"
    ensures SentNext(s, next.parts, false) == []
  {
    hide PollMsgs;
    var r := Step(s, RewriteNewest("s", next.parts));
    assert MsgsOf(r.db, "s") == [next];
    assert Step(r, Tick(false)).trace == s.trace + [] == s.trace;
  }

  lemma StepMarkSeen(m: Msg)
    requires m == Msg("m", 1, "assistant", [Part("1", StepMark)])
    ensures InfoOf(m) == Info("m", "assistant", "", true, "", "", "", [])
    ensures Run(Start("s", Db(map["s" := []], "s")), [AddMessage("s", m), Tick(false)]) ==
            Sys(W("s", "", "m", "", true, 0, {}), Db(map["s" := [m]], "s"), -1, -1, [StatusEvent(InfoOf(m))])
  {
    hide *;
    var s0, s1 := Start("s", Db(map["s" := []], "s")), Sys(Fresh("s"), Db(map["s" := [m]], "s"), -1, -1, []);
    FirstMessage(m);
    StepMarksSayNothing(m);
    FirstPollOfOne(s1.w, m);
    TickOfOne(s1, m, [StatusEvent(InfoOf(m))]);
    RunOfTwo(s0, AddMessage("s", m), Tick(false));
  }

  lemma RunOfTwo(s: Sys, a: Act, b: Act)
    ensures Run(s, [a, b]) == Step(Step(s, a), b)
  {
    hide Step;
    assert [a, b][..1] == [a] && [a][..0] == [];
    assert Run(s, []) == s && Run(s, [a]) == Step(s, a);
  }

  lemma TickOfOne(s: Sys, m: Msg, out: seq<Event>)
    requires s == Sys(Fresh("s"), Db(map["s" := [m]], "s"), -1, -1, [])
    requires PollMsgs(s.w, [m]) == Turn(W("s", "", "m", "", true, 0, {}), out)
    ensures Step(s, Tick(false)) == Sys(W("s", "", "m", "", true, 0, {}), s.db, -1, -1, out)
  {
    hide PollMsgs;
    assert [] + out == out;
  }

  lemma FirstMessage(m: Msg)
    ensures Step(Start("s", Db(map["s" := []], "s")), AddMessage("s", m)) ==
            Sys(Fresh("s"), Db(map["s" := [m]], "s"), -1, -1, [])
  {
    var db := Db(map["s" := []], "s");
    assert MsgsOf(db, "s") == [] && NewestID([]) == "";
    assert Seeded(Fresh("s"), MsgsOf(db, "s")) == Fresh("s");
    assert [] + [m] == [m];
    assert db.sessions["s" := [m]] == map["s" := [m]];
  }

  lemma StepMarksSayNothing(m: Msg)
    requires m.parts == [Part("1", StepMark)]
    ensures InfoOf(m) == Info(m.id, m.role, "", true, "", "", "", [])
  {
    NoPartsSayNothing(m.(parts := []));
    OneMorePartIsRead(m.(parts := []), Part("1", StepMark));
    assert WithPart(m.(parts := []), Part("1", StepMark)) == m;
  }

  lemma QuestionsSayNothing(m: Msg, next: Msg, call: string, input: string)
    requires InfoOf(m) == Info(m.id, m.role, "", true, "", "", "", [])
    requires next == WithPart(m, Part("2", Tool("question", call, input, "", "")))
    ensures InfoOf(next) == Info(m.id, m.role, "", true, "AskUserQuestion", call, input, [])
  {
    OneMorePartIsRead(m, Part("2", Tool("question", call, input, "", "")));
  }

  lemma WindowOfOne(w: W, m: Msg)
    requires m.id != "" && w.lastMsgID == "" && (w.streamID == "" || w.streamID == m.id)
    ensures PollMsgs(w, [m]) == Turn(Newest(w, InfoOf(m)).w, Newest(w, InfoOf(m)).out)
  {
    hide *;
    OneIsRead(w, m);
    OnlyOneRead(w, [m], m);
  }

  lemma OneIsRead(w: W, m: Msg)
    requires m.id != "" && w.lastMsgID == "" && (w.streamID == "" || w.streamID == m.id)
    ensures Window(w, [m]) == [m]
  {
    var from := if w.streamID != "" then w.streamID else w.lastMsgID;
    assert from != "" ==> TimeOf([m], from) == m.time;
    SinceOfOne(w, m, from == "", TimeOf([m], from));
  }

  lemma SinceOfOne(w: W, m: Msg, all: bool, t: int)
    requires m.id != "" && w.lastMsgID == "" && (all || m.time >= t)
    ensures Since([m], all, t, w) == [m]
  {
    assert [m][..0] == [];
  }

  lemma FirstPollOfOne(w: W, m: Msg)
    requires m.id == "m" && w == Fresh("s") && m.role == "assistant"
    requires InfoOf(m) == Info("m", "assistant", "", true, "", "", "", [])
    ensures PollMsgs(w, [m]) == Turn(W("s", "", "m", "", true, 0, {}), [StatusEvent(InfoOf(m))])
  {
    hide InfoOf, PollMsgs;
    WindowOfOne(w, m);
  }

  lemma SecondPollOfOne(w: W, m: Msg)
    requires m.id == "m" && w == W("s", "", "m", "", true, 0, {})
    requires InfoOf(m).(toolName := "", toolUseID := "", toolInput := "") ==
             Info("m", "assistant", "", true, "", "", "", [])
    ensures PollMsgs(w, [m]).out == [] && PollMsgs(w, [m]).w.session == "s"
  {
    hide InfoOf, PollMsgs;
    WindowOfOne(w, m);
    hide EmitSubs;
  }

  /* ---------- quiet polls ---------- */

  /** The newest message polled n times without a change. */
  function Repolls(w: W, m: Info, n: nat): Turn {
    if n == 0 then Turn(w, [])
    else
      var t := Repolls(w, m, n - 1);
      var u := Newest(t.w, m);
      Turn(u.w, t.out + u.out)
  }

  /** The message is streaming and as remembered. */
  predicate Quiet(w: W, m: Info) {
    m.id != "" && w.streamID == m.id && Unchanged(w, m)
  }

  /** How many more quiet polls it takes until the message counts as complete. */
  function PollsLeft(w: W): nat {
    if w.quietPolls >= 9 then 1 else 10 - w.quietPolls
  }

  lemma OneQuietPoll(w: W, m: Info)
    requires Quiet(w, m) && (m.role == "assistant" ==> w.quietPolls < 9)
    ensures Newest(w, m) == Turn(w.(quietPolls := w.quietPolls + 1), [])
  {
    hide Pending;
  }

  lemma CountIsNoMatter(w: W, m: Info, k: nat)
    requires Quiet(w, m)
    ensures Quiet(w.(quietPolls := k), m)
  {
    hide Pending;
  }

  lemma {:induction false} QuietPollsAreSilent(w: W, m: Info, n: nat)
    requires Quiet(w, m) && (m.role == "assistant" ==> n < PollsLeft(w))
    ensures Repolls(w, m, n) == Turn(w.(quietPolls := w.quietPolls + n), [])
  {
    hide Quiet, Newest;
    if n > 0 {
      QuietPollsAreSilent(w, m, n - 1);
      CountIsNoMatter(w, m, w.quietPolls + n - 1);
      OneQuietPoll(w.(quietPolls := w.quietPolls + n - 1), m);
    }
  }

  /** An assistant's message is called complete at the tenth quiet poll, fewer if quiet
      polls were counted before it came, and not earlier; and the very next poll calls
      the agent working again and tells the message anew. */
  lemma SettlesAndStartsOver(w: W, m: Msg)
    requires Quiet(w, InfoOf(m)) && m.role == "assistant"
    ensures forall n: nat :: n < PollsLeft(w) ==> Repolls(w, InfoOf(m), n).out == []
    ensures var done := Event("", "", "", "", "", "", "", "", Some(Standby));
            var i, t := InfoOf(m), Repolls(w, InfoOf(m), PollsLeft(w) + 1);
            && Repolls(w, i, PollsLeft(w)).out == [done]
            && t.w == w.(quietPolls := 0)
            && t.out == [done, Event("assistant", i.text, "", m.id, "", i.toolName, i.toolUseID, i.toolInput,
                                     Some(Working))]
  {
    var i := InfoOf(m);
    FirstQuestionIsAsked(m);
    hide InfoOf, Newest, Unchanged;
    forall n: nat | n < PollsLeft(w) ensures Repolls(w, i, n).out == [] {
      QuietPollsAreSilent(w, i, n);
    }
    LastTwoPolls(w, i, PollsLeft(w) - 1);
  }

  lemma LastTwoPolls(w: W, m: Info, k: nat)
    requires Quiet(w, m) && m.role == "assistant" && k == PollsLeft(w) - 1
    requires m.toolName == "" ==> m.toolUseID == "" && m.toolInput == ""
    ensures Repolls(w, m, k + 1).out == [SETTLED]
    ensures Repolls(w, m, k + 2) ==
            Turn(w.(quietPolls := 0),
                 [SETTLED] + [Event("assistant", m.text, "", m.id, "", m.toolName, m.toolUseID, m.toolInput,
                                    Some(Working))])
  {
    QuietPollsAreSilent(w, m, k);
    TenthQuietPoll(w.(quietPolls := w.quietPolls + k), m);
    TellsItAnew(w, m);
    hide Newest;
    assert Repolls(w, m, k + 1) == Turn(NoStream(w).(quietPolls := 0), [] + [SETTLED]);
  }

  lemma TenthQuietPoll(w: W, m: Info)
    requires Quiet(w, m) && m.role == "assistant" && w.quietPolls >= 9
    ensures Newest(w, m) == Turn(NoStream(w).(quietPolls := 0), [SETTLED])
  {
  }

  lemma TellsItAnew(w: W, m: Info)
    requires Quiet(w, m) && m.role == "assistant"
    requires m.toolName == "" ==> m.toolUseID == "" && m.toolInput == ""
    ensures Newest(NoStream(w).(quietPolls := 0), m) ==
            Turn(w.(quietPolls := 0),
                 [Event("assistant", m.text, "", m.id, "", m.toolName, m.toolUseID, m.toolInput, Some(Working))])
  {
    SentSubsStaySent(w, m);
    hide EmitSubs, Pending;
  }

  lemma SentSubsStaySent(w: W, m: Info)
    requires !Pending(w.emitted, m)
    ensures EmitSubs(w.emitted, m, |m.subs|, true) == (w.emitted, [])
  {
    NothingGoesOut(w.emitted, m, |m.subs|);
  }

  lemma {:induction false} NothingGoesOut(em: set<string>, m: Info, n: nat)
    requires n <= |m.subs| && !Pending(em, m)
    ensures EmitSubs(em, m, n, true) == (em, [])
  {
    if n > 0 {
      NothingGoesOut(em, m, n - 1);
      assert Key(m.id, m.subs[n - 1].partID) in em;
    }
  }

  /** Quiet polls are counted on: when a user's message was polled n times without change
      before the assistant's came, so many fewer are left for the assistant's. */
  lemma SilenceBeforeCounts(w: W, u: Info, m: Info, n: nat)
    requires Quiet(w, u) && u.role != "assistant" && m.id != "" && m.id != u.id
    ensures var t := PollInfos(Repolls(w, u, n).w, [u, m]);
            Quiet(t.w, m) && PollsLeft(t.w) == if w.quietPolls + n >= 9 then 1 else 10 - (w.quietPolls + n)
  {
    QuietPollsAreSilent(w, u, n);
    var v := w.(quietPolls := w.quietPolls + n);
    assert [u, m][..1] == [u] && [u][..0] == [];
    assert CompleteAll(v, []) == Turn(v, []);
    var c := Complete(v, u);
    assert CompleteAll(v, [u]).w == c.w;
    AllKeysSent(c.w.emitted, m, |m.subs|, true);
    hide EmitSubs;
  }

  /** An assistant's message seen for the first time is told at once, as being worked on. */
  lemma FirstSightSaysWorking(w: W, m: Msg)
    requires m.role == "assistant" && w.streamID != m.id
    ensures var out := Newest(w, InfoOf(m)).out;
            out != [] && out[|out| - 1] == InFull(m).(status := Some(Working))
  {
    FirstQuestionIsAsked(m);
    hide EmitSubs;
  }

  /** When activity begins in the streaming message, that is told even without any text. */
  lemma ActivityIsAnnounced(w: W, was: Msg, now: Msg)
    requires w.streamID == now.id == was.id != "" && Remembered(w, was) && now.role == "assistant"
    requires !Busy(was) && Busy(now)
    ensures Event("assistant", TextOf(now), "", now.id, "", "", "", "", Some(Working)) in Restream(w, InfoOf(now)).out
  {
    var i := InfoOf(now);
    var (em, subs) := EmitSubs(w.emitted, i, |i.subs|, true);
    hide EmitSubs, Pending;
    assert StatusEvent(i) in [StatusEvent(i)];
  }

  /** A poll follows the session updated last whenever it may check, and only then. */
  lemma PollFollowsLatest(w: W, db: Db, due: bool)
    ensures Poll(w, db, due).w.session == if due && db.latest != "" then db.latest else w.session
  {
    var v := if due && db.latest != "" && db.latest != w.session then Switched(w, db.latest) else w;
    PollKeepsSession(v, MsgsOf(db, v.session));
    hide PollMsgs;
  }

  /** Anything new in the streaming message starts the count of quiet polls anew, and
      nothing else does before the message has settled. */
  lemma ChangeRestartsTheCount(w: W, was: Msg, now: Msg)
    requires w.streamID == now.id == was.id != "" && Remembered(w, was)
    ensures Changed(w.emitted, was, now) ==> PollsLeft(Newest(w, InfoOf(now)).w) == 10
    ensures !Changed(w.emitted, was, now) && PollsLeft(w) > 1 ==>
              PollsLeft(Newest(w, InfoOf(now)).w) == PollsLeft(w) - 1
  {
    assert Unchanged(w, InfoOf(now)) <==> !Changed(w.emitted, was, now) by { PendingPart(w.emitted, now); }
    hide Changed, Remembered, Unchanged, EmitSubs, InfoOf;
  }
}
