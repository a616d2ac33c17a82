/** What the events sent say: the parts of a message as they are, and each completed
    message in full, its question included, over every run. */
module OpenCodeEvents {
  import opened Options
  import opened OpenCode
  import opened OpenCodeReading
  import opened OpenCodeRuns
  import opened OpenCodeReports

  function StatusFor(m: Msg, s: Status): Option<Status> {
    if m.role == "assistant" then Some(s) else None
  }

  function SentStatus(working: bool): Status {
    if working then Working else Standby
  }

  /* ---------- parts ---------- */

  /** The event shows this part of the message. */
  predicate ShowsPart(e: Event, m: Msg, p: Part, s: Status) {
    && e.role == m.role && e.msgID == m.id + ":" + p.id && e.toolUseName == "" && e.status == StatusFor(m, s)
    && match p.body
       case Reasoning(t) =>
         e.kind == "thinking" && e.text == t && e.toolName == "" && e.toolUseID == "" && e.toolInput == ""
       case Tool(_, callID, input, summary, display) =>
         && e.kind == "tool_use" && e.text == summary && e.toolName == display
         && e.toolUseID == callID && e.toolInput == input
       case _ => false
  }

  lemma SubShowsPart(m: Msg, s: Sub, p: Part, working: bool)
    requires Says(s, p)
    ensures ShowsPart(SubEvent(InfoOf(m), s, working), m, p, SentStatus(working))
  {
  }

  /** Event `e` shows part `k`, which is said apart and whose key is new. */
  predicate ShowsNewPart(e: Event, emitted: set<string>, m: Msg, k: nat, s: Status) {
    && k < |m.parts| && SaidApart(m.parts[k])
    && m.id + ":" + m.parts[k].id !in emitted && ShowsPart(e, m, m.parts[k], s)
  }

  predicate HasKey(out: seq<Event>, key: string) {
    exists i :: 0 <= i < |out| && out[i].msgID == key
  }

  /** Of the parts said apart those whose keys are new go out, as they are and in order:
      with Working while the message streams, with Standby once it is complete. */
  lemma PartsGoOutAsTheyAre(emitted: set<string>, m: Msg, working: bool) returns (at: seq<nat>)
    ensures var out := EmitSubs(emitted, InfoOf(m), |InfoOf(m).subs|, working).1;
            && |at| == |out|
            && (forall i, j :: 0 <= i < j < |at| ==> at[i] < at[j])
            && (forall i :: 0 <= i < |at| ==>
                              ShowsNewPart(out[i], emitted, m, at[i], SentStatus(working)))
            && (forall k :: 0 <= k < |m.parts| && SaidApart(m.parts[k]) && m.id + ":" + m.parts[k].id !in emitted ==>
                              HasKey(out, m.id + ":" + m.parts[k].id))
  {
    var n := |AllSubs(m.parts)|;
    var where := SubsAreTheParts(m.parts);
    at := SomeGoOut(emitted, m, n, working, where);
    KeysGoOut(emitted, InfoOf(m), n, working);
    hide EmitSubs, ShowsPart;
    var out := EmitSubs(emitted, InfoOf(m), n, working).1;
    forall k | 0 <= k < |m.parts| && SaidApart(m.parts[k]) && m.id + ":" + m.parts[k].id !in emitted
      ensures HasKey(out, m.id + ":" + m.parts[k].id)
    {
      var j :| 0 <= j < |where| && where[j] == k;
      assert AllSubs(m.parts)[j].partID == m.parts[k].id;
      assert HasKey(out, Key(m.id, InfoOf(m).subs[j].partID));
    }
  }

  lemma {:induction false} KeysGoOut(emitted: set<string>, m: Info, n: nat, working: bool)
    requires n <= |m.subs|
    ensures var (em, out) := EmitSubs(emitted, m, n, working);
            && (forall key :: key in em ==> key in emitted || HasKey(out, key))
            && (forall j :: 0 <= j < n ==> Key(m.id, m.subs[j].partID) in em)
  {
    if n > 0 {
      KeysGoOut(emitted, m, n - 1, working);
      var (em, out) := EmitSubs(emitted, m, n - 1, working);
      var e := SubEvent(m, m.subs[n - 1], working);
      assert (out + [e])[|out|] == e;
      forall key | HasKey(out, key) ensures HasKey(out + [e], key) {
        var i :| 0 <= i < |out| && out[i].msgID == key;
        assert (out + [e])[i] == out[i];
      }
    }
  }

  /** The events show new parts at the increasing places `at`, all below `hi`. */
  ghost predicate ShowsAt(out: seq<Event>, emitted: set<string>, m: Msg, at: seq<nat>, hi: nat, s: Status) {
    && |at| == |out|
    && (forall i, j :: 0 <= i < j < |at| ==> at[i] < at[j])
    && (forall i :: 0 <= i < |at| ==> at[i] < hi && ShowsNewPart(out[i], emitted, m, at[i], s))
  }

  lemma OneMoreShown(out: seq<Event>, emitted: set<string>, m: Msg, at: seq<nat>, hi: nat, s: Status, e: Event)
    requires ShowsAt(out, emitted, m, at, hi, s) && ShowsNewPart(e, emitted, m, hi, s)
    ensures ShowsAt(out + [e], emitted, m, at + [hi], hi + 1, s)
  {
    hide ShowsNewPart;
  }

  lemma ShownHigher(out: seq<Event>, emitted: set<string>, m: Msg, at: seq<nat>, hi: nat, top: nat, s: Status)
    requires ShowsAt(out, emitted, m, at, hi, s) && hi <= top
    ensures ShowsAt(out, emitted, m, at, top, s)
  {
    hide ShowsNewPart;
  }

  /** Part `k` is said apart and is what the sub-event says. */
  predicate IsSaid(m: Msg, s: Sub, k: nat) {
    k < |m.parts| && SaidApart(m.parts[k]) && Says(s, m.parts[k])
  }

  lemma NewPartShown(emitted: set<string>, em: set<string>, m: Msg, s: Sub, k: nat, working: bool)
    requires emitted <= em && IsSaid(m, s, k) && Key(m.id, s.partID) !in em
    ensures ShowsNewPart(SubEvent(InfoOf(m), s, working), emitted, m, k, SentStatus(working))
  {
    SubShowsPart(m, s, m.parts[k], working);
  }

  /** The same for the first `n` of them. */
  lemma {:induction false} SomeGoOut(emitted: set<string>, m: Msg, n: nat, working: bool, where: seq<nat>)
    returns (at: seq<nat>)
    requires n <= |where| == |AllSubs(m.parts)| && (forall i, j :: 0 <= i < j < |where| ==> where[i] < where[j])
    requires forall i :: 0 <= i < |where| ==> IsSaid(m, AllSubs(m.parts)[i], where[i])
    ensures var (em, out) := EmitSubs(emitted, InfoOf(m), n, working);
            && emitted <= em
            && ShowsAt(out, emitted, m, at, if n < |where| then where[n] else |m.parts|, SentStatus(working))
  {
    hide *;
    if n == 0 {
      at := [];
      NothingGoesOutYet(emitted, m, working, if n < |where| then where[n] else |m.parts|);
    } else {
      at := SomeGoOut(emitted, m, n - 1, working, where);
      var s, k := AllSubs(m.parts)[n - 1], where[n - 1];
      SaidIsInside(m, s, k);
      EmitStep(emitted, InfoOf(m), n, working);
      var (em, out) := EmitSubs(emitted, InfoOf(m), n - 1, working);
      at := OneMoreGoesOut(emitted, em, out, m, s, at, k, if n < |where| then where[n] else |m.parts|, working);
    }
  }

  lemma SaidIsInside(m: Msg, s: Sub, k: nat)
    requires IsSaid(m, s, k)
    ensures k < |m.parts|
  {
  }

  lemma NothingGoesOutYet(emitted: set<string>, m: Msg, working: bool, hi: nat)
    ensures var (em, out) := EmitSubs(emitted, InfoOf(m), 0, working);
            em == emitted && ShowsAt(out, emitted, m, [], hi, SentStatus(working))
  {
  }

  lemma EmitStep(emitted: set<string>, m: Info, n: nat, working: bool)
    requires 0 < n <= |m.subs|
    ensures var (em, out) := EmitSubs(emitted, m, n - 1, working);
            var s := m.subs[n - 1];
            EmitSubs(emitted, m, n, working) ==
            if Key(m.id, s.partID) in em then (em, out)
            else (em + {Key(m.id, s.partID)}, out + [SubEvent(m, s, working)])
  {
  }

  lemma OneMoreGoesOut(emitted: set<string>, em: set<string>, out: seq<Event>, m: Msg, s: Sub, at: seq<nat>, k: nat,
                       hi: nat, working: bool) returns (next: seq<nat>)
    requires emitted <= em && IsSaid(m, s, k) && k < hi
    requires ShowsAt(out, emitted, m, at, k, SentStatus(working))
    ensures ShowsAt(if Key(m.id, s.partID) in em then out else out + [SubEvent(InfoOf(m), s, working)],
                    emitted, m, next, hi, SentStatus(working))
  {
    hide ShowsAt, IsSaid;
    var st := SentStatus(working);
    if Key(m.id, s.partID) in em {
      next := at;
      ShownHigher(out, emitted, m, at, k, hi, st);
    } else {
      var e := SubEvent(InfoOf(m), s, working);
      NewPartShown(emitted, em, m, s, k, working);
      OneMoreShown(out, emitted, m, at, k, st, e);
      next := at + [k];
      ShownHigher(out + [e], emitted, m, next, k + 1, hi, st);
    }
  }

  /* ---------- completed messages ---------- */

  /** The last event sent under an id. */
  function LastUnder(tr: seq<Event>, id: string): Option<Event> {
    if tr == [] then None
    else if tr[|tr| - 1].msgID == id then Some(tr[|tr| - 1])
    else LastUnder(tr[..|tr| - 1], id)
  }

  lemma {:induction false} LastUnderOfConcat(a: seq<Event>, b: seq<Event>, id: string)
    ensures LastUnder(a + b, id) == if LastUnder(b, id).Some? then LastUnder(b, id) else LastUnder(a, id)
    decreases |b|
  {
    if b == [] {
      assert a + b == a;
    } else {
      LastUnderOfConcat(a, b[..|b| - 1], id);
      assert (a + b)[..|a + b| - 1] == a + b[..|b| - 1];
    }
  }

  lemma {:induction false} LastUnderElsewhere(b: seq<Event>, id: string)
    requires forall i :: 0 <= i < |b| ==> b[i].msgID != id
    ensures LastUnder(b, id) == None
  {
    if b != [] {
      LastUnderElsewhere(b[..|b| - 1], id);
    }
  }

  /** There is a text or a question to send. */
  predicate HasMore(m: Msg) {
    InfoOf(m).text != "" || exists p <- m.parts :: IsQuestion(p)
  }

  /** The whole message: its text, its question, and whether the agent is done. */
  function InFull(m: Msg): Event {
    var i := InfoOf(m);
    Event(m.role, i.text, "", m.id, "", i.toolName, i.toolUseID, i.toolInput,
          StatusFor(m, if exists p <- m.parts :: Active(p) then Working else Standby))
  }

  ghost predicate ToldInFull(tr: seq<Event>, m: Msg) {
    HasMore(m) ==> LastUnder(tr, m.id) == Some(InFull(m))
  }

  ghost predicate Told(msgs: seq<Msg>, seed: int, c: int, tr: seq<Event>) {
    forall j :: 0 <= j < |msgs| && seed < j <= c ==> ToldInFull(tr, msgs[j])
  }

  lemma CompleteTellsIt(w: W, m: Msg, tr: seq<Event>)
    ensures ToldInFull(tr + Complete(w, InfoOf(m)).out, m)
  {
    var out := Complete(w, InfoOf(m)).out;
    FirstQuestionIsAsked(m);
    if HasMore(m) {
      if forall k :: 0 <= k < |m.parts| ==> !IsQuestion(m.parts[k]) {
        assert forall p <- m.parts :: !IsQuestion(p);
      }
      assert Visible(InfoOf(m));
      assert out[|out| - 1] == InFull(m);
      hide Complete;
      assert (tr + out)[|tr + out| - 1] == InFull(m);
    }
  }

  lemma OthersStayTold(msgs: seq<Msg>, seed: int, c: int, tr: seq<Event>, out: seq<Event>, at: nat)
    requires WellFormed(msgs) && at < |msgs| && c < at && SentFor(out, msgs[at].id) && Told(msgs, seed, c, tr)
    ensures Told(msgs, seed, c, tr + out)
  {
    forall j | 0 <= j < |msgs| && seed < j <= c ensures ToldInFull(tr + out, msgs[j]) {
      assert ToldInFull(tr, msgs[j]);
      LastUnderOfConcat(tr, out, msgs[j].id);
      LastUnderElsewhere(out, msgs[j].id);
    }
  }

  lemma CompleteTells(w: W, msgs: seq<Msg>, seed: int, c: int, tr: seq<Event>)
    requires Tracking(w, msgs, seed, c, tr) && c + 1 < |msgs| && Told(msgs, seed, c, tr)
    ensures var t := Complete(w, InfoOf(msgs[c + 1]));
            Tracking(t.w, msgs, seed, c + 1, tr + t.out) && Told(msgs, seed, c + 1, tr + t.out)
  {
    var info := InfoOf(msgs[c + 1]);
    SubKinds(msgs[c + 1].parts);
    CompleteHandles(w, info, tr);
    CompleteStep(w, msgs, seed, c, tr, info);
    hide Tracking, Complete, ToldInFull;
    OthersStayTold(msgs, seed, c, tr, Complete(w, info).out, c + 1) by { WellTracked(w, msgs, seed, c, tr); }
    CompleteTellsIt(w, msgs[c + 1], tr);
  }

  lemma WellTracked(w: W, msgs: seq<Msg>, seed: int, c: int, tr: seq<Event>)
    requires Tracking(w, msgs, seed, c, tr)
    ensures WellFormed(msgs) && -1 <= seed <= c < |msgs|
  {
  }

  lemma NewestTells(w: W, msgs: seq<Msg>, seed: int, c: int, tr: seq<Event>)
    requires Tracking(w, msgs, seed, c, tr) && c + 2 == |msgs| && Told(msgs, seed, c, tr)
    ensures Told(msgs, seed, c, tr + Newest(w, InfoOf(msgs[c + 1])).out)
  {
    var info := InfoOf(msgs[c + 1]);
    SubKinds(msgs[c + 1].parts);
    if info.id != w.streamID {
      NewStreamHandles(w, info, tr);
    } else {
      RestreamHandles(w, info, tr);
    }
    hide Newest, ToldInFull;
    OthersStayTold(msgs, seed, c, tr, Newest(w, info).out, c + 1);
  }

  lemma {:induction false} CompleteAllTells(w: W, msgs: seq<Msg>, seed: int, c: int, tr: seq<Event>, infos: seq<Info>)
    requires Tracking(w, msgs, seed, c, tr) && c + |infos| < |msgs| && Told(msgs, seed, c, tr)
    requires forall i :: 0 <= i < |infos| ==> infos[i] == InfoOf(msgs[c + 1 + i])
    ensures var t := CompleteAll(w, infos);
            Tracking(t.w, msgs, seed, c + |infos|, tr + t.out) && Told(msgs, seed, c + |infos|, tr + t.out)
  {
    hide Tracking, Told, Complete, InfoOf;
    if infos == [] {
      assert tr + [] == tr;
    } else {
      var n := |infos| - 1;
      CompleteAllTells(w, msgs, seed, c, tr, infos[..n]);
      var t := CompleteAll(w, infos[..n]);
      var u := Complete(t.w, infos[n]);
      WellTracked(t.w, msgs, seed, c + n, tr + t.out);
      CompleteTells(t.w, msgs, seed, c + n, tr + t.out);
      assert (tr + t.out) + u.out == tr + (t.out + u.out);
    }
  }

  lemma PollInfosTells(w: W, msgs: seq<Msg>, seed: int, c: int, tr: seq<Event>, infos: seq<Info>)
    requires Tracking(w, msgs, seed, c, tr) && Told(msgs, seed, c, tr) && 0 < |infos| == |msgs| - 1 - c
    requires forall i :: 0 <= i < |infos| ==> infos[i] == InfoOf(msgs[c + 1 + i])
    ensures Told(msgs, seed, |msgs| - 2, tr + PollInfos(w, infos).out)
  {
    hide Tracking, Told, CompleteAll, Newest, InfoOf;
    var n := |infos| - 1;
    CompleteAllTells(w, msgs, seed, c, tr, infos[..n]);
    var t := CompleteAll(w, infos[..n]);
    WellTracked(t.w, msgs, seed, c + n, tr + t.out);
    NewestTells(t.w, msgs, seed, c + n, tr + t.out);
    var u := Newest(t.w, infos[n]);
    assert (tr + t.out) + u.out == tr + (t.out + u.out);
  }

  lemma PollTells(w: W, msgs: seq<Msg>, seed: int, c: int, tr: seq<Event>)
    requires Inv(w, msgs, seed, c, tr) && Told(msgs, seed, c, tr)
    ensures Told(msgs, seed, NextCursor(c, |msgs|), tr + PollMsgs(w, msgs).out)
  {
    WindowIsEverythingAfterCursor(w, msgs, seed, c, tr);
    WellTracked(w, msgs, seed, c, tr);
    var infos := Infos(msgs[c + 1..]);
    hide Window, Told, Tracking, InfoOf;
    if infos == [] {
      assert tr + [] == tr;
    } else {
      PollInfosTells(w, msgs, seed, c, tr, infos);
    }
  }

  ghost predicate SysTold(s: Sys) {
    SysInv(s) && Told(MsgsOf(s.db, s.w.session), s.seed, s.cursor, s.trace)
  }

  lemma TickTells(s: Sys, due: bool)
    requires SysTold(s)
    ensures SysTold(Step(s, Tick(due)))
  {
    TickKeeps(s, due);
    hide PollMsgs, ToldInFull;
    if SwitchDue(s.w, s.db, due) {
      var v := Switched(s.w, s.db.latest);
      var msgs := MsgsOf(s.db, v.session);
      assert Inv(v, msgs, -1, -1, []);
      PollTells(v, msgs, -1, -1, []);
      PollKeepsSession(v, msgs);
      assert [] + PollMsgs(v, msgs).out == PollMsgs(v, msgs).out;
    } else {
      PollTells(s.w, MsgsOf(s.db, s.w.session), s.seed, s.cursor, s.trace);
      PollKeepsSession(s.w, MsgsOf(s.db, s.w.session));
    }
  }

  lemma {:induction false} StepTells(s: Sys, a: Act)
    requires SysTold(s) && Legal(s, a)
    ensures SysTold(Step(s, a))
  {
    StepKeeps(s, a);
    hide ToldInFull;
    if a.Tick? {
      TickTells(s, a.due);
    } else if a.AddMessage? || a.RewriteNewest? {
      var r := Step(s, a);
      var was, now := MsgsOf(s.db, s.w.session), MsgsOf(r.db, s.w.session);
      assert forall j :: 0 <= j < |was| && s.seed < j <= s.cursor ==> now[j] == was[j];
    }
  }

  lemma LegalPrefix(s: Sys, acts: seq<Act>)
    requires acts != [] && AllLegal(s, acts)
    ensures var pre := acts[..|acts| - 1]; AllLegal(s, pre) && Legal(Run(s, pre), acts[|pre|])
  {
    hide Legal, Run;
    var pre := acts[..|acts| - 1];
    forall i | 0 <= i < |pre| ensures Legal(Run(s, pre[..i]), pre[i]) {
      assert pre[i] == acts[i] && pre[..i] == acts[..i];
    }
  }

  lemma {:induction false} RunTells(s: Sys, acts: seq<Act>)
    requires SysTold(s) && AllLegal(s, acts)
    ensures SysTold(Run(s, acts))
  {
    hide SysTold, AllLegal, Legal, Step;
    if acts != [] {
      LegalPrefix(s, acts);
      RunTells(s, acts[..|acts| - 1]);
      StepTells(Run(s, acts[..|acts| - 1]), acts[|acts| - 1]);
    }
  }

  /** Over every run: the last event under the id of a message that the cursor has passed
      since the seed -- after a poll, every one but the newest -- tells the message in
      full: its text, the first question with its call and input, and for an assistant
      Working if it had any activity and Standby if it had none. */
  lemma CompletedMessagesAreToldInFull(session: string, db: Db, acts: seq<Act>, due: bool)
    requires DbWellFormed(db) && AllLegal(Start(session, db), acts)
    ensures var s := Step(Run(Start(session, db), acts), Tick(due));
            var msgs := MsgsOf(s.db, s.w.session);
            forall j :: 0 <= j < |msgs| - 1 && s.seed < j && HasMore(msgs[j]) ==>
                          LastUnder(s.trace, msgs[j].id) == Some(InFull(msgs[j]))
  {
    StartTracks(session, db);
    RunTells(Start(session, db), acts);
    var s := Run(Start(session, db), acts);
    TickTells(s, due);
    CursorIsNextToLast(s, due);
    hide Poll, ToldInFull, Step;
    var r := Step(s, Tick(due));
    var msgs := MsgsOf(r.db, r.w.session);
    forall j | 0 <= j < |msgs| - 1 && r.seed < j && HasMore(msgs[j])
      ensures LastUnder(r.trace, msgs[j].id) == Some(InFull(msgs[j]))
    {
      assert ToldInFull(r.trace, msgs[j]);
      UseTold(r.trace, msgs[j]);
    }
  }

  lemma UseTold(tr: seq<Event>, m: Msg)
    requires ToldInFull(tr, m) && HasMore(m)
    ensures LastUnder(tr, m.id) == Some(InFull(m))
  {
  }

  lemma CursorIsNextToLast(s: Sys, due: bool)
    requires SysInv(s)
    ensures var r := Step(s, Tick(due)); r.cursor >= |MsgsOf(r.db, r.w.session)| - 2
  {
    hide Poll;
  }
}
