/** Whole runs of the OpenCode watcher against a growing database. */
module OpenCodeReports {
  import opened Options
  import opened OpenCode
  import opened OpenCodeRuns

  /** `trace` holds what was sent since the last start, clear or session switch;
      messages up to index `seed` were there before and are not reported. */
  datatype Sys = Sys(w: W, db: Db, seed: int, cursor: int, trace: seq<Event>)

  datatype Act =
    | AddMessage(session: string, m: Msg)
    | RewriteNewest(session: string, parts: seq<Part>)  // the newest message of a session gets these parts
    | SetLatest(session: string)
    | Tick(due: bool)                                   // one poll
    | Clear                                             // conversation.clear

  function Rewritten(msgs: seq<Msg>, parts: seq<Part>): (r: seq<Msg>)
    ensures |r| == |msgs|
  {
    if msgs == [] then [] else msgs[..|msgs| - 1] + [msgs[|msgs| - 1].(parts := parts)]
  }

  function Start(session: string, db: Db): Sys {
    var n := |MsgsOf(db, session)|;
    Sys(Seeded(Fresh(session), MsgsOf(db, session)), db, n - 1, n - 1, [])
  }

  function Step(s: Sys, a: Act): Sys {
    match a
    case AddMessage(session, m) =>
      s.(db := s.db.(sessions := s.db.sessions[session := MsgsOf(s.db, session) + [m]]))
    case RewriteNewest(session, parts) =>
      s.(db := s.db.(sessions := s.db.sessions[session := Rewritten(MsgsOf(s.db, session), parts)]))
    case SetLatest(session) => s.(db := s.db.(latest := session))
    case Tick(due) =>
      var t := Poll(s.w, s.db, due);
      var n := |MsgsOf(s.db, t.w.session)|;
      if SwitchDue(s.w, s.db, due) then Sys(t.w, s.db, -1, NextCursor(-1, n), t.out)
      else Sys(t.w, s.db, s.seed, NextCursor(s.cursor, n), s.trace + t.out)
    case Clear =>
      var msgs := MsgsOf(s.db, s.w.session);
      Sys(ResetOffset(s.w, msgs), s.db, |msgs| - 1, |msgs| - 1, [])
  }

  /** New messages have fresh ids and later times; anything else may happen. */
  ghost predicate Legal(s: Sys, a: Act) {
    a.AddMessage? ==> WellFormed(MsgsOf(s.db, a.session) + [a.m])
  }

  function Run(s: Sys, acts: seq<Act>): Sys {
    if acts == [] then s else Step(Run(s, acts[..|acts| - 1]), acts[|acts| - 1])
  }

  ghost predicate AllLegal(s: Sys, acts: seq<Act>) {
    forall i :: 0 <= i < |acts| ==> Legal(Run(s, acts[..i]), acts[i])
  }

  ghost predicate DbWellFormed(db: Db) {
    forall session :: session in db.sessions ==> WellFormed(db.sessions[session])
  }

  ghost predicate SysInv(s: Sys) {
    DbWellFormed(s.db) && Inv(s.w, MsgsOf(s.db, s.w.session), s.seed, s.cursor, s.trace)
  }

  lemma {:induction false} StartTracks(session: string, db: Db)
    requires DbWellFormed(db)
    ensures SysInv(Start(session, db))
  {
  }

  /** A database change reaches at most the newest message, which is still ahead of
      the cursor unless it was seeded. */
  lemma {:induction false} GrowthKeepsTracking(w: W, msgs: seq<Msg>, next: seq<Msg>, seed: int, c: int, tr: seq<Event>)
    requires Inv(w, msgs, seed, c, tr) && WellFormed(next) && |msgs| <= |next|
    requires forall i :: 0 <= i < |msgs| ==> next[i].id == msgs[i].id
    requires forall i :: 0 <= i < |msgs| - 1 ==> next[i] == msgs[i]
    requires |next| == |msgs| || next[..|msgs|] == msgs
    ensures Inv(w, next, seed, c, tr)
  {
    forall i | seed < i <= c
      ensures next[i] == msgs[i]
    {
    }
  }

  lemma {:induction false} TickKeeps(s: Sys, due: bool)
    requires SysInv(s)
    ensures var r := Step(s, Tick(due));
            SysInv(r) && AllReported(r.w, MsgsOf(r.db, r.w.session), r.seed, r.trace)
    ensures !SwitchDue(s.w, s.db, due) ==> s.cursor <= Step(s, Tick(due)).cursor
  {
    hide PollMsgs, AllReported;
    if SwitchDue(s.w, s.db, due) {
      var v := Switched(s.w, s.db.latest);
      var msgs := MsgsOf(s.db, v.session);
      assert Inv(v, msgs, -1, -1, []);
      PollReportsEverything(v, msgs, -1, -1, []);
      PollKeepsSession(v, msgs);
      assert [] + PollMsgs(v, msgs).out == PollMsgs(v, msgs).out;
    } else {
      PollReportsEverything(s.w, MsgsOf(s.db, s.w.session), s.seed, s.cursor, s.trace);
      PollKeepsSession(s.w, MsgsOf(s.db, s.w.session));
    }
  }

  lemma {:induction false} CompleteAllKeepsSession(w: W, ms: seq<Info>)
    ensures CompleteAll(w, ms).w.session == w.session
  {
    if ms != [] {
      CompleteAllKeepsSession(w, ms[..|ms| - 1]);
    }
  }

  lemma PollKeepsSession(w: W, msgs: seq<Msg>)
    ensures PollMsgs(w, msgs).w.session == w.session
  {
    hide Window, CompleteAll, Infos;
    var infos := Infos(Window(w, msgs));
    if infos != [] {
      CompleteAllKeepsSession(w, infos[..|infos| - 1]);
    }
  }

  lemma AddMessageKeeps(s: Sys, session: string, m: Msg)
    requires SysInv(s) && Legal(s, AddMessage(session, m))
    ensures SysInv(Step(s, AddMessage(session, m)))
  {
    var r := Step(s, AddMessage(session, m));
    GrowthKeepsTracking(s.w, MsgsOf(s.db, s.w.session), MsgsOf(r.db, s.w.session), s.seed, s.cursor, s.trace);
  }

  lemma RewritingKeepsOrder(msgs: seq<Msg>, parts: seq<Part>)
    requires WellFormed(msgs)
    ensures WellFormed(Rewritten(msgs, parts))
  {
  }

  lemma RewriteNewestKeeps(s: Sys, session: string, parts: seq<Part>)
    requires SysInv(s) && Legal(s, RewriteNewest(session, parts))
    ensures SysInv(Step(s, RewriteNewest(session, parts)))
  {
    hide Inv, Ordered;
    var r := Step(s, RewriteNewest(session, parts));
    RewritingKeepsOrder(MsgsOf(s.db, session), parts);
    GrowthKeepsTracking(s.w, MsgsOf(s.db, s.w.session), MsgsOf(r.db, s.w.session), s.seed, s.cursor, s.trace);
  }

  lemma ClearKeeps(s: Sys)
    requires SysInv(s)
    ensures SysInv(Step(s, Clear))
  {
  }

  lemma {:induction false} StepKeeps(s: Sys, a: Act)
    requires SysInv(s) && Legal(s, a)
    ensures SysInv(Step(s, a))
  {
    match a {
      case AddMessage(session, m) => AddMessageKeeps(s, session, m);
      case RewriteNewest(session, parts) => RewriteNewestKeeps(s, session, parts);
      case SetLatest(session) =>
      case Tick(due) => TickKeeps(s, due);
      case Clear => ClearKeeps(s);
    }
  }

  lemma {:induction false} RunKeeps(s: Sys, acts: seq<Act>)
    requires SysInv(s) && AllLegal(s, acts)
    ensures SysInv(Run(s, acts))
  {
    if acts != [] {
      var pre := acts[..|acts| - 1];
      forall i | 0 <= i < |pre|
        ensures Legal(Run(s, pre[..i]), pre[i])
      {
        assert pre[i] == acts[i] && pre[..i] == acts[..i];
      }
      RunKeeps(s, pre);
      StepKeeps(Run(s, pre), acts[|pre|]);
    }
  }

  /** Over every run from a start, after each poll: whatever was last sent under the
      id of a message newer than the seed is exactly the text the message has now,
      unless that is empty -- also across the ten quiet polls after which a stream
      counts as settled; and every reasoning or tool part of such a message went
      out exactly once, no key ever twice. */
  lemma EveryPollReportsEverything(session: string, db: Db, acts: seq<Act>, due: bool)
    requires DbWellFormed(db) && AllLegal(Start(session, db), acts)
    ensures var s := Step(Run(Start(session, db), acts), Tick(due));
            var msgs := MsgsOf(s.db, s.w.session);
            && (forall i :: 0 <= i < |msgs| && s.seed < i && TextOf(msgs[i]) != "" ==>
                              LastText(s.trace, msgs[i].id) == Some(TextOf(msgs[i])))
            && (forall i, k :: 0 <= i < |msgs| && s.seed < i && 0 <= k < |AllSubs(msgs[i].parts)| ==>
                                 Count(s.trace, Key(msgs[i].id, AllSubs(msgs[i].parts)[k].partID)) == 1)
            && (forall key :: Count(s.trace, key) <= 1)
  {
    StartTracks(session, db);
    RunKeeps(Start(session, db), acts);
    TickKeeps(Run(Start(session, db), acts), due);
    var s := Step(Run(Start(session, db), acts), Tick(due));
    var msgs := MsgsOf(s.db, s.w.session);
    forall i, k | 0 <= i < |msgs| && s.seed < i && 0 <= k < |AllSubs(msgs[i].parts)|
      ensures Count(s.trace, Key(msgs[i].id, AllSubs(msgs[i].parts)[k].partID)) == 1
    {
      assert SubsSent(s.w.emitted, msgs[i]);
    }
    forall i | 0 <= i < |msgs| && s.seed < i && TextOf(msgs[i]) != ""
      ensures LastText(s.trace, msgs[i].id) == Some(TextOf(msgs[i]))
    {
      assert Reported(s.trace, msgs[i]);
    }
  }

  /** Over every run: the cursor stands on the last message known to be complete, a
      streaming message is its immediate successor, or the first message, and the
      next window is exactly what lies after the cursor.  Within a session no poll
      moves it back. */
  lemma CursorNeverSkips(session: string, db: Db, acts: seq<Act>, due: bool)
    requires DbWellFormed(db) && AllLegal(Start(session, db), acts)
    ensures var s := Run(Start(session, db), acts);
            var msgs := MsgsOf(s.db, s.w.session);
            && At(s.w, msgs, s.cursor)
            && (s.w.streamID == "" || (s.cursor + 1 < |msgs| && s.w.streamID == msgs[s.cursor + 1].id))
            && Window(s.w, msgs) == msgs[s.cursor + 1..]
            && (!SwitchDue(s.w, s.db, due) ==> s.cursor <= Step(s, Tick(due)).cursor)
  {
    StartTracks(session, db);
    RunKeeps(Start(session, db), acts);
    var s := Run(Start(session, db), acts);
    WindowIsEverythingAfterCursor(s.w, MsgsOf(s.db, s.w.session), s.seed, s.cursor, s.trace);
    TickKeeps(s, due);
  }

  /* ---------- what the assumptions are for ---------- */

  /** Keys of distinct parts differ because message ids have no ':'. */
  lemma KeysAreInjective(id: string, part: string, id': string, part': string)
    requires ':' !in id && ':' !in id' && Key(id, part) == Key(id', part')
    ensures id == id' && part == part'
  {
    var k := Key(id, part);
    assert k[|id|] == ':' && Key(id', part')[|id'|] == ':';
    assert |id| == |id'|;
    assert id == k[..|id|] && part == k[|id| + 1..];
  }

  /** With ':' in an id two parts can share a key; the second one is never sent. */
  lemma CollidingKeysLoseAPart(role: string)
    ensures var one := Info("a", role, "", true, "", "", "", [Sub("b:c", "thinking", "first", "", "", "")]);
            var two := Info("a:b", role, "", true, "", "", "", [Sub("c", "thinking", "second", "", "", "")]);
            CompleteAll(Fresh("s"), [one, two]).out == [SubEvent(one, one.subs[0], false)]
  {
    var one := Info("a", role, "", true, "", "", "", [Sub("b:c", "thinking", "first", "", "", "")]);
    var two := Info("a:b", role, "", true, "", "", "", [Sub("c", "thinking", "second", "", "", "")]);
    var e := SubEvent(one, one.subs[0], false);
    assert e.msgID == "a:b:c" && Key("a:b", "c") == "a:b:c";
    assert EmitSubs({}, one, 0, false) == ({}, []);
    var w1 := Complete(Fresh("s"), one).w;
    assert Complete(Fresh("s"), one).out == [e] && w1.emitted == {"a:b:c"};
    assert EmitSubs(w1.emitted, two, 0, false) == (w1.emitted, []);
    assert Complete(w1, two).out == [];
    assert [one, two][..1] == [one] && [one][..0] == [];
    assert CompleteAll(Fresh("s"), []) == Turn(Fresh("s"), []);
    assert CompleteAll(Fresh("s"), [one]) == Turn(w1, [] + [e]);
  }

  /** Messages at or behind the cursor are frozen for the watcher: when one of them
      is rewritten after all, the next poll leaves the old text as the last one
      sent, so it is reported correctly exactly when its text did not change. */
  lemma RewriteBehindCursorIsReportedExactlyWhen(
    w: W, msgs: seq<Msg>, seed: int, c: int, tr: seq<Event>, i: nat, parts: seq<Part>)
    requires Inv(w, msgs, seed, c, tr) && seed < i <= c
    requires TextOf(msgs[i]) != "" && TextOf(msgs[i].(parts := parts)) != ""
    ensures var m := msgs[i].(parts := parts);
            var next := msgs[i := m];
            Reported(tr + PollMsgs(w, next).out, m) <==> TextOf(m) == TextOf(msgs[i])
  {
    var m := msgs[i].(parts := parts);
    var next := msgs[i := m];
    WindowAfterCursor(w, msgs, next, seed, c, tr);
    WindowIsEverythingAfterCursor(w, msgs, seed, c, tr);
    assert next[c + 1..] == msgs[c + 1..];
    PollReportsEverything(w, msgs, seed, c, tr);
    assert PollMsgs(w, next) == PollMsgs(w, msgs);
    assert Reported(tr + PollMsgs(w, msgs).out, msgs[i]);
  }

  lemma {:induction false} WindowAfterCursor(w: W, msgs: seq<Msg>, next: seq<Msg>, seed: int, c: int, tr: seq<Event>)
    requires Tracking(w, msgs, seed, c, tr) && |next| == |msgs|
    requires forall i :: 0 <= i < |msgs| ==> next[i].id == msgs[i].id && next[i].time == msgs[i].time
    ensures Window(w, next) == next[c + 1..]
  {
    WindowFromCursor(w, next, c);
  }
}
