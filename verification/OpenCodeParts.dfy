/** What becomes of the reasoning and tool parts over whole runs: each goes out once,
    as it is at the first poll that sees it.  Message ids may contain ':' here. */
module OpenCodeParts {
  import opened Options
  import opened OpenCode
  import opened OpenCodeRuns
  import opened OpenCodeReports

  /** What an event says of a part, apart from its status. */
  datatype Said = Said(role: string, kind: string, text: string, toolName: string, toolUseID: string, toolInput: string)

  function SaidBy(e: Event): Said {
    Said(e.role, e.kind, e.text, e.toolName, e.toolUseID, e.toolInput)
  }

  function SaidOf(m: Info, s: Sub): Said {
    Said(m.role, s.kind, s.text, s.toolName, s.toolUseID, s.toolInput)
  }

  /** What was last sent of the part under a key. */
  function LastPart(tr: seq<Event>, key: string): Option<Said> {
    if tr == [] then None
    else
      var e := tr[|tr| - 1];
      if e.kind != "" && e.msgID == key then Some(SaidBy(e)) else LastPart(tr[..|tr| - 1], key)
  }

  function OrElse(a: Option<Said>, b: Option<Said>): Option<Said> {
    if a.Some? then a else b
  }

  /** What the first n parts of a message say under a key. */
  function PartNamed(m: Info, n: nat, key: string): Option<Said>
    requires n <= |m.subs|
  {
    if n == 0 then None
    else
      var s := m.subs[n - 1];
      OrElse(PartNamed(m, n - 1, key), if Key(m.id, s.partID) == key then Some(SaidOf(m, s)) else None)
  }

  /** What a row of messages says under a key: the first part that has it. */
  function PartOf(ms: seq<Info>, key: string): Option<Said> {
    if ms == [] then None
    else
      var m := ms[|ms| - 1];
      OrElse(PartOf(ms[..|ms| - 1], key), PartNamed(m, |m.subs|, key))
  }

  function NewerThan(msgs: seq<Msg>, seed: int): seq<Msg> {
    if 0 <= seed + 1 <= |msgs| then msgs[seed + 1..] else []
  }

  /** What the database says under a key, in the messages that are to be reported. */
  function PartNow(s: Sys, key: string): Option<Said> {
    PartOf(Infos(NewerThan(MsgsOf(s.db, s.w.session), s.seed)), key)
  }

  /** One more step in the history of a key. */
  function SeenAfter(s: Sys, a: Act, key: string, seen: Option<Said>): Option<Said> {
    match a
    case Tick(due) =>
      var now := PartNow(Step(s, a), key);
      if SwitchDue(s.w, s.db, due) then now else OrElse(seen, now)
    case Clear => None
    case _ => seen
  }

  /** What the database said under a key at the first poll that could see it since
      the last start, clear or session switch. */
  function FirstSeen(s: Sys, acts: seq<Act>, key: string): Option<Said> {
    if acts == [] then None
    else
      var pre := acts[..|acts| - 1];
      SeenAfter(Run(s, pre), acts[|pre|], key, FirstSeen(s, pre, key))
  }

  /* ---------- one message ---------- */

  lemma {:induction false} LastPartOfConcat(a: seq<Event>, b: seq<Event>, key: string)
    ensures LastPart(a + b, key) == OrElse(LastPart(b, key), LastPart(a, key))
    decreases |b|
  {
    if b == [] {
      assert a + b == a;
    } else {
      LastPartOfConcat(a, b[..|b| - 1], key);
      assert (a + b)[..|a + b| - 1] == a + b[..|b| - 1];
    }
  }

  lemma {:induction false} PlainEventsSayNoPart(b: seq<Event>, key: string)
    requires forall i :: 0 <= i < |b| ==> b[i].kind == ""
    ensures LastPart(b, key) == None && Count(b, key) == 0
  {
    if b != [] {
      PlainEventsSayNoPart(b[..|b| - 1], key);
    }
  }

  ghost predicate Kinds(m: Info) {
    forall k :: 0 <= k < |m.subs| ==> m.subs[k].kind != ""
  }

  ghost predicate AllKinds(ms: seq<Info>) {
    forall i :: 0 <= i < |ms| ==> Kinds(ms[i])
  }

  /** Sent once, as `said`, or not at all. */
  ghost predicate SentOnce(tr: seq<Event>, key: string, said: Option<Said>) {
    LastPart(tr, key) == said && Count(tr, key) == if said.Some? then 1 else 0
  }

  lemma SentOnceInOne(a: seq<Event>, b: seq<Event>, key: string, x: Option<Said>, y: Option<Said>)
    requires SentOnce(a, key, x) && SentOnce(b, key, y) && (x.None? || y.None?)
    ensures SentOnce(a + b, key, OrElse(x, y))
  {
    LastPartOfConcat(a, b, key);
    CountOfConcat(a, b, key);
  }

  /** From `w` to `t` the parts in `named` go out under the keys not used before. */
  ghost predicate Sends(w: W, t: Turn, key: string, named: Option<Said>) {
    && SentOnce(t.out, key, if key in w.emitted then None else named)
    && (key in t.w.emitted <==> key in w.emitted || named.Some?)
  }

  lemma {:induction false} SubsSend(em: set<string>, m: Info, n: nat, working: bool, key: string)
    requires n <= |m.subs| && Kinds(m)
    ensures var (em', out) := EmitSubs(em, m, n, working);
            var named := PartNamed(m, n, key);
            && SentOnce(out, key, if key in em then None else named)
            && (key in em' <==> key in em || named.Some?)
  {
    hide Key, ForAssistant;
    if n > 0 {
      SubsSend(em, m, n - 1, working, key);
      var (em1, out1) := EmitSubs(em, m, n - 1, working);
      var e := SubEvent(m, m.subs[n - 1], working);
      assert (out1 + [e])[..|out1|] == out1;
    }
  }

  lemma SubsAndRestSend(w: W, t: Turn, m: Info, working: bool, rest: seq<Event>, key: string)
    requires Kinds(m) && forall i :: 0 <= i < |rest| ==> rest[i].kind == ""
    requires var (em, subs) := EmitSubs(w.emitted, m, |m.subs|, working); t.w.emitted == em && t.out == subs + rest
    ensures Sends(w, t, key, PartNamed(m, |m.subs|, key))
  {
    SubsSend(w.emitted, m, |m.subs|, working, key);
    PlainEventsSayNoPart(rest, key);
    var named := PartNamed(m, |m.subs|, key);
    var subs := EmitSubs(w.emitted, m, |m.subs|, working).1;
    SentOnceInOne(subs, rest, key, if key in w.emitted then None else named, None);
  }

  lemma CompleteSendsParts(w: W, m: Info, key: string)
    requires Kinds(m)
    ensures Sends(w, Complete(w, m), key, PartNamed(m, |m.subs|, key))
  {
    var rest := if Visible(m) then [TextEvent(m, if m.hasTool then Working else Standby)] else [];
    SubsAndRestSend(w, Complete(w, m), m, false, rest, key);
  }

  lemma {:induction false} NamedIsAPart(m: Info, n: nat, key: string)
    requires n <= |m.subs|
    ensures PartNamed(m, n, key).Some? <==> exists k :: 0 <= k < n && Key(m.id, m.subs[k].partID) == key
  {
    if n > 0 {
      NamedIsAPart(m, n - 1, key);
    }
  }

  lemma NewestSendsParts(w: W, m: Info, key: string)
    requires Kinds(m)
    ensures Sends(w, Newest(w, m), key, PartNamed(m, |m.subs|, key))
  {
    if m.id != w.streamID {
      var rest :=
        if Visible(m) then [TextEvent(m, Working)] else if m.role == "assistant" then [StatusEvent(m)] else [];
      SubsAndRestSend(w, Newest(w, m), m, true, rest, key);
    } else if Unchanged(w, m) {
      NamedIsAPart(m, |m.subs|, key);
      PlainEventsSayNoPart(Restream(w, m).out, key);
    } else {
      var started := if m.hasTool && !w.streamTool && m.role == "assistant" then [StatusEvent(m)] else [];
      var update := m.text != w.streamText || m.toolName != "";
      var text := if update && Visible(m) then [TextEvent(m, Working)] else [];
      var subs := EmitSubs(w.emitted, m, |m.subs|, true).1;
      assert subs + started + text == subs + (started + text);
      SubsAndRestSend(w, Newest(w, m), m, true, started + text, key);
    }
  }

  /** One turn after another. */
  lemma SendsInTurn(w: W, t: Turn, u: Turn, key: string, a: Option<Said>, b: Option<Said>)
    requires Sends(w, t, key, a) && Sends(t.w, u, key, b)
    ensures Sends(w, Turn(u.w, t.out + u.out), key, OrElse(a, b))
  {
    SentOnceInOne(t.out, u.out, key, if key in w.emitted then None else a, if key in t.w.emitted then None else b);
  }

  lemma {:induction false} CompleteAllSendsParts(w: W, ms: seq<Info>, key: string)
    requires AllKinds(ms)
    ensures Sends(w, CompleteAll(w, ms), key, PartOf(ms, key))
  {
    if ms != [] {
      var n := |ms| - 1;
      CompleteAllSendsParts(w, ms[..n], key);
      var t := CompleteAll(w, ms[..n]);
      CompleteSendsParts(t.w, ms[n], key);
      SendsInTurn(w, t, Complete(t.w, ms[n]), key, PartOf(ms[..n], key), PartNamed(ms[n], |ms[n].subs|, key));
    }
  }

  lemma PollSendsParts(w: W, ms: seq<Info>, key: string)
    requires AllKinds(ms)
    ensures Sends(w, PollInfos(w, ms), key, PartOf(ms, key))
  {
    if ms != [] {
      var n := |ms| - 1;
      CompleteAllSendsParts(w, ms[..n], key);
      var t := CompleteAll(w, ms[..n]);
      NewestSendsParts(t.w, ms[n], key);
      SendsInTurn(w, t, Newest(t.w, ms[n]), key, PartOf(ms[..n], key), PartNamed(ms[n], |ms[n].subs|, key));
    }
  }

  /* ---------- where the watcher stands ---------- */

  /** The cursor stands on message c; a streaming message is the one right after it;
      the parts between the seed and the cursor have been sent. */
  ghost predicate Following(w: W, msgs: seq<Msg>, seed: int, c: int) {
    && Ordered(msgs) && At(w, msgs, c) && -1 <= seed <= c
    && (w.streamID == "" || (c + 1 < |msgs| && w.streamID == msgs[c + 1].id))
    && (forall i :: seed < i <= c ==> SubsSent(w.emitted, msgs[i]))
  }

  lemma {:induction false} CompleteAllMoves(w: W, ms: seq<Info>)
    ensures var t := CompleteAll(w, ms).w;
            && t.lastMsgID == (if ms == [] then w.lastMsgID else ms[|ms| - 1].id)
            && t.session == w.session
  {
    if ms != [] {
      CompleteAllMoves(w, ms[..|ms| - 1]);
    }
  }

  lemma NewestStays(w: W, m: Info)
    ensures var t := Newest(w, m).w;
            t.lastMsgID == w.lastMsgID && t.session == w.session && (t.streamID == "" || t.streamID == m.id)
  {
  }

  lemma PollMoves(w: W, ms: seq<Info>)
    ensures var t := PollInfos(w, ms).w;
            && t.session == w.session
            && t.lastMsgID == (if |ms| <= 1 then w.lastMsgID else ms[|ms| - 2].id)
            && (if ms == [] then t == w else t.streamID == "" || t.streamID == ms[|ms| - 1].id)
  {
    if ms != [] {
      var n := |ms| - 1;
      CompleteAllMoves(w, ms[..n]);
      NewestStays(CompleteAll(w, ms[..n]).w, ms[n]);
    }
  }

  lemma InfosHaveKinds(msgs: seq<Msg>)
    ensures AllKinds(Infos(msgs))
  {
    forall i | 0 <= i < |msgs| ensures Kinds(Infos(msgs)[i]) {
      SubKinds(msgs[i].parts);
    }
  }

  /** A part of a message in the row is what the row says under its key, or a part
      before it with the same key is. */
  lemma {:induction false} MemberIsNamed(ms: seq<Info>, i: nat, k: nat)
    requires i < |ms| && k < |ms[i].subs|
    ensures PartOf(ms, Key(ms[i].id, ms[i].subs[k].partID)).Some?
  {
    var n := |ms| - 1;
    if i < n {
      MemberIsNamed(ms[..n], i, k);
    } else {
      NamedIsAPart(ms[n], |ms[n].subs|, Key(ms[i].id, ms[i].subs[k].partID));
    }
  }

  lemma {:induction false} PartOfConcat(a: seq<Info>, b: seq<Info>, key: string)
    ensures PartOf(a + b, key) == OrElse(PartOf(a, key), PartOf(b, key))
    decreases |b|
  {
    if b == [] {
      assert a + b == a;
    } else {
      PartOfConcat(a, b[..|b| - 1], key);
      assert (a + b)[..|a + b| - 1] == a + b[..|b| - 1];
    }
  }

  lemma {:induction false} NamedIsAMember(ms: seq<Info>, key: string)
    requires PartOf(ms, key).Some?
    ensures exists i, k :: 0 <= i < |ms| && 0 <= k < |ms[i].subs| && Key(ms[i].id, ms[i].subs[k].partID) == key
  {
    var n := |ms| - 1;
    if PartOf(ms[..n], key).Some? {
      NamedIsAMember(ms[..n], key);
      var i, k :| 0 <= i < n && 0 <= k < |ms[..n][i].subs| && Key(ms[..n][i].id, ms[..n][i].subs[k].partID) == key;
      assert ms[i] == ms[..n][i];
    } else {
      NamedIsAPart(ms[n], |ms[n].subs|, key);
    }
  }

  /** The keys up to the cursor have all been sent. */
  lemma OlderKeysAreSent(w: W, msgs: seq<Msg>, seed: int, c: int, key: string)
    requires Following(w, msgs, seed, c) && PartOf(Infos(msgs[seed + 1..c + 1]), key).Some?
    ensures key in w.emitted
  {
    var ms := Infos(msgs[seed + 1..c + 1]);
    NamedIsAMember(ms, key);
    var i, k :| 0 <= i < |ms| && 0 <= k < |ms[i].subs| && Key(ms[i].id, ms[i].subs[k].partID) == key;
    assert ms[i] == InfoOf(msgs[seed + 1 + i]);
    assert SubsSent(w.emitted, msgs[seed + 1 + i]);
  }

  ghost predicate SendsAll(w: W, t: Turn, ms: seq<Info>) {
    forall key: string {:trigger PartOf(ms, key)} :: Sends(w, t, key, PartOf(ms, key))
  }

  lemma WindowSends(w: W, msgs: seq<Msg>, seed: int, c: int)
    requires Following(w, msgs, seed, c)
    ensures var ms := Infos(msgs[c + 1..]);
            PollMsgs(w, msgs) == PollInfos(w, ms) && SendsAll(w, PollInfos(w, ms), ms)
  {
    hide PollInfos, PartOf, Sends;
    WindowFromCursor(w, msgs, c);
    var ms := Infos(msgs[c + 1..]);
    InfosHaveKinds(msgs[c + 1..]);
    forall key ensures Sends(w, PollInfos(w, ms), key, PartOf(ms, key)) {
      PollSendsParts(w, ms, key);
    }
  }

  /** One poll: the watcher goes on following, every part after the seed has been
      sent, and what was sent is what those messages say under keys not used before. */
  lemma PollFollows(w: W, msgs: seq<Msg>, seed: int, c: int)
    requires Following(w, msgs, seed, c)
    ensures var t := PollMsgs(w, msgs);
            && Following(t.w, msgs, seed, NextCursor(c, |msgs|)) && t.w.session == w.session
            && (forall i :: seed < i < |msgs| ==> SubsSent(t.w.emitted, msgs[i]))
            && SendsAll(w, t, Infos(msgs[c + 1..]))
  {
    assert -1 <= seed <= c < |msgs|;
    hide SubsSent, SendsAll, PollMsgs, PollInfos, Following, Infos, InfoOf, NextCursor, WellFormed, Ordered;
    WindowSends(w, msgs, seed, c);
    var ms := Infos(msgs[c + 1..]);
    var t := PollInfos(w, ms);
    PollEndsAt(w, msgs, c);
    PartsOfAllAreSent(w, t, msgs, seed, c);
    CursorMoves(w, t.w, msgs, seed, c);
  }

  /** Where a poll of everything after the cursor leaves the watcher. */
  lemma PollEndsAt(w: W, msgs: seq<Msg>, c: int)
    requires -1 <= c < |msgs|
    ensures var v, n := PollInfos(w, Infos(msgs[c + 1..])).w, |msgs|;
            && v.session == w.session
            && v.lastMsgID == (if n - c <= 2 then w.lastMsgID else msgs[n - 2].id)
            && (if c == n - 1 then v == w else v.streamID == "" || v.streamID == msgs[n - 1].id)
  {
    hide PollInfos, InfoOf, Infos;
    WindowEnds(msgs, c);
    PollMoves(w, Infos(msgs[c + 1..]));
  }

  lemma WindowEnds(msgs: seq<Msg>, c: int)
    requires -1 <= c < |msgs|
    ensures var ms, n := Infos(msgs[c + 1..]), |msgs|;
            && |ms| == n - c - 1
            && (|ms| > 0 ==> ms[|ms| - 1].id == msgs[n - 1].id)
            && (|ms| > 1 ==> ms[|ms| - 2].id == msgs[n - 2].id)
  {
    hide TextOf, AllSubs;
  }

  /** The cursor after a poll, from the ids the poll has left behind. */
  lemma CursorMoves(w: W, v: W, msgs: seq<Msg>, seed: int, c: int)
    requires Following(w, msgs, seed, c) && forall i :: seed < i < |msgs| ==> SubsSent(v.emitted, msgs[i])
    requires var n := |msgs|;
             && v.lastMsgID == (if n - c <= 2 then w.lastMsgID else msgs[n - 2].id)
             && (if c == n - 1 then v == w else v.streamID == "" || v.streamID == msgs[n - 1].id)
    ensures Following(v, msgs, seed, NextCursor(c, |msgs|))
  {
    hide SubsSent;
  }

  lemma PartsOfAllAreSent(w: W, t: Turn, msgs: seq<Msg>, seed: int, c: int)
    requires Following(w, msgs, seed, c) && SendsAll(w, t, Infos(msgs[c + 1..]))
    ensures forall i :: seed < i < |msgs| ==> SubsSent(t.w.emitted, msgs[i])
  {
    forall i | seed < i < |msgs| ensures SubsSent(t.w.emitted, msgs[i]) {
      PartsOfOneAreSent(w, t, msgs, seed, c, i);
    }
  }

  lemma PartsOfOneAreSent(w: W, t: Turn, msgs: seq<Msg>, seed: int, c: int, i: int)
    requires Following(w, msgs, seed, c) && seed < i < |msgs|
    requires SendsAll(w, t, Infos(msgs[c + 1..]))
    ensures SubsSent(t.w.emitted, msgs[i])
  {
    var ms := Infos(msgs[c + 1..]);
    forall k | 0 <= k < |AllSubs(msgs[i].parts)|
      ensures Key(msgs[i].id, AllSubs(msgs[i].parts)[k].partID) in t.w.emitted
    {
      var key := Key(msgs[i].id, AllSubs(msgs[i].parts)[k].partID);
      assert Sends(w, t, key, PartOf(ms, key));
      if i <= c {
        assert SubsSent(w.emitted, msgs[i]);
      } else {
        assert ms[i - c - 1] == InfoOf(msgs[i]);
        MemberIsNamed(ms, i - c - 1, k);
      }
    }
  }

  /* ---------- whole runs ---------- */

  ghost predicate DbOrdered(db: Db) {
    forall session :: session in db.sessions ==> Ordered(db.sessions[session])
  }

  /** New messages have fresh ids and later times; anything else may happen. */
  ghost predicate Fits(s: Sys, a: Act) {
    a.AddMessage? ==> Ordered(MsgsOf(s.db, a.session) + [a.m])
  }

  ghost predicate AllFit(s: Sys, acts: seq<Act>) {
    forall i :: 0 <= i < |acts| ==> Fits(Run(s, acts[..i]), acts[i])
  }

  /** Between polls the newest message is behind the cursor only if it was seeded. */
  ghost predicate Behind(s: Sys) {
    var msgs := MsgsOf(s.db, s.w.session);
    && Following(s.w, msgs, s.seed, s.cursor)
    && (s.cursor == |msgs| - 1 ==> s.cursor == s.seed)
  }

  ghost predicate FollowInv(s: Sys) {
    DbOrdered(s.db) && Behind(s)
  }

  /** What was sent of a part is what the database said when first seen, and its key
      counts as used from then on. */
  ghost predicate AsFirstSeen(s: Sys, key: string, seen: Option<Said>) {
    SentOnce(s.trace, key, seen) && (key in s.w.emitted <==> seen.Some?)
  }

  lemma GrowthKeepsFollowing(w: W, msgs: seq<Msg>, next: seq<Msg>, seed: int, c: int)
    requires Following(w, msgs, seed, c) && (c == |msgs| - 1 ==> c == seed)
    requires Ordered(next) && |msgs| <= |next|
    requires forall i :: 0 <= i < |msgs| ==> next[i].id == msgs[i].id
    requires forall i :: 0 <= i < |msgs| - 1 ==> next[i] == msgs[i]
    requires |next| == |msgs| || next[..|msgs|] == msgs
    ensures Following(w, next, seed, c) && (c == |next| - 1 ==> c == seed)
  {
    forall i | seed < i <= c
      ensures next[i] == msgs[i]
    {
    }
  }

  lemma AddMessageFollows(s: Sys, session: string, m: Msg)
    requires FollowInv(s) && Fits(s, AddMessage(session, m))
    ensures FollowInv(Step(s, AddMessage(session, m)))
  {
    hide Following;
    var r := Step(s, AddMessage(session, m));
    var msgs, next := MsgsOf(s.db, s.w.session), MsgsOf(r.db, s.w.session);
    assert Ordered(next) by { assert session != s.w.session ==> next == msgs; OrderedMsgs(s.db, s.w.session); }
    assert next == msgs || next[..|msgs|] == msgs;
    GrowthKeepsFollowing(s.w, msgs, next, s.seed, s.cursor);
  }

  lemma OrderedMsgs(db: Db, session: string)
    requires DbOrdered(db)
    ensures Ordered(MsgsOf(db, session))
  {
  }

  lemma RewriteFollows(s: Sys, session: string, parts: seq<Part>)
    requires FollowInv(s)
    ensures FollowInv(Step(s, RewriteNewest(session, parts)))
  {
    hide Following;
    var r := Step(s, RewriteNewest(session, parts));
    OrderedMsgs(s.db, session);
    OrderedMsgs(s.db, s.w.session);
    RewritingKeepsTheOrder(MsgsOf(s.db, session), parts);
    GrowthKeepsFollowing(s.w, MsgsOf(s.db, s.w.session), MsgsOf(r.db, s.w.session), s.seed, s.cursor);
  }

  lemma RewritingKeepsTheOrder(msgs: seq<Msg>, parts: seq<Part>)
    requires Ordered(msgs)
    ensures Ordered(Rewritten(msgs, parts))
  {
  }

  /** What a row of messages after the seed says is what those up to the cursor say, or
      else what the window says. */
  lemma NewerInTwo(msgs: seq<Msg>, seed: int, c: int, key: string)
    requires -1 <= seed <= c < |msgs|
    ensures PartOf(Infos(NewerThan(msgs, seed)), key)
         == OrElse(PartOf(Infos(msgs[seed + 1..c + 1]), key), PartOf(Infos(msgs[c + 1..]), key))
  {
    var a, b := msgs[seed + 1..c + 1], msgs[c + 1..];
    assert NewerThan(msgs, seed) == a + b;
    assert Infos(a + b) == Infos(a) + Infos(b);
    PartOfConcat(Infos(a), Infos(b), key);
  }

  /** One poll within a session. */
  lemma PollAddsFirstSeen(w: W, msgs: seq<Msg>, seed: int, c: int, tr: seq<Event>, key: string, seen: Option<Said>)
    requires Following(w, msgs, seed, c)
    requires SentOnce(tr, key, seen) && (key in w.emitted <==> seen.Some?)
    ensures var t := PollMsgs(w, msgs);
            var next := OrElse(seen, PartOf(Infos(NewerThan(msgs, seed)), key));
            SentOnce(tr + t.out, key, next) && (key in t.w.emitted <==> next.Some?)
  {
    hide PollMsgs, PartOf, SentOnce;
    var t := PollMsgs(w, msgs);
    PollFollows(w, msgs, seed, c);
    var now := PartOf(Infos(msgs[c + 1..]), key);
    assert Sends(w, t, key, now);
    NewerInTwo(msgs, seed, c, key);
    if PartOf(Infos(msgs[seed + 1..c + 1]), key).Some? {
      OlderKeysAreSent(w, msgs, seed, c, key);
    }
    SentOnceInOne(tr, t.out, key, seen, if key in w.emitted then None else now);
  }

  /** The system a poll reads: as it is, or the followed session from its beginning. */
  function Polled(s: Sys, due: bool): Sys {
    if SwitchDue(s.w, s.db, due) then Sys(Switched(s.w, s.db.latest), s.db, -1, -1, []) else s
  }

  lemma TickIsAPoll(s: Sys, due: bool)
    ensures var p := Polled(s, due);
            var t := PollMsgs(p.w, MsgsOf(p.db, p.w.session));
            Step(s, Tick(due)) ==
            Sys(t.w, p.db, p.seed, NextCursor(p.cursor, |MsgsOf(p.db, t.w.session)|), p.trace + t.out)
  {
    hide PollMsgs;
    var p := Polled(s, due);
    var t := PollMsgs(p.w, MsgsOf(p.db, p.w.session));
    assert [] + t.out == t.out;
  }

  lemma PolledFollows(s: Sys, due: bool, key: string, seen: Option<Said>)
    requires FollowInv(s) && AsFirstSeen(s, key, seen)
    ensures FollowInv(Polled(s, due))
            && AsFirstSeen(Polled(s, due), key, if SwitchDue(s.w, s.db, due) then None else seen)
  {
    hide SubsSent;
    if SwitchDue(s.w, s.db, due) {
      OrderedMsgs(s.db, s.db.latest);
      EmptyTraceSaysNothing(key);
    }
  }

  lemma TickFollows(s: Sys, due: bool, key: string, seen: Option<Said>)
    requires FollowInv(s) && AsFirstSeen(s, key, seen)
    ensures var r := Step(s, Tick(due));
            && FollowInv(r) && (forall m <- NewerThan(MsgsOf(r.db, r.w.session), r.seed) :: SubsSent(r.w.emitted, m))
            && AsFirstSeen(r, key, OrElse(if SwitchDue(s.w, s.db, due) then None else seen, PartNow(r, key)))
  {
    hide PollMsgs, PartOf, SentOnce, SubsSent, Polled, SwitchDue, Step;
    var p := Polled(s, due);
    var msgs := MsgsOf(p.db, p.w.session);
    TickIsAPoll(s, due);
    PolledFollows(s, due, key, seen);
    PollFollows(p.w, msgs, p.seed, p.cursor);
    PollAddsFirstSeen(p.w, msgs, p.seed, p.cursor, p.trace, key, if SwitchDue(s.w, s.db, due) then None else seen);
  }

  lemma EmptyTraceSaysNothing(key: string)
    ensures SentOnce([], key, None)
  {
  }

  lemma StepFollows(s: Sys, a: Act, key: string, seen: Option<Said>)
    requires FollowInv(s) && Fits(s, a) && AsFirstSeen(s, key, seen)
    ensures FollowInv(Step(s, a)) && AsFirstSeen(Step(s, a), key, SeenAfter(s, a, key, seen))
  {
    hide Following, PartNow, SentOnce, PollMsgs;
    match a {
      case AddMessage(session, m) => AddMessageFollows(s, session, m);
      case RewriteNewest(session, parts) => RewriteFollows(s, session, parts);
      case SetLatest(session) =>
      case Tick(due) => TickFollows(s, due, key, seen);
      case Clear => ClearFollows(s, key);
    }
  }

  lemma ClearFollows(s: Sys, key: string)
    requires FollowInv(s)
    ensures FollowInv(Step(s, Clear)) && AsFirstSeen(Step(s, Clear), key, None)
  {
    hide SubsSent;
    OrderedMsgs(s.db, s.w.session);
    EmptyTraceSaysNothing(key);
  }

  lemma FitsOfPrefix(s: Sys, acts: seq<Act>)
    requires AllFit(s, acts) && acts != []
    ensures AllFit(s, acts[..|acts| - 1]) && Fits(Run(s, acts[..|acts| - 1]), acts[|acts| - 1])
  {
    var pre := acts[..|acts| - 1];
    forall i | 0 <= i < |pre|
      ensures Fits(Run(s, pre[..i]), pre[i])
    {
      assert pre[i] == acts[i] && pre[..i] == acts[..i];
    }
  }

  lemma {:induction false} RunFollows(session: string, db: Db, acts: seq<Act>, key: string)
    requires DbOrdered(db) && AllFit(Start(session, db), acts)
    ensures var s := Run(Start(session, db), acts);
            FollowInv(s) && AsFirstSeen(s, key, FirstSeen(Start(session, db), acts, key))
  {
    hide FollowInv, AsFirstSeen, SeenAfter, Step, Fits, AllFit;
    var s0 := Start(session, db);
    if acts == [] {
      StartFollows(session, db, key);
    } else {
      var pre := acts[..|acts| - 1];
      FitsOfPrefix(s0, acts);
      RunFollows(session, db, pre, key);
      StepFollows(Run(s0, pre), acts[|pre|], key, FirstSeen(s0, pre, key));
    }
  }

  lemma StartFollows(session: string, db: Db, key: string)
    requires DbOrdered(db)
    ensures FollowInv(Start(session, db)) && AsFirstSeen(Start(session, db), key, None)
  {
    OrderedMsgs(db, session);
    EmptyTraceSaysNothing(key);
  }

  /** Over every run, after each poll: what was last sent of a part is what the
      database said under its key at the first poll that could see it, one event went
      out under each key seen and none under any other, and every part of every
      message to be reported has been seen. */
  lemma PartsAreSentOnceAsFirstSeen(session: string, db: Db, acts: seq<Act>, due: bool)
    requires DbOrdered(db) && AllFit(Start(session, db), acts)
    ensures var s0, all := Start(session, db), acts + [Tick(due)];
            var s := Run(s0, all);
            && (forall key :: LastPart(s.trace, key) == FirstSeen(s0, all, key))
            && (forall key :: Count(s.trace, key) == if FirstSeen(s0, all, key).Some? then 1 else 0)
            && (forall m, k :: m in NewerThan(MsgsOf(s.db, s.w.session), s.seed) && 0 <= k < |AllSubs(m.parts)| ==>
                                 FirstSeen(s0, all, Key(m.id, AllSubs(m.parts)[k].partID)).Some?)
  {
    hide FirstSeen, Step, Fits, FollowInv, SubsSent;
    var s0, all := Start(session, db), acts + [Tick(due)];
    var s, before := Run(s0, all), Run(s0, acts);
    RunBeforePoll(session, db, acts, due, "");
    forall key
      ensures AsFirstSeen(s, key, FirstSeen(s0, all, key))
      ensures Count(s.trace, key) == if FirstSeen(s0, all, key).Some? then 1 else 0
    {
      RunBeforePoll(session, db, acts, due, key);
    }
    forall m, k | m in NewerThan(MsgsOf(s.db, s.w.session), s.seed) && 0 <= k < |AllSubs(m.parts)|
      ensures FirstSeen(s0, all, Key(m.id, AllSubs(m.parts)[k].partID)).Some?
    {
      assert SubsSent(s.w.emitted, m);
      PartKeyIsSent(s.w.emitted, m, k);
      assert AsFirstSeen(s, Key(m.id, AllSubs(m.parts)[k].partID),
                         FirstSeen(s0, all, Key(m.id, AllSubs(m.parts)[k].partID)));
    }
  }

  lemma PartKeyIsSent(emitted: set<string>, m: Msg, k: nat)
    requires SubsSent(emitted, m) && k < |AllSubs(m.parts)|
    ensures Key(m.id, AllSubs(m.parts)[k].partID) in emitted
  {
  }

  lemma RunBeforePoll(session: string, db: Db, acts: seq<Act>, due: bool, key: string)
    requires DbOrdered(db) && AllFit(Start(session, db), acts)
    ensures var s0, all := Start(session, db), acts + [Tick(due)];
            var s := Run(s0, all);
            && s == Step(Run(s0, acts), Tick(due)) && AllFit(s0, all)
            && AsFirstSeen(s, key, FirstSeen(s0, all, key))
            && (forall m <- NewerThan(MsgsOf(s.db, s.w.session), s.seed) :: SubsSent(s.w.emitted, m))
  {
    hide Step, Fits, FollowInv, SubsSent, AsFirstSeen, FirstSeen;
    var s0, all := Start(session, db), acts + [Tick(due)];
    assert all[..|all| - 1] == acts;
    FitsWithPoll(s0, acts, due);
    RunFollows(session, db, acts, key);
    TickFollows(Run(s0, acts), due, key, FirstSeen(s0, acts, key));
    RunFollows(session, db, all, key);
  }

  lemma FitsWithPoll(s: Sys, acts: seq<Act>, due: bool)
    requires AllFit(s, acts)
    ensures AllFit(s, acts + [Tick(due)])
  {
    hide Step, Run;
    var all := acts + [Tick(due)];
    forall i | 0 <= i < |all| ensures Fits(Run(s, all[..i]), all[i]) {
      assert all[..i] == acts[..i];
    }
  }

  /* ---------- when a part is current ---------- */

  /** Nothing in `rest`, carried out after `pre`, empties the trace. */
  ghost predicate NoReset(s: Sys, pre: seq<Act>, rest: seq<Act>) {
    forall i :: 0 <= i < |rest| ==>
                  var r := Run(s, pre + rest[..i]);
                  !rest[i].Clear? && (rest[i].Tick? ==> !SwitchDue(r.w, r.db, rest[i].due))
  }

  lemma {:induction false} FirstSeenStays(s: Sys, pre: seq<Act>, rest: seq<Act>, key: string)
    requires FirstSeen(s, pre, key).Some? && NoReset(s, pre, rest)
    ensures FirstSeen(s, pre + rest, key) == FirstSeen(s, pre, key)
    decreases |rest|
  {
    hide SeenAfter, Step, SwitchDue, PartNow;
    if rest == [] {
      assert pre + rest == pre;
    } else {
      var n := |rest| - 1;
      assert (pre + rest)[..|pre + rest| - 1] == pre + rest[..n];
      forall i | 0 <= i < n
        ensures rest[..n][..i] == rest[..i] && rest[..n][i] == rest[i]
      {
      }
      FirstSeenStays(s, pre, rest[..n], key);
      SeenStays(Run(s, pre + rest[..n]), rest[n], key, FirstSeen(s, pre, key));
    }
  }

  lemma SeenStays(s: Sys, a: Act, key: string, seen: Option<Said>)
    requires seen.Some? && !a.Clear? && (a.Tick? ==> !SwitchDue(s.w, s.db, a.due))
    ensures SeenAfter(s, a, key, seen) == seen
  {
    hide Step, PartNow, SwitchDue;
  }

  /** A part once sent is never sent again, so what was sent of it is current exactly
      as long as the database says what it said at the first poll that saw it. */
  lemma PartIsCurrentExactlyWhen(session: string, db: Db, before: seq<Act>, d1: bool, between: seq<Act>, d2: bool,
                                 key: string)
    requires DbOrdered(db)
    requires var s0, first := Start(session, db), before + [Tick(d1)];
             var r := Run(s0, before);
             && AllFit(s0, first + between)
             && (FirstSeen(s0, before, key).None? || SwitchDue(r.w, r.db, d1))
             && PartNow(Run(s0, first), key).Some?
             && NoReset(s0, first, between + [Tick(d2)])
    ensures var s0, first := Start(session, db), before + [Tick(d1)];
            var seen, now := Run(s0, first), Run(s0, first + between + [Tick(d2)]);
            && LastPart(now.trace, key) == PartNow(seen, key)
            && Count(now.trace, key) == 1
            && (LastPart(now.trace, key) == PartNow(now, key) <==> PartNow(now, key) == PartNow(seen, key))
  {
    hide Step, Fits, SentOnce, PartNow, SwitchDue, Count, LastPart;
    var s0, first := Start(session, db), before + [Tick(d1)];
    assert first[..|first| - 1] == before;
    assert FirstSeen(s0, first, key) == PartNow(Run(s0, first), key);
    assert first + (between + [Tick(d2)]) == (first + between) + [Tick(d2)];
    FirstSeenStays(s0, first, between + [Tick(d2)], key);
    PartsAreSentOnceAsFirstSeen(session, db, first + between, d2);
  }

  lemma OneReasoningPart(role: string, text: string)
    requires text != ""
    ensures var m := Msg("m", 1, role, [Part("p", Reasoning(text))]);
            PartOf(Infos([m]), "m:p") == Some(Said(role, "thinking", text, "", "", ""))
  {
    var m := Msg("m", 1, role, [Part("p", Reasoning(text))]);
    var s := Sub("p", "thinking", text, "", "", "");
    assert m.parts[..0] == [] && AllSubs(m.parts) == [s];
    var info := InfoOf(m);
    assert info.subs == [s] && Key("m", "p") == "m:p";
    assert PartNamed(info, 0, "m:p") == None;
    assert PartNamed(info, 1, "m:p") == Some(SaidOf(info, s));
    assert Infos([m]) == [info] && [info][..0] == [];
    assert PartOf([], "m:p") == None;
  }

  /** A poll that follows no switch leaves the database, the session and the seed. */
  lemma PollKeepsDatabase(s: Sys, due: bool)
    requires !SwitchDue(s.w, s.db, due)
    ensures var r := Step(s, Tick(due)); r.db == s.db && r.w.session == s.w.session && r.seed == s.seed
  {
    hide PollMsgs;
    TickIsAPoll(s, due);
    PollKeepsSession(s.w, MsgsOf(s.db, s.w.session));
  }

  lemma RunOfMore(s: Sys, acts: seq<Act>, a: Act)
    ensures Run(s, acts + [a]) == Step(Run(s, acts), a)
  {
    assert (acts + [a])[..|acts|] == acts;
  }

  /** A reasoning part that goes on growing: only its first words are ever sent. */
  lemma GrownReasoningStaysAsFirstSeen(role: string)
    ensures var m, grown := Msg("m", 1, role, [Part("p", Reasoning("a"))]), [Part("p", Reasoning("ab"))];
            var before, between := [AddMessage("s", m)], [RewriteNewest("s", grown)];
            var s := Run(Start("s", Db(map[], "")), before + [Tick(false)] + between + [Tick(false)]);
            && MsgsOf(s.db, "s") == [m.(parts := grown)]
            && PartNow(s, "m:p") == Some(Said(role, "thinking", "ab", "", "", ""))
            && LastPart(s.trace, "m:p") == Some(Said(role, "thinking", "a", "", "", ""))
            && Count(s.trace, "m:p") == 1
  {
    hide PartOf, LastPart, Count, PollMsgs;
    var m, grown := Msg("m", 1, role, [Part("p", Reasoning("a"))]), [Part("p", Reasoning("ab"))];
    var before, between := [AddMessage("s", m)], [RewriteNewest("s", grown)];
    var first := before + [Tick(false)];
    var s0 := Start("s", Db(map[], ""));
    var s1 := Step(s0, before[0]);
    var s2 := Step(s1, Tick(false));
    var s3 := Step(s2, between[0]);
    assert [] + before == before && Run(s0, []) == s0;
    RunOfMore(s0, [], before[0]);
    RunOfMore(s0, before, Tick(false));
    RunOfMore(s0, first, between[0]);
    RunOfMore(s0, first + between, Tick(false));
    assert s1.w.session == "s" && s1.seed == -1 && MsgsOf(s1.db, "s") == [m];
    PollKeepsDatabase(s1, false);
    assert MsgsOf(s3.db, "s") == [m.(parts := grown)];
    PollKeepsDatabase(s3, false);
    assert forall x: Msg :: NewerThan([x], -1) == [x];
    OneReasoningPart(role, "a");
    OneReasoningPart(role, "ab");
    FitsInTurn(s0, s1, s2, m, grown);
    assert before[..0] == [];
    assert FirstSeen(s0, before, "m:p") == FirstSeen(s0, [], "m:p") == None;
    PartIsCurrentExactlyWhen("s", Db(map[], ""), before, false, between, false, "m:p");
  }

  lemma FitsInTurn(s0: Sys, s1: Sys, s2: Sys, m: Msg, grown: seq<Part>)
    requires Fits(s0, AddMessage("s", m))
    ensures var acts := [AddMessage("s", m)] + [Tick(false)] + [RewriteNewest("s", grown)];
            AllFit(s0, acts) &&
            NoReset(s0, [AddMessage("s", m)] + [Tick(false)], [RewriteNewest("s", grown)] + [Tick(false)])
  {
    hide Step;
    var acts := [AddMessage("s", m)] + [Tick(false)] + [RewriteNewest("s", grown)];
    assert acts[..0] == [] && Run(s0, []) == s0;
  }

  /* ---------- when every part goes out as itself ---------- */

  function KeyAt(ms: seq<Info>, i: nat, k: nat): string
    requires i < |ms| && k < |ms[i].subs|
  {
    Key(ms[i].id, ms[i].subs[k].partID)
  }

  predicate IsPart(ms: seq<Info>, i: int, k: int) {
    0 <= i < |ms| && 0 <= k < |ms[i].subs|
  }

  /** Parts with one key say the same. */
  ghost predicate KeysAgree(ms: seq<Info>) {
    forall i, k, j, l :: IsPart(ms, i, k) && IsPart(ms, j, l) && KeyAt(ms, i, k) == KeyAt(ms, j, l) ==>
                           SaidOf(ms[i], ms[i].subs[k]) == SaidOf(ms[j], ms[j].subs[l])
  }

  /** What was last sent under the key of each part is what the part says. */
  ghost predicate EachPartSent(tr: seq<Event>, ms: seq<Info>) {
    forall i, k :: IsPart(ms, i, k) ==>
                     LastPart(tr, KeyAt(ms, i, k)) == Some(SaidOf(ms[i], ms[i].subs[k]))
  }

  lemma {:induction false} NamedByAPart(m: Info, n: nat, key: string) returns (k: nat)
    requires n <= |m.subs| && PartNamed(m, n, key).Some?
    ensures k < n && Key(m.id, m.subs[k].partID) == key && PartNamed(m, n, key) == Some(SaidOf(m, m.subs[k]))
  {
    if PartNamed(m, n - 1, key).Some? {
      k := NamedByAPart(m, n - 1, key);
    } else {
      k := n - 1;
    }
  }

  /** What a row of messages says under a key is what one of its parts says. */
  lemma {:induction false} SaidByAMember(ms: seq<Info>, key: string) returns (i: nat, k: nat)
    requires PartOf(ms, key).Some?
    ensures i < |ms| && k < |ms[i].subs| && KeyAt(ms, i, k) == key
    ensures PartOf(ms, key) == Some(SaidOf(ms[i], ms[i].subs[k])) == PartNamed(ms[i], |ms[i].subs|, key)
  {
    var n := |ms| - 1;
    if PartOf(ms[..n], key).Some? {
      i, k := SaidByAMember(ms[..n], key);
    } else {
      i := n;
      k := NamedByAPart(ms[n], |ms[n].subs|, key);
    }
  }

  /** When parts with one key agree, what is said under a key is what each of them says. */
  lemma AgreedPartIsNamed(ms: seq<Info>, i: nat, k: nat)
    requires KeysAgree(ms) && IsPart(ms, i, k)
    ensures PartOf(ms, KeyAt(ms, i, k)) == Some(SaidOf(ms[i], ms[i].subs[k]))
  {
    MemberIsNamed(ms, i, k);
    var j, l := SaidByAMember(ms, KeyAt(ms, i, k));
  }

  /** One poll of a window whose keys are all unused: every part goes out, as it is,
      exactly when parts that share a key say the same. */
  lemma PollSendsEachPartExactlyWhen(w: W, msgs: seq<Msg>, seed: int, c: int)
    requires Following(w, msgs, seed, c)
    requires var ms := Infos(msgs[c + 1..]);
             forall i, k :: IsPart(ms, i, k) ==> KeyAt(ms, i, k) !in w.emitted
    ensures EachPartSent(PollMsgs(w, msgs).out, Infos(msgs[c + 1..])) <==> KeysAgree(Infos(msgs[c + 1..]))
  {
    var ms, t := Infos(msgs[c + 1..]), PollMsgs(w, msgs);
    PollFollows(w, msgs, seed, c);
    hide Following, PollMsgs, Infos, PartOf;
    forall i, k | IsPart(ms, i, k)
      ensures LastPart(t.out, KeyAt(ms, i, k)) == PartOf(ms, KeyAt(ms, i, k)) && PartOf(ms, KeyAt(ms, i, k)).Some?
    {
      MemberIsNamed(ms, i, k);
      assert Sends(w, t, KeyAt(ms, i, k), PartOf(ms, KeyAt(ms, i, k)));
    }
    hide LastPart, KeyAt, SaidOf;
    if KeysAgree(ms) {
      forall i, k | IsPart(ms, i, k)
        ensures LastPart(t.out, KeyAt(ms, i, k)) == Some(SaidOf(ms[i], ms[i].subs[k]))
      {
        AgreedPartIsNamed(ms, i, k);
      }
    }
  }

  /* ---------- the same over whole runs ---------- */

  /** What the messages with an id say of the part with an id. */
  function PartBy(ms: seq<Info>, id: string, part: string): Option<Said> {
    if ms == [] then None
    else
      var m := ms[|ms| - 1];
      OrElse(PartBy(ms[..|ms| - 1], id, part),
             if m.id == id then PartNamed(m, |m.subs|, Key(id, part)) else None)
  }

  function PartByNow(s: Sys, id: string, part: string): Option<Said> {
    PartBy(Infos(NewerThan(MsgsOf(s.db, s.w.session), s.seed)), id, part)
  }

  function SeenByAfter(s: Sys, a: Act, id: string, part: string, seen: Option<Said>): Option<Said> {
    match a
    case Tick(due) =>
      var now := PartByNow(Step(s, a), id, part);
      if SwitchDue(s.w, s.db, due) then now else OrElse(seen, now)
    case Clear => None
    case _ => seen
  }

  /** What one part of one message said at the first poll that could see it, whatever
      other parts share its key. */
  function FirstSeenBy(s: Sys, acts: seq<Act>, id: string, part: string): Option<Said> {
    if acts == [] then None
    else
      var pre := acts[..|acts| - 1];
      SeenByAfter(Run(s, pre), acts[|pre|], id, part, FirstSeenBy(s, pre, id, part))
  }

  ghost predicate IdsDiffer(ms: seq<Info>) {
    forall i, j :: 0 <= i < j < |ms| ==> ms[i].id != ms[j].id
  }

  lemma {:induction false} NoPartByOthers(ms: seq<Info>, id: string, part: string)
    requires forall i :: 0 <= i < |ms| ==> ms[i].id != id
    ensures PartBy(ms, id, part) == None
  {
    if ms != [] {
      NoPartByOthers(ms[..|ms| - 1], id, part);
    }
  }

  lemma {:induction false} PartByMember(ms: seq<Info>, i: nat, part: string)
    requires IdsDiffer(ms) && i < |ms|
    ensures PartBy(ms, ms[i].id, part) == PartNamed(ms[i], |ms[i].subs|, Key(ms[i].id, part))
  {
    var n := |ms| - 1;
    if i < n {
      PartByMember(ms[..n], i, part);
    } else {
      NoPartByOthers(ms[..n], ms[n].id, part);
    }
  }

  lemma {:induction false} NamedIsNamed(ms: seq<Info>, i: nat, key: string)
    requires i < |ms| && PartNamed(ms[i], |ms[i].subs|, key).Some?
    ensures PartOf(ms, key).Some?
  {
    if i < |ms| - 1 {
      NamedIsNamed(ms[..|ms| - 1], i, key);
    }
  }

  lemma {:induction false} PartByIsNamed(ms: seq<Info>, id: string, part: string)
    requires PartBy(ms, id, part).Some?
    ensures PartOf(ms, Key(id, part)).Some?
  {
    var n := |ms| - 1;
    if PartBy(ms[..n], id, part).Some? {
      PartByIsNamed(ms[..n], id, part);
    }
  }

  /** What is said under a key is said by a part of some message. */
  lemma SaidBySomePart(ms: seq<Info>, key: string) returns (id: string, part: string)
    requires IdsDiffer(ms) && PartOf(ms, key).Some?
    ensures Key(id, part) == key && PartBy(ms, id, part) == PartOf(ms, key)
  {
    var i, k := SaidByAMember(ms, key);
    id, part := ms[i].id, ms[i].subs[k].partID;
    PartByMember(ms, i, part);
  }

  lemma PollIdsDiffer(s: Sys)
    requires FollowInv(s)
    ensures IdsDiffer(Infos(NewerThan(MsgsOf(s.db, s.w.session), s.seed)))
  {
    hide SubsSent;
    var newer := NewerThan(MsgsOf(s.db, s.w.session), s.seed);
    assert forall i :: 0 <= i < |newer| ==> Infos(newer)[i].id == newer[i].id;
  }

  /** What was first seen under a key was first seen of a part with that key. */
  ghost predicate SeenOfSomePart(s: Sys, acts: seq<Act>, key: string) {
    exists id, part :: Key(id, part) == key && FirstSeenBy(s, acts, id, part) == FirstSeen(s, acts, key)
  }

  /** Whatever has been seen of a part, something was seen under its key. */
  ghost predicate SeenUnderKeys(s: Sys, acts: seq<Act>) {
    forall id, part :: FirstSeenBy(s, acts, id, part).Some? ==> FirstSeen(s, acts, Key(id, part)).Some?
  }

  lemma {:induction false} SeenByParts(session: string, db: Db, acts: seq<Act>)
    requires DbOrdered(db) && AllFit(Start(session, db), acts)
    ensures var s := Start(session, db);
            SeenUnderKeys(s, acts) && forall key :: FirstSeen(s, acts, key).Some? ==> SeenOfSomePart(s, acts, key)
  {
    hide Step, Fits, AllFit, FollowInv, SeenAfter, SeenByAfter, Start;
    if acts != [] {
      var s, pre, a := Start(session, db), acts[..|acts| - 1], acts[|acts| - 1];
      FitsOfPrefix(s, acts);
      SeenByParts(session, db, pre);
      RunFollows(session, db, acts, "");
      forall id, part | FirstSeenBy(s, acts, id, part).Some?
        ensures FirstSeen(s, acts, Key(id, part)).Some?
      {
        SeenByIsSeen(Run(s, pre), a, id, part, FirstSeenBy(s, pre, id, part), FirstSeen(s, pre, Key(id, part)));
      }
      forall key | FirstSeen(s, acts, key).Some?
        ensures SeenOfSomePart(s, acts, key)
      {
        SeenOfSomePartStays(s, acts, key);
      }
    }
  }

  lemma SeenByIsSeen(s: Sys, a: Act, id: string, part: string, own: Option<Said>, seen: Option<Said>)
    requires (own.Some? ==> seen.Some?) && SeenByAfter(s, a, id, part, own).Some?
    ensures SeenAfter(s, a, Key(id, part), seen).Some?
  {
    hide Step, PartOf, PartBy;
    if a.Tick? && PartByNow(Step(s, a), id, part).Some? {
      var r := Step(s, a);
      PartByIsNamed(Infos(NewerThan(MsgsOf(r.db, r.w.session), r.seed)), id, part);
    }
  }

  lemma SeenOfSomePartStays(s: Sys, acts: seq<Act>, key: string)
    requires acts != [] && FirstSeen(s, acts, key).Some? && FollowInv(Run(s, acts))
    requires var pre := acts[..|acts| - 1];
             SeenUnderKeys(s, pre) && (FirstSeen(s, pre, key).Some? ==> SeenOfSomePart(s, pre, key))
    ensures SeenOfSomePart(s, acts, key)
  {
    var pre, a := acts[..|acts| - 1], acts[|acts| - 1];
    var before := Run(s, pre);
    hide Step, FollowInv, PartOf, PartBy, Infos;
    assert Run(s, acts) == Step(before, a);
    if FirstSeen(s, pre, key).Some? && !(a.Tick? && SwitchDue(before.w, before.db, a.due)) {
      var id, part :| Key(id, part) == key && FirstSeenBy(s, pre, id, part) == FirstSeen(s, pre, key);
      assert FirstSeenBy(s, acts, id, part) == FirstSeen(s, acts, key);
    } else {
      var r := Step(before, a);
      PollIdsDiffer(r);
      var id, part := SaidBySomePart(Infos(NewerThan(MsgsOf(r.db, r.w.session), r.seed)), key);
      assert FirstSeenBy(s, acts, id, part) == FirstSeen(s, acts, key);
    }
  }

  /** Parts seen under one key were the same when first seen. */
  ghost predicate SeenKeysAgree(s: Sys, acts: seq<Act>) {
    forall id, part, id', part' :: Key(id, part) == Key(id', part') ==>
                                     AgreeIfSeen(FirstSeenBy(s, acts, id, part), FirstSeenBy(s, acts, id', part'))
  }

  predicate AgreeIfSeen(a: Option<Said>, b: Option<Said>) {
    a.Some? && b.Some? ==> a == b
  }

  /** Over every run, after each poll: every part seen since the last start, clear or
      switch was sent, as it was when first seen, exactly when parts that share a key
      were the same when first seen.  Those parts include every part to be reported. */
  lemma EachPartGoesOutExactlyWhen(session: string, db: Db, acts: seq<Act>, due: bool)
    requires DbOrdered(db) && AllFit(Start(session, db), acts)
    ensures var s0, all := Start(session, db), acts + [Tick(due)];
            var s := Run(s0, all);
            && ((forall id, part :: FirstSeenBy(s0, all, id, part).Some? ==>
                                      LastPart(s.trace, Key(id, part)) == FirstSeenBy(s0, all, id, part))
                <==> SeenKeysAgree(s0, all))
            && (forall m, k :: m in NewerThan(MsgsOf(s.db, s.w.session), s.seed) && 0 <= k < |AllSubs(m.parts)| ==>
                                 FirstSeenBy(s0, all, m.id, AllSubs(m.parts)[k].partID).Some?)
  {
    hide Step, Fits, FirstSeen, FirstSeenBy, Run, AllFit, LastPart, Start;
    var s0, all := Start(session, db), acts + [Tick(due)];
    var s := Run(s0, all);
    FitsWithPoll(s0, acts, due);
    PartsAreSentOnceAsFirstSeen(session, db, acts, due);
    SeenByParts(session, db, all);
    if SeenKeysAgree(s0, all) {
      forall id, part | FirstSeenBy(s0, all, id, part).Some?
        ensures LastPart(s.trace, Key(id, part)) == FirstSeenBy(s0, all, id, part)
      {
        assert SeenOfSomePart(s0, all, Key(id, part));
      }
    }
    forall m, k | m in NewerThan(MsgsOf(s.db, s.w.session), s.seed) && 0 <= k < |AllSubs(m.parts)|
      ensures FirstSeenBy(s0, all, m.id, AllSubs(m.parts)[k].partID).Some?
    {
      EachReportedPartIsSeen(session, db, acts, due, m, k);
    }
  }

  lemma EachReportedPartIsSeen(session: string, db: Db, acts: seq<Act>, due: bool, m: Msg, k: nat)
    requires DbOrdered(db) && AllFit(Start(session, db), acts)
    requires var s := Run(Start(session, db), acts + [Tick(due)]);
             m in NewerThan(MsgsOf(s.db, s.w.session), s.seed) && k < |AllSubs(m.parts)|
    ensures FirstSeenBy(Start(session, db), acts + [Tick(due)], m.id, AllSubs(m.parts)[k].partID).Some?
  {
    hide Fits, AllFit, Start, Step, Run, FollowInv, FirstSeenBy, AllSubs, PartByNow, NewerThan, MsgsOf;
    var s0, all := Start(session, db), acts + [Tick(due)];
    FitsWithPoll(s0, acts, due);
    RunFollows(session, db, all, "");
    ReportedPartIsSaid(Run(s0, all), m, k);
    SaidNowIsSeen(s0, acts, due, m.id, AllSubs(m.parts)[k].partID);
  }

  lemma ReportedPartIsSaid(s: Sys, m: Msg, k: nat)
    requires FollowInv(s) && m in NewerThan(MsgsOf(s.db, s.w.session), s.seed) && k < |AllSubs(m.parts)|
    ensures PartByNow(s, m.id, AllSubs(m.parts)[k].partID).Some?
  {
    PollIdsDiffer(s);
    hide FollowInv, PartBy, AllSubs;
    var newer := NewerThan(MsgsOf(s.db, s.w.session), s.seed);
    var i :| 0 <= i < |newer| && newer[i] == m;
    var part := AllSubs(m.parts)[k].partID;
    assert Infos(newer)[i] == InfoOf(m);
    PartByMember(Infos(newer), i, part);
    NamedIsAPart(InfoOf(m), |InfoOf(m).subs|, Key(m.id, part));
  }

  lemma SaidNowIsSeen(s: Sys, acts: seq<Act>, due: bool, id: string, part: string)
    requires PartByNow(Run(s, acts + [Tick(due)]), id, part).Some?
    ensures FirstSeenBy(s, acts + [Tick(due)], id, part).Some?
  {
    hide Step, PartByNow;
    assert (acts + [Tick(due)])[..|acts|] == acts;
  }

  ghost predicate NoColonSeen(s: Sys, acts: seq<Act>) {
    forall id, part :: FirstSeenBy(s, acts, id, part).Some? ==> ':' !in id
  }

  /** Ids free of ':' give no two parts one key. */
  lemma DistinctKeysAgree(s: Sys, acts: seq<Act>)
    requires NoColonSeen(s, acts)
    ensures SeenKeysAgree(s, acts)
  {
    hide FirstSeenBy;
    forall id, part, id', part' | Key(id, part) == Key(id', part')
      ensures AgreeIfSeen(FirstSeenBy(s, acts, id, part), FirstSeenBy(s, acts, id', part'))
    {
      if FirstSeenBy(s, acts, id, part).Some? && FirstSeenBy(s, acts, id', part').Some? {
        KeysAreInjective(id, part, id', part');
      }
    }
  }

  lemma LegalFits(s: Sys, acts: seq<Act>)
    requires AllLegal(s, acts)
    ensures AllFit(s, acts)
  {
    hide Run;
  }

  lemma SaidByAMessage(s: Sys, id: string, part: string)
    requires SysInv(s) && PartByNow(s, id, part).Some?
    ensures ':' !in id
  {
    hide Inv;
    var newer := NewerThan(MsgsOf(s.db, s.w.session), s.seed);
    assert forall i :: 0 <= i < |newer| ==> Infos(newer)[i].id == newer[i].id;
    if forall i :: 0 <= i < |newer| ==> newer[i].id != id {
      NoPartByOthers(Infos(newer), id, part);
    } else {
      var i :| 0 <= i < |newer| && newer[i].id == id;
      assert newer[i] == MsgsOf(s.db, s.w.session)[s.seed + 1 + i];
    }
  }

  lemma {:induction false} OnlyMessagesAreSeen(session: string, db: Db, acts: seq<Act>)
    requires DbWellFormed(db) && AllLegal(Start(session, db), acts)
    ensures NoColonSeen(Start(session, db), acts)
  {
    hide Step, Legal, SysInv, PartByNow, Start;
    if acts != [] {
      var s, pre, a := Start(session, db), acts[..|acts| - 1], acts[|acts| - 1];
      assert AllLegal(s, pre) by {
        forall i | 0 <= i < |pre| ensures Legal(Run(s, pre[..i]), pre[i]) {
          assert pre[i] == acts[i] && pre[..i] == acts[..i];
        }
      }
      OnlyMessagesAreSeen(session, db, pre);
      StartTracks(session, db);
      RunKeeps(s, acts);
      forall id, part | FirstSeenBy(s, acts, id, part).Some? ensures ':' !in id {
        if FirstSeenBy(s, pre, id, part).None? || a.Tick? {
          if PartByNow(Run(s, acts), id, part).Some? {
            SaidByAMessage(Run(s, acts), id, part);
          }
        }
      }
    }
  }

  /** So with ids free of ':' every part is sent, as it was when first seen. */
  lemma EachPartGoesOut(session: string, db: Db, acts: seq<Act>, due: bool, id: string, part: string)
    requires DbWellFormed(db) && AllLegal(Start(session, db), acts)
    ensures var s0, all := Start(session, db), acts + [Tick(due)];
            FirstSeenBy(s0, all, id, part).Some? ==>
              LastPart(Run(s0, all).trace, Key(id, part)) == FirstSeenBy(s0, all, id, part)
  {
    hide FirstSeenBy, LastPart, Step, Run, Start, Legal;
    var s0, all := Start(session, db), acts + [Tick(due)];
    LegalFits(s0, acts);
    assert AllLegal(s0, all) by {
      forall i | 0 <= i < |all| ensures Legal(Run(s0, all[..i]), all[i]) {
        assert all[..i] == acts[..i];
        LegalBeforePoll(s0, acts, due, i);
      }
    }
    OnlyMessagesAreSeen(session, db, all);
    DistinctKeysAgree(s0, all);
    EachPartGoesOutExactlyWhen(session, db, acts, due);
  }

  lemma LegalBeforePoll(s: Sys, acts: seq<Act>, due: bool, i: nat)
    requires AllLegal(s, acts) && i <= |acts|
    ensures Legal(Run(s, acts[..i]), (acts + [Tick(due)])[i])
  {
    hide Run;
  }
}
