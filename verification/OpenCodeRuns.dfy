/** What the OpenCode watcher reports over every run in which the database grows,
    the newest message keeps changing, sessions switch and the conversation is
    cleared. */
module OpenCodeRuns {
  import opened Options
  import opened OpenCode

  /** Message ids are not empty and distinct, and creation times increase. */
  ghost predicate Ordered(msgs: seq<Msg>) {
    && (forall i :: 0 <= i < |msgs| ==> msgs[i].id != "")
    && (forall i, j :: 0 <= i < j < |msgs| ==> msgs[i].id != msgs[j].id && msgs[i].time < msgs[j].time)
  }

  /** Moreover ids are free of ':', so none of them reads like the key of a part. */
  ghost predicate WellFormed(msgs: seq<Msg>) {
    Ordered(msgs) && forall i :: 0 <= i < |msgs| ==> ':' !in msgs[i].id
  }

  /** The text last sent under an id. */
  function LastText(tr: seq<Event>, id: string): Option<string> {
    if tr == [] then None
    else if tr[|tr| - 1].msgID == id then Some(tr[|tr| - 1].text)
    else LastText(tr[..|tr| - 1], id)
  }

  /** How many reasoning or tool events were sent under a key. */
  function Count(tr: seq<Event>, key: string): nat {
    if tr == [] then 0
    else Count(tr[..|tr| - 1], key) + (if tr[|tr| - 1].kind != "" && tr[|tr| - 1].msgID == key then 1 else 0)
  }

  ghost predicate LastSent(tr: seq<Event>, id: string, text: string) {
    text != "" ==> LastText(tr, id) == Some(text)
  }

  ghost predicate KeysSent(emitted: set<string>, id: string, subs: seq<Sub>) {
    forall k :: 0 <= k < |subs| ==> Key(id, subs[k].partID) in emitted
  }

  ghost predicate Reported(tr: seq<Event>, m: Msg) {
    LastSent(tr, m.id, TextOf(m))
  }

  ghost predicate SubsSent(emitted: set<string>, m: Msg) {
    KeysSent(emitted, m.id, AllSubs(m.parts))
  }

  /** One event per key sent, none under any other key. */
  ghost predicate Tidy(tr: seq<Event>, emitted: set<string>) {
    forall key: string :: Count(tr, key) == if key in emitted then 1 else 0
  }

  ghost predicate At(w: W, msgs: seq<Msg>, c: int) {
    -1 <= c < |msgs| && w.lastMsgID == if c < 0 then "" else msgs[c].id
  }

  /** The cursor stands on message c, at or after the seed; a streaming message is
      the one right after it; everything between the seed and the cursor has been
      reported as it is now; and what was last sent for the streaming message is
      remembered correctly. */
  ghost predicate Tracking(w: W, msgs: seq<Msg>, seed: int, c: int, tr: seq<Event>) {
    && WellFormed(msgs) && At(w, msgs, c) && -1 <= seed <= c
    && (w.streamID == "" || (c + 1 < |msgs| && w.streamID == msgs[c + 1].id))
    && (forall i :: seed < i <= c ==> Reported(tr, msgs[i]) && SubsSent(w.emitted, msgs[i]))
    && (w.streamID != "" && w.streamText != "" ==> LastText(tr, w.streamID) == Some(w.streamText))
    && Tidy(tr, w.emitted)
  }

  /** Between polls the newest message is behind the cursor only if it was seeded. */
  ghost predicate Inv(w: W, msgs: seq<Msg>, seed: int, c: int, tr: seq<Event>) {
    Tracking(w, msgs, seed, c, tr) && (c == |msgs| - 1 ==> c == seed)
  }

  ghost predicate AllReported(w: W, msgs: seq<Msg>, seed: int, tr: seq<Event>) {
    forall i :: 0 <= i < |msgs| && seed < i ==> Reported(tr, msgs[i]) && SubsSent(w.emitted, msgs[i])
  }

  /* ---------- the window query ---------- */

  lemma {:induction false} SinceIsTail(msgs: seq<Msg>, all: bool, t: int, w: W, lo: nat)
    requires lo <= |msgs|
    requires forall i :: 0 <= i < |msgs| ==>
                           (((all || msgs[i].time >= t)
                             && (msgs[i].id != w.lastMsgID || msgs[i].id == w.streamID)) <==> lo <= i)
    ensures Since(msgs, all, t, w) == msgs[lo..]
    decreases |msgs|
  {
    if msgs != [] {
      var n := |msgs| - 1;
      if lo <= n {
        SinceIsTail(msgs[..n], all, t, w, lo);
        assert msgs[lo..] == msgs[..n][lo..] + [msgs[n]];
      } else {
        SinceIsTail(msgs[..n], all, t, w, n);
      }
    }
  }

  lemma {:induction false} TimeOfMember(msgs: seq<Msg>, k: nat)
    requires k < |msgs| && forall i, j :: 0 <= i < j < |msgs| ==> msgs[i].id != msgs[j].id
    ensures TimeOf(msgs, msgs[k].id) == msgs[k].time
    decreases |msgs|
  {
    if k > 0 {
      TimeOfMember(msgs[1..], k - 1);
    }
  }

  lemma WindowFromCursor(w: W, msgs: seq<Msg>, c: int)
    requires Ordered(msgs) && At(w, msgs, c)
    requires w.streamID == "" || (c + 1 < |msgs| && w.streamID == msgs[c + 1].id)
    ensures Window(w, msgs) == msgs[c + 1..]
  {
    var from := if w.streamID != "" then w.streamID else w.lastMsgID;
    if w.streamID != "" {
      TimeOfMember(msgs, c + 1);
      SinceIsTail(msgs, false, TimeOf(msgs, from), w, c + 1);
    } else if c >= 0 {
      TimeOfMember(msgs, c);
      SinceIsTail(msgs, false, TimeOf(msgs, from), w, c + 1);
    } else {
      SinceIsTail(msgs, true, TimeOf(msgs, from), w, 0);
    }
  }

  /** No message is skipped and none behind the cursor is read again. */
  lemma WindowIsEverythingAfterCursor(w: W, msgs: seq<Msg>, seed: int, c: int, tr: seq<Event>)
    requires Tracking(w, msgs, seed, c, tr)
    ensures Window(w, msgs) == msgs[c + 1..]
  {
    WindowFromCursor(w, msgs, c);
  }

  /* ---------- traces ---------- */

  lemma {:induction false} LastTextOfConcat(a: seq<Event>, b: seq<Event>, id: string)
    ensures LastText(a + b, id) == if LastText(b, id).Some? then LastText(b, id) else LastText(a, id)
    decreases |b|
  {
    if b == [] {
      assert a + b == a;
    } else {
      LastTextOfConcat(a, b[..|b| - 1], id);
      assert (a + b)[..|a + b| - 1] == a + b[..|b| - 1];
    }
  }

  lemma {:induction false} LastTextElsewhere(b: seq<Event>, id: string)
    requires forall i :: 0 <= i < |b| ==> b[i].msgID != id
    ensures LastText(b, id) == None
  {
    if b != [] {
      LastTextElsewhere(b[..|b| - 1], id);
    }
  }

  lemma {:induction false} CountOfConcat(a: seq<Event>, b: seq<Event>, key: string)
    ensures Count(a + b, key) == Count(a, key) + Count(b, key)
    decreases |b|
  {
    if b == [] {
      assert a + b == a;
    } else {
      CountOfConcat(a, b[..|b| - 1], key);
      assert (a + b)[..|a + b| - 1] == a + b[..|b| - 1];
    }
  }

  lemma {:induction false} CountOfPlain(b: seq<Event>, key: string)
    requires forall i :: 0 <= i < |b| ==> b[i].kind == ""
    ensures Count(b, key) == 0
  {
    if b != [] {
      CountOfPlain(b[..|b| - 1], key);
    }
  }

  lemma TidyWithPlain(tr: seq<Event>, emitted: set<string>, b: seq<Event>)
    requires Tidy(tr, emitted) && forall i :: 0 <= i < |b| ==> b[i].kind == ""
    ensures Tidy(tr + b, emitted)
  {
    forall key: string
      ensures Count(tr + b, key) == if key in emitted then 1 else 0
    {
      CountOfConcat(tr, b, key);
      CountOfPlain(b, key);
    }
  }

  lemma TidyWithSub(tr: seq<Event>, emitted: set<string>, e: Event)
    requires Tidy(tr, emitted) && e.kind != "" && e.msgID !in emitted
    ensures Tidy(tr + [e], emitted + {e.msgID})
  {
    forall key: string
      ensures Count(tr + [e], key) == if key in emitted + {e.msgID} then 1 else 0
    {
      assert (tr + [e])[..|tr|] == tr;
      assert Count(tr + [e], key) == Count(tr, key) + if e.msgID == key then 1 else 0;
    }
  }

  /* ---------- sub-events ---------- */

  lemma {:induction false} SubKinds(parts: seq<Part>)
    ensures forall k :: 0 <= k < |AllSubs(parts)| ==> AllSubs(parts)[k].kind != ""
  {
    if parts != [] {
      SubKinds(parts[..|parts| - 1]);
    }
  }

  lemma KeyHasColon(id: string, part: string)
    ensures ':' in Key(id, part)
  {
    assert Key(id, part)[|id|] == ':';
  }

  ghost predicate IsSubEvent(e: Event, m: Info, n: nat, emitted: set<string>, working: bool)
    requires n <= |m.subs|
  {
    exists k :: 0 <= k < n && e == SubEvent(m, m.subs[k], working) && e.msgID !in emitted
  }

  /** The sub-events of one message: each key not sent before goes out once, with
      the part as it is now. */
  lemma {:induction false} SubsCarryPartsAsTheyAre(em: set<string>, m: Info, n: nat, working: bool)
    requires n <= |m.subs| && forall k :: 0 <= k < |m.subs| ==> m.subs[k].kind != ""
    ensures var (em', out) := EmitSubs(em, m, n, working);
            && em <= em'
            && (forall k :: 0 <= k < n ==> Key(m.id, m.subs[k].partID) in em')
            && (forall i :: 0 <= i < |out| ==> ':' in out[i].msgID && IsSubEvent(out[i], m, n, em, working))
  {
    if n > 0 {
      SubsCarryPartsAsTheyAre(em, m, n - 1, working);
      var (em1, out1) := EmitSubs(em, m, n - 1, working);
      var e := SubEvent(m, m.subs[n - 1], working);
      KeyHasColon(m.id, m.subs[n - 1].partID);
      assert e.msgID !in em1 ==> IsSubEvent(e, m, n, em, working);
      forall i | 0 <= i < |out1|
        ensures IsSubEvent(out1[i], m, n, em, working)
      {
        assert IsSubEvent(out1[i], m, n - 1, em, working);
      }
    }
  }

  lemma {:induction false} EmitSubsOnce(em: set<string>, m: Info, n: nat, working: bool, tr: seq<Event>)
    requires n <= |m.subs| && Tidy(tr, em) && forall k :: 0 <= k < |m.subs| ==> m.subs[k].kind != ""
    ensures var (em', out) := EmitSubs(em, m, n, working); Tidy(tr + out, em')
  {
    if n == 0 {
      assert tr + [] == tr;
    } else {
      EmitSubsOnce(em, m, n - 1, working, tr);
      var (em1, out1) := EmitSubs(em, m, n - 1, working);
      var e := SubEvent(m, m.subs[n - 1], working);
      if e.msgID !in em1 {
        TidyWithSub(tr + out1, em1, e);
        assert tr + (out1 + [e]) == (tr + out1) + [e];
      }
    }
  }

  /* ---------- one message ---------- */

  ghost predicate Reads(info: Info, m: Msg) {
    info.id == m.id && info.role == m.role && info.text == TextOf(m) && info.subs == AllSubs(m.parts)
  }

  /** What processing one message sends: sub-events of fresh keys, then events
      under the message's own id or under no id. */
  ghost predicate SentFor(out: seq<Event>, id: string) {
    forall i :: 0 <= i < |out| ==> out[i].msgID == id || out[i].msgID == "" || ':' in out[i].msgID
  }

  lemma OtherMessagesKeepTheirText(tr: seq<Event>, out: seq<Event>, msgs: seq<Msg>, j: nat, i: nat)
    requires WellFormed(msgs) && i < |msgs| && j < |msgs| && i != j && SentFor(out, msgs[j].id)
    ensures LastText(tr + out, msgs[i].id) == LastText(tr, msgs[i].id)
  {
    LastTextOfConcat(tr, out, msgs[i].id);
    assert i < j || j < i;
    LastTextElsewhere(out, msgs[i].id);
  }

  /** Handling a message ends with its subs sent and its text, unless empty, last
      sent as it is. */
  ghost predicate Handled(w: W, t: Turn, m: Info, tr: seq<Event>) {
    && SentFor(t.out, m.id) && Tidy(tr + t.out, t.w.emitted) && w.emitted <= t.w.emitted
    && KeysSent(t.w.emitted, m.id, m.subs) && LastSent(tr + t.out, m.id, m.text)
  }

  /** The events after the sub-events: all under the message's id with its text. */
  lemma {:induction false} SubsThenText(w: W, t: Turn, m: Info, working: bool, tr: seq<Event>, rest: seq<Event>)
    requires Tidy(tr, w.emitted) && forall k :: 0 <= k < |m.subs| ==> m.subs[k].kind != ""
    requires ':' !in m.id
    requires var (em, subs) := EmitSubs(w.emitted, m, |m.subs|, working); t.w.emitted == em && t.out == subs + rest
    requires forall i :: 0 <= i < |rest| ==> rest[i].msgID == m.id && rest[i].text == m.text && rest[i].kind == ""
    requires rest == [] ==> LastSent(tr, m.id, m.text)
    ensures Handled(w, t, m, tr)
    ensures rest == [] ==> LastText(tr + t.out, m.id) == LastText(tr, m.id)
    ensures rest != [] ==> LastText(tr + t.out, m.id) == Some(m.text)
  {
    EmitSubsOnce(w.emitted, m, |m.subs|, working, tr);
    SubsCarryPartsAsTheyAre(w.emitted, m, |m.subs|, working);
    var (em, subs) := EmitSubs(w.emitted, m, |m.subs|, working);
    assert tr + t.out == (tr + subs) + rest;
    TidyWithPlain(tr + subs, em, rest);
    LastTextOfConcat(tr + subs, rest, m.id);
    LastTextOfConcat(tr, subs, m.id);
    LastTextElsewhere(subs, m.id);
  }

  lemma {:induction false} CompleteHandles(w: W, m: Info, tr: seq<Event>)
    requires Tidy(tr, w.emitted) && ':' !in m.id && forall k :: 0 <= k < |m.subs| ==> m.subs[k].kind != ""
    requires m.text == "" || Visible(m)
    ensures Handled(w, Complete(w, m), m, tr)
  {
    var rest := if Visible(m) then [TextEvent(m, if m.hasTool then Working else Standby)] else [];
    SubsThenText(w, Complete(w, m), m, false, tr, rest);
  }

  lemma {:induction false} CompleteStep(w: W, msgs: seq<Msg>, seed: int, c: int, tr: seq<Event>, info: Info)
    requires Tracking(w, msgs, seed, c, tr) && c + 1 < |msgs| && Reads(info, msgs[c + 1])
    ensures var t := Complete(w, info);
            Tracking(t.w, msgs, seed, c + 1, tr + t.out)
  {
    var t := Complete(w, info);
    SubKinds(msgs[c + 1].parts);
    CompleteHandles(w, info, tr);
    forall i | seed < i <= c + 1
      ensures Reported(tr + t.out, msgs[i]) && SubsSent(t.w.emitted, msgs[i])
    {
      if i <= c {
        OtherMessagesKeepTheirText(tr, t.out, msgs, c + 1, i);
      }
    }
  }

  ghost predicate KeptByComplete(inv: (W, int, seq<Event>) -> bool, c: int, infos: seq<Info>) {
    forall v: W, k: nat, at: int, t: seq<Event> {:trigger inv(v, at, t), infos[k]} ::
      k < |infos| && at == c + k && inv(v, at, t) ==>
        inv(Complete(v, infos[k]).w, at + 1, t + Complete(v, infos[k]).out)
  }

  /** What every completed message keeps, a row of completed messages keeps. */
  lemma {:induction false} CompleteAllKeeps(inv: (W, int, seq<Event>) -> bool, w: W, c: int, tr: seq<Event>,
                                            infos: seq<Info>, n: nat)
    requires n <= |infos| && inv(w, c, tr) && KeptByComplete(inv, c, infos)
    ensures inv(CompleteAll(w, infos[..n]).w, c + n, tr + CompleteAll(w, infos[..n]).out)
    decreases n
  {
    if n == 0 {
      assert tr + [] == tr;
    } else {
      var k := n - 1;
      assert infos[..n][..k] == infos[..k];
      CompleteAllKeeps(inv, w, c, tr, infos, k);
      var t := CompleteAll(w, infos[..k]);
      var u := Complete(t.w, infos[k]);
      assert (tr + t.out) + u.out == tr + (t.out + u.out);
      assert inv(u.w, c + n, (tr + t.out) + u.out);
    }
  }

  lemma {:induction false} CompleteAllSteps(w: W, msgs: seq<Msg>, seed: int, c: int, tr: seq<Event>, infos: seq<Info>)
    requires Tracking(w, msgs, seed, c, tr) && c + |infos| < |msgs|
    requires forall i :: 0 <= i < |infos| ==> Reads(infos[i], msgs[c + 1 + i])
    ensures Tracking(CompleteAll(w, infos).w, msgs, seed, c + |infos|, tr + CompleteAll(w, infos).out)
  {
    hide Tracking, Reads, Complete, CompleteAll;
    var inv := (v: W, k: int, t: seq<Event>) => Tracking(v, msgs, seed, k, t);
    forall v: W, k: nat, at: int, t: seq<Event> | k < |infos| && at == c + k && inv(v, at, t)
      ensures inv(Complete(v, infos[k]).w, at + 1, t + Complete(v, infos[k]).out)
    {
      CompleteStep(v, msgs, seed, at, t, infos[k]);
    }
    CompleteAllKeeps(inv, w, c, tr, infos, |infos|);
    assert infos[..|infos|] == infos;
  }

  /** The newest message is handled, and if it goes on streaming then what was last
      sent for it is remembered. */
  ghost predicate StreamHandled(w: W, t: Turn, m: Info, tr: seq<Event>) {
    && Handled(w, t, m, tr)
    && t.w.session == w.session && t.w.lastMsgID == w.lastMsgID
    && (t.w.streamID == "" || (t.w.streamID == m.id && LastSent(tr + t.out, m.id, t.w.streamText)))
  }

  lemma {:induction false} NewStreamHandles(w: W, m: Info, tr: seq<Event>)
    requires Tidy(tr, w.emitted) && ':' !in m.id && forall k :: 0 <= k < |m.subs| ==> m.subs[k].kind != ""
    ensures StreamHandled(w, NewStream(w, m), m, tr)
  {
    var rest := if Visible(m) then [TextEvent(m, Working)] else if m.role == "assistant" then [StatusEvent(m)] else [];
    SubsThenText(w, NewStream(w, m), m, true, tr, rest);
  }

  lemma {:induction false} RestreamHandles(w: W, m: Info, tr: seq<Event>)
    requires Tidy(tr, w.emitted) && ':' !in m.id && m.id != "" && forall k :: 0 <= k < |m.subs| ==> m.subs[k].kind != ""
    requires w.streamID == m.id && LastSent(tr, m.id, w.streamText)
    ensures StreamHandled(w, Restream(w, m), m, tr)
  {
    var t := Restream(w, m);
    if Unchanged(w, m) {
      TidyWithPlain(tr, w.emitted, t.out);
      LastTextOfConcat(tr, t.out, m.id);
      LastTextElsewhere(t.out, m.id);
    } else {
      var started := if m.hasTool && !w.streamTool && m.role == "assistant" then [StatusEvent(m)] else [];
      var update := m.text != w.streamText || m.toolName != "";
      var text := if update && Visible(m) then [TextEvent(m, Working)] else [];
      var (em, subs) := EmitSubs(w.emitted, m, |m.subs|, true);
      assert t.out == subs + (started + text);
      SubsThenText(w, t, m, true, tr, started + text);
    }
  }

  lemma {:induction false} NewestStep(w: W, msgs: seq<Msg>, seed: int, c: int, tr: seq<Event>, info: Info)
    requires Tracking(w, msgs, seed, c, tr) && c + 2 == |msgs| && Reads(info, msgs[c + 1])
    ensures var t := Newest(w, info);
            && Tracking(t.w, msgs, seed, c, tr + t.out)
            && Reported(tr + t.out, msgs[c + 1]) && SubsSent(t.w.emitted, msgs[c + 1])
  {
    var t := Newest(w, info);
    SubKinds(msgs[c + 1].parts);
    if info.id != w.streamID {
      NewStreamHandles(w, info, tr);
    } else {
      RestreamHandles(w, info, tr);
    }
    forall i | seed < i <= c
      ensures Reported(tr + t.out, msgs[i]) && SubsSent(t.w.emitted, msgs[i])
    {
      OtherMessagesKeepTheirText(tr, t.out, msgs, c + 1, i);
    }
  }

  /* ---------- one poll ---------- */

  function NextCursor(c: int, n: nat): int {
    if c < n - 1 then n - 2 else c
  }

  lemma {:induction false} PollInfosReports(w: W, msgs: seq<Msg>, seed: int, c: int, tr: seq<Event>, infos: seq<Info>)
    requires Tracking(w, msgs, seed, c, tr) && 0 < |infos| == |msgs| - 1 - c
    requires forall i :: 0 <= i < |infos| ==> Reads(infos[i], msgs[c + 1 + i])
    ensures var t := PollInfos(w, infos);
            && Tracking(t.w, msgs, seed, |msgs| - 2, tr + t.out)
            && Reported(tr + t.out, msgs[|msgs| - 1]) && SubsSent(t.w.emitted, msgs[|msgs| - 1])
  {
    hide Tracking, Reported, SubsSent, Reads, CompleteAll, Newest;
    var n := |infos| - 1;
    var done := infos[..n];
    var t := CompleteAll(w, done);
    var u := Newest(t.w, infos[n]);
    assert PollInfos(w, infos) == Turn(u.w, t.out + u.out);
    assert tr + (t.out + u.out) == (tr + t.out) + u.out;
    assert forall i :: 0 <= i < n ==> done[i] == infos[i];
    CompleteAllSteps(w, msgs, seed, c, tr, done);
    NewestStep(t.w, msgs, seed, c + n, tr + t.out, infos[n]);
  }

  lemma PollInfosKeeps(w: W, msgs: seq<Msg>, seed: int, c: int, tr: seq<Event>, infos: seq<Info>)
    requires Inv(w, msgs, seed, c, tr) && |infos| == |msgs| - 1 - c
    requires forall i :: 0 <= i < |infos| ==> Reads(infos[i], msgs[c + 1 + i])
    ensures var t := PollInfos(w, infos);
            Inv(t.w, msgs, seed, NextCursor(c, |msgs|), tr + t.out) && AllReported(t.w, msgs, seed, tr + t.out)
  {
    hide Reads, Reported, SubsSent, LastText, WellFormed, Tidy;
    if infos == [] {
      assert tr + [] == tr;
    } else {
      PollInfosReports(w, msgs, seed, c, tr, infos);
    }
  }

  lemma InfosRead(msgs: seq<Msg>, n: nat)
    requires n <= |msgs|
    ensures var infos := Infos(msgs[n..]);
            |infos| == |msgs| - n && forall i :: 0 <= i < |infos| ==> Reads(infos[i], msgs[n + i])
  {
    var infos := Infos(msgs[n..]);
    forall i | 0 <= i < |infos|
      ensures Reads(infos[i], msgs[n + i])
    {
      assert infos[i] == InfoOf(msgs[n + i]);
    }
  }

  /** One poll: the cursor moves forward to the message before the newest one, and
      every message after the seed has been reported as it is, its parts included. */
  lemma {:induction false} PollReportsEverything(w: W, msgs: seq<Msg>, seed: int, c: int, tr: seq<Event>)
    requires Inv(w, msgs, seed, c, tr)
    ensures var t := PollMsgs(w, msgs);
            && c <= NextCursor(c, |msgs|)
            && Inv(t.w, msgs, seed, NextCursor(c, |msgs|), tr + t.out)
            && AllReported(t.w, msgs, seed, tr + t.out)
  {
    hide Window, AllReported, PollInfos, Reported, SubsSent;
    WindowIsEverythingAfterCursor(w, msgs, seed, c, tr);
    InfosRead(msgs, c + 1);
    PollInfosKeeps(w, msgs, seed, c, tr, Infos(msgs[c + 1..]));
  }
}
