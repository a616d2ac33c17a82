/** The polling watcher of an OpenCode session, as the object it is: a cursor, a
    streaming message and the set of part keys already sent. */
module OpenCodeWatching {
  import opened Options
  import opened OpenCode

  /** A call of the session-switch callback, and how many events went out before. */
  datatype SwitchCall = SwitchCall(after: nat, session: string)

  class OpenCodeDBWatcher {
    var sessionID: string
    var lastMsgID: string
    var streamingMsgID: string
    var streamingMsgText: string
    var streamingMsgHasTool: bool
    var streamingUnchanged: nat
    var emittedParts: set<string>
    var sent: seq<Event>           // events handed to the callback
    var switches: seq<SwitchCall>  // calls of the session-switch callback

    ghost function State(): W
      reads this
    {
      W(sessionID, lastMsgID, streamingMsgID, streamingMsgText, streamingMsgHasTool, streamingUnchanged, emittedParts)
    }

    constructor (session: string)
      ensures State() == Fresh(session) && sent == [] && switches == []
    {
      sessionID, lastMsgID, streamingMsgID, streamingMsgText := session, "", "", "";
      streamingMsgHasTool, streamingUnchanged, emittedParts, sent := false, 0, {}, [];
      switches := [];
    }

    method Start(db: Db)
      modifies this`lastMsgID
      ensures State() == Seeded(old(State()), MsgsOf(db, sessionID))
    {
      var lastID := NewestID(MsgsOf(db, sessionID));
      if lastID != "" {
        lastMsgID := lastID;
      }
    }

    method ResetOffset(db: Db)
      modifies this
      ensures State() == OpenCode.ResetOffset(old(State()), MsgsOf(db, sessionID)) && sent == old(sent)
              && switches == old(switches)
    {
      ForgetStream();
      emittedParts := {};
      var lastID := NewestID(MsgsOf(db, sessionID));
      if lastID != "" {
        lastMsgID := lastID;
      }
    }

    method ForgetStream()
      modifies this`streamingMsgID, this`streamingMsgText, this`streamingMsgHasTool
      ensures State() == NoStream(old(State()))
    {
      streamingMsgID, streamingMsgText, streamingMsgHasTool := "", "", false;
    }

    method Callback(e: Event)
      modifies this`sent
      ensures sent == old(sent) + [e]
    {
      sent := sent + [e];
    }

    method RefreshSession(db: Db, due: bool)
      modifies this
      ensures var s := SwitchDue(old(State()), db, due);
              State() == (if s then Switched(old(State()), db.latest) else old(State())) &&
              sent == old(sent) && switches == old(switches) + (if s then [SwitchCall(|sent|, db.latest)] else [])
    {
      if !due || db.latest == "" || db.latest == sessionID {
        return;
      }
      sessionID := db.latest;
      lastMsgID := "";
      ForgetStream();
      emittedParts := {};
      switches := switches + [SwitchCall(|sent|, db.latest)];
    }

    /** The parts of one message: texts joined by newlines, the first interactive
        tool, and one sub-event per reasoning or other tool part. */
    static method ReadParts(m: Msg) returns (info: Info)
      ensures info == InfoOf(m)
    {
      hide Lines;
      var textParts: seq<string>, hasToolUse, subs := [], false, [];
      var captured: Option<Part> := None;
      for i := 0 to |m.parts|
        invariant textParts == Texts(m.parts[..i]) && subs == AllSubs(m.parts[..i])
        invariant hasToolUse == HasTool(m.parts[..i])
        invariant captured == FirstInteractive(m.parts[..i])
        invariant captured.Some? ==> Interactive(captured.value)
      {
        var part := m.parts[i];
        OneMorePart(m.parts, i);
        hide AllSubs, Texts, FirstInteractive, HasTool;
        match part.body {
          case Text(t) =>
            if t != "" { textParts := textParts + [t]; }
          case Reasoning(t) =>
            hasToolUse := true;
            if t != "" { subs := subs + [Sub(part.id, "thinking", t, "", "", "")]; }
          case StepMark =>
            hasToolUse := true;
          case Tool(tool, callID, input, summary, display) =>
            hasToolUse := true;
            if tool == "question" {
              if captured.None? { captured := Some(part); }
            } else if tool != "" {
              subs := subs + [Sub(part.id, "tool_use", summary, display, callID, input)];
            }
          case OtherPart =>
        }
      }
      assert m.parts[..|m.parts|] == m.parts;
      var text := JoinLines(textParts);
      if captured.Some? {
        info := Info(m.id, m.role, text, hasToolUse, "AskUserQuestion", captured.value.body.callID,
                     captured.value.body.input, subs);
      } else {
        info := Info(m.id, m.role, text, hasToolUse, "", "", "", subs);
      }
    }

    static lemma OneMorePart(parts: seq<Part>, i: nat)
      requires i < |parts|
      ensures var was, now, p := parts[..i], parts[..i + 1], parts[i];
              && AllSubs(now) == AllSubs(was) + SubsOf(p) && HasTool(now) == (HasTool(was) || Active(p))
              && Texts(now) == Texts(was) + (if p.body.Text? && p.body.text != "" then [p.body.text] else [])
              && FirstInteractive(now) == if FirstInteractive(was).Some? then FirstInteractive(was)
                                          else if Interactive(p) then Some(p) else None
    {
      assert parts[..i + 1][..i] == parts[..i];
    }

    static method JoinLines(texts: seq<string>) returns (text: string)
      ensures text == Lines(texts)
    {
      text := "";
      for i := 0 to |texts|
        invariant text == Lines(texts[..i])
      {
        assert texts[..i + 1][..i] == texts[..i];
        if i > 0 {
          text := text + "\n";
        }
        text := text + texts[i];
      }
      assert texts[..|texts|] == texts;
    }

    method EmitSubEvents(m: Info, working: bool)
      modifies this`emittedParts, this`sent
      ensures var (em, out) := EmitSubs(old(emittedParts), m, |m.subs|, working);
              emittedParts == em && sent == old(sent) + out
    {
      for n := 0 to |m.subs|
        invariant var (em, out) := EmitSubs(old(emittedParts), m, n, working);
                  emittedParts == em && sent == old(sent) + out
      {
        var key := Key(m.id, m.subs[n].partID);
        if key !in emittedParts {
          emittedParts := emittedParts + {key};
          Callback(SubEvent(m, m.subs[n], working));
        }
      }
    }

    method CompleteMessage(m: Info)
      modifies this
      ensures switches == old(switches)
      ensures var t := Complete(old(State()), m);
              State() == t.w && sent == old(sent) + t.out
    {
      lastMsgID := m.id;
      if m.id == streamingMsgID {
        ForgetStream();
      }
      EmitSubEvents(m, false);
      if m.text != "" || m.toolName != "" {
        Callback(TextEvent(m, if m.hasTool then Working else Standby));
      }
    }

    method HasPendingSubs(m: Info) returns (pending: bool)
      ensures pending == Pending(emittedParts, m)
    {
      for n := 0 to |m.subs|
        invariant forall k :: 0 <= k < n ==> Key(m.id, m.subs[k].partID) in emittedParts
      {
        if Key(m.id, m.subs[n].partID) !in emittedParts {
          return true;
        }
      }
      return false;
    }

    method StreamAgain(last: Info)
      modifies this
      ensures switches == old(switches)
      ensures var t := Restream(old(State()), last);
              State() == t.w && sent == old(sent) + t.out
    {
      hide EmitSubs, Pending, TextEvent, StatusEvent;
      var textUnchanged := last.text == streamingMsgText;
      var toolStateChanged := last.hasTool != streamingMsgHasTool;
      var pendingSubs := HasPendingSubs(last);
      if textUnchanged && !toolStateChanged && !pendingSubs {
        streamingUnchanged := streamingUnchanged + 1;
        if streamingUnchanged >= 10 && last.role == "assistant" {
          Callback(SETTLED);
          ForgetStream();
          streamingUnchanged := 0;
        }
        return;
      }
      streamingUnchanged := 0;
      EmitSubEvents(last, true);
      if last.hasTool && !streamingMsgHasTool && last.role == "assistant" {
        Callback(StatusEvent(last));
      }
      streamingMsgHasTool := last.hasTool;
      if !textUnchanged || last.toolName != "" {
        streamingMsgText := last.text;
        if last.text != "" || last.toolName != "" {
          Callback(TextEvent(last, Working));
        }
      }
    }

    method StreamNew(last: Info)
      modifies this
      ensures switches == old(switches)
      ensures var t := NewStream(old(State()), last);
              State() == t.w && sent == old(sent) + t.out
    {
      hide EmitSubs, TextEvent, StatusEvent;
      streamingMsgID, streamingMsgText, streamingMsgHasTool := last.id, last.text, last.hasTool;
      EmitSubEvents(last, true);
      if last.text != "" || last.toolName != "" {
        Callback(TextEvent(last, Working));
      } else if last.role == "assistant" {
        Callback(StatusEvent(last));
      }
    }

    /** The window query: from the streaming message, or from the last processed
        one, which is then skipped. */
    method Collect(msgs: seq<Msg>) returns (headers: seq<Msg>)
      ensures headers == Window(State(), msgs)
    {
      var effectiveLastID := lastMsgID;
      if streamingMsgID != "" {
        effectiveLastID := streamingMsgID;
      }
      var all, from := effectiveLastID == "", TimeOf(msgs, effectiveLastID);
      headers := [];
      for i := 0 to |msgs|
        invariant headers == Since(msgs[..i], all, from, State())
      {
        assert msgs[..i + 1][..i] == msgs[..i];
        var m := msgs[i];
        if (all || m.time >= from) && !(m.id == lastMsgID && m.id != streamingMsgID) {
          headers := headers + [m];
        }
      }
      assert msgs[..|msgs|] == msgs;
    }

    method ProcessWindow(msgs: seq<Info>)
      modifies this
      ensures switches == old(switches)
      ensures var t := PollInfos(old(State()), msgs);
              State() == t.w && sent == old(sent) + t.out
    {
      hide Complete, Restream, NewStream;
      if |msgs| == 0 {
        return;
      }
      var n := |msgs| - 1;
      for i := 0 to n
        invariant switches == old(switches)
        invariant var t := CompleteAll(old(State()), msgs[..i]);
                  State() == t.w && sent == old(sent) + t.out
      {
        assert msgs[..i + 1][..i] == msgs[..i];
        CompleteMessage(msgs[i]);
      }
      var last := msgs[n];
      if last.id == streamingMsgID {
        StreamAgain(last);
      } else {
        StreamNew(last);
      }
    }

    static method ReadAll(headers: seq<Msg>) returns (msgs: seq<Info>)
      ensures msgs == Infos(headers)
    {
      msgs := [];
      for i := 0 to |headers|
        invariant |msgs| == i && forall k :: 0 <= k < i ==> msgs[k] == InfoOf(headers[k])
      {
        var info := ReadParts(headers[i]);
        msgs := msgs + [info];
      }
    }

    /** One tick: follow a session switch, then read the window and report it. */
    method Poll(db: Db, due: bool)
      modifies this
      ensures State() == OpenCode.Poll(old(State()), db, due).w
      ensures sent == old(sent) + OpenCode.Poll(old(State()), db, due).out
      ensures switches == old(switches) +
                          (if SwitchDue(old(State()), db, due) then [SwitchCall(|old(sent)|, db.latest)] else [])
    {
      RefreshSession(db, due);
      var headers := Collect(MsgsOf(db, sessionID));
      var msgs := ReadAll(headers);
      ProcessWindow(msgs);
    }
  }
}
