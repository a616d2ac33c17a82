/** What a message says, told part by part, and what of it is sent. */
module OpenCodeReading {
  import opened Options
  import opened OpenCode

  function WithPart(m: Msg, p: Part): Msg {
    m.(parts := m.parts + [p])
  }

  lemma NoPartsSayNothing(m: Msg)
    requires m.parts == []
    ensures InfoOf(m) == Info(m.id, m.role, "", false, "", "", "", [])
  {
  }

  /** How reading goes on with one more part: a text that is not empty goes on a line of
      its own, a thought or a call of another tool is said apart, the first question is
      kept, and steps, thoughts and tools are activity. */
  ghost predicate GoesOn(was: Info, p: Part, now: Info) {
    match p.body
    case Text(t) =>
      now == was.(text := if t == "" then was.text else if was.text == "" then t else was.text + "\n" + t)
    case Reasoning(t) =>
      now == was.(hasTool := true,
      subs := was.subs + if t == "" then [] else [Sub(p.id, "thinking", t, "", "", "")])
    case StepMark => now == was.(hasTool := true)
    case Tool(tool, callID, input, summary, display) =>
      if tool == "question" then
        now == if was.toolName != "" then was.(hasTool := true)
        else was.(hasTool := true, toolName := "AskUserQuestion", toolUseID := callID, toolInput := input)
      else
        now == was.(hasTool := true,
        subs := was.subs + if tool == "" then [] else [Sub(p.id, "tool_use", summary, display, callID, input)])
    case OtherPart => now == was
  }

  lemma OneMorePartIsRead(m: Msg, p: Part)
    ensures GoesOn(InfoOf(m), p, InfoOf(WithPart(m, p)))
  {
    InfoIs(m);
    InfoIs(WithPart(m, p));
    PartAdds(m.parts, p);
    OneMoreText(m.parts, p);
    hide InfoOf, AllSubs, HasTool, FirstInteractive, Texts, Lines;
  }

  lemma InfoIs(m: Msg)
    ensures var i, q := InfoOf(m), FirstInteractive(m.parts);
            && i.hasTool == HasTool(m.parts) && i.text == Lines(Texts(m.parts))
            && if q.None? then i.toolName == "" == i.toolUseID == i.toolInput
               else
                 && Interactive(q.value) && i.toolName == "AskUserQuestion"
                 && i.toolUseID == q.value.body.callID && i.toolInput == q.value.body.input
  {
    FirstIsInteractive(m.parts);
  }

  lemma PartAdds(parts: seq<Part>, p: Part)
    ensures var all := parts + [p];
            && AllSubs(all) == AllSubs(parts) + SubsOf(p)
            && HasTool(all) == (HasTool(parts) || Active(p))
            && FirstInteractive(all) == if FirstInteractive(parts).Some? then FirstInteractive(parts)
                                        else if Interactive(p) then Some(p) else None
  {
    var all := parts + [p];
    assert all[..|parts|] == parts && all[|parts|] == p;
  }

  lemma {:induction false} FirstIsInteractive(parts: seq<Part>)
    ensures FirstInteractive(parts).Some? ==> Interactive(FirstInteractive(parts).value)
  {
    if parts != [] {
      FirstIsInteractive(parts[..|parts| - 1]);
    }
  }

  lemma {:induction false} LinesOfSome(texts: seq<string>)
    requires forall i :: 0 <= i < |texts| ==> texts[i] != ""
    ensures Lines(texts) == "" <==> texts == []
  {
  }

  lemma {:induction false} TextsAreSome(parts: seq<Part>)
    ensures forall i :: 0 <= i < |Texts(parts)| ==> Texts(parts)[i] != ""
  {
    if parts != [] {
      TextsAreSome(parts[..|parts| - 1]);
    }
  }

  lemma OneMoreText(parts: seq<Part>, p: Part)
    ensures var was, now := Lines(Texts(parts)), Lines(Texts(parts + [p]));
            now == if !p.body.Text? || p.body.text == "" then was
            else if was == "" then p.body.text else was + "\n" + p.body.text
  {
    var all := parts + [p];
    assert all[..|parts|] == parts && all[|parts|] == p;
    TextsAreSome(parts);
    LinesOfSome(Texts(parts));
    if p.body.Text? && p.body.text != "" {
      var texts := Texts(parts) + [p.body.text];
      assert Texts(all) == texts && texts[..|texts| - 1] == Texts(parts);
    } else {
      assert Texts(all) == Texts(parts);
    }
  }

  /* ---------- the parts said apart, and the question ---------- */

  /** A part that is said apart from the text: a thought, or a call of a tool other than
      the question. */
  predicate SaidApart(p: Part) {
    match p.body
    case Reasoning(t) => t != ""
    case Tool(tool, _, _, _, _) => tool != "" && tool != "question"
    case _ => false
  }

  predicate Says(s: Sub, p: Part) {
    match p.body
    case Reasoning(t) => s == Sub(p.id, "thinking", t, "", "", "")
    case Tool(_, callID, input, summary, display) => s == Sub(p.id, "tool_use", summary, display, callID, input)
    case _ => false
  }

  lemma OnePartSays(p: Part)
    ensures if SaidApart(p) then |SubsOf(p)| == 1 && Says(SubsOf(p)[0], p) else SubsOf(p) == []
  {
  }

  /** `subs` says the parts at the increasing places `at`, which are those said apart. */
  ghost predicate PartsAt(parts: seq<Part>, subs: seq<Sub>, at: seq<nat>) {
    && |at| == |subs|
    && (forall i, j :: 0 <= i < j < |at| ==> at[i] < at[j])
    && (forall i :: 0 <= i < |at| ==> at[i] < |parts| && Says(subs[i], parts[at[i]]))
    && (forall k :: 0 <= k < |parts| ==> (SaidApart(parts[k]) <==> k in at))
  }

  lemma OneMoreAt(parts: seq<Part>, subs: seq<Sub>, at: seq<nat>, p: Part, s: Sub)
    requires PartsAt(parts, subs, at) && SaidApart(p) && Says(s, p)
    ensures PartsAt(parts + [p], subs + [s], at + [|parts|])
  {
    hide SaidApart, Says;
    var n, all, next := |parts|, parts + [p], at + [|parts|];
    assert all[n] == p && forall k :: 0 <= k < n ==> all[k] == parts[k];
    assert forall k :: k in at ==> k < n;
    forall k | 0 <= k < |all| ensures SaidApart(all[k]) <==> k in next {
      assert k in next <==> k in at || k == n;
    }
    forall i | 0 <= i < |next| ensures next[i] < |all| && Says((subs + [s])[i], all[next[i]]) {
    }
  }

  lemma NoMoreAt(parts: seq<Part>, subs: seq<Sub>, at: seq<nat>, p: Part)
    requires PartsAt(parts, subs, at) && !SaidApart(p)
    ensures PartsAt(parts + [p], subs, at)
  {
    hide SaidApart, Says;
    var all := parts + [p];
    assert all[|parts|] == p && forall k :: 0 <= k < |parts| ==> all[k] == parts[k];
    assert forall k :: k in at ==> k < |parts|;
  }

  /** The sub-events are the parts said apart, one each, in order. */
  lemma {:induction false} SubsAreTheParts(parts: seq<Part>) returns (at: seq<nat>)
    ensures PartsAt(parts, AllSubs(parts), at)
  {
    if parts == [] {
      at := [];
    } else {
      var n := |parts| - 1;
      var front, p := parts[..n], parts[n];
      assert AllSubs(parts) == AllSubs(front) + SubsOf(p);
      hide *;
      at := SubsAreTheParts(front);
      OnePartSays(p);
      assert parts == front + [p];
      if SaidApart(p) {
        var s := SubsOf(p)[0];
        assert SubsOf(p) == [s];
        OneMoreAt(front, AllSubs(front), at, p, s);
        at := at + [n];
      } else {
        assert AllSubs(front) + [] == AllSubs(front);
        NoMoreAt(front, AllSubs(front), at, p);
      }
    }
  }

  predicate IsQuestion(p: Part) {
    p.body.Tool? && p.body.tool == "question"
  }

  predicate FirstQuestionAt(parts: seq<Part>, k: int) {
    0 <= k < |parts| && IsQuestion(parts[k]) && forall j :: 0 <= j < k ==> !IsQuestion(parts[j])
  }

  lemma {:induction false} FirstInteractiveIs(parts: seq<Part>)
    ensures FirstInteractive(parts).None? <==> forall k :: 0 <= k < |parts| ==> !IsQuestion(parts[k])
    ensures forall k :: FirstQuestionAt(parts, k) ==> FirstInteractive(parts) == Some(parts[k])
  {
    if parts != [] {
      var n := |parts| - 1;
      var front := parts[..n];
      FirstInteractiveIs(front);
      assert Interactive(parts[n]) <==> IsQuestion(parts[n]);
      hide IsQuestion, Interactive;
      assert forall k :: 0 <= k < n ==> front[k] == parts[k];
      forall k | FirstQuestionAt(parts, k) ensures FirstInteractive(parts) == Some(parts[k]) {
        if k < n {
          assert FirstQuestionAt(front, k);
        }
      }
    }
  }

  /** A message asks what the first of its questions asks, and nothing without one. */
  lemma FirstQuestionIsAsked(m: Msg)
    ensures InfoOf(m).toolName == "" <==> forall k :: 0 <= k < |m.parts| ==> !IsQuestion(m.parts[k])
    ensures InfoOf(m).toolName == "" ==> InfoOf(m).toolUseID == "" && InfoOf(m).toolInput == ""
    ensures forall k :: FirstQuestionAt(m.parts, k) ==>
                          var i := InfoOf(m);
                          && i.toolName == "AskUserQuestion" && i.toolUseID == m.parts[k].body.callID
                          && i.toolInput == m.parts[k].body.input
  {
    InfoIs(m);
    FirstInteractiveIs(m.parts);
    hide InfoOf, FirstInteractive;
  }
}
