/** The OpenCode session database and the conversation events derived from it:
    what one message looks like when it is read, and what one poll of the watcher
    does, as functions of the watcher's state. */
module OpenCode {
  import opened Options

  datatype Status = Working | Standby

  /** A part row.  `summary` is the rendered "[Tool: detail]" text of a tool call. */
  datatype PartBody =
    | Text(text: string)
    | Reasoning(text: string)
    | StepMark
    | Tool(tool: string, callID: string, input: string, summary: string, display: string)
    | OtherPart

  datatype Part = Part(id: string, body: PartBody)

  datatype Msg = Msg(id: string, time: int, role: string, parts: seq<Part>)

  datatype Event = Event(role: string, text: string, kind: string, msgID: string, toolName: string,
                         toolUseName: string, toolUseID: string, toolInput: string, status: Option<Status>)

  /** A reasoning or non-interactive tool part, surfaced as an event of its own. */
  datatype Sub = Sub(partID: string, kind: string, text: string, toolName: string, toolUseID: string, toolInput: string)

  datatype Info = Info(id: string, role: string, text: string, hasTool: bool,
                       toolName: string, toolUseID: string, toolInput: string, subs: seq<Sub>)

  predicate Interactive(p: Part) {
    p.body.Tool? && p.body.tool == "question"
  }

  function SubsOf(p: Part): seq<Sub> {
    match p.body
    case Reasoning(t) => if t != "" then [Sub(p.id, "thinking", t, "", "", "")] else []
    case Tool(tool, callID, input, summary, display) =>
      if !Interactive(p) && tool != "" then [Sub(p.id, "tool_use", summary, display, callID, input)] else []
    case _ => []
  }

  function AllSubs(parts: seq<Part>): seq<Sub> {
    if parts == [] then [] else AllSubs(parts[..|parts| - 1]) + SubsOf(parts[|parts| - 1])
  }

  function Texts(parts: seq<Part>): seq<string> {
    if parts == [] then []
    else
      var p := parts[|parts| - 1].body;
      Texts(parts[..|parts| - 1]) + (if p.Text? && p.text != "" then [p.text] else [])
  }

  function Lines(texts: seq<string>): string {
    if texts == [] then ""
    else (if |texts| > 1 then Lines(texts[..|texts| - 1]) + "\n" else "") + texts[|texts| - 1]
  }

  predicate Active(p: Part) {
    p.body.Reasoning? || p.body.StepMark? || p.body.Tool?
  }

  function HasTool(parts: seq<Part>): (b: bool)
    ensures b <==> exists p <- parts :: Active(p)
  {
    parts != [] && (HasTool(parts[..|parts| - 1]) || Active(parts[|parts| - 1]))
  }

  /** The first interactive tool call. */
  function FirstInteractive(parts: seq<Part>): Option<Part> {
    if parts == [] then None
    else
      var r := FirstInteractive(parts[..|parts| - 1]);
      if r.Some? then r
      else if Interactive(parts[|parts| - 1]) then Some(parts[|parts| - 1]) else None
  }

  function TextOf(m: Msg): string {
    Lines(Texts(m.parts))
  }

  function InfoOf(m: Msg): (i: Info)
    ensures i.id == m.id && i.role == m.role && i.text == TextOf(m) && i.subs == AllSubs(m.parts)
  {
    var q := FirstInteractive(m.parts);
    var hasTool := HasTool(m.parts);
    match q
    case Some(p) =>
      if p.body.Tool?
      then Info(m.id, m.role, TextOf(m), hasTool, "AskUserQuestion", p.body.callID, p.body.input, AllSubs(m.parts))
      else Info(m.id, m.role, TextOf(m), hasTool, "", "", "", AllSubs(m.parts))
    case None => Info(m.id, m.role, TextOf(m), hasTool, "", "", "", AllSubs(m.parts))
  }

  /* ---------- the watcher's state and one poll ---------- */

  datatype W = W(session: string, lastMsgID: string, streamID: string, streamText: string,
                 streamTool: bool, quietPolls: nat, emitted: set<string>)

  datatype Turn = Turn(w: W, out: seq<Event>)

  function Key(id: string, partID: string): string {
    id + ":" + partID
  }

  function ForAssistant(role: string, s: Status): Option<Status> {
    if role == "assistant" then Some(s) else None
  }

  function SubEvent(m: Info, s: Sub, working: bool): Event {
    Event(m.role, s.text, s.kind, Key(m.id, s.partID), s.toolName, "", s.toolUseID, s.toolInput,
          ForAssistant(m.role, if working then Working else Standby))
  }

  function TextEvent(m: Info, s: Status): Event {
    Event(m.role, m.text, "", m.id, "", m.toolName, m.toolUseID, m.toolInput, ForAssistant(m.role, s))
  }

  function StatusEvent(m: Info): Event {
    Event(m.role, m.text, "", m.id, "", "", "", "", Some(Working))
  }

  const SETTLED := Event("", "", "", "", "", "", "", "", Some(Standby))

  predicate Pending(emitted: set<string>, m: Info) {
    exists k :: 0 <= k < |m.subs| && Key(m.id, m.subs[k].partID) !in emitted
  }

  predicate Visible(m: Info) {
    m.text != "" || m.toolName != ""
  }

  /** The keys emitted so far and the events sent after the first n sub-events. */
  function EmitSubs(emitted: set<string>, m: Info, n: nat, working: bool): (set<string>, seq<Event>)
    requires n <= |m.subs|
  {
    if n == 0 then (emitted, [])
    else
      var (em, out) := EmitSubs(emitted, m, n - 1, working);
      var key := Key(m.id, m.subs[n - 1].partID);
      if key in em then (em, out) else (em + {key}, out + [SubEvent(m, m.subs[n - 1], working)])
  }

  function NoStream(w: W): W {
    w.(streamID := "", streamText := "", streamTool := false)
  }

  /** A message that a newer one has completed. */
  function Complete(w: W, m: Info): Turn {
    var w1 := if m.id == w.streamID then NoStream(w) else w;
    var (em, subs) := EmitSubs(w.emitted, m, |m.subs|, false);
    Turn(w1.(lastMsgID := m.id, emitted := em),
         subs + if Visible(m) then [TextEvent(m, if m.hasTool then Working else Standby)] else [])
  }

  function CompleteAll(w: W, ms: seq<Info>): Turn {
    if ms == [] then Turn(w, [])
    else
      var t := CompleteAll(w, ms[..|ms| - 1]);
      var u := Complete(t.w, ms[|ms| - 1]);
      Turn(u.w, t.out + u.out)
  }

  predicate Unchanged(w: W, m: Info) {
    m.text == w.streamText && m.hasTool == w.streamTool && !Pending(w.emitted, m)
  }

  /** The newest message, seen again while streaming. */
  function Restream(w: W, m: Info): Turn {
    if Unchanged(w, m) then
      if w.quietPolls + 1 >= 10 && m.role == "assistant" then Turn(NoStream(w).(quietPolls := 0), [SETTLED])
      else Turn(w.(quietPolls := w.quietPolls + 1), [])
    else
      var (em, subs) := EmitSubs(w.emitted, m, |m.subs|, true);
      var started := if m.hasTool && !w.streamTool && m.role == "assistant" then [StatusEvent(m)] else [];
      var update := m.text != w.streamText || m.toolName != "";
      Turn(w.(quietPolls := 0, emitted := em, streamTool := m.hasTool,
           streamText := if update then m.text else w.streamText),
           subs + started + if update && Visible(m) then [TextEvent(m, Working)] else [])
  }

  /** The newest message, seen for the first time or after a settled stream. */
  function NewStream(w: W, m: Info): Turn {
    var (em, subs) := EmitSubs(w.emitted, m, |m.subs|, true);
    Turn(w.(streamID := m.id, streamText := m.text, streamTool := m.hasTool, emitted := em),
         subs + if Visible(m) then [TextEvent(m, Working)]
         else if m.role == "assistant" then [StatusEvent(m)] else [])
  }

  function Newest(w: W, m: Info): Turn {
    if m.id == w.streamID then Restream(w, m) else NewStream(w, m)
  }

  function Infos(ms: seq<Msg>): (r: seq<Info>)
    ensures |r| == |ms| && forall i :: 0 <= i < |r| ==> r[i] == InfoOf(ms[i])
  {
    seq(|ms|, i requires 0 <= i < |ms| => InfoOf(ms[i]))
  }

  function PollInfos(w: W, ms: seq<Info>): Turn {
    if ms == [] then Turn(w, [])
    else
      var t := CompleteAll(w, ms[..|ms| - 1]);
      var u := Newest(t.w, ms[|ms| - 1]);
      Turn(u.w, t.out + u.out)
  }

  /** The time of the message with this id, or 0 when there is none. */
  function TimeOf(msgs: seq<Msg>, id: string): int {
    if msgs == [] then 0
    else if msgs[0].id == id then msgs[0].time else TimeOf(msgs[1..], id)
  }

  /** The window query, minus the last fully processed message. */
  function Window(w: W, msgs: seq<Msg>): seq<Msg> {
    var from := if w.streamID != "" then w.streamID else w.lastMsgID;
    Since(msgs, from == "", TimeOf(msgs, from), w)
  }

  function Since(msgs: seq<Msg>, all: bool, t: int, w: W): seq<Msg> {
    if msgs == [] then []
    else
      var m := msgs[|msgs| - 1];
      Since(msgs[..|msgs| - 1], all, t, w) +
      (if (all || m.time >= t) && (m.id != w.lastMsgID || m.id == w.streamID) then [m] else [])
  }

  function PollMsgs(w: W, msgs: seq<Msg>): Turn {
    PollInfos(w, Infos(Window(w, msgs)))
  }

  /** The database: the messages of every session in order of creation, and the
      session updated last in the watched directory ("" when there is none). */
  datatype Db = Db(sessions: map<string, seq<Msg>>, latest: string)

  function MsgsOf(db: Db, session: string): seq<Msg> {
    if session in db.sessions then db.sessions[session] else []
  }

  predicate SwitchDue(w: W, db: Db, due: bool) {
    due && db.latest != "" && db.latest != w.session
  }

  function Switched(w: W, session: string): W {
    NoStream(w).(session := session, lastMsgID := "", emitted := {})
  }

  /** One poll; `due` says whether the session check is due (it is throttled by
      the clock and needs a working directory and a callback). */
  function Poll(w: W, db: Db, due: bool): Turn {
    var v := if SwitchDue(w, db, due) then Switched(w, db.latest) else w;
    PollMsgs(v, MsgsOf(db, v.session))
  }

  function NewestID(msgs: seq<Msg>): string {
    if msgs == [] then "" else msgs[|msgs| - 1].id
  }

  /** Start and ResetOffset: continue after the newest message there is. */
  function Seeded(w: W, msgs: seq<Msg>): W {
    if NewestID(msgs) != "" then w.(lastMsgID := NewestID(msgs)) else w
  }

  function ResetOffset(w: W, msgs: seq<Msg>): W {
    Seeded(NoStream(w).(emitted := {}), msgs)
  }

  function Fresh(session: string): W {
    W(session, "", "", "", false, 0, {})
  }
}
