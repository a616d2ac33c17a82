/** The gateway's JSON-RPC client: callers register a channel under a fresh id,
    one reader hands out responses, and losing the connection closes every
    waiting channel. */
module RpcProxy {
  import opened Options

  datatype Reply = Reply(id: nat, body: string)

  /** A channel with room for one reply, and how often it was used. */
  datatype Chan = Chan(buf: Option<Reply>, closed: bool, sends: nat, closes: nat)

  const OPEN := Chan(None, false, 0, 0)

  predicate Idle(c: Chan) {
    c == OPEN
  }

  /** `pending` names the channel, by its number, that waits for an id. */
  datatype Wire = Wire(pending: map<nat, nat>, chans: seq<Chan>, nextID: nat)

  function Removed(w: Wire, id: nat): Wire {
    w.(pending := map k | k in w.pending && k != id :: w.pending[k])
  }

  function Registered(w: Wire): Wire {
    Wire(w.pending[w.nextID := |w.chans|], w.chans + [OPEN], w.nextID + 1)
  }

  function Sent(c: Chan, r: Reply): Chan {
    c.(buf := Some(r), sends := c.sends + 1)
  }

  function Closed(c: Chan): Chan {
    c.(closed := true, closes := c.closes + 1)
  }

  ghost predicate InRange(w: Wire) {
    forall id :: id in w.pending ==> w.pending[id] < |w.chans|
  }

  function Responded(w: Wire, r: Reply): Wire
    requires InRange(w)
  {
    if r.id in w.pending
    then Removed(w, r.id).(chans := w.chans[w.pending[r.id] := Sent(w.chans[w.pending[r.id]], r)])
    else w
  }

  function ClosedAll(chans: seq<Chan>, which: set<nat>): (r: seq<Chan>)
    ensures |r| == |chans|
    ensures forall i :: 0 <= i < |r| ==> r[i] == if i in which then Closed(chans[i]) else chans[i]
  {
    seq(|chans|, i requires 0 <= i < |chans| => if i in which then Closed(chans[i]) else chans[i])
  }

  function Disconnected(w: Wire): Wire {
    w.(pending := map[], chans := ClosedAll(w.chans, w.pending.Values))
  }

  /** Ids are handed out once, every pending channel is open, empty and unused, and
      no two ids share one. */
  ghost predicate Sound(w: Wire) {
    && InRange(w)
    && (forall id :: id in w.pending ==> id < w.nextID && Idle(w.chans[w.pending[id]]))
    && (forall a, b :: a in w.pending && b in w.pending && a != b ==> w.pending[a] != w.pending[b])
  }

  class Proxy {
    var pending: map<nat, nat>
    var chans: seq<Chan>
    var nextID: nat

    ghost function View(): Wire
      reads this
    {
      Wire(pending, chans, nextID)
    }

    ghost predicate Valid()
      reads this
    {
      Sound(View())
    }

    constructor ()
      ensures Valid() && View() == Wire(map[], [], 1)
    {
      pending, chans, nextID := map[], [], 1;
    }

    /** The locked start of a call. */
    method Register() returns (id: nat, ch: nat)
      requires Valid()
      modifies this
      ensures Valid() && View() == Registered(old(View()))
      ensures id == old(nextID) && ch == |old(chans)| && id !in old(pending)
    {
      id := nextID;
      nextID := nextID + 1;
      ch := |chans|;
      chans := chans + [OPEN];
      pending := pending[id := ch];
    }

    /** A failed write or a timeout takes the call out of the table. */
    method Forget(id: nat)
      requires Valid()
      modifies this`pending
      ensures Valid() && View() == Removed(old(View()), id)
    {
      pending := map k | k in pending && k != id :: pending[k];
    }

    /** A send to a channel blocks when it is full and panics when it is closed. */
    method Send(ch: nat, r: Reply)
      requires ch < |chans| && !chans[ch].closed && chans[ch].buf.None?
      modifies this`chans
      ensures chans == old(chans)[ch := Sent(old(chans)[ch], r)]
    {
      chans := chans[ch := Sent(chans[ch], r)];
    }

    /** Closing a channel twice panics. */
    method Close(ch: nat)
      requires ch < |chans| && !chans[ch].closed
      modifies this`chans
      ensures chans == old(chans)[ch := Closed(old(chans)[ch])]
    {
      chans := chans[ch := Closed(chans[ch])];
    }

    /** A message with an id: hand it to whoever waits for that id. */
    method HandleResponse(r: Reply)
      requires Valid()
      modifies this
      ensures Valid() && View() == Responded(old(View()), r)
      ensures r.id !in pending && |chans| == |old(chans)|
      ensures r.id in old(pending) ==> var ch := old(pending)[r.id];
                                       ch < |chans| && chans[ch].buf == Some(r) && !chans[ch].closed
      ensures forall ch :: 0 <= ch < |chans| && !(r.id in old(pending) && ch == old(pending)[r.id]) ==>
                             chans[ch] == old(chans)[ch]
    {
      if r.id in pending {
        var ch := pending[r.id];
        pending := map k | k in pending && k != r.id :: pending[k];
        Send(ch, r);
      }
    }

    /** The connection is gone: close every waiting channel and start over. */
    method HandleDisconnect()
      requires Valid()
      modifies this
      ensures Valid() && View() == Disconnected(old(View()))
    {
      var todo := pending.Keys;
      ghost var closed: set<nat> := {};
      while todo != {}
        invariant pending == old(pending) && nextID == old(nextID) && todo <= pending.Keys
        invariant forall id :: id in pending ==> (pending[id] in closed <==> id !in todo)
        invariant closed <= pending.Values
        invariant chans == ClosedAll(old(chans), closed)
        decreases todo
      {
        var id :| id in todo;
        Close(pending[id]);
        closed := closed + {pending[id]};
        todo := todo - {id};
        assert chans == ClosedAll(old(chans), closed);
      }
      assert closed == pending.Values;
      pending := map[];
    }
  }

  /* ---------- callers, reader and network interleaved ---------- */

  datatype Outcome = Got(r: Reply) | ConnectionClosed | WriteFailed | TimedOut

  /** A call between its locked sections: writing the request, waiting in the
      select, timed out but not yet out of the table, finished. */
  datatype Phase = Writing | Waiting | Expired | Finished(outcome: Outcome)

  datatype Call = Call(id: nat, phase: Phase)

  /** Call number i owns channel number i. */
  datatype Sys = Sys(w: Wire, calls: seq<Call>)

  datatype Act =
    | Begin
    | WriteOk(c: nat)
    | WriteFail(c: nat)
    | Respond(r: Reply)      // any message of the other side that carries an id
    | Receive(c: nat)        // the select takes the channel
    | Expire(c: nat)         // the select takes the timer
    | CleanUp(c: nat)
    | Disconnect
    | Reconnect

  ghost predicate Enabled(s: Sys, a: Act) {
    match a
    case Begin => true
    case WriteOk(c) => c < |s.calls| && s.calls[c].phase == Writing
    case WriteFail(c) => c < |s.calls| && s.calls[c].phase == Writing
    case Respond(r) => InRange(s.w)
    case Receive(c) => c < |s.calls| && c < |s.w.chans| && s.calls[c].phase == Waiting
                       && (s.w.chans[c].buf.Some? || s.w.chans[c].closed)
    case Expire(c) => c < |s.calls| && s.calls[c].phase == Waiting
    case CleanUp(c) => c < |s.calls| && s.calls[c].phase == Expired
    case Disconnect => true
    case Reconnect => true
  }

  function Moved(s: Sys, c: nat, p: Phase): Sys
    requires c < |s.calls|
  {
    s.(calls := s.calls[c := s.calls[c].(phase := p)])
  }

  ghost function Step(s: Sys, a: Act): Sys
    requires Enabled(s, a)
  {
    match a
    case Begin => Sys(Registered(s.w), s.calls + [Call(s.w.nextID, Writing)])
    case WriteOk(c) => Moved(s, c, Waiting)
    case WriteFail(c) => Moved(s, c, Finished(WriteFailed)).(w := Removed(s.w, s.calls[c].id))
    case Respond(r) => s.(w := Responded(s.w, r))
    case Receive(c) =>
      if s.w.chans[c].buf.Some?
      then
        var drained := s.w.chans[c].(buf := None);
        Moved(s, c, Finished(Got(s.w.chans[c].buf.value))).(w := s.w.(chans := s.w.chans[c := drained]))
      else Moved(s, c, Finished(ConnectionClosed))
    case Expire(c) => Moved(s, c, Expired)
    case CleanUp(c) => Moved(s, c, Finished(TimedOut)).(w := Removed(s.w, s.calls[c].id))
    case Disconnect => s.(w := Disconnected(s.w))
    case Reconnect => s
  }

  const START := Sys(Wire(map[], [], 1), [])

  ghost predicate IsRun(states: seq<Sys>, acts: seq<Act>) {
    && |states| == |acts| + 1 && states[0] == START
    && forall i :: 0 <= i < |acts| ==> Enabled(states[i], acts[i]) && states[i + 1] == Step(states[i], acts[i])
  }

  /** What is true of call c and its channel. */
  ghost predicate CallInv(s: Sys, c: nat)
    requires c < |s.calls| && c < |s.w.chans|
  {
    var call, ch := s.calls[c], s.w.chans[c];
    && call.id == c + 1
    && ch.sends + ch.closes <= 1
    && (ch.closed <==> ch.closes == 1)
    && (ch.buf.Some? ==> ch.sends == 1 && ch.buf.value.id == call.id)
    && (call.id in s.w.pending ==> s.w.pending[call.id] == c && Idle(ch))
    && (call.id in s.w.pending ==> !call.phase.Finished?)
    && (call.phase.Finished? && call.phase.outcome.Got? ==> call.phase.outcome.r.id == call.id)
    && ((call.phase.Writing? || call.phase.Waiting?) && call.id !in s.w.pending ==> ch.buf.Some? || ch.closed)
  }

  ghost predicate Inv(s: Sys) {
    && Sound(s.w) && |s.calls| == |s.w.chans| && s.w.nextID == |s.calls| + 1
    && (forall id :: id in s.w.pending ==> 1 <= id <= |s.calls|)
    && (forall c :: 0 <= c < |s.calls| ==> CallInv(s, c))
  }

  lemma {:induction false} RespondKeeps(s: Sys, r: Reply)
    requires Inv(s)
    ensures Inv(Step(s, Respond(r)))
  {
    if r.id in s.w.pending {
      var t := Step(s, Respond(r));
      assert CallInv(s, r.id - 1);
      forall c | 0 <= c < |t.calls|
        ensures CallInv(t, c)
      {
        assert CallInv(s, c);
      }
    }
  }

  lemma {:induction false} DisconnectKeeps(s: Sys)
    requires Inv(s)
    ensures Inv(Step(s, Disconnect))
  {
    var t := Step(s, Disconnect);
    forall c | 0 <= c < |t.calls|
      ensures CallInv(t, c)
    {
      assert CallInv(s, c);
      if c in s.w.pending.Values {
        var id :| id in s.w.pending && s.w.pending[id] == c;
        assert CallInv(s, id - 1);
      }
    }
  }

  lemma {:induction false} BeginKeeps(s: Sys)
    requires Inv(s)
    ensures Inv(Step(s, Begin))
  {
    var t := Step(s, Begin);
    forall c | 0 <= c < |t.calls|
      ensures CallInv(t, c)
    {
      assert c < |s.calls| ==> CallInv(s, c);
    }
  }

  lemma {:induction false} CallerKeeps(s: Sys, a: Act)
    requires Inv(s) && Enabled(s, a) && !a.Begin? && !a.Respond? && !a.Disconnect?
    ensures Inv(Step(s, a))
  {
    var t := Step(s, a);
    if !a.Reconnect? {
      assert CallInv(s, a.c);
    }
    forall c | 0 <= c < |t.calls|
      ensures CallInv(t, c)
    {
      assert CallInv(s, c);
    }
    if a.Receive? {
      assert forall id :: id in s.w.pending ==> CallInv(s, id - 1);
    }
  }

  lemma {:induction false} StepKeeps(s: Sys, a: Act)
    requires Inv(s) && Enabled(s, a)
    ensures Inv(Step(s, a))
  {
    match a {
      case Begin => BeginKeeps(s);
      case Respond(r) => RespondKeeps(s, r);
      case Disconnect => DisconnectKeeps(s);
      case _ => CallerKeeps(s, a);
    }
  }

  lemma {:induction false} RunKeeps(states: seq<Sys>, acts: seq<Act>, n: nat)
    requires IsRun(states, acts) && n <= |acts|
    ensures Inv(states[n])
  {
    if n > 0 {
      RunKeeps(states, acts, n - 1);
      assert states[n - 1 + 1] == Step(states[n - 1], acts[n - 1]);
      StepKeeps(states[n - 1], acts[n - 1]);
    }
  }

  /** However calls, responses, failed writes, timeouts and disconnects interleave:
      a channel in the table is open and empty, so the send under the lock never
      blocks or panics and no close hits a closed channel; every channel sees at
      most one send or one close in its life; and a caller only ever gets the reply
      that bears its own id. */
  lemma ChannelsAreUsedOnce(states: seq<Sys>, acts: seq<Act>, n: nat)
    requires IsRun(states, acts) && n <= |acts|
    ensures var s := states[n];
            && |s.calls| == |s.w.chans|
            && (forall id :: id in s.w.pending ==>
                               var c := s.w.pending[id];
                               c < |s.w.chans| && s.w.chans[c].buf.None? && !s.w.chans[c].closed)
            && (forall c :: 0 <= c < |s.w.chans| ==> s.w.chans[c].sends + s.w.chans[c].closes <= 1)
            && (forall c :: 0 <= c < |s.calls| && s.calls[c].phase.Finished? && s.calls[c].phase.outcome.Got? ==>
                              s.calls[c].phase.outcome.r.id == s.calls[c].id)
            && (forall c, d :: 0 <= c < d < |s.calls| ==> s.calls[c].id != s.calls[d].id)
  {
    RunKeeps(states, acts, n);
    var s := states[n];
    forall c | 0 <= c < |s.calls|
      ensures s.calls[c].id == c + 1 && s.w.chans[c].sends + s.w.chans[c].closes <= 1
    {
      assert CallInv(s, c);
    }
    forall c | 0 <= c < |s.calls| && s.calls[c].phase.Finished? && s.calls[c].phase.outcome.Got?
      ensures s.calls[c].phase.outcome.r.id == s.calls[c].id
    {
      assert CallInv(s, c);
    }
  }

  /** No wake-up is lost: a caller that waits and is no longer in the table has a
      reply or a closed channel to take. */
  lemma WaitersAreWoken(states: seq<Sys>, acts: seq<Act>, n: nat, c: nat)
    requires IsRun(states, acts) && n <= |acts| && c < |states[n].calls| && states[n].calls[c].phase == Waiting
    ensures states[n].calls[c].id in states[n].w.pending || Enabled(states[n], Receive(c))
  {
    RunKeeps(states, acts, n);
    assert CallInv(states[n], c);
  }

  /** After a disconnect nobody waits in the table, and every caller that did can
      go on at once. */
  lemma DisconnectReleasesEveryone(states: seq<Sys>, acts: seq<Act>, n: nat)
    requires IsRun(states, acts) && n < |acts| && acts[n] == Disconnect
    ensures var s := states[n + 1];
            && s.w.pending == map[]
            && forall c :: 0 <= c < |s.calls| && s.calls[c].phase == Waiting ==> Enabled(s, Receive(c))
  {
    RunKeeps(states, acts, n + 1);
    var s := states[n + 1];
    forall c | 0 <= c < |s.calls| && s.calls[c].phase == Waiting
      ensures Enabled(s, Receive(c))
    {
      assert CallInv(s, c);
    }
  }

  /* ---------- what became of a call ---------- */

  /** The call is over in this way because of what happened before step `n`. */
  ghost predicate Explained(states: seq<Sys>, acts: seq<Act>, n: nat, c: nat, o: Outcome)
    requires n <= |acts| < |states|
  {
    match o
    case Got(r) => r.id == c + 1 && exists j :: AnsweredAt(states, acts, j, n, r)
    case ConnectionClosed => exists j :: CutOffAt(states, acts, j, n, c)
    case WriteFailed => exists j :: 0 <= j < n && acts[j] == WriteFail(c)
    case TimedOut => exists j :: 0 <= j < n && acts[j] == CleanUp(c)
  }

  /** The reply arrived while its id was in the table. */
  ghost predicate AnsweredAt(states: seq<Sys>, acts: seq<Act>, j: int, n: nat, r: Reply)
    requires n <= |acts| < |states|
  {
    0 <= j < n && acts[j] == Respond(r) && r.id in states[j].w.pending
  }

  /** The connection was lost while call `c`, whose id is `c + 1`, was in the table. */
  ghost predicate CutOffAt(states: seq<Sys>, acts: seq<Act>, j: int, n: nat, c: nat)
    requires n <= |acts| < |states|
  {
    0 <= j < n && acts[j] == Disconnect && c + 1 in states[j].w.pending
  }

  ghost predicate CallExplained(states: seq<Sys>, acts: seq<Act>, n: nat, c: nat)
    requires n <= |acts| < |states| && c < |states[n].calls| == |states[n].w.chans|
  {
    var call, ch := states[n].calls[c], states[n].w.chans[c];
    && (call.phase.Finished? ==> Explained(states, acts, n, c, call.phase.outcome))
    && (ch.buf.Some? ==> Explained(states, acts, n, c, Got(ch.buf.value)))
    && (ch.closed ==> Explained(states, acts, n, c, ConnectionClosed))
  }

  lemma ExplainedLater(states: seq<Sys>, acts: seq<Act>, n: nat, c: nat, o: Outcome)
    requires n < |acts| < |states| && Explained(states, acts, n, c, o)
    ensures Explained(states, acts, n + 1, c, o)
  {
    match o {
      case Got(r) =>
        var j :| AnsweredAt(states, acts, j, n, r);
        assert AnsweredAt(states, acts, j, n + 1, r);
      case ConnectionClosed =>
        var j :| CutOffAt(states, acts, j, n, c);
        assert CutOffAt(states, acts, j, n + 1, c);
      case _ =>
    }
  }

  /** What happens at step `n` that ends the call in this way, or will. */
  ghost predicate Reason(s: Sys, a: Act, c: nat, o: Outcome) {
    match o
    case Got(r) => r.id == c + 1 && a == Respond(r) && r.id in s.w.pending
    case ConnectionClosed => a == Disconnect && c + 1 in s.w.pending
    case WriteFailed => a == WriteFail(c)
    case TimedOut => a == CleanUp(c)
  }

  lemma ExplainedNow(states: seq<Sys>, acts: seq<Act>, n: nat, c: nat, o: Outcome)
    requires n < |acts| < |states| && Reason(states[n], acts[n], c, o)
    ensures Explained(states, acts, n + 1, c, o)
  {
    match o {
      case Got(r) => assert AnsweredAt(states, acts, n, n + 1, r);
      case ConnectionClosed => assert CutOffAt(states, acts, n, n + 1, c);
      case _ =>
    }
  }

  /** Whatever call `c` or its channel shows after a step it showed before, or the step is
      the reason. */
  ghost predicate ShowsReason(s: Sys, a: Act, c: nat, t: Sys)
    requires c < |t.calls| && c < |t.w.chans|
  {
    var call, ch := t.calls[c], t.w.chans[c];
    if c == |s.calls| then !call.phase.Finished? && ch == OPEN
    else
      && c < |s.calls| && c < |s.w.chans|
      && (call.phase.Finished? ==>
            || s.calls[c].phase == call.phase || Reason(s, a, c, call.phase.outcome)
            || (call.phase.outcome.Got? && s.w.chans[c].buf == Some(call.phase.outcome.r))
            || (call.phase.outcome == ConnectionClosed && s.w.chans[c].closed))
      && (ch.buf.Some? ==> s.w.chans[c].buf == ch.buf || Reason(s, a, c, Got(ch.buf.value)))
      && (ch.closed ==> s.w.chans[c].closed || Reason(s, a, c, ConnectionClosed))
  }

  lemma RespondExplains(s: Sys, r: Reply, c: nat)
    requires Inv(s) && c < |s.calls|
    ensures ShowsReason(s, Respond(r), c, Step(s, Respond(r)))
  {
    assert CallInv(s, c);
    if r.id in s.w.pending {
      assert CallInv(s, r.id - 1);
    }
  }

  lemma DisconnectExplains(s: Sys, c: nat)
    requires Inv(s) && c < |s.calls|
    ensures ShowsReason(s, Disconnect, c, Step(s, Disconnect))
  {
    assert CallInv(s, c);
    if c in s.w.pending.Values {
      var id :| id in s.w.pending && s.w.pending[id] == c;
      assert CallInv(s, id - 1);
    }
  }

  lemma CallerExplains(s: Sys, a: Act, c: nat)
    requires Inv(s) && Enabled(s, a) && !a.Respond? && !a.Disconnect?
    requires c < |Step(s, a).calls| && c < |Step(s, a).w.chans|
    ensures ShowsReason(s, a, c, Step(s, a))
  {
    assert c < |s.calls| ==> CallInv(s, c);
    hide Sound, CallInv;
  }

  lemma StepExplains(s: Sys, a: Act, c: nat)
    requires Inv(s) && Enabled(s, a) && c < |Step(s, a).calls| && c < |Step(s, a).w.chans|
    ensures ShowsReason(s, a, c, Step(s, a))
  {
    hide Inv, ShowsReason;
    match a {
      case Respond(r) => RespondExplains(s, r, c);
      case Disconnect => DisconnectExplains(s, c);
      case _ => CallerExplains(s, a, c);
    }
  }

  lemma OneCallExplained(states: seq<Sys>, acts: seq<Act>, n: nat, c: nat)
    requires IsRun(states, acts) && n < |acts| && Inv(states[n]) && Inv(states[n + 1])
    requires c < |states[n + 1].calls| && (c < |states[n].calls| ==> CallExplained(states, acts, n, c))
    ensures CallExplained(states, acts, n + 1, c)
  {
    assert states[n + 1] == Step(states[n], acts[n]);
    StepExplains(states[n], acts[n], c);
    forall o | Explained(states, acts, n, c, o) ensures Explained(states, acts, n + 1, c, o) {
      ExplainedLater(states, acts, n, c, o);
    }
    forall o | Reason(states[n], acts[n], c, o) ensures Explained(states, acts, n + 1, c, o) {
      ExplainedNow(states, acts, n, c, o);
    }
    hide Explained, Reason, Step, IsRun;
  }

  lemma {:induction false} CallsAreExplained(states: seq<Sys>, acts: seq<Act>, n: nat)
    requires IsRun(states, acts) && n <= |acts|
    ensures |states[n].calls| == |states[n].w.chans|
    ensures forall c :: 0 <= c < |states[n].calls| ==> CallExplained(states, acts, n, c)
  {
    RunKeeps(states, acts, n);
    if n > 0 {
      RunKeeps(states, acts, n - 1);
      CallsAreExplained(states, acts, n - 1);
      forall c | 0 <= c < |states[n].calls| ensures CallExplained(states, acts, n, c) {
        OneCallExplained(states, acts, n - 1, c);
      }
    }
  }

  /** Over every run a call that is over says why: it got a reply that did arrive, under its
      own id and while it was waited for, and got it as it arrived; or the connection was
      lost while it was waited for; or its own write failed; or its own time ran out. */
  lemma OutcomesTellWhatHappened(states: seq<Sys>, acts: seq<Act>, n: nat, c: nat)
    requires IsRun(states, acts) && n <= |acts| && c < |states[n].calls| && states[n].calls[c].phase.Finished?
    ensures match states[n].calls[c].phase.outcome
            case Got(r) => r.id == states[n].calls[c].id && exists j :: AnsweredAt(states, acts, j, n, r)
            case ConnectionClosed => exists j :: CutOffAt(states, acts, j, n, c)
            case WriteFailed => exists j :: 0 <= j < n && acts[j] == WriteFail(c)
            case TimedOut => exists j :: 0 <= j < n && acts[j] == CleanUp(c)
  {
    RunKeeps(states, acts, n);
    CallsAreExplained(states, acts, n);
    assert CallExplained(states, acts, n, c) && CallInv(states[n], c);
  }

  /** Once an id has left the table it never comes back. */
  lemma {:induction false} GoneStaysGone(states: seq<Sys>, acts: seq<Act>, i: nat, n: nat, id: nat)
    requires IsRun(states, acts) && i <= n <= |acts| && id < states[i].w.nextID && id !in states[i].w.pending
    ensures id < states[n].w.nextID && id !in states[n].w.pending
  {
    if i < n {
      GoneStaysGone(states, acts, i, n - 1, id);
      assert states[n - 1 + 1] == Step(states[n - 1], acts[n - 1]);
    }
  }

  /** Of all replies with one id only the first that finds it in the table is taken. */
  lemma OneAnswerCounts(states: seq<Sys>, acts: seq<Act>, i: nat, j: nat, n: nat, a: Reply, b: Reply)
    requires IsRun(states, acts) && n <= |acts| && a.id == b.id && i < j
    requires AnsweredAt(states, acts, i, n, a)
    ensures !AnsweredAt(states, acts, j, n, b)
  {
    if j < n {
      RunKeeps(states, acts, i);
      assert states[i + 1] == Step(states[i], acts[i]);
      GoneStaysGone(states, acts, i + 1, j, a.id);
    }
  }
}
