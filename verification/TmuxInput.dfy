/** Typing into a tmux pane: text is cut into named keys and literal chunks.  A
    string stands for the bytes of the text. */
module TmuxInput {

  datatype Sent = Key(name: string) | Literal(text: string)

  const ESC: char := '\U{1b}'
  const DEL: char := '\U{7f}'
  const MAX_CHUNK := 1024

  predicate Control(c: char) {
    c < ' ' || c == DEL
  }

  /** A control byte that no branch consumes. */
  predicate Unhandled(c: char) {
    c < ' ' && c != '\r' && c != '\n' && c != '\t' && c != ESC
  }

  /** The text starts with the escape sequence of an arrow key. */
  predicate Arrow(text: string, final: char) {
    |text| >= 3 && text[0] == ESC && text[1] == '[' && text[2] == final
  }

  /** The named key at the start of the text, and how many bytes it takes. */
  function KeyAt(text: string): (string, nat)
    requires text != ""
  {
    if Arrow(text, 'A') then ("Up", 3)
    else if Arrow(text, 'B') then ("Down", 3)
    else if Arrow(text, 'C') then ("Right", 3)
    else if Arrow(text, 'D') then ("Left", 3)
    else if text[0] == '\r' then ("Enter", 1)
    else if text[0] == '\n' then ("Enter", 1)
    else if text[0] == '\t' then ("Tab", 1)
    else if text[0] == DEL then ("BSpace", 1)
    else if text[0] == ESC then ("Escape", 1)
    else ("", 0)
  }

  /** How far the text runs before the next control byte. */
  function PlainRun(text: string): (n: nat)
    ensures n <= |text|
    ensures forall i :: 0 <= i < n ==> !Control(text[i])
    ensures n < |text| ==> Control(text[n])
  {
    if text == "" || Control(text[0]) then 0 else 1 + PlainRun(text[1..])
  }

  function Chunks(text: string): seq<Sent> {
    if text == "" then []
    else if |text| <= MAX_CHUNK then [Literal(text)]
    else [Literal(text[..MAX_CHUNK])] + Chunks(text[MAX_CHUNK..])
  }

  /** The calls for a text, and whether the loop then comes to a byte that it
      neither sends nor drops, so that it goes round forever. */
  datatype Plan = Plan(sent: seq<Sent>, stuck: bool)

  function PlanOf(text: string): Plan
    decreases |text|
  {
    if text == "" then Plan([], false)
    else
      var n := Width(text);
      if n == 0 then Plan([], true)
      else
        var p := PlanOf(text[n..]);
        Plan(CallsFor(text) + p.sent, p.stuck)
  }

  /** How many bytes one iteration takes. */
  function Width(text: string): (n: nat)
    requires text != ""
    ensures n <= |text|
  {
    if KeyAt(text).1 > 0 then KeyAt(text).1 else PlainRun(text)
  }

  function CallsFor(text: string): seq<Sent>
    requires text != ""
  {
    if KeyAt(text).1 > 0 then [Key(KeyAt(text).0)] else Chunks(text[..PlainRun(text)])
  }

  datatype Outcome = Done | Failed | Stuck

  class TmuxPane {
    var calls: seq<Sent>        // send-keys calls that succeeded
    const broken: nat -> bool   // whether the call after n successful ones fails

    constructor (broken: nat -> bool)
      ensures calls == [] && this.broken == broken
    {
      calls := [];
      this.broken := broken;
    }

    method SendKeys(s: Sent) returns (ok: bool)
      modifies this
      ensures ok == !broken(|old(calls)|)
      ensures calls == if ok then old(calls) + [s] else old(calls)
    {
      ok := !broken(|calls|);
      if ok {
        calls := calls + [s];
      }
    }

    /** After a failure the calls made are a proper part of those planned. */
    ghost predicate StoppedIn(before: seq<Sent>, planned: seq<Sent>)
      reads this
    {
      |before| <= |calls| < |before + planned| && calls == (before + planned)[..|calls|] && broken(|calls|)
    }

    method SendTmuxLiteral(text: string) returns (ok: bool)
      modifies this
      ensures ok ==> calls == old(calls) + Chunks(text)
      ensures !ok ==> StoppedIn(old(calls), Chunks(text))
    {
      var rest := text;
      ghost var done: seq<Sent> := [];
      while |rest| > 0
        invariant calls == old(calls) + done
        invariant Chunks(text) == done + Chunks(rest)
      {
        var end := |rest|;
        if end > MAX_CHUNK {
          end := MAX_CHUNK;
        }
        var chunk := rest[..end];
        assert |rest| <= MAX_CHUNK ==> chunk == rest && rest[end..] == "";
        assert Chunks(rest) == [Literal(chunk)] + Chunks(rest[end..]);
        ok := SendKeys(Literal(chunk));
        if !ok {
          StoppedEarly(old(calls), done, [Literal(chunk)], Chunks(rest[end..]), calls);
          return;
        }
        Associative(done, [Literal(chunk)], Chunks(rest[end..]));
        done := done + [Literal(chunk)];
        rest := rest[end..];
      }
      ok := true;
    }

    /** One iteration: a named key, or the plain text up to the next control byte. */
    method SendNext(remaining: string) returns (n: nat, ok: bool)
      requires remaining != ""
      modifies this
      ensures n == Width(remaining)
      ensures ok ==> calls == old(calls) + if n == 0 then [] else CallsFor(remaining)
      ensures !ok ==> n > 0 && StoppedIn(old(calls), CallsFor(remaining))
    {
      var (name, key) := KeyAt(remaining);
      n := key;
      if n > 0 {
        ok := SendKeys(Key(name));
        assert !ok ==> calls == (old(calls) + CallsFor(remaining))[..|calls|];
      } else {
        n := FindControl(remaining);
        ok := true;
        if n > 0 {
          ok := SendTmuxLiteral(remaining[..n]);
        }
      }
    }

    /** The whole loop.  `Stuck` stands for the iteration that leaves the rest of
        the text as it is: the source repeats it forever. */
    method SendTmuxInput(text: string) returns (outcome: Outcome)
      modifies this
      ensures outcome == Done ==> !PlanOf(text).stuck && calls == old(calls) + PlanOf(text).sent
      ensures outcome == Stuck ==> PlanOf(text).stuck && calls == old(calls) + PlanOf(text).sent
      ensures outcome == Failed ==> StoppedIn(old(calls), PlanOf(text).sent)
    {
      hide PlanOf, Width, CallsFor;
      NothingPlanned();
      var remaining := text;
      ghost var done: seq<Sent> := [];
      while |remaining| > 0
        invariant calls == old(calls) + done
        invariant StillPlanned(text, done, remaining)
        decreases |remaining|
      {
        var n, ok := SendNext(remaining);
        PlanAfter(text, done, remaining);
        if n == 0 {
          return Stuck;
        }
        ghost var now := CallsFor(remaining);
        if !ok {
          StoppedEarly(old(calls), done, now, PlanOf(remaining[n..]).sent, calls);
          return Failed;
        }
        done := done + now;
        remaining := remaining[n..];
      }
      outcome := Done;
    }

    static ghost predicate StillPlanned(text: string, done: seq<Sent>, remaining: string) {
      PlanOf(text) == Plan(done + PlanOf(remaining).sent, PlanOf(remaining).stuck)
    }

    static lemma NothingPlanned()
      ensures PlanOf("") == Plan([], false)
    {
    }

    static lemma PlanAfter(text: string, done: seq<Sent>, remaining: string)
      requires remaining != "" && StillPlanned(text, done, remaining)
      ensures Width(remaining) == 0 ==> PlanOf(text) == Plan(done, true)
      ensures var n := Width(remaining);
              n > 0 ==> StillPlanned(text, done + CallsFor(remaining), remaining[n..])
                        && PlanOf(text).sent == done + (CallsFor(remaining) + PlanOf(remaining[n..]).sent)
    {
      var n := Width(remaining);
      if n > 0 {
        Associative(done, CallsFor(remaining), PlanOf(remaining[n..]).sent);
      }
    }

    static lemma Associative(a: seq<Sent>, b: seq<Sent>, c: seq<Sent>)
      ensures a + (b + c) == (a + b) + c
    {
    }

    static lemma StoppedEarly(before: seq<Sent>, done: seq<Sent>, now: seq<Sent>, rest: seq<Sent>, made: seq<Sent>)
      requires |before + done| <= |made| < |(before + done) + now| && made == ((before + done) + now)[..|made|]
      ensures |before| <= |made| < |before + (done + (now + rest))|
              && made == (before + (done + (now + rest)))[..|made|]
    {
      assert before + (done + (now + rest)) == ((before + done) + now) + rest;
    }

    static method FindControl(text: string) returns (next: nat)
      ensures next == PlainRun(text)
    {
      next := |text|;
      for i := 0 to |text|
        invariant next == |text| && forall k :: 0 <= k < i ==> !Control(text[k])
      {
        if Control(text[i]) {
          next := i;
          break;
        }
      }
      RunIs(text, next);
    }
  }

  lemma RunIs(text: string, n: nat)
    requires n <= |text| && (forall i :: 0 <= i < n ==> !Control(text[i])) && (n < |text| ==> Control(text[n]))
    ensures PlainRun(text) == n
  {
    var k := PlainRun(text);
    assert !(k < n) && !(n < k);
  }

  /* ---------- what is typed ---------- */

  /** The bytes a terminal program reads for a call. */
  function Typed(s: Sent): string {
    match s
    case Literal(t) => t
    case Key(name) =>
      if name == "Up" then "\U{1b}[A"
      else if name == "Down" then "\U{1b}[B"
      else if name == "Right" then "\U{1b}[C"
      else if name == "Left" then "\U{1b}[D"
      else if name == "Enter" then "\r"
      else if name == "Tab" then "\t"
      else if name == "BSpace" then [DEL]
      else if name == "Escape" then [ESC]
      else ""
  }

  function Replay(sent: seq<Sent>): string {
    if sent == [] then "" else Typed(sent[0]) + Replay(sent[1..])
  }

  function EnterForNewline(text: string): (r: string)
    ensures |r| == |text|
  {
    seq(|text|, i requires 0 <= i < |text| => if text[i] == '\n' then '\r' else text[i])
  }

  /** The text up to the first byte that no branch consumes. */
  function Handled(text: string): (n: nat)
    ensures n <= |text|
    ensures forall i :: 0 <= i < n ==> !Unhandled(text[i])
    ensures n < |text| ==> Unhandled(text[n])
  {
    if text == "" || Unhandled(text[0]) then 0 else 1 + Handled(text[1..])
  }

  lemma HandledIs(text: string, n: nat)
    requires n <= |text| && (forall i :: 0 <= i < n ==> !Unhandled(text[i])) && (n < |text| ==> Unhandled(text[n]))
    ensures Handled(text) == n
  {
    var k := Handled(text);
    assert !(k < n) && !(n < k);
  }

  lemma {:induction false} ReplayOfConcat(a: seq<Sent>, b: seq<Sent>)
    ensures Replay(a + b) == Replay(a) + Replay(b)
  {
    if a == [] {
      assert a + b == b;
    } else {
      assert (a + b)[1..] == a[1..] + b;
      ReplayOfConcat(a[1..], b);
    }
  }

  lemma {:induction false} ReplayOfChunks(text: string)
    ensures Replay(Chunks(text)) == text
    decreases |text|
  {
    if |text| > MAX_CHUNK {
      assert text == text[..MAX_CHUNK] + text[MAX_CHUNK..];
      ReplayOfChunks(text[MAX_CHUNK..]);
      assert Chunks(text)[1..] == Chunks(text[MAX_CHUNK..]);
    }
  }

  lemma NewlinesOfConcat(a: string, b: string)
    ensures EnterForNewline(a + b) == EnterForNewline(a) + EnterForNewline(b)
  {
  }

  /** One key types the bytes it was read from, a newline as a carriage return. */
  lemma KeyTypesItsBytes(text: string)
    requires text != "" && KeyAt(text).1 > 0
    ensures var (name, n) := KeyAt(text);
            && n <= |text| && Typed(Key(name)) == EnterForNewline(text[..n])
            && forall i :: 0 <= i < n ==> !Unhandled(text[i])
  {
    var (name, n) := KeyAt(text);
    if n == 3 {
      assert text[..3] == [text[0], text[1], text[2]];
    } else {
      assert text[..1] == [text[0]];
    }
  }

  lemma IterationTypesItsBytes(text: string)
    requires text != "" && Width(text) > 0
    ensures Replay(CallsFor(text)) == EnterForNewline(text[..Width(text)])
    ensures forall i :: 0 <= i < Width(text) ==> !Unhandled(text[i])
  {
    if KeyAt(text).1 > 0 {
      KeyTypesItsBytes(text);
      var k := Key(KeyAt(text).0);
      assert [k][1..] == [] && Replay([k]) == Typed(k) + Replay([]);
    } else {
      var run := text[..PlainRun(text)];
      ReplayOfChunks(run);
      assert EnterForNewline(run) == run;
    }
  }

  lemma {:induction false} HandledAfter(text: string, n: nat)
    requires n <= |text| && forall i :: 0 <= i < n ==> !Unhandled(text[i])
    ensures Handled(text) == n + Handled(text[n..])
    decreases n
  {
    if n == 0 {
      assert text[0..] == text;
    } else {
      var rest := text[1..];
      assert rest[n - 1..] == text[n..];
      forall i | 0 <= i < n - 1 ensures !Unhandled(rest[i]) {
        assert rest[i] == text[i + 1];
      }
      HandledAfter(rest, n - 1);
    }
  }

  lemma PrefixInTwo(text: string, n: nat, k: nat)
    requires n + k <= |text|
    ensures text[..n + k] == text[..n] + text[n..][..k]
  {
  }

  /** The round trip, for every text: replaying the calls gives back the text up to
      the first byte no branch consumes, with newlines read as carriage returns;
      and the loop gets stuck exactly when there is such a byte. */
  lemma {:induction false} RoundTrip(text: string)
    ensures PlanOf(text).stuck <==> Handled(text) < |text|
    ensures Replay(PlanOf(text).sent) == EnterForNewline(text[..Handled(text)])
    decreases |text|
  {
    if text != "" {
      var n := Width(text);
      if n == 0 {
        HandledIs(text, 0);
      } else {
        var rest := text[n..];
        RoundTrip(rest);
        IterationTypesItsBytes(text);
        HandledAfter(text, n);
        PrefixInTwo(text, n, Handled(rest));
        NewlinesOfConcat(text[..n], rest[..Handled(rest)]);
        ReplayOfConcat(CallsFor(text), PlanOf(rest).sent);
      }
    }
  }

  /** The bytes that the app's keys Ctrl-A, Ctrl-C, Ctrl-D, Ctrl-E and Ctrl-Z stand for. */
  predicate CtrlKey(c: char) {
    c in ['\U{1}', '\U{3}', '\U{4}', '\U{5}', '\U{1a}']
  }

  /** Pressing one of these keys sends nothing and leaves the loop stuck; typed after
      other text, that text goes out first. */
  lemma CtrlKeysGetStuck(text: string, c: char, after: string)
    requires CtrlKey(c) && forall i :: 0 <= i < |text| ==> !Unhandled(text[i])
    ensures PlanOf([c]) == Plan([], true)
    ensures PlanOf(text + [c] + after).stuck
    ensures Replay(PlanOf(text + [c] + after).sent) == EnterForNewline(text)
  {
    var all := text + [c] + after;
    assert Unhandled(c) && KeyAt([c]) == ("", 0) && PlainRun([c]) == 0;
    HandledAfter(all, |text|);
    assert all[|text|..] == [c] + after;
    HandledIs([c] + after, 0);
    RoundTrip(all);
    assert all[..|text|] == text;
  }

  ghost predicate CleanLiteral(s: Sent) {
    s.Literal? ==> 0 < |s.text| <= MAX_CHUNK && forall i :: 0 <= i < |s.text| ==> !Control(s.text[i])
  }

  lemma {:induction false} ChunksAreClean(text: string)
    requires forall i :: 0 <= i < |text| ==> !Control(text[i])
    ensures forall k :: 0 <= k < |Chunks(text)| ==> CleanLiteral(Chunks(text)[k])
    decreases |text|
  {
    if |text| > MAX_CHUNK {
      ChunksAreClean(text[MAX_CHUNK..]);
    }
  }

  /** Every literal is free of control bytes and fits one call. */
  lemma {:induction false} LiteralsAreClean(text: string)
    ensures forall k :: 0 <= k < |PlanOf(text).sent| ==> CleanLiteral(PlanOf(text).sent[k])
    decreases |text|
  {
    if text != "" && Width(text) > 0 {
      LiteralsAreClean(text[Width(text)..]);
      if KeyAt(text).1 == 0 {
        ChunksAreClean(text[..PlainRun(text)]);
      }
    }
  }

  /* ---------- key by key ---------- */

  /** The arrow keys, by their bytes. */
  lemma ArrowsAreNamed(rest: string)
    ensures PlanOf("\U{1b}[A" + rest).sent == [Key("Up")] + PlanOf(rest).sent
    ensures PlanOf("\U{1b}[B" + rest).sent == [Key("Down")] + PlanOf(rest).sent
    ensures PlanOf("\U{1b}[C" + rest).sent == [Key("Right")] + PlanOf(rest).sent
    ensures PlanOf("\U{1b}[D" + rest).sent == [Key("Left")] + PlanOf(rest).sent
  {
    hide PlanOf;
    OneKey("\U{1b}[A", rest, "Up");
    OneKey("\U{1b}[B", rest, "Down");
    OneKey("\U{1b}[C", rest, "Right");
    OneKey("\U{1b}[D", rest, "Left");
  }

  /** The keys of one control byte. */
  lemma ControlKeysAreNamed(rest: string)
    ensures PlanOf("\r" + rest).sent == [Key("Enter")] + PlanOf(rest).sent
    ensures PlanOf("\n" + rest).sent == [Key("Enter")] + PlanOf(rest).sent
    ensures PlanOf("\t" + rest).sent == [Key("Tab")] + PlanOf(rest).sent
    ensures PlanOf("\U{7f}" + rest).sent == [Key("BSpace")] + PlanOf(rest).sent
  {
    hide PlanOf;
    OneKey("\r", rest, "Enter");
    OneKey("\n", rest, "Enter");
    OneKey("\t", rest, "Tab");
    OneKey("\U{7f}", rest, "BSpace");
  }

  lemma OneKey(bytes: string, rest: string, name: string)
    requires bytes != "" && KeyAt(bytes + rest) == (name, |bytes|)
    ensures PlanOf(bytes + rest).sent == [Key(name)] + PlanOf(rest).sent
  {
    assert (bytes + rest)[|bytes|..] == rest;
  }

  /** An escape that begins no arrow key is the Escape key. */
  lemma EscapeIsNamed(rest: string)
    requires |rest| < 2 || rest[0] != '[' || rest[1] < 'A' || 'D' < rest[1]
    ensures PlanOf("\U{1b}" + rest).sent == [Key("Escape")] + PlanOf(rest).sent
  {
    var text := "\U{1b}" + rest;
    EscapeKey(text);
    hide KeyAt, PlanOf;
    OneKey("\U{1b}", rest, "Escape");
  }

  lemma EscapeKey(text: string)
    requires text != "" && text[0] == ESC && (|text| < 3 || text[1] != '[' || text[2] < 'A' || 'D' < text[2])
    ensures KeyAt(text) == ("Escape", 1)
  {
  }

  /** The k-th piece of 1024 bytes. */
  function Piece(text: string, k: nat): string
    requires 1024 * k <= |text|
  {
    if |text| < 1024 * (k + 1) then text[1024 * k..] else text[1024 * k..1024 * (k + 1)]
  }

  ghost predicate InPieces(text: string, sent: seq<Sent>) {
    && |sent| == (|text| + 1023) / 1024
    && forall k :: 0 <= k < |sent| ==> sent[k] == Literal(Piece(text, k))
  }

  /** Plain text goes out as it is, in as few calls as 1024 bytes a call allow. */
  lemma {:induction false} PlainTextIsChunked(text: string)
    requires forall i :: 0 <= i < |text| ==> text[i] >= ' ' && text[i] != DEL
    ensures InPieces(text, PlanOf(text).sent)
  {
    PlainRunIsAll(text);
    ChunksAreFull(text);
    hide InPieces;
    if text != "" {
      assert text[|text|..] == "" && text[..|text|] == text;
      assert PlanOf(text).sent == Chunks(text) + PlanOf("").sent == Chunks(text);
    } else {
      assert PlanOf(text).sent == Chunks(text);
    }
  }

  lemma PlainRunIsAll(text: string)
    requires forall i :: 0 <= i < |text| ==> text[i] >= ' ' && text[i] != DEL
    ensures PlainRun(text) == |text| && (text != "" ==> KeyAt(text) == ("", 0))
  {
  }

  lemma PieceOfRest(text: string, k: nat)
    requires k > 0 && 1024 * k <= |text|
    ensures Piece(text, k) == Piece(text[1024..], k - 1)
  {
    var rest := text[1024..];
    if |text| < 1024 * (k + 1) {
      assert rest[1024 * (k - 1)..] == text[1024 * k..];
    } else {
      assert rest[1024 * (k - 1)..1024 * k] == text[1024 * k..1024 * (k + 1)];
    }
  }

  lemma {:induction false} ChunksAreFull(text: string)
    ensures InPieces(text, Chunks(text))
    decreases |text|
  {
    if |text| > 1024 {
      var rest := text[1024..];
      ChunksAreFull(rest);
      var sent := [Literal(text[..1024])] + Chunks(rest);
      assert Chunks(text) == sent;
      forall k | 0 <= k < |sent| ensures sent[k] == Literal(Piece(text, k)) {
        if k > 0 {
          PieceOfRest(text, k);
        }
      }
    } else if text != "" {
      assert text[0..] == text && Piece(text, 0) == text;
    }
  }
}
