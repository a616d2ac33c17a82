/** The values the conversation pipeline stores, and the window of recent ones
    that the live buffer keeps, as plain functions on sequences.

    A log is the pair (counter, live entries).  `EventBuffer` (EventBuffer.dfy)
    implements it with a circular array. */
module EventLog {

  /** What an event carries, apart from the "seq" key that the buffer and the
      callbacks write into the shared map after the event was saved.  `msgId` is
      "" when the key is absent; `extra` has the keys that only live events show. */
  datatype Data = Data(role: string, text: string, raw: bool, kind: string,
                       payload: Payload, msgId: string, extra: Extra)

  /** The structured form of an interactive tool call. */
  datatype Payload = NoPayload | Question(callID: string, input: string)

  datatype Extra = Extra(toolName: string, session: string, status: string)

  const NO_EXTRA := Extra("", "", "")

  const NO_DATA := Data("", "", false, "", NoPayload, "", NO_EXTRA)

  datatype Event = Event(seqNo: nat, data: Data)

  datatype Log = Log(counter: nat, entries: seq<Event>)

  /** The last `n` elements of `s`, or all of them when there are fewer. */
  function Suffix<T>(s: seq<T>, n: nat): (r: seq<T>)
    ensures |r| == if |s| < n then |s| else n
  {
    if |s| < n then s else s[|s| - n..]
  }

  /** The newest position holding `id`, or -1. */
  function Newest(es: seq<Event>, id: string): (i: int)
    ensures -1 <= i < |es|
    ensures 0 <= i ==> es[i].data.msgId == id
    ensures forall j :: i < j < |es| ==> es[j].data.msgId != id
  {
    if es == [] then -1
    else if es[|es| - 1].data.msgId == id then |es| - 1
    else Newest(es[..|es| - 1], id)
  }

  function Push(l: Log, cap: nat, d: Data): Log {
    Log(l.counter + 1, Suffix(l.entries + [Event(l.counter + 1, d)], cap))
  }

  /** UpdateOrAppend: rewrite the newest live entry with this id, keeping its
      place and number, or push a new entry. */
  function Put(l: Log, cap: nat, id: string, d: Data): Log {
    var i := Newest(l.entries, id);
    if id != "" && i >= 0 then l.(entries := l.entries[i := Event(l.entries[i].seqNo, d)])
    else Push(l, cap, d)
  }

  /** The number of the entry that `Put` wrote. */
  function PutSeq(l: Log, id: string): nat {
    var i := Newest(l.entries, id);
    if id != "" && i >= 0 then l.entries[i].seqNo else l.counter + 1
  }

  predicate PutUpdates(l: Log, id: string) {
    id != "" && Newest(l.entries, id) >= 0
  }

  /** Slot i holds number counter - count + 1 + i. */
  ghost predicate Dense(l: Log) {
    |l.entries| <= l.counter &&
    forall i :: 0 <= i < |l.entries| ==> l.entries[i].seqNo == l.counter - |l.entries| + 1 + i
  }

  function After(es: seq<Event>, k: nat): seq<Event> {
    if es == [] then []
    else After(es[..|es| - 1], k) + (if es[|es| - 1].seqNo > k then [es[|es| - 1]] else [])
  }

  /** How many of the numbers handed out are no longer live. */
  function Gone(l: Log): int {
    l.counter - |l.entries|
  }

  lemma PushMayEvict(l: Log, cap: nat, d: Data)
    ensures var r := Push(l, cap, d);
            Gone(l) <= Gone(r) && (Gone(l) == Gone(r) <==> |l.entries| < cap)
  {
  }

  lemma PutMayEvict(l: Log, cap: nat, id: string, d: Data)
    ensures var r := Put(l, cap, id, d);
            Gone(l) <= Gone(r) && (Gone(l) == Gone(r) <==> PutUpdates(l, id) || |l.entries| < cap)
  {
  }

  /* ---------- the unbounded log the buffer is a window of ---------- */

  datatype Op = OpAppend(d: Data) | OpPut(id: string, d: Data) | OpReset | OpInitSeq(n: nat)

  function Apply(l: Log, cap: nat, op: Op): Log {
    match op
    case OpAppend(d) => Push(l, cap, d)
    case OpPut(id, d) => Put(l, cap, id, d)
    case OpReset => Log(0, [])
    case OpInitSeq(n) => l.(counter := n)
  }

  /** The same operation on a log that never evicts.  An update still reaches
      only the entries among the last `cap`: that is exactly the information the
      window loses. */
  function ApplyFull(f: Log, cap: nat, op: Op): Log {
    match op
    case OpAppend(d) => Log(f.counter + 1, f.entries + [Event(f.counter + 1, d)])
    case OpPut(id, d) =>
      var i := Newest(f.entries, id);
      if id != "" && i >= 0 && |f.entries| - cap <= i
      then f.(entries := f.entries[i := Event(f.entries[i].seqNo, d)])
      else Log(f.counter + 1, f.entries + [Event(f.counter + 1, d)])
    case OpReset => Log(0, [])
    case OpInitSeq(n) => f.(counter := n)
  }

  function Run(cap: nat, ops: seq<Op>): Log {
    if ops == [] then Log(0, []) else Apply(Run(cap, ops[..|ops| - 1]), cap, ops[|ops| - 1])
  }

  function RunFull(cap: nat, ops: seq<Op>): Log {
    if ops == [] then Log(0, []) else ApplyFull(RunFull(cap, ops[..|ops| - 1]), cap, ops[|ops| - 1])
  }

  /** The counter is only set while nothing is live. */
  ghost predicate InitsWhenEmpty(cap: nat, ops: seq<Op>) {
    forall i :: 0 <= i < |ops| && ops[i].OpInitSeq? ==> Run(cap, ops[..i]).entries == []
  }

  lemma {:induction false} NewestOfSuffix(es: seq<Event>, n: nat, id: string)
    ensures Newest(Suffix(es, n), id) ==
            if Newest(es, id) >= |es| - |Suffix(es, n)| then Newest(es, id) - (|es| - |Suffix(es, n)|) else -1
    decreases |es|
  {
    if es != [] && n > 0 {
      var m := |es| - 1;
      var s := Suffix(es, n);
      assert s[|s| - 1] == es[m];
      assert s[..|s| - 1] == Suffix(es[..m], n - 1);
      NewestOfSuffix(es[..m], n - 1, id);
    }
  }

  lemma {:induction false} SuffixStep<T>(s: seq<T>, n: nat, x: T)
    requires n > 0
    ensures Suffix(Suffix(s, n) + [x], n) == Suffix(s + [x], n)
  {
  }

  lemma {:induction false} SuffixUpdate<T>(s: seq<T>, n: nat, i: nat, x: T)
    requires |s| - |Suffix(s, n)| <= i < |s|
    ensures Suffix(s[i := x], n) == Suffix(s, n)[i - (|s| - |Suffix(s, n)|) := x]
    ensures Suffix(s, n)[i - (|s| - |Suffix(s, n)|)] == s[i]
  {
    if |s| >= n {
      var k := |s| - n;
      assert s[i := x][k..] == s[k..][i - k := x];
    }
  }

  lemma {:induction false} PutIsWindow(l: Log, f: Log, cap: nat, id: string, d: Data)
    requires cap > 0 && l == Log(f.counter, Suffix(f.entries, cap))
    ensures var g := ApplyFull(f, cap, OpPut(id, d)); Put(l, cap, id, d) == Log(g.counter, Suffix(g.entries, cap))
  {
    hide Newest, Dense, Suffix;
    NewestOfSuffix(f.entries, cap, id);
    var i := Newest(f.entries, id);
    if id != "" && i >= 0 && |f.entries| - cap <= i {
      SuffixUpdate(f.entries, cap, i, Event(f.entries[i].seqNo, d));
    } else {
      SuffixStep(f.entries, cap, Event(f.counter + 1, d));
    }
  }

  lemma {:induction false} ApplyIsWindow(l: Log, f: Log, cap: nat, op: Op)
    requires cap > 0 && l == Log(f.counter, Suffix(f.entries, cap))
    ensures Apply(l, cap, op) == Log(ApplyFull(f, cap, op).counter, Suffix(ApplyFull(f, cap, op).entries, cap))
  {
    match op {
      case OpAppend(d) => SuffixStep(f.entries, cap, Event(f.counter + 1, d));
      case OpPut(id, d) => PutIsWindow(l, f, cap, id, d);
      case OpReset =>
      case OpInitSeq(n) =>
    }
  }

  lemma {:induction false} DenseStep(f: Log, cap: nat, op: Op)
    requires Dense(f) && (op.OpInitSeq? ==> f.entries == [])
    ensures Dense(ApplyFull(f, cap, op))
  {
  }

  lemma {:induction false} InitsOfPrefix(cap: nat, ops: seq<Op>)
    requires InitsWhenEmpty(cap, ops) && ops != []
    ensures InitsWhenEmpty(cap, ops[..|ops| - 1])
    ensures ops[|ops| - 1].OpInitSeq? ==> Run(cap, ops[..|ops| - 1]).entries == []
  {
    var pre := ops[..|ops| - 1];
    forall i | 0 <= i < |pre| && pre[i].OpInitSeq?
      ensures Run(cap, pre[..i]).entries == []
    {
      assert pre[i] == ops[i] && pre[..i] == ops[..i];
    }
  }

  /** The buffer is a window of an unbounded log, after any run of operations:
      it holds exactly the last min(cap, n) entries, slot i holds number
      counter - count + 1 + i, and nothing is numbered past the counter. */
  lemma {:induction false} BufferIsWindowOfLog(cap: nat, ops: seq<Op>)
    requires cap > 0 && InitsWhenEmpty(cap, ops)
    ensures Run(cap, ops) == Log(RunFull(cap, ops).counter, Suffix(RunFull(cap, ops).entries, cap))
    ensures Dense(Run(cap, ops)) && Dense(RunFull(cap, ops))
  {
    if ops != [] {
      var pre, op := ops[..|ops| - 1], ops[|ops| - 1];
      InitsOfPrefix(cap, ops);
      BufferIsWindowOfLog(cap, pre);
      var f := RunFull(cap, pre);
      ApplyIsWindow(Run(cap, pre), f, cap, op);
      DenseStep(f, cap, op);
      SuffixOfDense(ApplyFull(f, cap, op), cap);
    }
  }

  lemma {:induction false} SuffixOfDense(f: Log, cap: nat)
    requires Dense(f)
    ensures Dense(Log(f.counter, Suffix(f.entries, cap)))
  {
  }

  /** Setting the counter keeps the numbering exactly when nothing is live or the
      counter does not move. */
  lemma InitSeqKeepsNumbering(l: Log, n: nat)
    requires Dense(l)
    ensures Dense(l.(counter := n)) <==> l.entries == [] || n == l.counter
  {
    if Dense(l.(counter := n)) && l.entries != [] {
      assert l.entries[0].seqNo == l.counter - |l.entries| + 1;
      assert l.(counter := n).entries[0].seqNo == n - |l.entries| + 1;
    }
  }

  lemma {:induction false} AfterMembers(es: seq<Event>, k: nat)
    ensures forall e :: e in After(es, k) <==> e in es && e.seqNo > k
  {
    if es != [] {
      var n := |es| - 1;
      AfterMembers(es[..n], k);
      assert es == es[..n] + [es[n]];
    }
  }

  /** How many entries of a densely numbered log are numbered at most k. */
  function Cut(l: Log, k: nat): (m: nat)
    requires |l.entries| <= l.counter
    ensures m <= |l.entries|
  {
    if k >= l.counter then |l.entries|
    else if k <= l.counter - |l.entries| then 0
    else k - (l.counter - |l.entries|)
  }

  lemma {:induction false} AfterOfDense(l: Log, k: nat)
    requires Dense(l)
    ensures After(l.entries, k) == l.entries[Cut(l, k)..]
    decreases |l.entries|
  {
    if l.entries != [] {
      var n := |l.entries| - 1;
      var p := Log(l.counter - 1, l.entries[..n]);
      AfterOfDense(p, k);
      var tail := if l.entries[n].seqNo > k then [l.entries[n]] else [];
      assert After(l.entries, k) == After(p.entries, k) + tail;
      assert l.entries[n].seqNo == l.counter;
      hide Dense, After;
      assert l.entries[Cut(l, k)..] == p.entries[Cut(p, k)..] + tail;
    }
  }

  /** A forward read from k returns everything ever logged after k exactly when k
      is not older than the oldest live entry, or nothing was evicted. */
  lemma {:induction false} SinceIsCompleteExactlyWhen(f: Log, cap: nat, k: nat)
    requires cap > 0 && Dense(f)
    ensures After(Suffix(f.entries, cap), k) == After(f.entries, k) <==>
            k >= f.counter - |Suffix(f.entries, cap)| || |f.entries| <= cap
  {
    var w := Log(f.counter, Suffix(f.entries, cap));
    AfterOfDense(f, k);
    AfterOfDense(w, k);
    var off := |f.entries| - |w.entries|;
    if k >= f.counter - |w.entries| || off == 0 {
      assert Cut(f, k) == off + Cut(w, k);
      assert f.entries[Cut(f, k)..] == w.entries[Cut(w, k)..];
    } else {
      assert Cut(f, k) < off && Cut(w, k) == 0;
      assert |f.entries[Cut(f, k)..]| > |w.entries[Cut(w, k)..]|;
    }
  }

  /** An update touches one entry: the newest with that id, whose number it
      keeps; every other entry and the counter stay. */
  lemma PutTouchesOnlyNewest(l: Log, cap: nat, id: string, d: Data)
    requires PutUpdates(l, id) && Dense(l)
    ensures var r := Put(l, cap, id, d);
            r.counter == l.counter && |r.entries| == |l.entries| && Dense(r) &&
            exists i :: 0 <= i < |l.entries| && l.entries[i].data.msgId == id &&
                        (forall j :: i < j < |l.entries| ==> l.entries[j].data.msgId != id) &&
                        r.entries[i] == Event(l.entries[i].seqNo, d) && PutSeq(l, id) == l.entries[i].seqNo &&
                        forall j :: 0 <= j < |l.entries| && j != i ==> r.entries[j] == l.entries[j]
  {
    var i := Newest(l.entries, id);
    assert Put(l, cap, id, d).entries[i] == Event(l.entries[i].seqNo, d);
  }
}
