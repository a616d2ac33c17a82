/** The persisted conversation table of one agent, the live buffer in front of
    it, and the history pages a client reads. */
module ConversationLog {
  import opened EventLog
  import opened EventBuf
  import opened CreatedAt

  /** One row: the event as saved, the session it was saved under, and the time of the
      last write, by whose text rows are sorted. */
  datatype Row = Row(session: string, data: Data, at: Time) {
    function Stamp(): nat {
      TextRank(at)
    }
  }

  type Table = map<nat, Row>

  /** What a row read back shows: the id and the live-only keys are gone. */
  function Faded(d: Data): Data {
    d.(msgId := "", extra := NO_EXTRA)
  }

  function FadedEvent(e: Event): Event {
    Event(e.seqNo, Faded(e.data))
  }

  function FadedAll(es: seq<Event>): (r: seq<Event>)
    ensures |r| == |es| && forall i :: 0 <= i < |r| ==> r[i] == FadedEvent(es[i])
  {
    seq(|es|, i requires 0 <= i < |es| => FadedEvent(es[i]))
  }

  /** The persisted rows numbered below `hi`, oldest first. */
  function Rows(t: Table, hi: nat): seq<Event> {
    if hi == 0 then []
    else Rows(t, hi - 1) + (if hi - 1 in t then [Event(hi - 1, Faded(t[hi - 1].data))] else [])
  }

  /** The same rows newest first, as the query delivers them. */
  function RowsDescending(t: Table, hi: nat): seq<Event> {
    if hi == 0 then []
    else (if hi - 1 in t then [Event(hi - 1, Faded(t[hi - 1].data))] else []) + RowsDescending(t, hi - 1)
  }

  function Take<T>(s: seq<T>, n: nat): seq<T> {
    if |s| < n then s else s[..n]
  }

  function PageBefore(t: Table, before: nat, limit: nat): seq<Event> {
    Suffix(Rows(t, before), limit)
  }

  /** Rows numbered above `after`, oldest first. */
  ghost function RowsAfter(t: Table, after: nat): seq<Event> {
    After(Rows(t, MaxSeq(t) + 1), after)
  }

  lemma LargestExists(s: set<nat>)
    requires s != {}
    ensures exists m :: m in s && forall k :: k in s ==> k <= m
  {
    var x :| x in s;
    if s != {x} {
      LargestExists(s - {x});
      var m :| m in s - {x} && forall k :: k in s - {x} ==> k <= m;
      assert forall k :: k in s ==> k in s - {x} || k == x;
      assert (if m < x then x else m) in s;
    }
  }

  ghost function Largest(s: set<nat>): (m: nat)
    requires s != {}
    ensures m in s && forall k :: k in s ==> k <= m
  {
    LargestExists(s);
    var m :| m in s && forall k :: k in s ==> k <= m;
    m
  }

  /** COALESCE(MAX(seq), 0). */
  ghost function MaxSeq(t: Table): (m: nat)
    ensures forall k :: k in t ==> k <= m
    ensures m in t || (m == 0 && t == map[])
  {
    if t == map[] then 0 else Largest(t.Keys)
  }

  lemma NewestStampExists(t: Table, s: set<nat>)
    requires s != {} && s <= t.Keys
    ensures exists m :: m in s && forall k :: k in s ==> t[k].Stamp() <= t[m].Stamp()
  {
    var x :| x in s;
    if s != {x} {
      NewestStampExists(t, s - {x});
      var m :| m in s - {x} && forall k :: k in s - {x} ==> t[k].Stamp() <= t[m].Stamp();
      assert forall k :: k in s ==> k in s - {x} || k == x;
      assert (if t[m].Stamp() < t[x].Stamp() then x else m) in s;
    }
  }

  class Store {
    var rows: Table

    constructor ()
      ensures rows == map[]
    {
      rows := map[];
    }

    /** INSERT OR REPLACE. */
    method Save(session: string, seqNo: nat, data: Data, at: Time)
      modifies this
      ensures rows == old(rows)[seqNo := Row(session, data, at)]
    {
      rows := rows[seqNo := Row(session, data, at)];
    }

    method Clear()
      modifies this
      ensures rows == map[]
    {
      rows := map[];
    }

    /** Drop the rows of every other session; an unknown session drops nothing. */
    method ClearBefore(currentSession: string)
      modifies this
      ensures rows == Pruned(old(rows), currentSession)
      ensures forall k :: k in rows <==>
                          k in old(rows) && (currentSession == "" || old(rows)[k].session == currentSession)
      ensures forall k :: k in rows ==> rows[k] == old(rows)[k]
    {
      if currentSession == "" {
        return;
      }
      rows := map k | k in rows && rows[k].session == currentSession :: rows[k];
    }

    method LastSeq() returns (n: nat)
      ensures n == MaxSeq(rows)
    {
      n := 0;
      var todo := rows.Keys;
      while todo != {}
        invariant todo <= rows.Keys
        invariant forall k :: k in rows && k !in todo ==> k <= n
        invariant n in rows || (n == 0 && (todo == rows.Keys || rows == map[]))
        decreases todo
      {
        var k :| k in todo;
        if k >= n {
          n := k;
        }
        todo := todo - {k};
      }
      var m := MaxSeq(rows);
    }

    /** Up to `limit` rows above `afterSeq`, oldest first. */
    method ListSince(afterSeq: nat, limit: int) returns (out: seq<Event>)
      ensures out == Take(RowsAfter(rows, afterSeq), if limit <= 0 then 5000 else limit)
    {
      var top := LastSeq();
      out := Take(After(Rows(rows, top + 1), afterSeq), if limit <= 0 then 5000 else limit);
    }

    /** The `limit` rows whose created_at texts sort last, in the order of these texts;
        an update renews the text. */
    method ListLatest(limit: int) returns (out: seq<Event>)
      ensures NewestByText(rows, if limit <= 0 then 200 else limit, out)
    {
      var n := if limit <= 0 then 200 else limit;
      out := [];
      var todo := rows.Keys;
      while |out| < n && todo != {}
        invariant |out| <= n && |out| + |todo| == |rows.Keys| && todo <= rows.Keys
        invariant LatestSoFar(rows, todo, out)
        decreases todo
      {
        NewestStampExists(rows, todo);
        var k :| k in todo && forall j :: j in todo ==> rows[j].Stamp() <= rows[k].Stamp();
        LatestGrows(rows, todo, out, k);
        out := [Event(k, Faded(rows[k].data))] + out;
        todo := todo - {k};
      }
      assert |rows| == |rows.Keys|;
    }

    /** Up to `limit` rows below `beforeSeq`: queried newest first, then turned
        around. */
    method ListBefore(beforeSeq: nat, limit: int) returns (out: seq<Event>)
      ensures out == PageBefore(rows, beforeSeq, if limit <= 0 then 200 else limit)
    {
      var n := if limit <= 0 then 200 else limit;
      var tmp := Take(RowsDescending(rows, beforeSeq), n);
      out := [];
      var i := |tmp|;
      while i > 0
        invariant 0 <= i <= |tmp|
        invariant out == Reversed(tmp[i..])
      {
        i := i - 1;
        ghost var rest := tmp[i..];
        assert rest[0] == tmp[i] && rest[1..] == tmp[i + 1..];
        out := out + [tmp[i]];
      }
      assert tmp[0..] == tmp;
      TurnedAround(rows, beforeSeq, n);
    }
  }

  function Numbers(es: seq<Event>): set<nat> {
    set i | 0 <= i < |es| :: es[i].seqNo
  }

  lemma NumbersOfCons(e: Event, es: seq<Event>)
    ensures Numbers([e] + es) == {e.seqNo} + Numbers(es)
  {
    var r := [e] + es;
    assert forall i :: 0 <= i < |es| ==> r[i + 1] == es[i];
    assert r[0].seqNo in Numbers(r);
    forall n | n in Numbers(es)
      ensures n in Numbers(r)
    {
      var i :| 0 <= i < |es| && es[i].seqNo == n;
      assert r[i + 1].seqNo == n;
    }
  }

  ghost predicate ShowsRows(t: Table, es: seq<Event>) {
    forall i :: 0 <= i < |es| ==> es[i].seqNo in t && es[i] == Event(es[i].seqNo, Faded(t[es[i].seqNo].data))
  }

  ghost predicate DatedInOrder(t: Table, es: seq<Event>)
    requires ShowsRows(t, es)
  {
    forall i, j :: 0 <= i < j < |es| ==> es[i].seqNo != es[j].seqNo && t[es[i].seqNo].Stamp() <= t[es[j].seqNo].Stamp()
  }

  /** `out` shows, in the order of the texts, every row outside `todo`, and the text of
      none of them sorts before that of any row in `todo`. */
  ghost predicate LatestSoFar(t: Table, todo: set<nat>, out: seq<Event>) {
    && Numbers(out) == t.Keys - todo
    && ShowsRows(t, out) && DatedInOrder(t, out)
    && (forall k, i :: k in todo && k in t && 0 <= i < |out| ==> t[k].Stamp() <= t[out[i].seqNo].Stamp())
  }

  lemma LatestGrows(t: Table, todo: set<nat>, out: seq<Event>, k: nat)
    requires LatestSoFar(t, todo, out) && k in todo && todo <= t.Keys
    requires forall j :: j in todo ==> t[j].Stamp() <= t[k].Stamp()
    ensures LatestSoFar(t, todo - {k}, [Event(k, Faded(t[k].data))] + out)
  {
    hide TextRank;
    var e := Event(k, Faded(t[k].data));
    NumbersOfCons(e, out);
    assert forall i :: 0 <= i < |out| ==> out[i].seqNo in Numbers(out);
    var r := [e] + out;
    assert forall i :: 1 <= i < |r| ==> r[i] == out[i - 1];
  }

  /** A page of the `limit` rows whose texts sort last, in the order of the texts. */
  ghost predicate NewestByText(t: Table, limit: nat, es: seq<Event>) {
    && |es| == (if |t| < limit then |t| else limit)
    && ShowsRows(t, es) && DatedInOrder(t, es)
    && (forall k, i :: k in t && k !in Numbers(es) && 0 <= i < |es| ==> t[k].Stamp() <= t[es[i].seqNo].Stamp())
  }

  function Pruned(t: Table, session: string): Table {
    if session == "" then t else map k | k in t && t[k].session == session :: t[k]
  }

  function Reversed<T>(s: seq<T>): (r: seq<T>)
    ensures |r| == |s|
  {
    if s == [] then [] else Reversed(s[1..]) + [s[0]]
  }

  lemma {:induction false} ReversedOfConcat<T>(a: seq<T>, b: seq<T>)
    ensures Reversed(a + b) == Reversed(b) + Reversed(a)
  {
    if a == [] {
      assert a + b == b;
    } else {
      ReversedOfConcat(a[1..], b);
      assert (a + b)[1..] == a[1..] + b;
    }
  }

  lemma {:induction false} DescendingIsReversed(t: Table, hi: nat)
    ensures Reversed(RowsDescending(t, hi)) == Rows(t, hi)
  {
    if hi > 0 {
      DescendingIsReversed(t, hi - 1);
      if hi - 1 in t {
        var e := Event(hi - 1, Faded(t[hi - 1].data));
        assert RowsDescending(t, hi)[1..] == RowsDescending(t, hi - 1);
      } else {
        assert RowsDescending(t, hi) == RowsDescending(t, hi - 1);
      }
    }
  }

  lemma {:induction false} TurnedAround(t: Table, hi: nat, n: nat)
    ensures Reversed(Take(RowsDescending(t, hi), n)) == Suffix(Rows(t, hi), n)
  {
    var d := RowsDescending(t, hi);
    DescendingIsReversed(t, hi);
    if n <= |d| {
      assert d == d[..n] + d[n..];
      ReversedOfConcat(d[..n], d[n..]);
    }
  }

  /* ---------- buffer and table together ---------- */

  datatype State = State(log: Log, rows: Table)

  datatype Act =
    | ActAppend(data: Data, session: string, at: Time)
    | ActUpdate(data: Data, session: string, at: Time)
    | ActClear
    | ActRestart(session: string)

  function Saved(s: State, log: Log, n: nat, session: string, data: Data, at: Time): State {
    State(log, s.rows[n := Row(session, data, at)])
  }

  ghost function Step(s: State, cap: nat, a: Act): State {
    match a
    case ActAppend(d, session, at) =>
      Saved(s, Push(s.log, cap, d), s.log.counter + 1, session, d, at)
    case ActUpdate(d, session, at) =>
      Saved(s, Put(s.log, cap, d.msgId, d), PutSeq(s.log, d.msgId), session, d, at)
    case ActClear => State(Log(0, []), map[])
    case ActRestart(session) =>
      var t := Pruned(s.rows, session);
      State(Log(MaxSeq(t), []), t)
  }

  /** Every live entry is the row at its number, live numbers are consecutive up
      to the counter, and no row is numbered past the counter. */
  ghost predicate Coherent(s: State) {
    && Dense(s.log)
    && (forall k :: k in s.rows ==> 1 <= k <= s.log.counter)
    && (forall i :: 0 <= i < |s.log.entries| ==>
                      s.log.entries[i].seqNo in s.rows && s.rows[s.log.entries[i].seqNo].data == s.log.entries[i].data)
  }

  class EventManager {
    const store: Store
    const buf: EventBuffer

    ghost predicate Valid()
      reads buf
    {
      buf.Valid()
    }

    ghost function View(): State
      requires Valid()
      reads buf, buf.buf, store
    {
      State(buf.View(), store.rows)
    }

    constructor (cap: nat)
      requires cap > 0
      ensures Valid() && buf.cap == cap && fresh(buf) && fresh(buf.buf) && fresh(store)
      ensures View() == State(Log(0, []), map[])
    {
      store := new Store();
      buf := new EventBuffer(cap);
    }

    method AppendAndPersistEvent(data: Data, session: string, now: Time) returns (n: nat)
      requires Valid()
      modifies buf, buf.buf, store
      ensures Valid() && View() == Step(old(View()), buf.cap, ActAppend(data, session, now))
      ensures n == old(View()).log.counter + 1
    {
      n := buf.Append(data);
      store.Save(session, n, data, now);
    }

    method UpdateOrAppendEvent(data: Data, session: string, now: Time) returns (n: nat, updated: bool)
      requires Valid()
      modifies buf, buf.buf, store
      ensures Valid() && View() == Step(old(View()), buf.cap, ActUpdate(data, session, now))
      ensures n == PutSeq(old(View()).log, data.msgId) && updated == PutUpdates(old(View()).log, data.msgId)
    {
      n, updated := buf.UpdateOrAppend(data.msgId, data);
      store.Save(session, n, data, now);
    }

    /** conversation.clear and the session switches: buffer and table together. */
    method ResetAndClear()
      requires Valid()
      modifies buf, store
      ensures Valid() && View() == Step(old(View()), buf.cap, ActClear)
    {
      buf.Reset();
      store.Clear();
    }

    /** What a restarted daemon does for this agent: an empty buffer in front of
        the pruned table. */
    method LoadFromStore(resumeSession: string)
      requires Valid()
      modifies buf, store
      ensures Valid() && View() == Step(old(View()), buf.cap, ActRestart(resumeSession))
    {
      buf.Reset();
      if resumeSession != "" {
        store.ClearBefore(resumeSession);
      }
      var lastSeq := store.LastSeq();
      if lastSeq > 0 {
        buf.InitSeq(lastSeq);
      }
    }

    /** The page a conversation.history request shows: `before` pages backwards
        through the table, `cursor` reads forward from the buffer and falls back
        to the table, and neither asks for the newest page, live if there is one. */
    method SelectPage(before: int, cursor: int, limit: nat) returns (events: seq<Event>)
      requires Valid() && limit > 0
      ensures IsPage(View(), before, cursor, limit, events)
    {
      if before > 0 {
        events := store.ListBefore(before, limit);
      } else if cursor > 0 {
        events := buf.Since(cursor);
        if |events| == 0 {
          events := store.ListSince(cursor, limit);
        }
      } else {
        var live := buf.Since(0);
        if |live| > 0 {
          events := if |live| > limit then live[|live| - limit..] else live;
        } else {
          events := store.ListLatest(limit);
        }
      }
    }

    method ConversationHistory(before: int, cursor: int, askedLimit: int)
      returns (events: seq<Event>, firstSeq: nat, lastSeq: nat)
      requires Valid()
      ensures IsPage(View(), before, cursor, PageLimit(askedLimit), events)
      ensures firstSeq == FirstSeq(events)
      ensures lastSeq == if MaxSeq(store.rows) > buf.counter then MaxSeq(store.rows) else buf.counter
    {
      var limit := 200;
      if askedLimit > 0 {
        limit := askedLimit;
      }
      if limit > 1000 {
        limit := 1000;
      }
      events := SelectPage(before, cursor, limit);
      lastSeq := buf.LastSeq();
      var persistedLast := store.LastSeq();
      if persistedLast > lastSeq {
        lastSeq := persistedLast;
      }
      firstSeq := 0;
      if |events| > 0 {
        firstSeq := events[0].seqNo;
      }
    }
  }

  ghost predicate IsPage(s: State, before: int, cursor: int, limit: nat, events: seq<Event>) {
    if before > 0 then events == PageBefore(s.rows, before, limit)
    else if cursor > 0 then
      var live := After(s.log.entries, cursor);
      events == if live == [] then Take(RowsAfter(s.rows, cursor), limit) else live
    else
      var live := After(s.log.entries, 0);
      if live == [] then NewestByText(s.rows, limit, events) else events == Suffix(live, limit)
  }

  function FirstSeq(page: seq<Event>): nat {
    if page == [] then 0 else page[0].seqNo
  }

  function PageLimit(asked: int): (n: nat)
    ensures 1 <= n <= 1000
  {
    if asked <= 0 then 200 else if asked > 1000 then 1000 else asked
  }
}
