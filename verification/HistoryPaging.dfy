/** What the conversation log keeps over every run, and what a client gets by
    paging backwards through it. */
module HistoryPaging {
  import opened EventLog
  import opened ConversationLog
  import opened CreatedAt

  /* ---------- coherence over every run ---------- */

  ghost function RunActs(cap: nat, acts: seq<Act>): State {
    if acts == [] then State(Log(0, []), map[])
    else Step(RunActs(cap, acts[..|acts| - 1]), cap, acts[|acts| - 1])
  }

  lemma {:induction false} AppendKeepsCoherence(s: State, cap: nat, d: Data, session: string, at: Time)
    requires cap > 0 && Coherent(s)
    ensures Coherent(Step(s, cap, ActAppend(d, session, at)))
    ensures s.log.counter + 1 !in s.rows
  {
    var r := Step(s, cap, ActAppend(d, session, at));
    var all := s.log.entries + [Event(s.log.counter + 1, d)];
    assert Dense(Log(s.log.counter + 1, all));
    SuffixOfDense(Log(s.log.counter + 1, all), cap);
    forall i | 0 <= i < |r.log.entries|
      ensures r.log.entries[i].seqNo in r.rows && r.rows[r.log.entries[i].seqNo].data == r.log.entries[i].data
    {
      assert r.log.entries[i] == all[|all| - |r.log.entries| + i];
    }
  }

  lemma {:induction false} UpdateKeepsCoherence(s: State, cap: nat, d: Data, session: string, at: Time)
    requires cap > 0 && Coherent(s)
    ensures Coherent(Step(s, cap, ActUpdate(d, session, at)))
  {
    if PutUpdates(s.log, d.msgId) {
      var n := Newest(s.log.entries, d.msgId);
      var r := Step(s, cap, ActUpdate(d, session, at));
      assert forall i :: 0 <= i < |r.log.entries| ==> r.log.entries[i].seqNo == s.log.entries[i].seqNo;
    } else {
      AppendKeepsCoherence(s, cap, d, session, at);
      assert Step(s, cap, ActUpdate(d, session, at)) == Step(s, cap, ActAppend(d, session, at));
    }
  }

  lemma {:induction false} StepKeepsCoherence(s: State, cap: nat, a: Act)
    requires cap > 0 && Coherent(s)
    ensures Coherent(Step(s, cap, a))
  {
    match a {
      case ActAppend(d, session, at) => AppendKeepsCoherence(s, cap, d, session, at);
      case ActUpdate(d, session, at) => UpdateKeepsCoherence(s, cap, d, session, at);
      case ActClear =>
      case ActRestart(session) =>
    }
  }

  /** Buffer and table agree after any run of appends, updates, clears and
      restarts. */
  lemma {:induction false} CoherentAlways(cap: nat, acts: seq<Act>)
    requires cap > 0
    ensures Coherent(RunActs(cap, acts))
  {
    if acts != [] {
      CoherentAlways(cap, acts[..|acts| - 1]);
      StepKeepsCoherence(RunActs(cap, acts[..|acts| - 1]), cap, acts[|acts| - 1]);
    }
  }

  /** The number a step writes under, when it writes at all. */
  ghost function Written(s: State, a: Act): set<nat> {
    match a
    case ActAppend(_, _, _) => {s.log.counter + 1}
    case ActUpdate(d, _, _) => {PutSeq(s.log, d.msgId)}
    case _ => {}
  }

  /** At any point of any run, an append writes a fresh row; an update writes a
      fresh row, or the row of the very entry it rewrote in the buffer; and
      neither touches any other row. */
  lemma WritesNeverOverwriteAnotherEvent(cap: nat, acts: seq<Act>, a: Act)
    requires cap > 0 && (a.ActAppend? || a.ActUpdate?)
    ensures var s := RunActs(cap, acts);
            var t := Step(s, cap, a).rows;
            && t.Keys == s.rows.Keys + Written(s, a)
            && (forall k :: k in s.rows && k !in Written(s, a) ==> t[k] == s.rows[k])
            && (a.ActAppend? ==> Written(s, a) !! s.rows.Keys)
            && (a.ActUpdate? && !PutUpdates(s.log, a.data.msgId) ==> Written(s, a) !! s.rows.Keys)
            && (a.ActUpdate? && PutUpdates(s.log, a.data.msgId) ==>
                  exists e :: e in s.log.entries && e.data.msgId == a.data.msgId && Written(s, a) == {e.seqNo} &&
                              e.seqNo in s.rows && s.rows[e.seqNo].data == e.data)
  {
    CoherentAlways(cap, acts);
    var s := RunActs(cap, acts);
    if a.ActUpdate? && PutUpdates(s.log, a.data.msgId) {
      var e := s.log.entries[Newest(s.log.entries, a.data.msgId)];
      assert e in s.log.entries && e.seqNo in s.rows;
    }
  }

  /* ---------- paging ---------- */

  lemma {:induction false} RowsAscend(t: Table, hi: nat)
    ensures forall i :: 0 <= i < |Rows(t, hi)| ==> Rows(t, hi)[i].seqNo < hi
    ensures forall i, j :: 0 <= i < j < |Rows(t, hi)| ==> Rows(t, hi)[i].seqNo < Rows(t, hi)[j].seqNo
  {
    if hi > 0 {
      RowsAscend(t, hi - 1);
    }
  }

  /** Cutting the listing at one of its rows gives the listing below that row. */
  lemma {:induction false} RowsBelow(t: Table, hi: nat, i: nat)
    requires i < |Rows(t, hi)|
    ensures Rows(t, Rows(t, hi)[i].seqNo) == Rows(t, hi)[..i]
    decreases hi
  {
    var n := |Rows(t, hi - 1)|;
    if i < n {
      RowsBelow(t, hi - 1, i);
      assert Rows(t, hi)[..i] == Rows(t, hi - 1)[..i];
    } else {
      assert Rows(t, hi)[..i] == Rows(t, hi - 1);
    }
  }

  /** The pages a client collects by asking, again and again, for the page before
      the first row it has, until a page comes back empty.  `tables(i)` is the
      table at the i-th request. */
  ghost function FetchBefore(tables: nat -> Table, i: nat, before: nat, limit: nat): seq<seq<Event>>
    requires limit > 0
    decreases before
  {
    var page := PageBefore(tables(i), before, limit);
    if before == 0 || page == [] then []
    else
      RowsAscend(tables(i), before);
      FetchBefore(tables, i + 1, FirstSeq(page), limit) + [page]
  }

  function Join(pages: seq<seq<Event>>): seq<Event> {
    if pages == [] then [] else Join(pages[..|pages| - 1]) + pages[|pages| - 1]
  }

  /** Rows below `hi` are what they were. */
  ghost predicate SameBelow(t: Table, u: Table, hi: nat) {
    forall k :: 0 <= k < hi ==> (k in t <==> k in u) && (k in t ==> t[k].data == u[k].data)
  }

  lemma {:induction false} SameRows(t: Table, u: Table, hi: nat)
    requires SameBelow(t, u, hi)
    ensures Rows(t, hi) == Rows(u, hi)
  {
    if hi > 0 {
      SameRows(t, u, hi - 1);
    }
  }

  lemma {:induction false} PageSplitsRows(t: Table, before: nat, limit: nat)
    requires limit > 0 && PageBefore(t, before, limit) != []
    ensures var page := PageBefore(t, before, limit);
            FirstSeq(page) < before && Rows(t, FirstSeq(page)) + page == Rows(t, before)
  {
    var rows, page := Rows(t, before), PageBefore(t, before, limit);
    var k := |rows| - |page|;
    assert page == rows[k..];
    RowsAscend(t, before);
    RowsBelow(t, before, k);
    assert rows == rows[..k] + rows[k..];
  }

  lemma {:induction false} FetchCollectsAllBelow(tables: nat -> Table, i: nat, before: nat, limit: nat, t: Table)
    requires limit > 0
    requires forall j :: i <= j ==> SameBelow(t, tables(j), before)
    ensures Join(FetchBefore(tables, i, before, limit)) == Rows(t, before)
    decreases before
  {
    SameRows(t, tables(i), before);
    var page := PageBefore(tables(i), before, limit);
    if before > 0 && page != [] {
      PageSplitsRows(t, before, limit);
      forall j | i + 1 <= j
        ensures SameBelow(t, tables(j), FirstSeq(page))
      {
        assert SameBelow(t, tables(j), before);
      }
      FetchCollectsAllBelow(tables, i + 1, FirstSeq(page), limit, t);
      var pages := FetchBefore(tables, i + 1, FirstSeq(page), limit);
      assert FetchBefore(tables, i, before, limit) == pages + [page];
      assert (pages + [page])[..|pages|] == pages;
    }
  }

  /* ---------- what happens between the requests ---------- */

  ghost function RunFrom(s: State, cap: nat, acts: seq<Act>): State {
    if acts == [] then s else Step(RunFrom(s, cap, acts[..|acts| - 1]), cap, acts[|acts| - 1])
  }

  ghost predicate OnlyWrites(acts: seq<Act>) {
    forall i :: 0 <= i < |acts| ==> acts[i].ActAppend? || acts[i].ActUpdate?
  }

  /** Events arrive and live ones numbered from `hi` on are rewritten. */
  ghost predicate WritesFrom(s: State, cap: nat, acts: seq<Act>, hi: nat) {
    && OnlyWrites(acts)
    && forall i :: 0 <= i < |acts| && acts[i].ActUpdate? ==>
                     PutSeq(RunFrom(s, cap, acts[..i]).log, acts[i].data.msgId) >= hi
  }

  lemma {:induction false} WritesOfPrefix(s: State, cap: nat, acts: seq<Act>, hi: nat)
    requires WritesFrom(s, cap, acts, hi) && acts != []
    ensures WritesFrom(s, cap, acts[..|acts| - 1], hi)
  {
    var pre := acts[..|acts| - 1];
    forall i | 0 <= i < |pre| && pre[i].ActUpdate?
      ensures PutSeq(RunFrom(s, cap, pre[..i]).log, pre[i].data.msgId) >= hi
    {
      assert pre[i] == acts[i] && pre[..i] == acts[..i];
    }
  }

  /** However many events arrive, the rows below `hi` stay what they were. */
  lemma {:induction false} RunKeepsOlderRows(s: State, cap: nat, acts: seq<Act>, hi: nat)
    requires cap > 0 && Coherent(s) && hi <= s.log.counter + 1 && WritesFrom(s, cap, acts, hi)
    ensures var r := RunFrom(s, cap, acts);
            Coherent(r) && s.log.counter <= r.log.counter && SameBelow(s.rows, r.rows, hi)
  {
    if acts != [] {
      var n := |acts| - 1;
      WritesOfPrefix(s, cap, acts, hi);
      RunKeepsOlderRows(s, cap, acts[..n], hi);
      StepKeepsCoherence(RunFrom(s, cap, acts[..n]), cap, acts[n]);
      assert acts[n].ActUpdate? ==> PutSeq(RunFrom(s, cap, acts[..n]).log, acts[n].data.msgId) >= hi;
    }
  }

  /** With nothing live at the start, every write goes to a number past the counter. */
  lemma {:induction false} NothingLiveIsNotRewritten(s: State, cap: nat, acts: seq<Act>)
    requires cap > 0 && Coherent(s) && s.log.entries == [] && OnlyWrites(acts)
    ensures var r := RunFrom(s, cap, acts);
            Coherent(r) && s.log.counter + |r.log.entries| <= r.log.counter
    ensures WritesFrom(s, cap, acts, s.log.counter + 1)
  {
    if acts != [] {
      var n := |acts| - 1;
      var pre := acts[..n];
      NothingLiveIsNotRewritten(s, cap, pre);
      StepKeepsCoherence(RunFrom(s, cap, pre), cap, acts[n]);
      forall i | 0 <= i < |acts| && acts[i].ActUpdate?
        ensures PutSeq(RunFrom(s, cap, acts[..i]).log, acts[i].data.msgId) >= s.log.counter + 1
      {
        if i < n {
          assert pre[i] == acts[i] && pre[..i] == acts[..i];
        }
      }
    }
  }

  /** The table at each request: `done(j)` is what happened before the j-th. */
  ghost function TablesAfter(s: State, cap: nat, done: nat -> seq<Act>): nat -> Table {
    (j: nat) => RunFrom(s, cap, done(j)).rows
  }

  /** What a client has once it went on backwards from the page `first`. */
  ghost function Collected(s: State, cap: nat, limit: nat, first: seq<Event>, done: nat -> seq<Act>): seq<Event>
    requires limit > 0
  {
    Join(FetchBefore(TablesAfter(s, cap, done), 0, FirstSeq(first), limit)) + FadedAll(first)
  }

  lemma TablesKeepOlderRows(s: State, cap: nat, done: nat -> seq<Act>, hi: nat)
    requires cap > 0 && Coherent(s) && hi <= s.log.counter + 1 && forall j :: WritesFrom(s, cap, done(j), hi)
    ensures forall j :: SameBelow(s.rows, TablesAfter(s, cap, done)(j), hi)
  {
    forall j: nat ensures SameBelow(s.rows, TablesAfter(s, cap, done)(j), hi) {
      RunKeepsOlderRows(s, cap, done(j), hi);
    }
  }

  /** Paging is lossless.  With something live, take the newest page and then
      page backwards from the first number of each page: the pages, put together,
      are the whole persisted log in order, each row once -- whatever is appended or
      updated on the first page between the requests. */
  lemma PagingIsLossless(s: State, cap: nat, limit: nat, first: seq<Event>, done: nat -> seq<Act>)
    requires cap > 0 && limit > 0 && Coherent(s) && s.log.entries != []
    requires IsPage(s, 0, 0, limit, first)
    requires forall j :: WritesFrom(s, cap, done(j), FirstSeq(first))
    ensures Collected(s, cap, limit, first, done) == Rows(s.rows, s.log.counter + 1)
  {
    LivePageIsEndOfLog(s, limit, first);
    FirstIsNumbered(s, limit, first);
    TablesKeepOlderRows(s, cap, done, FirstSeq(first));
    FetchCollectsAllBelow(TablesAfter(s, cap, done), 0, FirstSeq(first), limit, s.rows);
  }

  lemma FirstIsNumbered(s: State, limit: nat, first: seq<Event>)
    requires limit > 0 && Coherent(s) && s.log.entries != [] && IsPage(s, 0, 0, limit, first)
    ensures FirstSeq(first) <= s.log.counter
  {
    AfterOfDense(s.log, 0);
    assert After(s.log.entries, 0) == s.log.entries;
  }

  /** The same rows below `hi`, though what they say may differ. */
  ghost predicate SameNumbersBelow(t: Table, u: Table, hi: nat) {
    forall k :: 0 <= k < hi ==> (k in t <==> k in u)
  }

  function NumbersOf(es: seq<Event>): (r: seq<nat>)
    ensures |r| == |es| && forall i :: 0 <= i < |r| ==> r[i] == es[i].seqNo
  {
    seq(|es|, i requires 0 <= i < |es| => es[i].seqNo)
  }

  lemma {:induction false} SameNumbers(t: Table, u: Table, hi: nat)
    requires SameNumbersBelow(t, u, hi)
    ensures NumbersOf(Rows(t, hi)) == NumbersOf(Rows(u, hi))
  {
    if hi > 0 {
      SameNumbers(t, u, hi - 1);
    }
  }

  lemma {:induction false} RunKeepsOlderNumbers(s: State, cap: nat, acts: seq<Act>, hi: nat)
    requires cap > 0 && Coherent(s) && hi <= s.log.counter + 1 && OnlyWrites(acts)
    ensures var r := RunFrom(s, cap, acts);
            Coherent(r) && s.log.counter <= r.log.counter && SameNumbersBelow(s.rows, r.rows, hi)
  {
    if acts != [] {
      var n := |acts| - 1;
      RunKeepsOlderNumbers(s, cap, acts[..n], hi);
      StepKeepsCoherence(RunFrom(s, cap, acts[..n]), cap, acts[n]);
    }
  }

  lemma NumbersOfConcat(a: seq<Event>, b: seq<Event>)
    ensures NumbersOf(a + b) == NumbersOf(a) + NumbersOf(b)
  {
  }

  lemma JoinOfMore(pages: seq<seq<Event>>, page: seq<Event>)
    ensures Join(pages + [page]) == Join(pages) + page
  {
    assert (pages + [page])[..|pages|] == pages;
  }

  lemma {:induction false} FetchListsAllBelow(tables: nat -> Table, i: nat, before: nat, limit: nat, t: Table)
    requires limit > 0
    requires forall j :: i <= j ==> SameNumbersBelow(t, tables(j), before)
    ensures NumbersOf(Join(FetchBefore(tables, i, before, limit))) == NumbersOf(Rows(t, before))
    decreases before
  {
    var u := tables(i);
    SameNumbers(t, u, before);
    var page := PageBefore(u, before, limit);
    if before > 0 && page != [] {
      PageSplitsRows(u, before, limit);
      forall j | i + 1 <= j
        ensures SameNumbersBelow(u, tables(j), FirstSeq(page))
      {
        assert SameNumbersBelow(t, tables(j), before) && SameNumbersBelow(t, u, before);
      }
      FetchListsAllBelow(tables, i + 1, FirstSeq(page), limit, u);
      var pages := FetchBefore(tables, i + 1, FirstSeq(page), limit);
      JoinOfMore(pages, page);
      NumbersOfConcat(Rows(u, FirstSeq(page)), page);
      NumbersOfConcat(Join(pages), page);
    } else {
      NoPageNoRows(u, before, limit);
    }
  }

  lemma NoPageNoRows(t: Table, before: nat, limit: nat)
    requires limit > 0 && (before == 0 || PageBefore(t, before, limit) == [])
    ensures Rows(t, before) == []
  {
  }

  /** Even when older live events are rewritten between the requests, every number of
      the log is listed, in order and once. */
  lemma PagingListsEveryNumber(s: State, cap: nat, limit: nat, first: seq<Event>, done: nat -> seq<Act>)
    requires cap > 0 && limit > 0 && Coherent(s) && s.log.entries != []
    requires IsPage(s, 0, 0, limit, first) && forall j :: OnlyWrites(done(j))
    ensures NumbersOf(Collected(s, cap, limit, first, done)) == NumbersOf(Rows(s.rows, s.log.counter + 1))
  {
    hide IsPage, Coherent, Rows, Join, FetchBefore, SameNumbersBelow, RunFrom;
    LivePageIsEndOfLog(s, limit, first);
    FirstIsNumbered(s, limit, first);
    var tables := TablesAfter(s, cap, done);
    forall j: nat ensures SameNumbersBelow(s.rows, tables(j), FirstSeq(first)) {
      RunKeepsOlderNumbers(s, cap, done(j), FirstSeq(first));
    }
    FetchListsAllBelow(tables, 0, FirstSeq(first), limit, s.rows);
    var lower, before := Join(FetchBefore(tables, 0, FirstSeq(first), limit)), Rows(s.rows, FirstSeq(first));
    assert NumbersOf(lower + FadedAll(first)) == NumbersOf(lower) + NumbersOf(FadedAll(first));
    assert NumbersOf(before + FadedAll(first)) == NumbersOf(before) + NumbersOf(FadedAll(first));
  }

  lemma {:induction false} LiveTailIsEndOfLog(s: State, k: nat)
    requires Coherent(s) && k <= |s.log.entries|
    ensures Rows(s.rows, s.log.counter - |s.log.entries| + 1 + k) + FadedAll(s.log.entries[k..]) ==
            Rows(s.rows, s.log.counter + 1)
    decreases |s.log.entries| - k
  {
    hide Faded;
    var es := s.log.entries;
    if k < |es| {
      LiveTailIsEndOfLog(s, k + 1);
      var e := FadedEvent(es[k]);
      assert Rows(s.rows, e.seqNo + 1) == Rows(s.rows, e.seqNo) + [e];
      assert FadedAll(es[k..]) == [e] + FadedAll(es[k + 1..]);
    } else {
      assert FadedAll(es[k..]) == [];
    }
  }

  lemma AllLiveAfterZero(l: Log)
    requires Dense(l)
    ensures After(l.entries, 0) == l.entries
  {
    AfterOfDense(l, 0);
  }

  lemma LivePageIsTail(s: State, limit: nat, first: seq<Event>)
    requires limit > 0 && Coherent(s) && s.log.entries != [] && IsPage(s, 0, 0, limit, first)
    ensures 0 < |first| <= |s.log.entries| && first == s.log.entries[|s.log.entries| - |first|..]
  {
    AllLiveAfterZero(s.log);
    hide Dense, After, NewestByText;
  }

  lemma {:induction false} LivePageIsEndOfLog(s: State, limit: nat, first: seq<Event>)
    requires limit > 0 && Coherent(s) && s.log.entries != [] && IsPage(s, 0, 0, limit, first)
    ensures first != [] && Rows(s.rows, FirstSeq(first)) + FadedAll(first) == Rows(s.rows, s.log.counter + 1)
  {
    hide FadedAll, Rows, IsPage;
    LivePageIsTail(s, limit, first);
    var es := s.log.entries;
    var k := |es| - |first|;
    assert first[0] == es[k] && es[k].seqNo == s.log.counter - |es| + 1 + k;
    LiveTailIsEndOfLog(s, k);
  }

  lemma {:induction false} RowsMembers(t: Table, hi: nat)
    ensures forall k :: k in t && k < hi ==> Event(k, Faded(t[k].data)) in Rows(t, hi)
    ensures forall e :: e in Rows(t, hi) ==> e.seqNo in t && e.seqNo < hi && e == Event(e.seqNo, Faded(t[e.seqNo].data))
  {
    if hi > 0 {
      RowsMembers(t, hi - 1);
    }
  }

  lemma {:induction false} RowsCount(t: Table, hi: nat)
    ensures |Rows(t, hi)| == |set k | k in t && k < hi|
  {
    var s := set k | k in t && k < hi;
    if hi == 0 {
      assert s == {};
    } else {
      RowsCount(t, hi - 1);
      var r := set k | k in t && k < hi - 1;
      assert s == if hi - 1 in t then r + {hi - 1} else r;
    }
  }

  /** The listing holds every persisted row, exactly once. */
  lemma RowsListEveryRowOnce(t: Table, hi: nat)
    requires forall k :: k in t ==> k < hi
    ensures |Rows(t, hi)| == |t|
    ensures forall k :: k in t ==> Event(k, Faded(t[k].data)) in Rows(t, hi)
    ensures forall i, j :: 0 <= i < j < |Rows(t, hi)| ==> Rows(t, hi)[i].seqNo < Rows(t, hi)[j].seqNo
    ensures forall e :: e in Rows(t, hi) ==> e.seqNo in t && e == Event(e.seqNo, Faded(t[e.seqNo].data))
  {
    RowsMembers(t, hi);
    RowsCount(t, hi);
    RowsAscend(t, hi);
    assert (set k | k in t && k < hi) == t.Keys;
    assert |t| == |t.Keys|;
  }

  /* ---------- paging with nothing live ---------- */

  /** The created_at text of each of the last `limit` rows sorts after that of every row
      numbered below it. */
  ghost predicate TailDatedInOrder(t: Table, hi: nat, limit: nat) {
    forall a, b :: a in t && b in t && a < b && b in Numbers(Suffix(Rows(t, hi), limit)) ==>
                     TextBefore(t[a].at, t[b].at)
  }

  lemma {:induction false} LatestPageExists(t: Table, limit: nat) returns (page: seq<Event>)
    ensures NewestByText(t, limit, page)
  {
    page := [];
    var todo := t.Keys;
    while |page| < limit && todo != {}
      invariant |page| <= limit && |page| + |todo| == |t.Keys| && todo <= t.Keys
      invariant LatestSoFar(t, todo, page)
      decreases todo
    {
      NewestStampExists(t, todo);
      var k :| k in todo && forall j :: j in todo ==> t[j].Stamp() <= t[k].Stamp();
      LatestGrows(t, todo, page, k);
      page := [Event(k, Faded(t[k].data))] + page;
      todo := todo - {k};
    }
    assert |t| == |t.Keys|;
  }

  ghost predicate Ascending(s: seq<nat>) {
    forall i, j :: 0 <= i < j < |s| ==> s[i] < s[j]
  }

  /** `page` has the latest of the numbers in `all`, in order of their stamps. */
  ghost predicate LatestOf(all: seq<nat>, page: seq<nat>, stamp: nat -> int) {
    && |page| <= |all|
    && (forall k <- page :: k in all)
    && (forall i, j :: 0 <= i < j < |page| ==> page[i] != page[j] && stamp(page[i]) <= stamp(page[j]))
    && (forall k, i :: k in all && k !in page && 0 <= i < |page| ==> stamp(k) <= stamp(page[i]))
  }

  /** The last `n` numbers are stamped later than every number below them. */
  ghost predicate TailAscends(all: seq<nat>, n: nat, stamp: nat -> int) {
    forall x, y :: 0 <= x < y < |all| && |all| - n <= y ==> stamp(all[x]) < stamp(all[y])
  }

  /** Then a page of that length is the end of the listing, row by row from the end. */
  lemma {:induction false} LatestIsTail(all: seq<nat>, page: seq<nat>, stamp: nat -> int, i: nat)
    requires Ascending(all) && LatestOf(all, page, stamp) && TailAscends(all, |page|, stamp) && i <= |page|
    ensures page[i..] == all[|all| - |page| + i..]
    decreases |page| - i
  {
    hide Ascending, LatestOf, TailAscends;
    if i < |page| {
      var at := |all| - |page| + i;
      PageIsInside(all, page, stamp, i);
      LatestIsTail(all, page, stamp, i + 1);
      InItsPlace(all, page, stamp, i);
      assert page[i..] == [page[i]] + page[i + 1..] && all[at..] == [all[at]] + all[at + 1..];
    }
  }

  lemma InItsPlace(all: seq<nat>, page: seq<nat>, stamp: nat -> int, i: nat)
    requires Ascending(all) && LatestOf(all, page, stamp) && TailAscends(all, |page|, stamp) && i < |page|
    requires page[i + 1..] == all[|all| - |page| + i + 1..]
    ensures page[i] == all[|all| - |page| + i]
  {
    hide Ascending, LatestOf, TailAscends;
    OnlyItsPlace(all, page, stamp, i);
    PageIsInside(all, page, stamp, i);
    var x :| 0 <= x < |all| && all[x] == page[i];
  }

  lemma PageIsInside(all: seq<nat>, page: seq<nat>, stamp: nat -> int, i: nat)
    requires LatestOf(all, page, stamp) && i < |page|
    ensures page[i] in all && |page| <= |all|
  {
    assert page[i] in page;
  }

  lemma OnlyItsPlace(all: seq<nat>, page: seq<nat>, stamp: nat -> int, i: nat)
    requires Ascending(all) && LatestOf(all, page, stamp) && TailAscends(all, |page|, stamp) && i < |page|
    requires page[i + 1..] == all[|all| - |page| + i + 1..]
    ensures forall x :: 0 <= x < |all| && x != |all| - |page| + i ==> all[x] != page[i]
  {
    var at := |all| - |page| + i;
    NoEarlierThanItsPlace(all, page, stamp, i);
    forall y | at < y < |all| ensures all[y] != page[i] {
      assert all[at + 1..][y - at - 1] == page[i + 1..][y - at - 1] == page[i + y - at];
    }
    forall x | 0 <= x < at ensures all[x] != page[i] {
      assert stamp(all[x]) < stamp(all[at]);
    }
  }

  lemma NoEarlierThanItsPlace(all: seq<nat>, page: seq<nat>, stamp: nat -> int, i: nat)
    requires Ascending(all) && LatestOf(all, page, stamp) && i < |page|
    requires page[i + 1..] == all[|all| - |page| + i + 1..]
    ensures stamp(all[|all| - |page| + i]) <= stamp(page[i])
  {
    var at := |all| - |page| + i;
    if all[at] in page {
      forall j | i < j < |page| ensures page[j] != all[at] {
        assert page[j] == page[i + 1..][j - i - 1] == all[at + 1..][j - i - 1] == all[at + j - i];
      }
      var j :| 0 <= j < |page| && page[j] == all[at];
    }
  }

  ghost predicate IsTailOf(all: seq<nat>, page: seq<nat>) {
    |page| <= |all| && page == all[|all| - |page|..]
  }

  /** Conversely, when two numbers are stamped out of order, some page is not the end
      of the listing: swap them, or let the lower one in. */
  lemma OutOfOrderPage(all: seq<nat>, page: seq<nat>, stamp: nat -> int, x: nat, y: nat) returns (other: seq<nat>)
    requires Ascending(all) && LatestOf(all, page, stamp) && IsTailOf(all, page)
    requires x < y < |all| && |all| - |page| <= y && stamp(all[x]) >= stamp(all[y])
    ensures LatestOf(all, other, stamp) && |other| == |page| && !IsTailOf(all, other)
  {
    hide LatestOf;
    var d := |all| - |page|;
    assert page[y - d] == all[y] && all[x] != all[y];
    if x >= d {
      assert page[x - d] == all[x];
      other := Swapped(page, x - d, y - d);
      SwapKeepsLatest(all, page, stamp, x - d, y - d);
      assert other[y - d] != page[y - d];
    } else {
      assert forall j :: 0 <= j < |page| ==> page[j] == all[d + j];
      assert all[x] !in page;
      other := page[0 := all[x]];
      EnterKeepsLatest(all, page, stamp, all[x], y - d);
      assert other[0] != page[0];
    }
  }

  function Swapped(page: seq<nat>, i: nat, j: nat): (r: seq<nat>)
    requires i < j < |page|
    ensures |r| == |page| && r[i] == page[j] && r[j] == page[i]
    ensures forall k :: 0 <= k < |r| && k != i && k != j ==> r[k] == page[k]
  {
    page[i := page[j]][j := page[i]]
  }

  lemma SwappedMembers(page: seq<nat>, i: nat, j: nat)
    requires i < j < |page|
    ensures forall k :: k in page <==> k in Swapped(page, i, j)
  {
    var other := Swapped(page, i, j);
    forall k | k in page ensures k in other {
      var m :| 0 <= m < |page| && page[m] == k;
      assert other[if m == i then j else if m == j then i else m] == k;
    }
  }

  lemma SwappedStamps(page: seq<nat>, stamp: nat -> int, i: nat, j: nat)
    requires i < j < |page| && stamp(page[i]) >= stamp(page[j])
    requires forall k, m :: 0 <= k < m < |page| ==> stamp(page[k]) <= stamp(page[m])
    ensures forall k :: 0 <= k < |page| ==> stamp(Swapped(page, i, j)[k]) == stamp(page[k])
  {
    assert stamp(page[i]) <= stamp(page[j]);
  }

  lemma SwapKeepsLatest(all: seq<nat>, page: seq<nat>, stamp: nat -> int, i: nat, j: nat)
    requires LatestOf(all, page, stamp) && i < j < |page| && stamp(page[i]) >= stamp(page[j])
    ensures LatestOf(all, Swapped(page, i, j), stamp)
  {
    var other := Swapped(page, i, j);
    SwappedMembers(page, i, j);
    SwappedStamps(page, stamp, i, j);
    hide Swapped;
    forall x, y | 0 <= x < y < |other| ensures stamp(other[x]) <= stamp(other[y]) {
      assert stamp(page[x]) <= stamp(page[y]);
    }
    forall k, x | k in all && k !in other && 0 <= x < |other| ensures stamp(k) <= stamp(other[x]) {
      assert stamp(k) <= stamp(page[x]);
    }
  }

  lemma EnterKeepsLatest(all: seq<nat>, page: seq<nat>, stamp: nat -> int, k: nat, j: nat)
    requires LatestOf(all, page, stamp) && j < |page| && k in all && k !in page && stamp(k) >= stamp(page[j])
    ensures LatestOf(all, page[0 := k], stamp)
  {
    var other := page[0 := k];
    assert stamp(k) <= stamp(page[0]) <= stamp(page[j]);
    forall m | 1 <= m < |page| ensures page[m] in other {
      assert other[m] == page[m];
    }
    forall x, i | x in all && x !in other && 0 <= i < |other|
      ensures stamp(x) <= stamp(other[i])
    {
      if x in page {
        var m :| 0 <= m < |page| && page[m] == x;
      } else {
        assert stamp(x) <= stamp(page[i]);
      }
    }
    forall x <- other ensures x in all {
      assert x == k || x in page;
    }
  }

  ghost function StampOf(t: Table): nat -> int {
    (k: nat) => if k in t then t[k].Stamp() else 0
  }

  function Showing(t: Table, ns: seq<nat>): seq<Event>
    requires forall i :: 0 <= i < |ns| ==> ns[i] in t
  {
    seq(|ns|, i requires 0 <= i < |ns| => Event(ns[i], Faded(t[ns[i]].data)))
  }

  lemma NumbersAscend(t: Table, hi: nat)
    requires forall k :: k in t ==> k < hi
    ensures var all := NumbersOf(Rows(t, hi)); Ascending(all) && |all| == |t| && forall k :: k in all <==> k in t
  {
    RowsListEveryRowOnce(t, hi);
    var all, rows := NumbersOf(Rows(t, hi)), Rows(t, hi);
    forall k ensures k in all <==> k in t {
      if k in t {
        var i :| 0 <= i < |rows| && rows[i] == Event(k, Faded(t[k].data));
        assert all[i] == k;
      }
      if k in all {
        var i :| 0 <= i < |all| && all[i] == k;
        assert rows[i] in rows;
      }
    }
  }

  function Shorter(n: nat, limit: nat): nat {
    if n < limit then n else limit
  }

  lemma PageByNumbers(t: Table, hi: nat, limit: nat, page: seq<Event>)
    requires (forall k :: k in t ==> k < hi) && NewestByText(t, limit, page)
    ensures LatestOf(NumbersOf(Rows(t, hi)), NumbersOf(page), StampOf(t)) && |page| == Shorter(|t|, limit)
  {
    hide Rows, Faded, TextRank, Ascending;
    NumbersAscend(t, hi);
    LatestByNumbers(t, NumbersOf(Rows(t, hi)), page);
  }

  lemma SameNumbersListed(page: seq<Event>)
    ensures forall k :: k in Numbers(page) <==> k in NumbersOf(page)
  {
    var ns := NumbersOf(page);
    forall k | k in ns ensures k in Numbers(page) {
      var i :| 0 <= i < |ns| && ns[i] == k;
      assert page[i].seqNo == k;
    }
  }

  lemma LatestByNumbers(t: Table, all: seq<nat>, page: seq<Event>)
    requires |page| <= |all| && ShowsRows(t, page) && DatedInOrder(t, page) && forall k :: k in all <==> k in t
    requires forall k, i :: k in t && k !in Numbers(page) && 0 <= i < |page| ==>
                              t[k].Stamp() <= t[page[i].seqNo].Stamp()
    ensures LatestOf(all, NumbersOf(page), StampOf(t))
  {
    SameNumbersListed(page);
    hide Faded, TextRank, Numbers;
    var ns := NumbersOf(page);
    forall k <- ns ensures k in all {
      var i :| 0 <= i < |ns| && ns[i] == k;
      assert page[i].seqNo == k;
    }
    forall k, i | k in all && k !in ns && 0 <= i < |ns| ensures StampOf(t)(k) <= StampOf(t)(ns[i]) {
      assert k !in Numbers(page) && ns[i] == page[i].seqNo;
    }
  }

  lemma NumbersMakePage(t: Table, hi: nat, limit: nat, ns: seq<nat>)
    requires forall k :: k in t ==> k < hi
    requires LatestOf(NumbersOf(Rows(t, hi)), ns, StampOf(t)) && |ns| == Shorter(|t|, limit)
    ensures forall i :: 0 <= i < |ns| ==> ns[i] in t
    ensures NewestByText(t, limit, Showing(t, ns)) && NumbersOf(Showing(t, ns)) == ns
  {
    hide Rows, Ascending, TextRank, Faded;
    NumbersAscend(t, hi);
    forall i | 0 <= i < |ns| ensures ns[i] in t {
      PageIsInside(NumbersOf(Rows(t, hi)), ns, StampOf(t), i);
    }
    hide LatestOf, Numbers;
    NumbersOfShowing(t, ns);
    NumbersMatch(t, NumbersOf(Rows(t, hi)), ns, Showing(t, ns));
  }

  lemma NumbersMatch(t: Table, all: seq<nat>, ns: seq<nat>, page: seq<Event>)
    requires LatestOf(all, ns, StampOf(t)) && (forall k :: k in all <==> k in t)
    requires |page| == |ns| && forall i :: 0 <= i < |ns| ==> ns[i] in t && page[i] == Event(ns[i], Faded(t[ns[i]].data))
    requires forall k :: k in Numbers(page) <==> k in ns
    ensures ShowsRows(t, page) && DatedInOrder(t, page)
    ensures forall k, i :: k in t && k !in Numbers(page) && 0 <= i < |page| ==> t[k].Stamp() <= t[page[i].seqNo].Stamp()
  {
    hide Numbers, Faded, TextRank;
    forall i, j | 0 <= i < j < |page|
      ensures page[i].seqNo != page[j].seqNo && t[page[i].seqNo].Stamp() <= t[page[j].seqNo].Stamp()
    {
      assert StampOf(t)(ns[i]) <= StampOf(t)(ns[j]);
    }
    forall k, i | k in t && k !in Numbers(page) && 0 <= i < |page|
      ensures t[k].Stamp() <= t[page[i].seqNo].Stamp()
    {
      assert StampOf(t)(k) <= StampOf(t)(ns[i]);
    }
  }

  lemma NumbersOfShowing(t: Table, ns: seq<nat>)
    requires forall i :: 0 <= i < |ns| ==> ns[i] in t
    ensures NumbersOf(Showing(t, ns)) == ns && forall k :: k in Numbers(Showing(t, ns)) <==> k in ns
  {
    var page := Showing(t, ns);
    forall k | k in ns ensures k in Numbers(page) {
      var i :| 0 <= i < |ns| && ns[i] == k;
      assert page[i].seqNo == k;
    }
  }

  lemma TailByNumbers(t: Table, hi: nat, page: seq<Event>)
    requires (forall k :: k in t ==> k < hi) && ShowsRows(t, page)
    ensures IsTailOf(NumbersOf(Rows(t, hi)), NumbersOf(page)) <==>
            |page| <= |Rows(t, hi)| && page == Suffix(Rows(t, hi), |page|)
  {
    RowsMembers(t, hi);
    var all, rows, ns := NumbersOf(Rows(t, hi)), Rows(t, hi), NumbersOf(page);
    if IsTailOf(all, ns) {
      var d := |all| - |ns|;
      forall i | 0 <= i < |page| ensures page[i] == rows[d..][i] {
        assert ns[i] == all[d..][i] && rows[d + i] in rows;
      }
      assert page == rows[d..];
    }
    if |page| <= |rows| && page == Suffix(rows, |page|) {
      assert ns == all[|all| - |ns|..];
    }
  }

  /** The same in terms of the texts' ranks. */
  ghost predicate TailRanksInOrder(t: Table, hi: nat, limit: nat) {
    forall a, b :: a in t && b in t && a < b && b in Numbers(Suffix(Rows(t, hi), limit)) ==> t[a].Stamp() < t[b].Stamp()
  }

  lemma RanksTellTheOrder(t: Table, hi: nat, limit: nat)
    ensures TailDatedInOrder(t, hi, limit) <==> TailRanksInOrder(t, hi, limit)
  {
    hide Rows, Suffix, Numbers, TextBefore, TextRank;
    forall a, b | a in t && b in t ensures t[a].Stamp() < t[b].Stamp() <==> TextBefore(t[a].at, t[b].at) {
      RankIsTextOrder(t[a].at, t[b].at);
    }
  }

  lemma OrderByNumbers(t: Table, hi: nat, limit: nat)
    requires forall k :: k in t ==> k < hi
    ensures TailDatedInOrder(t, hi, limit) <==> TailAscends(NumbersOf(Rows(t, hi)), Shorter(|t|, limit), StampOf(t))
  {
    hide Rows, TailDatedInOrder, TailRanksInOrder, TailAscends;
    RanksTellTheOrder(t, hi, limit);
    NumbersAscend(t, hi);
    if TailRanksInOrder(t, hi, limit) {
      OrderToNumbers(t, hi, limit);
    }
    if TailAscends(NumbersOf(Rows(t, hi)), Shorter(|t|, limit), StampOf(t)) {
      OrderFromNumbers(t, hi, limit);
    }
  }

  lemma TailNumbers(rows: seq<Event>, limit: nat)
    ensures var all, d := NumbersOf(rows), |rows| - Shorter(|rows|, limit);
            && (forall y :: d <= y < |all| ==> all[y] in Numbers(Suffix(rows, limit)))
            && (forall b :: b in Numbers(Suffix(rows, limit)) ==> exists y :: d <= y < |all| && all[y] == b)
  {
    var all, tail, d := NumbersOf(rows), Suffix(rows, limit), |rows| - Shorter(|rows|, limit);
    forall y | d <= y < |all| ensures all[y] in Numbers(tail) {
      assert tail[y - d].seqNo == all[y];
    }
    forall b | b in Numbers(tail) ensures exists y :: d <= y < |all| && all[y] == b {
      var j :| 0 <= j < |tail| && tail[j].seqNo == b;
      assert all[d + j] == b;
    }
  }

  lemma OrderToNumbers(t: Table, hi: nat, limit: nat)
    requires TailRanksInOrder(t, hi, limit) && |Rows(t, hi)| == |t|
    requires var all := NumbersOf(Rows(t, hi)); Ascending(all) && forall k :: k in all <==> k in t
    ensures TailAscends(NumbersOf(Rows(t, hi)), Shorter(|t|, limit), StampOf(t))
  {
    hide TextRank, Rows, Numbers, Suffix;
    TailNumbers(Rows(t, hi), limit);
    var all := NumbersOf(Rows(t, hi));
    assert forall i :: 0 <= i < |all| ==> all[i] in all;
  }

  lemma OrderFromNumbers(t: Table, hi: nat, limit: nat)
    requires TailAscends(NumbersOf(Rows(t, hi)), Shorter(|t|, limit), StampOf(t)) && |Rows(t, hi)| == |t|
    requires var all := NumbersOf(Rows(t, hi)); Ascending(all) && forall k :: k in all <==> k in t
    ensures TailRanksInOrder(t, hi, limit)
  {
    hide TextRank, Rows, Numbers, Suffix, Ascending, TailAscends;
    TailNumbers(Rows(t, hi), limit);
    var all := NumbersOf(Rows(t, hi));
    forall a, b | a in t && b in t && a < b && b in Numbers(Suffix(Rows(t, hi), limit))
      ensures t[a].Stamp() < t[b].Stamp()
    {
      var d := |Rows(t, hi)| - Shorter(|Rows(t, hi)|, limit);
      var y :| d <= y < |all| && all[y] == b;
      AscentAt(all, Shorter(|t|, limit), StampOf(t), a, y);
    }
  }

  lemma AscentAt(all: seq<nat>, n: nat, stamp: nat -> int, a: nat, y: nat)
    requires Ascending(all) && TailAscends(all, n, stamp)
    requires a in all && |all| - n <= y < |all| && a < all[y]
    ensures stamp(a) < stamp(all[y])
  {
    var x :| 0 <= x < |all| && all[x] == a;
    assert x < y;
  }

  /** Paging on from one page of the table is lossless when the page is its end. */
  lemma CollectedFromTable(s: State, cap: nat, limit: nat, first: seq<Event>, done: nat -> seq<Act>)
    requires cap > 0 && limit > 0 && Coherent(s) && s.log.entries == [] && forall j :: OnlyWrites(done(j))
    requires IsPage(s, 0, 0, limit, first)
    ensures Collected(s, cap, limit, first, done) == Rows(s.rows, s.log.counter + 1)
       <==> IsTailOf(NumbersOf(Rows(s.rows, s.log.counter + 1)), NumbersOf(first))
  {
    var t, hi := s.rows, s.log.counter + 1;
    assert NewestByText(t, limit, first);
    NumbersAscend(t, hi);
    assert FadedAll(first) == first;
    if first == [] {
      assert t == map[] by { assert |t| == 0; }
      assert Rows(t, hi) == [];
      assert FirstSeq(first) == 0;
    } else {
      assert first[0].seqNo in t;
      forall j: nat ensures WritesFrom(s, cap, done(j), FirstSeq(first)) {
        NothingLiveIsNotRewritten(s, cap, done(j));
      }
      TablesKeepOlderRows(s, cap, done, FirstSeq(first));
      FetchCollectsAllBelow(TablesAfter(s, cap, done), 0, FirstSeq(first), limit, t);
      EndOfListing(t, hi, first);
      TailByNumbers(t, hi, first);
    }
  }

  /** With nothing live the newest page comes from the table in the order of the
      created_at texts.  Whatever page that is and whatever is written between the
      requests, paging on from it is lossless exactly when the text of each of the last
      `limit` rows sorts after that of every row numbered below it. */
  lemma LatestPageIsLosslessExactlyWhen(s: State, cap: nat, limit: nat, done: nat -> seq<Act>)
    requires cap > 0 && limit > 0 && Coherent(s) && s.log.entries == [] && forall j :: OnlyWrites(done(j))
    ensures (forall first :: IsPage(s, 0, 0, limit, first) ==>
                               Collected(s, cap, limit, first, done) == Rows(s.rows, s.log.counter + 1))
       <==> TailDatedInOrder(s.rows, s.log.counter + 1, limit)
  {
    hide Collected, Rows, TailDatedInOrder, TailAscends;
    var t, hi := s.rows, s.log.counter + 1;
    var all, n, stamp := NumbersOf(Rows(t, hi)), Shorter(|t|, limit), StampOf(t);
    OrderByNumbers(t, hi, limit);
    if TailAscends(all, n, stamp) {
      forall first | IsPage(s, 0, 0, limit, first)
        ensures Collected(s, cap, limit, first, done) == Rows(t, hi)
      {
        OrderedTableLosesNothing(s, cap, limit, first, done);
      }
    } else {
      var first := DisorderedTableLosesARow(s, cap, limit, done);
    }
  }

  lemma NothingLivePage(s: State, limit: nat, first: seq<Event>)
    requires s.log.entries == []
    ensures IsPage(s, 0, 0, limit, first) <==> NewestByText(s.rows, limit, first)
  {
  }

  lemma OrderedPageIsTail(t: Table, hi: nat, limit: nat, page: seq<Event>)
    requires (forall k :: k in t ==> k < hi) && NewestByText(t, limit, page)
    requires TailAscends(NumbersOf(Rows(t, hi)), Shorter(|t|, limit), StampOf(t))
    ensures IsTailOf(NumbersOf(Rows(t, hi)), NumbersOf(page))
  {
    hide Rows, NewestByText, LatestOf, TailAscends, StampOf, Ascending, IsTailOf;
    NumbersAscend(t, hi);
    PageByNumbers(t, hi, limit, page);
    LatestIsTheTail(NumbersOf(Rows(t, hi)), NumbersOf(page), StampOf(t));
  }

  lemma LatestIsTheTail(all: seq<nat>, page: seq<nat>, stamp: nat -> int)
    requires Ascending(all) && LatestOf(all, page, stamp) && TailAscends(all, |page|, stamp)
    ensures IsTailOf(all, page)
  {
    LatestIsTail(all, page, stamp, 0);
    assert page[0..] == page;
  }

  lemma DisorderedPage(t: Table, hi: nat, limit: nat) returns (page: seq<Event>)
    requires forall k :: k in t ==> k < hi
    requires !TailAscends(NumbersOf(Rows(t, hi)), Shorter(|t|, limit), StampOf(t))
    ensures NewestByText(t, limit, page) && !IsTailOf(NumbersOf(Rows(t, hi)), NumbersOf(page))
  {
    var all, n, stamp := NumbersOf(Rows(t, hi)), Shorter(|t|, limit), StampOf(t);
    var x: nat, y: nat :| 0 <= x < y < |all| && |all| - n <= y && stamp(all[x]) >= stamp(all[y]);
    hide Rows, LatestOf, NewestByText, StampOf, TailAscends;
    NumbersAscend(t, hi);
    page := LatestPageExists(t, limit);
    PageByNumbers(t, hi, limit, page);
    if IsTailOf(all, NumbersOf(page)) {
      var other := OutOfOrderPage(all, NumbersOf(page), stamp, x, y);
      NumbersMakePage(t, hi, limit, other);
      page := Showing(t, other);
    }
  }

  lemma OrderedTableLosesNothing(s: State, cap: nat, limit: nat, first: seq<Event>, done: nat -> seq<Act>)
    requires cap > 0 && limit > 0 && Coherent(s) && s.log.entries == [] && forall j :: OnlyWrites(done(j))
    requires TailAscends(NumbersOf(Rows(s.rows, s.log.counter + 1)), Shorter(|s.rows|, limit), StampOf(s.rows))
    requires IsPage(s, 0, 0, limit, first)
    ensures Collected(s, cap, limit, first, done) == Rows(s.rows, s.log.counter + 1)
  {
    hide Collected, Rows, TailAscends, NewestByText, IsPage, StampOf, NumbersOf, Dense, OnlyWrites, IsTailOf;
    NothingLivePage(s, limit, first);
    OrderedPageIsTail(s.rows, s.log.counter + 1, limit, first);
    CollectedFromTable(s, cap, limit, first, done);
  }

  lemma DisorderedTableLosesARow(s: State, cap: nat, limit: nat, done: nat -> seq<Act>) returns (first: seq<Event>)
    requires cap > 0 && limit > 0 && Coherent(s) && s.log.entries == [] && forall j :: OnlyWrites(done(j))
    requires !TailAscends(NumbersOf(Rows(s.rows, s.log.counter + 1)), Shorter(|s.rows|, limit), StampOf(s.rows))
    ensures IsPage(s, 0, 0, limit, first)
    ensures Collected(s, cap, limit, first, done) != Rows(s.rows, s.log.counter + 1)
  {
    hide Collected, Rows, TailAscends, NewestByText, IsPage, StampOf, NumbersOf, Dense, OnlyWrites, IsTailOf;
    first := DisorderedPage(s.rows, s.log.counter + 1, limit);
    NothingLivePage(s, limit, first);
    CollectedFromTable(s, cap, limit, first, done);
  }

  lemma EndOfListing(t: Table, hi: nat, page: seq<Event>)
    requires page != []
    ensures Rows(t, FirstSeq(page)) + page == Rows(t, hi) <==> page == Suffix(Rows(t, hi), |page|)
  {
    var lower, all := Rows(t, FirstSeq(page)), Rows(t, hi);
    if lower + page == all {
      assert (lower + page)[|lower|..] == page;
    } else if page == Suffix(all, |page|) {
      PageSplitsRows(t, hi, |page|);
    }
  }

  /** An update renews the text, so the condition above can fail: row 1 is rewritten
      after row 2 was saved, the daemon restarts, and a client asking for one row at a
      time never sees row 2. */
  lemma UpdatedRowHidesNewerRow(a: Data, b: Data, session: string, tables: nat -> Table)
    requires a.msgId == "a" && b.msgId == "b"
    ensures var s1 := Step(State(Log(0, []), map[]), 10, ActUpdate(a, session, Time(1, 0)));
            var s2 := Step(s1, 10, ActUpdate(b, session, Time(2, 0)));
            var s3 := Step(s2, 10, ActUpdate(a, session, Time(3, 0)));
            NewestIsFirst(Step(s3, 10, ActRestart("")), a, tables)
  {
    TwoSavesThenRewrite(a, b, session);
    OneRowPage(map[1 := Row(session, a, Time(3, 0)), 2 := Row(session, b, Time(2, 0))], a, 2, tables);
  }

  /** Asking for one row shows the first row, and nothing comes before it. */
  ghost predicate NewestIsFirst(s: State, a: Data, tables: nat -> Table) {
    && 2 in s.rows && IsPage(s, 0, 0, 1, [Event(1, Faded(a))])
    && ((forall i :: tables(i) == s.rows) ==> FetchBefore(tables, 0, 1, 1) == [])
  }

  lemma OneRowPage(t: Table, a: Data, counter: nat, tables: nat -> Table)
    requires t.Keys == {1, 2} && t[1].data == a
    ensures NewestIsFirst(State(Log(counter, []), t), a, tables) <==> !TextBefore(t[1].at, t[2].at)
  {
    var first := [Event(1, Faded(a))];
    hide TextBefore, TextRank;
    RankIsTextOrder(t[1].at, t[2].at);
    assert first[0].seqNo in Numbers(first);
    assert |t| == |t.Keys|;
    assert Rows(t, 0) == [] && 0 !in t && Rows(t, 1) == [];
  }

  lemma TwoSavesThenRewrite(a: Data, b: Data, session: string)
    requires a.msgId == "a" && b.msgId == "b"
    ensures var s1 := Step(State(Log(0, []), map[]), 10, ActUpdate(a, session, Time(1, 0)));
            var s2 := Step(s1, 10, ActUpdate(b, session, Time(2, 0)));
            var s3 := Step(s2, 10, ActUpdate(a, session, Time(3, 0)));
            && s3.rows == map[1 := Row(session, a, Time(3, 0)), 2 := Row(session, b, Time(2, 0))]
            && s3.log.counter == 2
  {
    var one, two := Row(session, a, Time(1, 0)), Row(session, b, Time(2, 0));
    FirstSave(a, session, Time(1, 0));
    SecondSave(a, b, session, one, Time(2, 0));
    FirstAgain(a, b, session, one, two, Time(3, 0));
  }

  lemma FirstSave(a: Data, session: string, at: Time)
    ensures Step(State(Log(0, []), map[]), 10, ActUpdate(a, session, at)) ==
            State(Log(1, [Event(1, a)]), map[1 := Row(session, a, at)])
  {
  }

  lemma SecondSave(a: Data, b: Data, session: string, one: Row, at: Time)
    requires a.msgId == "a" && b.msgId == "b"
    ensures Step(State(Log(1, [Event(1, a)]), map[1 := one]), 10, ActUpdate(b, session, at)) ==
            State(Log(2, [Event(1, a), Event(2, b)]), map[1 := one, 2 := Row(session, b, at)])
  {
    assert Newest([Event(1, a)], "b") == -1;
  }

  lemma FirstAgain(a: Data, b: Data, session: string, one: Row, two: Row, at: Time)
    requires a.msgId == "a" && b.msgId == "b"
    ensures var s := State(Log(2, [Event(1, a), Event(2, b)]), map[1 := one, 2 := two]);
            var r := Step(s, 10, ActUpdate(a, session, at));
            r.rows == map[1 := Row(session, a, at), 2 := two] && r.log.counter == 2
  {
    var es := [Event(1, a), Event(2, b)];
    assert es[0].data.msgId == "a" && es[1].data.msgId == "b" && Newest(es, "a") == 0;
  }

  /** Appends alone can do it as well.  After two of them and a restart the newest page
      of one row is the first row exactly when the second one's text does not sort
      after the first one's. */
  lemma SecondAppendIsHiddenExactlyWhen(a: Data, b: Data, p: Time, q: Time, session: string, tables: nat -> Table)
    ensures var s1 := Step(State(Log(0, []), map[]), 10, ActAppend(a, session, p));
            var s2 := Step(s1, 10, ActAppend(b, session, q));
            NewestIsFirst(Step(s2, 10, ActRestart("")), a, tables) <==> !TextBefore(p, q)
  {
    var s1 := Step(State(Log(0, []), map[]), 10, ActAppend(a, session, p));
    assert s1 == State(Log(1, [Event(1, a)]), map[1 := Row(session, a, p)]);
    var s2 := Step(s1, 10, ActAppend(b, session, q));
    assert s2 == State(Log(2, [Event(1, a), Event(2, b)]), map[1 := Row(session, a, p), 2 := Row(session, b, q)]);
    OneRowPage(s2.rows, a, 2, tables);
  }

  /** A row appended at a tenth of a second hides one appended at fifteen hundredths. */
  lemma AppendedRowHidesNewerRow(a: Data, b: Data, sec: nat, session: string, tables: nat -> Table)
    ensures var p, q := Time(sec, 100_000_000), Time(sec, 150_000_000);
            var s1 := Step(State(Log(0, []), map[]), 10, ActAppend(a, session, p));
            var s2 := Step(s1, 10, ActAppend(b, session, q));
            TimeBefore(p, q) && NewestIsFirst(Step(s2, 10, ActRestart("")), a, tables)
  {
    var p, q := Time(sec, 100_000_000), Time(sec, 150_000_000);
    hide NewestIsFirst, TextBefore, Step;
    TenthSortsAfterFifteenHundredths(sec);
    SecondAppendIsHiddenExactlyWhen(a, b, p, q, session, tables);
  }
}
