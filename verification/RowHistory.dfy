/** Which rows the table has after any run, what they say, and which of them a restart
    leaves. */
module RowHistory {
  import opened EventLog
  import opened ConversationLog
  import opened CreatedAt
  import opened HistoryPaging

  /** Step `a` leaves row `k` alone. */
  ghost predicate Spares(s: State, a: Act, k: nat, row: Row) {
    match a
    case ActClear => false
    case ActRestart(session) => session == "" || row.session == session
    case _ => k !in Written(s, a)
  }

  ghost predicate IsWrite(a: Act) {
    a.ActAppend? || a.ActUpdate?
  }

  function RowBy(a: Act): Row
    requires a.ActAppend? || a.ActUpdate?
  {
    Row(a.session, a.data, a.at)
  }

  /** Row `k` was last written by action `j`, and every later one spares it. */
  ghost predicate LastWrittenBy(cap: nat, acts: seq<Act>, j: int, k: nat) {
    && 0 <= j < |acts| && IsWrite(acts[j]) && k in Written(RunActs(cap, acts[..j]), acts[j])
    && forall i :: j < i < |acts| ==> Spares(RunActs(cap, acts[..i]), acts[i], k, RowBy(acts[j]))
  }

  lemma {:induction false} OneStep(s: State, cap: nat, a: Act, k: nat)
    ensures var t := Step(s, cap, a).rows;
            if IsWrite(a) && k in Written(s, a) then k in t && t[k] == RowBy(a)
            else
              && (k in t <==> k in s.rows && Spares(s, a, k, s.rows[k]))
              && (k in t ==> t[k] == s.rows[k])
  {
  }

  lemma LastOfMore(cap: nat, acts: seq<Act>, j: int, k: nat)
    requires acts != []
    ensures var n := |acts| - 1;
            var s := RunActs(cap, acts[..n]);
            LastWrittenBy(cap, acts, j, k) <==>
            if j == n then IsWrite(acts[n]) && k in Written(s, acts[n])
            else LastWrittenBy(cap, acts[..n], j, k) && Spares(s, acts[n], k, RowBy(acts[j]))
  {
    hide Spares, Written, RunActs;
    var n := |acts| - 1;
    assert forall i :: 0 <= i < n ==> acts[..i] == acts[..n][..i];
  }

  /** Over every run: a row is there exactly when some action wrote it and every later one
      spared it, and then it says what that action wrote, under its session. */
  lemma {:induction false} RowsAreLastWrites(cap: nat, acts: seq<Act>, k: nat)
    ensures var t := RunActs(cap, acts).rows;
            && (k in t <==> exists j :: LastWrittenBy(cap, acts, j, k))
            && (forall j :: LastWrittenBy(cap, acts, j, k) ==> k in t && t[k] == RowBy(acts[j]))
  {
    if acts != [] {
      var n := |acts| - 1;
      var s := RunActs(cap, acts[..n]);
      RowsAreLastWrites(cap, acts[..n], k);
      OneStep(s, cap, acts[n], k);
      hide Step, Written, Spares, LastWrittenBy;
      forall j | LastWrittenBy(cap, acts, j, k)
        ensures k in Step(s, cap, acts[n]).rows && 0 <= j < |acts| && IsWrite(acts[j])
        ensures Step(s, cap, acts[n]).rows[k] == RowBy(acts[j])
      {
        WrittenByWrite(cap, acts, j, k);
        LastOfMore(cap, acts, j, k);
      }
      if k in Step(s, cap, acts[n]).rows {
        if IsWrite(acts[n]) && k in Written(s, acts[n]) {
          LastOfMore(cap, acts, n, k);
        } else {
          var j :| LastWrittenBy(cap, acts[..n], j, k);
          WrittenByWrite(cap, acts[..n], j, k);
          LastOfMore(cap, acts, j, k);
        }
      }
    } else {
      assert forall j :: !LastWrittenBy(cap, acts, j, k);
    }
  }

  lemma WrittenByWrite(cap: nat, acts: seq<Act>, j: int, k: nat)
    requires LastWrittenBy(cap, acts, j, k)
    ensures 0 <= j < |acts| && IsWrite(acts[j])
  {
  }

  /** What a row shows when it is read back: all but the id and the live-only keys. */
  function ReadBack(k: nat, d: Data): (e: Event)
    ensures e.seqNo == k
  {
    Event(k, Data(d.role, d.text, d.raw, d.kind, d.payload, "", Extra("", "", "")))
  }

  lemma {:induction false} ListingShows(t: Table, hi: nat, e: Event)
    ensures e in Rows(t, hi) <==> e.seqNo in t && e.seqNo < hi && e == ReadBack(e.seqNo, t[e.seqNo].data)
  {
    if hi > 0 {
      ListingShows(t, hi - 1, e);
    }
  }

  /** After a restart with a session the listing has exactly the rows last written under
      that session, or all of them when it is not known, each as it was written. */
  lemma RestartKeepsExactly(cap: nat, acts: seq<Act>, session: string, j: nat, k: nat)
    requires cap > 0 && LastWrittenBy(cap, acts, j, k)
    ensures var r := RunActs(cap, acts + [ActRestart(session)]);
            var listing := Rows(r.rows, r.log.counter + 1);
            if session == "" || acts[j].session == session then ReadBack(k, acts[j].data) in listing
            else forall e <- listing :: e.seqNo != k
  {
    hide *;
    RowsAreLastWrites(cap, acts, k);
    RestartRows(cap, acts, session);
    WrittenByWrite(cap, acts, j, k);
    RowByIs(acts[j]);
    var r := RunActs(cap, acts + [ActRestart(session)]);
    if k in r.rows {
      ListingShows(r.rows, r.log.counter + 1, ReadBack(k, acts[j].data));
    } else {
      forall e | e in Rows(r.rows, r.log.counter + 1) ensures e.seqNo != k {
        ListingShows(r.rows, r.log.counter + 1, e);
      }
    }
  }

  lemma RestartRows(cap: nat, acts: seq<Act>, session: string)
    requires cap > 0
    ensures var t, r := RunActs(cap, acts).rows, RunActs(cap, acts + [ActRestart(session)]);
            && (forall k :: k in r.rows <==> k in t && (session == "" || t[k].session == session))
            && (forall k :: k in r.rows ==> r.rows[k] == t[k] && k <= r.log.counter)
  {
    var all := acts + [ActRestart(session)];
    assert all[..|acts|] == acts && all[|acts|] == ActRestart(session);
    CoherentAlways(cap, all);
    hide Dense;
  }

  /** And nothing else: every event listed was last written by some action, under the
      session of the restart if that is known. */
  lemma RestartListsNothingElse(cap: nat, acts: seq<Act>, session: string, e: Event) returns (j: int)
    requires var r := RunActs(cap, acts + [ActRestart(session)]); cap > 0 && e in Rows(r.rows, r.log.counter + 1)
    ensures LastWrittenBy(cap, acts, j, e.seqNo) && e == ReadBack(e.seqNo, acts[j].data)
    ensures session == "" || acts[j].session == session
  {
    hide *;
    RestartRows(cap, acts, session);
    RowsAreLastWrites(cap, acts, e.seqNo);
    var r := RunActs(cap, acts + [ActRestart(session)]);
    ListingShows(r.rows, r.log.counter + 1, e);
    j :| LastWrittenBy(cap, acts, j, e.seqNo);
    WrittenByWrite(cap, acts, j, e.seqNo);
    RowByIs(acts[j]);
  }

  lemma RowByIs(a: Act)
    requires IsWrite(a)
    ensures (a.ActAppend? || a.ActUpdate?) && RowBy(a) == Row(a.session, a.data, a.at)
  {
  }

  /** After a restart nothing is live, and numbers go on after the largest row left. */
  lemma RestartCountsOn(s: State, cap: nat, session: string)
    ensures var r := Step(s, cap, ActRestart(session));
            && r.log.entries == [] && (forall k :: k in r.rows ==> k <= r.log.counter)
            && (r.rows != map[] ==> r.log.counter in r.rows) && (r.rows == map[] ==> r.log.counter == 0)
  {
  }

  /* ---------- what a page shows ---------- */

  /** A page of the table: rows as they were written, in order of number. */
  ghost predicate Shows(t: Table, page: seq<Event>) {
    && (forall i, j :: 0 <= i < j < |page| ==> page[i].seqNo < page[j].seqNo)
    && (forall e <- page :: e.seqNo in t && e == ReadBack(e.seqNo, t[e.seqNo].data))
  }

  ghost predicate OnPage(page: seq<Event>, k: nat) {
    exists e <- page :: e.seqNo == k
  }

  lemma RowsShow(t: Table, hi: nat)
    ensures Shows(t, Rows(t, hi)) && forall k :: k in t && k < hi ==> OnPage(Rows(t, hi), k)
  {
    RowsAscend(t, hi);
    forall e | e in Rows(t, hi) ensures e.seqNo in t && e == ReadBack(e.seqNo, t[e.seqNo].data) {
      ListingShows(t, hi, e);
    }
    forall k | k in t && k < hi ensures OnPage(Rows(t, hi), k) {
      ListingShows(t, hi, ReadBack(k, t[k].data));
    }
  }

  /** Paging backwards shows the highest rows below the cursor, as many as the limit. */
  lemma BackwardPageShows(s: State, before: nat, cursor: int, limit: nat, page: seq<Event>)
    requires before > 0 && limit > 0 && IsPage(s, before, cursor, limit, page)
    ensures Shows(s.rows, page) && |page| <= limit && forall e <- page :: e.seqNo < before
    ensures forall k :: k in s.rows && k < before && !OnPage(page, k) ==>
                          |page| == limit && forall e <- page :: k < e.seqNo
  {
    hide *;
    BackwardPageIs(s, before, cursor, limit, page);
    RowsShow(s.rows, before);
    RowsAscend(s.rows, before);
    LastOfAll(s.rows, Rows(s.rows, before), before, limit);
  }

  lemma BackwardPageIs(s: State, before: nat, cursor: int, limit: nat, page: seq<Event>)
    requires before > 0 && IsPage(s, before, cursor, limit, page)
    ensures page == Suffix(Rows(s.rows, before), limit)
  {
  }

  lemma LastOfAll(t: Table, all: seq<Event>, before: nat, limit: nat)
    requires Shows(t, all) && (forall i :: 0 <= i < |all| ==> all[i].seqNo < before)
    requires forall k :: k in t && k < before ==> OnPage(all, k)
    ensures var page := Suffix(all, limit);
            && Shows(t, page) && |page| <= limit && (forall e <- page :: e.seqNo < before)
            && (forall k :: k in t && k < before && !OnPage(page, k) ==>
                              |page| == limit && forall e <- page :: k < e.seqNo)
  {
    var d := |all| - |Suffix(all, limit)|;
    TailShows(t, all, d);
    forall k | k in t && k < before && !OnPage(all[d..], k) ensures forall e <- all[d..] :: k < e.seqNo {
      BelowTheTail(all, d, k);
    }
  }

  lemma TailShows(t: Table, all: seq<Event>, d: nat)
    requires Shows(t, all) && d <= |all|
    ensures Shows(t, all[d..])
  {
    hide ReadBack;
    forall e | e in all[d..] ensures e in all {
    }
  }

  lemma BelowTheTail(all: seq<Event>, d: nat, k: nat)
    requires d <= |all| && (forall i, j :: 0 <= i < j < |all| ==> all[i].seqNo < all[j].seqNo)
    requires OnPage(all, k) && !OnPage(all[d..], k)
    ensures d > 0 && forall e <- all[d..] :: k < e.seqNo
  {
    var e :| e in all && e.seqNo == k;
    var i :| 0 <= i < |all| && all[i] == e;
    forall j | d <= j < |all| ensures all[j].seqNo != k {
      assert all[d..][j - d] in all[d..];
    }
    assert i < d;
  }

  /** Reading forward where nothing live is newer shows the lowest rows above the cursor. */
  lemma ForwardPageShows(s: State, cursor: nat, limit: nat, page: seq<Event>)
    requires cursor > 0 && limit > 0 && IsPage(s, 0, cursor, limit, page)
    requires forall e <- s.log.entries :: e.seqNo <= cursor
    ensures Shows(s.rows, page) && |page| <= limit && forall e <- page :: e.seqNo > cursor
    ensures forall k :: k in s.rows && k > cursor && !OnPage(page, k) ==>
                          |page| == limit && forall e <- page :: e.seqNo < k
  {
    hide *;
    var top := MaxSeq(s.rows) + 1;
    NothingAfter(s.log.entries, cursor);
    RowsShow(s.rows, top);
    RowsAfterShow(s.rows, Rows(s.rows, top), cursor);
    FirstOfAll(s.rows, After(Rows(s.rows, top), cursor), cursor, limit);
    ForwardPageIs(s, cursor, limit, page);
  }

  lemma ForwardPageIs(s: State, cursor: nat, limit: nat, page: seq<Event>)
    requires cursor > 0 && IsPage(s, 0, cursor, limit, page) && After(s.log.entries, cursor) == []
    ensures page == Take(After(Rows(s.rows, MaxSeq(s.rows) + 1), cursor), limit)
  {
    hide After, Rows, Take, MaxSeq;
  }

  lemma LivePageIs(s: State, cursor: nat, limit: nat, page: seq<Event>)
    requires IsPage(s, 0, cursor, limit, page) && After(s.log.entries, cursor) != []
    ensures page == if cursor > 0 then After(s.log.entries, cursor) else Suffix(After(s.log.entries, cursor), limit)
  {
    hide After, Rows, Take, MaxSeq, NewestByText;
  }

  lemma {:induction false} NothingAfter(es: seq<Event>, k: nat)
    requires forall e <- es :: e.seqNo <= k
    ensures After(es, k) == []
  {
    if es != [] {
      NothingAfter(es[..|es| - 1], k);
      assert es[|es| - 1] in es;
    }
  }

  lemma RowsAfterShow(t: Table, rows: seq<Event>, cursor: nat)
    requires Shows(t, rows) && forall k :: k in t ==> OnPage(rows, k)
    ensures Shows(t, After(rows, cursor)) && (forall e <- After(rows, cursor) :: e.seqNo > cursor)
    ensures forall k :: k in t && k > cursor ==> OnPage(After(rows, cursor), k)
  {
    AfterMembers(rows, cursor);
    AfterAscends(rows, cursor);
    forall k | k in t && k > cursor ensures OnPage(After(rows, cursor), k) {
      var e :| e in rows && e.seqNo == k;
      assert e in After(rows, cursor);
    }
  }

  lemma FirstOfAll(t: Table, all: seq<Event>, cursor: nat, limit: nat)
    requires Shows(t, all) && (forall e <- all :: e.seqNo > cursor)
    requires forall k :: k in t && k > cursor ==> OnPage(all, k)
    ensures var page := Take(all, limit);
            && Shows(t, page) && |page| <= limit && (forall e <- page :: e.seqNo > cursor)
            && (forall k :: k in t && k > cursor && !OnPage(page, k) ==>
                              |page| == limit && forall e <- page :: e.seqNo < k)
  {
    var page := Take(all, limit);
    forall i | 0 <= i < |page| ensures OnPage(page, all[i].seqNo) && all[i] == page[i] {
      assert page[i] in page;
    }
    forall e | e in page ensures e in all {
    }
    forall k | k in t && k > cursor && !OnPage(page, k)
      ensures |page| == limit && forall e <- page :: e.seqNo < k
    {
      var e :| e in all && e.seqNo == k;
      var i :| 0 <= i < |all| && all[i] == e;
    }
  }

  lemma {:induction false} AfterAscends(es: seq<Event>, k: nat)
    requires forall i, j :: 0 <= i < j < |es| ==> es[i].seqNo < es[j].seqNo
    ensures forall i, j :: 0 <= i < j < |After(es, k)| ==> After(es, k)[i].seqNo < After(es, k)[j].seqNo
  {
    if es != [] {
      var n := |es| - 1;
      AfterAscends(es[..n], k);
      AfterMembers(es[..n], k);
      forall i | 0 <= i < |After(es[..n], k)| ensures After(es[..n], k)[i].seqNo < es[n].seqNo {
        var e := After(es[..n], k)[i];
        assert e in es[..n];
      }
    }
  }

  /** Otherwise a page is live: everything newer than the cursor, or the last entries,
      as many as the limit. */
  lemma LivePageShows(s: State, cursor: nat, limit: nat, page: seq<Event>)
    requires limit > 0 && IsPage(s, 0, cursor, limit, page) && Coherent(s)
    requires exists e <- s.log.entries :: e.seqNo > cursor
    ensures page != [] && |page| <= |s.log.entries| && page == s.log.entries[|s.log.entries| - |page|..]
    ensures if cursor > 0 then forall e <- s.log.entries :: e in page <==> e.seqNo > cursor
            else |page| == if |s.log.entries| < limit then |s.log.entries| else limit
  {
    hide *;
    CoherentIsDense(s);
    SomeAfter(s.log, cursor);
    LivePageIs(s, cursor, limit, page);
    if cursor == 0 {
      AllLiveAfterZero(s.log);
      SuffixIs(s.log.entries, limit);
    }
  }

  lemma CoherentIsDense(s: State)
    requires Coherent(s)
    ensures Dense(s.log)
  {
  }

  lemma SuffixIs(es: seq<Event>, n: nat)
    ensures var r := Suffix(es, n); |r| <= |es| && r == es[|es| - |r|..]
  {
  }

  lemma SomeAfter(l: Log, cursor: nat)
    requires Dense(l) && exists e <- l.entries :: e.seqNo > cursor
    ensures var live := After(l.entries, cursor);
            && live != [] && |live| <= |l.entries| && live == l.entries[|l.entries| - |live|..]
            && forall e <- l.entries :: e in live <==> e.seqNo > cursor
  {
    AfterMembers(l.entries, cursor);
    AfterOfDense(l, cursor);
    hide After, Dense;
  }

  /** A request may ask for 1 to 1000 events; more is cut to that, and nothing asked is 200. */
  lemma LimitIsClamped(asked: int)
    ensures PageLimit(asked) == asked <==> 1 <= asked <= 1000
    ensures PageLimit(asked) == 200 <==> asked <= 0 || asked == 200
    ensures PageLimit(asked) == 1000 <==> asked >= 1000
  {
  }
}
