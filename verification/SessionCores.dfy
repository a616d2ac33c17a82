/** A session switch, reduced to what identifies an event: who says it, what it
    says, and under which id.  The buffer is first filled with the history of the
    new session and then receives every event of that session again. */
module SessionCores {

  datatype Core = Core(role: string, text: string, kind: string, id: string)

  /** The newest position holding `id`, or -1. */
  function NewestCore(es: seq<Core>, id: string): (i: int)
    ensures -1 <= i < |es|
    ensures 0 <= i ==> es[i].id == id
    ensures i < 0 ==> forall j :: 0 <= j < |es| ==> es[j].id != id
  {
    if es == [] then -1
    else if es[|es| - 1].id == id then |es| - 1
    else NewestCore(es[..|es| - 1], id)
  }

  /** A user message equal to the newest entry is taken for an echo. */
  predicate Echo(es: seq<Core>, c: Core) {
    c.role == "user" && es != [] && es[|es| - 1].role == "user" && es[|es| - 1].text == c.text
  }

  function Deliver(es: seq<Core>, c: Core): seq<Core> {
    if Echo(es, c) then es
    else
      var i := NewestCore(es, c.id);
      if c.id != "" && i >= 0 then es[i := c] else es + [c]
  }

  function DeliverAll(es: seq<Core>, cs: seq<Core>): seq<Core> {
    if cs == [] then es else Deliver(DeliverAll(es, cs[..|cs| - 1]), cs[|cs| - 1])
  }

  ghost predicate DistinctIds(es: seq<Core>) {
    && (forall i :: 0 <= i < |es| ==> es[i].id != "")
    && (forall i, j :: 0 <= i < j < |es| ==> es[i].id != es[j].id)
  }

  /** Every entry is what `want` says under its id, or its id is still `stale`. */
  ghost predicate Good(es: seq<Core>, want: seq<Core>, stale: set<string>) {
    DistinctIds(es) && forall i :: 0 <= i < |es| ==> es[i] in want || es[i].id in stale
  }

  /** Shown under its own id, or as a user message with the same text. */
  ghost predicate Shown(es: seq<Core>, want: seq<Core>, c: Core) {
    c in es || (c.role == "user" && exists x :: x in es && x in want && x.role == "user" && x.text == c.text)
  }

  lemma SameIdSameCore(want: seq<Core>, c: Core, d: Core)
    requires DistinctIds(want) && c in want && d in want && c.id == d.id
    ensures c == d
  {
    var i :| 0 <= i < |want| && want[i] == c;
    var j :| 0 <= j < |want| && want[j] == d;
    assert i == j;
  }

  lemma {:induction false} DeliverKeepsGood(es: seq<Core>, want: seq<Core>, stale: set<string>, c: Core)
    requires Good(es, want, stale) && c in want && c.id != ""
    ensures Good(Deliver(es, c), want, stale)
    ensures !Echo(es, c) ==> c in Deliver(es, c) && Good(Deliver(es, c), want, stale - {c.id})
  {
    var r := Deliver(es, c);
    if !Echo(es, c) {
      var i := NewestCore(es, c.id);
      assert r[if i >= 0 then i else |es|] == c;
      forall k | 0 <= k < |r| ensures r[k] in want || r[k].id in stale - {c.id}
      {
        if r[k] != c { assert r[k] == es[k]; }
      }
    }
  }

  /** What is right stays: only an event under the same id could change it. */
  lemma {:induction false} DeliverKeepsWanted(es: seq<Core>, want: seq<Core>, c: Core, x: Core)
    requires DistinctIds(want) && c in want && x in want && x in es
    ensures x in Deliver(es, c)
  {
    var k :| 0 <= k < |es| && es[k] == x;
    var r := Deliver(es, c);
    if x.id == c.id {
      SameIdSameCore(want, c, x);
    }
    assert r[k] == x;
  }

  lemma {:induction false} DeliverShows(es: seq<Core>, want: seq<Core>, c: Core)
    requires Good(es, want, {}) && c in want && c.id != ""
    ensures Shown(Deliver(es, c), want, c)
  {
    if Echo(es, c) {
      var x := es[|es| - 1];
      assert x in es && x in want;
    } else {
      DeliverKeepsGood(es, want, {}, c);
    }
  }

  lemma DeliverKeepsShown(es: seq<Core>, want: seq<Core>, c: Core, x: Core)
    requires DistinctIds(want) && c in want && x in want && Shown(es, want, x)
    ensures Shown(Deliver(es, c), want, x)
  {
    if x in es {
      DeliverKeepsWanted(es, want, c, x);
    } else {
      var y :| y in es && y in want && y.role == "user" && y.text == x.text;
      DeliverKeepsWanted(es, want, c, y);
    }
  }

  /** Deliver the first n of a part of what is wanted to a buffer with nothing stale. */
  lemma {:induction false} DeliverFresh(es: seq<Core>, want: seq<Core>, cs: seq<Core>)
    requires Good(es, want, {}) && DistinctIds(want) && forall i :: 0 <= i < |cs| ==> cs[i] in want
    ensures Good(DeliverAll(es, cs), want, {})
    ensures forall x :: x in want && Shown(es, want, x) ==> Shown(DeliverAll(es, cs), want, x)
    ensures forall x :: x in cs ==> Shown(DeliverAll(es, cs), want, x)
  {
    if cs != [] {
      var n := |cs| - 1;
      DeliverFresh(es, want, cs[..n]);
      var mid := DeliverAll(es, cs[..n]);
      DeliverKeepsGood(mid, want, {}, cs[n]);
      DeliverShows(mid, want, cs[n]);
      forall x | x in want && Shown(mid, want, x)
        ensures Shown(DeliverAll(es, cs), want, x)
      {
        DeliverKeepsShown(mid, want, cs[n], x);
      }
      assert cs == cs[..n] + [cs[n]];
    }
  }

  /** Events that the buffer already holds change nothing. */
  lemma {:induction false} DeliverHeld(es: seq<Core>, cs: seq<Core>)
    requires DistinctIds(es) && forall i :: 0 <= i < |cs| ==> cs[i] in es
    ensures DeliverAll(es, cs) == es
  {
    if cs != [] {
      var n := |cs| - 1;
      DeliverHeld(es, cs[..n]);
      var k :| 0 <= k < |es| && es[k] == cs[n];
      var i := NewestCore(es, cs[n].id);
      assert i == k;
    }
  }

  /** Events that are no echoes clear their own staleness. */
  lemma {:induction false} DeliverSpoken(es: seq<Core>, want: seq<Core>, stale: set<string>, cs: seq<Core>)
    requires Good(es, want, stale) && DistinctIds(want)
    requires forall i :: 0 <= i < |cs| ==> cs[i] in want && cs[i].role != "user"
    requires stale <= Ids(cs)
    ensures Good(DeliverAll(es, cs), want, {})
    ensures forall x :: x in want && x in es ==> x in DeliverAll(es, cs)
    ensures forall x :: x in cs ==> x in DeliverAll(es, cs)
  {
    DeliverSpokenPrefix(es, want, stale, cs, |cs|);
    assert cs[..|cs|] == cs;
    var r := DeliverAll(es, cs);
    forall k | 0 <= k < |r|
      ensures r[k] in want
    {
      assert r[k].id !in stale - Ids(cs);
    }
  }

  function Ids(cs: seq<Core>): set<string> {
    set i | 0 <= i < |cs| :: cs[i].id
  }

  lemma {:induction false} DeliverSpokenPrefix(es: seq<Core>, want: seq<Core>, stale: set<string>, cs: seq<Core>,
                                               n: nat)
    requires Good(es, want, stale) && DistinctIds(want) && n <= |cs|
    requires forall i :: 0 <= i < |cs| ==> cs[i] in want && cs[i].role != "user"
    ensures Good(DeliverAll(es, cs[..n]), want, stale - Ids(cs[..n]))
    ensures forall x :: x in want && x in es ==> x in DeliverAll(es, cs[..n])
    ensures forall i :: 0 <= i < n ==> cs[i] in DeliverAll(es, cs[..n])
  {
    hide Deliver, NewestCore;
    if n == 0 {
      assert stale - Ids(cs[..0]) == stale;
    } else {
      DeliverSpokenPrefix(es, want, stale, cs, n - 1);
      var c := cs[n - 1];
      assert cs[..n][..n - 1] == cs[..n - 1];
      var mid := DeliverAll(es, cs[..n - 1]);
      IdsOfPrefix(cs, n);
      DeliverKeepsGood(mid, want, stale - Ids(cs[..n - 1]), c);
      assert stale - Ids(cs[..n]) == (stale - Ids(cs[..n - 1])) - {c.id};
      KeepsAllWanted(mid, want, c);
    }
  }

  lemma IdsOfPrefix(cs: seq<Core>, n: nat)
    requires 0 < n <= |cs|
    ensures Ids(cs[..n]) == Ids(cs[..n - 1]) + {cs[n - 1].id}
  {
    assert forall i :: 0 <= i < n - 1 ==> cs[..n][i] == cs[..n - 1][i];
    assert cs[..n][n - 1] == cs[n - 1];
  }

  lemma KeepsAllWanted(es: seq<Core>, want: seq<Core>, c: Core)
    requires DistinctIds(want) && c in want
    ensures forall x :: x in want && x in es ==> x in Deliver(es, c)
  {
    forall x | x in want && x in es
      ensures x in Deliver(es, c)
    {
      DeliverKeepsWanted(es, want, c, x);
    }
  }

  lemma {:induction false} DeliverAllOfConcat(es: seq<Core>, a: seq<Core>, b: seq<Core>)
    ensures DeliverAll(es, a + b) == DeliverAll(DeliverAll(es, a), b)
    decreases |b|
  {
    if b == [] {
      assert a + b == a;
    } else {
      DeliverAllOfConcat(es, a, b[..|b| - 1]);
      assert (a + b)[..|a + b| - 1] == a + b[..|b| - 1];
    }
  }

  /** The buffer holds `frozen + past`, the replayed history: messages that no longer
      change, and the message that was newest when the history was read.  Then
      `frozen + grown + newer` arrives: that message as it is by now, and newer
      ones. */
  ghost predicate SwitchShape(frozen: seq<Core>, past: seq<Core>, grown: seq<Core>, newer: seq<Core>) {
    && DistinctIds(frozen + grown + newer)
    && DistinctIds(frozen + past)
    && Ids(past) <= Ids(grown)
  }

  /** Convergence, when the changed message is not by a user: at most one entry per
      id, each saying what the session says now, and nothing of the session missing
      except user events whose text another user entry already shows. */
  lemma SwitchConverges(frozen: seq<Core>, past: seq<Core>, grown: seq<Core>, newer: seq<Core>)
    requires SwitchShape(frozen, past, grown, newer)
    requires forall j :: 0 <= j < |grown| ==> grown[j].role != "user"
    ensures var want := frozen + grown + newer;
            var r := DeliverAll(frozen + past, want);
            Good(r, want, {}) && forall x :: x in want ==> Shown(r, want, x)
  {
    var want, held := frozen + grown + newer, frozen + past;
    DeliveredInParts(frozen, past, grown, newer);
    assert forall x :: x in frozen ==> x in held && x in want;
    assert forall x :: x in grown ==> x in want;
    assert forall i :: 0 <= i < |past| ==> past[i].id in Ids(past);
    assert forall i :: 0 <= i < |grown| ==> grown[i] in want;
    DeliverSpoken(held, want, Ids(past), grown);
    DeliverFresh(DeliverAll(held, grown), want, newer);
  }

  /** What is frozen changes nothing, so it comes down to the changed message and the
      newer ones. */
  lemma DeliveredInParts(frozen: seq<Core>, past: seq<Core>, grown: seq<Core>, newer: seq<Core>)
    requires DistinctIds(frozen + past)
    ensures DeliverAll(frozen + past, frozen + grown + newer) == DeliverAll(DeliverAll(frozen + past, grown), newer)
  {
    var held := frozen + past;
    assert forall x :: x in frozen ==> x in held;
    DeliverHeld(held, frozen);
    DeliverAllOfConcat(held, frozen, grown);
    DeliverAllOfConcat(held, frozen + grown, newer);
  }

  /* ---------- the changed message is by a user ---------- */

  /** `past` and `grown` are one user message before and after: n parts that were
      there, m parts that are there now, and the text, which does not disappear. */
  ghost predicate UserShape(past: seq<Core>, grown: seq<Core>, n: nat, m: nat) {
    && n <= |past| <= n + 1 && n <= m <= |grown| <= m + 1 && (|past| > n ==> |grown| > m)
    && (forall i :: 0 <= i < |past| ==> past[i].role == "user")
    && (forall i :: 0 <= i < |grown| ==> grown[i].role == "user")
    && (forall i :: 0 <= i < n ==> past[i].id == grown[i].id)
    && (|past| > n ==> past[n].id == grown[m].id && past[n].kind == grown[m].kind)
  }

  /** A changed part now reads like the last event replayed, or the changed text reads
      like the last new part: it arrives as an echo and the old version stays. */
  ghost predicate Mistaken(past: seq<Core>, grown: seq<Core>, n: nat, m: nat)
    requires UserShape(past, grown, n, m)
  {
    || (exists k :: 0 <= k < n && grown[k] != past[k] && grown[k].text == past[|past| - 1].text)
    || (|past| > n && m > n && grown[m] != past[n] && grown[m].text == grown[m - 1].text)
  }

  /** The first k old parts, unless they read like the last event. */
  function Patched(past: seq<Core>, parts: seq<Core>, k: nat): (r: seq<Core>)
    requires k <= |parts| <= |past|
    ensures |r| == |past|
  {
    seq(|past|, i requires 0 <= i < |past| =>
      if i < k && parts[i].text != past[|past| - 1].text then parts[i] else past[i])
  }

  ghost predicate SameIds(es: seq<Core>, r: seq<Core>) {
    |es| == |r| && forall i :: 0 <= i < |es| ==> es[i].id == r[i].id
  }

  lemma SameIdsStayDistinct(es: seq<Core>, r: seq<Core>)
    requires DistinctIds(es) && SameIds(es, r)
    ensures DistinctIds(r)
  {
  }

  lemma UpdateAt(es: seq<Core>, c: Core, i: nat)
    requires DistinctIds(es) && i < |es| && es[i].id == c.id && !Echo(es, c)
    ensures Deliver(es, c) == es[i := c]
  {
    assert NewestCore(es, c.id) == i;
  }

  lemma AppendNew(es: seq<Core>, c: Core)
    requires !Echo(es, c) && DistinctIds(es) && c.id != "" && forall i :: 0 <= i < |es| ==> es[i].id != c.id
    ensures Deliver(es, c) == es + [c] && DistinctIds(es + [c])
  {
  }

  lemma {:induction false} DeliverOldParts(frozen: seq<Core>, past: seq<Core>, parts: seq<Core>, k: nat)
    requires DistinctIds(frozen + past) && k <= |parts| <= |past|
    requires forall i :: 0 <= i < |past| ==> past[i].role == "user"
    requires forall i :: 0 <= i < |parts| ==> parts[i].role == "user" && parts[i].id == past[i].id
    ensures DeliverAll(frozen + past, parts[..k]) == frozen + Patched(past, parts, k)
    ensures DistinctIds(frozen + Patched(past, parts, k))
    ensures SameIds(frozen + Patched(past, parts, k), frozen + past)
  {
    var now := frozen + Patched(past, parts, k);
    forall i | 0 <= i < |now| ensures now[i].id == (frozen + past)[i].id {
      if i >= |frozen| {
        assert now[i] == Patched(past, parts, k)[i - |frozen|];
      }
    }
    SameIdsStayDistinct(frozen + past, now);
    if k == 0 {
      assert Patched(past, parts, 0) == past;
    } else {
      DeliverOldParts(frozen, past, parts, k - 1);
      assert parts[..k][..k - 1] == parts[..k - 1];
      DeliverOldPart(frozen, past, parts, k);
    }
  }

  lemma DeliverOldPart(frozen: seq<Core>, past: seq<Core>, parts: seq<Core>, k: nat)
    requires 0 < k <= |parts| <= |past| && DistinctIds(frozen + Patched(past, parts, k - 1))
    requires forall i :: 0 <= i < |past| ==> past[i].role == "user"
    requires forall i :: 0 <= i < |parts| ==> parts[i].role == "user" && parts[i].id == past[i].id
    ensures Deliver(frozen + Patched(past, parts, k - 1), parts[k - 1]) == frozen + Patched(past, parts, k)
  {
    var es, c := frozen + Patched(past, parts, k - 1), parts[k - 1];
    assert es[|es| - 1] == past[|past| - 1];
    if Echo(es, c) {
      assert Patched(past, parts, k) == Patched(past, parts, k - 1);
    } else {
      UpdateAt(es, c, |frozen| + k - 1);
      assert Patched(past, parts, k) == Patched(past, parts, k - 1)[k - 1 := c];
    }
  }

  /** User events under new ids are appended, or read like the newest entry; either way
      the newest entry reads like the last of them. */
  lemma {:induction false} DeliverNewParts(es: seq<Core>, cs: seq<Core>) returns (more: seq<Core>)
    requires DistinctIds(es + cs) && forall i :: 0 <= i < |cs| ==> cs[i].role == "user"
    ensures DeliverAll(es, cs) == es + more && DistinctIds(es + more) && (forall x <- more :: x in cs)
    ensures if cs == [] then more == [] else EndsLike(es + more, cs[|cs| - 1])
  {
    if cs == [] {
      more := [];
      assert es + more == es;
      assert es + cs == es;
    } else {
      var n := |cs| - 1;
      assert (es + cs)[..|es| + n] == es + cs[..n];
      assert DistinctIds(es + cs[..n]);
      more := DeliverNewParts(es, cs[..n]);
      var mid := es + more;
      assert (es + cs)[|es| + n] == cs[n];
      forall i | 0 <= i < |mid| ensures mid[i].id != cs[n].id {
        NewIdIsElsewhere(es, cs, more, i);
      }
      if !Echo(mid, cs[n]) {
        AppendNew(mid, cs[n]);
        more := more + [cs[n]];
        assert es + more == mid + [cs[n]];
      }
    }
  }

  lemma NewIdIsElsewhere(es: seq<Core>, cs: seq<Core>, more: seq<Core>, i: nat)
    requires DistinctIds(es + cs) && cs != [] && i < |es + more| && forall x <- more :: x in cs[..|cs| - 1]
    ensures (es + more)[i].id != cs[|cs| - 1].id
  {
    var n, all := |cs| - 1, es + cs;
    assert all[|es| + n] == cs[n];
    if i < |es| {
      assert all[i] == es[i];
    } else {
      var x := more[i - |es|];
      assert x in more;
      var j :| 0 <= j < n && cs[..n][j] == x;
      assert all[|es| + j] == x;
    }
  }

  predicate EndsLike(es: seq<Core>, c: Core) {
    es != [] && es[|es| - 1].role == "user" && es[|es| - 1].text == c.text
  }

  /** The old parts as they end up: changed, unless mistaken for an echo; and the text
      likewise. */
  ghost predicate UserResult(past: seq<Core>, grown: seq<Core>, n: nat, m: nat, r: seq<Core>)
    requires UserShape(past, grown, n, m)
  {
    && |r| == |past|
    && (forall i :: 0 <= i < n ==> r[i] == if grown[i].text != past[|past| - 1].text then grown[i] else past[i])
    && (|past| > n ==> r[n] == if m > n && grown[m - 1].text == grown[m].text then past[n] else grown[m])
  }

  /** Before the text arrives, the old parts have been dealt with. */
  ghost predicate PartsArrived(frozen: seq<Core>, past: seq<Core>, grown: seq<Core>, n: nat, m: nat, r: seq<Core>,
                               more: seq<Core>)
    requires UserShape(past, grown, n, m)
  {
    && r == Patched(past, grown[..n], n)
    && DistinctIds(frozen + r + more) && (forall x <- more :: x in grown[n..m])
    && (if m > n then EndsLike(frozen + r + more, grown[m - 1]) else more == [])
  }

  lemma NewPartsAreNew(frozen: seq<Core>, past: seq<Core>, grown: seq<Core>, n: nat, m: nat, mid: seq<Core>)
    requires UserShape(past, grown, n, m) && DistinctIds(frozen + past) && DistinctIds(frozen + grown)
    requires SameIds(mid, frozen + past)
    ensures DistinctIds(mid + grown[n..m])
  {
    var all, ids := mid + grown[n..m], frozen + grown;
    forall i | |mid| <= i < |all|
      ensures all[i] == grown[n + (i - |mid|)] && all[i] == ids[|frozen| + n + (i - |mid|)]
    {
    }
    forall i | 0 <= i < |mid|
      ensures exists k :: 0 <= k < |ids| && ids[k].id == all[i].id && !(|frozen| + n <= k < |frozen| + m)
    {
      assert all[i].id == (frozen + past)[i].id;
      if i < |frozen| + n {
        assert ids[i].id == all[i].id;
      } else {
        assert ids[|frozen| + m].id == all[i].id;
      }
    }
    forall i, j | 0 <= i < |mid| <= j < |all| ensures all[i].id != all[j].id {
      var k :| 0 <= k < |ids| && ids[k].id == all[i].id && !(|frozen| + n <= k < |frozen| + m);
      assert ids[|frozen| + n + (j - |mid|)].id == all[j].id;
    }
  }

  lemma PartsArrive(frozen: seq<Core>, past: seq<Core>, grown: seq<Core>, n: nat, m: nat)
    returns (r: seq<Core>, more: seq<Core>)
    requires UserShape(past, grown, n, m) && DistinctIds(frozen + past) && DistinctIds(frozen + grown)
    ensures PartsArrived(frozen, past, grown, n, m, r, more)
    ensures DeliverAll(frozen + past, grown[..m]) == frozen + r + more
  {
    var was, fresher := grown[..n], grown[n..m];
    PartsOfShape(past, grown, n, m);
    hide UserShape, DistinctIds, SameIds, Deliver, DeliverAll, EndsLike, Patched;
    DeliverOldParts(frozen, past, was, n);
    r := Patched(past, was, n);
    var mid := frozen + r;
    assert DeliverAll(frozen + past, was) == mid;
    NewPartsAreNew(frozen, past, grown, n, m, mid);
    more := DeliverNewParts(mid, fresher);
    DeliverAllOfConcat(frozen + past, was, fresher);
  }

  lemma PartsOfShape(past: seq<Core>, grown: seq<Core>, n: nat, m: nat)
    requires UserShape(past, grown, n, m)
    ensures var was, fresher := grown[..n], grown[n..m];
            && was[..n] == was && was + fresher == grown[..m]
            && (fresher != [] ==> fresher[|fresher| - 1] == grown[m - 1])
            && (forall i :: 0 <= i < |was| ==> was[i].role == "user" && was[i].id == past[i].id)
            && (forall i :: 0 <= i < |fresher| ==> fresher[i].role == "user")
            && (forall i :: 0 <= i < |past| ==> past[i].role == "user")
  {
  }

  lemma TextIsKnown(frozen: seq<Core>, past: seq<Core>, grown: seq<Core>, n: nat, m: nat, r: seq<Core>, more: seq<Core>)
    returns (r': seq<Core>)
    requires UserShape(past, grown, n, m) && PartsArrived(frozen, past, grown, n, m, r, more) && |past| > n
    ensures UserResult(past, grown, n, m, r') && Deliver(frozen + r + more, grown[m]) == frozen + r' + more
    ensures DistinctIds(frozen + r' + more) && (grown[m] in r' || EndsLike(frozen + r' + more, grown[m]))
  {
    var es, c := frozen + r + more, grown[m];
    assert es[|frozen| + n] == r[n] == past[n];
    if m == n {
      assert es[|es| - 1] == past[n];
    }
    if Echo(es, c) {
      r' := r;
      assert m == n ==> past[n] == c;
    } else {
      UpdateAt(es, c, |frozen| + n);
      r' := r[n := c];
      assert es[|frozen| + n := c] == frozen + r' + more;
      assert r'[n] in r';
      SameIdsStayDistinct(es, frozen + r' + more);
    }
  }

  lemma TextIsNew(frozen: seq<Core>, past: seq<Core>, grown: seq<Core>, n: nat, m: nat, r: seq<Core>, more: seq<Core>)
    returns (more': seq<Core>)
    requires UserShape(past, grown, n, m) && PartsArrived(frozen, past, grown, n, m, r, more)
    requires |past| == n && |grown| > m && DistinctIds(frozen + past) && DistinctIds(frozen + grown)
    ensures Deliver(frozen + r + more, grown[m]) == frozen + r + more' && DistinctIds(frozen + r + more')
    ensures (forall x <- more' :: x in grown) && (grown[m] in more' || EndsLike(frozen + r + more', grown[m]))
  {
    var es, c := frozen + r + more, grown[m];
    forall x <- more ensures x in grown {
      assert x in grown[n..m];
    }
    assert (frozen + grown)[|frozen| + m] == c;
    assert DistinctIds(es) && c.id != "" && c.role == "user";
    hide UserShape, DistinctIds, Patched;
    if Echo(es, c) {
      more' := more;
    } else {
      forall i | 0 <= i < |es| ensures es[i].id != c.id {
        TextIdIsElsewhere(frozen, past, grown, n, m, r, more, i);
      }
      AppendNew(es, c);
      more' := more + [c];
      assert es + [c] == frozen + r + more';
      assert more'[|more|] in more';
    }
  }

  lemma TextIdIsElsewhere(frozen: seq<Core>, past: seq<Core>, grown: seq<Core>, n: nat, m: nat, r: seq<Core>,
                          more: seq<Core>, i: nat)
    requires UserShape(past, grown, n, m) && PartsArrived(frozen, past, grown, n, m, r, more)
    requires |past| == n && |grown| > m && DistinctIds(frozen + grown) && i < |frozen + r + more|
    ensures (frozen + r + more)[i].id != grown[m].id
  {
    var ids := frozen + grown;
    assert ids[|frozen| + m] == grown[m];
    if i < |frozen| {
      assert ids[i] == frozen[i];
    } else if i < |frozen + r| {
      assert (frozen + r + more)[i] == r[i - |frozen|];
      assert ids[i].id == grown[i - |frozen|].id;
    } else {
      var x := more[i - |frozen + r|];
      assert x in more;
      var j :| 0 <= j < m - n && grown[n..m][j] == x;
      assert ids[|frozen| + n + j] == x;
    }
  }

  lemma UserMessageArrives(frozen: seq<Core>, past: seq<Core>, grown: seq<Core>, n: nat, m: nat)
    returns (r: seq<Core>, more: seq<Core>)
    requires UserShape(past, grown, n, m) && DistinctIds(frozen + past) && DistinctIds(frozen + grown)
    ensures UserResult(past, grown, n, m, r) && DeliverAll(frozen + past, grown) == frozen + r + more
    ensures DistinctIds(frozen + r + more) && (forall x <- more :: x in grown)
    ensures |grown| > m ==> grown[m] in r || grown[m] in more || EndsLike(frozen + r + more, grown[m])
  {
    hide Deliver;
    r, more := PartsArrive(frozen, past, grown, n, m);
    if |grown| > m {
      assert grown == grown[..m] + [grown[m]];
      if |past| > n {
        r := TextIsKnown(frozen, past, grown, n, m, r, more);
      } else {
        more := TextIsNew(frozen, past, grown, n, m, r, more);
      }
    } else {
      assert grown == grown[..m];
    }
    forall x <- more ensures x in grown {
      assert x in grown[n..m] || x in grown;
    }
  }

  lemma {:induction false} OthersStay(es: seq<Core>, cs: seq<Core>, x: Core)
    requires x in es && DistinctIds(es) && forall i :: 0 <= i < |cs| ==> cs[i].id != "" && cs[i].id != x.id
    ensures x in DeliverAll(es, cs) && DistinctIds(DeliverAll(es, cs))
  {
    hide Deliver, DistinctIds;
    if cs != [] {
      var n := |cs| - 1;
      OthersStay(es, cs[..n], x);
      OtherStays(DeliverAll(es, cs[..n]), cs[n], x);
    }
  }

  lemma OtherStays(es: seq<Core>, c: Core, x: Core)
    requires x in es && DistinctIds(es) && c.id != "" && c.id != x.id
    ensures x in Deliver(es, c) && DistinctIds(Deliver(es, c))
  {
    var k :| 0 <= k < |es| && es[k] == x;
    assert Deliver(es, c)[k] == x;
  }

  /** A part or text that is not mistaken ends up as it is now. */
  lemma UnmistakenIsWanted(past: seq<Core>, grown: seq<Core>, n: nat, m: nat, r: seq<Core>)
    requires UserShape(past, grown, n, m) && UserResult(past, grown, n, m, r) && !Mistaken(past, grown, n, m)
    ensures forall x <- r :: x in grown
  {
    forall i | 0 <= i < |r| ensures r[i] in grown {
      if i < n {
        assert r[i] == grown[i];
      } else {
        assert r[i] == grown[m];
      }
    }
  }

  lemma MistakenIsNotWanted(frozen: seq<Core>, past: seq<Core>, grown: seq<Core>, newer: seq<Core>, n: nat, m: nat,
                            r: seq<Core>)
    returns (k: nat)
    requires SwitchShape(frozen, past, grown, newer) && UserShape(past, grown, n, m)
    requires UserResult(past, grown, n, m, r) && Mistaken(past, grown, n, m)
    ensures k < |r| && r[k].id in Ids(grown) && r[k] !in frozen + grown + newer
  {
    var want := frozen + grown + newer;
    if j :| 0 <= j < n && grown[j] != past[j] && grown[j].text == past[|past| - 1].text {
      k := j;
      StaleIsNotWanted(want, grown, j, r[k]);
    } else {
      k := n;
      StaleIsNotWanted(want, grown, m, r[k]);
    }
  }

  lemma StaleIsNotWanted(want: seq<Core>, grown: seq<Core>, j: nat, e: Core)
    requires DistinctIds(want) && (forall x <- grown :: x in want)
    requires j < |grown| && e.id == grown[j].id && e != grown[j]
    ensures e.id in Ids(grown) && e !in want
  {
    assert grown[j] in want;
    if e in want {
      SameIdSameCore(want, e, grown[j]);
    }
  }

  /** Convergence, when the changed message is by a user: exactly when nothing of it is
      mistaken for an echo.  New parts that read like what is newest then may be
      missing; everything else is shown. */
  lemma UserSwitchConvergesExactlyWhen(frozen: seq<Core>, past: seq<Core>, grown: seq<Core>, newer: seq<Core>, n: nat,
                                       m: nat)
    requires SwitchShape(frozen, past, grown, newer) && UserShape(past, grown, n, m)
    ensures var want := frozen + grown + newer;
            var r := DeliverAll(frozen + past, want);
            && DistinctIds(r)
            && (!Mistaken(past, grown, n, m) ==>
                  Good(r, want, {}) && forall x :: x in want && x !in grown[..m] ==> Shown(r, want, x))
            && (Mistaken(past, grown, n, m) ==> exists e :: e in r && e !in want && e.id in Ids(grown))
  {
    var want := frozen + grown + newer;
    assert frozen + grown == want[..|frozen + grown|];
    assert DistinctIds(frozen + grown);
    DeliveredInParts(frozen, past, grown, newer);
    var r, more := UserMessageArrives(frozen, past, grown, n, m);
    var mid := frozen + r + more;
    if Mistaken(past, grown, n, m) {
      var k := MistakenIsNotWanted(frozen, past, grown, newer, n, m, r);
      assert mid[|frozen| + k] == r[k];
      NewerIsElsewhere(frozen, grown, newer, r[k]);
      OthersStay(mid, newer, r[k]);
    } else {
      UnmistakenIsWanted(past, grown, n, m, r);
      UserMessageConverged(frozen, grown, newer, m, r, more);
    }
  }

  lemma NewerIsElsewhere(frozen: seq<Core>, grown: seq<Core>, newer: seq<Core>, e: Core)
    requires DistinctIds(frozen + grown + newer) && e.id in Ids(grown)
    ensures forall i :: 0 <= i < |newer| ==> newer[i].id != "" && newer[i].id != e.id
  {
    var want := frozen + grown + newer;
    var j :| 0 <= j < |grown| && grown[j].id == e.id;
    assert want[|frozen| + j] == grown[j];
    forall i | 0 <= i < |newer| ensures newer[i].id != "" && newer[i].id != e.id {
      assert want[|frozen| + |grown| + i] == newer[i];
    }
  }

  lemma UserMessageConverged(frozen: seq<Core>, grown: seq<Core>, newer: seq<Core>, m: nat, r: seq<Core>,
                             more: seq<Core>)
    requires DistinctIds(frozen + grown + newer) && DistinctIds(frozen + r + more) && m <= |grown| <= m + 1
    requires (forall x <- r :: x in grown) && (forall x <- more :: x in grown)
    requires forall i :: 0 <= i < |grown| ==> grown[i].role == "user"
    requires |grown| > m ==> grown[m] in r || grown[m] in more || EndsLike(frozen + r + more, grown[m])
    ensures var want := frozen + grown + newer;
            var all := DeliverAll(frozen + r + more, newer);
            Good(all, want, {}) && forall x :: x in want && x !in grown[..m] ==> Shown(all, want, x)
  {
    var want, mid := frozen + grown + newer, frozen + r + more;
    assert forall i :: 0 <= i < |mid| ==> mid[i] in mid && mid[i] in want;
    assert grown == grown[..m] + if |grown| > m then [grown[m]] else [];
    if |grown| > m {
      assert mid == [] || (mid[|mid| - 1] in mid && mid[|mid| - 1] in want);
      assert Shown(mid, want, grown[m]);
    }
    hide EndsLike, DeliverAll, DistinctIds;
    DeliverFresh(mid, want, newer);
    forall x | x in want && x !in grown[..m]
      ensures Shown(DeliverAll(mid, newer), want, x)
    {
      if x in frozen {
        assert x in mid;
      }
      assert x in newer || Shown(mid, want, x);
    }
  }

  /* ---------- how much is live ---------- */

  lemma DeliverNeverShrinks(es: seq<Core>, c: Core)
    ensures |es| <= |Deliver(es, c)|
  {
  }

  lemma DeliverKeepsIds(es: seq<Core>, c: Core, ids: set<string>)
    requires DistinctIds(es) && Ids(es) <= ids && c.id != "" && c.id in ids
    ensures DistinctIds(Deliver(es, c)) && Ids(Deliver(es, c)) <= ids
  {
    var r := Deliver(es, c);
    assert forall i :: 0 <= i < |es| ==> es[i].id in Ids(es);
    assert forall i :: 0 <= i < |r| ==> r[i].id in ids;
  }

  lemma {:induction false} DeliverAllKeepsIds(es: seq<Core>, cs: seq<Core>, ids: set<string>)
    requires DistinctIds(es) && Ids(es) <= ids && DistinctIds(cs) && Ids(cs) <= ids
    ensures DistinctIds(DeliverAll(es, cs)) && Ids(DeliverAll(es, cs)) <= ids
  {
    hide Deliver;
    if cs != [] {
      var n := |cs| - 1;
      IdsOfPrefix(cs, |cs|);
      assert cs[..|cs|] == cs;
      DeliverAllKeepsIds(es, cs[..n], ids);
      DeliverKeepsIds(DeliverAll(es, cs[..n]), cs[n], ids);
    }
  }

  lemma {:induction false} AsManyAsIds(cs: seq<Core>)
    ensures |Ids(cs)| <= |cs| && (DistinctIds(cs) ==> |Ids(cs)| == |cs|)
  {
    if cs == [] {
      assert Ids(cs) == {};
    } else {
      var n := |cs| - 1;
      AsManyAsIds(cs[..n]);
      IdsOfPrefix(cs, |cs|);
      assert cs[..|cs|] == cs;
    }
  }

  lemma Cardinality(a: set<string>, b: set<string>)
    requires a <= b
    ensures |a| <= |b|
  {
    assert b == a + (b - a) && a !! b - a;
  }

  lemma FewerThanIds(r: seq<Core>, want: seq<Core>)
    requires DistinctIds(r) && Ids(r) <= Ids(want)
    ensures |r| <= |want|
  {
    AsManyAsIds(r);
    AsManyAsIds(want);
    Cardinality(Ids(r), Ids(want));
  }

  lemma IdsAreAmong(frozen: seq<Core>, past: seq<Core>, grown: seq<Core>, newer: seq<Core>)
    requires Ids(past) <= Ids(grown)
    ensures Ids(frozen + past) <= Ids(frozen + grown + newer)
  {
    var held, want := frozen + past, frozen + grown + newer;
    forall id <- Ids(held) ensures id in Ids(want) {
      var i :| 0 <= i < |held| && held[i].id == id;
      if i < |frozen| {
        assert want[i].id == id;
      } else {
        assert past[i - |frozen|].id in Ids(past);
        var j :| 0 <= j < |grown| && grown[j].id == id;
        assert want[|frozen| + j].id == id;
      }
    }
  }
}
