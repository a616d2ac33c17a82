/** The capped circular buffer of live events.  Every method is stated on the
    log it represents: the counter and the entries from oldest to newest. */
module EventBuf {
  import opened EventLog

  /** Where the i-th oldest entry of a ring of size `cap` lives. */
  function Slot(head: nat, i: nat, cap: nat): (k: nat)
    requires head < cap && i <= cap
    ensures k == (head + i) % cap && k < cap
  {
    if head + i < cap then head + i else WrapsOnce(head + i, cap); head + i - cap
  }

  lemma WrapsOnce(x: nat, cap: nat)
    requires 0 < cap <= x < 2 * cap
    ensures x % cap == x - cap
  {
    var q := x / cap;
    assert x == q * cap + x % cap;
    if q >= 2 {
      TimesGrows(2, q, cap);
    }
  }

  lemma TimesGrows(a: nat, b: nat, k: nat)
    requires a <= b
    ensures a * k <= b * k
  {
  }

  class EventBuffer {
    const cap: nat
    const buf: array<Event>
    var counter: nat
    var head: nat   // index of the oldest entry
    var count: nat  // entries currently held

    ghost predicate Valid()
      reads this
    {
      0 < cap == buf.Length && head < cap && count <= cap
    }

    ghost function Contents(): (es: seq<Event>)
      requires Valid()
      reads this, buf
      ensures |es| == count
    {
      seq(count, i requires 0 <= i < count && Valid() reads this, buf => buf[Slot(head, i, cap)])
    }

    ghost function View(): Log
      requires Valid()
      reads this, buf
    {
      Log(counter, Contents())
    }

    constructor (cap: nat)
      requires cap > 0
      ensures Valid() && this.cap == cap && fresh(buf) && View() == Log(0, [])
    {
      this.cap := cap;
      buf := new Event[cap](_ => Event(0, NO_DATA));
      counter, head, count := 0, 0, 0;
    }

    method Append(data: Data) returns (n: nat)
      requires Valid()
      modifies this, buf
      ensures Valid() && n == counter == old(counter) + 1
      ensures View() == Push(old(View()), cap, data)
    {
      ghost var was := Contents();
      counter := counter + 1;
      var e := Event(counter, data);
      if count < cap {
        buf[Slot(head, count, cap)] := e;
        count := count + 1;
        assert Contents() == was + [e];
      } else {
        buf[head] := e;
        head := Slot(head, 1, cap);
        assert Contents() == (was + [e])[1..];
      }
      n := counter;
    }

    /** Events numbered after `afterSeq`, oldest first. */
    method Since(afterSeq: nat) returns (result: seq<Event>)
      requires Valid()
      ensures result == After(Contents(), afterSeq)
    {
      result := [];
      for i := 0 to count
        invariant result == After(Contents()[..i], afterSeq)
      {
        var e := buf[Slot(head, i, cap)];
        assert Contents()[..i + 1][..i] == Contents()[..i] && Contents()[..i + 1][i] == e;
        if e.seqNo > afterSeq {
          result := result + [e];
        }
      }
      assert Contents()[..count] == Contents();
    }

    method LastSeq() returns (n: nat)
      ensures n == counter
    {
      n := counter;
    }

    method LastEvent() returns (e: Event)
      requires Valid()
      ensures e == if Contents() == [] then Event(0, NO_DATA) else Contents()[|Contents()| - 1]
    {
      if count == 0 {
        return Event(0, NO_DATA);
      }
      e := buf[Slot(head, count - 1, cap)];
    }

    method InitSeq(lastSeq: nat)
      requires Valid()
      modifies this`counter
      ensures Valid() && View() == old(View()).(counter := lastSeq)
    {
      counter := lastSeq;
    }

    method Reset()
      requires Valid()
      modifies this
      ensures Valid() && View() == Log(0, [])
    {
      counter, head, count := 0, 0, 0;
    }

    /** Rewrite the newest live entry carrying `msgID`, scanning backwards, or
        append. */
    method UpdateOrAppend(msgID: string, data: Data) returns (n: nat, updated: bool)
      requires Valid()
      modifies this, buf
      ensures Valid() && View() == Put(old(View()), cap, msgID, data)
      ensures n == PutSeq(old(View()), msgID) && updated == PutUpdates(old(View()), msgID)
    {
      ghost var was := Contents();
      if msgID != "" {
        var i := count;
        while i > 0
          invariant 0 <= i <= count && Contents() == was
          invariant forall j :: i <= j < count ==> was[j].data.msgId != msgID
        {
          i := i - 1;
          var idx := Slot(head, i, cap);
          if buf[idx].data.msgId == msgID {
            assert i == Newest(was, msgID) by {
              assert was[i] == buf[idx];
            }
            buf[idx] := Event(buf[idx].seqNo, data);
            assert Contents() == was[i := Event(was[i].seqNo, data)];
            return buf[idx].seqNo, true;
          }
          assert was[i] == buf[idx];
        }
        assert Newest(was, msgID) == -1;
      }
      n := Append(data);
      updated := false;
    }
  }
}
