/** The stream readers: bytes arrive in chunks cut anywhere, lines go to the
    parser.  The pipe and terminal readers share this loop. */
module LineReader {

  type Line = seq<char>

  const NL: char := '\n'

  /** strings.Split(s, "\n"): one more piece than there are newlines. */
  function Split(s: Line): (ls: seq<Line>)
    ensures |ls| > 0
  {
    if s == [] then [[]]
    else Extended(Split(s[..|s| - 1]), s[|s| - 1])
  }

  /** One more character: a newline opens a new piece, any other goes to the last. */
  function Extended(ls: seq<Line>, c: char): (r: seq<Line>)
    requires |ls| > 0
    ensures |r| > 0
  {
    if c == NL then ls + [[]] else ls[..|ls| - 1] + [ls[|ls| - 1] + [c]]
  }

  function Last(ls: seq<Line>): Line
    requires |ls| > 0
  {
    ls[|ls| - 1]
  }

  function Front(ls: seq<Line>): seq<Line>
    requires |ls| > 0
  {
    ls[..|ls| - 1]
  }

  /** What the parser gets from these lines: trimmed, empty ones dropped. */
  function Handed(trim: Line -> Line, ls: seq<Line>): seq<Line> {
    if ls == [] then []
    else
      var t := trim(Last(ls));
      Handed(trim, Front(ls)) + if t == [] then [] else [t]
  }

  /** The trims at the increasing places `at`, which are those that are not empty. */
  ghost predicate PickedAt(trim: Line -> Line, pieces: seq<Line>, at: seq<nat>, handed: seq<Line>) {
    && |at| == |handed|
    && (forall i, j :: 0 <= i < j < |at| ==> at[i] < at[j])
    && (forall i :: 0 <= i < |at| ==> at[i] < |pieces| && handed[i] == trim(pieces[at[i]]))
    && (forall k :: 0 <= k < |pieces| ==> (trim(pieces[k]) != [] <==> k in at))
  }

  /** Exactly the pieces that are not blank, trimmed, in order. */
  ghost predicate Picked(trim: Line -> Line, pieces: seq<Line>, handed: seq<Line>) {
    exists at :: PickedAt(trim, pieces, at, handed)
  }

  lemma OneMorePicked(trim: Line -> Line, pieces: seq<Line>, at: seq<nat>, handed: seq<Line>, piece: Line)
    requires PickedAt(trim, pieces, at, handed)
    ensures var t := trim(piece);
            Picked(trim, pieces + [piece], handed + if t == [] then [] else [t])
  {
    var n, t, all := |pieces|, trim(piece), pieces + [piece];
    assert all[n] == piece && forall k :: 0 <= k < n ==> all[k] == pieces[k];
    assert forall k :: k in at ==> k < n;
    if t == [] {
      assert handed + [] == handed;
      assert PickedAt(trim, all, at, handed);
    } else {
      var next := at + [n];
      forall k | 0 <= k < |all| ensures trim(all[k]) != [] <==> k in next {
        assert k in next <==> k in at || k == n;
      }
      forall i | 0 <= i < |next| ensures next[i] < |all| && (handed + [t])[i] == trim(all[next[i]]) {
      }
      hide Picked;
      assert PickedAt(trim, all, next, handed + [t]);
      PickedIs(trim, all, next, handed + [t]);
    }
  }

  lemma PickedIs(trim: Line -> Line, pieces: seq<Line>, at: seq<nat>, handed: seq<Line>)
    requires PickedAt(trim, pieces, at, handed)
    ensures Picked(trim, pieces, handed)
  {
  }

  lemma {:induction false} HandedIsPicked(trim: Line -> Line, ls: seq<Line>)
    ensures Picked(trim, ls, Handed(trim, ls))
  {
    if ls == [] {
      assert PickedAt(trim, ls, [], []);
    } else {
      HandedIsPicked(trim, Front(ls));
      var at :| PickedAt(trim, Front(ls), at, Handed(trim, Front(ls)));
      OneMorePicked(trim, Front(ls), at, Handed(trim, Front(ls)), Last(ls));
      assert Front(ls) + [Last(ls)] == ls;
    }
  }

  /** Lines as the other side sends them: each one closed. */
  function Closed(lines: seq<Line>): Line {
    if lines == [] then [] else Closed(Front(lines)) + Last(lines) + [NL]
  }

  ghost predicate CleanLines(trim: Line -> Line, lines: seq<Line>) {
    forall l <- lines :: l != [] && NL !in l && trim(l) == l
  }

  lemma CleanFront(trim: Line -> Line, lines: seq<Line>)
    requires lines != [] && CleanLines(trim, lines)
    ensures CleanLines(trim, Front(lines)) && lines == Front(lines) + [Last(lines)]
    ensures Last(lines) != [] && NL !in Last(lines) && trim(Last(lines)) == Last(lines)
  {
    assert Last(lines) in lines;
    forall l | l in Front(lines) ensures l in lines {
    }
  }

  lemma {:induction false} SplitOfClosed(trim: Line -> Line, lines: seq<Line>)
    requires CleanLines(trim, lines)
    ensures Split(Closed(lines)) == lines + [[]]
  {
    hide CleanLines;
    if lines == [] {
      assert Split([]) == [[]];
    } else {
      hide Split;
      var front, last := Front(lines), Last(lines);
      CleanFront(trim, lines);
      SplitOfClosed(trim, front);
      OneMoreClosed(Closed(front), front, last);
    }
  }

  lemma OneMoreClosed(s: Line, front: seq<Line>, last: Line)
    requires Split(s) == front + [[]] && NL !in last
    ensures Split(s + last + [NL]) == front + [last] + [[]]
  {
    hide Split;
    SplitAcross(s, last);
    assert Last(front + [[]]) == [] && Front(front + [[]]) == front && [] + last == last;
    SplitOfLine(last);
    SplitStep(s + last, NL);
  }

  lemma {:induction false} CleanLinesAreHanded(trim: Line -> Line, lines: seq<Line>)
    requires CleanLines(trim, lines)
    ensures Handed(trim, lines) == lines
  {
    hide CleanLines;
    if lines != [] {
      CleanFront(trim, lines);
      CleanLinesAreHanded(trim, Front(lines));
    }
  }

  lemma ClosedLinesAreHanded(trim: Line -> Line, lines: seq<Line>, chunks: seq<Line>)
    requires CleanLines(trim, lines) && trim([]) == [] && Concat(chunks) == Closed(lines)
    ensures HandedBy(trim, chunks) == lines && Handed(trim, [BufferAfter(chunks)]) == []
  {
    SplitOfClosed(trim, lines);
    CleanLinesAreHanded(trim, lines);
    ReadsAsOneStream(trim, chunks);
    hide CleanLines, Split, Closed, Concat, HandedBy, BufferAfter;
    assert Front(lines + [[]]) == lines;
    assert Handed(trim, [[]][..0]) == [];
  }

  function Concat(chunks: seq<Line>): Line {
    if chunks == [] then [] else Concat(Front(chunks)) + Last(chunks)
  }

  /** One read: complete lines are handed on, the rest stays in the buffer. */
  method TakeChunk(trim: Line -> Line, lineBuffer: Line, text: Line) returns (buffer: Line, handed: seq<Line>)
    requires trim([]) == []
    ensures buffer == Last(Split(lineBuffer + text))
    ensures handed == Handed(trim, Front(Split(lineBuffer + text)))
    ensures Picked(trim, Front(Split(lineBuffer + text)), handed)
  {
    var content := lineBuffer + text;
    var lines := Split(content);
    buffer := [];
    if |lines| > 0 && !(|content| > 0 && content[|content| - 1] == NL) {
      buffer := lines[|lines| - 1];
      lines := lines[..|lines| - 1];
    }
    handed := [];
    for i := 0 to |lines|
      invariant handed == Handed(trim, lines[..i])
    {
      assert lines[..i + 1][..i] == lines[..i];
      var line := trim(lines[i]);
      if line != [] {
        handed := handed + [line];
      }
    }
    assert lines[..|lines|] == lines;
    HandedIsPicked(trim, Front(Split(lineBuffer + text)));
  }

  /** The whole loop.  `inTime` are the lines handed on while reading, `remainder`
      what is handed on at the end of the stream, if anything. */
  method ReadOutput(trim: Line -> Line, chunks: seq<Line>) returns (inTime: seq<Line>, remainder: seq<Line>)
    requires trim([]) == []
    ensures inTime == HandedBy(trim, chunks) == Handed(trim, Front(Split(Concat(chunks))))
    ensures remainder == Handed(trim, [BufferAfter(chunks)])
    ensures inTime + remainder == Handed(trim, Split(Concat(chunks)))
    ensures Picked(trim, Split(Concat(chunks)), inTime + remainder)
    ensures forall lines :: CleanLines(trim, lines) && Concat(chunks) == Closed(lines) ==>
                              inTime == lines && remainder == []
  {
    hide *;
    var lineBuffer: Line := [];
    inTime := [];
    NothingRead(trim);
    for i := 0 to |chunks|
      invariant lineBuffer == BufferAfter(chunks[..i]) && NL !in lineBuffer
      invariant inTime == HandedBy(trim, chunks[..i])
    {
      OneMoreRead(trim, chunks, i);
      if |chunks[i]| > 0 {
        var handed;
        lineBuffer, handed := TakeChunk(trim, lineBuffer, chunks[i]);
        inTime := inTime + handed;
      }
    }
    assert chunks[..|chunks|] == chunks;
    var last := trim(lineBuffer);
    remainder := if last != [] then [last] else [];
    ReadingEnds(trim, chunks);
    HandedOfOne(trim, lineBuffer);
  }

  lemma NothingRead(trim: Line -> Line)
    ensures BufferAfter([]) == [] && HandedBy(trim, []) == []
  {
  }

  lemma OneMoreRead(trim: Line -> Line, chunks: seq<Line>, i: nat)
    requires i < |chunks| && NL !in BufferAfter(chunks[..i])
    ensures var pieces := Split(BufferAfter(chunks[..i]) + chunks[i]);
            && BufferAfter(chunks[..i + 1]) == Last(pieces) && NL !in Last(pieces)
            && HandedBy(trim, chunks[..i + 1]) == HandedBy(trim, chunks[..i]) + Handed(trim, Front(pieces))
    ensures chunks[i] == [] ==> BufferAfter(chunks[..i + 1]) == BufferAfter(chunks[..i])
                                && HandedBy(trim, chunks[..i + 1]) == HandedBy(trim, chunks[..i])
  {
    var buffer, chunk := BufferAfter(chunks[..i]), chunks[i];
    assert chunks[..i + 1][..i] == chunks[..i];
    LinesAreClosed(buffer + chunk);
    hide Split;
    if chunk == [] {
      assert buffer + chunk == buffer;
      SplitOfLine(buffer);
    }
  }

  lemma HandedOfOne(trim: Line -> Line, piece: Line)
    ensures Handed(trim, [piece]) == if trim(piece) == [] then [] else [trim(piece)]
  {
    assert Handed(trim, [piece][..0]) == [];
  }

  lemma ReadingEnds(trim: Line -> Line, chunks: seq<Line>)
    requires trim([]) == []
    ensures var inTime, remainder := HandedBy(trim, chunks), Handed(trim, [BufferAfter(chunks)]);
            && inTime == Handed(trim, Front(Split(Concat(chunks))))
            && inTime + remainder == Handed(trim, Split(Concat(chunks)))
            && Picked(trim, Split(Concat(chunks)), inTime + remainder)
            && forall lines :: CleanLines(trim, lines) && Concat(chunks) == Closed(lines) ==>
                                 inTime == lines && remainder == []
  {
    hide *;
    ReadsAsOneStream(trim, chunks);
    var pieces := Split(Concat(chunks));
    assert pieces == Front(pieces) + [BufferAfter(chunks)] by { FrontAndLast(pieces); }
    HandedOfConcat(trim, Front(pieces), [BufferAfter(chunks)]);
    HandedIsPicked(trim, pieces);
    forall lines | CleanLines(trim, lines) && Concat(chunks) == Closed(lines)
      ensures HandedBy(trim, chunks) == lines && Handed(trim, [BufferAfter(chunks)]) == []
    {
      ClosedLinesAreHanded(trim, lines, chunks);
    }
  }

  lemma FrontAndLast(ls: seq<Line>)
    requires |ls| > 0
    ensures ls == Front(ls) + [Last(ls)]
  {
  }

  /** Splitting a longer stream: the complete lines stay, and the open one takes
      the new bytes. */
  lemma SplitAcross(a: Line, b: Line)
    ensures Split(a + b) == Front(Split(a)) + Split(Last(Split(a)) + b)
    ensures Front(Split(a + b)) == Front(Split(a)) + Front(Split(Last(Split(a)) + b))
    ensures Last(Split(a + b)) == Last(Split(Last(Split(a)) + b))
  {
    SplitExtends(a, b);
  }

  lemma {:induction false} SplitExtends(a: Line, b: Line)
    ensures Split(a + b) == Front(Split(a)) + Split(Last(Split(a)) + b)
    decreases |b|
  {
    hide Split, Extended;
    var front, last := Front(Split(a)), Last(Split(a));
    if b == [] {
      assert a + b == a && last + b == last;
      LinesAreClosed(a);
      SplitOfLine(last);
    } else {
      var n := |b| - 1;
      var c := b[n];
      assert a + b == (a + b[..n]) + [c] && last + b == (last + b[..n]) + [c];
      SplitStep(a + b[..n], c);
      SplitExtends(a, b[..n]);
      ExtendedBehind(front, Split(last + b[..n]), c);
      SplitStep(last + b[..n], c);
    }
  }

  lemma ExtendedBehind(p: seq<Line>, q: seq<Line>, c: char)
    requires |q| > 0
    ensures Extended(p + q, c) == p + Extended(q, c)
  {
  }

  lemma {:induction false} SplitOfLine(s: Line)
    requires NL !in s
    ensures Split(s) == [s]
  {
    if s != [] {
      var p, c := s[..|s| - 1], s[|s| - 1];
      assert s == p + [c] && c in s;
      SplitOfLine(p);
      hide Split;
      SplitStep(p, c);
    }
  }

  /** No piece contains a newline. */
  lemma {:induction false} LinesAreClosed(s: Line)
    ensures forall i :: 0 <= i < |Split(s)| ==> NL !in Split(s)[i]
  {
    if s != [] {
      LinesAreClosed(s[..|s| - 1]);
    }
  }

  function Joined(ls: seq<Line>): Line
    requires |ls| > 0
  {
    if |ls| == 1 then ls[0] else Joined(Front(ls)) + [NL] + Last(ls)
  }

  lemma {:induction false} JoinedStep(front: seq<Line>, last: Line)
    requires |front| > 0
    ensures Joined(front + [last]) == Joined(front) + ([NL] + last)
  {
    assert Front(front + [last]) == front;
  }

  lemma {:induction false} JoinedWithMore(ls: seq<Line>, c: char)
    requires |ls| > 0
    ensures Joined(Extended(ls, c)) == Joined(ls) + [c]
  {
    if c == NL {
      JoinedStep(ls, []);
    } else if |ls| > 1 {
      var last := Last(ls);
      assert ls == Front(ls) + [last];
      JoinedStep(Front(ls), last);
      JoinedStep(Front(ls), last + [c]);
      assert [NL] + (last + [c]) == ([NL] + last) + [c];
    }
  }

  lemma SplitStep(p: Line, c: char)
    ensures Split(p + [c]) == Extended(Split(p), c)
  {
    assert (p + [c])[..|p|] == p;
  }

  /** The pieces, put back together, are the stream: splitting loses nothing. */
  lemma {:induction false} SplitLosesNothing(s: Line)
    ensures Joined(Split(s)) == s
  {
    if s != [] {
      var p, c := s[..|s| - 1], s[|s| - 1];
      assert s == p + [c];
      SplitLosesNothing(p);
      SplitStep(p, c);
      JoinedWithMore(Split(p), c);
    }
  }

  lemma {:induction false} HandedOfConcat(trim: Line -> Line, a: seq<Line>, b: seq<Line>)
    ensures Handed(trim, a + b) == Handed(trim, a) + Handed(trim, b)
    decreases |b|
  {
    if b == [] {
      assert a + b == a;
    } else {
      HandedOfConcat(trim, a, Front(b));
      assert Front(a + b) == a + Front(b);
    }
  }

  /** The loop as a function of how the stream was cut. */
  function BufferAfter(chunks: seq<Line>): Line {
    if chunks == [] then [] else Last(Split(BufferAfter(Front(chunks)) + Last(chunks)))
  }

  function HandedBy(trim: Line -> Line, chunks: seq<Line>): seq<Line> {
    if chunks == [] then []
    else HandedBy(trim, Front(chunks)) + Handed(trim, Front(Split(BufferAfter(Front(chunks)) + Last(chunks))))
  }

  lemma {:induction false} ReadsAsOneStream(trim: Line -> Line, chunks: seq<Line>)
    ensures BufferAfter(chunks) == Last(Split(Concat(chunks)))
    ensures HandedBy(trim, chunks) == Handed(trim, Front(Split(Concat(chunks))))
  {
    if chunks != [] {
      ReadsAsOneStream(trim, Front(chunks));
      SplitAcross(Concat(Front(chunks)), Last(chunks));
      HandedOfConcat(
        trim, Front(Split(Concat(Front(chunks)))), Front(Split(BufferAfter(Front(chunks)) + Last(chunks))));
    }
  }

  /** However a stream is cut into reads, the parser gets the same lines, and the
      same remainder is left at the end. */
  lemma CutsDoNotMatter(trim: Line -> Line, one: seq<Line>, two: seq<Line>)
    requires Concat(one) == Concat(two)
    ensures HandedBy(trim, one) == HandedBy(trim, two) && BufferAfter(one) == BufferAfter(two)
  {
    ReadsAsOneStream(trim, one);
    ReadsAsOneStream(trim, two);
  }
}
