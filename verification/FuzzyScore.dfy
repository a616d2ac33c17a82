/** How well a fingerprint shows up in a terminal pane: one greedy walk over the
    pane's runes.  Strings are sequences of runes, scores are reals. */
module FuzzyScore {

  function Lower(c: char): char {
    if 'A' <= c <= 'Z' then 'a' + (c - 'A') else c
  }

  predicate FoldEqual(a: char, b: char) {
    a == b || (a < '\U{80}' && b < '\U{80}' && Lower(a) == Lower(b))
  }

  /* ---------- what the score is about ---------- */

  predicate Ascending(p: seq<nat>) {
    forall i, j :: 0 <= i < j < |p| ==> p[i] < p[j]
  }

  /** The positions `p` of the pane spell the whole needle, up to letter case. */
  predicate Spells(hay: string, needle: string, p: seq<nat>) {
    && |p| == |needle|
    && Ascending(p)
    && forall i :: 0 <= i < |p| ==> p[i] < |hay| && FoldEqual(hay[p[i]], needle[i])
  }

  /** The needle is a subsequence of the pane, up to letter case. */
  ghost predicate Embeds(hay: string, needle: string) {
    exists p :: Spells(hay, needle, p)
  }

  predicate OccursAt(hay: string, needle: string, at: nat) {
    at + |needle| <= |hay| && hay[at..at + |needle|] == needle
  }

  ghost predicate Contains(hay: string, needle: string) {
    exists at: nat :: OccursAt(hay, needle, at)
  }

  /** The needle's runes stand side by side from `at`, up to letter case. */
  predicate FoldsAt(hay: string, needle: string, at: nat) {
    at + |needle| <= |hay| && forall i :: 0 <= i < |needle| ==> FoldEqual(hay[at + i], needle[i])
  }

  /* ---------- the greedy walk ---------- */

  /** Where the walk has matched a needle rune within the first `n` pane runes. */
  function Walk(hay: string, needle: string, n: nat): (p: seq<nat>)
    requires n <= |hay|
    ensures |p| <= |needle| && |p| <= n
    ensures |p| > 0 ==> p[|p| - 1] < n
  {
    if n == 0 then []
    else
      var p := Walk(hay, needle, n - 1);
      if |p| < |needle| && FoldEqual(hay[n - 1], needle[|p|]) then p + [n - 1] else p
  }

  /** How many positions at the end are consecutive. */
  function TailRun(p: seq<nat>): (r: nat)
    ensures r <= |p|
    ensures |p| > 0 ==> r > 0
  {
    if |p| <= 1 then |p|
    else if p[|p| - 1] == p[|p| - 2] + 1 then 1 + TailRun(p[..|p| - 1])
    else 1
  }

  function LongestRun(p: seq<nat>): (r: nat)
    ensures r <= |p|
    ensures |p| > 0 ==> r > 0
  {
    if p == [] then 0
    else
      var r := LongestRun(p[..|p| - 1]);
      if TailRun(p) > r then TailRun(p) else r
  }

  function Greedy(hay: string, needle: string): seq<nat> {
    Walk(hay, needle, |hay|)
  }

  ghost function Score(hay: string, needle: string): real {
    if needle == "" then 0.0
    else if Contains(hay, needle) then 1.0
    else if |hay| < |needle| then 0.0
    else
      var p := Greedy(hay, needle);
      if |p| < |needle| then 0.4 * |p| as real / |needle| as real
      else 0.6 + 0.4 * (LongestRun(p) as real / |needle| as real)
  }

  method HasSubstring(hay: string, needle: string) returns (found: bool)
    ensures found == Contains(hay, needle)
  {
    var at := 0;
    while at + |needle| <= |hay|
      invariant forall k: nat :: k < at ==> !OccursAt(hay, needle, k)
    {
      if hay[at..at + |needle|] == needle {
        assert OccursAt(hay, needle, at);
        return true;
      }
      at := at + 1;
    }
    return false;
  }

  method WalkRunes(hay: string, needle: string) returns (matched: nat, bestRun: nat)
    ensures matched == |Greedy(hay, needle)|
    ensures bestRun == LongestRun(Greedy(hay, needle))
  {
    matched, bestRun := 0, 0;
    var curRun, prevMatched := 0, false;
    for i := 0 to |hay|
      invariant matched == |Walk(hay, needle, i)|
      invariant bestRun == LongestRun(Walk(hay, needle, i))
      invariant prevMatched == (matched > 0 && Walk(hay, needle, i)[matched - 1] == i - 1)
      invariant curRun == if prevMatched then TailRun(Walk(hay, needle, i)) else 0
    {
      ghost var p := Walk(hay, needle, i);
      if matched < |needle| && FoldEqual(hay[i], needle[matched]) {
        assert (p + [i])[..|p|] == p;
        matched := matched + 1;
        if prevMatched {
          curRun := curRun + 1;
        } else {
          curRun := 1;
        }
        if curRun > bestRun {
          bestRun := curRun;
        }
        prevMatched := true;
      } else {
        prevMatched := false;
        curRun := 0;
      }
    }
  }

  method FuzzyMatchScore(hay: string, needle: string) returns (score: real)
    ensures score == Score(hay, needle)
  {
    if |needle| == 0 {
      return 0.0;
    }
    var found := HasSubstring(hay, needle);
    if found {
      return 1.0;
    }
    if |hay| < |needle| {
      return 0.0;
    }
    var matched, bestRun := WalkRunes(hay, needle);
    if matched == 0 {
      return 0.0;
    }
    if matched < |needle| {
      return 0.4 * matched as real / |needle| as real;
    }
    var coverage := bestRun as real / |needle| as real;
    return 0.6 + 0.4 * coverage;
  }

  /* ---------- the walk finds as much as there is ---------- */

  lemma {:induction false} WalkSpells(hay: string, needle: string, n: nat)
    requires n <= |hay|
    ensures var p := Walk(hay, needle, n);
            Spells(hay, needle[..|p|], p) && forall i :: 0 <= i < |p| ==> p[i] < n
  {
    if n > 0 {
      WalkSpells(hay, needle, n - 1);
    }
  }

  /** Whatever spells the first `|q|` needle runes inside the first `n` pane runes,
      the walk has found as many. */
  lemma {:induction false} WalkKeepsUp(hay: string, needle: string, n: nat, q: seq<nat>)
    requires n <= |hay| && |q| <= |needle| && Spells(hay, needle[..|q|], q)
    requires |q| > 0 ==> q[|q| - 1] < n
    ensures |q| <= |Walk(hay, needle, n)|
  {
    if |q| > 0 {
      var last := q[|q| - 1];
      var front := q[..|q| - 1];
      if last < n - 1 {
        WalkKeepsUp(hay, needle, n - 1, q);
      } else {
        assert Spells(hay, needle[..|front|], front);
        WalkKeepsUp(hay, needle, n - 1, front);
        assert needle[..|q|][|q| - 1] == needle[|q| - 1];
      }
    }
  }

  /** A needle prefix is a subsequence of the pane exactly when the walk got that far. */
  lemma GreedyIsOptimal(hay: string, needle: string, k: nat)
    requires k <= |needle|
    ensures Embeds(hay, needle[..k]) <==> k <= |Greedy(hay, needle)|
  {
    var p := Greedy(hay, needle);
    WalkSpells(hay, needle, |hay|);
    if k <= |p| {
      assert Spells(hay, needle[..k], p[..k]);
    }
    if Embeds(hay, needle[..k]) {
      var q :| Spells(hay, needle[..k], q);
      WalkKeepsUp(hay, needle, |hay|, q);
    }
  }

  lemma ContainedIsEmbedded(hay: string, needle: string)
    requires Contains(hay, needle)
    ensures Embeds(hay, needle)
  {
    var at: nat :| OccursAt(hay, needle, at);
    var p: seq<nat> := seq(|needle|, (i: nat) => at + i);
    assert forall i :: 0 <= i < |needle| ==> needle[i] == hay[p[i]];
    assert Spells(hay, needle, p);
  }

  /** The score tells a whole needle from a part of one: it is always between 0 and
      1, at least 0.6 exactly when the whole needle is a subsequence of the pane,
      and below 0.4 otherwise. */
  lemma ScoreTellsWholeNeedles(hay: string, needle: string)
    requires needle != ""
    ensures 0.0 <= Score(hay, needle) <= 1.0
    ensures Score(hay, needle) >= 0.6 <==> Embeds(hay, needle)
    ensures Score(hay, needle) < 0.4 <==> !Embeds(hay, needle)
  {
    GreedyIsOptimal(hay, needle, |needle|);
    assert needle[..|needle|] == needle;
    var p := Greedy(hay, needle);
    if Contains(hay, needle) {
      ContainedIsEmbedded(hay, needle);
    } else if |p| < |needle| {
      Share(|p|, |needle|);
    } else {
      Share(LongestRun(p), |needle|);
    }
  }

  lemma Share(a: nat, b: nat)
    requires a <= b && b > 0
    ensures 0.0 <= a as real / b as real <= 1.0
    ensures a < b <==> a as real / b as real < 1.0
    ensures 0.4 * a as real / b as real == 0.4 * (a as real / b as real)
  {
    Quotient(a as real, b as real, a as real / b as real);
    Quotient(0.4 * a as real, b as real, 0.4 * (a as real / b as real));
  }

  lemma Quotient(x: real, k: real, q: real)
    requires k > 0.0 && q * k == x
    ensures x / k == q
    ensures 0.0 <= x <==> 0.0 <= q
    ensures x < k <==> q < 1.0
    ensures x <= k <==> q <= 1.0
  {
    SameOrder(0.0, q, k);
    SameOrder(q, 1.0, k);
    SameOrder(x / k, q, k);
  }

  lemma SameOrder(x: real, y: real, k: real)
    requires k > 0.0
    ensures x < y <==> x * k < y * k
    ensures x == y <==> x * k == y * k
  {
    if x < y {
      assert (y - x) * k > 0.0;
    } else if x > y {
      assert (x - y) * k > 0.0;
    }
  }

  /** A part of a needle is credited for its longest prefix in the pane, provided the
      pane is at least as long as the needle. */
  lemma PartialCredit(hay: string, needle: string, k: nat)
    requires k < |needle| && Embeds(hay, needle[..k]) && !Embeds(hay, needle[..k + 1])
    ensures Score(hay, needle) == if |hay| < |needle| then 0.0 else 0.4 * k as real / |needle| as real
  {
    GreedyIsOptimal(hay, needle, k);
    GreedyIsOptimal(hay, needle, k + 1);
    assert needle[..|needle|] == needle;
    GreedyIsOptimal(hay, needle, |needle|);
    if Contains(hay, needle) {
      ContainedIsEmbedded(hay, needle);
    }
  }

  /* ---------- what the bonus for runs measures ---------- */

  /** Positions i .. i + len - 1 of `p` are side by side. */
  predicate Block(p: seq<nat>, i: nat, len: nat) {
    i + len <= |p| && forall j :: i <= j < i + len ==> p[j] == p[i] + (j - i)
  }

  lemma {:induction false} TailRunIsABlock(p: seq<nat>)
    ensures Block(p, |p| - TailRun(p), TailRun(p))
  {
    if |p| > 1 && p[|p| - 1] == p[|p| - 2] + 1 {
      var front := p[..|p| - 1];
      TailRunIsABlock(front);
      assert forall j :: 0 <= j < |front| ==> front[j] == p[j];
    }
  }

  lemma {:induction false} TailRunIsLongest(p: seq<nat>, i: nat)
    requires i <= |p| && Block(p, i, |p| - i)
    ensures |p| - i <= TailRun(p)
  {
    if |p| > 1 && i < |p| - 1 {
      var front := p[..|p| - 1];
      assert Block(front, i, |front| - i);
      TailRunIsLongest(front, i);
    }
  }

  /** The bonus counts the longest block of side-by-side positions. */
  lemma {:induction false} LongestRunIsABlock(p: seq<nat>)
    ensures exists i: nat :: Block(p, i, LongestRun(p))
  {
    if p == [] {
      assert Block(p, 0, LongestRun(p));
    } else {
      var front := p[..|p| - 1];
      LongestRunIsABlock(front);
      var i: nat :| Block(front, i, LongestRun(front));
      assert Block(p, i, LongestRun(front));
      TailRunIsABlock(p);
      if TailRun(p) > LongestRun(front) {
        assert Block(p, |p| - TailRun(p), LongestRun(p));
      } else {
        assert Block(p, i, LongestRun(p));
      }
    }
  }

  lemma {:induction false} LongestRunIsLongest(p: seq<nat>, i: nat, len: nat)
    requires Block(p, i, len)
    ensures len <= LongestRun(p)
  {
    if p != [] {
      if i + len == |p| {
        TailRunIsLongest(p, i);
      } else {
        var front := p[..|p| - 1];
        assert Block(front, i, len);
        LongestRunIsLongest(front, i, len);
      }
    }
  }

  lemma OneRunExactlyWhen(p: seq<nat>)
    ensures LongestRun(p) == |p| <==> Block(p, 0, |p|)
  {
    if LongestRun(p) == |p| {
      LongestRunIsABlock(p);
    }
    if Block(p, 0, |p|) {
      LongestRunIsLongest(p, 0, |p|);
    }
  }

  /* ---------- when the score is perfect ---------- */

  /** Where the first needle rune first shows up. */
  function FirstOf(hay: string, c: char): (at: nat)
    ensures at <= |hay|
    ensures forall i :: 0 <= i < at ==> !FoldEqual(hay[i], c)
    ensures at < |hay| ==> FoldEqual(hay[at], c)
  {
    if hay == "" || FoldEqual(hay[0], c) then 0 else 1 + FirstOf(hay[1..], c)
  }

  predicate Absent(hay: string, c: char, n: nat) {
    n <= |hay| && forall i :: 0 <= i < n ==> !FoldEqual(hay[i], c)
  }

  lemma {:induction false} WalkBeforeFirst(hay: string, needle: string, n: nat)
    requires needle != "" && Absent(hay, needle[0], n)
    ensures Walk(hay, needle, n) == []
  {
    if n > 0 {
      WalkBeforeFirst(hay, needle, n - 1);
    }
  }

  lemma {:induction false} WalkAlongBlock(hay: string, needle: string, at: nat, n: nat)
    requires needle != "" && n <= |needle|
    requires Absent(hay, needle[0], at) && FoldsAt(hay, needle, at)
    ensures var p := Walk(hay, needle, at + n);
            |p| == n && forall i :: 0 <= i < n ==> p[i] == at + i
  {
    if n == 0 {
      WalkBeforeFirst(hay, needle, at);
    } else {
      WalkAlongBlock(hay, needle, at, n - 1);
      assert FoldEqual(hay[at + (n - 1)], needle[n - 1]);
    }
  }

  /** What the walk has found it keeps. */
  lemma {:induction false} WalkExtends(hay: string, needle: string, m: nat, n: nat)
    requires m <= n <= |hay|
    ensures Walk(hay, needle, m) <= Walk(hay, needle, n)
  {
    if m < n {
      WalkExtends(hay, needle, m, n - 1);
    }
  }

  lemma {:induction false} WalkStartsAt(hay: string, needle: string, at: nat, n: nat)
    requires needle != "" && Absent(hay, needle[0], at) && at < n <= |hay| && FoldEqual(hay[at], needle[0])
    ensures Walk(hay, needle, n) != [] && Walk(hay, needle, n)[0] == at
  {
    if n == at + 1 {
      WalkBeforeFirst(hay, needle, at);
    } else {
      WalkStartsAt(hay, needle, at, n - 1);
    }
  }

  lemma GreedyStartsAtFirst(hay: string, needle: string)
    requires needle != "" && Greedy(hay, needle) != []
    ensures var at := FirstOf(hay, needle[0]);
            at < |hay| && Greedy(hay, needle)[0] == at
  {
    var at := FirstOf(hay, needle[0]);
    if at < |hay| {
      WalkStartsAt(hay, needle, at, |hay|);
    } else {
      WalkBeforeFirst(hay, needle, at);
    }
  }

  lemma FoldedAtFirstIsOneRun(hay: string, needle: string, at: nat)
    requires needle != "" && Absent(hay, needle[0], at) && FoldsAt(hay, needle, at)
    ensures |Greedy(hay, needle)| == |needle| == LongestRun(Greedy(hay, needle))
  {
    hide FoldEqual, Walk, LongestRun;
    var p := Greedy(hay, needle);
    WalkAlongBlock(hay, needle, at, |needle|);
    WalkExtends(hay, needle, at + |needle|, |hay|);
    assert p == Walk(hay, needle, at + |needle|);
    OneRunExactlyWhen(p);
  }

  lemma BlockFolds(hay: string, needle: string, p: seq<nat>)
    requires needle != "" && Spells(hay, needle, p) && Block(p, 0, |p|)
    ensures FoldsAt(hay, needle, p[0])
  {
    assert p[|p| - 1] == p[0] + (|p| - 1);
    forall j | 0 <= j < |needle| ensures FoldEqual(hay[p[0] + j], needle[j]) {
      assert p[j] == p[0] + j;
    }
  }

  lemma OneRunIsFoldedAtFirst(hay: string, needle: string)
    requires needle != "" && |Greedy(hay, needle)| == |needle| == LongestRun(Greedy(hay, needle))
    ensures FoldsAt(hay, needle, FirstOf(hay, needle[0]))
  {
    var p := Greedy(hay, needle);
    var at := FirstOf(hay, needle[0]);
    OneRunExactlyWhen(p);
    GreedyStartsAtFirst(hay, needle);
    WalkSpells(hay, needle, |hay|);
    assert needle[..|p|] == needle;
    BlockFolds(hay, needle, p);
  }

  /** Letter case apart, a needle that stands in the pane in one piece need not score
      1.  Short of an exact occurrence, it does exactly when it stands at the first
      place where its first rune shows up. */
  lemma PerfectExactlyWhen(hay: string, needle: string)
    requires needle != ""
    ensures Score(hay, needle) == 1.0 <==>
            Contains(hay, needle) || FoldsAt(hay, needle, FirstOf(hay, needle[0]))
  {
    var p := Greedy(hay, needle);
    Share(|p|, |needle|);
    Share(LongestRun(p), |needle|);
    if FoldsAt(hay, needle, FirstOf(hay, needle[0])) {
      FoldedAtFirstIsOneRun(hay, needle, FirstOf(hay, needle[0]));
    } else if |p| == |needle| == LongestRun(p) {
      OneRunIsFoldedAtFirst(hay, needle);
    }
  }

  /** The pane "aAB" holds "ab" in one piece, letter case apart, and scores 0.8. */
  lemma FoldedOccurrenceCanScoreLess()
    ensures FoldsAt("aAB", "ab", 1) && Score("aAB", "ab") == 0.8
  {
    var hay, needle := "aAB", "ab";
    forall at: nat ensures !OccursAt(hay, needle, at) {
      if at + 2 <= 3 {
        assert hay[at..at + 2] == [hay[at], hay[at + 1]];
        assert hay[at + 1] != needle[1];
      }
    }
    assert Walk(hay, needle, 1) == [0];
    assert Walk(hay, needle, 2) == [0];
    assert Walk(hay, needle, 3) == [0, 2];
    assert [0, 2][..1] == [0];
    assert LongestRun([0, 2]) == 1;
  }

  /* ---------- a whole set of fingerprints ---------- */

  ghost function Total(pane: string, fps: seq<string>): real {
    if fps == [] then 0.0 else Total(pane, fps[..|fps| - 1]) + Score(pane, fps[|fps| - 1])
  }

  method MatchScore(pane: string, fps: seq<string>) returns (score: real)
    ensures score == Total(pane, fps)
  {
    score := 0.0;
    for i := 0 to |fps|
      invariant score == Total(pane, fps[..i])
    {
      assert fps[..i + 1][..i] == fps[..i];
      var s := FuzzyMatchScore(pane, fps[i]);
      score := score + s;
    }
    assert fps[..|fps|] == fps;
  }

  ghost function Found(pane: string, fps: seq<string>): (n: nat)
    ensures n <= |fps|
  {
    if fps == [] then 0
    else
      var last := fps[|fps| - 1];
      Found(pane, fps[..|fps| - 1]) + if last != "" && Embeds(pane, last) then 1 else 0
  }

  /** A fingerprint found whole adds between 0.6 and 1, any other at most 0.4. */
  lemma {:induction false} TotalCountsWholeFingerprints(pane: string, fps: seq<string>)
    ensures 0.6 * Found(pane, fps) as real <= Total(pane, fps)
    ensures Total(pane, fps) <= Found(pane, fps) as real + 0.4 * (|fps| - Found(pane, fps)) as real
  {
    if fps != [] {
      TotalCountsWholeFingerprints(pane, fps[..|fps| - 1]);
      var last := fps[|fps| - 1];
      if last != "" {
        ScoreTellsWholeNeedles(pane, last);
      }
    }
  }

  /* ---------- in numbers ---------- */

  const UPPER := "ABCDEFGHIJKLMNOPQRSTUVWXYZ"
  const LOWER := "abcdefghijklmnopqrstuvwxyz"

  predicate SameLetter(a: char, b: char, i: int) {
    0 <= i < 26 && ((a == UPPER[i] && b == LOWER[i]) || (a == LOWER[i] && b == UPPER[i]))
  }

  lemma LettersInCase(i: nat)
    requires i < 26
    ensures UPPER[i] == 'A' + i as char && LOWER[i] == 'a' + i as char
  {
  }

  predicate LowerOf(a: char, b: char) {
    'A' <= a <= 'Z' && b as int == a as int + 32
  }

  lemma FoldInNumbers(a: char, b: char)
    ensures FoldEqual(a, b) <==> a == b || LowerOf(a, b) || LowerOf(b, a)
  {
  }

  lemma LetterHasCases(a: char, b: char) returns (i: nat)
    requires LowerOf(a, b)
    ensures SameLetter(a, b, i) && SameLetter(b, a, i)
  {
    i := a as int - 'A' as int;
    LettersInCase(i);
  }

  lemma CasesAreLetters(a: char, b: char, i: int)
    requires SameLetter(a, b, i)
    ensures LowerOf(a, b) || LowerOf(b, a)
  {
    LettersInCase(i);
  }

  /** Two runes match when they are the same, or the same ASCII letter in either case. */
  lemma FoldEqualExactlyWhen(a: char, b: char)
    ensures FoldEqual(a, b) <==> a == b || exists i :: SameLetter(a, b, i)
  {
    hide FoldEqual, SameLetter, LowerOf;
    FoldInNumbers(a, b);
    if LowerOf(a, b) {
      var i := LetterHasCases(a, b);
    }
    if LowerOf(b, a) {
      var i := LetterHasCases(b, a);
    }
    if i :| SameLetter(a, b, i) {
      CasesAreLetters(a, b, i);
    }
  }

  /** A whole needle scores 1 in one exact piece, and otherwise six tenths and four tenths
      of the share that its longest block of neighbouring positions takes. */
  lemma WholeNeedleScores(hay: string, needle: string) returns (run: nat, at: nat)
    requires needle != "" && Embeds(hay, needle)
    ensures Contains(hay, needle) ==> Score(hay, needle) == 1.0
    ensures !Contains(hay, needle) ==> Score(hay, needle) == 0.6 + 0.4 * (run as real / |needle| as real)
    ensures Spells(hay, needle, Greedy(hay, needle)) && Block(Greedy(hay, needle), at, run)
    ensures forall i: nat, len: nat :: Block(Greedy(hay, needle), i, len) ==> len <= run
  {
    var p := Greedy(hay, needle);
    assert needle[..|needle|] == needle;
    GreedyIsOptimal(hay, needle, |needle|);
    WalkSpells(hay, needle, |hay|);
    run := LongestRun(p);
    LongestRunIsABlock(p);
    at :| Block(p, at, run);
    forall i: nat, len: nat | Block(p, i, len) ensures len <= run {
      LongestRunIsLongest(p, i, len);
    }
    EmbeddedIsNotLonger(hay, needle);
  }

  lemma EmbeddedIsNotLonger(hay: string, needle: string)
    requires Embeds(hay, needle)
    ensures |needle| <= |hay|
  {
    assert needle[..|needle|] == needle;
    GreedyIsOptimal(hay, needle, |needle|);
  }

  /** Each fingerprint adds its score. */
  lemma OneMoreFingerprint(pane: string, fps: seq<string>, fp: string)
    ensures Total(pane, []) == 0.0 && Score(pane, "") == 0.0
    ensures Total(pane, fps + [fp]) == Total(pane, fps) + Score(pane, fp)
  {
    assert (fps + [fp])[..|fps|] == fps;
  }
}
