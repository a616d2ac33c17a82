/** Choosing the session a terminal pane shows: candidates are scored in up to three
    growing stages, and the best one wins if it leads clearly or is tied. */
module SessionMatch {
  import opened Options
  import FuzzyScore

  /** A session file that the pane may show, and the fingerprints extracted from it. */
  datatype Candidate = Candidate(sid: string, lastActivity: int, fps: seq<string>)

  type Scoring = Candidate -> real

  const MIN_SCORE := 2.0
  const MIN_MARGIN := 0.30
  const STRONG_MARGIN := 0.50
  const MIN_PANE := 20

  /* ---------- the running best and second best ---------- */

  datatype Board = Board(best: Option<Candidate>, bestScore: real, second: real, tied: bool)

  function EmptyBoard(): Board {
    Board(None, 0.0, 0.0, false)
  }

  function Consider(b: Board, score: real, c: Candidate): Board {
    if score > b.bestScore then Board(Some(c), score, b.bestScore, false)
    else if score == b.bestScore && b.best.Some? then
      if c.lastActivity > b.best.value.lastActivity then Board(Some(c), b.bestScore, b.bestScore, true)
      else Board(b.best, b.bestScore, if score > b.second then score else b.second, true)
    else if score > b.second then b.(second := score)
    else b
  }

  function BoardOf(score: Scoring, order: seq<Candidate>): Board {
    if order == [] then EmptyBoard()
    else
      var last := order[|order| - 1];
      Consider(BoardOf(score, order[..|order| - 1]), score(last), last)
  }

  function MarginRatio(best: real, second: real): real {
    if best <= 0.0 then 0.0 else (best - second) / best
  }

  predicate Settled(b: Board) {
    b.bestScore >= MIN_SCORE && MarginRatio(b.bestScore, b.second) >= MIN_MARGIN
  }

  /** The winner, if it may be accepted, and whether the match is a strong one. */
  function Verdict(b: Board): (Option<Candidate>, bool) {
    var margin := MarginRatio(b.bestScore, b.second);
    if b.best.None? || b.bestScore < MIN_SCORE || (margin < MIN_MARGIN && !b.tied) then (None, false)
    else (b.best, margin >= STRONG_MARGIN && !b.tied)
  }

  class Scoreboard {
    var best: Option<Candidate>
    var bestScore: real
    var second: real
    var tied: bool

    ghost function State(): Board
      reads this
    {
      Board(best, bestScore, second, tied)
    }

    constructor ()
      ensures State() == EmptyBoard()
    {
      best, bestScore, second, tied := None, 0.0, 0.0, false;
    }

    method ConsiderScore(score: real, c: Candidate)
      modifies this
      ensures State() == Consider(old(State()), score, c)
    {
      if score > bestScore {
        second := bestScore;
        bestScore := score;
        best := Some(c);
        tied := false;
        return;
      }
      if score == bestScore && best.Some? {
        tied := true;
        if c.lastActivity > best.value.lastActivity {
          second := bestScore;
          best := Some(c);
        } else if score > second {
          second := score;
        }
        return;
      }
      if score > second {
        second := score;
      }
    }
  }

  /* ---------- the stages ---------- */

  predicate Distinct(cs: seq<Candidate>) {
    forall i, j :: 0 <= i < j < |cs| ==> cs[i].sid != cs[j].sid
  }

  function Sids(cs: seq<Candidate>): set<string> {
    set c | c in cs :: c.sid
  }

  function Members(cs: seq<Candidate>): set<Candidate> {
    set c | c in cs
  }

  /** How many leading candidates each stage reaches. */
  function Stages(n: nat): seq<nat> {
    if n < 20 then [5, 12, n] else [5, 12, 20]
  }

  function Reach(stageMax: nat, n: nat): (k: nat)
    ensures k <= n
  {
    if stageMax > n then n else stageMax
  }

  function Unseen(cs: seq<Candidate>, k: nat, seen: set<string>): seq<Candidate>
    requires k <= |cs|
  {
    if k == 0 then []
    else Unseen(cs, k - 1, seen) + if cs[k - 1].sid in seen then [] else [cs[k - 1]]
  }

  function WithForced(stage: seq<Candidate>, cs: seq<Candidate>, k: nat, forced: set<string>,
                      seen: set<string>): seq<Candidate>
    requires k <= |cs|
  {
    if k == 0 then stage
    else
      var s, c := WithForced(stage, cs, k - 1, forced, seen), cs[k - 1];
      if c.sid !in forced || c.sid in seen || c.sid in Sids(s) then s else s + [c]
  }

  function StageOf(cs: seq<Candidate>, stageMax: nat, forced: set<string>, seen: set<string>): seq<Candidate> {
    WithForced(Unseen(cs, Reach(stageMax, |cs|), seen), cs, |cs|, forced, seen)
  }

  /** The candidates scored from the `r`-th stage on, after those in `scored`. */
  function Search(score: Scoring, cs: seq<Candidate>, forced: set<string>, r: nat,
                  scored: seq<Candidate>): seq<Candidate>
    requires r <= 3
    decreases 3 - r
  {
    if r == 3 then scored
    else
      var stage := StageOf(cs, Stages(|cs|)[r], forced, Sids(scored));
      if stage == [] then Search(score, cs, forced, r + 1, scored)
      else if Settled(BoardOf(score, scored + stage)) then scored + stage
      else Search(score, cs, forced, r + 1, scored + stage)
  }

  ghost function ScoreFor(pane: string): Scoring {
    (c: Candidate) => FuzzyScore.Total(pane, c.fps)
  }

  ghost function Match(pane: string, cs: seq<Candidate>, forced: set<string>): (Option<Candidate>, bool) {
    if cs == [] || |pane| < MIN_PANE then (None, false)
    else
      var score := ScoreFor(pane);
      Verdict(BoardOf(score, Search(score, cs, forced, 0, [])))
  }

  method FirstUnseen(cs: seq<Candidate>, k: nat, seen: set<string>) returns (stage: seq<Candidate>)
    requires k <= |cs|
    ensures stage == Unseen(cs, k, seen)
  {
    stage := [];
    for i := 0 to k
      invariant stage == Unseen(cs, i, seen)
    {
      if cs[i].sid in seen {
        continue;
      }
      stage := stage + [cs[i]];
    }
  }

  method Already(stage: seq<Candidate>, sid: string) returns (found: bool)
    ensures found == (sid in Sids(stage))
  {
    found := false;
    for i := 0 to |stage|
      invariant sid !in Sids(stage[..i])
    {
      if stage[i].sid == sid {
        assert stage[i] in stage;
        return true;
      }
      assert stage[..i + 1] == stage[..i] + [stage[i]];
    }
    assert stage[..|stage|] == stage;
  }

  method StageCandidates(cs: seq<Candidate>, stageMax: nat, forced: set<string>, seen: set<string>)
    returns (stage: seq<Candidate>)
    ensures stage == StageOf(cs, stageMax, forced, seen)
  {
    var reach := stageMax;
    if reach > |cs| {
      reach := |cs|;
    }
    stage := FirstUnseen(cs, reach, seen);
    ghost var first := stage;
    for i := 0 to |cs|
      invariant stage == WithForced(first, cs, i, forced, seen)
    {
      if cs[i].sid !in forced || cs[i].sid in seen {
        continue;
      }
      var already := Already(stage, cs[i].sid);
      if !already {
        stage := stage + [cs[i]];
      }
    }
  }

  method ScoreStage(board: Scoreboard, pane: string, ghost scored: seq<Candidate>, stage: seq<Candidate>)
    requires board.State() == BoardOf(ScoreFor(pane), scored)
    modifies board
    ensures board.State() == BoardOf(ScoreFor(pane), scored + stage)
  {
    hide Consider;
    assert scored + stage[..0] == scored;
    for i := 0 to |stage|
      invariant board.State() == BoardOf(ScoreFor(pane), scored + stage[..i])
    {
      var score := FuzzyScore.MatchScore(pane, stage[i].fps);
      board.ConsiderScore(score, stage[i]);
      var now := scored + stage[..i + 1];
      assert now[..|now| - 1] == scored + stage[..i] && now[|now| - 1] == stage[i];
    }
    assert stage[..|stage|] == stage;
  }

  method MatchSessionByPaneText(pane: string, cs: seq<Candidate>, forced: set<string>)
    returns (winner: Option<Candidate>, strong: bool)
    ensures (winner, strong) == Match(pane, cs, forced)
  {
    if |cs| == 0 || |pane| < MIN_PANE {
      return None, false;
    }
    var maxByStage := [5, 12, 20];
    if |cs| < 20 {
      maxByStage := [5, 12, |cs|];
    }
    var board := new Scoreboard();
    var seen: set<string> := {};
    ghost var scored: seq<Candidate> := [];
    ghost var score := ScoreFor(pane);
    ghost var final := Search(score, cs, forced, 0, []);
    var r := 0;
    while r < 3
      invariant r <= 3 && fresh(board)
      invariant seen == Sids(scored) && board.State() == BoardOf(score, scored)
      invariant final == Search(score, cs, forced, r, scored)
    {
      var stage := StageCandidates(cs, maxByStage[r], forced, seen);
      r := r + 1;
      if |stage| == 0 {
        continue;
      }
      ScoreStage(board, pane, scored, stage);
      seen := seen + set c | c in stage :: c.sid;
      scored := scored + stage;
      if board.bestScore >= MIN_SCORE && MarginRatio(board.bestScore, board.second) >= MIN_MARGIN {
        break;
      }
    }
    assert board.State() == BoardOf(score, final);
    if board.best.None? {
      return None, false;
    }
    var margin := MarginRatio(board.bestScore, board.second);
    if board.bestScore < MIN_SCORE {
      return None, false;
    }
    if margin < MIN_MARGIN && !board.tied {
      return None, false;
    }
    return board.best, margin >= STRONG_MARGIN && !board.tied;
  }

  /* ---------- what the board says of the candidates scored ---------- */

  ghost predicate NonNegative(score: Scoring) {
    forall c :: score(c) >= 0.0
  }

  /** The board tells the truth about the scores: the `i`-th candidate scored is
      the best, the second best score is the highest of the others', the tie flag
      says whether another reached the best score, and of those with the best score
      the winner is the most recently active, the first scored among equals. */
  ghost predicate Truthful(score: Scoring, order: seq<Candidate>, i: nat, b: Board) {
    if b.best.None? then
      b == EmptyBoard() && forall j :: 0 <= j < |order| ==> score(order[j]) == 0.0
    else
      && i < |order|
      && b.best.value == order[i]
      && b.bestScore == score(order[i]) > 0.0
      && 0.0 <= b.second <= b.bestScore
      && (forall j :: 0 <= j < |order| && j != i ==> score(order[j]) <= b.second)
      && (b.second > 0.0 ==> exists j :: 0 <= j < |order| && j != i && score(order[j]) == b.second)
      && (b.tied <==> exists j :: 0 <= j < |order| && j != i && score(order[j]) == b.bestScore)
      && (forall j :: 0 <= j < |order| && score(order[j]) == b.bestScore ==>
                        order[j].lastActivity < order[i].lastActivity
                        || (order[j].lastActivity == order[i].lastActivity && i <= j))
  }

  lemma ConsiderKeepsTruth(score: Scoring, order: seq<Candidate>, i: nat, b: Board, c: Candidate) returns (k: nat)
    requires NonNegative(score) && Truthful(score, order, i, b)
    ensures Truthful(score, order + [c], k, Consider(b, score(c), c))
  {
    var now := order + [c];
    var next := Consider(b, score(c), c);
    assert now[|order|] == c;
    assert forall j :: 0 <= j < |order| ==> now[j] == order[j];
    k := if next.best == b.best then i else |order|;
    if next.best.Some? && b.best.Some? {
      assert now[i] == order[i];
      if next.best != b.best {
        k := |order|;
      }
      if b.second > 0.0 {
        var j :| 0 <= j < |order| && j != i && score(order[j]) == b.second;
        assert now[j] == order[j];
      }
    }
  }

  lemma {:induction false} BoardIsTruthful(score: Scoring, order: seq<Candidate>) returns (i: nat)
    requires NonNegative(score)
    ensures Truthful(score, order, i, BoardOf(score, order))
  {
    if order == [] {
      i := 0;
    } else {
      var front, last := order[..|order| - 1], order[|order| - 1];
      assert order == front + [last];
      i := BoardIsTruthful(score, front);
      i := ConsiderKeepsTruth(score, front, i, BoardOf(score, front), last);
    }
  }

  /* ---------- the same, of the set of candidates scored ---------- */

  /** What a rival may score at most to stay the given share below `best`. */
  function Allowed(best: real, margin: real): real {
    (1.0 - margin) * best
  }

  /** `w` is good enough and every other candidate stays at least the given share of
      `w`'s score below it. */
  ghost predicate Leads(score: Scoring, s: set<Candidate>, w: Candidate, margin: real) {
    w in s && score(w) >= MIN_SCORE && forall c <- s :: c != w ==> score(c) <= Allowed(score(w), margin)
  }

  ghost predicate Clear(score: Scoring, s: set<Candidate>, margin: real) {
    exists w :: Leads(score, s, w, margin)
  }

  /** Two candidates share the highest score, and it is good enough. */
  ghost predicate TiedTop(score: Scoring, s: set<Candidate>) {
    exists w <- s, c <- s :: c != w && score(c) == score(w) >= MIN_SCORE && forall d <- s :: score(d) <= score(w)
  }

  ghost predicate Favourite(score: Scoring, s: set<Candidate>, w: Candidate) {
    && w in s
    && forall c <- s :: score(c) <= score(w) && (score(c) == score(w) ==> c.lastActivity <= w.lastActivity)
  }

  ghost predicate Summary(score: Scoring, s: set<Candidate>, b: Board) {
    if b.best.None? then
      b == EmptyBoard() && forall c <- s :: score(c) == 0.0
    else
      var w := b.best.value;
      && Favourite(score, s, w)
      && b.bestScore == score(w) > 0.0
      && 0.0 <= b.second <= b.bestScore
      && (forall c <- s :: c != w ==> score(c) <= b.second)
      && (b.second > 0.0 ==> exists c <- s :: c != w && score(c) == b.second)
      && (b.tied <==> exists c <- s :: c != w && score(c) == b.bestScore)
  }

  /** The second best score is the highest score of the others, and so on: what the
      running updates leave behind is true of the set, in whatever order its members
      were scored. */
  lemma BoardSummarises(score: Scoring, order: seq<Candidate>)
    requires NonNegative(score) && Distinct(order)
    ensures Summary(score, Members(order), BoardOf(score, order))
  {
    var b := BoardOf(score, order);
    var i := BoardIsTruthful(score, order);
    if b.best.Some? {
      assert forall j :: 0 <= j < |order| && j != i ==> order[j] in Members(order) && order[j] != order[i];
      if b.second > 0.0 {
        var j :| 0 <= j < |order| && j != i && score(order[j]) == b.second;
        assert order[j] in Members(order) && order[j] != order[i];
      }
    }
  }

  /** Scoring the same candidates in another order gives the same best and second
      best scores, the same tie flag and a winner just as recently active. */
  lemma OrderDoesNotMatter(score: Scoring, a: seq<Candidate>, b: seq<Candidate>)
    requires NonNegative(score) && Distinct(a) && Distinct(b) && Members(a) == Members(b)
    ensures var x, y := BoardOf(score, a), BoardOf(score, b);
            && x.bestScore == y.bestScore && x.second == y.second && x.tied == y.tied
            && x.best.Some? == y.best.Some?
            && (x.best.Some? ==> x.best.value.lastActivity == y.best.value.lastActivity)
  {
    BoardSummarises(score, a);
    BoardSummarises(score, b);
  }

  lemma MarginMeans(best: real, second: real, margin: real)
    requires best > 0.0
    ensures MarginRatio(best, second) >= margin <==> second <= Allowed(best, margin)
  {
    var r := MarginRatio(best, second);
    assert r * best == best - second;
    if r >= margin {
      assert r * best >= margin * best;
    } else {
      assert r * best < margin * best;
    }
  }

  /** Everyone but `w` scores at most `bound`. */
  ghost predicate Below(score: Scoring, s: set<Candidate>, w: Candidate, bound: real) {
    forall c <- s :: c != w ==> score(c) <= bound
  }

  lemma SecondIsABound(score: Scoring, s: set<Candidate>, b: Board, bound: real)
    requires Summary(score, s, b) && b.best.Some? && bound >= 0.0
    ensures b.second <= bound <==> Below(score, s, b.best.value, bound)
  {
  }

  /** Whoever leads at all leads everyone, so it is the best one. */
  lemma LeaderIsBest(score: Scoring, s: set<Candidate>, b: Board, v: Candidate, margin: real)
    requires Summary(score, s, b) && b.best.Some? && Leads(score, s, v, margin) && 0.0 < margin < 1.0
    ensures v == b.best.value
  {
    hide Allowed;
    Shrinks(score(v), margin);
  }

  /** The margin on the board is wide enough exactly when some candidate leads by it. */
  lemma MarginIsALead(score: Scoring, s: set<Candidate>, b: Board, margin: real)
    requires NonNegative(score) && Summary(score, s, b) && 0.0 < margin < 1.0
    ensures b.bestScore >= MIN_SCORE && MarginRatio(b.bestScore, b.second) >= margin <==> Clear(score, s, margin)
  {
    hide Allowed, MarginRatio;
    if b.best.Some? {
      var w := b.best.value;
      var bound := Allowed(b.bestScore, margin);
      Shrinks(b.bestScore, margin);
      MarginMeans(b.bestScore, b.second, margin);
      SecondIsABound(score, s, b, bound);
      LeadsMeans(score, s, w, margin);
      if v :| Leads(score, s, v, margin) {
        LeaderIsBest(score, s, b, v, margin);
      }
    }
  }

  lemma LeadsMeans(score: Scoring, s: set<Candidate>, w: Candidate, margin: real)
    ensures Leads(score, s, w, margin) <==>
            w in s && score(w) >= MIN_SCORE && Below(score, s, w, Allowed(score(w), margin))
  {
    hide Allowed;
  }

  lemma Shrinks(x: real, margin: real)
    requires x > 0.0 && 0.0 < margin < 1.0
    ensures 0.0 < Allowed(x, margin) < x
  {
    assert margin * x > 0.0;
    assert (1.0 - margin) * x > 0.0;
  }

  lemma TieIsATie(score: Scoring, s: set<Candidate>, b: Board)
    requires Summary(score, s, b)
    ensures b.bestScore >= MIN_SCORE && b.tied <==> TiedTop(score, s)
  {
    if b.best.Some? && b.tied {
      var w := b.best.value;
      var c :| c in s && c != w && score(c) == b.bestScore;
    }
  }

  /** The verdict in terms of the candidates scored: some candidate is accepted
      exactly when one leads by the smaller margin or two share the top; the one
      accepted has the highest score, none of its equals being more recently active;
      and the match is strong exactly when one leads by the larger margin. */
  lemma VerdictExactlyWhen(score: Scoring, order: seq<Candidate>)
    requires NonNegative(score) && Distinct(order)
    ensures var s := Members(order);
            var (w, strong) := Verdict(BoardOf(score, order));
            && (w.Some? <==> Clear(score, s, MIN_MARGIN) || TiedTop(score, s))
            && (w.Some? ==> Favourite(score, s, w.value))
            && (strong <==> Clear(score, s, STRONG_MARGIN))
    ensures Settled(BoardOf(score, order)) <==> Clear(score, Members(order), MIN_MARGIN)
  {
    var s, b := Members(order), BoardOf(score, order);
    BoardSummarises(score, order);
    MarginIsALead(score, s, b, MIN_MARGIN);
    MarginIsALead(score, s, b, STRONG_MARGIN);
    TieIsATie(score, s, b);
    if b.tied {
      MarginMeans(b.bestScore, b.second, MIN_MARGIN);
    }
  }

  /* ---------- which candidates are scored ---------- */

  /** The candidates a stage has reached: the leading ones and the forced ones. */
  function Pool(cs: seq<Candidate>, forced: set<string>, stageMax: nat): set<Candidate> {
    set c | c in cs && (c in cs[..Reach(stageMax, |cs|)] || c.sid in forced)
  }

  lemma SameSid(cs: seq<Candidate>, c: Candidate, d: Candidate)
    requires Distinct(cs) && c in cs && d in cs && c.sid == d.sid
    ensures c == d
  {
    var i :| 0 <= i < |cs| && cs[i] == c;
    var j :| 0 <= j < |cs| && cs[j] == d;
    assert i == j;
  }

  lemma {:induction false} UnseenMembers(cs: seq<Candidate>, k: nat, seen: set<string>)
    requires k <= |cs| && Distinct(cs)
    ensures Distinct(Unseen(cs, k, seen))
    ensures forall c :: c in Unseen(cs, k, seen) <==> c in cs[..k] && c.sid !in seen
  {
    if k > 0 {
      UnseenMembers(cs, k - 1, seen);
      assert cs[..k] == cs[..k - 1] + [cs[k - 1]];
    }
  }

  lemma {:induction false} WithForcedMembers(stage: seq<Candidate>, cs: seq<Candidate>, k: nat, forced: set<string>,
                                             seen: set<string>)
    requires k <= |cs| && Distinct(cs) && Distinct(stage)
    requires forall c <- stage :: c in cs
    ensures Distinct(WithForced(stage, cs, k, forced, seen))
    ensures forall c :: c in WithForced(stage, cs, k, forced, seen) <==>
                        c in stage || (c in cs[..k] && c.sid in forced && c.sid !in seen)
  {
    if k > 0 {
      WithForcedMembers(stage, cs, k - 1, forced, seen);
      assert cs[..k] == cs[..k - 1] + [cs[k - 1]];
      var s, c := WithForced(stage, cs, k - 1, forced, seen), cs[k - 1];
      if c.sid in Sids(s) {
        var d :| d in s && d.sid == c.sid;
        SameSid(cs, c, d);
      } else {
        assert forall d <- s :: d.sid in Sids(s);
      }
    }
  }

  /** One stage adds exactly what its reach asks for and no earlier stage scored. */
  lemma StageFillsPool(cs: seq<Candidate>, stageMax: nat, forced: set<string>, scored: seq<Candidate>)
    requires Distinct(cs) && Distinct(scored) && Members(scored) <= Pool(cs, forced, stageMax)
    ensures var now := scored + StageOf(cs, stageMax, forced, Sids(scored));
            Distinct(now) && Members(now) == Pool(cs, forced, stageMax)
  {
    var seen, reach := Sids(scored), Reach(stageMax, |cs|);
    var first := Unseen(cs, reach, seen);
    var stage := StageOf(cs, stageMax, forced, seen);
    UnseenMembers(cs, reach, seen);
    WithForcedMembers(first, cs, |cs|, forced, seen);
    assert cs[..|cs|] == cs;
    assert forall c <- scored :: c in Members(scored);
    forall c | c in Pool(cs, forced, stageMax) ensures c in scored + stage {
      if c.sid in seen {
        var d :| d in scored && d.sid == c.sid;
        SameSid(cs, c, d);
      }
    }
    assert forall c <- stage :: c in Pool(cs, forced, stageMax) && c.sid !in seen;
  }

  /** Every later stage reaches at least as far. */
  lemma PoolsGrow(cs: seq<Candidate>, forced: set<string>, a: nat, b: nat)
    requires a <= b
    ensures Pool(cs, forced, a) <= Pool(cs, forced, b)
  {
    var x, y := Reach(a, |cs|), Reach(b, |cs|);
    assert cs[..x] == cs[..y][..x];
  }

  /** The pool of the last stage a search has gone through before stage `r`. */
  ghost function PoolBefore(cs: seq<Candidate>, forced: set<string>, r: nat): set<Candidate>
    requires r <= 3
  {
    if r == 0 then {} else Pool(cs, forced, Stages(|cs|)[r - 1])
  }

  lemma PoolBeforeGrows(cs: seq<Candidate>, forced: set<string>, r: nat)
    requires r < 3
    ensures PoolBefore(cs, forced, r) <= PoolBefore(cs, forced, r + 1)
  {
    var st := Stages(|cs|);
    if r > 0 {
      if st[r] >= st[r - 1] {
        PoolsGrow(cs, forced, st[r - 1], st[r]);
      } else {
        assert Reach(st[r], |cs|) == |cs| == Reach(st[r - 1], |cs|);
      }
    }
  }

  lemma StageStep(score: Scoring, cs: seq<Candidate>, forced: set<string>, r: nat, scored: seq<Candidate>)
    requires NonNegative(score) && Distinct(cs) && r < 3
    requires Distinct(scored) && Members(scored) == PoolBefore(cs, forced, r)
    ensures var stage := StageOf(cs, Stages(|cs|)[r], forced, Sids(scored));
            var now := scored + stage;
            && Distinct(now) && Members(now) == PoolBefore(cs, forced, r + 1)
            && (stage == [] ==> now == scored)
            && (Settled(BoardOf(score, now)) <==> Clear(score, PoolBefore(cs, forced, r + 1), MIN_MARGIN))
  {
    hide Settled, BoardOf, Clear, Distinct;
    PoolBeforeGrows(cs, forced, r);
    StageFillsPool(cs, Stages(|cs|)[r], forced, scored);
    VerdictExactlyWhen(score, scored + StageOf(cs, Stages(|cs|)[r], forced, Sids(scored)));
  }

  /** A search scores each candidate at most once and stops after stage `q`: at the
      first stage whose pool has a clear leader, or at the last. */
  lemma {:induction false} SearchStopsAt(score: Scoring, cs: seq<Candidate>, forced: set<string>, r: nat,
                                         scored: seq<Candidate>)
    returns (q: nat)
    requires NonNegative(score) && Distinct(cs) && r <= 3
    requires Distinct(scored) && Members(scored) == PoolBefore(cs, forced, r)
    requires !Clear(score, Members(scored), MIN_MARGIN)
    ensures r <= q <= 3 && (q == 3 || (q > r && Clear(score, PoolBefore(cs, forced, q), MIN_MARGIN)))
    ensures var all := Search(score, cs, forced, r, scored);
            Distinct(all) && Members(all) == PoolBefore(cs, forced, q)
    ensures forall p :: r <= p < q ==> !Clear(score, PoolBefore(cs, forced, p), MIN_MARGIN)
    decreases 3 - r
  {
    hide StageOf, BoardOf, Settled, Clear, PoolBefore, Distinct, Members;
    if r == 3 {
      q := 3;
    } else {
      var stage := StageOf(cs, Stages(|cs|)[r], forced, Sids(scored));
      var now := scored + stage;
      StageStep(score, cs, forced, r, scored);
      if stage != [] && Settled(BoardOf(score, now)) {
        q := r + 1;
      } else {
        q := SearchStopsAt(score, cs, forced, r + 1, now);
      }
    }
  }

  lemma ScoresAreNonNegative(pane: string)
    ensures NonNegative(ScoreFor(pane))
  {
    forall c: Candidate ensures ScoreFor(pane)(c) >= 0.0 {
      FuzzyScore.TotalCountsWholeFingerprints(pane, c.fps);
    }
  }

  /** The whole selection, for candidates with distinct ids and a long enough pane.
      The candidates scored are those of the first stage with a clear leader, or of
      the last stage: the forced ones and the leading 5, 12 or 20.  Of them one is
      accepted exactly when it leads clearly or shares the top, it is a best one with
      no equal more recently active, and an early stop is always accepted. */
  lemma MatchIsRight(pane: string, cs: seq<Candidate>, forced: set<string>) returns (q: nat)
    requires Distinct(cs) && cs != [] && |pane| >= MIN_PANE
    ensures 1 <= q <= 3
    ensures var score, s := ScoreFor(pane), PoolBefore(cs, forced, q);
            var (w, strong) := Match(pane, cs, forced);
            && (w.Some? <==> Clear(score, s, MIN_MARGIN) || TiedTop(score, s))
            && (w.Some? ==> Favourite(score, s, w.value))
            && (strong <==> Clear(score, s, STRONG_MARGIN))
            && (q < 3 ==> w.Some? && Clear(score, s, MIN_MARGIN))
    ensures forall p :: 0 <= p < q ==> !Clear(ScoreFor(pane), PoolBefore(cs, forced, p), MIN_MARGIN)
    ensures forall c <- cs :: c.sid in forced || c in cs[..Reach(5, |cs|)] ==> c in PoolBefore(cs, forced, q)
  {
    var score := ScoreFor(pane);
    ScoresAreNonNegative(pane);
    q := SearchStopsAt(score, cs, forced, 0, []);
    VerdictExactlyWhen(score, Search(score, cs, forced, 0, []));
    PoolBeforeGrows(cs, forced, 1);
    PoolBeforeGrows(cs, forced, 2);
    assert forall c <- cs :: c.sid in forced || c in cs[..Reach(5, |cs|)] ==> c in PoolBefore(cs, forced, 1);
  }

  /** The candidates scored when the search stops after stage `q`: those forced, and the
      first 5, 12 or 20 by rank. */
  function Scored(cs: seq<Candidate>, forced: set<string>, q: nat): set<Candidate> {
    var first := if q == 1 then 5 else if q == 2 then 12 else 20;
    set c | c in cs && (c.sid in forced || c in cs[..if |cs| < first then |cs| else first])
  }

  ghost predicate AtMost(score: Scoring, s: set<Candidate>, w: Candidate, share: real) {
    forall c <- s :: c != w ==> score(c) <= share * score(w)
  }

  /** Some candidate scores at least 2 and no other more than this share of it. */
  ghost predicate LeaderBy(score: Scoring, s: set<Candidate>, share: real) {
    exists c <- s :: score(c) >= 2.0 && AtMost(score, s, c, share)
  }

  /** Two share the highest score, and it is at least 2. */
  ghost predicate SharedTop(score: Scoring, s: set<Candidate>) {
    exists c <- s, d <- s :: c != d && score(c) == score(d) >= 2.0 && AtMost(score, s, c, 1.0)
  }

  ghost predicate RightInNumbers(pane: string, s: set<Candidate>, w: Option<Candidate>, strong: bool) {
    var score := ScoreFor(pane);
    && (w.Some? <==> LeaderBy(score, s, 0.7) || SharedTop(score, s))
    && (w.Some? ==> w.value in s && AtMost(score, s, w.value, 1.0))
    && (strong <==> LeaderBy(score, s, 0.5))
  }

  /** The selection in numbers.  A pane of less than 20 runes shows nothing.  Otherwise
      one is accepted exactly when some candidate scores at least 2 and no other more than
      seven tenths of that, or two share the highest score and it is at least 2; and the
      match is strong exactly when the others stay at half. */
  lemma MatchInNumbers(pane: string, cs: seq<Candidate>, forced: set<string>) returns (q: nat)
    requires Distinct(cs)
    ensures cs == [] || |pane| < 20 ==> Match(pane, cs, forced) == (None, false)
    ensures 1 <= q <= 3
    ensures cs != [] && |pane| >= 20 ==>
              var s := Scored(cs, forced, q);
              && RightInNumbers(pane, s, Match(pane, cs, forced).0, Match(pane, cs, forced).1)
              && (q < 3 ==> LeaderBy(ScoreFor(pane), s, 0.7))
  {
    q := 1;
    if cs != [] && |pane| >= 20 {
      q := MatchIsRight(pane, cs, forced);
      PoolInNumbers(cs, forced, q);
      hide Scored, PoolBefore, Match, ScoreFor, Distinct;
      var score, s := ScoreFor(pane), Scored(cs, forced, q);
      LeadInNumbers(score, s, 0.3, 0.7);
      LeadInNumbers(score, s, 0.5, 0.5);
      TieInNumbers(score, s);
      hide Clear, TiedTop, LeaderBy, SharedTop;
      assert Match(pane, cs, forced).0.Some? ==> AtMost(score, s, Match(pane, cs, forced).0.value, 1.0);
    }
  }

  lemma PoolInNumbers(cs: seq<Candidate>, forced: set<string>, q: nat)
    requires 1 <= q <= 3
    ensures PoolBefore(cs, forced, q) == Scored(cs, forced, q)
  {
  }

  lemma LeadsInNumbers(score: Scoring, s: set<Candidate>, c: Candidate, margin: real, share: real)
    requires share == 1.0 - margin
    ensures Leads(score, s, c, margin) <==> c in s && score(c) >= 2.0 && AtMost(score, s, c, share)
  {
    assert Allowed(score(c), margin) == share * score(c);
  }

  lemma LeadInNumbers(score: Scoring, s: set<Candidate>, margin: real, share: real)
    requires share == 1.0 - margin
    ensures Clear(score, s, margin) <==> LeaderBy(score, s, share)
  {
    hide Leads, AtMost;
    if w :| Leads(score, s, w, margin) {
      LeadsInNumbers(score, s, w, margin, share);
    }
    if c :| c in s && score(c) >= 2.0 && AtMost(score, s, c, share) {
      LeadsInNumbers(score, s, c, margin, share);
    }
  }

  lemma TieInNumbers(score: Scoring, s: set<Candidate>)
    ensures TiedTop(score, s) <==> SharedTop(score, s)
  {
    if c, d :| c in s && d in s && c != d && score(c) == score(d) >= 2.0 && AtMost(score, s, c, 1.0) {
      assert d != c && forall e <- s :: score(e) <= score(c);
    }
    if w, c :| w in s && c in s && c != w && score(c) == score(w) >= MIN_SCORE
               && forall d <- s :: score(d) <= score(w) {
      assert AtMost(score, s, w, 1.0);
    }
  }
}
