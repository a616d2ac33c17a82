/** Fingerprints of a session file, collected from its end, and the cache in front
    of the extraction.  A string stands for the bytes of a text that has been
    cleaned: lower case, words separated by single blanks. */
module Fingerprints {

  /** One line of the session file, as far as extraction looks at it. */
  datatype Entry =
    | Skipped
    | Said(text: string)
    | Content(blocks: seq<Block>)

  datatype Block =
    | Ignored
    | TextBlock(lines: seq<string>)
    | ToolUse(tokens: seq<string>)   // "tool name", name, and up to four words per input

  /** Fingerprints that one step adds; a cut step trims the result to the limit. */
  datatype Group = Group(fps: seq<string>, cut: bool)

  const MAX_ENTRIES := 200

  function Clip(t: string): string {
    if |t| > 80 then t[..80] else t
  }

  function WordEnd(line: string): (n: nat)
    ensures n <= |line|
    ensures line != "" && line[0] != ' ' ==> n > 0
  {
    if line == "" || line[0] == ' ' then 0 else 1 + WordEnd(line[1..])
  }

  function Fields(line: string): seq<string>
    decreases |line|
  {
    if line == "" then []
    else if line[0] == ' ' then Fields(line[1..])
    else [line[..WordEnd(line)]] + Fields(line[WordEnd(line)..])
  }

  /** Those of the first `n` words that have at least three bytes. */
  function LongWords(words: seq<string>, n: nat): (r: seq<string>)
    requires n <= |words|
    ensures |r| <= n
  {
    if n == 0 then []
    else LongWords(words, n - 1) + if |words[n - 1]| >= 3 then [words[n - 1]] else []
  }

  function LineGroup(line: string): Group {
    if 8 <= |line| <= 120 then
      var words := Fields(line);
      Group([line] + LongWords(words, if |words| < 4 then |words| else 4), false)
    else Group([], false)
  }

  function TokenFps(tokens: seq<string>): seq<string> {
    if tokens == [] then []
    else
      var last := tokens[|tokens| - 1];
      TokenFps(tokens[..|tokens| - 1]) + if |last| >= 3 then [Clip(last)] else []
  }

  function LineGroups(lines: seq<string>): seq<Group> {
    if lines == [] then []
    else LineGroups(lines[..|lines| - 1]) + [LineGroup(lines[|lines| - 1])]
  }

  function BlockGroups(b: Block): seq<Group> {
    match b
    case Ignored => []
    case TextBlock(lines) => LineGroups(lines)
    case ToolUse(tokens) => [Group(TokenFps(tokens), true)]
  }

  function BlocksGroups(bs: seq<Block>): seq<Group> {
    if bs == [] then []
    else BlocksGroups(bs[..|bs| - 1]) + BlockGroups(bs[|bs| - 1])
  }

  function EntryGroups(e: Entry): seq<Group> {
    match e
    case Skipped => []
    case Said(t) => [Group(if |t| >= 3 then [Clip(t)] else [], false)]
    case Content(bs) => BlocksGroups(bs)
  }

  /** The steps of a file from the last line back to line `i`. */
  function GroupsFrom(file: seq<Entry>, i: nat): seq<Group>
    requires i <= |file|
    decreases |file| - i
  {
    if i == |file| then [] else GroupsFrom(file, i + 1) + EntryGroups(file[i])
  }

  function Added(fps: seq<string>, g: Group, max: nat): seq<string> {
    if |fps| >= max then fps
    else if g.cut && |fps + g.fps| > max then (fps + g.fps)[..max]
    else fps + g.fps
  }

  /** What is collected once the steps have followed on `fps`: no step is begun when
      the limit is reached. */
  function Resume(fps: seq<string>, gs: seq<Group>, max: nat): seq<string> {
    if gs == [] then fps
    else Added(Resume(fps, gs[..|gs| - 1], max), gs[|gs| - 1], max)
  }

  function Gather(gs: seq<Group>, max: nat): seq<string> {
    Resume([], gs, max)
  }

  function Extraction(file: seq<Entry>, max: nat): seq<string> {
    Gather(GroupsFrom(file, 0), max)
  }

  /* ---------- extraction ---------- */

  lemma {:induction false} ResumeOfConcat(fps: seq<string>, a: seq<Group>, b: seq<Group>, max: nat)
    ensures Resume(fps, a + b, max) == Resume(Resume(fps, a, max), b, max)
  {
    if b == [] {
      assert a + b == a;
    } else {
      assert (a + b)[..|a + b| - 1] == a + b[..|b| - 1];
      ResumeOfConcat(fps, a, b[..|b| - 1], max);
    }
  }

  /** A full collection is final. */
  lemma {:induction false} FullStays(fps: seq<string>, gs: seq<Group>, max: nat)
    requires |fps| >= max
    ensures Resume(fps, gs, max) == fps
  {
    if gs != [] {
      FullStays(fps, gs[..|gs| - 1], max);
    }
  }

  lemma FullPartIsAll(fps: seq<string>, a: seq<Group>, b: seq<Group>, max: nat)
    requires |Resume(fps, a, max)| >= max
    ensures Resume(fps, a + b, max) == Resume(fps, a, max)
  {
    ResumeOfConcat(fps, a, b, max);
    FullStays(Resume(fps, a, max), b, max);
  }

  lemma ResumeOne(fps: seq<string>, g: Group, max: nat)
    ensures Resume(fps, [g], max) == Added(fps, g, max)
  {
    assert Resume(fps, [g][..0], max) == fps;
  }

  method AppendLine(fps: seq<string>, line: string) returns (r: seq<string>)
    ensures r == fps + LineGroup(line).fps
  {
    r := fps;
    if 8 <= |line| <= 120 {
      r := r + [line];
      var parts := Fields(line);
      var limit := 4;
      if |parts| < limit {
        limit := |parts|;
      }
      for i := 0 to limit
        invariant r == fps + ([line] + LongWords(parts, i))
      {
        if |parts[i]| >= 3 {
          r := r + [parts[i]];
        }
      }
    }
  }

  lemma {:induction false} LinesSplit(lines: seq<string>, i: nat)
    requires i <= |lines|
    ensures LineGroups(lines) == LineGroups(lines[..i]) + LineGroups(lines[i..])
    decreases |lines|
  {
    if i == |lines| {
      assert lines[..i] == lines;
    } else {
      var front := lines[..|lines| - 1];
      LinesSplit(front, i);
      assert front[..i] == lines[..i];
      assert lines[i..][..|lines| - i - 1] == front[i..];
    }
  }

  lemma NextLine(fps: seq<string>, lines: seq<string>, i: nat, max: nat)
    requires i < |lines|
    ensures Resume(fps, LineGroups(lines[..i + 1]), max)
         == Added(Resume(fps, LineGroups(lines[..i]), max), LineGroup(lines[i]), max)
  {
    assert lines[..i + 1][..i] == lines[..i];
    var gs := LineGroups(lines[..i + 1]);
    assert gs[..|gs| - 1] == LineGroups(lines[..i]);
  }

  method AppendLines(fps: seq<string>, lines: seq<string>, max: nat) returns (r: seq<string>)
    requires |fps| < max
    ensures r == Resume(fps, LineGroups(lines), max)
  {
    r := fps;
    for i := 0 to |lines|
      invariant r == Resume(fps, LineGroups(lines[..i]), max) && |r| < max
    {
      NextLine(fps, lines, i, max);
      r := AppendLine(r, lines[i]);
      if |r| >= max {
        LinesSplit(lines, i + 1);
        FullPartIsAll(fps, LineGroups(lines[..i + 1]), LineGroups(lines[i + 1..]), max);
        return;
      }
    }
    assert lines[..|lines|] == lines;
  }

  method AppendTokens(fps: seq<string>, tokens: seq<string>) returns (r: seq<string>)
    ensures r == fps + TokenFps(tokens)
  {
    r := fps;
    for i := 0 to |tokens|
      invariant r == fps + TokenFps(tokens[..i])
    {
      assert tokens[..i + 1][..i] == tokens[..i];
      var token := tokens[i];
      if |token| >= 3 {
        if |token| > 80 {
          token := token[..80];
        }
        r := r + [token];
      }
    }
    assert tokens[..|tokens|] == tokens;
  }

  method AppendBlock(fps: seq<string>, b: Block, max: nat) returns (r: seq<string>)
    requires |fps| < max
    ensures r == Resume(fps, BlockGroups(b), max)
  {
    match b
    case Ignored =>
      r := fps;
    case TextBlock(lines) =>
      r := AppendLines(fps, lines, max);
    case ToolUse(tokens) =>
      r := AppendTokens(fps, tokens);
      if |r| > max {
        r := r[..max];
      }
      ResumeOne(fps, Group(TokenFps(tokens), true), max);
  }

  lemma {:induction false} BlocksSplit(bs: seq<Block>, i: nat)
    requires i <= |bs|
    ensures BlocksGroups(bs) == BlocksGroups(bs[..i]) + BlocksGroups(bs[i..])
    decreases |bs|
  {
    hide BlockGroups;
    if i == |bs| {
      assert bs[..i] == bs;
    } else {
      var front := bs[..|bs| - 1];
      BlocksSplit(front, i);
      assert front[..i] == bs[..i];
      assert bs[i..][..|bs| - i - 1] == front[i..];
    }
  }

  method AppendBlocks(fps: seq<string>, bs: seq<Block>, max: nat) returns (r: seq<string>)
    ensures r == Resume(fps, BlocksGroups(bs), max)
  {
    r := fps;
    for i := 0 to |bs|
      invariant r == Resume(fps, BlocksGroups(bs[..i]), max)
    {
      if |r| >= max {
        BlocksSplit(bs, i);
        FullPartIsAll(fps, BlocksGroups(bs[..i]), BlocksGroups(bs[i..]), max);
        return;
      }
      assert bs[..i + 1][..i] == bs[..i];
      ResumeOfConcat(fps, BlocksGroups(bs[..i]), BlockGroups(bs[i]), max);
      r := AppendBlock(r, bs[i], max);
    }
    assert bs[..|bs|] == bs;
  }

  lemma {:induction false} GroupsSplit(file: seq<Entry>, i: nat)
    requires i <= |file|
    ensures GroupsFrom(file, i) <= GroupsFrom(file, 0)
    decreases i
  {
    hide EntryGroups;
    if i > 0 {
      GroupsSplit(file, i - 1);
    }
  }

  method ExtractFingerprintsUncached(file: seq<Entry>, max: nat) returns (fps: seq<string>)
    ensures fps == Extraction(file, max)
  {
    fps := [];
    var i := |file|;
    while i > 0 && |fps| < max
      invariant 0 <= i <= |file|
      invariant fps == Gather(GroupsFrom(file, i), max)
    {
      i := i - 1;
      ResumeOfConcat([], GroupsFrom(file, i + 1), EntryGroups(file[i]), max);
      match file[i]
      case Skipped =>
      case Said(t) =>
        ResumeOne(fps, Group(if |t| >= 3 then [Clip(t)] else [], false), max);
        if |t| >= 3 {
          fps := fps + [if |t| > 80 then t[..80] else t];
        }
      case Content(bs) =>
        fps := AppendBlocks(fps, bs, max);
    }
    if i > 0 {
      GroupsSplit(file, i);
      var all, part := GroupsFrom(file, 0), GroupsFrom(file, i);
      FullPartIsAll([], part, all[|part|..], max);
      assert all == part + all[|part|..];
    }
  }

  /* ---------- what a limit does ---------- */

  /** Everything there is to collect. */
  function All(gs: seq<Group>): seq<string> {
    if gs == [] then [] else All(gs[..|gs| - 1]) + gs[|gs| - 1].fps
  }

  function Take(fps: seq<string>, n: nat): seq<string> {
    if |fps| > n then fps[..n] else fps
  }

  /** With a limit, extraction yields a beginning of what there is, at least as much
      as the limit asks for. */
  lemma {:induction false} GatherIsABeginning(gs: seq<Group>, max: nat)
    ensures Gather(gs, max) <= All(gs)
    ensures Take(Gather(gs, max), max) == Take(All(gs), max)
  {
    if gs != [] {
      GatherIsABeginning(gs[..|gs| - 1], max);
    }
  }

  /** The first `k` fingerprints do not depend on the limit, when that is at least `k`. */
  lemma LimitsAgree(file: seq<Entry>, k: nat, limit: nat)
    requires k <= limit
    ensures Take(Extraction(file, limit), k) == Take(Extraction(file, k), k)
  {
    var gs := GroupsFrom(file, 0);
    GatherIsABeginning(gs, k);
    GatherIsABeginning(gs, limit);
    var a, all := Gather(gs, limit), All(gs);
    assert Take(Take(a, limit), k) == Take(a, k);
    assert Take(Take(all, limit), k) == Take(all, k);
  }

  /* ---------- what there is to collect ---------- */

  /** Those that have at least three bytes. */
  function LongOnes(words: seq<string>): seq<string> {
    if words == [] then []
    else (if |words[0]| >= 3 then [words[0]] else []) + LongOnes(words[1..])
  }

  /** The beginnings, of 80 bytes at most, of those that have at least three. */
  function Beginnings(texts: seq<string>): seq<string> {
    if texts == [] then []
    else
      var t := texts[0];
      (if |t| < 3 then [] else if |t| <= 80 then [t] else [t[..80]]) + Beginnings(texts[1..])
  }

  /** A line of 8 to 120 bytes counts itself and the long ones of its first four words. */
  function MentionsOfLine(line: string): seq<string> {
    var words := Fields(line);
    if |line| < 8 || |line| > 120 then []
    else [line] + LongOnes(if |words| > 4 then words[..4] else words)
  }

  function MentionsOfLines(lines: seq<string>): seq<string> {
    if lines == [] then [] else MentionsOfLine(lines[0]) + MentionsOfLines(lines[1..])
  }

  function MentionsOfBlock(b: Block): seq<string> {
    match b
    case Ignored => []
    case TextBlock(lines) => MentionsOfLines(lines)
    case ToolUse(tokens) => Beginnings(tokens)
  }

  function MentionsOfBlocks(bs: seq<Block>): seq<string> {
    if bs == [] then [] else MentionsOfBlock(bs[0]) + MentionsOfBlocks(bs[1..])
  }

  function MentionsOf(e: Entry): seq<string> {
    match e
    case Skipped => []
    case Said(t) => Beginnings([t])
    case Content(bs) => MentionsOfBlocks(bs)
  }

  /** What a session mentions, the newest entry first. */
  function Mentions(file: seq<Entry>): seq<string> {
    if file == [] then [] else MentionsOf(file[|file| - 1]) + Mentions(file[..|file| - 1])
  }

  /** A line of blanks and words is cut into the words. */
  lemma FieldsAreTheWords(word: string, rest: string)
    requires word != "" && ' ' !in word
    ensures Fields("") == [] && Fields(word) == [word]
    ensures Fields(" " + rest) == Fields(rest) && Fields(word + " " + rest) == [word] + Fields(rest)
  {
    FirstField(word, rest);
    WordEndIs(word, "");
    assert word + "" == word;
    assert (" " + rest)[1..] == rest;
    assert Fields(word) == [word[..|word|]] + Fields(word[|word|..]);
  }

  lemma {:induction false} LongWordsAreLong(words: seq<string>, n: nat, i: nat)
    requires i <= n <= |words|
    ensures LongWords(words, n) == LongWords(words, i) + LongOnes(words[i..n])
    decreases n - i
  {
    if i < n {
      LongWordsAreLong(words, n, i + 1);
      assert words[i..n][1..] == words[i + 1..n];
    }
  }

  lemma LineMentions(line: string)
    ensures LineGroup(line).fps == MentionsOfLine(line)
  {
    var words := Fields(line);
    var n := if |words| < 4 then |words| else 4;
    LongWordsAreLong(words, n, 0);
    assert words[0..n] == if |words| > 4 then words[..4] else words;
    assert LongWords(words, 0) == [];
  }

  lemma {:induction false} TokensMention(tokens: seq<string>, i: nat)
    requires i <= |tokens|
    ensures TokenFps(tokens) == TokenFps(tokens[..i]) + Beginnings(tokens[i..])
    decreases |tokens| - i
  {
    if i == |tokens| {
      assert tokens[..i] == tokens;
    } else {
      TokensMention(tokens, i + 1);
      assert tokens[..i + 1][..i] == tokens[..i];
      assert tokens[i..][1..] == tokens[i + 1..];
    }
  }

  lemma {:induction false} AllOfConcat(a: seq<Group>, b: seq<Group>)
    ensures All(a + b) == All(a) + All(b)
  {
    if b == [] {
      assert a + b == a;
    } else {
      assert (a + b)[..|a + b| - 1] == a + b[..|b| - 1];
      AllOfConcat(a, b[..|b| - 1]);
    }
  }

  lemma AllOfOne(g: Group)
    ensures All([g]) == g.fps
  {
    assert All([g][..0]) == [];
  }

  lemma FirstGroup(lines: seq<string>)
    requires lines != []
    ensures LineGroups(lines) == [LineGroup(lines[0])] + LineGroups(lines[1..])
  {
    hide LineGroup;
    LinesSplit(lines, 1);
    OneGroup(lines[0]);
    assert lines[..1] == [lines[0]];
  }

  lemma OneGroup(line: string)
    ensures LineGroups([line]) == [LineGroup(line)]
  {
    hide LineGroup;
    assert [line][..0] == [] && LineGroups([]) == [];
  }

  lemma FirstLine(lines: seq<string>)
    requires lines != []
    ensures All(LineGroups(lines)) == LineGroup(lines[0]).fps + All(LineGroups(lines[1..]))
  {
    hide *;
    FirstGroup(lines);
    AllOfConcat([LineGroup(lines[0])], LineGroups(lines[1..]));
    AllOfOne(LineGroup(lines[0]));
  }

  lemma {:induction false} LinesMention(lines: seq<string>)
    ensures All(LineGroups(lines)) == MentionsOfLines(lines)
  {
    if lines != [] {
      FirstLine(lines);
      LineMentions(lines[0]);
      hide All, LineGroups, LineGroup, MentionsOfLine;
      LinesMention(lines[1..]);
    }
  }

  lemma FirstBlock(bs: seq<Block>)
    requires bs != []
    ensures All(BlocksGroups(bs)) == All(BlockGroups(bs[0])) + All(BlocksGroups(bs[1..]))
  {
    hide BlockGroups;
    BlocksSplit(bs, 1);
    AllOfConcat(BlocksGroups(bs[..1]), BlocksGroups(bs[1..]));
    assert bs[..1] == [bs[0]] && [bs[0]][..0] == [];
    assert BlocksGroups([bs[0]]) == BlockGroups(bs[0]);
  }

  lemma BlockMentions(b: Block)
    ensures All(BlockGroups(b)) == MentionsOfBlock(b)
  {
    match b {
      case Ignored =>
      case TextBlock(lines) => LinesMention(lines);
      case ToolUse(tokens) =>
        TokensMention(tokens, 0);
        AllOfOne(Group(TokenFps(tokens), true));
    }
  }

  lemma {:induction false} BlocksMention(bs: seq<Block>)
    ensures All(BlocksGroups(bs)) == MentionsOfBlocks(bs)
  {
    if bs != [] {
      hide BlockGroups, All, MentionsOfBlock, BlocksGroups;
      FirstBlock(bs);
      BlockMentions(bs[0]);
      BlocksMention(bs[1..]);
    } else {
      assert All([]) == [];
    }
  }

  lemma EntryMentions(e: Entry)
    ensures All(EntryGroups(e)) == MentionsOf(e)
  {
    match e {
      case Skipped =>
      case Said(t) =>
        AllOfOne(EntryGroups(e)[0]);
        assert [t][1..] == [];
        assert Beginnings([t]) == if |t| < 3 then [] else [Clip(t)];
      case Content(bs) => BlocksMention(bs);
    }
  }

  lemma {:induction false} FileMentions(file: seq<Entry>, i: nat)
    requires i <= |file|
    ensures All(GroupsFrom(file, i)) == Mentions(file[i..])
    decreases |file| - i
  {
    hide EntryGroups, MentionsOf, Mentions, All;
    if i < |file| {
      FileMentions(file, i + 1);
      AllOfConcat(GroupsFrom(file, i + 1), EntryGroups(file[i]));
      EntryMentions(file[i]);
      MentionsOfMore(file[i], file[i + 1..]);
      assert file[i..] == [file[i]] + file[i + 1..];
    } else {
      assert file[i..] == [];
      NothingMentionsNothing();
    }
  }

  lemma NothingMentionsNothing()
    ensures Mentions([]) == [] == All([])
  {
  }

  lemma {:induction false} MentionsOfMore(e: Entry, file: seq<Entry>)
    ensures Mentions([e] + file) == Mentions(file) + MentionsOf(e)
  {
    hide MentionsOf;
    if file == [] {
      assert [e] + file == [e] && [e][..0] == [];
    } else {
      var n := |file| - 1;
      MentionsOfMore(e, file[..n]);
      assert ([e] + file)[..n + 1] == [e] + file[..n];
    }
  }

  /** Extraction collects what the session mentions, from the newest entry back; with
      a limit it yields a beginning of that, as much as the limit asks for and no more
      than the last line or word list begun below the limit adds. */
  lemma ExtractionIsWhatIsMentioned(file: seq<Entry>, max: nat)
    ensures Extraction(file, max) <= Mentions(file)
    ensures Take(Extraction(file, max), max) == Take(Mentions(file), max)
  {
    FileMentions(file, 0);
    assert file[0..] == file;
    GatherIsABeginning(GroupsFrom(file, 0), max);
  }

  /** Step `i` is a line of text whose fingerprints straddle the limit. */
  predicate Straddles(gs: seq<Group>, i: nat, max: nat) {
    i < |gs| && !gs[i].cut && |All(gs[..i])| < max < |All(gs[..i])| + |gs[i].fps|
  }

  ghost predicate SomeLineStraddles(gs: seq<Group>, max: nat) {
    exists i: nat :: Straddles(gs, i, max)
  }

  lemma StraddlesInFront(gs: seq<Group>, i: nat, max: nat)
    requires i < |gs| - 1
    ensures Straddles(gs[..|gs| - 1], i, max) <==> Straddles(gs, i, max)
  {
    assert gs[..|gs| - 1][..i] == gs[..i];
  }

  /** A collection exceeds its limit exactly when some line of text begins below the
      limit and ends above it. */
  lemma {:induction false} OvershootsExactlyWhen(gs: seq<Group>, max: nat)
    ensures |Gather(gs, max)| > max <==> SomeLineStraddles(gs, max)
  {
    if gs != [] {
      var n := |gs| - 1;
      OvershootsExactlyWhen(gs[..n], max);
      GatherIsABeginning(gs[..n], max);
      if i: nat :| Straddles(gs[..n], i, max) {
        StraddlesInFront(gs, i, max);
      }
      if i: nat :| i < n && Straddles(gs, i, max) {
        StraddlesInFront(gs, i, max);
      }
      if |Gather(gs[..n], max)| <= max && |Gather(gs, max)| > max {
        assert Straddles(gs, n, max);
      }
    }
  }

  /** A miss returns what the hit after it returns exactly when no line of text
      straddles the limit. */
  lemma MissEqualsHitExactlyWhen(file: seq<Entry>, max: nat)
    ensures Extraction(file, max) == Take(Extraction(file, max), max)
       <==> !SomeLineStraddles(GroupsFrom(file, 0), max)
  {
    OvershootsExactlyWhen(GroupsFrom(file, 0), max);
    var fps := Extraction(file, max);
    assert fps == Take(fps, max) <==> |fps| <= max;
  }

  predicate SmallSteps(gs: seq<Group>) {
    forall g <- gs :: !g.cut ==> |g.fps| <= 5
  }

  lemma {:induction false} LineStepsAreSmall(lines: seq<string>)
    ensures SmallSteps(LineGroups(lines))
  {
    if lines != [] {
      LineStepsAreSmall(lines[..|lines| - 1]);
    }
  }

  lemma {:induction false} BlockStepsAreSmall(bs: seq<Block>)
    ensures SmallSteps(BlocksGroups(bs))
  {
    if bs != [] {
      BlockStepsAreSmall(bs[..|bs| - 1]);
      var b := bs[|bs| - 1];
      if b.TextBlock? {
        LineStepsAreSmall(b.lines);
      }
    }
  }

  lemma EntryStepsAreSmall(e: Entry)
    ensures SmallSteps(EntryGroups(e))
  {
    if e.Content? {
      BlockStepsAreSmall(e.blocks);
    }
  }

  lemma {:induction false} StepsAreSmall(file: seq<Entry>, i: nat)
    requires i <= |file|
    ensures SmallSteps(GroupsFrom(file, i))
    decreases |file| - i
  {
    hide EntryGroups;
    if i < |file| {
      StepsAreSmall(file, i + 1);
      EntryStepsAreSmall(file[i]);
    }
  }

  lemma {:induction false} SmallStepsOvershootByFour(gs: seq<Group>, max: nat)
    requires SmallSteps(gs)
    ensures |Gather(gs, max)| <= max + 4
  {
    if gs != [] {
      var front := gs[..|gs| - 1];
      assert forall g <- front :: g in gs;
      SmallStepsOvershootByFour(front, max);
      assert gs[|gs| - 1] in gs;
    }
  }

  /** A line of text may push the collection over the limit, but by four at most. */
  lemma OvershootIsAtMostFour(file: seq<Entry>, max: nat)
    ensures |Extraction(file, max)| <= max + 4
  {
    StepsAreSmall(file, 0);
    SmallStepsOvershootByFour(GroupsFrom(file, 0), max);
  }

  /* ---------- the cache ---------- */

  /** A file version: its path with its time of change and size. */
  datatype Version = Version(path: string, modTime: int, size: nat)
  datatype Cached = Cached(fps: seq<string>, maxFPs: nat, expiry: int)

  class FingerprintCache {
    var cache: map<Version, Cached>
    var extractions: nat
    const ttl: int
    const disk: Version -> seq<Entry>   // what a version of a file holds

    /** Every entry is an extraction with the limit noted beside it. */
    ghost predicate Valid()
      reads this
    {
      && |cache| <= MAX_ENTRIES
      && forall v <- cache :: cache[v].fps == Extraction(disk(v), cache[v].maxFPs)
    }

    constructor (ttl: int, disk: Version -> seq<Entry>)
      ensures Valid() && cache == map[] && extractions == 0
      ensures this.ttl == ttl && this.disk == disk
    {
      cache := map[];
      extractions := 0;
      this.ttl := ttl;
      this.disk := disk;
    }

    predicate Hit(v: Version, maxFPs: nat, now: int)
      reads this
    {
      v in cache && now < cache[v].expiry && cache[v].maxFPs >= maxFPs
    }

    /** Cached or not, the first `maxFPs` fingerprints are those of the file now; a
        hit returns no more than them.  The file is left alone exactly when an extraction
        of it is cached that has not expired and had no smaller limit. */
    method ExtractFingerprints(v: Version, maxFPs: nat, now: int) returns (fps: seq<string>)
      requires Valid()
      modifies this
      ensures Valid()
      ensures Take(fps, maxFPs) == Take(Extraction(disk(v), maxFPs), maxFPs)
      ensures |cache| <= 200
      ensures extractions == old(extractions) <==>
              v in old(cache) && now < old(cache)[v].expiry && old(cache)[v].maxFPs >= maxFPs
      ensures old(Hit(v, maxFPs, now)) ==>
                && |fps| <= maxFPs
                && fps == Take(Extraction(disk(v), maxFPs), maxFPs) && cache == old(cache)
                && extractions == old(extractions)
      ensures !old(Hit(v, maxFPs, now)) ==>
                && fps == Extraction(disk(v), maxFPs) && |fps| <= maxFPs + 4
                && extractions == old(extractions) + 1
                && cache == (if |old(cache)| >= 200 then map[] else old(cache))
                            [v := Cached(fps, maxFPs, now + ttl)]
    {
      if v in cache && now < cache[v].expiry && cache[v].maxFPs >= maxFPs {
        LimitsAgree(disk(v), maxFPs, cache[v].maxFPs);
        fps := cache[v].fps;
        if |fps| > maxFPs {
          fps := fps[..maxFPs];
        }
        return;
      }
      fps := ExtractFingerprintsUncached(disk(v), maxFPs);
      OvershootIsAtMostFour(disk(v), maxFPs);
      extractions := extractions + 1;
      if |cache| >= MAX_ENTRIES {
        cache := map[];
      }
      PutGrowsByOne(cache, v, Cached(fps, maxFPs, now + ttl));
      cache := cache[v := Cached(fps, maxFPs, now + ttl)];
    }

    static lemma PutGrowsByOne(m: map<Version, Cached>, v: Version, c: Cached)
      ensures |m[v := c]| <= |m| + 1
    {
      assert m[v := c].Keys == m.Keys + {v};
      assert |m[v := c].Keys| == |m[v := c]| && |m.Keys| == |m|;
    }
  }

  lemma {:induction false} WordEndIs(word: string, rest: string)
    requires ' ' !in word && (rest == "" || rest[0] == ' ')
    ensures WordEnd(word + rest) == |word|
  {
    if word == "" {
      assert word + rest == rest;
    } else {
      assert (word + rest)[1..] == word[1..] + rest;
      WordEndIs(word[1..], rest);
    }
  }

  lemma FirstField(word: string, rest: string)
    requires word != "" && ' ' !in word
    ensures Fields(word) == [word]
    ensures Fields(word + " " + rest) == [word] + Fields(rest)
  {
    WordEndIs(word, "");
    assert word + "" == word;
    WordEndIs(word, " " + rest);
    var line := word + (" " + rest);
    assert line == word + " " + rest;
    assert line[..|word|] == word && line[|word|..] == " " + rest && (" " + rest)[1..] == rest;
    assert line[0] == word[0] != ' ';
  }

  lemma OneLineFile(line: string)
    ensures Extraction([Content([TextBlock([line])])], 1) == LineGroup(line).fps
  {
    var g := LineGroup(line);
    assert LineGroups([line]) == [g];
    assert BlocksGroups([TextBlock([line])]) == [g];
    assert GroupsFrom([Content([TextBlock([line])])], 0) == [g];
    ResumeOne([], g, 1);
  }

  lemma FourWords(word: string)
    requires |word| >= 3
    ensures LongWords([word, word, word, word], 4) == [word, word, word, word]
  {
    var words := [word, word, word, word];
    assert LongWords(words, 1) == [word];
    assert LongWords(words, 2) == [word, word];
    assert LongWords(words, 3) == [word, word, word];
  }

  function Before(word: string, rest: string): string {
    word + " " + rest
  }

  lemma FieldsOfFour(word: string)
    requires word != "" && ' ' !in word
    ensures Fields(Before(word, Before(word, Before(word, word)))) == [word, word, word, word]
  {
    FirstField(word, word);
    FirstField(word, Before(word, word));
    FirstField(word, Before(word, Before(word, word)));
  }

  /** A miss may return more than the hit after it, and by as much as four: a line of
      four words gives five fingerprints where one was asked for. */
  lemma MissMayReturnMore(word: string)
    requires 3 <= |word| <= 20 && ' ' !in word
    ensures var line := Before(word, Before(word, Before(word, word)));
            Extraction([Content([TextBlock([line])])], 1) == [line, word, word, word, word]
  {
    var line := Before(word, Before(word, Before(word, word)));
    FieldsOfFour(word);
    OneLineFile(line);
    FourFieldsMakeFive(line, word);
  }

  lemma FourFieldsMakeFive(line: string, word: string)
    requires 8 <= |line| <= 120 && |word| >= 3 && Fields(line) == [word, word, word, word]
    ensures LineGroup(line).fps == [line, word, word, word, word]
  {
    FourWords(word);
    assert LineGroup(line).fps == [line] + LongWords(Fields(line), 4);
  }
}
