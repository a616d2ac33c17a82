/** Which of the running processes are top-level agents: those without an agent among
    their ancestors.  The process table is whatever was read, cycles included. */
module AgentForest {
  import opened Options

  datatype Process = Process(pid: int, ppid: int, provider: string)

  predicate IsAgent(p: Process) {
    p.provider == "claude" || p.provider == "opencode" || p.provider == "hermes" || p.provider == "codex"
  }

  /** Processes by id; of several with one id the last counts. */
  function ByPID(ps: seq<Process>): map<int, Process> {
    if ps == [] then map[]
    else
      var last := ps[|ps| - 1];
      ByPID(ps[..|ps| - 1])[last.pid := last]
  }

  /** The process `n` parent steps above, as long as the table knows the parents. */
  function Ancestor(table: map<int, Process>, p: Process, n: nat): Option<Process> {
    if n == 0 then Some(p)
    else
      match Ancestor(table, p, n - 1)
      case None => None
      case Some(q) => if q.ppid > 0 && q.ppid in table then Some(table[q.ppid]) else None
  }

  ghost predicate AgentAt(table: map<int, Process>, p: Process, n: nat) {
    Ancestor(table, p, n).Some? && IsAgent(Ancestor(table, p, n).value)
  }

  ghost predicate AgentAbove(table: map<int, Process>, p: Process) {
    exists n: nat :: n >= 1 && AgentAt(table, p, n)
  }

  /* ---------- the walk ---------- */

  lemma {:induction false} AncestorOfAncestor(table: map<int, Process>, p: Process, n: nat, k: nat)
    requires Ancestor(table, p, n).Some?
    ensures Ancestor(table, p, n + k) == Ancestor(table, Ancestor(table, p, n).value, k)
  {
    if k > 0 {
      AncestorOfAncestor(table, p, n, k - 1);
      assert Ancestor(table, p, n + k) ==
             match Ancestor(table, p, n + (k - 1))
             case None => None
             case Some(q) => if q.ppid > 0 && q.ppid in table then Some(table[q.ppid]) else None;
    }
  }

  /** Once the walk ends, it has ended. */
  lemma {:induction false} NothingAboveTheEnd(table: map<int, Process>, p: Process, n: nat, k: nat)
    requires n <= k && Ancestor(table, p, n).None?
    ensures Ancestor(table, p, k).None?
  {
    if n < k {
      NothingAboveTheEnd(table, p, n, k - 1);
    }
  }

  /** Once the walk comes back to where it was, it meets no one new. */
  lemma {:induction false} NothingNewOnACycle(table: map<int, Process>, p: Process, m: nat, n: nat, k: nat)
    returns (i: nat)
    requires 1 <= m <= n && 1 <= k && Ancestor(table, p, n + 1) == Ancestor(table, p, m)
    ensures 1 <= i <= n && Ancestor(table, p, k) == Ancestor(table, p, i)
  {
    if k <= n {
      i := k;
    } else {
      i := NothingNewOnACycle(table, p, m, n, k - 1);
      i := if i == n then m else i + 1;
    }
  }

  /** The parent ids looked up on the first `n` steps. */
  ghost predicate Seen(table: map<int, Process>, p: Process, n: nat, seen: set<int>) {
    forall id <- seen :: exists m: nat :: 1 <= m <= n && IsStep(table, p, m, id)
  }

  ghost predicate IsStep(table: map<int, Process>, p: Process, m: nat, id: int) {
    m >= 1 && id > 0 && id in table && Ancestor(table, p, m) == Some(table[id])
  }

  lemma NoAgentOnACycle(table: map<int, Process>, p: Process, n: nat, seen: set<int>, id: int)
    requires Ancestor(table, p, n).Some? && Ancestor(table, p, n).value.ppid == id && id in seen
    requires Seen(table, p, n, seen)
    requires forall i: nat :: 1 <= i <= n ==> !AgentAt(table, p, i)
    ensures !AgentAbove(table, p)
  {
    var m: nat :| 1 <= m <= n && IsStep(table, p, m, id);
    assert Ancestor(table, p, n + 1) == Some(table[id]);
    forall k: nat | k >= 1 ensures !AgentAt(table, p, k) {
      var i := NothingNewOnACycle(table, p, m, n, k);
      assert !AgentAt(table, p, i);
    }
  }

  lemma NoAgentBeforeTheEnd(table: map<int, Process>, p: Process, n: nat)
    requires Ancestor(table, p, n + 1).None?
    requires forall i: nat :: 1 <= i <= n ==> !AgentAt(table, p, i)
    ensures !AgentAbove(table, p)
  {
    forall k: nat | k >= 1 ensures !AgentAt(table, p, k) {
      if k > n {
        NothingAboveTheEnd(table, p, n + 1, k);
      }
    }
  }

  /** The walk ends on every table, and finds an agent exactly when there is one. */
  method HasAIAgentAncestor(proc: Process, byPID: map<int, Process>) returns (found: bool)
    ensures found == AgentAbove(byPID, proc)
  {
    var seen: set<int> := {};
    var parentPID := proc.ppid;
    ghost var n: nat := 0;
    while parentPID > 0
      invariant Ancestor(byPID, proc, n).Some? && Ancestor(byPID, proc, n).value.ppid == parentPID
      invariant seen <= byPID.Keys && Seen(byPID, proc, n, seen)
      invariant forall i: nat :: 1 <= i <= n ==> !AgentAt(byPID, proc, i)
      decreases byPID.Keys - seen
    {
      if parentPID in seen {
        NoAgentOnACycle(byPID, proc, n, seen, parentPID);
        return false;
      }
      if parentPID !in byPID {
        NoAgentBeforeTheEnd(byPID, proc, n);
        return false;
      }
      seen := seen + {parentPID};
      var parent := byPID[parentPID];
      n := n + 1;
      assert IsStep(byPID, proc, n, parentPID);
      if IsAgent(parent) {
        assert AgentAt(byPID, proc, n);
        return true;
      }
      parentPID := parent.ppid;
    }
    NoAgentBeforeTheEnd(byPID, proc, n);
    return false;
  }

  /* ---------- the filter ---------- */

  ghost function TopLevel(table: map<int, Process>, ps: seq<Process>): seq<Process> {
    if ps == [] then []
    else
      var last := ps[|ps| - 1];
      TopLevel(table, ps[..|ps| - 1]) + if AgentAbove(table, last) then [] else [last]
  }

  method FilterParentAgents(processes: seq<Process>) returns (out: seq<Process>)
    ensures out == TopLevel(ByPID(processes), processes)
  {
    var byPID: map<int, Process> := map[];
    for i := 0 to |processes|
      invariant byPID == ByPID(processes[..i])
    {
      assert processes[..i + 1][..i] == processes[..i];
      byPID := byPID[processes[i].pid := processes[i]];
    }
    assert processes[..|processes|] == processes;
    out := [];
    for i := 0 to |processes|
      invariant out == TopLevel(byPID, processes[..i])
    {
      assert processes[..i + 1][..i] == processes[..i];
      var has := HasAIAgentAncestor(processes[i], byPID);
      if has {
        continue;
      }
      out := out + [processes[i]];
    }
  }

  lemma {:induction false} KeptExactlyWhen(table: map<int, Process>, ps: seq<Process>, p: Process)
    ensures p in TopLevel(table, ps) <==> p in ps && !AgentAbove(table, p)
  {
    if ps != [] {
      KeptExactlyWhen(table, ps[..|ps| - 1], p);
      assert ps == ps[..|ps| - 1] + [ps[|ps| - 1]];
    }
  }

  lemma {:induction false} TableHoldsProcesses(ps: seq<Process>)
    ensures forall id <- ByPID(ps) :: ByPID(ps)[id] in ps && ByPID(ps)[id].pid == id
  {
    if ps != [] {
      TableHoldsProcesses(ps[..|ps| - 1]);
      assert ps == ps[..|ps| - 1] + [ps[|ps| - 1]];
    }
  }

  lemma {:induction false} AncestorsAreProcesses(ps: seq<Process>, p: Process, n: nat)
    requires p in ps && Ancestor(ByPID(ps), p, n).Some?
    ensures Ancestor(ByPID(ps), p, n).value in ps
  {
    if n > 0 {
      TableHoldsProcesses(ps);
    }
  }

  /** The process is among its own ancestors. */
  ghost predicate OnACycle(table: map<int, Process>, p: Process) {
    exists k: nat :: k >= 1 && Ancestor(table, p, k) == Some(p)
  }

  /** Some agent among the process and its ancestors is its own ancestor. */
  ghost predicate AgentCycleAbove(table: map<int, Process>, p: Process) {
    exists n: nat :: AgentAt(table, p, n) && OnACycle(table, Ancestor(table, p, n).value)
  }

  /** The process or one of its ancestors is kept by the filter. */
  ghost predicate Represented(ps: seq<Process>, p: Process) {
    exists n: nat :: KeptAt(ps, p, n)
  }

  ghost predicate KeptAt(ps: seq<Process>, p: Process, n: nat) {
    var a := Ancestor(ByPID(ps), p, n);
    a.Some? && a.value in TopLevel(ByPID(ps), ps)
  }

  /** A member of a cycle meets itself again, however far it has gone. */
  lemma ComesRound(table: map<int, Process>, a: Process, k: nat, t: nat) returns (s: nat)
    requires k >= 1 && Ancestor(table, a, k) == Some(a)
    ensures s > t && Ancestor(table, a, s) == Some(a)
  {
    s := k;
    while s <= t
      invariant s >= k && Ancestor(table, a, s) == Some(a)
    {
      AncestorOfAncestor(table, a, s, k);
      s := s + k;
    }
  }

  /** Below an agent that is its own ancestor, and on its cycle, no one is kept. */
  lemma NoOneKeptBelowACycle(table: map<int, Process>, p: Process, n: nat, m: nat)
    requires AgentAt(table, p, n) && OnACycle(table, Ancestor(table, p, n).value)
    requires Ancestor(table, p, m).Some?
    ensures AgentAbove(table, Ancestor(table, p, m).value)
  {
    var a, q := Ancestor(table, p, n).value, Ancestor(table, p, m).value;
    var k: nat :| k >= 1 && Ancestor(table, a, k) == Some(a);
    var s := ComesRound(table, a, k, m);
    AncestorOfAncestor(table, p, n, s);
    AncestorOfAncestor(table, p, m, n + s - m);
    assert m + (n + s - m) == n + s;
    assert AgentAt(table, q, n + s - m);
  }

  ghost predicate MetWithin(table: map<int, Process>, p: Process, n: nat, a: Process) {
    exists m: nat :: m <= n && Ancestor(table, p, m) == Some(a)
  }

  lemma MetTwice(table: map<int, Process>, p: Process, n: nat, k: nat, a: Process)
    requires MetWithin(table, p, n, a) && n < k && Ancestor(table, p, k) == Some(a)
    ensures OnACycle(table, a)
  {
    var m: nat :| m <= n && Ancestor(table, p, m) == Some(a);
    AncestorOfAncestor(table, p, m, k - m);
    assert Ancestor(table, a, k - m) == Some(a);
  }

  /** Walking up from one agent to the next ends at one that has none above it, unless
      it comes to an agent again. */
  lemma ClimbsToTheTop(table: map<int, Process>, p: Process, n: nat, met: set<Process>) returns (k: nat)
    requires Ancestor(table, p, n).Some? && !AgentCycleAbove(table, p)
    requires met <= table.Values && forall a <- met :: MetWithin(table, p, n, a)
    ensures Ancestor(table, p, k).Some? && !AgentAbove(table, Ancestor(table, p, k).value)
    decreases table.Values - met
  {
    k := n;
    var q := Ancestor(table, p, n).value;
    if AgentAbove(table, q) {
      var d: nat :| d >= 1 && AgentAt(table, q, d);
      AncestorOfAncestor(table, p, n, d);
      var a := Ancestor(table, p, n + d).value;
      assert AgentAt(table, p, n + d);
      if MetWithin(table, p, n, a) {
        MetTwice(table, p, n, n + d, a);
      }
      assert a in table.Values;
      assert forall b <- met :: MetWithin(table, p, n, b) ==> MetWithin(table, p, n + d, b);
      assert MetWithin(table, p, n + d, a);
      k := ClimbsToTheTop(table, p, n + d, met + {a});
    }
  }

  /** For every process of every table: it or one of its ancestors is kept exactly
      when none of the agents among them is its own ancestor. */
  lemma RepresentedExactlyWhen(ps: seq<Process>, p: Process)
    requires p in ps
    ensures Represented(ps, p) <==> !AgentCycleAbove(ByPID(ps), p)
  {
    var table := ByPID(ps);
    if AgentCycleAbove(table, p) {
      var n: nat :| AgentAt(table, p, n) && OnACycle(table, Ancestor(table, p, n).value);
      forall m: nat ensures !KeptAt(ps, p, m) {
        var a := Ancestor(table, p, m);
        if a.Some? {
          NoOneKeptBelowACycle(table, p, n, m);
          KeptExactlyWhen(table, ps, a.value);
        }
      }
    } else {
      assert Ancestor(table, p, 0) == Some(p);
      var k := ClimbsToTheTop(table, p, 0, {});
      AncestorsAreProcesses(ps, p, k);
      KeptExactlyWhen(table, ps, Ancestor(table, p, k).value);
      assert KeptAt(ps, p, k);
    }
  }

  /** Without cycles every process has itself or an ancestor kept. */
  lemma AcyclicTablesLoseNoOne(ps: seq<Process>, p: Process)
    requires p in ps && forall q <- ps :: !OnACycle(ByPID(ps), q)
    ensures Represented(ps, p)
  {
    RepresentedExactlyWhen(ps, p);
    if AgentCycleAbove(ByPID(ps), p) {
      var n: nat :| AgentAt(ByPID(ps), p, n) && OnACycle(ByPID(ps), Ancestor(ByPID(ps), p, n).value);
      AncestorsAreProcesses(ps, p, n);
    }
  }

  /** Two agents that are each other's parent are both dropped. */
  lemma MutualParentsAreBothDropped(a: Process, b: Process)
    requires a.pid > 0 && b.pid > 0 && a.pid != b.pid && a.ppid == b.pid && b.ppid == a.pid && IsAgent(a) && IsAgent(b)
    ensures TopLevel(ByPID([a, b]), [a, b]) == []
  {
    var ps := [a, b];
    assert ps[..1] == [a] && [a][..0] == [];
    assert ByPID([a]) == map[a.pid := a];
    var table := ByPID(ps);
    assert table == map[a.pid := a, b.pid := b];
    assert Ancestor(table, a, 0) == Some(a) && Ancestor(table, b, 0) == Some(b);
    assert Ancestor(table, a, 1) == Some(b) && Ancestor(table, b, 1) == Some(a);
    assert AgentAt(table, a, 1) && AgentAt(table, b, 1);
    assert TopLevel(table, [a]) == [];
  }

  /* ---------- one process at a time ---------- */

  predicate KnownAgent(provider: string) {
    provider in ["claude", "opencode", "hermes", "codex"]
  }

  lemma ParentKnown(table: map<int, Process>, p: Process, n: nat)
    requires n >= 1 && Ancestor(table, p, n).Some?
    ensures p.ppid > 0 && p.ppid in table && Ancestor(table, p, n) == Ancestor(table, table[p.ppid], n - 1)
  {
    assert Ancestor(table, p, 0) == Some(p);
    if !(p.ppid > 0 && p.ppid in table) {
      assert Ancestor(table, p, 1).None?;
      NothingAboveTheEnd(table, p, 1, n);
    } else {
      assert Ancestor(table, p, 1) == Some(table[p.ppid]);
      AncestorOfAncestor(table, p, 1, n - 1);
    }
  }

  /** Whether an agent is above a process is settled by its parent: the table has it, and
      it is one of the four agents or has an agent above itself. */
  lemma AgentAboveExactlyWhen(table: map<int, Process>, p: Process)
    ensures AgentAbove(table, p) <==>
            && p.ppid > 0 && p.ppid in table
            && (KnownAgent(table[p.ppid].provider) || AgentAbove(table, table[p.ppid]))
  {
    if n: nat :| n >= 1 && AgentAt(table, p, n) {
      ParentKnown(table, p, n);
      var q := table[p.ppid];
      assert n == 1 ==> Ancestor(table, q, 0) == Some(q) && IsAgent(q);
      assert n > 1 ==> AgentAt(table, q, n - 1);
    }
    if p.ppid > 0 && p.ppid in table {
      var q := table[p.ppid];
      assert Ancestor(table, p, 0) == Some(p) && Ancestor(table, p, 1) == Some(q);
      if KnownAgent(q.provider) {
        assert AgentAt(table, p, 1);
      }
      if n: nat :| n >= 1 && AgentAt(table, q, n) {
        AncestorOfAncestor(table, p, 1, n);
        assert AgentAt(table, p, n + 1);
      }
    }
  }

  /** The filter takes the processes one by one, in order. */
  lemma {:induction false} FilteredOneByOne(table: map<int, Process>, a: seq<Process>, b: seq<Process>, p: Process)
    ensures TopLevel(table, a + b) == TopLevel(table, a) + TopLevel(table, b)
    ensures TopLevel(table, [p]) == if AgentAbove(table, p) then [] else [p]
  {
    assert [p][..0] == [];
    if b == [] {
      assert a + b == a;
    } else {
      assert (a + b)[..|a + b| - 1] == a + b[..|b| - 1];
      FilteredOneByOne(table, a, b[..|b| - 1], p);
    }
  }

  /** The table has the last process listed under an id, and no id that is not listed. */
  lemma {:induction false} TableHasTheLast(ps: seq<Process>, i: nat)
    requires i < |ps| && forall j :: i < j < |ps| ==> ps[j].pid != ps[i].pid
    ensures ps[i].pid in ByPID(ps) && ByPID(ps)[ps[i].pid] == ps[i]
    ensures forall id :: id in ByPID(ps) ==> exists p <- ps :: p.pid == id
  {
    TableHoldsProcesses(ps);
    forall id | id in ByPID(ps) ensures exists p <- ps :: p.pid == id {
      assert ByPID(ps)[id] in ps;
    }
    if i < |ps| - 1 {
      TableHasTheLast(ps[..|ps| - 1], i);
    }
  }
}
