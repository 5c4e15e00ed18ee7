/** What any interleaving of writers leaves in the tables (internal/store/store.go). */
module NoLostUpdates {
  import opened Tables
  import opened Protocol

  /** Every finished table step, in order. */
  function Steps(log: seq<Outcome>): seq<TableStep> {
    if log == [] then [] else Steps(log[..|log| - 1]) + [log[|log| - 1].step]
  }

  /** The table steps that published a map, in the order of their swaps. */
  function Committed(log: seq<Outcome>): seq<TableStep> {
    if log == [] then []
    else Committed(log[..|log| - 1]) + if log[|log| - 1].committed then [log[|log| - 1].step] else []
  }

  /** How many of them were on table `c`. */
  function CommitsOn(log: seq<Outcome>, c: Cell): nat {
    if log == [] then 0
    else
      var last := log[|log| - 1];
      CommitsOn(log[..|log| - 1], c) + if last.committed && last.step.cell == c then 1 else 0
  }

  /** The table steps one goroutine finished. */
  function ByThread(log: seq<Outcome>, t: nat): seq<TableStep> {
    if log == [] then []
    else ByThread(log[..|log| - 1], t) + if log[|log| - 1].thread == t then [log[|log| - 1].step] else []
  }

  /** The table steps a script asks for, in program order. */
  function ScriptSteps(script: seq<Task>): seq<TableStep> {
    if script == [] then []
    else TaskSteps(script[0]) + ScriptSteps(script[1..])
  }

  function TaskSteps(task: Task): seq<TableStep> {
    match task
    case Write(op) => [StepOf(op, First), StepOf(op, Second)]
    case Snapshot => []
  }

  /** The table steps a goroutine still has to finish. */
  function Todo(th: Thread): seq<TableStep> {
    PcSteps(th.pc) + ScriptSteps(th.script)
  }

  function PcSteps(pc: Pc): seq<TableStep> {
    match pc
    case Loading(op, phase) => Rest(op, phase)
    case Swapping(op, phase, _, _) => Rest(op, phase)
    case _ => []
  }

  function Rest(op: StoreOp, phase: Phase): seq<TableStep> {
    if phase.First? then [StepOf(op, First), StepOf(op, Second)] else [StepOf(op, Second)]
  }

  /** What was logged after `s`. */
  function Since(s: State, later: State): seq<Outcome>
    requires s.log <= later.log
  {
    later.log[|s.log|..]
  }

  ghost predicate PutsCommit(log: seq<Outcome>) {
    forall k :: 0 <= k < |log| && log[k].step.op.Put? ==> log[k].committed
  }

  // ---------------------------------------------------------------- one step

  lemma {:induction false} LogConcat(a: seq<Outcome>, b: seq<Outcome>)
    ensures Steps(a + b) == Steps(a) + Steps(b)
    ensures Committed(a + b) == Committed(a) + Committed(b)
  {
    if b == [] {
      assert a + b == a;
    } else {
      assert (a + b)[..|a + b| - 1] == a + b[..|b| - 1];
      LogConcat(a, b[..|b| - 1]);
    }
  }

  lemma LogOne(o: Outcome)
    ensures Steps([o]) == [o.step]
    ensures Committed([o]) == if o.committed then [o.step] else []
    ensures forall t :: ByThread([o], t) == if o.thread == t then [o.step] else []
  {
    assert [o][..0] == [];
    assert Steps([o][..0]) == [] && Committed([o][..0]) == [];
  }

  /** A step logs what it finished: a commit, a removal that found nothing, or nothing at all. */
  lemma NextLog(s: State, t: nat)
    ensures Next(s, t).log ==
      if Commits(s, t) then s.log + [Outcome(t, StepOf(s.threads[t].pc.op, s.threads[t].pc.phase), true)]
      else if Skips(s, t) then s.log + [Outcome(t, StepOf(s.threads[t].pc.op, s.threads[t].pc.phase), false)]
      else s.log
  {
  }

  /** `e` comes from `s` by the commits logged in between, and by nothing else: the tables are what
      the commits made, one after the other; counting the removals that found nothing makes no
      difference; every insertion committed; and no map built before `s` has changed. */
  ghost predicate Explained(s: State, e: State) {
    && s.log <= e.log
    && s.heap <= e.heap
    && Contents(e) == Replay(Contents(s), Committed(Since(s, e)))
    && Contents(e) == Replay(Contents(s), Steps(Since(s, e)))
    && PutsCommit(Since(s, e))
  }

  /** What one logged outcome says about the tables before and after it. */
  lemma {:induction false} OneOutcome(t: Tables, u: Tables, o: Outcome)
    requires o.committed ==> u == ApplyStep(t, o.step)
    requires !o.committed ==> u == t && o.step.op.Remove? && o.step.op.id !in At(t, o.step.cell)
    ensures u == Replay(t, Committed([o])) && u == Replay(t, Steps([o])) && PutsCommit([o])
  {
    LogOne(o);
    ReplayOne(t, o.step);
    if !o.committed {
      assert At(t, o.step.cell) - {o.step.op.id} == At(t, o.step.cell);
    }
  }

  lemma NextExplained(s: State, t: nat)
    requires WellFormed(s)
    ensures Explained(s, Next(s, t))
  {
    NextLog(s, t);
    NextContents(s, t);
    NextFrame(s, t);
    var d := Since(s, Next(s, t));
    if Commits(s, t) || Skips(s, t) {
      var o := Next(s, t).log[|s.log|];
      assert d == [o];
      OneOutcome(Contents(s), Contents(Next(s, t)), o);
    } else {
      assert d == [];
    }
  }

  lemma ExplainedChain(s: State, n: State, e: State)
    requires Explained(s, n) && Explained(n, e)
    ensures Explained(s, e)
  {
    var d, rest := Since(s, n), Since(n, e);
    assert Since(s, e) == d + rest;
    LogConcat(d, rest);
    ReplayConcat(Contents(s), Committed(d), Committed(rest));
    ReplayConcat(Contents(s), Steps(d), Steps(rest));
  }

  /** Between `s` and `e` goroutine `i` finished a prefix of what it had left, in program order. */
  ghost predicate Progressed(s: State, e: State, i: nat) {
    && i < |s.threads| == |e.threads|
    && s.log <= e.log
    && ByThread(Since(s, e), i) + Todo(e.threads[i]) == Todo(s.threads[i])
  }

  lemma FinishedStep(s: State, t: nat)
    requires Commits(s, t) || Skips(s, t)
    ensures |Next(s, t).threads| == |s.threads|
    ensures Todo(s.threads[t]) ==
      [StepOf(s.threads[t].pc.op, s.threads[t].pc.phase)] + Todo(Next(s, t).threads[t])
  {
    var op, phase := s.threads[t].pc.op, s.threads[t].pc.phase;
    var pc := if phase.First? then Loading(op, Second) else Ready;
    assert Next(s, t).threads[t].pc == pc && Next(s, t).threads[t].script == s.threads[t].script;
    assert Rest(op, phase) == [StepOf(op, phase)] + PcSteps(pc);
  }

  lemma UnfinishedStep(s: State, t: nat)
    requires t < |s.threads| && !Commits(s, t) && !Skips(s, t)
    ensures |Next(s, t).threads| == |s.threads| && Todo(Next(s, t).threads[t]) == Todo(s.threads[t])
  {
    if Enabled(s, t) && s.threads[t].pc.Ready? {
      assert PcSteps(Next(s, t).threads[t].pc) == TaskSteps(s.threads[t].script[0]);
    }
  }

  lemma NextProgressed(s: State, t: nat, i: nat)
    requires i < |s.threads|
    ensures Progressed(s, Next(s, t), i)
  {
    NextLog(s, t);
    NextFrame(s, t);
    var s' := Next(s, t);
    var d := Since(s, s');
    if Commits(s, t) || Skips(s, t) {
      assert d == [s'.log[|s.log|]];
      LogOne(s'.log[|s.log|]);
      FinishedStep(s, t);
    } else {
      assert d == [];
      if i == t {
        UnfinishedStep(s, t);
      }
    }
  }

  lemma ProgressedChain(s: State, n: State, e: State, i: nat)
    requires Progressed(s, n, i) && Progressed(n, e, i)
    ensures Progressed(s, e, i)
  {
    var d, rest := Since(s, n), Since(n, e);
    assert Since(s, e) == d + rest;
    ByThreadConcat(d, rest, i);
    Reassociate(ByThread(d, i), ByThread(rest, i), Todo(e.threads[i]));
  }

  lemma {:induction false} ByThreadConcat(a: seq<Outcome>, b: seq<Outcome>, t: nat)
    ensures ByThread(a + b, t) == ByThread(a, t) + ByThread(b, t)
  {
    if b == [] {
      assert a + b == a;
    } else {
      assert (a + b)[..|a + b| - 1] == a + b[..|b| - 1];
      ByThreadConcat(a, b[..|b| - 1], t);
    }
  }

  lemma Reassociate(a: seq<TableStep>, b: seq<TableStep>, c: seq<TableStep>)
    ensures (a + b) + c == a + (b + c)
  {
  }

  // ---------------------------------------------------------------- whole runs

  /** Nothing is lost and nothing is invented, in every state of every run. */
  lemma {:induction false} TablesAreTheirCommits(s: State, schedule: seq<nat>)
    requires WellFormed(s)
    ensures Explained(s, Run(s, schedule))
    decreases schedule
  {
    if schedule == [] {
      assert Since(s, s) == [];
    } else {
      var n := Next(s, schedule[0]);
      NextWellFormed(s, schedule[0]);
      NextExplained(s, schedule[0]);
      TablesAreTheirCommits(n, schedule[1..]);
      ExplainedChain(s, n, Run(n, schedule[1..]));
    }
  }

  /** Every table step of every call is finished at most once and in program order: what a goroutine
      has finished followed by what it has left is always the same list. */
  lemma {:induction false} ProgramOrder(s: State, schedule: seq<nat>, i: nat)
    requires i < |s.threads|
    ensures Progressed(s, Run(s, schedule), i)
    decreases schedule
  {
    if schedule == [] {
      assert Since(s, s) == [];
    } else {
      var n := Next(s, schedule[0]);
      NextProgressed(s, schedule[0], i);
      ProgramOrder(n, schedule[1..], i);
      ProgressedChain(s, n, Run(n, schedule[1..]), i);
    }
  }

  /** When every goroutine has returned, the tables are the initial tables changed by a shuffle of all
      the scripts' table steps, each exactly once. */
  lemma {:induction false} AllScriptsLand(t: Tables, scripts: seq<seq<Task>>, schedule: seq<nat>)
    requires forall i :: 0 <= i < |Run(Launch(t, scripts), schedule).threads| ==>
      Finished(Run(Launch(t, scripts), schedule).threads[i])
    ensures var e := Run(Launch(t, scripts), schedule);
      && Contents(e) == Replay(t, Steps(e.log))
      && forall i :: 0 <= i < |scripts| ==> ByThread(e.log, i) == ScriptSteps(scripts[i])
  {
    var s := Launch(t, scripts);
    var e := Run(s, schedule);
    LaunchWellFormed(t, scripts);
    TablesAreTheirCommits(s, schedule);
    assert Since(s, e) == e.log;
    forall i | 0 <= i < |scripts| ensures ByThread(e.log, i) == ScriptSteps(scripts[i]) {
      ProgramOrder(s, schedule, i);
      assert Finished(e.threads[i]);
      assert Todo(e.threads[i]) == [];
      assert Todo(s.threads[i]) == ScriptSteps(scripts[i]);
    }
  }
}
