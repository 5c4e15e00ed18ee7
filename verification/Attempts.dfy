/** The store's swap loops against the goroutines' steps: what one goroutine goes through in a run is what
    its method goes through among scripted rivals (internal/store/store.go). */
module Attempts {
  import opened Tables
  import opened Protocol
  import opened NoLostUpdates
  import opened Store

  /** Goroutine `i` is inside a table step all along and finishes it with the last step of the schedule. */
  ghost predicate FinishesLast(s: State, i: nat, schedule: seq<nat>)
    decreases schedule
  {
    && schedule != []
    && if |schedule| == 1 then schedule[0] == i && (Commits(s, i) || Skips(s, i))
       else !(schedule[0] == i && (Commits(s, i) || Skips(s, i))) && FinishesLast(Next(s, schedule[0]), i, schedule[1..])
  }

  /** The table step goroutine `i` is inside of. */
  function StepAt(s: State, i: nat): TableStep
    requires i < |s.threads| && InFlight(s.threads[i].pc).Some?
  {
    StepOf(s.threads[i].pc.op, s.threads[i].pc.phase)
  }

  /** The commit the next step of `t` makes, if any. */
  function Made(s: State, t: nat): seq<TableStep> {
    if Commits(s, t) then [StepAt(s, t)] else []
  }

  // ---------------------------------------------------------------- rounds read off a run

  /** The attempts goroutine `i` makes in a run, from before a load: `pre` is what rivals have committed
      since its last swap. */
  function LoadingRounds(s: State, i: nat, schedule: seq<nat>, pre: seq<TableStep>): Races
    decreases schedule
  {
    if schedule == [] then []
    else
      var t, n, rest := schedule[0], Next(s, schedule[0]), schedule[1..];
      if t != i then LoadingRounds(n, i, rest, pre + Made(s, t))
      else if Skips(s, i) then [Round(pre, [])]
      else SwappingRounds(n, i, rest, pre, [])
  }

  /** The same from between load and swap: `batch` is what rivals have committed since the load. */
  function SwappingRounds(s: State, i: nat, schedule: seq<nat>, pre: seq<TableStep>, batch: seq<TableStep>): Races
    decreases schedule
  {
    if schedule == [] then []
    else
      var t, n, rest := schedule[0], Next(s, schedule[0]), schedule[1..];
      if t != i then SwappingRounds(n, i, rest, pre, batch + Made(s, t))
      else if Commits(s, i) then [Round(pre, batch)]
      else [Round(pre, batch)] + LoadingRounds(n, i, rest, [])
  }

  /** The swaps goroutine `i` loses in a run. */
  function LostSwaps(s: State, i: nat, schedule: seq<nat>): nat
    decreases schedule
  {
    if schedule == [] then 0
    else
      var lost := schedule[0] == i && i < |s.threads| && s.threads[i].pc.Swapping? && !Commits(s, i);
      (if lost then 1 else 0) + LostSwaps(Next(s, schedule[0]), i, schedule[1..])
  }

  /** A run from `s` to `e`, before which `pre` was committed to tables `t`, is the store's loop: all
      attempts but the last lose their swaps, the loop's rivals are exactly what others committed, and
      the tables are what the loop makes of them. */
  ghost predicate AsLooped(t: Tables, pre: seq<TableStep>, s: State, e: State, step: TableStep, races: Races) {
    var landed := LandedBy(t, races, step);
    && s.log <= e.log
    && LostAll(races, step.cell, |races| - 1)
    && Contents(e) == Replay(t, landed + [step])
    && (|| pre + Committed(Since(s, e)) == landed + [step]
        || (step.op.Remove? && pre + Committed(Since(s, e)) == landed))
  }

  /** The pointer loaded is still there exactly while no rival has committed to the table. */
  ghost predicate Watched(s: State, held: nat, batch: seq<TableStep>, c: Cell) {
    && held <= Pointer(s, c)
    && (Pointer(s, c) == held <==> !Touches(batch, c))
  }

  // ---------------------------------------------------------------- single steps

  lemma {:induction false} NextMade(s: State, t: nat)
    requires WellFormed(s)
    ensures Explained(s, Next(s, t)) && Committed(Since(s, Next(s, t))) == Made(s, t)
  {
    NextExplained(s, t);
    NextLog(s, t);
    var d := Since(s, Next(s, t));
    if Commits(s, t) || Skips(s, t) {
      assert d == [Next(s, t).log[|s.log|]];
      LogOne(Next(s, t).log[|s.log|]);
    } else {
      assert d == [];
    }
  }

  lemma {:induction false} CommittedChain(s: State, n: State, e: State)
    requires s.log <= n.log <= e.log
    ensures Committed(Since(s, e)) == Committed(Since(s, n)) + Committed(Since(n, e))
  {
    assert Since(s, e) == Since(s, n) + Since(n, e);
    LogConcat(Since(s, n), Since(n, e));
  }

  /** What a step commits belongs to what was committed before the rest of the run. */
  lemma {:induction false} OneStepEarlier(t0: Tables, pre: seq<TableStep>, s: State, t: nat, e: State, step: TableStep,
      races: Races)
    requires WellFormed(s) && AsLooped(t0, pre + Made(s, t), Next(s, t), e, step, races)
    ensures AsLooped(t0, pre, s, e, step, races)
  {
    NextMade(s, t);
    CommittedChain(s, Next(s, t), e);
    Reassociate(pre, Made(s, t), Committed(Since(Next(s, t), e)));
  }

  lemma {:induction false} RivalContents(t0: Tables, pre: seq<TableStep>, s: State, t: nat)
    requires WellFormed(s) && Contents(s) == Replay(t0, pre)
    ensures Contents(Next(s, t)) == Replay(t0, pre + Made(s, t))
  {
    NextContents(s, t);
    if Commits(s, t) {
      AppendStep(t0, pre, StepAt(s, t));
    } else {
      assert pre + [] == pre;
    }
  }

  lemma StillWatched(s: State, t: nat, held: nat, batch: seq<TableStep>, c: Cell)
    requires WellFormed(s) && Watched(s, held, batch, c)
    ensures Watched(Next(s, t), held, batch + Made(s, t), c)
  {
    NextContents(s, t);
    if Commits(s, t) {
      var step := StepAt(s, t);
      assert ThreadOk(s, s.threads[t].pc);
      assert Touches(batch + [step], c) <==> Touches(batch, c) || step.cell == c by {
        assert step in batch + [step];
        assert forall x :: x in batch + [step] <==> x in batch || x == step;
      }
    }
  }

  lemma OwnLoad(s: State, i: nat)
    requires WellFormed(s) && i < |s.threads| && s.threads[i].pc.Loading? && !Skips(s, i)
    ensures |Next(s, i).threads| == |s.threads| && Made(s, i) == []
    ensures Contents(Next(s, i)) == Contents(s) && !Idle(Contents(s), StepAt(s, i))
    ensures Next(s, i).threads[i].pc.Swapping? && StepAt(Next(s, i), i) == StepAt(s, i)
    ensures Watched(Next(s, i), Next(s, i).threads[i].pc.held, [], StepAt(s, i).cell)
  {
    NextContents(s, i);
  }

  lemma OwnLoss(s: State, i: nat, batch: seq<TableStep>)
    requires WellFormed(s) && i < |s.threads| && s.threads[i].pc.Swapping? && !Commits(s, i)
    requires Watched(s, s.threads[i].pc.held, batch, StepAt(s, i).cell)
    ensures |Next(s, i).threads| == |s.threads| && Made(s, i) == []
    ensures Contents(Next(s, i)) == Contents(s)
    ensures Next(s, i).threads[i].pc.Loading? && StepAt(Next(s, i), i) == StepAt(s, i)
    ensures Touches(batch, StepAt(s, i).cell)
  {
    NextContents(s, i);
  }

  // ---------------------------------------------------------------- the ends of a table step

  lemma {:induction false} FinishSkip(t0: Tables, s: State, i: nat, pre: seq<TableStep>)
    requires WellFormed(s) && Skips(s, i) && Contents(s) == Replay(t0, pre)
    ensures AsLooped(t0, pre, s, Next(s, i), StepAt(s, i), [Round(pre, [])])
  {
    NextMade(s, i);
    NextContents(s, i);
    NothingToRemove(t0, pre, StepAt(s, i));
    assert pre + [] == pre;
  }

  lemma {:induction false} FinishSwap(t0: Tables, s: State, i: nat, pre: seq<TableStep>, batch: seq<TableStep>)
    requires WellFormed(s) && Commits(s, i) && Contents(s) == Replay(t0, pre + batch)
    requires !Idle(Replay(t0, pre), StepAt(s, i)) && !Touches(batch, StepAt(s, i).cell)
    ensures AsLooped(t0, pre + batch, s, Next(s, i), StepAt(s, i), [Round(pre, batch)])
  {
    NextMade(s, i);
    NextContents(s, i);
    AppendStep(t0, pre + batch, StepAt(s, i));
  }

  /** After a lost round the loop goes on from the tables as they are. */
  lemma {:induction false} AfterLoss(t0: Tables, pre: seq<TableStep>, batch: seq<TableStep>, s: State, e: State,
      step: TableStep, rest: Races)
    requires !Idle(Replay(t0, pre), step) && Touches(batch, step.cell)
    requires AsLooped(Replay(t0, pre + batch), [], s, e, step, rest)
    ensures AsLooped(t0, pre + batch, s, e, step, [Round(pre, batch)] + rest)
  {
    var races := [Round(pre, batch)] + rest;
    assert races[1..] == rest;
    ReplayConcat(t0, pre, batch);
    var landed := LandedBy(Replay(t0, pre + batch), rest, step);
    assert LandedBy(t0, races, step) == pre + batch + landed;
    ReplayConcat(t0, pre + batch, landed + [step]);
    Reassociate(pre + batch, landed, [step]);
    assert [] + Committed(Since(s, e)) == Committed(Since(s, e));
    assert LostAll(races, step.cell, |races| - 1) by {
      assert forall j :: 0 < j < |races| ==> races[j] == rest[j - 1];
    }
  }

  // ---------------------------------------------------------------- whole table steps

  lemma {:induction false} FromLoading(t0: Tables, s: State, i: nat, schedule: seq<nat>, pre: seq<TableStep>)
    requires WellFormed(s) && i < |s.threads| && s.threads[i].pc.Loading? && FinishesLast(s, i, schedule)
    requires Contents(s) == Replay(t0, pre)
    ensures AsLooped(t0, pre, s, Run(s, schedule), StepAt(s, i), LoadingRounds(s, i, schedule, pre))
    decreases schedule
  {
    var t, n, rest := schedule[0], Next(s, schedule[0]), schedule[1..];
    NextWellFormed(s, t);
    if t != i {
      NextFrame(s, t);
      RivalContents(t0, pre, s, t);
      FromLoading(t0, n, i, rest, pre + Made(s, t));
      OneStepEarlier(t0, pre, s, t, Run(s, schedule), StepAt(s, i), LoadingRounds(s, i, schedule, pre));
    } else if Skips(s, i) {
      FinishSkip(t0, s, i, pre);
    } else {
      OwnLoad(s, i);
      assert pre + [] == pre;
      FromSwapping(t0, n, i, rest, pre, []);
      OneStepEarlier(t0, pre, s, i, Run(s, schedule), StepAt(s, i), LoadingRounds(s, i, schedule, pre));
    }
  }

  lemma {:induction false} FromSwapping(t0: Tables, s: State, i: nat, schedule: seq<nat>, pre: seq<TableStep>,
      batch: seq<TableStep>)
    requires WellFormed(s) && i < |s.threads| && s.threads[i].pc.Swapping? && FinishesLast(s, i, schedule)
    requires Contents(s) == Replay(t0, pre + batch) && !Idle(Replay(t0, pre), StepAt(s, i))
    requires Watched(s, s.threads[i].pc.held, batch, StepAt(s, i).cell)
    ensures AsLooped(t0, pre + batch, s, Run(s, schedule), StepAt(s, i), SwappingRounds(s, i, schedule, pre, batch))
    decreases schedule
  {
    var t, n, rest := schedule[0], Next(s, schedule[0]), schedule[1..];
    NextWellFormed(s, t);
    if t != i {
      NextFrame(s, t);
      StillWatched(s, t, s.threads[i].pc.held, batch, StepAt(s, i).cell);
      RivalContents(t0, pre + batch, s, t);
      Reassociate(pre, batch, Made(s, t));
      FromSwapping(t0, n, i, rest, pre, batch + Made(s, t));
      OneStepEarlier(t0, pre + batch, s, t, Run(s, schedule), StepAt(s, i), SwappingRounds(s, i, schedule, pre, batch));
    } else if Commits(s, i) {
      FinishSwap(t0, s, i, pre, batch);
    } else {
      OwnLoss(s, i, batch);
      assert Replay(Replay(t0, pre + batch), []) == Replay(t0, pre + batch);
      FromLoading(Replay(t0, pre + batch), n, i, rest, []);
      AfterLoss(t0, pre, batch, n, Run(s, schedule), StepAt(s, i), LoadingRounds(n, i, rest, []));
      assert pre + batch + [] == pre + batch;
      OneStepEarlier(t0, pre + batch, s, i, Run(s, schedule), StepAt(s, i), SwappingRounds(s, i, schedule, pre, batch));
    }
  }

  lemma {:induction false} OneRoundPerAttempt(s: State, i: nat, schedule: seq<nat>, pre: seq<TableStep>,
      batch: seq<TableStep>)
    requires i < |s.threads| && InFlight(s.threads[i].pc).Some? && FinishesLast(s, i, schedule)
    ensures var races := if s.threads[i].pc.Loading? then LoadingRounds(s, i, schedule, pre)
        else SwappingRounds(s, i, schedule, pre, batch);
      |races| == 1 + LostSwaps(s, i, schedule)
    ensures var e := Run(s, schedule);
      var op := s.threads[i].pc.op;
      |e.threads| == |s.threads| && e.threads[i].pc == if s.threads[i].pc.phase.First? then Loading(op, Second) else Ready
    decreases schedule
  {
    var t, n, rest := schedule[0], Next(s, schedule[0]), schedule[1..];
    NextFrame(s, t);
    if t != i {
      OneRoundPerAttempt(n, i, rest, if s.threads[i].pc.Loading? then pre + Made(s, t) else pre, batch + Made(s, t));
    } else if !Commits(s, i) && !Skips(s, i) {
      OneRoundPerAttempt(n, i, rest, if s.threads[i].pc.Loading? then pre else [], []);
    }
  }

  /** Every table step a goroutine takes in a run is a run of the store's loop among rivals: read off the
      run, attempt by attempt, what others committed before each load and before each swap. On these
      rounds the loop loses exactly the swaps the goroutine lost, its rivals are exactly the commits the
      others made meanwhile, and the tables it ends with are those of the run. */
  lemma {:induction false} LoopsAreProjections(s: State, i: nat, schedule: seq<nat>)
    requires WellFormed(s) && i < |s.threads| && s.threads[i].pc.Loading? && FinishesLast(s, i, schedule)
    ensures var races := LoadingRounds(s, i, schedule, []);
      && |races| == 1 + LostSwaps(s, i, schedule)
      && AsLooped(Contents(s), [], s, Run(s, schedule), StepAt(s, i), races)
  {
    OneRoundPerAttempt(s, i, schedule, [], []);
    FromLoading(Contents(s), s, i, schedule, []);
  }

  // ---------------------------------------------------------------- whole calls

  /** The store's own methods, called among the rivals of a run, leave the tables of the run: goroutine
      `i` makes its first table step in the first schedule and its second in the second. */
  method CallAsInRun(store: PolicyStore, s: State, i: nat, schedule1: seq<nat>, schedule2: seq<nat>)
    requires store.Valid() && WellFormed(s) && store.Contents() == Contents(s)
    requires i < |s.threads| && s.threads[i].pc.Loading? && s.threads[i].pc.phase.First?
    requires FinishesLast(s, i, schedule1) && FinishesLast(Run(s, schedule1), i, schedule2)
    modifies store
    ensures store.Valid() && store.Contents() == Contents(Run(Run(s, schedule1), schedule2))
  {
    var m := Run(s, schedule1);
    LoopsAreProjections(s, i, schedule1);
    OneRoundPerAttempt(s, i, schedule1, [], []);
    RunWellFormed(s, schedule1);
    LoopsAreProjections(m, i, schedule2);
    var races1 := LoadingRounds(s, i, schedule1, []);
    var races2 := LoadingRounds(m, i, schedule2, []);
    ghost var landed1 := LandedBy(Contents(s), races1, StepAt(s, i)) + [StepAt(s, i)];
    ReplayConcat(Contents(s), landed1, LandedBy(Contents(m), races2, StepAt(m, i)) + [StepAt(m, i)]);
    match s.threads[i].pc.op
    case Upsert(p) =>
      var _, _ := store.UpsertPolicy(p, races1, races2);
    case Delete(id) =>
      var _, _ := store.DeletePolicy(id, races1, races2);
  }
}
