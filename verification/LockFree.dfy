/** Contention: when a swap fails, how often, and why every run ends (internal/store/store.go). */
module LockFree {
  import opened Tables
  import opened Protocol
  import opened NoLostUpdates

  // ---------------------------------------------------------------- no ABA

  /** No commit in the log changed table `c`. */
  ghost predicate Quiet(log: seq<Outcome>, c: Cell) {
    forall k :: 0 <= k < |log| && log[k].committed ==> log[k].step.cell != c
  }

  /** A table's pointer only ever moves forward, and stays put exactly while nothing is committed. */
  ghost predicate PointerTracks(s: State, e: State, c: Cell) {
    && s.log <= e.log
    && Pointer(s, c) <= Pointer(e, c)
    && (Pointer(s, c) == Pointer(e, c) <==> Quiet(Since(s, e), c))
  }

  lemma NextPointer(s: State, t: nat, c: Cell)
    requires WellFormed(s)
    ensures PointerTracks(s, Next(s, t), c)
  {
    NextLog(s, t);
    NextContents(s, t);
    var d := Since(s, Next(s, t));
    if Commits(s, t) {
      assert ThreadOk(s, s.threads[t].pc);
      assert d == [Next(s, t).log[|s.log|]];
      assert d[0].committed && d[0].step.cell == StepOf(s.threads[t].pc.op, s.threads[t].pc.phase).cell;
    } else if Skips(s, t) {
      assert d == [Next(s, t).log[|s.log|]];
    } else {
      assert d == [];
    }
  }

  lemma PointerChain(s: State, n: State, e: State, c: Cell)
    requires PointerTracks(s, n, c) && PointerTracks(n, e, c)
    ensures PointerTracks(s, e, c)
  {
    var d, rest := Since(s, n), Since(n, e);
    assert Since(s, e) == d + rest;
    if Quiet(d + rest, c) {
      assert forall k :: 0 <= k < |d| ==> (d + rest)[k] == d[k];
      assert forall k :: 0 <= k < |rest| ==> (d + rest)[|d| + k] == rest[k];
    }
  }

  lemma {:induction false} RunPointer(s: State, schedule: seq<nat>, c: Cell)
    requires WellFormed(s)
    ensures PointerTracks(s, Run(s, schedule), c)
    decreases schedule
  {
    if schedule == [] {
      assert Since(s, s) == [];
    } else {
      var n := Next(s, schedule[0]);
      NextWellFormed(s, schedule[0]);
      NextPointer(s, schedule[0], c);
      RunPointer(n, schedule[1..], c);
      PointerChain(s, n, Run(n, schedule[1..]), c);
    }
  }

  lemma {:induction false} OthersRun(s: State, schedule: seq<nat>, t: nat)
    requires t < |s.threads| && t !in schedule
    ensures |Run(s, schedule).threads| == |s.threads| && Run(s, schedule).threads[t] == s.threads[t]
    decreases schedule
  {
    if schedule != [] {
      NextFrame(s, schedule[0]);
      OthersRun(Next(s, schedule[0]), schedule[1..], t);
    }
  }

  /** A swap succeeds exactly when no other goroutine committed to the table since the load: a pointer
      never comes back. */
  lemma {:induction false} SwapSeesEveryRival(s: State, t: nat, schedule: seq<nat>)
    requires WellFormed(s) && t < |s.threads| && s.threads[t].pc.Loading? && !Skips(s, t)
    requires t !in schedule
    ensures var n := Next(s, t);
      var e := Run(n, schedule);
      n.log <= e.log &&
      (Commits(e, t) <==> Quiet(Since(n, e), StepOf(s.threads[t].pc.op, s.threads[t].pc.phase).cell))
  {
    var n := Next(s, t);
    NextWellFormed(s, t);
    OthersRun(n, schedule, t);
    RunPointer(n, schedule, StepOf(s.threads[t].pc.op, s.threads[t].pc.phase).cell);
  }

  // ---------------------------------------------------------------- sums over goroutines

  function Sum(ws: seq<nat>): nat {
    if ws == [] then 0 else Sum(ws[..|ws| - 1]) + ws[|ws| - 1]
  }

  lemma {:induction false} SumUpdate(ws: seq<nat>, vs: seq<nat>, i: nat)
    requires |ws| == |vs| && i < |ws|
    requires forall j :: 0 <= j < |ws| && j != i ==> ws[j] == vs[j]
    ensures Sum(vs) + ws[i] == Sum(ws) + vs[i]
  {
    var n := |ws| - 1;
    if i == n {
      assert ws[..n] == vs[..n];
    } else {
      SumUpdate(ws[..n], vs[..n], i);
    }
  }

  lemma {:induction false} SumBound(ws: seq<nat>, b: nat)
    requires forall j :: 0 <= j < |ws| ==> ws[j] <= b
    ensures Sum(ws) <= b * |ws|
  {
    if ws != [] {
      SumBound(ws[..|ws| - 1], b);
    }
  }

  lemma {:induction false} SumGrowth(ws: seq<nat>, vs: seq<nat>, ds: seq<nat>)
    requires |ws| == |vs| == |ds|
    requires forall j :: 0 <= j < |ws| ==> vs[j] <= ws[j] + ds[j]
    ensures Sum(vs) <= Sum(ws) + Sum(ds)
  {
    if ws != [] {
      SumGrowth(ws[..|ws| - 1], vs[..|vs| - 1], ds[..|ds| - 1]);
    }
  }

  // ---------------------------------------------------------------- the measure

  /** The goroutine holds a pointer that is no longer the table's. */
  predicate Stale(s: State, pc: Pc) {
    pc.Swapping? && Pointer(s, StepOf(pc.op, pc.phase).cell) != pc.held
  }

  /** Steps that finish something: the start of a call, its first half, its second half. */
  function PcWork(pc: Pc): nat {
    match pc
    case Ready => 0
    case Loading(_, phase) => if phase.First? then 2 else 1
    case Swapping(_, phase, _, _) => if phase.First? then 2 else 1
    case Reading => 2
    case HalfRead(_) => 1
  }

  function ThreadWork(th: Thread): nat {
    PcWork(th.pc) + 3 * |th.script|
  }

  /** How far from finishing the current half: stale, about to load, about to succeed. */
  function Delay(s: State, pc: Pc): nat {
    if Stale(s, pc) then 2 else if pc.Loading? then 1 else 0
  }

  function Works(s: State): (ws: seq<nat>)
    ensures |ws| == |s.threads| && forall i :: 0 <= i < |ws| ==> ws[i] == ThreadWork(s.threads[i])
  {
    seq(|s.threads|, i requires 0 <= i < |s.threads| => ThreadWork(s.threads[i]))
  }

  function Delays(s: State): (ws: seq<nat>)
    ensures |ws| == |s.threads| && forall i :: 0 <= i < |ws| ==> ws[i] == Delay(s, s.threads[i].pc)
  {
    seq(|s.threads|, i requires 0 <= i < |s.threads| => Delay(s, s.threads[i].pc))
  }

  /** A lexicographic pair folded into one number; the second part never exceeds 2 per goroutine. */
  function Measure(s: State): nat {
    Sum(Works(s)) * (2 * |s.threads| + 1) + Sum(Delays(s))
  }

  /** A step finishes something, or it brings its own goroutine closer to doing so and changes no
      table. */
  lemma StepWork(s: State, t: nat)
    requires WellFormed(s) && Enabled(s, t)
    ensures |Next(s, t).threads| == |s.threads|
    ensures
      || ThreadWork(Next(s, t).threads[t]) < ThreadWork(s.threads[t])
      || (&& ThreadWork(Next(s, t).threads[t]) == ThreadWork(s.threads[t])
          && !Commits(s, t)
          && Delay(Next(s, t), Next(s, t).threads[t].pc) < Delay(s, s.threads[t].pc))
  {
  }

  lemma StepKeepsDelays(s: State, t: nat, i: nat)
    requires WellFormed(s) && !Commits(s, t) && i < |s.threads| && i != t
    ensures |Next(s, t).threads| == |s.threads|
    ensures Delay(Next(s, t), Next(s, t).threads[i].pc) == Delay(s, s.threads[i].pc)
    ensures Stale(Next(s, t), Next(s, t).threads[i].pc) == Stale(s, s.threads[i].pc)
  {
    NextFrame(s, t);
    NextContents(s, t);
    assert Pointer(Next(s, t), AllowCell) == Pointer(s, AllowCell);
    assert Pointer(Next(s, t), DenyCell) == Pointer(s, DenyCell);
  }

  lemma MeasureDrops(work: nat, work': nat, delay: nat, delay': nat, n: nat)
    requires delay' <= 2 * n
    requires work' < work || (work' == work && delay' < delay)
    ensures work' * (2 * n + 1) + delay' < work * (2 * n + 1) + delay
  {
    if work' < work {
      assert work * (2 * n + 1) >= (work' + 1) * (2 * n + 1) == work' * (2 * n + 1) + (2 * n + 1);
    }
  }

  lemma WorkSum(s: State, t: nat)
    requires t < |s.threads|
    ensures |Next(s, t).threads| == |s.threads|
    ensures Sum(Works(Next(s, t))) + ThreadWork(s.threads[t]) == Sum(Works(s)) + ThreadWork(Next(s, t).threads[t])
  {
    NextFrame(s, t);
    SumUpdate(Works(s), Works(Next(s, t)), t);
  }

  lemma DelaySum(s: State, t: nat)
    requires WellFormed(s) && t < |s.threads| && !Commits(s, t)
    ensures |Next(s, t).threads| == |s.threads|
    ensures Sum(Delays(Next(s, t))) + Delay(s, s.threads[t].pc)
         == Sum(Delays(s)) + Delay(Next(s, t), Next(s, t).threads[t].pc)
  {
    NextFrame(s, t);
    forall i | 0 <= i < |s.threads| && i != t ensures Delays(Next(s, t))[i] == Delays(s)[i] {
      StepKeepsDelays(s, t, i);
    }
    SumUpdate(Delays(s), Delays(Next(s, t)), t);
  }

  lemma SumsDrop(s: State, t: nat)
    requires WellFormed(s) && Enabled(s, t)
    ensures
      || Sum(Works(Next(s, t))) < Sum(Works(s))
      || (Sum(Works(Next(s, t))) == Sum(Works(s)) && Sum(Delays(Next(s, t))) < Sum(Delays(s)))
  {
    StepWork(s, t);
    WorkSum(s, t);
    if ThreadWork(Next(s, t).threads[t]) == ThreadWork(s.threads[t]) {
      DelaySum(s, t);
    }
  }

  lemma StepMeasure(s: State, t: nat)
    requires WellFormed(s) && Enabled(s, t)
    ensures Measure(Next(s, t)) < Measure(s)
  {
    var s' := Next(s, t);
    NextFrame(s, t);
    SumsDrop(s, t);
    SumBound(Delays(s'), 2);
    MeasureDrops(Sum(Works(s)), Sum(Works(s')), Sum(Delays(s)), Sum(Delays(s')), |s.threads|);
  }

  /** Every goroutine named has a step to take when its turn comes. */
  ghost predicate Effective(s: State, schedule: seq<nat>)
    decreases schedule
  {
    schedule == [] || (Enabled(s, schedule[0]) && Effective(Next(s, schedule[0]), schedule[1..]))
  }

  /** Every schedule ends: no run takes more steps than the measure of its first state, however the
      goroutines are interleaved; and a run that cannot go on has finished every call. */
  lemma {:induction false} EveryScheduleEnds(s: State, schedule: seq<nat>)
    requires WellFormed(s) && Effective(s, schedule)
    ensures |schedule| + Measure(Run(s, schedule)) <= Measure(s)
    ensures (forall t :: !Enabled(Run(s, schedule), t)) <==>
      forall i :: 0 <= i < |Run(s, schedule).threads| ==> Finished(Run(s, schedule).threads[i])
    decreases schedule
  {
    if schedule != [] {
      NextWellFormed(s, schedule[0]);
      StepMeasure(s, schedule[0]);
      EveryScheduleEnds(Next(s, schedule[0]), schedule[1..]);
    } else {
      StuckIsFinished(s);
    }
  }

  lemma StuckIsFinished(s: State)
    ensures (forall t :: !Enabled(s, t)) <==> forall i :: 0 <= i < |s.threads| ==> Finished(s.threads[i])
  {
    forall i | 0 <= i < |s.threads| && !Enabled(s, i) ensures Finished(s.threads[i]) {
    }
  }

  /** The bound spelled out: `n` goroutines with `calls` calls in all take at most
      6*n*calls + 3*calls steps between them. */
  lemma {:induction false} StepBound(t: Tables, scripts: seq<seq<Task>>, schedule: seq<nat>)
    requires Effective(Launch(t, scripts), schedule)
    ensures |schedule| <= Calls(scripts) * (6 * |scripts| + 3)
  {
    LaunchWellFormed(t, scripts);
    EveryScheduleEnds(Launch(t, scripts), schedule);
    LaunchMeasure(t, scripts);
  }

  lemma {:induction false} LaunchMeasure(t: Tables, scripts: seq<seq<Task>>)
    ensures Measure(Launch(t, scripts)) == Calls(scripts) * (6 * |scripts| + 3)
  {
    var s := Launch(t, scripts);
    SumBound(Delays(s), 0);
    LaunchWork(scripts, Works(s));
    ThreeTimes(Calls(scripts), |scripts|);
  }

  lemma ThreeTimes(c: nat, n: nat)
    ensures (3 * c) * (2 * n + 1) == c * (6 * n + 3)
  {
    assert 6 * n + 3 == 3 * (2 * n + 1);
  }

  function Calls(scripts: seq<seq<Task>>): nat {
    if scripts == [] then 0 else Calls(scripts[..|scripts| - 1]) + |scripts[|scripts| - 1]|
  }

  lemma {:induction false} LaunchWork(scripts: seq<seq<Task>>, ws: seq<nat>)
    requires |ws| == |scripts| && forall i :: 0 <= i < |ws| ==> ws[i] == 3 * |scripts[i]|
    ensures Sum(ws) == 3 * Calls(scripts)
  {
    if scripts != [] {
      LaunchWork(scripts[..|scripts| - 1], ws[..|ws| - 1]);
    }
  }

  // ---------------------------------------------------------------- failed swaps

  /** The goroutine is inside a write or has one to come. */
  predicate Writes(th: Thread) {
    InFlight(th.pc).Some? || exists k :: 0 <= k < |th.script| && th.script[k].Write?
  }

  /** One per goroutine asked to write. */
  function WriterFlags(scripts: seq<seq<Task>>): (fs: seq<nat>)
    ensures |fs| == |scripts|
    ensures forall i :: 0 <= i < |fs| ==> fs[i] == if exists k :: 0 <= k < |scripts[i]| && scripts[i][k].Write? then 1 else 0
  {
    seq(|scripts|, i requires 0 <= i < |scripts| =>
      if exists k :: 0 <= k < |scripts[i]| && scripts[i][k].Write? then 1 else 0)
  }

  /** The flags cover every goroutine that writes. */
  ghost predicate Flagged(s: State, fs: seq<nat>) {
    && |fs| == |s.threads|
    && forall i :: 0 <= i < |fs| ==> fs[i] <= 1 && (Writes(s.threads[i]) ==> fs[i] == 1)
  }

  lemma NextFlagged(s: State, t: nat, fs: seq<nat>)
    requires Flagged(s, fs)
    ensures Flagged(Next(s, t), fs)
  {
    NextFrame(s, t);
    if t < |s.threads| && Writes(Next(s, t).threads[t]) {
      StillWrites(s, t);
    }
  }

  lemma StillWrites(s: State, t: nat)
    requires t < |s.threads| == |Next(s, t).threads| && Writes(Next(s, t).threads[t])
    ensures Writes(s.threads[t])
  {
    if Enabled(s, t) && s.threads[t].pc.Ready? {
      var script := s.threads[t].script;
      assert script == [script[0]] + script[1..];
      if !script[0].Write? {
        var k :| 0 <= k < |script[1..]| && script[1..][k].Write?;
        assert script[k + 1].Write?;
      }
    }
  }

  /** The goroutine is about to lose a swap on table `c`. */
  predicate StaleOn(s: State, pc: Pc, c: Cell) {
    Stale(s, pc) && StepOf(pc.op, pc.phase).cell == c
  }

  function StaleCounts(s: State, c: Cell): (ws: seq<nat>)
    ensures |ws| == |s.threads| && forall i :: 0 <= i < |ws| ==> ws[i] == if StaleOn(s, s.threads[i].pc, c) then 1 else 0
  {
    seq(|s.threads|, i requires 0 <= i < |s.threads| => if StaleOn(s, s.threads[i].pc, c) then 1 else 0)
  }

  /** Swaps lost and about to be lost on a table are paid for by the commits on that table, each of which
      spoils at most one swap of every other writer. */
  ghost predicate Paid(s: State, c: Cell, writers: nat) {
    if writers == 0 then Lost(s, c) + Sum(StaleCounts(s, c)) == 0
    else Lost(s, c) + Sum(StaleCounts(s, c)) <= (writers - 1) * CommitsOn(s.log, c)
  }

  /** A commit can only make other writers of its own table stale. */
  lemma CommitSpoils(s: State, t: nat, c: Cell, fs: seq<nat>)
    requires WellFormed(s) && Flagged(s, fs) && Commits(s, t)
    ensures var own := StepOf(s.threads[t].pc.op, s.threads[t].pc.phase).cell == c;
      && |Next(s, t).threads| == |s.threads|
      && fs[t] == 1
      && Sum(StaleCounts(Next(s, t), c)) <= Sum(StaleCounts(s, c)) + if own then Sum(fs[t := 0]) else 0
  {
    var s' := Next(s, t);
    NextFrame(s, t);
    NextContents(s, t);
    var ws, vs := StaleCounts(s, c), StaleCounts(s', c);
    assert Writes(s.threads[t]);
    assert vs[t] == 0;
    if StepOf(s.threads[t].pc.op, s.threads[t].pc.phase).cell == c {
      forall i | 0 <= i < |ws| ensures vs[i] <= ws[i] + fs[t := 0][i] {
        if i != t && vs[i] == 1 {
          assert Writes(s.threads[i]);
        }
      }
      SumGrowth(ws, vs, fs[t := 0]);
    } else {
      OtherTableStale(s, t, c);
      SumGrowth(ws, vs, Zeros(|ws|));
      SumBound(Zeros(|ws|), 0);
    }
  }

  function Zeros(n: nat): (zs: seq<nat>)
    ensures |zs| == n && forall i :: 0 <= i < n ==> zs[i] == 0
  {
    seq(n, i => 0)
  }

  lemma OtherTableStale(s: State, t: nat, c: Cell)
    requires WellFormed(s) && Commits(s, t) && StepOf(s.threads[t].pc.op, s.threads[t].pc.phase).cell != c
    ensures |Next(s, t).threads| == |s.threads|
    ensures forall i :: 0 <= i < |s.threads| ==> StaleCounts(Next(s, t), c)[i] <= StaleCounts(s, c)[i]
  {
    NextFrame(s, t);
    NextContents(s, t);
    assert Pointer(Next(s, t), c) == Pointer(s, c);
  }

  lemma {:induction false} CommitPaid(s: State, t: nat, c: Cell, fs: seq<nat>)
    requires WellFormed(s) && Flagged(s, fs) && Paid(s, c, Sum(fs)) && Commits(s, t)
    ensures Paid(Next(s, t), c, Sum(fs))
  {
    var s' := Next(s, t);
    NextLog(s, t);
    assert s'.log[..|s'.log| - 1] == s.log;
    CommitSpoils(s, t, c, fs);
    SumUpdate(fs, fs[t := 0], t);
    assert Lost(s', c) == Lost(s, c);
    if CommitsOn(s'.log, c) == CommitsOn(s.log, c) + 1 {
      OneMoreCommit(Lost(s, c) + Sum(StaleCounts(s, c)), Sum(fs), CommitsOn(s.log, c));
    }
  }

  lemma OneMoreCommit(lost: nat, n: nat, k: nat)
    requires n > 0 && lost <= (n - 1) * k
    ensures lost + (n - 1) <= (n - 1) * (k + 1)
  {
  }

  lemma OtherPaid(s: State, t: nat, c: Cell, writers: nat)
    requires WellFormed(s) && Paid(s, c, writers) && !Commits(s, t)
    ensures Paid(Next(s, t), c, writers)
  {
    var s' := Next(s, t);
    NextFrame(s, t);
    NextLog(s, t);
    assert CommitsOn(s'.log, c) == CommitsOn(s.log, c) by {
      if Skips(s, t) {
        assert s'.log[..|s'.log| - 1] == s.log;
      }
    }
    if t < |s.threads| {
      forall i | 0 <= i < |s.threads| && i != t ensures StaleCounts(s', c)[i] == StaleCounts(s, c)[i] {
        StepKeepsDelays(s, t, i);
      }
      SumUpdate(StaleCounts(s, c), StaleCounts(s', c), t);
      OwnLoss(s, t, c);
    }
  }

  /** A stale goroutine's step turns its staleness into a lost swap; no other step does either. */
  lemma OwnLoss(s: State, t: nat, c: Cell)
    requires WellFormed(s) && t < |s.threads| && !Commits(s, t)
    ensures |Next(s, t).threads| == |s.threads|
    ensures Lost(Next(s, t), c) + StaleCounts(Next(s, t), c)[t] == Lost(s, c) + StaleCounts(s, c)[t]
  {
  }

  lemma {:induction false} RunPaid(s: State, schedule: seq<nat>, c: Cell, fs: seq<nat>)
    requires WellFormed(s) && Flagged(s, fs) && Paid(s, c, Sum(fs))
    ensures Paid(Run(s, schedule), c, Sum(fs))
    decreases schedule
  {
    if schedule != [] {
      var t := schedule[0];
      NextWellFormed(s, t);
      NextFlagged(s, t, fs);
      if Commits(s, t) {
        CommitPaid(s, t, c, fs);
      } else {
        OtherPaid(s, t, c, Sum(fs));
      }
      RunPaid(Next(s, t), schedule[1..], c, fs);
    }
  }

  /** The next step of `t` is a swap on table `c`: of a map built on the one still published, or not. */
  predicate Swaps(s: State, t: nat, c: Cell, current: bool) {
    && t < |s.threads|
    && s.threads[t].pc.Swapping?
    && StepOf(s.threads[t].pc.op, s.threads[t].pc.phase).cell == c
    && (Pointer(s, c) == s.threads[t].pc.held <==> current)
  }

  /** How many such swaps a run makes. */
  function SwapCount(s: State, schedule: seq<nat>, c: Cell, current: bool): nat
    decreases schedule
  {
    if schedule == [] then 0
    else (if Swaps(s, schedule[0], c, current) then 1 else 0) + SwapCount(Next(s, schedule[0]), schedule[1..], c, current)
  }

  lemma {:induction false} NextCounted(s: State, t: nat, c: Cell)
    ensures Lost(Next(s, t), c) == Lost(s, c) + if Swaps(s, t, c, false) then 1 else 0
    ensures CommitsOn(Next(s, t).log, c) == CommitsOn(s.log, c) + if Swaps(s, t, c, true) then 1 else 0
  {
    NextLog(s, t);
    if Commits(s, t) || Skips(s, t) {
      assert Next(s, t).log[..|s.log|] == s.log;
    }
  }

  /** The lost swaps on record are those of the run, and so are the commits. */
  lemma {:induction false} SwapsCounted(s: State, schedule: seq<nat>, c: Cell)
    ensures Lost(Run(s, schedule), c) == Lost(s, c) + SwapCount(s, schedule, c, false)
    ensures CommitsOn(Run(s, schedule).log, c) == CommitsOn(s.log, c) + SwapCount(s, schedule, c, true)
    decreases schedule
  {
    if schedule != [] {
      NextCounted(s, schedule[0], c);
      SwapsCounted(Next(s, schedule[0]), schedule[1..], c);
    }
  }

  /** In every run and on either table: with `w` goroutines asked to write, at most w-1 swaps are lost
      for each one that succeeds there; with one writer, or none, no swap is ever lost. */
  lemma {:induction false} FailedSwapBound(t: Tables, scripts: seq<seq<Task>>, schedule: seq<nat>, c: Cell)
    ensures var e := Run(Launch(t, scripts), schedule);
      var w := Sum(WriterFlags(scripts));
      if w == 0 then Lost(e, c) == 0 else Lost(e, c) <= (w - 1) * CommitsOn(e.log, c)
    ensures var lost := SwapCount(Launch(t, scripts), schedule, c, false);
      var won := SwapCount(Launch(t, scripts), schedule, c, true);
      var w := Sum(WriterFlags(scripts));
      if w == 0 then lost == 0 else lost <= (w - 1) * won
  {
    var s := Launch(t, scripts);
    LaunchWellFormed(t, scripts);
    SumBound(StaleCounts(s, c), 0);
    RunPaid(s, schedule, c, WriterFlags(scripts));
    SwapsCounted(s, schedule, c);
  }
}
