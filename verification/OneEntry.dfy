/** "One id, one entry" under concurrent writers (internal/store/store.go). */
module OneEntry {
  import opened Policies
  import opened Engine
  import opened Tables
  import opened Protocol
  import opened NoLostUpdates
  import opened LockFree

  /** The policy an upsert still has to insert, once its eviction from the other table is over. */
  function PendingPut(pc: Pc): Option<Policy> {
    if Halfway(pc) && pc.op.Upsert? then Some(pc.op.p) else None
  }

  /** Two upserts of one id, bound for different tables. */
  predicate Opposed(p: Policy, q: Policy) {
    p.id == q.id && Route(p) != Route(q)
  }

  /** Two opposed upserts are both past their eviction. */
  ghost predicate Clash(s: State) {
    exists i, j :: ClashOf(s, i, j)
  }

  ghost predicate ClashOf(s: State, i: int, j: int) {
    && 0 <= i < |s.threads| && 0 <= j < |s.threads|
    && PendingPut(s.threads[i].pc).Some? && PendingPut(s.threads[j].pc).Some?
    && Opposed(PendingPut(s.threads[i].pc).value, PendingPut(s.threads[j].pc).value)
  }

  /** No state of the run but perhaps the last has a clash. */
  ghost predicate ClashFree(s: State, schedule: seq<nat>)
    decreases schedule
  {
    schedule == [] || (!Clash(s) && ClashFree(Next(s, schedule[0]), schedule[1..]))
  }

  /** No id has two entries, and none is in the table an upsert has just evicted it from. */
  ghost predicate Evicted(s: State) {
    && SingleEntry(Contents(s))
    && forall t :: 0 <= t < |s.threads| && PendingPut(s.threads[t].pc).Some? ==>
         var p := PendingPut(s.threads[t].pc).value;
         p.id !in At(Contents(s), Opposite(Route(p)))
  }

  /** The committed table steps applied to a single map, forgetting which table each went to. */
  function MapReplay(m: PolicyMap, steps: seq<TableStep>): PolicyMap {
    if steps == [] then m else On(MapReplay(m, steps[..|steps| - 1]), steps[|steps| - 1].op)
  }

  // ---------------------------------------------------------------- one step

  lemma CommitKeepsEvicted(s: State, t: nat)
    requires WellFormed(s) && Evicted(s) && !Clash(s) && Commits(s, t)
    ensures Evicted(Next(s, t))
  {
    var s' := Next(s, t);
    NextContents(s, t);
    NextFrame(s, t);
    var op, phase := s.threads[t].pc.op, s.threads[t].pc.phase;
    assert s'.threads[t].pc == if phase.First? then Loading(op, Second) else Ready;
    assert PendingPut(s.threads[t].pc).Some? <==> StepOf(op, phase).op.Put?;
    forall i | 0 <= i < |s'.threads| && PendingPut(s'.threads[i].pc).Some?
      ensures PendingPut(s'.threads[i].pc).value.id
        !in At(Contents(s'), Opposite(Route(PendingPut(s'.threads[i].pc).value)))
    {
      if i != t {
        assert PendingPut(s.threads[i].pc) == PendingPut(s'.threads[i].pc);
        assert !ClashOf(s, t, i);
      }
    }
  }

  lemma OtherKeepsEvicted(s: State, t: nat)
    requires WellFormed(s) && Evicted(s) && !Commits(s, t)
    ensures Evicted(Next(s, t))
  {
    var s' := Next(s, t);
    NextContents(s, t);
    NextFrame(s, t);
    if t < |s.threads| && PendingPut(s'.threads[t].pc).Some? {
      if PendingPut(s.threads[t].pc) != PendingPut(s'.threads[t].pc) {
        SkipEvicts(s, t);
      }
    }
  }

  /** An upsert gets past its eviction without a commit only when the id was not there to evict. */
  lemma SkipEvicts(s: State, t: nat)
    requires WellFormed(s) && !Commits(s, t) && t < |s.threads|
    requires |Next(s, t).threads| == |s.threads|
    requires PendingPut(Next(s, t).threads[t].pc).Some?
    requires PendingPut(s.threads[t].pc) != PendingPut(Next(s, t).threads[t].pc)
    ensures var p := PendingPut(Next(s, t).threads[t].pc).value;
      p.id !in At(Contents(s), Opposite(Route(p)))
  {
    assert Skips(s, t);
  }

  lemma NextEvicted(s: State, t: nat)
    requires WellFormed(s) && Evicted(s) && !Clash(s)
    ensures Evicted(Next(s, t))
  {
    if Commits(s, t) {
      CommitKeepsEvicted(s, t);
    } else {
      OtherKeepsEvicted(s, t);
    }
  }

  lemma LaunchEvicted(t: Tables, scripts: seq<seq<Task>>)
    requires SingleEntry(t)
    ensures Evicted(Launch(t, scripts))
  {
  }

  /** A commit on a partitioned map is the same change of the map. */
  lemma CommitPartition(m: PolicyMap, step: TableStep)
    requires step.op.Put? ==> step.cell == Route(step.op.p) && step.op.p.id !in At(Partition(m), Opposite(step.cell))
    requires step.op.Remove? ==> step.op.id in At(Partition(m), step.cell)
    ensures ApplyStep(Partition(m), step) == Partition(On(m, step.op))
  {
    forall c, id ensures Entry(ApplyStep(Partition(m), step), c, id) == Entry(Partition(On(m, step.op)), c, id) {
    }
    SameEntries(ApplyStep(Partition(m), step), Partition(On(m, step.op)));
  }

  lemma {:induction false} NextPartition(s: State, t: nat, m: PolicyMap)
    requires WellFormed(s) && Evicted(s) && Contents(s) == Partition(m)
    ensures s.log <= Next(s, t).log
    ensures Contents(Next(s, t)) == Partition(MapReplay(m, Committed(Since(s, Next(s, t)))))
  {
    NextLog(s, t);
    NextContents(s, t);
    var d := Since(s, Next(s, t));
    if Commits(s, t) {
      assert ThreadOk(s, s.threads[t].pc);
      var step := StepOf(s.threads[t].pc.op, s.threads[t].pc.phase);
      assert d == [Outcome(t, step, true)];
      LogOne(d[0]);
      CommitPartition(m, step);
      MapReplayOne(m, step);
    } else if Skips(s, t) {
      assert d == [Next(s, t).log[|s.log|]];
      LogOne(d[0]);
    } else {
      assert d == [];
    }
  }

  lemma {:induction false} MapReplayOne(m: PolicyMap, step: TableStep)
    ensures MapReplay(m, [step]) == On(m, step.op)
  {
    assert [step][..0] == [];
    assert MapReplay(m, [step][..0]) == m;
  }

  lemma {:induction false} MapReplayConcat(m: PolicyMap, a: seq<TableStep>, b: seq<TableStep>)
    ensures MapReplay(m, a + b) == MapReplay(MapReplay(m, a), b)
  {
    if b == [] {
      assert a + b == a;
    } else {
      assert (a + b)[..|a + b| - 1] == a + b[..|b| - 1];
      MapReplayConcat(m, a, b[..|b| - 1]);
    }
  }

  // ---------------------------------------------------------------- whole runs

  /** While no two opposed upserts are past their evictions at once, every state has at most one entry
      per id, whatever deletes, upserts of the same mode and writers of other ids do. */
  lemma {:induction false} SingleEntryKept(s: State, schedule: seq<nat>)
    requires WellFormed(s) && Evicted(s) && ClashFree(s, schedule)
    ensures Evicted(Run(s, schedule))
    decreases schedule
  {
    if schedule != [] {
      NextWellFormed(s, schedule[0]);
      NextEvicted(s, schedule[0]);
      SingleEntryKept(Next(s, schedule[0]), schedule[1..]);
    }
  }

  /** Under the same premise the two tables are one id -> policy map split by access mode, and the map
      is what the commits make of it in the order of their swaps. */
  lemma {:induction false} TablesRefineOneMap(s: State, schedule: seq<nat>, m: PolicyMap)
    requires WellFormed(s) && Evicted(s) && ClashFree(s, schedule) && Contents(s) == Partition(m)
    ensures var e := Run(s, schedule);
      s.log <= e.log && Contents(e) == Partition(MapReplay(m, Committed(Since(s, e))))
    decreases schedule
  {
    if schedule == [] {
      assert Since(s, s) == [];
    } else {
      var n := Next(s, schedule[0]);
      NextWellFormed(s, schedule[0]);
      NextEvicted(s, schedule[0]);
      NextPartition(s, schedule[0], m);
      var e := Run(n, schedule[1..]);
      TablesRefineOneMap(n, schedule[1..], MapReplay(m, Committed(Since(s, n))));
      MapChain(s, n, e, m);
    }
  }

  lemma {:induction false} MapChain(s: State, n: State, e: State, m: PolicyMap)
    requires s.log <= n.log <= e.log
    ensures MapReplay(m, Committed(Since(s, e))) == MapReplay(MapReplay(m, Committed(Since(s, n))), Committed(Since(n, e)))
  {
    assert Since(s, e) == Since(s, n) + Since(n, e);
    LogConcat(Since(s, n), Since(n, e));
    MapReplayConcat(m, Committed(Since(s, n)), Committed(Since(n, e)));
  }

  // ---------------------------------------------------------------- exactly when

  /** Goroutine `i`, scheduled alone, inserts its policy. */
  lemma LandFresh(s: State, i: nat)
    requires WellFormed(s) && i < |s.threads| && PendingPut(s.threads[i].pc).Some? && Commits(s, i)
    ensures WellFormed(Next(s, i)) && |Next(s, i).threads| == |s.threads|
    ensures forall k :: 0 <= k < |s.threads| && k != i ==> Next(s, i).threads[k] == s.threads[k]
    ensures InFlight(Next(s, i).threads[i].pc).None?
    ensures var p := PendingPut(s.threads[i].pc).value;
      Contents(Next(s, i)) == ApplyStep(Contents(s), TableStep(Route(p), Put(p)))
  {
    NextWellFormed(s, i);
    NextFrame(s, i);
    NextContents(s, i);
  }

  lemma RetryStep(s: State, i: nat)
    requires WellFormed(s) && i < |s.threads| && PendingPut(s.threads[i].pc).Some? && !Commits(s, i)
    ensures WellFormed(Next(s, i)) && |Next(s, i).threads| == |s.threads|
    ensures forall k :: 0 <= k < |s.threads| && k != i ==> Next(s, i).threads[k] == s.threads[k]
    ensures Contents(Next(s, i)) == Contents(s)
    ensures PendingPut(Next(s, i).threads[i].pc) == PendingPut(s.threads[i].pc)
    ensures s.threads[i].pc.Swapping? ==> Next(s, i).threads[i].pc.Loading?
    ensures s.threads[i].pc.Loading? ==> Commits(Next(s, i), i)
  {
    NextWellFormed(s, i);
    NextFrame(s, i);
    NextContents(s, i);
  }

  lemma {:induction false} Land(s: State, i: nat) returns (drive: seq<nat>)
    requires WellFormed(s) && i < |s.threads| && PendingPut(s.threads[i].pc).Some?
    ensures var e := Run(s, drive);
      var p := PendingPut(s.threads[i].pc).value;
      && WellFormed(e) && |e.threads| == |s.threads|
      && (forall k :: 0 <= k < |s.threads| && k != i ==> e.threads[k] == s.threads[k])
      && InFlight(e.threads[i].pc).None?
      && Contents(e) == ApplyStep(Contents(s), TableStep(Route(p), Put(p)))
    decreases if Commits(s, i) then 0 else if s.threads[i].pc.Loading? then 1 else 2
  {
    if Commits(s, i) {
      LandFresh(s, i);
      drive := [i];
      assert Run(s, drive) == Run(Next(s, i), drive[1..]) == Next(s, i);
    } else {
      RetryStep(s, i);
      var rest := Land(Next(s, i), i);
      drive := [i] + rest;
      assert drive[1..] == rest;
    }
  }

  /** From a clash some schedule puts the id into both tables. */
  lemma ClashDoubles(s: State, i: nat, j: nat) returns (schedule: seq<nat>)
    requires WellFormed(s) && ClashOf(s, i, j)
    ensures var e := Run(s, schedule);
      && !SingleEntry(Contents(e)) && |e.threads| == |s.threads|
      && InFlight(e.threads[i].pc).None? && InFlight(e.threads[j].pc).None?
      && forall k :: 0 <= k < |s.threads| && k != i && k != j ==> e.threads[k] == s.threads[k]
  {
    var a := Land(s, i);
    var n := Run(s, a);
    var b := Land(n, j);
    schedule := a + b;
    RunConcat(s, a, b);
    var p, q := PendingPut(s.threads[i].pc).value, PendingPut(s.threads[j].pc).value;
    var t := Contents(Run(n, b));
    assert t == ApplyStep(ApplyStep(Contents(s), TableStep(Route(p), Put(p))), TableStep(Route(q), Put(q)));
    assert p.id in t.allow && p.id in t.deny;
  }

  /** No run from here ever has two entries for one id. */
  ghost predicate AlwaysSingle(s: State) {
    forall r :: SingleEntry(Contents(Run(s, r)))
  }

  ghost predicate NeverClashes(s: State) {
    forall r :: !Clash(Run(s, r))
  }

  lemma {:induction false} NeverClashing(s: State, schedule: seq<nat>)
    requires NeverClashes(s)
    ensures ClashFree(s, schedule)
    decreases schedule
  {
    if schedule != [] {
      assert !Clash(Run(s, []));
      forall r ensures !Clash(Run(Next(s, schedule[0]), r)) {
        assert ([schedule[0]] + r)[1..] == r;
        assert Run(s, [schedule[0]] + r) == Run(Next(s, schedule[0]), r);
      }
      NeverClashing(Next(s, schedule[0]), schedule[1..]);
    }
  }

  lemma ClashBreaks(t: Tables, scripts: seq<seq<Task>>, r: seq<nat>) returns (schedule: seq<nat>)
    requires Clash(Run(Launch(t, scripts), r))
    ensures !SingleEntry(Contents(Run(Launch(t, scripts), schedule)))
  {
    var s := Launch(t, scripts);
    LaunchWellFormed(t, scripts);
    RunWellFormed(s, r);
    var i, j :| ClashOf(Run(s, r), i, j);
    var more := ClashDoubles(Run(s, r), i, j);
    RunConcat(s, r, more);
    schedule := r + more;
  }

  lemma NoClashKeeps(t: Tables, scripts: seq<seq<Task>>)
    requires SingleEntry(t)
    requires NeverClashes(Launch(t, scripts))
    ensures AlwaysSingle(Launch(t, scripts))
  {
    LaunchWellFormed(t, scripts);
    LaunchEvicted(t, scripts);
    forall r ensures SingleEntry(Contents(Run(Launch(t, scripts), r))) {
      NeverClashing(Launch(t, scripts), r);
      SingleEntryKept(Launch(t, scripts), r);
    }
  }

  /** One entry per id holds in every state of every run exactly when no run ever has two opposed
      upserts of one id past their evictions at once. */
  lemma SingleEntryClash(t: Tables, scripts: seq<seq<Task>>)
    requires SingleEntry(t)
    ensures AlwaysSingle(Launch(t, scripts)) <==> NeverClashes(Launch(t, scripts))
  {
    if NeverClashes(Launch(t, scripts)) {
      NoClashKeeps(t, scripts);
    } else {
      var r :| Clash(Run(Launch(t, scripts), r));
      var schedule := ClashBreaks(t, scripts, r);
    }
  }

  /** Two overlapping calls upsert one id into different tables. */
  ghost predicate OverlapOpposed(s: State) {
    exists i, j, p, q ::
      && 0 <= i < |s.threads| && 0 <= j < |s.threads|
      && InFlight(s.threads[i].pc) == Some(Upsert(p)) && InFlight(s.threads[j].pc) == Some(Upsert(q))
      && Opposed(p, q)
  }

  /** The premise as the code's comment words it: as long as overlapping upserts of one id have not
      disagreed on the access mode, the store has one entry per id. */
  lemma {:induction false} OverlapPremise(t: Tables, scripts: seq<seq<Task>>, schedule: seq<nat>)
    requires SingleEntry(t)
    requires forall k :: 0 <= k <= |schedule| ==> !OverlapOpposed(Run(Launch(t, scripts), schedule[..k]))
    ensures SingleEntry(Contents(Run(Launch(t, scripts), schedule)))
  {
    var s := Launch(t, scripts);
    LaunchWellFormed(t, scripts);
    LaunchEvicted(t, scripts);
    PrefixesClashFree(s, schedule);
    SingleEntryKept(s, schedule);
  }

  lemma {:induction false} PrefixesClashFree(s: State, schedule: seq<nat>)
    requires forall k :: 0 <= k <= |schedule| ==> !OverlapOpposed(Run(s, schedule[..k]))
    ensures ClashFree(s, schedule)
    decreases schedule
  {
    if schedule != [] {
      assert schedule[..0] == [] && Run(s, schedule[..0]) == s;
      ClashOverlaps(s);
      var n, rest := Next(s, schedule[0]), schedule[1..];
      forall k | 0 <= k <= |rest| ensures !OverlapOpposed(Run(n, rest[..k])) {
        assert schedule[..k + 1][1..] == rest[..k];
        assert Run(s, schedule[..k + 1]) == Run(n, rest[..k]);
      }
      PrefixesClashFree(n, rest);
    }
  }

  lemma ClashOverlaps(s: State)
    ensures Clash(s) ==> OverlapOpposed(s)
  {
    if i, j :| ClashOf(s, i, j) {
      var p, q := PendingPut(s.threads[i].pc).value, PendingPut(s.threads[j].pc).value;
      assert InFlight(s.threads[i].pc) == Some(Upsert(p)) && InFlight(s.threads[j].pc) == Some(Upsert(q));
    }
  }

  // ---------------------------------------------------------------- a premise on the scripts

  /** The goroutine is inside this call or will make it. */
  ghost predicate Mentions(th: Thread, op: StoreOp) {
    InFlight(th.pc) == Some(op) || Write(op) in th.script
  }

  /** No two goroutines upsert one id into different tables. */
  ghost predicate Agreeing(s: State) {
    forall i, j, p, q ::
      (0 <= i < |s.threads| && 0 <= j < |s.threads| && i != j &&
       Mentions(s.threads[i], Upsert(p)) && Mentions(s.threads[j], Upsert(q)))
      ==> !Opposed(p, q)
  }

  lemma NextMentions(s: State, t: nat, i: nat, op: StoreOp)
    requires i < |s.threads|
    ensures |Next(s, t).threads| == |s.threads|
    ensures Mentions(Next(s, t).threads[i], op) ==> Mentions(s.threads[i], op)
  {
    NextFrame(s, t);
    if i == t && Enabled(s, t) && s.threads[t].pc.Ready? {
      assert s.threads[t].script == [s.threads[t].script[0]] + s.threads[t].script[1..];
    }
  }

  lemma NextAgreeing(s: State, t: nat)
    requires Agreeing(s)
    ensures Agreeing(Next(s, t))
  {
    var s' := Next(s, t);
    NextFrame(s, t);
    forall i, j, p, q | 0 <= i < |s'.threads| && 0 <= j < |s'.threads| && i != j
      && Mentions(s'.threads[i], Upsert(p)) && Mentions(s'.threads[j], Upsert(q))
      ensures !Opposed(p, q)
    {
      NextMentions(s, t, i, Upsert(p));
      NextMentions(s, t, j, Upsert(q));
    }
  }

  lemma AgreeingClash(s: State)
    requires Agreeing(s)
    ensures !Clash(s)
  {
    if i, j :| ClashOf(s, i, j) {
      var p, q := PendingPut(s.threads[i].pc).value, PendingPut(s.threads[j].pc).value;
      assert i != j;
      assert Mentions(s.threads[i], Upsert(p)) && Mentions(s.threads[j], Upsert(q));
    }
  }

  lemma {:induction false} AgreeingRuns(s: State, schedule: seq<nat>)
    requires Agreeing(s)
    ensures ClashFree(s, schedule)
    decreases schedule
  {
    if schedule != [] {
      AgreeingClash(s);
      NextAgreeing(s, schedule[0]);
      AgreeingRuns(Next(s, schedule[0]), schedule[1..]);
    }
  }

  /** No two goroutines are asked to upsert one id into different tables. */
  ghost predicate ScriptsAgree(scripts: seq<seq<Task>>) {
    forall i, j, p, q ::
      (0 <= i < |scripts| && 0 <= j < |scripts| && i != j &&
       Write(Upsert(p)) in scripts[i] && Write(Upsert(q)) in scripts[j])
      ==> !Opposed(p, q)
  }

  lemma AgreeingLaunch(t: Tables, scripts: seq<seq<Task>>)
    requires ScriptsAgree(scripts)
    ensures Agreeing(Launch(t, scripts))
  {
  }

  /** Scripts in which no two goroutines upsert one id into different tables keep one entry per id, and
      one map behind both tables, under every schedule. */
  lemma {:induction false} AgreeingWriters(m: PolicyMap, scripts: seq<seq<Task>>, schedule: seq<nat>)
    requires ScriptsAgree(scripts)
    ensures var e := Run(Launch(Partition(m), scripts), schedule);
      && SingleEntry(Contents(e))
      && Contents(e) == Partition(MapReplay(m, Committed(e.log)))
  {
    var s := Launch(Partition(m), scripts);
    LaunchWellFormed(Partition(m), scripts);
    PartitionSound(m);
    LaunchEvicted(Partition(m), scripts);
    AgreeingLaunch(Partition(m), scripts);
    AgreeingRuns(s, schedule);
    SingleEntryKept(s, schedule);
    TablesRefineOneMap(s, schedule, m);
    assert Since(s, Run(s, schedule)) == Run(s, schedule).log;
  }

  // ---------------------------------------------------------------- exactly which scripts

  /** A goroutine that still has to upsert `p` has a step to take, and the step keeps it so or brings it
      past the eviction. */
  lemma TowardsPending(s: State, i: nat, p: Policy)
    requires WellFormed(s) && i < |s.threads|
    requires Mentions(s.threads[i], Upsert(p)) && PendingPut(s.threads[i].pc) != Some(p)
    ensures Enabled(s, i) && |Next(s, i).threads| == |s.threads|
    ensures Mentions(Next(s, i).threads[i], Upsert(p))
  {
    if s.threads[i].pc.Ready? {
      var script := s.threads[i].script;
      assert script == [script[0]] + script[1..];
    }
  }

  /** Scheduled alone, a goroutine that still has to upsert `p` gets past the eviction of `p` and can be
      paused there. */
  lemma {:induction false} PauseAt(s: State, i: nat, p: Policy) returns (drive: seq<nat>)
    requires WellFormed(s) && i < |s.threads| && Mentions(s.threads[i], Upsert(p))
    ensures var e := Run(s, drive);
      && WellFormed(e) && |e.threads| == |s.threads|
      && PendingPut(e.threads[i].pc) == Some(p)
      && forall k :: 0 <= k < |s.threads| && k != i ==> e.threads[k] == s.threads[k]
    decreases Measure(s)
  {
    if PendingPut(s.threads[i].pc) == Some(p) {
      drive := [];
    } else {
      TowardsPending(s, i, p);
      StepMeasure(s, i);
      NextWellFormed(s, i);
      NextFrame(s, i);
      var rest := PauseAt(Next(s, i), i, p);
      drive := [i] + rest;
      RunFrom(s, i, rest);
    }
  }

  /** Two goroutines with opposed upserts can be brought to a clash. */
  lemma DisagreementClashes(s: State, i: nat, j: nat, p: Policy, q: Policy) returns (schedule: seq<nat>)
    requires WellFormed(s) && i < |s.threads| && j < |s.threads| && i != j && Opposed(p, q)
    requires Mentions(s.threads[i], Upsert(p)) && Mentions(s.threads[j], Upsert(q))
    ensures Clash(Run(s, schedule))
  {
    var a := PauseAt(s, i, p);
    var n := Run(s, a);
    var b := PauseAt(n, j, q);
    schedule := a + b;
    RunConcat(s, a, b);
    assert ClashOf(Run(n, b), i, j);
  }

  lemma DisagreeingScripts(t: Tables, scripts: seq<seq<Task>>) returns (schedule: seq<nat>)
    requires !ScriptsAgree(scripts)
    ensures Clash(Run(Launch(t, scripts), schedule))
  {
    var i, j, p, q :| 0 <= i < |scripts| && 0 <= j < |scripts| && i != j &&
      Write(Upsert(p)) in scripts[i] && Write(Upsert(q)) in scripts[j] && Opposed(p, q);
    LaunchWellFormed(t, scripts);
    var s := Launch(t, scripts);
    assert s.threads[i].script == scripts[i] && s.threads[j].script == scripts[j];
    schedule := DisagreementClashes(s, i, j, p, q);
  }

  /** "One id, one entry" holds in every state of every run exactly when no two goroutines are asked to
      upsert one id into different tables. */
  lemma SingleEntryExact(t: Tables, scripts: seq<seq<Task>>)
    requires SingleEntry(t)
    ensures AlwaysSingle(Launch(t, scripts)) <==> ScriptsAgree(scripts)
  {
    if ScriptsAgree(scripts) {
      AgreeingLaunch(t, scripts);
      forall r ensures !Clash(Run(Launch(t, scripts), r)) {
        AgreeingEnd(Launch(t, scripts), r);
      }
      NoClashKeeps(t, scripts);
    } else {
      var r := DisagreeingScripts(t, scripts);
      var schedule := ClashBreaks(t, scripts, r);
    }
  }

  lemma {:induction false} AgreeingEnd(s: State, schedule: seq<nat>)
    requires Agreeing(s)
    ensures !Clash(Run(s, schedule))
    decreases schedule
  {
    if schedule == [] {
      AgreeingClash(s);
    } else {
      NextAgreeing(s, schedule[0]);
      AgreeingEnd(Next(s, schedule[0]), schedule[1..]);
    }
  }

  // ---------------------------------------------------------------- the documented exception

  /** Two opposed upserts of one id on an empty store: one interleaving leaves both entries. Decisions
      stay on the safe side: what the doubled entry allows, the order that ends with the ALLOW policy
      allows too, and a match of the DENY policy always wins. */
  lemma OpposedUpsertsDouble(p: Policy, q: Policy, matches: Policy -> bool) returns (schedule: seq<nat>)
    requires p.id == q.id && Route(p) == AllowCell && Route(q) == DenyCell
    ensures var t := Contents(Run(Launch(EMPTY, [[Write(Upsert(p))], [Write(Upsert(q))]]), schedule));
      && t == Tables(map[p.id := p], map[q.id := q])
      && !SingleEntry(t)
      && (Allows(matches, t) <==> matches(p) && !matches(q))
      && (Allows(matches, t) ==> Allows(matches, PerformAll(EMPTY, [Upsert(q), Upsert(p)])))
  {
    var s := Launch(EMPTY, [[Write(Upsert(p))], [Write(Upsert(q))]]);
    LaunchWellFormed(EMPTY, [[Write(Upsert(p))], [Write(Upsert(q))]]);
    var s1 := Next(s, 0);
    var s2 := Next(s1, 1);
    var s3 := Next(s2, 0);
    var s4 := Next(s3, 1);
    assert s4.threads[0].pc == Loading(Upsert(p), Second) && s4.threads[1].pc == Loading(Upsert(q), Second);
    assert Contents(s4) == EMPTY;
    assert WellFormed(s4);
    var a := Land(s4, 0);
    var b := Land(Run(s4, a), 1);
    schedule := [0, 1, 0, 1] + (a + b);
    RunConcat(s4, a, b);
    UnrollFour(s, 0, 1, 0, 1, a + b);
    var t := Contents(Run(s, schedule));
    assert t == Tables(map[p.id := p], map[q.id := q]);
    assert p.id in t.allow && p.id in t.deny;
    QThenP(p, q);
  }

  lemma {:induction false} UnrollFour(s: State, a: nat, b: nat, c: nat, d: nat, rest: seq<nat>)
    ensures Run(s, [a, b, c, d] + rest) == Run(Next(Next(Next(Next(s, a), b), c), d), rest)
  {
    RunFrom(s, a, [b, c, d] + rest);
    RunFrom(Next(s, a), b, [c, d] + rest);
    RunFrom(Next(Next(s, a), b), c, [d] + rest);
    RunFrom(Next(Next(Next(s, a), b), c), d, rest);
    assert [a, b, c, d] + rest == [a] + ([b, c, d] + rest);
    assert [b, c, d] + rest == [b] + ([c, d] + rest);
    assert [c, d] + rest == [c] + ([d] + rest);
  }

  lemma {:induction false} RunFrom(s: State, a: nat, rest: seq<nat>)
    ensures Run(s, [a] + rest) == Run(Next(s, a), rest)
  {
    assert ([a] + rest)[1..] == rest;
  }

  lemma QThenP(p: Policy, q: Policy)
    requires p.id == q.id && Route(p) == AllowCell && Route(q) == DenyCell
    ensures PerformAll(EMPTY, [Upsert(q), Upsert(p)]) == Tables(map[p.id := p], map[])
  {
    var ops := [Upsert(q), Upsert(p)];
    assert ops[..1] == [Upsert(q)] && ops[..1][..0] == [];
    assert PerformAll(EMPTY, ops[..1]) == Perform(PerformAll(EMPTY, ops[..1][..0]), Upsert(q)) == Perform(EMPTY, Upsert(q));
    assert PerformAll(EMPTY, ops) == Perform(Perform(EMPTY, Upsert(q)), Upsert(p));
  }
}
