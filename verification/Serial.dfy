/** Writers that never work on one id at the same time: concurrent runs against sequential ones
    (internal/store/store.go). */
module Serial {
  import opened Policies
  import opened Engine
  import opened Tables
  import opened Protocol
  import opened OneEntry

  /** No two calls in flight name the same id. */
  ghost predicate Apart(s: State) {
    forall i, j ::
      (0 <= i < |s.threads| && 0 <= j < |s.threads| && i != j &&
       InFlight(s.threads[i].pc).Some? && InFlight(s.threads[j].pc).Some?)
      ==> IdOf(InFlight(s.threads[i].pc).value) != IdOf(InFlight(s.threads[j].pc).value)
  }

  ghost predicate ApartRun(s: State, schedule: seq<nat>)
    decreases schedule
  {
    schedule == [] || (Apart(s) && ApartRun(Next(s, schedule[0]), schedule[1..]))
  }

  /** A call in flight has already cleared this entry. */
  ghost predicate Cleared(s: State, c: Cell, id: string) {
    exists i :: ClearedBy(s, i, c, id)
  }

  ghost predicate ClearedBy(s: State, i: int, c: Cell, id: string) {
    && 0 <= i < |s.threads|
    && Halfway(s.threads[i].pc)
    && IdOf(s.threads[i].pc.op) == id
    && StepOf(s.threads[i].pc.op, First).cell == c
  }

  /** The tables are those of the finished calls run one at a time in the order they returned, but for
      the entries that calls in flight have cleared. */
  ghost predicate Sequential(s: State, t: Tables) {
    forall c, id ::
      Entry(Contents(s), c, id) == if Cleared(s, c, id) then None else Entry(PerformAll(t, s.done), c, id)
  }

  // ---------------------------------------------------------------- one step

  /** What finishing a half does to goroutine `t`. */
  lemma FinishHalf(s: State, t: nat)
    requires WellFormed(s) && (Commits(s, t) || Skips(s, t))
    ensures var s' := Next(s, t);
      var op, phase := s.threads[t].pc.op, s.threads[t].pc.phase;
      && |s'.threads| == |s.threads|
      && s'.threads[t].pc == (if phase.First? then Loading(op, Second) else Ready)
      && s'.done == (if phase.First? then s.done else s.done + [op])
      && (forall i :: 0 <= i < |s.threads| && i != t ==> s'.threads[i] == s.threads[i])
      && (forall c, id :: Entry(Contents(s'), c, id) ==
            if c == StepOf(op, phase).cell && id == IdOf(op)
            then (if StepOf(op, phase).op.Put? then Some(op.p) else None)
            else Entry(Contents(s), c, id))
  {
    NextFrame(s, t);
    NextContents(s, t);
    var op, phase := s.threads[t].pc.op, s.threads[t].pc.phase;
    forall c, id ensures Entry(Contents(Next(s, t)), c, id) ==
      if c == StepOf(op, phase).cell && id == IdOf(op)
      then (if StepOf(op, phase).op.Put? then Some(op.p) else None)
      else Entry(Contents(s), c, id)
    {
      if Commits(s, t) {
        StepEntry(Contents(s), StepOf(op, phase), c, id);
      }
    }
  }

  lemma StepEntry(t: Tables, step: TableStep, c: Cell, id: string)
    ensures Entry(ApplyStep(t, step), c, id) ==
      if c == step.cell && id == StepId(step.op) then (if step.op.Put? then Some(step.op.p) else None)
      else Entry(t, c, id)
  {
  }

  lemma OtherStep(s: State, t: nat)
    requires WellFormed(s) && !Commits(s, t) && !Skips(s, t)
    ensures var s' := Next(s, t);
      && |s'.threads| == |s.threads|
      && Contents(s') == Contents(s) && s'.done == s.done
      && (forall i :: 0 <= i < |s.threads| && i != t ==> s'.threads[i] == s.threads[i])
      && (t < |s.threads| ==> Halfway(s'.threads[t].pc) == Halfway(s.threads[t].pc))
      && (t < |s.threads| && Halfway(s.threads[t].pc) ==> s'.threads[t].pc.op == s.threads[t].pc.op)
  {
    NextFrame(s, t);
    NextContents(s, t);
  }

  lemma OtherKeepsSequential(s: State, t: nat, base: Tables)
    requires WellFormed(s) && Sequential(s, base) && !Commits(s, t) && !Skips(s, t)
    ensures Sequential(Next(s, t), base)
  {
    OtherStep(s, t);
    OtherCleared(s, t);
  }

  lemma OtherCleared(s: State, t: nat)
    requires WellFormed(s) && !Commits(s, t) && !Skips(s, t)
    ensures forall c, id :: Cleared(Next(s, t), c, id) <==> Cleared(s, c, id)
  {
    var s' := Next(s, t);
    OtherStep(s, t);
    forall c, id ensures Cleared(s', c, id) <==> Cleared(s, c, id) {
      if i :| ClearedBy(s', i, c, id) {
        assert ClearedBy(s, i, c, id);
      }
      if i :| ClearedBy(s, i, c, id) {
        assert ClearedBy(s', i, c, id);
      }
    }
  }

  lemma FirstCleared(s: State, t: nat)
    requires WellFormed(s) && (Commits(s, t) || Skips(s, t)) && s.threads[t].pc.phase.First?
    ensures var op := s.threads[t].pc.op;
      forall c, id ::
        Cleared(Next(s, t), c, id) <==> Cleared(s, c, id) || (c == StepOf(op, First).cell && id == IdOf(op))
  {
    var s' := Next(s, t);
    var op := s.threads[t].pc.op;
    FinishHalf(s, t);
    forall c, id ensures Cleared(s', c, id) <==> Cleared(s, c, id) || (c == StepOf(op, First).cell && id == IdOf(op)) {
      if i :| ClearedBy(s', i, c, id) {
        assert i != t ==> ClearedBy(s, i, c, id);
      }
      if i :| ClearedBy(s, i, c, id) {
        assert ClearedBy(s', i, c, id);
      }
      assert ClearedBy(s', t, StepOf(op, First).cell, IdOf(op));
    }
  }

  lemma FirstKeepsSequential(s: State, t: nat, base: Tables)
    requires WellFormed(s) && Sequential(s, base) && (Commits(s, t) || Skips(s, t))
    requires s.threads[t].pc.phase.First?
    ensures Sequential(Next(s, t), base)
  {
    FinishHalf(s, t);
    FirstCleared(s, t);
  }

  /** A call that returns has cleared its first table until now, and leaves nothing cleared. */
  lemma SecondCleared(s: State, t: nat, c: Cell, id: string)
    requires WellFormed(s) && Apart(s) && (Commits(s, t) || Skips(s, t)) && s.threads[t].pc.phase.Second?
    ensures var op := s.threads[t].pc.op;
      if id == IdOf(op)
      then !Cleared(Next(s, t), c, id) && (c == StepOf(op, First).cell ==> Cleared(s, c, id))
      else Cleared(Next(s, t), c, id) <==> Cleared(s, c, id)
  {
    var s' := Next(s, t);
    var op := s.threads[t].pc.op;
    FinishHalf(s, t);
    if id == IdOf(op) {
      forall i ensures !ClearedBy(s', i, c, id) {
        if 0 <= i < |s.threads| && i != t && Halfway(s.threads[i].pc) {
          assert InFlight(s.threads[i].pc).Some?;
        }
      }
      assert ClearedBy(s, t, StepOf(op, First).cell, id);
    } else {
      if i :| ClearedBy(s', i, c, id) {
        assert ClearedBy(s, i, c, id);
      }
      if i :| ClearedBy(s, i, c, id) {
        assert ClearedBy(s', i, c, id);
      }
    }
  }

  lemma SecondKeepsSequential(s: State, t: nat, base: Tables)
    requires WellFormed(s) && Sequential(s, base) && Apart(s) && (Commits(s, t) || Skips(s, t))
    requires s.threads[t].pc.phase.Second?
    ensures Sequential(Next(s, t), base)
  {
    var s' := Next(s, t);
    var op := s.threads[t].pc.op;
    FinishHalf(s, t);
    assert s'.done[..|s'.done| - 1] == s.done;
    forall c, id ensures Entry(Contents(s'), c, id) ==
      if Cleared(s', c, id) then None else Entry(PerformAll(base, s'.done), c, id)
    {
      PerformEntry(PerformAll(base, s.done), op, c, id);
      SecondCleared(s, t, c, id);
    }
  }

  lemma NextSequential(s: State, t: nat, base: Tables)
    requires WellFormed(s) && Sequential(s, base) && Apart(s)
    ensures Sequential(Next(s, t), base)
  {
    if !Commits(s, t) && !Skips(s, t) {
      OtherKeepsSequential(s, t, base);
    } else if s.threads[t].pc.phase.First? {
      FirstKeepsSequential(s, t, base);
    } else {
      SecondKeepsSequential(s, t, base);
    }
  }

  // ---------------------------------------------------------------- whole runs

  lemma {:induction false} RunSequential(s: State, schedule: seq<nat>, base: Tables)
    requires WellFormed(s) && Sequential(s, base) && ApartRun(s, schedule)
    ensures Sequential(Run(s, schedule), base)
    decreases schedule
  {
    if schedule != [] {
      NextWellFormed(s, schedule[0]);
      NextSequential(s, schedule[0], base);
      RunSequential(Next(s, schedule[0]), schedule[1..], base);
    }
  }

  lemma LaunchSequential(t: Tables, scripts: seq<seq<Task>>)
    ensures Sequential(Launch(t, scripts), t)
  {
    assert Contents(Launch(t, scripts)) == t;
  }

  lemma {:induction false} QuietIsSequential(s: State, base: Tables)
    requires Sequential(s, base)
    requires forall i :: 0 <= i < |s.threads| ==> InFlight(s.threads[i].pc).None?
    ensures Contents(s) == PerformAll(base, s.done)
  {
    forall c, id ensures Entry(Contents(s), c, id) == Entry(PerformAll(base, s.done), c, id) {
      forall i | 0 <= i < |s.threads| ensures !Halfway(s.threads[i].pc) {
        assert InFlight(s.threads[i].pc).None?;
      }
    }
    SameEntries(Contents(s), PerformAll(base, s.done));
  }

  /** Writers that keep apart are linearizable: whenever no call is in flight, the tables are those of
      the finished calls run one at a time in the order they returned. */
  lemma {:induction false} ApartIsSequential(t: Tables, scripts: seq<seq<Task>>, schedule: seq<nat>)
    requires ApartRun(Launch(t, scripts), schedule)
    ensures var e := Run(Launch(t, scripts), schedule);
      && Sequential(e, t)
      && ((forall i :: 0 <= i < |e.threads| ==> InFlight(e.threads[i].pc).None?) ==>
            Contents(e) == PerformAll(t, e.done))
  {
    LaunchWellFormed(t, scripts);
    LaunchSequential(t, scripts);
    RunSequential(Launch(t, scripts), schedule, t);
    var e := Run(Launch(t, scripts), schedule);
    if forall i :: 0 <= i < |e.threads| ==> InFlight(e.threads[i].pc).None? {
      QuietIsSequential(e, t);
    }
  }

  // ---------------------------------------------------------------- half-done updates

  lemma {:induction false} PerformKeepsSingle(t: Tables, ops: seq<StoreOp>)
    requires SingleEntry(t)
    ensures SingleEntry(PerformAll(t, ops))
  {
    if ops != [] {
      PerformKeepsSingle(t, ops[..|ops| - 1]);
    }
  }

  /** Some goroutines inside a call, each named once. */
  ghost predicate Pending(s: State, ts: seq<nat>) {
    && (forall k :: 0 <= k < |ts| ==> ts[k] < |s.threads| && InFlight(s.threads[ts[k]].pc).Some?)
    && (forall j, k :: 0 <= j < k < |ts| ==> ts[j] < ts[k])
  }

  function OpsOf(s: State, ts: seq<nat>): seq<StoreOp>
    requires forall k :: 0 <= k < |ts| ==> ts[k] < |s.threads| && InFlight(s.threads[ts[k]].pc).Some?
  {
    seq(|ts|, k requires 0 <= k < |ts| => InFlight(s.threads[ts[k]].pc).value)
  }

  /** The call is an ALLOW upsert that has evicted its id from a deny table which held it. */
  predicate LiftedDeny(s: State, q: Tables, i: nat) {
    && i < |s.threads|
    && Halfway(s.threads[i].pc)
    && s.threads[i].pc.op.Upsert?
    && Route(s.threads[i].pc.op.p) == AllowCell
    && s.threads[i].pc.op.p.id in q.deny
  }

  /** The calls among the first `n` goroutines that have lifted a deny entry. */
  function Lifting(s: State, q: Tables, n: nat): (ts: seq<nat>)
    requires n <= |s.threads|
    ensures forall k :: 0 <= k < |ts| ==> ts[k] < n && LiftedDeny(s, q, ts[k])
    ensures forall j, k :: 0 <= j < k < |ts| ==> ts[j] < ts[k]
    ensures forall i :: 0 <= i < n && LiftedDeny(s, q, i) ==> i in ts
  {
    if n == 0 then []
    else Lifting(s, q, n - 1) + if LiftedDeny(s, q, n - 1) then [n - 1] else []
  }

  lemma {:induction false} LiftingPending(s: State, q: Tables)
    ensures Pending(s, Lifting(s, q, |s.threads|))
  {
  }

  lemma {:induction false} LiftedIsNamed(s: State, q: Tables, i: nat)
    requires LiftedDeny(s, q, i)
    ensures Pending(s, Lifting(s, q, |s.threads|))
    ensures Names(OpsOf(s, Lifting(s, q, |s.threads|)), IdOf(s.threads[i].pc.op))
  {
    LiftingPending(s, q);
    var ts := Lifting(s, q, |s.threads|);
    var k :| 0 <= k < |ts| && ts[k] == i;
    assert IdOf(OpsOf(s, ts)[k]) == IdOf(s.threads[i].pc.op);
  }

  /** Landing the lifting calls replaces deny entries by allow entries and touches nothing else. */
  lemma {:induction false} LandedEntry(s: State, q: Tables, c: Cell, id: string)
    requires SingleEntry(q)
    ensures var ts := Lifting(s, q, |s.threads|);
      && Pending(s, ts)
      && var ops := OpsOf(s, ts);
         var r := PerformAll(q, ops);
         if Names(ops, id) then id in q.deny && id !in q.allow && id !in r.deny
         else Entry(r, c, id) == Entry(q, c, id)
  {
    LiftingPending(s, q);
    var ts := Lifting(s, q, |s.threads|);
    var ops := OpsOf(s, ts);
    if Names(ops, id) {
      var k := LastExists(ops, id);
      assert LiftedDeny(s, q, ts[k]);
      LastWriterWins(q, ops, k, DenyCell);
    } else {
      UnnamedEntry(q, ops, c, id);
    }
  }

  /** The tables once the lifting calls have landed too. */
  function Resolved(s: State, base: Tables): Tables {
    var q := PerformAll(base, s.done);
    PerformAll(q, OpsOf(s, Lifting(s, q, |s.threads|)))
  }

  lemma AllowEntriesKept(s: State, base: Tables)
    requires SingleEntry(base) && Sequential(s, base)
    ensures SubMap(Contents(s).allow, Resolved(s, base).allow)
  {
    var q := PerformAll(base, s.done);
    PerformKeepsSingle(base, s.done);
    forall k | k in Contents(s).allow
      ensures k in Resolved(s, base).allow && Resolved(s, base).allow[k] == Contents(s).allow[k]
    {
      assert Entry(Contents(s), AllowCell, k) == Entry(q, AllowCell, k);
      LandedEntry(s, q, AllowCell, k);
      assert Entry(Resolved(s, base), AllowCell, k) == Entry(q, AllowCell, k);
    }
  }

  lemma {:induction false} DenyClearedIsNamed(s: State, q: Tables, i: int, id: string)
    requires id in q.deny && ClearedBy(s, i, DenyCell, id)
    ensures Names(OpsOf(s, Lifting(s, q, |s.threads|)), id)
  {
    assert LiftedDeny(s, q, i);
    LiftedIsNamed(s, q, i);
  }

  lemma DenyEntriesWereThere(s: State, base: Tables)
    requires SingleEntry(base) && Sequential(s, base)
    ensures SubMap(Resolved(s, base).deny, Contents(s).deny)
  {
    var q := PerformAll(base, s.done);
    PerformKeepsSingle(base, s.done);
    forall k | k in Resolved(s, base).deny
      ensures k in Contents(s).deny && Contents(s).deny[k] == Resolved(s, base).deny[k]
    {
      LandedEntry(s, q, DenyCell, k);
      assert Entry(Resolved(s, base), DenyCell, k) == Entry(q, DenyCell, k);
      forall i ensures !ClearedBy(s, i, DenyCell, k) {
        if ClearedBy(s, i, DenyCell, k) {
          DenyClearedIsNamed(s, q, i, k);
        }
      }
      assert Entry(Contents(s), DenyCell, k) == Entry(q, DenyCell, k);
    }
  }

  /** Half-done updates are fail-safe: if a state with calls in flight allows a request, so do the
      tables of the finished calls followed by some of the calls in flight, each wholly applied, the
      others wholly unapplied. */
  lemma {:induction false} HalfDoneFailSafe(t: Tables, scripts: seq<seq<Task>>, schedule: seq<nat>, matches: Policy -> bool)
    requires SingleEntry(t) && ApartRun(Launch(t, scripts), schedule)
    requires Allows(matches, Contents(Run(Launch(t, scripts), schedule)))
    ensures var e := Run(Launch(t, scripts), schedule);
      exists ts :: Pending(e, ts) && Allows(matches, PerformAll(t, e.done + OpsOf(e, ts)))
  {
    var e := Run(Launch(t, scripts), schedule);
    ApartIsSequential(t, scripts, schedule);
    var q := PerformAll(t, e.done);
    var ts := Lifting(e, q, |e.threads|);
    LiftingPending(e, q);
    PerformAllConcat(t, e.done, OpsOf(e, ts));
    AllowEntriesKept(e, t);
    DenyEntriesWereThere(e, t);
    AllowMonotone(matches, Contents(e), Resolved(e, t));
  }

  // ---------------------------------------------------------------- a premise on the scripts

  /** No two goroutines write to one id: the single writer per id the stream provides. */
  ghost predicate OwnIds(s: State) {
    forall i, j, a, b ::
      (0 <= i < |s.threads| && 0 <= j < |s.threads| && i != j &&
       Mentions(s.threads[i], a) && Mentions(s.threads[j], b))
      ==> IdOf(a) != IdOf(b)
  }

  lemma NextOwnIds(s: State, t: nat)
    requires OwnIds(s)
    ensures OwnIds(Next(s, t))
  {
    var s' := Next(s, t);
    NextFrame(s, t);
    forall i, j, a, b | 0 <= i < |s'.threads| && 0 <= j < |s'.threads| && i != j &&
      Mentions(s'.threads[i], a) && Mentions(s'.threads[j], b)
      ensures IdOf(a) != IdOf(b)
    {
      NextMentions(s, t, i, a);
      NextMentions(s, t, j, b);
    }
  }

  lemma OwnIdsApart(s: State)
    requires OwnIds(s)
    ensures Apart(s)
  {
    forall i, j | 0 <= i < |s.threads| && 0 <= j < |s.threads| && i != j &&
      InFlight(s.threads[i].pc).Some? && InFlight(s.threads[j].pc).Some?
      ensures IdOf(InFlight(s.threads[i].pc).value) != IdOf(InFlight(s.threads[j].pc).value)
    {
      assert Mentions(s.threads[i], InFlight(s.threads[i].pc).value);
      assert Mentions(s.threads[j], InFlight(s.threads[j].pc).value);
    }
  }

  /** One writer per id is enough for every schedule to keep calls apart. */
  lemma {:induction false} OwnIdsRun(s: State, schedule: seq<nat>)
    requires OwnIds(s)
    ensures ApartRun(s, schedule) && OwnIds(Run(s, schedule))
    decreases schedule
  {
    if schedule != [] {
      OwnIdsApart(s);
      NextOwnIds(s, schedule[0]);
      OwnIdsRun(Next(s, schedule[0]), schedule[1..]);
    }
  }
}
