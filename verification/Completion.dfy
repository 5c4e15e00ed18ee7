/** Which calls have returned, and what that makes of the tables (internal/store/store.go). */
module Completion {
  import opened Policies
  import opened Tables
  import opened Protocol
  import opened LockFree
  import opened Serial

  function WritesOf(script: seq<Task>): seq<StoreOp> {
    if script == [] then []
    else
      match script[0]
      case Write(op) => [op] + WritesOf(script[1..])
      case Snapshot => WritesOf(script[1..])
  }

  /** The writes a goroutine has still to return from, the one it is inside of first. */
  function Upcoming(th: Thread): seq<StoreOp> {
    match InFlight(th.pc)
    case Some(op) => [op] + WritesOf(th.script)
    case None => WritesOf(th.script)
  }

  /** Returning moves the call from the goroutine's list to the end of `done`; no other step changes
      either. */
  lemma ReturnUpcoming(s: State, t: nat)
    requires Returns(s, t)
    ensures |Next(s, t).threads| == |s.threads|
    ensures Next(s, t).done == s.done + [s.threads[t].pc.op]
    ensures Upcoming(s.threads[t]) == [s.threads[t].pc.op] + Upcoming(Next(s, t).threads[t])
  {
  }

  lemma KeepUpcoming(s: State, t: nat)
    requires !Returns(s, t)
    ensures |Next(s, t).threads| == |s.threads|
    ensures Next(s, t).done == s.done
    ensures t < |s.threads| ==> Upcoming(Next(s, t).threads[t]) == Upcoming(s.threads[t])
  {
  }

  lemma NextUpcoming(s: State, t: nat)
    ensures |Next(s, t).threads| == |s.threads|
    ensures forall i :: 0 <= i < |s.threads| && i != t ==> Next(s, t).threads[i] == s.threads[i]
    ensures Returns(s, t) ==>
      && Next(s, t).done == s.done + [s.threads[t].pc.op]
      && Upcoming(s.threads[t]) == [s.threads[t].pc.op] + Upcoming(Next(s, t).threads[t])
    ensures !Returns(s, t) ==>
      && Next(s, t).done == s.done
      && (t < |s.threads| ==> Upcoming(Next(s, t).threads[t]) == Upcoming(s.threads[t]))
  {
    NextFrame(s, t);
    if Returns(s, t) {
      ReturnUpcoming(s, t);
    } else {
      KeepUpcoming(s, t);
    }
  }

  // ---------------------------------------------------------------- one writer among readers

  /** Only goroutine 0 writes, and its calls return in the order of `ops`. */
  ghost predicate SoleWriter(s: State, ops: seq<StoreOp>) {
    && |s.threads| > 0
    && s.done + Upcoming(s.threads[0]) == ops
    && forall i :: 0 < i < |s.threads| ==> Upcoming(s.threads[i]) == []
  }

  lemma NextSoleWriter(s: State, t: nat, ops: seq<StoreOp>)
    requires SoleWriter(s, ops)
    ensures SoleWriter(Next(s, t), ops) && Apart(s)
  {
    NextUpcoming(s, t);
    if Returns(s, t) {
      assert t < |s.threads| && Upcoming(s.threads[t]) != [];
      assert Next(s, t).done + Upcoming(Next(s, t).threads[0]) == s.done + Upcoming(s.threads[0]);
    }
    forall i | 0 < i < |s.threads| ensures InFlight(s.threads[i].pc).None? {
      assert Upcoming(s.threads[i]) == [];
    }
  }

  lemma {:induction false} RunSoleWriter(s: State, schedule: seq<nat>, ops: seq<StoreOp>)
    requires SoleWriter(s, ops)
    ensures SoleWriter(Run(s, schedule), ops) && ApartRun(s, schedule)
    decreases schedule
  {
    if schedule != [] {
      NextSoleWriter(s, schedule[0], ops);
      RunSoleWriter(Next(s, schedule[0]), schedule[1..], ops);
    }
  }

  lemma {:induction false} WritesOfWrites(ops: seq<StoreOp>)
    ensures WritesOf(seq(|ops|, i requires 0 <= i < |ops| => Write(ops[i]))) == ops
  {
    var script := seq(|ops|, i requires 0 <= i < |ops| => Write(ops[i]));
    if ops != [] {
      var rest := seq(|ops[1..]|, i requires 0 <= i < |ops[1..]| => Write(ops[1..][i]));
      assert script[1..] == rest;
      WritesOfWrites(ops[1..]);
    }
  }

  lemma {:induction false} ReadersWriteNothing(script: seq<Task>)
    requires forall k :: 0 <= k < |script| ==> script[k].Snapshot?
    ensures WritesOf(script) == []
  {
    if script != [] {
      ReadersWriteNothing(script[1..]);
    }
  }

  lemma SoleWriterLaunch(t: Tables, ops: seq<StoreOp>, readers: seq<seq<Task>>)
    requires forall i, k :: 0 <= i < |readers| && 0 <= k < |readers[i]| ==> readers[i][k].Snapshot?
    ensures var writer := seq(|ops|, i requires 0 <= i < |ops| => Write(ops[i]));
      SoleWriter(Launch(t, [writer] + readers), ops)
  {
    var writer := seq(|ops|, i requires 0 <= i < |ops| => Write(ops[i]));
    var scripts := [writer] + readers;
    var s := Launch(t, scripts);
    WritesOfWrites(ops);
    forall i | 0 < i < |s.threads| ensures Upcoming(s.threads[i]) == [] {
      assert scripts[i] == readers[i - 1];
      ReadersWriteNothing(scripts[i]);
    }
    assert Upcoming(s.threads[0]) == ops;
  }

  /** One goroutine applies `ops` while any number of others only read: under every schedule its calls
      return in order, the tables are those of the calls returned so far but for what the current call
      has cleared, and in the end they are the sequential result. */
  lemma SoleWriterRefines(t: Tables, ops: seq<StoreOp>, readers: seq<seq<Task>>, schedule: seq<nat>)
    requires forall i, k :: 0 <= i < |readers| && 0 <= k < |readers[i]| ==> readers[i][k].Snapshot?
    ensures var writer := seq(|ops|, i requires 0 <= i < |ops| => Write(ops[i]));
      var e := Run(Launch(t, [writer] + readers), schedule);
      && e.done <= ops
      && Sequential(e, t)
      && |e.threads| == 1 + |readers|
      && (Finished(e.threads[0]) ==> Contents(e) == PerformAll(t, ops))
  {
    var writer := seq(|ops|, i requires 0 <= i < |ops| => Write(ops[i]));
    var scripts := [writer] + readers;
    var s := Launch(t, scripts);
    SoleWriterLaunch(t, ops, readers);
    RunSoleWriter(s, schedule, ops);
    ApartIsSequential(t, scripts, schedule);
    LaunchWellFormed(t, scripts);
    RunWellFormed(s, schedule);
    var e := Run(s, schedule);
    if Finished(e.threads[0]) {
      assert Upcoming(e.threads[0]) == [];
      forall i | 0 <= i < |e.threads| ensures InFlight(e.threads[i].pc).None? {
        assert Upcoming(e.threads[i]) == [];
      }
      assert e.done == ops;
    }
  }

  // ---------------------------------------------------------------- fresh upserts

  predicate Fresh(op: StoreOp, t: Tables) {
    op.Upsert? && op.p.id !in t.allow && op.p.id !in t.deny
  }

  ghost predicate DistinctIds(ops: seq<StoreOp>) {
    forall j, k :: 0 <= j < k < |ops| ==> IdOf(ops[j]) != IdOf(ops[k])
  }

  ghost predicate DisjointIds(a: seq<StoreOp>, b: seq<StoreOp>) {
    forall j, k :: 0 <= j < |a| && 0 <= k < |b| ==> IdOf(a[j]) != IdOf(b[k])
  }

  ghost predicate AllFresh(ops: seq<StoreOp>, t: Tables) {
    forall k :: 0 <= k < |ops| ==> Fresh(ops[k], t)
  }

  /** Every write, past or to come, is an upsert of an id of its own that `t` does not hold. */
  ghost predicate FreshPlan(s: State, t: Tables) {
    && AllFresh(s.done, t) && DistinctIds(s.done)
    && (forall i :: 0 <= i < |s.threads| ==>
          AllFresh(Upcoming(s.threads[i]), t) && DistinctIds(Upcoming(s.threads[i]))
          && DisjointIds(Upcoming(s.threads[i]), s.done))
    && (forall i, j :: 0 <= i < |s.threads| && 0 <= j < |s.threads| && i != j ==>
          DisjointIds(Upcoming(s.threads[i]), Upcoming(s.threads[j])))
  }

  lemma ShiftDistinct(head: StoreOp, tail: seq<StoreOp>, ops: seq<StoreOp>, t: Tables)
    requires ops == [head] + tail && AllFresh(ops, t) && DistinctIds(ops)
    ensures AllFresh(tail, t) && DistinctIds(tail) && Fresh(head, t) && DisjointIds(tail, [head])
  {
    assert forall k :: 0 <= k < |tail| ==> tail[k] == ops[k + 1];
    assert ops[0] == head;
  }

  lemma ShiftDisjoint(head: StoreOp, tail: seq<StoreOp>, ops: seq<StoreOp>, other: seq<StoreOp>)
    requires ops == [head] + tail
    ensures DisjointIds(ops, other) <==> DisjointIds([head], other) && DisjointIds(tail, other)
    ensures DisjointIds(other, ops) <==> DisjointIds(other, [head]) && DisjointIds(other, tail)
  {
    assert forall k :: 0 <= k < |tail| ==> tail[k] == ops[k + 1];
    assert ops[0] == head;
  }

  lemma NextFreshPlan(s: State, t: nat, base: Tables)
    requires FreshPlan(s, base)
    ensures FreshPlan(Next(s, t), base)
  {
    var s' := Next(s, t);
    NextUpcoming(s, t);
    if Returns(s, t) {
      var op := s.threads[t].pc.op;
      var ops, tail := Upcoming(s.threads[t]), Upcoming(s'.threads[t]);
      ShiftDistinct(op, tail, ops, base);
      ShiftDisjoint(op, tail, ops, s.done);
      forall i | 0 <= i < |s.threads|
        ensures DisjointIds(Upcoming(s'.threads[i]), s'.done)
        ensures i != t ==> DisjointIds(Upcoming(s'.threads[i]), tail) && DisjointIds(tail, Upcoming(s'.threads[i]))
      {
        ShiftDisjoint(op, tail, ops, Upcoming(s.threads[i]));
        AppendDisjoint(Upcoming(s'.threads[i]), s.done, op);
      }
      AppendDistinct(s.done, op, base);
    } else {
      forall i | 0 <= i < |s.threads| ensures Upcoming(s'.threads[i]) == Upcoming(s.threads[i]) {
      }
    }
  }

  lemma AppendDisjoint(ops: seq<StoreOp>, done: seq<StoreOp>, op: StoreOp)
    requires DisjointIds(ops, done) && DisjointIds(ops, [op])
    ensures DisjointIds(ops, done + [op])
  {
    assert [op][0] == op;
  }

  lemma AppendDistinct(done: seq<StoreOp>, op: StoreOp, t: Tables)
    requires AllFresh(done, t) && DistinctIds(done) && Fresh(op, t) && DisjointIds([op], done)
    ensures AllFresh(done + [op], t) && DistinctIds(done + [op])
  {
    assert [op][0] == op;
  }

  lemma FreshApart(s: State, base: Tables)
    requires FreshPlan(s, base)
    ensures Apart(s)
  {
    forall i | 0 <= i < |s.threads| && InFlight(s.threads[i].pc).Some?
      ensures |Upcoming(s.threads[i])| > 0 && Upcoming(s.threads[i])[0] == InFlight(s.threads[i].pc).value
    {
    }
  }

  lemma {:induction false} RunFreshPlan(s: State, schedule: seq<nat>, base: Tables)
    requires FreshPlan(s, base)
    ensures FreshPlan(Run(s, schedule), base) && ApartRun(s, schedule)
    decreases schedule
  {
    if schedule != [] {
      FreshApart(s, base);
      NextFreshPlan(s, schedule[0], base);
      RunFreshPlan(Next(s, schedule[0]), schedule[1..], base);
    }
  }

  /** The number of entries in both tables. */
  function Total(t: Tables): nat {
    |t.allow| + |t.deny|
  }

  lemma PutFresh(m: PolicyMap, p: Policy)
    requires p.id !in m
    ensures |m[p.id := p]| == |m| + 1
  {
    var u := m[p.id := p];
    assert u.Keys == m.Keys + {p.id};
    assert |u| == |u.Keys| && |m| == |m.Keys|;
  }

  lemma RemoveAbsent(m: PolicyMap, id: string)
    requires id !in m
    ensures m - {id} == m
  {
  }

  lemma FreshUpsertAdds(t: Tables, op: StoreOp)
    requires Fresh(op, t)
    ensures Total(Perform(t, op)) == Total(t) + 1
  {
    PutFresh(At(t, Route(op.p)), op.p);
    RemoveAbsent(At(t, Opposite(Route(op.p))), op.p.id);
  }

  lemma {:induction false} FreshUpsertsAdd(t: Tables, ops: seq<StoreOp>)
    requires AllFresh(ops, t) && DistinctIds(ops)
    ensures Total(PerformAll(t, ops)) == Total(t) + |ops|
  {
    if ops != [] {
      var init, op := ops[..|ops| - 1], ops[|ops| - 1];
      FreshUpsertsAdd(t, init);
      assert !Names(init, IdOf(op));
      UnnamedEntry(t, init, AllowCell, IdOf(op));
      UnnamedEntry(t, init, DenyCell, IdOf(op));
      FreshUpsertAdds(PerformAll(t, init), op);
    }
  }

  lemma {:induction false} FreshContents(s: State, base: Tables)
    requires Sequential(s, base) && FreshPlan(s, base)
    ensures Contents(s) == PerformAll(base, s.done)
  {
    forall c, id ensures Entry(Contents(s), c, id) == Entry(PerformAll(base, s.done), c, id) {
      if i :| ClearedBy(s, i, c, id) {
        assert Upcoming(s.threads[i])[0] == s.threads[i].pc.op;
        assert !Names(s.done, id);
        UnnamedEntry(base, s.done, c, id);
      }
    }
    SameEntries(Contents(s), PerformAll(base, s.done));
  }

  function Pendings(s: State): (ws: seq<nat>)
    ensures |ws| == |s.threads| && forall i :: 0 <= i < |ws| ==> ws[i] == |Upcoming(s.threads[i])|
  {
    seq(|s.threads|, i requires 0 <= i < |s.threads| => |Upcoming(s.threads[i])|)
  }

  /** Every write returns exactly once: returned and outstanding writes always add up to the same. */
  lemma {:induction false} WritesConserved(s: State, schedule: seq<nat>)
    ensures |Run(s, schedule).done| + Sum(Pendings(Run(s, schedule))) == |s.done| + Sum(Pendings(s))
    decreases schedule
  {
    if schedule != [] {
      var t := schedule[0];
      NextUpcoming(s, t);
      if t < |s.threads| {
        SumUpdate(Pendings(s), Pendings(Next(s, t)), t);
      } else {
        assert Next(s, t) == s;
      }
      WritesConserved(Next(s, t), schedule[1..]);
    }
  }

  /** Goroutines upserting distinct new ids raise the count by exactly one per returned call, in every
      state of every interleaving; when all have returned that is one per call asked for. */
  lemma {:induction false} FreshUpsertsCounted(t: Tables, scripts: seq<seq<Task>>, schedule: seq<nat>)
    requires forall i :: 0 <= i < |scripts| ==>
      AllFresh(WritesOf(scripts[i]), t) && DistinctIds(WritesOf(scripts[i]))
    requires forall i, j :: 0 <= i < |scripts| && 0 <= j < |scripts| && i != j ==>
      DisjointIds(WritesOf(scripts[i]), WritesOf(scripts[j]))
    ensures var s := Launch(t, scripts);
      var e := Run(s, schedule);
      && Total(Contents(e)) == Total(t) + |e.done|
      && ((forall i :: 0 <= i < |e.threads| ==> Finished(e.threads[i])) ==>
            Total(Contents(e)) == Total(t) + Sum(Pendings(s)))
  {
    var s := Launch(t, scripts);
    var e := Run(s, schedule);
    forall i | 0 <= i < |s.threads| ensures Upcoming(s.threads[i]) == WritesOf(scripts[i]) {
    }
    assert FreshPlan(s, t);
    RunFreshPlan(s, schedule, t);
    ApartIsSequential(t, scripts, schedule);
    FreshContents(e, t);
    FreshUpsertsAdd(t, e.done);
    WritesConserved(s, schedule);
    if forall i :: 0 <= i < |e.threads| ==> Finished(e.threads[i]) {
      forall i | 0 <= i < |e.threads| ensures Pendings(e)[i] <= 0 {
        assert Finished(e.threads[i]);
      }
      SumBound(Pendings(e), 0);
    }
  }
}
