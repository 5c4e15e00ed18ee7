/** When the store is linearizable: sequential orders of overlapping calls, also of calls on one id
    (internal/store/store.go). */
module Linear {
  import opened Policies
  import opened Tables
  import opened Protocol
  import opened OneEntry
  import opened Serial
  import opened RealTime
  import opened Origins

  // ---------------------------------------------------------------- one id at rest

  /** All other calls on the id of returned call `k` had returned when it began, and none is in flight. */
  ghost predicate LastOnItsId(s: State, h: History, k: nat) {
    && k < |h.calls|
    && (forall j :: 0 <= j < |h.calls| && j != k && IdOf(h.calls[j].op) == IdOf(h.calls[k].op) ==>
          Precedes(h.calls[j], h.calls[k]))
    && (forall i :: 0 <= i < |s.threads| && InFlight(s.threads[i].pc).Some? ==>
          IdOf(InFlight(s.threads[i].pc).value) != IdOf(h.calls[k].op))
  }

  /** Writes are read back: while a call was the last on its id and overlapped no other on it, both
      tables hold under that id what the call leaves, whatever goes on on other ids. */
  lemma {:induction false} LastCallStands(t: Tables, scripts: seq<seq<Task>>, schedule: seq<nat>, k: nat, c: Cell)
    requires LastOnItsId(Run(Launch(t, scripts), schedule), Record(t, scripts, schedule), k)
    ensures var e := Run(Launch(t, scripts), schedule);
      var op := Record(t, scripts, schedule).calls[k].op;
      Entry(Contents(e), c, IdOf(op)) == OpEntry(op, c)
  {
    var e, h := Run(Launch(t, scripts), schedule), Record(t, scripts, schedule);
    var id := IdOf(h.calls[k].op);
    AlwaysAccounted(t, scripts, schedule);
    assert EntryOrigin(e, h, t, c, id);
    forall i ensures !ClearedBy(e, i, c, id) {
      if 0 <= i < |e.threads| && Halfway(e.threads[i].pc) {
        assert InFlight(e.threads[i].pc) == Some(e.threads[i].pc.op);
      }
    }
    var j :| LeftBy(e, h, c, id, j);
    assert j == k;
  }

  // ---------------------------------------------------------------- all ids at rest

  /** The tables are those of the returned calls run one at a time, none before a call that had returned
      when it began. */
  ghost predicate Linearizable(s: State, h: History, t: Tables) {
    exists order :: RealTimeOrder(h.calls, order) && Contents(s) == InOrder(t, order)
  }

  lemma QuietClearsNothing(s: State)
    requires AtRest(s)
    ensures forall c, id :: !Cleared(s, c, id)
    ensures forall i, id :: !HalfwayOn(s, i, id)
  {
    forall i | 0 <= i < |s.threads| ensures !Halfway(s.threads[i].pc) {
      assert InFlight(s.threads[i].pc).None?;
    }
  }

  lemma LateIsFinal(h: History, k: nat)
    requires k < |h.calls| && h.calls[k].returned == k
    requires forall j :: 0 <= j < |h.calls| && IdOf(h.calls[j].op) == IdOf(h.calls[k].op) ==> h.calls[j].began <= k
    ensures Final(h.calls, h.calls[k])
  {
    forall x | x in h.calls && IdOf(x.op) == IdOf(h.calls[k].op) ensures !Precedes(h.calls[k], x) {
      var j :| 0 <= j < |h.calls| && h.calls[j] == x;
    }
  }

  /** With one entry per id, some returned call on each id left both its entries as they are. */
  lemma FinalCall(s: State, h: History, t: Tables, id: string) returns (k: nat)
    requires Accounted(s, h, t) && AtRest(s) && SingleEntry(Contents(s)) && Named(h.calls, id)
    ensures k < |h.calls| && IdOf(h.calls[k].op) == id && Final(h.calls, h.calls[k])
    ensures forall c :: OpEntry(h.calls[k].op, c) == Entry(Contents(s), c, id)
  {
    QuietClearsNothing(s);
    if Missing(s, id) {
      assert GapOrigin(s, h, id);
      var d :| DeletedBy(h, id, d);
      k := d;
    } else {
      var cell := if id in Contents(s).allow then AllowCell else DenyCell;
      assert EntryOrigin(s, h, t, cell, id);
      var d :| LeftBy(s, h, cell, id, d);
      k := d;
      assert h.calls[k].op == Upsert(At(Contents(s), cell)[id]) && Route(h.calls[k].op.p) == cell;
    }
    LateIsFinal(h, k);
  }

  lemma UntouchedEntry(s: State, h: History, t: Tables, c: Cell, id: string)
    requires Accounted(s, h, t) && AtRest(s) && !Named(h.calls, id)
    ensures Entry(Contents(s), c, id) == Entry(t, c, id)
  {
    QuietClearsNothing(s);
    assert EntryOrigin(s, h, t, c, id);
  }

  lemma FinalCalls(s: State, h: History, t: Tables) returns (chosen: map<string, Call>)
    requires Accounted(s, h, t) && AtRest(s) && SingleEntry(Contents(s))
    ensures Deciders(h.calls, chosen)
    ensures forall c, id :: id in chosen ==> OpEntry(chosen[id].op, c) == Entry(Contents(s), c, id)
  {
    var ids := set k | 0 <= k < |h.calls| :: IdOf(h.calls[k].op);
    forall id ensures id in ids <==> Named(h.calls, id) {
    }
    forall id | id in ids ensures exists call :: Closes(s, h, call, id) {
      var k := FinalCall(s, h, t, id);
      assert Closes(s, h, h.calls[k], id);
    }
    chosen := map id | id in ids :: var call :| Closes(s, h, call, id); call;
  }

  ghost predicate Closes(s: State, h: History, call: Call, id: string) {
    && IdOf(call.op) == id
    && Final(h.calls, call)
    && forall c :: OpEntry(call.op, c) == Entry(Contents(s), c, id)
  }

  lemma SingleIsLinearizable(s: State, h: History, t: Tables)
    requires Accounted(s, h, t) && AtRest(s) && SingleEntry(Contents(s))
    ensures Linearizable(s, h, t)
  {
    var chosen := FinalCalls(s, h, t);
    forall c | c in h.calls ensures c.began <= c.returned {
      var k :| 0 <= k < |h.calls| && h.calls[k] == c;
    }
    var order := Serialise(t, h.calls, chosen);
    forall c, id ensures Entry(Contents(s), c, id) == Entry(InOrder(t, order), c, id) {
      if id !in chosen {
        UntouchedEntry(s, h, t, c, id);
      }
    }
    SameEntries(Contents(s), InOrder(t, order));
  }

  /** Writers that overlap on one id: when no call is in flight, the store is linearizable exactly when
      no id has two entries. */
  lemma {:induction false} LinearizableExact(t: Tables, scripts: seq<seq<Task>>, schedule: seq<nat>)
    requires SingleEntry(t) && AtRest(Run(Launch(t, scripts), schedule))
    ensures var e := Run(Launch(t, scripts), schedule);
      Linearizable(e, Record(t, scripts, schedule), t) <==> SingleEntry(Contents(e))
  {
    var e, h := Run(Launch(t, scripts), schedule), Record(t, scripts, schedule);
    AlwaysAccounted(t, scripts, schedule);
    if SingleEntry(Contents(e)) {
      SingleIsLinearizable(e, h, t);
    }
    if order :| RealTimeOrder(h.calls, order) && Contents(e) == InOrder(t, order) {
      PerformKeepsSingle(t, OpsIn(order));
    }
  }

  // ---------------------------------------------------------------- exactly which scripts

  /** Whenever no call is in flight, in any run, the store is linearizable. */
  ghost predicate AlwaysLinearizable(t: Tables, scripts: seq<seq<Task>>) {
    forall r :: AtRest(Run(Launch(t, scripts), r)) ==>
      Linearizable(Run(Launch(t, scripts), r), Record(t, scripts, r), t)
  }

  /** Goroutines asked for opposed upserts can all come to rest with two entries for one id. */
  lemma DisagreementDoubles(t: Tables, scripts: seq<seq<Task>>) returns (schedule: seq<nat>)
    requires !ScriptsAgree(scripts)
    ensures var e := Run(Launch(t, scripts), schedule);
      AtRest(e) && !SingleEntry(Contents(e))
  {
    var i, j, p, q :| 0 <= i < |scripts| && 0 <= j < |scripts| && i != j &&
      Write(Upsert(p)) in scripts[i] && Write(Upsert(q)) in scripts[j] && Opposed(p, q);
    LaunchWellFormed(t, scripts);
    var s := Launch(t, scripts);
    assert s.threads[i].script == scripts[i] && s.threads[j].script == scripts[j];
    var a := PauseAt(s, i, p);
    var n := Run(s, a);
    var b := PauseAt(n, j, q);
    var m := Run(n, b);
    assert ClashOf(m, i, j);
    var d := ClashDoubles(m, i, j);
    RunConcat(n, b, d);
    RunConcat(s, a, b + d);
    schedule := a + (b + d);
    var e := Run(m, d);
    forall k | 0 <= k < |e.threads| ensures InFlight(e.threads[k].pc).None? {
      assert k != i && k != j ==> e.threads[k] == s.threads[k];
    }
  }

  /** The writers are linearizable in all runs exactly when no two goroutines are asked to upsert one id
      into different tables. */
  lemma LinearizableScripts(t: Tables, scripts: seq<seq<Task>>)
    requires SingleEntry(t)
    ensures AlwaysLinearizable(t, scripts) <==> ScriptsAgree(scripts)
  {
    if ScriptsAgree(scripts) {
      SingleEntryExact(t, scripts);
      forall r | AtRest(Run(Launch(t, scripts), r))
        ensures Linearizable(Run(Launch(t, scripts), r), Record(t, scripts, r), t)
      {
        LinearizableExact(t, scripts, r);
      }
    } else {
      var r := DisagreementDoubles(t, scripts);
      LinearizableExact(t, scripts, r);
    }
  }
}
