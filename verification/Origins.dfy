/** Where every entry and every gap of a concurrent store comes from (internal/store/store.go). */
module Origins {
  import opened Policies
  import opened Tables
  import opened Protocol
  import opened Serial
  import opened RealTime

  /** The entry is what returned call `k` leaves, and no call that began after its return has returned
      on this id or cleared the entry. */
  ghost predicate LeftBy(s: State, h: History, c: Cell, id: string, k: int)
    requires |h.since| == |s.threads|
  {
    && 0 <= k < |h.calls|
    && IdOf(h.calls[k].op) == id
    && OpEntry(h.calls[k].op, c) == Entry(Contents(s), c, id)
    && (forall j :: 0 <= j < |h.calls| && IdOf(h.calls[j].op) == id ==> h.calls[j].began <= k)
    && (forall i :: ClearedBy(s, i, c, id) ==> h.since[i] <= k)
  }

  /** An entry is what some returned call leaves; or it is the initial one, as no call on its id has
      returned or cleared it; or a call in flight has cleared it. */
  ghost predicate EntryOrigin(s: State, h: History, t: Tables, c: Cell, id: string)
    requires |h.since| == |s.threads|
  {
    || (exists k :: LeftBy(s, h, c, id, k))
    || (Entry(Contents(s), c, id) == Entry(t, c, id) && !Named(h.calls, id) && !Cleared(s, c, id))
    || (Entry(Contents(s), c, id).None? && Cleared(s, c, id))
  }

  ghost predicate Missing(s: State, id: string) {
    id !in Contents(s).allow && id !in Contents(s).deny
  }

  /** Returned call `k` deleted the id, and no call that began after its return has returned on the id. */
  ghost predicate DeletedBy(h: History, id: string, k: int) {
    && 0 <= k < |h.calls|
    && h.calls[k].op == Delete(id)
    && forall j :: 0 <= j < |h.calls| && IdOf(h.calls[j].op) == id ==> h.calls[j].began <= k
  }

  ghost predicate HalfwayOn(s: State, i: int, id: string) {
    && 0 <= i < |s.threads|
    && Halfway(s.threads[i].pc)
    && IdOf(s.threads[i].pc.op) == id
  }

  /** An id that is in neither table although calls on it have returned was deleted, unless a call on it
      is halfway. */
  ghost predicate GapOrigin(s: State, h: History, id: string) {
    Missing(s, id) && Named(h.calls, id) ==>
      (exists k :: DeletedBy(h, id, k)) || (exists i :: HalfwayOn(s, i, id))
  }

  ghost predicate Accounted(s: State, h: History, t: Tables) {
    && Recorded(s, h)
    && (forall c, id :: EntryOrigin(s, h, t, c, id))
    && (forall id :: GapOrigin(s, h, id))
  }

  lemma KeepLeft(s: State, h: History, s': State, h': History, c: Cell, id: string, k: int)
    requires |h.since| == |s.threads| == |s'.threads| == |h'.since| && LeftBy(s, h, c, id, k)
    requires h'.calls == h.calls && Entry(Contents(s'), c, id) == Entry(Contents(s), c, id)
    requires forall i :: ClearedBy(s', i, c, id) ==> ClearedBy(s, i, c, id) && h'.since[i] == h.since[i]
    ensures LeftBy(s', h', c, id, k)
  {
  }

  // ---------------------------------------------------------------- steps between table steps

  lemma OtherEntryOrigin(s: State, h: History, t: nat, base: Tables, c: Cell, id: string)
    requires WellFormed(s) && Recorded(s, h) && !Commits(s, t) && !Skips(s, t)
    requires EntryOrigin(s, h, base, c, id)
    requires Recorded(Next(s, t), NextHistory(s, h, t))
    ensures EntryOrigin(Next(s, t), NextHistory(s, h, t), base, c, id)
  {
    var s', h' := Next(s, t), NextHistory(s, h, t);
    OtherStep(s, t);
    OtherCleared(s, t);
    if k :| LeftBy(s, h, c, id, k) {
      forall i | ClearedBy(s', i, c, id) ensures ClearedBy(s, i, c, id) && h'.since[i] == h.since[i] {
      }
      KeepLeft(s, h, s', h', c, id, k);
    }
  }

  lemma OtherGapOrigin(s: State, h: History, t: nat, id: string)
    requires WellFormed(s) && Recorded(s, h) && !Commits(s, t) && !Skips(s, t) && GapOrigin(s, h, id)
    ensures GapOrigin(Next(s, t), NextHistory(s, h, t), id)
  {
    var s' := Next(s, t);
    OtherStep(s, t);
    if k :| DeletedBy(h, id, k) {
      assert DeletedBy(NextHistory(s, h, t), id, k);
    } else if i :| HalfwayOn(s, i, id) {
      assert HalfwayOn(s', i, id);
    }
  }

  // ---------------------------------------------------------------- the first table step of a call

  lemma FirstKeepsLeft(s: State, h: History, t: nat, c: Cell, id: string, k: int)
    requires WellFormed(s) && Recorded(s, h) && (Commits(s, t) || Skips(s, t)) && s.threads[t].pc.phase.First?
    requires LeftBy(s, h, c, id, k)
    requires !(c == StepOf(s.threads[t].pc.op, First).cell && id == IdOf(s.threads[t].pc.op))
    requires Recorded(Next(s, t), NextHistory(s, h, t))
    ensures LeftBy(Next(s, t), NextHistory(s, h, t), c, id, k)
  {
    var s' := Next(s, t);
    FinishHalf(s, t);
    forall i | ClearedBy(s', i, c, id) ensures ClearedBy(s, i, c, id) {
    }
    KeepLeft(s, h, s', NextHistory(s, h, t), c, id, k);
  }

  lemma FirstEntryOrigin(s: State, h: History, t: nat, base: Tables, c: Cell, id: string)
    requires WellFormed(s) && Recorded(s, h) && (Commits(s, t) || Skips(s, t)) && s.threads[t].pc.phase.First?
    requires EntryOrigin(s, h, base, c, id)
    requires Recorded(Next(s, t), NextHistory(s, h, t))
    ensures EntryOrigin(Next(s, t), NextHistory(s, h, t), base, c, id)
  {
    FinishHalf(s, t);
    FirstCleared(s, t);
    if !(c == StepOf(s.threads[t].pc.op, First).cell && id == IdOf(s.threads[t].pc.op)) {
      if k :| LeftBy(s, h, c, id, k) {
        FirstKeepsLeft(s, h, t, c, id, k);
      }
    }
  }

  lemma FirstGapOrigin(s: State, h: History, t: nat, id: string)
    requires WellFormed(s) && Recorded(s, h) && (Commits(s, t) || Skips(s, t)) && s.threads[t].pc.phase.First?
    requires GapOrigin(s, h, id)
    ensures GapOrigin(Next(s, t), NextHistory(s, h, t), id)
  {
    var s' := Next(s, t);
    FinishHalf(s, t);
    if id == IdOf(s.threads[t].pc.op) {
      assert HalfwayOn(s', t, id);
    } else if i :| HalfwayOn(s, i, id) {
      assert HalfwayOn(s', i, id);
    }
  }

  // ---------------------------------------------------------------- the second, with which it returns

  lemma NamedAppend(calls: seq<Call>, call: Call, id: string)
    ensures Named(calls + [call], id) <==> Named(calls, id) || IdOf(call.op) == id
  {
    if k :| 0 <= k < |calls| && IdOf(calls[k].op) == id {
      assert (calls + [call])[k] == calls[k];
    }
    assert (calls + [call])[|calls|] == call;
  }

  /** A call that returns decides the table it ends in, and the other one if the entry there is gone. */
  lemma ReturnDecides(s: State, h: History, t: nat, c: Cell)
    requires WellFormed(s) && Recorded(s, h) && Returns(s, t)
    requires Recorded(Next(s, t), NextHistory(s, h, t))
    ensures var op := s.threads[t].pc.op;
      (c == StepOf(op, Second).cell || Entry(Contents(s), c, IdOf(op)).None?) ==>
        LeftBy(Next(s, t), NextHistory(s, h, t), c, IdOf(op), |h.calls|)
  {
    var op := s.threads[t].pc.op;
    FinishHalf(s, t);
    assert NextHistory(s, h, t).calls[|h.calls|].op == op;
  }

  /** The other table's entry still comes from a call that had not returned when this one began. */
  lemma ReturnKeepsLeft(s: State, h: History, t: nat, c: Cell, id: string, k: int)
    requires WellFormed(s) && Recorded(s, h) && Returns(s, t) && LeftBy(s, h, c, id, k)
    requires id == IdOf(s.threads[t].pc.op) ==> c == StepOf(s.threads[t].pc.op, First).cell
    requires Recorded(Next(s, t), NextHistory(s, h, t))
    ensures LeftBy(Next(s, t), NextHistory(s, h, t), c, id, k)
  {
    var s', h' := Next(s, t), NextHistory(s, h, t);
    FinishHalf(s, t);
    forall i | ClearedBy(s', i, c, id) ensures h'.since[i] <= k {
      assert ClearedBy(s, i, c, id);
    }
    if id == IdOf(s.threads[t].pc.op) {
      assert ClearedBy(s, t, c, id);
    }
  }

  lemma SecondEntryOrigin(s: State, h: History, t: nat, base: Tables, c: Cell, id: string)
    requires WellFormed(s) && Recorded(s, h) && Returns(s, t) && EntryOrigin(s, h, base, c, id)
    requires Recorded(Next(s, t), NextHistory(s, h, t))
    ensures EntryOrigin(Next(s, t), NextHistory(s, h, t), base, c, id)
  {
    var s', h' := Next(s, t), NextHistory(s, h, t);
    var op := s.threads[t].pc.op;
    FinishHalf(s, t);
    if id == IdOf(op) && (c == StepOf(op, Second).cell || Entry(Contents(s), c, id).None?) {
      ReturnDecides(s, h, t, c);
    } else if k :| LeftBy(s, h, c, id, k) {
      ReturnKeepsLeft(s, h, t, c, id, k);
    } else if id == IdOf(op) {
      assert ClearedBy(s, t, c, id);
    } else {
      ReturnKeepsOthers(s, h, t, c, id);
    }
  }

  lemma ReturnKeepsOthers(s: State, h: History, t: nat, c: Cell, id: string)
    requires WellFormed(s) && Recorded(s, h) && Returns(s, t) && id != IdOf(s.threads[t].pc.op)
    ensures Named(NextHistory(s, h, t).calls, id) <==> Named(h.calls, id)
    ensures Cleared(Next(s, t), c, id) <==> Cleared(s, c, id)
  {
    FinishHalf(s, t);
    NamedAppend(h.calls, Call(t, s.threads[t].pc.op, h.since[t], |h.calls|), id);
    if i :| ClearedBy(s, i, c, id) {
      assert ClearedBy(Next(s, t), i, c, id);
    }
    if i :| ClearedBy(Next(s, t), i, c, id) {
      assert ClearedBy(s, i, c, id);
    }
  }

  lemma ReturnFillsGap(s: State, h: History, t: nat)
    requires WellFormed(s) && Recorded(s, h) && Returns(s, t)
    requires Recorded(Next(s, t), NextHistory(s, h, t))
    ensures GapOrigin(Next(s, t), NextHistory(s, h, t), IdOf(s.threads[t].pc.op))
  {
    var op := s.threads[t].pc.op;
    FinishHalf(s, t);
    if op.Delete? {
      assert DeletedBy(NextHistory(s, h, t), op.id, |h.calls|);
    } else {
      assert Entry(Contents(Next(s, t)), StepOf(op, Second).cell, op.p.id) == Some(op.p);
    }
  }

  lemma ReturnKeepsGap(s: State, h: History, t: nat, id: string)
    requires WellFormed(s) && Recorded(s, h) && Returns(s, t) && id != IdOf(s.threads[t].pc.op)
    requires (exists k :: DeletedBy(h, id, k)) || (exists i :: HalfwayOn(s, i, id))
    ensures (exists k :: DeletedBy(NextHistory(s, h, t), id, k)) || (exists i :: HalfwayOn(Next(s, t), i, id))
  {
    FinishHalf(s, t);
    if k :| DeletedBy(h, id, k) {
      assert DeletedBy(NextHistory(s, h, t), id, k);
    } else {
      var i :| HalfwayOn(s, i, id);
      assert HalfwayOn(Next(s, t), i, id);
    }
  }

  lemma SecondGapOrigin(s: State, h: History, t: nat, id: string)
    requires WellFormed(s) && Recorded(s, h) && Returns(s, t) && GapOrigin(s, h, id)
    requires Recorded(Next(s, t), NextHistory(s, h, t))
    ensures GapOrigin(Next(s, t), NextHistory(s, h, t), id)
  {
    var s' := Next(s, t);
    if id == IdOf(s.threads[t].pc.op) {
      ReturnFillsGap(s, h, t);
    } else if Missing(s', id) && Named(NextHistory(s, h, t).calls, id) {
      FinishHalf(s, t);
      NamedAppend(h.calls, Call(t, s.threads[t].pc.op, h.since[t], |h.calls|), id);
      assert Entry(Contents(s'), AllowCell, id) == Entry(Contents(s), AllowCell, id);
      assert Entry(Contents(s'), DenyCell, id) == Entry(Contents(s), DenyCell, id);
      ReturnKeepsGap(s, h, t, id);
    }
  }

  // ---------------------------------------------------------------- every step, every run

  lemma NextEntryOrigin(s: State, h: History, t: nat, base: Tables, c: Cell, id: string)
    requires WellFormed(s) && Recorded(s, h) && EntryOrigin(s, h, base, c, id)
    requires Recorded(Next(s, t), NextHistory(s, h, t))
    ensures EntryOrigin(Next(s, t), NextHistory(s, h, t), base, c, id)
  {
    if !Commits(s, t) && !Skips(s, t) {
      OtherEntryOrigin(s, h, t, base, c, id);
    } else if s.threads[t].pc.phase.First? {
      FirstEntryOrigin(s, h, t, base, c, id);
    } else {
      SecondEntryOrigin(s, h, t, base, c, id);
    }
  }

  lemma NextGapOrigin(s: State, h: History, t: nat, id: string)
    requires WellFormed(s) && Recorded(s, h) && GapOrigin(s, h, id)
    requires Recorded(Next(s, t), NextHistory(s, h, t))
    ensures GapOrigin(Next(s, t), NextHistory(s, h, t), id)
  {
    if !Commits(s, t) && !Skips(s, t) {
      OtherGapOrigin(s, h, t, id);
    } else if s.threads[t].pc.phase.First? {
      FirstGapOrigin(s, h, t, id);
    } else {
      SecondGapOrigin(s, h, t, id);
    }
  }

  lemma NextAccounted(s: State, h: History, t: nat, base: Tables)
    requires WellFormed(s) && Accounted(s, h, base)
    ensures Accounted(Next(s, t), NextHistory(s, h, t), base)
  {
    NextRecorded(s, h, t);
    forall c, id ensures EntryOrigin(Next(s, t), NextHistory(s, h, t), base, c, id) {
      NextEntryOrigin(s, h, t, base, c, id);
    }
    forall id ensures GapOrigin(Next(s, t), NextHistory(s, h, t), id) {
      NextGapOrigin(s, h, t, id);
    }
  }

  lemma {:induction false} RunAccounted(s: State, h: History, schedule: seq<nat>, base: Tables)
    requires WellFormed(s) && Accounted(s, h, base)
    ensures Accounted(Run(s, schedule), RunHistory(s, h, schedule), base)
    decreases schedule
  {
    if schedule != [] {
      NextWellFormed(s, schedule[0]);
      NextAccounted(s, h, schedule[0], base);
      RunAccounted(Next(s, schedule[0]), NextHistory(s, h, schedule[0]), schedule[1..], base);
    }
  }

  /** Every entry and every gap is accounted for, in every state of every run. */
  lemma {:induction false} AlwaysAccounted(t: Tables, scripts: seq<seq<Task>>, schedule: seq<nat>)
    ensures Accounted(Run(Launch(t, scripts), schedule), Record(t, scripts, schedule), t)
  {
    var s, h := Launch(t, scripts), History([], seq(|scripts|, _ => 0));
    LaunchWellFormed(t, scripts);
    forall c, id ensures !Cleared(s, c, id) {
    }
    RunAccounted(s, h, schedule, t);
  }
}
