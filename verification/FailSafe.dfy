/** Every interleaving of writers is fail-safe, opposed upserts of one id included
    (internal/store/store.go). */
module FailSafe {
  import opened Policies
  import opened Engine
  import opened Tables
  import opened Protocol
  import opened Serial
  import opened RealTime
  import opened Origins

  // ---------------------------------------------------------------- the calls that count

  /** An ALLOW upsert past its eviction whose id is in neither table. */
  predicate Lifts(s: State, i: int) {
    && 0 <= i < |s.threads|
    && Halfway(s.threads[i].pc)
    && StepOf(s.threads[i].pc.op, First).cell == DenyCell
    && IdOf(s.threads[i].pc.op) !in Contents(s).allow
    && IdOf(s.threads[i].pc.op) !in Contents(s).deny
  }

  function LiftingAmong(s: State, n: nat): (ts: seq<nat>)
    requires n <= |s.threads|
    ensures forall k :: 0 <= k < |ts| ==> ts[k] < n && Lifts(s, ts[k])
    ensures forall j, k :: 0 <= j < k < |ts| ==> ts[j] < ts[k]
    ensures forall i :: 0 <= i < n && Lifts(s, i) ==> i in ts
  {
    if n == 0 then []
    else LiftingAmong(s, n - 1) + if Lifts(s, n - 1) then [n - 1] else []
  }

  /** A call in flight, as of now. */
  function Flight(s: State, h: History, i: nat): Call
    requires i < |s.threads| == |h.since| && InFlight(s.threads[i].pc).Some?
  {
    Call(i, InFlight(s.threads[i].pc).value, h.since[i], |h.calls|)
  }

  /** The calls that have returned, and those in flight in goroutines `ts`. */
  function CallsWith(s: State, h: History, ts: seq<nat>): (calls: seq<Call>)
    requires |h.since| == |s.threads|
    requires forall k :: 0 <= k < |ts| ==> ts[k] < |s.threads| && InFlight(s.threads[ts[k]].pc).Some?
    ensures |calls| == |h.calls| + |ts|
    ensures forall k :: 0 <= k < |h.calls| ==> calls[k] == h.calls[k]
    ensures forall k :: 0 <= k < |ts| ==> calls[|h.calls| + k] == Flight(s, h, ts[k])
  {
    h.calls + seq(|ts|, k requires 0 <= k < |ts| => Flight(s, h, ts[k]))
  }

  lemma {:induction false} LiftingPending(s: State)
    ensures Pending(s, LiftingAmong(s, |s.threads|))
  {
  }

  /** Those that have returned and those in flight that lift a deny. */
  function Landing(s: State, h: History): seq<Call>
    requires |h.since| == |s.threads|
  {
    LiftingPending(s);
    CallsWith(s, h, LiftingAmong(s, |s.threads|))
  }

  lemma DoneLands(s: State, h: History, k: nat)
    requires |h.since| == |s.threads| && k < |h.calls|
    ensures h.calls[k] in Landing(s, h)
  {
    assert Landing(s, h)[k] == h.calls[k];
  }

  lemma LiftLands(s: State, h: History, i: nat)
    requires |h.since| == |s.threads| && Lifts(s, i)
    ensures Flight(s, h, i) in Landing(s, h)
  {
    var ts := LiftingAmong(s, |s.threads|);
    var k :| 0 <= k < |ts| && ts[k] == i;
    assert Landing(s, h)[|h.calls| + k] == Flight(s, h, i);
  }

  lemma LiftIsNamed(s: State, h: History, i: nat)
    requires |h.since| == |s.threads| && Lifts(s, i)
    ensures Named(Landing(s, h), IdOf(s.threads[i].pc.op))
  {
    LiftLands(s, h, i);
    InIsNamed(Landing(s, h), Flight(s, h, i));
  }

  lemma LandingIs(s: State, h: History, c: Call)
    requires |h.since| == |s.threads| && c in Landing(s, h)
    ensures c in h.calls || exists i: nat :: Lifts(s, i) && c == Flight(s, h, i)
  {
    var k :| 0 <= k < |Landing(s, h)| && Landing(s, h)[k] == c;
    if k >= |h.calls| {
      var ts := LiftingAmong(s, |s.threads|);
      assert c == Flight(s, h, ts[k - |h.calls|]) && Lifts(s, ts[k - |h.calls|]);
    }
  }

  // ---------------------------------------------------------------- who has the last word

  /** Final on its id; with it last, the allow entry is what it is now, and a deny entry is one that is
      there now. */
  ghost predicate Decides(s: State, h: History, c: Call, id: string)
    requires |h.since| == |s.threads|
  {
    && Final(Landing(s, h), c)
    && IdOf(c.op) == id
    && (id in Contents(s).allow ==> OpEntry(c.op, AllowCell) == Entry(Contents(s), AllowCell, id))
    && (OpEntry(c.op, DenyCell).Some? ==> OpEntry(c.op, DenyCell) == Entry(Contents(s), DenyCell, id))
  }

  /** No landing call on the id began after the call that left the entry had returned. */
  lemma LeftPrecedesNone(s: State, h: History, c: Cell, id: string, k: nat, x: Call)
    requires Recorded(s, h) && LeftBy(s, h, c, id, k) && x in Landing(s, h) && IdOf(x.op) == id
    requires forall i :: Lifts(s, i) && IdOf(s.threads[i].pc.op) == id ==> ClearedBy(s, i, c, id)
    ensures x.began <= k
  {
    LandingIs(s, h, x);
    if i: nat :| Lifts(s, i) && x == Flight(s, h, i) {
      assert ClearedBy(s, i, c, id);
    } else {
      var j :| 0 <= j < |h.calls| && h.calls[j] == x;
    }
  }

  lemma LeftIsFinal(s: State, h: History, c: Cell, id: string, k: nat)
    requires Recorded(s, h) && LeftBy(s, h, c, id, k)
    requires forall i :: Lifts(s, i) && IdOf(s.threads[i].pc.op) == id ==> ClearedBy(s, i, c, id)
    ensures Final(Landing(s, h), h.calls[k])
  {
    DoneLands(s, h, k);
    forall x | x in Landing(s, h) && IdOf(x.op) == id ensures !Precedes(h.calls[k], x) {
      LeftPrecedesNone(s, h, c, id, k, x);
    }
  }

  lemma LiftIsFinal(s: State, h: History, i: nat)
    requires Recorded(s, h) && Lifts(s, i)
    ensures Final(Landing(s, h), Flight(s, h, i))
  {
    LiftLands(s, h, i);
    forall x | x in Landing(s, h) ensures x.began <= |h.calls| {
      LandingIs(s, h, x);
    }
  }

  lemma LandingNames(s: State, h: History, id: string)
    requires |h.since| == |s.threads| && Named(Landing(s, h), id)
    ensures Named(h.calls, id) || exists i :: Lifts(s, i) && IdOf(s.threads[i].pc.op) == id
  {
    var k :| 0 <= k < |Landing(s, h)| && IdOf(Landing(s, h)[k].op) == id;
    var ts := LiftingAmong(s, |s.threads|);
    if k < |h.calls| {
      assert IdOf(h.calls[k].op) == id;
    } else {
      assert Landing(s, h)[k] == Flight(s, h, ts[k - |h.calls|]) && Lifts(s, ts[k - |h.calls|]);
    }
  }

  /** Every id that a landing call names has a landing call that decides it. */
  lemma SomeDecides(s: State, h: History, t: Tables, id: string) returns (c: Call)
    requires Accounted(s, h, t) && Named(Landing(s, h), id)
    ensures Decides(s, h, c, id)
  {
    LandingNames(s, h, id);
    var cell := if id in Contents(s).allow then AllowCell else DenyCell;
    assert EntryOrigin(s, h, t, cell, id);
    forall i | Lifts(s, i) && IdOf(s.threads[i].pc.op) == id ensures ClearedBy(s, i, cell, id) {
      assert id !in Contents(s).allow;
    }
    if k :| LeftBy(s, h, cell, id, k) {
      LeftIsFinal(s, h, cell, id, k);
      c := h.calls[k];
    } else {
      var i :| ClearedBy(s, i, cell, id);
      assert Lifts(s, i);
      LiftIsFinal(s, h, i);
      c := Flight(s, h, i);
    }
  }

  /** Ids that no landing call names still have their initial entries, but for an allow entry that a call
      in flight has cleared. */
  lemma UnnamedStands(s: State, h: History, t: Tables, id: string)
    requires Accounted(s, h, t) && SingleEntry(t) && !Named(Landing(s, h), id)
    ensures id in Contents(s).allow ==> Entry(t, AllowCell, id) == Entry(Contents(s), AllowCell, id)
    ensures id in t.deny ==> Entry(t, DenyCell, id) == Entry(Contents(s), DenyCell, id)
  {
    assert EntryOrigin(s, h, t, AllowCell, id) && EntryOrigin(s, h, t, DenyCell, id);
    forall k | 0 <= k < |h.calls| ensures IdOf(h.calls[k].op) != id {
      assert Landing(s, h)[k] == h.calls[k];
    }
    forall i: nat | ClearedBy(s, i, DenyCell, id) ensures id in Contents(s).allow || id in Contents(s).deny {
      if Lifts(s, i) {
        LiftIsNamed(s, h, i);
      }
    }
  }

  // ---------------------------------------------------------------- a sequential order

  lemma SomeDeciders(s: State, h: History, t: Tables) returns (chosen: map<string, Call>)
    requires Accounted(s, h, t)
    ensures Deciders(Landing(s, h), chosen)
    ensures forall id :: id in chosen ==> Decides(s, h, chosen[id], id)
  {
    var calls := Landing(s, h);
    forall id | Named(calls, id) ensures exists c :: Decides(s, h, c, id) {
      var c := SomeDecides(s, h, t, id);
    }
    var ids := set k | 0 <= k < |calls| :: IdOf(calls[k].op);
    forall id ensures id in ids <==> Named(calls, id) {
    }
    chosen := map id | id in ids :: var c :| Decides(s, h, c, id); c;
  }

  /** That order has all allow entries there are now, and no deny entries but those there are now. */
  lemma OrderIsLooser(s: State, h: History, t: Tables, r: Tables, chosen: map<string, Call>)
    requires Accounted(s, h, t) && SingleEntry(t) && Deciders(Landing(s, h), chosen)
    requires forall id :: id in chosen ==> Decides(s, h, chosen[id], id)
    requires forall c, id ::
      Entry(r, c, id) == if id in chosen then OpEntry(chosen[id].op, c) else Entry(t, c, id)
    ensures SubMap(Contents(s).allow, r.allow) && SubMap(r.deny, Contents(s).deny)
  {
    forall id | id in Contents(s).allow ensures id in r.allow && r.allow[id] == Contents(s).allow[id] {
      if id !in chosen {
        UnnamedStands(s, h, t, id);
      }
      assert Entry(r, AllowCell, id) == Entry(Contents(s), AllowCell, id);
    }
    forall id | id in r.deny ensures id in Contents(s).deny && Contents(s).deny[id] == r.deny[id] {
      assert Entry(r, DenyCell, id) == Some(r.deny[id]);
      if id !in chosen {
        UnnamedStands(s, h, t, id);
      }
      assert Entry(Contents(s), DenyCell, id) == Some(r.deny[id]);
    }
  }

  // ---------------------------------------------------------------- the result

  /** `order` runs the returned calls and those in flight in goroutines `ts` one at a time, none before a
      call that had returned when it began. */
  ghost predicate SerialOrder(s: State, h: History, ts: seq<nat>, order: seq<Call>) {
    |h.since| == |s.threads| && Pending(s, ts) && RealTimeOrder(CallsWith(s, h, ts), order)
  }

  ghost predicate AllowedInOrder(s: State, h: History, t: Tables, matches: Policy -> bool) {
    exists ts, order :: SerialOrder(s, h, ts, order) && Allows(matches, InOrder(t, order))
  }

  lemma SomeOrderAllows(s: State, h: History, t: Tables, matches: Policy -> bool)
    requires Accounted(s, h, t) && SingleEntry(t) && Allows(matches, Contents(s))
    ensures AllowedInOrder(s, h, t, matches)
  {
    var chosen := SomeDeciders(s, h, t);
    forall c | c in Landing(s, h) ensures c.began <= c.returned {
      LandingIs(s, h, c);
    }
    var order := Serialise(t, Landing(s, h), chosen);
    OrderIsLooser(s, h, t, InOrder(t, order), chosen);
    AllowMonotone(matches, Contents(s), InOrder(t, order));
    LiftingPending(s);
    assert SerialOrder(s, h, LiftingAmong(s, |s.threads|), order);
  }

  /** Every interleaving is fail-safe: whatever the writers, what a state allows is also allowed when the
      calls that have returned and some of the calls in flight, each applied wholly and exactly once, run
      one at a time in an order that respects real time, and with it every goroutine's program. */
  lemma {:induction false} EveryInterleavingFailSafe(t: Tables, scripts: seq<seq<Task>>, schedule: seq<nat>,
      matches: Policy -> bool)
    requires SingleEntry(t)
    requires Allows(matches, Contents(Run(Launch(t, scripts), schedule)))
    ensures AllowedInOrder(Run(Launch(t, scripts), schedule), Record(t, scripts, schedule), t, matches)
  {
    AlwaysAccounted(t, scripts, schedule);
    SomeOrderAllows(Run(Launch(t, scripts), schedule), Record(t, scripts, schedule), t, matches);
  }
}
