/** What consuming the stream amounts to (internal/subscriber/redis.go with internal/store and
    internal/engine). */
module StreamMeaning {
  import opened Policies
  import opened Operators
  import opened Engine
  import opened Tables
  import opened Protocol
  import opened NoLostUpdates
  import opened OneEntry
  import opened Serial
  import opened Completion
  import opened Snapshots
  import opened Subscriber

  // ---------------------------------------------------------------- folds

  lemma {:induction false} ConsumeIsPerform(lib: Library, t: Tables, log: seq<Message>)
    ensures ConsumeAll(lib, t, log) == PerformAll(t, Effective(lib, log))
  {
    if log != [] {
      var init, last := log[..|log| - 1], log[|log| - 1];
      ConsumeIsPerform(lib, t, init);
      match EventOf(lib, last.values)
      case None =>
        assert Effective(lib, log) == Effective(lib, init);
      case Some(op) =>
        assert Effective(lib, log)[..|Effective(lib, init)|] == Effective(lib, init);
    }
  }

  lemma {:induction false} EffectiveConcat(lib: Library, a: seq<Message>, b: seq<Message>)
    ensures Effective(lib, a + b) == Effective(lib, a) + Effective(lib, b)
  {
    if b == [] {
      assert a + b == a;
    } else {
      assert (a + b)[..|a + b| - 1] == a + b[..|b| - 1];
      EffectiveConcat(lib, a, b[..|b| - 1]);
    }
  }

  lemma {:induction false} ConsumeConcat(lib: Library, t: Tables, a: seq<Message>, b: seq<Message>)
    ensures ConsumeAll(lib, t, a + b) == ConsumeAll(lib, ConsumeAll(lib, t, a), b)
  {
    ConsumeIsPerform(lib, t, a + b);
    ConsumeIsPerform(lib, t, a);
    ConsumeIsPerform(lib, ConsumeAll(lib, t, a), b);
    EffectiveConcat(lib, a, b);
    PerformAllConcat(t, Effective(lib, a), Effective(lib, b));
  }

  /** A cold start leaves one last-writer-wins map split by access mode. */
  lemma {:induction false} StreamIsOneMap(lib: Library, log: seq<Message>)
    ensures ConsumeAll(lib, EMPTY, log) == Partition(AssignAll(map[], Effective(lib, log)))
  {
    ConsumeIsPerform(lib, EMPTY, log);
    assert Partition(map[]) == EMPTY;
    TwoTablesRefineOneMap(map[], Effective(lib, log));
  }

  /** Re-applying any stretch that ends where the consumer stands changes nothing, whatever the store
      held at first. With `i` = 0 this is a restart that has caught up. */
  lemma {:induction false} ReplayConverges(lib: Library, t: Tables, log: seq<Message>, i: nat, k: nat)
    requires i <= k <= |log|
    ensures ConsumeAll(lib, ConsumeAll(lib, t, log[..k]), log[i..k]) == ConsumeAll(lib, t, log[..k])
  {
    var u := ConsumeAll(lib, t, log[..i]);
    var b := log[i..k];
    assert log[..k] == log[..i] + b;
    ConsumeConcat(lib, t, log[..i], b);
    Repeat(lib, u, b, b);
  }

  /** A restart over a store that has consumed `j` entries, once it has caught up on a log that has grown
      since, is a cold start. */
  lemma {:induction false} RestartCatchesUp(lib: Library, t: Tables, log: seq<Message>, j: nat, k: nat)
    requires j <= k <= |log|
    ensures ConsumeAll(lib, ConsumeAll(lib, t, log[..j]), log[..k]) == ConsumeAll(lib, t, log[..k])
  {
    assert forall m :: m in log[..j] ==> m in log[..k] by {
      assert log[..k] == log[..j] + log[j..k];
    }
    Repeat(lib, t, log[..j], log[..k]);
  }

  /** The subscriber is started, stopped and started again on the same store: once the second run has got
      as far as the first, the store is the fold of what the second run has consumed. */
  method StartTwice(subscriber: PolicyUpdateSubscriber, turns: seq<Turn>, moreTurns: seq<Turn>)
      returns (first: nat, second: nat)
    requires subscriber.store.Valid() && subscriber.stream.Valid()
    modifies subscriber.store, subscriber.stream
    ensures subscriber.store.Valid() && subscriber.stream.Valid()
    ensures old(subscriber.stream.entries) <= subscriber.stream.entries
    ensures first <= |subscriber.stream.entries| && second <= |subscriber.stream.entries|
    ensures second >= first ==>
      subscriber.store.Contents()
        == ConsumeAll(subscriber.lib, old(subscriber.store.Contents()), subscriber.stream.entries[..second])
  {
    ghost var t := subscriber.store.Contents();
    var lastId;
    lastId, first := subscriber.Start(turns);
    ghost var firstLog := subscriber.stream.entries;
    lastId, second := subscriber.Start(moreTurns);
    assert subscriber.stream.entries[..first] == firstLog[..first];
    if second >= first {
      RestartCatchesUp(subscriber.lib, t, subscriber.stream.entries, first, second);
    }
  }

  /** Entries whose ids are all named again later leave no trace. */
  lemma {:induction false} Repeat(lib: Library, t: Tables, pre: seq<Message>, post: seq<Message>)
    requires forall m :: m in pre ==> m in post
    ensures ConsumeAll(lib, ConsumeAll(lib, t, pre), post) == ConsumeAll(lib, t, post)
  {
    ConsumeIsPerform(lib, t, pre);
    ConsumeIsPerform(lib, t, post);
    ConsumeIsPerform(lib, ConsumeAll(lib, t, pre), post);
    var before, after := Effective(lib, pre), Effective(lib, post);
    forall k | 0 <= k < |before| ensures Names(after, IdOf(before[k])) {
      var m := EffectiveFrom(lib, pre, k);
      InEffective(lib, post, m);
    }
    Overwritten(t, before, after);
  }

  lemma {:induction false} EffectiveFrom(lib: Library, log: seq<Message>, k: nat) returns (m: Message)
    requires k < |Effective(lib, log)|
    ensures m in log && EventOf(lib, m.values) == Some(Effective(lib, log)[k])
  {
    var init, last := log[..|log| - 1], log[|log| - 1];
    if k < |Effective(lib, init)| {
      m := EffectiveFrom(lib, init, k);
    } else {
      m := last;
    }
  }

  lemma {:induction false} InEffective(lib: Library, log: seq<Message>, m: Message)
    requires m in log && EventOf(lib, m.values).Some?
    ensures Names(Effective(lib, log), IdOf(EventOf(lib, m.values).value))
  {
    var init, last := log[..|log| - 1], log[|log| - 1];
    assert log == init + [last];
    var ops := Effective(lib, log);
    if last == m {
      assert ops[|ops| - 1] == EventOf(lib, m.values).value;
    } else {
      InEffective(lib, init, m);
      var k :| 0 <= k < |Effective(lib, init)| && IdOf(Effective(lib, init)[k]) == IdOf(EventOf(lib, m.values).value);
      assert ops[k] == Effective(lib, init)[k];
    }
  }

  // ---------------------------------------------------------------- end to end

  /** Entry `k` is accepted and no later accepted entry names its id. */
  ghost predicate LastEffective(lib: Library, log: seq<Message>, k: int) {
    && 0 <= k < |log|
    && EventOf(lib, log[k].values).Some?
    && forall j :: k < j < |log| && EventOf(lib, log[j].values).Some? ==>
         IdOf(EventOf(lib, log[j].values).value) != IdOf(EventOf(lib, log[k].values).value)
  }

  /** Entry `k` has the last word on its id, and that word is a matching policy of this access mode. */
  ghost predicate Stands(lib: Library, matches: Policy -> bool, log: seq<Message>, k: int, access: string) {
    && LastEffective(lib, log, k)
    && EventOf(lib, log[k].values).value.Upsert?
    && matches(EventOf(lib, log[k].values).value.p)
    && EventOf(lib, log[k].values).value.p.access == access
  }

  /** The newest entry is accepted and names `id`. */
  ghost predicate NewestNames(lib: Library, log: seq<Message>, id: string) {
    && log != []
    && var event := EventOf(lib, log[|log| - 1].values);
    && event.Some? && IdOf(event.value) == id
  }

  lemma {:induction false} NewestEntry(lib: Library, log: seq<Message>, c: Cell, id: string)
    requires log != []
    ensures Entry(ConsumeAll(lib, EMPTY, log), c, id) ==
      if NewestNames(lib, log, id) then OpEntry(EventOf(lib, log[|log| - 1].values).value, c)
      else Entry(ConsumeAll(lib, EMPTY, log[..|log| - 1]), c, id)
  {
    var init, event := log[..|log| - 1], EventOf(lib, log[|log| - 1].values);
    if event.Some? {
      PerformEntry(ConsumeAll(lib, EMPTY, init), event.value, c, id);
    }
  }

  lemma {:induction false} StandingEntry(lib: Library, log: seq<Message>, k: int, c: Cell)
    requires LastEffective(lib, log, k)
    ensures var op := EventOf(lib, log[k].values).value;
      Entry(ConsumeAll(lib, EMPTY, log), c, IdOf(op)) == OpEntry(op, c)
  {
    NewestEntry(lib, log, c, IdOf(EventOf(lib, log[k].values).value));
    if k < |log| - 1 {
      StandingEntry(lib, log[..|log| - 1], k, c);
    }
  }

  lemma {:induction false} EntryStands(lib: Library, log: seq<Message>, c: Cell, id: string) returns (k: nat)
    requires Entry(ConsumeAll(lib, EMPTY, log), c, id).Some?
    ensures LastEffective(lib, log, k) && IdOf(EventOf(lib, log[k].values).value) == id
  {
    NewestEntry(lib, log, c, id);
    if NewestNames(lib, log, id) {
      k := |log| - 1;
    } else {
      k := EntryStands(lib, log[..|log| - 1], c, id);
      StillLast(lib, log, k);
    }
  }

  lemma StillLast(lib: Library, log: seq<Message>, k: int)
    requires log != [] && LastEffective(lib, log[..|log| - 1], k)
    requires !NewestNames(lib, log, IdOf(EventOf(lib, log[k].values).value))
    ensures LastEffective(lib, log, k)
  {
    var init := log[..|log| - 1];
    forall j | k < j < |log| - 1 ensures log[j] == init[j] {
    }
  }

  lemma AcceptedAccess(lib: Library, values: Fields)
    requires EventOf(lib, values).Some? && EventOf(lib, values).value.Upsert?
    ensures EventOf(lib, values).value.p.access == ACCESS_ALLOW || EventOf(lib, values).value.p.access == ACCESS_DENY
  {
  }

  function AccessOf(c: Cell): string {
    if c.AllowCell? then ACCESS_ALLOW else ACCESS_DENY
  }

  /** A table has a matching policy exactly when a matching upsert for it has the last word on its id. */
  lemma {:induction false} TableMatch(lib: Library, matches: Policy -> bool, log: seq<Message>, c: Cell)
    ensures AnyMatch(matches, At(ConsumeAll(lib, EMPTY, log), c))
      <==> exists k :: Stands(lib, matches, log, k, AccessOf(c))
  {
    var table := At(ConsumeAll(lib, EMPTY, log), c);
    if id :| id in table && matches(table[id]) {
      var k := EntryStands(lib, log, c, id);
      StandingEntry(lib, log, k, c);
      AcceptedAccess(lib, log[k].values);
      assert Stands(lib, matches, log, k, AccessOf(c));
    }
    if k :| Stands(lib, matches, log, k, AccessOf(c)) {
      var p := EventOf(lib, log[k].values).value.p;
      StandingEntry(lib, log, k, c);
      assert Entry(ConsumeAll(lib, EMPTY, log), c, p.id) == Some(p);
      assert p.id in table && matches(table[p.id]);
    }
  }

  /** Some id's last accepted entry is a matching ALLOW policy and no id's last accepted entry is a
      matching DENY policy. */
  ghost predicate Granted(lib: Library, matches: Policy -> bool, log: seq<Message>) {
    && (exists k :: Stands(lib, matches, log, k, ACCESS_ALLOW))
    && !(exists k :: Stands(lib, matches, log, k, ACCESS_DENY))
  }

  lemma {:induction false} LogMeaning(lib: Library, matches: Policy -> bool, log: seq<Message>)
    ensures Allows(matches, ConsumeAll(lib, EMPTY, log)) <==> Granted(lib, matches, log)
  {
    TableMatch(lib, matches, log, AllowCell);
    TableMatch(lib, matches, log, DenyCell);
    assert At(ConsumeAll(lib, EMPTY, log), AllowCell) == ConsumeAll(lib, EMPTY, log).allow;
    assert At(ConsumeAll(lib, EMPTY, log), DenyCell) == ConsumeAll(lib, EMPTY, log).deny;
    assert AccessOf(AllowCell) == ACCESS_ALLOW && AccessOf(DenyCell) == ACCESS_DENY;
  }

  /** What the log of updates means for a request: it is allowed exactly when some id's last accepted
      entry is a matching ALLOW policy and no id's last accepted entry is a matching DENY policy. */
  lemma {:induction false} EndToEnd(lib: Library, req: Request, log: seq<Message>, snapshot: PolicySnapshot)
    requires SnapshotOf(ConsumeAll(lib, EMPTY, log), snapshot)
    ensures Evaluate(Matcher(lib, req), snapshot).allowed <==> Granted(lib, Matcher(lib, req), log)
  {
    OrderIndependent(Matcher(lib, req), ConsumeAll(lib, EMPTY, log), snapshot);
    LogMeaning(lib, Matcher(lib, req), log);
  }

  /** An upsert is filed under the id inside its document, a delete names its id in the entry's
      `policy_id` field: a delete undoes an upsert exactly when the two agree. */
  lemma DeleteUndoesUpsert(lib: Library, t: Tables, upsert: Fields, delete: Fields)
    requires EventOf(lib, upsert).Some? && EventOf(lib, upsert).value.Upsert?
    requires GetString(delete, "action") == Some(ACTION_DELETE) && GetString(delete, "policy_id").Some?
    ensures var id := EventOf(lib, upsert).value.p.id;
      var after := Consume(lib, Consume(lib, t, upsert), delete);
      (id !in after.allow && id !in after.deny) <==> GetString(delete, "policy_id") == Some(id)
  {
    var op := EventOf(lib, upsert).value;
    var d := GetString(delete, "policy_id").value;
    assert ACTION_DELETE != ACTION_UPSERT by { assert ACTION_DELETE[0] != ACTION_UPSERT[0]; }
    assert EventOf(lib, delete) == Some(Delete(d));
    var after := Consume(lib, Consume(lib, t, upsert), delete);
    forall c ensures Entry(after, c, op.p.id) == if d == op.p.id then None else OpEntry(op, c) {
      PerformEntry(t, op, c, op.p.id);
      PerformEntry(Perform(t, op), Delete(d), c, op.p.id);
    }
    assert OpEntry(op, Route(op.p)) == Some(op.p);
    assert Entry(after, AllowCell, op.p.id).None? <==> op.p.id !in after.allow;
    assert Entry(after, DenyCell, op.p.id).None? <==> op.p.id !in after.deny;
  }

  // ---------------------------------------------------------------- the subscriber among readers

  ghost predicate OnlyRead(readers: seq<seq<Task>>) {
    forall i, k :: 0 <= i < |readers| && 0 <= k < |readers[i]| ==> readers[i][k].Snapshot?
  }

  /** The subscriber applying the log, next to any number of readers. */
  function Goroutines(lib: Library, log: seq<Message>, readers: seq<seq<Task>>): seq<seq<Task>> {
    var ops := Effective(lib, log);
    [seq(|ops|, i requires 0 <= i < |ops| => Write(ops[i]))] + readers
  }

  /** The subscriber applies the log through the lock-free store while any number of goroutines read.
      Once it has caught up, under every schedule, the tables are the fold of the log; and at no instant
      before do they allow what neither the operations returned from nor these and the next one allow. */
  lemma {:induction false} ReplayUnderReaders(lib: Library, log: seq<Message>, readers: seq<seq<Task>>, schedule: seq<nat>,
      matches: Policy -> bool)
    requires OnlyRead(readers)
    ensures var ops := Effective(lib, log);
      var e := Run(Launch(EMPTY, Goroutines(lib, log, readers)), schedule);
      && |e.threads| == 1 + |readers|
      && (Finished(e.threads[0]) ==> Contents(e) == ConsumeAll(lib, EMPTY, log))
      && (Allows(matches, Contents(e)) ==>
            exists n :: |e.done| <= n <= |e.done| + 1 && n <= |ops| && Allows(matches, PerformAll(EMPTY, ops[..n])))
  {
    var ops := Effective(lib, log);
    SoleWriterRefines(EMPTY, ops, readers, schedule);
    ConsumeIsPerform(lib, EMPTY, log);
    var scripts := Goroutines(lib, log, readers);
    var s := Launch(EMPTY, scripts);
    var e := Run(s, schedule);
    if Allows(matches, Contents(e)) {
      SoleWriterLaunch(EMPTY, ops, readers);
      RunSoleWriter(s, schedule, ops);
      HalfDoneFailSafe(EMPTY, scripts, schedule, matches);
      var ts :| Pending(e, ts) && Allows(matches, PerformAll(EMPTY, e.done + OpsOf(e, ts)));
      PendingPrefix(e, ops, ts);
      assert Allows(matches, PerformAll(EMPTY, ops[..|e.done + OpsOf(e, ts)|]));
    }
  }

  /** With one writer, the calls returned and those in flight are a prefix of its list. */
  lemma PendingPrefix(e: State, ops: seq<StoreOp>, ts: seq<nat>)
    requires SoleWriter(e, ops) && Pending(e, ts)
    ensures |ts| <= 1
    ensures |e.done + OpsOf(e, ts)| <= |ops| && e.done + OpsOf(e, ts) == ops[..|e.done + OpsOf(e, ts)|]
  {
    assert |ts| > 1 ==> ts[0] < ts[1];
    forall i | 0 < i < |e.threads| ensures InFlight(e.threads[i].pc).None? {
      assert Upcoming(e.threads[i]) == [];
    }
    assert forall k :: 0 <= k < |ts| ==> ts[k] == 0;
    if |ts| > 0 {
      assert ts[0] == 0 && InFlight(e.threads[0].pc).Some?;
      assert OpsOf(e, ts)[0] == Upcoming(e.threads[0])[0];
    }
  }

  /** Some prefix of the log grants, one with at least `least` and at most `most` accepted entries. */
  ghost predicate GrantedBetween(lib: Library, matches: Policy -> bool, log: seq<Message>, least: nat, most: nat) {
    exists j :: 0 <= j <= |log| && least <= |Effective(lib, log[..j])| <= most && Granted(lib, matches, log[..j])
  }

  /** The operations of a log, cut off anywhere, are those of a prefix of the log. */
  lemma {:induction false} EffectivePrefix(lib: Library, log: seq<Message>, n: nat) returns (j: nat)
    requires n <= |Effective(lib, log)|
    ensures j <= |log| && Effective(lib, log[..j]) == Effective(lib, log)[..n]
  {
    if n == |Effective(lib, log)| {
      j := |log|;
      assert log[..j] == log;
    } else {
      var init := log[..|log| - 1];
      j := EffectivePrefix(lib, init, n);
      assert init[..j] == log[..j];
    }
  }

  /** Whatever a state of such a run allows is granted by the log up to the operations returned from, or
      up to the next one. */
  lemma {:induction false} StateGranted(lib: Library, log: seq<Message>, readers: seq<seq<Task>>, schedule: seq<nat>,
      matches: Policy -> bool)
    requires OnlyRead(readers)
    requires Allows(matches, Contents(Run(Launch(EMPTY, Goroutines(lib, log, readers)), schedule)))
    ensures var e := Run(Launch(EMPTY, Goroutines(lib, log, readers)), schedule);
      GrantedBetween(lib, matches, log, |e.done|, |e.done| + 1)
  {
    ReplayUnderReaders(lib, log, readers, schedule, matches);
    var ops := Effective(lib, log);
    var e := Run(Launch(EMPTY, Goroutines(lib, log, readers)), schedule);
    var n :| |e.done| <= n <= |e.done| + 1 && n <= |ops| && Allows(matches, PerformAll(EMPTY, ops[..n]));
    var j := EffectivePrefix(lib, log, n);
    ConsumeIsPerform(lib, EMPTY, log[..j]);
    LogMeaning(lib, matches, log[..j]);
  }

  lemma {:induction false} DoneGrows(s: State, schedule: seq<nat>)
    ensures s.done <= Run(s, schedule).done
    decreases schedule
  {
    if schedule != [] {
      NextUpcoming(s, schedule[0]);
      DoneGrows(Next(s, schedule[0]), schedule[1..]);
    }
  }

  lemma OneWriterAgrees(lib: Library, log: seq<Message>, readers: seq<seq<Task>>)
    requires OnlyRead(readers)
    ensures ScriptsAgree(Goroutines(lib, log, readers))
  {
    var scripts := Goroutines(lib, log, readers);
    forall i, p | 0 < i < |scripts| ensures Write(p) !in scripts[i] {
      assert scripts[i] == readers[i - 1];
    }
  }

  /** Goroutine `r` is about to load the first table; the others run through `between` before it loads the
      second. */
  ghost predicate Reads(s: State, r: nat, between: seq<nat>) {
    r < |s.threads| && s.threads[r].pc.Reading? && r !in between
  }

  /** Between the reader's loads every commit is about one id, or the allow policies seen apply under safe
      conditions. */
  ghost predicate Harmless(s: State, r: nat, between: seq<nat>) {
    var e := Run(Next(s, r), between);
    || (s.log <= e.log && exists id :: OnlyOn(Since(s, e), id))
    || AllSafe(Instants(Next(s, r), between))
  }

  /** The mixed snapshot allows a request only if the store did at some instant from its first load to its
      second. */
  lemma {:induction false} SeenWasTrue(t: Tables, scripts: seq<seq<Task>>, before: seq<nat>, r: nat,
      between: seq<nat>, lib: Library, req: Request) returns (schedule: seq<nat>)
    requires SingleEntry(Contents(Run(Launch(t, scripts), before)))
    requires Reads(Run(Launch(t, scripts), before), r, between)
    requires Harmless(Run(Launch(t, scripts), before), r, between)
    ensures var s := Run(Launch(t, scripts), before);
      var f := Next(Run(Next(s, r), between), r);
      && |f.threads| == |s.threads|
      && |f.threads[r].observed| > 0
      && (Allows(Matcher(lib, req), f.threads[r].observed[|f.threads[r].observed| - 1]) ==>
            && Allows(Matcher(lib, req), Contents(Run(Launch(t, scripts), schedule)))
            && |s.done| <= |Run(Launch(t, scripts), schedule).done| <= |f.done|)
  {
    var matches := Matcher(lib, req);
    var s := Run(Launch(t, scripts), before);
    var n := Next(s, r);
    var e := Run(n, between);
    LaunchWellFormed(t, scripts);
    RunWellFormed(Launch(t, scripts), before);
    ReaderObserves(s, r, between);
    NextContents(s, r);
    var seen := Torn(s, e);
    schedule := before;
    NextUpcoming(s, r);
    NextUpcoming(e, r);
    DoneGrows(n, between);
    if Allows(matches, seen) && !Allows(matches, Contents(s)) {
      var k := AllowedBetween(s, r, between, lib, req);
      schedule := before + ([r] + between[..k]);
      RunConcat(Launch(t, scripts), before, [r] + between[..k]);
      RunFrom(s, r, between[..k]);
      DoneBetween(n, between, k);
    }
  }

  lemma {:induction false} DoneBetween(s: State, schedule: seq<nat>, k: nat)
    requires k <= |schedule|
    ensures s.done <= Run(s, schedule[..k]).done <= Run(s, schedule).done
  {
    DoneGrows(s, schedule[..k]);
    DoneGrows(Run(s, schedule[..k]), schedule[k..]);
    RunConcat(s, schedule[..k], schedule[k..]);
    assert schedule == schedule[..k] + schedule[k..];
  }

  lemma {:induction false} AllowedBetween(s: State, r: nat, between: seq<nat>, lib: Library, req: Request)
      returns (k: nat)
    requires WellFormed(s) && SingleEntry(Contents(s)) && Reads(s, r, between) && Harmless(s, r, between)
    requires Allows(Matcher(lib, req), Torn(s, Run(Next(s, r), between))) && !Allows(Matcher(lib, req), Contents(s))
    ensures k <= |between| && Allows(Matcher(lib, req), Contents(Run(Next(s, r), between[..k])))
  {
    var e := Run(Next(s, r), between);
    if id :| s.log <= e.log && OnlyOn(Since(s, e), id) {
      k := |between|;
      assert between[..k] == between;
      ReaderObserves(s, r, between);
      TornReadJustified(s, r, between, id, Matcher(lib, req));
    } else {
      k := SafeBetween(s, r, between, lib, req);
    }
  }

  lemma {:induction false} SafeBetween(s: State, r: nat, between: seq<nat>, lib: Library, req: Request)
      returns (k: nat)
    requires WellFormed(s) && Reads(s, r, between) && AllSafe(Instants(Next(s, r), between))
    requires Allows(Matcher(lib, req), Torn(s, Run(Next(s, r), between)))
    ensures k <= |between| && Allows(Matcher(lib, req), Contents(Run(Next(s, r), between[..k])))
  {
    var n := Next(s, r);
    var st := Instants(n, between);
    NextContents(s, r);
    InstantsAre(n, between, |between|);
    assert between[..|between|] == between;
    SafeMatcher(st, lib, req);
    k :| 0 <= k < |st| && Allows(Matcher(lib, req), st[k]);
    InstantsAre(n, between, k);
  }

  /** The whole stack at once: a subscriber applies the log through the lock-free store while others read
      under any schedule. What the engine allows on a snapshot a reader took, between whose loads the
      changes were harmless, is granted by a prefix of the log: one that reaches at least as far as the calls
      returned at the first load, and at most one accepted entry beyond those returned at the second. */
  lemma {:induction false} ReaderGranted(lib: Library, log: seq<Message>, readers: seq<seq<Task>>, before: seq<nat>, r: nat,
      between: seq<nat>, req: Request, snapshot: PolicySnapshot)
    requires OnlyRead(readers)
    requires Reads(Run(Launch(EMPTY, Goroutines(lib, log, readers)), before), r, between)
    requires Harmless(Run(Launch(EMPTY, Goroutines(lib, log, readers)), before), r, between)
    ensures var s := Run(Launch(EMPTY, Goroutines(lib, log, readers)), before);
      var f := Next(Run(Next(s, r), between), r);
      && |f.threads| == |s.threads|
      && |f.threads[r].observed| > 0
      && (SnapshotOf(f.threads[r].observed[|f.threads[r].observed| - 1], snapshot)
          && Evaluate(Matcher(lib, req), snapshot).allowed ==>
            GrantedBetween(lib, Matcher(lib, req), log, |s.done|, |f.done| + 1))
  {
    var matches := Matcher(lib, req);
    var scripts := Goroutines(lib, log, readers);
    var s := Run(Launch(EMPTY, scripts), before);
    OneWriterAgrees(lib, log, readers);
    SingleEntryExact(EMPTY, scripts);
    var schedule := SeenWasTrue(EMPTY, scripts, before, r, between, lib, req);
    var f := Next(Run(Next(s, r), between), r);
    var seen := f.threads[r].observed[|f.threads[r].observed| - 1];
    if SnapshotOf(seen, snapshot) && Evaluate(matches, snapshot).allowed {
      OrderIndependent(matches, seen, snapshot);
      StateGranted(lib, log, readers, schedule, matches);
    }
  }

  // ---------------------------------------------------------------- pre-compiled patterns

  /** The pattern compiled now, as if nothing had been stored. */
  function CompiledNow(lib: Library, c: Condition): Option<Regexp> {
    if |c.value| > 0 && lib.regexOk(c.value[0]) then Some(Regexp(c.value[0])) else None
  }

  predicate MatchesOnDemand(lib: Library, p: Policy, req: Request) {
    && p.target.resourceType == req.resourceType
    && p.target.action == req.action
    && forall c :: c in p.conditions ==> Satisfied(lib, c.(compiledRegex := CompiledNow(lib, c)), req)
  }

  /** What the subscriber lets into the store. */
  ghost predicate Accepted(lib: Library, id: string, p: Policy, c: Cell) {
    && p.id == id
    && p.access == AccessOf(c)
    && forall d :: d in p.conditions ==>
         d.compiledRegex == if d.operator == "REGEX" then CompiledNow(lib, d) else None
  }

  lemma UpsertAccepted(lib: Library, values: Fields)
    requires EventOf(lib, values).Some? && EventOf(lib, values).value.Upsert?
    ensures var p := EventOf(lib, values).value.p;
      Accepted(lib, p.id, p, Route(p))
  {
    var p := EventOf(lib, values).value.p;
    AcceptedAccess(lib, values);
    var text := GetString(values, "policy_json").value;
    var q := Decode(lib, text).value;
    assert p.conditions == PreparedAll(q.conditions);
    forall d | d in p.conditions
      ensures d.compiledRegex == if d.operator == "REGEX" then CompiledNow(lib, d) else None
    {
      var i :| 0 <= i < |p.conditions| && p.conditions[i] == d;
      assert d == Prepared(q.conditions[i]) && q.conditions[i] in q.conditions;
      assert q.conditions[i].compiledRegex == None;
      assert Compilable(lib, q.conditions[i]);
    }
  }

  /** Every policy in a store fed by the stream is filed under its own id, in the table of its exact
      access mode, with every pattern compiled. */
  lemma {:induction false} StoredAreAccepted(lib: Library, log: seq<Message>, c: Cell, id: string)
    requires id in At(ConsumeAll(lib, EMPTY, log), c)
    ensures Accepted(lib, id, At(ConsumeAll(lib, EMPTY, log), c)[id], c)
  {
    var k := EntryStands(lib, log, c, id);
    StandingEntry(lib, log, k, c);
    UpsertAccepted(lib, log[k].values);
  }

  lemma AcceptedOnDemand(lib: Library, id: string, p: Policy, c: Cell, req: Request)
    requires Accepted(lib, id, p, c)
    ensures Matches(lib, p, req) <==> MatchesOnDemand(lib, p, req)
  {
    forall d | d in p.conditions
      ensures Satisfied(lib, d, req) <==> Satisfied(lib, d.(compiledRegex := CompiledNow(lib, d)), req)
    {
      if d.operator == "REGEX" {
        assert d.compiledRegex == CompiledNow(lib, d);
      }
    }
  }

  /** Deciding with the stored patterns is deciding with patterns compiled at evaluation time. */
  lemma {:induction false} StoredPatternsAgree(lib: Library, log: seq<Message>, req: Request)
    ensures var t := ConsumeAll(lib, EMPTY, log);
      Verdict(Matcher(lib, req), t) == Verdict(p => MatchesOnDemand(lib, p, req), t)
  {
    var t := ConsumeAll(lib, EMPTY, log);
    var onDemand := p => MatchesOnDemand(lib, p, req);
    forall c: Cell ensures AnyMatch(Matcher(lib, req), At(t, c)) <==> AnyMatch(onDemand, At(t, c)) {
      forall id | id in At(t, c) ensures Matcher(lib, req)(At(t, c)[id]) == onDemand(At(t, c)[id]) {
        StoredAreAccepted(lib, log, c, id);
        AcceptedOnDemand(lib, id, At(t, c)[id], c, req);
      }
    }
    assert At(t, AllowCell) == t.allow && At(t, DenyCell) == t.deny;
  }
}
