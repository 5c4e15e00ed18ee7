/** Readers that load the two tables one after the other (internal/store/store.go). */
module Snapshots {
  import opened Policies
  import opened Operators
  import opened Engine
  import opened Tables
  import opened Protocol
  import opened NoLostUpdates
  import opened LockFree
  import opened Completion

  /** What a reader gets whose first load is at `s` and whose second is at `e`. */
  function Torn(s: State, e: State): Tables {
    Tables(Contents(s).allow, Contents(e).deny)
  }

  /** A reader's result is the allow table at its first load and the deny table at its second, whatever
      the others do in between. */
  lemma {:induction false} ReaderObserves(s: State, r: nat, schedule: seq<nat>)
    requires WellFormed(s) && r < |s.threads| && s.threads[r].pc.Reading? && r !in schedule
    ensures var e := Run(Next(s, r), schedule);
      var f := Next(e, r);
      && |f.threads| == |s.threads|
      && f.threads[r].observed == s.threads[r].observed + [Torn(s, e)]
      && Contents(f) == Contents(e)
  {
    var n := Next(s, r);
    var e := Run(n, schedule);
    NextWellFormed(s, r);
    OthersRun(n, schedule, r);
    TablesAreTheirCommits(n, schedule);
    assert n.threads[r].pc == HalfRead(s.allow) && n.heap == s.heap;
    assert e.heap[s.allow] == s.heap[s.allow];
    RunWellFormed(n, schedule);
    NextContents(e, r);
  }

  // ---------------------------------------------------------------- torn reads

  /** Every commit in the log is about this id. */
  ghost predicate OnlyOn(log: seq<Outcome>, id: string) {
    forall k :: 0 <= k < |log| && log[k].committed ==> StepId(log[k].step.op) == id
  }

  lemma {:induction false} CommittedOnlyOn(log: seq<Outcome>, id: string)
    requires OnlyOn(log, id)
    ensures forall k :: 0 <= k < |Committed(log)| ==> StepId(Committed(log)[k].op) == id
  {
    if log != [] {
      var init := log[..|log| - 1];
      assert forall k :: 0 <= k < |init| ==> init[k] == log[k];
      CommittedOnlyOn(init, id);
    }
  }

  lemma {:induction false} ReplayElsewhere(t: Tables, steps: seq<TableStep>, id: string, c: Cell, other: string)
    requires forall k :: 0 <= k < |steps| ==> StepId(steps[k].op) == id
    requires other != id
    ensures Entry(Replay(t, steps), c, other) == Entry(t, c, other)
  {
    if steps != [] {
      ReplayElsewhere(t, steps[..|steps| - 1], id, c, other);
    }
  }

  /** Between two table states that differ on one id only, a reader of the first allow table and the
      second deny table allows nothing that neither state allows. */
  lemma OneIdTorn(before: Tables, after: Tables, id: string, matches: Policy -> bool)
    requires SingleEntry(before)
    requires forall c, k :: k != id ==> Entry(after, c, k) == Entry(before, c, k)
    ensures Allows(matches, Tables(before.allow, after.deny)) ==>
      Allows(matches, before) || Allows(matches, after)
  {
    var torn := Tables(before.allow, after.deny);
    if Allows(matches, torn) {
      var k :| k in before.allow && matches(before.allow[k]);
      if k != id {
        assert Entry(after, AllowCell, k) == Entry(before, AllowCell, k);
        assert k in after.allow && matches(after.allow[k]);
      } else {
        forall d | d in before.deny ensures !matches(before.deny[d]) {
          assert d != id;
          assert Entry(after, DenyCell, d) == Entry(before, DenyCell, d);
          assert d in torn.deny;
        }
      }
    }
  }

  /** A torn read that denies is always justified: one of its two instants denies too. */
  lemma TornDenialJustified(before: Tables, after: Tables, matches: Policy -> bool)
    ensures !Allows(matches, Tables(before.allow, after.deny)) ==>
      !Allows(matches, before) || !Allows(matches, after)
  {
  }

  /** Torn reads are justified: when every commit between the two loads is about one id, and no id had
      two entries at the first load, the mixed snapshot's decision is the store's own at one of the two
      instants, for any number of commits and any interleaving. */
  lemma {:induction false} TornReadJustified(s: State, r: nat, schedule: seq<nat>, id: string, matches: Policy -> bool)
    requires WellFormed(s) && r < |s.threads| && s.threads[r].pc.Reading? && r !in schedule
    requires SingleEntry(Contents(s))
    requires s.log <= Run(Next(s, r), schedule).log
    requires OnlyOn(Since(s, Run(Next(s, r), schedule)), id)
    ensures var e := Run(Next(s, r), schedule);
      var f := Next(e, r);
      && |f.threads| == |s.threads|
      && |f.threads[r].observed| > 0
      && var seen := f.threads[r].observed[|f.threads[r].observed| - 1];
         || (Allows(matches, seen) <==> Allows(matches, Contents(s)))
         || (Allows(matches, seen) <==> Allows(matches, Contents(e)))
  {
    var n := Next(s, r);
    var e := Run(n, schedule);
    ReaderObserves(s, r, schedule);
    NextWellFormed(s, r);
    TablesAreTheirCommits(n, schedule);
    assert n.log == s.log && Contents(n) == Contents(s);
    var steps := Committed(Since(s, e));
    CommittedOnlyOn(Since(s, e), id);
    forall c, k | k != id ensures Entry(Contents(e), c, k) == Entry(Contents(s), c, k) {
      ReplayElsewhere(Contents(s), steps, id, c, k);
    }
    OneIdTorn(Contents(s), Contents(e), id, matches);
    TornDenialJustified(Contents(s), Contents(e), matches);
  }

  // ---------------------------------------------------------------- exactly when

  /** Some instant allows. */
  ghost predicate AllowedAt(matches: Policy -> bool, st: seq<Tables>) {
    exists i :: 0 <= i < |st| && Allows(matches, st[i])
  }

  function ConditionsOf(p: Policy): set<Condition> {
    set c | c in p.conditions
  }

  /** What a request matches: policies of its own target, by the conditions they set and by nothing else. */
  function Aimed(target: Target, holds: set<Condition> -> bool): Policy -> bool {
    (p: Policy) => p.target == target && holds(ConditionsOf(p))
  }

  /** Whatever a request's target and whichever conditions it meets: what the mixed snapshot of the first
      allow table and the last deny table allows is allowed at some instant in between. */
  ghost predicate Justified(st: seq<Tables>)
    requires |st| > 0
  {
    forall target, holds ::
      Allows(Aimed(target, holds), Tables(st[0].allow, st[|st| - 1].deny)) ==> AllowedAt(Aimed(target, holds), st)
  }

  /** The conditions under which a table's policies of this target apply. */
  function ConditionsFor(m: PolicyMap, target: Target): set<set<Condition>> {
    set id | id in m && m[id].target == target :: ConditionsOf(m[id])
  }

  function Known(st: seq<Tables>, target: Target): (known: set<set<Condition>>)
    ensures forall i :: 0 <= i < |st| ==> ConditionsFor(st[i].allow, target) + ConditionsFor(st[i].deny, target) <= known
  {
    if st == [] then {}
    else ConditionsFor(st[0].allow, target) + ConditionsFor(st[0].deny, target) + Known(st[1..], target)
  }

  /** What the instants allow whose deny policies apply under `safe` conditions only. */
  function Admitted(st: seq<Tables>, target: Target, safe: set<set<Condition>>): (more: set<set<Condition>>)
    ensures more <= Known(st, target)
    ensures forall i :: 0 <= i < |st| && ConditionsFor(st[i].deny, target) <= safe ==>
      ConditionsFor(st[i].allow, target) <= more
  {
    if st == [] then {}
    else
      (if ConditionsFor(st[0].deny, target) <= safe then ConditionsFor(st[0].allow, target) else {}) +
      Admitted(st[1..], target, safe)
  }

  /** Admits what such instants allow until nothing more is to be admitted. */
  function Saturated(st: seq<Tables>, target: Target, safe: set<set<Condition>>): (r: set<set<Condition>>)
    requires safe <= Known(st, target)
    ensures safe <= r && Admitted(st, target, r) <= r
    decreases |Known(st, target) - safe|
  {
    var more := safe + Admitted(st, target, safe);
    if more == safe then safe
    else
      Admits(st, target, safe);
      Saturated(st, target, more)
  }

  lemma {:induction false} Admits(st: seq<Tables>, target: Target, safe: set<set<Condition>>)
    requires safe <= Known(st, target)
    ensures var more := safe + Admitted(st, target, safe);
      more != safe ==> |Known(st, target) - more| < |Known(st, target) - safe|
  {
    var known, more := Known(st, target), safe + Admitted(st, target, safe);
    if c :| c in more && c !in safe {
      SmallerSet(known - more, known - safe, c);
    }
  }

  lemma SmallerSet(a: set<set<Condition>>, b: set<set<Condition>>, c: set<Condition>)
    requires a <= b && c in b && c !in a
    ensures |a| < |b|
  {
    assert b == a + (b - a) && |b| == |a| + |b - a|;
    assert c in b - a;
  }

  /** Conditions of this target that no unjustified allow can rest on: those that would have met a deny
      policy at the last instant, and with them those of the allow policies of every instant at which all
      deny policies apply under such conditions. */
  function Safe(st: seq<Tables>, target: Target): set<set<Condition>>
    requires |st| > 0
  {
    Saturated(st, target, ConditionsFor(st[|st| - 1].deny, target))
  }

  /** The allow policies of the first instant all apply under safe conditions. */
  ghost predicate AllSafe(st: seq<Tables>)
    requires |st| > 0
  {
    forall target :: ConditionsFor(st[0].allow, target) <= Safe(st, target)
  }

  lemma {:induction false} SaturatedLeast(st: seq<Tables>, target: Target, safe: set<set<Condition>>, s: set<set<Condition>>)
    requires safe <= Known(st, target) && safe <= s
    requires forall i :: 0 <= i < |st| && ConditionsFor(st[i].deny, target) <= s ==> ConditionsFor(st[i].allow, target) <= s
    ensures Saturated(st, target, safe) <= s
    decreases |Known(st, target) - safe|
  {
    var more := safe + Admitted(st, target, safe);
    AdmittedLeast(st, target, safe, s);
    if more != safe {
      Admits(st, target, safe);
      SaturatedLeast(st, target, more, s);
    }
  }

  lemma {:induction false} AdmittedLeast(st: seq<Tables>, target: Target, safe: set<set<Condition>>, s: set<set<Condition>>)
    requires safe <= s
    requires forall i :: 0 <= i < |st| && ConditionsFor(st[i].deny, target) <= s ==> ConditionsFor(st[i].allow, target) <= s
    ensures Admitted(st, target, safe) <= s
  {
    if st != [] {
      AdmittedLeast(st[1..], target, safe, s);
    }
  }

  lemma AimedMatch(target: Target, holds: set<Condition> -> bool, m: PolicyMap)
    ensures AnyMatch(Aimed(target, holds), m) <==> exists c :: c in ConditionsFor(m, target) && holds(c)
  {
    if id :| id in m && Aimed(target, holds)(m[id]) {
      assert ConditionsOf(m[id]) in ConditionsFor(m, target);
    }
  }

  /** The conditions a request does not meet, if no instant allows it, include all safe ones. */
  lemma SafeJustifies(st: seq<Tables>, target: Target, holds: set<Condition> -> bool)
    requires |st| > 0 && ConditionsFor(st[0].allow, target) <= Safe(st, target)
    requires Allows(Aimed(target, holds), Tables(st[0].allow, st[|st| - 1].deny))
    ensures AllowedAt(Aimed(target, holds), st)
  {
    var unmet := set c | c in Known(st, target) && !holds(c);
    var last := st[|st| - 1];
    if !AllowedAt(Aimed(target, holds), st) {
      forall i | 0 <= i < |st| && ConditionsFor(st[i].deny, target) <= unmet
        ensures ConditionsFor(st[i].allow, target) <= unmet
      {
        AimedMatch(target, holds, st[i].deny);
        AimedMatch(target, holds, st[i].allow);
        assert !Allows(Aimed(target, holds), st[i]);
      }
      AimedMatch(target, holds, last.deny);
      AimedMatch(target, holds, st[0].allow);
      SaturatedLeast(st, target, ConditionsFor(last.deny, target), unmet);
    }
  }

  /** The request that tells: it meets all conditions that are not safe. */
  lemma JustifiedWithin(st: seq<Tables>, target: Target, safe: set<set<Condition>>)
    requires |st| > 0 && Justified(st) && ConditionsFor(st[|st| - 1].deny, target) <= safe
    requires forall i :: 0 <= i < |st| && ConditionsFor(st[i].deny, target) <= safe ==>
      ConditionsFor(st[i].allow, target) <= safe
    ensures ConditionsFor(st[0].allow, target) <= safe
  {
    var last := st[|st| - 1];
    var holds := (c: set<Condition>) => c !in safe;
    forall i | 0 <= i < |st| ensures !Allows(Aimed(target, holds), st[i]) {
      AimedMatch(target, holds, st[i].allow);
      AimedMatch(target, holds, st[i].deny);
    }
    AimedMatch(target, holds, st[0].allow);
    AimedMatch(target, holds, last.deny);
    assert Allows(Aimed(target, holds), Tables(st[0].allow, last.deny)) ==> AllowedAt(Aimed(target, holds), st);
  }

  /** A torn read is justified by some instant between its loads exactly when every allow policy it saw
      applies under safe conditions. */
  lemma TornReadExact(st: seq<Tables>)
    requires |st| > 0
    ensures Justified(st) <==> AllSafe(st)
  {
    if Justified(st) {
      forall target ensures ConditionsFor(st[0].allow, target) <= Safe(st, target) {
        JustifiedWithin(st, target, Safe(st, target));
      }
    }
    if AllSafe(st) {
      forall target, holds | Allows(Aimed(target, holds), Tables(st[0].allow, st[|st| - 1].deny))
        ensures AllowedAt(Aimed(target, holds), st)
      {
        SafeJustifies(st, target, holds);
      }
    }
  }

  /** The engine matches a request in just this way. */
  lemma MatcherAims(lib: Library, req: Request, t: Tables)
    ensures var holds := (cs: set<Condition>) => forall c :: c in cs ==> Satisfied(lib, c, req);
      Allows(Matcher(lib, req), t) <==> Allows(Aimed(Target(req.resourceType, req.action), holds), t)
  {
    var holds := (cs: set<Condition>) => forall c :: c in cs ==> Satisfied(lib, c, req);
    var aimed := Aimed(Target(req.resourceType, req.action), holds);
    forall m: PolicyMap ensures AnyMatch(Matcher(lib, req), m) <==> AnyMatch(aimed, m) {
      forall id | id in m ensures Matcher(lib, req)(m[id]) <==> aimed(m[id]) {
        assert forall c :: c in m[id].conditions <==> c in ConditionsOf(m[id]);
      }
    }
  }

  /** Requests as the engine matches them: under the same condition, asked for the request's target only,
      what the mixed snapshot allows one of the instants allows, in whatever order the maps yield their
      policies. */
  lemma SafeRequests(st: seq<Tables>, lib: Library, req: Request, snapshot: PolicySnapshot)
    requires |st| > 0
    requires var target := Target(req.resourceType, req.action);
      ConditionsFor(st[0].allow, target) <= Safe(st, target)
    requires SnapshotOf(Tables(st[0].allow, st[|st| - 1].deny), snapshot)
    ensures Evaluate(Matcher(lib, req), snapshot).allowed ==> AllowedAt(Matcher(lib, req), st)
  {
    var mixed := Tables(st[0].allow, st[|st| - 1].deny);
    OrderIndependent(Matcher(lib, req), mixed, snapshot);
    if Allows(Matcher(lib, req), mixed) {
      SafeMatcher(st, lib, req);
    }
  }

  lemma SafeMatcher(st: seq<Tables>, lib: Library, req: Request)
    requires |st| > 0
    requires var target := Target(req.resourceType, req.action);
      ConditionsFor(st[0].allow, target) <= Safe(st, target)
    requires Allows(Matcher(lib, req), Tables(st[0].allow, st[|st| - 1].deny))
    ensures AllowedAt(Matcher(lib, req), st)
  {
    var holds := (cs: set<Condition>) => forall c :: c in cs ==> Satisfied(lib, c, req);
    var target := Target(req.resourceType, req.action);
    MatcherAims(lib, req, Tables(st[0].allow, st[|st| - 1].deny));
    SafeJustifies(st, target, holds);
    var i :| 0 <= i < |st| && Allows(Aimed(target, holds), st[i]);
    MatcherAims(lib, req, st[i]);
  }

  /** The store at every instant of a run, its first and its last state included. */
  function Instants(s: State, schedule: seq<nat>): (st: seq<Tables>)
    ensures |st| == |schedule| + 1 && st[0] == Contents(s)
    decreases schedule
  {
    [Contents(s)] + if schedule == [] then [] else Instants(Next(s, schedule[0]), schedule[1..])
  }

  lemma {:induction false} InstantsAre(s: State, schedule: seq<nat>, k: nat)
    requires k <= |schedule|
    ensures Instants(s, schedule)[k] == Contents(Run(s, schedule[..k]))
    decreases schedule
  {
    if k == 0 {
      assert schedule[..0] == [];
    } else {
      assert schedule[..k][1..] == schedule[1..][..k - 1];
      InstantsAre(Next(s, schedule[0]), schedule[1..], k - 1);
    }
  }

  /** In every run: the snapshot a reader returns is justified by some instant between its two loads,
      whatever a request's target and whichever conditions it meets, exactly when the allow policies seen
      apply under conditions that are safe over these instants. */
  lemma {:induction false} TornReadExactInRun(s: State, r: nat, schedule: seq<nat>)
    requires WellFormed(s) && r < |s.threads| && s.threads[r].pc.Reading? && r !in schedule
    ensures var st := Instants(Next(s, r), schedule);
      var f := Next(Run(Next(s, r), schedule), r);
      && |f.threads| == |s.threads|
      && f.threads[r].observed == s.threads[r].observed + [Tables(st[0].allow, st[|schedule|].deny)]
      && (Justified(st) <==> AllSafe(st))
  {
    var n := Next(s, r);
    ReaderObserves(s, r, schedule);
    NextContents(s, r);
    InstantsAre(n, schedule, |schedule|);
    assert schedule[..|schedule|] == schedule;
    TornReadExact(Instants(n, schedule));
  }

  /** No commit puts a policy into the wrong table. */
  lemma {:induction false} RunRouted(s: State, schedule: seq<nat>)
    requires WellFormed(s) && Routed(Contents(s))
    ensures Routed(Contents(Run(s, schedule)))
    decreases schedule
  {
    if schedule != [] {
      NextWellFormed(s, schedule[0]);
      NextContents(s, schedule[0]);
      RunRouted(Next(s, schedule[0]), schedule[1..]);
    }
  }

  /** No state of the run allows. */
  ghost predicate NeverAllows(s: State, schedule: seq<nat>, matches: Policy -> bool)
    decreases schedule
  {
    && !Allows(matches, Contents(s))
    && (schedule != [] ==> NeverAllows(Next(s, schedule[0]), schedule[1..], matches))
  }

  lemma {:induction false} NeverFrom(s: State, t: nat, rest: seq<nat>, matches: Policy -> bool)
    requires !Allows(matches, Contents(s)) && NeverAllows(Next(s, t), rest, matches)
    ensures NeverAllows(s, [t] + rest, matches) && Run(s, [t] + rest) == Run(Next(s, t), rest)
  {
    assert ([t] + rest)[1..] == rest;
  }

  /** Goroutine 0 deletes an id that only the allow table holds. */
  lemma DeleteAllowed(s: State, id: string, more: seq<Task>, matches: Policy -> bool, rest: seq<nat>)
      returns (e: State)
    requires WellFormed(s) && |s.threads| > 0
    requires s.threads[0].pc.Ready? && s.threads[0].script == [Write(Delete(id))] + more
    requires id in Contents(s).allow && id !in Contents(s).deny && !Allows(matches, Contents(s))
    requires !AnyMatch(matches, Contents(s).allow - {id}) || AnyMatch(matches, Contents(s).deny)
    ensures WellFormed(e) && |e.threads| == |s.threads| && s.heap <= e.heap
    ensures forall i :: 0 < i < |s.threads| ==> e.threads[i] == s.threads[i]
    ensures e.threads[0].pc.Ready? && e.threads[0].script == more
    ensures Contents(e) == Tables(Contents(s).allow - {id}, Contents(s).deny)
    ensures NeverAllows(e, rest, matches) ==>
      NeverAllows(s, [0, 0, 0, 0] + rest, matches) && Run(s, [0, 0, 0, 0] + rest) == Run(e, rest)
  {
    var s1 := Next(s, 0);
    var s2 := Next(s1, 0);
    var s3 := Next(s2, 0);
    e := Next(s3, 0);
    assert s1.threads[0].pc == Loading(Delete(id), First);
    assert s2.threads[0].pc == Swapping(Delete(id), First, s.allow, |s.heap|);
    assert s3.threads[0].pc == Loading(Delete(id), Second);
    NextWellFormed(s, 0);
    NextWellFormed(s1, 0);
    NextWellFormed(s2, 0);
    NextWellFormed(s3, 0);
    FourSteps(s, matches, rest);
  }

  /** Goroutine 0 deletes an id that only the deny table holds. */
  lemma DeleteDenied(s: State, id: string, more: seq<Task>, matches: Policy -> bool, rest: seq<nat>)
      returns (e: State)
    requires WellFormed(s) && |s.threads| > 0
    requires s.threads[0].pc.Ready? && s.threads[0].script == [Write(Delete(id))] + more
    requires id !in Contents(s).allow && id in Contents(s).deny && !AnyMatch(matches, Contents(s).allow)
    ensures WellFormed(e) && |e.threads| == |s.threads| && s.heap <= e.heap
    ensures forall i :: 0 < i < |s.threads| ==> e.threads[i] == s.threads[i]
    ensures e.threads[0].pc.Ready? && e.threads[0].script == more
    ensures Contents(e) == Tables(Contents(s).allow, Contents(s).deny - {id})
    ensures NeverAllows(e, rest, matches) ==>
      NeverAllows(s, [0, 0, 0, 0] + rest, matches) && Run(s, [0, 0, 0, 0] + rest) == Run(e, rest)
  {
    var s1 := Next(s, 0);
    var s2 := Next(s1, 0);
    var s3 := Next(s2, 0);
    e := Next(s3, 0);
    assert s1.threads[0].pc == Loading(Delete(id), First);
    assert s2.threads[0].pc == Loading(Delete(id), Second);
    assert s3.threads[0].pc == Swapping(Delete(id), Second, s.deny, |s.heap|);
    NextWellFormed(s, 0);
    NextWellFormed(s1, 0);
    NextWellFormed(s2, 0);
    NextWellFormed(s3, 0);
    FourSteps(s, matches, rest);
  }

  lemma {:induction false} FourSteps(s: State, matches: Policy -> bool, rest: seq<nat>)
    ensures var s1 := Next(s, 0);
      var s2 := Next(s1, 0);
      var s3 := Next(s2, 0);
      var e := Next(s3, 0);
      (&& !Allows(matches, Contents(s)) && !Allows(matches, Contents(s1)) && !Allows(matches, Contents(s2))
       && !Allows(matches, Contents(s3)) && NeverAllows(e, rest, matches)) ==>
        NeverAllows(s, [0, 0, 0, 0] + rest, matches) && Run(s, [0, 0, 0, 0] + rest) == Run(e, rest)
  {
    var s1 := Next(s, 0);
    var s2 := Next(s1, 0);
    var s3 := Next(s2, 0);
    var e := Next(s3, 0);
    assert [0, 0, 0, 0] + rest == [0] + ([0] + ([0] + ([0] + rest)));
    if !Allows(matches, Contents(s)) && !Allows(matches, Contents(s1)) && !Allows(matches, Contents(s2)) {
      if !Allows(matches, Contents(s3)) && NeverAllows(e, rest, matches) {
        NeverFrom(s3, 0, rest, matches);
        NeverFrom(s2, 0, [0] + rest, matches);
        NeverFrom(s1, 0, [0] + ([0] + rest), matches);
        NeverFrom(s, 0, [0] + ([0] + ([0] + rest)), matches);
      }
    }
  }

  /** Two ids are enough to go wrong. An ALLOW and a DENY policy match; the ALLOW policy is deleted, then
      the DENY policy. At no instant does the store allow, yet the reader whose loads enclose both
      deletions does: its snapshot is not the state of any one instant. */
  lemma TwoIdsUnjustified(a: Policy, d: Policy, matches: Policy -> bool)
      returns (schedule: seq<nat>)
    requires Route(a) == AllowCell && Route(d) == DenyCell && a.id != d.id && matches(a) && matches(d)
    ensures var s := Launch(Tables(map[a.id := a], map[d.id := d]),
        [[Write(Delete(a.id)), Write(Delete(d.id))], [Snapshot]]);
      var e := Run(s, schedule);
      && NeverAllows(s, schedule, matches)
      && |e.threads| == 2
      && (forall i :: 0 <= i < 2 ==> Finished(e.threads[i]))
      && |e.threads[1].observed| == 1 && Allows(matches, e.threads[1].observed[0])
  {
    var t := Tables(map[a.id := a], map[d.id := d]);
    var scripts := [[Write(Delete(a.id)), Write(Delete(d.id))], [Snapshot]];
    var s := Launch(t, scripts);
    LaunchWellFormed(t, scripts);
    assert d.id in t.deny && matches(t.deny[d.id]);
    var s1 := Next(s, 1);
    var s2 := Next(s1, 1);
    NextWellFormed(s, 1);
    NextWellFormed(s1, 1);
    assert s2.threads[1] == Thread([], HalfRead(0), []) && s2.heap == s.heap;
    assert Contents(s1) == t && Contents(s2) == t;
    var rest := TwoDeletions(s2, a, d, matches);
    NeverFrom(s1, 1, rest, matches);
    NeverFrom(s, 1, [1] + rest, matches);
    schedule := [1] + ([1] + rest);
  }

  /** Between the reader's loads goroutine 0 deletes first `a`, then `d`. */
  lemma TwoDeletions(s: State, a: Policy, d: Policy, matches: Policy -> bool)
      returns (schedule: seq<nat>)
    requires matches(a) && matches(d) && a.id != d.id && WellFormed(s) && |s.threads| == 2
    requires Contents(s) == Tables(map[a.id := a], map[d.id := d]) && s.heap[0] == Contents(s).allow
    requires s.threads[0].pc.Ready? && s.threads[0].script == [Write(Delete(a.id)), Write(Delete(d.id))]
    requires s.threads[1] == Thread([], HalfRead(0), [])
    ensures NeverAllows(s, schedule, matches)
    ensures var e := Run(s, schedule);
      && |e.threads| == 2
      && (forall i :: 0 <= i < 2 ==> Finished(e.threads[i]))
      && |e.threads[1].observed| == 1 && Allows(matches, e.threads[1].observed[0])
  {
    var t := Contents(s);
    assert a.id in t.allow && matches(t.allow[a.id]) && d.id in t.deny && matches(t.deny[d.id]);
    assert s.threads[0].script == [Write(Delete(a.id))] + [Write(Delete(d.id))];
    var s4 := DeleteAllowed(s, a.id, [Write(Delete(d.id))], matches, [0, 0, 0, 0] + [1]);
    assert Contents(s4) == Tables(map[], map[d.id := d]);
    assert s4.threads[0].script == [Write(Delete(d.id))] + [];
    var s8 := DeleteDenied(s4, d.id, [], matches, [1]);
    assert Contents(s8) == Tables(map[], map[]);
    assert s8.threads[1] == Thread([], HalfRead(0), []) && s8.heap[0] == s.heap[0];
    var s9 := LastLoad(s8, t.allow, matches);
    schedule := [0, 0, 0, 0] + ([0, 0, 0, 0] + [1]);
  }

  lemma LastLoad(s: State, allow: PolicyMap, matches: Policy -> bool) returns (e: State)
    requires WellFormed(s) && |s.threads| == 2 && s.threads[1] == Thread([], HalfRead(0), [])
    requires s.heap[0] == allow && Contents(s) == Tables(map[], map[])
    ensures NeverAllows(s, [1], matches) && e == Run(s, [1])
    ensures |e.threads| == 2 && e.threads[0] == s.threads[0]
    ensures e.threads[1] == Thread([], Ready, [Tables(allow, map[])])
  {
    e := Next(s, 1);
    assert Contents(e) == Contents(s);
    assert NeverAllows(e, [], matches);
    NeverFrom(s, 1, [], matches);
    assert [1] + [] == [1];
  }

  // ---------------------------------------------------------------- Count

  function Distance(a: int, b: int): nat {
    if a < b then b - a else a - b
  }

  lemma OneStepSize(m: PolicyMap, op: TableOp)
    ensures Distance(|On(m, op)|, |m|) <= 1
  {
    var id := StepId(op);
    var u := On(m, op);
    assert |u| == |u.Keys| && |m| == |m.Keys|;
    if op.Put? {
      assert u.Keys == m.Keys + {id};
    } else {
      assert u.Keys == m.Keys - {id};
    }
  }

  lemma {:induction false} AllowSizeDrift(t: Tables, log: seq<Outcome>)
    ensures Distance(|Replay(t, Committed(log)).allow|, |t.allow|) <= CommitsOn(log, AllowCell)
  {
    if log != [] {
      var init, last := log[..|log| - 1], log[|log| - 1];
      AllowSizeDrift(t, init);
      LastCommitDrift(t, log);
      Triangle(|Replay(t, Committed(log)).allow|, |Replay(t, Committed(init)).allow|, |t.allow|);
    }
  }

  lemma Triangle(a: int, b: int, c: int)
    ensures Distance(a, c) <= Distance(a, b) + Distance(b, c)
  {
  }

  lemma LastCommitDrift(t: Tables, log: seq<Outcome>)
    requires log != []
    ensures var init := log[..|log| - 1];
      Distance(|Replay(t, Committed(log)).allow|, |Replay(t, Committed(init)).allow|)
        <= CommitsOn(log, AllowCell) - CommitsOn(init, AllowCell)
  {
    var init, last := log[..|log| - 1], log[|log| - 1];
    if last.committed {
      assert Committed(log) == Committed(init) + [last.step];
      OneCommitDrift(t, Committed(init), last.step);
    } else {
      assert Committed(log) == Committed(init);
    }
  }

  lemma {:induction false} OneCommitDrift(t: Tables, steps: seq<TableStep>, s: TableStep)
    ensures Distance(|Replay(t, steps + [s]).allow|, |Replay(t, steps).allow|) <= if s.cell.AllowCell? then 1 else 0
  {
    ReplayConcat(t, steps, [s]);
    ReplayOne(Replay(t, steps), s);
    OneStepSize(Replay(t, steps).allow, s.op);
  }

  /** Count adds the allow table's size at its first load to the deny table's at its second. Its error
      against the number of entries at the second load is at most the number of allow-table commits
      in between. */
  lemma {:induction false} CountError(s: State, schedule: seq<nat>)
    requires WellFormed(s)
    ensures var e := Run(s, schedule);
      && s.log <= e.log
      && Distance(Total(Torn(s, e)), Total(Contents(e))) <= CommitsOn(Since(s, e), AllowCell)
  {
    TablesAreTheirCommits(s, schedule);
    AllowSizeDrift(Contents(s), Since(s, Run(s, schedule)));
  }

  /** With one entry per id, the number of entries is the number of ids. */
  lemma CountIsIds(t: Tables)
    ensures Total(t) == |t.allow.Keys + t.deny.Keys| <==> SingleEntry(t)
  {
    var both := t.allow.Keys * t.deny.Keys;
    assert |t.allow.Keys + t.deny.Keys| == |t.allow.Keys| + |t.deny.Keys| - |both|;
    assert |t.allow| == |t.allow.Keys| && |t.deny| == |t.deny.Keys|;
    if SingleEntry(t) {
      assert both == {};
    } else {
      var id :| id in t.allow && id in t.deny;
      assert id in both;
    }
  }
}
