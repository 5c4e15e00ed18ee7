/** The policy store's methods as they run in one goroutine (internal/store/store.go).

    Other goroutines appear as `races`: for each attempt, the rival commits that land before its Load
    and those that land between its Load and its CompareAndSwap; they may be any table steps. The protocol
    between goroutines is in Protocol, and Attempts shows its runs to be among those considered here. */
module Store {
  import opened Lists
  import opened Policies
  import opened Tables

  /** Rival commits around one attempt. */
  datatype Round = Round(beforeLoad: seq<TableStep>, beforeSwap: seq<TableStep>)
  type Races = seq<Round>

  predicate Touches(batch: seq<TableStep>, c: Cell) {
    exists s :: s in batch && s.cell == c
  }

  function Flatten(races: Races): seq<TableStep> {
    if races == [] then []
    else races[0].beforeLoad + races[0].beforeSwap + Flatten(races[1..])
  }

  function RoundAt(races: Races, attempt: nat): Round {
    if attempt < |races| then races[attempt] else Round([], [])
  }

  /** A load finds nothing for this step to do. */
  predicate Idle(t: Tables, step: TableStep) {
    step.op.Remove? && step.op.id !in At(t, step.cell)
  }

  /** What the rivals do until a method's loop is done with its step: attempt after attempt, until a load
      finds nothing to do or no rival commits to the same table between load and swap. */
  function LandedBy(t: Tables, races: Races, step: TableStep): seq<TableStep>
    decreases |races|
  {
    if races == [] then []
    else
      var r := races[0];
      var loaded := Replay(t, r.beforeLoad);
      if Idle(loaded, step) then r.beforeLoad
      else if !Touches(r.beforeSwap, step.cell) then r.beforeLoad + r.beforeSwap
      else r.beforeLoad + r.beforeSwap + LandedBy(Replay(loaded, r.beforeSwap), races[1..], step)
  }

  /** `landed` is what the rivals did until the method was done, in order: everything in the first
      attempts, each of which but the last lost its swap to a rival commit on the same table, or also
      what came before the load that found nothing to do. */
  ghost predicate RanBy(races: Races, c: Cell, landed: seq<TableStep>) {
    exists k ::
      || LandedIn(races, c, landed, k)
      || (0 <= k < |races| && LostAll(races, c, k) && landed == Flatten(races[..k]) + races[k].beforeLoad)
  }

  /** The rivals of the first `k` attempts landed: the last of these attempts won its swap, or there were
      no rivals left to lose to. */
  ghost predicate LandedIn(races: Races, c: Cell, landed: seq<TableStep>, k: int) {
    && 0 <= k <= |races|
    && landed == Flatten(races[..k])
    && LostAll(races, c, k - 1)
    && (k < |races| ==> k > 0 && !Touches(races[k - 1].beforeSwap, c))
  }

  /** The first `k` attempts lost their swaps. */
  ghost predicate LostAll(races: Races, c: Cell, k: int) {
    forall j :: 0 <= j < k && j < |races| ==> Touches(races[j].beforeSwap, c)
  }

  function Holding(t: Tables, c: Cell, m: PolicyMap): Tables {
    if c.AllowCell? then t.(allow := m) else t.(deny := m)
  }

  lemma {:induction false} LandedByRan(t: Tables, races: Races, step: TableStep)
    ensures RanBy(races, step.cell, LandedBy(t, races, step))
    decreases |races|
  {
    var landed := LandedBy(t, races, step);
    if races == [] {
      assert LandedIn(races, step.cell, landed, 0);
    } else {
      var r, rest := races[0], races[1..];
      var loaded := Replay(t, r.beforeLoad);
      if Idle(loaded, step) {
        assert landed == Flatten(races[..0]) + races[0].beforeLoad;
      } else if !Touches(r.beforeSwap, step.cell) {
        FirstRounds(races, 0);
        assert LandedIn(races, step.cell, landed, 1);
      } else {
        LandedByRan(Replay(loaded, r.beforeSwap), rest, step);
        LaterRan(races, step.cell, LandedBy(Replay(loaded, r.beforeSwap), rest, step));
      }
    }
  }

  lemma {:induction false} FirstRounds(races: Races, k: nat)
    requires k < |races|
    ensures Flatten(races[..k + 1]) == races[0].beforeLoad + races[0].beforeSwap + Flatten(races[1..][..k])
  {
    assert races[..k + 1][1..] == races[1..][..k];
  }

  lemma {:induction false} LaterLanded(races: Races, c: Cell, landed: seq<TableStep>, k: int)
    requires races != [] && Touches(races[0].beforeSwap, c) && LandedIn(races[1..], c, landed, k)
    ensures LandedIn(races, c, races[0].beforeLoad + races[0].beforeSwap + landed, k + 1)
  {
    FirstRounds(races, k);
    assert forall j :: 0 < j < |races| ==> races[j] == races[1..][j - 1];
  }

  lemma {:induction false} LaterIdled(races: Races, c: Cell, landed: seq<TableStep>, k: int)
    requires races != [] && Touches(races[0].beforeSwap, c)
    requires 0 <= k < |races| - 1 && LostAll(races[1..], c, k)
    requires landed == Flatten(races[1..][..k]) + races[1..][k].beforeLoad
    ensures LostAll(races, c, k + 1)
    ensures races[0].beforeLoad + races[0].beforeSwap + landed == Flatten(races[..k + 1]) + races[k + 1].beforeLoad
  {
    FirstRounds(races, k);
    assert forall j :: 0 < j < |races| ==> races[j] == races[1..][j - 1];
    Regroup(races[0].beforeLoad, races[0].beforeSwap, Flatten(races[1..][..k]), races[k + 1].beforeLoad);
  }

  lemma {:induction false} LaterRan(races: Races, c: Cell, landed: seq<TableStep>)
    requires races != [] && Touches(races[0].beforeSwap, c) && RanBy(races[1..], c, landed)
    ensures RanBy(races, c, races[0].beforeLoad + races[0].beforeSwap + landed)
  {
    if k :| LandedIn(races[1..], c, landed, k) {
      LaterLanded(races, c, landed, k);
    } else {
      var k :| 0 <= k < |races| - 1 && LostAll(races[1..], c, k)
        && landed == Flatten(races[1..][..k]) + races[1..][k].beforeLoad;
      LaterIdled(races, c, landed, k);
    }
  }

  /** The loop is about to make attempt `k`, after `landed`. */
  ghost predicate Looping(t: Tables, races: Races, step: TableStep, k: nat, landed: seq<TableStep>) {
    k <= |races| && landed + LandedBy(Replay(t, landed), races[k..], step) == LandedBy(t, races, step)
  }

  lemma {:induction false} StartOfLoop(t: Tables, races: Races, step: TableStep)
    ensures Looping(t, races, step, 0, [])
  {
    assert races[0..] == races;
  }

  /** What the tables are at an attempt's load and at its swap, in terms of all that has landed. */
  lemma {:induction false} RoundLands(t: Tables, landed: seq<TableStep>, r: Round)
    ensures Replay(Replay(t, landed), r.beforeLoad) == Replay(t, landed + r.beforeLoad)
    ensures Replay(Replay(t, landed + r.beforeLoad), r.beforeSwap) == Replay(t, landed + r.beforeLoad + r.beforeSwap)
  {
    ReplayConcat(t, landed, r.beforeLoad);
    ReplayConcat(t, landed + r.beforeLoad, r.beforeSwap);
  }

  /** A lost attempt leaves the loop where it would have been had it started after that attempt. */
  lemma {:induction false} AttemptLost(t: Tables, races: Races, step: TableStep, k: nat, landed: seq<TableStep>)
    requires Looping(t, races, step, k, landed)
    requires !Idle(Replay(t, landed + RoundAt(races, k).beforeLoad), step)
    requires Touches(RoundAt(races, k).beforeSwap, step.cell)
    ensures k < |races|
    ensures Looping(t, races, step, k + 1, landed + races[k].beforeLoad + races[k].beforeSwap)
  {
    var r := races[k];
    RoundLands(t, landed, r);
    assert races[k..][0] == r && races[k..][1..] == races[k + 1..];
    var rest := LandedBy(Replay(t, landed + r.beforeLoad + r.beforeSwap), races[k + 1..], step);
    Regroup(landed, r.beforeLoad, r.beforeSwap, rest);
  }

  lemma Regroup(a: seq<TableStep>, b: seq<TableStep>, c: seq<TableStep>, d: seq<TableStep>)
    ensures a + (b + c + d) == a + b + c + d == a + b + (c + d)
    ensures a + (b + c) == a + b + c
  {
  }

  /** An attempt whose load finds nothing is the last. */
  lemma {:induction false} AttemptIdles(t: Tables, races: Races, step: TableStep, k: nat, landed: seq<TableStep>)
    requires Looping(t, races, step, k, landed)
    requires Idle(Replay(t, landed + RoundAt(races, k).beforeLoad), step)
    ensures LandedBy(t, races, step) == landed + RoundAt(races, k).beforeLoad
    ensures Replay(t, LandedBy(t, races, step) + [step]) == Replay(t, landed + RoundAt(races, k).beforeLoad)
  {
    var r := RoundAt(races, k);
    RoundLands(t, landed, r);
    NothingToRemove(t, landed + r.beforeLoad, step);
    if k < |races| {
      assert races[k..][0] == r;
    }
  }

  /** So is an attempt whose swap meets no rival. */
  lemma {:induction false} AttemptWins(t: Tables, races: Races, step: TableStep, k: nat, landed: seq<TableStep>)
    requires Looping(t, races, step, k, landed)
    requires !Idle(Replay(t, landed + RoundAt(races, k).beforeLoad), step)
    requires !Touches(RoundAt(races, k).beforeSwap, step.cell)
    ensures var r := RoundAt(races, k);
      LandedBy(t, races, step) == landed + r.beforeLoad + r.beforeSwap
    ensures Replay(t, LandedBy(t, races, step) + [step]) == ApplyStep(Replay(t, LandedBy(t, races, step)), step)
  {
    var r := RoundAt(races, k);
    RoundLands(t, landed, r);
    AppendStep(t, LandedBy(t, races, step), step);
    Regroup(landed, r.beforeLoad, r.beforeSwap, []);
    if k < |races| {
      assert races[k..][0] == r;
    } else {
      assert landed + [] + [] == landed;
    }
  }

  class PolicyStore {
    // Every map ever built; a pointer is an index. Maps are never changed once built.
    var heap: seq<PolicyMap>
    var allow: nat
    var deny: nat

    ghost predicate Valid()
      reads this
    {
      allow < |heap| && deny < |heap|
    }

    function Pointer(c: Cell): nat
      reads this
    {
      if c.AllowCell? then allow else deny
    }

    ghost function Contents(): Tables
      requires Valid()
      reads this
    {
      Tables(heap[allow], heap[deny])
    }

    constructor ()
      ensures Valid() && Contents() == EMPTY
    {
      heap := [map[], map[]];
      allow := 0;
      deny := 1;
    }

    /** Publishes `built` in cell `c` if the cell still holds `held`. */
    method CompareAndSwap(c: Cell, held: nat, built: nat) returns (swapped: bool)
      requires Valid() && built < |heap|
      modifies this`allow, this`deny
      ensures Valid()
      ensures swapped <==> old(Pointer(c)) == held
      ensures Pointer(c) == if swapped then built else old(Pointer(c))
      ensures Pointer(Opposite(c)) == old(Pointer(Opposite(c)))
    {
      swapped := Pointer(c) == held;
      if swapped {
        if c.AllowCell? {
          allow := built;
        } else {
          deny := built;
        }
      }
    }

    /** A rival goroutine's commit: a new map, published. */
    method RivalCommit(s: TableStep)
      requires Valid()
      modifies this
      ensures Valid() && old(heap) <= heap
      ensures Contents() == ApplyStep(old(Contents()), s)
      ensures Pointer(s.cell) == old(|heap|)
      ensures Pointer(Opposite(s.cell)) == old(Pointer(Opposite(s.cell)))
    {
      heap := heap + [On(heap[Pointer(s.cell)], s.op)];
      if s.cell.AllowCell? {
        allow := |heap| - 1;
      } else {
        deny := |heap| - 1;
      }
    }

    /** A batch of rival commits moves a cell's pointer exactly when it touches the cell. */
    method Rivals(batch: seq<TableStep>)
      requires Valid()
      modifies this
      ensures Valid() && old(heap) <= heap
      ensures Contents() == Replay(old(Contents()), batch)
      ensures forall c :: Pointer(c) == old(Pointer(c)) <==> !Touches(batch, c)
    {
      assert batch[..0] == [];
      for i := 0 to |batch|
        invariant Valid() && old(heap) <= heap
        invariant Contents() == Replay(old(Contents()), batch[..i])
        invariant forall c :: !Touches(batch[..i], c) ==> Pointer(c) == old(Pointer(c))
        invariant forall c :: Touches(batch[..i], c) ==> Pointer(c) >= old(|heap|)
      {
        assert batch[..i + 1] == batch[..i] + [batch[i]];
        assert batch[..i + 1][..i] == batch[..i];
        RivalCommit(batch[i]);
      }
      assert batch[..|batch|] == batch;
    }

    /** Builds the new map, lets the rivals of this attempt run, then tries to publish. */
    method Swap(c: Cell, held: nat, newMap: PolicyMap, batch: seq<TableStep>) returns (swapped: bool)
      requires Valid() && held == Pointer(c)
      modifies this
      ensures Valid() && old(heap) <= heap
      ensures swapped <==> !Touches(batch, c)
      ensures Contents() ==
        if swapped then Holding(Replay(old(Contents()), batch), c, newMap) else Replay(old(Contents()), batch)
      ensures !Touches(batch, c) ==> At(Replay(old(Contents()), batch), c) == At(old(Contents()), c)
    {
      heap := heap + [newMap];
      var built := |heap| - 1;
      Rivals(batch);
      swapped := CompareAndSwap(c, held, built);
    }

    /** One commit, after every rival commit that beat it to the swap. */
    method UpsertInto(target: Cell, p: Policy, races: Races) returns (landed: seq<TableStep>)
      requires Valid()
      modifies this
      ensures Valid() && old(heap) <= heap
      ensures Contents() == Replay(old(Contents()), landed + [TableStep(target, Put(p))])
      ensures landed == LandedBy(old(Contents()), races, TableStep(target, Put(p))) && RanBy(races, target, landed)
    {
      var attempt := 0;
      landed := [];
      ghost var t, step := Contents(), TableStep(target, Put(p));
      StartOfLoop(t, races, step);
      LandedByRan(t, races, step);
      while true
        invariant Valid() && old(heap) <= heap && 0 <= attempt <= |races|
        invariant Contents() == Replay(t, landed) && Looping(t, races, step, attempt, landed)
        decreases |races| - attempt
      {
        var round := RoundAt(races, attempt);
        RoundLands(t, landed, round);
        Rivals(round.beforeLoad);
        var currentMapPtr := Pointer(target);
        var newMap := heap[currentMapPtr];
        newMap := newMap[p.id := p];
        var swapped := Swap(target, currentMapPtr, newMap, round.beforeSwap);
        if swapped {
          AttemptWins(t, races, step, attempt, landed);
          landed := landed + round.beforeLoad + round.beforeSwap;
          return;
        }
        AttemptLost(t, races, step, attempt, landed);
        landed := landed + round.beforeLoad + round.beforeSwap;
        attempt := attempt + 1;
      }
    }

    /** One attempt at a removal: load, look, copy without the id, swap. */
    method TryRemove(target: Cell, id: string, round: Round) returns (found: bool, swapped: bool)
      requires Valid()
      modifies this
      ensures Valid() && old(heap) <= heap
      ensures found <==> !Idle(Replay(old(Contents()), round.beforeLoad), TableStep(target, Remove(id)))
      ensures swapped <==> found && !Touches(round.beforeSwap, target)
      ensures var loaded := Replay(old(Contents()), round.beforeLoad);
        var raced := if found then Replay(loaded, round.beforeSwap) else loaded;
        Contents() == if swapped then ApplyStep(raced, TableStep(target, Remove(id))) else raced
    {
      Rivals(round.beforeLoad);
      var currentMapPtr := Pointer(target);
      var currentMap := heap[currentMapPtr];
      if id !in currentMap {
        return false, false;
      }
      var newMap := CopyWithout(currentMap, id);
      swapped := Swap(target, currentMapPtr, newMap, round.beforeSwap);
      found := true;
    }

    /** At most one commit: none when the id is absent at a load. Either way the table ends as if
        the removal came right after the rivals that landed. */
    method RemoveFrom(target: Cell, id: string, races: Races) returns (landed: seq<TableStep>)
      requires Valid()
      modifies this
      ensures Valid() && old(heap) <= heap
      ensures Contents() == Replay(old(Contents()), landed + [TableStep(target, Remove(id))])
      ensures landed == LandedBy(old(Contents()), races, TableStep(target, Remove(id))) && RanBy(races, target, landed)
    {
      var attempt := 0;
      landed := [];
      ghost var t, step := Contents(), TableStep(target, Remove(id));
      StartOfLoop(t, races, step);
      LandedByRan(t, races, step);
      while true
        invariant Valid() && old(heap) <= heap && 0 <= attempt <= |races|
        invariant Contents() == Replay(t, landed) && Looping(t, races, step, attempt, landed)
        decreases |races| - attempt
      {
        var round := RoundAt(races, attempt);
        RoundLands(t, landed, round);
        var found, swapped := TryRemove(target, id, round);
        if !found {
          AttemptIdles(t, races, step, attempt, landed);
          landed := landed + round.beforeLoad;
          return;
        }
        if swapped {
          AttemptWins(t, races, step, attempt, landed);
          landed := landed + round.beforeLoad + round.beforeSwap;
          return;
        }
        AttemptLost(t, races, step, attempt, landed);
        landed := landed + round.beforeLoad + round.beforeSwap;
        attempt := attempt + 1;
      }
    }

    /** First the opposite table loses the id, then the target table gains the policy. */
    method UpsertPolicy(p: Policy, races1: Races := [], races2: Races := [])
        returns (landed1: seq<TableStep>, landed2: seq<TableStep>)
      requires Valid()
      modifies this
      ensures Valid() && old(heap) <= heap
      ensures landed1 == LandedBy(old(Contents()), races1, StepOf(Upsert(p), First))
      ensures landed2 ==
        LandedBy(Replay(old(Contents()), landed1 + [StepOf(Upsert(p), First)]), races2, StepOf(Upsert(p), Second))
      ensures RanBy(races1, Opposite(Route(p)), landed1) && RanBy(races2, Route(p), landed2)
      ensures Contents() == Replay(old(Contents()),
        (landed1 + [StepOf(Upsert(p), First)]) + (landed2 + [StepOf(Upsert(p), Second)]))
      ensures races1 == races2 == [] ==> Contents() == Perform(old(Contents()), Upsert(p))
      ensures races1 == races2 == [] && p.access == "ALLOW" ==>
        Contents() == Tables(old(Contents()).allow[p.id := p], old(Contents()).deny - {p.id})
      ensures races1 == races2 == [] && p.access != "ALLOW" ==>
        Contents() == Tables(old(Contents()).allow - {p.id}, old(Contents()).deny[p.id := p])
    {
      if p.access == ACCESS_ALLOW {
        landed1 := RemoveFrom(DenyCell, p.id, races1);
        landed2 := UpsertInto(AllowCell, p, races2);
      } else {
        landed1 := RemoveFrom(AllowCell, p.id, races1);
        landed2 := UpsertInto(DenyCell, p, races2);
      }
      TwoSteps(old(Contents()), Upsert(p), landed1, landed2);
      PerformMeans(old(Contents()), Upsert(p));
    }

    method DeletePolicy(id: string, races1: Races := [], races2: Races := [])
        returns (landed1: seq<TableStep>, landed2: seq<TableStep>)
      requires Valid()
      modifies this
      ensures Valid() && old(heap) <= heap
      ensures landed1 == LandedBy(old(Contents()), races1, StepOf(Delete(id), First))
      ensures landed2 ==
        LandedBy(Replay(old(Contents()), landed1 + [StepOf(Delete(id), First)]), races2, StepOf(Delete(id), Second))
      ensures RanBy(races1, AllowCell, landed1) && RanBy(races2, DenyCell, landed2)
      ensures Contents() == Replay(old(Contents()),
        (landed1 + [StepOf(Delete(id), First)]) + (landed2 + [StepOf(Delete(id), Second)]))
      ensures races1 == races2 == [] ==> Contents() == Perform(old(Contents()), Delete(id))
      ensures races1 == races2 == [] ==>
        Contents() == Tables(old(Contents()).allow - {id}, old(Contents()).deny - {id})
    {
      landed1 := RemoveFrom(AllowCell, id, races1);
      landed2 := RemoveFrom(DenyCell, id, races2);
      TwoSteps(old(Contents()), Delete(id), landed1, landed2);
      PerformMeans(old(Contents()), Delete(id));
    }

    /** The allow table of the first load with the deny table of the second. */
    method ListActivePolicies(between: seq<TableStep>) returns (snapshot: PolicySnapshot)
      requires Valid()
      modifies this
      ensures Valid() && Contents() == Replay(old(Contents()), between)
      ensures SnapshotOf(Tables(old(Contents()).allow, Contents().deny), snapshot)
      ensures |snapshot.allow| == |old(Contents()).allow| && |snapshot.deny| == |Contents().deny|
      ensures forall p :: p in snapshot.allow <==> p in old(Contents()).allow.Values
      ensures forall p :: p in snapshot.deny <==> p in Contents().deny.Values
    {
      var allowMap := heap[allow];
      Rivals(between);
      var denyMap := heap[deny];
      var allowed := AppendAll(allowMap);
      var denied := AppendAll(denyMap);
      FlattenedPolicies(allowMap, allowed);
      FlattenedPolicies(denyMap, denied);
      snapshot := PolicySnapshot(allowed, denied);
    }

    method CountPolicies(between: seq<TableStep>) returns (n: nat)
      requires Valid()
      modifies this
      ensures Valid() && Contents() == Replay(old(Contents()), between)
      ensures n == |old(Contents()).allow| + |Contents().deny|
    {
      var allowed := |heap[allow]|;
      Rivals(between);
      n := allowed + |heap[deny]|;
    }
  }

  method CopyWithout(currentMap: PolicyMap, id: string) returns (newMap: PolicyMap)
    ensures newMap == currentMap - {id}
  {
    newMap := map[];
    var keys := currentMap.Keys;
    while keys != {}
      invariant keys <= currentMap.Keys
      invariant newMap == currentMap - ({id} + keys)
    {
      var k :| k in keys;
      if k != id {
        newMap := newMap[k := currentMap[k]];
      }
      keys := keys - {k};
    }
  }

  /** Ranging over a map yields its values in an order nobody controls. */
  method AppendAll(m: PolicyMap) returns (ps: seq<Policy>)
    ensures Flattens(m, ps)
  {
    ps := [];
    var keys := m.Keys;
    ghost var done: seq<string> := [];
    while keys != {}
      invariant keys <= m.Keys && NoRepeats(done) && ValueSet(done) == m.Keys - keys
      invariant forall k :: k in done ==> k in m
      invariant ps == ValuesInOrder(m, done)
    {
      var k :| k in keys;
      assert k !in done by { assert k in done ==> k in ValueSet(done); }
      DistinctAppend(done, k);
      done := done + [k];
      ps := ps + [m[k]];
      keys := keys - {k};
    }
    assert Ordering(done, m);
  }

  lemma {:induction false} AppendStep(t: Tables, steps: seq<TableStep>, s: TableStep)
    ensures Replay(t, steps + [s]) == ApplyStep(Replay(t, steps), s)
  {
    ReplayConcat(t, steps, [s]);
    ReplayOne(Replay(t, steps), s);
  }

  lemma {:induction false} NothingToRemove(t: Tables, landed: seq<TableStep>, step: TableStep)
    requires Idle(Replay(t, landed), step)
    ensures Replay(t, landed + [step]) == Replay(t, landed)
  {
    AppendStep(t, landed, step);
    assert At(Replay(t, landed), step.cell) - {step.op.id} == At(Replay(t, landed), step.cell);
  }

  lemma {:induction false} TwoSteps(t: Tables, op: StoreOp, landed1: seq<TableStep>, landed2: seq<TableStep>)
    ensures Replay(Replay(t, landed1 + [StepOf(op, First)]), landed2 + [StepOf(op, Second)])
         == Replay(t, (landed1 + [StepOf(op, First)]) + (landed2 + [StepOf(op, Second)]))
    ensures landed1 == landed2 == [] ==>
      Replay(Replay(t, landed1 + [StepOf(op, First)]), landed2 + [StepOf(op, Second)]) == Perform(t, op)
  {
    ReplayConcat(t, landed1 + [StepOf(op, First)], landed2 + [StepOf(op, Second)]);
    AppendStep(t, landed1, StepOf(op, First));
    AppendStep(Replay(t, landed1 + [StepOf(op, First)]), landed2, StepOf(op, Second));
  }
}
