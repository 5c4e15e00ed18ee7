/** The two policy tables and what each store operation does to them, one atomic step at a time
    (internal/store/store.go). */
module Tables {
  import opened Lists
  import opened Policies

  type PolicyMap = map<string, Policy>

  datatype Cell = AllowCell | DenyCell

  /** The contents of both tables at one instant. */
  datatype Tables = Tables(allow: PolicyMap, deny: PolicyMap)

  /** One published change of one table. */
  datatype TableOp = Put(p: Policy) | Remove(id: string)
  datatype TableStep = TableStep(cell: Cell, op: TableOp)

  /** A call of the store's interface; each makes two table steps. */
  datatype StoreOp = Upsert(p: Policy) | Delete(id: string)
  datatype Phase = First | Second

  function Opposite(c: Cell): Cell {
    if c.AllowCell? then DenyCell else AllowCell
  }

  /** Exactly "ALLOW" goes to the allow table, every other access mode to the deny table. */
  function Route(p: Policy): Cell {
    if p.access == ACCESS_ALLOW then AllowCell else DenyCell
  }

  function StepOf(op: StoreOp, phase: Phase): TableStep {
    match op
    case Upsert(p) =>
      if phase.First? then TableStep(Opposite(Route(p)), Remove(p.id)) else TableStep(Route(p), Put(p))
    case Delete(id) =>
      if phase.First? then TableStep(AllowCell, Remove(id)) else TableStep(DenyCell, Remove(id))
  }

  function IdOf(op: StoreOp): string {
    match op
    case Upsert(p) => p.id
    case Delete(id) => id
  }

  function StepId(op: TableOp): string {
    match op
    case Put(p) => p.id
    case Remove(id) => id
  }

  function On(m: PolicyMap, op: TableOp): PolicyMap {
    match op
    case Put(p) => m[p.id := p]
    case Remove(id) => m - {id}
  }

  function At(t: Tables, c: Cell): PolicyMap {
    if c.AllowCell? then t.allow else t.deny
  }

  function ApplyStep(t: Tables, s: TableStep): Tables {
    if s.cell.AllowCell? then t.(allow := On(t.allow, s.op)) else t.(deny := On(t.deny, s.op))
  }

  function Replay(t: Tables, steps: seq<TableStep>): Tables {
    if steps == [] then t else ApplyStep(Replay(t, steps[..|steps| - 1]), steps[|steps| - 1])
  }

  /** An operation that runs alone. */
  function Perform(t: Tables, op: StoreOp): Tables {
    ApplyStep(ApplyStep(t, StepOf(op, First)), StepOf(op, Second))
  }

  function PerformAll(t: Tables, ops: seq<StoreOp>): Tables {
    if ops == [] then t else Perform(PerformAll(t, ops[..|ops| - 1]), ops[|ops| - 1])
  }

  const EMPTY := Tables(map[], map[])

  ghost predicate SingleEntry(t: Tables) {
    forall id :: !(id in t.allow && id in t.deny)
  }

  /** Every policy sits in the table its access mode routes to. */
  ghost predicate Routed(t: Tables) {
    && (forall id :: id in t.allow ==> Route(t.allow[id]) == AllowCell)
    && (forall id :: id in t.deny ==> Route(t.deny[id]) == DenyCell)
  }

  // ------------------------------------------------------- snapshots in map order

  /** What a reader gets: each table's policies in whatever order the map yields them. */
  datatype PolicySnapshot = PolicySnapshot(allow: seq<Policy>, deny: seq<Policy>)

  /** `keys` lists every key of the map once. */
  ghost predicate Ordering(keys: seq<string>, m: PolicyMap) {
    NoRepeats(keys) && ValueSet(keys) == m.Keys
  }

  function ValuesInOrder(m: PolicyMap, keys: seq<string>): (ps: seq<Policy>)
    requires forall k :: k in keys ==> k in m
    ensures |ps| == |keys| && forall i :: 0 <= i < |keys| ==> ps[i] == m[keys[i]]
  {
    seq(|keys|, i requires 0 <= i < |keys| => m[keys[i]])
  }

  ghost predicate Flattens(m: PolicyMap, ps: seq<Policy>) {
    exists keys :: Ordering(keys, m) && (forall k :: k in keys ==> k in m) && ps == ValuesInOrder(m, keys)
  }

  ghost predicate SnapshotOf(t: Tables, s: PolicySnapshot) {
    Flattens(t.allow, s.allow) && Flattens(t.deny, s.deny)
  }

  lemma FlattenedPolicies(m: PolicyMap, ps: seq<Policy>)
    requires Flattens(m, ps)
    ensures |ps| == |m|
    ensures forall p :: p in ps ==> p in m.Values
    ensures forall k :: k in m ==> m[k] in ps
  {
    var keys :| Ordering(keys, m) && (forall k :: k in keys ==> k in m) && ps == ValuesInOrder(m, keys);
    ValueSetSize(keys);
    assert |m.Keys| == |m|;
    forall p | p in ps ensures p in m.Values {
      var i :| 0 <= i < |ps| && ps[i] == p;
      assert keys[i] in ValueSet(keys);
    }
    forall k | k in m ensures m[k] in ps {
      assert k in ValueSet(keys);
      var i :| 0 <= i < |keys| && keys[i] == k;
      assert ps[i] == m[k];
    }
  }

  /** Any entry can come first. */
  lemma OrderFrom(m: PolicyMap, first: string) returns (ps: seq<Policy>)
    requires first in m
    ensures Flattens(m, ps) && |ps| > 0 && ps[0] == m[first]
  {
    var rest := SomeOrder(m.Keys - {first});
    assert first !in rest by { assert first in rest ==> first in ValueSet(rest); }
    DistinctPrepend(first, rest);
    var keys := [first] + rest;
    assert Ordering(keys, m);
    OrderedKeysIn(keys, m);
    ps := ValuesInOrder(m, keys);
  }

  lemma AnyOrder(m: PolicyMap) returns (ps: seq<Policy>)
    ensures Flattens(m, ps)
  {
    var keys := SomeOrder(m.Keys);
    assert Ordering(keys, m);
    OrderedKeysIn(keys, m);
    ps := ValuesInOrder(m, keys);
  }

  lemma OrderedKeysIn(keys: seq<string>, m: PolicyMap)
    requires Ordering(keys, m)
    ensures forall k :: k in keys ==> k in m
  {
    forall k | k in keys ensures k in m {
      assert k in ValueSet(keys);
    }
  }

  lemma {:induction false} SomeOrder(s: set<string>) returns (keys: seq<string>)
    ensures NoRepeats(keys) && ValueSet(keys) == s
  {
    if s == {} {
      keys := [];
    } else {
      var k :| k in s;
      var rest := SomeOrder(s - {k});
      assert k !in rest by { assert k in rest ==> k in ValueSet(rest); }
      DistinctPrepend(k, rest);
      keys := [k] + rest;
    }
  }

  // ------------------------------------------------------- a single id -> policy map

  /** What the interface promises: one map from id to policy, upsert sets and delete clears. */
  function Assign(m: PolicyMap, op: StoreOp): PolicyMap {
    match op
    case Upsert(p) => m[p.id := p]
    case Delete(id) => m - {id}
  }

  function AssignAll(m: PolicyMap, ops: seq<StoreOp>): PolicyMap {
    if ops == [] then m else Assign(AssignAll(m, ops[..|ops| - 1]), ops[|ops| - 1])
  }

  /** One map split by access mode. */
  function Partition(m: PolicyMap): Tables {
    Tables(map k | k in m && Route(m[k]) == AllowCell :: m[k], map k | k in m && Route(m[k]) == DenyCell :: m[k])
  }

  // ------------------------------------------------------- entries, one id at a time

  function Entry(t: Tables, c: Cell, id: string): Option<Policy> {
    if id in At(t, c) then Some(At(t, c)[id]) else None
  }

  /** What an operation leaves behind under its own id. */
  function OpEntry(op: StoreOp, c: Cell): Option<Policy> {
    match op
    case Upsert(p) => if Route(p) == c then Some(p) else None
    case Delete(_) => None
  }

  ghost predicate Names(ops: seq<StoreOp>, id: string) {
    exists k :: 0 <= k < |ops| && IdOf(ops[k]) == id
  }

  ghost predicate LastOn(ops: seq<StoreOp>, k: int) {
    && 0 <= k < |ops|
    && forall j :: k < j < |ops| ==> IdOf(ops[j]) != IdOf(ops[k])
  }

  lemma SameEntries(t: Tables, u: Tables)
    requires forall c, id :: Entry(t, c, id) == Entry(u, c, id)
    ensures t == u
  {
    forall c ensures At(t, c) == At(u, c) {
      forall id ensures (id in At(t, c)) == (id in At(u, c)) && (id in At(t, c) ==> At(t, c)[id] == At(u, c)[id]) {
        assert Entry(t, c, id) == Entry(u, c, id);
      }
    }
    assert At(t, AllowCell) == At(u, AllowCell) && At(t, DenyCell) == At(u, DenyCell);
  }

  lemma PerformEntry(t: Tables, op: StoreOp, c: Cell, id: string)
    ensures Entry(Perform(t, op), c, id) == if IdOf(op) == id then OpEntry(op, c) else Entry(t, c, id)
  {
  }

  /** An operation that runs alone, spelled out on both tables. */
  lemma PerformMeans(t: Tables, op: StoreOp)
    ensures op.Upsert? && op.p.access == "ALLOW" ==> Perform(t, op) == Tables(t.allow[op.p.id := op.p], t.deny - {op.p.id})
    ensures op.Upsert? && op.p.access != "ALLOW" ==> Perform(t, op) == Tables(t.allow - {op.p.id}, t.deny[op.p.id := op.p])
    ensures op.Delete? ==> Perform(t, op) == Tables(t.allow - {op.id}, t.deny - {op.id})
  {
  }

  lemma {:induction false} UnnamedEntry(t: Tables, ops: seq<StoreOp>, c: Cell, id: string)
    requires !Names(ops, id)
    ensures Entry(PerformAll(t, ops), c, id) == Entry(t, c, id)
  {
    if ops != [] {
      var init, last := ops[..|ops| - 1], ops[|ops| - 1];
      assert forall k :: 0 <= k < |init| ==> init[k] == ops[k];
      UnnamedEntry(t, init, c, id);
      PerformEntry(PerformAll(t, init), last, c, id);
    }
  }

  /** The last operation on an id decides both of its entries, whatever came before. */
  lemma {:induction false} LastWriterWins(t: Tables, ops: seq<StoreOp>, k: int, c: Cell)
    requires LastOn(ops, k)
    ensures Entry(PerformAll(t, ops), c, IdOf(ops[k])) == OpEntry(ops[k], c)
  {
    var init, last := ops[..|ops| - 1], ops[|ops| - 1];
    PerformEntry(PerformAll(t, init), last, c, IdOf(ops[k]));
    if k < |init| {
      assert IdOf(last) != IdOf(ops[k]);
      LastWriterWins(t, init, k, c);
    }
  }

  lemma {:induction false} LastExists(ops: seq<StoreOp>, id: string) returns (k: nat)
    requires Names(ops, id)
    ensures LastOn(ops, k) && IdOf(ops[k]) == id
  {
    k := |ops| - 1;
    if IdOf(ops[k]) != id {
      var init := ops[..k];
      assert Names(init, id) by {
        var j :| 0 <= j < |ops| && IdOf(ops[j]) == id;
        assert init[j] == ops[j];
      }
      k := LastExists(init, id);
    }
  }

  lemma {:induction false} ReplayConcat(t: Tables, a: seq<TableStep>, b: seq<TableStep>)
    ensures Replay(t, a + b) == Replay(Replay(t, a), b)
  {
    if b == [] {
      assert a + b == a;
    } else {
      assert (a + b)[..|a + b| - 1] == a + b[..|b| - 1];
      ReplayConcat(t, a, b[..|b| - 1]);
    }
  }

  lemma {:induction false} ReplayOne(t: Tables, s: TableStep)
    ensures Replay(t, [s]) == ApplyStep(t, s)
  {
    assert [s][..0] == [];
    assert Replay(t, [s][..0]) == t;
  }

  lemma {:induction false} PerformAllConcat(t: Tables, a: seq<StoreOp>, b: seq<StoreOp>)
    ensures PerformAll(t, a + b) == PerformAll(PerformAll(t, a), b)
  {
    if b == [] {
      assert a + b == a;
    } else {
      assert (a + b)[..|a + b| - 1] == a + b[..|b| - 1];
      PerformAllConcat(t, a, b[..|b| - 1]);
    }
  }

  // ------------------------------------------------------- results

  /** The two tables are one map split by access mode, after any operations. */
  lemma {:induction false} TwoTablesRefineOneMap(m: PolicyMap, ops: seq<StoreOp>)
    ensures PerformAll(Partition(m), ops) == Partition(AssignAll(m, ops))
  {
    if ops != [] {
      var init, op := ops[..|ops| - 1], ops[|ops| - 1];
      TwoTablesRefineOneMap(m, init);
      AssignPartition(AssignAll(m, init), op);
    }
  }

  lemma AssignPartition(m: PolicyMap, op: StoreOp)
    ensures Perform(Partition(m), op) == Partition(Assign(m, op))
  {
    forall c, id ensures Entry(Perform(Partition(m), op), c, id) == Entry(Partition(Assign(m, op)), c, id) {
      PerformEntry(Partition(m), op, c, id);
    }
    SameEntries(Perform(Partition(m), op), Partition(Assign(m, op)));
  }

  /** Operations whose ids are all named again later leave no trace. */
  lemma {:induction false} Overwritten(t: Tables, pre: seq<StoreOp>, post: seq<StoreOp>)
    requires forall k :: 0 <= k < |pre| ==> Names(post, IdOf(pre[k]))
    ensures PerformAll(PerformAll(t, pre), post) == PerformAll(t, post)
  {
    var u := PerformAll(t, pre);
    forall c, id ensures Entry(PerformAll(u, post), c, id) == Entry(PerformAll(t, post), c, id) {
      if Names(post, id) {
        var k := LastExists(post, id);
        LastWriterWins(u, post, k, c);
        LastWriterWins(t, post, k, c);
      } else {
        UnnamedEntry(u, post, c, id);
        UnnamedEntry(t, post, c, id);
        UnnamedEntry(t, pre, c, id);
      }
    }
    SameEntries(PerformAll(u, post), PerformAll(t, post));
  }

  lemma PartitionSound(m: PolicyMap)
    ensures SingleEntry(Partition(m)) && Routed(Partition(m))
    ensures Partition(m).allow + Partition(m).deny == m
  {
  }
}
