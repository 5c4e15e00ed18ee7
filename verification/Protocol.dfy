/** The store's lock-free protocol between goroutines (internal/store/store.go), as a state machine.

    Any number of goroutines run scripts of store calls. One step is one atomic access: a Load with
    the local check and copy that follow it, or a CompareAndSwap. A run is driven by a schedule, the
    list of goroutines in the order they take steps; every interleaving is some schedule. */
module Protocol {
  import opened Policies
  import opened Tables

  /** A call: a write, or one of the two-load readers (ListActivePolicies, Count). */
  datatype Task = Write(op: StoreOp) | Snapshot

  datatype Pc =
    | Ready                                                           // between calls
    | Loading(op: StoreOp, phase: Phase)                              // before Load
    | Swapping(op: StoreOp, phase: Phase, held: nat, built: nat)      // before CompareAndSwap
    | Reading                                                         // before the reader's allow load
    | HalfRead(held: nat)                                             // before the reader's deny load

  /** `observed` collects the pairs of maps the goroutine's reads returned. */
  datatype Thread = Thread(script: seq<Task>, pc: Pc, observed: seq<Tables>)

  /** How a table step of a call ended: by a commit, or because the id to remove was absent. */
  datatype Outcome = Outcome(thread: nat, step: TableStep, committed: bool)

  /** Lost swaps, by table. */
  datatype Losses = Losses(allow: nat, deny: nat)

  /** `heap` holds every map ever built; a pointer is an index into it. The last three fields are
      history: finished table steps, finished writes, and lost swaps. */
  datatype State = State(
    heap: seq<PolicyMap>,
    allow: nat,
    deny: nat,
    threads: seq<Thread>,
    log: seq<Outcome>,
    done: seq<StoreOp>,
    lost: Losses)

  // ---------------------------------------------------------------- reading a state

  function Deref(s: State, p: nat): PolicyMap {
    if p < |s.heap| then s.heap[p] else map[]
  }

  function Pointer(s: State, c: Cell): nat {
    if c.AllowCell? then s.allow else s.deny
  }

  function Contents(s: State): Tables {
    Tables(Deref(s, s.allow), Deref(s, s.deny))
  }

  function Lost(s: State, c: Cell): nat {
    if c.AllowCell? then s.lost.allow else s.lost.deny
  }

  /** The write a goroutine is inside of. */
  function InFlight(pc: Pc): Option<StoreOp> {
    match pc
    case Loading(op, _) => Some(op)
    case Swapping(op, _, _, _) => Some(op)
    case _ => None
  }

  /** The goroutine is inside a write whose first table step is over. */
  predicate Halfway(pc: Pc) {
    (pc.Loading? || pc.Swapping?) && pc.phase.Second?
  }

  predicate Finished(th: Thread) {
    th.pc.Ready? && th.script == []
  }

  // ---------------------------------------------------------------- steps

  function WithPc(s: State, t: nat, pc: Pc): State
    requires t < |s.threads|
  {
    s.(threads := s.threads[t := s.threads[t].(pc := pc)])
  }

  /** The call begins. */
  function Begin(s: State, t: nat): State
    requires t < |s.threads| && s.threads[t].script != []
  {
    var th := s.threads[t];
    var pc := match th.script[0] case Write(op) => Loading(op, First) case Snapshot => Reading;
    s.(threads := s.threads[t := th.(script := th.script[1..], pc := pc)])
  }

  /** A table step of the call is over: on to the next one, or back to the caller. */
  function Advance(s: State, t: nat, op: StoreOp, phase: Phase, committed: bool): State
    requires t < |s.threads|
  {
    var u := s.(log := s.log + [Outcome(t, StepOf(op, phase), committed)]);
    if phase.First? then WithPc(u, t, Loading(op, Second))
    else WithPc(u.(done := u.done + [op]), t, Ready)
  }

  /** Load, look, copy and edit. A removal that finds nothing to remove is over at once. */
  function LoadStep(s: State, t: nat, op: StoreOp, phase: Phase): State
    requires t < |s.threads|
  {
    var step := StepOf(op, phase);
    var held := Pointer(s, step.cell);
    var current := Deref(s, held);
    if step.op.Remove? && step.op.id !in current then Advance(s, t, op, phase, false)
    else
      WithPc(s.(heap := s.heap + [On(current, step.op)]), t, Swapping(op, phase, held, |s.heap|))
  }

  function OneMore(lost: Losses, c: Cell): Losses {
    if c.AllowCell? then lost.(allow := lost.allow + 1) else lost.(deny := lost.deny + 1)
  }

  /** CompareAndSwap: publish if the cell still holds the loaded pointer, else start over. */
  function SwapStep(s: State, t: nat, op: StoreOp, phase: Phase, held: nat, built: nat): State
    requires t < |s.threads|
  {
    var cell := StepOf(op, phase).cell;
    if Pointer(s, cell) != held then WithPc(s.(lost := OneMore(s.lost, cell)), t, Loading(op, phase))
    else
      var u := if cell.AllowCell? then s.(allow := built) else s.(deny := built);
      Advance(u, t, op, phase, true)
  }

  function EndRead(s: State, t: nat, held: nat): State
    requires t < |s.threads|
  {
    var seen := Tables(Deref(s, held), Deref(s, s.deny));
    var th := s.threads[t];
    s.(threads := s.threads[t := th.(pc := Ready, observed := th.observed + [seen])])
  }

  predicate Enabled(s: State, t: nat) {
    t < |s.threads| && !Finished(s.threads[t])
  }

  /** Goroutine `t` takes its next step; nothing happens if it has none. */
  function Next(s: State, t: nat): State {
    if !Enabled(s, t) then s
    else
      match s.threads[t].pc
      case Ready => Begin(s, t)
      case Loading(op, phase) => LoadStep(s, t, op, phase)
      case Swapping(op, phase, held, built) => SwapStep(s, t, op, phase, held, built)
      case Reading => WithPc(s, t, HalfRead(s.allow))
      case HalfRead(held) => EndRead(s, t, held)
  }

  function Run(s: State, schedule: seq<nat>): State
    decreases schedule
  {
    if schedule == [] then s else Run(Next(s, schedule[0]), schedule[1..])
  }

  /** Goroutines about to run their scripts over a store that holds `t`. */
  function Launch(t: Tables, scripts: seq<seq<Task>>): State {
    State([t.allow, t.deny], 0, 1, seq(|scripts|, i requires 0 <= i < |scripts| => Thread(scripts[i], Ready, [])),
          [], [], Losses(0, 0))
  }

  // ---------------------------------------------------------------- what every state satisfies

  ghost predicate ThreadOk(s: State, pc: Pc) {
    match pc
    case Swapping(op, phase, held, built) =>
      var step := StepOf(op, phase);
      && held < built < |s.heap|
      && s.heap[built] == On(s.heap[held], step.op)
      && (step.op.Remove? ==> step.op.id in s.heap[held])
    case HalfRead(held) => held < |s.heap|
    case _ => true
  }

  ghost predicate WellFormed(s: State) {
    && s.allow < |s.heap| && s.deny < |s.heap|
    && forall t :: 0 <= t < |s.threads| ==> ThreadOk(s, s.threads[t].pc)
  }

  lemma LaunchWellFormed(t: Tables, scripts: seq<seq<Task>>)
    ensures WellFormed(Launch(t, scripts)) && Contents(Launch(t, scripts)) == t
  {
  }

  /** A step touches no other goroutine and no map already built. */
  lemma NextFrame(s: State, t: nat)
    ensures s.heap <= Next(s, t).heap
    ensures |Next(s, t).threads| == |s.threads|
    ensures forall i :: 0 <= i < |s.threads| && i != t ==> Next(s, t).threads[i] == s.threads[i]
  {
  }

  lemma ThreadOkGrows(s: State, s': State, pc: Pc)
    requires ThreadOk(s, pc) && s.heap <= s'.heap
    ensures ThreadOk(s', pc)
  {
    match pc
    case Swapping(op, phase, held, built) =>
      assert s'.heap[held] == s.heap[held] && s'.heap[built] == s.heap[built];
    case _ =>
  }

  lemma LoadThreadOk(s: State, t: nat, op: StoreOp, phase: Phase)
    requires WellFormed(s) && t < |s.threads|
    ensures ThreadOk(LoadStep(s, t, op, phase), LoadStep(s, t, op, phase).threads[t].pc)
    ensures LoadStep(s, t, op, phase).allow == s.allow && LoadStep(s, t, op, phase).deny == s.deny
  {
  }

  lemma SwapThreadOk(s: State, t: nat, op: StoreOp, phase: Phase, held: nat, built: nat)
    requires WellFormed(s) && t < |s.threads| && built < |s.heap|
    ensures
      var s' := SwapStep(s, t, op, phase, held, built);
      ThreadOk(s', s'.threads[t].pc) && s'.heap == s.heap && s'.allow < |s.heap| && s'.deny < |s.heap|
  {
  }

  lemma StepThreadOk(s: State, t: nat)
    requires WellFormed(s) && Enabled(s, t)
    ensures
      var s' := Next(s, t);
      s'.allow < |s'.heap| && s'.deny < |s'.heap| && t < |s'.threads| && ThreadOk(s', s'.threads[t].pc)
  {
    assert ThreadOk(s, s.threads[t].pc);
    match s.threads[t].pc
    case Loading(op, phase) => LoadThreadOk(s, t, op, phase);
    case Swapping(op, phase, held, built) => SwapThreadOk(s, t, op, phase, held, built);
    case _ =>
  }

  lemma NextWellFormed(s: State, t: nat)
    requires WellFormed(s)
    ensures WellFormed(Next(s, t))
  {
    if Enabled(s, t) {
      var s' := Next(s, t);
      NextFrame(s, t);
      StepThreadOk(s, t);
      forall i | 0 <= i < |s'.threads| ensures ThreadOk(s', s'.threads[i].pc) {
        if i != t {
          ThreadOkGrows(s, s', s.threads[i].pc);
        }
      }
    }
  }

  lemma {:induction false} RunWellFormed(s: State, schedule: seq<nat>)
    requires WellFormed(s)
    ensures WellFormed(Run(s, schedule))
    ensures |Run(s, schedule).threads| == |s.threads|
    decreases schedule
  {
    if schedule != [] {
      NextFrame(s, schedule[0]);
      NextWellFormed(s, schedule[0]);
      RunWellFormed(Next(s, schedule[0]), schedule[1..]);
    }
  }

  lemma {:induction false} RunConcat(s: State, a: seq<nat>, b: seq<nat>)
    ensures Run(s, a + b) == Run(Run(s, a), b)
    decreases a
  {
    if a == [] {
      assert a + b == b;
    } else {
      assert (a + b)[1..] == a[1..] + b;
      RunConcat(Next(s, a[0]), a[1..], b);
    }
  }

  /** A step either changes no table, or commits exactly the table step it is at. */
  lemma NextContents(s: State, t: nat)
    requires WellFormed(s)
    ensures Contents(Next(s, t)) ==
      if Commits(s, t) then ApplyStep(Contents(s), StepOf(s.threads[t].pc.op, s.threads[t].pc.phase))
      else Contents(s)
    ensures forall c :: Pointer(Next(s, t), c) != Pointer(s, c) ==>
      Commits(s, t) && c == StepOf(s.threads[t].pc.op, s.threads[t].pc.phase).cell
    ensures Commits(s, t) ==>
      Pointer(Next(s, t), StepOf(s.threads[t].pc.op, s.threads[t].pc.phase).cell) == s.threads[t].pc.built
  {
    if t < |s.threads| {
      assert ThreadOk(s, s.threads[t].pc);
    }
  }

  /** The next step of `t` is a swap that succeeds. */
  predicate Commits(s: State, t: nat) {
    && t < |s.threads|
    && s.threads[t].pc.Swapping?
    && Pointer(s, StepOf(s.threads[t].pc.op, s.threads[t].pc.phase).cell) == s.threads[t].pc.held
  }

  /** The next step of `t` is a load that finds nothing to remove. */
  predicate Skips(s: State, t: nat) {
    && t < |s.threads|
    && s.threads[t].pc.Loading?
    && var step := StepOf(s.threads[t].pc.op, s.threads[t].pc.phase);
       step.op.Remove? && step.op.id !in At(Contents(s), step.cell)
  }

  /** The next step of `t` begins a call. */
  predicate Begins(s: State, t: nat) {
    Enabled(s, t) && s.threads[t].pc.Ready?
  }

  /** The next step of `t` returns from a write. */
  predicate Returns(s: State, t: nat) {
    (Commits(s, t) || Skips(s, t)) && s.threads[t].pc.phase.Second?
  }

  /** No call is in flight. */
  ghost predicate AtRest(s: State) {
    forall i :: 0 <= i < |s.threads| ==> InFlight(s.threads[i].pc).None?
  }
}
