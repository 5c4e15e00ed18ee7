/** When calls begin and return: a record kept beside a run, and the sequential orders of the calls that
    respect it (internal/store/store.go). */
module RealTime {
  import opened Tables
  import opened Protocol
  import opened Completion

  /** A write by one goroutine. Time is counted in returned calls: `began` had returned when this one
      began, `returned` when it returned itself (or until now, if it has not). */
  datatype Call = Call(thread: nat, op: StoreOp, began: nat, returned: nat)

  /** The calls that have returned, and how many had when each goroutine last began a call. */
  datatype History = History(calls: seq<Call>, since: seq<nat>)

  function NextHistory(s: State, h: History, t: nat): History
    requires |h.since| == |s.threads|
  {
    if Begins(s, t) then h.(since := h.since[t := |h.calls|])
    else if Returns(s, t) then h.(calls := h.calls + [Call(t, s.threads[t].pc.op, h.since[t], |h.calls|)])
    else h
  }

  function RunHistory(s: State, h: History, schedule: seq<nat>): History
    requires |h.since| == |s.threads|
    decreases schedule
  {
    if schedule == [] then h
    else
      NextFrame(s, schedule[0]);
      RunHistory(Next(s, schedule[0]), NextHistory(s, h, schedule[0]), schedule[1..])
  }

  /** The record of a run from the start. */
  function Record(t: Tables, scripts: seq<seq<Task>>, schedule: seq<nat>): History {
    RunHistory(Launch(t, scripts), History([], seq(|scripts|, _ => 0)), schedule)
  }

  // ---------------------------------------------------------------- what the record says

  /** The record lists the returned calls in the order of their return, and a goroutine begins no call
      before its last one has returned. */
  ghost predicate Recorded(s: State, h: History) {
    && |h.since| == |s.threads|
    && |h.calls| == |s.done|
    && (forall k :: 0 <= k < |h.calls| ==>
          h.calls[k].op == s.done[k] && h.calls[k].began <= k && h.calls[k].returned == k)
    && (forall i :: 0 <= i < |h.since| ==> h.since[i] <= |h.calls|)
    && (forall j, k :: 0 <= j < k < |h.calls| && h.calls[j].thread == h.calls[k].thread ==>
          j < h.calls[k].began)
    && (forall i, k ::
          0 <= i < |s.threads| && 0 <= k < |h.calls| && h.calls[k].thread == i && InFlight(s.threads[i].pc).Some?
          ==> k < h.since[i])
  }

  /** What a step does to the record, the returned calls and the calls in flight. */
  lemma NextRecord(s: State, h: History, t: nat)
    requires |h.since| == |s.threads|
    ensures var s', h' := Next(s, t), NextHistory(s, h, t);
      && |s'.threads| == |s.threads|
      && (forall i :: 0 <= i < |s.threads| && i != t ==> s'.threads[i] == s.threads[i] && h'.since[i] == h.since[i])
      && (if Returns(s, t)
          then s'.done == s.done + [s.threads[t].pc.op] && InFlight(s'.threads[t].pc).None?
               && h' == h.(calls := h.calls + [Call(t, s.threads[t].pc.op, h.since[t], |h.calls|)])
          else s'.done == s.done && h'.calls == h.calls)
      && (t < |s.threads| && !Begins(s, t) ==> h'.since == h.since)
      && (t < |s.threads| && !Begins(s, t) && InFlight(s'.threads[t].pc).Some? ==> InFlight(s.threads[t].pc).Some?)
      && (Begins(s, t) ==> h'.since[t] == |h.calls| && InFlight(s.threads[t].pc).None?)
  {
    NextFrame(s, t);
  }

  lemma NextRecorded(s: State, h: History, t: nat)
    requires Recorded(s, h)
    ensures Recorded(Next(s, t), NextHistory(s, h, t))
  {
    NextRecord(s, h, t);
  }

  lemma {:induction false} RunRecorded(s: State, h: History, schedule: seq<nat>)
    requires Recorded(s, h)
    ensures Recorded(Run(s, schedule), RunHistory(s, h, schedule))
    decreases schedule
  {
    if schedule != [] {
      NextRecorded(s, h, schedule[0]);
      RunRecorded(Next(s, schedule[0]), NextHistory(s, h, schedule[0]), schedule[1..]);
    }
  }

  /** What one goroutine's returned calls were, in the order of their return. */
  function CallsOf(calls: seq<Call>, thread: nat): seq<StoreOp> {
    if calls == [] then []
    else
      var last := calls[|calls| - 1];
      CallsOf(calls[..|calls| - 1], thread) + if last.thread == thread then [last.op] else []
  }

  /** What a goroutine's returned and outstanding calls are together. */
  function Program(s: State, h: History, i: nat): seq<StoreOp>
    requires i < |s.threads|
  {
    CallsOf(h.calls, i) + Upcoming(s.threads[i])
  }

  lemma NextKeepsProgram(s: State, h: History, t: nat, i: nat)
    requires |h.since| == |s.threads| && i < |s.threads|
    ensures |Next(s, t).threads| == |s.threads|
    ensures Program(Next(s, t), NextHistory(s, h, t), i) == Program(s, h, i)
  {
    NextRecord(s, h, t);
    NextUpcoming(s, t);
    if Returns(s, t) {
      var calls := NextHistory(s, h, t).calls;
      assert calls[..|calls| - 1] == h.calls;
    }
  }

  lemma {:induction false} RunKeepsProgram(s: State, h: History, schedule: seq<nat>, i: nat)
    requires |h.since| == |s.threads| && i < |s.threads|
    ensures |Run(s, schedule).threads| == |s.threads|
    ensures Program(Run(s, schedule), RunHistory(s, h, schedule), i) == Program(s, h, i)
    decreases schedule
  {
    if schedule != [] {
      NextKeepsProgram(s, h, schedule[0], i);
      RunKeepsProgram(Next(s, schedule[0]), NextHistory(s, h, schedule[0]), schedule[1..], i);
    }
  }

  /** The record is that of the run: it lists the calls in the order they returned; each goroutine's
      returned calls, the one it is inside of and those it has left are its script, in order; and each
      of its calls began after all its earlier ones had returned. */
  lemma {:induction false} RecordFaithful(t: Tables, scripts: seq<seq<Task>>, schedule: seq<nat>)
    ensures var e := Run(Launch(t, scripts), schedule);
      var h := Record(t, scripts, schedule);
      && Recorded(e, h)
      && OpsIn(h.calls) == e.done
      && |e.threads| == |scripts|
      && forall i :: 0 <= i < |scripts| ==> Program(e, h, i) == WritesOf(scripts[i])
  {
    var s, h := Launch(t, scripts), History([], seq(|scripts|, _ => 0));
    RunRecorded(s, h, schedule);
    forall i | 0 <= i < |scripts|
      ensures |Run(s, schedule).threads| == |scripts|
      ensures Program(Run(s, schedule), Record(t, scripts, schedule), i) == WritesOf(scripts[i])
    {
      RunKeepsProgram(s, h, schedule, i);
    }
    LaunchWellFormed(t, scripts);
    RunWellFormed(s, schedule);
  }

  /** Goroutine `i` begins no call along the schedule. */
  ghost predicate NeverBegins(s: State, schedule: seq<nat>, i: nat)
    decreases schedule
  {
    schedule == [] ||
    (!(schedule[0] == i && Begins(s, i)) && NeverBegins(Next(s, schedule[0]), schedule[1..], i))
  }

  lemma {:induction false} HistoryFrom(s: State, h: History, t: nat, rest: seq<nat>)
    requires |h.since| == |s.threads|
    ensures |Next(s, t).threads| == |s.threads|
    ensures RunHistory(s, h, [t] + rest) == RunHistory(Next(s, t), NextHistory(s, h, t), rest)
    ensures Run(s, [t] + rest) == Run(Next(s, t), rest)
  {
    NextFrame(s, t);
    assert ([t] + rest)[1..] == rest;
  }

  lemma {:induction false} HistoryConcat(s: State, h: History, a: seq<nat>, b: seq<nat>)
    requires |h.since| == |s.threads|
    ensures |RunHistory(s, h, a).since| == |Run(s, a).threads| == |s.threads|
    ensures RunHistory(s, h, a + b) == RunHistory(Run(s, a), RunHistory(s, h, a), b)
    decreases a
  {
    if a == [] {
      assert a + b == b;
    } else {
      NextFrame(s, a[0]);
      assert (a + b)[0] == a[0] && (a + b)[1..] == a[1..] + b;
      HistoryConcat(Next(s, a[0]), NextHistory(s, h, a[0]), a[1..], b);
    }
  }

  /** The record only grows, and keeps when a call began until the goroutine begins another. */
  lemma {:induction false} HistoryGrows(s: State, h: History, schedule: seq<nat>, i: nat)
    requires |h.since| == |s.threads| && i < |s.threads|
    ensures h.calls <= RunHistory(s, h, schedule).calls
    ensures |RunHistory(s, h, schedule).since| == |h.since|
    ensures NeverBegins(s, schedule, i) ==> RunHistory(s, h, schedule).since[i] == h.since[i]
    decreases schedule
  {
    if schedule != [] {
      NextRecord(s, h, schedule[0]);
      HistoryGrows(Next(s, schedule[0]), NextHistory(s, h, schedule[0]), schedule[1..], i);
    }
  }

  /** The times on record are those of the run: a call that begins when `s0` has returned calls and returns
      when `s1` has is on record with just these two numbers, whatever runs in between and afterwards. */
  lemma {:induction false} CallTimes(t: Tables, scripts: seq<seq<Task>>, before: seq<nat>, i: nat, during: seq<nat>,
      after: seq<nat>)
    requires Begins(Run(Launch(t, scripts), before), i)
    requires NeverBegins(Next(Run(Launch(t, scripts), before), i), during, i)
    requires Returns(Run(Next(Run(Launch(t, scripts), before), i), during), i)
    ensures var s0 := Run(Launch(t, scripts), before);
      var s1 := Run(Next(s0, i), during);
      var calls := Record(t, scripts, before + ([i] + (during + ([i] + after)))).calls;
      |s1.done| < |calls| && calls[|s1.done|] == Call(i, s1.threads[i].pc.op, |s0.done|, |s1.done|)
  {
    var s, h := Launch(t, scripts), History([], seq(|scripts|, _ => 0));
    var s0, h0 := Run(s, before), RunHistory(s, h, before);
    HistoryConcat(s, h, before, [i] + (during + ([i] + after)));
    RunRecorded(s, h, before);
    HistoryFrom(s0, h0, i, during + ([i] + after));
    FromBegin(Next(s0, i), NextHistory(s0, h0, i), i, during, after);
    NextRecorded(s0, h0, i);
    NextRecord(s0, h0, i);
  }

  lemma {:induction false} FromBegin(s: State, h: History, i: nat, during: seq<nat>, after: seq<nat>)
    requires Recorded(s, h) && i < |s.threads| && NeverBegins(s, during, i) && Returns(Run(s, during), i)
    ensures var s1 := Run(s, during);
      var calls := RunHistory(s, h, during + ([i] + after)).calls;
      |s1.done| < |calls| && calls[|s1.done|] == Call(i, s1.threads[i].pc.op, h.since[i], |s1.done|)
  {
    var s1, h1 := Run(s, during), RunHistory(s, h, during);
    HistoryConcat(s, h, during, [i] + after);
    RunRecorded(s, h, during);
    HistoryGrows(s, h, during, i);
    HistoryFrom(s1, h1, i, after);
    NextRecord(s1, h1, i);
    HistoryGrows(Next(s1, i), NextHistory(s1, h1, i), after, i);
  }

  // ---------------------------------------------------------------- sequential orders

  /** `a` had returned when `b` began. */
  predicate Precedes(a: Call, b: Call) {
    a.returned < b.began
  }

  /** The same calls one after the other, none before a call that had returned when it began. */
  ghost predicate RealTimeOrder(calls: seq<Call>, order: seq<Call>) {
    && multiset(order) == multiset(calls)
    && forall i, j :: 0 <= i < j < |order| ==> !Precedes(order[j], order[i])
  }

  function OpsIn(calls: seq<Call>): (ops: seq<StoreOp>)
    ensures |ops| == |calls| && forall k :: 0 <= k < |calls| ==> ops[k] == calls[k].op
  {
    seq(|calls|, k requires 0 <= k < |calls| => calls[k].op)
  }

  /** The tables if the calls had run one at a time. */
  function InOrder(t: Tables, order: seq<Call>): Tables {
    PerformAll(t, OpsIn(order))
  }

  ghost predicate Named(calls: seq<Call>, id: string) {
    exists k :: 0 <= k < |calls| && IdOf(calls[k].op) == id
  }

  lemma InIsNamed(calls: seq<Call>, c: Call)
    requires c in calls
    ensures Named(calls, IdOf(c.op))
  {
    var k :| 0 <= k < |calls| && calls[k] == c;
  }

  /** No call on the same id began after this one had returned. */
  ghost predicate Final(calls: seq<Call>, c: Call) {
    && c in calls
    && forall x :: x in calls && IdOf(x.op) == IdOf(c.op) ==> !Precedes(c, x)
  }

  /** A final call for each id that is named. */
  ghost predicate Deciders(calls: seq<Call>, chosen: map<string, Call>) {
    && (forall id :: Named(calls, id) <==> id in chosen)
    && (forall id :: id in chosen ==> IdOf(chosen[id].op) == id && Final(calls, chosen[id]))
  }

  // Sorting by rank puts every call where it began, but the chosen ones where they returned.

  function Rank(c: Call, chosen: map<string, Call>): nat {
    if IdOf(c.op) in chosen && chosen[IdOf(c.op)] == c then 2 * c.returned + 1 else 2 * c.began
  }

  ghost predicate Ranked(calls: seq<Call>, chosen: map<string, Call>) {
    forall i, j :: 0 <= i < j < |calls| ==> Rank(calls[i], chosen) <= Rank(calls[j], chosen)
  }

  function Insert(c: Call, sorted: seq<Call>, chosen: map<string, Call>): seq<Call> {
    if sorted == [] || Rank(c, chosen) <= Rank(sorted[0], chosen) then [c] + sorted
    else [sorted[0]] + Insert(c, sorted[1..], chosen)
  }

  function Arrange(calls: seq<Call>, chosen: map<string, Call>): seq<Call> {
    if calls == [] then [] else Insert(calls[0], Arrange(calls[1..], chosen), chosen)
  }

  lemma {:induction false} InsertKeeps(c: Call, sorted: seq<Call>, chosen: map<string, Call>)
    ensures multiset(Insert(c, sorted, chosen)) == multiset(sorted) + multiset{c}
  {
    if sorted != [] && Rank(c, chosen) > Rank(sorted[0], chosen) {
      InsertKeeps(c, sorted[1..], chosen);
      assert sorted == [sorted[0]] + sorted[1..];
    }
  }

  lemma {:induction false} RankedPrepend(first: Call, rest: seq<Call>, chosen: map<string, Call>)
    requires Ranked(rest, chosen) && forall k :: 0 <= k < |rest| ==> Rank(first, chosen) <= Rank(rest[k], chosen)
    ensures Ranked([first] + rest, chosen)
  {
  }

  lemma {:induction false} InsertRanked(c: Call, sorted: seq<Call>, chosen: map<string, Call>)
    requires Ranked(sorted, chosen)
    ensures Ranked(Insert(c, sorted, chosen), chosen)
  {
    if sorted != [] && Rank(c, chosen) > Rank(sorted[0], chosen) {
      var rest := Insert(c, sorted[1..], chosen);
      InsertRanked(c, sorted[1..], chosen);
      InsertKeeps(c, sorted[1..], chosen);
      forall k | 0 <= k < |rest| ensures Rank(sorted[0], chosen) <= Rank(rest[k], chosen) {
        assert rest[k] in multiset(rest);
        assert rest[k] == c || rest[k] in sorted[1..];
      }
      RankedPrepend(sorted[0], rest, chosen);
    }
  }

  lemma {:induction false} ArrangeRanked(calls: seq<Call>, chosen: map<string, Call>)
    ensures Ranked(Arrange(calls, chosen), chosen)
    ensures multiset(Arrange(calls, chosen)) == multiset(calls)
  {
    if calls != [] {
      var rest := Arrange(calls[1..], chosen);
      ArrangeRanked(calls[1..], chosen);
      InsertRanked(calls[0], rest, chosen);
      InsertKeeps(calls[0], rest, chosen);
      assert calls == [calls[0]] + calls[1..];
    }
  }

  lemma SameCalls(a: seq<Call>, b: seq<Call>, c: Call)
    requires multiset(a) == multiset(b)
    ensures c in a <==> c in b
  {
    assert c in multiset(a) <==> c in multiset(b);
  }

  lemma RankedKeepsTime(calls: seq<Call>, order: seq<Call>, chosen: map<string, Call>)
    requires multiset(order) == multiset(calls) && Ranked(order, chosen)
    requires forall c :: c in calls ==> c.began <= c.returned
    ensures RealTimeOrder(calls, order)
  {
    forall i, j | 0 <= i < j < |order| ensures !Precedes(order[j], order[i]) {
      SameCalls(order, calls, order[i]);
      SameCalls(order, calls, order[j]);
      assert Rank(order[i], chosen) <= Rank(order[j], chosen);
    }
  }

  /** The last call on an id in ranked order is the chosen one. */
  lemma RankedEndsIn(calls: seq<Call>, order: seq<Call>, chosen: map<string, Call>, k: int)
    requires multiset(order) == multiset(calls) && Ranked(order, chosen) && Deciders(calls, chosen)
    requires LastOn(OpsIn(order), k)
    ensures IdOf(order[k].op) in chosen && chosen[IdOf(order[k].op)] == order[k]
  {
    SameCalls(order, calls, order[k]);
    InIsNamed(calls, order[k]);
    var c := chosen[IdOf(order[k].op)];
    SameCalls(order, calls, c);
    var j :| 0 <= j < |order| && order[j] == c;
    assert OpsIn(order)[j] == c.op;
    assert j < k ==> Rank(order[j], chosen) <= Rank(order[k], chosen);
    assert !Precedes(c, order[k]);
  }

  lemma ChosenIsNamed(calls: seq<Call>, order: seq<Call>, chosen: map<string, Call>, id: string)
    requires multiset(order) == multiset(calls) && Deciders(calls, chosen) && id in chosen
    ensures Names(OpsIn(order), id)
  {
    SameCalls(order, calls, chosen[id]);
    var j :| 0 <= j < |order| && order[j] == chosen[id];
    assert IdOf(OpsIn(order)[j]) == id;
  }

  lemma {:induction false} RankedEntry(t: Tables, calls: seq<Call>, order: seq<Call>, chosen: map<string, Call>,
      c: Cell, id: string)
    requires multiset(order) == multiset(calls) && Ranked(order, chosen) && Deciders(calls, chosen)
    ensures Entry(InOrder(t, order), c, id) == if id in chosen then OpEntry(chosen[id].op, c) else Entry(t, c, id)
  {
    var ops := OpsIn(order);
    if id in chosen {
      ChosenIsNamed(calls, order, chosen, id);
    }
    if Names(ops, id) {
      var k := LastExists(ops, id);
      RankedEndsIn(calls, order, chosen, k);
      LastWriterWins(t, ops, k, c);
    } else {
      UnnamedEntry(t, ops, c, id);
    }
  }

  /** Calls with a final call chosen for each id can be run one at a time, in an order that respects
      real time, so that every id ends as its chosen call leaves it. */
  lemma {:induction false} Serialise(t: Tables, calls: seq<Call>, chosen: map<string, Call>) returns (order: seq<Call>)
    requires (forall c :: c in calls ==> c.began <= c.returned) && Deciders(calls, chosen)
    ensures RealTimeOrder(calls, order)
    ensures forall c, id ::
      Entry(InOrder(t, order), c, id) == if id in chosen then OpEntry(chosen[id].op, c) else Entry(t, c, id)
  {
    order := Arrange(calls, chosen);
    ArrangeRanked(calls, chosen);
    RankedKeepsTime(calls, order, chosen);
    forall c, id
      ensures Entry(InOrder(t, order), c, id) == if id in chosen then OpEntry(chosen[id].op, c) else Entry(t, c, id)
    {
      RankedEntry(t, calls, order, chosen, c, id);
    }
  }
}
