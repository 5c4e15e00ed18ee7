/** The stream subscriber that feeds the store (internal/subscriber/redis.go). */
module Subscriber {
  import opened Policies
  import opened Tables
  import opened Store

  /** A field of a stream entry: the client library may hand over something that is not a string. */
  datatype Value = Text(s: string) | NotText
  type Fields = map<string, Value>

  datatype Message = Message(id: nat, values: Fields)

  const ACTION_UPSERT := "UPSERT"
  const ACTION_DELETE := "DELETE"

  function GetString(values: Fields, key: string): Option<string> {
    if key in values && values[key].Text? then Some(values[key].s) else None
  }

  /** The compiled pattern is not part of the JSON form. */
  function Decode(lib: Library, text: string): Option<Policy> {
    match lib.unmarshal(text)
    case None => None
    case Some(p) => Some(p.(conditions := Uncompiled(p.conditions)))
  }

  function Uncompiled(cs: seq<Condition>): (r: seq<Condition>)
    ensures |r| == |cs| && forall i :: 0 <= i < |cs| ==> r[i] == cs[i].(compiledRegex := None)
  {
    seq(|cs|, i requires 0 <= i < |cs| => cs[i].(compiledRegex := None))
  }

  // ---------------------------------------------------------------- what an entry means

  /** The store operation an entry stands for; None when it is rejected. */
  function EventOf(lib: Library, values: Fields): Option<StoreOp> {
    var action := GetString(values, "action");
    var policyId := GetString(values, "policy_id");
    if action.None? || policyId.None? then None
    else if action.value == ACTION_UPSERT then
      match GetString(values, "policy_json")
      case None => None
      case Some(text) => UpsertEvent(lib, text)
    else if action.value == ACTION_DELETE then Some(Delete(policyId.value))
    else None
  }

  function UpsertEvent(lib: Library, text: string): Option<StoreOp> {
    match Decode(lib, text)
    case None => None
    case Some(p) =>
      if p.access != ACCESS_ALLOW && p.access != ACCESS_DENY then None
      else if exists c :: c in p.conditions && !Compilable(lib, c) then None
      else Some(Upsert(p.(conditions := PreparedAll(p.conditions))))
  }

  function Consume(lib: Library, t: Tables, values: Fields): Tables {
    match EventOf(lib, values)
    case None => t
    case Some(op) => Perform(t, op)
  }

  function ConsumeAll(lib: Library, t: Tables, log: seq<Message>): Tables {
    if log == [] then t else Consume(lib, ConsumeAll(lib, t, log[..|log| - 1]), log[|log| - 1].values)
  }

  /** The operations of the entries that are not rejected. */
  function Effective(lib: Library, log: seq<Message>): seq<StoreOp> {
    if log == [] then []
    else
      Effective(lib, log[..|log| - 1]) +
      match EventOf(lib, log[|log| - 1].values) case None => [] case Some(op) => [op]
  }

  // ---------------------------------------------------------------- the same, spelled out

  /** The field is there and holds this text. */
  ghost predicate HasText(values: Fields, key: string, text: string) {
    key in values && values[key] == Text(text)
  }

  /** The document decodes, has one of the two modes, and all its patterns are valid. */
  ghost predicate GoodDocument(lib: Library, text: string) {
    && lib.unmarshal(text).Some?
    && var p := lib.unmarshal(text).value;
       && (p.access == "ALLOW" || p.access == "DENY")
       && forall i :: 0 <= i < |p.conditions| ==> !RefusedPattern(lib, p.conditions[i])
  }

  /** The stored policy is the document: nothing is added but the compiled patterns. */
  ghost predicate StoredAs(p: Policy, document: Policy) {
    && p.id == document.id
    && p.description == document.description
    && p.access == document.access
    && p.target == document.target
    && |p.conditions| == |document.conditions|
    && forall i :: 0 <= i < |p.conditions| ==>
         var now, was := p.conditions[i], document.conditions[i];
         && now.attribute == was.attribute && now.operator == was.operator && now.value == was.value
         && now.compiledRegex == if was.operator == "REGEX" && |was.value| > 0 then Some(Regexp(was.value[0])) else None
  }

  /** The document is in the table of its mode and in that table only. */
  ghost predicate Holds(t: Tables, document: Policy) {
    var id := document.id;
    && (document.access == "ALLOW" ==> id in t.allow && StoredAs(t.allow[id], document) && id !in t.deny)
    && (document.access != "ALLOW" ==> id in t.deny && StoredAs(t.deny[id], document) && id !in t.allow)
  }

  /** The document is in its table and nothing but its id has changed. */
  ghost predicate Filed(t: Tables, now: Tables, document: Policy) {
    && Holds(now, document)
    && now.allow - {document.id} == t.allow - {document.id}
    && now.deny - {document.id} == t.deny - {document.id}
  }

  ghost predicate AcceptedUpsert(lib: Library, values: Fields, policyId: string, text: string) {
    && HasText(values, "action", "UPSERT") && HasText(values, "policy_id", policyId)
    && HasText(values, "policy_json", text) && GoodDocument(lib, text)
  }

  ghost predicate AcceptedDelete(values: Fields, policyId: string) {
    HasText(values, "action", "DELETE") && HasText(values, "policy_id", policyId)
  }

  ghost predicate NoText(values: Fields, key: string) {
    key !in values || values[key].NotText?
  }

  /** Every reason to reject an entry. */
  ghost predicate Rejected(lib: Library, values: Fields) {
    || NoText(values, "action")
    || NoText(values, "policy_id")
    || (values["action"].s != "UPSERT" && values["action"].s != "DELETE")
    || (values["action"].s == "UPSERT" &&
        (|| NoText(values, "policy_json")
         || lib.unmarshal(values["policy_json"].s).None?
         || RejectedDocument(lib, lib.unmarshal(values["policy_json"].s).value)))
  }

  ghost predicate RejectedDocument(lib: Library, p: Policy) {
    || (p.access != "ALLOW" && p.access != "DENY")
    || exists i :: 0 <= i < |p.conditions| && RefusedPattern(lib, p.conditions[i])
  }

  /** What an entry does to the tables: file the document of an acceptable upsert, remove the id of a
      delete from both tables, and nothing when it is rejected. */
  ghost predicate AppliesEntry(lib: Library, values: Fields, t: Tables, now: Tables) {
    && (forall policyId, text :: AcceptedUpsert(lib, values, policyId, text) ==>
          Filed(t, now, lib.unmarshal(text).value))
    && (forall policyId :: AcceptedDelete(values, policyId) ==>
          now == Tables(t.allow - {policyId}, t.deny - {policyId}))
    && (Rejected(lib, values) ==> now == t)
  }

  lemma UpsertFiles(lib: Library, t: Tables, values: Fields, policyId: string, text: string)
    requires AcceptedUpsert(lib, values, policyId, text)
    ensures Filed(t, Consume(lib, t, values), lib.unmarshal(text).value)
  {
    var document := lib.unmarshal(text).value;
    var p := Decode(lib, text).value;
    forall c | c in p.conditions ensures Compilable(lib, c) {
      var i :| 0 <= i < |p.conditions| && p.conditions[i] == c;
      assert p.conditions[i].value == document.conditions[i].value;
    }
    var stored := p.(conditions := PreparedAll(p.conditions));
    assert EventOf(lib, values) == Some(Upsert(stored));
    assert StoredAs(stored, document);
    PerformMeans(t, Upsert(stored));
  }

  lemma RejectedIsNone(lib: Library, values: Fields)
    requires Rejected(lib, values)
    ensures EventOf(lib, values) == None
  {
    assert "DELETE"[0] != "UPSERT"[0];
    if !NoText(values, "policy_json") && lib.unmarshal(values["policy_json"].s).Some? {
      var text := values["policy_json"].s;
      var document, p := lib.unmarshal(text).value, Decode(lib, text).value;
      if i :| 0 <= i < |document.conditions| && RefusedPattern(lib, document.conditions[i]) {
        assert p.conditions[i] in p.conditions && !Compilable(lib, p.conditions[i]);
      }
    }
  }

  /** The fold over the stream takes one entry's meaning after the other. */
  lemma ConsumeMeans(lib: Library, t: Tables, values: Fields)
    ensures AppliesEntry(lib, values, t, Consume(lib, t, values))
  {
    var now := Consume(lib, t, values);
    forall policyId, text | AcceptedUpsert(lib, values, policyId, text)
      ensures Filed(t, now, lib.unmarshal(text).value)
    {
      UpsertFiles(lib, t, values, policyId, text);
    }
    forall policyId | AcceptedDelete(values, policyId) ensures now == Tables(t.allow - {policyId}, t.deny - {policyId}) {
      assert "DELETE"[0] != "UPSERT"[0];
      assert EventOf(lib, values) == Some(Delete(policyId));
      PerformMeans(t, Delete(policyId));
    }
    if Rejected(lib, values) {
      RejectedIsNone(lib, values);
    }
  }

  // ---------------------------------------------------------------- the stream

  ghost predicate Increasing(entries: seq<Message>) {
    && (forall i :: 0 <= i < |entries| ==> entries[i].id > 0)
    && (forall i, j :: 0 <= i < j < |entries| ==> entries[i].id < entries[j].id)
  }

  function LastId(entries: seq<Message>): nat {
    if entries == [] then 0 else entries[|entries| - 1].id
  }

  ghost predicate FirstAfter(entries: seq<Message>, lastId: nat, k: int) {
    && 0 <= k < |entries|
    && entries[k].id > lastId
    && forall i :: 0 <= i < k ==> entries[i].id <= lastId
  }

  /** An append-only stream; ids grow. */
  class RedisStream {
    var entries: seq<Message>

    ghost predicate Valid()
      reads this
    {
      Increasing(entries)
    }

    constructor ()
      ensures Valid() && entries == []
    {
      entries := [];
    }

    method XAdd(values: Fields, gap: nat)
      requires Valid()
      modifies this
      ensures Valid()
      ensures entries == old(entries) + [Message(old(LastId(entries)) + 1 + gap, values)]
    {
      entries := entries + [Message(LastId(entries) + 1 + gap, values)];
    }

    /** The first entry after `lastId`, if there is one yet. */
    method XRead(lastId: nat) returns (found: Option<Message>)
      requires Valid()
      ensures found.None? ==> forall i :: 0 <= i < |entries| ==> entries[i].id <= lastId
      ensures found.Some? ==> exists k :: FirstAfter(entries, lastId, k) && entries[k] == found.value
    {
      for i := 0 to |entries|
        invariant forall j :: 0 <= j < i ==> entries[j].id <= lastId
      {
        if entries[i].id > lastId {
          assert FirstAfter(entries, lastId, i);
          return Some(entries[i]);
        }
      }
      return None;
    }
  }

  /** What happens while the subscriber runs: somebody publishes, a read times out, a read fails, a read
      reaches the stream, or the context is cancelled (between reads, inside one, or while waiting after
      a failed one). The context is cancelled after the last turn in any case. */
  datatype Turn = Published(values: Fields, gap: nat) | Timeout | ReadError | Poll | Cancelled

  /** The turns the loop lives to see. */
  function Live(turns: seq<Turn>): seq<Turn> {
    if turns == [] || turns[0].Cancelled? then [] else [turns[0]] + Live(turns[1..])
  }

  function Appends(turns: seq<Turn>): nat {
    if turns == [] then 0
    else Appends(turns[..|turns| - 1]) + if turns[|turns| - 1].Published? then 1 else 0
  }

  /** What gets published, in order. */
  function Publications(turns: seq<Turn>): (fields: seq<Fields>)
    ensures |fields| == Appends(turns)
  {
    if turns == [] then []
    else
      Publications(turns[..|turns| - 1]) +
      if turns[|turns| - 1].Published? then [turns[|turns| - 1].values] else []
  }

  /** From entry `n` on the stream holds these. */
  ghost predicate HoldsFrom(entries: seq<Message>, n: nat, fields: seq<Fields>) {
    |entries| == n + |fields| && forall k :: 0 <= k < |fields| ==> entries[n + k].values == fields[k]
  }

  lemma HoldsOneMore(entries: seq<Message>, n: nat, fields: seq<Fields>, m: Message)
    requires HoldsFrom(entries, n, fields)
    ensures HoldsFrom(entries + [m], n, fields + [m.values])
  {
  }

  /** How many entries get delivered when the stream starts with `n` of them. */
  function Delivered(turns: seq<Turn>, n: nat): nat {
    if turns == [] then 0
    else
      var before := Delivered(turns[..|turns| - 1], n);
      if turns[|turns| - 1].Poll? && before < n + Appends(turns) then before + 1 else before
  }

  /** How many of the turns are reads that reach the stream. */
  function Polls(turns: seq<Turn>): nat {
    if turns == [] then 0 else Polls(turns[1..]) + if turns[0].Poll? then 1 else 0
  }

  lemma {:induction false} PollsAppend(turns: seq<Turn>, last: Turn)
    ensures Polls(turns + [last]) == Polls(turns) + if last.Poll? then 1 else 0
  {
    if turns == [] {
      assert [last][1..] == [] && [] + [last] == [last];
    } else {
      assert (turns + [last])[1..] == turns[1..] + [last];
      PollsAppend(turns[1..], last);
    }
  }

  /** A loop that has met no cancellation yet and ends here has lived through exactly these turns. */
  lemma {:induction false} LiveUntil(turns: seq<Turn>, i: nat)
    requires i <= |turns| && forall j :: 0 <= j < i ==> !turns[j].Cancelled?
    requires i == |turns| || turns[i].Cancelled?
    ensures Live(turns) == turns[..i]
  {
    if i > 0 {
      LiveUntil(turns[1..], i - 1);
      assert turns[..i] == [turns[0]] + turns[1..][..i - 1];
    }
  }

  class PolicyUpdateSubscriber {
    const lib: Library
    const store: PolicyStore
    const stream: RedisStream

    constructor (lib: Library, store: PolicyStore, stream: RedisStream)
      ensures this.lib == lib && this.store == store && this.stream == stream
    {
      this.lib := lib;
      this.store := store;
      this.stream := stream;
    }

    /** Validates and applies one entry; a rejected entry leaves the store alone. */
    method ProcessMessageEntry(values: Fields)
      requires store.Valid()
      modifies store
      ensures store.Valid()
      ensures store.Contents() == Consume(lib, old(store.Contents()), values)
      ensures AppliesEntry(lib, values, old(store.Contents()), store.Contents())
    {
      ConsumeMeans(lib, store.Contents(), values);
      var action := GetString(values, "action");
      if action.None? {
        return;
      }
      var policyId := GetString(values, "policy_id");
      if policyId.None? {
        return;
      }
      if action.value == ACTION_UPSERT {
        var policyJson := GetString(values, "policy_json");
        if policyJson.None? {
          return;
        }
        var decoded := Decode(lib, policyJson.value);
        if decoded.None? {
          return;
        }
        var p := decoded.value;
        if p.access != ACCESS_ALLOW && p.access != ACCESS_DENY {
          return;
        }
        var conditions := new Condition[|p.conditions|](i requires 0 <= i < |p.conditions| => p.conditions[i]);
        assert conditions[..] == p.conditions;
        var err := Compile(lib, p.id, conditions);
        if err.Some? {
          return;
        }
        p := p.(conditions := conditions[..]);
        var _, _ := store.UpsertPolicy(p);
      } else if action.value == ACTION_DELETE {
        var _, _ := store.DeletePolicy(policyId.value);
      }
    }

    /** One read: the entry after `lastId` is applied and becomes the last one seen. `consumed` counts
        the entries up to `lastId`. */
    method ReadEntry(lastId: nat, consumed: nat) returns (lastId': nat, consumed': nat)
      requires store.Valid() && stream.Valid()
      requires consumed <= |stream.entries| && lastId == LastId(stream.entries[..consumed])
      modifies store
      ensures store.Valid()
      ensures consumed' == if consumed < |stream.entries| then consumed + 1 else consumed
      ensures lastId' == LastId(stream.entries[..consumed'])
      ensures store.Contents() ==
        if consumed < |stream.entries| then Consume(lib, old(store.Contents()), stream.entries[consumed].values)
        else old(store.Contents())
    {
      lastId', consumed' := lastId, consumed;
      var found := stream.XRead(lastId);
      ReadIsNext(stream.entries, consumed, found);
      if found.Some? {
        ProcessMessageEntry(found.value.values);
        lastId' := found.value.id;
        consumed' := consumed + 1;
      }
    }

    /** Replays the stream from its start, one entry per read. However publishing, timeouts, errors and
        reads are mixed, and whenever the loop is cancelled, the store is the fold of exactly the entries
        up to the last id seen. */
    method Start(turns: seq<Turn>) returns (lastId: nat, consumed: nat)
      requires store.Valid() && stream.Valid()
      modifies store, stream
      ensures store.Valid() && stream.Valid()
      ensures old(stream.entries) <= stream.entries
      ensures |stream.entries| == |old(stream.entries)| + Appends(Live(turns))
      ensures HoldsFrom(stream.entries, |old(stream.entries)|, Publications(Live(turns)))
      ensures consumed == Delivered(Live(turns), |old(stream.entries)|) <= |stream.entries|
      ensures lastId == LastId(stream.entries[..consumed])
      ensures store.Contents() == ConsumeAll(lib, old(store.Contents()), stream.entries[..consumed])
    {
      lastId, consumed := 0, 0;
      ghost var first, t := stream.entries, store.Contents();
      for i := 0 to |turns|
        invariant store.Valid() && stream.Valid()
        invariant forall j :: 0 <= j < i ==> !turns[j].Cancelled?
        invariant Lived(turns[..i], first, stream.entries, lastId, consumed)
        invariant store.Contents() == ConsumeAll(lib, t, stream.entries[..consumed])
      {
        ghost var was := stream.entries;
        match turns[i] {
          case Published(values, gap) =>
            stream.XAdd(values, gap);
            LivedPublished(turns, i, first, was, stream.entries, lastId, consumed);
          case Cancelled =>
            LiveUntil(turns, i);
            return;
          case Timeout =>
            LivedIdle(turns, i, first, was, lastId, consumed);
            continue;
          case ReadError =>
            LivedIdle(turns, i, first, was, lastId, consumed);
            continue;
          case Poll =>
            ConsumeNext(lib, t, was, consumed);
            LivedPolled(turns, i, first, was, lastId, consumed);
            lastId, consumed := ReadEntry(lastId, consumed);
        }
      }
      LiveUntil(turns, |turns|);
      assert turns[..|turns|] == turns;
    }
  }

  /** How far the loop is after these turns: what has been published is on the stream, and the entries up
      to the last id seen are as many as the reads could deliver. */
  ghost predicate Lived(turns: seq<Turn>, first: seq<Message>, now: seq<Message>, lastId: nat, consumed: nat) {
    && first <= now
    && HoldsFrom(now, |first|, Publications(turns))
    && consumed == Delivered(turns, |first|) <= |now|
    && lastId == LastId(now[..consumed])
  }

  lemma {:induction false} LivedPublished(turns: seq<Turn>, i: nat, first: seq<Message>, was: seq<Message>,
      now: seq<Message>, lastId: nat, consumed: nat)
    requires i < |turns| && turns[i].Published? && Lived(turns[..i], first, was, lastId, consumed)
    requires |now| == |was| + 1 && now[..|was|] == was && now[|was|].values == turns[i].values
    ensures Lived(turns[..i + 1], first, now, lastId, consumed) && now[..consumed] == was[..consumed]
  {
    TurnCounts(turns, i, |first|);
    assert now == was + [now[|was|]];
    HoldsOneMore(was, |first|, Publications(turns[..i]), now[|was|]);
    assert now[..consumed] == was[..consumed];
  }

  lemma {:induction false} LivedIdle(turns: seq<Turn>, i: nat, first: seq<Message>, now: seq<Message>, lastId: nat,
      consumed: nat)
    requires i < |turns| && (turns[i].Timeout? || turns[i].ReadError?) && Lived(turns[..i], first, now, lastId, consumed)
    ensures Lived(turns[..i + 1], first, now, lastId, consumed)
  {
    TurnCounts(turns, i, |first|);
    assert Publications(turns[..i]) + [] == Publications(turns[..i]);
  }

  lemma {:induction false} LivedPolled(turns: seq<Turn>, i: nat, first: seq<Message>, now: seq<Message>, lastId: nat,
      consumed: nat)
    requires i < |turns| && turns[i].Poll? && Lived(turns[..i], first, now, lastId, consumed)
    ensures var next := if consumed < |now| then consumed + 1 else consumed;
      Lived(turns[..i + 1], first, now, LastId(now[..next]), next)
  {
    TurnCounts(turns, i, |first|);
    assert Publications(turns[..i]) + [] == Publications(turns[..i]);
  }

  lemma {:induction false} TurnCounts(turns: seq<Turn>, i: nat, n: nat)
    requires i < |turns|
    ensures Appends(turns[..i + 1]) == Appends(turns[..i]) + if turns[i].Published? then 1 else 0
    ensures Publications(turns[..i + 1]) == Publications(turns[..i]) + if turns[i].Published? then [turns[i].values] else []
    ensures var before := Delivered(turns[..i], n);
      Delivered(turns[..i + 1], n) ==
        if turns[i].Poll? && before < n + Appends(turns[..i]) then before + 1 else before
  {
    assert turns[..i + 1][..i] == turns[..i];
  }

  lemma {:induction false} ConsumeNext(lib: Library, t: Tables, log: seq<Message>, k: nat)
    requires k <= |log|
    ensures k < |log| ==> ConsumeAll(lib, t, log[..k + 1]) == Consume(lib, ConsumeAll(lib, t, log[..k]), log[k].values)
  {
    if k < |log| {
      assert log[..k + 1][..k] == log[..k];
    }
  }

  lemma LastIdSplits(entries: seq<Message>, consumed: nat)
    requires Increasing(entries) && consumed <= |entries|
    ensures forall i :: 0 <= i < |entries| ==> (entries[i].id <= LastId(entries[..consumed]) <==> i < consumed)
  {
    if consumed > 0 {
      assert LastId(entries[..consumed]) == entries[consumed - 1].id;
      forall i | 0 <= i < |entries| ensures entries[i].id <= entries[consumed - 1].id <==> i < consumed {
        if i != consumed - 1 {
          assert i < consumed - 1 ==> entries[i].id < entries[consumed - 1].id;
          assert i > consumed - 1 ==> entries[consumed - 1].id < entries[i].id;
        }
      }
    }
  }

  /** What a read after the last consumed entry finds. */
  lemma ReadIsNext(entries: seq<Message>, consumed: nat, found: Option<Message>)
    requires Increasing(entries) && consumed <= |entries|
    requires found.None? ==> forall i :: 0 <= i < |entries| ==> entries[i].id <= LastId(entries[..consumed])
    requires found.Some? ==> exists k :: FirstAfter(entries, LastId(entries[..consumed]), k) && entries[k] == found.value
    ensures found == if consumed < |entries| then Some(entries[consumed]) else None
  {
    LastIdSplits(entries, consumed);
    if found.Some? {
      var k :| FirstAfter(entries, LastId(entries[..consumed]), k) && entries[k] == found.value;
      assert consumed <= k;
      assert entries[consumed].id > LastId(entries[..consumed]);
    } else {
      assert |entries| > 0 ==> entries[|entries| - 1].id <= LastId(entries[..consumed]);
    }
  }

  /** Nothing is delivered but by reads that reach the stream, at most one entry each. */
  lemma {:induction false} OnlyPollsDeliver(turns: seq<Turn>, n: nat)
    ensures Delivered(turns, n) <= Polls(turns)
  {
    if turns != [] {
      var init, last := turns[..|turns| - 1], turns[|turns| - 1];
      OnlyPollsDeliver(init, n);
      PollsAppend(init, last);
      assert turns == init + [last];
    }
  }

  /** Once publishing stops, as many reads as there are entries deliver all of them. */
  lemma {:induction false} CatchesUp(turns: seq<Turn>, polls: nat, n: nat)
    ensures var all := turns + seq(polls, i => Poll);
      && Appends(all) == Appends(turns)
      && Delivered(turns, n) <= n + Appends(turns)
      && Delivered(all, n) >= Delivered(turns, n)
      && (Delivered(all, n) == n + Appends(turns) || Delivered(all, n) == Delivered(turns, n) + polls)
  {
    var all := turns + seq(polls, i => Poll);
    DeliveredBound(turns, n);
    if polls == 0 {
      assert all == turns;
    } else {
      var prev := turns + seq(polls - 1, i => Poll);
      assert all[..|all| - 1] == prev && all[|all| - 1] == Poll;
      CatchesUp(turns, polls - 1, n);
      DeliveredBound(prev, n);
    }
  }

  lemma {:induction false} DeliveredBound(turns: seq<Turn>, n: nat)
    ensures Delivered(turns, n) <= n + Appends(turns)
  {
    if turns != [] {
      DeliveredBound(turns[..|turns| - 1], n);
    }
  }
}
