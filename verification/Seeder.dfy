/** Seeding the stream from policy files (seedPolicies in examples/httpbin/pep/main.go, Publish in
    internal/subscriber/publish.go). */
module Seeder {
  import opened Policies
  import opened Tables
  import opened Subscriber
  import opened StreamMeaning

  datatype PolicyFile = PolicyFile(id: string, json: string)

  /** The attempt's first failing publish: which file, and whether the entry was stored all the same
      (an error may arrive after the stream has taken the entry). */
  datatype Fault = Fault(at: nat, stored: bool)

  const INITIAL_BACKOFF := 500
  const MAX_BACKOFF := 5000

  /** The fields Publish sends; an empty document is left out. */
  function EntryFields(action: string, policyId: string, policyJson: string): Fields {
    var fields := map["action" := Text(action), "policy_id" := Text(policyId)];
    if policyJson != "" then fields["policy_json" := Text(policyJson)] else fields
  }

  function FileFields(f: PolicyFile): Fields {
    EntryFields(ACTION_UPSERT, f.id, f.json)
  }

  function AllFields(files: seq<PolicyFile>): (r: seq<Fields>)
    ensures |r| == |files| && forall i :: 0 <= i < |files| ==> r[i] == FileFields(files[i])
  {
    seq(|files|, i requires 0 <= i < |files| => FileFields(files[i]))
  }

  function ValuesOf(log: seq<Message>): (r: seq<Fields>)
    ensures |r| == |log| && forall i :: 0 <= i < |log| ==> r[i] == log[i].values
  {
    seq(|log|, i requires 0 <= i < |log| => log[i].values)
  }

  /** How many files a failed attempt got onto the stream. */
  function Reached(fault: Fault): nat {
    fault.at + if fault.stored then 1 else 0
  }

  /** Every fault hits one of the files. */
  predicate FaultsWithin(files: seq<PolicyFile>, faults: seq<Fault>) {
    forall k :: 0 <= k < |faults| ==> faults[k].at < |files|
  }

  /** What the failed attempts left on the stream: a prefix of the files each. */
  function Debris(files: seq<PolicyFile>, faults: seq<Fault>): seq<Fields>
    requires FaultsWithin(files, faults)
  {
    if faults == [] then []
    else Debris(files, faults[..|faults| - 1]) + AllFields(files[..Reached(faults[|faults| - 1])])
  }

  function Min(a: nat, b: nat): nat {
    if a < b then a else b
  }

  function Pow2(n: nat): nat {
    if n == 0 then 1 else 2 * Pow2(n - 1)
  }

  /** The wait after `n` earlier failures, in milliseconds. */
  function Backoff(n: nat): nat {
    Min(INITIAL_BACKOFF * Pow2(n), MAX_BACKOFF)
  }

  function Backoffs(n: nat): (r: seq<nat>)
    ensures |r| == n && forall i :: 0 <= i < n ==> r[i] == Backoff(i)
  {
    if n == 0 then [] else Backoffs(n - 1) + [Backoff(n - 1)]
  }

  /** What the network makes of one publish: an error may arrive after the stream has taken the entry. */
  datatype Delivery = Acknowledged | StoredWithError | Refused

  /** The entry's fields are the three given texts under the names the subscriber reads, the last only if it
      is not empty, and there are no others. */
  ghost predicate Carries(values: Fields, action: string, policyId: string, policyJson: string) {
    && values.Keys == {"action", "policy_id"} + (if policyJson == "" then {} else {"policy_json"})
    && HasText(values, "action", action)
    && HasText(values, "policy_id", policyId)
    && (policyJson != "" ==> HasText(values, "policy_json", policyJson))
  }

  lemma EntryCarries(action: string, policyId: string, policyJson: string)
    ensures Carries(EntryFields(action, policyId, policyJson), action, policyId, policyJson)
  {
    assert |"action"| != |"policy_id"| && |"action"| != |"policy_json"| && |"policy_id"| != |"policy_json"|;
  }

  /** Appends one entry; fails when the stream does not acknowledge it. */
  method Publish(stream: RedisStream, action: string, policyId: string, policyJson: string, delivery: Delivery)
      returns (failed: bool)
    requires stream.Valid()
    modifies stream
    ensures stream.Valid() && old(stream.entries) <= stream.entries
    ensures failed <==> !delivery.Acknowledged?
    ensures ValuesOf(stream.entries) ==
      ValuesOf(old(stream.entries)) + if delivery.Refused? then [] else [EntryFields(action, policyId, policyJson)]
    ensures delivery.Refused? ==> stream.entries == old(stream.entries)
    ensures !delivery.Refused? ==>
      && |stream.entries| == |old(stream.entries)| + 1
      && Carries(stream.entries[|old(stream.entries)|].values, action, policyId, policyJson)
  {
    EntryCarries(action, policyId, policyJson);
    if !delivery.Refused? {
      stream.XAdd(EntryFields(action, policyId, policyJson), 0);
    }
    return !delivery.Acknowledged?;
  }

  /** What the fault, if it hits file `i`, makes of its publish. */
  function DeliveryOf(fault: Option<Fault>, i: nat): Delivery {
    if fault.None? || fault.value.at != i then Acknowledged
    else if fault.value.stored then StoredWithError
    else Refused
  }

  /** From entry `n` on the stream has upserts with the ids and documents of the first `k` files, in order. */
  ghost predicate Sends(entries: seq<Message>, n: nat, files: seq<PolicyFile>, k: int) {
    && 0 <= k <= |files| && n + k <= |entries|
    && forall i :: 0 <= i < k ==> Carries(entries[n + i].values, "UPSERT", files[i].id, files[i].json)
  }

  /** An attempt sends all files, or those before the fault and perhaps the one it hits. */
  ghost predicate Attempted(entries: seq<Message>, n: nat, files: seq<PolicyFile>, fault: Option<Fault>) {
    var sent := |entries| - n;
    && sent == (if fault.None? then |files| else if fault.value.stored then fault.value.at + 1 else fault.value.at)
    && Sends(entries, n, files, sent)
  }

  /** The last entries are the files, all and in order. */
  ghost predicate EndsWith(entries: seq<Message>, files: seq<PolicyFile>) {
    |files| <= |entries| && Sends(entries, |entries| - |files|, files, |files|)
  }

  lemma AllSent(entries: seq<Message>, n: nat, files: seq<PolicyFile>)
    requires files == [] || Attempted(entries, n, files, None)
    ensures EndsWith(entries, files)
  {
  }

  lemma FilesSent(files: seq<PolicyFile>)
    ensures forall i :: 0 <= i < |files| ==> Carries(AllFields(files)[i], "UPSERT", files[i].id, files[i].json)
  {
    forall i | 0 <= i < |files| ensures Carries(AllFields(files)[i], "UPSERT", files[i].id, files[i].json) {
      EntryCarries("UPSERT", files[i].id, files[i].json);
    }
  }

  /** Entries with the fields of these files send the files. */
  lemma {:induction false} ValuesSend(now: seq<Message>, was: seq<Message>, files: seq<PolicyFile>, fault: Option<Fault>)
    requires fault.Some? ==> fault.value.at < |files|
    requires ValuesOf(now) == ValuesOf(was) + AllFields(if fault.Some? then files[..Reached(fault.value)] else files)
    ensures Attempted(now, |was|, files, fault)
  {
    var sent := if fault.Some? then files[..Reached(fault.value)] else files;
    FilesSent(sent);
    assert |now| == |was| + |sent|;
    forall i | 0 <= i < |sent| ensures now[|was| + i].values == AllFields(sent)[i] {
      assert ValuesOf(now)[|was| + i] == AllFields(sent)[i];
    }
  }

  /** One attempt: publishes the files in order and stops at the first failure. */
  method PublishFiles(stream: RedisStream, files: seq<PolicyFile>, fault: Option<Fault>) returns (failed: bool)
    requires stream.Valid()
    requires fault.Some? ==> fault.value.at < |files|
    modifies stream
    ensures stream.Valid() && old(stream.entries) <= stream.entries
    ensures failed <==> fault.Some?
    ensures ValuesOf(stream.entries) ==
      ValuesOf(old(stream.entries)) + AllFields(if failed then files[..Reached(fault.value)] else files)
    ensures Attempted(stream.entries, |old(stream.entries)|, files, fault)
  {
    for i := 0 to |files|
      invariant stream.Valid() && old(stream.entries) <= stream.entries
      invariant fault.Some? ==> i <= fault.value.at
      invariant ValuesOf(stream.entries) == ValuesOf(old(stream.entries)) + AllFields(files[..i])
    {
      OneMoreFile(files, i);
      var err := Publish(stream, ACTION_UPSERT, files[i].id, files[i].json, DeliveryOf(fault, i));
      if err {
        ValuesSend(stream.entries, old(stream.entries), files, fault);
        return true;
      }
    }
    assert files[..|files|] == files;
    ValuesSend(stream.entries, old(stream.entries), files, fault);
    return false;
  }

  lemma OneMoreFile(files: seq<PolicyFile>, i: nat)
    requires i < |files|
    ensures AllFields(files[..i + 1]) == AllFields(files[..i]) + [EntryFields(ACTION_UPSERT, files[i].id, files[i].json)]
  {
  }

  /** The stream holds what was there and the debris of `k` failed attempts. */
  ghost predicate Seeded(now: seq<Fields>, was: seq<Fields>, files: seq<PolicyFile>, faults: seq<Fault>, k: nat)
    requires k <= |faults| && FaultsWithin(files, faults)
  {
    now == was + Debris(files, faults[..k])
  }

  lemma {:induction false} MoreDebris(now: seq<Fields>, was: seq<Fields>, files: seq<PolicyFile>, faults: seq<Fault>,
      k: nat)
    requires k < |faults| && FaultsWithin(files, faults) && Seeded(now, was, files, faults, k)
    ensures Seeded(now + AllFields(files[..Reached(faults[k])]), was, files, faults, k + 1)
  {
    assert faults[..k + 1][..k] == faults[..k];
    var d, f := Debris(files, faults[..k]), AllFields(files[..Reached(faults[k])]);
    assert Debris(files, faults[..k + 1]) == d + f;
    assert (was + d) + f == was + (d + f);
  }

  lemma {:induction false} AllSeeded(now: seq<Fields>, was: seq<Fields>, files: seq<PolicyFile>, faults: seq<Fault>)
    requires FaultsWithin(files, faults) && Seeded(now, was, files, faults, |faults|)
    ensures now == was + Debris(files, faults)
  {
    assert faults[..|faults|] == faults;
  }

  lemma BackoffDoubles(n: nat)
    ensures Min(Backoff(n) * 2, MAX_BACKOFF) == Backoff(n + 1)
  {
  }

  /** The waits start at half a second and double up to five. */
  ghost predicate Doubling(sleeps: seq<nat>) {
    && (sleeps != [] ==> sleeps[0] == 500)
    && forall i :: 0 < i < |sleeps| ==> sleeps[i] == if 2 * sleeps[i - 1] < 5000 then 2 * sleeps[i - 1] else 5000
  }

  lemma {:induction false} BackoffsDouble(n: nat)
    ensures Doubling(Backoffs(n))
  {
    forall i | 0 < i < n ensures Backoff(i) == Min(Backoff(i - 1) * 2, MAX_BACKOFF) {
      BackoffDoubles(i - 1);
    }
  }

  /** Publishes every file, starting over after each failure and waiting in between. `faults` are the
      failures the network deals out, one per failed attempt; `sleeps` reports the waits in ms. */
  method SeedPolicies(stream: RedisStream, files: seq<PolicyFile>, faults: seq<Fault>) returns (sleeps: seq<nat>)
    requires stream.Valid()
    requires FaultsWithin(files, faults)
    modifies stream
    ensures stream.Valid() && old(stream.entries) <= stream.entries
    ensures ValuesOf(stream.entries) == ValuesOf(old(stream.entries)) + Debris(files, faults) + AllFields(files)
    ensures EndsWith(stream.entries, files)
    ensures sleeps == Backoffs(|faults|)
    ensures |sleeps| == |faults| && Doubling(sleeps)
  {
    BackoffsDouble(|faults|);
    sleeps := [];
    if |files| == 0 {
      AllSent(stream.entries, 0, files);
      return;
    }
    ghost var was := ValuesOf(stream.entries);
    var backoff := INITIAL_BACKOFF;
    var attempt := 0;
    while true
      invariant stream.Valid() && old(stream.entries) <= stream.entries
      invariant 0 <= attempt <= |faults|
      invariant Seeded(ValuesOf(stream.entries), was, files, faults, attempt)
      invariant backoff == Backoff(attempt) && sleeps == Backoffs(attempt)
      decreases |faults| - attempt
    {
      ghost var before := ValuesOf(stream.entries);
      var fault := if attempt < |faults| then Some(faults[attempt]) else None;
      var failed := PublishFiles(stream, files, fault);
      if !failed {
        AllSent(stream.entries, |before|, files);
        AllSeeded(before, was, files, faults);
        return;
      }
      MoreDebris(before, was, files, faults, attempt);
      BackoffDoubles(attempt);
      sleeps := sleeps + [backoff];
      backoff := Min(backoff * 2, MAX_BACKOFF);
      attempt := attempt + 1;
    }
  }

  // ---------------------------------------------------------------- at least once is exactly once

  /** The store after the entries with these fields. */
  function ConsumeFields(lib: Library, t: Tables, fields: seq<Fields>): Tables {
    if fields == [] then t else Consume(lib, ConsumeFields(lib, t, fields[..|fields| - 1]), fields[|fields| - 1])
  }

  lemma {:induction false} FieldsDecide(lib: Library, t: Tables, log: seq<Message>)
    ensures ConsumeAll(lib, t, log) == ConsumeFields(lib, t, ValuesOf(log))
  {
    if log != [] {
      assert ValuesOf(log)[..|log| - 1] == ValuesOf(log[..|log| - 1]);
      FieldsDecide(lib, t, log[..|log| - 1]);
    }
  }

  function AsLog(fields: seq<Fields>): (log: seq<Message>)
    ensures |log| == |fields| && ValuesOf(log) == fields
    ensures forall i :: 0 <= i < |fields| ==> log[i] == Message(0, fields[i])
  {
    seq(|fields|, i requires 0 <= i < |fields| => Message(0, fields[i]))
  }

  lemma {:induction false} DebrisFromFiles(files: seq<PolicyFile>, faults: seq<Fault>)
    requires FaultsWithin(files, faults)
    ensures forall f :: f in Debris(files, faults) ==> f in AllFields(files)
  {
    if faults != [] {
      var init, last := faults[..|faults| - 1], faults[|faults| - 1];
      DebrisFromFiles(files, init);
      var part := AllFields(files[..Reached(last)]);
      forall f | f in part ensures f in AllFields(files) {
        var i :| 0 <= i < |part| && part[i] == f;
        assert AllFields(files)[i] == f;
      }
    }
  }

  lemma AsLogMembers(a: seq<Fields>, b: seq<Fields>)
    requires forall f :: f in a ==> f in b
    ensures forall m :: m in AsLog(a) ==> m in AsLog(b)
  {
    forall m | m in AsLog(a) ensures m in AsLog(b) {
      var i :| 0 <= i < |a| && AsLog(a)[i] == m;
      assert a[i] in b;
      var j :| 0 <= j < |b| && b[j] == a[i];
      assert AsLog(b)[j] == m;
    }
  }

  lemma SameValuesAs(before: seq<Message>, after: seq<Message>, debris: seq<Message>, clean: seq<Message>)
    requires ValuesOf(after) == ValuesOf(before) + ValuesOf(debris) + ValuesOf(clean)
    ensures ValuesOf(after) == ValuesOf(before + (debris + clean))
  {
  }

  /** However often seeding failed half-way before it got through, a store that consumes all of it ends
      where one clean pass would have taken it, whatever it held before. */
  lemma {:induction false} SeedingConverges(lib: Library, t: Tables, files: seq<PolicyFile>, faults: seq<Fault>,
      before: seq<Message>, after: seq<Message>)
    requires FaultsWithin(files, faults)
    requires before <= after
    requires ValuesOf(after) == ValuesOf(before) + Debris(files, faults) + AllFields(files)
    ensures ConsumeAll(lib, t, after) == ConsumeFields(lib, ConsumeAll(lib, t, before), AllFields(files))
  {
    var u := ConsumeAll(lib, t, before);
    var debris, clean := AsLog(Debris(files, faults)), AsLog(AllFields(files));
    SameValuesAs(before, after, debris, clean);
    FieldsDecide(lib, t, after);
    FieldsDecide(lib, t, before + (debris + clean));
    ConsumeConcat(lib, t, before, debris + clean);
    ConsumeConcat(lib, u, debris, clean);
    DebrisFromFiles(files, faults);
    AsLogMembers(Debris(files, faults), AllFields(files));
    Repeat(lib, u, debris, clean);
    FieldsDecide(lib, u, clean);
  }

  // ---------------------------------------------------------------- from the files to the tables

  /** A file whose document the subscriber lets in. */
  ghost predicate GoodFile(lib: Library, f: PolicyFile) {
    f.json != "" && GoodDocument(lib, f.json)
  }

  /** File `i` is good and no good file after it holds a document of the same id. */
  ghost predicate LastOfItsId(lib: Library, files: seq<PolicyFile>, i: int) {
    && 0 <= i < |files|
    && GoodFile(lib, files[i])
    && forall j :: i < j < |files| && GoodFile(lib, files[j]) ==>
         lib.unmarshal(files[j].json).value.id != lib.unmarshal(files[i].json).value.id
  }

  /** A published file files its document, and nothing if it is not good. */
  lemma FileApplies(lib: Library, t: Tables, f: PolicyFile)
    ensures GoodFile(lib, f) ==> Filed(t, Consume(lib, t, FileFields(f)), lib.unmarshal(f.json).value)
    ensures !GoodFile(lib, f) ==> Consume(lib, t, FileFields(f)) == t
  {
    var values := FileFields(f);
    EntryCarries("UPSERT", f.id, f.json);
    ConsumeMeans(lib, t, values);
    if GoodFile(lib, f) {
      assert AcceptedUpsert(lib, values, f.id, f.json);
    } else {
      assert Rejected(lib, values);
    }
  }

  lemma OthersHold(t: Tables, now: Tables, document: Policy, other: Policy)
    requires Filed(t, now, document) && Holds(t, other) && document.id != other.id
    ensures Holds(now, other)
  {
    assert other.id in now.allow <==> other.id in now.allow - {document.id};
    assert other.id in now.deny <==> other.id in now.deny - {document.id};
    assert other.id in t.allow <==> other.id in t.allow - {document.id};
    assert other.id in t.deny <==> other.id in t.deny - {document.id};
    if other.id in now.allow {
      assert now.allow[other.id] == (now.allow - {document.id})[other.id] == (t.allow - {document.id})[other.id];
    }
    if other.id in now.deny {
      assert now.deny[other.id] == (now.deny - {document.id})[other.id] == (t.deny - {document.id})[other.id];
    }
  }

  lemma {:induction false} OneMoreFiled(lib: Library, t: Tables, files: seq<PolicyFile>)
    requires files != []
    ensures ConsumeFields(lib, t, AllFields(files)) ==
      Consume(lib, ConsumeFields(lib, t, AllFields(files[..|files| - 1])), FileFields(files[|files| - 1]))
  {
    assert AllFields(files)[..|files| - 1] == AllFields(files[..|files| - 1]);
  }

  lemma {:induction false} CleanPassHolds(lib: Library, t: Tables, files: seq<PolicyFile>, i: nat)
    requires LastOfItsId(lib, files, i)
    ensures Holds(ConsumeFields(lib, t, AllFields(files)), lib.unmarshal(files[i].json).value)
  {
    var init, last := files[..|files| - 1], files[|files| - 1];
    var before := ConsumeFields(lib, t, AllFields(init));
    OneMoreFiled(lib, t, files);
    FileApplies(lib, before, last);
    if i < |init| {
      assert LastOfItsId(lib, init, i);
      CleanPassHolds(lib, t, init, i);
      if GoodFile(lib, last) {
        OthersHold(before, Consume(lib, before, FileFields(last)), lib.unmarshal(last.json).value,
          lib.unmarshal(files[i].json).value);
      }
    }
  }

  /** Every file that has the last word on its document's id is in the tables. */
  ghost predicate AllHold(lib: Library, files: seq<PolicyFile>, t: Tables) {
    forall i :: LastOfItsId(lib, files, i) ==> Holds(t, lib.unmarshal(files[i].json).value)
  }

  lemma {:induction false} SeededHolds(lib: Library, t: Tables, files: seq<PolicyFile>, faults: seq<Fault>,
      before: seq<Message>, after: seq<Message>)
    requires FaultsWithin(files, faults)
    requires before <= after
    requires ValuesOf(after) == ValuesOf(before) + Debris(files, faults) + AllFields(files)
    ensures AllHold(lib, files, ConsumeAll(lib, t, after))
  {
    SeedingConverges(lib, t, files, faults, before, after);
    forall i | LastOfItsId(lib, files, i)
      ensures Holds(ConsumeAll(lib, t, after), lib.unmarshal(files[i].json).value)
    {
      CleanPassHolds(lib, ConsumeAll(lib, t, before), files, i);
    }
  }

  /** Seeding, then the subscriber: once it has read all there is, whatever failed on the way and whatever
      stream and store held before, the store has the last good document of each id in the table of its
      mode, and only there. */
  method SeedThenFollow(subscriber: PolicyUpdateSubscriber, files: seq<PolicyFile>, faults: seq<Fault>, polls: nat)
    requires subscriber.store.Valid() && subscriber.stream.Valid()
    requires FaultsWithin(files, faults)
    modifies subscriber.store, subscriber.stream
    ensures subscriber.store.Valid() && subscriber.stream.Valid()
    ensures polls >= |subscriber.stream.entries| ==>
      AllHold(subscriber.lib, files, subscriber.store.Contents())
  {
    ghost var lib, t, was := subscriber.lib, subscriber.store.Contents(), subscriber.stream.entries;
    var _ := SeedPolicies(subscriber.stream, files, faults);
    ghost var seeded := subscriber.stream.entries;
    var turns := seq(polls, i => Poll);
    AllPolls(polls, |seeded|);
    var _, consumed := subscriber.Start(turns);
    assert subscriber.stream.entries == seeded;
    if polls >= |seeded| {
      assert seeded[..consumed] == seeded;
      SeededHolds(lib, t, files, faults, was, seeded);
    }
  }

  /** Nothing but reads: no publishing, no cancellation, and one entry a read while there are any. */
  lemma AllPolls(polls: nat, n: nat)
    ensures var turns := seq(polls, i => Poll);
      Live(turns) == turns && Appends(turns) == 0 && (polls >= n ==> Delivered(turns, n) == n)
  {
    var turns := seq(polls, i => Poll);
    LiveUntil(turns, polls);
    CatchesUp([], polls, n);
    assert [] + turns == turns && turns[..polls] == turns;
    DeliveredBound(turns, n);
  }
}
