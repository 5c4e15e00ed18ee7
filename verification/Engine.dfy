/** Deny-overrides evaluation over a snapshot (internal/engine/engine.go). */
module Engine {
  import opened Policies
  import opened Operators
  import opened Tables

  datatype Reason = ExplicitDeny | MatchedPolicy | NoMatch
  datatype Response = Response(allowed: bool, matchedPolicyId: string, reason: Reason)
  datatype Result<+T> = Ok(value: T) | Err(error: string)

  /** The policy's target is the request's and all its conditions hold. */
  predicate Matches(lib: Library, p: Policy, req: Request) {
    && p.target.resourceType == req.resourceType
    && p.target.action == req.action
    && forall c :: c in p.conditions ==> Satisfied(lib, c, req)
  }

  /** The policies one request matches. */
  function Matcher(lib: Library, req: Request): Policy -> bool {
    p => Matches(lib, p, req)
  }

  // ---------------------------------------------------------------- the code

  function FirstMatching(matches: Policy -> bool, policies: seq<Policy>): Option<Policy> {
    if policies == [] then None
    else if matches(policies[0]) then Some(policies[0])
    else FirstMatching(matches, policies[1..])
  }

  /** Policy `k` has the request's target and all its conditions hold. */
  ghost predicate Applies(lib: Library, policies: seq<Policy>, req: Request, k: int) {
    && 0 <= k < |policies|
    && policies[k].target.resourceType == req.resourceType
    && policies[k].target.action == req.action
    && forall i :: 0 <= i < |policies[k].conditions| ==> Satisfied(lib, policies[k].conditions[i], req)
  }

  /** Policy `k` applies and none before it does. */
  ghost predicate AppliesFirst(lib: Library, policies: seq<Policy>, req: Request, k: int) {
    Applies(lib, policies, req, k) && forall j :: 0 <= j < k ==> !Applies(lib, policies, req, j)
  }

  /** The policy found applies and comes before all others that do; without one, none applies. */
  ghost predicate FoundFirst(lib: Library, policies: seq<Policy>, req: Request, found: Option<Policy>) {
    && (found.None? ==> forall k :: !Applies(lib, policies, req, k))
    && (found.Some? ==> exists k :: AppliesFirst(lib, policies, req, k) && policies[k] == found.value)
  }

  method FirstMatch(lib: Library, policies: seq<Policy>, req: Request) returns (found: Option<Policy>)
    ensures found == FirstMatching(Matcher(lib, req), policies)
    ensures FoundFirst(lib, policies, req, found)
  {
    for i := 0 to |policies|
      invariant FirstMatching(Matcher(lib, req), policies) == FirstMatching(Matcher(lib, req), policies[i..])
    {
      var policy := policies[i];
      if policy.target.resourceType != req.resourceType || policy.target.action != req.action {
        continue;
      }
      var allCondsMet := true;
      for j := 0 to |policy.conditions|
        invariant allCondsMet
        invariant forall k :: 0 <= k < j ==> Satisfied(lib, policy.conditions[k], req)
      {
        var ok := EvaluateCondition(lib, policy.conditions[j], req);
        if !ok {
          assert policy.conditions[j] in policy.conditions;
          allCondsMet := false;
          break;
        }
      }
      if allCondsMet {
        FirstMatchingApplies(lib, policies, req);
        return Some(policy);
      }
    }
    FirstMatchingApplies(lib, policies, req);
    return None;
  }

  function Evaluate(matches: Policy -> bool, snapshot: PolicySnapshot): Response {
    match FirstMatching(matches, snapshot.deny)
    case Some(p) => Response(false, p.id, ExplicitDeny)
    case None =>
      match FirstMatching(matches, snapshot.allow)
      case Some(p) => Response(true, p.id, MatchedPolicy)
      case None => Response(false, "", NoMatch)
  }

  lemma {:induction false} FirstMatchingApplies(lib: Library, policies: seq<Policy>, req: Request)
    ensures FoundFirst(lib, policies, req, FirstMatching(Matcher(lib, req), policies))
  {
    if policies != [] {
      MatchesApplies(lib, policies, req, 0);
      if Matches(lib, policies[0], req) {
        assert AppliesFirst(lib, policies, req, 0);
      } else {
        FirstMatchingApplies(lib, policies[1..], req);
        forall k | Applies(lib, policies, req, k) ensures k > 0 && Applies(lib, policies[1..], req, k - 1) {
        }
        if k :| AppliesFirst(lib, policies[1..], req, k) {
          assert AppliesFirst(lib, policies, req, k + 1);
        }
      }
    }
  }

  lemma MatchesApplies(lib: Library, policies: seq<Policy>, req: Request, k: nat)
    requires k < |policies|
    ensures Matches(lib, policies[k], req) <==> Applies(lib, policies, req, k)
  {
  }

  lemma OneAppliesFirst(lib: Library, policies: seq<Policy>, req: Request, j: int, k: int)
    requires AppliesFirst(lib, policies, req, j) && AppliesFirst(lib, policies, req, k)
    ensures j == k
  {
  }

  /** Deny policies first, then allow policies; in either the first that applies decides. */
  method CheckAccess(lib: Library, listed: Result<PolicySnapshot>, req: Request) returns (r: Result<Response>)
    ensures listed.Err? ==> r.Err?
    ensures listed.Ok? ==> r == Ok(Evaluate(Matcher(lib, req), listed.value))
    ensures listed.Ok? ==> forall k :: AppliesFirst(lib, listed.value.deny, req, k) ==>
      r == Ok(Response(false, listed.value.deny[k].id, ExplicitDeny))
    ensures listed.Ok? && (forall k :: !Applies(lib, listed.value.deny, req, k)) ==>
      && (forall k :: AppliesFirst(lib, listed.value.allow, req, k) ==>
            r == Ok(Response(true, listed.value.allow[k].id, MatchedPolicy)))
      && ((forall k :: !Applies(lib, listed.value.allow, req, k)) ==> r == Ok(Response(false, "", NoMatch)))
  {
    if listed.Err? {
      return Err("failed to list policies: " + listed.error);
    }
    var denied := FirstMatch(lib, listed.value.deny, req);
    if denied.Some? {
      ghost var j :| AppliesFirst(lib, listed.value.deny, req, j) && listed.value.deny[j] == denied.value;
      forall k | AppliesFirst(lib, listed.value.deny, req, k) ensures k == j {
        OneAppliesFirst(lib, listed.value.deny, req, j, k);
      }
      return Ok(Response(false, denied.value.id, ExplicitDeny));
    }
    var allowed := FirstMatch(lib, listed.value.allow, req);
    if allowed.Some? {
      ghost var j :| AppliesFirst(lib, listed.value.allow, req, j) && listed.value.allow[j] == allowed.value;
      forall k | AppliesFirst(lib, listed.value.allow, req, k) ensures k == j {
        OneAppliesFirst(lib, listed.value.allow, req, j, k);
      }
      return Ok(Response(true, allowed.value.id, MatchedPolicy));
    }
    return Ok(Response(false, "", NoMatch));
  }

  // ---------------------------------------------------------------- what a decision means

  ghost predicate AnyMatch(matches: Policy -> bool, m: PolicyMap) {
    exists k :: k in m && matches(m[k])
  }

  /** Deny-overrides over the tables themselves, with no order in sight. */
  ghost function Verdict(matches: Policy -> bool, t: Tables): Reason {
    if AnyMatch(matches, t.deny) then ExplicitDeny
    else if AnyMatch(matches, t.allow) then MatchedPolicy
    else NoMatch
  }

  ghost predicate Allows(matches: Policy -> bool, t: Tables) {
    Verdict(matches, t) == MatchedPolicy
  }

  ghost function DecidingTable(matches: Policy -> bool, t: Tables): PolicyMap {
    if AnyMatch(matches, t.deny) then t.deny else t.allow
  }

  // ---------------------------------------------------------------- properties

  lemma {:induction false} FirstMatchingFinds(matches: Policy -> bool, ps: seq<Policy>)
    ensures FirstMatching(matches, ps).Some? <==> exists p :: p in ps && matches(p)
    ensures FirstMatching(matches, ps).Some? ==>
      FirstMatching(matches, ps).value in ps && matches(FirstMatching(matches, ps).value)
  {
    if ps != [] {
      FirstMatchingFinds(matches, ps[1..]);
      assert ps == [ps[0]] + ps[1..];
    }
  }

  lemma {:induction false} FirstMatchingInTable(matches: Policy -> bool, m: PolicyMap, ps: seq<Policy>)
    requires Flattens(m, ps)
    ensures FirstMatching(matches, ps).Some? <==> AnyMatch(matches, m)
    ensures FirstMatching(matches, ps).Some? ==>
      exists k :: k in m && m[k] == FirstMatching(matches, ps).value && matches(m[k])
  {
    FlattenedPolicies(m, ps);
    FirstMatchingFinds(matches, ps);
    if AnyMatch(matches, m) {
      var k :| k in m && matches(m[k]);
      assert m[k] in ps;
    }
  }

  /** The decision and its reason do not depend on the order the maps yield their policies in. */
  lemma OrderIndependent(matches: Policy -> bool, t: Tables, snapshot: PolicySnapshot)
    requires SnapshotOf(t, snapshot)
    ensures Evaluate(matches, snapshot).reason == Verdict(matches, t)
    ensures Evaluate(matches, snapshot).allowed <==> Allows(matches, t)
    ensures Verdict(matches, t) == NoMatch ==> Evaluate(matches, snapshot).matchedPolicyId == ""
  {
    FirstMatchingInTable(matches, t.allow, snapshot.allow);
    FirstMatchingInTable(matches, t.deny, snapshot.deny);
  }

  lemma ReportedIdMatches(matches: Policy -> bool, t: Tables, s: PolicySnapshot)
    requires Verdict(matches, t) != NoMatch && SnapshotOf(t, s)
    ensures exists k :: Reportable(matches, t, k, Evaluate(matches, s).matchedPolicyId)
  {
    FirstMatchingInTable(matches, t.allow, s.allow);
    FirstMatchingInTable(matches, t.deny, s.deny);
    var table := DecidingTable(matches, t);
    var ps := if AnyMatch(matches, t.deny) then s.deny else s.allow;
    var k :| k in table && table[k] == FirstMatching(matches, ps).value && matches(table[k]);
    assert Reportable(matches, t, k, Evaluate(matches, s).matchedPolicyId);
  }

  lemma MatchIsReported(matches: Policy -> bool, t: Tables, k: string, id: string) returns (s: PolicySnapshot)
    requires Verdict(matches, t) != NoMatch && Reportable(matches, t, k, id)
    ensures SnapshotOf(t, s) && Evaluate(matches, s).matchedPolicyId == id
  {
    if AnyMatch(matches, t.deny) {
      var deny := OrderFrom(t.deny, k);
      var allow := AnyOrder(t.allow);
      s := PolicySnapshot(allow, deny);
    } else {
      var deny := AnyOrder(t.deny);
      var allow := OrderFrom(t.allow, k);
      FirstMatchingInTable(matches, t.deny, deny);
      s := PolicySnapshot(allow, deny);
    }
  }

  /** Entry `k` of the deciding table matches and carries this id. */
  ghost predicate Reportable(matches: Policy -> bool, t: Tables, k: string, id: string) {
    var table := DecidingTable(matches, t);
    k in table && matches(table[k]) && table[k].id == id
  }

  ghost predicate Reported(matches: Policy -> bool, t: Tables, s: PolicySnapshot, id: string) {
    SnapshotOf(t, s) && Evaluate(matches, s).matchedPolicyId == id
  }

  /** Over all orders, the ids a decision may report are exactly the ids of the matching policies
      of the table that decides. */
  lemma ReportedIds(matches: Policy -> bool, t: Tables, id: string)
    requires Verdict(matches, t) != NoMatch
    ensures (exists s :: Reported(matches, t, s, id)) <==> (exists k :: Reportable(matches, t, k, id))
  {
    if s :| Reported(matches, t, s, id) {
      ReportedIdMatches(matches, t, s);
    }
    if k :| Reportable(matches, t, k, id) {
      var s := MatchIsReported(matches, t, k, id);
      assert Reported(matches, t, s, id);
    }
  }

  ghost predicate SubMap(a: PolicyMap, b: PolicyMap) {
    forall k :: k in a ==> k in b && b[k] == a[k]
  }

  /** More allow entries and fewer deny entries never turn an allow into anything else. */
  lemma AllowMonotone(matches: Policy -> bool, t: Tables, u: Tables)
    requires SubMap(t.allow, u.allow) && SubMap(u.deny, t.deny)
    ensures Allows(matches, t) ==> Allows(matches, u)
  {
    if Allows(matches, t) {
      var k :| k in t.allow && matches(t.allow[k]);
      assert k in u.allow && matches(u.allow[k]);
    }
  }
}
