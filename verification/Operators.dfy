/** Condition operators (internal/engine/operators.go). */
module Operators {
  import opened Lists
  import opened Policies

  datatype Request = Request(
    principalId: string,
    principalAttributes: map<string, seq<string>>,
    resourceType: string,
    resourceId: string,
    resourceAttributes: map<string, seq<string>>,
    action: string,
    environmentAttributes: map<string, seq<string>>)

  // ---------------------------------------------------------------- meanings

  predicate Included(cond: seq<string>, req: seq<string>) {
    forall v :: v in cond ==> v in req
  }

  predicate Shared(cond: seq<string>, req: seq<string>) {
    exists v :: v in cond && v in req
  }

  predicate SameValues(cond: seq<string>, req: seq<string>) {
    multiset(cond) == multiset(req)
  }

  predicate ContainsAll(cond: seq<string>, req: seq<string>) {
    |cond| <= |req| && Included(cond, req)
  }

  predicate ContainsAny(cond: seq<string>, req: seq<string>) {
    cond == [] || Shared(cond, req)
  }

  predicate InCidr(lib: Library, cond: seq<string>, req: seq<string>) {
    && |req| == 1
    && lib.addrOk(req[0])
    && exists c :: c in cond && lib.prefixOk(c) && lib.prefixContains(c, req[0])
  }

  predicate Between(lib: Library, cond: seq<string>, req: seq<string>) {
    && |cond| == 2 && |req| == 1
    && lib.atoi(cond[0]).Some? && lib.atoi(cond[1]).Some? && lib.atoi(req[0]).Some?
    && lib.atoi(cond[0]).value <= lib.atoi(req[0]).value <= lib.atoi(cond[1]).value
  }

  predicate AnyMatches(lib: Library, re: Regexp, req: seq<string>) {
    exists v :: v in req && lib.regexMatch(re, v)
  }

  // ---------------------------------------------------------------- the code

  function Count(counts: map<string, int>, v: string): int {
    if v in counts then counts[v] else 0
  }

  method EvalEquals(condValues: seq<string>, requestValues: seq<string>) returns (ok: bool)
    ensures ok <==> SameValues(condValues, requestValues)
  {
    if |condValues| != |requestValues| {
      assert |multiset(condValues)| != |multiset(requestValues)|;
      return false;
    }
    var counts := FrequencyMap(condValues);
    ghost var left := multiset(condValues);
    for i := 0 to |requestValues|
      invariant Counts(counts, left)
      invariant multiset(condValues) == left + multiset(requestValues[..i])
    {
      var value := requestValues[i];
      TakeOne(requestValues, i);
      counts := counts[value := Count(counts, value) - 1];
      if counts[value] < 0 {
        PrefixCount(requestValues, i + 1, value);
        assert multiset(requestValues)[value] > multiset(condValues)[value];
        return false;
      }
      left := left - multiset{value};
    }
    assert requestValues[..|requestValues|] == requestValues;
    SameSizeSubset(multiset(requestValues), multiset(condValues));
    return true;
  }

  /** How often each value occurs. */
  method FrequencyMap(values: seq<string>) returns (counts: map<string, int>)
    ensures Counts(counts, multiset(values))
  {
    counts := map[];
    for i := 0 to |values|
      invariant Counts(counts, multiset(values[..i]))
    {
      TakeOne(values, i);
      counts := counts[values[i] := Count(counts, values[i]) + 1];
    }
    assert values[..|values|] == values;
  }

  ghost predicate Counts(counts: map<string, int>, bag: multiset<string>) {
    forall v :: Count(counts, v) == bag[v]
  }

  lemma TakeOne(s: seq<string>, i: nat)
    requires i < |s|
    ensures multiset(s[..i + 1]) == multiset(s[..i]) + multiset{s[i]}
  {
    assert s[..i + 1] == s[..i] + [s[i]];
  }

  lemma PrefixCount(s: seq<string>, i: nat, v: string)
    requires i <= |s|
    ensures multiset(s[..i])[v] <= multiset(s)[v]
  {
    assert s == s[..i] + s[i..];
  }

  method EvalContainsAll(condValues: seq<string>, requestValues: seq<string>) returns (ok: bool)
    ensures ok <==> ContainsAll(condValues, requestValues)
  {
    if |condValues| == 0 {
      return true;
    }
    if |condValues| > |requestValues| {
      return false;
    }
    var reqMap := ValueMap(requestValues);
    for i := 0 to |condValues|
      invariant forall j :: 0 <= j < i ==> condValues[j] in requestValues
    {
      if condValues[i] !in reqMap {
        return false;
      }
    }
    return true;
  }

  method EvalContainsAny(condValues: seq<string>, requestValues: seq<string>) returns (ok: bool)
    ensures ok <==> ContainsAny(condValues, requestValues)
  {
    if |condValues| == 0 {
      return true;
    }
    if |requestValues| == 0 {
      return false;
    }
    var reqMap := ValueMap(requestValues);
    for i := 0 to |condValues|
      invariant forall j :: 0 <= j < i ==> condValues[j] !in requestValues
    {
      if condValues[i] in reqMap {
        return true;
      }
    }
    return false;
  }

  /** The set of request values, as the map both membership operators fill in. */
  method ValueMap(values: seq<string>) returns (m: map<string, bool>)
    ensures forall v :: v in m <==> v in values
    ensures forall v :: v in m ==> m[v]
  {
    m := map[];
    for i := 0 to |values|
      invariant forall v :: v in m <==> v in values[..i]
      invariant forall v :: v in m ==> m[v]
    {
      m := m[values[i] := true];
    }
  }

  method EvalInCidr(lib: Library, condValues: seq<string>, requestValues: seq<string>) returns (ok: bool)
    ensures ok <==> InCidr(lib, condValues, requestValues)
  {
    if |condValues| == 0 || |requestValues| != 1 {
      return false;
    }
    if !lib.addrOk(requestValues[0]) {
      return false;
    }
    for i := 0 to |condValues|
      invariant forall j :: 0 <= j < i ==>
        !(lib.prefixOk(condValues[j]) && lib.prefixContains(condValues[j], requestValues[0]))
    {
      if !lib.prefixOk(condValues[i]) {
        continue;
      }
      if lib.prefixContains(condValues[i], requestValues[0]) {
        return true;
      }
    }
    return false;
  }

  method EvalBetween(lib: Library, condValue: seq<string>, requestValue: seq<string>) returns (ok: bool)
    ensures ok <==> Between(lib, condValue, requestValue)
  {
    if |condValue| != 2 || |requestValue| != 1 {
      return false;
    }
    var lowVal := lib.atoi(condValue[0]);
    if lowVal.None? {
      return false;
    }
    var highVal := lib.atoi(condValue[1]);
    if highVal.None? {
      return false;
    }
    var val := lib.atoi(requestValue[0]);
    if val.None? {
      return false;
    }
    return lowVal.value <= val.value && highVal.value >= val.value;
  }

  method EvalRegex(lib: Library, compiledRegex: Option<Regexp>, requestValues: seq<string>) returns (ok: bool)
    ensures ok <==> compiledRegex.Some? && AnyMatches(lib, compiledRegex.value, requestValues)
  {
    if compiledRegex.None? || |requestValues| == 0 {
      return false;
    }
    for i := 0 to |requestValues|
      invariant forall j :: 0 <= j < i ==> !lib.regexMatch(compiledRegex.value, requestValues[j])
    {
      if lib.regexMatch(compiledRegex.value, requestValues[i]) {
        return true;
      }
    }
    return false;
  }

  /** strings.Cut(s, "."): the text before and after the first dot. */
  function Cut(s: string): (r: Option<(string, string)>)
    ensures r.None? <==> '.' !in s
    ensures r.Some? ==> s == r.value.0 + "." + r.value.1 && '.' !in r.value.0
  {
    if s == "" then None
    else if s[0] == '.' then Some(("", s[1..]))
    else
      match Cut(s[1..])
      case None => None
      case Some((before, after)) => Some(([s[0]] + before, after))
  }

  /** The request values a condition's attribute names; None when the prefix or key is unknown. */
  function RequestValues(attribute: string, req: Request): Option<seq<string>> {
    match Cut(attribute)
    case None => None
    case Some((prefix, key)) =>
      if prefix == "principal" then Lookup(req.principalAttributes, key)
      else if prefix == "resource" then Lookup(req.resourceAttributes, key)
      else if prefix == "environment" then Lookup(req.environmentAttributes, key)
      else None
  }

  function Lookup(attributes: map<string, seq<string>>, key: string): Option<seq<string>> {
    if key in attributes then Some(attributes[key]) else None
  }

  /** What an operator says of the condition's and the request's values. */
  predicate Compares(lib: Library, cond: Condition, values: seq<string>) {
    if cond.operator == "EQUALS" then SameValues(cond.value, values)
    else if cond.operator == "CONTAINS_ALL" then ContainsAll(cond.value, values)
    else if cond.operator == "CONTAINS_ANY" then ContainsAny(cond.value, values)
    else if cond.operator == "IN_CIDR" then InCidr(lib, cond.value, values)
    else if cond.operator == "BETWEEN" then Between(lib, cond.value, values)
    else if cond.operator == "REGEX" then cond.compiledRegex.Some? && AnyMatches(lib, cond.compiledRegex.value, values)
    else false
  }

  /** What a condition means for a request. */
  predicate Satisfied(lib: Library, cond: Condition, req: Request) {
    match RequestValues(cond.attribute, req)
    case None => false
    case Some(values) => Compares(lib, cond, values)
  }

  /** The condition's operator relates its values to the request's, spelled out. */
  ghost predicate Related(lib: Library, cond: Condition, values: seq<string>) {
    match cond.operator
    case "EQUALS" => multiset(cond.value) == multiset(values)
    case "CONTAINS_ALL" => |cond.value| <= |values| && forall v :: v in cond.value ==> v in values
    case "CONTAINS_ANY" => cond.value == [] || exists v :: v in cond.value && v in values
    case "IN_CIDR" =>
      && |values| == 1 && lib.addrOk(values[0])
      && exists c :: c in cond.value && lib.prefixOk(c) && lib.prefixContains(c, values[0])
    case "BETWEEN" =>
      && |cond.value| == 2 && |values| == 1
      && lib.atoi(cond.value[0]).Some? && lib.atoi(cond.value[1]).Some? && lib.atoi(values[0]).Some?
      && lib.atoi(cond.value[0]).value <= lib.atoi(values[0]).value <= lib.atoi(cond.value[1]).value
    case "REGEX" =>
      && cond.compiledRegex.Some?
      && exists v :: v in values && lib.regexMatch(cond.compiledRegex.value, v)
    case _ => false
  }

  /** These attributes have the key, with values the condition's operator relates to. */
  ghost predicate Meets(lib: Library, cond: Condition, attributes: map<string, seq<string>>, key: string) {
    key in attributes && Related(lib, cond, attributes[key])
  }

  /** The attribute's prefix says which of the request's three maps is asked, the rest of it for which
      key. */
  method EvaluateCondition(lib: Library, cond: Condition, req: Request) returns (ok: bool)
    ensures ok <==> Satisfied(lib, cond, req)
    ensures forall key :: cond.attribute == "principal." + key ==>
      (ok <==> Meets(lib, cond, req.principalAttributes, key))
    ensures forall key :: cond.attribute == "resource." + key ==>
      (ok <==> Meets(lib, cond, req.resourceAttributes, key))
    ensures forall key :: cond.attribute == "environment." + key ==>
      (ok <==> Meets(lib, cond, req.environmentAttributes, key))
    ensures (forall key ::
        && cond.attribute != "principal." + key
        && cond.attribute != "resource." + key
        && cond.attribute != "environment." + key)
      ==> !ok
  {
    PrefixesSelect(cond.attribute, req);
    var found := RequestValues(cond.attribute, req);
    if found.None? {
      return false;
    }
    ComparesIsRelated(lib, cond, found.value);
    match cond.operator
    case "EQUALS" => ok := EvalEquals(cond.value, found.value);
    case "CONTAINS_ALL" => ok := EvalContainsAll(cond.value, found.value);
    case "CONTAINS_ANY" => ok := EvalContainsAny(cond.value, found.value);
    case "IN_CIDR" => ok := EvalInCidr(lib, cond.value, found.value);
    case "BETWEEN" => ok := EvalBetween(lib, cond.value, found.value);
    case "REGEX" => ok := EvalRegex(lib, cond.compiledRegex, found.value);
    case _ => ok := false;
  }

  // ---------------------------------------------------------------- properties

  /** A text that starts with a dotless prefix and a dot is cut right there. */
  lemma {:induction false} CutAt(s: string, prefix: string)
    requires '.' !in prefix
    ensures prefix + "." <= s <==> Cut(s).Some? && Cut(s).value.0 == prefix
    ensures prefix + "." <= s ==> Cut(s).value.1 == s[|prefix| + 1..]
  {
    if prefix + "." <= s {
      assert s[|prefix|] == '.';
      var before, after := Cut(s).value.0, Cut(s).value.1;
      assert before <= s && s[|before|] == '.';
      assert forall i :: 0 <= i < |before| ==> s[i] == before[i] != '.';
      assert forall i :: 0 <= i < |prefix| ==> s[i] == prefix[i] != '.';
      assert before == s[..|prefix|] == prefix;
      assert s[|prefix| + 1..] == after;
    }
  }

  lemma ComparesIsRelated(lib: Library, cond: Condition, values: seq<string>)
    ensures Compares(lib, cond, values) <==> Related(lib, cond, values)
  {
  }

  lemma {:induction false} PrefixSelects(attribute: string, prefix: string, key: string)
    requires '.' !in prefix && attribute == prefix + "." + key
    ensures Cut(attribute) == Some((prefix, key))
  {
    CutAt(attribute, prefix);
    assert prefix + "." <= attribute;
  }

  lemma {:induction false} PrefixesSelect(attribute: string, req: Request)
    ensures forall key :: attribute == "principal." + key ==>
      RequestValues(attribute, req) == Lookup(req.principalAttributes, key)
    ensures forall key :: attribute == "resource." + key ==>
      RequestValues(attribute, req) == Lookup(req.resourceAttributes, key)
    ensures forall key :: attribute == "environment." + key ==>
      RequestValues(attribute, req) == Lookup(req.environmentAttributes, key)
    ensures RequestValues(attribute, req).Some? ==>
      exists key :: attribute == "principal." + key || attribute == "resource." + key || attribute == "environment." + key
  {
    assert "principal" + "." == "principal." && "resource" + "." == "resource." && "environment" + "." == "environment.";
    forall key ensures attribute == "principal." + key ==> Cut(attribute) == Some(("principal", key)) {
      if attribute == "principal." + key {
        PrefixSelects(attribute, "principal", key);
      }
    }
    forall key ensures attribute == "resource." + key ==> Cut(attribute) == Some(("resource", key)) {
      if attribute == "resource." + key {
        PrefixSelects(attribute, "resource", key);
      }
    }
    forall key ensures attribute == "environment." + key ==> Cut(attribute) == Some(("environment", key)) {
      if attribute == "environment." + key {
        PrefixSelects(attribute, "environment", key);
      }
    }
    if RequestValues(attribute, req).Some? {
      var cut := Cut(attribute).value;
      assert attribute == (cut.0 + ".") + cut.1;
    }
  }

  lemma SameSizeSubset(a: multiset<string>, b: multiset<string>)
    requires a <= b && |a| == |b|
    ensures a == b
  {
    assert b == a + (b - a);
    assert |b - a| == 0;
  }

  /** A condition list without repeats never trips the length shortcut. */
  lemma ShortcutSound(cond: seq<string>, req: seq<string>)
    requires NoRepeats(cond)
    ensures ContainsAll(cond, req) <==> Included(cond, req)
  {
    if Included(cond, req) {
      ValueSetSize(cond);
      ValueSetSize(req);
      assert ValueSet(cond) <= ValueSet(req);
      SubsetSize(ValueSet(cond), ValueSet(req));
    }
  }

  /** CONTAINS_ALL tells set inclusion on every request exactly when the condition repeats no value. */
  lemma ContainsAllExact(cond: seq<string>)
    ensures (forall req :: ContainsAll(cond, req) <==> Included(cond, req)) <==> NoRepeats(cond)
  {
    if NoRepeats(cond) {
      forall req ensures ContainsAll(cond, req) <==> Included(cond, req) {
        ShortcutSound(cond, req);
      }
    } else {
      var req := Distinct(cond);
      ValueSetSize(cond);
      ValueSetSize(req);
      forall v | v in cond ensures v in req {
        assert v in ValueSet(cond);
      }
      assert Included(cond, req) && !ContainsAll(cond, req);
    }
  }

  /** CONTAINS_ANY tells "shares a value" on every request exactly when the condition is not empty. */
  lemma ContainsAnyExact(cond: seq<string>)
    ensures (forall req :: ContainsAny(cond, req) <==> Shared(cond, req)) <==> cond != []
  {
    if cond == [] {
      assert ContainsAny(cond, []) && !Shared(cond, []);
    }
  }

  lemma ContainsAllMonotone(cond: seq<string>, req: seq<string>, before: seq<string>, after: seq<string>)
    requires ContainsAll(cond, req)
    ensures ContainsAll(cond, before + req + after)
  {
  }

  lemma SameValuesMembers(a: seq<string>, b: seq<string>)
    requires SameValues(a, b)
    ensures |a| == |b| && Included(a, b)
  {
    assert |multiset(a)| == |multiset(b)|;
    forall v | v in a ensures v in b {
      assert v in multiset(a);
    }
  }

  /** EQUALS is the strongest of the three list operators, CONTAINS_ANY the weakest. */
  lemma OperatorLattice(cond: seq<string>, req: seq<string>)
    ensures SameValues(cond, req) ==> ContainsAll(cond, req)
    ensures ContainsAll(cond, req) ==> ContainsAny(cond, req)
  {
    if SameValues(cond, req) {
      SameValuesMembers(cond, req);
    }
    if ContainsAll(cond, req) && cond != [] {
      assert cond[0] in cond && cond[0] in req;
    }
  }

  lemma {:induction false} NoRepeatsMultiset(s: seq<string>)
    requires NoRepeats(s)
    ensures multiset(s) == multiset(ValueSet(s))
  {
    if s != [] {
      var init, last := s[..|s| - 1], s[|s| - 1];
      assert s == init + [last];
      NoRepeatsMultiset(init);
      assert ValueSet(s) == ValueSet(init) + {last};
      assert last !in ValueSet(init);
    } else {
      assert ValueSet(s) == {};
    }
  }

  /** CONTAINS_ALL in both directions is EQUALS when either list has no repeats. */
  lemma MutualContainment(a: seq<string>, b: seq<string>)
    requires NoRepeats(a) || NoRepeats(b)
    ensures ContainsAll(a, b) && ContainsAll(b, a) <==> SameValues(a, b)
  {
    if ContainsAll(a, b) && ContainsAll(b, a) {
      assert ValueSet(a) == ValueSet(b);
      ValueSetSize(a);
      ValueSetSize(b);
      NoRepeatsMultiset(a);
      NoRepeatsMultiset(b);
    }
    if SameValues(a, b) {
      SameValuesMembers(a, b);
      SameValuesMembers(b, a);
    }
  }
}
