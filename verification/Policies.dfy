/** Policies and their pre-compilation (internal/store/policy.go). */
module Policies {

  datatype Option<+T> = None | Some(value: T)

  /** A compiled pattern. A pattern's matcher depends on its source text only. */
  datatype Regexp = Regexp(expr: string)

  datatype Target = Target(resourceType: string, action: string)

  datatype Condition = Condition(
    attribute: string,
    operator: string,
    value: seq<string>,
    compiledRegex: Option<Regexp>)

  /** `access` is free text, as in the program: only "ALLOW" grants. */
  datatype Policy = Policy(
    id: string,
    description: string,
    access: string,
    target: Target,
    conditions: seq<Condition>)

  const ACCESS_ALLOW := "ALLOW"
  const ACCESS_DENY := "DENY"

  /** The library calls the program makes, as deterministic functions of their arguments:
      JSON decoding, regular expressions, IP addresses and prefixes, decimal integers. */
  datatype Library = Library(
    unmarshal: string -> Option<Policy>,
    regexOk: string -> bool,
    regexMatch: (Regexp, string) -> bool,
    addrOk: string -> bool,
    prefixOk: string -> bool,
    prefixContains: (string, string) -> bool,
    atoi: string -> Option<int>)

  datatype CompileError = InvalidRegex(policyId: string, pattern: string)

  /** The condition has a pattern to compile. */
  predicate HasPattern(c: Condition) {
    c.operator == "REGEX" && |c.value| > 0
  }

  predicate Compilable(lib: Library, c: Condition) {
    HasPattern(c) ==> lib.regexOk(c.value[0])
  }

  function Prepared(c: Condition): Condition {
    if HasPattern(c) then c.(compiledRegex := Some(Regexp(c.value[0]))) else c
  }

  function PreparedAll(cs: seq<Condition>): (r: seq<Condition>)
    ensures |r| == |cs| && forall i :: 0 <= i < |cs| ==> r[i] == Prepared(cs[i])
  {
    seq(|cs|, i requires 0 <= i < |cs| => Prepared(cs[i]))
  }

  /** `k` is the first condition whose pattern does not compile. */
  ghost predicate FirstInvalid(lib: Library, cs: seq<Condition>, k: int) {
    && 0 <= k < |cs|
    && !Compilable(lib, cs[k])
    && forall j :: 0 <= j < k ==> Compilable(lib, cs[j])
  }

  /** The condition after compilation: nothing changes but the stored pattern, and that only where a REGEX
      condition gives one. */
  ghost predicate CompiledFrom(now: Condition, was: Condition) {
    && now.attribute == was.attribute && now.operator == was.operator && now.value == was.value
    && now.compiledRegex ==
      if was.operator == "REGEX" && |was.value| > 0 then Some(Regexp(was.value[0])) else was.compiledRegex
  }

  /** The library refuses the pattern this REGEX condition gives. */
  ghost predicate RefusedPattern(lib: Library, c: Condition) {
    c.operator == "REGEX" && |c.value| > 0 && !lib.regexOk(c.value[0])
  }

  /** The first refused pattern is that of condition `k`; the conditions before it are compiled, those from
      it on untouched. */
  ghost predicate StoppedAt(lib: Library, was: seq<Condition>, now: seq<Condition>, k: int) {
    && |now| == |was| && 0 <= k < |was|
    && RefusedPattern(lib, was[k])
    && (forall j :: 0 <= j < k ==> !RefusedPattern(lib, was[j]) && CompiledFrom(now[j], was[j]))
    && (forall j :: k <= j < |was| ==> now[j] == was[j])
  }

  /** Compiles every pattern in place and stops at the first invalid one; the patterns before it
      stay compiled, the conditions from it on are untouched. */
  method Compile(lib: Library, policyId: string, conditions: array<Condition>) returns (err: Option<CompileError>)
    modifies conditions
    ensures err.Some? <==> exists k :: 0 <= k < |old(conditions[..])| && RefusedPattern(lib, old(conditions[..])[k])
    ensures err.None? ==> forall i :: 0 <= i < conditions.Length ==> CompiledFrom(conditions[i], old(conditions[..])[i])
    ensures err.Some? ==> exists k ::
      && StoppedAt(lib, old(conditions[..]), conditions[..], k)
      && err.value == InvalidRegex(policyId, old(conditions[..])[k].value[0])
    ensures err.None? <==> forall c :: c in old(conditions[..]) ==> Compilable(lib, c)
    ensures err.None? ==> conditions[..] == PreparedAll(old(conditions[..]))
    ensures err.Some? ==>
      exists k :: FirstInvalid(lib, old(conditions[..]), k)
        && err.value == InvalidRegex(policyId, old(conditions[..])[k].value[0])
        && conditions[..] == PreparedAll(old(conditions[..])[..k]) + old(conditions[..])[k..]
  {
    ghost var was := conditions[..];
    for i := 0 to conditions.Length
      invariant |was| == conditions.Length
      invariant forall j :: 0 <= j < i ==> conditions[j] == Prepared(was[j]) && Compilable(lib, was[j])
      invariant forall j :: i <= j < conditions.Length ==> conditions[j] == was[j]
    {
      var cond := conditions[i];
      if cond.operator != "REGEX" || |cond.value| == 0 {
        continue;
      }
      if !lib.regexOk(cond.value[0]) {
        assert FirstInvalid(lib, was, i) && StoppedAt(lib, was, conditions[..], i);
        assert was[i] in was;
        assert conditions[..] == PreparedAll(was[..i]) + was[i..];
        return Some(InvalidRegex(policyId, cond.value[0]));
      }
      conditions[i] := cond.(compiledRegex := Some(Regexp(cond.value[0])));
    }
    return None;
  }
}
