/**
 * What conditions mean, operator by operator, on the value stored at their path, and what decisions and flows make of
 * them.
 */
module ConditionLaws {
  import opened Wrappers
  import opened Ordering
  import opened Json
  import E = PolicyEngine
  import F = FlowEngine
  import X = FlowExecutor
  import Collections
  import Cidr
  import Text

  // ----- The value at a path -----------------------------------------------------------------------------

  /** The path meets nothing but objects until it ends or breaks off. */
  predicate ThroughObjects(v: Json, parts: seq<string>)
    decreases |parts|
  {
    parts == [] || (!v.Arr? && !v.Str? && (v.Obj? && parts[0] in v.fields ==> ThroughObjects(v.fields[parts[0]], parts[1..])))
  }

  /** What is stored there: undefined as soon as a field is absent. */
  function StoredAt(v: Json, parts: seq<string>): Json
    decreases |parts|
  {
    if parts == [] then v
    else if v.Obj? && parts[0] in v.fields then StoredAt(v.fields[parts[0]], parts[1..])
    else Undefined
  }

  /** Both services read what is stored. */
  lemma {:induction false} ResolveReadsStored(v: Json, parts: seq<string>, objectsOnly: bool)
    requires ThroughObjects(v, parts)
    ensures Resolve(v, parts, objectsOnly) == StoredAt(v, parts)
    decreases |parts|
  {
    if parts != [] {
      if v.Obj? && parts[0] in v.fields {
        ResolveReadsStored(v.fields[parts[0]], parts[1..], objectsOnly);
      } else {
        ResolveUndefined(parts[1..], objectsOnly);
      }
    }
  }

  /** A dotted name means its parts. */
  lemma PathOfField(context: Json, parts: seq<string>, objectsOnly: bool)
    requires parts != [] && (forall p :: p in parts ==> '.' !in p) && ThroughObjects(context, parts)
    ensures Resolve(context, Text.Split(Text.Join(parts, '.'), '.'), objectsOnly) == StoredAt(context, parts)
  {
    Text.SplitJoin(parts, '.');
    ResolveReadsStored(context, parts, objectsOnly);
  }

  // ----- The operators of the policy engine ----------------------------------------------------------------

  /** The same undefined, null, boolean, number or text; lists and objects are never the same. */
  predicate Same(a: Json, b: Json)
  {
    match (a, b)
    case (Undefined, Undefined) => true
    case (Null, Null) => true
    case (Bool(x), Bool(y)) => x == y
    case (Num(x), Num(y)) => x == y
    case (Str(x), Str(y)) => x == y
    case _ => false
  }

  ghost predicate Lists(items: seq<Json>, x: Json)
  {
    exists i :: 0 <= i < |items| && Same(items[i], x)
  }

  predicate OccursAt(s: string, t: string, i: int)
  {
    0 <= i <= |s| - |t| && s[i..i + |t|] == t
  }

  /** Two addresses in one block of the range, section 3.1 of RFC 4632. */
  ghost predicate InBlock(ip: seq<int>, range: seq<int>, bits: Option<int>)
  {
    && Cidr.IsAddress(ip) && Cidr.IsAddress(range) && bits.Some? && 0 <= bits.value <= 32
    && Cidr.Value(ip) / Collections.Pow2(32 - bits.value) == Cidr.Value(range) / Collections.Pow2(32 - bits.value)
  }

  ghost predicate InRange(ip: string, cidr: string, lib: E.Library)
  {
    var parts := Text.Split(cidr, '/');
    |parts| >= 2 && parts[0] != "" && parts[1] != "" && InBlock(lib.octets(ip), lib.octets(parts[0]), lib.parseInt(parts[1]))
  }

  /** The stored value stands in the operator's relation to the condition's value. */
  ghost predicate Stands(op: E.Operator, actual: Json, expected: Json, lib: E.Library)
  {
    match op
    case Equals => Same(actual, expected)
    case NotEquals => !Same(actual, expected)
    case Contains =>
      (match actual
       case Str(s) => exists i :: OccursAt(s, lib.text(expected), i)
       case Arr(items) => Lists(items, expected)
       case _ => false)
    case In => expected.Arr? && Lists(expected.items, actual)
    case NotIn => expected.Arr? && !Lists(expected.items, actual)
    case GreaterThan =>
      (match (lib.number(actual), lib.number(expected)) case (Some(a), Some(e)) => a > e case _ => false)
    case LessThan =>
      (match (lib.number(actual), lib.number(expected)) case (Some(a), Some(e)) => a < e case _ => false)
    case MatchesRegex => actual.Str? && lib.regexTest(lib.text(expected), actual.s)
    case IpInRange => actual.Str? && InRange(actual.s, lib.text(expected), lib)
    case UnknownOperator => false
  }

  lemma SameIsStrict(a: Json, b: Json)
    ensures StrictEq(a, b) <==> Same(a, b)
  {
  }

  lemma ListsIsIncludes(items: seq<Json>, x: Json)
    ensures Includes(items, x) <==> Lists(items, x)
  {
    if i :| 0 <= i < |items| && StrictEq(items[i], x) {
      assert Same(items[i], x);
    }
    if i :| 0 <= i < |items| && Same(items[i], x) {
      assert StrictEq(items[i], x);
    }
  }

  lemma {:induction false} SubstringOccurs(s: string, t: string)
    ensures E.HasSubstring(s, t) <==> exists i :: OccursAt(s, t, i)
  {
    if |s| >= |t| {
      if s[..|t|] == t {
        assert OccursAt(s, t, 0);
      } else if s != "" {
        SubstringOccurs(s[1..], t);
        if i :| OccursAt(s[1..], t, i) {
          assert s[i + 1..i + 1 + |t|] == s[1..][i..i + |t|];
          assert OccursAt(s, t, i + 1);
        }
        if i :| OccursAt(s, t, i) {
          assert s[1..][i - 1..i - 1 + |t|] == s[i..i + |t|];
          assert OccursAt(s[1..], t, i - 1);
        }
      }
    }
  }

  lemma RangeIsBlock(ip: string, cidr: string, lib: E.Library)
    ensures E.InRange(ip, cidr, lib) <==> InRange(ip, cidr, lib)
  {
    var parts := Text.Split(cidr, '/');
    if |parts| >= 2 && parts[0] != "" && parts[1] != "" {
      Cidr.InCidrExactly(lib.octets(ip), lib.octets(parts[0]), lib.parseInt(parts[1]));
    }
  }

  ghost predicate ConditionStands(c: E.Condition, context: Json, lib: E.Library)
  {
    Stands(c.operator, Resolve(context, Text.Split(c.field, '.'), false), c.value, lib)
  }

  lemma StandsExactly(c: E.Condition, context: Json, lib: E.Library)
    ensures E.EvaluateCondition(c, context, lib) <==> ConditionStands(c, context, lib)
  {
    var actual, expected := Resolve(context, Text.Split(c.field, '.'), false), c.value;
    match c.operator
    case Equals => SameIsStrict(actual, expected);
    case NotEquals => SameIsStrict(actual, expected);
    case Contains =>
      if actual.Str? { SubstringOccurs(actual.s, lib.text(expected)); }
      if actual.Arr? { ListsIsIncludes(actual.items, expected); }
    case In => if expected.Arr? { ListsIsIncludes(expected.items, actual); }
    case NotIn => if expected.Arr? { ListsIsIncludes(expected.items, actual); }
    case IpInRange => if actual.Str? { RangeIsBlock(actual.s, lib.text(expected), lib); }
    case _ =>
  }

  // ----- Decisions -----------------------------------------------------------------------------------------

  ghost predicate CategoryStands(raw: E.RawConditions, logic: E.Logic, context: Json, lib: E.Library)
  {
    match raw
    case NoConditions => true
    case One(c) => ConditionStands(c, context, lib)
    case Many(cs) =>
      || cs == []
      || (if logic == E.Or then exists i :: 0 <= i < |cs| && ConditionStands(cs[i], context, lib)
          else forall i :: 0 <= i < |cs| ==> ConditionStands(cs[i], context, lib))
  }

  ghost predicate PolicyStands(p: E.Policy, context: Json, lib: E.Library)
  {
    && CategoryStands(p.subject, p.logic, context, lib) && CategoryStands(p.resource, p.logic, context, lib)
    && CategoryStands(p.action, p.logic, context, lib) && CategoryStands(p.environment, p.logic, context, lib)
  }

  lemma AllExactly(cs: seq<E.Condition>, context: Json, lib: E.Library)
    ensures E.AllPass(cs, context, lib) <==> forall i :: 0 <= i < |cs| ==> ConditionStands(cs[i], context, lib)
  {
    forall i | 0 <= i < |cs| ensures E.EvaluateCondition(cs[i], context, lib) <==> ConditionStands(cs[i], context, lib) {
      StandsExactly(cs[i], context, lib);
    }
  }

  lemma AnyExactly(cs: seq<E.Condition>, context: Json, lib: E.Library)
    ensures E.SomePasses(cs, context, lib) <==> exists i :: 0 <= i < |cs| && ConditionStands(cs[i], context, lib)
  {
    forall i | 0 <= i < |cs| ensures E.EvaluateCondition(cs[i], context, lib) <==> ConditionStands(cs[i], context, lib) {
      StandsExactly(cs[i], context, lib);
    }
  }

  lemma CategoryExactly(raw: E.RawConditions, logic: E.Logic, context: Json, lib: E.Library)
    ensures E.CategoryPasses(raw, logic, context, lib) <==> CategoryStands(raw, logic, context, lib)
  {
    var cs := E.ParseConditions(raw);
    AllExactly(cs, context, lib);
    AnyExactly(cs, context, lib);
    if raw.One? {
      assert cs[0] == raw.condition;
    }
  }

  lemma PolicyExactly(p: E.Policy, context: Json, lib: E.Library)
    ensures E.Matches(p, context, lib) <==> PolicyStands(p, context, lib)
  {
    CategoryExactly(p.subject, p.logic, context, lib);
    CategoryExactly(p.resource, p.logic, context, lib);
    CategoryExactly(p.action, p.logic, context, lib);
    CategoryExactly(p.environment, p.logic, context, lib);
  }

  ghost predicate SomeStands(ps: seq<E.Policy>, deny: bool, context: Json, lib: E.Library)
  {
    exists p :: p in ps && p.enabled && (p.effect == E.Deny <==> deny) && PolicyStands(p, context, lib)
  }

  lemma SomeExactly(ps: seq<E.Policy>, deny: bool, context: Json, lib: E.Library)
    ensures E.SomeDecisive(ps, deny, context, lib) <==> SomeStands(ps, deny, context, lib)
  {
    if p :| p in ps && p.enabled && p.effect.Deny? == deny && E.Matches(p, context, lib) {
      PolicyExactly(p, context, lib);
      assert PolicyStands(p, context, lib);
    }
    if p :| p in ps && p.enabled && (p.effect == E.Deny <==> deny) && PolicyStands(p, context, lib) {
      PolicyExactly(p, context, lib);
      assert E.Matches(p, context, lib);
    }
  }

  /** For every table: permitted exactly when the stored values meet some enabled policy that does not deny, and no
      enabled policy that does. */
  lemma DecisionExactly(ps: seq<E.Policy>, context: Json, lib: E.Library)
    ensures E.Evaluate(ps, context, lib).decision == E.Permit <==>
            SomeStands(ps, false, context, lib) && !SomeStands(ps, true, context, lib)
  {
    E.DecisionMeaning(ps, context, lib);
    SomeExactly(ps, false, context, lib);
    SomeExactly(ps, true, context, lib);
  }

  /** An enabled policy that allows, with the one condition `c`, in whatever category. */
  predicate Lone(p: E.Policy, c: E.Condition)
  {
    && p.enabled && p.effect == E.Allow
    && [p.subject, p.resource, p.action, p.environment] in {
         [E.One(c), E.NoConditions, E.NoConditions, E.NoConditions], [E.NoConditions, E.One(c), E.NoConditions, E.NoConditions],
         [E.NoConditions, E.NoConditions, E.One(c), E.NoConditions], [E.NoConditions, E.NoConditions, E.NoConditions, E.One(c)]}
  }

  lemma LonePolicyStands(p: E.Policy, c: E.Condition, context: Json, lib: E.Library)
    requires Lone(p, c)
    ensures PolicyStands(p, context, lib) <==> ConditionStands(c, context, lib)
  {
    var raws := [p.subject, p.resource, p.action, p.environment];
    assert p.subject == raws[0] && p.resource == raws[1] && p.action == raws[2] && p.environment == raws[3];
  }

  /** A table of that one policy permits exactly when the value at the condition's path stands in the operator's
      relation to the condition's value. */
  lemma OneConditionDecides(p: E.Policy, c: E.Condition, context: Json, lib: E.Library, actual: Json)
    requires Lone(p, c) && actual == Resolve(context, Text.Split(c.field, '.'), false)
    ensures E.Evaluate([p], context, lib).decision == E.Permit <==> Stands(c.operator, actual, c.value, lib)
  {
    DecisionExactly([p], context, lib);
    LonePolicyStands(p, c, context, lib);
    assert p in [p];
  }

  // ----- The report ------------------------------------------------------------------------------------------

  /** One result for each condition of the category, in order, saying whether it stands. */
  ghost predicate Reports(results: seq<E.ConditionResult>, t: E.ConditionType, cs: seq<E.Condition>, context: Json, lib: E.Library)
  {
    && |results| == |cs|
    && forall i :: 0 <= i < |cs| ==>
         results[i].conditionType == t && (results[i].passed <==> ConditionStands(cs[i], context, lib))
  }

  lemma ResultsReport(t: E.ConditionType, raw: E.RawConditions, context: Json, lib: E.Library)
    ensures Reports(E.ResultsOf(t, raw, context, lib), t, E.ParseConditions(raw), context, lib)
  {
    var cs := E.ParseConditions(raw);
    forall i | 0 <= i < |cs| { StandsExactly(cs[i], context, lib); }
  }

  lemma FourResults(p: E.Policy, context: Json, lib: E.Library)
    ensures E.AllResults(E.Categories(p), context, lib)
         == E.ResultsOf(E.Subject, p.subject, context, lib) + E.ResultsOf(E.Resource, p.resource, context, lib)
            + E.ResultsOf(E.Action, p.action, context, lib) + E.ResultsOf(E.Environment, p.environment, context, lib)
  {
    var c := E.Categories(p);
    assert c[..4] == c && c[..4][..3] == c[..3] && c[..3][..2] == c[..2] && c[..2][..1] == c[..1] && c[..1][..0] == [];
    assert E.AllResults(c[..1], context, lib) == [] + E.ResultsOf(E.Subject, p.subject, context, lib);
    assert E.AllResults(c[..2], context, lib)
        == E.AllResults(c[..1], context, lib) + E.ResultsOf(E.Resource, p.resource, context, lib);
    assert E.AllResults(c[..3], context, lib)
        == E.AllResults(c[..2], context, lib) + E.ResultsOf(E.Action, p.action, context, lib);
  }

  /** What is reported about a policy: who it is, whether it denies, whether it matched, and each of its conditions,
      category after category. */
  ghost predicate Describes(detail: E.MatchDetail, p: E.Policy, context: Json, lib: E.Library)
  {
    && detail.policyId == p.id && detail.policyName == p.name && (detail.isDeny <==> p.effect == E.Deny)
    && (detail.matched <==> PolicyStands(p, context, lib))
    && exists s, r, a, e ::
         && detail.conditionResults == s + r + a + e
         && Reports(s, E.Subject, E.ParseConditions(p.subject), context, lib)
         && Reports(r, E.Resource, E.ParseConditions(p.resource), context, lib)
         && Reports(a, E.Action, E.ParseConditions(p.action), context, lib)
         && Reports(e, E.Environment, E.ParseConditions(p.environment), context, lib)
  }

  lemma DetailDescribes(p: E.Policy, context: Json, lib: E.Library)
    ensures Describes(E.Detail(p, context, lib), p, context, lib)
  {
    PolicyExactly(p, context, lib);
    FourResults(p, context, lib);
    ResultsReport(E.Subject, p.subject, context, lib);
    ResultsReport(E.Resource, p.resource, context, lib);
    ResultsReport(E.Action, p.action, context, lib);
    ResultsReport(E.Environment, p.environment, context, lib);
  }

  /** The report lists every enabled policy once, by falling priority, and describes it. */
  lemma ReportExactly(ps: seq<E.Policy>, context: Json, lib: E.Library)
    returns (report: seq<E.MatchDetail>, listed: seq<E.Policy>)
    ensures report == E.Evaluate(ps, context, lib).matchedPolicies
    ensures |report| == |listed| && multiset(listed) == multiset(E.Enabled(ps))
    ensures forall i, j :: 0 <= i < j < |listed| ==> listed[i].priority >= listed[j].priority
    ensures forall i :: 0 <= i < |listed| ==> Describes(report[i], listed[i], context, lib)
  {
    listed := E.Applicable(ps);
    report := E.Details(listed, context, lib);
    RankedByPriority(ps, listed);
    DetailsDescribe(listed, report, context, lib);
  }

  lemma RankedByPriority(ps: seq<E.Policy>, listed: seq<E.Policy>)
    requires listed == E.Applicable(ps)
    ensures multiset(listed) == multiset(E.Enabled(ps))
    ensures forall i, j :: 0 <= i < j < |listed| ==> listed[i].priority >= listed[j].priority
  {
    SortBySorts(E.Enabled(ps), E.ByPriority());
    forall i, j | 0 <= i < j < |listed| ensures listed[i].priority >= listed[j].priority {
      assert E.ByPriority()(listed[i]) <= E.ByPriority()(listed[j]);
    }
  }

  lemma DetailsDescribe(listed: seq<E.Policy>, report: seq<E.MatchDetail>, context: Json, lib: E.Library)
    requires report == E.Details(listed, context, lib)
    ensures |report| == |listed| && forall i :: 0 <= i < |listed| ==> Describes(report[i], listed[i], context, lib)
  {
    forall i | 0 <= i < |listed| ensures Describes(report[i], listed[i], context, lib) {
      assert report[i] == E.Detail(listed[i], context, lib);
      DetailDescribes(listed[i], context, lib);
    }
  }

  // ----- The operators of login flows ------------------------------------------------------------------------

  /** Some entry of the list is the value or, when the value is a list itself, one of its entries. */
  ghost predicate Meets(items: seq<Json>, actual: Json)
  {
    match actual
    case Arr(values) => exists i :: 0 <= i < |values| && Lists(items, values[i])
    case _ => Lists(items, actual)
  }

  ghost predicate FlowStands(op: F.Operator, actual: Json, expected: Json)
  {
    match op
    case Exists => actual != Undefined && actual != Null
    case NotExists => actual == Undefined || actual == Null
    case Eq => Same(actual, expected)
    case Neq => !Same(actual, expected)
    case In => expected.Arr? && Meets(expected.items, actual)
    case NotIn => expected.Arr? ==> !Meets(expected.items, actual)
    case UnknownOperator => false
  }

  lemma MeetsExactly(items: seq<Json>, actual: Json)
    ensures Meets(items, actual) <==>
            if actual.Arr? then exists i :: 0 <= i < |actual.items| && Includes(items, actual.items[i])
            else Includes(items, actual)
  {
    ListsIsIncludes(items, actual);
    if actual.Arr? {
      forall i | 0 <= i < |actual.items| { ListsIsIncludes(items, actual.items[i]); }
    }
  }

  lemma FlowStandsExactly(c: F.Condition, context: F.Context)
    ensures F.EvaluateCondition(c, context) <==>
            FlowStands(c.operator, Resolve(Obj(context), Text.Split(c.field, '.'), true), c.value)
  {
    var actual := Resolve(Obj(context), Text.Split(c.field, '.'), true);
    SameIsStrict(actual, c.value);
    if c.value.Arr? {
      MeetsExactly(c.value.items, actual);
    }
  }

  /** A flow of one step starts with it exactly when it is applicable. */
  lemma LoneStepStarts(step: F.FlowStep, context: F.Context, applies: bool)
    requires applies == F.Applicable(step, context)
    ensures X.Start([step], X.CreateSession(context)).currentStepId == if applies then Some(step.id) else None
  {
    SortOne(step, F.ByOrder());
    FindOne(step, F.ApplicableIn(context), applies);
  }

  lemma SortOne<T>(x: T, key: T -> int)
    ensures SortBy([x], key) == [x]
  {
    assert [x][..0] == [];
  }

  lemma FindOne<T>(x: T, p: T -> bool, holds: bool)
    requires holds == p(x)
    ensures Find([x], p) == if holds then Some(x) else None
  {
  }

  lemma OptionalApplies(step: F.FlowStep, c: F.Condition, context: F.Context, applies: bool)
    requires !step.required && step.condition == Some(c) && applies == F.EvaluateCondition(c, context)
    ensures applies == F.Applicable(step, context)
  {
  }

  /** A flow of one optional step starts with it exactly when the value at the condition's path stands in the
      operator's relation to the condition's value; otherwise it starts without a step. */
  lemma OneConditionStarts(step: F.FlowStep, c: F.Condition, context: F.Context, actual: Json, stands: bool)
    requires !step.required && step.condition == Some(c) && actual == Resolve(Obj(context), Text.Split(c.field, '.'), true)
    requires stands == FlowStands(c.operator, actual, c.value)
    ensures X.Start([step], X.CreateSession(context)).currentStepId == if stands then Some(step.id) else None
  {
    FlowStandsExactly(c, context);
    OptionalApplies(step, c, context, stands);
    LoneStepStarts(step, context, stands);
  }
}
