/** Attribute-based policies: conditions, categories and the deny-overrides decision. */
module PolicyEngine {
  import opened Wrappers
  import opened Ordering
  import opened Json
  import Cidr
  import Text

  datatype Operator =
    | Equals | NotEquals | Contains | In | NotIn | GreaterThan | LessThan | MatchesRegex | IpInRange | UnknownOperator

  datatype Condition = Condition(field: string, operator: Operator, value: Json)

  /** A stored condition column: empty, one condition, or a list. */
  datatype RawConditions = NoConditions | One(condition: Condition) | Many(conditions: seq<Condition>)

  datatype Effect = Allow | Deny | OtherEffect

  datatype Logic = And | Or | OtherLogic

  datatype Policy = Policy(id: string, name: string, enabled: bool, effect: Effect, priority: int, logic: Logic,
                           clientId: Option<string>, subject: RawConditions, resource: RawConditions,
                           action: RawConditions, environment: RawConditions)

  /** Library conversions the conditions rely on: regular expressions, `Number`, `String`, `parseInt`
      and the octets of a dotted text. */
  datatype Library = Library(regexTest: (string, string) -> bool, number: Json -> Option<int>, text: Json -> string,
                             parseInt: string -> Option<int>, octets: string -> seq<int>)

  // ----- Conditions --------------------------------------------------------------------------------

  predicate HasSubstring(s: string, t: string)
  {
    |s| >= |t| && (s[..|t|] == t || (s != "" && HasSubstring(s[1..], t)))
  }

  predicate InRange(ip: string, cidr: string, lib: Library)
  {
    var parts := Text.Split(cidr, '/');
    if |parts| < 2 || parts[0] == "" || parts[1] == "" then false
    else Cidr.IpInCidr(lib.octets(ip), lib.octets(parts[0]), lib.parseInt(parts[1]))
  }

  predicate EvaluateCondition(c: Condition, context: Json, lib: Library)
  {
    var actual, expected := Resolve(context, Text.Split(c.field, '.'), false), c.value;
    match c.operator
    case Equals => StrictEq(actual, expected)
    case NotEquals => !StrictEq(actual, expected)
    case Contains =>
      if actual.Str? then HasSubstring(actual.s, lib.text(expected))
      else actual.Arr? && Includes(actual.items, expected)
    case In => expected.Arr? && Includes(expected.items, actual)
    case NotIn => expected.Arr? && !Includes(expected.items, actual)
    case GreaterThan =>
      lib.number(actual).Some? && lib.number(expected).Some? && lib.number(actual).value > lib.number(expected).value
    case LessThan =>
      lib.number(actual).Some? && lib.number(expected).Some? && lib.number(actual).value < lib.number(expected).value
    case MatchesRegex => actual.Str? && lib.regexTest(lib.text(expected), actual.s)
    case IpInRange => actual.Str? && InRange(actual.s, lib.text(expected), lib)
    case UnknownOperator => false
  }

  /** `notIn` is the opposite of `in` exactly when the condition's value is a list: on anything else
      both fail. */
  lemma NotInIsComplementOnLists(c: Condition, context: Json, lib: Library)
    requires c.operator.In?
    ensures (EvaluateCondition(c.(operator := NotIn), context, lib) <==> !EvaluateCondition(c, context, lib))
            <==> c.value.Arr?
  {
  }

  function ParseConditions(raw: RawConditions): seq<Condition>
  {
    match raw
    case NoConditions => []
    case One(c) => [c]
    case Many(cs) => cs
  }

  predicate AllPass(cs: seq<Condition>, context: Json, lib: Library)
  {
    forall i :: 0 <= i < |cs| ==> EvaluateCondition(cs[i], context, lib)
  }

  predicate SomePasses(cs: seq<Condition>, context: Json, lib: Library)
  {
    exists i :: 0 <= i < |cs| && EvaluateCondition(cs[i], context, lib)
  }

  /** A category passes when it is empty, or all (any, under OR) of its conditions pass. */
  predicate CategoryPasses(raw: RawConditions, logic: Logic, context: Json, lib: Library)
  {
    var cs := ParseConditions(raw);
    cs == [] || if logic.Or? then SomePasses(cs, context, lib) else AllPass(cs, context, lib)
  }

  /** All four categories pass. */
  predicate Matches(p: Policy, context: Json, lib: Library)
  {
    && CategoryPasses(p.subject, p.logic, context, lib)
    && CategoryPasses(p.resource, p.logic, context, lib)
    && CategoryPasses(p.action, p.logic, context, lib)
    && CategoryPasses(p.environment, p.logic, context, lib)
  }

  datatype ConditionType = Subject | Resource | Action | Environment

  datatype ConditionResult = ConditionResult(conditionType: ConditionType, passed: bool)

  datatype MatchDetail = MatchDetail(policyId: string, policyName: string, isDeny: bool, matched: bool,
                                     conditionResults: seq<ConditionResult>)

  function ResultsOf(t: ConditionType, raw: RawConditions, context: Json, lib: Library): seq<ConditionResult>
  {
    var cs := ParseConditions(raw);
    seq(|cs|, i requires 0 <= i < |cs| => ConditionResult(t, EvaluateCondition(cs[i], context, lib)))
  }

  type Category = (ConditionType, RawConditions)

  function Categories(p: Policy): seq<Category>
  {
    [(Subject, p.subject), (Resource, p.resource), (Action, p.action), (Environment, p.environment)]
  }

  function AllResults(categories: seq<Category>, context: Json, lib: Library): seq<ConditionResult>
  {
    if categories == [] then []
    else
      var (t, raw) := categories[|categories| - 1];
      AllResults(categories[..|categories| - 1], context, lib) + ResultsOf(t, raw, context, lib)
  }

  predicate AllCategoriesPass(categories: seq<Category>, logic: Logic, context: Json, lib: Library)
  {
    categories == []
    || (AllCategoriesPass(categories[..|categories| - 1], logic, context, lib)
        && CategoryPasses(categories[|categories| - 1].1, logic, context, lib))
  }

  function Detail(p: Policy, context: Json, lib: Library): MatchDetail
  {
    MatchDetail(p.id, p.name, p.effect.Deny?, Matches(p, context, lib), AllResults(Categories(p), context, lib))
  }

  lemma FourCategories(p: Policy, context: Json, lib: Library)
    ensures AllCategoriesPass(Categories(p), p.logic, context, lib) <==> Matches(p, context, lib)
  {
    var c := Categories(p);
    assert c[..4] == c && c[..4][..3] == c[..3] && c[..3][..2] == c[..2] && c[..2][..1] == c[..1] && c[..1][..0] == [];
    assert AllCategoriesPass(c[..1], p.logic, context, lib) <==> CategoryPasses(p.subject, p.logic, context, lib);
    assert AllCategoriesPass(c[..2], p.logic, context, lib) <==>
           AllCategoriesPass(c[..1], p.logic, context, lib) && CategoryPasses(p.resource, p.logic, context, lib);
    assert AllCategoriesPass(c[..3], p.logic, context, lib) <==>
           AllCategoriesPass(c[..2], p.logic, context, lib) && CategoryPasses(p.action, p.logic, context, lib);
  }

  method EvaluateConditions(cs: seq<Condition>, context: Json, logic: Logic, lib: Library)
    returns (passed: bool, results: seq<bool>)
    ensures cs == [] ==> passed
    ensures cs != [] && logic.Or? ==> (passed <==> SomePasses(cs, context, lib))
    ensures cs != [] && !logic.Or? ==> (passed <==> AllPass(cs, context, lib))
    ensures |results| == |cs| && forall i :: 0 <= i < |cs| ==> results[i] == EvaluateCondition(cs[i], context, lib)
  {
    if |cs| == 0 {
      return true, [];
    }
    results := seq(|cs|, i requires 0 <= i < |cs| => EvaluateCondition(cs[i], context, lib));
    assert forall i {:trigger EvaluateCondition(cs[i], context, lib)} {:trigger results[i]} ::
        0 <= i < |cs| ==> results[i] == EvaluateCondition(cs[i], context, lib);
    if logic.Or? {
      passed := exists i :: 0 <= i < |results| && results[i];
    } else {
      passed := forall i :: 0 <= i < |results| ==> results[i];
    }
  }

  lemma OneMoreCategory(categories: seq<Category>, k: nat, logic: Logic, context: Json, lib: Library)
    requires k < |categories|
    ensures AllCategoriesPass(categories[..k + 1], logic, context, lib) <==>
            AllCategoriesPass(categories[..k], logic, context, lib) && CategoryPasses(categories[k].1, logic, context, lib)
    ensures AllResults(categories[..k + 1], context, lib)
         == AllResults(categories[..k], context, lib) + ResultsOf(categories[k].0, categories[k].1, context, lib)
  {
    assert categories[..k + 1][..k] == categories[..k];
  }

  /** The loop over the four categories. */
  method EvaluatePolicy(p: Policy, context: Json, lib: Library) returns (detail: MatchDetail)
    ensures detail == Detail(p, context, lib)
  {
    var conditionTypes := Categories(p);
    var conditionResults: seq<ConditionResult> := [];
    var policyPassed := true;
    var k := 0;
    while k < |conditionTypes|
      invariant 0 <= k <= |conditionTypes|
      invariant policyPassed <==> AllCategoriesPass(conditionTypes[..k], p.logic, context, lib)
      invariant conditionResults == AllResults(conditionTypes[..k], context, lib)
    {
      var passed, results := EvaluateCategory(conditionTypes[k], p.logic, context, lib);
      OneMoreCategory(conditionTypes, k, p.logic, context, lib);
      conditionResults := conditionResults + results;
      if !passed {
        policyPassed := false;
      }
      k := k + 1;
    }
    assert conditionTypes[..k] == conditionTypes;
    FourCategories(p, context, lib);
    detail := MatchDetail(p.id, p.name, p.effect.Deny?, policyPassed, conditionResults);
  }

  /** One round of the loop: an empty category is passed over. */
  method EvaluateCategory(category: Category, logic: Logic, context: Json, lib: Library)
    returns (passed: bool, results: seq<ConditionResult>)
    ensures passed <==> CategoryPasses(category.1, logic, context, lib)
    ensures results == ResultsOf(category.0, category.1, context, lib)
  {
    var (t, raw) := category;
    var conditions := ParseConditions(raw);
    if |conditions| == 0 {
      return true, [];
    }
    var verdicts;
    passed, verdicts := EvaluateConditions(conditions, context, logic, lib);
    results := seq(|verdicts|, i requires 0 <= i < |verdicts| => ConditionResult(t, verdicts[i]));
  }

  // ----- The decision ------------------------------------------------------------------------------

  datatype Decision = Permit | Refuse

  datatype Reason = ExplicitDeny(policyName: string) | PermittedBy(policyName: string) | DefaultDeny

  datatype Evaluation = Evaluation(decision: Decision, reason: Reason, matchedPolicies: seq<MatchDetail>, evaluatedCount: nat)

  function ByPriority(): Policy -> int
  {
    (p: Policy) => -p.priority
  }

  function IsEnabled(): Policy -> bool
  {
    (p: Policy) => p.enabled
  }

  function Enabled(ps: seq<Policy>): seq<Policy>
  {
    Filter(ps, IsEnabled())
  }

  /** The enabled policies, highest priority first, in input order among equals. */
  function Applicable(ps: seq<Policy>): seq<Policy>
  {
    SortBy(Enabled(ps), ByPriority())
  }

  function Details(ps: seq<Policy>, context: Json, lib: Library): seq<MatchDetail>
  {
    seq(|ps|, i requires 0 <= i < |ps| => Detail(ps[i], context, lib))
  }

  /** A matching policy of the given effect. */
  function Decisive(deny: bool, context: Json, lib: Library): Policy -> bool
  {
    (p: Policy) => p.effect.Deny? == deny && Matches(p, context, lib)
  }

  function Evaluate(ps: seq<Policy>, context: Json, lib: Library): Evaluation
  {
    var applicable := Applicable(ps);
    var details := Details(applicable, context, lib);
    var denyMatch := Find(applicable, Decisive(true, context, lib));
    var allowMatch := Find(applicable, Decisive(false, context, lib));
    if denyMatch.Some? then Evaluation(Refuse, ExplicitDeny(denyMatch.value.name), details, |applicable|)
    else if allowMatch.Some? then Evaluation(Permit, PermittedBy(allowMatch.value.name), details, |applicable|)
    else Evaluation(Refuse, DefaultDeny, details, |applicable|)
  }

  /** `matched.find(d => d.effect === ...)` on the details. */
  method FindMatch(details: seq<MatchDetail>, deny: bool, ghost ps: seq<Policy>, context: Json, lib: Library)
    returns (r: Option<MatchDetail>)
    requires details == Details(ps, context, lib)
    ensures match Find(ps, Decisive(deny, context, lib))
            case None => r.None?
            case Some(p) => r == Some(Detail(p, context, lib))
  {
    var i := 0;
    while i < |details|
      invariant 0 <= i <= |details|
      invariant Find(ps, Decisive(deny, context, lib)) == Find(ps[i..], Decisive(deny, context, lib))
    {
      assert ps[i..][1..] == ps[i + 1..];
      assert details[i] == Detail(ps[i], context, lib);
      if details[i].matched && details[i].isDeny == deny {
        return Some(details[i]);
      }
      i := i + 1;
    }
    return None;
  }

  lemma DetailsAppend(ps: seq<Policy>, p: Policy, context: Json, lib: Library)
    ensures Details(ps + [p], context, lib) == Details(ps, context, lib) + [Detail(p, context, lib)]
  {
  }

  method CollectDetails(applicable: seq<Policy>, context: Json, lib: Library) returns (matchDetails: seq<MatchDetail>)
    ensures matchDetails == Details(applicable, context, lib)
  {
    matchDetails := [];
    var i := 0;
    while i < |applicable|
      invariant 0 <= i <= |applicable|
      invariant matchDetails == Details(applicable[..i], context, lib)
    {
      var detail := EvaluatePolicy(applicable[i], context, lib);
      DetailsAppend(applicable[..i], applicable[i], context, lib);
      assert applicable[..i] + [applicable[i]] == applicable[..i + 1];
      matchDetails := matchDetails + [detail];
      i := i + 1;
    }
    assert applicable[..|applicable|] == applicable;
  }

  method EvaluatePolicies(policies: seq<Policy>, context: Json, lib: Library) returns (result: Evaluation)
    ensures result == Evaluate(policies, context, lib)
  {
    var applicable := Applicable(policies);
    var matchDetails := CollectDetails(applicable, context, lib);
    var denyMatch := FindMatch(matchDetails, true, applicable, context, lib);
    if denyMatch.Some? {
      return Evaluation(Refuse, ExplicitDeny(denyMatch.value.policyName), matchDetails, |applicable|);
    }
    var allowMatch := FindMatch(matchDetails, false, applicable, context, lib);
    if allowMatch.Some? {
      return Evaluation(Permit, PermittedBy(allowMatch.value.policyName), matchDetails, |applicable|);
    }
    return Evaluation(Refuse, DefaultDeny, matchDetails, |applicable|);
  }

  // ----- What the decision means ---------------------------------------------------------------------

  ghost predicate SomeDecisive(ps: seq<Policy>, deny: bool, context: Json, lib: Library)
  {
    exists p :: p in ps && p.enabled && p.effect.Deny? == deny && Matches(p, context, lib)
  }

  lemma FindDecisive(ps: seq<Policy>, deny: bool, context: Json, lib: Library)
    ensures Find(Applicable(ps), Decisive(deny, context, lib)).Some? <==> SomeDecisive(ps, deny, context, lib)
  {
    FilterMembers(ps, IsEnabled());
    SortByKeepsMembers(Enabled(ps), ByPriority());
    var found := Find(Applicable(ps), Decisive(deny, context, lib));
    if SomeDecisive(ps, deny, context, lib) {
      var p :| p in ps && p.enabled && p.effect.Deny? == deny && Matches(p, context, lib);
      assert p in Applicable(ps) && Decisive(deny, context, lib)(p);
    }
    if found.Some? {
      assert found.value in Applicable(ps) && Decisive(deny, context, lib)(found.value);
    }
  }

  /** Refused exactly when some enabled matching policy denies or none allows. */
  lemma DecisionMeaning(ps: seq<Policy>, context: Json, lib: Library)
    ensures Evaluate(ps, context, lib).decision.Refuse? <==>
            SomeDecisive(ps, true, context, lib) || !SomeDecisive(ps, false, context, lib)
    ensures Evaluate(ps, context, lib).reason.ExplicitDeny? <==> SomeDecisive(ps, true, context, lib)
    ensures Evaluate(ps, context, lib).evaluatedCount == |Enabled(ps)| == |Evaluate(ps, context, lib).matchedPolicies|
  {
    FindDecisive(ps, true, context, lib);
    FindDecisive(ps, false, context, lib);
    SortByKeepsMembers(Enabled(ps), ByPriority());
  }

  // ----- Order and priority do not decide ------------------------------------------------------------

  function Unranked(ps: seq<Policy>): seq<Policy>
  {
    seq(|ps|, i requires 0 <= i < |ps| => ps[i].(priority := 0))
  }

  lemma DecisiveUnranked(ps: seq<Policy>, deny: bool, context: Json, lib: Library)
    ensures SomeDecisive(ps, deny, context, lib) <==> SomeDecisive(Unranked(ps), deny, context, lib)
  {
    var us := Unranked(ps);
    if SomeDecisive(ps, deny, context, lib) {
      var p :| p in ps && p.enabled && p.effect.Deny? == deny && Matches(p, context, lib);
      var i :| 0 <= i < |ps| && ps[i] == p;
      assert us[i] in us && Matches(us[i], context, lib);
    }
    if SomeDecisive(us, deny, context, lib) {
      var u :| u in us && u.enabled && u.effect.Deny? == deny && Matches(u, context, lib);
      var i :| 0 <= i < |us| && us[i] == u;
      assert ps[i] in ps && Matches(ps[i], context, lib);
    }
  }

  lemma SamePoliciesSameDecisive(us: seq<Policy>, vs: seq<Policy>, deny: bool, context: Json, lib: Library)
    requires multiset(us) == multiset(vs)
    ensures SomeDecisive(us, deny, context, lib) <==> SomeDecisive(vs, deny, context, lib)
  {
    assert forall p :: p in us <==> p in multiset(us);
    assert forall p :: p in vs <==> p in multiset(vs);
  }

  /** Permuting the policies and changing their priorities changes neither the decision nor whether a
      policy denied explicitly. */
  lemma DecisionIgnoresOrderAndPriority(ps: seq<Policy>, qs: seq<Policy>, context: Json, lib: Library)
    requires multiset(Unranked(ps)) == multiset(Unranked(qs))
    ensures Evaluate(ps, context, lib).decision == Evaluate(qs, context, lib).decision
    ensures Evaluate(ps, context, lib).reason.ExplicitDeny? == Evaluate(qs, context, lib).reason.ExplicitDeny?
  {
    DecisionMeaning(ps, context, lib);
    DecisionMeaning(qs, context, lib);
    DecisiveAgrees(ps, qs, true, context, lib);
    DecisiveAgrees(ps, qs, false, context, lib);
  }

  lemma DecisiveAgrees(ps: seq<Policy>, qs: seq<Policy>, deny: bool, context: Json, lib: Library)
    requires multiset(Unranked(ps)) == multiset(Unranked(qs))
    ensures SomeDecisive(ps, deny, context, lib) <==> SomeDecisive(qs, deny, context, lib)
  {
    DecisiveUnranked(ps, deny, context, lib);
    DecisiveUnranked(qs, deny, context, lib);
    SamePoliciesSameDecisive(Unranked(ps), Unranked(qs), deny, context, lib);
  }

  // ----- The named policy ----------------------------------------------------------------------------

  /** The policy a verdict names is the first decisive one by priority and then by input order. */
  lemma NamedPolicyIsFirstDecisive(ps: seq<Policy>, context: Json, lib: Library)
    ensures var r := Evaluate(ps, context, lib).reason;
            r.ExplicitDeny? || r.PermittedBy? ==>
              exists j :: FirstByKey(ps, ByPriority(), Both(IsEnabled(), Decisive(r.ExplicitDeny?, context, lib)), j)
                          && ps[j].name == r.policyName
  {
    var r := Evaluate(ps, context, lib).reason;
    if r.ExplicitDeny? || r.PermittedBy? {
      var p := Decisive(r.ExplicitDeny?, context, lib);
      FindInSorted(Enabled(ps), ByPriority(), p);
      var found := Find(Applicable(ps), p).value;
      var i :| FirstByKey(Enabled(ps), ByPriority(), p, i) && Enabled(ps)[i] == found;
      FirstAmongFiltered(ps, ByPriority(), IsEnabled(), p, i);
    }
  }
}
