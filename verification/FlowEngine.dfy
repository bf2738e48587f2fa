/** Configurable authentication flows: validation, conditions and the choice of the next step. */
module FlowEngine {
  import opened Collections
  import opened Wrappers
  import opened Ordering
  import opened Json
  import Text

  datatype Operator = Exists | NotExists | Eq | Neq | In | NotIn | UnknownOperator

  datatype Condition = Condition(field: string, operator: Operator, value: Json)

  datatype StepType = Password | Totp | WebAuthn | Social | Ldap | EmailOtp | MagicLink | Consent | UnknownType

  /** `fallbackStepId` is empty when there is no fallback. */
  datatype FlowStep = FlowStep(id: string, stepType: StepType, required: bool, order: int,
                               condition: Option<Condition>, fallbackStepId: string)

  type Context = map<string, Json>

  // ----- Validation --------------------------------------------------------------------------------

  datatype ValidationError = NoSteps | DuplicateIds | DuplicateOrders | UnknownFallback

  function IdsOf(steps: seq<FlowStep>): seq<string>
  {
    seq(|steps|, i requires 0 <= i < |steps| => steps[i].id)
  }

  function OrdersOf(steps: seq<FlowStep>): seq<int>
  {
    seq(|steps|, i requires 0 <= i < |steps| => steps[i].order)
  }

  ghost predicate ValidFlow(steps: seq<FlowStep>)
  {
    && steps != []
    && (forall i, j :: 0 <= i < j < |steps| ==> steps[i].id != steps[j].id && steps[i].order != steps[j].order)
    && forall s :: s in steps && s.fallbackStepId != "" ==> s.fallbackStepId in IdsOf(steps)
  }

  function ToSet<T(==)>(xs: seq<T>): set<T>
  {
    set x | x in xs
  }

  lemma {:induction false} SetSizeTellsDistinct<T>(xs: seq<T>)
    ensures |ToSet(xs)| <= |xs|
    ensures |ToSet(xs)| == |xs| <==> Distinct(xs)
  {
    if xs != [] {
      var rest, last := xs[..|xs| - 1], xs[|xs| - 1];
      SetSizeTellsDistinct(rest);
      assert ToSet(xs) == ToSet(rest) + {last};
      if last in rest {
        var i :| 0 <= i < |rest| && rest[i] == last;
        assert xs[i] == xs[|xs| - 1];
        assert ToSet(xs) == ToSet(rest);
      } else {
        assert Distinct(rest) ==> Distinct(xs);
      }
      assert Distinct(xs) ==> Distinct(rest);
    }
  }

  lemma IdsOfMembers(steps: seq<FlowStep>, id: string)
    ensures id in IdsOf(steps) <==> exists t :: t in steps && t.id == id
  {
    if id in IdsOf(steps) {
      var i :| 0 <= i < |steps| && IdsOf(steps)[i] == id;
      assert steps[i] in steps && steps[i].id == id;
    }
    if t :| t in steps && t.id == id {
      var i :| 0 <= i < |steps| && steps[i] == t;
      assert IdsOf(steps)[i] == id;
    }
  }

  ghost predicate SharesId(steps: seq<FlowStep>)
  {
    exists i, j :: 0 <= i < j < |steps| && steps[i].id == steps[j].id
  }

  ghost predicate SharesOrder(steps: seq<FlowStep>)
  {
    exists i, j :: 0 <= i < j < |steps| && steps[i].order == steps[j].order
  }

  lemma DistinctTells(steps: seq<FlowStep>)
    ensures Distinct(IdsOf(steps)) <==> !SharesId(steps)
    ensures Distinct(OrdersOf(steps)) <==> !SharesOrder(steps)
  {
    var ids, orders := IdsOf(steps), OrdersOf(steps);
    assert forall i :: 0 <= i < |steps| ==> ids[i] == steps[i].id && orders[i] == steps[i].order;
  }

  /** Accepts exactly the flows with at least one step, unique ids, unique orders and known fallbacks. */
  method ValidateSteps(steps: seq<FlowStep>) returns (r: Result<(), ValidationError>)
    ensures r.Ok? <==> ValidFlow(steps)
    ensures r == Err(NoSteps) <==> steps == []
    ensures r == Err(DuplicateIds) <==> SharesId(steps)
    ensures r == Err(DuplicateOrders) <==> !SharesId(steps) && SharesOrder(steps)
  {
    if |steps| == 0 {
      return Err(NoSteps);
    }
    DistinctTells(steps);
    var ids := IdsOf(steps);
    SetSizeTellsDistinct(ids);
    if |ToSet(ids)| != |ids| {
      return Err(DuplicateIds);
    }
    var orders := OrdersOf(steps);
    SetSizeTellsDistinct(orders);
    if |ToSet(orders)| != |orders| {
      return Err(DuplicateOrders);
    }
    var k := 0;
    while k < |steps|
      invariant 0 <= k <= |steps|
      invariant forall i :: 0 <= i < k && steps[i].fallbackStepId != "" ==> steps[i].fallbackStepId in ids
    {
      if steps[k].fallbackStepId != "" && steps[k].fallbackStepId !in ids {
        assert steps[k] in steps;
        return Err(UnknownFallback);
      }
      k := k + 1;
    }
    return Ok(());
  }

  // ----- Conditions --------------------------------------------------------------------------------

  function EvaluateCondition(c: Condition, context: Context): bool
  {
    var raw := Resolve(Obj(context), Text.Split(c.field, '.'), true);
    match c.operator
    case Exists => !raw.Undefined? && !raw.Null?
    case NotExists => raw.Undefined? || raw.Null?
    case Eq => StrictEq(raw, c.value)
    case Neq => !StrictEq(raw, c.value)
    case In =>
      if !c.value.Arr? then false
      else if raw.Arr? then exists i :: 0 <= i < |raw.items| && Includes(c.value.items, raw.items[i])
      else Includes(c.value.items, raw)
    case NotIn =>
      if !c.value.Arr? then true
      else if raw.Arr? then !exists i :: 0 <= i < |raw.items| && Includes(c.value.items, raw.items[i])
      else !Includes(c.value.items, raw)
    case UnknownOperator => false
  }

  // ----- The next step -----------------------------------------------------------------------------

  predicate Applicable(s: FlowStep, context: Context)
  {
    s.condition.None? || EvaluateCondition(s.condition.value, context) || s.required
  }

  function ApplicableIn(context: Context): FlowStep -> bool
  {
    (s: FlowStep) => Applicable(s, context)
  }

  function ByOrder(): FlowStep -> int
  {
    (s: FlowStep) => s.order
  }

  method FirstApplicableStep(steps: seq<FlowStep>, context: Context) returns (r: Option<FlowStep>)
    ensures r == Find(steps, ApplicableIn(context))
  {
    var i := 0;
    while i < |steps|
      invariant 0 <= i <= |steps|
      invariant Find(steps, ApplicableIn(context)) == Find(steps[i..], ApplicableIn(context))
    {
      var step := steps[i];
      assert steps[i..][1..] == steps[i + 1..];
      if step.condition.None? {
        return Some(step);
      }
      if EvaluateCondition(step.condition.value, context) {
        return Some(step);
      }
      if step.required {
        return Some(step);
      }
      i := i + 1;
    }
    return None;
  }

  function FindIndex(steps: seq<FlowStep>, id: string): (r: Option<nat>)
    ensures r.Some? ==> r.value < |steps| && steps[r.value].id == id
    ensures r.None? ==> forall s :: s in steps ==> s.id != id
  {
    if steps == [] then None
    else if steps[0].id == id then Some(0)
    else
      match FindIndex(steps[1..], id)
      case None => None
      case Some(i) => Some(i + 1)
  }

  datatype FlowError = StepNotFound

  function GetNextStep(steps: seq<FlowStep>, currentStepId: Option<string>, context: Context): Result<Option<FlowStep>, FlowError>
  {
    var sorted := SortBy(steps, ByOrder());
    match currentStepId
    case None => Ok(Find(sorted, ApplicableIn(context)))
    case Some(id) =>
      match FindIndex(sorted, id)
      case None => Err(StepNotFound)
      case Some(i) => Ok(Find(sorted[i + 1..], ApplicableIn(context)))
  }

  /** `r` is the applicable step of least order above `floor` (any order when `floor` is none). */
  ghost predicate LeastAbove(steps: seq<FlowStep>, context: Context, floor: Option<int>, r: Option<FlowStep>)
  {
    && (r.Some? ==> r.value in steps && Applicable(r.value, context) && (floor.Some? ==> r.value.order > floor.value))
    && forall m :: m in steps && Applicable(m, context) && (floor.Some? ==> m.order > floor.value) ==>
         r.Some? && r.value.order <= m.order
  }

  lemma {:induction false} FindIsLeast(sorted: seq<FlowStep>, context: Context)
    requires Sorted(sorted, ByOrder())
    ensures LeastAbove(sorted, context, None, Find(sorted, ApplicableIn(context)))
  {
    if sorted != [] && !Applicable(sorted[0], context) {
      assert forall i, j :: 0 <= i < j < |sorted| - 1 ==> ByOrder()(sorted[1..][i]) <= ByOrder()(sorted[1..][j]);
      FindIsLeast(sorted[1..], context);
    } else if sorted != [] {
      assert forall i :: 0 <= i < |sorted| ==> ByOrder()(sorted[0]) <= ByOrder()(sorted[i]);
    }
  }

  ghost predicate StrictlyOrdered(steps: seq<FlowStep>)
  {
    forall i, j :: 0 <= i < j < |steps| ==> steps[i].order < steps[j].order
  }

  lemma SortedFlow(steps: seq<FlowStep>)
    requires ValidFlow(steps)
    ensures var sorted := SortBy(steps, ByOrder());
            && StrictlyOrdered(sorted) && |sorted| == |steps|
            && (forall s :: s in sorted <==> s in steps)
            && (forall i, j :: 0 <= i < j < |sorted| ==> sorted[i].id != sorted[j].id)
  {
    var sorted := SortBy(steps, ByOrder());
    SortBySorts(steps, ByOrder());
    SortByKeepsMembers(steps, ByOrder());
    assert Distinct(steps) by {
      assert forall i, j :: 0 <= i < j < |steps| ==> steps[i].id != steps[j].id;
    }
    SameMultisetDistinct(steps, sorted);
    forall i, j | 0 <= i < j < |sorted| ensures sorted[i].order < sorted[j].order && sorted[i].id != sorted[j].id {
      assert ByOrder()(sorted[i]) <= ByOrder()(sorted[j]);
      assert sorted[i] != sorted[j];
      StepsDiffer(steps, sorted[i], sorted[j]);
    }
  }

  lemma StepsDiffer(steps: seq<FlowStep>, s: FlowStep, t: FlowStep)
    requires ValidFlow(steps) && s in steps && t in steps && s != t
    ensures s.id != t.id && s.order != t.order
  {
    var a :| 0 <= a < |steps| && steps[a] == s;
    var b :| 0 <= b < |steps| && steps[b] == t;
  }

  lemma {:induction false} SameMultisetDistinct<T>(xs: seq<T>, ys: seq<T>)
    requires Distinct(xs) && multiset(xs) == multiset(ys)
    ensures Distinct(ys)
  {
    forall i, j | 0 <= i < j < |ys| ensures ys[i] != ys[j] {
      if ys[i] == ys[j] {
        assert ys == ys[..i] + [ys[i]] + ys[i + 1..j] + [ys[j]] + ys[j + 1..];
        assert multiset(ys)[ys[i]] >= 2;
        DistinctCountsOnce(xs, ys[i]);
      }
    }
  }

  lemma {:induction false} DistinctCountsOnce<T>(xs: seq<T>, x: T)
    requires Distinct(xs)
    ensures multiset(xs)[x] <= 1
  {
    if xs != [] {
      var rest := xs[..|xs| - 1];
      assert xs == rest + [xs[|xs| - 1]];
      DistinctCountsOnce(rest, x);
      assert forall k :: 0 <= k < |rest| ==> rest[k] != xs[|xs| - 1];
      assert x !in rest ==> multiset(rest)[x] == 0;
    }
  }

  lemma LeastAboveTransfers(xs: seq<FlowStep>, ys: seq<FlowStep>, context: Context, floor: Option<int>, r: Option<FlowStep>)
    requires LeastAbove(xs, context, floor, r) && forall s :: s in xs <==> s in ys
    ensures LeastAbove(ys, context, floor, r)
  {
  }

  /** A flow starts with the applicable step of least order. */
  lemma FirstStepIsLeast(steps: seq<FlowStep>, context: Context)
    requires ValidFlow(steps)
    ensures GetNextStep(steps, None, context).Ok?
    ensures LeastAbove(steps, context, None, GetNextStep(steps, None, context).value)
  {
    var sorted := SortBy(steps, ByOrder());
    SortedFlow(steps);
    FindIsLeast(sorted, context);
    LeastAboveTransfers(sorted, steps, context, None, Find(sorted, ApplicableIn(context)));
  }

  /** The next step is the applicable one of least order above the current step's order. Required
      steps are always applicable, so advancing never jumps over one. */
  lemma NextStepIsLeast(steps: seq<FlowStep>, c: FlowStep, context: Context)
    requires ValidFlow(steps) && c in steps
    ensures GetNextStep(steps, Some(c.id), context).Ok?
    ensures LeastAbove(steps, context, Some(c.order), GetNextStep(steps, Some(c.id), context).value)
  {
    var sorted := SortBy(steps, ByOrder());
    SortedFlow(steps);
    NextInSorted(sorted, c, FindIndex(sorted, c.id), context);
    LeastAboveTransfers(sorted, steps, context, Some(c.order), GetNextStep(steps, Some(c.id), context).value);
  }

  lemma NextInSorted(sorted: seq<FlowStep>, c: FlowStep, at: Option<nat>, context: Context)
    requires StrictlyOrdered(sorted) && c in sorted && at == FindIndex(sorted, c.id)
    requires forall i, j :: 0 <= i < j < |sorted| ==> sorted[i].id != sorted[j].id
    ensures at.Some? && LeastAbove(sorted, context, Some(c.order), Find(sorted[at.value + 1..], ApplicableIn(context)))
  {
    IndexOfStep(sorted, c, at.value);
    FindAboveIsLeast(sorted, at.value, context);
  }

  lemma FindAboveIsLeast(sorted: seq<FlowStep>, i: nat, context: Context)
    requires StrictlyOrdered(sorted) && i < |sorted|
    ensures LeastAbove(sorted, context, Some(sorted[i].order), Find(sorted[i + 1..], ApplicableIn(context)))
  {
    LaterIsAbove(sorted, i);
    FindIsLeast(sorted[i + 1..], context);
  }

  lemma IndexOfStep(sorted: seq<FlowStep>, c: FlowStep, i: nat)
    requires c in sorted && i < |sorted| && sorted[i].id == c.id
    requires forall i, j :: 0 <= i < j < |sorted| ==> sorted[i].id != sorted[j].id
    ensures sorted[i] == c
  {
  }

  lemma LaterIsAbove(sorted: seq<FlowStep>, i: nat)
    requires StrictlyOrdered(sorted) && i < |sorted|
    ensures Sorted(sorted[i + 1..], ByOrder())
    ensures forall m :: m in sorted[i + 1..] <==> m in sorted && m.order > sorted[i].order
  {
    var later := sorted[i + 1..];
    forall m | m in sorted && m.order > sorted[i].order ensures m in later {
      var j :| 0 <= j < |sorted| && sorted[j] == m;
      assert later[j - i - 1] == m;
    }
  }
}
