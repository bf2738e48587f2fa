/**
 * The condition a flow's author can check: completion is safe exactly when no step that can fail falls back
 * past a required step, provided one-time-code steps can be answered.
 */
module FlowBypass {
  import opened Wrappers
  import opened Json
  import opened FlowEngine
  import opened FlowExecutor
  import opened FlowSafety
  import opened FlowRoutes
  import Text

  // ----- Without a bypass nothing is avoided -----------------------------------------------------------

  ghost predicate UpTo(a: Position, r: FlowStep)
  {
    a.At? && a.step.order <= r.order
  }

  lemma HopStaysBelow(steps: seq<FlowStep>, r: FlowStep, a: Position, b: Position)
    requires ValidFlow(steps) && NoRequiredStepBypassed(steps) && r in steps && r.required
    requires UpTo(a, r) && Hop(steps, r, a, b)
    ensures UpTo(b, r)
  {
    if Advances(steps, r, a, b) {
      if a.step.order == r.order {
        SameOrderSameStep(steps, a.step, r);
      }
    } else {
      assert !Bypass(steps, a.step, b.step, r);
    }
  }

  lemma {:induction false} RouteStaysBelow(steps: seq<FlowStep>, r: FlowStep, a: Position, path: seq<Position>)
    requires ValidFlow(steps) && NoRequiredStepBypassed(steps) && r in steps && r.required
    requires UpTo(a, r)
    ensures !Leads(steps, r, a, path)
    decreases |path|
  {
    if path != [] && Hop(steps, r, a, path[0]) {
      HopStaysBelow(steps, r, a, path[0]);
      RouteStaysBelow(steps, r, path[0], path[1..]);
    }
  }

  /** In any validated flow. */
  lemma {:induction false} NoBypassNothingAvoidable(steps: seq<FlowStep>, r: FlowStep)
    requires ValidFlow(steps) && NoRequiredStepBypassed(steps) && r in steps && r.required
    ensures !Avoidable(steps, r)
  {
    forall a, path | StartsAt(steps, a) ensures !Leads(steps, r, a, path) {
      RouteStaysBelow(steps, r, a, path);
    }
  }

  // ----- A bypass is a route ---------------------------------------------------------------------------

  ghost predicate IdentifiedFrom(steps: seq<FlowStep>, floor: int, t: FlowStep)
  {
    exists i :: i in steps && Always(i) && Identifies(i) && floor <= i.order < t.order
  }

  /** Going up from `x`, every step that cannot be skipped can be made to succeed: its type is known, and a
      user is known by the time a one-time code is asked for. */
  ghost predicate Climbable(steps: seq<FlowStep>, x: FlowStep, known: bool)
  {
    forall t :: t in steps && Always(t) && x.order <= t.order ==>
      && !t.stepType.UnknownType?
      && (t.stepType.Totp? ==> known || IdentifiedFrom(steps, x.order, t))
  }

  /** Every step that cannot be skipped can succeed on the way up from the start. */
  ghost predicate Usable(steps: seq<FlowStep>)
  {
    forall t :: t in steps && Always(t) ==>
      !t.stepType.UnknownType? && (t.stepType.Totp? ==> exists i :: i in steps && Always(i) && Identifies(i) && i.order < t.order)
  }

  /** A user is known when `s` is reached on the way up. */
  ghost predicate IdentifiedBefore(steps: seq<FlowStep>, s: FlowStep)
  {
    exists i :: i in steps && Always(i) && Identifies(i) && i.order < s.order
  }

  /** One-time codes asked for after falling back from `s` to `f` can be answered too. */
  ghost predicate UsableAfter(steps: seq<FlowStep>, s: FlowStep, f: FlowStep)
  {
    Climbable(steps, f, IdentifiedBefore(steps, s))
  }

  /** At `x` every identifying step below has been passed. */
  ghost predicate KnowsBelow(steps: seq<FlowStep>, x: FlowStep, known: bool)
  {
    forall i :: i in steps && Always(i) && Identifies(i) && i.order < x.order ==> known
  }

  function CountAbove(steps: seq<FlowStep>, floor: int): nat
  {
    if steps == [] then 0 else (if steps[0].order > floor then 1 else 0) + CountAbove(steps[1..], floor)
  }

  lemma {:induction false} FewerAbove(steps: seq<FlowStep>, low: int, high: int)
    requires low <= high
    ensures CountAbove(steps, high) <= CountAbove(steps, low)
    ensures (exists m :: m in steps && low < m.order <= high) ==> CountAbove(steps, high) < CountAbove(steps, low)
  {
    if steps != [] {
      FewerAbove(steps[1..], low, high);
      if m :| m in steps && low < m.order <= high {
        assert m == steps[0] || m in steps[1..];
      }
    }
  }

  /** The least step above `floor` that is always applicable. */
  lemma {:induction false} LeastAlways(steps: seq<FlowStep>, floor: Option<int>) returns (next: Option<FlowStep>)
    ensures next.Some? ==> next.value in steps && Always(next.value) && IsAbove(next.value.order, floor)
    ensures forall m :: m in steps && Always(m) && IsAbove(m.order, floor) ==> next.Some? && next.value.order <= m.order
  {
    if steps == [] {
      next := None;
    } else {
      next := LeastAlways(steps[1..], floor);
      var s := steps[0];
      if Always(s) && IsAbove(s.order, floor) && (next.None? || s.order < next.value.order) {
        next := Some(s);
      }
    }
  }

  /** Passing `x` on the way up keeps what is above climbable. */
  lemma ClimbOn(steps: seq<FlowStep>, x: FlowStep, n: FlowStep, known: bool)
    requires ValidFlow(steps) && x in steps && n in steps && x.order < n.order && Climbable(steps, x, known)
    requires forall m :: m in steps && Always(m) && x.order < m.order ==> n.order <= m.order
    ensures Climbable(steps, n, known || Identifies(x))
  {
    forall t | t in steps && Always(t) && n.order <= t.order && t.stepType.Totp? && !known && !Identifies(x)
      ensures IdentifiedFrom(steps, n.order, t)
    {
      var i :| i in steps && Always(i) && Identifies(i) && x.order <= i.order < t.order;
      if i.order == x.order {
        SameOrderSameStep(steps, i, x);
      }
      assert n.order <= i.order;
    }
  }

  lemma KnowsOn(steps: seq<FlowStep>, x: FlowStep, n: FlowStep, known: bool)
    requires ValidFlow(steps) && x in steps && KnowsBelow(steps, x, known)
    requires forall m :: m in steps && Always(m) && x.order < m.order ==> n.order <= m.order
    ensures KnowsBelow(steps, n, known || Identifies(x))
  {
    forall i | i in steps && Always(i) && Identifies(i) && i.order < n.order ensures known || Identifies(x) {
      if i.order == x.order {
        SameOrderSameStep(steps, i, x);
      }
    }
  }

  /** Where moving up from `x` leads: to the next step that cannot be skipped. */
  lemma ClimbHop(steps: seq<FlowStep>, r: FlowStep, a: Position, next: Option<FlowStep>) returns (b: Position)
    requires ValidFlow(steps) && a.At? && a.step in steps && a.step != r && Climbable(steps, a.step, a.known)
    requires next.Some? ==> next.value in steps && next.value.order > a.step.order
    requires forall m :: m in steps && Always(m) && a.step.order < m.order ==> next.Some? && next.value.order <= m.order
    ensures b == (match next case Some(n) => At(n, a.known || Identifies(a.step)) case None => Done)
    ensures Hop(steps, r, a, b)
  {
    b := match next case Some(n) => At(n, a.known || Identifies(a.step)) case None => Done;
    if Always(a.step) {
      assert a.step.stepType.Totp? ==> a.known || IdentifiedFrom(steps, a.step.order, a.step);
    }
    assert Reaches(steps, Some(a.step.order), b);
  }

  /** From above `r` to the end. */
  lemma {:induction false} ClimbToEnd(steps: seq<FlowStep>, r: FlowStep, a: Position) returns (path: seq<Position>)
    requires ValidFlow(steps) && a.At? && a.step in steps && a.step.order > r.order && Climbable(steps, a.step, a.known)
    ensures Leads(steps, r, a, path)
    decreases CountAbove(steps, a.step.order)
  {
    var next := LeastAlways(steps, Some(a.step.order));
    var b := ClimbHop(steps, r, a, next);
    if next.None? {
      path := [Done];
    } else {
      ClimbOn(steps, a.step, next.value, a.known);
      FewerAbove(steps, a.step.order, next.value.order);
      var rest := ClimbToEnd(steps, r, b);
      path := [b] + rest;
      assert path[1..] == rest;
    }
  }

  /** From below up to `s`, down its fallback, and on to the end. */
  lemma {:induction false} ClimbThenFall(steps: seq<FlowStep>, s: FlowStep, f: FlowStep, r: FlowStep, a: Position)
    returns (path: seq<Position>)
    requires ValidFlow(steps) && Bypass(steps, s, f, r) && UsableAfter(steps, s, f)
    requires a.At? && a.step in steps && a.step.order <= s.order
    requires Climbable(steps, a.step, a.known) && KnowsBelow(steps, a.step, a.known)
    ensures Leads(steps, r, a, path)
    decreases CountAbove(steps, a.step.order)
  {
    if a.step.order == s.order {
      SameOrderSameStep(steps, a.step, s);
      var b := At(f, a.known);
      var rest := FallThenClimb(steps, s, f, r, a);
      path := [b] + rest;
      assert path[1..] == rest;
    } else {
      var next := LeastAlways(steps, Some(a.step.order));
      var n := if next.Some? && next.value.order <= s.order then next.value else s;
      var b := ClimbHop(steps, r, a, Some(n));
      ClimbOn(steps, a.step, n, a.known);
      KnowsOn(steps, a.step, n, a.known);
      FewerAbove(steps, a.step.order, n.order);
      var rest := ClimbThenFall(steps, s, f, r, b);
      path := [b] + rest;
      assert path[1..] == rest;
    }
  }

  lemma FallThenClimb(steps: seq<FlowStep>, s: FlowStep, f: FlowStep, r: FlowStep, a: Position) returns (path: seq<Position>)
    requires ValidFlow(steps) && Bypass(steps, s, f, r) && UsableAfter(steps, s, f)
    requires a.At? && a.step == s && KnowsBelow(steps, s, a.known)
    ensures Hop(steps, r, a, At(f, a.known)) && Leads(steps, r, At(f, a.known), path)
  {
    assert IdentifiedBefore(steps, s) ==> a.known;
    assert Climbable(steps, f, a.known);
    path := ClimbToEnd(steps, r, At(f, a.known));
  }

  /** A bypass, with codes that can be answered, makes the required step avoidable. */
  lemma {:induction false} BypassAvoids(steps: seq<FlowStep>, s: FlowStep, f: FlowStep, r: FlowStep)
    requires ValidFlow(steps) && Usable(steps) && Bypass(steps, s, f, r) && UsableAfter(steps, s, f)
    ensures Avoidable(steps, r)
  {
    var next := LeastAlways(steps, None);
    var n := if next.Some? && next.value.order <= s.order then next.value else s;
    var a := At(n, false);
    forall t | t in steps && Always(t) && n.order <= t.order && t.stepType.Totp? ensures IdentifiedFrom(steps, n.order, t) {
      var i :| i in steps && Always(i) && Identifies(i) && i.order < t.order;
      assert n.order <= i.order;
    }
    var path := ClimbThenFall(steps, s, f, r, a);
    assert StartsAt(steps, a) && Leads(steps, r, a, path);
  }

  /** For flows whose steps can all be answered, in whichever way they are come to: a completed run has
      always had every required step succeed, exactly when no step that can fail falls back past one. */
  lemma {:induction false} SafeExactlyWithoutBypass(steps: seq<FlowStep>)
    requires ValidFlow(steps) && Separable(steps) && Usable(steps)
    requires forall s, f, r :: Bypass(steps, s, f, r) ==> UsableAfter(steps, s, f)
    ensures AlwaysSafe(steps) <==> NoRequiredStepBypassed(steps)
  {
    SafeExactlyWhenUnavoidable(steps);
    if NoRequiredStepBypassed(steps) {
      forall r | r in steps && r.required ensures !Avoidable(steps, r) {
        NoBypassNothingAvoidable(steps, r);
      }
    } else {
      var s, f, r :| Bypass(steps, s, f, r);
      BypassAvoids(steps, s, f, r);
    }
  }

  // ----- Which optional steps can be chosen freely -----------------------------------------------------

  /** The condition compares one field of the context, not one the handlers use, with a plain value. */
  predicate IsPlain(c: Condition)
  {
    && '.' !in c.field && c.field != "user" && c.field != "webauthnVerified"
    && (c.operator.Exists? || c.operator.NotExists?
        || ((c.operator.Eq? || c.operator.Neq?) && !c.value.Arr? && !c.value.Obj?))
  }

  /** The conditional optional steps have plain conditions on fields of their own. */
  ghost predicate PlainConditions(steps: seq<FlowStep>)
  {
    && (forall s :: s in steps && !Always(s) ==> IsPlain(s.condition.value))
    && (forall s, t :: s in steps && t in steps && !Always(s) && !Always(t) && s != t ==>
          s.condition.value.field != t.condition.value.field)
  }

  /** A field value that makes the condition hold or fail. */
  function Setting(c: Condition, holds: bool): Json
  {
    match c.operator
    case Exists => if holds then Bool(true) else Null
    case NotExists => if holds then Null else Bool(true)
    case Eq => if holds then c.value else if c.value == Null then Bool(true) else Null
    case _ => if !holds then c.value else if c.value == Null then Bool(true) else Null
  }

  lemma SettingDecides(c: Condition, holds: bool, context: Context)
    requires IsPlain(c) && c.field in context && context[c.field] == Setting(c, holds)
    ensures EvaluateCondition(c, context) <==> holds
  {
    Text.SplitPlain(c.field, '.');
    var parts := [c.field];
    assert parts[1..] == [];
    assert Resolve(Obj(context), parts, true) == Resolve(context[c.field], [], true) == context[c.field];
  }

  function Settings(steps: seq<FlowStep>, want: set<string>): Context
  {
    if steps == [] then map["webauthnVerified" := Bool(true)]
    else
      var rest, s := Settings(steps[1..], want), steps[0];
      if Always(s) then rest else rest[s.condition.value.field := Setting(s.condition.value, s.id in want)]
  }

  lemma {:induction false} SettingsHold(steps: seq<FlowStep>, want: set<string>)
    requires PlainConditions(steps)
    ensures var k := Settings(steps, want);
            && "user" !in k && "webauthnVerified" in k && k["webauthnVerified"] == Bool(true)
            && forall s :: s in steps && !Always(s) ==>
                 s.condition.value.field in k && k[s.condition.value.field] == Setting(s.condition.value, s.id in want)
  {
    if steps != [] {
      assert forall s :: s in steps[1..] ==> s in steps;
      SettingsHold(steps[1..], want);
      forall s | s in steps && !Always(s)
        ensures var k := Settings(steps, want);
                s.condition.value.field in k && k[s.condition.value.field] == Setting(s.condition.value, s.id in want)
      {
        assert s == steps[0] || s in steps[1..];
      }
    }
  }

  lemma SettingsArrange(steps: seq<FlowStep>, context: Context, want: set<string>)
    requires PlainConditions(steps)
    ensures Arranges(steps, context, want, Settings(steps, want))
  {
    var k := Settings(steps, want);
    SettingsHold(steps, want);
    forall u: Context, s | u.Keys <= {"user"} && s in steps && !Always(s)
      ensures EvaluateCondition(s.condition.value, context + k + u) <==> s.id in want
    {
      SettingDecides(s.condition.value, s.id in want, context + k + u);
    }
  }

  /** Flows without conditional optional steps in particular. */
  lemma {:induction false} PlainConditionsAreSeparable(steps: seq<FlowStep>)
    requires PlainConditions(steps)
    ensures Separable(steps)
  {
    forall context, want ensures Arrangeable(steps, context, want) {
      SettingsArrange(steps, context, want);
    }
  }
}
