/**
 * When completion is safe, exactly. A flow is a graph: a step that succeeds, or is skipped, leads on to a
 * later step, and a step that can fail leads to its fallback. A required step can be avoided when some
 * route through that graph reaches the end without the step succeeding.
 */
module FlowRoutes {
  import opened Wrappers
  import opened Json
  import opened FlowEngine
  import opened FlowExecutor
  import opened FlowSafety

  // ----- The graph -----------------------------------------------------------------------------------

  /** Applicable in every context. */
  predicate Always(s: FlowStep)
  {
    s.condition.None? || s.required
  }

  /** A success tells who the user is. */
  predicate Identifies(s: FlowStep)
  {
    s.stepType.Password? || s.stepType.Ldap? || s.stepType.WebAuthn?
  }

  predicate CanSucceed(s: FlowStep, known: bool)
  {
    !s.stepType.UnknownType? && (s.stepType.Totp? ==> known)
  }

  /** Where a flow stands: at a step, with a user known or not, or at the end. */
  datatype Position = At(step: FlowStep, known: bool) | Done

  predicate IsAbove(order: int, floor: Option<int>)
  {
    floor.Some? ==> order > floor.value
  }

  /** Going up from `floor` one may come to `b`: nothing that is always applicable lies in between. */
  ghost predicate Reaches(steps: seq<FlowStep>, floor: Option<int>, b: Position)
  {
    && (b.At? ==> b.step in steps && IsAbove(b.step.order, floor))
    && forall m :: m in steps && Always(m) && IsAbove(m.order, floor) ==> b.At? && b.step.order <= m.order
  }

  /** The step succeeds, or is skipped for its condition; a required `r` may not be the one that succeeds. */
  ghost predicate Advances(steps: seq<FlowStep>, r: FlowStep, a: Position, b: Position)
    requires a.At?
  {
    && a.step != r && (CanSucceed(a.step, a.known) || !Always(a.step))
    && Reaches(steps, Some(a.step.order), b)
    && (b.At? ==> b.known == (a.known || Identifies(a.step)))
  }

  ghost predicate FallsTo(steps: seq<FlowStep>, a: Position, b: Position)
    requires a.At?
  {
    && CanFail(a.step) && a.step.fallbackStepId != ""
    && b.At? && b.step in steps && b.step.id == a.step.fallbackStepId && b.known == a.known
  }

  ghost predicate Hop(steps: seq<FlowStep>, r: FlowStep, a: Position, b: Position)
  {
    a.At? && a.step in steps && (Advances(steps, r, a, b) || FallsTo(steps, a, b))
  }

  /** `path` leads from `a` to the end. */
  ghost predicate Leads(steps: seq<FlowStep>, r: FlowStep, a: Position, path: seq<Position>)
    decreases |path|
  {
    if path == [] then a.Done? else Hop(steps, r, a, path[0]) && Leads(steps, r, path[0], path[1..])
  }

  ghost predicate StartsAt(steps: seq<FlowStep>, a: Position)
  {
    a.At? && !a.known && Reaches(steps, None, a)
  }

  ghost predicate Avoidable(steps: seq<FlowStep>, r: FlowStep)
  {
    exists a, path :: StartsAt(steps, a) && Leads(steps, r, a, path)
  }

  /** Whatever the initial context and the requests, a completed run has had every required step succeed. */
  ghost predicate AlwaysSafe(steps: seq<FlowStep>)
  {
    forall context, qs :: SafeRun(steps, context, qs)
  }

  ghost predicate SafeRun(steps: seq<FlowStep>, context: Context, qs: seq<Request>)
  {
    StartedRun(steps, context, qs).complete ==>
      forall r :: r in steps && r.required ==> r.id in StartedRun(steps, context, qs).succeeded
  }

  // ----- Every run follows a route -------------------------------------------------------------------

  /** The session stands where `a` says; a user it knows is known at `a`. */
  ghost predicate Follows(steps: seq<FlowStep>, st: FlowState, a: Position)
  {
    if st.complete then a.Done?
    else a.At? && a.step in steps && st.currentStepId == Some(a.step.id) && (st.userId != "" ==> a.known)
  }

  /** Where the flow stands after moving on. */
  function Onward(steps: seq<FlowStep>, step: FlowStep, context: Context, known: bool): Position
  {
    match GetNextStep(steps, Some(step.id), context)
    case Ok(Some(next)) => At(next, known)
    case _ => Done
  }

  lemma AlwaysApplies(m: FlowStep, context: Context)
    requires Always(m)
    ensures Applicable(m, context)
  {
  }

  lemma LeastReaches(steps: seq<FlowStep>, context: Context, floor: Option<int>, next: Option<FlowStep>, b: Position)
    requires LeastAbove(steps, context, floor, next)
    requires if next.Some? then b.At? && b.step == next.value else b.Done?
    ensures Reaches(steps, floor, b)
  {
    forall m | m in steps && Always(m) && IsAbove(m.order, floor) ensures b.At? && b.step.order <= m.order {
      AlwaysApplies(m, context);
    }
  }

  lemma OnwardReaches(steps: seq<FlowStep>, step: FlowStep, context: Context, known: bool)
    requires ValidFlow(steps) && step in steps
    ensures Reaches(steps, Some(step.order), Onward(steps, step, context, known))
  {
    NextStepIsLeast(steps, step, context);
    var next := GetNextStep(steps, Some(step.id), context).value;
    LeastReaches(steps, context, Some(step.order), next, Onward(steps, step, context, known));
  }

  lemma AdvanceFollows(steps: seq<FlowStep>, st: FlowState, st': FlowState, step: FlowStep, known: bool)
    requires ValidFlow(steps) && step in steps && !st.complete && (st.userId != "" ==> known)
    requires st' == Advance(steps, st, step).0
    ensures Follows(steps, st', Onward(steps, step, st.context, known)) && st'.succeeded == st.succeeded
  {
    NextStepIsLeast(steps, step, st.context);
  }

  lemma FallBackFollows(steps: seq<FlowStep>, st: FlowState, st': FlowState, a: Position, otherwise: Reply) returns (b: Position)
    requires ValidFlow(steps) && a.At? && !st.complete && Follows(steps, st, a) && CanFail(a.step)
    requires st' == FallBack(st, a.step, otherwise).0
    ensures Follows(steps, st', b) && (b == a || FallsTo(steps, a, b)) && st'.succeeded == st.succeeded
  {
    b := a;
    if a.step.fallbackStepId != "" {
      IdsOfMembers(steps, a.step.fallbackStepId);
      var f :| f in steps && f.id == a.step.fallbackStepId;
      b := At(f, a.known);
    }
  }

  lemma SuccessNeedsUser(step: FlowStep, userId: string, context: Context, q: Request, known: bool)
    requires userId != "" ==> known
    ensures var d := Dispatch(step, userId, context, q);
            && (d.Success? ==> CanSucceed(step, known) && (d.userId != "" ==> known || Identifies(step)))
            && (d.Crash? || d.Failure? ==> CanFail(step))
  {
  }

  /** Moving on after a success or a skip is an edge. */
  lemma AdvanceHops(steps: seq<FlowStep>, r: FlowStep, st: FlowState, st': FlowState, a: Position, b: Position)
    requires ValidFlow(steps) && a.At? && a.step in steps && a.step != r && !st.complete
    requires CanSucceed(a.step, a.known) || !Always(a.step)
    requires st.userId != "" ==> a.known || Identifies(a.step)
    requires st' == Advance(steps, st, a.step).0 && b == Onward(steps, a.step, st.context, a.known || Identifies(a.step))
    ensures Follows(steps, st', b) && Hop(steps, r, a, b)
  {
    AdvanceFollows(steps, st, st', a.step, a.known || Identifies(a.step));
    OnwardReaches(steps, a.step, st.context, a.known || Identifies(a.step));
  }

  lemma AttemptHops(steps: seq<FlowStep>, r: FlowStep, st: FlowState, st': FlowState, a: Position, q: Request) returns (b: Position)
    requires ValidFlow(steps) && r in steps && a.At? && !st.complete && Follows(steps, st, a)
    requires st' == Attempt(steps, st, a.step, q).0 && r.id !in st'.succeeded
    ensures Follows(steps, st', b) && (b == a || Hop(steps, r, a, b))
  {
    SuccessNeedsUser(a.step, st.userId, st.context, q, a.known);
    match Dispatch(a.step, st.userId, st.context, q)
    case Unauthorized => b := a;
    case Crash => b := FallBackFollows(steps, st, st', a, StepCrashed);
    case Failure => b := FallBackFollows(steps, st, st', a, StepResult(false, Some(a.step.id), false));
    case Success(userId, context) =>
      var st2 := st.(userId := userId, context := context, succeeded := st.succeeded + {a.step.id});
      b := Onward(steps, a.step, context, a.known || Identifies(a.step));
      AdvanceKeepsUser(steps, st2, a.step);
      AdvanceHops(steps, r, st2, st', a, b);
  }

  /** One request moves along one edge, or stays. */
  lemma ProcessHops(steps: seq<FlowStep>, r: FlowStep, st: FlowState, st': FlowState, a: Position, q: Request) returns (b: Position)
    requires ValidFlow(steps) && r in steps && r.required && a.At? && !st.complete && Follows(steps, st, a)
    requires st' == Process(steps, st, a.step.id, q).0 && r.id !in st'.succeeded
    ensures Follows(steps, st', b) && (b == a || Hop(steps, r, a, b))
  {
    SameOrderSameStep(steps, StepNamed(steps, a.step.id).value, a.step);
    var st1 := st.(context := st.context + q.external);
    if Skipped(a.step, st1.context) {
      b := Onward(steps, a.step, st1.context, a.known || Identifies(a.step));
      AdvanceHops(steps, r, st1, st', a, b);
    } else {
      b := AttemptHops(steps, r, st1, st', a, q);
    }
  }

  lemma ProcessGrows(steps: seq<FlowStep>, st: FlowState, stepId: string, q: Request)
    ensures st.succeeded <= Process(steps, st, stepId, q).0.succeeded
  {
  }

  lemma {:induction false} RunGrows(steps: seq<FlowStep>, st: FlowState, qs: seq<Request>)
    ensures st.succeeded <= Run(steps, st, qs).succeeded
    decreases |qs|
  {
    if qs != [] && st.currentStepId.Some? {
      ProcessGrows(steps, st, st.currentStepId.value, qs[0]);
      RunGrows(steps, Process(steps, st, st.currentStepId.value, qs[0]).0, qs[1..]);
    }
  }

  /** A run that completes without `r` traces a route that avoids it. */
  lemma {:induction false} RunTraces(steps: seq<FlowStep>, r: FlowStep, st: FlowState, a: Position, qs: seq<Request>)
    returns (path: seq<Position>)
    requires ValidFlow(steps) && r in steps && r.required && a.At? && !st.complete && Follows(steps, st, a)
    requires Run(steps, st, qs).complete && r.id !in Run(steps, st, qs).succeeded
    ensures Leads(steps, r, a, path)
    decreases |qs|
  {
    var st' := Process(steps, st, a.step.id, qs[0]).0;
    RunGrows(steps, st', qs[1..]);
    var b := ProcessHops(steps, r, st, st', a, qs[0]);
    if st'.complete {
      path := [Done];
    } else {
      var rest := RunTraces(steps, r, st', b, qs[1..]);
      path := if b == a then rest else [b] + rest;
      assert b != a ==> path[1..] == rest;
    }
  }

  /** In any validated flow, conditions included: a completed run without a required step gives a route that
      avoids it. */
  lemma {:induction false} UnavoidableSucceeds(steps: seq<FlowStep>, r: FlowStep, context: Context, qs: seq<Request>)
    requires ValidFlow(steps) && r in steps && r.required
    ensures StartedRun(steps, context, qs).complete && r.id !in StartedRun(steps, context, qs).succeeded ==> Avoidable(steps, r)
  {
    var st := Start(steps, CreateSession(context));
    FirstStepIsLeast(steps, context);
    if StartedRun(steps, context, qs).complete && r.id !in StartedRun(steps, context, qs).succeeded {
      var a := At(GetNextStep(steps, None, context).value.value, false);
      var path := RunTraces(steps, r, st, a, qs);
      StartReaches(steps, a.step, context);
      assert StartsAt(steps, a) && Leads(steps, r, a, path);
    }
  }

  lemma StartReaches(steps: seq<FlowStep>, step: FlowStep, context: Context)
    requires ValidFlow(steps) && GetNextStep(steps, None, context) == Ok(Some(step))
    ensures StartsAt(steps, At(step, false))
  {
    FirstStepIsLeast(steps, context);
    LeastReaches(steps, context, None, Some(step), At(step, false));
  }

  // ----- Every route is followed by a run --------------------------------------------------------------

  /** `k` put into `context` makes exactly the wanted optional steps applicable, whatever a handler says
      about the user, and reports a passkey as verified. */
  ghost predicate Arranges(steps: seq<FlowStep>, context: Context, want: set<string>, k: Context)
  {
    && Truthy(Member(Obj(context + k), "webauthnVerified"))
    && forall u: Context, s :: u.Keys <= {"user"} && s in steps && !Always(s) ==>
         (EvaluateCondition(s.condition.value, context + k + u) <==> s.id in want)
  }

  ghost predicate Arrangeable(steps: seq<FlowStep>, context: Context, want: set<string>)
  {
    exists k :: Arranges(steps, context, want, k)
  }

  /** Other controllers can make any choice of optional steps applicable. */
  ghost predicate Separable(steps: seq<FlowStep>)
  {
    forall context, want :: Arrangeable(steps, context, want)
  }

  function CrashingRequest(k: Context): Request
  {
    Request("", "", "", "", LoginCrash, OtpCrash, k)
  }

  function GoodRequest(k: Context): Request
  {
    Request("u", "p", "c", "u", Accepted(UserRecord("u", "u", "u", true)), OtpResult(true), k)
  }

  lemma CrashingRequestFails(step: FlowStep, userId: string, context: Context, k: Context)
    requires CanFail(step)
    ensures var d := Dispatch(step, userId, context, CrashingRequest(k)); d.Crash? || d.Failure?
  {
  }

  lemma GoodRequestSucceeds(step: FlowStep, userId: string, context: Context, k: Context)
    requires CanSucceed(step, userId != "") && Truthy(Member(Obj(context), "webauthnVerified"))
    ensures var d := Dispatch(step, userId, context, GoodRequest(k));
            && d.Success? && d.userId == (if Identifies(step) then "u" else userId)
            && exists u: Context :: u.Keys <= {"user"} && d.context == context + u
  {
    var d := Dispatch(step, userId, context, GoodRequest(k));
    if Identifies(step) {
      var u := map["user" := d.context["user"]];
      assert d.context == context + u && u.Keys <= {"user"};
    } else {
      var u: Context := map[];
      assert d.context == context + u && u.Keys <= {"user"};
    }
  }

  /** The optional steps that have to be applicable for `a` to go on to `b`. */
  function Wanted(a: Position, b: Position, handled: bool): set<string>
    requires a.At?
  {
    (if handled then {a.step.id} else {}) + (if b.At? then {b.step.id} else {})
  }

  /** The least step above `floor` that passes `p`. */
  ghost predicate LeastPassing(steps: seq<FlowStep>, p: FlowStep -> bool, floor: int, next: Option<FlowStep>)
  {
    && (next.Some? ==> next.value in steps && p(next.value) && next.value.order > floor)
    && forall m :: m in steps && p(m) && m.order > floor ==> next.Some? && next.value.order <= m.order
  }

  /** With the wanted optional steps passing and no others, that is the step `b` stands at. */
  lemma WantedIsNext(steps: seq<FlowStep>, p: FlowStep -> bool, a: Position, b: Position, handled: bool, next: Option<FlowStep>)
    requires ValidFlow(steps) && a.At? && a.step in steps && Reaches(steps, Some(a.step.order), b)
    requires LeastPassing(steps, p, a.step.order, next)
    requires forall s :: s in steps ==> (p(s) <==> Always(s) || s.id in Wanted(a, b, handled))
    ensures next == if b.At? then Some(b.step) else None
  {
    if next.Some? {
      if next.value.id == a.step.id {
        SameOrderSameStep(steps, next.value, a.step);
      }
      if b.At? && (next.value.id == b.step.id || next.value.order == b.step.order) {
        SameOrderSameStep(steps, next.value, b.step);
      }
    }
  }

  lemma NextIsWanted(steps: seq<FlowStep>, a: Position, b: Position, handled: bool, context: Context)
    requires ValidFlow(steps) && a.At? && a.step in steps && Reaches(steps, Some(a.step.order), b)
    requires forall s :: s in steps && !Always(s) ==> (EvaluateCondition(s.condition.value, context) <==> s.id in Wanted(a, b, handled))
    ensures GetNextStep(steps, Some(a.step.id), context) == Ok(if b.At? then Some(b.step) else None)
  {
    NextStepIsLeast(steps, a.step, context);
    var next := GetNextStep(steps, Some(a.step.id), context).value;
    LeastIsLeastPassing(steps, context, a.step.order, next);
    forall s | s in steps ensures ApplicableIn(context)(s) <==> Always(s) || s.id in Wanted(a, b, handled) {
      WantedApplies(s, context, Wanted(a, b, handled));
    }
    WantedIsNext(steps, ApplicableIn(context), a, b, handled, next);
  }

  lemma LeastIsLeastPassing(steps: seq<FlowStep>, context: Context, floor: int, next: Option<FlowStep>)
    requires LeastAbove(steps, context, Some(floor), next)
    ensures LeastPassing(steps, ApplicableIn(context), floor, next)
  {
    forall m | m in steps && ApplicableIn(context)(m) && m.order > floor ensures next.Some? && next.value.order <= m.order {
      assert Applicable(m, context);
    }
  }

  lemma WantedApplies(s: FlowStep, context: Context, want: set<string>)
    requires !Always(s) ==> (EvaluateCondition(s.condition.value, context) <==> s.id in want)
    ensures Applicable(s, context) <==> Always(s) || s.id in want
  {
  }

  /** The session can go on along any route from where `a` stands, and has not had `r` succeed. */
  ghost predicate Carries(steps: seq<FlowStep>, r: FlowStep, st: FlowState, a: Position)
  {
    && r.id !in st.succeeded
    && if a.Done? then st.complete
       else !st.complete && st.currentStepId == Some(a.step.id) && (a.known ==> st.userId != "")
  }

  lemma RealizeFall(steps: seq<FlowStep>, r: FlowStep, st: FlowState, a: Position, b: Position)
    returns (q: Request, st': FlowState)
    requires ValidFlow(steps) && Separable(steps) && Carries(steps, r, st, a)
    requires a.At? && a.step in steps && FallsTo(steps, a, b)
    ensures st' == Process(steps, st, a.step.id, q).0 && Carries(steps, r, st', b)
  {
    var want := {a.step.id};
    assert Arrangeable(steps, st.context, want);
    var k :| Arranges(steps, st.context, want, k);
    q := CrashingRequest(k);
    st' := Process(steps, st, a.step.id, q).0;
    SameOrderSameStep(steps, StepNamed(steps, a.step.id).value, a.step);
    ArrangedIsSkipped(steps, st.context, want, k, a.step);
    CrashingRequestFails(a.step, st.userId, st.context + k, k);
  }

  /** A handler that succeeds moves the session on to `b`. */
  lemma SuccessCarries(steps: seq<FlowStep>, r: FlowStep, st: FlowState, st': FlowState, a: Position, b: Position, k: Context)
    requires ValidFlow(steps) && Carries(steps, r, st, a) && r in steps
    requires a.At? && a.step in steps && Advances(steps, r, a, b) && CanSucceed(a.step, st.userId != "")
    requires Arranges(steps, st.context, Wanted(a, b, true), k) && !Skipped(a.step, st.context + k)
    requires st' == Process(steps, st, a.step.id, GoodRequest(k)).0
    ensures Carries(steps, r, st', b)
  {
    SameOrderSameStep(steps, StepNamed(steps, a.step.id).value, a.step);
    var context := st.context + k;
    GoodRequestSucceeds(a.step, st.userId, context, k);
    var d := Dispatch(a.step, st.userId, context, GoodRequest(k));
    NextIsWanted(steps, a, b, true, d.context);
    if a.step.id == r.id {
      SameOrderSameStep(steps, a.step, r);
    }
  }

  lemma SkipCarries(steps: seq<FlowStep>, r: FlowStep, st: FlowState, st': FlowState, a: Position, b: Position, k: Context)
    requires ValidFlow(steps) && Carries(steps, r, st, a)
    requires a.At? && a.step in steps && Advances(steps, r, a, b) && !CanSucceed(a.step, st.userId != "")
    requires Arranges(steps, st.context, Wanted(a, b, false), k) && Skipped(a.step, st.context + k)
    requires st' == Process(steps, st, a.step.id, GoodRequest(k)).0
    ensures Carries(steps, r, st', b)
  {
    SameOrderSameStep(steps, StepNamed(steps, a.step.id).value, a.step);
    assert st.context + k + map[] == st.context + k;
    NextIsWanted(steps, a, b, false, st.context + k);
  }

  lemma ArrangedIsSkipped(steps: seq<FlowStep>, context: Context, want: set<string>, k: Context, step: FlowStep)
    requires Arranges(steps, context, want, k) && step in steps
    ensures Skipped(step, context + k) <==> !Always(step) && step.id !in want
  {
    assert context + k + map[] == context + k;
  }

  lemma RealizeAdvance(steps: seq<FlowStep>, r: FlowStep, st: FlowState, a: Position, b: Position)
    returns (q: Request, st': FlowState)
    requires ValidFlow(steps) && Separable(steps) && Carries(steps, r, st, a) && r in steps
    requires a.At? && a.step in steps && Advances(steps, r, a, b)
    ensures st' == Process(steps, st, a.step.id, q).0 && Carries(steps, r, st', b)
  {
    var handled := CanSucceed(a.step, st.userId != "");
    var want := Wanted(a, b, handled);
    assert Arrangeable(steps, st.context, want);
    var k :| Arranges(steps, st.context, want, k);
    q := GoodRequest(k);
    st' := Process(steps, st, a.step.id, q).0;
    ArrangedIsSkipped(steps, st.context, want, k, a.step);
    if handled {
      SuccessCarries(steps, r, st, st', a, b, k);
    } else {
      SkipCarries(steps, r, st, st', a, b, k);
    }
  }

  lemma {:induction false} RealizeRoute(steps: seq<FlowStep>, r: FlowStep, st: FlowState, a: Position, path: seq<Position>)
    returns (qs: seq<Request>)
    requires ValidFlow(steps) && Separable(steps) && r in steps && Carries(steps, r, st, a) && Leads(steps, r, a, path)
    ensures Run(steps, st, qs).complete && r.id !in Run(steps, st, qs).succeeded
    decreases |path|
  {
    if path == [] {
      qs := [];
    } else {
      var q, st';
      if FallsTo(steps, a, path[0]) {
        q, st' := RealizeFall(steps, r, st, a, path[0]);
      } else {
        q, st' := RealizeAdvance(steps, r, st, a, path[0]);
      }
      var rest := RealizeRoute(steps, r, st', path[0], path[1..]);
      qs := [q] + rest;
      assert qs[1..] == rest;
    }
  }

  lemma RealizeStart(steps: seq<FlowStep>, r: FlowStep, a: Position) returns (context: Context)
    requires ValidFlow(steps) && Separable(steps) && StartsAt(steps, a)
    ensures Carries(steps, r, Start(steps, CreateSession(context)), a)
  {
    assert Arrangeable(steps, map[], {a.step.id});
    context :| Arranges(steps, map[], {a.step.id}, context);
    assert map[] + context + map[] == context;
    FirstStepIsLeast(steps, context);
    var first := GetNextStep(steps, None, context).value.value;
    assert first.id == a.step.id || first.order == a.step.order;
    SameOrderSameStep(steps, first, a.step);
  }

  lemma AvoidableFails(steps: seq<FlowStep>, r: FlowStep)
    requires ValidFlow(steps) && Separable(steps) && r in steps && r.required && Avoidable(steps, r)
    ensures !AlwaysSafe(steps)
  {
    var a, path :| StartsAt(steps, a) && Leads(steps, r, a, path);
    var context := RealizeStart(steps, r, a);
    var qs := RealizeRoute(steps, r, Start(steps, CreateSession(context)), a, path);
    assert !SafeRun(steps, context, qs);
  }

  /** Completion is safe exactly when no route through the flow avoids a required step. */
  lemma {:induction false} SafeExactlyWhenUnavoidable(steps: seq<FlowStep>)
    requires ValidFlow(steps) && Separable(steps)
    ensures AlwaysSafe(steps) <==> forall r :: r in steps && r.required ==> !Avoidable(steps, r)
  {
    if r :| r in steps && r.required && Avoidable(steps, r) {
      AvoidableFails(steps, r);
    } else {
      forall context, qs ensures SafeRun(steps, context, qs) {
        if StartedRun(steps, context, qs).complete {
          forall r | r in steps && r.required ensures r.id in StartedRun(steps, context, qs).succeeded {
            UnavoidableSucceeds(steps, r, context, qs);
          }
        }
      }
    }
  }
}
