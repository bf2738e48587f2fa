/** What every run of a flow guarantees when it is complete. */
module FlowSafety {
  import opened Collections
  import opened Wrappers
  import opened Json
  import opened FlowEngine
  import opened FlowExecutor

  /** The caller answers the current step with each request, until the flow is complete or stuck. */
  function Run(steps: seq<FlowStep>, st: FlowState, qs: seq<Request>): FlowState
    decreases |qs|
  {
    if qs == [] || st.currentStepId.None? then st
    else Run(steps, Process(steps, st, st.currentStepId.value, qs[0]).0, qs[1..])
  }

  function StartedRun(steps: seq<FlowStep>, context: Context, qs: seq<Request>): FlowState
  {
    Run(steps, Start(steps, CreateSession(context)), qs)
  }

  /** Some request makes the handler of the step fail or crash; the pending kinds always succeed. */
  predicate CanFail(s: FlowStep)
  {
    s.stepType.Password? || s.stepType.Ldap? || s.stepType.WebAuthn? || s.stepType.Totp? || s.stepType.UnknownType?
  }

  /** `s` can fail, and its fallback `f` passes over the required step `r`. */
  predicate Bypass(steps: seq<FlowStep>, s: FlowStep, f: FlowStep, r: FlowStep)
  {
    && s in steps && f in steps && r in steps
    && CanFail(s) && s.fallbackStepId != "" && f.id == s.fallbackStepId
    && r.required && s.order <= r.order < f.order
  }

  /** No fallback that can be taken jumps over a required step. Fallbacks to the same or an earlier order never do. */
  ghost predicate NoRequiredStepBypassed(steps: seq<FlowStep>)
  {
    forall s, f, r :: !Bypass(steps, s, f, r)
  }

  ghost predicate FallbacksGoBack(steps: seq<FlowStep>)
  {
    forall s, f :: s in steps && f in steps && f.id == s.fallbackStepId && s.fallbackStepId != "" ==> f.order <= s.order
  }

  lemma BackwardFallbacksBypassNothing(steps: seq<FlowStep>)
    requires FallbacksGoBack(steps)
    ensures NoRequiredStepBypassed(steps)
  {
  }

  /** Every required step before the current one, or every one at all once complete, has succeeded. */
  ghost predicate Inv(steps: seq<FlowStep>, st: FlowState)
  {
    && (st.complete ==> forall r :: r in steps && r.required ==> r.id in st.succeeded)
    && (st.currentStepId.Some? ==>
          exists c :: c in steps && c.id == st.currentStepId.value && PassedBefore(steps, st, c.order))
  }

  ghost predicate PassedBefore(steps: seq<FlowStep>, st: FlowState, order: int)
  {
    forall r :: r in steps && r.required && r.order < order ==> r.id in st.succeeded
  }

  lemma StartKeepsInv(steps: seq<FlowStep>, context: Context)
    requires ValidFlow(steps)
    ensures Inv(steps, Start(steps, CreateSession(context)))
  {
    FirstStepIsLeast(steps, context);
    var st := Start(steps, CreateSession(context));
    var r := GetNextStep(steps, None, context).value;
    if r.Some? {
      assert PassedBefore(steps, st, r.value.order);
    }
  }

  lemma AdvanceKeepsInv(steps: seq<FlowStep>, st: FlowState, step: FlowStep)
    requires ValidFlow(steps) && step in steps && PassedBefore(steps, st, step.order)
    requires step.required ==> step.id in st.succeeded
    ensures Inv(steps, Advance(steps, st, step).0)
    ensures var r := Advance(steps, st, step).0;
            r.currentStepId.Some? ==> exists n :: n in steps && n.id == r.currentStepId.value && n.order > step.order
  {
    var st1 := st.(completedStepIds := st.completedStepIds + [step.id]);
    NextStepIsLeast(steps, step, st1.context);
    var next := GetNextStep(steps, Some(step.id), st1.context).value;
    var st2 := Advance(steps, st, step).0;
    forall r | r in steps && r.required && (next.Some? ==> r.order < next.value.order) ensures r.id in st2.succeeded {
      if r.order == step.order {
        SameOrderSameStep(steps, r, step);
      }
    }
    if next.Some? {
      assert PassedBefore(steps, st2, next.value.order);
    }
  }

  lemma SameOrderSameStep(steps: seq<FlowStep>, s: FlowStep, t: FlowStep)
    requires ValidFlow(steps) && s in steps && t in steps && (s.order == t.order || s.id == t.id)
    ensures s == t
  {
    if s != t {
      StepsDiffer(steps, s, t);
    }
  }

  lemma FallBackKeepsInv(steps: seq<FlowStep>, st: FlowState, step: FlowStep, otherwise: Reply)
    requires ValidFlow(steps) && NoRequiredStepBypassed(steps) && step in steps && CanFail(step)
    requires Inv(steps, st) && PassedBefore(steps, st, step.order)
    ensures Inv(steps, FallBack(st, step, otherwise).0)
  {
    if step.fallbackStepId != "" {
      IdsOfMembers(steps, step.fallbackStepId);
      var f :| f in steps && f.id == step.fallbackStepId;
      var st1 := FallBack(st, step, otherwise).0;
      forall r | r in steps && r.required && r.order < f.order ensures r.id in st1.succeeded {
        assert !Bypass(steps, step, f, r);
      }
      assert PassedBefore(steps, st1, f.order);
    }
  }

  lemma ProcessKeepsInv(steps: seq<FlowStep>, st: FlowState, q: Request)
    requires ValidFlow(steps) && NoRequiredStepBypassed(steps) && Inv(steps, st) && st.currentStepId.Some?
    ensures Inv(steps, Process(steps, st, st.currentStepId.value, q).0)
  {
    if !st.complete {
      var step := StepNamed(steps, st.currentStepId.value).value;
      var c :| c in steps && c.id == st.currentStepId.value && PassedBefore(steps, st, c.order);
      SameOrderSameStep(steps, c, step);
      var st1 := st.(context := st.context + q.external);
      assert PassedBefore(steps, st1, step.order);
      if Skipped(step, st1.context) {
        AdvanceKeepsInv(steps, st1, step);
      } else {
        AttemptKeepsInv(steps, st1, step, q);
      }
    }
  }

  lemma AttemptKeepsInv(steps: seq<FlowStep>, st: FlowState, step: FlowStep, q: Request)
    requires ValidFlow(steps) && NoRequiredStepBypassed(steps) && step in steps
    requires Inv(steps, st) && PassedBefore(steps, st, step.order)
    ensures Inv(steps, Attempt(steps, st, step, q).0)
  {
    match Dispatch(step, st.userId, st.context, q)
    case Unauthorized =>
    case Crash => FallBackKeepsInv(steps, st, step, StepCrashed);
    case Failure => FallBackKeepsInv(steps, st, step, StepResult(false, Some(step.id), false));
    case Success(userId, context) =>
      var st1 := st.(userId := userId, context := context, succeeded := st.succeeded + {step.id});
      assert PassedBefore(steps, st1, step.order);
      AdvanceKeepsInv(steps, st1, step);
  }

  lemma {:induction false} RunKeepsInv(steps: seq<FlowStep>, st: FlowState, qs: seq<Request>)
    requires ValidFlow(steps) && NoRequiredStepBypassed(steps) && Inv(steps, st)
    ensures Inv(steps, Run(steps, st, qs))
    decreases |qs|
  {
    if qs != [] && st.currentStepId.Some? {
      ProcessKeepsInv(steps, st, qs[0]);
      RunKeepsInv(steps, Process(steps, st, st.currentStepId.value, qs[0]).0, qs[1..]);
    }
  }

  /** In a validated flow none of whose failing steps falls back past a required step, a completed run has had the handler
      of every required step return success, whatever the conditions, failures and context changes. */
  lemma {:induction false} CompletionMeansAllRequiredSucceeded(steps: seq<FlowStep>, context: Context, qs: seq<Request>)
    requires ValidFlow(steps) && NoRequiredStepBypassed(steps)
    ensures StartedRun(steps, context, qs).complete ==>
              forall r :: r in steps && r.required ==> r.id in StartedRun(steps, context, qs).succeeded
  {
    StartKeepsInv(steps, context);
    RunKeepsInv(steps, Start(steps, CreateSession(context)), qs);
  }

  /** Requests in any order, to any steps. */
  function Submit(steps: seq<FlowStep>, st: FlowState, calls: seq<(string, Request)>): FlowState
    decreases |calls|
  {
    if calls == [] then st else Submit(steps, Process(steps, st, calls[0].0, calls[0].1).0, calls[1..])
  }

  /** Nothing submitted after completion, to whatever step, changes the session. */
  lemma {:induction false} CompletionIsFinal(steps: seq<FlowStep>, context: Context, qs: seq<Request>, calls: seq<(string, Request)>)
    requires StartedRun(steps, context, qs).complete
    ensures Submit(steps, StartedRun(steps, context, qs), calls) == StartedRun(steps, context, qs)
    decreases |calls|
  {
    if calls != [] {
      CompleteIsAbsorbing(steps, StartedRun(steps, context, qs), calls[0].0, calls[0].1);
      CompletionIsFinal(steps, context, qs, calls[1..]);
    }
  }

  /** A completed session refuses a further request and stays as it is. */
  lemma CompleteIsAbsorbing(steps: seq<FlowStep>, st: FlowState, stepId: string, q: Request)
    requires st.complete
    ensures Process(steps, st, stepId, q) == (st, AlreadyComplete)
  {
  }

  /** A flow starts without a current step exactly when every step is optional with a failing
      condition; the session is then not complete and never becomes so. */
  lemma {:induction false} StuckStart(steps: seq<FlowStep>, context: Context, qs: seq<Request>)
    requires ValidFlow(steps)
    ensures Start(steps, CreateSession(context)).currentStepId.None? <==> forall s :: s in steps ==> !Applicable(s, context)
    ensures Start(steps, CreateSession(context)).currentStepId.None? ==> !StartedRun(steps, context, qs).complete
  {
    FirstStepIsLeast(steps, context);
  }

  // ----- Progress ------------------------------------------------------------------------------------

  ghost predicate MovedForward(steps: seq<FlowStep>, st: FlowState, step: FlowStep, st': FlowState)
  {
    && st'.completedStepIds == st.completedStepIds + [step.id]
    && (st'.currentStepId.None? <==> st'.complete)
    && (st'.currentStepId.Some? ==>
          exists n :: n in steps && n.id == st'.currentStepId.value && n.order > step.order)
  }

  lemma AdvanceMovesForward(steps: seq<FlowStep>, st: FlowState, step: FlowStep)
    requires ValidFlow(steps) && step in steps
    ensures MovedForward(steps, st, step, Advance(steps, st, step).0)
  {
    var st1 := st.(completedStepIds := st.completedStepIds + [step.id]);
    NextStepIsLeast(steps, step, st1.context);
    var next := GetNextStep(steps, Some(step.id), st1.context).value;
    assert next.Some? ==> next.value in steps && next.value.order > step.order;
  }

  /** A successful request completes its step and moves to a step of strictly larger order. */
  lemma SuccessMovesForward(steps: seq<FlowStep>, st: FlowState, step: FlowStep, q: Request)
    requires ValidFlow(steps) && step in steps && st.currentStepId == Some(step.id)
    ensures var (st', reply) := Process(steps, st, step.id, q);
            reply.StepResult? && reply.success ==> MovedForward(steps, st, step, st')
  {
    var found := StepNamed(steps, step.id).value;
    SameOrderSameStep(steps, found, step);
    var st1 := st.(context := st.context + q.external);
    if Skipped(step, st1.context) {
      AdvanceMovesForward(steps, st1, step);
    } else {
      match Dispatch(step, st1.userId, st1.context, q)
      case Success(userId, context) =>
        AdvanceMovesForward(steps, st1.(userId := userId, context := context, succeeded := st1.succeeded + {step.id}), step);
      case _ =>
    }
  }

  /** The request makes the current step fall back. */
  predicate FallsBack(steps: seq<FlowStep>, st: FlowState, q: Request)
  {
    st.currentStepId.Some? && !st.complete &&
    match StepNamed(steps, st.currentStepId.value)
    case None => false
    case Some(step) =>
      var context := st.context + q.external;
      && step.fallbackStepId != "" && !Skipped(step, context)
      && (Dispatch(step, st.userId, context, q).Crash? || Dispatch(step, st.userId, context, q).Failure?)
  }

  ghost predicate NoFallbackTaken(steps: seq<FlowStep>, st: FlowState, qs: seq<Request>)
    decreases |qs|
  {
    qs == [] || st.currentStepId.None? ||
    (!FallsBack(steps, st, qs[0])
     && NoFallbackTaken(steps, Process(steps, st, st.currentStepId.value, qs[0]).0, qs[1..]))
  }

  /** Completed ids are distinct, and all belong to steps before the current one. */
  ghost predicate Climbing(steps: seq<FlowStep>, st: FlowState)
  {
    && Distinct(st.completedStepIds)
    && (forall id :: id in st.completedStepIds ==> exists s :: s in steps && s.id == id)
    && (st.currentStepId.Some? ==>
          exists c :: c in steps && c.id == st.currentStepId.value && Above(steps, st.completedStepIds, c.order))
  }

  ghost predicate Above(steps: seq<FlowStep>, ids: seq<string>, order: int)
  {
    forall s :: s in steps && s.id in ids ==> s.order < order
  }

  lemma ProcessClimbs(steps: seq<FlowStep>, st: FlowState, q: Request)
    requires ValidFlow(steps) && Climbing(steps, st) && st.currentStepId.Some? && !FallsBack(steps, st, q)
    ensures Climbing(steps, Process(steps, st, st.currentStepId.value, q).0)
  {
    var c :| c in steps && c.id == st.currentStepId.value && Above(steps, st.completedStepIds, c.order);
    var (st', reply) := Process(steps, st, c.id, q);
    if reply.StepResult? && reply.success {
      SuccessMovesForward(steps, st, c, q);
      ClimbedOn(steps, st, st', c);
    } else {
      UnsuccessfulStays(steps, st, c, q);
    }
  }

  lemma ClimbedOn(steps: seq<FlowStep>, st: FlowState, st': FlowState, c: FlowStep)
    requires ValidFlow(steps) && Climbing(steps, st) && c in steps && Above(steps, st.completedStepIds, c.order)
    requires MovedForward(steps, st, c, st')
    ensures Climbing(steps, st')
  {
    assert c.id !in st.completedStepIds;
    if st'.currentStepId.Some? {
      var n :| n in steps && n.id == st'.currentStepId.value && n.order > c.order;
      forall s | s in steps && s.id in st'.completedStepIds ensures s.order < n.order {
        if s.id == c.id {
          SameOrderSameStep(steps, s, c);
        }
      }
      assert Above(steps, st'.completedStepIds, n.order);
    }
  }

  lemma AdvanceSucceeds(steps: seq<FlowStep>, st: FlowState, step: FlowStep)
    requires ValidFlow(steps) && step in steps
    ensures Advance(steps, st, step).1.StepResult? && Advance(steps, st, step).1.success
  {
    NextStepIsLeast(steps, step, st.context);
  }

  lemma UnsuccessfulStays(steps: seq<FlowStep>, st: FlowState, step: FlowStep, q: Request)
    requires ValidFlow(steps) && step in steps && st.currentStepId == Some(step.id) && !FallsBack(steps, st, q)
    requires var reply := Process(steps, st, step.id, q).1; !(reply.StepResult? && reply.success)
    ensures Process(steps, st, step.id, q).0.completedStepIds == st.completedStepIds
    ensures Process(steps, st, step.id, q).0.currentStepId == st.currentStepId
  {
    var found := StepNamed(steps, step.id).value;
    var st1 := st.(context := st.context + q.external);
    if Skipped(found, st1.context) {
      AdvanceSucceeds(steps, st1, found);
    } else {
      match Dispatch(found, st1.userId, st1.context, q)
      case Success(userId, context) =>
        AdvanceSucceeds(steps, st1.(userId := userId, context := context, succeeded := st1.succeeded + {found.id}), found);
      case _ =>
    }
  }

  lemma {:induction false} RunClimbs(steps: seq<FlowStep>, st: FlowState, qs: seq<Request>)
    requires ValidFlow(steps) && Climbing(steps, st) && NoFallbackTaken(steps, st, qs)
    ensures Climbing(steps, Run(steps, st, qs))
    decreases |qs|
  {
    if qs != [] && st.currentStepId.Some? {
      ProcessClimbs(steps, st, qs[0]);
      RunClimbs(steps, Process(steps, st, st.currentStepId.value, qs[0]).0, qs[1..]);
    }
  }

  /** While no fallback is taken no step is completed twice, so at most as many requests succeed as there
      are steps. */
  lemma {:induction false} NoStepCompletesTwice(steps: seq<FlowStep>, context: Context, qs: seq<Request>)
    requires ValidFlow(steps) && NoFallbackTaken(steps, Start(steps, CreateSession(context)), qs)
    ensures var ids := StartedRun(steps, context, qs).completedStepIds;
            Distinct(ids) && |ids| <= |steps|
  {
    var st := Start(steps, CreateSession(context));
    FirstStepIsLeast(steps, context);
    var r := GetNextStep(steps, None, context).value;
    if r.Some? {
      assert Above(steps, st.completedStepIds, r.value.order);
    }
    RunClimbs(steps, st, qs);
    var ids := StartedRun(steps, context, qs).completedStepIds;
    forall id | id in ids ensures id in IdsOf(steps) {
      IdsOfMembers(steps, id);
    }
    SetSizeTellsDistinct(ids);
    SetSizeTellsDistinct(IdsOf(steps));
    SubsetSize(ToSet(ids), ToSet(IdsOf(steps)));
  }

  // ----- Second factors ------------------------------------------------------------------------------

  ghost predicate UserKnown(steps: seq<FlowStep>, st: FlowState)
  {
    forall s :: s in steps && s.stepType.Totp? && s.id in st.succeeded ==> st.userId != ""
  }

  ghost predicate NamesUsers(q: Request)
  {
    q.login.Accepted? ==> q.login.user.id != ""
  }

  /** `st'` follows `st` by a request to `step`: a user is not forgotten, and only a step for which one is
      known may have succeeded, if it asks for a one-time code. */
  ghost predicate UserKept(st: FlowState, st': FlowState, step: FlowStep)
  {
    && (st.userId != "" ==> st'.userId != "")
    && (st'.succeeded == st.succeeded
        || (st'.succeeded == st.succeeded + {step.id} && (step.stepType.Totp? ==> st'.userId != "")))
  }

  lemma DispatchKeepsUser(step: FlowStep, userId: string, context: Context, q: Request)
    requires NamesUsers(q) && Dispatch(step, userId, context, q).Success?
    ensures userId != "" ==> Dispatch(step, userId, context, q).userId != ""
    ensures step.stepType.Totp? ==> Dispatch(step, userId, context, q).userId != ""
  {
  }

  lemma AdvanceKeepsUser(steps: seq<FlowStep>, st: FlowState, step: FlowStep)
    ensures Advance(steps, st, step).0.userId == st.userId && Advance(steps, st, step).0.succeeded == st.succeeded
  {
  }

  lemma AttemptKeepsUser(steps: seq<FlowStep>, st: FlowState, st': FlowState, step: FlowStep, q: Request)
    requires NamesUsers(q) && st' == Attempt(steps, st, step, q).0
    ensures UserKept(st, st', step)
  {
    match Dispatch(step, st.userId, st.context, q)
    case Success(userId, context) =>
      DispatchKeepsUser(step, st.userId, st.context, q);
      AdvanceKeepsUser(steps, st.(userId := userId, context := context, succeeded := st.succeeded + {step.id}), step);
    case _ =>
  }

  lemma ProcessKeepsUserKnown(steps: seq<FlowStep>, st: FlowState, stepId: string, q: Request)
    requires ValidFlow(steps) && NamesUsers(q) && UserKnown(steps, st)
    ensures UserKnown(steps, Process(steps, st, stepId, q).0)
    ensures st.userId != "" ==> Process(steps, st, stepId, q).0.userId != ""
  {
    var found, st' := StepNamed(steps, stepId), Process(steps, st, stepId, q).0;
    if found.Some? && !st.complete {
      var step, st1 := found.value, st.(context := st.context + q.external);
      if Skipped(step, st1.context) {
        AdvanceKeepsUser(steps, st1, step);
      } else {
        AttemptKeepsUser(steps, st1, st', step, q);
      }
      KeptIsKnown(steps, st1, st', step);
    }
  }

  lemma KeptIsKnown(steps: seq<FlowStep>, st: FlowState, st': FlowState, step: FlowStep)
    requires ValidFlow(steps) && step in steps && UserKnown(steps, st) && UserKept(st, st', step)
    ensures UserKnown(steps, st')
  {
    forall s | s in steps && s.id == step.id ensures s == step {
      SameOrderSameStep(steps, s, step);
    }
  }

  /** A one-time-code step only ever succeeds for a user an earlier step identified. */
  lemma {:induction false} TotpNeedsAUser(steps: seq<FlowStep>, st: FlowState, qs: seq<Request>)
    requires ValidFlow(steps) && UserKnown(steps, st) && forall q :: q in qs ==> NamesUsers(q)
    ensures UserKnown(steps, Run(steps, st, qs))
    decreases |qs|
  {
    if qs != [] && st.currentStepId.Some? {
      ProcessKeepsUserKnown(steps, st, st.currentStepId.value, qs[0]);
      TotpNeedsAUser(steps, Process(steps, st, st.currentStepId.value, qs[0]).0, qs[1..]);
    }
  }

  // ----- Why fallbacks may not jump ahead --------------------------------------------------------------

  /** A validated flow, `c` being the fallback of `a` and later than the required `b`. */
  ghost predicate Careless(flow: seq<FlowStep>)
  {
    flow == [FlowStep("a", Password, true, 1, None, "c"), FlowStep("b", Totp, true, 2, None, ""),
             FlowStep("c", Consent, true, 3, None, "")]
  }

  lemma CarelessIsValid(flow: seq<FlowStep>)
    requires Careless(flow)
    ensures ValidFlow(flow) && !NoRequiredStepBypassed(flow)
  {
    assert flow[0] in flow && flow[1] in flow && flow[2] in flow;
    assert IdsOf(flow)[2] == "c";
    assert Bypass(flow, flow[0], flow[2], flow[1]);
  }

  lemma CarelessStart(flow: seq<FlowStep>)
    requires Careless(flow)
    ensures Start(flow, CreateSession(map[])) == FlowState("", [], Some("a"), map[], false, {})
  {
    CarelessIsValid(flow);
    FirstStepIsLeast(flow, map[]);
    assert flow[0] in flow;
  }

  lemma CarelessEnd(flow: seq<FlowStep>, context: Context)
    requires Careless(flow)
    ensures GetNextStep(flow, Some("c"), context) == Ok(None)
  {
    CarelessIsValid(flow);
    assert flow[2] in flow;
    NextStepIsLeast(flow, flow[2], context);
  }

  /** A consent step with nothing after it completes the flow. */
  lemma ConsentCompletes(steps: seq<FlowStep>, c: FlowStep, st: FlowState, q: Request)
    requires ValidFlow(steps) && c in steps && c.stepType.Consent? && c.condition.None? && !st.complete
    requires GetNextStep(steps, Some(c.id), st.context + q.external) == Ok(None)
    ensures Process(steps, st, c.id, q).0.complete
    ensures Process(steps, st, c.id, q).0.succeeded == st.succeeded + {c.id}
  {
    SameOrderSameStep(steps, StepNamed(steps, c.id).value, c);
  }

  /** Validation accepts a flow whose fallback jumps over a required step: a crash in the first step
      followed by the fallback then completes it, and neither that step nor the one between succeeded. */
  lemma ForwardFallbackSkipsRequiredStep(flow: seq<FlowStep>, q: Request)
    requires Careless(flow) && q == Request("", "", "", "", LoginCrash, OtpCrash, map[])
    ensures ValidFlow(flow) && !NoRequiredStepBypassed(flow)
    ensures var st := StartedRun(flow, map[], [q, q]);
            st.complete && st.succeeded == {"c"}
  {
    CarelessIsValid(flow);
    CarelessStart(flow);
    var st0, st1 := FlowState("", [], Some("a"), map[], false, {}), FlowState("", [], Some("c"), map[], false, {});
    assert flow[0] in flow;
    SameOrderSameStep(flow, StepNamed(flow, "a").value, flow[0]);
    assert map[] + q.external == map[];
    assert Process(flow, st0, "a", q).0 == st1;
    assert flow[2] in flow;
    CarelessEnd(flow, st1.context + q.external);
    ConsentCompletes(flow, flow[2], st1, q);
    assert [q, q][1..] == [q];
    assert Run(flow, st0, [q, q]) == Run(flow, st1, [q]);
  }
}
