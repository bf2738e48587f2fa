/**
 * What a request has to bring for a step to succeed, step type by step type, and what a completed flow therefore
 * says about the credentials that were shown.
 */
module FlowAnswers {
  import opened Wrappers
  import opened Json
  import opened FlowEngine
  import opened FlowExecutor
  import opened FlowSafety

  /** The step is put to the request: it is required, unconditional, or its condition holds in the context the
      session has when the request comes in. */
  predicate Attempted(steps: seq<FlowStep>, st: FlowState, step: FlowStep, q: Request)
  {
    && !st.complete && step in steps
    && (step.required || step.condition.None? || EvaluateCondition(step.condition.value, st.context + q.external))
  }

  /** What the step asks for, of a session that knows `userId`. */
  predicate Answers(step: FlowStep, userId: string, context: Context, q: Request)
  {
    match step.stepType
    case Password | Ldap => q.username != "" && q.password != "" && q.login.Accepted?
    case Totp => userId != "" && q.code != "" && q.otp == OtpResult(true)
    case WebAuthn => "webauthnVerified" in context && Truthy(context["webauthnVerified"]) && q.userId != ""
    case Social | EmailOtp | MagicLink | Consent => true
    case UnknownType => false
  }

  /** The handler throws something else than Unauthorized. */
  predicate Breaks(step: FlowStep, userId: string, q: Request)
  {
    match step.stepType
    case Password | Ldap => q.username == "" || q.password == "" || q.login.LoginCrash?
    case Totp => userId == "" || q.code == "" || q.otp.OtpCrash?
    case _ => false
  }

  predicate IsRejected(step: FlowStep, q: Request)
  {
    (step.stepType.Password? || step.stepType.Ldap?) && q.username != "" && q.password != "" && q.login.Rejected?
  }

  /** What the passkey controller may write for a passkey to count as verified: anything but undefined, null, false,
      zero and the empty text. */
  lemma TruthyExactly(v: Json)
    ensures Truthy(v) <==> v != Undefined && v != Null && v != Bool(false) && v != Num(0) && v != Str("")
  {
  }

  // ----- One request -----------------------------------------------------------------------------------

  lemma AdvanceRecords(steps: seq<FlowStep>, st: FlowState, step: FlowStep)
    requires ValidFlow(steps) && step in steps
    ensures var (st', reply) := Advance(steps, st, step);
            && st' == st.(completedStepIds := st.completedStepIds + [step.id], currentStepId := st'.currentStepId, complete := st'.complete)
            && reply == StepResult(true, st'.currentStepId, st'.complete) && (st'.complete <==> st'.currentStepId.None?)
  {
    NextStepIsLeast(steps, step, st.context);
  }

  lemma FoundStep(steps: seq<FlowStep>, step: FlowStep)
    requires ValidFlow(steps) && step in steps
    ensures StepNamed(steps, step.id) == Some(step)
  {
    SameOrderSameStep(steps, StepNamed(steps, step.id).value, step);
  }

  lemma ProcessAttempts(steps: seq<FlowStep>, st: FlowState, step: FlowStep, q: Request)
    requires ValidFlow(steps) && Attempted(steps, st, step, q)
    ensures Process(steps, st, step.id, q) == Attempt(steps, st.(context := st.context + q.external), step, q)
  {
    FoundStep(steps, step);
  }

  /** The handler's verdict decides: success is recorded and the session advances. */
  lemma SuccessAdvances(steps: seq<FlowStep>, st: FlowState, st': FlowState, step: FlowStep, q: Request, reply: Reply,
                        userId: string, context: Context)
    requires ValidFlow(steps) && step in steps && Dispatch(step, st.userId, st.context, q) == Success(userId, context)
    requires (st', reply) == Attempt(steps, st, step, q)
    ensures st'.userId == userId && st'.context == context && st'.succeeded == st.succeeded + {step.id}
    ensures st'.completedStepIds == st.completedStepIds + [step.id]
    ensures reply == StepResult(true, st'.currentStepId, st'.complete) && (st'.complete <==> st'.currentStepId.None?)
  {
    AdvanceRecords(steps, st.(userId := userId, context := context, succeeded := st.succeeded + {step.id}), step);
  }

  lemma NoSuccessStays(steps: seq<FlowStep>, st: FlowState, st': FlowState, step: FlowStep, q: Request, reply: Reply)
    requires !Dispatch(step, st.userId, st.context, q).Success? && (st', reply) == Attempt(steps, st, step, q)
    ensures st' == st.(currentStepId := st'.currentStepId)
    ensures match Dispatch(step, st.userId, st.context, q)
            case Unauthorized => st' == st && reply == NotAuthorized
            case Crash => (st', reply) == FallBack(st, step, StepCrashed)
            case _ => (st', reply) == FallBack(st, step, StepResult(false, Some(step.id), false))
  {
  }

  /** What the handlers make of a request. */
  lemma DispatchMeans(step: FlowStep, userId: string, context: Context, q: Request)
    ensures var handled := Dispatch(step, userId, context, q);
            && (handled.Success? <==> Answers(step, userId, context, q))
            && (handled.Unauthorized? <==> IsRejected(step, q))
            && (handled.Crash? <==> Breaks(step, userId, q))
  {
  }

  /** A request that answers its step completes it: the step is recorded, and the reply names the next one, or says
      that the flow is complete. */
  lemma AnsweredCompletes(steps: seq<FlowStep>, st: FlowState, st': FlowState, step: FlowStep, q: Request, reply: Reply)
    requires ValidFlow(steps) && Attempted(steps, st, step, q) && (st', reply) == Process(steps, st, step.id, q)
    requires Answers(step, st.userId, st.context + q.external, q)
    ensures st'.succeeded == st.succeeded + {step.id} && st'.completedStepIds == st.completedStepIds + [step.id]
    ensures reply == StepResult(true, st'.currentStepId, st'.complete) && (st'.complete <==> st'.currentStepId.None?)
  {
    ProcessAttempts(steps, st, step, q);
    var st1 := st.(context := st.context + q.external);
    DispatchMeans(step, st1.userId, st1.context, q);
    match Dispatch(step, st1.userId, st1.context, q)
    case Success(userId, context) => SuccessAdvances(steps, st1, st', step, q, reply, userId, context);
  }

  /** Any other request leaves the session where it is, but for the context, or sends it to the step's fallback; a
      rejected password is never sent to the fallback. */
  lemma UnansweredStays(steps: seq<FlowStep>, st: FlowState, st': FlowState, step: FlowStep, q: Request, reply: Reply)
    requires ValidFlow(steps) && Attempted(steps, st, step, q) && (st', reply) == Process(steps, st, step.id, q)
    requires !Answers(step, st.userId, st.context + q.external, q)
    ensures st' == st.(context := st.context + q.external, currentStepId := st'.currentStepId)
    ensures if step.fallbackStepId != "" && !IsRejected(step, q) then
              st'.currentStepId == Some(step.fallbackStepId) && reply == StepResult(false, Some(step.fallbackStepId), false)
            else
              && st'.currentStepId == st.currentStepId
              && reply == if IsRejected(step, q) then NotAuthorized
                          else if Breaks(step, st.userId, q) then StepCrashed
                          else StepResult(false, Some(step.id), false)
  {
    ProcessAttempts(steps, st, step, q);
    var st1 := st.(context := st.context + q.external);
    DispatchMeans(step, st1.userId, st1.context, q);
    NoSuccessStays(steps, st1, st', step, q, reply);
  }

  /** An optional step whose condition fails is passed over: recorded, but nothing succeeded and nobody signed in. */
  lemma SkippedAdvances(steps: seq<FlowStep>, st: FlowState, st': FlowState, step: FlowStep, q: Request, reply: Reply)
    requires ValidFlow(steps) && !st.complete && step in steps && !Attempted(steps, st, step, q)
    requires (st', reply) == Process(steps, st, step.id, q)
    ensures st'.succeeded == st.succeeded && st'.userId == st.userId && st'.context == st.context + q.external
    ensures st'.completedStepIds == st.completedStepIds + [step.id] && reply == StepResult(true, st'.currentStepId, st'.complete)
  {
    FoundStep(steps, step);
    AdvanceRecords(steps, st.(context := st.context + q.external), step);
  }

  // ----- Step type by step type ----------------------------------------------------------------------------

  /** Success and its user and context, or nothing but the context seen. */
  lemma AttemptMeans(steps: seq<FlowStep>, st: FlowState, st': FlowState, step: FlowStep, q: Request)
    requires ValidFlow(steps) && Attempted(steps, st, step, q) && st' == Process(steps, st, step.id, q).0
    requires step.id !in st.succeeded
    ensures var seen := st.context + q.external;
            var handled := Dispatch(step, st.userId, seen, q);
            && (step.id in st'.succeeded <==> handled.Success?)
            && (handled.Success? ==> st'.userId == handled.userId && st'.context == handled.context)
            && (!handled.Success? ==> st'.userId == st.userId && st'.context == seen)
  {
    ProcessAttempts(steps, st, step, q);
    var st1, reply := st.(context := st.context + q.external), Process(steps, st, step.id, q).1;
    match Dispatch(step, st1.userId, st1.context, q)
    case Success(userId, context) => SuccessAdvances(steps, st1, st', step, q, reply, userId, context);
    case _ => NoSuccessStays(steps, st1, st', step, q, reply);
  }

  /** A one-time-code step succeeds exactly when a user is known, a code was sent and the service verified it. */
  lemma TotpSucceedsExactly(steps: seq<FlowStep>, st: FlowState, st': FlowState, step: FlowStep, q: Request)
    requires ValidFlow(steps) && Attempted(steps, st, step, q) && st' == Process(steps, st, step.id, q).0
    requires step.stepType.Totp? && step.id !in st.succeeded
    ensures step.id in st'.succeeded <==> st.userId != "" && q.code != "" && q.otp == OtpResult(true)
    ensures st'.userId == st.userId && st'.context == st.context + q.external
  {
    AttemptMeans(steps, st, st', step, q);
  }

  /** A password step, local or LDAP, succeeds exactly when name and password were sent and the login was accepted;
      the session's user is then the one accepted, and nothing changes otherwise. */
  lemma PasswordSucceedsExactly(steps: seq<FlowStep>, st: FlowState, st': FlowState, step: FlowStep, q: Request)
    requires ValidFlow(steps) && Attempted(steps, st, step, q) && st' == Process(steps, st, step.id, q).0
    requires (step.stepType.Password? || step.stepType.Ldap?) && step.id !in st.succeeded
    ensures step.id in st'.succeeded <==> q.username != "" && q.password != "" && q.login.Accepted?
    ensures step.id in st'.succeeded ==>
              var user := q.login.user;
              && st'.userId == user.id
              && st'.context == (st.context + q.external)["user" := Obj(map["id" := Str(user.id),
                   "username" := Str(user.username), "email" := Str(user.email), "enabled" := Bool(user.enabled)])]
    ensures step.id !in st'.succeeded ==> st'.userId == st.userId && st'.context == st.context + q.external
  {
    AttemptMeans(steps, st, st', step, q);
  }

  /** A passkey step succeeds exactly when the context says that a passkey was verified and a user id was sent; the
      session's user is then that one. */
  lemma WebAuthnSucceedsExactly(steps: seq<FlowStep>, st: FlowState, st': FlowState, step: FlowStep, q: Request)
    requires ValidFlow(steps) && Attempted(steps, st, step, q) && st' == Process(steps, st, step.id, q).0
    requires step.stepType.WebAuthn? && step.id !in st.succeeded
    ensures var seen := st.context + q.external;
            && (step.id in st'.succeeded <==>
                  "webauthnVerified" in seen && Truthy(seen["webauthnVerified"]) && q.userId != "")
            && (step.id in st'.succeeded ==>
                  st'.userId == q.userId && st'.context == seen["user" := Obj(map["id" := Str(q.userId)])])
            && (step.id !in st'.succeeded ==> st'.userId == st.userId && st'.context == seen)
  {
    AttemptMeans(steps, st, st', step, q);
  }

  /** The steps that other controllers complete always succeed, an unknown type never does; neither names a user. */
  lemma OtherTypesSucceedExactly(steps: seq<FlowStep>, st: FlowState, st': FlowState, step: FlowStep, q: Request)
    requires ValidFlow(steps) && Attempted(steps, st, step, q) && st' == Process(steps, st, step.id, q).0
    requires step.stepType in {Social, EmailOtp, MagicLink, Consent, UnknownType} && step.id !in st.succeeded
    ensures step.id in st'.succeeded <==> step.stepType != UnknownType
    ensures st'.userId == st.userId && st'.context == st.context + q.external
  {
    AttemptMeans(steps, st, st', step, q);
  }

  // ----- Runs --------------------------------------------------------------------------------------------

  /** Request number `i` of the run came when the session stood at the step, and answered it. */
  predicate AnsweredAt(steps: seq<FlowStep>, st: FlowState, qs: seq<Request>, i: nat, step: FlowStep)
    requires i < |qs|
  {
    var before := Run(steps, st, qs[..i]);
    && !before.complete && before.currentStepId == Some(step.id)
    && Answers(step, before.userId, before.context + qs[i].external, qs[i])
  }

  ghost predicate WasAnswered(steps: seq<FlowStep>, st: FlowState, qs: seq<Request>, step: FlowStep)
  {
    exists i :: 0 <= i < |qs| && AnsweredAt(steps, st, qs, i, step)
  }

  lemma NewSuccessWasAnswered(steps: seq<FlowStep>, st: FlowState, st': FlowState, step: FlowStep, q: Request)
    requires ValidFlow(steps) && step in steps && st.currentStepId.Some?
    requires st' == Process(steps, st, st.currentStepId.value, q).0
    requires step.id in st'.succeeded && step.id !in st.succeeded
    ensures !st.complete && st.currentStepId == Some(step.id) && Answers(step, st.userId, st.context + q.external, q)
  {
    var at := StepNamed(steps, st.currentStepId.value).value;
    var reply := Process(steps, st, at.id, q).1;
    if !Attempted(steps, st, at, q) {
      SkippedAdvances(steps, st, st', at, q, reply);
    } else if Answers(at, st.userId, st.context + q.external, q) {
      AnsweredCompletes(steps, st, st', at, q, reply);
      SameOrderSameStep(steps, at, step);
    } else {
      UnansweredStays(steps, st, st', at, q, reply);
    }
  }

  lemma {:induction false} SuccessWasAnswered(steps: seq<FlowStep>, st: FlowState, qs: seq<Request>, step: FlowStep)
    requires ValidFlow(steps) && step in steps
    requires step.id in Run(steps, st, qs).succeeded && step.id !in st.succeeded
    ensures WasAnswered(steps, st, qs, step)
    decreases |qs|
  {
    var st' := Process(steps, st, st.currentStepId.value, qs[0]).0;
    if step.id in st'.succeeded {
      NewSuccessWasAnswered(steps, st, st', step, qs[0]);
      assert qs[..0] == [];
      assert AnsweredAt(steps, st, qs, 0, step);
    } else {
      SuccessWasAnswered(steps, st', qs[1..], step);
      var i :| 0 <= i < |qs| - 1 && AnsweredAt(steps, st', qs[1..], i, step);
      assert qs[..i + 1][1..] == qs[1..][..i];
      assert AnsweredAt(steps, st, qs, i + 1, step);
    }
  }

  /** In a validated flow without a bypass, a completed run has answered every required step with what it asks for: a
      one-time-code step with a code the service verified, for a session that knew its user; a password step with an
      accepted login; a passkey step after a verified passkey. */
  lemma {:induction false} CompletionShowsEveryCredential(steps: seq<FlowStep>, context: Context, qs: seq<Request>)
    requires ValidFlow(steps) && NoRequiredStepBypassed(steps) && StartedRun(steps, context, qs).complete
    ensures forall r :: r in steps && r.required ==> WasAnswered(steps, Start(steps, CreateSession(context)), qs, r)
  {
    CompletionMeansAllRequiredSucceeded(steps, context, qs);
    forall r | r in steps && r.required ensures WasAnswered(steps, Start(steps, CreateSession(context)), qs, r) {
      SuccessWasAnswered(steps, Start(steps, CreateSession(context)), qs, r);
    }
  }

  /** For one-time codes: some request sent a code that the service verified while the session knew its user. */
  lemma {:induction false} CompletionShowsACode(steps: seq<FlowStep>, context: Context, qs: seq<Request>, r: FlowStep)
    requires ValidFlow(steps) && NoRequiredStepBypassed(steps) && StartedRun(steps, context, qs).complete
    requires r in steps && r.required && r.stepType.Totp?
    ensures exists i :: 0 <= i < |qs| && qs[i].otp == OtpResult(true) && qs[i].code != ""
                        && Run(steps, Start(steps, CreateSession(context)), qs[..i]).userId != ""
  {
    CompletionShowsEveryCredential(steps, context, qs);
    var st := Start(steps, CreateSession(context));
    var i :| 0 <= i < |qs| && AnsweredAt(steps, st, qs, i, r);
    assert qs[i].otp == OtpResult(true) && Run(steps, st, qs[..i]).userId != "";
  }
}
