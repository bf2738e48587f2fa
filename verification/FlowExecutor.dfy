/** Running an authentication flow: one session, one request per step, success, failure and fallback. */
module FlowExecutor {
  import opened Wrappers
  import opened Json
  import opened FlowEngine

  datatype UserRecord = UserRecord(id: string, username: string, email: string, enabled: bool)

  /** What `validateCredentials` does: return the user, throw Unauthorized, or throw something else. */
  datatype LoginVerdict = Accepted(user: UserRecord) | Rejected | LoginCrash

  datatype OtpVerdict = OtpResult(verified: bool) | OtpCrash

  /** One request: the credentials, the verdicts of the services it is checked with, and what other
      controllers put into the context since the last request. */
  datatype Request = Request(username: string, password: string, code: string, userId: string,
                             login: LoginVerdict, otp: OtpVerdict, external: Context)

  /** The session as the caller keeps it. `userId` is empty until a user is known. `succeeded`
      remembers the steps whose handler returned success. */
  datatype FlowState = FlowState(userId: string, completedStepIds: seq<string>, currentStepId: Option<string>,
                                 context: Context, complete: bool, succeeded: set<string>)

  datatype Handled = Success(userId: string, context: Context) | Failure | Unauthorized | Crash

  datatype Reply =
    | StepResult(success: bool, nextStepId: Option<string>, flowComplete: bool)
    | AlreadyComplete | NoSuchStep | NotAuthorized | StepCrashed

  predicate Truthy(v: Json)
  {
    match v
    case Undefined => false
    case Null => false
    case Bool(b) => b
    case Num(n) => n != 0
    case Str(s) => s != ""
    case Arr(_) => true
    case Obj(_) => true
  }

  function UserObject(u: UserRecord): Json
  {
    Obj(map["id" := Str(u.id), "username" := Str(u.username), "email" := Str(u.email), "enabled" := Bool(u.enabled)])
  }

  // ----- Handlers ----------------------------------------------------------------------------------

  function HandlePassword(context: Context, q: Request): Handled
  {
    if q.username == "" || q.password == "" then Crash
    else
      match q.login
      case Accepted(user) => Success(user.id, context["user" := UserObject(user)])
      case Rejected => Unauthorized
      case LoginCrash => Crash
  }

  function HandleTotp(userId: string, context: Context, q: Request): Handled
  {
    if userId == "" || q.code == "" then Crash
    else
      match q.otp
      case OtpResult(verified) => if verified then Success(userId, context) else Failure
      case OtpCrash => Crash
  }

  function HandleWebAuthn(context: Context, q: Request): Handled
  {
    if Truthy(Member(Obj(context), "webauthnVerified")) && q.userId != "" then
      Success(q.userId, context["user" := Obj(map["id" := Str(q.userId)])])
    else Failure
  }

  function Dispatch(step: FlowStep, userId: string, context: Context, q: Request): Handled
  {
    match step.stepType
    case Password => HandlePassword(context, q)
    case Ldap => HandlePassword(context, q)
    case Totp => HandleTotp(userId, context, q)
    case WebAuthn => HandleWebAuthn(context, q)
    case Social => Success(userId, context)
    case EmailOtp => Success(userId, context)
    case MagicLink => Success(userId, context)
    case Consent => Success(userId, context)
    case UnknownType => Failure
  }

  // ----- One request -------------------------------------------------------------------------------

  function CreateSession(context: Context): FlowState
  {
    FlowState("", [], None, context, false, {})
  }

  function Start(steps: seq<FlowStep>, st: FlowState): FlowState
  {
    match GetNextStep(steps, None, st.context)
    case Ok(Some(next)) => st.(currentStepId := Some(next.id))
    case _ => st.(currentStepId := None)
  }

  function StepNamed(steps: seq<FlowStep>, id: string): (r: Option<FlowStep>)
    ensures r.Some? ==> r.value in steps && r.value.id == id
    ensures r.None? ==> forall s :: s in steps ==> s.id != id
  {
    match FindIndex(steps, id)
    case None => None
    case Some(i) => Some(steps[i])
  }

  predicate Skipped(step: FlowStep, context: Context)
  {
    step.condition.Some? && !EvaluateCondition(step.condition.value, context) && !step.required
  }

  function Advance(steps: seq<FlowStep>, st: FlowState, step: FlowStep): (FlowState, Reply)
  {
    var st1 := st.(completedStepIds := st.completedStepIds + [step.id]);
    match GetNextStep(steps, Some(step.id), st1.context)
    case Err(_) => (st1, NoSuchStep)
    case Ok(None) => (st1.(currentStepId := None, complete := true), StepResult(true, None, true))
    case Ok(Some(next)) => (st1.(currentStepId := Some(next.id), complete := false), StepResult(true, Some(next.id), false))
  }

  /** A step that failed or crashed: to the fallback if there is one. */
  function FallBack(st: FlowState, step: FlowStep, otherwise: Reply): (FlowState, Reply)
  {
    if step.fallbackStepId != "" then
      (st.(currentStepId := Some(step.fallbackStepId)), StepResult(false, Some(step.fallbackStepId), false))
    else (st, otherwise)
  }

  function Attempt(steps: seq<FlowStep>, st: FlowState, step: FlowStep, q: Request): (FlowState, Reply)
  {
    match Dispatch(step, st.userId, st.context, q)
    case Unauthorized => (st, NotAuthorized)
    case Crash => FallBack(st, step, StepCrashed)
    case Failure => FallBack(st, step, StepResult(false, Some(step.id), false))
    case Success(userId, context) =>
      Advance(steps, st.(userId := userId, context := context, succeeded := st.succeeded + {step.id}), step)
  }

  function Process(steps: seq<FlowStep>, st: FlowState, stepId: string, q: Request): (FlowState, Reply)
  {
    if st.complete then (st, AlreadyComplete)
    else
      match StepNamed(steps, stepId)
      case None => (st, NoSuchStep)
      case Some(step) =>
        var st1 := st.(context := st.context + q.external);
        if Skipped(step, st1.context) then Advance(steps, st1, step) else Attempt(steps, st1, step, q)
  }

  // ----- The executor ------------------------------------------------------------------------------

  class FlowSession {
    var userId: string
    var completedStepIds: seq<string>
    var currentStepId: Option<string>
    var context: Context
    var complete: bool
    ghost var succeeded: set<string>

    ghost function State(): FlowState
      reads this
    {
      FlowState(userId, completedStepIds, currentStepId, context, complete, succeeded)
    }

    constructor (context: Context)
      ensures State() == CreateSession(context)
    {
      userId, completedStepIds, currentStepId, complete, succeeded := "", [], None, false, {};
      this.context := context;
    }

    method StartFlow(steps: seq<FlowStep>) returns (first: Option<string>)
      modifies this
      ensures State() == Start(steps, old(State())) && first == currentStepId
    {
      var next := GetNextStep(steps, None, context);
      currentStepId := match next case Ok(Some(step)) => Some(step.id) case _ => None;
      first := currentStepId;
    }

    method AdvanceSession(steps: seq<FlowStep>, completedStep: FlowStep) returns (reply: Reply)
      modifies this
      ensures (State(), reply) == Advance(steps, old(State()), completedStep)
    {
      completedStepIds := completedStepIds + [completedStep.id];
      var next := GetNextStep(steps, Some(completedStep.id), context);
      if next.Err? {
        return NoSuchStep;
      }
      currentStepId := match next.value case Some(step) => Some(step.id) case None => None;
      complete := next.value.None?;
      return StepResult(true, currentStepId, complete);
    }

    method ProcessStep(steps: seq<FlowStep>, stepId: string, q: Request) returns (reply: Reply)
      modifies this
      ensures (State(), reply) == Process(steps, old(State()), stepId, q)
    {
      if complete {
        return AlreadyComplete;
      }
      var found := StepNamed(steps, stepId);
      if found.None? {
        return NoSuchStep;
      }
      var step := found.value;
      context := context + q.external;
      if Skipped(step, context) {
        reply := AdvanceSession(steps, step);
        return;
      }
      var handled := Dispatch(step, userId, context, q);
      match handled
      case Unauthorized => return NotAuthorized;
      case Crash =>
        if step.fallbackStepId != "" {
          currentStepId := Some(step.fallbackStepId);
          return StepResult(false, currentStepId, false);
        }
        return StepCrashed;
      case Failure =>
        if step.fallbackStepId != "" {
          currentStepId := Some(step.fallbackStepId);
          return StepResult(false, currentStepId, false);
        }
        return StepResult(false, Some(step.id), false);
      case Success(user, updated) =>
        userId, context := user, updated;
        succeeded := succeeded + {step.id};
        reply := AdvanceSession(steps, step);
    }
  }
}
