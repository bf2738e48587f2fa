/**
 * When completion is safe, for every validated flow. Other controllers write the context between requests, so
 * what one request can do at a position does not depend on how the session came there: runs that escape a
 * required step can be put together from single requests, each possible on its own.
 */
module FlowMoves {
  import opened Wrappers
  import opened Ordering
  import opened Json
  import opened FlowEngine
  import opened FlowExecutor
  import opened FlowSafety
  import opened FlowRoutes
  import Text

  // ----- Moves ---------------------------------------------------------------------------------------

  /** The session stands exactly at `a`. */
  ghost predicate Stands(st: FlowState, a: Position)
  {
    if a.Done? then st.complete
    else !st.complete && st.currentStepId == Some(a.step.id) && (a.known <==> st.userId != "")
  }

  /** The request takes a session from `a` to `b`, and `r` does not succeed in it. */
  ghost predicate Takes(steps: seq<FlowStep>, r: FlowStep, st: FlowState, q: Request, a: Position, b: Position)
    requires a.At?
  {
    && Stands(st, a) && r.id !in st.succeeded
    && var st' := Process(steps, st, a.step.id, q).0; Stands(st', b) && r.id !in st'.succeeded
  }

  /** Some request takes some session from `a` to `b` so. There are two positions to a step, and the end. */
  ghost predicate Move(steps: seq<FlowStep>, r: FlowStep, a: Position, b: Position)
  {
    && a.At? && a.step in steps && (b.At? ==> b.step in steps)
    && exists st, q :: Takes(steps, r, st, q, a, b)
  }

  ghost predicate Chain(steps: seq<FlowStep>, r: FlowStep, a: Position, path: seq<Position>)
    decreases |path|
  {
    if path == [] then a.Done? else Move(steps, r, a, path[0]) && Chain(steps, r, path[0], path[1..])
  }

  ghost predicate BeginsWith(steps: seq<FlowStep>, context: Context, a: Position)
  {
    a.At? && a.step in steps && Stands(Start(steps, CreateSession(context)), a)
  }

  /** Moves lead from a possible beginning to the end, and `r` succeeds in none of them. */
  ghost predicate Escapable(steps: seq<FlowStep>, r: FlowStep)
  {
    exists context, a, path :: BeginsWith(steps, context, a) && Chain(steps, r, a, path)
  }

  // ----- A run is a chain ----------------------------------------------------------------------------

  /** The position of a session at the step named `id`. */
  lemma PositionAt(steps: seq<FlowStep>, st: FlowState, id: string) returns (b: Position)
    requires id in IdsOf(steps) && !st.complete && st.currentStepId == Some(id)
    ensures b.At? && b.step in steps && Stands(st, b)
  {
    IdsOfMembers(steps, id);
    var s :| s in steps && s.id == id;
    b := At(s, st.userId != "");
  }

  lemma AdvanceStands(steps: seq<FlowStep>, st: FlowState, st': FlowState, step: FlowStep)
    requires ValidFlow(steps) && step in steps && !st.complete && st' == Advance(steps, st, step).0
    ensures st'.complete || (st'.currentStepId.Some? && st'.currentStepId.value in IdsOf(steps))
  {
    NextStepIsLeast(steps, step, st.context);
    var next := GetNextStep(steps, Some(step.id), st.context).value;
    if next.Some? {
      IdsOfMembers(steps, next.value.id);
    }
  }

  lemma ProcessStands(steps: seq<FlowStep>, st: FlowState, st': FlowState, step: FlowStep, q: Request)
    requires ValidFlow(steps) && step in steps && !st.complete && st.currentStepId == Some(step.id)
    requires st' == Process(steps, st, step.id, q).0
    ensures st'.complete || (st'.currentStepId.Some? && st'.currentStepId.value in IdsOf(steps))
  {
    IdsOfMembers(steps, step.id);
    SameOrderSameStep(steps, StepNamed(steps, step.id).value, step);
    var st1 := st.(context := st.context + q.external);
    if Skipped(step, st1.context) {
      AdvanceStands(steps, st1, st', step);
    } else {
      match Dispatch(step, st1.userId, st1.context, q)
      case Success(userId, context) =>
        var st2 := st1.(userId := userId, context := context, succeeded := st1.succeeded + {step.id});
        AdvanceStands(steps, st2, st', step);
      case _ =>
    }
  }

  lemma {:induction false} RunIsChain(steps: seq<FlowStep>, r: FlowStep, st: FlowState, a: Position, qs: seq<Request>)
    returns (path: seq<Position>)
    requires ValidFlow(steps) && a.At? && a.step in steps && Stands(st, a)
    requires Run(steps, st, qs).complete && r.id !in Run(steps, st, qs).succeeded
    ensures Chain(steps, r, a, path)
    decreases |qs|
  {
    var st' := Process(steps, st, a.step.id, qs[0]).0;
    ProcessGrows(steps, st, a.step.id, qs[0]);
    RunGrows(steps, st', qs[1..]);
    ProcessStands(steps, st, st', a.step, qs[0]);
    var b, rest := Done, [];
    if !st'.complete {
      b := PositionAt(steps, st', st'.currentStepId.value);
      rest := RunIsChain(steps, r, st', b, qs[1..]);
    }
    assert Takes(steps, r, st, qs[0], a, b);
    path := [b] + rest;
    assert path[1..] == rest;
  }

  // ----- What one request can do does not depend on the past -------------------------------------------

  function Lookup(context: Context, name: string): Json
  {
    if name in context then context[name] else Undefined
  }

  ghost predicate Agree(c: Context, d: Context)
  {
    forall name :: Lookup(c, name) == Lookup(d, name)
  }

  /** What other controllers write to make `context` look like `target`. */
  function Overwrite(context: Context, target: Context): Context
  {
    map name | name in context.Keys + target.Keys :: Lookup(target, name)
  }

  lemma OverwriteAgrees(context: Context, target: Context)
    ensures Agree(target, context + Overwrite(context, target))
  {
  }

  lemma AgreeEvaluates(condition: Condition, c: Context, d: Context)
    requires Agree(c, d)
    ensures EvaluateCondition(condition, c) <==> EvaluateCondition(condition, d)
  {
    var parts := Text.Split(condition.field, '.');
    assert Member(Obj(c), parts[0]) == Lookup(c, parts[0]) == Lookup(d, parts[0]) == Member(Obj(d), parts[0]);
    assert Resolve(Obj(c), parts, true) == Resolve(Member(Obj(c), parts[0]), parts[1..], true);
    assert Resolve(Obj(d), parts, true) == Resolve(Member(Obj(d), parts[0]), parts[1..], true);
  }

  lemma AgreeApplies(s: FlowStep, c: Context, d: Context)
    requires Agree(c, d)
    ensures Applicable(s, c) <==> Applicable(s, d)
    ensures Skipped(s, c) <==> Skipped(s, d)
  {
    if s.condition.Some? {
      AgreeEvaluates(s.condition.value, c, d);
    }
  }

  lemma {:induction false} AgreeFinds(steps: seq<FlowStep>, c: Context, d: Context)
    requires Agree(c, d)
    ensures Find(steps, ApplicableIn(c)) == Find(steps, ApplicableIn(d))
  {
    if steps != [] {
      AgreeApplies(steps[0], c, d);
      AgreeFinds(steps[1..], c, d);
    }
  }

  lemma AgreeNext(steps: seq<FlowStep>, id: string, c: Context, d: Context)
    requires Agree(c, d)
    ensures GetNextStep(steps, Some(id), c) == GetNextStep(steps, Some(id), d)
  {
    var i := FindIndex(SortBy(steps, ByOrder()), id);
    if i.Some? {
      AgreeFinds(SortBy(steps, ByOrder())[i.value + 1..], c, d);
    }
  }

  /** Alike for sessions that know a user and for those that do not. */
  ghost predicate Alike(d1: Handled, d2: Handled)
  {
    match (d1, d2)
    case (Success(u1, c1), Success(u2, c2)) => (u1 != "" <==> u2 != "") && Agree(c1, c2)
    case (Failure, Failure) => true
    case (Unauthorized, Unauthorized) => true
    case (Crash, Crash) => true
    case _ => false
  }

  lemma AgreeDispatch(step: FlowStep, u1: string, c1: Context, u2: string, c2: Context, q: Request, external: Context)
    requires Agree(c1, c2) && (u1 != "" <==> u2 != "")
    ensures Alike(Dispatch(step, u1, c1, q), Dispatch(step, u2, c2, q.(external := external)))
  {
    assert Member(Obj(c1), "webauthnVerified") == Lookup(c1, "webauthnVerified") == Lookup(c2, "webauthnVerified");
    if step.stepType.WebAuthn? {
      AgreeWrite(c1, c2, "user", Obj(map["id" := Str(q.userId)]));
    } else if Identifies(step) && q.login.Accepted? {
      AgreeWrite(c1, c2, "user", UserObject(q.login.user));
    }
  }

  lemma AgreeWrite(c: Context, d: Context, name: string, v: Json)
    requires Agree(c, d)
    ensures Agree(c[name := v], d[name := v])
  {
    var c', d' := c[name := v], d[name := v];
    forall n ensures Lookup(c', n) == Lookup(d', n) {
      assert Lookup(c, n) == Lookup(d, n);
    }
  }

  /** Moving on from alike states. */
  lemma AgreeAdvance(steps: seq<FlowStep>, step: FlowStep, st1: FlowState, st2: FlowState, b: Position)
    requires Agree(st1.context, st2.context) && (st1.userId != "" <==> st2.userId != "")
    requires !st1.complete && !st2.complete && st1.currentStepId == st2.currentStepId
    requires Stands(Advance(steps, st1, step).0, b)
    ensures Stands(Advance(steps, st2, step).0, b)
    ensures Advance(steps, st2, step).0.succeeded == st2.succeeded && Advance(steps, st1, step).0.succeeded == st1.succeeded
  {
    AgreeNext(steps, step.id, st1.context, st2.context);
  }

  lemma AgreeAttempt(steps: seq<FlowStep>, r: FlowStep, step: FlowStep, st1: FlowState, st2: FlowState, q: Request,
                     external: Context, b: Position)
    requires Agree(st1.context, st2.context) && (st1.userId != "" <==> st2.userId != "")
    requires !st1.complete && !st2.complete && st1.currentStepId == st2.currentStepId
    requires Stands(Attempt(steps, st1, step, q).0, b) && r.id !in Attempt(steps, st1, step, q).0.succeeded
    requires r.id !in st2.succeeded
    ensures var st' := Attempt(steps, st2, step, q.(external := external)).0; Stands(st', b) && r.id !in st'.succeeded
  {
    AgreeDispatch(step, st1.userId, st1.context, st2.userId, st2.context, q, external);
    match Dispatch(step, st1.userId, st1.context, q)
    case Success(userId, context) =>
      var d := Dispatch(step, st2.userId, st2.context, q.(external := external));
      AgreeAdvance(steps, step, st1.(userId := userId, context := context, succeeded := st1.succeeded + {step.id}),
                   st2.(userId := d.userId, context := d.context, succeeded := st2.succeeded + {step.id}), b);
    case _ =>
  }

  /** What one request can do to some session at `a`, one can do to any. */
  lemma Reproduce(steps: seq<FlowStep>, r: FlowStep, st1: FlowState, q1: Request, a: Position, b: Position, st2: FlowState)
    returns (q2: Request)
    requires ValidFlow(steps) && a.At? && a.step in steps && Takes(steps, r, st1, q1, a, b)
    requires Stands(st2, a) && r.id !in st2.succeeded
    ensures Takes(steps, r, st2, q2, a, b)
  {
    SameOrderSameStep(steps, StepNamed(steps, a.step.id).value, a.step);
    var seen := st1.context + q1.external;
    var external := Overwrite(st2.context, seen);
    q2 := q1.(external := external);
    OverwriteAgrees(st2.context, seen);
    AgreeApplies(a.step, seen, st2.context + external);
    var now1, now2 := st1.(context := seen), st2.(context := st2.context + external);
    if Skipped(a.step, seen) {
      AgreeAdvance(steps, a.step, now1, now2, b);
    } else {
      AgreeAttempt(steps, r, a.step, now1, now2, q1, external, b);
    }
  }

  // ----- A chain is a run ----------------------------------------------------------------------------

  lemma {:induction false} ChainIsRun(steps: seq<FlowStep>, r: FlowStep, st: FlowState, a: Position, path: seq<Position>)
    returns (qs: seq<Request>)
    requires ValidFlow(steps) && Chain(steps, r, a, path) && Stands(st, a) && r.id !in st.succeeded
    ensures Run(steps, st, qs).complete && r.id !in Run(steps, st, qs).succeeded
    decreases |path|
  {
    if path == [] {
      qs := [];
    } else {
      var st1, q1 :| Takes(steps, r, st1, q1, a, path[0]);
      var q := Reproduce(steps, r, st1, q1, a, path[0], st);
      var rest := ChainIsRun(steps, r, Process(steps, st, a.step.id, q).0, path[0], path[1..]);
      qs := [q] + rest;
      assert qs[1..] == rest;
    }
  }

  lemma EscapableIff(steps: seq<FlowStep>, r: FlowStep)
    requires ValidFlow(steps)
    ensures Escapable(steps, r) <==>
            exists context, qs :: StartedRun(steps, context, qs).complete && r.id !in StartedRun(steps, context, qs).succeeded
  {
    if Escapable(steps, r) {
      var context, a, path :| BeginsWith(steps, context, a) && Chain(steps, r, a, path);
      var qs := ChainIsRun(steps, r, Start(steps, CreateSession(context)), a, path);
      assert StartedRun(steps, context, qs).complete && r.id !in StartedRun(steps, context, qs).succeeded;
    }
    if context, qs :| StartedRun(steps, context, qs).complete && r.id !in StartedRun(steps, context, qs).succeeded {
      var st := Start(steps, CreateSession(context));
      FirstStepIsLeast(steps, context);
      var a := At(GetNextStep(steps, None, context).value.value, false);
      var path := RunIsChain(steps, r, st, a, qs);
      assert BeginsWith(steps, context, a) && Chain(steps, r, a, path);
    }
  }

  /** In every validated flow, whatever its conditions, step types and fallbacks: completion means that all
      required steps succeeded, in all runs, exactly when no chain of single moves escapes a required step. */
  lemma {:induction false} SafeExactlyWhenInescapable(steps: seq<FlowStep>)
    requires ValidFlow(steps)
    ensures AlwaysSafe(steps) <==> forall r :: r in steps && r.required ==> !Escapable(steps, r)
  {
    forall r | r in steps && r.required { EscapableIff(steps, r); }
    if r :| r in steps && r.required && Escapable(steps, r) {
      var context, qs :| StartedRun(steps, context, qs).complete && r.id !in StartedRun(steps, context, qs).succeeded;
      assert !SafeRun(steps, context, qs);
    } else {
      forall context, qs ensures SafeRun(steps, context, qs) {
      }
    }
  }
}
