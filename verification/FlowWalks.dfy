/**
 * The condition a flow's author can check, whatever conditions the optional steps carry: completion is safe
 * exactly when no step that can fail falls back past a required step.
 */
module FlowWalks {
  import opened Wrappers
  import opened Json
  import opened FlowEngine
  import opened FlowExecutor
  import opened FlowSafety
  import opened FlowRoutes
  import opened FlowBypass
  import opened FlowMoves
  import Text

  // ----- Steps that can be answered, and steps that can be come to ---------------------------------------

  /** From `x` upwards every step has a known type, and a user is known by the time a code is asked for. */
  ghost predicate Answerable(steps: seq<FlowStep>, x: FlowStep, known: bool)
  {
    forall t :: t in steps && x.order <= t.order ==>
      !t.stepType.UnknownType? && (t.stepType.Totp? ==> known || IdentifiedFrom(steps, x.order, t))
  }

  ghost predicate AnswerableFromStart(steps: seq<FlowStep>)
  {
    forall t :: t in steps ==> !t.stepType.UnknownType? && (t.stepType.Totp? ==> IdentifiedBefore(steps, t))
  }

  /** What the handlers of the flow may write over the context when user `v` signs in. */
  ghost predicate Writes(steps: seq<FlowStep>, v: UserRecord, u: Context)
  {
    || u == map[]
    || (u == map["user" := UserObject(v)] && exists s :: s in steps && (s.stepType.Password? || s.stepType.Ldap?))
    || (u == map["user" := Obj(map["id" := Str(v.id)])] && exists s :: s in steps && s.stepType.WebAuthn?)
  }

  /** In `c`, with a passkey verified, `s` is applicable before and after user `v` signs in. */
  ghost predicate HeldBy(steps: seq<FlowStep>, s: FlowStep, c: Context, v: UserRecord)
  {
    && v.id != "" && Truthy(Member(Obj(c), "webauthnVerified"))
    && (Always(s) || forall u :: Writes(steps, v, u) ==> EvaluateCondition(s.condition.value, c + u))
  }

  ghost predicate Holdable(steps: seq<FlowStep>, s: FlowStep)
  {
    exists c, v :: HeldBy(steps, s, c, v)
  }

  lemma HeldApplies(steps: seq<FlowStep>, s: FlowStep, c: Context, v: UserRecord, u: Context)
    requires HeldBy(steps, s, c, v) && Writes(steps, v, u)
    ensures Applicable(s, c + u) && !Skipped(s, c + u)
  {
  }

  // ----- One step up -------------------------------------------------------------------------------------

  function CooperativeRequest(v: UserRecord): Request
  {
    Request("u", "p", "c", v.id, Accepted(v), OtpResult(true), map[])
  }

  function SessionAt(x: FlowStep, known: bool, c: Context): FlowState
  {
    FlowState(if known then "u" else "", [], Some(x.id), c, false, {})
  }

  lemma CooperativeSucceeds(steps: seq<FlowStep>, x: FlowStep, userId: string, c: Context, v: UserRecord) returns (u: Context)
    requires x in steps && CanSucceed(x, userId != "") && v.id != "" && Truthy(Member(Obj(c), "webauthnVerified"))
    ensures Writes(steps, v, u)
    ensures Dispatch(x, userId, c, CooperativeRequest(v)) == Success(if Identifies(x) then v.id else userId, c + u)
  {
    u := map[];
    if x.stepType.Password? || x.stepType.Ldap? {
      u := map["user" := UserObject(v)];
    } else if x.stepType.WebAuthn? {
      u := map["user" := Obj(map["id" := Str(v.id)])];
    }
    assert c + map[] == c;
    assert Identifies(x) ==> c["user" := u["user"]] == c + u;
  }

  /** The session after a cooperative request: it has moved on from `x`. */
  lemma CooperativeAdvances(steps: seq<FlowStep>, x: FlowStep, known: bool, c: Context, v: UserRecord)
    returns (moved: FlowState, u: Context)
    requires ValidFlow(steps) && x in steps && CanSucceed(x, known) && v.id != "" && Truthy(Member(Obj(c), "webauthnVerified"))
    ensures Process(steps, SessionAt(x, known, c), x.id, CooperativeRequest(v)).0 == Advance(steps, moved, x).0
    ensures Writes(steps, v, u) && moved.context == c + u && !moved.complete && moved.succeeded <= {x.id}
    ensures known || (Always(x) && Identifies(x)) ==> moved.userId != ""
  {
    var st, q := SessionAt(x, known, c), CooperativeRequest(v);
    ProcessTries(steps, x, st, q);
    if Skipped(x, c) {
      moved, u := st, map[];
      assert c + map[] == c;
    } else {
      u := CooperativeSucceeds(steps, x, st.userId, c, v);
      var userId := if Identifies(x) then v.id else st.userId;
      moved := st.(userId := userId, context := c + u, succeeded := st.succeeded + {x.id});
      assert Attempt(steps, st, x, q) == Advance(steps, moved, x);
    }
  }

  /** A request that brings no new context skips the step or attempts it. */
  lemma ProcessTries(steps: seq<FlowStep>, x: FlowStep, st: FlowState, q: Request)
    requires ValidFlow(steps) && x in steps && !st.complete && st.currentStepId == Some(x.id) && q.external == map[]
    ensures Process(steps, st, x.id, q) == if Skipped(x, st.context) then Advance(steps, st, x) else Attempt(steps, st, x, q)
  {
    SameOrderSameStep(steps, StepNamed(steps, x.id).value, x);
    assert st.context + map[] == st.context;
  }

  /** From `x` a move leads up, past no step that is applicable then, `s` among them if it is held. */
  lemma MoveUp(steps: seq<FlowStep>, r: FlowStep, s: FlowStep, x: FlowStep, known: bool, c: Context, v: UserRecord)
    returns (b: Position)
    requires ValidFlow(steps) && x in steps && s in steps && r in steps && x != r
    requires CanSucceed(x, known) && HeldBy(steps, s, c, v)
    ensures Move(steps, r, At(x, known), b) && Reaches(steps, Some(x.order), b)
    ensures s.order > x.order ==> b.At? && b.step.order <= s.order
    ensures b.At? && (known || (Always(x) && Identifies(x))) ==> b.known
  {
    var moved, u := CooperativeAdvances(steps, x, known, c, v);
    var st, q := SessionAt(x, known, c), CooperativeRequest(v);
    var st' := Process(steps, st, x.id, q).0;
    HeldApplies(steps, s, c, v, u);
    NextStepIsLeast(steps, x, moved.context);
    b := Onward(steps, x, moved.context, moved.userId != "");
    OnwardReaches(steps, x, moved.context, moved.userId != "");
    if x.id == r.id {
      SameOrderSameStep(steps, x, r);
    }
    assert Takes(steps, r, st, q, At(x, known), b);
  }

  // ----- The way up to `s`, down its fallback, and on ------------------------------------------------------

  lemma AnswerOn(steps: seq<FlowStep>, x: FlowStep, n: FlowStep, known: bool, known': bool)
    requires ValidFlow(steps) && x in steps && x.order < n.order && Answerable(steps, x, known)
    requires forall m :: m in steps && Always(m) && x.order < m.order ==> n.order <= m.order
    requires known || (Always(x) && Identifies(x)) ==> known'
    ensures Answerable(steps, n, known')
  {
    forall t | t in steps && n.order <= t.order && t.stepType.Totp? && !known' ensures IdentifiedFrom(steps, n.order, t) {
      var i :| i in steps && Always(i) && Identifies(i) && x.order <= i.order < t.order;
      if i.order == x.order {
        SameOrderSameStep(steps, i, x);
      }
      assert n.order <= i.order;
    }
  }

  lemma KnowOn(steps: seq<FlowStep>, x: FlowStep, n: FlowStep, known: bool, known': bool)
    requires ValidFlow(steps) && x in steps && KnowsBelow(steps, x, known)
    requires forall m :: m in steps && Always(m) && x.order < m.order ==> n.order <= m.order
    requires known || (Always(x) && Identifies(x)) ==> known'
    ensures KnowsBelow(steps, n, known')
  {
    forall i | i in steps && Always(i) && Identifies(i) && i.order < n.order ensures known' {
      if i.order == x.order {
        SameOrderSameStep(steps, i, x);
      }
    }
  }

  lemma AnswersItself(steps: seq<FlowStep>, x: FlowStep, known: bool)
    requires x in steps && Answerable(steps, x, known)
    ensures CanSucceed(x, known)
  {
    assert !IdentifiedFrom(steps, x.order, x);
  }

  lemma {:induction false} WalkToEnd(steps: seq<FlowStep>, r: FlowStep, a: Position, c: Context, v: UserRecord)
    returns (path: seq<Position>)
    requires ValidFlow(steps) && r in steps && r.required && HeldBy(steps, r, c, v)
    requires a.At? && a.step in steps && a.step.order > r.order && Answerable(steps, a.step, a.known)
    ensures Chain(steps, r, a, path)
    decreases CountAbove(steps, a.step.order)
  {
    AnswersItself(steps, a.step, a.known);
    var b := MoveUp(steps, r, r, a.step, a.known, c, v);
    if b.Done? {
      path := [Done];
    } else {
      AnswerOn(steps, a.step, b.step, a.known, b.known);
      FewerAbove(steps, a.step.order, b.step.order);
      var rest := WalkToEnd(steps, r, b, c, v);
      path := [b] + rest;
      assert path[1..] == rest;
    }
  }

  /** The fallback of `s` is a move: `s` is not skipped, and every step that can fail has a request it fails. */
  lemma MoveDown(steps: seq<FlowStep>, r: FlowStep, s: FlowStep, f: FlowStep, known: bool, c: Context, v: UserRecord)
    requires ValidFlow(steps) && Bypass(steps, s, f, r) && HeldBy(steps, s, c, v)
    ensures Move(steps, r, At(s, known), At(f, known))
  {
    var st, q := SessionAt(s, known, c), CrashingRequest(map[]);
    ProcessTries(steps, s, st, q);
    HeldApplies(steps, s, c, v, map[]);
    assert c + map[] == c;
    CrashingRequestFails(s, st.userId, c, map[]);
    assert Takes(steps, r, st, q, At(s, known), At(f, known));
  }

  /** Codes asked for after falling back from `s` to `f` can be answered. */
  ghost predicate AnswerableAfter(steps: seq<FlowStep>, s: FlowStep, f: FlowStep)
  {
    Answerable(steps, f, IdentifiedBefore(steps, s))
  }

  lemma {:induction false} WalkThenFall(steps: seq<FlowStep>, s: FlowStep, f: FlowStep, r: FlowStep, a: Position,
                                        c: Context, v: UserRecord) returns (path: seq<Position>)
    requires ValidFlow(steps) && Bypass(steps, s, f, r) && AnswerableAfter(steps, s, f) && HeldBy(steps, s, c, v)
    requires a.At? && a.step in steps && a.step.order <= s.order
    requires Answerable(steps, a.step, a.known) && KnowsBelow(steps, a.step, a.known)
    ensures Chain(steps, r, a, path)
    decreases CountAbove(steps, a.step.order)
  {
    var b, rest;
    if a.step.order == s.order {
      SameOrderSameStep(steps, a.step, s);
      b := At(f, a.known);
      MoveDown(steps, r, s, f, a.known, c, v);
      assert IdentifiedBefore(steps, s) ==> a.known;
      rest := WalkToEnd(steps, r, b, c, v);
    } else {
      AnswersItself(steps, a.step, a.known);
      b := MoveUp(steps, r, s, a.step, a.known, c, v);
      AnswerOn(steps, a.step, b.step, a.known, b.known);
      KnowOn(steps, a.step, b.step, a.known, b.known);
      FewerAbove(steps, a.step.order, b.step.order);
      rest := WalkThenFall(steps, s, f, r, b, c, v);
    }
    path := [b] + rest;
    assert path[1..] == rest;
  }

  /** A bypass by a step that can be come to lets the required step escape. */
  lemma {:induction false} BypassEscapes(steps: seq<FlowStep>, s: FlowStep, f: FlowStep, r: FlowStep)
    requires ValidFlow(steps) && AnswerableFromStart(steps)
    requires Bypass(steps, s, f, r) && Holdable(steps, s) && AnswerableAfter(steps, s, f)
    ensures Escapable(steps, r)
  {
    var c, v :| HeldBy(steps, s, c, v);
    HeldApplies(steps, s, c, v, map[]);
    assert c + map[] == c;
    FirstStepIsLeast(steps, c);
    var n := GetNextStep(steps, None, c).value.value;
    StartReaches(steps, n, c);
    var a := At(n, false);
    forall t | t in steps && n.order <= t.order && t.stepType.Totp? ensures IdentifiedFrom(steps, n.order, t) {
      var i :| i in steps && Always(i) && Identifies(i) && i.order < t.order;
      assert n.order <= i.order;
    }
    var path := WalkThenFall(steps, s, f, r, a, c, v);
    assert BeginsWith(steps, c, a) && Chain(steps, r, a, path);
  }

  /** Whatever conditions the optional steps carry: in a flow whose steps can be answered, and in which a step
      that falls back past a required one can be come to, completion is safe exactly when there is no such step. */
  lemma {:induction false} SafeExactlyWithoutBypassing(steps: seq<FlowStep>)
    requires ValidFlow(steps) && AnswerableFromStart(steps)
    requires forall s, f, r :: Bypass(steps, s, f, r) ==> Holdable(steps, s) && AnswerableAfter(steps, s, f)
    ensures AlwaysSafe(steps) <==> NoRequiredStepBypassed(steps)
  {
    if NoRequiredStepBypassed(steps) {
      forall context, qs ensures SafeRun(steps, context, qs) {
        CompletionMeansAllRequiredSucceeded(steps, context, qs);
      }
    } else {
      var s, f, r :| Bypass(steps, s, f, r);
      BypassEscapes(steps, s, f, r);
      SafeExactlyWhenInescapable(steps);
    }
  }

  // ----- Which steps can be come to ------------------------------------------------------------------------

  const SIGNED_IN := UserRecord("u", "u", "u", true)

  /** Steps that are required or unconditional. */
  lemma AlwaysIsHoldable(steps: seq<FlowStep>, s: FlowStep)
    requires Always(s)
    ensures Holdable(steps, s)
  {
    assert HeldBy(steps, s, map["webauthnVerified" := Bool(true)], SIGNED_IN);
  }

  /** Steps conditioned on one plain field that no handler uses. */
  lemma PlainIsHoldable(steps: seq<FlowStep>, s: FlowStep)
    requires !Always(s) && IsPlain(s.condition.value)
    ensures Holdable(steps, s)
  {
    var condition := s.condition.value;
    var c: Context := map["webauthnVerified" := Bool(true), condition.field := Setting(condition, true)];
    forall u: Context | Writes(steps, SIGNED_IN, u) ensures EvaluateCondition(condition, c + u) {
      SettingDecides(condition, true, c + u);
    }
    assert HeldBy(steps, s, c, SIGNED_IN);
  }

  lemma FieldOf(context: Context, first: string, second: string, fields: map<string, Json>)
    requires first in context && context[first] == Obj(fields) && second in fields
    ensures Resolve(Obj(context), [first, second], true) == fields[second]
  {
    assert [first, second][1..] == [second] && [second][1..] == [];
    assert Resolve(Obj(context), [first, second], true) == Resolve(Obj(fields), [second], true);
    assert Resolve(Obj(fields), [second], true) == Resolve(fields[second], [], true);
  }

  lemma UserIdHolds(condition: Condition, context: Context, id: string, fields: map<string, Json>)
    requires condition == Condition("user.id", Eq, Str(id))
    requires "user" in context && context["user"] == Obj(fields) && "id" in fields && fields["id"] == Str(id)
    ensures EvaluateCondition(condition, context)
  {
    UserIdPath();
    FieldOf(context, "user", "id", fields);
  }

  /** Steps conditioned on who the user is: some user is the one the condition names. */
  lemma UserIdIsHoldable(steps: seq<FlowStep>, s: FlowStep, id: string)
    requires !Always(s) && s.condition == Some(Condition("user.id", Eq, Str(id))) && id != ""
    ensures Holdable(steps, s)
  {
    var v := UserRecord(id, "u", "u", true);
    var c: Context := map["webauthnVerified" := Bool(true), "user" := UserObject(v)];
    forall u: Context | Writes(steps, v, u) ensures EvaluateCondition(s.condition.value, c + u) {
      UserIdHolds(s.condition.value, c + u, id, (c + u)["user"].fields);
    }
    assert HeldBy(steps, s, c, v);
  }

  lemma UserIdPath()
    ensures Text.Split("user.id", '.') == ["user", "id"]
  {
    assert "user" + ['.'] + "id" == "user.id";
    Text.SplitAtSeparator("user", "id", '.');
    Text.SplitPlain("id", '.');
  }

  /** Without one-time codes and unknown types, and with the bypassing steps required or unconditional, nothing
      else has to be checked. */
  lemma {:induction false} SafeExactlyWithoutBypassOrCodes(steps: seq<FlowStep>)
    requires ValidFlow(steps) && forall s :: s in steps ==> !s.stepType.Totp? && !s.stepType.UnknownType?
    requires forall s, f, r :: Bypass(steps, s, f, r) ==> Always(s)
    ensures AlwaysSafe(steps) <==> NoRequiredStepBypassed(steps)
  {
    forall s, f, r | Bypass(steps, s, f, r) ensures Holdable(steps, s) && AnswerableAfter(steps, s, f) {
      AlwaysIsHoldable(steps, s);
    }
    SafeExactlyWithoutBypassing(steps);
  }
}
