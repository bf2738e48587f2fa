/**
 * Pending consent requests taken by concurrent callers: looking a request up and deleting it are two database
 * calls, and deleting an absent row throws.
 */
module ConsentRequests {
  import opened Wrappers
  import opened Consent

  type CallerId = nat

  datatype Phase =
    | Looking | Deleting(row: Pending, readAt: int) | DroppingExpired | HandedOut(data: string, readAt: int) | Nothing | Thrown

  datatype Caller = Caller(tokenHash: string, phase: Phase)

  /** `stored` remembers every row there ever was. */
  datatype State = State(clock: int, rows: map<string, Pending>, stored: map<string, Pending>, callers: map<CallerId, Caller>)

  const REQUEST_LIFETIME := 600000   // milliseconds

  function Look(s: State, h: string): Phase
  {
    if h !in s.rows || !s.rows[h].isConsentRequest then Nothing
    else if s.rows[h].expiresAt < s.clock then DroppingExpired
    else Deleting(s.rows[h], s.clock)
  }

  function Put(s: State, id: CallerId, c: Caller, phase: Phase): State
  {
    s.(callers := s.callers[id := c.(phase := phase)])
  }

  function Delete(s: State, id: CallerId, c: Caller, answer: Phase): State
  {
    if c.tokenHash !in s.rows then Put(s, id, c, Thrown)
    else Put(s.(rows := s.rows - {c.tokenHash}), id, c, answer)
  }

  function Advance(s: State, id: CallerId): State
    requires id in s.callers
  {
    var c := s.callers[id];
    match c.phase
    case Looking => Put(s, id, c, Look(s, c.tokenHash))
    case Deleting(row, readAt) => Delete(s, id, c, HandedOut(row.data, readAt))
    case DroppingExpired => Delete(s, id, c, Nothing)
    case _ => s
  }

  // ----- Runs ----------------------------------------------------------------------------------------

  datatype Event =
    | Tick(ms: nat)
    | Store(tokenHash: string, data: string)
    | StoreOther(tokenHash: string, row: Pending)   // pending actions of another type share the table
    | Arrive(id: CallerId, tokenHash: string)
    | Call(id: CallerId)
    | CleanUp

  /** Tokens are random, so a stored hash is a new one. */
  predicate Enabled(s: State, e: Event)
  {
    match e
    case Store(h, _) => h !in s.stored
    case StoreOther(h, row) => h !in s.stored && !row.isConsentRequest
    case Arrive(id, _) => id !in s.callers
    case Call(id) => id in s.callers
    case _ => true
  }

  function Step(s: State, e: Event): State
    requires Enabled(s, e)
  {
    match e
    case Tick(ms) => s.(clock := s.clock + ms)
    case Store(h, data) =>
      var row := Pending(true, data, s.clock + REQUEST_LIFETIME);
      s.(rows := s.rows[h := row], stored := s.stored[h := row])
    case StoreOther(h, row) => s.(rows := s.rows[h := row], stored := s.stored[h := row])
    case Arrive(id, h) => s.(callers := s.callers[id := Caller(h, Looking)])
    case Call(id) => Advance(s, id)
    case CleanUp => s.(rows := map h | h in s.rows && !(s.rows[h].isConsentRequest && s.rows[h].expiresAt < s.clock) :: s.rows[h])
  }

  predicate ValidRun(s: State, es: seq<Event>)
    decreases |es|
  {
    es == [] || (Enabled(s, es[0]) && ValidRun(Step(s, es[0]), es[1..]))
  }

  function Run(s: State, es: seq<Event>): State
    requires ValidRun(s, es)
    decreases |es|
  {
    if es == [] then s else Run(Step(s, es[0]), es[1..])
  }

  predicate Initial(s: State)
  {
    s.rows == map[] && s.stored == map[] && s.callers == map[]
  }

  // ----- Once in every interleaving ----------------------------------------------------------------------

  predicate Got(s: State, id: CallerId, h: string)
  {
    id in s.callers && s.callers[id].tokenHash == h && s.callers[id].phase.HandedOut?
  }

  /** The request stored under the hash held the data and had not expired when it was read. */
  predicate WasOffered(s: State, h: string, data: string, readAt: int)
  {
    h in s.stored && s.stored[h].isConsentRequest && s.stored[h].data == data && readAt <= s.stored[h].expiresAt
  }

  predicate CallerOk(s: State, id: CallerId)
    requires id in s.callers
  {
    var c := s.callers[id];
    match c.phase
    case Deleting(row, readAt) =>
      c.tokenHash in s.stored && s.stored[c.tokenHash] == row && row.isConsentRequest && readAt <= row.expiresAt
    case HandedOut(data, readAt) => c.tokenHash !in s.rows && WasOffered(s, c.tokenHash, data, readAt)
    case _ => true
  }

  ghost predicate Inv(s: State)
  {
    && (forall h :: h in s.rows ==> h in s.stored && s.stored[h] == s.rows[h])
    && (forall id :: id in s.callers ==> CallerOk(s, id))
    && (forall h, i, j :: Got(s, i, h) && Got(s, j, h) ==> i == j)
  }

  lemma CallKeepsInv(s: State, s': State, id: CallerId)
    requires Inv(s) && id in s.callers && s' == Advance(s, id)
    ensures Inv(s')
  {
    assert CallerOk(s, id);
    forall i | i in s'.callers ensures CallerOk(s', i) {
      assert CallerOk(s, i);
    }
    forall h, i, j | Got(s', i, h) && Got(s', j, h) ensures i == j {
      if i != id {
        assert Got(s, i, h) && CallerOk(s, i);
      }
      if j != id {
        assert Got(s, j, h) && CallerOk(s, j);
      }
    }
  }

  lemma StepKeepsInv(s: State, s': State, e: Event)
    requires Inv(s) && Enabled(s, e) && s' == Step(s, e)
    ensures Inv(s')
  {
    if e.Call? {
      CallKeepsInv(s, s', e.id);
    } else {
      forall i | i in s'.callers ensures CallerOk(s', i) {
        if i in s.callers { assert CallerOk(s, i); }
      }
      forall h, i, j | Got(s', i, h) && Got(s', j, h) ensures i == j {
        assert Got(s, i, h) && Got(s, j, h);
      }
    }
  }

  lemma {:induction false} RunKeepsInv(s: State, es: seq<Event>)
    requires Inv(s) && ValidRun(s, es)
    ensures Inv(Run(s, es))
    decreases |es|
  {
    if es != [] {
      StepKeepsInv(s, Step(s, es[0]), es[0]);
      RunKeepsInv(Step(s, es[0]), es[1..]);
    }
  }

  /** Under any interleaving of callers a request is handed out at most once, what is handed out is what was
      stored under that token, and it had not expired when the caller read it. */
  lemma {:induction false} HandedOutAtMostOnce(s0: State, es: seq<Event>)
    requires Initial(s0) && ValidRun(s0, es)
    ensures var s := Run(s0, es);
            && (forall h, i, j :: Got(s, i, h) && Got(s, j, h) ==> i == j)
            && (forall h, i :: Got(s, i, h) ==>
                  h !in s.rows && WasOffered(s, h, s.callers[i].phase.data, s.callers[i].phase.readAt))
  {
    RunKeepsInv(s0, es);
    var s := Run(s0, es);
    forall h, i | Got(s, i, h)
      ensures h !in s.rows && WasOffered(s, h, s.callers[i].phase.data, s.callers[i].phase.readAt)
    {
      assert CallerOk(s, i);
    }
  }

  /** What a caller has to show after its calls. */
  function Answer(p: Phase): Option<string>
  {
    match p
    case HandedOut(data, _) => Some(data)
    case _ => None
  }

  /** A caller whose two calls are not interrupted gets what the service's method returns, and leaves the rows
      that it leaves. */
  lemma AloneIsTakeRequest(s: State, id: CallerId)
    requires id in s.callers && s.callers[id].phase.Looking?
    ensures var s' := Advance(Advance(s, id), id);
            (s'.rows, Answer(s'.callers[id].phase)) == TakeRequest(s.rows, s.callers[id].tokenHash, s.clock)
  {
  }
}
