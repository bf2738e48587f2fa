/**
 * The policy cache of one realm with reads and writes interleaved call by call: a reader that misses queries the
 * table and then fills the cache, a writer writes the table and then deletes the entry. Redis answers throughout.
 */
module CacheRace {
  import opened Wrappers
  import E = PolicyEngine

  type Policies = seq<E.Policy>
  type RequestId = nat

  const TTL := 60000   // milliseconds

  /** The list with the moment it was queried at, and the table as it was when the entry was set. */
  datatype Entry = Entry(policies: Policies, queried: nat, setAt: int, tableThen: Policies)

  /** A served list, the moment it was queried at, when it was cached, and when it was served. */
  datatype Served = Served(policies: Policies, queried: nat, setAt: int, at: int)

  datatype Reader = Getting | Querying | Filling(policies: Policies, queried: nat) | Answered(served: Served)

  datatype Moment = Moment(clock: int, table: Policies)

  /** `past` is the history of clock and table, `writing` the writers that have yet to invalidate. */
  datatype State = State(clock: int, table: Policies, entry: Option<Entry>, readers: map<RequestId, Reader>,
                         writing: set<RequestId>, past: seq<Moment>)

  predicate IsLive(entry: Entry, now: int)
  {
    now < entry.setAt + TTL
  }

  function Put(s: State, id: RequestId, r: Reader): State
  {
    s.(readers := s.readers[id := r])
  }

  function Get(s: State, id: RequestId): State
  {
    match s.entry
    case Some(e) =>
      if IsLive(e, s.clock) then Put(s, id, Answered(Served(e.policies, e.queried, e.setAt, s.clock)))
      else Put(s, id, Querying)
    case None => Put(s, id, Querying)
  }

  function Fill(s: State, id: RequestId, policies: Policies, queried: nat): State
  {
    Put(s.(entry := Some(Entry(policies, queried, s.clock, s.table))), id,
        Answered(Served(policies, queried, s.clock, s.clock)))
  }

  /** The reader's next call. */
  function Advance(s: State, id: RequestId): State
    requires id in s.readers && s.past != []
  {
    match s.readers[id]
    case Getting => Get(s, id)
    case Querying => Put(s, id, Filling(s.table, |s.past| - 1))
    case Filling(policies, queried) => Fill(s, id, policies, queried)
    case Answered(_) => s
  }

  // ----- Runs ----------------------------------------------------------------------------------------

  datatype Event =
    | Tick(ms: nat)
    | Arrive(id: RequestId)
    | Read(id: RequestId)
    | Write(id: RequestId, table: Policies)
    | Invalidate(id: RequestId)
    | Evicted                                  // by Redis

  predicate Enabled(s: State, e: Event)
  {
    match e
    case Arrive(id) => id !in s.readers
    case Read(id) => id in s.readers
    case Write(id, _) => id !in s.writing
    case Invalidate(id) => id in s.writing
    case _ => true
  }

  function Step(s: State, e: Event): State
    requires Enabled(s, e) && s.past != []
  {
    match e
    case Tick(ms) => s.(clock := s.clock + ms, past := s.past + [Moment(s.clock + ms, s.table)])
    case Arrive(id) => Put(s, id, Getting)
    case Read(id) => Advance(s, id)
    case Write(id, table) => s.(table := table, writing := s.writing + {id}, past := s.past + [Moment(s.clock, table)])
    case Invalidate(id) => s.(entry := None, writing := s.writing - {id})
    case Evicted => s.(entry := None)
  }

  predicate ValidRun(s: State, es: seq<Event>)
    requires s.past != []
    decreases |es|
  {
    es == [] || (Enabled(s, es[0]) && ValidRun(Step(s, es[0]), es[1..]))
  }

  function Run(s: State, es: seq<Event>): State
    requires s.past != [] && ValidRun(s, es)
    decreases |es|
  {
    if es == [] then s else Run(Step(s, es[0]), es[1..])
  }

  predicate Initial(s: State)
  {
    s.entry == None && s.readers == map[] && s.writing == {} && s.past == [Moment(s.clock, s.table)]
  }

  // ----- How old a served list can be ----------------------------------------------------------------------

  /** The list was the table's at the moment it was queried, no later than `time`. */
  predicate WasRead(s: State, policies: Policies, queried: nat, time: int)
  {
    queried < |s.past| && policies == s.past[queried].table && s.past[queried].clock <= time
  }

  predicate ReaderOk(s: State, r: Reader)
  {
    match r
    case Filling(policies, queried) => WasRead(s, policies, queried, s.clock)
    case Answered(x) => WasRead(s, x.policies, x.queried, x.setAt) && x.setAt <= x.at <= s.clock && x.at < x.setAt + TTL
    case _ => true
  }

  ghost predicate Inv(s: State)
  {
    && s.past != [] && s.past[|s.past| - 1] == Moment(s.clock, s.table)
    && (s.entry.Some? ==> WasRead(s, s.entry.value.policies, s.entry.value.queried, s.entry.value.setAt) && s.entry.value.setAt <= s.clock)
    && (s.entry.Some? && s.writing == {} ==> s.entry.value.tableThen == s.table)
    && (forall id :: id in s.readers ==> ReaderOk(s, s.readers[id]))
  }

  lemma StillOk(s: State, s': State, r: Reader)
    requires ReaderOk(s, r) && s.past <= s'.past && s.clock <= s'.clock
    ensures ReaderOk(s', r)
  {
  }

  lemma GetKeepsInv(s: State, s': State, id: RequestId)
    requires Inv(s) && id in s.readers && s.readers[id].Getting? && s' == Get(s, id)
    ensures Inv(s')
  {
    forall i | i in s'.readers ensures ReaderOk(s', s'.readers[i]) {
      assert i in s.readers && ReaderOk(s, s.readers[i]);
    }
  }

  lemma AdvanceKeepsInv(s: State, s': State, id: RequestId)
    requires Inv(s) && id in s.readers && s' == Advance(s, id)
    ensures Inv(s')
  {
    if s.readers[id].Getting? {
      GetKeepsInv(s, s', id);
    } else {
      forall i | i in s'.readers ensures ReaderOk(s', s'.readers[i]) {
        assert i in s.readers && ReaderOk(s, s.readers[i]);
      }
    }
  }

  lemma StepKeepsInv(s: State, s': State, e: Event)
    requires Inv(s) && Enabled(s, e) && s' == Step(s, e)
    ensures Inv(s')
  {
    if e.Read? {
      AdvanceKeepsInv(s, s', e.id);
    } else {
      forall id | id in s'.readers ensures ReaderOk(s', s'.readers[id]) {
        if id in s.readers {
          StillOk(s, s', s.readers[id]);
        }
      }
    }
  }

  lemma {:induction false} RunKeepsInv(s: State, es: seq<Event>)
    requires Inv(s) && ValidRun(s, es)
    ensures Inv(Run(s, es))
    decreases |es|
  {
    if es != [] {
      StepKeepsInv(s, Step(s, es[0]), es[0]);
      RunKeepsInv(Step(s, es[0]), es[1..]);
    }
  }

  /** Under any interleaving, a list served was the table's list when some reader queried it, and it is served
      less than a lifetime after that reader cached it: it is older than a minute by at most the time between
      that reader's query and its fill. */
  lemma {:induction false} ServedIsAtMostALifetimeOld(s: State, es: seq<Event>, id: RequestId)
    requires Initial(s) && ValidRun(s, es) && id in Run(s, es).readers && Run(s, es).readers[id].Answered?
    ensures var end := Run(s, es);
            var x := end.readers[id].served;
            && x.queried < |end.past| && x.policies == end.past[x.queried].table
            && end.past[x.queried].clock <= x.setAt <= x.at < x.setAt + TTL
  {
    RunKeepsInv(s, es);
    assert ReaderOk(Run(s, es), Run(s, es).readers[id]);
  }

  /** While no writer has yet to invalidate, a cached list is the current one exactly when it was when it was
      cached: only a write between a reader's query and its fill can leave a stale list behind. */
  lemma {:induction false} CachedIsCurrentIff(s: State, es: seq<Event>)
    requires Initial(s) && ValidRun(s, es) && Run(s, es).entry.Some? && Run(s, es).writing == {}
    ensures var end := Run(s, es); var e := end.entry.value;
            e.policies == end.table <==> e.policies == e.tableThen
  {
    RunKeepsInv(s, es);
  }

  // ----- A stale list ------------------------------------------------------------------------------------

  /** A reader queries the one policy there is; it is deleted and the entry invalidated; the reader fills the
      cache. Just under a minute later the deleted policy is still served. */
  lemma DeletedPolicyIsServed(s: State, p: E.Policy)
    requires Initial(s) && s.table == [p] && s.clock == 0
    ensures var s1 := Step(Step(Step(s, Arrive(1)), Read(1)), Read(1));
            var s2 := Step(Step(Step(s1, Write(7, [])), Invalidate(7)), Read(1));
            var s3 := Step(Step(Step(s2, Tick(TTL - 1)), Arrive(2)), Read(2));
            && s3.table == [] && s3.writing == {}
            && s3.readers[2].Answered? && s3.readers[2].served.policies == [p]
  {
    var s1 := Step(Step(Step(s, Arrive(1)), Read(1)), Read(1));
    assert s1.readers[1] == Filling([p], 0);
    var s2 := Step(Step(Step(s1, Write(7, [])), Invalidate(7)), Read(1));
    assert s2.entry == Some(Entry([p], 0, 0, []));
  }
}
