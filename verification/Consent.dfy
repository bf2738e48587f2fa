/** Consent rows, the history of consent actions, and what the history says about the rows. */
module Consent {
  import opened Wrappers
  import opened Ordering

  datatype Action = Granted | Updated | Revoked

  /** `versioned` is none when no policy version was recorded. */
  datatype Entry = Entry(userId: string, clientId: string, action: Action, scopes: seq<string>,
                         policyVersion: Option<string>, categoryKeys: seq<string>, createdAt: int)

  type Pair = (string, string)

  datatype State = State(clock: int, consents: map<Pair, seq<string>>, history: seq<Entry>)

  // ----- Operations --------------------------------------------------------------------------------

  predicate Covers(stored: seq<string>, requested: seq<string>)
  {
    forall i :: 0 <= i < |requested| ==> requested[i] in stored
  }

  function Lookup(s: State, userId: string, clientId: string): Option<seq<string>>
  {
    if (userId, clientId) in s.consents then Some(s.consents[(userId, clientId)]) else None
  }

  predicate HasConsent(s: State, userId: string, clientId: string, requested: seq<string>)
  {
    match Lookup(s, userId, clientId)
    case None => false
    case Some(scopes) => Covers(scopes, requested)
  }

  /** A failed history write is swallowed: `written` tells whether it succeeded. */
  function Record(history: seq<Entry>, e: Entry, written: bool): seq<Entry>
  {
    if written then history + [e] else history
  }

  function GrantConsent(s: State, userId: string, clientId: string, scopes: seq<string>,
                        version: Option<string>, categoryKeys: seq<string>, written: bool): State
  {
    var action := if (userId, clientId) in s.consents then Updated else Granted;
    var e := Entry(userId, clientId, action, scopes, version, categoryKeys, s.clock);
    s.(consents := s.consents[(userId, clientId) := scopes], history := Record(s.history, e, written))
  }

  function RevokeConsent(s: State, userId: string, clientId: string, categoryKeys: seq<string>, written: bool): State
  {
    match Lookup(s, userId, clientId)
    case None => s
    case Some(scopes) =>
      var e := Entry(userId, clientId, Revoked, scopes, None, categoryKeys, s.clock);
      s.(consents := s.consents - {(userId, clientId)}, history := Record(s.history, e, written))
  }

  // ----- Replay ------------------------------------------------------------------------------------

  predicate About(e: Entry, userId: string, clientId: string)
  {
    e.userId == userId && e.clientId == clientId
  }

  /** The stored scopes the history of a pair leads to. */
  function Replay(history: seq<Entry>, userId: string, clientId: string): Option<seq<string>>
  {
    if history == [] then None
    else
      var e := history[|history| - 1];
      if !About(e, userId, clientId) then Replay(history[..|history| - 1], userId, clientId)
      else if e.action.Revoked? then None
      else Some(e.scopes)
  }

  /** A pair's entries form a prefix of (granted updated* revoked)*. */
  predicate WellFormed(history: seq<Entry>, userId: string, clientId: string)
  {
    if history == [] then true
    else
      var rest, e := history[..|history| - 1], history[|history| - 1];
      && WellFormed(rest, userId, clientId)
      && (About(e, userId, clientId) ==>
            if Replay(rest, userId, clientId).None? then e.action.Granted? else e.action.Updated? || e.action.Revoked?)
  }

  ghost predicate Synced(s: State)
  {
    forall u, c :: Replay(s.history, u, c) == Lookup(s, u, c) && WellFormed(s.history, u, c)
  }

  datatype Event =
    | Tick(ms: nat)
    | Grant(userId: string, clientId: string, scopes: seq<string>, version: Option<string>, categoryKeys: seq<string>)
    | Revoke(userId: string, clientId: string, categoryKeys: seq<string>)

  /** A step whose history write succeeds. */
  function Step(s: State, e: Event): State
  {
    match e
    case Tick(ms) => s.(clock := s.clock + ms)
    case Grant(u, c, scopes, version, keys) => GrantConsent(s, u, c, scopes, version, keys, true)
    case Revoke(u, c, keys) => RevokeConsent(s, u, c, keys, true)
  }

  function Run(s: State, es: seq<Event>): State
  {
    if es == [] then s else Step(Run(s, es[..|es| - 1]), es[|es| - 1])
  }

  lemma AppendAgrees(history: seq<Entry>, e: Entry, u: string, c: string)
    ensures Replay(history + [e], u, c)
            == if !About(e, u, c) then Replay(history, u, c) else if e.action.Revoked? then None else Some(e.scopes)
    ensures WellFormed(history + [e], u, c) <==>
            && WellFormed(history, u, c)
            && (About(e, u, c) ==>
                  if Replay(history, u, c).None? then e.action.Granted? else e.action.Updated? || e.action.Revoked?)
  {
    assert (history + [e])[..|history|] == history;
  }

  lemma StepKeepsSynced(s: State, s': State, e: Event)
    requires Synced(s) && s' == Step(s, e)
    ensures Synced(s')
  {
    forall u, c ensures Replay(s'.history, u, c) == Lookup(s', u, c) && WellFormed(s'.history, u, c) {
      assert Replay(s.history, u, c) == Lookup(s, u, c) && WellFormed(s.history, u, c);
      if |s'.history| > |s.history| {
        var entry := s'.history[|s.history|];
        assert s'.history == s.history + [entry];
        AppendAgrees(s.history, entry, u, c);
      }
    }
  }

  lemma {:induction false} RunKeepsSynced(s: State, es: seq<Event>)
    requires Synced(s)
    ensures Synced(Run(s, es))
  {
    if es != [] {
      var before := Run(s, es[..|es| - 1]);
      RunKeepsSynced(s, es[..|es| - 1]);
      StepKeepsSynced(before, Step(before, es[|es| - 1]), es[|es| - 1]);
    }
  }

  /** A consent row covers a request exactly when every requested scope is among the stored ones. */
  lemma HasConsentExactly(s: State, userId: string, clientId: string, requested: seq<string>)
    ensures HasConsent(s, userId, clientId, requested) <==>
            (userId, clientId) in s.consents && forall x :: x in requested ==> x in s.consents[(userId, clientId)]
  {
    if (userId, clientId) in s.consents && Covers(s.consents[(userId, clientId)], requested) {
      forall x | x in requested ensures x in s.consents[(userId, clientId)] {
        var i :| 0 <= i < |requested| && requested[i] == x;
      }
    }
  }

  /** In every run of grants and revocations whose history writes succeed, replaying the history gives
      the consent table, a pair's entries follow the life cycle, and consent to some scopes is their
      inclusion in the replayed ones. */
  lemma {:induction false} HistoryRebuildsConsents(s0: State, es: seq<Event>, userId: string, clientId: string, requested: seq<string>)
    requires s0.consents == map[] && s0.history == []
    ensures var s := Run(s0, es);
            var replayed := Replay(s.history, userId, clientId);
            && replayed == Lookup(s, userId, clientId)
            && WellFormed(s.history, userId, clientId)
            && (HasConsent(s, userId, clientId, requested) <==>
                  replayed.Some? && forall x :: x in requested ==> x in replayed.value)
  {
    assert Synced(s0);
    RunKeepsSynced(s0, es);
    assert Replay(Run(s0, es).history, userId, clientId) == Lookup(Run(s0, es), userId, clientId);
    HasConsentExactly(Run(s0, es), userId, clientId, requested);
  }

  /** A lost write of a grant goes unnoticed exactly when it changed nothing. */
  lemma LostGrantKeepsSyncedIff(s: State, userId: string, clientId: string, scopes: seq<string>,
                                version: Option<string>, categoryKeys: seq<string>)
    requires Synced(s)
    ensures Synced(GrantConsent(s, userId, clientId, scopes, version, categoryKeys, false))
            <==> Lookup(s, userId, clientId) == Some(scopes)
  {
    var s' := GrantConsent(s, userId, clientId, scopes, version, categoryKeys, false);
    assert Lookup(s', userId, clientId) == Some(scopes);
    assert Replay(s.history, userId, clientId) == Lookup(s, userId, clientId);
    if Lookup(s, userId, clientId) == Some(scopes) {
      assert s'.consents == s.consents;
    }
  }

  /** A lost write of a revocation goes unnoticed exactly when there was no consent. */
  lemma LostRevocationKeepsSyncedIff(s: State, userId: string, clientId: string, categoryKeys: seq<string>)
    requires Synced(s)
    ensures Synced(RevokeConsent(s, userId, clientId, categoryKeys, false)) <==> Lookup(s, userId, clientId).None?
  {
    var s' := RevokeConsent(s, userId, clientId, categoryKeys, false);
    assert Replay(s.history, userId, clientId) == Lookup(s, userId, clientId);
    if Lookup(s, userId, clientId).Some? {
      assert Lookup(s', userId, clientId).None?;
    }
  }

  // ----- Categories and re-consent -----------------------------------------------------------------

  datatype PolicyVersion = PolicyVersion(version: string, isActive: bool, publishedAt: int)

  datatype Category = Category(realmId: string, key: string, enabled: bool, scopes: seq<string>, policies: seq<PolicyVersion>)

  /** A category governs the scopes it lists or, when it lists none, the scope named like its key. */
  predicate Governs(category: Category, scopes: seq<string>)
  {
    if category.scopes == [] then category.key in scopes
    else exists i :: 0 <= i < |category.scopes| && category.scopes[i] in scopes
  }

  /** `categories` in key order. */
  function ResolveCategoryKeys(categories: seq<Category>, realmId: string, scopes: seq<string>): (keys: seq<string>)
    ensures forall k :: k in keys <==>
              exists c :: c in categories && c.realmId == realmId && c.enabled && Governs(c, scopes) && c.key == k
  {
    if categories == [] then []
    else
      var c, rest := categories[0], ResolveCategoryKeys(categories[1..], realmId, scopes);
      assert forall d :: d in categories <==> d == c || d in categories[1..];
      if c.realmId == realmId && c.enabled && Governs(c, scopes) then [c.key] + rest else rest
  }

  function NewestPublished(): PolicyVersion -> int
  {
    (v: PolicyVersion) => -v.publishedAt
  }

  function IsActive(): PolicyVersion -> bool
  {
    (v: PolicyVersion) => v.isActive
  }

  /** The active policy published last. */
  function ActivePolicy(category: Category): Option<PolicyVersion>
  {
    Find(SortBy(category.policies, NewestPublished()), IsActive())
  }

  function Newest(): Entry -> int
  {
    (e: Entry) => -e.createdAt
  }

  function VersionedFor(userId: string, clientId: string): Entry -> bool
  {
    (e: Entry) => About(e, userId, clientId) && e.policyVersion.Some?
  }

  function TaggedWith(key: string): Entry -> bool
  {
    (e: Entry) => key in e.categoryKeys
  }

  /** The pair's entries with a policy version, newest first. */
  function VersionedEntries(history: seq<Entry>, userId: string, clientId: string): seq<Entry>
  {
    SortBy(Filter(history, VersionedFor(userId, clientId)), Newest())
  }

  /** What the one-pass map must hold after `rows`: the version of the first row with each key. */
  ghost predicate LastAccepted(rows: seq<Entry>, m: map<string, string>)
  {
    forall k ::
      match Find(rows, TaggedWith(k))
      case None => k !in m
      case Some(e) => k in m && e.policyVersion == Some(m[k])
  }

  /** The nested loops over the newest-first rows. */
  method BuildLastAccepted(rows: seq<Entry>) returns (m: map<string, string>)
    requires forall i :: 0 <= i < |rows| ==> rows[i].policyVersion.Some?
    ensures LastAccepted(rows, m)
  {
    m := map[];
    var i := 0;
    while i < |rows|
      invariant 0 <= i <= |rows|
      invariant LastAccepted(rows[..i], m)
    {
      var entry := rows[i];
      ghost var before := m;
      var j := 0;
      while j < |entry.categoryKeys|
        invariant 0 <= j <= |entry.categoryKeys|
        invariant forall k :: k in m <==> k in before || k in entry.categoryKeys[..j]
        invariant forall k :: k in m ==> m[k] == if k in before then before[k] else entry.policyVersion.value
      {
        var key := entry.categoryKeys[j];
        if key !in m {
          m := m[key := entry.policyVersion.value];
        }
        j := j + 1;
      }
      assert entry.categoryKeys[..j] == entry.categoryKeys;
      ExtendLastAccepted(rows[..i], entry, before, m);
      assert rows[..i + 1] == rows[..i] + [entry];
      i := i + 1;
    }
    assert rows[..i] == rows;
  }

  lemma ExtendLastAccepted(rows: seq<Entry>, e: Entry, before: map<string, string>, after: map<string, string>)
    requires LastAccepted(rows, before) && e.policyVersion.Some?
    requires forall k :: k in after <==> k in before || k in e.categoryKeys
    requires forall k :: k in after ==> after[k] == if k in before then before[k] else e.policyVersion.value
    ensures LastAccepted(rows + [e], after)
  {
    forall k
      ensures match Find(rows + [e], TaggedWith(k))
              case None => k !in after
              case Some(x) => k in after && x.policyVersion == Some(after[k])
    {
      FindAppend(rows, e, TaggedWith(k));
      assert match Find(rows, TaggedWith(k)) case None => k !in before case Some(x) => k in before && x.policyVersion == Some(before[k]);
    }
  }

  /** The category has an active policy, and the newest versioned entry tagged with it accepted another
      version. An accepted version that is the empty string counts as none. */
  ghost predicate Outdated(category: Category, history: seq<Entry>, userId: string, clientId: string)
  {
    ActivePolicy(category).Some? &&
    exists i :: NewestTagged(history, userId, clientId, category.key, i)
                && history[i].policyVersion.value != "" && history[i].policyVersion.value != ActivePolicy(category).value.version
  }

  /** Entry `i` is the newest of the pair's entries with a version and this category key. */
  ghost predicate NewestTagged(history: seq<Entry>, userId: string, clientId: string, key: string, i: int)
  {
    FirstByKey(history, Newest(), Both(VersionedFor(userId, clientId), TaggedWith(key)), i)
  }

  lemma NewestTaggedFound(history: seq<Entry>, userId: string, clientId: string, key: string)
    ensures match Find(VersionedEntries(history, userId, clientId), TaggedWith(key))
            case None => forall i :: !NewestTagged(history, userId, clientId, key, i)
            case Some(e) => exists i :: NewestTagged(history, userId, clientId, key, i) && history[i] == e
  {
    var q, p := VersionedFor(userId, clientId), TaggedWith(key);
    var rows := Filter(history, q);
    FindInSorted(rows, Newest(), p);
    FilterMembers(history, q);
    var found := Find(VersionedEntries(history, userId, clientId), p);
    if found.Some? {
      var i :| FirstByKey(rows, Newest(), p, i) && rows[i] == found.value;
      FirstAmongFiltered(history, Newest(), q, p, i);
    } else {
      forall i | 0 <= i < |history| ensures !Both(q, p)(history[i]) {
        assert history[i] in rows <==> q(history[i]);
      }
    }
  }

  lemma NewestTaggedUnique(history: seq<Entry>, userId: string, clientId: string, key: string, i: int, j: int)
    requires NewestTagged(history, userId, clientId, key, i) && NewestTagged(history, userId, clientId, key, j)
    ensures i == j
  {
  }

  lemma EntryHasVersion(history: seq<Entry>, userId: string, clientId: string, e: Entry)
    requires e in VersionedEntries(history, userId, clientId)
    ensures e.policyVersion.Some?
  {
    var q := VersionedFor(userId, clientId);
    SortByKeepsMembers(Filter(history, q), Newest());
    FilterMembers(history, q);
    assert q(e);
  }

  lemma EntriesHaveVersions(rows: seq<Entry>, history: seq<Entry>, userId: string, clientId: string)
    requires rows == VersionedEntries(history, userId, clientId)
    ensures forall i :: 0 <= i < |rows| ==> rows[i].policyVersion.Some?
  {
    forall i | 0 <= i < |rows| ensures rows[i].policyVersion.Some? {
      EntryHasVersion(history, userId, clientId, rows[i]);
    }
  }

  /** The one-pass answer is the direct one: given a consent, re-consent is due exactly when some
      enabled category of the realm is outdated. */
  method RequiresReConsent(s: State, categories: seq<Category>, userId: string, clientId: string, realmId: string)
    returns (r: bool)
    ensures r <==> (userId, clientId) in s.consents
                   && exists c :: c in categories && c.realmId == realmId && c.enabled && Outdated(c, s.history, userId, clientId)
  {
    if (userId, clientId) !in s.consents {
      return false;
    }
    var rows := VersionedEntries(s.history, userId, clientId);
    EntriesHaveVersions(rows, s.history, userId, clientId);
    var lastAcceptedByCategory := BuildLastAccepted(rows);
    var n := 0;
    while n < |categories|
      invariant 0 <= n <= |categories|
      invariant forall k :: 0 <= k < n && categories[k].realmId == realmId && categories[k].enabled ==>
                  !Outdated(categories[k], s.history, userId, clientId)
    {
      var category := categories[n];
      if category.realmId == realmId && category.enabled {
        var outdated := IsOutdated(category, rows, lastAcceptedByCategory, s.history, userId, clientId);
        if outdated {
          assert category in categories;
          return true;
        }
      }
      n := n + 1;
    }
    return false;
  }

  method IsOutdated(category: Category, ghost rows: seq<Entry>, lastAccepted: map<string, string>,
                    ghost history: seq<Entry>, userId: string, clientId: string) returns (r: bool)
    requires rows == VersionedEntries(history, userId, clientId) && LastAccepted(rows, lastAccepted)
    ensures r <==> Outdated(category, history, userId, clientId)
  {
    NewestTaggedFound(history, userId, clientId, category.key);
    var active := ActivePolicy(category);
    if active.None? {
      return false;
    }
    if category.key !in lastAccepted {
      return false;
    }
    var accepted := lastAccepted[category.key];
    ghost var e := Find(rows, TaggedWith(category.key)).value;
    ghost var i :| NewestTagged(history, userId, clientId, category.key, i) && history[i] == e;
    r := accepted != "" && active.value.version != accepted;
    forall j | NewestTagged(history, userId, clientId, category.key, j) ensures j == i {
      NewestTaggedUnique(history, userId, clientId, category.key, i, j);
    }
  }

  /** The newest accepted version differs from the active one and yet no re-consent is due: exactly
      when that accepted version is the empty string. */
  lemma EmptyVersionHidesChange(category: Category, history: seq<Entry>, userId: string, clientId: string, i: int)
    requires ActivePolicy(category).Some? && NewestTagged(history, userId, clientId, category.key, i)
    requires history[i].policyVersion.value != ActivePolicy(category).value.version
    ensures !Outdated(category, history, userId, clientId) <==> history[i].policyVersion.value == ""
  {
    forall j | NewestTagged(history, userId, clientId, category.key, j) ensures j == i {
      NewestTaggedUnique(history, userId, clientId, category.key, i, j);
    }
  }

  /** One grant recorded with the version "", and "2" active since: no re-consent. */
  lemma EmptyVersionExample(history: seq<Entry>, category: Category)
    requires history == [Entry("u", "c", Granted, ["s"], Some(""), ["k"], 0)]
    requires category == Category("r", "k", true, [], [PolicyVersion("2", true, 0)])
    ensures NewestTagged(history, "u", "c", "k", 0) && ActivePolicy(category) == Some(category.policies[0])
    ensures history[0].policyVersion.value != "2" && !Outdated(category, history, "u", "c")
  {
    FindInSorted(category.policies, NewestPublished(), IsActive());
    assert category.policies[0] in category.policies;
    EmptyVersionHidesChange(category, history, "u", "c", 0);
  }

  // ----- Pending consent requests ------------------------------------------------------------------

  datatype Pending = Pending(isConsentRequest: bool, data: string, expiresAt: int)

  /** Looks a pending request up by token hash and consumes it. */
  function TakeRequest(pending: map<string, Pending>, tokenHash: string, now: int): (map<string, Pending>, Option<string>)
  {
    if tokenHash !in pending || !pending[tokenHash].isConsentRequest then (pending, None)
    else if pending[tokenHash].expiresAt < now then (pending - {tokenHash}, None)
    else (pending - {tokenHash}, Some(pending[tokenHash].data))
  }
}
