/** What granting and revoking consent means afterwards. */
module ConsentLaws {
  import opened Wrappers
  import opened Ordering
  import opened Consent

  predicate Touches(e: Event, userId: string, clientId: string)
  {
    (e.Grant? || e.Revoke?) && e.userId == userId && e.clientId == clientId
  }

  lemma StepLeavesPair(s: State, s': State, e: Event, userId: string, clientId: string)
    requires !Touches(e, userId, clientId) && s' == Step(s, e)
    ensures Lookup(s', userId, clientId) == Lookup(s, userId, clientId)
  {
  }

  lemma {:induction false} OthersLeavePair(s: State, es: seq<Event>, userId: string, clientId: string)
    requires forall e :: e in es ==> !Touches(e, userId, clientId)
    ensures Lookup(Run(s, es), userId, clientId) == Lookup(s, userId, clientId)
  {
    if es != [] {
      var before := es[..|es| - 1];
      assert es[|es| - 1] in es && forall x :: x in before ==> x in es;
      OthersLeavePair(s, before, userId, clientId);
      StepLeavesPair(Run(s, before), Run(s, es), es[|es| - 1], userId, clientId);
    }
  }

  /** After a grant, whether or not its history entry was written, the user has consented to exactly the scopes of the
      grant, and after a revocation to nothing, not even to an empty request, until the pair changes again. */
  lemma {:induction false} ConsentLastsExactly(s: State, grant: Event, written: bool, es: seq<Event>, requested: seq<string>)
    requires grant.Grant? && forall e :: e in es ==> !Touches(e, grant.userId, grant.clientId)
    ensures var granted := GrantConsent(s, grant.userId, grant.clientId, grant.scopes, grant.version, grant.categoryKeys, written);
            HasConsent(Run(granted, es), grant.userId, grant.clientId, requested) <==>
            forall x :: x in requested ==> x in grant.scopes
    ensures var revoked := RevokeConsent(s, grant.userId, grant.clientId, grant.categoryKeys, written);
            !HasConsent(Run(revoked, es), grant.userId, grant.clientId, requested)
  {
    var granted := GrantConsent(s, grant.userId, grant.clientId, grant.scopes, grant.version, grant.categoryKeys, written);
    var revoked := RevokeConsent(s, grant.userId, grant.clientId, grant.categoryKeys, written);
    OthersLeavePair(granted, es, grant.userId, grant.clientId);
    OthersLeavePair(revoked, es, grant.userId, grant.clientId);
    HasConsentExactly(Run(granted, es), grant.userId, grant.clientId, requested);
  }

  /** The entry a grant adds to the history, and the one a revocation adds: who, for what, which version, when. */
  lemma HistoryEntriesExactly(s: State, e: Event)
    requires e.Grant? || e.Revoke?
    ensures var history := Step(s, e).history;
            if e.Revoke? && (e.userId, e.clientId) !in s.consents then history == s.history
            else
              && |history| == |s.history| + 1 && history[..|s.history|] == s.history
              && var entry := history[|s.history|];
              && entry.userId == e.userId && entry.clientId == e.clientId && entry.createdAt == s.clock
              && entry.categoryKeys == e.categoryKeys
              && (e.Grant? ==> entry.scopes == e.scopes && entry.policyVersion == e.version
                               && entry.action == (if (e.userId, e.clientId) in s.consents then Updated else Granted))
              && (e.Revoke? ==> entry.scopes == s.consents[(e.userId, e.clientId)] && entry.policyVersion == None
                                && entry.action == Revoked)
  {
  }

  // ----- Categories ----------------------------------------------------------------------------------------

  /** The keys recorded with a consent: of the realm's enabled categories that list one of the scopes or, listing none,
      are named like one. */
  lemma KeysExactly(categories: seq<Category>, realmId: string, scopes: seq<string>, key: string)
    ensures key in ResolveCategoryKeys(categories, realmId, scopes) <==>
            exists c :: c in categories && c.realmId == realmId && c.enabled && c.key == key
                        && (if c.scopes == [] then key in scopes else exists x :: x in c.scopes && x in scopes)
  {
    forall c | c in categories { GovernsExactly(c, scopes); }
  }

  /** They come in the order of the categories. */
  lemma {:induction false} KeysInOrder(first: seq<Category>, second: seq<Category>, realmId: string, scopes: seq<string>)
    ensures ResolveCategoryKeys(first + second, realmId, scopes)
         == ResolveCategoryKeys(first, realmId, scopes) + ResolveCategoryKeys(second, realmId, scopes)
  {
    if first == [] {
      assert first + second == second;
    } else {
      assert (first + second)[1..] == first[1..] + second;
      KeysInOrder(first[1..], second, realmId, scopes);
    }
  }

  lemma GovernsExactly(c: Category, scopes: seq<string>)
    ensures Governs(c, scopes) <==> if c.scopes == [] then c.key in scopes else exists x :: x in c.scopes && x in scopes
  {
    if x :| x in c.scopes && x in scopes {
      var i :| 0 <= i < |c.scopes| && c.scopes[i] == x;
    }
    if i :| 0 <= i < |c.scopes| && c.scopes[i] in scopes {
      assert c.scopes[i] in c.scopes;
    }
  }

  // ----- Accepting a version -------------------------------------------------------------------------------

  /** A grant that records a version for a category, later than everything on record, settles the category: the user
      has to consent again exactly when another version than the accepted one is active, unless that was empty. */
  lemma {:induction false} AcceptedVersionSettles(s: State, e: Event, category: Category)
    requires e.Grant? && e.version.Some? && category.key in e.categoryKeys
    requires forall i :: 0 <= i < |s.history| ==> s.history[i].createdAt < s.clock
    ensures Outdated(category, Step(s, e).history, e.userId, e.clientId) <==>
            && ActivePolicy(category).Some? && e.version.value != ""
            && ActivePolicy(category).value.version != e.version.value
  {
    var history, n := Step(s, e).history, |s.history|;
    HistoryEntriesExactly(s, e);
    forall i | 0 <= i < n ensures history[i] == s.history[i] {
      assert history[..n][i] == s.history[i];
    }
    assert NewestTagged(history, e.userId, e.clientId, category.key, n);
    forall i | NewestTagged(history, e.userId, e.clientId, category.key, i) ensures i == n {
      NewestTaggedUnique(history, e.userId, e.clientId, category.key, i, n);
    }
  }

  /** The active policy of a category: one that is active, and none that is active was published later. */
  lemma ActivePolicyExactly(category: Category)
    ensures ActivePolicy(category) == None <==> forall v :: v in category.policies ==> !v.isActive
    ensures ActivePolicy(category).Some? ==>
              var active := ActivePolicy(category).value;
              && active in category.policies && active.isActive
              && forall v :: v in category.policies && v.isActive ==> v.publishedAt <= active.publishedAt
  {
    FindInSorted(category.policies, NewestPublished(), IsActive());
    SortByKeepsMembers(category.policies, NewestPublished());
    var found := ActivePolicy(category);
    if found.Some? {
      var i :| FirstByKey(category.policies, NewestPublished(), IsActive(), i) && category.policies[i] == found.value;
      forall v | v in category.policies && v.isActive ensures v.publishedAt <= found.value.publishedAt {
        var j :| 0 <= j < |category.policies| && category.policies[j] == v;
        assert IsActive()(category.policies[j]);
      }
    } else {
      forall v | v in category.policies ensures !v.isActive {
        assert v in SortBy(category.policies, NewestPublished()) && !IsActive()(v);
      }
    }
  }

  // ----- Pending requests ------------------------------------------------------------------------------------

  /** A pending request is handed out exactly when it is a consent request and has not expired; it is then gone, as it
      is when it has expired, and nothing else is. */
  lemma TakenExactly(pending: map<string, Pending>, tokenHash: string, now: int)
    ensures var (after, answer) := TakeRequest(pending, tokenHash, now);
            var mine := tokenHash in pending && pending[tokenHash].isConsentRequest;
            && (answer.Some? <==> mine && now <= pending[tokenHash].expiresAt)
            && (answer.Some? ==> answer.value == pending[tokenHash].data)
            && after == if mine then pending - {tokenHash} else pending
  {
  }
}
