/** Roles a token carries: direct ones plus those of every group reachable by parent links, without
    duplicates, split into realm roles and per-client lists. */
module RoleResolution {
  import opened Collections
  import opened Wrappers

  type GroupId = string

  /** `clientId` is the foreign key of the owning client row, `client` that row's public client id. */
  datatype Role = Role(id: string, name: string, clientId: Option<string>, client: Option<string>)

  datatype Group = Group(roles: seq<Role>, parentId: Option<GroupId>)

  type Groups = map<GroupId, Group>

  // ----- Reachability ------------------------------------------------------------------------------

  function Parent(groups: Groups, g: GroupId): Option<GroupId>
  {
    if g in groups && groups[g].parentId.Some? && groups[g].parentId.value != "" then groups[g].parentId else None
  }

  /** The group `n` parent links above `g`. */
  function Ancestor(groups: Groups, g: GroupId, n: nat): Option<GroupId>
  {
    if n == 0 then Some(g)
    else
      match Ancestor(groups, g, n - 1)
      case None => None
      case Some(h) => Parent(groups, h)
  }

  /** `h` is `g` or lies above it. */
  ghost predicate Above(groups: Groups, g: GroupId, h: GroupId)
  {
    exists n: nat :: Ancestor(groups, g, n) == Some(h)
  }

  ghost predicate Reachable(groups: Groups, members: seq<GroupId>, h: GroupId)
  {
    exists m :: m in members && Above(groups, m, h)
  }

  /** `groups[order[0]].roles + groups[order[1]].roles + ...` */
  function RolesOf(groups: Groups, order: seq<GroupId>): seq<Role>
    requires forall h :: h in order ==> h in groups
  {
    if order == [] then [] else RolesOf(groups, order[..|order| - 1]) + groups[order[|order| - 1]].roles
  }

  lemma {:induction false} RolesOfContains(groups: Groups, order: seq<GroupId>, r: Role)
    requires forall h :: h in order ==> h in groups
    ensures r in RolesOf(groups, order) <==> exists h :: h in order && r in groups[h].roles
  {
    if order != [] {
      var rest, last := order[..|order| - 1], order[|order| - 1];
      RolesOfContains(groups, rest, r);
      assert forall h :: h in order <==> h in rest || h == last;
    }
  }

  /** The parent of every visited group is visited, except that it may still be `pending`. */
  ghost predicate Closed(groups: Groups, visited: set<GroupId>, pending: Option<GroupId>)
  {
    forall v :: v in visited && Parent(groups, v).Some? ==>
      Parent(groups, v).value in visited || Parent(groups, v) == pending
  }

  lemma {:induction false} ClosedContainsAncestors(groups: Groups, visited: set<GroupId>, g: GroupId, n: nat)
    requires Closed(groups, visited, None) && g in visited && Ancestor(groups, g, n).Some?
    ensures Ancestor(groups, g, n).value in visited
  {
    if n > 0 {
      ClosedContainsAncestors(groups, visited, g, n - 1);
    }
  }

  // ----- The walk ----------------------------------------------------------------------------------

  class GroupWalk {
    const groups: Groups
    var visited: set<GroupId>
    var allRoles: seq<Role>
    ghost var order: seq<GroupId>   // the groups whose roles were pushed, in order

    constructor (groups: Groups)
      ensures this.groups == groups && visited == {} && allRoles == [] && order == []
    {
      this.groups := groups;
      visited, allRoles, order := {}, [], [];
    }

    ghost predicate Valid()
      reads this
    {
      && Distinct(order)
      && (forall h :: h in order <==> h in visited && h in groups)
      && allRoles == RolesOf(groups, order)
    }

    /** Marks `groupId` and, if the group exists, pushes its roles. */
    method Visit(groupId: GroupId)
      requires Valid() && groupId !in visited
      modifies this
      ensures Valid() && visited == old(visited) + {groupId}
    {
      visited := visited + {groupId};
      if groupId in groups {
        order := order + [groupId];
        allRoles := allRoles + groups[groupId].roles;
        assert order[..|order| - 1] == old(order);
      }
    }

    /** Visits `groupId` and its ancestors, stopping at a group seen before. */
    method WalkGroup(groupId: GroupId)
      requires Valid() && Closed(groups, visited, Some(groupId))
      modifies this
      ensures Valid() && Closed(groups, visited, None)
      ensures old(visited) <= visited && groupId in visited
      ensures forall v :: v in visited && v !in old(visited) ==> Above(groups, groupId, v)
      decreases groups.Keys - visited
    {
      if groupId in visited {
        return;
      }
      Visit(groupId);
      assert Ancestor(groups, groupId, 0) == Some(groupId);
      assert Above(groups, groupId, groupId);
      if groupId !in groups {
        return;
      }
      var group := groups[groupId];
      if group.parentId.Some? && group.parentId.value != "" {
        ghost var before := visited;
        WalkGroup(group.parentId.value);
        forall v | v in visited && v !in old(visited)
          ensures Above(groups, groupId, v)
        {
          if v !in before {
            AboveParent(groups, groupId, v);
          }
        }
      }
    }
  }

  lemma AboveParent(groups: Groups, g: GroupId, h: GroupId)
    requires Parent(groups, g).Some? && Above(groups, Parent(groups, g).value, h)
    ensures Above(groups, g, h)
  {
    var n: nat :| Ancestor(groups, Parent(groups, g).value, n) == Some(h);
    AncestorOfParent(groups, g, n);
    assert Ancestor(groups, g, n + 1) == Some(h);
  }

  lemma {:induction false} AncestorOfParent(groups: Groups, g: GroupId, n: nat)
    requires Parent(groups, g).Some?
    ensures Ancestor(groups, g, n + 1) == Ancestor(groups, Parent(groups, g).value, n)
  {
    if n > 0 {
      AncestorOfParent(groups, g, n - 1);
    } else {
      assert Ancestor(groups, g, 0) == Some(g);
    }
  }

  /** On any group graph, cycles included: the walk ends, visits each group at most once, and yields
      exactly the roles of the groups reachable from the memberships by parent links. */
  method ResolveGroupRoles(groups: Groups, memberships: seq<GroupId>) returns (allRoles: seq<Role>, ghost order: seq<GroupId>)
    ensures Distinct(order) && forall h :: h in order <==> h in groups && Reachable(groups, memberships, h)
    ensures allRoles == RolesOf(groups, order)
    ensures forall r :: r in allRoles <==> exists h :: h in groups && Reachable(groups, memberships, h) && r in groups[h].roles
  {
    var walk := new GroupWalk(groups);
    var i := 0;
    while i < |memberships|
      invariant 0 <= i <= |memberships|
      invariant walk.Valid() && walk.groups == groups && Closed(groups, walk.visited, None)
      invariant forall j :: 0 <= j < i ==> memberships[j] in walk.visited
      invariant forall v :: v in walk.visited ==> Reachable(groups, memberships, v)
      modifies walk
    {
      walk.WalkGroup(memberships[i]);
      i := i + 1;
    }
    forall h | Reachable(groups, memberships, h) ensures h in walk.visited {
      var m :| m in memberships && Above(groups, m, h);
      var n: nat :| Ancestor(groups, m, n) == Some(h);
      ClosedContainsAncestors(groups, walk.visited, m, n);
    }
    allRoles, order := walk.allRoles, walk.order;
    forall r { RolesOfContains(groups, order, r); }
  }

  // ----- Deduplication -----------------------------------------------------------------------------

  function Ids(roles: seq<Role>): set<string>
  {
    set r | r in roles :: r.id
  }

  /** The roles whose id does not occur earlier, in order. */
  function Deduped(roles: seq<Role>): seq<Role>
  {
    if roles == [] then []
    else
      var rest, last := roles[..|roles| - 1], roles[|roles| - 1];
      if last.id in Ids(rest) then Deduped(rest) else Deduped(rest) + [last]
  }

  method Dedupe(roles: seq<Role>) returns (deduped: seq<Role>)
    ensures deduped == Deduped(roles)
  {
    deduped := [];
    var seenRoleIds: set<string> := {};
    var i := 0;
    while i < |roles|
      invariant 0 <= i <= |roles|
      invariant seenRoleIds == Ids(roles[..i]) && deduped == Deduped(roles[..i])
    {
      var r := roles[i];
      assert roles[..i + 1][..i] == roles[..i];
      assert Ids(roles[..i + 1]) == Ids(roles[..i]) + {r.id};
      if r.id !in seenRoleIds {
        seenRoleIds := seenRoleIds + {r.id};
        deduped := deduped + [r];
      }
      i := i + 1;
    }
    assert roles[..|roles|] == roles;
  }

  ghost predicate FirstAt(roles: seq<Role>, r: Role, k: int)
  {
    0 <= k < |roles| && roles[k] == r && roles[k].id !in Ids(roles[..k])
  }

  ghost predicate FirstOfItsId(roles: seq<Role>, r: Role)
  {
    exists k :: FirstAt(roles, r, k)
  }

  lemma FirstOfItsIdExtends(rest: seq<Role>, last: Role, r: Role)
    ensures FirstOfItsId(rest + [last], r) <==> FirstOfItsId(rest, r) || (r == last && last.id !in Ids(rest))
  {
    var roles := rest + [last];
    assert roles[..|rest|] == rest;
    if FirstOfItsId(rest, r) {
      var k :| FirstAt(rest, r, k);
      assert rest[..k] == roles[..k];
      assert FirstAt(roles, r, k);
    }
    if FirstOfItsId(roles, r) {
      var k :| FirstAt(roles, r, k);
      if k < |rest| {
        assert rest[..k] == roles[..k];
        assert FirstAt(rest, r, k);
      }
    }
    assert FirstAt(roles, last, |rest|) <==> last.id !in Ids(rest);
  }

  lemma IdsAppend(rest: seq<Role>, last: Role)
    ensures Ids(rest + [last]) == Ids(rest) + {last.id}
  {
    assert forall r :: r in rest + [last] <==> r in rest || r == last;
  }

  lemma {:induction false} DedupedKeepsIds(roles: seq<Role>)
    ensures forall i, j :: 0 <= i < j < |Deduped(roles)| ==> Deduped(roles)[i].id != Deduped(roles)[j].id
    ensures Ids(Deduped(roles)) == Ids(roles)
  {
    if roles != [] {
      var rest, last := roles[..|roles| - 1], roles[|roles| - 1];
      assert roles == rest + [last];
      DedupedKeepsIds(rest);
      IdsAppend(rest, last);
      IdsAppend(Deduped(rest), last);
      assert forall i :: 0 <= i < |Deduped(rest)| ==> Deduped(rest)[i].id in Ids(Deduped(rest));
    }
  }

  lemma {:induction false} DedupedAreFirst(roles: seq<Role>, r: Role)
    ensures r in Deduped(roles) <==> FirstOfItsId(roles, r)
  {
    if roles != [] {
      var rest, last := roles[..|roles| - 1], roles[|roles| - 1];
      assert roles == rest + [last];
      DedupedAreFirst(rest, r);
      FirstOfItsIdExtends(rest, last, r);
    }
  }

  /** No id twice, no id lost, and the kept roles are those that are the first of their id. */
  lemma {:induction false} DedupedKeepsFirstOfEachId(roles: seq<Role>)
    ensures forall i, j :: 0 <= i < j < |Deduped(roles)| ==> Deduped(roles)[i].id != Deduped(roles)[j].id
    ensures Ids(Deduped(roles)) == Ids(roles)
    ensures forall r :: r in Deduped(roles) <==> FirstOfItsId(roles, r)
  {
    DedupedKeepsIds(roles);
    forall r { DedupedAreFirst(roles, r); }
  }

  // ----- Partition ---------------------------------------------------------------------------------

  predicate IsRealmRole(r: Role)
  {
    r.clientId.None? || r.clientId.value == ""
  }

  function RealmNames(roles: seq<Role>): seq<string>
  {
    if roles == [] then []
    else
      var rest, last := roles[..|roles| - 1], roles[|roles| - 1];
      if IsRealmRole(last) then RealmNames(rest) + [last.name] else RealmNames(rest)
  }

  function ClientNames(roles: seq<Role>, client: string): seq<string>
  {
    if roles == [] then []
    else
      var rest, last := roles[..|roles| - 1], roles[|roles| - 1];
      if last.client == Some(client) then ClientNames(rest, client) + [last.name] else ClientNames(rest, client)
  }

  function ClientsOf(roles: seq<Role>): set<string>
  {
    set r | r in roles && r.client.Some? :: r.client.value
  }

  /** The number of names over all lists. */
  ghost function Total(access: map<string, seq<string>>): nat
    decreases access.Keys
  {
    if access == map[] then 0
    else
      var c :| c in access;
      |access[c]| + Total(access - {c})
  }

  lemma {:induction false} TotalWithout(access: map<string, seq<string>>, c: string)
    requires c in access
    ensures Total(access) == |access[c]| + Total(access - {c})
    decreases access.Keys
  {
    var d :| d in access && Total(access) == |access[d]| + Total(access - {d});
    if d != c {
      TotalWithout(access - {d}, c);
      TotalWithout(access - {c}, d);
      assert access - {d} - {c} == access - {c} - {d};
    }
  }

  lemma TotalAppend(access: map<string, seq<string>>, c: string, name: string)
    ensures var before := if c in access then access[c] else [];
            Total(access[c := before + [name]]) == Total(access) + 1
  {
    var before := if c in access then access[c] else [];
    var after := access[c := before + [name]];
    TotalWithout(after, c);
    if c in access {
      TotalWithout(access, c);
      assert after - {c} == access - {c};
    } else {
      assert after - {c} == access;
    }
  }

  /** `client` is loaded exactly when the foreign key is set. */
  predicate Linked(roles: seq<Role>)
  {
    forall r :: r in roles ==> (r.client.Some? <==> !IsRealmRole(r))
  }

  ghost predicate Filled(roles: seq<Role>, access: map<string, seq<string>>)
  {
    && access.Keys == ClientsOf(roles)
    && (forall c :: c in access ==> access[c] == ClientNames(roles, c))
    && (Linked(roles) ==> |RealmNames(roles)| + Total(access) == |roles|)
  }

  /** `access` with the name pushed on the client's list. */
  function Pushed(access: map<string, seq<string>>, cId: string, name: string): map<string, seq<string>>
  {
    access[cId := (if cId in access then access[cId] else []) + [name]]
  }

  function AccessOf(roles: seq<Role>): map<string, seq<string>>
  {
    if roles == [] then map[]
    else
      var rest, role := AccessOf(roles[..|roles| - 1]), roles[|roles| - 1];
      if role.client.Some? then Pushed(rest, role.client.value, role.name) else rest
  }

  /** Each client's list holds the names of its roles in order, and realm names and lists together hold
      as many names as there are roles. */
  lemma {:induction false} AccessIsFilled(roles: seq<Role>)
    ensures Filled(roles, AccessOf(roles))
  {
    if roles != [] {
      var rest, role := roles[..|roles| - 1], roles[|roles| - 1];
      AccessIsFilled(rest);
      assert forall r :: r in roles <==> r in rest || r == role;
      assert ClientsOf(roles) == ClientsOf(rest) + (if role.client.Some? then {role.client.value} else {});
      if role.client.Some? {
        TotalAppend(AccessOf(rest), role.client.value, role.name);
        if role.client.value !in AccessOf(rest) {
          NoClientNoNames(rest, role.client.value);
        }
      }
    }
  }

  /** Starts a client's list when it meets the client first, and pushes the names. */
  method FillResourceAccess(roles: seq<Role>) returns (resourceAccess: map<string, seq<string>>)
    ensures resourceAccess == AccessOf(roles)
  {
    resourceAccess := map[];
    var i := 0;
    while i < |roles|
      invariant 0 <= i <= |roles|
      invariant resourceAccess == AccessOf(roles[..i])
    {
      var role := roles[i];
      assert roles[..i + 1][..i] == roles[..i];
      if role.client.Some? {
        var cId := role.client.value;
        if cId !in resourceAccess {
          resourceAccess := resourceAccess[cId := []];
        }
        resourceAccess := resourceAccess[cId := resourceAccess[cId] + [role.name]];
      }
      i := i + 1;
    }
    assert roles[..|roles|] == roles;
  }

  lemma {:induction false} NoClientNoNames(roles: seq<Role>, c: string)
    requires c !in ClientsOf(roles)
    ensures ClientNames(roles, c) == []
  {
    if roles != [] {
      assert roles[|roles| - 1] in roles;
      assert ClientsOf(roles[..|roles| - 1]) <= ClientsOf(roles);
      NoClientNoNames(roles[..|roles| - 1], c);
    }
  }

  /** A role lands among the realm roles or in its own client's list, under its name. */
  lemma {:induction false} EveryRoleLands(roles: seq<Role>, r: Role)
    requires r in roles && (r.client.Some? <==> !IsRealmRole(r))
    ensures IsRealmRole(r) ==> r.name in RealmNames(roles)
    ensures r.client.Some? ==> r.client.value in ClientsOf(roles) && r.name in ClientNames(roles, r.client.value)
  {
    var n := |roles| - 1;
    if roles[n] != r {
      EveryRoleLands(roles[..n], r);
      assert ClientsOf(roles[..n]) <= ClientsOf(roles);
    }
  }

  // ----- The claims --------------------------------------------------------------------------------

  /** `order` lists the existing groups reachable from the memberships, each once. */
  ghost predicate IsWalk(groups: Groups, memberships: seq<GroupId>, order: seq<GroupId>)
  {
    Distinct(order) && forall h :: h in order <==> h in groups && Reachable(groups, memberships, h)
  }

  ghost predicate Claims(roles: seq<Role>, realmRoles: seq<string>, resourceAccess: map<string, seq<string>>)
  {
    realmRoles == RealmNames(Deduped(roles)) && Filled(Deduped(roles), resourceAccess)
  }

  ghost predicate ClaimsAlong(direct: seq<Role>, groups: Groups, memberships: seq<GroupId>, order: seq<GroupId>,
                              realmRoles: seq<string>, resourceAccess: map<string, seq<string>>)
  {
    IsWalk(groups, memberships, order) && Claims(direct + RolesOf(groups, order), realmRoles, resourceAccess)
  }

  /** The role claims of a token, from the direct roles and the group memberships. */
  method RoleClaims(direct: seq<Role>, groups: Groups, memberships: seq<GroupId>)
    returns (realmRoles: seq<string>, resourceAccess: map<string, seq<string>>)
    ensures exists order :: ClaimsAlong(direct, groups, memberships, order, realmRoles, resourceAccess)
  {
    var groupRoles, order := ResolveGroupRoles(groups, memberships);
    var allRoles := direct + groupRoles;
    var dedupedRoles := Dedupe(allRoles);
    realmRoles := RealmNames(dedupedRoles);
    resourceAccess := FillResourceAccess(dedupedRoles);
    AccessIsFilled(dedupedRoles);
    assert ClaimsAlong(direct, groups, memberships, order, realmRoles, resourceAccess);
  }

  /** What such claims hold: every id among the direct roles and the roles of reachable groups is named
      once, in one of the lists, and nothing else is named. */
  lemma {:induction false} ClaimsNameEveryRoleOnce(direct: seq<Role>, groups: Groups, memberships: seq<GroupId>,
      order: seq<GroupId>, realmRoles: seq<string>, resourceAccess: map<string, seq<string>>)
    requires ClaimsAlong(direct, groups, memberships, order, realmRoles, resourceAccess)
    requires Linked(direct + RolesOf(groups, order))
    ensures var named := Deduped(direct + RolesOf(groups, order));
            && (forall i, j :: 0 <= i < j < |named| ==> named[i].id != named[j].id)
            && (forall id :: id in Ids(named) <==>
                  || (exists r :: r in direct && r.id == id)
                  || (exists h, r :: h in groups && Reachable(groups, memberships, h) && r in groups[h].roles && r.id == id))
            && (forall r :: r in named ==>
                  if IsRealmRole(r) then r.name in realmRoles
                  else r.client.Some? && r.client.value in resourceAccess && r.name in resourceAccess[r.client.value])
            && |realmRoles| + Total(resourceAccess) == |named|
  {
    var inherited := RolesOf(groups, order);
    var all := direct + inherited;
    var named := Deduped(all);
    DedupedKeepsFirstOfEachId(all);
    assert forall r :: r in named ==> r in all;
    forall r | r in named { EveryRoleLands(named, r); }
    forall id
      ensures id in Ids(named) <==>
              || (exists r :: r in direct && r.id == id)
              || (exists h, r :: h in groups && Reachable(groups, memberships, h) && r in groups[h].roles && r.id == id)
    {
      IdsFromWalk(direct, groups, memberships, order, id);
    }
  }

  lemma IdsFromWalk(direct: seq<Role>, groups: Groups, memberships: seq<GroupId>, order: seq<GroupId>, id: string)
    requires IsWalk(groups, memberships, order)
    ensures id in Ids(direct + RolesOf(groups, order)) <==>
            || (exists r :: r in direct && r.id == id)
            || (exists h, r :: h in groups && Reachable(groups, memberships, h) && r in groups[h].roles && r.id == id)
  {
    var inherited := RolesOf(groups, order);
    assert forall r :: r in direct + inherited <==> r in direct || r in inherited;
    forall r { RolesOfContains(groups, order, r); }
  }
}
