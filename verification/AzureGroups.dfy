/** Nested group membership, computed by a worklist over a graph that may have cycles. */
module AzureGroups {
  import opened Options
  import opened Strings
  import D = AzureDelta

  const GROUP_TYPE := "#microsoft.graph.group"
  const USER_TYPE := "#microsoft.graph.user"
  const PREFIX := "azure/"

  type SetMap = map<string, set<string>>

  function Get(m: SetMap, k: string): set<string> {
    if k in m then m[k] else {}
  }

  // --- Reachability ---

  /** A chain of groups, each a parent of the one before, starting at a direct membership. */
  predicate MembershipPath(direct: set<string>, parents: SetMap, path: seq<string>) {
    && path != []
    && path[0] in direct
    && forall i :: 0 <= i < |path| - 1 ==> path[i + 1] in Get(parents, path[i])
  }

  ghost predicate Reachable(direct: set<string>, parents: SetMap, group: string) {
    exists path :: MembershipPath(direct, parents, path) && path[|path| - 1] == group
  }

  lemma DirectIsReachable(direct: set<string>, parents: SetMap, group: string)
    requires group in direct
    ensures Reachable(direct, parents, group)
  {
    assert MembershipPath(direct, parents, [group]);
    assert [group][|[group]| - 1] == group;
  }

  lemma ParentIsReachable(direct: set<string>, parents: SetMap, group: string, parent: string)
    requires Reachable(direct, parents, group) && parent in Get(parents, group)
    ensures Reachable(direct, parents, parent)
  {
    var path :| MembershipPath(direct, parents, path) && path[|path| - 1] == group;
    var longer := path + [parent];
    assert MembershipPath(direct, parents, longer);
    assert longer[|longer| - 1] == parent;
  }

  /** A group that is reached but not direct is reached through one of its members. */
  lemma LastStep(direct: set<string>, parents: SetMap, group: string) returns (child: string)
    requires Reachable(direct, parents, group) && group !in direct
    ensures Reachable(direct, parents, child) && group in Get(parents, child)
  {
    var path :| MembershipPath(direct, parents, path) && path[|path| - 1] == group;
    var n := |path| - 1;
    var init := path[..n];
    child := path[n - 1];
    assert path[n - 1 + 1] in Get(parents, path[n - 1]);
    assert MembershipPath(direct, parents, init) && init[|init| - 1] == child;
  }

  /** A set closed under parents that holds the direct groups holds every path. */
  lemma {:induction false} ClosedContainsPath(
    direct: set<string>, parents: SetMap, closed: set<string>, path: seq<string>)
    requires direct <= closed && forall g :: g in closed ==> Get(parents, g) <= closed
    requires MembershipPath(direct, parents, path)
    ensures path[|path| - 1] in closed
    decreases |path|
  {
    if |path| > 1 {
      var init := path[..|path| - 1];
      ClosedContainsPath(direct, parents, closed, init);
      assert path[|path| - 2 + 1] in Get(parents, path[|path| - 2]);
    }
  }

  lemma ReachableSame(direct: set<string>, parents: SetMap, parents': SetMap, group: string)
    requires forall c :: Get(parents, c) == Get(parents', c)
    ensures Reachable(direct, parents, group) <==> Reachable(direct, parents', group)
  {
    forall path
      ensures MembershipPath(direct, parents, path) <==> MembershipPath(direct, parents', path)
    {
    }
  }

  /** Every group that can occur during the search. */
  function Universe(direct: set<string>, parents: SetMap): set<string> {
    direct + set c, p | c in parents && p in parents[c] :: p
  }

  lemma ParentsInUniverse(direct: set<string>, parents: SetMap, group: string)
    ensures Get(parents, group) <= Universe(direct, parents)
  {
  }

  ghost predicate AllReachable(direct: set<string>, parents: SetMap, groups: set<string>) {
    groups <= Universe(direct, parents) && forall g :: g in groups ==> Reachable(direct, parents, g)
  }

  lemma DirectReachable(direct: set<string>, parents: SetMap)
    ensures AllReachable(direct, parents, direct)
  {
    forall g | g in direct
      ensures Reachable(direct, parents, g)
    {
      DirectIsReachable(direct, parents, g);
    }
  }

  lemma ParentsReachable(direct: set<string>, parents: SetMap, group: string)
    requires Reachable(direct, parents, group)
    ensures AllReachable(direct, parents, Get(parents, group))
  {
    ParentsInUniverse(direct, parents, group);
    forall p | p in Get(parents, group)
      ensures Reachable(direct, parents, p)
    {
      ParentIsReachable(direct, parents, group, p);
    }
  }

  /** A set of reachable groups that is closed holds all of them. */
  lemma ClosedIsComplete(direct: set<string>, parents: SetMap, closed: set<string>)
    requires AllReachable(direct, parents, closed)
    requires direct <= closed && forall g :: g in closed ==> Get(parents, g) <= closed
    ensures forall g :: g in closed <==> Reachable(direct, parents, g)
  {
    forall g | Reachable(direct, parents, g)
      ensures g in closed
    {
      var path :| MembershipPath(direct, parents, path) && path[|path| - 1] == g;
      ClosedContainsPath(direct, parents, closed, path);
    }
  }

  class GroupLookup {
    var childUsers: SetMap
    var childGroups: SetMap

    constructor ()
      ensures childUsers == map[] && childGroups == map[]
    {
      childUsers, childGroups := map[], map[];
    }

    method AddGroup(parent: string, groupIDs: seq<string>, userIDs: seq<string>)
      modifies this
      ensures forall c :: Get(childGroups, c) == Get(old(childGroups), c) + if c in groupIDs then {parent} else {}
      ensures forall c :: Get(childUsers, c) == Get(old(childUsers), c) + if c in userIDs then {parent} else {}
    {
      childGroups := AddParent(childGroups, groupIDs, parent);
      childUsers := AddParent(childUsers, userIDs, parent);
    }

    /** Exactly the groups reachable from the user, strictly sorted, whatever the graph. */
    method GetGroupIDsForUser(user: string) returns (ids: seq<string>)
      ensures StrictlySorted(ids)
      ensures forall g :: g in ids <==> Reachable(Get(childUsers, user), childGroups, g)
    {
      var groupIDs := Search(Get(childUsers, user), childGroups);
      ids := Sorted(groupIDs);
    }
  }

  method AddParent(m: SetMap, children: seq<string>, parent: string) returns (m': SetMap)
    ensures forall c :: Get(m', c) == Get(m, c) + if c in children then {parent} else {}
  {
    m' := m;
    for i := 0 to |children|
      invariant forall c :: Get(m', c) == Get(m, c) + if c in children[..i] then {parent} else {}
    {
      m' := m'[children[i] := Get(m', children[i]) + {parent}];
    }
  }

  method Search(direct: set<string>, parents: SetMap) returns (groupIDs: set<string>)
    ensures forall g :: g in groupIDs <==> Reachable(direct, parents, g)
  {
    groupIDs := {};
    var todo := Listed(direct);
    ghost var pending := direct;
    DirectReachable(direct, parents);
    while |todo| > 0
      invariant forall g :: g in todo <==> g in pending
      invariant AllReachable(direct, parents, pending) && AllReachable(direct, parents, groupIDs)
      invariant direct <= groupIDs + pending
      invariant forall g :: g in groupIDs ==> Get(parents, g) <= groupIDs + pending
      decreases Universe(direct, parents) - groupIDs, |todo|
    {
      var group := todo[|todo| - 1];
      assert forall g :: g in todo <==> g == group || g in todo[..|todo| - 1];
      todo := todo[..|todo| - 1];
      if group in groupIDs {
        pending := set g | g in todo;
        continue;
      }
      assert group in pending;
      ParentsReachable(direct, parents, group);
      groupIDs := groupIDs + {group};
      var next := Listed(Get(parents, group));
      pending := (set g | g in todo) + Get(parents, group);
      todo := todo + next;
    }
    ClosedIsComplete(direct, parents, groupIDs);
  }

  /** The elements of a set in some order, as ranging over a map yields them. */
  method Listed(values: set<string>) returns (s: seq<string>)
    ensures forall v :: v in s <==> v in values
  {
    s := [];
    var todo := values;
    while todo != {}
      invariant todo <= values
      invariant forall v :: v in s <==> v in values - todo
      decreases todo
    {
      var v :| v in todo;
      s := s + [v];
      todo := todo - {v};
    }
  }

  // --- The directory view of a delta collection ---

  datatype DirectoryGroup = DirectoryGroup(id: string, name: string)

  datatype DirectoryUser = DirectoryUser(id: string, groupIds: seq<string>, displayName: string, email: string)

  /** Groups and members are stored under their own ids. */
  predicate WellKeyed(groups: D.Groups) {
    forall id :: id in groups ==>
      && groups[id].id == id
      && forall m :: m in groups[id].members ==> groups[id].members[m].id == m
  }

  lemma {:induction false} ApplyMembersWellKeyed(members: map<string, D.Member>, entries: seq<D.MemberEntry>)
    requires forall m :: m in members ==> members[m].id == m
    ensures forall m :: m in D.ApplyMembers(members, entries) ==> D.ApplyMembers(members, entries)[m].id == m
  {
    if entries != [] {
      ApplyMembersWellKeyed(members, entries[..|entries| - 1]);
    }
  }

  /** Every sync keeps the collection well keyed. */
  lemma {:induction false} ApplyGroupsWellKeyed(groups: D.Groups, entries: seq<D.GroupEntry>)
    requires WellKeyed(groups)
    ensures WellKeyed(D.ApplyGroups(groups, entries))
  {
    if entries != [] {
      var init, e := entries[..|entries| - 1], entries[|entries| - 1];
      ApplyGroupsWellKeyed(groups, init);
      var before := D.ApplyGroups(groups, init);
      ApplyMembersWellKeyed(D.MembersOf(Lookup(before, e.id)), e.members);
    }
  }

  /** The groups of which `child` is a direct member of the given type. */
  function Parents(groups: D.Groups, memberType: string, child: string): set<string> {
    set g | g in groups && child in groups[g].members && groups[g].members[child].memberType == memberType
  }

  function ParentMap(groups: D.Groups): SetMap {
    map c | c in (set g, m | g in groups && m in groups[g].members :: m) :: Parents(groups, GROUP_TYPE, c)
  }

  lemma ParentMapGet(groups: D.Groups, c: string)
    ensures Get(ParentMap(groups), c) == Parents(groups, GROUP_TYPE, c)
  {
  }

  /** Membership as the collection defines it, direct or nested. */
  ghost predicate Belongs(groups: D.Groups, user: string, group: string) {
    Reachable(Parents(groups, USER_TYPE, user), ParentMap(groups), group)
  }

  predicate HasMember(groups: D.Groups, group: string, member: string, memberType: string) {
    group in groups && member in groups[group].members && groups[group].members[member].memberType == memberType
  }

  lemma HasMemberIsParent(groups: D.Groups, group: string, member: string)
    ensures HasMember(groups, group, member, "#microsoft.graph.user") <==> group in Parents(groups, USER_TYPE, member)
    ensures HasMember(groups, group, member, "#microsoft.graph.group") <==> group in Get(ParentMap(groups), member)
  {
    ParentMapGet(groups, member);
  }

  /** A user belongs to a group as a user member of it, or through a group member of it that they belong to. */
  lemma BelongsExactly(groups: D.Groups, user: string, group: string)
    ensures Belongs(groups, user, group) <==>
              || HasMember(groups, group, user, "#microsoft.graph.user")
              || exists child :: Belongs(groups, user, child) && HasMember(groups, group, child, "#microsoft.graph.group")
  {
    var direct, parents := Parents(groups, USER_TYPE, user), ParentMap(groups);
    HasMemberIsParent(groups, group, user);
    if group in direct {
      DirectIsReachable(direct, parents, group);
    } else if Belongs(groups, user, group) {
      var child := LastStep(direct, parents, group);
      HasMemberIsParent(groups, group, child);
      assert Belongs(groups, user, child);
    }
    if child :| Belongs(groups, user, child) && HasMember(groups, group, child, "#microsoft.graph.group") {
      HasMemberIsParent(groups, group, child);
      ParentIsReachable(direct, parents, child, group);
    }
  }

  /** A user only belongs to groups that exist. */
  lemma BelongsToExisting(groups: D.Groups, user: string, group: string)
    requires Belongs(groups, user, group)
    ensures group in groups
  {
    var direct, parents := Parents(groups, USER_TYPE, user), ParentMap(groups);
    forall g
      ensures Get(parents, g) <= groups.Keys
    {
      ParentMapGet(groups, g);
    }
    var path :| MembershipPath(direct, parents, path) && path[|path| - 1] == group;
    ClosedContainsPath(direct, parents, groups.Keys, path);
  }

  /** The ids of the members of one group that have the given type. */
  method MembersOfType(g: D.Group, memberType: string) returns (ids: seq<string>)
    ensures forall id :: id in ids <==>
      exists m :: m in g.members && g.members[m].memberType == memberType && g.members[m].id == id
  {
    ids := [];
    var todo := g.members.Keys;
    while todo != {}
      invariant todo <= g.members.Keys
      invariant forall id :: id in ids <==>
        exists m :: m in g.members && m !in todo && g.members[m].memberType == memberType && g.members[m].id == id
      decreases todo
    {
      var m :| m in todo;
      if g.members[m].memberType == memberType {
        ids := ids + [g.members[m].id];
      }
      todo := todo - {m};
    }
  }

  method BuildLookup(groups: D.Groups) returns (l: GroupLookup)
    requires WellKeyed(groups)
    ensures fresh(l)
    ensures forall c :: Get(l.childUsers, c) == Parents(groups, USER_TYPE, c)
    ensures forall c :: Get(l.childGroups, c) == Parents(groups, GROUP_TYPE, c)
  {
    l := new GroupLookup();
    var todo := groups.Keys;
    while todo != {}
      invariant todo <= groups.Keys && fresh(l)
      invariant forall c :: Get(l.childUsers, c) == Parents(groups, USER_TYPE, c) - todo
      invariant forall c :: Get(l.childGroups, c) == Parents(groups, GROUP_TYPE, c) - todo
      decreases todo
    {
      var id :| id in todo;
      var groupIDs := MembersOfType(groups[id], GROUP_TYPE);
      var userIDs := MembersOfType(groups[id], USER_TYPE);
      assert forall c :: c in groupIDs <==> id in Parents(groups, GROUP_TYPE, c);
      assert forall c :: c in userIDs <==> id in Parents(groups, USER_TYPE, c);
      l.AddGroup(groups[id].id, groupIDs, userIDs);
      todo := todo - {id};
    }
  }

  /** The groups of one user, as the collection defines them. */
  method GroupsOfUser(l: GroupLookup, ghost groups: D.Groups, u: string) returns (ids: seq<string>)
    requires forall c :: Get(l.childUsers, c) == Parents(groups, USER_TYPE, c)
    requires forall c :: Get(l.childGroups, c) == Parents(groups, GROUP_TYPE, c)
    ensures StrictlySorted(ids)
    ensures forall g :: g in ids <==> Belongs(groups, u, g)
  {
    ids := l.GetGroupIDsForUser(u);
    forall c
      ensures Get(l.childGroups, c) == Get(ParentMap(groups), c)
    {
      ParentMapGet(groups, c);
    }
    forall g
      ensures g in ids <==> Belongs(groups, u, g)
    {
      ReachableSame(Parents(groups, USER_TYPE, u), l.childGroups, ParentMap(groups), g);
    }
  }

  function GroupIds(gs: seq<DirectoryGroup>): seq<string> {
    seq(|gs|, i requires 0 <= i < |gs| => gs[i].id)
  }

  function UserIds(us: seq<DirectoryUser>): seq<string> {
    seq(|us|, i requires 0 <= i < |us| => us[i].id)
  }

  method CurrentGroups(groups: D.Groups) returns (out: seq<DirectoryGroup>)
    ensures StrictlySorted(GroupIds(out))
    ensures forall g :: g in out <==> g.id in groups && g.name == groups[g.id].displayName
  {
    var ids := Sorted(groups.Keys);
    assert forall i :: 0 <= i < |ids| ==> ids[i] in ids;
    out := seq(|ids|, i requires 0 <= i < |ids| => DirectoryGroup(ids[i], groups[ids[i]].displayName));
    assert GroupIds(out) == ids;
    forall g | g in groups
      ensures DirectoryGroup(g, groups[g].displayName) in out
    {
      assert g in ids;
      var i :| 0 <= i < |ids| && ids[i] == g;
      assert out[i] == DirectoryGroup(g, groups[g].displayName);
    }
  }

  /** Sorted by id; every known user has an entry with exactly the groups they belong to. */
  method CurrentUserGroups(groups: D.Groups, users: D.Users)
    returns (outGroups: seq<DirectoryGroup>, outUsers: seq<DirectoryUser>)
    requires WellKeyed(groups)
    ensures StrictlySorted(GroupIds(outGroups)) && StrictlySorted(UserIds(outUsers))
    ensures forall g :: g in outGroups <==> g.id in groups && g.name == groups[g.id].displayName
    ensures forall id :: id in UserIds(outUsers) <==> exists u :: u in users && id == "azure/" + u
    ensures forall i :: 0 <= i < |outUsers| ==> IsEntry(outUsers[i], groups, users)
  {
    var l := BuildLookup(groups);
    outGroups := CurrentGroups(groups);
    var prefixed := Sorted(set u | u in users :: PREFIX + u);
    outUsers := [];
    for i := 0 to |prefixed|
      invariant forall c :: Get(l.childUsers, c) == Parents(groups, USER_TYPE, c)
      invariant forall c :: Get(l.childGroups, c) == Parents(groups, GROUP_TYPE, c)
      invariant |outUsers| == i && UserIds(outUsers) == prefixed[..i]
      invariant forall j :: 0 <= j < i ==> IsEntry(outUsers[j], groups, users)
    {
      assert prefixed[i] in prefixed;
      var u := prefixed[i][|PREFIX|..];
      assert prefixed[i] == PREFIX + u;
      var ids := GroupsOfUser(l, groups, u);
      outUsers := outUsers + [DirectoryUser(prefixed[i], ids, users[u].displayName, users[u].email)];
    }
    assert UserIds(outUsers) == prefixed;
  }

  ghost predicate IsEntry(entry: DirectoryUser, groups: D.Groups, users: D.Users) {
    && |PREFIX| <= |entry.id|
    && var u := entry.id[|PREFIX|..];
    && u in users && entry.id == PREFIX + u
    && entry.displayName == users[u].displayName && entry.email == users[u].email
    && StrictlySorted(entry.groupIds)
    && forall g :: g in entry.groupIds <==> Belongs(groups, u, g)
  }
}
