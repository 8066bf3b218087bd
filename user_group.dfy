/**
 * Choosing the group a dashboard page works on (lib/groups/getUserGroup.ts):
 * the user's memberships are loaded, the group named by the `bw_active_group`
 * cookie is preferred, and the first membership is the fallback.
 */
module UserGroup {
  import opened Common

  /** A `group_members` row with its joined group; `name` is `None` when the join or the name is missing. */
  datatype Membership = Membership(groupId: string, name: Option<string>)

  /** What the membership query gave: `None` when it threw or returned no data. */
  type MembershipQuery = Option<seq<Membership>>

  datatype PageGroup = PageGroup(groups: seq<Membership>, firstGroupId: Option<string>, groupName: Option<string>)

  datatype PageOutcome = SignIn | Ready(page: PageGroup)

  /** The list the page works with: empty when the query threw or returned no data. */
  function LoadedGroups(query: MembershipQuery): (r: seq<Membership>)
    ensures query.None? ==> r == []
    ensures query.Some? ==> r == query.value
  {
    if query.Some? then query.value else []
  }

  /** `groups.find((group) => group.group_id === activeGroupId)`: the index of the first match. */
  function FindActive(groups: seq<Membership>, activeGroupId: Option<string>): (r: Option<nat>)
    ensures r.None? <==> activeGroupId.None? || forall i :: 0 <= i < |groups| ==> groups[i].groupId != activeGroupId.value
    ensures r.Some? ==> r.value < |groups| && activeGroupId.Some? && groups[r.value].groupId == activeGroupId.value
                        && forall i :: 0 <= i < r.value ==> groups[i].groupId != activeGroupId.value
  {
    if activeGroupId.None? || groups == [] then None
    else if groups[0].groupId == activeGroupId.value then Some(0)
    else
      match FindActive(groups[1..], activeGroupId)
      case None => None
      case Some(i) => Some(i + 1)
  }

  /** A name that `||` keeps: present and not empty. */
  predicate HasName(name: Option<string>) { name.Some? && name.value != "" }

  /** `activeGroup?.group_id || groups[0]?.group_id` */
  function FirstGroupId(groups: seq<Membership>, active: Option<nat>): (r: Option<string>)
    requires active.Some? ==> active.value < |groups|
    ensures r.None? <==> groups == []
    ensures active.Some? && groups[active.value].groupId != "" ==> r == Some(groups[active.value].groupId)
    ensures (active.None? || groups[active.value].groupId == "") && groups != [] ==> r == Some(groups[0].groupId)
  {
    if active.Some? && groups[active.value].groupId != "" then Some(groups[active.value].groupId)
    else if groups != [] then Some(groups[0].groupId)
    else None
  }

  /** `activeGroup?.groups?.name || groups[0]?.groups?.name` */
  function GroupName(groups: seq<Membership>, active: Option<nat>): (r: Option<string>)
    requires active.Some? ==> active.value < |groups|
    ensures groups == [] ==> r.None?
    ensures active.Some? && HasName(groups[active.value].name) ==> r == groups[active.value].name
    ensures (active.None? || !HasName(groups[active.value].name)) && groups != [] ==> r == groups[0].name
  {
    if active.Some? && HasName(groups[active.value].name) then groups[active.value].name
    else if groups != [] then groups[0].name
    else None
  }

  /**
   * `getUserAndFirstGroup`: without a user the page goes to sign in; otherwise the
   * memberships, the chosen group's id and a group name.
   */
  function UserAndFirstGroup(user: Option<string>, query: MembershipQuery, cookie: Option<string>): (r: PageOutcome)
    ensures r == SignIn <==> user.None?
    ensures r.Ready? ==> r.page.groups == LoadedGroups(query)
    ensures r.Ready? ==> r.page.firstGroupId == FirstGroupId(LoadedGroups(query), FindActive(LoadedGroups(query), cookie))
    ensures r.Ready? ==> r.page.groupName == GroupName(LoadedGroups(query), FindActive(LoadedGroups(query), cookie))
  {
    if user.None? then SignIn
    else
      var groups := LoadedGroups(query);
      var active := FindActive(groups, cookie);
      Ready(PageGroup(groups, FirstGroupId(groups, active), GroupName(groups, active)))
  }

  /** The chosen id is always one of the user's memberships, and there is one whenever there are memberships. */
  lemma ChosenGroupIsAMembership(user: string, query: MembershipQuery, cookie: Option<string>)
    ensures var page := UserAndFirstGroup(Some(user), query, cookie).page;
            && (page.firstGroupId.Some? <==> page.groups != [])
            && (page.firstGroupId.Some? ==> exists i :: 0 <= i < |page.groups| && page.groups[i].groupId == page.firstGroupId.value)
  {
    var page := UserAndFirstGroup(Some(user), query, cookie).page;
    var active := FindActive(page.groups, cookie);
    if active.Some? && page.groups[active.value].groupId != "" {
      assert page.groups[active.value].groupId == page.firstGroupId.value;
    } else if page.groups != [] {
      assert page.groups[0].groupId == page.firstGroupId.value;
    }
  }

  /** A cookie naming one of the user's groups selects that group. */
  lemma CookieSelectsGroup(user: string, query: MembershipQuery, cookie: string)
    requires cookie != ""
    requires exists i :: 0 <= i < |LoadedGroups(query)| && LoadedGroups(query)[i].groupId == cookie
    ensures UserAndFirstGroup(Some(user), query, Some(cookie)).page.firstGroupId == Some(cookie)
  {
  }

  /** A missing cookie, or one naming no group of the user, falls back to the first membership. */
  lemma StaleCookieFallsBack(user: string, query: MembershipQuery, cookie: Option<string>)
    requires LoadedGroups(query) != []
    requires cookie.None? || forall i :: 0 <= i < |LoadedGroups(query)| ==> LoadedGroups(query)[i].groupId != cookie.value
    ensures UserAndFirstGroup(Some(user), query, cookie).page.firstGroupId == Some(LoadedGroups(query)[0].groupId)
  {
  }

  /** A failed membership query leaves the page with no groups, no id and no name. */
  lemma FailedQueryHasNoGroup(user: string, cookie: Option<string>)
    ensures UserAndFirstGroup(Some(user), None, cookie) == Ready(PageGroup([], None, None))
  {
  }

  /**
   * The name is not tied to the id: when the cookie's group has no name, the id is
   * that group's but the name is the first membership's, another group's.
   */
  lemma NameCanComeFromAnotherGroup(user: string, a: Membership, b: Membership)
    requires b.groupId != "" && a.groupId != b.groupId && !HasName(b.name)
    ensures var page := UserAndFirstGroup(Some(user), Some([a, b]), Some(b.groupId)).page;
            page.firstGroupId == Some(b.groupId) && page.groupName == a.name
  {
    assert FindActive([a, b], Some(b.groupId)) == Some(1) by {
      assert [a, b][1..] == [b];
    }
  }
}
