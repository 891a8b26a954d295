/**
 * The two permission classes of the users app (users/permissions.py).
 *
 * `IsModerator` lets a request through when its user belongs to a group named
 * exactly "moderators"; `IsOwner` lets a request act on an object when the
 * object's owner is the requesting user. Both are pure decisions: nothing in
 * the request, the view or the object is changed.
 */
module Permissions {

  /** The group name the moderator check looks for. */
  const ModeratorGroup: string := "moderators"

  /** An auth group row: its primary key and its name. */
  datatype Group = Group(id: int, name: string)

  /** A user account: its primary key and the groups it belongs to. */
  datatype User = User(id: int, groups: seq<Group>)

  /** `request.user`: Django's anonymous user or an authenticated account. */
  datatype RequestUser = AnonymousUser | Authenticated(account: User)

  /** The part of a request a permission class looks at. */
  datatype Request = Request(user: RequestUser)

  /** The view being dispatched, known only by its action. */
  datatype View = View(action: string)

  /** An object with an owner, identified by the owner's primary key. */
  datatype OwnedObject = OwnedObject(ownerId: int)

  /** `user.groups`: the anonymous user's manager is always empty. */
  function GroupsOf(user: RequestUser): seq<Group> {
    match user
    case AnonymousUser => []
    case Authenticated(account) => account.groups
  }

  /** The names of the groups a user belongs to. */
  ghost function GroupNames(user: RequestUser): set<string> {
    set g | g in GroupsOf(user) :: g.name
  }

  /** `groups.filter(name=name)`: the rows with that name. */
  function FilterByName(groups: seq<Group>, name: string): (r: seq<Group>)
    ensures |r| <= |groups|
    ensures forall g :: g in r <==> g in groups && g.name == name
  {
    if groups == [] then []
    else if groups[0].name == name then [groups[0]] + FilterByName(groups[1..], name)
    else FilterByName(groups[1..], name)
  }

  /** `IsModerator.has_permission`: `user.groups.filter(name="moderators").exists()`. */
  function IsModeratorHasPermission(request: Request, view: View): (allowed: bool)
    ensures allowed <==> ModeratorGroup in GroupNames(request.user)
  {
    var rows := FilterByName(GroupsOf(request.user), ModeratorGroup);
    assert |rows| > 0 <==> ModeratorGroup in GroupNames(request.user) by {
      if |rows| > 0 {
        assert rows[0] in rows;
      }
      if ModeratorGroup in GroupNames(request.user) {
        var g :| g in GroupsOf(request.user) && g.name == ModeratorGroup;
        assert g in rows;
      }
    }
    |rows| > 0
  }

  /**
   * `IsOwner.has_object_permission`: `obj.owner == request.user`. Django
   * compares model instances by primary key, and the anonymous user equals no
   * account.
   */
  function IsOwnerHasObjectPermission(request: Request, view: View, obj: OwnedObject): (allowed: bool)
    ensures allowed ==> request.user.Authenticated?
  {
    match request.user
    case AnonymousUser => false
    case Authenticated(account) => account.id == obj.ownerId
  }

  /** The anonymous user is never a moderator. */
  lemma AnonymousNotModerator(view: View)
    ensures !IsModeratorHasPermission(Request(AnonymousUser), view)
  {
  }

  /** The moderator decision depends on the user's groups only, not on the view or the user's id. */
  lemma ModeratorDependsOnlyOnGroups(r1: Request, v1: View, r2: Request, v2: View)
    requires GroupsOf(r1.user) == GroupsOf(r2.user)
    ensures IsModeratorHasPermission(r1, v1) == IsModeratorHasPermission(r2, v2)
  {
  }

  /** `user.groups.add(group)`: the group joins the user's groups unless it is already there. */
  function AddGroup(user: User, group: Group): (u: User)
    ensures u.id == user.id
    ensures forall g :: g in u.groups <==> g in user.groups || g == group
  {
    if group in user.groups then user else user.(groups := user.groups + [group])
  }

  /** `user.groups.remove(group)`: every row equal to the group leaves the user's groups. */
  function RemoveGroup(user: User, group: Group): (u: User)
    ensures u.id == user.id
    ensures forall g :: g in u.groups <==> g in user.groups && g != group
  {
    user.(groups := Without(user.groups, group))
  }

  function Without(groups: seq<Group>, group: Group): (r: seq<Group>)
    ensures forall g :: g in r <==> g in groups && g != group
  {
    if groups == [] then []
    else if groups[0] == group then Without(groups[1..], group)
    else [groups[0]] + Without(groups[1..], group)
  }

  /** Joining a group never takes the moderator permission away. */
  lemma AddGroupKeepsModerator(user: User, group: Group, view: View)
    requires IsModeratorHasPermission(Request(Authenticated(user)), view)
    ensures IsModeratorHasPermission(Request(Authenticated(AddGroup(user, group))), view)
  {
  }

  /** Joining a group named "moderators" grants the moderator permission. */
  lemma AddModeratorGroupGrants(user: User, group: Group, view: View)
    requires group.name == ModeratorGroup
    ensures IsModeratorHasPermission(Request(Authenticated(AddGroup(user, group))), view)
  {
  }

  /** Joining or leaving a group with any other name leaves the moderator permission as it was. */
  lemma OtherGroupLeavesModeratorUnchanged(user: User, group: Group, view: View)
    requires group.name != ModeratorGroup
    ensures IsModeratorHasPermission(Request(Authenticated(AddGroup(user, group))), view)
         == IsModeratorHasPermission(Request(Authenticated(user)), view)
    ensures IsModeratorHasPermission(Request(Authenticated(RemoveGroup(user, group))), view)
         == IsModeratorHasPermission(Request(Authenticated(user)), view)
  {
  }

  /** The owner check holds exactly for the authenticated user whose id is the object's owner id. */
  lemma IsOwnerExactly(request: Request, view: View, obj: OwnedObject)
    ensures IsOwnerHasObjectPermission(request, view, obj)
        <==> request.user.Authenticated? && request.user.account.id == obj.ownerId
  {
  }

  /** At most one account passes the owner check on a given object. */
  lemma OwnerIsUnique(r1: Request, r2: Request, v1: View, v2: View, obj: OwnedObject)
    requires IsOwnerHasObjectPermission(r1, v1, obj) && IsOwnerHasObjectPermission(r2, v2, obj)
    ensures r1.user.account.id == r2.user.account.id
  {
  }

  /** The owner check ignores groups: a moderator who is not the owner fails it. */
  lemma ModeratorNotOwnerDenied(request: Request, view: View, obj: OwnedObject)
    requires IsModeratorHasPermission(request, view)
    requires request.user.Authenticated? && request.user.account.id != obj.ownerId
    ensures !IsOwnerHasObjectPermission(request, view, obj)
  {
  }

  /** Changing an account's groups never changes the owner decision. */
  lemma OwnerIgnoresGroups(user: User, groups: seq<Group>, view: View, obj: OwnedObject)
    ensures IsOwnerHasObjectPermission(Request(Authenticated(user.(groups := groups))), view, obj)
         == IsOwnerHasObjectPermission(Request(Authenticated(user)), view, obj)
  {
  }
}
