/** What each edit of roles and users is allowed to do, to whom, and exactly what it leaves behind. */
module AccessDecisions {
  import opened Common
  import opened DomainPolicy
  import opened AccessControl

  /** Every key given, blanks aside, is in the catalogue, is not the wildcard, and the actor holds it. */
  ghost predicate Grantable(catalogue: set<Perm>, keys: seq<string>, actor: set<Perm>) {
    forall k | k in keys && Trim(k) != "" ::
      Trim(k) in catalogue && Trim(k) != "*" && ("*" in actor || Trim(k) in actor)
  }

  /** The permissions are exactly the trimmed keys given, blanks left out. */
  ghost predicate PermsAre(perms: set<Perm>, keys: seq<string>) {
    forall p :: p in perms <==> p != "" && exists k :: k in keys && Trim(k) == p
  }

  lemma PermissionsResolveExactly(catalogue: set<Perm>, keys: seq<string>, actor: set<Perm>)
    ensures var r := ResolvePermissions(catalogue, keys, actor);
            && (r.Ok? <==> Grantable(catalogue, keys, actor)) && (r.Ok? ==> PermsAre(r.value, keys))
            && (r.Err? ==> r.error == BadRequest)
  {
    hide Trim;
  }

  ghost predicate NameFree(db: Db, name: string, self: Option<RoleId>) {
    name != "" && forall r | r in db.roles && self != Some(r) :: db.roles[r].name != name
  }

  /** A new role has the trimmed name and exactly the permissions given, all of them within the actor's own. */
  lemma CreatedRoleExactly(db: Db, catalogue: set<Perm>, name: string, keys: seq<string>, actor: set<Perm>)
    ensures var r := CreateRole(db, catalogue, name, keys, actor);
            && (r.Ok? <==> NameFree(db, Trim(name), None) && Grantable(catalogue, keys, actor))
            && (r.Ok? ==>
                  && r.value == db.(roles := r.value.roles, nextRole := db.nextRole + 1)
                  && db.nextRole in r.value.roles
                  && r.value.roles == db.roles[db.nextRole := r.value.roles[db.nextRole]]
                  && var role := r.value.roles[db.nextRole];
                     role.name == Trim(name) && !role.system && PermsAre(role.perms, keys))
  {
    hide Trim, ResolvePermissions, Grantable, PermsAre;
    PermissionsResolveExactly(catalogue, keys, actor);
  }

  /** What an edit of a role leaves of a user: its holders must mint their tokens again, all others are untouched. */
  ghost predicate HoldersBumped(db: Db, after: Db, id: RoleId) {
    && after.users.Keys == db.users.Keys && after.nextUser == db.nextUser
    && forall u | u in db.users ::
         var was, now := db.users[u], after.users[u];
         if id in was.roles then now == was.(tokenVersion := was.tokenVersion + 1, refreshId := None) else now == was
  }

  /**
   An edit of a role that is not a system one: its name and permissions become exactly those given, or stay where
   none are given, and each holder moves a token version on.
   */
  lemma EditedRoleExactly(db: Db, catalogue: set<Perm>, id: RoleId, name: Option<string>, keys: Option<seq<string>>,
                          actor: set<Perm>)
    ensures var r := UpdateRole(db, catalogue, id, name, keys, actor);
            && (r.Ok? <==>
                && id in db.roles && !db.roles[id].system
                && (name.Some? ==> NameFree(db, Trim(name.value), Some(id)))
                && (keys.Some? ==> Grantable(catalogue, keys.value, actor)))
            && (r.Ok? ==>
                  && id in r.value.roles && r.value.roles == db.roles[id := r.value.roles[id]]
                  && r.value.nextRole == db.nextRole && HoldersBumped(db, r.value, id)
                  && var was, role := db.roles[id], r.value.roles[id];
                     && !role.system && role.name == (if name.Some? then Trim(name.value) else was.name)
                     && (if keys.Some? then PermsAre(role.perms, keys.value) else role.perms == was.perms))
  {
    hide Trim, ResolvePermissions, Grantable, PermsAre;
    if keys.Some? {
      PermissionsResolveExactly(catalogue, keys.value, actor);
    }
  }

  /** A role goes exactly when it is no system role and nobody holds it. */
  lemma DroppedRoleExactly(db: Db, id: RoleId)
    ensures var r := DeleteRole(db, id);
            && (r.Ok? <==>
                id in db.roles && !db.roles[id].system && forall u | u in db.users :: id !in db.users[u].roles)
            && (r.Ok? ==> r.value == db.(roles := r.value.roles) && r.value.roles == db.roles - {id})
  {
  }

  /** The actor holds the wildcard, or everything each of the roles grants, none of which is the wildcard. */
  ghost predicate RolesGrantable(db: Db, ids: set<RoleId>, actor: set<Perm>) {
    "*" in actor || forall id, p | id in ids && id in db.roles && p in db.roles[id].perms :: p != "*" && p in actor
  }

  lemma RolesGrantableExactly(db: Db, ids: set<RoleId>, actor: set<Perm>)
    ensures CanGrantRoles(db, ids, actor) <==> RolesGrantable(db, ids, actor)
  {
  }

  /** A new user is active and holds exactly the roles given, all within the actor's authority. */
  lemma CreatedUserExactly(db: Db, email: string, roleIds: set<RoleId>, actor: set<Perm>)
    ensures var r, clean := CreateUser(db, email, roleIds, actor), Trim(Lower(email));
            && (r.Ok? <==>
                && (forall u | u in db.users :: db.users[u].email != clean)
                && (forall id | id in roleIds :: id in db.roles) && RolesGrantable(db, roleIds, actor))
            && (r.Ok? ==> r.value == db.(users := db.users[db.nextUser := User(clean, true, 0, None, roleIds)],
                                         nextUser := db.nextUser + 1))
  {
    hide Trim, Lower, CanGrantRoles, RolesGrantable;
    RolesGrantableExactly(db, roleIds, actor);
  }

  /** Active, and holding a role with the wildcard or the permission to manage users. */
  ghost predicate ManagesUsers(db: Db, u: UserId) {
    && u in db.users && db.users[u].active
    && exists r | r in db.users[u].roles && r in db.roles ::
         "*" in db.roles[r].perms || "user.manage" in db.roles[r].perms
  }

  lemma ManagerExactly(db: Db, u: UserId)
    ensures IsManager(db, u) <==> ManagesUsers(db, u)
  {
  }

  lemma LastManagerExactly(db: Db, u: UserId)
    ensures IsLastManager(db, u) <==> ManagesUsers(db, u) && forall v | ManagesUsers(db, v) :: v == u
  {
    hide IsManager, ManagesUsers;
    forall v ensures IsManager(db, v) <==> ManagesUsers(db, v) {
      ManagerExactly(db, v);
    }
    assert forall v | ManagesUsers(db, v) :: v in db.users by {
      ManagersAreUsers(db);
    }
  }

  lemma ManagersAreUsers(db: Db)
    ensures forall v | ManagesUsers(db, v) :: v in db.users
  {
  }

  /** The patch sets what it names and leaves the rest, the token version and refresh session aside. */
  predicate FollowsPatch(was: User, patch: UserPatch, now: User) {
    && now.email == was.email
    && now.active == (if patch.active.Some? then patch.active.value else was.active)
    && now.roles == (if patch.roleIds.Some? then patch.roleIds.value else was.roles)
  }

  /**
   An edit of a user: refused if it would take the last manager of users away, hand out more than the actor holds,
   or change one's own roles without the wildcard; it changes this user alone, and moves it a token version on
   exactly when its roles or password are set or its activity changes.
   */
  lemma EditedUserExactly(db: Db, id: UserId, patch: UserPatch, actor: set<Perm>, self: UserId)
    ensures var r := UpdateUser(db, id, patch, actor, self);
            && (r.Ok? <==>
                && id in db.users
                && var after := db.(users := db.users[id := Patched(db.users[id], patch)]);
                   && (patch.roleIds.Some? ==>
                         && (forall role | role in patch.roleIds.value :: role in db.roles)
                         && RolesGrantable(db, patch.roleIds.value, actor) && (self == id ==> "*" in actor))
                   && (ManagesUsers(db, id) && !ManagesUsers(after, id) ==>
                         exists other :: other != id && ManagesUsers(db, other)))
            && (r.Ok? ==>
                  && id in r.value.users && r.value == db.(users := db.users[id := r.value.users[id]])
                  && var was, now := db.users[id], r.value.users[id];
                     && FollowsPatch(was, patch, now)
                     && if patch.password || patch.roleIds.Some? || now.active != was.active
                        then now.tokenVersion == was.tokenVersion + 1 && now.refreshId == None
                        else now.tokenVersion == was.tokenVersion && now.refreshId == was.refreshId)
  {
    hide CanGrantRoles, RolesGrantable, IsLastManager, IsManager, ManagesUsers;
    if patch.roleIds.Some? {
      RolesGrantableExactly(db, patch.roleIds.value, actor);
    }
    if id in db.users {
      LastManagerExactly(db, id);
      PatchedManager(db, id, Patched(db.users[id], patch));
    }
  }

  lemma PatchedManager(db: Db, id: UserId, patched: User)
    requires id in db.users
    ensures ManagesUsers(db.(users := db.users[id := patched]), id)
            <==> patched.active && GrantsUserManagement(db.roles, patched.roles)
  {
    ManagerExactly(db.(users := db.users[id := patched]), id);
  }

  /** A user is removed exactly unless it is the last manager of users. */
  lemma RemovedUserExactly(db: Db, id: UserId)
    ensures var r := DeleteUser(db, id);
            && (r.Ok? <==>
                id in db.users && (ManagesUsers(db, id) ==> exists other :: other != id && ManagesUsers(db, other)))
            && (r.Ok? ==> r.value == db.(users := r.value.users) && r.value.users == db.users - {id})
  {
    hide IsLastManager, ManagesUsers;
    LastManagerExactly(db, id);
  }

  /** Roles are edited only with the permission to manage roles, users only with that to manage users. */
  lemma EditsNeedPermission(db: Db, catalogue: set<Perm>, bearer: Access, edit: Edit)
    ensures var needed := if edit.NewRole? || edit.EditRole? || edit.DropRole? then "role.manage" else "user.manage";
            Apply(db, catalogue, bearer, edit) == Err(Forbidden)
            <==> "*" !in bearer.perms && needed !in bearer.perms
  {
    hide Trim, Lower, CanGrantRoles, ResolvePermissions, IsLastManager, InvalidateHolders, NameTaken;
    if edit.NewRole? {
      PermissionsResolveExactly(catalogue, edit.keys, bearer.perms);
    } else if edit.EditRole? && edit.newKeys.Some? {
      PermissionsResolveExactly(catalogue, edit.newKeys.value, bearer.perms);
    }
  }

  // ---- What each request does ----------------------------------------------

  /** A login of an active user, and no other, leaves it with a working pair of tokens; nothing else changes. */
  lemma LoginOpensSessionExactly(s: State, catalogue: set<Perm>, u: UserId)
    ensures var after := Next(s, catalogue, Login(u));
            && (u in s.db.users && s.db.users[u].active ==>
                  && (exists t | t in after.access :: t.sub == u && Accepts(after, t))
                  && (exists t | t in after.refresh :: t.sub == u && Redeemable(after, t))
                  && after.db.users == s.db.users[u := s.db.users[u].(refreshId := Some(s.nextJti))])
            && (u !in s.db.users || !s.db.users[u].active ==> after == s)
  {
    if u in s.db.users && s.db.users[u].active {
      var user, after := s.db.users[u], IssueTokens(s, u);
      assert Accepts(after, Access(u, Effective(Held(s.db, u)), user.tokenVersion));
      assert Redeemable(after, Refresh(u, user.tokenVersion, s.nextJti));
    }
    hide Held, Effective;
  }

  /** A logout with a working token ends every session of its user; one with any other token changes nothing. */
  lemma LogoutEndsSessionsExactly(s: State, catalogue: set<Perm>, bearer: Access)
    requires Valid(s)
    ensures var after := Next(s, catalogue, Logout(bearer));
            && (!Accepts(s, bearer) ==> after == s)
            && (Accepts(s, bearer) ==>
                  && (forall t | t in after.access && t.sub == bearer.sub :: !Accepts(after, t))
                  && (forall t | t in after.refresh && t.sub == bearer.sub :: !Current(after, t))
                  && (forall t: Access | t.sub != bearer.sub :: Accepts(after, t) <==> Accepts(s, t)))
  {
    hide DbOk, Held, Effective;
    forall t | t in s.access && t.sub == bearer.sub ensures t.sub in s.db.users ==>
        t.tv <= s.db.users[t.sub].tokenVersion {
      assert AccessOk(s.db, t);
    }
    forall t | t in s.refresh && t.sub == bearer.sub ensures t.sub in s.db.users ==>
        t.tv <= s.db.users[t.sub].tokenVersion {
      assert RefreshOk(s.db, t);
    }
  }

  /** An edit takes effect exactly with a working token and where its rules allow it; no token is issued by it. */
  lemma EditTakesEffectExactly(s: State, catalogue: set<Perm>, bearer: Access, edit: Edit)
    ensures var after, r := Next(s, catalogue, Admin(bearer, edit)), Apply(s.db, catalogue, bearer, edit);
            after == if Accepts(s, bearer) && r.Ok? then s.(db := r.value) else s
  {
    hide Apply;
  }
}
