/**
 Admin sessions and role management as one state machine over the tokens ever issued: token versions,
 refresh rotation with reuse detection, the privilege ceiling and the last-manager guard.
 Signing is left abstract: a token verifies when it was issued.
 */
module AccessControl {
  import opened Common
  import opened DomainPolicy

  type Perm = string
  type UserId = nat
  type RoleId = nat

  const SUPER: Perm := "*"
  const MANAGE_USERS: Perm := "user.manage"
  const MANAGE_ROLES: Perm := "role.manage"

  datatype Role = Role(name: string, system: bool, perms: set<Perm>)
  datatype User = User(email: string, active: bool, tokenVersion: nat, refreshId: Option<nat>, roles: set<RoleId>)

  /** Ids are random in the service; here they come from counters, so they never repeat. */
  datatype Db = Db(roles: map<RoleId, Role>, users: map<UserId, User>, nextRole: RoleId, nextUser: UserId)

  datatype Access = Access(sub: UserId, perms: set<Perm>, tv: nat)
  datatype Refresh = Refresh(sub: UserId, tv: nat, jti: nat)

  /** The tables and every token issued so far. */
  datatype State = State(db: Db, access: set<Access>, refresh: set<Refresh>, nextJti: nat)

  datatype Refusal = Unauthorized | Forbidden | NotFound | Conflict | BadRequest

  datatype UserPatch = UserPatch(active: Option<bool>, roleIds: Option<set<RoleId>>, password: bool)

  // ---- Permissions ---------------------------------------------------------

  function Keys(roles: map<RoleId, Role>, ids: set<RoleId>): set<Perm> {
    set id, p | id in ids && id in roles && p in roles[id].perms :: p
  }

  function Held(db: Db, u: UserId): set<Perm> {
    if u in db.users then Keys(db.roles, db.users[u].roles) else {}
  }

  /** The wildcard collapses the list to itself. */
  function Effective(keys: set<Perm>): set<Perm> {
    if SUPER in keys then {SUPER} else keys
  }

  predicate GrantsUserManagement(roles: map<RoleId, Role>, ids: set<RoleId>) {
    SUPER in Keys(roles, ids) || MANAGE_USERS in Keys(roles, ids)
  }

  predicate IsManager(db: Db, u: UserId) {
    u in db.users && db.users[u].active && GrantsUserManagement(db.roles, db.users[u].roles)
  }

  predicate IsLastManager(db: Db, u: UserId) {
    IsManager(db, u) && forall v | v in db.users :: IsManager(db, v) ==> v == u
  }

  function Trim(s: string): string {
    TrimRight(TrimLeft(s))
  }

  /** Trimmed, non-empty and known keys within the actor's own authority; never the wildcard. */
  function ResolvePermissions(catalogue: set<Perm>, keys: seq<string>, actor: set<Perm>): Result<set<Perm>, Refusal> {
    var wanted := set k | k in keys && Trim(k) != "" :: Trim(k);
    if SUPER in wanted || !(wanted <= catalogue) || (SUPER !in actor && !(wanted <= actor)) then Err(BadRequest)
    else Ok(wanted)
  }

  predicate CanGrantRoles(db: Db, ids: set<RoleId>, actor: set<Perm>) {
    SUPER in actor || (SUPER !in Keys(db.roles, ids) && Keys(db.roles, ids) <= actor)
  }

  predicate NameTaken(db: Db, name: string, self: Option<RoleId>) {
    exists r | r in db.roles :: db.roles[r].name == name && self != Some(r)
  }

  // ---- Token versions ------------------------------------------------------

  function Bumped(u: User): User {
    u.(tokenVersion := u.tokenVersion + 1, refreshId := None)
  }

  function BumpUser(db: Db, u: UserId): Db {
    if u in db.users then db.(users := db.users[u := Bumped(db.users[u])]) else db
  }

  /** Every holder of the role must mint its tokens again. */
  function InvalidateHolders(db: Db, r: RoleId): Db {
    db.(users := map u | u in db.users :: if r in db.users[u].roles then Bumped(db.users[u]) else db.users[u])
  }

  function IssueTokens(s: State, u: UserId): State
    requires u in s.db.users
  {
    var user := s.db.users[u];
    State(s.db.(users := s.db.users[u := user.(refreshId := Some(s.nextJti))]),
          s.access + {Access(u, Effective(Held(s.db, u)), user.tokenVersion)},
          s.refresh + {Refresh(u, user.tokenVersion, s.nextJti)},
          s.nextJti + 1)
  }

  predicate Accepts(s: State, t: Access) {
    t in s.access && t.sub in s.db.users && s.db.users[t.sub].active && s.db.users[t.sub].tokenVersion == t.tv
  }

  /** The user the token names is active and at the token's version, whatever its id. */
  predicate Current(s: State, t: Refresh) {
    t in s.refresh && t.sub in s.db.users && s.db.users[t.sub].active && s.db.users[t.sub].tokenVersion == t.tv
  }

  predicate Redeemable(s: State, t: Refresh) {
    Current(s, t) && s.db.users[t.sub].refreshId == Some(t.jti)
  }

  // ---- Roles and users -----------------------------------------------------

  function CreateRole(db: Db, catalogue: set<Perm>, name: string, keys: seq<string>, actor: set<Perm>)
    : Result<Db, Refusal>
  {
    if Trim(name) == "" then Err(BadRequest)
    else if NameTaken(db, Trim(name), None) then Err(Conflict)
    else
      match ResolvePermissions(catalogue, keys, actor)
      case Err(e) => Err(e)
      case Ok(perms) => Ok(db.(roles := db.roles[db.nextRole := Role(Trim(name), false, perms)],
                               nextRole := db.nextRole + 1))
  }

  function Renamed(db: Db, id: RoleId, name: Option<string>): Result<Role, Refusal>
    requires id in db.roles
  {
    if name.None? then Ok(db.roles[id])
    else if Trim(name.value) == "" then Err(BadRequest)
    else if NameTaken(db, Trim(name.value), Some(id)) then Err(Conflict)
    else Ok(db.roles[id].(name := Trim(name.value)))
  }

  function UpdateRole(db: Db, catalogue: set<Perm>, id: RoleId, name: Option<string>, keys: Option<seq<string>>,
                      actor: set<Perm>): Result<Db, Refusal>
  {
    if id !in db.roles then Err(NotFound)
    else if db.roles[id].system then Err(BadRequest)
    else
      match Renamed(db, id, name)
      case Err(e) => Err(e)
      case Ok(role) =>
        match if keys.None? then Ok(role.perms) else ResolvePermissions(catalogue, keys.value, actor)
        case Err(e) => Err(e)
        case Ok(perms) => Ok(InvalidateHolders(db.(roles := db.roles[id := role.(perms := perms)]), id))
  }

  function DeleteRole(db: Db, id: RoleId): Result<Db, Refusal> {
    if id !in db.roles then Err(NotFound)
    else if db.roles[id].system then Err(BadRequest)
    else if exists u | u in db.users :: id in db.users[u].roles then Err(Conflict)
    else Ok(db.(roles := db.roles - {id}))
  }

  function CreateUser(db: Db, email: string, roleIds: set<RoleId>, actor: set<Perm>): Result<Db, Refusal> {
    var clean := Trim(Lower(email));
    if exists u | u in db.users :: db.users[u].email == clean then Err(Conflict)
    else if !(roleIds <= db.roles.Keys) then Err(BadRequest)
    else if !CanGrantRoles(db, roleIds, actor) then Err(BadRequest)
    else Ok(db.(users := db.users[db.nextUser := User(clean, true, 0, None, roleIds)], nextUser := db.nextUser + 1))
  }

  function Patched(user: User, patch: UserPatch): User {
    user.(active := if patch.active.Some? then patch.active.value else user.active,
          roles := if patch.roleIds.Some? then patch.roleIds.value else user.roles)
  }

  predicate MustInvalidate(user: User, patch: UserPatch) {
    patch.password || patch.roleIds.Some? || Patched(user, patch).active != user.active
  }

  function UpdateUser(db: Db, id: UserId, patch: UserPatch, actor: set<Perm>, self: UserId): Result<Db, Refusal> {
    if id !in db.users then Err(NotFound)
    else if patch.roleIds.Some? && !(patch.roleIds.value <= db.roles.Keys) then Err(BadRequest)
    else
      var after := Patched(db.users[id], patch);
      if !(after.active && GrantsUserManagement(db.roles, after.roles)) && IsLastManager(db, id) then Err(BadRequest)
      else if patch.roleIds.Some? && (!CanGrantRoles(db, after.roles, actor) || (self == id && SUPER !in actor))
        then Err(BadRequest)
      else Ok(db.(users := db.users[id := if MustInvalidate(db.users[id], patch) then Bumped(after) else after]))
  }

  function DeleteUser(db: Db, id: UserId): Result<Db, Refusal> {
    if id !in db.users then Err(NotFound)
    else if IsLastManager(db, id) then Err(BadRequest)
    else Ok(db.(users := db.users - {id}))
  }

  // ---- The state machine ---------------------------------------------------

  datatype Edit =
    | NewRole(name: string, keys: seq<string>)
    | EditRole(role: RoleId, newName: Option<string>, newKeys: Option<seq<string>>)
    | DropRole(role: RoleId)
    | NewUser(email: string, roleIds: set<RoleId>)
    | EditUser(user: UserId, patch: UserPatch)
    | DropUser(user: UserId)

  datatype Step =
    | Login(user: UserId)
    | Exchange(token: Refresh)
    | Logout(bearer: Access)
    | Admin(bearer: Access, edit: Edit)

  function Needs(edit: Edit): Perm {
    if edit.NewRole? || edit.EditRole? || edit.DropRole? then MANAGE_ROLES else MANAGE_USERS
  }

  function Apply(db: Db, catalogue: set<Perm>, bearer: Access, edit: Edit): Result<Db, Refusal> {
    if SUPER !in bearer.perms && Needs(edit) !in bearer.perms then Err(Forbidden)
    else
      match edit
      case NewRole(name, keys) => CreateRole(db, catalogue, name, keys, bearer.perms)
      case EditRole(role, newName, newKeys) => UpdateRole(db, catalogue, role, newName, newKeys, bearer.perms)
      case DropRole(role) => DeleteRole(db, role)
      case NewUser(email, roleIds) => CreateUser(db, email, roleIds, bearer.perms)
      case EditUser(user, patch) => UpdateUser(db, user, patch, bearer.perms, bearer.sub)
      case DropUser(user) => DeleteUser(db, user)
  }

  function Exchanged(s: State, t: Refresh): State {
    if !Current(s, t) then s
    else if !Redeemable(s, t) then s.(db := BumpUser(s.db, t.sub))
    else IssueTokens(s, t.sub)
  }

  /**
   A login's password is checked outside the model; a request without an accepted token does nothing,
   and neither does one whose token has expired.
   */
  function Next(s: State, catalogue: set<Perm>, step: Step): State {
    match step
    case Login(u) => if u in s.db.users && s.db.users[u].active then IssueTokens(s, u) else s
    case Exchange(t) => Exchanged(s, t)
    case Logout(bearer) => if Accepts(s, bearer) then s.(db := BumpUser(s.db, bearer.sub)) else s
    case Admin(bearer, edit) =>
      if !Accepts(s, bearer) then s
      else
        match Apply(s.db, catalogue, bearer, edit)
        case Ok(db) => s.(db := db)
        case Err(_) => s
  }

  function Run(s: State, catalogue: set<Perm>, steps: seq<Step>): State
    decreases |steps|
  {
    if steps == [] then s else Run(Next(s, catalogue, steps[0]), catalogue, steps[1..])
  }

  // ---- What every run keeps ------------------------------------------------

  ghost predicate DbOk(db: Db) {
    && (forall u | u in db.users :: u < db.nextUser && db.users[u].roles <= db.roles.Keys)
    && (forall r | r in db.roles :: r < db.nextRole && (SUPER in db.roles[r].perms ==> db.roles[r].system))
    && (forall u, v | u in db.users && v in db.users && u != v :: db.users[u].email != db.users[v].email)
    && (forall q, r | q in db.roles && r in db.roles && q != r :: db.roles[q].name != db.roles[r].name)
  }

  /** A token at its user's version belongs to an active user and carries what that user may do now. */
  ghost predicate AccessOk(db: Db, t: Access) {
    && t.sub < db.nextUser
    && (t.sub in db.users ==>
          t.tv <= db.users[t.sub].tokenVersion
          && (t.tv == db.users[t.sub].tokenVersion ==> db.users[t.sub].active && t.perms == Effective(Held(db, t.sub))))
  }

  ghost predicate RefreshOk(db: Db, t: Refresh) {
    && t.sub < db.nextUser
    && (t.sub in db.users ==>
          var u := db.users[t.sub];
          && t.tv <= u.tokenVersion
          && (t.tv == u.tokenVersion ==> u.active && u.refreshId.Some?)
          && (u.refreshId.Some? ==> t.jti <= u.refreshId.value))
  }

  ghost predicate Valid(s: State) {
    && DbOk(s.db)
    && (forall t | t in s.access :: AccessOk(s.db, t))
    && (forall t | t in s.refresh :: RefreshOk(s.db, t) && t.jti < s.nextJti)
    && (forall u | u in s.db.users && s.db.users[u].refreshId.Some? :: s.db.users[u].refreshId.value < s.nextJti)
  }

  /**
   What one edit does to one user: gone, untouched with the same permissions, or a version further and
   without a refresh session. New users have fresh ids and no session.
   */
  ghost predicate EvolvesUser(db: Db, after: Db, u: UserId) {
    if u in db.users then
      u in after.users ==>
        var (a, b) := (db.users[u], after.users[u]);
        || (b == a && Held(after, u) == Held(db, u))
        || (b.tokenVersion == a.tokenVersion + 1 && b.refreshId == None)
    else
      u in after.users ==> u >= db.nextUser && after.users[u].refreshId == None
  }

  ghost predicate Evolves(db: Db, after: Db) {
    db.nextUser <= after.nextUser && forall u :: EvolvesUser(db, after, u)
  }

  /** The same users with the same permissions. */
  ghost predicate SameHoldings(db: Db, after: Db) {
    after.users == db.users && forall u | u in db.users :: Held(after, u) == Held(db, u)
  }

  lemma SameKeys(a: map<RoleId, Role>, b: map<RoleId, Role>, ids: set<RoleId>)
    requires forall id | id in ids :: (id in a <==> id in b) && (id in a ==> a[id].perms == b[id].perms)
    ensures Keys(a, ids) == Keys(b, ids)
  {
  }

  lemma BumpEvolves(db: Db, u: UserId)
    requires DbOk(db)
    ensures DbOk(BumpUser(db, u)) && Evolves(db, BumpUser(db, u))
  {
  }

  lemma CreateRoleOk(db: Db, catalogue: set<Perm>, name: string, keys: seq<string>, actor: set<Perm>)
    requires DbOk(db)
    ensures var r := CreateRole(db, catalogue, name, keys, actor);
            r.Ok? ==> DbOk(r.value) && Evolves(db, r.value) && SameHoldings(db, r.value)
  {
    hide Trim;
    var r := CreateRole(db, catalogue, name, keys, actor);
    if r.Ok? {
      forall u | u in db.users ensures Held(r.value, u) == Held(db, u) {
        SameKeys(db.roles, r.value.roles, db.users[u].roles);
      }
    }
  }

  /** Rewriting one role reaches its holders only, and each of them a version later. */
  lemma RewriteEvolves(db: Db, id: RoleId, role: Role)
    requires DbOk(db) && id in db.roles && !NameTaken(db, role.name, Some(id)) && SUPER !in role.perms
    ensures var after := InvalidateHolders(db.(roles := db.roles[id := role]), id); DbOk(after) && Evolves(db, after)
  {
    var after := InvalidateHolders(db.(roles := db.roles[id := role]), id);
    forall u | u in db.users && id !in db.users[u].roles ensures Held(after, u) == Held(db, u) {
      SameKeys(db.roles, after.roles, db.users[u].roles);
    }
    hide Held;
  }

  lemma UpdateRoleOk(db: Db, catalogue: set<Perm>, id: RoleId, name: Option<string>, keys: Option<seq<string>>,
                     actor: set<Perm>)
    requires DbOk(db)
    ensures var r := UpdateRole(db, catalogue, id, name, keys, actor); r.Ok? ==> DbOk(r.value) && Evolves(db, r.value)
  {
    hide Trim, Evolves, InvalidateHolders;
    var r := UpdateRole(db, catalogue, id, name, keys, actor);
    if r.Ok? {
      var renamed := Renamed(db, id, name).value;
      var perms := if keys.None? then renamed.perms else ResolvePermissions(catalogue, keys.value, actor).value;
      RewriteEvolves(db, id, renamed.(perms := perms));
    }
  }

  lemma DeleteRoleOk(db: Db, id: RoleId)
    requires DbOk(db)
    ensures var r := DeleteRole(db, id); r.Ok? ==> DbOk(r.value) && Evolves(db, r.value) && SameHoldings(db, r.value)
  {
  }

  lemma CreateUserOk(db: Db, email: string, roleIds: set<RoleId>, actor: set<Perm>)
    requires DbOk(db)
    ensures var r := CreateUser(db, email, roleIds, actor); r.Ok? ==> DbOk(r.value) && Evolves(db, r.value)
  {
  }

  lemma UpdateUserOk(db: Db, id: UserId, patch: UserPatch, actor: set<Perm>, self: UserId)
    requires DbOk(db)
    ensures var r := UpdateUser(db, id, patch, actor, self); r.Ok? ==> DbOk(r.value) && Evolves(db, r.value)
  {
    hide CanGrantRoles, IsLastManager, GrantsUserManagement;
  }

  lemma DeleteUserOk(db: Db, id: UserId)
    requires DbOk(db)
    ensures var r := DeleteUser(db, id); r.Ok? ==> DbOk(r.value) && Evolves(db, r.value)
  {
  }

  lemma ApplyOk(db: Db, catalogue: set<Perm>, bearer: Access, edit: Edit)
    requires DbOk(db)
    ensures var r := Apply(db, catalogue, bearer, edit); r.Ok? ==> DbOk(r.value) && Evolves(db, r.value)
  {
    hide DbOk, Evolves, CreateRole, UpdateRole, DeleteRole, CreateUser, UpdateUser, DeleteUser;
    match edit
    case NewRole(name, keys) => CreateRoleOk(db, catalogue, name, keys, bearer.perms);
    case EditRole(role, newName, newKeys) => UpdateRoleOk(db, catalogue, role, newName, newKeys, bearer.perms);
    case DropRole(role) => DeleteRoleOk(db, role);
    case NewUser(email, roleIds) => CreateUserOk(db, email, roleIds, bearer.perms);
    case EditUser(user, patch) => UpdateUserOk(db, user, patch, bearer.perms, bearer.sub);
    case DropUser(user) => DeleteUserOk(db, user);
  }

  /** Tokens survive an edit of the tables as good or dead, never as wrong. */
  lemma EvolutionKeepsTokens(s: State, db: Db)
    requires Valid(s) && DbOk(db) && Evolves(s.db, db)
    ensures Valid(s.(db := db))
  {
    hide DbOk, Held, Effective;
    forall t | t in s.access ensures AccessOk(db, t) {
      assert AccessOk(s.db, t) && EvolvesUser(s.db, db, t.sub);
    }
    forall t | t in s.refresh ensures RefreshOk(db, t) {
      assert RefreshOk(s.db, t) && EvolvesUser(s.db, db, t.sub);
    }
    forall u | u in db.users && db.users[u].refreshId.Some? ensures db.users[u].refreshId.value < s.nextJti {
      assert EvolvesUser(s.db, db, u);
    }
  }

  lemma IssueKeepsHeld(s: State, u: UserId, v: UserId)
    requires u in s.db.users
    ensures Held(IssueTokens(s, u).db, v) == Held(s.db, v)
  {
  }

  lemma IssueKeepsValid(s: State, u: UserId)
    requires Valid(s) && u in s.db.users && s.db.users[u].active
    ensures Valid(IssueTokens(s, u))
  {
    hide Effective, Held;
    var after := IssueTokens(s, u);
    forall t | t in after.access ensures AccessOk(after.db, t) {
      IssueKeepsHeld(s, u, t.sub);
      assert t in s.access ==> AccessOk(s.db, t);
    }
    forall t | t in after.refresh ensures RefreshOk(after.db, t) && t.jti < after.nextJti {
      assert t in s.refresh ==> RefreshOk(s.db, t);
    }
  }

  lemma NextKeepsValid(s: State, catalogue: set<Perm>, step: Step)
    requires Valid(s)
    ensures Valid(Next(s, catalogue, step))
  {
    hide DbOk, Evolves, Apply, IssueTokens, BumpUser, AccessOk, RefreshOk;
    match step
    case Login(u) =>
      if u in s.db.users && s.db.users[u].active {
        IssueKeepsValid(s, u);
      }
    case Exchange(t) =>
      if Redeemable(s, t) {
        IssueKeepsValid(s, t.sub);
      } else if Current(s, t) {
        BumpEvolves(s.db, t.sub);
        EvolutionKeepsTokens(s, BumpUser(s.db, t.sub));
      }
    case Logout(bearer) =>
      BumpEvolves(s.db, bearer.sub);
      EvolutionKeepsTokens(s, BumpUser(s.db, bearer.sub));
    case Admin(bearer, edit) =>
      ApplyOk(s.db, catalogue, bearer, edit);
      var r := Apply(s.db, catalogue, bearer, edit);
      if r.Ok? {
        EvolutionKeepsTokens(s, r.value);
      }
  }

  /** The service starts with seeded roles and users and no token issued. */
  ghost predicate Seeded(s: State) {
    DbOk(s.db) && s.access == {} && s.refresh == {} && forall u | u in s.db.users :: s.db.users[u].refreshId == None
  }

  lemma {:induction false} RunKeepsValid(s: State, catalogue: set<Perm>, steps: seq<Step>)
    requires Valid(s)
    ensures Valid(Run(s, catalogue, steps))
    decreases |steps|
  {
    if steps != [] {
      hide Valid, Next;
      NextKeepsValid(s, catalogue, steps[0]);
      RunKeepsValid(Next(s, catalogue, steps[0]), catalogue, steps[1..]);
    }
  }

  // ---- Main results --------------------------------------------------------

  /** The permission comes with one of the user's roles. */
  ghost predicate Holds(db: Db, u: UserId, p: Perm) {
    u in db.users && exists r | r in db.users[u].roles && r in db.roles :: p in db.roles[r].perms
  }

  lemma HeldExactly(db: Db, u: UserId)
    ensures forall p :: p in Held(db, u) <==> Holds(db, u, p)
    ensures forall p :: p in Effective(Held(db, u)) <==> if Holds(db, u, "*") then p == "*" else Holds(db, u, p)
  {
  }

  /**
   An accepted access token was issued, its user is active, and it carries exactly what that user's roles grant at
   that moment, or just the wildcard where they grant that.
   */
  lemma AcceptedTokenIsCurrent(s: State, catalogue: set<Perm>, steps: seq<Step>, t: Access)
    requires Seeded(s)
    ensures var end := Run(s, catalogue, steps);
            Accepts(end, t) ==>
              && t in end.access && t.sub in end.db.users && end.db.users[t.sub].active
              && forall p :: p in t.perms <==> if Holds(end.db, t.sub, "*") then p == "*" else Holds(end.db, t.sub, p)
  {
    RunKeepsValid(s, catalogue, steps);
    HeldExactly(Run(s, catalogue, steps).db, t.sub);
    hide Holds, Held, Effective;
    var end := Run(s, catalogue, steps);
    assert Accepts(end, t) ==> AccessOk(end.db, t);
  }

  /** Of all the refresh tokens a user was ever given, at most one redeems, and it is the last one. */
  lemma OnlyLatestRefreshRedeems(s: State, catalogue: set<Perm>, steps: seq<Step>, t: Refresh, other: Refresh)
    requires Seeded(s)
    ensures var end := Run(s, catalogue, steps);
            Redeemable(end, t) ==> t in end.refresh && t.sub in end.db.users && end.db.users[t.sub].active
    ensures var end := Run(s, catalogue, steps);
            Redeemable(end, t) && other in end.refresh && other.sub == t.sub ==>
              other.jti <= t.jti && (Redeemable(end, other) ==> other == t)
  {
    RunKeepsValid(s, catalogue, steps);
    var end := Run(s, catalogue, steps);
    assert other in end.refresh ==> RefreshOk(end.db, other);
  }

  /** Replaying a rotated refresh token ends every session of its user at once. */
  lemma ReuseRevokesFamily(s: State, t: Refresh)
    requires Valid(s) && Current(s, t) && !Redeemable(s, t)
    ensures var end := Exchanged(s, t);
            && (forall a | a in end.access && a.sub == t.sub :: !Accepts(end, a))
            && (forall r | r in end.refresh && r.sub == t.sub :: !Current(end, r))
  {
  }

  /** A dead token never comes back: not by reactivation, new roles, logins or rotation. */
  lemma {:induction false} RevocationIsPermanent(s: State, catalogue: set<Perm>, steps: seq<Step>, t: Access)
    requires Valid(s) && t in s.access && !Accepts(s, t)
    ensures !Accepts(Run(s, catalogue, steps), t)
    decreases |steps|
  {
    if steps != [] {
      var next := Next(s, catalogue, steps[0]);
      NextKeepsValid(s, catalogue, steps[0]);
      NextKeepsDead(s, catalogue, steps[0], t);
      hide Valid, Next, Accepts;
      RevocationIsPermanent(next, catalogue, steps[1..], t);
    }
  }

  ghost predicate Dead(db: Db, t: Access) {
    t.sub < db.nextUser && (t.sub in db.users ==> t.tv < db.users[t.sub].tokenVersion)
  }

  lemma NextKeepsDead(s: State, catalogue: set<Perm>, step: Step, t: Access)
    requires Valid(s) && t in s.access && !Accepts(s, t)
    ensures t in Next(s, catalogue, step).access && !Accepts(Next(s, catalogue, step), t)
  {
    hide Apply, Held, Effective;
    assert AccessOk(s.db, t) && Dead(s.db, t);
    if step.Admin? {
      ApplyOk(s.db, catalogue, step.bearer, step.edit);
      var r := Apply(s.db, catalogue, step.bearer, step.edit);
      assert r.Ok? ==> EvolvesUser(s.db, r.value, t.sub);
    }
  }

  /** The same system roles, unchanged. */
  ghost predicate SystemFrozen(db: Db, after: Db) {
    && (forall r | r in db.roles && db.roles[r].system :: r in after.roles && after.roles[r] == db.roles[r])
    && (forall r | r in after.roles && after.roles[r].system :: r in db.roles && db.roles[r].system)
  }

  lemma UpdateRoleKeepsSystemRoles(db: Db, catalogue: set<Perm>, id: RoleId, name: Option<string>,
                                   keys: Option<seq<string>>,
                                   actor: set<Perm>)
    ensures var r := UpdateRole(db, catalogue, id, name, keys, actor); r.Ok? ==> SystemFrozen(db, r.value)
  {
  }

  lemma CreateRoleKeepsSystemRoles(db: Db, catalogue: set<Perm>, name: string, keys: seq<string>, actor: set<Perm>)
    requires DbOk(db)
    ensures var r := CreateRole(db, catalogue, name, keys, actor); r.Ok? ==> SystemFrozen(db, r.value)
  {
  }

  lemma NextKeepsSystemRoles(s: State, catalogue: set<Perm>, step: Step)
    requires DbOk(s.db)
    ensures SystemFrozen(s.db, Next(s, catalogue, step).db)
  {
    hide DbOk, Trim, Held, Effective, CreateRole, UpdateRole, CanGrantRoles, IsLastManager;
    if step.Admin? {
      var edit := step.edit;
      match edit
      case NewRole(name, keys) => CreateRoleKeepsSystemRoles(s.db, catalogue, name, keys, step.bearer.perms);
      case EditRole(role, newName, newKeys) =>
        UpdateRoleKeepsSystemRoles(s.db, catalogue, role, newName, newKeys, step.bearer.perms);
      case _ =>
    }
  }

  /** Seeded roles outlast every run unchanged, and no other role ever holds the wildcard. */
  lemma {:induction false} SystemRolesAreFrozen(s: State, catalogue: set<Perm>, steps: seq<Step>)
    requires Valid(s)
    ensures var end := Run(s, catalogue, steps);
            && SystemFrozen(s.db, end.db)
            && (forall r | r in end.db.roles && SUPER in end.db.roles[r].perms :: end.db.roles[r].system)
    decreases |steps|
  {
    if steps != [] {
      var next := Next(s, catalogue, steps[0]);
      NextKeepsValid(s, catalogue, steps[0]);
      NextKeepsSystemRoles(s, catalogue, steps[0]);
      hide Valid, Next;
      SystemRolesAreFrozen(next, catalogue, steps[1..]);
    }
  }

  // ---- Where permissions come from -----------------------------------------

  ghost function Admins(steps: seq<Step>): set<UserId> {
    set i | 0 <= i < |steps| && steps[i].Admin? :: steps[i].bearer.sub
  }

  /** What the users acting in a run held when it began. */
  ghost function Pool(start: Db, admins: set<UserId>): set<Perm> {
    set u, p | u in admins && p in Held(start, u) :: p
  }

  /** Everyone holds what they began with and what the acting users began with; newcomers only the latter. */
  ghost predicate WithinPool(start: Db, db: Db, pool: set<Perm>) {
    && start.nextUser <= db.nextUser
    && forall u | u in db.users :: Held(db, u) <= pool + if u < start.nextUser then Held(start, u) else {}
  }

  lemma ActorWithinPool(start: Db, s: State, pool: set<Perm>, admins: set<UserId>, bearer: Access)
    requires DbOk(start) && Valid(s) && WithinPool(start, s.db, pool) && pool == Pool(start, admins)
    requires Accepts(s, bearer) && bearer.sub in admins && SUPER !in bearer.perms
    ensures bearer.perms == Held(s.db, bearer.sub) && bearer.perms <= pool
  {
  }

  /** What an edit leaves a user with beyond what it had, the acting user holds. */
  ghost predicate GrantsWithin(db: Db, after: Db, actor: set<Perm>, u: UserId) {
    u in after.users ==> Held(after, u) <= actor + Held(db, u) && (u in db.users || u >= db.nextUser)
  }

  lemma UpdateRoleGrants(db: Db, catalogue: set<Perm>, id: RoleId, name: Option<string>, keys: Option<seq<string>>,
                         actor: set<Perm>, u: UserId)
    requires SUPER !in actor
    ensures var r := UpdateRole(db, catalogue, id, name, keys, actor); r.Ok? ==> GrantsWithin(db, r.value, actor, u)
  {
  }

  lemma UserGrants(db: Db, catalogue: set<Perm>, bearer: Access, edit: Edit, u: UserId)
    requires DbOk(db) && SUPER !in bearer.perms && (edit.NewUser? || edit.EditUser? || edit.DropUser?)
    ensures var r := Apply(db, catalogue, bearer, edit); r.Ok? ==> GrantsWithin(db, r.value, bearer.perms, u)
  {
  }

  lemma ApplyGrantsWithin(db: Db, catalogue: set<Perm>, bearer: Access, edit: Edit, u: UserId)
    requires DbOk(db) && SUPER !in bearer.perms
    ensures var r := Apply(db, catalogue, bearer, edit); r.Ok? ==> GrantsWithin(db, r.value, bearer.perms, u)
  {
    hide DbOk, Evolves, CreateRole, UpdateRole, DeleteRole, CreateUser, UpdateUser, DeleteUser;
    match edit
    case NewRole(name, keys) => CreateRoleOk(db, catalogue, name, keys, bearer.perms);
    case EditRole(role, newName, newKeys) => UpdateRoleGrants(db, catalogue, role, newName, newKeys, bearer.perms, u);
    case DropRole(role) => DeleteRoleOk(db, role);
    case _ => UserGrants(db, catalogue, bearer, edit, u);
  }

  lemma NextWithinPool(start: Db, s: State, catalogue: set<Perm>, step: Step, admins: set<UserId>)
    requires DbOk(start) && Valid(s) && WithinPool(start, s.db, Pool(start, admins))
    requires step.Admin? ==> step.bearer.sub in admins && SUPER !in step.bearer.perms
    ensures WithinPool(start, Next(s, catalogue, step).db, Pool(start, admins))
  {
    hide Apply, Pool, Keys, Effective;
    var next := Next(s, catalogue, step);
    if step.Admin? {
      if Accepts(s, step.bearer) && Apply(s.db, catalogue, step.bearer, step.edit).Ok? {
        ApplyOk(s.db, catalogue, step.bearer, step.edit);
        ActorWithinPool(start, s, Pool(start, admins), admins, step.bearer);
        forall u | u in next.db.users ensures Held(next.db, u) <= Pool(start, admins) + if u < start.nextUser
          then Held(start, u) else {} {
          ApplyGrantsWithin(s.db, catalogue, step.bearer, step.edit, u);
        }
      }
    } else {
      forall u ensures Held(next.db, u) == Held(s.db, u) {
        SessionsKeepHeld(s, catalogue, step, u);
      }
    }
  }

  lemma SessionsKeepHeld(s: State, catalogue: set<Perm>, step: Step, u: UserId)
    requires !step.Admin?
    ensures Held(Next(s, catalogue, step).db, u) == Held(s.db, u)
  {
  }

  lemma {:induction false} RunWithinPool(start: Db, s: State, catalogue: set<Perm>, steps: seq<Step>,
                                         admins: set<UserId>)
    requires DbOk(start) && Valid(s) && WithinPool(start, s.db, Pool(start, admins))
    requires forall i | 0 <= i < |steps| && steps[i].Admin? ::
               steps[i].bearer.sub in admins && SUPER !in steps[i].bearer.perms
    ensures WithinPool(start, Run(s, catalogue, steps).db, Pool(start, admins))
    decreases |steps|
  {
    if steps != [] {
      NextWithinPool(start, s, catalogue, steps[0], admins);
      NextKeepsValid(s, catalogue, steps[0]);
      hide Valid, Next, WithinPool, Pool, DbOk;
      RunWithinPool(start, Next(s, catalogue, steps[0]), catalogue, steps[1..], admins);
    }
  }

  /**
   No escalation: when no acting token holds the wildcard, what anyone holds at the end was held at the
   start by that user or by one of the users who acted.
   */
  lemma PermissionsComeFromActors(s: State, catalogue: set<Perm>, steps: seq<Step>, u: UserId)
    requires Valid(s)
    requires forall i | 0 <= i < |steps| && steps[i].Admin? :: SUPER !in steps[i].bearer.perms
    ensures Held(Run(s, catalogue, steps).db, u) <= Held(s.db, u) + Pool(s.db, Admins(steps))
  {
    assert WithinPool(s.db, s.db, Pool(s.db, Admins(steps)));
    RunWithinPool(s.db, s, catalogue, steps, Admins(steps));
  }

  // ---- Someone who manages users -------------------------------------------

  ghost predicate SomeManager(db: Db) {
    exists u :: IsManager(db, u)
  }

  /** Every edit but a role's keeps a user manager, whoever acts. */
  lemma EditsKeepAManager(db: Db, catalogue: set<Perm>, bearer: Access, edit: Edit)
    requires DbOk(db) && SomeManager(db) && !edit.EditRole?
    ensures var r := Apply(db, catalogue, bearer, edit); r.Ok? ==> SomeManager(r.value)
  {
    hide Trim, Lower, Keys, CanGrantRoles, ResolvePermissions;
    var r := Apply(db, catalogue, bearer, edit);
    if r.Ok? {
      var m :| IsManager(db, m);
      if edit.NewRole? {
        CreateRoleOk(db, catalogue, edit.name, edit.keys, bearer.perms);
        assert Held(r.value, m) == Held(db, m) && IsManager(r.value, m);
      } else if edit.DropRole? {
        DeleteRoleOk(db, edit.role);
        assert Held(r.value, m) == Held(db, m) && IsManager(r.value, m);
      } else if edit.NewUser? {
        assert IsManager(r.value, m);
      } else {
        if m == edit.user && !IsManager(r.value, m) {
          var other :| other in db.users && IsManager(db, other) && other != m;
          assert IsManager(r.value, other);
        } else {
          assert IsManager(r.value, m);
        }
      }
    }
  }

  /** Active, and a manager through another role or through this role's permissions `perms`. */
  predicate ManagesAfter(db: Db, u: UserId, id: RoleId, perms: set<Perm>) {
    && u in db.users && db.users[u].active
    && (GrantsUserManagement(db.roles, db.users[u].roles - {id}) || (id in db.users[u].roles && MANAGE_USERS in perms))
  }

  lemma KeysSplit(roles: map<RoleId, Role>, ids: set<RoleId>, id: RoleId)
    ensures Keys(roles, ids) == Keys(roles, ids - {id}) + if id in ids && id in roles then roles[id].perms else {}
  {
  }

  lemma RewrittenManager(db: Db, id: RoleId, role: Role, u: UserId)
    requires id in db.roles && SUPER !in role.perms
    ensures IsManager(InvalidateHolders(db.(roles := db.roles[id := role]), id), u)
            <==> ManagesAfter(db, u, id, role.perms)
  {
    if u in db.users {
      var roles, ids := db.roles[id := role], db.users[u].roles;
      SameKeys(db.roles, roles, ids - {id});
      KeysSplit(roles, ids, id);
    }
  }

  /** A role edit leaves a user manager exactly when someone active manages without it or it still grants it. */
  lemma RoleEditKeepsManagerExactly(db: Db, catalogue: set<Perm>, id: RoleId, name: Option<string>,
                                    keys: Option<seq<string>>,
                                    actor: set<Perm>)
    requires DbOk(db) && UpdateRole(db, catalogue, id, name, keys, actor).Ok?
    ensures var perms := if keys.None? then db.roles[id].perms
            else ResolvePermissions(catalogue, keys.value, actor).value;
            SomeManager(UpdateRole(db, catalogue, id, name, keys, actor).value)
            <==> exists u :: ManagesAfter(db, u, id, perms)
  {
    hide Trim, IsManager, ManagesAfter, InvalidateHolders;
    var after := UpdateRole(db, catalogue, id, name, keys, actor).value;
    var renamed := Renamed(db, id, name).value;
    var perms := if keys.None? then renamed.perms else ResolvePermissions(catalogue, keys.value, actor).value;
    forall u ensures IsManager(after, u) <==> ManagesAfter(db, u, id, perms) {
      RewrittenManager(db, id, renamed.(perms := perms), u);
    }
  }

  /** The only manager of users may edit that authority away from everyone. */
  lemma RoleEditMayRemoveLastManager(catalogue: set<Perm>)
    ensures var db := Db(map[0 := Role("staff", false, {MANAGE_USERS, MANAGE_ROLES})],
                         map[0 := User("a", true, 0, None, {0})], 1, 1);
            var r := Apply(db, catalogue, Access(0, {MANAGE_USERS, MANAGE_ROLES}, 0), EditRole(0, None, Some([])));
            DbOk(db) && SomeManager(db) && r.Ok? && !SomeManager(r.value)
  {
    var db := Db(map[0 := Role("staff", false, {MANAGE_USERS, MANAGE_ROLES})],
                 map[0 := User("a", true, 0, None, {0})], 1, 1);
    assert IsManager(db, 0) by {
      assert 0 in db.users[0].roles && MANAGE_USERS in db.roles[0].perms;
    }
  }

  // ---- The services --------------------------------------------------------

  /** The role and user tables with the tokens signed so far; every request runs alone. */
  class AccessTables {
    const catalogue: set<Perm>
    var roles: map<RoleId, Role>
    var users: map<UserId, User>
    var nextRole: RoleId
    var nextUser: UserId
    var nextJti: nat
    var access: set<Access>
    var refresh: set<Refresh>

    ghost function Tables(): Db
      reads this
    {
      Db(roles, users, nextRole, nextUser)
    }

    ghost function Contents(): State
      reads this
    {
      State(Tables(), access, refresh, nextJti)
    }

    constructor (catalogue: set<Perm>, seed: Db)
      ensures this.catalogue == catalogue && Contents() == State(seed, {}, {}, 0)
    {
      this.catalogue := catalogue;
      roles, users, nextRole, nextUser := seed.roles, seed.users, seed.nextRole, seed.nextUser;
      access, refresh, nextJti := {}, {}, 0;
    }

    /** `issueTokens`: a fresh refresh id replaces the user's current one. */
    method Issue(u: UserId) returns (pair: (Access, Refresh))
      requires u in users
      modifies this
      ensures Contents() == IssueTokens(old(Contents()), u)
      ensures Accepts(Contents(), pair.0) <==> old(users[u].active)
      ensures Redeemable(Contents(), pair.1) <==> old(users[u].active)
    {
      var user := users[u];
      var keys := Keys(roles, user.roles);
      pair := (Access(u, Effective(keys), user.tokenVersion), Refresh(u, user.tokenVersion, nextJti));
      users := users[u := user.(refreshId := Some(nextJti))];
      access, refresh, nextJti := access + {pair.0}, refresh + {pair.1}, nextJti + 1;
    }

    method BumpTokenVersion(u: UserId)
      modifies this`users
      ensures Tables() == BumpUser(old(Tables()), u)
    {
      if u in users {
        users := users[u := users[u].(tokenVersion := users[u].tokenVersion + 1)];
        users := users[u := users[u].(refreshId := None)];
      }
    }

    /** `verifyActiveAccess`; `expired` is what the token's own expiry says. */
    method VerifyActiveAccess(t: Access, expired: bool) returns (r: Result<Access, Refusal>)
      ensures r == if !expired && Accepts(Contents(), t) then Ok(t) else Err(Unauthorized)
    {
      if expired || t !in access || t.sub !in users || !users[t.sub].active {
        return Err(Unauthorized);
      }
      if users[t.sub].tokenVersion != t.tv {
        return Err(Unauthorized);
      }
      return Ok(t);
    }

    /** `refresh`: rotation, or the end of the session when the token was rotated before. */
    method RefreshPair(t: Refresh, expired: bool) returns (r: Result<(Access, Refresh), Refusal>)
      modifies this
      ensures Contents() == if expired then old(Contents()) else Exchanged(old(Contents()), t)
      ensures r.Ok? <==> !expired && Redeemable(old(Contents()), t)
      ensures r.Ok? ==> Accepts(Contents(), r.value.0) && Redeemable(Contents(), r.value.1)
    {
      if expired || t !in refresh || t.sub !in users || !users[t.sub].active || users[t.sub].tokenVersion != t.tv {
        return Err(Unauthorized);
      }
      if users[t.sub].refreshId != Some(t.jti) {
        BumpTokenVersion(t.sub);
        return Err(Unauthorized);
      }
      var pair := Issue(t.sub);
      return Ok(pair);
    }

    /** `invalidateUsersWithRole`: one bump per holder. */
    method InvalidateUsersWithRole(r: RoleId)
      modifies this`users
      ensures Tables() == InvalidateHolders(old(Tables()), r)
    {
      var was := users;
      var left := set u | u in users && r in users[u].roles;
      while left != {}
        invariant users.Keys == was.Keys && Tables() == old(Tables()).(users := users)
        invariant left <= set u | u in was && r in was[u].roles
        invariant forall u | u in was ::
                    users[u] == if r in was[u].roles && u !in left then Bumped(was[u]) else was[u]
        decreases |left|
      {
        var u :| u in left;
        BumpTokenVersion(u);
        left := left - {u};
      }
      assert users == InvalidateHolders(old(Tables()), r).users;
    }

    method AddRole(name: string, keys: seq<string>, actor: set<Perm>) returns (refused: Option<Refusal>)
      modifies this`roles, this`nextRole
      ensures var spec := CreateRole(old(Tables()), catalogue, name, keys, actor);
              && Tables() == (if spec.Ok? then spec.value else old(Tables()))
              && refused == (if spec.Ok? then None else Some(spec.error))
      ensures refused.None? && DbOk(old(Tables())) ==> DbOk(Tables()) && Evolves(old(Tables()), Tables())
    {
      hide DbOk, Evolves;
      if DbOk(Tables()) {
        CreateRoleOk(Tables(), catalogue, name, keys, actor);
      }
      var cleanName := Trim(name);
      if cleanName == "" {
        return Some(BadRequest);
      }
      if exists r | r in roles :: roles[r].name == cleanName {
        assert NameTaken(Tables(), cleanName, None);
        return Some(Conflict);
      }
      var permissions := ResolvePermissions(catalogue, keys, actor);
      if permissions.Err? {
        return Some(permissions.error);
      }
      roles := roles[nextRole := Role(cleanName, false, permissions.value)];
      nextRole := nextRole + 1;
      return None;
    }

    method EditRoleOf(id: RoleId, name: Option<string>, keys: Option<seq<string>>, actor: set<Perm>)
      returns (refused: Option<Refusal>)
      modifies this`roles, this`users
      ensures var spec := UpdateRole(old(Tables()), catalogue, id, name, keys, actor);
              && Tables() == (if spec.Ok? then spec.value else old(Tables()))
              && refused == (if spec.Ok? then None else Some(spec.error))
      ensures refused.None? && DbOk(old(Tables())) ==> DbOk(Tables()) && Evolves(old(Tables()), Tables())
    {
      hide DbOk, Evolves;
      if DbOk(Tables()) {
        UpdateRoleOk(Tables(), catalogue, id, name, keys, actor);
      }
      if id !in roles {
        return Some(NotFound);
      }
      var role := roles[id];
      if role.system {
        return Some(BadRequest);
      }
      if name.Some? {
        var cleanName := Trim(name.value);
        if cleanName == "" {
          return Some(BadRequest);
        }
        if exists r | r in roles :: roles[r].name == cleanName && r != id {
          assert NameTaken(Tables(), cleanName, Some(id));
          return Some(Conflict);
        }
        role := role.(name := cleanName);
      }
      if keys.Some? {
        var permissions := ResolvePermissions(catalogue, keys.value, actor);
        if permissions.Err? {
          return Some(permissions.error);
        }
        role := role.(perms := permissions.value);
      }
      roles := roles[id := role];
      InvalidateUsersWithRole(id);
      return None;
    }

    /** `assertActorCanGrantRoles`: the first role beyond the actor's authority refuses the assignment. */
    method ActorCanGrantRoles(ids: set<RoleId>, actor: set<Perm>) returns (ok: bool)
      ensures ok == CanGrantRoles(Tables(), ids, actor)
    {
      if SUPER in actor {
        return true;
      }
      var left := ids;
      while left != {}
        invariant left <= ids
        invariant forall id | id in ids && id !in left && id in roles ::
                    SUPER !in roles[id].perms && roles[id].perms <= actor
        decreases |left|
      {
        var id :| id in left;
        if id in roles && !(SUPER !in roles[id].perms && roles[id].perms <= actor) {
          assert forall p | p in roles[id].perms :: p in Keys(roles, ids);
          return false;
        }
        left := left - {id};
      }
      return true;
    }

    method AddUser(email: string, roleIds: set<RoleId>, actor: set<Perm>) returns (refused: Option<Refusal>)
      modifies this`users, this`nextUser
      ensures var spec := CreateUser(old(Tables()), email, roleIds, actor);
              && Tables() == (if spec.Ok? then spec.value else old(Tables()))
              && refused == (if spec.Ok? then None else Some(spec.error))
      ensures refused.None? && DbOk(old(Tables())) ==> DbOk(Tables()) && Evolves(old(Tables()), Tables())
    {
      hide DbOk, Evolves;
      if DbOk(Tables()) {
        CreateUserOk(Tables(), email, roleIds, actor);
      }
      var clean := Trim(Lower(email));
      if exists u | u in users :: users[u].email == clean {
        return Some(Conflict);
      }
      if !(roleIds <= roles.Keys) {
        return Some(BadRequest);
      }
      var granted := ActorCanGrantRoles(roleIds, actor);
      if !granted {
        return Some(BadRequest);
      }
      users := users[nextUser := User(clean, true, 0, None, roleIds)];
      nextUser := nextUser + 1;
      return None;
    }

    method EditUserOf(id: UserId, patch: UserPatch, actor: set<Perm>, self: UserId) returns (refused: Option<Refusal>)
      modifies this`users
      ensures var spec := UpdateUser(old(Tables()), id, patch, actor, self);
              && Tables() == (if spec.Ok? then spec.value else old(Tables()))
              && refused == (if spec.Ok? then None else Some(spec.error))
      ensures refused.None? && DbOk(old(Tables())) ==> DbOk(Tables()) && Evolves(old(Tables()), Tables())
    {
      hide DbOk, Evolves;
      if DbOk(Tables()) {
        UpdateUserOk(Tables(), id, patch, actor, self);
      }
      if id !in users {
        return Some(NotFound);
      }
      var user := users[id];
      if patch.roleIds.Some? && !(patch.roleIds.value <= roles.Keys) {
        return Some(BadRequest);
      }
      var willBeActive := if patch.active.Some? then patch.active.value else user.active;
      var willBeRoles := if patch.roleIds.Some? then patch.roleIds.value else user.roles;
      var last := IsOnlyManager(id);
      if !(willBeActive && GrantsUserManagement(roles, willBeRoles)) && last {
        return Some(BadRequest);
      }
      if patch.roleIds.Some? {
        var granted := ActorCanGrantRoles(willBeRoles, actor);
        if !granted || (self == id && SUPER !in actor) {
          return Some(BadRequest);
        }
      }
      var mustInvalidate := patch.roleIds.Some? || patch.password || willBeActive != user.active;
      users := users[id := user.(active := willBeActive, roles := willBeRoles)];
      if mustInvalidate {
        BumpTokenVersion(id);
      }
      return None;
    }

    /** `isLastActiveAdmin`. */
    method IsOnlyManager(id: UserId) returns (last: bool)
      requires id in users
      ensures last == IsLastManager(Tables(), id)
    {
      if !users[id].active || !GrantsUserManagement(roles, users[id].roles) {
        return false;
      }
      var managers := set u | u in users && users[u].active && GrantsUserManagement(roles, users[u].roles);
      last := managers == {id};
      assert forall u :: u in managers <==> IsManager(Tables(), u);
    }

    method RemoveUser(id: UserId) returns (refused: Option<Refusal>)
      modifies this`users
      ensures var spec := DeleteUser(old(Tables()), id);
              && Tables() == (if spec.Ok? then spec.value else old(Tables()))
              && refused == (if spec.Ok? then None else Some(spec.error))
      ensures refused.None? && DbOk(old(Tables())) ==> DbOk(Tables()) && Evolves(old(Tables()), Tables())
    {
      hide DbOk, Evolves;
      if DbOk(Tables()) {
        DeleteUserOk(Tables(), id);
      }
      if id !in users {
        return Some(NotFound);
      }
      var last := IsOnlyManager(id);
      if last {
        return Some(BadRequest);
      }
      users := users - {id};
      return None;
    }

    method RemoveRole(id: RoleId) returns (refused: Option<Refusal>)
      modifies this`roles
      ensures var spec := DeleteRole(old(Tables()), id);
              && Tables() == (if spec.Ok? then spec.value else old(Tables()))
              && refused == (if spec.Ok? then None else Some(spec.error))
      ensures refused.None? && DbOk(old(Tables())) ==> DbOk(Tables()) && Evolves(old(Tables()), Tables())
    {
      hide DbOk, Evolves;
      if DbOk(Tables()) {
        DeleteRoleOk(Tables(), id);
      }
      if id !in roles {
        return Some(NotFound);
      }
      if roles[id].system {
        return Some(BadRequest);
      }
      if exists u | u in users :: id in users[u].roles {
        return Some(Conflict);
      }
      roles := roles - {id};
      return None;
    }
  }
}
