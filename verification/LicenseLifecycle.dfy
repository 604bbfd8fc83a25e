/**
 The licence lifecycle as functions on the database: issue, refresh, renew, regenerate, rebind,
 the portal's own regenerate, revoke, and the package edits that run beside them.
 */
module LicenseLifecycle {
  import opened Common
  import opened DurationPolicy
  import opened DomainPolicy

  type Id = nat

  datatype Status = Active | Revoked

  /** The claims of a signed licence token. */
  datatype Token = Token(lic: Id, features: seq<string>, domains: seq<string>, iat: int, exp: int)

  datatype Package = Package(
    active: bool, billingInterval: string, ttlOverride: Option<int>, features: seq<string>,
    domainBound: bool, maxDomains: int)

  datatype Customer = Customer(email: string, domains: seq<string>)

  datatype License = License(
    licId: Id, customer: Id, package: Option<Id>, features: seq<string>, domains: seq<string>,
    status: Status, token: Token, issuedAt: int, expiresAt: int, renewUntil: int,
    flaggedAt: int, reminderSentAt: int, createdMs: int)

  /** The tables; `family` is history: the original issue each row descends from. */
  datatype Db = Db(
    licenses: map<Id, License>, packages: map<Id, Package>, customers: map<Id, Customer>,
    family: map<Id, Id>)

  /** Configuration and feature catalogue at the time of one call. */
  datatype Env = Env(known: set<string>, sellable: set<string>, publicSuffixes: set<string>, defaultTtl: int)

  /** Identifiers and creation time the database hands to a new row. */
  datatype NewIds = NewIds(row: Id, lic: Id, createdMs: int)

  /** An operation's own clock reading, and the signer's later one where `iat` is not pinned. */
  datatype Clock = Clock(now: int, signed: int)

  datatype Refusal = NotFound | BadRequest | Conflict | Refused | TermEnded | OriginBlocked | RateLimited

  /** A token that left the service, for which row and family, and the clock its term was checked against. */
  datatype Mint = Mint(family: Id, row: Id, token: Token, clock: int)

  function FamilyOf(db: Db, id: Id): Id {
    if id in db.family then db.family[id] else id
  }

  datatype Outcome = Outcome(db: Db, minted: Option<Mint>, error: Option<Refusal>, reminded: Option<Id>)

  function Refuse(db: Db, why: Refusal): Outcome {
    Outcome(db, None, Some(why), None)
  }

  // ---- Minting -------------------------------------------------------------

  predicate FeaturesKnown(features: seq<string>, env: Env) {
    features != [] && forall f | f in features :: f in env.known
  }

  predicate FeaturesSellable(features: seq<string>, env: Env) {
    FeaturesKnown(features, env) && forall f | f in features :: f in env.sellable
  }

  predicate DomainCountOk(domains: seq<string>, maxDomains: int) {
    maxDomains <= 0 || |Sites(domains)| <= maxDomains
  }

  function LinkedIn(packages: map<Id, Package>, package: Option<Id>): Option<Package> {
    if package.Some? && package.value in packages then Some(packages[package.value]) else None
  }

  function TermIn(packages: map<Id, Package>, lic: License): TermFields {
    var interval := match LinkedIn(packages, lic.package) case Some(p) => p.billingInterval case None => "once";
    TermFields(lic.renewUntil, Some(lic.createdMs), lic.issuedAt, interval)
  }

  predicate WithdrawnIn(packages: map<Id, Package>, lic: License) {
    var p := LinkedIn(packages, lic.package);
    p.Some? && !p.value.active
  }

  function LinkedPackage(db: Db, package: Option<Id>): Option<Package> {
    LinkedIn(db.packages, package)
  }

  function TermOf(db: Db, lic: License): TermFields {
    TermIn(db.packages, lic)
  }

  predicate IdsFree(db: Db, ids: NewIds) {
    ids.row !in db.licenses && forall id | id in db.licenses :: db.licenses[id].licId != ids.lic
  }

  function NewLicense(
    customer: Id, package: Option<Id>, features: seq<string>, domains: seq<string>, renewUntil: int,
    flaggedAt: int, exp: int, ids: NewIds, clock: Clock): License
  {
    var token := Token(ids.lic, features, domains, clock.signed, exp);
    License(ids.lic, customer, package, features, domains, Active, token, token.iat, token.exp,
            renewUntil, flaggedAt, 0, ids.createdMs)
  }

  datatype Snapshot = Snapshot(
    customer: Id, features: seq<string>, domains: seq<string>, domainBound: bool, maxDomains: Option<int>,
    ttlSeconds: Option<int>, package: Option<Id>, billingInterval: string, renewUntil: Option<int>,
    honorSnapshot: bool, flaggedAt: int)

  function SnapshotRenewUntil(input: Snapshot, now: int): int {
    if input.renewUntil.Some? && (input.renewUntil.value > 0 || input.renewUntil.value == INFINITE_TERM)
    then input.renewUntil.value
    else StampedRenewUntil(IntervalOrOnce(input.billingInterval), now)
  }

  function SnapshotDomains(db: Db, input: Snapshot): seq<string>
    requires input.customer in db.customers
  {
    Normalized(
      if !input.domainBound then []
      else if input.domains != [] then input.domains
      else db.customers[input.customer].domains)
  }

  /** The features and domains a snapshot grants, or why it may not be minted. */
  function SnapshotGrant(db: Db, env: Env, input: Snapshot): Result<(seq<string>, seq<string>), Refusal> {
    if input.customer !in db.customers then Err(NotFound)
    else
      var features := Distinct(input.features);
      var domains := SnapshotDomains(db, input);
      if !(if input.honorSnapshot then FeaturesKnown(features, env) else FeaturesSellable(features, env))
        then Err(BadRequest)
      else if input.domainBound && domains == [] then Err(BadRequest)
      else if !Acceptable(domains, env.publicSuffixes) then Err(BadRequest)
      else if input.maxDomains.Some? && !DomainCountOk(domains, input.maxDomains.value) then Err(BadRequest)
      else Ok((features, domains))
  }

  function FromSnapshot(db: Db, env: Env, input: Snapshot, ids: NewIds, clock: Clock): Result<License, Refusal> {
    match SnapshotGrant(db, env, input)
    case Err(e) => Err(e)
    case Ok((features, domains)) =>
      var package := if LinkedPackage(db, input.package).Some? then input.package else None;
      var renewUntil := SnapshotRenewUntil(input, clock.now);
      var requested := match input.ttlSeconds case Some(n) => Some(Finite(n)) case None => None;
      var ttl := ClampTtlToTerm(requested, Finite(renewUntil), clock.now);
      var exp := SignedExpiry(clock.signed, ttl, env.defaultTtl);
      if !IdsFree(db, ids) then Err(Conflict)
      else Ok(NewLicense(input.customer, package, features, domains, renewUntil, input.flaggedAt, exp, ids, clock))
  }

  /** Inserts a row, starting a family when none is given. */
  function Insert(db: Db, row: Id, lic: License, family: Id, clock: int): Outcome {
    Outcome(db.(licenses := db.licenses[row := lic], family := db.family[row := family]),
            Some(Mint(family, row, lic.token, clock)), None, None)
  }

  function IssueSnapshot(db: Db, env: Env, input: Snapshot, ids: NewIds, clock: Clock): Outcome {
    match FromSnapshot(db, env, input, ids, clock)
    case Err(e) => Refuse(db, e)
    case Ok(lic) => Insert(db, ids.row, lic, ids.row, clock.now)
  }

  function Issue(
    db: Db, env: Env, customer: Id, package: Id, given: seq<string>, ttlSeconds: int, ids: NewIds, clock: Clock)
    : Outcome
  {
    if customer !in db.customers || package !in db.packages then Refuse(db, NotFound)
    else
      var pkg := db.packages[package];
      var domains := Normalized(if given != [] then given else db.customers[customer].domains);
      if !pkg.active || !FeaturesSellable(pkg.features, env)
         || (pkg.domainBound && domains == [])
         || !Acceptable(domains, env.publicSuffixes) || !DomainCountOk(domains, pkg.maxDomains)
      then Refuse(db, BadRequest)
      else
        var renewUntil := StampedRenewUntil(IntervalOrOnce(pkg.billingInterval), clock.now);
        var wanted := if ttlSeconds != 0 then ttlSeconds else EffectiveTtlSeconds(pkg.billingInterval, pkg.ttlOverride);
        var ttl := ClampTtlToTerm(Some(Finite(wanted)), Finite(renewUntil), clock.now);
        var exp := SignedExpiry(clock.signed, ttl, env.defaultTtl);
        if !IdsFree(db, ids) then Refuse(db, Conflict)
        else
          var lic := NewLicense(customer, Some(package), pkg.features, domains, renewUntil, 0, exp, ids, clock);
          Insert(db, ids.row, lic, ids.row, clock.now)
  }

  // ---- Credential swaps ----------------------------------------------------

  /** What a swap re-mints: the old row's own terms, its boundary carried over exactly. */
  function Carried(db: Db, was: License, domains: seq<string>, domainBound: bool): Snapshot {
    Snapshot(was.customer, was.features, domains, domainBound, None, None,
             if LinkedPackage(db, was.package).Some? then was.package else None,
             "", Some(CarriedRenewUntil(TermOf(db, was))), true, was.flaggedAt)
  }

  /** Revokes one row and mints its successor in one transaction: a refused mint undoes the revocation. */
  function Swap(db: Db, env: Env, id: Id, domains: seq<string>, domainBound: bool, ids: NewIds, clock: Clock): Outcome
    requires id in db.licenses
  {
    var was := db.licenses[id];
    var revoked := db.(licenses := db.licenses[id := was.(status := Revoked)]);
    match FromSnapshot(revoked, env, Carried(db, was, domains, domainBound), ids, clock)
    case Err(e) => Refuse(db, e)
    case Ok(lic) => Insert(revoked, ids.row, lic, FamilyOf(db, id), clock.now)
  }

  predicate PackageWithdrawn(db: Db, lic: License) {
    WithdrawnIn(db.packages, lic)
  }

  function Regenerate(db: Db, env: Env, id: Id, ids: NewIds, clock: Clock): Outcome
  {
    if id !in db.licenses then Refuse(db, NotFound)
    else
      var was := db.licenses[id];
      if PackageWithdrawn(db, was) then Refuse(db, BadRequest)
      else if !IsTermActive(TermOf(db, was), clock.now) then Refuse(db, TermEnded)
      else if !FeaturesKnown(was.features, env) then Refuse(db, BadRequest)
      else Swap(db, env, id, was.domains, was.domains != [], ids, clock)
  }

  function Rebind(db: Db, env: Env, id: Id, newDomains: seq<string>, ids: NewIds, clock: Clock): Outcome
  {
    var domains := Normalized(newDomains);
    if domains == [] || !Acceptable(domains, env.publicSuffixes) then Refuse(db, BadRequest)
    else if id !in db.licenses then Refuse(db, NotFound)
    else
      var was := db.licenses[id];
      if was.status == Revoked || PackageWithdrawn(db, was) then Refuse(db, BadRequest)
      else if !IsTermActive(TermOf(db, was), clock.now) then Refuse(db, TermEnded)
      else if !FeaturesKnown(was.features, env) then Refuse(db, BadRequest)
      else Swap(db, env, id, domains, true, ids, clock)
  }

  function PortalRegenerate(db: Db, env: Env, customer: Id, id: Id, ids: NewIds, clock: Clock): Outcome
  {
    if id !in db.licenses || db.licenses[id].customer != customer then Refuse(db, NotFound)
    else
      var was := db.licenses[id];
      if !IsTermActive(TermOf(db, was), clock.now) then Refuse(db, TermEnded)
      else Swap(db, env, id, was.domains, was.domains != [], ids, clock)
  }

  // ---- In-place changes ----------------------------------------------------

  /** The admin's term extension; `lic` is the fresh licence id of the re-signed token. */
  function Renew(db: Db, env: Env, id: Id, ttlSeconds: int, lic: Id, now: int): Outcome
  {
    if id !in db.licenses then Refuse(db, NotFound)
    else
      var was := db.licenses[id];
      var pkg := LinkedPackage(db, was.package);
      if was.status == Revoked || PackageWithdrawn(db, was)
        || !FeaturesKnown(was.features, env) then Refuse(db, BadRequest)
      else
        var interval := if pkg.Some? then IntervalOrOnce(pkg.value.billingInterval) else Once;
        var fromPackage := if pkg.Some? then EffectiveTtlSeconds(pkg.value.billingInterval, pkg.value.ttlOverride)
          else 0;
        var boundary :=
          if interval == Lifetime then INFINITE_TERM
          else if interval == Once then now + (if pkg.Some? then fromPackage else ttlSeconds)
          else now + TermSeconds(interval);
        var base := if ttlSeconds != 0 then Some(Finite(ttlSeconds)) else if pkg.Some? then Some(Finite(fromPackage))
          else None;
        var exp := SignedExpiry(now, ClampTtlToTerm(base, Finite(boundary), now), env.defaultTtl);
        if exists other | other in db.licenses :: other != id && db.licenses[other].licId == lic
        then Refuse(db, Conflict)
        else
          var token := Token(lic, was.features, was.domains, now, exp);
          var renewed := was.(licId := lic, token := token, issuedAt := now, expiresAt := exp,
                              renewUntil := if interval == Lifetime then INFINITE_TERM else exp,
                              reminderSentAt := 0, status := Active);
          Outcome(db.(licenses := db.licenses[id := renewed]),
                  Some(Mint(FamilyOf(db, id), id, token, now)), None, None)
  }

  function Revoke(db: Db, id: Id): Outcome {
    if id !in db.licenses then Refuse(db, NotFound)
    else Outcome(db.(licenses := db.licenses[id := db.licenses[id].(status := Revoked)]), None, None, None)
  }

  /** The request's Origin header: absent, not a URL, or a host. */
  datatype Origin = NoOrigin | Unreadable | Host(host: string)

  predicate OriginRejected(origin: Origin, domains: seq<string>) {
    domains != [] && origin != NoOrigin && !(origin.Host? && HostAllowed(origin.host, domains))
  }

  const REMINDER_WINDOW := 7 * DAY

  predicate ReminderDue(db: Db, lic: License, boundary: Seconds, now: int) {
    && boundary.Finite? && boundary.n - now <= REMINDER_WINDOW
    && !(lic.reminderSentAt > 0)
    && lic.customer in db.customers && db.customers[lic.customer].email != ""
  }

  /** One refresh transaction on the row that carries the presented licence id. */
  function RefreshRow(db: Db, env: Env, id: Id, origin: Origin, limiterAllows: bool, now: int): Outcome
    requires id in db.licenses
  {
    var was := db.licenses[id];
    var boundary := EffectiveRenewUntil(TermOf(db, was));
    if was.status == Revoked then Refuse(db, Refused)
    else if !Before(now, boundary) then Refuse(db, TermEnded)
    else if OriginRejected(origin, was.domains) then Refuse(db, OriginBlocked)
    else if !limiterAllows then Refuse(db, RateLimited)
    else
      var pkg := LinkedPackage(db, was.package);
      var base := if pkg.Some? then Some(Finite(EffectiveTtlSeconds(pkg.value.billingInterval,
                                                                    pkg.value.ttlOverride))) else None;
      var exp := SignedExpiry(now, ClampTtlToTerm(base, boundary, now), env.defaultTtl);
      var token := Token(was.licId, was.features, was.domains, now, exp);
      var due := ReminderDue(db, was, boundary, now);
      var rolled := was.(token := token, issuedAt := now, expiresAt := exp, status := Active,
                         reminderSentAt := if due then now else was.reminderSentAt);
      Outcome(db.(licenses := db.licenses[id := rolled]),
              Some(Mint(FamilyOf(db, id), id, token, now)), None, if due then Some(id) else None)
  }

  ghost predicate Carries(db: Db, id: Id, lic: Id) {
    id in db.licenses && db.licenses[id].licId == lic
  }

  /** Refresh with an authentic token: its `lic` claim finds the row. */
  ghost function Refresh(db: Db, env: Env, lic: Id, origin: Origin, limiterAllows: bool, now: int): Outcome {
    if exists id :: Carries(db, id, lic) then
      var id :| Carries(db, id, lic);
      RefreshRow(db, env, id, origin, limiterAllows, now)
    else Refuse(db, Refused)
  }

  // ---- Package and customer edits ------------------------------------------

  function PutPackage(db: Db, id: Id, pkg: Package): Outcome {
    Outcome(db.(packages := db.packages[id := pkg]), None, None, None)
  }

  function Unlinked(lic: License, package: Id): License {
    if lic.package == Some(package) then lic.(package := None) else lic
  }

  /** Deleting a package sets every licence's link to it to null. */
  function RemovePackage(db: Db, id: Id): Outcome {
    if id !in db.packages then Refuse(db, NotFound)
    else
      Outcome(db.(packages := db.packages - {id},
                  licenses := map row | row in db.licenses :: Unlinked(db.licenses[row], id)),
              None, None, None)
  }

  function PutCustomer(db: Db, id: Id, customer: Customer): Outcome {
    Outcome(db.(customers := db.customers[id := customer]), None, None, None)
  }

  // ---- Runs ----------------------------------------------------------------

  datatype Op =
    | DoIssue(customer: Id, package: Id, given: seq<string>, ttl: int, ids: NewIds, clock: Clock)
    | DoIssueSnapshot(input: Snapshot, ids: NewIds, clock: Clock)
    | DoRegenerate(id: Id, ids: NewIds, clock: Clock)
    | DoRebind(id: Id, newDomains: seq<string>, ids: NewIds, clock: Clock)
    | DoPortalRegenerate(owner: Id, id: Id, ids: NewIds, clock: Clock)
    | DoRenew(id: Id, ttl: int, lic: Id, now: int)
    | DoRevoke(id: Id)
    | DoRefresh(lic: Id, origin: Origin, limiterAllows: bool, now: int)
    | DoPutPackage(pkgId: Id, pkg: Package)
    | DoRemovePackage(pkgId: Id)
    | DoPutCustomer(customerId: Id, record: Customer)

  datatype Call = Call(env: Env, op: Op)

  ghost function Next(db: Db, call: Call): Outcome {
    match call.op
    case DoIssue(c, p, given, ttl, ids, clock) => Issue(db, call.env, c, p, given, ttl, ids, clock)
    case DoIssueSnapshot(input, ids, clock) => IssueSnapshot(db, call.env, input, ids, clock)
    case DoRegenerate(id, ids, clock) => Regenerate(db, call.env, id, ids, clock)
    case DoRebind(id, domains, ids, clock) => Rebind(db, call.env, id, domains, ids, clock)
    case DoPortalRegenerate(owner, id, ids, clock) => PortalRegenerate(db, call.env, owner, id, ids, clock)
    case DoRenew(id, ttl, lic, now) => Renew(db, call.env, id, ttl, lic, now)
    case DoRevoke(id) => Revoke(db, id)
    case DoRefresh(lic, origin, allows, now) => Refresh(db, call.env, lic, origin, allows, now)
    case DoPutPackage(id, pkg) => PutPackage(db, id, pkg)
    case DoRemovePackage(id) => RemovePackage(db, id)
    case DoPutCustomer(id, c) => PutCustomer(db, id, c)
  }

  ghost function Run(db: Db, calls: seq<Call>): Db
    decreases |calls|
  {
    if calls == [] then db else Run(Next(db, calls[0]).db, calls[1..])
  }

  ghost function Mints(db: Db, calls: seq<Call>): seq<Mint>
    decreases |calls|
  {
    if calls == [] then []
    else
      var out := Next(db, calls[0]);
      (match out.minted case Some(m) => [m] case None => []) + Mints(out.db, calls[1..])
  }

  ghost function Reminders(db: Db, calls: seq<Call>, id: Id): nat
    decreases |calls|
  {
    if calls == [] then 0
    else
      var out := Next(db, calls[0]);
      (if out.reminded == Some(id) then 1 else 0) + Reminders(out.db, calls[1..], id)
  }

  ghost predicate ClockRuns(op: Op) {
    match op
    case DoIssue(_, _, _, _, _, clock) => 0 <= clock.now <= clock.signed
    case DoIssueSnapshot(_, _, clock) => 0 <= clock.now <= clock.signed
    case DoRegenerate(_, _, clock) => 0 <= clock.now <= clock.signed
    case DoRebind(_, _, _, clock) => 0 <= clock.now <= clock.signed
    case DoPortalRegenerate(_, _, _, clock) => 0 <= clock.now <= clock.signed
    case DoRenew(_, _, _, now) => 0 < now
    case DoRefresh(_, _, _, now) => 0 < now
    case _ => true
  }

  // ---- The paid term -------------------------------------------------------

  ghost predicate Valid(db: Db) {
    && db.family.Keys == db.licenses.Keys
    && db.family.Values <= db.licenses.Keys
    && UniqueLicIds(db.licenses)
    && (forall id | id in db.licenses :: InLockstep(db.licenses[id]))
  }

  ghost predicate UniqueLicIds(rows: map<Id, License>) {
    forall i, j | i in rows && j in rows && i != j :: rows[i].licId != rows[j].licId
  }

  /** A row's current token claims exactly what the row's columns say. */
  predicate InLockstep(lic: License) {
    lic.token == Token(lic.licId, lic.features, lic.domains, lic.issuedAt, lic.expiresAt)
  }

  /** Every row of the family stores the same term boundary. */
  ghost predicate HoldsTerm(db: Db, family: Option<Id>, term: int) {
    && (family.Some? ==> family.value in db.licenses)
    && forall id | id in db.licenses && Some(FamilyOf(db, id)) == family :: db.licenses[id].renewUntil == term
  }

  /** A renewal of the family is allowed only where it cannot move the boundary. */
  ghost predicate LeavesTerm(db: Db, op: Op, family: Option<Id>, term: int) {
    op.DoRenew? && op.id in db.licenses && Some(FamilyOf(db, op.id)) == family ==>
      term == INFINITE_TERM && RenewsLifetime(db, db.licenses[op.id])
  }

  predicate RenewsLifetime(db: Db, lic: License) {
    var pkg := LinkedPackage(db, lic.package);
    pkg.Some? && IntervalOrOnce(pkg.value.billingInterval) == Lifetime
  }

  /** The token ends with the term, up to the gap between the operation's clock and the signer's. */
  predicate MintWithin(m: Mint, term: int) {
    && (term > 0 ==> m.token.exp <= term + (m.token.iat - m.clock))
    && m.token.exp - m.token.iat <= SAFE_MAX_TTL
  }

  ghost predicate Quiet(db: Db, calls: seq<Call>, family: Option<Id>, term: int)
    decreases |calls|
  {
    calls == [] ||
    (ClockRuns(calls[0].op) && LeavesTerm(db, calls[0].op, family, term)
     && Quiet(Next(db, calls[0]).db, calls[1..], family, term))
  }

  /** A well-formed database in which the term boundary of the watched family, if any, is fixed. */
  ghost predicate Holds(db: Db, family: Option<Id>, term: int) {
    Valid(db) && HoldsTerm(db, family, term) && (term > 0 || term == INFINITE_TERM)
  }

  /** What one call keeps, and what it may hand out, for a family whose term it leaves alone. */
  ghost predicate Respects(out: Outcome, family: Option<Id>, term: int) {
    && Holds(out.db, family, term)
    && (out.minted.Some? && Some(out.minted.value.family) == family ==> MintWithin(out.minted.value, term))
  }

  lemma SnapshotFacts(db: Db, env: Env, input: Snapshot, ids: NewIds, clock: Clock)
    requires FromSnapshot(db, env, input, ids, clock).Ok?
    ensures var lic := FromSnapshot(db, env, input, ids, clock).value;
            && IdsFree(db, ids) && lic.licId == ids.lic && InLockstep(lic) && lic.status == Active
            && lic.reminderSentAt == 0 && lic.token.iat == clock.signed
            && lic.renewUntil == SnapshotRenewUntil(input, clock.now)
            && lic.token.exp - lic.token.iat <= SAFE_MAX_TTL
            && (0 <= clock.now < lic.renewUntil ==> lic.token.exp <= lic.renewUntil + (clock.signed - clock.now))
  {
  }

  lemma NothingToAdd()
    ensures Normalized([]) == []
  {
  }

  /** What a mint from a snapshot puts in the row. */
  lemma SnapshotSells(db: Db, env: Env, input: Snapshot, ids: NewIds, clock: Clock)
    requires FromSnapshot(db, env, input, ids, clock).Ok?
    ensures var lic := FromSnapshot(db, env, input, ids, clock).value;
            && input.customer in db.customers && lic.customer == input.customer
            && (forall f :: f in lic.features <==> f in input.features)
            && lic.domains == (if !input.domainBound then []
                               else Normalized(if input.domains != [] then input.domains
                                               else db.customers[input.customer].domains))
            && lic.package == (if LinkedPackage(db, input.package).Some? then input.package else None)
            && lic.flaggedAt == input.flaggedAt && lic.createdMs == ids.createdMs
  {
    hide AddHosts, Acceptable, FeaturesKnown, FeaturesSellable, DomainCountOk, ClampTtlToTerm, SignedExpiry,
      StampedRenewUntil, IntervalOrOnce;
    NothingToAdd();
  }

  lemma PutKeepsUnique(rows: map<Id, License>, id: Id, lic: License)
    requires UniqueLicIds(rows)
    requires forall other | other in rows && other != id :: rows[other].licId != lic.licId
    ensures UniqueLicIds(rows[id := lic])
  {
  }

  lemma InsertKeeps(db: Db, row: Id, lic: License, origin: Id, clock: int, family: Option<Id>, term: int)
    requires Holds(db, family, term) && row !in db.licenses && InLockstep(lic)
    requires forall id | id in db.licenses :: db.licenses[id].licId != lic.licId
    requires origin in db.licenses || origin == row
    requires Some(origin) == family ==> lic.renewUntil == term
    ensures Holds(Insert(db, row, lic, origin, clock).db, family, term)
  {
  }

  lemma UpdateKeeps(db: Db, id: Id, lic: License, family: Option<Id>, term: int)
    requires Holds(db, family, term) && id in db.licenses && InLockstep(lic)
    requires forall other | other in db.licenses && other != id :: db.licenses[other].licId != lic.licId
    requires Some(FamilyOf(db, id)) == family ==> lic.renewUntil == term
    ensures Holds(db.(licenses := db.licenses[id := lic]), family, term)
  {
  }

  lemma OthersDiffer(db: Db, id: Id)
    requires Valid(db) && id in db.licenses
    ensures forall other | other in db.licenses && other != id :: db.licenses[other].licId != db.licenses[id].licId
    ensures FamilyOf(db, id) in db.licenses
  {
  }

  lemma CarriedTerm(lic: TermFields, now: int)
    requires now >= 0 && IsTermActive(lic, now)
    ensures CarriedRenewUntil(lic) == INFINITE_TERM || now < CarriedRenewUntil(lic)
    ensures lic.renewUntil > 0 || lic.renewUntil == INFINITE_TERM ==> CarriedRenewUntil(lic) == lic.renewUntil
  {
  }

  lemma SwapRespects(db: Db, env: Env, id: Id, domains: seq<string>, bound: bool, ids: NewIds, clock: Clock,
                     family: Option<Id>, term: int)
    requires Holds(db, family, term) && 0 <= clock.now <= clock.signed
    requires id in db.licenses && IsTermActive(TermOf(db, db.licenses[id]), clock.now)
    ensures Respects(Swap(db, env, id, domains, bound, ids, clock), family, term)
  {
    hide FromSnapshot, UniqueLicIds, CarriedRenewUntil, EffectiveRenewUntil;
    var was := db.licenses[id];
    var revoked := db.(licenses := db.licenses[id := was.(status := Revoked)]);
    OthersDiffer(db, id);
    UpdateKeeps(db, id, was.(status := Revoked), family, term);
    var input := Carried(db, was, domains, bound);
    var minted := FromSnapshot(revoked, env, input, ids, clock);
    if minted.Ok? {
      SnapshotFacts(revoked, env, input, ids, clock);
      CarriedTerm(TermOf(db, was), clock.now);
      InsertKeeps(revoked, ids.row, minted.value, FamilyOf(db, id), clock.now, family, term);
    }
  }

  lemma IssueRespects(db: Db, env: Env, customer: Id, package: Id, given: seq<string>, ttl: int, ids: NewIds,
                      clock: Clock, family: Option<Id>, term: int)
    requires Holds(db, family, term)
    ensures Respects(Issue(db, env, customer, package, given, ttl, ids, clock), family, term)
  {
    hide Normalized, Acceptable, DomainCountOk, FeaturesSellable, UniqueLicIds, EffectiveTtlSeconds,
      StampedRenewUntil, IntervalOrOnce, ClampTtlToTerm, SignedExpiry;
    var out := Issue(db, env, customer, package, given, ttl, ids, clock);
    if out.minted.Some? {
      InsertKeeps(db, ids.row, out.db.licenses[ids.row], ids.row, clock.now, family, term);
    }
  }

  lemma IssueSnapshotRespects(db: Db, env: Env, input: Snapshot, ids: NewIds, clock: Clock, family: Option<Id>,
                              term: int)
    requires Holds(db, family, term)
    ensures Respects(IssueSnapshot(db, env, input, ids, clock), family, term)
  {
    hide FromSnapshot, UniqueLicIds;
    var minted := FromSnapshot(db, env, input, ids, clock);
    if minted.Ok? {
      SnapshotFacts(db, env, input, ids, clock);
      InsertKeeps(db, ids.row, minted.value, ids.row, clock.now, family, term);
    }
  }

  lemma RenewRespects(db: Db, env: Env, id: Id, ttl: int, lic: Id, now: int, family: Option<Id>, term: int)
    requires Holds(db, family, term)
    requires LeavesTerm(db, DoRenew(id, ttl, lic, now), family, term)
    ensures Respects(Renew(db, env, id, ttl, lic, now), family, term)
  {
    hide FeaturesKnown, UniqueLicIds, EffectiveTtlSeconds, ClampTtlToTerm;
    var out := Renew(db, env, id, ttl, lic, now);
    if out.minted.Some? {
      UpdateKeeps(db, id, out.db.licenses[id], family, term);
    }
  }

  lemma RefreshRowRespects(db: Db, env: Env, id: Id, origin: Origin, allows: bool, now: int, family: Option<Id>,
                           term: int)
    requires Holds(db, family, term) && id in db.licenses && now > 0
    ensures Respects(RefreshRow(db, env, id, origin, allows, now), family, term)
  {
    hide OriginRejected, UniqueLicIds, ReminderDue, EffectiveTtlSeconds;
    var out := RefreshRow(db, env, id, origin, allows, now);
    OthersDiffer(db, id);
    if out.minted.Some? {
      UpdateKeeps(db, id, out.db.licenses[id], family, term);
    }
  }

  lemma RemovePackageRespects(db: Db, id: Id, family: Option<Id>, term: int)
    requires Holds(db, family, term)
    ensures Respects(RemovePackage(db, id), family, term)
  {
    var out := RemovePackage(db, id).db;
    assert out.licenses.Keys == db.licenses.Keys;
    forall row | row in out.licenses ensures out.licenses[row].licId == db.licenses[row].licId {}
    forall i, j | i in out.licenses && j in out.licenses && i != j
      ensures out.licenses[i].licId != out.licenses[j].licId {
      assert db.licenses[i].licId != db.licenses[j].licId;
    }
  }

  predicate Swaps(op: Op) {
    op.DoRegenerate? || op.DoRebind? || op.DoPortalRegenerate?
  }

  lemma SwapCallsRespect(db: Db, call: Call, family: Option<Id>, term: int)
    requires Holds(db, family, term) && ClockRuns(call.op) && Swaps(call.op)
    ensures Respects(Next(db, call), family, term)
  {
    hide Swap, Normalized, Acceptable, IsTermActive, UniqueLicIds, TermOf, PackageWithdrawn, FeaturesKnown;
    match call.op
    case DoRegenerate(id, ids, clock) =>
      if id in db.licenses && IsTermActive(TermOf(db, db.licenses[id]), clock.now) {
        var was := db.licenses[id];
        SwapRespects(db, call.env, id, was.domains, was.domains != [], ids, clock, family, term);
      }
    case DoRebind(id, domains, ids, clock) =>
      if id in db.licenses && IsTermActive(TermOf(db, db.licenses[id]), clock.now) {
        SwapRespects(db, call.env, id, Normalized(domains), true, ids, clock, family, term);
      }
    case DoPortalRegenerate(owner, id, ids, clock) =>
      if id in db.licenses && IsTermActive(TermOf(db, db.licenses[id]), clock.now) {
        var was := db.licenses[id];
        SwapRespects(db, call.env, id, was.domains, was.domains != [], ids, clock, family, term);
      }
    case _ =>
  }

  lemma NextRespects(db: Db, call: Call, family: Option<Id>, term: int)
    requires Holds(db, family, term) && ClockRuns(call.op) && LeavesTerm(db, call.op, family, term)
    ensures Respects(Next(db, call), family, term)
  {
    hide Issue, IssueSnapshot, Renew, RefreshRow, Regenerate, Rebind, PortalRegenerate, RemovePackage, UniqueLicIds;
    match call.op
    case DoIssue(c, p, given, ttl, ids, clock) => IssueRespects(db, call.env, c, p, given, ttl, ids, clock, family,
                                                                term);
    case DoIssueSnapshot(input, ids, clock) => IssueSnapshotRespects(db, call.env, input, ids, clock, family, term);
    case DoRegenerate(_, _, _) => SwapCallsRespect(db, call, family, term);
    case DoRebind(_, _, _, _) => SwapCallsRespect(db, call, family, term);
    case DoPortalRegenerate(_, _, _, _) => SwapCallsRespect(db, call, family, term);
    case DoRenew(id, ttl, lic, now) => RenewRespects(db, call.env, id, ttl, lic, now, family, term);
    case DoRevoke(id) =>
      if id in db.licenses {
        OthersDiffer(db, id);
        UpdateKeeps(db, id, db.licenses[id].(status := Revoked), family, term);
      }
    case DoRefresh(lic, origin, allows, now) =>
      if exists id :: Carries(db, id, lic) {
        var id :| Carries(db, id, lic) && Refresh(db, call.env, lic, origin, allows, now)
          == RefreshRow(db, call.env, id, origin, allows, now);
        RefreshRowRespects(db, call.env, id, origin, allows, now, family, term);
      }
    case DoPutPackage(_, _) =>
    case DoRemovePackage(id) => RemovePackageRespects(db, id, family, term);
    case DoPutCustomer(_, _) =>
  }

  /**
   Along any run of issues, refreshes, swaps, revocations and package or customer edits that leaves
   a family's term alone, every token minted for it ends with the term, and every row keeps it.
   */
  lemma {:induction false} FamilyKeepsTerm(db: Db, calls: seq<Call>, family: Option<Id>, term: int)
    requires Holds(db, family, term) && Quiet(db, calls, family, term)
    ensures Holds(Run(db, calls), family, term)
    ensures forall m | m in Mints(db, calls) && Some(m.family) == family :: MintWithin(m, term)
    decreases |calls|
  {
    hide Holds, MintWithin, Next;
    if calls != [] {
      NextRespects(db, calls[0], family, term);
      FamilyKeepsTerm(Next(db, calls[0]).db, calls[1..], family, term);
    }
  }

  /** A package issue opens a family of one row, whose first token already ends with its term. */
  lemma IssueOpensFamily(db: Db, env: Env, customer: Id, package: Id, given: seq<string>, ttl: int, ids: NewIds,
                         clock: Clock)
    requires Valid(db) && 0 <= clock.now <= clock.signed
    requires Issue(db, env, customer, package, given, ttl, ids, clock).minted.Some?
    ensures var out := Issue(db, env, customer, package, given, ttl, ids, clock);
            var term := StampedRenewUntil(IntervalOrOnce(db.packages[package].billingInterval), clock.now);
            Respects(out, Some(ids.row), term) && out.minted.value.family == ids.row
  {
    hide Normalized, Acceptable, DomainCountOk, FeaturesSellable, UniqueLicIds, EffectiveTtlSeconds;
    var out := Issue(db, env, customer, package, given, ttl, ids, clock);
    PutKeepsUnique(db.licenses, ids.row, out.db.licenses[ids.row]);
    forall id | id in db.licenses ensures FamilyOf(out.db, id) != ids.row {
      assert db.family[id] in db.family.Values;
    }
  }

  /** The paid-term guarantee, from the issue to the last token of the family. */
  lemma FamilyNeverOutlivesTerm(
    db: Db, env: Env, customer: Id, package: Id, given: seq<string>, ttl: int, ids: NewIds, clock: Clock,
      calls: seq<Call>)
    requires Valid(db) && 0 <= clock.now <= clock.signed
    requires Issue(db, env, customer, package, given, ttl, ids, clock).minted.Some?
    requires var out := Issue(db, env, customer, package, given, ttl, ids, clock);
             Quiet(out.db, calls, Some(ids.row),
                   StampedRenewUntil(IntervalOrOnce(db.packages[package].billingInterval), clock.now))
    ensures var out := Issue(db, env, customer, package, given, ttl, ids, clock);
            var term := StampedRenewUntil(IntervalOrOnce(db.packages[package].billingInterval), clock.now);
            && MintWithin(out.minted.value, term)
            && (forall m | m in Mints(out.db, calls) && m.family == ids.row :: MintWithin(m, term))
            && HoldsTerm(Run(out.db, calls), Some(ids.row), term)
  {
    var out := Issue(db, env, customer, package, given, ttl, ids, clock);
    IssueOpensFamily(db, env, customer, package, given, ttl, ids, clock);
    FamilyKeepsTerm(out.db, calls, Some(ids.row),
                    StampedRenewUntil(IntervalOrOnce(db.packages[package].billingInterval), clock.now));
  }

  /** A sale mints from its own snapshot; it too opens a family of one row that ends with its term. */
  lemma SaleOpensFamily(db: Db, env: Env, input: Snapshot, ids: NewIds, clock: Clock)
    requires Valid(db) && 0 <= clock.now <= clock.signed && input.renewUntil == None
    requires IssueSnapshot(db, env, input, ids, clock).minted.Some?
    ensures var out := IssueSnapshot(db, env, input, ids, clock);
            var term := StampedRenewUntil(IntervalOrOnce(input.billingInterval), clock.now);
            Respects(out, Some(ids.row), term) && out.minted.value.family == ids.row
  {
    var out := IssueSnapshot(db, env, input, ids, clock);
    SnapshotFacts(db, env, input, ids, clock);
    hide FromSnapshot, UniqueLicIds;
    PutKeepsUnique(db.licenses, ids.row, out.db.licenses[ids.row]);
    forall id | id in db.licenses ensures FamilyOf(out.db, id) != ids.row {
      assert db.family[id] in db.family.Values;
    }
  }

  /**
   The same guarantee for a licence that was sold, with one clock reading per operation: no token of its
   family ever expires after the term stamped at the sale, nor lives longer than the signer's maximum.
   */
  lemma SoldFamilyNeverOutlivesTerm(db: Db, env: Env, input: Snapshot, ids: NewIds, clock: Clock, calls: seq<Call>)
    requires Valid(db) && 0 <= clock.now == clock.signed && input.renewUntil == None
    requires IntervalOrOnce(input.billingInterval) != Lifetime
    requires IssueSnapshot(db, env, input, ids, clock).minted.Some?
    requires var out := IssueSnapshot(db, env, input, ids, clock);
             Quiet(out.db, calls, Some(ids.row), StampedRenewUntil(IntervalOrOnce(input.billingInterval), clock.now))
    ensures var out := IssueSnapshot(db, env, input, ids, clock);
            var term := StampedRenewUntil(IntervalOrOnce(input.billingInterval), clock.now);
            && out.minted.value.token.exp <= term
            && (forall m | m in Mints(out.db, calls) && m.family == ids.row && m.token.iat == m.clock ::
                  m.token.exp <= term)
            && (forall m | m in Mints(out.db, calls) && m.family == ids.row ::
                  m.token.exp - m.token.iat <= SAFE_MAX_TTL)
  {
    SaleOpensFamily(db, env, input, ids, clock);
    var out := IssueSnapshot(db, env, input, ids, clock);
    var term := StampedRenewUntil(IntervalOrOnce(input.billingInterval), clock.now);
    FamilyKeepsTerm(out.db, calls, Some(ids.row), term);
    SnapshotFacts(db, env, input, ids, clock);
    hide FromSnapshot, Run, Mints, Quiet, Holds;
    assert forall m | m in Mints(out.db, calls) && Some(m.family) == Some(ids.row) :: MintWithin(m, term);
  }

  // ---- The two clock readings of a mint ------------------------------------

  /** A row minted from a package outlives its stamped term exactly when it is not signed in time. */
  lemma IssuedRowOutlivesTermExactly(
    db: Db, env: Env, customer: Id, package: Id, given: seq<string>, ttl: int, ids: NewIds, clock: Clock)
    requires 0 <= clock.now <= clock.signed
    requires Issue(db, env, customer, package, given, ttl, ids, clock).minted.Some?
    ensures var pkg := db.packages[package];
            var wanted := if ttl != 0 then ttl else EffectiveTtlSeconds(pkg.billingInterval, pkg.ttlOverride);
            var row := Issue(db, env, customer, package, given, ttl, ids, clock).db.licenses[ids.row];
            row.renewUntil > 0 ==>
              (row.expiresAt <= row.renewUntil
               <==> SignedInTime(Some(Finite(wanted)), row.renewUntil, clock.now, clock.signed))
  {
    hide Normalized, Acceptable, DomainCountOk, FeaturesSellable, IdsFree;
  }

  /** The same for every mint from a snapshot whose boundary is still ahead: sales and swaps alike. */
  lemma SnapshotMintOutlivesTermExactly(db: Db, env: Env, input: Snapshot, ids: NewIds, clock: Clock)
    requires 0 <= clock.now <= clock.signed && FromSnapshot(db, env, input, ids, clock).Ok?
    requires clock.now < SnapshotRenewUntil(input, clock.now)
    ensures var lic := FromSnapshot(db, env, input, ids, clock).value;
            var asked := match input.ttlSeconds case Some(n) => Some(Finite(n)) case None => None;
            lic.expiresAt <= lic.renewUntil <==> SignedInTime(asked, lic.renewUntil, clock.now, clock.signed)
  {
    hide SnapshotGrant, IdsFree;
  }

  /** A sale without a carried boundary, on the row it inserts. */
  lemma SoldRowOutlivesTermExactly(db: Db, env: Env, input: Snapshot, ids: NewIds, clock: Clock)
    requires 0 <= clock.now <= clock.signed && IssueSnapshot(db, env, input, ids, clock).minted.Some?
    requires input.renewUntil == None && IntervalOrOnce(input.billingInterval) != Lifetime
    ensures var row := IssueSnapshot(db, env, input, ids, clock).db.licenses[ids.row];
            var asked := match input.ttlSeconds case Some(n) => Some(Finite(n)) case None => None;
            row.expiresAt <= row.renewUntil <==> SignedInTime(asked, row.renewUntil, clock.now, clock.signed)
  {
    SnapshotMintOutlivesTermExactly(db, env, input, ids, clock);
    hide FromSnapshot, SignedInTime;
  }

  /**
   A regenerate, rebind or portal regenerate asks for no lifetime, so only the clock or the signer's maximum
   matters.
   */
  lemma SwapOutlivesTermExactly(db: Db, env: Env, id: Id, domains: seq<string>, bound: bool, ids: NewIds, clock: Clock)
    requires 0 <= clock.now <= clock.signed && id in db.licenses
    requires IsTermActive(TermOf(db, db.licenses[id]), clock.now)
    requires Swap(db, env, id, domains, bound, ids, clock).minted.Some?
    ensures var row := Swap(db, env, id, domains, bound, ids, clock).db.licenses[ids.row];
            row.renewUntil != INFINITE_TERM ==>
              (row.expiresAt <= row.renewUntil
               <==> clock.signed == clock.now || clock.signed + SAFE_MAX_TTL <= row.renewUntil)
  {
    var was := db.licenses[id];
    var revoked := db.(licenses := db.licenses[id := was.(status := Revoked)]);
    CarriedTerm(TermOf(db, was), clock.now);
    if CarriedRenewUntil(TermOf(db, was)) != INFINITE_TERM {
      SnapshotMintOutlivesTermExactly(revoked, env, Carried(db, was, domains, bound), ids, clock);
    }
    hide SnapshotGrant, ClampTtlToTerm, SignedExpiry, IsTermActive;
  }

  const CATALOGUE := Env({"a"}, {"a"}, {}, 3600)

  /** One customer with one licence just issued from one package. */
  function OneLicence(interval: string, now: int): Db {
    var pkg := Package(true, interval, None, ["a"], false, 0);
    var end := now + TermSeconds(IntervalOrOnce(interval));
    var row := License(0, 0, Some(0), ["a"], [], Active, Token(0, ["a"], [], now, end), now, end, end, 0, 0, 0);
    Db(map[0 := row], map[0 := pkg], map[0 := Customer("", [])], map[0 := 0])
  }

  ghost predicate OutlivesByASecond(out: Outcome, row: Id) {
    && out.minted.Some? && out.minted.value.row == row && row in out.db.licenses
    && out.db.licenses[row].expiresAt == out.db.licenses[row].renewUntil + 1
  }

  lemma FeaturesOnce(f: string)
    ensures Distinct([f]) == [f]
  {
    assert [f][..0] == [];
  }

  lemma IssueTicks(db: Db, now: int)
    requires now > 0 && db == OneLicence("monthly", now)
    ensures OutlivesByASecond(Issue(db, CATALOGUE, 0, 0, [], 0, NewIds(1, 1, 0), Clock(now, now + 1)), 1)
  {
    assert Normalized([]) == [] && Sites([]) == {};
    hide AddHosts, Sites;
  }

  lemma SaleTicks(db: Db, now: int)
    requires now > 0 && db == OneLicence("monthly", now)
    ensures var sale := Snapshot(0, ["a"], [], false, None, None, Some(0), "monthly", None, false, 0);
            OutlivesByASecond(IssueSnapshot(db, CATALOGUE, sale, NewIds(1, 1, 0), Clock(now, now + 1)), 1)
  {
    FeaturesOnce("a");
    assert Normalized([]) == [];
    hide AddHosts;
  }

  lemma RegenerateOnce(now: int, gap: nat)
    requires now > 0
    ensures var out := Regenerate(OneLicence("monthly", now), CATALOGUE, 0, NewIds(1, 1, 0), Clock(now, now + gap));
            var was := OneLicence("monthly", now).licenses[0];
            var token := Token(1, ["a"], [], now + gap, now + gap + 30 * DAY);
            out.minted.Some? && out.minted.value.row == 1
            && out.db == OneLicence("monthly", now).(
                 licenses := map[0 := was.(status := Revoked),
                                 1 := was.(licId := 1, token := token, issuedAt := token.iat, expiresAt := token.exp)],
                 family := map[0 := 0, 1 := 0])
  {
    FeaturesOnce("a");
    assert Normalized([]) == [];
    hide AddHosts;
  }

  /** A clock that moves by one second before the signer reads it: issue, sale and regenerate outlive their term. */
  lemma ClockTickOutlivesTerm(now: int)
    requires now > 0
    ensures Valid(OneLicence("monthly", now))
    ensures var db, ids, clock := OneLicence("monthly", now), NewIds(1, 1, 0), Clock(now, now + 1);
            var sale := Snapshot(0, ["a"], [], false, None, None, Some(0), "monthly", None, false, 0);
            && OutlivesByASecond(Issue(db, CATALOGUE, 0, 0, [], 0, ids, clock), 1)
            && OutlivesByASecond(IssueSnapshot(db, CATALOGUE, sale, ids, clock), 1)
            && OutlivesByASecond(Regenerate(db, CATALOGUE, 0, ids, clock), 1)
  {
    hide Issue, IssueSnapshot, Regenerate;
    var db, ids, clock := OneLicence("monthly", now), NewIds(1, 1, 0), Clock(now, now + 1);
    IssueTicks(db, now);
    SaleTicks(db, now);
    RegenerateOnce(now, 1);
  }

  // ---- Renewals and the stored boundary ------------------------------------

  /** How long a renewal lasts when its package is not lifetime. */
  function RenewedSeconds(pkg: Option<Package>, ttl: int, defaultTtl: int): int {
    match pkg
    case None => Min(if ttl > 0 then ttl else defaultTtl, SAFE_MAX_TTL)
    case Some(p) =>
      var own := EffectiveTtlSeconds(p.billingInterval, p.ttlOverride);
      var interval := IntervalOrOnce(p.billingInterval);
      Min(Min(if ttl > 0 then ttl else own, if interval == Once then own else TermSeconds(interval)), SAFE_MAX_TTL)
  }

  predicate EarlierThan(a: Seconds, b: Seconds) {
    a.Finite? && Before(a.n, b)
  }

  /**
   A renewal is meant to extend the term. It moves the boundary back exactly when the package is not
   lifetime and what is left of the term is longer than what the renewal grants.
   */
  lemma RenewalMovesBoundaryBackExactly(db: Db, env: Env, id: Id, ttl: int, lic: Id, now: int)
    requires now > 0 && ttl >= 0 && env.defaultTtl > 0
    requires id in db.licenses && Renew(db, env, id, ttl, lic, now).minted.Some?
    ensures var was, out := db.licenses[id], Renew(db, env, id, ttl, lic, now);
            var before := EffectiveRenewUntil(TermOf(db, was));
            var after := EffectiveRenewUntil(TermOf(out.db, out.db.licenses[id]));
            var granted := now + RenewedSeconds(LinkedPackage(db, was.package), ttl, env.defaultTtl);
            && after == (if RenewsLifetime(db, was) then Infinite else Finite(granted))
            && (EarlierThan(after, before) <==> !RenewsLifetime(db, was) && Before(granted, before))
  {
    hide FeaturesKnown, PackageWithdrawn, IntervalOrOnce;
  }

  /** An hour's renewal of a fresh yearly term cuts it to that hour. */
  lemma RenewalMayCutYearlyTerm(now: int)
    requires now > 0
    ensures var db := OneLicence("yearly", now);
            var out := Renew(db, CATALOGUE, 0, 3600, 1, now);
            Valid(db) && out.minted.Some? && out.db.licenses[0].renewUntil == now + 3600
  {
  }

  /** Rows the call leaves alone keep their dates, and the one it mints for ends with its stored term. */
  ghost predicate MintsOnTime(db: Db, out: Outcome) {
    forall id | id in out.db.licenses ::
      var row := out.db.licenses[id];
      || (id in db.licenses && row.expiresAt == db.licenses[id].expiresAt
          && row.renewUntil == db.licenses[id].renewUntil)
      || (out.minted.Some?
          && var m := out.minted.value;
             row.renewUntil > 0 ==> row.expiresAt <= row.renewUntil + (m.token.iat - m.clock))
  }

  /** A sale's boundary, where it carries one, is still ahead. */
  predicate AheadOfTerm(op: Op) {
    op.DoIssueSnapshot? && SnapshotRenewUntil(op.input, op.clock.now) > 0 ==>
      op.clock.now < SnapshotRenewUntil(op.input, op.clock.now)
  }

  lemma SwapMintsOnTime(db: Db, env: Env, id: Id, domains: seq<string>, bound: bool, ids: NewIds, clock: Clock)
    requires id in db.licenses && 0 <= clock.now <= clock.signed
    requires IsTermActive(TermOf(db, db.licenses[id]), clock.now)
    ensures MintsOnTime(db, Swap(db, env, id, domains, bound, ids, clock))
  {
    var was := db.licenses[id];
    var revoked := db.(licenses := db.licenses[id := was.(status := Revoked)]);
    var input := Carried(db, was, domains, bound);
    CarriedTerm(TermOf(db, was), clock.now);
    if FromSnapshot(revoked, env, input, ids, clock).Ok? {
      SnapshotFacts(revoked, env, input, ids, clock);
    }
    hide FromSnapshot, IsTermActive, CarriedRenewUntil;
  }

  lemma SwapCallsMintOnTime(db: Db, call: Call)
    requires ClockRuns(call.op) && Swaps(call.op)
    ensures MintsOnTime(db, Next(db, call))
  {
    hide Swap, Normalized, Acceptable, FeaturesKnown, PackageWithdrawn, IsTermActive;
    var id := call.op.id;
    if id in db.licenses && IsTermActive(TermOf(db, db.licenses[id]), call.op.clock.now) {
      var was := db.licenses[id];
      SwapMintsOnTime(db, call.env, id, was.domains, was.domains != [], call.op.ids, call.op.clock);
      if call.op.DoRebind? {
        SwapMintsOnTime(db, call.env, id, Normalized(call.op.newDomains), true, call.op.ids, call.op.clock);
      }
    }
  }

  lemma RefreshMintsOnTime(db: Db, env: Env, id: Id, origin: Origin, allows: bool, now: int)
    requires id in db.licenses && now > 0
    ensures MintsOnTime(db, RefreshRow(db, env, id, origin, allows, now))
  {
    hide OriginRejected, ReminderDue, EffectiveTtlSeconds;
  }

  lemma RenewMintsOnTime(db: Db, env: Env, id: Id, ttl: int, lic: Id, now: int)
    ensures MintsOnTime(db, Renew(db, env, id, ttl, lic, now))
  {
    hide FeaturesKnown, PackageWithdrawn, EffectiveTtlSeconds, ClampTtlToTerm, SignedExpiry;
  }

  lemma IssueMintsOnTime(db: Db, env: Env, customer: Id, package: Id, given: seq<string>, ttl: int, ids: NewIds,
                         clock: Clock)
    requires 0 <= clock.now <= clock.signed
    ensures MintsOnTime(db, Issue(db, env, customer, package, given, ttl, ids, clock))
  {
    hide Normalized, Acceptable, DomainCountOk, FeaturesSellable, EffectiveTtlSeconds;
  }

  lemma NextMintsOnTime(db: Db, call: Call)
    requires ClockRuns(call.op) && AheadOfTerm(call.op)
    ensures MintsOnTime(db, Next(db, call))
  {
    hide Issue, FromSnapshot, Renew, RefreshRow, Regenerate, Rebind, PortalRegenerate;
    match call.op
    case DoIssue(c, p, given, ttl, ids, clock) => IssueMintsOnTime(db, call.env, c, p, given, ttl, ids, clock);
    case DoIssueSnapshot(input, ids, clock) =>
      if FromSnapshot(db, call.env, input, ids, clock).Ok? {
        SnapshotFacts(db, call.env, input, ids, clock);
      }
    case DoRegenerate(_, _, _) => SwapCallsMintOnTime(db, call);
    case DoRebind(_, _, _, _) => SwapCallsMintOnTime(db, call);
    case DoPortalRegenerate(_, _, _, _) => SwapCallsMintOnTime(db, call);
    case DoRenew(id, ttl, lic, now) => RenewMintsOnTime(db, call.env, id, ttl, lic, now);
    case DoRefresh(lic, origin, allows, now) =>
      if exists id :: Carries(db, id, lic) {
        var id :| Carries(db, id, lic) && Refresh(db, call.env, lic, origin, allows, now)
          == RefreshRow(db, call.env, id, origin, allows, now);
        RefreshMintsOnTime(db, call.env, id, origin, allows, now);
      }
    case _ =>
  }

  /** No stored token runs past its row's stored term by more than `gap`. */
  ghost predicate WithinStoredTerm(db: Db, gap: nat) {
    forall id | id in db.licenses && db.licenses[id].renewUntil > 0 ::
      db.licenses[id].expiresAt <= db.licenses[id].renewUntil + gap
  }

  /** Every mint of the run re-reads the clock at most `gap` later. */
  ghost predicate Prompt(db: Db, calls: seq<Call>, gap: nat)
    decreases |calls|
  {
    calls == [] ||
    (ClockRuns(calls[0].op) && AheadOfTerm(calls[0].op)
     && (var m := Next(db, calls[0]).minted; m.Some? ==> m.value.token.iat - m.value.clock <= gap)
     && Prompt(Next(db, calls[0]).db, calls[1..], gap))
  }

  /**
   Over any run of all operations, renewals included, the stored expiry of every row with a stored term
   stays within it, up to the gap between the two clock readings; with one reading per operation, exactly.
   */
  lemma {:induction false} StoredTokensEndWithTerm(db: Db, calls: seq<Call>, gap: nat)
    requires WithinStoredTerm(db, gap) && Prompt(db, calls, gap)
    ensures WithinStoredTerm(Run(db, calls), gap)
    decreases |calls|
  {
    if calls != [] {
      NextMintsOnTime(db, calls[0]);
      hide Next, ClockRuns, AheadOfTerm;
      StoredTokensEndWithTerm(Next(db, calls[0]).db, calls[1..], gap);
    }
  }

  // ---- Single rows over whole runs -----------------------------------------

  /** How one call may change a row that already exists. */
  ghost predicate RowEvolves(db: Db, out: Outcome, id: Id) {
    && id in db.licenses && id in out.db.licenses
    && FamilyOf(out.db, id) == FamilyOf(db, id)
    && (db.licenses[id].status == Revoked ==>
          out.db.licenses[id].status == Revoked && (out.minted.Some? ==> out.minted.value.row != id))
    && (out.reminded == Some(id) ==>
          !(db.licenses[id].reminderSentAt > 0) && out.db.licenses[id].reminderSentAt > 0
          && db.licenses[id].renewUntil != INFINITE_TERM)
  }

  lemma SwapEvolves(db: Db, env: Env, id: Id, domains: seq<string>, bound: bool, ids: NewIds, clock: Clock, row: Id)
    requires id in db.licenses && row in db.licenses && db.family.Keys == db.licenses.Keys
    ensures var out := Swap(db, env, id, domains, bound, ids, clock);
            RowEvolves(db, out, row) && out.db.licenses[row].reminderSentAt == db.licenses[row].reminderSentAt
            && out.reminded == None
  {
  }

  lemma SwapCallsEvolve(db: Db, call: Call, id: Id)
    requires Valid(db) && id in db.licenses && ClockRuns(call.op) && Swaps(call.op)
    ensures RowEvolves(db, Next(db, call), id)
    ensures !(call.op.DoRenew? && call.op.id == id) && db.licenses[id].reminderSentAt > 0 ==>
            Next(db, call).db.licenses[id].reminderSentAt > 0
  {
    hide Swap, Normalized, Acceptable, IsTermActive, UniqueLicIds;
    match call.op
    case DoRegenerate(target, ids, clock) =>
      if target in db.licenses {
        var was := db.licenses[target];
        SwapEvolves(db, call.env, target, was.domains, was.domains != [], ids, clock, id);
      }
    case DoRebind(target, domains, ids, clock) =>
      if target in db.licenses {
        SwapEvolves(db, call.env, target, Normalized(domains), true, ids, clock, id);
      }
    case DoPortalRegenerate(owner, target, ids, clock) =>
      if target in db.licenses {
        var was := db.licenses[target];
        SwapEvolves(db, call.env, target, was.domains, was.domains != [], ids, clock, id);
      }
    case _ =>
  }

  lemma NextEvolves(db: Db, call: Call, id: Id)
    requires Valid(db) && id in db.licenses && ClockRuns(call.op)
    ensures RowEvolves(db, Next(db, call), id)
    ensures !(call.op.DoRenew? && call.op.id == id) && db.licenses[id].reminderSentAt > 0 ==>
            Next(db, call).db.licenses[id].reminderSentAt > 0
  {
    hide FromSnapshot, Regenerate, Rebind, PortalRegenerate, UniqueLicIds, Issue, Refresh, Renew;
    match call.op
    case DoIssue(c, p, given, ttl, ids, clock) =>
      IssueEvolves(db, call.env, c, p, given, ttl, ids, clock, id);
    case DoIssueSnapshot(input, ids, clock) =>
      if FromSnapshot(db, call.env, input, ids, clock).Ok? {
        SnapshotFacts(db, call.env, input, ids, clock);
      }
    case DoRegenerate(_, _, _) => SwapCallsEvolve(db, call, id);
    case DoRebind(_, _, _, _) => SwapCallsEvolve(db, call, id);
    case DoPortalRegenerate(_, _, _, _) => SwapCallsEvolve(db, call, id);
    case DoRenew(target, ttl, lic, now) =>
      RenewEvolves(db, call.env, target, ttl, lic, now, id);
    case DoRefresh(lic, origin, allows, now) =>
      if exists row :: Carries(db, row, lic) {
        var row :| Carries(db, row, lic);
        RefreshRowEvolves(db, call.env, lic, row, origin, allows, now, id);
      } else {
        RefreshUnknown(db, call.env, lic, origin, allows, now);
      }
    case _ =>
  }

  lemma IssueEvolves(db: Db, env: Env, customer: Id, package: Id, given: seq<string>, ttl: int, ids: NewIds,
                     clock: Clock, id: Id)
    requires Valid(db) && id in db.licenses
    ensures var out := Issue(db, env, customer, package, given, ttl, ids, clock);
            RowEvolves(db, out, id) && out.db.licenses[id] == db.licenses[id] && out.reminded == None
  {
  }

  lemma RenewEvolves(db: Db, env: Env, target: Id, ttl: int, lic: Id, now: int, id: Id)
    requires Valid(db) && id in db.licenses
    ensures var out := Renew(db, env, target, ttl, lic, now);
            RowEvolves(db, out, id) && (id != target ==> out.db.licenses[id] == db.licenses[id]) && out.reminded == None
  {
  }

  lemma RefreshUnknown(db: Db, env: Env, lic: Id, origin: Origin, allows: bool, now: int)
    requires !exists row :: Carries(db, row, lic)
    ensures Refresh(db, env, lic, origin, allows, now) == Refuse(db, Refused)
  {
  }

  /** In a valid database the licence id finds its one row. */
  lemma RefreshFindsRow(db: Db, env: Env, lic: Id, row: Id, origin: Origin, allows: bool, now: int)
    requires Valid(db) && Carries(db, row, lic)
    ensures Refresh(db, env, lic, origin, allows, now) == RefreshRow(db, env, row, origin, allows, now)
  {
  }

  lemma RefreshRowEvolves(db: Db, env: Env, lic: Id, row: Id, origin: Origin, allows: bool, now: int, id: Id)
    requires Valid(db) && id in db.licenses && now > 0 && Carries(db, row, lic)
    ensures var out := Refresh(db, env, lic, origin, allows, now);
            RowEvolves(db, out, id)
            && (db.licenses[id].reminderSentAt > 0 ==> out.db.licenses[id].reminderSentAt > 0)
            && (out.reminded.Some? ==> out.reminded.value in db.licenses)
  {
    hide Refresh, OriginRejected, UniqueLicIds, EffectiveTtlSeconds, ClampTtlToTerm, SignedExpiry;
    RefreshFindsRow(db, env, lic, row, origin, allows, now);
  }

  lemma NextRemindsKnownRows(db: Db, call: Call)
    requires Valid(db) && ClockRuns(call.op)
    ensures Next(db, call).reminded.Some? ==> call.op.DoRefresh? && Next(db, call).reminded.value in db.licenses
  {
    hide FromSnapshot, Normalized, Acceptable, FeaturesKnown, FeaturesSellable, IsTermActive, UniqueLicIds,
      EffectiveTtlSeconds, ClampTtlToTerm, SignedExpiry, OriginRejected, DomainCountOk, PackageWithdrawn,
        StampedRenewUntil;
  }

  ghost predicate ClocksRun(calls: seq<Call>) {
    forall c | c in calls :: ClockRuns(c.op)
  }

  /** A revoked row is never revived, and no token is minted for it again. */
  lemma {:induction false} RevocationIsPermanent(db: Db, calls: seq<Call>, id: Id)
    requires Valid(db) && ClocksRun(calls)
    requires id in db.licenses && db.licenses[id].status == Revoked
    ensures id in Run(db, calls).licenses && Run(db, calls).licenses[id].status == Revoked
    ensures forall m | m in Mints(db, calls) :: m.row != id
    decreases |calls|
  {
    hide Next, Valid;
    if calls != [] {
      NextKeepsValid(db, calls[0]);
      NextEvolves(db, calls[0], id);
      RevocationIsPermanent(Next(db, calls[0]).db, calls[1..], id);
    }
  }

  lemma NextKeepsValid(db: Db, call: Call)
    requires Valid(db) && ClockRuns(call.op)
    ensures Valid(Next(db, call).db)
  {
    hide Next, Valid;
    NextRespects(db, call, None, INFINITE_TERM);
  }

  /** Between two renewals of a row its customer is reminded at most once. */
  lemma {:induction false} RemindedAtMostOnce(db: Db, calls: seq<Call>, id: Id)
    requires Valid(db) && ClocksRun(calls)
    requires forall c | c in calls :: !(c.op.DoRenew? && c.op.id == id)
    ensures Reminders(db, calls, id) <= 1
    ensures id in db.licenses && db.licenses[id].reminderSentAt > 0 ==> Reminders(db, calls, id) == 0
    decreases |calls|
  {
    hide Next, Valid;
    if calls != [] {
      var out := Next(db, calls[0]);
      NextKeepsValid(db, calls[0]);
      if id in db.licenses {
        NextEvolves(db, calls[0], id);
      } else {
        NextRemindsKnownRows(db, calls[0]);
      }
      RemindedAtMostOnce(out.db, calls[1..], id);
    }
  }

  // ---- Perpetual licences --------------------------------------------------

  /** No call on a row of the family is refused as term-ended, and none triggers a reminder. */
  ghost predicate NeverLapses(db: Db, calls: seq<Call>, family: Id)
    decreases |calls|
  {
    calls == [] ||
    (var out := Next(db, calls[0]);
     && (out.error == Some(TermEnded) ==> !ActsOn(db, calls[0].op, family))
     && (out.reminded.Some? ==> FamilyOf(db, out.reminded.value) != family)
     && NeverLapses(out.db, calls[1..], family))
  }

  ghost predicate ActsOn(db: Db, op: Op, family: Id) {
    match op
    case DoRegenerate(id, _, _) => id in db.licenses && FamilyOf(db, id) == family
    case DoRebind(id, _, _, _) => id in db.licenses && FamilyOf(db, id) == family
    case DoPortalRegenerate(_, id, _, _) => id in db.licenses && FamilyOf(db, id) == family
    case DoRefresh(lic, _, _, _) => exists id :: Carries(db, id, lic) && FamilyOf(db, id) == family
    case _ => false
  }

  lemma PerpetualStep(db: Db, call: Call, family: Id)
    requires Holds(db, Some(family), INFINITE_TERM) && ClockRuns(call.op)
    ensures var out := Next(db, call);
            && (out.error == Some(TermEnded) ==> !ActsOn(db, call.op, family))
            && (out.reminded.Some? ==> FamilyOf(db, out.reminded.value) != family)
  {
    hide FromSnapshot, Normalized, Acceptable, FeaturesKnown, FeaturesSellable, UniqueLicIds, EffectiveTtlSeconds,
      ClampTtlToTerm, SignedExpiry, OriginRejected, DomainCountOk, PackageWithdrawn, StampedRenewUntil, Refresh,
        Issue, Renew;
    var op := call.op;
    if op.DoRefresh? && exists id :: Carries(db, id, op.lic) {
      var id :| Carries(db, id, op.lic);
      RefreshFindsRow(db, call.env, op.lic, id, op.origin, op.limiterAllows, op.now);
      OthersDiffer(db, id);
      assert forall other | Carries(db, other, op.lic) :: other == id;
    } else if op.DoRefresh? {
      RefreshUnknown(db, call.env, op.lic, op.origin, op.limiterAllows, op.now);
    } else {
      NextRemindsKnownRows(db, call);
      if Next(db, call).error == Some(TermEnded) {
        SwapNotTermEnded(db, call);
      }
    }
  }

  lemma SwapNotTermEnded(db: Db, call: Call)
    requires !call.op.DoRefresh? && Next(db, call).error == Some(TermEnded)
    ensures call.op.DoRegenerate? || call.op.DoRebind? || call.op.DoPortalRegenerate?
    ensures call.op.id in db.licenses
    ensures !IsTermActive(TermOf(db, db.licenses[call.op.id]), call.op.clock.now)
  {
    hide Normalized, Acceptable, FeaturesKnown, FeaturesSellable, IsTermActive, TermOf,
      ClampTtlToTerm, SignedExpiry, DomainCountOk, PackageWithdrawn, StampedRenewUntil;
  }

  /**
   A family stored as perpetual stays perpetual, is never refused as term-ended and never reminded,
   along any run whose renewals of it find a lifetime package.
   */
  lemma {:induction false} PerpetualNeverLapses(db: Db, calls: seq<Call>, family: Id)
    requires Holds(db, Some(family), INFINITE_TERM) && Quiet(db, calls, Some(family), INFINITE_TERM)
    ensures NeverLapses(db, calls, family)
    ensures HoldsTerm(Run(db, calls), Some(family), INFINITE_TERM)
    decreases |calls|
  {
    hide Next, ActsOn, Valid;
    if calls != [] {
      NextRespects(db, calls[0], Some(family), INFINITE_TERM);
      PerpetualStep(db, calls[0], family);
      PerpetualNeverLapses(Next(db, calls[0]).db, calls[1..], family);
    }
  }

  /** A successful renewal leaves a perpetual licence perpetual exactly when its package is linked and lifetime. */
  lemma RenewKeepsPerpetualExactly(db: Db, env: Env, id: Id, ttl: int, lic: Id, now: int)
    requires now > 0 && ttl >= 0 && env.defaultTtl > 0
    requires id in db.licenses && Renew(db, env, id, ttl, lic, now).minted.Some?
    requires db.licenses[id].renewUntil == INFINITE_TERM
    ensures Renew(db, env, id, ttl, lic, now).db.licenses[id].renewUntil == INFINITE_TERM
            <==> RenewsLifetime(db, db.licenses[id])
  {
  }

  /** Deleting a perpetual licence's package, lifetime or not, makes its next renewal end at the configured default. */
  lemma RenewalMayEndPerpetual(db: Db, env: Env, id: Id, lic: Id, now: int)
    requires now > 0 && 0 < env.defaultTtl <= SAFE_MAX_TTL
    requires id in db.licenses && db.licenses[id].status == Active && db.licenses[id].renewUntil == INFINITE_TERM
    requires LinkedPackage(db, db.licenses[id].package).Some? && FeaturesKnown(db.licenses[id].features, env)
    requires forall other | other in db.licenses && other != id :: db.licenses[other].licId != lic
    ensures var removed := RemovePackage(db, db.licenses[id].package.value);
            var out := Renew(removed.db, env, id, 0, lic, now);
            && removed.error.None? && removed.db.licenses[id].renewUntil == INFINITE_TERM
            && out.minted.Some? && out.db.licenses[id].renewUntil == now + env.defaultTtl
  {
  }

  // ---- Credential swaps ----------------------------------------------------

  ghost function LiveRows(db: Db, family: Id): set<Id> {
    set id | id in db.licenses && FamilyOf(db, id) == family && db.licenses[id].status == Active
  }

  lemma SwapMovesLive(db: Db, env: Env, id: Id, domains: seq<string>, bound: bool, ids: NewIds, clock: Clock)
    requires Valid(db) && id in db.licenses
    requires Swap(db, env, id, domains, bound, ids, clock).minted.Some?
    ensures var out := Swap(db, env, id, domains, bound, ids, clock);
            var family := FamilyOf(db, id);
            && id in out.db.licenses && out.db.licenses[id].status == Revoked
            && LiveRows(out.db, family) == LiveRows(db, family) - {id} + {ids.row}
            && |LiveRows(out.db, family)| ==
               |LiveRows(db, family)| + (if db.licenses[id].status == Revoked then 1 else 0)
  {
    hide FromSnapshot, Carried, UniqueLicIds, InLockstep;
    var out := Swap(db, env, id, domains, bound, ids, clock);
    var family := FamilyOf(db, id);
    var revoked := db.(licenses := db.licenses[id := db.licenses[id].(status := Revoked)]);
    SnapshotFacts(revoked, env, Carried(db, db.licenses[id], domains, bound), ids, clock);
    forall row | row in out.db.licenses && row != ids.row
      ensures row in db.licenses && FamilyOf(out.db, row) == FamilyOf(db, row) {}
    assert LiveRows(out.db, family) == LiveRows(db, family) - {id} + {ids.row};
    assert ids.row !in LiveRows(db, family);
  }

  /**
   A regenerate, rebind or portal regenerate replaces one live credential by one live credential. The
   regenerates accept an already revoked source, and exactly then the family gains a live credential.
   */
  lemma SwapLiveCredentials(db: Db, env: Env, op: Op)
    requires Valid(db) && Swaps(op) && Next(db, Call(env, op)).minted.Some?
    ensures var after := Next(db, Call(env, op)).db;
            op.id in db.licenses && op.id in after.licenses && after.licenses[op.id].status == Revoked
    ensures var after, family := Next(db, Call(env, op)).db, FamilyOf(db, op.id);
            && LiveRows(after, family) == LiveRows(db, family) - {op.id} + {op.ids.row}
            && |LiveRows(after, family)| ==
               |LiveRows(db, family)| + (if db.licenses[op.id].status == Revoked then 1 else 0)
            && (op.DoRebind? ==> db.licenses[op.id].status == Active)
  {
    hide Swap, Normalized, Acceptable, FeaturesKnown, PackageWithdrawn, IsTermActive, Valid, LiveRows;
    var was := db.licenses[op.id];
    if op.DoRebind? {
      SwapMovesLive(db, env, op.id, Normalized(op.newDomains), true, op.ids, op.clock);
    } else {
      SwapMovesLive(db, env, op.id, was.domains, was.domains != [], op.ids, op.clock);
    }
  }

  lemma RegenerateAgain(one: Db, now: int)
    requires one.packages == OneLicence("monthly", now).packages
    requires one.customers == OneLicence("monthly", now).customers
    requires 0 in one.licenses && one.licenses[0] == OneLicence("monthly", now).licenses[0].(status := Revoked)
    requires one.licenses.Keys == {0, 1} && one.licenses[1].licId == 1 && one.family == map[0 := 0, 1 := 0] && now > 0
    ensures var two := Regenerate(one, CATALOGUE, 0, NewIds(2, 2, 0), Clock(now, now));
            && two.minted.Some? && two.db.family == one.family[2 := 0]
            && two.db.licenses.Keys == {0, 1, 2} && two.db.licenses[0].status == Revoked
            && two.db.licenses[1] == one.licenses[1] && two.db.licenses[2].status == Active
  {
    FeaturesOnce("a");
    assert Normalized([]) == [];
    hide AddHosts;
  }

  /** Regenerating one licence twice leaves both successors live. */
  lemma RegeneratedTwiceLivesTwice(now: int)
    requires now > 0
    ensures var db := OneLicence("monthly", now);
            var one := Regenerate(db, CATALOGUE, 0, NewIds(1, 1, 0), Clock(now, now));
            var two := Regenerate(one.db, CATALOGUE, 0, NewIds(2, 2, 0), Clock(now, now));
            && Valid(db) && one.minted.Some? && two.minted.Some?
            && LiveRows(db, 0) == {0} && LiveRows(one.db, 0) == {1} && LiveRows(two.db, 0) == {1, 2}
  {
    hide Regenerate;
    RegenerateOnce(now, 0);
    RegenerateAgain(Regenerate(OneLicence("monthly", now), CATALOGUE, 0, NewIds(1, 1, 0), Clock(now, now)).db, now);
  }

  /** Regenerating a licence keeps its domains exactly when the stored list is in normal form, and always its flag. */
  lemma RegenerateKeepsDomainsExactly(db: Db, env: Env, id: Id, ids: NewIds, clock: Clock)
    requires id in db.licenses && Regenerate(db, env, id, ids, clock).minted.Some?
    requires NoneStartsBlank(db.licenses[id].domains)
    ensures var out := Regenerate(db, env, id, ids, clock);
            && ids.row in out.db.licenses
            && (out.db.licenses[ids.row].domains == db.licenses[id].domains <==> NormalForm(db.licenses[id].domains))
            && out.minted.value.token.domains == out.db.licenses[ids.row].domains
            && out.db.licenses[ids.row].flaggedAt == db.licenses[id].flaggedAt
  {
    hide Normalized, NormalForm, Acceptable, FeaturesKnown, FeaturesSellable, PackageWithdrawn, IsTermActive,
      ClampTtlToTerm, SignedExpiry, Distinct;
    ReplaysWholeExactly(db.licenses[id].domains);
  }

  // ---- What a caller reads off an answer -----------------------------------

  predicate ClockOk(clock: Clock) {
    0 <= clock.now <= clock.signed
  }

  /** The token handed out is the one now stored in the row, for the row's family and at this clock. */
  predicate MintsRow(out: Outcome, row: Id, clock: Clock) {
    && row in out.db.licenses && InLockstep(out.db.licenses[row]) && out.db.licenses[row].issuedAt == clock.signed
    && out.minted == Some(Mint(FamilyOf(out.db, row), row, out.db.licenses[row].token, clock.now))
  }

  /**
   A successful swap revokes the one row and adds the one successor: for the same customer, package,
   features and sharing flag, for the old hosts or those it is rebound to, in the same family and with the
   same boundary; its token ends with that boundary, up to the gap between the clock readings.
   */
  ghost predicate CredentialSwapped(db: Db, after: Db, id: Id, rebound: Option<seq<string>>, successor: License,
                                    ids: NewIds, clock: Clock) {
    && id in db.licenses && ids.row !in db.licenses
    && var was := db.licenses[id];
       && after.licenses == db.licenses[id := was.(status := Revoked)][ids.row := successor]
       && after.packages == db.packages && after.customers == db.customers
       && FamilyOf(after, ids.row) == FamilyOf(db, id)
       && successor.status == Active && successor.licId == ids.lic && successor.customer == was.customer
       && (forall f :: f in successor.features <==> f in was.features)
       && successor.domains == Normalized(if rebound.Some? then Normalized(rebound.value) else was.domains)
       && successor.package == (if LinkedPackage(db, was.package).Some? then was.package else None)
       && successor.flaggedAt == was.flaggedAt && successor.reminderSentAt == 0 && successor.createdMs == ids.createdMs
       && IsTermActive(TermOf(db, was), clock.now) && successor.renewUntil == CarriedRenewUntil(TermOf(db, was))
       && EffectiveRenewUntil(TermOf(after, successor)) == EffectiveRenewUntil(TermOf(db, was))
       && (successor.renewUntil > 0 ==> successor.expiresAt <= successor.renewUntil + (clock.signed - clock.now))
  }

  lemma SwapIsSwapped(db: Db, env: Env, id: Id, rebound: Option<seq<string>>, ids: NewIds, clock: Clock)
    requires ClockOk(clock) && id in db.licenses && IsTermActive(TermOf(db, db.licenses[id]), clock.now)
    requires rebound.Some? ==> Normalized(rebound.value) != []
    ensures var domains := if rebound.Some? then Normalized(rebound.value) else db.licenses[id].domains;
            var out := Swap(db, env, id, domains, domains != [], ids, clock);
            && (out.minted.Some? ==>
                  MintsRow(out, ids.row, clock)
                  && CredentialSwapped(db, out.db, id, rebound, out.db.licenses[ids.row], ids, clock))
            && (out.minted.None? ==> out.db == db)
  {
    hide FromSnapshot, IsTermActive, EffectiveRenewUntil, CarriedRenewUntil, Normalized;
    var was := db.licenses[id];
    var domains := if rebound.Some? then Normalized(rebound.value) else was.domains;
    var revoked := db.(licenses := db.licenses[id := was.(status := Revoked)]);
    var input := Carried(db, was, domains, domains != []);
    var minted := FromSnapshot(revoked, env, input, ids, clock);
    if minted.Ok? {
      SnapshotFacts(revoked, env, input, ids, clock);
      SnapshotSells(revoked, env, input, ids, clock);
      NothingToAdd();
      CarriedTerm(TermOf(db, was), clock.now);
      CarryKeepsBoundary(TermOf(db, was), clock.now,
                         TermOf(Swap(db, env, id, domains, domains != [], ids, clock).db, minted.value));
    }
  }

  lemma SwapCallSwaps(db: Db, env: Env, op: Op)
    requires Swaps(op) && ClockOk(op.clock)
    ensures var out := Next(db, Call(env, op));
            && (out.minted.Some? ==>
                  MintsRow(out, op.ids.row, op.clock)
                  && CredentialSwapped(db, out.db, op.id, if op.DoRebind? then Some(op.newDomains) else None,
                                       out.db.licenses[op.ids.row], op.ids, op.clock))
            && (out.minted.None? ==> out.db == db)
            && (Valid(db) ==> Valid(out.db))
  {
    hide Swap, Normalized, Acceptable, FeaturesKnown, PackageWithdrawn, IsTermActive, Valid, CredentialSwapped;
    if Valid(db) {
      NextKeepsValid(db, Call(env, op));
    }
    if op.id in db.licenses && IsTermActive(TermOf(db, db.licenses[op.id]), op.clock.now) {
      if !op.DoRebind? {
        SwapIsSwapped(db, env, op.id, None, op.ids, op.clock);
      } else if Normalized(op.newDomains) != [] {
        SwapIsSwapped(db, env, op.id, Some(op.newDomains), op.ids, op.clock);
      }
    }
  }

  /**
   An issue adds one row, for this customer, package and hosts, with the package's features and its freshly
   stamped term, and nothing else.
   */
  ghost predicate Issued(db: Db, after: Db, customer: Id, package: Id, given: seq<string>, row: License, ids: NewIds,
                         clock: Clock) {
    && customer in db.customers && package in db.packages && ids.row !in db.licenses
    && after.licenses == db.licenses[ids.row := row]
    && after.packages == db.packages && after.customers == db.customers
    && row.customer == customer && row.package == Some(package)
    && row.domains == Normalized(if given != [] then given else db.customers[customer].domains)
    && row.flaggedAt == 0 && row.reminderSentAt == 0 && row.createdMs == ids.createdMs
    && row.licId == ids.lic && row.features == db.packages[package].features && row.status == Active
    && row.renewUntil == StampedRenewUntil(IntervalOrOnce(db.packages[package].billingInterval), clock.now)
    && (row.renewUntil > 0 ==> row.expiresAt <= row.renewUntil + (clock.signed - clock.now))
  }

  lemma IssueIssues(db: Db, env: Env, customer: Id, package: Id, given: seq<string>, ttl: int, ids: NewIds,
                    clock: Clock)
    requires ClockOk(clock)
    ensures var out := Issue(db, env, customer, package, given, ttl, ids, clock);
            && (out.minted.Some? ==>
                  MintsRow(out, ids.row, clock)
                  && Issued(db, out.db, customer, package, given, out.db.licenses[ids.row], ids, clock))
            && (out.minted.None? ==> out.db == db)
            && (Valid(db) ==> Valid(out.db))
  {
    hide Normalized, Acceptable, DomainCountOk, FeaturesSellable, EffectiveTtlSeconds, Valid;
    if Valid(db) {
      NextKeepsValid(db, Call(env, DoIssue(customer, package, given, ttl, ids, clock)));
    }
  }

  /**
   A renewal touches one live row: its boundary becomes its new token's own end, or stays perpetual; it
   resets the reminder, and what the row and its token grant stays.
   */
  ghost predicate Renewed(db: Db, after: Db, id: Id, row: License, lic: Id) {
    && id in db.licenses && after == db.(licenses := db.licenses[id := row])
    && var was := db.licenses[id];
       && was.status == Active
       && row.token == Token(lic, was.features, was.domains, row.issuedAt, row.expiresAt)
       && row == was.(licId := lic, token := row.token, issuedAt := row.issuedAt, expiresAt := row.expiresAt,
                      renewUntil := row.renewUntil, reminderSentAt := 0)
       && row.renewUntil == if RenewsLifetime(db, was) then INFINITE_TERM else row.expiresAt
  }

  lemma RenewRenews(db: Db, env: Env, id: Id, ttl: int, lic: Id, now: int)
    requires now > 0
    ensures var out := Renew(db, env, id, ttl, lic, now);
            && (out.minted.Some? ==>
                  MintsRow(out, id, Clock(now, now))
                    && Renewed(db, out.db, id, out.db.licenses[id], lic))
            && (out.minted.None? ==> out.db == db)
            && (Valid(db) ==> Valid(out.db))
  {
    hide FeaturesKnown, EffectiveTtlSeconds, ClampTtlToTerm, SignedExpiry, Valid;
    if Valid(db) {
      NextKeepsValid(db, Call(env, DoRenew(id, ttl, lic, now)));
    }
  }

  /**
   A refresh touches one live row inside its term and only rolls its token: the licence id, what it grants
   and where, and the boundary stay, and the token ends with the boundary.
   */
  ghost predicate Refreshed(db: Db, after: Db, id: Id, row: License, now: int) {
    && id in db.licenses && after == db.(licenses := db.licenses[id := row])
    && var was := db.licenses[id];
       var boundary := EffectiveRenewUntil(TermOf(db, was));
       && was.status == Active && Before(now, boundary)
       && row.token == Token(was.licId, was.features, was.domains, now, row.expiresAt)
       && row == was.(token := row.token, issuedAt := now, expiresAt := row.expiresAt,
                      reminderSentAt := row.reminderSentAt)
       && (boundary.Finite? && boundary.n > 0 ==> row.expiresAt <= boundary.n)
  }

  lemma RefreshRefreshes(db: Db, env: Env, id: Id, origin: Origin, allows: bool, now: int)
    requires id in db.licenses
    ensures var out := RefreshRow(db, env, id, origin, allows, now);
            && (out.minted.Some? ==>
                  MintsRow(out, id, Clock(now, now))
                    && Refreshed(db, out.db, id, out.db.licenses[id], now))
            && (out.minted.None? ==> out.db == db && out.reminded == None)
            && (out.reminded.Some? ==> out.reminded.value == id && db.licenses[id].reminderSentAt <= 0)
            && (Valid(db) ==> Valid(out.db))
  {
    hide OriginRejected, EffectiveTtlSeconds, EffectiveRenewUntil;
  }
}
