/** Who each licence call serves, who it refuses and why, how long its token lives, and when it reminds. */
module LicenseDecisions {
  import opened Common
  import opened DomainPolicy
  import opened DurationPolicy
  import opened LicenseLifecycle

  // ---- Who is served, and who is refused why -------------------------------

  /** What a mint needs of the hosts it binds. */
  predicate HostsFit(hosts: seq<string>, env: Env, maxDomains: int) {
    Acceptable(hosts, env.publicSuffixes) && (maxDomains > 0 ==> |Sites(hosts)| <= maxDomains)
  }

  /** An issue from an active, wholly sellable package to known customers and fitting hosts, and no other. */
  lemma IssueSucceedsExactly(
    db: Db, env: Env, customer: Id, package: Id, given: seq<string>, ttl: int, ids: NewIds, clock: Clock)
    ensures var out := Issue(db, env, customer, package, given, ttl, ids, clock);
            && (out.error == Some(NotFound) <==> customer !in db.customers || package !in db.packages)
            && (out.error.None? <==> out.minted.Some?)
            && (out.error == Some(Conflict) ==> !IdsFree(db, ids))
            && (out.minted.Some? <==>
                && customer in db.customers && package in db.packages && IdsFree(db, ids)
                && var pkg := db.packages[package];
                   var hosts := Normalized(if given != [] then given else db.customers[customer].domains);
                   && pkg.active && pkg.features != []
                   && (forall f | f in pkg.features :: f in env.known && f in env.sellable)
                   && (pkg.domainBound ==> hosts != []) && HostsFit(hosts, env, pkg.maxDomains))
  {
    hide AddHosts, Acceptable, Sites, ClampTtlToTerm, SignedExpiry, EffectiveTtlSeconds, StampedRenewUntil,
      IntervalOrOnce, IdsFree;
  }

  /**
   A sale mints exactly for a known customer, known features (sellable ones too, unless it honours what was
   sold) and fitting hosts.
   */
  lemma SaleSucceedsExactly(db: Db, env: Env, input: Snapshot, ids: NewIds, clock: Clock)
    ensures FromSnapshot(db, env, input, ids, clock).Ok? <==>
            && input.customer in db.customers && IdsFree(db, ids)
            && input.features != []
            && (forall f | f in input.features :: f in env.known && (input.honorSnapshot || f in env.sellable))
            && var hosts := if input.domainBound then Normalized(if input.domains != [] then input.domains
                                                                 else db.customers[input.customer].domains) else [];
               && (input.domainBound ==> hosts != [])
               && HostsFit(hosts, env, if input.maxDomains.Some? then input.maxDomains.value else 0)
  {
    hide AddHosts, Acceptable, Sites, ClampTtlToTerm, SignedExpiry, EffectiveTtlSeconds, StampedRenewUntil,
      IntervalOrOnce, IdsFree;
    NothingToAdd();
    assert input.features != [] ==> input.features[0] in Distinct(input.features);
    assert Distinct(input.features) != [] ==> Distinct(input.features)[0] in input.features;
  }

  /** What every regenerate needs beyond its own gates: its customer, its features, fresh ids and its hosts. */
  ghost predicate CanRemint(db: Db, env: Env, was: License, hosts: seq<string>, ids: NewIds) {
    && was.customer in db.customers && was.features != [] && (forall f | f in was.features :: f in env.known)
    && IdsFree(db, ids)
    && (hosts != [] ==> Normalized(hosts) != []) && Acceptable(Normalized(hosts), env.publicSuffixes)
  }

  lemma SwapSucceedsExactly(db: Db, env: Env, id: Id, hosts: seq<string>, ids: NewIds, clock: Clock)
    requires id in db.licenses
    ensures Swap(db, env, id, hosts, hosts != [], ids, clock).minted.Some?
            <==> CanRemint(db, env, db.licenses[id], hosts, ids)
  {
    hide FromSnapshot, Normalized, Acceptable, Sites, CarriedRenewUntil, EffectiveRenewUntil;
    var was := db.licenses[id];
    var revoked := db.(licenses := db.licenses[id := was.(status := Revoked)]);
    NothingToAdd();
    SaleSucceedsExactly(revoked, env, Carried(db, was, hosts, hosts != []), ids, clock);
    RevokingFreesNoIds(db, id, ids);
  }

  lemma RevokingFreesNoIds(db: Db, id: Id, ids: NewIds)
    requires id in db.licenses
    ensures IdsFree(db.(licenses := db.licenses[id := db.licenses[id].(status := Revoked)]), ids) <==> IdsFree(db, ids)
  {
    var revoked := db.licenses[id := db.licenses[id].(status := Revoked)];
    assert forall x | x in db.licenses :: x in revoked && revoked[x].licId == db.licenses[x].licId;
  }

  /**
   A regenerate succeeds exactly for a licence in its term whose package, if any, is active, revoked or not;
   a rebind also needs hosts and a live licence; the owner's own regenerate asks only for the owner and the term.
   */
  lemma SwapCallSucceedsExactly(db: Db, env: Env, op: Op)
    requires Swaps(op)
    ensures var out := Next(db, Call(env, op));
            && (out.error.None? <==> out.minted.Some?)
            && (out.minted.Some? <==>
                && op.id in db.licenses
                && var was := db.licenses[op.id];
                   && Before(op.clock.now, EffectiveRenewUntil(TermOf(db, was)))
                   && (!op.DoPortalRegenerate? ==> !(exists p | p in db.packages :: was.package == Some(p)
                                                                                   && !db.packages[p].active))
                   && (op.DoRebind? ==> was.status == Active && Normalized(op.newDomains) != []
                                        && Acceptable(Normalized(op.newDomains), env.publicSuffixes))
                   && (op.DoPortalRegenerate? ==> was.customer == op.owner)
                   && CanRemint(db, env, was, if op.DoRebind? then Normalized(op.newDomains) else was.domains, op.ids))
  {
    hide Swap, Normalized, Acceptable, EffectiveRenewUntil, CanRemint;
    if op.id in db.licenses {
      var was := db.licenses[op.id];
      var hosts := if op.DoRebind? then Normalized(op.newDomains) else was.domains;
      SwapSucceedsExactly(db, env, op.id, hosts, op.ids, op.clock);
      RemintKnows(db, env, was, hosts, op.ids);
      SwapAnswers(db, env, op.id, hosts, hosts != [], op.ids, op.clock);
    }
  }

  lemma RemintKnows(db: Db, env: Env, was: License, hosts: seq<string>, ids: NewIds)
    ensures CanRemint(db, env, was, hosts, ids) ==> FeaturesKnown(was.features, env)
  {
    hide Normalized, Acceptable;
  }

  lemma SwapAnswers(db: Db, env: Env, id: Id, domains: seq<string>, bound: bool, ids: NewIds, clock: Clock)
    requires id in db.licenses
    ensures var out := Swap(db, env, id, domains, bound, ids, clock); out.error.None? <==> out.minted.Some?
  {
    hide FromSnapshot;
  }

  /** A renewal succeeds exactly for a live licence with known features whose package, if any, is active. */
  lemma RenewSucceedsExactly(db: Db, env: Env, id: Id, ttl: int, lic: Id, now: int)
    ensures var out := Renew(db, env, id, ttl, lic, now);
            && (out.error == Some(NotFound) <==> id !in db.licenses) && (out.error.None? <==> out.minted.Some?)
            && (out.minted.Some? <==>
                && id in db.licenses
                && var was := db.licenses[id];
                   && was.status == Active && was.features != [] && (forall f | f in was.features :: f in env.known)
                   && !(exists p | p in db.packages :: was.package == Some(p) && !db.packages[p].active)
                   && forall other | other in db.licenses && other != id :: db.licenses[other].licId != lic)
  {
    hide EffectiveTtlSeconds, ClampTtlToTerm, SignedExpiry, IntervalOrOnce;
  }

  /**
   A refresh is refused for one reason at a time: revoked, then ended, then a bound licence asked for from
   elsewhere, then too often; and every other refresh mints.
   */
  lemma RefreshDecidesExactly(db: Db, env: Env, id: Id, origin: Origin, allows: bool, now: int)
    requires id in db.licenses
    ensures var was, out := db.licenses[id], RefreshRow(db, env, id, origin, allows, now);
            var live := was.status == Active;
            var running := Before(now, EffectiveRenewUntil(TermOf(db, was)));
            var here := was.domains == [] || origin == NoOrigin
              || (origin.Host? && HostAllowed(origin.host, was.domains));
            && (out.minted.Some? <==> live && running && here && allows)
            && (out.error == Some(Refused) <==> !live)
            && (out.error == Some(TermEnded) <==> live && !running)
            && (out.error == Some(OriginBlocked) <==> live && running && !here)
            && (out.error == Some(RateLimited) <==> live && running && here && !allows)
  {
    hide EffectiveRenewUntil, HostAllowed, ClampTtlToTerm, SignedExpiry, EffectiveTtlSeconds, ReminderDue;
  }

  /** Deleting a package takes exactly it and every licence's link to it. */
  lemma RemovedPackageExactly(db: Db, id: Id)
    ensures var out := RemovePackage(db, id);
            && (out.error == Some(NotFound) <==> id !in db.packages) && (id !in db.packages ==> out.db == db)
            && (id in db.packages ==>
                  && out.db == db.(packages := db.packages - {id}, licenses := out.db.licenses)
                  && out.db.licenses.Keys == db.licenses.Keys
                  && forall row | row in db.licenses ::
                       var was, now := db.licenses[row], out.db.licenses[row];
                       now == was.(package := if was.package == Some(id) then None else was.package))
  {
  }

  // ---- How long each token lives -------------------------------------------

  /** An issued token lives as long as asked for, or as the package says, within what is left of the term. */
  lemma IssuedTokenLivesExactly(
    db: Db, env: Env, customer: Id, package: Id, given: seq<string>, ttl: int, ids: NewIds, clock: Clock)
    requires 0 <= clock.now && Issue(db, env, customer, package, given, ttl, ids, clock).minted.Some?
    ensures var pkg := db.packages[package];
            var asked := Some(if ttl != 0 then ttl else EffectiveTtlSeconds(pkg.billingInterval, pkg.ttlOverride));
            var row := Issue(db, env, customer, package, given, ttl, ids, clock).db.licenses[ids.row];
            row.expiresAt == clock.signed + if row.renewUntil > 0 then TermLife(asked, row.renewUntil - clock.now)
                                            else PerpetualLife(asked, env.defaultTtl)
  {
    hide Normalized, Acceptable, DomainCountOk, FeaturesSellable, IdsFree, ClampTtlToTerm, SignedExpiry,
      EffectiveTtlSeconds, TermLife, PerpetualLife;
    var pkg := db.packages[package];
    var asked := if ttl != 0 then ttl else EffectiveTtlSeconds(pkg.billingInterval, pkg.ttlOverride);
    MintLivesExactly(Some(asked), StampedRenewUntil(IntervalOrOnce(pkg.billingInterval), clock.now), clock.now,
                     clock.signed, env.defaultTtl);
  }

  /** So does a token minted from a snapshot, sale or swap, whose boundary is ahead; a swap asks for no lifetime. */
  lemma SnapshotTokenLivesExactly(db: Db, env: Env, input: Snapshot, ids: NewIds, clock: Clock)
    requires FromSnapshot(db, env, input, ids, clock).Ok?
    requires var until := SnapshotRenewUntil(input, clock.now);
             until == INFINITE_TERM || (until > 0 && clock.now < until)
    ensures var lic := FromSnapshot(db, env, input, ids, clock).value;
            lic.expiresAt == clock.signed + if lic.renewUntil > 0
              then TermLife(input.ttlSeconds, lic.renewUntil - clock.now)
              else PerpetualLife(input.ttlSeconds, env.defaultTtl)
  {
    hide SnapshotGrant, IdsFree, ClampTtlToTerm, SignedExpiry, SnapshotRenewUntil, TermLife, PerpetualLife;
    MintLivesExactly(input.ttlSeconds, SnapshotRenewUntil(input, clock.now), clock.now, clock.signed, env.defaultTtl);
  }

  /** A refreshed token lives as long as its package says within what is left of the term; without one, all of that. */
  lemma RefreshedTokenLivesExactly(db: Db, env: Env, id: Id, origin: Origin, allows: bool, now: int)
    requires id in db.licenses && now > 0 && RefreshRow(db, env, id, origin, allows, now).minted.Some?
    ensures var was := db.licenses[id];
            var asked := match LinkedPackage(db, was.package)
              case Some(p) => Some(EffectiveTtlSeconds(p.billingInterval, p.ttlOverride))
              case None => None;
            RefreshRow(db, env, id, origin, allows, now).db.licenses[id].expiresAt
            == now + match EffectiveRenewUntil(TermOf(db, was))
                 case Finite(until) => TermLife(asked, until - now)
                 case Infinite => PerpetualLife(asked, SAFE_MAX_TTL)
  {
    hide OriginRejected, ReminderDue, ClampTtlToTerm, SignedExpiry, TermLife, PerpetualLife, EffectiveRenewUntil,
      IntervalOrOnce;
    var was := db.licenses[id];
    var asked := match LinkedPackage(db, was.package)
      case Some(p) => Some(EffectiveTtlSeconds(p.billingInterval, p.ttlOverride))
      case None => None;
    var boundary := EffectiveRenewUntil(TermOf(db, was));
    MintLivesExactly(asked, if boundary.Finite? then boundary.n else 0, now, now, env.defaultTtl);
    PackageTtlIsPositive(LinkedPackage(db, was.package));
  }

  lemma PackageTtlIsPositive(pkg: Option<Package>)
    ensures pkg.Some? ==> EffectiveTtlSeconds(pkg.value.billingInterval, pkg.value.ttlOverride) > 0
  {
  }

  /** A renewed token of a lifetime package lives as asked for or as the package says; any other to its new boundary. */
  lemma RenewedTokenLivesExactly(db: Db, env: Env, id: Id, ttl: int, lic: Id, now: int)
    requires now > 0 && ttl >= 0 && env.defaultTtl > 0
    requires id in db.licenses && Renew(db, env, id, ttl, lic, now).minted.Some?
    ensures var was, row := db.licenses[id], Renew(db, env, id, ttl, lic, now).db.licenses[id];
            var pkg := LinkedPackage(db, was.package);
            row.expiresAt == now + if RenewsLifetime(db, was)
              then Min(SAFE_MAX_TTL, if ttl > 0 then ttl
                                     else EffectiveTtlSeconds(pkg.value.billingInterval, pkg.value.ttlOverride))
              else RenewedSeconds(pkg, ttl, env.defaultTtl)
  {
    hide FeaturesKnown, PackageWithdrawn, IntervalOrOnce;
  }

  // ---- The reminder --------------------------------------------------------

  /**
   A refresh reminds exactly when it succeeds in the last week of a finite term, for a customer with an
   address who was not reminded before; and it records the reminder at its own time.
   */
  lemma RefreshRemindsExactly(db: Db, env: Env, id: Id, origin: Origin, allows: bool, now: int)
    requires id in db.licenses
    ensures var was, out := db.licenses[id], RefreshRow(db, env, id, origin, allows, now);
            var boundary := EffectiveRenewUntil(TermOf(db, was));
            && (out.reminded == Some(id) <==>
                && out.minted.Some? && boundary.Finite? && boundary.n - now <= 7 * 24 * 3600 && was.reminderSentAt <= 0
                && was.customer in db.customers && db.customers[was.customer].email != "")
            && (out.reminded == None <==> out.reminded != Some(id))
            && out.db.licenses[id].reminderSentAt == if out.reminded == Some(id) then now else was.reminderSentAt
  {
    hide OriginRejected, EffectiveRenewUntil, ClampTtlToTerm, SignedExpiry, EffectiveTtlSeconds;
  }

  lemma SwapKeepsReminder(db: Db, call: Call, id: Id)
    requires ClockRuns(call.op) && Swaps(call.op) && id in db.licenses
    ensures var out := Next(db, call);
            id in out.db.licenses && out.db.licenses[id].reminderSentAt == db.licenses[id].reminderSentAt
  {
    hide Next, CarriedRenewUntil, EffectiveRenewUntil, TermOf, Valid, Normalized;
    SwapCallSwaps(db, call.env, call.op);
  }

  lemma RefreshKeepsReminder(db: Db, env: Env, lic: Id, origin: Origin, allows: bool, now: int, id: Id)
    requires Valid(db) && id in db.licenses
    ensures var out := Refresh(db, env, lic, origin, allows, now);
            && id in out.db.licenses
            && (out.reminded != Some(id) ==> out.db.licenses[id].reminderSentAt == db.licenses[id].reminderSentAt)
  {
    hide Refresh, RefreshRow, Valid, EffectiveRenewUntil, TermOf;
    if exists row :: Carries(db, row, lic) {
      var row :| Carries(db, row, lic);
      RefreshFindsRow(db, env, lic, row, origin, allows, now);
      RefreshRefreshes(db, env, row, origin, allows, now);
      RefreshRemindsExactly(db, env, row, origin, allows, now);
    } else {
      RefreshUnknown(db, env, lic, origin, allows, now);
    }
  }

  /** Apart from a renewal of the row, only a reminder changes what the row remembers of it. */
  lemma NextKeepsReminder(db: Db, call: Call, id: Id)
    requires Valid(db) && ClockRuns(call.op) && id in db.licenses && !(call.op.DoRenew? && call.op.id == id)
    ensures var out := Next(db, call);
            && id in out.db.licenses
            && (out.reminded != Some(id) ==> out.db.licenses[id].reminderSentAt == db.licenses[id].reminderSentAt)
  {
    hide Issue, FromSnapshot, Renew, Refresh, Regenerate, Rebind, PortalRegenerate, Valid, CarriedRenewUntil,
      EffectiveRenewUntil, StampedRenewUntil, Normalized;
    match call.op
    case DoIssue(c, p, given, ttl, ids, clock) => IssueIssues(db, call.env, c, p, given, ttl, ids, clock);
    case DoIssueSnapshot(input, ids, clock) =>
      if FromSnapshot(db, call.env, input, ids, clock).Ok? {
        SnapshotFacts(db, call.env, input, ids, clock);
      }
    case DoRegenerate(_, _, _) => SwapKeepsReminder(db, call, id);
    case DoRebind(_, _, _, _) => SwapKeepsReminder(db, call, id);
    case DoPortalRegenerate(_, _, _, _) => SwapKeepsReminder(db, call, id);
    case DoRenew(row, ttl, lic, now) => RenewRenews(db, call.env, row, ttl, lic, now);
    case DoRefresh(lic, origin, allows, now) => RefreshKeepsReminder(db, call.env, lic, origin, allows, now, id);
    case _ =>
  }

  ghost predicate NeverRenewed(calls: seq<Call>, id: Id) {
    forall c | c in calls :: !(c.op.DoRenew? && c.op.id == id)
  }

  lemma {:induction false} UnremindedStaysSo(db: Db, calls: seq<Call>, id: Id)
    requires Valid(db) && ClocksRun(calls) && NeverRenewed(calls, id) && id in db.licenses
    ensures var end := Run(db, calls);
            && Valid(end) && id in end.licenses
            && (Reminders(db, calls, id) == 0 ==> end.licenses[id].reminderSentAt == db.licenses[id].reminderSentAt)
    decreases |calls|
  {
    hide Next, Valid;
    if calls != [] {
      NextKeepsValid(db, calls[0]);
      NextKeepsReminder(db, calls[0], id);
      UnremindedStaysSo(Next(db, calls[0]).db, calls[1..], id);
    }
  }

  lemma {:induction false} RemindersSplit(db: Db, before: seq<Call>, call: Call, after: seq<Call>, id: Id)
    ensures Reminders(db, before + [call] + after, id)
            >= Reminders(db, before, id) + if Next(Run(db, before), call).reminded == Some(id) then 1 else 0
    decreases |before|
  {
    hide Next;
    var calls := before + [call] + after;
    if before == [] {
      assert calls[0] == call;
    } else {
      assert calls[0] == before[0] && calls[1..] == before[1..] + [call] + after;
      RemindersSplit(Next(db, before[0]).db, before[1..], call, after, id);
    }
  }

  /**
   A customer with an address whose licence is refreshed in the last week of its finite term is reminded exactly
   once, whatever happens before and after short of a renewal.
   */
  lemma RemindedExactlyOnce(db: Db, before: seq<Call>, call: Call, after: seq<Call>, id: Id)
    requires Valid(db) && id in db.licenses && db.licenses[id].reminderSentAt <= 0
    requires ClocksRun(before + [call] + after) && NeverRenewed(before + [call] + after, id)
    requires var s, op := Run(db, before), call.op;
             && op.DoRefresh? && Carries(s, id, op.lic)
             && RefreshRow(s, call.env, id, op.origin, op.limiterAllows, op.now).minted.Some?
             && var row := s.licenses[id];
                var boundary := EffectiveRenewUntil(TermOf(s, row));
                && boundary.Finite? && boundary.n - op.now <= 7 * 24 * 3600
                && row.customer in s.customers && s.customers[row.customer].email != ""
    ensures Reminders(db, before + [call] + after, id) == 1
  {
    hide Next, Refresh, RefreshRow, Valid, EffectiveRenewUntil;
    var calls, s, op := before + [call] + after, Run(db, before), call.op;
    assert forall c | c in before :: c in calls;
    RemindedAtMostOnce(db, calls, id);
    UnremindedStaysSo(db, before, id);
    RemindersSplit(db, before, call, after, id);
    RefreshRemindsExactly(s, call.env, id, op.origin, op.limiterAllows, op.now);
    RefreshFindsRow(s, call.env, op.lic, id, op.origin, op.limiterAllows, op.now);
    NextRefreshes(s, call);
  }

  lemma NextRefreshes(db: Db, call: Call)
    requires call.op.DoRefresh?
    ensures Next(db, call)
            == Refresh(db, call.env, call.op.lic, call.op.origin, call.op.limiterAllows, call.op.now)
  {
    hide Issue, IssueSnapshot, Renew, Refresh, Regenerate, Rebind, PortalRegenerate, Revoke, RemovePackage;
  }
}
