/** The licence services as code over mutable tables, each method proved against its function. */
module LicenseServices {
  import opened Common
  import opened DurationPolicy
  import opened DomainPolicy
  import Spec = LicenseLifecycle
  import opened LicenseLifecycle

  class LicenseTables {
    var licenses: map<Id, License>
    var packages: map<Id, Package>
    var customers: map<Id, Customer>
    ghost var family: map<Id, Id>

    ghost function State(): Db
      reads this
    {
      Db(licenses, packages, customers, family)
    }

    /** A method's answer and the tables it leaves are those of an outcome. */
    ghost predicate Answers(r: Result<License, Refusal>, out: Outcome)
      reads this
    {
      && State() == out.db
      && (r.Ok? <==> out.minted.Some?)
      && (r.Ok? ==> out.minted.value.row in licenses && licenses[out.minted.value.row] == r.value
                    && r.value.token == out.minted.value.token)
      && (r.Err? ==> out.error == Some(r.error))
    }

    method CheckSnapshot(env: Env, input: Snapshot) returns (r: Result<(seq<string>, seq<string>), Refusal>)
      ensures r == SnapshotGrant(State(), env, input)
    {
      hide FeaturesKnown, FeaturesSellable, AddHosts, Acceptable, DomainCountOk;
      if input.customer !in customers {
        return Err(NotFound);
      }
      var features := Distinct(input.features);
      if input.honorSnapshot {
        if !FeaturesKnown(features, env) {
          return Err(BadRequest);
        }
      } else if !FeaturesSellable(features, env) {
        return Err(BadRequest);
      }
      var requestedDomains := [];
      if input.domainBound {
        requestedDomains := if input.domains != [] then input.domains else customers[input.customer].domains;
      }
      var domains := NormalizeDomains(requestedDomains);
      if input.domainBound && domains == [] {
        return Err(BadRequest);
      }
      if !Acceptable(domains, env.publicSuffixes) {
        return Err(BadRequest);
      }
      if input.maxDomains.Some? && !DomainCountOk(domains, input.maxDomains.value) {
        return Err(BadRequest);
      }
      r := Ok((features, domains));
    }

    /** Mints inside the caller's transaction; nothing is written when it refuses. */
    method IssueFromSnapshot(env: Env, input: Snapshot, ids: NewIds, clock: Clock, ghost origin: Id)
      returns (r: Result<License, Refusal>)
      modifies this
      ensures r == FromSnapshot(old(State()), env, input, ids, clock)
      ensures State() == if r.Ok? then Insert(old(State()), ids.row, r.value, origin, clock.now).db else old(State())
    {
      hide SnapshotGrant, ClampTtlToTerm, SignedExpiry, StampedRenewUntil, IntervalOrOnce;
      var grant := CheckSnapshot(env, input);
      if grant.Err? {
        return Err(grant.error);
      }
      var (features, domains) := grant.value;
      var package := if input.package.Some? && input.package.value in packages then input.package else None;
      var carried := input.renewUntil.Some? && (input.renewUntil.value > 0 || input.renewUntil.value == INFINITE_TERM);
      var renewUntil := if carried then input.renewUntil.value
                        else StampedRenewUntil(IntervalOrOnce(input.billingInterval), clock.now);
      var requested := if input.ttlSeconds.Some? then Some(Finite(input.ttlSeconds.value)) else None;
      var ttl := ClampTtlToTerm(requested, Finite(renewUntil), clock.now);
      var exp := SignedExpiry(clock.signed, ttl, env.defaultTtl);
      if ids.row in licenses || exists id | id in licenses :: licenses[id].licId == ids.lic {
        return Err(Conflict);
      }
      var token := Token(ids.lic, features, domains, clock.signed, exp);
      var record := License(ids.lic, input.customer, package, features, domains, Active, token, token.iat, token.exp,
                            renewUntil, input.flaggedAt, 0, ids.createdMs);
      licenses := licenses[ids.row := record];
      family := family[ids.row := origin];
      r := Ok(record);
    }

    method Issue(env: Env, customer: Id, package: Id, given: seq<string>, ttlSeconds: int, ids: NewIds, clock: Clock)
      returns (r: Result<License, Refusal>)
      modifies this
      ensures Answers(r, Spec.Issue(old(State()), env, customer, package, given, ttlSeconds, ids, clock))
      ensures ClockOk(clock) ==>
                && (r.Ok? ==> Issued(old(State()), State(), customer, package, given, r.value, ids, clock))
                && (r.Err? ==> State() == old(State()))
                && (Valid(old(State())) ==> Valid(State()))
    {
      hide Issued, Valid, FeaturesSellable, AddHosts, Acceptable, DomainCountOk, EffectiveTtlSeconds, ClampTtlToTerm,
        SignedExpiry,
        StampedRenewUntil, IntervalOrOnce;
      if ClockOk(clock) {
        IssueIssues(State(), env, customer, package, given, ttlSeconds, ids, clock);
      }
      if customer !in customers || package !in packages {
        return Err(NotFound);
      }
      var pkg := packages[package];
      if !pkg.active || !FeaturesSellable(pkg.features, env) {
        return Err(BadRequest);
      }
      var domains := NormalizeDomains(if given != [] then given else customers[customer].domains);
      if (pkg.domainBound && domains == []) || !Acceptable(domains, env.publicSuffixes)
        || !DomainCountOk(domains, pkg.maxDomains) {
        return Err(BadRequest);
      }
      var renewUntil := StampedRenewUntil(IntervalOrOnce(pkg.billingInterval), clock.now);
      var wanted := if ttlSeconds != 0 then ttlSeconds else EffectiveTtlSeconds(pkg.billingInterval, pkg.ttlOverride);
      var ttl := ClampTtlToTerm(Some(Finite(wanted)), Finite(renewUntil), clock.now);
      var exp := SignedExpiry(clock.signed, ttl, env.defaultTtl);
      if ids.row in licenses || exists id | id in licenses :: licenses[id].licId == ids.lic {
        return Err(Conflict);
      }
      var token := Token(ids.lic, pkg.features, domains, clock.signed, exp);
      var record := License(ids.lic, customer, Some(package), pkg.features, domains, Active, token, token.iat,
                            token.exp,
                            renewUntil, 0, 0, ids.createdMs);
      licenses := licenses[ids.row := record];
      family := family[ids.row := ids.row];
      r := Ok(record);
    }

    /** Revoke and re-mint in one transaction: a refused mint restores the rows. */
    method SwapCredential(env: Env, id: Id, domains: seq<string>, domainBound: bool, ids: NewIds, clock: Clock)
      returns (r: Result<License, Refusal>)
      requires id in licenses
      modifies this
      ensures Answers(r, Swap(old(State()), env, id, domains, domainBound, ids, clock))
    {
      hide FromSnapshot, EffectiveRenewUntil;
      var was := licenses[id];
      var linked := was.package.Some? && was.package.value in packages;
      var carried := CarriedRenewUntil(TermIn(packages, was));
      var rows := licenses;
      licenses := licenses[id := was.(status := Revoked)];
      var input := Snapshot(was.customer, was.features, domains, domainBound, None, None,
                            if linked then was.package else None, "", Some(carried), true, was.flaggedAt);
      assert input == Carried(old(State()), was, domains, domainBound);
      r := IssueFromSnapshot(env, input, ids, clock, FamilyOf(State(), id));
      if r.Err? {
        licenses := rows;
      }
    }

    method Regenerate(env: Env, id: Id, ids: NewIds, clock: Clock) returns (r: Result<License, Refusal>)
      modifies this
      ensures Answers(r, Spec.Regenerate(old(State()), env, id, ids, clock))
      ensures ClockOk(clock) ==>
                && (r.Ok? ==> CredentialSwapped(old(State()), State(), id, None, r.value, ids, clock))
                && (r.Err? ==> State() == old(State()))
                && (Valid(old(State())) ==> Valid(State()))
    {
      hide CredentialSwapped, Valid, FeaturesKnown, Swap, EffectiveRenewUntil;
      if ClockOk(clock) {
        SwapCallSwaps(State(), env, DoRegenerate(id, ids, clock));
      }
      if id !in licenses {
        return Err(NotFound);
      }
      var was := licenses[id];
      if WithdrawnIn(packages, was) {
        return Err(BadRequest);
      }
      if !IsTermActive(TermIn(packages, was), clock.now) {
        return Err(TermEnded);
      }
      if !FeaturesKnown(was.features, env) {
        return Err(BadRequest);
      }
      r := SwapCredential(env, id, was.domains, was.domains != [], ids, clock);
    }

    method RegenerateWithDomains(env: Env, id: Id, newDomains: seq<string>, ids: NewIds, clock: Clock)
      returns (r: Result<License, Refusal>)
      modifies this
      ensures Answers(r, Rebind(old(State()), env, id, newDomains, ids, clock))
      ensures ClockOk(clock) ==>
                && (r.Ok? ==> CredentialSwapped(old(State()), State(), id, Some(newDomains), r.value, ids, clock))
                && (r.Err? ==> State() == old(State()))
                && (Valid(old(State())) ==> Valid(State()))
    {
      hide CredentialSwapped, Valid, FeaturesKnown, Swap, EffectiveRenewUntil, AddHosts, Acceptable;
      if ClockOk(clock) {
        SwapCallSwaps(State(), env, DoRebind(id, newDomains, ids, clock));
      }
      var domains := NormalizeDomains(newDomains);
      if domains == [] || !Acceptable(domains, env.publicSuffixes) {
        return Err(BadRequest);
      }
      if id !in licenses {
        return Err(NotFound);
      }
      var was := licenses[id];
      if was.status == Revoked || WithdrawnIn(packages, was) {
        return Err(BadRequest);
      }
      if !IsTermActive(TermIn(packages, was), clock.now) {
        return Err(TermEnded);
      }
      if !FeaturesKnown(was.features, env) {
        return Err(BadRequest);
      }
      r := SwapCredential(env, id, domains, true, ids, clock);
    }

    method RegenerateForCustomer(env: Env, customer: Id, id: Id, ids: NewIds, clock: Clock)
      returns (r: Result<License, Refusal>)
      modifies this
      ensures Answers(r, PortalRegenerate(old(State()), env, customer, id, ids, clock))
      ensures ClockOk(clock) ==>
                && (r.Ok? ==> CredentialSwapped(old(State()), State(), id, None, r.value, ids, clock))
                && (r.Err? ==> State() == old(State()))
                && (Valid(old(State())) ==> Valid(State()))
    {
      hide CredentialSwapped, Valid, Swap, EffectiveRenewUntil;
      if ClockOk(clock) {
        SwapCallSwaps(State(), env, DoPortalRegenerate(customer, id, ids, clock));
      }
      if id !in licenses || licenses[id].customer != customer {
        return Err(NotFound);
      }
      var was := licenses[id];
      if !IsTermActive(TermIn(packages, was), clock.now) {
        return Err(TermEnded);
      }
      r := SwapCredential(env, id, was.domains, was.domains != [], ids, clock);
    }

    method Renew(env: Env, id: Id, ttlSeconds: int, lic: Id, now: int) returns (r: Result<License, Refusal>)
      modifies this
      ensures Answers(r, Spec.Renew(old(State()), env, id, ttlSeconds, lic, now))
      ensures now > 0 ==>
                && (r.Ok? ==> Renewed(old(State()), State(), id, r.value, lic))
                && (r.Err? ==> State() == old(State()))
                && (Valid(old(State())) ==> Valid(State()))
    {
      hide Renewed, Valid, FeaturesKnown, EffectiveTtlSeconds, ClampTtlToTerm, SignedExpiry, TermSeconds,
        IntervalOrOnce;
      if now > 0 {
        RenewRenews(State(), env, id, ttlSeconds, lic, now);
      }
      if id !in licenses {
        return Err(NotFound);
      }
      var was := licenses[id];
      if was.status == Revoked || WithdrawnIn(packages, was) || !FeaturesKnown(was.features, env) {
        return Err(BadRequest);
      }
      var linked := was.package.Some? && was.package.value in packages;
      var interval := Once;
      var base := if ttlSeconds != 0 then Some(Finite(ttlSeconds)) else None;
      var onceTerm := ttlSeconds;
      if linked {
        var pkg := packages[was.package.value];
        interval := IntervalOrOnce(pkg.billingInterval);
        onceTerm := EffectiveTtlSeconds(pkg.billingInterval, pkg.ttlOverride);
        if ttlSeconds == 0 {
          base := Some(Finite(onceTerm));
        }
      }
      var boundary := match interval
        case Lifetime => INFINITE_TERM
        case Once => now + onceTerm
        case _ => now + TermSeconds(interval);
      var exp := SignedExpiry(now, ClampTtlToTerm(base, Finite(boundary), now), env.defaultTtl);
      if exists other | other in licenses :: other != id && licenses[other].licId == lic {
        return Err(Conflict);
      }
      var record := was.(licId := lic, token := Token(lic, was.features, was.domains, now, exp));
      record := record.(issuedAt := now, expiresAt := exp);
      record := record.(renewUntil := if interval == Lifetime then INFINITE_TERM else exp);
      record := record.(reminderSentAt := 0, status := Active);
      licenses := licenses[id := record];
      r := Ok(record);
    }

    method Revoke(id: Id) returns (found: bool)
      modifies this
      ensures State() == Spec.Revoke(old(State()), id).db && (found <==> id in old(licenses))
      ensures found ==> licenses == old(licenses)[id := old(licenses)[id].(status := Revoked)]
    {
      found := id in licenses;
      if found {
        licenses := licenses[id := licenses[id].(status := Revoked)];
      }
    }

    /** The refresh transaction; the second result names the row whose customer is to be reminded. */
    method DoRefresh(env: Env, lic: Id, origin: Origin, limiterAllows: bool, now: int)
      returns (r: Result<License, Refusal>, remind: Option<Id>)
      requires Valid(State())
      modifies this
      ensures var out := Refresh(old(State()), env, lic, origin, limiterAllows, now);
              Answers(r, out) && remind == out.reminded
      ensures r.Ok? ==>
                exists id :: Carries(old(State()), id, lic) && Refreshed(old(State()), State(), id, r.value, now)
      ensures r.Err? ==> State() == old(State()) && remind == None
      ensures Valid(State())
    {
      hide RefreshRow;
      if !exists id | id in licenses :: licenses[id].licId == lic {
        RefreshUnknown(State(), env, lic, origin, limiterAllows, now);
        return Err(Refused), None;
      }
      var id :| id in licenses && licenses[id].licId == lic;
      RefreshFindsRow(State(), env, lic, id, origin, limiterAllows, now);
      r, remind := RefreshFound(env, id, origin, limiterAllows, now);
    }

    method RefreshFound(env: Env, id: Id, origin: Origin, limiterAllows: bool, now: int)
      returns (r: Result<License, Refusal>, remind: Option<Id>)
      requires id in licenses
      modifies this
      ensures var out := RefreshRow(old(State()), env, id, origin, limiterAllows, now);
              Answers(r, out) && remind == out.reminded
      ensures r.Ok? ==> Refreshed(old(State()), State(), id, r.value, now)
      ensures r.Err? ==> State() == old(State()) && remind == None
      ensures remind.Some? ==> remind.value == id && old(licenses)[id].reminderSentAt <= 0
      ensures Valid(old(State())) ==> Valid(State())
    {
      hide Refreshed, Valid, EffectiveTtlSeconds, EffectiveRenewUntil, OriginRejected, ClampTtlToTerm, SignedExpiry,
        IntervalOrOnce;
      RefreshRefreshes(State(), env, id, origin, limiterAllows, now);
      remind := None;
      var row := licenses[id];
      if row.status == Revoked {
        return Err(Refused), None;
      }
      var linked := row.package.Some? && row.package.value in packages;
      var boundary := EffectiveRenewUntil(TermIn(packages, row));
      if boundary.Finite? && now >= boundary.n {
        return Err(TermEnded), None;
      }
      if OriginRejected(origin, row.domains) {
        return Err(OriginBlocked), None;
      }
      if !limiterAllows {
        return Err(RateLimited), None;
      }
      var base := None;
      if linked {
        var pkg := packages[row.package.value];
        base := Some(Finite(EffectiveTtlSeconds(pkg.billingInterval, pkg.ttlOverride)));
      }
      var exp := SignedExpiry(now, ClampTtlToTerm(base, boundary, now), env.defaultTtl);
      var due := boundary.Finite? && boundary.n - now <= REMINDER_WINDOW && !(row.reminderSentAt > 0)
                 && row.customer in customers && customers[row.customer].email != "";
      row := row.(token := Token(row.licId, row.features, row.domains, now, exp));
      row := row.(issuedAt := now, expiresAt := exp, status := Active);
      if due {
        row := row.(reminderSentAt := now);
        remind := Some(id);
      }
      licenses := licenses[id := row];
      r := Ok(row);
    }

    method PutPackage(id: Id, pkg: Package)
      modifies this
      ensures State() == Spec.PutPackage(old(State()), id, pkg).db
    {
      packages := packages[id := pkg];
    }

    /** Deletes a package; the foreign key sets every link to it to null. */
    method RemovePackage(id: Id) returns (found: bool)
      modifies this
      ensures State() == Spec.RemovePackage(old(State()), id).db && (found <==> id in old(packages))
    {
      found := id in packages;
      if found {
        packages := packages - {id};
        licenses := map row | row in licenses ::
          if licenses[row].package == Some(id) then licenses[row].(package := None) else licenses[row];
      }
    }
  }
}
