/** What becomes of a token after its mint: whether it still finds its row, and how long it lasts. */
module TokenHistory {
  import opened Common
  import opened DomainPolicy
  import opened DurationPolicy
  import opened LicenseLifecycle

  // ---- Whether a token still finds its row ---------------------------------

  /** The licence ids a call draws; they are random, so no other call draws them again. */
  function Draws(op: Op): set<Id> {
    match op
    case DoIssue(_, _, _, _, ids, _) => {ids.lic}
    case DoIssueSnapshot(_, ids, _) => {ids.lic}
    case DoRegenerate(_, ids, _) => {ids.lic}
    case DoRebind(_, _, ids, _) => {ids.lic}
    case DoPortalRegenerate(_, _, ids, _) => {ids.lic}
    case DoRenew(_, _, lic, _) => {lic}
    case _ => {}
  }

  predicate Renews(op: Op, out: Outcome, id: Id) {
    op.DoRenew? && op.id == id && out.minted.Some?
  }

  /** Some call of the run renews the row. */
  ghost predicate RenewedAlong(db: Db, calls: seq<Call>, id: Id)
    decreases |calls|
  {
    calls != [] &&
    (Renews(calls[0].op, Next(db, calls[0]), id) || RenewedAlong(Next(db, calls[0]).db, calls[1..], id))
  }

  /**
   An existing row keeps its licence id unless it is renewed, any other row carries one the call drew, and
   so does the token that leaves.
   */
  ghost predicate LicIdsMove(db: Db, op: Op, out: Outcome) {
    && (forall id | id in db.licenses :: id in out.db.licenses)
    && (forall id | id in out.db.licenses ::
          if id in db.licenses && !Renews(op, out, id) then out.db.licenses[id].licId == db.licenses[id].licId
          else out.db.licenses[id].licId in Draws(op))
    && (out.minted.Some? ==> Carries(out.db, out.minted.value.row, out.minted.value.token.lic))
  }

  lemma SwapMovesLicIds(db: Db, call: Call)
    requires ClockRuns(call.op) && Swaps(call.op)
    ensures LicIdsMove(db, call.op, Next(db, call))
  {
    hide Next, CredentialSwapped, Valid, FamilyOf, Normalized;
    SwapCallSwaps(db, call.env, call.op);
    var out, op := Next(db, call), call.op;
    if out.minted.Some? {
      SwapTables(db, out.db, op.id, if op.DoRebind? then Some(op.newDomains) else None, out.db.licenses[op.ids.row],
                 op.ids, op.clock);
    }
  }

  lemma SwapTables(db: Db, after: Db, id: Id, rebound: Option<seq<string>>, successor: License, ids: NewIds,
                   clock: Clock)
    requires CredentialSwapped(db, after, id, rebound, successor, ids, clock)
    ensures id in db.licenses && ids.row !in db.licenses && successor.licId == ids.lic
    ensures after.licenses == db.licenses[id := db.licenses[id].(status := Revoked)][ids.row := successor]
  {
    hide Normalized, TermOf, LinkedPackage, EffectiveRenewUntil, CarriedRenewUntil, FamilyOf;
  }

  lemma RefreshMovesLicIds(db: Db, env: Env, lic: Id, origin: Origin, allows: bool, now: int)
    requires Valid(db) && now > 0
    ensures LicIdsMove(db, DoRefresh(lic, origin, allows, now), Refresh(db, env, lic, origin, allows, now))
  {
    hide Refresh, RefreshRow, Valid, EffectiveRenewUntil;
    if exists id :: Carries(db, id, lic) {
      var id :| Carries(db, id, lic);
      RefreshFindsRow(db, env, lic, id, origin, allows, now);
      RefreshRefreshes(db, env, id, origin, allows, now);
    } else {
      RefreshUnknown(db, env, lic, origin, allows, now);
    }
  }

  lemma NextMovesLicIds(db: Db, call: Call)
    requires Valid(db) && ClockRuns(call.op)
    ensures LicIdsMove(db, call.op, Next(db, call))
  {
    hide Issue, FromSnapshot, Renew, Refresh, Regenerate, Rebind, PortalRegenerate, Valid, CarriedRenewUntil,
      EffectiveRenewUntil, StampedRenewUntil;
    match call.op
    case DoIssue(c, p, given, ttl, ids, clock) => IssueIssues(db, call.env, c, p, given, ttl, ids, clock);
    case DoIssueSnapshot(input, ids, clock) =>
      if FromSnapshot(db, call.env, input, ids, clock).Ok? {
        SnapshotFacts(db, call.env, input, ids, clock);
      }
    case DoRegenerate(_, _, _) => SwapMovesLicIds(db, call);
    case DoRebind(_, _, _, _) => SwapMovesLicIds(db, call);
    case DoPortalRegenerate(_, _, _, _) => SwapMovesLicIds(db, call);
    case DoRenew(id, ttl, lic, now) => RenewRenews(db, call.env, id, ttl, lic, now);
    case DoRefresh(lic, origin, allows, now) => RefreshMovesLicIds(db, call.env, lic, origin, allows, now);
    case _ =>
  }

  /** The row still carries the licence id, or after a renewal no row does. */
  ghost predicate Finds(db: Db, lic: Id, id: Id, renewed: bool) {
    id in db.licenses && if renewed then !exists row :: Carries(db, row, lic) else Carries(db, id, lic)
  }

  lemma StepFinds(db: Db, op: Op, out: Outcome, lic: Id, id: Id, renewed: bool)
    requires Valid(db) && Finds(db, lic, id, renewed) && LicIdsMove(db, op, out) && lic !in Draws(op)
    ensures Finds(out.db, lic, id, renewed || Renews(op, out, id))
  {
    forall row | row in out.db.licenses && (renewed || Renews(op, out, id) || row != id)
      ensures !Carries(out.db, row, lic) {
      if row in db.licenses {
        assert renewed ==> !Carries(db, row, lic);
      }
    }
  }

  lemma {:induction false} LicIdsAlong(db: Db, calls: seq<Call>, lic: Id, id: Id, renewed: bool)
    requires Valid(db) && ClocksRun(calls) && Finds(db, lic, id, renewed)
    requires forall c | c in calls :: lic !in Draws(c.op)
    ensures Valid(Run(db, calls))
    ensures Finds(Run(db, calls), lic, id, renewed || RenewedAlong(db, calls, id))
    decreases |calls|
  {
    hide Next, Valid, Draws, Renews, LicIdsMove;
    if calls != [] {
      var out := Next(db, calls[0]);
      NextKeepsValid(db, calls[0]);
      NextMovesLicIds(db, calls[0]);
      StepFinds(db, calls[0].op, out, lic, id, renewed);
      LicIdsAlong(out.db, calls[1..], lic, id, renewed || Renews(calls[0].op, out, id));
    }
  }

  /**
   A token minted by any call still finds its row after any later calls exactly when none of them renewed
   the row: until then a refresh with it is the row's refresh, and from then on it is refused as unknown.
   */
  lemma TokenFindsRowExactly(db: Db, call: Call, calls: seq<Call>)
    requires Valid(db) && ClockRuns(call.op) && ClocksRun(calls) && Next(db, call).minted.Some?
    requires forall c | c in calls :: Next(db, call).minted.value.token.lic !in Draws(c.op)
    ensures var out := Next(db, call);
            var m, after := out.minted.value, Run(out.db, calls);
            && m.row in after.licenses
            && (Carries(after, m.row, m.token.lic) <==> !RenewedAlong(out.db, calls, m.row))
            && forall env, origin, allows, now ::
                 Refresh(after, env, m.token.lic, origin, allows, now)
                 == if RenewedAlong(out.db, calls, m.row) then Refuse(after, Refused)
                    else RefreshRow(after, env, m.row, origin, allows, now)
  {
    hide Next, Valid, Refresh, RefreshRow, Draws;
    var out := Next(db, call);
    var m, after := out.minted.value, Run(out.db, calls);
    NextKeepsValid(db, call);
    NextMovesLicIds(db, call);
    LicIdsAlong(out.db, calls, m.token.lic, m.row, false);
    forall env, origin, allows, now
      ensures Refresh(after, env, m.token.lic, origin, allows, now)
        == if RenewedAlong(out.db, calls, m.row) then Refuse(after, Refused)
           else RefreshRow(after, env, m.row, origin, allows, now) {
      if RenewedAlong(out.db, calls, m.row) {
        RefreshUnknown(after, env, m.token.lic, origin, allows, now);
      } else {
        RefreshFindsRow(after, env, m.token.lic, m.row, origin, allows, now);
      }
    }
  }

  // ---- How long a token lasts ----------------------------------------------

  /** The row's term boundary, if there is such a row. */
  function BoundaryOf(db: Db, id: Id): Option<Seconds> {
    if id in db.licenses then Some(EffectiveRenewUntil(TermOf(db, db.licenses[id]))) else None
  }

  function Later(a: Option<Seconds>, b: Option<Seconds>): Option<Seconds> {
    if a.None? || (b.Some? && EarlierThan(a.value, b.value)) then b else a
  }

  /** The latest boundary the row has had at any point of the run. */
  ghost function LatestBoundary(db: Db, calls: seq<Call>, id: Id): Option<Seconds>
    decreases |calls|
  {
    if calls == [] then BoundaryOf(db, id)
    else Later(BoundaryOf(db, id), LatestBoundary(Next(db, calls[0]).db, calls[1..], id))
  }

  /** The token ends by the boundary, up to the gap between the operation's clock and the signer's. */
  predicate EndsBy(m: Mint, boundary: Option<Seconds>) {
    boundary.Some? && (boundary.value.Finite? ==> m.token.exp <= boundary.value.n + (m.token.iat - m.clock))
  }

  /** What the callers check: a renewal asks for no negative lifetime, and a carried boundary is ahead. */
  ghost predicate Sensible(call: Call) {
    && ClockRuns(call.op) && AheadOfTerm(call.op)
    && (call.op.DoRenew? ==> call.op.ttl >= 0 && call.env.defaultTtl > 0)
  }

  lemma RefreshEndsWithBoundary(db: Db, env: Env, id: Id, origin: Origin, allows: bool, now: int)
    requires id in db.licenses && now > 0
    ensures var out := RefreshRow(db, env, id, origin, allows, now);
            out.minted.Some? ==> EndsBy(out.minted.value, BoundaryOf(out.db, id)) && out.minted.value.row == id
  {
    hide OriginRejected, ReminderDue, EffectiveTtlSeconds, IntervalOrOnce;
  }

  lemma RenewalEndsWithBoundary(db: Db, env: Env, id: Id, ttl: int, lic: Id, now: int)
    requires now > 0 && ttl >= 0 && env.defaultTtl > 0
    ensures var out := Renew(db, env, id, ttl, lic, now);
            out.minted.Some? ==> EndsBy(out.minted.value, BoundaryOf(out.db, id)) && out.minted.value.row == id
  {
    hide FeaturesKnown, PackageWithdrawn, IntervalOrOnce;
  }

  lemma NextMintEndsWithBoundary(db: Db, call: Call)
    requires Sensible(call)
    ensures var out := Next(db, call);
            out.minted.Some? ==> EndsBy(out.minted.value, BoundaryOf(out.db, out.minted.value.row))
  {
    hide Issue, FromSnapshot, Renew, RefreshRow, Regenerate, Rebind, PortalRegenerate, IntervalOrOnce;
    match call.op
    case DoIssue(c, p, given, ttl, ids, clock) => IssueIssues(db, call.env, c, p, given, ttl, ids, clock);
    case DoIssueSnapshot(input, ids, clock) =>
      if FromSnapshot(db, call.env, input, ids, clock).Ok? {
        SnapshotFacts(db, call.env, input, ids, clock);
      }
    case DoRegenerate(_, _, _) => SwapCallSwaps(db, call.env, call.op);
    case DoRebind(_, _, _, _) => SwapCallSwaps(db, call.env, call.op);
    case DoPortalRegenerate(_, _, _, _) => SwapCallSwaps(db, call.env, call.op);
    case DoRenew(id, ttl, lic, now) => RenewalEndsWithBoundary(db, call.env, id, ttl, lic, now);
    case DoRefresh(lic, origin, allows, now) =>
      if exists id :: Carries(db, id, lic) {
        var id :| Carries(db, id, lic) && Refresh(db, call.env, lic, origin, allows, now)
          == RefreshRow(db, call.env, id, origin, allows, now);
        RefreshEndsWithBoundary(db, call.env, id, origin, allows, now);
      }
    case _ =>
  }

  lemma LaterIsWeaker(m: Mint, a: Option<Seconds>, b: Option<Seconds>)
    requires EndsBy(m, a) || EndsBy(m, b)
    ensures EndsBy(m, Later(a, b))
  {
  }

  lemma LatestIsLater(db: Db, calls: seq<Call>, m: Mint)
    requires EndsBy(m, BoundaryOf(db, m.row))
    ensures EndsBy(m, LatestBoundary(db, calls, m.row))
  {
    if calls != [] {
      LaterIsWeaker(m, BoundaryOf(db, m.row), LatestBoundary(Next(db, calls[0]).db, calls[1..], m.row));
    }
  }

  /**
   Every token of the run, those a later renewal has replaced included, ends by the latest boundary its row
   has had. The boundary now stored may be earlier, for a renewal can move it back.
   */
  lemma {:induction false} EveryMintEndsWithLatestBoundary(db: Db, calls: seq<Call>)
    requires forall c | c in calls :: Sensible(c)
    ensures forall m | m in Mints(db, calls) :: EndsBy(m, LatestBoundary(db, calls, m.row))
    decreases |calls|
  {
    hide Next, Sensible, EndsBy, BoundaryOf, Later;
    if calls != [] {
      var out := Next(db, calls[0]);
      NextMintEndsWithBoundary(db, calls[0]);
      EveryMintEndsWithLatestBoundary(out.db, calls[1..]);
      forall m | m in Mints(db, calls) ensures EndsBy(m, LatestBoundary(db, calls, m.row)) {
        if m !in Mints(out.db, calls[1..]) {
          LatestIsLater(out.db, calls[1..], m);
        }
        LaterIsWeaker(m, BoundaryOf(db, m.row), LatestBoundary(out.db, calls[1..], m.row));
      }
    }
  }

  // ---- How many credentials of a family are live ---------------------------

  /** A regenerate takes an already revoked row of the family for its source. */
  ghost predicate Revives(db: Db, call: Call, family: Id) {
    && Swaps(call.op) && Next(db, call).minted.Some?
    && call.op.id in db.licenses && db.licenses[call.op.id].status == Revoked && FamilyOf(db, call.op.id) == family
  }

  ghost predicate Retires(db: Db, op: Op, family: Id) {
    op.DoRevoke? && op.id in LiveRows(db, family)
  }

  /** How many more live credentials the family has after the run than before. */
  ghost function LiveGain(db: Db, calls: seq<Call>, family: Id): int
    decreases |calls|
  {
    if calls == [] then 0
    else
      (if Revives(db, calls[0], family) then 1 else if Retires(db, calls[0].op, family) then -1 else 0)
      + LiveGain(Next(db, calls[0]).db, calls[1..], family)
  }

  /** Existing rows keep their family and stay live or revoked, and any new row belongs to another family. */
  ghost predicate KeepsLive(db: Db, after: Db, family: Id) {
    && (forall id | id in db.licenses :: id in after.licenses)
    && forall id | id in after.licenses ::
         if id in db.licenses
         then FamilyOf(after, id) == FamilyOf(db, id) && after.licenses[id].status == db.licenses[id].status
         else FamilyOf(after, id) != family
  }

  lemma KeptLiveIsEqual(db: Db, after: Db, family: Id)
    requires KeepsLive(db, after, family)
    ensures LiveRows(after, family) == LiveRows(db, family)
  {
  }

  lemma RefreshRowKeepsLive(db: Db, env: Env, id: Id, origin: Origin, allows: bool, now: int, family: Id)
    requires id in db.licenses
    ensures KeepsLive(db, RefreshRow(db, env, id, origin, allows, now).db, family)
  {
    hide OriginRejected, ReminderDue, TermOf, EffectiveRenewUntil, EffectiveTtlSeconds, ClampTtlToTerm, SignedExpiry;
  }

  lemma RefreshKeepsLive(db: Db, env: Env, lic: Id, origin: Origin, allows: bool, now: int, family: Id)
    ensures KeepsLive(db, Refresh(db, env, lic, origin, allows, now).db, family)
  {
    hide RefreshRow, KeepsLive;
    if exists id :: Carries(db, id, lic) {
      var id :| Carries(db, id, lic) && Refresh(db, env, lic, origin, allows, now)
        == RefreshRow(db, env, id, origin, allows, now);
      RefreshRowKeepsLive(db, env, id, origin, allows, now, family);
    } else {
      RefreshUnknown(db, env, lic, origin, allows, now);
      NothingMoved(db, family);
    }
  }

  lemma NothingMoved(db: Db, family: Id)
    ensures KeepsLive(db, db, family)
  {
  }

  lemma SwapMovesOtherFamily(db: Db, call: Call, family: Id)
    requires Valid(db) && ClockRuns(call.op) && Swaps(call.op)
    requires Next(db, call).minted.Some? ==> call.op.id in db.licenses && FamilyOf(db, call.op.id) != family
    ensures LiveRows(Next(db, call).db, family) == LiveRows(db, family)
  {
    hide Next, Valid, TermOf, CarriedRenewUntil, EffectiveRenewUntil, FamilyOf;
    SwapCallSwaps(db, call.env, call.op);
    var after := Next(db, call).db;
    forall id | id in db.licenses ensures FamilyOf(after, id) == FamilyOf(db, id) {
      NextEvolves(db, call, id);
    }
  }

  lemma RenewKeepsLive(db: Db, env: Env, id: Id, ttl: int, lic: Id, now: int, family: Id)
    ensures KeepsLive(db, Renew(db, env, id, ttl, lic, now).db, family)
  {
    hide FeaturesKnown, PackageWithdrawn, EffectiveTtlSeconds, ClampTtlToTerm, SignedExpiry, IntervalOrOnce;
  }

  lemma IssueKeepsLive(db: Db, env: Env, customer: Id, package: Id, given: seq<string>, ttl: int, ids: NewIds,
                       clock: Clock, family: Id)
    requires family in db.licenses
    ensures KeepsLive(db, Issue(db, env, customer, package, given, ttl, ids, clock).db, family)
  {
    hide Normalized, Acceptable, DomainCountOk, FeaturesSellable, EffectiveTtlSeconds, ClampTtlToTerm, SignedExpiry,
      StampedRenewUntil, IntervalOrOnce;
  }

  lemma OtherCallKeepsLive(db: Db, call: Call, family: Id)
    requires family in db.licenses && !Swaps(call.op) && !call.op.DoRevoke?
    ensures KeepsLive(db, Next(db, call).db, family)
  {
    hide Issue, FromSnapshot, Renew, Refresh, Regenerate, Rebind, PortalRegenerate, Revoke;
    match call.op
    case DoIssue(c, p, given, ttl, ids, clock) => IssueKeepsLive(db, call.env, c, p, given, ttl, ids, clock, family);
    case DoIssueSnapshot(input, ids, clock) =>
      if FromSnapshot(db, call.env, input, ids, clock).Ok? {
        SnapshotFacts(db, call.env, input, ids, clock);
      }
    case DoRenew(id, ttl, lic, now) => RenewKeepsLive(db, call.env, id, ttl, lic, now, family);
    case DoRefresh(lic, origin, allows, now) => RefreshKeepsLive(db, call.env, lic, origin, allows, now, family);
    case _ =>
  }

  lemma RevokeCountsLive(db: Db, id: Id, family: Id)
    ensures |LiveRows(Revoke(db, id).db, family)|
            == |LiveRows(db, family)| - if id in LiveRows(db, family) then 1 else 0
  {
    assert LiveRows(Revoke(db, id).db, family) == LiveRows(db, family) - {id};
  }

  lemma RevocationIsRevoke(db: Db, call: Call)
    requires call.op.DoRevoke?
    ensures Next(db, call) == Revoke(db, call.op.id)
  {
    hide Issue, IssueSnapshot, Renew, Refresh, Regenerate, Rebind, PortalRegenerate, Revoke, RemovePackage;
  }

  lemma NextCountsLive(db: Db, call: Call, family: Id)
    requires Valid(db) && family in db.licenses && ClockRuns(call.op)
    ensures |LiveRows(Next(db, call).db, family)| == |LiveRows(db, family)|
              + if Revives(db, call, family) then 1 else if Retires(db, call.op, family) then -1 else 0
  {
    hide Next, Revoke, Valid, KeepsLive, LiveRows;
    if Swaps(call.op) {
      if Next(db, call).minted.Some? {
        SwapLiveCredentials(db, call.env, call.op);
      }
      if Next(db, call).minted.None? || FamilyOf(db, call.op.id) != family {
        SwapMovesOtherFamily(db, call, family);
      }
    } else if call.op.DoRevoke? {
      RevocationIsRevoke(db, call);
      RevokeCountsLive(db, call.op.id, family);
    } else {
      OtherCallKeepsLive(db, call, family);
      KeptLiveIsEqual(db, Next(db, call).db, family);
    }
  }

  /**
   Over any run a family gains a live credential only by a regenerate of an already revoked row, one each
   time, and loses one only by the revocation of a live one.
   */
  lemma {:induction false} LiveCredentialsAlong(db: Db, calls: seq<Call>, family: Id)
    requires Valid(db) && ClocksRun(calls) && family in db.licenses
    ensures |LiveRows(Run(db, calls), family)| == |LiveRows(db, family)| + LiveGain(db, calls, family)
    decreases |calls|
  {
    hide Next, Valid, LiveRows, Revives, Retires;
    if calls != [] {
      NextKeepsValid(db, calls[0]);
      NextEvolves(db, calls[0], family);
      NextCountsLive(db, calls[0], family);
      LiveCredentialsAlong(Next(db, calls[0]).db, calls[1..], family);
    }
  }
}
