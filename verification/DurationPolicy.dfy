/** How long a licence lives: token lifetimes, paid terms, and the clamp between the two. */
module DurationPolicy {
  import opened Common

  const DAY := 24 * 3600
  const VERIFIER_MAX_LIFETIME := 3 * 366 * DAY + 30 * DAY
  const SAFE_MAX_TTL := VERIFIER_MAX_LIFETIME - DAY
  const DEFAULT_TTL_SECONDS := 30 * DAY

  /** The stored boundary of a perpetual licence. */
  const INFINITE_TERM := -1

  datatype Interval = Once | Monthly | Yearly | Lifetime

  /** A number of seconds, or the positive infinity that a perpetual boundary reads as. */
  datatype Seconds = Finite(n: int) | Infinite

  function AsBillingInterval(value: string): Option<Interval> {
    if value == "once" then Some(Once)
    else if value == "monthly" then Some(Monthly)
    else if value == "yearly" then Some(Yearly)
    else if value == "lifetime" then Some(Lifetime)
    else None
  }

  /** An unknown interval is read as a single term. */
  function IntervalOrOnce(value: string): Interval {
    match AsBillingInterval(value)
    case Some(i) => i
    case None => Once
  }

  function TtlSeconds(interval: Interval): int {
    match interval
    case Lifetime => SAFE_MAX_TTL
    case Yearly => 365 * DAY
    case Monthly => 30 * DAY
    case Once => DEFAULT_TTL_SECONDS
  }

  function TermSeconds(interval: Interval): int {
    match interval
    case Lifetime => SAFE_MAX_TTL
    case Yearly => 365 * DAY
    case Monthly => 30 * DAY
    case Once => DEFAULT_TTL_SECONDS
  }

  function StampedRenewUntil(interval: Interval, now: int): int {
    if interval == Lifetime then INFINITE_TERM else now + TermSeconds(interval)
  }

  function ClampTtlToTerm(requested: Option<Seconds>, renewUntil: Seconds, now: int): Option<Seconds> {
    match renewUntil
    case Finite(until) =>
      if until <= 0 then requested
      else
        var headroom := until - now;
        if headroom <= 0 then requested
        else if requested.None? then Some(Finite(headroom))
        else if requested.value.Infinite? then Some(Finite(headroom))
        else if requested.value.n <= 0 then Some(Finite(headroom))
        else Some(Finite(Min(requested.value.n, headroom)))
    case Infinite =>
      // Positive infinity is not the sentinel: an absent lifetime becomes infinite here.
      if requested.None? then Some(Infinite)
      else if requested.value.Finite? && requested.value.n <= 0 then Some(Infinite)
      else requested
  }

  /** The columns that decide when a licence stops being renewable. */
  datatype TermFields = TermFields(renewUntil: int, createdMs: Option<int>, issuedAt: int, interval: string)

  function EffectiveRenewUntil(lic: TermFields): Seconds {
    if lic.renewUntil == INFINITE_TERM then Infinite
    else if lic.renewUntil > 0 then Finite(lic.renewUntil)
    else
      var interval := IntervalOrOnce(lic.interval);
      if interval == Lifetime then Infinite
      else
        var created := match lic.createdMs case Some(ms) => ms / 1000 case None => lic.issuedAt;
        Finite(created + TermSeconds(interval))
  }

  function CarriedRenewUntil(lic: TermFields): int {
    match EffectiveRenewUntil(lic)
    case Finite(n) => n
    case Infinite => INFINITE_TERM
  }

  predicate Before(now: int, boundary: Seconds) {
    boundary.Infinite? || now < boundary.n
  }

  predicate IsTermActive(lic: TermFields, now: int) {
    Before(now, EffectiveRenewUntil(lic))
  }

  function EffectiveTtlSeconds(billingInterval: string, ttlOverride: Option<int>): int {
    if ttlOverride.Some? && ttlOverride.value > 0 then ttlOverride.value
    else TtlSeconds(IntervalOrOnce(billingInterval))
  }

  /** The `exp` claim the signer writes: an absent or zero lifetime takes the configured default. */
  function SignedExpiry(iat: int, ttl: Option<Seconds>, defaultTtl: int): int {
    var wanted := if ttl.None? || ttl.value == Finite(0) then Finite(defaultTtl) else ttl.value;
    iat + match wanted case Infinite => SAFE_MAX_TTL case Finite(n) => Min(n, SAFE_MAX_TTL)
  }

  // ---- Properties ----------------------------------------------------------

  /** A mint inside a finite term ends with it, up to the gap between the two clock readings. */
  lemma ClampedMintEndsWithTerm(requested: Option<Seconds>, until: int, now: int, iat: int, defaultTtl: int)
    requires until > 0 && now < until && now <= iat
    ensures var exp := SignedExpiry(iat, ClampTtlToTerm(requested, Finite(until), now), defaultTtl);
            iat < exp <= until + (iat - now) && exp - iat <= SAFE_MAX_TTL
  {
  }

  /** The signer's clock has not moved, or the lifetime is short enough not to matter. */
  predicate SignedInTime(requested: Option<Seconds>, until: int, now: int, iat: int) {
    || iat == now
    || iat + SAFE_MAX_TTL <= until
    || (requested.Some? && requested.value.Finite? && requested.value.n > 0 && iat + requested.value.n <= until)
  }

  /** Whatever lifetime is asked for, a token stays within its finite term exactly when it is signed in time. */
  lemma UnpinnedClockOutlivesTermExactly(requested: Option<Seconds>, until: int, now: int, iat: int, defaultTtl: int)
    requires until > 0 && now < until && now <= iat
    ensures SignedExpiry(iat, ClampTtlToTerm(requested, Finite(until), now), defaultTtl) <= until
            <==> SignedInTime(requested, until, now, iat)
  {
  }

  /** As long as asked for, as what is left of the term and as the signer's maximum all allow. */
  function TermLife(asked: Option<int>, left: int): int {
    Min(SAFE_MAX_TTL, if asked.Some? && asked.value > 0 then Min(asked.value, left) else left)
  }

  /** A perpetual licence's token lives as long as asked for, or else the fallback, within the signer's maximum. */
  function PerpetualLife(asked: Option<int>, fallback: int): int {
    Min(SAFE_MAX_TTL, if asked.Some? && asked.value != 0 then asked.value else fallback)
  }

  function Asked(asked: Option<int>): Option<Seconds> {
    match asked case Some(n) => Some(Finite(n)) case None => None
  }

  /**
   How long a mint lives, told without the clamp: inside a finite term, by the stored sentinel, past a term that is
   over, which nothing clamps, and by infinity.
   */
  lemma MintLivesExactly(asked: Option<int>, until: int, now: int, iat: int, defaultTtl: int)
    ensures until > 0 && now < until ==>
              SignedExpiry(iat, ClampTtlToTerm(Asked(asked), Finite(until), now), defaultTtl)
              == iat + TermLife(asked, until - now)
    ensures SignedExpiry(iat, ClampTtlToTerm(Asked(asked), Finite(INFINITE_TERM), now), defaultTtl)
            == iat + PerpetualLife(asked, defaultTtl)
    ensures until > 0 && until <= now ==>
              SignedExpiry(iat, ClampTtlToTerm(Asked(asked), Finite(until), now), defaultTtl)
              == iat + PerpetualLife(asked, defaultTtl)
    ensures SignedExpiry(iat, ClampTtlToTerm(Asked(asked), Infinite, now), defaultTtl)
            == iat + PerpetualLife(if asked.Some? && asked.value > 0 then asked else None, SAFE_MAX_TTL)
  {
  }

  /** What each billing interval buys: the term stamped at the mint, and each token's life within it. */
  lemma IntervalsBuyExactly(interval: string, ttlOverride: Option<int>, now: int)
    ensures IntervalOrOnce(interval) == match interval
              case "lifetime" => Lifetime
              case "yearly" => Yearly
              case "monthly" => Monthly
              case _ => Once
    ensures StampedRenewUntil(IntervalOrOnce(interval), now) == match interval
              case "lifetime" => -1
              case "yearly" => now + 365 * 24 * 3600
              case _ => now + 30 * 24 * 3600
    ensures EffectiveTtlSeconds(interval, ttlOverride) ==
            if ttlOverride.Some? && ttlOverride.value > 0 then ttlOverride.value
            else match interval
              case "lifetime" => 3 * 366 * 24 * 3600 + 29 * 24 * 3600
              case "yearly" => 365 * 24 * 3600
              case _ => 30 * 24 * 3600
  {
  }

  /**
   A row that never stored a boundary ends one term of its package after it was created, or issued where that is
   unknown; a lifetime one never.
   */
  lemma LegacyBoundaryExactly(lic: TermFields)
    requires lic.renewUntil <= 0 && lic.renewUntil != INFINITE_TERM
    ensures var begun := if lic.createdMs.Some? then lic.createdMs.value / 1000 else lic.issuedAt;
            EffectiveRenewUntil(lic) == match lic.interval
              case "lifetime" => Infinite
              case "yearly" => Finite(begun + 365 * 24 * 3600)
              case _ => Finite(begun + 30 * 24 * 3600)
  {
  }

  /** What a credential swap stores is read back as the very same boundary. */
  lemma CarryKeepsBoundary(lic: TermFields, now: int, swap: TermFields)
    requires now >= 0 && IsTermActive(lic, now)
    requires swap.renewUntil == CarriedRenewUntil(lic)
    ensures EffectiveRenewUntil(swap) == EffectiveRenewUntil(lic)
    ensures swap.renewUntil == INFINITE_TERM || swap.renewUntil > now
  {
  }

  /** A stamped term is read back whatever the row's package later becomes. */
  lemma StampReadsBack(interval: Interval, now: int, lic: TermFields)
    requires now >= 0 && lic.renewUntil == StampedRenewUntil(interval, now)
    ensures EffectiveRenewUntil(lic) == if interval == Lifetime then Infinite else Finite(now + TermSeconds(interval))
  {
  }

  /** Editing a licence's package can move its boundary exactly when no term was ever stamped on the row. */
  lemma PackageEditsMoveOnlyLegacyTerms(lic: TermFields)
    ensures (forall i: string, j: string ::
               EffectiveRenewUntil(lic.(interval := i)) == EffectiveRenewUntil(lic.(interval := j)))
            <==> lic.renewUntil > 0 || lic.renewUntil == INFINITE_TERM
  {
    if !(lic.renewUntil > 0 || lic.renewUntil == INFINITE_TERM) {
      assert EffectiveRenewUntil(lic.(interval := "lifetime")) == Infinite;
      assert EffectiveRenewUntil(lic.(interval := "once")).Finite?;
    }
  }
}
