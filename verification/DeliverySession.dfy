/**
 Opening a delivery session: who is admitted, which plan and version they are served, and which
 features the token may promise. Signatures, the seat check's answer and URL parsing are inputs.
 */
module DeliverySession {
  import opened Common
  import opened VersionResolution
  import opened EngineRegistry
  import DomainPolicy

  /** A licence row as the session reads it; `expired` is its `isExpired()` at that moment. */
  datatype Licence = Licence(
    revoked: bool, expired: bool, domains: seq<string>, pinned: string, override: string, channel: Channel,
    package: seq<Feature>, snapshot: seq<Feature>, maxInstalls: nat)

  /** No key, a key this server did not sign, or the licence id a signed key names. */
  datatype Key = NoKey | Unverified | Signed(lic: string)

  /** `host` is the origin's host name, absent when there is no origin or it does not parse. */
  datatype SessionRequest = SessionRequest(key: Key, version: string, installId: string, host: Option<string>)

  /** The free tier an admin designated, or the built-in list when none is. */
  datatype Tier = Tier(anonymous: seq<Feature>, minimal: seq<Feature>, minimalWhenRevoked: bool, designated: bool,
                       freeBundleOnly: bool)

  datatype Denial = InvalidKey | RevokedKey | ExpiredKey | OriginBlocked | InstallCap

  datatype Resolved = Resolved(plan: string, features: seq<Feature>, licence: Option<(string, Licence)>,
                               denial: Option<Denial>)

  datatype Session = Session(delivery: Delivery, domains: seq<string>, lic: string, denial: Option<Denial>)

  // ---- Admission -----------------------------------------------------------

  predicate DevOrigin(host: string) {
    host in {"localhost", "127.0.0.1", "::1", "[::1]"} || DomainPolicy.EndsWith(host, ".localhost")
  }

  predicate OriginAllowed(host: Option<string>, domains: seq<string>) {
    domains == [] || (host.Some? && (DevOrigin(host.value) || DomainPolicy.HostAllowed(host.value, domains)))
  }

  /** Everything but the seat. */
  function BeforeSeat(licences: map<string, Licence>, req: SessionRequest): Result<Licence, Denial>
    requires !req.key.NoKey?
  {
    if req.key.Unverified? || req.key.lic !in licences then Err(InvalidKey)
    else
      var l := licences[req.key.lic];
      if l.revoked then Err(RevokedKey)
      else if l.expired then Err(ExpiredKey)
      else if !OriginAllowed(req.host, l.domains) then Err(OriginBlocked)
      else Ok(l)
  }

  /** `seat` is what the install cap answers if it is asked. */
  function Admission(licences: map<string, Licence>, req: SessionRequest, seat: bool): Result<Licence, Denial>
    requires !req.key.NoKey?
  {
    match BeforeSeat(licences, req)
    case Err(e) => Err(e)
    case Ok(l) => if l.maxInstalls > 0 && !seat then Err(InstallCap) else Ok(l)
  }

  // ---- Entitlement and plan ------------------------------------------------

  function OrElse(a: string, b: string): string {
    if a != "" then a else b
  }

  /** The package is the truth; the licence's own list serves rows without one. */
  function PackageFeatures(l: Licence): seq<Feature> {
    if l.package != [] then l.package else l.snapshot
  }

  function VersionForPlan(l: Licence, d: Defaults): string {
    OrElse(l.pinned, OrElse(l.override, OrElse(d.channelDefault, d.globalDefault)))
  }

  function PlanForDefaultTier(builds: seq<Build>, tier: Tier, features: seq<Feature>, d: Defaults): string {
    var version := OrElse(d.channelDefault, d.globalDefault);
    if tier.freeBundleOnly || !tier.designated || version == "" then FREE
      else PlanForFeatures(builds, version, features)
  }

  function FeaturesForDenial(tier: Tier, denial: Denial): seq<Feature> {
    if denial.RevokedKey? && tier.minimalWhenRevoked then tier.minimal else tier.anonymous
  }

  function Resolve(reg: Registry, licences: map<string, Licence>, tier: Tier, req: SessionRequest, seat: bool,
                   d: Defaults): Resolved {
    if req.key.NoKey? then
      Resolved(PlanForDefaultTier(reg.builds, tier, tier.anonymous, d), tier.anonymous, None, None)
    else
      match Admission(licences, req, seat)
      case Err(denial) =>
        var features := FeaturesForDenial(tier, denial);
        Resolved(PlanForDefaultTier(reg.builds, tier, features, d), features, None, Some(denial))
      case Ok(l) =>
        var version := VersionForPlan(l, d);
        Resolved(if version == "" then PREMIUM else PlanForFeatures(reg.builds, version, PackageFeatures(l)),
                 Distinct(PackageFeatures(l)), Some((req.key.lic, l)), None)
  }

  /** What resolution is asked: a licence's own pin wins over the version the client names. */
  function CallerOf(req: SessionRequest, r: Resolved): Caller {
    match r.licence
    case None => Caller(req.version, "", Stable, r.features, r.plan, req.installId)
    case Some((lic, l)) => Caller(OrElse(l.pinned, req.version), l.override, l.channel, r.features, r.plan,
                                  OrElse(lic, req.installId))
  }

  function Open(reg: Registry, bucket: (string, string) -> nat, licences: map<string, Licence>, tier: Tier,
                req: SessionRequest, seat: bool, d: Defaults): Result<Session, Refusal>
  {
    var r := Resolve(reg, licences, tier, req, seat, d);
    match ResolveForLicence(reg, bucket, CallerOf(req, r), d)
    case Err(e) => Err(e)
    case Ok(delivery) =>
      Ok(Session(delivery, if r.licence.Some? then r.licence.value.1.domains else [],
                 if r.licence.Some? then r.licence.value.0 else "", r.denial))
  }

  // ---- What a session promises ---------------------------------------------

  lemma DeliveryWithinBuild(reg: Registry, bucket: (string, string) -> nat, c: Caller, d: Defaults)
    requires ResolveForLicence(reg, bucket, c, d).Ok?
    ensures var s := ResolveForLicence(reg, bucket, c, d).value;
            var b := FindBuild(reg.builds, s.version, s.plan);
            && s.plan == c.plan && b.Some? && s.digest == b.value.digest && s.key == b.value.key
            && s.features == ResolveFeatures(c.package, b.value.supported)
            && s.missing == MissingFromBuild(c.package, b.value.supported)
            && (forall f | f in s.features :: f in b.value.supported)
  {
    var (version, _) := Decision(reg, bucket, c, d);
    var b := FindBuild(reg.builds, version, c.plan).value;
    hide FindBuild, Decision;
    if ALL_FEATURES in c.package {
      WildcardGrantsBuild(c.package, b.supported);
      SortMembers(b.supported);
    } else {
      FeaturesPartition(c.package, b.supported);
    }
  }

  lemma ResolvedHasVersion(reg: Registry, bucket: (string, string) -> nat, c: Caller, d: Defaults)
    requires ResolveForLicence(reg, bucket, c, d).Ok?
    ensures var (version, _) := Decision(reg, bucket, c, d);
            version != "" && ResolveForLicence(reg, bucket, c, d).value.version == version
  {
  }

  lemma NamedIsPinned(reg: Registry, bucket: (string, string) -> nat, c: Caller, d: Defaults)
    requires c.pinned != "" && ResolveForLicence(reg, bucket, c, d).Ok?
    ensures ResolveForLicence(reg, bucket, c, d).value.version == c.pinned
    ensures ResolveForLicence(reg, bucket, c, d).value.source == Pin
  {
    hide FindBuild, CanaryFor, ResolveFeatures, MissingFromBuild;
  }

  lemma WildcardMembers(package: seq<Feature>, supported: seq<Feature>)
    requires ALL_FEATURES in package
    ensures forall f :: f in ResolveFeatures(package, supported) <==> f in supported
  {
    SortMembers(supported);
  }

  lemma GrantedMembers(package: seq<Feature>, supported: seq<Feature>)
    requires ALL_FEATURES !in package
    ensures forall f :: f in ResolveFeatures(package, supported) <==> f in package && f in supported
  {
    SortMembers(Keep(package, f => f in supported));
  }

  /** A refused key opens the very session a stranger would get, unless policy narrows it for a revoked one. */
  lemma RefusedOpensAnonymous(reg: Registry, bucket: (string, string) -> nat, licences: map<string, Licence>,
                              tier: Tier,
                              req: SessionRequest, seat: bool, d: Defaults)
    requires !req.key.NoKey? && Admission(licences, req, seat).Err?
    requires !(Admission(licences, req, seat).error.RevokedKey? && tier.minimalWhenRevoked)
    ensures var refused := Open(reg, bucket, licences, tier, req, seat, d);
            var stranger := Open(reg, bucket, licences, tier, req.(key := NoKey), seat, d);
            && refused.Ok? == stranger.Ok?
            && (refused.Ok? ==> refused.value == stranger.value.(denial := Some(Admission(licences, req, seat).error)))
  {
  }

  /** A bound licence's origin: a development host, or one its bindings name or cover. */
  ghost predicate ComesFromHome(host: Option<string>, domains: seq<string>) {
    || domains == []
    || (host.Some?
        && (host.value in ["localhost", "127.0.0.1", "::1", "[::1]"]
            || (exists name :: host.value == name + ".localhost")
            || DomainPolicy.HostAllowed(host.value, domains)))
  }

  lemma OriginDecidesExactly(host: Option<string>, domains: seq<string>)
    ensures OriginAllowed(host, domains) <==> ComesFromHome(host, domains)
  {
    hide DomainPolicy.HostAllowed;
    if host.Some? {
      var h := host.value;
      if DomainPolicy.EndsWith(h, ".localhost") {
        assert h == h[..|h| - 10] + ".localhost";
      }
      assert forall name | h == name + ".localhost" :: h[|h| - 10..] == ".localhost";
    }
  }

  /** Neither revoked nor expired, and asked for from a host it is bound to. */
  ghost predicate InGoodStanding(licences: map<string, Licence>, req: SessionRequest) {
    && req.key.Signed? && req.key.lic in licences
    && var l := licences[req.key.lic];
       !l.revoked && !l.expired && ComesFromHome(req.host, l.domains)
  }

  /** What a refused key is told, one reason at a time. */
  ghost function WhyRefused(licences: map<string, Licence>, req: SessionRequest): Denial {
    if req.key.Signed? && req.key.lic in licences then
      var l := licences[req.key.lic];
      if l.revoked then RevokedKey else if l.expired then ExpiredKey
      else if !ComesFromHome(req.host, l.domains) then OriginBlocked else InstallCap
    else InvalidKey
  }

  lemma AdmissionDecidesExactly(licences: map<string, Licence>, req: SessionRequest, seat: bool)
    requires !req.key.NoKey?
    ensures var entitled := InGoodStanding(licences, req) && (licences[req.key.lic].maxInstalls == 0 || seat);
            Admission(licences, req, seat) == if entitled then Ok(licences[req.key.lic])
                                              else Err(WhyRefused(licences, req))
  {
    hide OriginAllowed, ComesFromHome;
    if req.key.Signed? && req.key.lic in licences {
      OriginDecidesExactly(req.host, licences[req.key.lic].domains);
    }
  }

  /**
   Every session that opens for a key is the licence's own, with its hosts, exactly when the licence is in good
   standing and has a seat; any other carries no licence, no hosts and the reason of its refusal.
   */
  lemma SessionIsLicensedExactly(reg: Registry, bucket: (string, string) -> nat, licences: map<string, Licence>,
                                 tier: Tier, req: SessionRequest, seat: bool, d: Defaults)
    requires !req.key.NoKey? && Open(reg, bucket, licences, tier, req, seat, d).Ok?
    ensures var s := Open(reg, bucket, licences, tier, req, seat, d).value;
            var entitled := InGoodStanding(licences, req) && (licences[req.key.lic].maxInstalls == 0 || seat);
            && (s.denial == None <==> entitled)
            && (entitled ==> s.lic == req.key.lic && s.domains == licences[req.key.lic].domains)
            && (!entitled ==> s.lic == "" && s.domains == [] && s.denial == Some(WhyRefused(licences, req)))
  {
    hide Admission, ResolveForLicence, PlanForFeatures, InGoodStanding, WhyRefused, Distinct;
    AdmissionDecidesExactly(licences, req, seat);
  }

  /**
   What a stranger or a refused key is granted: of the tier's list, exactly what the served build has, where
   policy gives a revoked key its own list; from the free build, unless an admin designated a tier that is not
   held to it, and some default exists.
   */
  lemma StrangersGetTheTier(reg: Registry, bucket: (string, string) -> nat, licences: map<string, Licence>,
                            tier: Tier, req: SessionRequest, seat: bool, d: Defaults)
    requires req.key.NoKey? || Admission(licences, req, seat).Err?
    requires Open(reg, bucket, licences, tier, req, seat, d).Ok?
    ensures var s := Open(reg, bucket, licences, tier, req, seat, d).value;
            var b := FindBuild(reg.builds, s.delivery.version, s.delivery.plan);
            var list := if s.denial == Some(RevokedKey) && tier.minimalWhenRevoked then tier.minimal
              else tier.anonymous;
            && (req.key.NoKey? ==> s.lic == "" && s.domains == [] && s.denial == None)
            && (req.version != "" ==> s.delivery.version == req.version && s.delivery.source == Pin)
            && b.Some?
            && (ALL_FEATURES !in list ==>
                  forall f :: f in s.delivery.features <==> f in list && f in b.value.supported)
            && (tier.freeBundleOnly || !tier.designated || (d.channelDefault == "" && d.globalDefault == "") ==>
                  s.delivery.plan == FREE)
            && (!tier.freeBundleOnly && tier.designated && (d.channelDefault != "" || d.globalDefault != "") ==>
                  s.delivery.plan == PlanForFeatures(
                    reg.builds, if d.channelDefault != "" then d.channelDefault else d.globalDefault, list))
  {
    hide ResolveForLicence, FindBuild, PlanForFeatures, Admission, ResolveFeatures, MissingFromBuild;
    var r := Resolve(reg, licences, tier, req, seat, d);
    DeliveryWithinBuild(reg, bucket, CallerOf(req, r), d);
    if req.version != "" {
      NamedIsPinned(reg, bucket, CallerOf(req, r), d);
    }
    var s := ResolveForLicence(reg, bucket, CallerOf(req, r), d).value;
    if ALL_FEATURES !in r.features {
      GrantedMembers(r.features, FindBuild(reg.builds, s.version, s.plan).value.supported);
    }
  }

  /** A licensed session grants of its package, or of the licence's own list where it has none, what the build has. */
  lemma LicensedFeaturesExactly(reg: Registry, bucket: (string, string) -> nat, licences: map<string, Licence>,
                                tier: Tier, req: SessionRequest, seat: bool, d: Defaults, l: Licence)
    requires req.key.Signed? && Admission(licences, req, seat) == Ok(l)
    requires Open(reg, bucket, licences, tier, req, seat, d).Ok?
    ensures var s := Open(reg, bucket, licences, tier, req, seat, d).value.delivery;
            var b := FindBuild(reg.builds, s.version, s.plan);
            var sold := if l.package == [] then l.snapshot else l.package;
            && b.Some?
            && (ALL_FEATURES !in sold ==> forall f :: f in s.features <==> f in sold && f in b.value.supported)
            && (ALL_FEATURES in sold ==> forall f :: f in s.features <==> f in b.value.supported)
  {
    hide ResolveForLicence, FindBuild, PlanForFeatures, Admission, ResolveFeatures, MissingFromBuild;
    var c := CallerOf(req, Resolve(reg, licences, tier, req, seat, d));
    DeliveryWithinBuild(reg, bucket, c, d);
    var s := ResolveForLicence(reg, bucket, c, d).value;
    var supported := FindBuild(reg.builds, s.version, s.plan).value.supported;
    if ALL_FEATURES in c.package {
      WildcardMembers(c.package, supported);
    } else {
      GrantedMembers(c.package, supported);
    }
  }

  /**
   A stranger who names no version gets only an unretired stable build; a licensed session whose licence and
   client name none gets an unretired build of at most its licence's channel.
   */
  lemma UnnamedVersionIsSafe(reg: Registry, bucket: (string, string) -> nat, licences: map<string, Licence>,
                             tier: Tier, req: SessionRequest, seat: bool, d: Defaults)
    requires Open(reg, bucket, licences, tier, req, seat, d).Ok? && req.version == ""
    ensures var s := Open(reg, bucket, licences, tier, req, seat, d).value;
            var b := FindBuild(reg.builds, s.delivery.version, s.delivery.plan);
            && b.Some?
            && (req.key.NoKey? || s.denial.Some? ==> !b.value.retired && b.value.channel == Stable)
            && (req.key.Signed? && s.denial.None? && req.key.lic in licences
                && licences[req.key.lic].pinned == "" && licences[req.key.lic].override == "" ==>
                  && !b.value.retired
                  && (licences[req.key.lic].channel == Stable ==> b.value.channel == Stable)
                  && (licences[req.key.lic].channel == Beta ==> b.value.channel != Internal))
  {
    hide ResolveForLicence, FindBuild, PlanForFeatures, ResolveFeatures, MissingFromBuild, OriginAllowed, Distinct;
    var c := CallerOf(req, Resolve(reg, licences, tier, req, seat, d));
    DeliveryWithinBuild(reg, bucket, c, d);
    if c.pinned == "" && c.override == "" {
      DefaultsRespectChannels(reg, bucket, c, d);
    }
    ResolvedHasVersion(reg, bucket, c, d);
  }

  /**
   The install cap decides only for licences in good standing that have one, so no other request can use up a
   seat: with any other, the session is the same whatever the cap would answer.
   */
  lemma SeatIsAskedLast(reg: Registry, bucket: (string, string) -> nat, licences: map<string, Licence>, tier: Tier,
                        req: SessionRequest, d: Defaults)
    ensures Open(reg, bucket, licences, tier, req, true, d) != Open(reg, bucket, licences, tier, req, false, d) ==>
              InGoodStanding(licences, req) && licences[req.key.lic].maxInstalls > 0
  {
    hide Admission, InGoodStanding, WhyRefused, ResolveForLicence, PlanForFeatures;
    if !req.key.NoKey? {
      AdmissionDecidesExactly(licences, req, true);
      AdmissionDecidesExactly(licences, req, false);
    }
  }

  /** No session, of any kind, promises a feature its own build does not have. */
  lemma SessionNeverOverpromises(reg: Registry, bucket: (string, string) -> nat, licences: map<string, Licence>,
                                 tier: Tier,
                                 req: SessionRequest, seat: bool, d: Defaults)
    requires Open(reg, bucket, licences, tier, req, seat, d).Ok?
    ensures var s := Open(reg, bucket, licences, tier, req, seat, d).value.delivery;
            var b := FindBuild(reg.builds, s.version, s.plan);
            && b.Some? && s.digest == b.value.digest && s.key == b.value.key
            && (forall f | f in s.features :: f in b.value.supported)
  {
    var c := CallerOf(req, Resolve(reg, licences, tier, req, seat, d));
    DeliveryWithinBuild(reg, bucket, c, d);
    hide ResolveForLicence, Resolve, FindBuild;
  }

  /** The version resolution settles on is the one the plan was chosen for. */
  predicate PlanFitsVersion(reg: Registry, bucket: (string, string) -> nat, l: Licence, req: SessionRequest)
    requires req.key.Signed?
  {
    l.pinned != ""
    || (req.version == "" && (l.override != ""
                              || CanaryFor(reg, bucket, l.channel, OrElse(req.key.lic, req.installId)) == ""))
  }

  /**
   Nothing paid for is lost: if neither the client nor a trial moves the version and some one build of it
   has the whole package, an admitted session grants every feature, from the free build whenever that suffices.
   */
  lemma WholePackageIsGranted(reg: Registry, bucket: (string, string) -> nat, licences: map<string, Licence>,
                              tier: Tier,
                              req: SessionRequest, seat: bool, d: Defaults, l: Licence, whole: Build)
    requires UniqueBuilds(reg.builds) && req.key.Signed? && Admission(licences, req, seat) == Ok(l)
    requires PlanFitsVersion(reg, bucket, l, req)
    requires ALL_FEATURES !in PackageFeatures(l) && "" !in PackageFeatures(l)
    requires whole in reg.builds && whole.version == VersionForPlan(l, d) && Covers(whole, PackageFeatures(l))
    requires Open(reg, bucket, licences, tier, req, seat, d).Ok?
    ensures var s := Open(reg, bucket, licences, tier, req, seat, d).value.delivery;
            && s.version == VersionForPlan(l, d)
            && multiset(s.features) == multiset(Distinct(PackageFeatures(l))) && s.missing == []
            && (s.plan == FREE <==>
                  PackageFeatures(l) == []
                  || (FindBuild(reg.builds, s.version, FREE).Some?
                      && Covers(FindBuild(reg.builds, s.version, FREE).value, PackageFeatures(l))))
  {
    var c := CallerOf(req, Resolve(reg, licences, tier, req, seat, d));
    DecisionIsPlanVersion(reg, bucket, licences, tier, req, seat, d, l);
    hide ResolveForLicence, Decision, PlanForFeatures, BeforeSeat, Covers, FindBuild, Distinct, UniqueBuilds;
    assert VersionForPlan(l, d) != "" by {
      ResolvedHasVersion(reg, bucket, c, d);
    }
    WholeDelivery(reg, bucket, c, d, PackageFeatures(l), whole);
  }

  /** A caller on the plan chosen for its own version and package is granted the package whole. */
  lemma WholeDelivery(reg: Registry, bucket: (string, string) -> nat, c: Caller, d: Defaults, package: seq<Feature>,
                      whole: Build)
    requires UniqueBuilds(reg.builds) && ResolveForLicence(reg, bucket, c, d).Ok?
    requires ALL_FEATURES !in package && "" !in package && c.package == Distinct(package)
    requires whole in reg.builds && whole.version == Decision(reg, bucket, c, d).0 && Covers(whole, package)
    requires c.plan == PlanForFeatures(reg.builds, Decision(reg, bucket, c, d).0, package)
    ensures var s := ResolveForLicence(reg, bucket, c, d).value;
            && s.version == Decision(reg, bucket, c, d).0
            && multiset(s.features) == multiset(Distinct(package)) && s.missing == []
            && (s.plan == FREE <==>
                  package == []
                  || (FindBuild(reg.builds, s.version, FREE).Some?
                      && Covers(FindBuild(reg.builds, s.version, FREE).value, package)))
  {
    ResolvedHasVersion(reg, bucket, c, d);
    DeliveryWithinBuild(reg, bucket, c, d);
    WantedIsPackage(package);
    PlanIsSmallestSufficient(reg.builds, whole.version, package);
    hide ResolveForLicence, FindBuild, Decision, PlanForFeatures, ResolveFeatures, MissingFromBuild, UniqueBuilds,
      Wanted;
    var b := FindBuild(reg.builds, whole.version, c.plan);
    assert package != [] ==> Covers(b.value, package);
    assert forall f | f in package :: f in b.value.supported;
    GrantedWholeExactly(c.package, b.value.supported);
  }

  lemma DecisionIsPlanVersion(reg: Registry, bucket: (string, string) -> nat, licences: map<string, Licence>,
                              tier: Tier,
                              req: SessionRequest, seat: bool, d: Defaults, l: Licence)
    requires req.key.Signed? && Admission(licences, req, seat) == Ok(l) && PlanFitsVersion(reg, bucket, l, req)
    ensures var c := CallerOf(req, Resolve(reg, licences, tier, req, seat, d));
            Decision(reg, bucket, c, d).0 == VersionForPlan(l, d)
  {
  }

  lemma WantedIsPackage(package: seq<Feature>)
    requires ALL_FEATURES !in package && "" !in package
    ensures Wanted(package) == package
  {
    KeepAgrees(package, f => f != "" && f != ALL_FEATURES, f => true);
    KeepAll(package);
  }

  lemma {:induction false} KeepAll(list: seq<Feature>)
    ensures Keep(list, f => true) == list
    decreases |list|
  {
    if list != [] {
      KeepAll(list[1..]);
    }
  }

  /** The version an admitted request is resolved to, from the request, the licence and the registry alone. */
  function DecidedVersion(reg: Registry, bucket: (string, string) -> nat, l: Licence, req: SessionRequest,
                          d: Defaults): string
    requires req.key.Signed?
  {
    ResolveVersion(Request(OrElse(l.pinned, req.version), l.override,
                           CanaryFor(reg, bucket, l.channel, OrElse(req.key.lic, req.installId)),
                           d.channelDefault, d.globalDefault)).0
  }

  function ChosenPlan(reg: Registry, l: Licence, d: Defaults): string {
    var version := VersionForPlan(l, d);
    if version == "" then PREMIUM else PlanForFeatures(reg.builds, version, PackageFeatures(l))
  }

  /** The build the request will be served: its decided version, on the plan chosen for the licence's own version. */
  function BuildFor(reg: Registry, bucket: (string, string) -> nat, l: Licence, req: SessionRequest,
                    d: Defaults): Option<Build>
    requires req.key.Signed?
  {
    FindBuild(reg.builds, DecidedVersion(reg, bucket, l, req, d), ChosenPlan(reg, l, d))
  }

  lemma AdmittedCaller(reg: Registry, bucket: (string, string) -> nat, licences: map<string, Licence>, tier: Tier,
                       req: SessionRequest, seat: bool, d: Defaults, l: Licence)
    requires req.key.Signed? && Admission(licences, req, seat) == Ok(l)
    ensures var c := CallerOf(req, Resolve(reg, licences, tier, req, seat, d));
            && c.package == Distinct(PackageFeatures(l)) && c.plan == ChosenPlan(reg, l, d)
            && Decision(reg, bucket, c, d).0 == DecidedVersion(reg, bucket, l, req, d)
  {
    hide BeforeSeat, PlanForFeatures, CanaryFor, Distinct;
  }

  /**
   Whatever version the client names and whatever is on trial, an admitted session that opens grants its
   package whole exactly when the build its request leads to has it all.
   */
  lemma PackageIsWholeExactly(reg: Registry, bucket: (string, string) -> nat, licences: map<string, Licence>,
                              tier: Tier,
                              req: SessionRequest, seat: bool, d: Defaults, l: Licence)
    requires req.key.Signed? && Admission(licences, req, seat) == Ok(l) && ALL_FEATURES !in PackageFeatures(l)
    ensures var r, b := Open(reg, bucket, licences, tier, req, seat, d), BuildFor(reg, bucket, l, req, d);
            r.Ok? ==>
              && b.Some? && r.value.delivery.version == b.value.version && r.value.delivery.plan == b.value.plan
              && (r.value.delivery.missing == [] <==> Covers(b.value, PackageFeatures(l)))
              && forall f :: f in r.value.delivery.missing <==> f in PackageFeatures(l) && f !in b.value.supported
  {
    hide ResolveForLicence, FindBuild, PlanForFeatures, BeforeSeat, ResolveFeatures, MissingFromBuild, Decision,
      CanaryFor;
    var c := CallerOf(req, Resolve(reg, licences, tier, req, seat, d));
    AdmittedCaller(reg, bucket, licences, tier, req, seat, d, l);
    if ResolveForLicence(reg, bucket, c, d).Ok? {
      ResolvedHasVersion(reg, bucket, c, d);
      DeliveryWithinBuild(reg, bucket, c, d);
      var b := FindBuild(reg.builds, DecidedVersion(reg, bucket, l, req, d), c.plan).value;
      GrantedWholeExactly(c.package, b.supported);
      MissingMembers(c.package, b.supported);
      assert Covers(b, PackageFeatures(l)) <==> forall f | f in c.package :: f in b.supported;
    }
  }

  lemma MissingMembers(package: seq<Feature>, supported: seq<Feature>)
    requires ALL_FEATURES !in package
    ensures forall f :: f in MissingFromBuild(package, supported) <==> f in package && f !in supported
  {
    SortMembers(Keep(package, f => f !in supported));
  }

  /** A request for a named version opens as soon as that version has a build of the chosen plan. */
  lemma NamedVersionOpens(reg: Registry, bucket: (string, string) -> nat, licences: map<string, Licence>, tier: Tier,
                          req: SessionRequest, seat: bool, d: Defaults, l: Licence)
    requires req.key.Signed? && Admission(licences, req, seat) == Ok(l) && OrElse(l.pinned, req.version) != ""
    ensures Open(reg, bucket, licences, tier, req, seat, d).Ok? <==> BuildFor(reg, bucket, l, req, d).Some?
  {
    hide FindBuild, PlanForFeatures, BeforeSeat, CanaryFor, ResolveFeatures, MissingFromBuild, Distinct;
  }

  const FREE_ONE := Build("1", FREE, ["a"], "k1", "d1", Stable, false, "")
  const FREE_TWO := Build("2", FREE, ["b"], "k2", "d2", Stable, false, "")
  const PREMIUM_TWO := Build("2", PREMIUM, ["a", "b"], "k3", "d3", Stable, false, "")

  lemma ExampleBuilds()
    ensures var builds := [FREE_ONE, FREE_TWO, PREMIUM_TWO];
            && UniqueBuilds(builds) && PlanForFeatures(builds, "1", ["a"]) == FREE
            && FindBuild(builds, "2", FREE) == Some(FREE_TWO) && FindBuild(builds, "2", PREMIUM) == Some(PREMIUM_TWO)
  {
    hide PlanForFeatures;
    var builds := [FREE_ONE, FREE_TWO, PREMIUM_TWO];
    assert FindBuild(builds, "1", FREE) == Some(FREE_ONE);
    assert builds[1..] == [FREE_TWO, PREMIUM_TWO] && builds[1..][1..] == [PREMIUM_TWO];
    WantedIsPackage(["a"]);
    PlanIsSmallestSufficient(builds, "1", ["a"]);
    assert Covers(FREE_ONE, ["a"]);
  }

  /**
   A licence for feature "a" on default version "1", whose free build has it, asks for version "2" and is
   served its free build, which has not, although the premium build of "2" does.
   */
  lemma NamedVersionMayLoseFeature(bucket: (string, string) -> nat, tier: Tier, seat: bool)
    ensures var reg := EMPTY.(builds := [FREE_ONE, FREE_TWO, PREMIUM_TWO]);
            var l := Licence(false, false, [], "", "", Stable, ["a"], [], 0);
            var r := Open(reg, bucket, map["lic" := l], tier, SessionRequest(Signed("lic"), "2", "", None), seat,
                          Defaults("", "1"));
            && r.Ok? && r.value.delivery.version == "2" && r.value.delivery.plan == FREE
            && "a" in r.value.delivery.missing && "a" in PREMIUM_TWO.supported
  {
    hide PlanForFeatures, FindBuild, Open, CanaryFor;
    var reg := EMPTY.(builds := [FREE_ONE, FREE_TWO, PREMIUM_TWO]);
    var l := Licence(false, false, [], "", "", Stable, ["a"], [], 0);
    var req := SessionRequest(Signed("lic"), "2", "", None);
    ExampleBuilds();
    NamedVersionOpens(reg, bucket, map["lic" := l], tier, req, seat, Defaults("", "1"), l);
    PackageIsWholeExactly(reg, bucket, map["lic" := l], tier, req, seat, Defaults("", "1"), l);
    assert "a" !in FREE_TWO.supported && "a" in ["a"];
  }
}
