/** The engine registry's tables and the methods that write them, each proved to be its specification. */
module EngineServices {
  import opened Common
  import opened VersionResolution
  import opened EngineRegistry

  class EngineVersionService {
    var builds: seq<Build>
    var defaults: map<Scope, string>
    var history: seq<Move>
    var canaries: map<Scope, CanaryRow>
    var stored: set<string>

    ghost function Contents(): Registry
      reads this
    {
      Registry(builds, defaults, history, canaries, stored)
    }

    constructor ()
      ensures Contents() == EMPTY
    {
      builds, defaults, history, canaries, stored := [], map[], [], map[], {};
    }

    method Find(version: string, plan: string) returns (b: Option<Build>)
      ensures b == FindBuild(builds, version, plan)
    {
      var i := 0;
      while i < |builds|
        invariant 0 <= i <= |builds|
        invariant FindBuild(builds, version, plan) == FindBuild(builds[i..], version, plan)
      {
        if builds[i].version == version && builds[i].plan == plan {
          return Some(builds[i]);
        }
        i := i + 1;
      }
      return None;
    }

    /** `isComplete`, with the plans whose bytes cannot be downloaded. */
    method Completeness(version: string) returns (missingPlans: seq<string>)
      ensures missingPlans == [] <==> IsComplete(Contents(), version)
      ensures forall plan ::
                plan in missingPlans <==> plan in [FREE, PREMIUM] && !Downloadable(Contents(), version, plan)
    {
      missingPlans := [];
      var plans := [FREE, PREMIUM];
      for i := 0 to |plans|
        invariant forall plan ::
                    plan in missingPlans <==> plan in plans[..i] && !Downloadable(Contents(), version, plan)
      {
        var row := Find(version, plans[i]);
        if row.None? || StoredUnder(row.value) !in stored {
          missingPlans := missingPlans + [plans[i]];
        }
        assert plans[..i + 1] == plans[..i] + [plans[i]];
      }
      assert FREE in plans && PREMIUM in plans && (missingPlans != [] ==> missingPlans[0] in missingPlans);
    }

    /** Bytes are stored before the row, so a failed upload leaves no row. */
    method PublishBuild(b: Build, declaredSize: nat, upload: Option<Upload>) returns (refused: Option<Refusal>)
      modifies this`builds, this`stored
      ensures var spec := Publish(old(Contents()), b, declaredSize, upload);
              && Contents() == Otherwise(old(Contents()), spec)
              && refused == (if spec.Ok? then None else Some(spec.error))
      ensures refused.None? ==>
                && builds == old(builds) + [b.(retired := false)]
                && FindBuild(builds, b.version, b.plan) == Some(b.(retired := false))
                && (upload.Some? ==> Downloadable(Contents(), b.version, b.plan))
      ensures UniqueBuilds(old(builds)) ==> UniqueBuilds(builds)
    {
      AppendFinds(builds, b.(retired := false), b.version, b.plan);
      var existing := Find(b.version, b.plan);
      if existing.Some? {
        return Some(AlreadyPublished);
      }
      if b.supported == [] {
        return Some(NoFeatures);
      }
      if !IsHex64(b.digest) {
        return Some(BadDigest);
      }
      if upload.Some? {
        if upload.value.hash != StoredUnder(b) {
          return Some(HashMismatch);
        }
        if declaredSize != 0 && declaredSize != upload.value.size {
          return Some(SizeMismatch);
        }
        if !upload.value.stores {
          return Some(StorageFailed);
        }
        stored := stored + {upload.value.hash};
      }
      builds := builds + [b.(retired := false)];
      return None;
    }

    /** `restored` says whether the bytes had been missing. */
    method RestoreBundleBytes(version: string, plan: string, hash: string) returns (r: Result<bool, Refusal>)
      modifies this`stored
      ensures var spec := Restore(old(Contents()), version, plan, hash);
              && Contents() == (if spec.Ok? then spec.value.0 else old(Contents()))
              && r == (if spec.Ok? then Ok(spec.value.1) else Err(spec.error))
      ensures r.Ok? ==>
                && Downloadable(Contents(), version, plan) && stored == old(stored) + {hash}
                && (r.value <==> hash !in old(stored))
    {
      var row := Find(version, plan);
      if row.None? {
        return Err(UnknownBuild);
      }
      if hash != StoredUnder(row.value) {
        return Err(HashMismatch);
      }
      if hash in stored {
        return Ok(false);
      }
      stored := stored + {hash};
      return Ok(true);
    }

    method PromoteVersion(version: string, channel: Channel) returns (refused: Option<Refusal>)
      modifies this`builds
      ensures var spec := Promote(old(Contents()), version, channel);
              && Contents() == Otherwise(old(Contents()), spec)
              && refused == (if spec.Ok? then None else Some(spec.error))
      ensures refused.None? ==> IsComplete(old(Contents()), version) && |builds| == |old(builds)|
      ensures refused.None? ==>
                forall i | 0 <= i < |builds| ::
                  builds[i] == if old(builds)[i].version == version then old(builds)[i].(channel := channel)
                    else old(builds)[i]
    {
      var missingPlans := Completeness(version);
      if missingPlans != [] {
        return Some(Incomplete);
      }
      hide Promoted, Retired, FindBuild, RowsOf;
      var was := builds;
      var i := 0;
      while i < |builds|
        invariant 0 <= i <= |builds| == |was|
        invariant forall k | 0 <= k < i :: builds[k] == PromotedRow(was[k], version, channel)
        invariant forall k | i <= k < |was| :: builds[k] == was[k]
      {
        if builds[i].version == version {
          builds := builds[i := builds[i].(channel := channel)];
        }
        i := i + 1;
      }
      assert builds == Promoted(was, version, channel);
      return None;
    }

    method RetireVersion(version: string, notes: string) returns (refused: Option<Refusal>)
      modifies this`builds
      ensures var spec := Retire(old(Contents()), version, notes);
              && Contents() == Otherwise(old(Contents()), spec)
              && refused == (if spec.Ok? then None else Some(spec.error))
      ensures refused.None? ==> |builds| == |old(builds)|
      ensures refused.None? ==>
                forall i | 0 <= i < |builds| ::
                     && SameArtifact(builds[i], old(builds)[i]) && builds[i].channel == old(builds)[i].channel
                     && (builds[i].retired <==> old(builds)[i].retired || builds[i].version == version)
    {
      if RowsOf(builds, version) == [] {
        return Some(UnknownBuild);
      }
      hide Promoted, Retired, FindBuild, RowsOf;
      var was := builds;
      var i := 0;
      while i < |builds|
        invariant 0 <= i <= |builds| == |was|
        invariant forall k | 0 <= k < i :: builds[k] == RetiredRow(was[k], version, notes)
        invariant forall k | i <= k < |was| :: builds[k] == was[k]
      {
        if builds[i].version == version {
          builds := builds[i := builds[i].(retired := true)];
          if notes != "" {
            builds := builds[i := builds[i].(notes := notes)];
          }
        }
        i := i + 1;
      }
      assert builds == Retired(was, version, notes);
      return None;
    }

    /** `recorded` is whether the history row can be written; a failed write never stops the move. */
    method MoveDefault(scope: Scope, version: string, rollback: bool, recorded: bool) returns (refused: Option<Refusal>)
      modifies this`defaults, this`history
      ensures var spec := SetDefault(old(Contents()), scope, version, rollback, recorded);
              && Contents() == Otherwise(old(Contents()), spec)
              && refused == (if spec.Ok? then None else Some(spec.error))
      ensures refused.None? ==>
                && IsComplete(Contents(), version) && defaults == old(defaults)[scope := version]
                && (!rollback ==> forall b | b in builds && b.version == version :: !b.retired)
      ensures refused.Some? ==> Contents() == old(Contents())
      ensures Linked(old(Contents())) && recorded ==> Linked(Contents())
    {
      hide Linked, IsComplete, RowsOf;
      if recorded && Linked(Contents()) && SetDefault(Contents(), scope, version, rollback, true).Ok? {
        MoveKeepsLinked(Contents(), scope, version, rollback);
      }
      var missingPlans := Completeness(version);
      if missingPlans != [] {
        return Some(Incomplete);
      }
      if !rollback && exists b | b in RowsOf(builds, version) :: b.retired {
        return Some(RetiredVersion);
      }
      var fromVersion := if scope in defaults then defaults[scope] else "";
      defaults := defaults[scope := version];
      if recorded && fromVersion != version {
        history := history + [Move(scope, fromVersion, version, rollback)];
      }
      CompletenessIgnoresPointers(old(Contents()), Contents(), version);
      return None;
    }

    /** `previousDefault`: the newest row of the scope, read from the end. */
    method Previous(scope: Scope) returns (version: string)
      ensures version == PreviousDefault(history, scope)
    {
      var i := |history|;
      assert history[..i] == history;
      while i > 0
        invariant 0 <= i <= |history|
        invariant PreviousDefault(history, scope) == PreviousDefault(history[..i], scope)
      {
        i := i - 1;
        assert history[..i + 1][..i] == history[..i];
        if history[i].scope == scope {
          return history[i].from;
        }
      }
      return "";
    }

    method RollBack(scope: Scope, recorded: bool) returns (refused: Option<Refusal>)
      modifies this`defaults, this`history
      ensures var spec := Rollback(old(Contents()), scope, recorded);
              && Contents() == Otherwise(old(Contents()), spec)
              && refused == (if spec.Ok? then None else Some(spec.error))
      ensures refused.None? ==> scope in defaults && defaults[scope] == PreviousDefault(old(history), scope)
      ensures refused.None? ==> IsComplete(Contents(), defaults[scope])
      ensures refused.Some? ==> Contents() == old(Contents())
      ensures Linked(old(Contents())) && recorded ==> Linked(Contents())
    {
      var target := Previous(scope);
      if target == "" {
        return Some(NothingRecorded);
      }
      refused := MoveDefault(scope, target, true, recorded);
    }

    method BeginCanary(scope: Scope, version: string, percent: int) returns (refused: Option<Refusal>)
      modifies this`canaries
      ensures var spec := StartCanary(old(Contents()), scope, version, percent);
              && Contents() == Otherwise(old(Contents()), spec)
              && refused == (if spec.Ok? then None else Some(spec.error))
      ensures refused.None? ==>
                && scope in canaries && 0 <= canaries[scope].percent <= 100
                && IsComplete(Contents(), canaries[scope].version)
    {
      var missingPlans := Completeness(version);
      if missingPlans != [] {
        return Some(Incomplete);
      }
      canaries := canaries[scope := CanaryRow(version, Clamped(percent))];
      return None;
    }

    /** The cheapest build that has every feature asked for by name; the richer plan if the rows cannot be read. */
    method PlanFor(version: string, package: seq<Feature>, queryFails: bool) returns (plan: string)
      ensures plan == if queryFails && Wanted(package) != [] then PREMIUM else PlanForFeatures(builds, version, package)
    {
      hide FreeFirst, RowsOf, FirstCovering;
      var wanted := Wanted(package);
      if wanted == [] {
        return FREE;
      }
      if queryFails {
        return PREMIUM;
      }
      plan := FirstThatCovers(FreeFirst(RowsOf(builds, version)), wanted);
    }

    method FirstThatCovers(ordered: seq<Build>, wanted: seq<Feature>) returns (plan: string)
      ensures plan == FirstCovering(ordered, wanted)
    {
      hide Covers;
      var i := 0;
      while i < |ordered|
        invariant 0 <= i <= |ordered|
        invariant FirstCovering(ordered, wanted) == FirstCovering(ordered[i..], wanted)
      {
        assert ordered[i..][1..] == ordered[i + 1..];
        if Covers(ordered[i], wanted) {
          return ordered[i].plan;
        }
        i := i + 1;
      }
      return PREMIUM;
    }

    method Deliver(bucket: (string, string) -> nat, c: Caller, d: Defaults) returns (r: Result<Delivery, Refusal>)
      ensures r == ResolveForLicence(Contents(), bucket, c, d)
    {
      var canary := CanaryFor(Registry(builds, defaults, history, canaries, stored), bucket, c.channel, c.identity);
      var (version, source) := ResolveVersion(Request(c.pinned, c.override, canary, d.channelDefault, d.globalDefault));
      if version == "" {
        return Err(NotConfigured);
      }
      var build := Find(version, c.plan);
      if build.None? {
        return Err(UnknownBuild);
      }
      var customerChose := source == Pin || source == Override;
      if !customerChose {
        if build.value.retired {
          return Err(RetiredVersion);
        }
        if !ChannelAllows(c.channel, build.value.channel) {
          return Err(OffChannel);
        }
      }
      return Ok(Delivery(version, c.plan, build.value.key, build.value.digest,
                         ResolveFeatures(c.package, build.value.supported),
                         MissingFromBuild(c.package, build.value.supported), source));
    }
  }
}
