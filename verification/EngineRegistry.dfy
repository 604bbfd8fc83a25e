/**
 The engine registry: immutable builds, movable default pointers with their history, gradual releases,
 and the resolution of one caller's delivery. `stored` is the set of digests whose bytes are downloadable.
 */
module EngineRegistry {
  import opened Common
  import opened VersionResolution
  import DomainPolicy

  const FREE := "free"
  const PREMIUM := "premium"

  datatype Scope = Global | ForChannel(channel: Channel)

  datatype Build = Build(
    version: string, plan: string, supported: seq<Feature>, key: string, digest: string, channel: Channel,
    retired: bool, notes: string)

  /** A recorded pointer move; `from` is empty for the first one of its scope. */
  datatype Move = Move(scope: Scope, from: string, to: string, rollback: bool)

  datatype CanaryRow = CanaryRow(version: string, percent: int)

  datatype Registry = Registry(
    builds: seq<Build>, defaults: map<Scope, string>, history: seq<Move>, canaries: map<Scope, CanaryRow>,
    stored: set<string>)

  datatype Refusal =
    | AlreadyPublished | NoFeatures | BadDigest | HashMismatch | SizeMismatch | StorageFailed
    | UnknownBuild | Incomplete | RetiredVersion | NothingRecorded | NotConfigured | OffChannel

  const EMPTY := Registry([], map[], [], map[], {})

  // ---- Builds --------------------------------------------------------------

  function FindBuild(builds: seq<Build>, version: string, plan: string): (b: Option<Build>)
    ensures b.Some? ==> b.value in builds && b.value.version == version && b.value.plan == plan
    ensures b.None? ==> forall x | x in builds :: x.version != version || x.plan != plan
    decreases |builds|
  {
    if builds == [] then None
    else if builds[0].version == version && builds[0].plan == plan then Some(builds[0])
    else FindBuild(builds[1..], version, plan)
  }

  function RowsOf(builds: seq<Build>, version: string): (rows: seq<Build>)
    ensures forall b :: b in rows <==> b in builds && b.version == version
    decreases |builds|
  {
    if builds == [] then []
    else (if builds[0].version == version then [builds[0]] else []) + RowsOf(builds[1..], version)
  }

  /** Two rows never describe the same version and plan. */
  ghost predicate UniqueBuilds(builds: seq<Build>) {
    forall i, j | 0 <= i < j < |builds| :: builds[i].version != builds[j].version || builds[i].plan != builds[j].plan
  }

  predicate IsHex64(s: string) {
    |s| == 64 && forall c | c in s :: '0' <= c <= '9' || 'a' <= c <= 'f' || 'A' <= c <= 'F'
  }

  function StoredUnder(b: Build): string {
    DomainPolicy.Lower(b.digest)
  }

  predicate Downloadable(reg: Registry, version: string, plan: string) {
    var b := FindBuild(reg.builds, version, plan);
    b.Some? && StoredUnder(b.value) in reg.stored
  }

  /** Every required plan has a build whose bytes can be fetched. */
  predicate IsComplete(reg: Registry, version: string) {
    Downloadable(reg, version, FREE) && Downloadable(reg, version, PREMIUM)
  }

  /** Bytes that arrive with a publication: what they hash to, how many, and whether storing them works. */
  datatype Upload = Upload(hash: string, size: nat, stores: bool)

  function Publish(reg: Registry, b: Build, declaredSize: nat, upload: Option<Upload>): Result<Registry, Refusal> {
    if FindBuild(reg.builds, b.version, b.plan).Some? then Err(AlreadyPublished)
    else if b.supported == [] then Err(NoFeatures)
    else if !IsHex64(b.digest) then Err(BadDigest)
    else if upload.Some? && upload.value.hash != StoredUnder(b) then Err(HashMismatch)
    else if upload.Some? && declaredSize != 0 && declaredSize != upload.value.size then Err(SizeMismatch)
    else if upload.Some? && !upload.value.stores then Err(StorageFailed)
    else Ok(reg.(builds := reg.builds + [b.(retired := false)],
                 stored := if upload.Some? then reg.stored + {upload.value.hash} else reg.stored))
  }

  /** Whether bytes had to be put back, with the registry after it. */
  function Restore(reg: Registry, version: string, plan: string, hash: string): Result<(Registry, bool), Refusal> {
    var b := FindBuild(reg.builds, version, plan);
    if b.None? then Err(UnknownBuild)
    else if hash != StoredUnder(b.value) then Err(HashMismatch)
    else if hash in reg.stored then Ok((reg, false))
    else Ok((reg.(stored := reg.stored + {hash}), true))
  }

  function PromotedRow(b: Build, version: string, channel: Channel): Build {
    if b.version == version then b.(channel := channel) else b
  }

  function Promoted(builds: seq<Build>, version: string, channel: Channel): (out: seq<Build>)
    ensures |out| == |builds|
    ensures forall i | 0 <= i < |builds| :: out[i] == PromotedRow(builds[i], version, channel)
    decreases |builds|
  {
    if builds == [] then [] else [PromotedRow(builds[0], version, channel)] + Promoted(builds[1..], version, channel)
  }

  function Promote(reg: Registry, version: string, channel: Channel): Result<Registry, Refusal> {
    if !IsComplete(reg, version) then Err(Incomplete)
    else Ok(reg.(builds := Promoted(reg.builds, version, channel)))
  }

  function RetiredRow(b: Build, version: string, notes: string): Build {
    if b.version == version then b.(retired := true, notes := if notes != "" then notes else b.notes) else b
  }

  function Retired(builds: seq<Build>, version: string, notes: string): (out: seq<Build>)
    ensures |out| == |builds|
    ensures forall i | 0 <= i < |builds| :: out[i] == RetiredRow(builds[i], version, notes)
    decreases |builds|
  {
    if builds == [] then [] else [RetiredRow(builds[0], version, notes)] + Retired(builds[1..], version, notes)
  }

  function Retire(reg: Registry, version: string, notes: string): Result<Registry, Refusal> {
    if RowsOf(reg.builds, version) == [] then Err(UnknownBuild)
    else Ok(reg.(builds := Retired(reg.builds, version, notes)))
  }

  // ---- Default pointers ----------------------------------------------------

  function Current(reg: Registry, scope: Scope): string {
    if scope in reg.defaults then reg.defaults[scope] else ""
  }

  /** `recorded` says whether the best-effort history write succeeds. */
  function SetDefault(reg: Registry, scope: Scope, version: string, rollback: bool, recorded: bool)
    : Result<Registry, Refusal>
  {
    if !IsComplete(reg, version) then Err(Incomplete)
    else if !rollback && exists b | b in RowsOf(reg.builds, version) :: b.retired then Err(RetiredVersion)
    else
      var from := Current(reg, scope);
      Ok(reg.(defaults := reg.defaults[scope := version],
              history := if recorded && from != version then reg.history + [Move(scope, from, version, rollback)]
                else reg.history))
  }

  function Moves(history: seq<Move>, scope: Scope): (moves: seq<Move>)
    ensures forall m | m in moves :: m.scope == scope
  {
    if history == [] then []
    else
      var m := history[|history| - 1];
      Moves(history[..|history| - 1], scope) + if m.scope == scope then [m] else []
  }

  /** The version before the scope's latest recorded move; empty when there is none. */
  function PreviousDefault(history: seq<Move>, scope: Scope): string {
    var moves := Moves(history, scope);
    if moves == [] then "" else moves[|moves| - 1].from
  }

  function Rollback(reg: Registry, scope: Scope, recorded: bool): Result<Registry, Refusal> {
    var target := PreviousDefault(reg.history, scope);
    if target == "" then Err(NothingRecorded) else SetDefault(reg, scope, target, true, recorded)
  }

  // ---- Gradual releases ----------------------------------------------------

  function Clamped(percent: int): int {
    if percent < 0 then 0 else if percent > 100 then 100 else percent
  }

  /** `bucket` is the keyed hash of an identity under a version, below 100. */
  predicate InCanary(bucket: (string, string) -> nat, identity: string, version: string, percent: int) {
    var pct := Clamped(percent);
    var id := DomainPolicy.TrimRight(DomainPolicy.TrimLeft(identity));
    pct > 0 && version != "" && (pct >= 100 || (id != "" && bucket(id, version) < pct))
  }

  function StartCanary(reg: Registry, scope: Scope, version: string, percent: int): Result<Registry, Refusal> {
    if !IsComplete(reg, version) then Err(Incomplete)
    else Ok(reg.(canaries := reg.canaries[scope := CanaryRow(version, Clamped(percent))]))
  }

  function CanaryFor(reg: Registry, bucket: (string, string) -> nat, channel: Channel, identity: string): string {
    var scope := if ForChannel(channel) in reg.canaries then ForChannel(channel) else Global;
    if identity == "" || scope !in reg.canaries || reg.canaries[scope].percent <= 0 then ""
    else
      var row := reg.canaries[scope];
      if InCanary(bucket, identity, row.version, row.percent) then row.version else ""
  }

  // ---- Plans and delivery --------------------------------------------------

  function Wanted(package: seq<Feature>): seq<Feature> {
    Keep(package, f => f != "" && f != ALL_FEATURES)
  }

  predicate Covers(b: Build, wanted: seq<Feature>) {
    forall f | f in wanted :: f in b.supported
  }

  function FreeFirst(rows: seq<Build>): (out: seq<Build>)
    ensures forall b :: b in out <==> b in rows
  {
    KeepRows(rows, (b: Build) => b.plan == FREE) + KeepRows(rows, (b: Build) => b.plan != FREE)
  }

  function KeepRows(rows: seq<Build>, keep: Build -> bool): (out: seq<Build>)
    ensures forall b :: b in out <==> b in rows && keep(b)
    decreases |rows|
  {
    if rows == [] then [] else (if keep(rows[0]) then [rows[0]] else []) + KeepRows(rows[1..], keep)
  }

  /** The plan of the first row that covers everything wanted; the richer plan when none does. */
  function FirstCovering(rows: seq<Build>, wanted: seq<Feature>): string
    decreases |rows|
  {
    if rows == [] then PREMIUM
    else if Covers(rows[0], wanted) then rows[0].plan
    else FirstCovering(rows[1..], wanted)
  }

  function PlanForFeatures(builds: seq<Build>, version: string, package: seq<Feature>): string {
    if Wanted(package) == [] then FREE else FirstCovering(FreeFirst(RowsOf(builds, version)), Wanted(package))
  }

  datatype Caller = Caller(pinned: string, override: string, channel: Channel, package: seq<Feature>, plan: string,
                           identity: string)

  datatype Delivery = Delivery(
    version: string, plan: string, key: string, digest: string, features: seq<Feature>, missing: seq<Feature>,
      source: Source)

  datatype Defaults = Defaults(channelDefault: string, globalDefault: string)

  function DefaultsFor(reg: Registry, channel: Channel): Defaults {
    Defaults(Current(reg, ForChannel(channel)), Current(reg, Global))
  }

  function Decision(reg: Registry, bucket: (string, string) -> nat, c: Caller, d: Defaults): (string, Source) {
    ResolveVersion(Request(c.pinned, c.override, CanaryFor(reg, bucket, c.channel, c.identity), d.channelDefault,
                           d.globalDefault))
  }

  function ResolveForLicence(reg: Registry, bucket: (string, string) -> nat, c: Caller, d: Defaults)
    : Result<Delivery, Refusal>
  {
    var (version, source) := Decision(reg, bucket, c, d);
    if version == "" then Err(NotConfigured)
    else
      match FindBuild(reg.builds, version, c.plan)
      case None => Err(UnknownBuild)
      case Some(b) =>
        if !source.Pin? && !source.Override? && b.retired then Err(RetiredVersion)
        else if !source.Pin? && !source.Override? && !ChannelAllows(c.channel, b.channel) then Err(OffChannel)
        else Ok(Delivery(b.version, b.plan, b.key, b.digest, ResolveFeatures(c.package, b.supported),
                         MissingFromBuild(c.package, b.supported), source))
  }

  // ---- The registry in motion ----------------------------------------------

  datatype Step =
    | Publication(build: Build, declaredSize: nat, upload: Option<Upload>)
    | Restoration(version: string, plan: string, hash: string)
    | BytesStored(hash: string)
    | BytesLost(hash: string)
    | Promotion(version: string, to: Channel)
    | Retirement(version: string, notes: string)
    | Release(scope: Scope, version: string, recorded: bool)
    | RollingBack(scope: Scope, recorded: bool)
    | CanaryStart(scope: Scope, version: string, percent: int)
    | CanaryHalt(scope: Scope)

  function Otherwise(reg: Registry, r: Result<Registry, Refusal>): Registry {
    if r.Ok? then r.value else reg
  }

  function Next(reg: Registry, step: Step): Registry {
    match step
    case Publication(build, declaredSize, upload) => Otherwise(reg, Publish(reg, build, declaredSize, upload))
    case Restoration(version, plan, hash) =>
      var r := Restore(reg, version, plan, hash);
      if r.Ok? then r.value.0 else reg
    case BytesStored(hash) => reg.(stored := reg.stored + {hash})
    case BytesLost(hash) => reg.(stored := reg.stored - {hash})
    case Promotion(version, to) => Otherwise(reg, Promote(reg, version, to))
    case Retirement(version, notes) => Otherwise(reg, Retire(reg, version, notes))
    case Release(scope, version, recorded) => Otherwise(reg, SetDefault(reg, scope, version, false, recorded))
    case RollingBack(scope, recorded) => Otherwise(reg, Rollback(reg, scope, recorded))
    case CanaryStart(scope, version, percent) => Otherwise(reg, StartCanary(reg, scope, version, percent))
    case CanaryHalt(scope) => reg.(canaries := reg.canaries - {scope})
  }

  function Run(reg: Registry, steps: seq<Step>): Registry
    decreases |steps|
  {
    if steps == [] then reg else Run(Next(reg, steps[0]), steps[1..])
  }

  // ---- History as a path ---------------------------------------------------

  /** Each move starts where the one before ended, none stands still, and the last one ends at `end`. */
  ghost predicate Path(moves: seq<Move>, end: string) {
    if moves == [] then end == ""
    else
      var m := moves[|moves| - 1];
      m.to == end && m.from != m.to && Path(moves[..|moves| - 1], m.from)
  }

  ghost predicate Linked(reg: Registry) {
    forall scope :: Path(Moves(reg.history, scope), Current(reg, scope))
  }

  predicate Records(step: Step) {
    (step.Release? ==> step.recorded) && (step.RollingBack? ==> step.recorded)
  }

  lemma PathAppend(moves: seq<Move>, m: Move)
    requires Path(moves, m.from) && m.from != m.to
    ensures Path(moves + [m], m.to)
  {
  }

  /** What a recorded move of one scope leaves of the pointer and the rows of any scope. */
  lemma SetDefaultMoves(reg: Registry, scope: Scope, version: string, rollback: bool, s: Scope)
    requires SetDefault(reg, scope, version, rollback, true).Ok?
    ensures var after := SetDefault(reg, scope, version, rollback, true).value;
            && Current(after, s) == (if s == scope then version else Current(reg, s))
            && Moves(after.history, s) == if s != scope || Current(reg, s) == version then Moves(reg.history, s)
                                          else Moves(reg.history, s) + [Move(s, Current(reg, s), version, rollback)]
  {
  }

  lemma MoveKeepsLinked(reg: Registry, scope: Scope, version: string, rollback: bool)
    requires Linked(reg) && SetDefault(reg, scope, version, rollback, true).Ok?
    ensures Linked(SetDefault(reg, scope, version, rollback, true).value)
  {
    hide SetDefault, Current, Moves, Path;
    var after := SetDefault(reg, scope, version, rollback, true).value;
    forall s ensures Path(Moves(after.history, s), Current(after, s)) {
      assert Path(Moves(reg.history, s), Current(reg, s));
      SetDefaultMoves(reg, scope, version, rollback, s);
      if s == scope && Current(reg, s) != version {
        PathAppend(Moves(reg.history, s), Move(s, Current(reg, s), version, rollback));
      }
    }
  }

  /** While history writes succeed, every scope's rows are a path that ends at its pointer. */
  lemma {:induction false} HistoryIsLinked(reg: Registry, steps: seq<Step>)
    requires Linked(reg) && forall i | 0 <= i < |steps| :: Records(steps[i])
    ensures Linked(Run(reg, steps))
    decreases |steps|
  {
    if steps != [] {
      var step := steps[0];
      NextKeepsLinked(reg, step);
      hide Next, Linked, Records;
      HistoryIsLinked(Next(reg, step), steps[1..]);
    }
  }

  lemma NextKeepsLinked(reg: Registry, step: Step)
    requires Linked(reg) && Records(step)
    ensures Linked(Next(reg, step))
  {
    hide SetDefault, Moves, Path, IsComplete;
    match step
    case Release(scope, version, recorded) =>
      if SetDefault(reg, scope, version, false, true).Ok? {
        MoveKeepsLinked(reg, scope, version, false);
      }
    case RollingBack(scope, recorded) =>
      var target := PreviousDefault(reg.history, scope);
      if target != "" && SetDefault(reg, scope, target, true, true).Ok? {
        MoveKeepsLinked(reg, scope, target, true);
      }
    case _ =>
      assert forall s :: Current(Next(reg, step), s) == Current(reg, s);
      assert Next(reg, step).history == reg.history;
      forall s ensures Path(Moves(Next(reg, step).history, s), Current(Next(reg, step), s)) {
        assert Path(Moves(reg.history, s), Current(reg, s));
      }
  }

  /** Rolling back works exactly when a version was recorded and is complete, and then returns to it. */
  lemma RollbackReturnsExactly(reg: Registry, scope: Scope)
    requires Linked(reg)
    ensures var target := PreviousDefault(reg.history, scope);
            && (Rollback(reg, scope, true).Ok? <==> target != "" && IsComplete(reg, target))
            && (Rollback(reg, scope, true).Ok? ==>
                  var after := Rollback(reg, scope, true).value;
                  && Current(after, scope) == target
                  && PreviousDefault(after.history, scope) == Current(reg, scope)
                  && after == reg.(defaults := reg.defaults[scope := target], history := after.history))
  {
  }

  lemma RollbackKeepsLinked(reg: Registry, scope: Scope)
    requires Linked(reg) && Rollback(reg, scope, true).Ok?
    ensures Linked(Rollback(reg, scope, true).value)
  {
    hide SetDefault, Linked;
    MoveKeepsLinked(reg, scope, PreviousDefault(reg.history, scope), true);
  }

  lemma CompletenessIgnoresPointers(a: Registry, b: Registry, version: string)
    requires a.builds == b.builds && a.stored == b.stored
    ensures IsComplete(a, version) == IsComplete(b, version)
  {
  }

  /** A second rollback puts every pointer back: it repeats the move the first one undid. */
  lemma TwoRollbacksRestore(reg: Registry, scope: Scope)
    requires Linked(reg) && Rollback(reg, scope, true).Ok?
    requires Current(reg, scope) != "" && IsComplete(reg, Current(reg, scope))
    ensures var second := Rollback(Rollback(reg, scope, true).value, scope, true);
            second.Ok? && second.value.defaults == reg.defaults
  {
    hide Rollback, PreviousDefault, Linked, IsComplete;
    RollbackReturnsExactly(reg, scope);
    var once := Rollback(reg, scope, true).value;
    RollbackKeepsLinked(reg, scope);
    CompletenessIgnoresPointers(reg, once, Current(reg, scope));
    RollbackReturnsExactly(once, scope);
    assert reg.defaults == once.defaults[scope := Current(reg, scope)];
  }

  /** A version is complete exactly when its free and its premium build both have bytes to download. */
  lemma CompleteExactly(reg: Registry, version: string)
    requires UniqueBuilds(reg.builds)
    ensures IsComplete(reg, version) <==>
            forall plan | plan in ["free", "premium"] ::
              exists b | b in reg.builds ::
                b.version == version && b.plan == plan && DomainPolicy.Lower(b.digest) in reg.stored
  {
    forall plan
      ensures Downloadable(reg, version, plan) <==>
              exists b | b in reg.builds ::
                b.version == version && b.plan == plan && DomainPolicy.Lower(b.digest) in reg.stored {
      forall b | b in reg.builds && b.version == version && b.plan == plan
        ensures FindBuild(reg.builds, version, plan) == Some(b) {
        RowIsFound(reg.builds, b);
      }
    }
    hide Downloadable, UniqueBuilds, FindBuild;
    assert FREE in ["free", "premium"] && PREMIUM in ["free", "premium"];
  }

  /**
   A default moves exactly to a complete version, none of whose builds is retired unless it is rolled back to;
   the move is recorded where the write succeeds and the pointer really moves.
   */
  lemma DefaultMovesExactly(reg: Registry, scope: Scope, version: string, rollback: bool, recorded: bool)
    ensures var r := SetDefault(reg, scope, version, rollback, recorded);
            && (r == Err(Incomplete) <==> !IsComplete(reg, version))
            && (r.Ok? <==> IsComplete(reg, version)
                           && (rollback || forall b | b in reg.builds && b.version == version :: !b.retired))
            && (r.Ok? ==>
                  && r.value == reg.(defaults := reg.defaults[scope := version], history := r.value.history)
                  && r.value.history == if recorded && Current(reg, scope) != version
                                        then reg.history + [Move(scope, Current(reg, scope), version, rollback)]
                                        else reg.history)
  {
    hide IsComplete;
  }

  /** A trial starts exactly on a complete version, with its share brought between nothing and everyone. */
  lemma TrialStartsExactly(reg: Registry, scope: Scope, version: string, percent: int)
    ensures var r := StartCanary(reg, scope, version, percent);
            && (r.Ok? <==> IsComplete(reg, version))
            && (r.Ok? ==>
                  && r.value == reg.(canaries := r.value.canaries) && scope in r.value.canaries
                  && r.value.canaries == reg.canaries[scope := r.value.canaries[scope]]
                  && var row := r.value.canaries[scope];
                     && row.version == version && 0 <= row.percent <= 100
                     && (0 <= percent <= 100 ==> row.percent == percent)
                     && (percent < 0 ==> row.percent == 0) && (percent > 100 ==> row.percent == 100))
  {
    hide IsComplete;
  }

  // ---- Recovery after any other work ---------------------------------------

  /** The step leaves this scope's pointer and the stored bytes alone. */
  predicate Unrelated(step: Step, scope: Scope) {
    !step.BytesLost? && (step.Release? || step.RollingBack? ==> step.scope != scope)
  }

  lemma SetDefaultElsewhere(reg: Registry, other: Scope, version: string, rollback: bool, recorded: bool, scope: Scope)
    requires other != scope && SetDefault(reg, other, version, rollback, recorded).Ok?
    ensures var after := SetDefault(reg, other, version, rollback, recorded).value;
            && after == reg.(defaults := after.defaults, history := after.history)
            && Current(after, scope) == Current(reg, scope) && Moves(after.history, scope) == Moves(reg.history, scope)
  {
  }

  lemma UnrelatedKeepsPointer(reg: Registry, step: Step, scope: Scope)
    requires Unrelated(step, scope)
    ensures var after := Next(reg, step);
            Current(after, scope) == Current(reg, scope) && Moves(after.history, scope) == Moves(reg.history, scope)
  {
    hide IsComplete, Moves, SetDefault, RowsOf, FindBuild;
    match step
    case Release(other, version, recorded) =>
      if SetDefault(reg, other, version, false, recorded).Ok? {
        SetDefaultElsewhere(reg, other, version, false, recorded, scope);
      }
    case RollingBack(other, recorded) =>
      var target := PreviousDefault(reg.history, other);
      if target != "" && SetDefault(reg, other, target, true, recorded).Ok? {
        SetDefaultElsewhere(reg, other, target, true, recorded, scope);
      }
    case _ =>
  }

  // ---- Builds are immutable ------------------------------------------------

  /** The same artifact: only its channel, retirement and notes may differ. */
  ghost predicate SameArtifact(a: Build, b: Build) {
    && a.version == b.version && a.plan == b.plan && a.supported == b.supported && a.key == b.key
    && a.digest == b.digest
  }

  ghost predicate Outlives(a: seq<Build>, b: seq<Build>, version: string, plan: string) {
    FindBuild(a, version, plan).Some? ==>
      FindBuild(b, version, plan).Some?
        && SameArtifact(FindBuild(a, version, plan).value, FindBuild(b, version, plan).value)
  }

  lemma {:induction false} AppendFinds(builds: seq<Build>, b: Build, version: string, plan: string)
    ensures FindBuild(builds + [b], version, plan) ==
            if FindBuild(builds, version, plan).Some? then FindBuild(builds, version, plan)
            else if b.version == version && b.plan == plan then Some(b) else None
    decreases |builds|
  {
    if builds != [] {
      assert (builds + [b])[1..] == builds[1..] + [b];
      AppendFinds(builds[1..], b, version, plan);
    }
  }

  lemma {:induction false} PromotedFinds(builds: seq<Build>, v: string, channel: Channel, version: string, plan: string)
    ensures var was, now := FindBuild(builds, version, plan), FindBuild(Promoted(builds, v, channel), version, plan);
            && (was.None? <==> now.None?)
            && (was.Some? ==> now.value == if version == v then was.value.(channel := channel) else was.value)
    decreases |builds|
  {
    if builds != [] {
      assert Promoted(builds, v, channel)[1..] == Promoted(builds[1..], v, channel);
      PromotedFinds(builds[1..], v, channel, version, plan);
    }
  }

  lemma {:induction false} RetiredFinds(builds: seq<Build>, v: string, notes: string, version: string, plan: string)
    ensures var was, now := FindBuild(builds, version, plan), FindBuild(Retired(builds, v, notes), version, plan);
            && (was.None? <==> now.None?)
            && (was.Some? ==> SameArtifact(was.value, now.value) && now.value.channel == was.value.channel
                              && now.value.retired == (was.value.retired || version == v))
    decreases |builds|
  {
    if builds != [] {
      assert Retired(builds, v, notes)[1..] == Retired(builds[1..], v, notes);
      RetiredFinds(builds[1..], v, notes, version, plan);
    }
  }

  lemma NextOutlives(reg: Registry, step: Step, version: string, plan: string)
    ensures Outlives(reg.builds, Next(reg, step).builds, version, plan)
  {
    hide FindBuild, Promoted, Retired, IsComplete, RowsOf;
    match step
    case Publication(build, declaredSize, upload) => AppendFinds(reg.builds, build.(retired := false), version, plan);
    case Promotion(v, to) => PromotedFinds(reg.builds, v, to, version, plan);
    case Retirement(v, notes) => RetiredFinds(reg.builds, v, notes, version, plan);
    case _ =>
  }

  lemma {:induction false} BuildsOutliveRuns(reg: Registry, steps: seq<Step>, version: string, plan: string)
    ensures Outlives(reg.builds, Run(reg, steps).builds, version, plan)
    decreases |steps|
  {
    if steps != [] {
      NextOutlives(reg, steps[0], version, plan);
      hide Next, FindBuild;
      BuildsOutliveRuns(Next(reg, steps[0]), steps[1..], version, plan);
    }
  }

  /**
   A pin is a promise: once its build is published, a pinned caller's delivery is the same in every later
   state, whatever was published, restored, lost, promoted, retired, released, rolled back or trialled.
   */
  lemma PinnedDeliveryIsFixed(reg: Registry, steps: seq<Step>, bucket: (string, string) -> nat, c: Caller,
                              d: Defaults, e: Defaults)
    requires c.pinned != "" && FindBuild(reg.builds, c.pinned, c.plan).Some?
    ensures ResolveForLicence(reg, bucket, c, d).Ok?
    ensures ResolveForLicence(Run(reg, steps), bucket, c, e) == ResolveForLicence(reg, bucket, c, d)
  {
    BuildsOutliveRuns(reg, steps, c.pinned, c.plan);
    hide FindBuild, Run, CanaryFor, ResolveFeatures, MissingFromBuild;
  }

  lemma UnrelatedKeepsComplete(reg: Registry, step: Step, scope: Scope, version: string)
    requires Unrelated(step, scope) && IsComplete(reg, version)
    ensures IsComplete(Next(reg, step), version)
  {
    NextOutlives(reg, step, version, FREE);
    NextOutlives(reg, step, version, PREMIUM);
    hide FindBuild, Promoted, Retired, RowsOf, PreviousDefault, IsHex64;
    assert reg.stored <= Next(reg, step).stored;
  }

  lemma {:induction false} RunKeepsTarget(reg: Registry, steps: seq<Step>, scope: Scope, version: string)
    requires IsComplete(reg, version) && forall i | 0 <= i < |steps| :: Unrelated(steps[i], scope)
    ensures IsComplete(Run(reg, steps), version)
    ensures Current(Run(reg, steps), scope) == Current(reg, scope)
    ensures Moves(Run(reg, steps).history, scope) == Moves(reg.history, scope)
    decreases |steps|
  {
    if steps != [] {
      UnrelatedKeepsPointer(reg, steps[0], scope);
      UnrelatedKeepsComplete(reg, steps[0], scope, version);
      hide Next, IsComplete, Unrelated, Moves, Current;
      RunKeepsTarget(Next(reg, steps[0]), steps[1..], scope, version);
    }
  }

  /**
   A recorded release can be undone without naming a version: after any further publishing, promotion,
   retirement (of the old version too) or work on other scopes, rollback returns to the version before it.
   */
  lemma RollbackUndoesRelease(reg: Registry, scope: Scope, version: string, steps: seq<Step>)
    requires Current(reg, scope) != "" && Current(reg, scope) != version && IsComplete(reg, Current(reg, scope))
    requires SetDefault(reg, scope, version, false, true).Ok?
    requires forall i | 0 <= i < |steps| :: Unrelated(steps[i], scope)
    ensures var before := Run(SetDefault(reg, scope, version, false, true).value, steps);
            && Rollback(before, scope, true).Ok?
            && Current(Rollback(before, scope, true).value, scope) == Current(reg, scope)
            && Current(before, scope) == version
  {
    var released := SetDefault(reg, scope, version, false, true).value;
    SetDefaultMoves(reg, scope, version, false, scope);
    CompletenessIgnoresPointers(reg, released, Current(reg, scope));
    RunKeepsTarget(released, steps, scope, Current(reg, scope));
    hide IsComplete, Moves, Run, RowsOf;
    assert PreviousDefault(Run(released, steps).history, scope) == Current(reg, scope);
  }

  // ---- What a default may serve --------------------------------------------

  predicate FromDefaults(reg: Registry, bucket: (string, string) -> nat, c: Caller) {
    c.pinned == "" && c.override == "" && CanaryFor(reg, bucket, c.channel, c.identity) == ""
  }

  /** A caller on defaults is decided by this scope: its own channel's, or the global one where its channel has none. */
  predicate DecidedBy(reg: Registry, scope: Scope, c: Caller) {
    scope == ForChannel(c.channel) || (scope == Global && Current(reg, ForChannel(c.channel)) == "")
  }

  /** The version a caller is due is refused, for one reason at a time, or delivered with its own build's artifact. */
  lemma DeliveryDecidesExactly(reg: Registry, bucket: (string, string) -> nat, c: Caller, d: Defaults)
    ensures var r, version := ResolveForLicence(reg, bucket, c, d), Decision(reg, bucket, c, d).0;
            var b := FindBuild(reg.builds, version, c.plan);
            var chosen := c.pinned != "" || c.override != "";
            && (r == Err(NotConfigured) <==> version == "")
            && (r == Err(UnknownBuild) <==> version != "" && b.None?)
            && (r == Err(RetiredVersion) <==> version != "" && b.Some? && !chosen && b.value.retired)
            && (r == Err(OffChannel) <==>
                version != "" && b.Some? && !chosen && !b.value.retired && b.value.channel != Stable
                && c.channel != Internal && c.channel != b.value.channel)
            && (r.Ok? <==>
                && version != "" && b.Some?
                && (chosen || (!b.value.retired && (b.value.channel == Stable || c.channel == Internal
                                                    || c.channel == b.value.channel))))
            && (r.Ok? ==> r.value.version == version && r.value.plan == c.plan && r.value.key == b.value.key
                          && r.value.digest == b.value.digest)
  {
    hide FindBuild, CanaryFor, ResolveFeatures, MissingFromBuild;
  }

  lemma TrialsIgnorePointers(a: Registry, b: Registry, bucket: (string, string) -> nat, channel: Channel,
                             identity: string)
    requires a.canaries == b.canaries
    ensures CanaryFor(a, bucket, channel, identity) == CanaryFor(b, bucket, channel, identity)
  {
  }

  /**
   After a rollback of any scope, recorded or not, a caller decided by it is served exactly when the target's
   build of its plan is neither retired nor above the caller's channel: rollback itself checks neither. The
   required plans always have a build.
   */
  lemma RolledBackServesExactly(reg: Registry, scope: Scope, recorded: bool, bucket: (string, string) -> nat, c: Caller)
    requires Rollback(reg, scope, recorded).Ok?
    requires FromDefaults(reg, bucket, c) && DecidedBy(reg, scope, c)
    ensures var after := Rollback(reg, scope, recorded).value;
            var b := FindBuild(reg.builds, PreviousDefault(reg.history, scope), c.plan);
            && (c.plan == FREE || c.plan == PREMIUM ==> b.Some?)
            && (ResolveForLicence(after, bucket, c, DefaultsFor(after, c.channel)).Ok?
                <==> b.Some? && !b.value.retired
                     && (b.value.channel == Stable || c.channel == Internal || c.channel == b.value.channel))
  {
    hide FindBuild, CanaryFor, ResolveFeatures, MissingFromBuild, Moves, RowsOf;
    var after, target := Rollback(reg, scope, recorded).value, PreviousDefault(reg.history, scope);
    assert Current(after, scope) == target && target != "" && after.builds == reg.builds;
    TrialsIgnorePointers(reg, after, bucket, c.channel, c.identity);
    assert Decision(after, bucket, c, DefaultsFor(after, c.channel)).0 == target;
    DeliveryDecidesExactly(after, bucket, c, DefaultsFor(after, c.channel));
  }

  /** No caller who leaves the choice to the defaults or a trial gets a retired build or one above its channel. */
  lemma DefaultsRespectChannels(reg: Registry, bucket: (string, string) -> nat, c: Caller, d: Defaults)
    requires c.pinned == "" && c.override == "" && ResolveForLicence(reg, bucket, c, d).Ok?
    ensures var s := ResolveForLicence(reg, bucket, c, d).value;
            var b := FindBuild(reg.builds, s.version, s.plan);
            && b.Some? && !b.value.retired
            && (c.channel == Stable ==> b.value.channel == Stable)
            && (c.channel == Beta ==> b.value.channel != Internal)
  {
    hide FindBuild, CanaryFor, ResolveFeatures, MissingFromBuild;
  }

  /**
   Release a new version, retire the old one, roll back: the rollback succeeds, and then every caller it decides
   for, on a required plan, is refused because the version is retired.
   */
  lemma RollbackMayStrandDefaults(reg: Registry, scope: Scope, version: string, notes: string,
                                  bucket: (string, string) -> nat, c: Caller)
    requires Current(reg, scope) != "" && Current(reg, scope) != version && IsComplete(reg, Current(reg, scope))
    requires SetDefault(reg, scope, version, false, true).Ok? && (c.plan == FREE || c.plan == PREMIUM)
    ensures var released := SetDefault(reg, scope, version, false, true).value;
            var retired := Next(released, Retirement(Current(reg, scope), notes));
            var back := Rollback(retired, scope, true);
            && back.Ok?
            && (FromDefaults(back.value, bucket, c) && DecidedBy(back.value, scope, c) ==>
                  ResolveForLicence(back.value, bucket, c, DefaultsFor(back.value, c.channel)) == Err(RetiredVersion))
  {
    var released := SetDefault(reg, scope, version, false, true).value;
    var step := Retirement(Current(reg, scope), notes);
    RollbackUndoesRelease(reg, scope, version, [step]);
    assert [step][1..] == [] && Run(released, [step]) == Run(Next(released, step), []) == Next(released, step);
    OldBuildIsRetired(reg, released, Current(reg, scope), notes, c.plan);
    var back := Rollback(Next(released, step), scope, true).value;
    RetiredIsRefused(back, scope, bucket, c);
  }

  lemma OldBuildIsRetired(reg: Registry, released: Registry, version: string, notes: string, plan: string)
    requires IsComplete(reg, version) && released.builds == reg.builds && (plan == FREE || plan == PREMIUM)
    ensures var b := FindBuild(Next(released, Retirement(version, notes)).builds, version, plan);
            b.Some? && b.value.retired
  {
    hide Retired, RetiredRow;
    RetiredFinds(reg.builds, version, notes, version, plan);
  }

  lemma RetiredIsRefused(reg: Registry, scope: Scope, bucket: (string, string) -> nat, c: Caller)
    requires Current(reg, scope) != ""
    requires var b := FindBuild(reg.builds, Current(reg, scope), c.plan); b.Some? && b.value.retired
    ensures FromDefaults(reg, bucket, c) && DecidedBy(reg, scope, c) ==>
              ResolveForLicence(reg, bucket, c, DefaultsFor(reg, c.channel)) == Err(RetiredVersion)
  {
    hide FindBuild, ResolveFeatures, MissingFromBuild, CanaryFor;
  }

  /** The trial that may reach a caller: its own channel's, or the global one where its channel has none. */
  function TrialOf(reg: Registry, channel: Channel): Option<CanaryRow> {
    if ForChannel(channel) in reg.canaries then Some(reg.canaries[ForChannel(channel)])
    else if Global in reg.canaries then Some(reg.canaries[Global])
    else None
  }

  /** Who is served the version on trial: whoever gives an identity whose bucket is below the share. */
  lemma TrialReachesExactly(reg: Registry, bucket: (string, string) -> nat, channel: Channel, identity: string)
    ensures var trial, id := TrialOf(reg, channel), DomainPolicy.TrimRight(DomainPolicy.TrimLeft(identity));
            CanaryFor(reg, bucket, channel, identity) ==
            if trial.Some? && identity != "" && trial.value.percent > 0
               && (trial.value.percent >= 100 || (id != "" && bucket(id, trial.value.version) < trial.value.percent))
            then trial.value.version else ""
  {
    hide DomainPolicy.TrimLeft, DomainPolicy.TrimRight;
  }

  /** How many of the first `n` buckets are in the trial. */
  function BucketsIn(identity: string, version: string, percent: int, n: nat): nat {
    if n == 0 then 0
    else
      BucketsIn(identity, version, percent, n - 1)
      + if InCanary((_, _) => n - 1, identity, version, percent) then 1 else 0
  }

  lemma {:induction false} BucketsAreCounted(identity: string, version: string, percent: int, n: nat)
    requires DomainPolicy.TrimRight(DomainPolicy.TrimLeft(identity)) != "" && version != "" && n <= 100
    ensures BucketsIn(identity, version, percent, n) == Min(n, Clamped(percent))
  {
    if n > 0 {
      BucketsAreCounted(identity, version, percent, n - 1);
    }
  }

  /** A share of so many percent admits exactly so many of the hundred buckets. */
  lemma TrialShareIsExact(identity: string, version: string, percent: int)
    requires DomainPolicy.TrimRight(DomainPolicy.TrimLeft(identity)) != "" && version != "" && 0 <= percent <= 100
    ensures BucketsIn(identity, version, percent, 100) == percent
  {
    BucketsAreCounted(identity, version, percent, 100);
  }

  /** A larger share only adds callers: nobody in the trial leaves it while it grows. */
  lemma CanaryGrows(bucket: (string, string) -> nat, identity: string, version: string, small: int, large: int)
    requires small <= large && InCanary(bucket, identity, version, small)
    ensures InCanary(bucket, identity, version, large)
  {
  }

  // ---- Which plan serves a package -----------------------------------------

  lemma {:induction false} FirstCoveringCovers(rows: seq<Build>, wanted: seq<Feature>)
    ensures (exists b | b in rows :: Covers(b, wanted)) ==>
              exists b | b in rows :: b.plan == FirstCovering(rows, wanted) && Covers(b, wanted)
    decreases |rows|
  {
    if rows != [] {
      FirstCoveringCovers(rows[1..], wanted);
      hide Covers;
    }
  }

  lemma {:induction false} FreeOnlyFromFree(free: seq<Build>, others: seq<Build>, wanted: seq<Feature>)
    requires (forall b | b in free :: b.plan == FREE) && (forall b | b in others :: b.plan != FREE)
    ensures FirstCovering(free + others, wanted) == FREE <==> exists b | b in free :: Covers(b, wanted)
    decreases |free| + |others|
  {
    hide Covers;
    if free != [] {
      assert (free + others)[1..] == free[1..] + others;
      FreeOnlyFromFree(free[1..], others, wanted);
    } else if others != [] {
      assert free + others == others && free + others[1..] == others[1..];
      FreeOnlyFromFree(free, others[1..], wanted);
    }
  }

  lemma {:induction false} RowIsFound(builds: seq<Build>, b: Build)
    requires UniqueBuilds(builds) && b in builds
    ensures FindBuild(builds, b.version, b.plan) == Some(b)
    decreases |builds|
  {
  }

  /**
   The plan is the smallest that suffices: free exactly when nothing is wanted or the free build has it
   all, and otherwise a plan whose build covers the package whenever some build of the version does.
   */
  lemma PlanIsSmallestSufficient(builds: seq<Build>, version: string, package: seq<Feature>)
    requires UniqueBuilds(builds)
    ensures var plan, wanted := PlanForFeatures(builds, version, package), Wanted(package);
            var free := FindBuild(builds, version, FREE);
            && (plan == FREE <==> wanted == [] || (free.Some? && Covers(free.value, wanted)))
            && (wanted != [] && (exists b | b in builds :: b.version == version && Covers(b, wanted)) ==>
                  FindBuild(builds, version, plan).Some? && Covers(FindBuild(builds, version, plan).value, wanted))
  {
    hide Covers, UniqueBuilds, Wanted;
    var wanted, rows := Wanted(package), RowsOf(builds, version);
    var free, others := KeepRows(rows, (b: Build) => b.plan == FREE), KeepRows(rows, (b: Build) => b.plan != FREE);
    FreeOnlyFromFree(free, others, wanted);
    FirstCoveringCovers(FreeFirst(rows), wanted);
    forall b | b in builds && b.version == version ensures FindBuild(builds, version, b.plan) == Some(b) {
      RowIsFound(builds, b);
    }
    hide FirstCovering, FindBuild, RowsOf, KeepRows;
  }

  /** Publishing keeps (version, plan) unique, and nothing else adds rows. */
  lemma NextKeepsUnique(reg: Registry, step: Step)
    requires UniqueBuilds(reg.builds)
    ensures UniqueBuilds(Next(reg, step).builds)
  {
    hide IsComplete, RowsOf, PreviousDefault, IsHex64;
  }
}
