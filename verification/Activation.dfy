/**
 One-time activation claims: a row per install id, re-armed by every purchase, taken by a
 conditional update. Each awaited query is a step of its own.
 */
module Activation {
  import opened Common
  import opened DomainPolicy

  const ACTIVATION_TTL_MS := 48 * 3600 * 1000

  /** A stored activation; `arming` is history: which arming of the table wrote it last. */
  datatype Row = Row(id: nat, licId: string, expiresAt: int, claimedAt: Option<int>, arming: nat)

  datatype Arming = Arming(install: string, licId: string, expiresAt: int)

  /** A successful claim: the licence handed over, the arming that was read and the one that was spent. */
  datatype Claim = Claim(install: string, licId: string, read: nat, spent: nat, now: int)

  /** The table with its history of armings and claims. */
  datatype Table = Table(rows: map<string, Row>, nextId: nat, armings: seq<Arming>, claims: seq<Claim>)

  function Find(t: Table, install: string): Option<Row> {
    if install in t.rows then Some(t.rows[install]) else None
  }

  function Cleaned(install: Option<string>): string {
    if install.Some? then TrimRight(TrimLeft(install.value)) else ""
  }

  /** The write of `create`: re-arm the row that was read, or insert one where none was. */
  function Armed(t: Table, install: string, licId: string, expiresAt: int, existing: Option<Row>): Table {
    var arming := Arming(install, licId, expiresAt);
    match existing
    case Some(row) =>
      if install in t.rows && t.rows[install].id == row.id
      then t.(rows := t.rows[install := Row(row.id, licId, expiresAt, None, |t.armings|)],
              armings := t.armings + [arming])
      else t
    case None =>
      if install in t.rows then t
      else Table(t.rows[install := Row(t.nextId, licId, expiresAt, None, |t.armings|)], t.nextId + 1,
                 t.armings + [arming], t.claims)
  }

  /** `create` reports success unless an insert hits the unique index. */
  predicate CreateSucceeds(t: Table, install: string, existing: Option<Row>) {
    existing.Some? || install !in t.rows
  }

  predicate Claimable(row: Row, now: int) {
    row.claimedAt.None? && row.expiresAt > now
  }

  /** The conditional update takes the row only if it is still there and still unclaimed. */
  predicate Takes(t: Table, install: string, row: Row) {
    install in t.rows && t.rows[install].id == row.id && t.rows[install].claimedAt.None?
  }

  function Taken(t: Table, install: string, row: Row, now: int): Table {
    if !Takes(t, install, row) then t
    else
      var current := t.rows[install];
      t.(rows := t.rows[install := current.(claimedAt := Some(now))],
         claims := t.claims + [Claim(install, row.licId, row.arming, current.arming, now)])
  }

  function Pruned(t: Table, before: int): Table {
    t.(rows := map i | i in t.rows && !(t.rows[i].claimedAt.None? && t.rows[i].expiresAt < before) :: t.rows[i])
  }

  class LicenseActivationService {
    var rows: map<string, Row>
    var nextId: nat
    /** History: the armings a row's `arming` points into. */
    var armings: seq<Arming>
    ghost var claims: seq<Claim>

    ghost function State(): Table
      reads this
    {
      Table(rows, nextId, armings, claims)
    }

    constructor ()
      ensures State() == Table(map[], 0, [], [])
    {
      rows, nextId, armings, claims := map[], 0, [], [];
    }

    /** `fails`: the lookup or the write throws, which is caught and reported as false. */
    method Create(installId: Option<string>, licId: string, now: int, fails: bool) returns (ok: bool)
      modifies this
      ensures var install := Cleaned(installId);
              if install == "" || licId == "" || fails then !ok && State() == old(State())
              else ok && State() == Armed(old(State()), install, licId, now + ACTIVATION_TTL_MS,
                                          Find(old(State()), install))
    {
      hide TrimLeft, TrimRight;
      var id := Cleaned(installId);
      if id == "" || licId == "" || fails {
        return false;
      }
      var expiresAt := now + ACTIVATION_TTL_MS;
      if id in rows {
        rows := rows[id := Row(rows[id].id, licId, expiresAt, None, |armings|)];
      } else {
        rows := rows[id := Row(nextId, licId, expiresAt, None, |armings|)];
        nextId := nextId + 1;
      }
      armings := armings + [Arming(id, licId, expiresAt)];
      ok := true;
    }

    /** `fails`: the lookup or the update throws, which hands over nothing. */
    method Redeem(installId: Option<string>, now: int, fails: bool) returns (licId: Option<string>)
      modifies this
      ensures var install := Cleaned(installId);
              var row := Find(old(State()), install);
              if install == "" || fails || row.None? || !Claimable(row.value, now)
              then licId == None && State() == old(State())
              else licId == Some(row.value.licId) && State() == Taken(old(State()), install, row.value, now)
      ensures licId.Some? ==>
                var install := Cleaned(installId);
                && install in old(rows) && old(rows)[install].claimedAt == None && now < old(rows)[install].expiresAt
                && licId.value == old(rows)[install].licId
                && rows == old(rows)[install := old(rows)[install].(claimedAt := Some(now))]
    {
      hide TrimLeft, TrimRight;
      var id := Cleaned(installId);
      if id == "" || fails || id !in rows {
        return None;
      }
      var row := rows[id];
      if row.claimedAt.Some? {
        return None;
      }
      if row.expiresAt <= now {
        return None;
      }
      rows := rows[id := row.(claimedAt := Some(now))];
      claims := claims + [Claim(id, row.licId, row.arming, row.arming, now)];
      licId := Some(row.licId);
    }

    method PruneExpired(before: int) returns (removed: nat)
      modifies this
      ensures State() == Pruned(old(State()), before)
      ensures removed == |old(rows)| - |rows|
    {
      var kept := map i | i in rows && !(rows[i].claimedAt.None? && rows[i].expiresAt < before) :: rows[i];
      assert kept.Keys <= rows.Keys && rows.Keys == kept.Keys + (rows.Keys - kept.Keys);
      removed := |rows| - |kept|;
      rows := kept;
    }
  }

  // ---- Steps in flight -----------------------------------------------------

  datatype Pending =
    | Creating(install: string, licId: string, expiresAt: int, existing: Option<Row>)
    | Claiming(install: string, now: int, row: Row)

  datatype System = System(table: Table, running: map<nat, Pending>)

  datatype Step =
    | CreateFind(pid: nat, install: string, licId: string, now: int)
    | CreateWrite(pid: nat)
    | ClaimRead(pid: nat, install: string, now: int)
    | ClaimTake(pid: nat)
    | Fail(pid: nat)
    | Prune(before: int)

  function Next(s: System, step: Step): System {
    match step
    case CreateFind(pid, install, licId, now) =>
      if pid in s.running || install == "" || licId == "" then s
      else s.(running := s.running[pid := Creating(install, licId, now + ACTIVATION_TTL_MS, Find(s.table, install))])
    case CreateWrite(pid) =>
      if pid !in s.running || !s.running[pid].Creating? then s
      else
        var p := s.running[pid];
        System(Armed(s.table, p.install, p.licId, p.expiresAt, p.existing), s.running - {pid})
    case ClaimRead(pid, install, now) =>
      if pid in s.running || install !in s.table.rows || !Claimable(s.table.rows[install], now) then s
      else s.(running := s.running[pid := Claiming(install, now, s.table.rows[install])])
    case ClaimTake(pid) =>
      if pid !in s.running || !s.running[pid].Claiming? then s
      else
        var p := s.running[pid];
        System(Taken(s.table, p.install, p.row, p.now), s.running - {pid})
    case Fail(pid) => s.(running := s.running - {pid})
    case Prune(before) => s.(table := Pruned(s.table, before))
  }

  function Run(s: System, steps: seq<Step>): System
    decreases |steps|
  {
    if steps == [] then s else Run(Next(s, steps[0]), steps[1..])
  }

  const EMPTY := System(Table(map[], 0, [], []), map[])

  // ---- What every interleaving keeps ---------------------------------------

  /** The row is what its arming wrote, apart from having been claimed. */
  predicate WrittenBy(t: Table, install: string, row: Row) {
    row.arming < |t.armings| && t.armings[row.arming] == Arming(install, row.licId, row.expiresAt) && row.id < t.nextId
  }

  /**
   A claim spent an arming of its own install id, no older than the one it read, and handed over the
   licence of an arming whose window was still open when it was read.
   */
  predicate Justified(t: Table, c: Claim) {
    && c.read <= c.spent < |t.armings|
    && t.armings[c.spent].install == c.install
    && t.armings[c.read].install == c.install
    && t.armings[c.read].licId == c.licId
    && c.now < t.armings[c.read].expiresAt
  }

  ghost predicate SpentOnce(claims: seq<Claim>) {
    forall i, j | 0 <= i < j < |claims| :: claims[i].spent != claims[j].spent
  }

  ghost predicate TableOk(t: Table) {
    && (forall i | i in t.rows :: WrittenBy(t, i, t.rows[i]))
    && (forall c | c in t.claims :: Justified(t, c))
    && SpentOnce(t.claims)
    && (forall i | i in t.rows && t.rows[i].claimedAt.None? ::
          forall c | c in t.claims :: c.spent != t.rows[i].arming)
  }

  /** A row read earlier is still as some arming wrote it, and the same row was only armed since. */
  predicate SnapshotOk(t: Table, install: string, row: Row) {
    WrittenBy(t, install, row)
    && (install in t.rows && t.rows[install].id == row.id ==> row.arming <= t.rows[install].arming)
  }

  ghost predicate SystemOk(s: System) {
    && TableOk(s.table)
    && forall pid | pid in s.running && s.running[pid].Claiming? ::
         var p := s.running[pid];
         SnapshotOk(s.table, p.install, p.row) && p.now < p.row.expiresAt
  }

  lemma ArmedOk(t: Table, install: string, licId: string, expiresAt: int, existing: Option<Row>)
    requires TableOk(t)
    ensures var after := Armed(t, install, licId, expiresAt, existing);
            TableOk(after) && t.armings <= after.armings && t.nextId <= after.nextId
    ensures forall i, row | SnapshotOk(t, i, row) :: SnapshotOk(Armed(t, install, licId, expiresAt, existing), i, row)
  {
    var after := Armed(t, install, licId, expiresAt, existing);
    if after != t {
      forall i | i in after.rows ensures WrittenBy(after, i, after.rows[i]) {
        assert i != install ==> WrittenBy(t, i, t.rows[i]);
      }
      forall c | c in after.claims ensures Justified(after, c) {
        assert Justified(t, c);
      }
    }
  }

  lemma TakenOk(t: Table, install: string, row: Row, now: int)
    requires TableOk(t) && SnapshotOk(t, install, row) && now < row.expiresAt
    ensures var after := Taken(t, install, row, now);
            TableOk(after) && after.armings == t.armings && after.nextId == t.nextId
    ensures forall i, r | SnapshotOk(t, i, r) :: SnapshotOk(Taken(t, install, row, now), i, r)
  {
  }

  lemma NextOk(s: System, step: Step)
    requires SystemOk(s)
    ensures SystemOk(Next(s, step))
  {
    hide TableOk, SnapshotOk, Armed, Taken;
    var after := Next(s, step);
    match step
    case CreateWrite(pid) =>
      if pid in s.running && s.running[pid].Creating? {
        var p := s.running[pid];
        ArmedOk(s.table, p.install, p.licId, p.expiresAt, p.existing);
      }
    case ClaimRead(pid, install, now) =>
      ReadOk(s.table, install);
    case ClaimTake(pid) =>
      if pid in s.running && s.running[pid].Claiming? {
        var p := s.running[pid];
        TakenOk(s.table, p.install, p.row, p.now);
      }
    case Prune(before) => PrunedOk(s.table, before);
    case _ =>
  }

  lemma ReadOk(t: Table, install: string)
    requires TableOk(t)
    ensures install in t.rows ==> SnapshotOk(t, install, t.rows[install])
  {
  }

  lemma PrunedOk(t: Table, before: int)
    requires TableOk(t)
    ensures TableOk(Pruned(t, before))
    ensures forall i, r | SnapshotOk(t, i, r) :: SnapshotOk(Pruned(t, before), i, r)
  {
  }

  function ClaimsOf(t: Table, install: string): set<nat> {
    set n: nat | n < |t.claims| && t.claims[n].install == install
  }

  function ArmingsOf(t: Table, install: string): set<nat> {
    set n: nat | n < |t.armings| && t.armings[n].install == install
  }

  lemma {:induction false} SpentWithinArmings(t: Table, which: set<nat>, armings: set<nat>)
    requires SpentOnce(t.claims) && forall n | n in which :: n < |t.claims| && t.claims[n].spent in armings
    ensures |which| <= |armings|
  {
    if which != {} {
      var n :| n in which;
      SpentWithinArmings(t, which - {n}, armings - {t.claims[n].spent});
    }
  }

  /**
   Under every interleaving each arming is spent at most once, every claim is justified, and no
   install id is redeemed more often than it was armed.
   */
  lemma {:induction false} ClaimsNeverExceedArmings(s: System, steps: seq<Step>, install: string)
    requires SystemOk(s)
    ensures var t := Run(s, steps).table;
            && SpentOnce(t.claims)
            && (forall c | c in t.claims :: Justified(t, c))
            && |ClaimsOf(t, install)| <= |ArmingsOf(t, install)|
    decreases |steps|
  {
    if steps == [] {
      var t := s.table;
      forall n | n in ClaimsOf(t, install) ensures t.claims[n].spent in ArmingsOf(t, install) {
        assert Justified(t, t.claims[n]);
      }
      SpentWithinArmings(t, ClaimsOf(t, install), ArmingsOf(t, install));
    } else {
      hide Next, SystemOk;
      NextOk(s, steps[0]);
      ClaimsNeverExceedArmings(Next(s, steps[0]), steps[1..], install);
    }
  }

  /** From an empty table, and with nothing assumed of the steps. */
  lemma OneRedemptionPerArming(steps: seq<Step>, install: string)
    ensures var t := Run(EMPTY, steps).table;
            && SpentOnce(t.claims) && |ClaimsOf(t, install)| <= |ArmingsOf(t, install)|
            && forall c | c in t.claims :: Justified(t, c)
  {
    ClaimsNeverExceedArmings(EMPTY, steps, install);
  }

  /** `create` arms the row although it reports success exactly unless the row it read is gone. */
  lemma SuccessArmsExactly(t: Table, install: string, licId: string, expiresAt: int, existing: Option<Row>)
    requires CreateSucceeds(t, install, existing)
    ensures Armed(t, install, licId, expiresAt, existing).armings == t.armings + [Arming(install, licId, expiresAt)]
            <==> (existing.Some? ==> install in t.rows && t.rows[install].id == existing.value.id)
  {
  }

  /** A create that reads the install's row, a prune, and the create's write: success without an arming. */
  lemma SuccessMayArmNothing(install: string, first: string, second: string, later: int)
    requires install != "" && first != "" && second != "" && later > ACTIVATION_TTL_MS
    ensures var s := Run(EMPTY, [CreateFind(1, install, first, 0), CreateWrite(1),
                                 CreateFind(2, install, second, later),
                                 Prune(later)]);
            && 2 in s.running && s.running[2].Creating?
            && CreateSucceeds(s.table, install, s.running[2].existing)
            && Next(s, CreateWrite(2)).table == s.table && |s.table.armings| == 1 && install !in s.table.rows
  {
    var a, b := CreateFind(1, install, first, 0), CreateWrite(1);
    var c, d := CreateFind(2, install, second, later), Prune(later);
    var s2 := Next(Next(EMPTY, a), b);
    assert s2 == System(Table(map[install := Row(0, first, ACTIVATION_TTL_MS, None, 0)], 1,
                              [Arming(install, first, ACTIVATION_TTL_MS)], []), map[]);
    RunTwo(EMPTY, a, b);
    RunTwo(s2, c, d);
    RunSplit(EMPTY, [a, b], [c, d]);
    assert [a, b] + [c, d] == [a, b, c, d];
  }

  lemma {:induction false} RunSplit(s: System, a: seq<Step>, b: seq<Step>)
    ensures Run(s, a + b) == Run(Run(s, a), b)
    decreases |a|
  {
    if a == [] {
      assert a + b == b;
    } else {
      assert (a + b)[0] == a[0] && (a + b)[1..] == a[1..] + b;
      RunSplit(Next(s, a[0]), a[1..], b);
    }
  }

  lemma RunTwo(s: System, x: Step, y: Step)
    ensures Run(s, [x, y]) == Next(Next(s, x), y)
  {
    hide Next;
    assert [x, y][1..] == [y] && [y][1..] == [];
    assert Run(s, [x, y]) == Run(Next(s, x), [y]) == Run(Next(Next(s, x), y), []);
  }

  // ---- What is armed -------------------------------------------------------

  lemma CleanedStripsBlanks(install: string)
    ensures var id := Cleaned(Some(install));
            && Cleaned(None) == "" && (id == "" || (!IsSpace(id[0]) && !IsSpace(id[|id| - 1])))
            && exists before, after :: install == before + id + after && AllBlank(before) && AllBlank(after)
  {
    TrimStripsBlanks(install);
  }

  /** The write of a create either arms the install for the licence, and nothing else, or changes nothing. */
  lemma ArmedExactly(t: Table, install: string, licId: string, expiresAt: int, existing: Option<Row>)
    ensures var after := Armed(t, install, licId, expiresAt, existing);
            if (existing.Some? && Present(t, install, existing.value.id)) || (existing.None? && install !in t.rows) then
              && install in after.rows && after.rows == t.rows[install := after.rows[install]]
              && after.claims == t.claims && after.armings == t.armings + [Arming(install, licId, expiresAt)]
              && var row := after.rows[install];
                 && row.licId == licId && row.expiresAt == expiresAt && row.claimedAt == None
                 && row.arming == |t.armings|
            else after == t
  {
  }

  /** A running request is not taken over by another, and its failure ends it without a trace. */
  lemma RequestsAreTheirOwn(s: System, pid: nat, install: string, licId: string, now: int)
    requires pid in s.running
    ensures Next(s, CreateFind(pid, install, licId, now)) == s && Next(s, ClaimRead(pid, install, now)) == s
    ensures Next(s, Fail(pid)) == System(s.table, s.running - {pid})
  {
  }

  /** No blank install or licence is ever armed. */
  lemma {:induction false} NothingBlankIsArmed(s: System, steps: seq<Step>)
    requires NoBlanks(s)
    ensures NoBlanks(Run(s, steps))
    decreases |steps|
  {
    if steps != [] {
      NextHasNoBlanks(s, steps[0]);
      hide Next, NoBlanks;
      NothingBlankIsArmed(Next(s, steps[0]), steps[1..]);
    }
  }

  ghost predicate NoBlanks(s: System) {
    && (forall a | a in s.table.armings :: a.install != "" && a.licId != "")
    && forall pid | pid in s.running && s.running[pid].Creating? ::
         s.running[pid].install != "" && s.running[pid].licId != ""
  }

  lemma NextHasNoBlanks(s: System, step: Step)
    requires NoBlanks(s)
    ensures NoBlanks(Next(s, step))
  {
  }

  // ---- A purchase can be redeemed ------------------------------------------

  /** Pruning before a moment removes exactly the rows that are unclaimed and whose window closed before it. */
  lemma PruneRemovesExactly(t: Table, before: int, install: string)
    ensures var after := Pruned(t, before);
            && (install in after.rows <==>
                install in t.rows && (t.rows[install].claimedAt.Some? || t.rows[install].expiresAt >= before))
            && (install in after.rows ==> after.rows[install] == t.rows[install])
            && after == t.(rows := after.rows)
  {
  }

  /**
   Until `now` the step leaves the install's purchase to its buyer: no claim of it is completed, nothing is
   pruned beyond `now`, and no create writes a window that is over by then.
   */
  predicate Spares(s: System, step: Step, install: string, now: int) {
    && (step.Prune? ==> step.before <= now)
    && (step.ClaimTake? && step.pid in s.running && s.running[step.pid].Claiming? ==>
          s.running[step.pid].install != install)
    && (step.CreateWrite? && step.pid in s.running && s.running[step.pid].Creating? ==>
          s.running[step.pid].install == install ==> now < s.running[step.pid].expiresAt)
  }

  predicate SparesAlong(s: System, steps: seq<Step>, install: string, now: int)
    decreases |steps|
  {
    steps == [] || (Spares(s, steps[0], install, now) && SparesAlong(Next(s, steps[0]), steps[1..], install, now))
  }

  lemma {:induction false} ArmedStaysClaimable(s: System, steps: seq<Step>, install: string, now: int)
    requires install in s.table.rows && s.table.rows[install].claimedAt == None
             && now < s.table.rows[install].expiresAt
    requires SparesAlong(s, steps, install, now)
    ensures var t := Run(s, steps).table;
            install in t.rows && t.rows[install].claimedAt == None && now < t.rows[install].expiresAt
    decreases |steps|
  {
    if steps != [] {
      SparedStep(s, steps[0], install, now);
      hide Next, Spares;
      ArmedStaysClaimable(Next(s, steps[0]), steps[1..], install, now);
    }
  }

  lemma SparedStep(s: System, step: Step, install: string, now: int)
    requires install in s.table.rows && s.table.rows[install].claimedAt == None
             && now < s.table.rows[install].expiresAt
    requires Spares(s, step, install, now)
    ensures var t := Next(s, step).table;
            install in t.rows && t.rows[install].claimedAt == None && now < t.rows[install].expiresAt
  {
  }

  /**
   Whoever buys can redeem: after an undisturbed create, for the whole of its 48 hours and whatever else happens
   short of a claim of that install, a claim hands over the licence now armed and spends its arming.
   */
  lemma PurchaseCanBeRedeemed(s: System, pid: nat, install: string, licId: string, bought: int, steps: seq<Step>,
                              claim: nat, now: int)
    requires pid !in s.running && install != "" && licId != ""
    requires now < bought + 48 * 3600 * 1000
    requires var armed := Next(Next(s, CreateFind(pid, install, licId, bought)), CreateWrite(pid));
             SparesAlong(armed, steps, install, now) && claim !in Run(armed, steps).running
    ensures var armed := Next(Next(s, CreateFind(pid, install, licId, bought)), CreateWrite(pid));
            var waited := Run(armed, steps);
            var end := Next(Next(waited, ClaimRead(claim, install, now)), ClaimTake(claim));
            && armed.table.rows[install].licId == licId
            && install in waited.table.rows
            && var row := waited.table.rows[install];
               end.table.claims == waited.table.claims + [Claim(install, row.licId, row.arming, row.arming, now)]
  {
    var found := Next(s, CreateFind(pid, install, licId, bought));
    var armed := Next(found, CreateWrite(pid));
    assert found.running[pid] == Creating(install, licId, bought + ACTIVATION_TTL_MS, Find(s.table, install));
    ArmedStaysClaimable(armed, steps, install, now);
    hide Run, SparesAlong;
  }

  // ---- Which arming a claim spends -----------------------------------------

  /** The step re-arms row `id` of the install: a create writes that had read this very row. */
  predicate Rearms(s: System, step: Step, install: string, id: nat) {
    && step.CreateWrite? && step.pid in s.running && s.running[step.pid].Creating?
    && var p := s.running[step.pid];
       p.install == install && p.existing.Some? && p.existing.value.id == id
  }

  predicate RearmedAlong(s: System, steps: seq<Step>, install: string, id: nat)
    decreases |steps|
  {
    steps != [] && (Rearms(s, steps[0], install, id) || RearmedAlong(Next(s, steps[0]), steps[1..], install, id))
  }

  /** The row with this id is in the table; a row once gone never comes back under its id. */
  predicate Present(t: Table, install: string, id: nat) {
    install in t.rows && t.rows[install].id == id
  }

  lemma StepRearmsExactly(s: System, step: Step, install: string)
    requires SystemOk(s) && install in s.table.rows
    ensures var row, after := s.table.rows[install], Next(s, step).table;
            Present(after, install, row.id) ==>
              if Rearms(s, step, install, row.id) then after.rows[install].arming > row.arming
              else after.rows[install].arming == row.arming
  {
    assert WrittenBy(s.table, install, s.table.rows[install]);
  }

  lemma StepKeepsAbsent(s: System, step: Step, install: string, id: nat)
    requires SystemOk(s) && id < s.table.nextId && !Present(s.table, install, id)
    ensures !Present(Next(s, step).table, install, id) && id < Next(s, step).table.nextId
  {
  }

  lemma {:induction false} AbsentStaysAbsent(s: System, steps: seq<Step>, install: string, id: nat)
    requires SystemOk(s) && id < s.table.nextId && !Present(s.table, install, id)
    ensures !Present(Run(s, steps).table, install, id)
    decreases |steps|
  {
    if steps != [] {
      NextOk(s, steps[0]);
      StepKeepsAbsent(s, steps[0], install, id);
      hide Next, SystemOk, Present;
      AbsentStaysAbsent(Next(s, steps[0]), steps[1..], install, id);
    }
  }

  /** If the row is still there at the end, its arming is newer exactly when it was re-armed on the way. */
  lemma {:induction false} ArmingMovesExactly(s: System, steps: seq<Step>, install: string)
    requires SystemOk(s) && install in s.table.rows
    ensures var row, after := s.table.rows[install], Run(s, steps).table;
            Present(after, install, row.id) ==>
              row.arming <= after.rows[install].arming
              && (row.arming == after.rows[install].arming <==> !RearmedAlong(s, steps, install, row.id))
    decreases |steps|
  {
    if steps != [] {
      var row, next := s.table.rows[install], Next(s, steps[0]);
      NextOk(s, steps[0]);
      assert WrittenBy(s.table, install, row);
      if Present(next.table, install, row.id) {
        StepRearmsExactly(s, steps[0], install);
        hide Next, SystemOk, Rearms;
        ArmingMovesExactly(next, steps[1..], install);
      } else {
        IdsGrow(s, steps[0]);
        hide Next, SystemOk, Rearms, Present;
        AbsentStaysAbsent(next, steps[1..], install, row.id);
      }
    }
  }

  lemma IdsGrow(s: System, step: Step)
    ensures s.table.nextId <= Next(s, step).table.nextId
  {
  }

  lemma {:induction false} ClaimantWaits(s: System, steps: seq<Step>, pid: nat)
    requires pid in s.running && s.running[pid].Claiming?
    requires forall i | 0 <= i < |steps| :: steps[i] != ClaimTake(pid) && steps[i] != Fail(pid)
    ensures pid in Run(s, steps).running && Run(s, steps).running[pid] == s.running[pid]
    decreases |steps|
  {
    if steps != [] {
      assert steps[0] != ClaimTake(pid) && steps[0] != Fail(pid);
      assert pid in Next(s, steps[0]).running && Next(s, steps[0]).running[pid] == s.running[pid];
      hide Next;
      ClaimantWaits(Next(s, steps[0]), steps[1..], pid);
    }
  }

  /**
   Whatever happens between a claim's read and its update, a claim that succeeds hands over the licence
   it read, and spends the very arming that sold it exactly when no create re-armed that row in between.
   */
  lemma ClaimSpendsWhatItReadExactly(before: seq<Step>, pid: nat, install: string, now: int, during: seq<Step>)
    requires var s := Run(EMPTY, before);
             pid !in s.running && install in s.table.rows && Claimable(s.table.rows[install], now)
    requires forall i | 0 <= i < |during| :: during[i] != ClaimTake(pid) && during[i] != Fail(pid)
    requires var s := Run(EMPTY, before);
             Takes(Run(Next(s, ClaimRead(pid, install, now)), during).table, install, s.table.rows[install])
    ensures var s := Run(EMPTY, before);
            var row, reading := s.table.rows[install], Next(s, ClaimRead(pid, install, now));
            var waited := Run(reading, during);
            var claims := Next(waited, ClaimTake(pid)).table.claims;
            && |claims| == |waited.table.claims| + 1
            && var c := claims[|claims| - 1];
               && c.install == install && c.licId == row.licId && c.read == row.arming
               && (c.spent == c.read <==> !RearmedAlong(reading, during, install, row.id))
  {
    var s := Run(EMPTY, before);
    var row, reading := s.table.rows[install], Next(s, ClaimRead(pid, install, now));
    RunOk(EMPTY, before);
    NextOk(s, ClaimRead(pid, install, now));
    ClaimantWaits(reading, during, pid);
    ArmingMovesExactly(reading, during, install);
    hide Run, SystemOk, RearmedAlong;
  }

  lemma {:induction false} RunOk(s: System, steps: seq<Step>)
    requires SystemOk(s)
    ensures SystemOk(Run(s, steps))
    decreases |steps|
  {
    if steps != [] {
      hide Next, SystemOk;
      NextOk(s, steps[0]);
      RunOk(Next(s, steps[0]), steps[1..]);
    }
  }

  /** A claim hands over the licence it read but spends what is armed: a purchase in between is used up unseen. */
  lemma ClaimMaySpendNewerPurchase(install: string, first: string, second: string)
    requires install != "" && first != "" && second != "" && first != second
    ensures var t := Run(EMPTY, [CreateFind(1, install, first, 0), CreateWrite(1), ClaimRead(2, install, 1),
                                 CreateFind(3, install, second, 2), CreateWrite(3), ClaimTake(2)]).table;
            && t.claims == [Claim(install, first, 0, 1, 1)]
            && install in t.rows && t.rows[install].licId == second && t.rows[install].claimedAt.Some?
  {
    var steps := [CreateFind(1, install, first, 0), CreateWrite(1), ClaimRead(2, install, 1),
                  CreateFind(3, install, second, 2), CreateWrite(3), ClaimTake(2)];
    BothPurchases(install, first, second);
    hide Next;
    var s1 := Next(EMPTY, steps[0]);
    var s2 := Next(s1, steps[1]);
    var s3 := Next(s2, steps[2]);
    var s4 := Next(s3, steps[3]);
    var s5 := Next(s4, steps[4]);
    var s6 := Next(s5, steps[5]);
    assert steps[1..][1..] == steps[2..] && steps[2..][1..] == steps[3..] && steps[3..][1..] == steps[4..];
    assert steps[4..][1..] == steps[5..] && steps[5..][1..] == [];
    assert Run(EMPTY, steps) == Run(s1, steps[1..]) == Run(s2, steps[2..]) == Run(s3, steps[3..]);
    assert Run(s3, steps[3..]) == Run(s4, steps[4..]) == Run(s5, steps[5..]) == Run(s6, []) == s6;
  }

  lemma BothPurchases(install: string, first: string, second: string)
    requires install != "" && first != "" && second != "" && first != second
    ensures var s2 := Next(Next(EMPTY, CreateFind(1, install, first, 0)), CreateWrite(1));
            var s5 := Next(Next(Next(s2, ClaimRead(2, install, 1)), CreateFind(3, install, second, 2)), CreateWrite(3));
            var t := Next(s5, ClaimTake(2)).table;
            && t.claims == [Claim(install, first, 0, 1, 1)]
            && install in t.rows && t.rows[install].licId == second && t.rows[install].claimedAt.Some?
  {
  }
}
