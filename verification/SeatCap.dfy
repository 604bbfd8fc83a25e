/**
 The install cap of a licence: check-then-insert over a shared table of seats, as separate awaited
 steps of many checks in flight.
 */
module SeatCap {
  import opened Common

  datatype Key = Key(lic: string, install: string)

  /** A seat row; `id` tells a released and re-created row from the one that was read. */
  datatype Seat = Seat(id: nat, blocked: bool)

  datatype Table = Table(seats: map<Key, Seat>, nextId: nat)

  datatype InstallCheck = InstallCheck(allowed: bool, count: nat, cap: int, isNew: bool)

  const ALLOW := InstallCheck(true, 0, 0, false)

  function ActiveSeats(seats: map<Key, Seat>, lic: string): set<Key> {
    set k | k in seats && k.lic == lic && !seats[k].blocked
  }

  function Find(t: Table, key: Key): Option<Seat> {
    if key in t.seats then Some(t.seats[key]) else None
  }

  /** The decision of a check that has read its seat and the count. */
  predicate Refuses(existing: Option<Seat>, count: nat, cap: int) {
    count >= cap && (existing.None? || existing.value.blocked)
  }

  /** Touching updates the row that was read; inserting loses to a row that is already there. */
  function Recorded(t: Table, key: Key, existing: Option<Seat>, blocked: bool): Table {
    match existing
    case Some(row) =>
      if key in t.seats && t.seats[key].id == row.id then t.(seats := t.seats[key := Seat(row.id, blocked)]) else t
    case None =>
      if key in t.seats then t else Table(t.seats[key := Seat(t.nextId, blocked)], t.nextId + 1)
  }

  function Answer(existing: Option<Seat>, count: nat, cap: int): InstallCheck {
    var refused := Refuses(existing, count, cap);
    if existing.Some? then InstallCheck(!refused, count, cap, false)
    else InstallCheck(!refused, if refused then count else count + 1, cap, true)
  }

  function Released(t: Table, key: Key): Table {
    t.(seats := t.seats - {key})
  }

  /** A whole check with nothing in between. */
  function Checked(t: Table, key: Key, cap: int): (Table, InstallCheck) {
    var existing := Find(t, key);
    var count := |ActiveSeats(t.seats, key.lic)|;
    (Recorded(t, key, existing, Refuses(existing, count, cap)), Answer(existing, count, cap))
  }

  class LicenseInstallService {
    var table: Table

    constructor ()
      ensures table == Table(map[], 0)
    {
      table := Table(map[], 0);
    }

    method ActiveCount(lic: string) returns (count: nat)
      ensures count == |ActiveSeats(table.seats, lic)|
    {
      count := 0;
      var rest := table.seats.Keys;
      while rest != {}
        invariant rest <= table.seats.Keys
        invariant count == |ActiveSeats(table.seats, lic) - rest|
        decreases |rest|
      {
        var k :| k in rest;
        ghost var counted := ActiveSeats(table.seats, lic) - rest;
        rest := rest - {k};
        if k.lic == lic && !table.seats[k].blocked {
          count := count + 1;
          assert ActiveSeats(table.seats, lic) - rest == counted + {k};
        } else {
          assert ActiveSeats(table.seats, lic) - rest == counted;
        }
      }
      assert ActiveSeats(table.seats, lic) - {} == ActiveSeats(table.seats, lic);
    }

    /** `fails`: the insert throws, for the unique index or otherwise, which is ignored. */
    method Record(key: Key, blocked: bool, fails: bool)
      modifies this
      ensures table == if fails then old(table) else Recorded(old(table), key, None, blocked)
    {
      if !fails && key !in table.seats {
        table := Table(table.seats[key := Seat(table.nextId, blocked)], table.nextId + 1);
      }
    }

    method Touch(key: Key, row: Seat, blocked: bool, fails: bool)
      modifies this
      ensures table == if fails then old(table) else Recorded(old(table), key, Some(row), blocked)
    {
      if !fails && key in table.seats && table.seats[key].id == row.id {
        table := table.(seats := table.seats[key := row.(blocked := blocked)]);
      }
    }

    /** A failed read answers `ALLOW`; a failed write leaves the table and the answer stands. */
    method Check(lic: string, install: Option<string>, cap: int, readFails: bool,
                 writeFails: bool) returns (r: InstallCheck)
      modifies this
      ensures cap <= 0 || lic == "" || install.None? || install.value == "" || readFails ==>
                r == ALLOW && table == old(table)
      ensures !(cap <= 0 || lic == "" || install.None? || install.value == "" || readFails) ==>
                var (checked, answer) := Checked(old(table), Key(lic, install.value), cap);
                r == answer && table == if writeFails then old(table) else checked
    {
      if cap <= 0 || lic == "" || install.None? || install.value == "" || readFails {
        return ALLOW;
      }
      var key := Key(lic, install.value);
      if key in table.seats {
        var existing := table.seats[key];
        var wasBlocked := existing.blocked;
        var active := ActiveCount(lic);
        if wasBlocked && active >= cap {
          Touch(key, existing, true, writeFails);
          return InstallCheck(false, active, cap, false);
        }
        Touch(key, existing, false, writeFails);
        return InstallCheck(true, active, cap, false);
      }
      var count := ActiveCount(lic);
      var overCap := count >= cap;
      Record(key, overCap, writeFails);
      if overCap {
        return InstallCheck(false, count, cap, true);
      }
      r := InstallCheck(true, count + 1, cap, true);
    }

    method Release(key: Key) returns (released: bool)
      modifies this
      ensures table == Released(old(table), key) && (released <==> key in old(table).seats)
    {
      released := key in table.seats;
      table := table.(seats := table.seats - {key});
    }
  }

  // ---- Checks run one after the other --------------------------------------

  /** A whole check, whose write may fail, or a release. */
  datatype Visit = Visit(key: Key, cap: int, writeFails: bool) | Leave(key: Key)

  function Visited(t: Table, v: Visit): Table {
    match v
    case Visit(key, cap, writeFails) => if cap <= 0 || writeFails then t else Checked(t, key, cap).0
    case Leave(key) => Released(t, key)
  }

  function Visits(t: Table, visits: seq<Visit>): Table
    decreases |visits|
  {
    if visits == [] then t else Visits(Visited(t, visits[0]), visits[1..])
  }

  lemma OneVisitKeepsCap(t: Table, v: Visit, lic: string, cap: int)
    requires cap > 0 && |ActiveSeats(t.seats, lic)| <= cap
    requires v.Visit? && v.key.lic == lic ==> v.cap == cap
    ensures |ActiveSeats(Visited(t, v).seats, lic)| <= cap
  {
    var before, after := ActiveSeats(t.seats, lic), ActiveSeats(Visited(t, v).seats, lic);
    if v.Leave? || v.key.lic != lic || v.key in before || Refuses(Find(t, v.key), |before|, cap) {
      assert after <= before;
      SubsetSize(after, before);
    } else {
      assert after <= before + {v.key};
      SubsetSize(after, before + {v.key});
    }
  }

  /** Checks of any licences that never overlap, with releases between them, never exceed a licence's cap. */
  lemma {:induction false} SequentialKeepsCap(t: Table, visits: seq<Visit>, lic: string, cap: int)
    requires cap > 0 && |ActiveSeats(t.seats, lic)| <= cap
    requires forall i | 0 <= i < |visits| && visits[i].Visit? && visits[i].key.lic == lic :: visits[i].cap == cap
    ensures |ActiveSeats(Visits(t, visits).seats, lic)| <= cap
    decreases |visits|
  {
    if visits != [] {
      OneVisitKeepsCap(t, visits[0], lic, cap);
      hide Visited, ActiveSeats;
      SequentialKeepsCap(Visited(t, visits[0]), visits[1..], lic, cap);
    }
  }

  lemma VisitKeepsGrant(t: Table, v: Visit, key: Key)
    requires key in t.seats && !t.seats[key].blocked && v != Leave(key)
    ensures key in Visited(t, v).seats && Visited(t, v).seats[key] == t.seats[key]
  {
  }

  /**
   A seat once granted is kept as it is, and every later check of it is allowed and changes nothing,
   under any later caps and whatever else is checked or released, until it is released itself.
   */
  lemma {:induction false} GrantedSeatStaysAllowed(t: Table, visits: seq<Visit>, key: Key, cap: int)
    requires key in t.seats && !t.seats[key].blocked
    requires forall i | 0 <= i < |visits| :: visits[i] != Leave(key)
    ensures var after := Visits(t, visits);
            && key in after.seats && after.seats[key] == t.seats[key]
            && Checked(after, key, cap).1.allowed && Checked(after, key, cap).0 == after
    decreases |visits|
  {
    if visits != [] {
      assert visits[0] != Leave(key);
      VisitKeepsGrant(t, visits[0], key);
      hide Visited, Checked;
      GrantedSeatStaysAllowed(Visited(t, visits[0]), visits[1..], key, cap);
    }
  }

  /**
   What a check answers and leaves: it is allowed exactly for a seat that is active already or when one is free,
   its seat is then active and else blocked, and it tells the count and whether the seat is new.
   */
  lemma CheckAnswersExactly(t: Table, key: Key, cap: int)
    ensures var (after, r) := Checked(t, key, cap);
            var active := ActiveSeats(t.seats, key.lic);
            && (r.allowed <==> key in active || |active| < cap)
            && key in after.seats && (after.seats[key].blocked <==> !r.allowed)
            && after.seats == t.seats[key := after.seats[key]]
            && (r.isNew <==> key !in t.seats) && r.cap == cap
            && r.count == if r.isNew && r.allowed then |active| + 1 else |active|
  {
  }

  /** A visit with no cap, or whose write fails, leaves the table; any other writes its check; a leave takes a seat */
  lemma VisitsWriteExactly(t: Table, key: Key, cap: int, writeFails: bool)
    ensures Visited(t, Visit(key, cap, writeFails)) == if cap > 0 && !writeFails then Checked(t, key, cap).0 else t
    ensures Visited(t, Leave(key)) == t.(seats := t.seats - {key})
  {
    hide Checked;
  }

  /** What a refusal does not touch: other licences keep their seats. */
  lemma OtherLicencesUnaffected(t: Table, key: Key, cap: int, lic: string)
    requires lic != key.lic
    ensures ActiveSeats(Checked(t, key, cap).0.seats, lic) == ActiveSeats(t.seats, lic)
  {
  }

  // ---- Checks in flight ----------------------------------------------------

  datatype Phase = Found | Counted(count: nat)

  datatype Check = Check(key: Key, cap: int, existing: Option<Seat>, phase: Phase)

  datatype System = System(table: Table, running: map<nat, Check>)

  /** One awaited database step, or the failure of one. */
  datatype Step =
    | Start(pid: nat, key: Key, cap: int)
    | Count(pid: nat)
    | Write(pid: nat, fails: bool)
    | Fail(pid: nat)
    | Release(key: Key)

  function Next(s: System, step: Step): System {
    match step
    case Start(pid, key, cap) =>
      if pid in s.running || cap <= 0 then s
      else s.(running := s.running[pid := Check(key, cap, Find(s.table, key), Found)])
    case Count(pid) =>
      if pid !in s.running || s.running[pid].phase != Found then s
      else
        var c := s.running[pid];
        s.(running := s.running[pid := c.(phase := Counted(|ActiveSeats(s.table.seats, c.key.lic)|))])
    case Write(pid, fails) =>
      if pid !in s.running || s.running[pid].phase == Found then s
      else
        var c := s.running[pid];
        var t := if fails then s.table
                 else Recorded(s.table, c.key, c.existing, Refuses(c.existing, c.phase.count, c.cap));
        System(t, s.running - {pid})
    case Fail(pid) => s.(running := s.running - {pid})
    case Release(key) => s.(table := Released(s.table, key))
  }

  /** A check gets under way exactly with a cap, on the seat as it is, in a process of its own; its end frees that. */
  lemma ChecksStartAndEndExactly(s: System, pid: nat, key: Key, cap: int, fails: bool)
    ensures var started := Next(s, Start(pid, key, cap));
            && started.table == s.table
            && started.running == if pid !in s.running && cap > 0
                                  then s.running[pid := Check(key, cap, Find(s.table, key), Found)] else s.running
    ensures pid in s.running && s.running[pid].phase.Counted? ==> pid !in Next(s, Write(pid, fails)).running
    ensures Next(s, Fail(pid)) == s.(running := s.running - {pid})
  {
  }

  function InFlight(s: System, lic: string): set<nat> {
    set pid | pid in s.running && s.running[pid].key.lic == lic
  }

  /** The check can still leave its seat unblocked. */
  predicate MayGrant(c: Check) {
    (c.existing.Some? && !c.existing.value.blocked) || (c.phase != Found && c.phase.count < c.cap)
  }

  function Granting(s: System, lic: string): set<nat> {
    set pid | pid in InFlight(s, lic) && MayGrant(s.running[pid])
  }

  function KeysOf(s: System, pids: set<nat>): set<Key>
    requires pids <= s.running.Keys
  {
    set pid | pid in pids :: s.running[pid].key
  }

  /** Seats that are active, or that some check in flight may make active. */
  function Potential(s: System, lic: string): set<Key> {
    ActiveSeats(s.table.seats, lic) + KeysOf(s, Granting(s, lic))
  }

  ghost predicate Bounded(s: System, lic: string, cap: int, n: nat) {
    && cap > 0 && n > 0
    && |Potential(s, lic)| <= cap - 1 + n
    && |InFlight(s, lic)| <= n
    && forall pid | pid in InFlight(s, lic) :: s.running[pid].cap == cap
  }

  /** The cap of the licence stays fixed and no more than `n` of its checks overlap. */
  ghost predicate Overlaps(s: System, steps: seq<Step>, lic: string, cap: int, n: nat)
    decreases |steps|
  {
    steps == [] ||
    ((steps[0].Start? && steps[0].key.lic == lic ==> steps[0].cap == cap)
     && |InFlight(Next(s, steps[0]), lic)| <= n
     && Overlaps(Next(s, steps[0]), steps[1..], lic, cap, n))
  }

  function Run(s: System, steps: seq<Step>): System
    decreases |steps|
  {
    if steps == [] then s else Run(Next(s, steps[0]), steps[1..])
  }

  const EMPTY := System(Table(map[], 0), map[])

  lemma {:induction false} SubsetSize<T>(a: set<T>, b: set<T>)
    requires a <= b
    ensures |a| <= |b|
  {
    assert b == a + (b - a);
  }

  lemma {:induction false} KeysOfSize(s: System, pids: set<nat>)
    requires pids <= s.running.Keys
    ensures |KeysOf(s, pids)| <= |pids|
  {
    if pids != {} {
      var pid :| pid in pids;
      var rest := pids - {pid};
      KeysOfSize(s, rest);
      assert KeysOf(s, pids) == KeysOf(s, rest) + {s.running[pid].key};
    }
  }

  lemma CountBounds(s: System, pid: nat, lic: string, cap: int, n: nat)
    requires Bounded(s, lic, cap, n) && pid in InFlight(s, lic) && s.running[pid].phase == Found
    ensures |Potential(Next(s, Count(pid)), lic)| <= cap - 1 + n
  {
    var after := Next(s, Count(pid));
    var active := ActiveSeats(s.table.seats, lic);
    if |active| < cap {
      var granting := Granting(after, lic);
      assert granting <= InFlight(s, lic);
      SubsetSize(granting, InFlight(s, lic));
      KeysOfSize(after, granting);
      assert |Potential(after, lic)| <= |active| + |KeysOf(after, granting)|;
    } else {
      assert Granting(after, lic) <= Granting(s, lic);
      assert forall p | p in s.running :: after.running[p].key == s.running[p].key;
      assert Potential(after, lic) <= Potential(s, lic);
      SubsetSize(Potential(after, lic), Potential(s, lic));
    }
  }

  lemma ActiveIsPotential(s: System, lic: string)
    ensures |ActiveSeats(s.table.seats, lic)| <= |Potential(s, lic)|
  {
    SubsetSize(ActiveSeats(s.table.seats, lic), Potential(s, lic));
  }

  lemma OtherStepShrinks(s: System, step: Step, lic: string)
    requires !(step.Count? && step.pid in InFlight(s, lic))
    ensures Potential(Next(s, step), lic) <= Potential(s, lic)
  {
  }

  lemma NextStaysBounded(s: System, step: Step, lic: string, cap: int, n: nat)
    requires Bounded(s, lic, cap, n) && |InFlight(Next(s, step), lic)| <= n
    requires step.Start? && step.key.lic == lic ==> step.cap == cap
    ensures Bounded(Next(s, step), lic, cap, n)
  {
    hide Potential, Recorded, Find;
    if step.Count? && step.pid in InFlight(s, lic) {
      if s.running[step.pid].phase == Found {
        CountBounds(s, step.pid, lic, cap, n);
      }
    } else {
      OtherStepShrinks(s, step, lic);
      SubsetSize(Potential(Next(s, step), lic), Potential(s, lic));
    }
  }

  /** Under every interleaving of at most `n` overlapping checks the active seats stay within cap - 1 + n. */
  lemma {:induction false} OverlapBound(s: System, steps: seq<Step>, lic: string, cap: int, n: nat)
    requires Bounded(s, lic, cap, n) && Overlaps(s, steps, lic, cap, n)
    ensures |ActiveSeats(Run(s, steps).table.seats, lic)| <= cap - 1 + n
    decreases |steps|
  {
    hide Next, Potential, InFlight, ActiveSeats;
    if steps == [] {
      ActiveIsPotential(s, lic);
    } else {
      NextStaysBounded(s, steps[0], lic, cap, n);
      OverlapBound(Next(s, steps[0]), steps[1..], lic, cap, n);
    }
  }

  /** The three steps of one check with nothing in between are the whole check. */
  lemma AloneIsSequential(s: System, pid: nat, key: Key, cap: int)
    requires pid !in s.running && cap > 0
    ensures Run(s, [Start(pid, key, cap), Count(pid), Write(pid, false)])
            == System(Checked(s.table, key, cap).0, s.running)
  {
    var steps := [Start(pid, key, cap), Count(pid), Write(pid, false)];
    assert steps[1..][1..] == steps[2..] && steps[2..][1..] == [];
    var s1 := Next(s, steps[0]);
    var s2 := Next(s1, steps[1]);
    var s3 := Next(s2, steps[2]);
    assert s3.running == s.running;
    assert Run(s, steps) == Run(s1, steps[1..]) == Run(s2, steps[2..]) == Run(s3, []);
  }

  /** Some run of at most `n` overlapping checks of the licence leads here from the empty table. */
  ghost predicate ReachedWithin(s: System, lic: string, cap: int, n: nat) {
    exists steps :: Overlaps(EMPTY, steps, lic, cap, n) && Run(EMPTY, steps) == s
  }

  lemma {:induction false} RunEnds(s: System, steps: seq<Step>, last: Step, lic: string, cap: int, n: nat)
    requires Overlaps(s, steps, lic, cap, n)
    requires last.Start? && last.key.lic == lic ==> last.cap == cap
    requires |InFlight(Next(Run(s, steps), last), lic)| <= n
    ensures Run(s, steps + [last]) == Next(Run(s, steps), last)
    ensures Overlaps(s, steps + [last], lic, cap, n)
    decreases |steps|
  {
    hide Next, InFlight;
    if steps == [] {
      assert steps + [last] == [last] && [last][1..] == [];
      assert Run(s, [last]) == Run(Next(s, last), []);
    } else {
      assert (steps + [last])[0] == steps[0] && (steps + [last])[1..] == steps[1..] + [last];
      RunEnds(Next(s, steps[0]), steps[1..], last, lic, cap, n);
    }
  }

  lemma ReachStep(s: System, step: Step, t: System, lic: string, cap: int, n: nat)
    requires ReachedWithin(s, lic, cap, n) && Next(s, step) == t && |InFlight(t, lic)| <= n
    requires step.Start? && step.key.lic == lic ==> step.cap == cap
    ensures ReachedWithin(t, lic, cap, n)
  {
    hide Next, InFlight;
    var steps :| Overlaps(EMPTY, steps, lic, cap, n) && Run(EMPTY, steps) == s;
    RunEnds(EMPTY, steps, step, lic, cap, n);
  }

  /** The seats of distinct installs, granted in order. */
  function Seats(keys: seq<Key>): map<Key, Seat> {
    if keys == [] then map[] else Seats(keys[..|keys| - 1])[keys[|keys| - 1] := Seat(|keys| - 1, false)]
  }

  lemma {:induction false} SeatsHold(keys: seq<Key>)
    ensures forall k :: k in Seats(keys) <==> k in keys
    ensures forall k | k in Seats(keys) :: !Seats(keys)[k].blocked
  {
    if keys != [] {
      SeatsHold(keys[..|keys| - 1]);
      assert keys == keys[..|keys| - 1] + [keys[|keys| - 1]];
    }
  }

  lemma {:induction false} DistinctSize(keys: seq<Key>)
    requires NoDuplicates(keys)
    ensures |set k | k in keys| == |keys|
  {
    if keys != [] {
      var front, last := keys[..|keys| - 1], keys[|keys| - 1];
      DistinctSize(front);
      assert keys == front + [last];
      assert (set k | k in keys) == (set k | k in front) + {last};
    }
  }

  lemma SeatsAreActive(keys: seq<Key>, lic: string)
    requires NoDuplicates(keys) && forall k | k in keys :: k.lic == lic
    ensures forall k :: k in Seats(keys) <==> k in keys
    ensures |ActiveSeats(Seats(keys), lic)| == |keys|
  {
    hide Seats, NoDuplicates;
    SeatsHold(keys);
    DistinctSize(keys);
    assert ActiveSeats(Seats(keys), lic) == (set k | k in keys);
  }

  function RoundCheck(keys: seq<Key>, cap: int, base: nat, counted: nat, pid: nat): Check
    requires base + pid < |keys|
  {
    Check(keys[base + pid], cap, None, if pid < counted then Counted(base) else Found)
  }

  /** A round of checks over `base` granted seats: so many started, counted and written, all seeing `base` seats. */
  function Round(keys: seq<Key>, cap: int, base: nat, started: nat, counted: nat, written: nat): System
    requires written <= started && base + started <= |keys|
  {
    System(Table(Seats(keys[..base + written]), base + written),
           map pid: nat | written <= pid < started :: RoundCheck(keys, cap, base, counted, pid))
  }

  /** Distinct installs of one licence. */
  ghost predicate Installs(keys: seq<Key>, lic: string) {
    NoDuplicates(keys) && forall i | 0 <= i < |keys| :: keys[i].lic == lic
  }

  lemma PrefixSeats(keys: seq<Key>, lic: string, m: nat)
    requires Installs(keys, lic) && m <= |keys|
    ensures |ActiveSeats(Seats(keys[..m]), lic)| == m
    ensures forall i | m <= i < |keys| :: keys[i] !in Seats(keys[..m])
    ensures m < |keys| ==> Seats(keys[..m + 1]) == Seats(keys[..m])[keys[m] := Seat(m, false)]
  {
    SeatsAreActive(keys[..m], lic);
    if m < |keys| {
      assert keys[..m + 1][..m] == keys[..m];
    }
  }

  lemma {:induction false} RangeSize(pids: set<nat>, n: nat)
    requires forall pid | pid in pids :: pid < n
    ensures |pids| <= n
  {
    if n > 0 {
      RangeSize(pids - {n - 1}, n - 1);
    } else {
      assert pids == {};
    }
  }

  lemma RoundFits(keys: seq<Key>, cap: int, base: nat, started: nat, counted: nat, written: nat, lic: string, n: nat)
    requires written <= started <= n && base + started <= |keys|
    ensures |InFlight(Round(keys, cap, base, started, counted, written), lic)| <= n
  {
    RangeSize(InFlight(Round(keys, cap, base, started, counted, written), lic), n);
  }

  lemma RoundStarts(keys: seq<Key>, cap: int, base: nat, i: nat, lic: string)
    requires Installs(keys, lic) && base < cap && base + i < |keys|
    ensures Next(Round(keys, cap, base, i, 0, 0), Start(i, keys[base + i], cap)) == Round(keys, cap, base, i + 1, 0, 0)
  {
    PrefixSeats(keys, lic, base);
    hide Seats, Installs;
    assert keys[base + i] !in Seats(keys[..base]);
    assert Next(Round(keys, cap, base, i, 0, 0), Start(i, keys[base + i], cap)).running
        == Round(keys, cap, base, i + 1, 0, 0).running;
  }

  lemma RoundCounts(keys: seq<Key>, cap: int, base: nat, m: nat, i: nat, lic: string)
    requires Installs(keys, lic) && base + m <= |keys| && i < m
    ensures Next(Round(keys, cap, base, m, i, 0), Count(i)) == Round(keys, cap, base, m, i + 1, 0)
  {
    PrefixSeats(keys, lic, base);
    hide Seats, ActiveSeats;
    assert Next(Round(keys, cap, base, m, i, 0), Count(i)).running == Round(keys, cap, base, m, i + 1, 0).running;
  }

  lemma RoundWrites(keys: seq<Key>, cap: int, base: nat, m: nat, i: nat, lic: string)
    requires Installs(keys, lic) && base < cap && base + m <= |keys| && i < m
    ensures Next(Round(keys, cap, base, m, m, i), Write(i, false)) == Round(keys, cap, base, m, m, i + 1)
  {
    hide Seats, Installs, ActiveSeats, NoDuplicates;
    PrefixSeats(keys, lic, base + i);
    var s := Round(keys, cap, base, m, m, i);
    assert keys[base + i] !in s.table.seats && s.running[i] == Check(keys[base + i], cap, None, Counted(base));
    assert keys[..base + (i + 1)] == keys[..base + i + 1];
    assert Next(Round(keys, cap, base, m, m, i), Write(i, false)).running
        == Round(keys, cap, base, m, m, i + 1).running;
  }

  /** All checks of a round start before the first counts, and count before the first writes: all are granted. */
  lemma RoundIsReached(keys: seq<Key>, cap: int, base: nat, m: nat, lic: string, n: nat)
    requires Installs(keys, lic) && base < cap && base + m <= |keys| && m <= n
    requires ReachedWithin(Round(keys, cap, base, 0, 0, 0), lic, cap, n)
    ensures ReachedWithin(Round(keys, cap, base + m, 0, 0, 0), lic, cap, n)
  {
    hide ReachedWithin, Next, Round, InFlight;
    for i := 0 to m
      invariant ReachedWithin(Round(keys, cap, base, i, 0, 0), lic, cap, n)
    {
      RoundStarts(keys, cap, base, i, lic);
      RoundFits(keys, cap, base, i + 1, 0, 0, lic, n);
      ReachStep(Round(keys, cap, base, i, 0, 0), Start(i, keys[base + i], cap), Round(keys, cap, base, i + 1, 0, 0),
                lic, cap, n);
    }
    for i := 0 to m
      invariant ReachedWithin(Round(keys, cap, base, m, i, 0), lic, cap, n)
    {
      RoundCounts(keys, cap, base, m, i, lic);
      RoundFits(keys, cap, base, m, i + 1, 0, lic, n);
      ReachStep(Round(keys, cap, base, m, i, 0), Count(i), Round(keys, cap, base, m, i + 1, 0), lic, cap, n);
    }
    for i := 0 to m
      invariant ReachedWithin(Round(keys, cap, base, m, m, i), lic, cap, n)
    {
      RoundWrites(keys, cap, base, m, i, lic);
      RoundFits(keys, cap, base, m, m, i + 1, lic, n);
      ReachStep(Round(keys, cap, base, m, m, i), Write(i, false), Round(keys, cap, base, m, m, i + 1), lic, cap, n);
    }
    RoundEnds(keys, cap, base, m);
  }

  lemma RoundEnds(keys: seq<Key>, cap: int, base: nat, m: nat)
    requires base + m <= |keys|
    ensures Round(keys, cap, base, m, m, m) == Round(keys, cap, base + m, 0, 0, 0)
  {
    assert Round(keys, cap, base, m, m, m).running == map[];
  }

  lemma BeginsReached(keys: seq<Key>, lic: string, cap: int, n: nat)
    ensures ReachedWithin(Round(keys, cap, 0, 0, 0, 0), lic, cap, n)
  {
    assert Overlaps(EMPTY, [], lic, cap, n) && Run(EMPTY, []) == EMPTY;
    assert Round(keys, cap, 0, 0, 0, 0) == EMPTY;
  }

  lemma FullRound(keys: seq<Key>, lic: string, cap: int, m: nat, n: nat)
    requires Installs(keys, lic) && m <= |keys| && ReachedWithin(Round(keys, cap, m, 0, 0, 0), lic, cap, n)
    ensures exists steps :: Overlaps(EMPTY, steps, lic, cap, n)
                && |ActiveSeats(Run(EMPTY, steps).table.seats, lic)| == m
  {
    PrefixSeats(keys, lic, m);
    hide Overlaps, Run, ActiveSeats, Seats;
  }

  /**
   The bound is reached for every cap and every number of overlapping checks: all seats but one are granted
   one after the other, and then `n` checks all count the last seat as free.
   */
  lemma OverlapBoundIsReached(lic: string, keys: seq<Key>, cap: int, n: nat)
    requires cap > 0 && n > 0 && Installs(keys, lic) && |keys| == cap - 1 + n
    ensures exists steps :: Overlaps(EMPTY, steps, lic, cap, n)
                && |ActiveSeats(Run(EMPTY, steps).table.seats, lic)| == cap - 1 + n
  {
    hide Overlaps, Run, ActiveSeats, Seats, Installs, Round, ReachedWithin;
    BeginsReached(keys, lic, cap, n);
    for base := 0 to cap - 1
      invariant ReachedWithin(Round(keys, cap, base, 0, 0, 0), lic, cap, n)
    {
      RoundIsReached(keys, cap, base, 1, lic, n);
    }
    RoundIsReached(keys, cap, cap - 1, n, lic, n);
    FullRound(keys, lic, cap, cap - 1 + n, n);
  }

  /**
   A granted seat turns blocked exactly by the write of a check that had read the same row blocked
   and found the licence full: no other step, and no check that had read it granted, takes it away.
   */
  lemma GrantedSeatLostOnlyToStaleRead(s: System, step: Step, key: Key)
    requires key in s.table.seats && !s.table.seats[key].blocked
    ensures var after := Next(s, step);
            (key in after.table.seats && after.table.seats[key].blocked) <==>
            (step.Write? && !step.fails && step.pid in s.running
             && var c := s.running[step.pid];
                c.phase != Found && c.key == key && c.existing.Some?
                && c.existing.value.id == s.table.seats[key].id && c.existing.value.blocked && c.phase.count >= c.cap)
  {
  }

  /** The seat of `b` is refused and kept as blocked while `a` holds the only seat. */
  lemma SecondSeatIsBlocked(a: Key, b: Key)
    requires a != b && a.lic == b.lic
    ensures var s := Run(EMPTY, [Start(1, a, 1), Count(1), Write(1, false)]);
            Run(s, [Start(2, b, 1), Count(2), Write(2, false)])
            == System(Table(map[a := Seat(0, false), b := Seat(1, true)], 2), map[])
  {
    AloneIsSequential(EMPTY, 1, a, 1);
    var s := System(Checked(EMPTY.table, a, 1).0, map[]);
    assert ActiveSeats(map[], a.lic) == {};
    assert s.table == Table(map[a := Seat(0, false)], 1);
    AloneIsSequential(s, 2, b, 1);
    assert ActiveSeats(s.table.seats, b.lic) == {a};
  }

  /**
   How a granted seat is lost: a check counts the licence full for a blocked seat, the full seat is
   released, a second check grants the blocked one, and then the first writes its refusal.
   */
  lemma GrantMayBeLost(a: Key, b: Key)
    requires a != b && a.lic == b.lic
    ensures var blocked := Run(Run(EMPTY, [Start(1, a, 1), Count(1), Write(1, false)]),
                               [Start(2, b, 1), Count(2), Write(2, false)]);
            var granted := Run(Run(blocked, [Start(3, b, 1), Count(3), Release(a)]),
                               [Start(4, b, 1), Count(4), Write(4, false)]);
            && b in granted.table.seats && !granted.table.seats[b].blocked
            && b in Next(granted, Write(3, false)).table.seats && Next(granted, Write(3, false)).table.seats[b].blocked
  {
    SecondSeatIsBlocked(a, b);
    CheckGoesStale(a, b);
    var released := System(Table(map[b := Seat(1, true)], 2), map[3 := Check(b, 1, Some(Seat(1, true)), Counted(1))]);
    AloneIsSequential(released, 4, b, 1);
    assert ActiveSeats(released.table.seats, b.lic) == {};
    hide Run, ActiveSeats;
  }

  lemma CheckGoesStale(a: Key, b: Key)
    requires a != b && a.lic == b.lic
    ensures Run(System(Table(map[a := Seat(0, false), b := Seat(1, true)], 2), map[]),
                [Start(3, b, 1), Count(3), Release(a)])
            == System(Table(map[b := Seat(1, true)], 2), map[3 := Check(b, 1, Some(Seat(1, true)), Counted(1))])
  {
    var s0 := System(Table(map[a := Seat(0, false), b := Seat(1, true)], 2), map[]);
    var steps := [Start(3, b, 1), Count(3), Release(a)];
    assert steps[1..][1..] == steps[2..] && steps[2..][1..] == [];
    assert ActiveSeats(s0.table.seats, b.lic) == {a};
    var s1 := Next(s0, steps[0]);
    var s2 := Next(s1, steps[1]);
    var s3 := Next(s2, steps[2]);
    assert s2.running == map[3 := Check(b, 1, Some(Seat(1, true)), Counted(1))];
    assert s3.table.seats == map[b := Seat(1, true)];
    assert Run(s0, steps) == Run(s1, steps[1..]) == Run(s2, steps[2..]) == Run(s3, []);
  }
}
