/**
 Stripe fulfilment with an idempotency ledger, and the single-use retrieval of the key: every awaited
 query of every delivery and reader is a step of its own.
 */
module Fulfilment {
  import opened Common
  import opened DomainPolicy

  type OrderId = nat
  type LicId = nat

  datatype Status = Pending | Fulfilled | Failed

  /**
   An order row. `handed`, `resets` and `marks` are history: keys given out, and delivered flags that
   saving a stale entity cleared or set.
   */
  datatype Order = Order(
    session: string, amount: int, currency: string, status: Status, eventId: string,
    license: Option<LicId>, delivered: bool, handed: nat, resets: nat, marks: nat)

  /** A licence minted by fulfilment, with the event and payment that bought it. */
  datatype Mint = Mint(event: string, order: OrderId, lic: LicId, paid: int)

  datatype Handed = Handed(order: OrderId, lic: LicId)

  datatype Store = Store(
    orders: map<OrderId, Order>, ledger: set<string>, mints: seq<Mint>, nextLic: LicId, keys: seq<Handed>)

  /** What Stripe delivers; it may repeat, overlap and carry no amount. */
  datatype Delivery = Delivery(event: string, orderId: Option<OrderId>, session: string, paid: Option<int>,
                               currency: string)

  /** How the mint inside the transaction ends. */
  datatype MintOutcome = Minted | PermanentFailure | ConstraintFailure | TransientFailure

  /** The webhook's answer: acknowledged, asked to retry, or an error that makes Stripe retry. */
  datatype Reply = Acknowledged | AskRetry | Thrown

  /** What the transaction may throw: a rejection, or anything else with its message. */
  datatype MintError = MintError(rejected: bool, message: string)

  /** The text occurs in the message, whatever its case. */
  predicate Mentions(message: string, word: string)
    decreases |message|
  {
    StartsWith(Lower(message), word) || (message != "" && Mentions(message[1..], word))
  }

  ghost predicate Contains(text: string, word: string) {
    exists before, rest :: text == before + word + rest
  }

  lemma ContainsFromStart(text: string, word: string)
    ensures Contains(text, word) <==> StartsWith(text, word) || (text != "" && Contains(text[1..], word))
  {
    if StartsWith(text, word) {
      assert text == "" + word + text[|word|..];
    }
    if text != "" {
      if before, rest :| text[1..] == before + word + rest {
        assert text == ([text[0]] + before) + word + rest;
      }
    }
    if before, rest :| text == before + word + rest {
      if before == "" {
        assert text[..|word|] == word;
      } else {
        assert text[1..] == before[1..] + word + rest;
      }
    }
  }

  lemma {:induction false} MentionsExactly(message: string, word: string)
    ensures Mentions(message, word) <==> Contains(Lower(message), word)
    decreases |message|
  {
    hide Contains, StartsWith;
    ContainsFromStart(Lower(message), word);
    if message != "" {
      MentionsExactly(message[1..], word);
      assert Lower(message[1..]) == Lower(message)[1..];
    }
  }

  /** The words by which the service takes an error for a lost race. */
  const CONFLICT_WORDS := ["duplicate", "unique", "er_dup_entry", "constraint"]

  predicate LooksLikeConflict(message: string) {
    Mentions(message, "duplicate") || Mentions(message, "unique") || Mentions(message, "er_dup_entry")
      || Mentions(message, "constraint")
  }

  /** How the service reads the error, if any, by its class first and then by its message. */
  function OutcomeOf(error: Option<MintError>): MintOutcome {
    match error
    case None => Minted
    case Some(e) =>
      if e.rejected then PermanentFailure else if LooksLikeConflict(e.message) then ConstraintFailure
        else TransientFailure
  }

  predicate Names(s: Store, id: OrderId, d: Delivery) {
    id in s.orders && (if d.orderId.Some? then id == d.orderId.value else s.orders[id].session == d.session)
  }

  predicate AmountMismatch(o: Order, d: Delivery) {
    d.paid.None? || d.paid.value != o.amount
    || (d.currency != "" && Lower(d.currency) != Lower(o.currency))
  }

  /** Equal but for the case of letters. */
  ghost predicate SameText(a: string, b: string) {
    |a| == |b| && forall i | 0 <= i < |a| :: LowerChar(a[i]) == LowerChar(b[i])
  }

  /** Exactly the order's price was paid, in its currency where one is told. */
  ghost predicate PaidInFull(o: Order, d: Delivery) {
    d.paid == Some(o.amount) && (d.currency == "" || SameText(d.currency, o.currency))
  }

  lemma MismatchExactly(o: Order, d: Delivery)
    ensures AmountMismatch(o, d) <==> !PaidInFull(o, d)
  {
  }

  /** The row as `findOne` returns it: the licence relation is not loaded. */
  function Loaded(o: Order): Order {
    o.(license := None)
  }

  /**
   Saving a loaded entity writes all the columns it carries over the current row; a relation that
   was not loaded stays as it is.
   */
  function Saved(current: Order, entity: Order): Order {
    current.(session := entity.session, status := entity.status, eventId := entity.eventId,
             license := if entity.license.Some? then entity.license else current.license,
             delivered := entity.delivered,
             resets := if current.delivered && !entity.delivered then current.resets + 1 else current.resets,
             marks := if !current.delivered && entity.delivered then current.marks + 1 else current.marks)
  }

  function SaveOrder(s: Store, id: OrderId, entity: Order): Store {
    if id in s.orders then s.(orders := s.orders[id := Saved(s.orders[id], entity)]) else s
  }

  function MarkedFailed(o: Order, d: Delivery): Order {
    o.(status := Failed, eventId := d.event)
  }

  /** The committed transaction: ledger row, licence and order together. */
  function Committed(s: Store, id: OrderId, entity: Order, d: Delivery): Store
    requires d.paid.Some?
  {
    var done := entity.(status := Fulfilled, eventId := d.event, license := Some(s.nextLic));
    SaveOrder(s, id, done).(ledger := s.ledger + {d.event},
                            mints := s.mints + [Mint(d.event, id, s.nextLic, d.paid.value)],
                            nextLic := s.nextLic + 1)
  }

  predicate PerOrderGuard(entity: Order) {
    entity.status == Fulfilled && entity.license.Some?
  }

  /** A whole delivery with nothing in between, for the order `id` it names. */
  function Fulfil(s: Store, id: OrderId, d: Delivery, outcome: MintOutcome): (Store, Reply)
    requires id in s.orders
  {
    var entity := Loaded(s.orders[id]);
    if d.event in s.ledger then (s, Acknowledged)
    else if AmountMismatch(entity, d) then (SaveOrder(s, id, MarkedFailed(entity, d)), Acknowledged)
    else
      match outcome
      case Minted => (Committed(s, id, entity, d), Acknowledged)
      case PermanentFailure => (SaveOrder(s, id, MarkedFailed(entity, d)), Acknowledged)
      case ConstraintFailure => (s, Acknowledged)
      case TransientFailure => (s, Thrown)
  }

  // ---- Steps in flight -----------------------------------------------------

  datatype Process =
    | Found(d: Delivery, id: OrderId, entity: Order)
    | Unprocessed(d: Delivery, id: OrderId, entity: Order)
    | Doomed(d: Delivery, id: OrderId, entity: Order)
    | Reading(id: OrderId, lic: LicId)

  datatype System = System(store: Store, running: map<nat, Process>)

  datatype Step =
    | PlaceOrder(id: OrderId, session: string, amount: int, currency: string)
    | AttachSession(id: OrderId, session: string)
    | FindOrder(pid: nat, id: OrderId, d: Delivery)
    | CheckLedger(pid: nat)
    | Settle(pid: nat, outcome: MintOutcome)
    | MarkFailed(pid: nat)
    | ReadOrder(pid: nat, id: OrderId)
    | ClaimKey(pid: nat)
    | Crash(pid: nat)

  function Placed(session: string, amount: int, currency: string): Order {
    Order(session, amount, currency, Pending, "", None, false, 0, 0, 0)
  }

  /** The transaction, or the failed-order save that an amount mismatch takes instead. */
  function Settled(s: Store, p: Process, outcome: MintOutcome): Store
    requires p.Unprocessed?
  {
    if AmountMismatch(p.entity, p.d) then SaveOrder(s, p.id, MarkedFailed(p.entity, p.d))
    else if p.d.event in s.ledger || outcome != Minted || p.id !in s.orders then s
    else Committed(s, p.id, p.entity, p.d)
  }

  predicate BecomesDoomed(s: Store, p: Process, outcome: MintOutcome)
    requires p.Unprocessed?
  {
    !AmountMismatch(p.entity, p.d) && p.d.event !in s.ledger && outcome == PermanentFailure
  }

  function KeyClaimed(s: Store, id: OrderId, lic: LicId): Store {
    if id !in s.orders || s.orders[id].delivered then s
    else
      var o := s.orders[id];
      s.(orders := s.orders[id := o.(delivered := true, handed := o.handed + 1)], keys := s.keys + [Handed(id, lic)])
  }

  ghost function Next(s: System, step: Step): System {
    match step
    case PlaceOrder(id, session, amount, currency) =>
      if id in s.store.orders then s
      else s.(store := s.store.(orders := s.store.orders[id := Placed(session, amount, currency)]))
    case AttachSession(id, session) =>
      if id !in s.store.orders then s
      else s.(store := s.store.(orders := s.store.orders[id := s.store.orders[id].(session := session)]))
    case FindOrder(pid, id, d) =>
      // With no such order nothing is recorded, and Stripe is asked to retry.
      if pid in s.running || !Names(s.store, id, d) || PerOrderGuard(Loaded(s.store.orders[id])) then s
      else s.(running := s.running[pid := Found(d, id, Loaded(s.store.orders[id]))])
    case CheckLedger(pid) =>
      if pid !in s.running || !s.running[pid].Found? then s
      else
        var p := s.running[pid];
        if p.d.event in s.store.ledger then s.(running := s.running - {pid})
        else s.(running := s.running[pid := Unprocessed(p.d, p.id, p.entity)])
    case Settle(pid, outcome) =>
      if pid !in s.running || !s.running[pid].Unprocessed? then s
      else
        var p := s.running[pid];
        System(Settled(s.store, p, outcome),
               if BecomesDoomed(s.store, p, outcome) then s.running[pid := Doomed(p.d, p.id, p.entity)]
               else s.running - {pid})
    case MarkFailed(pid) =>
      if pid !in s.running || !s.running[pid].Doomed? then s
      else
        var p := s.running[pid];
        System(SaveOrder(s.store, p.id, MarkedFailed(p.entity, p.d)), s.running - {pid})
    case ReadOrder(pid, id) =>
      if pid in s.running || id !in s.store.orders || s.store.orders[id].status != Fulfilled
        || s.store.orders[id].license.None?
      then s
      else s.(running := s.running[pid := Reading(id, s.store.orders[id].license.value)])
    case ClaimKey(pid) =>
      if pid !in s.running || !s.running[pid].Reading? then s
      else System(KeyClaimed(s.store, s.running[pid].id, s.running[pid].lic), s.running - {pid})
    case Crash(pid) => s.(running := s.running - {pid})
  }

  ghost function Run(s: System, steps: seq<Step>): System
    decreases |steps|
  {
    if steps == [] then s else Run(Next(s, steps[0]), steps[1..])
  }

  const EMPTY := System(Store(map[], {}, [], 0, []), map[])

  // ---- What every interleaving keeps ---------------------------------------

  function EventsOf(mints: seq<Mint>): set<string> {
    set m | m in mints :: m.event
  }

  ghost predicate EachOnce(mints: seq<Mint>) {
    forall i, j | 0 <= i < j < |mints| :: mints[i].event != mints[j].event && mints[i].lic != mints[j].lic
  }

  ghost predicate MintedFor(s: Store, id: OrderId, lic: LicId) {
    exists m :: m in s.mints && m.order == id && m.lic == lic
  }

  /** Ledger rows and mints are in bijection, and every mint was paid in full. */
  ghost predicate Ledgered(s: Store) {
    && s.ledger == EventsOf(s.mints)
    && EachOnce(s.mints)
    && forall m | m in s.mints :: m.lic < s.nextLic && m.order in s.orders && m.paid == s.orders[m.order].amount
  }

  /** Every time the flag was set, by handing out a key or by a save, it was cleared again or is still set. */
  predicate Conserved(o: Order) {
    o.handed + o.marks == o.resets + if o.delivered then 1 else 0
  }

  ghost predicate StoreOk(s: Store) {
    && Ledgered(s)
    && (forall id | id in s.orders :: Conserved(s.orders[id]))
    && (forall id | id in s.orders && s.orders[id].license.Some? :: MintedFor(s, id, s.orders[id].license.value))
    && (forall k | k in s.keys :: MintedFor(s, k.order, k.lic))
  }

  ghost predicate ProcessOk(s: Store, p: Process) {
    match p
    case Reading(id, lic) => MintedFor(s, id, lic)
    case _ => p.id in s.orders && p.entity.license == None && p.entity.amount == s.orders[p.id].amount
  }

  ghost predicate SystemOk(s: System) {
    StoreOk(s.store) && forall pid | pid in s.running :: ProcessOk(s.store, s.running[pid])
  }

  /** Nothing is forgotten: orders keep their amount, mints only accumulate. */
  ghost predicate Extends(s: Store, t: Store) {
    && s.mints <= t.mints
    && forall id | id in s.orders :: id in t.orders && t.orders[id].amount == s.orders[id].amount
  }

  lemma ProcessSurvives(s: Store, t: Store, p: Process)
    requires Extends(s, t) && ProcessOk(s, p)
    ensures ProcessOk(t, p)
  {
  }

  /** A save touches one order: its history stays balanced and its licence was minted for it. */
  lemma SaveKeepsStore(s: Store, id: OrderId, entity: Order)
    requires StoreOk(s) && entity.license == None
    ensures StoreOk(SaveOrder(s, id, entity)) && Extends(s, SaveOrder(s, id, entity))
  {
  }

  lemma CommitKeepsStore(s: Store, id: OrderId, entity: Order, d: Delivery)
    requires StoreOk(s) && id in s.orders && d.paid.Some? && d.paid.value == s.orders[id].amount && d.event !in s.ledger
    ensures StoreOk(Committed(s, id, entity, d)) && Extends(s, Committed(s, id, entity, d))
  {
  }

  lemma ClaimKeepsStore(s: Store, id: OrderId, lic: LicId)
    requires StoreOk(s) && MintedFor(s, id, lic)
    ensures StoreOk(KeyClaimed(s, id, lic)) && Extends(s, KeyClaimed(s, id, lic))
  {
  }

  lemma PlainStepKeepsStore(s: System, step: Step)
    requires StoreOk(s.store) && !step.Settle? && !step.MarkFailed? && !step.ClaimKey?
    ensures StoreOk(Next(s, step).store) && Extends(s.store, Next(s, step).store)
  {
    hide EachOnce, EventsOf;
    var t := Next(s, step).store;
    assert t.mints == s.store.mints && forall i, l | MintedFor(s.store, i, l) :: MintedFor(t, i, l);
  }

  lemma NextStore(s: System, step: Step)
    requires SystemOk(s)
    ensures StoreOk(Next(s, step).store) && Extends(s.store, Next(s, step).store)
  {
    hide SaveOrder, Committed, KeyClaimed, Ledgered, Conserved;
    match step
    case Settle(pid, outcome) =>
      if pid in s.running && s.running[pid].Unprocessed? {
        var p := s.running[pid];
        assert ProcessOk(s.store, p);
        if AmountMismatch(p.entity, p.d) {
          SaveKeepsStore(s.store, p.id, MarkedFailed(p.entity, p.d));
        } else if p.d.event !in s.store.ledger && outcome == Minted {
          CommitKeepsStore(s.store, p.id, p.entity, p.d);
        }
      }
    case MarkFailed(pid) =>
      if pid in s.running && s.running[pid].Doomed? {
        var p := s.running[pid];
        assert ProcessOk(s.store, p);
        SaveKeepsStore(s.store, p.id, MarkedFailed(p.entity, p.d));
      }
    case ClaimKey(pid) =>
      if pid in s.running && s.running[pid].Reading? {
        ClaimKeepsStore(s.store, s.running[pid].id, s.running[pid].lic);
      }
    case _ => PlainStepKeepsStore(s, step);
  }

  lemma NextOk(s: System, step: Step)
    requires SystemOk(s)
    ensures SystemOk(Next(s, step))
  {
    var after := Next(s, step);
    NextStore(s, step);
    hide StoreOk, Extends, Committed, Saved;
    forall pid | pid in after.running ensures ProcessOk(after.store, after.running[pid]) {
      NewProcessOk(s, step, pid);
    }
  }

  lemma NewProcessOk(s: System, step: Step, pid: nat)
    requires SystemOk(s) && pid in Next(s, step).running && Extends(s.store, Next(s, step).store)
    ensures ProcessOk(Next(s, step).store, Next(s, step).running[pid])
  {
    hide Ledgered, Committed, Saved;
    var after := Next(s, step);
    if pid in s.running {
      assert ProcessOk(s.store, s.running[pid]);
      ProcessSurvives(s.store, after.store, s.running[pid]);
    }
  }

  /**
   Under arbitrary concurrent, repeated and failing deliveries: each event mints at most once, in
   bijection with the ledger, at the order's own price; and each key handed out was minted for its order.
   */
  lemma {:induction false} FulfilmentIsLedgered(s: System, steps: seq<Step>)
    requires SystemOk(s)
    ensures var t := Run(s, steps).store;
            Ledgered(t) && forall k | k in t.keys :: MintedFor(t, k.order, k.lic)
    ensures forall id | id in Run(s, steps).store.orders :: Conserved(Run(s, steps).store.orders[id])
    decreases |steps|
  {
    if steps != [] {
      hide Next, SystemOk;
      NextOk(s, steps[0]);
      FulfilmentIsLedgered(Next(s, steps[0]), steps[1..]);
    }
  }

  /** From an empty shop; an order hands out more than one key only where a save cleared its flag. */
  lemma OneKeyPerOrderUnlessFlagCleared(steps: seq<Step>, id: OrderId)
    ensures var t := Run(EMPTY, steps).store;
            && Ledgered(t)
            && (id in t.orders ==> t.orders[id].handed <= t.orders[id].resets + 1)
            && (id in t.orders && t.orders[id].resets == 0 ==> t.orders[id].handed <= 1)
  {
    FulfilmentIsLedgered(EMPTY, steps);
    var t := Run(EMPTY, steps).store;
    assert id in t.orders ==> Conserved(t.orders[id]);
  }

  /**
   A whole delivery mints exactly for a new event that paid in full and whose mint throws nothing; then the order
   is fulfilled by it, with the licence just minted.
   */
  lemma DeliveryMintsExactly(s: Store, id: OrderId, d: Delivery, error: Option<MintError>)
    requires id in s.orders
    ensures var t := Fulfil(s, id, d, OutcomeOf(error)).0;
            var mints := d.event !in s.ledger && PaidInFull(s.orders[id], d) && error.None?;
            && (mints ==>
                  && t.mints == s.mints + [Mint(d.event, id, s.nextLic, s.orders[id].amount)]
                  && t.ledger == s.ledger + {d.event} && t.nextLic == s.nextLic + 1 && id in t.orders
                  && t.orders[id].status == Fulfilled && t.orders[id].license == Some(s.nextLic)
                  && t.orders[id].eventId == d.event && t.orders[id].delivered == s.orders[id].delivered)
            && (!mints ==> t.mints == s.mints && t.ledger == s.ledger && t.keys == s.keys)
            && forall other | other in s.orders && other != id ::
                 other in t.orders && t.orders[other] == s.orders[other]
  {
    hide LooksLikeConflict, AmountMismatch, PaidInFull;
    MismatchExactly(s.orders[id], d);
    MismatchExactly(Loaded(s.orders[id]), d);
    LoadedPays(s.orders[id], d);
  }

  lemma LoadedPays(o: Order, d: Delivery)
    ensures PaidInFull(Loaded(o), d) <==> PaidInFull(o, d)
    ensures PaidInFull(o, d) ==> d.paid == Some(o.amount)
  {
  }

  /** A delivery gets under way exactly with the order it names, or without an order id with that of its session. */
  lemma DeliveryStartsExactly(s: System, pid: nat, id: OrderId, d: Delivery)
    requires pid !in s.running
    ensures var after := Next(s, FindOrder(pid, id, d));
            && after.store == s.store
            && (pid in after.running <==>
                id in s.store.orders
                && (d.orderId == Some(id) || (d.orderId == None && s.store.orders[id].session == d.session)))
            && (pid in after.running ==> after.running[pid] == Found(d, id, s.store.orders[id].(license := None)))
  {
  }

  /** A running request is not taken over by another, and a crash ends it without a trace. */
  lemma RequestsAreTheirOwn(s: System, pid: nat, id: OrderId, d: Delivery)
    requires pid in s.running
    ensures Next(s, FindOrder(pid, id, d)) == s && Next(s, ReadOrder(pid, id)) == s
    ensures Next(s, Crash(pid)) == System(s.store, s.running - {pid})
  {
  }

  /** A delivery that paid in full and lost the race for its event leaves the order alone and is done. */
  lemma LostRaceIsHarmless(s: System, pid: nat, outcome: MintOutcome)
    requires pid in s.running && s.running[pid].Unprocessed? && PaidInFull(s.running[pid].entity, s.running[pid].d)
    requires s.running[pid].d.event in s.store.ledger
    ensures Next(s, Settle(pid, outcome)) == System(s.store, s.running - {pid})
  {
    MismatchExactly(s.running[pid].entity, s.running[pid].d);
  }

  /** A save writes all the loaded columns over the row, keeps the rest, and the licence unless it carries one. */
  lemma SaveOverwritesExactly(s: Store, id: OrderId, entity: Order)
    requires id in s.orders
    ensures var t := SaveOrder(s, id, entity);
            && id in t.orders && t == s.(orders := s.orders[id := t.orders[id]])
            && var was, now := s.orders[id], t.orders[id];
               && now.session == entity.session && now.status == entity.status && now.eventId == entity.eventId
               && now.delivered == entity.delivered && now.amount == was.amount && now.currency == was.currency
               && now.license == (if entity.license.Some? then entity.license else was.license)
               && now.handed == was.handed
  {
  }

  /** A reader gets to a key only over a fulfilled order with a licence, and asks for it once. */
  lemma ReaderStartsExactly(s: System, pid: nat, id: OrderId)
    requires pid !in s.running
    ensures var reading := Next(s, ReadOrder(pid, id));
            && (pid in reading.running <==>
                id in s.store.orders && s.store.orders[id].status == Fulfilled && s.store.orders[id].license.Some?)
            && (pid in reading.running ==> reading.running[pid] == Reading(id, s.store.orders[id].license.value))
            && pid !in Next(reading, ClaimKey(pid)).running
  {
  }

  /** A step adds to the ledger exactly when a paid, new event commits; then it adds that one mint. */
  lemma LedgerMovesOnlyOnCommit(s: System, step: Step)
    requires SystemOk(s)
    ensures var t := Next(s, step).store;
            var commits := step.Settle? && step.pid in s.running && s.running[step.pid].Unprocessed?
                           && PaidInFull(s.running[step.pid].entity, s.running[step.pid].d)
                           && s.running[step.pid].d.event !in s.store.ledger && step.outcome == Minted;
            && (commits ==>
                  t.ledger == s.store.ledger + {s.running[step.pid].d.event} && |t.mints| == |s.store.mints| + 1)
            && (!commits ==> t.ledger == s.store.ledger && t.mints == s.store.mints)
  {
    hide AmountMismatch, PaidInFull;
    if step.Settle? && step.pid in s.running && s.running[step.pid].Unprocessed? {
      MismatchExactly(s.running[step.pid].entity, s.running[step.pid].d);
      assert ProcessOk(s.store, s.running[step.pid]);
      LoadedPays(s.running[step.pid].entity, s.running[step.pid].d);
    }
  }

  // ---- When an order hands out one key -------------------------------------

  /** An order's one checkout session and price, the deliveries that may find it, and whether its mint may fail. */
  datatype Trade = Trade(session: string, amount: int, currency: string, deliveries: set<Delivery>, mayFail: bool)

  predicate Pays(t: Trade, d: Delivery) {
    !AmountMismatch(Placed("", t.amount, t.currency), d)
  }

  /**
   Nobody pays in full; or everyone who comes does, all with one event, and no mint of the order fails
   permanently.
   */
  predicate Safe(t: Trade) {
    || (forall d | d in t.deliveries :: !Pays(t, d))
    || (!t.mayFail
        && (forall d | d in t.deliveries :: Pays(t, d))
        && (forall d, e | d in t.deliveries && e in t.deliveries :: d.event == e.event))
  }

  /** The step treats order `id` as the trade says; other orders are free. */
  predicate Fits(s: System, step: Step, id: OrderId, t: Trade) {
    && (step.PlaceOrder? && step.id == id ==> step.amount == t.amount && step.currency == t.currency)
    && (step.AttachSession? && step.id == id ==> step.session == t.session)
    && (step.FindOrder? && step.id == id ==> step.d in t.deliveries)
    && (step.Settle? && step.outcome == PermanentFailure && step.pid in s.running && s.running[step.pid].id == id
        ==> t.mayFail)
  }

  ghost predicate FitsAlong(s: System, steps: seq<Step>, id: OrderId, t: Trade)
    decreases |steps|
  {
    steps == [] || (Fits(s, steps[0], id, t) && FitsAlong(Next(s, steps[0]), steps[1..], id, t))
  }

  /** Some run of the trade from an empty shop leads here. */
  ghost predicate Reachable(s: System, id: OrderId, t: Trade) {
    exists steps :: FitsAlong(EMPTY, steps, id, t) && Run(EMPTY, steps) == s
  }

  function KeysHanded(s: Store, id: OrderId): nat {
    if id in s.orders then s.orders[id].handed else 0
  }

  function PayingEvents(t: Trade): set<string> {
    set d | d in t.deliveries && Pays(t, d) :: d.event
  }

  predicate EventMinted(s: Store, t: Trade) {
    PayingEvents(t) != {} && PayingEvents(t) <= s.ledger
  }

  /** In a safe trade the delivered flag is only ever set, and only after its one event minted. */
  ghost predicate TradeStore(s: Store, id: OrderId, t: Trade) {
    && (forall m | m in s.mints && m.order == id :: m.event in PayingEvents(t))
    && (id in s.orders ==>
          var o := s.orders[id];
          && o.amount == t.amount && o.currency == t.currency
          && o.resets == 0 && o.marks == 0 && (o.delivered ==> EventMinted(s, t)))
  }

  ghost predicate TradeProcess(s: Store, p: Process, t: Trade)
    requires !p.Reading?
  {
    && !p.Doomed? && p.d in t.deliveries && p.entity.amount == t.amount && p.entity.currency == t.currency
    && (p.entity.delivered ==> EventMinted(s, t))
  }

  ghost predicate TradeOk(s: System, id: OrderId, t: Trade) {
    && TradeStore(s.store, id, t)
    && forall pid | pid in s.running && s.running[pid].id == id && !s.running[pid].Reading? ::
         TradeProcess(s.store, s.running[pid], t)
  }

  lemma SafeSettles(s: Store, t: Trade, d: Delivery)
    requires Safe(t) && d in t.deliveries
    ensures Pays(t, d) ==> PayingEvents(t) == {d.event} && !t.mayFail
    ensures !Pays(t, d) ==> PayingEvents(t) == {}
  {
    if Pays(t, d) {
      assert d.event in PayingEvents(t);
    }
  }

  lemma CommitKeepsTrade(s: Store, p: Process, id: OrderId, t: Trade)
    requires Safe(t) && StoreOk(s) && TradeStore(s, id, t) && p.Unprocessed? && ProcessOk(s, p)
    requires !AmountMismatch(p.entity, p.d) && p.d.event !in s.ledger
    requires p.id == id ==> TradeProcess(s, p, t)
    ensures TradeStore(Committed(s, p.id, p.entity, p.d), id, t)
  {
    hide EachOnce, Conserved, MintedFor, Safe;
    var after := Committed(s, p.id, p.entity, p.d);
    assert forall m | m in after.mints :: m in s.mints || m == after.mints[|s.mints|];
    if p.id == id {
      SafeSettles(s, t, p.d);
    }
  }

  lemma SaveKeepsTrade(s: Store, i: OrderId, entity: Order, id: OrderId, t: Trade)
    requires TradeStore(s, id, t) && (i == id ==> !entity.delivered && PayingEvents(t) == {})
    ensures TradeStore(SaveOrder(s, i, entity), id, t)
  {
    hide PayingEvents;
  }

  /** A key can only be read once its order's event is in the ledger. */
  lemma ReaderMeansSettled(s: System, pid: nat, id: OrderId, t: Trade)
    requires SystemOk(s) && TradeOk(s, id, t) && Safe(t)
    requires pid in s.running && s.running[pid].Reading? && s.running[pid].id == id
    ensures EventMinted(s.store, t)
  {
    assert ProcessOk(s.store, s.running[pid]);
    var m :| m in s.store.mints && m.order == id && m.lic == s.running[pid].lic;
    assert m.event in EventsOf(s.store.mints);
    var d :| d in t.deliveries && Pays(t, d) && d.event == m.event;
    SafeSettles(s.store, t, d);
  }

  lemma NextTradeStore(s: System, step: Step, id: OrderId, t: Trade)
    requires Safe(t) && SystemOk(s) && TradeOk(s, id, t) && Fits(s, step, id, t)
    ensures TradeStore(Next(s, step).store, id, t)
  {
    hide EachOnce, Conserved, MintedFor, Names, StoreOk, Committed, SaveOrder, Safe, PayingEvents;
    match step
    case Settle(pid, outcome) =>
      if pid in s.running && s.running[pid].Unprocessed? {
        var p := s.running[pid];
        assert ProcessOk(s.store, p);
        if !AmountMismatch(p.entity, p.d) {
          if p.d.event !in s.store.ledger {
            CommitKeepsTrade(s.store, p, id, t);
          }
        } else {
          if p.id == id {
            SafeSettles(s.store, t, p.d);
          }
          SaveKeepsTrade(s.store, p.id, MarkedFailed(p.entity, p.d), id, t);
        }
      }
    case ClaimKey(pid) =>
      if pid in s.running && s.running[pid].Reading? && s.running[pid].id == id {
        ReaderMeansSettled(s, pid, id, t);
      }
    case MarkFailed(pid) =>
      if pid in s.running && s.running[pid].Doomed? {
        SaveKeepsTrade(s.store, s.running[pid].id, MarkedFailed(s.running[pid].entity, s.running[pid].d), id, t);
      }
    case _ =>
  }

  lemma NextTradeProcess(s: System, step: Step, id: OrderId, t: Trade, pid: nat)
    requires Safe(t) && SystemOk(s) && TradeOk(s, id, t) && Fits(s, step, id, t)
    requires pid in Next(s, step).running && Next(s, step).running[pid].id == id && !Next(s, step).running[pid].Reading?
    ensures TradeProcess(Next(s, step).store, Next(s, step).running[pid], t)
  {
    hide EachOnce, Conserved, MintedFor, Safe, PayingEvents, StoreOk;
    if pid in s.running {
      assert ProcessOk(s.store, s.running[pid]);
      assert TradeProcess(s.store, s.running[pid], t);
      SafeSettles(s.store, t, s.running[pid].d);
    }
    assert s.store.ledger <= Next(s, step).store.ledger;
  }

  lemma {:induction false} TradeRuns(s: System, steps: seq<Step>, id: OrderId, t: Trade)
    requires Safe(t) && SystemOk(s) && TradeOk(s, id, t) && FitsAlong(s, steps, id, t)
    ensures SystemOk(Run(s, steps)) && TradeOk(Run(s, steps), id, t)
    decreases |steps|
  {
    hide SystemOk, Fits, EventMinted, TradeProcess, AmountMismatch, Safe, TradeStore;
    if steps != [] {
      var after := Next(s, steps[0]);
      NextOk(s, steps[0]);
      NextTradeStore(s, steps[0], id, t);
      forall pid | pid in after.running && after.running[pid].id == id && !after.running[pid].Reading?
        ensures TradeProcess(after.store, after.running[pid], t)
      {
        NextTradeProcess(s, steps[0], id, t, pid);
      }
      TradeRuns(after, steps[1..], id, t);
    }
  }

  lemma OneEventMints(s: Store, i: nat, id: OrderId, t: Trade)
    requires Safe(t) && TradeStore(s, id, t) && i < |s.mints| && s.mints[i].order == id
    ensures PayingEvents(t) == {s.mints[i].event}
  {
    assert s.mints[i] in s.mints;
    var d :| d in t.deliveries && Pays(t, d) && d.event == s.mints[i].event;
    SafeSettles(s, t, d);
  }

  /**
   In a safe trade, however often and concurrently it is delivered, the order is minted and handed out at most
   once.
   */
  lemma OneKeyPerOrderWithOnePayer(steps: seq<Step>, id: OrderId, t: Trade)
    requires Safe(t) && FitsAlong(EMPTY, steps, id, t)
    ensures var s := Run(EMPTY, steps).store;
            && KeysHanded(s, id) <= 1
            && forall i, j | 0 <= i < j < |s.mints| && s.mints[i].order == id :: s.mints[j].order != id
  {
    TradeRuns(EMPTY, steps, id, t);
    var s := Run(EMPTY, steps).store;
    hide Run, FitsAlong, ProcessOk, TradeProcess;
    assert id in s.orders ==> Conserved(s.orders[id]);
    forall i | 0 <= i < |s.mints| && s.mints[i].order == id ensures PayingEvents(t) == {s.mints[i].event} {
      OneEventMints(s, i, id, t);
    }
  }

  // ---- When it does not ----------------------------------------------------

  lemma {:induction false} RunEnds(s: System, steps: seq<Step>, last: Step, id: OrderId, t: Trade)
    ensures Run(s, steps + [last]) == Next(Run(s, steps), last)
    ensures FitsAlong(s, steps, id, t) && Fits(Run(s, steps), last, id, t) ==> FitsAlong(s, steps + [last], id, t)
    decreases |steps|
  {
    hide Next, Fits;
    if steps == [] {
      assert steps + [last] == [last] && [last][1..] == [];
      assert Run(s, [last]) == Run(Next(s, last), []);
    } else {
      assert (steps + [last])[0] == steps[0] && (steps + [last])[1..] == steps[1..] + [last];
      RunEnds(Next(s, steps[0]), steps[1..], last, id, t);
    }
  }

  lemma ReachNext(s: System, step: Step, id: OrderId, t: Trade)
    requires Reachable(s, id, t) && Fits(s, step, id, t)
    ensures Reachable(Next(s, step), id, t)
  {
    hide Next, Fits;
    var steps :| FitsAlong(EMPTY, steps, id, t) && Run(EMPTY, steps) == s;
    RunEnds(EMPTY, steps, step, id, t);
  }

  /** The order with its session attached, waiting for its payment. */
  function Waiting(t: Trade): Order {
    Placed(t.session, t.amount, t.currency)
  }

  /** A delivery of the trade that is for this order, by its id or by its session. */
  predicate Comes(t: Trade, id: OrderId, d: Delivery) {
    d in t.deliveries && (d.orderId == Some(id) || (d.orderId == None && d.session == t.session))
  }

  /** Two deliveries have both found the order and seen their events unprocessed. */
  lemma BothFindTheOrder(id: OrderId, t: Trade, d1: Delivery, d2: Delivery)
    requires Comes(t, id, d1) && Comes(t, id, d2)
    ensures Reachable(System(Store(map[id := Waiting(t)], {}, [], 0, []),
                             map[1 := Unprocessed(d1, id, Waiting(t)), 2 := Unprocessed(d2, id, Waiting(t))]), id, t)
  {
    hide Reachable, AmountMismatch;
    assert Reachable(EMPTY, id, t) by {
      BeginsReachable(id, t);
    }
    var s1 := Next(EMPTY, PlaceOrder(id, "pending", t.amount, t.currency));
    ReachNext(EMPTY, PlaceOrder(id, "pending", t.amount, t.currency), id, t);
    var s2 := Next(s1, AttachSession(id, t.session));
    ReachNext(s1, AttachSession(id, t.session), id, t);
    assert s2 == System(Store(map[id := Waiting(t)], {}, [], 0, []), map[]);
    var s3 := Next(s2, FindOrder(1, id, d1));
    ReachNext(s2, FindOrder(1, id, d1), id, t);
    var s4 := Next(s3, CheckLedger(1));
    ReachNext(s3, CheckLedger(1), id, t);
    var s5 := Next(s4, FindOrder(2, id, d2));
    ReachNext(s4, FindOrder(2, id, d2), id, t);
    ReachNext(s5, CheckLedger(2), id, t);
    assert Next(s5, CheckLedger(2)).running == map[1 := Unprocessed(d1, id, Waiting(t)),
                                                   2 := Unprocessed(d2, id, Waiting(t))];
  }

  lemma BeginsReachable(id: OrderId, t: Trade)
    ensures Reachable(EMPTY, id, t)
  {
    assert FitsAlong(EMPTY, [], id, t) && Run(EMPTY, []) == EMPTY;
  }

  /** The first delivery's licence, the order that shows it, and two readers who have seen it, one with the key. */
  function Sold(id: OrderId, t: Trade, d: Delivery, stale: Process): System {
    System(Store(map[id := Waiting(t).(status := Fulfilled, eventId := d.event, license := Some(0),
                                          delivered := true, handed := 1)],
                 {d.event}, [Mint(d.event, id, 0, t.amount)], 1, [Handed(id, 0)]),
           map[2 := stale, 4 := Reading(id, 0)])
  }

  /** The first delivery commits while the other is still under way; two readers come, and one gets the key. */
  lemma FirstKeyIsHandedOut(id: OrderId, t: Trade, d: Delivery, stale: Process)
    requires Comes(t, id, d) && Pays(t, d) && !stale.Reading?
    requires Reachable(System(Store(map[id := Waiting(t)], {}, [], 0, []),
                              map[1 := Unprocessed(d, id, Waiting(t)), 2 := stale]), id, t)
    ensures Reachable(Sold(id, t, d, stale), id, t)
  {
    hide Reachable, Fits;
    var s0 := System(Store(map[id := Waiting(t)], {}, [], 0, []), map[1 := Unprocessed(d, id, Waiting(t)), 2 := stale]);
    var sold := Waiting(t).(status := Fulfilled, eventId := d.event, license := Some(0));
    FitsFree(s0, Settle(1, Minted), id, t);
    ReachNext(s0, Settle(1, Minted), id, t);
    var s1 := System(Store(map[id := sold], {d.event}, [Mint(d.event, id, 0, t.amount)], 1, []), map[2 := stale]);
    assert Next(s0, Settle(1, Minted)) == s1 by {
      CommitsFirst(id, t, d, stale);
    }
    TwoReaders(id, t, s1, sold, stale);
    assert [] + [Handed(id, 0)] == [Handed(id, 0)];
  }

  lemma FitsFree(s: System, step: Step, id: OrderId, t: Trade)
    requires !step.PlaceOrder? && !step.AttachSession? && !step.FindOrder?
    requires step.Settle? ==> step.outcome != PermanentFailure
    ensures Fits(s, step, id, t)
  {
  }

  lemma CommitsFirst(id: OrderId, t: Trade, d: Delivery, stale: Process)
    requires Pays(t, d)
    ensures var s0 := System(Store(map[id := Waiting(t)], {}, [], 0, []),
                             map[1 := Unprocessed(d, id, Waiting(t)), 2 := stale]);
            var sold := Waiting(t).(status := Fulfilled, eventId := d.event, license := Some(0));
            Next(s0, Settle(1, Minted))
            == System(Store(map[id := sold], {d.event}, [Mint(d.event, id, 0, t.amount)], 1, []), map[2 := stale])
  {
  }

  lemma TwoReaders(id: OrderId, t: Trade, s1: System, sold: Order, stale: Process)
    requires Reachable(s1, id, t) && s1.running == map[2 := stale] && s1.store.orders == map[id := sold]
    requires sold.status == Fulfilled && sold.license == Some(0) && !sold.delivered
    ensures Reachable(System(s1.store.(orders := map[id := sold.(delivered := true, handed := sold.handed + 1)],
                                       keys := s1.store.keys + [Handed(id, 0)]),
                             map[2 := stale, 4 := Reading(id, 0)]), id, t)
  {
    hide Reachable, Fits;
    FitsFree(s1, ReadOrder(3, id), id, t);
    ReachNext(s1, ReadOrder(3, id), id, t);
    var s2 := Next(s1, ReadOrder(3, id));
    FitsFree(s2, ReadOrder(4, id), id, t);
    ReachNext(s2, ReadOrder(4, id), id, t);
    var s3 := Next(s2, ReadOrder(4, id));
    assert s3 == System(s1.store, map[2 := stale, 3 := Reading(id, 0), 4 := Reading(id, 0)]);
    FitsFree(s3, ClaimKey(3), id, t);
    ReachNext(s3, ClaimKey(3), id, t);
    assert Next(s3, ClaimKey(3)).running == map[2 := stale, 4 := Reading(id, 0)];
    assert Next(s3, ClaimKey(3)).store
        == s1.store.(orders := map[id := sold.(delivered := true, handed := sold.handed + 1)],
                     keys := s1.store.keys + [Handed(id, 0)]);
  }

  /** The late save clears the delivered flag, and the second reader gets a key as well. */
  lemma SecondKeyFollows(s: System, id: OrderId, t: Trade)
    requires Reachable(s, id, t) && id in s.store.orders && !s.store.orders[id].delivered
             && s.store.orders[id].handed == 1
    requires 4 in s.running && s.running[4].Reading? && s.running[4].id == id
    ensures exists e :: Reachable(e, id, t) && KeysHanded(e.store, id) == 2 && e.store.mints == s.store.mints
  {
    hide Reachable, Fits;
    FitsFree(s, ClaimKey(4), id, t);
    ReachNext(s, ClaimKey(4), id, t);
    assert KeysHanded(Next(s, ClaimKey(4)).store, id) == 2;
  }

  ghost predicate HandsOutTwo(id: OrderId, t: Trade) {
    exists e :: Reachable(e, id, t) && KeysHanded(e.store, id) == 2
  }

  /** Two fully paying events for one order, whatever it costs: two licences and two keys. */
  lemma SecondEventMintsAndHandsOutAgain(id: OrderId, t: Trade, d1: Delivery, d2: Delivery)
    requires Comes(t, id, d1) && Pays(t, d1) && Comes(t, id, d2) && Pays(t, d2) && d1.event != d2.event
    ensures exists e :: Reachable(e, id, t) && KeysHanded(e.store, id) == 2
              && |e.store.mints| == 2 && e.store.mints[0].order == e.store.mints[1].order == id
  {
    var stale := Unprocessed(d2, id, Waiting(t));
    BothFindTheOrder(id, t, d1, d2);
    FirstKeyIsHandedOut(id, t, d1, stale);
    FitsFree(Sold(id, t, d1, stale), Settle(2, Minted), id, t);
    ReachNext(Sold(id, t, d1, stale), Settle(2, Minted), id, t);
    SecondKeyFollows(Next(Sold(id, t, d1, stale), Settle(2, Minted)), id, t);
    hide Reachable, Fits;
  }

  /** One event, delivered twice at once: a permanent failure of one mint clears the flag after the other sold. */
  lemma FailedTwinHandsOutAgain(id: OrderId, t: Trade, d: Delivery)
    requires Comes(t, id, d) && Pays(t, d) && t.mayFail
    ensures HandsOutTwo(id, t)
  {
    hide Reachable, Fits;
    var both := System(Store(map[id := Waiting(t)], {}, [], 0, []),
                       map[1 := Unprocessed(d, id, Waiting(t)), 2 := Unprocessed(d, id, Waiting(t))]);
    var stale := Doomed(d, id, Waiting(t));
    BothFindTheOrder(id, t, d, d);
    assert Fits(both, Settle(2, PermanentFailure), id, t) by {
      FailureFits(both, 2, id, t);
    }
    ReachNext(both, Settle(2, PermanentFailure), id, t);
    assert Next(both, Settle(2, PermanentFailure)).running == map[1 := Unprocessed(d, id, Waiting(t)), 2 := stale];
    FirstKeyIsHandedOut(id, t, d, stale);
    FitsFree(Sold(id, t, d, stale), MarkFailed(2), id, t);
    ReachNext(Sold(id, t, d, stale), MarkFailed(2), id, t);
    SecondKeyFollows(Next(Sold(id, t, d, stale), MarkFailed(2)), id, t);
  }

  lemma FailureFits(s: System, pid: nat, id: OrderId, t: Trade)
    requires t.mayFail
    ensures Fits(s, Settle(pid, PermanentFailure), id, t)
  {
  }

  /** A delivery of the wrong amount that found the order early clears the flag as well. */
  lemma MismatchHandsOutAgain(id: OrderId, t: Trade, d: Delivery, wrong: Delivery)
    requires Comes(t, id, d) && Pays(t, d) && Comes(t, id, wrong) && !Pays(t, wrong)
    ensures HandsOutTwo(id, t)
  {
    var stale := Unprocessed(wrong, id, Waiting(t));
    BothFindTheOrder(id, t, d, wrong);
    FirstKeyIsHandedOut(id, t, d, stale);
    FitsFree(Sold(id, t, d, stale), Settle(2, Minted), id, t);
    ReachNext(Sold(id, t, d, stale), Settle(2, Minted), id, t);
    SecondKeyFollows(Next(Sold(id, t, d, stale), Settle(2, Minted)), id, t);
    hide Reachable, Fits;
  }

  /**
   At most one reader of an order ever receives a key, in every run of its deliveries, exactly when the
   trade is safe: nobody pays, or all who come pay with one event and its mint never fails permanently.
   */
  lemma OneKeyPerOrderExactly(id: OrderId, t: Trade)
    requires forall d | d in t.deliveries :: Comes(t, id, d)
    ensures (forall s | Reachable(s, id, t) :: KeysHanded(s.store, id) <= 1) <==> Safe(t)
  {
    if Safe(t) {
      forall s | Reachable(s, id, t) ensures KeysHanded(s.store, id) <= 1 {
        var steps :| FitsAlong(EMPTY, steps, id, t) && Run(EMPTY, steps) == s;
        OneKeyPerOrderWithOnePayer(steps, id, t);
      }
    } else {
      var d :| d in t.deliveries && Pays(t, d);
      if t.mayFail {
        FailedTwinHandsOutAgain(id, t, d);
      } else if wrong :| wrong in t.deliveries && !Pays(t, wrong) {
        MismatchHandsOutAgain(id, t, d, wrong);
      } else {
        var d1, d2 :| d1 in t.deliveries && d2 in t.deliveries && d1.event != d2.event;
        SecondEventMintsAndHandsOutAgain(id, t, d1, d2);
      }
    }
  }

  // ---- When a minted order stays so ----------------------------------------

  /** Everyone who comes pays in full, with any events, and no mint of the order fails permanently. */
  predicate Steady(t: Trade) {
    !t.mayFail && forall d | d in t.deliveries :: Pays(t, d)
  }

  ghost predicate HasMint(s: Store, id: OrderId) {
    exists m | m in s.mints :: m.order == id
  }

  predicate EndsFailed(s: Store, id: OrderId) {
    id in s.orders && s.orders[id].status == Failed
  }

  ghost predicate SteadyStore(s: Store, id: OrderId, t: Trade) {
    && (HasMint(s, id) ==> exists d | d in t.deliveries :: Pays(t, d))
    && (Steady(t) ==> !EndsFailed(s, id))
    && (id in s.orders ==> s.orders[id].amount == t.amount && s.orders[id].currency == t.currency)
  }

  predicate SteadyProcess(p: Process, t: Trade)
    requires !p.Reading?
  {
    && p.d in t.deliveries && p.entity.amount == t.amount && p.entity.currency == t.currency
    && (Steady(t) ==> !p.Doomed? && p.entity.status != Failed)
  }

  ghost predicate SteadyOk(s: System, id: OrderId, t: Trade) {
    && SteadyStore(s.store, id, t)
    && forall pid | pid in s.running && s.running[pid].id == id && !s.running[pid].Reading? ::
         SteadyProcess(s.running[pid], t)
  }

  lemma NextSteadyStore(s: System, step: Step, id: OrderId, t: Trade)
    requires SteadyOk(s, id, t) && Fits(s, step, id, t)
    ensures SteadyStore(Next(s, step).store, id, t)
  {
    hide Names, Steady;
    if step.Settle? && step.pid in s.running && s.running[step.pid].Unprocessed? && s.running[step.pid].id == id {
      var p := s.running[step.pid];
      assert SteadyProcess(p, t);
      assert Pays(t, p.d) <==> !AmountMismatch(p.entity, p.d);
      if Steady(t) {
        SteadyPays(t, p.d);
      }
    }
    var after := Next(s, step).store;
    assert HasMint(after, id) && !HasMint(s.store, id) ==> after.mints[|after.mints| - 1].order == id;
  }

  lemma SteadyPays(t: Trade, d: Delivery)
    requires Steady(t) && d in t.deliveries
    ensures Pays(t, d) && !t.mayFail
  {
  }

  lemma NextSteadyProcess(s: System, step: Step, id: OrderId, t: Trade, pid: nat)
    requires SteadyOk(s, id, t) && Fits(s, step, id, t)
    requires pid in Next(s, step).running && Next(s, step).running[pid].id == id && !Next(s, step).running[pid].Reading?
    ensures SteadyProcess(Next(s, step).running[pid], t)
  {
    hide AmountMismatch, Saved, HasMint, Steady;
    if pid in s.running {
      assert SteadyProcess(s.running[pid], t);
      if Steady(t) {
        SteadyPays(t, s.running[pid].d);
      }
    }
  }

  lemma {:induction false} SteadyRuns(s: System, steps: seq<Step>, id: OrderId, t: Trade)
    requires SteadyOk(s, id, t) && FitsAlong(s, steps, id, t)
    ensures SteadyOk(Run(s, steps), id, t)
    decreases |steps|
  {
    hide Fits, SteadyProcess, SteadyStore;
    if steps != [] {
      var after := Next(s, steps[0]);
      NextSteadyStore(s, steps[0], id, t);
      forall pid | pid in after.running && after.running[pid].id == id && !after.running[pid].Reading?
        ensures SteadyProcess(after.running[pid], t)
      {
        NextSteadyProcess(s, steps[0], id, t, pid);
      }
      SteadyRuns(after, steps[1..], id, t);
    }
  }

  ghost predicate FailsAfterMint(id: OrderId, t: Trade) {
    exists s :: Reachable(s, id, t) && HasMint(s.store, id) && EndsFailed(s.store, id)
  }

  /** Its mint fails permanently for one delivery of the payment while another commits: the late save wins. */
  lemma FailedTwinFailsSoldOrder(id: OrderId, t: Trade, d: Delivery)
    requires Comes(t, id, d) && Pays(t, d) && t.mayFail
    ensures FailsAfterMint(id, t)
  {
    hide Reachable, Fits;
    var both := System(Store(map[id := Waiting(t)], {}, [], 0, []),
                       map[1 := Unprocessed(d, id, Waiting(t)), 2 := Unprocessed(d, id, Waiting(t))]);
    var stale := Doomed(d, id, Waiting(t));
    BothFindTheOrder(id, t, d, d);
    assert Fits(both, Settle(2, PermanentFailure), id, t) by {
      FailureFits(both, 2, id, t);
    }
    ReachNext(both, Settle(2, PermanentFailure), id, t);
    assert Next(both, Settle(2, PermanentFailure)).running == map[1 := Unprocessed(d, id, Waiting(t)), 2 := stale];
    FirstKeyIsHandedOut(id, t, d, stale);
    FitsFree(Sold(id, t, d, stale), MarkFailed(2), id, t);
    ReachNext(Sold(id, t, d, stale), MarkFailed(2), id, t);
    assert Sold(id, t, d, stale).store.mints[0].order == id;
  }

  /** A delivery of the wrong amount saves its failure over the sale. */
  lemma MismatchFailsSoldOrder(id: OrderId, t: Trade, d: Delivery, wrong: Delivery)
    requires Comes(t, id, d) && Pays(t, d) && Comes(t, id, wrong) && !Pays(t, wrong)
    ensures FailsAfterMint(id, t)
  {
    hide Reachable, Fits;
    var stale := Unprocessed(wrong, id, Waiting(t));
    BothFindTheOrder(id, t, d, wrong);
    FirstKeyIsHandedOut(id, t, d, stale);
    FitsFree(Sold(id, t, d, stale), Settle(2, Minted), id, t);
    ReachNext(Sold(id, t, d, stale), Settle(2, Minted), id, t);
    assert Sold(id, t, d, stale).store.mints[0].order == id;
  }

  /** With nothing in between, a later delivery still turns a sold order to failed, keeping its licence. */
  lemma LateDeliveryFailsSoldOrderExactly(s: Store, id: OrderId, d: Delivery, error: Option<MintError>)
    requires id in s.orders && s.orders[id].status == Fulfilled
    ensures var t := Fulfil(s, id, d, OutcomeOf(error)).0;
            && (EndsFailed(t, id) <==>
                d.event !in s.ledger && (AmountMismatch(s.orders[id], d) || (error.Some? && error.value.rejected)))
            && (EndsFailed(t, id) ==> t.mints == s.mints && t.orders[id].license == s.orders[id].license
                                      && t.orders[id].eventId == d.event)
  {
    hide LooksLikeConflict;
  }

  /**
   An order that has a licence is never turned back to failed, in any run of its deliveries, exactly when
   nobody pays at all, or everyone pays and no mint fails permanently; the number of events does not matter.
   */
  lemma MintedOrderStaysExactly(id: OrderId, t: Trade)
    requires forall d | d in t.deliveries :: Comes(t, id, d)
    ensures !FailsAfterMint(id, t) <==> (forall d | d in t.deliveries :: !Pays(t, d)) || Steady(t)
  {
    if (forall d | d in t.deliveries :: !Pays(t, d)) || Steady(t) {
      forall s | Reachable(s, id, t) ensures !(HasMint(s.store, id) && EndsFailed(s.store, id)) {
        var steps :| FitsAlong(EMPTY, steps, id, t) && Run(EMPTY, steps) == s;
        SteadyRuns(EMPTY, steps, id, t);
      }
    } else {
      var d :| d in t.deliveries && Pays(t, d);
      if t.mayFail {
        FailedTwinFailsSoldOrder(id, t, d);
      } else {
        var wrong :| wrong in t.deliveries && !Pays(t, wrong);
        MismatchFailsSoldOrder(id, t, d, wrong);
      }
    }
  }

  /**
   Run with nothing in between, the steps of a delivery are `Fulfil`, in which the guard against a
   second mint of one order has no part: it reads a relation that is never loaded, so it never fires.
   */
  lemma StepsAloneEqualFulfil(s: System, pid: nat, id: OrderId, d: Delivery, outcome: MintOutcome)
    requires pid !in s.running && Names(s.store, id, d)
    ensures !PerOrderGuard(Loaded(s.store.orders[id]))
    ensures var t := Next(Next(Next(Next(s, FindOrder(pid, id, d)), CheckLedger(pid)), Settle(pid, outcome)),
                          MarkFailed(pid));
            t == System(Fulfil(s.store, id, d, outcome).0, s.running)
  {
  }

  /**
   A fully paid delivery of a pending order is acknowledged, so never retried, although it minted
   nothing and left no mark on the order, exactly when the mint throws no rejection but an error whose
   message looks like a conflict, whatever really failed.
   */
  lemma PaidWithoutTraceExactly(s: Store, id: OrderId, d: Delivery, error: Option<MintError>)
    requires id in s.orders && s.orders[id].status == Pending
    requires d.event !in s.ledger && !AmountMismatch(s.orders[id], d)
    ensures var (t, reply) := Fulfil(s, id, d, OutcomeOf(error));
            reply == Acknowledged && d.event !in t.ledger && t.orders[id].status == Pending
            <==> error.Some? && !error.value.rejected
                 && exists word | word in CONFLICT_WORDS :: Contains(Lower(error.value.message), word)
  {
    hide LooksLikeConflict, Contains;
    if error.Some? {
      ConflictsExactly(error.value.message);
    }
  }

  lemma ConflictsExactly(message: string)
    ensures LooksLikeConflict(message) <==> exists word | word in CONFLICT_WORDS :: Contains(Lower(message), word)
  {
    hide Mentions, Contains;
    forall word | word in CONFLICT_WORDS ensures Mentions(message, word) <==> Contains(Lower(message), word) {
      MentionsExactly(message, word);
    }
    assert CONFLICT_WORDS[0] == "duplicate" && CONFLICT_WORDS[1] == "unique" && CONFLICT_WORDS[2] == "er_dup_entry"
           && CONFLICT_WORDS[3] == "constraint";
  }

  lemma {:induction false} MentionsInside(before: string, word: string, rest: string)
    requires Lower(word) == word
    ensures Mentions(before + word + rest, word)
    decreases |before|
  {
    var all := before + word + rest;
    if before == "" {
      assert Lower(all)[..|word|] == Lower(word);
    } else {
      MentionsInside(before[1..], word, rest);
      assert all[1..] == before[1..] + word + rest;
    }
  }

  /** Any error whose message speaks of a constraint reads as a conflict. */
  lemma ConstraintReadsAsConflict(before: string, rest: string)
    ensures OutcomeOf(Some(MintError(false, before + "constraint" + rest))) == ConstraintFailure
  {
    hide Mentions;
    assert Lower("constraint") == "constraint";
    MentionsInside(before, "constraint", rest);
  }

  /** A foreign key that fails passes for a delivery that lost the race: the payment leaves no trace. */
  lemma ForeignKeyFailureLeavesNoTrace(s: Store, id: OrderId, d: Delivery)
    requires id in s.orders && d.event !in s.ledger && !AmountMismatch(s.orders[id], d)
    ensures Fulfil(s, id, d, OutcomeOf(Some(MintError(false, "FOREIGN KEY constraint failed")))) == (s, Acknowledged)
  {
    hide OutcomeOf, Saved;
    var before, rest := "FOREIGN KEY ", " failed";
    ConstraintReadsAsConflict(before, rest);
    assert before + "constraint" + rest == "FOREIGN KEY constraint failed";
  }

  // ---- The service ---------------------------------------------------------

  datatype Retrieval = UnknownSession | NotReady(status: Status) | Key(lic: LicId) | AlreadyDelivered

  /** The single reader who finds a fulfilled, undelivered order gets its key; later ones are told so. */
  predicate Retrieved(o: Order, session: string, answer: Retrieval) {
    && o.session == session
    && (answer == if o.status != Fulfilled || o.license.None? then NotReady(o.status)
                  else if o.delivered then AlreadyDelivered
                  else Key(o.license.value))
  }

  /** The tables the order service writes; a call runs with no other call in between. */
  class OrderService {
    var orders: map<OrderId, Order>
    var ledger: set<string>
    var mints: seq<Mint>
    var nextLic: LicId
    var keys: seq<Handed>

    ghost function Contents(): Store
      reads this
    {
      Store(orders, ledger, mints, nextLic, keys)
    }

    constructor ()
      ensures Contents() == EMPTY.store
    {
      orders, ledger, mints, nextLic, keys := map[], {}, [], 0, [];
    }

    /** `orders.save(entity)`. */
    method Save(id: OrderId, entity: Order)
      modifies this`orders
      ensures Contents() == SaveOrder(old(Contents()), id, entity)
    {
      if id in orders {
        orders := orders[id := Saved(orders[id], entity)];
      }
    }

    /** `fulfillFromEvent`; with no order for the delivery nothing is recorded and Stripe is asked to retry. */
    method FulfillFromEvent(d: Delivery, error: Option<MintError>) returns (reply: Reply, found: Option<OrderId>)
      modifies this
      ensures found.None? ==>
                reply == AskRetry && Contents() == old(Contents()) && forall id :: !Names(old(Contents()), id, d)
      ensures found.Some? ==> Names(old(Contents()), found.value, d)
      ensures found.Some? ==> (Contents(), reply) == Fulfil(old(Contents()), found.value, d, OutcomeOf(error))
    {
      found := FindOrder(d);
      if found.None? {
        return AskRetry, found;
      }
      var id := found.value;
      var entity := Loaded(orders[id]);
      if PerOrderGuard(entity) || d.event in ledger {
        return Acknowledged, found;
      }
      if AmountMismatch(entity, d) {
        Save(id, MarkedFailed(entity, d));
        return Acknowledged, found;
      }
      match OutcomeOf(error) {
        case Minted =>
          ledger := ledger + {d.event};
          mints := mints + [Mint(d.event, id, nextLic, d.paid.value)];
          Save(id, entity.(status := Fulfilled, eventId := d.event, license := Some(nextLic)));
          nextLic := nextLic + 1;
          return Acknowledged, found;
        case PermanentFailure =>
          Save(id, MarkedFailed(entity, d));
          return Acknowledged, found;
        case ConstraintFailure =>
          return Acknowledged, found;
        case TransientFailure =>
          return Thrown, found;
      }
    }

    /** The order by its id when the delivery carries one, else by its checkout session. */
    method FindOrder(d: Delivery) returns (found: Option<OrderId>)
      ensures found.Some? ==> Names(Contents(), found.value, d)
      ensures found.None? ==> forall id :: !Names(Contents(), id, d)
    {
      if d.orderId.Some? {
        return if d.orderId.value in orders then d.orderId else None;
      }
      found := FindBySession(d.session);
    }

    method FindBySession(session: string) returns (found: Option<OrderId>)
      ensures found.Some? ==> found.value in orders && orders[found.value].session == session
      ensures found.None? ==> forall id | id in orders :: orders[id].session != session
    {
      var rest := orders.Keys;
      while rest != {}
        invariant rest <= orders.Keys
        invariant forall id | id in orders && id !in rest :: orders[id].session != session
        decreases |rest|
      {
        var id :| id in rest;
        if orders[id].session == session {
          return Some(id);
        }
        rest := rest - {id};
      }
      return None;
    }

    /** `retrieveLicenseOnce`: the conditional update decides who gets the key. */
    method RetrieveLicenseOnce(session: string) returns (answer: Retrieval, found: Option<OrderId>)
      modifies this
      ensures found.None? ==> answer == UnknownSession
      ensures found.Some? ==> found.value in old(orders) && Retrieved(old(orders)[found.value], session, answer)
      ensures Contents() == if found.Some? && answer.Key? then KeyClaimed(old(Contents()), found.value, answer.lic)
                            else old(Contents())
    {
      found := FindBySession(session);
      if found.None? {
        return UnknownSession, found;
      }
      var id := found.value;
      var order := orders[id];
      if order.status != Fulfilled || order.license.None? {
        return NotReady(order.status), found;
      }
      if order.delivered {
        return AlreadyDelivered, found;
      }
      orders := orders[id := order.(delivered := true, handed := order.handed + 1)];
      keys := keys + [Handed(id, order.license.value)];
      return Key(order.license.value), found;
    }
  }
}
