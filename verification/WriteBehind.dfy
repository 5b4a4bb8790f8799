// The bags of all players against the one table that is written behind them: requests, trades and the arranging
// of bags interleave with the writing in any order.
module WriteBehind {
  import opened GoodsBag
  import opened BagEdits
  import opened BagOperations
  import opened BagCounts
  import opened BagRuns
  import opened Postgres
  import opened Trade
  import opened TradeCommit
  import opened TradeSafety
  import opened EquipmentArrangement
  import opened BagArrangement
  import opened ArrangeBehind

  datatype Player = Player(bag: Bag, purse: nat)

  /** All players by role, the rows as they are, and the changes that wait to be written. */
  datatype Server = Server(players: map<nat, Player>, rows: Rows, queue: seq<Record>)

  /** The rows of a role once everything queued has been written. */
  function RowsToCome(s: Server, role: nat): Table {
    RoleRows(Replay(s.rows, s.queue), role)
  }

  /** The bag is related to the rows, and no stack exceeds the cap. */
  ghost predicate Sound(R: TradeRelation, p: Player, t: Table) {
    R(p.bag, t) && Capped(p.bag)
  }

  /** So is every bag to the rows to come. */
  ghost predicate AllRelated(R: TradeRelation, s: Server) {
    forall role :: role in s.players ==> Sound(R, s.players[role], RowsToCome(s, role))
  }

  /** Every bag is what its rows are to be. */
  ghost predicate AllInStep(s: Server) {
    AllRelated(Agreement(), s)
  }

  /** Whoever is not among these has the same bag and the same rows to come. */
  ghost predicate OthersSame(s: Server, s': Server, changed: set<nat>) {
    && s'.players.Keys == s.players.Keys
    && forall role :: role in s.players && role !in changed ==>
         s'.players[role] == s.players[role] && RowsToCome(s', role) == RowsToCome(s, role)
  }

  lemma OthersStayRelated(R: TradeRelation, s: Server, s': Server, changed: set<nat>)
    requires AllRelated(R, s) && OthersSame(s, s', changed)
    requires forall role :: role in changed && role in s'.players ==> Sound(R, s'.players[role], RowsToCome(s', role))
    ensures AllRelated(R, s')
  {
  }

  lemma OneDecides(R: TradeRelation, s: Server, s': Server, role: nat)
    requires AllRelated(R, s) && role in s.players && OthersSame(s, s', {role})
    ensures AllRelated(R, s') <==> Sound(R, s'.players[role], RowsToCome(s', role))
  {
    if Sound(R, s'.players[role], RowsToCome(s', role)) {
      OthersStayRelated(R, s, s', {role});
    }
  }

  // ----- The queue -----

  lemma {:induction false} RoleLogConcat(first: seq<Record>, more: seq<Record>, role: nat)
    ensures RoleLog(first + more, role) == RoleLog(first, role) + RoleLog(more, role)
    decreases |first|
  {
    if first == [] {
      assert first + more == more;
    } else {
      assert (first + more)[1..] == first[1..] + more;
      RoleLogConcat(first[1..], more, role);
    }
  }

  function Queue(s: Server, records: seq<Record>): Server {
    s.(queue := s.queue + records)
  }

  /** To the rows to come of a role, queueing changes applies its own among them, in their order. */
  lemma QueueApplies(s: Server, records: seq<Record>, role: nat)
    ensures RowsToCome(Queue(s, records), role) == ApplyAll(RowsToCome(s, role), RoleLog(records, role))
  {
    ReplayConcat(s.rows, s.queue, records);
    ReplayOfRole(Replay(s.rows, s.queue), records, role);
  }

  lemma QueueOwn(s: Server, role: nat, changes: seq<Change>, other: nat)
    ensures RowsToCome(Queue(s, Records(role, changes)), other)
         == if role == other then ApplyAll(RowsToCome(s, role), changes) else RowsToCome(s, other)
  {
    ReplayConcat(s.rows, s.queue, Records(role, changes));
    QueuedChanges(Replay(s.rows, s.queue), role, changes, other);
  }

  /** UpdatePostgresData: one round of its loop. */
  function WriteOne(s: Server): Server {
    if s.queue == [] then s else Server(s.players, Write(s.rows, s.queue[0]), s.queue[1..])
  }

  // ----- Requests of one player -----

  /** The counter of equipment numbers is common to all players. */
  function SeeCounter(p: Player, last: nat): Player {
    p.(bag := p.bag.(lastEquId := if last > p.bag.lastEquId then last else p.bag.lastEquId))
  }

  /** A request that can be served without spoiling the bag of its player. */
  ghost predicate CanServe(s: Server, role: nat, op: Operation) {
    && role in s.players && |s.players[role].bag.slots| == SLOT_COUNT && Capped(s.players[role].bag)
    && Legal(op) && !Spoils(s.players[role].bag, op)
  }

  ghost function ServeOwn(s: Server, role: nat, op: Operation): Server
    requires CanServe(s, role, op)
  {
    var r := Perform(s.players[role].bag, s.players[role].purse, op);
    var players := map other | other in s.players ::
                     if other == role then Player(r.bag, r.purse) else SeeCounter(s.players[other], r.bag.lastEquId);
    Queue(s.(players := players), Records(role, r.changes))
  }

  lemma CounterMayGrow(p: Player, t: Table, last: nat)
    requires Sound(Agreement(), p, t)
    ensures Sound(Agreement(), SeeCounter(p, last), t)
  {
  }

  lemma PerformingStaysSound(p: Player, t: Table, op: Operation)
    requires Sound(Agreement(), p, t) && Legal(op) && !Spoils(p.bag, op)
    ensures var r := Perform(p.bag, p.purse, op);
            Sound(Agreement(), Player(r.bag, r.purse), ApplyAll(t, r.changes))
  {
    StepAgreesExactlyWhen(p.bag, t, p.purse, op);
    StepKeepsCap(p.bag, t, p.purse, op);
  }

  /** Serving one player keeps every player in step. */
  lemma OwnKeepsAllInStep(s: Server, role: nat, op: Operation)
    requires AllInStep(s) && CanServe(s, role, op)
    ensures AllInStep(ServeOwn(s, role, op))
  {
    var s' := ServeOwn(s, role, op);
    var r := Perform(s.players[role].bag, s.players[role].purse, op);
    PerformingStaysSound(s.players[role], RowsToCome(s, role), op);
    forall other | other in s'.players
      ensures Sound(Agreement(), s'.players[other], RowsToCome(s', other))
    {
      QueueOwn(s, role, r.changes, other);
      if other != role {
        CounterMayGrow(s.players[other], RowsToCome(s, other), r.bag.lastEquId);
      }
    }
  }

  // ----- Locks -----

  /** A trade locks and unlocks slots in use. */
  function Relabel(s: Server, role: nat, slots: seq<Slot>): Server
    requires role in s.players
  {
    s.(players := s.players[role := s.players[role].(bag := s.players[role].bag.(slots := slots))])
  }

  lemma RelabelKeepsAllRelated(R: TradeRelation, s: Server, role: nat, slots: seq<Slot>)
    requires Fitting(R) && AllRelated(R, s) && role in s.players && SameUse(s.players[role].bag.slots, slots)
    ensures AllRelated(R, Relabel(s, role, slots))
  {
    assert Sound(R, s.players[role], RowsToCome(s, role));
    OthersStayRelated(R, s, Relabel(s, role, slots), {role});
  }

  // ----- Swaps -----

  /** Both sides hold what they offer, and have room for what they get. */
  ghost predicate CanSwap(a: Bag, b: Bag, fromA: seq<Stack>, fromB: seq<Stack>) {
    && OffersHeld(a, fromA) && OffersHeld(b, fromB)
    && |fromA| + EmptyCount(a.slots) >= |fromB| && |fromB| + EmptyCount(b.slots) >= |fromA|
  }

  /** What operDoChange journals, for both roles: out of the one bag, out of the other, into the other, into the one. */
  function SwapRecords(a: nat, b: nat, bagA: Bag, bagB: Bag, fromA: seq<Stack>, fromB: seq<Stack>): seq<Record>
    requires |bagA.slots| == |bagB.slots| == SLOT_COUNT
    requires (forall o :: o in fromA ==> o.pos < SLOT_COUNT) && forall o :: o in fromB ==> o.pos < SLOT_COUNT
  {
    var outA, outB := DropOffers(bagA, fromA), DropOffers(bagB, fromB);
    Records(a, outA.changes) + Records(b, outB.changes)
    + (Records(b, TakeOffers(outB.bag, fromA).changes) + Records(a, TakeOffers(outA.bag, fromB).changes))
  }

  lemma FourPortions(w: seq<Record>, x: seq<Record>, y: seq<Record>, z: seq<Record>, role: nat)
    ensures RoleLog(w + x + (y + z), role)
         == RoleLog(w, role) + RoleLog(x, role) + (RoleLog(y, role) + RoleLog(z, role))
  {
    RoleLogConcat(w + x, y + z, role);
    RoleLogConcat(w, x, role);
    RoleLogConcat(y, z, role);
  }

  lemma WithoutTheEmpty<T>(first: seq<T>, last: seq<T>)
    ensures first + [] + ([] + last) == first + last == [] + first + (last + [])
  {
  }

  /** Each role's part of what a swap journals is that of its own side. */
  lemma SwapRecordsOfRole(a: nat, b: nat, bagA: Bag, bagB: Bag, fromA: seq<Stack>, fromB: seq<Stack>, role: nat)
    requires |bagA.slots| == |bagB.slots| == SLOT_COUNT && a != b
    requires (forall o :: o in fromA ==> o.pos < SLOT_COUNT) && forall o :: o in fromB ==> o.pos < SLOT_COUNT
    ensures RoleLog(SwapRecords(a, b, bagA, bagB, fromA, fromB), role)
         == if role == a then SwapGoods(bagA, fromA, fromB).changes
            else if role == b then SwapGoods(bagB, fromB, fromA).changes else []
  {
    var outA, outB := DropOffers(bagA, fromA), DropOffers(bagB, fromB);
    var inA, inB := TakeOffers(outA.bag, fromB), TakeOffers(outB.bag, fromA);
    FourPortions(Records(a, outA.changes), Records(b, outB.changes), Records(b, inB.changes),
                 Records(a, inA.changes), role);
    RecordsOfRole(a, outA.changes, role);
    RecordsOfRole(b, outB.changes, role);
    RecordsOfRole(b, inB.changes, role);
    RecordsOfRole(a, inA.changes, role);
    WithoutTheEmpty(outA.changes, inA.changes);
    WithoutTheEmpty(outB.changes, inB.changes);
  }

  function Swap(s: Server, a: nat, b: nat, fromA: seq<Stack>, fromB: seq<Stack>, purseA: nat, purseB: nat): Server
    requires a in s.players && b in s.players
    requires |s.players[a].bag.slots| == |s.players[b].bag.slots| == SLOT_COUNT
    requires (forall o :: o in fromA ==> o.pos < SLOT_COUNT) && forall o :: o in fromB ==> o.pos < SLOT_COUNT
  {
    var bagA, bagB := s.players[a].bag, s.players[b].bag;
    Queue(s.(players := s.players[a := Player(SwapGoods(bagA, fromA, fromB).bag, purseA)]
                                 [b := Player(SwapGoods(bagB, fromB, fromA).bag, purseB)]),
          SwapRecords(a, b, bagA, bagB, fromA, fromB))
  }

  /** One side of a swap. */
  lemma SwappingStaysSound(R: TradeRelation, p: Player, t: Table, q: Player, u: Table,
                           own: seq<Stack>, others: seq<Stack>, purse: nat)
    requires Fitting(R) && Sound(R, p, t) && Sound(R, q, u) && OffersHeld(p.bag, own) && OffersHeld(q.bag, others)
    requires |own| + EmptyCount(p.bag.slots) >= |others|
    ensures var r := SwapGoods(p.bag, own, others);
            Sound(R, Player(r.bag, purse), ApplyAll(t, r.changes))
  {
    SwapGoodsKeeps(R, p.bag, t, own, others);
    HeldAreCapped(q.bag, others);
    SwapKeepsCap(p.bag, own, others);
  }

  lemma SwappedRows(s: Server, a: nat, b: nat, fromA: seq<Stack>, fromB: seq<Stack>, purseA: nat, purseB: nat,
                    role: nat)
    requires a in s.players && b in s.players && a != b
    requires CanSwap(s.players[a].bag, s.players[b].bag, fromA, fromB)
    ensures var rows := RowsToCome(Swap(s, a, b, fromA, fromB, purseA, purseB), role);
            if role == a then rows == ApplyAll(RowsToCome(s, a), SwapGoods(s.players[a].bag, fromA, fromB).changes)
            else if role == b then rows == ApplyAll(RowsToCome(s, b), SwapGoods(s.players[b].bag, fromB, fromA).changes)
            else rows == RowsToCome(s, role)
  {
    QueueApplies(s, SwapRecords(a, b, s.players[a].bag, s.players[b].bag, fromA, fromB), role);
    SwapRecordsOfRole(a, b, s.players[a].bag, s.players[b].bag, fromA, fromB, role);
  }

  lemma SwapLeavesOthers(s: Server, a: nat, b: nat, fromA: seq<Stack>, fromB: seq<Stack>, purseA: nat, purseB: nat)
    requires a in s.players && b in s.players && a != b
    requires CanSwap(s.players[a].bag, s.players[b].bag, fromA, fromB)
    ensures OthersSame(s, Swap(s, a, b, fromA, fromB, purseA, purseB), {a, b})
  {
    var s' := Swap(s, a, b, fromA, fromB, purseA, purseB);
    forall role | role in s.players && role !in {a, b}
      ensures s'.players[role] == s.players[role] && RowsToCome(s', role) == RowsToCome(s, role)
    {
      SwappedRows(s, a, b, fromA, fromB, purseA, purseB, role);
    }
  }

  lemma TwoStayRelated(R: TradeRelation, s: Server, s': Server, a: nat, b: nat)
    requires AllRelated(R, s) && OthersSame(s, s', {a, b}) && a in s.players && b in s.players
    requires Sound(R, s'.players[a], RowsToCome(s', a)) && Sound(R, s'.players[b], RowsToCome(s', b))
    ensures AllRelated(R, s')
  {
    OthersStayRelated(R, s, s', {a, b});
  }

  lemma SwapSidesAreSound(R: TradeRelation, s: Server, a: nat, b: nat, fromA: seq<Stack>, fromB: seq<Stack>,
                          purseA: nat, purseB: nat)
    requires Fitting(R) && AllRelated(R, s) && a in s.players && b in s.players && a != b
    requires CanSwap(s.players[a].bag, s.players[b].bag, fromA, fromB)
    ensures var s' := Swap(s, a, b, fromA, fromB, purseA, purseB);
            Sound(R, s'.players[a], RowsToCome(s', a)) && Sound(R, s'.players[b], RowsToCome(s', b))
  {
    var p, q := s.players[a], s.players[b];
    SwappingStaysSound(R, p, RowsToCome(s, a), q, RowsToCome(s, b), fromA, fromB, purseA);
    SwappingStaysSound(R, q, RowsToCome(s, b), p, RowsToCome(s, a), fromB, fromA, purseB);
    SwappedRows(s, a, b, fromA, fromB, purseA, purseB, a);
    SwappedRows(s, a, b, fromA, fromB, purseA, purseB, b);
  }

  /** A swap keeps both sides related to their rows to come, and all others. */
  lemma SwapKeepsAllRelated(R: TradeRelation, s: Server, a: nat, b: nat, fromA: seq<Stack>, fromB: seq<Stack>,
                            purseA: nat, purseB: nat)
    requires Fitting(R) && AllRelated(R, s) && a in s.players && b in s.players && a != b
    requires CanSwap(s.players[a].bag, s.players[b].bag, fromA, fromB)
    ensures AllRelated(R, Swap(s, a, b, fromA, fromB, purseA, purseB))
  {
    SwapSidesAreSound(R, s, a, b, fromA, fromB, purseA, purseB);
    SwapLeavesOthers(s, a, b, fromA, fromB, purseA, purseB);
    TwoStayRelated(R, s, Swap(s, a, b, fromA, fromB, purseA, purseB), a, b);
  }

  // ----- Arranging -----

  /** All rows but those of the role. */
  function WithoutRole(rows: Rows, role: nat): Rows {
    map key | key in rows && key.0 != role :: rows[key]
  }

  lemma RowsWithoutRole(rows: Rows, role: nat, other: nat)
    ensures RoleRows(WithoutRole(rows, role), other) == if other == role then map[] else RoleRows(rows, other)
  {
    var t, u := RoleRows(WithoutRole(rows, role), other), RoleRows(rows, other);
    forall p: nat
      ensures p in t <==> other != role && p in u
      ensures p in t ==> t[p] == u[p]
    {
      RowAt(WithoutRole(rows, role), other, p);
      RowAt(rows, other, p);
    }
  }

  /** ArrangeBagGoods: the rows of the role go at once, the new ones behind what waits in the queue. */
  function ArrangeIn(s: Server, role: nat, o: Orders): Server
    requires role in s.players
    requires forall e :: e in o.equ ==> e in s.players[role].bag.equ
    requires forall k :: k in o.goods ==> k in s.players[role].bag.goods
  {
    var r := ArrangedBag(s.players[role].bag, o);
    Queue(Server(s.players[role := s.players[role].(bag := r.bag)], WithoutRole(s.rows, role), s.queue),
          Records(role, r.changes))
  }

  lemma ArrangedRows(s: Server, role: nat, o: Orders, other: nat)
    requires role in s.players && Meets(o, s.players[role].bag)
    ensures RowsToCome(ArrangeIn(s, role, o), other)
         == if other == role then
              RowsAfterArranging(RoleLog(s.queue, role), ArrangedBag(s.players[role].bag, o).changes)
            else RowsToCome(s, other)
  {
    var r := ArrangedBag(s.players[role].bag, o);
    var rows := WithoutRole(s.rows, role);
    RowsWithoutRole(s.rows, role, other);
    ReplayOfRole(s.rows, s.queue, other);
    ReplayOfRole(rows, s.queue + Records(role, r.changes), other);
    RoleLogConcat(s.queue, Records(role, r.changes), other);
    RecordsOfRole(role, r.changes, other);
    assert RoleLog(s.queue, other) + [] == RoleLog(s.queue, other);
  }

  /** With this order and these changes waiting, arranging keeps the relation exactly when it goes well. */
  ghost predicate ArrangesFaithfully(R: TradeRelation, b: Bag, o: Orders, waiting: seq<Change>)
    requires Meets(o, b)
  {
    R(ArrangedBag(b, o).bag, RowsAfterArranging(waiting, ArrangedBag(b, o).changes)) <==> GoesWell(b, o, waiting)
  }

  lemma ArrangingLeavesOthers(s: Server, role: nat, o: Orders)
    requires role in s.players && Meets(o, s.players[role].bag)
    ensures OthersSame(s, ArrangeIn(s, role, o), {role})
  {
    var s' := ArrangeIn(s, role, o);
    forall other | other in s.players && other !in {role}
      ensures s'.players[other] == s.players[other] && RowsToCome(s', other) == RowsToCome(s, other)
    {
      ArrangedRows(s, role, o, other);
    }
  }

  lemma ArrangedIsSoundExactlyWhen(R: TradeRelation, s: Server, role: nat, o: Orders)
    requires AllRelated(R, s) && role in s.players && Meets(o, s.players[role].bag)
    requires ArrangesFaithfully(R, s.players[role].bag, o, RoleLog(s.queue, role))
    ensures var s' := ArrangeIn(s, role, o);
            Sound(R, s'.players[role], RowsToCome(s', role))
            <==> GoesWell(s.players[role].bag, o, RoleLog(s.queue, role))
  {
    assert Sound(R, s.players[role], RowsToCome(s, role));
    ArrangedBagKeepsCap(s.players[role].bag, o);
    ArrangedRows(s, role, o, role);
  }

  /** Arranging keeps everybody related exactly when it goes well for the one who arranges. */
  lemma ArrangingKeepsAllRelatedExactlyWhen(R: TradeRelation, s: Server, role: nat, o: Orders)
    requires AllRelated(R, s) && role in s.players && Meets(o, s.players[role].bag)
    requires ArrangesFaithfully(R, s.players[role].bag, o, RoleLog(s.queue, role))
    ensures AllRelated(R, ArrangeIn(s, role, o)) <==> GoesWell(s.players[role].bag, o, RoleLog(s.queue, role))
  {
    ArrangedIsSoundExactlyWhen(R, s, role, o);
    ArrangingLeavesOthers(s, role, o);
    OneDecides(R, s, ArrangeIn(s, role, o), role);
  }

  lemma InStepArrangesFaithfully(s: Server, role: nat, o: Orders)
    requires AllInStep(s) && role in s.players && Meets(o, s.players[role].bag)
    ensures ArrangesFaithfully(Agreement(), s.players[role].bag, o, RoleLog(s.queue, role))
  {
    assert Sound(Agreement(), s.players[role], RowsToCome(s, role));
    ArrangingInStepExactlyWhen(s.players[role].bag, RowsToCome(s, role), o, RoleLog(s.queue, role));
  }

  /** So it keeps everybody in step exactly when it goes well, whatever the others have waiting. */
  lemma ArrangingKeepsAllInStepExactlyWhen(s: Server, role: nat, o: Orders)
    requires AllInStep(s) && role in s.players && Meets(o, s.players[role].bag)
    ensures AllInStep(ArrangeIn(s, role, o)) <==> GoesWell(s.players[role].bag, o, RoleLog(s.queue, role))
  {
    InStepArrangesFaithfully(s, role, o);
    ArrangingKeepsAllRelatedExactlyWhen(Agreement(), s, role, o);
  }

  // ----- Runs -----

  datatype Event =
    | Asks(role: nat, op: Operation)
    | Labels(role: nat, slots: seq<Slot>)
    | Swaps(a: nat, b: nat, fromA: seq<Stack>, fromB: seq<Stack>, purseA: nat, purseB: nat)
    | Arranges(role: nat, orders: Orders)
    | Writes

  /** None of the requests that spoil a bag, sound swaps, and arranging only when it goes well. */
  ghost predicate Possible(s: Server, e: Event) {
    match e
    case Asks(role, op) => CanServe(s, role, op)
    case Labels(role, slots) => role in s.players && SameUse(s.players[role].bag.slots, slots)
    case Swaps(a, b, fromA, fromB, _, _) =>
      a in s.players && b in s.players && a != b && CanSwap(s.players[a].bag, s.players[b].bag, fromA, fromB)
    case Arranges(role, o) =>
      role in s.players && Meets(o, s.players[role].bag) && GoesWell(s.players[role].bag, o, RoleLog(s.queue, role))
    case Writes => true
  }

  ghost function Next(s: Server, e: Event): Server
    requires Possible(s, e)
  {
    match e
    case Asks(role, op) => ServeOwn(s, role, op)
    case Labels(role, slots) => Relabel(s, role, slots)
    case Swaps(a, b, fromA, fromB, purseA, purseB) => Swap(s, a, b, fromA, fromB, purseA, purseB)
    case Arranges(role, o) => ArrangeIn(s, role, o)
    case Writes => WriteOne(s)
  }

  /** Every event keeps every player in step with the rows to come. */
  lemma NextKeepsAllInStep(s: Server, e: Event)
    requires AllInStep(s) && Possible(s, e)
    ensures AllInStep(Next(s, e))
  {
    match e
    case Asks(role, op) => OwnKeepsAllInStep(s, role, op);
    case Labels(role, slots) =>
      AgreementIsFitting();
      RelabelKeepsAllRelated(Agreement(), s, role, slots);
    case Swaps(a, b, fromA, fromB, purseA, purseB) =>
      AgreementIsFitting();
      SwapKeepsAllRelated(Agreement(), s, a, b, fromA, fromB, purseA, purseB);
    case Arranges(role, o) =>
      ArrangingKeepsAllInStepExactlyWhen(s, role, o);
    case Writes =>
  }

  ghost predicate Runs(s: Server, run: seq<Event>, end: Server)
    decreases |run|
  {
    if run == [] then end == s else Possible(s, run[0]) && Runs(Next(s, run[0]), run[1..], end)
  }

  /** However requests, trades, arranging and writing interleave, every bag is what its rows are to be; and what
      they are, once nothing waits. */
  lemma {:induction false} AnyInterleavingStaysInStep(s: Server, run: seq<Event>, end: Server)
    requires AllInStep(s) && Runs(s, run, end)
    ensures AllInStep(end)
    ensures end.queue == [] ==>
              forall role :: role in end.players ==> Agrees(end.players[role].bag, RoleRows(end.rows, role))
    decreases |run|
  {
    if run != [] {
      NextKeepsAllInStep(s, run[0]);
      AnyInterleavingStaysInStep(Next(s, run[0]), run[1..], end);
    } else if end.queue == [] {
      forall role | role in end.players
        ensures Agrees(end.players[role].bag, RoleRows(end.rows, role))
      {
        assert Sound(Agreement(), end.players[role], RowsToCome(end, role));
      }
    }
  }
}
