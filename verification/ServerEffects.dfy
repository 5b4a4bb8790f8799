// What the events of the server bring about: whose goods change by how much, and that the table gets written.
module ServerEffects {
  import opened GoodsBag
  import opened BagEdits
  import opened BagOperations
  import opened BagCounts
  import opened Trade
  import opened BagRuns
  import opened BagEffects
  import opened Postgres
  import opened TradeCommit
  import opened TradeSafety
  import opened EquipmentArrangement
  import opened BagArrangement
  import opened WriteBehind

  // ----- The table gets written -----

  function Writings(n: nat): seq<Event> {
    seq(n, _ => Writes)
  }

  /** Once as many rounds have gone by as changes wait, the table is what it was to be and nothing waits. */
  lemma {:induction false} WritingDrains(s: Server)
    ensures Runs(s, Writings(|s.queue|), Server(s.players, Replay(s.rows, s.queue), []))
    decreases |s.queue|
  {
    if s.queue != [] {
      WritingDrains(WriteOne(s));
      assert Writings(|s.queue|)[1..] == Writings(|s.queue| - 1);
    }
  }

  /** So from any state in step, with nothing else going on, every bag is what its rows are. */
  lemma TableCatchesUp(s: Server) returns (end: Server)
    requires AllInStep(s)
    ensures Runs(s, Writings(|s.queue|), end) && end.players == s.players && end.queue == []
    ensures forall role :: role in s.players ==> Agrees(s.players[role].bag, RoleRows(end.rows, role))
  {
    end := Server(s.players, Replay(s.rows, s.queue), []);
    WritingDrains(s);
    AnyInterleavingStaysInStep(s, Writings(|s.queue|), end);
  }

  // ----- Whose goods change -----

  function GivenOf(offers: seq<Stack>, h: nat): nat {
    if IsEquipmentType(h) then 0 else Total(OffersOf(offers, h))
  }

  /** By how much an event changes what a role has of h: its own requests by what they gain, a swap by what the
      other side offers less its own offer; locks, arranging and writing not at all. */
  ghost function EventGain(s: Server, e: Event, role: nat, h: nat): int
    requires Possible(s, e) && role in s.players
  {
    match e
    case Asks(who, op) => if who == role then Gain(s.players[role].bag, s.players[role].purse, op, h) else 0
    case Swaps(a, b, fromA, fromB, _, _) =>
      if role == a then GivenOf(fromB, h) - GivenOf(fromA, h)
      else if role == b then GivenOf(fromA, h) - GivenOf(fromB, h) else 0
    case _ => 0
  }

  lemma SwapSideGains(b: Bag, own: seq<Stack>, others: seq<Stack>, h: nat)
    requires OffersHeld(b, own)
    ensures CountOf(SwapGoods(b, own, others).bag, h) == CountOf(b, h) - GivenOf(own, h) + GivenOf(others, h)
  {
    SwapMovesTheOffers(b, own, others, h, 0);
    SwapLeavesEquipment(b, own, others);
  }

  lemma {:induction false} DroppingLeavesEquipment(b: Bag, offers: seq<Stack>)
    requires forall o :: o in offers ==> o.pos < |b.slots|
    ensures DropOffers(b, offers).bag.equ == b.equ
    decreases |offers|
  {
    if offers != [] {
      DroppingLeavesEquipment(DropOffer(b, offers[0]).bag, offers[1..]);
    }
  }

  lemma {:induction false} TakingLeavesEquipment(b: Bag, offers: seq<Stack>)
    requires |b.slots| == SLOT_COUNT
    ensures TakeOffers(b, offers).bag.equ == b.equ
    decreases |offers|
  {
    if offers != [] {
      TakingLeavesEquipment(TakeOffer(b, offers[0]).bag, offers[1..]);
    }
  }

  lemma SwapLeavesEquipment(b: Bag, own: seq<Stack>, others: seq<Stack>)
    requires |b.slots| == SLOT_COUNT && forall o :: o in own ==> o.pos < SLOT_COUNT
    ensures SwapGoods(b, own, others).bag.equ == b.equ
  {
    DroppingLeavesEquipment(b, own);
    TakingLeavesEquipment(DropOffers(b, own).bag, others);
  }

  lemma MovedCount(equ: map<nat, Stack>, done: map<nat, Stack>, h: nat)
    requires done.Keys == equ.Keys && OnlyMoved(equ, done)
    ensures EquipmentsOf(done, h) == EquipmentsOf(equ, h)
  {
  }

  lemma ArrangingCounts(b: Bag, t: Table, o: Orders, h: nat)
    requires Agrees(b, t) && Capped(b) && Meets(o, b)
    ensures CountOf(ArrangedBag(b, o).bag, h) == CountOf(b, h)
  {
    ArrangedBagConserves(b, t, o, h);
    MovedCount(b.equ, ArrangedBag(b, o).bag.equ, h);
  }

  lemma InStep(s: Server, role: nat)
    requires AllInStep(s) && role in s.players
    ensures Agrees(s.players[role].bag, RowsToCome(s, role)) && Capped(s.players[role].bag)
  {
    assert Sound(Agreement(), s.players[role], RowsToCome(s, role));
  }

  lemma RequestChangesOwn(s: Server, who: nat, op: Operation, role: nat, h: nat)
    requires AllInStep(s) && CanServe(s, who, op) && role in s.players
    ensures role in ServeOwn(s, who, op).players
    ensures CountOf(ServeOwn(s, who, op).players[role].bag, h)
         == CountOf(s.players[role].bag, h)
            + if who == role then Gain(s.players[role].bag, s.players[role].purse, op, h) else 0
  {
    if who == role {
      InStep(s, role);
      Agreeing(s.players[role].bag, RowsToCome(s, role), h);
      RequestGains(s.players[role].bag, s.players[role].purse, op, h);
    }
  }

  /** A request is paid for, or paid, by its own player alone. */
  lemma RequestPaidByOwn(s: Server, who: nat, op: Operation, role: nat)
    requires CanServe(s, who, op) && role in s.players
    ensures role in ServeOwn(s, who, op).players
    ensures var p := s.players[role];
            ServeOwn(s, who, op).players[role].purse == if who == role then PurseAfter(p.bag, p.purse, op) else p.purse
  {
    RequestPays(s.players[who].bag, s.players[who].purse, op);
  }

  lemma SwapChangesBoth(s: Server, a: nat, b: nat, fromA: seq<Stack>, fromB: seq<Stack>, purseA: nat, purseB: nat,
                        role: nat, h: nat)
    requires a in s.players && b in s.players && a != b && role in s.players
    requires CanSwap(s.players[a].bag, s.players[b].bag, fromA, fromB)
    ensures var s' := WriteBehind.Swap(s, a, b, fromA, fromB, purseA, purseB);
            role in s'.players && CountOf(s'.players[role].bag, h)
            == CountOf(s.players[role].bag, h) + if role == a then GivenOf(fromB, h) - GivenOf(fromA, h)
                                                 else if role == b then GivenOf(fromA, h) - GivenOf(fromB, h) else 0
  {
    SwapSideGains(s.players[a].bag, fromA, fromB, h);
    SwapSideGains(s.players[b].bag, fromB, fromA, h);
  }

  lemma ArrangingChangesNothing(s: Server, who: nat, o: Orders, role: nat, h: nat)
    requires AllInStep(s) && who in s.players && Meets(o, s.players[who].bag) && role in s.players
    ensures role in ArrangeIn(s, who, o).players
    ensures CountOf(ArrangeIn(s, who, o).players[role].bag, h) == CountOf(s.players[role].bag, h)
  {
    InStep(s, who);
    ArrangingCounts(s.players[who].bag, RowsToCome(s, who), o, h);
  }

  /** Every event changes what each player has of everything by the gain of the event. */
  lemma EventGains(s: Server, e: Event, role: nat, h: nat)
    requires AllInStep(s) && Possible(s, e) && role in s.players
    ensures role in Next(s, e).players
    ensures CountOf(Next(s, e).players[role].bag, h) == CountOf(s.players[role].bag, h) + EventGain(s, e, role, h)
  {
    match e
    case Asks(who, op) => RequestChangesOwn(s, who, op, role, h);
    case Swaps(a, b, fromA, fromB, purseA, purseB) =>
      SwapChangesBoth(s, a, b, fromA, fromB, purseA, purseB, role, h);
    case Arranges(who, o) => ArrangingChangesNothing(s, who, o, role, h);
    case Labels(_, _) =>
    case Writes =>
  }

  ghost function RunGain(s: Server, run: seq<Event>, end: Server, role: nat, h: nat): int
    requires Runs(s, run, end) && AllInStep(s) && role in s.players
    decreases |run|
  {
    if run == [] then 0
    else
      EventGains(s, run[0], role, h);
      NextKeepsAllInStep(s, run[0]);
      EventGain(s, run[0], role, h) + RunGain(Next(s, run[0]), run[1..], end, role, h)
  }

  /** Over every interleaving, what a player has at the end is what it had and the gains of its own requests and
      swaps: nothing that others do, no arranging and no writing makes goods or loses them. */
  lemma {:induction false} InterleavingGains(s: Server, run: seq<Event>, end: Server, role: nat, h: nat)
    requires Runs(s, run, end) && AllInStep(s) && role in s.players
    ensures role in end.players
    ensures CountOf(end.players[role].bag, h) == CountOf(s.players[role].bag, h) + RunGain(s, run, end, role, h)
    decreases |run|
  {
    if run != [] {
      EventGains(s, run[0], role, h);
      NextKeepsAllInStep(s, run[0]);
      InterleavingGains(Next(s, run[0]), run[1..], end, role, h);
    }
  }
}
