// A whole trade between two free players: joining, offering goods and money, locking and confirming.
module TradeDeal {
  import opened GoodsBag
  import opened BagEdits
  import opened BagOperations
  import opened BagCounts
  import opened Trade
  import opened TradeCommit
  import opened TradeSafety
  import opened TradeRuns
  import opened TradeLocks
  import opened TradeEffects

  // ----- One stack after the other -----

  /** One message for each stack. */
  function Adds(c: nat, offers: seq<Stack>): seq<(nat, Message)> {
    if offers == [] then [] else [(c, OffersGoods(Add, offers[0]))] + Adds(c, offers[1..])
  }

  /** Every slot of an offer is locked. */
  function LockAll(slots: seq<Slot>, offers: seq<Stack>): (r: seq<Slot>)
    requires forall o :: o in offers ==> o.pos < |slots|
    ensures |r| == |slots|
    decreases |offers|
  {
    if offers == [] then slots else LockAll(slots[offers[0].pos := Locked], offers[1..])
  }

  /** The session once all of these are on offer too. */
  function Put(s: Session, offers: seq<Stack>): Session
    requires forall o :: o in offers ==> o.pos < |s.bag.slots|
  {
    s.(bag := s.bag.(slots := LockAll(s.bag.slots, offers)),
       trade := s.trade.(changes := s.trade.changes + offers))
  }

  /** The stacks are in the bag, none is forged, and none of their slots is on offer twice. */
  ghost predicate CanPut(s: Session, offers: seq<Stack>) {
    && (forall o :: o in offers ==> Has(s.bag, o) && Honest(o) && o.pos < |s.bag.slots|)
    && DistinctSlots(s.trade.changes + offers)
  }

  lemma PutFirst(s: Session, offers: seq<Stack>)
    requires CanPut(s, offers) && offers != []
    ensures !Offered(s.trade.changes, offers[0].pos)
    ensures var s1 := Offering(s, s.trade.changes + [offers[0]], offers[0].pos, Locked);
            CanPut(s1, offers[1..]) && Put(s1, offers[1..]) == Put(s, offers)
  {
    var all := s.trade.changes + offers;
    var s1 := Offering(s, s.trade.changes + [offers[0]], offers[0].pos, Locked);
    assert all[|s.trade.changes|] == offers[0];
    forall i | 0 <= i < |s.trade.changes|
      ensures s.trade.changes[i].pos != offers[0].pos
    {
      assert all[i] == s.trade.changes[i];
    }
    assert s1.trade.changes + offers[1..] == all;
    forall o | o in offers[1..]
      ensures Has(s1.bag, o)
    {
      assert Has(s.bag, o);
    }
  }

  /** An offer that is honest and in the bag may be made. */
  lemma AddIsLegal(R: TradeRelation, w: World, c: nat, o: Stack)
    requires Fitting(R) && Safe(R, w) && c in w.sessions && HasPartner(w, c)
    requires Has(w.sessions[c].bag, o) && Honest(o) && o.pos < |w.sessions[c].bag.slots|
    ensures Legal(R, w, c, OffersGoods(Add, o)) && Safe(R, Step(R, w, c, OffersGoods(Add, o)))
  {
    FoundExactlyWhen(w.sessions[c], o);
    FoundIsHeld(R, w.sessions[c], o);
    StepIsSafe(R, w, c, OffersGoods(Add, o));
  }

  /** All the stacks get on the list in their order, and their slots are locked. */
  lemma {:induction false} AllArePut(R: TradeRelation, w: World, c: nat, offers: seq<Stack>, end: World)
    requires Fitting(R) && Safe(R, w) && c in w.sessions && HasPartner(w, c) && CanPut(w.sessions[c], offers)
    requires end == With(w, c, Put(w.sessions[c], offers))
    ensures Runs(R, w, Adds(c, offers), end) && Safe(R, end)
    decreases |offers|
  {
    var s := w.sessions[c];
    if offers == [] {
      assert s.trade.changes + [] == s.trade.changes;
      assert Put(s, []) == s;
      WithTwice(w, c, s, s);
    } else {
      var s1 := Offering(s, s.trade.changes + [offers[0]], offers[0].pos, Locked);
      assert offers[0] in offers;
      PutFirst(s, offers);
      AddIsLegal(R, w, c, offers[0]);
      AddPutsOnTheList(w, c, offers[0]);
      WithTwice(w, c, s1, Put(s1, offers[1..]));
      AllArePut(R, With(w, c, s1), c, offers[1..], end);
    }
  }

  lemma {:induction false} LockAllLocks(slots: seq<Slot>, offers: seq<Stack>)
    requires forall o :: o in offers ==> o.pos < |slots|
    ensures forall o :: o in offers ==> LockAll(slots, offers)[o.pos] == Locked
    ensures forall p :: 0 <= p < |slots| && (forall o :: o in offers ==> o.pos != p) ==>
              LockAll(slots, offers)[p] == slots[p]
    ensures (forall o :: o in offers ==> slots[o.pos] != Empty) ==> SameUse(slots, LockAll(slots, offers))
    decreases |offers|
  {
    if offers != [] {
      LockAllLocks(slots[offers[0].pos := Locked], offers[1..]);
    }
  }

  // ----- The whole trade -----

  /** What one side puts into the trade. */
  datatype Terms = Terms(goods: seq<Stack>, moneyType: nat, money: nat)

  ghost predicate CanOffer(s: Session, a: Terms) {
    && (forall o :: o in a.goods ==> Has(s.bag, o) && Honest(o) && o.pos < |s.bag.slots|)
    && DistinctSlots(a.goods) && HasMoney(s.purse, a.moneyType, a.money)
  }

  /** The side of s in a trade with p, with its terms on the table. */
  function Side(s: Session, p: nat, a: Terms, isLocked: bool, isChangeChecked: bool): Session
    requires forall o :: o in a.goods ==> o.pos < |s.bag.slots|
  {
    s.(bag := s.bag.(slots := LockAll(s.bag.slots, a.goods)),
       trade := Interchange(true, isLocked, isChangeChecked, Partner(p), a.goods, a.moneyType, a.money))
  }

  function Both(w: World, c: nat, s: Session, p: nat, t: Session): World {
    w.(sessions := w.sessions[c := s][p := t])
  }

  lemma OneOfBoth(w: World, c: nat, s: Session, p: nat, t: Session, u: Session)
    requires c != p
    ensures With(Both(w, c, s, p, t), c, u) == Both(w, c, u, p, t)
    ensures With(Both(w, c, s, p, t), p, u) == Both(w, c, s, p, u)
  {
    assert w.sessions[c := s][p := t][c := u] == w.sessions[c := u][p := t];
  }

  lemma RunsFirst(R: TradeRelation, w: World, c: nat, m: Message, rest: seq<(nat, Message)>, end: World)
    requires Safe(R, w) && Legal(R, w, c, m) && Runs(R, Step(R, w, c, m), rest, end)
    ensures Runs(R, w, [(c, m)] + rest, end)
  {
    var run := [(c, m)] + rest;
    assert run[0] == (c, m) && run[1..] == rest;
  }

  lemma FirstOfConcat<T>(first: seq<T>, second: seq<T>)
    requires first != []
    ensures [first[0]] + (first[1..] + second) == first + second
  {
  }

  lemma {:induction false} RunsConcat(R: TradeRelation, w: World, first: seq<(nat, Message)>, mid: World,
                                      second: seq<(nat, Message)>, end: World)
    requires Runs(R, w, first, mid) && Runs(R, mid, second, end)
    ensures Runs(R, w, first + second, end)
    decreases |first|
  {
    if first == [] {
      assert first + second == second;
    } else {
      var c, m := first[0].0, first[0].1;
      RunsConcat(R, Step(R, w, c, m), first[1..], mid, second, end);
      RunsFirst(R, w, c, m, first[1..] + second, end);
      FirstOfConcat(first, second);
    }
  }

  lemma RunsOne(R: TradeRelation, w: World, c: nat, m: Message)
    requires Fitting(R) && Safe(R, w) && Legal(R, w, c, m)
    ensures Runs(R, w, [(c, m)], Step(R, w, c, m)) && Safe(R, Step(R, w, c, m))
  {
    StepIsSafe(R, w, c, m);
  }

  // ----- Its messages -----

  /** The run leads from w to end, safely. */
  ghost predicate Leads(R: TradeRelation, w: World, run: seq<(nat, Message)>, end: World) {
    Runs(R, w, run, end) && Safe(R, end)
  }

  lemma Then(R: TradeRelation, w: World, first: seq<(nat, Message)>, mid: World, second: seq<(nat, Message)>,
             end: World)
    requires Leads(R, w, first, mid) && Leads(R, mid, second, end)
    ensures Leads(R, w, first + second, end)
  {
    RunsConcat(R, w, first, mid, second, end);
  }

  lemma AskingLeads(R: TradeRelation, w: World, c: nat, p: nat)
    requires Fitting(R) && Safe(R, w) && c in w.sessions && p in w.sessions && c != p
    requires !w.sessions[c].trade.isInchange && !w.sessions[p].trade.isInchange
    ensures Leads(R, w, [(c, Asks(w.sessions[p].role))], Both(w, c, Join(w.sessions[c], p), p, Join(w.sessions[p], c)))
  {
    var role := w.sessions[p].role;
    assert w.socks[role] == p;
    RunsOne(R, w, c, Asks(role));
    assert Request(w, c, role) == Both(w, c, Join(w.sessions[c], p), p, Join(w.sessions[p], c));
  }

  function WithMoney(s: Session, a: Terms): Session {
    s.(trade := s.trade.(moneyType := a.moneyType, moneyCount := a.money))
  }

  lemma MoneyLeads(R: TradeRelation, w: World, c: nat, a: Terms)
    requires Fitting(R) && Safe(R, w) && c in w.sessions && HasPartner(w, c)
    requires HasMoney(w.sessions[c].purse, a.moneyType, a.money)
    ensures Leads(R, w, [(c, OffersMoney(a.moneyType, a.money))], With(w, c, WithMoney(w.sessions[c], a)))
  {
    RunsOne(R, w, c, OffersMoney(a.moneyType, a.money));
  }

  function Locking(s: Session): Session {
    s.(trade := s.trade.(isLocked := true))
  }

  lemma LockLeads(R: TradeRelation, w: World, c: nat)
    requires Fitting(R) && Safe(R, w) && c in w.sessions && HasPartner(w, c)
    ensures Leads(R, w, [(c, Locks)], With(w, c, Locking(w.sessions[c])))
  {
    RunsOne(R, w, c, Locks);
  }

  function Checking(s: Session): Session {
    s.(trade := s.trade.(isChangeChecked := true))
  }

  lemma FirstConfirmLeads(R: TradeRelation, w: World, c: nat)
    requires Fitting(R) && Safe(R, w) && c in w.sessions && HasPartner(w, c)
    requires var p := PartnerOf(w, c);
             w.sessions[c].trade.isLocked && w.sessions[p].trade.isLocked && !w.sessions[p].trade.isChangeChecked
    ensures Leads(R, w, [(c, Confirms)], With(w, c, Checking(w.sessions[c])))
  {
    RunsOne(R, w, c, Confirms);
    assert Check(w, c) == With(w, c, Checking(w.sessions[c]));
  }

  // ----- From joining to the first confirmation -----

  lemma BothTurned(w: World, c: nat, s: Session, p: nat, t: Session)
    requires c != p
    ensures Both(w, c, s, p, t) == Both(w, p, t, c, s)
  {
  }

  /** All that one side puts in. */
  function Puts(c: nat, a: Terms): seq<(nat, Message)> {
    Adds(c, a.goods) + [(c, OffersMoney(a.moneyType, a.money))]
  }

  lemma JoinedIsSide(s: Session, p: nat, a: Terms)
    requires Idle(s.trade) && CanOffer(s, a)
    ensures CanPut(Join(s, p), a.goods) && WithMoney(Put(Join(s, p), a.goods), a) == Side(s, p, a, false, false)
  {
    assert [] + a.goods == a.goods;
    forall o | o in a.goods
      ensures Has(Join(s, p).bag, o)
    {
      assert Has(s.bag, o);
    }
  }

  lemma PuttingLeads(R: TradeRelation, w: World, c: nat, s: Session, p: nat, t: Session, a: Terms)
    requires Fitting(R) && c != p && Safe(R, Both(w, c, Join(s, p), p, t)) && Idle(s.trade) && CanOffer(s, a)
    ensures Leads(R, Both(w, c, Join(s, p), p, t), Puts(c, a), Both(w, c, Side(s, p, a, false, false), p, t))
  {
    var w1 := Both(w, c, Join(s, p), p, t);
    var s2 := Put(Join(s, p), a.goods);
    var w2 := Both(w, c, s2, p, t);
    JoinedIsSide(s, p, a);
    OneOfBoth(w, c, Join(s, p), p, t, s2);
    AllArePut(R, w1, c, a.goods, w2);
    OneOfBoth(w, c, s2, p, t, Side(s, p, a, false, false));
    MoneyLeads(R, w2, c, a);
    Then(R, w1, Adds(c, a.goods), w2, [(c, OffersMoney(a.moneyType, a.money))],
         Both(w, c, Side(s, p, a, false, false), p, t));
  }

  /** The request, then what each side puts in. */
  function Opening(c: nat, p: nat, role: nat, a: Terms, b: Terms): seq<(nat, Message)> {
    [(c, Asks(role))] + Puts(c, a) + Puts(p, b)
  }

  lemma OpeningLeads(R: TradeRelation, w: World, c: nat, p: nat, a: Terms, b: Terms)
    requires Fitting(R) && Safe(R, w) && c in w.sessions && p in w.sessions && c != p
    requires !w.sessions[c].trade.isInchange && !w.sessions[p].trade.isInchange
    requires CanOffer(w.sessions[c], a) && CanOffer(w.sessions[p], b)
    ensures var s, t := w.sessions[c], w.sessions[p];
            Leads(R, w, Opening(c, p, t.role, a, b),
                  Both(w, c, Side(s, p, a, false, false), p, Side(t, c, b, false, false)))
  {
    var s, t := w.sessions[c], w.sessions[p];
    var s1, t1 := Side(s, p, a, false, false), Side(t, c, b, false, false);
    AskingLeads(R, w, c, p);
    PuttingLeads(R, w, c, s, p, Join(t, c), a);
    Then(R, w, [(c, Asks(t.role))], Both(w, c, Join(s, p), p, Join(t, c)), Puts(c, a), Both(w, c, s1, p, Join(t, c)));
    BothTurned(w, c, s1, p, Join(t, c));
    PuttingLeads(R, w, p, t, c, s1, b);
    BothTurned(w, c, s1, p, t1);
    Then(R, w, [(c, Asks(t.role))] + Puts(c, a), Both(w, c, s1, p, Join(t, c)), Puts(p, b), Both(w, c, s1, p, t1));
  }

  /** Both lock, and the first confirms. */
  function Closing(c: nat, p: nat): seq<(nat, Message)> {
    [(c, Locks)] + [(p, Locks)] + [(c, Confirms)]
  }

  lemma ClosingLeads(R: TradeRelation, w: World, c: nat, s: Session, p: nat, t: Session, a: Terms, b: Terms)
    requires Fitting(R) && c != p
    requires (forall o :: o in a.goods ==> o.pos < |s.bag.slots|) && forall o :: o in b.goods ==> o.pos < |t.bag.slots|
    requires Safe(R, Both(w, c, Side(s, p, a, false, false), p, Side(t, c, b, false, false)))
    ensures Leads(R, Both(w, c, Side(s, p, a, false, false), p, Side(t, c, b, false, false)), Closing(c, p),
                  Both(w, c, Side(s, p, a, true, true), p, Side(t, c, b, true, false)))
  {
    var s1, s2, s3 := Side(s, p, a, false, false), Side(s, p, a, true, false), Side(s, p, a, true, true);
    var t1, t2 := Side(t, c, b, false, false), Side(t, c, b, true, false);
    LockLeads(R, Both(w, c, s1, p, t1), c);
    OneOfBoth(w, c, s1, p, t1, s2);
    LockLeads(R, Both(w, c, s2, p, t1), p);
    OneOfBoth(w, c, s2, p, t1, t2);
    Then(R, Both(w, c, s1, p, t1), [(c, Locks)], Both(w, c, s2, p, t1), [(p, Locks)], Both(w, c, s2, p, t2));
    FirstConfirmLeads(R, Both(w, c, s2, p, t2), c);
    OneOfBoth(w, c, s2, p, t2, s3);
    Then(R, Both(w, c, s1, p, t1), [(c, Locks)] + [(p, Locks)], Both(w, c, s2, p, t2), [(c, Confirms)],
         Both(w, c, s3, p, t2));
  }

  // ----- The outcome -----

  lemma {:induction false} SameUseCounts(slots: seq<Slot>, labelled: seq<Slot>, j: nat)
    requires |slots| == SLOT_COUNT && SameUse(slots, labelled) && 1 <= j <= SLOT_COUNT
    ensures EmptyCountFrom(labelled, j) == EmptyCountFrom(slots, j)
    decreases SLOT_COUNT - j
  {
    if j < SLOT_COUNT {
      SameUseCounts(slots, labelled, j + 1);
    }
  }

  /** What is put in, before anything is locked. */
  function WithTerms(s: Session, a: Terms): Session {
    s.(trade := s.trade.(changes := a.goods, moneyType := a.moneyType, moneyCount := a.money))
  }

  lemma OffersAreInUse(R: TradeRelation, s: Session, a: Terms)
    requires Fitting(R) && Backed(R, s) && CanOffer(s, a)
    ensures |s.bag.slots| == SLOT_COUNT && forall o :: o in a.goods ==> s.bag.slots[o.pos] != Empty
  {
    forall o | o in a.goods
      ensures s.bag.slots[o.pos] != Empty
    {
      FoundExactlyWhen(s, o);
      FoundIsHeld(R, s, o);
    }
  }

  /** There is room for what comes in once what goes out has gone. */
  predicate Room(s: Session, a: Terms, t: Session, b: Terms)
    requires |s.bag.slots| == SLOT_COUNT && |t.bag.slots| == SLOT_COUNT
  {
    Fits(WithTerms(s, a), WithTerms(t, b))
  }

  lemma RoomStays(R: TradeRelation, s: Session, p: nat, a: Terms, isChecked: bool)
    requires Fitting(R) && Backed(R, s) && CanOffer(s, a)
    ensures |s.bag.slots| == SLOT_COUNT
    ensures EmptyCount(Side(s, p, a, true, isChecked).bag.slots) == EmptyCount(s.bag.slots)
  {
    OffersAreInUse(R, s, a);
    LockAllLocks(s.bag.slots, a.goods);
    SameUseCounts(s.bag.slots, LockAll(s.bag.slots, a.goods), 1);
  }

  lemma SideGivenBack(s: Session, p: nat, a: Terms, isChecked: bool, s': Session)
    requires forall o :: o in a.goods ==> o.pos < |s.bag.slots|
    requires GivenBack(Side(s, p, a, true, isChecked), s')
    ensures GivenBack(WithTerms(s, a), s')
  {
    LockAllLocks(s.bag.slots, a.goods);
    forall q | 0 <= q < |s.bag.slots| && !Offered(a.goods, q)
      ensures LockAll(s.bag.slots, a.goods)[q] == s.bag.slots[q]
    {
      forall o | o in a.goods
        ensures o.pos != q
      {
        var i :| 0 <= i < |a.goods| && a.goods[i] == o;
      }
    }
  }

  /** The two sessions are as goods and money go the same as those. */
  lemma SideSwapped(s: Session, p: nat, a: Terms, x: bool, t: Session, c: nat, b: Terms, y: bool, s': Session)
    requires (forall o :: o in a.goods ==> o.pos < |s.bag.slots|) && forall o :: o in b.goods ==> o.pos < |t.bag.slots|
    requires FairlySwapped(Side(s, p, a, true, x), Side(t, c, b, true, y), s')
    ensures FairlySwapped(WithTerms(s, a), WithTerms(t, b), s')
  {
    var s1, t1, u, v := Side(s, p, a, true, x), Side(t, c, b, true, y), WithTerms(s, a), WithTerms(t, b);
    assert forall k :: Due(s1, t1, k) == Due(u, v, k);
  }

  lemma RoomIsFits(R: TradeRelation, s: Session, p: nat, a: Terms, t: Session, c: nat, b: Terms)
    requires Fitting(R) && Backed(R, s) && Backed(R, t) && CanOffer(s, a) && CanOffer(t, b)
    ensures |s.bag.slots| == |t.bag.slots| == SLOT_COUNT
    ensures Fits(Side(t, c, b, true, false), Side(s, p, a, true, true)) <==> Room(s, a, t, b)
  {
    RoomStays(R, s, p, a, true);
    RoomStays(R, t, c, b, false);
  }

  /** How the trade ends. */
  ghost predicate Ends(s: Session, a: Terms, t: Session, b: Terms, s': Session)
    requires |s.bag.slots| == |t.bag.slots| == SLOT_COUNT
  {
    if Room(s, a, t, b) then FairlySwapped(WithTerms(s, a), WithTerms(t, b), s') else GivenBack(WithTerms(s, a), s')
  }

  /** It ends so for both, and nobody else notices. */
  ghost predicate Concluded(w: World, c: nat, s: Session, a: Terms, p: nat, t: Session, b: Terms, end: World)
    requires |s.bag.slots| == |t.bag.slots| == SLOT_COUNT && c in w.sessions && p in w.sessions
  {
    && end.sessions.Keys == w.sessions.Keys
    && Ends(s, a, t, b, end.sessions[c]) && Ends(t, b, s, a, end.sessions[p])
    && forall x :: x in w.sessions && x != c && x != p ==> end.sessions[x] == w.sessions[x]
  }

  lemma WithRoom(w: World, c: nat, s: Session, p: nat, t: Session, a: Terms, b: Terms, end: World)
    requires |s.bag.slots| == |t.bag.slots| == SLOT_COUNT && Room(s, a, t, b) && c != p && c in w.sessions
             && p in w.sessions
    requires (forall o :: o in a.goods ==> o.pos < SLOT_COUNT) && forall o :: o in b.goods ==> o.pos < SLOT_COUNT
    requires w.sessions[c] == Side(s, p, a, true, true) && w.sessions[p] == Side(t, c, b, true, false)
    requires CanSwap(w.sessions[c]) && CanSwap(w.sessions[p]) && end == Commit(w, p, c)
    ensures Concluded(w, c, s, a, p, t, b, end)
  {
    CommitIsFair(w, p, c);
    SideSwapped(s, p, a, true, t, c, b, false, end.sessions[c]);
    SideSwapped(t, c, b, false, s, p, a, true, end.sessions[p]);
  }

  lemma WithoutRoom(w: World, c: nat, s: Session, p: nat, t: Session, a: Terms, b: Terms, end: World)
    requires |s.bag.slots| == |t.bag.slots| == SLOT_COUNT && !Room(s, a, t, b) && c != p && c in w.sessions
             && p in w.sessions
    requires (forall o :: o in a.goods ==> o.pos < SLOT_COUNT) && forall o :: o in b.goods ==> o.pos < SLOT_COUNT
    requires w.sessions[c] == Side(s, p, a, true, true) && w.sessions[p] == Side(t, c, b, true, false)
    requires end == With(With(w, p, Release(w.sessions[p])), c, Release(w.sessions[c]))
    ensures Concluded(w, c, s, a, p, t, b, end)
  {
    ReleaseGivesBack(w.sessions[c]);
    ReleaseGivesBack(w.sessions[p]);
    SideGivenBack(s, p, a, true, end.sessions[c]);
    SideGivenBack(t, c, b, false, end.sessions[p]);
  }

  lemma LastCheck(R: TradeRelation, w: World, c: nat, s: Session, p: nat, t: Session, a: Terms, b: Terms)
    requires Fitting(R) && c != p && Backed(R, s) && Backed(R, t) && CanOffer(s, a) && CanOffer(t, b)
    requires |s.bag.slots| == |t.bag.slots| == SLOT_COUNT
    requires Safe(R, w) && c in w.sessions && p in w.sessions && w.sessions[c] == Side(s, p, a, true, true)
    requires w.sessions[p] == Side(t, c, b, true, false)
    ensures CanSwap(w.sessions[c]) && CanSwap(w.sessions[p])
    ensures Check(w, p) == if Room(s, a, t, b) then Commit(w, p, c)
                           else With(With(w, p, Release(w.sessions[p])), c, Release(w.sessions[c]))
  {
    RoomIsFits(R, s, p, a, t, c, b);
  }

  lemma ConfirmLeads(R: TradeRelation, w: World, c: nat)
    requires Fitting(R) && Safe(R, w) && c in w.sessions && CanTrade(w.sessions[c])
    requires HasPartner(w, c) ==> CanTrade(w.sessions[PartnerOf(w, c)])
    ensures Leads(R, w, [(c, Confirms)], Check(w, c))
  {
    RunsOne(R, w, c, Confirms);
  }

  lemma Concludes(R: TradeRelation, w: World, c: nat, s: Session, p: nat, t: Session, a: Terms, b: Terms)
    returns (end: World)
    requires Fitting(R) && c != p && Backed(R, s) && Backed(R, t) && CanOffer(s, a) && CanOffer(t, b)
    requires |s.bag.slots| == |t.bag.slots| == SLOT_COUNT
    requires Safe(R, w) && c in w.sessions && p in w.sessions && w.sessions[c] == Side(s, p, a, true, true)
    requires w.sessions[p] == Side(t, c, b, true, false)
    ensures Leads(R, w, [(p, Confirms)], end) && Concluded(w, c, s, a, p, t, b, end)
  {
    LastCheck(R, w, c, s, p, t, a, b);
    ConfirmLeads(R, w, p);
    end := Check(w, p);
    if Room(s, a, t, b) {
      WithRoom(w, c, s, p, t, a, b, end);
    } else {
      WithoutRoom(w, c, s, p, t, a, b, end);
    }
  }

  /** The messages of a whole trade. */
  function WholeTrade(c: nat, p: nat, role: nat, a: Terms, b: Terms): seq<(nat, Message)> {
    Opening(c, p, role, a, b) + Closing(c, p) + [(p, Confirms)]
  }

  /** Up to the first confirmation. */
  lemma TradeGetsConfirmed(R: TradeRelation, w: World, c: nat, p: nat, a: Terms, b: Terms)
    requires Fitting(R) && Safe(R, w) && c in w.sessions && p in w.sessions && c != p
    requires !w.sessions[c].trade.isInchange && !w.sessions[p].trade.isInchange
    requires CanOffer(w.sessions[c], a) && CanOffer(w.sessions[p], b)
    ensures var s, t := w.sessions[c], w.sessions[p];
            Leads(R, w, Opening(c, p, t.role, a, b) + Closing(c, p),
                  Both(w, c, Side(s, p, a, true, true), p, Side(t, c, b, true, false)))
  {
    var s, t := w.sessions[c], w.sessions[p];
    OpeningLeads(R, w, c, p, a, b);
    ClosingLeads(R, w, c, s, p, t, a, b);
    Then(R, w, Opening(c, p, t.role, a, b), Both(w, c, Side(s, p, a, false, false), p, Side(t, c, b, false, false)),
         Closing(c, p), Both(w, c, Side(s, p, a, true, true), p, Side(t, c, b, true, false)));
  }

  lemma ConcludedBefore(w: World, c: nat, s: Session, a: Terms, p: nat, t: Session, b: Terms, s1: Session, t1: Session,
                        end: World)
    requires |s.bag.slots| == |t.bag.slots| == SLOT_COUNT && c in w.sessions && p in w.sessions
    requires Concluded(Both(w, c, s1, p, t1), c, s, a, p, t, b, end)
    ensures Concluded(w, c, s, a, p, t, b, end)
  {
  }

  /** Two players who are free and send the messages of a whole trade, each offering what it has, come to its
      end: with room on both sides the goods are swapped as offered, and the money where it fits 32 bits;
      without room both get everything back. Nobody else notices. */
  lemma TradeGoesThroughExactlyWhen(R: TradeRelation, w: World, c: nat, p: nat, a: Terms, b: Terms) returns (end: World)
    requires Fitting(R) && Safe(R, w) && c in w.sessions && p in w.sessions && c != p
    requires !w.sessions[c].trade.isInchange && !w.sessions[p].trade.isInchange
    requires CanOffer(w.sessions[c], a) && CanOffer(w.sessions[p], b)
    ensures var s, t := w.sessions[c], w.sessions[p];
            && |s.bag.slots| == |t.bag.slots| == SLOT_COUNT
            && Runs(R, w, WholeTrade(c, p, t.role, a, b), end) && Concluded(w, c, s, a, p, t, b, end)
  {
    var s, t := w.sessions[c], w.sessions[p];
    var s1, t1 := Side(s, p, a, true, true), Side(t, c, b, true, false);
    var w1 := Both(w, c, s1, p, t1);
    OffersAreInUse(R, s, a);
    OffersAreInUse(R, t, b);
    TradeGetsConfirmed(R, w, c, p, a, b);
    end := Concludes(R, w1, c, s, p, t, a, b);
    Then(R, w, Opening(c, p, t.role, a, b) + Closing(c, p), w1, [(p, Confirms)], end);
    ConcludedBefore(w, c, s, a, p, t, b, s1, t1, end);
  }
}
