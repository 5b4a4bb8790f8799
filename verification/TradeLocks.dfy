// What a trade leaves locked, and what careless messages break.
module TradeLocks {
  import opened GoodsBag
  import opened BagEdits
  import opened BagOperations
  import opened BagCounts
  import opened Trade
  import opened TradeCommit
  import opened TradeSafety
  import opened TradeRuns
  import opened EquipmentArrangement
  import opened BagArrangement
  import opened ArrangeBehind

  // ----- Slots left locked -----

  ghost predicate Offered(offers: seq<Stack>, p: nat) {
    exists i :: 0 <= i < |offers| && offers[i].pos == p
  }

  /** A locked slot that is not offered is of no more use: moving its stack is refused. */
  ghost predicate NoStrayLock(s: Session) {
    forall p :: 0 <= p < |s.bag.slots| && s.bag.slots[p] == Locked ==> Offered(s.trade.changes, p)
  }

  lemma ReleaseLeavesNoLock(s: Session)
    requires NoStrayLock(s)
    ensures Locked !in Release(s).bag.slots
  {
    var offers := s.trade.changes;
    UnlockAllSlots(s.bag.slots, offers);
    forall p | 0 <= p < |s.bag.slots|
      ensures UnlockAll(s.bag.slots, offers)[p] != Locked
    {
      if s.bag.slots[p] == Locked {
        var i :| 0 <= i < |offers| && offers[i].pos == p;
        assert offers[i] in offers;
      }
    }
  }

  lemma LeaveLeavesLocksExactlyWhen(s: Session)
    requires OffersHeld(s.bag, s.trade.changes) && NoStrayLock(s)
    ensures Locked in Leave(s).bag.slots <==> s.trade.changes != []
  {
    if s.trade.changes != [] {
      assert s.bag.slots[s.trade.changes[0].pos] == Locked;
    }
  }

  /** Cancelling with the other side connected takes both out of the trade, and every slot that either has
      offered is in use again. */
  lemma CancelUnlocksBoth(R: TradeRelation, w: World, c: nat)
    requires Safe(R, w) && c in w.sessions && HasPartner(w, c)
    ensures var p := PartnerOf(w, c);
            var w' := Cancel(w, c);
            && Idle(w'.sessions[c].trade) && Idle(w'.sessions[p].trade)
            && (forall o :: o in w.sessions[c].trade.changes ==> w'.sessions[c].bag.slots[o.pos] == NonEmpty)
            && forall o :: o in w.sessions[p].trade.changes ==> w'.sessions[p].bag.slots[o.pos] == NonEmpty
  {
    var p := PartnerOf(w, c);
    assert PairedAt(w, c);
    UnlockAllSlots(w.sessions[c].bag.slots, w.sessions[c].trade.changes);
    UnlockAllSlots(w.sessions[p].bag.slots, w.sessions[p].trade.changes);
  }

  /** Cancelling without the other side leaves everything locked that was offered. */
  lemma CancelAloneUnlocksNothing(R: TradeRelation, w: World, c: nat)
    requires Safe(R, w) && c in w.sessions && !HasPartner(w, c)
    ensures var w' := Cancel(w, c);
            && Idle(w'.sessions[c].trade)
            && forall o :: o in w.sessions[c].trade.changes ==> w'.sessions[c].bag.slots[o.pos] == Locked
  {
  }

  /** So it unlocks what was offered exactly when the other side is connected, or nothing was offered. */
  lemma CancelUnlocksExactlyWhen(R: TradeRelation, w: World, c: nat)
    requires Safe(R, w) && c in w.sessions
    ensures var offers := w.sessions[c].trade.changes;
            (forall o :: o in offers ==> Cancel(w, c).sessions[c].bag.slots[o.pos] != Locked) <==>
              HasPartner(w, c) || offers == []
  {
    if HasPartner(w, c) {
      CancelUnlocksBoth(R, w, c);
    } else if w.sessions[c].trade.changes != [] {
      CancelAloneUnlocksNothing(R, w, c);
      assert w.sessions[c].trade.changes[0] in w.sessions[c].trade.changes;
    }
  }

  /** Withdrawing the request takes both sides out of the trade and unlocks nothing of what either has offered. */
  lemma WithdrawingUnlocksNothing(R: TradeRelation, w: World, c: nat)
    requires Safe(R, w) && c in w.sessions
    ensures var w' := CancelRequest(w, c);
            && Idle(w'.sessions[c].trade)
            && (forall o :: o in w.sessions[c].trade.changes ==> w'.sessions[c].bag.slots[o.pos] == Locked)
            && (HasPartner(w, c) ==>
                  && Idle(w'.sessions[PartnerOf(w, c)].trade)
                  && forall o :: o in w.sessions[PartnerOf(w, c)].trade.changes ==>
                       w'.sessions[PartnerOf(w, c)].bag.slots[o.pos] == Locked)
  {
    assert PairedAt(w, c);
  }

  /** Changing offers leaves a slot locked that is not offered exactly when it does not add an offer and names a
      stack that is not on offer. */
  lemma ChangeOfferStraysExactlyWhen(s: Session, kind: OfferKind, o: Stack)
    requires OffersHeld(s.bag, s.trade.changes) && NoStrayLock(s) && o.pos < SLOT_COUNT
    ensures NoStrayLock(ChangeOffer(s, kind, o)) <==>
            kind == Add || FindAt(s.trade.changes, o.pos, 0) < |s.trade.changes|
  {
    var offers := s.trade.changes;
    var s' := ChangeOffer(s, kind, o);
    assert kind != Add && FindAt(offers, o.pos, 0) == |offers| ==> s'.bag.slots[o.pos] == Locked;
    forall p | 0 <= p < |s'.bag.slots| && s'.bag.slots[p] == Locked
        && (p != o.pos || kind == Add || FindAt(offers, o.pos, 0) < |offers|)
      ensures Offered(s'.trade.changes, p)
    {
      StillOffered(s, kind, o, p);
    }
  }

  lemma OfferedRest(offers: seq<Stack>, k: nat, p: nat)
    requires k < |offers| && Offered(offers, p) && offers[k].pos != p
    ensures Offered(RemoveAt(offers, k), p)
  {
    var i :| 0 <= i < |offers| && offers[i].pos == p;
    assert RemoveAt(offers, k)[if i < k then i else i - 1].pos == p;
  }

  lemma OfferedMore(offers: seq<Stack>, o: Stack, p: nat)
    requires Offered(offers, p) || o.pos == p
    ensures Offered(offers + [o], p)
  {
    assert (offers + [o])[|offers|] == o;
    if Offered(offers, p) {
      var i :| 0 <= i < |offers| && offers[i].pos == p;
      assert (offers + [o])[i].pos == p;
    }
  }

  lemma StillOffered(s: Session, kind: OfferKind, o: Stack, p: nat)
    requires |s.bag.slots| == SLOT_COUNT && NoStrayLock(s) && o.pos < SLOT_COUNT
    requires p < SLOT_COUNT && ChangeOffer(s, kind, o).bag.slots[p] == Locked
    requires p != o.pos || kind == Add || FindAt(s.trade.changes, o.pos, 0) < |s.trade.changes|
    ensures Offered(ChangeOffer(s, kind, o).trade.changes, p)
  {
    var offers := s.trade.changes;
    var k := FindAt(offers, o.pos, 0);
    assert k < |offers| ==> Offered(offers, o.pos);
    assert p != o.pos ==> Offered(offers, p);
    if kind == Add && k == |offers| {
      OfferedMore(offers, o, p);
    } else if kind == Remove && FindOffer(offers, o, 0) < |offers| {
      OfferedRest(offers, FindOffer(offers, o, 0), p);
    }
  }

  // ----- Runs that leave no stray lock -----

  ghost predicate NoStrayLocks(w: World) {
    forall c :: c in w.sessions ==> NoStrayLock(w.sessions[c])
  }

  lemma OneTidy(w: World, c: nat, s: Session)
    requires NoStrayLocks(w) && c in w.sessions
    ensures NoStrayLocks(With(w, c, s)) <==> NoStrayLock(s)
  {
    assert With(w, c, s).sessions[c] == s;
  }

  lemma TwoTidy(w: World, c: nat, s: Session, p: nat, t: Session)
    requires NoStrayLocks(w) && c in w.sessions && p in w.sessions && c != p
    ensures NoStrayLocks(With(With(w, c, s), p, t)) <==> NoStrayLock(s) && NoStrayLock(t)
  {
    var w' := With(With(w, c, s), p, t);
    assert w'.sessions[c] == s && w'.sessions[p] == t;
  }

  /** Releasing unlocks what is on offer, and nothing else. */
  lemma ReleaseTidies(s: Session)
    ensures NoStrayLock(Release(s)) <==> NoStrayLock(s)
  {
    var offers := s.trade.changes;
    UnlockAllSlots(s.bag.slots, offers);
    if NoStrayLock(s) {
      ReleaseLeavesNoLock(s);
    } else {
      var p :| 0 <= p < |s.bag.slots| && s.bag.slots[p] == Locked && !Offered(offers, p);
      forall o | o in offers
        ensures o.pos != p
      {
        var i :| 0 <= i < |offers| && offers[i] == o;
      }
      assert Release(s).bag.slots[p] == Locked;
      assert !Offered(Release(s).trade.changes, p);
    }
  }

  lemma LeaveTidies(s: Session)
    requires OffersHeld(s.bag, s.trade.changes) && NoStrayLock(s)
    ensures NoStrayLock(Leave(s)) <==> s.trade.changes == []
  {
    LeaveLeavesLocksExactlyWhen(s);
    assert forall p :: !Offered(Leave(s).trade.changes, p);
  }

  /** No lock comes in, and those of the offers go. */
  ghost predicate LocksGo(slots: seq<Slot>, offers: seq<Stack>, slots': seq<Slot>) {
    && |slots'| == |slots|
    && forall p :: 0 <= p < |slots| && slots'[p] == Locked ==> slots[p] == Locked && !Offered(offers, p)
  }

  lemma OfferedFirst(offers: seq<Stack>, p: nat)
    requires offers != [] && offers[0].pos != p && !Offered(offers[1..], p)
    ensures !Offered(offers, p)
  {
    forall i | 0 <= i < |offers|
      ensures offers[i].pos != p
    {
      if i > 0 {
        assert offers[1..][i - 1] == offers[i];
      }
    }
  }

  lemma {:induction false} DroppingLocks(b: Bag, offers: seq<Stack>)
    requires OffersHeld(b, offers)
    ensures LocksGo(b.slots, offers, DropOffers(b, offers).bag.slots)
    decreases |offers|
  {
    if offers != [] {
      var first := DropOffer(b, offers[0]).bag;
      var after := DropOffers(b, offers).bag.slots;
      OffersHeldRest(b, offers);
      DroppingLocks(first, offers[1..]);
      assert first.slots == b.slots[offers[0].pos := Empty];
      forall p | 0 <= p < |after| && after[p] == Locked
        ensures b.slots[p] == Locked && !Offered(offers, p)
      {
        OfferedFirst(offers, p);
      }
    }
  }

  lemma {:induction false} TakingLocks(b: Bag, offers: seq<Stack>)
    requires |b.slots| == SLOT_COUNT
    ensures LocksGo(b.slots, [], TakeOffers(b, offers).bag.slots)
    decreases |offers|
  {
    if offers != [] {
      TakingLocks(TakeOffer(b, offers[0]).bag, offers[1..]);
    }
  }

  lemma TradedIsTidy(s: Session, others: seq<Stack>, purse: Purse)
    requires OffersHeld(s.bag, s.trade.changes) && NoStrayLock(s)
    ensures NoStrayLock(Traded(s, others, purse))
  {
    var out := DropOffers(s.bag, s.trade.changes).bag;
    DroppingLocks(s.bag, s.trade.changes);
    TakingLocks(out, others);
    forall p | 0 <= p < SLOT_COUNT
      ensures Traded(s, others, purse).bag.slots[p] != Locked
    {
      assert s.bag.slots[p] == Locked ==> Offered(s.trade.changes, p);
      assert out.slots[p] != Locked;
    }
  }

  /** Joining, locking and the like touch neither slots nor offers. */
  lemma SameLocks(s: Session, s': Session)
    requires s'.bag.slots == s.bag.slots && s'.trade.changes == s.trade.changes
    ensures NoStrayLock(s') <==> NoStrayLock(s)
  {
  }

  lemma RequestIsTidy(w: World, c: nat, role: nat)
    requires NoStrayLocks(w) && c in w.sessions && forall r :: r in w.socks ==> w.socks[r] in w.sessions
    requires role in w.socks ==> w.socks[role] != c
    ensures NoStrayLocks(Request(w, c, role))
  {
    if role in w.socks {
      var p := w.socks[role];
      SameLocks(w.sessions[c], Join(w.sessions[c], p));
      SameLocks(w.sessions[p], Join(w.sessions[p], c));
      TwoTidy(w, c, Join(w.sessions[c], p), p, Join(w.sessions[p], c));
    }
  }

  lemma AnswerTidyExactlyWhen(R: TradeRelation, w: World, c: nat, role: nat, accept: bool)
    requires Safe(R, w) && NoStrayLocks(w) && c in w.sessions && NamesOwnPartner(w, c, role)
    ensures NoStrayLocks(Response(w, c, role, accept)) <==> !AnswerStrays(w, c, role, accept)
  {
    LeaveTidies(w.sessions[c]);
    if role !in w.socks {
      OneTidy(w, c, Leave(w.sessions[c]));
    } else {
      var p := w.socks[role];
      LeaveTidies(w.sessions[p]);
      TwoTidy(w, c, Leave(w.sessions[c]), p, Leave(w.sessions[p]));
    }
  }

  lemma OfferTidyExactlyWhen(R: TradeRelation, w: World, c: nat, kind: OfferKind, o: Stack)
    requires Safe(R, w) && NoStrayLocks(w) && c in w.sessions && o.pos < SLOT_COUNT
    requires |w.sessions[c].bag.slots| == SLOT_COUNT
    ensures NoStrayLocks(OfferGoods(w, c, kind, o)) <==> !OfferStrays(w.sessions[c], kind, o)
  {
    var s := w.sessions[c];
    ChangeOfferStraysExactlyWhen(s, kind, o);
    ReleaseTidies(ChangeOffer(s, kind, o));
    OneTidy(w, c, ChangeOffer(s, kind, o));
    OneTidy(w, c, Release(ChangeOffer(s, kind, o)));
  }

  lemma MoneyAndLocksAreTidy(w: World, c: nat, moneyType: nat, count: nat)
    requires NoStrayLocks(w) && c in w.sessions && (HasPartner(w, c) ==> PartnerOf(w, c) != c)
    ensures NoStrayLocks(OfferMoney(w, c, moneyType, count)) && NoStrayLocks(Lock(w, c)) && NoStrayLocks(Unlock(w, c))
  {
    var s := w.sessions[c];
    ReleaseTidies(s);
    OneTidy(w, c, Release(s));
    OneTidy(w, c, s.(trade := s.trade.(moneyType := moneyType, moneyCount := count)));
    OneTidy(w, c, s.(trade := s.trade.(isLocked := true)));
    if HasPartner(w, c) {
      var p := PartnerOf(w, c);
      SameLocks(w.sessions[p], UnlockTrade(w.sessions[p]));
      SameLocks(s, UnlockTrade(s));
      TwoTidy(w, c, UnlockTrade(s), p, UnlockTrade(w.sessions[p]));
    }
  }

  lemma CheckIsTidy(R: TradeRelation, w: World, c: nat)
    requires Safe(R, w) && NoStrayLocks(w) && c in w.sessions && CanTrade(w.sessions[c])
    requires HasPartner(w, c) ==> CanTrade(w.sessions[PartnerOf(w, c)])
    ensures NoStrayLocks(Check(w, c))
  {
    var s := w.sessions[c];
    ReleaseTidies(s);
    OneTidy(w, c, Release(s));
    OneTidy(w, c, s.(trade := s.trade.(isChangeChecked := true)));
    if HasPartner(w, c) {
      var p := PartnerOf(w, c);
      var t := w.sessions[p];
      assert PairedAt(w, c);
      var purses := SwapMoney(s, t);
      ReleaseTidies(t);
      TradedIsTidy(s, t.trade.changes, purses.0);
      TradedIsTidy(t, s.trade.changes, purses.1);
      TwoTidy(w, c, Release(s), p, Release(t));
      TwoTidy(w, c, Traded(s, t.trade.changes, purses.0), p, Traded(t, s.trade.changes, purses.1));
    }
  }

  lemma LeavingTidyExactlyWhen(R: TradeRelation, w: World, c: nat)
    requires Safe(R, w) && NoStrayLocks(w) && c in w.sessions
    ensures NoStrayLocks(Cancel(w, c)) <==> HasPartner(w, c) || w.sessions[c].trade.changes == []
    ensures NoStrayLocks(CancelRequest(w, c)) <==>
              && w.sessions[c].trade.changes == []
              && (HasPartner(w, c) ==> w.sessions[PartnerOf(w, c)].trade.changes == [])
  {
    var s := w.sessions[c];
    LeaveTidies(s);
    OneTidy(w, c, Leave(s));
    if HasPartner(w, c) {
      var p := PartnerOf(w, c);
      assert PairedAt(w, c);
      ReleaseTidies(s);
      ReleaseTidies(w.sessions[p]);
      LeaveTidies(w.sessions[p]);
      TwoTidy(w, c, Release(s), p, Release(w.sessions[p]));
      TwoTidy(w, c, Leave(s), p, Leave(w.sessions[p]));
    }
  }

  lemma MoveIsTidy(w: World, c: nat, g: nat, from: nat, to: nat, n: nat)
    requires NoStrayLocks(w) && c in w.sessions && |w.sessions[c].bag.slots| == SLOT_COUNT && Capped(w.sessions[c].bag)
    requires from < SLOT_COUNT && to < SLOT_COUNT
    ensures NoStrayLocks(MoveWithin(w, c, g, from, to, n))
  {
    OneTidy(w, c, MoveWithin(w, c, g, from, to, n).sessions[c]);
  }

  lemma NewBagTidyExactlyWhen(s: Session)
    requires s.trade.changes == []
    ensures NoStrayLock(s) <==> Locked !in s.bag.slots
  {
    assert forall p :: !Offered([], p);
  }

  // The messages that leave a slot locked and not offered.

  predicate AnswerStrays(w: World, c: nat, role: nat, accept: bool)
    requires c in w.sessions && forall r :: r in w.socks ==> w.socks[r] in w.sessions
  {
    if role !in w.socks then w.sessions[c].trade.changes != []
    else !accept && (w.sessions[c].trade.changes != [] || w.sessions[w.socks[role]].trade.changes != [])
  }

  predicate OfferStrays(s: Session, kind: OfferKind, o: Stack) {
    && FindExact(StacksOf(s.bag.goods, o.goodsId), o, 0) < |StacksOf(s.bag.goods, o.goodsId)|
    && kind != Add && FindAt(s.trade.changes, o.pos, 0) == |s.trade.changes|
  }

  /** Rejecting, withdrawing, and cancelling alone with something on offer; withdrawing an offer that was never
      made; and a bag that comes with locks. */
  ghost predicate Strays(R: TradeRelation, w: World, c: nat, m: Message)
    requires Safe(R, w) && Legal(R, w, c, m)
  {
    match m
    case Answers(role, accept) => AnswerStrays(w, c, role, accept)
    case OffersGoods(kind, o) => OfferStrays(w.sessions[c], kind, o)
    case Cancels => !HasPartner(w, c) && w.sessions[c].trade.changes != []
    case CancelsRequest =>
      w.sessions[c].trade.changes != [] || (HasPartner(w, c) && w.sessions[PartnerOf(w, c)].trade.changes != [])
    case DoesBusiness(bag, _, _) => !w.sessions[c].trade.isInchange && Locked in bag.slots
    case LogsIn(s) => Locked in s.bag.slots
    case _ => false
  }

  lemma ArrangingIsTidy(w: World, c: nat, o: Orders, waiting: seq<Change>)
    requires NoStrayLocks(w) && c in w.sessions && Meets(o, w.sessions[c].bag)
    ensures NoStrayLocks(ArrangeWithin(w, c, o, waiting))
  {
    OneTidy(w, c, ArrangeWithin(w, c, o, waiting).sessions[c]);
  }

  lemma BusinessTidyExactlyWhen(w: World, c: nat, bag: Bag, purse: Purse, rows: Table)
    requires NoStrayLocks(w) && c in w.sessions
    requires !w.sessions[c].trade.isInchange ==> w.sessions[c].trade.changes == []
    ensures NoStrayLocks(Business(w, c, bag, purse, rows)) <==> w.sessions[c].trade.isInchange || Locked !in bag.slots
  {
    var s := w.sessions[c].(bag := bag, purse := purse, rows := rows);
    if !s.trade.isInchange {
      NewBagTidyExactlyWhen(s);
      OneTidy(w, c, s);
    }
  }

  lemma ComingAndGoingTidyExactlyWhen(w: World, c: nat, s: Session)
    requires NoStrayLocks(w)
    ensures c !in w.sessions && s.trade.changes == [] ==> (NoStrayLocks(Login(w, c, s)) <==> Locked !in s.bag.slots)
    ensures c in w.sessions ==> NoStrayLocks(Logout(w, c))
  {
    if c !in w.sessions && s.trade.changes == [] {
      NewBagTidyExactlyWhen(s);
      assert Login(w, c, s).sessions[c] == s;
    }
  }

  /** Exactly these messages leave a stray lock. */
  lemma StepStraysExactlyWhen(R: TradeRelation, w: World, c: nat, m: Message)
    requires Safe(R, w) && Legal(R, w, c, m) && NoStrayLocks(w)
    ensures NoStrayLocks(Step(R, w, c, m)) <==> !Strays(R, w, c, m)
  {
    if !m.LogsIn? {
      assert PairedAt(w, c) && Sane(R, w.sessions[c]);
    }
    match m
    case Asks(role) => RequestIsTidy(w, c, role);
    case Answers(role, accept) => AnswerTidyExactlyWhen(R, w, c, role, accept);
    case OffersMoney(moneyType, count) => MoneyAndLocksAreTidy(w, c, moneyType, count);
    case OffersGoods(kind, o) => OfferTidyExactlyWhen(R, w, c, kind, o);
    case Locks => MoneyAndLocksAreTidy(w, c, 0, 0);
    case Unlocks => MoneyAndLocksAreTidy(w, c, 0, 0);
    case Confirms => CheckIsTidy(R, w, c);
    case Cancels => LeavingTidyExactlyWhen(R, w, c);
    case CancelsRequest => LeavingTidyExactlyWhen(R, w, c);
    case Moves(g, from, to, n) => MoveIsTidy(w, c, g, from, to, n);
    case Arranges(o, waiting) => ArrangingIsTidy(w, c, o, waiting);
    case DoesBusiness(bag, purse, rows) => BusinessTidyExactlyWhen(w, c, bag, purse, rows);
    case LogsIn(s) => ComingAndGoingTidyExactlyWhen(w, c, s);
    case LogsOut => ComingAndGoingTidyExactlyWhen(w, c, w.sessions[c]);
  }

  /** A run without them. */
  ghost predicate TidyRun(R: TradeRelation, w: World, run: seq<(nat, Message)>, end: World)
    decreases |run|
  {
    if run == [] then end == w
    else
      && Safe(R, w) && Legal(R, w, run[0].0, run[0].1) && !Strays(R, w, run[0].0, run[0].1)
      && TidyRun(R, Step(R, w, run[0].0, run[0].1), run[1..], end)
  }

  /** It never leaves a slot locked that is not on offer. */
  lemma {:induction false} TidyRunLeavesNoStrayLock(R: TradeRelation, w: World, run: seq<(nat, Message)>, end: World)
    requires NoStrayLocks(w) && TidyRun(R, w, run, end)
    ensures NoStrayLocks(end)
    decreases |run|
  {
    if run != [] {
      StepStraysExactlyWhen(R, w, run[0].0, run[0].1);
      TidyRunLeavesNoStrayLock(R, Step(R, w, run[0].0, run[0].1), run[1..], end);
    }
  }

  // ----- What a careless message breaks -----

  /** Asking for a trade keeps links mutual unless a player who is not trading asks itself. */
  lemma RequestIsSafeExactlyWhen(R: TradeRelation, w: World, c: nat, role: nat)
    requires Safe(R, w) && c in w.sessions
    ensures Safe(R, Request(w, c, role)) <==>
            !(role in w.socks && w.socks[role] == c && !w.sessions[c].trade.isInchange)
  {
    if role in w.socks && w.socks[role] == c {
      if !w.sessions[c].trade.isInchange {
        var w' := Request(w, c, role);
        assert w'.sessions[c].trade.partner == Partner(c);
        assert HasPartner(w', c) && PartnerOf(w', c) == c;
      }
    } else {
      RequestIsSafe(R, w, c, role);
    }
  }

  lemma BrokenLink(R: TradeRelation, w: World, x: nat, y: nat)
    requires x in w.sessions && y in w.sessions && w.sessions[x].trade.partner == Partner(y)
             && w.sessions[y].trade.partner == Nobody
    ensures !Safe(R, w)
  {
    assert HasPartner(w, x) && PartnerOf(w, x) == y;
  }

  lemma AnswerAlone(R: TradeRelation, w: World, c: nat)
    requires Safe(R, w) && c in w.sessions
    ensures Safe(R, With(w, c, Leave(w.sessions[c]))) <==> !HasPartner(w, c)
  {
    if HasPartner(w, c) {
      assert PairedAt(w, c);
      BrokenLink(R, With(w, c, Leave(w.sessions[c])), PartnerOf(w, c), c);
    } else {
      LeaveIsSane(R, w.sessions[c]);
      OneChanged(R, w, c, Leave(w.sessions[c]));
    }
  }

  lemma RejectingOther(R: TradeRelation, w: World, c: nat, role: nat)
    requires Safe(R, w) && c in w.sessions && role in w.socks && w.socks[role] != c
    ensures Safe(R, Response(w, c, role, false)) <==> Alone(w, c, w.socks[role])
  {
    var p := w.socks[role];
    var w' := Response(w, c, role, false);
    if Alone(w, c, p) {
      ResponseIsSafe(R, w, c, role, false);
    } else if HasPartner(w, c) && PartnerOf(w, c) != p {
      assert PairedAt(w, c);
      BrokenLink(R, w', PartnerOf(w, c), c);
    } else {
      assert PairedAt(w, p);
      BrokenLink(R, w', PartnerOf(w, p), p);
    }
  }

  /** Which answers keep links mutual. */
  predicate AnswersWell(w: World, c: nat, role: nat, accept: bool)
    requires c in w.sessions && forall r :: r in w.socks ==> w.socks[r] in w.sessions
  {
    if role !in w.socks then !HasPartner(w, c)
    else accept || if w.socks[role] == c then !HasPartner(w, c) else Alone(w, c, w.socks[role])
  }

  /** An answer that names nobody online must come from a player without a connected partner, and so must a
      rejection that names the sender; any other rejection must take nobody out of a trade with a third. */
  lemma AnswerIsSafeExactlyWhen(R: TradeRelation, w: World, c: nat, role: nat, accept: bool)
    requires Safe(R, w) && c in w.sessions
    ensures Safe(R, Response(w, c, role, accept)) <==> AnswersWell(w, c, role, accept)
  {
    if role !in w.socks {
      AnswerAlone(R, w, c);
    } else if !accept {
      if w.socks[role] == c {
        var w1 := With(w, c, Leave(w.sessions[c]));
        assert With(w1, c, Leave(w1.sessions[c])) == w1;
        AnswerAlone(R, w, c);
      } else {
        RejectingOther(R, w, c, role);
      }
    }
  }

  /** An offer of goods that stack is safe exactly when it is not forged: when it comes under its own type, or
      is not put on the list. */
  lemma OfferIsSafeExactlyWhen(R: TradeRelation, w: World, c: nat, kind: OfferKind, o: Stack)
    requires Fitting(R) && Safe(R, w) && c in w.sessions && o.pos < |w.sessions[c].bag.slots|
    ensures Safe(R, OfferGoods(w, c, kind, o)) <==> !Forged(w, c, kind, o)
  {
    if Forged(w, c, kind, o) {
      var s' := OfferGoods(w, c, kind, o).sessions[c];
      assert s'.trade.changes[|w.sessions[c].trade.changes|] == o;
      assert o in s'.trade.changes && !IsGoods(o);
    } else {
      OfferGoodsIsSafe(R, w, c, kind, o);
    }
  }

  /** The forged type goes to the other side with the goods: its bag then agrees with no rows at all. */
  lemma ForgedOfferNeverAgrees(b: Bag, o: Stack)
    requires |b.slots| == SLOT_COUNT && !Honest(o)
    ensures forall t :: !Agrees(TakeOffer(b, o).bag, t)
  {
    var r := TakeOffer(b, o).bag;
    var v := r.goods[o.goodsId];
    forall t
      ensures !Agrees(r, t)
    {
      assert v[|v| - 1].typeId == o.typeId;
      assert Agrees(r, t) ==> VectorAgrees(v, o.goodsId, t);
    }
  }

  // ----- Arranging the bag in the middle of a trade -----

  /** Arranging forgets the locks, and lets go of the offers with them. */
  lemma ArrangingFreesOffers(b: Bag, o: Orders, offers: seq<Stack>)
    requires Meets(o, b) && OffersHeld(b, offers)
    ensures OffersHeld(ArrangedBag(b, o).bag, offers) <==> offers == []
  {
    if offers != [] {
      assert ArrangedBag(b, o).bag.slots[offers[0].pos] != Locked;
    }
  }

  /** It is safe exactly for a player who offers nothing, and when it goes well. */
  lemma ArrangingIsSafeExactlyWhen(w: World, c: nat, o: Orders, waiting: seq<Change>)
    requires Safe(Agreement(), w) && c in w.sessions && Meets(o, w.sessions[c].bag)
    ensures Safe(Agreement(), ArrangeWithin(w, c, o, waiting)) <==>
            w.sessions[c].trade.changes == [] && GoesWell(w.sessions[c].bag, o, waiting)
  {
    var s := w.sessions[c];
    var w' := ArrangeWithin(w, c, o, waiting);
    assert Sane(Agreement(), s);
    ArrangingInStepExactlyWhen(s.bag, s.rows, o, waiting);
    ArrangingFreesOffers(s.bag, o, s.trade.changes);
    if Safe(Agreement(), w') {
      assert Sane(Agreement(), w'.sessions[c]);
    } else if s.trade.changes == [] && Agreement()(w'.sessions[c].bag, w'.sessions[c].rows) {
      AgreementIsFitting();
      ArrangingIsSafe(Agreement(), w, c, o, waiting);
    }
  }

  /** A stack that has moved away from the slot it was offered in is given to the other side and kept. */
  lemma MovedOfferIsDoubled(b: Bag, other: Bag, o: Stack)
    requires |b.slots| == |other.slots| == SLOT_COUNT && o.pos < SLOT_COUNT && o.goodsId in b.goods
    requires b.goods[o.goodsId] != [] && FindAt(b.goods[o.goodsId], o.pos, 0) == |b.goods[o.goodsId]|
    ensures SwapGoods(b, [o], []).bag.goods == b.goods
    ensures var g := o.goodsId;
            Total(StacksOf(SwapGoods(other, [], [o]).bag.goods, g)) == Total(StacksOf(other.goods, g)) + o.count
  {
    assert DropOffers(b, [o]).bag == DropOffers(DropOffer(b, o).bag, []).bag;
    TakeOfferPutsIn(other, o, o.goodsId, 0);
    assert TakeOffers(other, [o]).bag == TakeOffers(TakeOffer(other, o).bag, []).bag;
  }

  /** Such as the only stack of a bag, offered in any slot but the first, once the bag has been arranged. */
  lemma ArrangedOfferIsDoubled(g: nat, n: nat, p: nat, last: nat, other: Bag)
    requires g < EQUIPMENT_ID && 1 <= n <= MAX_STACK && 2 <= p < SLOT_COUNT && |other.slots| == SLOT_COUNT
    ensures var o := Stack(g, g, n, p);
            var slots := seq(SLOT_COUNT, i => if i == p then Locked else Empty);
            var b := ArrangedBag(Bag(map[g := [o]], map[], slots, last), Orders([], [g])).bag;
            && Total(StacksOf(SwapGoods(b, [o], []).bag.goods, g)) == n
            && Total(StacksOf(SwapGoods(other, [], [o]).bag.goods, g)) == Total(StacksOf(other.goods, g)) + n
  {
    var o, moved := Stack(g, g, n, p), Stack(g, g, n, 1);
    var goods := map[g := [o]];
    var r := Arrange(goods, [g], 1, map[]);
    ArrangeFirst(goods, [g], 1, map[]);
    assert Compact([o], 1) == [moved];
    assert r.goods == map[g := [moved]];
    var b := Bag(r.goods, map[], EquipmentArrangement.Filled(r.next), last);
    var none: map<nat, Stack> := map[];
    assert none + none == none;
    MovedOfferIsDoubled(b, other, o);
    assert Total([moved]) == n + Total([]);
  }
}
