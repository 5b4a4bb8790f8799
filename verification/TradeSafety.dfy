// What every step of the trade protocol keeps, whatever the players send.
module TradeSafety {
  import opened GoodsBag
  import opened BagEdits
  import opened BagOperations
  import opened BagAgreement
  import opened BagCounts
  import opened Trade
  import opened TradeCommit

  type TradeRelation = (Bag, Table) -> bool

  // ----- What the relation between bag and rows must allow -----

  ghost predicate SameUse(slots: seq<Slot>, labelled: seq<Slot>) {
    |labelled| == |slots| && forall p :: 0 <= p < |slots| ==> (slots[p] == Empty <==> labelled[p] == Empty)
  }

  /** Locking and unlocking slots in use does not matter to it. */
  ghost predicate SurvivesLabels(R: TradeRelation) {
    forall b, t, slots :: R(b, t) && SameUse(b.slots, slots) ==> R(b.(slots := slots), t)
  }

  /** The stacks of a vector, each in its own slot, which is in use. */
  ghost predicate Regular(b: Bag, g: nat) {
    var v := StacksOf(b.goods, g);
    && |b.slots| == SLOT_COUNT
    && (forall i :: 0 <= i < |v| ==>
          IsGoods(v[i]) && v[i].goodsId == g && 1 <= v[i].pos < SLOT_COUNT && b.slots[v[i].pos] != Empty)
    && forall i, j :: 0 <= i < j < |v| ==> v[i].pos != v[j].pos
  }

  ghost predicate Exposes(R: TradeRelation) {
    forall b, t, g :: R(b, t) ==> Regular(b, g)
  }

  ghost predicate Fitting(R: TradeRelation) {
    SurvivesEdits(R) && SurvivesLabels(R) && Exposes(R)
  }

  lemma AgreementIsFitting()
    ensures Fitting(Agreement())
  {
    AgreementSurvivesEdits();
    forall b, t, slots | Agrees(b, t) && SameUse(b.slots, slots)
      ensures Agrees(b.(slots := slots), t)
    {
      LabelsDoNotMatter(b, t, slots);
    }
    forall b, t, g | Agrees(b, t)
      ensures Regular(b, g)
    {
      AgreementIsRegular(b, t, g);
    }
  }

  lemma LabelsDoNotMatter(b: Bag, t: Table, slots: seq<Slot>)
    requires Agrees(b, t) && SameUse(b.slots, slots)
    ensures Agrees(b.(slots := slots), t)
  {
  }

  lemma AgreementIsRegular(b: Bag, t: Table, g: nat)
    requires Agrees(b, t)
    ensures Regular(b, g)
  {
  }

  // ----- The invariant -----

  /** Not trading: nothing is left of an earlier trade. */
  predicate Idle(i: Interchange) {
    !i.isInchange && !i.isLocked && !i.isChangeChecked && i.partner == Nobody && i.changes == [] && i.moneyCount == 0
  }

  /** Bag and rows are related, no stack exceeds the cap and no balance 32 bits, every offer is a stack in a
      locked slot with its exact count, no slot is offered twice, the money offered is there, and who has
      confirmed is locked. */
  ghost predicate Backed(R: TradeRelation, s: Session) {
    && R(s.bag, s.rows) && Capped(s.bag) && InWords(s.purse) && OffersHeld(s.bag, s.trade.changes) && MoneyHeld(s)
    && (s.trade.isChangeChecked ==> s.trade.isLocked)
  }

  /** A session by itself. */
  ghost predicate Sane(R: TradeRelation, s: Session) {
    Backed(R, s) && if s.trade.isInchange then s.trade.partner.Partner? else Idle(s.trade)
  }

  /** Two sides of a trade: each names the other, and a side that has confirmed finds the other locked and
      still to confirm. */
  predicate Paired(s: Session, c: nat, t: Session, p: nat) {
    && c != p && s.trade.partner == Partner(p) && t.trade.partner == Partner(c)
    && (s.trade.isChangeChecked ==> t.trade.isLocked && !t.trade.isChangeChecked)
    && (t.trade.isChangeChecked ==> s.trade.isLocked && !s.trade.isChangeChecked)
  }

  ghost predicate AllPaired(w: World) {
    forall c :: c in w.sessions && HasPartner(w, c) ==>
      Paired(w.sessions[c], c, w.sessions[PartnerOf(w, c)], PartnerOf(w, c))
  }

  ghost predicate SocksAgree(w: World) {
    && (forall r :: r in w.socks ==> w.socks[r] in w.sessions && w.sessions[w.socks[r]].role == r)
    && forall c :: c in w.sessions ==> w.sessions[c].role in w.socks && w.socks[w.sessions[c].role] == c
  }

  ghost predicate Safe(R: TradeRelation, w: World) {
    (forall c :: c in w.sessions ==> Sane(R, w.sessions[c])) && AllPaired(w) && SocksAgree(w)
  }

  // ----- Changing one side or both -----

  ghost predicate PairedAt(w: World, x: nat)
    requires x in w.sessions
  {
    HasPartner(w, x) ==> Paired(w.sessions[x], x, w.sessions[PartnerOf(w, x)], PartnerOf(w, x))
  }

  /** A pair that nobody touched. */
  lemma StillPaired(w: World, w': World, x: nat)
    requires x in w.sessions && PairedAt(w, x) && x in w'.sessions && w'.sessions[x] == w.sessions[x]
    requires HasPartner(w', x) ==>
             PartnerOf(w', x) in w.sessions && w'.sessions[PartnerOf(w', x)] == w.sessions[PartnerOf(w', x)]
    ensures PairedAt(w', x)
  {
  }

  lemma OnePaired(w: World, c: nat, s: Session)
    requires AllPaired(w) && c in w.sessions
    requires if HasPartner(w, c) then Paired(s, c, w.sessions[PartnerOf(w, c)], PartnerOf(w, c))
             else s.trade.partner == Nobody || s.trade.partner == w.sessions[c].trade.partner
    ensures AllPaired(With(w, c, s))
  {
    var w' := With(w, c, s);
    forall x | x in w'.sessions
      ensures PairedAt(w', x)
    {
      if x != c {
        assert PairedAt(w, x);
        if w.sessions[x].trade.partner != Partner(c) {
          StillPaired(w, w', x);
        }
      }
    }
  }

  lemma SocksStillAgree(w: World, c: nat, s: Session)
    requires SocksAgree(w) && c in w.sessions && s.role == w.sessions[c].role
    ensures SocksAgree(With(w, c, s))
  {
  }

  lemma OneChanged(R: TradeRelation, w: World, c: nat, s: Session)
    requires Safe(R, w) && c in w.sessions && Sane(R, s) && s.role == w.sessions[c].role
    requires if HasPartner(w, c) then Paired(s, c, w.sessions[PartnerOf(w, c)], PartnerOf(w, c))
             else s.trade.partner == Nobody || s.trade.partner == w.sessions[c].trade.partner
    ensures Safe(R, With(w, c, s))
  {
    OnePaired(w, c, s);
    SocksStillAgree(w, c, s);
  }

  /** Neither side is in a trade with a third that is connected. */
  predicate Alone(w: World, c: nat, p: nat)
    requires c in w.sessions && p in w.sessions
  {
    (HasPartner(w, c) ==> PartnerOf(w, c) == p) && (HasPartner(w, p) ==> PartnerOf(w, p) == c)
  }

  lemma TwoPaired(w: World, c: nat, s: Session, p: nat, t: Session)
    requires AllPaired(w) && c in w.sessions && p in w.sessions && c != p && Alone(w, c, p)
    requires Paired(s, c, t, p) || (s.trade.partner == Nobody && t.trade.partner == Nobody)
    ensures AllPaired(With(With(w, c, s), p, t))
  {
    var w' := With(With(w, c, s), p, t);
    forall x | x in w'.sessions
      ensures PairedAt(w', x)
    {
      if x != c && x != p {
        assert PairedAt(w, x);
        assert w.sessions[x].trade.partner != Partner(c) && w.sessions[x].trade.partner != Partner(p);
        StillPaired(w, w', x);
      }
    }
  }

  lemma TwoChanged(R: TradeRelation, w: World, c: nat, s: Session, p: nat, t: Session)
    requires Safe(R, w) && c in w.sessions && p in w.sessions && c != p && Alone(w, c, p)
    requires Sane(R, s) && s.role == w.sessions[c].role && Sane(R, t) && t.role == w.sessions[p].role
    requires Paired(s, c, t, p) || (s.trade.partner == Nobody && t.trade.partner == Nobody)
    ensures Safe(R, With(With(w, c, s), p, t))
  {
    TwoPaired(w, c, s, p, t);
    SocksStillAgree(w, c, s);
    SocksStillAgree(With(w, c, s), p, t);
  }

  // ----- One session -----

  /** Unlocking sets exactly the offered slots to in use. */
  lemma {:induction false} UnlockAllSlots(slots: seq<Slot>, offers: seq<Stack>)
    ensures var r := UnlockAll(slots, offers);
            && (forall o :: o in offers && o.pos < |slots| ==> r[o.pos] == NonEmpty)
            && forall p :: 0 <= p < |slots| ==>
                 r[p] == slots[p] || (r[p] == NonEmpty && exists o :: o in offers && o.pos == p)
    decreases |offers|
  {
    if offers != [] {
      var first := if offers[0].pos < |slots| then slots[offers[0].pos := NonEmpty] else slots;
      UnlockAllSlots(first, offers[1..]);
      assert offers[0] in offers;
      forall p | 0 <= p < |slots|
        ensures UnlockAll(slots, offers)[p] == slots[p]
                || (UnlockAll(slots, offers)[p] == NonEmpty && exists o :: o in offers && o.pos == p)
      {
        if p == offers[0].pos && UnlockAll(slots, offers)[p] == first[p] {
          assert offers[0].pos == p;
        } else if UnlockAll(slots, offers)[p] != first[p] {
          var o :| o in offers[1..] && o.pos == p;
          assert o in offers;
        }
      }
    }
  }

  lemma UnlockKeepsUse(b: Bag, offers: seq<Stack>)
    requires OffersHeld(b, offers)
    ensures SameUse(b.slots, UnlockAll(b.slots, offers))
  {
    UnlockAllSlots(b.slots, offers);
  }

  lemma LeaveIsSane(R: TradeRelation, s: Session)
    requires Sane(R, s)
    ensures Sane(R, Leave(s)) && Idle(Leave(s).trade)
  {
  }

  lemma ReleaseIsSane(R: TradeRelation, s: Session)
    requires Fitting(R) && Backed(R, s)
    ensures Sane(R, Release(s)) && Idle(Release(s).trade)
  {
    UnlockKeepsUse(s.bag, s.trade.changes);
  }

  lemma {:induction false} FindExactIsFirst(v: seq<Stack>, o: Stack, k: nat)
    requires k <= |v| && FindExact(v, o, k) < |v|
    requires forall i, j :: 0 <= i < j < |v| ==> v[i].pos != v[j].pos
    ensures FindAt(v, o.pos, k) == FindExact(v, o, k)
    decreases |v| - k
  {
    if v[k].pos != o.pos {
      FindExactIsFirst(v, o, k + 1);
    }
  }

  /** The type that a client sends with the goods is their number. */
  predicate Honest(o: Stack) {
    o.typeId == o.goodsId
  }

  lemma {:induction false} FindExactSame(v: seq<Stack>, o: Stack, u: Stack, k: nat)
    requires k <= |v| && u.pos == o.pos && u.count == o.count
    ensures FindExact(v, u, k) == FindExact(v, o, k)
    decreases |v| - k
  {
    if k < |v| {
      FindExactSame(v, o, u, k + 1);
    }
  }

  lemma {:induction false} FindOfferSame(offers: seq<Stack>, o: Stack, u: Stack, k: nat)
    requires k <= |offers| && u == o.(typeId := u.typeId)
    ensures FindOffer(offers, u, k) == FindOffer(offers, o, k)
    decreases |offers| - k
  {
    if k < |offers| {
      FindOfferSame(offers, o, u, k + 1);
    }
  }

  lemma {:induction false} UnlockAllSame(slots: seq<Slot>, offers: seq<Stack>, o: Stack, u: Stack)
    requires u.pos == o.pos
    ensures UnlockAll(slots, offers + [u]) == UnlockAll(slots, offers + [o])
    decreases |offers|
  {
    if offers == [] {
      assert offers + [u] == [u] && offers + [o] == [o];
    } else {
      var first := if offers[0].pos < |slots| then slots[offers[0].pos := NonEmpty] else slots;
      assert (offers + [u])[1..] == offers[1..] + [u] && (offers + [o])[1..] == offers[1..] + [o];
      UnlockAllSame(first, offers[1..], o, u);
    }
  }

  /** Nobody checks the type: an offer is forged when it comes with another and is put on the list. */
  predicate Forged(w: World, c: nat, kind: OfferKind, o: Stack)
    requires c in w.sessions
  {
    var v, offers := StacksOf(w.sessions[c].bag.goods, o.goodsId), w.sessions[c].trade.changes;
    && !Honest(o) && kind == Add && HasPartner(w, c)
    && FindExact(v, o, 0) < |v| && FindAt(offers, o.pos, 0) == |offers|
  }

  /** Otherwise the type makes no difference. */
  lemma TypeDoesNotMatter(w: World, c: nat, kind: OfferKind, o: Stack)
    requires c in w.sessions && o.pos < |w.sessions[c].bag.slots| && !Forged(w, c, kind, o)
    ensures OfferGoods(w, c, kind, o) == OfferGoods(w, c, kind, o.(typeId := o.goodsId))
  {
    var u := o.(typeId := o.goodsId);
    var s := w.sessions[c];
    FindExactSame(StacksOf(s.bag.goods, o.goodsId), o, u, 0);
    FindOfferSame(s.trade.changes, o, u, 0);
    UnlockAllSame(s.bag.slots[o.pos := Locked], s.trade.changes, o, u);
  }

  /** The offered stack is in the bag. */
  lemma FoundIsHeld(R: TradeRelation, s: Session, o: Stack)
    requires Fitting(R) && Backed(R, s) && Honest(o)
    requires FindExact(StacksOf(s.bag.goods, o.goodsId), o, 0) < |StacksOf(s.bag.goods, o.goodsId)|
    ensures Held(s.bag.goods, o) && IsGoods(o) && 1 <= o.pos < SLOT_COUNT && s.bag.slots[o.pos] != Empty
  {
    assert Regular(s.bag, o.goodsId);
    FindExactIsFirst(StacksOf(s.bag.goods, o.goodsId), o, 0);
  }

  lemma AddIsHeld(b: Bag, offers: seq<Stack>, o: Stack)
    requires OffersHeld(b, offers) && Held(b.goods, o) && IsGoods(o) && 1 <= o.pos < SLOT_COUNT
    requires FindAt(offers, o.pos, 0) == |offers|
    ensures OffersHeld(b.(slots := b.slots[o.pos := Locked]), offers + [o])
  {
  }

  lemma LockedIsHeld(b: Bag, offers: seq<Stack>, p: nat)
    requires OffersHeld(b, offers) && p < SLOT_COUNT
    ensures OffersHeld(b.(slots := b.slots[p := Locked]), offers)
  {
  }

  lemma RemoveIsHeld(b: Bag, offers: seq<Stack>, i: nat)
    requires OffersHeld(b, offers) && i < |offers|
    ensures OffersHeld(b.(slots := b.slots[offers[i].pos := NonEmpty]), RemoveAt(offers, i))
  {
    var rest := RemoveAt(offers, i);
    forall o | o in rest
      ensures o in offers && o.pos != offers[i].pos
    {
      var k :| 0 <= k < |rest| && rest[k] == o;
      assert o == offers[if k < i then k else k + 1];
    }
  }

  lemma ChangeOfferKeepsHeld(s: Session, kind: OfferKind, o: Stack)
    requires OffersHeld(s.bag, s.trade.changes)
    requires Held(s.bag.goods, o) && IsGoods(o) && 1 <= o.pos < SLOT_COUNT
    ensures OffersHeld(ChangeOffer(s, kind, o).bag, ChangeOffer(s, kind, o).trade.changes)
  {
    var offers := s.trade.changes;
    if kind == Add && FindAt(offers, o.pos, 0) == |offers| {
      AddIsHeld(s.bag, offers, o);
    } else if kind == Remove && FindOffer(offers, o, 0) < |offers| {
      RemoveIsHeld(s.bag, offers, FindOffer(offers, o, 0));
      assert s.bag.slots[o.pos := Locked][o.pos := NonEmpty] == s.bag.slots[o.pos := NonEmpty];
    } else {
      LockedIsHeld(s.bag, offers, o.pos);
    }
  }

  lemma ChangeOfferKeepsUse(s: Session, kind: OfferKind, o: Stack)
    requires o.pos < |s.bag.slots| && s.bag.slots[o.pos] != Empty
    ensures SameUse(s.bag.slots, ChangeOffer(s, kind, o).bag.slots)
    ensures ChangeOffer(s, kind, o).bag == s.bag.(slots := ChangeOffer(s, kind, o).bag.slots)
  {
  }

  lemma ChangeOfferIsBacked(R: TradeRelation, s: Session, kind: OfferKind, o: Stack)
    requires Fitting(R) && Backed(R, s) && Honest(o) && o.pos < |s.bag.slots|
    requires FindExact(StacksOf(s.bag.goods, o.goodsId), o, 0) < |StacksOf(s.bag.goods, o.goodsId)|
    ensures Backed(R, ChangeOffer(s, kind, o))
  {
    FoundIsHeld(R, s, o);
    ChangeOfferKeepsHeld(s, kind, o);
    ChangeOfferKeepsUse(s, kind, o);
  }

  // ----- The cap over a swap -----

  ghost predicate OffersCapped(offers: seq<Stack>) {
    forall o :: o in offers ==> o.count <= MAX_STACK
  }

  lemma HeldAreCapped(b: Bag, offers: seq<Stack>)
    requires OffersHeld(b, offers) && Capped(b)
    ensures OffersCapped(offers)
  {
    forall o | o in offers
      ensures o.count <= MAX_STACK
    {
      assert b.goods[o.goodsId][FindAt(b.goods[o.goodsId], o.pos, 0)].count == o.count;
    }
  }

  lemma {:induction false} DropOffersKeepsCap(b: Bag, offers: seq<Stack>)
    requires OffersHeld(b, offers) && Capped(b)
    ensures Capped(DropOffers(b, offers).bag)
    decreases |offers|
  {
    if offers != [] {
      OffersHeldRest(b, offers);
      DropOffersKeepsCap(DropOffer(b, offers[0]).bag, offers[1..]);
    }
  }

  lemma {:induction false} TakeOffersKeepsCap(b: Bag, offers: seq<Stack>)
    requires |b.slots| == SLOT_COUNT && Capped(b) && OffersCapped(offers)
    ensures Capped(TakeOffers(b, offers).bag)
    decreases |offers|
  {
    if offers != [] {
      TakeOffersKeepsCap(TakeOffer(b, offers[0]).bag, offers[1..]);
    }
  }

  /** No stack exceeds the cap after a swap. */
  lemma SwapKeepsCap(b: Bag, own: seq<Stack>, others: seq<Stack>)
    requires OffersHeld(b, own) && Capped(b) && OffersCapped(others)
    ensures Capped(SwapGoods(b, own, others).bag)
  {
    DropOffersKeepsCap(b, own);
    TakeOffersKeepsCap(DropOffers(b, own).bag, others);
  }

  lemma {:induction false} TakeOffersKeepsSlots(b: Bag, offers: seq<Stack>)
    requires |b.slots| == SLOT_COUNT
    ensures |TakeOffers(b, offers).bag.slots| == SLOT_COUNT
    decreases |offers|
  {
    if offers != [] {
      TakeOffersKeepsSlots(TakeOffer(b, offers[0]).bag, offers[1..]);
    }
  }

  lemma SwapKeepsSlots(b: Bag, own: seq<Stack>, others: seq<Stack>)
    requires OffersHeld(b, own)
    ensures |SwapGoods(b, own, others).bag.slots| == SLOT_COUNT
  {
    TakeOffersKeepsSlots(DropOffers(b, own).bag, others);
  }

  /** Out of the trade, with a bag and rows that are related. */
  lemma IdleIsSane(R: TradeRelation, s: Session, bag: Bag, rows: Table)
    requires R(bag, rows) && s.bag == bag && s.rows == rows && |bag.slots| == SLOT_COUNT && Idle(s.trade)
    requires Capped(bag) && InWords(s.purse)
    ensures Sane(R, s)
  {
  }

  /** After the swap each side is idle, with bag and rows related. */
  lemma TradedIsSane(R: TradeRelation, s: Session, t: Session, purse: Purse)
    requires Fitting(R) && Backed(R, s) && Backed(R, t) && InWords(purse)
    requires |s.trade.changes| + EmptyCount(s.bag.slots) >= |t.trade.changes|
    ensures CanTrade(s) && Sane(R, Traded(s, t.trade.changes, purse)) && Idle(Traded(s, t.trade.changes, purse).trade)
  {
    var r := SwapGoods(s.bag, s.trade.changes, t.trade.changes);
    SwapGoodsKeeps(R, s.bag, s.rows, s.trade.changes, t.trade.changes);
    SwapKeepsSlots(s.bag, s.trade.changes, t.trade.changes);
    HeldAreCapped(t.bag, t.trade.changes);
    SwapKeepsCap(s.bag, s.trade.changes, t.trade.changes);
    IdleIsSane(R, Traded(s, t.trade.changes, purse), r.bag, ApplyAll(s.rows, r.changes));
  }

  // ----- The steps -----

  lemma RequestIsSafe(R: TradeRelation, w: World, c: nat, role: nat)
    requires Safe(R, w) && c in w.sessions && (role in w.socks ==> w.socks[role] != c)
    ensures Safe(R, Request(w, c, role))
  {
    if !w.sessions[c].trade.isInchange && role in w.socks && !w.sessions[w.socks[role]].trade.isInchange {
      var p := w.socks[role];
      TwoChanged(R, w, c, Join(w.sessions[c], p), p, Join(w.sessions[p], c));
    }
  }

  /** A rejection names the other side of the trade it rejects, or nobody else's. */
  ghost predicate NamesOwnPartner(w: World, c: nat, role: nat)
    requires c in w.sessions && forall r :: r in w.socks ==> w.socks[r] in w.sessions
  {
    if role in w.socks then w.socks[role] != c && Alone(w, c, w.socks[role]) else !HasPartner(w, c)
  }

  lemma ResponseIsSafe(R: TradeRelation, w: World, c: nat, role: nat, accept: bool)
    requires Safe(R, w) && c in w.sessions && NamesOwnPartner(w, c, role)
    ensures Safe(R, Response(w, c, role, accept))
  {
    LeaveIsSane(R, w.sessions[c]);
    if role !in w.socks {
      OneChanged(R, w, c, Leave(w.sessions[c]));
    } else if !accept {
      var p := w.socks[role];
      LeaveIsSane(R, w.sessions[p]);
      TwoChanged(R, w, c, Leave(w.sessions[c]), p, Leave(w.sessions[p]));
    }
  }

  lemma OfferMoneyIsSafe(R: TradeRelation, w: World, c: nat, moneyType: nat, count: nat)
    requires Fitting(R) && Safe(R, w) && c in w.sessions
    ensures Safe(R, OfferMoney(w, c, moneyType, count))
  {
    var s := w.sessions[c];
    if !HasPartner(w, c) {
      ReleaseIsSane(R, s);
      OneChanged(R, w, c, Release(s));
    } else if moneyType in s.purse && s.purse[moneyType] >= count {
      OneChanged(R, w, c, s.(trade := s.trade.(moneyType := moneyType, moneyCount := count)));
    }
  }

  lemma OfferGoodsIsSafe(R: TradeRelation, w: World, c: nat, kind: OfferKind, o: Stack)
    requires Fitting(R) && Safe(R, w) && c in w.sessions && o.pos < |w.sessions[c].bag.slots|
    requires !Forged(w, c, kind, o)
    ensures Safe(R, OfferGoods(w, c, kind, o))
  {
    TypeDoesNotMatter(w, c, kind, o);
    HonestOfferIsSafe(R, w, c, kind, o.(typeId := o.goodsId));
  }

  lemma HonestOfferIsSafe(R: TradeRelation, w: World, c: nat, kind: OfferKind, o: Stack)
    requires Fitting(R) && Safe(R, w) && c in w.sessions && Honest(o) && o.pos < |w.sessions[c].bag.slots|
    ensures Safe(R, OfferGoods(w, c, kind, o))
  {
    var s := w.sessions[c];
    var v := StacksOf(s.bag.goods, o.goodsId);
    if FindExact(v, o, 0) < |v| {
      var s1 := ChangeOffer(s, kind, o);
      ChangeOfferIsBacked(R, s, kind, o);
      if EndsEarly(s, kind, o) || HasPartner(w, c) {
        OneChanged(R, w, c, s1);
      } else {
        ReleaseIsSane(R, s1);
        OneChanged(R, w, c, Release(s1));
      }
    }
  }

  lemma LockIsSafe(R: TradeRelation, w: World, c: nat)
    requires Fitting(R) && Safe(R, w) && c in w.sessions
    ensures Safe(R, Lock(w, c))
  {
    var s := w.sessions[c];
    if HasPartner(w, c) {
      OneChanged(R, w, c, s.(trade := s.trade.(isLocked := true)));
    } else {
      ReleaseIsSane(R, s);
      OneChanged(R, w, c, Release(s));
    }
  }

  lemma UnlockIsSafe(R: TradeRelation, w: World, c: nat)
    requires Fitting(R) && Safe(R, w) && c in w.sessions
    ensures Safe(R, Unlock(w, c))
  {
    var s := w.sessions[c];
    if !HasPartner(w, c) {
      ReleaseIsSane(R, s);
      OneChanged(R, w, c, Release(s));
    } else {
      var p := PartnerOf(w, c);
      if w.sessions[p].trade.isChangeChecked {
        TwoChanged(R, w, c, UnlockTrade(s), p, UnlockTrade(w.sessions[p]));
      }
    }
  }

  lemma CancelIsSafe(R: TradeRelation, w: World, c: nat)
    requires Fitting(R) && Safe(R, w) && c in w.sessions
    ensures Safe(R, Cancel(w, c))
  {
    var s := w.sessions[c];
    if !HasPartner(w, c) {
      LeaveIsSane(R, s);
      OneChanged(R, w, c, Leave(s));
    } else {
      var p := PartnerOf(w, c);
      ReleaseIsSane(R, s);
      ReleaseIsSane(R, w.sessions[p]);
      TwoChanged(R, w, c, Release(s), p, Release(w.sessions[p]));
    }
  }

  lemma CancelRequestIsSafe(R: TradeRelation, w: World, c: nat)
    requires Fitting(R) && Safe(R, w) && c in w.sessions
    ensures Safe(R, CancelRequest(w, c))
  {
    var s := w.sessions[c];
    LeaveIsSane(R, s);
    if !HasPartner(w, c) {
      OneChanged(R, w, c, Leave(s));
    } else {
      var p := PartnerOf(w, c);
      LeaveIsSane(R, w.sessions[p]);
      TwoChanged(R, w, c, Leave(s), p, Leave(w.sessions[p]));
    }
  }

  lemma CommitIsSafe(R: TradeRelation, w: World, c: nat)
    requires Fitting(R) && Safe(R, w) && c in w.sessions && HasPartner(w, c)
    requires CanTrade(w.sessions[c]) && CanTrade(w.sessions[PartnerOf(w, c)])
    requires Fits(w.sessions[c], w.sessions[PartnerOf(w, c)])
    ensures Safe(R, Commit(w, c, PartnerOf(w, c)))
  {
    var p := PartnerOf(w, c);
    var s, t := w.sessions[c], w.sessions[p];
    var purses := SwapMoney(s, t);
    SwappedPursesInWords(s, t);
    TradedIsSane(R, s, t, purses.0);
    TradedIsSane(R, t, s, purses.1);
    TwoChanged(R, w, c, Traded(s, t.trade.changes, purses.0), p, Traded(t, s.trade.changes, purses.1));
  }

  lemma CheckIsSafe(R: TradeRelation, w: World, c: nat)
    requires Fitting(R) && Safe(R, w) && c in w.sessions
    requires CanTrade(w.sessions[c]) && (HasPartner(w, c) ==> CanTrade(w.sessions[PartnerOf(w, c)]))
    ensures Safe(R, Check(w, c))
  {
    var s := w.sessions[c];
    if !HasPartner(w, c) {
      ReleaseIsSane(R, s);
      OneChanged(R, w, c, Release(s));
    } else {
      var p := PartnerOf(w, c);
      var t := w.sessions[p];
      if s.trade.isLocked && t.trade.isLocked {
        if !t.trade.isChangeChecked {
          OneChanged(R, w, c, s.(trade := s.trade.(isChangeChecked := true)));
        } else if Fits(s, t) {
          CommitIsSafe(R, w, c);
        } else {
          ReleaseIsSane(R, s);
          ReleaseIsSane(R, t);
          TwoChanged(R, w, c, Release(s), p, Release(t));
        }
      }
    }
  }
}
