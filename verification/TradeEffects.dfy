// What each message of a trade brings about, and that a whole trade goes through.
module TradeEffects {
  import opened GoodsBag
  import opened BagEdits
  import opened BagOperations
  import opened BagCounts
  import opened Trade
  import opened TradeCommit
  import opened TradeSafety
  import opened TradeRuns
  import opened TradeLocks
  import BagEffects

  // ----- Offering and withdrawing goods -----

  /** The bag has a stack of these goods in this slot, with this count. */
  ghost predicate Has(b: Bag, o: Stack) {
    var v := StacksOf(b.goods, o.goodsId);
    exists i :: 0 <= i < |v| && v[i].pos == o.pos && v[i].count == o.count
  }

  /** Such a stack is on the list. */
  ghost predicate Lists(offers: seq<Stack>, o: Stack) {
    exists i :: 0 <= i < |offers| && offers[i].pos == o.pos && offers[i].count == o.count
                && offers[i].goodsId == o.goodsId
  }

  lemma FoundExactlyWhen(s: Session, o: Stack)
    ensures Has(s.bag, o) <==> FindExact(StacksOf(s.bag.goods, o.goodsId), o, 0) < |StacksOf(s.bag.goods, o.goodsId)|
    ensures Offered(s.trade.changes, o.pos) <==> FindAt(s.trade.changes, o.pos, 0) < |s.trade.changes|
    ensures Lists(s.trade.changes, o) <==> FindOffer(s.trade.changes, o, 0) < |s.trade.changes|
  {
  }

  /** The offers are these, and the slot has this mark. */
  function Offering(s: Session, offers: seq<Stack>, p: nat, mark: Slot): Session
    requires p < |s.bag.slots|
  {
    s.(bag := s.bag.(slots := s.bag.slots[p := mark]), trade := s.trade.(changes := offers))
  }

  /** A stack of the bag that is not on offer is put at the end of the list, and its slot is locked; nothing
      else happens to anybody. */
  lemma AddPutsOnTheList(w: World, c: nat, o: Stack)
    requires c in w.sessions && HasPartner(w, c) && o.pos < |w.sessions[c].bag.slots|
    requires Has(w.sessions[c].bag, o) && !Offered(w.sessions[c].trade.changes, o.pos)
    ensures var s := w.sessions[c];
            OfferGoods(w, c, Add, o) == With(w, c, Offering(s, s.trade.changes + [o], o.pos, Locked))
  {
    FoundExactlyWhen(w.sessions[c], o);
  }

  lemma OfferedIsLocked(s: Session, o: Stack)
    requires OffersHeld(s.bag, s.trade.changes) && o.pos < |s.bag.slots| && Offered(s.trade.changes, o.pos)
    ensures ChangeOffer(s, Add, o) == s
  {
    var i :| 0 <= i < |s.trade.changes| && s.trade.changes[i].pos == o.pos;
    FoundExactlyWhen(s, o);
    assert s.trade.changes[i] in s.trade.changes;
    assert s.bag.slots[o.pos := Locked] == s.bag.slots;
  }

  /** An offer has an effect exactly when the stack is in the bag and not on offer already. */
  lemma AddHasEffectExactlyWhen(R: TradeRelation, w: World, c: nat, o: Stack)
    requires Safe(R, w) && c in w.sessions && HasPartner(w, c) && o.pos < |w.sessions[c].bag.slots|
    ensures OfferGoods(w, c, Add, o) != w <==>
            Has(w.sessions[c].bag, o) && !Offered(w.sessions[c].trade.changes, o.pos)
  {
    var s := w.sessions[c];
    FoundExactlyWhen(s, o);
    if Has(s.bag, o) && !Offered(s.trade.changes, o.pos) {
      AddPutsOnTheList(w, c, o);
      assert OfferGoods(w, c, Add, o).sessions[c].trade.changes == s.trade.changes + [o];
    } else if Has(s.bag, o) {
      OfferedIsLocked(s, o);
      WithTwice(w, c, s, s);
    }
  }

  /** Exactly the offer of slot p has gone. */
  ghost predicate TakenOff(offers: seq<Stack>, rest: seq<Stack>, p: nat) {
    && |rest| == |offers| - 1 && !Offered(rest, p)
    && exists o: Stack :: o.pos == p && multiset(offers) == multiset(rest) + multiset{o}
  }

  lemma RemovedIsTakenOff(offers: seq<Stack>, i: nat)
    requires i < |offers| && DistinctSlots(offers)
    ensures TakenOff(offers, RemoveAt(offers, i), offers[i].pos)
    ensures multiset(offers) == multiset(RemoveAt(offers, i)) + multiset{offers[i]}
  {
    assert offers == offers[..i] + [offers[i]] + offers[i + 1..];
  }

  lemma WithdrawnIsOffering(s: Session, o: Stack, i: nat)
    requires o.pos < |s.bag.slots| && i < |s.trade.changes| && i == FindOffer(s.trade.changes, o, 0)
    ensures ChangeOffer(s, Remove, o) == Offering(s, RemoveAt(s.trade.changes, i), o.pos, NonEmpty)
  {
    assert s.bag.slots[o.pos := Locked][o.pos := NonEmpty] == s.bag.slots[o.pos := NonEmpty];
  }

  /** A stack of the bag that is listed is taken off at its first place, and its slot is in use again. */
  lemma RemoveFirstListed(w: World, c: nat, o: Stack)
    requires c in w.sessions && HasPartner(w, c) && o.pos < |w.sessions[c].bag.slots|
    requires Has(w.sessions[c].bag, o) && Lists(w.sessions[c].trade.changes, o)
    ensures var s := w.sessions[c];
            var i := FindOffer(s.trade.changes, o, 0);
            i < |s.trade.changes|
            && OfferGoods(w, c, Remove, o) == With(w, c, Offering(s, RemoveAt(s.trade.changes, i), o.pos, NonEmpty))
  {
    var s := w.sessions[c];
    FoundExactlyWhen(s, o);
    WithdrawnIsOffering(s, o, FindOffer(s.trade.changes, o, 0));
  }

  /** Withdrawing an offer takes it off the list and leaves the others, its slot is in use again, and nothing
      else happens to anybody. */
  lemma RemoveTakesOff(R: TradeRelation, w: World, c: nat, o: Stack)
    requires Safe(R, w) && c in w.sessions && HasPartner(w, c) && o.pos < |w.sessions[c].bag.slots|
    requires Lists(w.sessions[c].trade.changes, o)
    ensures var s := w.sessions[c];
            exists rest :: TakenOff(s.trade.changes, rest, o.pos)
                           && OfferGoods(w, c, Remove, o) == With(w, c, Offering(s, rest, o.pos, NonEmpty))
  {
    var s := w.sessions[c];
    ListedIsThere(s, o);
    RemoveFirstListed(w, c, o);
    RemovedIsTakenOff(s.trade.changes, FindOffer(s.trade.changes, o, 0));
  }

  lemma ListedIsThere(s: Session, o: Stack)
    requires OffersHeld(s.bag, s.trade.changes) && Lists(s.trade.changes, o)
    ensures Has(s.bag, o)
  {
    var i :| 0 <= i < |s.trade.changes| && s.trade.changes[i].pos == o.pos && s.trade.changes[i].count == o.count
             && s.trade.changes[i].goodsId == o.goodsId;
    assert s.trade.changes[i] in s.trade.changes;
    assert StacksOf(s.bag.goods, o.goodsId)[FindAt(StacksOf(s.bag.goods, o.goodsId), o.pos, 0)].count == o.count;
  }

  /** Withdrawing what is not on the list leaves the list. */
  lemma RemoveOthersLeavesTheList(w: World, c: nat, o: Stack)
    requires c in w.sessions && o.pos < |w.sessions[c].bag.slots| && !Lists(w.sessions[c].trade.changes, o)
    ensures OfferGoods(w, c, Remove, o).sessions[c].trade == w.sessions[c].trade
  {
    FoundExactlyWhen(w.sessions[c], o);
  }

  lemma LastIsFound(offers: seq<Stack>, o: Stack)
    requires !Offered(offers, o.pos)
    ensures FindOffer(offers + [o], o, 0) == |offers| && Lists(offers + [o], o)
    ensures RemoveAt(offers + [o], |offers|) == offers
  {
    assert (offers + [o])[|offers|] == o;
    forall j | 0 <= j < |offers|
      ensures (offers + [o])[j].pos != o.pos
    {
      assert offers[j].pos != o.pos;
    }
  }

  lemma RestoredExactlyWhen(s: Session, offers: seq<Stack>, p: nat)
    requires p < |s.bag.slots|
    ensures var s1 := Offering(s, offers, p, Locked);
            Offering(s1, s.trade.changes, p, NonEmpty) == s <==> s.bag.slots[p] == NonEmpty
  {
    var s2 := Offering(Offering(s, offers, p, Locked), s.trade.changes, p, NonEmpty);
    assert s2.bag.slots == s.bag.slots[p := NonEmpty];
    assert s2.bag.slots[p] == NonEmpty;
  }

  lemma WithTwice(w: World, c: nat, s: Session, u: Session)
    requires c in w.sessions
    ensures With(With(w, c, s), c, u) == With(w, c, u)
    ensures With(w, c, u) == w <==> u == w.sessions[c]
  {
    assert With(w, c, u).sessions[c] == u;
  }

  /** Offering a stack and withdrawing it again leaves everything as it was, exactly when its slot was in use
      and not locked. */
  lemma AddThenRemoveRestoresExactlyWhen(w: World, c: nat, o: Stack)
    requires c in w.sessions && HasPartner(w, c) && o.pos < |w.sessions[c].bag.slots|
    requires Has(w.sessions[c].bag, o) && !Offered(w.sessions[c].trade.changes, o.pos)
    ensures OfferGoods(OfferGoods(w, c, Add, o), c, Remove, o) == w <==> w.sessions[c].bag.slots[o.pos] == NonEmpty
  {
    var s := w.sessions[c];
    var offers := s.trade.changes + [o];
    var s1 := Offering(s, offers, o.pos, Locked);
    AddPutsOnTheList(w, c, o);
    LastIsFound(s.trade.changes, o);
    RemoveFirstListed(With(w, c, s1), c, o);
    WithTwice(w, c, s1, Offering(s1, s.trade.changes, o.pos, NonEmpty));
    RestoredExactlyWhen(s, offers, o.pos);
  }

  lemma TakenOffPutBack(s: Session, o: Stack, i: nat)
    requires OffersHeld(s.bag, s.trade.changes) && i < |s.trade.changes| && s.trade.changes[i] == o
    ensures !Offered(RemoveAt(s.trade.changes, i), o.pos)
    ensures multiset(RemoveAt(s.trade.changes, i) + [o]) == multiset(s.trade.changes)
    ensures s.bag.slots[o.pos := NonEmpty][o.pos := Locked] == s.bag.slots
  {
    assert o in s.trade.changes;
    RemovedIsTakenOff(s.trade.changes, i);
  }

  lemma ListedAt(offers: seq<Stack>, i: nat)
    requires DistinctSlots(offers) && i < |offers|
    ensures Lists(offers, offers[i]) && FindOffer(offers, offers[i], 0) == i
  {
    assert offers[i].pos == offers[i].pos;
  }

  /** Withdrawing an offer and making it again only moves it to the end of the list. */
  lemma RemoveThenAddMovesToTheEnd(R: TradeRelation, w: World, c: nat, i: nat)
    requires Safe(R, w) && c in w.sessions && HasPartner(w, c) && i < |w.sessions[c].trade.changes|
    requires w.sessions[c].trade.changes[i].pos < |w.sessions[c].bag.slots|
    ensures var s, o := w.sessions[c], w.sessions[c].trade.changes[i];
            var offers := RemoveAt(s.trade.changes, i) + [o];
            && multiset(offers) == multiset(s.trade.changes)
            && OfferGoods(OfferGoods(w, c, Remove, o), c, Add, o)
                 == With(w, c, s.(trade := s.trade.(changes := offers)))
  {
    var s, o := w.sessions[c], w.sessions[c].trade.changes[i];
    ListedAt(s.trade.changes, i);
    ListedIsThere(s, o);
    RemoveFirstListed(w, c, o);
    TakenOffPutBack(s, o, i);
    var s1 := Offering(s, RemoveAt(s.trade.changes, i), o.pos, NonEmpty);
    AddPutsOnTheList(With(w, c, s1), c, o);
    WithTwice(w, c, s1, Offering(s1, RemoveAt(s.trade.changes, i) + [o], o.pos, Locked));
  }

  // ----- Joining, money, locks -----

  /** In a trade with p, with nothing offered, locked or confirmed. */
  predicate JustJoined(i: Interchange, p: nat) {
    && i.isInchange && i.partner == Partner(p) && i.changes == [] && i.moneyCount == 0
    && !i.isLocked && !i.isChangeChecked
  }

  /** Only what is said of the trade of c, and of p, may differ. */
  ghost predicate OnlyTrades(w: World, w': World, c: nat, p: nat) {
    && w'.socks == w.socks && w'.sessions.Keys == w.sessions.Keys
    && forall x :: x in w.sessions ==>
         if x == c || x == p then w'.sessions[x] == w.sessions[x].(trade := w'.sessions[x].trade)
         else w'.sessions[x] == w.sessions[x]
  }

  /** A request for a trade joins two players who are free, and otherwise does nothing. */
  lemma RequestJoinsExactlyWhen(R: TradeRelation, w: World, c: nat, p: nat)
    requires Safe(R, w) && c in w.sessions && p in w.sessions && c != p
    ensures var w' := Request(w, c, w.sessions[p].role);
            if w.sessions[c].trade.isInchange || w.sessions[p].trade.isInchange then w' == w
            else OnlyTrades(w, w', c, p)
                 && JustJoined(w'.sessions[c].trade, p) && JustJoined(w'.sessions[p].trade, c)
  {
    assert w.socks[w.sessions[p].role] == p;
  }

  /** Asking for a role that is not online does nothing. */
  lemma RequestOfNobody(w: World, c: nat, role: nat)
    requires c in w.sessions && role !in w.socks && forall r :: r in w.socks ==> w.socks[r] in w.sessions
    ensures Request(w, c, role) == w
  {
  }

  /** An accepting answer of a joined player changes nothing; a rejection takes both out of the trade. Slots
      stay as they are in either case. */
  lemma AnswerEndsExactlyWhen(R: TradeRelation, w: World, c: nat, p: nat, accept: bool)
    requires Safe(R, w) && c in w.sessions && p in w.sessions && c != p
    ensures var w' := Response(w, c, w.sessions[p].role, accept);
            && OnlyTrades(w, w', c, p)
            && if accept then w' == w else Idle(w'.sessions[c].trade) && Idle(w'.sessions[p].trade)
  {
    assert w.socks[w.sessions[p].role] == p;
  }

  /** The purse has an entry for this type of money, and enough of it. */
  predicate HasMoney(purse: Purse, moneyType: nat, count: nat) {
    moneyType in purse && count <= purse[moneyType]
  }

  /** An offer of money with a connected partner is recorded with its type and count when the balance of that
      type covers it, in place of any earlier one; an offer that is not covered changes nothing. */
  lemma MoneyIsRecordedExactlyWhen(w: World, c: nat, moneyType: nat, count: nat)
    requires c in w.sessions && HasPartner(w, c)
    ensures var w' := OfferMoney(w, c, moneyType, count);
            var i, i' := w.sessions[c].trade, w'.sessions[c].trade;
            && OnlyTrades(w, w', c, c)
            && if HasMoney(w.sessions[c].purse, moneyType, count) then
                 && i'.moneyType == moneyType && i'.moneyCount == count
                 && i == i'.(moneyType := i.moneyType, moneyCount := i.moneyCount)
               else w' == w
  {
  }

  /** Locking locks the own side, and nothing else. */
  lemma LockLocks(w: World, c: nat)
    requires c in w.sessions && HasPartner(w, c)
    ensures var w' := Lock(w, c);
            var i, i' := w.sessions[c].trade, w'.sessions[c].trade;
            && OnlyTrades(w, w', c, c) && i'.isLocked && i == i'.(isLocked := i.isLocked)
            && Lock(w', c) == w'
  {
    var locked := w.sessions[c].(trade := w.sessions[c].trade.(isLocked := true));
    WithTwice(w, c, locked, locked);
  }

  /** Unlocking undoes both locks when the other side has confirmed; it has no effect on a side that is locked
      and waits. */
  lemma UnlockWorksExactlyWhen(R: TradeRelation, w: World, c: nat)
    requires Safe(R, w) && c in w.sessions && HasPartner(w, c) && w.sessions[c].trade.isLocked
    ensures var w' := Unlock(w, c);
            var p := PartnerOf(w, c);
            && OnlyTrades(w, w', c, p)
            && (!w'.sessions[c].trade.isLocked <==> w.sessions[p].trade.isChangeChecked)
            && (!w'.sessions[c].trade.isLocked ==>
                  !w'.sessions[p].trade.isLocked
                  && !w'.sessions[c].trade.isChangeChecked && !w'.sessions[p].trade.isChangeChecked)
            && (w'.sessions[c].trade.isLocked ==> w' == w)
            && w'.sessions[c].trade.changes == w.sessions[c].trade.changes
            && w'.sessions[p].trade.changes == w.sessions[p].trade.changes
  {
    assert PairedAt(w, c);
  }

  // ----- Confirming -----

  /** Out of the trade, with what was on offer in use again and all other slots, goods and money as they were. */
  ghost predicate GivenBack(s: Session, s': Session) {
    && Idle(s'.trade) && SameGoods(s, s') && s'.role == s.role && |s'.bag.slots| == |s.bag.slots|
    && forall p :: 0 <= p < |s.bag.slots| ==>
         s'.bag.slots[p] == if Offered(s.trade.changes, p) then NonEmpty else s.bag.slots[p]
  }

  lemma ReleaseGivesBack(s: Session)
    ensures GivenBack(s, Release(s))
  {
    var offers := s.trade.changes;
    UnlockAllSlots(s.bag.slots, offers);
    forall p | 0 <= p < |s.bag.slots|
      ensures Release(s).bag.slots[p] == if Offered(offers, p) then NonEmpty else s.bag.slots[p]
    {
      if Offered(offers, p) {
        var i :| 0 <= i < |offers| && offers[i].pos == p;
        assert offers[i] in offers;
      }
    }
  }

  /** With both sides locked the first confirmation is recorded, and nothing else happens. */
  lemma FirstConfirmationWaits(R: TradeRelation, w: World, c: nat)
    requires Safe(R, w) && c in w.sessions && CanTrade(w.sessions[c]) && HasPartner(w, c)
    requires CanTrade(w.sessions[PartnerOf(w, c)]) && !w.sessions[PartnerOf(w, c)].trade.isChangeChecked
    ensures var w' := Check(w, c);
            var i, i' := w.sessions[c].trade, w'.sessions[c].trade;
            && OnlyTrades(w, w', c, c) && i == i'.(isChangeChecked := i.isChangeChecked)
            && (i'.isChangeChecked <==> i.isLocked && w.sessions[PartnerOf(w, c)].trade.isLocked)
  {
    assert PairedAt(w, c);
  }

  /** The second confirmation without enough room breaks the trade off, and both sides get everything back. */
  lemma NoRoomGivesBack(R: TradeRelation, w: World, c: nat)
    requires Safe(R, w) && c in w.sessions && CanTrade(w.sessions[c]) && HasPartner(w, c)
    requires var p := PartnerOf(w, c);
             && CanTrade(w.sessions[p]) && w.sessions[c].trade.isLocked && w.sessions[p].trade.isChangeChecked
             && !Fits(w.sessions[c], w.sessions[p])
    ensures var w' := Check(w, c);
            var p := PartnerOf(w, c);
            && w'.sessions.Keys == w.sessions.Keys
            && GivenBack(w.sessions[c], w'.sessions[c]) && GivenBack(w.sessions[p], w'.sessions[p])
            && forall x :: x in w.sessions && x != c && x != p ==> w'.sessions[x] == w.sessions[x]
  {
    assert PairedAt(w, c);
    ReleaseGivesBack(w.sessions[c]);
    ReleaseGivesBack(w.sessions[PartnerOf(w, c)]);
  }

  /** Whatever is sent after the other side has gone, the trade is over and everything is given back. */
  lemma PartnerGoneGivesBack(w: World, c: nat, moneyType: nat, count: nat)
    requires c in w.sessions && CanTrade(w.sessions[c]) && !HasPartner(w, c)
    ensures forall w' :: w' in {OfferMoney(w, c, moneyType, count), Lock(w, c), Unlock(w, c), Check(w, c)} ==>
              w'.sessions.Keys == w.sessions.Keys && GivenBack(w.sessions[c], w'.sessions[c])
              && forall x :: x in w.sessions && x != c ==> w'.sessions[x] == w.sessions[x]
  {
    ReleaseGivesBack(w.sessions[c]);
  }

  /** So does offering another stack, whose slot is in use again too. */
  lemma PartnerGoneGivesOfferBack(w: World, c: nat, o: Stack)
    requires c in w.sessions && !HasPartner(w, c) && o.pos < |w.sessions[c].bag.slots|
    requires Has(w.sessions[c].bag, o) && !Offered(w.sessions[c].trade.changes, o.pos)
    ensures var s := w.sessions[c];
            GivenBack(Offering(s, s.trade.changes + [o], o.pos, Locked), OfferGoods(w, c, Add, o).sessions[c])
  {
    var s := w.sessions[c];
    FoundExactlyWhen(s, o);
    ReleaseGivesBack(Offering(s, s.trade.changes + [o], o.pos, Locked));
  }

  // ----- Coming, going, and business -----

  /** Who logs in is there with its session, and logging out at once leaves everything as it was. */
  lemma LogoutUndoesLogin(w: World, c: nat, s: Session)
    requires c !in w.sessions && s.role !in w.socks
    ensures var w' := Login(w, c, s);
            && w'.sessions.Keys == w.sessions.Keys + {c} && w'.sessions[c] == s && w'.socks[s.role] == c
            && Logout(w', c) == w
  {
    var w' := Logout(Login(w, c, s), c);
    assert w'.sessions == w.sessions && w'.socks == w.socks;
  }

  /** Business that changes anything gets done exactly when the player is not trading. */
  lemma BusinessIsDoneExactlyWhen(w: World, c: nat, bag: Bag, purse: Purse, rows: Table)
    requires c in w.sessions && w.sessions[c].(bag := bag, purse := purse, rows := rows) != w.sessions[c]
    ensures Business(w, c, bag, purse, rows) != w <==> !w.sessions[c].trade.isInchange
    ensures !w.sessions[c].trade.isInchange ==>
            var s' := Business(w, c, bag, purse, rows).sessions[c];
            s'.bag == bag && s'.purse == purse && s'.rows == rows
  {
    WithTwice(w, c, w.sessions[c], w.sessions[c].(bag := bag, purse := purse, rows := rows));
  }

  /** A move of goods during a trade goes over as outside one, and touches nothing but the bag and its rows. */
  lemma MoveWithinGoesOver(R: TradeRelation, w: World, c: nat, g: nat, from: nat, to: nat, n: nat)
    requires Fitting(R) && Safe(R, w) && c in w.sessions && |w.sessions[c].bag.slots| == SLOT_COUNT
    requires from < SLOT_COUNT && to < SLOT_COUNT && CanMove(w.sessions[c].bag, g, from, to, n)
    ensures var s, s' := w.sessions[c], MoveWithin(w, c, g, from, to, n).sessions[c];
            && BagEffects.MovedOver(StacksOf(s.bag.goods, g), StacksOf(s'.bag.goods, g), from, to, n,
                                    s'.bag.slots != s.bag.slots)
            && s' == s.(bag := s'.bag, rows := s'.rows)
            && s'.bag == s.bag.(goods := s.bag.goods[g := StacksOf(s'.bag.goods, g)], slots := s'.bag.slots)
  {
    assert Regular(w.sessions[c].bag, g);
    BagEffects.MoveGoesOver(w.sessions[c].bag, g, from, to, n);
  }
}
