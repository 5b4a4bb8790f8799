// GameInterchange/gameinterchange.cpp in its own form: handlers that change the sessions step by step.
module GameInterchange {
  import opened GoodsBag
  import opened BagEdits
  import opened BagOperations
  import opened BagCounts
  import opened OperationGoods
  import opened Trade

  function AfterDrops(s: Session, offers: seq<Stack>): Session
    requires forall o :: o in offers ==> o.pos < |s.bag.slots|
  {
    var r := DropOffers(s.bag, offers);
    s.(bag := r.bag, rows := ApplyAll(s.rows, r.changes))
  }

  function AfterTakes(s: Session, offers: seq<Stack>): Session
    requires |s.bag.slots| == SLOT_COUNT
  {
    var r := TakeOffers(s.bag, offers);
    s.(bag := r.bag, rows := ApplyAll(s.rows, r.changes))
  }

  /** The bag after the swap: own offers out, the other side's in. */
  function AfterSwap(s: Session, others: seq<Stack>): Session
    requires CanTrade(s)
  {
    AfterTakes(AfterDrops(s, s.trade.changes), others)
  }

  function AfterChange(s: Session, c: Changed): Session {
    s.(bag := c.bag, rows := ApplyAll(s.rows, c.changes))
  }

  lemma DropsGoOn(s: Session, offers: seq<Stack>)
    requires offers != [] && forall o :: o in offers ==> o.pos < |s.bag.slots|
    ensures var s1 := AfterChange(s, DropOffer(s.bag, offers[0]));
            |s1.bag.slots| == |s.bag.slots| && AfterDrops(s, offers) == AfterDrops(s1, offers[1..])
  {
    var first := DropOffer(s.bag, offers[0]);
    ApplyAllConcat(s.rows, first.changes, DropOffers(first.bag, offers[1..]).changes);
  }

  lemma TakesGoOn(s: Session, offers: seq<Stack>)
    requires offers != [] && |s.bag.slots| == SLOT_COUNT
    ensures var s1 := AfterChange(s, TakeOffer(s.bag, offers[0]));
            |s1.bag.slots| == SLOT_COUNT && AfterTakes(s, offers) == AfterTakes(s1, offers[1..])
  {
    var first := TakeOffer(s.bag, offers[0]);
    ApplyAllConcat(s.rows, first.changes, TakeOffers(first.bag, offers[1..]).changes);
  }

  lemma ApplyOne(t: Table, c: Change)
    ensures ApplyAll(t, [c]) == Apply(t, c)
  {
    assert [c][1..] == [];
  }

  /** Four settings, one after the other, make both sides join. */
  lemma BothJoin(sessions: map<nat, Session>, c: nat, p: nat)
    requires c in sessions && p in sessions
    ensures var m1 := sessions[c := sessions[c].(trade := sessions[c].trade.(isInchange := true))];
            var m2 := m1[p := m1[p].(trade := m1[p].trade.(isInchange := true))];
            var m3 := m2[c := m2[c].(trade := m2[c].trade.(partner := Partner(p)))];
            var m4 := m3[p := m3[p].(trade := m3[p].trade.(partner := Partner(c)))];
            var j1 := sessions[c := Join(sessions[c], p)];
            m4 == j1[p := Join(j1[p], c)]
  {
  }

  class SessionMgr {
    var sessions: map<nat, Session>
    var socks: map<nat, nat>   // m_roleSock

    ghost function Value(): World
      reads this
    {
      World(sessions, socks)
    }

    constructor ()
      ensures Value() == World(map[], map[])
    {
      sessions, socks := map[], map[];
    }

    // ----- Interchange -----

    method Clear(c: nat)
      requires c in sessions
      modifies this`sessions
      ensures sessions == old(sessions)[c := Leave(old(sessions[c]))]
    {
      var i := sessions[c].trade;
      i := i.(isInchange := false);
      i := i.(isLocked := false);
      i := i.(isChangeChecked := false);
      i := i.(partner := Nobody);
      i := i.(changes := []);
      i := i.(moneyCount := 0);
      sessions := sessions[c := sessions[c].(trade := i)];
    }

    method SetSlot(c: nat, p: nat, slot: Slot)
      requires c in sessions
      modifies this`sessions
      ensures sessions == old(sessions)[c := var s := old(sessions[c]);
                s.(bag := s.bag.(slots := if p < |s.bag.slots| then s.bag.slots[p := slot] else s.bag.slots))]
    {
      var s := sessions[c];
      if p < |s.bag.slots| {
        sessions := sessions[c := s.(bag := s.bag.(slots := s.bag.slots[p := slot]))];
      } else {
        assert s.bag.(slots := s.bag.slots) == s.bag;
        assert s.(bag := s.bag) == s;
        assert sessions == sessions[c := s];
      }
    }

    /** The loop that marks every offered slot as in use. */
    method UnlockOffers(c: nat)
      requires c in sessions
      modifies this`sessions
      ensures sessions == old(sessions)[c := var s := old(sessions[c]);
                s.(bag := s.bag.(slots := UnlockAll(s.bag.slots, s.trade.changes)))]
    {
      ghost var s := sessions[c];
      var offers := sessions[c].trade.changes;
      assert offers[0..] == offers && sessions == sessions[c := s];
      for k := 0 to |offers|
        invariant c in sessions && sessions == old(sessions)[c := s.(bag := s.bag.(slots := sessions[c].bag.slots))]
        invariant UnlockAll(s.bag.slots, offers) == UnlockAll(sessions[c].bag.slots, offers[k..])
      {
        assert offers[k..][1..] == offers[k + 1..];
        SetSlot(c, offers[k].pos, NonEmpty);
      }
    }

    /** The slots are given back and the trade is over. */
    method ReleaseAndClear(c: nat)
      requires c in sessions
      modifies this`sessions
      ensures sessions == old(sessions)[c := Release(old(sessions[c]))]
    {
      UnlockOffers(c);
      Clear(c);
    }

    predicate PartnerOnline(c: nat)
      requires c in sessions
      reads this
    {
      sessions[c].trade.partner.Partner? && sessions[c].trade.partner.conn in sessions
    }

    ghost predicate SocksKnown()
      reads this
    {
      forall r :: r in socks ==> socks[r] in sessions
    }

    // ----- The handlers -----

    method OperRequest(c: nat, role: nat)
      requires c in sessions && SocksKnown()
      modifies this`sessions
      ensures Value() == Request(old(Value()), c, role)
    {
      if sessions[c].trade.isInchange || role !in socks {
        return;
      }
      var p := socks[role];
      if sessions[p].trade.isInchange {
        return;
      }
      SetInchange(c);
      SetInchange(p);
      SetPartner(c, p);
      SetPartner(p, c);
      BothJoin(old(sessions), c, p);
    }

    method SetInchange(c: nat)
      requires c in sessions
      modifies this`sessions
      ensures sessions == old(sessions)[c := var s := old(sessions[c]); s.(trade := s.trade.(isInchange := true))]
    {
      sessions := sessions[c := sessions[c].(trade := sessions[c].trade.(isInchange := true))];
    }

    method SetPartner(c: nat, p: nat)
      requires c in sessions
      modifies this`sessions
      ensures sessions == old(sessions)[c := var s := old(sessions[c]); s.(trade := s.trade.(partner := Partner(p)))]
    {
      sessions := sessions[c := sessions[c].(trade := sessions[c].trade.(partner := Partner(p)))];
    }

    method OperResponse(c: nat, role: nat, accept: bool)
      requires c in sessions && SocksKnown()
      modifies this`sessions
      ensures Value() == Response(old(Value()), c, role, accept)
    {
      if role !in socks {
        Clear(c);
        return;
      }
      var p := socks[role];
      if !accept {
        Clear(c);
        Clear(p);
      }
    }

    method OperMoneyChanges(c: nat, moneyType: nat, count: nat)
      requires c in sessions
      modifies this`sessions
      ensures Value() == OfferMoney(old(Value()), c, moneyType, count)
    {
      if !PartnerOnline(c) {
        ReleaseAndClear(c);
        return;
      }
      var s := sessions[c];
      if moneyType !in s.purse || s.purse[moneyType] < count {
        return;
      }
      s := s.(trade := s.trade.(moneyCount := count));
      s := s.(trade := s.trade.(moneyType := moneyType));
      sessions := sessions[c := s];
    }

    /** The search of operChanges over the stacks of the goods offered. */
    method FindStack(v: seq<Stack>, o: Stack) returns (i: nat)
      ensures i == FindExact(v, o, 0)
    {
      i := 0;
      while i < |v|
        invariant i <= |v| && FindExact(v, o, 0) == FindExact(v, o, i)
      {
        if v[i].pos == o.pos && v[i].count == o.count {
          return;
        }
        i := i + 1;
      }
    }

    method FindOffered(offers: seq<Stack>, o: Stack) returns (i: nat)
      ensures i == FindOffer(offers, o, 0)
    {
      i := 0;
      while i < |offers|
        invariant i <= |offers| && FindOffer(offers, o, 0) == FindOffer(offers, o, i)
      {
        if offers[i].pos == o.pos && offers[i].count == o.count && offers[i].goodsId == o.goodsId {
          return;
        }
        i := i + 1;
      }
    }

    method SetOffers(c: nat, offers: seq<Stack>)
      requires c in sessions
      modifies this`sessions
      ensures sessions == old(sessions)[c := var s := old(sessions[c]); s.(trade := s.trade.(changes := offers))]
    {
      sessions := sessions[c := sessions[c].(trade := sessions[c].trade.(changes := offers))];
    }

    /** The list of offers after the stack has been found and locked; early says whether the handler ends here. */
    method EditOffers(c: nat, kind: OfferKind, o: Stack) returns (early: bool)
      requires c in sessions && o.pos < |sessions[c].bag.slots|
      modifies this`sessions
      ensures sessions == old(sessions)[c := ChangeOffer(old(sessions[c]), kind, o)]
      ensures early == EndsEarly(old(sessions[c]), kind, o)
    {
      SetSlot(c, o.pos, Locked);
      var offers := sessions[c].trade.changes;
      match kind
      case Add =>
        var i := FindPosition(offers, o.pos);
        if i < |offers| {
          return true;
        }
        SetOffers(c, offers + [o]);
        return false;
      case Remove =>
        var i := FindOffered(offers, o);
        if i == |offers| {
          return true;
        }
        SetOffers(c, RemoveAt(offers, i));
        SetSlot(c, o.pos, NonEmpty);
        return false;
      case Other =>
        return false;
    }

    method OperChanges(c: nat, kind: OfferKind, o: Stack)
      requires c in sessions && o.pos < |sessions[c].bag.slots|
      modifies this`sessions
      ensures Value() == OfferGoods(old(Value()), c, kind, o)
    {
      if o.goodsId !in sessions[c].bag.goods {
        return;
      }
      var i := FindStack(sessions[c].bag.goods[o.goodsId], o);
      if i == |sessions[c].bag.goods[o.goodsId]| {
        return;
      }
      var early := EditOffers(c, kind, o);
      if !early {
        if !PartnerOnline(c) {
          ReleaseAndClear(c);
        }
      }
    }

    method OperProLock(c: nat)
      requires c in sessions
      modifies this`sessions
      ensures Value() == Lock(old(Value()), c)
    {
      sessions := sessions[c := sessions[c].(trade := sessions[c].trade.(isLocked := true))];
      if !PartnerOnline(c) {
        ReleaseAndClear(c);
      }
    }

    /** Interchange::unlock */
    method UnlockSide(c: nat)
      requires c in sessions
      modifies this`sessions
      ensures sessions == old(sessions)[c := UnlockTrade(old(sessions[c]))]
    {
      sessions := sessions[c := sessions[c].(trade := sessions[c].trade.(isLocked := false))];
      sessions := sessions[c := sessions[c].(trade := sessions[c].trade.(isChangeChecked := false))];
    }

    method OperProUnlock(c: nat)
      requires c in sessions
      modifies this`sessions
      ensures Value() == Unlock(old(Value()), c)
    {
      if !PartnerOnline(c) {
        ReleaseAndClear(c);
        return;
      }
      var p := sessions[c].trade.partner.conn;
      if sessions[p].trade.isChangeChecked {
        UnlockSide(c);
        UnlockSide(p);
      }
    }

    method OperProCancelChange(c: nat)
      requires c in sessions
      modifies this`sessions
      ensures Value() == Cancel(old(Value()), c)
    {
      if !PartnerOnline(c) {
        Clear(c);
        return;
      }
      var p := sessions[c].trade.partner.conn;
      ReleaseAndClear(c);
      ReleaseAndClear(p);
    }

    method OperProCancelRequest(c: nat)
      requires c in sessions
      modifies this`sessions
      ensures Value() == CancelRequest(old(Value()), c)
    {
      if !PartnerOnline(c) {
        Clear(c);
        return;
      }
      var p := sessions[c].trade.partner.conn;
      Clear(c);
      Clear(p);
    }

    // ----- Confirming and swapping -----

    method CountEmpty(slots: seq<Slot>) returns (n: nat)
      requires |slots| == SLOT_COUNT
      ensures n == EmptyCount(slots)
    {
      n := 0;
      for i := 1 to SLOT_COUNT
        invariant n + EmptyCountFrom(slots, i) == EmptyCount(slots)
      {
        if slots[i] == Empty {
          n := n + 1;
        }
      }
    }

    /** The change goes to the rows of the session's role. */
    method PushUpdateGoods(c: nat, change: Change)
      requires c in sessions
      modifies this`sessions
      ensures sessions == old(sessions)[c := var s := old(sessions[c]); s.(rows := Apply(s.rows, change))]
    {
      sessions := sessions[c := sessions[c].(rows := Apply(sessions[c].rows, change))];
    }

    method SetGoods(c: nat, goods: map<nat, seq<Stack>>)
      requires c in sessions
      modifies this`sessions
      ensures sessions == old(sessions)[c := var s := old(sessions[c]); s.(bag := s.bag.(goods := goods))]
    {
      sessions := sessions[c := sessions[c].(bag := sessions[c].bag.(goods := goods))];
    }

    /** What is left of the goods once o has been taken from stack i. */
    method TakeFrom(goods: map<nat, seq<Stack>>, o: Stack, i: nat) returns (rest: map<nat, seq<Stack>>)
      requires o.goodsId in goods && i < |goods[o.goodsId]|
      ensures var v := goods[o.goodsId];
              rest == if v[i].count == o.count then WithoutStack(goods, o.goodsId, i)
                      else goods[o.goodsId := v[i := v[i].(count := CountLess(v[i].count, o.count))]]
    {
      var v := goods[o.goodsId];
      if v[i].count == o.count {
        rest := goods[o.goodsId := RemoveAt(v, i)];
        if rest[o.goodsId] == [] {
          rest := rest - {o.goodsId};
        }
      } else {
        rest := goods[o.goodsId := v[i := v[i].(count := (v[i].count + 0x1_0000 - o.count % 0x1_0000) % 0x1_0000)]];
      }
    }

    /** One round of the loop that takes the offers out of their owner's bag. */
    method DropOne(c: nat, o: Stack)
      requires c in sessions && o.pos < |sessions[c].bag.slots|
      modifies this`sessions
      ensures sessions == old(sessions)[c := var s := old(sessions[c]); AfterChange(s, DropOffer(s.bag, o))]
    {
      ghost var s := sessions[c];
      ghost var r := DropOffer(s.bag, o);
      if o.goodsId in sessions[c].bag.goods {
        var goods := sessions[c].bag.goods;
        var i := FindPosition(goods[o.goodsId], o.pos);
        if i < |goods[o.goodsId]| {
          PushUpdateGoods(c, Delete(o));
          SetSlot(c, o.pos, Empty);
          goods := TakeFrom(goods, o, i);
          SetGoods(c, goods);
          ApplyOne(s.rows, Delete(o));
          assert sessions[c] == AfterChange(s, r);
          return;
        }
        if goods[o.goodsId] == [] {
          SetGoods(c, goods - {o.goodsId});
          assert sessions[c] == AfterChange(s, r);
          return;
        }
      }
      assert AfterChange(s, r) == s && sessions == sessions[c := s];
    }

    /** The loop over the offers of one side. */
    method DropAll(c: nat, offers: seq<Stack>)
      requires c in sessions && forall o :: o in offers ==> o.pos < |sessions[c].bag.slots|
      modifies this`sessions
      ensures sessions == old(sessions)[c := AfterDrops(old(sessions[c]), offers)]
    {
      ghost var whole := AfterDrops(sessions[c], offers);
      ghost var rest := offers;
      assert sessions == sessions[c := sessions[c]];
      for k := 0 to |offers|
        invariant rest == offers[k..] && c in sessions && sessions == old(sessions)[c := sessions[c]]
        invariant (forall o :: o in rest ==> o.pos < |sessions[c].bag.slots|) && AfterDrops(sessions[c], rest) == whole
      {
        DropsGoOn(sessions[c], rest);
        DropOne(c, offers[k]);
        rest := rest[1..];
      }
    }

    /** The search for a free slot, which ends at 65 when there is none. */
    method FindFree(slots: seq<Slot>) returns (p: nat)
      requires |slots| == SLOT_COUNT
      ensures p == if FirstEmpty(slots) == 0 then SLOT_COUNT else FirstEmpty(slots)
    {
      p := 1;
      while p < SLOT_COUNT
        invariant 1 <= p <= SLOT_COUNT && FirstEmpty(slots) == FirstEmptyFrom(slots, p)
      {
        if slots[p] == Empty {
          return;
        }
        p := p + 1;
      }
    }

    /** One round of the loop that puts the other side's offers into the bag. */
    method TakeOne(c: nat, o: Stack)
      requires c in sessions && |sessions[c].bag.slots| == SLOT_COUNT
      modifies this`sessions
      ensures sessions == old(sessions)[c := var s := old(sessions[c]); AfterChange(s, TakeOffer(s.bag, o))]
    {
      ghost var s := sessions[c];
      var p := FindFree(sessions[c].bag.slots);
      SetSlot(c, p, NonEmpty);
      var stack := o.(pos := p);
      PushUpdateGoods(c, Insert(stack));
      var goods := sessions[c].bag.goods;
      if o.goodsId in goods {
        SetGoods(c, goods[o.goodsId := goods[o.goodsId] + [stack]]);
      } else {
        SetGoods(c, goods[o.goodsId := [stack]]);
        assert [] + [stack] == [stack];
      }
      ApplyOne(s.rows, Insert(stack));
      assert sessions[c] == AfterChange(s, TakeOffer(s.bag, o));
    }

    method TakeAll(c: nat, offers: seq<Stack>)
      requires c in sessions && |sessions[c].bag.slots| == SLOT_COUNT
      modifies this`sessions
      ensures sessions == old(sessions)[c := AfterTakes(old(sessions[c]), offers)]
    {
      ghost var whole := AfterTakes(sessions[c], offers);
      ghost var rest := offers;
      assert sessions == sessions[c := sessions[c]];
      for k := 0 to |offers|
        invariant rest == offers[k..] && c in sessions && sessions == old(sessions)[c := sessions[c]]
        invariant |sessions[c].bag.slots| == SLOT_COUNT && AfterTakes(sessions[c], rest) == whole
      {
        TakesGoOn(sessions[c], rest);
        TakeOne(c, offers[k]);
        rest := rest[1..];
      }
    }

    method SetPurse(c: nat, purse: Purse)
      requires c in sessions
      modifies this`sessions
      ensures sessions == old(sessions)[c := old(sessions[c]).(purse := purse)]
    {
      sessions := sessions[c := sessions[c].(purse := purse)];
    }

    /** One side pays the other what it has offered. */
    method PayMoney(payer: nat, payee: nat)
      requires payer in sessions && payee in sessions && payer != payee
      modifies this`sessions
      ensures var s, t := old(sessions[payer]), old(sessions[payee]);
              var r := Pay(s.purse, t.purse, s.trade.moneyType, s.trade.moneyCount);
              sessions == old(sessions)[payer := s.(purse := r.0)][payee := t.(purse := r.1)]
    {
      var moneyType, count := sessions[payer].trade.moneyType, sessions[payer].trade.moneyCount;
      if count == 0 {
        assert sessions[payer].(purse := sessions[payer].purse) == sessions[payer];
        assert sessions == sessions[payer := sessions[payer]][payee := sessions[payee]];
        return;
      }
      var purse: Purse := sessions[payer].purse;
      var left := (Balance(purse, moneyType) - count) % WORD;
      if left == 0 {
        SetPurse(payer, purse - {moneyType});
      } else {
        SetPurse(payer, purse[moneyType := left]);
      }
      purse := sessions[payee].purse;
      if moneyType in purse {
        SetPurse(payee, purse[moneyType := (purse[moneyType] + count) % WORD]);
      } else {
        SetPurse(payee, purse[moneyType := count % WORD]);
      }
    }

    /** The goods of both sides change hands. */
    method SwapBags(c: nat, p: nat)
      requires c in sessions && p in sessions && c != p && CanTrade(sessions[c]) && CanTrade(sessions[p])
      modifies this`sessions
      ensures var s, t := old(sessions[c]), old(sessions[p]);
              sessions == old(sessions)[c := AfterSwap(s, t.trade.changes)][p := AfterSwap(t, s.trade.changes)]
    {
      var offers, others := sessions[c].trade.changes, sessions[p].trade.changes;
      DropAll(c, offers);
      DropAll(p, others);
      TakeAll(p, offers);
      TakeAll(c, others);
      ghost var s, t := old(sessions[c]), old(sessions[p]);
      FourSettings(old(sessions), c, AfterDrops(s, offers), sessions[c], p, AfterDrops(t, others), sessions[p]);
    }

    /** The money of both sides changes hands, this side's first. */
    method SwapPurses(c: nat, p: nat)
      requires c in sessions && p in sessions && c != p
      modifies this`sessions
      ensures var s, t := old(sessions[c]), old(sessions[p]);
              var purses := SwapMoney(s, t);
              sessions == old(sessions)[c := s.(purse := purses.0)][p := t.(purse := purses.1)]
    {
      PayMoney(c, p);
      PayMoney(p, c);
    }

    /** operDoChange */
    method OperDoChange(c: nat, p: nat)
      requires c in sessions && p in sessions && c != p && CanTrade(sessions[c]) && CanTrade(sessions[p])
      modifies this`sessions
      ensures var s, t := old(sessions[c]), old(sessions[p]);
              var purses := SwapMoney(s, t);
              sessions == old(sessions)[c := AfterSwap(s, t.trade.changes).(purse := purses.0)]
                                       [p := AfterSwap(t, s.trade.changes).(purse := purses.1)]
    {
      ghost var s, t := sessions[c], sessions[p];
      SwapBags(c, p);
      SwapKeepsPurses(s, t);
      SwapPurses(c, p);
    }

    /** The swap, and both sides leave the trade. */
    method SwapAndClear(c: nat, p: nat)
      requires c in sessions && p in sessions && c != p && CanTrade(sessions[c]) && CanTrade(sessions[p])
      modifies this`sessions
      ensures var s, t := old(sessions[c]), old(sessions[p]);
              sessions == old(sessions)[c := Exchanged(s, t).0][p := Exchanged(s, t).1]
    {
      ghost var purses := SwapMoney(sessions[c], sessions[p]);
      SwapIsTraded(sessions[c], sessions[p].trade.changes, purses.0);
      SwapIsTraded(sessions[p], sessions[c].trade.changes, purses.1);
      OperDoChange(c, p);
      Clear(c);
      Clear(p);
    }

    /** Both have confirmed: the swap, or the end of the trade when the goods do not fit. */
    method Settle(c: nat, p: nat)
      requires c in sessions && p in sessions && c != p && CanTrade(sessions[c]) && CanTrade(sessions[p])
      modifies this`sessions
      ensures var s, t := old(sessions[c]), old(sessions[p]);
              sessions == old(sessions)[c := Settled(s, t).0][p := Settled(s, t).1]
    {
      var free := CountEmpty(sessions[c].bag.slots);
      var freeOther := CountEmpty(sessions[p].bag.slots);
      var offers, others := |sessions[c].trade.changes|, |sessions[p].trade.changes|;
      if offers + free < others || others + freeOther < offers {
        ReleaseAndClear(c);
        ReleaseAndClear(p);
      } else {
        SwapAndClear(c, p);
      }
    }

    /** operProCheckChange */
    method OperProCheckChange(c: nat)
      requires c in sessions && CanTrade(sessions[c])
      requires PartnerOnline(c) ==>
               sessions[c].trade.partner.conn != c && CanTrade(sessions[sessions[c].trade.partner.conn])
      modifies this`sessions
      ensures Value() == Check(old(Value()), c)
    {
      if !PartnerOnline(c) {
        ReleaseAndClear(c);
        return;
      }
      var p := sessions[c].trade.partner.conn;
      if !(sessions[c].trade.isLocked && sessions[p].trade.isLocked) {
        return;
      }
      CheckLocked(Value(), c);
      ConfirmLocked(c, p);
    }

    /** Both sides are locked. */
    method ConfirmLocked(c: nat, p: nat)
      requires c in sessions && p in sessions && c != p && CanTrade(sessions[c]) && CanTrade(sessions[p])
      modifies this`sessions
      ensures var s, t := old(sessions[c]), old(sessions[p]);
              sessions == if t.trade.isChangeChecked then old(sessions)[c := Settled(s, t).0][p := Settled(s, t).1]
                          else old(sessions)[c := Confirmed(s)]
    {
      ghost var s := sessions[c];
      Confirm(c);
      if sessions[p].trade.isChangeChecked {
        ConfirmingChangesNoOutcome(s, sessions[p]);
        Settle(c, p);
      }
    }

    method Confirm(c: nat)
      requires c in sessions
      modifies this`sessions
      ensures sessions == old(sessions)[c := Confirmed(old(sessions[c]))]
    {
      sessions := sessions[c := sessions[c].(trade := sessions[c].trade.(isChangeChecked := true))];
    }
  }

  function Confirmed(s: Session): Session {
    s.(trade := s.trade.(isChangeChecked := true))
  }

  function Exchanged(s: Session, t: Session): (Session, Session)
    requires CanTrade(s) && CanTrade(t)
  {
    var purses := SwapMoney(s, t);
    (Traded(s, t.trade.changes, purses.0), Traded(t, s.trade.changes, purses.1))
  }

  function Settled(s: Session, t: Session): (Session, Session)
    requires CanTrade(s) && CanTrade(t)
  {
    if Fits(s, t) then Exchanged(s, t) else (Release(s), Release(t))
  }

  lemma CheckLocked(w: World, c: nat)
    requires c in w.sessions && CanTrade(w.sessions[c])
    requires HasPartner(w, c) ==> CanTrade(w.sessions[PartnerOf(w, c)])
    ensures HasPartner(w, c) && w.sessions[c].trade.isLocked && w.sessions[PartnerOf(w, c)].trade.isLocked ==>
              var s, t := w.sessions[c], w.sessions[PartnerOf(w, c)];
              var sessions := if t.trade.isChangeChecked then
                                w.sessions[c := Settled(s, t).0][PartnerOf(w, c) := Settled(s, t).1]
                              else w.sessions[c := Confirmed(s)];
              Check(w, c) == World(sessions, w.socks)
  {
  }

  /** The flag that is set before the swap is cleared after it. */
  lemma ConfirmingChangesNoOutcome(s: Session, t: Session)
    requires CanTrade(s) && CanTrade(t)
    ensures CanTrade(Confirmed(s)) && Settled(Confirmed(s), t) == Settled(s, t)
  {
  }

  /** Later settings of the same two sessions override earlier ones. */
  lemma FourSettings(sessions: map<nat, Session>, c: nat, s1: Session, s2: Session, p: nat, t1: Session, t2: Session)
    requires c != p
    ensures sessions[c := s1][p := t1][p := t2][c := s2] == sessions[c := s2][p := t2]
  {
  }

  lemma SwapKeepsPurses(s: Session, t: Session)
    requires CanTrade(s) && CanTrade(t)
    ensures SwapMoney(AfterSwap(s, t.trade.changes), AfterSwap(t, s.trade.changes)) == SwapMoney(s, t)
  {
  }

  lemma SwapIsTraded(s: Session, others: seq<Stack>, purse: Purse)
    requires CanTrade(s)
    ensures Leave(AfterSwap(s, others).(purse := purse)) == Traded(s, others, purse)
  {
    var out := DropOffers(s.bag, s.trade.changes);
    ApplyAllConcat(s.rows, out.changes, TakeOffers(out.bag, others).changes);
  }
}
