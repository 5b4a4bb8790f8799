// operDoChange: the swap moves exactly what was offered.
module TradeCommit {
  import opened GoodsBag
  import opened BagEdits
  import opened BagOperations
  import opened BagAgreement
  import opened BagCounts
  import opened Trade

  // ----- Money -----

  /** A payment moves the count and nothing else exactly when neither side leaves the 32 bits. */
  lemma PayIsExactExactlyWhen(payer: Purse, payee: Purse, moneyType: nat, count: nat)
    requires count > 0 && Balance(payer, moneyType) < WORD && Balance(payee, moneyType) < WORD && count < WORD
    ensures var r := Pay(payer, payee, moneyType, count);
            (Balance(r.0, moneyType) == Balance(payer, moneyType) - count
              && Balance(r.1, moneyType) == Balance(payee, moneyType) + count)
            <==> count <= Balance(payer, moneyType) && Balance(payee, moneyType) + count < WORD
    ensures forall k :: k != moneyType ==>
              Balance(Pay(payer, payee, moneyType, count).0, k) == Balance(payer, k)
              && Balance(Pay(payer, payee, moneyType, count).1, k) == Balance(payee, k)
  {
  }

  /** What a side pays of one type of money. */
  function Paid(s: Session, k: nat): nat {
    if s.trade.moneyType == k then s.trade.moneyCount else 0
  }

  /** Counts of money are 32-bit words. */
  ghost predicate InWords(purse: Purse) {
    forall k :: k in purse ==> purse[k] < WORD
  }

  lemma ModSum(x: int, y: int)
    ensures (x % WORD + y) % WORD == (x + y) % WORD
  {
  }

  /** One payment, modulo 2^32, for every type of money. */
  lemma PayModulo(payer: Purse, payee: Purse, moneyType: nat, count: nat, k: nat)
    requires InWords(payer) && InWords(payee)
    ensures var r := Pay(payer, payee, moneyType, count);
            var paid := if k == moneyType then count else 0;
            && InWords(r.0) && InWords(r.1)
            && Balance(r.0, k) == (Balance(payer, k) - paid) % WORD
            && Balance(r.1, k) == (Balance(payee, k) + paid) % WORD
  {
  }

  /** After one payment and another the other way, modulo 2^32. */
  lemma ModTwice(a: int, b: int, out: int, in_: int, a1: int, b1: int)
    requires a1 == (a - out) % WORD && b1 == (b + out) % WORD
    ensures (a1 + in_) % WORD == (a - out + in_) % WORD
    ensures (b1 - in_) % WORD == (b - in_ + out) % WORD
  {
    ModSum(a - out, in_);
    ModSum(b + out, 0 - in_);
  }

  lemma SwappedPursesInWords(s: Session, t: Session)
    requires InWords(s.purse) && InWords(t.purse)
    ensures InWords(SwapMoney(s, t).0) && InWords(SwapMoney(s, t).1)
  {
    var first := Pay(s.purse, t.purse, s.trade.moneyType, s.trade.moneyCount);
    PayModulo(s.purse, t.purse, s.trade.moneyType, s.trade.moneyCount, 0);
    PayModulo(first.1, first.0, t.trade.moneyType, t.trade.moneyCount, 0);
  }

  /** Both payments, modulo 2^32: each side ends with its own less what it offered, plus the other's offer. */
  lemma SwapMoneyModulo(s: Session, t: Session, k: nat)
    requires InWords(s.purse) && InWords(t.purse)
    ensures var r := SwapMoney(s, t);
            && Balance(r.0, k) == (Balance(s.purse, k) - Paid(s, k) + Paid(t, k)) % WORD
            && Balance(r.1, k) == (Balance(t.purse, k) - Paid(t, k) + Paid(s, k)) % WORD
  {
    var first := Pay(s.purse, t.purse, s.trade.moneyType, s.trade.moneyCount);
    PayModulo(s.purse, t.purse, s.trade.moneyType, s.trade.moneyCount, k);
    PayModulo(first.1, first.0, t.trade.moneyType, t.trade.moneyCount, k);
    ModTwice(Balance(s.purse, k), Balance(t.purse, k), Paid(s, k), Paid(t, k),
             Balance(first.0, k), Balance(first.1, k));
  }

  /** What the two sides are to have of money k after the swap. */
  function Due(s: Session, t: Session, k: nat): int {
    Balance(s.purse, k) - Paid(s, k) + Paid(t, k)
  }

  lemma DueIsThere(s: Session, t: Session, k: nat)
    requires MoneyHeld(s)
    ensures Due(s, t, k) >= 0
  {
  }

  lemma FitsWord(x: int)
    requires x >= 0
    ensures x % WORD == x <==> x < WORD
  {
  }

  /** The money offered is there, so nothing goes below zero; and so both payments are exact, also in the same
      type and down to zero, exactly when what each side is to have fits 32 bits. */
  lemma SwapMoneyIsExactExactlyWhen(s: Session, t: Session, k: nat)
    requires InWords(s.purse) && InWords(t.purse) && MoneyHeld(s) && MoneyHeld(t)
    ensures var r := SwapMoney(s, t);
            && (Balance(r.0, k) == Due(s, t, k) <==> Due(s, t, k) < WORD)
            && (Balance(r.1, k) == Due(t, s, k) <==> Due(t, s, k) < WORD)
  {
    SwapMoneyModulo(s, t, k);
    DueIsThere(s, t, k);
    DueIsThere(t, s, k);
    FitsWord(Due(s, t, k));
    FitsWord(Due(t, s, k));
  }

  // ----- Goods go out -----

  /** The offer names a stack of the bag, with its exact count. */
  predicate Held(goods: map<nat, seq<Stack>>, o: Stack) {
    && o.goodsId in goods
    && var i := FindAt(goods[o.goodsId], o.pos, 0);
       i < |goods[o.goodsId]| && goods[o.goodsId][i].count == o.count
  }

  predicate IsGoods(o: Stack) {
    o.goodsId == o.typeId < EQUIPMENT_ID && o.count >= 1
  }

  ghost predicate DistinctSlots(offers: seq<Stack>) {
    forall i, j :: 0 <= i < j < |offers| ==> offers[i].pos != offers[j].pos
  }

  /** Every offer is a stack of the bag in a locked slot, and no slot is offered twice. */
  ghost predicate OffersHeld(b: Bag, offers: seq<Stack>) {
    && |b.slots| == SLOT_COUNT && DistinctSlots(offers)
    && forall o :: o in offers ==> IsGoods(o) && 1 <= o.pos < SLOT_COUNT && b.slots[o.pos] == Locked && Held(b.goods, o)
  }

  lemma FindAtRest(v: seq<Stack>, i: nat, p: nat)
    requires i < |v| && FindAt(v, p, 0) < |v| && v[i].pos != p
    ensures var j := FindAt(v, p, 0);
            var w := RemoveAt(v, i);
            FindAt(w, p, 0) < |w| && w[FindAt(w, p, 0)] == v[j]
  {
    var j, w := FindAt(v, p, 0), RemoveAt(v, i);
    assert w[if j < i then j else j - 1] == v[j];
  }

  lemma HeldRest(b: Bag, o: Stack, u: Stack)
    requires |b.slots| == SLOT_COUNT && o.pos < SLOT_COUNT && Held(b.goods, o) && Held(b.goods, u) && o.pos != u.pos
    ensures Held(DropOffer(b, o).bag.goods, u)
  {
    var v := b.goods[o.goodsId];
    if u.goodsId == o.goodsId {
      FindAtRest(v, FindAt(v, o.pos, 0), u.pos);
    }
  }

  lemma OffersHeldRest(b: Bag, offers: seq<Stack>)
    requires offers != [] && OffersHeld(b, offers)
    ensures OffersHeld(DropOffer(b, offers[0]).bag, offers[1..])
  {
    forall u | u in offers[1..]
      ensures Held(DropOffer(b, offers[0]).bag.goods, u) && u.pos != offers[0].pos
    {
      var k :| 0 <= k < |offers[1..]| && offers[1..][k] == u;
      assert offers[k + 1] == u;
      HeldRest(b, offers[0], u);
    }
  }

  lemma DropOfferKeeps(R: (Bag, Table) -> bool, b: Bag, t: Table, o: Stack)
    requires SurvivesEdits(R) && R(b, t) && |b.slots| == SLOT_COUNT && o.pos < SLOT_COUNT && Held(b.goods, o)
    ensures Keeps(R, t, DropOffer(b, o).bag, DropOffer(b, o).changes)
  {
    var v := b.goods[o.goodsId];
    var i := FindAt(v, o.pos, 0);
    OneEdit(R, b, t, Drop(o.goodsId, i));
    DeleteRow(t, o);
    DeleteRow(t, v[i].(count := 0));
  }

  lemma {:induction false} CountAfterFreeing(slots: seq<Slot>, p: nat, j: nat)
    requires |slots| == SLOT_COUNT && 1 <= j <= SLOT_COUNT && 1 <= p < SLOT_COUNT && slots[p] != Empty
    ensures EmptyCountFrom(slots[p := Empty], j) == EmptyCountFrom(slots, j) + if j <= p then 1 else 0
    decreases SLOT_COUNT - j
  {
    if j < SLOT_COUNT {
      CountAfterFreeing(slots, p, j + 1);
    }
  }

  lemma {:induction false} DropOffersKeeps(R: (Bag, Table) -> bool, b: Bag, t: Table, offers: seq<Stack>)
    requires SurvivesEdits(R) && R(b, t) && OffersHeld(b, offers)
    ensures Keeps(R, t, DropOffers(b, offers).bag, DropOffers(b, offers).changes)
    ensures EmptyCount(DropOffers(b, offers).bag.slots) == EmptyCount(b.slots) + |offers|
    decreases |offers|
  {
    if offers != [] {
      var first := DropOffer(b, offers[0]);
      OffersHeldRest(b, offers);
      DropOfferKeeps(R, b, t, offers[0]);
      CountAfterFreeing(b.slots, offers[0].pos, 1);
      DropOffersKeeps(R, first.bag, ApplyAll(t, first.changes), offers[1..]);
      ApplyAllConcat(t, first.changes, DropOffers(first.bag, offers[1..]).changes);
    }
  }

  // ----- Goods come in -----

  ghost predicate AllGoods(offers: seq<Stack>) {
    forall o :: o in offers ==> IsGoods(o)
  }

  lemma TakeOfferKeeps(R: (Bag, Table) -> bool, b: Bag, t: Table, o: Stack)
    requires SurvivesEdits(R) && R(b, t) && |b.slots| == SLOT_COUNT && EmptyCount(b.slots) > 0 && IsGoods(o)
    ensures Keeps(R, t, TakeOffer(b, o).bag, TakeOffer(b, o).changes)
    ensures EmptyCount(TakeOffer(b, o).bag.slots) == EmptyCount(b.slots) - 1
  {
    TakeOne(b.slots);
    PushStack(R, b, t, o.(pos := FirstEmpty(b.slots)));
  }

  /** With room for all of them, no search for a slot comes back empty. */
  lemma {:induction false} TakeOffersKeeps(R: (Bag, Table) -> bool, b: Bag, t: Table, offers: seq<Stack>)
    requires SurvivesEdits(R) && R(b, t) && |b.slots| == SLOT_COUNT && EmptyCount(b.slots) >= |offers|
             && AllGoods(offers)
    ensures Keeps(R, t, TakeOffers(b, offers).bag, TakeOffers(b, offers).changes)
    decreases |offers|
  {
    if offers != [] {
      var first := TakeOffer(b, offers[0]);
      TakeOfferKeeps(R, b, t, offers[0]);
      TakeOffersKeeps(R, first.bag, ApplyAll(t, first.changes), offers[1..]);
      ApplyAllConcat(t, first.changes, TakeOffers(first.bag, offers[1..]).changes);
    }
  }

  /** A side of the swap keeps its bag and rows in agreement. */
  lemma SwapGoodsKeeps(R: (Bag, Table) -> bool, b: Bag, t: Table, own: seq<Stack>, others: seq<Stack>)
    requires SurvivesEdits(R) && R(b, t) && OffersHeld(b, own) && AllGoods(others)
    requires |own| + EmptyCount(b.slots) >= |others|
    ensures Keeps(R, t, SwapGoods(b, own, others).bag, SwapGoods(b, own, others).changes)
  {
    var out := DropOffers(b, own);
    DropOffersKeeps(R, b, t, own);
    TakeOffersKeeps(R, out.bag, ApplyAll(t, out.changes), others);
    ApplyAllConcat(t, out.changes, TakeOffers(out.bag, others).changes);
  }

  lemma {:induction false} TakeOffersFindsSlots(b: Bag, offers: seq<Stack>)
    requires |b.slots| == SLOT_COUNT && EmptyCount(b.slots) >= |offers|
    ensures forall c :: c in TakeOffers(b, offers).changes ==> c.Insert? && 1 <= c.stack.pos < SLOT_COUNT
    decreases |offers|
  {
    if offers != [] {
      TakeOne(b.slots);
      TakeOffersFindsSlots(TakeOffer(b, offers[0]).bag, offers[1..]);
    }
  }

  // ----- What each side has afterwards -----

  /** How many stacks hold exactly n pieces. */
  function HowMany(v: seq<Stack>, n: nat): nat
  {
    if v == [] then 0 else (if v[0].count == n then 1 else 0) + HowMany(v[1..], n)
  }

  lemma {:induction false} HowManyConcat(v: seq<Stack>, w: seq<Stack>, n: nat)
    ensures HowMany(v + w, n) == HowMany(v, n) + HowMany(w, n)
    decreases |v|
  {
    if v == [] {
      assert v + w == w;
    } else {
      assert (v + w)[1..] == v[1..] + w;
      HowManyConcat(v[1..], w, n);
    }
  }

  lemma HowManyRemove(v: seq<Stack>, i: nat, n: nat)
    requires i < |v|
    ensures HowMany(RemoveAt(v, i), n) == HowMany(v, n) - if v[i].count == n then 1 else 0
  {
    HowManyConcat(v[..i], v[i + 1..], n);
    HowManyConcat(v[..i], [v[i]] + v[i + 1..], n);
    assert v == v[..i] + ([v[i]] + v[i + 1..]);
  }

  /** The offers of goods g. */
  function OffersOf(offers: seq<Stack>, g: nat): seq<Stack> {
    if offers == [] then []
    else (if offers[0].goodsId == g then [offers[0]] else []) + OffersOf(offers[1..], g)
  }

  /** o is a stack of goods g with n pieces. */
  function IsOne(o: Stack, g: nat, n: nat): nat {
    if o.goodsId == g && o.count == n then 1 else 0
  }

  function PiecesOf(o: Stack, g: nat): nat {
    if o.goodsId == g then o.count else 0
  }

  lemma OffersOfFirst(offers: seq<Stack>, g: nat, n: nat)
    requires offers != []
    ensures HowMany(OffersOf(offers, g), n) == IsOne(offers[0], g, n) + HowMany(OffersOf(offers[1..], g), n)
    ensures Total(OffersOf(offers, g)) == PiecesOf(offers[0], g) + Total(OffersOf(offers[1..], g))
  {
    if offers[0].goodsId == g {
      assert ([offers[0]] + OffersOf(offers[1..], g))[1..] == OffersOf(offers[1..], g);
    } else {
      assert [] + OffersOf(offers[1..], g) == OffersOf(offers[1..], g);
    }
  }

  lemma WithoutStackCounts(goods: map<nat, seq<Stack>>, g: nat, i: nat, n: nat)
    requires g in goods && i < |goods[g]|
    ensures var v, w := goods[g], StacksOf(WithoutStack(goods, g, i), g);
            && HowMany(w, n) == HowMany(v, n) - (if v[i].count == n then 1 else 0)
            && Total(w) == Total(v) - v[i].count
  {
    HowManyRemove(goods[g], i, n);
    TotalRemove(goods[g], i);
    assert |goods[g]| == 1 ==> RemoveAt(goods[g], i) == [];
  }

  lemma DropOfferTakesOut(b: Bag, o: Stack, g: nat, n: nat)
    requires o.pos < |b.slots| && Held(b.goods, o)
    ensures var before, after := StacksOf(b.goods, g), StacksOf(DropOffer(b, o).bag.goods, g);
            HowMany(before, n) == HowMany(after, n) + IsOne(o, g, n) && Total(before) == Total(after) + PiecesOf(o, g)
  {
    if o.goodsId == g {
      WithoutStackCounts(b.goods, g, FindAt(b.goods[g], o.pos, 0), n);
    }
  }

  lemma {:induction false} DropOffersTakeOut(b: Bag, offers: seq<Stack>, g: nat, n: nat)
    requires OffersHeld(b, offers)
    ensures var before, after := StacksOf(b.goods, g), StacksOf(DropOffers(b, offers).bag.goods, g);
            && HowMany(before, n) == HowMany(after, n) + HowMany(OffersOf(offers, g), n)
            && Total(before) == Total(after) + Total(OffersOf(offers, g))
    decreases |offers|
  {
    if offers != [] {
      OffersHeldRest(b, offers);
      OffersOfFirst(offers, g, n);
      DropOfferTakesOut(b, offers[0], g, n);
      DropOffersTakeOut(DropOffer(b, offers[0]).bag, offers[1..], g, n);
    }
  }

  lemma TakeOfferPutsIn(b: Bag, o: Stack, g: nat, n: nat)
    requires |b.slots| == SLOT_COUNT
    ensures var before, after := StacksOf(b.goods, g), StacksOf(TakeOffer(b, o).bag.goods, g);
            HowMany(after, n) == HowMany(before, n) + IsOne(o, g, n) && Total(after) == Total(before) + PiecesOf(o, g)
  {
    var s := TakeOffer(b, o).changes[0].stack;
    HowManyConcat(StacksOf(b.goods, g), [s], n);
    TotalPush(StacksOf(b.goods, g), s);
  }

  lemma {:induction false} TakeOffersPutIn(b: Bag, offers: seq<Stack>, g: nat, n: nat)
    requires |b.slots| == SLOT_COUNT
    ensures var before, after := StacksOf(b.goods, g), StacksOf(TakeOffers(b, offers).bag.goods, g);
            && HowMany(after, n) == HowMany(before, n) + HowMany(OffersOf(offers, g), n)
            && Total(after) == Total(before) + Total(OffersOf(offers, g))
    decreases |offers|
  {
    if offers != [] {
      OffersOfFirst(offers, g, n);
      TakeOfferPutsIn(b, offers[0], g, n);
      TakeOffersPutIn(TakeOffer(b, offers[0]).bag, offers[1..], g, n);
    }
  }

  /** Each side keeps its old stacks less its own offer, and gets the stacks of the other's offer: for
      all goods and all sizes, so many stacks as that says. */
  lemma SwapMovesTheOffers(b: Bag, own: seq<Stack>, others: seq<Stack>, g: nat, n: nat)
    requires OffersHeld(b, own)
    ensures var before, after := StacksOf(b.goods, g), StacksOf(SwapGoods(b, own, others).bag.goods, g);
            && HowMany(after, n) == HowMany(before, n) - HowMany(OffersOf(own, g), n) + HowMany(OffersOf(others, g), n)
            && Total(after) == Total(before) - Total(OffersOf(own, g)) + Total(OffersOf(others, g))
  {
    DropOffersTakeOut(b, own, g, n);
    TakeOffersPutIn(DropOffers(b, own).bag, others, g, n);
  }

  /** No pieces of any goods are made or lost between the two bags. */
  lemma SwapConservesGoods(a: Bag, b: Bag, fromA: seq<Stack>, fromB: seq<Stack>, g: nat)
    requires OffersHeld(a, fromA) && OffersHeld(b, fromB)
    ensures Total(StacksOf(SwapGoods(a, fromA, fromB).bag.goods, g))
            + Total(StacksOf(SwapGoods(b, fromB, fromA).bag.goods, g))
         == Total(StacksOf(a.goods, g)) + Total(StacksOf(b.goods, g))
  {
    SwapMovesTheOffers(a, fromA, fromB, g, 0);
    SwapMovesTheOffers(b, fromB, fromA, g, 0);
  }
}
