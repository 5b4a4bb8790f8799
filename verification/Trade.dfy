// GameInterchange/gameinterchange.cpp: what every message of a two-party trade does to the sessions.
module Trade {
  import opened GoodsBag
  import opened BagEdits
  import opened BagOperations
  import opened BagCounts

  datatype Partner = Nobody | Partner(conn: nat)

  /** Interchange: the flags, the partner's connection, and what is offered. */
  datatype Interchange = Interchange(
    isInchange: bool,
    isLocked: bool,
    isChangeChecked: bool,
    partner: Partner,
    changes: seq<Stack>,
    moneyType: nat,
    moneyCount: nat)

  type Purse = map<nat, nat>   // m_playerMoney: counts by type of money

  /** What a trade touches of a Session; rows are those of its role once everything queued is written. */
  datatype Session = Session(role: nat, bag: Bag, purse: Purse, trade: Interchange, rows: Table)

  /** The sessions by connection, and m_roleSock: the connections by role. */
  datatype World = World(sessions: map<nat, Session>, socks: map<nat, nat>)

  function Clear(i: Interchange): Interchange {
    Interchange(false, false, false, Nobody, [], i.moneyType, 0)
  }

  /** Every offered slot is marked as in use again. */
  function UnlockAll(slots: seq<Slot>, offers: seq<Stack>): (r: seq<Slot>)
    ensures |r| == |slots|
    decreases |offers|
  {
    if offers == [] then slots
    else UnlockAll(if offers[0].pos < |slots| then slots[offers[0].pos := NonEmpty] else slots, offers[1..])
  }

  /** Leaves the trade and gives the slots back. */
  function Release(s: Session): Session {
    s.(bag := s.bag.(slots := UnlockAll(s.bag.slots, s.trade.changes)), trade := Clear(s.trade))
  }

  /** Leaves the trade; the slots stay as they are. */
  function Leave(s: Session): Session {
    s.(trade := Clear(s.trade))
  }

  function With(w: World, c: nat, s: Session): World {
    w.(sessions := w.sessions[c := s])
  }

  /** The partner is connected. */
  predicate HasPartner(w: World, c: nat)
    requires c in w.sessions
  {
    w.sessions[c].trade.partner.Partner? && w.sessions[c].trade.partner.conn in w.sessions
  }

  function PartnerOf(w: World, c: nat): (p: nat)
    requires c in w.sessions && HasPartner(w, c)
    ensures p in w.sessions
  {
    w.sessions[c].trade.partner.conn
  }

  // ----- Asking for a trade -----

  function Join(s: Session, p: nat): Session {
    s.(trade := s.trade.(isInchange := true, partner := Partner(p)))
  }

  /** operRequest */
  function Request(w: World, c: nat, role: nat): World
    requires c in w.sessions && forall r :: r in w.socks ==> w.socks[r] in w.sessions
  {
    if w.sessions[c].trade.isInchange || role !in w.socks || w.sessions[w.socks[role]].trade.isInchange then w
    else
      var p := w.socks[role];
      var w1 := With(w, c, Join(w.sessions[c], p));
      With(w1, p, Join(w1.sessions[p], c))
  }

  /** operResponse: the other side is the role named in the message. */
  function Response(w: World, c: nat, role: nat, accept: bool): World
    requires c in w.sessions && forall r :: r in w.socks ==> w.socks[r] in w.sessions
  {
    if role !in w.socks then With(w, c, Leave(w.sessions[c]))
    else if accept then w
    else
      var w1 := With(w, c, Leave(w.sessions[c]));
      With(w1, w.socks[role], Leave(w1.sessions[w.socks[role]]))
  }

  // ----- Offers -----

  /** operMoneyChanges */
  function OfferMoney(w: World, c: nat, moneyType: nat, count: nat): World
    requires c in w.sessions
  {
    var s := w.sessions[c];
    if !HasPartner(w, c) then With(w, c, Release(s))
    else if moneyType !in s.purse || s.purse[moneyType] < count then w
    else With(w, c, s.(trade := s.trade.(moneyType := moneyType, moneyCount := count)))
  }

  /** The first stack from k on with this position and count, or |v|. */
  function FindExact(v: seq<Stack>, o: Stack, k: nat): (i: nat)
    requires k <= |v|
    ensures k <= i <= |v| && (i < |v| ==> v[i].pos == o.pos && v[i].count == o.count)
    ensures forall j :: k <= j < i ==> !(v[j].pos == o.pos && v[j].count == o.count)
    decreases |v| - k
  {
    if k == |v| || (v[k].pos == o.pos && v[k].count == o.count) then k else FindExact(v, o, k + 1)
  }

  /** The first offer from k on with this position, count and goods, or |offers|. */
  function FindOffer(offers: seq<Stack>, o: Stack, k: nat): (i: nat)
    requires k <= |offers|
    ensures k <= i <= |offers|
    ensures i < |offers| ==> offers[i].pos == o.pos && offers[i].count == o.count && offers[i].goodsId == o.goodsId
    ensures forall j :: k <= j < i ==>
              !(offers[j].pos == o.pos && offers[j].count == o.count && offers[j].goodsId == o.goodsId)
    decreases |offers| - k
  {
    if k == |offers| || (offers[k].pos == o.pos && offers[k].count == o.count && offers[k].goodsId == o.goodsId) then k
    else FindOffer(offers, o, k + 1)
  }

  datatype OfferKind = Add | Remove | Other

  /** The lists after operChanges, once the stack has been found and its slot locked. */
  function ChangeOffer(s: Session, kind: OfferKind, o: Stack): Session
    requires o.pos < |s.bag.slots|
  {
    var locked := s.bag.slots[o.pos := Locked];
    var offers := s.trade.changes;
    match kind
    case Add =>
      if FindAt(offers, o.pos, 0) < |offers| then s.(bag := s.bag.(slots := locked))
      else s.(bag := s.bag.(slots := locked), trade := s.trade.(changes := offers + [o]))
    case Remove =>
      var i := FindOffer(offers, o, 0);
      if i == |offers| then s.(bag := s.bag.(slots := locked))
      else s.(bag := s.bag.(slots := locked[o.pos := NonEmpty]), trade := s.trade.(changes := RemoveAt(offers, i)))
    case Other => s.(bag := s.bag.(slots := locked))
  }

  /** Whether operChanges returns before it looks at the partner. */
  predicate EndsEarly(s: Session, kind: OfferKind, o: Stack) {
    var offers := s.trade.changes;
    match kind
    case Add => FindAt(offers, o.pos, 0) < |offers|
    case Remove => FindOffer(offers, o, 0) == |offers|
    case Other => false
  }

  const EQUIPMENT_ID_MAX := 30000000

  /** operChanges treats these numbers as goods, the others as equipment. */
  predicate IsStackable(goodsId: nat) {
    !(EQUIPMENT_ID <= goodsId <= EQUIPMENT_ID_MAX)
  }

  /** operChanges, for goods that stack. */
  function OfferGoods(w: World, c: nat, kind: OfferKind, o: Stack): World
    requires c in w.sessions && o.pos < |w.sessions[c].bag.slots|
  {
    var s := w.sessions[c];
    var v := StacksOf(s.bag.goods, o.goodsId);
    if FindExact(v, o, 0) == |v| then w
    else
      var s1 := ChangeOffer(s, kind, o);
      With(w, c, if EndsEarly(s, kind, o) || HasPartner(w, c) then s1 else Release(s1))
  }

  // ----- Locking, confirming, leaving -----

  /** operProLock */
  function Lock(w: World, c: nat): World
    requires c in w.sessions
  {
    var s := w.sessions[c];
    With(w, c, if HasPartner(w, c) then s.(trade := s.trade.(isLocked := true)) else Release(s))
  }

  function UnlockTrade(s: Session): Session {
    s.(trade := s.trade.(isLocked := false, isChangeChecked := false))
  }

  /** operProUnlock: nothing is unlocked unless the other side has confirmed. */
  function Unlock(w: World, c: nat): World
    requires c in w.sessions
  {
    var s := w.sessions[c];
    if !HasPartner(w, c) then With(w, c, Release(s))
    else
      var p := PartnerOf(w, c);
      if w.sessions[p].trade.isChangeChecked then
        var w1 := With(w, c, UnlockTrade(s));
        With(w1, p, UnlockTrade(w1.sessions[p]))
      else w
  }

  /** operProCancelChange */
  function Cancel(w: World, c: nat): World
    requires c in w.sessions
  {
    if !HasPartner(w, c) then With(w, c, Leave(w.sessions[c]))
    else
      var p := PartnerOf(w, c);
      var w1 := With(w, c, Release(w.sessions[c]));
      With(w1, p, Release(w1.sessions[p]))
  }

  /** operProCancelRequest */
  function CancelRequest(w: World, c: nat): World
    requires c in w.sessions
  {
    var w1 := With(w, c, Leave(w.sessions[c]));
    if !HasPartner(w, c) then w1
    else With(w1, PartnerOf(w, c), Leave(w1.sessions[PartnerOf(w, c)]))
  }

  // ----- The swap -----

  /** A 16-bit difference. */
  function CountLess(have: nat, less: nat): nat {
    (have + 0x1_0000 - less % 0x1_0000) % 0x1_0000
  }

  /** One offered stack leaves the bag. */
  function DropOffer(b: Bag, o: Stack): (r: Changed)
    requires o.pos < |b.slots|
    ensures |r.bag.slots| == |b.slots|
  {
    if o.goodsId !in b.goods then Changed(b, [])
    else
      var v := b.goods[o.goodsId];
      var i := FindAt(v, o.pos, 0);
      if i == |v| then Changed(if v == [] then b.(goods := b.goods - {o.goodsId}) else b, [])
      else
        var goods := if v[i].count == o.count then WithoutStack(b.goods, o.goodsId, i)
                     else b.goods[o.goodsId := v[i := v[i].(count := CountLess(v[i].count, o.count))]];
        Changed(b.(goods := goods, slots := b.slots[o.pos := Empty]), [Delete(o)])
  }

  function DropOffers(b: Bag, offers: seq<Stack>): (r: Changed)
    requires forall o :: o in offers ==> o.pos < |b.slots|
    ensures |r.bag.slots| == |b.slots|
    decreases |offers|
  {
    if offers == [] then Changed(b, [])
    else
      var first := DropOffer(b, offers[0]);
      var rest := DropOffers(first.bag, offers[1..]);
      Changed(rest.bag, first.changes + rest.changes)
  }

  /** A stack of the other side arrives; without a free slot it would get position 65. */
  function TakeOffer(b: Bag, o: Stack): Changed
    requires |b.slots| == SLOT_COUNT
  {
    var p := FirstEmpty(b.slots);
    var s := o.(pos := if p == 0 then SLOT_COUNT else p);
    Changed(b.(goods := b.goods[s.goodsId := StacksOf(b.goods, s.goodsId) + [s]], slots := TakeSlot(b.slots)),
            [Insert(s)])
  }

  function TakeOffers(b: Bag, offers: seq<Stack>): Changed
    requires |b.slots| == SLOT_COUNT
    decreases |offers|
  {
    if offers == [] then Changed(b, [])
    else
      var first := TakeOffer(b, offers[0]);
      var rest := TakeOffers(first.bag, offers[1..]);
      Changed(rest.bag, first.changes + rest.changes)
  }

  function Balance(purse: Purse, moneyType: nat): nat {
    if moneyType in purse then purse[moneyType] else 0
  }

  /** The balances after one side pays, in 32 bits; an entry that comes to zero is removed. */
  function Pay(payer: Purse, payee: Purse, moneyType: nat, count: nat): (Purse, Purse) {
    if count == 0 then (payer, payee)
    else
      var left := (Balance(payer, moneyType) - count) % WORD;
      (if left == 0 then payer - {moneyType} else payer[moneyType := left],
       payee[moneyType := (Balance(payee, moneyType) + count) % WORD])
  }

  /** There are enough free slots on both sides. */
  predicate Fits(s: Session, p: Session)
    requires |s.bag.slots| == SLOT_COUNT && |p.bag.slots| == SLOT_COUNT
  {
    && |s.trade.changes| + EmptyCount(s.bag.slots) >= |p.trade.changes|
    && |p.trade.changes| + EmptyCount(p.bag.slots) >= |s.trade.changes|
  }

  /** One side of operDoChange: own offers out, the other side's in. */
  function SwapGoods(b: Bag, own: seq<Stack>, others: seq<Stack>): Changed
    requires |b.slots| == SLOT_COUNT && forall o :: o in own ==> o.pos < SLOT_COUNT
  {
    var out := DropOffers(b, own);
    var in_ := TakeOffers(out.bag, others);
    Changed(in_.bag, out.changes + in_.changes)
  }

  /** The purses after operDoChange: first s pays t, then t pays s. */
  function SwapMoney(s: Session, t: Session): (Purse, Purse) {
    var first := Pay(s.purse, t.purse, s.trade.moneyType, s.trade.moneyCount);
    var second := Pay(first.1, first.0, t.trade.moneyType, t.trade.moneyCount);
    (second.1, second.0)
  }

  /** The money offered is there. */
  predicate MoneyHeld(s: Session) {
    s.trade.moneyCount > 0 ==> s.trade.moneyCount <= Balance(s.purse, s.trade.moneyType)
  }

  function Traded(s: Session, others: seq<Stack>, purse: Purse): Session
    requires |s.bag.slots| == SLOT_COUNT && forall o :: o in s.trade.changes ==> o.pos < SLOT_COUNT
  {
    var r := SwapGoods(s.bag, s.trade.changes, others);
    Session(s.role, r.bag, purse, Clear(s.trade), ApplyAll(s.rows, r.changes))
  }

  predicate CanTrade(s: Session) {
    |s.bag.slots| == SLOT_COUNT && forall o :: o in s.trade.changes ==> o.pos < SLOT_COUNT
  }

  /** operDoChange, and both sides leave the trade. */
  function Commit(w: World, c: nat, p: nat): World
    requires c in w.sessions && p in w.sessions && CanTrade(w.sessions[c]) && CanTrade(w.sessions[p])
  {
    var s, t := w.sessions[c], w.sessions[p];
    var purses := SwapMoney(s, t);
    With(With(w, c, Traded(s, t.trade.changes, purses.0)), p, Traded(t, s.trade.changes, purses.1))
  }

  /** Whether operProCheckChange goes on to the swap. */
  predicate Commits(w: World, c: nat)
    requires c in w.sessions
  {
    && HasPartner(w, c) && |w.sessions[c].bag.slots| == |w.sessions[PartnerOf(w, c)].bag.slots| == SLOT_COUNT
    && w.sessions[c].trade.isLocked && w.sessions[PartnerOf(w, c)].trade.isLocked
    && w.sessions[PartnerOf(w, c)].trade.isChangeChecked
    && Fits(w.sessions[c], w.sessions[PartnerOf(w, c)])
  }

  /** operProCheckChange */
  function Check(w: World, c: nat): World
    requires c in w.sessions && CanTrade(w.sessions[c])
    requires HasPartner(w, c) ==> CanTrade(w.sessions[PartnerOf(w, c)])
  {
    var s := w.sessions[c];
    if !HasPartner(w, c) then With(w, c, Release(s))
    else
      var p := PartnerOf(w, c);
      var t := w.sessions[p];
      if !(s.trade.isLocked && t.trade.isLocked) then w
      else if !t.trade.isChangeChecked then With(w, c, s.(trade := s.trade.(isChangeChecked := true)))
      else if !Fits(s, t) then With(With(w, c, Release(s)), p, Release(t))
      else Commit(w, c, p)
  }
}
