// Whole runs of the trade protocol, with players coming, going and using their bags meanwhile.
module TradeRuns {
  import opened GoodsBag
  import opened BagEdits
  import opened BagOperations
  import opened BagAgreement
  import opened BagCounts
  import opened Trade
  import opened TradeCommit
  import opened TradeSafety
  import opened EquipmentArrangement
  import opened BagArrangement
  import opened ArrangeBehind

  // ----- Moving goods while trading -----

  lemma FindAtSame(v: seq<Stack>, w: seq<Stack>, p: nat)
    requires |w| == |v| && FindAt(v, p, 0) < |v|
    requires w[FindAt(v, p, 0)] == v[FindAt(v, p, 0)] && forall k :: 0 <= k < FindAt(v, p, 0) ==> w[k].pos != p
    ensures FindAt(w, p, 0) == FindAt(v, p, 0)
  {
  }

  /** A stack at neither end of a move is found where it was. */
  lemma MoveStacksKeepsHeld(v: seq<Stack>, i: nat, j: nat, n: nat, p: nat)
    requires i < |v| && j < |v| && i != j && n <= v[i].count && v[j].count <= MAX_STACK
    requires p != v[i].pos && p != v[j].pos && FindAt(v, p, 0) < |v|
    ensures var w := MoveStacks(v, i, j, n).stacks;
            FindAt(w, p, 0) < |w| && w[FindAt(w, p, 0)] == v[FindAt(v, p, 0)]
  {
    if MoveKind(v[i], v[j], n) == Merge {
      var w := v[i := v[i].(count := 0)][j := v[j].(count := v[j].count + n)];
      FindAtSame(v, w, p);
      FindAtRest(w, i, p);
    } else {
      FindAtSame(v, MoveStacks(v, i, j, n).stacks, p);
    }
  }

  lemma MoveKeepsHeld(b: Bag, g: nat, from: nat, to: nat, n: nat, o: Stack)
    requires |b.slots| == SLOT_COUNT && from < SLOT_COUNT && to < SLOT_COUNT && Capped(b)
    requires o.pos < SLOT_COUNT && b.slots[o.pos] == Locked && Held(b.goods, o)
    ensures var r := MoveGoods(b, g, from, to, n).bag;
            Held(r.goods, o) && r.slots[o.pos] == Locked
  {
    if CanMove(b, g, from, to, n) && o.goodsId == g {
      var v := b.goods[g];
      MoveStacksKeepsHeld(v, FindAt(v, from, 0), FindAt(v, to, 0), n, o.pos);
    }
  }

  lemma MoveKeepsOffers(b: Bag, g: nat, from: nat, to: nat, n: nat, offers: seq<Stack>)
    requires OffersHeld(b, offers) && from < SLOT_COUNT && to < SLOT_COUNT && Capped(b)
    ensures OffersHeld(MoveGoods(b, g, from, to, n).bag, offers)
  {
    forall o | o in offers
      ensures Held(MoveGoods(b, g, from, to, n).bag.goods, o) && MoveGoods(b, g, from, to, n).bag.slots[o.pos] == Locked
    {
      MoveKeepsHeld(b, g, from, to, n, o);
    }
  }

  /** MoveBagGoods, which is allowed during a trade. */
  function MoveWithin(w: World, c: nat, g: nat, from: nat, to: nat, n: nat): World
    requires c in w.sessions && |w.sessions[c].bag.slots| == SLOT_COUNT && from < SLOT_COUNT && to < SLOT_COUNT
    requires Capped(w.sessions[c].bag)
  {
    var s := w.sessions[c];
    var r := MoveGoods(s.bag, g, from, to, n);
    With(w, c, s.(bag := r.bag, rows := ApplyAll(s.rows, r.changes)))
  }

  lemma MoveWithinIsSafe(R: TradeRelation, w: World, c: nat, g: nat, from: nat, to: nat, n: nat)
    requires Fitting(R) && Safe(R, w) && c in w.sessions && |w.sessions[c].bag.slots| == SLOT_COUNT
    requires from < SLOT_COUNT && to < SLOT_COUNT && !JournalsWrongStack(w.sessions[c].bag, g, from, to, n)
    ensures Safe(R, MoveWithin(w, c, g, from, to, n))
  {
    var s := w.sessions[c];
    var r := MoveGoods(s.bag, g, from, to, n);
    MoveKeepsOffers(s.bag, g, from, to, n, s.trade.changes);
    assert Regular(s.bag, g);
    MoveKeeps(R, s.bag, s.rows, g, from, to, n);
    MoveConserves(s.bag, g, from, to, n);
    OneChanged(R, w, c, s.(bag := r.bag, rows := ApplyAll(s.rows, r.changes)));
  }

  /** ArrangeBagGoods, which no trade stops; waiting are the changes of the role still in the queue. */
  function ArrangeWithin(w: World, c: nat, o: Orders, waiting: seq<Change>): World
    requires c in w.sessions
    requires forall e :: e in o.equ ==> e in w.sessions[c].bag.equ
    requires forall k :: k in o.goods ==> k in w.sessions[c].bag.goods
  {
    var s := w.sessions[c];
    var r := ArrangedBag(s.bag, o);
    With(w, c, s.(bag := r.bag, rows := RowsAfterArranging(waiting, r.changes)))
  }

  /** Nothing is on offer: any bag in agreement will do. */
  lemma BagReplaced(R: TradeRelation, w: World, c: nat, bag: Bag, rows: Table)
    requires Fitting(R) && Safe(R, w) && c in w.sessions && w.sessions[c].trade.changes == []
    requires R(bag, rows) && Capped(bag)
    ensures Safe(R, With(w, c, w.sessions[c].(bag := bag, rows := rows)))
  {
    assert Regular(bag, 0);
    OneChanged(R, w, c, w.sessions[c].(bag := bag, rows := rows));
  }

  lemma ArrangingIsSafe(R: TradeRelation, w: World, c: nat, o: Orders, waiting: seq<Change>)
    requires Fitting(R) && Safe(R, w) && c in w.sessions && Meets(o, w.sessions[c].bag)
    requires w.sessions[c].trade.changes == []
    requires var r := ArrangedBag(w.sessions[c].bag, o); R(r.bag, RowsAfterArranging(waiting, r.changes))
    ensures Safe(R, ArrangeWithin(w, c, o, waiting))
  {
    var r := ArrangedBag(w.sessions[c].bag, o);
    ArrangedBagKeepsCap(w.sessions[c].bag, o);
    BagReplaced(R, w, c, r.bag, RowsAfterArranging(waiting, r.changes));
  }

  // ----- Business outside trades -----

  /** Picking up, buying and selling are refused during a trade; otherwise they leave some bag and purse. */
  function Business(w: World, c: nat, bag: Bag, purse: Purse, rows: Table): World
    requires c in w.sessions
  {
    if w.sessions[c].trade.isInchange then w
    else With(w, c, w.sessions[c].(bag := bag, purse := purse, rows := rows))
  }

  lemma BusinessIsSafe(R: TradeRelation, w: World, c: nat, bag: Bag, purse: Purse, rows: Table)
    requires Fitting(R) && Safe(R, w) && c in w.sessions && R(bag, rows) && Capped(bag) && InWords(purse)
    ensures Safe(R, Business(w, c, bag, purse, rows))
  {
    if !w.sessions[c].trade.isInchange {
      assert Regular(bag, 0);
      OneChanged(R, w, c, w.sessions[c].(bag := bag, purse := purse, rows := rows));
    }
  }

  // ----- Coming and going -----

  /** A role logs in over a connection that has never been used. */
  function Login(w: World, c: nat, s: Session): World {
    World(w.sessions[c := s], w.socks[s.role := c])
  }

  predicate IsFresh(w: World, c: nat) {
    c !in w.sessions && forall x :: x in w.sessions ==> w.sessions[x].trade.partner != Partner(c)
  }

  lemma LoginPaired(w: World, c: nat, s: Session)
    requires AllPaired(w) && IsFresh(w, c) && s.trade.partner == Nobody
    ensures AllPaired(Login(w, c, s))
  {
    var w' := Login(w, c, s);
    forall x | x in w'.sessions
      ensures PairedAt(w', x)
    {
      if x != c {
        assert PairedAt(w, x);
        StillPaired(w, w', x);
      }
    }
  }

  lemma LoginSocks(w: World, c: nat, s: Session)
    requires SocksAgree(w) && c !in w.sessions && s.role !in w.socks
    ensures SocksAgree(Login(w, c, s))
  {
  }

  lemma LoginIsSafe(R: TradeRelation, w: World, c: nat, s: Session)
    requires Safe(R, w) && IsFresh(w, c) && s.role !in w.socks && Idle(s.trade) && R(s.bag, s.rows)
             && Capped(s.bag) && InWords(s.purse) && |s.bag.slots| == SLOT_COUNT
    ensures Safe(R, Login(w, c, s))
  {
    LoginPaired(w, c, s);
    LoginSocks(w, c, s);
  }

  /** SavePlayerOfflineData: the other side of a trade learns nothing of it. */
  function Logout(w: World, c: nat): World
    requires c in w.sessions
  {
    World(w.sessions - {c}, w.socks - {w.sessions[c].role})
  }

  lemma LogoutIsSafe(R: TradeRelation, w: World, c: nat)
    requires Safe(R, w) && c in w.sessions
    ensures Safe(R, Logout(w, c))
  {
    var w' := Logout(w, c);
    forall x | x in w'.sessions
      ensures PairedAt(w', x)
    {
      assert PairedAt(w, x);
    }
  }

  // ----- Runs -----

  datatype Message =
    | Asks(role: nat)
    | Answers(role: nat, accept: bool)
    | OffersMoney(moneyType: nat, count: nat)
    | OffersGoods(kind: OfferKind, offer: Stack)
    | Locks
    | Unlocks
    | Confirms
    | Cancels
    | CancelsRequest
    | Moves(g: nat, from: nat, to: nat, n: nat)
    | Arranges(orders: Orders, waiting: seq<Change>)
    | DoesBusiness(bag: Bag, purse: Purse, rows: Table)
    | LogsIn(session: Session)
    | LogsOut

  predicate IsTrading(m: Message) {
    !m.Moves? && !m.Arranges? && !m.DoesBusiness? && !m.LogsIn? && !m.LogsOut?
  }

  /** A trade is not with oneself, an answer names the own partner, what is offered stacks and no offer is
      forged, slots named are slots, a move does not journal the wrong stack, nobody arranges its bag while it
      offers something from it, arranging keeps bag and rows related, business outside trades does so and keeps
      the cap, and a role logs in once, over a new connection. */
  ghost predicate Legal(R: TradeRelation, w: World, c: nat, m: Message)
    requires Safe(R, w)
  {
    if m.LogsIn? then
      && IsFresh(w, c) && m.session.role !in w.socks && Idle(m.session.trade)
      && R(m.session.bag, m.session.rows) && Capped(m.session.bag) && InWords(m.session.purse)
      && |m.session.bag.slots| == SLOT_COUNT
    else
      && c in w.sessions
      && match m
         case Asks(role) => role in w.socks ==> w.socks[role] != c
         case Answers(role, _) => NamesOwnPartner(w, c, role)
         case OffersGoods(kind, o) => !Forged(w, c, kind, o) && IsStackable(o.goodsId) && o.pos < SLOT_COUNT
         case Moves(g, from, to, n) =>
           from < SLOT_COUNT && to < SLOT_COUNT && !JournalsWrongStack(w.sessions[c].bag, g, from, to, n)
         case Arranges(o, waiting) =>
           && Meets(o, w.sessions[c].bag) && w.sessions[c].trade.changes == []
           && var r := ArrangedBag(w.sessions[c].bag, o); R(r.bag, RowsAfterArranging(waiting, r.changes))
         case DoesBusiness(bag, purse, rows) => R(bag, rows) && Capped(bag) && InWords(purse)
         case _ => true
  }

  ghost function TradeStep(R: TradeRelation, w: World, c: nat, m: Message): World
    requires Safe(R, w) && Legal(R, w, c, m) && IsTrading(m)
  {
    match m
    case Asks(role) => Request(w, c, role)
    case Answers(role, accept) => Response(w, c, role, accept)
    case OffersMoney(moneyType, count) => OfferMoney(w, c, moneyType, count)
    case OffersGoods(kind, o) => OfferGoods(w, c, kind, o)
    case Locks => Lock(w, c)
    case Unlocks => Unlock(w, c)
    case Confirms => Check(w, c)
    case Cancels => Cancel(w, c)
    case CancelsRequest => CancelRequest(w, c)
  }

  ghost function Step(R: TradeRelation, w: World, c: nat, m: Message): World
    requires Safe(R, w) && Legal(R, w, c, m)
  {
    match m
    case Moves(g, from, to, n) => MoveWithin(w, c, g, from, to, n)
    case Arranges(o, waiting) => ArrangeWithin(w, c, o, waiting)
    case DoesBusiness(bag, purse, rows) => Business(w, c, bag, purse, rows)
    case LogsIn(s) => Login(w, c, s)
    case LogsOut => Logout(w, c)
    case _ => TradeStep(R, w, c, m)
  }

  lemma TradeStepIsSafe(R: TradeRelation, w: World, c: nat, m: Message)
    requires Fitting(R) && Safe(R, w) && Legal(R, w, c, m) && IsTrading(m)
    ensures Safe(R, TradeStep(R, w, c, m))
  {
    match m
    case Asks(role) => RequestIsSafe(R, w, c, role);
    case Answers(role, accept) => ResponseIsSafe(R, w, c, role, accept);
    case OffersMoney(moneyType, count) => OfferMoneyIsSafe(R, w, c, moneyType, count);
    case OffersGoods(kind, o) => OfferGoodsIsSafe(R, w, c, kind, o);
    case Locks => LockIsSafe(R, w, c);
    case Unlocks => UnlockIsSafe(R, w, c);
    case Confirms => CheckIsSafe(R, w, c);
    case Cancels => CancelIsSafe(R, w, c);
    case CancelsRequest => CancelRequestIsSafe(R, w, c);
  }

  lemma StepIsSafe(R: TradeRelation, w: World, c: nat, m: Message)
    requires Fitting(R) && Safe(R, w) && Legal(R, w, c, m)
    ensures Safe(R, Step(R, w, c, m))
  {
    match m
    case Moves(g, from, to, n) => MoveWithinIsSafe(R, w, c, g, from, to, n);
    case Arranges(o, waiting) => ArrangingIsSafe(R, w, c, o, waiting);
    case DoesBusiness(bag, purse, rows) => BusinessIsSafe(R, w, c, bag, purse, rows);
    case LogsIn(s) => LoginIsSafe(R, w, c, s);
    case LogsOut => LogoutIsSafe(R, w, c);
    case _ => TradeStepIsSafe(R, w, c, m);
  }

  /** A run: who sent what. */
  ghost predicate Runs(R: TradeRelation, w: World, run: seq<(nat, Message)>, end: World)
    decreases |run|
  {
    if run == [] then end == w
    else Safe(R, w) && Legal(R, w, run[0].0, run[0].1) && Runs(R, Step(R, w, run[0].0, run[0].1), run[1..], end)
  }

  /** Over every run the trade stays safe: links are mutual, offers are locked stacks and distinct, money
      offered is there, who has confirmed finds both sides locked, and bags agree with their rows. */
  lemma {:induction false} RunIsSafe(w: World, run: seq<(nat, Message)>, end: World)
    requires Safe(Agreement(), w) && Runs(Agreement(), w, run, end)
    ensures Safe(Agreement(), end)
    decreases |run|
  {
    var R := Agreement();
    AgreementIsFitting();
    if run != [] {
      StepIsSafe(R, w, run[0].0, run[0].1);
      RunIsSafe(Step(R, w, run[0].0, run[0].1), run[1..], end);
    }
  }

  lemma NobodyThereIsSafe()
    ensures Safe(Agreement(), World(map[], map[]))
  {
  }

  // ----- Only the swap moves goods or money -----

  /** The session as far as goods, money and rows go. */
  predicate SameGoods(s: Session, s': Session) {
    s'.bag.goods == s.bag.goods && s'.bag.equ == s.bag.equ && s'.purse == s.purse && s'.rows == s.rows
  }

  /** Nobody comes or goes, and no goods, money or rows change. */
  ghost predicate NothingMoves(w: World, w': World) {
    w'.sessions.Keys == w.sessions.Keys && forall x :: x in w.sessions ==> SameGoods(w.sessions[x], w'.sessions[x])
  }

  lemma OneStays(w: World, c: nat, s: Session)
    requires c in w.sessions && SameGoods(w.sessions[c], s)
    ensures NothingMoves(w, With(w, c, s))
  {
  }

  lemma TwoStay(w: World, c: nat, s: Session, p: nat, t: Session)
    requires c in w.sessions && p in w.sessions && SameGoods(w.sessions[c], s) && SameGoods(w.sessions[p], t)
    ensures NothingMoves(w, With(With(w, c, s), p, t))
  {
  }

  lemma AskingMovesNothing(w: World, c: nat, role: nat, accept: bool)
    requires c in w.sessions && forall r :: r in w.socks ==> w.socks[r] in w.sessions
    ensures NothingMoves(w, Request(w, c, role)) && NothingMoves(w, Response(w, c, role, accept))
  {
    var s := w.sessions[c];
    OneStays(w, c, Leave(s));
    if role in w.socks {
      var p := w.socks[role];
      var asked := With(w, c, Join(s, p)).sessions[p];
      var left := With(w, c, Leave(s)).sessions[p];
      TwoStay(w, c, Join(s, p), p, Join(asked, c));
      TwoStay(w, c, Leave(s), p, Leave(left));
    }
  }

  lemma OfferingMoneyMovesNothing(w: World, c: nat, moneyType: nat, count: nat)
    requires c in w.sessions
    ensures NothingMoves(w, OfferMoney(w, c, moneyType, count))
  {
    var s := w.sessions[c];
    OneStays(w, c, Release(s));
    OneStays(w, c, s.(trade := s.trade.(moneyType := moneyType, moneyCount := count)));
  }

  lemma ChangeOfferSameGoods(s: Session, kind: OfferKind, o: Stack)
    requires o.pos < |s.bag.slots|
    ensures SameGoods(s, ChangeOffer(s, kind, o)) && SameGoods(s, Release(ChangeOffer(s, kind, o)))
  {
  }

  lemma OfferingGoodsMovesNothing(w: World, c: nat, kind: OfferKind, o: Stack)
    requires c in w.sessions && o.pos < |w.sessions[c].bag.slots|
    ensures NothingMoves(w, OfferGoods(w, c, kind, o))
  {
    var s := w.sessions[c];
    ChangeOfferSameGoods(s, kind, o);
    OneStays(w, c, ChangeOffer(s, kind, o));
    OneStays(w, c, Release(ChangeOffer(s, kind, o)));
  }

  lemma LockingMovesNothing(w: World, c: nat)
    requires c in w.sessions
    ensures NothingMoves(w, Lock(w, c)) && NothingMoves(w, Unlock(w, c))
  {
    var s := w.sessions[c];
    OneStays(w, c, Release(s));
    OneStays(w, c, s.(trade := s.trade.(isLocked := true)));
    if HasPartner(w, c) {
      var p := PartnerOf(w, c);
      var w1 := With(w, c, UnlockTrade(s));
      TwoStay(w, c, UnlockTrade(s), p, UnlockTrade(w1.sessions[p]));
    }
  }

  lemma LeavingMovesNothing(w: World, c: nat)
    requires c in w.sessions
    ensures NothingMoves(w, Cancel(w, c)) && NothingMoves(w, CancelRequest(w, c))
  {
    var s := w.sessions[c];
    OneStays(w, c, Leave(s));
    if HasPartner(w, c) {
      var p := PartnerOf(w, c);
      var w1 := With(w, c, Release(s));
      var w2 := With(w, c, Leave(s));
      TwoStay(w, c, Release(s), p, Release(w1.sessions[p]));
      TwoStay(w, c, Leave(s), p, Leave(w2.sessions[p]));
    }
  }

  lemma ConfirmingMovesNothing(w: World, c: nat)
    requires c in w.sessions && CanTrade(w.sessions[c]) && (HasPartner(w, c) ==> CanTrade(w.sessions[PartnerOf(w, c)]))
    requires !Commits(w, c)
    ensures NothingMoves(w, Check(w, c))
  {
    var s := w.sessions[c];
    OneStays(w, c, Release(s));
    OneStays(w, c, s.(trade := s.trade.(isChangeChecked := true)));
    if HasPartner(w, c) {
      TwoStay(w, c, Release(s), PartnerOf(w, c), Release(w.sessions[PartnerOf(w, c)]));
    }
  }

  lemma TradeStepMovesNothing(R: TradeRelation, w: World, c: nat, m: Message)
    requires Safe(R, w) && Legal(R, w, c, m) && IsTrading(m)
    requires !(m.Confirms? && Commits(w, c))
    ensures NothingMoves(w, TradeStep(R, w, c, m))
  {
    match m
    case Asks(role) => AskingMovesNothing(w, c, role, true);
    case Answers(role, accept) => AskingMovesNothing(w, c, role, accept);
    case OffersMoney(moneyType, count) => OfferingMoneyMovesNothing(w, c, moneyType, count);
    case OffersGoods(kind, o) => OfferingGoodsMovesNothing(w, c, kind, o);
    case Locks => LockingMovesNothing(w, c);
    case Unlocks => LockingMovesNothing(w, c);
    case Confirms => ConfirmingMovesNothing(w, c);
    case Cancels => LeavingMovesNothing(w, c);
    case CancelsRequest => LeavingMovesNothing(w, c);
  }

  /** A message of the trade protocol moves goods or money only when it confirms a trade that both sides have
      locked, that the other side has confirmed, and whose goods fit. */
  lemma OnlyTheSwapMovesGoods(R: TradeRelation, w: World, c: nat, m: Message)
    requires Safe(R, w) && Legal(R, w, c, m) && IsTrading(m)
    requires !(m.Confirms? && Commits(w, c))
    ensures NothingMoves(w, Step(R, w, c, m))
  {
    TradeStepMovesNothing(R, w, c, m);
  }

  // ----- What the swap does -----

  /** s' has the goods of s less what s offered, plus what t offered, and is out of the trade. */
  ghost predicate GoodsSwapped(s: Session, t: Session, s': Session) {
    && (forall g, n :: HowMany(StacksOf(s'.bag.goods, g), n)
                    == HowMany(StacksOf(s.bag.goods, g), n) - HowMany(OffersOf(s.trade.changes, g), n)
                       + HowMany(OffersOf(t.trade.changes, g), n))
    && (forall g :: Total(StacksOf(s'.bag.goods, g))
                 == Total(StacksOf(s.bag.goods, g)) - Total(OffersOf(s.trade.changes, g))
                    + Total(OffersOf(t.trade.changes, g)))
    && Idle(s'.trade)
  }

  /** s' has the money of s less what s offered, plus what t offered. */
  ghost predicate MoneySwapped(s: Session, t: Session, s': Session) {
    forall k :: Balance(s'.purse, k) == Due(s, t, k)
  }

  /** What s is to have fits 32 bits. */
  ghost predicate DueFits(s: Session, t: Session) {
    forall k :: Due(s, t, k) < WORD
  }

  lemma TradedIsSwapped(s: Session, t: Session, purse: Purse)
    requires OffersHeld(s.bag, s.trade.changes)
    ensures GoodsSwapped(s, t, Traded(s, t.trade.changes, purse))
  {
    var after := Traded(s, t.trade.changes, purse).bag.goods;
    forall g, n
      ensures HowMany(StacksOf(after, g), n)
           == HowMany(StacksOf(s.bag.goods, g), n) - HowMany(OffersOf(s.trade.changes, g), n)
              + HowMany(OffersOf(t.trade.changes, g), n)
    {
      SwapMovesTheOffers(s.bag, s.trade.changes, t.trade.changes, g, n);
    }
    forall g
      ensures Total(StacksOf(after, g))
           == Total(StacksOf(s.bag.goods, g)) - Total(OffersOf(s.trade.changes, g))
              + Total(OffersOf(t.trade.changes, g))
    {
      SwapMovesTheOffers(s.bag, s.trade.changes, t.trade.changes, g, 0);
    }
  }

  lemma MoneyIsSwappedExactlyWhen(s: Session, t: Session, s': Session, t': Session)
    requires InWords(s.purse) && InWords(t.purse) && MoneyHeld(s) && MoneyHeld(t)
    requires s'.purse == SwapMoney(s, t).0 && t'.purse == SwapMoney(s, t).1
    ensures MoneySwapped(s, t, s') <==> DueFits(s, t)
    ensures MoneySwapped(t, s, t') <==> DueFits(t, s)
  {
    forall k
      ensures Balance(s'.purse, k) == Due(s, t, k) <==> Due(s, t, k) < WORD
      ensures Balance(t'.purse, k) == Due(t, s, k) <==> Due(t, s, k) < WORD
    {
      SwapMoneyIsExactExactlyWhen(s, t, k);
    }
  }

  lemma CommitChangesTwo(w: World, c: nat, p: nat)
    requires c in w.sessions && p in w.sessions && c != p && CanTrade(w.sessions[c]) && CanTrade(w.sessions[p])
    ensures var purses := SwapMoney(w.sessions[c], w.sessions[p]);
            var w' := Commit(w, c, p);
            && w'.sessions.Keys == w.sessions.Keys
            && w'.sessions[c] == Traded(w.sessions[c], w.sessions[p].trade.changes, purses.0)
            && w'.sessions[p] == Traded(w.sessions[p], w.sessions[c].trade.changes, purses.1)
            && forall x :: x in w.sessions && x != c && x != p ==> w'.sessions[x] == w.sessions[x]
  {
  }

  /** Bag and purse are as the invariant has them. */
  ghost predicate CanSwap(s: Session) {
    CanTrade(s) && OffersHeld(s.bag, s.trade.changes) && MoneyHeld(s) && InWords(s.purse)
  }

  /** Each side has its goods and its money as it should, or its balance does not fit. */
  ghost predicate FairlySwapped(s: Session, t: Session, s': Session) {
    GoodsSwapped(s, t, s') && (MoneySwapped(s, t, s') <==> DueFits(s, t))
  }

  lemma CommitIsFair(w: World, c: nat, p: nat)
    requires c in w.sessions && p in w.sessions && c != p && CanSwap(w.sessions[c]) && CanSwap(w.sessions[p])
    ensures var w' := Commit(w, c, p);
            && w'.sessions.Keys == w.sessions.Keys
            && FairlySwapped(w.sessions[c], w.sessions[p], w'.sessions[c])
            && FairlySwapped(w.sessions[p], w.sessions[c], w'.sessions[p])
            && forall x :: x in w.sessions && x != c && x != p ==> w'.sessions[x] == w.sessions[x]
  {
    var s, t := w.sessions[c], w.sessions[p];
    var purses := SwapMoney(s, t);
    TradedIsSwapped(s, t, purses.0);
    TradedIsSwapped(t, s, purses.1);
    CommitChangesTwo(w, c, p);
    MoneyIsSwappedExactlyWhen(s, t, Traded(s, t.trade.changes, purses.0), Traded(t, s.trade.changes, purses.1));
  }

  lemma ConfirmCommits(R: TradeRelation, w: World, c: nat)
    requires Safe(R, w) && Legal(R, w, c, Confirms) && Commits(w, c)
    ensures var p := PartnerOf(w, c);
            && c != p && CanSwap(w.sessions[c]) && CanSwap(w.sessions[p])
            && Step(R, w, c, Confirms) == Commit(w, c, p)
  {
    assert Paired(w.sessions[c], c, w.sessions[PartnerOf(w, c)], PartnerOf(w, c));
  }

  /** A confirmed trade whose goods fit gives each side its old stacks less its own offer, plus the other side's,
      and touches nobody else: what one side gives the other gets. The same holds of each side's money exactly
      when what it is to have fits 32 bits. */
  lemma TheSwapIsFair(R: TradeRelation, w: World, c: nat)
    requires Safe(R, w) && Legal(R, w, c, Confirms) && Commits(w, c)
    ensures var p := PartnerOf(w, c);
            var w' := Step(R, w, c, Confirms);
            && w'.sessions.Keys == w.sessions.Keys
            && FairlySwapped(w.sessions[c], w.sessions[p], w'.sessions[c])
            && FairlySwapped(w.sessions[p], w.sessions[c], w'.sessions[p])
            && forall x :: x in w.sessions && x != c && x != p ==> w'.sessions[x] == w.sessions[x]
  {
    ConfirmCommits(R, w, c);
    CommitIsFair(w, c, PartnerOf(w, c));
  }
}
