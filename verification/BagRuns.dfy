// Whole runs of bag operations, with the journal replayed after every one of them.
module BagRuns {
  import opened GoodsBag
  import opened BagEdits
  import opened BagOperations
  import opened BagAgreement
  import opened BagCounts

  /** One request of a player who is not trading. A sale pays whatever the shop pays. */
  datatype Operation =
    | PickUp(g: nat, n: nat)
    | PickUpOne(typeId: nat)
    | Buy(g: nat, n: nat, price: nat)
    | SellStack(id: nat, p: nat, coins: nat)
    | Move(g: nat, from: nat, to: nat, n: nat)

  /** Loot comes in heaps of 1 to 99, goods numbers lie below those of equipment, positions in the bag. */
  predicate Legal(op: Operation) {
    match op
    case PickUp(g, n) => g < EQUIPMENT_ID && !IsEquipmentType(g) && 1 <= n <= MAX_STACK
    case PickUpOne(typeId) => IsEquipmentType(typeId)
    case Buy(g, n, price) => g < EQUIPMENT_ID
    case SellStack(_, _, _) => true
    case Move(_, from, to, _) => from < SLOT_COUNT && to < SLOT_COUNT
  }

  function Perform(b: Bag, purse: nat, op: Operation): Purchase
    requires |b.slots| == SLOT_COUNT && Capped(b) && Legal(op)
  {
    match op
    case PickUp(g, n) => var r := PickUpCommon(b, g, n); Purchase(r.bag, purse, r.changes)
    case PickUpOne(typeId) => var r := PickUpEquipment(b, typeId); Purchase(r.bag, purse, r.changes)
    case Buy(g, n, price) => BuyGoods(b, purse, price, g, n)
    case SellStack(id, p, coins) => var r := Sell(b, id, p); Purchase(r.bag, (purse + coins) % WORD, r.changes)
    case Move(g, from, to, n) => var r := MoveGoods(b, g, from, to, n); Purchase(r.bag, purse, r.changes)
  }

  /** The two requests after which bag and rows no longer agree: a purchase of nothing of goods the bag
      does not hold, and a move that journals the wrong stack. */
  predicate Spoils(b: Bag, op: Operation)
    requires |b.slots| == SLOT_COUNT && Legal(op)
  {
    match op
    case Buy(g, n, price) => n == 0 && price != 0 && !IsEquipmentType(g) && g !in b.goods
    case Move(g, from, to, n) => JournalsWrongStack(b, g, from, to, n)
    case _ => false
  }

  lemma Agreeing(b: Bag, t: Table, g: nat)
    requires Agrees(b, t)
    ensures |b.slots| == SLOT_COUNT && Numbered(b) && Sound(StacksOf(b.goods, g), g)
    ensures Uniform(StacksOf(b.goods, g), g)
    ensures g in b.goods ==> b.goods[g] != []
    ensures forall e :: e in b.equ ==> b.equ[e].pos < SLOT_COUNT
  {
  }

  lemma BuyEquipmentAgrees(b: Bag, t: Table, g: nat, n: nat)
    requires Agrees(b, t) && n <= EmptyCount(b.slots)
    ensures Agrees(AddEquipments(b, g, n).bag, ApplyAll(t, AddEquipments(b, g, n).changes))
  {
    Agreeing(b, t, g);
    AgreementSurvivesEdits();
    AddEquipmentsKeeps(Agreement(), b, t, g, n);
  }

  lemma BuyOtherAgrees(b: Bag, t: Table, g: nat, n: nat)
    requires Agrees(b, t) && g < EQUIPMENT_ID && StacksFor(n) <= EmptyCount(b.slots) && (n > 0 || g in b.goods)
    ensures Agrees(BuyAll(b, g in b.goods, g, n).bag, ApplyAll(t, BuyAll(b, g in b.goods, g, n).changes))
  {
    Agreeing(b, t, g);
    AgreementSurvivesEdits();
    BuyAllKeeps(Agreement(), b, t, g in b.goods, g, n);
  }

  lemma BoughtAgrees(b: Bag, t: Table, g: nat, n: nat)
    requires Agrees(b, t) && g < EQUIPMENT_ID && HasRoom(b, g, n) && (IsEquipmentType(g) || n > 0 || g in b.goods)
    ensures var r := if IsEquipmentType(g) then BuyEquipment(b, g, n) else BuyOther(b, g, n);
            Agrees(r.bag, ApplyAll(t, r.changes))
  {
    if IsEquipmentType(g) {
      BuyEquipmentAgrees(b, t, g, n);
    } else {
      BuyOtherAgrees(b, t, g, n);
    }
  }

  lemma BuyAgrees(b: Bag, t: Table, purse: nat, g: nat, n: nat, price: nat)
    requires Agrees(b, t) && g < EQUIPMENT_ID && !Spoils(b, Buy(g, n, price))
    ensures Agrees(BuyGoods(b, purse, price, g, n).bag, ApplyAll(t, BuyGoods(b, purse, price, g, n).changes))
  {
    if price == 0 || purse < n * price % WORD || !HasRoom(b, g, n) {
      PurchaseRefused(b, purse, price, g, n);
    } else {
      BoughtAgrees(b, t, g, n);
    }
  }

  lemma PickUpAgrees(b: Bag, t: Table, g: nat, n: nat)
    requires Agrees(b, t) && g < EQUIPMENT_ID && n >= 1
    ensures Agrees(PickUpCommon(b, g, n).bag, ApplyAll(t, PickUpCommon(b, g, n).changes))
  {
    Agreeing(b, t, g);
    AgreementSurvivesEdits();
    PickUpKeeps(Agreement(), b, t, g, n);
  }

  lemma PickUpOneAgrees(b: Bag, t: Table, typeId: nat)
    requires Agrees(b, t)
    ensures Agrees(PickUpEquipment(b, typeId).bag, ApplyAll(t, PickUpEquipment(b, typeId).changes))
  {
    Agreeing(b, t, 0);
    AgreementSurvivesEdits();
    if FirstEmpty(b.slots) != 0 {
      AddEquipmentKeeps(Agreement(), b, t, typeId);
    }
  }

  lemma SellAgrees(b: Bag, t: Table, id: nat, p: nat)
    requires Agrees(b, t)
    ensures Agrees(Sell(b, id, p).bag, ApplyAll(t, Sell(b, id, p).changes))
  {
    Agreeing(b, t, id);
    AgreementSurvivesEdits();
    SellKeeps(Agreement(), b, t, id, p);
  }

  lemma MoveAgrees(b: Bag, t: Table, g: nat, from: nat, to: nat, n: nat)
    requires Agrees(b, t) && Capped(b) && from < SLOT_COUNT && to < SLOT_COUNT && !JournalsWrongStack(b, g, from, to, n)
    ensures Agrees(MoveGoods(b, g, from, to, n).bag, ApplyAll(t, MoveGoods(b, g, from, to, n).changes))
  {
    Agreeing(b, t, g);
    AgreementSurvivesEdits();
    MoveKeeps(Agreement(), b, t, g, from, to, n);
  }

  lemma FaithfulStep(b: Bag, t: Table, purse: nat, op: Operation)
    requires Agrees(b, t) && Capped(b) && Legal(op) && !Spoils(b, op)
    ensures Agrees(Perform(b, purse, op).bag, ApplyAll(t, Perform(b, purse, op).changes))
  {
    match op
    case PickUp(g, n) => PickUpAgrees(b, t, g, n);
    case PickUpOne(typeId) => PickUpOneAgrees(b, t, typeId);
    case Buy(g, n, price) => BuyAgrees(b, t, purse, g, n, price);
    case SellStack(id, p, _) => SellAgrees(b, t, id, p);
    case Move(g, from, to, n) => MoveAgrees(b, t, g, from, to, n);
  }

  lemma StepKeepsCap(b: Bag, t: Table, purse: nat, op: Operation)
    requires Agrees(b, t) && Capped(b) && Legal(op)
    ensures Capped(Perform(b, purse, op).bag)
  {
    match op
    case PickUp(g, n) => PickUpLeavesRest(b, g, n);
    case PickUpOne(typeId) =>
    case Buy(g, n, price) =>
      Agreeing(b, t, g);
      if HasRoom(b, g, n) {
        BoughtPieces(b, g, n);
      }
    case SellStack(id, p, _) =>
      if id < EQUIPMENT_ID {
        SellTakesOneStack(b, id, p);
      }
    case Move(g, from, to, n) => MoveConserves(b, g, from, to, n);
  }

  predicate IsRow(s: Stack, t: Table) {
    s.pos in t && t[s.pos] == s
  }

  /** The stacks a merge touches or, by mistake, journals have their rows. */
  predicate MergeRows(v: seq<Stack>, t: Table, i: nat, j: nat)
    requires i < j < |v| - 1
  {
    && IsRow(v[i], t) && IsRow(v[j], t) && IsRow(v[j + 1], t) && v[i].count >= 1
    && v[i].pos != v[j].pos && v[i].pos != v[j + 1].pos && v[j].pos != v[j + 1].pos
  }

  lemma WrongRows(v: seq<Stack>, t: Table, i: nat, j: nat, n: nat)
    requires i < j < |v| - 1 && v[j].count + n <= MAX_STACK && n == v[i].count && MergeRows(v, t, i, j)
    requires MoveKind(v[i], v[j], n) == Merge
    ensures var w := v[i := v[i].(count := 0)][j := v[j].(count := v[j].count + v[i].count)];
            var rows := ApplyAll(t, MoveStacks(v, i, j, n).changes);
            && v[j].pos in rows
            && rows[v[j].pos := rows[v[j].pos].(count := rows[v[j].pos].count + n)]
               == ApplyAll(t, [Delete(w[i]), Update(w[j])])
  {
    var w := v[i := v[i].(count := 0)][j := v[j].(count := v[j].count + v[i].count)];
    ApplyTwo(t, Delete(w[i]), Update(w[j]));
    ApplyTwo(t, Delete(w[i]), Update(w[j + 1]));
    assert MoveStacks(v, i, j, n).changes == [Delete(w[i]), Update(w[j + 1])];
  }

  lemma ApplyTwo(t: Table, c: Change, d: Change)
    ensures ApplyAll(t, [c, d]) == Apply(Apply(t, c), d)
  {
    assert [c, d][1..] == [d];
    assert ApplyAll(Apply(t, c), [d]) == Apply(Apply(t, c), d);
  }

  /** After a move that journals the wrong stack, the row of the target still has its old count. */
  lemma WrongStackLosesCount(R: (Bag, Table) -> bool, b: Bag, t: Table, g: nat, from: nat, to: nat, n: nat)
    requires SurvivesEdits(R) && R(b, t) && |b.slots| == SLOT_COUNT && Capped(b)
    requires from < SLOT_COUNT && to < SLOT_COUNT && JournalsWrongStack(b, g, from, to, n)
    requires MergeRows(b.goods[g], t, FindAt(b.goods[g], from, 0), FindAt(b.goods[g], to, 0))
    ensures var r := MoveGoods(b, g, from, to, n);
            var rows := ApplyAll(t, r.changes);
            to in rows && n >= 1 && R(r.bag, rows[to := rows[to].(count := rows[to].count + n)])
  {
    var v := b.goods[g];
    var i, j := FindAt(v, from, 0), FindAt(v, to, 0);
    WrongRows(v, t, i, j, n);
    MergeKeeps(R, b, t, g, i, j);
  }

  lemma RowsOf(b: Bag, t: Table, g: nat, i: nat, j: nat)
    requires Agrees(b, t) && g in b.goods && i < j < |b.goods[g]| - 1
    ensures MergeRows(b.goods[g], t, i, j)
  {
    var v := b.goods[g];
    assert v[i].pos != v[j].pos && v[i].pos != v[j + 1].pos && v[j].pos != v[j + 1].pos;
  }

  ghost predicate Determines(R: (Bag, Table) -> bool) {
    forall b, t, u :: R(b, t) && R(b, u) ==> t == u
  }

  lemma AgreementDetermines()
    ensures Determines(Agreement())
  {
    forall b, t, u | Agrees(b, t) && Agrees(b, u)
      ensures t == u
    {
      TableIsUnique(b, t, u);
    }
  }

  lemma WrongStackBreaks(R: (Bag, Table) -> bool, b: Bag, t: Table, g: nat, from: nat, to: nat, n: nat)
    requires SurvivesEdits(R) && Determines(R) && R(b, t) && |b.slots| == SLOT_COUNT && Capped(b)
    requires from < SLOT_COUNT && to < SLOT_COUNT && JournalsWrongStack(b, g, from, to, n)
    requires MergeRows(b.goods[g], t, FindAt(b.goods[g], from, 0), FindAt(b.goods[g], to, 0))
    ensures !Keeps(R, t, MoveGoods(b, g, from, to, n).bag, MoveGoods(b, g, from, to, n).changes)
  {
    WrongStackLosesCount(R, b, t, g, from, to, n);
    var r := MoveGoods(b, g, from, to, n);
    var rows := ApplyAll(t, r.changes);
    var right := rows[to := rows[to].(count := rows[to].count + n)];
    assert right[to].count != rows[to].count;
  }

  lemma WrongStackDisagrees(b: Bag, t: Table, g: nat, from: nat, to: nat, n: nat)
    requires Agrees(b, t) && Capped(b) && from < SLOT_COUNT && to < SLOT_COUNT && JournalsWrongStack(b, g, from, to, n)
    ensures !Agrees(MoveGoods(b, g, from, to, n).bag, ApplyAll(t, MoveGoods(b, g, from, to, n).changes))
  {
    RowsOf(b, t, g, FindAt(b.goods[g], from, 0), FindAt(b.goods[g], to, 0));
    AgreementSurvivesEdits();
    AgreementDetermines();
    WrongStackBreaks(Agreement(), b, t, g, from, to, n);
  }

  lemma ZeroPurchaseDisagrees(b: Bag, t: Table, purse: nat, g: nat, price: nat)
    requires |b.slots| == SLOT_COUNT && price != 0 && !IsEquipmentType(g) && g !in b.goods
    ensures !Agrees(BuyGoods(b, purse, price, g, 0).bag, t)
  {
    var after := BuyGoods(b, purse, price, g, 0).bag.goods;
    assert g in after && after[g] == [];
  }

  /** Exactly two kinds of request break the agreement of bag and replayed journal. */
  lemma StepAgreesExactlyWhen(b: Bag, t: Table, purse: nat, op: Operation)
    requires Agrees(b, t) && Capped(b) && Legal(op)
    ensures Agrees(Perform(b, purse, op).bag, ApplyAll(t, Perform(b, purse, op).changes)) <==> !Spoils(b, op)
  {
    if !Spoils(b, op) {
      FaithfulStep(b, t, purse, op);
    } else {
      match op
      case Buy(g, _, price) => ZeroPurchaseDisagrees(b, ApplyAll(t, Perform(b, purse, op).changes), purse, g, price);
      case Move(g, from, to, n) => WrongStackDisagrees(b, t, g, from, to, n);
    }
  }

  // ----- Runs -----

  /** Every request of the run is legal when it comes, and none is of the two kinds that spoil the bag. */
  ghost predicate SoundRun(b: Bag, purse: nat, ops: seq<Operation>)
    decreases |ops|
  {
    ops == [] ||
    (|b.slots| == SLOT_COUNT && Capped(b) && Legal(ops[0]) && !Spoils(b, ops[0])
      && var r := Perform(b, purse, ops[0]); SoundRun(r.bag, r.purse, ops[1..]))
  }

  function Play(b: Bag, purse: nat, ops: seq<Operation>): Purchase
    requires SoundRun(b, purse, ops)
    decreases |ops|
  {
    if ops == [] then Purchase(b, purse, [])
    else
      var first := Perform(b, purse, ops[0]);
      var rest := Play(first.bag, first.purse, ops[1..]);
      Purchase(rest.bag, rest.purse, first.changes + rest.changes)
  }

  /** Over any such run the replayed journal is the bag, each slot in use has one holder, and no stack
      exceeds the cap. */
  lemma {:induction false} RunAgrees(b: Bag, t: Table, purse: nat, ops: seq<Operation>)
    requires Agrees(b, t) && Capped(b) && SoundRun(b, purse, ops)
    ensures var r := Play(b, purse, ops);
            Agrees(r.bag, ApplyAll(t, r.changes)) && Capped(r.bag)
    decreases |ops|
  {
    if ops != [] {
      var first := Perform(b, purse, ops[0]);
      StepAgreesExactlyWhen(b, t, purse, ops[0]);
      StepKeepsCap(b, t, purse, ops[0]);
      RunAgrees(first.bag, ApplyAll(t, first.changes), first.purse, ops[1..]);
      ApplyAllConcat(t, first.changes, Play(first.bag, first.purse, ops[1..]).changes);
    }
  }

  /** A new bag agrees with no rows at all. */
  lemma NewBagAgrees(last: nat)
    requires last >= EQUIPMENT_ID
    ensures Agrees(Bag(map[], map[], seq(SLOT_COUNT, _ => Empty), last), map[])
  {
  }
}
