// Every stack and piece of equipment that a request journals as new goes to a slot where no row stands, so it
// does not matter what the table does with a second row at a position.
module BagInserts {
  import opened GoodsBag
  import opened BagEdits
  import opened BagOperations
  import opened BagAgreement
  import opened BagCounts
  import opened BagRuns

  /** No insert meets a row. */
  predicate NoneRefused(t: Table, changes: seq<Change>)
    decreases |changes|
  {
    changes == [] ||
    ((changes[0].Insert? ==> changes[0].stack.pos !in t) && NoneRefused(Apply(t, changes[0]), changes[1..]))
  }

  lemma {:induction false} NoneRefusedConcat(t: Table, first: seq<Change>, more: seq<Change>)
    requires NoneRefused(t, first) && NoneRefused(ApplyAll(t, first), more)
    ensures NoneRefused(t, first + more)
    decreases |first|
  {
    if first == [] {
      assert first + more == more;
    } else {
      assert (first + more)[1..] == first[1..] + more;
      NoneRefusedConcat(Apply(t, first[0]), first[1..], more);
    }
  }

  predicate NoInserts(changes: seq<Change>) {
    forall i :: 0 <= i < |changes| ==> !changes[i].Insert?
  }

  lemma {:induction false} NoInsertsNoneRefused(t: Table, changes: seq<Change>)
    requires NoInserts(changes)
    ensures NoneRefused(t, changes)
    decreases |changes|
  {
    if changes != [] {
      NoInsertsNoneRefused(Apply(t, changes[0]), changes[1..]);
    }
  }

  /** A relation between bag and rows under which no row stands in an empty slot. */
  ghost predicate EmptyHasNoRow(R: (Bag, Table) -> bool) {
    forall b, t :: R(b, t) ==> |b.slots| == SLOT_COUNT && (FirstEmpty(b.slots) != 0 ==> FirstEmpty(b.slots) !in t)
  }

  lemma AgreementHasNoRow()
    ensures SurvivesEdits(Agreement()) && EmptyHasNoRow(Agreement())
  {
    AgreementSurvivesEdits();
    forall b, t | Agrees(b, t) && FirstEmpty(b.slots) != 0
      ensures FirstEmpty(b.slots) !in t
    {
    }
  }

  lemma OneInsert(R: (Bag, Table) -> bool, b: Bag, t: Table, s: Stack)
    requires EmptyHasNoRow(R) && R(b, t) && s.pos == FirstEmpty(b.slots) != 0
    ensures NoneRefused(t, [Insert(s)])
  {
    assert NoneRefused(Apply(t, Insert(s)), []);
    assert [Insert(s)][1..] == [];
  }

  lemma {:induction false} FillingInsertsNothing(v: seq<Stack>, n: nat, k: nat)
    requires k <= |v|
    ensures NoInserts(Fill(v, n, k).changes)
    decreases |v| - k
  {
    if k < |v| {
      if v[k].count == MAX_STACK {
        FillingInsertsNothing(v, n, k + 1);
      } else if v[k].count + n > MAX_STACK {
        FillingInsertsNothing(v[k := v[k].(count := MAX_STACK)], n - (MAX_STACK - v[k].count), k + 1);
      }
    }
  }

  lemma PickUpNoneRefused(R: (Bag, Table) -> bool, b: Bag, t: Table, g: nat, n: nat)
    requires SurvivesEdits(R) && EmptyHasNoRow(R) && R(b, t) && |b.slots| == SLOT_COUNT && g < EQUIPMENT_ID && n >= 1
    ensures NoneRefused(t, PickUpCommon(b, g, n).changes)
  {
    var p := FirstEmpty(b.slots);
    if g in b.goods {
      var f := Fill(b.goods[g], n, 0);
      FillingInsertsNothing(b.goods[g], n, 0);
      NoInsertsNoneRefused(t, f.changes);
      if f.left != 0 && p != 0 {
        FillKeeps(R, b, t, g, n, 0);
        OneInsert(R, b.(goods := b.goods[g := f.stacks]), ApplyAll(t, f.changes), Stack(g, g, f.left, p));
        NoneRefusedConcat(t, f.changes, [Insert(Stack(g, g, f.left, p))]);
      }
    } else if p != 0 {
      OneInsert(R, b, t, Stack(g, g, n, p));
    }
  }

  lemma {:induction false} AddEquipmentsNoneRefused(R: (Bag, Table) -> bool, b: Bag, t: Table, typeId: nat, n: nat)
    requires SurvivesEdits(R) && EmptyHasNoRow(R) && R(b, t) && |b.slots| == SLOT_COUNT && n <= EmptyCount(b.slots)
    ensures NoneRefused(t, AddEquipments(b, typeId, n).changes)
    decreases n
  {
    if n > 0 {
      var first := AddEquipment(b, typeId);
      TakeOne(b.slots);
      AddEquipmentKeeps(R, b, t, typeId);
      OneInsert(R, b, t, Stack(b.lastEquId + 1, typeId, 1, FirstEmpty(b.slots)));
      AddEquipmentsNoneRefused(R, first.bag, ApplyAll(t, first.changes), typeId, n - 1);
      NoneRefusedConcat(t, first.changes, AddEquipments(first.bag, typeId, n - 1).changes);
    }
  }

  lemma BuyRemainderNoneRefused(R: (Bag, Table) -> bool, b: Bag, t: Table, present: bool, g: nat, n: nat)
    requires EmptyHasNoRow(R) && R(b, t) && CanBuy(b, present, g, n) && 1 <= n < MAX_STACK
    ensures NoneRefused(t, BuyRemainder(StacksOf(b.goods, g), present, b.slots, g, n).changes)
  {
    var v := StacksOf(b.goods, g);
    if FirstFit(v, n, 0) < |v| || (present && v == []) {
      NoInsertsNoneRefused(t, BuyRemainder(v, present, b.slots, g, n).changes);
    } else {
      TakeOne(b.slots);
      OneInsert(R, b, t, Stack(g, g, n, FirstEmpty(b.slots)));
    }
  }

  /** The changes of a purchase: those of the first full stack, then the others. */
  lemma BuyFirstChanges(b: Bag, present: bool, g: nat, n: nat)
    requires |b.slots| == SLOT_COUNT && n >= MAX_STACK
    ensures var b1 := WithStacks(b, g, FirstStack(b, g));
            && FirstStack(b, g).changes == [Insert(Stack(g, g, MAX_STACK, FirstEmpty(b.slots)))]
            && BuyAll(b, present, g, n).changes
                 == FirstStack(b, g).changes + BuyAll(b1, present, g, n - MAX_STACK).changes
  {
  }

  lemma BuyFewNoneRefused(R: (Bag, Table) -> bool, b: Bag, t: Table, present: bool, g: nat, n: nat)
    requires EmptyHasNoRow(R) && R(b, t) && CanBuy(b, present, g, n) && n < MAX_STACK
    ensures NoneRefused(t, BuyAll(b, present, g, n).changes)
  {
    if n > 0 {
      BuyRemainderNoneRefused(R, b, t, present, g, n);
    }
  }

  lemma FirstStackNoneRefused(R: (Bag, Table) -> bool, b: Bag, t: Table, present: bool, g: nat, n: nat)
    requires EmptyHasNoRow(R) && R(b, t) && CanBuy(b, present, g, n) && n >= MAX_STACK
    ensures NoneRefused(t, FirstStack(b, g).changes)
  {
    TakeOne(b.slots);
    OneInsert(R, b, t, Stack(g, g, MAX_STACK, FirstEmpty(b.slots)));
  }

  lemma {:induction false} BuyAllNoneRefused(R: (Bag, Table) -> bool, b: Bag, t: Table, present: bool, g: nat, n: nat,
                                             changes: seq<Change>)
    requires SurvivesEdits(R) && EmptyHasNoRow(R) && R(b, t) && CanBuy(b, present, g, n)
    requires changes == BuyAll(b, present, g, n).changes
    ensures NoneRefused(t, changes)
    decreases n
  {
    if n < MAX_STACK {
      BuyFewNoneRefused(R, b, t, present, g, n);
    } else {
      var first, b1 := FirstStack(b, g).changes, WithStacks(b, g, FirstStack(b, g));
      var rest := BuyAll(b1, present, g, n - MAX_STACK).changes;
      BuyFirstKeeps(R, b, t, present, g, n);
      BuyFirstChanges(b, present, g, n);
      FirstStackNoneRefused(R, b, t, present, g, n);
      BuyAllNoneRefused(R, b1, ApplyAll(t, first), present, g, n - MAX_STACK, rest);
      NoneRefusedConcat(t, first, rest);
    }
  }

  /** What the operations take for granted of the goods a request names. */
  ghost predicate Ready(b: Bag, g: nat) {
    && |b.slots| == SLOT_COUNT && Capped(b) && Uniform(StacksOf(b.goods, g), g)
    && (g in b.goods ==> b.goods[g] != [])
  }

  lemma BuyNoneRefused(R: (Bag, Table) -> bool, b: Bag, t: Table, purse: nat, g: nat, n: nat, price: nat)
    requires SurvivesEdits(R) && EmptyHasNoRow(R) && R(b, t) && Ready(b, g)
    requires g < EQUIPMENT_ID && !Spoils(b, Buy(g, n, price))
    ensures NoneRefused(t, BuyGoods(b, purse, price, g, n).changes)
  {
    if price == 0 || purse < n * price % WORD || !HasRoom(b, g, n) {
      PurchaseRefused(b, purse, price, g, n);
    } else if IsEquipmentType(g) {
      AddEquipmentsNoneRefused(R, b, t, g, n);
    } else {
      BuyAllNoneRefused(R, b, t, g in b.goods, g, n, BuyAll(b, g in b.goods, g, n).changes);
    }
  }

  lemma RequestNoneRefused(R: (Bag, Table) -> bool, b: Bag, t: Table, purse: nat, op: Operation)
    requires SurvivesEdits(R) && EmptyHasNoRow(R) && R(b, t)
    requires Legal(op) && Ready(b, if op.Buy? then op.g else 0) && !Spoils(b, op)
    ensures NoneRefused(t, Perform(b, purse, op).changes)
  {
    match op
    case PickUp(g, n) => PickUpNoneRefused(R, b, t, g, n);
    case PickUpOne(typeId) =>
      if FirstEmpty(b.slots) != 0 {
        OneInsert(R, b, t, Stack(b.lastEquId + 1, typeId, 1, FirstEmpty(b.slots)));
      }
    case Buy(g, n, price) => BuyNoneRefused(R, b, t, purse, g, n, price);
    case SellStack(id, p, _) => NoInsertsNoneRefused(t, Sell(b, id, p).changes);
    case Move(g, from, to, n) => NoInsertsNoneRefused(t, MoveGoods(b, g, from, to, n).changes);
  }

  /** No request that keeps the bag sound inserts a row where one stands. */
  lemma StepNoneRefused(b: Bag, t: Table, purse: nat, op: Operation)
    requires Agrees(b, t) && Capped(b) && Legal(op) && |b.slots| == SLOT_COUNT && !Spoils(b, op)
    ensures NoneRefused(t, Perform(b, purse, op).changes)
  {
    Agreeing(b, t, if op.Buy? then op.g else 0);
    AgreementHasNoRow();
    RequestNoneRefused(Agreement(), b, t, purse, op);
  }

  /** Over every sound run no insert meets a row. */
  lemma {:induction false} RunNoneRefused(b: Bag, t: Table, purse: nat, ops: seq<Operation>)
    requires Agrees(b, t) && Capped(b) && SoundRun(b, purse, ops)
    ensures NoneRefused(t, Play(b, purse, ops).changes)
    decreases |ops|
  {
    if ops != [] {
      var first := Perform(b, purse, ops[0]);
      StepNoneRefused(b, t, purse, ops[0]);
      StepAgreesExactlyWhen(b, t, purse, ops[0]);
      StepKeepsCap(b, t, purse, ops[0]);
      RunNoneRefused(first.bag, ApplyAll(t, first.changes), first.purse, ops[1..]);
      NoneRefusedConcat(t, first.changes, Play(first.bag, first.purse, ops[1..]).changes);
    }
  }
}
