// Every bag operation is made of elementary edits, so it keeps stacks, slots and replayed rows in
// agreement; moving a whole stack is the one exception, and it is told exactly when.
module BagAgreement {
  import opened GoodsBag
  import opened BagEdits
  import opened BagOperations

  /** The bag and the rows an operation leaves are still related. */
  ghost predicate Keeps(R: (Bag, Table) -> bool, t: Table, bag: Bag, changes: seq<Change>) {
    R(bag, ApplyAll(t, changes))
  }

  lemma OneEdit(R: (Bag, Table) -> bool, b: Bag, t: Table, e: Edit)
    requires SurvivesEdits(R) && R(b, t) && CanEdit(b, e)
    ensures Keeps(R, t, EditBag(b, e), EditChanges(b, e))
  {
  }

  // ----- Picking up -----

  lemma {:induction false} FillKeeps(R: (Bag, Table) -> bool, b: Bag, t: Table, g: nat, n: nat, k: nat)
    requires SurvivesEdits(R) && R(b, t) && |b.slots| == SLOT_COUNT
    requires g in b.goods && k <= |b.goods[g]| && n >= 1
    ensures var f := Fill(b.goods[g], n, k);
            Keeps(R, t, b.(goods := b.goods[g := f.stacks]), f.changes)
    decreases |b.goods[g]| - k
  {
    var v := b.goods[g];
    if k == |v| {
      assert b.goods[g := v] == b.goods;
    } else if v[k].count == MAX_STACK {
      FillKeeps(R, b, t, g, n, k + 1);
    } else if v[k].count + n <= MAX_STACK {
      OneEdit(R, b, t, Put(g, k, v[k].count + n));
    } else {
      var put := Put(g, k, MAX_STACK);
      OneEdit(R, b, t, put);
      FillKeeps(R, EditBag(b, put), ApplyAll(t, EditChanges(b, put)), g, n - (MAX_STACK - v[k].count), k + 1);
      FillStep(b, t, g, n, k);
    }
  }

  lemma FillStep(b: Bag, t: Table, g: nat, n: nat, k: nat)
    requires |b.slots| == SLOT_COUNT && g in b.goods && k < |b.goods[g]|
    requires b.goods[g][k].count != MAX_STACK && b.goods[g][k].count + n > MAX_STACK
    ensures var b1 := EditBag(b, Put(g, k, MAX_STACK));
            var rest := Fill(b1.goods[g], n - (MAX_STACK - b.goods[g][k].count), k + 1);
            var f := Fill(b.goods[g], n, k);
            && b1.(goods := b1.goods[g := rest.stacks]) == b.(goods := b.goods[g := f.stacks])
            && ApplyAll(ApplyAll(t, EditChanges(b, Put(g, k, MAX_STACK))), rest.changes) == ApplyAll(t, f.changes)
  {
    var v := b.goods[g];
    var s := v[k].(count := MAX_STACK);
    var rest := Fill(v[k := s], n - (MAX_STACK - v[k].count), k + 1);
    assert b.goods[g := v[k := s]][g := rest.stacks] == b.goods[g := rest.stacks];
    ApplyAllConcat(t, [Update(s)], rest.changes);
  }

  lemma PushStack(R: (Bag, Table) -> bool, b: Bag, t: Table, s: Stack)
    requires SurvivesEdits(R) && R(b, t) && |b.slots| == SLOT_COUNT
    requires s.goodsId == s.typeId < EQUIPMENT_ID && s.count >= 1 && s.pos == FirstEmpty(b.slots) != 0
    ensures Keeps(R, t,
                  b.(goods := b.goods[s.goodsId := StacksOf(b.goods, s.goodsId) + [s]], slots := TakeSlot(b.slots)),
              [Insert(s)])
  {
    OneEdit(R, b, t, Push(s));
  }

  lemma PickUpRest(b: Bag, t: Table, g: nat, n: nat)
    requires |b.slots| == SLOT_COUNT && g in b.goods && FirstEmpty(b.slots) != 0 && Fill(b.goods[g], n, 0).left != 0
    ensures var f := Fill(b.goods[g], n, 0);
            var b1 := b.(goods := b.goods[g := f.stacks]);
            var s := Stack(g, g, f.left, FirstEmpty(b.slots));
            var r := PickUpCommon(b, g, n);
            && b1.(goods := b1.goods[g := StacksOf(b1.goods, g) + [s]], slots := TakeSlot(b1.slots)) == r.bag
            && ApplyAll(ApplyAll(t, f.changes), [Insert(s)]) == ApplyAll(t, r.changes)
  {
    var f := Fill(b.goods[g], n, 0);
    var s := Stack(g, g, f.left, FirstEmpty(b.slots));
    assert b.goods[g := f.stacks][g := f.stacks + [s]] == b.goods[g := f.stacks + [s]];
    ApplyAllConcat(t, f.changes, [Insert(s)]);
  }

  lemma PickUpKeeps(R: (Bag, Table) -> bool, b: Bag, t: Table, g: nat, n: nat)
    requires SurvivesEdits(R) && R(b, t) && |b.slots| == SLOT_COUNT && g < EQUIPMENT_ID && n >= 1
    ensures Keeps(R, t, PickUpCommon(b, g, n).bag, PickUpCommon(b, g, n).changes)
  {
    var p := FirstEmpty(b.slots);
    if g in b.goods {
      FillKeeps(R, b, t, g, n, 0);
      var f := Fill(b.goods[g], n, 0);
      if f.left != 0 && p != 0 {
        PushStack(R, b.(goods := b.goods[g := f.stacks]), ApplyAll(t, f.changes), Stack(g, g, f.left, p));
        PickUpRest(b, t, g, n);
      }
    } else if p != 0 {
      var s := Stack(g, g, n, p);
      PushStack(R, b, t, s);
      assert [] + [s] == [s];
    }
  }

  // ----- Equipment -----

  lemma AddEquipmentKeeps(R: (Bag, Table) -> bool, b: Bag, t: Table, typeId: nat)
    requires SurvivesEdits(R) && R(b, t) && |b.slots| == SLOT_COUNT && FirstEmpty(b.slots) != 0
    ensures Keeps(R, t, AddEquipment(b, typeId).bag, AddEquipment(b, typeId).changes)
  {
    OneEdit(R, b, t, PushEquipment(Stack(b.lastEquId + 1, typeId, 1, FirstEmpty(b.slots))));
  }

  lemma {:induction false} AddEquipmentsKeeps(R: (Bag, Table) -> bool, b: Bag, t: Table, typeId: nat, n: nat)
    requires SurvivesEdits(R) && R(b, t) && |b.slots| == SLOT_COUNT && n <= EmptyCount(b.slots)
    ensures Keeps(R, t, AddEquipments(b, typeId, n).bag, AddEquipments(b, typeId, n).changes)
    decreases n
  {
    if n > 0 {
      TakeOne(b.slots);
      AddEquipmentKeeps(R, b, t, typeId);
      var first := AddEquipment(b, typeId);
      AddEquipmentsKeeps(R, first.bag, ApplyAll(t, first.changes), typeId, n - 1);
      ApplyAllConcat(t, first.changes, AddEquipments(first.bag, typeId, n - 1).changes);
    }
  }

  // ----- Buying goods -----

  ghost predicate Uniform(v: seq<Stack>, g: nat) {
    forall s :: s in v ==> s.goodsId == s.typeId == g
  }

  lemma BuyNewStackKeeps(R: (Bag, Table) -> bool, b: Bag, t: Table, g: nat, n: nat)
    requires SurvivesEdits(R) && R(b, t) && |b.slots| == SLOT_COUNT
    requires g < EQUIPMENT_ID && n >= 1 && EmptyCount(b.slots) > 0
    ensures var r := BuyNewStack(StacksOf(b.goods, g), b.slots, g, n);
            Keeps(R, t, WithStacks(b, g, r), r.changes)
  {
    TakeOne(b.slots);
    PushStack(R, b, t, Stack(g, g, n, FirstEmpty(b.slots)));
  }

  /** There is room for n more pieces of g, and the stacks of g are what BuyAll takes them for. */
  ghost predicate CanBuy(b: Bag, present: bool, g: nat, n: nat) {
    && |b.slots| == SLOT_COUNT && g < EQUIPMENT_ID
    && EmptyCount(b.slots) >= StacksFor(n) && (n >= 1 || g in b.goods)
    && Uniform(StacksOf(b.goods, g), g) && (present ==> StacksOf(b.goods, g) != [])
  }

  lemma BuyRemainderKeeps(R: (Bag, Table) -> bool, b: Bag, t: Table, present: bool, g: nat, n: nat)
    requires SurvivesEdits(R) && R(b, t) && CanBuy(b, present, g, n) && 1 <= n < MAX_STACK
    ensures var r := BuyRemainder(StacksOf(b.goods, g), present, b.slots, g, n);
            Keeps(R, t, WithStacks(b, g, r), r.changes)
  {
    var v := StacksOf(b.goods, g);
    var i := FirstFit(v, n, 0);
    if i < |v| {
      assert v[i] in v;
      OneEdit(R, b, t, Put(g, i, v[i].count + n));
    } else {
      BuyNewStackKeeps(R, b, t, g, n);
    }
  }

  /** The first of several stacks, a full one. */
  function FirstStack(b: Bag, g: nat): (r: Bought)
    requires |b.slots| == SLOT_COUNT
    ensures |r.slots| == SLOT_COUNT
  {
    BuyNewStack(StacksOf(b.goods, g), b.slots, g, MAX_STACK)
  }

  lemma BuyFirstKeeps(R: (Bag, Table) -> bool, b: Bag, t: Table, present: bool, g: nat, n: nat)
    requires SurvivesEdits(R) && R(b, t) && CanBuy(b, present, g, n) && n >= MAX_STACK
    ensures var first := FirstStack(b, g);
            var b1 := WithStacks(b, g, first);
            R(b1, ApplyAll(t, first.changes)) && CanBuy(b1, present, g, n - MAX_STACK)
  {
    BuyNewStackKeeps(R, b, t, g, MAX_STACK);
    TakeOne(b.slots);
  }

  lemma BuyFewKeeps(R: (Bag, Table) -> bool, b: Bag, t: Table, present: bool, g: nat, n: nat)
    requires SurvivesEdits(R) && R(b, t) && CanBuy(b, present, g, n) && n < MAX_STACK
    ensures Keeps(R, t, BuyAll(b, present, g, n).bag, BuyAll(b, present, g, n).changes)
  {
    if n == 0 {
      assert b.goods[g := b.goods[g]] == b.goods;
    } else {
      BuyRemainderKeeps(R, b, t, present, g, n);
    }
  }

  /** Buying leaves this bag and these rows. */
  ghost predicate BuysTo(b: Bag, t: Table, present: bool, g: nat, n: nat, end: Bag, rows: Table)
    requires |b.slots| == SLOT_COUNT
  {
    end == BuyAll(b, present, g, n).bag && rows == ApplyAll(t, BuyAll(b, present, g, n).changes)
  }

  lemma BuyAllUnfold(b: Bag, t: Table, present: bool, g: nat, n: nat, end: Bag, rows: Table)
    requires |b.slots| == SLOT_COUNT && n >= MAX_STACK && BuysTo(b, t, present, g, n, end, rows)
    ensures var first := FirstStack(b, g);
            BuysTo(WithStacks(b, g, first), ApplyAll(t, first.changes), present, g, n - MAX_STACK, end, rows)
  {
    var first := FirstStack(b, g);
    var rest := BuyStacks(first.stacks, present, first.slots, g, n - MAX_STACK);
    assert b.goods[g := first.stacks][g := rest.stacks] == b.goods[g := rest.stacks];
    ApplyAllConcat(t, first.changes, rest.changes);
  }

  lemma {:induction false} BuyingKeeps(R: (Bag, Table) -> bool, b: Bag, t: Table, present: bool, g: nat, n: nat,
                                       end: Bag, rows: Table)
    requires SurvivesEdits(R) && R(b, t) && CanBuy(b, present, g, n) && BuysTo(b, t, present, g, n, end, rows)
    ensures R(end, rows)
    decreases n
  {
    if n < MAX_STACK {
      BuyFewKeeps(R, b, t, present, g, n);
    } else {
      var first := FirstStack(b, g);
      BuyFirstKeeps(R, b, t, present, g, n);
      BuyAllUnfold(b, t, present, g, n, end, rows);
      BuyingKeeps(R, WithStacks(b, g, first), ApplyAll(t, first.changes), present, g, n - MAX_STACK, end, rows);
    }
  }

  lemma BuyAllKeeps(R: (Bag, Table) -> bool, b: Bag, t: Table, present: bool, g: nat, n: nat)
    requires SurvivesEdits(R) && R(b, t) && CanBuy(b, present, g, n)
    ensures Keeps(R, t, BuyAll(b, present, g, n).bag, BuyAll(b, present, g, n).changes)
  {
    var r := BuyAll(b, present, g, n);
    BuyingKeeps(R, b, t, present, g, n, r.bag, ApplyAll(t, r.changes));
  }

  // ----- Selling -----

  lemma SellKeeps(R: (Bag, Table) -> bool, b: Bag, t: Table, id: nat, p: nat)
    requires SurvivesEdits(R) && R(b, t) && |b.slots| == SLOT_COUNT
    requires id in b.equ ==> b.equ[id].pos < SLOT_COUNT
    requires forall s :: s in StacksOf(b.goods, id) ==> s.pos < SLOT_COUNT
    ensures Keeps(R, t, Sell(b, id, p).bag, Sell(b, id, p).changes)
  {
    if id >= EQUIPMENT_ID {
      if id in b.equ {
        OneEdit(R, b, t, DropEquipment(id));
      }
    } else if id in b.goods {
      var i := FindAt(b.goods[id], p, 0);
      if i < |b.goods[id]| {
        assert b.goods[id][i] in StacksOf(b.goods, id);
        OneEdit(R, b, t, Drop(id, i));
      }
    }
  }

  // ----- Moving -----

  lemma TwoPuts(R: (Bag, Table) -> bool, b: Bag, t: Table, g: nat, i: nat, m: nat, j: nat, n: nat)
    requires SurvivesEdits(R) && R(b, t) && |b.slots| == SLOT_COUNT
    requires g in b.goods && i < |b.goods[g]| && j < |b.goods[g]| && i != j && m >= 1 && n >= 1
    ensures var v := b.goods[g];
            var s, u := v[i].(count := m), v[j].(count := n);
            Keeps(R, t, b.(goods := b.goods[g := v[i := s][j := u]]), [Update(s), Update(u)])
  {
    var v := b.goods[g];
    var s, u := v[i].(count := m), v[j].(count := n);
    OneEdit(R, b, t, Put(g, i, m));
    var b1 := EditBag(b, Put(g, i, m));
    OneEdit(R, b1, ApplyAll(t, [Update(s)]), Put(g, j, n));
    assert b.goods[g := v[i := s]][g := v[i := s][j := u]] == b.goods[g := v[i := s][j := u]];
    ApplyAllConcat(t, [Update(s)], [Update(u)]);
    assert [Update(s)] + [Update(u)] == [Update(s), Update(u)];
  }

  /** Two stacks that change positions: the counts change places, and so do the stacks. */
  lemma SwapKeeps(R: (Bag, Table) -> bool, b: Bag, t: Table, g: nat, i: nat, j: nat)
    requires SurvivesEdits(R) && R(b, t) && |b.slots| == SLOT_COUNT
    requires g in b.goods && i < |b.goods[g]| && j < |b.goods[g]| && i != j && Uniform(b.goods[g], g)
    requires b.goods[g][i].count >= 1 && b.goods[g][j].count >= 1
    ensures var v := b.goods[g];
            var s, u := v[i].(pos := v[j].pos), v[j].(pos := v[i].pos);
            Keeps(R, t, b.(goods := b.goods[g := v[i := s][j := u]]), [Update(s), Update(u)])
  {
    var v := b.goods[g];
    var s, u := v[i].(pos := v[j].pos), v[j].(pos := v[i].pos);
    assert v[i] in v && v[j] in v;
    TwoPuts(R, b, t, g, j, v[i].count, i, v[j].count);
    var w := v[j := s][i := u];
    var b1 := b.(goods := b.goods[g := w]);
    OneEdit(R, b1, ApplyAll(t, [Update(s), Update(u)]), Flip(g, i, j));
    assert w[i := w[j]][j := w[i]] == v[i := s][j := u];
    assert b1.goods[g := v[i := s][j := u]] == b.goods[g := v[i := s][j := u]];
  }

  /** Stack i poured into stack j and erased, with both changes journalled. */
  lemma MergeKeeps(R: (Bag, Table) -> bool, b: Bag, t: Table, g: nat, i: nat, j: nat)
    requires SurvivesEdits(R) && R(b, t) && |b.slots| == SLOT_COUNT
    requires g in b.goods && i < |b.goods[g]| && j < |b.goods[g]| && i != j
    requires b.goods[g][i].pos < SLOT_COUNT && b.goods[g][i].count >= 1
    ensures var v := b.goods[g];
            var w := v[i := v[i].(count := 0)][j := v[j].(count := v[j].count + v[i].count)];
            Keeps(R, t, b.(goods := b.goods[g := RemoveAt(w, i)], slots := b.slots[v[i].pos := Empty]),
                  [Delete(w[i]), Update(w[j])])
  {
    var v := b.goods[g];
    var w := v[i := v[i].(count := 0)][j := v[j].(count := v[j].count + v[i].count)];
    OneEdit(R, b, t, Drop(g, i));
    var b1, j' := EditBag(b, Drop(g, i)), if j < i then j else j - 1;
    OneEdit(R, b1, ApplyAll(t, [Delete(w[i])]), Put(g, j', w[j].count));
    assert RemoveAt(v, i)[j' := w[j]] == RemoveAt(w, i);
    assert b.goods[g := RemoveAt(v, i)][g := RemoveAt(w, i)] == b.goods[g := RemoveAt(w, i)];
    ApplyAllConcat(t, [Delete(w[i])], [Update(w[j])]);
    assert [Delete(w[i])] + [Update(w[j])] == [Delete(w[i]), Update(w[j])];
  }

  ghost predicate Sound(v: seq<Stack>, g: nat) {
    forall s :: s in v ==> s.goodsId == s.typeId == g && s.count >= 1 && s.pos < SLOT_COUNT
  }

  lemma MoveStacksKeeps(R: (Bag, Table) -> bool, b: Bag, t: Table, g: nat, i: nat, j: nat, n: nat)
    requires SurvivesEdits(R) && R(b, t) && |b.slots| == SLOT_COUNT
    requires g in b.goods && i < |b.goods[g]| && j < |b.goods[g]| && i != j && Sound(b.goods[g], g)
    requires n <= b.goods[g][i].count <= MAX_STACK && b.goods[g][j].count <= MAX_STACK
    requires MoveKind(b.goods[g][i], b.goods[g][j], n) == Merge ==> !(i < j < |b.goods[g]| - 1)
    ensures var m := MoveStacks(b.goods[g], i, j, n);
            var slots := if m.freed then b.slots[b.goods[g][i].pos := Empty] else b.slots;
            Keeps(R, t, b.(goods := b.goods[g := m.stacks], slots := slots), m.changes)
  {
    var v := b.goods[g];
    assert v[i] in v && v[j] in v;
    match MoveKind(v[i], v[j], n)
    case Swap => SwapKeeps(R, b, t, g, i, j);
    case Refill(moved) => TwoPuts(R, b, t, g, i, v[i].count - moved, j, v[j].count + moved);
    case Merge => MergeKeeps(R, b, t, g, i, j);
  }

  lemma MoveKeeps(R: (Bag, Table) -> bool, b: Bag, t: Table, g: nat, from: nat, to: nat, n: nat)
    requires SurvivesEdits(R) && R(b, t) && |b.slots| == SLOT_COUNT && from < SLOT_COUNT && to < SLOT_COUNT
    requires Capped(b) && Sound(StacksOf(b.goods, g), g) && !JournalsWrongStack(b, g, from, to, n)
    ensures Keeps(R, t, MoveGoods(b, g, from, to, n).bag, MoveGoods(b, g, from, to, n).changes)
  {
    if CanMove(b, g, from, to, n) {
      var v := b.goods[g];
      MoveStacksKeeps(R, b, t, g, FindAt(v, from, 0), FindAt(v, to, 0), n);
    }
  }
}
