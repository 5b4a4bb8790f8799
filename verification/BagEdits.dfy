// The elementary changes that every bag operation is made of, each with the rows it journals.
module BagEdits {
  import opened GoodsBag

  datatype Edit =
    | Push(stack: Stack)                     // a new stack in an empty slot
    | Put(g: nat, i: nat, count: nat)        // stack i of goods g holds count pieces
    | Drop(g: nat, i: nat)                   // stack i of goods g goes, and its slot is released
    | Flip(g: nat, i: nat, j: nat)           // stacks i and j change places in the vector
    | PushEquipment(equipment: Stack)        // a new equipment in an empty slot
    | DropEquipment(id: nat)

  predicate CanEdit(b: Bag, e: Edit) {
    && |b.slots| == SLOT_COUNT
    && match e
       case Push(s) =>
         1 <= s.pos < SLOT_COUNT && b.slots[s.pos] == Empty && s.goodsId == s.typeId < EQUIPMENT_ID && s.count >= 1
       case Put(g, i, count) => g in b.goods && i < |b.goods[g]| && count >= 1
       case Drop(g, i) => g in b.goods && i < |b.goods[g]| && b.goods[g][i].pos < SLOT_COUNT
       case Flip(g, i, j) => g in b.goods && i < |b.goods[g]| && j < |b.goods[g]|
       case PushEquipment(s) =>
         1 <= s.pos < SLOT_COUNT && b.slots[s.pos] == Empty && s.goodsId > b.lastEquId
       case DropEquipment(id) => id in b.equ && b.equ[id].pos < SLOT_COUNT
  }

  function EditBag(b: Bag, e: Edit): Bag
    requires CanEdit(b, e)
  {
    match e
    case Push(s) =>
      b.(goods := b.goods[s.goodsId := StacksOf(b.goods, s.goodsId) + [s]], slots := b.slots[s.pos := NonEmpty])
    case Put(g, i, count) =>
      b.(goods := b.goods[g := b.goods[g][i := b.goods[g][i].(count := count)]])
    case Drop(g, i) =>
      b.(goods := WithoutStack(b.goods, g, i), slots := b.slots[b.goods[g][i].pos := Empty])
    case Flip(g, i, j) =>
      b.(goods := b.goods[g := b.goods[g][i := b.goods[g][j]][j := b.goods[g][i]]])
    case PushEquipment(s) =>
      b.(equ := b.equ[s.goodsId := s], slots := b.slots[s.pos := NonEmpty], lastEquId := s.goodsId)
    case DropEquipment(id) =>
      b.(equ := b.equ - {id}, slots := b.slots[b.equ[id].pos := Empty])
  }

  function EditChanges(b: Bag, e: Edit): seq<Change>
    requires CanEdit(b, e)
  {
    match e
    case Push(s) => [Insert(s)]
    case Put(g, i, count) => [Update(b.goods[g][i].(count := count))]
    case Drop(g, i) => [Delete(b.goods[g][i].(count := 0))]
    case Flip(_, _, _) => []
    case PushEquipment(s) => [Insert(s)]
    case DropEquipment(id) => [Delete(b.equ[id].(count := 0))]
  }

  /** The bag an operation leaves and the changes it journals. */
  datatype Changed = Changed(bag: Bag, changes: seq<Change>)

  /** A relation between a bag and its rows that no journalled edit breaks. The operations are proved
      to keep any such relation; agreement is one. */
  ghost predicate SurvivesEdits(R: (Bag, Table) -> bool) {
    forall b, t, e :: R(b, t) && CanEdit(b, e) ==> R(EditBag(b, e), ApplyAll(t, EditChanges(b, e)))
  }

  // ----- Edits keep agreement -----

  ghost predicate OtherRowsKept(t: Table, t': Table, g: nat) {
    && (forall p :: p in t && t[p].goodsId != g ==> p in t' && t'[p] == t[p])
    && forall p :: p in t' && t'[p].goodsId != g ==> p in t && t'[p] == t[p]
  }

  /** Only the stacks of goods g and their rows have changed. */
  lemma ReplaceVector(goods: map<nat, seq<Stack>>, t: Table, g: nat, v: seq<Stack>, t': Table)
    requires GoodsAgree(goods, t) && OtherRowsKept(t, t', g)
    requires g < EQUIPMENT_ID && VectorAgrees(v, g, t') && v != []
    ensures GoodsAgree(goods[g := v], t')
  {
    forall h | h in goods && h != g
      ensures VectorAgrees(goods[h], h, t')
    {
    }
  }

  lemma RemoveVector(goods: map<nat, seq<Stack>>, t: Table, g: nat, t': Table)
    requires GoodsAgree(goods, t) && OtherRowsKept(t, t', g)
    requires g < EQUIPMENT_ID && forall p :: p in t' ==> t'[p].goodsId != g
    ensures GoodsAgree(goods - {g}, t')
  {
    forall h | h in goods && h != g
      ensures VectorAgrees(goods[h], h, t')
    {
    }
  }

  lemma EquipmentKept(equ: map<nat, Stack>, last: nat, t: Table, g: nat, t': Table)
    requires EquipmentAgrees(equ, last, t) && OtherRowsKept(t, t', g) && g < EQUIPMENT_ID
    requires forall p :: p in t' && t'[p].goodsId == g ==> t'[p].goodsId < EQUIPMENT_ID
    ensures EquipmentAgrees(equ, last, t')
  {
  }

  lemma SlotTaken(slots: seq<Slot>, t: Table, s: Stack)
    requires SlotsAgree(slots, t) && 1 <= s.pos < SLOT_COUNT
    ensures SlotsAgree(slots[s.pos := NonEmpty], t[s.pos := s])
  {
  }

  lemma SlotFreed(slots: seq<Slot>, t: Table, p: nat)
    requires SlotsAgree(slots, t) && 1 <= p < SLOT_COUNT
    ensures SlotsAgree(slots[p := Empty], t - {p})
  {
  }

  lemma StacksOfAgree(goods: map<nat, seq<Stack>>, t: Table, g: nat)
    requires GoodsAgree(goods, t) && g < EQUIPMENT_ID
    ensures VectorAgrees(StacksOf(goods, g), g, t)
  {
  }

  lemma VectorPush(v: seq<Stack>, g: nat, t: Table, s: Stack)
    requires VectorAgrees(v, g, t) && s.pos !in t
    requires s.goodsId == s.typeId == g && s.count >= 1
    ensures VectorAgrees(v + [s], g, t[s.pos := s]) && OtherRowsKept(t, t[s.pos := s], g)
  {
    var w := v + [s];
    assert w[|v|] == s;
    forall p | p in t && t[p].goodsId == g
      ensures t[p] in w
    {
      var k :| 0 <= k < |v| && v[k] == t[p];
      assert w[k] == t[p];
    }
  }

  lemma VectorSet(v: seq<Stack>, g: nat, t: Table, i: nat, s: Stack)
    requires VectorAgrees(v, g, t) && i < |v| && KeyedByPosition(t)
    requires s == v[i].(count := s.count) && s.count >= 1
    ensures VectorAgrees(v[i := s], g, t[s.pos := s]) && OtherRowsKept(t, t[s.pos := s], g)
  {
    var w := v[i := s];
    assert w[i] == s;
    forall p | p in t && t[p].goodsId == g && p != s.pos
      ensures t[p] in w
    {
      var k :| 0 <= k < |v| && v[k] == t[p];
      assert w[k] == t[p];
    }
  }

  lemma VectorRemove(v: seq<Stack>, g: nat, t: Table, i: nat)
    requires VectorAgrees(v, g, t) && i < |v| && KeyedByPosition(t)
    ensures VectorAgrees(RemoveAt(v, i), g, t - {v[i].pos}) && OtherRowsKept(t, t - {v[i].pos}, g)
  {
    var w := RemoveAt(v, i);
    forall p | p in t && t[p].goodsId == g && p != v[i].pos
      ensures t[p] in w
    {
      var k :| 0 <= k < |v| && v[k] == t[p];
      assert w[if k < i then k else k - 1] == t[p];
    }
  }

  lemma UpdateRow(t: Table, s: Stack)
    requires s.pos in t && t[s.pos].(count := s.count) == s
    ensures ApplyAll(t, [Update(s)]) == t[s.pos := s]
  {
    assert ApplyAll(t, [Update(s)]) == ApplyAll(Apply(t, Update(s)), []);
  }

  lemma InsertRow(t: Table, s: Stack)
    requires s.pos !in t
    ensures ApplyAll(t, [Insert(s)]) == t[s.pos := s]
  {
    assert ApplyAll(t, [Insert(s)]) == ApplyAll(Apply(t, Insert(s)), []);
  }

  lemma DeleteRow(t: Table, s: Stack)
    ensures ApplyAll(t, [Delete(s)]) == t - {s.pos}
  {
    assert ApplyAll(t, [Delete(s)]) == ApplyAll(Apply(t, Delete(s)), []);
  }

  lemma PushKeeps(b: Bag, t: Table, s: Stack)
    requires Agrees(b, t) && CanEdit(b, Push(s))
    ensures Agrees(EditBag(b, Push(s)), t[s.pos := s])
  {
    var g, v := s.goodsId, StacksOf(b.goods, s.goodsId);
    StacksOfAgree(b.goods, t, g);
    VectorPush(v, g, t, s);
    ReplaceVector(b.goods, t, g, v + [s], t[s.pos := s]);
    EquipmentKept(b.equ, b.lastEquId, t, g, t[s.pos := s]);
    SlotTaken(b.slots, t, s);
  }

  lemma SlotsKept(slots: seq<Slot>, t: Table, s: Stack)
    requires SlotsAgree(slots, t) && s.pos in t
    ensures SlotsAgree(slots, t[s.pos := s])
  {
  }

  lemma PutKeeps(b: Bag, t: Table, g: nat, i: nat, count: nat)
    requires Agrees(b, t) && CanEdit(b, Put(g, i, count))
    ensures var s := b.goods[g][i].(count := count);
            && Agrees(EditBag(b, Put(g, i, count)), t[s.pos := s])
            && s.pos in t && t[s.pos].(count := count) == s
  {
    var s := b.goods[g][i].(count := count);
    VectorSet(b.goods[g], g, t, i, s);
    ReplaceVector(b.goods, t, g, b.goods[g][i := s], t[s.pos := s]);
    EquipmentKept(b.equ, b.lastEquId, t, g, t[s.pos := s]);
    SlotsKept(b.slots, t, s);
  }

  lemma DropKeeps(b: Bag, t: Table, g: nat, i: nat)
    requires Agrees(b, t) && CanEdit(b, Drop(g, i))
    ensures Agrees(EditBag(b, Drop(g, i)), t - {b.goods[g][i].pos})
  {
    var v, p := b.goods[g], b.goods[g][i].pos;
    VectorRemove(v, g, t, i);
    if |v| == 1 {
      RemoveVector(b.goods, t, g, t - {p});
    } else {
      ReplaceVector(b.goods, t, g, RemoveAt(v, i), t - {p});
    }
    EquipmentKept(b.equ, b.lastEquId, t, g, t - {p});
    SlotFreed(b.slots, t, p);
  }

  lemma VectorFlip(v: seq<Stack>, g: nat, t: Table, i: nat, j: nat)
    requires VectorAgrees(v, g, t) && i < |v| && j < |v|
    ensures VectorAgrees(v[i := v[j]][j := v[i]], g, t)
  {
    var w := v[i := v[j]][j := v[i]];
    forall p | p in t && t[p].goodsId == g
      ensures t[p] in w
    {
      var k :| 0 <= k < |v| && v[k] == t[p];
      assert w[if k == i then j else if k == j then i else k] == t[p];
    }
  }

  lemma FlipKeeps(b: Bag, t: Table, g: nat, i: nat, j: nat)
    requires Agrees(b, t) && CanEdit(b, Flip(g, i, j))
    ensures Agrees(EditBag(b, Flip(g, i, j)), t)
  {
    VectorFlip(b.goods[g], g, t, i, j);
    ReplaceVector(b.goods, t, g, b.goods[g][i := b.goods[g][j]][j := b.goods[g][i]], t);
  }

  lemma GoodsKept(goods: map<nat, seq<Stack>>, t: Table, e: nat, t': Table)
    requires GoodsAgree(goods, t) && OtherRowsKept(t, t', e) && e >= EQUIPMENT_ID
    ensures GoodsAgree(goods, t')
  {
    forall h | h in goods
      ensures VectorAgrees(goods[h], h, t')
    {
    }
  }

  lemma EquipmentAdded(equ: map<nat, Stack>, last: nat, t: Table, s: Stack)
    requires EquipmentAgrees(equ, last, t) && KeyedByPosition(t) && s.goodsId > last && s.pos !in t
    ensures EquipmentAgrees(equ[s.goodsId := s], s.goodsId, t[s.pos := s])
    ensures OtherRowsKept(t, t[s.pos := s], s.goodsId)
  {
  }

  lemma PushEquipmentKeeps(b: Bag, t: Table, s: Stack)
    requires Agrees(b, t) && CanEdit(b, PushEquipment(s))
    ensures Agrees(EditBag(b, PushEquipment(s)), t[s.pos := s])
  {
    EquipmentAdded(b.equ, b.lastEquId, t, s);
    GoodsKept(b.goods, t, s.goodsId, t[s.pos := s]);
    SlotTaken(b.slots, t, s);
  }

  lemma DropEquipmentKeeps(b: Bag, t: Table, id: nat)
    requires Agrees(b, t) && CanEdit(b, DropEquipment(id))
    ensures Agrees(EditBag(b, DropEquipment(id)), t - {b.equ[id].pos})
  {
    GoodsKept(b.goods, t, id, t - {b.equ[id].pos});
    SlotFreed(b.slots, t, b.equ[id].pos);
  }

  /** One edit, journalled, keeps bag and rows in agreement, and what it inserts meets no row. */
  lemma EditKeeps(b: Bag, t: Table, e: Edit)
    requires Agrees(b, t) && CanEdit(b, e)
    ensures forall s :: Insert(s) in EditChanges(b, e) ==> s.pos !in t
    ensures Agrees(EditBag(b, e), ApplyAll(t, EditChanges(b, e)))
  {
    match e
    case Push(s) => PushKeeps(b, t, s); InsertRow(t, s);
    case Put(g, i, count) => PutKeeps(b, t, g, i, count); UpdateRow(t, b.goods[g][i].(count := count));
    case Drop(g, i) => DropKeeps(b, t, g, i); DeleteRow(t, b.goods[g][i].(count := 0));
    case Flip(g, i, j) => FlipKeeps(b, t, g, i, j);
    case PushEquipment(s) => PushEquipmentKeeps(b, t, s); InsertRow(t, s);
    case DropEquipment(id) => DropEquipmentKeeps(b, t, id); DeleteRow(t, b.equ[id].(count := 0));
  }

  /** Agrees, as a relation. */
  ghost function Agreement(): (Bag, Table) -> bool {
    (b, t) => Agrees(b, t)
  }

  lemma AgreementSurvivesEdits()
    ensures SurvivesEdits(Agreement())
  {
    forall b, t, e | Agrees(b, t) && CanEdit(b, e)
      ensures Agrees(EditBag(b, e), ApplyAll(t, EditChanges(b, e)))
    {
      EditKeeps(b, t, e);
    }
  }
}
