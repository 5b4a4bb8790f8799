// OperationGoods/operationgoods.cpp in its own form: loops over the slots and the stacks of one player,
// changing them in place. Each method does what the function of the same name in BagOperations says.
module OperationGoods {
  import opened GoodsBag
  import opened BagEdits
  import opened BagOperations
  import opened BagCounts

  /** The loops that look for a stack by its position. */
  method FindPosition(v: seq<Stack>, p: nat) returns (i: nat)
    ensures i == FindAt(v, p, 0)
  {
    i := 0;
    while i < |v|
      invariant i <= |v| && FindAt(v, p, 0) == FindAt(v, p, i)
    {
      if v[i].pos == p {
        return;
      }
      i := i + 1;
    }
  }

  class PlayerGoods {
    var goods: map<nat, seq<Stack>>   // m_playerGoods
    var equ: map<nat, Stack>          // m_playerEqu
    const slots: array<Slot>          // m_goodsPosition
    var equipmentId: nat              // OperationGoods::m_equipmentID
    var money: nat                    // the count of Money_1
    var journal: seq<Change>          // what was handed to OperationPostgres

    ghost predicate Valid() {
      slots.Length == SLOT_COUNT
    }

    ghost function Value(): Bag
      reads this, slots
    {
      Bag(goods, equ, slots[..], equipmentId)
    }

    constructor (lastEquipmentId: nat)
      ensures Valid() && Value() == Bag(map[], map[], seq(SLOT_COUNT, _ => Empty), lastEquipmentId)
      ensures money == 0 && journal == []
    {
      goods, equ, equipmentId, money, journal := map[], map[], lastEquipmentId, 0, [];
      slots := new Slot[SLOT_COUNT](_ => Empty);
    }

    // ----- Slots -----

    method GetEmptyPosCount() returns (emptyPos: nat)
      requires Valid()
      ensures emptyPos == EmptyCount(slots[..])
    {
      emptyPos := 0;
      for j := 1 to SLOT_COUNT
        invariant emptyPos + EmptyCountFrom(slots[..], j) == EmptyCount(slots[..])
      {
        if slots[j] == Empty {
          emptyPos := emptyPos + 1;
        }
      }
    }

    method GetEmptyPos() returns (p: nat)
      requires Valid()
      modifies slots
      ensures p == FirstEmpty(old(slots[..])) && slots[..] == TakeSlot(old(slots[..]))
    {
      for j := 1 to SLOT_COUNT
        invariant slots[..] == old(slots[..])
        invariant FirstEmpty(slots[..]) == FirstEmptyFrom(slots[..], j)
      {
        if slots[j] == Empty {
          slots[j] := NonEmpty;
          return j;
        }
      }
      return 0;
    }

    method ReleasePos(p: nat)
      requires Valid()
      modifies slots
      ensures slots[..] == ReleaseSlot(old(slots[..]), p)
    {
      if p < SLOT_COUNT {
        slots[p] := Empty;
      }
    }

    method PushUpdateGoods(c: Change)
      modifies this`journal
      ensures journal == old(journal) + [c]
    {
      journal := journal + [c];
    }

    // ----- Picking up -----

    /** The loop of PickUpcommonGoods over the stacks of g; left is what did not fit. */
    method FillStacks(g: nat, n: nat) returns (left: nat)
      requires g in goods
      modifies this`goods, this`journal
      ensures var f := Fill(old(goods[g]), n, 0);
              goods == old(goods)[g := f.stacks] && journal == old(journal) + f.changes && left == f.left
    {
      ghost var whole := Fill(goods[g], n, 0);
      ghost var done: seq<Change> := [];
      left := n;
      var k := 0;
      while k < |goods[g]|
        invariant g in goods && k <= |goods[g]|
        invariant goods == old(goods)[g := goods[g]] && journal == old(journal) + done
        invariant var rest := Fill(goods[g], left, k);
                  whole == Filled(rest.stacks, rest.left, done + rest.changes)
        decreases |goods[g]| - k
      {
        var s := goods[g][k];
        if s.count == MAX_STACK {
          k := k + 1;
          continue;
        }
        if s.count + left <= MAX_STACK {
          s := s.(count := s.count + left);
          goods := goods[g := goods[g][k := s]];
          PushUpdateGoods(Update(s));
          left := 0;
          return;
        }
        left := left - (MAX_STACK - s.count);
        s := s.(count := MAX_STACK);
        goods := goods[g := goods[g][k := s]];
        PushUpdateGoods(Update(s));
        done := done + [Update(s)];
        k := k + 1;
      }
    }

    /** A new stack of g at the end of its vector. */
    method PushBack(g: nat, n: nat, p: nat)
      modifies this`goods, this`journal
      ensures var s := Stack(g, g, n, p);
              goods == old(goods)[g := StacksOf(old(goods), g) + [s]] && journal == old(journal) + [Insert(s)]
    {
      var s := Stack(g, g, n, p);
      goods := goods[g := (if g in goods then goods[g] else []) + [s]];
      PushUpdateGoods(Insert(s));
    }

    /** The goods have a place already. */
    method PickUpMore(g: nat, n: nat) returns (left: nat, picked: int, result: PickResult)
      requires Valid() && n >= 1 && g in goods
      modifies this`goods, this`journal, slots
      ensures var r := PickUpCommon(old(Value()), g, n);
              && Value() == r.bag && journal == old(journal) + r.changes
              && left == r.left && picked == r.reported && result == r.result
    {
      PickUpCases(Value(), g, n);
      left := FillStacks(g, n);
      if left == 0 {
        return 0, n, Success;
      }
      var p := GetEmptyPos();
      if p == 0 {
        return left, n - left, PartBagFull;
      }
      PushBack(g, left, p);
      return 0, n, Success;
    }

    /** The goods have no place yet. */
    method PickUpNew(g: nat, n: nat) returns (left: nat, picked: int, result: PickResult)
      requires Valid() && n >= 1 && g !in goods
      modifies this`goods, this`journal, slots
      ensures var r := PickUpCommon(old(Value()), g, n);
              && Value() == r.bag && journal == old(journal) + r.changes
              && left == r.left && picked == r.reported && result == r.result
    {
      var p := GetEmptyPos();
      if p == 0 {
        return n, 0, BagFull;
      }
      PushBack(g, n, p);
      assert [] + [Stack(g, g, n, p)] == [Stack(g, g, n, p)];
      return 0, n, Success;
    }

    /** left is what stays of the loot, and picked what the player is told. */
    method PickUpCommonGoods(g: nat, n: nat) returns (left: nat, picked: int, result: PickResult)
      requires Valid() && n >= 1
      modifies this`goods, this`journal, slots
      ensures var r := PickUpCommon(old(Value()), g, n);
              && Value() == r.bag && journal == old(journal) + r.changes
              && left == r.left && picked == r.reported && result == r.result
    {
      if g in goods {
        left, picked, result := PickUpMore(g, n);
      } else {
        left, picked, result := PickUpNew(g, n);
      }
    }

    // ----- Equipment -----

    method NewEquipment(typeId: nat, p: nat)
      modifies this`equ, this`equipmentId, this`journal
      ensures var s := Stack(old(equipmentId) + 1, typeId, 1, p);
              equipmentId == s.goodsId && equ == old(equ)[s.goodsId := s] && journal == old(journal) + [Insert(s)]
    {
      equipmentId := equipmentId + 1;
      var s := Stack(equipmentId, typeId, 1, p);
      equ := equ[s.goodsId := s];
      PushUpdateGoods(Insert(s));
    }

    method PickUpEqu(typeId: nat) returns (picked: bool)
      requires Valid()
      modifies this`equ, this`equipmentId, this`journal, slots
      ensures var r := PickUpEquipment(old(Value()), typeId);
              Value() == r.bag && journal == old(journal) + r.changes && picked == (FirstEmpty(old(slots[..])) != 0)
    {
      var p := GetEmptyPos();
      if p == 0 {
        return false;
      }
      NewEquipment(typeId, p);
      return true;
    }

    /** One entry of the loot of PickUpGoods; taken tells whether it has left the ground. */
    method PickUpEntry(loot: seq<Loot>, k: nat) returns (rest: seq<Loot>, taken: bool)
      requires Valid() && k < |loot| && loot[k].count >= 1
      modifies this`goods, this`equ, this`equipmentId, this`journal, slots
      ensures var r := PickOneThing(old(Value()), loot, k);
              Value() == r.bag && journal == old(journal) + r.changes && rest == r.loot && taken == (|rest| < |loot|)
    {
      if IsEquipmentType(loot[k].id) {
        var picked := PickUpEqu(loot[k].id);
        return RemoveAt(loot, k), true;
      }
      var left, picked, result := PickUpCommonGoods(loot[k].id, loot[k].count);
      if left == 0 {
        return RemoveAt(loot, k), true;
      }
      return loot[k := Loot(loot[k].id, left)], false;
    }

    /** PickUpGoods for the thing named id, which is not money. */
    method PickUpGoods(loot: seq<Loot>, id: nat) returns (rest: seq<Loot>)
      requires Valid() && forall i :: 0 <= i < |loot| ==> loot[i].count >= 1
      modifies this`goods, this`equ, this`equipmentId, this`journal, slots
      ensures var r := PickNamed(old(Value()), loot, id, 0);
              Value() == r.bag && journal == old(journal) + r.changes && rest == r.loot
    {
      ghost var whole, before := PickNamed(Value(), loot, id, 0), journal;
      rest := loot;
      for k := 0 to |loot|
        invariant |rest| == |loot| && forall i :: 0 <= i < |rest| ==> rest[i].count >= 1
        invariant PicksOn(whole, before, journal, Value(), rest, id, k)
      {
        if rest[k].id == id {
          var taken;
          PicksFurther(whole, before, journal, Value(), rest, id, k);
          rest, taken := PickUpEntry(rest, k);
          if taken {
            return;
          }
        }
      }
    }

    // ----- Buying -----

    method AddOne(typeId: nat)
      requires Valid()
      modifies this`equ, this`equipmentId, this`journal, slots
      ensures var r := AddEquipment(old(Value()), typeId);
              Value() == r.bag && journal == old(journal) + r.changes
    {
      var p := GetEmptyPos();
      NewEquipment(typeId, p);
    }

    /** The loop of BuyEquipment. */
    method AddAll(typeId: nat, n: nat)
      requires Valid()
      modifies this`equ, this`equipmentId, this`journal, slots
      ensures var r := AddEquipments(old(Value()), typeId, n);
              Value() == r.bag && journal == old(journal) + r.changes
    {
      ghost var whole := AddEquipments(Value(), typeId, n);
      ghost var rest, done: seq<Change> := whole, [];
      for i := 0 to n
        invariant journal == old(journal) + done
        invariant rest == AddEquipments(Value(), typeId, n - i) && Extends(whole, done, rest)
      {
        ghost var first, before := AddEquipment(Value(), typeId), rest;
        AddEquipmentsUnfold(Value(), typeId, n - i);
        AddOne(typeId);
        rest := AddEquipments(Value(), typeId, n - i - 1);
        ExtendsFurther(whole, done, before, first.changes, rest);
        done := done + first.changes;
      }
    }

    method BuyEquipment(typeId: nat, n: nat, price: nat)
      requires Valid() && n * price % WORD <= money
      modifies this, slots
      ensures var r := BagOperations.BuyEquipment(old(Value()), typeId, n);
              && Value() == r.bag && journal == old(journal) + r.changes
              && money == old(money) - if n > EmptyCount(old(slots[..])) then 0 else n * price % WORD
    {
      var emptyPosCount := GetEmptyPosCount();
      if n > emptyPosCount {
        return;
      }
      AddAll(typeId, n);
      money := money - n * price % WORD;
    }

    /** The last, partial stack: into the first stack that can take it, or a new one. */
    method PlaceRest(g: nat, n: nat)
      requires Valid() && g in goods
      modifies this`goods, this`journal, slots
      ensures var r := BuyRemainder(old(goods[g]), true, old(slots[..]), g, n);
              goods == old(goods)[g := r.stacks] && slots[..] == r.slots && journal == old(journal) + r.changes
    {
      var k := 0;
      while k < |goods[g]|
        invariant k <= |goods[g]| && (k < |goods[g]| || goods[g] == []) && goods == old(goods)
        invariant slots[..] == old(slots[..]) && journal == old(journal)
        invariant FirstFit(goods[g], n, 0) == FirstFit(goods[g], n, k)
      {
        var s := goods[g][k];
        if s.count + n <= MAX_STACK {
          goods := goods[g := goods[g][k := s.(count := s.count + n)]];
          PushUpdateGoods(Update(Stack(g, g, s.count + n, s.pos)));
          return;
        }
        k := k + 1;
        if k == |goods[g]| {
          var p := GetEmptyPos();
          PushBack(g, n, p);
          return;
        }
      }
      assert goods == goods[g := goods[g]];
    }

    /** A full stack goes behind the others. */
    method PlaceFull(g: nat, n: nat) returns (ghost first: seq<Change>)
      requires Valid() && g in goods && n >= MAX_STACK
      modifies this`goods, this`journal, slots
      ensures g in goods && goods == old(goods)[g := goods[g]] && journal == old(journal) + first
      ensures Continues(BuyStacks(old(goods[g]), true, old(slots[..]), g, n), first,
                        BuyStacks(goods[g], true, slots[..], g, n - MAX_STACK))
    {
      first := BuyNewStack(goods[g], slots[..], g, MAX_STACK).changes;
      BuyStacksUnfold(goods[g], true, slots[..], g, n);
      var p := GetEmptyPos();
      PushBack(g, MAX_STACK, p);
    }

    /** One round for goods the bag holds already: a full stack, or the rest. */
    method PlaceSome(g: nat, n: nat) returns (left: nat, ghost first: seq<Change>)
      requires Valid() && g in goods && n > 0
      modifies this`goods, this`journal, slots
      ensures StacksFor(left) == StacksFor(n) - 1
      ensures g in goods && goods == old(goods)[g := goods[g]] && journal == old(journal) + first
      ensures Continues(BuyStacks(old(goods[g]), true, old(slots[..]), g, n), first,
                        BuyStacks(goods[g], true, slots[..], g, left))
    {
      StacksForStep(n);
      if n >= MAX_STACK {
        first := PlaceFull(g, n);
        return n - MAX_STACK, first;
      }
      first := BuyRemainder(goods[g], true, slots[..], g, n).changes;
      PlaceRest(g, n);
      return 0, first;
    }

    /** The loop of BuyOtherGoods for goods the bag holds already. */
    method BuyMore(g: nat, n: nat)
      requires Valid() && g in goods
      modifies this`goods, this`journal, slots
      ensures var r := BuyStacks(old(goods[g]), true, old(slots[..]), g, n);
              goods == old(goods)[g := r.stacks] && slots[..] == r.slots && journal == old(journal) + r.changes
    {
      ghost var whole := BuyStacks(goods[g], true, slots[..], g, n);
      ghost var rest, done: seq<Change> := whole, [];
      var size, count := StacksFor(n), n;
      assert goods == goods[g := goods[g]];
      for i := 0 to size
        invariant g in goods && goods == old(goods)[g := goods[g]] && journal == old(journal) + done
        invariant StacksFor(count) == size - i
        invariant rest == BuyStacks(goods[g], true, slots[..], g, count) && Continues(whole, done, rest)
      {
        StacksForStep(count);
        ghost var before, first := rest, [];
        count, first := PlaceSome(g, count);
        rest := BuyStacks(goods[g], true, slots[..], g, count);
        ContinuesFurther(whole, done, before, first, rest);
        done := done + first;
      }
      StacksForStep(count);
    }

    /** One round for goods that are new to the bag. */
    method PlaceNew(vec: seq<Stack>, g: nat, n: nat) returns (more: seq<Stack>, left: nat, ghost first: seq<Change>)
      requires Valid() && n > 0 && AllFull(vec)
      modifies this`journal, slots
      ensures StacksFor(left) == StacksFor(n) - 1 && (left > 0 ==> AllFull(more))
      ensures journal == old(journal) + first
      ensures Continues(BuyStacks(vec, false, old(slots[..]), g, n), first, BuyStacks(more, false, slots[..], g, left))
    {
      StacksForStep(n);
      BuyFullStacks(vec, slots[..], g, n);
      var p := GetEmptyPos();
      var count := if n < MAX_STACK then n else MAX_STACK;
      var s := Stack(g, g, count, p);
      PushUpdateGoods(Insert(s));
      return vec + [s], n - count, [Insert(s)];
    }

    /** What is journalled so far, and the pieces still to buy, make the whole. */
    ghost predicate BuysNew(whole: Bought, before: seq<Change>, vec: seq<Stack>, g: nat, n: nat)
      reads this, slots
    {
      && Valid() && (n > 0 ==> AllFull(vec))
      && var r := BuyStacks(vec, false, slots[..], g, n);
         whole.stacks == r.stacks && whole.slots == r.slots && before + whole.changes == journal + r.changes
    }

    method BuyNewRound(vec: seq<Stack>, g: nat, n: nat, ghost whole: Bought, ghost before: seq<Change>)
      returns (more: seq<Stack>, left: nat)
      requires BuysNew(whole, before, vec, g, n) && n > 0
      modifies this`journal, slots
      ensures StacksFor(left) == StacksFor(n) - 1 && BuysNew(whole, before, more, g, left)
    {
      ghost var first;
      more, left, first := PlaceNew(vec, g, n);
      ghost var rest := BuyStacks(more, false, slots[..], g, left).changes;
      assert old(journal) + (first + rest) == old(journal) + first + rest;
    }

    /** The loop of BuyOtherGoods for goods that are new to the bag. */
    method BuyNew(g: nat, n: nat)
      requires Valid() && g !in goods
      modifies this`goods, this`journal, slots
      ensures var r := BuyStacks([], false, old(slots[..]), g, n);
              goods == old(goods)[g := r.stacks] && slots[..] == r.slots && journal == old(journal) + r.changes
    {
      var vec: seq<Stack> := [];
      ghost var whole, before := BuyStacks(vec, false, slots[..], g, n), journal;
      var size, count := StacksFor(n), n;
      for i := 0 to size
        invariant goods == old(goods) && StacksFor(count) == size - i && BuysNew(whole, before, vec, g, count)
      {
        StacksForStep(count);
        vec, count := BuyNewRound(vec, g, count, whole, before);
      }
      StacksForStep(count);
      goods := goods[g := vec];
    }

    method BuyOtherGoods(g: nat, n: nat, price: nat)
      requires Valid() && n * price % WORD <= money
      modifies this, slots
      ensures var r := BuyOther(old(Value()), g, n);
              && Value() == r.bag && journal == old(journal) + r.changes
              && money == old(money) - if StacksFor(n) > EmptyCount(old(slots[..])) then 0 else n * price % WORD
    {
      var emptyPosCount := GetEmptyPosCount();
      if StacksFor(n) > emptyPosCount {
        return;
      }
      if g in goods {
        BuyMore(g, n);
      } else {
        BuyNew(g, n);
      }
      money := money - n * price % WORD;
    }

    /** price is the shop's, or 0. */
    method BuyGoods(price: nat, g: nat, n: nat)
      requires Valid()
      modifies this, slots
      ensures var r := BagCounts.BuyGoods(old(Value()), old(money), price, g, n);
              Value() == r.bag && money == r.purse && journal == old(journal) + r.changes
    {
      if price == 0 || money < n * price % WORD {
        return;
      }
      if IsEquipmentType(g) {
        BuyEquipment(g, n, price);
      } else {
        BuyOtherGoods(g, n, price);
      }
    }

    // ----- Selling and moving -----

    method SellGoods(id: nat, p: nat)
      requires Valid()
      modifies this`goods, this`equ, this`journal, slots
      ensures var r := Sell(old(Value()), id, p);
              Value() == r.bag && journal == old(journal) + r.changes
    {
      if id >= EQUIPMENT_ID {
        if id in equ {
          var s := equ[id].(count := 0);
          PushUpdateGoods(Delete(s));
          ReleasePos(s.pos);
          equ := equ - {id};
        }
      } else if id in goods {
        var i := FindPosition(goods[id], p);
        if i < |goods[id]| {
          var s := goods[id][i].(count := 0);
          PushUpdateGoods(Delete(s));
          ReleasePos(s.pos);
          goods := goods[id := RemoveAt(goods[id], i)];
          if goods[id] == [] {
            goods := goods - {id};
          }
        }
      }
    }

    method GetThisGoodsCount(goodsId: nat) returns (count: nat)
      requires Valid()
      ensures count == CountOf(Value(), goodsId)
    {
      if IsEquipmentType(goodsId) {
        count := CountEquipment(goodsId);
      } else if goodsId !in goods {
        count := 0;
      } else {
        var v, k := goods[goodsId], 0;
        count := 0;
        while k < |v|
          invariant k <= |v| && count + Total(v[k..]) == Total(v)
        {
          count := count + v[k].count;
          k := k + 1;
        }
      }
    }

    method CountEquipment(typeId: nat) returns (count: nat)
      ensures count == |EquipmentsOf(equ, typeId)|
    {
      count := 0;
      var seen, rest := {}, equ.Keys;
      assert EquipmentsOf(map[], typeId) == {};
      while rest != {}
        invariant rest <= equ.Keys && seen == equ.Keys - rest
        invariant count == |set e | e in seen && equ[e].typeId == typeId|
        decreases |rest|
      {
        var e :| e in rest;
        ghost var before := set x | x in seen && equ[x].typeId == typeId;
        if equ[e].typeId == typeId {
          count := count + 1;
          assert (set x | x in seen + {e} && equ[x].typeId == typeId) == before + {e};
        } else {
          assert (set x | x in seen + {e} && equ[x].typeId == typeId) == before;
        }
        seen, rest := seen + {e}, rest - {e};
      }
      assert EquipmentsOf(equ, typeId) == set e | e in seen && equ[e].typeId == typeId;
    }

    method Exchange(g: nat, i: nat, j: nat)
      requires g in goods && i < |goods[g]| && j < |goods[g]| && i != j
      modifies this`goods, this`journal
      ensures var v := old(goods[g]);
              var cur, tar := v[i].(pos := v[j].pos), v[j].(pos := v[i].pos);
              goods == old(goods)[g := v[i := cur][j := tar]] && journal == old(journal) + [Update(cur), Update(tar)]
    {
      var pos := goods[g][i].pos;
      goods := goods[g := goods[g][i := goods[g][i].(pos := goods[g][j].pos)]];
      goods := goods[g := goods[g][j := goods[g][j].(pos := pos)]];
      PushUpdateGoods(Update(goods[g][i]));
      PushUpdateGoods(Update(goods[g][j]));
    }

    method Pour(g: nat, i: nat, j: nat, n: nat)
      requires g in goods && i < |goods[g]| && j < |goods[g]| && i != j && n <= goods[g][i].count
      modifies this`goods, this`journal
      ensures var v := old(goods[g]);
              var cur, tar := v[i].(count := v[i].count - n), v[j].(count := v[j].count + n);
              goods == old(goods)[g := v[i := cur][j := tar]] && journal == old(journal) + [Update(cur), Update(tar)]
    {
      goods := goods[g := goods[g][i := goods[g][i].(count := goods[g][i].count - n)]];
      goods := goods[g := goods[g][j := goods[g][j].(count := goods[g][j].count + n)]];
      PushUpdateGoods(Update(goods[g][i]));
      PushUpdateGoods(Update(goods[g][j]));
    }

    /** The whole stack i goes into stack j. The target iterator is used after the erase: its place in
        memory now holds the next stack, or, past the new end, still what it held. */
    method PourOut(g: nat, i: nat, j: nat)
      requires Valid() && g in goods && i < |goods[g]| && j < |goods[g]| && i != j && goods[g][i].pos < SLOT_COUNT
      modifies this`goods, this`journal, slots
      ensures var v := old(goods[g]);
              var w := v[i := v[i].(count := 0)][j := v[j].(count := v[j].count + v[i].count)];
              && goods == old(goods)[g := RemoveAt(w, i)] && slots[..] == old(slots[..])[v[i].pos := Empty]
              && journal == old(journal) + [Delete(w[i]), Update(IteratorAfterErase(w, i, j))]
    {
      var n, p := goods[g][i].count, goods[g][i].pos;
      goods := goods[g := goods[g][i := goods[g][i].(count := 0)]];
      goods := goods[g := goods[g][j := goods[g][j].(count := goods[g][j].count + n)]];
      PushUpdateGoods(Delete(goods[g][i]));
      var memory := goods[g];
      goods := goods[g := RemoveAt(memory, i)];
      slots[p] := Empty;
      PushUpdateGoods(Update(if j < |goods[g]| then goods[g][j] else memory[j]));
    }

    method MovePieces(g: nat, i: nat, j: nat, n: nat)
      requires Valid() && g in goods && i < |goods[g]| && j < |goods[g]| && i != j
      requires n <= goods[g][i].count && goods[g][j].count <= MAX_STACK && goods[g][i].pos < SLOT_COUNT
      modifies this`goods, this`journal, slots
      ensures var m := MoveStacks(old(goods[g]), i, j, n);
              && goods == old(goods)[g := m.stacks] && journal == old(journal) + m.changes
              && slots[..] == if m.freed then old(slots[..])[old(goods[g][i].pos) := Empty] else old(slots[..])
    {
      var cur, tar := goods[g][i].count, goods[g][j].count;
      if cur == MAX_STACK || tar == MAX_STACK {
        Exchange(g, i, j);
      } else if n == cur {
        if tar + n > MAX_STACK {
          Pour(g, i, j, MAX_STACK - tar);
        } else {
          PourOut(g, i, j);
        }
      } else if tar + n > MAX_STACK {
        Pour(g, i, j, MAX_STACK - tar);
      } else {
        Pour(g, i, j, n);
      }
    }

    method MoveBagGoods(g: nat, from: nat, to: nat, n: nat)
      requires Valid() && Capped(Value()) && from < SLOT_COUNT && to < SLOT_COUNT
      modifies this`goods, this`journal, slots
      ensures var r := MoveGoods(old(Value()), g, from, to, n);
              Value() == r.bag && journal == old(journal) + r.changes
    {
      if from == to || slots[from] == Locked || slots[to] == Locked || g !in goods {
        return;
      }
      var i := FindPosition(goods[g], from);
      if i == |goods[g]| || n > goods[g][i].count {
        return;
      }
      var j := FindPosition(goods[g], to);
      if j == |goods[g]| {
        return;
      }
      MovePieces(g, i, j, n);
    }
  }

  /** What the loop over the loot has done, and what it does from entry k on, make the whole. */
  ghost predicate PicksOn(whole: Taken, before: seq<Change>, journal: seq<Change>, b: Bag, loot: seq<Loot>, id: nat,
                          k: nat)
    requires |b.slots| == SLOT_COUNT
  {
    var rest := PickNamed(b, loot, id, k);
    whole.bag == rest.bag && whole.loot == rest.loot && before + whole.changes == journal + rest.changes
  }

  lemma PicksFurther(whole: Taken, before: seq<Change>, journal: seq<Change>, b: Bag, loot: seq<Loot>, id: nat, k: nat)
    requires |b.slots| == SLOT_COUNT && k < |loot| && loot[k].id == id
    requires PicksOn(whole, before, journal, b, loot, id, k)
    ensures var r := PickOneThing(b, loot, k);
            if |r.loot| < |loot| then
              whole.bag == r.bag && whole.loot == r.loot && before + whole.changes == journal + r.changes
            else PicksOn(whole, before, journal + r.changes, r.bag, r.loot, id, k + 1)
  {
    var r := PickOneThing(b, loot, k);
    if |r.loot| >= |loot| {
      var more := PickNamed(r.bag, r.loot, id, k + 1).changes;
      assert journal + (r.changes + more) == journal + r.changes + more;
    }
  }

  /** The three ends of PickUpcommonGoods when the bag holds the goods. */
  lemma PickUpCases(b: Bag, g: nat, n: nat)
    requires |b.slots| == SLOT_COUNT && g in b.goods
    ensures var f := Fill(b.goods[g], n, 0);
            var filled := b.goods[g := f.stacks];
            var p := FirstEmpty(b.slots);
            var s := Stack(g, g, f.left, p);
            PickUpCommon(b, g, n) ==
              if f.left == 0 then Picked(b.(goods := filled), f.changes, 0, n, Success)
              else if p == 0 then Picked(b.(goods := filled), f.changes, f.left, n - f.left, PartBagFull)
              else Picked(b.(goods := filled[g := StacksOf(filled, g) + [s]], slots := TakeSlot(b.slots)),
                          f.changes + [Insert(s)], 0, n, Success)
  {
    var f := Fill(b.goods[g], n, 0);
    var s := Stack(g, g, f.left, FirstEmpty(b.slots));
    assert b.goods[g := f.stacks][g := f.stacks + [s]] == b.goods[g := f.stacks + [s]];
  }

  ghost predicate AllFull(v: seq<Stack>) {
    forall i :: 0 <= i < |v| ==> v[i].count == MAX_STACK
  }

  lemma {:induction false} FullStacksDoNotFit(v: seq<Stack>, n: nat, k: nat)
    requires AllFull(v) && n > 0 && k <= |v|
    ensures FirstFit(v, n, k) == |v|
    decreases |v| - k
  {
    if k < |v| {
      FullStacksDoNotFit(v, n, k + 1);
    }
  }

  /** While all stacks are full, the next pieces go to a new one. */
  lemma BuyFullStacks(v: seq<Stack>, slots: seq<Slot>, g: nat, n: nat)
    requires |slots| == SLOT_COUNT && AllFull(v) && n > 0
    ensures var count := if n < MAX_STACK then n else MAX_STACK;
            var s := Stack(g, g, count, FirstEmpty(slots));
            Continues(BuyStacks(v, false, slots, g, n), [Insert(s)],
                      BuyStacks(v + [s], false, TakeSlot(slots), g, n - count))
  {
    FullStacksDoNotFit(v, n, 0);
  }

  /** What is left to buy, after the changes done, makes the whole. */
  ghost predicate Continues(whole: Bought, done: seq<Change>, rest: Bought) {
    whole.stacks == rest.stacks && whole.slots == rest.slots && whole.changes == done + rest.changes
  }

  lemma ContinuesFurther(whole: Bought, done: seq<Change>, mid: Bought, first: seq<Change>, rest: Bought)
    requires Continues(whole, done, mid) && Continues(mid, first, rest)
    ensures Continues(whole, done + first, rest)
  {
  }

  lemma BuyStacksUnfold(v: seq<Stack>, present: bool, slots: seq<Slot>, g: nat, n: nat)
    requires |slots| == SLOT_COUNT && n >= MAX_STACK
    ensures var first := BuyNewStack(v, slots, g, MAX_STACK);
            var rest := BuyStacks(first.stacks, present, first.slots, g, n - MAX_STACK);
            BuyStacks(v, present, slots, g, n) == Bought(rest.stacks, rest.slots, first.changes + rest.changes)
  {
  }

  ghost predicate Extends(whole: Changed, done: seq<Change>, rest: Changed) {
    whole.bag == rest.bag && whole.changes == done + rest.changes
  }

  lemma ExtendsFurther(whole: Changed, done: seq<Change>, mid: Changed, first: seq<Change>, rest: Changed)
    requires Extends(whole, done, mid) && Extends(mid, first, rest)
    ensures Extends(whole, done + first, rest)
  {
  }

  lemma AddEquipmentsUnfold(b: Bag, typeId: nat, n: nat)
    requires |b.slots| == SLOT_COUNT && n > 0
    ensures var first := AddEquipment(b, typeId);
            var rest := AddEquipments(first.bag, typeId, n - 1);
            AddEquipments(b, typeId, n) == Changed(rest.bag, first.changes + rest.changes)
  {
  }

  lemma StacksForStep(n: nat)
    ensures n >= MAX_STACK ==> StacksFor(n) == StacksFor(n - MAX_STACK) + 1
    ensures 0 < n < MAX_STACK ==> StacksFor(n) == 1
    ensures StacksFor(n) > 0 <==> n > 0
  {
  }
}
