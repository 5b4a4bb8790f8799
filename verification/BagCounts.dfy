// What the bag operations do to the number of pieces and to the cap on a stack.
module BagCounts {
  import opened GoodsBag
  import opened BagEdits
  import opened BagOperations

  predicate AllCapped(v: seq<Stack>) {
    forall i :: 0 <= i < |v| ==> v[i].count <= MAX_STACK
  }

  // ----- Picking up -----

  lemma {:induction false} FillConserves(v: seq<Stack>, n: nat, k: nat)
    requires k <= |v|
    ensures var f := Fill(v, n, k);
            Total(f.stacks) + f.left == Total(v) + n
    decreases |v| - k
  {
    if k < |v| {
      if v[k].count == MAX_STACK {
        FillConserves(v, n, k + 1);
      } else if v[k].count + n <= MAX_STACK {
        TotalSet(v, k, v[k].(count := v[k].count + n));
      } else {
        var s := v[k].(count := MAX_STACK);
        TotalSet(v, k, s);
        FillConserves(v[k := s], n - (MAX_STACK - v[k].count), k + 1);
      }
    }
  }

  /** A rest is left over only when every stack has been filled. */
  lemma {:induction false} FillFills(v: seq<Stack>, n: nat, k: nat)
    requires k <= |v| && AllCapped(v) && forall i :: 0 <= i < k ==> v[i].count == MAX_STACK
    ensures var f := Fill(v, n, k);
            && AllCapped(f.stacks) && f.left <= n
            && (f.left > 0 ==> forall i :: 0 <= i < |v| ==> f.stacks[i].count == MAX_STACK)
    decreases |v| - k
  {
    if k < |v| {
      if v[k].count == MAX_STACK {
        FillFills(v, n, k + 1);
      } else if v[k].count + n > MAX_STACK {
        FillFills(v[k := v[k].(count := MAX_STACK)], n - (MAX_STACK - v[k].count), k + 1);
      }
    }
  }

  /** Pieces are moved from the ground into the bag and none is lost or made: what is left plus what the
      bag holds is constant, the reported number is what the bag gained, and no other goods change. */
  lemma PickUpConserves(b: Bag, g: nat, n: nat)
    requires |b.slots| == SLOT_COUNT
    ensures var r := PickUpCommon(b, g, n);
            && r.left + Total(StacksOf(r.bag.goods, g)) == n + Total(StacksOf(b.goods, g))
            && r.reported == Total(StacksOf(r.bag.goods, g)) - Total(StacksOf(b.goods, g))
            && (forall h :: h != g ==> StacksOf(r.bag.goods, h) == StacksOf(b.goods, h))
            && r.bag.equ == b.equ
  {
    var s := Stack(g, g, n, FirstEmpty(b.slots));
    TotalPush([], s);
    assert [] + [s] == [s];
    if g in b.goods {
      FillConserves(b.goods[g], n, 0);
      var f := Fill(b.goods[g], n, 0);
      TotalPush(f.stacks, Stack(g, g, f.left, FirstEmpty(b.slots)));
    }
  }

  lemma {:induction false} TotalCapped(v: seq<Stack>)
    requires AllCapped(v)
    ensures Total(v) <= MAX_STACK * |v|
    ensures (forall i :: 0 <= i < |v| ==> v[i].count == MAX_STACK) ==> Total(v) == MAX_STACK * |v|
    decreases |v|
  {
    if v != [] {
      TotalCapped(v[1..]);
    }
  }

  /** Something stays on the ground exactly when no slot is free and the stacks of these goods cannot
      take it all; the cap is kept. */
  lemma PickUpLeavesRest(b: Bag, g: nat, n: nat)
    requires |b.slots| == SLOT_COUNT && Capped(b) && 1 <= n <= MAX_STACK
    ensures var r := PickUpCommon(b, g, n);
            var v := StacksOf(b.goods, g);
            && Capped(r.bag) && (r.result == Success <==> r.left == 0)
            && (r.left > 0 <==> FirstEmpty(b.slots) == 0 && Total(v) + n > MAX_STACK * |v|)
  {
    if g in b.goods {
      FillFills(b.goods[g], n, 0);
      FillConserves(b.goods[g], n, 0);
      TotalCapped(Fill(b.goods[g], n, 0).stacks);
    }
  }

  // ----- Buying -----

  /** The key of the goods is there with no stack, so the loop of the last partial stack does nothing. */
  predicate Undeliverable(v: seq<Stack>, present: bool, n: nat) {
    present && v == [] && 0 < n < MAX_STACK
  }

  lemma {:induction false} BuyStacksTotal(v: seq<Stack>, present: bool, slots: seq<Slot>, g: nat, n: nat)
    requires |slots| == SLOT_COUNT && AllCapped(v)
    ensures var r := BuyStacks(v, present, slots, g, n);
            && AllCapped(r.stacks)
            && Total(r.stacks) == Total(v) + if Undeliverable(v, present, n) then 0 else n
    decreases n
  {
    if n >= MAX_STACK {
      var s := Stack(g, g, MAX_STACK, FirstEmpty(slots));
      TotalPush(v, s);
      BuyStacksTotal(v + [s], present, TakeSlot(slots), g, n - MAX_STACK);
    } else if n > 0 {
      BuyRemainderTotal(v, present, slots, g, n);
    }
  }

  lemma BuyRemainderTotal(v: seq<Stack>, present: bool, slots: seq<Slot>, g: nat, n: nat)
    requires |slots| == SLOT_COUNT && AllCapped(v) && 0 < n < MAX_STACK
    ensures var r := BuyRemainder(v, present, slots, g, n);
            && AllCapped(r.stacks)
            && Total(r.stacks) == Total(v) + if Undeliverable(v, present, n) then 0 else n
  {
    var i := FirstFit(v, n, 0);
    if i < |v| {
      TotalSet(v, i, v[i].(count := v[i].count + n));
    } else {
      TotalPush(v, Stack(g, g, n, FirstEmpty(slots)));
    }
  }

  ghost predicate Numbered(b: Bag) {
    forall e :: e in b.equ ==> e <= b.lastEquId
  }

  lemma OneMoreEquipment(equ: map<nat, Stack>, s: Stack)
    requires s.goodsId !in equ
    ensures |EquipmentsOf(equ[s.goodsId := s], s.typeId)| == |EquipmentsOf(equ, s.typeId)| + 1
  {
    assert s.goodsId !in EquipmentsOf(equ, s.typeId);
    assert EquipmentsOf(equ[s.goodsId := s], s.typeId) == EquipmentsOf(equ, s.typeId) + {s.goodsId};
  }

  lemma AddEquipmentCount(b: Bag, typeId: nat)
    requires |b.slots| == SLOT_COUNT && IsEquipmentType(typeId)
    requires Numbered(b)
    ensures CountOf(AddEquipment(b, typeId).bag, typeId) == CountOf(b, typeId) + 1
    ensures Numbered(AddEquipment(b, typeId).bag) && AddEquipment(b, typeId).bag.goods == b.goods
  {
    OneMoreEquipment(b.equ, Stack(b.lastEquId + 1, typeId, 1, FirstEmpty(b.slots)));
  }

  lemma {:induction false} AddEquipmentsCount(b: Bag, typeId: nat, n: nat)
    requires |b.slots| == SLOT_COUNT && IsEquipmentType(typeId)
    requires Numbered(b)
    ensures CountOf(AddEquipments(b, typeId, n).bag, typeId) == CountOf(b, typeId) + n
    ensures AddEquipments(b, typeId, n).bag.goods == b.goods
    decreases n
  {
    if n > 0 {
      var first := AddEquipment(b, typeId).bag;
      AddEquipmentCount(b, typeId);
      AddEquipmentsCount(first, typeId, n - 1);
      assert AddEquipments(b, typeId, n).bag == AddEquipments(first, typeId, n - 1).bag;
    }
  }

  // ----- Buying through BuyGoods -----

  const WORD := 0x1_0000_0000

  predicate HasRoom(b: Bag, g: nat, n: nat)
    requires |b.slots| == SLOT_COUNT
  {
    (if IsEquipmentType(g) then n else StacksFor(n)) <= EmptyCount(b.slots)
  }

  datatype Purchase = Purchase(bag: Bag, purse: nat, changes: seq<Change>)

  /** BuyGoods outside a trade: purse is the count of Money_1, price the buying price in the shop, zero
      when the shop does not sell the goods. The cost is a 32-bit product. */
  function BuyGoods(b: Bag, purse: nat, price: nat, g: nat, n: nat): Purchase
    requires |b.slots| == SLOT_COUNT
  {
    var cost := n * price % WORD;
    if price == 0 || purse < cost || !HasRoom(b, g, n) then Purchase(b, purse, [])
    else
      var r := if IsEquipmentType(g) then BuyEquipment(b, g, n) else BuyOther(b, g, n);
      Purchase(r.bag, purse - cost, r.changes)
  }

  lemma BoughtPieces(b: Bag, g: nat, n: nat)
    requires |b.slots| == SLOT_COUNT && Capped(b) && HasRoom(b, g, n)
    requires Numbered(b)
    ensures var r := if IsEquipmentType(g) then BuyEquipment(b, g, n) else BuyOther(b, g, n);
            && Capped(r.bag)
            && CountOf(r.bag, g) == CountOf(b, g) +
                 if !IsEquipmentType(g) && Undeliverable(StacksOf(b.goods, g), g in b.goods, n) then 0 else n
  {
    if IsEquipmentType(g) {
      AddEquipmentsCount(b, g, n);
    } else {
      BuyStacksTotal(StacksOf(b.goods, g), g in b.goods, b.slots, g, n);
    }
  }

  /** A purchase delivers exactly n pieces of g and charges exactly n times the price, or it changes
      nothing. */
  ghost predicate Fair(b: Bag, purse: nat, price: nat, g: nat, n: nat)
    requires |b.slots| == SLOT_COUNT
  {
    var r := BuyGoods(b, purse, price, g, n);
    || r == Purchase(b, purse, [])
    || (CountOf(r.bag, g) == CountOf(b, g) + n && r.purse == purse - n * price)
  }

  lemma PurchaseGoesThrough(b: Bag, purse: nat, price: nat, g: nat, n: nat)
    requires |b.slots| == SLOT_COUNT && Capped(b)
    requires g in b.goods ==> b.goods[g] != []
    requires Numbered(b)
    requires price != 0 && n * price % WORD <= purse && HasRoom(b, g, n)
    ensures var r := BuyGoods(b, purse, price, g, n);
            && CountOf(r.bag, g) == CountOf(b, g) + n && r.purse == purse - n * price % WORD
            && Capped(r.bag)
  {
    BoughtPieces(b, g, n);
  }

  lemma Product(n: nat, price: nat)
    ensures n * price >= 0 && (n == 0 || price == 0 ==> n * price == 0)
  {
  }

  lemma PurchaseRefused(b: Bag, purse: nat, price: nat, g: nat, n: nat)
    requires |b.slots| == SLOT_COUNT && (price == 0 || purse < n * price % WORD || !HasRoom(b, g, n))
    ensures BuyGoods(b, purse, price, g, n) == Purchase(b, purse, [])
  {
  }

  /** A purchase r that has gone through, charged modulo 2^32, is fair when its cost fits. */
  lemma FairWhenItFits(b: Bag, purse: nat, g: nat, n: nat, cost: nat, r: Purchase)
    requires CountOf(r.bag, g) == CountOf(b, g) + n && r.purse == purse - cost % WORD && (n == 0 ==> cost == 0)
    ensures (r == Purchase(b, purse, []) || (CountOf(r.bag, g) == CountOf(b, g) + n && r.purse == purse - cost))
            <==> cost < WORD
  {
    assert cost % WORD == cost <==> cost < WORD;
  }

  /** Purchases are fair unless they go through with a cost that does not fit 32 bits. */
  lemma PurchaseIsFairExactlyWhen(b: Bag, purse: nat, price: nat, g: nat, n: nat)
    requires |b.slots| == SLOT_COUNT && Capped(b)
    requires g in b.goods ==> b.goods[g] != []
    requires Numbered(b)
    ensures Fair(b, purse, price, g, n) <==>
              n * price < WORD || purse < n * price % WORD || !HasRoom(b, g, n)
  {
    Product(n, price);
    if price == 0 || purse < n * price % WORD || !HasRoom(b, g, n) {
      PurchaseRefused(b, purse, price, g, n);
    } else {
      PurchaseGoesThrough(b, purse, price, g, n);
      FairWhenItFits(b, purse, g, n, n * price, BuyGoods(b, purse, price, g, n));
    }
  }

  /** A purchase of nothing, of goods the bag does not hold, leaves their key with no stack; the next
      purchase of less than a full stack is then charged and not delivered. */
  lemma ZeroPurchaseSpoilsTheNext(b: Bag, purse: nat, price: nat, g: nat, n: nat)
    requires |b.slots| == SLOT_COUNT && Capped(b) && g !in b.goods && !IsEquipmentType(g)
    requires 0 < n < MAX_STACK && HasRoom(b, g, n) && price > 0 && n * price <= purse < WORD
    ensures var spoilt := BuyGoods(b, purse, price, g, 0).bag;
            var r := BuyGoods(spoilt, purse, price, g, n);
            && spoilt.goods == b.goods[g := []]
            && CountOf(r.bag, g) == 0 && r.purse == purse - n * price && r.changes == []
  {
    var spoilt := BuyGoods(b, purse, price, g, 0).bag;
    assert spoilt.goods == b.goods[g := []];
  }

  // ----- Selling and moving -----

  lemma TotalSetTwo(v: seq<Stack>, i: nat, s: Stack, j: nat, u: Stack)
    requires i < |v| && j < |v| && i != j
    ensures Total(v[i := s][j := u]) == Total(v) - v[i].count - v[j].count + s.count + u.count
  {
    TotalSet(v, i, s);
    TotalSet(v[i := s], j, u);
  }

  lemma MergeConserves(v: seq<Stack>, i: nat, j: nat)
    requires i < |v| && j < |v| && i != j
    ensures var w := v[i := v[i].(count := 0)][j := v[j].(count := v[j].count + v[i].count)];
            Total(RemoveAt(w, i)) == Total(v)
  {
    TotalSetTwo(v, i, v[i].(count := 0), j, v[j].(count := v[j].count + v[i].count));
    TotalRemove(v[i := v[i].(count := 0)][j := v[j].(count := v[j].count + v[i].count)], i);
  }

  /** Moving pieces between two stacks makes none and loses none. */
  lemma MoveStacksConserves(v: seq<Stack>, i: nat, j: nat, n: nat)
    requires i < |v| && j < |v| && i != j && n <= v[i].count && v[j].count <= MAX_STACK
    ensures Total(MoveStacks(v, i, j, n).stacks) == Total(v)
  {
    var w := MoveStacks(v, i, j, n).stacks;
    if MoveKind(v[i], v[j], n) == Merge {
      MergeConserves(v, i, j);
      assert w == RemoveAt(v[i := v[i].(count := 0)][j := v[j].(count := v[j].count + v[i].count)], i);
      assert Total(w) == Total(v);
    } else {
      assert w == v[i := w[i]][j := w[j]];
      assert w[i].count + w[j].count == v[i].count + v[j].count;
      TotalSetTwo(v, i, w[i], j, w[j]);
      assert Total(w) == Total(v);
    }
  }

  lemma MoveStacksCapped(v: seq<Stack>, i: nat, j: nat, n: nat)
    requires i < |v| && j < |v| && i != j && n <= v[i].count && AllCapped(v)
    ensures AllCapped(MoveStacks(v, i, j, n).stacks)
  {
  }

  lemma MoveConserves(b: Bag, g: nat, from: nat, to: nat, n: nat)
    requires |b.slots| == SLOT_COUNT && from < SLOT_COUNT && to < SLOT_COUNT && Capped(b)
    ensures var r := MoveGoods(b, g, from, to, n);
            && Capped(r.bag) && r.bag.equ == b.equ
            && forall h :: Total(StacksOf(r.bag.goods, h)) == Total(StacksOf(b.goods, h))
  {
    if CanMove(b, g, from, to, n) {
      MoveStacksConserves(b.goods[g], FindAt(b.goods[g], from, 0), FindAt(b.goods[g], to, 0), n);
      MoveStacksCapped(b.goods[g], FindAt(b.goods[g], from, 0), FindAt(b.goods[g], to, 0), n);
    }
  }

  /** Selling takes away one whole stack, or nothing. */
  lemma SellTakesOneStack(b: Bag, id: nat, p: nat)
    requires |b.slots| == SLOT_COUNT && id < EQUIPMENT_ID
    ensures var r := Sell(b, id, p);
            var v := StacksOf(b.goods, id);
            var i := FindAt(v, p, 0);
            && Total(StacksOf(r.bag.goods, id)) == Total(v) - (if i < |v| then v[i].count else 0)
            && (forall h :: h != id ==> StacksOf(r.bag.goods, h) == StacksOf(b.goods, h))
            && (Capped(b) ==> Capped(r.bag))
  {
    var v := StacksOf(b.goods, id);
    var i := FindAt(v, p, 0);
    if i < |v| {
      TotalRemove(v, i);
    }
  }

  // ----- Picking one thing from the loot -----

  /** STR_LootGoods: goods on the ground. */
  datatype Loot = Loot(id: nat, count: nat)

  /** The pieces of g on the ground; every equipment lies there by itself. */
  function LootOf(loot: seq<Loot>, g: nat): nat {
    if loot == [] then 0
    else (if loot[0].id != g then 0 else if IsEquipmentType(g) then 1 else loot[0].count) + LootOf(loot[1..], g)
  }

  lemma {:induction false} LootConcat(first: seq<Loot>, more: seq<Loot>, g: nat)
    ensures LootOf(first + more, g) == LootOf(first, g) + LootOf(more, g)
    decreases |first|
  {
    if first == [] {
      assert first + more == more;
    } else {
      assert (first + more)[1..] == first[1..] + more;
      LootConcat(first[1..], more, g);
    }
  }

  lemma LootAt(loot: seq<Loot>, k: nat, l: Loot, g: nat)
    requires k < |loot|
    ensures LootOf(loot[k := l], g) == LootOf(RemoveAt(loot, k), g) + LootOf([l], g)
  {
    assert loot[k := l] == loot[..k] + ([l] + loot[k + 1..]);
    LootConcat(loot[..k], loot[k + 1..], g);
    LootConcat(loot[..k], [l] + loot[k + 1..], g);
    LootConcat([l], loot[k + 1..], g);
  }

  datatype Taken = Taken(bag: Bag, loot: seq<Loot>, changes: seq<Change>)

  /** One entry of the loot: equipment leaves the ground whether or not it found a slot. */
  function PickOneThing(b: Bag, loot: seq<Loot>, k: nat): (r: Taken)
    requires |b.slots| == SLOT_COUNT && k < |loot|
    ensures |r.bag.slots| == SLOT_COUNT
  {
    var id := loot[k].id;
    if IsEquipmentType(id) then
      var r := PickUpEquipment(b, id);
      Taken(r.bag, RemoveAt(loot, k), r.changes)
    else
      var r := PickUpCommon(b, id, loot[k].count);
      Taken(r.bag, if r.left == 0 then RemoveAt(loot, k) else loot[k := Loot(id, r.left)], r.changes)
  }

  /** PickUpGoods for one named thing, from entry k on: an entry that is taken ends it; one of which something
      stays on the ground does not. */
  function PickNamed(b: Bag, loot: seq<Loot>, id: nat, k: nat): (r: Taken)
    requires |b.slots| == SLOT_COUNT
    ensures |r.bag.slots| == SLOT_COUNT
    decreases |loot| - k
  {
    if k >= |loot| then Taken(b, loot, [])
    else if loot[k].id != id then PickNamed(b, loot, id, k + 1)
    else
      var first := PickOneThing(b, loot, k);
      if |first.loot| < |loot| then first
      else
        var rest := PickNamed(first.bag, first.loot, id, k + 1);
        Taken(rest.bag, rest.loot, first.changes + rest.changes)
  }

  lemma OneEquipmentTaken(b: Bag, typeId: nat)
    requires |b.slots| == SLOT_COUNT && Numbered(b) && IsEquipmentType(typeId)
    ensures CountOf(PickUpEquipment(b, typeId).bag, typeId)
         == CountOf(b, typeId) + if FirstEmpty(b.slots) == 0 then 0 else 1
  {
    if FirstEmpty(b.slots) != 0 {
      AddEquipmentCount(b, typeId);
    }
  }

  lemma LootTaken(loot: seq<Loot>, k: nat, left: nat)
    requires k < |loot| && !IsEquipmentType(loot[k].id)
    ensures var g := loot[k].id;
            var rest := if left == 0 then RemoveAt(loot, k) else loot[k := Loot(g, left)];
            LootOf(rest, g) == LootOf(loot, g) - loot[k].count + left
  {
    var g := loot[k].id;
    LootAt(loot, k, loot[k], g);
    LootAt(loot, k, Loot(g, left), g);
    assert loot[k := loot[k]] == loot;
  }

  /** The pieces on the ground and in the bag together. */
  function Around(b: Bag, loot: seq<Loot>, g: nat): nat {
    LootOf(loot, g) + CountOf(b, g)
  }

  /** One entry keeps them, except that equipment is lost when the bag is full. */
  lemma PickingOneConserves(b: Bag, loot: seq<Loot>, k: nat)
    requires |b.slots| == SLOT_COUNT && k < |loot| && Numbered(b)
    ensures var r := PickOneThing(b, loot, k);
            var g := loot[k].id;
            && Around(r.bag, r.loot, g)
                 == Around(b, loot, g) - (if IsEquipmentType(g) && FirstEmpty(b.slots) == 0 then 1 else 0)
            && (!IsEquipmentType(g) ==> Numbered(r.bag))
            && (IsEquipmentType(g) ==> |r.loot| < |loot|)
  {
    var g := loot[k].id;
    if IsEquipmentType(g) {
      OneEquipmentTaken(b, g);
      LootAt(loot, k, loot[k], g);
      assert loot[k := loot[k]] == loot;
    } else {
      PickUpConserves(b, g, loot[k].count);
      LootTaken(loot, k, PickUpCommon(b, g, loot[k].count).left);
    }
  }

  /** There is something of this name from entry k on. */
  predicate Lies(loot: seq<Loot>, id: nat, k: nat) {
    exists i :: k <= i < |loot| && loot[i].id == id
  }

  /** Picking up keeps the pieces on the ground and in the bag together exactly unless it is equipment, there
      is some, and the bag is full: then one piece is lost. */
  lemma {:induction false} PickingConservesExactlyWhen(b: Bag, loot: seq<Loot>, id: nat, k: nat)
    requires |b.slots| == SLOT_COUNT && Numbered(b)
    ensures var r := PickNamed(b, loot, id, k);
            var lost := IsEquipmentType(id) && FirstEmpty(b.slots) == 0 && Lies(loot, id, k);
            Around(r.bag, r.loot, id) == Around(b, loot, id) - if lost then 1 else 0
    decreases |loot| - k
  {
    if k < |loot| {
      if loot[k].id != id {
        PickingConservesExactlyWhen(b, loot, id, k + 1);
      } else {
        var first := PickOneThing(b, loot, k);
        PickingOneConserves(b, loot, k);
        if |first.loot| == |loot| {
          PickingConservesExactlyWhen(first.bag, first.loot, id, k + 1);
        }
      }
    }
  }
}
