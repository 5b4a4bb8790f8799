// OperationGoods/operationgoods.cpp: what picking up, buying, selling and moving do to a bag, and
// which changes they journal.
module BagOperations {
  import opened BagEdits
  import opened GoodsBag

  // ----- The slot allocator -----

  /** The first empty slot from j on, or 0. */
  function FirstEmptyFrom(slots: seq<Slot>, j: nat): (p: nat)
    requires |slots| == SLOT_COUNT && 1 <= j <= SLOT_COUNT
    ensures p == 0 ==> forall q :: j <= q < SLOT_COUNT ==> slots[q] != Empty
    ensures p != 0 ==> j <= p < SLOT_COUNT && slots[p] == Empty && forall q :: j <= q < p ==> slots[q] != Empty
    decreases SLOT_COUNT - j
  {
    if j == SLOT_COUNT then 0 else if slots[j] == Empty then j else FirstEmptyFrom(slots, j + 1)
  }

  function FirstEmpty(slots: seq<Slot>): (p: nat)
    requires |slots| == SLOT_COUNT
    ensures p < SLOT_COUNT && (p != 0 ==> slots[p] == Empty) && forall q :: 1 <= q < p ==> slots[q] != Empty
  {
    FirstEmptyFrom(slots, 1)
  }

  /** GetEmptyPos: takes the slot it finds. */
  function TakeSlot(slots: seq<Slot>): (taken: seq<Slot>)
    requires |slots| == SLOT_COUNT
    ensures |taken| == SLOT_COUNT
  {
    var p := FirstEmpty(slots);
    if p == 0 then slots else slots[p := NonEmpty]
  }

  function EmptyCountFrom(slots: seq<Slot>, j: nat): nat
    requires |slots| == SLOT_COUNT && j <= SLOT_COUNT
    decreases SLOT_COUNT - j
  {
    if j == SLOT_COUNT then 0 else (if slots[j] == Empty then 1 else 0) + EmptyCountFrom(slots, j + 1)
  }

  function EmptyCount(slots: seq<Slot>): nat
    requires |slots| == SLOT_COUNT
  {
    EmptyCountFrom(slots, 1)
  }

  lemma {:induction false} CountAfterTaking(slots: seq<Slot>, p: nat, j: nat)
    requires |slots| == SLOT_COUNT && 1 <= j <= SLOT_COUNT && 1 <= p < SLOT_COUNT && slots[p] == Empty
    ensures EmptyCountFrom(slots[p := NonEmpty], j) == EmptyCountFrom(slots, j) - if j <= p then 1 else 0
    decreases SLOT_COUNT - j
  {
    if j < SLOT_COUNT {
      CountAfterTaking(slots, p, j + 1);
    }
  }

  lemma {:induction false} CountFindsEmpty(slots: seq<Slot>, j: nat)
    requires |slots| == SLOT_COUNT && 1 <= j <= SLOT_COUNT
    ensures EmptyCountFrom(slots, j) > 0 <==> FirstEmptyFrom(slots, j) != 0
    decreases SLOT_COUNT - j
  {
    if j < SLOT_COUNT {
      CountFindsEmpty(slots, j + 1);
    }
  }

  lemma TakeOne(slots: seq<Slot>)
    requires |slots| == SLOT_COUNT && EmptyCount(slots) > 0
    ensures FirstEmpty(slots) != 0 && EmptyCount(TakeSlot(slots)) == EmptyCount(slots) - 1
  {
    CountFindsEmpty(slots, 1);
    CountAfterTaking(slots, FirstEmpty(slots), 1);
  }

  function TakeSlots(slots: seq<Slot>, k: nat): (taken: seq<Slot>)
    requires |slots| == SLOT_COUNT
    ensures |taken| == SLOT_COUNT
    decreases k
  {
    if k == 0 then slots else TakeSlot(TakeSlots(slots, k - 1))
  }

  /** The slots that GetEmptyPosCount promises are really handed out, one after the other. */
  lemma {:induction false} CountedSlotsCanBeTaken(slots: seq<Slot>, k: nat)
    requires |slots| == SLOT_COUNT && k < EmptyCount(slots)
    ensures FirstEmpty(TakeSlots(slots, k)) != 0
    ensures EmptyCount(TakeSlots(slots, k)) == EmptyCount(slots) - k
    decreases k
  {
    if k > 0 {
      CountedSlotsCanBeTaken(slots, k - 1);
      TakeOne(TakeSlots(slots, k - 1));
    }
    CountFindsEmpty(TakeSlots(slots, k), 1);
  }

  // ----- Picking up -----

  datatype Filled = Filled(stacks: seq<Stack>, left: nat, changes: seq<Change>)

  /** Pours n pieces into the stacks from k on, each up to the cap, until they are used up. */
  function Fill(v: seq<Stack>, n: nat, k: nat): (f: Filled)
    requires k <= |v|
    ensures |f.stacks| == |v|
    decreases |v| - k
  {
    if k == |v| then Filled(v, n, [])
    else if v[k].count == MAX_STACK then Fill(v, n, k + 1)
    else if v[k].count + n <= MAX_STACK then
      var s := v[k].(count := v[k].count + n);
      Filled(v[k := s], 0, [Update(s)])
    else
      var s := v[k].(count := MAX_STACK);
      var rest := Fill(v[k := s], n - (MAX_STACK - v[k].count), k + 1);
      Filled(rest.stacks, rest.left, [Update(s)] + rest.changes)
  }

  datatype PickResult = Success | BagFull | PartBagFull

  datatype Picked = Picked(bag: Bag, changes: seq<Change>, left: nat, reported: int, result: PickResult)

  /** PickUpcommonGoods with n pieces of goods g on the ground. */
  function PickUpCommon(b: Bag, g: nat, n: nat): Picked
    requires |b.slots| == SLOT_COUNT
  {
    var p := FirstEmpty(b.slots);
    if g in b.goods then
      var f := Fill(b.goods[g], n, 0);
      if f.left == 0 then
        Picked(b.(goods := b.goods[g := f.stacks]), f.changes, 0, n, Success)
      else if p == 0 then
        Picked(b.(goods := b.goods[g := f.stacks]), f.changes, f.left, n - f.left, PartBagFull)
      else
        var s := Stack(g, g, f.left, p);
        Picked(b.(goods := b.goods[g := f.stacks + [s]], slots := TakeSlot(b.slots)),
               f.changes + [Insert(s)], 0, n, Success)
    else if p == 0 then
      Picked(b, [], n, 0, BagFull)
    else
      var s := Stack(g, g, n, p);
      Picked(b.(goods := b.goods[g := [s]], slots := TakeSlot(b.slots)), [Insert(s)], 0, n, Success)
  }

  /** One new piece of equipment in the first empty slot. */
  function AddEquipment(b: Bag, typeId: nat): Changed
    requires |b.slots| == SLOT_COUNT
  {
    var s := Stack(b.lastEquId + 1, typeId, 1, FirstEmpty(b.slots));
    Changed(b.(equ := b.equ[s.goodsId := s], slots := TakeSlot(b.slots), lastEquId := s.goodsId), [Insert(s)])
  }

  /** PickUpEqu. */
  function PickUpEquipment(b: Bag, typeId: nat): Changed
    requires |b.slots| == SLOT_COUNT
  {
    if FirstEmpty(b.slots) == 0 then Changed(b, []) else AddEquipment(b, typeId)
  }

  // ----- Buying -----

  /** The loop of BuyEquipment. */
  function AddEquipments(b: Bag, typeId: nat, n: nat): Changed
    requires |b.slots| == SLOT_COUNT
    decreases n
  {
    if n == 0 then Changed(b, [])
    else
      var first := AddEquipment(b, typeId);
      var rest := AddEquipments(first.bag, typeId, n - 1);
      Changed(rest.bag, first.changes + rest.changes)
  }

  function BuyEquipment(b: Bag, typeId: nat, n: nat): Changed
    requires |b.slots| == SLOT_COUNT
  {
    if n > EmptyCount(b.slots) then Changed(b, []) else AddEquipments(b, typeId, n)
  }

  /** How many stacks n pieces fill. */
  function StacksFor(n: nat): nat {
    n / MAX_STACK + if n % MAX_STACK != 0 then 1 else 0
  }

  /** The first stack from k on that n more pieces fit into, or |v|. */
  function FirstFit(v: seq<Stack>, n: nat, k: nat): (i: nat)
    requires k <= |v|
    ensures k <= i <= |v| && (i < |v| ==> v[i].count + n <= MAX_STACK)
    ensures forall j :: k <= j < i ==> v[j].count + n > MAX_STACK
    decreases |v| - k
  {
    if k == |v| || v[k].count + n <= MAX_STACK then k else FirstFit(v, n, k + 1)
  }

  datatype Bought = Bought(stacks: seq<Stack>, slots: seq<Slot>, changes: seq<Change>)

  function BuyNewStack(v: seq<Stack>, slots: seq<Slot>, g: nat, n: nat): Bought
    requires |slots| == SLOT_COUNT
  {
    var s := Stack(g, g, n, FirstEmpty(slots));
    Bought(v + [s], TakeSlot(slots), [Insert(s)])
  }

  /** The last, partial stack of a purchase. When the key was there with no stack at all, the loop
      over the stacks does nothing. */
  function BuyRemainder(v: seq<Stack>, present: bool, slots: seq<Slot>, g: nat, n: nat): Bought
    requires |slots| == SLOT_COUNT
  {
    var i := FirstFit(v, n, 0);
    if i < |v| then
      var s := Stack(g, g, v[i].count + n, v[i].pos);
      Bought(v[i := v[i].(count := s.count)], slots, [Update(s)])
    else if present && v == [] then Bought(v, slots, [])
    else BuyNewStack(v, slots, g, n)
  }

  function BuyStacks(v: seq<Stack>, present: bool, slots: seq<Slot>, g: nat, n: nat): Bought
    requires |slots| == SLOT_COUNT
    decreases n
  {
    if n == 0 then Bought(v, slots, [])
    else if n < MAX_STACK then BuyRemainder(v, present, slots, g, n)
    else
      var first := BuyNewStack(v, slots, g, MAX_STACK);
      var rest := BuyStacks(first.stacks, present, first.slots, g, n - MAX_STACK);
      Bought(rest.stacks, rest.slots, first.changes + rest.changes)
  }

  /** The bag once the stacks of g and the slots are replaced. */
  function WithStacks(b: Bag, g: nat, r: Bought): Bag {
    b.(goods := b.goods[g := r.stacks], slots := r.slots)
  }

  /** BuyOtherGoods once there is room; present says whether the bag had the goods before. */
  function BuyAll(b: Bag, present: bool, g: nat, n: nat): Changed
    requires |b.slots| == SLOT_COUNT
  {
    var r := BuyStacks(StacksOf(b.goods, g), present, b.slots, g, n);
    Changed(WithStacks(b, g, r), r.changes)
  }

  function BuyOther(b: Bag, g: nat, n: nat): Changed
    requires |b.slots| == SLOT_COUNT
  {
    if StacksFor(n) > EmptyCount(b.slots) then Changed(b, []) else BuyAll(b, g in b.goods, g, n)
  }

  // ----- Selling and moving -----

  /** The first stack, or offer, from k on at position p, or |v|. */
  function FindAt(v: seq<Stack>, p: nat, k: nat): (i: nat)
    requires k <= |v|
    ensures k <= i <= |v| && (i < |v| ==> v[i].pos == p) && forall j :: k <= j < i ==> v[j].pos != p
    decreases |v| - k
  {
    if k == |v| || v[k].pos == p then k else FindAt(v, p, k + 1)
  }

  function ReleaseSlot(slots: seq<Slot>, p: nat): (r: seq<Slot>)
    requires |slots| == SLOT_COUNT
    ensures |r| == SLOT_COUNT
  {
    if p < SLOT_COUNT then slots[p := Empty] else slots
  }

  /** SellGoods, without the coins it pays. */
  function Sell(b: Bag, id: nat, p: nat): Changed
    requires |b.slots| == SLOT_COUNT
  {
    if id >= EQUIPMENT_ID then
      if id in b.equ then
        var s := b.equ[id].(count := 0);
        Changed(b.(equ := b.equ - {id}, slots := ReleaseSlot(b.slots, s.pos)), [Delete(s)])
      else Changed(b, [])
    else if id in b.goods then
      var i := FindAt(b.goods[id], p, 0);
      if i < |b.goods[id]| then
        var s := b.goods[id][i].(count := 0);
        Changed(b.(goods := WithoutStack(b.goods, id, i), slots := ReleaseSlot(b.slots, p)), [Delete(s)])
      else Changed(b, [])
    else Changed(b, [])
  }

  /** Where the target iterator points once the current stack has been erased: the slot of the vector
      is the same, so behind the erased stack it names the next one, and past the new end it still
      shows the old last element. */
  function IteratorAfterErase(v: seq<Stack>, cur: nat, tar: nat): Stack
    requires cur < |v| && tar < |v| && cur != tar
  {
    if cur < tar < |v| - 1 then v[tar + 1] else v[tar]
  }

  /** What MoveBagGoods does to two stacks of the same goods. */
  datatype Move = Swap | Refill(moved: int) | Merge

  function MoveKind(cur: Stack, tar: Stack, n: nat): Move
  {
    if cur.count == MAX_STACK || tar.count == MAX_STACK then Swap
    else if tar.count + n > MAX_STACK then Refill(MAX_STACK - tar.count)
    else if n == cur.count then Merge
    else Refill(n)
  }

  datatype Moved = Moved(stacks: seq<Stack>, freed: bool, changes: seq<Change>)

  function MoveStacks(v: seq<Stack>, i: nat, j: nat, n: nat): Moved
    requires i < |v| && j < |v| && i != j && n <= v[i].count && v[j].count <= MAX_STACK
  {
    var cur, tar := v[i], v[j];
    match MoveKind(cur, tar, n)
    case Swap =>
      var cur', tar' := cur.(pos := tar.pos), tar.(pos := cur.pos);
      Moved(v[i := cur'][j := tar'], false, [Update(cur'), Update(tar')])
    case Refill(moved) =>
      var cur', tar' := cur.(count := cur.count - moved), tar.(count := tar.count + moved);
      Moved(v[i := cur'][j := tar'], false, [Update(cur'), Update(tar')])
    case Merge =>
      var w := v[i := cur.(count := 0)][j := tar.(count := tar.count + n)];
      Moved(RemoveAt(w, i), true, [Delete(w[i]), Update(IteratorAfterErase(w, i, j))])
  }

  /** The checks of MoveBagGoods before it touches anything. */
  predicate CanMove(b: Bag, g: nat, from: nat, to: nat, n: nat)
    requires |b.slots| == SLOT_COUNT && from < SLOT_COUNT && to < SLOT_COUNT
  {
    && from != to && b.slots[from] != Locked && b.slots[to] != Locked && g in b.goods
    && var i := FindAt(b.goods[g], from, 0);
       && i < |b.goods[g]| && n <= b.goods[g][i].count && FindAt(b.goods[g], to, 0) < |b.goods[g]|
  }

  /** MoveBagGoods when both slots are said to hold goods g. */
  function MoveGoods(b: Bag, g: nat, from: nat, to: nat, n: nat): Changed
    requires |b.slots| == SLOT_COUNT && from < SLOT_COUNT && to < SLOT_COUNT && Capped(b)
  {
    if !CanMove(b, g, from, to, n) then Changed(b, [])
    else
      var m := MoveStacks(b.goods[g], FindAt(b.goods[g], from, 0), FindAt(b.goods[g], to, 0), n);
      Changed(b.(goods := b.goods[g := m.stacks], slots := if m.freed then b.slots[from := Empty] else b.slots),
              m.changes)
  }

  /** A whole stack is poured into a later one that is not the last: the update that follows the erase
      then goes through an iterator that names the wrong stack. */
  predicate JournalsWrongStack(b: Bag, g: nat, from: nat, to: nat, n: nat)
    requires |b.slots| == SLOT_COUNT && from < SLOT_COUNT && to < SLOT_COUNT
  {
    && CanMove(b, g, from, to, n)
    && var v := b.goods[g];
       var i, j := FindAt(v, from, 0), FindAt(v, to, 0);
       MoveKind(v[i], v[j], n) == Merge && i < j < |v| - 1
  }
}
