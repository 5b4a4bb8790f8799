// What the requests of a player bring about: where pieces go, which slots they take, and how many there are after
// whole runs.
module BagEffects {
  import opened GoodsBag
  import opened BagEdits
  import opened BagOperations
  import opened BagCounts
  import opened BagRuns

  // ----- Picking up -----

  /** The pieces that the stacks can still take. */
  function Room(v: seq<Stack>): nat
    requires AllCapped(v)
  {
    if v == [] then 0 else MAX_STACK - v[0].count + Room(v[1..])
  }

  lemma {:induction false} RoomAndTotal(v: seq<Stack>)
    requires AllCapped(v)
    ensures Room(v) + Total(v) == MAX_STACK * |v|
    decreases |v|
  {
    if v != [] {
      RoomAndTotal(v[1..]);
    }
  }

  /** Only counts grow, none above the cap, and no stack gets a piece while one before it has room. */
  ghost predicate PouredInOrder(v: seq<Stack>, w: seq<Stack>, k: nat) {
    && |w| == |v|
    && (forall i :: 0 <= i < |v| ==> w[i] == v[i].(count := w[i].count) && v[i].count <= w[i].count <= MAX_STACK)
    && (forall i :: 0 <= i < k && i < |v| ==> w[i] == v[i])
    && forall i, j :: k <= i < j < |v| && w[i].count < MAX_STACK ==> w[j] == v[j]
  }

  lemma PouredFurther(v: seq<Stack>, w: seq<Stack>, k: nat)
    requires k < |v| && AllCapped(v) && PouredInOrder(v[k := v[k].(count := MAX_STACK)], w, k + 1)
    ensures PouredInOrder(v, w, k)
  {
    assert w[k] == v[k].(count := MAX_STACK);
  }

  lemma PouredIntoOne(v: seq<Stack>, k: nat, n: nat)
    requires k < |v| && AllCapped(v) && v[k].count + n <= MAX_STACK
    ensures PouredInOrder(v, v[k := v[k].(count := v[k].count + n)], k)
  {
  }

  lemma {:induction false} FillPoursInOrder(v: seq<Stack>, n: nat, k: nat)
    requires k <= |v| && AllCapped(v)
    ensures PouredInOrder(v, Fill(v, n, k).stacks, k)
    decreases |v| - k
  {
    if k < |v| {
      if v[k].count == MAX_STACK {
        FillPoursInOrder(v, n, k + 1);
        assert v[k := v[k].(count := MAX_STACK)] == v;
        PouredFurther(v, Fill(v, n, k).stacks, k);
      } else if v[k].count + n > MAX_STACK {
        FillPoursInOrder(v[k := v[k].(count := MAX_STACK)], n - (MAX_STACK - v[k].count), k + 1);
        PouredFurther(v, Fill(v, n, k).stacks, k);
      } else {
        PouredIntoOne(v, k, n);
      }
    }
  }

  lemma FillLeaves(v: seq<Stack>, n: nat)
    requires AllCapped(v)
    ensures Fill(v, n, 0).left == if n <= Room(v) then 0 else n - Room(v)
  {
    var f := Fill(v, n, 0);
    FillFills(v, n, 0);
    FillConserves(v, n, 0);
    RoomAndTotal(v);
    RoomAndTotal(f.stacks);
    TotalCapped(f.stacks);
  }

  /** The stacks are poured into in their order; what they cannot take opens a new stack in the first empty slot,
      or stays when there is none. */
  ghost predicate PouredThenOpened(b: Bag, g: nat, n: nat, w: seq<Stack>, slots: seq<Slot>, left: nat)
    requires |b.slots| == SLOT_COUNT && AllCapped(StacksOf(b.goods, g))
  {
    var v, p := StacksOf(b.goods, g), FirstEmpty(b.slots);
    && |w| >= |v| && PouredInOrder(v, w[..|v|], 0)
    && if n <= Room(v) then left == 0 && |w| == |v| && slots == b.slots
       else if p == 0 then left == n - Room(v) && |w| == |v| && slots == b.slots
       else left == 0 && |w| == |v| + 1 && w[|v|] == Stack(g, g, n - Room(v), p) && slots == b.slots[p := NonEmpty]
  }

  lemma PickUpMorePours(b: Bag, g: nat, n: nat)
    requires |b.slots| == SLOT_COUNT && Capped(b) && n >= 1 && g in b.goods
    ensures var r := PickUpCommon(b, g, n);
            g in r.bag.goods && PouredThenOpened(b, g, n, r.bag.goods[g], r.bag.slots, r.left)
  {
    var v, f := b.goods[g], Fill(b.goods[g], n, 0);
    FillPoursInOrder(v, n, 0);
    FillLeaves(v, n);
    assert f.stacks[..|v|] == f.stacks;
    assert (f.stacks + [Stack(g, g, f.left, FirstEmpty(b.slots))])[..|v|] == f.stacks;
  }

  /** That is what picking up does, for goods the bag holds and for others. */
  lemma PickUpPoursThenOpens(b: Bag, g: nat, n: nat)
    requires |b.slots| == SLOT_COUNT && Capped(b) && n >= 1
    ensures var r := PickUpCommon(b, g, n);
            PouredThenOpened(b, g, n, StacksOf(r.bag.goods, g), r.bag.slots, r.left)
  {
    if g in b.goods {
      PickUpMorePours(b, g, n);
    }
  }

  /** Picking up equipment puts one new piece, with the next number, into the first empty slot. */
  lemma PickUpPutsEquipment(b: Bag, typeId: nat)
    requires |b.slots| == SLOT_COUNT
    ensures var p, id := FirstEmpty(b.slots), b.lastEquId + 1;
            var r := PickUpEquipment(b, typeId).bag;
            if p == 0 then r == b
            else r == b.(equ := b.equ[id := Stack(id, typeId, 1, p)], slots := b.slots[p := NonEmpty], lastEquId := id)
  {
  }

  // ----- Picking by name -----

  /** The first entry of the name, from k on. */
  predicate IsFirst(loot: seq<Loot>, id: nat, k: nat, i: nat) {
    k <= i < |loot| && loot[i].id == id && forall j :: k <= j < i ==> loot[j].id != id
  }

  lemma EquipmentCounted(b: Bag, typeId: nat, h: nat)
    requires |b.slots| == SLOT_COUNT && Numbered(b)
    ensures CountOf(AddEquipment(b, typeId).bag, h)
         == CountOf(b, h) + if h == typeId && IsEquipmentType(h) then 1 else 0
    ensures Numbered(AddEquipment(b, typeId).bag)
  {
    var s := Stack(b.lastEquId + 1, typeId, 1, FirstEmpty(b.slots));
    if h == typeId {
      OneMoreEquipment(b.equ, s);
    } else {
      assert EquipmentsOf(b.equ[s.goodsId := s], h) == EquipmentsOf(b.equ, h);
    }
  }

  /** With a free slot the first entry of the name leaves the ground, all of it, and only it; and all of it is in
      the bag afterwards. */
  lemma {:induction false} PickingTakesTheFirst(b: Bag, loot: seq<Loot>, id: nat, k: nat, i: nat)
    requires |b.slots| == SLOT_COUNT && Numbered(b) && FirstEmpty(b.slots) != 0 && IsFirst(loot, id, k, i)
    ensures var r := PickNamed(b, loot, id, k);
            && r.loot == RemoveAt(loot, i)
            && CountOf(r.bag, id) == CountOf(b, id) + (if IsEquipmentType(id) then 1 else loot[i].count)
            && forall h :: h != id ==> CountOf(r.bag, h) == CountOf(b, h)
    decreases |loot| - k
  {
    if k < i {
      PickingTakesTheFirst(b, loot, id, k + 1, i);
    } else {
      forall h
        ensures IsEquipmentType(id) ==>
                  CountOf(PickUpEquipment(b, id).bag, h) == CountOf(b, h)
                    + if h == id && IsEquipmentType(h) then 1 else 0
      {
        EquipmentCounted(b, id, h);
      }
      PickUpConserves(b, id, loot[i].count);
    }
  }

  ghost predicate AllFull(v: seq<Stack>) {
    forall i :: 0 <= i < |v| ==> v[i].count == MAX_STACK
  }

  lemma PickUpFills(b: Bag, g: nat, n: nat)
    requires |b.slots| == SLOT_COUNT && Capped(b) && FirstEmpty(b.slots) == 0
    ensures var r := PickUpCommon(b, g, n);
            && Capped(r.bag) && r.bag.slots == b.slots && (r.left > 0 ==> AllFull(StacksOf(r.bag.goods, g)))
  {
    if g in b.goods {
      FillFills(b.goods[g], n, 0);
    }
  }

  /** Without a free slot at most one entry of goods that stack leaves the ground, and none does, though there is
      one, only when the stacks are full. */
  lemma {:induction false} PickingStaysOnlyWhenFull(b: Bag, loot: seq<Loot>, id: nat, k: nat)
    requires |b.slots| == SLOT_COUNT && Capped(b) && FirstEmpty(b.slots) == 0 && !IsEquipmentType(id)
    ensures var r := PickNamed(b, loot, id, k);
            && |loot| <= |r.loot| + 1 && |r.loot| <= |loot|
            && (|r.loot| == |loot| && Lies(loot, id, k) ==> AllFull(StacksOf(r.bag.goods, id)))
    decreases |loot| - k
  {
    if k < |loot| {
      if loot[k].id != id {
        PickingStaysOnlyWhenFull(b, loot, id, k + 1);
      } else {
        var first := PickOneThing(b, loot, k);
        PickUpFills(b, id, loot[k].count);
        if |first.loot| == |loot| {
          PickingStaysOnlyWhenFull(first.bag, first.loot, id, k + 1);
          FullStaysFull(first.bag, first.loot, id, k + 1);
        }
      }
    }
  }

  lemma {:induction false} FullStaysFull(b: Bag, loot: seq<Loot>, id: nat, k: nat)
    requires |b.slots| == SLOT_COUNT && Capped(b) && FirstEmpty(b.slots) == 0 && !IsEquipmentType(id)
    requires AllFull(StacksOf(b.goods, id))
    ensures AllFull(StacksOf(PickNamed(b, loot, id, k).bag.goods, id))
    decreases |loot| - k
  {
    if k < |loot| {
      if loot[k].id != id {
        FullStaysFull(b, loot, id, k + 1);
      } else {
        var first := PickOneThing(b, loot, k);
        PickUpFills(b, id, loot[k].count);
        FillPoursInOrder(StacksOf(b.goods, id), loot[k].count, 0);
        if |first.loot| == |loot| {
          FullStaysFull(first.bag, first.loot, id, k + 1);
        }
      }
    }
  }

  // ----- Buying -----

  /** Stack i is the first that can take n more pieces. */
  predicate TakesRest(v: seq<Stack>, n: nat, i: nat) {
    i < |v| && v[i].count + n <= MAX_STACK && forall j :: 0 <= j < i ==> v[j].count + n > MAX_STACK
  }

  /** w is v with n pieces bought: as many full stacks as they make, and the rest in the first stack that can take
      it, or in a new one. */
  ghost predicate LaidOut(v: seq<Stack>, w: seq<Stack>, n: nat) {
    var full, rest := n / MAX_STACK, n % MAX_STACK;
    && |w| >= |v| + full
    && (forall i :: 0 <= i < |v| ==>
          w[i] == if rest > 0 && TakesRest(v, rest, i) then v[i].(count := v[i].count + rest) else v[i])
    && (forall i :: |v| <= i < |v| + full ==> w[i].count == MAX_STACK)
    && if rest == 0 || exists i :: TakesRest(v, rest, i) then |w| == |v| + full
       else |w| == |v| + full + 1 && w[|v| + full].count == rest
  }

  lemma RestAfterFull(v: seq<Stack>, s: Stack, rest: nat, i: nat)
    requires s.count == MAX_STACK && rest > 0
    ensures TakesRest(v + [s], rest, i) <==> TakesRest(v, rest, i)
  {
    if i < |v| {
      assert (v + [s])[i] == v[i];
      assert forall j :: 0 <= j < i ==> (v + [s])[j] == v[j];
    } else if i == |v| {
      assert (v + [s])[i] == s;
    }
  }

  lemma BoughtFurther(v: seq<Stack>, s: Stack, w: seq<Stack>, n: nat)
    requires n >= MAX_STACK && s.count == MAX_STACK && LaidOut(v + [s], w, n - MAX_STACK)
    ensures LaidOut(v, w, n)
  {
    var u, full, rest := v + [s], n / MAX_STACK, n % MAX_STACK;
    assert (n - MAX_STACK) / MAX_STACK == full - 1 && (n - MAX_STACK) % MAX_STACK == rest;
    forall i: nat
      ensures rest > 0 ==> (TakesRest(u, rest, i) <==> TakesRest(v, rest, i))
    {
      if rest > 0 {
        RestAfterFull(v, s, rest, i);
      }
    }
    assert u[|v|] == s && !(rest > 0 && TakesRest(v, rest, |v|));
    forall i | 0 <= i < |v|
      ensures u[i] == v[i]
    {
    }
  }

  lemma FirstFitTakesRest(v: seq<Stack>, n: nat)
    ensures forall i :: TakesRest(v, n, i) <==> i == FirstFit(v, n, 0) < |v|
  {
  }

  lemma RestIsBought(v: seq<Stack>, present: bool, slots: seq<Slot>, g: nat, n: nat)
    requires |slots| == SLOT_COUNT && (present ==> v != []) && 0 < n < MAX_STACK
    ensures LaidOut(v, BuyRemainder(v, present, slots, g, n).stacks, n)
  {
    FirstFitTakesRest(v, n);
    assert n / MAX_STACK == 0 && n % MAX_STACK == n;
    var i := FirstFit(v, n, 0);
    if i < |v| {
      assert TakesRest(v, n, i);
    }
  }

  lemma {:induction false} StacksAreBought(v: seq<Stack>, present: bool, slots: seq<Slot>, g: nat, n: nat)
    requires |slots| == SLOT_COUNT && (present ==> v != [])
    ensures LaidOut(v, BuyStacks(v, present, slots, g, n).stacks, n)
    decreases n
  {
    if n >= MAX_STACK {
      var s := Stack(g, g, MAX_STACK, FirstEmpty(slots));
      StacksAreBought(v + [s], present, TakeSlot(slots), g, n - MAX_STACK);
      BoughtFurther(v, s, BuyStacks(v, present, slots, g, n).stacks, n);
    } else if n > 0 {
      RestIsBought(v, present, slots, g, n);
    }
  }

  /** Every new stack takes a slot, and nothing else does. */
  ghost predicate SlotsFollow(v: seq<Stack>, slots: seq<Slot>, w: seq<Stack>, after: seq<Slot>)
    requires |slots| == SLOT_COUNT
  {
    |after| == SLOT_COUNT && EmptyCount(after) + |w| == EmptyCount(slots) + |v|
  }

  lemma RestTakesSlots(v: seq<Stack>, present: bool, slots: seq<Slot>, g: nat, n: nat)
    requires |slots| == SLOT_COUNT && EmptyCount(slots) >= 1
    ensures var r := BuyRemainder(v, present, slots, g, n);
            SlotsFollow(v, slots, r.stacks, r.slots)
  {
    TakeOne(slots);
  }

  ghost predicate BuysInto(v: seq<Stack>, present: bool, slots: seq<Slot>, g: nat, n: nat, w: seq<Stack>,
                           after: seq<Slot>)
    requires |slots| == SLOT_COUNT
  {
    w == BuyStacks(v, present, slots, g, n).stacks && after == BuyStacks(v, present, slots, g, n).slots
  }

  lemma BuysFurther(v: seq<Stack>, present: bool, slots: seq<Slot>, g: nat, n: nat, w: seq<Stack>, after: seq<Slot>)
    requires |slots| == SLOT_COUNT && n >= MAX_STACK && BuysInto(v, present, slots, g, n, w, after)
    ensures BuysInto(v + [Stack(g, g, MAX_STACK, FirstEmpty(slots))], present, TakeSlot(slots), g, n - MAX_STACK, w,
                     after)
  {
  }

  lemma RestSlotsFollow(v: seq<Stack>, present: bool, slots: seq<Slot>, g: nat, n: nat, w: seq<Stack>, after: seq<Slot>)
    requires |slots| == SLOT_COUNT && n < MAX_STACK && BuysInto(v, present, slots, g, n, w, after)
    requires |w| <= |v| + EmptyCount(slots)
    ensures SlotsFollow(v, slots, w, after)
  {
    if |w| > |v| {
      TakeOne(slots);
    }
  }

  lemma StepFollows(v: seq<Stack>, s: Stack, slots: seq<Slot>, w: seq<Stack>, after: seq<Slot>)
    requires |slots| == SLOT_COUNT && EmptyCount(slots) > 0 && SlotsFollow(v + [s], TakeSlot(slots), w, after)
    ensures SlotsFollow(v, slots, w, after)
  {
    TakeOne(slots);
  }

  lemma {:induction false} BuyTakesSlots(v: seq<Stack>, present: bool, slots: seq<Slot>, g: nat, n: nat,
                                         w: seq<Stack>, after: seq<Slot>)
    requires |slots| == SLOT_COUNT && BuysInto(v, present, slots, g, n, w, after)
    requires |v| + n / MAX_STACK <= |w| <= |v| + EmptyCount(slots)
    ensures SlotsFollow(v, slots, w, after)
    decreases n
  {
    if n < MAX_STACK {
      RestSlotsFollow(v, present, slots, g, n, w, after);
    } else {
      var s := Stack(g, g, MAX_STACK, FirstEmpty(slots));
      TakeOne(slots);
      BuysFurther(v, present, slots, g, n, w, after);
      BuyTakesSlots(v + [s], present, TakeSlot(slots), g, n - MAX_STACK, w, after);
      StepFollows(v, s, slots, w, after);
    }
  }

  /** A purchase that goes through lays its pieces out so, and takes a slot for every new stack and no other. */
  lemma PurchaseIsLaidOut(b: Bag, purse: nat, price: nat, g: nat, n: nat)
    requires |b.slots| == SLOT_COUNT && !IsEquipmentType(g) && (g in b.goods ==> b.goods[g] != [])
    requires price != 0 && n * price % WORD <= purse && HasRoom(b, g, n)
    ensures var r := BuyGoods(b, purse, price, g, n).bag;
            && LaidOut(StacksOf(b.goods, g), StacksOf(r.goods, g), n)
            && SlotsFollow(StacksOf(b.goods, g), b.slots, StacksOf(r.goods, g), r.slots)
            && r.equ == b.equ && forall h :: h != g ==> StacksOf(r.goods, h) == StacksOf(b.goods, h)
  {
    StacksAreBought(StacksOf(b.goods, g), g in b.goods, b.slots, g, n);
    var r := BuyStacks(StacksOf(b.goods, g), g in b.goods, b.slots, g, n);
    BuyTakesSlots(StacksOf(b.goods, g), g in b.goods, b.slots, g, n, r.stacks, r.slots);
  }

  // ----- Moving -----

  /** The pieces in the stack at position p. */
  function CountAt(v: seq<Stack>, p: nat): nat {
    var i := FindAt(v, p, 0);
    if i < |v| then v[i].count else 0
  }

  ghost predicate Placed(v: seq<Stack>) {
    forall i, j :: 0 <= i < j < |v| ==> v[i].pos != v[j].pos
  }

  lemma CountOfStack(v: seq<Stack>, i: nat)
    requires Placed(v) && i < |v|
    ensures CountAt(v, v[i].pos) == v[i].count && FindAt(v, v[i].pos, 0) == i
  {
  }

  lemma NoStackAt(v: seq<Stack>, p: nat)
    requires forall i :: 0 <= i < |v| ==> v[i].pos != p
    ensures CountAt(v, p) == 0
  {
  }

  /** The counts at two positions have changed, and at no other. */
  ghost predicate OnlyTwo(v: seq<Stack>, w: seq<Stack>, from: nat, to: nat) {
    forall p :: p != from && p != to ==> CountAt(w, p) == CountAt(v, p)
  }

  lemma SetTwoCounts(v: seq<Stack>, i: nat, j: nat, a: nat, c: nat, w: seq<Stack>)
    requires Placed(v) && i < |v| && j < |v| && i != j
    requires w == v[i := v[i].(count := a)][j := v[j].(count := c)]
    ensures Placed(w) && |w| == |v| && w[i].count == a && CountAt(w, v[i].pos) == a && CountAt(w, v[j].pos) == c
    ensures OnlyTwo(v, w, v[i].pos, v[j].pos)
  {
    assert forall k :: 0 <= k < |v| ==> w[k].pos == v[k].pos;
    CountOfStack(w, i);
    CountOfStack(w, j);
    forall p | p != v[i].pos && p != v[j].pos
      ensures CountAt(w, p) == CountAt(v, p)
    {
      SamePlace(v, w, p);
    }
  }

  lemma SamePlace(v: seq<Stack>, w: seq<Stack>, p: nat)
    requires |w| == |v| && forall k :: 0 <= k < |v| ==> w[k].pos == v[k].pos && (v[k].pos == p ==> w[k] == v[k])
    ensures CountAt(w, p) == CountAt(v, p)
  {
    assert FindAt(w, p, 0) == FindAt(v, p, 0);
  }

  lemma ExchangePlaces(v: seq<Stack>, i: nat, j: nat)
    requires Placed(v) && i < |v| && j < |v| && i != j
    ensures var w := v[i := v[i].(pos := v[j].pos)][j := v[j].(pos := v[i].pos)];
            && Placed(w) && CountAt(w, v[j].pos) == v[i].count && CountAt(w, v[i].pos) == v[j].count
            && OnlyTwo(v, w, v[i].pos, v[j].pos)
  {
    var w := v[i := v[i].(pos := v[j].pos)][j := v[j].(pos := v[i].pos)];
    CountOfStack(w, i);
    CountOfStack(w, j);
    forall p | p != v[i].pos && p != v[j].pos
      ensures CountAt(w, p) == CountAt(v, p)
    {
      if k :| 0 <= k < |v| && v[k].pos == p {
        CountOfStack(v, k);
        CountOfStack(w, k);
      } else {
        NoStackAt(v, p);
        NoStackAt(w, p);
      }
    }
  }

  lemma TakeOutEmpty(v: seq<Stack>, i: nat, w: seq<Stack>)
    requires Placed(v) && i < |v| && v[i].count == 0 && w == RemoveAt(v, i)
    ensures Placed(w) && forall p :: CountAt(w, p) == CountAt(v, p)
  {
    forall p: nat
      ensures CountAt(w, p) == CountAt(v, p)
    {
      if k :| 0 <= k < |v| && v[k].pos == p {
        CountOfStack(v, k);
        if k == i {
          NoStackAt(w, p);
        } else {
          assert w[if k < i then k else k - 1] == v[k];
          CountOfStack(w, if k < i then k else k - 1);
        }
      } else {
        NoStackAt(v, p);
        NoStackAt(w, p);
      }
    }
  }

  /** What a move does to the counts at its two ends. A full stack changes places with the other. Otherwise as many
      pieces go over as are asked for and fit; the slot they came from is released when it is empty. */
  ghost predicate MovedOver(v: seq<Stack>, w: seq<Stack>, from: nat, to: nat, n: nat, freed: bool) {
    var a, c := CountAt(v, from), CountAt(v, to);
    && OnlyTwo(v, w, from, to)
    && if a == MAX_STACK || c == MAX_STACK then
         CountAt(w, from) == c && CountAt(w, to) == a && |w| == |v| && !freed
       else
         var m := if c + n <= MAX_STACK then n else MAX_STACK - c;
         && CountAt(w, from) == a - m && CountAt(w, to) == c + m
         && (freed <==> m == a) && |w| == |v| - if freed then 1 else 0
  }

  lemma FullStacksMoveOver(v: seq<Stack>, i: nat, j: nat, n: nat, w: seq<Stack>)
    requires Placed(v) && i < |v| && j < |v| && i != j && (v[i].count == MAX_STACK || v[j].count == MAX_STACK)
    requires w == v[i := v[i].(pos := v[j].pos)][j := v[j].(pos := v[i].pos)]
    ensures MovedOver(v, w, v[i].pos, v[j].pos, n, false)
  {
    CountOfStack(v, i);
    CountOfStack(v, j);
    ExchangePlaces(v, i, j);
  }

  lemma SomePiecesMoveOver(v: seq<Stack>, i: nat, j: nat, n: nat, m: nat, w: seq<Stack>)
    requires Placed(v) && i < |v| && j < |v| && i != j && v[i].count != MAX_STACK && v[j].count < MAX_STACK
    requires m == (if v[j].count + n <= MAX_STACK then n else MAX_STACK - v[j].count) < v[i].count
    requires w == v[i := v[i].(count := v[i].count - m)][j := v[j].(count := v[j].count + m)]
    ensures MovedOver(v, w, v[i].pos, v[j].pos, n, false)
  {
    CountOfStack(v, i);
    CountOfStack(v, j);
    SetTwoCounts(v, i, j, v[i].count - m, v[j].count + m, w);
  }

  lemma EmptiedIsMovedOver(v: seq<Stack>, u: seq<Stack>, w: seq<Stack>, from: nat, to: nat, a: nat, c: nat)
    requires CountAt(v, from) == a != MAX_STACK && CountAt(v, to) == c != MAX_STACK && c + a <= MAX_STACK
    requires OnlyTwo(v, u, from, to) && CountAt(u, from) == 0 && CountAt(u, to) == c + a
    requires (forall p :: CountAt(w, p) == CountAt(u, p)) && |w| == |v| - 1
    ensures MovedOver(v, w, from, to, a, true)
  {
  }

  lemma AllPiecesMoveOver(v: seq<Stack>, i: nat, j: nat, u: seq<Stack>, w: seq<Stack>)
    requires Placed(v) && i < |v| && j < |v| && i != j && v[i].count != MAX_STACK
    requires v[j].count < MAX_STACK && v[j].count + v[i].count <= MAX_STACK
    requires u == v[i := v[i].(count := 0)][j := v[j].(count := v[j].count + v[i].count)] && w == RemoveAt(u, i)
    ensures MovedOver(v, w, v[i].pos, v[j].pos, v[i].count, true)
  {
    CountOfStack(v, i);
    CountOfStack(v, j);
    SetTwoCounts(v, i, j, 0, v[j].count + v[i].count, u);
    TakeOutEmpty(u, i, w);
    EmptiedIsMovedOver(v, u, w, v[i].pos, v[j].pos, v[i].count, v[j].count);
  }

  lemma StacksMoveOver(v: seq<Stack>, i: nat, j: nat, n: nat, w: seq<Stack>, freed: bool)
    requires Placed(v) && i < |v| && j < |v| && i != j && n <= v[i].count && v[j].count <= MAX_STACK
    requires w == MoveStacks(v, i, j, n).stacks && freed == MoveStacks(v, i, j, n).freed
    ensures MovedOver(v, w, v[i].pos, v[j].pos, n, freed)
  {
    if v[i].count == MAX_STACK || v[j].count == MAX_STACK {
      FullStacksMoveOver(v, i, j, n, w);
    } else if v[j].count + n <= MAX_STACK && n == v[i].count {
      AllPiecesMoveOver(v, i, j, v[i := v[i].(count := 0)][j := v[j].(count := v[j].count + n)], w);
    } else {
      SomePiecesMoveOver(v, i, j, n, if v[j].count + n <= MAX_STACK then n else MAX_STACK - v[j].count, w);
    }
  }

  /** A move is made exactly when neither slot is locked, both hold a stack of the goods, and the one has as many
      pieces as are asked for; then it goes over, and nothing else changes. */
  lemma MoveGoesOver(b: Bag, g: nat, from: nat, to: nat, n: nat)
    requires |b.slots| == SLOT_COUNT && from < SLOT_COUNT && to < SLOT_COUNT && Capped(b)
    requires Placed(StacksOf(b.goods, g))
    ensures var r := MoveGoods(b, g, from, to, n).bag;
            var v := StacksOf(b.goods, g);
            var freed := r.slots != b.slots;
            if CanMove(b, g, from, to, n) then
              && r == b.(goods := b.goods[g := StacksOf(r.goods, g)], slots := r.slots)
              && (r.slots == b.slots || r.slots == b.slots[from := Empty])
              && (b.slots[from] != Empty ==> MovedOver(v, StacksOf(r.goods, g), from, to, n, freed))
            else r == b
  {
    if CanMove(b, g, from, to, n) {
      var m := MoveStacks(b.goods[g], FindAt(b.goods[g], from, 0), FindAt(b.goods[g], to, 0), n);
      StacksMoveOver(b.goods[g], FindAt(b.goods[g], from, 0), FindAt(b.goods[g], to, 0), n, m.stacks, m.freed);
    }
  }

  // ----- Selling -----

  /** A sale takes the one stack or piece that it names out of the bag, releases its slot, and touches nothing else. */
  lemma SaleTakesOne(b: Bag, id: nat, p: nat)
    requires |b.slots| == SLOT_COUNT
    ensures var r := Sell(b, id, p).bag;
            var v := StacksOf(b.goods, id);
            if id >= EQUIPMENT_ID then
              && r.goods == b.goods && r.equ == b.equ - {id}
              && r.slots == if id in b.equ && b.equ[id].pos < SLOT_COUNT then b.slots[b.equ[id].pos := Empty]
                            else b.slots
            else
              && r.equ == b.equ && (forall h :: h != id ==> StacksOf(r.goods, h) == StacksOf(b.goods, h))
              && (FindAt(v, p, 0) < |v| ==>
                    && StacksOf(r.goods, id) == RemoveAt(v, FindAt(v, p, 0))
                    && r.slots == if p < SLOT_COUNT then b.slots[p := Empty] else b.slots)
              && (FindAt(v, p, 0) == |v| ==> r == b)
  {
    var v := StacksOf(b.goods, id);
    if id < EQUIPMENT_ID && FindAt(v, p, 0) < |v| && |v| == 1 {
      assert RemoveAt(v, 0) == [];
    }
  }

  // ----- Whole runs -----

  /** A purchase that the shop, the purse and the bag allow. */
  predicate GoesThrough(b: Bag, purse: nat, price: nat, g: nat, n: nat)
    requires |b.slots| == SLOT_COUNT
  {
    price != 0 && n * price % WORD <= purse && HasRoom(b, g, n)
  }

  /** By how many pieces of h, or how much equipment of type h, a request changes the bag. */
  function Gain(b: Bag, purse: nat, op: Operation, h: nat): int
    requires |b.slots| == SLOT_COUNT && Capped(b)
  {
    match op
    case PickUp(g, n) =>
      if h != g then 0 else if FirstEmpty(b.slots) != 0 || n <= Room(StacksOf(b.goods, g)) then n
      else Room(StacksOf(b.goods, g))
    case PickUpOne(typeId) => if h == typeId && FirstEmpty(b.slots) != 0 then 1 else 0
    case Buy(g, n, price) =>
      if h != g || !GoesThrough(b, purse, price, g, n) then 0
      else if !IsEquipmentType(g) && Undeliverable(StacksOf(b.goods, g), g in b.goods, n) then 0 else n
    case SellStack(id, p, _) =>
      if id < EQUIPMENT_ID then (if h == id && !IsEquipmentType(h) then 0 - CountAt(StacksOf(b.goods, id), p) else 0)
      else if id in b.equ && b.equ[id].typeId == h && IsEquipmentType(h) then 0 - 1 else 0
    case Move(_, _, _, _) => 0
  }

  lemma PickUpGains(b: Bag, g: nat, n: nat, h: nat)
    requires |b.slots| == SLOT_COUNT && Capped(b) && !IsEquipmentType(g) && n >= 1
    ensures CountOf(PickUpCommon(b, g, n).bag, h) == CountOf(b, h) + Gain(b, 0, PickUp(g, n), h)
  {
    PickUpConserves(b, g, n);
    PickUpPoursThenOpens(b, g, n);
  }

  lemma {:induction false} EquipmentsCounted(b: Bag, typeId: nat, n: nat, h: nat)
    requires |b.slots| == SLOT_COUNT && Numbered(b)
    ensures CountOf(AddEquipments(b, typeId, n).bag, h)
         == CountOf(b, h) + if h == typeId && IsEquipmentType(h) then n else 0
    decreases n
  {
    if n > 0 {
      EquipmentCounted(b, typeId, h);
      EquipmentsCounted(AddEquipment(b, typeId).bag, typeId, n - 1, h);
      assert AddEquipments(b, typeId, n).bag == AddEquipments(AddEquipment(b, typeId).bag, typeId, n - 1).bag;
    }
  }

  lemma BuyGains(b: Bag, purse: nat, g: nat, n: nat, price: nat, h: nat)
    requires |b.slots| == SLOT_COUNT && Capped(b) && Numbered(b)
    ensures CountOf(BuyGoods(b, purse, price, g, n).bag, h) == CountOf(b, h) + Gain(b, purse, Buy(g, n, price), h)
  {
    if !GoesThrough(b, purse, price, g, n) {
      PurchaseRefused(b, purse, price, g, n);
    } else if IsEquipmentType(g) {
      EquipmentsCounted(b, g, n, h);
    } else {
      BoughtPieces(b, g, n);
    }
  }

  lemma SaleGains(b: Bag, purse: nat, id: nat, p: nat, coins: nat, h: nat)
    requires |b.slots| == SLOT_COUNT && Capped(b)
    ensures CountOf(Sell(b, id, p).bag, h) == CountOf(b, h) + Gain(b, purse, SellStack(id, p, coins), h)
  {
    SaleTakesOne(b, id, p);
    if id < EQUIPMENT_ID {
      SellTakesOneStack(b, id, p);
    } else if id in b.equ {
      var left := EquipmentsOf(b.equ - {id}, h);
      if b.equ[id].typeId == h {
        assert EquipmentsOf(b.equ, h) == left + {id};
      } else {
        assert EquipmentsOf(b.equ, h) == left;
      }
    }
  }

  /** Every request changes the number of every kind of goods and equipment by its gain. */
  lemma RequestGains(b: Bag, purse: nat, op: Operation, h: nat)
    requires |b.slots| == SLOT_COUNT && Capped(b) && Numbered(b) && Legal(op)
    ensures CountOf(Perform(b, purse, op).bag, h) == CountOf(b, h) + Gain(b, purse, op, h)
  {
    match op
    case PickUp(g, n) => PickUpGains(b, g, n, h);
    case PickUpOne(typeId) => EquipmentCounted(b, typeId, h);
    case Buy(g, n, price) => BuyGains(b, purse, g, n, price, h);
    case SellStack(id, p, coins) => SaleGains(b, purse, id, p, coins, h);
    case Move(g, from, to, n) => MoveConserves(b, g, from, to, n);
  }

  /** The purse less the price of a purchase that goes through, or with what is paid for a sale. */
  function PurseAfter(b: Bag, purse: nat, op: Operation): nat
    requires |b.slots| == SLOT_COUNT
  {
    match op
    case Buy(g, n, price) => if GoesThrough(b, purse, price, g, n) then purse - n * price % WORD else purse
    case SellStack(_, _, coins) => (purse + coins) % WORD
    case _ => purse
  }

  /** And the purse by the price of a purchase that goes through, or by what is paid for a sale. */
  lemma RequestPays(b: Bag, purse: nat, op: Operation)
    requires |b.slots| == SLOT_COUNT && Capped(b) && Legal(op)
    ensures Perform(b, purse, op).purse == PurseAfter(b, purse, op)
  {
    if op.Buy? && !GoesThrough(b, purse, op.price, op.g, op.n) {
      PurchaseRefused(b, purse, op.price, op.g, op.n);
    }
  }

  function Gains(b: Bag, purse: nat, ops: seq<Operation>, h: nat): int
    requires SoundRun(b, purse, ops)
    decreases |ops|
  {
    if ops == [] then 0
    else
      var r := Perform(b, purse, ops[0]);
      Gain(b, purse, ops[0], h) + Gains(r.bag, r.purse, ops[1..], h)
  }

  /** Over every sound run the bag ends with what it had and what the requests gained, of every kind. */
  lemma {:induction false} RunGains(b: Bag, t: Table, purse: nat, ops: seq<Operation>, h: nat)
    requires Agrees(b, t) && Capped(b) && SoundRun(b, purse, ops)
    ensures CountOf(Play(b, purse, ops).bag, h) == CountOf(b, h) + Gains(b, purse, ops, h)
    decreases |ops|
  {
    if ops != [] {
      var r := Perform(b, purse, ops[0]);
      Agreeing(b, t, h);
      RequestGains(b, purse, ops[0], h);
      StepAgreesExactlyWhen(b, t, purse, ops[0]);
      StepKeepsCap(b, t, purse, ops[0]);
      RunGains(r.bag, ApplyAll(t, r.changes), r.purse, ops[1..], h);
    }
  }
}
