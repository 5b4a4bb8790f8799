// The goods part of a Session (Game/session.hpp) and the rows that mirror it in the database.
module GoodsBag {
  const SLOT_COUNT := 65        // BAGCAPACITY; slot 0 is not used
  const MAX_STACK := 99         // GOODSMAXCOUNT
  const EQUIPMENT_ID := 20000000
  const EQUIPMENT_TYPE_MIN := 20000
  const EQUIPMENT_TYPE_MAX := 29999

  /** STR_Goods without its source field, which is not stored. */
  datatype Stack = Stack(goodsId: nat, typeId: nat, count: nat, pos: nat)

  datatype Slot = Empty | NonEmpty | Locked

  datatype Bag = Bag(
    goods: map<nat, seq<Stack>>,    // m_playerGoods
    equ: map<nat, Stack>,           // m_playerEqu
    slots: seq<Slot>,               // m_goodsPosition
    lastEquId: nat)                 // OperationGoods::m_equipmentID

  // ----- Rows and the journal -----

  /** The rows of one role in t_playergoods, by position. */
  type Table = map<nat, Stack>

  datatype Change = Insert(stack: Stack) | Update(stack: Stack) | Delete(stack: Stack)

  /** The three SQL statements: an insert where a row stands already is refused, and an update writes the
      count and nothing else. */
  function Apply(t: Table, c: Change): Table {
    match c
    case Insert(s) => if s.pos in t then t else t[s.pos := s]
    case Update(s) => if s.pos in t then t[s.pos := t[s.pos].(count := s.count)] else t
    case Delete(s) => t - {s.pos}
  }

  function ApplyAll(t: Table, changes: seq<Change>): Table
    decreases |changes|
  {
    if changes == [] then t else ApplyAll(Apply(t, changes[0]), changes[1..])
  }

  lemma {:induction false} ApplyAllConcat(t: Table, first: seq<Change>, more: seq<Change>)
    ensures ApplyAll(t, first + more) == ApplyAll(ApplyAll(t, first), more)
    decreases |first|
  {
    if first == [] {
      assert first + more == more;
    } else {
      assert (first + more)[1..] == first[1..] + more;
      ApplyAllConcat(Apply(t, first[0]), first[1..], more);
    }
  }

  // ----- Agreement of stacks, slots and rows -----

  /** The stacks of goods g are the rows of goods g. */
  ghost predicate VectorAgrees(v: seq<Stack>, g: nat, t: Table) {
    && (forall i :: 0 <= i < |v| ==>
          v[i].goodsId == v[i].typeId == g && v[i].count >= 1 && v[i].pos in t && t[v[i].pos] == v[i])
    && (forall i, j :: 0 <= i < j < |v| ==> v[i].pos != v[j].pos)
    && forall p :: p in t && t[p].goodsId == g ==> t[p] in v
  }

  ghost predicate EquipmentAgrees(equ: map<nat, Stack>, last: nat, t: Table) {
    && EQUIPMENT_ID <= last
    && (forall e :: e in equ ==>
          EQUIPMENT_ID <= e <= last && equ[e].goodsId == e && equ[e].pos in t && t[equ[e].pos] == equ[e])
    && forall p :: p in t && t[p].goodsId >= EQUIPMENT_ID ==> t[p].goodsId in equ && equ[t[p].goodsId] == t[p]
  }

  ghost predicate GoodsAgree(goods: map<nat, seq<Stack>>, t: Table) {
    && (forall g :: g in goods ==> g < EQUIPMENT_ID && goods[g] != [] && VectorAgrees(goods[g], g, t))
    && forall p :: p in t && t[p].goodsId < EQUIPMENT_ID ==> t[p].goodsId in goods
  }

  ghost predicate KeyedByPosition(t: Table) {
    forall p :: p in t ==> t[p].pos == p
  }

  ghost predicate SlotsAgree(slots: seq<Slot>, t: Table) {
    && |slots| == SLOT_COUNT
    && (forall p :: 1 <= p < SLOT_COUNT ==> (slots[p] != Empty <==> p in t))
    && (forall p :: p in t ==> 1 <= p < SLOT_COUNT) && KeyedByPosition(t)
  }

  /** Every row is a stack or an equipment of the bag and the other way round, no two share a slot,
      and the slots in use are those of the rows. */
  ghost predicate Agrees(b: Bag, t: Table) {
    GoodsAgree(b.goods, t) && EquipmentAgrees(b.equ, b.lastEquId, t) && SlotsAgree(b.slots, t)
  }

  ghost predicate Capped(b: Bag) {
    forall g, i :: g in b.goods && 0 <= i < |b.goods[g]| ==> b.goods[g][i].count <= MAX_STACK
  }

  /** The rows are determined by the bag. */
  lemma TableIsUnique(b: Bag, t: Table, u: Table)
    requires Agrees(b, t) && Agrees(b, u)
    ensures t == u
  {
    TableIsIncluded(b, t, u);
    TableIsIncluded(b, u, t);
  }

  lemma TableIsIncluded(b: Bag, t: Table, u: Table)
    requires Agrees(b, t) && Agrees(b, u)
    ensures forall p :: p in t ==> p in u && u[p] == t[p]
  {
    forall p | p in t
      ensures p in u && u[p] == t[p]
    {
      if t[p].goodsId < EQUIPMENT_ID {
        assert t[p] in b.goods[t[p].goodsId];
      }
    }
  }

  /** Who occupies a slot: stack i of goods g, or equipment e. */
  datatype Holder = InStack(g: nat, i: nat) | InEquipment(e: nat)

  ghost predicate Occupies(b: Bag, h: Holder, p: nat) {
    match h
    case InStack(g, i) => g in b.goods && i < |b.goods[g]| && b.goods[g][i].pos == p
    case InEquipment(e) => e in b.equ && b.equ[e].pos == p
  }

  /** A slot is in use exactly when one stack or equipment holds it, and then only one does. */
  lemma SlotHasOneHolder(b: Bag, t: Table, p: nat)
    requires Agrees(b, t) && 1 <= p < SLOT_COUNT
    ensures b.slots[p] != Empty <==> exists h :: Occupies(b, h, p)
    ensures forall h, k :: Occupies(b, h, p) && Occupies(b, k, p) ==> h == k
  {
    if p in t {
      var s := t[p];
      if s.goodsId < EQUIPMENT_ID {
        assert s in b.goods[s.goodsId];
        var i :| 0 <= i < |b.goods[s.goodsId]| && b.goods[s.goodsId][i] == s;
        assert Occupies(b, InStack(s.goodsId, i), p);
      } else {
        assert Occupies(b, InEquipment(s.goodsId), p);
      }
    }
  }

  // ----- Vectors -----

  /** The stacks of goods g; none when the key is missing. */
  function StacksOf(goods: map<nat, seq<Stack>>, g: nat): seq<Stack> {
    if g in goods then goods[g] else []
  }

  function RemoveAt<T>(v: seq<T>, i: nat): (w: seq<T>)
    requires i < |v|
    ensures |w| == |v| - 1 && forall k :: 0 <= k < |w| ==> w[k] == v[if k < i then k else k + 1]
  {
    v[..i] + v[i + 1..]
  }

  /** goods without stack i of g, and without the key when no stack is left. */
  function WithoutStack(goods: map<nat, seq<Stack>>, g: nat, i: nat): map<nat, seq<Stack>>
    requires g in goods && i < |goods[g]|
  {
    if |goods[g]| == 1 then goods - {g} else goods[g := RemoveAt(goods[g], i)]
  }

  // ----- Counting -----

  /** The loop of GetThisGoodsCount. */
  function Total(v: seq<Stack>): nat
  {
    if v == [] then 0 else v[0].count + Total(v[1..])
  }

  lemma {:induction false} TotalConcat(v: seq<Stack>, w: seq<Stack>)
    ensures Total(v + w) == Total(v) + Total(w)
    decreases |v|
  {
    if v == [] {
      assert v + w == w;
    } else {
      assert (v + w)[1..] == v[1..] + w;
      TotalConcat(v[1..], w);
    }
  }

  lemma TotalPush(v: seq<Stack>, s: Stack)
    ensures Total(v + [s]) == Total(v) + s.count
  {
    TotalConcat(v, [s]);
  }

  lemma TotalSet(v: seq<Stack>, i: nat, s: Stack)
    requires i < |v|
    ensures Total(v[i := s]) == Total(v) - v[i].count + s.count
  {
    TotalConcat(v[..i], [v[i]] + v[i + 1..]);
    TotalConcat(v[..i], [s] + v[i + 1..]);
    assert v == v[..i] + ([v[i]] + v[i + 1..]);
    assert v[i := s] == v[..i] + ([s] + v[i + 1..]);
  }

  lemma TotalRemove(v: seq<Stack>, i: nat)
    requires i < |v|
    ensures Total(RemoveAt(v, i)) == Total(v) - v[i].count
  {
    TotalConcat(v[..i], [v[i]] + v[i + 1..]);
    TotalConcat(v[..i], v[i + 1..]);
    assert v == v[..i] + ([v[i]] + v[i + 1..]);
  }

  predicate IsEquipmentType(typeId: nat) {
    EQUIPMENT_TYPE_MIN <= typeId <= EQUIPMENT_TYPE_MAX
  }

  function EquipmentsOf(equ: map<nat, Stack>, typeId: nat): set<nat> {
    set e | e in equ && equ[e].typeId == typeId
  }

  /** GetThisGoodsCount. */
  function CountOf(b: Bag, typeId: nat): nat {
    if IsEquipmentType(typeId) then |EquipmentsOf(b.equ, typeId)| else Total(StacksOf(b.goods, typeId))
  }
}
