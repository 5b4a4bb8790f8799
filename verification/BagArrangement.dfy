// ArrangeBagGoods: equipment first; then every vector of goods is merged from both ends, and the stacks that
// are left get consecutive slots.
module BagArrangement {
  import opened GoodsBag
  import opened BagEdits
  import opened BagAgreement
  import opened BagCounts
  import opened EquipmentArrangement

  /** The first stack takes what it can from the last one; p is the next slot. */
  function Compact(v: seq<Stack>, p: nat): (w: seq<Stack>)
    ensures |w| <= |v| && (v != [] ==> w != [])
    decreases |v|
  {
    if v == [] then []
    else if |v| == 1 then [v[0].(pos := p)]
    else
      var sum := v[0].count + v[|v| - 1].count;
      if sum > MAX_STACK then
        [v[0].(count := MAX_STACK, pos := p)] + Compact(v[1..][|v| - 2 := v[|v| - 1].(count := sum - MAX_STACK)], p + 1)
      else
        [v[0].(count := sum, pos := p)] + Compact(v[1..|v| - 1], p + 1)
  }

  lemma {:induction false} CompactConserves(v: seq<Stack>, p: nat)
    ensures Total(Compact(v, p)) == Total(v)
    decreases |v|
  {
    if |v| == 1 {
      assert v[1..] == [];
    } else if |v| > 1 {
      var last, sum := v[|v| - 1], v[0].count + v[|v| - 1].count;
      assert v[1..] == v[1..|v| - 1] + [last];
      TotalPush(v[1..|v| - 1], last);
      if sum > MAX_STACK {
        var s := last.(count := sum - MAX_STACK);
        TotalSet(v[1..], |v| - 2, s);
        CompactConserves(v[1..][|v| - 2 := s], p + 1);
      } else {
        CompactConserves(v[1..|v| - 1], p + 1);
      }
    }
  }

  /** The stacks of goods g, each with one to 99 pieces. */
  ghost predicate Stocked(v: seq<Stack>, g: nat) {
    forall i :: 0 <= i < |v| ==> v[i].goodsId == v[i].typeId == g && 1 <= v[i].count <= MAX_STACK
  }

  lemma {:induction false} CompactStocked(v: seq<Stack>, g: nat, p: nat)
    requires Stocked(v, g)
    ensures Stocked(Compact(v, p), g)
    ensures forall i :: 0 <= i < |Compact(v, p)| ==> Compact(v, p)[i].pos == p + i
    decreases |v|
  {
    if |v| > 1 {
      var sum := v[0].count + v[|v| - 1].count;
      if sum > MAX_STACK {
        CompactStocked(v[1..][|v| - 2 := v[|v| - 1].(count := sum - MAX_STACK)], g, p + 1);
      } else {
        CompactStocked(v[1..|v| - 1], g, p + 1);
      }
    }
  }

  function Inserts(v: seq<Stack>): seq<Change> {
    if v == [] then [] else [Insert(v[0])] + Inserts(v[1..])
  }

  lemma {:induction false} InsertsConcat(v: seq<Stack>, w: seq<Stack>)
    ensures Inserts(v + w) == Inserts(v) + Inserts(w)
    decreases |v|
  {
    if v == [] {
      assert v + w == w;
    } else {
      assert (v + w)[1..] == v[1..] + w;
      InsertsConcat(v[1..], w);
    }
  }

  datatype Arranged = Arranged(goods: map<nat, seq<Stack>>, next: nat, changes: seq<Change>)

  /** The vectors in the order of the map's iterator; done holds those arranged already. */
  function Arrange(goods: map<nat, seq<Stack>>, keys: seq<nat>, p: nat, done: map<nat, seq<Stack>>): Arranged
    requires forall k :: k in keys ==> k in goods
    decreases |keys|
  {
    if keys == [] then Arranged(done, p, [])
    else
      var w := Compact(goods[keys[0]], p);
      var rest := Arrange(goods, keys[1..], p + |w|, done[keys[0] := w]);
      Arranged(rest.goods, rest.next, Inserts(w) + rest.changes)
  }

  function StackCount(goods: map<nat, seq<Stack>>, keys: seq<nat>): nat
    requires forall k :: k in keys ==> k in goods
  {
    if keys == [] then 0 else |goods[keys[0]]| + StackCount(goods, keys[1..])
  }

  lemma PushFirst(R: (Bag, Table) -> bool, b: Bag, t: Table, s: Stack)
    requires SurvivesEdits(R) && R(b, t) && 1 <= s.pos < SLOT_COUNT && b.slots == Filled(s.pos)
    requires s.goodsId == s.typeId < EQUIPMENT_ID && s.count >= 1
    ensures R(b.(goods := b.goods[s.goodsId := StacksOf(b.goods, s.goodsId) + [s]], slots := Filled(s.pos + 1)),
              ApplyAll(t, [Insert(s)]))
  {
    assert Filled(s.pos)[s.pos := NonEmpty] == Filled(s.pos + 1);
    OneEdit(R, b, t, Push(s));
  }

  /** Pushing all of w leaves this bag and these rows. */
  ghost predicate PushesTo(b: Bag, t: Table, g: nat, w: seq<Stack>, p: nat, end: Bag, rows: Table) {
    && end == b.(goods := b.goods[g := StacksOf(b.goods, g) + w], slots := Filled(p + |w|))
    && rows == ApplyAll(t, Inserts(w))
  }

  lemma PushUnfold(b: Bag, t: Table, g: nat, w: seq<Stack>, p: nat, end: Bag, rows: Table)
    requires w != [] && PushesTo(b, t, g, w, p, end, rows)
    ensures var b1 := b.(goods := b.goods[g := StacksOf(b.goods, g) + [w[0]]], slots := Filled(p + 1));
            var t1 := ApplyAll(t, [Insert(w[0])]);
            if |w| == 1 then end == b1 && rows == t1 else PushesTo(b1, t1, g, w[1..], p + 1, end, rows)
  {
    var v := StacksOf(b.goods, g);
    if |w| == 1 {
      assert w == [w[0]];
      assert Inserts(w) == [Insert(w[0])];
    } else {
      ApplyAllConcat(t, [Insert(w[0])], Inserts(w[1..]));
      assert v + [w[0]] + w[1..] == v + w;
      assert b.goods[g := v + [w[0]]][g := v + w] == b.goods[g := v + w];
    }
  }

  lemma {:induction false} PushAllKeeps(R: (Bag, Table) -> bool, b: Bag, t: Table, g: nat, w: seq<Stack>, p: nat,
                                        end: Bag, rows: Table)
    requires SurvivesEdits(R) && R(b, t) && b.slots == Filled(p) && 1 <= p && p + |w| <= SLOT_COUNT
    requires Stocked(w, g) && g < EQUIPMENT_ID && w != [] && forall i :: 0 <= i < |w| ==> w[i].pos == p + i
    requires PushesTo(b, t, g, w, p, end, rows)
    ensures R(end, rows)
    decreases |w|
  {
    var b1 := b.(goods := b.goods[g := StacksOf(b.goods, g) + [w[0]]], slots := Filled(p + 1));
    PushFirst(R, b, t, w[0]);
    PushUnfold(b, t, g, w, p, end, rows);
    if |w| > 1 {
      PushAllKeeps(R, b1, ApplyAll(t, [Insert(w[0])]), g, w[1..], p + 1, end, rows);
    }
  }

  /** The vectors to arrange. */
  ghost predicate Arrangeable(goods: map<nat, seq<Stack>>, keys: seq<nat>, p: nat) {
    && (forall k :: k in keys ==> k in goods && k < EQUIPMENT_ID && goods[k] != [] && Stocked(goods[k], k))
    && Distinct(keys)
    && 1 <= p && p + StackCount(goods, keys) <= SLOT_COUNT
  }

  ghost predicate Untouched(keys: seq<nat>, done: map<nat, seq<Stack>>) {
    forall k :: k in keys ==> k !in done
  }

  lemma ArrangeableRest(goods: map<nat, seq<Stack>>, keys: seq<nat>, p: nat, done: map<nat, seq<Stack>>)
    requires keys != [] && Arrangeable(goods, keys, p) && Untouched(keys, done)
    ensures var w := Compact(goods[keys[0]], p);
            Arrangeable(goods, keys[1..], p + |w|) && Untouched(keys[1..], done[keys[0] := w])
  {
  }

  lemma PushVector(R: (Bag, Table) -> bool, b: Bag, t: Table, g: nat, v: seq<Stack>, p: nat)
    requires SurvivesEdits(R) && R(b, t) && b.slots == Filled(p) && 1 <= p && p + |v| <= SLOT_COUNT
    requires v != [] && Stocked(v, g) && g < EQUIPMENT_ID && g !in b.goods
    ensures var w := Compact(v, p);
            R(b.(goods := b.goods[g := w], slots := Filled(p + |w|)), ApplyAll(t, Inserts(w)))
  {
    CompactStocked(v, g, p);
    var w := Compact(v, p);
    assert [] + w == w;
    PushAllKeeps(R, b, t, g, w, p, b.(goods := b.goods[g := w], slots := Filled(p + |w|)), ApplyAll(t, Inserts(w)));
  }

  /** One vector first, then the others. */
  lemma ArrangeFirst(goods: map<nat, seq<Stack>>, keys: seq<nat>, p: nat, done: map<nat, seq<Stack>>)
    requires keys != [] && forall k :: k in keys ==> k in goods
    ensures var w := Compact(goods[keys[0]], p);
            var r := Arrange(goods, keys, p, done);
            var rest := Arrange(goods, keys[1..], p + |w|, done[keys[0] := w]);
            r.goods == rest.goods && r.next == rest.next && r.changes == Inserts(w) + rest.changes
  {
  }

  /** Arranging the vectors leaves this bag and these rows. */
  ghost predicate ArrangesTo(b: Bag, t: Table, goods: map<nat, seq<Stack>>, keys: seq<nat>, p: nat, end: Bag,
                             rows: Table)
    requires forall k :: k in keys ==> k in goods
  {
    var r := Arrange(goods, keys, p, b.goods);
    end == b.(goods := r.goods, slots := Filled(r.next)) && rows == ApplyAll(t, r.changes)
  }

  lemma ArrangeUnfold(b: Bag, t: Table, goods: map<nat, seq<Stack>>, keys: seq<nat>, p: nat, end: Bag, rows: Table)
    requires keys != [] && (forall k :: k in keys ==> k in goods) && ArrangesTo(b, t, goods, keys, p, end, rows)
    ensures var w := Compact(goods[keys[0]], p);
            ArrangesTo(b.(goods := b.goods[keys[0] := w], slots := Filled(p + |w|)), ApplyAll(t, Inserts(w)),
                       goods, keys[1..], p + |w|, end, rows)
  {
    var w := Compact(goods[keys[0]], p);
    ArrangeFirst(goods, keys, p, b.goods);
    ApplyAllConcat(t, Inserts(w), Arrange(goods, keys[1..], p + |w|, b.goods[keys[0] := w]).changes);
  }

  lemma {:induction false} ArrangeKeeps(R: (Bag, Table) -> bool, b: Bag, t: Table, goods: map<nat, seq<Stack>>,
                                        keys: seq<nat>, p: nat, end: Bag, rows: Table)
    requires SurvivesEdits(R) && R(b, t) && b.slots == Filled(p)
    requires Arrangeable(goods, keys, p) && Untouched(keys, b.goods) && ArrangesTo(b, t, goods, keys, p, end, rows)
    ensures R(end, rows)
    decreases |keys|
  {
    if keys == [] {
      assert end == b && rows == t;
    } else {
      var w := Compact(goods[keys[0]], p);
      ArrangeableRest(goods, keys, p, b.goods);
      PushVector(R, b, t, keys[0], goods[keys[0]], p);
      ArrangeUnfold(b, t, goods, keys, p, end, rows);
      ArrangeKeeps(R, b.(goods := b.goods[keys[0] := w], slots := Filled(p + |w|)), ApplyAll(t, Inserts(w)),
                   goods, keys[1..], p + |w|, end, rows);
    }
  }

  lemma {:induction false} ArrangeKeepsDone(goods: map<nat, seq<Stack>>, keys: seq<nat>, p: nat,
                                            done: map<nat, seq<Stack>>)
    requires (forall k :: k in keys ==> k in goods) && Untouched(keys, done) && Distinct(keys)
    ensures forall k :: k in done ==>
            k in Arrange(goods, keys, p, done).goods && Arrange(goods, keys, p, done).goods[k] == done[k]
    decreases |keys|
  {
    if keys != [] {
      var w := Compact(goods[keys[0]], p);
      ArrangeKeepsDone(goods, keys[1..], p + |w|, done[keys[0] := w]);
    }
  }

  lemma {:induction false} ArrangeKeys(goods: map<nat, seq<Stack>>, keys: seq<nat>, p: nat, done: map<nat, seq<Stack>>)
    requires forall k :: k in keys ==> k in goods
    ensures forall k :: k in Arrange(goods, keys, p, done).goods <==> k in keys || k in done
    ensures p <= Arrange(goods, keys, p, done).next <= p + StackCount(goods, keys)
    decreases |keys|
  {
    if keys != [] {
      var w := Compact(goods[keys[0]], p);
      ArrangeKeys(goods, keys[1..], p + |w|, done[keys[0] := w]);
    }
  }

  /** Each vector is merged on its own: no pieces of any goods are made or lost, the cap holds, and
      no vector gets longer. */
  lemma {:induction false} ArrangeConserves(goods: map<nat, seq<Stack>>, keys: seq<nat>, p: nat,
                                            done: map<nat, seq<Stack>>, g: nat)
    requires Arrangeable(goods, keys, p) && Untouched(keys, done) && g in keys
    ensures var r := Arrange(goods, keys, p, done);
            g in r.goods && Total(r.goods[g]) == Total(goods[g]) && |r.goods[g]| <= |goods[g]| && Stocked(r.goods[g], g)
    decreases |keys|
  {
    var w := Compact(goods[keys[0]], p);
    ArrangeableRest(goods, keys, p, done);
    if g == keys[0] {
      CompactConserves(goods[g], p);
      CompactStocked(goods[g], g, p);
      ArrangeKeepsDone(goods, keys[1..], p + |w|, done[g := w]);
    } else {
      ArrangeConserves(goods, keys[1..], p + |w|, done[keys[0] := w], g);
    }
  }

  // ----- There is room -----

  function Positions(v: seq<Stack>): set<nat> {
    set i | 0 <= i < |v| :: v[i].pos
  }

  lemma {:induction false} PositionsCount(v: seq<Stack>)
    requires forall i, j :: 0 <= i < j < |v| ==> v[i].pos != v[j].pos
    ensures |Positions(v)| == |v|
    decreases |v|
  {
    if v != [] {
      var n := |v| - 1;
      PositionsCount(v[..n]);
      assert Positions(v) == Positions(v[..n]) + {v[n].pos};
    }
  }

  function AllPositions(goods: map<nat, seq<Stack>>, keys: seq<nat>): set<nat>
    requires forall k :: k in keys ==> k in goods
  {
    if keys == [] then {} else Positions(goods[keys[0]]) + AllPositions(goods, keys[1..])
  }

  lemma {:induction false} PositionsAreRows(goods: map<nat, seq<Stack>>, t: Table, keys: seq<nat>)
    requires (forall k :: k in keys ==> k in goods) && GoodsAgree(goods, t)
    ensures forall p :: p in AllPositions(goods, keys) ==> p in t && t[p].goodsId in keys
    decreases |keys|
  {
    if keys != [] {
      PositionsAreRows(goods, t, keys[1..]);
    }
  }

  lemma {:induction false} CountIsPositions(goods: map<nat, seq<Stack>>, t: Table, keys: seq<nat>)
    requires (forall k :: k in keys ==> k in goods) && GoodsAgree(goods, t)
    requires Distinct(keys)
    ensures |AllPositions(goods, keys)| == StackCount(goods, keys)
    decreases |keys|
  {
    if keys != [] {
      CountIsPositions(goods, t, keys[1..]);
      PositionsCount(goods[keys[0]]);
      PositionsAreRows(goods, t, keys[1..]);
      assert Positions(goods[keys[0]]) !! AllPositions(goods, keys[1..]);
    }
  }

  function SlotsUpTo(n: nat): (r: set<nat>)
    ensures |r| == n && forall p :: p in r <==> 1 <= p <= n
  {
    if n == 0 then {} else SlotsUpTo(n - 1) + {n}
  }

  function EquipmentPositions(equ: map<nat, Stack>, ids: set<nat>): set<nat> {
    set e | e in ids && e in equ :: equ[e].pos
  }

  lemma {:induction false} EquipmentCount(equ: map<nat, Stack>, ids: set<nat>)
    requires ids <= equ.Keys && !Clash(equ)
    ensures |EquipmentPositions(equ, ids)| == |ids|
    decreases |ids|
  {
    if ids != {} {
      var e :| e in ids;
      EquipmentCount(equ, ids - {e});
      assert EquipmentPositions(equ, ids) == EquipmentPositions(equ, ids - {e}) + {equ[e].pos};
    }
  }

  lemma EquipmentRows(b: Bag, t: Table)
    requires Agrees(b, t)
    ensures |EquipmentPositions(b.equ, b.equ.Keys)| == |b.equ|
    ensures forall p :: p in EquipmentPositions(b.equ, b.equ.Keys) ==>
            1 <= p < SLOT_COUNT && p in t && t[p].goodsId >= EQUIPMENT_ID
  {
    AgreementHasNoClash(b, t);
    EquipmentCount(b.equ, b.equ.Keys);
  }

  lemma DisjointCounts(a: set<nat>, b: set<nat>)
    requires a !! b && forall p :: p in a || p in b ==> 1 <= p < SLOT_COUNT
    ensures 1 + |a| + |b| <= SLOT_COUNT
  {
    SubsetCount(a + b, SlotsUpTo(SLOT_COUNT - 1));
    assert |a + b| == |a| + |b|;
  }

  lemma RowsAreInSlots(b: Bag, t: Table)
    requires Agrees(b, t)
    ensures GoodsAgree(b.goods, t) && forall p :: p in t ==> 1 <= p < SLOT_COUNT
    ensures forall g :: g in b.goods ==> g < EQUIPMENT_ID
  {
  }

  /** The stacks and the equipment of a bag never need more slots than there are. */
  lemma StacksFit(b: Bag, t: Table, keys: seq<nat>)
    requires Agrees(b, t) && (forall k :: k in keys ==> k in b.goods)
    requires Distinct(keys)
    ensures 1 + |b.equ| + StackCount(b.goods, keys) <= SLOT_COUNT
  {
    var ps, qs := EquipmentPositions(b.equ, b.equ.Keys), AllPositions(b.goods, keys);
    RowsAreInSlots(b, t);
    CountIsPositions(b.goods, t, keys);
    PositionsAreRows(b.goods, t, keys);
    EquipmentRows(b, t);
    DisjointCounts(ps, qs);
  }

  // ----- The whole bag -----

  /** The keys of the map, each once, in the order its iterator gives them. */
  ghost predicate IteratesOver(keys: seq<nat>, goods: map<nat, seq<Stack>>) {
    Distinct(keys) && forall k :: k in keys <==> k in goods
  }

  /** The orders in which the iterators meet equipment and goods. */
  datatype Orders = Orders(equ: seq<nat>, goods: seq<nat>)

  ghost predicate Meets(o: Orders, b: Bag) {
    MeetsAll(o.equ, b.equ) && IteratesOver(o.goods, b.goods)
  }

  /** The bag after ArrangeBagGoods, and what it has journalled. */
  function ArrangedBag(b: Bag, o: Orders): Changed
    requires (forall e :: e in o.equ ==> e in b.equ) && forall k :: k in o.goods ==> k in b.goods
  {
    var q := PlaceAll(b.equ, o.equ, 1, map[]);
    var r := Arrange(b.goods, o.goods, q.next, map[]);
    Changed(Bag(r.goods, b.equ + q.done, Filled(r.next), b.lastEquId), q.changes + r.changes)
  }

  lemma {:induction false} CompactKeepsCap(v: seq<Stack>, p: nat)
    requires AllCapped(v)
    ensures AllCapped(Compact(v, p))
    decreases |v|
  {
    if |v| > 1 {
      var sum := v[0].count + v[|v| - 1].count;
      if sum > MAX_STACK {
        CompactKeepsCap(v[1..][|v| - 2 := v[|v| - 1].(count := sum - MAX_STACK)], p + 1);
      } else {
        CompactKeepsCap(v[1..|v| - 1], p + 1);
      }
    }
  }

  lemma {:induction false} ArrangeKeepsCap(goods: map<nat, seq<Stack>>, keys: seq<nat>, p: nat,
                                           done: map<nat, seq<Stack>>)
    requires (forall k :: k in keys ==> k in goods && AllCapped(goods[k])) && forall g :: g in done ==>
             AllCapped(done[g])
    ensures forall g :: g in Arrange(goods, keys, p, done).goods ==> AllCapped(Arrange(goods, keys, p, done).goods[g])
    decreases |keys|
  {
    if keys != [] {
      var w := Compact(goods[keys[0]], p);
      CompactKeepsCap(goods[keys[0]], p);
      ArrangeKeepsCap(goods, keys[1..], p + |w|, done[keys[0] := w]);
    }
  }

  lemma ArrangedBagKeepsCap(b: Bag, o: Orders)
    requires Meets(o, b) && Capped(b)
    ensures Capped(ArrangedBag(b, o).bag)
  {
    ArrangeKeepsCap(b.goods, o.goods, PlaceAll(b.equ, o.equ, 1, map[]).next, map[]);
  }

  lemma CanArrange(b: Bag, t: Table, o: Orders)
    requires Agrees(b, t) && Capped(b) && Meets(o, b)
    ensures var q := PlaceAll(b.equ, o.equ, 1, map[]);
            Carried(b.equ, b.lastEquId) && Arrangeable(b.goods, o.goods, q.next) && Untouched(o.goods, map[])
  {
    StacksFit(b, t, o.goods);
    PlacingFits(b.equ, o.equ);
  }

  /** The goods are arranged behind the equipment. */
  lemma ArrangedKeeps(R: (Bag, Table) -> bool, b: Bag, o: Orders, q: Placed)
    requires SurvivesEdits(R) && Meets(o, b) && q == PlaceAll(b.equ, o.equ, 1, map[]) && q.done.Keys == b.equ.Keys
    requires R(Bag(map[], q.done, Filled(q.next), b.lastEquId), ApplyAll(map[], q.changes))
    requires Arrangeable(b.goods, o.goods, q.next) && Untouched(o.goods, map[])
    ensures R(ArrangedBag(b, o).bag, ApplyAll(map[], ArrangedBag(b, o).changes))
  {
    var start := Bag(map[], q.done, Filled(q.next), b.lastEquId);
    var r := ArrangedBag(b, o);
    ApplyAllConcat(map[], q.changes, Arrange(b.goods, o.goods, q.next, map[]).changes);
    assert b.equ + q.done == q.done;
    ArrangeKeeps(R, start, ApplyAll(map[], q.changes), b.goods, o.goods, q.next, r.bag, ApplyAll(map[], r.changes));
  }

  /** Arranging a bag, with its rows deleted first, leaves bag and rows in agreement exactly when no equipment
      is overtaken: none lies in a slot that was given out before its type was met. Otherwise two pieces are
      in one slot, and no rows agree with the bag. */
  lemma ArrangedBagAgreesExactlyWhen(b: Bag, t: Table, o: Orders)
    requires Agrees(b, t) && Capped(b) && Meets(o, b)
    ensures var r := ArrangedBag(b, o);
            if SomeoneIsOvertaken(b.equ, o.equ, 0) then forall u :: !Agrees(r.bag, u)
            else Agrees(r.bag, ApplyAll(map[], r.changes))
  {
    CanArrange(b, t, o);
    PlacingRows(b.equ, o.equ, b.lastEquId);
    if SomeoneIsOvertaken(b.equ, o.equ, 0) {
      ClashNeverAgrees(ArrangedBag(b, o).bag);
    } else {
      AgreementSurvivesEdits();
      ArrangedKeeps(Agreement(), b, o, PlaceAll(b.equ, o.equ, 1, map[]));
    }
  }

  /** It keeps the number of pieces of every goods and the cap, never needs more stacks, and equipment only
      changes positions. */
  lemma ArrangedBagConserves(b: Bag, t: Table, o: Orders, g: nat)
    requires Agrees(b, t) && Capped(b) && Meets(o, b)
    ensures var r := ArrangedBag(b, o).bag;
            && Total(StacksOf(r.goods, g)) == Total(StacksOf(b.goods, g))
            && |StacksOf(r.goods, g)| <= |StacksOf(b.goods, g)|
            && (forall s :: s in StacksOf(r.goods, g) ==> 1 <= s.count <= MAX_STACK)
            && r.equ.Keys == b.equ.Keys && OnlyMoved(b.equ, r.equ)
  {
    var q := PlaceAll(b.equ, o.equ, 1, map[]);
    CanArrange(b, t, o);
    PlacingFits(b.equ, o.equ);
    ArrangeKeys(b.goods, o.goods, q.next, map[]);
    if g in b.goods {
      ArrangeConserves(b.goods, o.goods, q.next, map[], g);
    }
  }
}
