// What arranging a bag achieves: when merging stacks saves a slot, what the stacks that are left hold, and how
// the equipment lies.
module ArrangeEffects {
  import opened GoodsBag
  import opened BagEdits
  import opened BagAgreement
  import opened BagCounts
  import opened EquipmentArrangement
  import opened BagArrangement

  function Lesser(m: nat, n: nat): nat {
    if m < n then m else n
  }

  lemma {:induction false} CappedTotal(v: seq<Stack>)
    requires AllCapped(v)
    ensures Total(v) <= MAX_STACK * |v|
    decreases |v|
  {
    if v != [] {
      CappedTotal(v[1..]);
    }
  }

  /** As many stacks are left only if all but the last are full. */
  lemma {:induction false} FullButTheLast(v: seq<Stack>, p: nat)
    requires |Compact(v, p)| == |v| && v != []
    ensures Total(Compact(v, p)) >= MAX_STACK * (|v| - 1)
    ensures forall i :: 0 <= i < |v| - 1 ==> Compact(v, p)[i].count == MAX_STACK
    decreases |v|
  {
    if |v| > 1 {
      var sum := v[0].count + v[|v| - 1].count;
      assert sum > MAX_STACK;
      FullButTheLast(v[1..][|v| - 2 := v[|v| - 1].(count := sum - MAX_STACK)], p + 1);
    }
  }

  /** Merging saves a slot exactly when one stack fewer could hold all the pieces. */
  lemma MergingSavesExactlyWhen(v: seq<Stack>, g: nat, p: nat)
    requires Stocked(v, g) && v != []
    ensures |Compact(v, p)| < |v| <==> Total(v) <= MAX_STACK * (|v| - 1)
  {
    CompactConserves(v, p);
    CompactStocked(v, g, p);
    CappedTotal(Compact(v, p));
    if |Compact(v, p)| == |v| {
      FullButTheLast(v, p);
      LastHasPieces(v, g, p);
    }
  }

  /** Then the full ones do not hold all of them. */
  lemma LastHasPieces(v: seq<Stack>, g: nat, p: nat)
    requires Stocked(v, g) && v != [] && |Compact(v, p)| == |v|
    ensures Total(Compact(v, p)) > MAX_STACK * (|v| - 1)
  {
    var w, n := Compact(v, p), |v| - 1;
    CompactStocked(v, g, p);
    FullButTheLast(v, p);
    assert w == w[..n] + [w[n]];
    TotalPush(w[..n], w[n]);
    FullTotal(w[..n]);
  }

  lemma {:induction false} FullTotal(v: seq<Stack>)
    requires forall i :: 0 <= i < |v| ==> v[i].count == MAX_STACK
    ensures Total(v) == MAX_STACK * |v|
    decreases |v|
  {
    if v != [] {
      FullTotal(v[1..]);
    }
  }

  /** Two stacks become one or a full one and the rest; of more, the first is filled from the last, and no
      vector shrinks to less than its half. */
  lemma {:induction false} MergingTakesFromTheLast(v: seq<Stack>, p: nat)
    requires |v| >= 2
    ensures var w, sum := Compact(v, p), v[0].count + v[|v| - 1].count;
            && w[0].count == Lesser(MAX_STACK, sum)
            && |w| >= (|v| + 1) / 2
            && (|v| == 2 ==> if sum > MAX_STACK then |w| == 2 && w[1].count == sum - MAX_STACK else |w| == 1)
    decreases |v|
  {
    HalfIsLeft(v, p);
  }

  lemma {:induction false} HalfIsLeft(v: seq<Stack>, p: nat)
    ensures |Compact(v, p)| >= (|v| + 1) / 2
    decreases |v|
  {
    if |v| > 1 {
      var sum := v[0].count + v[|v| - 1].count;
      if sum > MAX_STACK {
        HalfIsLeft(v[1..][|v| - 2 := v[|v| - 1].(count := sum - MAX_STACK)], p + 1);
      } else {
        HalfIsLeft(v[1..|v| - 1], p + 1);
      }
    }
  }

  /** Any two stacks fit into one. */
  ghost predicate PairsFit(v: seq<Stack>) {
    forall i, j :: 0 <= i < j < |v| ==> v[i].count + v[j].count <= MAX_STACK
  }

  /** The first half has taken in the second, from the outside inwards. */
  ghost predicate Folded(v: seq<Stack>, w: seq<Stack>) {
    && |w| == |v| - |v| / 2
    && (forall i :: 0 <= i < |v| / 2 ==> w[i].count == v[i].count + v[|v| - 1 - i].count)
    && (|v| / 2 < |w| ==> w[|v| / 2].count == v[|v| / 2].count)
  }

  lemma FoldedFurther(v: seq<Stack>, s: Stack, u: seq<Stack>)
    requires |v| >= 2 && Folded(v[1..|v| - 1], u) && s.count == v[0].count + v[|v| - 1].count
    ensures Folded(v, [s] + u)
  {
    var inner, w := v[1..|v| - 1], [s] + u;
    assert |inner| / 2 == |v| / 2 - 1;
    forall i | 1 <= i < |v| / 2
      ensures w[i].count == v[i].count + v[|v| - 1 - i].count
    {
      assert w[i] == u[i - 1] && inner[i - 1] == v[i] && inner[|inner| - 1 - (i - 1)] == v[|v| - 1 - i];
    }
  }

  /** When every two stacks fit into one, the vector is folded in the middle. */
  lemma {:induction false} PairsFold(v: seq<Stack>, p: nat)
    requires PairsFit(v)
    ensures Folded(v, Compact(v, p))
    decreases |v|
  {
    if |v| > 1 {
      var inner, sum := v[1..|v| - 1], v[0].count + v[|v| - 1].count;
      assert v[0].count + v[|v| - 1].count <= MAX_STACK;
      PairsFold(inner, p + 1);
      FoldedFurther(v, v[0].(count := sum, pos := p), Compact(inner, p + 1));
    }
  }

  // ----- In the bag -----

  /** What is left of goods that are arranged is the merge of their vector from some slot on. */
  lemma {:induction false} ArrangeMerges(goods: map<nat, seq<Stack>>, keys: seq<nat>, p: nat,
                                         done: map<nat, seq<Stack>>, g: nat) returns (q: nat)
    requires (forall k :: k in keys ==> k in goods) && Distinct(keys) && Untouched(keys, done) && g in keys
    ensures var r := Arrange(goods, keys, p, done).goods;
            g in r && r[g] == Compact(goods[g], q)
    decreases |keys|
  {
    var w := Compact(goods[keys[0]], p);
    if g == keys[0] {
      ArrangeKeepsDone(goods, keys[1..], p + |w|, done[g := w]);
      q := p;
    } else {
      q := ArrangeMerges(goods, keys[1..], p + |w|, done[keys[0] := w], g);
    }
  }

  /** w has fewer stacks exactly when one stack fewer could hold all the pieces of v; its first stack is filled
      from the last one of v; and if any two stacks of v fit into one, half of them are left. */
  ghost predicate WellMerged(v: seq<Stack>, w: seq<Stack>) {
    && (|w| < |v| <==> Total(v) <= MAX_STACK * (|v| - 1))
    && (|v| >= 2 ==> w != [] && w[0].count == Lesser(MAX_STACK, v[0].count + v[|v| - 1].count))
    && (PairsFit(v) ==> Folded(v, w))
  }

  lemma CompactIsWellMerged(v: seq<Stack>, g: nat, p: nat)
    requires Stocked(v, g) && v != []
    ensures WellMerged(v, Compact(v, p))
  {
    MergingSavesExactlyWhen(v, g, p);
    if |v| >= 2 {
      MergingTakesFromTheLast(v, p);
    }
    if PairsFit(v) {
      PairsFold(v, p);
    }
  }

  /** Arranging a bag merges the stacks of all goods in it. */
  lemma ArrangingMerges(b: Bag, t: Table, o: Orders, g: nat)
    requires Agrees(b, t) && Capped(b) && Meets(o, b) && g in b.goods
    ensures WellMerged(b.goods[g], StacksOf(ArrangedBag(b, o).bag.goods, g))
  {
    CanArrange(b, t, o);
    var q := ArrangeMerges(b.goods, o.goods, PlaceAll(b.equ, o.equ, 1, map[]).next, map[], g);
    CompactIsWellMerged(b.goods[g], g, q);
  }

  // ----- The equipment -----

  /** s and u are of one type, and m lies between them. */
  predicate Between(s: Stack, m: Stack, u: Stack) {
    s.typeId == u.typeId && s.pos <= m.pos <= u.pos
  }

  /** Pieces of one type lie next to each other, with none of another type between them. */
  ghost predicate Grouped(equ: map<nat, Stack>) {
    forall e, f, x :: e in equ && f in equ && x in equ && Between(equ[e], equ[x], equ[f]) ==>
      equ[x].typeId == equ[e].typeId
  }

  /** From slot q on there is nothing but pieces of the type, and before it none of them. */
  ghost predicate StartsAt(done: map<nat, Stack>, typeId: nat, q: nat) {
    forall e :: e in done ==> (done[e].pos >= q <==> done[e].typeId == typeId)
  }

  lemma {:induction false} TypeStartsAt(equ: map<nat, Stack>, rest: seq<nat>, typeId: nat, p: nat,
                                        done: map<nat, Stack>, q: nat)
    requires Unplaced(equ, rest, typeId, done) && Distinct(rest) && StartsAt(done, typeId, q) && q <= p
    ensures var r := PlaceType(equ, rest, typeId, p, done);
            StartsAt(r.done, typeId, q) && forall e :: e in done ==> e in r.done && r.done[e] == done[e]
    decreases |rest|
  {
    if rest != [] {
      if equ[rest[0]].typeId == typeId {
        TypeStartsAt(equ, rest[1..], typeId, p + 1, done[rest[0] := equ[rest[0]].(pos := p)], q);
      } else {
        TypeStartsAt(equ, rest[1..], typeId, p, done, q);
      }
    }
  }

  lemma GroupBehind(done: map<nat, Stack>, all: map<nat, Stack>, typeId: nat, q: nat)
    requires Grouped(done) && StartsAt(all, typeId, q) && forall e :: e in done ==> e in all && all[e] == done[e]
    requires forall e :: e in all && e !in done ==> all[e].typeId == typeId
    requires forall e :: e in done ==> done[e].typeId != typeId
    ensures Grouped(all)
  {
    forall e, f, x | e in all && f in all && x in all && Between(all[e], all[x], all[f])
      ensures all[x].typeId == all[e].typeId
    {
      if all[e].typeId != typeId {
        assert e in done && f in done && x in done;
      }
    }
  }

  lemma GroupStaysGrouped(equ: map<nat, Stack>, rest: seq<nat>, p: nat, done: map<nat, Stack>)
    requires Placing(equ, rest, p, done) && rest != [] && rest[0] !in done && OnlyMoved(equ, done) && Grouped(done)
    ensures var r := PlaceType(equ, rest, equ[rest[0]].typeId, p, done);
            Placing(equ, rest[1..], r.next, r.done) && OnlyMoved(equ, r.done) && Grouped(r.done)
  {
    var typeId := equ[rest[0]].typeId;
    var r := PlaceType(equ, rest, typeId, p, done);
    GroupKeeps(equ, rest, p, done);
    PlaceTypeMoves(equ, rest, typeId, p, done);
    TypeStartsAt(equ, rest, typeId, p, done, p);
    GroupBehind(done, r.done, typeId, p);
  }

  lemma {:induction false} AllGrouped(equ: map<nat, Stack>, rest: seq<nat>, p: nat, done: map<nat, Stack>)
    requires Placing(equ, rest, p, done) && OnlyMoved(equ, done) && Grouped(done)
    ensures Grouped(PlaceAll(equ, rest, p, done).done)
    decreases |rest|
  {
    if rest != [] {
      if 1 <= Current(equ, done, rest[0]).pos < p {
        PlacingRest(equ, rest, p, done);
        AllGrouped(equ, rest[1..], p, done);
      } else {
        GroupStaysGrouped(equ, rest, p, done);
        var group := PlaceType(equ, rest, equ[rest[0]].typeId, p, done);
        AllGrouped(equ, rest[1..], group.next, group.done);
      }
    }
  }

  lemma PlacedGrouped(equ: map<nat, Stack>, order: seq<nat>, last: nat)
    requires MeetsAll(order, equ) && Carried(equ, last) && !SomeoneIsOvertaken(equ, order, 0)
    ensures var q := PlaceAll(equ, order, 1, map[]);
            q.done.Keys == equ.Keys && Grouped(q.done) && forall e :: e in q.done ==> 1 <= q.done[e].pos <= |equ|
  {
    PlacingRows(equ, order, last);
    PlaceAllKeeps(equ, order, 1, map[]);
    AllGrouped(equ, order, 1, map[]);
  }

  lemma PlacedIsArranged(b: Bag, o: Orders)
    requires Meets(o, b) && PlaceAll(b.equ, o.equ, 1, map[]).done.Keys == b.equ.Keys
    ensures ArrangedBag(b, o).bag.equ == PlaceAll(b.equ, o.equ, 1, map[]).done
  {
  }

  lemma ArrangedIsCarried(b: Bag, t: Table, o: Orders)
    requires Agrees(b, t) && Capped(b) && Meets(o, b)
    ensures Carried(b.equ, b.lastEquId)
  {
    CanArrange(b, t, o);
  }

  /** Unless a piece is overtaken, the equipment ends up grouped by type in the first slots. */
  lemma ArrangingGroups(b: Bag, t: Table, o: Orders)
    requires Agrees(b, t) && Capped(b) && Meets(o, b) && !SomeoneIsOvertaken(b.equ, o.equ, 0)
    ensures var equ := ArrangedBag(b, o).bag.equ;
            Grouped(equ) && forall e :: e in equ ==> 1 <= equ[e].pos <= |b.equ|
  {
    ArrangedIsCarried(b, t, o);
    PlacedGrouped(b.equ, o.equ, b.lastEquId);
    PlacedIsArranged(b, o);
  }
}
