// ArrangeBagGoods, in place.
module BagArranging {
  import opened GoodsBag
  import opened BagEdits
  import opened BagCounts
  import opened EquipmentArrangement
  import opened BagArrangement
  import opened OperationGoods
  import opened EquipmentArranging

  /** What one round of the two-ended loop makes of the stacks from start on. */
  function Merged(v: seq<Stack>, p: nat): (w: seq<Stack>)
    requires v != []
    ensures 1 <= |w| <= |v|
  {
    if |v| == 1 then [v[0].(pos := p)]
    else
      var last := v[|v| - 1];
      var sum := v[0].count + last.count;
      if sum > MAX_STACK then v[0 := v[0].(count := MAX_STACK, pos := p)][|v| - 1 := last.(count := sum - MAX_STACK)]
      else v[..|v| - 1][0 := v[0].(count := sum, pos := p)]
  }

  lemma MergedIsCompact(v: seq<Stack>, p: nat)
    requires v != []
    ensures Compact(v, p) == [Merged(v, p)[0]] + Compact(Merged(v, p)[1..], p + 1)
  {
    var w, last := Merged(v, p), v[|v| - 1];
    if |v| > 1 {
      var sum := v[0].count + last.count;
      if sum > MAX_STACK {
        assert w[1..] == v[1..][|v| - 2 := last.(count := sum - MAX_STACK)];
      } else {
        assert w[1..] == v[1..|v| - 1];
      }
    }
  }

  /** One round: the stack at start meets the last one, gets slot p and is journalled. */
  method MergeOnce(s: PlayerGoods, g: nat, start: nat, p: nat)
    requires s.Valid() && g in s.goods && start < |s.goods[g]| && p < SLOT_COUNT
    modifies s`goods, s`journal, s.slots
    ensures var w := Merged(old(s.goods[g])[start..], p);
            && s.goods == old(s.goods)[g := old(s.goods[g])[..start] + w]
            && s.journal == old(s.journal) + [Insert(w[0])] && s.slots[..] == old(s.slots[..])[p := NonEmpty]
  {
    var v := s.goods[g];
    var last := |v| - 1;
    if start == last {
      v := v[start := v[start].(pos := p)];
    } else {
      var sum := v[start].count + v[last].count;
      if sum > MAX_STACK {
        v := v[start := v[start].(count := MAX_STACK)];
        v := v[last := v[last].(count := sum - MAX_STACK)];
      } else {
        v := v[start := v[start].(count := sum)];
        v := v[..last];
      }
      v := v[start := v[start].(pos := p)];
    }
    assert v == s.goods[g][..start] + Merged(s.goods[g][start..], p);
    s.goods := s.goods[g := v];
    s.slots[p] := NonEmpty;
    s.PushUpdateGoods(Insert(v[start]));
  }

  /** The same round, told by the stacks already merged and the rest. */
  method MergeNext(s: PlayerGoods, g: nat, start: nat, p: nat, ghost done: seq<Stack>, ghost rest: seq<Stack>)
    requires s.Valid() && g in s.goods && s.goods[g] == done + rest && start == |done| && rest != [] && p < SLOT_COUNT
    modifies s`goods, s`journal, s.slots
    ensures var w := Merged(rest, p);
            && s.goods == old(s.goods)[g := done + [w[0]] + w[1..]]
            && s.journal == old(s.journal) + [Insert(w[0])] && s.slots[..] == old(s.slots[..])[p := NonEmpty]
  {
    assert s.goods[g][start..] == rest && s.goods[g][..start] == done;
    ghost var w := Merged(rest, p);
    assert done + w == done + [w[0]] + w[1..];
    MergeOnce(s, g, start, p);
  }

  /** Between two rounds: done is merged and journalled, and merging the rest makes the whole. */
  ghost predicate Merging(whole: seq<Stack>, before: seq<Change>, journal: seq<Change>, done: seq<Stack>,
                          rest: seq<Stack>, next: nat) {
    whole == done + Compact(rest, next) && journal == before + Inserts(done)
  }

  lemma MergingBegins(v: seq<Stack>, p: nat, before: seq<Change>)
    ensures Merging(Compact(v, p), before, before, [], v, p) && [] + v == v
  {
    assert before + Inserts([]) == before;
  }

  lemma MergingGoesOn(whole: seq<Stack>, before: seq<Change>, journal: seq<Change>, done: seq<Stack>,
                      rest: seq<Stack>, next: nat)
    requires Merging(whole, before, journal, done, rest, next) && rest != []
    ensures var w := Merged(rest, next);
            Merging(whole, before, journal + [Insert(w[0])], done + [w[0]], w[1..], next + 1)
  {
    var w := Merged(rest, next);
    MergedIsCompact(rest, next);
    InsertsConcat(done, [w[0]]);
    Associate(done, [w[0]], Compact(w[1..], next + 1));
    Associate(before, Inserts(done), [Insert(w[0])]);
  }

  lemma Associate<T>(a: seq<T>, b: seq<T>, c: seq<T>)
    ensures a + (b + c) == a + b + c
  {
  }

  lemma MergingEnds(whole: seq<Stack>, before: seq<Change>, journal: seq<Change>, done: seq<Stack>, next: nat)
    requires Merging(whole, before, journal, done, [], next)
    ensures whole == done + [] == done && journal == before + Inserts(whole)
  {
  }

  lemma FilledMore(p: nat)
    requires 1 <= p < SLOT_COUNT
    ensures Filled(p)[p := NonEmpty] == Filled(p + 1)
  {
  }

  /** Halfway through a vector: its goods, its slots and the journal. */
  ghost predicate Vectoring(s: PlayerGoods, goods: map<nat, seq<Stack>>, g: nat, whole: seq<Stack>, before: seq<Change>,
                            done: seq<Stack>, rest: seq<Stack>, next: nat)
    reads s, s.slots
  {
    && s.goods == goods[g := done + rest] && s.slots[..] == Filled(next) && next >= 1 && next + |rest| <= SLOT_COUNT
    && Merging(whole, before, s.journal, done, rest, next)
  }

  /** One round of the loop over a vector. */
  method MergeRound(s: PlayerGoods, g: nat, start: nat, p: nat, ghost goods: map<nat, seq<Stack>>,
                    ghost whole: seq<Stack>, ghost before: seq<Change>, ghost done: seq<Stack>, ghost rest: seq<Stack>)
    requires s.Valid() && Vectoring(s, goods, g, whole, before, done, rest, p) && rest != [] && start == |done|
    modifies s`goods, s`journal, s.slots
    ensures var w := Merged(rest, p);
            Vectoring(s, goods, g, whole, before, done + [w[0]], w[1..], p + 1)
  {
    ghost var w := Merged(rest, p);
    MergingGoesOn(whole, before, s.journal, done, rest, p);
    FilledMore(p);
    MergeNext(s, g, start, p, done, rest);
    assert s.goods == goods[g := done + [w[0]] + w[1..]];
  }

  /** The loop over one vector. */
  method MergeVector(s: PlayerGoods, g: nat, useBagPosition: nat) returns (next: nat)
    requires s.Valid() && g in s.goods && useBagPosition >= 1
    requires useBagPosition + |s.goods[g]| <= SLOT_COUNT && s.slots[..] == Filled(useBagPosition)
    modifies s`goods, s`journal, s.slots
    ensures var w := Compact(old(s.goods[g]), useBagPosition);
            && s.goods == old(s.goods)[g := w] && next == useBagPosition + |w|
            && s.journal == old(s.journal) + Inserts(w) && s.slots[..] == Filled(next)
  {
    ghost var goods, before, whole := s.goods, s.journal, Compact(s.goods[g], useBagPosition);
    ghost var done, rest: seq<Stack> := [], s.goods[g];
    next := useBagPosition;
    assert s.goods == s.goods[g := s.goods[g]];
    MergingBegins(rest, next, before);
    while next - useBagPosition < |s.goods[g]|
      invariant Vectoring(s, goods, g, whole, before, done, rest, next) && next == useBagPosition + |done|
      decreases |rest|
    {
      ghost var w := Merged(rest, next);
      MergeRound(s, g, next - useBagPosition, next, goods, whole, before, done, rest);
      done, rest := done + [w[0]], w[1..];
      next := next + 1;
    }
    MergingEnds(whole, before, s.journal, done, next);
  }

  // ----- The whole bag -----

  /** What a run of ArrangeBagGoods has reached: done holds the vectors arranged so far. */
  ghost predicate Arranging(whole: Arranged, before: seq<Change>, journal: seq<Change>, goods: map<nat, seq<Stack>>,
                            keys: seq<nat>, next: nat, done: map<nat, seq<Stack>>)
    requires forall k :: k in keys ==> k in goods
  {
    var r := Arrange(goods, keys, next, done);
    whole.goods == r.goods && whole.next == r.next && before + whole.changes == journal + r.changes
  }

  lemma ArrangingGoesOn(whole: Arranged, before: seq<Change>, journal: seq<Change>, goods: map<nat, seq<Stack>>,
                        keys: seq<nat>, next: nat, done: map<nat, seq<Stack>>)
    requires (forall k :: k in keys ==> k in goods) && keys != []
    requires Arranging(whole, before, journal, goods, keys, next, done)
    ensures var w := Compact(goods[keys[0]], next);
            Arranging(whole, before, journal + Inserts(w), goods, keys[1..], next + |w|, done[keys[0] := w])
  {
    var w := Compact(goods[keys[0]], next);
    Associate(journal, Inserts(w), Arrange(goods, keys[1..], next + |w|, done[keys[0] := w]).changes);
  }

  method ClearSlots(s: PlayerGoods)
    requires s.Valid()
    modifies s.slots
    ensures s.slots[..] == Filled(1)
  {
    for p := 0 to SLOT_COUNT
      invariant forall q :: 0 <= q < p ==> s.slots[q] == Empty
    {
      s.slots[p] := Empty;
    }
  }

  /** One vector of the loop over the map. */
  method ArrangeNext(s: PlayerGoods, ghost goods: map<nat, seq<Stack>>, ghost done: map<nat, seq<Stack>>,
                     g: nat, p: nat) returns (next: nat)
    requires s.Valid() && g in goods && g !in done && s.goods == goods + done
    requires p >= 1 && p + |goods[g]| <= SLOT_COUNT && s.slots[..] == Filled(p)
    modifies s`goods, s`journal, s.slots
    ensures var w := Compact(goods[g], p);
            && s.goods == goods + done[g := w] && next == p + |w|
            && s.journal == old(s.journal) + Inserts(w) && s.slots[..] == Filled(next)
  {
    next := MergeVector(s, g, p);
    assert (goods + done)[g := Compact(goods[g], p)] == goods + done[g := Compact(goods[g], p)];
  }

  /** Between two vectors: done is arranged and journalled, and arranging the rest makes the whole. */
  ghost predicate Underway(whole: Arranged, before: seq<Change>, journal: seq<Change>, goods: map<nat, seq<Stack>>,
                           rest: seq<nat>, next: nat, done: map<nat, seq<Stack>>) {
    && Arrangeable(goods, rest, next) && Untouched(rest, done)
    && Arranging(whole, before, journal, goods, rest, next, done)
  }

  lemma UnderwayGoesOn(whole: Arranged, before: seq<Change>, journal: seq<Change>, goods: map<nat, seq<Stack>>,
                       rest: seq<nat>, next: nat, done: map<nat, seq<Stack>>)
    requires rest != [] && Underway(whole, before, journal, goods, rest, next, done)
    ensures var w := Compact(goods[rest[0]], next);
            && rest[0] in goods && rest[0] !in done && next >= 1 && next + |goods[rest[0]]| <= SLOT_COUNT
            && Underway(whole, before, journal + Inserts(w), goods, rest[1..], next + |w|, done[rest[0] := w])
  {
    ArrangeableRest(goods, rest, next, done);
    ArrangingGoesOn(whole, before, journal, goods, rest, next, done);
  }

  /** The bag agrees with what has been arranged. */
  ghost predicate Halfway(s: PlayerGoods, goods: map<nat, seq<Stack>>, next: nat, done: map<nat, seq<Stack>>)
    reads s, s.slots
  {
    s.goods == goods + done && s.slots[..] == Filled(next)
  }

  /** One round of the loop over the map. */
  method ArrangeRound(s: PlayerGoods, g: nat, p: nat, ghost whole: Arranged, ghost before: seq<Change>,
                      ghost goods: map<nat, seq<Stack>>, ghost rest: seq<nat>, ghost done: map<nat, seq<Stack>>)
    returns (next: nat)
    requires s.Valid() && Halfway(s, goods, p, done) && rest != [] && rest[0] == g
    requires Underway(whole, before, s.journal, goods, rest, p, done)
    modifies s`goods, s`journal, s.slots
    ensures var done' := done[g := Compact(goods[g], p)];
            Halfway(s, goods, next, done') && Underway(whole, before, s.journal, goods, rest[1..], next, done')
  {
    UnderwayGoesOn(whole, before, s.journal, goods, rest, p, done);
    next := ArrangeNext(s, goods, done, g, p);
  }

  method ArrangeVectors(s: PlayerGoods, order: seq<nat>, p: nat)
    requires s.Valid() && Arrangeable(s.goods, order, p) && s.slots[..] == Filled(p)
    modifies s`goods, s`journal, s.slots
    ensures var r := Arrange(old(s.goods), order, p, map[]);
            && s.goods == old(s.goods) + r.goods && s.slots[..] == Filled(r.next)
            && s.journal == old(s.journal) + r.changes
  {
    ghost var before, goods := s.journal, s.goods;
    ghost var whole := Arrange(goods, order, p, map[]);
    ghost var done: map<nat, seq<Stack>>, rest := map[], order;
    var useBagPosition := p;
    assert goods + done == goods;
    for k := 0 to |order|
      invariant rest == order[k..] && Halfway(s, goods, useBagPosition, done)
      invariant Underway(whole, before, s.journal, goods, rest, useBagPosition, done)
    {
      ghost var w := Compact(goods[order[k]], useBagPosition);
      useBagPosition := ArrangeRound(s, order[k], useBagPosition, whole, before, goods, rest, done);
      done, rest := done[order[k] := w], rest[1..];
    }
    UnderwayEnds(whole, before, s.journal, goods, useBagPosition, done);
  }

  lemma UnderwayEnds(whole: Arranged, before: seq<Change>, journal: seq<Change>, goods: map<nat, seq<Stack>>,
                     next: nat, done: map<nat, seq<Stack>>)
    requires Underway(whole, before, journal, goods, [], next, done)
    ensures whole.goods == done && whole.next == next && journal == before + whole.changes
  {
  }

  lemma ArrangedCoversAll(goods: map<nat, seq<Stack>>, order: seq<nat>, p: nat)
    requires IteratesOver(order, goods)
    ensures var r := Arrange(goods, order, p, map[]).goods;
            goods + r == r
  {
    ArrangeKeys(goods, order, p, map[]);
  }

  method ArrangeAll(s: PlayerGoods, order: Orders)
    requires s.Valid() && Roomy(s.equ) && Meets(order, s.Value())
    requires Arrangeable(s.goods, order.goods, PlaceAll(s.equ, order.equ, 1, map[]).next)
    modifies s`goods, s`equ, s`journal, s.slots
    ensures var r := ArrangedBag(old(s.Value()), order);
            s.Value() == r.bag && s.journal == old(s.journal) + r.changes
  {
    ghost var q := PlaceAll(s.equ, order.equ, 1, map[]);
    ghost var r := Arrange(s.goods, order.goods, q.next, map[]);
    ArrangedCoversAll(s.goods, order.goods, q.next);
    Associate(s.journal, q.changes, r.changes);
    ClearSlots(s);
    var useBagPosition := PlaceEquipment(s, order.equ);
    ArrangeVectors(s, order.goods, useBagPosition);
  }

  lemma BagIsRoomy(b: Bag, t: Table, o: Orders)
    requires Agrees(b, t) && Capped(b) && Meets(o, b)
    ensures Roomy(b.equ) && Arrangeable(b.goods, o.goods, PlaceAll(b.equ, o.equ, 1, map[]).next)
  {
    CanArrange(b, t, o);
  }

  /** order is the order of the maps' iterators. The rows of the role are deleted before. */
  method ArrangeBagGoods(s: PlayerGoods, order: Orders, ghost t: Table)
    requires s.Valid() && Capped(s.Value()) && Agrees(s.Value(), t) && Meets(order, s.Value())
    modifies s`goods, s`equ, s`journal, s.slots
    ensures var r := ArrangedBag(old(s.Value()), order);
            s.Value() == r.bag && s.journal == old(s.journal) + r.changes
  {
    BagIsRoomy(s.Value(), t, order);
    ArrangeAll(s, order);
  }
}
