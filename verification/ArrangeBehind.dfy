// ArrangeBagGoods against the rows: it deletes them at once, past the queue, and queues its inserts behind
// whatever is still waiting.
module ArrangeBehind {
  import opened GoodsBag
  import opened BagEdits
  import opened BagCounts
  import opened EquipmentArrangement
  import opened BagArrangement

  /** ArrangeBagGoods deletes the rows of the role directly, past the queue, and then queues its
      inserts behind whatever is still waiting. */
  function RowsAfterArranging(waiting: seq<Change>, inserts: seq<Change>): Table {
    ApplyAll(map[], waiting + inserts)
  }

  predicate OnlyInserts(changes: seq<Change>) {
    forall i :: 0 <= i < |changes| ==> changes[i].Insert?
  }

  /** Rows that stand already stay: the inserts that meet them are refused. */
  lemma {:induction false} InsertsAreRefused(t: Table, inserts: seq<Change>)
    requires OnlyInserts(inserts)
    ensures ApplyAll(t, inserts) == ApplyAll(map[], inserts) + t
    decreases |inserts|
  {
    if inserts != [] {
      var s := inserts[0].stack;
      InsertsAreRefused(Apply(t, inserts[0]), inserts[1..]);
      InsertsAreRefused(map[s.pos := s], inserts[1..]);
      assert map[s.pos := s] == Apply(map[], inserts[0]);
    }
  }

  /** Inserts for consecutive slots, from p on. */
  predicate InsertsFrom(changes: seq<Change>, p: nat) {
    forall i :: 0 <= i < |changes| ==> changes[i].Insert? && changes[i].stack.pos == p + i
  }

  lemma InsertsAppend(first: seq<Change>, more: seq<Change>, p: nat)
    requires InsertsFrom(first, p) && InsertsFrom(more, p + |first|)
    ensures InsertsFrom(first + more, p)
  {
  }

  lemma {:induction false} TypeInserts(equ: map<nat, Stack>, order: seq<nat>, typeId: nat, p: nat,
                                       done: map<nat, Stack>)
    requires forall e :: e in order ==> e in equ
    ensures var r := PlaceType(equ, order, typeId, p, done);
            InsertsFrom(r.changes, p) && r.next == p + |r.changes|
    decreases |order|
  {
    if order != [] {
      if equ[order[0]].typeId == typeId {
        var s := equ[order[0]].(pos := p);
        var d := done[order[0] := s];
        TypeInserts(equ, order[1..], typeId, p + 1, d);
        InsertsAppend([Insert(s)], PlaceType(equ, order[1..], typeId, p + 1, d).changes, p);
      } else {
        TypeInserts(equ, order[1..], typeId, p, done);
      }
    }
  }

  lemma {:induction false} EquipmentInserts(equ: map<nat, Stack>, order: seq<nat>, p: nat, done: map<nat, Stack>)
    requires forall e :: e in order ==> e in equ
    ensures var r := PlaceAll(equ, order, p, done);
            InsertsFrom(r.changes, p) && r.next == p + |r.changes|
    decreases |order|
  {
    if order != [] {
      if 1 <= Current(equ, done, order[0]).pos < p {
        EquipmentInserts(equ, order[1..], p, done);
      } else {
        var group := PlaceType(equ, order, equ[order[0]].typeId, p, done);
        TypeInserts(equ, order, equ[order[0]].typeId, p, done);
        EquipmentInserts(equ, order[1..], group.next, group.done);
        InsertsAppend(group.changes, PlaceAll(equ, order[1..], group.next, group.done).changes, p);
      }
    }
  }

  lemma {:induction false} VectorInserts(v: seq<Stack>, p: nat)
    requires forall i :: 0 <= i < |v| ==> v[i].pos == p + i
    ensures InsertsFrom(Inserts(v), p) && |Inserts(v)| == |v|
    decreases |v|
  {
    if v != [] {
      VectorInserts(v[1..], p + 1);
    }
  }

  lemma {:induction false} CompactPositions(v: seq<Stack>, p: nat)
    ensures forall i :: 0 <= i < |Compact(v, p)| ==> Compact(v, p)[i].pos == p + i
    decreases |v|
  {
    if |v| > 1 {
      var sum := v[0].count + v[|v| - 1].count;
      if sum > MAX_STACK {
        CompactPositions(v[1..][|v| - 2 := v[|v| - 1].(count := sum - MAX_STACK)], p + 1);
      } else {
        CompactPositions(v[1..|v| - 1], p + 1);
      }
    }
  }

  lemma {:induction false} GoodsInserts(goods: map<nat, seq<Stack>>, keys: seq<nat>, p: nat, done: map<nat, seq<Stack>>)
    requires forall k :: k in keys ==> k in goods
    ensures InsertsFrom(Arrange(goods, keys, p, done).changes, p)
    decreases |keys|
  {
    if keys != [] {
      var w := Compact(goods[keys[0]], p);
      CompactPositions(goods[keys[0]], p);
      VectorInserts(w, p);
      GoodsInserts(goods, keys[1..], p + |w|, done[keys[0] := w]);
      ArrangeFirst(goods, keys, p, done);
      InsertsAppend(Inserts(w), Arrange(goods, keys[1..], p + |w|, done[keys[0] := w]).changes, p);
    }
  }

  /** Arranging journals one insert for every slot it gives out, in order. */
  lemma ArrangingInserts(b: Bag, o: Orders)
    requires Meets(o, b)
    ensures InsertsFrom(ArrangedBag(b, o).changes, 1)
  {
    var q := PlaceAll(b.equ, o.equ, 1, map[]);
    EquipmentInserts(b.equ, o.equ, 1, map[]);
    GoodsInserts(b.goods, o.goods, q.next, map[]);
    InsertsAppend(q.changes, Arrange(b.goods, o.goods, q.next, map[]).changes, 1);
  }

  lemma SameRowsAgree(b: Bag, t: Table, u: Table)
    requires Agrees(b, t)
    ensures Agrees(b, u) <==> t == u
  {
    if Agrees(b, u) {
      TableIsUnique(b, t, u);
    }
  }

  lemma {:induction false} RowsAreKeyed(t: Table, changes: seq<Change>)
    requires KeyedByPosition(t)
    ensures KeyedByPosition(ApplyAll(t, changes))
    decreases |changes|
  {
    if changes != [] {
      RowsAreKeyed(Apply(t, changes[0]), changes[1..]);
    }
  }

  /** s is a stack or an equipment of the bag. */
  predicate Holds(b: Bag, s: Stack) {
    if s.goodsId < EQUIPMENT_ID then s in StacksOf(b.goods, s.goodsId) else s.goodsId in b.equ && b.equ[s.goodsId] == s
  }

  lemma HeldAreRows(b: Bag, t: Table, s: Stack)
    requires Agrees(b, t)
    ensures Holds(b, s) <==> s.pos in t && t[s.pos] == s
  {
    if s.goodsId < EQUIPMENT_ID && s in StacksOf(b.goods, s.goodsId) {
      assert VectorAgrees(b.goods[s.goodsId], s.goodsId, t);
    }
  }

  lemma UnionStays(left: Table, rows: Table)
    ensures rows == rows + left <==> forall p :: p in left ==> p in rows && rows[p] == left[p]
  {
    if rows == rows + left {
      forall p | p in left
        ensures p in rows && rows[p] == left[p]
      {
        assert (rows + left)[p] == left[p];
      }
    }
  }

  /** No equipment is overtaken, and the changes still waiting, replayed alone, leave no rows but such as the
      arranged bag has. */
  ghost predicate GoesWell(b: Bag, o: Orders, waiting: seq<Change>)
    requires Meets(o, b)
  {
    var left := ApplyAll(map[], waiting);
    !SomeoneIsOvertaken(b.equ, o.equ, 0) && forall p :: p in left ==> Holds(ArrangedBag(b, o).bag, left[p])
  }

  lemma LeftRowsAreHeld(b: Bag, rows: Table, waiting: seq<Change>)
    requires Agrees(b, rows)
    ensures var left := ApplyAll(map[], waiting);
            rows == rows + left <==> forall p :: p in left ==> Holds(b, left[p])
  {
    var left := ApplyAll(map[], waiting);
    UnionStays(left, rows);
    RowsAreKeyed(map[], waiting);
    forall p | p in left
      ensures Holds(b, left[p]) <==> p in rows && rows[p] == left[p]
    {
      HeldAreRows(b, rows, left[p]);
    }
  }

  /** Arranging leaves bag and table to come in step exactly when it goes well. */
  lemma ArrangingInStepExactlyWhen(b: Bag, t: Table, o: Orders, waiting: seq<Change>)
    requires Agrees(b, t) && Capped(b) && Meets(o, b)
    ensures var r := ArrangedBag(b, o);
            Agrees(r.bag, RowsAfterArranging(waiting, r.changes)) <==> GoesWell(b, o, waiting)
  {
    var r := ArrangedBag(b, o);
    ArrangedBagAgreesExactlyWhen(b, t, o);
    if !SomeoneIsOvertaken(b.equ, o.equ, 0) {
      var left, rows := ApplyAll(map[], waiting), ApplyAll(map[], r.changes);
      ApplyAllConcat(map[], waiting, r.changes);
      ArrangingInserts(b, o);
      InsertsAreRefused(left, r.changes);
      SameRowsAgree(r.bag, rows, rows + left);
      LeftRowsAreHeld(r.bag, rows, waiting);
    }
  }

  // ----- The same, should the table take several rows at one position -----

  function WithoutRows(rows: seq<Stack>, p: nat): seq<Stack> {
    if rows == [] then [] else (if rows[0].pos == p then [] else [rows[0]]) + WithoutRows(rows[1..], p)
  }

  /** The three statements on a table without a key: nothing is refused. */
  function Execute(rows: seq<Stack>, c: Change): seq<Stack> {
    match c
    case Insert(s) => rows + [s]
    case Update(s) =>
      seq(|rows|, i requires 0 <= i < |rows| => if rows[i].pos == s.pos then rows[i].(count := s.count) else rows[i])
    case Delete(s) => WithoutRows(rows, s.pos)
  }

  function ExecuteAll(rows: seq<Stack>, changes: seq<Change>): seq<Stack>
    decreases |changes|
  {
    if changes == [] then rows else ExecuteAll(Execute(rows, changes[0]), changes[1..])
  }

  lemma {:induction false} ExecuteConcat(rows: seq<Stack>, first: seq<Change>, more: seq<Change>)
    ensures ExecuteAll(rows, first + more) == ExecuteAll(ExecuteAll(rows, first), more)
    decreases |first|
  {
    if first == [] {
      assert first + more == more;
    } else {
      assert (first + more)[1..] == first[1..] + more;
      ExecuteConcat(Execute(rows, first[0]), first[1..], more);
    }
  }

  /** The rows are those of the table, each once. */
  ghost predicate Mirrors(rows: seq<Stack>, t: Table) {
    && |rows| == |t| && (forall i :: 0 <= i < |rows| ==> rows[i].pos in t && t[rows[i].pos] == rows[i])
    && forall p :: p in t ==> t[p] in rows
  }

  function Inserted(inserts: seq<Change>): seq<Stack> {
    seq(|inserts|, i requires 0 <= i < |inserts| => inserts[i].stack)
  }

  lemma {:induction false} InsertsAppendRows(rows: seq<Stack>, inserts: seq<Change>)
    requires OnlyInserts(inserts)
    ensures ExecuteAll(rows, inserts) == rows + Inserted(inserts)
    decreases |inserts|
  {
    if inserts != [] {
      InsertsAppendRows(rows + [inserts[0].stack], inserts[1..]);
      assert Inserted(inserts) == [inserts[0].stack] + Inserted(inserts[1..]);
    }
  }

  /** Inserts for slots that nobody has do the same to either kind of table. */
  lemma {:induction false} InsertsMirror(rows: seq<Stack>, t: Table, inserts: seq<Change>, p: nat)
    requires InsertsFrom(inserts, p) && Mirrors(rows, t) && forall q :: q in t ==> q < p
    ensures Mirrors(ExecuteAll(rows, inserts), ApplyAll(t, inserts))
    decreases |inserts|
  {
    if inserts != [] {
      var s := inserts[0].stack;
      assert t[s.pos := s].Keys == t.Keys + {s.pos};
      MirrorsMore(rows, t, s);
      InsertsMirror(rows + [s], t[s.pos := s], inserts[1..], p + 1);
    }
  }

  lemma MirrorsMore(rows: seq<Stack>, t: Table, s: Stack)
    requires Mirrors(rows, t) && s.pos !in t
    ensures Mirrors(rows + [s], t[s.pos := s])
  {
    assert t[s.pos := s].Keys == t.Keys + {s.pos};
    assert (rows + [s])[|rows|] == s;
    forall p | p in t
      ensures t[p] in rows + [s]
    {
      assert t[p] in rows;
    }
  }

  /** The bag agrees with some table that the rows mirror. */
  ghost predicate AgreesWithRows(b: Bag, rows: seq<Stack>) {
    exists t :: Agrees(b, t) && Mirrors(rows, t)
  }

  lemma MirrorOfAgreement(b: Bag, t: Table, rows: seq<Stack>)
    requires Agrees(b, t)
    ensures AgreesWithRows(b, rows) <==> Mirrors(rows, t)
  {
    if AgreesWithRows(b, rows) {
      var u :| Agrees(b, u) && Mirrors(rows, u);
      TableIsUnique(b, t, u);
    }
  }

  lemma MirrorHasNoMore(left: seq<Stack>, rows: seq<Stack>, t: Table)
    requires Mirrors(rows, t)
    ensures Mirrors(left + rows, t) <==> left == []
  {
    assert [] + rows == rows;
  }

  /** On a table without a key, arranging leaves them in step exactly when no equipment is overtaken, and the
      changes still waiting, replayed alone, leave no rows at all. */
  lemma ArrangingWithoutKeyExactlyWhen(b: Bag, t: Table, o: Orders, waiting: seq<Change>)
    requires Agrees(b, t) && Capped(b) && Meets(o, b)
    ensures var r := ArrangedBag(b, o);
            AgreesWithRows(r.bag, ExecuteAll([], waiting + r.changes)) <==>
              !SomeoneIsOvertaken(b.equ, o.equ, 0) && ExecuteAll([], waiting) == []
  {
    var r := ArrangedBag(b, o);
    ArrangedBagAgreesExactlyWhen(b, t, o);
    if !SomeoneIsOvertaken(b.equ, o.equ, 0) {
      var left, rows := ExecuteAll([], waiting), ApplyAll(map[], r.changes);
      ArrangingInserts(b, o);
      ExecuteConcat([], waiting, r.changes);
      InsertsAppendRows(left, r.changes);
      InsertsAppendRows([], r.changes);
      InsertsMirror([], map[], r.changes, 1);
      assert [] + Inserted(r.changes) == Inserted(r.changes);
      MirrorHasNoMore(left, Inserted(r.changes), rows);
      MirrorOfAgreement(r.bag, rows, left + Inserted(r.changes));
    }
  }
}
