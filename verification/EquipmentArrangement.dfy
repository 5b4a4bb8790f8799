// The equipment part of ArrangeBagGoods: pieces of the same type get consecutive slots, unless a piece is
// taken for one that has its slot already.
module EquipmentArrangement {
  import opened GoodsBag
  import opened BagEdits

  /** Slots 1 to p - 1 are in use. */
  function Filled(p: nat): seq<Slot> {
    seq(SLOT_COUNT, i => if 1 <= i < p then NonEmpty else Empty)
  }

  /** The pieces placed so far, the next slot, and what has been journalled. */
  datatype Placed = Placed(done: map<nat, Stack>, next: nat, changes: seq<Change>)

  /** A piece as it stands in the map. */
  function Current(equ: map<nat, Stack>, done: map<nat, Stack>, e: nat): Stack
    requires e in equ
  {
    if e in done then done[e] else equ[e]
  }

  /** The inner loop: every piece of the type from here on gets the next slot. */
  function PlaceType(equ: map<nat, Stack>, order: seq<nat>, typeId: nat, p: nat, done: map<nat, Stack>): Placed
    requires forall e :: e in order ==> e in equ
    decreases |order|
  {
    if order == [] then Placed(done, p, [])
    else if equ[order[0]].typeId != typeId then PlaceType(equ, order[1..], typeId, p, done)
    else
      var s := equ[order[0]].(pos := p);
      var rest := PlaceType(equ, order[1..], typeId, p + 1, done[order[0] := s]);
      Placed(rest.done, rest.next, [Insert(s)] + rest.changes)
  }

  /** The outer loop: a piece whose slot is among those given out counts as placed. */
  function PlaceAll(equ: map<nat, Stack>, order: seq<nat>, p: nat, done: map<nat, Stack>): Placed
    requires forall e :: e in order ==> e in equ
    decreases |order|
  {
    if order == [] then Placed(done, p, [])
    else if 1 <= Current(equ, done, order[0]).pos < p then PlaceAll(equ, order[1..], p, done)
    else
      var group := PlaceType(equ, order, equ[order[0]].typeId, p, done);
      var rest := PlaceAll(equ, order[1..], group.next, group.done);
      Placed(rest.done, rest.next, group.changes + rest.changes)
  }

  ghost predicate Distinct(keys: seq<nat>) {
    forall i, j :: 0 <= i < j < |keys| ==> keys[i] != keys[j]
  }

  // ----- What the loops keep -----

  /** Whoever shares a type with a placed piece is placed, too. */
  ghost predicate Closed(equ: map<nat, Stack>, rest: seq<nat>, done: map<nat, Stack>) {
    (forall e :: e in done ==> e in equ) &&
    forall f, e :: f in done && e in rest && e in equ && equ[e].typeId == equ[f].typeId ==> e in done
  }

  /** The placed pieces have the slots from 1 to p - 1, each its own. */
  ghost predicate Numbering(done: map<nat, Stack>, p: nat) {
    p == 1 + |done| && forall e :: e in done ==> 1 <= done[e].pos < p
  }

  ghost predicate Placing(equ: map<nat, Stack>, rest: seq<nat>, p: nat, done: map<nat, Stack>) {
    && (forall e :: e in rest ==> e in equ) && Distinct(rest)
    && Closed(equ, rest, done) && Numbering(done, p)
  }

  lemma PlacingRest(equ: map<nat, Stack>, rest: seq<nat>, p: nat, done: map<nat, Stack>)
    requires Placing(equ, rest, p, done) && rest != []
    ensures Placing(equ, rest[1..], p, done) && (rest[0] in done ==> 1 <= done[rest[0]].pos < p)
  {
  }

  /** None of the type has been placed. */
  ghost predicate Unplaced(equ: map<nat, Stack>, rest: seq<nat>, typeId: nat, done: map<nat, Stack>) {
    && (forall e :: e in rest ==> e in equ)
    && forall e :: e in rest && equ[e].typeId == typeId ==> e !in done
  }

  /** The group: what was placed stays, and of the rest those of the type come in. */
  ghost predicate GroupAdded(equ: map<nat, Stack>, rest: seq<nat>, typeId: nat, done: map<nat, Stack>,
                             done': map<nat, Stack>)
    requires forall e :: e in rest ==> e in equ
  {
    && (forall e :: e in done' <==> e in done || (e in rest && equ[e].typeId == typeId))
    && forall e :: e in done ==> done'[e] == done[e]
  }

  lemma NumberOne(done: map<nat, Stack>, p: nat, e: nat, s: Stack)
    requires Numbering(done, p) && e !in done && s.pos == p
    ensures Numbering(done[e := s], p + 1)
  {
    assert done[e := s].Keys == done.Keys + {e};
  }

  lemma {:induction false} PlaceTypeAdds(equ: map<nat, Stack>, rest: seq<nat>, typeId: nat, p: nat,
                                         done: map<nat, Stack>)
    requires Unplaced(equ, rest, typeId, done) && Distinct(rest) && Numbering(done, p)
    ensures var r := PlaceType(equ, rest, typeId, p, done);
            GroupAdded(equ, rest, typeId, done, r.done) && Numbering(r.done, r.next) && p <= r.next
    decreases |rest|
  {
    if rest != [] {
      if equ[rest[0]].typeId == typeId {
        var s := equ[rest[0]].(pos := p);
        NumberOne(done, p, rest[0], s);
        PlaceTypeAdds(equ, rest[1..], typeId, p + 1, done[rest[0] := s]);
      } else {
        PlaceTypeAdds(equ, rest[1..], typeId, p, done);
      }
    }
  }

  /** One round of the outer loop that places a group. */
  lemma GroupKeeps(equ: map<nat, Stack>, rest: seq<nat>, p: nat, done: map<nat, Stack>)
    requires Placing(equ, rest, p, done) && rest != [] && rest[0] !in done
    ensures var typeId := equ[rest[0]].typeId;
            var r := PlaceType(equ, rest, typeId, p, done);
            && Unplaced(equ, rest, typeId, done) && GroupAdded(equ, rest, typeId, done, r.done) && p <= r.next
            && Placing(equ, rest[1..], r.next, r.done)
  {
    var typeId := equ[rest[0]].typeId;
    assert Unplaced(equ, rest, typeId, done);
    PlaceTypeAdds(equ, rest, typeId, p, done);
  }

  /** A placed piece is never placed again, and nobody in the rest that counts as placed is placed later. */
  lemma {:induction false} PlaceAllKeeps(equ: map<nat, Stack>, rest: seq<nat>, p: nat, done: map<nat, Stack>)
    requires Placing(equ, rest, p, done)
    ensures var r := PlaceAll(equ, rest, p, done);
            && (forall e :: e in done ==> e in r.done && r.done[e] == done[e])
            && (forall e :: e in r.done ==> e in done || e in rest)
            && (forall e :: e in r.done ==> e in equ) && Numbering(r.done, r.next) && p <= r.next
    decreases |rest|
  {
    if rest != [] {
      if 1 <= Current(equ, done, rest[0]).pos < p {
        PlaceAllKeeps(equ, rest[1..], p, done);
      } else {
        GroupKeeps(equ, rest, p, done);
        var group := PlaceType(equ, rest, equ[rest[0]].typeId, p, done);
        PlaceAllKeeps(equ, rest[1..], group.next, group.done);
      }
    }
  }

  /** Only the positions of the pieces change. */
  ghost predicate OnlyMoved(equ: map<nat, Stack>, done: map<nat, Stack>) {
    forall e :: e in done ==> e in equ && done[e] == equ[e].(pos := done[e].pos)
  }

  lemma {:induction false} PlaceTypeMoves(equ: map<nat, Stack>, rest: seq<nat>, typeId: nat, p: nat,
                                          done: map<nat, Stack>)
    requires (forall e :: e in rest ==> e in equ) && OnlyMoved(equ, done)
    ensures OnlyMoved(equ, PlaceType(equ, rest, typeId, p, done).done)
    decreases |rest|
  {
    if rest != [] {
      if equ[rest[0]].typeId == typeId {
        PlaceTypeMoves(equ, rest[1..], typeId, p + 1, done[rest[0] := equ[rest[0]].(pos := p)]);
      } else {
        PlaceTypeMoves(equ, rest[1..], typeId, p, done);
      }
    }
  }

  lemma {:induction false} PlaceAllMoves(equ: map<nat, Stack>, rest: seq<nat>, p: nat, done: map<nat, Stack>)
    requires (forall e :: e in rest ==> e in equ) && OnlyMoved(equ, done)
    ensures OnlyMoved(equ, PlaceAll(equ, rest, p, done).done)
    decreases |rest|
  {
    if rest != [] {
      if 1 <= Current(equ, done, rest[0]).pos < p {
        PlaceAllMoves(equ, rest[1..], p, done);
      } else {
        var group := PlaceType(equ, rest, equ[rest[0]].typeId, p, done);
        PlaceTypeMoves(equ, rest, equ[rest[0]].typeId, p, done);
        PlaceAllMoves(equ, rest[1..], group.next, group.done);
      }
    }
  }

  // ----- Rows -----

  /** The pieces carry their numbers, and there is a slot for each. */
  ghost predicate Carried(equ: map<nat, Stack>, last: nat) {
    && 1 + |equ| <= SLOT_COUNT && EQUIPMENT_ID <= last
    && forall e :: e in equ ==> EQUIPMENT_ID <= e <= last && equ[e].goodsId == e && equ[e].pos >= 1
  }

  /** The rows are the pieces placed so far. */
  ghost predicate RowsArePlaced(done: map<nat, Stack>, p: nat, last: nat, t: Table) {
    Agrees(Bag(map[], done, Filled(p), last), t)
  }

  predicate CanPlace(done: map<nat, Stack>, p: nat, last: nat, s: Stack) {
    s.goodsId !in done && 1 <= p < SLOT_COUNT && s.pos == p && EQUIPMENT_ID <= s.goodsId <= last
  }

  /** A relation between what is placed, the next slot and the rows. */
  type Relation = (map<nat, Stack>, nat, Table) -> bool

  /** No further piece breaks it. */
  ghost predicate SurvivesPlacing(R: Relation, last: nat) {
    forall done, p: nat, t, s :: R(done, p, t) && CanPlace(done, p, last, s) ==>
      R(done[s.goodsId := s], p + 1, ApplyAll(t, [Insert(s)]))
  }

  ghost predicate HasSlot(done: map<nat, Stack>, q: nat) {
    exists f :: f in done && done[f].pos == q
  }

  /** Every slot given out has its piece. */
  ghost predicate FillsSlots(R: Relation) {
    forall done, p: nat, t, q: nat :: R(done, p, t) && 1 <= q < p <= SLOT_COUNT ==> HasSlot(done, q)
  }

  lemma PlaceOneAgrees(done: map<nat, Stack>, p: nat, last: nat, t: Table, s: Stack)
    requires RowsArePlaced(done, p, last, t) && CanPlace(done, p, last, s)
    ensures RowsArePlaced(done[s.goodsId := s], p + 1, last, ApplyAll(t, [Insert(s)]))
  {
    InsertRow(t, s);
    SlotTaken(Filled(p), t, s);
    assert Filled(p)[p := NonEmpty] == Filled(p + 1);
    assert EquipmentAgrees(done[s.goodsId := s], last, t[p := s]);
  }

  lemma SlotIsPlaced(done: map<nat, Stack>, p: nat, last: nat, t: Table, q: nat)
    requires RowsArePlaced(done, p, last, t) && 1 <= q < p <= SLOT_COUNT
    ensures HasSlot(done, q)
  {
    assert Filled(p)[q] == NonEmpty;
    assert done[t[q].goodsId].pos == q;
  }

  /** RowsArePlaced, as a relation. */
  ghost function PlacedRows(last: nat): Relation {
    (done, p, t) => RowsArePlaced(done, p, last, t)
  }

  lemma PlacedRowsSurvive(last: nat)
    ensures SurvivesPlacing(PlacedRows(last), last) && FillsSlots(PlacedRows(last))
  {
    forall done, p: nat, t, s | RowsArePlaced(done, p, last, t) && CanPlace(done, p, last, s)
      ensures RowsArePlaced(done[s.goodsId := s], p + 1, last, ApplyAll(t, [Insert(s)]))
    {
      PlaceOneAgrees(done, p, last, t, s);
    }
    forall done, p: nat, t, q: nat | RowsArePlaced(done, p, last, t) && 1 <= q < p <= SLOT_COUNT
      ensures HasSlot(done, q)
    {
      SlotIsPlaced(done, p, last, t, q);
    }
  }

  lemma Smaller(done: map<nat, Stack>, equ: map<nat, Stack>, e: nat)
    requires (forall x :: x in done ==> x in equ) && e in equ && e !in done
    ensures |done| < |equ|
  {
    assert equ.Keys == done.Keys + (equ.Keys - done.Keys);
    assert e in equ.Keys - done.Keys;
  }

  lemma {:induction false} PlaceTypeRows(R: Relation, equ: map<nat, Stack>, rest: seq<nat>, typeId: nat, p: nat,
                                         done: map<nat, Stack>, last: nat, t: Table)
    requires SurvivesPlacing(R, last) && R(done, p, t) && Carried(equ, last) && forall e :: e in done ==> e in equ
    requires Unplaced(equ, rest, typeId, done) && Distinct(rest) && Numbering(done, p)
    ensures var r := PlaceType(equ, rest, typeId, p, done);
            R(r.done, r.next, ApplyAll(t, r.changes))
    decreases |rest|
  {
    if rest != [] {
      if equ[rest[0]].typeId == typeId {
        var s := equ[rest[0]].(pos := p);
        Smaller(done, equ, rest[0]);
        NumberOne(done, p, rest[0], s);
        assert CanPlace(done, p, last, s);
        PlaceTypeRows(R, equ, rest[1..], typeId, p + 1, done[rest[0] := s], last, ApplyAll(t, [Insert(s)]));
        ApplyAllConcat(t, [Insert(s)], PlaceType(equ, rest[1..], typeId, p + 1, done[rest[0] := s]).changes);
      } else {
        PlaceTypeRows(R, equ, rest[1..], typeId, p, done, last, t);
      }
    }
  }

  // ----- Who is overtaken -----

  /** All pieces of the types that the iterator has met before index k. */
  ghost function Behind(equ: map<nat, Stack>, order: seq<nat>, k: nat): set<nat>
    requires k <= |order| && forall e :: e in order ==> e in equ
  {
    set e | e in equ && exists i :: 0 <= i < k && equ[order[i]].typeId == equ[e].typeId
  }

  /** The first piece of its type lies in one of the slots that those before it are given. */
  ghost predicate Overtaken(equ: map<nat, Stack>, order: seq<nat>, k: nat)
    requires k < |order| && forall e :: e in order ==> e in equ
  {
    order[k] !in Behind(equ, order, k) && equ[order[k]].pos <= |Behind(equ, order, k)|
  }

  ghost predicate SomeoneIsOvertaken(equ: map<nat, Stack>, order: seq<nat>, from: nat)
    requires forall e :: e in order ==> e in equ
  {
    exists k :: from <= k < |order| && Overtaken(equ, order, k)
  }

  /** Two pieces in each other's places, of different types: the second finds its slot given to the first. */
  lemma SecondPieceIsOvertaken(e: nat, f: nat, typeE: nat, typeF: nat)
    requires e != f && typeE != typeF
    ensures SomeoneIsOvertaken(map[e := Stack(e, typeE, 1, 2), f := Stack(f, typeF, 1, 1)], [e, f], 0)
  {
    var equ := map[e := Stack(e, typeE, 1, 2), f := Stack(f, typeF, 1, 1)];
    assert equ[[e, f][0]].typeId == typeE;
    assert Behind(equ, [e, f], 1) == {e};
    assert Overtaken(equ, [e, f], 1);
  }

  /** Two pieces in one slot. */
  ghost predicate Clash(equ: map<nat, Stack>) {
    exists e, f :: e in equ && f in equ && e != f && equ[e].pos == equ[f].pos
  }

  lemma AgreementHasNoClash(b: Bag, t: Table)
    requires Agrees(b, t)
    ensures !Clash(b.equ)
  {
    forall e, f | e in b.equ && f in b.equ && b.equ[e].pos == b.equ[f].pos
      ensures e == f
    {
      assert t[b.equ[e].pos].goodsId == e && t[b.equ[f].pos].goodsId == f;
    }
  }

  lemma ClashNeverAgrees(b: Bag)
    requires Clash(b.equ)
    ensures forall t :: !Agrees(b, t)
  {
    forall t | Agrees(b, t)
      ensures false
    {
      AgreementHasNoClash(b, t);
    }
  }

  /** A piece whose slot has been given out keeps it, next to the piece f that has got it. */
  lemma OvertakenClashes(equ: map<nat, Stack>, rest: seq<nat>, p: nat, done: map<nat, Stack>, f: nat)
    requires Placing(equ, rest, p, done) && rest != [] && rest[0] !in done && 1 <= equ[rest[0]].pos < p
    requires f in done && done[f].pos == equ[rest[0]].pos
    ensures Clash(equ + PlaceAll(equ, rest, p, done).done)
  {
    var e, r := rest[0], PlaceAll(equ, rest[1..], p, done);
    PlaceAllKeeps(equ, rest[1..], p, done);
    assert e !in r.done && r.done[f] == done[f];
    var all := equ + r.done;
    assert all[e] == equ[e] && all[f] == done[f];
  }

  lemma BehindNext(equ: map<nat, Stack>, order: seq<nat>, k: nat)
    requires k < |order| && forall e :: e in order ==> e in equ
    ensures Behind(equ, order, k + 1)
         == Behind(equ, order, k) + set e | e in equ && equ[e].typeId == equ[order[k]].typeId
    ensures order[k] in Behind(equ, order, k) ==> Behind(equ, order, k + 1) == Behind(equ, order, k)
  {
  }

  /** The iterator meets every piece once. */
  ghost predicate MeetsAll(order: seq<nat>, equ: map<nat, Stack>) {
    Distinct(order) && forall e :: e in order <==> e in equ
  }

  /** A group that is placed is all there is of its type. */
  lemma GroupIsBehind(equ: map<nat, Stack>, order: seq<nat>, k: nat, p: nat, done: map<nat, Stack>)
    requires MeetsAll(order, equ) && k < |order| && Placing(equ, order[k..], p, done)
    requires done.Keys == Behind(equ, order, k) && order[k] !in done
    ensures PlaceType(equ, order[k..], equ[order[k]].typeId, p, done).done.Keys == Behind(equ, order, k + 1)
  {
    var rest, typeId := order[k..], equ[order[k]].typeId;
    var r := PlaceType(equ, rest, typeId, p, done);
    GroupKeeps(equ, rest, p, done);
    BehindNext(equ, order, k);
    forall e | e in equ && equ[e].typeId == typeId
      ensures e in rest
    {
      var i :| 0 <= i < |order| && order[i] == e;
      assert i >= k;
      assert rest[i - k] == e;
    }
  }

  /** What the loop is to have reached at index k. */
  ghost predicate Reached(R: Relation, equ: map<nat, Stack>, order: seq<nat>, k: nat, p: nat, done: map<nat, Stack>,
                          t: Table) {
    && k <= |order| && Placing(equ, order[k..], p, done) && (forall e :: e in order ==> e in equ)
    && done.Keys == Behind(equ, order, k) && R(done, p, t)
  }

  lemma GroupReaches(R: Relation, equ: map<nat, Stack>, order: seq<nat>, k: nat, p: nat,
                     done: map<nat, Stack>, last: nat, t: Table)
    requires SurvivesPlacing(R, last) && MeetsAll(order, equ) && Carried(equ, last)
    requires Reached(R, equ, order, k, p, done, t) && k < |order| && order[k] !in done
    ensures var r := PlaceType(equ, order[k..], equ[order[k]].typeId, p, done);
            Reached(R, equ, order, k + 1, r.next, r.done, ApplyAll(t, r.changes))
  {
    assert order[k..][1..] == order[k + 1..];
    GroupKeeps(equ, order[k..], p, done);
    GroupIsBehind(equ, order, k, p, done);
    PlaceTypeRows(R, equ, order[k..], equ[order[k]].typeId, p, done, last, t);
  }

  lemma PieceReaches(R: Relation, equ: map<nat, Stack>, order: seq<nat>, k: nat, p: nat, done: map<nat, Stack>,
                     t: Table)
    requires MeetsAll(order, equ) && Reached(R, equ, order, k, p, done, t) && k < |order| && order[k] in done
    ensures Reached(R, equ, order, k + 1, p, done, t) && 1 <= done[order[k]].pos < p
  {
    assert order[k..][0] == order[k] && order[k..][1..] == order[k + 1..];
    PlacingRest(equ, order[k..], p, done);
    BehindNext(equ, order, k);
  }

  lemma OvertakenAt(R: Relation, equ: map<nat, Stack>, order: seq<nat>, k: nat, p: nat,
                    done: map<nat, Stack>, last: nat, t: Table)
    requires FillsSlots(R) && MeetsAll(order, equ) && Carried(equ, last)
    requires Reached(R, equ, order, k, p, done, t) && k < |order| && order[k] !in done && equ[order[k]].pos < p
    ensures Overtaken(equ, order, k) && Clash(equ + PlaceAll(equ, order[k..], p, done).done)
  {
    SubsetCount(done.Keys, equ.Keys);
    assert HasSlot(done, equ[order[k]].pos);
    var f :| f in done && done[f].pos == equ[order[k]].pos;
    OvertakenClashes(equ, order[k..], p, done, f);
  }

  lemma OvertakenFrom(equ: map<nat, Stack>, order: seq<nat>, k: nat)
    requires k < |order| && forall e :: e in order ==> e in equ
    ensures SomeoneIsOvertaken(equ, order, k) <==> Overtaken(equ, order, k) || SomeoneIsOvertaken(equ, order, k + 1)
  {
  }

  /** Either someone is overtaken, and two pieces end in one slot, or all pieces are placed and the rows are
      theirs. */
  ghost predicate PlacedOrClash(R: Relation, equ: map<nat, Stack>, order: seq<nat>, k: nat, r: Placed, t: Table)
    requires forall e :: e in order ==> e in equ
  {
    if SomeoneIsOvertaken(equ, order, k) then Clash(equ + r.done)
    else r.done.Keys == equ.Keys && R(r.done, r.next, ApplyAll(t, r.changes))
  }

  /** A piece or a group placed; what follows decides. */
  lemma PieceDecides(R: Relation, equ: map<nat, Stack>, order: seq<nat>, k: nat, p: nat, done: map<nat, Stack>,
                     t: Table)
    requires MeetsAll(order, equ) && Reached(R, equ, order, k, p, done, t) && k < |order| && order[k] in done
    requires PlacedOrClash(R, equ, order, k + 1, PlaceAll(equ, order[k + 1..], p, done), t)
    ensures PlacedOrClash(R, equ, order, k, PlaceAll(equ, order[k..], p, done), t)
  {
    PieceReaches(R, equ, order, k, p, done, t);
    OvertakenFrom(equ, order, k);
    assert order[k..][0] == order[k] && order[k..][1..] == order[k + 1..];
  }

  lemma GroupDecides(R: Relation, equ: map<nat, Stack>, order: seq<nat>, k: nat, p: nat, done: map<nat, Stack>,
                     t: Table)
    requires MeetsAll(order, equ) && Reached(R, equ, order, k, p, done, t) && k < |order|
    requires order[k] !in done && equ[order[k]].pos >= p
    requires var group := PlaceType(equ, order[k..], equ[order[k]].typeId, p, done);
             PlacedOrClash(R, equ, order, k + 1, PlaceAll(equ, order[k + 1..], group.next, group.done),
                           ApplyAll(t, group.changes))
    ensures PlacedOrClash(R, equ, order, k, PlaceAll(equ, order[k..], p, done), t)
  {
    var group := PlaceType(equ, order[k..], equ[order[k]].typeId, p, done);
    OvertakenFrom(equ, order, k);
    assert order[k..][0] == order[k] && order[k..][1..] == order[k + 1..];
    ApplyAllConcat(t, group.changes, PlaceAll(equ, order[k + 1..], group.next, group.done).changes);
  }

  lemma {:induction false} PlaceAllRows(R: Relation, equ: map<nat, Stack>, order: seq<nat>, k: nat, p: nat,
                                        done: map<nat, Stack>, last: nat, t: Table)
    requires SurvivesPlacing(R, last) && FillsSlots(R) && MeetsAll(order, equ) && Carried(equ, last)
    requires Reached(R, equ, order, k, p, done, t)
    ensures PlacedOrClash(R, equ, order, k, PlaceAll(equ, order[k..], p, done), t)
    decreases |order| - k
  {
    if k == |order| {
      assert done.Keys == equ.Keys;
    } else if order[k] in done {
      PieceReaches(R, equ, order, k, p, done, t);
      PlaceAllRows(R, equ, order, k + 1, p, done, last, t);
      PieceDecides(R, equ, order, k, p, done, t);
    } else if equ[order[k]].pos < p {
      OvertakenAt(R, equ, order, k, p, done, last, t);
    } else {
      var group := PlaceType(equ, order[k..], equ[order[k]].typeId, p, done);
      GroupReaches(R, equ, order, k, p, done, last, t);
      PlaceAllRows(R, equ, order, k + 1, group.next, group.done, last, ApplyAll(t, group.changes));
      GroupDecides(R, equ, order, k, p, done, t);
    }
  }

  /** The whole loop, from a table without rows. */
  lemma PlacingRows(equ: map<nat, Stack>, order: seq<nat>, last: nat)
    requires MeetsAll(order, equ) && Carried(equ, last)
    ensures PlacedOrClash(PlacedRows(last), equ, order, 0, PlaceAll(equ, order, 1, map[]), map[])
  {
    PlacedRowsSurvive(last);
    assert order[0..] == order;
    assert RowsArePlaced(map[], 1, last, map[]);
    PlaceAllRows(PlacedRows(last), equ, order, 0, 1, map[], last, map[]);
  }

  /** Whatever happens, there is a slot for every piece, and pieces only change positions. */
  lemma PlacingFits(equ: map<nat, Stack>, order: seq<nat>)
    requires MeetsAll(order, equ)
    ensures var r := PlaceAll(equ, order, 1, map[]);
            1 <= r.next <= 1 + |equ| && (equ + r.done).Keys == equ.Keys && OnlyMoved(equ, equ + r.done)
  {
    PlaceAllMoves(equ, order, 1, map[]);
    PlaceAllKeeps(equ, order, 1, map[]);
    SubsetCount(PlaceAll(equ, order, 1, map[]).done.Keys, equ.Keys);
  }

  lemma SubsetCount(a: set<nat>, b: set<nat>)
    requires a <= b
    ensures |a| <= |b|
  {
    assert b == a + (b - a);
  }
}
