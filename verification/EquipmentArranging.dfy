// The equipment part of ArrangeBagGoods, in place.
module EquipmentArranging {
  import opened GoodsBag
  import opened EquipmentArrangement
  import opened OperationGoods

  /** The map with what has been placed, and the slots given out. */
  ghost predicate Equipped(s: PlayerGoods, equ: map<nat, Stack>, p: nat, done: map<nat, Stack>)
    reads s, s.slots
  {
    s.equ == equ + done && s.slots[..] == Filled(p)
  }

  /** There is a slot for every piece, and the positions are slots. */
  ghost predicate Roomy(equ: map<nat, Stack>) {
    1 + |equ| <= SLOT_COUNT && forall e :: e in equ ==> 1 <= equ[e].pos < SLOT_COUNT
  }

  /** One piece gets slot p and is journalled. */
  method PlaceOne(s: PlayerGoods, e: nat, p: nat, ghost equ: map<nat, Stack>, ghost done: map<nat, Stack>)
    requires s.Valid() && Equipped(s, equ, p, done) && e in equ && e !in done && 1 <= p < SLOT_COUNT
    modifies s`equ, s`journal, s.slots
    ensures var r := equ[e].(pos := p);
            Equipped(s, equ, p + 1, done[e := r]) && s.journal == old(s.journal) + [Insert(r)]
  {
    s.equ := s.equ[e := s.equ[e].(pos := p)];
    s.slots[p] := NonEmpty;
    s.PushUpdateGoods(Insert(s.equ[e]));
    assert s.equ == equ + done[e := equ[e].(pos := p)];
  }

  // ----- The inner loop -----

  ghost predicate GroupOpen(equ: map<nat, Stack>, rest: seq<nat>, typeId: nat, p: nat, done: map<nat, Stack>) {
    Unplaced(equ, rest, typeId, done) && Distinct(rest) && Numbering(done, p) && OnlyMoved(equ, done) && Roomy(equ)
  }

  /** What is placed and journalled, with what the rest of the loop adds, makes the whole. */
  ghost predicate GroupLeads(whole: Placed, before: seq<Change>, journal: seq<Change>, equ: map<nat, Stack>,
                             rest: seq<nat>, typeId: nat, p: nat, done: map<nat, Stack>)
    requires forall e :: e in rest ==> e in equ
  {
    var r := PlaceType(equ, rest, typeId, p, done);
    whole.done == r.done && whole.next == r.next && before + whole.changes == journal + r.changes
  }

  lemma GroupGoesOn(whole: Placed, before: seq<Change>, journal: seq<Change>, equ: map<nat, Stack>,
                    rest: seq<nat>, typeId: nat, p: nat, done: map<nat, Stack>)
    requires rest != [] && GroupOpen(equ, rest, typeId, p, done)
    requires GroupLeads(whole, before, journal, equ, rest, typeId, p, done)
    ensures if equ[rest[0]].typeId == typeId then
              var r := equ[rest[0]].(pos := p);
              && rest[0] !in done && 1 <= p < SLOT_COUNT
              && GroupOpen(equ, rest[1..], typeId, p + 1, done[rest[0] := r])
              && GroupLeads(whole, before, journal + [Insert(r)], equ, rest[1..], typeId, p + 1, done[rest[0] := r])
            else
              && GroupOpen(equ, rest[1..], typeId, p, done)
              && GroupLeads(whole, before, journal, equ, rest[1..], typeId, p, done)
  {
    if equ[rest[0]].typeId == typeId {
      var r := equ[rest[0]].(pos := p);
      Smaller(done, equ, rest[0]);
      NumberOne(done, p, rest[0], r);
      var more := PlaceType(equ, rest[1..], typeId, p + 1, done[rest[0] := r]).changes;
      assert journal + ([Insert(r)] + more) == journal + [Insert(r)] + more;
    }
  }

  ghost predicate GroupUnderway(whole: Placed, before: seq<Change>, journal: seq<Change>, equ: map<nat, Stack>,
                                rest: seq<nat>, typeId: nat, p: nat, done: map<nat, Stack>) {
    GroupOpen(equ, rest, typeId, p, done) && GroupLeads(whole, before, journal, equ, rest, typeId, p, done)
  }

  lemma TypeStays(equ: map<nat, Stack>, done: map<nat, Stack>, e: nat)
    requires OnlyMoved(equ, done) && e in equ
    ensures (equ + done)[e].typeId == equ[e].typeId
  {
  }

  /** One round of the inner loop. */
  method PlaceRound(s: PlayerGoods, e: nat, typeId: nat, p: nat, ghost whole: Placed, ghost before: seq<Change>,
                    ghost equ: map<nat, Stack>, ghost rest: seq<nat>, ghost done: map<nat, Stack>)
    returns (next: nat, ghost placed: map<nat, Stack>)
    requires s.Valid() && Equipped(s, equ, p, done) && rest != [] && rest[0] == e
    requires GroupUnderway(whole, before, s.journal, equ, rest, typeId, p, done)
    modifies s`equ, s`journal, s.slots
    ensures Equipped(s, equ, next, placed)
    ensures GroupUnderway(whole, before, s.journal, equ, rest[1..], typeId, next, placed)
  {
    GroupGoesOn(whole, before, s.journal, equ, rest, typeId, p, done);
    TypeStays(equ, done, e);
    next, placed := p, done;
    if s.equ[e].typeId == typeId {
      PlaceOne(s, e, p, equ, done);
      next, placed := p + 1, done[e := equ[e].(pos := p)];
    }
  }

  lemma GroupIsDone(whole: Placed, before: seq<Change>, journal: seq<Change>, equ: map<nat, Stack>,
                    typeId: nat, p: nat, done: map<nat, Stack>)
    requires GroupUnderway(whole, before, journal, equ, [], typeId, p, done)
    ensures whole.done == done && whole.next == p && journal == before + whole.changes
  {
  }

  /** The pieces of one type, from index k on, where the iterator has met the first. */
  method PlaceGroup(s: PlayerGoods, order: seq<nat>, k: nat, typeId: nat, p: nat,
                    ghost equ: map<nat, Stack>, ghost done: map<nat, Stack>) returns (next: nat)
    requires s.Valid() && Equipped(s, equ, p, done) && k <= |order| && GroupOpen(equ, order[k..], typeId, p, done)
    modifies s`equ, s`journal, s.slots
    ensures var r := PlaceType(equ, order[k..], typeId, p, done);
            Equipped(s, equ, next, r.done) && next == r.next && s.journal == old(s.journal) + r.changes
  {
    ghost var whole, before := PlaceType(equ, order[k..], typeId, p, done), s.journal;
    ghost var placed: map<nat, Stack>, rest := done, order[k..];
    next := p;
    for j := k to |order|
      invariant rest == order[j..] && Equipped(s, equ, next, placed)
      invariant GroupUnderway(whole, before, s.journal, equ, rest, typeId, next, placed)
    {
      next, placed := PlaceRound(s, order[j], typeId, next, whole, before, equ, rest, placed);
      rest := rest[1..];
    }
    GroupIsDone(whole, before, s.journal, equ, typeId, next, placed);
  }

  // ----- The outer loop -----

  ghost predicate AllOpen(equ: map<nat, Stack>, rest: seq<nat>, p: nat, done: map<nat, Stack>) {
    Placing(equ, rest, p, done) && OnlyMoved(equ, done) && Roomy(equ)
  }

  ghost predicate AllLeads(whole: Placed, before: seq<Change>, journal: seq<Change>, equ: map<nat, Stack>,
                           rest: seq<nat>, p: nat, done: map<nat, Stack>)
    requires forall e :: e in rest ==> e in equ
  {
    var r := PlaceAll(equ, rest, p, done);
    whole.done == r.done && whole.next == r.next && before + whole.changes == journal + r.changes
  }

  lemma SkipGoesOn(whole: Placed, before: seq<Change>, journal: seq<Change>, equ: map<nat, Stack>,
                   rest: seq<nat>, p: nat, done: map<nat, Stack>)
    requires rest != [] && AllOpen(equ, rest, p, done) && AllLeads(whole, before, journal, equ, rest, p, done)
    requires 1 <= Current(equ, done, rest[0]).pos < p
    ensures AllOpen(equ, rest[1..], p, done) && AllLeads(whole, before, journal, equ, rest[1..], p, done)
  {
    PlacingRest(equ, rest, p, done);
  }

  lemma GroupOpens(equ: map<nat, Stack>, rest: seq<nat>, p: nat, done: map<nat, Stack>)
    requires rest != [] && AllOpen(equ, rest, p, done) && !(1 <= Current(equ, done, rest[0]).pos < p)
    ensures rest[0] !in done && GroupOpen(equ, rest, equ[rest[0]].typeId, p, done)
  {
    PlacingRest(equ, rest, p, done);
    GroupKeeps(equ, rest, p, done);
  }

  lemma GroupEnds(whole: Placed, before: seq<Change>, journal: seq<Change>, equ: map<nat, Stack>,
                  rest: seq<nat>, p: nat, done: map<nat, Stack>)
    requires rest != [] && AllOpen(equ, rest, p, done) && AllLeads(whole, before, journal, equ, rest, p, done)
    requires !(1 <= Current(equ, done, rest[0]).pos < p)
    ensures var r := PlaceType(equ, rest, equ[rest[0]].typeId, p, done);
            && AllOpen(equ, rest[1..], r.next, r.done)
            && AllLeads(whole, before, journal + r.changes, equ, rest[1..], r.next, r.done)
  {
    var r := PlaceType(equ, rest, equ[rest[0]].typeId, p, done);
    GroupOpens(equ, rest, p, done);
    GroupKeeps(equ, rest, p, done);
    PlaceTypeMoves(equ, rest, equ[rest[0]].typeId, p, done);
    var more := PlaceAll(equ, rest[1..], r.next, r.done).changes;
    assert journal + (r.changes + more) == journal + r.changes + more;
  }

  lemma Bounded(equ: map<nat, Stack>, done: map<nat, Stack>, p: nat)
    requires Roomy(equ) && Numbering(done, p) && OnlyMoved(equ, done)
    ensures p <= SLOT_COUNT
  {
    SubsetCount(done.Keys, equ.Keys);
  }

  /** bagBuff: whether the slot of a piece has been given out. */
  method IsTaken(s: PlayerGoods, e: nat, p: nat, ghost equ: map<nat, Stack>, ghost done: map<nat, Stack>)
    returns (taken: bool)
    requires s.Valid() && Equipped(s, equ, p, done) && e in equ && Roomy(equ) && Numbering(done, p)
             && OnlyMoved(equ, done)
    ensures taken == (1 <= Current(equ, done, e).pos < p)
  {
    Bounded(equ, done, p);
    taken := s.slots[s.equ[e].pos] != Empty;
    assert s.slots[..][s.equ[e].pos] == Filled(p)[s.equ[e].pos];
  }

  ghost predicate AllUnderway(whole: Placed, before: seq<Change>, journal: seq<Change>, equ: map<nat, Stack>,
                              rest: seq<nat>, p: nat, done: map<nat, Stack>) {
    AllOpen(equ, rest, p, done) && AllLeads(whole, before, journal, equ, rest, p, done)
  }

  /** One round of the outer loop. */
  method PieceRound(s: PlayerGoods, order: seq<nat>, k: nat, p: nat, ghost whole: Placed, ghost before: seq<Change>,
                    ghost equ: map<nat, Stack>, ghost done: map<nat, Stack>)
    returns (next: nat, ghost placed: map<nat, Stack>)
    requires s.Valid() && Equipped(s, equ, p, done) && k < |order|
    requires AllUnderway(whole, before, s.journal, equ, order[k..], p, done)
    modifies s`equ, s`journal, s.slots
    ensures Equipped(s, equ, next, placed)
    ensures AllUnderway(whole, before, s.journal, equ, order[k + 1..], next, placed)
  {
    assert order[k..][0] == order[k] && order[k..][1..] == order[k + 1..];
    var taken := IsTaken(s, order[k], p, equ, done);
    if taken {
      SkipGoesOn(whole, before, s.journal, equ, order[k..], p, done);
      next, placed := p, done;
    } else {
      GroupEnds(whole, before, s.journal, equ, order[k..], p, done);
      placed := PlaceType(equ, order[k..], equ[order[k]].typeId, p, done).done;
      GroupOpens(equ, order[k..], p, done);
      TypeStays(equ, done, order[k]);
      next := PlaceGroup(s, order, k, s.equ[order[k]].typeId, p, equ, done);
    }
  }

  lemma AllBegins(equ: map<nat, Stack>, order: seq<nat>, before: seq<Change>)
    requires Roomy(equ) && MeetsAll(order, equ)
    ensures AllUnderway(PlaceAll(equ, order, 1, map[]), before, before, equ, order, 1, map[])
  {
  }

  lemma AllIsDone(whole: Placed, before: seq<Change>, journal: seq<Change>, equ: map<nat, Stack>, p: nat,
                  done: map<nat, Stack>)
    requires AllUnderway(whole, before, journal, equ, [], p, done)
    ensures whole.done == done && whole.next == p && journal == before + whole.changes
  {
  }

  /** order is the order of the iterator over the equipment. A slot that has been given out is in use. */
  method PlaceEquipment(s: PlayerGoods, order: seq<nat>) returns (next: nat)
    requires s.Valid() && s.slots[..] == Filled(1) && Roomy(s.equ) && MeetsAll(order, s.equ)
    modifies s`equ, s`journal, s.slots
    ensures var r := PlaceAll(old(s.equ), order, 1, map[]);
            && s.equ == old(s.equ) + r.done && s.slots[..] == Filled(next) && next == r.next
            && s.journal == old(s.journal) + r.changes
  {
    ghost var equ, before := s.equ, s.journal;
    ghost var done: map<nat, Stack> := map[];
    ghost var whole := PlaceAll(equ, order, 1, done);
    next := 1;
    assert equ + done == equ && order[0..] == order;
    AllBegins(equ, order, before);
    for k := 0 to |order|
      invariant Equipped(s, equ, next, done) && AllUnderway(whole, before, s.journal, equ, order[k..], next, done)
    {
      next, done := PieceRound(s, order, k, next, whole, before, equ, done);
    }
    AllIsDone(whole, before, s.journal, equ, next, done);
  }
}
