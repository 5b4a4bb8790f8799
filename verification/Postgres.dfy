// OperationPostgres: changes are queued and written behind, first in first out, for all roles at once.
module Postgres {
  import opened GoodsBag

  /** UpdateGoods. */
  datatype Record = Record(role: nat, change: Change)

  /** t_playergoods, by role and position. */
  type Rows = map<(nat, nat), Stack>

  function Write(rows: Rows, r: Record): Rows {
    match r.change
    case Insert(s) => if (r.role, s.pos) in rows then rows else rows[(r.role, s.pos) := s]
    case Update(s) =>
      var key := (r.role, s.pos);
      if key in rows then rows[key := rows[key].(count := s.count)] else rows
    case Delete(s) => rows - {(r.role, s.pos)}
  }

  function Replay(rows: Rows, queue: seq<Record>): Rows
    decreases |queue|
  {
    if queue == [] then rows else Replay(Write(rows, queue[0]), queue[1..])
  }

  lemma {:induction false} ReplayConcat(rows: Rows, first: seq<Record>, more: seq<Record>)
    ensures Replay(rows, first + more) == Replay(Replay(rows, first), more)
    decreases |first|
  {
    if first == [] {
      assert first + more == more;
    } else {
      assert (first + more)[1..] == first[1..] + more;
      ReplayConcat(Write(rows, first[0]), first[1..], more);
    }
  }

  /** The rows of one role, and its part of the queue. */
  function RoleRows(rows: Rows, role: nat): Table {
    map key | key in rows && key.0 == role :: key.1 := rows[key]
  }

  function RoleLog(queue: seq<Record>, role: nat): seq<Change>
    decreases |queue|
  {
    if queue == [] then []
    else (if queue[0].role == role then [queue[0].change] else []) + RoleLog(queue[1..], role)
  }

  lemma RowAt(rows: Rows, role: nat, p: nat)
    ensures p in RoleRows(rows, role) <==> (role, p) in rows
    ensures (role, p) in rows ==> RoleRows(rows, role)[p] == rows[(role, p)]
  {
    var key := (role, p);
    assert key in rows ==> key.1 in RoleRows(rows, role);
  }

  lemma WriteAt(rows: Rows, r: Record, role: nat, p: nat)
    ensures var after := RoleRows(Write(rows, r), role);
            var want := if r.role == role then Apply(RoleRows(rows, role), r.change) else RoleRows(rows, role);
            (p in after <==> p in want) && (p in after ==> after[p] == want[p])
  {
    RowAt(rows, role, p);
    RowAt(Write(rows, r), role, p);
    match r.change
    case Insert(s) =>
    case Update(s) => RowAt(rows, role, s.pos);
    case Delete(s) =>
  }

  lemma WriteOfRole(rows: Rows, r: Record, role: nat)
    ensures RoleRows(Write(rows, r), role)
         == if r.role == role then Apply(RoleRows(rows, role), r.change) else RoleRows(rows, role)
  {
    var after := RoleRows(Write(rows, r), role);
    var want := if r.role == role then Apply(RoleRows(rows, role), r.change) else RoleRows(rows, role);
    forall p: nat
      ensures (p in after <==> p in want) && (p in after ==> after[p] == want[p])
    {
      WriteAt(rows, r, role, p);
    }
  }

  /** However the changes of several roles interleave, each role ends with its own changes applied in
      the order it made them. */
  lemma {:induction false} ReplayOfRole(rows: Rows, queue: seq<Record>, role: nat)
    ensures RoleRows(Replay(rows, queue), role) == ApplyAll(RoleRows(rows, role), RoleLog(queue, role))
    decreases |queue|
  {
    if queue != [] {
      WriteOfRole(rows, queue[0], role);
      ReplayOfRole(Write(rows, queue[0]), queue[1..], role);
      if queue[0].role == role {
        ApplyAllConcat(RoleRows(rows, role), [queue[0].change], RoleLog(queue[1..], role));
        assert [queue[0].change][1..] == [];
      } else {
        assert [] + RoleLog(queue[1..], role) == RoleLog(queue[1..], role);
      }
    }
  }

  function Records(role: nat, changes: seq<Change>): (r: seq<Record>)
    ensures |r| == |changes|
  {
    seq(|changes|, i requires 0 <= i < |changes| => Record(role, changes[i]))
  }

  lemma {:induction false} RecordsOfRole(role: nat, changes: seq<Change>, other: nat)
    ensures RoleLog(Records(role, changes), other) == if role == other then changes else []
    decreases |changes|
  {
    if changes != [] {
      assert Records(role, changes)[1..] == Records(role, changes[1..]);
      RecordsOfRole(role, changes[1..], other);
    }
  }

  class OperationPostgres {
    var queue: seq<Record>   // m_UpdateGoods
    var rows: Rows

    /** What the rows will be once everything queued has been written. */
    ghost function Eventual(): Rows
      reads this
    {
      Replay(rows, queue)
    }

    constructor (rows: Rows)
      ensures this.rows == rows && queue == [] && Eventual() == rows
    {
      this.rows := rows;
      queue := [];
    }

    method PushUpdateGoods(role: nat, change: Change)
      modifies this`queue
      ensures queue == old(queue) + [Record(role, change)]
      ensures Eventual() == Write(old(Eventual()), Record(role, change))
    {
      queue := queue + [Record(role, change)];
      ReplayConcat(rows, old(queue), [Record(role, change)]);
    }

    /** Some rounds of the endless loop of UpdatePostgresData: writing never changes what is to come,
        and after enough rounds it has come. */
    method UpdatePostgresData(rounds: nat)
      modifies this
      ensures Eventual() == old(Eventual())
      ensures |queue| == if rounds < |old(queue)| then |old(queue)| - rounds else 0
      ensures rounds >= |old(queue)| ==> rows == old(Eventual())
    {
      var i := 0;
      while i < rounds
        invariant i <= rounds && Eventual() == old(Eventual())
        invariant |queue| == if i < |old(queue)| then |old(queue)| - i else 0
      {
        if queue != [] {
          rows, queue := Write(rows, queue[0]), queue[1..];
        }
        i := i + 1;
      }
    }
  }

  /** Queueing the changes of an operation applies them to the rows of its role, and to no others. */
  lemma QueuedChanges(rows: Rows, role: nat, changes: seq<Change>, other: nat)
    ensures RoleRows(Replay(rows, Records(role, changes)), other)
         == if role == other then ApplyAll(RoleRows(rows, role), changes) else RoleRows(rows, other)
  {
    ReplayOfRole(rows, Records(role, changes), other);
    RecordsOfRole(role, changes, other);
  }
}
