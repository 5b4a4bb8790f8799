// Who sees whom: PlayerLogin::SendViewRole and SendOffLineToViewRole, with the moves that call them.
module Visibility {
  const PLAYER_VIEW := 1000.0
  const REFRESH_DISTANCE := 100.0

  datatype Position = Position(x: real, y: real, z: real)

  function DistanceSquared(p: Position, q: Position): real {
    (p.x - q.x) * (p.x - q.x) + (p.y - q.y) * (p.y - q.y) + (p.z - q.z) * (p.z - q.z)
  }

  /** caculateDistanceWithRole */
  predicate InView(p: Position, q: Position) {
    DistanceSquared(p, q) <= PLAYER_VIEW * PLAYER_VIEW
  }

  lemma SquareOfDifference(a: real, b: real)
    ensures (a - b) * (a - b) == (b - a) * (b - a)
  {
  }

  lemma InViewIsMutual(p: Position, q: Position)
    ensures InView(p, q) <==> InView(q, p)
  {
    SquareOfDifference(p.x, q.x);
    SquareOfDifference(p.y, q.y);
    SquareOfDifference(p.z, q.z);
  }

  /** What visibility needs of a Session: view is m_viewRole, connections by role; start is m_StartPos. */
  datatype Viewer = Viewer(role: nat, pos: Position, start: Position, view: map<nat, nat>)

  type Sessions = map<nat, Viewer>

  function See(s: Sessions, a: nat, b: nat): Sessions
    requires a in s && b in s
  {
    s[a := s[a].(view := s[a].view[s[b].role := b])]
  }

  function Unsee(s: Sessions, a: nat, b: nat): Sessions
    requires a in s && b in s
  {
    s[a := s[a].(view := s[a].view - {s[b].role})]
  }

  predicate Sees(s: Sessions, a: nat, b: nat)
    requires a in s && b in s
  {
    s[b].role in s[a].view
  }

  // ----- Refreshing -----

  function RefreshPair(s: Sessions, mover: nat, other: nat, near: bool): (r: Sessions)
    requires mover in s && other in s
    ensures r.Keys == s.Keys
  {
    if near then
      if Sees(s, mover, other) then s else See(See(s, mover, other), other, mover)
    else
      if Sees(s, mover, other) then Unsee(Unsee(s, mover, other), other, mover) else s
  }

  /** One round of SendViewRole: the mover against one other session. */
  function RefreshOne(s: Sessions, mover: nat, other: nat): (r: Sessions)
    requires mover in s && other in s
    ensures r.Keys == s.Keys
  {
    if other == mover then s else RefreshPair(s, mover, other, InView(s[mover].pos, s[other].pos))
  }

  /** SendViewRole: order is the order in which the map's iterator meets the sessions. */
  function Refresh(s: Sessions, mover: nat, order: seq<nat>): (r: Sessions)
    requires mover in s && forall o :: o in order ==> o in s
    ensures r.Keys == s.Keys
    decreases |order|
  {
    if order == [] then s else Refresh(RefreshOne(s, mover, order[0]), mover, order[1..])
  }

  // ----- The invariant -----

  ghost predicate DistinctRoles(s: Sessions) {
    forall a, b :: a in s && b in s && s[a].role == s[b].role ==> a == b
  }

  /** Every role in view is that of another session, under its connection. */
  ghost predicate ViewsAreLive(s: Sessions) {
    forall a, r :: a in s && r in s[a].view ==> s[a].view[r] in s && s[a].view[r] != a && s[s[a].view[r]].role == r
  }

  ghost predicate Symmetric(s: Sessions) {
    forall a, b :: a in s && b in s ==> (Sees(s, a, b) <==> Sees(s, b, a))
  }

  ghost predicate Valid(s: Sessions) {
    DistinctRoles(s) && ViewsAreLive(s) && Symmetric(s)
  }

  /** Neither roles nor positions change. */
  ghost predicate SamePlaces(s: Sessions, t: Sessions) {
    && t.Keys == s.Keys
    && forall a :: a in s ==> t[a].role == s[a].role && t[a].pos == s[a].pos && t[a].start == s[a].start
  }

  /** Only what the mover and the other see of each other has changed. */
  ghost predicate OnlyPairChanged(s: Sessions, t: Sessions, mover: nat, other: nat)
    requires SamePlaces(s, t)
  {
    forall a, b :: a in s && b in s && !(a == mover && b == other) && !(a == other && b == mover) ==>
        (Sees(t, a, b) <==> Sees(s, a, b))
  }

  lemma SeeAddsOne(s: Sessions, a: nat, b: nat)
    requires DistinctRoles(s) && ViewsAreLive(s) && a in s && b in s && a != b
    ensures var t := See(s, a, b);
            && SamePlaces(s, t) && DistinctRoles(t) && ViewsAreLive(t)
            && forall x, y :: x in s && y in s ==> (Sees(t, x, y) <==> (x == a && y == b) || Sees(s, x, y))
  {
  }

  lemma UnseeRemovesOne(s: Sessions, a: nat, b: nat)
    requires DistinctRoles(s) && ViewsAreLive(s) && a in s && b in s && a != b
    ensures var t := Unsee(s, a, b);
            && SamePlaces(s, t) && DistinctRoles(t) && ViewsAreLive(t)
            && forall x, y :: x in s && y in s ==> (Sees(t, x, y) <==> !(x == a && y == b) && Sees(s, x, y))
  {
  }

  lemma SeeBoth(s: Sessions, a: nat, b: nat)
    requires DistinctRoles(s) && ViewsAreLive(s) && a in s && b in s && a != b
    ensures var t := See(See(s, a, b), b, a);
            && SamePlaces(s, t) && OnlyPairChanged(s, t, a, b) && DistinctRoles(t) && ViewsAreLive(t)
            && Sees(t, a, b) && Sees(t, b, a)
  {
    SeeAddsOne(s, a, b);
    SeeAddsOne(See(s, a, b), b, a);
  }

  lemma UnseeBoth(s: Sessions, a: nat, b: nat)
    requires DistinctRoles(s) && ViewsAreLive(s) && a in s && b in s && a != b
    ensures var t := Unsee(Unsee(s, a, b), b, a);
            && SamePlaces(s, t) && OnlyPairChanged(s, t, a, b) && DistinctRoles(t) && ViewsAreLive(t)
            && !Sees(t, a, b) && !Sees(t, b, a)
  {
    UnseeRemovesOne(s, a, b);
    UnseeRemovesOne(Unsee(s, a, b), b, a);
  }

  /** The pair agrees with the distance afterwards, in both directions, and nothing else changes. */
  lemma RefreshPairDecides(s: Sessions, mover: nat, other: nat, near: bool)
    requires Valid(s) && mover in s && other in s && mover != other
    ensures var t := RefreshPair(s, mover, other, near);
            && SamePlaces(s, t) && OnlyPairChanged(s, t, mover, other) && DistinctRoles(t) && ViewsAreLive(t)
            && (Sees(t, mover, other) <==> near) && (Sees(t, other, mover) <==> near)
  {
    if near && !Sees(s, mover, other) {
      SeeBoth(s, mover, other);
    } else if !near && Sees(s, mover, other) {
      UnseeBoth(s, mover, other);
    }
  }

  lemma RefreshOneIsValid(s: Sessions, mover: nat, other: nat)
    requires Valid(s) && mover in s && other in s
    ensures var t := RefreshOne(s, mover, other);
            && Valid(t) && SamePlaces(s, t) && OnlyPairChanged(s, t, mover, other)
            && (mover != other ==> (Sees(t, mover, other) <==> InView(s[mover].pos, s[other].pos)))
  {
    if mover != other {
      var near := InView(s[mover].pos, s[other].pos);
      var t := RefreshPair(s, mover, other, near);
      RefreshPairDecides(s, mover, other, near);
      forall a, b | a in t && b in t
        ensures Sees(t, a, b) <==> Sees(t, b, a)
      {
        assert Sees(s, a, b) <==> Sees(s, b, a);
      }
    }
  }

  /** Only what the mover and those in the order see of each other has changed, and the distance has decided it. */
  ghost predicate Refreshed(s: Sessions, t: Sessions, mover: nat, order: seq<nat>)
    requires SamePlaces(s, t) && mover in s
  {
    && (forall a, b :: a in s && b in s && !(a == mover && b in order) && !(b == mover && a in order) ==>
          (Sees(t, a, b) <==> Sees(s, a, b)))
    && forall o :: o in order && o in s && o != mover ==> (Sees(t, mover, o) <==> InView(s[mover].pos, s[o].pos))
  }

  lemma RefreshedFurther(s: Sessions, s1: Sessions, t: Sessions, mover: nat, order: seq<nat>)
    requires order != [] && mover in s && order[0] in s && SamePlaces(s, s1) && SamePlaces(s1, t)
    requires OnlyPairChanged(s, s1, mover, order[0])
    requires mover != order[0] ==> (Sees(s1, mover, order[0]) <==> InView(s[mover].pos, s[order[0]].pos))
    requires Refreshed(s1, t, mover, order[1..])
    ensures Refreshed(s, t, mover, order)
  {
  }

  /** A refresh keeps visibility mutual, changes nothing between others, and decides every pair it meets. */
  lemma {:induction false} RefreshIsValid(s: Sessions, mover: nat, order: seq<nat>)
    requires Valid(s) && mover in s && forall o :: o in order ==> o in s
    ensures var t := Refresh(s, mover, order);
            Valid(t) && SamePlaces(s, t) && Refreshed(s, t, mover, order)
    decreases |order|
  {
    if order != [] {
      var s1 := RefreshOne(s, mover, order[0]);
      RefreshOneIsValid(s, mover, order[0]);
      RefreshIsValid(s1, mover, order[1..]);
      RefreshedFurther(s, s1, Refresh(s, mover, order), mover, order);
    }
  }

  /** The iterator meets every session. */
  ghost predicate IteratesOver(order: seq<nat>, s: Sessions) {
    forall c :: c in order <==> c in s
  }

  /** All other roles within range: what a recomputation from nothing gives. */
  ghost function RolesInRange(s: Sessions, mover: nat): set<nat>
    requires mover in s
  {
    set o | o in s && o != mover && InView(s[mover].pos, s[o].pos) :: s[o].role
  }

  /** After SendViewRole the mover sees exactly the roles in range. */
  lemma RefreshRecomputes(s: Sessions, mover: nat, order: seq<nat>)
    requires Valid(s) && mover in s && IteratesOver(order, s)
    ensures Refresh(s, mover, order)[mover].view.Keys == RolesInRange(s, mover)
  {
    var t := Refresh(s, mover, order);
    RefreshIsValid(s, mover, order);
    forall r
      ensures r in t[mover].view <==> r in RolesInRange(s, mover)
    {
      if r in t[mover].view {
        var o := t[mover].view[r];
        assert Sees(t, mover, o) && o in order && t[o].role == r;
      }
      if r in RolesInRange(s, mover) {
        var o :| o in s && o != mover && InView(s[mover].pos, s[o].pos) && s[o].role == r;
        assert Sees(t, mover, o);
      }
    }
  }

  // ----- Moving, coming and going -----

  /** PlayerMove, and PlayerPositionMove with the position it works out: the start point that decides the next
      refresh only ever follows x. */
  function Move(s: Sessions, c: nat, pos: Position, order: seq<nat>): Sessions
    requires c in s && forall o :: o in order ==> o in s
  {
    var moved := s[c := s[c].(pos := pos)];
    if DistanceSquared(s[c].start, pos) >= REFRESH_DISTANCE * REFRESH_DISTANCE then
      Refresh(moved[c := moved[c].(start := moved[c].start.(x := pos.x))], c, order)
    else moved
  }

  /** A player that has just moved and looked around looks again, without moving, exactly when the rest of its
      position, which the start point does not follow, is far enough from the start point. */
  lemma LooksAgainExactlyWhen(s: Sessions, c: nat, pos: Position)
    requires c in s
    ensures var start := s[c].start.(x := pos.x);
            DistanceSquared(start, pos) >= REFRESH_DISTANCE * REFRESH_DISTANCE <==>
              (start.y - pos.y) * (start.y - pos.y) + (start.z - pos.z) * (start.z - pos.z)
              >= REFRESH_DISTANCE * REFRESH_DISTANCE
  {
    assert pos.x - pos.x == 0.0;
  }

  lemma PlacedIsValid(s: Sessions, c: nat, pos: Position, start: Position)
    requires Valid(s) && c in s
    ensures Valid(s[c := s[c].(pos := pos, start := start)])
  {
    var t := s[c := s[c].(pos := pos, start := start)];
    forall a, b | a in t && b in t
      ensures Sees(t, a, b) <==> Sees(t, b, a)
    {
      assert Sees(s, a, b) <==> Sees(s, b, a);
    }
  }

  lemma MoveIsValid(s: Sessions, c: nat, pos: Position, order: seq<nat>)
    requires Valid(s) && c in s && IteratesOver(order, s)
    ensures Valid(Move(s, c, pos, order))
  {
    PlacedIsValid(s, c, pos, s[c].start);
    var start := s[c].start.(x := pos.x);
    PlacedIsValid(s, c, pos, start);
    assert s[c := s[c].(pos := pos)][c := s[c].(pos := pos, start := start)]
        == s[c := s[c].(pos := pos, start := start)];
    RefreshIsValid(s[c := s[c].(pos := pos, start := start)], c, order);
  }

  /** A role logs in and looks around. */
  function Login(s: Sessions, c: nat, v: Viewer, order: seq<nat>): Sessions
    requires c !in s && v.view == map[] && forall o :: o in order ==> o in s[c := v]
  {
    Refresh(s[c := v], c, order)
  }

  lemma NewcomerIsValid(s: Sessions, c: nat, v: Viewer)
    requires Valid(s) && c !in s && v.view == map[] && forall a :: a in s ==> s[a].role != v.role
    ensures Valid(s[c := v])
  {
    var t := s[c := v];
    forall a, b | a in t && b in t
      ensures Sees(t, a, b) <==> Sees(t, b, a)
    {
      if a != c && b != c {
        assert Sees(s, a, b) <==> Sees(s, b, a);
      } else {
        assert a == c && b != c ==> v.role !in s[b].view;
        assert b == c && a != c ==> v.role !in s[a].view;
      }
    }
  }

  /** SendOffLineToViewRole: order is the order in which the iterator meets those in view. */
  function Offline(s: Sessions, c: nat, order: seq<nat>): (r: Sessions)
    requires c in s && forall o :: o in order ==> o in s
    ensures r.Keys == s.Keys
    decreases |order|
  {
    if order == [] then s else Offline(Unsee(Unsee(s, order[0], c), c, order[0]), c, order[1..])
  }

  lemma {:induction false} OfflineHides(s: Sessions, c: nat, order: seq<nat>)
    requires DistinctRoles(s) && ViewsAreLive(s) && c in s && c !in order && forall o :: o in order ==> o in s
    ensures var t := Offline(s, c, order);
            && SamePlaces(s, t) && DistinctRoles(t) && ViewsAreLive(t)
            && (forall o :: o in order ==> !Sees(t, c, o) && !Sees(t, o, c))
            && forall a, b :: a in s && b in s && !(a == c && b in order) && !(b == c && a in order) ==>
                 (Sees(t, a, b) <==> Sees(s, a, b))
    decreases |order|
  {
    if order != [] {
      var s1 := Unsee(Unsee(s, order[0], c), c, order[0]);
      UnseeBoth(s, order[0], c);
      OfflineHides(s1, c, order[1..]);
    }
  }

  /** Those in view of c, in the order of its iterator. */
  ghost predicate IteratesOverView(order: seq<nat>, s: Sessions, c: nat)
    requires c in s
  {
    (forall o :: o in order ==> o in s && o != c) && forall o :: o in s && Sees(s, c, o) ==> o in order
  }

  function Logout(s: Sessions, c: nat, order: seq<nat>): Sessions
    requires c in s && forall o :: o in order ==> o in s
  {
    Offline(s, c, order) - {c}
  }

  /** After logout no session lists the role. */
  lemma LogoutForgets(s: Sessions, c: nat, order: seq<nat>)
    requires Valid(s) && c in s && IteratesOverView(order, s, c)
    ensures Valid(Logout(s, c, order))
    ensures forall a :: a in Logout(s, c, order) ==> s[c].role !in Logout(s, c, order)[a].view
  {
    var t, u := Offline(s, c, order), Logout(s, c, order);
    OfflineHides(s, c, order);
    forall a | a in s
      ensures !Sees(t, a, c)
    {
      assert Sees(s, a, c) <==> Sees(s, c, a);
    }
    forall a, b | a in u && b in u
      ensures Sees(u, a, b) <==> Sees(u, b, a)
    {
      assert Sees(s, a, b) <==> Sees(s, b, a);
    }
  }

  // ----- What moving, coming and looking around show -----

  /** c sees exactly the roles in range, they see c, and nothing has changed between others. */
  ghost predicate Shown(s: Sessions, t: Sessions, c: nat)
    requires c in s && t.Keys == s.Keys
  {
    && t[c].view.Keys == RolesInRange(t, c)
    && (forall o :: o in s && o != c ==> (Sees(t, o, c) <==> InView(t[c].pos, t[o].pos)))
    && forall a, b :: a in s && b in s && a != c && b != c ==> (Sees(t, a, b) <==> Sees(s, a, b))
  }

  lemma RefreshShows(s: Sessions, c: nat, order: seq<nat>)
    requires Valid(s) && c in s && IteratesOver(order, s)
    ensures SamePlaces(s, Refresh(s, c, order)) && Shown(s, Refresh(s, c, order), c)
  {
    var t := Refresh(s, c, order);
    RefreshIsValid(s, c, order);
    RefreshRecomputes(s, c, order);
    assert RolesInRange(t, c) == RolesInRange(s, c);
    forall o | o in s && o != c
      ensures Sees(t, o, c) <==> InView(t[c].pos, t[o].pos)
    {
      assert Sees(t, o, c) <==> Sees(t, c, o);
    }
  }

  /** A move of 100 units or more from the start point shows the mover exactly the roles in range of where it
      has come to, and it to them; its start point then follows x. A shorter one changes nobody's view. */
  lemma MoveShowsExactlyWhen(s: Sessions, c: nat, pos: Position, order: seq<nat>)
    requires Valid(s) && c in s && IteratesOver(order, s)
    ensures var t := Move(s, c, pos, order);
            && t.Keys == s.Keys && t[c].pos == pos && t[c].role == s[c].role
            && (forall o :: o in s && o != c ==> t[o] == s[o].(view := t[o].view))
            && if DistanceSquared(s[c].start, pos) >= REFRESH_DISTANCE * REFRESH_DISTANCE then
                 Shown(s, t, c) && t[c].start == s[c].start.(x := pos.x)
               else (forall o :: o in s ==> t[o].view == s[o].view) && t[c].start == s[c].start
  {
    if DistanceSquared(s[c].start, pos) >= REFRESH_DISTANCE * REFRESH_DISTANCE {
      var start := s[c].start.(x := pos.x);
      var placed := s[c := s[c].(pos := pos, start := start)];
      PlacedIsValid(s, c, pos, start);
      assert s[c := s[c].(pos := pos)][c := s[c].(pos := pos, start := start)] == placed;
      RefreshShows(placed, c, order);
      ShownBefore(s, placed, Refresh(placed, c, order), c);
    }
  }

  lemma ShownBefore(s: Sessions, s1: Sessions, t: Sessions, c: nat)
    requires c in s && s1.Keys == s.Keys == t.Keys && Shown(s1, t, c)
    requires forall o :: o in s ==> s1[o].view == s[o].view && s1[o].role == s[o].role
    ensures Shown(s, t, c)
  {
    forall a, b | a in s && b in s && a != c && b != c
      ensures Sees(t, a, b) <==> Sees(s, a, b)
    {
      assert Sees(t, a, b) <==> Sees(s1, a, b);
    }
  }

  /** Who logs in is shown exactly the roles in range, and they are shown it. */
  lemma LoginShows(s: Sessions, c: nat, v: Viewer, order: seq<nat>)
    requires Valid(s) && c !in s && v.view == map[] && IteratesOver(order, s[c := v])
    requires forall a :: a in s ==> s[a].role != v.role
    ensures var t := Login(s, c, v, order);
            t.Keys == s.Keys + {c} && SamePlaces(s[c := v], t) && Shown(s[c := v], t, c)
  {
    NewcomerIsValid(s, c, v);
    RefreshShows(s[c := v], c, order);
  }

  /** A logout takes only the one session away, and changes nothing between others. */
  lemma LogoutLeavesOthers(s: Sessions, c: nat, order: seq<nat>)
    requires Valid(s) && c in s && IteratesOverView(order, s, c)
    ensures var u := Logout(s, c, order);
            && u.Keys == s.Keys - {c} && SamePlaces(s - {c}, u)
            && forall a, b :: a in u && b in u ==> (Sees(u, a, b) <==> Sees(s, a, b))
  {
    var t, u := Offline(s, c, order), Logout(s, c, order);
    OfflineHides(s, c, order);
    forall a, b | a in u && b in u
      ensures Sees(u, a, b) <==> Sees(s, a, b)
    {
      assert Sees(t, a, b) <==> Sees(s, a, b);
    }
  }

  // ----- Runs -----

  datatype Event =
    | Comes(c: nat, v: Viewer, order: seq<nat>)
    | Moves(c: nat, pos: Position, order: seq<nat>)
    | Looks(c: nat, order: seq<nat>)
    | Goes(c: nat, order: seq<nat>)

  ghost predicate Possible(s: Sessions, e: Event) {
    match e
    case Comes(c, v, order) =>
      && c !in s && v.view == map[] && (forall a :: a in s ==> s[a].role != v.role)
      && IteratesOver(order, s[c := v])
    case Moves(c, _, order) => c in s && IteratesOver(order, s)
    case Looks(c, order) => c in s && IteratesOver(order, s)
    case Goes(c, order) => c in s && IteratesOverView(order, s, c)
  }

  ghost function Next(s: Sessions, e: Event): Sessions
    requires Possible(s, e)
  {
    match e
    case Comes(c, v, order) => Login(s, c, v, order)
    case Moves(c, pos, order) => Move(s, c, pos, order)
    case Looks(c, order) => Refresh(s, c, order)
    case Goes(c, order) => Logout(s, c, order)
  }

  ghost predicate PossibleRun(s: Sessions, run: seq<Event>)
    decreases |run|
  {
    run == [] || (Possible(s, run[0]) && PossibleRun(Next(s, run[0]), run[1..]))
  }

  ghost function After(s: Sessions, run: seq<Event>): Sessions
    requires PossibleRun(s, run)
    decreases |run|
  {
    if run == [] then s else After(Next(s, run[0]), run[1..])
  }

  lemma NextIsValid(s: Sessions, e: Event)
    requires Valid(s) && Possible(s, e)
    ensures Valid(Next(s, e))
  {
    match e
    case Comes(c, v, order) => NewcomerIsValid(s, c, v); RefreshIsValid(s[c := v], c, order);
    case Moves(c, pos, order) => MoveIsValid(s, c, pos, order);
    case Looks(c, order) => RefreshIsValid(s, c, order);
    case Goes(c, order) => LogoutForgets(s, c, order);
  }

  /** Whoever comes, moves, looks and goes: who is seen sees back, and nobody is seen who has gone. */
  lemma {:induction false} VisibilityStaysMutual(run: seq<Event>, s: Sessions)
    requires Valid(s) && PossibleRun(s, run)
    ensures Valid(After(s, run))
    decreases |run|
  {
    if run != [] {
      NextIsValid(s, run[0]);
      VisibilityStaysMutual(run[1..], Next(s, run[0]));
    }
  }

  // ----- In place -----

  class Viewers {
    var sessions: Sessions

    constructor ()
      ensures sessions == map[]
    {
      sessions := map[];
    }

    method ViewRoleAdd(a: nat, b: nat)
      requires a in sessions && b in sessions
      modifies this
      ensures sessions == See(old(sessions), a, b)
    {
      sessions := sessions[a := sessions[a].(view := sessions[a].view[sessions[b].role := b])];
    }

    method ViewRoleDelete(a: nat, b: nat)
      requires a in sessions && b in sessions
      modifies this
      ensures sessions == Unsee(old(sessions), a, b)
    {
      sessions := sessions[a := sessions[a].(view := sessions[a].view - {sessions[b].role})];
    }

    method Meet(mover: nat, other: nat)
      requires mover in sessions && other in sessions
      modifies this
      ensures sessions == RefreshOne(old(sessions), mover, other)
    {
      if other == mover {
        return;
      }
      if InView(sessions[mover].pos, sessions[other].pos) {
        if sessions[other].role in sessions[mover].view {
          return;
        }
        ViewRoleAdd(mover, other);
        ViewRoleAdd(other, mover);
      } else if sessions[other].role in sessions[mover].view {
        ViewRoleDelete(mover, other);
        ViewRoleDelete(other, mover);
      }
    }

    method SendViewRole(mover: nat, order: seq<nat>)
      requires mover in sessions && forall o :: o in order ==> o in sessions
      modifies this
      ensures sessions == Refresh(old(sessions), mover, order)
    {
      ghost var rest := order;
      for k := 0 to |order|
        invariant rest == order[k..] && mover in sessions && forall o :: o in rest ==> o in sessions
        invariant Refresh(sessions, mover, rest) == Refresh(old(sessions), mover, order)
      {
        Meet(mover, order[k]);
        rest := rest[1..];
      }
    }

    method SendOffLineToViewRole(c: nat, order: seq<nat>)
      requires c in sessions && forall o :: o in order ==> o in sessions
      modifies this
      ensures sessions == Offline(old(sessions), c, order)
    {
      ghost var rest := order;
      for k := 0 to |order|
        invariant rest == order[k..] && c in sessions && forall o :: o in rest ==> o in sessions
        invariant Offline(sessions, c, rest) == Offline(old(sessions), c, order)
      {
        ViewRoleDelete(order[k], c);
        ViewRoleDelete(c, order[k]);
        rest := rest[1..];
      }
    }

    method PlayerMove(c: nat, pos: Position, order: seq<nat>)
      requires c in sessions && forall o :: o in order ==> o in sessions
      modifies this
      ensures sessions == Move(old(sessions), c, pos, order)
    {
      var start := sessions[c].start;
      sessions := sessions[c := sessions[c].(pos := pos)];
      if DistanceSquared(start, pos) >= REFRESH_DISTANCE * REFRESH_DISTANCE {
        sessions := sessions[c := sessions[c].(start := start.(x := pos.x))];
        SendViewRole(c, order);
      }
    }

    /** SavePlayerOfflineData, as far as it concerns the view. */
    method SavePlayerOfflineData(c: nat, order: seq<nat>)
      requires c in sessions && forall o :: o in order ==> o in sessions
      modifies this
      ensures sessions == Logout(old(sessions), c, order)
    {
      SendOffLineToViewRole(c, order);
      sessions := sessions - {c};
    }
  }
}
