// Which roles see which monsters: Monster::PushViewMonsters, the clean-up after a death, spawning and logout.
module MonsterView {
  import opened MonsterState

  /** All monsters by number, and m_viewMonster of every role that is online. */
  datatype World = World(monsters: map<nat, Monster>, seen: map<nat, set<nat>>)

  function SetMonster(w: World, id: nat, m: Monster): World {
    w.(monsters := w.monsters[id := m])
  }

  function SetSeen(w: World, role: nat, ids: set<nat>): World {
    w.(seen := w.seen[role := ids])
  }

  // ----- Looking around -----

  /** One round of PushViewMonsters. */
  function LookAt(w: World, role: nat, id: nat, near: bool): World
    requires role in w.seen && id in w.monsters
  {
    var m := w.monsters[id];
    if m.hp == 0 then w
    else if id !in w.seen[role] then
      if near then SetSeen(SetMonster(w, id, EnterView(m, role)), role, w.seen[role] + {id}) else w
    else
      if near then w else SetSeen(SetMonster(w, id, LeaveView(m, role)), role, w.seen[role] - {id})
  }

  function Look(w: World, role: nat, order: seq<nat>, near: set<nat>): World
    requires role in w.seen && forall id :: id in order ==> id in w.monsters
    decreases |order|
  {
    if order == [] then w else Look(LookAt(w, role, order[0], order[0] in near), role, order[1..], near)
  }

  // ----- Death, spawning, logout -----

  /** RoleViewDeleteMonster: the listed roles that are online forget the monster. */
  function Forget(w: World, id: nat, listed: seq<nat>): World
    decreases |listed|
  {
    if listed == [] then w
    else Forget(if listed[0] in w.seen then SetSeen(w, listed[0], w.seen[listed[0]] - {id}) else w, id, listed[1..])
  }

  /** DamageDealWith; listed are the roles in the monster's map, in the order of its iterator. */
  function Blow(w: World, role: nat, id: nat, damage: nat, late: bool, listed: seq<nat>): World
    requires id in w.monsters
  {
    var m := Hit(w.monsters[id], role, damage, late);
    SetMonster(if m.hp == 0 then Forget(w, id, listed) else w, id, m)
  }

  /** The roles in range of a monster that has just spawned see it. */
  function Notice(w: World, id: nat, near: seq<nat>): World
    requires forall r :: r in near ==> r in w.seen
    decreases |near|
  {
    if near == [] then w else Notice(SetSeen(w, near[0], w.seen[near[0]] + {id}), id, near[1..])
  }

  /** One monster in a round of Monsteractivity. */
  function Round(w: World, id: nat, s: Surroundings, near: seq<nat>): World
    requires id in w.monsters && (forall r :: r in near ==> r in w.seen)
    requires var m := w.monsters[id]; m.hp > 0 && m.target != 0 && !s.tooFar ==> Orders(m, s)
  {
    var m := w.monsters[id];
    SetMonster(if m.hp == 0 then Notice(w, id, near) else w, id, Act(m, s))
  }

  /** DeleteFromMonsterView; order is that of the iterator over the monsters in view. */
  function Unlist(w: World, role: nat, order: seq<nat>): World
    requires forall id :: id in order ==> id in w.monsters
    decreases |order|
  {
    if order == [] then w
    else Unlist(SetMonster(w, order[0], LeaveView(w.monsters[order[0]], role)), role, order[1..])
  }

  function Logout(w: World, role: nat, order: seq<nat>): World
    requires role in w.seen && forall id :: id in order ==> id in w.monsters
  {
    var w1 := Unlist(w, role, order);
    w1.(seen := w1.seen - {role})
  }

  // ----- The invariant -----

  /** Whoever sees a monster is listed by it, and nobody sees a dead one. */
  ghost predicate Listed(w: World) {
    && (forall id :: id in w.monsters ==> w.monsters[id].maxHp > 0)
    && forall role, id :: role in w.seen && id in w.seen[role] ==>
         id in w.monsters && role in w.monsters[id].hatred && w.monsters[id].hp > 0
  }

  lemma LookAtKeepsListed(w: World, role: nat, id: nat, near: bool)
    requires Listed(w) && role in w.seen && id in w.monsters
    ensures var u := LookAt(w, role, id, near);
            && Listed(u) && u.seen.Keys == w.seen.Keys && u.monsters.Keys == w.monsters.Keys
            && (w.monsters[id].hp > 0 ==> (id in u.seen[role] <==> near))
            && (forall x :: x != id ==> (x in u.seen[role] <==> x in w.seen[role]))
            && forall x :: x in w.monsters ==> u.monsters[x].hp == w.monsters[x].hp
  {
  }

  /** After PushViewMonsters the role sees exactly the living monsters in range. */
  lemma {:induction false} LookKeepsListed(w: World, role: nat, order: seq<nat>, near: set<nat>)
    requires Listed(w) && role in w.seen && forall id :: id in order ==> id in w.monsters
    ensures var u := Look(w, role, order, near);
            && Listed(u) && u.seen.Keys == w.seen.Keys && u.monsters.Keys == w.monsters.Keys
            && (forall id :: id in order && w.monsters[id].hp > 0 ==> (id in u.seen[role] <==> id in near))
            && (forall x :: x !in order ==> (x in u.seen[role] <==> x in w.seen[role]))
            && forall x :: x in w.monsters ==> u.monsters[x].hp == w.monsters[x].hp
    decreases |order|
  {
    if order != [] {
      LookAtKeepsListed(w, role, order[0], order[0] in near);
      LookKeepsListed(LookAt(w, role, order[0], order[0] in near), role, order[1..], near);
    }
  }

  lemma {:induction false} ForgetForgets(w: World, id: nat, listed: seq<nat>)
    ensures var u := Forget(w, id, listed);
            && u.monsters == w.monsters && u.seen.Keys == w.seen.Keys
            && forall role, x :: role in w.seen ==>
                 (x in u.seen[role] <==> x in w.seen[role] && !(x == id && role in listed))
    decreases |listed|
  {
    if listed != [] {
      var w1 := if listed[0] in w.seen then SetSeen(w, listed[0], w.seen[listed[0]] - {id}) else w;
      ForgetForgets(w1, id, listed[1..]);
    }
  }

  /** The roles in the monster's map. */
  ghost predicate Enumerates(listed: seq<nat>, m: Monster) {
    forall r :: r in listed <==> r in m.hatred
  }

  lemma HitKeepsList(m: Monster, role: nat, damage: nat, late: bool)
    ensures var h := Hit(m, role, damage, late);
            && h.maxHp == m.maxHp
            && (h.hp == 0 ==> h.hatred == map[])
            && (h.hp > 0 ==> m.hp > 0 && forall r :: r in m.hatred ==> r in h.hatred)
  {
  }

  /** After a blow the views are still listed; if it was the death, nobody online sees the monster, and its
      map is empty. */
  lemma BlowKeepsListed(w: World, role: nat, id: nat, damage: nat, late: bool, listed: seq<nat>)
    requires Listed(w) && id in w.monsters && Enumerates(listed, w.monsters[id])
    ensures var u := Blow(w, role, id, damage, late, listed);
            && Listed(u)
            && (u.monsters[id].hp == 0 ==>
                  u.monsters[id].hatred == map[] && forall r :: r in u.seen ==> id !in u.seen[r])
  {
    HitKeepsList(w.monsters[id], role, damage, late);
    ForgetForgets(w, id, listed);
  }

  lemma ActKeepsList(m: Monster, s: Surroundings)
    requires m.maxHp > 0 && (m.hp > 0 && m.target != 0 && !s.tooFar ==> Orders(m, s))
    ensures var h := Act(m, s);
            && h.maxHp == m.maxHp && h.hp > 0
            && (forall r :: r in m.hatred && (s.targetOnline || r != m.target || m.hp == 0) ==> r in h.hatred)
            && (m.hp == 0 ==> forall r :: r in s.near ==> r in h.hatred)
  {
  }

  lemma {:induction false} NoticeNotices(w: World, id: nat, near: seq<nat>)
    requires forall r :: r in near ==> r in w.seen
    ensures var u := Notice(w, id, near);
            && u.monsters == w.monsters && u.seen.Keys == w.seen.Keys
            && forall role, x :: role in w.seen ==>
                 (x in u.seen[role] <==> x in w.seen[role] || (x == id && role in near))
    decreases |near|
  {
    if near != [] {
      NoticeNotices(SetSeen(w, near[0], w.seen[near[0]] + {id}), id, near[1..]);
    }
  }

  /** What the round finds fits the world: who is online, and who is near. */
  ghost predicate Fits(w: World, id: nat, s: Surroundings, near: seq<nat>)
    requires id in w.monsters
  {
    && (s.targetOnline <==> w.monsters[id].target in w.seen)
    && (forall r :: r in near <==> r in s.near) && (forall r :: r in near ==> r in w.seen)
    && (w.monsters[id].hp > 0 && w.monsters[id].target != 0 && !s.tooFar ==> Orders(w.monsters[id], s))
  }

  lemma RoundKeepsListed(w: World, id: nat, s: Surroundings, near: seq<nat>)
    requires Listed(w) && id in w.monsters && Fits(w, id, s, near)
    ensures Listed(Round(w, id, s, near))
  {
    ActKeepsList(w.monsters[id], s);
    NoticeNotices(w, id, near);
  }

  lemma {:induction false} UnlistUnlists(w: World, role: nat, order: seq<nat>)
    requires forall id :: id in order ==> id in w.monsters
    ensures var u := Unlist(w, role, order);
            && u.seen == w.seen && u.monsters.Keys == w.monsters.Keys
            && forall id :: id in w.monsters ==>
                 && u.monsters[id].hp == w.monsters[id].hp && u.monsters[id].maxHp == w.monsters[id].maxHp
                 && forall r :: r in w.monsters[id].hatred && r != role ==> r in u.monsters[id].hatred
    decreases |order|
  {
    if order != [] {
      UnlistUnlists(SetMonster(w, order[0], LeaveView(w.monsters[order[0]], role)), role, order[1..]);
    }
  }

  lemma LogoutKeepsListed(w: World, role: nat, order: seq<nat>)
    requires Listed(w) && role in w.seen && forall id :: id in order <==> id in w.seen[role]
    ensures Listed(Logout(w, role, order))
  {
    UnlistUnlists(w, role, order);
  }

  // ----- What each of them does -----

  /** How a role's look changes the list of one monster: a role that now sees it comes on the list without
      hatred, and one that no longer sees it goes off. */
  predicate ListFollows(w: World, u: World, role: nat, id: nat)
    requires role in w.seen && role in u.seen && id in w.monsters && id in u.monsters
  {
    if id in u.seen[role] && id !in w.seen[role] then u.monsters[id] == EnterView(w.monsters[id], role)
    else if id !in u.seen[role] && id in w.seen[role] then u.monsters[id] == LeaveView(w.monsters[id], role)
    else u.monsters[id] == w.monsters[id]
  }

  lemma LookAtFollows(w: World, role: nat, id: nat, near: bool)
    requires role in w.seen && id in w.monsters
    ensures var u := LookAt(w, role, id, near);
            && u.seen.Keys == w.seen.Keys && u.monsters.Keys == w.monsters.Keys && ListFollows(w, u, role, id)
            && (forall x :: x != id ==> (x in u.seen[role] <==> x in w.seen[role]))
            && (forall x :: x in w.monsters && x != id ==> u.monsters[x] == w.monsters[x])
            && forall r :: r in w.seen && r != role ==> u.seen[r] == w.seen[r]
  {
  }

  ghost predicate MeetsOnce(order: seq<nat>) {
    forall i, j :: 0 <= i < j < |order| ==> order[i] != order[j]
  }

  /** After PushViewMonsters every monster's list has followed what the role sees, and nobody else sees more or less. */
  lemma {:induction false} LookFollows(w: World, role: nat, order: seq<nat>, near: set<nat>)
    requires role in w.seen && MeetsOnce(order) && forall id :: id in order ==> id in w.monsters
    ensures var u := Look(w, role, order, near);
            && u.seen.Keys == w.seen.Keys && u.monsters.Keys == w.monsters.Keys
            && (forall id :: id in w.monsters ==> ListFollows(w, u, role, id))
            && (forall x :: x !in order ==> (x in u.seen[role] <==> x in w.seen[role]))
            && forall r :: r in w.seen && r != role ==> u.seen[r] == w.seen[r]
    decreases |order|
  {
    if order != [] {
      var v := LookAt(w, role, order[0], order[0] in near);
      LookAtFollows(w, role, order[0], order[0] in near);
      LookFollows(v, role, order[1..], near);
      forall id | id in w.monsters
        ensures ListFollows(w, Look(w, role, order, near), role, id)
      {
        assert ListFollows(v, Look(w, role, order, near), role, id);
      }
    }
  }

  /** A blow changes one monster; who sees what changes only when it dies. */
  lemma BlowStrikesOne(w: World, role: nat, id: nat, damage: nat, late: bool, listed: seq<nat>)
    requires id in w.monsters
    ensures var u := Blow(w, role, id, damage, late, listed);
            && u.monsters == w.monsters[id := Hit(w.monsters[id], role, damage, late)]
            && (w.monsters[id].hp > damage ==> u.seen == w.seen)
  {
    HitTakesPoints(w.monsters[id], role, damage, late);
    ForgetForgets(w, id, listed);
  }

  /** A round changes one monster; the roles in range of one that spawns see it and are on its list, and who sees
      what does not change otherwise. */
  lemma RoundShows(w: World, id: nat, s: Surroundings, near: seq<nat>)
    requires id in w.monsters && Fits(w, id, s, near)
    ensures var u := Round(w, id, s, near);
            && u.monsters == w.monsters[id := Act(w.monsters[id], s)] && u.seen.Keys == w.seen.Keys
            && (w.monsters[id].hp == 0 ==> forall r :: r in near ==> id in u.seen[r] && r in u.monsters[id].hatred)
            && (w.monsters[id].hp > 0 ==> u.seen == w.seen)
  {
    NoticeNotices(w, id, near);
  }

  lemma {:induction false} UnlistTakesOff(w: World, role: nat, order: seq<nat>)
    requires forall id :: id in order ==> id in w.monsters
    ensures var u := Unlist(w, role, order);
            && u.monsters.Keys == w.monsters.Keys
            && (forall id :: id in order ==> role !in u.monsters[id].hatred)
            && forall id :: id in w.monsters && role !in w.monsters[id].hatred ==> role !in u.monsters[id].hatred
    decreases |order|
  {
    if order != [] {
      UnlistTakesOff(SetMonster(w, order[0], LeaveView(w.monsters[order[0]], role)), role, order[1..]);
    }
  }

  /** After a logout the role sees nothing, is on the list of no monster it saw, and nobody else sees less. */
  lemma LogoutTakesOff(w: World, role: nat, order: seq<nat>)
    requires role in w.seen && forall id :: id in order <==> id in w.seen[role]
    requires forall id :: id in order ==> id in w.monsters
    ensures var u := Logout(w, role, order);
            && u.seen == w.seen - {role} && u.monsters.Keys == w.monsters.Keys
            && forall id :: id in w.seen[role] ==> role !in u.monsters[id].hatred
  {
    UnlistUnlists(w, role, order);
    UnlistTakesOff(w, role, order);
  }

  // ----- Runs -----

  datatype Event =
    | Strikes(role: nat, id: nat, damage: nat, late: bool, listed: seq<nat>)
    | Acts(id: nat, s: Surroundings, near: seq<nat>)
    | Looks(role: nat, order: seq<nat>, inRange: set<nat>)
    | Comes(role: nat)
    | Goes(role: nat, order: seq<nat>)

  ghost predicate Possible(w: World, e: Event) {
    match e
    case Strikes(role, id, _, _, listed) => role in w.seen && id in w.monsters && Enumerates(listed, w.monsters[id])
    case Acts(id, s, near) => id in w.monsters && Fits(w, id, s, near)
    case Looks(role, order, _) => role in w.seen && forall id :: id in order <==> id in w.monsters
    case Comes(role) => role !in w.seen
    case Goes(role, order) =>
      && role in w.seen && (forall id :: id in order <==> id in w.seen[role])
      && forall id :: id in order ==> id in w.monsters
  }

  ghost function Next(w: World, e: Event): World
    requires Possible(w, e)
  {
    match e
    case Strikes(role, id, damage, late, listed) => Blow(w, role, id, damage, late, listed)
    case Acts(id, s, near) => Round(w, id, s, near)
    case Looks(role, order, inRange) => Look(w, role, order, inRange)
    case Comes(role) => SetSeen(w, role, {})
    case Goes(role, order) => Logout(w, role, order)
  }

  ghost predicate PossibleRun(w: World, run: seq<Event>)
    decreases |run|
  {
    run == [] || (Possible(w, run[0]) && PossibleRun(Next(w, run[0]), run[1..]))
  }

  ghost function After(w: World, run: seq<Event>): World
    requires PossibleRun(w, run)
    decreases |run|
  {
    if run == [] then w else After(Next(w, run[0]), run[1..])
  }

  lemma NextKeepsListed(w: World, e: Event)
    requires Listed(w) && Possible(w, e)
    ensures Listed(Next(w, e))
  {
    match e
    case Strikes(role, id, damage, late, listed) => BlowKeepsListed(w, role, id, damage, late, listed);
    case Acts(id, s, near) => RoundKeepsListed(w, id, s, near);
    case Looks(role, order, inRange) => LookKeepsListed(w, role, order, inRange);
    case Comes(_) =>
    case Goes(role, order) => LogoutKeepsListed(w, role, order);
  }

  /** In every reachable state whoever sees a monster is listed by it, and nobody sees a dead one. */
  lemma {:induction false} ViewsStayListed(w: World, run: seq<Event>)
    requires Listed(w) && PossibleRun(w, run)
    ensures Listed(After(w, run))
    decreases |run|
  {
    if run != [] {
      NextKeepsListed(w, run[0]);
      ViewsStayListed(Next(w, run[0]), run[1..]);
    }
  }
}
