// Monsters in their own form: STR_MonsterInfo changes its fields, and the handlers loop over the maps.
module Monsters {
  import opened MonsterState
  import opened MonsterView

  class MonsterInfo {
    const base: nat
    const maxHp: nat
    var hp: nat
    var running: bool
    var moveRate: nat
    var target: nat
    var firstAttacker: nat
    var returning: bool

    ghost function Value(hatred: map<nat, nat>): Monster
      reads this
    {
      Monster(base, maxHp, hp, running, moveRate, target, firstAttacker, returning, hatred)
    }

    constructor (moveRate: nat, maxHp: nat)
      requires 2 * moveRate < WORD
      ensures forall h :: PaceOk(Value(h))
      ensures forall h :: Value(h) == Monster(moveRate, maxHp, maxHp, false, moveRate, 0, 0, false, h)
    {
      this.base, this.maxHp, this.hp, this.moveRate := moveRate, maxHp, maxHp, moveRate;
      running, target, firstAttacker, returning := false, 0, 0, false;
    }

    method ReduceHp(role: nat, damage: nat) returns (left: nat)
      modifies this
      ensures forall h :: Value(h) == MonsterState.ReduceHp(old(Value(h)), role, damage)
      ensures left == hp
    {
      if hp == maxHp {
        firstAttacker := role;
      }
      if hp > damage {
        hp := hp - damage;
      } else {
        hp := 0;
        target := 0;
        firstAttacker := 0;
      }
      left := hp;
    }

    method ChangeHatredRoleid(role: nat)
      modifies this
      ensures forall h :: Value(h) == MonsterState.ChangeHatredRoleid(old(Value(h)), role)
    {
      if role != 0 {
        if !running {
          running := true;
          moveRate := moveRate * 2 % WORD;
        }
      }
      target := role;
    }

    method ChangeAimTimeAndPos(role: nat)
      modifies this
      ensures forall h :: Value(h) == MonsterState.ChangeAimTimeAndPos(old(Value(h)), role)
    {
      target := role;
      if !running {
        running := true;
        moveRate := moveRate * 2 % WORD;
      }
    }

    method MoveToStartPos()
      modifies this
      ensures forall h :: Value(h) == MonsterState.MoveToStartPos(old(Value(h)))
    {
      target := 0;
      firstAttacker := 0;
      returning := true;
    }

    method ChangeMonsterStatus()
      modifies this
      ensures forall h :: Value(h) == MonsterState.ChangeMonsterStatus(old(Value(h)))
    {
      returning := !returning;
      hp := maxHp;
      if running {
        moveRate := moveRate / 2;
        running := false;
      }
    }

    method NewMovePosition()
      modifies this
      ensures forall h :: Value(h) == MonsterState.NewMovePosition(old(Value(h)))
    {
      running := false;
    }

    method ChangeMonsterPos()
      modifies this
      ensures forall h :: Value(h) == MonsterState.ChangeMonsterPos(old(Value(h)))
    {
      running := true;
    }

    method MonsterSpawns()
      modifies this
      ensures forall h :: Value(h) == Spawn(old(Value(h)))
    {
      if running {
        moveRate := moveRate / 2;
        running := false;
      }
      hp := maxHp;
    }
  }

  // ----- One monster and the hatred it bears -----

  /** The loops of SearchNewAim and DeleteOldSearchNewAim. */
  method FindAim(hatred: map<nat, nat>, order: seq<nat>, skip: nat) returns (role: nat)
    requires forall r :: r in order ==> r in hatred && r != 0
    ensures role == NewAim(hatred, order, skip, 0)
  {
    var hatredValue := 0;
    role := 0;
    for k := 0 to |order|
      invariant role == 0 || role in hatred
      invariant hatredValue == if role == 0 then 0 else hatred[role]
      invariant NewAim(hatred, order[k..], skip, role) == NewAim(hatred, order, skip, 0)
    {
      var r := order[k];
      assert order[k..][0] == r && order[k..][1..] == order[k + 1..];
      if r != skip && hatred[r] != 0 && hatred[r] > hatredValue {
        role := r;
        hatredValue := hatred[r];
      }
    }
  }

  method Pursue(m: MonsterInfo, role: nat, late: bool)
    modifies m
    ensures forall h :: m.Value(h) == MonsterState.Pursue(old(m.Value(h)), role, late)
  {
    if late {
      m.ChangeHatredRoleid(role);
    } else {
      m.ChangeAimTimeAndPos(role);
    }
  }

  /** What DamageDealWith does to a monster that survives the blow. */
  method BearBlow(m: MonsterInfo, hatred: map<nat, nat>, role: nat, damage: nat, late: bool) returns (h: map<nat, nat>)
    modifies m
    ensures m.Value(h) == MonsterState.Resent(old(m.Value(hatred)), role, damage, late)
  {
    h := hatred[role := ((if role in hatred then hatred[role] else 0) + damage) % WORD];
    if m.target == role {
      return;
    }
    if m.target == 0 {
      Pursue(m, role, late);
      return;
    }
    h := h[m.target := if m.target in h then h[m.target] else 0];
    if h[role] > h[m.target] {
      Pursue(m, role, late);
    }
  }

  method TakeBlow(m: MonsterInfo, hatred: map<nat, nat>, role: nat, damage: nat, late: bool)
    returns (h: map<nat, nat>, left: nat)
    modifies m
    ensures m.Value(h) == Hit(old(m.Value(hatred)), role, damage, late) && left == m.hp
  {
    left := m.ReduceHp(role, damage);
    h := map[];
    if left > 0 {
      h := BearBlow(m, hatred, role, damage, late);
    }
  }

  /** SearchNewAim and DeleteOldSearchNewAim: hatred is what is left of it once the old target is dealt with. */
  method TakeNewAim(m: MonsterInfo, hatred: map<nat, nat>, order: seq<nat>)
    requires forall x :: x in order ==> x in hatred && x != 0
    modifies m
    ensures m.Value(hatred) == Redirect(old(m.Value(hatred)), NewAim(hatred, order, old(m.target), 0))
  {
    var aim := FindAim(hatred, order, m.target);
    if aim != 0 {
      m.ChangeHatredRoleid(aim);
    } else {
      m.MoveToStartPos();
    }
  }

  /** The pursuit of a living monster with a target. */
  method Chase(m: MonsterInfo, hatred: map<nat, nat>, s: Surroundings) returns (h: map<nat, nat>)
    requires m.hp > 0 && m.target != 0 && 0 !in hatred && (!s.tooFar ==> Orders(m.Value(hatred), s))
    modifies m
    ensures m.Value(h) == MonsterState.Act(old(m.Value(hatred)), s)
  {
    h := hatred;
    if s.tooFar {
      m.MoveToStartPos();
    } else if !s.targetOnline {
      h := h - {m.target};
      if s.zeroed in h {
        h := h[s.zeroed := 0];
      }
      TakeNewAim(m, h, s.order);
    } else if s.targetDead || (s.inReach && s.kills) {
      if m.target in h {
        h := h[m.target := 0];
      }
      TakeNewAim(m, h, s.order);
    } else if !s.inReach {
      m.ChangeMonsterPos();
    }
  }

  /** A monster whose time has come. */
  method LetAct(m: MonsterInfo, hatred: map<nat, nat>, s: Surroundings) returns (h: map<nat, nat>)
    requires 0 !in hatred && (m.hp > 0 && m.target != 0 && !s.tooFar ==> Orders(m.Value(hatred), s))
    modifies m
    ensures m.Value(h) == MonsterState.Act(old(m.Value(hatred)), s)
  {
    h := hatred;
    if m.hp == 0 {
      m.MonsterSpawns();
      h := h + (map r | r in s.near :: 0);
    } else if m.target == 0 {
      if m.returning {
        m.ChangeMonsterStatus();
      }
      m.NewMovePosition();
    } else {
      h := Chase(m, h, s);
    }
  }

  // ----- All monsters -----

  class MonsterMgr {
    var monsters: map<nat, MonsterInfo>     // m_monsterBasic
    var hatred: map<nat, map<nat, nat>>     // m_monsterViewRole
    var seen: map<nat, set<nat>>            // m_viewMonster of every session

    /** Every monster is an object of its own, and has its list. */
    ghost predicate Valid()
      reads this`monsters, this`hatred
    {
      && hatred.Keys == monsters.Keys
      && forall i, j :: i in monsters && j in monsters && i != j ==> monsters[i] != monsters[j]
    }

    ghost function Values(): map<nat, Monster>
      requires Valid()
      reads this`monsters, this`hatred, monsters.Values
    {
      map id | id in monsters :: monsters[id].Value(hatred[id])
    }

    ghost function Value(): World
      requires Valid()
      reads this, monsters.Values
    {
      World(Values(), seen)
    }

    constructor ()
      ensures Valid() && Value() == World(map[], map[])
    {
      monsters, hatred, seen := map[], map[], map[];
    }

    /** Only monster id and its list have changed. */
    twostate lemma OneMonster(id: nat)
      requires old(Valid()) && id in monsters && monsters == old(monsters)
      requires id in hatred && hatred == old(hatred)[id := hatred[id]]
      requires forall i :: i in monsters && i != id ==> unchanged(monsters[i])
      ensures Valid() && Values() == old(Values())[id := monsters[id].Value(hatred[id])]
    {
    }

    method SetView(role: nat, ids: set<nat>)
      requires Valid()
      modifies this`seen
      ensures Value() == SetSeen(old(Value()), role, ids) && seen == old(seen)[role := ids]
    {
      seen := seen[role := ids];
    }

    method SetList(id: nat, h: map<nat, nat>)
      requires Valid() && id in monsters
      modifies this`hatred
      ensures Valid() && Value() == SetMonster(old(Value()), id, old(Value()).monsters[id].(hatred := h))
    {
      hatred := hatred[id := h];
      OneMonster(id);
    }

    method LookAtMonster(role: nat, id: nat, near: bool)
      requires Valid() && role in seen && id in monsters
      modifies this`hatred, this`seen
      ensures Valid() && Value() == LookAt(old(Value()), role, id, near)
    {
      if monsters[id].hp == 0 {
        return;
      }
      if id !in seen[role] {
        if !near {
          return;
        }
        SetView(role, seen[role] + {id});
        SetList(id, hatred[id][role := 0]);
      } else {
        if near {
          return;
        }
        SetList(id, hatred[id] - {role});
        SetView(role, seen[role] - {id});
      }
    }

    /** What is left to look at makes the whole. */
    ghost predicate Looking(whole: World, role: nat, rest: seq<nat>, near: set<nat>)
      reads this, monsters.Values
    {
      && Valid() && role in seen && (forall id :: id in rest ==> id in monsters)
      && Look(Value(), role, rest, near) == whole
    }

    method LookNext(role: nat, id: nat, near: set<nat>, ghost rest: seq<nat>, ghost whole: World)
      requires Looking(whole, role, rest, near) && rest != [] && rest[0] == id
      modifies this`hatred, this`seen
      ensures Looking(whole, role, rest[1..], near)
    {
      LookAtMonster(role, id, id in near);
    }

    method PushViewMonsters(role: nat, order: seq<nat>, near: set<nat>)
      requires Valid() && role in seen && forall id :: id in order ==> id in monsters
      modifies this`hatred, this`seen
      ensures Valid() && Value() == Look(old(Value()), role, order, near)
    {
      ghost var whole, rest := Look(Value(), role, order, near), order;
      for k := 0 to |order|
        invariant rest == order[k..] && Looking(whole, role, rest, near)
      {
        LookNext(role, order[k], near, rest, whole);
        rest := rest[1..];
      }
    }

    method RoleViewDeleteMonster(id: nat, listed: seq<nat>)
      requires Valid()
      modifies this`seen
      ensures Valid() && Value() == Forget(old(Value()), id, listed)
    {
      ghost var rest := listed;
      for k := 0 to |listed|
        invariant Valid() && rest == listed[k..] && Forget(Value(), id, rest) == Forget(old(Value()), id, listed)
      {
        if listed[k] in seen {
          SetView(listed[k], seen[listed[k]] - {id});
        }
        rest := rest[1..];
      }
    }

    /** The monster, and the hatred it bears afterwards. */
    method Strike(role: nat, id: nat, damage: nat, late: bool) returns (left: nat)
      requires Valid() && id in monsters
      modifies this`hatred, monsters[id]
      ensures Valid() && Value() == SetMonster(old(Value()), id, Hit(old(Value()).monsters[id], role, damage, late))
      ensures left == monsters[id].hp
    {
      var h;
      h, left := TakeBlow(monsters[id], hatred[id], role, damage, late);
      hatred := hatred[id := h];
      OneMonster(id);
    }

    method DamageDealWith(role: nat, id: nat, damage: nat, late: bool, listed: seq<nat>)
      requires Valid() && id in monsters
      modifies this`hatred, this`seen, monsters[id]
      ensures Valid() && Value() == Blow(old(Value()), role, id, damage, late, listed)
    {
      ForgetSet(Value(), id, listed, Hit(Value().monsters[id], role, damage, late));
      var left := Strike(role, id, damage, late);
      assert Value().monsters[id].hp == left;
      if left == 0 {
        RoleViewDeleteMonster(id, listed);
      }
    }

    /** A monster that spawns is seen by the roles in range. */
    method Appear(id: nat, near: seq<nat>)
      requires Valid() && id in monsters && forall r :: r in near ==> r in seen
      modifies this`seen
      ensures Valid() && Value() == Notice(old(Value()), id, near)
    {
      ghost var rest := near;
      for k := 0 to |near|
        invariant Valid() && rest == near[k..] && (forall r :: r in rest ==> r in seen)
        invariant Notice(Value(), id, rest) == Notice(old(Value()), id, near)
      {
        SetView(near[k], seen[near[k]] + {id});
        rest := rest[1..];
      }
    }

    method ActOnce(id: nat, s: Surroundings)
      requires Valid() && id in monsters && Named(Value().monsters[id])
      requires var m := Value().monsters[id]; m.hp > 0 && m.target != 0 && !s.tooFar ==> Orders(m, s)
      modifies this`hatred, monsters[id]
      ensures Valid() && Value() == SetMonster(old(Value()), id, MonsterState.Act(old(Value()).monsters[id], s))
    {
      var h := LetAct(monsters[id], hatred[id], s);
      hatred := hatred[id := h];
      OneMonster(id);
    }

    /** One monster in a round of Monsteractivity; near are the roles in range, in the order of the iterator
        over the sessions. */
    method Monsteractivity(id: nat, s: Surroundings, near: seq<nat>)
      requires Valid() && id in monsters && Named(Value().monsters[id]) && Fits(Value(), id, s, near)
      modifies this`hatred, this`seen, monsters[id]
      ensures Valid() && Value() == MonsterView.Round(old(Value()), id, s, near)
    {
      NoticeNotices(Value(), id, near);
      assert monsters[id].hp == Value().monsters[id].hp;
      if monsters[id].hp == 0 {
        Appear(id, near);
      }
      ActOnce(id, s);
    }

    /** What is left to leave makes the whole. */
    ghost predicate Leaving(whole: World, role: nat, rest: seq<nat>)
      reads this, monsters.Values
    {
      Valid() && (forall id :: id in rest ==> id in monsters) && Unlist(Value(), role, rest) == whole
    }

    method LeaveNext(role: nat, id: nat, ghost rest: seq<nat>, ghost whole: World)
      requires Leaving(whole, role, rest) && rest != [] && rest[0] == id
      modifies this`hatred
      ensures Leaving(whole, role, rest[1..])
    {
      SetList(id, hatred[id] - {role});
    }

    lemma NobodyLeftToLeave(role: nat, whole: World)
      requires Leaving(whole, role, [])
      ensures Valid() && Value() == whole
    {
    }

    method DropSession(role: nat)
      requires Valid()
      modifies this`seen
      ensures Value() == old(Value()).(seen := old(Value()).seen - {role})
    {
      seen := seen - {role};
    }

    /** DeleteFromMonsterView, and the session is gone. */
    method SavePlayerOfflineData(role: nat, order: seq<nat>)
      requires Valid() && role in seen && forall id :: id in order ==> id in monsters
      modifies this`hatred, this`seen
      ensures Valid() && Value() == Logout(old(Value()), role, order)
    {
      ghost var whole, rest := Unlist(Value(), role, order), order;
      for k := 0 to |order|
        invariant rest == order[k..] && Leaving(whole, role, rest)
      {
        LeaveNext(role, order[k], rest, whole);
        rest := rest[1..];
      }
      NobodyLeftToLeave(role, whole);
      DropSession(role);
    }
  }

  lemma {:induction false} ForgetSet(w: World, id: nat, listed: seq<nat>, m: Monster)
    requires id in w.monsters
    ensures Forget(SetMonster(w, id, m), id, listed) == SetMonster(Forget(w, id, listed), id, m)
    decreases |listed|
  {
    if listed != [] {
      ForgetSet(if listed[0] in w.seen then SetSeen(w, listed[0], w.seen[listed[0]] - {id}) else w, id, listed[1..], m);
    }
  }
}
