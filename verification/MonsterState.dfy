// Monster/monsterstruct.h: hit points, target, pace and return of one monster, and the hatred it bears.
module MonsterState {
  const WORD := 0x1_0000_0000

  /** STR_MonsterInfo, without places and times. base is the move rate of the monster's type. */
  datatype Monster = Monster(
    base: nat,
    maxHp: nat,
    hp: nat,
    running: bool,           // ActID is Action_Run, not Action_Walk
    moveRate: nat,
    target: nat,             // hatredRoleid, 0 for none
    firstAttacker: nat,      // roleid
    returning: bool,         // monsterStatus
    hatred: map<nat, nat>)   // m_monsterViewRole: the roles that see it, with their hatred

  // ----- The methods of STR_MonsterInfo -----

  function Run(m: Monster): Monster {
    if m.running then m else m.(running := true, moveRate := m.moveRate * 2 % WORD)
  }

  function Walk(m: Monster): Monster {
    if m.running then m.(running := false, moveRate := m.moveRate / 2) else m
  }

  function ReduceHp(m: Monster, role: nat, damage: nat): Monster {
    var first := if m.hp == m.maxHp then role else m.firstAttacker;
    if m.hp > damage then m.(hp := m.hp - damage, firstAttacker := first)
    else m.(hp := 0, target := 0, firstAttacker := 0)
  }

  function ChangeHatredRoleid(m: Monster, role: nat): Monster {
    (if role != 0 then Run(m) else m).(target := role)
  }

  function ChangeAimTimeAndPos(m: Monster, role: nat): Monster {
    Run(m.(target := role))
  }

  function MoveToStartPos(m: Monster): Monster {
    m.(target := 0, firstAttacker := 0, returning := true)
  }

  function ChangeMonsterStatus(m: Monster): Monster {
    Walk(m.(returning := !m.returning, hp := m.maxHp))
  }

  /** The pace is set to walking, whatever it was. */
  function NewMovePosition(m: Monster): Monster {
    m.(running := false)
  }

  /** The pace is set to running, whatever it was. */
  function ChangeMonsterPos(m: Monster): Monster {
    m.(running := true)
  }

  function Spawn(m: Monster): Monster {
    Walk(m).(hp := m.maxHp)
  }

  // ----- Hatred -----

  function HatredOf(m: Monster, role: nat): nat {
    if role in m.hatred then m.hatred[role] else 0
  }

  /** DamageDealWith; late tells that the monster is about to choose anew. */
  function Hit(m: Monster, role: nat, damage: nat, late: bool): Monster {
    var m1 := ReduceHp(m, role, damage);
    if m1.hp == 0 then m1.(hatred := map[]) else Resent(m1, role, damage, late)
  }

  /** A monster that survives hates the attacker by as much more, and turns to it when it is the most hated. */
  function Resent(m: Monster, role: nat, damage: nat, late: bool): Monster {
    var m1 := m.(hatred := m.hatred[role := (HatredOf(m, role) + damage) % WORD]);
    if m1.target == role then m1
    else if m1.target == 0 then Pursue(m1, role, late)
    else
      var m2 := m1.(hatred := m1.hatred[m1.target := HatredOf(m1, m1.target)]);
      if HatredOf(m2, role) > HatredOf(m2, m2.target) then Pursue(m2, role, late) else m2
  }

  function Pursue(m: Monster, role: nat, late: bool): Monster {
    if late then ChangeHatredRoleid(m, role) else ChangeAimTimeAndPos(m, role)
  }

  /** The role with the greatest hatred, skipping one; order is the order of the map's iterator, best what
      the loop has found so far. */
  function NewAim(hatred: map<nat, nat>, order: seq<nat>, skip: nat, best: nat): nat
    requires forall r :: r in order ==> r in hatred
    requires best == 0 || best in hatred
    decreases |order|
  {
    if order == [] then best
    else
      var r := order[0];
      var value := if best == 0 then 0 else hatred[best];
      NewAim(hatred, order[1..], skip, if r != skip && hatred[r] != 0 && hatred[r] > value then r else best)
  }

  /** A new target, or back to the start. */
  function Redirect(m: Monster, role: nat): Monster {
    if role != 0 then ChangeHatredRoleid(m, role) else MoveToStartPos(m)
  }

  /** SearchNewAim: the old target is forgiven. */
  function SearchNewAim(m: Monster, order: seq<nat>): Monster
    requires forall r :: r in order <==> r in m.hatred
  {
    var forgiven := if m.target in m.hatred then m.(hatred := m.hatred[m.target := 0]) else m;
    Redirect(forgiven, NewAim(forgiven.hatred, order, m.target, 0))
  }

  /** DeleteOldSearchNewAim: the old target is gone, and the entry behind it in the iterator's order is
      zeroed through the iterator. */
  function DeleteOldSearchNewAim(m: Monster, order: seq<nat>, zeroed: nat): Monster
    requires forall r :: r in order <==> (r in m.hatred && r != m.target)
  {
    var rest: map<nat, nat> := m.hatred - {m.target};
    var left := m.(hatred := if zeroed in rest then rest[zeroed := 0] else rest);
    Redirect(left, NewAim(left.hatred, order, m.target, 0))
  }

  // ----- One round of Monsteractivity -----

  /** What the round finds out there, and the order of the iterator over the roles that hate. */
  datatype Surroundings = Surroundings(
    tooFar: bool,          // at the pursuit limit from where the pursuit began
    targetOnline: bool,
    targetDead: bool,
    inReach: bool,
    kills: bool,           // its blow kills the target
    near: set<nat>,        // the roles in range of the place where it spawns
    order: seq<nat>,
    zeroed: nat)

  ghost predicate Orders(m: Monster, s: Surroundings) {
    forall r :: r in s.order <==> (r in m.hatred && (s.targetOnline || r != m.target))
  }

  /** A monster whose time has come. */
  function Act(m: Monster, s: Surroundings): Monster
    requires m.hp > 0 && m.target != 0 && !s.tooFar ==> Orders(m, s)
  {
    if m.hp == 0 then
      var spawned := Spawn(m);
      spawned.(hatred := spawned.hatred + (map r | r in s.near :: 0))
    else if m.target == 0 then
      NewMovePosition(if m.returning then ChangeMonsterStatus(m) else m)
    else if s.tooFar then MoveToStartPos(m)
    else if !s.targetOnline then DeleteOldSearchNewAim(m, s.order, s.zeroed)
    else if s.targetDead then SearchNewAim(m, s.order)
    else if !s.inReach then ChangeMonsterPos(m)
    else if s.kills then SearchNewAim(m, s.order)
    else m
  }

  // ----- Hit points -----

  /** A blow takes as many hit points as it has damage, down to zero; the first of a fight is remembered. */
  lemma HitTakesPoints(m: Monster, role: nat, damage: nat, late: bool)
    ensures var h := Hit(m, role, damage, late);
            && h.hp == (if m.hp > damage then m.hp - damage else 0)
            && h.maxHp == m.maxHp && h.base == m.base
            && (h.hp > 0 ==> h.firstAttacker == if m.hp == m.maxHp then role else m.firstAttacker)
            && (h.hp == 0 ==> h.target == 0 && h.firstAttacker == 0 && h.hatred == map[])
  {
  }

  /** A monster that survives a blow hates the attacker by the damage more, and nobody else by more or less; it
      turns to the attacker exactly when it had no target, or hates the attacker more than the one it had. */
  lemma HitIsResented(m: Monster, role: nat, damage: nat, late: bool)
    requires m.hp > damage && role != 0
    ensures var h := Hit(m, role, damage, late);
            && HatredOf(h, role) == (HatredOf(m, role) + damage) % WORD
            && (forall r :: r != role ==> HatredOf(h, r) == HatredOf(m, r))
            && (h.target == role || h.target == m.target)
            && (h.target == role <==>
                  m.target == role || m.target == 0 || HatredOf(h, role) > HatredOf(m, m.target))
  {
  }

  /** A round restores the hit points of a monster that spawns, or is back at its start, and of no other. */
  lemma ActRestoresExactlyWhen(m: Monster, s: Surroundings)
    requires m.hp > 0 && m.target != 0 && !s.tooFar ==> Orders(m, s)
    ensures Act(m, s).hp == if Restores(m) then m.maxHp else m.hp
    ensures Act(m, s).maxHp == m.maxHp && Act(m, s).base == m.base
  {
  }

  /** It is dead, or back without a target. */
  predicate Restores(m: Monster) {
    m.hp == 0 || (m.target == 0 && m.returning)
  }

  /** What a round decides: who spawns or wanders walks; who has come back is no longer returning; who is too far
      away, or has no one left to hate, returns; a target that has gone, is dead or has just been killed is
      given up; any other is kept, and followed out of reach. */
  lemma ActDecides(m: Monster, s: Surroundings)
    requires Named(m) && 0 !in s.near && (m.hp > 0 && m.target != 0 && !s.tooFar ==> Orders(m, s))
    ensures var a := Act(m, s);
            && (m.hp == 0 ==> !a.running && a.target == m.target && forall r :: r in s.near ==> ListedNow(a, r))
            && (m.hp > 0 && m.target == 0 ==> !a.running && a.target == 0 && !a.returning)
            && (m.hp > 0 && m.target != 0 && s.tooFar ==> a.target == 0 && a.returning && a.hatred == m.hatred)
            && (m.hp > 0 && m.target != 0 && !s.tooFar && GivesUpTarget(s) ==>
                  a.target != m.target && (a.target == 0 ==> a.returning))
            && (m.hp > 0 && m.target != 0 && !s.tooFar && !GivesUpTarget(s) ==>
                  a.target == m.target && a.hatred == m.hatred && (!s.inReach ==> a.running))
  {
    if m.hp > 0 && m.target != 0 && !s.tooFar {
      if s.targetOnline {
        NewAimIsAnother(if m.target in m.hatred then m.hatred[m.target := 0] else m.hatred, s.order, m.target, 0);
      } else {
        var rest: map<nat, nat> := m.hatred - {m.target};
        NewAimIsAnother(if s.zeroed in rest then rest[s.zeroed := 0] else rest, s.order, m.target, 0);
      }
    }
  }

  /** The target is of no more use. */
  predicate GivesUpTarget(s: Surroundings) {
    !s.targetOnline || s.targetDead || (s.inReach && s.kills)
  }

  /** The monster that spawns lists the role, with no hatred. */
  predicate ListedNow(m: Monster, r: nat) {
    r in m.hatred && m.hatred[r] == 0
  }

  lemma {:induction false} NewAimIsAnother(hatred: map<nat, nat>, order: seq<nat>, skip: nat, best: nat)
    requires (forall r :: r in order ==> r in hatred && r != 0) && (best == 0 || best in hatred)
    requires skip != 0 && best != skip
    ensures NewAim(hatred, order, skip, best) != skip
    decreases |order|
  {
    if order != [] {
      var r := order[0];
      var value := if best == 0 then 0 else hatred[best];
      assert forall x :: x in order <==> x == r || x in order[1..];
      NewAimIsAnother(hatred, order[1..], skip, if r != skip && hatred[r] != 0 && hatred[r] > value then r else best);
    }
  }

  // ----- Pace -----

  /** The move rate is the type's, doubled exactly while running; only a living, running monster has a
      target; and one that runs without a target is on its way back. */
  predicate PaceOk(m: Monster) {
    && m.moveRate == (if m.running then 2 * m.base else m.base) && 2 * m.base < WORD
    && m.hp <= m.maxHp
    && (m.target != 0 ==> m.running && m.hp > 0)
    && (m.hp > 0 && m.running && m.target == 0 ==> m.returning)
  }

  /** Doubling and halving the rate undo each other exactly when the doubled rate fits 32 bits. */
  lemma WalkUndoesRunExactlyWhen(m: Monster)
    requires !m.running && m.moveRate < WORD
    ensures Walk(Run(m)) == m <==> 2 * m.moveRate < WORD
  {
  }

  /** What each method of STR_MonsterInfo asks of its caller, so that the pace stays in order: those that set the
      pace alone may only confirm it, a target is for the living, and one who walks or spawns has none. */
  lemma MethodsKeepPaceExactlyWhen(m: Monster, role: nat, damage: nat)
    requires PaceOk(m) && m.base > 0
    ensures PaceOk(ReduceHp(m, role, damage)) && PaceOk(MoveToStartPos(m))
    ensures role != 0 ==> (PaceOk(ChangeHatredRoleid(m, role)) <==> m.hp > 0)
    ensures role != 0 ==> (PaceOk(ChangeAimTimeAndPos(m, role)) <==> m.hp > 0)
    ensures PaceOk(ChangeHatredRoleid(m, 0)) <==> m.hp == 0 || !m.running || m.returning
    ensures PaceOk(ChangeAimTimeAndPos(m, 0)) <==> m.hp == 0 || m.returning
    ensures PaceOk(ChangeMonsterStatus(m)) <==> m.target == 0
    ensures PaceOk(Spawn(m)) <==> m.target == 0
    ensures PaceOk(NewMovePosition(m)) <==> !m.running
    ensures PaceOk(ChangeMonsterPos(m)) <==> m.running
  {
  }

  lemma HitKeepsPace(m: Monster, role: nat, damage: nat, late: bool)
    requires PaceOk(m) && role != 0
    ensures PaceOk(Hit(m, role, damage, late))
  {
  }

  lemma ActKeepsPace(m: Monster, s: Surroundings)
    requires PaceOk(m) && (m.hp > 0 && m.target != 0 && !s.tooFar ==> Orders(m, s))
    ensures PaceOk(Act(m, s))
  {
  }

  // ----- Hatred -----

  /** The target is hated at least as much as anyone else, and without a target nobody is hated. */
  ghost predicate HatesTargetMost(m: Monster) {
    if m.target == 0 then forall r :: r in m.hatred ==> m.hatred[r] == 0
    else m.target in m.hatred && forall r :: r in m.hatred ==> m.hatred[r] <= m.hatred[m.target]
  }

  /** NewAim finds a greatest hatred that is not zero, if there is one. */
  lemma {:induction false} NewAimIsGreatest(hatred: map<nat, nat>, order: seq<nat>, skip: nat, best: nat)
    requires (forall r :: r in order ==> r in hatred && r != 0) && (best == 0 || (best in hatred && hatred[best] > 0))
    ensures var r := NewAim(hatred, order, skip, best);
            && (r == 0 ==> best == 0 && forall x :: x in order && x != skip ==> hatred[x] == 0)
            && (r != 0 ==> r in hatred && hatred[r] > 0 && (r == best || (r in order && r != skip)))
            && (r != 0 && best != 0 ==> hatred[best] <= hatred[r])
            && (r != 0 ==> forall x :: x in order && x != skip ==> hatred[x] <= hatred[r])
    decreases |order|
  {
    if order != [] {
      var r := order[0];
      var value := if best == 0 then 0 else hatred[best];
      var next := if r != skip && hatred[r] != 0 && hatred[r] > value then r else best;
      assert forall x :: x in order <==> x == r || x in order[1..];
      NewAimIsGreatest(hatred, order[1..], skip, next);
    }
  }

  /** Role numbers are not 0. */
  predicate Named(m: Monster) {
    0 !in m.hatred
  }

  lemma SearchNewAimIsGreatest(m: Monster, order: seq<nat>)
    requires Named(m) && m.target != 0 && HatesTargetMost(m) && forall r :: r in order <==> r in m.hatred
    ensures HatesTargetMost(SearchNewAim(m, order))
    ensures SearchNewAim(m, order).target != m.target
  {
    NewAimIsGreatest(m.hatred[m.target := 0], order, m.target, 0);
  }

  lemma DeleteOldIsGreatest(m: Monster, order: seq<nat>, zeroed: nat)
    requires Named(m) && m.target != 0 && forall r :: r in order <==> (r in m.hatred && r != m.target)
    ensures HatesTargetMost(DeleteOldSearchNewAim(m, order, zeroed))
  {
    var rest: map<nat, nat> := m.hatred - {m.target};
    NewAimIsGreatest(if zeroed in rest then rest[zeroed := 0] else rest, order, m.target, 0);
  }

  /** The monster survives a blow of its target, and its hatred of the target wraps to less than that of another. */
  predicate Wraps(m: Monster, role: nat, damage: nat) {
    && m.hp > damage && m.target == role
    && exists r :: r in m.hatred && r != role && m.hatred[r] > (HatredOf(m, role) + damage) % WORD
  }

  /** A blow of anyone but the target keeps the target the most hated, wrapping or not. */
  lemma HitByAnotherHatesMost(m: Monster, role: nat, damage: nat, late: bool)
    requires HatesTargetMost(m) && role != 0 && role != m.target
    ensures HatesTargetMost(Hit(m, role, damage, late))
  {
  }

  lemma HitByTargetHatesMostExactlyWhen(m: Monster, damage: nat, late: bool)
    requires HatesTargetMost(m) && m.target != 0
    ensures HatesTargetMost(Hit(m, m.target, damage, late)) <==> !Wraps(m, m.target, damage)
  {
    var h := Hit(m, m.target, damage, late);
    if Wraps(m, m.target, damage) {
      var r :| r in m.hatred && r != m.target && m.hatred[r] > (HatredOf(m, m.target) + damage) % WORD;
      assert h.hatred[r] > h.hatred[m.target];
    }
  }

  /** A blow keeps the target the most hated unless it comes from the target, the monster survives it, and its
      hatred of the target wraps to less than that of another. */
  lemma HitHatesMostExactlyWhen(m: Monster, role: nat, damage: nat, late: bool)
    requires HatesTargetMost(m) && role != 0
    ensures HatesTargetMost(Hit(m, role, damage, late)) <==> !Wraps(m, role, damage)
  {
    if role == m.target {
      HitByTargetHatesMostExactlyWhen(m, damage, late);
    } else {
      HitByAnotherHatesMost(m, role, damage, late);
    }
  }

  /** Without a wrap there is no such blow. */
  lemma SmallBlowsDoNotWrap(m: Monster, role: nat, damage: nat)
    requires HatesTargetMost(m) && role != 0 && HatredOf(m, role) + damage < WORD
    ensures !Wraps(m, role, damage)
  {
  }

  predicate SomeoneIsHated(m: Monster) {
    exists r :: r in m.hatred && m.hatred[r] > 0
  }

  /** The monster gives up at the pursuit limit. */
  predicate GivesUp(m: Monster, s: Surroundings) {
    m.hp > 0 && m.target != 0 && s.tooFar
  }

  /** A round keeps the target the most hated unless the monster gives up while it still hates someone. */
  lemma ActHatesMostExactlyWhen(m: Monster, s: Surroundings)
    requires Named(m) && HatesTargetMost(m) && (m.hp == 0 ==> m.target == 0)
    requires m.hp > 0 && m.target != 0 && !s.tooFar ==> Orders(m, s)
    ensures HatesTargetMost(Act(m, s)) <==> !(GivesUp(m, s) && SomeoneIsHated(m))
  {
    if m.hp > 0 && m.target != 0 && !s.tooFar {
      if s.targetOnline {
        SearchNewAimIsGreatest(m, s.order);
      } else {
        DeleteOldIsGreatest(m, s.order, s.zeroed);
      }
    }
  }

  /** MonsterViewAddRole and MonsterViewDeleteRole. */
  function EnterView(m: Monster, role: nat): Monster {
    m.(hatred := m.hatred[role := 0])
  }

  function LeaveView(m: Monster, role: nat): Monster {
    m.(hatred := m.hatred - {role})
  }

  /** Coming into view lists a role without hatred, leaving it takes the role off the list, and either leaves
      everything else. */
  lemma ViewChangesOneEntry(m: Monster, role: nat)
    ensures var e, l := EnterView(m, role), LeaveView(m, role);
            && role in e.hatred && e.hatred[role] == 0 && role !in l.hatred
            && (forall r :: r != role ==> (r in e.hatred <==> r in m.hatred) && HatredOf(e, r) == HatredOf(m, r))
            && (forall r :: r != role ==> (r in l.hatred <==> r in m.hatred) && HatredOf(l, r) == HatredOf(m, r))
            && e.(hatred := m.hatred) == m && l.(hatred := m.hatred) == m
  {
  }

  /** A role that comes into view is forgiven, which matters only for a target among others it hates. */
  lemma EnterViewHatesMostExactlyWhen(m: Monster, role: nat)
    requires HatesTargetMost(m)
    ensures HatesTargetMost(EnterView(m, role)) <==>
              !(m.target != 0 && m.target == role && exists r :: r in m.hatred && r != role && m.hatred[r] > 0)
  {
    var h := EnterView(m, role).hatred;
    if m.target != 0 && m.target == role && exists r :: r in m.hatred && r != role && m.hatred[r] > 0 {
      var r :| r in m.hatred && r != role && m.hatred[r] > 0;
      assert h[r] > h[role];
    }
  }

  /** A role that leaves the view is forgotten, which matters only for the target. */
  lemma LeaveViewHatesMostExactlyWhen(m: Monster, role: nat)
    requires HatesTargetMost(m)
    ensures HatesTargetMost(LeaveView(m, role)) <==> m.target == 0 || m.target != role
  {
  }

  // ----- Runs of one monster -----

  datatype Incident =
    | Struck(role: nat, damage: nat, late: bool)
    | Round(s: Surroundings)
    | Seen(role: nat)
    | Lost(role: nat)

  ghost predicate Possible(m: Monster, i: Incident) {
    match i
    case Struck(role, _, _) => role != 0
    case Round(s) => 0 !in s.near && (m.hp > 0 && m.target != 0 && !s.tooFar ==> Orders(m, s))
    case Seen(role) => role != 0
    case Lost(_) => true
  }

  function Undergo(m: Monster, i: Incident): Monster
    requires Possible(m, i)
  {
    match i
    case Struck(role, damage, late) => Hit(m, role, damage, late)
    case Round(s) => Act(m, s)
    case Seen(role) => EnterView(m, role)
    case Lost(role) => LeaveView(m, role)
  }

  /** The incidents that can leave someone more hated than the target. */
  ghost predicate Upsets(m: Monster, i: Incident)
    requires Possible(m, i)
  {
    match i
    case Struck(role, damage, _) => Wraps(m, role, damage)
    case Round(s) => GivesUp(m, s) && SomeoneIsHated(m)
    case Seen(role) => m.target != 0 && m.target == role && exists r :: r in m.hatred && r != role && m.hatred[r] > 0
    case Lost(role) => m.target != 0 && m.target == role
  }

  ghost predicate PossibleRun(m: Monster, run: seq<Incident>, calm: bool)
    decreases |run|
  {
    run == [] || (Possible(m, run[0]) && (calm ==> !Upsets(m, run[0]))
                  && PossibleRun(Undergo(m, run[0]), run[1..], calm))
  }

  ghost function After(m: Monster, run: seq<Incident>, calm: bool): Monster
    requires PossibleRun(m, run, calm)
    decreases |run|
  {
    if run == [] then m else After(Undergo(m, run[0]), run[1..], calm)
  }

  /** Over every run the pace fits: doublings and halvings of the rate always pair up. */
  lemma {:induction false} PaceFitsOverRuns(m: Monster, run: seq<Incident>)
    requires PaceOk(m) && PossibleRun(m, run, false)
    ensures PaceOk(After(m, run, false))
    decreases |run|
  {
    if run != [] {
      match run[0] {
        case Struck(role, damage, late) => HitKeepsPace(m, role, damage, late);
        case Round(s) => ActKeepsPace(m, s);
        case _ =>
      }
      PaceFitsOverRuns(Undergo(m, run[0]), run[1..]);
    }
  }

  /** The damage that a run deals. */
  function DamageOf(run: seq<Incident>): nat {
    if run == [] then 0
    else (match run[0] case Struck(_, damage, _) => damage case _ => 0) + DamageOf(run[1..])
  }

  /** No round of the run restores hit points. */
  ghost predicate IsOneFight(m: Monster, run: seq<Incident>)
    requires PossibleRun(m, run, false)
    decreases |run|
  {
    run == [] || (!(run[0].Round? && Restores(m)) && IsOneFight(Undergo(m, run[0]), run[1..]))
  }

  /** Between two spawns or returns the hit points go down by the damage dealt, to zero at least: so the monster
      lives until the blow with which the sum of the damage reaches the hit points it had, and dies of that. */
  lemma {:induction false} FightTakesPoints(m: Monster, run: seq<Incident>)
    requires PossibleRun(m, run, false) && IsOneFight(m, run)
    ensures After(m, run, false).hp == if m.hp > DamageOf(run) then m.hp - DamageOf(run) else 0
    decreases |run|
  {
    if run != [] {
      match run[0] {
        case Struck(role, damage, late) => HitTakesPoints(m, role, damage, late);
        case Round(s) => ActRestoresExactlyWhen(m, s);
        case _ =>
      }
      FightTakesPoints(Undergo(m, run[0]), run[1..]);
    }
  }

  lemma UndergoKeepsNames(m: Monster, i: Incident)
    requires Named(m) && Possible(m, i) && PaceOk(m)
    ensures Named(Undergo(m, i)) && PaceOk(Undergo(m, i))
  {
    match i
    case Struck(role, damage, late) => HitKeepsPace(m, role, damage, late);
    case Round(s) => ActKeepsPace(m, s);
    case _ =>
  }

  lemma CalmIncidentHatesMost(m: Monster, i: Incident)
    requires Named(m) && HatesTargetMost(m) && PaceOk(m) && Possible(m, i) && !Upsets(m, i)
    ensures HatesTargetMost(Undergo(m, i))
  {
    match i
    case Struck(role, damage, late) => HitHatesMostExactlyWhen(m, role, damage, late);
    case Round(s) => ActHatesMostExactlyWhen(m, s);
    case Seen(role) => EnterViewHatesMostExactlyWhen(m, role);
    case Lost(role) => LeaveViewHatesMostExactlyWhen(m, role);
  }

  /** Over every run without the incidents that upset it, the target is the most hated. */
  lemma {:induction false} TargetIsMostHatedOverRuns(m: Monster, run: seq<Incident>)
    requires Named(m) && HatesTargetMost(m) && PaceOk(m) && PossibleRun(m, run, true)
    ensures HatesTargetMost(After(m, run, true))
    decreases |run|
  {
    if run != [] {
      UndergoKeepsNames(m, run[0]);
      CalmIncidentHatesMost(m, run[0]);
      TargetIsMostHatedOverRuns(Undergo(m, run[0]), run[1..]);
    }
  }
}
