// GameTask/gametask.cpp: a player's accepted tasks, and the index from goods to the tasks that collect them.
module Tasks {
  const EXE_COLLECT_GOODS := 3
  const EXE_UPGRADE := 6

  /** STR_TaskAim: one aim of a task. */
  datatype Aim = Aim(aimId: nat, amount: nat, exeMode: nat)

  /** STR_TaskProcess: how far a player is with one aim. */
  datatype Process = Process(aimId: nat, finished: nat, amount: nat, exeMode: nat)

  /** m_playerAcceptTask and m_taskGoods. */
  datatype TaskState = TaskState(accepted: map<nat, seq<Process>>, index: map<nat, seq<nat>>)

  predicate Collects(p: Process, g: nat) {
    p.exeMode == EXE_COLLECT_GOODS && p.aimId == g
  }

  function Min(a: nat, b: nat): nat {
    if a <= b then a else b
  }

  function ListOf<T>(m: map<nat, seq<T>>, key: nat): seq<T> {
    if key in m then m[key] else []
  }

  // ----- Accepting -----

  /** The count a new aim starts with; have gives what the bag holds. */
  function StartCount(aim: Aim, level: nat, have: nat -> nat): nat {
    if aim.exeMode == EXE_COLLECT_GOODS then (if have(aim.aimId) >= aim.amount then aim.amount else have(aim.aimId))
    else if aim.exeMode == EXE_UPGRADE then (if level > aim.amount then aim.amount else level)
    else 0
  }

  /** AddGoodsTask */
  function AddGoodsTask(index: map<nat, seq<nat>>, g: nat, task: nat): map<nat, seq<nat>> {
    index[g := ListOf(index, g) + [task]]
  }

  function AcceptAim(t: TaskState, task: nat, aim: Aim, level: nat, have: nat -> nat): TaskState {
    var p := Process(aim.aimId, StartCount(aim, level, have), aim.amount, aim.exeMode);
    TaskState(t.accepted[task := ListOf(t.accepted, task) + [p]],
          if aim.exeMode == EXE_COLLECT_GOODS then AddGoodsTask(t.index, aim.aimId, task) else t.index)
  }

  function AcceptAims(t: TaskState, task: nat, aims: seq<Aim>, level: nat, have: nat -> nat): TaskState
    decreases |aims|
  {
    if aims == [] then t else AcceptAims(AcceptAim(t, task, aims[0], level, have), task, aims[1..], level, have)
  }

  /** AskTask: levels are those the tasks ask for, aims their aims. */
  function AskTask(t: TaskState, task: nat, level: nat, levels: map<nat, nat>, aims: map<nat, seq<Aim>>,
                   have: nat -> nat): TaskState {
    if task in t.accepted || task !in levels || level < levels[task] || task !in aims then t
    else AcceptAims(t, task, aims[task], level, have)
  }

  // ----- Quitting -----

  /** Without the first occurrence of the task. */
  function EraseFirst(v: seq<nat>, task: nat): (w: seq<nat>)
  {
    if v == [] then [] else if v[0] == task then v[1..] else [v[0]] + EraseFirst(v[1..], task)
  }

  /** DeleteGoodsTask: an empty entry is removed. */
  function DeleteGoodsTask(index: map<nat, seq<nat>>, g: nat, task: nat): map<nat, seq<nat>> {
    if g !in index then index
    else
      var w := EraseFirst(index[g], task);
      if w == [] then index - {g} else index[g := w]
  }

  function DeleteAims(index: map<nat, seq<nat>>, task: nat, ps: seq<Process>): map<nat, seq<nat>>
    decreases |ps|
  {
    if ps == [] then index
    else
      var first := if ps[0].exeMode == EXE_COLLECT_GOODS then DeleteGoodsTask(index, ps[0].aimId, task) else index;
      DeleteAims(first, task, ps[1..])
  }

  function QuitTask(t: TaskState, task: nat): TaskState {
    if task !in t.accepted then t
    else TaskState(t.accepted - {task}, DeleteAims(t.index, task, t.accepted[task]))
  }

  // ----- The index agrees with the accepted tasks -----

  function Occurrences(v: seq<nat>, task: nat): nat {
    if v == [] then 0 else (if v[0] == task then 1 else 0) + Occurrences(v[1..], task)
  }

  /** How many of the aims collect goods g. */
  function AimsOn(ps: seq<Process>, g: nat): nat {
    if ps == [] then 0 else (if Collects(ps[0], g) then 1 else 0) + AimsOn(ps[1..], g)
  }

  ghost predicate NoEmptyList(index: map<nat, seq<nat>>) {
    forall g :: g in index ==> index[g] != []
  }

  /** Every task is listed under goods g once for each of its aims that collects g, and no list is empty. */
  ghost predicate IndexAgrees(t: TaskState) {
    && (forall g, task :: Occurrences(ListOf(t.index, g), task) == AimsOn(ListOf(t.accepted, task), g))
    && NoEmptyList(t.index)
  }

  lemma {:induction false} OccurrencesConcat(v: seq<nat>, w: seq<nat>, task: nat)
    ensures Occurrences(v + w, task) == Occurrences(v, task) + Occurrences(w, task)
    decreases |v|
  {
    if v == [] {
      assert v + w == w;
    } else {
      assert (v + w)[1..] == v[1..] + w;
      OccurrencesConcat(v[1..], w, task);
    }
  }

  lemma {:induction false} AimsOnConcat(v: seq<Process>, w: seq<Process>, g: nat)
    ensures AimsOn(v + w, g) == AimsOn(v, g) + AimsOn(w, g)
    decreases |v|
  {
    if v == [] {
      assert v + w == w;
    } else {
      assert (v + w)[1..] == v[1..] + w;
      AimsOnConcat(v[1..], w, g);
    }
  }

  lemma {:induction false} EraseFirstTakesOne(v: seq<nat>, task: nat, other: nat)
    ensures Occurrences(EraseFirst(v, task), other)
         == Occurrences(v, other) - if other == task && Occurrences(v, task) > 0 then 1 else 0
    decreases |v|
  {
    if v != [] && v[0] != task {
      EraseFirstTakesOne(v[1..], task, other);
      assert ([v[0]] + EraseFirst(v[1..], task))[1..] == EraseFirst(v[1..], task);
    }
  }

  lemma AcceptAimAgrees(t: TaskState, task: nat, aim: Aim, level: nat, have: nat -> nat)
    requires IndexAgrees(t)
    ensures IndexAgrees(AcceptAim(t, task, aim, level, have))
  {
    var u := AcceptAim(t, task, aim, level, have);
    var p := Process(aim.aimId, StartCount(aim, level, have), aim.amount, aim.exeMode);
    forall g, x
      ensures Occurrences(ListOf(u.index, g), x) == AimsOn(ListOf(u.accepted, x), g)
    {
      OccurrencesConcat(ListOf(t.index, g), [task], x);
      AimsOnConcat(ListOf(t.accepted, x), [p], g);
      assert Occurrences(ListOf(t.index, g), x) == AimsOn(ListOf(t.accepted, x), g);
    }
  }

  lemma {:induction false} AcceptAimsAgrees(t: TaskState, task: nat, aims: seq<Aim>, level: nat, have: nat -> nat)
    requires IndexAgrees(t)
    ensures IndexAgrees(AcceptAims(t, task, aims, level, have))
    decreases |aims|
  {
    if aims != [] {
      AcceptAimAgrees(t, task, aims[0], level, have);
      AcceptAimsAgrees(AcceptAim(t, task, aims[0], level, have), task, aims[1..], level, have);
    }
  }

  /** Taking one aim out of the lists, while the rest of the task is still in them. */
  lemma DeleteOneAgrees(index: map<nat, seq<nat>>, task: nat, p: Process, rest: seq<Process>, g: nat, other: nat)
    requires Occurrences(ListOf(index, g), task) == AimsOn([p] + rest, g)
    ensures var after := if p.exeMode == EXE_COLLECT_GOODS then DeleteGoodsTask(index, p.aimId, task) else index;
            && Occurrences(ListOf(after, g), task) == AimsOn(rest, g)
            && (other != task ==> Occurrences(ListOf(after, g), other) == Occurrences(ListOf(index, g), other))
  {
    AimsOnConcat([p], rest, g);
    EraseFirstTakesOne(ListOf(index, g), task, task);
    EraseFirstTakesOne(ListOf(index, g), task, other);
  }

  /** The task is listed once for each of these aims. */
  ghost predicate ListsTask(index: map<nat, seq<nat>>, task: nat, ps: seq<Process>) {
    forall g :: Occurrences(ListOf(index, g), task) == AimsOn(ps, g)
  }

  ghost predicate SameForOthers(index: map<nat, seq<nat>>, after: map<nat, seq<nat>>, task: nat) {
    forall g, other :: other != task ==> Occurrences(ListOf(after, g), other) == Occurrences(ListOf(index, g), other)
  }

  lemma DeleteFirstAgrees(index: map<nat, seq<nat>>, task: nat, ps: seq<Process>)
    requires ps != [] && ListsTask(index, task, ps) && NoEmptyList(index)
    ensures var next := if ps[0].exeMode == EXE_COLLECT_GOODS then DeleteGoodsTask(index, ps[0].aimId, task) else index;
            ListsTask(next, task, ps[1..]) && SameForOthers(index, next, task) && NoEmptyList(next)
  {
    var next := if ps[0].exeMode == EXE_COLLECT_GOODS then DeleteGoodsTask(index, ps[0].aimId, task) else index;
    assert [ps[0]] + ps[1..] == ps;
    forall g
      ensures Occurrences(ListOf(next, g), task) == AimsOn(ps[1..], g)
    {
      DeleteOneAgrees(index, task, ps[0], ps[1..], g, task);
    }
    forall g, other | other != task
      ensures Occurrences(ListOf(next, g), other) == Occurrences(ListOf(index, g), other)
    {
      assert Occurrences(ListOf(index, g), task) == AimsOn(ps, g);
      DeleteOneAgrees(index, task, ps[0], ps[1..], g, other);
    }
  }

  lemma {:induction false} DeleteAimsAgrees(index: map<nat, seq<nat>>, task: nat, ps: seq<Process>)
    requires ListsTask(index, task, ps) && NoEmptyList(index)
    ensures var after := DeleteAims(index, task, ps);
            ListsTask(after, task, []) && SameForOthers(index, after, task) && NoEmptyList(after)
    decreases |ps|
  {
    if ps != [] {
      DeleteFirstAgrees(index, task, ps);
      var next := if ps[0].exeMode == EXE_COLLECT_GOODS then DeleteGoodsTask(index, ps[0].aimId, task) else index;
      DeleteAimsAgrees(next, task, ps[1..]);
    }
  }

  lemma QuitTaskAgrees(t: TaskState, task: nat)
    requires IndexAgrees(t)
    ensures IndexAgrees(QuitTask(t, task))
  {
    if task in t.accepted {
      var ps, u := t.accepted[task], QuitTask(t, task);
      forall g
        ensures Occurrences(ListOf(t.index, g), task) == AimsOn(ps, g)
      {
        assert ListOf(t.accepted, task) == ps;
      }
      DeleteAimsAgrees(t.index, task, ps);
      forall g, x
        ensures Occurrences(ListOf(u.index, g), x) == AimsOn(ListOf(u.accepted, x), g)
      {
        if x != task {
          assert ListOf(u.accepted, x) == ListOf(t.accepted, x);
          assert Occurrences(ListOf(t.index, g), x) == AimsOn(ListOf(t.accepted, x), g);
        }
      }
    }
  }

  /** Quitting takes the task, and nothing else, out of the accepted tasks and out of every list. */
  lemma QuitTaskForgets(t: TaskState, task: nat)
    requires IndexAgrees(t)
    ensures var u := QuitTask(t, task);
            && u.accepted == t.accepted - {task}
            && (forall g :: task !in ListOf(u.index, g))
            && SameForOthers(t.index, u.index, task)
  {
    var u := QuitTask(t, task);
    QuitTaskAgrees(t, task);
    forall g
      ensures task !in ListOf(u.index, g)
    {
      assert Occurrences(ListOf(u.index, g), task) == AimsOn(ListOf(u.accepted, task), g);
      ListedWhenOccurring(ListOf(u.index, g), task);
    }
    forall g, other | other != task
      ensures Occurrences(ListOf(u.index, g), other) == Occurrences(ListOf(t.index, g), other)
    {
      assert ListOf(u.accepted, other) == ListOf(t.accepted, other);
      assert Occurrences(ListOf(t.index, g), other) == AimsOn(ListOf(t.accepted, other), g);
      assert Occurrences(ListOf(u.index, g), other) == AimsOn(ListOf(u.accepted, other), g);
    }
  }

  // ----- What is accepted -----

  /** The guards of AskTask. */
  predicate MayAccept(t: TaskState, task: nat, level: nat, levels: map<nat, nat>, aims: map<nat, seq<Aim>>) {
    task !in t.accepted && task in levels && levels[task] <= level && task in aims && aims[task] != []
  }

  /** p is the aim at its start: as far as the bag or the level has it already, but no further than asked. */
  predicate Starts(p: Process, aim: Aim, level: nat, have: nat -> nat) {
    && p.aimId == aim.aimId && p.amount == aim.amount && p.exeMode == aim.exeMode
    && p.finished == if aim.exeMode == EXE_COLLECT_GOODS then Min(have(aim.aimId), aim.amount)
                     else if aim.exeMode == EXE_UPGRADE then Min(level, aim.amount) else 0
  }

  lemma AcceptedAt(before: seq<Process>, mid: seq<Process>, after: seq<Process>)
    requires |before| + 1 == |mid| <= |after| && mid[..|before|] == before && after[..|mid|] == mid
    ensures after[..|before|] == before && after[|before|] == mid[|before|]
  {
    assert after[..|before|] == after[..|mid|][..|before|];
    assert after[|before|] == after[..|mid|][|before|];
  }

  lemma {:induction false} AcceptAimsStart(t: TaskState, task: nat, aims: seq<Aim>, level: nat, have: nat -> nat)
    ensures var u := AcceptAims(t, task, aims, level, have);
            var before, after := ListOf(t.accepted, task), ListOf(u.accepted, task);
            && u.accepted - {task} == t.accepted - {task} && (aims != [] ==> task in u.accepted)
            && |after| == |before| + |aims| && after[..|before|] == before
            && forall i :: 0 <= i < |aims| ==> Starts(after[|before| + i], aims[i], level, have)
    decreases |aims|
  {
    if aims != [] {
      var s := AcceptAim(t, task, aims[0], level, have);
      var u := AcceptAims(t, task, aims, level, have);
      var before, mid, after := ListOf(t.accepted, task), ListOf(s.accepted, task), ListOf(u.accepted, task);
      AcceptAimsStart(s, task, aims[1..], level, have);
      assert s.accepted - {task} == t.accepted - {task};
      assert mid[..|before|] == before && after[..|mid|] == mid;
      AcceptedAt(before, mid, after);
      forall i | 0 <= i < |aims|
        ensures Starts(after[|before| + i], aims[i], level, have)
      {
        if i > 0 {
          assert Starts(after[|mid| + (i - 1)], aims[1..][i - 1], level, have);
        }
      }
    }
  }

  /** A task is accepted, with all its aims at their start, exactly when it is known, has aims, is not accepted
      yet, and the level suffices; otherwise nothing happens. */
  lemma AskTaskAcceptsExactlyWhen(t: TaskState, task: nat, level: nat, levels: map<nat, nat>, aims: map<nat, seq<Aim>>,
                                  have: nat -> nat)
    ensures var u := AskTask(t, task, level, levels, aims, have);
            if MayAccept(t, task, level, levels, aims) then
              && task in u.accepted && u.accepted - {task} == t.accepted && |u.accepted[task]| == |aims[task]|
              && forall i :: 0 <= i < |aims[task]| ==> Starts(u.accepted[task][i], aims[task][i], level, have)
            else u == t
  {
    if MayAccept(t, task, level, levels, aims) {
      AcceptAimsStart(t, task, aims[task], level, have);
      assert t.accepted - {task} == t.accepted;
    }
  }

  lemma {:induction false} OccurrencesAreMultiplicity(v: seq<nat>, task: nat)
    ensures Occurrences(v, task) == multiset(v)[task]
    decreases |v|
  {
    if v != [] {
      assert v == [v[0]] + v[1..];
      OccurrencesAreMultiplicity(v[1..], task);
    }
  }

  lemma SameEntries(v: seq<nat>, w: seq<nat>)
    requires forall x :: Occurrences(v, x) == Occurrences(w, x)
    ensures multiset(v) == multiset(w)
  {
    forall x | x in multiset(v) || x in multiset(w)
      ensures multiset(v)[x] == multiset(w)[x]
    {
      assert x in v || x in w;
      OccurrencesAreMultiplicity(v, x);
      OccurrencesAreMultiplicity(w, x);
      assert Occurrences(v, x) == Occurrences(w, x);
    }
  }

  lemma AskTaskAgrees(t: TaskState, task: nat, level: nat, levels: map<nat, nat>, aims: map<nat, seq<Aim>>,
                      have: nat -> nat)
    requires IndexAgrees(t)
    ensures IndexAgrees(AskTask(t, task, level, levels, aims, have))
  {
    if task in aims {
      AcceptAimsAgrees(t, task, aims[task], level, have);
    }
  }

  /** Asking for a task that was not accepted, and quitting it, leaves the accepted tasks as they were, and
      every list of the index with the same entries. */
  lemma QuittingUndoesAsking(t: TaskState, task: nat, level: nat, levels: map<nat, nat>, aims: map<nat, seq<Aim>>,
                             have: nat -> nat)
    requires IndexAgrees(t) && task !in t.accepted
    ensures var u := QuitTask(AskTask(t, task, level, levels, aims, have), task);
            u.accepted == t.accepted && forall g :: multiset(ListOf(u.index, g)) == multiset(ListOf(t.index, g))
  {
    var asked := AskTask(t, task, level, levels, aims, have);
    var u := QuitTask(asked, task);
    AskTaskAgrees(t, task, level, levels, aims, have);
    AskTaskAcceptsExactlyWhen(t, task, level, levels, aims, have);
    QuitTaskForgets(asked, task);
    QuitTaskAgrees(asked, task);
    assert u.accepted == t.accepted;
    forall g
      ensures multiset(ListOf(u.index, g)) == multiset(ListOf(t.index, g))
    {
      forall x
        ensures Occurrences(ListOf(u.index, g), x) == Occurrences(ListOf(t.index, g), x)
      {
        assert Occurrences(ListOf(u.index, g), x) == AimsOn(ListOf(u.accepted, x), g);
        assert Occurrences(ListOf(t.index, g), x) == AimsOn(ListOf(t.accepted, x), g);
      }
      SameEntries(ListOf(u.index, g), ListOf(t.index, g));
    }
  }

  // ----- Progress -----

  /** The branches of UpdateCollectGoodsTaskProcess for one aim that collects the goods. */
  function Updated(p: Process, count: nat): Process {
    if p.finished > count then p.(finished := count)
    else if p.amount <= count then p.(finished := p.amount)
    else p.(finished := count)
  }

  /** They set the progress to what is there or what is asked, unless it had passed what is asked by more than
      is there. */
  lemma UpdatedIsMinExactlyWhen(p: Process, count: nat)
    ensures Updated(p, count).finished == Min(count, p.amount) <==> !(p.amount < count < p.finished)
  {
  }

  function UpdateProcesses(ps: seq<Process>, g: nat, count: nat): (r: seq<Process>)
    ensures |r| == |ps|
    ensures forall i :: 0 <= i < |ps| ==> r[i] == if Collects(ps[i], g) then Updated(ps[i], count) else ps[i]
  {
    if ps == [] then []
    else [if Collects(ps[0], g) then Updated(ps[0], count) else ps[0]] + UpdateProcesses(ps[1..], g, count)
  }

  function UpdateListed(accepted: map<nat, seq<Process>>, list: seq<nat>, g: nat, count: nat): map<nat, seq<Process>>
    decreases |list|
  {
    if list == [] then accepted
    else
      var t := list[0];
      UpdateListed(if t in accepted then accepted[t := UpdateProcesses(accepted[t], g, count)] else accepted,
                   list[1..], g, count)
  }

  /** UpdateCollectGoodsTaskProcess; count is what the bag holds. */
  function UpdateCollect(t: TaskState, g: nat, count: nat): TaskState {
    if g !in t.index then t else t.(accepted := UpdateListed(t.accepted, t.index[g], g, count))
  }

  /** No aim is further than it can be. */
  ghost predicate Within(ps: seq<Process>) {
    forall i :: 0 <= i < |ps| ==> ps[i].finished <= ps[i].amount
  }

  ghost predicate AllWithin(accepted: map<nat, seq<Process>>) {
    forall task :: task in accepted ==> Within(accepted[task])
  }

  /** Updating twice is updating once. */
  lemma UpdateTwice(ps: seq<Process>, g: nat, count: nat)
    requires Within(ps)
    ensures Within(UpdateProcesses(ps, g, count))
    ensures UpdateProcesses(UpdateProcesses(ps, g, count), g, count) == UpdateProcesses(ps, g, count)
  {
  }

  lemma {:induction false} UpdateListedUpdates(accepted: map<nat, seq<Process>>, list: seq<nat>, g: nat, count: nat)
    requires AllWithin(accepted)
    ensures var after := UpdateListed(accepted, list, g, count);
            && after.Keys == accepted.Keys
            && forall task :: task in accepted ==>
                 after[task] == if task in list then UpdateProcesses(accepted[task], g, count) else accepted[task]
    decreases |list|
  {
    if list != [] {
      var x := list[0];
      if x in accepted {
        UpdateTwice(accepted[x], g, count);
        UpdateListedUpdates(accepted[x := UpdateProcesses(accepted[x], g, count)], list[1..], g, count);
      } else {
        UpdateListedUpdates(accepted, list[1..], g, count);
      }
    }
  }

  lemma {:induction false} ListedWhenOccurring(v: seq<nat>, task: nat)
    ensures Occurrences(v, task) > 0 <==> task in v
    decreases |v|
  {
    if v != [] {
      ListedWhenOccurring(v[1..], task);
    }
  }

  lemma {:induction false} AimsWhenCollecting(ps: seq<Process>, g: nat)
    ensures AimsOn(ps, g) > 0 <==> exists i :: 0 <= i < |ps| && Collects(ps[i], g)
    decreases |ps|
  {
    if ps != [] {
      AimsWhenCollecting(ps[1..], g);
      if exists i :: 0 <= i < |ps| && Collects(ps[i], g) {
        var i :| 0 <= i < |ps| && Collects(ps[i], g);
        assert i > 0 ==> Collects(ps[1..][i - 1], g);
      }
      if exists i :: 0 <= i < |ps[1..]| && Collects(ps[1..][i], g) {
        var i :| 0 <= i < |ps[1..]| && Collects(ps[1..][i], g);
        assert Collects(ps[i + 1], g);
      }
    }
  }

  /** A task is listed under the goods exactly when one of its aims collects them. */
  lemma ListedExactlyWhenCollecting(t: TaskState, g: nat, task: nat)
    requires IndexAgrees(t) && task in t.accepted
    ensures task in ListOf(t.index, g) <==> exists i :: 0 <= i < |t.accepted[task]| && Collects(t.accepted[task][i], g)
  {
    assert Occurrences(ListOf(t.index, g), task) == AimsOn(ListOf(t.accepted, task), g);
    ListedWhenOccurring(ListOf(t.index, g), task);
    AimsWhenCollecting(t.accepted[task], g);
  }

  /** After the update every aim that collects the goods, of any accepted task, stands at what the bag holds or
      what is asked, whichever is less; every other aim stands where it did. */
  lemma UpdateReachesEveryAim(t: TaskState, g: nat, count: nat, task: nat, i: nat)
    requires IndexAgrees(t) && AllWithin(t.accepted) && task in t.accepted && i < |t.accepted[task]|
    ensures var u := UpdateCollect(t, g, count);
            var p := t.accepted[task][i];
            && u.accepted.Keys == t.accepted.Keys && |u.accepted[task]| == |t.accepted[task]|
            && u.accepted[task][i] == if Collects(p, g) then p.(finished := Min(count, p.amount)) else p
  {
    ListedExactlyWhenCollecting(t, g, task);
    if g in t.index {
      UpdateListedUpdates(t.accepted, t.index[g], g, count);
    }
  }

  lemma UpdateCollectAgrees(t: TaskState, g: nat, count: nat)
    requires IndexAgrees(t) && AllWithin(t.accepted)
    ensures IndexAgrees(UpdateCollect(t, g, count)) && AllWithin(UpdateCollect(t, g, count).accepted)
  {
    var u := UpdateCollect(t, g, count);
    if g in t.index {
      UpdateListedUpdates(t.accepted, t.index[g], g, count);
      forall task | task in u.accepted
        ensures Within(u.accepted[task])
      {
        UpdateTwice(t.accepted[task], g, count);
      }
      forall h, x
        ensures Occurrences(ListOf(u.index, h), x) == AimsOn(ListOf(u.accepted, x), h)
      {
        UpdateKeepsAims(ListOf(t.accepted, x), g, count, h);
        assert Occurrences(ListOf(t.index, h), x) == AimsOn(ListOf(t.accepted, x), h);
      }
    }
  }

  lemma {:induction false} UpdateKeepsAims(ps: seq<Process>, g: nat, count: nat, h: nat)
    ensures AimsOn(UpdateProcesses(ps, g, count), h) == AimsOn(ps, h)
    decreases |ps|
  {
    if ps != [] {
      UpdateKeepsAims(ps[1..], g, count, h);
      assert UpdateProcesses(ps, g, count)[1..] == UpdateProcesses(ps[1..], g, count);
    }
  }

  // ----- Runs -----

  datatype Deed =
    | Asks(task: nat, level: nat, have: nat -> nat)
    | Quits(task: nat)
    | Gathers(g: nat, count: nat)

  function Do(t: TaskState, d: Deed, levels: map<nat, nat>, aims: map<nat, seq<Aim>>): TaskState {
    match d
    case Asks(task, level, have) => AskTask(t, task, level, levels, aims, have)
    case Quits(task) => QuitTask(t, task)
    case Gathers(g, count) => UpdateCollect(t, g, count)
  }

  function DoAll(t: TaskState, deeds: seq<Deed>, levels: map<nat, nat>, aims: map<nat, seq<Aim>>): TaskState
    decreases |deeds|
  {
    if deeds == [] then t else DoAll(Do(t, deeds[0], levels, aims), deeds[1..], levels, aims)
  }

  lemma {:induction false} AcceptAimsWithin(t: TaskState, task: nat, aims: seq<Aim>, level: nat, have: nat -> nat)
    requires AllWithin(t.accepted)
    ensures AllWithin(AcceptAims(t, task, aims, level, have).accepted)
    decreases |aims|
  {
    if aims != [] {
      AcceptAimsWithin(AcceptAim(t, task, aims[0], level, have), task, aims[1..], level, have);
    }
  }

  /** Whatever is accepted, quit and gathered, the index agrees with the accepted tasks, and no aim is further
      than it can be. */
  lemma {:induction false} IndexAgreesOverRuns(t: TaskState, deeds: seq<Deed>, levels: map<nat, nat>,
                                               aims: map<nat, seq<Aim>>)
    requires IndexAgrees(t) && AllWithin(t.accepted)
    ensures IndexAgrees(DoAll(t, deeds, levels, aims)) && AllWithin(DoAll(t, deeds, levels, aims).accepted)
    decreases |deeds|
  {
    if deeds != [] {
      match deeds[0] {
        case Asks(task, level, have) =>
          if task in aims {
            AcceptAimsAgrees(t, task, aims[task], level, have);
            AcceptAimsWithin(t, task, aims[task], level, have);
          }
        case Quits(task) => QuitTaskAgrees(t, task);
        case Gathers(g, count) => UpdateCollectAgrees(t, g, count);
      }
      IndexAgreesOverRuns(Do(t, deeds[0], levels, aims), deeds[1..], levels, aims);
    }
  }
}
