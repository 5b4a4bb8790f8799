// GameTask/gametask.cpp in its own form: loops that change the accepted tasks and the index in place.
module GameTask {
  import opened Tasks

  class TaskBook {
    var accepted: map<nat, seq<Process>>   // m_playerAcceptTask
    var index: map<nat, seq<nat>>          // m_taskGoods

    ghost function Value(): TaskState
      reads this
    {
      TaskState(accepted, index)
    }

    constructor ()
      ensures Value() == TaskState(map[], map[]) && IndexAgrees(Value())
    {
      accepted, index := map[], map[];
    }

    method AddGoodsTask(g: nat, task: nat)
      modifies this`index
      ensures index == Tasks.AddGoodsTask(old(index), g, task)
    {
      if g in index {
        index := index[g := index[g] + [task]];
      } else {
        index := index[g := [task]];
        assert [] + [task] == [task];
      }
    }

    /** The search of DeleteGoodsTask. */
    method Erase(v: seq<nat>, task: nat) returns (w: seq<nat>)
      ensures w == EraseFirst(v, task)
    {
      var k := 0;
      while k < |v|
        invariant k <= |v| && EraseFirst(v, task) == v[..k] + EraseFirst(v[k..], task)
      {
        if v[k] == task {
          assert v[k..][1..] == v[k + 1..];
          return v[..k] + v[k + 1..];
        }
        assert v[k..][1..] == v[k + 1..] && v[..k] + [v[k]] == v[..k + 1];
        k := k + 1;
      }
      return v;
    }

    method DeleteGoodsTask(g: nat, task: nat)
      modifies this`index
      ensures index == Tasks.DeleteGoodsTask(old(index), g, task)
    {
      if g in index {
        var w := Erase(index[g], task);
        index := index[g := w];
        if index[g] == [] {
          index := index - {g};
        }
      }
    }

    /** One aim of AskTask. */
    method Accept(task: nat, aim: Aim, level: nat, have: nat -> nat)
      modifies this
      ensures Value() == AcceptAim(old(Value()), task, aim, level, have)
    {
      var p := Process(aim.aimId, 0, aim.amount, aim.exeMode);
      if aim.exeMode == EXE_COLLECT_GOODS {
        AddGoodsTask(aim.aimId, task);
        var count := have(aim.aimId);
        if count >= p.amount {
          p := p.(finished := p.amount);
        } else {
          p := p.(finished := count);
        }
      } else if aim.exeMode == EXE_UPGRADE {
        if level > p.amount {
          p := p.(finished := p.amount);
        } else {
          p := p.(finished := level);
        }
      }
      if task in accepted {
        accepted := accepted[task := accepted[task] + [p]];
      } else {
        accepted := accepted[task := [p]];
        assert [] + [p] == [p];
      }
    }

    method AskTask(task: nat, level: nat, levels: map<nat, nat>, aims: map<nat, seq<Aim>>, have: nat -> nat)
      modifies this
      ensures Value() == Tasks.AskTask(old(Value()), task, level, levels, aims, have)
    {
      if task in accepted || task !in levels || level < levels[task] || task !in aims {
        return;
      }
      ghost var rest := aims[task];
      for k := 0 to |aims[task]|
        invariant rest == aims[task][k..]
        invariant AcceptAims(Value(), task, rest, level, have)
                  == AcceptAims(old(Value()), task, aims[task], level, have)
      {
        Accept(task, aims[task][k], level, have);
        rest := rest[1..];
      }
    }

    method QuitTask(task: nat)
      modifies this
      ensures Value() == Tasks.QuitTask(old(Value()), task)
    {
      if task !in accepted {
        return;
      }
      var ps := accepted[task];
      ghost var rest := ps;
      for k := 0 to |ps|
        invariant rest == ps[k..] && accepted == old(accepted)
        invariant DeleteAims(index, task, rest) == DeleteAims(old(index), task, ps)
      {
        if ps[k].exeMode == EXE_COLLECT_GOODS {
          DeleteGoodsTask(ps[k].aimId, task);
        }
        rest := rest[1..];
      }
      accepted := accepted - {task};
    }

    /** The inner loop of UpdateCollectGoodsTaskProcess, over the aims of one task. */
    method UpdateAims(task: nat, g: nat, count: nat)
      requires task in accepted
      modifies this`accepted
      ensures accepted == old(accepted)[task := UpdateProcesses(old(accepted[task]), g, count)]
    {
      var before := accepted[task];
      assert accepted == accepted[task := before];
      for k := 0 to |before|
        invariant task in accepted && accepted == old(accepted)[task := accepted[task]] && |accepted[task]| == |before|
        invariant forall i :: 0 <= i < |before| ==>
                    accepted[task][i] == if i < k && Collects(before[i], g) then Updated(before[i], count)
                        else before[i]
      {
        var p := accepted[task][k];
        if p.aimId == g && p.exeMode == EXE_COLLECT_GOODS {
          if p.finished > count {
            p := p.(finished := count);
          } else if p.amount <= count {
            p := p.(finished := p.amount);
          } else {
            p := p.(finished := count);
          }
          accepted := accepted[task := accepted[task][k := p]];
        }
      }
      assert accepted[task] == UpdateProcesses(before, g, count);
    }

    /** count is GetThisGoodsCount of the goods. */
    method UpdateCollectGoodsTaskProcess(g: nat, count: nat)
      modifies this`accepted
      ensures Value() == UpdateCollect(old(Value()), g, count)
    {
      if g !in index {
        return;
      }
      ghost var rest := index[g];
      for k := 0 to |index[g]|
        invariant rest == index[g][k..]
        invariant UpdateListed(accepted, rest, g, count) == UpdateListed(old(accepted), index[g], g, count)
      {
        if index[g][k] in accepted {
          UpdateAims(index[g][k], g, count);
        }
        rest := rest[1..];
      }
    }
  }
}
