/** Progress of the concurrent cache service: no request is ever stuck, and every one comes to its end. */
module CacheProgress {
  import opened Wrappers
  import opened CacheInterleaved

  /** A step of a request already under way. */
  predicate Continues(a: Action) { a.Retain? || a.Allocate? || a.Push? || a.Bind? || a.Save? }

  /** The steps a request has still to take. */
  function StepsLeft(p: Phase): nat {
    match p
    case Evicting(_, _, _, _) => 4
    case Allocating(_, _, _) => 3
    case Pushing(_) => 2
    case Binding(_, _) => 2
    case Saving => 1
    case Done => 0
  }

  function TotalLeft(tasks: seq<Phase>): nat {
    if tasks == [] then 0 else TotalLeft(tasks[..|tasks| - 1]) + StepsLeft(tasks[|tasks| - 1])
  }

  lemma {:induction false} TotalLeftUpdate(tasks: seq<Phase>, t: nat, p: Phase)
    requires t < |tasks|
    ensures TotalLeft(tasks[t := p]) == TotalLeft(tasks) - StepsLeft(tasks[t]) + StepsLeft(p)
  {
    var n := |tasks| - 1;
    if t == n {
      assert tasks[t := p][..n] == tasks[..n];
    } else {
      assert tasks[t := p][..n] == tasks[..n][t := p];
      TotalLeftUpdate(tasks[..n], t, p);
    }
  }

  /** Every such step is one step nearer to the end of its request. */
  lemma StepCounts(once: bool, s: State, a: Action)
    requires Continues(a) && Enabled(once, s, a)
    ensures TotalLeft(Apply(once, s, a).tasks) == TotalLeft(s.tasks) - 1
  {
    var s' := Apply(once, s, a);
    assert s'.tasks == s.tasks[a.t := s'.tasks[a.t]];
    TotalLeftUpdate(s.tasks, a.t, s'.tasks[a.t]);
  }

  ghost predicate SomeCanContinue(once: bool, s: State) { exists a :: Continues(a) && Enabled(once, s, a) }

  ghost predicate AllDone(s: State) { forall t | 0 <= t < |s.tasks| :: s.tasks[t].Done? }

  /** What a request does next. */
  function NextStep(t: nat, p: Phase): Action
    requires !p.Done?
  {
    match p
    case Evicting(_, _, _, _) => Retain(t)
    case Allocating(_, _, _) => Allocate(t)
    case Pushing(_) => Push(t)
    case Binding(_, _) => Bind(t)
    case Saving => Save(t)
  }

  /** No deadlock: the holder of the index lock can always go on, and without one everybody can. */
  lemma CanContinueUnlessDone(once: bool, s: State)
    ensures SomeCanContinue(once, s) <==> !AllDone(s)
  {
    if t :| 0 <= t < |s.tasks| && s.tasks[t].Evicting? {
      assert Continues(Retain(t)) && Enabled(once, s, Retain(t));
    } else if t :| 0 <= t < |s.tasks| && !s.tasks[t].Done? {
      var a := NextStep(t, s.tasks[t]);
      assert Continues(a) && Enabled(once, s, a);
    } else {
      forall a | Continues(a)
        ensures !Enabled(once, s, a)
      {
        assert a.t < |s.tasks| ==> s.tasks[a.t].Done?;
      }
    }
  }

  lemma {:induction false} RunCounts(once: bool, start: State, acts: seq<Action>, more: seq<Action>)
    requires Exec(once, start, acts + more).Some? && forall i | 0 <= i < |more| :: Continues(more[i])
    ensures Exec(once, start, acts).Some?
    ensures TotalLeft(Exec(once, start, acts + more).value.tasks)
      == TotalLeft(Exec(once, start, acts).value.tasks) - |more|
  {
    hide TotalLeft, Apply, Enabled;
    if more == [] {
      assert acts + more == acts;
    } else {
      var n := |more| - 1;
      assert (acts + more)[..|acts| + n] == acts + more[..n];
      RunCounts(once, start, acts, more[..n]);
      StepCounts(once, Exec(once, start, acts + more[..n]).value, more[n]);
    }
  }

  lemma {:induction false} NoneLeft(tasks: seq<Phase>)
    ensures TotalLeft(tasks) == 0 <==> forall t | 0 <= t < |tasks| :: tasks[t].Done?
  {
    if tasks != [] {
      NoneLeft(tasks[..|tasks| - 1]);
      assert tasks == tasks[..|tasks| - 1] + [tasks[|tasks| - 1]];
    }
  }

  /**
   From every reachable state the requests under way can be run in any order: their run never
   has more steps than are left, it can be continued exactly if it has fewer, and when it
   cannot, every request is done.
   */
  lemma RequestsComeToTheirEnd(once: bool, acts: seq<Action>, more: seq<Action>)
    requires Exec(once, Init(), acts + more).Some? && forall i | 0 <= i < |more| :: Continues(more[i])
    ensures Exec(once, Init(), acts).Some? && |more| <= TotalLeft(Exec(once, Init(), acts).value.tasks)
    ensures var s := Exec(once, Init(), acts + more).value;
      && (SomeCanContinue(once, s) <==> |more| < TotalLeft(Exec(once, Init(), acts).value.tasks))
      && (SomeCanContinue(once, s) <==> !AllDone(s))
  {
    RunCounts(once, Init(), acts, more);
    var s := Exec(once, Init(), acts + more).value;
    CanContinueUnlessDone(once, s);
    NoneLeft(s.tasks);
  }
}
