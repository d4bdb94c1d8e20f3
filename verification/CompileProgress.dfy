/**
  Every run of the compile worker comes to rest.
 */
module CompileProgress {
  import opened Common
  import opened CompileProtocol
  import opened CompileConvergence

  // ----------------------------------------------------------------------------------------------
  // Main results: every run comes to rest
  // ----------------------------------------------------------------------------------------------

  const COMPILE := 20   // more steps than one compile takes, from the queue to the closing lock section

  function CallWeight(c: Call): nat {
    match c
    case Put(_, _) => COMPILE + 7
    case PutBumped(_, _) => COMPILE + 6
    case Enqueue(_, _) => COMPILE + 5
    case Claimed(_) => COMPILE + 4
    case ReadingStatus(_, _) => COMPILE + 3
    case WritingStatus(_, _, _) => COMPILE + 2
    case Putting(_) => COMPILE + 1
    case Done => 0
    case Aborted(_) => 0
    case HalfPut(_) => 0
  }

  function WorkerWeight(w: Worker): nat {
    match w
    case Idle => 0
    case Taken(_) => COMPILE - 1
    case Begun(_) => COMPILE - 2
    case HaveRevision(_, _, _) => COMPILE - 3
    case WritingRunning(_, _, _, _) => COMPILE - 4
    case ReadingSource(_, _, _) => COMPILE - 5
    case Compiling(_, _, _, _, _) => COMPILE - 6
    case ReplacingPdf(_, _, _, _, _) => COMPILE - 7
    case WritingOk(_, _, _, _, _) => COMPILE - 8
    case ReadingFailed(_, _, handler) => if handler then 3 else COMPILE - 9
    case WritingFailed(_, _, _, handler) => if handler then 2 else COMPILE - 10
    case Raised(_) => 4
    case Ending(_, _) => 1
    case Requeueing(_, _) => COMPILE + 1
    case Dead(_) => 0
  }

  function CallsWeight(calls: seq<Call>): nat {
    if calls == [] then 0 else CallWeight(calls[0]) + CallsWeight(calls[1..])
  }

  /** An upper bound on the steps still to take if no new call starts. */
  function Weight(s: State): nat {
    CallsWeight(s.calls) + COMPILE * |s.co.queue| + (COMPILE + 3) * |s.co.redo| + WorkerWeight(s.worker)
  }

  predicate Starts(a: Action) {
    a.Create? || a.BeginPut? || a.BeginEnqueue?
  }

  lemma {:induction false} CallsWeightUpdate(calls: seq<Call>, i: nat, c: Call)
    requires i < |calls|
    ensures CallsWeight(calls[i := c]) == CallsWeight(calls) - CallWeight(calls[i]) + CallWeight(c)
  {
    if i > 0 {
      CallsWeightUpdate(calls[1..], i - 1, c);
      assert calls[i := c][1..] == calls[1..][i - 1 := c];
    }
  }

  /** What the lock sections do to the weight of the re-run marks. */
  lemma RedoSizes(c: Coalescer, rid: Rid)
    ensures |EnqueueSection(c, rid).0.redo| <= |c.redo| + 1
    ensures |BeginSection(c, rid).redo| <= |c.redo|
    ensures |EndSection(c, rid).0.redo| == |c.redo| - (if EndSection(c, rid).1 then 1 else 0)
    ensures EnqueueSection(c, rid).1 ==> EnqueueSection(c, rid).0.redo == c.redo
  {
    if rid in c.redo {
      assert c.redo + {rid} == c.redo && c.redo == (c.redo - {rid}) + {rid};
    } else {
      assert c.redo - {rid} == c.redo;
    }
  }

  lemma CompileLightens(s: State, succeeds: bool)
    requires Enabled(s, Work(succeeds)) && !s.worker.Idle? && !s.worker.Taken? && !s.worker.Ending? && !s.worker.Requeueing? && !s.worker.Dead?
    ensures WorkerStep(s, succeeds).co == s.co && WorkerStep(s, succeeds).calls == s.calls
    ensures WorkerWeight(WorkerStep(s, succeeds).worker) < WorkerWeight(s.worker)
  {
  }

  lemma WorkLightens(s: State, succeeds: bool)
    requires SlotInv(s) && Enabled(s, Work(succeeds))
    ensures Weight(WorkerStep(s, succeeds)) < Weight(s)
  {
    if s.worker.Taken? || s.worker.Ending? {
      RedoSizes(s.co, s.worker.rid);
    } else if !s.worker.Idle? && !s.worker.Requeueing? {
      CompileLightens(s, succeeds);
    }
  }

  lemma AdvanceLightens(s: State, i: nat)
    requires SlotInv(s) && Enabled(s, Advance(i))
    ensures Weight(AdvanceCall(s, i)) < Weight(s)
  {
    var c := AdvanceCall(s, i).calls[i];
    CallsWeightUpdate(s.calls, i, c);
    assert CallWeight(c) < CallWeight(s.calls[i]);
    assert AdvanceCall(s, i).calls == s.calls[i := c];
    if s.calls[i].Enqueue? {
      RedoSizes(s.co, s.calls[i].rid);
    }
  }

  lemma BreakLightens(s: State, i: nat)
    requires Enabled(s, Break(i))
    ensures Weight(BreakCall(s, i)) < Weight(s)
  {
    CallsWeightUpdate(s.calls, i, BreakCall(s, i).calls[i]);
    assert BreakCall(s, i).calls == s.calls[i := BreakCall(s, i).calls[i]];
  }

  lemma StepLightens(s: State, a: Action)
    requires SlotInv(s) && Enabled(s, a) && !Starts(a)
    ensures Weight(Apply(s, a)) < Weight(s)
  {
    match a
    case Advance(i) => AdvanceLightens(s, i);
    case Abort(i) => CallsWeightUpdate(s.calls, i, Aborted(s.calls[i].rid));
    case Break(i) => BreakLightens(s, i);
    case Work(succeeds) => WorkLightens(s, succeeds);
    case Raise =>
    case SkipCall(i) => CallsWeightUpdate(s.calls, i, Putting(s.calls[i].rid));
    case SkipWork =>
  }

  /** Nothing ever blocks: short of rest, some thread can take a step. */
  lemma NeverStuck(s: State)
    requires Inv(s) && !AtRest(s)
    ensures exists a :: Enabled(s, a) && !Starts(a)
  {
    if !s.worker.Dead? && (!s.worker.Idle? || s.co.queue != []) {
      assert Enabled(s, Work(true));
    } else {
      var i :| 0 <= i < |s.calls| && !Over(s.calls[i]);
      assert Enabled(s, Advance(i));
    }
  }

  /** Every run from a reachable state in which no new call starts is finite, and if it cannot be
      extended then it has come to rest: with Convergence, no interleaving loses an update unless the
      worker has died. */
  lemma EveryRunComesToRest(before: seq<Action>, after: seq<Action>)
    requires Exec(before + after).Some? && forall a :: a in after ==> !Starts(a)
    ensures Exec(before).Some? && |after| + Weight(Exec(before + after).value) <= Weight(Exec(before).value)
    ensures AtRest(Exec(before + after).value)
            || exists a :: !Starts(a) && Exec(before + after + [a]).Some?
  {
    EveryRunLightens(before, after);
    var s := Exec(before + after).value;
    InvAlways(before + after);
    if !AtRest(s) {
      NeverStuck(s);
      var a :| Enabled(s, a) && !Starts(a);
      Extend(before + after, a);
    }
  }

  lemma {:induction false} EveryRunLightens(before: seq<Action>, after: seq<Action>)
    requires Exec(before + after).Some? && forall a :: a in after ==> !Starts(a)
    ensures Exec(before).Some? && |after| + Weight(Exec(before + after).value) <= Weight(Exec(before).value)
    decreases |after|
  {
    if after == [] {
      assert before + after == before;
    } else {
      var shorter, a := after[..|after| - 1], after[|after| - 1];
      assert before + after == (before + shorter) + [a];
      assert (before + after)[..|before + after| - 1] == before + shorter;
      EveryRunLightens(before, shorter);
      InvAlways(before + shorter);
      StepLightens(Exec(before + shorter).value, a);
    }
  }
}
