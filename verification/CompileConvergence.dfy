/**
  Where runs of the compile worker end: what is true of a review at rest, and after each accident that
  keeps it from being compiled again.
 */
module CompileConvergence {
  import opened Common
  import opened CompileProtocol
  import opened CompileRaces
  import opened CompileLabels

  // ----------------------------------------------------------------------------------------------
  // Main results: convergence
  // ----------------------------------------------------------------------------------------------

  /** Every call is over, the queue is empty and the worker waits. */
  predicate Quiescent(s: State) {
    && (forall i :: 0 <= i < |s.calls| ==> Over(s.calls[i]))
    && s.co.queue == []
    && s.worker.Idle?
  }

  /** Everything is over: every call is, and the worker waits on an empty queue or has died. */
  predicate AtRest(s: State) {
    && (forall i :: 0 <= i < |s.calls| ==> Over(s.calls[i]))
    && (s.worker.Dead? || (s.worker.Idle? && s.co.queue == []))
  }

  /** Some enqueue of rid raised between claiming the token and its queue put. */
  ghost predicate Stranded(s: State, rid: Rid) {
    exists i :: 0 <= i < |s.calls| && s.calls[i] == Aborted(rid)
  }

  /** Whatever the interleaving was: once everything has come to rest with the worker alive, a review no
      put and no enqueue of which raised is settled if and only if it has a status at all.  Settled means
      a final status about its current revision, and "ok" means paper.pdf was compiled from the current
      text and is labelled with the current revision. */
  lemma Convergence(actions: seq<Action>, rid: Rid)
    requires Exec(actions).Some? && Quiescent(Exec(actions).value)
    requires rid in Exec(actions).value.files && !Stranded(Exec(actions).value, rid) && !HalfDone(Exec(actions).value, rid)
    ensures var f := Exec(actions).value.files[rid];
            && (Settled(f) <==> f.status.Some?)
            && |f.versions| == f.revision + 1 && f.source == f.versions[f.revision]
  {
    InvAlways(actions);
    var s := Exec(actions).value;
    assert forall h :: h != InSlot ==> !Holds(s, h, rid);
    assert forall i: nat :: !OwedBy(s, i, rid) && !TornBy(s, i, rid);
    assert Versioned(s, rid) && Covered(s, rid);
  }

  /** The step writes the status of rid, rather than skipping the write. */
  predicate WritesStatus(s: State, a: Action, rid: Rid)
    requires Enabled(s, a)
  {
    SaysQueued(s, a, rid)
    || (a.Work? && (s.worker.WritingRunning? || s.worker.WritingOk? || s.worker.WritingFailed?) && s.worker.rid == rid)
  }

  function StatusWrites(actions: seq<Action>, rid: Rid): nat {
    if actions == [] then 0
    else
      var before, a := actions[..|actions| - 1], actions[|actions| - 1];
      StatusWrites(before, rid)
      + match Exec(before) {
          case None => 0
          case Some(s) => if Enabled(s, a) && WritesStatus(s, a, rid) then 1 else 0
        }
  }

  lemma StatusWrittenStep(s: State, a: Action, rid: Rid)
    requires Enabled(s, a) && rid in s.files
    ensures rid in Apply(s, a).files
    ensures Apply(s, a).files[rid].status.Some? <==> s.files[rid].status.Some? || WritesStatus(s, a, rid)
  {
  }

  lemma NothingWrittenYet(s: State, a: Action, rid: Rid)
    requires Scoped(s) && Enabled(s, a) && rid !in s.files
    ensures !WritesStatus(s, a, rid)
    ensures rid in Apply(s, a).files ==> Apply(s, a).files[rid].status == None
  {
  }

  /** A review has a status exactly if a status write of it was ever carried out. */
  lemma {:induction false} StatusIffWritten(actions: seq<Action>, rid: Rid)
    requires Exec(actions).Some?
    ensures rid in Exec(actions).value.files && Exec(actions).value.files[rid].status.Some? <==> StatusWrites(actions, rid) > 0
  {
    if actions != [] {
      var before, a := actions[..|actions| - 1], actions[|actions| - 1];
      StatusIffWritten(before, rid);
      ScopedAlways(before);
      if rid in Exec(before).value.files {
        StatusWrittenStep(Exec(before).value, a, rid);
      } else {
        NothingWrittenYet(Exec(before).value, a, rid);
      }
    }
  }

  /** The poller's self-heal condition. */
  predicate SelfHealWants(f: Files) {
    match f.status
    case None => true
    case Some(st) => (st.state == Ok || st.state == Failed) && st.revision < f.revision
  }

  /** At rest the poller leaves every such review alone, failed ones included, exactly if it has a
      status: while the latex directory cannot be made, every poll wants the compile again. */
  lemma SelfHealIsQuietAtRest(actions: seq<Action>, rid: Rid)
    requires Exec(actions).Some? && Quiescent(Exec(actions).value)
    requires rid in Exec(actions).value.files && !Stranded(Exec(actions).value, rid) && !HalfDone(Exec(actions).value, rid)
    ensures !SelfHealWants(Exec(actions).value.files[rid]) <==> StatusWrites(actions, rid) > 0
  {
    Convergence(actions, rid);
    StatusIffWritten(actions, rid);
  }

  /** The other case is permanent: after an enqueue raised there, rid stays in `_queued`, so no
      later step of anyone ever touches its status or its PDF again. */
  lemma StrandedForever(s: State, a: Action, rid: Rid)
    requires TokenInv(s) && Enabled(s, a) && rid in s.files && Stranded(s, rid)
    ensures rid in Apply(s, a).files && Stranded(Apply(s, a), rid)
    ensures Apply(s, a).files[rid].status == s.files[rid].status && Apply(s, a).files[rid].pdf == s.files[rid].pdf
  {
    var s' := Apply(s, a);
    var i :| 0 <= i < |s.calls| && s.calls[i] == Aborted(rid);
    assert s'.calls[i] == Aborted(rid);
    if s'.files[rid].status != s.files[rid].status || s'.files[rid].pdf != s.files[rid].pdf {
      var w := WriterHolds(s, a, rid);
      assert Holds(s, ByCall(i), rid);
    }
  }

  /** A dead worker stays dead: no PDF and no label ever changes again, and the only status still
      written is an enqueue's "queued". */
  lemma DeadForever(s: State, a: Action, rid: Rid)
    requires s.worker.Dead? && KeepInv(s) && Enabled(s, a) && rid in s.files
    ensures var s' := Apply(s, a);
            && s'.worker == s.worker && rid in s'.files
            && s'.files[rid].pdf == s.files[rid].pdf && KeptPdfRevision(s'.files[rid]) == KeptPdfRevision(s.files[rid])
            && (s'.files[rid].status != s.files[rid].status ==> SaysQueued(s, a, rid))
            && (SaysQueued(s, a, rid) ==> s'.files[rid].status.Some? && s'.files[rid].status.value.state == Queued)
  {
    if a.Advance? {
      assert Keeping(s, ByCall(a.i), rid).Some? ==> s.calls[a.i].keep == KeptPdfRevision(s.files[rid]);
    }
  }

  /** The step writes "queued" into the status of rid. */
  predicate SaysQueued(s: State, a: Action, rid: Rid)
    requires Enabled(s, a)
  {
    a.Advance? && s.calls[a.i].WritingStatus? && s.calls[a.i].rid == rid
  }

  /** Only an exception inside the handler kills the worker. */
  lemma OnlyAHandlerDies(s: State, a: Action)
    requires Enabled(s, a) && !Dying(s.worker)
    ensures Dying(Apply(s, a).worker) <==> a.Raise? && InHandler(s.worker)
  {
  }

  /** A run in which no put, no enqueue's status write and no handler raises. */
  ghost predicate Unhurt(actions: seq<Action>) {
    actions != [] ==>
      && Unhurt(actions[..|actions| - 1])
      && !actions[|actions| - 1].Abort? && !actions[|actions| - 1].Break?
      && (Exec(actions[..|actions| - 1]).Some? && actions[|actions| - 1].Raise? ==>
            !InHandler(Exec(actions[..|actions| - 1]).value.worker))
  }

  lemma {:induction false} UnhurtStays(actions: seq<Action>)
    requires Exec(actions).Some? && Unhurt(actions)
    ensures !Dying(Exec(actions).value.worker) && NoneAborted(Exec(actions).value)
  {
    if actions != [] {
      UnhurtStays(actions[..|actions| - 1]);
      OnlyAHandlerDies(Exec(actions[..|actions| - 1]).value, actions[|actions| - 1]);
      OnlyAbortAborts(Exec(actions[..|actions| - 1]).value, actions[|actions| - 1]);
    }
  }

  predicate NoneAborted(s: State) {
    forall i :: 0 <= i < |s.calls| ==> !s.calls[i].Aborted? && !s.calls[i].HalfPut?
  }

  lemma OnlyAbortAborts(s: State, a: Action)
    requires Enabled(s, a) && !a.Abort? && !a.Break? && NoneAborted(s)
    ensures NoneAborted(Apply(s, a))
  {
  }

  /** In a run without those three accidents, whatever else fails, rest means that a review is settled if
      and only if any status write of it was carried out. */
  lemma UnhurtRunsConverge(actions: seq<Action>, rid: Rid)
    requires Exec(actions).Some? && Unhurt(actions) && AtRest(Exec(actions).value) && rid in Exec(actions).value.files
    ensures Settled(Exec(actions).value.files[rid]) <==> StatusWrites(actions, rid) > 0
  {
    UnhurtStays(actions);
    Convergence(actions, rid);
    StatusIffWritten(actions, rid);
  }

  predicate NothingSkipped(actions: seq<Action>) {
    forall a :: a in actions ==> !a.SkipCall? && !a.SkipWork?
  }

  /** The call has claimed the token of rid and will write "queued". */
  predicate WillSay(c: Call, rid: Rid) {
    (c.Claimed? || c.ReadingStatus? || c.WritingStatus?) && c.rid == rid
  }

  predicate SaidBy(s: State, rid: Rid, i: nat) {
    i < |s.calls| && (WillSay(s.calls[i], rid) || (s.calls[i].Enqueue? && s.calls[i].owes && s.calls[i].rid == rid))
  }

  /** A review has a status, or a call that will give it one; and one whose token is out has a status, or
      a claimed call that will. */
  ghost predicate Announced(s: State, rid: Rid) {
    && rid in s.files
    && (s.files[rid].status.Some? || exists i: nat :: SaidBy(s, rid, i))
    && (rid in s.co.queued || s.co.running == Some(rid) ==>
          s.files[rid].status.Some? || exists i: nat :: i < |s.calls| && WillSay(s.calls[i], rid))
  }

  lemma AnnouncedStep(s: State, a: Action, rid: Rid)
    requires TokenInv(s) && Enabled(s, a) && !a.SkipCall? && !a.SkipWork? && !a.Abort? && !a.Break? && Announced(s, rid)
    ensures Announced(Apply(s, a), rid)
  {
    StatusWrittenStep(s, a, rid);
    var s' := Apply(s, a);
    if s'.files[rid].status == None {
      var i: nat :| SaidBy(s, rid, i);
      if a.Advance? {
        AnnouncedCall(s, a.i, rid, i);
      } else {
        assert s'.calls[i] == s.calls[i] && SaidBy(s', rid, i);
        if rid in s.co.queued || s.co.running == Some(rid) {
          var j: nat :| j < |s.calls| && WillSay(s.calls[j], rid);
          assert s'.calls[j] == s.calls[j];
        } else if a.Work? {
          assert s.worker.Taken? ==> Holds(s, ByPickup, s.worker.rid);
        }
      }
    }
  }

  lemma AnnouncedCall(s: State, k: nat, rid: Rid, i: nat)
    requires Enabled(s, Advance(k)) && Announced(s, rid) && SaidBy(s, rid, i)
    requires rid in AdvanceCall(s, k).files && AdvanceCall(s, k).files[rid].status == None && s.files[rid].status == None
    ensures Announced(AdvanceCall(s, k), rid)
  {
    var s' := AdvanceCall(s, k);
    if rid in s.co.queued || s.co.running == Some(rid) {
      var j: nat :| j < |s.calls| && WillSay(s.calls[j], rid);
      assert WillSay(s'.calls[j], rid) && SaidBy(s', rid, j);
    } else if k == i {
      assert WillSay(s'.calls[i], rid) && SaidBy(s', rid, i);
    } else {
      assert s'.calls[i] == s.calls[i] && SaidBy(s', rid, i);
      assert rid in s'.co.queued ==> WillSay(s'.calls[k], rid);
    }
  }

  lemma AnnouncedAtBirth(s: State, a: Action)
    requires Enabled(s, a) && a.Create? && TokenInv(s) && Scoped(s)
    ensures Announced(Apply(s, a), a.newRid)
  {
    var rid := a.newRid;
    assert SaidBy(Apply(s, a), rid, |s.calls|);
    assert forall h :: h != InSlot ==> !Holds(s, h, rid);
  }

  lemma {:induction false} AnnouncedAlways(actions: seq<Action>, rid: Rid)
    requires Exec(actions).Some? && Unhurt(actions) && NothingSkipped(actions) && rid in Exec(actions).value.files
    ensures Announced(Exec(actions).value, rid)
  {
    var before, a := actions[..|actions| - 1], actions[|actions| - 1];
    InvAlways(before);
    if rid in Exec(before).value.files {
      AnnouncedAlways(before, rid);
      AnnouncedStep(Exec(before).value, a, rid);
    } else {
      AnnouncedAtBirth(Exec(before).value, a);
    }
  }

  /** In particular, if no status write was skipped either, rest means that every review is settled. */
  lemma UnskippedRunsConverge(actions: seq<Action>, rid: Rid)
    requires Exec(actions).Some? && Unhurt(actions) && NothingSkipped(actions)
    requires AtRest(Exec(actions).value) && rid in Exec(actions).value.files
    ensures Settled(Exec(actions).value.files[rid])
  {
    AnnouncedAlways(actions, rid);
    UnhurtStays(actions);
    Convergence(actions, rid);
    assert forall i: nat :: !SaidBy(Exec(actions).value, rid, i);
  }

  // ----------------------------------------------------------------------------------------------
  // After either accident: when a review that will not be compiled again is settled
  // ----------------------------------------------------------------------------------------------

  /** Nothing will compile rid again: its enqueue is stranded, or the worker is dead. */
  ghost predicate Frozen(s: State, rid: Rid) {
    Stranded(s, rid) || s.worker.Dead?
  }

  /** No revision anyone has read or recorded is from the future. */
  predicate RevisionsRead(s: State) {
    && (forall rid :: rid in s.files ==> StatusRead(s.files[rid]))
    && (forall i :: 0 <= i < |s.calls| ==> CallRead(s, i))
    && WorkerRead(s)
  }

  predicate StatusRead(f: Files) {
    f.status.Some? ==> f.status.value.revision <= f.revision
  }

  predicate CallRead(s: State, i: nat)
    requires i < |s.calls|
  {
    var c := s.calls[i];
    (c.ReadingStatus? || c.WritingStatus?) && c.rid in s.files ==> c.rev <= s.files[c.rid].revision
  }

  predicate WorkerRead(s: State) {
    CarriesRevision(s.worker) && s.worker.rid in s.files ==> s.worker.rev <= s.files[s.worker.rid].revision
  }

  predicate CarriesRevision(w: Worker) {
    w.HaveRevision? || w.WritingRunning? || w.ReadingSource? || HasSource(w) || w.ReadingFailed? || w.WritingFailed?
  }

  lemma RevisionsGrow(s: State, a: Action, rid: Rid)
    requires Enabled(s, a) && rid in s.files
    ensures rid in Apply(s, a).files && s.files[rid].revision <= Apply(s, a).files[rid].revision
  {
  }

  lemma StatusReadStep(s: State, a: Action, rid: Rid)
    requires RevisionsRead(s) && Enabled(s, a) && rid in Apply(s, a).files
    ensures StatusRead(Apply(s, a).files[rid])
  {
    if a.Advance? {
      assert CallRead(s, a.i);
    }
  }

  lemma CallReadStep(s: State, a: Action, i: nat)
    requires Scoped(s) && Enabled(s, a) && i < |Apply(s, a).calls| && (i < |s.calls| ==> CallRead(s, i))
    ensures CallRead(Apply(s, a), i)
  {
    if i < |s.calls| && !(a.Advance? && a.i == i) && !s.calls[i].Done? {
      RevisionsGrow(s, a, s.calls[i].rid);
      assert Apply(s, a).calls[i] == s.calls[i] || Over(Apply(s, a).calls[i]) || Apply(s, a).calls[i].Putting?;
    }
  }

  lemma WorkerReadStep(s: State, a: Action)
    requires Scoped(s) && WorkerRead(s) && Enabled(s, a)
    ensures WorkerRead(Apply(s, a))
  {
    if CarriesRevision(s.worker) {
      RevisionsGrow(s, a, s.worker.rid);
    }
  }

  lemma RevisionsReadStep(s: State, a: Action)
    requires RevisionsRead(s) && Scoped(s) && Enabled(s, a)
    ensures RevisionsRead(Apply(s, a))
  {
    var s' := Apply(s, a);
    forall rid | rid in s'.files
      ensures StatusRead(s'.files[rid])
    {
      StatusReadStep(s, a, rid);
    }
    forall i | 0 <= i < |s'.calls|
      ensures CallRead(s', i)
    {
      CallReadStep(s, a, i);
    }
    WorkerReadStep(s, a);
  }

  lemma {:induction false} RevisionsReadAlways(actions: seq<Action>)
    requires Exec(actions).Some?
    ensures RevisionsRead(Exec(actions).value)
  {
    if actions != [] {
      RevisionsReadAlways(actions[..|actions| - 1]);
      ScopedAlways(actions[..|actions| - 1]);
      RevisionsReadStep(Exec(actions[..|actions| - 1]).value, actions[|actions| - 1]);
    }
  }

  /** A step that a frozen review does not survive settled: a put of it, or a "queued" written for it. */
  predicate Unsettles(s: State, a: Action, rid: Rid)
    requires Enabled(s, a)
  {
    (a.Advance? && s.calls[a.i].Put? && s.calls[a.i].rid == rid) || SaysQueued(s, a, rid)
  }

  /** How many such steps a run takes after its first n. */
  function Unsettling(actions: seq<Action>, n: nat, rid: Rid): nat {
    if |actions| <= n then 0
    else
      var before, a := actions[..|actions| - 1], actions[|actions| - 1];
      Unsettling(before, n, rid)
      + match Exec(before) {
          case None => 0
          case Some(s) => if Enabled(s, a) && Unsettles(s, a, rid) then 1 else 0
        }
  }

  /** The status is not final, or is about an older revision. */
  predicate Hopeless(f: Files) {
    f.status == None || f.status.value.state == Queued || f.status.value.state == CompileState.Running
    || f.status.value.revision < f.revision
  }

  /** A frozen review that will never be settled. */
  ghost predicate Lost(s: State, rid: Rid)
    requires rid in s.files
  {
    Hopeless(s.files[rid]) || (!Torn(s, rid) && !Settled(s.files[rid]))
  }

  ghost predicate Kept(s: State, rid: Rid)
    requires rid in s.files
  {
    !Torn(s, rid) && Settled(s.files[rid])
  }

  lemma FrozenStatus(s: State, a: Action, rid: Rid)
    requires Inv(s) && KeepInv(s) && Enabled(s, a) && rid in s.files && Frozen(s, rid)
    ensures rid in Apply(s, a).files && Frozen(Apply(s, a), rid)
    ensures var f, f' := s.files[rid], Apply(s, a).files[rid];
            && f'.pdf == f.pdf
            && (if SaysQueued(s, a, rid) then f'.status.Some? && f'.status.value.state == Queued else f'.status == f.status)
  {
    if Stranded(s, rid) {
      StrandedForever(s, a, rid);
      var i :| 0 <= i < |s.calls| && s.calls[i] == Aborted(rid);
      assert Holds(s, ByCall(i), rid);
      assert SaysQueued(s, a, rid) ==> Holds(s, ByCall(a.i), rid);
    } else {
      DeadForever(s, a, rid);
    }
  }

  lemma FrozenStep(s: State, a: Action, rid: Rid)
    requires Inv(s) && KeepInv(s) && RevisionsRead(s) && Enabled(s, a) && rid in s.files && Frozen(s, rid)
    ensures rid in Apply(s, a).files && Frozen(Apply(s, a), rid)
    ensures Kept(s, rid) && !Unsettles(s, a, rid) ==> Kept(Apply(s, a), rid)
    ensures Lost(s, rid) || (Kept(s, rid) && Unsettles(s, a, rid)) ==> Lost(Apply(s, a), rid)
  {
    FrozenStatus(s, a, rid);
    assert StatusRead(s.files[rid]);
    if !WritesText(s, a, rid) {
      TextKept(s, a, rid);
      TornSame(s, a, rid);
    } else if s.calls[a.i].PutBumped? {
      assert TornBy(s, a.i, rid);
    }
  }

  /** The exact condition.  Take a moment at which rid is stranded or the worker is dead, and no put of
      rid is between its writes.  At any later moment of the run rid is settled if and only if it was
      settled then, and since then no put of it has begun to write and no "queued" was written for it. */
  lemma {:induction false} FrozenSettledIff(actions: seq<Action>, n: nat, rid: Rid)
    requires n <= |actions| && Exec(actions).Some? && Exec(actions[..n]).Some?
    requires var s := Exec(actions[..n]).value; rid in s.files && Frozen(s, rid) && !Torn(s, rid)
    ensures var s, s' := Exec(actions[..n]).value, Exec(actions).value;
            && rid in s'.files && Frozen(s', rid)
            && (if Settled(s.files[rid]) && Unsettling(actions, n, rid) == 0 then Kept(s', rid) else Lost(s', rid))
            && (Settled(s'.files[rid]) <==> Settled(s.files[rid]) && Unsettling(actions, n, rid) == 0)
    decreases |actions|
  {
    if n == |actions| {
      assert actions[..n] == actions;
    } else {
      var before, a := actions[..|actions| - 1], actions[|actions| - 1];
      assert before[..n] == actions[..n];
      FrozenSettledIff(before, n, rid);
      InvAlways(before);
      StatusWritesDoNotRace(before);
      RevisionsReadAlways(before);
      FrozenStep(Exec(before).value, a, rid);
    }
  }

  // ----------------------------------------------------------------------------------------------
  // Exactly when a review at rest is settled
  // ----------------------------------------------------------------------------------------------

  predicate Final(f: Files) {
    f.status.Some? && (f.status.value.state == Ok || f.status.value.state == Failed)
  }

  /** What a status says about who is at work. */
  predicate StatusTells(s: State, rid: Rid) {
    && rid in s.files
    && var f, w, last := s.files[rid], s.worker, PastOf(s, rid).last;
    && (f.status == None || Final(f) || rid in s.co.queued || s.co.running == Some(rid) || (Dying(w) && w.rid == rid))
    && (w.Ending? && !w.dying && w.rid == rid ==> f.status == None || Final(f))
    && ((w.ReadingSource? || HasSource(w)) && w.rid == rid ==> f.status == None || f.status.value.state == CompileState.Running)
    && (f.status.Some? && f.status.value.state == Ok ==>
          last.Some? && last.value.recorded && last.value.rev == f.status.value.revision)
  }

  lemma StatusTellsWork(s: State, succeeds: bool, rid: Rid)
    requires SlotInv(s) && Enabled(s, Work(succeeds)) && StatusTells(s, rid) && PastInv(s, rid)
    ensures StatusTells(WorkerStep(s, succeeds), rid)
  {
    if !WorksOn(s.worker, rid) {
      StatusTellsElsewhere(s, succeeds, rid);
    } else if s.worker.Taken? || s.worker.Ending? || s.worker.Requeueing? {
      StatusTellsAround(s, succeeds);
    } else {
      StatusTellsHere(s, succeeds);
    }
  }

  lemma StatusTellsElsewhere(s: State, succeeds: bool, rid: Rid)
    requires SlotInv(s) && Enabled(s, Work(succeeds)) && StatusTells(s, rid) && !WorksOn(s.worker, rid)
    ensures StatusTells(WorkerStep(s, succeeds), rid)
  {
    var s' := WorkerStep(s, succeeds);
    assert s'.files[rid] == s.files[rid] && PastOf(s', rid) == PastOf(s, rid);
    assert rid in s'.co.queued <==> rid in s.co.queued;
    assert s'.co.running == Some(rid) <==> s.co.running == Some(rid);
  }

  /** The lock sections and the queue put. */
  lemma StatusTellsAround(s: State, succeeds: bool)
    requires SlotInv(s) && Enabled(s, Work(succeeds)) && (s.worker.Taken? || s.worker.Ending? || s.worker.Requeueing?)
    requires StatusTells(s, s.worker.rid)
    ensures StatusTells(WorkerStep(s, succeeds), s.worker.rid)
  {
  }

  lemma StatusTellsHere(s: State, succeeds: bool)
    requires SlotInv(s) && Enabled(s, Work(succeeds)) && s.co.running.Some? && !s.worker.Ending?
    requires StatusTells(s, s.worker.rid) && PastInv(s, s.worker.rid)
    ensures StatusTells(WorkerStep(s, succeeds), s.worker.rid)
  {
    assert WorkerStep(s, succeeds).co == s.co;
  }

  lemma StatusTellsCall(s: State, a: Action, rid: Rid)
    requires SlotInv(s) && Enabled(s, a) && !a.Work? && StatusTells(s, rid)
    requires a.Advance? && CallHolds(s.calls[a.i], rid) ==> rid in s.co.queued && s.co.running != Some(rid)
    ensures StatusTells(Apply(s, a), rid)
  {
    CallFrame(s, a, rid);
    WorkerFrame(s, a);
  }

  lemma CallFrame(s: State, a: Action, rid: Rid)
    requires Enabled(s, a) && !a.Work? && rid in s.files
    ensures var s' := Apply(s, a);
            && rid in s'.files && PastOf(s', rid).last == PastOf(s, rid).last
            && s'.co.running == s.co.running && s.co.queued <= s'.co.queued
            && (if SaysQueued(s, a, rid) then s'.files[rid].status.Some? && s'.files[rid].status.value.state == Queued
                else s'.files[rid].status == s.files[rid].status)
  {
  }

  lemma WorkerFrame(s: State, a: Action)
    requires Enabled(s, a) && !a.Work?
    ensures var w, w' := s.worker, Apply(s, a).worker;
            || w' == w
            || (a.Raise? && !w.Idle? && (w' == Raised(w.rid) || w' == Ending(w.rid, true)))
            || (a.SkipWork? && !w.Idle? && w.rid in s.files && s.files[w.rid].status == None && (w'.ReadingSource? || w' == Ending(w.rid, false)) && w'.rid == w.rid)
  {
  }

  lemma StatusTellsStep(s: State, a: Action, rid: Rid)
    requires TokenInv(s) && Enabled(s, a) && StatusTells(s, rid) && PastInv(s, rid)
    ensures StatusTells(Apply(s, a), rid)
  {
    if a.Work? {
      StatusTellsWork(s, a.succeeds, rid);
    } else {
      if a.Advance? && CallHolds(s.calls[a.i], rid) {
        assert Holds(s, ByCall(a.i), rid);
        assert s.co.running == Some(rid) ==> Holds(s, InSlot, rid);
      }
      StatusTellsCall(s, a, rid);
    }
  }

  lemma {:induction false} StatusTellsAlways(actions: seq<Action>, rid: Rid)
    requires Exec(actions).Some? && rid in Exec(actions).value.files
    ensures StatusTells(Exec(actions).value, rid)
  {
    var before, a := actions[..|actions| - 1], actions[|actions| - 1];
    var s := Exec(before).value;
    InvAlways(before);
    if rid in s.files {
      PastAlways(before, rid);
      StatusTellsAlways(before, rid);
      StatusTellsStep(s, a, rid);
    } else {
      NewWorkerElsewhere(s, a);
    }
  }

  lemma NewWorkerElsewhere(s: State, a: Action)
    requires Scoped(s) && a.Create? && Enabled(s, a)
    ensures StatusTells(Apply(s, a), a.newRid)
  {
  }

  /** The compile of a recorded replacement read the revision (line 113) while the put that counted it
      was between its two writes, and the source (line 146) before the second. */
  predicate ReadInsidePut(r: Replace) {
    r.base < r.rev && r.index == r.base
  }

  /** The exact condition of convergence, with every failure the model has.  At rest with the worker
      alive, a review that no enqueue stranded is settled if and only if the poller does not want it,
      and its "ok" is not from a compile that read inside a put which then changed the text. */
  lemma SettledAtRestIff(actions: seq<Action>, rid: Rid)
    requires Exec(actions).Some? && Quiescent(Exec(actions).value)
    requires rid in Exec(actions).value.files && !Stranded(Exec(actions).value, rid)
    ensures var f, last := Exec(actions).value.files[rid], PastOf(Exec(actions).value, rid).last;
            && (Final(f) && f.status.value.state == Ok ==> last.Some? && 0 <= last.value.rev < |f.versions|)
            && (Settled(f) <==>
                  && !SelfHealWants(f)
                  && !(f.status.value.state == Ok && ReadInsidePut(last.value)
                       && f.versions[last.value.rev - 1] != f.versions[last.value.rev]))
  {
    RestFacts(actions, rid);
    RestSettled(Exec(actions).value.files[rid], PastOf(Exec(actions).value, rid));
  }

  lemma RestSettled(f: Files, p: Past)
    requires p.overwrites == f.revision && FilePast(f, p) && StatusRead(f) && (f.status == None || Final(f))
    requires f.status.Some? && f.status.value.state == Ok ==>
               p.last.Some? && p.last.value.recorded && p.last.value.rev == f.status.value.revision
    ensures Settled(f) <==>
              && !SelfHealWants(f)
              && !(f.status.value.state == Ok && ReadInsidePut(p.last.value)
                   && f.versions[p.last.value.rev - 1] != f.versions[p.last.value.rev])
  {
  }

  lemma RestFacts(actions: seq<Action>, rid: Rid)
    requires Exec(actions).Some? && Quiescent(Exec(actions).value)
    requires rid in Exec(actions).value.files && !Stranded(Exec(actions).value, rid)
    ensures var s := Exec(actions).value;
            var f, p := s.files[rid], PastOf(s, rid);
            && p.overwrites == f.revision && FilePast(f, p) && StatusRead(f) && (f.status == None || Final(f))
            && (f.status.Some? && f.status.value.state == Ok ==>
                  p.last.Some? && p.last.value.recorded && p.last.value.rev == f.status.value.revision)
  {
    var s := Exec(actions).value;
    InvAlways(actions);
    PastAlways(actions, rid);
    StatusTellsAlways(actions, rid);
    RevisionsReadAlways(actions);
    NotHeldAtRest(s, rid);
    assert forall i: nat :: !TornBy(s, i, rid);
  }

  /** A review at rest that is neither settled nor wanted takes two things: some put of it raised before
      its enqueue, and the compile that said "ok" had read the newest revision while its put was between
      its two writes, and the source before the second of them. */
  lemma OlderTextNeedsAHalfPut(actions: seq<Action>, rid: Rid)
    requires Exec(actions).Some? && Quiescent(Exec(actions).value)
    requires rid in Exec(actions).value.files && !Stranded(Exec(actions).value, rid)
    requires !Settled(Exec(actions).value.files[rid]) && !SelfHealWants(Exec(actions).value.files[rid])
    ensures var s := Exec(actions).value;
            var f, last := s.files[rid], PastOf(s, rid).last;
            && HalfDone(s, rid) && f.status.Some? && f.status.value.state == Ok && last.Some?
            && last.value.rev == f.revision && ReadInsidePut(last.value)
  {
    var s := Exec(actions).value;
    SettledAtRestIff(actions, rid);
    if !HalfDone(s, rid) {
      Convergence(actions, rid);
    }
    RestFacts(actions, rid);
  }

  lemma NotHeldAtRest(s: State, rid: Rid)
    requires QueuedIsHeld(s) && Quiescent(s) && !Stranded(s, rid)
    ensures rid !in s.co.queued
  {
    assert forall h :: h != InSlot ==> !Holds(s, h, rid);
  }
}
