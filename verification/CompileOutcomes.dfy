/**
  What a status says about the compile behind it, over every run of the compile worker: "ok" exactly when
  Tectonic produced a PDF and nothing raised before that was recorded.
 */
module CompileOutcomes {
  import opened Common
  import opened CompileProtocol
  import opened CompileRaces
  import opened CompileLabels
  import opened CompileConvergence

  /** How the latest compile of a review went: none has begun, it is not yet known, it produced a PDF, or it
      did not or raised. */
  datatype Verdict = NoneYet | Open | Good | Bad

  /** The verdict, read off the steps of the run: a compile begins with the worker's opening lock section;
      the flag of the step that runs Tectonic is its outcome; an exception before the end makes it bad. */
  function VerdictOf(actions: seq<Action>, rid: Rid): Verdict {
    if actions == [] then NoneYet
    else
      var v := VerdictOf(actions[..|actions| - 1], rid);
      match Exec(actions[..|actions| - 1])
      case None => v
      case Some(s) => After(s, actions[|actions| - 1], v, rid)
  }

  function After(s: State, a: Action, v: Verdict, rid: Rid): Verdict {
    if s.worker.Idle? || s.worker.rid != rid then v
    else if a.Work? && s.worker.Taken? then Open
    else if a.Work? && s.worker.Compiling? then (if a.succeeds then Good else Bad)
    else if a.Raise? && InCompile(s.worker) then Bad
    else v
  }

  /** Where a compile of rid stands tells how it went so far. */
  predicate WorkerAgrees(w: Worker, v: Verdict) {
    match w
    case Begun(_) => v == Open
    case HaveRevision(_, _, _) => v == Open
    case WritingRunning(_, _, _, _) => v == Open
    case ReadingSource(_, _, _) => v == Open
    case Compiling(_, _, _, _, _) => v == Open
    case ReplacingPdf(_, _, _, _, _) => v == Good
    case WritingOk(_, _, _, _, _) => v == Good
    case ReadingFailed(_, _, _) => v == Bad
    case WritingFailed(_, _, _, _) => v == Bad
    case Raised(_) => v == Bad
    case _ => true
  }

  /** The worker has a compile of rid in hand that has not ended, or died of it. */
  predicate Busy(w: Worker, rid: Rid) {
    !w.Idle? && w.rid == rid && (InCompile(w) || InHandler(w) || Dying(w))
  }

  /** Outside a compile of it, a final status tells how the latest one went. */
  predicate Tells(s: State, v: Verdict, rid: Rid) {
    && rid in s.files
    && (!s.worker.Idle? && s.worker.rid == rid ==> WorkerAgrees(s.worker, v))
    && (Final(s.files[rid]) && !Busy(s.worker, rid) ==> (if s.files[rid].status.value.state == Ok then v == Good else v == Bad))
    && (v == NoneYet ==> !Final(s.files[rid]))
  }

  lemma TellsWork(s: State, succeeds: bool, v: Verdict, rid: Rid)
    requires Enabled(s, Work(succeeds)) && Tells(s, v, rid)
    ensures Tells(WorkerStep(s, succeeds), After(s, Work(succeeds), v, rid), rid)
  {
    if s.worker.Idle? || s.worker.rid != rid {
      assert WorkerStep(s, succeeds).files[rid] == s.files[rid];
    } else {
      TellsHere(s, succeeds, v);
    }
  }

  lemma TellsHere(s: State, succeeds: bool, v: Verdict)
    requires Enabled(s, Work(succeeds)) && !s.worker.Idle? && Tells(s, v, s.worker.rid)
    ensures Tells(WorkerStep(s, succeeds), After(s, Work(succeeds), v, s.worker.rid), s.worker.rid)
  {
  }

  lemma TellsCall(s: State, a: Action, v: Verdict, rid: Rid)
    requires Enabled(s, a) && !a.Work? && Tells(s, v, rid)
    requires StatusTells(s, rid)
    ensures Tells(Apply(s, a), After(s, a, v, rid), rid)
  {
    CallFrame(s, a, rid);
  }

  lemma TellsStep(s: State, a: Action, v: Verdict, rid: Rid)
    requires Enabled(s, a) && Tells(s, v, rid) && StatusTells(s, rid)
    ensures Tells(Apply(s, a), After(s, a, v, rid), rid)
  {
    if a.Work? {
      TellsWork(s, a.succeeds, v, rid);
    } else {
      TellsCall(s, a, v, rid);
    }
  }

  lemma {:induction false} TellsAlways(actions: seq<Action>, rid: Rid)
    requires Exec(actions).Some? && rid in Exec(actions).value.files
    ensures Tells(Exec(actions).value, VerdictOf(actions, rid), rid)
  {
    var before, a := actions[..|actions| - 1], actions[|actions| - 1];
    var s := Exec(before).value;
    if rid in s.files {
      TellsAlways(before, rid);
      StatusTellsAlways(before, rid);
      TellsStep(s, a, VerdictOf(before, rid), rid);
    } else {
      ScopedAlways(before);
      NoVerdictYet(before, rid);
      CreatedUntold(s, a, rid);
    }
  }

  lemma CreatedUntold(s: State, a: Action, rid: Rid)
    requires Scoped(s) && Enabled(s, a) && rid !in s.files && rid in Apply(s, a).files
    ensures Tells(Apply(s, a), NoneYet, rid) && After(s, a, NoneYet, rid) == NoneYet
  {
  }

  lemma {:induction false} NoVerdictYet(actions: seq<Action>, rid: Rid)
    requires Exec(actions).Some? && rid !in Exec(actions).value.files
    ensures VerdictOf(actions, rid) == NoneYet
  {
    if actions != [] {
      var before, a := actions[..|actions| - 1], actions[|actions| - 1];
      ScopedAlways(before);
      NeverForgotten(Exec(before).value, a, rid);
      NoVerdictYet(before, rid);
    }
  }

  lemma NeverForgotten(s: State, a: Action, rid: Rid)
    requires Enabled(s, a)
    ensures rid in s.files ==> rid in Apply(s, a).files
  {
  }

  /** In every reachable state, what the poller passes over: with a status, it wants just the reviews whose
      latest compile has ended, good or bad, about a revision that is not the current one; and one that
      has not ended is under way, pending, or died of. */
  lemma PollerPassesOver(actions: seq<Action>, rid: Rid)
    requires Exec(actions).Some? && rid in Exec(actions).value.files && Exec(actions).value.files[rid].status.Some?
    ensures var s := Exec(actions).value;
            var f := s.files[rid];
            && (SelfHealWants(f) <==> (Says(f, Ok) || Says(f, Failed)) && f.status.value.revision != f.revision)
            && (Says(f, Queued) || Says(f, CompileState.Running) ==>
                  rid in s.co.queued || s.co.running == Some(rid) || (Dying(s.worker) && s.worker.rid == rid))
  {
    StatusTellsAlways(actions, rid);
    RevisionsReadAlways(actions);
    assert StatusRead(Exec(actions).value.files[rid]);
  }

  // ----------------------------------------------------------------------------------------------
  // Which revision a status is about
  // ----------------------------------------------------------------------------------------------

  /** The step reads the revision of rid for a status: a claimed enqueue, a compile as it begins, or the
      handler. */
  predicate ReadsRevision(s: State, a: Action, rid: Rid)
    requires Enabled(s, a)
  {
    || (a.Advance? && s.calls[a.i] == Claimed(rid))
    || (a.Work? && (s.worker == Begun(rid) || s.worker == CompileProtocol.Raised(rid)))
  }

  /** The revision the review had when it was last read so. */
  function RevisionRead(actions: seq<Action>, rid: Rid): nat {
    if actions == [] then 0
    else
      var before, a := actions[..|actions| - 1], actions[|actions| - 1];
      match Exec(before)
      case None => RevisionRead(before, rid)
      case Some(s) =>
        if Enabled(s, a) && ReadsRevision(s, a, rid) && rid in s.files then s.files[rid].revision else RevisionRead(before, rid)
  }

  /** And the revision read last before the latest status write. */
  function RevisionTold(actions: seq<Action>, rid: Rid): nat {
    if actions == [] then 0
    else
      var before, a := actions[..|actions| - 1], actions[|actions| - 1];
      match Exec(before)
      case None => RevisionTold(before, rid)
      case Some(s) =>
        if Enabled(s, a) && WritesStatus(s, a, rid) then RevisionRead(before, rid) else RevisionTold(before, rid)
  }

  /** Who is on the way to writing a status of rid carries the revision read last. */
  predicate CallCarries(s: State, i: nat, rid: Rid, read: nat)
    requires i < |s.calls|
  {
    (s.calls[i].ReadingStatus? || s.calls[i].WritingStatus?) && s.calls[i].rid == rid ==> s.calls[i].rev == read
  }

  predicate WorkerCarries(s: State, rid: Rid, read: nat) {
    CarriesRevision(s.worker) && s.worker.rid == rid ==> s.worker.rev == read
  }

  predicate Carried(s: State, rid: Rid, read: nat, told: nat) {
    && rid in s.files
    && (forall i :: 0 <= i < |s.calls| ==> CallCarries(s, i, rid, read))
    && WorkerCarries(s, rid, read)
    && (s.files[rid].status.Some? ==> s.files[rid].status.value.revision == told)
  }

  /** Nobody else has the token of rid when its revision is read. */
  lemma ReadAlone(s: State, a: Action, rid: Rid, i: nat)
    requires TokenInv(s) && Enabled(s, a) && ReadsRevision(s, a, rid) && i < |s.calls| && CallHolds(s.calls[i], rid)
    ensures a == Advance(i)
  {
    assert Holds(s, ByCall(i), rid);
    assert Holds(s, if a.Work? then InSlot else ByCall(a.i), rid);
  }

  /** What a step does to a call that carries a revision. */
  lemma CallKeepsRevision(s: State, a: Action, rid: Rid, i: nat)
    requires Enabled(s, a) && i < |Apply(s, a).calls|
    ensures var c := Apply(s, a).calls[i];
            (c.ReadingStatus? || c.WritingStatus?) && c.rid == rid ==>
              && i < |s.calls| && s.calls[i].rid == rid && CallHolds(s.calls[i], rid)
              && (if s.calls[i].Claimed? then a == Advance(i) && rid in s.files && c.rev == s.files[rid].revision
                  else (s.calls[i].ReadingStatus? || s.calls[i].WritingStatus?) && c.rev == s.calls[i].rev)
  {
  }

  lemma CarriedCall(s: State, a: Action, rid: Rid, read: nat, told: nat, i: nat)
    requires TokenInv(s) && Enabled(s, a) && Carried(s, rid, read, told) && i < |Apply(s, a).calls|
    ensures CallCarries(Apply(s, a), i, rid, if ReadsRevision(s, a, rid) then s.files[rid].revision else read)
  {
    CallKeepsRevision(s, a, rid, i);
    if i < |s.calls| {
      assert CallCarries(s, i, rid, read);
      if CallHolds(s.calls[i], rid) && ReadsRevision(s, a, rid) {
        ReadAlone(s, a, rid, i);
      }
    }
  }

  lemma CarriedWorker(s: State, a: Action, rid: Rid, read: nat, told: nat)
    requires TokenInv(s) && Enabled(s, a) && Carried(s, rid, read, told)
    ensures WorkerCarries(Apply(s, a), rid, if ReadsRevision(s, a, rid) then s.files[rid].revision else read)
  {
    if a.Advance? && ReadsRevision(s, a, rid) {
      assert Holds(s, ByCall(a.i), rid);
      assert s.co.running == Some(rid) ==> Holds(s, InSlot, rid);
    }
  }

  lemma CarriedStatus(s: State, a: Action, rid: Rid, read: nat, told: nat)
    requires Enabled(s, a) && Carried(s, rid, read, told)
    ensures rid in Apply(s, a).files
    ensures Apply(s, a).files[rid].status.Some? ==>
              Apply(s, a).files[rid].status.value.revision == if WritesStatus(s, a, rid) then read else told
  {
    if a.Advance? {
      assert CallCarries(s, a.i, rid, read);
    }
  }

  lemma CarriedStep(s: State, a: Action, rid: Rid, read: nat, told: nat)
    requires TokenInv(s) && Enabled(s, a) && Carried(s, rid, read, told)
    ensures Carried(Apply(s, a), rid, if ReadsRevision(s, a, rid) then s.files[rid].revision else read,
                    if WritesStatus(s, a, rid) then read else told)
  {
    var s', read' := Apply(s, a), if ReadsRevision(s, a, rid) then s.files[rid].revision else read;
    forall i | 0 <= i < |s'.calls|
      ensures CallCarries(s', i, rid, read')
    {
      CarriedCall(s, a, rid, read, told, i);
    }
    CarriedWorker(s, a, rid, read, told);
    CarriedStatus(s, a, rid, read, told);
  }

  lemma CarriedAtBirth(s: State, a: Action, rid: Rid, read: nat, told: nat)
    requires Scoped(s) && Enabled(s, a) && rid !in s.files && rid in Apply(s, a).files
    ensures Carried(Apply(s, a), rid, read, told)
  {
  }

  lemma {:induction false} CarriedAlways(actions: seq<Action>, rid: Rid)
    requires Exec(actions).Some? && rid in Exec(actions).value.files
    ensures Carried(Exec(actions).value, rid, RevisionRead(actions, rid), RevisionTold(actions, rid))
  {
    var before, a := actions[..|actions| - 1], actions[|actions| - 1];
    InvAlways(before);
    if rid in Exec(before).value.files {
      CarriedAlways(before, rid);
      CarriedStep(Exec(before).value, a, rid, RevisionRead(before, rid), RevisionTold(before, rid));
    } else {
      CarriedAtBirth(Exec(before).value, a, rid, RevisionRead(actions, rid), RevisionTold(actions, rid));
    }
  }

  /** In every reachable state, however the threads interleave: a status, whatever it says, names the
      revision the review had when whoever wrote it had read it. */
  lemma StatusNamesTheRevisionRead(actions: seq<Action>, rid: Rid)
    requires Exec(actions).Some? && rid in Exec(actions).value.files && Exec(actions).value.files[rid].status.Some?
    ensures Exec(actions).value.files[rid].status.value.revision == RevisionTold(actions, rid)
  {
    CarriedAlways(actions, rid);
  }

  // ----------------------------------------------------------------------------------------------
  // Main results
  // ----------------------------------------------------------------------------------------------

  predicate Says(f: Files, state: CompileState) {
    f.status.Some? && f.status.value.state == state
  }

  /** In every reachable state: unless a compile of the review is under way or the worker died of one, a
      final status tells how its latest compile went. */
  lemma StatusIsTheVerdict(actions: seq<Action>, rid: Rid)
    requires Exec(actions).Some? && rid in Exec(actions).value.files && !Busy(Exec(actions).value.worker, rid)
    ensures var f, v := Exec(actions).value.files[rid], VerdictOf(actions, rid);
            && (Says(f, Ok) ==> v == Good)
            && (Says(f, Failed) ==> v == Bad)
  {
    TellsAlways(actions, rid);
  }

  /** As a compile ends, handler included: if it has a status to write to, the status is "ok" if and only if
      Tectonic produced a PDF and nothing raised before that was recorded, and otherwise "failed". */
  lemma CompileEndsWithItsVerdict(actions: seq<Action>, rid: Rid)
    requires Exec(actions).Some? && rid in Exec(actions).value.files && Exec(actions).value.worker == Ending(rid, false)
    ensures var f, v := Exec(actions).value.files[rid], VerdictOf(actions, rid);
            f.status == None || (v == Good && Says(f, Ok)) || (v == Bad && Says(f, Failed))
  {
    TellsAlways(actions, rid);
    StatusTellsAlways(actions, rid);
  }

  /** At rest with the worker alive, a review that no enqueue stranded has no status, or says "ok" if its
      latest compile was good and "failed" if it was bad. */
  lemma RestSaysTheVerdict(actions: seq<Action>, rid: Rid)
    requires Exec(actions).Some? && Quiescent(Exec(actions).value)
    requires rid in Exec(actions).value.files && !Stranded(Exec(actions).value, rid)
    ensures var f, v := Exec(actions).value.files[rid], VerdictOf(actions, rid);
            f.status == None || (v == Good && Says(f, Ok)) || (v == Bad && Says(f, Failed))
  {
    RestFacts(actions, rid);
    TellsAlways(actions, rid);
  }

  /** So a run in which nothing was hurt and nothing skipped ends, at rest, with every review's latest
      compile on record: "ok" about the current text if it was good, and "failed" if not. */
  lemma OkIffProduced(actions: seq<Action>, rid: Rid)
    requires Exec(actions).Some? && Unhurt(actions) && NothingSkipped(actions)
    requires AtRest(Exec(actions).value) && rid in Exec(actions).value.files
    ensures var f, v := Exec(actions).value.files[rid], VerdictOf(actions, rid);
            && Settled(f) && (v == Good || v == Bad)
            && (Says(f, Ok) <==> v == Good) && (Says(f, Failed) <==> v == Bad)
  {
    UnskippedRunsConverge(actions, rid);
    UnhurtStays(actions);
    RestSaysTheVerdict(actions, rid);
  }
}
