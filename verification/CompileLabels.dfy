/**
  Which revision paper.pdf came from: what the label in status.json says about it, in every state of
  every run of the compile worker.
 */
module CompileLabels {
  import opened Common
  import opened CompileProtocol
  import opened CompileRaces

  // ----------------------------------------------------------------------------------------------
  // Main results: which revision paper.pdf came from
  // ----------------------------------------------------------------------------------------------

  /** The worker has read the revision of rid (line 113) and not yet its source (line 146). */
  predicate BetweenReads(w: Worker, rid: Rid) {
    (w.HaveRevision? || w.WritingRunning? || w.ReadingSource?) && w.rid == rid
  }

  /** The recorded pdf_revision is exactly the revision whose text paper.pdf was compiled from. */
  predicate Labelled(f: Files) {
    match KeptPdfRevision(f)
    case None => f.pdf == None
    case Some(k) => k < |f.versions| && f.pdf == Some(f.versions[k])
  }

  /** What the history of a review says about its files: the version source.md holds, the version
      paper.pdf was compiled from, and the label that is on it. */
  predicate FilePast(f: Files, p: Past) {
    && |f.versions| == f.revision + 1 && p.overwrites <= f.revision && f.source == f.versions[p.overwrites]
    && match p.last
       case None => f.pdf == None && KeptPdfRevision(f) == None
       case Some(r) =>
         && r.base <= r.index <= p.overwrites && r.base <= r.rev <= r.base + 1 && r.rev <= f.revision
         && f.pdf == Some(f.versions[r.index])
         && KeptPdfRevision(f) == (if r.recorded then Some(r.rev) else r.before)
         && (r.before.Some? ==> r.before.value <= f.revision)
  }

  predicate HasSource(w: Worker) {
    w.Compiling? || w.ReplacingPdf? || w.WritingOk?
  }

  /** What the worker carries of the review it is compiling. */
  predicate WorkerPast(w: Worker, f: Files, p: Past) {
    && (w.HaveRevision? || w.WritingRunning? || w.ReadingSource? ==>
          w.base <= p.overwrites && w.base <= w.rev <= w.base + 1 && w.rev <= f.revision)
    && (HasSource(w) ==>
          && w.base <= w.index <= p.overwrites && w.base <= w.rev <= w.base + 1 && w.rev <= f.revision
          && w.index < |f.versions| && w.text == f.versions[w.index])
    && (w.WritingOk? ==> p.last.Some? && p.last.value == Replace(w.index, w.rev, w.base, false, p.last.value.before))
  }

  predicate WorksOn(w: Worker, rid: Rid) {
    !w.Idle? && w.rid == rid
  }

  ghost predicate PastInv(s: State, rid: Rid) {
    && rid in s.files
    && var f, p := s.files[rid], PastOf(s, rid);
    && p.overwrites == f.revision - (if Torn(s, rid) then 1 else 0)
    && FilePast(f, p)
    && (WorksOn(s.worker, rid) ==> WorkerPast(s.worker, f, p))
  }

  lemma PastWork(s: State, succeeds: bool, rid: Rid)
    requires KeepInv(s) && Enabled(s, Work(succeeds)) && rid in s.files && PastInv(s, rid)
    ensures PastInv(WorkerStep(s, succeeds), rid)
  {
    var s' := WorkerStep(s, succeeds);
    TornSame(s, Work(succeeds), rid);
    if WorksOn(s.worker, rid) {
      assert Keeping(s, InSlot, rid).Some? ==> s.worker.keep == KeptPdfRevision(s.files[rid]);
      PastWorkHere(s, succeeds);
    } else {
      assert s'.files[rid] == s.files[rid] && PastOf(s', rid) == PastOf(s, rid);
    }
  }

  /** FilePast and WorkerPast, for the review the worker is on. */
  predicate PastHere(s: State, rid: Rid)
    requires rid in s.files
  {
    var f, p := s.files[rid], PastOf(s, rid);
    f.revision <= p.overwrites + 1 && FilePast(f, p) && (WorksOn(s.worker, rid) ==> WorkerPast(s.worker, f, p))
  }

  lemma PastWorkHere(s: State, succeeds: bool)
    requires Enabled(s, Work(succeeds)) && !s.worker.Idle? && s.worker.rid in s.files && PastHere(s, s.worker.rid)
    requires s.worker.WritingRunning? || s.worker.WritingFailed? ==> s.worker.keep == KeptPdfRevision(s.files[s.worker.rid])
    ensures var s', rid := WorkerStep(s, succeeds), s.worker.rid;
            && s'.files[rid].revision == s.files[rid].revision && PastOf(s', rid).overwrites == PastOf(s, rid).overwrites
            && PastHere(s', rid)
  {
    if HasSource(s.worker) {
      PastWorkLate(s, succeeds);
    }
  }

  lemma PastWorkLate(s: State, succeeds: bool)
    requires Enabled(s, Work(succeeds)) && HasSource(s.worker) && PastHere(s, s.worker.rid)
    ensures var s', rid := WorkerStep(s, succeeds), s.worker.rid;
            && s'.files[rid].revision == s.files[rid].revision && PastOf(s', rid).overwrites == PastOf(s, rid).overwrites
            && PastHere(s', rid)
  {
  }

  lemma PastPut(s: State, i: nat, rid: Rid)
    requires LockInv(s) && Enabled(s, Advance(i)) && rid in s.files && PastInv(s, rid)
    requires s.calls[i].Put? && s.calls[i].rid == rid
    ensures PastInv(AdvanceCall(s, i), rid)
  {
    assert !Torn(s, rid);
    assert TornBy(AdvanceCall(s, i), i, rid);
  }

  lemma PastOverwrite(s: State, i: nat, rid: Rid)
    requires LockInv(s) && Enabled(s, Advance(i)) && rid in s.files && PastInv(s, rid) && Versioned(s, rid) && TornBy(s, i, rid)
    ensures PastInv(AdvanceCall(s, i), rid)
  {
    assert forall k: nat :: !TornBy(AdvanceCall(s, i), k, rid);
  }

  lemma PastBreak(s: State, i: nat, rid: Rid)
    requires LockInv(s) && Enabled(s, Break(i)) && rid in s.files && PastInv(s, rid) && Versioned(s, rid) && TornBy(s, i, rid)
    ensures PastInv(BreakCall(s, i), rid)
  {
    assert forall k: nat :: !TornBy(BreakCall(s, i), k, rid);
    assert forall k :: 0 <= k < s.files[rid].revision ==> AllButNewest(s.files[rid].versions)[k] == s.files[rid].versions[k];
  }

  /** Status writes and every step about another review. */
  lemma PastOther(s: State, a: Action, rid: Rid)
    requires KeepInv(s) && Enabled(s, a) && !a.Work? && rid in s.files && PastInv(s, rid) && !WritesText(s, a, rid)
    ensures PastInv(Apply(s, a), rid)
  {
    TornSame(s, a, rid);
    TextKept(s, a, rid);
    PastKept(s, a, rid);
  }

  lemma PastKept(s: State, a: Action, rid: Rid)
    requires KeepInv(s) && Enabled(s, a) && !a.Work? && rid in s.files && !WritesText(s, a, rid)
    ensures var s' := Apply(s, a);
            && PastOf(s', rid) == PastOf(s, rid) && s'.files[rid].pdf == s.files[rid].pdf
            && KeptPdfRevision(s'.files[rid]) == KeptPdfRevision(s.files[rid])
            && (s'.worker == s.worker || (WorksOn(s.worker, s'.worker.rid) && (s'.worker.Raised? || s'.worker.Ending?))
                || (a.SkipWork? && s.worker.HaveRevision? && s'.worker == ReadingSource(s.worker.rid, s.worker.rev, s.worker.base)))
  {
    if a.Advance? {
      assert Keeping(s, ByCall(a.i), rid).Some? ==> s.calls[a.i].keep == KeptPdfRevision(s.files[rid]);
    }
  }

  lemma PastStep(s: State, a: Action, rid: Rid)
    requires Inv(s) && KeepInv(s) && Enabled(s, a) && rid in s.files && PastInv(s, rid)
    ensures PastInv(Apply(s, a), rid)
  {
    assert Versioned(s, rid);
    if a.Work? {
      PastWork(s, a.succeeds, rid);
    } else if !WritesText(s, a, rid) {
      PastOther(s, a, rid);
    } else if a.Break? {
      PastBreak(s, a.i, rid);
    } else if s.calls[a.i].Put? {
      PastPut(s, a.i, rid);
    } else {
      PastOverwrite(s, a.i, rid);
    }
  }

  lemma PastAtBirth(s: State, a: Action)
    requires Scoped(s) && a.Create? && Enabled(s, a)
    ensures PastInv(Apply(s, a), a.newRid)
  {
    assert forall i: nat :: !TornBy(Apply(s, a), i, a.newRid);
  }

  lemma {:induction false} PastAlways(actions: seq<Action>, rid: Rid)
    requires Exec(actions).Some? && rid in Exec(actions).value.files
    ensures PastInv(Exec(actions).value, rid)
  {
    var before, a := actions[..|actions| - 1], actions[|actions| - 1];
    var s := Exec(before).value;
    InvAlways(before);
    StatusWritesDoNotRace(before);
    if rid in s.files {
      PastAlways(before, rid);
      PastStep(s, a, rid);
    } else {
      PastAtBirth(s, a);
    }
  }

  /** Exactly when the label is right, in every state of every run.  Look at the latest replacement of
      paper.pdf, by a compile that had read revision `rev` at line 113 and version `index` of the text
      at line 146.  If it was recorded, the label is `rev`, and it is right if and only if versions
      `index` and `rev` are the same text.  If something raised before it was recorded (or has not
      got there yet), the label is still the one from before, which is right only if that names the
      same text.  Without any replacement there is neither PDF nor label. */
  lemma LabelIff(actions: seq<Action>, rid: Rid)
    requires Exec(actions).Some? && rid in Exec(actions).value.files
    ensures var f, last := Exec(actions).value.files[rid], PastOf(Exec(actions).value, rid).last;
            match last
            case None => f.pdf == None && KeptPdfRevision(f) == None
            case Some(r) =>
              && r.index < |f.versions| && r.rev < |f.versions| && (r.before.Some? ==> r.before.value < |f.versions|)
              && f.pdf == Some(f.versions[r.index])
              && KeptPdfRevision(f) == (if r.recorded then Some(r.rev) else r.before)
              && (Labelled(f) <==> if r.recorded then f.versions[r.index] == f.versions[r.rev]
                                   else r.before.Some? && f.versions[r.before.value] == f.versions[r.index])
  {
    PastAlways(actions, rid);
  }

  /** On any run the text read at line 146 is the current version, or the one before it while a put is
      between its two writes. */
  lemma SourceRead(actions: seq<Action>, rid: Rid)
    requires Exec(actions).Some? && rid in Exec(actions).value.files && Exec(actions).value.worker.ReadingSource?
    requires Exec(actions).value.worker.rid == rid
    ensures var s := Exec(actions).value;
            var f, v := s.files[rid], s.files[rid].revision - (if Torn(s, rid) then 1 else 0);
            0 <= v < |f.versions| && WorkerStep(s, true).worker.index == v && WorkerStep(s, true).worker.text == f.versions[v]
  {
    PastAlways(actions, rid);
  }

  /** How many puts of rid a run has brought past source.md, by overwriting it or by giving up. */
  function Overwrites(actions: seq<Action>, rid: Rid): nat {
    if actions == [] then 0
    else
      var before, a := actions[..|actions| - 1], actions[|actions| - 1];
      Overwrites(before, rid)
      + match Exec(before) {
          case None => 0
          case Some(s) => if Enabled(s, a) && IsOverwrite(s, a, rid) then 1 else 0
        }
  }

  predicate IsOverwrite(s: State, a: Action, rid: Rid)
    requires Enabled(s, a)
  {
    (a.Advance? || a.Break?) && s.calls[a.i].PutBumped? && s.calls[a.i].rid == rid
  }

  lemma OverwriteStep(s: State, a: Action, rid: Rid)
    requires Enabled(s, a) && (rid in s.past ==> rid in s.files)
    ensures PastOf(Apply(s, a), rid).overwrites == PastOf(s, rid).overwrites + (if IsOverwrite(s, a, rid) then 1 else 0)
    ensures rid in Apply(s, a).past ==> rid in Apply(s, a).files
  {
  }

  lemma {:induction false} OverwritesAreCounted(actions: seq<Action>, rid: Rid)
    requires Exec(actions).Some?
    ensures PastOf(Exec(actions).value, rid).overwrites == Overwrites(actions, rid)
    ensures rid in Exec(actions).value.past ==> rid in Exec(actions).value.files
  {
    if actions != [] {
      OverwritesAreCounted(actions[..|actions| - 1], rid);
      OverwriteStep(Exec(actions[..|actions| - 1]).value, actions[|actions| - 1], rid);
    }
  }

  /** The run leaves the worker between its two reads of rid, having read `rev` after `base` overwrites. */
  predicate Reading(actions: seq<Action>, rid: Rid) {
    Exec(actions).Some? && BetweenReads(Exec(actions).value.worker, rid)
  }

  lemma ReadingStep(s: State, a: Action, rid: Rid)
    requires Enabled(s, a) && BetweenReads(s.worker, rid) && BetweenReads(Apply(s, a).worker, rid)
    ensures Apply(s, a).worker.rev == s.worker.rev && Apply(s, a).worker.base == s.worker.base
  {
  }

  /** And it stays there through every further step. */
  predicate ReadingThroughout(before: seq<Action>, during: seq<Action>, rid: Rid) {
    if during == [] then Reading(before, rid)
    else ReadingThroughout(before, during[..|during| - 1], rid) && Reading(before + during, rid)
  }

  /** From line 113 to line 146 the worker keeps what it read. */
  lemma {:induction false} ReadsAreKept(before: seq<Action>, during: seq<Action>, rid: Rid)
    requires ReadingThroughout(before, during, rid)
    ensures Reading(before, rid) && Reading(before + during, rid)
    ensures Exec(before + during).value.worker.rev == Exec(before).value.worker.rev
    ensures Exec(before + during).value.worker.base == Exec(before).value.worker.base
    decreases |during|
  {
    if during == [] {
      assert before + during == before;
    } else {
      var shorter, a := during[..|during| - 1], during[|during| - 1];
      ReadsAreKept(before, shorter, rid);
      assert before + during == before + shorter + [a];
      ReadsAppend(before + shorter, a, rid);
    }
  }

  lemma ReadsAppend(run: seq<Action>, a: Action, rid: Rid)
    requires Reading(run, rid) && Reading(run + [a], rid)
    ensures Exec(run + [a]).value.worker.rev == Exec(run).value.worker.rev
    ensures Exec(run + [a]).value.worker.base == Exec(run).value.worker.base
  {
    assert (run + [a])[..|run|] == run;
    ReadingStep(Exec(run).value, a, rid);
  }

  /** What a compile reads: at line 113 the revision of that moment, and at line 146 as many overwrites
      as the run has made by then. */
  lemma CompileReads(before: seq<Action>, first: Action, during: seq<Action>, rid: Rid)
    requires Exec(before).Some? && Exec(before).value.worker == Begun(rid) && first.Work?
    requires ReadingThroughout(before + [first], during, rid)
    requires Exec(before + [first] + during).Some? && Exec(before + [first] + during).value.worker.ReadingSource?
    ensures var s0, s1 := Exec(before).value, Exec(before + [first] + during).value;
            && rid in s0.files && s1.worker.rid == rid && rid in s1.files
            && s1.worker.rev == s0.files[rid].revision
            && WorkerStep(s1, true).worker == Compiling(rid, s1.worker.rev, s1.files[rid].source, s1.worker.base,
                                                        Overwrites(before + [first] + during, rid))
  {
    var all := before + [first] + during;
    ScopedAlways(before);
    ScopedAlways(all);
    assert (before + [first])[..|before|] == before;
    ReadsAreKept(before + [first], during, rid);
    OverwritesAreCounted(all, rid);
  }

  /** And `index` is `rev` if and only if, between the two reads, as many puts got past source.md, having
      overwritten it or given up, as stood between their two writes at the first: one or none. */
  lemma ReadsAgreeIff(before: seq<Action>, first: Action, during: seq<Action>, rid: Rid)
    requires Exec(before).Some? && Exec(before).value.worker == Begun(rid) && first.Work?
    requires ReadingThroughout(before + [first], during, rid)
    requires Exec(before + [first] + during).Some? && Exec(before + [first] + during).value.worker.ReadingSource?
    ensures var s0, s1 := Exec(before).value, Exec(before + [first] + during).value;
            var between := Overwrites(before + [first] + during, rid) - Overwrites(before, rid);
            && rid in s0.files && s1.worker.rid == rid && rid in s1.files
            && var w := WorkerStep(s1, true).worker;
               && w.Compiling? && w.rid == rid && w.rev == s0.files[rid].revision
               && (w.index == w.rev <==> between == (if Torn(s0, rid) then 1 else 0))
  {
    CompileReads(before, first, during, rid);
    PastAlways(before, rid);
    OverwritesAreCounted(before, rid);
  }

  // ----------------------------------------------------------------------------------------------
  // Runs without overlap
  // ----------------------------------------------------------------------------------------------

  /** A step during which no put overlaps the worker's two reads, and in which `_compile` does not
      raise between replacing paper.pdf and recording its revision. */
  ghost predicate NoOverlap(s: State, a: Action) {
    && (a.Advance? && a.i < |s.calls| && s.calls[a.i].Put? ==> !BetweenReads(s.worker, s.calls[a.i].rid))
    && (a.Work? && s.worker.Begun? ==> !Torn(s, s.worker.rid))
    && !(a.Raise? && s.worker.WritingOk?)
  }

  /** A run all of whose steps are free of overlap. */
  ghost predicate Calm(actions: seq<Action>) {
    actions != [] ==>
      && Calm(actions[..|actions| - 1])
      && (Exec(actions[..|actions| - 1]).Some? ==>
            NoOverlap(Exec(actions[..|actions| - 1]).value, actions[|actions| - 1]))
  }

  /** In a calm run the two reads agree, and every replacement is recorded at once. */
  predicate CalmPast(s: State, rid: Rid) {
    && rid in s.files
    && var w, last := s.worker, PastOf(s, rid).last;
    && (BetweenReads(w, rid) ==> w.base == w.rev == s.files[rid].revision)
    && (HasSource(w) && w.rid == rid ==> w.index == w.rev)
    && (last.Some? ==> last.value.index == last.value.rev && (last.value.recorded || (w.WritingOk? && w.rid == rid)))
  }

  lemma CalmStep(s: State, a: Action, rid: Rid)
    requires SlotInv(s) && Enabled(s, a) && NoOverlap(s, a) && rid in s.files && PastInv(s, rid) && CalmPast(s, rid)
    ensures CalmPast(Apply(s, a), rid)
  {
    if a.Work? {
      CalmWork(s, a.succeeds, rid);
    }
  }

  lemma CalmWork(s: State, succeeds: bool, rid: Rid)
    requires Enabled(s, Work(succeeds)) && NoOverlap(s, Work(succeeds)) && rid in s.files && PastInv(s, rid) && CalmPast(s, rid)
    ensures CalmPast(WorkerStep(s, succeeds), rid)
  {
  }

  ghost predicate LabelInv(s: State, rid: Rid)
    requires rid in s.files
  {
    var f, w := s.files[rid], s.worker;
    && (BetweenReads(w, rid) ==> w.rev == f.revision && !Torn(s, rid))
    && (HasSource(w) && w.rid == rid ==> w.rev < |f.versions| && w.text == f.versions[w.rev])
    && (if w.WritingOk? && w.rid == rid then f.pdf == Some(w.text) else Labelled(f))
  }

  lemma {:induction false} CalmAlways(actions: seq<Action>, rid: Rid)
    requires Exec(actions).Some? && Calm(actions) && rid in Exec(actions).value.files
    ensures CalmPast(Exec(actions).value, rid)
  {
    var before, a := actions[..|actions| - 1], actions[|actions| - 1];
    var s := Exec(before).value;
    InvAlways(before);
    if rid in s.files {
      PastAlways(before, rid);
      CalmAlways(before, rid);
      CalmStep(s, a, rid);
    }
  }

  /** In every state of every calm run, of any length and with any other failures, the label on
      paper.pdf is exact except in the instant between replacing the file and recording it. */
  lemma CalmRunsLabelExactly(actions: seq<Action>)
    requires Exec(actions).Some? && Calm(actions)
    ensures var s := Exec(actions).value;
            forall rid :: rid in s.files ==> LabelInv(s, rid)
  {
    var s := Exec(actions).value;
    forall rid | rid in s.files
      ensures LabelInv(s, rid)
    {
      PastAlways(actions, rid);
      CalmAlways(actions, rid);
    }
  }
}
