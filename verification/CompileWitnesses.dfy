/**
  Runs of the compile worker that show where its promises stop.
 */
module CompileWitnesses {
  import opened Common
  import opened CompileProtocol
  import opened CompileLabels
  import opened CompileConvergence

  /** So the exclusion in Convergence cannot be dropped: this run comes to rest with no status at all. */
  lemma StrandedWitness()
    ensures exists actions :: Exec(actions).Some? && Quiescent(Exec(actions).value)
              && "r" in Exec(actions).value.files && SelfHealWants(Exec(actions).value.files["r"])
              && !EnqueueSection(Exec(actions).value.co, "r").1
  {
    var a0 := [Create("r", "x")];
    var a1 := a0 + [Advance(0)];
    var a2 := a1 + [Abort(0)];
    assert a0[..0] == [] && a1[..1] == a0 && a2[..2] == a1;
    assert Exec(a0).Some?;
    assert Exec(a1).Some?;
    assert Exec(a2).Some?;
  }

  /** And calm cannot be dropped: here a put lands between the two reads, and the finished compile
      leaves "ok" with paper.pdf from revision 1 labelled revision 0 (until the re-run it caused). */
  lemma OverlapMislabels()
    ensures exists actions :: Exec(actions).Some?
              && var f := Exec(actions).value.files;
                 "r" in f && f["r"].status == Some(Status(Ok, 0, Some(0)))
                 && f["r"].pdf == Some("y") && f["r"].versions == ["x", "y"] && !Labelled(f["r"])
  {
    var s := OverlappingRead();
    s := Go(s, Work(true), false);
    s := Go(s, Work(true), false);
    s := Go(s, Work(true), false);              // records "ok", revision 0
  }

  lemma OverlappingRead() returns (s: State)
    ensures Reachable(s, false)
    ensures "r" in s.files && s.files["r"] == Files(1, "y", Some(Status(CompileState.Running, 0, None)), None, ["x", "y"])
    ensures s.worker.Compiling? && s.worker.rid == "r" && s.worker.rev == 0 && s.worker.text == "y"
  {
    s := OverlappingPut();
    s := Go(s, Work(true), false);
    s := Go(s, Work(true), false);
    s := Go(s, Work(true), false);              // reads "y"
  }

  /** A put is not even needed: here the status write raises after paper.pdf was replaced.  Everything
      comes to rest with a settled review whose PDF has no label. */
  lemma RaiseMislabels()
    ensures exists actions :: Exec(actions).Some? && NoPuts(actions)
              && Quiescent(Exec(actions).value)
              && var f := Exec(actions).value.files;
                 "r" in f && Settled(f["r"]) && f["r"].pdf == Some("x") && KeptPdfRevision(f["r"]) == None && !Labelled(f["r"])
  {
    var s := FirstRaise();
    s := Go(s, Work(true), true);
    s := Go(s, Work(true), true);
  }

  /** The status write of the first compile raises, and the handler is about to write "failed". */
  lemma FirstRaise() returns (s: State)
    ensures Reachable(s, true)
    ensures "r" in s.files && s.files["r"] == Files(0, "x", Some(Status(CompileState.Running, 0, None)), Some("x"), ["x"])
    ensures s.calls == [Done] && s.worker == WritingFailed("r", 0, None, true) && s.co == Coalescer([], {}, Some("r"), {})
  {
    s := FirstReplace();
    s := Go(s, Raise, true);
    s := Go(s, Work(true), true);
    s := Go(s, Work(true), true);
  }

  /** The handler's own status write can raise: then the thread is gone, and at rest the review says
      "running", though no enqueue raised, and self-heal does not want it. */
  lemma DeadWorkerWitness()
    ensures exists actions :: Exec(actions).Some? && AtRest(Exec(actions).value) && Exec(actions).value.worker.Dead?
              && var s := Exec(actions).value;
                 "r" in s.files && !Stranded(s, "r") && !Settled(s.files["r"]) && !SelfHealWants(s.files["r"])
                 && s.files["r"].status == Some(Status(CompileState.Running, 0, None))
  {
    var s := FirstRunning();
    s := Go(s, Raise, true);
    s := Go(s, Raise, true);
    s := Go(s, Work(true), true);
  }

  /** The first compile of review "r" says "running". */
  lemma FirstRunning() returns (s: State)
    ensures Reachable(s, true)
    ensures "r" in s.files && s.files["r"] == Files(0, "x", Some(Status(CompileState.Running, 0, None)), None, ["x"])
    ensures s.calls == [Done] && s.lockHolder == None && s.worker == ReadingSource("r", 0, 0) && s.co == Coalescer([], {}, Some("r"), {})
  {
    s := FirstCompile();
    s := Go(s, Work(true), true);
    s := Go(s, Work(true), true);
  }

  predicate NoPuts(actions: seq<Action>) {
    forall a :: a in actions ==> !a.BeginPut?
  }

  /** Without any exception: the latex directory cannot be made, the compile fails, and the review is at
      rest without a status and wanted at every poll. */
  lemma SkippedWritesWitness()
    ensures exists actions :: Exec(actions).Some? && NoPuts(actions) && Quiescent(Exec(actions).value)
              && var s := Exec(actions).value;
                 "r" in s.files && !HalfDone(s, "r") && !Stranded(s, "r") && s.files["r"].status == None
                 && !Settled(s.files["r"]) && SelfHealWants(s.files["r"])
  {
    var s := SkippedTwice();
    s := Go(s, Work(false), true);
    s := Go(s, Work(false), true);              // the compile fails
    s := Go(s, SkipWork, true);
    s := Go(s, Work(true), true);
  }

  /** "queued" and "running" of the first compile are skipped. */
  lemma SkippedTwice() returns (s: State)
    ensures Reachable(s, true)
    ensures "r" in s.files && s.files["r"] == Files(0, "x", None, None, ["x"])
    ensures s.calls == [Done] && s.worker == ReadingSource("r", 0, 0) && s.co == Coalescer([], {}, Some("r"), {})
  {
    s := SkippedOnce();
    s := Go(s, Work(true), true);
    s := Go(s, Work(true), true);
    s := Go(s, Work(true), true);
    s := Go(s, SkipWork, true);
  }

  lemma SkippedOnce() returns (s: State)
    ensures Reachable(s, true)
    ensures "r" in s.files && s.files["r"] == Files(0, "x", None, None, ["x"])
    ensures s.calls == [Done] && s.worker == Idle && s.co == Coalescer(["r"], {"r"}, None, {}) && PastOf(s, "r") == Past(0, None)
  {
    s := FirstClaim();
    s := Go(s, Advance(0), true);
    s := Go(s, SkipCall(0), true);
    s := Go(s, Advance(0), true);
  }

  /** A put that raises between its writes leaves a review at rest that is not settled, and that the poller wants. */
  lemma HalfPutWitness()
    ensures exists actions :: Exec(actions).Some? && Quiescent(Exec(actions).value)
              && var s := Exec(actions).value;
                 "r" in s.files && HalfDone(s, "r") && !Stranded(s, "r") && !Settled(s.files["r"]) && SelfHealWants(s.files["r"])
  {
    var s := FirstSettled();
    s := Go(s, BeginPut("r", "y"), false);
    s := Go(s, Advance(1), false);
    s := Go(s, Break(1), false);
    assert s.calls[1] == HalfPut("r");
  }

  lemma FirstSettled() returns (s: State)
    ensures Reachable(s, false)
    ensures "r" in s.files && s.files["r"] == Files(0, "x", Some(Status(Ok, 0, Some(0))), Some("x"), ["x"])
    ensures s.calls == [Done] && s.lockHolder == None && s.worker == Idle && s.co == Coalescer([], {}, None, {})
  {
    s := FirstReplace();
    s := Go(s, Work(true), false);
    s := Go(s, Work(true), false);
  }

  /** Some run leads to s; if `quiet`, one without a put. */
  ghost predicate Reachable(s: State, quiet: bool) {
    exists t :: Exec(t) == Some(s) && (quiet ==> NoPuts(t))
  }

  lemma Go(s: State, a: Action, quiet: bool) returns (s': State)
    requires Reachable(s, quiet) && Enabled(s, a) && (quiet ==> !a.BeginPut?)
    ensures Reachable(s', quiet) && s' == Apply(s, a)
  {
    var t :| Exec(t) == Some(s) && (quiet ==> NoPuts(t));
    Extend(t, a);
    s' := Apply(s, a);
    assert quiet ==> NoPuts(t + [a]);
  }

  /** A whole put between the worker's read of the revision and its read of the source. */
  lemma OverlappingPut() returns (s: State)
    ensures Reachable(s, false)
    ensures "r" in s.files && s.files["r"] == Files(1, "y", Some(Status(Queued, 0, None)), None, ["x", "y"])
    ensures s.worker == HaveRevision("r", 0, 0)
  {
    s := FirstCompile();
    s := Go(s, BeginPut("r", "y"), false);
    s := Go(s, Advance(1), false);              // revision 1
    assert s.files["r"].versions == ["x"] + ["y"];
    s := Go(s, Advance(1), false);              // source.md is now "y"
  }

  /** The first compile of review "r" has replaced paper.pdf. */
  lemma FirstReplace() returns (s: State)
    ensures Reachable(s, true) && Reachable(s, false)
    ensures "r" in s.files && s.files["r"] == Files(0, "x", Some(Status(CompileState.Running, 0, None)), Some("x"), ["x"])
    ensures s.calls == [Done] && s.lockHolder == None && s.co == Coalescer([], {}, Some("r"), {})
    ensures s.worker.WritingOk? && s.worker.rid == "r" && s.worker.rev == 0
  {
    s := FirstRunning();
    s := Go(s, Work(true), true);
    s := Go(s, Work(true), true);
    s := Go(s, Work(true), true);
  }

  /** The first compile of review "r" has read its revision. */
  lemma FirstCompile() returns (s: State)
    ensures Reachable(s, true) && Reachable(s, false)
    ensures "r" in s.files && s.files["r"] == Files(0, "x", Some(Status(Queued, 0, None)), None, ["x"])
    ensures s.calls == [Done] && s.lockHolder == None && s.worker == HaveRevision("r", 0, 0)
    ensures s.co == Coalescer([], {}, Some("r"), {})
  {
    s := FirstStatus();
    s := Go(s, Advance(0), true);
    s := Go(s, Work(true), true);
    s := Go(s, Work(true), true);
    s := Go(s, Work(true), true);               // reads revision 0
  }

  /** Review "r" is created, and its enqueue is about to put. */
  lemma FirstStatus() returns (s: State)
    ensures Reachable(s, true)
    ensures "r" in s.files && s.files["r"] == Files(0, "x", Some(Status(Queued, 0, None)), None, ["x"])
    ensures s.calls == [Putting("r")] && s.lockHolder == None && s.worker == Idle
    ensures s.co == Coalescer([], {"r"}, None, {}) && PastOf(s, "r") == Past(0, None)
  {
    s := FirstClaim();
    s := Go(s, Advance(0), true);
    s := Go(s, Advance(0), true);
    s := Go(s, Advance(0), true);
  }

  lemma FirstClaim() returns (s: State)
    ensures Reachable(s, true)
    ensures "r" in s.files && s.files["r"] == Files(0, "x", None, None, ["x"])
    ensures s.calls == [Claimed("r")] && s.lockHolder == None && s.worker == Idle
    ensures s.co == Coalescer([], {"r"}, None, {}) && PastOf(s, "r") == Past(0, None)
  {
    assert Exec([]) == Some(Initial);
    assert Reachable(Initial, true);
    s := Go(Initial, Create("r", "x"), true);
    s := Go(s, Advance(0), true);
  }
}
