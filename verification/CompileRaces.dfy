/**
  The read-modify-write of status.json, which no lock covers.
 */
module CompileRaces {
  import opened Common
  import opened CompileProtocol

  /** The pdf_revision a status write is about to preserve, if `h` has read one for rid. */
  function Keeping(s: State, h: Holder, rid: Rid): Option<Option<nat>> {
    match h
    case ByCall(i) =>
      if i < |s.calls| && s.calls[i].WritingStatus? && s.calls[i].rid == rid then Some(s.calls[i].keep) else None
    case InSlot =>
      if (s.worker.WritingRunning? || s.worker.WritingFailed?) && s.worker.rid == rid then Some(s.worker.keep) else None
    case _ => None
  }

  /** No value read for a status write goes stale before it is written. */
  ghost predicate KeepInv(s: State) {
    forall h, rid :: rid in s.files && Keeping(s, h, rid).Some? ==> Keeping(s, h, rid).value == KeptPdfRevision(s.files[rid])
  }

  /** Only a token holder writes the status or the PDF of a rid. */
  lemma WriterHolds(s: State, a: Action, rid: Rid) returns (h: Holder)
    requires SlotInv(s) && Enabled(s, a) && rid in s.files
    requires Apply(s, a).files[rid].status != s.files[rid].status || Apply(s, a).files[rid].pdf != s.files[rid].pdf
    ensures Holds(s, h, rid)
    ensures (a.Work? && h == InSlot) || (a.Advance? && h == ByCall(a.i))
  {
    h := if a.Work? then InSlot else ByCall(a.i);
  }

  /** A thread about to write has either just read the status, or read it earlier. */
  lemma KeepingBefore(s: State, a: Action, h: Holder, rid: Rid)
    requires Scoped(s) && SlotInv(s) && Enabled(s, a) && Keeping(Apply(s, a), h, rid).Some?
    ensures rid in s.files && Holds(s, h, rid)
    ensures || (Keeping(s, h, rid) == Keeping(Apply(s, a), h, rid)
                && !(a.Advance? && h == ByCall(a.i)) && !(a.Work? && h == InSlot))
            || (Apply(s, a).files == s.files && Keeping(Apply(s, a), h, rid).value == KeptPdfRevision(s.files[rid]))
  {
    if a.Work? {
      KeepingBeforeWork(s, a.succeeds, h, rid);
    }
  }

  lemma KeepingBeforeWork(s: State, succeeds: bool, h: Holder, rid: Rid)
    requires Scoped(s) && SlotInv(s) && Enabled(s, Work(succeeds)) && Keeping(WorkerStep(s, succeeds), h, rid).Some?
    ensures rid in s.files && Holds(s, h, rid)
    ensures || (h != InSlot && Keeping(s, h, rid) == Keeping(WorkerStep(s, succeeds), h, rid))
            || (WorkerStep(s, succeeds).files == s.files
                && Keeping(WorkerStep(s, succeeds), h, rid).value == KeptPdfRevision(s.files[rid]))
  {
  }

  lemma KeepStep(s: State, a: Action)
    requires TokenInv(s) && Scoped(s) && KeepInv(s) && Enabled(s, a)
    ensures KeepInv(Apply(s, a))
  {
    var s' := Apply(s, a);
    forall h, rid | rid in s'.files && Keeping(s', h, rid).Some?
      ensures Keeping(s', h, rid).value == KeptPdfRevision(s'.files[rid])
    {
      KeepingBefore(s, a, h, rid);
      if s'.files[rid].status != s.files[rid].status {
        var w := WriterHolds(s, a, rid);
      }
    }
  }

  /** Although no lock covers status.json, its read-modify-write is never interleaved with another
      for the same review: two threads are never inside it at once, and what one read is still what
      the file says when it writes. */
  lemma {:induction false} StatusWritesDoNotRace(actions: seq<Action>)
    requires Exec(actions).Some?
    ensures var s := Exec(actions).value;
            && KeepInv(s)
            && (forall h1, h2, rid :: Keeping(s, h1, rid).Some? && Keeping(s, h2, rid).Some? ==> h1 == h2)
  {
    InvAlways(actions);
    var s := Exec(actions).value;
    forall h1, h2, rid | Keeping(s, h1, rid).Some? && Keeping(s, h2, rid).Some?
      ensures h1 == h2
    {
      assert Holds(s, h1, rid) && Holds(s, h2, rid);
    }
    if actions != [] {
      var before := actions[..|actions| - 1];
      StatusWritesDoNotRace(before);
      InvAlways(before);
      KeepStep(Exec(before).value, actions[|actions| - 1]);
    }
  }
}
