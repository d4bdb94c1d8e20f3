/**
  Pending compiles: where the token of a review is, and how many compiles the enqueues of a run amount to.
 */
module CompileTokens {
  import opened Common
  import opened CompileProtocol

  /** In every reachable state each pending rid is held in exactly one place, `_queue` has no
      duplicates, and only the rid being compiled can be marked for a re-run. */
  lemma ExactlyOnePlace(actions: seq<Action>, rid: Rid)
    requires Exec(actions).Some?
    ensures var s := Exec(actions).value;
            && (rid in s.co.queued || s.co.running == Some(rid) <==> exists h :: Holds(s, h, rid))
            && (forall h1, h2 :: Holds(s, h1, rid) && Holds(s, h2, rid) ==> h1 == h2)
            && (forall j, k :: 0 <= j < k < |s.co.queue| ==> s.co.queue[j] != s.co.queue[k])
            && (rid in s.co.redo ==> s.co.running == Some(rid) && rid !in s.co.queued)
  {
    InvAlways(actions);
    var s := Exec(actions).value;
    if s.co.running == Some(rid) {
      assert Holds(s, InSlot, rid);
    }
    forall j, k | 0 <= j < k < |s.co.queue|
      ensures s.co.queue[j] != s.co.queue[k]
    {
      assert Holds(s, InQueue(j), s.co.queue[j]) && Holds(s, InQueue(k), s.co.queue[k]);
    }
  }

  /** n calls of enqueue whose lock sections run back to back. */
  function Storm(c: Coalescer, rid: Rid, n: nat): Coalescer {
    if n == 0 then c else EnqueueSection(Storm(c, rid, n - 1), rid).0
  }

  /** However many calls there are, they leave what one call leaves: one more rid queued, or one
      re-run marked; and only the first can have to write a status and put. */
  lemma {:induction false} StormIsOne(c: Coalescer, rid: Rid, n: nat)
    requires n > 0
    ensures Storm(c, rid, n) == EnqueueSection(c, rid).0
    ensures n > 1 ==> !EnqueueSection(Storm(c, rid, n - 1), rid).1
  {
    if n > 1 {
      StormIsOne(c, rid, n - 1);
    }
  }

  /** What a step does to the tokens of rid: an enqueue claims one, the worker takes one up, or the
      worker puts one back for a re-run. */
  predicate IsClaim(s: State, a: Action, rid: Rid)
    requires Enabled(s, a)
  {
    a.Advance? && s.calls[a.i].Enqueue? && s.calls[a.i].rid == rid && EnqueueSection(s.co, rid).1
  }

  predicate IsStart(s: State, a: Action, rid: Rid) {
    a.Work? && s.worker == Taken(rid)
  }

  predicate IsRerun(s: State, a: Action, rid: Rid) {
    a.Work? && s.worker.Ending? && s.worker.rid == rid && rid in s.co.redo
  }

  /** Claims, compiles started and re-runs of rid in a run. */
  datatype Tally = Tally(claims: nat, starts: nat, reruns: nat)

  function TallyOf(actions: seq<Action>, rid: Rid): Tally {
    if actions == [] then Tally(0, 0, 0)
    else
      var before, a := actions[..|actions| - 1], actions[|actions| - 1];
      var t := TallyOf(before, rid);
      match Exec(before)
      case None => t
      case Some(s) =>
        if !Enabled(s, a) then t
        else if IsClaim(s, a, rid) then t.(claims := t.claims + 1)
        else if IsStart(s, a, rid) then t.(starts := t.starts + 1)
        else if IsRerun(s, a, rid) then t.(reruns := t.reruns + 1)
        else t
  }

  lemma QueuedStep(s: State, a: Action, rid: Rid)
    requires SlotInv(s) && Enabled(s, a)
    requires (rid in s.co.queued ==> s.co.running != Some(rid)) && (s.worker == Taken(rid) ==> rid in s.co.queued)
    ensures rid in Apply(s, a).co.queued <==>
              if IsClaim(s, a, rid) || IsRerun(s, a, rid) then true else if IsStart(s, a, rid) then false else rid in s.co.queued
    ensures IsClaim(s, a, rid) || IsRerun(s, a, rid) ==> rid !in s.co.queued
    ensures IsStart(s, a, rid) ==> rid in s.co.queued
  {
  }

  /** A token is in one place only. */
  lemma QueuedIsApart(s: State, rid: Rid)
    requires TokenInv(s)
    ensures (rid in s.co.queued ==> s.co.running != Some(rid)) && (s.worker == Taken(rid) ==> rid in s.co.queued)
  {
    if rid in s.co.queued {
      var h :| h != InSlot && Holds(s, h, rid);
      assert Holds(s, InSlot, rid) <==> s.co.running == Some(rid);
    }
    if s.worker == Taken(rid) {
      assert Holds(s, ByPickup, rid);
    }
  }

  /** Conservation, over every run and however enqueues and compiles interleave: every claim and every
      re-run is one compile started or one still pending. */
  lemma {:induction false} TokensAreConserved(actions: seq<Action>, rid: Rid)
    requires Exec(actions).Some?
    ensures var t := TallyOf(actions, rid);
            t.claims + t.reruns == t.starts + (if rid in Exec(actions).value.co.queued then 1 else 0)
  {
    if actions != [] {
      var before := actions[..|actions| - 1];
      TokensAreConserved(before, rid);
      InvAlways(before);
      QueuedIsApart(Exec(before).value, rid);
      QueuedStep(Exec(before).value, actions[|actions| - 1], rid);
    }
  }

  /** So any storm of enqueues, spread over any steps of any threads in which no compile of rid starts,
      adds at most one claim or one re-run. */
  lemma StormAddsOne(before: seq<Action>, after: seq<Action>, rid: Rid)
    requires Exec(before).Some? && Exec(before + after).Some?
    requires TallyOf(before + after, rid).starts == TallyOf(before, rid).starts
    ensures var t, t' := TallyOf(before, rid), TallyOf(before + after, rid);
            t'.claims + t'.reruns <= t.claims + t.reruns + 1
  {
    TokensAreConserved(before, rid);
    TokensAreConserved(before + after, rid);
  }
}
