/**
  The turn baton and agent lease (src/mdreview/handoff.py): a guarded read-decide-write of one
  review's control state, with the clock read once per request under store.lock.
 */
module Handoff {
  import opened Common

  type Rid = string

  datatype Turn = Reviewer | Agent

  /** An owner as JSON carries it: null, or a string. */
  datatype Owner = Null | Named(name: string)

  datatype AgentStatus = AgentStatus(state: string, message: string, owner: Owner, at: real)

  /** The control keys of meta.json; None is an absent key, and for agentStatus also null. */
  datatype Meta = Meta(turn: Option<Turn>, turnUpdated: Option<real>, agentStatus: Option<AgentStatus>, handoffAt: Option<real>)

  const Blank := Meta(None, None, None, None)

  /** A POST body; `sender` is its "by" key; None is an absent key. */
  datatype Body = Body(to: Option<string>, sender: Option<string>, state: Option<string>, owner: Option<Owner>, message: Option<string>)

  datatype Error = LeaseHeld(owner: Owner) | Unrecognized

  /** The forms a body can take, tried in this order. */
  datatype Form = Reclaim | HandBack | Flip | Lease | Unknown

  function FormOf(b: Body): Form {
    if b.to == Some("reviewer") && b.sender == Some("reviewer") then Reclaim
    else if b.to == Some("reviewer") && b.state in {Some("done"), Some("blocked")} then HandBack
    else if b.to == Some("agent") then Flip
    else if b.state == Some("working") then Lease
    else Unknown
  }

  /** Who holds the lease; Null when there is no agent_status. */
  function Holder(m: Meta): Owner {
    match m.agentStatus
    case None => Null
    case Some(st) => st.owner
  }

  predicate Held(m: Meta) {
    Holder(m) != Null && Holder(m) != Named("")
  }

  /** The holder has been silent for longer than the lease's time to live. */
  predicate Stale(m: Meta, now: real, ttl: real) {
    now - (if m.agentStatus.Some? then m.agentStatus.value.at else 0.0) > ttl
  }

  function Asker(b: Body): Owner {
    b.owner.GetOr(Named(""))
  }

  /** A lease request is granted to a free lease, to its own holder, or over a stale holder while the
      turn is still the agent's. */
  predicate Granted(m: Meta, b: Body, now: real, ttl: real) {
    !Held(m) || Holder(m) == Asker(b) || (Stale(m, now, ttl) && m.turn == Some(Agent))
  }

  /** What a request does: the new meta, or the refusal. */
  function Decide(m: Meta, b: Body, now: real, ttl: real): Result<Meta, Error> {
    match FormOf(b)
    case Reclaim => Success(m.(turn := Some(Reviewer), turnUpdated := Some(now)))
    case HandBack =>
      var owner := b.owner.GetOr(match m.agentStatus case None => Named("") case Some(st) => st.owner);
      Success(m.(turn := Some(Reviewer), turnUpdated := Some(now),
                 agentStatus := Some(AgentStatus(b.state.GetOr(""), b.message.GetOr(""), owner, now))))
    case Flip =>
      if m.turn == Some(Agent) then Success(m)
      else Success(Meta(Some(Agent), Some(now), None, Some(now)))
    case Lease =>
      if Granted(m, b, now, ttl)
      then Success(m.(agentStatus := Some(AgentStatus("working", b.message.GetOr(""), Asker(b), now))))
      else Failure(LeaseHeld(Holder(m)))
    case Unknown => Failure(Unrecognized)
  }

  function After(m: Meta, b: Body, now: real, ttl: real): Meta {
    match Decide(m, b, now, ttl)
    case Success(m') => m'
    case Failure(_) => m
  }

  /** The service, over the metas of all reviews; `wakes` counts notify_all. */
  class HandoffService {
    const ttl: real
    var metas: map<Rid, Meta>
    var wakes: nat

    constructor (ttl: real)
      ensures this.ttl == ttl && metas == map[] && wakes == 0
    {
      this.ttl, metas, wakes := ttl, map[], 0;
    }

    /** apply: one write and one wake on success, nothing at all on a refusal. */
    method Apply(rid: Rid, b: Body, now: real) returns (err: Option<Error>)
      modifies `metas, `wakes
      ensures var m := if rid in old(metas) then old(metas)[rid] else Blank;
              match Decide(m, b, now, ttl)
              case Success(m') => err == None && metas == old(metas)[rid := m'] && wakes == old(wakes) + 1
              case Failure(e) => err == Some(e) && metas == old(metas) && wakes == old(wakes)
    {
      err := None;
      var mt := if rid in metas then metas[rid] else Blank;
      if b.to == Some("reviewer") && b.sender == Some("reviewer") {
        mt := mt.(turn := Some(Reviewer));
        mt := mt.(turnUpdated := Some(now));
      } else if b.to == Some("reviewer") && (b.state == Some("done") || b.state == Some("blocked")) {
        var owner := b.owner.GetOr(match mt.agentStatus case None => Named("") case Some(st) => st.owner);
        mt := mt.(turn := Some(Reviewer));
        mt := mt.(agentStatus := Some(AgentStatus(b.state.value, b.message.GetOr(""), owner, now)));
        mt := mt.(turnUpdated := Some(now));
      } else if b.to == Some("agent") {
        if mt.turn != Some(Agent) {
          mt := mt.(turn := Some(Agent));
          mt := mt.(agentStatus := None);
          mt := mt.(handoffAt := Some(now));
          mt := mt.(turnUpdated := Some(now));
        }
      } else if b.state == Some("working") {
        var owner := b.owner.GetOr(Named(""));
        var cur := Holder(mt);
        var stale := Stale(mt, now, ttl);
        var grant := if cur == Null || cur == Named("") || cur == owner then true
                     else stale && mt.turn == Some(Agent);
        if grant {
          mt := mt.(agentStatus := Some(AgentStatus("working", b.message.GetOr(""), owner, now)));
        } else {
          err := Some(LeaseHeld(cur));
        }
      } else {
        err := Some(Unrecognized);
      }
      if err == None {
        metas := metas[rid := mt];
        wakes := wakes + 1;
      }
    }
  }

  // ----------------------------------------------------------------------------------------------
  // Runs on one review
  // ----------------------------------------------------------------------------------------------

  datatype Request = Request(body: Body, now: real)

  function Run(m: Meta, reqs: seq<Request>, ttl: real): Meta {
    if reqs == [] then m
    else
      var r := reqs[|reqs| - 1];
      After(Run(m, reqs[..|reqs| - 1], ttl), r.body, r.now, ttl)
  }

  /** The clock does not run backwards. */
  predicate Ordered(reqs: seq<Request>) {
    forall i, j :: 0 <= i < j < |reqs| ==> reqs[i].now <= reqs[j].now
  }

  /** The request moves the turn: a reclaim, a hand-back, or a flip while it is not the agent's. */
  predicate MovesTurn(m: Meta, b: Body) {
    FormOf(b) == Reclaim || FormOf(b) == HandBack || (FormOf(b) == Flip && m.turn != Some(Agent))
  }

  /** turn_updated moves exactly on the requests that move the turn, and then to the request's time;
      no refusal and no lease traffic touches the turn. */
  lemma StampMovesWithTurn(m: Meta, b: Body, now: real, ttl: real)
    ensures MovesTurn(m, b) ==> After(m, b, now, ttl).turnUpdated == Some(now)
                                && After(m, b, now, ttl).turn == Some(if FormOf(b) == Flip then Agent else Reviewer)
    ensures !MovesTurn(m, b) ==> After(m, b, now, ttl).turnUpdated == m.turnUpdated && After(m, b, now, ttl).turn == m.turn
    ensures FormOf(b) == Flip && MovesTurn(m, b) ==> !Held(After(m, b, now, ttl))
  {
  }

  /** Over any run turn_updated never goes back, from the creation of the review on, when it is absent
      and reads as 0. */
  lemma {:induction false} StampNeverGoesBack(m: Meta, reqs: seq<Request>, ttl: real, k: nat)
    requires Ordered(reqs) && k <= |reqs|
    requires reqs != [] ==> m.turnUpdated.GetOr(0.0) <= reqs[0].now
    ensures m.turnUpdated.GetOr(0.0) <= Run(m, reqs[..k], ttl).turnUpdated.GetOr(0.0) <= Run(m, reqs, ttl).turnUpdated.GetOr(0.0)
    ensures Run(m, reqs[..k], ttl).turnUpdated.Some? ==> Run(m, reqs, ttl).turnUpdated.Some?
    ensures reqs != [] ==> Run(m, reqs, ttl).turnUpdated.GetOr(0.0) <= reqs[|reqs| - 1].now
  {
    if reqs != [] {
      var before, last := reqs[..|reqs| - 1], reqs[|reqs| - 1];
      if k == |reqs| {
        StampNeverGoesBack(m, before, ttl, |before|);
        assert before[..|before|] == before && reqs[..k] == reqs;
      } else {
        StampNeverGoesBack(m, before, ttl, k);
        assert before[..k] == reqs[..k];
      }
    }
  }

  /** Between requests i and j (exclusive) nothing moves the turn. */
  predicate SameTurn(m: Meta, reqs: seq<Request>, ttl: real, i: nat, j: nat)
    requires j <= |reqs|
  {
    forall n :: i < n < j ==> !MovesTurn(Run(m, reqs[..n], ttl), reqs[n].body)
  }

  /** A request in the same turn that comes within ttl of the holder's last sign of life leaves the holder. */
  lemma HolderStays(m: Meta, b: Body, now: real, ttl: real, since: real)
    requires Held(m) && since <= m.agentStatus.value.at && since <= now && now - since <= ttl
    ensures !MovesTurn(m, b) ==> Holder(After(m, b, now, ttl)) == Holder(m) && After(m, b, now, ttl).agentStatus.value.at >= since
    ensures FormOf(b) == Lease && Asker(b) != Holder(m) ==> Decide(m, b, now, ttl) == Failure(LeaseHeld(Holder(m)))
  {
  }

  lemma RunStep(m: Meta, reqs: seq<Request>, ttl: real, k: nat)
    requires k < |reqs|
    ensures Run(m, reqs[..k + 1], ttl) == After(Run(m, reqs[..k], ttl), reqs[k].body, reqs[k].now, ttl)
  {
    assert reqs[..k + 1][..k] == reqs[..k];
  }

  /** Request j is a named owner's claim or renewal, and it is accepted. */
  predicate Claims(m: Meta, reqs: seq<Request>, ttl: real, j: nat)
    requires j < |reqs|
  {
    var r := reqs[j];
    && FormOf(r.body) == Lease && Asker(r.body) != Null && Asker(r.body) != Named("")
    && Granted(Run(m, reqs[..j], ttl), r.body, r.now, ttl)
  }

  /** The owner holds the lease and has been heard from at `since` or later. */
  predicate HeldBy(m: Meta, owner: Owner, since: real) {
    Held(m) && Holder(m) == owner && m.agentStatus.value.at >= since
  }

  lemma ClaimHolds(m: Meta, b: Body, now: real, ttl: real)
    requires FormOf(b) == Lease && Asker(b) != Null && Asker(b) != Named("") && Granted(m, b, now, ttl)
    ensures HeldBy(After(m, b, now, ttl), Asker(b), now)
  {
  }

  lemma HeldStep(m: Meta, owner: Owner, since: real, r: Request, ttl: real)
    requires HeldBy(m, owner, since) && since <= r.now && r.now - since <= ttl && !MovesTurn(m, r.body)
    ensures HeldBy(After(m, r.body, r.now, ttl), owner, since)
  {
    HolderStays(m, r.body, r.now, ttl, since);
  }

  lemma {:induction false} HeldSince(m: Meta, reqs: seq<Request>, ttl: real, owner: Owner, since: real, j: nat, k: nat)
    requires j < k < |reqs| && SameTurn(m, reqs, ttl, j, k) && HeldBy(Run(m, reqs[..j + 1], ttl), owner, since)
    requires forall n :: j < n < k ==> since <= reqs[n].now && reqs[n].now - since <= ttl
    ensures HeldBy(Run(m, reqs[..k], ttl), owner, since)
  {
    if k > j + 1 {
      RunStep(m, reqs, ttl, k - 1);
      HeldSince(m, reqs, ttl, owner, since, j, k - 1);
      HeldStep(Run(m, reqs[..k - 1], ttl), owner, since, reqs[k - 1], ttl);
    }
  }

  /** Lease exclusion: once a named owner's claim or renewal at j has been accepted, it is the holder
      at every later request within ttl of it in the same turn, and there every foreign claim is refused. */
  lemma LeaseIsExclusive(m: Meta, reqs: seq<Request>, ttl: real, j: nat, k: nat)
    requires Ordered(reqs) && j < k < |reqs| && SameTurn(m, reqs, ttl, j, k) && Claims(m, reqs, ttl, j)
    requires reqs[k].now - reqs[j].now <= ttl
    ensures var s := Run(m, reqs[..k], ttl);
            && HeldBy(s, Asker(reqs[j].body), reqs[j].now)
            && (FormOf(reqs[k].body) == Lease && Asker(reqs[k].body) != Holder(s) ==>
                  Decide(s, reqs[k].body, reqs[k].now, ttl) == Failure(LeaseHeld(Holder(s))))
  {
    var owner, since := Asker(reqs[j].body), reqs[j].now;
    RunStep(m, reqs, ttl, j);
    ClaimHolds(Run(m, reqs[..j], ttl), reqs[j].body, since, ttl);
    HeldSince(m, reqs, ttl, owner, since, j, k);
    HolderStays(Run(m, reqs[..k], ttl), reqs[k].body, reqs[k].now, ttl, since);
  }

  /** So a holder is only ever replaced, within a turn, after more than ttl of silence, and only while
      the turn is the agent's. */
  lemma TakeoverNeedsSilence(m: Meta, b: Body, now: real, ttl: real)
    requires Held(m) && !MovesTurn(m, b) && Holder(After(m, b, now, ttl)) != Holder(m)
    ensures FormOf(b) == Lease && m.turn == Some(Agent) && now - m.agentStatus.value.at > ttl
    ensures Holder(After(m, b, now, ttl)) == Asker(b) && After(m, b, now, ttl).agentStatus.value.at == now
  {
  }

  /** A lease the human has reclaimed is never taken over: until a hand-back or a new flip, every
      claim but the holder's own is refused however stale the lease gets. */
  lemma {:induction false} ReclaimedIsNeverTakenOver(m: Meta, reqs: seq<Request>, ttl: real, b: Body, now: real)
    requires m.turn != Some(Agent) && Held(m)
    requires forall n :: 0 <= n < |reqs| ==> FormOf(reqs[n].body) != HandBack && FormOf(reqs[n].body) != Flip
    ensures var s := Run(m, reqs, ttl);
            && s.turn != Some(Agent) && Holder(s) == Holder(m)
            && (FormOf(b) == Lease && Asker(b) != Holder(m) ==> Decide(s, b, now, ttl) == Failure(LeaseHeld(Holder(m))))
  {
    if reqs != [] {
      ReclaimedIsNeverTakenOver(m, reqs[..|reqs| - 1], ttl, b, now);
    }
  }

  // ----------------------------------------------------------------------------------------------
  // What every request is answered, and what a run leaves, read off the requests themselves
  // ----------------------------------------------------------------------------------------------

  /** Request k of the run is answered with success. */
  predicate Accepted(m: Meta, reqs: seq<Request>, ttl: real, k: nat)
    requires k < |reqs|
  {
    Decide(Run(m, reqs[..k], ttl), reqs[k].body, reqs[k].now, ttl).Success?
  }

  /** An ambiguous body is the first of reclaim, hand-back, flip and lease it can be read as. */
  lemma FormsInOrder(b: Body)
    ensures var back := b.to == Some("reviewer");
            && (FormOf(b) == Reclaim <==> back && b.sender == Some("reviewer"))
            && (FormOf(b) == HandBack <==> back && b.sender != Some("reviewer") && (b.state == Some("done") || b.state == Some("blocked")))
            && (FormOf(b) == Flip <==> b.to == Some("agent"))
            && (FormOf(b) == Lease <==>
                  b.state == Some("working") && b.to != Some("agent") && !(back && b.sender == Some("reviewer")))
  {
  }

  /** A lease request by the present holder is accepted at any time and in either turn, and leaves it
      holding from then on. */
  lemma RenewalIsAccepted(m: Meta, reqs: seq<Request>, ttl: real, k: nat)
    requires k < |reqs| && FormOf(reqs[k].body) == Lease
    requires var s := Run(m, reqs[..k], ttl); Held(s) && reqs[k].body.owner == Some(Holder(s))
    ensures Accepted(m, reqs, ttl, k)
    ensures HeldBy(Run(m, reqs[..k + 1], ttl), Holder(Run(m, reqs[..k], ttl)), reqs[k].now)
  {
    RunStep(m, reqs, ttl, k);
  }

  /** So is anyone's while nobody holds it: neither a status of this turn nor an owner named by it. */
  lemma FreeLeaseIsGranted(m: Meta, reqs: seq<Request>, ttl: real, k: nat)
    requires k < |reqs| && FormOf(reqs[k].body) == Lease
    requires var st := Run(m, reqs[..k], ttl).agentStatus; st == None || st.value.owner == Null || st.value.owner == Named("")
    ensures Accepted(m, reqs, ttl, k)
    ensures var st := Run(m, reqs[..k + 1], ttl).agentStatus;
            st.Some? && st.value.owner == reqs[k].body.owner.GetOr(Named("")) && st.value.at == reqs[k].now
  {
    RunStep(m, reqs, ttl, k);
  }

  /** Anyone else's, while a named owner holds the lease, is accepted if and only if the turn is the agent's
      and that owner has been silent for more than ttl; a refusal names the owner. */
  lemma TakeoverIff(m: Meta, reqs: seq<Request>, ttl: real, k: nat)
    requires k < |reqs| && FormOf(reqs[k].body) == Lease
    requires var st := Run(m, reqs[..k], ttl).agentStatus;
             st.Some? && st.value.owner != Null && st.value.owner != Named("") && reqs[k].body.owner.GetOr(Named("")) != st.value.owner
    ensures var s := Run(m, reqs[..k], ttl);
            && (Accepted(m, reqs, ttl, k) <==> s.turn == Some(Agent) && reqs[k].now - s.agentStatus.value.at > ttl)
            && (!Accepted(m, reqs, ttl, k) ==>
                  Decide(s, reqs[k].body, reqs[k].now, ttl) == Failure(LeaseHeld(s.agentStatus.value.owner)))
  {
  }

  /** And every other request is accepted if and only if it has a form. */
  lemma OthersAcceptedIff(m: Meta, reqs: seq<Request>, ttl: real, k: nat)
    requires k < |reqs| && FormOf(reqs[k].body) != Lease
    ensures var b := reqs[k].body;
            Accepted(m, reqs, ttl, k) <==>
              b.to == Some("agent")
              || (b.to == Some("reviewer") && (b.sender == Some("reviewer") || b.state == Some("done") || b.state == Some("blocked")))
    ensures !Accepted(m, reqs, ttl, k) ==>
              Decide(Run(m, reqs[..k], ttl), reqs[k].body, reqs[k].now, ttl) == Failure(Unrecognized)
  {
  }

  /** Request k hands the turn to the agent. */
  predicate Hands(m: Meta, reqs: seq<Request>, ttl: real, k: nat)
    requires k < |reqs|
  {
    reqs[k].body.to == Some("agent") && Run(m, reqs[..k], ttl).turn != Some(Agent)
  }

  /** Request k reports the agent's status: an accepted lease request or a hand-back. */
  predicate Reports(m: Meta, reqs: seq<Request>, ttl: real, k: nat)
    requires k < |reqs|
  {
    (FormOf(reqs[k].body) == Lease || FormOf(reqs[k].body) == HandBack) && Accepted(m, reqs, ttl, k)
  }

  /** The owner a report names, or when a hand-back names none, the one before it. */
  function Reported(m: Meta, b: Body): Owner {
    match b.owner
    case Some(owner) => owner
    case None => if b.state == Some("working") || m.agentStatus == None then Named("") else m.agentStatus.value.owner
  }

  lemma ReportStep(m: Meta, reqs: seq<Request>, ttl: real, k: nat)
    requires k < |reqs|
    ensures var s, s', b := Run(m, reqs[..k], ttl), Run(m, reqs[..k + 1], ttl), reqs[k].body;
            && s'.agentStatus == (if Reports(m, reqs, ttl, k)
                                  then Some(AgentStatus(b.state.GetOr(""), b.message.GetOr(""), Reported(s, b), reqs[k].now))
                                  else if Hands(m, reqs, ttl, k) then None else s.agentStatus)
            && s'.handoffAt == (if Hands(m, reqs, ttl, k) then Some(reqs[k].now) else s.handoffAt)
  {
    RunStep(m, reqs, ttl, k);
  }

  /** The status on record is the last report's since the turn was last handed to the agent, word for
      word; a report is never lost or altered by anything but the next one and the next handover. */
  lemma {:induction false} LastReportStands(m: Meta, reqs: seq<Request>, ttl: real, k: nat)
    requires k < |reqs| && Reports(m, reqs, ttl, k)
    requires forall n :: k < n < |reqs| ==> !Reports(m, reqs, ttl, n) && !Hands(m, reqs, ttl, n)
    ensures var b := reqs[k].body;
            Run(m, reqs, ttl).agentStatus
            == Some(AgentStatus(b.state.GetOr(""), b.message.GetOr(""), Reported(Run(m, reqs[..k], ttl), b), reqs[k].now))
    decreases |reqs|
  {
    var n := |reqs| - 1;
    assert reqs[..n + 1] == reqs;
    ReportStep(m, reqs, ttl, n);
    if k < n {
      var before := reqs[..n];
      assert forall i :: 0 <= i < n ==> before[..i] == reqs[..i] && before[i] == reqs[i];
      assert Reports(m, before, ttl, k);
      assert forall i :: k < i < n ==> (Reports(m, before, ttl, i) <==> Reports(m, reqs, ttl, i)) && (Hands(m, before, ttl, i) <==> Hands(m, reqs, ttl, i));
      LastReportStands(m, before, ttl, k);
    }
  }

  /** A handover frees the lease and is on record with its time, until the next report, and until the next
      handover, respectively. */
  lemma {:induction false} HandoverFrees(m: Meta, reqs: seq<Request>, ttl: real, k: nat)
    requires k < |reqs| && Hands(m, reqs, ttl, k) && forall n :: k < n < |reqs| ==> !Hands(m, reqs, ttl, n)
    ensures Run(m, reqs, ttl).handoffAt == Some(reqs[k].now)
    ensures (forall n :: k < n < |reqs| ==> !Reports(m, reqs, ttl, n)) ==> Run(m, reqs, ttl).agentStatus == None
    decreases |reqs|
  {
    var n := |reqs| - 1;
    assert reqs[..n + 1] == reqs;
    ReportStep(m, reqs, ttl, n);
    if k < n {
      var before := reqs[..n];
      assert forall i :: 0 <= i < n ==> before[..i] == reqs[..i] && before[i] == reqs[i];
      assert Hands(m, before, ttl, k);
      assert forall i :: k < i < n ==> (Reports(m, before, ttl, i) <==> Reports(m, reqs, ttl, i)) && (Hands(m, before, ttl, i) <==> Hands(m, reqs, ttl, i));
      HandoverFrees(m, before, ttl, k);
    }
  }

  /** Whose turn it is: the agent's if and only if the last request that was addressed to the agent, or was
      a reclaim or hand-back, was the former. */
  lemma {:induction false} LastMoveHasTheTurn(m: Meta, reqs: seq<Request>, ttl: real, k: nat)
    requires k < |reqs| && FormOf(reqs[k].body) in {Reclaim, HandBack, Flip}
    requires forall n :: k < n < |reqs| ==> FormOf(reqs[n].body) !in {Reclaim, HandBack, Flip}
    ensures Run(m, reqs, ttl).turn == Some(if reqs[k].body.to == Some("agent") then Agent else Reviewer)
    decreases |reqs|
  {
    var n := |reqs| - 1;
    if k < n {
      LastMoveHasTheTurn(m, reqs[..n], ttl, k);
    }
  }
}
