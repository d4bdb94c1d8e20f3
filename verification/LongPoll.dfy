/**
  The edge-triggered long poll (src/mdreview/server.py, `_wait`) over the handoff machine: who is
  woken, and what a client that advances a cursor is delivered.
 */
module LongPoll {
  import opened Common
  import opened Responses
  import opened Handoff

  // ----------------------------------------------------------------------------------------------
  // Parked waiters
  // ----------------------------------------------------------------------------------------------

  /** The `matches` predicate on a summary: the turn filter (summary reads an absent turn as the
      reviewer's), and a stamp newer than `since` (an absent stamp is 0). */
  predicate Matches(m: Meta, filter: Option<Turn>, since: real) {
    (filter == None || m.turn.GetOr(Reviewer) == filter.value) && m.turnUpdated.GetOr(0.0) > since
  }

  function Hits(metas: map<Rid, Meta>, filter: Option<Turn>, since: real): set<Rid> {
    set rid | rid in metas && Matches(metas[rid], filter, since)
  }

  /** A request inside `_wait`: parked on the condition, signalled but not yet running, or answered. */
  datatype Waiter =
    | Parked(filter: Option<Turn>, since: real)
    | Signalled(filter: Option<Turn>, since: real)
    | Answered(rows: set<Rid>)

  datatype Server = Server(metas: map<Rid, Meta>, waiters: seq<Waiter>)

  /** What can happen, each under the one store lock. */
  datatype Action =
    | Post(rid: Rid, body: Body, now: real)           // a handoff request
    | Enter(filter: Option<Turn>, since: real)        // a new wait: its baseline scan, then parking
    | Resume(w: nat, expired: bool)                   // a waiter runs again: notified, spuriously, or timed out

  predicate Enabled(s: Server, a: Action) {
    a.Resume? ==> a.w < |s.waiters| && !s.waiters[a.w].Answered?
  }

  function Woken(ws: seq<Waiter>): seq<Waiter> {
    seq(|ws|, i requires 0 <= i < |ws| => if ws[i].Parked? then Signalled(ws[i].filter, ws[i].since) else ws[i])
  }

  function Step(s: Server, a: Action, ttl: real): Server
    requires Enabled(s, a)
  {
    match a
    case Post(rid, body, now) =>
      var m := if rid in s.metas then s.metas[rid] else Blank;
      (match Decide(m, body, now, ttl)
       case Success(m') => Server(s.metas[rid := m'], Woken(s.waiters))
       case Failure(_) => s)
    case Enter(filter, since) =>
      var rows := Hits(s.metas, filter, since);
      s.(waiters := s.waiters + [if rows != {} then Answered(rows) else Parked(filter, since)])
    case Resume(w, expired) =>
      var filter, since := s.waiters[w].filter, s.waiters[w].since;
      var rows := Hits(s.metas, filter, since);
      s.(waiters := s.waiters[w := if rows != {} then Answered(rows)
                                   else if expired then Answered({}) else Parked(filter, since)])
  }

  function Exec(actions: seq<Action>, ttl: real): Option<Server> {
    if actions == [] then Some(Server(map[], []))
    else
      match Exec(actions[..|actions| - 1], ttl)
      case None => None
      case Some(s) =>
        var a := actions[|actions| - 1];
        if Enabled(s, a) then Some(Step(s, a, ttl)) else None
  }

  /** In every reachable state a waiter that is parked and not signalled has nothing to be told: the
      very request that makes a waiter's predicate true has woken it. */
  lemma {:induction false} NoOneSleepsThroughAFlip(actions: seq<Action>, ttl: real)
    requires Exec(actions, ttl).Some?
    ensures var s := Exec(actions, ttl).value;
            forall w :: 0 <= w < |s.waiters| && s.waiters[w].Parked? ==>
              Hits(s.metas, s.waiters[w].filter, s.waiters[w].since) == {}
  {
    if actions != [] {
      NoOneSleepsThroughAFlip(actions[..|actions| - 1], ttl);
    }
  }

  /** The review is at the turn asked for, an absent turn being the reviewer's, and moved after `since`. */
  predicate Newer(metas: map<Rid, Meta>, rid: Rid, filter: Option<Turn>, since: real) {
    && rid in metas
    && (filter.Some? ==> metas[rid].turn == filter || (metas[rid].turn == None && filter == Some(Reviewer)))
    && (if metas[rid].turnUpdated.Some? then metas[rid].turnUpdated.value > since else since < 0.0)
  }

  /** A wait that begins is answered at once, with just the reviews that are newer, if there are any, and
      else parks. */
  lemma EnterAnswersIff(s: Server, filter: Option<Turn>, since: real, ttl: real)
    ensures var s' := Step(s, Enter(filter, since), ttl);
            && s'.metas == s.metas && |s'.waiters| == |s.waiters| + 1 && s'.waiters[..|s.waiters|] == s.waiters
            && var x := s'.waiters[|s.waiters|];
               && (x.Answered? <==> exists rid :: Newer(s.metas, rid, filter, since))
               && (x.Answered? ==> forall rid :: rid in x.rows <==> Newer(s.metas, rid, filter, since))
               && (!x.Answered? ==> x == Parked(filter, since))
  {
    forall rid
      ensures rid in Hits(s.metas, filter, since) <==> Newer(s.metas, rid, filter, since)
    {
    }
  }

  /** A waiter that runs again is answered, with just the reviews that are newer, if there are any or its
      time is up, and else parks again: a wake without a flip answers nothing. */
  lemma ResumeAnswersIff(s: Server, w: nat, expired: bool, ttl: real)
    requires Enabled(s, Resume(w, expired))
    ensures var s', filter, since := Step(s, Resume(w, expired), ttl), s.waiters[w].filter, s.waiters[w].since;
            && s'.metas == s.metas && |s'.waiters| == |s.waiters| && s'.waiters == s.waiters[w := s'.waiters[w]]
            && var x := s'.waiters[w];
               && (x.Answered? <==> expired || exists rid :: Newer(s.metas, rid, filter, since))
               && (x.Answered? ==> forall rid :: rid in x.rows <==> Newer(s.metas, rid, filter, since))
               && (!x.Answered? ==> x == Parked(filter, since))
  {
    forall rid
      ensures rid in Hits(s.metas, s.waiters[w].filter, s.waiters[w].since) <==>
              Newer(s.metas, rid, s.waiters[w].filter, s.waiters[w].since)
    {
    }
  }

  /** What the waits of a run asked for, in the order in which they began. */
  function Asked(actions: seq<Action>): seq<(Option<Turn>, real)> {
    if actions == [] then []
    else Asked(actions[..|actions| - 1]) + (match actions[|actions| - 1] case Enter(filter, since) => [(filter, since)] case _ => [])
  }

  /** Wait w was answered at step k of the run: it ran then, at its entry or again; it was told just the
      reviews that were newer at that moment; and nothing only if its time was up. */
  ghost predicate AnsweredAt(actions: seq<Action>, ttl: real, w: nat, rows: set<Rid>, k: nat) {
    && k < |actions| && Exec(actions[..k], ttl).Some? && w < |Asked(actions)|
    && var s, (filter, since) := Exec(actions[..k], ttl).value, Asked(actions)[w];
       && (if actions[k].Enter? then w == |Asked(actions[..k])| else actions[k].Resume? && actions[k].w == w)
       && (forall rid :: rid in rows <==> Newer(s.metas, rid, filter, since))
       && (rows == {} ==> actions[k].Resume? && actions[k].expired)
  }

  lemma {:induction false} WaitersAsk(actions: seq<Action>, ttl: real)
    requires Exec(actions, ttl).Some?
    ensures var s := Exec(actions, ttl).value;
            && |s.waiters| == |Asked(actions)|
            && forall w :: 0 <= w < |s.waiters| && !s.waiters[w].Answered? ==>
                 (s.waiters[w].filter, s.waiters[w].since) == Asked(actions)[w]
  {
    if actions != [] {
      WaitersAsk(actions[..|actions| - 1], ttl);
    }
  }

  lemma AnsweredNow(actions: seq<Action>, ttl: real, w: nat)
    requires actions != [] && Exec(actions, ttl).Some? && w < |Exec(actions, ttl).value.waiters|
    requires var before := Exec(actions[..|actions| - 1], ttl).value;
             w < |before.waiters| ==> !before.waiters[w].Answered?
    requires Exec(actions, ttl).value.waiters[w].Answered?
    ensures AnsweredAt(actions, ttl, w, Exec(actions, ttl).value.waiters[w].rows, |actions| - 1)
  {
    var before, a := actions[..|actions| - 1], actions[|actions| - 1];
    WaitersAsk(before, ttl);
    WaitersAsk(actions, ttl);
    match a
    case Post(_, _, _) =>
    case Enter(filter, since) => EnterAnswersIff(Exec(before, ttl).value, filter, since, ttl);
    case Resume(v, expired) => ResumeAnswersIff(Exec(before, ttl).value, v, expired, ttl);
  }

  lemma AnsweredBefore(actions: seq<Action>, ttl: real, w: nat, rows: set<Rid>, k: nat)
    requires actions != [] && AnsweredAt(actions[..|actions| - 1], ttl, w, rows, k)
    ensures AnsweredAt(actions, ttl, w, rows, k)
  {
    assert actions[..|actions| - 1][..k] == actions[..k];
  }

  /** Every answer of every run was exact when it was given. */
  lemma {:induction false} AnswersAreExact(actions: seq<Action>, ttl: real, w: nat)
    requires Exec(actions, ttl).Some? && w < |Exec(actions, ttl).value.waiters|
    requires Exec(actions, ttl).value.waiters[w].Answered?
    ensures exists k: nat :: AnsweredAt(actions, ttl, w, Exec(actions, ttl).value.waiters[w].rows, k)
  {
    var before := actions[..|actions| - 1];
    var s := Exec(before, ttl).value;
    if w < |s.waiters| && s.waiters[w].Answered? {
      AnswersAreExact(before, ttl, w);
      var rows := s.waiters[w].rows;
      var k: nat :| AnsweredAt(before, ttl, w, rows, k);
      AnsweredBefore(actions, ttl, w, rows, k);
    } else {
      AnsweredNow(actions, ttl, w);
    }
  }

  // ----------------------------------------------------------------------------------------------
  // A client's cursor
  // ----------------------------------------------------------------------------------------------

  /** One watcher against one server.  `answer` is a response the server has computed and the watcher
      has not read yet.  `stamped`, `delivered` and `received` are history variables: the newest turn
      stamp written so far, or the seed; every (review, stamp) the watcher has been handed; and every
      response it has read. */
  datatype Link = Link(metas: map<Rid, Meta>, cursor: real, answer: Option<seq<Row>>,
                       stamped: real, delivered: set<(Rid, real)>, received: seq<seq<Row>>)

  datatype Event =
    | Send(rid: Rid, body: Body, now: real)
    | Scan(rows: seq<Row>)   // the server answers the agent-turn poll, listing the hits in some order
    | Receive                // the watcher reads the answer and advances its cursor
    | Lose                   // the answer is lost: the watcher polls again with the same cursor

  function MetaOf(l: Link, rid: Rid): Meta {
    if rid in l.metas then l.metas[rid] else Blank
  }

  function StampOf(l: Link, rid: Rid): real {
    MetaOf(l, rid).turnUpdated.GetOr(0.0)
  }

  /** What the agent-turn poll would find now. */
  function Rows(l: Link): set<(Rid, real)> {
    set rid | rid in l.metas && Matches(l.metas[rid], Some(Agent), l.cursor) :: (rid, l.metas[rid].turnUpdated.GetOr(0.0))
  }

  function RowSet(rows: seq<Row>): set<(Rid, real)> {
    set r | r in rows :: (r.rid, r.turnUpdated)
  }

  function InFlight(l: Link): set<(Rid, real)> {
    match l.answer
    case None => {}
    case Some(rows) => RowSet(rows)
  }

  predicate CanHappen(l: Link, e: Event) {
    match e
    case Send(_, _, _) => true
    case Scan(rows) => l.answer == None && RowSet(rows) == Rows(l)
    case Receive => l.answer.Some?
    case Lose => l.answer.Some?
  }

  function Next(l: Link, e: Event, ttl: real): Link
    requires CanHappen(l, e)
  {
    match e
    case Send(rid, body, now) =>
      var m := MetaOf(l, rid);
      (match Decide(m, body, now, ttl)
       case Failure(_) => l
       case Success(m') =>
         l.(metas := l.metas[rid := m'], stamped := if MovesTurn(m, body) then now else l.stamped))
    case Scan(rows) => l.(answer := Some(rows))
    case Receive =>
      var rows := l.answer.value;
      l.(answer := None, cursor := NewestStamp(l.cursor, rows), delivered := l.delivered + RowSet(rows),
         received := l.received + [rows])
    case Lose => l.(answer := None)
  }

  function Play(start: Link, events: seq<Event>, ttl: real): Option<Link> {
    if events == [] then Some(start)
    else
      match Play(start, events[..|events| - 1], ttl)
      case None => None
      case Some(l) =>
        var e := events[|events| - 1];
        if CanHappen(l, e) then Some(Next(l, e, ttl)) else None
  }

  /** Turn stamps strictly increase, and start after the watcher's seed. */
  predicate Fresh(l: Link, e: Event) {
    e.Send? && MovesTurn(MetaOf(l, e.rid), e.body) ==> e.now > l.stamped
  }

  predicate FreshRun(start: Link, events: seq<Event>, ttl: real) {
    events != [] ==>
      && FreshRun(start, events[..|events| - 1], ttl)
      && (Play(start, events[..|events| - 1], ttl).Some? ==>
            Fresh(Play(start, events[..|events| - 1], ttl).value, events[|events| - 1]))
  }

  /** The watcher's cursor is its seed advanced by the responses it has read: what Watcher.Run computes
      from the same responses. */
  lemma {:induction false} CursorFollowsResponses(start: Link, events: seq<Event>, ttl: real)
    requires Play(start, events, ttl).Some? && start.received == []
    ensures var l := Play(start, events, ttl).value; l.cursor == CursorAfter(start.cursor, l.received)
  {
    if events != [] {
      CursorFollowsResponses(start, events[..|events| - 1], ttl);
      var l := Play(start, events[..|events| - 1], ttl).value;
      if events[|events| - 1].Receive? {
        CursorStep(start.cursor, l.received, l.answer.value);
      }
    }
  }

  /** A watcher that has just seeded its cursor, with now or, to take the backlog too, with 0. */
  predicate Seeded(l: Link) {
    && l.delivered == {} && l.answer == None && l.received == [] && 0.0 <= l.cursor <= l.stamped
    && forall rid :: rid in l.metas ==> StampOf(l, rid) <= l.stamped
  }

  /** Where the cursor will be once the answer in flight has been read. */
  function Bound(l: Link): real {
    match l.answer
    case None => l.cursor
    case Some(rows) => NewestStamp(l.cursor, rows)
  }

  predicate AtAgent(l: Link, rid: Rid) {
    rid in l.metas && l.metas[rid].turn == Some(Agent)
  }

  /** Every review at the agent's turn will be in a later answer, is in the one in flight, has been
      delivered, or has not moved since before the seed; and nothing at or below the cursor can be
      delivered again. */
  predicate Tracked(l: Link, seed: real) {
    && (forall rid :: rid in l.metas && AtAgent(l, rid) ==>
          StampOf(l, rid) > Bound(l) || (rid, StampOf(l, rid)) in l.delivered + InFlight(l) || StampOf(l, rid) <= seed)
    && (forall d :: d in l.delivered ==> seed < d.1 <= l.cursor)
    && (forall r :: r in InFlight(l) ==> l.cursor < r.1 <= l.stamped)
    && (forall rid :: rid in l.metas ==> StampOf(l, rid) <= l.stamped)
    && seed <= l.cursor <= l.stamped && 0.0 <= seed
  }

  /** The bound is the cursor or a stamp in flight, and at least both. */
  lemma BoundIs(l: Link)
    ensures Bound(l) >= l.cursor && forall r :: r in InFlight(l) ==> r.1 <= Bound(l)
    ensures Bound(l) == l.cursor || exists r :: r in InFlight(l) && r.1 == Bound(l)
  {
    match l.answer
    case None =>
    case Some(rows) =>
      NewestStampIsMax(l.cursor, rows);
      if Bound(l) != l.cursor {
        var k :| 0 <= k < |rows| && Bound(l) == rows[k].turnUpdated;
        assert (rows[k].rid, rows[k].turnUpdated) in InFlight(l);
      }
  }

  lemma SendTracked(l: Link, e: Event, ttl: real, seed: real)
    requires Tracked(l, seed) && Fresh(l, e) && e.Send?
    ensures Tracked(Next(l, e, ttl), seed)
  {
    StampMovesWithTurn(MetaOf(l, e.rid), e.body, e.now, ttl);
    BoundIs(l);
    var l' := Next(l, e, ttl);
    forall rid | rid in l'.metas
      ensures AtAgent(l', rid) ==>
                StampOf(l', rid) > Bound(l') || (rid, StampOf(l', rid)) in l'.delivered + InFlight(l') || StampOf(l', rid) <= seed
      ensures StampOf(l', rid) <= l'.stamped
    {
    }
  }

  lemma NextTracked(l: Link, e: Event, ttl: real, seed: real)
    requires Tracked(l, seed) && Fresh(l, e) && CanHappen(l, e)
    ensures Tracked(Next(l, e, ttl), seed)
  {
    var l' := Next(l, e, ttl);
    BoundIs(l);
    BoundIs(l');
    match e
    case Send(_, _, _) => SendTracked(l, e, ttl, seed);
    case Scan(rows) =>
      forall rid | rid in l.metas && AtAgent(l, rid) && StampOf(l, rid) > l.cursor
        ensures (rid, StampOf(l, rid)) in InFlight(l')
      {
      }
    case Receive =>
    case Lose =>
  }

  /** Over every run with strictly increasing stamps, however requests, scans, receipts and losses
      interleave: no flip is missed. */
  lemma {:induction false} NoFlipIsMissed(start: Link, events: seq<Event>, ttl: real)
    requires Seeded(start) && FreshRun(start, events, ttl) && Play(start, events, ttl).Some?
    ensures Tracked(Play(start, events, ttl).value, start.cursor)
  {
    if events != [] {
      var before := events[..|events| - 1];
      NoFlipIsMissed(start, before, ttl);
      NextTracked(Play(start, before, ttl).value, events[|events| - 1], ttl, start.cursor);
    }
  }

  /** Each flip is delivered at most once, and by the first scan after it whose answer arrives while it
      stands: a scan lists (rid, stamp) if and only if the review is at the agent's turn with that
      stamp, the stamp is newer than the seed, and it was not delivered before. */
  lemma DeliveredExactlyOnce(start: Link, events: seq<Event>, ttl: real, rid: Rid, stamp: real)
    requires Seeded(start) && FreshRun(start, events, ttl) && Play(start, events, ttl).Some?
    requires Play(start, events, ttl).value.answer == None
    ensures var l := Play(start, events, ttl).value;
            && ((rid, stamp) in Rows(l) <==>
                  AtAgent(l, rid) && StampOf(l, rid) == stamp && stamp > start.cursor && (rid, stamp) !in l.delivered)
            && Rows(l) !! l.delivered
  {
    NoFlipIsMissed(start, events, ttl);
  }

  /** Reading the answer to a scan leaves nothing it listed to be found again. */
  lemma ReceiptEmpties(l: Link, rows: seq<Row>, ttl: real)
    requires CanHappen(l, Scan(rows))
    ensures var l' := Next(Next(l, Scan(rows), ttl), Receive, ttl);
            Rows(l') == {} && l'.delivered == l.delivered + Rows(l)
  {
    NewestStampIsMax(l.cursor, rows);
    var l' := Next(Next(l, Scan(rows), ttl), Receive, ttl);
    assert forall r :: r in RowSet(rows) ==> r.1 <= l'.cursor;
    assert Rows(l') <= Rows(l);
    assert forall r :: r in Rows(l') ==> r.1 > l'.cursor;
  }

  // ----------------------------------------------------------------------------------------------
  // Any stamps at all: what decides whether a flip is delivered
  // ----------------------------------------------------------------------------------------------

  /** No request of the run moves the turn of rid. */
  predicate Unmoved(start: Link, events: seq<Event>, ttl: real, rid: Rid) {
    events != [] ==>
      && Unmoved(start, events[..|events| - 1], ttl, rid)
      && var e := events[|events| - 1];
         (Play(start, events[..|events| - 1], ttl).Some? && e.Send? && e.rid == rid ==>
            !MovesTurn(MetaOf(Play(start, events[..|events| - 1], ttl).value, rid), e.body))
  }

  lemma UnmovedStep(l: Link, e: Event, ttl: real, rid: Rid)
    requires CanHappen(l, e) && (e.Send? && e.rid == rid ==> !MovesTurn(MetaOf(l, rid), e.body))
    ensures MetaOf(Next(l, e, ttl), rid).turn == MetaOf(l, rid).turn && StampOf(Next(l, e, ttl), rid) == StampOf(l, rid)
    ensures rid in l.metas ==> rid in Next(l, e, ttl).metas
    ensures l.cursor <= Next(l, e, ttl).cursor
  {
    if e.Send? && e.rid == rid {
      StampMovesWithTurn(MetaOf(l, rid), e.body, e.now, ttl);
    }
    if e.Receive? {
      NewestStampIsMax(l.cursor, l.answer.value);
    }
  }

  predicate Mentions(rows: set<(Rid, real)>, rid: Rid) {
    exists r :: r in rows && r.0 == rid
  }

  /** A review whose stamp the cursor has reached is in no later scan and no later answer until its turn
      moves again. */
  lemma {:induction false} SilentUntilMoved(start: Link, events: seq<Event>, ttl: real, rid: Rid)
    requires Play(start, events, ttl).Some? && Unmoved(start, events, ttl, rid)
    requires start.answer == None && StampOf(start, rid) <= start.cursor
    ensures var l := Play(start, events, ttl).value;
            && !Mentions(Rows(l), rid) && !Mentions(InFlight(l), rid)
            && (forall d :: d in l.delivered && d.0 == rid ==> d in start.delivered)
            && StampOf(l, rid) == StampOf(start, rid) <= l.cursor
  {
    if events != [] {
      var before, e := events[..|events| - 1], events[|events| - 1];
      SilentUntilMoved(start, before, ttl, rid);
      var l := Play(start, before, ttl).value;
      UnmovedStep(l, e, ttl, rid);
      if e.Scan? {
        assert InFlight(Next(l, e, ttl)) == Rows(l);
      }
    }
  }

  /** The flip will be, or is being, or has been delivered. */
  predicate OnItsWay(l: Link, rid: Rid, stamp: real) {
    (rid, stamp) in l.delivered || (if l.answer.Some? then (rid, stamp) in InFlight(l) else stamp > l.cursor)
  }

  lemma {:induction false} StaysOnItsWay(start: Link, events: seq<Event>, ttl: real, rid: Rid)
    requires Play(start, events, ttl).Some? && Unmoved(start, events, ttl, rid)
    requires start.answer == None && AtAgent(start, rid) && StampOf(start, rid) > start.cursor
    ensures var l := Play(start, events, ttl).value;
            && AtAgent(l, rid) && StampOf(l, rid) == StampOf(start, rid) && OnItsWay(l, rid, StampOf(start, rid))
            && (InFlight(l) != {} ==> forall r :: r in InFlight(l) ==> r.1 > l.cursor)
  {
    if events != [] {
      var before, e := events[..|events| - 1], events[|events| - 1];
      StaysOnItsWay(start, before, ttl, rid);
      var l := Play(start, before, ttl).value;
      UnmovedStep(l, e, ttl, rid);
    }
  }

  /** From a moment with no answer in flight: once an answer has been read, a standing flip has been
      delivered if and only if its stamp was above the cursor. */
  lemma DeliveredIff(start: Link, events: seq<Event>, ttl: real, rid: Rid)
    requires start.answer == None && AtAgent(start, rid) && (rid, StampOf(start, rid)) !in start.delivered
    requires Play(start, events, ttl).Some? && Unmoved(start, events, ttl, rid)
    requires events != [] && events[|events| - 1].Receive?
    ensures (rid, StampOf(start, rid)) in Play(start, events, ttl).value.delivered <==> StampOf(start, rid) > start.cursor
  {
    if StampOf(start, rid) > start.cursor {
      StaysOnItsWay(start, events[..|events| - 1], ttl, rid);
    } else {
      SilentUntilMoved(start, events, ttl, rid);
    }
  }

  /** `clearing` is what happens to the answer that is in flight: nothing if there is none; else, after any
      requests, the watcher reads it or loses it. */
  predicate Clears(l: Link, clearing: seq<Event>) {
    if l.answer == None then clearing == []
    else
      && clearing != [] && !clearing[|clearing| - 1].Send? && !clearing[|clearing| - 1].Scan?
      && forall k :: 0 <= k < |clearing| - 1 ==> clearing[k].Send?
  }

  /** The cursor once nothing is in flight any more. */
  function Threshold(l: Link, clearing: seq<Event>): real {
    if clearing != [] && clearing[|clearing| - 1].Receive? then Bound(l) else l.cursor
  }

  lemma {:induction false} RequestsKeepTheAnswer(start: Link, events: seq<Event>, ttl: real, rid: Rid)
    requires Play(start, events, ttl).Some? && Unmoved(start, events, ttl, rid)
    requires forall k :: 0 <= k < |events| ==> events[k].Send?
    ensures var l := Play(start, events, ttl).value;
            && l.answer == start.answer && l.cursor == start.cursor && l.delivered == start.delivered
            && MetaOf(l, rid).turn == MetaOf(start, rid).turn && StampOf(l, rid) == StampOf(start, rid)
            && (rid in start.metas ==> rid in l.metas)
  {
    if events != [] {
      var before, e := events[..|events| - 1], events[|events| - 1];
      RequestsKeepTheAnswer(start, before, ttl, rid);
      UnmovedStep(Play(start, before, ttl).value, e, ttl, rid);
    }
  }

  /** A run in two parts. */
  lemma {:induction false} PlayedInTwo(start: Link, a: seq<Event>, b: seq<Event>, ttl: real, rid: Rid)
    requires Play(start, a + b, ttl).Some? && Unmoved(start, a + b, ttl, rid)
    ensures Play(start, a, ttl).Some? && Unmoved(start, a, ttl, rid)
    ensures Play(Play(start, a, ttl).value, b, ttl) == Play(start, a + b, ttl) && Unmoved(Play(start, a, ttl).value, b, ttl, rid)
    decreases |b|
  {
    if b == [] {
      assert a + b == a;
    } else {
      var c := b[..|b| - 1];
      assert (a + b)[..|a + b| - 1] == a + c;
      PlayedInTwo(start, a, c, ttl, rid);
    }
  }

  lemma Cleared(start: Link, clearing: seq<Event>, ttl: real, rid: Rid)
    requires Clears(start, clearing) && Play(start, clearing, ttl).Some? && Unmoved(start, clearing, ttl, rid)
    requires AtAgent(start, rid) && (rid, StampOf(start, rid)) !in start.delivered + InFlight(start)
    ensures var l := Play(start, clearing, ttl).value;
            && l.answer == None && l.cursor == Threshold(start, clearing)
            && AtAgent(l, rid) && StampOf(l, rid) == StampOf(start, rid) && (rid, StampOf(start, rid)) !in l.delivered
  {
    if start.answer.Some? {
      RequestsKeepTheAnswer(start, clearing[..|clearing| - 1], ttl, rid);
    }
  }

  /** Whether a flip is ever delivered is decided by one comparison, whatever the stamps of the others are
      and whether or not an answer is in flight when it is sent.  Take any run from the flip on in which
      its review's turn does not move again: once an answer to a later scan has been read, the flip has
      been delivered if and only if its stamp is above the threshold, which is the cursor at the flip
      or, if an answer was in flight and was then read, the cursor after that answer. */
  lemma FlipIsSeenIff(l: Link, rid: Rid, body: Body, now: real, ttl: real, clearing: seq<Event>, events: seq<Event>)
    requires FormOf(body) == Flip && MetaOf(l, rid).turn != Some(Agent) && (rid, now) !in l.delivered + InFlight(l)
    requires Clears(l, clearing) && events != [] && events[|events| - 1].Receive?
    requires var start := Next(l, Send(rid, body, now), ttl);
             Play(start, clearing + events, ttl).Some? && Unmoved(start, clearing + events, ttl, rid)
    ensures (rid, now) in Play(Next(l, Send(rid, body, now), ttl), clearing + events, ttl).value.delivered <==> now > Threshold(l, clearing)
  {
    var start := Next(l, Send(rid, body, now), ttl);
    PlayedInTwo(start, clearing, events, ttl, rid);
    Cleared(start, clearing, ttl, rid);
    DeliveredIff(Play(start, clearing, ttl).value, events, ttl, rid);
  }

  /** The review is at the agent's turn, was never delivered, and will not be. */
  predicate Overlooked(l: Link, rid: Rid) {
    AtAgent(l, rid) && !Mentions(l.delivered, rid) && !Mentions(InFlight(l), rid) && !Mentions(Rows(l), rid)
  }

  lemma Played(start: Link, events: seq<Event>, e: Event, ttl: real)
    requires Play(start, events, ttl).Some? && CanHappen(Play(start, events, ttl).value, e)
    ensures Play(start, events + [e], ttl) == Some(Next(Play(start, events, ttl).value, e, ttl))
  {
    assert (events + [e])[..|events|] == events;
  }

  const Flipping := Body(Some("agent"), None, None, None, None)

  /** Review "a" is flipped at 1, found and delivered. */
  lemma FirstDelivered() returns (l: Link)
    ensures Play(Link(map[], 0.0, None, 0.0, {}, []), [Send("a", Flipping, 1.0), Scan([Row("a", 1.0)]), Receive], 180.0) == Some(l)
    ensures l == Link(map["a" := Meta(Some(Agent), Some(1.0), None, Some(1.0))], 1.0, None, 1.0, {("a", 1.0)}, [[Row("a", 1.0)]])
  {
    var start := Link(map[], 0.0, None, 0.0, {}, []);
    var rows := [Row("a", 1.0)];
    var e1: seq<Event> := [Send("a", Flipping, 1.0)];
    var l1 := Next(start, Send("a", Flipping, 1.0), 180.0);
    Played(start, [], Send("a", Flipping, 1.0), 180.0);
    assert [] + e1 == e1;
    assert l1.metas == map["a" := Meta(Some(Agent), Some(1.0), None, Some(1.0))];
    assert Rows(l1) == {("a", 1.0)} == RowSet(rows);
    Played(start, e1, Scan(rows), 180.0);
    var e2 := e1 + [Scan(rows)];
    Played(start, e2, Receive, 180.0);
    assert e2 + [Receive] == [Send("a", Flipping, 1.0), Scan(rows), Receive];
    l := Next(Next(l1, Scan(rows), 180.0), Receive, 180.0);
    assert rows[..0] == [] && NewestStamp(0.0, rows) == 1.0;
    assert l.delivered == {("a", 1.0)} && l.received == [rows];
  }

  /** Equal stamps do lose a flip: two reviews flipped in the same clock tick, with a delivery in between. */
  lemma EqualStampIsLost()
    ensures var start := Link(map[], 0.0, None, 0.0, {}, []);
            var events := [Send("a", Flipping, 1.0), Scan([Row("a", 1.0)]), Receive, Send("b", Flipping, 1.0)];
            Seeded(start) && Play(start, events, 180.0).Some? && Overlooked(Play(start, events, 180.0).value, "b")
  {
    var start := Link(map[], 0.0, None, 0.0, {}, []);
    var l := FirstDelivered();
    var events := [Send("a", Flipping, 1.0), Scan([Row("a", 1.0)]), Receive];
    Played(start, events, Send("b", Flipping, 1.0), 180.0);
    assert events + [Send("b", Flipping, 1.0)] == [Send("a", Flipping, 1.0), Scan([Row("a", 1.0)]), Receive, Send("b", Flipping, 1.0)];
    var l' := Next(l, Send("b", Flipping, 1.0), 180.0);
    assert l'.metas["b"] == Meta(Some(Agent), Some(1.0), None, Some(1.0));
  }
}
