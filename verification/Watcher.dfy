/**
  The watcher (src/watcher/spawn.py and loop.py): one poll loop that claims flipped reviews and
  spawns a child for each, under three caps.  What the outside world does at each step (the clock,
  which children have exited, the claim's HTTP status) is an explicit input of the step; the loops
  draw those inputs arbitrarily, so their contracts hold for every run.
 */
module Watcher {
  import opened RollingWindow
  import opened Responses
  import LongPoll

  /** One line of the full launch history. */
  datatype Spawn = Spawn(rid: Rid, at: real)

  function Times(log: seq<Spawn>): seq<real> {
    if log == [] then [] else Times(log[..|log| - 1]) + [log[|log| - 1].at]
  }

  /** When children of one review were spawned. */
  function TimesOf(log: seq<Spawn>, rid: Rid): seq<real> {
    if log == [] then []
    else TimesOf(log[..|log| - 1], rid) + (if log[|log| - 1].rid == rid then [log[|log| - 1].at] else [])
  }

  function Max(x: int, y: int): int { if x >= y then x else y }

  /** The deployment's settings (src/watcher/config.py). */
  datatype Config = Config(maxConcurrent: int, maxLaunches: int, launchWindow: real, maxAttempts: int, attemptWindow: real)
  {
    /** The gate lets a review with no recent attempts through even if its cap is 0 or less. */
    function AttemptLimit(): int { Max(maxAttempts, 1) }
  }

  // ----------------------------------------------------------------------------------------------
  // What each check answers, in terms of the full history
  // ----------------------------------------------------------------------------------------------

  /** The concurrency cap or the launches-per-window cap is hit at time t. */
  predicate Full(cfg: Config, tracked: int, log: seq<Spawn>, t: real) {
    tracked >= cfg.maxConcurrent || Since(Times(log), t - cfg.launchWindow) >= cfg.maxLaunches
  }

  /** The review has used up its attempts in the window ending at t. */
  predicate Spent(cfg: Config, log: seq<Spawn>, rid: Rid, t: real) {
    var n := Since(TimesOf(log, rid), t - cfg.attemptWindow);
    n > 0 && n >= cfg.maxAttempts
  }

  /** The outside world during one handle(): which children have exited when capacity is checked,
      when, the claim's HTTP status, and when a spawn would be recorded. */
  datatype Claim = Claim(exited: set<Rid>, at: real, status: int, spawnAt: real)

  /** One row of a /wait response, and the world while it is processed. */
  datatype RowInputs = RowInputs(armed: bool, gateAt: real, claim: Claim, exitedAgain: set<Rid>, checkAt: real)

  predicate InOrder(now: real, g: RowInputs) {
    now <= g.gateAt <= g.claim.at <= g.claim.spawnAt <= g.checkAt
  }

  datatype Handled = Launched | WasFull | Rejected

  datatype Outcome = NoId | NotArmed | AttemptsSpent | Claimed | Deferred | Refused | Dropped

  /** What becomes of a delivered row. */
  function RowOutcome(cfg: Config, inflight: set<Rid>, log: seq<Spawn>, rid: Rid, g: RowInputs): Outcome {
    var first := inflight - g.claim.exited;
    if rid == "" then NoId
    else if !g.armed then NotArmed
    else if Spent(cfg, log, rid, g.gateAt) then AttemptsSpent
    else if Full(cfg, |first|, log, g.claim.at) then
      if Full(cfg, |first - g.exitedAgain|, log, g.checkAt) then Deferred else Dropped
    else if g.claim.status == 200 then Claimed
    else if Full(cfg, |first - g.exitedAgain|, log, g.checkAt) then Deferred
    else Refused
  }

  /** Between the two capacity checks of one row a tracked child was reaped or a launch left the window. */
  predicate SlotFreed(cfg: Config, inflight: set<Rid>, log: seq<Spawn>, g: RowInputs) {
    var first := inflight - g.claim.exited;
    || first - g.exitedAgain != first
    || Since(Times(log), g.checkAt - cfg.launchWindow) != Since(Times(log), g.claim.at - cfg.launchWindow)
  }

  // ----------------------------------------------------------------------------------------------
  // State and steps
  // ----------------------------------------------------------------------------------------------

  /** The module state of spawn.py and the locals of run(): the clock reading last taken, the reviews
      with a tracked child, the launches deque, one attempts deque per review, and the pending set.
      `log` is a history variable: every spawn there ever was. */
  datatype Memory = Memory(clock: real, inflight: set<Rid>, launches: seq<real>, attempts: map<Rid, seq<real>>,
                           pending: set<Rid>, log: seq<Spawn>)

  function Start(now: real): Memory {
    Memory(now, {}, [], map[], {}, [])
  }

  function AttemptsIn(attempts: map<Rid, seq<real>>, rid: Rid): seq<real> {
    if rid in attempts then attempts[rid] else []
  }

  /** _at_capacity at time t: reap, and evict stale launches if there is a free slot. */
  function CapacityStep(cfg: Config, m: Memory, exited: set<Rid>, t: real): (Memory, bool) {
    var reaped := m.(clock := t, inflight := m.inflight - exited);
    if |reaped.inflight| >= cfg.maxConcurrent then (reaped, true)
    else
      var dq := Evicted(m.launches, t - cfg.launchWindow);
      (reaped.(launches := dq), |dq| >= cfg.maxLaunches)
  }

  /** _per_review_capped at time t: an emptied deque's key is deleted. */
  function GateStep(cfg: Config, m: Memory, rid: Rid, t: real): (Memory, bool) {
    if rid !in m.attempts then (m.(clock := t), false)
    else
      var dq := Evicted(m.attempts[rid], t - cfg.attemptWindow);
      if dq == [] then (m.(clock := t, attempts := m.attempts - {rid}), false)
      else (m.(clock := t, attempts := m.attempts[rid := dq]), |dq| >= cfg.maxAttempts)
  }

  /** _spawn, recorded at time t. */
  function LaunchStep(m: Memory, rid: Rid, t: real): Memory {
    m.(clock := t, inflight := m.inflight + {rid}, launches := m.launches + [t],
       attempts := m.attempts[rid := AttemptsIn(m.attempts, rid) + [t]], log := m.log + [Spawn(rid, t)])
  }

  /** handle: capacity first, then the claim, then a spawn only on a 200. */
  function HandleStep(cfg: Config, m: Memory, rid: Rid, c: Claim): (Memory, Handled) {
    var (m1, full) := CapacityStep(cfg, m, c.exited, c.at);
    if full then (m1, WasFull)
    else if c.status == 200 then (LaunchStep(m1, rid, c.spawnAt), Launched)
    else (m1, Rejected)
  }

  /** The body of run()'s loop over the rows of a response. */
  function RowStep(cfg: Config, m: Memory, rid: Rid, g: RowInputs): (Memory, Outcome) {
    if rid == "" then (m, NoId)
    else if !g.armed then (m, NotArmed)
    else
      var (m1, capped) := GateStep(cfg, m, rid, g.gateAt);
      if capped then (m1, AttemptsSpent)
      else
        var (m2, r) := HandleStep(cfg, m1, rid, g.claim);
        if r == Launched then (m2, Claimed)
        else
          var (m3, full) := CapacityStep(cfg, m2, g.exitedAgain, g.checkAt);
          if full then (m3.(pending := m3.pending + {rid}), Deferred)
          else (m3, if r == WasFull then Dropped else Refused)
  }

  /** One turn of _drain_pending's loop; true when it breaks off.  The per-review gate is not asked. */
  function DrainStep(cfg: Config, m: Memory, rid: Rid, exited: set<Rid>, t: real, c: Claim): (Memory, bool) {
    var (m1, full) := CapacityStep(cfg, m, exited, t);
    if full then (m1, true)
    else
      var (m2, r) := HandleStep(cfg, m1, rid, c);
      (if r == Launched then m2.(pending := m2.pending - {rid}) else m2, false)
  }

  // ----------------------------------------------------------------------------------------------
  // The invariant
  // ----------------------------------------------------------------------------------------------

  /** How many attempts of rid are in the window ending at `now`. */
  function Recent(cfg: Config, log: seq<Spawn>, rid: Rid, now: real): nat {
    Since(TimesOf(log, rid), now - cfg.attemptWindow)
  }

  /** What holds of one review: its deque is right, no window has ever held more than one spawn over
      its limit, and a pending review has passed the gate once without spawning. */
  ghost predicate ReviewOk(cfg: Config, m: Memory, rid: Rid) {
    && DequeRight(TimesOf(m.log, rid), AttemptsIn(m.attempts, rid), m.clock, cfg.attemptWindow)
    && Capped(TimesOf(m.log, rid), cfg.attemptWindow, cfg.AttemptLimit() + 1)
    && Recent(cfg, m.log, rid, m.clock) + (if rid in m.pending then 1 else 0) <= cfg.AttemptLimit() + 1
  }

  /** What holds of the watcher as a whole. */
  ghost predicate GlobalOk(cfg: Config, m: Memory) {
    && DequeRight(Times(m.log), m.launches, m.clock, cfg.launchWindow)
    && Capped(Times(m.log), cfg.launchWindow, Max(cfg.maxLaunches, 0))
    && |m.inflight| <= Max(cfg.maxConcurrent, 0)
  }

  ghost predicate Ok(cfg: Config, m: Memory) {
    GlobalOk(cfg, m) && forall rid :: ReviewOk(cfg, m, rid)
  }

  lemma LogGrows(log: seq<Spawn>, rid: Rid, t: real)
    ensures Times(log + [Spawn(rid, t)]) == Times(log) + [t]
    ensures TimesOf(log + [Spawn(rid, t)], rid) == TimesOf(log, rid) + [t]
    ensures forall other :: other != rid ==> TimesOf(log + [Spawn(rid, t)], other) == TimesOf(log, other)
  {
    assert (log + [Spawn(rid, t)])[..|log|] == log;
  }

  lemma ReviewAges(cfg: Config, m: Memory, rid: Rid, t: real)
    requires ReviewOk(cfg, m, rid) && m.clock <= t
    ensures ReviewOk(cfg, m.(clock := t), rid) && Recent(cfg, m.log, rid, t) <= Recent(cfg, m.log, rid, m.clock)
  {
    DequeAges(TimesOf(m.log, rid), AttemptsIn(m.attempts, rid), m.clock, t, cfg.attemptWindow);
  }

  lemma FewerTracked(a: set<Rid>, b: set<Rid>)
    requires a <= b
    ensures |a| <= |b|
  {
    assert b == a + (b - a);
  }

  /** The invariant only looks at a review's deque, the log, the clock and the pending set. */
  lemma SameReviews(cfg: Config, m: Memory, m': Memory)
    requires forall rid :: ReviewOk(cfg, m, rid)
    requires m'.attempts == m.attempts && m'.log == m.log && m'.clock == m.clock && m'.pending == m.pending
    ensures forall rid :: ReviewOk(cfg, m', rid)
  {
    forall rid
      ensures ReviewOk(cfg, m', rid)
    {
      assert ReviewOk(cfg, m, rid);
    }
  }

  /** A capacity check answers for the full history, and changes nothing that is recorded there. */
  lemma CapacityOk(cfg: Config, m: Memory, exited: set<Rid>, t: real)
    requires Ok(cfg, m) && m.clock <= t
    ensures var (m', full) := CapacityStep(cfg, m, exited, t);
            && Ok(cfg, m') && (full <==> Full(cfg, |m.inflight - exited|, m.log, t))
            && m'.log == m.log && m'.pending == m.pending && m'.clock == t && m'.inflight == m.inflight - exited
    ensures forall rid :: Recent(cfg, m.log, rid, t) <= Recent(cfg, m.log, rid, m.clock)
  {
    CapacityKeepsOk(cfg, m, exited, t);
    CapacityOkGlobal(cfg, m, exited, t);
    RecentShrinks(cfg, m.log, m.clock, t);
  }

  lemma RecentShrinks(cfg: Config, log: seq<Spawn>, now: real, t: real)
    requires now <= t
    ensures forall rid :: Recent(cfg, log, rid, t) <= Recent(cfg, log, rid, now)
  {
    forall rid
      ensures Recent(cfg, log, rid, t) <= Recent(cfg, log, rid, now)
    {
      SinceShrinks(TimesOf(log, rid), now - cfg.attemptWindow, t - cfg.attemptWindow);
    }
  }

  lemma CapacityKeepsOk(cfg: Config, m: Memory, exited: set<Rid>, t: real)
    requires Ok(cfg, m) && m.clock <= t
    ensures Ok(cfg, CapacityStep(cfg, m, exited, t).0)
  {
    var m' := CapacityStep(cfg, m, exited, t).0;
    CapacityOkGlobal(cfg, m, exited, t);
    forall rid
      ensures ReviewOk(cfg, m', rid)
    {
      CapacityOkReview(cfg, m, exited, t, rid);
    }
  }

  lemma CapacityOkGlobal(cfg: Config, m: Memory, exited: set<Rid>, t: real)
    requires GlobalOk(cfg, m) && m.clock <= t
    ensures var (m', full) := CapacityStep(cfg, m, exited, t);
            GlobalOk(cfg, m') && (full <==> Full(cfg, |m.inflight - exited|, m.log, t))
  {
    DequeAges(Times(m.log), m.launches, m.clock, t, cfg.launchWindow);
    CapacityGlobal(cfg, m.(clock := t), exited);
  }

  lemma CapacityOkReview(cfg: Config, m: Memory, exited: set<Rid>, t: real, rid: Rid)
    requires ReviewOk(cfg, m, rid) && m.clock <= t
    ensures ReviewOk(cfg, CapacityStep(cfg, m, exited, t).0, rid)
    ensures Recent(cfg, m.log, rid, t) <= Recent(cfg, m.log, rid, m.clock)
  {
    ReviewAges(cfg, m, rid, t);
  }

  lemma CapacityGlobal(cfg: Config, m: Memory, exited: set<Rid>)
    requires GlobalOk(cfg, m)
    ensures var (m', full) := CapacityStep(cfg, m, exited, m.clock);
            GlobalOk(cfg, m') && (full <==> Full(cfg, |m.inflight - exited|, m.log, m.clock))
  {
    FewerTracked(m.inflight - exited, m.inflight);
    if |m.inflight - exited| < cfg.maxConcurrent {
      EvictedRight(Times(m.log), m.launches, m.clock, cfg.launchWindow);
    }
  }

  /** The gate answers for the full history: deleting emptied keys never changes the answer. */
  lemma GateOk(cfg: Config, m: Memory, rid: Rid, t: real)
    requires Ok(cfg, m) && m.clock <= t
    ensures var (m', capped) := GateStep(cfg, m, rid, t);
            && Ok(cfg, m') && (capped <==> Spent(cfg, m.log, rid, t))
            && m'.log == m.log && m'.pending == m.pending && m'.clock == t && m'.inflight == m.inflight
  {
    GateKeepsOk(cfg, m, rid, t);
    GateIsExact(cfg, m, rid, t);
    GateFrame(cfg, m, rid, t);
  }

  lemma GateIsExact(cfg: Config, m: Memory, rid: Rid, t: real)
    requires ReviewOk(cfg, m, rid) && m.clock <= t
    ensures GateStep(cfg, m, rid, t).1 <==> Spent(cfg, m.log, rid, t)
  {
    ReviewAges(cfg, m, rid, t);
    GateAnswers(cfg, m, rid, t);
  }

  /** And afterwards a key stands exactly for a review with attempts in the window. */
  lemma GatePrunes(cfg: Config, m: Memory, rid: Rid, t: real)
    requires Ok(cfg, m) && m.clock <= t
    ensures rid in GateStep(cfg, m, rid, t).0.attempts <==> Recent(cfg, m.log, rid, t) > 0
    ensures GateStep(cfg, m, rid, t).0.attempts.Keys - {rid} == m.attempts.Keys - {rid}
  {
    assert ReviewOk(cfg, m, rid);
    RecentIsEvicted(cfg, m, rid, t);
    GateKeys(cfg, m, rid, t);
  }

  lemma RecentIsEvicted(cfg: Config, m: Memory, rid: Rid, t: real)
    requires ReviewOk(cfg, m, rid) && m.clock <= t
    ensures |Evicted(AttemptsIn(m.attempts, rid), t - cfg.attemptWindow)| == Recent(cfg, m.log, rid, t)
  {
    DequeAges(TimesOf(m.log, rid), AttemptsIn(m.attempts, rid), m.clock, t, cfg.attemptWindow);
    EvictedRight(TimesOf(m.log, rid), AttemptsIn(m.attempts, rid), t, cfg.attemptWindow);
  }

  lemma GateKeys(cfg: Config, m: Memory, rid: Rid, t: real)
    ensures rid in GateStep(cfg, m, rid, t).0.attempts <==> Evicted(AttemptsIn(m.attempts, rid), t - cfg.attemptWindow) != []
    ensures GateStep(cfg, m, rid, t).0.attempts.Keys - {rid} == m.attempts.Keys - {rid}
  {
  }

  lemma GateFrame(cfg: Config, m: Memory, rid: Rid, t: real)
    ensures var m' := GateStep(cfg, m, rid, t).0;
            m'.log == m.log && m'.pending == m.pending && m'.clock == t && m'.inflight == m.inflight
  {
  }

  lemma GateKeepsOk(cfg: Config, m: Memory, rid: Rid, t: real)
    requires Ok(cfg, m) && m.clock <= t
    ensures Ok(cfg, GateStep(cfg, m, rid, t).0)
  {
    var m' := GateStep(cfg, m, rid, t).0;
    GateOkGlobal(cfg, m, rid, t);
    forall other
      ensures ReviewOk(cfg, m', other)
    {
      GateOkReview(cfg, m, rid, t, other);
    }
  }

  lemma GateOkGlobal(cfg: Config, m: Memory, rid: Rid, t: real)
    requires GlobalOk(cfg, m) && m.clock <= t
    ensures GlobalOk(cfg, GateStep(cfg, m, rid, t).0)
  {
    DequeAges(Times(m.log), m.launches, m.clock, t, cfg.launchWindow);
  }

  lemma GateOkReview(cfg: Config, m: Memory, rid: Rid, t: real, other: Rid)
    requires ReviewOk(cfg, m, other) && m.clock <= t
    ensures ReviewOk(cfg, GateStep(cfg, m, rid, t).0, other)
  {
    ReviewAges(cfg, m, other, t);
    if other == rid {
      GateAnswers(cfg, m, rid, t);
    } else {
      GateSpares(cfg, m, rid, t, other);
    }
  }

  lemma GateAnswers(cfg: Config, m: Memory, rid: Rid, t: real)
    requires ReviewOk(cfg, m.(clock := t), rid)
    ensures var (m', capped) := GateStep(cfg, m, rid, t);
            ReviewOk(cfg, m', rid) && (capped <==> Spent(cfg, m.log, rid, t))
  {
    EvictedRight(TimesOf(m.log, rid), AttemptsIn(m.attempts, rid), t, cfg.attemptWindow);
  }

  lemma GateSpares(cfg: Config, m: Memory, rid: Rid, t: real, other: Rid)
    requires other != rid && ReviewOk(cfg, m.(clock := t), other)
    ensures ReviewOk(cfg, GateStep(cfg, m, rid, t).0, other)
  {
    assert AttemptsIn(GateStep(cfg, m, rid, t).0.attempts, other) == AttemptsIn(m.attempts, other);
  }

  /** A spawn recorded at t, after checks made no later than m.clock, keeps every cap: the review may
      be at its limit, but then it must not stay pending. */
  lemma LaunchOk(cfg: Config, m: Memory, rid: Rid, t: real, stillPending: set<Rid>)
    requires Ok(cfg, m) && m.clock <= t && stillPending <= m.pending
    requires |m.inflight| < cfg.maxConcurrent && Since(Times(m.log), m.clock - cfg.launchWindow) < cfg.maxLaunches
    requires Recent(cfg, m.log, rid, m.clock) + (if rid in stillPending then 1 else 0) <= cfg.AttemptLimit()
    ensures Ok(cfg, LaunchStep(m, rid, t).(pending := stillPending))
  {
    var m' := LaunchStep(m, rid, t).(pending := stillPending);
    LaunchedGlobalOk(cfg, m, rid, t, stillPending);
    forall other
      ensures ReviewOk(cfg, m', other)
    {
      assert ReviewOk(cfg, m, other);
      if other == rid {
        LaunchedReviewOk(cfg, m, rid, t, stillPending);
      } else {
        LaunchSpares(cfg, m, rid, t, stillPending, other);
      }
    }
  }

  lemma LaunchedGlobalOk(cfg: Config, m: Memory, rid: Rid, t: real, stillPending: set<Rid>)
    requires GlobalOk(cfg, m) && m.clock <= t
    requires |m.inflight| < cfg.maxConcurrent && Since(Times(m.log), m.clock - cfg.launchWindow) < cfg.maxLaunches
    ensures GlobalOk(cfg, LaunchStep(m, rid, t).(pending := stillPending))
  {
    LogGrows(m.log, rid, t);
    RecordKeepsCap(Times(m.log), cfg.launchWindow, Max(cfg.maxLaunches, 0), m.clock, t);
    DequeAges(Times(m.log), m.launches, m.clock, t, cfg.launchWindow);
    DequeRecords(Times(m.log), m.launches, t, cfg.launchWindow);
  }

  lemma LaunchSpares(cfg: Config, m: Memory, rid: Rid, t: real, stillPending: set<Rid>, other: Rid)
    requires ReviewOk(cfg, m, other) && m.clock <= t && stillPending <= m.pending && other != rid
    ensures ReviewOk(cfg, LaunchStep(m, rid, t).(pending := stillPending), other)
  {
    LogGrows(m.log, rid, t);
    ReviewAges(cfg, m, other, t);
    var m' := LaunchStep(m, rid, t);
    assert AttemptsIn(m'.attempts, other) == AttemptsIn(m.attempts, other) && TimesOf(m'.log, other) == TimesOf(m.log, other);
  }

  lemma LaunchedReviewOk(cfg: Config, m: Memory, rid: Rid, t: real, stillPending: set<Rid>)
    requires ReviewOk(cfg, m, rid) && m.clock <= t
    requires Recent(cfg, m.log, rid, m.clock) + (if rid in stillPending then 1 else 0) <= cfg.AttemptLimit()
    ensures ReviewOk(cfg, LaunchStep(m, rid, t).(pending := stillPending), rid)
  {
    LogGrows(m.log, rid, t);
    ReviewAges(cfg, m, rid, t);
    RecordKeepsCap(TimesOf(m.log, rid), cfg.attemptWindow, cfg.AttemptLimit() + 1, m.clock, t);
    DequeRecords(TimesOf(m.log, rid), AttemptsIn(m.attempts, rid), t, cfg.attemptWindow);
    SinceRecord(TimesOf(m.log, rid), t, t - cfg.attemptWindow);
  }

  /** handle keeps the invariant for a review that is below its limit, counting a pending entry that remains. */
  lemma HandleOk(cfg: Config, m: Memory, rid: Rid, c: Claim, stillPending: set<Rid>)
    requires Ok(cfg, m) && m.clock <= c.at <= c.spawnAt && stillPending <= m.pending
    requires Recent(cfg, m.log, rid, m.clock) + (if rid in stillPending then 1 else 0) <= cfg.AttemptLimit()
    ensures var (m', r) := HandleStep(cfg, m, rid, c);
            && Ok(cfg, if r == Launched then m'.(pending := stillPending) else m')
            && r == (if Full(cfg, |m.inflight - c.exited|, m.log, c.at) then WasFull
                     else if c.status == 200 then Launched else Rejected)
            && m'.log == (if r == Launched then m.log + [Spawn(rid, c.spawnAt)] else m.log)
            && m'.inflight == m.inflight - c.exited + (if r == Launched then {rid} else {})
            && m'.pending == m.pending && m'.clock == (if r == Launched then c.spawnAt else c.at)
            && (r != Launched ==> Recent(cfg, m.log, rid, c.at) <= Recent(cfg, m.log, rid, m.clock))
  {
    CapacityOk(cfg, m, c.exited, c.at);
    var (m1, full) := CapacityStep(cfg, m, c.exited, c.at);
    if !full && c.status == 200 {
      LaunchOk(cfg, m1, rid, c.spawnAt, stillPending);
      assert m1.inflight + {rid} == m.inflight - c.exited + {rid};
    }
  }

  /** A review below its limit can be added to the pending set. */
  lemma DeferOk(cfg: Config, m: Memory, rid: Rid)
    requires Ok(cfg, m) && Recent(cfg, m.log, rid, m.clock) <= cfg.AttemptLimit()
    ensures Ok(cfg, m.(pending := m.pending + {rid}))
  {
    forall other
      ensures ReviewOk(cfg, m.(pending := m.pending + {rid}), other)
    {
      assert ReviewOk(cfg, m, other);
    }
  }

  /** A processed row keeps the invariant, and its outcome is the one read off the full history. */
  lemma RowOk(cfg: Config, m: Memory, rid: Rid, g: RowInputs)
    requires Ok(cfg, m) && InOrder(m.clock, g)
    ensures var (m', o) := RowStep(cfg, m, rid, g);
            && Ok(cfg, m') && m.clock <= m'.clock <= g.checkAt
            && o == RowOutcome(cfg, m.inflight, m.log, rid, g)
            && m'.log == (if o == Claimed then m.log + [Spawn(rid, g.claim.spawnAt)] else m.log)
            && m'.pending == (if o == Deferred then m.pending + {rid} else m.pending)
  {
    if rid != "" && g.armed {
      GateOk(cfg, m, rid, g.gateAt);
      var (m1, capped) := GateStep(cfg, m, rid, g.gateAt);
      if !capped {
        ClaimedRowOk(cfg, m1, rid, g);
      }
    }
  }

  /** What is left of a row's processing once the gates have let it through. */
  lemma ClaimedRowOk(cfg: Config, m: Memory, rid: Rid, g: RowInputs)
    requires Ok(cfg, m) && InOrder(m.clock, g) && m.clock == g.gateAt && !Spent(cfg, m.log, rid, m.clock)
    ensures var (m2, r) := HandleStep(cfg, m, rid, g.claim);
            var (m3, full) := CapacityStep(cfg, m2, g.exitedAgain, g.checkAt);
            && r == (if Full(cfg, |m.inflight - g.claim.exited|, m.log, g.claim.at) then WasFull
                     else if g.claim.status == 200 then Launched else Rejected)
            && (r == Launched ==> Ok(cfg, m2) && m2.log == m.log + [Spawn(rid, g.claim.spawnAt)]
                                  && m2.pending == m.pending && m2.clock == g.claim.spawnAt)
            && (r != Launched ==>
                  && (full <==> Full(cfg, |m.inflight - g.claim.exited - g.exitedAgain|, m.log, g.checkAt))
                  && Ok(cfg, m3) && Ok(cfg, m3.(pending := m3.pending + {rid}))
                  && m3.log == m.log && m3.pending == m.pending && m3.clock == g.checkAt)
  {
    HandleOk(cfg, m, rid, g.claim, m.pending);
    var (m2, r) := HandleStep(cfg, m, rid, g.claim);
    if r != Launched {
      assert m2.inflight == m.inflight - g.claim.exited;
      CapacityOk(cfg, m2, g.exitedAgain, g.checkAt);
      DeferOk(cfg, CapacityStep(cfg, m2, g.exitedAgain, g.checkAt).0, rid);
    }
  }

  /** Draining keeps the invariant although it skips the gate. */
  lemma DrainOk(cfg: Config, m: Memory, rid: Rid, exited: set<Rid>, t: real, c: Claim)
    requires Ok(cfg, m) && rid in m.pending && m.clock <= t <= c.at <= c.spawnAt
    ensures var (m', full) := DrainStep(cfg, m, rid, exited, t, c);
            Ok(cfg, m') && m.clock <= m'.clock <= c.spawnAt && m'.pending <= m.pending
  {
    CapacityOk(cfg, m, exited, t);
    var (m1, full) := CapacityStep(cfg, m, exited, t);
    if !full {
      assert ReviewOk(cfg, m1, rid);
      HandleOk(cfg, m1, rid, c, m1.pending - {rid});
    }
  }

  // ----------------------------------------------------------------------------------------------
  // The caps over whole runs
  // ----------------------------------------------------------------------------------------------

  /** One thing the loop does: ask for capacity (or just reap), process a row, or drain one review. */
  datatype Event =
    | Collect(exited: set<Rid>)
    | Tick(exited: set<Rid>, at: real)
    | Deliver(rid: Rid, row: RowInputs)
    | Drain(rid: Rid, exited: set<Rid>, at: real, claim: Claim)

  /** The event's clock readings do not go back, and only pending reviews are drained. */
  predicate Possible(m: Memory, e: Event) {
    match e
    case Collect(_) => true
    case Tick(_, t) => m.clock <= t
    case Deliver(_, g) => InOrder(m.clock, g)
    case Drain(rid, _, t, c) => rid in m.pending && m.clock <= t <= c.at <= c.spawnAt
  }

  function EventStep(cfg: Config, m: Memory, e: Event): Memory {
    match e
    case Collect(exited) => m.(inflight := m.inflight - exited)
    case Tick(exited, t) => CapacityStep(cfg, m, exited, t).0
    case Deliver(rid, g) => RowStep(cfg, m, rid, g).0
    case Drain(rid, exited, t, c) => DrainStep(cfg, m, rid, exited, t, c).0
  }

  function MemoryAfter(cfg: Config, now: real, events: seq<Event>): Memory {
    if events == [] then Start(now) else EventStep(cfg, MemoryAfter(cfg, now, events[..|events| - 1]), events[|events| - 1])
  }

  predicate PossibleRun(cfg: Config, now: real, events: seq<Event>) {
    events != [] ==>
      && PossibleRun(cfg, now, events[..|events| - 1])
      && Possible(MemoryAfter(cfg, now, events[..|events| - 1]), events[|events| - 1])
  }

  lemma {:induction false} OkAlways(cfg: Config, now: real, events: seq<Event>)
    requires PossibleRun(cfg, now, events)
    ensures Ok(cfg, MemoryAfter(cfg, now, events))
  {
    if events != [] {
      var before := events[..|events| - 1];
      OkAlways(cfg, now, before);
      OkStep(cfg, MemoryAfter(cfg, now, before), events[|events| - 1]);
    }
  }

  lemma OkStep(cfg: Config, m: Memory, e: Event)
    requires Ok(cfg, m) && Possible(m, e)
    ensures Ok(cfg, EventStep(cfg, m, e))
  {
    match e
    case Collect(exited) => ReapOk(cfg, m, exited);
    case Tick(exited, t) => CapacityOk(cfg, m, exited, t);
    case Deliver(rid, g) => RowOk(cfg, m, rid, g);
    case Drain(rid, exited, t, c) => DrainOk(cfg, m, rid, exited, t, c);
  }

  /** Over every run and every closed window: at most maxLaunches spawns in any launch window, at most
      one more than its limit for any review in any attempt window, and never more than maxConcurrent
      tracked children; and each deque still answers for the full history. */
  lemma CapsHoldOnEveryRun(cfg: Config, now: real, events: seq<Event>)
    requires PossibleRun(cfg, now, events)
    ensures var m := MemoryAfter(cfg, now, events);
            && Ok(cfg, m)
            && (forall x :: InWindow(Times(m.log), x, cfg.launchWindow) <= Max(cfg.maxLaunches, 0))
            && (forall rid, x :: InWindow(TimesOf(m.log, rid), x, cfg.attemptWindow) <= cfg.AttemptLimit() + 1)
            && |m.inflight| <= Max(cfg.maxConcurrent, 0)
  {
    OkAlways(cfg, now, events);
    var m := MemoryAfter(cfg, now, events);
    forall rid, x
      ensures InWindow(TimesOf(m.log, rid), x, cfg.attemptWindow) <= cfg.AttemptLimit() + 1
    {
      assert ReviewOk(cfg, m, rid);
    }
  }

  /** The spawns of a review in a window, by their place in the log. */
  function SpawnsWithin(log: seq<Spawn>, rid: Rid, x: real, w: real): set<int> {
    set k | 0 <= k < |log| && log[k].rid == rid && x <= log[k].at <= x + w
  }

  function AllSpawnsWithin(log: seq<Spawn>, x: real, w: real): set<int> {
    set k | 0 <= k < |log| && x <= log[k].at <= x + w
  }

  lemma InWindowMore(ts: seq<real>, t: real, x: real, w: real)
    ensures InWindow(ts + [t], x, w) == InWindow(ts, x, w) + (if x <= t <= x + w then 1 else 0)
  {
    assert (ts + [t])[..|ts|] == ts;
  }

  lemma SpawnsWithinMore(log: seq<Spawn>, rid: Rid, x: real, w: real)
    requires log != []
    ensures var n := |log| - 1;
            SpawnsWithin(log, rid, x, w)
            == SpawnsWithin(log[..n], rid, x, w) + (if log[n].rid == rid && x <= log[n].at <= x + w then {n} else {})
  {
  }

  lemma {:induction false} SpawnsAreCounted(log: seq<Spawn>, rid: Rid, x: real, w: real)
    ensures InWindow(TimesOf(log, rid), x, w) == |SpawnsWithin(log, rid, x, w)|
  {
    if log != [] {
      var n := |log| - 1;
      SpawnsAreCounted(log[..n], rid, x, w);
      SpawnsWithinMore(log, rid, x, w);
      if log[n].rid == rid {
        InWindowMore(TimesOf(log[..n], rid), log[n].at, x, w);
      } else {
        assert TimesOf(log, rid) == TimesOf(log[..n], rid);
      }
    }
  }

  lemma {:induction false} AllSpawnsAreCounted(log: seq<Spawn>, x: real, w: real)
    ensures InWindow(Times(log), x, w) == |AllSpawnsWithin(log, x, w)|
  {
    if log != [] {
      var n := |log| - 1;
      AllSpawnsAreCounted(log[..n], x, w);
      InWindowMore(Times(log[..n]), log[n].at, x, w);
      assert AllSpawnsWithin(log, x, w) == AllSpawnsWithin(log[..n], x, w) + (if x <= log[n].at <= x + w then {n} else {});
    }
  }

  /** So, in plain numbers, over every run and for any window, wherever it starts. */
  lemma NoWindowHoldsMore(cfg: Config, now: real, events: seq<Event>, rid: Rid, x: real)
    requires PossibleRun(cfg, now, events)
    ensures var log := MemoryAfter(cfg, now, events).log;
            && |AllSpawnsWithin(log, x, cfg.launchWindow)| <= Max(cfg.maxLaunches, 0)
            && |SpawnsWithin(log, rid, x, cfg.attemptWindow)| <= Max(cfg.maxAttempts, 1) + 1
  {
    CapsHoldOnEveryRun(cfg, now, events);
    var log := MemoryAfter(cfg, now, events).log;
    SpawnsAreCounted(log, rid, x, cfg.attemptWindow);
    AllSpawnsAreCounted(log, x, cfg.launchWindow);
  }

  /** The event spawned a child, recorded at t; if it delivered a row, the gate had just let it through. */
  predicate SpawnedBy(cfg: Config, m: Memory, e: Event, t: real)
    requires e.Deliver? || e.Drain?
  {
    && EventStep(cfg, m, e).log == m.log + [Spawn(e.rid, t)]
    && (e.Deliver? ==> t == e.row.claim.spawnAt && !Spent(cfg, m.log, e.rid, e.row.gateAt))
    && (e.Drain? ==> t == e.claim.spawnAt)
  }

  /** An event spawns at most one child; a delivered row only after its gate found the review below its limit. */
  lemma EventLog(cfg: Config, m: Memory, e: Event)
    requires Ok(cfg, m) && Possible(m, e)
    ensures EventStep(cfg, m, e).log == m.log
            || ((e.Deliver? || e.Drain?) && exists t :: SpawnedBy(cfg, m, e, t))
  {
    match e
    case Collect(exited) =>
    case Tick(exited, t) =>
    case Deliver(rid, g) => DeliverLog(cfg, m, rid, g);
    case Drain(rid, exited, t, c) => DrainLog(cfg, m, rid, exited, t, c);
  }

  lemma DeliverLog(cfg: Config, m: Memory, rid: Rid, g: RowInputs)
    requires Ok(cfg, m) && InOrder(m.clock, g)
    ensures EventStep(cfg, m, Deliver(rid, g)).log == m.log || SpawnedBy(cfg, m, Deliver(rid, g), g.claim.spawnAt)
  {
    RowOk(cfg, m, rid, g);
    OutcomeMeans(cfg, m.inflight, m.log, rid, g);
  }

  lemma DrainLog(cfg: Config, m: Memory, rid: Rid, exited: set<Rid>, t: real, c: Claim)
    ensures var e := Drain(rid, exited, t, c);
            EventStep(cfg, m, e).log == m.log || SpawnedBy(cfg, m, e, c.spawnAt)
  {
  }

  /** What each outcome says about the gate, the two capacity checks and the server's answer. */
  lemma OutcomeMeans(cfg: Config, inflight: set<Rid>, log: seq<Spawn>, rid: Rid, g: RowInputs)
    ensures var o := RowOutcome(cfg, inflight, log, rid, g);
            && (o in {Claimed, Deferred, Dropped, Refused} <==> rid != "" && g.armed && !Spent(cfg, log, rid, g.gateAt))
            && (o == Claimed ==> g.claim.status == 200)
            && (o == Refused ==> g.claim.status != 200)
            && (o == Dropped ==> SlotFreed(cfg, inflight, log, g))
            && (o == Dropped <==>
                  && rid != "" && g.armed && !Spent(cfg, log, rid, g.gateAt)
                  && Full(cfg, |inflight - g.claim.exited|, log, g.claim.at)
                  && !Full(cfg, |inflight - g.claim.exited - g.exitedAgain|, log, g.checkAt))
  {
  }

  /** No recorded launch is later than the clock. */
  predicate LogPast(m: Memory) {
    forall k :: 0 <= k < |m.log| ==> m.log[k].at <= m.clock
  }

  lemma StepPast(cfg: Config, m: Memory, e: Event)
    requires LogPast(m) && Possible(m, e)
    ensures LogPast(EventStep(cfg, m, e)) && m.clock <= EventStep(cfg, m, e).clock
  {
    match e
    case Collect(exited) =>
    case Tick(exited, t) =>
    case Deliver(rid, g) => RowPast(cfg, m, rid, g);
    case Drain(rid, exited, t, c) => HandlePast(cfg, CapacityStep(cfg, m, exited, t).0, rid, c);
  }

  lemma HandlePast(cfg: Config, m: Memory, rid: Rid, c: Claim)
    requires LogPast(m) && m.clock <= c.at <= c.spawnAt
    ensures LogPast(HandleStep(cfg, m, rid, c).0) && m.clock <= HandleStep(cfg, m, rid, c).0.clock <= c.spawnAt
  {
  }

  lemma RowPast(cfg: Config, m: Memory, rid: Rid, g: RowInputs)
    requires LogPast(m) && InOrder(m.clock, g)
    ensures LogPast(RowStep(cfg, m, rid, g).0) && m.clock <= RowStep(cfg, m, rid, g).0.clock
  {
    HandlePast(cfg, GateStep(cfg, m, rid, g.gateAt).0, rid, g.claim);
  }

  lemma {:induction false} LogPastAlways(cfg: Config, now: real, events: seq<Event>)
    requires PossibleRun(cfg, now, events)
    ensures LogPast(MemoryAfter(cfg, now, events))
  {
    if events != [] {
      LogPastAlways(cfg, now, events[..|events| - 1]);
      StepPast(cfg, MemoryAfter(cfg, now, events[..|events| - 1]), events[|events| - 1]);
    }
  }

  lemma {:induction false} TimesOfPast(log: seq<Spawn>, rid: Rid, t: real)
    requires forall k :: 0 <= k < |log| ==> log[k].at <= t
    ensures forall k :: 0 <= k < |TimesOf(log, rid)| ==> TimesOf(log, rid)[k] <= t
  {
    if log != [] {
      TimesOfPast(log[..|log| - 1], rid, t);
    }
  }

  /** The attempts in the window of a review have reached its limit. */
  lemma SpentIs(cfg: Config, log: seq<Spawn>, rid: Rid, t: real)
    ensures Spent(cfg, log, rid, t) <==> Recent(cfg, log, rid, t) >= cfg.AttemptLimit()
  {
  }

  /** If the event drained rid and spawned it, the gate would have let it through when the spawn was recorded. */
  predicate DrainInLimit(cfg: Config, m: Memory, e: Event, rid: Rid) {
    e.Drain? && e.rid == rid && EventStep(cfg, m, e).log != m.log ==> !Spent(cfg, m.log, rid, e.claim.spawnAt)
  }

  predicate EveryDrainInLimit(cfg: Config, now: real, events: seq<Event>, rid: Rid) {
    events != [] ==>
      && EveryDrainInLimit(cfg, now, events[..|events| - 1], rid)
      && DrainInLimit(cfg, MemoryAfter(cfg, now, events[..|events| - 1]), events[|events| - 1], rid)
  }

  /** The review never had more than its limit of spawns in any closed window. */
  ghost predicate WithinLimit(cfg: Config, m: Memory, rid: Rid) {
    Capped(TimesOf(m.log, rid), cfg.attemptWindow, cfg.AttemptLimit())
  }

  lemma LimitStep(cfg: Config, m: Memory, e: Event, rid: Rid)
    requires Ok(cfg, m) && LogPast(m) && Possible(m, e)
    ensures WithinLimit(cfg, EventStep(cfg, m, e), rid) <==> WithinLimit(cfg, m, rid) && DrainInLimit(cfg, m, e, rid)
  {
    EventLog(cfg, m, e);
    StepPast(cfg, m, e);
    if EventStep(cfg, m, e).log != m.log {
      var t :| SpawnedBy(cfg, m, e, t);
      LogGrows(m.log, e.rid, t);
      assert EventStep(cfg, m, e).log[|m.log|].at == t;
      if e.rid == rid {
        SpawnInLimit(cfg, m, rid, t);
        if e.Deliver? {
          GateHolds(cfg, m.log, rid, e.row.gateAt, t);
        }
      }
    }
  }

  lemma SpawnInLimit(cfg: Config, m: Memory, rid: Rid, t: real)
    requires LogPast(m) && m.clock <= t
    ensures Capped(TimesOf(m.log, rid) + [t], cfg.attemptWindow, cfg.AttemptLimit())
            <==> WithinLimit(cfg, m, rid) && !Spent(cfg, m.log, rid, t)
  {
    TimesOfPast(m.log, rid, t);
    RecordKeepsCapIff(TimesOf(m.log, rid), cfg.attemptWindow, cfg.AttemptLimit(), t);
    SpentIs(cfg, m.log, rid, t);
  }

  /** A review that is not spent does not become so by waiting. */
  lemma GateHolds(cfg: Config, log: seq<Spawn>, rid: Rid, gateAt: real, t: real)
    requires gateAt <= t && !Spent(cfg, log, rid, gateAt)
    ensures !Spent(cfg, log, rid, t)
  {
    SpentIs(cfg, log, rid, gateAt);
    SpentIs(cfg, log, rid, t);
    SinceShrinks(TimesOf(log, rid), gateAt - cfg.attemptWindow, t - cfg.attemptWindow);
  }

  /** The exact condition of the per-review limit, over every run and every closed window: it is kept if
      and only if each drain that spawned the review did so while the gate the drain skips would have
      let it through. */
  lemma {:induction false} LimitKeptIff(cfg: Config, now: real, events: seq<Event>, rid: Rid)
    requires PossibleRun(cfg, now, events)
    ensures WithinLimit(cfg, MemoryAfter(cfg, now, events), rid) <==> EveryDrainInLimit(cfg, now, events, rid)
  {
    if events == [] {
      assert TimesOf(Start(now).log, rid) == [];
    } else {
      var before := events[..|events| - 1];
      LimitKeptIff(cfg, now, before, rid);
      OkAlways(cfg, now, before);
      LogPastAlways(cfg, now, before);
      LimitStep(cfg, MemoryAfter(cfg, now, before), events[|events| - 1], rid);
    }
  }

  lemma {:induction false} NoDrainInLimit(cfg: Config, now: real, events: seq<Event>, rid: Rid)
    requires forall e :: e in events ==> !(e.Drain? && e.rid == rid)
    ensures EveryDrainInLimit(cfg, now, events, rid)
  {
    if events != [] {
      NoDrainInLimit(cfg, now, events[..|events| - 1], rid);
    }
  }

  /** In particular the gate alone keeps the limit: without any drain of the review it is never exceeded. */
  lemma GateAloneKeepsTheLimit(cfg: Config, now: real, events: seq<Event>, rid: Rid, x: real)
    requires PossibleRun(cfg, now, events) && forall e :: e in events ==> !(e.Drain? && e.rid == rid)
    ensures InWindow(TimesOf(MemoryAfter(cfg, now, events).log, rid), x, cfg.attemptWindow) <= cfg.AttemptLimit()
  {
    NoDrainInLimit(cfg, now, events, rid);
    LimitKeptIff(cfg, now, events, rid);
    assert WithinLimit(cfg, MemoryAfter(cfg, now, events), rid);
  }

  // ----------------------------------------------------------------------------------------------
  // Delivered rows
  // ----------------------------------------------------------------------------------------------

  lemma RowFacts(cfg: Config, m: Memory, rid: Rid, g: RowInputs)
    requires Ok(cfg, m) && InOrder(m.clock, g) && rid != "" && g.armed && !Spent(cfg, m.log, rid, g.gateAt)
    ensures var (m', o) := RowStep(cfg, m, rid, g);
            && (!SlotFreed(cfg, m.inflight, m.log, g) ==>
                  || (o == Claimed && g.claim.status == 200 && m'.log == m.log + [Spawn(rid, g.claim.spawnAt)])
                  || (o == Refused && g.claim.status != 200)
                  || (o == Deferred && rid in m'.pending))
            && (o == Dropped <==>
                  && Full(cfg, |m.inflight - g.claim.exited|, m.log, g.claim.at)
                  && !Full(cfg, |m.inflight - g.claim.exited - g.exitedAgain|, m.log, g.checkAt))
            && (o == Dropped ==> m'.log == m.log && m'.pending == m.pending)
  {
    RowOk(cfg, m, rid, g);
    OutcomeMeans(cfg, m.inflight, m.log, rid, g);
  }

  /** Every row delivered in a reachable state that is named, armed and not spent ends claimed (and
      spawned), refused by the server, or in `pending`, unless a slot frees between the two capacity
      checks.  It is dropped if and only if the first check finds the watcher full, by the full history
      and the children not yet exited, and the second does not; and then nothing remembers it. */
  lemma RowsAreNotLost(cfg: Config, now: real, events: seq<Event>, rid: Rid, g: RowInputs)
    requires PossibleRun(cfg, now, events) && InOrder(MemoryAfter(cfg, now, events).clock, g)
    requires rid != "" && g.armed && !Spent(cfg, MemoryAfter(cfg, now, events).log, rid, g.gateAt)
    ensures var m := MemoryAfter(cfg, now, events);
            var (m', o) := RowStep(cfg, m, rid, g);
            && m' == MemoryAfter(cfg, now, events + [Deliver(rid, g)])
            && (!SlotFreed(cfg, m.inflight, m.log, g) ==>
                  || (o == Claimed && g.claim.status == 200 && m'.log == m.log + [Spawn(rid, g.claim.spawnAt)])
                  || (o == Refused && g.claim.status != 200)
                  || (o == Deferred && rid in m'.pending))
            && (o == Dropped <==>
                  && Full(cfg, |m.inflight - g.claim.exited|, m.log, g.claim.at)
                  && !Full(cfg, |m.inflight - g.claim.exited - g.exitedAgain|, m.log, g.checkAt))
            && (o == Dropped ==> m'.log == m.log && m'.pending == m.pending)
  {
    OkAlways(cfg, now, events);
    RowFacts(cfg, MemoryAfter(cfg, now, events), rid, g);
    assert (events + [Deliver(rid, g)])[..|events|] == events;
  }

  /** And the server does not bring it back.  When the answer `l` has in flight lists a review that still
      stands, and the row is dropped, then however the run goes on, until the review's turn moves again
      no scan finds it and no answer lists it. */
  lemma DroppedUntilFlipped(cfg: Config, now: real, events: seq<Event>, row: Row, g: RowInputs,
                            l: LongPoll.Link, more: seq<LongPoll.Event>, ttl: real)
    requires PossibleRun(cfg, now, events) && InOrder(MemoryAfter(cfg, now, events).clock, g)
    requires row.rid !in MemoryAfter(cfg, now, events).pending
    requires RowStep(cfg, MemoryAfter(cfg, now, events), row.rid, g).1 == Dropped
    requires l.answer.Some? && row in l.answer.value && LongPoll.StampOf(l, row.rid) == row.turnUpdated
    requires var start := LongPoll.Next(l, LongPoll.Receive, ttl);
             LongPoll.Play(start, more, ttl).Some? && LongPoll.Unmoved(start, more, ttl, row.rid)
    ensures var m' := MemoryAfter(cfg, now, events + [Deliver(row.rid, g)]);
            row.rid !in m'.pending && m'.log == MemoryAfter(cfg, now, events).log
    ensures var l' := LongPoll.Play(LongPoll.Next(l, LongPoll.Receive, ttl), more, ttl).value;
            !LongPoll.Mentions(LongPoll.Rows(l'), row.rid) && !LongPoll.Mentions(LongPoll.InFlight(l'), row.rid)
  {
    var m := MemoryAfter(cfg, now, events);
    OkAlways(cfg, now, events);
    RowOk(cfg, m, row.rid, g);
    assert (events + [Deliver(row.rid, g)])[..|events|] == events;
    NewestStampIsMax(l.cursor, l.answer.value);
    LongPoll.SilentUntilMoved(LongPoll.Next(l, LongPoll.Receive, ttl), more, ttl, row.rid);
  }

  // ----------------------------------------------------------------------------------------------
  // Deferred reviews
  // ----------------------------------------------------------------------------------------------

  /** A try of a pending review spawns it: both capacity checks, by the full history and the children not
      yet exited, find room, and the server grants the claim. */
  predicate DrainSpawns(cfg: Config, m: Memory, e: Event) {
    && e.Drain? && e.rid in m.pending
    && !Full(cfg, |m.inflight - e.exited|, m.log, e.at)
    && !Full(cfg, |m.inflight - e.exited - e.claim.exited|, m.log, e.claim.at)
    && e.claim.status == 200
  }

  /** A delivered row is put off: its review may be spawned, but is not, and the watcher is full. */
  predicate Defers(cfg: Config, m: Memory, e: Event) {
    && e.Deliver? && e.rid != "" && e.row.armed && !Spent(cfg, m.log, e.rid, e.row.gateAt)
    && (e.row.claim.status != 200 || Full(cfg, |m.inflight - e.row.claim.exited|, m.log, e.row.claim.at))
    && Full(cfg, |m.inflight - e.row.claim.exited - e.row.exitedAgain|, m.log, e.row.checkAt)
  }

  /** What a try does.  A refused claim changes nothing that is remembered. */
  lemma DrainFacts(cfg: Config, m: Memory, e: Event)
    requires Ok(cfg, m) && Possible(m, e) && e.Drain?
    ensures var m' := EventStep(cfg, m, e);
            if DrainSpawns(cfg, m, e)
            then m'.log == m.log + [Spawn(e.rid, e.claim.spawnAt)] && m'.pending == m.pending - {e.rid}
                 && m'.inflight == m.inflight - e.exited - e.claim.exited + {e.rid}
            else m'.log == m.log && m'.pending == m.pending
    ensures DrainStep(cfg, m, e.rid, e.exited, e.at, e.claim).1 <==> Full(cfg, |m.inflight - e.exited|, m.log, e.at)
  {
    CapacityOk(cfg, m, e.exited, e.at);
    var (m1, full) := CapacityStep(cfg, m, e.exited, e.at);
    if !full {
      assert ReviewOk(cfg, m1, e.rid);
      HandleOk(cfg, m1, e.rid, e.claim, m1.pending - {e.rid});
    }
  }

  lemma DeferFacts(cfg: Config, m: Memory, e: Event)
    requires Ok(cfg, m) && Possible(m, e) && e.Deliver?
    ensures EventStep(cfg, m, e).pending == if Defers(cfg, m, e) then m.pending + {e.rid} else m.pending
  {
    var g := e.row;
    RowOk(cfg, m, e.rid, g);
    PutOffIff(cfg, m.inflight, m.log, e.rid, g);
  }

  lemma PutOffIff(cfg: Config, inflight: set<Rid>, log: seq<Spawn>, rid: Rid, g: RowInputs)
    ensures RowOutcome(cfg, inflight, log, rid, g) == Deferred <==>
              && rid != "" && g.armed && !Spent(cfg, log, rid, g.gateAt)
              && (g.claim.status != 200 || Full(cfg, |inflight - g.claim.exited|, log, g.claim.at))
              && Full(cfg, |inflight - g.claim.exited - g.exitedAgain|, log, g.checkAt)
  {
  }

  /** Every event, from every reachable state: a review enters `pending` only by being put off, and leaves
      it only by being spawned. */
  lemma PendingStep(cfg: Config, m: Memory, e: Event, rid: Rid)
    requires Ok(cfg, m) && Possible(m, e)
    ensures var m' := EventStep(cfg, m, e);
            && (rid in m.pending && rid !in m'.pending <==> DrainSpawns(cfg, m, e) && e.rid == rid)
            && (rid !in m.pending && rid in m'.pending <==> rid !in m.pending && Defers(cfg, m, e) && e.rid == rid)
            && (rid in m.pending && rid !in m'.pending ==> m'.log == m.log + [Spawn(rid, e.claim.spawnAt)])
            && (rid in m.pending && e.Drain? && e.rid == rid && m'.log != m.log ==> rid !in m'.pending)
  {
    match e
    case Collect(_) =>
    case Tick(exited, t) => CapacityOk(cfg, m, exited, t);
    case Deliver(_, _) => DeferFacts(cfg, m, e);
    case Drain(_, _, _, _) => DrainFacts(cfg, m, e);
  }

  /** The tracked children after an event: a spawn adds one, and each check that is made takes away those that
      have exited by then. */
  function TrackedAfter(cfg: Config, m: Memory, e: Event): set<Rid> {
    match e
    case Collect(exited) => m.inflight - exited
    case Tick(exited, _) => m.inflight - exited
    case Drain(rid, exited, t, c) =>
      if Full(cfg, |m.inflight - exited|, m.log, t) then m.inflight - exited
      else m.inflight - exited - c.exited + (if DrainSpawns(cfg, m, e) then {rid} else {})
    case Deliver(rid, g) =>
      if rid == "" || !g.armed || Spent(cfg, m.log, rid, g.gateAt) then m.inflight
      else if g.claim.status == 200 && !Full(cfg, |m.inflight - g.claim.exited|, m.log, g.claim.at) then m.inflight - g.claim.exited + {rid}
      else m.inflight - g.claim.exited - g.exitedAgain
  }

  lemma TrackedStep(cfg: Config, m: Memory, e: Event)
    requires Ok(cfg, m) && Possible(m, e)
    ensures EventStep(cfg, m, e).inflight == TrackedAfter(cfg, m, e)
  {
    match e
    case Collect(_) =>
    case Tick(exited, t) => CapacityOk(cfg, m, exited, t);
    case Drain(_, _, _, _) => TrackedDrain(cfg, m, e);
    case Deliver(_, _) => TrackedDeliver(cfg, m, e);
  }

  lemma TrackedDrain(cfg: Config, m: Memory, e: Event)
    requires Ok(cfg, m) && Possible(m, e) && e.Drain?
    ensures EventStep(cfg, m, e).inflight == TrackedAfter(cfg, m, e)
  {
    CapacityOk(cfg, m, e.exited, e.at);
    var (m1, full) := CapacityStep(cfg, m, e.exited, e.at);
    if !full {
      assert ReviewOk(cfg, m1, e.rid);
      HandleOk(cfg, m1, e.rid, e.claim, m1.pending - {e.rid});
    }
  }

  lemma TrackedDeliver(cfg: Config, m: Memory, e: Event)
    requires Ok(cfg, m) && Possible(m, e) && e.Deliver?
    ensures EventStep(cfg, m, e).inflight == TrackedAfter(cfg, m, e)
  {
    var g := e.row;
    if e.rid != "" && g.armed {
      GateOk(cfg, m, e.rid, g.gateAt);
      var (m1, capped) := GateStep(cfg, m, e.rid, g.gateAt);
      if !capped {
        TrackedClaim(cfg, m1, e.rid, g);
      }
    }
  }

  lemma TrackedClaim(cfg: Config, m: Memory, rid: Rid, g: RowInputs)
    requires Ok(cfg, m) && InOrder(m.clock, g) && m.clock == g.gateAt && !Spent(cfg, m.log, rid, m.clock)
    ensures var (m2, r) := HandleStep(cfg, m, rid, g.claim);
            && (r == Launched <==> g.claim.status == 200 && !Full(cfg, |m.inflight - g.claim.exited|, m.log, g.claim.at))
            && (if r == Launched then m2.inflight == m.inflight - g.claim.exited + {rid}
                else CapacityStep(cfg, m2, g.exitedAgain, g.checkAt).0.inflight == m.inflight - g.claim.exited - g.exitedAgain)
  {
    HandleOk(cfg, m, rid, g.claim, m.pending);
    var (m2, r) := HandleStep(cfg, m, rid, g.claim);
    if r != Launched {
      CapacityOk(cfg, m2, g.exitedAgain, g.checkAt);
    }
  }

  /** Event k of the run puts rid off, and no later one spawns it from `pending`. */
  ghost predicate Waiting(cfg: Config, now: real, events: seq<Event>, rid: Rid, k: nat) {
    && k < |events| && events[k].Deliver? && events[k].rid == rid && Defers(cfg, MemoryAfter(cfg, now, events[..k]), events[k])
    && forall n :: k < n < |events| ==> !(DrainSpawns(cfg, MemoryAfter(cfg, now, events[..n]), events[n]) && events[n].rid == rid)
  }

  ghost predicate PutOff(cfg: Config, now: real, events: seq<Event>, rid: Rid) {
    exists k: nat :: Waiting(cfg, now, events, rid, k)
  }

  /** Over every run: what is pending is exactly what was put off and has not been spawned by a try since.
      So however often its claim is refused or fails, a review that was put off is kept. */
  lemma {:induction false} PendingIff(cfg: Config, now: real, events: seq<Event>, rid: Rid)
    requires PossibleRun(cfg, now, events)
    ensures rid in MemoryAfter(cfg, now, events).pending <==> PutOff(cfg, now, events, rid)
  {
    if events != [] {
      var before := events[..|events| - 1];
      PendingIff(cfg, now, before, rid);
      OkAlways(cfg, now, before);
      PendingStep(cfg, MemoryAfter(cfg, now, before), events[|events| - 1], rid);
      PutOffStep(cfg, now, events, rid);
    }
  }

  lemma PutOffStep(cfg: Config, now: real, events: seq<Event>, rid: Rid)
    requires events != []
    ensures var m, last := MemoryAfter(cfg, now, events[..|events| - 1]), events[|events| - 1];
            PutOff(cfg, now, events, rid) <==>
              (Defers(cfg, m, last) && last.rid == rid)
              || (PutOff(cfg, now, events[..|events| - 1], rid) && !(DrainSpawns(cfg, m, last) && last.rid == rid))
  {
    var before, m, last := events[..|events| - 1], MemoryAfter(cfg, now, events[..|events| - 1]), events[|events| - 1];
    WaitingNow(cfg, now, events, rid);
    if PutOff(cfg, now, before, rid) && !(DrainSpawns(cfg, m, last) && last.rid == rid) {
      var k: nat :| Waiting(cfg, now, before, rid, k);
      WaitingLonger(cfg, now, events, rid, k);
    }
    if PutOff(cfg, now, events, rid) && !(Defers(cfg, m, last) && last.rid == rid) {
      WaitingSince(cfg, now, events, rid);
    }
  }

  lemma WaitingNow(cfg: Config, now: real, events: seq<Event>, rid: Rid)
    requires events != []
    ensures var m, last := MemoryAfter(cfg, now, events[..|events| - 1]), events[|events| - 1];
            Waiting(cfg, now, events, rid, |events| - 1) <==> Defers(cfg, m, last) && last.rid == rid
  {
  }

  lemma WaitingSince(cfg: Config, now: real, events: seq<Event>, rid: Rid)
    requires PutOff(cfg, now, events, rid)
    ensures var m, last := MemoryAfter(cfg, now, events[..|events| - 1]), events[|events| - 1];
            (Defers(cfg, m, last) && last.rid == rid)
            || (PutOff(cfg, now, events[..|events| - 1], rid) && !(DrainSpawns(cfg, m, last) && last.rid == rid))
  {
    var k: nat :| Waiting(cfg, now, events, rid, k);
    if k == |events| - 1 {
      WaitingNow(cfg, now, events, rid);
    } else {
      WaitingLonger(cfg, now, events, rid, k);
    }
  }

  lemma WaitingLonger(cfg: Config, now: real, events: seq<Event>, rid: Rid, k: nat)
    requires k < |events| - 1
    ensures var before, last := events[..|events| - 1], events[|events| - 1];
            Waiting(cfg, now, events, rid, k) <==>
            Waiting(cfg, now, before, rid, k) && !(DrainSpawns(cfg, MemoryAfter(cfg, now, before), last) && last.rid == rid)
  {
    var before := events[..|events| - 1];
    assert forall n :: 0 <= n <= |before| ==> before[..n] == events[..n];
    assert forall n :: 0 <= n < |before| ==> before[n] == events[n];
  }

  lemma LogOnlyGrows(cfg: Config, m: Memory, e: Event)
    requires Ok(cfg, m) && Possible(m, e)
    ensures m.log <= EventStep(cfg, m, e).log
  {
    EventLog(cfg, m, e);
  }

  /** A pending review stays so or is spawned. */
  lemma {:induction false} DeferredIsKept(cfg: Config, now: real, events: seq<Event>, j: nat, rid: Rid)
    requires PossibleRun(cfg, now, events) && j <= |events| && rid in MemoryAfter(cfg, now, events[..j]).pending
    ensures var m0, m := MemoryAfter(cfg, now, events[..j]), MemoryAfter(cfg, now, events);
            m0.log <= m.log && (rid in m.pending || exists k :: |m0.log| <= k < |m.log| && m.log[k].rid == rid)
    decreases |events|
  {
    if j == |events| {
      assert events[..j] == events;
    } else {
      var before, e := events[..|events| - 1], events[|events| - 1];
      assert before[..j] == events[..j];
      DeferredIsKept(cfg, now, before, j, rid);
      OkAlways(cfg, now, before);
      var m := MemoryAfter(cfg, now, before);
      PendingStep(cfg, m, e, rid);
      LogOnlyGrows(cfg, m, e);
      if rid in m.pending && rid !in EventStep(cfg, m, e).pending {
        assert EventStep(cfg, m, e).log[|m.log|].rid == rid;
      }
    }
  }

  // ----------------------------------------------------------------------------------------------
  // Witnesses
  // ----------------------------------------------------------------------------------------------

  /** Everything happens at time 0 and every claim is granted. */
  function Granted(exited: set<Rid>): Claim {
    Claim(exited, 0.0, 200, 0.0)
  }

  function AtOnce(exited: set<Rid>): RowInputs {
    RowInputs(true, 0.0, Granted(exited), {}, 0.0)
  }

  lemma RunNext(cfg: Config, now: real, events: seq<Event>, e: Event)
    requires PossibleRun(cfg, now, events) && Possible(MemoryAfter(cfg, now, events), e)
    ensures PossibleRun(cfg, now, events + [e]) && MemoryAfter(cfg, now, events + [e]) == EventStep(cfg, MemoryAfter(cfg, now, events), e)
  {
    assert (events + [e])[..|events|] == events;
  }

  lemma NextEvent(cfg: Config, events: seq<Event>, e: Event) returns (all: seq<Event>)
    requires PossibleRun(cfg, 0.0, events) && Possible(MemoryAfter(cfg, 0.0, events), e)
    ensures PossibleRun(cfg, 0.0, all) && MemoryAfter(cfg, 0.0, all) == EventStep(cfg, MemoryAfter(cfg, 0.0, events), e)
  {
    RunNext(cfg, 0.0, events, e);
    all := events + [e];
  }

  lemma CapacityAtOnce(cfg: Config, m: Memory, exited: set<Rid>)
    requires cfg == Config(1, 30, 3600.0, 1, 3600.0) && |m.launches| < 30 && m.clock == 0.0
    requires m.launches != [] ==> m.launches[0] == 0.0
    ensures CapacityStep(cfg, m, exited, 0.0) == (m.(inflight := m.inflight - exited), |m.inflight - exited| >= 1)
  {
  }

  const TIGHT := Config(1, 30, 3600.0, 1, 3600.0)

  /** A row that finds a free slot is claimed; one that does not is deferred. */
  lemma RowAtOnce(m: Memory, rid: Rid, exited: set<Rid>)
    requires |m.launches| < 30 && m.clock == 0.0 && (m.launches != [] ==> m.launches[0] == 0.0)
    requires rid !in m.attempts && rid != ""
    ensures RowStep(TIGHT, m, rid, AtOnce(exited)).0
            == if |m.inflight - exited| >= 1
               then m.(inflight := m.inflight - exited, pending := m.pending + {rid})
               else LaunchStep(m.(inflight := m.inflight - exited), rid, 0.0)
  {
    CapacityAtOnce(TIGHT, m, exited);
    var left := m.(inflight := m.inflight - exited);
    CapacityAtOnce(TIGHT, left, {});
    assert left.inflight - {} == left.inflight;
  }

  lemma DrainAtOnce(m: Memory, rid: Rid, exited: set<Rid>)
    requires |m.launches| < 30 && m.clock == 0.0 && (m.launches != [] ==> m.launches[0] == 0.0)
    requires m.inflight - exited == {}
    ensures DrainStep(TIGHT, m, rid, exited, 0.0, Granted({})).0.log == m.log + [Spawn(rid, 0.0)]
  {
    CapacityAtOnce(TIGHT, m, exited);
    var left := m.(inflight := m.inflight - exited);
    CapacityAtOnce(TIGHT, left, {});
    assert left.inflight - {} == {};
  }

  /** "q" takes the only slot, and "r", past its gate, has to wait. */
  lemma OneWaits() returns (e: seq<Event>)
    ensures PossibleRun(TIGHT, 0.0, e)
    ensures var m := MemoryAfter(TIGHT, 0.0, e);
            && m.clock == 0.0 && m.inflight == {"q"} && m.launches == [0.0] && m.pending == {"r"}
            && "r" !in m.attempts && TimesOf(m.log, "r") == []
  {
    RowAtOnce(Start(0.0), "q", {});
    e := NextEvent(TIGHT, [], Deliver("q", AtOnce({})));
    LogGrows([], "q", 0.0);
    var m := MemoryAfter(TIGHT, 0.0, e);
    assert m.inflight == {"q"} && |m.inflight - {}| == 1;
    RowAtOnce(m, "r", {});
    e := NextEvent(TIGHT, e, Deliver("r", AtOnce({})));
  }

  /** A reachable dropped row: "q" has the only slot when "r" is checked, and has exited when it is checked again. */
  lemma RowDroppedWitness()
    ensures exists events, g :: PossibleRun(TIGHT, 0.0, events) && InOrder(MemoryAfter(TIGHT, 0.0, events).clock, g)
              && RowStep(TIGHT, MemoryAfter(TIGHT, 0.0, events), "r", g).1 == Dropped
  {
    RowAtOnce(Start(0.0), "q", {});
    var e := NextEvent(TIGHT, [], Deliver("q", AtOnce({})));
    var m := MemoryAfter(TIGHT, 0.0, e);
    assert m.inflight == {"q"};
    var g := RowInputs(true, 0.0, Granted({}), {"q"}, 0.0);
    CapacityAtOnce(TIGHT, m, {});
    var left := m.(inflight := m.inflight - {});
    assert left.inflight == {"q"} && |left.inflight| == 1 && left.inflight - {"q"} == {};
    CapacityAtOnce(TIGHT, left, {"q"});
    assert RowStep(TIGHT, m, "r", g).1 == Dropped;
  }

  /** "q" exits and "r", flipped again, is spawned directly; it is still pending. */
  lemma ThenSpawned() returns (e: seq<Event>)
    ensures PossibleRun(TIGHT, 0.0, e)
    ensures var m := MemoryAfter(TIGHT, 0.0, e);
            && m.clock == 0.0 && m.inflight == {"r"} && m.launches == [0.0, 0.0] && m.pending == {"r"}
            && TimesOf(m.log, "r") == [0.0]
  {
    e := OneWaits();
    var m := MemoryAfter(TIGHT, 0.0, e);
    assert m.inflight - {"q"} == {};
    RowAtOnce(m, "r", {"q"});
    LogGrows(m.log, "r", 0.0);
    e := NextEvent(TIGHT, e, Deliver("r", AtOnce({"q"})));
  }

  /** The extra one is real: drained, a review with a cap of 1 is spawned again at the same instant. */
  lemma CapPlusOneIsReached()
    ensures exists events :: PossibleRun(TIGHT, 0.0, events)
              && InWindow(TimesOf(MemoryAfter(TIGHT, 0.0, events).log, "r"), 0.0, TIGHT.attemptWindow) == TIGHT.maxAttempts + 1
  {
    var e := ThenSpawned();
    var m := MemoryAfter(TIGHT, 0.0, e);
    DrainAtOnce(m, "r", {"r"});
    LogGrows(m.log, "r", 0.0);
    e := NextEvent(TIGHT, e, Drain("r", {"r"}, 0.0, Granted({})));
    BothInWindow([0.0] + [0.0]);
  }

  lemma BothInWindow(ts: seq<real>)
    requires ts == [0.0, 0.0]
    ensures InWindow(ts, 0.0, 3600.0) == 2
  {
    assert InWindow(ts[..1], 0.0, 3600.0) == InWindow(ts[..1][..0], 0.0, 3600.0) + 1;
  }

  // ----------------------------------------------------------------------------------------------
  // The watcher process
  // ----------------------------------------------------------------------------------------------

  datatype Response = NetworkError | HttpError | Rows(rows: seq<Row>)

  /** The module state of spawn.py and the loop of loop.py, updated in place.  `log` and `history` are
      history variables: every spawn, and every step of the state machine above. */
  class Watcher {
    const cfg: Config
    ghost const started: real
    var clock: real
    var inflight: set<Rid>
    var launches: seq<real>
    var attempts: map<Rid, seq<real>>
    var pending: set<Rid>
    var cursor: real
    ghost var log: seq<Spawn>
    ghost var history: seq<Event>

    /** The fields are what the state machine makes of the steps taken so far. */
    ghost predicate Traced()
      reads this
    {
      PossibleRun(cfg, started, history) && Mem() == MemoryAfter(cfg, started, history)
    }

    ghost function Mem(): Memory
      reads this
    {
      Memory(clock, inflight, launches, attempts, pending, log)
    }

    /** seed_cursor: now, or 0 to take the backlog too. */
    constructor (cfg: Config, now: real, backlog: bool)
      ensures this.cfg == cfg && Traced() && history == [] && Mem() == Start(now)
      ensures cursor == if backlog then 0.0 else now
    {
      this.cfg, clock, started := cfg, now, now;
      cursor := if backlog then 0.0 else now;
      inflight, launches, attempts, pending, log, history := {}, [], map[], {}, [], [];
    }

    /** _reap: `exited` is the set of children whose poll() returns a code. */
    method Reap(exited: set<Rid>)
      modifies `inflight
      ensures inflight == old(inflight) - exited
    {
      ghost var all := inflight;
      var items := inflight;
      while items != {}
        invariant items <= all && inflight == all - (exited - items)
        decreases |items|
      {
        var rid :| rid in items;
        items := items - {rid};
        if rid in exited {
          inflight := inflight - {rid};
        }
      }
    }

    method AtCapacity(exited: set<Rid>, t: real) returns (full: bool)
      modifies `clock, `inflight, `launches, `attempts, `pending, `log
      ensures (Mem(), full) == CapacityStep(cfg, old(Mem()), exited, t)
    {
      clock := t;
      Reap(exited);
      if |inflight| >= cfg.maxConcurrent {
        return true;
      }
      launches := Evict(launches, t - cfg.launchWindow);
      return |launches| >= cfg.maxLaunches;
    }

    method PerReviewCapped(rid: Rid, t: real) returns (capped: bool)
      modifies `clock, `inflight, `launches, `attempts, `pending, `log
      ensures (Mem(), capped) == GateStep(cfg, old(Mem()), rid, t)
    {
      clock := t;
      if rid !in attempts {
        return false;
      }
      var dq := Evict(attempts[rid], t - cfg.attemptWindow);
      if dq == [] {
        attempts := attempts - {rid};
        return false;
      }
      attempts := attempts[rid := dq];
      return |dq| >= cfg.maxAttempts;
    }

    method Launch(rid: Rid, t: real)
      modifies `clock, `inflight, `launches, `attempts, `pending, `log
      ensures Mem() == LaunchStep(old(Mem()), rid, t)
    {
      clock := t;
      inflight := inflight + {rid};
      launches := launches + [t];
      if rid !in attempts {
        attempts := attempts[rid := []];
      }
      attempts := attempts[rid := attempts[rid] + [t]];
      log := log + [Spawn(rid, t)];
    }

    /** handle: the source returns True for Launched and False for the other two, which it only logs apart. */
    method Handle(rid: Rid, c: Claim) returns (r: Handled)
      modifies `clock, `inflight, `launches, `attempts, `pending, `log
      ensures (Mem(), r) == HandleStep(cfg, old(Mem()), rid, c)
    {
      var full := AtCapacity(c.exited, c.at);
      if full {
        return WasFull;
      }
      if c.status == 200 {
        Launch(rid, c.spawnAt);
        return Launched;
      }
      return Rejected;
    }

    method ProcessRow(rid: Rid, g: RowInputs) returns (o: Outcome)
      modifies `clock, `inflight, `launches, `attempts, `pending, `log
      ensures (Mem(), o) == RowStep(cfg, old(Mem()), rid, g)
    {
      if rid == "" {
        return NoId;
      }
      if !g.armed {
        return NotArmed;
      }
      var capped := PerReviewCapped(rid, g.gateAt);
      if capped {
        return AttemptsSpent;
      }
      var r := Handle(rid, g.claim);
      if r == Launched {
        return Claimed;
      }
      var full := AtCapacity(g.exitedAgain, g.checkAt);
      if full {
        pending := pending + {rid};
        return Deferred;
      }
      return if r == WasFull then Dropped else Refused;
    }

    /** Some later clock reading. */
    method Later(now: real) returns (t: real)
      ensures now <= t
    {
      var d: real := *;
      t := if d < 0.0 then now else now + d;
    }

    method SomeClaim(now: real) returns (c: Claim)
      ensures now <= c.at <= c.spawnAt
    {
      var exited: set<Rid> := *;
      var status: int := *;
      var at := Later(now);
      var spawnAt := Later(at);
      c := Claim(exited, at, status, spawnAt);
    }

    /** The step just taken, entered in the history. */
    ghost method Record(e: Event)
      requires PossibleRun(cfg, started, history) && Possible(MemoryAfter(cfg, started, history), e)
      requires Mem() == EventStep(cfg, MemoryAfter(cfg, started, history), e)
      modifies `history
      ensures Traced() && history == old(history) + [e]
    {
      RunNext(cfg, started, history, e);
      history := history + [e];
    }

    /** _drain_pending, whatever the world does meanwhile: every review that was pending is tried once,
        unless a check finds the watcher full, and then nothing more is tried; and what leaves `pending`
        is exactly what was spawned. */
    method DrainPending() returns (ghost steps: seq<Event>, ghost stopped: bool)
      requires Traced()
      modifies this
      ensures Traced() && cursor == old(cursor) && history == old(history) + steps
      ensures Drains(cfg, started, old(history), steps, stopped)
      ensures LeftBySpawning(old(log), log, old(pending), pending, {})
    {
      assert old(history) + [] == old(history);
      if pending == {} {
        assert SpawnedSince(log, |log|) == {};
        return [], false;
      }
      ghost var all := pending;
      var full, tick := CheckCapacity();
      ghost var tries: seq<Event> := [];
      if full {
        StoppedAtOnce(all);
        stopped := true;
        assert SpawnedSince(log, |log|) == {};
      } else {
        tries, stopped := DrainEach();
      }
      steps := [tick] + tries;
      TickThenTries(tick, tries, all, stopped);
      Joined(old(history), [tick], tries);
    }

    /** The check before the loop. */
    method CheckCapacity() returns (full: bool, ghost tick: Event)
      requires Traced()
      modifies this
      ensures Traced() && cursor == old(cursor) && pending == old(pending) && history == old(history) + [tick] && tick.Tick?
      ensures log == old(log)
      ensures full ==> FoundFull(cfg, started, history)
    {
      var exited: set<Rid> := *;
      var t := Later(clock);
      full := AtCapacity(exited, t);
      tick := Tick(exited, t);
      Record(tick);
      assert history[..|history| - 1] == old(history);
    }

    /** The loop over list(pending). */
    method DrainEach() returns (ghost steps: seq<Event>, ghost stopped: bool)
      requires Traced()
      modifies this
      ensures Traced() && cursor == old(cursor) && history == old(history) + steps
      ensures LeftBySpawning(old(log), log, old(pending), pending, {})
      ensures Drained(steps, old(pending), stopped)
      ensures stopped ==> FoundFull(cfg, started, history)
    {
      var todo := pending;
      ghost var all := pending;
      steps, stopped := [], false;
      assert all - todo == {} && Tried([]) == {};
      while todo != {}
        invariant Traced() && cursor == old(cursor) && LeftBySpawning(old(log), log, all, pending, todo)
        invariant history == old(history) + steps && DrainsEach(steps, all, todo)
        invariant !stopped
        decreases |todo|
      {
        var rid :| rid in todo;
        ghost var log0, left := log, pending;
        var full, e := DrainOne(rid);
        LeftOne(old(log), log0, log, all, left, pending, todo, rid);
        TriedOne(steps, all, todo, e);
        Joined(old(history), steps, [e]);
        todo := todo - {rid};
        steps := steps + [e];
        stopped := full;
        if full {
          break;
        }
      }
    }

    method DrainOne(rid: Rid) returns (full: bool, ghost e: Event)
      requires Traced() && rid in pending
      modifies this
      ensures Traced() && cursor == old(cursor) && history == old(history) + [e] && e.Drain? && e.rid == rid
      ensures full ==> FoundFull(cfg, started, history)
      ensures TriedIs(old(log), log, old(pending), pending, rid)
    {
      var exited: set<Rid> := *;
      var t := Later(clock);
      var c := SomeClaim(t);
      e := Drain(rid, exited, t, c);
      DrainPendingOnly(cfg, Mem(), rid, exited, t, c);
      full := TryPending(rid, exited, t, c);
      Record(e);
      assert history[..|history| - 1] == old(history);
    }

    /** The body of the loop: the capacity check, and handle if there is room. */
    method TryPending(rid: Rid, exited: set<Rid>, t: real, c: Claim) returns (full: bool)
      modifies `clock, `inflight, `launches, `attempts, `pending, `log
      ensures (Mem(), full) == DrainStep(cfg, old(Mem()), rid, exited, t, c)
    {
      full := AtCapacity(exited, t);
      if !full {
        var r := Handle(rid, c);
        if r == Launched {
          pending := pending - {rid};
        }
      }
    }

    /** Rows one by one and in order, whatever the world does meanwhile. */
    method DeliverAll(rows: seq<Row>) returns (ghost steps: seq<Event>)
      requires Traced()
      modifies this
      ensures Traced() && cursor == old(cursor)
      ensures history == old(history) + steps && DeliverTrace(steps, rows)
    {
      steps := [];
      for k := 0 to |rows|
        invariant Traced() && cursor == old(cursor)
        invariant history == old(history) + steps && DeliverTrace(steps, rows[..k])
      {
        ghost var e := DeliverOne(rows[k].rid);
        Joined(old(history), steps, [e]);
        DeliveredOne(steps, rows, k, e);
        steps := steps + [e];
      }
      assert rows[..|rows|] == rows;
    }

    method DeliverOne(rid: Rid) returns (ghost e: Event)
      requires Traced()
      modifies this
      ensures Traced() && cursor == old(cursor) && history == old(history) + [e] && e.Deliver? && e.rid == rid
    {
      var armed: bool := *;
      var again: set<Rid> := *;
      var gateAt := Later(clock);
      var claim := SomeClaim(gateAt);
      var checkAt := Later(claim.spawnAt);
      var g := RowInputs(armed, gateAt, claim, again, checkAt);
      e := Deliver(rid, g);
      var o := ProcessRow(rid, g);
      Record(e);
    }

    /** run()'s loop, for any number of polls and any responses: the caps hold on everything it ever
        spawns, and the cursor is the seed advanced by every response that was read. */
    method Run(responses: seq<Response>)
      requires Traced()
      modifies this
      ensures Traced() && cursor == CursorAfter(old(cursor), RowLists(responses))
      ensures RunTrace(cfg, started, old(history), history, responses)
      ensures forall x :: InWindow(Times(log), x, cfg.launchWindow) <= Max(cfg.maxLaunches, 0)
      ensures forall rid, x :: InWindow(TimesOf(log, rid), x, cfg.attemptWindow) <= cfg.AttemptLimit() + 1
      ensures |inflight| <= Max(cfg.maxConcurrent, 0)
    {
      for k := 0 to |responses|
        invariant Traced() && cursor == CursorAfter(old(cursor), RowLists(responses[..k]))
        invariant |old(history)| <= |history| && RunTrace(cfg, started, old(history), history, responses[..k])
      {
        if responses[k].Rows? {
          CursorStep(old(cursor), RowLists(responses[..k]), responses[k].rows);
        }
        assert responses[..k + 1][..k] == responses[..k];
        ghost var before := history;
        ghost var steps := Poll(responses[k]);
        RunOneMore(cfg, started, old(history), before, steps, responses, k);
      }
      assert responses[..|responses|] == responses;
      CapsHoldOnEveryRun(cfg, started, history);
      assert log == Mem().log && inflight == Mem().inflight;
    }

    /** One poll: the cursor advances exactly to the newest stamp delivered, and only on a response that
        has rows; every row is then processed, in order, before anything that was pending is retried. */
    method Poll(response: Response) returns (ghost steps: seq<Event>)
      requires Traced()
      modifies this
      ensures Traced() && history == old(history) + steps && PollTrace(cfg, started, old(history), steps, response)
      ensures cursor == if response.Rows? then NewestStamp(old(cursor), response.rows) else old(cursor)
    {
      ghost var drains, stopped;
      match response
      case NetworkError =>
        drains, stopped := DrainPending();
        steps := drains;
      case HttpError =>
        steps := [];
      case Rows(rows) =>
        if rows == [] {
          var exited: set<Rid> := *;
          Reap(exited);
          Record(Collect(exited));
          drains, stopped := DrainPending();
          steps := [Collect(exited)] + drains;
          Joined(old(history), [Collect(exited)], drains);
        } else {
          AdvanceCursor(rows);
          ghost var deliveries := DeliverAll(rows);
          drains, stopped := DrainPending();
          steps := deliveries + drains;
          Joined(old(history), deliveries, drains);
        }
    }

    /** cursor = max([cursor] + stamps) */
    method AdvanceCursor(rows: seq<Row>)
      modifies `cursor
      ensures cursor == NewestStamp(old(cursor), rows)
    {
      for k := 0 to |rows|
        invariant cursor == NewestStamp(old(cursor), rows[..k])
      {
        assert rows[..k + 1][..k] == rows[..k];
        if rows[k].turnUpdated > cursor {
          cursor := rows[k].turnUpdated;
        }
      }
      assert rows[..|rows|] == rows;
    }
  }

  /** The last step's capacity check found the watcher full. */
  ghost predicate FoundFull(cfg: Config, started: real, history: seq<Event>) {
    && history != []
    && var m, e := MemoryAfter(cfg, started, history[..|history| - 1]), history[|history| - 1];
       match e
       case Tick(exited, t) => CapacityStep(cfg, m, exited, t).1
       case Drain(rid, exited, t, c) => DrainStep(cfg, m, rid, exited, t, c).1
       case _ => false
  }

  /** The reviews a list of steps tries to drain. */
  ghost function Tried(steps: seq<Event>): set<Rid> {
    set k | 0 <= k < |steps| && steps[k].Drain? :: steps[k].rid
  }

  /** Each of `all` but the ones still to do has been tried exactly once, and nothing else was done. */
  ghost predicate DrainsEach(steps: seq<Event>, all: set<Rid>, todo: set<Rid>) {
    && todo <= all && Tried(steps) == all - todo && |steps| == |all - todo|
    && (forall k :: 0 <= k < |steps| ==> steps[k].Drain?)
    && (forall j, k :: 0 <= j < k < |steps| ==> steps[j].rid != steps[k].rid)
  }

  lemma TriedOne(steps: seq<Event>, all: set<Rid>, todo: set<Rid>, e: Event)
    requires DrainsEach(steps, all, todo) && e.Drain? && e.rid in todo
    ensures DrainsEach(steps + [e], all, todo - {e.rid})
  {
    var steps' := steps + [e];
    assert all - (todo - {e.rid}) == (all - todo) + {e.rid};
    forall rid
      ensures rid in Tried(steps') <==> rid in Tried(steps) || rid == e.rid
    {
      if rid in Tried(steps) {
        var k :| 0 <= k < |steps| && steps[k].Drain? && steps[k].rid == rid;
        assert steps'[k].rid == rid;
      }
      assert steps'[|steps|] == e;
    }
    assert Tried(steps') == all - (todo - {e.rid});
    forall k | 0 <= k < |steps|
      ensures steps[k].rid != e.rid
    {
      assert steps[k].rid in Tried(steps);
    }
  }

  /** One check, then a turn for every pending review, or for some of them if it was stopped. */
  ghost predicate DrainTrace(steps: seq<Event>, all: set<Rid>, stopped: bool) {
    steps != [] && steps[0].Tick? && Drained(steps[1..], all, stopped)
  }

  ghost predicate Drained(tries: seq<Event>, all: set<Rid>, stopped: bool) {
    if stopped then exists todo :: DrainsEach(tries, all, todo) else DrainsEach(tries, all, {})
  }

  /** What was spawned from position n of the log on. */
  ghost function SpawnedSince(log: seq<Spawn>, n: nat): set<Rid> {
    set k | n <= k < |log| :: log[k].rid
  }

  /** What has left `pending`, was `all`, is exactly what was spawned; those of `todo` have not. */
  ghost predicate LeftBySpawning(log0: seq<Spawn>, log: seq<Spawn>, all: set<Rid>, pending: set<Rid>, todo: set<Rid>) {
    log0 <= log && pending == all - SpawnedSince(log, |log0|) && SpawnedSince(log, |log0|) <= all - todo && todo <= all
  }

  /** The try spawned rid and took it out of `pending`, or did neither. */
  predicate TriedIs(log0: seq<Spawn>, log: seq<Spawn>, pending0: set<Rid>, pending: set<Rid>, rid: Rid) {
    || (log == log0 && pending == pending0)
    || (|log| == |log0| + 1 && log0 <= log && log[|log0|].rid == rid && pending == pending0 - {rid})
  }

  lemma LeftOne(log0: seq<Spawn>, log1: seq<Spawn>, log: seq<Spawn>, all: set<Rid>, pending1: set<Rid>, pending: set<Rid>, todo: set<Rid>, rid: Rid)
    requires LeftBySpawning(log0, log1, all, pending1, todo) && rid in todo && TriedIs(log1, log, pending1, pending, rid)
    ensures LeftBySpawning(log0, log, all, pending, todo - {rid})
  {
    if log != log1 {
      var n := |log0|;
      assert SpawnedSince(log, n) == SpawnedSince(log1, n) + {rid};
    }
  }

  lemma DrainPendingOnly(cfg: Config, m: Memory, rid: Rid, exited: set<Rid>, t: real, c: Claim)
    ensures var m' := DrainStep(cfg, m, rid, exited, t, c).0;
            || (m'.log == m.log && m'.pending == m.pending)
            || (m'.log == m.log + [Spawn(rid, c.spawnAt)] && m'.pending == m.pending - {rid})
  {
  }

  lemma StoppedAtOnce(all: set<Rid>)
    ensures Drained([], all, true)
  {
    assert all - all == {} && Tried([]) == {};
    assert DrainsEach([], all, all);
  }

  lemma TickThenTries(tick: Event, tries: seq<Event>, all: set<Rid>, stopped: bool)
    requires tick.Tick? && Drained(tries, all, stopped)
    ensures DrainTrace([tick] + tries, all, stopped) && OnlyDrains([tick] + tries)
  {
    assert ([tick] + tries)[1..] == tries;
  }

  lemma Joined(a: seq<Event>, b: seq<Event>, c: seq<Event>)
    ensures a + b + c == a + (b + c)
    ensures (b + c)[..|b|] == b && (b + c)[|b|..] == c
  {
  }

  ghost predicate DeliverTrace(steps: seq<Event>, rows: seq<Row>) {
    |steps| == |rows| && forall k :: 0 <= k < |rows| ==> steps[k].Deliver? && steps[k].rid == rows[k].rid
  }

  lemma DeliveredOne(steps: seq<Event>, rows: seq<Row>, k: nat, e: Event)
    requires k < |rows| && DeliverTrace(steps, rows[..k]) && e.Deliver? && e.rid == rows[k].rid
    ensures DeliverTrace(steps + [e], rows[..k + 1])
  {
  }

  /** What one _drain_pending does after `before`: nothing if nothing is pending, and else a check and a try
      for each pending review, all of them unless a check found the watcher full. */
  ghost predicate Drains(cfg: Config, started: real, before: seq<Event>, steps: seq<Event>, stopped: bool) {
    var all := MemoryAfter(cfg, started, before).pending;
    if all == {} then steps == []
    else OnlyDrains(steps) && DrainTrace(steps, all, stopped) && (stopped ==> FoundFull(cfg, started, before + steps))
  }

  /** What one poll does after `before`, by response: it drains after anything but an HTTP error. */
  ghost predicate PollTrace(cfg: Config, started: real, before: seq<Event>, steps: seq<Event>, response: Response) {
    match response
    case NetworkError => exists stopped :: Drains(cfg, started, before, steps, stopped)
    case HttpError => steps == []
    case Rows(rows) =>
      if rows == [] then
        steps != [] && steps[0].Collect? && exists stopped :: Drains(cfg, started, before + [steps[0]], steps[1..], stopped)
      else
        |rows| <= |steps| && DeliverTrace(steps[..|rows|], rows)
        && exists stopped :: Drains(cfg, started, before + steps[..|rows|], steps[|rows|..], stopped)
  }

  /** What the loop does: one poll after another. */
  ghost predicate RunTrace(cfg: Config, started: real, before: seq<Event>, history: seq<Event>, responses: seq<Response>)
    decreases |responses|
  {
    if responses == [] then history == before
    else
      exists n :: |before| <= n <= |history| && RunTrace(cfg, started, before, history[..n], responses[..|responses| - 1])
                  && PollTrace(cfg, started, history[..n], history[n..], responses[|responses| - 1])
  }

  lemma RunOneMore(cfg: Config, started: real, start: seq<Event>, before: seq<Event>, steps: seq<Event>, responses: seq<Response>, k: nat)
    requires k < |responses| && |start| <= |before|
    requires RunTrace(cfg, started, start, before, responses[..k]) && PollTrace(cfg, started, before, steps, responses[k])
    ensures RunTrace(cfg, started, start, before + steps, responses[..k + 1])
  {
    var all := before + steps;
    assert all[..|before|] == before && all[|before|..] == steps && responses[..k + 1][..k] == responses[..k];
  }

  predicate OnlyDrains(steps: seq<Event>) {
    forall k :: 0 <= k < |steps| ==> if k == 0 then steps[k].Tick? else steps[k].Drain?
  }

  /** The row lists of the responses that have one, in order. */
  function RowLists(responses: seq<Response>): seq<seq<Row>> {
    if responses == [] then []
    else
      var before, r := RowLists(responses[..|responses| - 1]), responses[|responses| - 1];
      if r.Rows? then before + [r.rows] else before
  }

  lemma ReapOk(cfg: Config, m: Memory, exited: set<Rid>)
    requires Ok(cfg, m)
    ensures Ok(cfg, m.(inflight := m.inflight - exited))
  {
    FewerTracked(m.inflight - exited, m.inflight);
    SameReviews(cfg, m, m.(inflight := m.inflight - exited));
  }
}
