/**
  The LaTeX compile worker (src/latex_review/compiler.py) and everything that feeds it.

  Any number of request threads call `enqueue` (after a create or a put_source, from the poller's
  self-heal, from a recompile click) while one worker thread drains a queue.  The program is a
  state machine whose steps are its atomic actions: one lock section, one read or write of a file,
  one queue put or get.  Every interleaving of those steps is a run.
 */
module CompileProtocol {
  import opened Common

  type Rid = string
  type Text = string

  // ----------------------------------------------------------------------------------------------
  // State
  // ----------------------------------------------------------------------------------------------

  datatype CompileState = Queued | Running | Ok | Failed

  /** status.json: the attempted revision, and which revision produced paper.pdf. */
  datatype Status = Status(state: CompileState, revision: nat, pdfRevision: Option<nat>)

  /** One review on disk.  `pdf` is the text paper.pdf was compiled from.  `versions` is a history
      variable: versions[k] is the text put_source (or create) stored as revision k. */
  datatype Files = Files(revision: nat, source: Text, status: Option<Status>, pdf: Option<Text>, versions: seq<Text>)

  /** The coalescing state: the queue, and what `_lock` guards. */
  datatype Coalescer = Coalescer(queue: seq<Rid>, queued: set<Rid>, running: Option<Rid>, redo: set<Rid>)

  /** Where one request thread stands. */
  datatype Call =
    | Put(rid: Rid, text: Text)                                   // holds store.lock, nothing written yet
    | PutBumped(rid: Rid, text: Text)                             // revision bumped, source.md not yet overwritten
    | Enqueue(rid: Rid, owes: bool)                               // before enqueue's lock section; owes: after a write
    | Claimed(rid: Rid)                                           // rid is in _queued; revision not read
    | ReadingStatus(rid: Rid, rev: nat)                           // inside _write_status, old status not read
    | WritingStatus(rid: Rid, rev: nat, keep: Option<nat>)        // inside _write_status, about to replace the file
    | Putting(rid: Rid)                                           // status written, before the queue put
    | Done
    | Aborted(rid: Rid)                                           // the status write raised: the queue put never happens
    | HalfPut(rid: Rid)                                           // put_source raised after its first write: no enqueue follows

  /** Where the worker thread stands. */
  datatype Worker =
    | Idle
    | Taken(rid: Rid)                                             // after the queue get, before the lock section
    | Begun(rid: Rid)
    | HaveRevision(rid: Rid, rev: nat, base: nat)
    | WritingRunning(rid: Rid, rev: nat, keep: Option<nat>, base: nat)
    | ReadingSource(rid: Rid, rev: nat, base: nat)
    | Compiling(rid: Rid, rev: nat, text: Text, base: nat, index: nat)
    | ReplacingPdf(rid: Rid, rev: nat, text: Text, base: nat, index: nat)
    | WritingOk(rid: Rid, rev: nat, text: Text, base: nat, index: nat)
    | ReadingFailed(rid: Rid, rev: nat, handler: bool)
    | WritingFailed(rid: Rid, rev: nat, keep: Option<nat>, handler: bool)
    | Raised(rid: Rid)                                            // in the handler, nothing read
    | Ending(rid: Rid, dying: bool)                               // in `finally`; dying: an exception is on its way out
    | Requeueing(rid: Rid, dying: bool)                           // after the closing lock section, before the queue put
    | Dead(rid: Rid)                                              // the thread is gone; rid is what it was compiling

  /** One replacement of paper.pdf: the version of the text it was compiled from, the revision the
      compile had read, how often source.md had been overwritten when it read that, whether the
      replacement was recorded in status.json, and the label that stood before it. */
  datatype Replace = Replace(index: nat, rev: nat, base: nat, recorded: bool, before: Option<nat>)

  /** History of one review: how many puts are done with source.md since its creation, having overwritten
      it or given up, which is also the version it holds; and the latest replacement of paper.pdf. */
  datatype Past = Past(overwrites: nat, last: Option<Replace>)

  /** `past`, and `base` and `index` in the worker's states, are history variables: no step's outcome
      depends on them.  `base` and `index` are the counts of overwrites at the reads of the revision
      (line 113) and of the source (line 146). */
  datatype State = State(files: map<Rid, Files>, co: Coalescer, calls: seq<Call>, lockHolder: Option<nat>, worker: Worker,
                         past: map<Rid, Past>)

  const Initial := State(map[], Coalescer([], {}, None, {}), [], None, Idle, map[])

  function PastOf(s: State, rid: Rid): Past {
    if rid in s.past then s.past[rid] else Past(0, None)
  }

  // ----------------------------------------------------------------------------------------------
  // The lock sections and the status file, shared by the state machine and the class below
  // ----------------------------------------------------------------------------------------------

  /** enqueue's lock section; true when the caller must go on to write the status and put. */
  function EnqueueSection(c: Coalescer, rid: Rid): (Coalescer, bool) {
    if c.running == Some(rid) then (c.(redo := c.redo + {rid}), false)
    else if rid in c.queued then (c, false)
    else (c.(queued := c.queued + {rid}), true)
  }

  /** The worker's opening lock section. */
  function BeginSection(c: Coalescer, rid: Rid): Coalescer {
    c.(queued := c.queued - {rid}, running := Some(rid), redo := c.redo - {rid})
  }

  /** The worker's closing lock section; true when the rid must be put back on the queue. */
  function EndSection(c: Coalescer, rid: Rid): (Coalescer, bool) {
    if rid in c.redo
    then (c.(running := None, redo := c.redo - {rid}, queued := c.queued + {rid}), true)
    else (c.(running := None), false)
  }

  /** What a `_KEEP` status write preserves: the recorded pdf_revision, None without a status. */
  function KeptPdfRevision(f: Files): Option<nat> {
    match f.status
    case None => None
    case Some(st) => st.pdfRevision
  }

  function WithStatus(f: Files, state: CompileState, rev: nat, pdfRev: Option<nat>): Files {
    f.(status := Some(Status(state, rev, pdfRev)))
  }

  // ----------------------------------------------------------------------------------------------
  // Steps
  // ----------------------------------------------------------------------------------------------

  datatype Action =
    | Create(newRid: Rid, text: Text)
    | BeginPut(rid: Rid, text: Text)
    | BeginEnqueue(rid: Rid)          // self-heal or recompile: outside store.lock
    | Advance(i: nat)                 // the next atomic step of call i
    | Abort(i: nat)                   // call i's status write raises
    | Break(i: nat)                   // call i's put_source (or create) raises before its enqueue
    | Work(succeeds: bool)            // the worker's next atomic step; the flag is the compile's outcome
    | Raise                           // something inside _compile, or inside its handler, raises
    | SkipCall(i: nat)                // call i's status write cannot make the latex directory: nothing is written
    | SkipWork                        // the same for the worker's "running" or "failed"

  predicate Over(c: Call) {
    c.Done? || c.Aborted? || c.HalfPut?
  }

  predicate Enabled(s: State, a: Action) {
    match a
    case Create(rid, _) => rid !in s.files
    case BeginPut(rid, _) => rid in s.files && s.lockHolder == None
    case BeginEnqueue(rid) => rid in s.files
    case Advance(i) => i < |s.calls| && !Over(s.calls[i]) && s.calls[i].rid in s.files
    case Abort(i) => i < |s.calls| && (s.calls[i].Claimed? || s.calls[i].ReadingStatus? || s.calls[i].WritingStatus?)
    case Break(i) =>
      i < |s.calls| && !Over(s.calls[i]) && s.calls[i].rid in s.files
      && (s.calls[i].Put? || s.calls[i].PutBumped? || (s.calls[i].Enqueue? && s.calls[i].owes))
    case Work(_) =>
      match s.worker {
        case Idle => s.co.queue != []
        case Taken(_) => true
        case Ending(_, _) => true
        case Requeueing(_, _) => true
        case Dead(_) => false
        case _ => s.worker.rid in s.files
      }
    case Raise => InCompile(s.worker) || InHandler(s.worker)
    case SkipCall(i) => i < |s.calls| && s.calls[i].ReadingStatus? && Unmade(s, s.calls[i].rid)
    case SkipWork => (s.worker.HaveRevision? || s.worker.ReadingFailed?) && Unmade(s, s.worker.rid)
  }

  /** The latex directory may still have to be made: one that holds a status is there. */
  predicate Unmade(s: State, rid: Rid) {
    rid in s.files && s.files[rid].status == None
  }

  /** The worker is inside `_compile`, where an exception reaches the handler. */
  predicate InCompile(w: Worker) {
    w.Begun? || w.HaveRevision? || w.WritingRunning? || w.ReadingSource? || w.Compiling? || w.ReplacingPdf?
    || w.WritingOk? || (w.ReadingFailed? && !w.handler) || (w.WritingFailed? && !w.handler)
  }

  /** The worker is inside the handler, whose own status write can raise as well. */
  predicate InHandler(w: Worker) {
    w.Raised? || (w.ReadingFailed? && w.handler) || (w.WritingFailed? && w.handler)
  }

  function Apply(s: State, a: Action): State
    requires Enabled(s, a)
  {
    match a
    case Create(rid, text) =>
      s.(files := s.files[rid := Files(0, text, None, None, [text])], calls := s.calls + [Enqueue(rid, true)],
         past := s.past[rid := Past(0, None)])
    case BeginPut(rid, text) => s.(calls := s.calls + [Put(rid, text)], lockHolder := Some(|s.calls|))
    case BeginEnqueue(rid) => s.(calls := s.calls + [Enqueue(rid, false)])
    case Advance(i) => AdvanceCall(s, i)
    case Abort(i) => Return(s, i, Aborted(s.calls[i].rid))
    case Break(i) => BreakCall(s, i)
    case Work(succeeds) => WorkerStep(s, succeeds)
    case Raise => s.(worker := if InCompile(s.worker) then Raised(s.worker.rid) else Ending(s.worker.rid, true))
    case SkipCall(i) => Goto(s, i, Putting(s.calls[i].rid))
    case SkipWork =>
      var rid := s.worker.rid;
      s.(worker := if s.worker.HaveRevision? then ReadingSource(rid, s.worker.rev, s.worker.base) else Ending(rid, false))
  }

  /** All but the newest version. */
  function AllButNewest(versions: seq<Text>): seq<Text> {
    if versions == [] then [] else versions[..|versions| - 1]
  }

  /** A put that has written nothing leaves nothing; one that has only counted leaves the old text as the
      text of the new revision; one that has written leaves both, but no enqueue. */
  function BreakCall(s: State, i: nat): State
    requires Enabled(s, Break(i))
  {
    var rid := s.calls[i].rid;
    var f, p := s.files[rid], PastOf(s, rid);
    match s.calls[i]
    case Put(_, _) => Return(s, i, Done)
    case PutBumped(_, _) =>
      Return(s, i, HalfPut(rid)).(files := s.files[rid := f.(versions := AllButNewest(f.versions) + [f.source])],
                                  past := s.past[rid := p.(overwrites := p.overwrites + 1)])
    case _ => Return(s, i, HalfPut(rid))
  }

  /** Call i is over, with `c` as its last word; a put gives store.lock back. */
  function Return(s: State, i: nat, c: Call): State
    requires i < |s.calls|
  {
    s.(calls := s.calls[i := c], lockHolder := if s.lockHolder == Some(i) then None else s.lockHolder)
  }

  function Goto(s: State, i: nat, c: Call): State
    requires i < |s.calls|
  {
    s.(calls := s.calls[i := c])
  }

  function AdvanceCall(s: State, i: nat): State
    requires Enabled(s, Advance(i))
  {
    var f := s.files[s.calls[i].rid];
    match s.calls[i]
    case Put(rid, text) =>
      Goto(s, i, PutBumped(rid, text)).(files := s.files[rid := f.(revision := f.revision + 1, versions := f.versions + [text])])
    case PutBumped(rid, text) =>
      var p := PastOf(s, rid);
      Goto(s, i, Enqueue(rid, true)).(files := s.files[rid := f.(source := text)],
                                      past := s.past[rid := p.(overwrites := p.overwrites + 1)])
    case Enqueue(rid, _) =>
      var (c, claimed) := EnqueueSection(s.co, rid);
      if claimed then Goto(s, i, Claimed(rid)).(co := c) else Return(s, i, Done).(co := c)
    case Claimed(rid) => Goto(s, i, ReadingStatus(rid, f.revision))
    case ReadingStatus(rid, rev) => Goto(s, i, WritingStatus(rid, rev, KeptPdfRevision(f)))
    case WritingStatus(rid, rev, keep) =>
      Goto(s, i, Putting(rid)).(files := s.files[rid := WithStatus(f, Queued, rev, keep)])
    case Putting(rid) => Return(s, i, Done).(co := s.co.(queue := s.co.queue + [rid]))
  }

  function WorkerStep(s: State, succeeds: bool): State
    requires Enabled(s, Work(succeeds))
  {
    match s.worker
    case Idle => s.(worker := Taken(s.co.queue[0]), co := s.co.(queue := s.co.queue[1..]))
    case Taken(rid) => s.(worker := Begun(rid), co := BeginSection(s.co, rid))
    case Begun(rid) => s.(worker := HaveRevision(rid, s.files[rid].revision, PastOf(s, rid).overwrites))
    case HaveRevision(rid, rev, base) => s.(worker := WritingRunning(rid, rev, KeptPdfRevision(s.files[rid]), base))
    case WritingRunning(rid, rev, keep, base) =>
      s.(worker := ReadingSource(rid, rev, base), files := s.files[rid := WithStatus(s.files[rid], Running, rev, keep)])
    case ReadingSource(rid, rev, base) =>
      s.(worker := Compiling(rid, rev, s.files[rid].source, base, PastOf(s, rid).overwrites))
    case Compiling(rid, rev, text, base, index) =>
      s.(worker := if succeeds then ReplacingPdf(rid, rev, text, base, index) else ReadingFailed(rid, rev, false))
    case ReplacingPdf(rid, rev, text, base, index) =>
      var replaced := Replace(index, rev, base, false, KeptPdfRevision(s.files[rid]));
      s.(worker := WritingOk(rid, rev, text, base, index), files := s.files[rid := s.files[rid].(pdf := Some(text))],
         past := s.past[rid := PastOf(s, rid).(last := Some(replaced))])
    case WritingOk(rid, rev, _, base, index) =>
      var p := PastOf(s, rid);
      s.(worker := Ending(rid, false), files := s.files[rid := WithStatus(s.files[rid], Ok, rev, Some(rev))],
         past := s.past[rid := p.(last := match p.last case None => None case Some(r) => Some(r.(recorded := true)))])
    case ReadingFailed(rid, rev, handler) =>
      s.(worker := WritingFailed(rid, rev, KeptPdfRevision(s.files[rid]), handler))
    case WritingFailed(rid, rev, keep, _) =>
      s.(worker := Ending(rid, false), files := s.files[rid := WithStatus(s.files[rid], Failed, rev, keep)])
    case Raised(rid) => s.(worker := ReadingFailed(rid, s.files[rid].revision, true))
    case Ending(rid, dying) =>
      var (c, redo) := EndSection(s.co, rid);
      s.(worker := if redo then Requeueing(rid, dying) else AfterFinally(rid, dying), co := c)
    case Requeueing(rid, dying) => s.(worker := AfterFinally(rid, dying), co := s.co.(queue := s.co.queue + [rid]))
  }

  /** After `finally`: the next turn of the loop, or the end of the thread. */
  function AfterFinally(rid: Rid, dying: bool): Worker {
    if dying then Dead(rid) else Idle
  }

  /** The state after running `actions` in order, if each was enabled when its turn came. */
  function Exec(actions: seq<Action>): Option<State> {
    if actions == [] then Some(Initial)
    else
      match Exec(actions[..|actions| - 1])
      case None => None
      case Some(s) =>
        var a := actions[|actions| - 1];
        if Enabled(s, a) then Some(Apply(s, a)) else None
  }

  // ----------------------------------------------------------------------------------------------
  // Tokens: every pending rid is held in exactly one place
  // ----------------------------------------------------------------------------------------------

  /** The places a pending compile of a rid can be. */
  datatype Holder =
    | ByCall(i: nat)       // an enqueue call between its lock section and its queue put
    | InQueue(k: nat)
    | ByPickup             // the worker between the queue get and its lock section
    | InSlot               // _running
    | ByRequeue            // the worker between its closing lock section and the queue put

  predicate CallHolds(c: Call, rid: Rid) {
    (c.Claimed? || c.ReadingStatus? || c.WritingStatus? || c.Putting? || c.Aborted?) && c.rid == rid
  }

  predicate Holds(s: State, h: Holder, rid: Rid) {
    match h
    case ByCall(i) => i < |s.calls| && CallHolds(s.calls[i], rid)
    case InQueue(k) => k < |s.co.queue| && s.co.queue[k] == rid
    case ByPickup => s.worker == Taken(rid)
    case InSlot => s.co.running == Some(rid)
    case ByRequeue => s.worker.Requeueing? && s.worker.rid == rid
  }

  /** No rid has two tokens. */
  ghost predicate OneHolder(s: State) {
    forall rid, h1, h2 :: Holds(s, h1, rid) && Holds(s, h2, rid) ==> h1 == h2
  }

  /** `_queued` is exactly the rids whose token is somewhere other than `_running`. */
  ghost predicate QueuedIsHeld(s: State) {
    && (forall rid, h :: Holds(s, h, rid) && h != InSlot ==> rid in s.co.queued)
    && (forall rid :: rid in s.co.queued ==> exists h :: h != InSlot && Holds(s, h, rid))
  }

  /** `_running` is the rid the worker is compiling, and only that rid can be marked for a re-run. */
  predicate SlotInv(s: State) {
    && s.co.running == (if s.worker.Idle? || s.worker.Taken? || s.worker.Requeueing? || s.worker.Dead? then None else Some(s.worker.rid))
    && (forall rid :: rid in s.co.redo ==> s.co.running == Some(rid))
  }

  ghost predicate TokenInv(s: State) {
    OneHolder(s) && QueuedIsHeld(s) && SlotInv(s)
  }

  // ----------------------------------------------------------------------------------------------
  // Files: store.lock, versions, and what the worker has read
  // ----------------------------------------------------------------------------------------------

  /** Every rid named anywhere is a review on disk. */
  predicate Scoped(s: State) {
    && (forall i :: 0 <= i < |s.calls| && !s.calls[i].Done? ==> s.calls[i].rid in s.files)
    && (forall k :: 0 <= k < |s.co.queue| ==> s.co.queue[k] in s.files)
    && (s.worker.Idle? || s.worker.rid in s.files)
  }

  /** A put that has written nothing or only half holds store.lock, so there is at most one. */
  predicate LockInv(s: State) {
    forall i :: 0 <= i < |s.calls| && (s.calls[i].Put? || s.calls[i].PutBumped?) ==> s.lockHolder == Some(i)
  }

  /** Call i is between put_source's two writes for rid. */
  predicate TornBy(s: State, i: nat, rid: Rid) {
    i < |s.calls| && s.calls[i].PutBumped? && s.calls[i].rid == rid
  }

  ghost predicate Torn(s: State, rid: Rid) {
    exists i :: TornBy(s, i, rid)
  }

  /** source.md holds version `revision`, except between put_source's two writes, where it still
      holds the version before. */
  ghost predicate VersionsInv(s: State) {
    forall rid :: rid in s.files ==> Versioned(s, rid)
  }

  ghost predicate Versioned(s: State, rid: Rid)
    requires rid in s.files
  {
    var f := s.files[rid];
    && |f.versions| == f.revision + 1
    && (!Torn(s, rid) ==> f.source == f.versions[f.revision])
    && (forall i: nat :: TornBy(s, i, rid) ==>
          f.revision > 0 && f.source == f.versions[f.revision - 1] && s.calls[i].text == f.versions[f.revision])
  }

  /** A write of rid has begun whose enqueue has not yet passed its lock section. */
  predicate OwedBy(s: State, i: nat, rid: Rid) {
    i < |s.calls| && (s.calls[i].PutBumped? || (s.calls[i].Enqueue? && s.calls[i].owes)) && s.calls[i].rid == rid
  }

  ghost predicate Owed(s: State, rid: Rid) {
    exists i :: OwedBy(s, i, rid)
  }

  /** Nothing the worker has read of the rid it is compiling is out of date. */
  predicate WorkerFresh(w: Worker, f: Files) {
    match w
    case Begun(_) => true
    case Raised(_) => true
    case HaveRevision(_, rev, _) => rev == f.revision
    case WritingRunning(_, rev, _, _) => rev == f.revision
    case ReadingSource(_, rev, _) => rev == f.revision
    case Compiling(_, rev, text, _, _) => rev == f.revision && text == f.source
    case ReplacingPdf(_, rev, text, _, _) => rev == f.revision && text == f.source
    case WritingOk(_, rev, text, _, _) => rev == f.revision && text == f.source && f.pdf == Some(text)
    case ReadingFailed(_, rev, _) => rev == f.revision
    case WritingFailed(_, rev, _, _) => rev == f.revision
    case Ending(_, dying) => !dying && (Settled(f) || f.status == None)
    case _ => false
  }

  /** The review's status is final and about its current revision; if it says "ok" then paper.pdf
      was compiled from the current source and is labelled with the current revision. */
  predicate Settled(f: Files) {
    && f.status.Some?
    && f.status.value.revision == f.revision
    && (f.status.value.state == Ok || f.status.value.state == Failed)
    && (f.status.value.state == Ok ==> f.pdf == Some(f.source) && f.status.value.pdfRevision == Some(f.revision))
  }

  /** No update is lost: a review is settled or still without any status, or something that will compile
      it is pending, or the worker died on it, or a put of it raised halfway. */
  ghost predicate CoveredInv(s: State) {
    forall rid :: rid in s.files ==> Owed(s, rid) || Covered(s, rid) || HalfDone(s, rid)
  }

  /** Some put of rid gave up between its first write and its enqueue. */
  ghost predicate HalfDone(s: State, rid: Rid) {
    exists i :: 0 <= i < |s.calls| && s.calls[i] == HalfPut(rid)
  }

  predicate Covered(s: State, rid: Rid)
    requires rid in s.files
  {
    || rid in s.co.queued
    || (s.co.running == Some(rid) && (rid in s.co.redo || WorkerFresh(s.worker, s.files[rid])))
    || (s.co.running != Some(rid) && (Settled(s.files[rid]) || s.files[rid].status == None))
    || (Dying(s.worker) && s.worker.rid == rid)
  }

  /** The exception of a raising handler is on its way out of the thread, or has ended it. */
  predicate Dying(w: Worker) {
    (w.Ending? && w.dying) || (w.Requeueing? && w.dying) || w.Dead?
  }

  ghost predicate Inv(s: State) {
    TokenInv(s) && Scoped(s) && LockInv(s) && VersionsInv(s) && CoveredInv(s)
  }

  // ----------------------------------------------------------------------------------------------
  // Every step keeps the invariant
  // ----------------------------------------------------------------------------------------------

  /** Where the token that sits at h after the step was before it; None if the step created it. */
  function Prior(s: State, a: Action, h: Holder): Option<Holder>
    requires Enabled(s, a)
  {
    match (a, h)
    case (Advance(i), ByCall(j)) => if i == j && s.calls[i].Enqueue? then None else Some(h)
    case (Advance(i), InQueue(k)) => if k == |s.co.queue| then Some(ByCall(i)) else Some(h)
    case (Work(_), InQueue(k)) =>
      if s.worker.Idle? then Some(InQueue(k + 1))
      else if k == |s.co.queue| then Some(ByRequeue)
      else Some(h)
    case (Work(_), ByPickup) => Some(InQueue(0))
    case (Work(_), InSlot) => if s.worker.Taken? then Some(ByPickup) else Some(h)
    case (Work(_), ByRequeue) => Some(InSlot)
    case _ => Some(h)
  }

  lemma PriorHeld(s: State, a: Action, h: Holder, rid: Rid)
    requires TokenInv(s) && Enabled(s, a) && Holds(Apply(s, a), h, rid)
    ensures Prior(s, a, h) == None ==>
              a.Advance? && h == ByCall(a.i) && s.calls[a.i].Enqueue? && s.calls[a.i].rid == rid
              && rid !in s.co.queued && s.co.running != Some(rid)
    ensures Prior(s, a, h).Some? ==> Holds(s, Prior(s, a, h).value, rid)
  {
    if a.Work? {
      PriorHeldByWorker(s, a.succeeds, h, rid);
    }
  }

  lemma PriorHeldByWorker(s: State, succeeds: bool, h: Holder, rid: Rid)
    requires SlotInv(s) && Enabled(s, Work(succeeds)) && Holds(WorkerStep(s, succeeds), h, rid)
    ensures Prior(s, Work(succeeds), h).Some? && Holds(s, Prior(s, Work(succeeds), h).value, rid)
  {
  }

  lemma OneHolderStep(s: State, a: Action)
    requires TokenInv(s) && Enabled(s, a)
    ensures OneHolder(Apply(s, a))
  {
    var s' := Apply(s, a);
    forall rid, h1, h2 | Holds(s', h1, rid) && Holds(s', h2, rid)
      ensures h1 == h2
    {
      PriorHeld(s, a, h1, rid);
      PriorHeld(s, a, h2, rid);
      if Prior(s, a, h1).Some? && Prior(s, a, h2).Some? {
        assert Prior(s, a, h1) == Prior(s, a, h2);
      }
    }
  }

  lemma QueuedIsHeldStep(s: State, a: Action)
    requires TokenInv(s) && Enabled(s, a)
    ensures QueuedIsHeld(Apply(s, a))
  {
    var s' := Apply(s, a);
    forall rid, h | Holds(s', h, rid) && h != InSlot
      ensures rid in s'.co.queued
    {
      PriorHeld(s, a, h, rid);
      assert a.Work? && s.worker == Taken(rid) ==> Holds(s, ByPickup, rid);
    }
    forall rid | rid in s'.co.queued
      ensures exists h :: h != InSlot && Holds(s', h, rid)
    {
      var h := Later(s, a, rid);
    }
  }

  /** A rid that is in `_queued` after a step has a token outside `_running`. */
  lemma Later(s: State, a: Action, rid: Rid) returns (h: Holder)
    requires TokenInv(s) && Enabled(s, a) && rid in Apply(s, a).co.queued
    ensures h != InSlot && Holds(Apply(s, a), h, rid)
  {
    if rid !in s.co.queued {
      h := NewlyQueued(s, a, rid);
      return;
    }
    h :| h != InSlot && Holds(s, h, rid);
    if a.Work? {
      h := LaterWork(s, a.succeeds, rid, h);
    } else {
      h := LaterCall(s, a, rid, h);
    }
  }

  lemma LaterCall(s: State, a: Action, rid: Rid, g: Holder) returns (h: Holder)
    requires Enabled(s, a) && !a.Work? && g != InSlot && Holds(s, g, rid)
    ensures h != InSlot && Holds(Apply(s, a), h, rid)
  {
    h := if a.Advance? && g == ByCall(a.i) && s.calls[a.i].Putting? then InQueue(|s.co.queue|) else g;
  }

  lemma NewlyQueued(s: State, a: Action, rid: Rid) returns (h: Holder)
    requires Enabled(s, a) && rid !in s.co.queued && rid in Apply(s, a).co.queued
    ensures h != InSlot && Holds(Apply(s, a), h, rid)
  {
    h := if a.Advance? then ByCall(a.i) else ByRequeue;
  }

  lemma LaterWork(s: State, succeeds: bool, rid: Rid, g: Holder) returns (h: Holder)
    requires TokenInv(s) && Enabled(s, Work(succeeds)) && rid in WorkerStep(s, succeeds).co.queued
    requires g != InSlot && Holds(s, g, rid)
    ensures h != InSlot && Holds(WorkerStep(s, succeeds), h, rid)
  {
    h := g;
    if s.worker.Idle? && g.InQueue? {
      h := if g.k == 0 then ByPickup else InQueue(g.k - 1);
    } else if s.worker.Requeueing? && g.ByRequeue? {
      h := InQueue(|s.co.queue|);
    }
  }

  lemma SlotStep(s: State, a: Action)
    requires TokenInv(s) && Enabled(s, a)
    ensures SlotInv(Apply(s, a))
  {
  }

  lemma ScopedStep(s: State, a: Action)
    requires Scoped(s) && Enabled(s, a)
    ensures Scoped(Apply(s, a))
  {
    if a.Work? {
      ScopedWork(s, a.succeeds);
    }
  }

  lemma ScopedWork(s: State, succeeds: bool)
    requires Scoped(s) && Enabled(s, Work(succeeds))
    ensures Scoped(WorkerStep(s, succeeds))
  {
  }

  lemma LockStep(s: State, a: Action)
    requires LockInv(s) && Enabled(s, a)
    ensures LockInv(Apply(s, a))
  {
  }

  /** A put keeps store.lock until its call is over, its enqueue included, and gives it back then. */
  lemma LockKeptToTheEnd(s: State, a: Action, i: nat)
    requires Enabled(s, a) && s.lockHolder == Some(i) && i < |s.calls| && !Over(s.calls[i])
    ensures i < |Apply(s, a).calls|
    ensures Apply(s, a).lockHolder == if Over(Apply(s, a).calls[i]) then None else Some(i)
  {
    if a.Work? {
      LockIgnoresTheWorker(s, a.succeeds);
    }
  }

  lemma LockIgnoresTheWorker(s: State, succeeds: bool)
    requires Enabled(s, Work(succeeds))
    ensures WorkerStep(s, succeeds).lockHolder == s.lockHolder && WorkerStep(s, succeeds).calls == s.calls
  {
  }

  lemma VersionsStep(s: State, a: Action)
    requires Scoped(s) && LockInv(s) && VersionsInv(s) && Enabled(s, a)
    ensures VersionsInv(Apply(s, a))
  {
    forall rid | rid in Apply(s, a).files
      ensures Versioned(Apply(s, a), rid)
    {
      if rid in s.files {
        VersionedStep(s, a, rid);
      } else {
        assert forall i: nat :: !TornBy(Apply(s, a), i, rid);
      }
    }
  }

  /** The step is a write of rid's revision or of its source. */
  predicate WritesText(s: State, a: Action, rid: Rid)
    requires Enabled(s, a)
  {
    && ((a.Advance? && (s.calls[a.i].Put? || s.calls[a.i].PutBumped?)) || (a.Break? && s.calls[a.i].PutBumped?))
    && s.calls[a.i].rid == rid
  }

  lemma TextKept(s: State, a: Action, rid: Rid)
    requires Enabled(s, a) && rid in s.files && !WritesText(s, a, rid)
    ensures var f, f' := s.files[rid], Apply(s, a).files[rid];
            f'.revision == f.revision && f'.source == f.source && f'.versions == f.versions
  {
  }

  lemma TornKept(s: State, a: Action, rid: Rid, i: nat)
    requires Enabled(s, a) && rid in s.files && !WritesText(s, a, rid)
    ensures TornBy(Apply(s, a), i, rid) <==> TornBy(s, i, rid)
    ensures TornBy(s, i, rid) ==> Apply(s, a).calls[i] == s.calls[i]
  {
  }

  lemma VersionedPut(s: State, i: nat, rid: Rid)
    requires LockInv(s) && rid in s.files && Versioned(s, rid) && Enabled(s, Advance(i))
    requires s.calls[i].Put? && s.calls[i].rid == rid
    ensures Versioned(AdvanceCall(s, i), rid)
  {
    var s' := AdvanceCall(s, i);
    assert !Torn(s, rid);
    assert TornBy(s', i, rid);
    assert forall k: nat :: TornBy(s', k, rid) ==> k == i;
  }

  lemma VersionedOverwrite(s: State, i: nat, rid: Rid)
    requires LockInv(s) && rid in s.files && Versioned(s, rid) && Enabled(s, Advance(i)) && TornBy(s, i, rid)
    ensures Versioned(AdvanceCall(s, i), rid)
  {
    var s' := AdvanceCall(s, i);
    assert forall k: nat :: !TornBy(s', k, rid);
  }

  lemma VersionedStep(s: State, a: Action, rid: Rid)
    requires LockInv(s) && rid in s.files && Versioned(s, rid) && Enabled(s, a)
    ensures Versioned(Apply(s, a), rid)
  {
    if !WritesText(s, a, rid) {
      TextKept(s, a, rid);
      forall i: nat
        ensures TornBy(Apply(s, a), i, rid) <==> TornBy(s, i, rid)
        ensures TornBy(s, i, rid) ==> Apply(s, a).calls[i] == s.calls[i]
      {
        TornKept(s, a, rid, i);
      }
    } else if a.Break? {
      VersionedBreak(s, a.i, rid);
    } else if s.calls[a.i].Put? {
      VersionedPut(s, a.i, rid);
    } else {
      VersionedOverwrite(s, a.i, rid);
    }
  }

  lemma VersionedBreak(s: State, i: nat, rid: Rid)
    requires LockInv(s) && rid in s.files && Versioned(s, rid) && Enabled(s, Break(i)) && TornBy(s, i, rid)
    ensures Versioned(BreakCall(s, i), rid)
  {
    assert forall k: nat :: !TornBy(BreakCall(s, i), k, rid);
  }

  /** A write that is still owed an enqueue stays owed, until its call claims the token or finds one. */
  lemma OwedStep(s: State, a: Action, i: nat, rid: Rid)
    requires OwedBy(s, i, rid) && Enabled(s, a)
    ensures OwedBy(Apply(s, a), i, rid) || (a == Advance(i) && s.calls[i].Enqueue?)
            || (a == Break(i) && Apply(s, a).calls[i] == HalfPut(rid))
  {
  }

  lemma CoveredStep(s: State, a: Action)
    requires Inv(s) && Enabled(s, a)
    ensures CoveredInv(Apply(s, a))
  {
    var s' := Apply(s, a);
    forall rid | rid in s'.files
      ensures Owed(s', rid) || Covered(s', rid) || HalfDone(s', rid)
    {
      if rid !in s.files {
        assert OwedBy(s', |s.calls|, rid);
      } else if HalfDone(s, rid) {
        HalfDoneStays(s, a, rid);
      } else if Owed(s, rid) {
        var i :| OwedBy(s, i, rid);
        OwedStep(s, a, i, rid);
      } else if a.Work? || a.Raise? || a.SkipWork? {
        CoveredByWorker(s, a, rid);
      } else {
        CoveredByCall(s, a, rid);
      }
    }
  }

  lemma HalfDoneStays(s: State, a: Action, rid: Rid)
    requires HalfDone(s, rid) && Enabled(s, a)
    ensures HalfDone(Apply(s, a), rid)
  {
    var i :| 0 <= i < |s.calls| && s.calls[i] == HalfPut(rid);
    assert Apply(s, a).calls[i] == HalfPut(rid);
  }

  lemma CoveredByWorker(s: State, a: Action, rid: Rid)
    requires SlotInv(s) && Enabled(s, a) && (a.Work? || a.Raise? || a.SkipWork?)
    requires rid in s.files && Covered(s, rid)
    ensures Covered(Apply(s, a), rid)
  {
  }

  lemma CoveredByCall(s: State, a: Action, rid: Rid)
    requires TokenInv(s) && Enabled(s, a) && !a.Work? && !a.Raise? && !a.SkipWork?
    requires rid in s.files && !Owed(s, rid) && Covered(s, rid)
    ensures Owed(Apply(s, a), rid) || Covered(Apply(s, a), rid)
  {
    if a.Advance? && s.calls[a.i].rid == rid {
      assert !OwedBy(s, a.i, rid);
      if s.calls[a.i].Put? {
        assert OwedBy(Apply(s, a), a.i, rid);
      } else {
        assert CallHolds(s.calls[a.i], rid) ==> Holds(s, ByCall(a.i), rid);
      }
    }
  }

  lemma InvStep(s: State, a: Action)
    requires Inv(s) && Enabled(s, a)
    ensures Inv(Apply(s, a))
  {
    OneHolderStep(s, a);
    QueuedIsHeldStep(s, a);
    SlotStep(s, a);
    ScopedStep(s, a);
    LockStep(s, a);
    VersionsStep(s, a);
    CoveredStep(s, a);
  }

  lemma {:induction false} InvAlways(actions: seq<Action>)
    requires Exec(actions).Some?
    ensures Inv(Exec(actions).value)
  {
    if actions != [] {
      InvAlways(actions[..|actions| - 1]);
      InvStep(Exec(actions[..|actions| - 1]).value, actions[|actions| - 1]);
    }
  }

  lemma ScopedAlways(actions: seq<Action>)
    requires Exec(actions).Some?
    ensures Scoped(Exec(actions).value)
  {
    InvAlways(actions);
  }

  lemma TornSame(s: State, a: Action, rid: Rid)
    requires Enabled(s, a) && rid in s.files && !WritesText(s, a, rid)
    ensures Torn(Apply(s, a), rid) <==> Torn(s, rid)
  {
    forall i: nat
      ensures TornBy(Apply(s, a), i, rid) <==> TornBy(s, i, rid)
    {
      TornKept(s, a, rid, i);
    }
  }

  lemma Extend(actions: seq<Action>, a: Action)
    requires Exec(actions).Some? && Enabled(Exec(actions).value, a)
    ensures Exec(actions + [a]) == Some(Apply(Exec(actions).value, a))
  {
    assert (actions + [a])[..|actions + [a]| - 1] == actions;
  }
}
