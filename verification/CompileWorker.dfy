/**
  The compile worker in the source's own form: an object whose fields are the queue, what `_lock`
  guards, and the review directories.  Each lock section and each status write is specified by the
  function CompileProtocol takes as one atomic step; Enqueue and RunOnce are the source's methods
  run without interference.
 */
module CompileWorker {
  import opened Common
  import opened CompileProtocol
  import opened CompileLabels

  /** How one run of Tectonic, and the copying around it, can end. */
  datatype Outcome = Produced | NotProduced | ThrewEarly | ThrewAfterPdf

  class CompileWorker {
    var queue: seq<Rid>
    var queued: set<Rid>
    var running: Option<Rid>
    var redo: set<Rid>
    var files: map<Rid, Files>

    constructor ()
      ensures Co() == Initial.co && files == map[]
    {
      queue, queued, running, redo, files := [], {}, None, {}, map[];
    }

    function Co(): Coalescer
      reads this
    {
      Coalescer(queue, queued, running, redo)
    }

    /** enqueue, inside `with self._lock`. */
    method EnqueueLocked(rid: Rid) returns (claimed: bool)
      modifies `queued, `redo
      ensures (Co(), claimed) == EnqueueSection(old(Co()), rid)
    {
      if running == Some(rid) {
        redo := redo + {rid};
        return false;
      }
      if rid in queued {
        return false;
      }
      queued := queued + {rid};
      return true;
    }

    /** The worker's opening lock section. */
    method BeginLocked(rid: Rid)
      modifies `queued, `running, `redo
      ensures Co() == BeginSection(old(Co()), rid)
    {
      queued := queued - {rid};
      running := Some(rid);
      redo := redo - {rid};
    }

    /** The worker's closing lock section. */
    method EndLocked(rid: Rid) returns (again: bool)
      modifies `queued, `running, `redo
      ensures (Co(), again) == EndSection(old(Co()), rid)
    {
      running := None;
      again := rid in redo;
      if again {
        redo := redo - {rid};
        queued := queued + {rid};
      }
    }

    /** _write_status; `pdfRevision == None` is the `_KEEP` default.  If the latex directory cannot be
        made (`blocked`; one that holds a status is there), nothing is written and nothing is said. */
    method WriteStatus(rid: Rid, state: CompileState, revision: nat, pdfRevision: Option<nat>, blocked: bool)
      requires rid in files
      modifies `files
      ensures files == if blocked && old(files[rid]).status == None then old(files)
                       else old(files)[rid := WithStatus(old(files[rid]), state, revision,
                                                         if pdfRevision == None then KeptPdfRevision(old(files[rid])) else pdfRevision)]
    {
      if blocked && files[rid].status == None {
        return;
      }
      var recorded := pdfRevision;
      if recorded == None {
        recorded := match files[rid].status case None => None case Some(st) => st.pdfRevision;
      }
      files := files[rid := files[rid].(status := Some(Status(state, revision, recorded)))];
    }

    /** enqueue, undisturbed: the review is put exactly when its token was claimed, whether or not
        "queued" could be written; a label on an existing PDF survives, and nothing else about any
        review changes. */
    method Enqueue(rid: Rid, blocked: bool)
      requires rid in files
      modifies this
      ensures Co() == (var (c, claimed) := EnqueueSection(old(Co()), rid);
                       if claimed then c.(queue := c.queue + [rid]) else c)
      ensures files == if EnqueueSection(old(Co()), rid).1 && !(blocked && old(files[rid]).status == None)
                       then old(files)[rid := WithStatus(old(files[rid]), Queued, old(files[rid].revision), KeptPdfRevision(old(files[rid])))]
                       else old(files)
      ensures Labelled(old(files[rid])) ==> Labelled(files[rid])
    {
      var claimed := EnqueueLocked(rid);
      if !claimed {
        return;
      }
      WriteStatus(rid, Queued, files[rid].revision, None, blocked);
      queue := queue + [rid];
    }

    /** _compile, undisturbed; `blockedFirst` and `blockedLast` are for its "running" and "failed" writes.
        It ends settled, "ok" exactly if a PDF was produced, unless it raises or never has a status to
        write to. */
    method Compile(rid: Rid, outcome: Outcome, blockedFirst: bool, blockedLast: bool) returns (raised: bool)
      modifies `files
      ensures rid !in old(files) ==> !raised && files == old(files)
      ensures rid in old(files) ==>
                && (raised <==> outcome.ThrewEarly? || outcome.ThrewAfterPdf?)
                && files.Keys == old(files.Keys)
                && (forall other :: other in files && other != rid ==> files[other] == old(files)[other])
                && files[rid].source == old(files)[rid].source && files[rid].revision == old(files)[rid].revision
                && files[rid].versions == old(files)[rid].versions
                && files[rid].pdf == (if outcome.Produced? || outcome.ThrewAfterPdf? then Some(files[rid].source) else old(files)[rid].pdf)
                && KeptPdfRevision(files[rid]) == (if outcome.Produced? then Some(files[rid].revision) else KeptPdfRevision(old(files)[rid]))
                && (files[rid].status == None <==>
                      old(files)[rid].status == None && blockedFirst && (raised || (outcome.NotProduced? && blockedLast)))
                && (files[rid].status.Some? ==>
                      if raised then files[rid].status.value.state == CompileState.Running
                      else Settled(files[rid]) && files[rid].status.value.state == (if outcome.Produced? then Ok else Failed))
    {
      if rid !in files {
        return false;
      }
      var rev := files[rid].revision;
      WriteStatus(rid, Running, rev, None, blockedFirst);
      var text := files[rid].source;
      match outcome
      case Produced =>
        files := files[rid := files[rid].(pdf := Some(text))];
        WriteStatus(rid, Ok, rev, Some(rev), false);
        raised := false;
      case NotProduced =>
        WriteStatus(rid, Failed, rev, None, blockedLast);
        raised := false;
      case ThrewEarly =>
        raised := true;
      case ThrewAfterPdf =>
        files := files[rid := files[rid].(pdf := Some(text))];
        raised := true;
    }

    /** One turn of the worker loop, with the enqueue sections of any number of other threads in the
        middle.  Unless the handler raises as well, whatever the compile did, the review it took ends
        settled, "ok" exactly if a PDF was produced, or without any status, is back on the queue once exactly if anyone asked, and keeps an
        exact label unless something raised between replacing the PDF and recording it.  It is without a
        status exactly if it was and each write of the turn was blocked.  If the handler raises, the
        thread dies with the lock state in order and the status and label as the compile left them. */
    method RunOnce(outcome: Outcome, blockedFirst: bool, blockedLast: bool, asked: nat, handlerRaises: bool) returns (dead: bool)
      requires queue != []
      modifies this
      ensures dead <==> old(queue[0]) in old(files) && handlerRaises && (outcome.ThrewEarly? || outcome.ThrewAfterPdf?)
      ensures running == None && redo == old(redo) - {old(queue[0])}
      ensures queue == old(queue)[1..] + (if asked > 0 then [old(queue[0])] else [])
      ensures queued == old(queued) - {old(queue[0])} + (if asked > 0 then {old(queue[0])} else {})
      ensures var rid := old(queue[0]);
              && files.Keys == old(files.Keys)
              && (forall other :: other in files && other != rid ==> files[other] == old(files)[other])
              && (rid in files ==>
                    && (if dead then !Settled(files[rid]) && KeptPdfRevision(files[rid]) == KeptPdfRevision(old(files)[rid])
                        else (Settled(files[rid]) <==> files[rid].status.Some?))
                    && (!dead && files[rid].status.Some? ==> files[rid].status.value.state == (if outcome.Produced? then Ok else Failed))
                    && (files[rid].status == None <==>
                          old(files)[rid].status == None && blockedFirst && !outcome.Produced? && (dead || blockedLast))
                    && files[rid].versions == old(files)[rid].versions
                    && (Labelled(old(files)[rid]) && Current(old(files)[rid]) && outcome != ThrewAfterPdf
                        ==> Labelled(files[rid])))
    {
      var rid := queue[0];
      queue := queue[1..];
      BeginLocked(rid);
      var raised := Compile(rid, outcome, blockedFirst, blockedLast);
      ghost var compiled := files;
      for k := 0 to asked
        invariant running == Some(rid) && queued == old(queued) - {rid} && queue == old(queue)[1..]
        invariant redo == old(redo) - {rid} + (if k > 0 then {rid} else {})
        invariant files == compiled
      {
        var claimed := EnqueueLocked(rid);
      }
      dead := raised && handlerRaises;
      if raised && !handlerRaises {
        WriteStatus(rid, Failed, files[rid].revision, None, blockedLast);
      }
      var again := EndLocked(rid);
      if again {
        queue := queue + [rid];
      }
    }
  }

  /** source.md holds the current revision's text. */
  predicate Current(f: Files) {
    f.revision < |f.versions| && f.source == f.versions[f.revision]
  }
}
