/**
  Threaded comments (src/mdreview/comments.py): the open, resolved, reopened machine with its
  append-only logs, and the projection that hides who created a comment from other readers.
 */
module Comments {
  import opened Common

  type Rid = string

  datatype Status = Open | Resolved | Reopened

  /** One thread entry.  `author` is None only in a redacted copy; `name` is added only by
      with_author_names. */
  datatype Entry = Entry(author: Option<string>, role: string, text: string, ts: real, name: Option<string>)

  /** One status change; `actor` is its "by" key, None only in a redacted copy. */
  datatype Change = Change(from: Option<Status>, to: Status, actor: Option<string>, ts: real)

  datatype Comment = Comment(
    id: string, status: Status, anchor: string, thread: seq<Entry>,
    createdBy: Option<string>, createdAt: real,
    resolvedBy: Option<string>, resolvedAt: Option<real>, history: seq<Change>)

  /** A 400, 404 or 409 answer; a 409 carries the status that stood in the way. */
  datatype Refusal = Refusal(code: nat, status: Option<Status>)

  const Roles := {"reviewer", "agent"}

  function RoleOr(claimed: Option<string>, default: string): string {
    if claimed.Some? && claimed.value in Roles then claimed.value else default
  }

  /** `author or role`: an absent or empty author falls back to the role. */
  function AuthorOr(author: Option<string>, role: string): string {
    if author.Some? && author.value != "" then author.value else role
  }

  /** str.isspace for one character. */
  predicate IsSpace(ch: char) {
    var k := ch as int;
    || 0x09 <= k <= 0x0D || 0x1C <= k <= 0x20 || k == 0x85 || k == 0xA0 || k == 0x1680
    || 0x2000 <= k <= 0x200A || k == 0x2028 || k == 0x2029 || k == 0x202F || k == 0x205F || k == 0x3000
  }

  /** Nothing is left of the text after strip(). */
  predicate Blank(text: Option<string>) {
    text == None || forall k :: 0 <= k < |text.value| ==> IsSpace(text.value[k])
  }

  function Said(role: string, text: string, now: real): Entry {
    Entry(Some(role), role, text, now, None)
  }

  // ----------------------------------------------------------------------------------------------
  // Transitions
  // ----------------------------------------------------------------------------------------------

  function New(id: string, anchor: string, text: Option<string>, author: Option<string>, role: string, now: real): Comment {
    var r := RoleOr(Some(role), "reviewer");
    var a := AuthorOr(author, r);
    Comment(id, Open, anchor, [Entry(Some(a), r, text.GetOr(""), now, None)], Some(a), now, None, None,
            [Change(None, Open, Some(a), now)])
  }

  /** The optional remark of a resolve or reopen. */
  function Remark(thread: seq<Entry>, role: string, text: Option<string>, now: real): seq<Entry> {
    if text.GetOr("") != "" then thread + [Said(role, text.value, now)] else thread
  }

  function Transition(c: Comment, action: string, claimed: Option<string>, text: Option<string>, now: real): Result<Comment, Refusal> {
    if action == "reply" then
      if Blank(text) then Failure(Refusal(400, None))
      else Success(c.(thread := c.thread + [Said(RoleOr(claimed, "reviewer"), text.value, now)]))
    else if action == "resolve" then
      if c.status == Resolved then Failure(Refusal(409, Some(c.status)))
      else
        var role := RoleOr(claimed, "agent");
        Success(c.(thread := Remark(c.thread, role, text, now), status := Resolved,
                   resolvedBy := Some(role), resolvedAt := Some(now),
                   history := c.history + [Change(Some(c.status), Resolved, Some(role), now)]))
    else if action == "reopen" then
      if c.status != Resolved then Failure(Refusal(409, Some(c.status)))
      else
        Success(c.(thread := Remark(c.thread, "reviewer", text, now), status := Reopened,
                   resolvedBy := None, resolvedAt := None,
                   history := c.history + [Change(Some(c.status), Reopened, Some("reviewer"), now)]))
    else Failure(Refusal(400, None))
  }

  /** The position of the first comment with this id, or |arr|. */
  function Find(arr: seq<Comment>, cid: string): (k: nat)
    ensures k <= |arr| && (k < |arr| ==> arr[k].id == cid) && forall j :: 0 <= j < k ==> arr[j].id != cid
  {
    if arr == [] || arr[0].id == cid then 0 else 1 + Find(arr[1..], cid)
  }

  function Acted(arr: seq<Comment>, cid: string, action: string, claimed: Option<string>, text: Option<string>, now: real): Result<Comment, Refusal> {
    var k := Find(arr, cid);
    if k == |arr| then Failure(Refusal(404, None)) else Transition(arr[k], action, claimed, text, now)
  }

  function Without(arr: seq<Comment>, cid: string): seq<Comment> {
    if arr == [] then []
    else (if arr[0].id != cid then [arr[0]] else []) + Without(arr[1..], cid)
  }

  datatype Op =
    | Create(id: string, anchor: string, text: Option<string>, author: Option<string>, role: string, now: real)
    | Delete(id: string)
    | Act(id: string, action: string, claimed: Option<string>, text: Option<string>, now: real)

  /** What an operation makes of the comment array of a review. */
  function Step(arr: seq<Comment>, op: Op): seq<Comment> {
    match op
    case Create(id, anchor, text, author, role, now) => arr + [New(id, anchor, text, author, role, now)]
    case Delete(id) => Without(arr, id)
    case Act(id, action, claimed, text, now) =>
      match Acted(arr, id, action, claimed, text, now)
      case Success(c) => arr[Find(arr, id) := c]
      case Failure(_) => arr
  }

  class CommentService {
    var arrays: map<Rid, seq<Comment>>

    constructor ()
      ensures arrays == map[]
    {
      arrays := map[];
    }

    function Read(rid: Rid): seq<Comment>
      reads this
    {
      if rid in arrays then arrays[rid] else []
    }

    /** create */
    method Create(rid: Rid, id: string, anchor: string, text: Option<string>, author: Option<string>, role: string, now: real)
      returns (c: Comment)
      modifies this
      ensures arrays == old(arrays)[rid := Step(old(Read(rid)), Op.Create(id, anchor, text, author, role, now))]
      ensures c == Read(rid)[|Read(rid)| - 1]
    {
      var r := if role == "reviewer" || role == "agent" then role else "reviewer";
      var a := match author case Some(x) => (if x != "" then x else r) case None => r;
      var words := match text case Some(t) => t case None => "";
      c := Comment(id, Open, anchor, [Entry(Some(a), r, words, now, None)], Some(a), now, None, None,
                   [Change(None, Open, Some(a), now)]);
      arrays := arrays[rid := Read(rid) + [c]];
    }

    /** delete: no write when the id is absent. */
    method Delete(rid: Rid, cid: string) returns (removed: bool)
      modifies this
      ensures removed <==> Find(old(Read(rid)), cid) < |old(Read(rid))|
      ensures arrays == if removed then old(arrays)[rid := Step(old(Read(rid)), Op.Delete(cid))] else old(arrays)
    {
      var arr := Read(rid);
      var kept := Without(arr, cid);
      WithoutShorter(arr, cid);
      if |kept| == |arr| {
        return false;
      }
      arrays := arrays[rid := kept];
      removed := true;
    }

    /** apply_transition: the answer is the transition's, and a refusal writes nothing. */
    method ApplyTransition(rid: Rid, cid: string, action: string, claimed: Option<string>, text: Option<string>, now: real)
      returns (answer: Result<Comment, Refusal>)
      modifies this
      ensures answer == Acted(old(Read(rid)), cid, action, claimed, text, now)
      ensures arrays == if answer.Success? then old(arrays)[rid := Step(old(Read(rid)), Act(cid, action, claimed, text, now))]
                        else old(arrays)
    {
      var arr := Read(rid);
      var k := Find(arr, cid);
      if k == |arr| {
        return Failure(Refusal(404, None));
      }
      var c := arr[k];
      var cur := c.status;
      if action == "reply" {
        if Blank(text) {
          return Failure(Refusal(400, None));
        }
        var role := RoleOr(claimed, "reviewer");
        c := c.(thread := c.thread + [Entry(Some(role), role, text.value, now, None)]);
      } else if action == "resolve" {
        if cur != Open && cur != Reopened {
          return Failure(Refusal(409, Some(cur)));
        }
        var role := RoleOr(claimed, "agent");
        if text.Some? && text.value != "" {
          c := c.(thread := c.thread + [Entry(Some(role), role, text.value, now, None)]);
        }
        c := c.(status := Resolved);
        c := c.(resolvedBy := Some(role), resolvedAt := Some(now));
        c := c.(history := c.history + [Change(Some(cur), Resolved, Some(role), now)]);
      } else if action == "reopen" {
        if cur != Resolved {
          return Failure(Refusal(409, Some(cur)));
        }
        if text.Some? && text.value != "" {
          c := c.(thread := c.thread + [Entry(Some("reviewer"), "reviewer", text.value, now, None)]);
        }
        c := c.(status := Reopened);
        c := c.(resolvedBy := None, resolvedAt := None);
        c := c.(history := c.history + [Change(Some(cur), Reopened, Some("reviewer"), now)]);
      } else {
        return Failure(Refusal(400, None));
      }
      arrays := arrays[rid := arr[k := c]];
      answer := Success(c);
    }
  }

  lemma {:induction false} WithoutShorter(arr: seq<Comment>, cid: string)
    ensures |Without(arr, cid)| <= |arr|
    ensures |Without(arr, cid)| == |arr| <==> Find(arr, cid) == |arr|
  {
    if arr != [] {
      WithoutShorter(arr[1..], cid);
    }
  }

  // ----------------------------------------------------------------------------------------------
  // The life of a comment
  // ----------------------------------------------------------------------------------------------

  function Exec(ops: seq<Op>): seq<Comment> {
    if ops == [] then [] else Step(Exec(ops[..|ops| - 1]), ops[|ops| - 1])
  }

  /** The status after k changes. */
  function StatusAt(k: nat): Status {
    if k == 0 then Open else if k % 2 == 1 then Resolved else Reopened
  }

  predicate Literal(who: Option<string>) {
    who.Some? && who.value in Roles
  }

  /** The lifecycle: the changes form one chain from nothing to open and then alternately resolved and
      reopened; the status is where the chain ends; a resolver is recorded exactly while resolved; and
      past the creation no log names anyone but by role. */
  predicate Lifecycle(c: Comment) {
    var h, t := c.history, c.thread;
    && h != [] && t != []
    && h[0].from == None
    && (forall k :: 1 <= k < |h| ==> h[k].from == Some(h[k - 1].to) && Literal(h[k].actor))
    && (forall k :: 0 <= k < |h| ==> h[k].to == StatusAt(k))
    && c.status == h[|h| - 1].to
    && c.resolvedBy == (if c.status == Resolved then h[|h| - 1].actor else None)
    && c.resolvedAt == (if c.status == Resolved then Some(h[|h| - 1].ts) else None)
    && (forall k :: 1 <= k < |t| ==> Literal(t[k].author) && t[k].author == Some(t[k].role))
    && t[0].author == c.createdBy == h[0].actor && c.createdBy.Some?
    && t[0].ts == c.createdAt == h[0].ts
  }

  /** One more change, from the present status to the next in turn. */
  lemma FlipKeepsLifecycle(c: Comment, role: string, text: Option<string>, now: real, to: Status)
    requires Lifecycle(c) && role in Roles && to == StatusAt(|c.history|)
    ensures Lifecycle(c.(thread := Remark(c.thread, role, text, now), status := to,
                         resolvedBy := if to == Resolved then Some(role) else None,
                         resolvedAt := if to == Resolved then Some(now) else None,
                         history := c.history + [Change(Some(c.status), to, Some(role), now)]))
  {
  }

  lemma TransitionKeepsLifecycle(c: Comment, action: string, claimed: Option<string>, text: Option<string>, now: real)
    requires Lifecycle(c)
    ensures Transition(c, action, claimed, text, now).Success? ==> Lifecycle(Transition(c, action, claimed, text, now).value)
  {
    assert c.status == StatusAt(|c.history| - 1);
    if action == "resolve" && c.status != Resolved {
      FlipKeepsLifecycle(c, RoleOr(claimed, "agent"), text, now, Resolved);
    } else if action == "reopen" && c.status == Resolved {
      FlipKeepsLifecycle(c, "reviewer", text, now, Reopened);
    }
  }

  lemma {:induction false} WithoutSubset(arr: seq<Comment>, cid: string)
    ensures forall c :: c in Without(arr, cid) <==> c in arr && c.id != cid
  {
    if arr != [] {
      WithoutSubset(arr[1..], cid);
    }
  }

  /** Every comment of every reachable array has lived by the rules. */
  lemma {:induction false} EveryCommentLives(ops: seq<Op>)
    ensures forall c :: c in Exec(ops) ==> Lifecycle(c)
  {
    if ops != [] {
      var before, op := Exec(ops[..|ops| - 1]), ops[|ops| - 1];
      EveryCommentLives(ops[..|ops| - 1]);
      match op
      case Create(_, _, _, _, _, _) =>
      case Delete(id) => WithoutSubset(before, id);
      case Act(id, action, claimed, text, now) =>
        if Find(before, id) < |before| {
          TransitionKeepsLifecycle(before[Find(before, id)], action, claimed, text, now);
        }
    }
  }

  /** So in a reachable array the number of changes alone decides what is legal: a resolve is accepted
      at every odd length of the history, a reopen at every even one, and a resolver is on record at
      exactly the even ones. */
  lemma HistoryDecides(ops: seq<Op>, c: Comment, claimed: Option<string>, text: Option<string>, now: real)
    requires c in Exec(ops)
    ensures Transition(c, "resolve", claimed, text, now).Success? <==> |c.history| % 2 == 1
    ensures Transition(c, "reopen", claimed, text, now).Success? <==> |c.history| % 2 == 0
    ensures c.resolvedBy.Some? <==> |c.history| % 2 == 0
    ensures c.resolvedAt.Some? <==> |c.history| % 2 == 0
  {
    EveryCommentLives(ops);
    assert c.status == StatusAt(|c.history| - 1);
  }

  function Lookup(arr: seq<Comment>, cid: string): Option<Comment> {
    if Find(arr, cid) < |arr| then Some(arr[Find(arr, cid)]) else None
  }

  /** c' is c later on: its logs extend those of c, and what is set at creation is as it was. */
  predicate Grows(c: Comment, c': Comment) {
    && c.thread <= c'.thread && c.history <= c'.history
    && c'.id == c.id && c'.anchor == c.anchor && c'.createdBy == c.createdBy && c'.createdAt == c.createdAt
  }

  lemma {:induction false} FindAppend(arr: seq<Comment>, c: Comment, cid: string)
    ensures Find(arr, cid) < |arr| ==> Find(arr + [c], cid) == Find(arr, cid)
  {
    if arr != [] {
      assert (arr + [c])[1..] == arr[1..] + [c];
      FindAppend(arr[1..], c, cid);
    }
  }

  lemma {:induction false} LookupWithout(arr: seq<Comment>, gone: string, cid: string)
    requires gone != cid
    ensures Lookup(Without(arr, gone), cid) == Lookup(arr, cid)
  {
    if arr != [] {
      LookupWithout(arr[1..], gone, cid);
      var rest := Without(arr[1..], gone);
      if arr[0].id != gone {
        assert ([arr[0]] + rest)[1..] == rest;
      } else {
        assert Without(arr, gone) == rest;
      }
    }
  }

  lemma {:induction false} FindSameIds(arr: seq<Comment>, arr': seq<Comment>, cid: string)
    requires |arr'| == |arr| && forall k :: 0 <= k < |arr| ==> arr'[k].id == arr[k].id
    ensures Find(arr', cid) == Find(arr, cid)
  {
    if arr != [] {
      FindSameIds(arr[1..], arr'[1..], cid);
    }
  }

  lemma TransitionGrows(c: Comment, action: string, claimed: Option<string>, text: Option<string>, now: real)
    ensures Transition(c, action, claimed, text, now).Success? ==> Grows(c, Transition(c, action, claimed, text, now).value)
  {
  }

  lemma StepGrows(arr: seq<Comment>, op: Op, cid: string)
    requires Lookup(arr, cid).Some? && op != Delete(cid)
    ensures Lookup(Step(arr, op), cid).Some? && Grows(Lookup(arr, cid).value, Lookup(Step(arr, op), cid).value)
  {
    match op
    case Create(id, anchor, text, author, role, now) => FindAppend(arr, New(id, anchor, text, author, role, now), cid);
    case Delete(id) => LookupWithout(arr, id, cid);
    case Act(id, action, claimed, text, now) =>
      FindSameIds(arr, Step(arr, op), cid);
      if Find(arr, id) < |arr| {
        TransitionGrows(arr[Find(arr, id)], action, claimed, text, now);
      }
  }

  /** Append-only over whole runs: as long as nobody deletes it, a comment is still there, and its
      thread and history are those it had, extended. */
  lemma {:induction false} LogsOnlyGrow(ops: seq<Op>, k: nat, cid: string)
    requires k <= |ops| && Lookup(Exec(ops[..k]), cid).Some? && Delete(cid) !in ops[k..]
    ensures Lookup(Exec(ops), cid).Some? && Grows(Lookup(Exec(ops[..k]), cid).value, Lookup(Exec(ops), cid).value)
    decreases |ops|
  {
    if k == |ops| {
      assert ops[..k] == ops;
    } else {
      var before := ops[..|ops| - 1];
      assert before[..k] == ops[..k] && ops[k..] == before[k..] + [ops[|ops| - 1]];
      LogsOnlyGrow(before, k, cid);
      StepGrows(Exec(before), ops[|ops| - 1], cid);
    }
  }

  // ----------------------------------------------------------------------------------------------
  // What a comment says, read off the requests
  // ----------------------------------------------------------------------------------------------

  /** Something is left of the text after strip(). */
  predicate HasWords(text: Option<string>) {
    text.Some? && exists k :: 0 <= k < |text.value| && !IsSpace(text.value[k])
  }

  /** The request is an act on a present comment that is legal now: a reply with words whatever the status,
      a resolve of one not resolved, a reopen of one resolved. */
  predicate Legal(arr: seq<Comment>, op: Op) {
    && op.Act? && Lookup(arr, op.id).Some?
    && var status := Lookup(arr, op.id).value.status;
       || (op.action == "reply" && HasWords(op.text))
       || (op.action == "resolve" && (status == Open || status == Reopened))
       || (op.action == "reopen" && status == Resolved)
  }

  /** Whoever the request claims to come from, if that is a role. */
  function ActorOf(op: Op): string
    requires op.Act?
  {
    if op.action == "reopen" then "reviewer"
    else if op.claimed == Some("reviewer") then "reviewer"
    else if op.claimed == Some("agent") then "agent"
    else if op.action == "reply" then "reviewer" else "agent"
  }

  /** What the request adds to the thread of cid. */
  function Uttered(arr: seq<Comment>, op: Op, cid: string): seq<Entry> {
    if Legal(arr, op) && op.id == cid && op.text.Some? && op.text.value != ""
    then [Entry(Some(ActorOf(op)), ActorOf(op), op.text.value, op.now, None)] else []
  }

  /** What the request adds to the history of cid. */
  function Turned(arr: seq<Comment>, op: Op, cid: string): seq<Change> {
    if Legal(arr, op) && op.id == cid && op.action != "reply"
    then [Change(Some(Lookup(arr, cid).value.status), if op.action == "resolve" then Resolved else Reopened, Some(ActorOf(op)), op.now)]
    else []
  }

  /** When an act is accepted, and how it is refused: 404 without the comment, 409 with the status that
      forbids it, 400 for a reply without words and for any other action. */
  lemma AcceptedIff(arr: seq<Comment>, op: Op)
    requires op.Act?
    ensures var answer := Acted(arr, op.id, op.action, op.claimed, op.text, op.now);
            && (answer.Success? <==> Legal(arr, op))
            && (answer.Failure? ==>
                  answer.error == if Lookup(arr, op.id) == None then Refusal(404, None)
                                  else if op.action == "resolve" || op.action == "reopen" then Refusal(409, Some(Lookup(arr, op.id).value.status))
                                  else Refusal(400, None))
            && (answer.Success? ==> Lookup(Step(arr, op), op.id) == Some(answer.value))
            && (answer.Failure? ==> Step(arr, op) == arr)
  {
    if Legal(arr, op) {
      FindSameIds(arr, Step(arr, op), op.id);
    }
  }

  /** One request's part in what one comment says. */
  lemma StepSays(arr: seq<Comment>, op: Op, cid: string)
    requires Lookup(arr, cid).Some? && op != Delete(cid)
    ensures Lookup(Step(arr, op), cid).Some?
    ensures var c, c' := Lookup(arr, cid).value, Lookup(Step(arr, op), cid).value;
            && c'.thread == c.thread + Uttered(arr, op, cid)
            && c'.history == c.history + Turned(arr, op, cid)
            && c'.status == (if Turned(arr, op, cid) == [] then c.status else Turned(arr, op, cid)[0].to)
            && c' == c.(thread := c'.thread, history := c'.history, status := c'.status, resolvedBy := c'.resolvedBy, resolvedAt := c'.resolvedAt)
  {
    match op
    case Create(id, anchor, text, author, role, now) => FindAppend(arr, New(id, anchor, text, author, role, now), cid);
    case Delete(id) => LookupWithout(arr, id, cid);
    case Act(id, action, claimed, text, now) =>
      FindSameIds(arr, Step(arr, op), cid);
      if id == cid {
        ActSays(Lookup(arr, cid).value, arr, op);
      }
  }

  lemma ActSays(c: Comment, arr: seq<Comment>, op: Op)
    requires op.Act? && Lookup(arr, op.id) == Some(c)
    ensures var r := Transition(c, op.action, op.claimed, op.text, op.now);
            if r.Failure? then Uttered(arr, op, op.id) == [] && Turned(arr, op, op.id) == []
            else
              && r.value.thread == c.thread + Uttered(arr, op, op.id) && r.value.history == c.history + Turned(arr, op, op.id)
              && r.value.status == (if Turned(arr, op, op.id) == [] then c.status else Turned(arr, op, op.id)[0].to)
  {
    var r := Transition(c, op.action, op.claimed, op.text, op.now);
    if r.Success? {
      assert c.thread + [] == c.thread && c.history + [] == c.history;
    }
  }

  /** What the requests from position j on add to a thread and to a history. */
  function UtteredSince(ops: seq<Op>, j: nat, cid: string): seq<Entry> {
    if |ops| <= j then []
    else UtteredSince(ops[..|ops| - 1], j, cid) + Uttered(Exec(ops[..|ops| - 1]), ops[|ops| - 1], cid)
  }

  function TurnedSince(ops: seq<Op>, j: nat, cid: string): seq<Change> {
    if |ops| <= j then []
    else TurnedSince(ops[..|ops| - 1], j, cid) + Turned(Exec(ops[..|ops| - 1]), ops[|ops| - 1], cid)
  }

  /** Request j created the comment, which was not there, and no later one deleted it. */
  predicate CreatedAt(ops: seq<Op>, j: nat, cid: string) {
    && j < |ops| && ops[j].Create? && ops[j].id == cid && Lookup(Exec(ops[..j]), cid) == None
    && Delete(cid) !in ops[j + 1..]
  }

  /** The comment says what request o opened it with, and then `said` and `turned`. */
  predicate Says(c: Comment, o: Op, said: seq<Entry>, turned: seq<Change>) {
    && o.Create?
    && var role := if o.role == "agent" then "agent" else "reviewer";
       var author := if o.author.Some? && o.author.value != "" then o.author.value else role;
       && c.thread == [Entry(Some(author), role, if o.text.Some? then o.text.value else "", o.now, None)] + said
       && c.history == [Change(None, Open, Some(author), o.now)] + turned
       && c.id == o.id && c.anchor == o.anchor && c.createdBy == Some(author) && c.createdAt == o.now
  }

  lemma SaysMore(c: Comment, c': Comment, o: Op, said: seq<Entry>, turned: seq<Change>, entry: seq<Entry>, change: seq<Change>)
    requires Says(c, o, said, turned) && c'.thread == c.thread + entry && c'.history == c.history + change
    requires c'.id == c.id && c'.anchor == c.anchor && c'.createdBy == c.createdBy && c'.createdAt == c.createdAt
    ensures Says(c', o, said + entry, turned + change)
  {
    var role := if o.role == "agent" then "agent" else "reviewer";
    var author := if o.author.Some? && o.author.value != "" then o.author.value else role;
    assert [c.thread[0]] + said + entry == [c.thread[0]] + (said + entry);
    assert [c.history[0]] + turned + change == [c.history[0]] + (turned + change);
  }

  lemma SaidOnCreation(arr: seq<Comment>, o: Op)
    requires o.Create? && Lookup(arr, o.id) == None
    ensures Lookup(Step(arr, o), o.id).Some? && Says(Lookup(Step(arr, o), o.id).value, o, [], [])
  {
    var c := New(o.id, o.anchor, o.text, o.author, o.role, o.now);
    NewAtEnd(arr, c);
    assert c.thread + [] == c.thread && c.history + [] == c.history;
  }

  /** The words of a comment, over whole runs: its thread is what its creator said, followed by one entry for
      each accepted act on it that came with text, in order, with that act's text, time and role; and
      its history is its opening followed by one change for each accepted resolve and reopen.
      Nothing is lost, added, altered or said by anyone else. */
  lemma {:induction false} ThreadIsWhatWasSaid(ops: seq<Op>, j: nat, cid: string)
    requires CreatedAt(ops, j, cid)
    ensures Lookup(Exec(ops), cid).Some?
    ensures Says(Lookup(Exec(ops), cid).value, ops[j], UtteredSince(ops, j + 1, cid), TurnedSince(ops, j + 1, cid))
    decreases |ops|
  {
    var before, last := ops[..|ops| - 1], ops[|ops| - 1];
    if j == |ops| - 1 {
      SaidOnCreation(Exec(before), last);
    } else {
      CreatedBefore(ops, j, cid);
      ThreadIsWhatWasSaid(before, j, cid);
      StepSays(Exec(before), last, cid);
      SaysMore(Lookup(Exec(before), cid).value, Lookup(Exec(ops), cid).value, ops[j], UtteredSince(before, j + 1, cid),
               TurnedSince(before, j + 1, cid), Uttered(Exec(before), last, cid), Turned(Exec(before), last, cid));
    }
  }

  lemma CreatedBefore(ops: seq<Op>, j: nat, cid: string)
    requires ops != [] && j < |ops| - 1
    ensures CreatedAt(ops, j, cid) <==> CreatedAt(ops[..|ops| - 1], j, cid) && ops[|ops| - 1] != Delete(cid)
  {
    var before, last := ops[..|ops| - 1], ops[|ops| - 1];
    assert before[..j] == ops[..j] && before[j] == ops[j] && ops[j + 1..] == before[j + 1..] + [last];
  }

  lemma {:induction false} NewAtEnd(arr: seq<Comment>, c: Comment)
    requires Lookup(arr, c.id) == None
    ensures Lookup(arr + [c], c.id) == Some(c)
  {
    if arr != [] {
      assert (arr + [c])[1..] == arr[1..] + [c];
      NewAtEnd(arr[1..], c);
    }
  }

  ghost predicate Undeleted(ops: seq<Op>, cid: string) {
    exists j: nat :: CreatedAt(ops, j, cid)
  }

  /** And a comment is there if and only if some request created it and none deleted it since. */
  lemma {:induction false} PresentIff(ops: seq<Op>, cid: string)
    ensures Lookup(Exec(ops), cid).Some? <==> Undeleted(ops, cid)
  {
    if ops != [] {
      PresentIff(ops[..|ops| - 1], cid);
      if Undeleted(ops, cid) {
        var j: nat :| CreatedAt(ops, j, cid);
        ThreadIsWhatWasSaid(ops, j, cid);
      } else {
        AbsentStays(ops, cid);
      }
    }
  }

  lemma AbsentStays(ops: seq<Op>, cid: string)
    requires ops != [] && !Undeleted(ops, cid)
    requires Lookup(Exec(ops[..|ops| - 1]), cid).Some? ==> Undeleted(ops[..|ops| - 1], cid)
    ensures Lookup(Exec(ops), cid) == None
  {
    var before, last := ops[..|ops| - 1], ops[|ops| - 1];
    if last == Delete(cid) {
      Gone(Exec(before), cid);
    } else if Lookup(Exec(before), cid).Some? {
      var j: nat :| CreatedAt(before, j, cid);
      CreatedBefore(ops, j, cid);
    } else {
      assert !CreatedAt(ops, |before|, cid);
      StillAbsent(Exec(before), last, cid);
    }
  }

  lemma Gone(arr: seq<Comment>, cid: string)
    ensures Lookup(Without(arr, cid), cid) == None
  {
    WithoutSubset(arr, cid);
  }

  lemma StillAbsent(arr: seq<Comment>, op: Op, cid: string)
    requires Lookup(arr, cid) == None && !(op.Create? && op.id == cid)
    ensures Lookup(Step(arr, op), cid) == None
  {
    NotFound(arr, cid);
    if op.Delete? {
      WithoutSubset(arr, op.id);
    }
    NotFound(Step(arr, op), cid);
  }

  /** A comment is not found exactly if none has its id. */
  lemma NotFound(arr: seq<Comment>, cid: string)
    ensures Lookup(arr, cid) == None <==> forall c :: c in arr ==> c.id != cid
  {
  }

  /** Who resolved a comment, and when: while it is resolved, the role and the time of the last accepted
      resolve; else nobody. */
  lemma ResolverIsLast(ops: seq<Op>, j: nat, cid: string)
    requires CreatedAt(ops, j, cid)
    ensures Lookup(Exec(ops), cid).Some?
    ensures var c, turns := Lookup(Exec(ops), cid).value, TurnedSince(ops, j + 1, cid);
            if turns != [] && turns[|turns| - 1].to == Resolved
            then c.status == Resolved && c.resolvedBy == turns[|turns| - 1].actor && c.resolvedAt == Some(turns[|turns| - 1].ts)
            else c.status == (if turns == [] then Open else Reopened) && c.resolvedBy == None && c.resolvedAt == None
  {
    ThreadIsWhatWasSaid(ops, j, cid);
    EveryCommentLives(ops);
    var c, turns := Lookup(Exec(ops), cid).value, TurnedSince(ops, j + 1, cid);
    assert c in Exec(ops) && Lifecycle(c);
    assert turns != [] ==> c.history[|c.history| - 1] == turns[|turns| - 1];
  }

  // ----------------------------------------------------------------------------------------------
  // Redaction
  // ----------------------------------------------------------------------------------------------

  datatype Reader = Reader(uid: Option<string>, entitled: bool)

  predicate Visible(raw: Option<string>, r: Reader) {
    r.entitled || (r.uid != None && raw == r.uid)
  }

  function Hidden(raw: Option<string>, r: Reader): Option<string> {
    if Visible(raw, r) then raw else None
  }

  function Redact(c: Comment, r: Reader): Comment {
    c.(thread := if c.thread == [] then [] else [c.thread[0].(author := Hidden(c.thread[0].author, r))] + c.thread[1..],
       createdBy := Hidden(c.createdBy, r),
       history := if c.history == [] then [] else [c.history[0].(actor := Hidden(c.history[0].actor, r))] + c.history[1..])
  }

  function RedactAll(arr: seq<Comment>, r: Reader): (out: seq<Comment>)
    ensures |out| == |arr| && forall k :: 0 <= k < |arr| ==> out[k] == Redact(arr[k], r)
  {
    seq(|arr|, k requires 0 <= k < |arr| => Redact(arr[k], r))
  }

  /** redact_identity */
  method RedactIdentity(arr: seq<Comment>, uid: Option<string>, entitled: bool) returns (out: seq<Comment>)
    ensures out == RedactAll(arr, Reader(uid, entitled))
  {
    out := [];
    for i := 0 to |arr|
      invariant |out| == i && forall k :: 0 <= k < i ==> out[k] == Redact(arr[k], Reader(uid, entitled))
    {
      var c2 := RedactComment(arr[i], Reader(uid, entitled));
      out := out + [c2];
    }
  }

  /** The body of its loop. */
  method RedactComment(c: Comment, r: Reader) returns (c2: Comment)
    ensures c2 == Redact(c, r)
  {
    var thread := c.thread;
    if thread != [] && !Visible(thread[0].author, r) {
      thread := thread[0 := thread[0].(author := None)];
    }
    c2 := c.(thread := thread);
    if !Visible(c2.createdBy, r) {
      c2 := c2.(createdBy := None);
    }
    var hist := c2.history;
    if hist != [] && !Visible(hist[0].actor, r) {
      hist := hist[0 := hist[0].(actor := None)];
    }
    c2 := c2.(history := hist);
    assert c2.thread == Redact(c, r).thread && c2.history == Redact(c, r).history;
  }

  function NameThread(thread: seq<Entry>, nameFor: string -> string): (out: seq<Entry>)
    ensures |out| == |thread| && forall k :: 0 <= k < |thread| ==> out[k] == thread[k].(name := Some(nameFor(thread[k].author.GetOr(""))))
  {
    seq(|thread|, k requires 0 <= k < |thread| => thread[k].(name := Some(nameFor(thread[k].author.GetOr("")))))
  }

  function NameAll(arr: seq<Comment>, nameFor: string -> string): (out: seq<Comment>)
    ensures |out| == |arr| && forall k :: 0 <= k < |arr| ==> out[k] == arr[k].(thread := NameThread(arr[k].thread, nameFor))
  {
    seq(|arr|, k requires 0 <= k < |arr| => arr[k].(thread := NameThread(arr[k].thread, nameFor)))
  }

  /** with_author_names */
  method WithAuthorNames(arr: seq<Comment>, nameFor: string -> string) returns (out: seq<Comment>)
    ensures out == NameAll(arr, nameFor)
  {
    out := [];
    for i := 0 to |arr|
      invariant |out| == i && forall k :: 0 <= k < i ==> out[k] == arr[k].(thread := NameThread(arr[k].thread, nameFor))
    {
      out := out + [arr[i].(thread := NameThread(arr[i].thread, nameFor))];
    }
  }

  /** A transition and a redaction commute: no transition reads what a redaction hides, and none
      writes where a redaction looks. */
  lemma TransitionCommutes(c: Comment, action: string, claimed: Option<string>, text: Option<string>, now: real, r: Reader)
    requires Lifecycle(c)
    ensures Transition(Redact(c, r), action, claimed, text, now) ==
            match Transition(c, action, claimed, text, now)
            case Success(c') => Success(Redact(c', r))
            case Failure(e) => Failure(e)
  {
    var rt, rh := Redact(c, r).thread, Redact(c, r).history;
    match Transition(c, action, claimed, text, now)
    case Success(c') =>
      assert Redact(c', r).thread == rt + c'.thread[|c.thread|..];
      assert Redact(c', r).history == rh + c'.history[|c.history|..];
      if action == "reply" {
        assert c'.thread[|c.thread|..] == [Said(RoleOr(claimed, "reviewer"), text.value, now)];
        assert c'.history[|c.history|..] == [];
      } else {
        assert c'.history == c.history + [c'.history[|c.history|]];
        assert c'.history[|c.history|..] == [c'.history[|c.history|]];
        var role := if action == "resolve" then RoleOr(claimed, "agent") else "reviewer";
        assert c'.thread == Remark(c.thread, role, text, now);
        assert Redact(c', r).thread == Remark(rt, role, text, now);
      }
    case Failure(_) =>
  }

  lemma {:induction false} FindRedacted(arr: seq<Comment>, r: Reader, cid: string)
    ensures Find(RedactAll(arr, r), cid) == Find(arr, cid)
  {
    if arr != [] {
      assert RedactAll(arr, r)[1..] == RedactAll(arr[1..], r);
      FindRedacted(arr[1..], r, cid);
    }
  }

  lemma {:induction false} WithoutRedacted(arr: seq<Comment>, r: Reader, cid: string)
    ensures RedactAll(Without(arr, cid), r) == Without(RedactAll(arr, r), cid)
  {
    if arr != [] {
      assert RedactAll(arr, r)[1..] == RedactAll(arr[1..], r);
      WithoutRedacted(arr[1..], r, cid);
    }
  }

  lemma ActedRedacted(arr: seq<Comment>, op: Op, r: Reader)
    requires op.Act? && forall c :: c in arr ==> Lifecycle(c)
    ensures Acted(RedactAll(arr, r), op.id, op.action, op.claimed, op.text, op.now) ==
            match Acted(arr, op.id, op.action, op.claimed, op.text, op.now)
            case Success(c') => Success(Redact(c', r))
            case Failure(e) => Failure(e)
  {
    FindRedacted(arr, r, op.id);
    var k := Find(arr, op.id);
    if k < |arr| {
      TransitionCommutes(arr[k], op.action, op.claimed, op.text, op.now, r);
    }
  }

  /** What a request shows its caller: the answer of a transition, redacted for that caller, or the
      redacted new comment. */
  function Answer(arr: seq<Comment>, op: Op, r: Reader): Result<Option<Comment>, Refusal> {
    match op
    case Create(id, anchor, text, author, role, now) => Success(Some(Redact(New(id, anchor, text, author, role, now), r)))
    case Delete(id) => if Find(arr, id) < |arr| then Success(None) else Failure(Refusal(404, None))
    case Act(id, action, claimed, text, now) =>
      match Acted(arr, id, action, claimed, text, now)
      case Success(c) => Success(Some(Redact(c, r)))
      case Failure(e) => Failure(e)
  }

  /** The same request, but perhaps created by someone else, neither of them the reader. */
  predicate Alike(a: Op, b: Op, r: Reader) {
    || a == b
    || (a.Create? && b.Create? && b == a.(author := b.author)
        && r.uid != Some(AuthorOr(a.author, RoleOr(Some(a.role), "reviewer")))
        && r.uid != Some(AuthorOr(b.author, RoleOr(Some(b.role), "reviewer"))))
  }

  predicate AlikeRuns(xs: seq<Op>, ys: seq<Op>, r: Reader) {
    |xs| == |ys| && forall k :: 0 <= k < |xs| ==> Alike(xs[k], ys[k], r)
  }

  lemma CreateRedacted(a1: seq<Comment>, a2: seq<Comment>, x: Op, y: Op, r: Reader)
    requires !r.entitled && Alike(x, y, r) && RedactAll(a1, r) == RedactAll(a2, r) && x.Create?
    ensures RedactAll(Step(a1, x), r) == RedactAll(Step(a2, y), r) && Answer(a1, x, r) == Answer(a2, y, r)
  {
    var n1 := New(x.id, x.anchor, x.text, x.author, x.role, x.now);
    var n2 := New(x.id, x.anchor, x.text, y.author, x.role, x.now);
    assert Redact(n1, r) == Redact(n2, r);
    assert RedactAll(a1 + [n1], r) == RedactAll(a1, r) + [Redact(n1, r)];
    assert RedactAll(a2 + [n2], r) == RedactAll(a2, r) + [Redact(n2, r)];
  }

  /** An act on an array, seen through a redaction, depends on the redaction only. */
  lemma ActRedacted(arr: seq<Comment>, x: Op, r: Reader)
    requires x.Act? && forall c :: c in arr ==> Lifecycle(c)
    ensures RedactAll(Step(arr, x), r) == Step(RedactAll(arr, r), x)
    ensures Answer(arr, x, r) == match Acted(RedactAll(arr, r), x.id, x.action, x.claimed, x.text, x.now)
                                 case Success(c) => Success(Some(c))
                                 case Failure(e) => Failure(e)
  {
    FindRedacted(arr, r, x.id);
    ActedRedacted(arr, x, r);
    match Acted(arr, x.id, x.action, x.claimed, x.text, x.now)
    case Success(c) =>
      assert RedactAll(arr[Find(arr, x.id) := c], r) == RedactAll(arr, r)[Find(arr, x.id) := Redact(c, r)];
    case Failure(_) =>
  }

  lemma StepRedacted(a1: seq<Comment>, a2: seq<Comment>, x: Op, y: Op, r: Reader)
    requires !r.entitled && Alike(x, y, r) && RedactAll(a1, r) == RedactAll(a2, r)
    requires (forall c :: c in a1 ==> Lifecycle(c)) && (forall c :: c in a2 ==> Lifecycle(c))
    ensures RedactAll(Step(a1, x), r) == RedactAll(Step(a2, y), r)
    ensures Answer(a1, x, r) == Answer(a2, y, r)
  {
    match x
    case Create(_, _, _, _, _, _) => CreateRedacted(a1, a2, x, y, r);
    case Delete(id) =>
      FindRedacted(a1, r, id);
      FindRedacted(a2, r, id);
      WithoutRedacted(a1, r, id);
      WithoutRedacted(a2, r, id);
    case Act(_, _, _, _, _) =>
      ActRedacted(a1, x, r);
      ActRedacted(a2, x, r);
  }

  /** The answers of the two runs' k-th requests are equal. */
  predicate SameAnswer(xs: seq<Op>, ys: seq<Op>, r: Reader, k: nat)
    requires k < |xs| == |ys|
  {
    Answer(Exec(xs[..k]), xs[k], r) == Answer(Exec(ys[..k]), ys[k], r)
  }

  /** Noninterference: two whole runs that differ only in who created comments, neither being the
      reader, are the same run to a reader who is not entitled: after every prefix the redacted arrays
      are equal, and so is every answer. */
  lemma {:induction false} CreatorsDoNotShow(xs: seq<Op>, ys: seq<Op>, r: Reader, n: nat)
    requires !r.entitled && AlikeRuns(xs, ys, r) && n <= |xs|
    ensures RedactAll(Exec(xs[..n]), r) == RedactAll(Exec(ys[..n]), r)
    ensures n < |xs| ==> SameAnswer(xs, ys, r, n)
  {
    var a1, a2 := xs[..n], ys[..n];
    if n > 0 {
      CreatorsDoNotShow(xs, ys, r, n - 1);
      assert a1[..n - 1] == xs[..n - 1] && a2[..n - 1] == ys[..n - 1];
      EveryCommentLives(xs[..n - 1]);
      EveryCommentLives(ys[..n - 1]);
      StepRedacted(Exec(xs[..n - 1]), Exec(ys[..n - 1]), xs[n - 1], ys[n - 1], r);
    }
    if n < |xs| {
      EveryCommentLives(a1);
      EveryCommentLives(a2);
      StepRedacted(Exec(a1), Exec(a2), xs[n], ys[n], r);
    }
  }

  predicate Harmless(who: Option<string>, r: Reader) {
    who == None || who == r.uid || who.value in Roles
  }

  /** Every identity a reader who is not entitled finds in a reachable comment is nobody's, their own,
      or a role; the creator shows exactly to the entitled and to themselves; and the role labels of
      later entries all survive. */
  lemma OutputIdentities(ops: seq<Op>, c: Comment, r: Reader)
    requires c in Exec(ops)
    ensures var v := Redact(c, r);
            && |v.thread| == |c.thread| && |v.history| == |c.history| && v.thread != [] && v.history != []
            && (!r.entitled ==> AllHarmless(v, r))
            && (v.createdBy.Some? <==> r.entitled || r.uid == c.createdBy)
            && v.createdBy == v.thread[0].author == v.history[0].actor
            && (v.createdBy.Some? ==> v == c)
            && v.thread[1..] == c.thread[1..] && v.history[1..] == c.history[1..]
  {
    EveryCommentLives(ops);
    RedactedShape(c, r);
    RedactedHarmless(c, r);
  }

  /** Every identity in a comment. */
  predicate AllHarmless(v: Comment, r: Reader) {
    && Harmless(v.createdBy, r) && Harmless(v.resolvedBy, r)
    && (forall k :: 0 <= k < |v.thread| ==> Harmless(v.thread[k].author, r))
    && (forall k :: 0 <= k < |v.history| ==> Harmless(v.history[k].actor, r))
  }

  lemma RedactedShape(c: Comment, r: Reader)
    requires Lifecycle(c)
    ensures var v := Redact(c, r);
            && |v.thread| == |c.thread| && |v.history| == |c.history|
            && (v.createdBy.Some? <==> r.entitled || r.uid == c.createdBy)
            && v.createdBy == v.thread[0].author == v.history[0].actor
            && (v.createdBy.Some? ==> v == c)
            && v.thread[1..] == c.thread[1..] && v.history[1..] == c.history[1..]
  {
    var v := Redact(c, r);
    if v.createdBy.Some? {
      assert v.thread == c.thread && v.history == c.history;
    }
  }

  lemma RedactedHarmless(c: Comment, r: Reader)
    requires Lifecycle(c)
    ensures !r.entitled ==> AllHarmless(Redact(c, r), r)
  {
    if !r.entitled {
      var v := Redact(c, r);
      forall k | 0 <= k < |v.thread|
        ensures Harmless(v.thread[k].author, r)
      {
        assert k > 0 ==> v.thread[k] == c.thread[k] && Literal(c.thread[k].author);
      }
      forall k | 0 <= k < |v.history|
        ensures Harmless(v.history[k].actor, r)
      {
        assert k > 0 ==> v.history[k] == c.history[k] && Literal(c.history[k].actor);
      }
      assert c.status == Resolved ==> |c.history| > 1 && Literal(c.history[|c.history| - 1].actor);
    }
  }

  function Shown(arr: seq<Comment>, nameFor: string -> string, r: Reader): seq<Comment> {
    RedactAll(NameAll(arr, nameFor), r)
  }

  /** The display name under which the creator of a comment appears. */
  function CreatorName(c: Comment, nameFor: string -> string): string {
    nameFor(c.createdBy.GetOr(""))
  }

  /** A comment with names, redacted, is the redacted comment with names and the creator's name. */
  lemma NamedRedacted(c: Comment, nameFor: string -> string, r: Reader)
    requires Lifecycle(c)
    ensures var v := Redact(c, r);
            Redact(c.(thread := NameThread(c.thread, nameFor)), r)
            == v.(thread := [v.thread[0].(name := Some(CreatorName(c, nameFor)))] + NameThread(v.thread[1..], nameFor))
  {
    var named := NameThread(c.thread, nameFor);
    assert Redact(c, r).thread[1..] == c.thread[1..];
    assert named[1..] == NameThread(c.thread[1..], nameFor);
  }

  lemma ShownAt(c1: Comment, c2: Comment, nameFor: string -> string, r: Reader)
    requires Lifecycle(c1) && Lifecycle(c2) && Redact(c1, r) == Redact(c2, r)
    ensures Redact(c1.(thread := NameThread(c1.thread, nameFor)), r) == Redact(c2.(thread := NameThread(c2.thread, nameFor)), r)
            <==> CreatorName(c1, nameFor) == CreatorName(c2, nameFor)
  {
    NamedRedacted(c1, nameFor, r);
    NamedRedacted(c2, nameFor, r);
    var s1, s2 := Redact(c1.(thread := NameThread(c1.thread, nameFor)), r), Redact(c2.(thread := NameThread(c2.thread, nameFor)), r);
    assert s1.thread[0].name == Some(CreatorName(c1, nameFor)) && s2.thread[0].name == Some(CreatorName(c2, nameFor));
  }

  /** On the two read requests, which add display names before redacting, the two runs look alike if
      and only if the creators go by the same names: the name is public, the identity is not. */
  lemma NamesAreAllThatShows(xs: seq<Op>, ys: seq<Op>, nameFor: string -> string, r: Reader)
    requires !r.entitled && AlikeRuns(xs, ys, r)
    ensures |Exec(xs)| == |Exec(ys)|
    ensures Shown(Exec(xs), nameFor, r) == Shown(Exec(ys), nameFor, r) <==>
            forall k :: 0 <= k < |Exec(xs)| ==> CreatorName(Exec(xs)[k], nameFor) == CreatorName(Exec(ys)[k], nameFor)
  {
    CreatorsDoNotShow(xs, ys, r, |xs|);
    assert xs[..|xs|] == xs && ys[..|xs|] == ys;
    EveryCommentLives(xs);
    EveryCommentLives(ys);
    var a1, a2 := Exec(xs), Exec(ys);
    assert |RedactAll(a1, r)| == |a1| && |RedactAll(a2, r)| == |a2|;
    var s1, s2 := Shown(a1, nameFor, r), Shown(a2, nameFor, r);
    forall k | 0 <= k < |a1|
      ensures s1[k] == s2[k] <==> CreatorName(a1[k], nameFor) == CreatorName(a2[k], nameFor)
    {
      assert RedactAll(a1, r)[k] == RedactAll(a2, r)[k];
      ShownAt(a1[k], a2[k], nameFor, r);
    }
    assert (forall k :: 0 <= k < |s1| ==> s1[k] == s2[k]) ==> s1 == s2;
  }
}
