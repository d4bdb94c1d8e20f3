/**
  The document store (src/mdreview/reviews.py) and the source arms of the server
  (src/mdreview/server.py): a revision counter, archived rounds, attribution, and the guarded write
  of several clients that read and write concurrently.  Every method runs under store.lock.
 */
module ReviewStore {
  import opened Common

  type Rid = string
  type Text = string

  /** A directory history/round-N.  `author` is its "by" key: present only for a reviewer's draft. */
  datatype Round = Round(round: nat, source: Text, ts: real, author: Option<string>)

  /** A review on disk; `updatedBy` is the source_updated_by key. */
  datatype Review = Review(source: Text, revision: nat, sourceUpdated: real, updatedBy: Option<string>, history: map<nat, Round>)

  datatype Stale = Stale(expected: int, current: nat)

  function Created(text: Text, now: real): Review {
    Review(text, 0, now, None, map[])
  }

  /** The outgoing draft, archived under the current revision. */
  function Archive(r: Review, ts: real): Review {
    r.(history := r.history[r.revision := Round(r.revision, r.source, ts, r.updatedBy)])
  }

  /** snapshot_round: archive, then count. */
  function Snapshot(r: Review, ts: real): Review {
    Archive(r, ts).(revision := r.revision + 1)
  }

  /** Where put_source can raise: before its round.json is written; at the write that counts, of the
      source, of source_updated, or of the author. */
  datatype Stop = AtRound | AtCount | AtSource | AtBump | AtAuthor

  datatype Outcome = Accepted(review: Review) | Refused(stale: Stale) | Raised(review: Review)

  function AuthorOf(updatedBy: string): Option<string> {
    if updatedBy == "reviewer" then Some("reviewer") else None
  }

  /** What a put that raises leaves behind. */
  function Stopped(r: Review, text: Text, stop: Stop, ts: real, now: real): Review {
    match stop
    case AtRound => r
    case AtCount => Archive(r, ts)
    case AtSource => Snapshot(r, ts)
    case AtBump => Snapshot(r, ts).(source := text)
    case AtAuthor => Snapshot(r, ts).(source := text, sourceUpdated := now)
  }

  /** put_source: refused if the caller's expected revision is not the current one.  The author is only
      written, and so can only fail to be written, when it changes. */
  function Put(r: Review, text: Text, expected: Option<int>, updatedBy: string, stop: Option<Stop>, ts: real, now: real): Outcome {
    if expected.Some? && expected.value != r.revision then Refused(Stale(expected.value, r.revision))
    else if stop == None || (stop == Some(AtAuthor) && r.updatedBy == AuthorOf(updatedBy)) then
      Accepted(Snapshot(r, ts).(source := text, sourceUpdated := now, updatedBy := AuthorOf(updatedBy)))
    else Raised(Stopped(r, text, stop.value, ts, now))
  }

  class ReviewService {
    var reviews: map<Rid, Review>

    constructor ()
      ensures reviews == map[]
    {
      reviews := map[];
    }

    method Create(rid: Rid, markdown: Text, now: real)
      requires rid !in reviews
      modifies this
      ensures reviews == old(reviews)[rid := Created(markdown, now)]
    {
      reviews := reviews[rid := Review(markdown, 0, now, None, map[])];
    }

    /** snapshot_round; true if it raised. */
    method SnapshotRound(rid: Rid, stop: Option<Stop>, ts: real) returns (raised: bool)
      requires rid in reviews
      modifies this
      ensures raised <==> stop == Some(AtRound) || stop == Some(AtCount)
      ensures reviews == old(reviews)[rid := if stop == Some(AtRound) then old(reviews)[rid]
                                             else if stop == Some(AtCount) then Archive(old(reviews)[rid], ts)
                                             else Snapshot(old(reviews)[rid], ts)]
    {
      var m := reviews[rid];
      var n := m.revision;
      var rj := Round(n, m.source, ts, None);
      if m.updatedBy.Some? {
        rj := rj.(author := m.updatedBy);
      }
      if stop == Some(AtRound) {
        return true;
      }
      reviews := reviews[rid := m.(history := m.history[n := rj])];
      if stop == Some(AtCount) {
        return true;
      }
      reviews := reviews[rid := reviews[rid].(revision := n + 1)];
      raised := false;
    }

    /** put_source, step by step: compare, snapshot, overwrite, bump, attribute; `stop` is the step that
        raises, if any. */
    method PutSource(rid: Rid, markdown: Text, expected: Option<int>, updatedBy: string, stop: Option<Stop>, ts: real, now: real)
      returns (refused: Option<Stale>, raised: bool)
      requires rid in reviews
      modifies this
      ensures match Put(old(reviews)[rid], markdown, expected, updatedBy, stop, ts, now)
              case Accepted(r) => refused == None && !raised && reviews == old(reviews)[rid := r]
              case Refused(stale) => refused == Some(stale) && !raised && reviews == old(reviews)
              case Raised(r) => refused == None && raised && reviews == old(reviews)[rid := r]
    {
      if expected.Some? {
        var current := reviews[rid].revision;
        if expected.value != current {
          return Some(Stale(expected.value, current)), false;
        }
      }
      refused := None;
      raised := SnapshotRound(rid, stop, ts);
      if raised || stop == Some(AtSource) {
        return None, true;
      }
      reviews := reviews[rid := reviews[rid].(source := markdown)];
      assert reviews == old(reviews)[rid := Snapshot(old(reviews)[rid], ts).(source := markdown)];
      if stop == Some(AtBump) {
        return None, true;
      }
      reviews := reviews[rid := reviews[rid].(sourceUpdated := now)];
      assert reviews == old(reviews)[rid := Snapshot(old(reviews)[rid], ts).(source := markdown, sourceUpdated := now)];
      raised := Attribute(rid, updatedBy, stop);
    }

    /** The last step: the author's key is set or removed, and written only if that changes it. */
    method Attribute(rid: Rid, updatedBy: string, stop: Option<Stop>) returns (raised: bool)
      requires rid in reviews
      modifies this
      ensures raised <==> stop == Some(AtAuthor) && old(reviews)[rid].updatedBy != AuthorOf(updatedBy)
      ensures reviews == if raised then old(reviews) else old(reviews)[rid := old(reviews)[rid].(updatedBy := AuthorOf(updatedBy))]
    {
      var m := reviews[rid];
      var changed: bool;
      if updatedBy == "reviewer" {
        changed := m.updatedBy != Some("reviewer");
        m := m.(updatedBy := Some("reviewer"));
      } else {
        changed := m.updatedBy != None;
        m := m.(updatedBy := None);
      }
      if changed && stop == Some(AtAuthor) {
        return true;
      }
      if changed {
        reviews := reviews[rid := m];
      }
      assert reviews == old(reviews)[rid := m];
      raised := false;
    }

    /** GET /source: the text and its token, read together under the lock. */
    method GetSource(rid: Rid) returns (text: Text, revision: nat)
      requires rid in reviews
      ensures text == reviews[rid].source && revision == reviews[rid].revision
    {
      text := reviews[rid].source;
      revision := reviews[rid].revision;
    }

    /** history: the rounds in whatever order the directory lists them, sorted newest first. */
    method History(rid: Rid) returns (rounds: seq<Round>)
      requires rid in reviews && Archived(reviews[rid])
      ensures rounds == Newest(reviews[rid].history, |reviews[rid].history|)
    {
      var h := reviews[rid].history;
      var names := h.Keys;
      rounds := [];
      while names != {}
        invariant names <= h.Keys && |rounds| + |names| == |h.Keys|
        invariant Descending(rounds)
        invariant forall k :: 0 <= k < |rounds| ==> rounds[k].round in h && rounds[k].round !in names && rounds[k] == h[rounds[k].round]
        decreases |names|
      {
        var n :| n in names;
        names := names - {n};
        rounds := InsertNewest(rounds, h[n]);
      }
      DescendingIsNewest(h, rounds, |h|);
    }
  }

  // ----------------------------------------------------------------------------------------------
  // The history list
  // ----------------------------------------------------------------------------------------------

  /** The archive of a review: consecutive rounds from 0, each labelled with its own number. */
  ghost predicate Archived(r: Review) {
    && (forall k: nat :: k in r.history <==> k < |r.history|)
    && (forall k: nat :: k in r.history ==> r.history[k].round == k)
  }

  predicate Descending(rounds: seq<Round>) {
    forall i, j :: 0 <= i < j < |rounds| ==> rounds[i].round > rounds[j].round
  }

  /** Rounds n - 1, ..., 1, 0. */
  function Newest(h: map<nat, Round>, n: nat): (rounds: seq<Round>)
    requires forall k: nat :: k < n ==> k in h
    ensures |rounds| == n
  {
    if n == 0 then [] else [h[n - 1]] + Newest(h, n - 1)
  }

  lemma {:induction false} NewestAt(h: map<nat, Round>, n: nat, i: nat)
    requires (forall k: nat :: k < n ==> k in h) && i < n
    ensures Newest(h, n)[i] == h[n - 1 - i]
  {
    if i > 0 {
      NewestAt(h, n - 1, i - 1);
    }
  }

  method InsertNewest(rounds: seq<Round>, r: Round) returns (out: seq<Round>)
    requires Descending(rounds) && forall k :: 0 <= k < |rounds| ==> rounds[k].round != r.round
    ensures Descending(out) && |out| == |rounds| + 1
    ensures forall k :: 0 <= k < |out| ==> out[k] == r || out[k] in rounds
  {
    var i := 0;
    while i < |rounds| && rounds[i].round > r.round
      invariant 0 <= i <= |rounds| && forall k :: 0 <= k < i ==> rounds[k].round > r.round
    {
      i := i + 1;
    }
    out := rounds[..i] + [r] + rounds[i..];
    assert forall k :: i <= k < |rounds| ==> rounds[k].round < r.round;
  }

  lemma {:induction false} RangeSize(s: set<nat>, n: nat)
    requires forall k: nat :: k in s <==> k < n
    ensures |s| == n
  {
    if n > 0 {
      assert s == (s - {n - 1}) + {n - 1};
      RangeSize(s - {n - 1}, n - 1);
    } else {
      assert s == {};
    }
  }

  lemma {:induction false} DescendingBounds(rounds: seq<Round>, n: nat, i: nat)
    requires Descending(rounds) && |rounds| == n && i < n && forall k :: 0 <= k < n ==> rounds[k].round < n
    ensures n - 1 - i <= rounds[i].round
    decreases n - i
  {
    if i + 1 < n {
      DescendingBounds(rounds, n, i + 1);
    }
  }

  lemma {:induction false} DescendingBelow(rounds: seq<Round>, n: nat, i: nat)
    requires Descending(rounds) && |rounds| == n && i < n && forall k :: 0 <= k < n ==> rounds[k].round < n
    ensures rounds[i].round <= n - 1 - i
  {
    if i > 0 {
      DescendingBelow(rounds, n, i - 1);
    }
  }

  lemma DescendingIsNewest(h: map<nat, Round>, rounds: seq<Round>, n: nat)
    requires (forall k: nat :: k in h <==> k < n) && Descending(rounds) && |rounds| == n
    requires forall k :: 0 <= k < n ==> rounds[k].round in h && rounds[k] == h[rounds[k].round]
    ensures rounds == Newest(h, n)
  {
    forall i: nat | i < n
      ensures rounds[i] == Newest(h, n)[i]
    {
      DescendingBounds(rounds, n, i);
      DescendingBelow(rounds, n, i);
      NewestAt(h, n, i);
    }
  }

  // ----------------------------------------------------------------------------------------------
  // Concurrent clients
  // ----------------------------------------------------------------------------------------------

  /** What one GET /source returned. */
  datatype Read = Read(text: Text, revision: nat)

  /** One version of the document: its text, who wrote it, and who the key says wrote it. */
  datatype Version = Version(text: Text, byReviewer: bool, marked: bool)

  /** A review and everything its clients have read.  `versions` is a history variable: what the document
      was at each revision; `spare` says that the current draft has been archived without being counted. */
  datatype System = System(review: Review, fetched: seq<Read>, versions: seq<Version>, spare: bool)

  /** The precondition of a PUT: none, the token of an earlier GET, or any number at all. */
  datatype Guard = Unguarded | From(i: nat) | Literal(n: int)

  datatype Action =
    | Get
    | Write(text: Text, byReviewer: bool, guard: Guard, stop: Option<Stop>, ts: real, now: real)

  predicate Enabled(s: System, a: Action) {
    a.Write? && a.guard.From? ==> a.guard.i < |s.fetched|
  }

  function Expected(s: System, g: Guard): Option<int>
    requires g.From? ==> g.i < |s.fetched|
  {
    match g
    case Unguarded => None
    case From(i) => Some(s.fetched[i].revision)
    case Literal(n) => Some(n)
  }

  function WriteResult(s: System, a: Action): Outcome
    requires a.Write? && Enabled(s, a)
  {
    Put(s.review, a.text, Expected(s, a.guard), if a.byReviewer then "reviewer" else "agent", a.stop, a.ts, a.now)
  }

  /** A write that was not refused has counted, unless it raised before it could. */
  predicate Counts(s: System, a: Action) {
    a.Write? && Enabled(s, a)
    && match WriteResult(s, a)
       case Accepted(_) => true
       case Refused(_) => false
       case Raised(_) => a.stop != Some(AtRound) && a.stop != Some(AtCount)
  }

  /** The version a write makes that counts. */
  function NewVersion(s: System, a: Action): Version
    requires Counts(s, a) && s.versions != []
  {
    var current := s.versions[|s.versions| - 1];
    if WriteResult(s, a).Accepted? then Version(a.text, a.byReviewer, a.byReviewer)
    else if a.stop == Some(AtSource) then current
    else Version(a.text, a.byReviewer, current.marked)
  }

  function Step(s: System, a: Action): System
    requires Enabled(s, a) && s.versions != []
  {
    match a
    case Get => s.(fetched := s.fetched + [Read(s.review.source, s.review.revision)])
    case Write(_, _, _, stop, _, _) =>
      match WriteResult(s, a)
      case Refused(_) => s
      case Accepted(r) => s.(review := r, versions := s.versions + [NewVersion(s, a)], spare := false)
      case Raised(r) =>
        if Counts(s, a) then s.(review := r, versions := s.versions + [NewVersion(s, a)], spare := false)
        else s.(review := r, spare := s.spare || stop == Some(AtCount))
  }

  function Exec(text: Text, now: real, actions: seq<Action>): (s: Option<System>)
    ensures s.Some? ==> s.value.versions != []
  {
    if actions == [] then Some(System(Created(text, now), [], [Version(text, false, false)], false))
    else
      match Exec(text, now, actions[..|actions| - 1])
      case None => None
      case Some(s) =>
        var a := actions[|actions| - 1];
        if Enabled(s, a) then Some(Step(s, a)) else None
  }

  /** How many writes of the run have counted. */
  function Counted(text: Text, now: real, actions: seq<Action>): nat {
    if actions == [] then 0
    else
      var before, a := actions[..|actions| - 1], actions[|actions| - 1];
      Counted(text, now, before)
      + match Exec(text, now, before) {
          case None => 0
          case Some(s) => if Counts(s, a) then 1 else 0
        }
  }

  /** The store is its own record: version k is the current draft or round k, with the author the key gave. */
  ghost predicate Recorded(s: System) {
    var r := s.review;
    && |s.versions| == r.revision + 1
    && r.source == s.versions[r.revision].text
    && r.updatedBy == AuthorKey(s.versions[r.revision].marked)
    && (forall k: nat :: k in r.history <==> k < r.revision || (s.spare && k == r.revision))
    && (forall k: nat :: k in r.history ==>
          r.history[k].round == k && r.history[k].source == s.versions[k].text
          && r.history[k].author == AuthorKey(s.versions[k].marked))
    && (forall i :: 0 <= i < |s.fetched| ==>
          s.fetched[i].revision < |s.versions| && s.fetched[i].text == s.versions[s.fetched[i].revision].text)
  }

  function AuthorKey(byReviewer: bool): Option<string> {
    if byReviewer then Some("reviewer") else None
  }

  lemma StepRecords(s: System, a: Action)
    requires s.versions != [] && Recorded(s) && Enabled(s, a)
    ensures Recorded(Step(s, a))
  {
    if a.Write? && !WriteResult(s, a).Refused? {
      WriteRecords(s, a);
    }
  }

  lemma WriteRecords(s: System, a: Action)
    requires s.versions != [] && Recorded(s) && Enabled(s, a) && a.Write? && !WriteResult(s, a).Refused?
    ensures Recorded(Step(s, a))
  {
    var r, r' := s.review, Step(s, a).review;
    assert a.stop == Some(AtRound) && WriteResult(s, a).Raised? ==> r' == r;
    assert Counts(s, a) ==> r'.history == Archive(r, a.ts).history && r'.revision == r.revision + 1;
  }

  lemma RecordedIsArchived(s: System)
    requires s.versions != [] && Recorded(s)
    ensures Archived(s.review) && |s.review.history| == s.review.revision + (if s.spare then 1 else 0)
  {
    RangeSize(s.review.history.Keys, s.review.revision + (if s.spare then 1 else 0));
  }

  /** Over every interleaving of clients, and wherever puts raise: revision counts the writes that got so
      far; the history is exactly rounds 0 .. revision - 1, and the current draft as well while a put that
      raised has archived but not counted it; round k holds version k, and its author is "reviewer" if
      and only if the key said so then. */
  lemma {:induction false} EveryVersionIsKept(text: Text, now: real, actions: seq<Action>)
    requires Exec(text, now, actions).Some?
    ensures var s := Exec(text, now, actions).value;
            Recorded(s) && s.review.revision == Counted(text, now, actions) && s.versions[0] == Version(text, false, false)
  {
    if actions != [] {
      EveryVersionIsKept(text, now, actions[..|actions| - 1]);
      StepRecords(Exec(text, now, actions[..|actions| - 1]).value, actions[|actions| - 1]);
    }
  }

  /** The list a reader gets, in every reachable state. */
  lemma HistoryIsComplete(text: Text, now: real, actions: seq<Action>)
    requires Exec(text, now, actions).Some?
    ensures var s := Exec(text, now, actions).value;
            Archived(s.review) && |s.review.history| == Counted(text, now, actions) + (if s.spare then 1 else 0)
  {
    EveryVersionIsKept(text, now, actions);
    RecordedIsArchived(Exec(text, now, actions).value);
  }

  predicate RightlyMarked(v: Version) {
    v.marked == v.byReviewer
  }

  /** One write: a version that counts is marked with its true author if and only if its write was accepted,
      or raised at the source when the draft it kept was rightly marked, or raised later when its author
      is the one the draft before was marked with. */
  lemma MarkedRightIff(s: System, a: Action)
    requires s.versions != [] && Counts(s, a)
    ensures var current := s.versions[|s.versions| - 1];
            RightlyMarked(NewVersion(s, a)) <==>
              || WriteResult(s, a).Accepted?
              || (a.stop == Some(AtSource) && RightlyMarked(current))
              || ((a.stop == Some(AtBump) || a.stop == Some(AtAuthor)) && a.byReviewer == current.marked)
  {
  }

  predicate NeverStopsLate(actions: seq<Action>) {
    forall a :: a in actions && a.Write? ==> a.stop != Some(AtBump) && a.stop != Some(AtAuthor)
  }

  predicate AllMarked(versions: seq<Version>) {
    forall k :: 0 <= k < |versions| ==> RightlyMarked(versions[k])
  }

  lemma MarkedStep(s: System, a: Action)
    requires s.versions != [] && Enabled(s, a) && AllMarked(s.versions)
    requires a.Write? ==> a.stop != Some(AtBump) && a.stop != Some(AtAuthor)
    ensures AllMarked(Step(s, a).versions)
  {
    if Counts(s, a) {
      MarkedRightIff(s, a);
    }
  }

  lemma {:induction false} AlwaysMarked(text: Text, now: real, actions: seq<Action>)
    requires Exec(text, now, actions).Some? && NeverStopsLate(actions)
    ensures AllMarked(Exec(text, now, actions).value.versions)
  {
    if actions != [] {
      AlwaysMarked(text, now, actions[..|actions| - 1]);
      assert actions[|actions| - 1] in actions;
      MarkedStep(Exec(text, now, actions[..|actions| - 1]).value, actions[|actions| - 1]);
    }
  }

  /** In particular, if no put raises after its source is written, round k says "reviewer" if and only if
      version k was a reviewer's. */
  lemma AuthorsAreRight(text: Text, now: real, actions: seq<Action>, k: nat)
    requires Exec(text, now, actions).Some? && NeverStopsLate(actions) && k in Exec(text, now, actions).value.review.history
    ensures var s := Exec(text, now, actions).value;
            k < |s.versions| && s.review.history[k].author == AuthorKey(s.versions[k].byReviewer)
  {
    EveryVersionIsKept(text, now, actions);
    AlwaysMarked(text, now, actions);
    assert RightlyMarked(Exec(text, now, actions).value.versions[k]);
  }

  /** The writes of a run that were accepted. */
  function AcceptedWrites(text: Text, now: real, actions: seq<Action>): seq<Action> {
    if actions == [] then []
    else
      var before, a := actions[..|actions| - 1], actions[|actions| - 1];
      AcceptedWrites(text, now, before)
      + match Exec(text, now, before) {
          case None => []
          case Some(s) => if Counts(s, a) && WriteResult(s, a).Accepted? then [a] else []
        }
  }

  /** The writes of a run whose text reached the file: those accepted, and those that raised after it. */
  function ReplacingWrites(text: Text, now: real, actions: seq<Action>): seq<Action> {
    if actions == [] then []
    else
      var before, a := actions[..|actions| - 1], actions[|actions| - 1];
      ReplacingWrites(text, now, before)
      + match Exec(text, now, before) {
          case None => []
          case Some(s) => if Counts(s, a) && (WriteResult(s, a).Accepted? || a.stop != Some(AtSource)) then [a] else []
        }
  }

  /** Whether the last of some writes is a reviewer's; the document begins as an agent's. */
  function LastByReviewer(writes: seq<Action>): bool {
    writes != [] && writes[|writes| - 1].Write? && writes[|writes| - 1].byReviewer
  }

  function LastText(text: Text, writes: seq<Action>): Text {
    if writes != [] && writes[|writes| - 1].Write? then writes[|writes| - 1].text else text
  }

  /** What a run's writes say the document is. */
  function Latest(text: Text, replacing: seq<Action>, accepted: seq<Action>): Version {
    Version(LastText(text, replacing), LastByReviewer(replacing), LastByReviewer(accepted))
  }

  lemma VersionFollows(s: System, a: Action, text: Text, replacing: seq<Action>, accepted: seq<Action>)
    requires s.versions != [] && Counts(s, a) && s.versions[|s.versions| - 1] == Latest(text, replacing, accepted)
    ensures NewVersion(s, a) == Latest(text, replacing + (if WriteResult(s, a).Accepted? || a.stop != Some(AtSource) then [a] else []),
                                       accepted + (if WriteResult(s, a).Accepted? then [a] else []))
  {
    assert replacing + [] == replacing && accepted + [] == accepted;
  }

  lemma {:induction false} CurrentVersion(text: Text, now: real, actions: seq<Action>)
    requires Exec(text, now, actions).Some?
    ensures var versions := Exec(text, now, actions).value.versions;
            versions[|versions| - 1] == Latest(text, ReplacingWrites(text, now, actions), AcceptedWrites(text, now, actions))
  {
    if actions != [] {
      var before, a := actions[..|actions| - 1], actions[|actions| - 1];
      var s, replacing, accepted := Exec(text, now, before).value, ReplacingWrites(text, now, before), AcceptedWrites(text, now, before);
      CurrentVersion(text, now, before);
      VersionMade(text, now, before, a);
      if Counts(s, a) {
        VersionFollows(s, a, text, replacing, accepted);
      } else {
        assert replacing + [] == replacing && accepted + [] == accepted;
      }
    }
  }

  /** A write that counts makes one version, and nothing else makes any. */
  lemma VersionMade(text: Text, now: real, before: seq<Action>, a: Action)
    requires Exec(text, now, before).Some? && Enabled(Exec(text, now, before).value, a)
    ensures var s := Exec(text, now, before).value;
            Step(s, a).versions == if Counts(s, a) then s.versions + [NewVersion(s, a)] else s.versions
  {
  }

  lemma {:induction false} VersionsGrow(text: Text, now: real, actions: seq<Action>, j: nat)
    requires Exec(text, now, actions).Some? && j <= |actions|
    ensures Exec(text, now, actions[..j]).Some?
    ensures Exec(text, now, actions[..j]).value.versions <= Exec(text, now, actions).value.versions
    decreases |actions|
  {
    if j == |actions| {
      assert actions[..j] == actions;
    } else {
      var before := actions[..|actions| - 1];
      assert before[..j] == actions[..j];
      VersionsGrow(text, now, before, j);
      VersionMade(text, now, before, actions[|before|]);
    }
  }

  /** Every number of writes up to a run's own is that of one of its prefixes. */
  lemma {:induction false} PrefixOf(text: Text, now: real, actions: seq<Action>, k: nat) returns (j: nat)
    requires k <= Counted(text, now, actions)
    ensures j <= |actions| && Counted(text, now, actions[..j]) == k
  {
    if k == Counted(text, now, actions) {
      assert actions[..|actions|] == actions;
      j := |actions|;
    } else {
      var before := actions[..|actions| - 1];
      j := PrefixOf(text, now, before, k);
      assert before[..j] == actions[..j];
    }
  }

  /** The attribution over whole runs, exactly.  Let k writes have counted in the first j actions of a run;
      every round has such a j (PrefixOf).  Round k holds the text of the last write among them that reached
      the file, under the author of the last of them that was accepted.  So it names its true author if
      and only if those two writes have the same kind of author. */
  lemma AuthorIsRightIff(text: Text, now: real, actions: seq<Action>, j: nat)
    requires Exec(text, now, actions).Some? && j <= |actions|
    requires Counted(text, now, actions[..j]) in Exec(text, now, actions).value.review.history
    ensures var round := Exec(text, now, actions).value.review.history[Counted(text, now, actions[..j])];
            var replacing, accepted := ReplacingWrites(text, now, actions[..j]), AcceptedWrites(text, now, actions[..j]);
            && round.source == LastText(text, replacing)
            && round.author == AuthorKey(LastByReviewer(accepted))
            && (round.author == AuthorKey(LastByReviewer(replacing)) <==> LastByReviewer(accepted) == LastByReviewer(replacing))
  {
    EveryVersionIsKept(text, now, actions);
    VersionsGrow(text, now, actions, j);
    EveryVersionIsKept(text, now, actions[..j]);
    CurrentVersion(text, now, actions[..j]);
  }

  // ----------------------------------------------------------------------------------------------
  // Every put's answer, and what a run leaves, read off the puts themselves
  // ----------------------------------------------------------------------------------------------

  /** The revision a put expects: none, that of an earlier GET, or the number it gives. */
  predicate Expects(s: System, a: Action, n: int)
    requires a.Write? && Enabled(s, a)
  {
    match a.guard
    case Unguarded => true
    case From(i) => s.fetched[i].revision == n
    case Literal(k) => k == n
  }

  /** A put is refused if and only if it expects another number than that of the puts that counted so far,
      and is told both numbers; so one without a precondition never is.  One that is not refused counts
      unless it raised before it could. */
  lemma RefusedIff(text: Text, now: real, actions: seq<Action>, a: Action)
    requires Exec(text, now, actions).Some? && a.Write? && Enabled(Exec(text, now, actions).value, a)
    ensures var s, n := Exec(text, now, actions).value, Counted(text, now, actions);
            && (WriteResult(s, a).Refused? <==> !Expects(s, a, n))
            && (WriteResult(s, a).Refused? ==> WriteResult(s, a).stale.current == n && Expects(s, a, WriteResult(s, a).stale.expected))
            && (Counts(s, a) <==> Expects(s, a, n) && a.stop != Some(AtRound) && a.stop != Some(AtCount))
            && (a.stop == None && Expects(s, a, n) ==> WriteResult(s, a).Accepted?)
  {
    EveryVersionIsKept(text, now, actions);
  }

  /** It is accepted if it did not raise, or could only have raised at the author's key and had no need to
      write it. */
  lemma AcceptedIff(text: Text, now: real, actions: seq<Action>, a: Action)
    requires Exec(text, now, actions).Some? && a.Write? && Enabled(Exec(text, now, actions).value, a)
    ensures WriteResult(Exec(text, now, actions).value, a).Accepted? <==>
              && Expects(Exec(text, now, actions).value, a, Counted(text, now, actions))
              && (a.stop == None || (a.stop == Some(AtAuthor) && a.byReviewer == LastByReviewer(AcceptedWrites(text, now, actions))))
  {
    EveryVersionIsKept(text, now, actions);
    CurrentVersion(text, now, actions);
  }

  /** The puts of a run that counted, and those that got as far as the time of the source. */
  function CountedWrites(text: Text, now: real, actions: seq<Action>): seq<Action> {
    if actions == [] then []
    else
      var before, a := actions[..|actions| - 1], actions[|actions| - 1];
      CountedWrites(text, now, before)
      + match Exec(text, now, before) {
          case None => []
          case Some(s) => if Counts(s, a) then [a] else []
        }
  }

  function TimingWrites(text: Text, now: real, actions: seq<Action>): seq<Action> {
    if actions == [] then []
    else
      var before, a := actions[..|actions| - 1], actions[|actions| - 1];
      TimingWrites(text, now, before)
      + match Exec(text, now, before) {
          case None => []
          case Some(s) => if Counts(s, a) && a.stop != Some(AtSource) && a.stop != Some(AtBump) then [a] else []
        }
  }

  function LastNow(now: real, writes: seq<Action>): real {
    if writes != [] && writes[|writes| - 1].Write? then writes[|writes| - 1].now else now
  }

  /** Round k has the time of the put that counted as number k. */
  predicate Timed(history: map<nat, Round>, counted: seq<Action>) {
    forall k: nat :: k < |counted| ==> counted[k].Write? && k in history && history[k].ts == counted[k].ts
  }

  lemma TimedStep(s: System, a: Action, counted: seq<Action>)
    requires s.versions != [] && Enabled(s, a) && Timed(s.review.history, counted) && |counted| == s.review.revision
    ensures Timed(Step(s, a).review.history, counted + (if Counts(s, a) then [a] else []))
    ensures Step(s, a).review.sourceUpdated
            == if Counts(s, a) && a.stop != Some(AtSource) && a.stop != Some(AtBump) then a.now else s.review.sourceUpdated
  {
    assert counted + [] == counted;
  }

  /** What a run leaves: the text of the last put that reached the file, or the first text; its time, which is
      the `now` of the last put that got past it, or the creation's; the author of the last accepted put;
      the number of the puts that counted; and each one's time on the round it closed. */
  lemma {:induction false} ReviewIsWhatWasPut(text: Text, now: real, actions: seq<Action>)
    requires Exec(text, now, actions).Some?
    ensures var r := Exec(text, now, actions).value.review;
            && r.source == LastText(text, ReplacingWrites(text, now, actions))
            && r.sourceUpdated == LastNow(now, TimingWrites(text, now, actions))
            && r.updatedBy == AuthorKey(LastByReviewer(AcceptedWrites(text, now, actions)))
            && r.revision == |CountedWrites(text, now, actions)| == Counted(text, now, actions)
            && Timed(r.history, CountedWrites(text, now, actions))
  {
    EveryVersionIsKept(text, now, actions);
    CurrentVersion(text, now, actions);
    if actions != [] {
      var before, a := actions[..|actions| - 1], actions[|actions| - 1];
      ReviewIsWhatWasPut(text, now, before);
      TimedStep(Exec(text, now, before).value, a, CountedWrites(text, now, before));
      LastNowStep(now, TimingWrites(text, now, before), a);
    }
  }

  lemma LastNowStep(now: real, writes: seq<Action>, a: Action)
    ensures a.Write? ==> LastNow(now, writes + [a]) == a.now
    ensures LastNow(now, writes + []) == LastNow(now, writes)
  {
    assert writes + [] == writes;
  }

  /** How many GETs a run answers: the next one is numbered so. */
  function Gets(actions: seq<Action>): nat {
    if actions == [] then 0 else Gets(actions[..|actions| - 1]) + (if actions[|actions| - 1].Get? then 1 else 0)
  }

  lemma {:induction false} GetsAreKept(text: Text, now: real, actions: seq<Action>)
    requires Exec(text, now, actions).Some?
    ensures |Exec(text, now, actions).value.fetched| == Gets(actions)
  {
    if actions != [] {
      GetsAreKept(text, now, actions[..|actions| - 1]);
    }
  }

  lemma FetchedGrows(s: System, a: Action)
    requires Enabled(s, a) && s.versions != []
    ensures s.fetched <= Step(s, a).fetched
  {
  }

  /** What the GET at position k of a run returned: the text of that moment, and as token the number of
      writes that had counted before it. */
  lemma {:induction false} GetReturned(text: Text, now: real, actions: seq<Action>, k: nat)
    requires k < |actions| && actions[k] == Get && Exec(text, now, actions).Some?
    ensures Exec(text, now, actions[..k]).Some?
    ensures var s, i := Exec(text, now, actions).value, Gets(actions[..k]);
            && i < |s.fetched|
            && s.fetched[i] == Read(Exec(text, now, actions[..k]).value.review.source, Counted(text, now, actions[..k]))
    decreases |actions|
  {
    var before := actions[..|actions| - 1];
    if k == |before| {
      EveryVersionIsKept(text, now, before);
      GetsAreKept(text, now, before);
    } else {
      assert before[..k] == actions[..k];
      GetReturned(text, now, before, k);
      FetchedGrows(Exec(text, now, before).value, actions[|before|]);
    }
  }

  /** No lost update.  Take any run, a GET at position k of it, and a write guarded by what that GET
      returned.  It is let through if and only if no write has counted since the GET; then what it
      replaces, and archives, is exactly the text the GET returned; otherwise it changes nothing. */
  lemma GuardedWritesNeverLoseAnUpdate(text: Text, now: real, actions: seq<Action>, k: nat, a: Action)
    requires Exec(text, now, actions).Some? && k < |actions| && actions[k] == Get
    requires a.Write? && a.guard == From(Gets(actions[..k]))
    ensures Exec(text, now, actions[..k]).Some? && Enabled(Exec(text, now, actions).value, a)
    ensures var s, read := Exec(text, now, actions).value, Exec(text, now, actions[..k]).value.review.source;
            && (!WriteResult(s, a).Refused? <==> Counted(text, now, actions) == Counted(text, now, actions[..k]))
            && (!WriteResult(s, a).Refused? ==> s.review.source == read)
            && (Counts(s, a) ==>
                  && s.review.revision in Step(s, a).review.history
                  && Step(s, a).review.history[s.review.revision].source == read)
            && (WriteResult(s, a).Accepted? ==> Step(s, a).review.source == a.text)
            && (WriteResult(s, a).Refused? ==> Step(s, a) == s)
  {
    GetReturned(text, now, actions, k);
    EveryVersionIsKept(text, now, actions);
    EveryVersionIsKept(text, now, actions[..k]);
    GuardedWrite(Exec(text, now, actions).value, a);
  }

  lemma GuardedWrite(s: System, a: Action)
    requires s.versions != [] && Recorded(s) && a.Write? && a.guard.From? && Enabled(s, a)
    ensures var read := s.fetched[a.guard.i];
            && (!WriteResult(s, a).Refused? <==> read.revision == s.review.revision)
            && (!WriteResult(s, a).Refused? ==> s.review.source == read.text)
            && (Counts(s, a) ==>
                  && s.review.revision in Step(s, a).review.history
                  && Step(s, a).review.history[s.review.revision].source == read.text)
            && (WriteResult(s, a).Accepted? ==> Step(s, a).review.source == a.text)
            && (WriteResult(s, a).Refused? ==> Step(s, a) == s)
  {
  }

  /** Reading the text and the token in two separate requests would not do: another write in between
      is then overwritten by an author who never saw it, and the store accepts it. */
  lemma TornReadLosesAnUpdate(t0: Text, mine: Text, theirs: Text, now: real)
    requires t0 != theirs
    ensures var r0 := Created(t0, now);
            var readText := r0.source;
            var r1 := Put(r0, theirs, None, "agent", None, now, now).review;
            var readToken := r1.revision;
            var last := Put(r1, mine, Some(readToken), "agent", None, now, now);
            last.Accepted? && r1.source != readText && last.review.source == mine
  {
  }

  /** A put that raises at its last write leaves a reviewer's text marked as an agent's. */
  lemma LateStopMisattributes(t0: Text, mine: Text, now: real)
    ensures var r := Put(Created(t0, now), mine, None, "reviewer", Some(AtAuthor), now, now);
            r.Raised? && r.review.source == mine && r.review.updatedBy == None
  {
  }
}
