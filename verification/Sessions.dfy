/**
  The session cookie (src/mdreview/hosted/sessions.py) over the session rows, and revocation over
  whole runs.
 */
module Sessions {
  import opened Common
  import opened Base64Url
  import opened Tokens
  import opened IdentityStore

  // ----------------------------------------------------------------------------------------------
  // The service
  // ----------------------------------------------------------------------------------------------

  datatype SessionData = SessionData(uid: Uid, email: string, iat: real, exp: real, csrf: string, jti: Jti)

  function Minted(uid: Uid, email: string, now: real, ttl: real, csrf: string, jti: Jti): Claims {
    Claims(Some(uid), Some(email), Some(now), Num(now + ttl), Some(csrf), Some(jti))
  }

  /** verify; `rows` is None when the service has no record store. */
  function Verified(c: Codec, rows: Option<Sessions>, cookie: string, now: real): Option<SessionData> {
    match Open(c, cookie)
    case None => None
    case Some(p) =>
      if p.uid.GetOr("") == "" || Expiry(p) == None || Expiry(p).value <= now then None
      else
        var jti := p.jti.GetOr("");
        if jti != "" && rows.Some? && !Live(rows.value, jti, now) then None
        else Some(SessionData(p.uid.value, p.email.GetOr(""), p.iat.GetOr(0.0), Expiry(p).value, p.csrf.GetOr(""), jti))
  }

  class SessionService {
    const codec: Codec
    const ttl: real
    const records: IdentityStore?

    constructor (codec: Codec, ttl: real, records: IdentityStore?)
      ensures this.codec == codec && this.ttl == ttl && this.records == records
    {
      this.codec, this.ttl, this.records := codec, ttl, records;
    }

    function Rows(): Option<Sessions>
      reads records
    {
      if records == null then None else Some(records.sessions)
    }

    /** mint: the row is written before the cookie is returned. */
    method Mint(uid: Uid, email: string, now: real, ip: string, userAgent: string, csrf: string, jti: Jti) returns (cookie: string)
      modifies if records == null then {} else {records}
      ensures cookie == Token(codec, Minted(uid, email, now, ttl, csrf, jti))
      ensures records != null ==>
                && records.sessions == old(records.sessions)[jti := Session(uid, now, now, now + ttl, ip, userAgent, false)]
                && records.nonces == old(records.nonces) && records.sendLog == old(records.sendLog)
    {
      var exp := now + ttl;
      var payload := Claims(Some(uid), Some(email), Some(now), Num(exp), Some(csrf), Some(jti));
      var encoded := Encode(codec.dumps(payload));
      if records != null {
        records.SessionCreate(jti, uid, exp, ip, userAgent, now);
      }
      cookie := encoded + "." + Mac(codec, encoded);
    }

    method Verify(cookie: string, now: real) returns (session: Option<SessionData>)
      ensures session == Verified(codec, Rows(), cookie, now)
    {
      var claims := Open(codec, cookie);
      if claims == None {
        return None;
      }
      var p := claims.value;
      if p.uid == None || p.uid == Some("") {
        return None;
      }
      var exp := 0.0;
      match p.exp {
        case Absent =>
        case Num(x) => exp := x;
        case NotANumber => return None;
      }
      if exp <= now {
        return None;
      }
      var jti := p.jti.GetOr("");
      if jti != "" && records != null {
        var live := records.SessionLive(jti, now);
        if !live {
          return None;
        }
      }
      session := Some(SessionData(p.uid.value, p.email.GetOr(""), p.iat.GetOr(0.0), exp, p.csrf.GetOr(""), jti));
    }
  }

  // ----------------------------------------------------------------------------------------------
  // Runs over the session rows
  // ----------------------------------------------------------------------------------------------

  /** The statements that change the rows, in the order of their transactions.  Touch is the UPDATE of any
      session_touch, whatever its SELECT had seen. */
  datatype Op =
    | Create(jti: Jti, uid: Uid, expiresAt: real, ip: string, userAgent: string, now: real)
    | Touch(jti: Jti, now: real)
    | Revoke(jti: Jti, scope: Option<Uid>)
    | RevokeAll(uid: Uid, spared: Jti)
    | Prune(now: real)

  function Step(rows: Sessions, op: Op): Sessions {
    match op
    case Create(jti, uid, expiresAt, ip, userAgent, now) => rows[jti := Session(uid, now, now, expiresAt, ip, userAgent, false)]
    case Touch(jti, now) => if jti in rows then rows[jti := rows[jti].(lastSeen := now)] else rows
    case Revoke(jti, scope) => Revoked(rows, jti, scope)
    case RevokeAll(uid, spared) => RevokedAll(rows, uid, spared)
    case Prune(now) => PrunedSessions(rows, now)
  }

  function Exec(ops: seq<Op>): Sessions {
    if ops == [] then map[] else Step(Exec(ops[..|ops| - 1]), ops[|ops| - 1])
  }

  /** What became of a session, read off the requests alone. */
  datatype Fate = Unknown | Standing(uid: Uid, expiresAt: real) | Ended

  function After(fate: Fate, op: Op, jti: Jti): Fate {
    match op
    case Create(j, uid, expiresAt, _, _, _) => if j == jti then Standing(uid, expiresAt) else fate
    case Revoke(j, scope) => if j == jti && fate.Standing? && (scope == None || scope.value == fate.uid) then Ended else fate
    case RevokeAll(uid, spared) => if fate.Standing? && fate.uid == uid && (spared == "" || spared != jti) then Ended else fate
    case Touch(_, _) => fate
    case Prune(_) => fate
  }

  function FateOf(ops: seq<Op>, jti: Jti): Fate {
    if ops == [] then Unknown else After(FateOf(ops[..|ops| - 1], jti), ops[|ops| - 1], jti)
  }

  /** Every prune so far was done at or before `now`. */
  predicate PrunedBy(ops: seq<Op>, now: real) {
    forall k :: 0 <= k < |ops| && ops[k].Prune? ==> ops[k].now <= now
  }

  /** A row tells its session's fate; only an expired one may be missing. */
  predicate RowTells(rows: Sessions, fate: Fate, jti: Jti, now: real) {
    && (jti in rows ==>
          || (fate.Standing? && rows[jti].uid == fate.uid && rows[jti].expiresAt == fate.expiresAt && !rows[jti].revoked)
          || (fate.Ended? && rows[jti].revoked))
    && (fate.Standing? && jti !in rows ==> fate.expiresAt <= now)
  }

  lemma {:induction false} RowsTell(ops: seq<Op>, jti: Jti, now: real)
    requires PrunedBy(ops, now)
    ensures RowTells(Exec(ops), FateOf(ops, jti), jti, now)
  {
    if ops != [] {
      assert ops[|ops| - 1].Prune? ==> ops[|ops| - 1].now <= now;
      RowsTell(ops[..|ops| - 1], jti, now);
    }
  }

  /** Over every run: a session may authenticate if and only if it was created, no revocation has hit
      it since, and it has not expired.  Touching and pruning never matter. */
  lemma LiveIff(ops: seq<Op>, jti: Jti, now: real)
    requires PrunedBy(ops, now)
    ensures Live(Exec(ops), jti, now) <==> FateOf(ops, jti).Standing? && FateOf(ops, jti).expiresAt > now
  {
    RowsTell(ops, jti, now);
  }

  /** How a session ends: a revocation that reports success, for anyone in its scope, or a sign-out
      everywhere of its account that does not spare it. */
  lemma RevocationEnds(ops: seq<Op>, jti: Jti, scope: Option<Uid>, spared: Jti)
    requires jti in Exec(ops)
    ensures scope == None || scope.value == Exec(ops)[jti].uid ==> FateOf(ops + [Revoke(jti, scope)], jti) == Ended
    ensures spared == "" || spared != jti ==> FateOf(ops + [RevokeAll(Exec(ops)[jti].uid, spared)], jti) == Ended
  {
    var latest := LatestPrune(ops);
    RowsTell(ops, jti, latest);
    assert (ops + [Revoke(jti, scope)])[..|ops|] == ops;
    assert (ops + [RevokeAll(Exec(ops)[jti].uid, spared)])[..|ops|] == ops;
  }

  function LatestPrune(ops: seq<Op>): (now: real)
    ensures PrunedBy(ops, now)
  {
    if ops == [] then 0.0
    else
      var before, op := LatestPrune(ops[..|ops| - 1]), ops[|ops| - 1];
      if op.Prune? && op.now > before then op.now else before
  }

  /** The time of the last touch of the session after position j, or else of its creation there. */
  function LastSeen(ops: seq<Op>, j: nat, jti: Jti): real
    requires j < |ops| && ops[j].Create?
  {
    if j == |ops| - 1 then ops[j].now
    else
      var last := ops[|ops| - 1];
      if last.Touch? && last.jti == jti then last.now else LastSeen(ops[..|ops| - 1], j, jti)
  }

  /** Request j created the session, and none has since. */
  predicate CreatedLast(ops: seq<Op>, j: nat, jti: Jti) {
    && j < |ops| && ops[j].Create? && ops[j].jti == jti
    && forall k :: j < k < |ops| ==> !(ops[k].Create? && ops[k].jti == jti)
  }

  predicate PrunedSince(ops: seq<Op>, j: nat, expiresAt: real) {
    exists k :: j < k < |ops| && ops[k].Prune? && ops[k].now >= expiresAt
  }

  /** The row of a session that request j created: what it was created with, and whether it has ended. */
  predicate RowAsAsked(rows: map<Jti, Session>, fate: Fate, c: Op, jti: Jti, lastSeen: real, pruned: bool)
    requires c.Create?
  {
    && (jti in rows <==> !pruned)
    && (jti in rows ==> rows[jti] == Session(c.uid, c.now, lastSeen, c.expiresAt, c.ip, c.userAgent, fate == Ended))
    && (fate == Ended || fate == Standing(c.uid, c.expiresAt))
  }

  lemma RowStep(rows: map<Jti, Session>, fate: Fate, c: Op, jti: Jti, lastSeen: real, pruned: bool, op: Op)
    requires c.Create? && RowAsAsked(rows, fate, c, jti, lastSeen, pruned) && !(op.Create? && op.jti == jti)
    ensures RowAsAsked(Step(rows, op), After(fate, op, jti), c, jti, if op.Touch? && op.jti == jti then op.now else lastSeen,
                       pruned || (op.Prune? && op.now >= c.expiresAt))
  {
  }

  /** The rows themselves, over every run: a session has a row from its creation until a prune at or past
      its expiry; the row keeps what the session was created with, the time of its last touch, and
      whether it has ended. */
  lemma {:induction false} RowIsWhatWasAsked(ops: seq<Op>, j: nat, jti: Jti)
    requires CreatedLast(ops, j, jti)
    ensures RowAsAsked(Exec(ops), FateOf(ops, jti), ops[j], jti, LastSeen(ops, j, jti), PrunedSince(ops, j, ops[j].expiresAt))
    decreases |ops|
  {
    var n := |ops| - 1;
    if j < n {
      var before := ops[..n];
      assert forall k :: 0 <= k < n ==> before[k] == ops[k];
      RowIsWhatWasAsked(before, j, jti);
      assert PrunedSince(ops, j, ops[j].expiresAt) <==>
             PrunedSince(before, j, ops[j].expiresAt) || (ops[n].Prune? && ops[n].now >= ops[j].expiresAt);
      RowStep(Exec(before), FateOf(before, jti), ops[j], jti, LastSeen(before, j, jti), PrunedSince(before, j, ops[j].expiresAt), ops[n]);
    }
  }

  predicate NeverCreated(ops: seq<Op>, jti: Jti) {
    forall k :: 0 <= k < |ops| ==> !(ops[k].Create? && ops[k].jti == jti)
  }

  lemma {:induction false} EndedStays(ops: seq<Op>, more: seq<Op>, jti: Jti)
    requires FateOf(ops, jti) == Ended && NeverCreated(more, jti)
    ensures FateOf(ops + more, jti) == Ended
    decreases |more|
  {
    if more == [] {
      assert ops + more == ops;
    } else {
      EndedStays(ops, more[..|more| - 1], jti);
      assert (ops + more)[..|ops + more| - 1] == ops + more[..|more| - 1];
    }
  }

  /** Revocation is permanent: once a session has ended, no later sequence of creations of other
      sessions, touches, revocations and prunes, and no clock, makes any cookie that carries it
      verify. */
  lemma RevokedForever(c: Codec, ops: seq<Op>, more: seq<Op>, jti: Jti, cookie: string, now: real)
    requires FateOf(ops, jti) == Ended && NeverCreated(more, jti) && jti != ""
    requires Open(c, cookie).Some? && Open(c, cookie).value.jti == Some(jti)
    ensures !Live(Exec(ops + more), jti, now) && Verified(c, Some(Exec(ops + more)), cookie, now) == None
  {
    EndedStays(ops, more, jti);
    RowsTell(ops + more, jti, LatestPrune(ops + more));
  }

  lemma {:induction false} StandingUnchanged(ops: seq<Op>, more: seq<Op>, jti: Jti)
    requires FateOf(ops, jti).Standing? && NeverCreated(more, jti)
    ensures FateOf(ops + more, jti) == FateOf(ops, jti) || FateOf(ops + more, jti) == Ended
    decreases |more|
  {
    if more == [] {
      assert ops + more == ops;
    } else {
      StandingUnchanged(ops, more[..|more| - 1], jti);
      assert (ops + more)[..|ops + more| - 1] == ops + more[..|more| - 1];
    }
  }

  /** A minted cookie verifies back to the fields it was minted with exactly while its session stands
      and its lifetime lasts, whatever else happens in between; and at no other time. */
  lemma MintedVerifies(c: Codec, ops: seq<Op>, more: seq<Op>, uid: Uid, email: string, minted: real, ttl: real, csrf: string, jti: Jti,
                       ip: string, userAgent: string, now: real)
    requires Faithful(c, Minted(uid, email, minted, ttl, csrf, jti)) && uid != "" && jti != ""
    requires NeverCreated(more, jti)
    requires PrunedBy(ops + [Create(jti, uid, minted + ttl, ip, userAgent, minted)] + more, now)
    ensures var run := ops + [Create(jti, uid, minted + ttl, ip, userAgent, minted)] + more;
            Verified(c, Some(Exec(run)), Token(c, Minted(uid, email, minted, ttl, csrf, jti)), now) ==
            if FateOf(run, jti) != Ended && minted + ttl > now
            then Some(SessionData(uid, email, minted, minted + ttl, csrf, jti)) else None
  {
    MintedOpens(c, Minted(uid, email, minted, ttl, csrf, jti));
    var created := ops + [Create(jti, uid, minted + ttl, ip, userAgent, minted)];
    assert created[..|created| - 1] == ops;
    assert FateOf(created, jti) == Standing(uid, minted + ttl);
    StandingUnchanged(created, more, jti);
    LiveIff(created + more, jti, now);
  }

  /** The sliding refresh: the new session is live, the superseded one has ended, and no other
      session of anybody is affected. */
  lemma RefreshReplaces(ops: seq<Op>, superseded: Jti, successor: Jti, ttl: real, ip: string, userAgent: string, now: real)
    requires Live(Exec(ops), superseded, now) && successor != superseded && ttl > 0.0 && PrunedBy(ops, now)
    ensures var uid := Exec(ops)[superseded].uid;
            var run := ops + [Create(successor, uid, now + ttl, ip, userAgent, now), Revoke(superseded, Some(uid))];
            && FateOf(run, superseded) == Ended
            && Live(Exec(run), successor, now) && !Live(Exec(run), superseded, now)
            && (forall j :: j != superseded && j != successor ==> FateOf(run, j) == FateOf(ops, j))
  {
    var uid := Exec(ops)[superseded].uid;
    var create, revoke := Create(successor, uid, now + ttl, ip, userAgent, now), Revoke(superseded, Some(uid));
    var mid, run := ops + [create], ops + [create, revoke];
    assert mid[..|ops|] == ops && run[..|mid|] == mid && run == mid + [revoke];
    LiveIff(ops, superseded, now);
    RowsTell(ops, superseded, now);
    forall j
      ensures FateOf(run, j) == After(After(FateOf(ops, j), create, j), revoke, j)
    {
    }
    LiveIff(run, successor, now);
    LiveIff(run, superseded, now);
  }
}
