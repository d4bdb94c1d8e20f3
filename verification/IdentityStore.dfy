/**
  The tables behind sign-in (src/mdreview/hosted/identity_store.py): the consumed magic-link nonces,
  the log of sent links, and the per-device session rows.  Every clock reading is an argument.  A method's
  clock is read before its SQL transaction, and session_touch selects before the transaction its
  update opens, so other threads can come between; the models of whole runs take these steps apart.
 */
module IdentityStore {
  import opened Common
  import opened RollingWindow

  type Jti = string
  type Uid = string

  const Day := 86400.0
  const LastSeenThrottle := 300.0

  datatype Send = Send(email: string, ip: string, ts: real)

  datatype Session = Session(uid: Uid, created: real, lastSeen: real, expiresAt: real, ip: string, userAgent: string, revoked: bool)

  type Nonces = map<Jti, real>
  type Sessions = map<Jti, Session>

  // ----------------------------------------------------------------------------------------------
  // What each statement does to its table
  // ----------------------------------------------------------------------------------------------

  function Unexpired(nonces: Nonces, now: real): Nonces {
    map j | j in nonces && nonces[j] >= now :: nonces[j]
  }

  /** The row is inserted unless an unexpired row of the same nonce is there. */
  function Consumed(nonces: Nonces, jti: Jti, expiresAt: real, now: real): Nonces {
    var kept := Unexpired(nonces, now);
    if jti in kept then kept else kept[jti := expiresAt]
  }

  /** DELETE FROM send_log WHERE ts < cutoff */
  function Kept(log: seq<Send>, cutoff: real): seq<Send> {
    if log == [] then []
    else
      var front, s := Kept(log[..|log| - 1], cutoff), log[|log| - 1];
      if s.ts < cutoff then front else front + [s]
  }

  function Logged(log: seq<Send>, email: string, ip: string, now: real): seq<Send> {
    Kept(log, now - 2.0 * Day) + [Send(email, ip, now)]
  }

  predicate Selected(s: Send, email: Option<string>, ip: Option<string>) {
    (email == None || email == Some(s.email)) && (ip == None || ip == Some(s.ip))
  }

  /** SELECT COUNT(*) with the optional filters */
  function Count(log: seq<Send>, since: real, email: Option<string>, ip: Option<string>): nat {
    if log == [] then 0
    else
      var s := log[|log| - 1];
      Count(log[..|log| - 1], since, email, ip) + (if s.ts >= since && Selected(s, email, ip) then 1 else 0)
  }

  predicate Live(rows: Sessions, jti: Jti, now: real) {
    jti in rows && !rows[jti].revoked && rows[jti].expiresAt > now
  }

  function Touched(rows: Sessions, jti: Jti, now: real): Sessions {
    if jti !in rows || now - rows[jti].lastSeen < LastSeenThrottle then rows
    else rows[jti := rows[jti].(lastSeen := now)]
  }

  function Revoked(rows: Sessions, jti: Jti, uid: Option<Uid>): Sessions {
    if jti in rows && (uid == None || uid.value == rows[jti].uid) then rows[jti := rows[jti].(revoked := true)] else rows
  }

  predicate Struck(rows: Sessions, jti: Jti, uid: Uid, spared: Jti) {
    jti in rows && rows[jti].uid == uid && (spared == "" || jti != spared) && !rows[jti].revoked
  }

  function RevokedAll(rows: Sessions, uid: Uid, spared: Jti): Sessions {
    map j | j in rows :: if Struck(rows, j, uid, spared) then rows[j].(revoked := true) else rows[j]
  }

  function PrunedSessions(rows: Sessions, now: real): Sessions {
    map j | j in rows && rows[j].expiresAt > now :: rows[j]
  }

  class IdentityStore {
    var nonces: Nonces
    var sendLog: seq<Send>
    var sessions: Sessions

    constructor ()
      ensures nonces == map[] && sendLog == [] && sessions == map[]
    {
      nonces, sendLog, sessions := map[], [], map[];
    }

    /** consume_nonce: the prune stands even when the claim is refused. */
    method ConsumeNonce(jti: Jti, expiresAt: real, now: real) returns (claimed: bool)
      modifies `nonces
      ensures claimed <==> jti !in Unexpired(old(nonces), now)
      ensures nonces == Consumed(old(nonces), jti, expiresAt, now)
    {
      nonces := map j | j in nonces && !(nonces[j] < now) :: nonces[j];
      if jti in nonces {
        return false;
      }
      nonces := nonces[jti := expiresAt];
      claimed := true;
    }

    method RecordSend(email: string, ip: string, now: real)
      modifies `sendLog
      ensures sendLog == Logged(old(sendLog), email, ip, now)
    {
      sendLog := Kept(sendLog, now - 2.0 * Day);
      sendLog := sendLog + [Send(email, ip, now)];
    }

    method CountSends(since: real, email: Option<string>, ip: Option<string>) returns (n: nat)
      ensures n == Count(sendLog, since, email, ip)
    {
      n := Count(sendLog, since, email, ip);
    }

    /** session_create: INSERT OR REPLACE */
    method SessionCreate(jti: Jti, uid: Uid, expiresAt: real, ip: string, userAgent: string, now: real)
      modifies `sessions
      ensures sessions == old(sessions)[jti := Session(uid, now, now, expiresAt, ip, userAgent, false)]
    {
      sessions := sessions[jti := Session(uid, now, now, expiresAt, ip, userAgent, false)];
    }

    method SessionLive(jti: Jti, now: real) returns (live: bool)
      ensures live <==> jti != "" && Live(sessions, jti, now)
    {
      if jti == "" {
        return false;
      }
      if jti !in sessions {
        return false;
      }
      var row := sessions[jti];
      live := !row.revoked && row.expiresAt > now;
    }

    /** session_touch, throttled, with nobody between its SELECT and its UPDATE: afterwards last_seen is less
        than 300 s old. */
    method SessionTouch(jti: Jti, now: real) returns (written: bool)
      modifies `sessions
      ensures sessions == Touched(old(sessions), jti, now) && (written <==> sessions != old(sessions))
      ensures jti in sessions ==> now - sessions[jti].lastSeen < LastSeenThrottle
      ensures written ==> sessions[jti].lastSeen - old(sessions)[jti].lastSeen >= LastSeenThrottle
    {
      if jti !in sessions || now - sessions[jti].lastSeen < LastSeenThrottle {
        return false;
      }
      sessions := sessions[jti := sessions[jti].(lastSeen := now)];
      written := true;
      assert sessions[jti].lastSeen != old(sessions)[jti].lastSeen;
    }

    method SessionRevoke(jti: Jti, uid: Option<Uid>) returns (done: bool)
      modifies `sessions
      ensures sessions == Revoked(old(sessions), jti, uid)
      ensures done <==> jti in old(sessions) && (uid == None || uid.value == old(sessions)[jti].uid)
    {
      done := jti in sessions && (uid == None || sessions[jti].uid == uid.value);
      if done {
        sessions := sessions[jti := sessions[jti].(revoked := true)];
      }
    }

    /** session_revoke_all: the answer is how many rows it ended. */
    method SessionRevokeAll(uid: Uid, spared: Jti) returns (n: nat)
      modifies `sessions
      ensures sessions == RevokedAll(old(sessions), uid, spared)
      ensures n == |set j | j in old(sessions) && old(sessions)[j] != sessions[j]|
    {
      ghost var changed := set j | j in sessions && sessions[j] != RevokedAll(sessions, uid, spared)[j];
      var hit := set j | j in sessions && Struck(sessions, j, uid, spared);
      assert hit == changed;
      n := |hit|;
      sessions := map j | j in sessions :: if j in hit then sessions[j].(revoked := true) else sessions[j];
    }

    method SessionsPrune(now: real) returns (n: nat)
      modifies `sessions
      ensures sessions == PrunedSessions(old(sessions), now)
      ensures n == |old(sessions).Keys - sessions.Keys|
    {
      var gone := set j | j in sessions && sessions[j].expiresAt <= now;
      sessions := sessions - gone;
      n := |gone|;
      assert gone == old(sessions).Keys - sessions.Keys;
    }
  }

  // ----------------------------------------------------------------------------------------------
  // The send log
  // ----------------------------------------------------------------------------------------------

  /** The times of the selected sends, in order. */
  function Stamps(log: seq<Send>, email: Option<string>, ip: Option<string>): seq<real> {
    if log == [] then []
    else
      var front, s := Stamps(log[..|log| - 1], email, ip), log[|log| - 1];
      if Selected(s, email, ip) then front + [s.ts] else front
  }

  lemma {:induction false} CountIsSince(log: seq<Send>, since: real, email: Option<string>, ip: Option<string>)
    ensures Count(log, since, email, ip) == Since(Stamps(log, email, ip), since)
  {
    if log != [] {
      CountIsSince(log[..|log| - 1], since, email, ip);
      SinceRecord(Stamps(log[..|log| - 1], email, ip), log[|log| - 1].ts, since);
    }
  }

  /** The sends to an address, from an IP, or to or from anyone, in a window, by their place in the log. */
  function SendsWithin(log: seq<Send>, email: Option<string>, ip: Option<string>, x: real, w: real): set<int> {
    set k | 0 <= k < |log| && (email.Some? ==> log[k].email == email.value) && (ip.Some? ==> log[k].ip == ip.value) && x <= log[k].ts <= x + w
  }

  lemma SendsWithinMore(log: seq<Send>, email: Option<string>, ip: Option<string>, x: real, w: real)
    requires log != []
    ensures var n := |log| - 1;
            SendsWithin(log, email, ip, x, w)
            == SendsWithin(log[..n], email, ip, x, w)
               + (if (email.Some? ==> log[n].email == email.value) && (ip.Some? ==> log[n].ip == ip.value) && x <= log[n].ts <= x + w then {n} else {})
  {
  }

  lemma {:induction false} SendsAreCounted(log: seq<Send>, email: Option<string>, ip: Option<string>, x: real, w: real)
    ensures InWindow(Stamps(log, email, ip), x, w) == |SendsWithin(log, email, ip, x, w)|
  {
    if log != [] {
      var before, s := log[..|log| - 1], log[|log| - 1];
      SendsAreCounted(before, email, ip, x, w);
      SendsWithinMore(log, email, ip, x, w);
      if (email.Some? ==> s.email == email.value) && (ip.Some? ==> s.ip == ip.value) {
        assert (Stamps(before, email, ip) + [s.ts])[..|Stamps(before, email, ip)|] == Stamps(before, email, ip);
      }
    }
  }

  lemma StampsRecord(log: seq<Send>, s: Send, email: Option<string>, ip: Option<string>)
    ensures Stamps(log + [s], email, ip) ==
            if Selected(s, email, ip) then Stamps(log, email, ip) + [s.ts] else Stamps(log, email, ip)
  {
    assert (log + [s])[..|log|] == log;
  }

  lemma KeptRecord(log: seq<Send>, s: Send, cutoff: real)
    ensures Kept(log + [s], cutoff) == if s.ts < cutoff then Kept(log, cutoff) else Kept(log, cutoff) + [s]
  {
    assert (log + [s])[..|log|] == log;
  }

  lemma CountRecord(log: seq<Send>, s: Send, since: real, email: Option<string>, ip: Option<string>)
    ensures Count(log + [s], since, email, ip) ==
            Count(log, since, email, ip) + (if s.ts >= since && Selected(s, email, ip) then 1 else 0)
  {
    assert (log + [s])[..|log|] == log;
  }

  /** Two prunes are the later one. */
  lemma {:induction false} KeptTwice(log: seq<Send>, a: real, b: real)
    requires a <= b
    ensures Kept(Kept(log, a), b) == Kept(log, b)
  {
    if log != [] {
      var front, s := log[..|log| - 1], log[|log| - 1];
      KeptTwice(front, a, b);
      if s.ts >= a {
        KeptRecord(Kept(front, a), s, b);
      }
    }
  }

  /** A prune never changes a count that does not look back past it. */
  lemma {:induction false} PruneKeepsCounts(log: seq<Send>, cutoff: real, since: real, email: Option<string>, ip: Option<string>)
    requires cutoff <= since
    ensures Count(Kept(log, cutoff), since, email, ip) == Count(log, since, email, ip)
  {
    if log != [] {
      var front, s := log[..|log| - 1], log[|log| - 1];
      PruneKeepsCounts(front, cutoff, since, email, ip);
      if s.ts >= cutoff {
        CountRecord(Kept(front, cutoff), s, since, email, ip);
      }
    }
  }
}
