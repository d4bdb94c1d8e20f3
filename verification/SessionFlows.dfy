/**
  Sessions under concurrent requests (src/mdreview/hosted/authroutes.py): the sliding refresh verifies,
  mints and revokes in three steps, a sign-out everywhere verifies and revokes in two, and no lock
  keeps them together.  A cookie from before the session rows, without a jti, verifies on its own.
 */
module SessionFlows {
  import opened Common
  import opened Tokens
  import opened IdentityStore
  import opened Sessions

  /** How a request has shown who it is: by a row, or by a cookie without a jti and its expiry. */
  datatype Proof = Row(jti: Jti) | Bare(expiresAt: real)

  /** A request: verified, and on its way to a refresh or to a sign-out everywhere; its refresh minted and
      not yet ended; or done. */
  datatype Request = Checked(proof: Proof, uid: Uid, iat: real, leaving: bool) | Minted(proof: Proof, uid: Uid) | Done

  /** A cookie without a jti. */
  datatype BareCookie = BareCookie(uid: Uid, iat: real, expiresAt: real)

  /** `ops` is every statement so far; the rows are what they make.  `bare` are the cookies without a jti;
      there will be no more of them.  A session is refreshed once it is `refreshAfter` old. */
  datatype Flow = Flow(ops: seq<Op>, requests: seq<Request>, bare: set<BareCookie>, refreshAfter: real, clock: real)

  datatype Event =
    | Tick(now: real)
    | Login(jti: Jti, uid: Uid, expiresAt: real, ip: string, userAgent: string, now: real)
    | CheckRow(jti: Jti, now: real, leaving: bool)          // a new request, by a cookie with a jti
    | CheckBare(cookie: BareCookie, leaving: bool)          // a new request, by one without
    | Mint(t: nat, jti: Jti, expiresAt: real, ip: string, userAgent: string, now: real)
    | End(t: nat)
    | SignOut(t: nat)
    | Other(op: Op)                                         // a touch, a single revocation, a prune

  predicate Enabled(f: Flow, e: Event) {
    match e
    case Tick(now) => now >= f.clock
    case Login(jti, _, _, _, _, _) => jti != "" && FateOf(f.ops, jti) == Unknown
    case CheckRow(jti, now, _) => jti != "" && Live(Exec(f.ops), jti, now)
    case CheckBare(cookie, _) => cookie in f.bare && cookie.expiresAt > f.clock
    case Mint(t, jti, _, _, _, _) =>
      && t < |f.requests| && f.requests[t].Checked? && !f.requests[t].leaving
      && f.clock - f.requests[t].iat >= f.refreshAfter
      && jti != "" && FateOf(f.ops, jti) == Unknown
    case End(t) => t < |f.requests| && f.requests[t].Minted?
    case SignOut(t) => t < |f.requests| && f.requests[t].Checked? && f.requests[t].leaving
    case Other(op) => op.Touch? || op.Revoke? || op.Prune?
  }

  /** The session a sign-out spares: the caller's own, or none if its cookie has no jti. */
  function Spared(p: Proof): Jti {
    match p
    case Row(jti) => jti
    case Bare(_) => ""
  }

  /** The statement an event runs, if any.  A refresh of a cookie without a jti ends nothing. */
  function Statement(f: Flow, e: Event): Option<Op>
    requires Enabled(f, e)
  {
    match e
    case Login(jti, uid, expiresAt, ip, userAgent, now) => Some(Create(jti, uid, expiresAt, ip, userAgent, now))
    case Mint(t, jti, expiresAt, ip, userAgent, now) => Some(Create(jti, f.requests[t].uid, expiresAt, ip, userAgent, now))
    case End(t) => if f.requests[t].proof.Row? then Some(Revoke(f.requests[t].proof.jti, Some(f.requests[t].uid))) else None
    case SignOut(t) => Some(RevokeAll(f.requests[t].uid, Spared(f.requests[t].proof)))
    case Other(op) => Some(op)
    case _ => None
  }

  function Requests(f: Flow, e: Event): seq<Request>
    requires Enabled(f, e)
  {
    match e
    case CheckRow(jti, _, leaving) => f.requests + [Checked(Row(jti), Exec(f.ops)[jti].uid, Exec(f.ops)[jti].created, leaving)]
    case CheckBare(cookie, leaving) => f.requests + [Checked(Bare(cookie.expiresAt), cookie.uid, cookie.iat, leaving)]
    case Mint(t, _, _, _, _, _) => f.requests[t := Minted(f.requests[t].proof, f.requests[t].uid)]
    case End(t) => f.requests[t := Done]
    case SignOut(t) => f.requests[t := Done]
    case _ => f.requests
  }

  function Next(f: Flow, e: Event): Flow
    requires Enabled(f, e)
  {
    var ops := match Statement(f, e) case None => f.ops case Some(op) => f.ops + [op];
    Flow(ops, Requests(f, e), f.bare, f.refreshAfter, if e.Tick? then e.now else f.clock)
  }

  function Play(start: Flow, events: seq<Event>): Option<Flow> {
    if events == [] then Some(start)
    else
      match Play(start, events[..|events| - 1])
      case None => None
      case Some(f) =>
        var e := events[|events| - 1];
        if Enabled(f, e) then Some(Next(f, e)) else None
  }

  /** The two ways to be verified are those of the service: a genuine cookie of an account verifies if and
      only if it has not expired and names no session or one with a live row. */
  lemma VerifiedIff(c: Codec, rows: map<Jti, Session>, cookie: string, now: real)
    requires Open(c, cookie).Some? && Open(c, cookie).value.uid.GetOr("") != ""
    ensures var p := Open(c, cookie).value;
            var jti := p.jti.GetOr("");
            Verified(c, Some(rows), cookie, now).Some? <==>
              Expiry(p).Some? && Expiry(p).value > now && (jti == "" || Live(rows, jti, now))
  {
  }

  // ----------------------------------------------------------------------------------------------
  // What stands
  // ----------------------------------------------------------------------------------------------

  /** A session of the account stands. */
  predicate Stands(f: Flow, jti: Jti, uid: Uid) {
    var fate := FateOf(f.ops, jti);
    fate.Standing? && fate.uid == uid
  }

  ghost predicate SignedOut(f: Flow, uid: Uid) {
    forall jti :: !Stands(f, jti, uid)
  }

  /** Request t of the account is between its verification and the mint of its refresh. */
  predicate Refreshing(f: Flow, t: nat, uid: Uid) {
    t < |f.requests| && f.requests[t].Checked? && !f.requests[t].leaving && f.requests[t].uid == uid
  }

  ghost predicate UnderWay(f: Flow, uid: Uid) {
    exists t: nat :: Refreshing(f, t, uid)
  }

  /** A cookie of the account without a jti has not expired. */
  predicate BareLeft(f: Flow, uid: Uid) {
    exists b :: b in f.bare && b.uid == uid && b.expiresAt > f.clock
  }

  predicate NoLogin(events: seq<Event>, uid: Uid) {
    forall e :: e in events && e.Login? ==> e.uid != uid
  }

  lemma FateNext(f: Flow, e: Event, jti: Jti)
    requires Enabled(f, e)
    ensures FateOf(Next(f, e).ops, jti) == match Statement(f, e) case None => FateOf(f.ops, jti) case Some(op) => After(FateOf(f.ops, jti), op, jti)
  {
    if Statement(f, e).Some? {
      assert (f.ops + [Statement(f, e).value])[..|f.ops|] == f.ops;
    }
  }

  /** Only a live row can be verified, so its session stands, for the account the row names. */
  lemma VerifiedStands(f: Flow, jti: Jti, now: real)
    requires Live(Exec(f.ops), jti, now)
    ensures Stands(f, jti, Exec(f.ops)[jti].uid)
  {
    RowsTell(f.ops, jti, LatestPrune(f.ops));
  }

  /** A sign-out everywhere leaves of the account's sessions at most the spared one. */
  lemma SignOutEnds(f: Flow, t: nat, jti: Jti)
    requires Enabled(f, SignOut(t))
    ensures Stands(Next(f, SignOut(t)), jti, f.requests[t].uid) ==> jti == Spared(f.requests[t].proof) && f.requests[t].proof.Row?
    ensures forall k: nat, uid :: Refreshing(Next(f, SignOut(t)), k, uid) ==> Refreshing(f, k, uid)
  {
    FateNext(f, SignOut(t), jti);
  }

  /** What a sign-out everywhere ends and what it does not, session by session: every session of the account
      but the caller's own, if its cookie names one, and none of any other account. */
  lemma SignOutSpares(f: Flow, t: nat, jti: Jti, uid: Uid)
    requires Enabled(f, SignOut(t)) && jti != "" && (f.requests[t].proof.Row? ==> f.requests[t].proof.jti != "")
    ensures Stands(Next(f, SignOut(t)), jti, uid) <==>
              Stands(f, jti, uid) && (uid != f.requests[t].uid || f.requests[t].proof == Row(jti))
    ensures forall cookie :: Enabled(f, CheckBare(cookie, false)) ==> Enabled(Next(f, SignOut(t)), CheckBare(cookie, false))
  {
    FateNext(f, SignOut(t), jti);
  }

  // ----------------------------------------------------------------------------------------------
  // The heirs of a session
  // ----------------------------------------------------------------------------------------------

  /** Where sessions may come from: `spared`, the requests below `early`, and the cookies without a jti if
      `bare` holds. */
  datatype Roots = Roots(spared: set<Jti>, early: nat, bare: bool)

  /** Request t mints from the roots, or from one of `heirs`. */
  predicate Descends(r: Roots, heirs: set<Jti>, f: Flow, t: nat)
    requires t < |f.requests| && f.requests[t].Checked?
  {
    t < r.early || match f.requests[t].proof case Row(jti) => jti in heirs case Bare(_) => r.bare
  }

  /** The heirs after one more event. */
  function Inherit(r: Roots, heirs: set<Jti>, f: Flow, e: Event): set<Jti>
    requires Enabled(f, e)
  {
    if e.Mint? && Descends(r, heirs, f, e.t) then heirs + {e.jti} else heirs
  }

  /** The spared sessions, and what further requests mint from the roots and from their heirs. */
  function Heirs(start: Flow, events: seq<Event>, r: Roots): set<Jti> {
    if events == [] then r.spared
    else
      var before, e := events[..|events| - 1], events[|events| - 1];
      var heirs := Heirs(start, before, r);
      match Play(start, before)
      case None => heirs
      case Some(f) => if Enabled(f, e) then Inherit(r, heirs, f, e) else heirs
  }

  lemma HeirsNext(start: Flow, events: seq<Event>, f: Flow, e: Event, r: Roots)
    requires Play(start, events) == Some(f) && Enabled(f, e)
    ensures Heirs(start, events + [e], r) == Inherit(r, Heirs(start, events, r), f, e)
  {
    assert (events + [e])[..|events|] == events;
  }

  /** Every session of the account that stands is one of `heirs`, every refresh of it will mint from them or
      from the roots, and a cookie without a jti is left only if it is a root. */
  ghost predicate Confined(f: Flow, uid: Uid, r: Roots, heirs: set<Jti>) {
    && (forall jti :: Stands(f, jti, uid) ==> jti in heirs)
    && (forall t: nat :: Refreshing(f, t, uid) ==> Descends(r, heirs, f, t))
    && (BareLeft(f, uid) ==> r.bare)
  }

  lemma StandsConfined(f: Flow, e: Event, uid: Uid, r: Roots, heirs: set<Jti>, jti: Jti)
    requires Confined(f, uid, r, heirs) && Enabled(f, e) && (e.Login? ==> e.uid != uid) && Stands(Next(f, e), jti, uid)
    ensures jti in Inherit(r, heirs, f, e)
  {
    FateNext(f, e, jti);
    if e.Mint? && e.jti == jti {
      assert Refreshing(f, e.t, uid);
    } else {
      assert Stands(f, jti, uid);
    }
  }

  lemma RefreshConfined(f: Flow, e: Event, uid: Uid, r: Roots, heirs: set<Jti>, t: nat)
    requires Confined(f, uid, r, heirs) && Enabled(f, e) && Refreshing(Next(f, e), t, uid)
    ensures Descends(r, Inherit(r, heirs, f, e), Next(f, e), t)
  {
    if t < |f.requests| {
      assert Refreshing(f, t, uid);
    } else if e.CheckRow? {
      VerifiedStands(f, e.jti, e.now);
    } else {
      assert BareLeft(f, uid) by {
        assert e.CheckBare?;
        assert e.cookie in f.bare && e.cookie.uid == uid;
      }
    }
  }

  lemma StaysConfined(f: Flow, e: Event, uid: Uid, r: Roots, heirs: set<Jti>)
    requires Confined(f, uid, r, heirs) && Enabled(f, e) && (e.Login? ==> e.uid != uid)
    ensures Confined(Next(f, e), uid, r, Inherit(r, heirs, f, e))
  {
    forall jti | Stands(Next(f, e), jti, uid)
      ensures jti in Inherit(r, heirs, f, e)
    {
      StandsConfined(f, e, uid, r, heirs, jti);
    }
    forall t: nat | Refreshing(Next(f, e), t, uid)
      ensures Descends(r, Inherit(r, heirs, f, e), Next(f, e), t)
    {
      RefreshConfined(f, e, uid, r, heirs, t);
    }
  }

  lemma {:induction false} ConfinedForGood(start: Flow, events: seq<Event>, uid: Uid, r: Roots)
    requires Confined(start, uid, r, r.spared) && NoLogin(events, uid) && Play(start, events).Some?
    ensures Confined(Play(start, events).value, uid, r, Heirs(start, events, r))
  {
    if events != [] {
      var before := events[..|events| - 1];
      ConfinedForGood(start, before, uid, r);
      assert events[|events| - 1] in events;
      StaysConfined(Play(start, before).value, events[|events| - 1], uid, r, Heirs(start, before, r));
    }
  }

  /** Without roots there are no heirs. */
  lemma {:induction false} NoHeirs(start: Flow, events: seq<Event>)
    ensures Heirs(start, events, Roots({}, 0, false)) == {}
  {
    if events != [] {
      NoHeirs(start, events[..|events| - 1]);
    }
  }

  // ----------------------------------------------------------------------------------------------
  // Sign-out everywhere
  // ----------------------------------------------------------------------------------------------

  /** An account of which no session stands, no refresh is under way and no cookie without a jti is left
      has no session after any further requests without a new sign-in. */
  lemma SignedOutForGood(start: Flow, events: seq<Event>, uid: Uid)
    requires SignedOut(start, uid) && !UnderWay(start, uid) && !BareLeft(start, uid)
    requires NoLogin(events, uid) && Play(start, events).Some?
    ensures var f := Play(start, events).value; SignedOut(f, uid) && !UnderWay(f, uid) && !BareLeft(f, uid)
  {
    ConfinedForGood(start, events, uid, Roots({}, 0, false));
    NoHeirs(start, events);
  }

  /** After a sign-out everywhere, and in every continuation in which nobody signs in to it anew, no session
      of the account stands, if and only if at that moment the spared one does not, no refresh of the
      account is between its verification and its mint, and no cookie of it without a jti is left. */
  lemma SignOutIsFinalIff(f: Flow, t: nat, unused: Jti)
    requires Enabled(f, SignOut(t)) && unused != "" && FateOf(f.ops, unused) == Unknown
    ensures var start, uid := Next(f, SignOut(t)), f.requests[t].uid;
            (forall events :: NoLogin(events, uid) && Play(start, events).Some? ==> SignedOut(Play(start, events).value, uid))
            <==> SignedOut(start, uid) && !UnderWay(start, uid) && !BareLeft(start, uid)
  {
    var start, uid := Next(f, SignOut(t)), f.requests[t].uid;
    FateNext(f, SignOut(t), unused);
    if SignedOut(start, uid) && !UnderWay(start, uid) && !BareLeft(start, uid) {
      forall events | NoLogin(events, uid) && Play(start, events).Some?
        ensures SignedOut(Play(start, events).value, uid)
      {
        SignedOutForGood(start, events, uid);
      }
    } else if !SignedOut(start, uid) {
      assert NoLogin([], uid) && Play(start, []).Some? && !SignedOut(Play(start, []).value, uid);
    } else {
      var events := LeftOver(start, uid, unused, start.clock + 1.0);
      assert NoLogin(events, uid) && Play(start, events).Some? && !SignedOut(Play(start, events).value, uid);
    }
  }

  /** What is left over becomes a live session. */
  lemma LeftOver(f: Flow, uid: Uid, unused: Jti, expiresAt: real) returns (events: seq<Event>)
    requires unused != "" && FateOf(f.ops, unused) == Unknown && (UnderWay(f, uid) || BareLeft(f, uid))
    ensures NoLogin(events, uid) && Play(f, events).Some? && Made(Play(f, events).value, unused, uid, expiresAt)
  {
    if UnderWay(f, uid) {
      var t :| Refreshing(f, t, uid);
      events := RefreshSurvives(f, t, uid, unused, expiresAt);
    } else {
      var b :| b in f.bare && b.uid == uid && b.expiresAt > f.clock;
      events := BareSurvives(f, b, unused, expiresAt);
    }
  }

  /** A clock at which request t is due to be refreshed. */
  function Due(f: Flow, t: nat): real
    requires t < |f.requests| && f.requests[t].Checked?
  {
    var due := f.requests[t].iat + f.refreshAfter;
    if due > f.clock then due else f.clock
  }

  /** A request under way, however long it takes, mints its session, which is live until the expiry it is
      given. */
  lemma RefreshSurvives(f: Flow, t: nat, uid: Uid, jti: Jti, expiresAt: real) returns (events: seq<Event>)
    requires Refreshing(f, t, uid) && jti != "" && FateOf(f.ops, jti) == Unknown
    ensures events == [Tick(Due(f, t)), Mint(t, jti, expiresAt, "", "", Due(f, t))] && NoLogin(events, uid)
    ensures Enabled(f, events[0]) && Enabled(Next(f, events[0]), events[1])
    ensures Play(f, events).Some? && Made(Play(f, events).value, jti, uid, expiresAt)
  {
    var tick, mint := Tick(Due(f, t)), Mint(t, jti, expiresAt, "", "", Due(f, t));
    var f1 := Next(f, tick);
    PlayTwo(f, tick, mint);
    MintMakes(f1, mint);
    events := [tick, mint];
  }

  /** A cookie without a jti verifies, whatever was revoked, and refreshes into a live session. */
  lemma BareSurvives(f: Flow, cookie: BareCookie, jti: Jti, expiresAt: real) returns (events: seq<Event>)
    requires cookie in f.bare && cookie.expiresAt > f.clock && jti != "" && FateOf(f.ops, jti) == Unknown
    ensures Enabled(f, CheckBare(cookie, false))
    ensures var f1, t := Next(f, CheckBare(cookie, false)), |f.requests|;
            && t < |f1.requests| && f1.requests[t].Checked?
            && events == [CheckBare(cookie, false)] + [Tick(Due(f1, t)), Mint(t, jti, expiresAt, "", "", Due(f1, t))]
    ensures NoLogin(events, cookie.uid) && Play(f, events).Some? && Made(Play(f, events).value, jti, cookie.uid, expiresAt)
  {
    var check, t := CheckBare(cookie, false), |f.requests|;
    var f1 := Next(f, check);
    var more := RefreshSurvives(f1, t, cookie.uid, jti, expiresAt);
    PlayMore(f, check, more);
    events := [check] + more;
  }

  /** The session stands and its row is live until `expiresAt`. */
  ghost predicate Made(f: Flow, jti: Jti, uid: Uid, expiresAt: real) {
    Stands(f, jti, uid) && forall now :: Live(Exec(f.ops), jti, now) <==> now < expiresAt
  }

  lemma MintMakes(f: Flow, e: Event)
    requires Enabled(f, e) && e.Mint?
    ensures Made(Next(f, e), e.jti, f.requests[e.t].uid, e.expiresAt)
  {
    FateNext(f, e, e.jti);
    assert (f.ops + [Statement(f, e).value])[..|f.ops|] == f.ops;
  }

  /** A request verified without a row holds one of the cookies without a jti. */
  ghost predicate BareHeld(f: Flow) {
    forall k: nat :: k < |f.requests| && f.requests[k].Checked? && f.requests[k].proof.Bare? ==>
      BareCookie(f.requests[k].uid, f.requests[k].iat, f.requests[k].proof.expiresAt) in f.bare
  }

  lemma {:induction false} BareIsHeld(start: Flow, run: seq<Event>)
    requires BareHeld(start) && Play(start, run).Some?
    ensures BareHeld(Play(start, run).value)
  {
    if run != [] {
      BareIsHeld(start, run[..|run| - 1]);
    }
  }

  /** The caller's own cookie is enough.  A sign-out that spares no session is asked for by a cookie without
      a jti: it ends every session of the account, and as long as the caller's cookie has not expired,
      a live one can follow without a sign-in, for any lifetime. */
  lemma UnsparingIsNotFinal(first: Flow, run: seq<Event>, t: nat, unused: Jti, expiresAt: real)
    requires first.requests == [] && Play(first, run).Some?
    requires var f := Play(first, run).value;
             && Enabled(f, SignOut(t)) && f.requests[t].proof.Bare? && f.requests[t].proof.expiresAt > f.clock
             && unused != "" && FateOf(f.ops, unused) == Unknown
    ensures var f := Play(first, run).value;
            var start, uid := Next(f, SignOut(t)), f.requests[t].uid;
            SignedOut(start, uid)
            && exists events :: NoLogin(events, uid) && Play(start, events).Some? && Made(Play(start, events).value, unused, uid, expiresAt)
  {
    var f := Play(first, run).value;
    var start, uid := Next(f, SignOut(t)), f.requests[t].uid;
    BareIsHeld(first, run);
    forall jti
      ensures !Stands(start, jti, uid)
    {
      SignOutEnds(f, t, jti);
    }
    FateNext(f, SignOut(t), unused);
    var events := BareSurvives(start, BareCookie(uid, f.requests[t].iat, f.requests[t].proof.expiresAt), unused, expiresAt);
    assert NoLogin(events, uid) && Play(start, events).Some? && Made(Play(start, events).value, unused, uid, expiresAt);
  }

  function SparedSet(p: Proof): set<Jti> {
    match p
    case Row(jti) => {jti}
    case Bare(_) => {}
  }

  /** Every sign-out everywhere.  After it, and in every continuation in which nobody signs in to the
      account anew, every session of it that stands is the spared one, or descends from it, from a request
      that was under way, or from a cookie without a jti. */
  lemma StandingDescends(f: Flow, t: nat, events: seq<Event>, jti: Jti)
    requires Enabled(f, SignOut(t)) && NoLogin(events, f.requests[t].uid) && Play(Next(f, SignOut(t)), events).Some?
    requires Stands(Play(Next(f, SignOut(t)), events).value, jti, f.requests[t].uid)
    ensures jti in Heirs(Next(f, SignOut(t)), events, Roots(SparedSet(f.requests[t].proof), |f.requests|, true))
  {
    var r := Roots(SparedSet(f.requests[t].proof), |f.requests|, true);
    OnlySparedStands(f, t);
    ConfinedForGood(Next(f, SignOut(t)), events, f.requests[t].uid, r);
  }

  lemma OnlySparedStands(f: Flow, t: nat)
    requires Enabled(f, SignOut(t))
    ensures forall jti :: Stands(Next(f, SignOut(t)), jti, f.requests[t].uid) ==> jti in SparedSet(f.requests[t].proof)
  {
    forall jti | Stands(Next(f, SignOut(t)), jti, f.requests[t].uid)
      ensures jti in SparedSet(f.requests[t].proof)
    {
      SignOutEnds(f, t, jti);
    }
  }

  /** A refresh of the account that has anything else behind it than the spared session. */
  predicate Stray(f: Flow, t: nat, uid: Uid, spared: set<Jti>) {
    Refreshing(f, t, uid) && !(f.requests[t].proof.Row? && f.requests[t].proof.jti in spared)
  }

  /** When that is the spared one and its own descendants alone: if and only if at the sign-out no refresh
      of anything else is between its verification and its mint, and no cookie of the account without a
      jti is left. */
  lemma OnlyHeirsStandIff(f: Flow, t: nat, unused: Jti)
    requires Enabled(f, SignOut(t)) && unused != "" && FateOf(f.ops, unused) == Unknown && unused !in SparedSet(f.requests[t].proof)
    ensures var start, uid, r := Next(f, SignOut(t)), f.requests[t].uid, Roots(SparedSet(f.requests[t].proof), 0, false);
            (forall events, jti :: NoLogin(events, uid) && Play(start, events).Some? && Stands(Play(start, events).value, jti, uid) ==>
               jti in Heirs(start, events, r))
            <==> (forall k: nat :: !Stray(start, k, uid, r.spared)) && !BareLeft(start, uid)
  {
    var start, uid, r := Next(f, SignOut(t)), f.requests[t].uid, Roots(SparedSet(f.requests[t].proof), 0, false);
    FateNext(f, SignOut(t), unused);
    OnlySparedStands(f, t);
    if (forall k: nat :: !Stray(start, k, uid, r.spared)) && !BareLeft(start, uid) {
      assert Confined(start, uid, r, r.spared) by {
        forall k: nat | Refreshing(start, k, uid)
          ensures Descends(r, r.spared, start, k)
        {
          assert !Stray(start, k, uid, r.spared);
        }
      }
      forall events, jti | NoLogin(events, uid) && Play(start, events).Some? && Stands(Play(start, events).value, jti, uid)
        ensures jti in Heirs(start, events, r)
      {
        ConfinedForGood(start, events, uid, r);
      }
    } else {
      var events := StrayStands(start, uid, r, unused, start.clock + 1.0);
      assert NoLogin(events, uid) && Play(start, events).Some? && Stands(Play(start, events).value, unused, uid);
    }
  }

  /** A stray refresh, or a cookie without a jti, makes a live session that descends from nothing spared. */
  lemma StrayStands(start: Flow, uid: Uid, r: Roots, unused: Jti, expiresAt: real) returns (events: seq<Event>)
    requires unused != "" && FateOf(start.ops, unused) == Unknown && unused !in r.spared && r.early == 0 && !r.bare
    requires (exists k: nat :: Stray(start, k, uid, r.spared)) || BareLeft(start, uid)
    ensures NoLogin(events, uid) && Play(start, events).Some? && Made(Play(start, events).value, unused, uid, expiresAt)
    ensures unused !in Heirs(start, events, r)
  {
    if k: nat :| Stray(start, k, uid, r.spared) {
      events := RefreshSurvives(start, k, uid, unused, expiresAt);
      StrayIsNoHeir(start, [], start, events[0], events[1], r);
      assert events == [] + [events[0], events[1]];
    } else {
      var b :| b in start.bare && b.uid == uid && b.expiresAt > start.clock;
      var check := CheckBare(b, false);
      events := BareSurvives(start, b, unused, expiresAt);
      PlayNext(start, [], start, check);
      HeirsNext(start, [], start, check, r);
      assert [] + [check] == [check] && events == [check] + [events[1], events[2]];
      StrayIsNoHeir(start, [check], Next(start, check), events[1], events[2], r);
    }
  }

  lemma StrayIsNoHeir(start: Flow, events: seq<Event>, f: Flow, tick: Event, mint: Event, r: Roots)
    requires Play(start, events) == Some(f) && Enabled(f, tick) && tick.Tick? && Enabled(Next(f, tick), mint) && mint.Mint?
    requires !Descends(r, Heirs(start, events, r), f, mint.t)
    ensures Heirs(start, events + [tick, mint], r) == Heirs(start, events, r)
  {
    PlayNext(start, events, f, tick);
    HeirsNext(start, events, f, tick, r);
    HeirsNext(start, events + [tick], Next(f, tick), mint, r);
    assert events + [tick, mint] == (events + [tick]) + [mint];
  }

  // ----------------------------------------------------------------------------------------------
  // Two refreshes
  // ----------------------------------------------------------------------------------------------

  /** Two requests that refresh one session at once leave two. */
  lemma TwoRefreshesLeaveTwo(f: Flow, jti: Jti, a: Jti, b: Jti)
    requires jti != "" && Live(Exec(f.ops), jti, f.clock) && f.clock - Exec(f.ops)[jti].created >= f.refreshAfter
    requires a != b && a != "" && b != "" && FateOf(f.ops, a) == Unknown && FateOf(f.ops, b) == Unknown
    ensures exists g :: PlaysTo(f, g) && Stands(g, a, Exec(f.ops)[jti].uid) && Stands(g, b, Exec(f.ops)[jti].uid)
                        && FateOf(g.ops, jti) == Ended
  {
    var t, f2 := TwoChecks(f, jti);
    var f3 := Minting(f, f2, t, a, jti, b, f.clock);
    var f4 := Minting(f, f3, t + 1, b, jti, a, f.clock);
    var f5 := Go(f, f4, End(t));
    FateNext(f4, End(t), a);
    FateNext(f4, End(t), b);
    FateNext(f4, End(t), jti);
  }

  lemma TwoChecks(f: Flow, jti: Jti) returns (t: nat, g: Flow)
    requires jti != "" && Live(Exec(f.ops), jti, f.clock)
    ensures PlaysTo(f, g) && Stands(f, jti, Exec(f.ops)[jti].uid) && g == f.(requests := g.requests) && t + 2 == |g.requests|
    ensures g.requests[t] == g.requests[t + 1] == Checked(Row(jti), Exec(f.ops)[jti].uid, Exec(f.ops)[jti].created, false)
  {
    t := |f.requests|;
    VerifiedStands(f, jti, f.clock);
    PlaysNothing(f);
    var f1 := Go(f, f, CheckRow(jti, f.clock, false));
    g := Go(f, f1, CheckRow(jti, f.clock, false));
  }

  lemma Minting(start: Flow, f: Flow, t: nat, a: Jti, x: Jti, y: Jti, now: real) returns (g: Flow)
    requires PlaysTo(start, f) && Enabled(f, Mint(t, a, 0.0, "", "", now)) && x != a && y != a
    ensures PlaysTo(start, g) && g.requests == f.requests[t := Minted(f.requests[t].proof, f.requests[t].uid)]
    ensures g.clock == f.clock && g.refreshAfter == f.refreshAfter
    ensures Stands(g, a, f.requests[t].uid) && FateOf(g.ops, x) == FateOf(f.ops, x) && FateOf(g.ops, y) == FateOf(f.ops, y)
  {
    var mint := Mint(t, a, 0.0, "", "", now);
    g := Go(start, f, mint);
    FateNext(f, mint, a);
    FateNext(f, mint, x);
    FateNext(f, mint, y);
  }

  ghost predicate PlaysTo(f: Flow, g: Flow) {
    exists events :: Play(f, events) == Some(g)
  }

  lemma PlayNext(start: Flow, events: seq<Event>, f: Flow, e: Event)
    requires Play(start, events) == Some(f) && Enabled(f, e)
    ensures Play(start, events + [e]) == Some(Next(f, e))
  {
    assert (events + [e])[..|events|] == events;
  }

  lemma PlayTwo(start: Flow, first: Event, second: Event)
    requires Enabled(start, first) && Enabled(Next(start, first), second)
    ensures Play(start, [first, second]) == Some(Next(Next(start, first), second))
  {
    PlayNext(start, [], start, first);
    assert [] + [first] == [first] && [first] + [second] == [first, second];
    PlayNext(start, [first], Next(start, first), second);
  }

  lemma {:induction false} PlayMore(start: Flow, e: Event, more: seq<Event>)
    requires Enabled(start, e)
    ensures Play(start, [e] + more) == Play(Next(start, e), more)
  {
    if more == [] {
      PlayNext(start, [], start, e);
      assert [] + [e] == [e] == [e] + more;
    } else {
      var before, last := more[..|more| - 1], more[|more| - 1];
      PlayMore(start, e, before);
      assert more == before + [last] && [e] + more == ([e] + before) + [last];
      PlayLast(start, [e] + before, last);
      PlayLast(Next(start, e), before, last);
    }
  }

  lemma PlayLast(start: Flow, events: seq<Event>, e: Event)
    ensures Play(start, events + [e]) ==
            match Play(start, events) case None => None case Some(f) => if Enabled(f, e) then Some(Next(f, e)) else None
  {
    assert (events + [e])[..|events|] == events;
  }

  lemma PlaysNothing(f: Flow)
    ensures PlaysTo(f, f)
  {
    assert Play(f, []) == Some(f);
  }

  lemma Go(start: Flow, f: Flow, e: Event) returns (g: Flow)
    requires PlaysTo(start, f) && Enabled(f, e)
    ensures PlaysTo(start, g) && g == Next(f, e)
  {
    var events :| Play(start, events) == Some(f);
    PlayNext(start, events, f, e);
    g := Next(f, e);
  }
}
