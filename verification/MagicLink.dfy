/**
  Magic-link sign-in (src/mdreview/hosted/magiclink.py): the limits of the send path, and links that
  are redeemed once.
 */
module MagicLink {
  import opened Common
  import opened RollingWindow
  import opened Tokens
  import opened IdentityStore

  // ----------------------------------------------------------------------------------------------
  // Sending
  // ----------------------------------------------------------------------------------------------

  datatype Limits = Limits(maxPerAddress: int, addressWindow: real, maxPerIp: int, ipWindow: real, dailyBudget: int)

  datatype Which = Address | Ip | Global

  datatype Status = Invalid | Blocked | Throttled(which: Which) | SendFailed | Sent

  /** _within_limits: the first limit that is reached, if any. */
  function Reached(log: seq<Send>, limits: Limits, email: string, ip: string, now: real): Option<Which> {
    if Count(log, now - limits.addressWindow, Some(email), None) >= limits.maxPerAddress then Some(Address)
    else if ip != "" && Count(log, now - limits.ipWindow, None, Some(ip)) >= limits.maxPerIp then Some(Ip)
    else if Count(log, now - Day, None, None) >= limits.dailyBudget then Some(Global)
    else None
  }

  /** A request to send: the normalised address, the client's IP or "", what the blocklist says, whether
      the mail backend takes the message, the clock of the check and the clock of the record. */
  datatype Request = Request(email: string, ip: string, blocked: bool, taken: bool, check: real, record: real)

  function Verdict(log: seq<Send>, limits: Limits, rq: Request): Status {
    if '@' !in rq.email then Invalid
    else if rq.blocked then Blocked
    else
      match Reached(log, limits, rq.email, rq.ip, rq.check)
      case Some(which) => Throttled(which)
      case None => if rq.taken then Sent else SendFailed
  }

  class MagicLinkService {
    const codec: Codec
    const limits: Limits
    const store: IdentityStore

    constructor (codec: Codec, limits: Limits, store: IdentityStore)
      ensures this.codec == codec && this.limits == limits && this.store == store
    {
      this.codec, this.limits, this.store := codec, limits, store;
    }

    method WithinLimits(email: string, ip: string, now: real) returns (which: Option<Which>)
      ensures which == Reached(store.sendLog, limits, email, ip, now)
    {
      var n := store.CountSends(now - limits.addressWindow, Some(email), None);
      if n >= limits.maxPerAddress {
        return Some(Address);
      }
      if ip != "" {
        n := store.CountSends(now - limits.ipWindow, None, Some(ip));
        if n >= limits.maxPerIp {
          return Some(Ip);
        }
      }
      n := store.CountSends(now - Day, None, None);
      which := if n >= limits.dailyBudget then Some(Global) else None;
    }

    /** issue: check, send, record. */
    method Issue(rq: Request) returns (status: Status)
      modifies store`sendLog
      ensures status == Verdict(old(store.sendLog), limits, rq)
      ensures store.sendLog == if status == Sent then Logged(old(store.sendLog), rq.email, rq.ip, rq.record)
                               else old(store.sendLog)
    {
      if rq.email == "" || '@' !in rq.email {
        return Invalid;
      }
      if rq.blocked {
        return Blocked;
      }
      var which := WithinLimits(rq.email, rq.ip, rq.check);
      if which.Some? {
        return Throttled(which.value);
      }
      if !rq.taken {
        return SendFailed;
      }
      store.RecordSend(rq.email, rq.ip, rq.record);
      status := Sent;
    }

    /** redeem: the token, its expiry at the first clock read, then the claim at the store's own. */
    method Redeem(token: string, checked: real, claimed: real) returns (email: Option<string>)
      modifies store`nonces
      ensures (email, store.nonces) == Redeemed(codec, old(store.nonces), token, checked, claimed)
    {
      var claims := Open(codec, token);
      if claims == None {
        return None;
      }
      var p := claims.value;
      if p.email.GetOr("") == "" || p.jti.GetOr("") == "" {
        return None;
      }
      var exp := Expiry(p);
      if exp == None || exp.value <= checked {
        return None;
      }
      var ok := store.ConsumeNonce(p.jti.value, exp.value, claimed);
      if !ok {
        return None;
      }
      email := p.email;
    }
  }

  /** What redeeming answers, and the nonces it leaves. */
  function Redeemed(c: Codec, nonces: Nonces, token: string, checked: real, claimed: real): (Option<string>, Nonces) {
    match Open(c, token)
    case None => (None, nonces)
    case Some(p) =>
      if p.email.GetOr("") == "" || p.jti.GetOr("") == "" || Expiry(p) == None || Expiry(p).value <= checked then (None, nonces)
      else
        var jti, exp := p.jti.value, Expiry(p).value;
        (if jti in Unexpired(nonces, claimed) then None else p.email, Consumed(nonces, jti, exp, claimed))
  }

  /** The claims of a link. */
  function LinkClaims(email: string, jti: Jti, now: real, ttl: real): Claims {
    Claims(None, Some(email), None, Num(now + ttl), None, Some(jti))
  }

  /** A link redeems to the address it was sent to, if and only if it is still unexpired at the check
      and its nonce is not in the table; redeemed once in time, it is refused while it lasts. */
  lemma LinkRedeemsToItsAddress(c: Codec, nonces: Nonces, email: string, jti: Jti, minted: real, ttl: real, checked: real, claimed: real, again: real, later: real)
    requires Faithful(c, LinkClaims(email, jti, minted, ttl)) && email != "" && jti != ""
    ensures var token := Token(c, LinkClaims(email, jti, minted, ttl));
            var (answer, after) := Redeemed(c, nonces, token, checked, claimed);
            && (answer == Some(email) <==> minted + ttl > checked && jti !in Unexpired(nonces, claimed))
            && (answer == Some(email) || answer == None)
            && (answer == Some(email) && later <= minted + ttl ==> Redeemed(c, after, token, again, later).0 == None)
  {
    MintedOpens(c, LinkClaims(email, jti, minted, ttl));
  }

  /** Any token at all: it is redeemed if and only if it is genuine, names an address and a nonce, has not
      expired at the check, and its nonce is not in the table unexpired at the claim; and a token that
      fails before the claim writes nothing. */
  lemma RedeemedIff(c: Codec, nonces: Nonces, token: string, checked: real, claimed: real)
    ensures var (answer, after) := Redeemed(c, nonces, token, checked, claimed);
            var p := Open(c, token);
            && (answer.Some? <==>
                  Redeemable(p, checked) && !(p.value.jti.value in nonces && nonces[p.value.jti.value] >= claimed))
            && (answer.Some? ==> answer == p.value.email)
            && (!Redeemable(p, checked) ==> after == nonces)
  {
  }

  predicate Redeemable(claims: Option<Claims>, checked: real) {
    && claims.Some? && claims.value.email.Some? && claims.value.email.value != ""
    && claims.value.jti.Some? && claims.value.jti.value != ""
    && (claims.value.exp.Num? || claims.value.exp.Absent?)
    && (if claims.value.exp.Num? then claims.value.exp.value > checked else 0.0 > checked)
  }

  /** A run of issue, one request at a time under store.lock.  `log` is the pruned table, `full` every
      send ever recorded. */
  datatype Ledger = Ledger(log: seq<Send>, full: seq<Send>)

  function Issued(l: Ledger, limits: Limits, rq: Request): Ledger {
    if Verdict(l.log, limits, rq) == Sent
    then Ledger(Logged(l.log, rq.email, rq.ip, rq.record), l.full + [Send(rq.email, rq.ip, rq.record)])
    else l
  }

  function Exec(limits: Limits, rqs: seq<Request>): Ledger {
    if rqs == [] then Ledger([], []) else Issued(Exec(limits, rqs[..|rqs| - 1]), limits, rqs[|rqs| - 1])
  }

  /** The clock does not run backwards, within a request or from one to the next. */
  predicate Clocked(rqs: seq<Request>) {
    && (forall i :: 0 <= i < |rqs| ==> rqs[i].check <= rqs[i].record)
    && (forall i, j :: 0 <= i < j < |rqs| ==> rqs[i].record <= rqs[j].check)
  }

  /** No counter looks back further than the prune reaches. */
  predicate WithinTwoDays(limits: Limits) {
    limits.addressWindow <= 2.0 * Day && limits.ipWindow <= 2.0 * Day
  }

  /** The table is the full history less what had aged out when the newest row was written. */
  predicate Agrees(l: Ledger) {
    if l.full == [] then l.log == [] else l.log == Kept(l.full, l.full[|l.full| - 1].ts - 2.0 * Day)
  }

  lemma IssuedAgrees(l: Ledger, limits: Limits, rq: Request)
    requires Agrees(l) && (l.full != [] ==> l.full[|l.full| - 1].ts <= rq.record)
    ensures Agrees(Issued(l, limits, rq))
  {
    var s := Send(rq.email, rq.ip, rq.record);
    var cutoff := rq.record - 2.0 * Day;
    if l.full != [] {
      KeptTwice(l.full, l.full[|l.full| - 1].ts - 2.0 * Day, cutoff);
    }
    KeptRecord(l.full, s, cutoff);
  }

  lemma AgreeingCounts(l: Ledger, since: real, email: Option<string>, ip: Option<string>)
    requires Agrees(l) && (l.full != [] ==> l.full[|l.full| - 1].ts - 2.0 * Day <= since)
    ensures Count(l.log, since, email, ip) == Count(l.full, since, email, ip)
  {
    if l.full != [] {
      PruneKeepsCounts(l.full, l.full[|l.full| - 1].ts - 2.0 * Day, since, email, ip);
    }
  }

  lemma {:induction false} AlwaysAgrees(limits: Limits, rqs: seq<Request>, now: real)
    requires Clocked(rqs) && (rqs != [] ==> rqs[|rqs| - 1].record <= now)
    ensures var l := Exec(limits, rqs); Agrees(l) && (l.full != [] ==> l.full[|l.full| - 1].ts <= now)
  {
    if rqs != [] {
      var before, last := rqs[..|rqs| - 1], rqs[|rqs| - 1];
      AlwaysAgrees(limits, before, last.record);
      IssuedAgrees(Exec(limits, before), limits, last);
    }
  }

  /** A verdict depends on the log only through its three counts. */
  lemma SameVerdict(log: seq<Send>, full: seq<Send>, limits: Limits, rq: Request)
    requires Count(log, rq.check - limits.addressWindow, Some(rq.email), None) == Count(full, rq.check - limits.addressWindow, Some(rq.email), None)
    requires Count(log, rq.check - limits.ipWindow, None, Some(rq.ip)) == Count(full, rq.check - limits.ipWindow, None, Some(rq.ip))
    requires Count(log, rq.check - Day, None, None) == Count(full, rq.check - Day, None, None)
    ensures Verdict(log, limits, rq) == Verdict(full, limits, rq)
  {
  }

  lemma AgreeingVerdict(l: Ledger, limits: Limits, rq: Request)
    requires Agrees(l) && (l.full != [] ==> l.full[|l.full| - 1].ts <= rq.check) && WithinTwoDays(limits)
    ensures Verdict(l.log, limits, rq) == Verdict(l.full, limits, rq)
  {
    AgreeingCounts(l, rq.check - limits.addressWindow, Some(rq.email), None);
    AgreeingCounts(l, rq.check - limits.ipWindow, None, Some(rq.ip));
    AgreeingCounts(l, rq.check - Day, None, None);
    SameVerdict(l.log, l.full, limits, rq);
  }

  /** Pruning is invisible: over any run, every count that looks back at most two days, and so every
      verdict, is what it would be on the full history. */
  lemma PrunedCountsAgree(limits: Limits, rqs: seq<Request>, rq: Request, since: real, email: Option<string>, ip: Option<string>)
    requires Clocked(rqs) && (rqs != [] ==> rqs[|rqs| - 1].record <= rq.check)
    ensures var l := Exec(limits, rqs);
            && (since >= rq.check - 2.0 * Day ==> Count(l.log, since, email, ip) == Count(l.full, since, email, ip))
            && (WithinTwoDays(limits) ==> Verdict(l.log, limits, rq) == Verdict(l.full, limits, rq))
  {
    AlwaysAgrees(limits, rqs, rq.check);
    var l := Exec(limits, rqs);
    if since >= rq.check - 2.0 * Day {
      AgreeingCounts(l, since, email, ip);
    }
    if WithinTwoDays(limits) {
      AgreeingVerdict(l, limits, rq);
    }
  }

  function AtLeast0(n: int): nat {
    if n < 0 then 0 else n
  }

  ghost predicate OneKept(full: seq<Send>, email: Option<string>, ip: Option<string>, w: real, limit: int) {
    Capped(Stamps(full, email, ip), w, AtLeast0(limit))
  }

  ghost predicate AddressKept(full: seq<Send>, limits: Limits, e: string) {
    OneKept(full, Some(e), None, limits.addressWindow, limits.maxPerAddress)
  }

  ghost predicate IpKept(full: seq<Send>, limits: Limits, ip: string) {
    ip != "" ==> OneKept(full, None, Some(ip), limits.ipWindow, limits.maxPerIp)
  }

  ghost predicate DayKept(full: seq<Send>, limits: Limits) {
    OneKept(full, None, None, Day, limits.dailyBudget)
  }

  /** The limits as statements about everything ever recorded. */
  ghost predicate LimitsKept(full: seq<Send>, limits: Limits) {
    && (forall e :: AddressKept(full, limits, e))
    && (forall ip :: IpKept(full, limits, ip))
    && DayKept(full, limits)
  }

  lemma IssuedKeepsOne(full: seq<Send>, s: Send, email: Option<string>, ip: Option<string>, w: real, limit: int, check: real)
    requires OneKept(full, email, ip, w, limit) && check <= s.ts
    requires Selected(s, email, ip) ==> Count(full, check - w, email, ip) < limit
    ensures OneKept(full + [s], email, ip, w, limit)
  {
    StampsRecord(full, s, email, ip);
    if Selected(s, email, ip) {
      CountIsSince(full, check - w, email, ip);
      RecordKeepsCap(Stamps(full, email, ip), w, AtLeast0(limit), check, s.ts);
    }
  }

  /** What a check that lets the request through has found. */
  lemma RoomWhenSent(full: seq<Send>, limits: Limits, rq: Request)
    requires Verdict(full, limits, rq) == Sent
    ensures Count(full, rq.check - limits.addressWindow, Some(rq.email), None) < limits.maxPerAddress
    ensures rq.ip != "" ==> Count(full, rq.check - limits.ipWindow, None, Some(rq.ip)) < limits.maxPerIp
    ensures Count(full, rq.check - Day, None, None) < limits.dailyBudget
  {
  }

  lemma IssuedKeepsAddress(full: seq<Send>, limits: Limits, rq: Request, e: string)
    requires AddressKept(full, limits, e) && rq.check <= rq.record
    requires Count(full, rq.check - limits.addressWindow, Some(rq.email), None) < limits.maxPerAddress
    ensures AddressKept(full + [Send(rq.email, rq.ip, rq.record)], limits, e)
  {
    IssuedKeepsOne(full, Send(rq.email, rq.ip, rq.record), Some(e), None, limits.addressWindow, limits.maxPerAddress, rq.check);
  }

  lemma IssuedKeepsIp(full: seq<Send>, limits: Limits, rq: Request, ip: string)
    requires IpKept(full, limits, ip) && rq.check <= rq.record
    requires rq.ip != "" ==> Count(full, rq.check - limits.ipWindow, None, Some(rq.ip)) < limits.maxPerIp
    ensures IpKept(full + [Send(rq.email, rq.ip, rq.record)], limits, ip)
  {
    if ip != "" {
      IssuedKeepsOne(full, Send(rq.email, rq.ip, rq.record), None, Some(ip), limits.ipWindow, limits.maxPerIp, rq.check);
    }
  }

  lemma IssuedKeepsLimits(full: seq<Send>, limits: Limits, rq: Request)
    requires LimitsKept(full, limits) && rq.check <= rq.record && Verdict(full, limits, rq) == Sent
    ensures LimitsKept(full + [Send(rq.email, rq.ip, rq.record)], limits)
  {
    var full' := full + [Send(rq.email, rq.ip, rq.record)];
    RoomWhenSent(full, limits, rq);
    forall e
      ensures AddressKept(full', limits, e)
    {
      IssuedKeepsAddress(full, limits, rq, e);
    }
    forall ip
      ensures IpKept(full', limits, ip)
    {
      IssuedKeepsIp(full, limits, rq, ip);
    }
    assert DayKept(full', limits) by {
      IssuedKeepsOne(full, Send(rq.email, rq.ip, rq.record), None, None, Day, limits.dailyBudget, rq.check);
    }
  }

  lemma NoSends(limits: Limits)
    ensures LimitsKept([], limits)
  {
    assert forall e :: AddressKept([], limits, e);
    assert forall ip :: IpKept([], limits, ip);
  }

  /** Over any run of issue no closed window, wherever it starts, holds more recorded sends than its
      limit: per address, per client IP, and per day in all, although old rows are gone and each
      send is recorded later than it was checked. */
  lemma {:induction false} SendLimitsHold(limits: Limits, rqs: seq<Request>)
    requires Clocked(rqs) && WithinTwoDays(limits)
    ensures LimitsKept(Exec(limits, rqs).full, limits)
  {
    if rqs == [] {
      NoSends(limits);
    } else {
      var before, last := rqs[..|rqs| - 1], rqs[|rqs| - 1];
      SendLimitsHold(limits, before);
      AlwaysAgrees(limits, before, last.check);
      AgreeingVerdict(Exec(limits, before), limits, last);
      if Verdict(Exec(limits, before).log, limits, last) == Sent {
        IssuedKeepsLimits(Exec(limits, before).full, limits, last);
      }
    }
  }

  /** What a request to send is answered, by the sends so far: an address without '@' is invalid and a
      blocked one is refused; then the first limit of address, client IP (if it is known) and day that its
      window has reached, counted back from the check; and else it is sent, or the backend fails. */
  predicate AnsweredRight(full: seq<Send>, limits: Limits, rq: Request, v: Status) {
    var byAddress := Since(Stamps(full, Some(rq.email), None), rq.check - limits.addressWindow) >= limits.maxPerAddress;
    var byIp := rq.ip != "" && Since(Stamps(full, None, Some(rq.ip)), rq.check - limits.ipWindow) >= limits.maxPerIp;
    var byDay := Since(Stamps(full, None, None), rq.check - Day) >= limits.dailyBudget;
    match v
    case Invalid => '@' !in rq.email
    case Blocked => '@' in rq.email && rq.blocked
    case Throttled(which) =>
      && '@' in rq.email && !rq.blocked
      && (match which case Address => byAddress case Ip => !byAddress && byIp case Global => !byAddress && !byIp && byDay)
    case SendFailed => '@' in rq.email && !rq.blocked && !byAddress && !byIp && !byDay && !rq.taken
    case Sent => '@' in rq.email && !rq.blocked && !byAddress && !byIp && !byDay && rq.taken
  }

  lemma VerdictIsRight(full: seq<Send>, limits: Limits, rq: Request)
    ensures AnsweredRight(full, limits, rq, Verdict(full, limits, rq))
  {
    ReachedFirst(full, limits, rq.email, rq.ip, rq.check);
  }

  lemma ReachedFirst(full: seq<Send>, limits: Limits, email: string, ip: string, now: real)
    ensures Reached(full, limits, email, ip, now) ==
            if Since(Stamps(full, Some(email), None), now - limits.addressWindow) >= limits.maxPerAddress then Some(Address)
            else if ip != "" && Since(Stamps(full, None, Some(ip)), now - limits.ipWindow) >= limits.maxPerIp then Some(Ip)
            else if Since(Stamps(full, None, None), now - Day) >= limits.dailyBudget then Some(Global)
            else None
  {
    CountIsSince(full, now - limits.addressWindow, Some(email), None);
    CountIsSince(full, now - limits.ipWindow, None, Some(ip));
    CountIsSince(full, now - Day, None, None);
  }

  /** Over any run every request is answered right by everything ever sent, and there is one right answer;
      and just the requests that are sent are recorded. */
  lemma IssueAnswers(limits: Limits, rqs: seq<Request>, rq: Request, v: Status)
    requires Clocked(rqs) && (rqs != [] ==> rqs[|rqs| - 1].record <= rq.check) && WithinTwoDays(limits)
    ensures var l := Exec(limits, rqs);
            && (Verdict(l.log, limits, rq) == v <==> AnsweredRight(l.full, limits, rq, v))
            && Exec(limits, rqs + [rq]).full
               == l.full + (if AnsweredRight(l.full, limits, rq, Sent) then [Send(rq.email, rq.ip, rq.record)] else [])
  {
    PrunedCountsAgree(limits, rqs, rq, rq.check - Day, None, None);
    var l := Exec(limits, rqs);
    VerdictIsRight(l.full, limits, rq);
    if AnsweredRight(l.full, limits, rq, v) {
      OneAnswer(l.full, limits, rq, Verdict(l.full, limits, rq), v);
    }
    if AnsweredRight(l.full, limits, rq, Sent) {
      OneAnswer(l.full, limits, rq, Verdict(l.full, limits, rq), Sent);
    }
    Next(limits, rqs, rq);
    assert l.full + [] == l.full;
  }

  lemma OneAnswer(full: seq<Send>, limits: Limits, rq: Request, v: Status, v': Status)
    requires AnsweredRight(full, limits, rq, v) && AnsweredRight(full, limits, rq, v')
    ensures v == v'
  {
  }

  /** So, in plain numbers, over any run and for any window, wherever it starts. */
  lemma NoWindowHoldsMore(limits: Limits, rqs: seq<Request>, email: string, ip: string, x: real)
    requires Clocked(rqs) && WithinTwoDays(limits)
    ensures var full := Exec(limits, rqs).full;
            && |SendsWithin(full, Some(email), None, x, limits.addressWindow)| <= AtLeast0(limits.maxPerAddress)
            && (ip != "" ==> |SendsWithin(full, None, Some(ip), x, limits.ipWindow)| <= AtLeast0(limits.maxPerIp))
            && |SendsWithin(full, None, None, x, Day)| <= AtLeast0(limits.dailyBudget)
  {
    SendLimitsHold(limits, rqs);
    var full := Exec(limits, rqs).full;
    SendsAreCounted(full, Some(email), None, x, limits.addressWindow);
    SendsAreCounted(full, None, Some(ip), x, limits.ipWindow);
    SendsAreCounted(full, None, None, x, Day);
    assert AddressKept(full, limits, email) && IpKept(full, limits, ip);
  }

  lemma Next(limits: Limits, rqs: seq<Request>, rq: Request)
    ensures Exec(limits, rqs + [rq]) == Issued(Exec(limits, rqs), limits, rq)
  {
    assert (rqs + [rq])[..|rqs|] == rqs;
  }

  // ----------------------------------------------------------------------------------------------
  // Longer windows
  // ----------------------------------------------------------------------------------------------

  /** Senders of a run: the addresses of a burst and of the send after it, the client IP of the burst
      or "", and somebody else. */
  datatype Cast = Cast(addresses: seq<string>, ip: string, other: string)

  /** All addresses of the burst are one, or none is twice; the other one is nobody of these. */
  predicate Sound(c: Cast) {
    && (forall k :: 0 <= k < |c.addresses| ==> '@' in c.addresses[k] && c.addresses[k] != c.other)
    && '@' in c.other
    && (c.ip == "" || forall j, k :: 0 <= j < k < |c.addresses| ==> c.addresses[j] != c.addresses[k])
  }

  function At(c: Cast, k: nat): Request
    requires k < |c.addresses|
  {
    Request(c.addresses[k], c.ip, false, true, 0.0, 0.0)
  }

  function Burst(c: Cast, n: nat): (rqs: seq<Request>)
    requires n <= |c.addresses|
    ensures |rqs| == n && forall k :: 0 <= k < n ==> rqs[k] == At(c, k)
  {
    if n == 0 then [] else Burst(c, n - 1) + [At(c, n - 1)]
  }

  function BurstSends(c: Cast, n: nat): (log: seq<Send>)
    requires n <= |c.addresses|
    ensures |log| == n && forall k :: 0 <= k < n ==> log[k] == Send(c.addresses[k], c.ip, 0.0)
  {
    if n == 0 then [] else BurstSends(c, n - 1) + [Send(c.addresses[n - 1], c.ip, 0.0)]
  }

  lemma {:induction false} CountBounded(log: seq<Send>, since: real, email: Option<string>, ip: Option<string>)
    ensures Count(log, since, email, ip) <= |log|
  {
    if log != [] {
      CountBounded(log[..|log| - 1], since, email, ip);
    }
  }

  lemma {:induction false} CountNone(log: seq<Send>, since: real, email: Option<string>, ip: Option<string>)
    requires forall k :: 0 <= k < |log| ==> log[k].ts < since || !Selected(log[k], email, ip)
    ensures Count(log, since, email, ip) == 0
  {
    if log != [] {
      CountNone(log[..|log| - 1], since, email, ip);
    }
  }

  lemma {:induction false} KeptAllOrNone(log: seq<Send>, cutoff: real)
    ensures (forall k :: 0 <= k < |log| ==> log[k].ts >= cutoff) ==> Kept(log, cutoff) == log
    ensures (forall k :: 0 <= k < |log| ==> log[k].ts < cutoff) ==> Kept(log, cutoff) == []
  {
    if log != [] {
      KeptAllOrNone(log[..|log| - 1], cutoff);
    }
  }

  /** The limit a burst is aimed at, and room under the others. */
  predicate Aimed(limits: Limits, c: Cast, n: nat) {
    && 1 <= limits.maxPerAddress && 1 <= limits.maxPerIp && n <= limits.dailyBudget && n <= |c.addresses|
    && n <= (if c.ip == "" then limits.maxPerAddress else limits.maxPerIp)
  }

  /** There is room under all three limits. */
  predicate Room(log: seq<Send>, limits: Limits, email: string, ip: string, now: real) {
    && Count(log, now - limits.addressWindow, Some(email), None) < limits.maxPerAddress
    && (ip != "" ==> Count(log, now - limits.ipWindow, None, Some(ip)) < limits.maxPerIp)
    && Count(log, now - Day, None, None) < limits.dailyBudget
  }

  lemma RoomSends(l: Ledger, limits: Limits, rq: Request)
    requires Room(l.log, limits, rq.email, rq.ip, rq.check) && '@' in rq.email && !rq.blocked && rq.taken
    ensures Issued(l, limits, rq) == Ledger(Kept(l.log, rq.record - 2.0 * Day) + [Send(rq.email, rq.ip, rq.record)],
                                            l.full + [Send(rq.email, rq.ip, rq.record)])
  {
  }

  /** A log with nobody else's sends too many, none of this address if the limits need it, leaves room. */
  lemma ShortLogHasRoom(log: seq<Send>, limits: Limits, email: string, ip: string, now: real)
    requires 1 <= limits.maxPerAddress && 1 <= limits.maxPerIp && |log| < limits.dailyBudget
    requires |log| < limits.maxPerAddress || forall k :: 0 <= k < |log| ==> log[k].email != email
    requires ip == "" || |log| < limits.maxPerIp || forall k :: 0 <= k < |log| ==> log[k].ip != ip
    ensures Room(log, limits, email, ip, now)
  {
    AddressCount(log, now - limits.addressWindow, email);
    IpCount(log, now - limits.ipWindow, ip);
    CountBounded(log, now - Day, None, None);
  }

  lemma AddressCount(log: seq<Send>, since: real, email: string)
    ensures Count(log, since, Some(email), None) <= |log|
    ensures (forall k :: 0 <= k < |log| ==> log[k].email != email) ==> Count(log, since, Some(email), None) == 0
  {
    CountBounded(log, since, Some(email), None);
    if forall k :: 0 <= k < |log| ==> log[k].email != email {
      CountNone(log, since, Some(email), None);
    }
  }

  lemma IpCount(log: seq<Send>, since: real, ip: string)
    ensures Count(log, since, None, Some(ip)) <= |log|
    ensures (forall k :: 0 <= k < |log| ==> log[k].ip != ip) ==> Count(log, since, None, Some(ip)) == 0
  {
    CountBounded(log, since, None, Some(ip));
    if forall k :: 0 <= k < |log| ==> log[k].ip != ip {
      CountNone(log, since, None, Some(ip));
    }
  }

  lemma BurstHasRoom(limits: Limits, c: Cast, n: nat, now: real)
    requires Sound(c) && Aimed(limits, c, n + 1)
    ensures Room(BurstSends(c, n), limits, c.addresses[n], c.ip, now)
  {
    ShortLogHasRoom(BurstSends(c, n), limits, c.addresses[n], c.ip, now);
  }

  lemma BurstStep(limits: Limits, c: Cast, n: nat)
    requires Sound(c) && Aimed(limits, c, n + 1)
    ensures Issued(Ledger(BurstSends(c, n), BurstSends(c, n)), limits, At(c, n)) == Ledger(BurstSends(c, n + 1), BurstSends(c, n + 1))
  {
    var log := BurstSends(c, n);
    BurstHasRoom(limits, c, n, 0.0);
    KeptAllOrNone(log, 0.0 - 2.0 * Day);
    RoomSends(Ledger(log, log), limits, At(c, n));
  }

  lemma {:induction false} BurstRun(limits: Limits, c: Cast, n: nat)
    requires Sound(c) && Aimed(limits, c, n)
    ensures Exec(limits, Burst(c, n)) == Ledger(BurstSends(c, n), BurstSends(c, n))
  {
    if n > 0 {
      BurstRun(limits, c, n - 1);
      BurstStep(limits, c, n - 1);
      Next(limits, Burst(c, n - 1), At(c, n - 1));
    }
  }

  /** A burst long ago, then one send to somebody else, then one more. */
  function LongRun(c: Cast, n: nat, w: real): seq<Request>
    requires n < |c.addresses|
  {
    Burst(c, n) + [Other(c, w)] + [Last(c, n, w)]
  }

  function Other(c: Cast, w: real): Request {
    Request(c.other, "", false, true, w, w)
  }

  function Last(c: Cast, n: nat, w: real): Request
    requires n < |c.addresses|
  {
    Request(c.addresses[n], c.ip, false, true, w, w)
  }

  /** By then the burst is out of every count of a day, and is pruned. */
  lemma OtherStep(limits: Limits, c: Cast, n: nat, w: real)
    requires Sound(c) && Aimed(limits, c, n) && w > 2.0 * Day && 1 <= limits.dailyBudget
    ensures var l, s := Ledger(BurstSends(c, n), BurstSends(c, n)), Send(c.other, "", w);
            Issued(l, limits, Other(c, w)).log == [s] && Issued(l, limits, Other(c, w)).full == BurstSends(c, n) + [s]
  {
    OtherHasRoom(limits, c, n, w);
    OtherPrunes(c, n, w);
    RoomSends(Ledger(BurstSends(c, n), BurstSends(c, n)), limits, Other(c, w));
  }

  lemma OtherPrunes(c: Cast, n: nat, w: real)
    requires n <= |c.addresses| && w > 2.0 * Day
    ensures Kept(BurstSends(c, n), w - 2.0 * Day) == []
  {
    KeptAllOrNone(BurstSends(c, n), w - 2.0 * Day);
  }

  lemma OtherIsSent(limits: Limits, c: Cast, n: nat, w: real)
    requires Sound(c) && Aimed(limits, c, n) && w > 2.0 * Day && 1 <= limits.dailyBudget
    ensures Exec(limits, Burst(c, n) + [Other(c, w)]).log == [Send(c.other, "", w)]
    ensures Exec(limits, Burst(c, n) + [Other(c, w)]).full == BurstSends(c, n) + [Send(c.other, "", w)]
  {
    BurstRun(limits, c, n);
    OtherStep(limits, c, n, w);
    Next(limits, Burst(c, n), Other(c, w));
  }

  lemma OtherHasRoom(limits: Limits, c: Cast, n: nat, w: real)
    requires Sound(c) && Aimed(limits, c, n) && w > Day && 1 <= limits.dailyBudget
    ensures Room(BurstSends(c, n), limits, c.other, "", w)
  {
    AddressCount(BurstSends(c, n), w - limits.addressWindow, c.other);
    CountNone(BurstSends(c, n), w - Day, None, None);
  }

  lemma OneMoreIsSent(limits: Limits, c: Cast, n: nat, w: real)
    requires Sound(c) && Aimed(limits, c, n) && n < |c.addresses| && w > 2.0 * Day && 2 <= limits.dailyBudget
    ensures Exec(limits, LongRun(c, n, w)).full == BurstSends(c, n) + [Send(c.other, "", w)] + [Send(c.addresses[n], c.ip, w)]
  {
    var run := Burst(c, n) + [Other(c, w)];
    var l := Exec(limits, run);
    OtherIsSent(limits, c, n, w);
    ShortLogHasRoom(l.log, limits, c.addresses[n], c.ip, w);
    RoomSends(l, limits, Last(c, n, w));
    Next(limits, run, Last(c, n, w));
  }

  lemma InWindowAppend(ts: seq<real>, t: real, x: real, w: real)
    ensures InWindow(ts + [t], x, w) == InWindow(ts, x, w) + (if x <= t <= x + w then 1 else 0)
  {
    assert (ts + [t])[..|ts|] == ts;
  }

  lemma {:induction false} AllInWindow(log: seq<Send>, w: real, email: Option<string>, ip: Option<string>)
    requires w >= 0.0 && forall k :: 0 <= k < |log| ==> Selected(log[k], email, ip) && log[k].ts == 0.0
    ensures InWindow(Stamps(log, email, ip), 0.0, w) == |log|
  {
    if log != [] {
      var before := log[..|log| - 1];
      AllInWindow(before, w, email, ip);
      InWindowAppend(Stamps(before, email, ip), 0.0, 0.0, w);
    }
  }

  lemma LongRunStamps(log: seq<Send>, other: Send, last: Send, w: real, email: Option<string>, ip: Option<string>)
    requires w >= 0.0 && InWindow(Stamps(log, email, ip), 0.0, w) == |log|
    requires !Selected(other, email, ip) && Selected(last, email, ip) && last.ts == w
    ensures InWindow(Stamps(log + [other] + [last], email, ip), 0.0, w) == |log| + 1
  {
    StampsRecord(log, other, email, ip);
    StampsRecord(log + [other], last, email, ip);
    InWindowAppend(Stamps(log, email, ip), w, 0.0, w);
  }

  /** The n-th of many different addresses. */
  function Sender(k: nat): string {
    if k == 0 then "@x" else "a" + Sender(k - 1)
  }

  lemma {:induction false} AddressForm(k: nat)
    ensures |Sender(k)| == k + 2 && '@' in Sender(k) && Sender(k)[0] != 'b'
  {
    if k > 0 {
      AddressForm(k - 1);
      assert Sender(k)[0] == 'a' && Sender(k)[1..] == Sender(k - 1);
    } else {
      assert Sender(0)[0] == '@';
    }
  }

  function CastFor(byIp: bool, n: nat): Cast {
    Cast(seq(n, k requires 0 <= k => Sender(if byIp then k else 0)), if byIp then "i" else "", "b@x")
  }

  lemma CastIsSound(byIp: bool, n: nat)
    ensures Sound(CastFor(byIp, n))
  {
    var c := CastFor(byIp, n);
    assert "b@x"[0] == 'b' && "b@x"[1] == '@';
    forall k: nat | k < n
      ensures '@' in c.addresses[k] && c.addresses[k] != c.other && |c.addresses[k]| == (if byIp then k else 0) + 2
    {
      AddressForm(if byIp then k else 0);
    }
    assert byIp ==> forall j, k :: 0 <= j < k < n ==> |c.addresses[j]| != |c.addresses[k]|;
  }

  function LimitOf(limits: Limits, byIp: bool): int {
    if byIp then limits.maxPerIp else limits.maxPerAddress
  }

  function WindowOf(limits: Limits, byIp: bool): real {
    if byIp then limits.ipWindow else limits.addressWindow
  }

  /** The two days matter, for an address window and for an IP window alike: with any longer window, a
      send to somebody else prunes rows that still count, and one more than the limit is sent. */
  lemma LongWindowIsNotKept(limits: Limits, byIp: bool)
    requires WindowOf(limits, byIp) > 2.0 * Day
    requires 1 <= limits.maxPerAddress && 1 <= limits.maxPerIp && 2 <= limits.dailyBudget && LimitOf(limits, byIp) <= limits.dailyBudget
    ensures var n := LimitOf(limits, byIp);
            var rqs := LongRun(CastFor(byIp, n + 1), n, WindowOf(limits, byIp));
            Clocked(rqs) && !LimitsKept(Exec(limits, rqs).full, limits)
  {
    var n, w := LimitOf(limits, byIp), WindowOf(limits, byIp);
    var c := CastFor(byIp, n + 1);
    CastIsSound(byIp, n + 1);
    assert byIp ==> c.ip[0] == 'i';
    OneMoreIsSent(limits, c, n, w);
    TooMany(limits, c, n, byIp);
    LongRunIsClocked(c, n, w);
  }

  lemma LongRunIsClocked(c: Cast, n: nat, w: real)
    requires n < |c.addresses| && w >= 0.0
    ensures Clocked(LongRun(c, n, w))
  {
  }

  lemma TooMany(limits: Limits, c: Cast, n: nat, byIp: bool)
    requires n < |c.addresses| && n == LimitOf(limits, byIp) && WindowOf(limits, byIp) >= 0.0 && Sound(c) && (byIp <==> c.ip != "")
    requires !byIp ==> forall k :: 0 <= k < |c.addresses| ==> c.addresses[k] == c.addresses[n]
    ensures !LimitsKept(BurstSends(c, n) + [Send(c.other, "", WindowOf(limits, byIp))] + [Send(c.addresses[n], c.ip, WindowOf(limits, byIp))], limits)
  {
    var w := WindowOf(limits, byIp);
    var other, last := Send(c.other, "", w), Send(c.addresses[n], c.ip, w);
    var full := BurstSends(c, n) + [other] + [last];
    var email, ip := if byIp then None else Some(c.addresses[n]), if byIp then Some(c.ip) else None;
    AllInWindow(BurstSends(c, n), w, email, ip);
    LongRunStamps(BurstSends(c, n), other, last, w, email, ip);
    assert !OneKept(full, email, ip, w, n);
    if byIp {
      assert !IpKept(full, limits, c.ip);
    } else {
      assert !AddressKept(full, limits, c.addresses[n]);
    }
  }

  /** So, for limits that the daily budget leaves room for, two days are the exact condition. */
  lemma LimitsHoldIff(limits: Limits)
    requires 1 <= limits.maxPerAddress <= limits.dailyBudget && 1 <= limits.maxPerIp <= limits.dailyBudget && 2 <= limits.dailyBudget
    ensures WithinTwoDays(limits) <==> forall rqs :: Clocked(rqs) ==> LimitsKept(Exec(limits, rqs).full, limits)
  {
    if WithinTwoDays(limits) {
      forall rqs | Clocked(rqs)
        ensures LimitsKept(Exec(limits, rqs).full, limits)
      {
        SendLimitsHold(limits, rqs);
      }
    } else {
      LongWindowIsNotKept(limits, limits.ipWindow > 2.0 * Day);
    }
  }

  // ----------------------------------------------------------------------------------------------
  // Redeeming
  // ----------------------------------------------------------------------------------------------

  type Thread = nat

  /** Requests redeem links side by side, without a common lock: an expiry check by one thread; later,
      consume_nonce's own clock reading; and later still, its transaction. */
  datatype Action =
    | Check(t: Thread, jti: Jti, now: real)
    | Read(t: Thread, now: real)
    | Commit(t: Thread)

  /** A claim that has been committed: its link, the clock reading its transaction used, and whether it
      found no row of the link. */
  datatype Claimed = Claimed(jti: Jti, reading: real, won: bool)

  /** `claims` is a history variable: every claim, in the order of the transactions.  The clock is that of
      the readings; a transaction may use a reading older than another thread's. */
  datatype Desk = Desk(nonces: Nonces, clock: real, checked: map<Thread, Jti>, read: map<Thread, (Jti, real)>, claims: seq<Claimed>)

  predicate Enabled(d: Desk, a: Action) {
    match a
    case Check(_, _, now) => now >= d.clock
    case Read(t, now) => now >= d.clock && t in d.checked
    case Commit(t) => t in d.read
  }

  function ClaimOf(d: Desk, t: Thread): Claimed
    requires t in d.read
  {
    var (jti, reading) := d.read[t];
    Claimed(jti, reading, jti !in Unexpired(d.nonces, reading))
  }

  /** `exp` is the expiry signed into each link. */
  function Step(d: Desk, a: Action, exp: Jti -> real): Desk
    requires Enabled(d, a)
  {
    match a
    case Check(t, jti, now) =>
      d.(clock := now, checked := if exp(jti) <= now then d.checked - {t} else d.checked[t := jti], read := d.read - {t})
    case Read(t, now) => d.(clock := now, checked := d.checked - {t}, read := d.read[t := (d.checked[t], now)])
    case Commit(t) =>
      var c := ClaimOf(d, t);
      d.(nonces := Consumed(d.nonces, c.jti, exp(c.jti), c.reading), read := d.read - {t}, claims := d.claims + [c])
  }

  function Play(actions: seq<Action>, start: real, exp: Jti -> real): Option<Desk> {
    if actions == [] then Some(Desk(map[], start, map[], map[], []))
    else
      match Play(actions[..|actions| - 1], start, exp)
      case None => None
      case Some(d) =>
        var a := actions[|actions| - 1];
        if Enabled(d, a) then Some(Step(d, a, exp)) else None
  }

  /** The table has forgotten the link: it was never redeemed, or since it last was, a claim of any link
      has been committed with a reading past its expiry. */
  predicate Forgotten(claims: seq<Claimed>, jti: Jti, exp: Jti -> real) {
    claims == []
    || var c := claims[|claims| - 1];
       !(c.won && c.jti == jti) && (Forgotten(claims[..|claims| - 1], jti, exp) || c.reading > exp(jti))
  }

  /** The table has exactly the links that are not forgotten. */
  ghost predicate Remembered(d: Desk, exp: Jti -> real) {
    && (forall j :: j in d.nonces <==> !Forgotten(d.claims, j, exp))
    && (forall j :: j in d.nonces ==> d.nonces[j] == exp(j))
  }

  lemma ForgottenAppend(claims: seq<Claimed>, c: Claimed, jti: Jti, exp: Jti -> real)
    ensures Forgotten(claims + [c], jti, exp) <==>
              !(c.won && c.jti == jti) && (Forgotten(claims, jti, exp) || c.reading > exp(jti))
  {
    assert (claims + [c])[..|claims|] == claims;
  }

  lemma CommitRemembers(d: Desk, t: Thread, exp: Jti -> real)
    requires Remembered(d, exp) && t in d.read
    ensures Remembered(Step(d, Commit(t), exp), exp)
  {
    var c := ClaimOf(d, t);
    forall j
      ensures j in Consumed(d.nonces, c.jti, exp(c.jti), c.reading) <==> !Forgotten(d.claims + [c], j, exp)
    {
      ForgottenAppend(d.claims, c, j, exp);
    }
  }

  lemma {:induction false} AlwaysRemembered(actions: seq<Action>, start: real, exp: Jti -> real)
    requires Play(actions, start, exp).Some?
    ensures Remembered(Play(actions, start, exp).value, exp)
  {
    if actions != [] {
      var before, a := actions[..|actions| - 1], actions[|actions| - 1];
      AlwaysRemembered(before, start, exp);
      if a.Commit? {
        CommitRemembers(Play(before, start, exp).value, a.t, exp);
      }
    }
  }

  /** In every reachable state of any number of threads, a claim succeeds if and only if the link was never
      redeemed, or some claim committed since it last was, or this one itself, has a clock reading past
      its expiry. */
  lemma ClaimSucceedsIff(actions: seq<Action>, start: real, exp: Jti -> real, t: Thread)
    requires Play(actions, start, exp).Some? && t in Play(actions, start, exp).value.read
    ensures var d := Play(actions, start, exp).value;
            ClaimOf(d, t).won <==> Forgotten(d.claims, d.read[t].0, exp) || d.read[t].1 > exp(d.read[t].0)
  {
    AlwaysRemembered(actions, start, exp);
  }

  /** A redeem request is one check, one reading and one commit of this protocol. */
  lemma RedeemIsCheckThenClaim(c: Codec, token: string, d: Desk, t: Thread, exp: Jti -> real, checked: real, claimed: real)
    requires Open(c, token).Some? && d.clock <= checked <= claimed
    requires var p := Open(c, token).value;
             p.email.GetOr("") != "" && p.jti.GetOr("") != "" && Expiry(p) == Some(exp(p.jti.value))
    ensures var jti := Open(c, token).value.jti.value;
            var (answer, after) := Redeemed(c, d.nonces, token, checked, claimed);
            var d1 := Step(d, Check(t, jti, checked), exp);
            && (t in d1.checked <==> exp(jti) > checked)
            && (t !in d1.checked ==> answer == None && after == d1.nonces)
            && (t in d1.checked ==>
                  var d2 := Step(d1, Read(t, claimed), exp);
                  var d3 := Step(d2, Commit(t), exp);
                  after == d3.nonces && (answer.Some? <==> d3.claims[|d3.claims| - 1].won))
  {
  }

  /** How often the link was redeemed. */
  function Wins(claims: seq<Claimed>, jti: Jti): nat {
    if claims == [] then 0
    else
      var c := claims[|claims| - 1];
      Wins(claims[..|claims| - 1], jti) + (if c.won && c.jti == jti then 1 else 0)
  }

  /** How many claims, of any link, have a reading past the expiry of this one. */
  function Late(claims: seq<Claimed>, jti: Jti, exp: Jti -> real): nat {
    if claims == [] then 0
    else Late(claims[..|claims| - 1], jti, exp) + (if claims[|claims| - 1].reading > exp(jti) then 1 else 0)
  }

  /** The claims of the link that found it redeemed before and yet forgotten, or were late themselves. */
  function Replays(claims: seq<Claimed>, jti: Jti, exp: Jti -> real): nat {
    if claims == [] then 0
    else
      var before, c := claims[..|claims| - 1], claims[|claims| - 1];
      Replays(before, jti, exp)
      + (if c.jti == jti && Wins(before, jti) > 0 && (Forgotten(before, jti, exp) || c.reading > exp(jti)) then 1 else 0)
  }

  function Tries(claims: seq<Claimed>, jti: Jti): nat {
    if claims == [] then 0 else Tries(claims[..|claims| - 1], jti) + (if claims[|claims| - 1].jti == jti then 1 else 0)
  }

  lemma NeverWonIsForgotten(claims: seq<Claimed>, jti: Jti, exp: Jti -> real)
    requires Wins(claims, jti) == 0
    ensures Forgotten(claims, jti, exp)
  {
    if claims != [] {
      NeverWonIsForgotten(claims[..|claims| - 1], jti, exp);
    }
  }

  /** Every commit was decided as ClaimSucceedsIff says. */
  predicate Decided(claims: seq<Claimed>, exp: Jti -> real) {
    claims != [] ==>
      var before, c := claims[..|claims| - 1], claims[|claims| - 1];
      Decided(before, exp) && (c.won <==> Forgotten(before, c.jti, exp) || c.reading > exp(c.jti))
  }

  lemma {:induction false} AlwaysDecided(actions: seq<Action>, start: real, exp: Jti -> real)
    requires Play(actions, start, exp).Some?
    ensures Decided(Play(actions, start, exp).value.claims, exp)
  {
    if actions != [] {
      var before, a := actions[..|actions| - 1], actions[|actions| - 1];
      AlwaysDecided(before, start, exp);
      if a.Commit? {
        ClaimSucceedsIff(before, start, exp, a.t);
        var d := Play(before, start, exp).value;
        assert Step(d, a, exp).claims[..|d.claims|] == d.claims;
      }
    }
  }

  lemma {:induction false} WinsAre(claims: seq<Claimed>, jti: Jti, exp: Jti -> real)
    requires Decided(claims, exp)
    ensures Wins(claims, jti) == (if Tries(claims, jti) > 0 then 1 else 0) + Replays(claims, jti, exp)
    ensures Tries(claims, jti) > 0 <==> Wins(claims, jti) > 0
  {
    if claims != [] {
      var before := claims[..|claims| - 1];
      WinsAre(before, jti, exp);
      if Wins(before, jti) == 0 {
        NeverWonIsForgotten(before, jti, exp);
      }
    }
  }

  /** A forgotten link has been overtaken since it was last redeemed: each replay uses up a late claim of its own. */
  lemma {:induction false} ReplaysAreLate(claims: seq<Claimed>, jti: Jti, exp: Jti -> real)
    requires Decided(claims, exp)
    ensures Replays(claims, jti, exp) + (if Wins(claims, jti) > 0 && Forgotten(claims, jti, exp) then 1 else 0) <= Late(claims, jti, exp)
  {
    if claims != [] {
      ReplaysAreLate(claims[..|claims| - 1], jti, exp);
    }
  }

  /** Single use, exactly: over any run of any number of threads a link is redeemed once if it is tried at
      all, and once more for every claim of it that found it redeemed and forgotten or was late itself.
      So it is redeemed at most once plus the number of claims, of any link, that read a clock past
      its expiry; none of these, and it is never redeemed twice. */
  lemma RedeemedOnce(actions: seq<Action>, start: real, exp: Jti -> real, jti: Jti)
    requires Play(actions, start, exp).Some?
    ensures var claims := Play(actions, start, exp).value.claims;
            && Wins(claims, jti) == (if Tries(claims, jti) > 0 then 1 else 0) + Replays(claims, jti, exp)
            && Wins(claims, jti) <= 1 + Late(claims, jti, exp)
  {
    var claims := Play(actions, start, exp).value.claims;
    AlwaysDecided(actions, start, exp);
    WinsAre(claims, jti, exp);
    ReplaysAreLate(claims, jti, exp);
  }

  /** Some run leads to d. */
  ghost predicate Reachable(d: Desk, exp: Jti -> real) {
    exists actions :: Play(actions, 0.0, exp) == Some(d)
  }

  lemma Go(d: Desk, a: Action, exp: Jti -> real) returns (d': Desk)
    requires Reachable(d, exp) && Enabled(d, a)
    ensures Reachable(d', exp) && d' == Step(d, a, exp)
  {
    var actions :| Play(actions, 0.0, exp) == Some(d);
    assert (actions + [a])[..|actions|] == actions;
    d' := Step(d, a, exp);
    assert Play(actions + [a], 0.0, exp) == Some(d');
  }

  lemma WinsAppend(claims: seq<Claimed>, c: Claimed, jti: Jti)
    ensures Wins(claims + [c], jti) == Wins(claims, jti) + (if c.won && c.jti == jti then 1 else 0)
  {
    assert (claims + [c])[..|claims|] == claims;
  }

  /** One link is redeemed at 1, before it expires at 3; by then another thread has checked it too. */
  lemma FirstRedeemed(jti: Jti, exp: Jti -> real) returns (d: Desk)
    requires exp(jti) == 3.0
    ensures Reachable(d, exp) && d.nonces == map[jti := 3.0] && d.clock == 1.0 && d.checked == map[1 := jti] && d.read == map[]
    ensures d.claims == [Claimed(jti, 1.0, true)] && Wins(d.claims, jti) == 1
  {
    d := Desk(map[], 0.0, map[], map[], []);
    assert Play([], 0.0, exp) == Some(d);
    d := Go(d, Check(0, jti, 1.0), exp);
    d := Go(d, Check(1, jti, 1.0), exp);
    d := Go(d, Read(0, 1.0), exp);
    assert d.checked == map[1 := jti] && d.read == map[0 := (jti, 1.0)];
    WinsAppend(d.claims, ClaimOf(d, 0), jti);
    d := Go(d, Commit(0), exp);
  }

  /** It is redeemed again by that thread, which reads 4. */
  lemma OvertakenClaimRedeemsTwice(jti: Jti, exp: Jti -> real)
    requires exp(jti) == 3.0
    ensures exists actions :: Play(actions, 0.0, exp).Some? && Wins(Play(actions, 0.0, exp).value.claims, jti) == 2
  {
    var d := FirstRedeemed(jti, exp);
    d := Go(d, Read(1, 4.0), exp);
    WinsAppend(d.claims, ClaimOf(d, 1), jti);
    d := Go(d, Commit(1), exp);
  }

  predicate InTime(claims: seq<Claimed>, jti: Jti, exp: Jti -> real) {
    forall k :: 0 <= k < |claims| && claims[k].jti == jti ==> claims[k].reading <= exp(jti)
  }

  /** And without any late claim of its own: the thread reads 2.5, in time, but before its transaction
      another link's claim, at 4, prunes the row it would have hit. */
  lemma PrunedReplayRedeemsTwice(jti: Jti, other: Jti, exp: Jti -> real)
    requires other != jti && exp(jti) == 3.0 && exp(other) == 9.0
    ensures exists actions :: Play(actions, 0.0, exp).Some? && Wins(Play(actions, 0.0, exp).value.claims, jti) == 2
                              && InTime(Play(actions, 0.0, exp).value.claims, jti, exp)
  {
    var d := PrunedMeanwhile(jti, other, exp);
    WinsAppend(d.claims, ClaimOf(d, 1), jti);
    d := Go(d, Commit(1), exp);
    assert InTime(d.claims, jti, exp);
  }

  lemma PrunedMeanwhile(jti: Jti, other: Jti, exp: Jti -> real) returns (d: Desk)
    requires other != jti && exp(jti) == 3.0 && exp(other) == 9.0
    ensures Reachable(d, exp) && jti !in d.nonces && 1 in d.read && d.read[1] == (jti, 2.5)
    ensures d.claims == [Claimed(jti, 1.0, true), Claimed(other, 4.0, true)] && Wins(d.claims, jti) == 1
  {
    d := FirstRedeemed(jti, exp);
    d := Go(d, Read(1, 2.5), exp);
    d := Go(d, Check(2, other, 2.5), exp);
    d := Go(d, Read(2, 4.0), exp);
    assert d.nonces == map[jti := 3.0] && d.read[1] == (jti, 2.5) && d.read[2] == (other, 4.0);
    WinsAppend(d.claims, ClaimOf(d, 2), jti);
    d := Go(d, Commit(2), exp);
  }
}
