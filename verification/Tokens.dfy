/**
  The signed tokens that session cookies (src/mdreview/hosted/sessions.py) and magic links
  (src/mdreview/hosted/magiclink.py) share: a base64url payload, a dot, and the payload's MAC.
 */
module Tokens {
  import opened Common
  import opened Base64Url

  datatype Number = Absent | Num(value: real) | NotANumber

  /** The JSON object in a token; a missing key is None or Absent. */
  datatype Claims = Claims(uid: Option<string>, email: Option<string>, iat: Option<real>, exp: Number, csrf: Option<string>, jti: Option<string>)

  /** `payload.get("exp", 0)`, if it is a number. */
  function Expiry(claims: Claims): Option<real> {
    match claims.exp
    case Absent => Some(0.0)
    case Num(x) => Some(x)
    case NotANumber => None
  }

  /** What is not modelled further: HMAC-SHA256 under a service's key, and JSON. */
  datatype Codec = Codec(hmac: string -> seq<Byte>, dumps: Claims -> seq<Byte>, loads: seq<Byte> -> Option<Claims>)

  function Mac(c: Codec, payload: string): string {
    Encode(c.hmac(payload))
  }

  function Token(c: Codec, claims: Claims): string {
    var payload := Encode(c.dumps(claims));
    payload + "." + Mac(c, payload)
  }

  /** The position of the first '.', or |s|. */
  function FirstDot(s: string): (k: nat)
    ensures k <= |s| && (k < |s| ==> s[k] == '.') && forall j :: 0 <= j < k ==> s[j] != '.'
  {
    if s == "" || s[0] == '.' then 0 else 1 + FirstDot(s[1..])
  }

  /** partition("."), the two checks on its parts, the MAC, and only then the payload. */
  function Open(c: Codec, token: string): Option<Claims> {
    var k := FirstDot(token);
    if k == |token| then None
    else
      var payload, sig := token[..k], token[k + 1..];
      if payload == "" || sig == "" || sig != Mac(c, payload) then None
      else
        match Decode(payload)
        case None => None
        case Some(bytes) => c.loads(bytes)
  }

  /** JSON reads back what it wrote for these claims, and neither it nor the MAC is empty. */
  predicate Faithful(c: Codec, claims: Claims) {
    && c.loads(c.dumps(claims)) == Some(claims)
    && c.dumps(claims) != [] && c.hmac(Encode(c.dumps(claims))) != []
  }

  lemma FirstDotAt(p: string, rest: string)
    requires Plain(p)
    ensures FirstDot(p + "." + rest) == |p|
  {
    var s := p + "." + rest;
    assert s[|p|] == '.' && forall k :: 0 <= k < |p| ==> s[k] == p[k];
  }

  /** A minted token opens to exactly the claims it was minted from. */
  lemma MintedOpens(c: Codec, claims: Claims)
    requires Faithful(c, claims)
    ensures Open(c, Token(c, claims)) == Some(claims)
  {
    var payload := Encode(c.dumps(claims));
    var t := Token(c, claims);
    EncodingIsPlain(c.dumps(claims));
    EncodingIsPlain(c.hmac(payload));
    FirstDotAt(payload, Mac(c, payload));
    assert t[..|payload|] == payload && t[|payload| + 1..] == Mac(c, payload);
    DecodeEncode(c.dumps(claims));
  }

  /** Whatever opens is a payload without a dot, one dot, and the MAC of that very text, which has no
      dot either: the framing is unambiguous. */
  lemma OpensOnlySigned(c: Codec, token: string)
    requires Open(c, token).Some?
    ensures var k := FirstDot(token);
            k < |token| && token == token[..k] + "." + Mac(c, token[..k]) && '.' !in token[..k] && Plain(Mac(c, token[..k]))
  {
    var k := FirstDot(token);
    var payload, sig := token[..k], token[k + 1..];
    EncodingIsPlain(c.hmac(payload));
    Reassembled(token, k);
  }

  lemma Reassembled(s: string, k: nat)
    requires k < |s| && s[k] == '.'
    ensures s == s[..k] + "." + s[k + 1..]
  {
  }

  /** And exactly these open: a payload that is not empty and decodes, followed by a dot and its own MAC. */
  lemma OpensIff(c: Codec, token: string, claims: Claims)
    ensures Open(c, token) == Some(claims) <==>
            exists p :: Signed(c, token, p) && Decode(p).Some? && c.loads(Decode(p).value) == Some(claims)
  {
    if Open(c, token) == Some(claims) {
      OpensOnlySigned(c, token);
      assert Signed(c, token, token[..FirstDot(token)]);
    }
    if p :| Signed(c, token, p) && Decode(p).Some? && c.loads(Decode(p).value) == Some(claims) {
      assert token[|p|] == '.' && forall k :: 0 <= k < |p| ==> token[k] == p[k];
      assert FirstDot(token) == |p|;
      assert token[..|p|] == p && token[|p| + 1..] == Mac(c, p);
    }
  }

  predicate Signed(c: Codec, token: string, payload: string) {
    payload != "" && '.' !in payload && Mac(c, payload) != "" && token == payload + "." + Mac(c, payload)
  }

  /** So a signature opens no other payload, as far as the MAC tells the two apart. */
  lemma OtherPayloadIsRejected(c: Codec, claims: Claims, other: string)
    requires '.' !in other && c.hmac(other) != c.hmac(Encode(c.dumps(claims)))
    ensures Open(c, other + "." + Mac(c, Encode(c.dumps(claims)))) == None
  {
    var sig := Mac(c, Encode(c.dumps(claims)));
    var t := other + "." + sig;
    assert t[|other|] == '.' && forall k :: 0 <= k < |other| ==> t[k] == other[k];
    assert FirstDot(t) == |other|;
    assert t[..|other|] == other && t[|other| + 1..] == sig;
    DecodeEncode(c.hmac(other));
    DecodeEncode(c.hmac(Encode(c.dumps(claims))));
  }
}
