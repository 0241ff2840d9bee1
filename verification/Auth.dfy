/** Bearer tokens (`internal/auth/token.go`): the wire format, and the checks on a stored record. */
module Auth {
  import opened Text
  import opened Timestamps

  datatype TokenKind = Session | Enrollment | DeviceToken

  /** A row of the tokens table; a NULL column is None. */
  datatype Token = Token(
    id: string, kind: TokenKind, subjectId: string, secretHash: string, profileIds: seq<string>,
    createdAt: Instant, expiresAt: Option<Instant>, usedAt: Option<Instant>, revokedAt: Option<Instant>)

  /** The hash of the secret half, left uninterpreted. */
  type SecretHash = string -> string

  // ----- Wire format -----

  function KindByte(k: TokenKind): char {
    match k
    case Session => 's'
    case Enrollment => 'e'
    case DeviceToken => 'd'
  }

  function KindOf(c: char): Option<TokenKind> {
    if c == 's' then Some(Session)
    else if c == 'e' then Some(Enrollment)
    else if c == 'd' then Some(DeviceToken)
    else None
  }

  /** What the bearer receives: ad<k>_<lookup>.<secret>. */
  function Wire(k: TokenKind, lookup: string, secret: string): string {
    "ad" + [KindByte(k)] + "_" + lookup + "." + secret
  }

  datatype ParsedToken = ParsedToken(kind: TokenKind, lookup: string, secret: string)

  /** None for every malformed string, without saying what is wrong with it. */
  function Parse(wire: string): Option<ParsedToken> {
    if !("ad" <= wire) || |wire| == 2 then None
    else
      match KindOf(wire[2])
      case None => None
      case Some(kind) =>
        var rest := wire[3..];
        if !("_" <= rest) then None
        else
          var body := rest[1..];
          var dot := IndexChar(body, '.');
          if dot <= 0 || dot + 1 == |body| then None
          else Some(ParsedToken(kind, body[..dot], body[dot + 1..]))
  }

  /** Parsing accepts exactly the wire forms of tokens with a non-empty, dot-free lookup and a
      non-empty secret, and recovers their parts. */
  lemma ParseExactly(wire: string, t: ParsedToken)
    ensures Parse(wire) == Some(t) <==>
            wire == Wire(t.kind, t.lookup, t.secret) && t.lookup != "" && t.secret != "" && '.' !in t.lookup
  {
    hide Parse, Wire;
    if Parse(wire) == Some(t) {
      WireShape(wire, t);
    }
    if t.lookup != "" && t.secret != "" && '.' !in t.lookup {
      WireParses(t.kind, t.lookup, t.secret);
    }
  }

  lemma WireParses(k: TokenKind, lookup: string, secret: string)
    requires lookup != "" && secret != "" && '.' !in lookup
    ensures Parse(Wire(k, lookup, secret)) == Some(ParsedToken(k, lookup, secret))
  {
    hide Wire;
    var wire, body := Wire(k, lookup, secret), lookup + ['.'] + secret;
    WireParts(k, lookup, secret);
    IndexCharIs(lookup, '.', secret);
    assert body[..|lookup|] == lookup && body[|lookup| + 1..] == secret;
  }

  lemma WireParts(k: TokenKind, lookup: string, secret: string)
    ensures var wire := Wire(k, lookup, secret);
            && "ad" <= wire && |wire| > 3 && wire[2] == KindByte(k) && "_" <= wire[3..]
            && wire[3..][1..] == lookup + ['.'] + secret
  {
    var body := lookup + ['.'] + secret;
    assert Wire(k, lookup, secret) == "ad" + [KindByte(k)] + "_" + body;
  }

  lemma WireShape(wire: string, t: ParsedToken)
    requires Parse(wire) == Some(t)
    ensures wire == Wire(t.kind, t.lookup, t.secret) && t.lookup != "" && t.secret != "" && '.' !in t.lookup
  {
    var body := wire[3..][1..];
    var dot := IndexChar(body, '.');
    assert body == body[..dot] + ['.'] + body[dot + 1..];
    assert wire == "ad" + [wire[2]] + "_" + body;
    assert KindByte(t.kind) == wire[2];
  }

  /** The four characters in front of the lookup, one set for each kind. */
  lemma WireFront(lookup: string, secret: string)
    ensures "ads_" <= Wire(Session, lookup, secret) && "ade_" <= Wire(Enrollment, lookup, secret)
    ensures "add_" <= Wire(DeviceToken, lookup, secret)
  {
    assert "ad" + ['s'] + "_" == "ads_" && "ad" + ['e'] + "_" == "ade_" && "ad" + ['d'] + "_" == "add_";
    assert forall k, front :: "ad" + [KindByte(k)] + "_" == front ==>
        Wire(k, lookup, secret) == front + lookup + "." + secret;
  }

  // ----- Checks on a record -----

  datatype Refusal = WrongKind | RevokedToken | ExpiredToken

  /** A nullable column read back: NULL and the zero time both mean "unset". */
  function Time(column: Option<Instant>): Instant {
    if column.None? then ZERO_TIME else column.value
  }

  function Verify(t: Token, required: TokenKind, now: Instant): Option<Refusal> {
    if t.kind != required then Some(WrongKind)
    else if Time(t.revokedAt) != ZERO_TIME then Some(RevokedToken)
    else if Expired(Time(t.expiresAt), now) then Some(ExpiredToken)
    else None
  }

  /** A record is accepted exactly if it has the required kind, was not revoked and has not expired, where a
      missing or zero column counts as neither; each refusal names the first check that fails. */
  lemma VerifyExactly(t: Token, required: TokenKind, now: Instant)
    ensures var revoked := t.revokedAt.Some? && t.revokedAt.value != ZERO_TIME;
            var expired := t.expiresAt.Some? && t.expiresAt.value != ZERO_TIME && t.expiresAt.value <= now;
            && (Verify(t, required, now) == Some(WrongKind) <==> t.kind != required)
            && (Verify(t, required, now) == Some(RevokedToken) <==> t.kind == required && revoked)
            && (Verify(t, required, now) == Some(ExpiredToken) <==> t.kind == required && !revoked && expired)
            && (Verify(t, required, now) == None <==> t.kind == required && !revoked && !expired)
  {
  }
}
