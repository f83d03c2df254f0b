/** Confirmation tokens: what a token vouches for, and that it is accepted at most once. */
module Confirmation {
  import opened Base
  import opened CanonicalJson
  import opened Strings

  type Token = string

  datatype Payload = Payload(sessionId: string, toolId: string, inputHash: string, expiresAt: int)

  datatype Expected = Expected(sessionId: string, toolId: string, inputHash: string)

  /**
   * The cryptography and the text codec, left abstract: `encode` is base64url of the payload's JSON,
   * `decode` its inverse with the field type checks, `mac` the keyed hash, `digest` SHA-256.
   */
  datatype Codec = Codec(
    encode: Payload -> string,
    decode: string -> Option<Payload>,
    mac: string -> string,
    digest: Text -> string)

  /** What base64url gives: no dots, no empty texts, and decoding inverts encoding. */
  ghost predicate IsSound(c: Codec) {
    && (forall p :: c.encode(p) != "" && '.' !in c.encode(p) && c.decode(c.encode(p)) == Some(p))
    && (forall s :: c.mac(s) != "" && '.' !in c.mac(s))
  }

  datatype Verdict = Accepted(payload: Payload) | Malformed | Expired | Mismatch

  function MakeConfirmation(p: Payload, c: Codec): Token {
    var b64 := c.encode(p);
    b64 + ['.'] + c.mac(b64)
  }

  function VerifyConfirmation(token: Token, expected: Expected, c: Codec, now: int): Verdict {
    var parts := Split(token, '.');
    if |parts| != 2 then Malformed
    else if parts[0] == "" || parts[1] == "" then Malformed
    else if parts[1] != c.mac(parts[0]) then Mismatch
    else
      match c.decode(parts[0])
      case None => Malformed
      case Some(p) =>
        if p.expiresAt <= now then Expired
        else if Expected(p.sessionId, p.toolId, p.inputHash) != expected then Mismatch
        else Accepted(p)
  }

  function CanonicalJsonHash(input: Json, c: Codec): string
  {
    c.digest(Stringify(input))
  }

  /** A token made for a payload is accepted exactly before its expiry and for the same request. */
  lemma VerifyMade(p: Payload, expected: Expected, c: Codec, now: int)
    requires IsSound(c)
    ensures VerifyConfirmation(MakeConfirmation(p, c), expected, c, now)
         == if p.expiresAt <= now then Expired
            else if Expected(p.sessionId, p.toolId, p.inputHash) == expected then Accepted(p)
            else Mismatch
  {
    var b64 := c.encode(p);
    SplitOnce(b64, c.mac(b64), '.');
    assert Split(c.mac(b64), '.') == [c.mac(b64)];
  }

  /** A text with one dot, and something on each side of it. */
  predicate IsTwoPart(token: Token, b64: string, mac: string) {
    b64 != "" && mac != "" && '.' !in b64 && '.' !in mac && token == b64 + ['.'] + mac
  }

  /** Whatever the token: its parts are what the dot separates, and a token of any other shape is malformed. */
  lemma VerifyParts(token: Token, expected: Expected, c: Codec, now: int)
    ensures forall b64, mac | IsTwoPart(token, b64, mac) ::
              VerifyConfirmation(token, expected, c, now)
              == if mac != c.mac(b64) then Mismatch
                 else if c.decode(b64).None? then Malformed
                 else if c.decode(b64).value.expiresAt <= now then Expired
                 else if Expected(c.decode(b64).value.sessionId, c.decode(b64).value.toolId, c.decode(b64).value.inputHash) != expected
                 then Mismatch
                 else Accepted(c.decode(b64).value)
    ensures (forall b64, mac :: !IsTwoPart(token, b64, mac)) ==> VerifyConfirmation(token, expected, c, now) == Malformed
  {
    forall b64, mac | IsTwoPart(token, b64, mac) ensures Split(token, '.') == [b64, mac] {
      SplitOnce(b64, mac, '.');
      assert Split(mac, '.') == [mac];
    }
    var parts := Split(token, '.');
    JoinSplit(token, '.');
    if |parts| == 2 && parts[0] != "" && parts[1] != "" {
      assert parts[1..] == [parts[1]];
      assert IsTwoPart(token, parts[0], parts[1]);
    }
  }

  /**
   * Nothing is accepted but what the keyed hash vouches for: a token is accepted exactly when it carries the hash of
   * its own first part, and that part decodes to a payload for this request which has not expired.
   */
  lemma AcceptedExactly(token: Token, expected: Expected, c: Codec, now: int, p: Payload)
    requires IsSound(c)
    ensures VerifyConfirmation(token, expected, c, now) == Accepted(p)
       <==> exists b64 ::
              && b64 != "" && '.' !in b64 && token == b64 + ['.'] + c.mac(b64) && c.decode(b64) == Some(p)
              && now < p.expiresAt && Expected(p.sessionId, p.toolId, p.inputHash) == expected
  {
    VerifyParts(token, expected, c, now);
    if VerifyConfirmation(token, expected, c, now) == Accepted(p) {
      var b64, mac :| IsTwoPart(token, b64, mac);
    }
    if b64 :| b64 != "" && '.' !in b64 && token == b64 + ['.'] + c.mac(b64) && c.decode(b64) == Some(p)
              && now < p.expiresAt && Expected(p.sessionId, p.toolId, p.inputHash) == expected {
      assert IsTwoPart(token, b64, c.mac(b64));
    }
  }

  /**
   * A confirmation issued for one input confirms another input exactly when the two denote the same
   * JSON value (the digest being collision-free on the two canonical texts).
   */
  lemma ConfirmsSameInput(shown: Json, sent: Json, session: string, tool: string, expiresAt: int, c: Codec, now: int)
    requires IsSound(c) && DistinctKeys(shown) && DistinctKeys(sent)
    requires c.digest(Stringify(shown)) == c.digest(Stringify(sent)) ==> Stringify(shown) == Stringify(sent)
    ensures VerifyConfirmation(MakeConfirmation(Payload(session, tool, CanonicalJsonHash(shown, c), expiresAt), c),
                               Expected(session, tool, CanonicalJsonHash(sent, c)), c, now).Accepted?
       <==> now < expiresAt && Meaning(shown) == Meaning(sent)
  {
    VerifyMade(Payload(session, tool, CanonicalJsonHash(shown, c), expiresAt),
               Expected(session, tool, CanonicalJsonHash(sent, c)), c, now);
    StringifyInjective(shown, sent);
  }

  /** The expiry a token carries, which is fixed once the token is given. */
  function ExpiryOf(token: Token, c: Codec): Option<int> {
    var parts := Split(token, '.');
    match c.decode(parts[0])
    case None => None
    case Some(p) => Some(p.expiresAt)
  }

  lemma AcceptedIsUnexpired(token: Token, expected: Expected, c: Codec, now: int)
    requires VerifyConfirmation(token, expected, c, now).Accepted?
    ensures ExpiryOf(token, c) == Some(VerifyConfirmation(token, expected, c, now).payload.expiresAt)
    ensures ExpiryOf(token, c).value > now
  {
  }

  class ConsumedConfirmations {
    var consumed: map<Token, int>

    constructor ()
      ensures consumed == map[]
    {
      consumed := map[];
    }

    static function Unexpired(m: map<Token, int>, now: int): map<Token, int> {
      map k | k in m && m[k] > now :: m[k]
    }

    method Gc(now: int)
      modifies this
      ensures consumed == Unexpired(old(consumed), now)
    {
      var keys := consumed.Keys;
      while keys != {}
        invariant keys <= old(consumed).Keys
        invariant consumed == map k | k in old(consumed) && (k in keys || old(consumed)[k] > now) :: old(consumed)[k]
        decreases keys
      {
        var key :| key in keys;
        if consumed[key] <= now {
          consumed := consumed - {key};
        }
        keys := keys - {key};
      }
    }

    method Has(token: Token, now: int) returns (r: bool)
      modifies this
      ensures consumed == Unexpired(old(consumed), now) && r == (token in consumed)
    {
      Gc(now);
      r := token in consumed;
    }

    method Consume(token: Token, expiresAt: int, now: int)
      modifies this
      ensures consumed == Unexpired(old(consumed), now)[token := expiresAt]
    {
      Gc(now);
      consumed := consumed[token := expiresAt];
    }
  }

  /** The confirmation gate of the auth tools, over the shared set of consumed tokens. */
  class ConfirmationGate {
    const codec: Codec
    const consumedTokens: ConsumedConfirmations
    ghost var accepted: set<Token>
    ghost var clock: int

    /** An accepted token is remembered until it can only be reported as expired. */
    ghost predicate Valid()
      reads this, consumedTokens
    {
      && consumedTokens.consumed.Keys <= accepted
      && forall t | t in accepted ::
           && ExpiryOf(t, codec).Some?
           && (|| ExpiryOf(t, codec).value <= clock
               || (t in consumedTokens.consumed && consumedTokens.consumed[t] == ExpiryOf(t, codec).value))
    }

    constructor (c: Codec, now: int)
      ensures Valid() && fresh(consumedTokens) && accepted == {} && clock == now && codec == c
    {
      codec, accepted, clock := c, {}, now;
      consumedTokens := new ConsumedConfirmations();
    }

    /**
     * `verifyAndConsume`. The source reads the clock three times in one call; the third clause says
     * exactly when a token gets through a second time: the first two readings straddle its expiry.
     */
    method VerifyAndConsume(token: Token, expected: Expected, verifyClock: int, hasClock: int, consumeClock: int)
      returns (ok: bool)
      requires Valid() && clock <= verifyClock <= hasClock <= consumeClock
      modifies this, consumedTokens
      ensures Valid() && clock == consumeClock
      ensures accepted == old(accepted) + if ok then {token} else {}
      ensures token in old(accepted) ==>
                (ok <==> && VerifyConfirmation(token, expected, codec, verifyClock).Accepted?
                         && ExpiryOf(token, codec).value <= hasClock)
      ensures token in old(accepted) && verifyClock == hasClock ==> !ok
      ensures token !in old(accepted) ==>
                (ok <==> VerifyConfirmation(token, expected, codec, verifyClock).Accepted?)
    {
      var result := VerifyConfirmation(token, expected, codec, verifyClock);
      clock := consumeClock;
      if !result.Accepted? {
        return false;
      }
      AcceptedIsUnexpired(token, expected, codec, verifyClock);
      var replayed := consumedTokens.Has(token, hasClock);
      if replayed {
        return false;
      }
      consumedTokens.Consume(token, result.payload.expiresAt, consumeClock);
      accepted := accepted + {token};
      return true;
    }
  }

  /** A token accepted twice: the second call verifies it just before its expiry, and looks for it just after. */
  method StraddledReplay(c: Codec, p: Payload) returns (first: bool, second: bool)
    requires IsSound(c) && p.expiresAt == 100
    ensures first && second
  {
    var gate := new ConfirmationGate(c, 0);
    var token, expected := MakeConfirmation(p, c), Expected(p.sessionId, p.toolId, p.inputHash);
    VerifyMade(p, expected, c, 0);
    VerifyMade(p, expected, c, 99);
    first := gate.VerifyAndConsume(token, expected, 0, 0, 0);
    AcceptedIsUnexpired(token, expected, c, 99);
    second := gate.VerifyAndConsume(token, expected, 99, 100, 100);
  }
}
