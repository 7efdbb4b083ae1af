/** The cache of signing keys that the access check looks keys up in. */
module JwksCache {
  import opened Domain

  /** An RSA public key, by the modulus and exponent that the JWK encodes. */
  datatype PublicKey = PublicKey(n: nat, e: nat)

  /** A member of a JWK set; `parsed` is what decoding its modulus and exponent gives. */
  datatype Jwk = Jwk(kty: string, kid: string, parsed: Option<PublicKey>)

  /** What a fetch brings: an HTTP or JSON failure, or the list of keys. */
  datatype Reply = NoReply | Reply(keys: seq<Jwk>)

  type KeySet = map<string, PublicKey>

  /** `strings.EqualFold(kty, "RSA")`; the long s folds to s. */
  predicate IsRSA(kty: string) {
    && |kty| == 3
    && (kty[0] == 'R' || kty[0] == 'r')
    && (kty[1] == 'S' || kty[1] == 's' || kty[1] == '\U{17F}')
    && (kty[2] == 'A' || kty[2] == 'a')
  }

  /** Simple folding to upper case of the letters in question. */
  function Fold(c: char): char {
    if 'a' <= c <= 'z' then (c as int - 32) as char else if c == '\U{17F}' then 'S' else c
  }

  /** So a key type counts exactly if it folds to "RSA". */
  lemma FoldsToRSA(kty: string)
    ensures IsRSA(kty) <==> |kty| == 3 && seq(|kty|, i requires 0 <= i < |kty| => Fold(kty[i])) == "RSA"
    ensures IsRSA("RSA") && !IsRSA("EC")
  {
    if |kty| == 3 {
      var folded := seq(|kty|, i requires 0 <= i < |kty| => Fold(kty[i]));
      assert folded == "RSA" <==> folded[0] == 'R' && folded[1] == 'S' && folded[2] == 'A';
    }
  }

  predicate IsUsable(jwk: Jwk) {
    IsRSA(jwk.kty) && !IsBlank(jwk.kid)
  }

  /** The usable keys of a list by kid, a later one replacing an earlier one. */
  function ByKid(jwks: seq<Jwk>): KeySet {
    if jwks == [] then map[]
    else
      var last := jwks[|jwks| - 1];
      var before := ByKid(jwks[..|jwks| - 1]);
      if IsUsable(last) && last.parsed.Some? then before[last.kid := last.parsed.value] else before
  }

  predicate AllParse(jwks: seq<Jwk>) {
    forall i :: 0 <= i < |jwks| && IsUsable(jwks[i]) ==> jwks[i].parsed.Some?
  }

  /** What a fetch yields: it fails on no reply, on a usable key that does not parse, and on no usable key. */
  function Fetched(reply: Reply): Option<KeySet> {
    if reply.Reply? && AllParse(reply.keys) && ByKid(reply.keys) != map[] then Some(ByKid(reply.keys)) else None
  }

  /** A kid maps to the key of the last usable JWK that carries it. */
  lemma {:induction false} ByKidIsLast(jwks: seq<Jwk>, kid: string)
    requires AllParse(jwks)
    ensures kid in ByKid(jwks) <==> exists i :: 0 <= i < |jwks| && IsUsable(jwks[i]) && jwks[i].kid == kid
    ensures kid in ByKid(jwks) ==>
              exists i :: 0 <= i < |jwks| && IsUsable(jwks[i]) && jwks[i].kid == kid
                && jwks[i].parsed == Some(ByKid(jwks)[kid])
                && forall j :: i < j < |jwks| ==> !(IsUsable(jwks[j]) && jwks[j].kid == kid)
    decreases |jwks|
  {
    if jwks != [] {
      var last := |jwks| - 1;
      var before := jwks[..last];
      ByKidIsLast(before, kid);
      if IsUsable(jwks[last]) && jwks[last].kid == kid {
        assert jwks[last].parsed.Some?;
      } else if kid in ByKid(jwks) {
        var i :| 0 <= i < |before| && IsUsable(before[i]) && before[i].kid == kid
          && before[i].parsed == Some(ByKid(before)[kid])
          && forall j :: i < j < |before| ==> !(IsUsable(before[j]) && before[j].kid == kid);
        assert jwks[i] == before[i];
        forall j | i < j < |jwks|
          ensures !(IsUsable(jwks[j]) && jwks[j].kid == kid)
        {
          if j < last {
            assert jwks[j] == before[j];
          }
        }
      } else {
        forall i | 0 <= i < |jwks| && IsUsable(jwks[i])
          ensures jwks[i].kid != kid
        {
          if i < last {
            assert before[i] == jwks[i];
          }
        }
      }
    }
  }

  /** A fetch is accepted if and only if it has an RSA key with an id and all such keys parse. */
  lemma FetchedIff(reply: Reply)
    ensures Fetched(reply).Some? <==>
              && reply.Reply?
              && (exists i :: 0 <= i < |reply.keys| && IsRSA(reply.keys[i].kty) && !IsBlank(reply.keys[i].kid))
              && (forall i :: 0 <= i < |reply.keys| && IsRSA(reply.keys[i].kty) && !IsBlank(reply.keys[i].kid) ==>
                    reply.keys[i].parsed.Some?)
    ensures Fetched(reply).Some? ==> Fetched(reply).value == ByKid(reply.keys)
  {
    if reply.Reply? && AllParse(reply.keys) {
      if i :| 0 <= i < |reply.keys| && IsUsable(reply.keys[i]) {
        ByKidIsLast(reply.keys, reply.keys[i].kid);
        assert reply.keys[i].kid in ByKid(reply.keys);
      } else if ByKid(reply.keys) != map[] {
        var kid :| kid in ByKid(reply.keys);
        ByKidIsLast(reply.keys, kid);
      }
    }
  }

  // ---------------------------------------------------------------- the guarded sections

  datatype Cache = Cache(keys: KeySet, expires: int)

  /** Read section: a hit needs a cache that is not empty and not past its expiry. */
  function Look(c: Cache, kid: string, now: int): Option<PublicKey> {
    if c.keys == map[] || now > c.expires then None
    else if kid in c.keys then Some(c.keys[kid]) else None
  }

  predicate NeedsFetch(c: Cache, force: bool, now: int) {
    force || c.keys == map[] || !(now < c.expires)
  }

  /** Write section: keeps a fresh cache unless forced, and a failing fetch leaves it alone. */
  function Refresh(c: Cache, ttl: int, force: bool, now: int, reply: Reply, stored: int): (Cache, bool) {
    if !NeedsFetch(c, force, now) then (c, true)
    else if Fetched(reply).None? then (c, false)
    else (Cache(Fetched(reply).value, stored + ttl), true)
  }

  datatype KeyError = FetchFailed | KeyNotFound

  /** The clock readings of one call and the replies to its fetches, as far as they happen. */
  datatype Surroundings = Surroundings(
    look0: int, check: int, reply1: Reply, stored1: int,
    look1: int, reply2: Reply, stored2: int, look2: int)

  class Verifier {
    const jwksTTL: int
    var jwksCache: KeySet
    var jwksExpires: int
    var fetches: nat  // fetches made so far

    ghost function State(): Cache
      reads this
    {
      Cache(jwksCache, jwksExpires)
    }

    constructor (ttl: int)
      ensures State() == Cache(map[], 0) && jwksTTL == ttl && fetches == 0
    {
      jwksTTL, jwksCache, jwksExpires, fetches := ttl, map[], 0, 0;
    }

    method CachedSigningKey(kid: string, now: int) returns (key: Option<PublicKey>)
      ensures key.Some? <==> kid in jwksCache && now <= jwksExpires
      ensures key.Some? ==> key.value == jwksCache[kid]
      ensures key == Look(State(), kid, now)
    {
      if |jwksCache| == 0 {
        return None;
      }
      if now > jwksExpires {
        return None;
      }
      return if kid in jwksCache then Some(jwksCache[kid]) else None;
    }

    method FetchSigningKeys(reply: Reply) returns (r: Option<KeySet>)
      modifies this`fetches
      ensures r == Fetched(reply) && fetches == old(fetches) + 1
    {
      fetches := fetches + 1;
      if reply.NoReply? {
        return None;
      }
      var keys: KeySet := map[];
      for i := 0 to |reply.keys|
        invariant keys == ByKid(reply.keys[..i]) && AllParse(reply.keys[..i])
      {
        var jwk := reply.keys[i];
        assert reply.keys[..i + 1][..i] == reply.keys[..i];
        if !IsRSA(jwk.kty) {
          continue;
        }
        if IsBlank(jwk.kid) {
          continue;
        }
        if jwk.parsed.None? {
          return None;
        }
        keys := keys[jwk.kid := jwk.parsed.value];
      }
      assert reply.keys[..|reply.keys|] == reply.keys;
      return if |keys| == 0 then None else Some(keys);
    }

    method RefreshSigningKeys(force: bool, now: int, reply: Reply, stored: int) returns (ok: bool)
      modifies this
      ensures var fetched := force || old(jwksCache) == map[] || now >= old(jwksExpires);
              && fetches == old(fetches) + (if fetched then 1 else 0)
              && ok == (fetched ==> Fetched(reply).Some?)
              && if fetched && ok then jwksCache == Fetched(reply).value && jwksExpires == stored + jwksTTL
                 else jwksCache == old(jwksCache) && jwksExpires == old(jwksExpires)
      ensures (State(), ok) == Refresh(old(State()), jwksTTL, force, now, reply, stored)
    {
      if !force && |jwksCache| > 0 && now < jwksExpires {
        return true;
      }
      var keys := FetchSigningKeys(reply);
      if keys.None? {
        return false;
      }
      jwksCache := keys.value;
      jwksExpires := stored + jwksTTL;
      return true;
    }

    /**
      One call with nobody in between: look, refresh, look, force a refresh, look. `round` is the look
      that found the key, which was then in the cache and not past its expiry.
     */
    method SigningKey(kid: string, s: Surroundings) returns (r: Result<PublicKey, KeyError>, ghost round: nat)
      modifies this
      ensures fetches <= old(fetches) + 2
      ensures r.Ok? ==> round <= 2 && fetches <= old(fetches) + round
      ensures r.Ok? ==> Look(State(), kid, [s.look0, s.look1, s.look2][round]) == Some(r.value)
      ensures r.Ok? && round == 0 ==> State() == old(State())
      ensures r.Ok? && round == 1 ==> State() == Refresh(old(State()), jwksTTL, false, s.check, s.reply1, s.stored1).0
      ensures r.Ok? && round == 2 ==>
                Fetched(s.reply2).Some? && State() == Cache(Fetched(s.reply2).value, s.stored2 + jwksTTL)
      ensures Look(old(State()), kid, s.look0).Some? ==>
                r == Ok(old(jwksCache)[kid]) && State() == old(State()) && fetches == old(fetches)
      ensures r == Err(KeyNotFound) ==>
                Fetched(s.reply2).Some? && fetches > old(fetches)
                && (kid !in Fetched(s.reply2).value || s.look2 > s.stored2 + jwksTTL)
      ensures r == Err(FetchFailed) ==> Fetched(s.reply1).None? || Fetched(s.reply2).None?
    {
      round := 0;
      var key := CachedSigningKey(kid, s.look0);
      if key.Some? {
        return Ok(key.value), round;
      }
      var ok := RefreshSigningKeys(false, s.check, s.reply1, s.stored1);
      if !ok {
        return Err(FetchFailed), round;
      }
      round := 1;
      key := CachedSigningKey(kid, s.look1);
      if key.Some? {
        return Ok(key.value), round;
      }
      ok := RefreshSigningKeys(true, s.look1, s.reply2, s.stored2);
      if !ok {
        return Err(FetchFailed), round;
      }
      round := 2;
      key := CachedSigningKey(kid, s.look2);
      r := if key.Some? then Ok(key.value) else Err(KeyNotFound);
    }
  }
}
