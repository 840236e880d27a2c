/** API keys: creation, and verification by prefix lookup and hash comparison. */
module ApiKeys {
  import opened Wrappers

  datatype ApiKey = ApiKey(org: string, prefix: string, keyHash: string, revoked: bool, lastUsedAt: Option<int>)

  datatype KeyError = MultipleResultsFound

  type Hash = string -> string

  ghost predicate Collide(h: Hash, p: string, q: string) {
    p != q && h(p) == h(q)
  }

  /** `s.split("_")` */
  function Split(s: string): (parts: seq<string>)
    ensures |parts| >= 1
  {
    if s == "" then [""]
    else
      var rest := Split(s[1..]);
      if s[0] == '_' then [""] + rest else [[s[0]] + rest[0]] + rest[1..]
  }

  /** The token shown once at creation. */
  function Plaintext(prefix: string, secret: string): string {
    "cspm_" + prefix + "_" + secret
  }

  lemma {:induction false} SplitPrefix(p: string, rest: string)
    requires '_' !in p
    ensures Split(p + "_" + rest) == [p] + Split(rest)
  {
    var s := p + "_" + rest;
    if p == "" {
      assert s[1..] == rest;
    } else {
      SplitPrefix(p[1..], rest);
      assert s[1..] == p[1..] + "_" + rest;
      assert s[0] == p[0] && p[0] in p && p == [p[0]] + p[1..];
    }
  }

  /** Splitting a token recovers its prefix, whatever the secret, underscores included. */
  lemma SplitRecoversPrefix(prefix: string, secret: string)
    requires '_' !in prefix
    ensures var parts := Split(Plaintext(prefix, secret));
            |parts| >= 3 && parts[0] == "cspm" && parts[1] == prefix
  {
    SplitPrefix("cspm", prefix + "_" + secret);
    assert Plaintext(prefix, secret) == "cspm" + "_" + (prefix + "_" + secret);
    SplitPrefix(prefix, secret);
  }

  predicate Live(k: ApiKey, prefix: string) {
    k.prefix == prefix && !k.revoked
  }

  class KeyTable {
    const hash: Hash
    var keys: seq<ApiKey>

    constructor (h: Hash)
      ensures hash == h && keys == []
    {
      hash, keys := h, [];
    }

    /** Store a new key; only its hash is kept.  The prefix and the secret are random. */
    method CreateApiKey(org: string, prefix: string, secret: string) returns (plaintext: string)
      modifies this
      ensures plaintext == Plaintext(prefix, secret)
      ensures keys == old(keys) + [ApiKey(org, prefix, hash(plaintext), false, None)]
    {
      plaintext := "cspm_" + prefix + "_" + secret;
      keys := keys + [ApiKey(org, prefix, hash(plaintext), false, None)];
    }

    /** The position of the matching unrevoked key, if any.  The prefix query fails on two hits. */
    method VerifyApiKey(plaintext: string, now: int) returns (r: Result<Option<nat>, KeyError>)
      modifies this
      ensures r == Lookup(hash, old(keys), plaintext)
      ensures keys == if r.Ok? && r.value.Some?
                      then old(keys)[r.value.value := old(keys)[r.value.value].(lastUsedAt := Some(now))]
                      else old(keys)
    {
      var parts := Split(plaintext);
      if |parts| < 3 || parts[0] != "cspm" {
        return Ok(None);
      }
      var prefix := parts[1];
      var hits := Hits(keys, prefix);
      if |hits| > 1 {
        return Err(MultipleResultsFound);
      }
      if |hits| == 0 {
        return Ok(None);
      }
      var i := hits[0];
      if keys[i].keyHash != hash(plaintext) {
        return Ok(None);
      }
      keys := keys[i := keys[i].(lastUsedAt := Some(now))];
      return Ok(Some(i));
    }
  }

  /** The positions of the unrevoked keys with a prefix. */
  function Hits(keys: seq<ApiKey>, prefix: string): (hits: seq<nat>)
    ensures forall i | 0 <= i < |hits| :: hits[i] < |keys| && Live(keys[hits[i]], prefix)
    ensures forall i, j | 0 <= i < j < |hits| :: hits[i] < hits[j]
    ensures forall k: nat | k < |keys| && Live(keys[k], prefix) :: k in hits
  {
    if keys == [] then []
    else
      var n := |keys| - 1;
      Hits(keys[..n], prefix) + if Live(keys[n], prefix) then [n] else []
  }

  function Lookup(h: Hash, keys: seq<ApiKey>, plaintext: string): Result<Option<nat>, KeyError> {
    var parts := Split(plaintext);
    if |parts| < 3 || parts[0] != "cspm" then Ok(None)
    else
      var hits := Hits(keys, parts[1]);
      if |hits| > 1 then Err(MultipleResultsFound)
      else if |hits| == 1 && keys[hits[0]].keyHash == h(plaintext) then Ok(Some(hits[0]))
      else Ok(None)
  }

  // ----- agreement with the naive definition ------------------------------------------------

  /** The reference: the key is unrevoked and was made from exactly this token. */
  predicate Matches(h: Hash, k: ApiKey, plaintext: string) {
    !k.revoked && k.keyHash == h(plaintext)
  }

  /** The key was made from this secret, and the presented token does not collide with its token. */
  ghost predicate Issued(h: Hash, k: ApiKey, secret: string, plaintext: string) {
    && '_' !in k.prefix
    && k.keyHash == h(Plaintext(k.prefix, secret))
    && !Collide(h, plaintext, Plaintext(k.prefix, secret))
  }

  /** No two unrevoked keys share a prefix. */
  ghost predicate DistinctPrefixes(keys: seq<ApiKey>) {
    forall i, j | 0 <= i < j < |keys| && !keys[i].revoked && !keys[j].revoked :: keys[i].prefix != keys[j].prefix
  }

  lemma MatchFixesPrefix(h: Hash, k: ApiKey, secret: string, plaintext: string)
    requires Issued(h, k, secret, plaintext) && Matches(h, k, plaintext)
    ensures var parts := Split(plaintext); |parts| >= 3 && parts[0] == "cspm" && parts[1] == k.prefix
  {
    SplitRecoversPrefix(k.prefix, secret);
  }

  /** Over issued keys none of whose tokens collides with the presented one, a lookup that does not fail
      finds a key exactly when a linear scan by hash would, and the same one. */
  lemma LookupAgreesWithScan(h: Hash, keys: seq<ApiKey>, secrets: seq<string>, plaintext: string, k: nat)
    requires |secrets| == |keys| && forall i | 0 <= i < |keys| :: Issued(h, keys[i], secrets[i], plaintext)
    requires Lookup(h, keys, plaintext).Ok? && k < |keys|
    ensures Matches(h, keys[k], plaintext) <==> Lookup(h, keys, plaintext) == Ok(Some(k))
  {
    if Matches(h, keys[k], plaintext) {
      MatchFixesPrefix(h, keys[k], secrets[k], plaintext);
      assert Live(keys[k], Split(plaintext)[1]);
      var hits := Hits(keys, Split(plaintext)[1]);
      assert k in hits;
      assert hits[0] == k;
    }
  }

  /** The lookup fails exactly when two unrevoked keys have the token's prefix, so never while the
      unrevoked prefixes are distinct. */
  lemma LookupFailsIff(h: Hash, keys: seq<ApiKey>, plaintext: string)
    ensures Lookup(h, keys, plaintext).Err? <==>
            var parts := Split(plaintext);
            && |parts| >= 3 && parts[0] == "cspm"
            && exists i, j | 0 <= i < j < |keys| :: Live(keys[i], parts[1]) && Live(keys[j], parts[1])
    ensures DistinctPrefixes(keys) ==> Lookup(h, keys, plaintext).Ok?
  {
    var parts := Split(plaintext);
    if |parts| >= 3 {
      TwoHits(keys, parts[1]);
    }
  }

  lemma TwoHits(keys: seq<ApiKey>, prefix: string)
    ensures |Hits(keys, prefix)| > 1 <==>
            exists i, j | 0 <= i < j < |keys| :: Live(keys[i], prefix) && Live(keys[j], prefix)
  {
    if |Hits(keys, prefix)| > 1 {
      FirstTwo(keys, prefix, Hits(keys, prefix));
    }
    if i: nat, j: nat :| i < j < |keys| && Live(keys[i], prefix) && Live(keys[j], prefix) {
      TwoMembers(Hits(keys, prefix), i, j);
    }
  }

  lemma FirstTwo(keys: seq<ApiKey>, prefix: string, hits: seq<nat>)
    requires |hits| > 1 && hits[0] < hits[1] < |keys| && Live(keys[hits[0]], prefix) && Live(keys[hits[1]], prefix)
    ensures exists i, j | 0 <= i < j < |keys| :: Live(keys[i], prefix) && Live(keys[j], prefix)
  {
  }

  lemma TwoMembers(hits: seq<nat>, i: nat, j: nat)
    requires i in hits && j in hits && i != j
    ensures |hits| > 1
  {
  }

  /** A freshly issued key whose prefix is not in use verifies, and to itself. */
  lemma NewKeyVerifies(h: Hash, keys: seq<ApiKey>, org: string, prefix: string, secret: string)
    requires '_' !in prefix && forall i | 0 <= i < |keys| :: !Live(keys[i], prefix)
    ensures var token := Plaintext(prefix, secret);
            Lookup(h, keys + [ApiKey(org, prefix, h(token), false, None)], token) == Ok(Some(|keys|))
  {
    SplitRecoversPrefix(prefix, secret);
    var all := keys + [ApiKey(org, prefix, h(Plaintext(prefix, secret)), false, None)];
    var hits := Hits(all, prefix);
    assert Live(all[|keys|], prefix) && |keys| in hits;
    assert forall i | 0 <= i < |keys| :: all[i] == keys[i];
    TwoHits(all, prefix);
    forall i | 0 <= i < |hits| ensures hits[i] == |keys| {
      assert Live(all[hits[i]], prefix);
    }
  }
}
