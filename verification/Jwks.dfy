/**
 The JWKS cache: what one refresh stores, how a key is selected (`kid` of section 4.5 of
 RFC 7517), and the cache object itself.
 */
module Jwks {
  import opened Prelude

  datatype DecodingKey = DecodingKey(material: string)

  /** One entry of the fetched document; `decoding` is the outcome of building its key. */
  datatype JwkEntry = JwkEntry(kid: Option<string>, alg: Option<string>, decoding: Option<DecodingKey>)

  datatype CachedKey = CachedKey(kid: Option<string>, alg: Option<string>, decoding: DecodingKey)

  datatype Cache = Cache(keys: seq<CachedKey>, fetchedAt: Option<int>)

  const EMPTY_CACHE := Cache([], None)

  /** The usable entries of a document, in document order. */
  function Usable(body: seq<JwkEntry>): (keys: seq<CachedKey>)
    ensures |keys| <= |body|
    ensures forall k :: k in keys <==> JwkEntry(k.kid, k.alg, Some(k.decoding)) in body
  {
    if body == [] then []
    else
      var e := body[0];
      var rest := Usable(body[1..]);
      if e.decoding.Some? then [CachedKey(e.kid, e.alg, e.decoding.value)] + rest else rest
  }

  lemma {:induction false} UsableHead(e: JwkEntry, rest: seq<JwkEntry>)
    ensures Usable([e] + rest) ==
      (if e.decoding.Some? then [CachedKey(e.kid, e.alg, e.decoding.value)] else []) + Usable(rest)
  {
    assert ([e] + rest)[1..] == rest;
  }

  predicate Answers(k: CachedKey, kid: Option<string>, alg: string) {
    match (kid, k.kid)
    case (Some(requested), Some(stored)) => requested == stored
    case (None, _) => k.alg == Some(alg) || k.alg.None?
    case _ => false
  }

  /** Index of the first key that answers the request, or the length when none does. */
  function FirstAnswer(keys: seq<CachedKey>, kid: Option<string>, alg: string): (i: nat)
    ensures i <= |keys|
    ensures forall j | 0 <= j < i :: !Answers(keys[j], kid, alg)
    ensures i < |keys| ==> Answers(keys[i], kid, alg)
  {
    if keys == [] || Answers(keys[0], kid, alg) then 0 else 1 + FirstAnswer(keys[1..], kid, alg)
  }

  function Lookup(keys: seq<CachedKey>, kid: Option<string>, alg: string): (r: Option<DecodingKey>)
    ensures r.None? <==> forall k <- keys :: !Answers(k, kid, alg)
    ensures r.Some? ==> exists k <- keys :: Answers(k, kid, alg) && k.decoding == r.value
  {
    var i := FirstAnswer(keys, kid, alg);
    if i == |keys| then None else Some(keys[i].decoding)
  }

  lemma {:induction false} LookupHead(k: CachedKey, rest: seq<CachedKey>, kid: Option<string>, alg: string)
    ensures Lookup([k] + rest, kid, alg) == if Answers(k, kid, alg) then Some(k.decoding) else Lookup(rest, kid, alg)
  {
    assert ([k] + rest)[1..] == rest;
  }

  /** A document entry whose key could be built and that has the requested id, or without one fits the algorithm. */
  predicate Serves(e: JwkEntry, kid: Option<string>, alg: string) {
    && e.decoding.Some?
    && if kid.Some? then e.kid == kid else e.alg.None? || e.alg == Some(alg)
  }

  /** `r` is the key of the first entry of the document that serves the request, or none when no entry does. */
  ghost predicate ServedFrom(body: seq<JwkEntry>, kid: Option<string>, alg: string, r: Option<DecodingKey>) {
    match r
    case None => forall e <- body :: !Serves(e, kid, alg)
    case Some(_) =>
      exists i :: 0 <= i < |body| && Serves(body[i], kid, alg) && body[i].decoding == r
        && forall j | 0 <= j < i :: !Serves(body[j], kid, alg)
  }

  lemma {:induction false} ServedFromRest(e: JwkEntry, rest: seq<JwkEntry>, kid: Option<string>, alg: string,
                                          r: Option<DecodingKey>)
    ensures Serves(e, kid, alg) ==> ServedFrom([e] + rest, kid, alg, e.decoding)
    ensures !Serves(e, kid, alg) && ServedFrom(rest, kid, alg, r) ==> ServedFrom([e] + rest, kid, alg, r)
  {
    var body := [e] + rest;
    if Serves(e, kid, alg) { assert body[0] == e; }
    if !Serves(e, kid, alg) && ServedFrom(rest, kid, alg, r) && r.Some? {
      var i :| 0 <= i < |rest| && Serves(rest[i], kid, alg) && rest[i].decoding == r
        && forall j | 0 <= j < i :: !Serves(rest[j], kid, alg);
      assert body[i + 1] == rest[i];
      forall j | 0 <= j < i + 1 ensures !Serves(body[j], kid, alg) {
        if j > 0 { assert body[j] == rest[j - 1]; }
      }
    }
  }

  /** Looking up what a document leaves in the cache finds the first entry of the document that serves. */
  lemma {:induction false} LookupServes(body: seq<JwkEntry>, kid: Option<string>, alg: string)
    ensures ServedFrom(body, kid, alg, Lookup(Usable(body), kid, alg))
  {
    if body == [] {
    } else {
      var e, rest := body[0], body[1..];
      assert body == [e] + rest;
      LookupServes(rest, kid, alg);
      UsableHead(e, rest);
      ServedFromRest(e, rest, kid, alg, Lookup(Usable(rest), kid, alg));
      if e.decoding.Some? {
        LookupHead(CachedKey(e.kid, e.alg, e.decoding.value), Usable(rest), kid, alg);
      } else {
        assert [] + Usable(rest) == Usable(rest);
      }
      hide Usable, Lookup, ServedFrom;
    }
  }

  /** `Instant::elapsed` never goes below zero. */
  predicate Stale(cache: Cache, now: int, ttl: nat) {
    match cache.fetchedAt
    case None => true
    case Some(t) => now - t > ttl
  }

  class JwksCache {
    var keys: seq<CachedKey>
    var fetchedAt: Option<int>

    ghost function Value(): Cache
      reads this
    {
      Cache(keys, fetchedAt)
    }

    constructor ()
      ensures Value() == EMPTY_CACHE
    {
      keys, fetchedAt := [], None;
    }

    method IsStale(now: int, ttl: nat) returns (stale: bool)
      ensures stale <==> Stale(Value(), now, ttl)
    {
      match fetchedAt
      case None => stale := true;
      case Some(t) => stale := (if now >= t then now - t else 0) > ttl;
    }

    method LookupKey(kid: Option<string>, alg: string) returns (r: Option<DecodingKey>)
      ensures r == Lookup(keys, kid, alg)
    {
      for i := 0 to |keys|
        invariant FirstAnswer(keys, kid, alg) >= i
      {
        if Answers(keys[i], kid, alg) { return Some(keys[i].decoding); }
      }
      return None;
    }

    /** A failed fetch leaves the cache untouched; a good one replaces keys and stamp together. */
    method Refresh(fetched: Option<seq<JwkEntry>>, now: int) returns (ok: bool)
      modifies this
      ensures ok == fetched.Some?
      ensures Value() == match fetched
        case None => old(Value())
        case Some(body) => Cache(Usable(body), Some(now))
    {
      if fetched.None? { return false; }
      var body := fetched.value;
      var cached: seq<CachedKey> := [];
      assert Usable([]) == [];
      hide Usable;
      for i := 0 to |body|
        invariant cached + Usable(body[i..]) == Usable(body)
        invariant Value() == old(Value())
      {
        var e := body[i];
        UsableHead(e, body[i + 1..]);
        assert body[i..] == [e] + body[i + 1..];
        if e.decoding.Some? {
          cached := cached + [CachedKey(e.kid, e.alg, e.decoding.value)];
        }
      }
      assert body[|body|..] == [];
      keys := cached;
      fetchedAt := Some(now);
      return true;
    }
  }
}
