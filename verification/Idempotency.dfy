/**
 The data of the idempotency layer: request fingerprints, Redis keys, what is stored of a
 response and what a replay looks like.
 */
module Idempotency {
  import opened Prelude
  import Text

  type Byte = b: nat | b < 256
  type Status = n: nat | 100 <= n < 1000 witness 200

  /** Text and bodies are byte strings. No body: buffering it failed. No key: header absent or not text. */
  datatype Request = Request(
    verb: string, path: string, key: Option<string>, tenant: Option<string>, body: Option<string>)

  type Header = (string, string)

  datatype Response = Response(status: Status, headers: seq<Header>, body: string)

  datatype CachedResponse = CachedResponse(status: nat, headers: seq<Header>, body: string, fingerprint: string)

  /** What a Redis string can hold: a stored response, or something that does not parse as one. */
  datatype Entry = Garbage | Cached(response: CachedResponse)

  datatype Config = Config(namespace: string, digest: string -> seq<Byte>)

  // ----- which requests are intercepted, and under which key -----

  predicate Mutating(verb: string) {
    verb in {"POST", "PUT", "PATCH", "DELETE"}
  }

  predicate Intercepted(req: Request) {
    Mutating(req.verb) && req.key.Some?
  }

  function TenantPrefix(tenant: Option<string>): string {
    match tenant
    case None => ""
    case Some(t) => "t:" + t + ":"
  }

  function KeyOf(cfg: Config, tenant: Option<string>, key: string): string {
    cfg.namespace + ":" + TenantPrefix(tenant) + key
  }

  function RedisKey(cfg: Config, req: Request): string
    requires req.key.Some?
  {
    KeyOf(cfg, req.tenant, req.key.value)
  }

  /** Two tenants reusing one client key never share an entry. */
  lemma {:induction false} TenantsAreSeparated(cfg: Config, a: Request, b: Request)
    requires a.key.Some? && b.key == a.key && a.tenant.Some? && b.tenant.Some?
    ensures RedisKey(cfg, a) == RedisKey(cfg, b) <==> a.tenant == b.tenant
  {
    if RedisKey(cfg, a) == RedisKey(cfg, b) {
      var ka, kb := TenantPrefix(a.tenant) + a.key.value, TenantPrefix(b.tenant) + b.key.value;
      assert RedisKey(cfg, a) == cfg.namespace + ":" + ka && RedisKey(cfg, b) == cfg.namespace + ":" + kb;
      CancelPrefix(cfg.namespace + ":", ka, kb);
      assert |a.tenant.value| == |b.tenant.value|;
      assert a.tenant.value == ka[2..2 + |a.tenant.value|];
      assert b.tenant.value == kb[2..2 + |b.tenant.value|];
    }
  }

  lemma {:induction false} CancelPrefix(p: string, a: string, b: string)
    requires p + a == p + b
    ensures a == b
  {
    assert a == (p + a)[|p|..];
    assert b == (p + b)[|p|..];
  }

  lemma {:induction false} PartsAround(p: string, rest: string, sep: char)
    requires sep !in p
    ensures var s := p + [sep] + rest;
      Text.IndexOf(s, sep) == |p| && s[..|p|] == p && s[|p| + 1..] == rest
  {
    Text.IndexOfAppend(p, [sep] + rest, sep);
    assert p + [sep] + rest == p + ([sep] + rest);
  }

  lemma {:induction false} FirstSeparator(p: string, a: string, q: string, b: string, sep: char)
    requires sep !in p && sep !in q && p + [sep] + a == q + [sep] + b
    ensures p == q && a == b
  {
    hide *;
    PartsAround(p, a, sep);
    PartsAround(q, b, sep);
  }

  /**
   Some pair of client keys makes two tenants (or no tenant) meet exactly when one prefix begins with
   the other.
   */
  lemma {:induction false} TenantsMeetIff(cfg: Config, a: Option<string>, b: Option<string>)
    ensures (exists ka, kb :: KeyOf(cfg, a, ka) == KeyOf(cfg, b, kb)) <==>
      TenantPrefix(a) <= TenantPrefix(b) || TenantPrefix(b) <= TenantPrefix(a)
  {
    var ns, p, q := cfg.namespace + ":", TenantPrefix(a), TenantPrefix(b);
    hide TenantPrefix;
    if ka, kb :| KeyOf(cfg, a, ka) == KeyOf(cfg, b, kb) {
      assert KeyOf(cfg, a, ka) == ns + (p + ka) && KeyOf(cfg, b, kb) == ns + (q + kb);
      CancelPrefix(ns, p + ka, q + kb);
      SharedStart(p, ka, q, kb);
    }
    if p <= q {
      assert KeyOf(cfg, a, q[|p|..]) == KeyOf(cfg, b, "") by { assert p + q[|p|..] == q + ""; }
    } else if q <= p {
      assert KeyOf(cfg, a, "") == KeyOf(cfg, b, p[|q|..]) by { assert q + p[|q|..] == p + ""; }
    }
  }

  lemma {:induction false} SharedStart(p: string, a: string, q: string, b: string)
    requires p + a == q + b
    ensures p <= q || q <= p
  {
    if |p| <= |q| {
      assert p == (p + a)[..|p|] == (q + b)[..|p|] == q[..|p|];
    } else {
      assert q == (q + b)[..|q|] == (p + a)[..|q|] == p[..|q|];
    }
  }

  lemma {:induction false} TenantedKey(cfg: Config, tenant: string, key: string)
    ensures KeyOf(cfg, Some(tenant), key) == cfg.namespace + ":t:" + (tenant + [':'] + key)
  {
  }

  /** With tenant ids free of colons, the Redis key of a tenanted request determines tenant and client key. */
  lemma {:induction false} ColonFreeKeysAreInjective(cfg: Config, a: Request, b: Request)
    requires a.key.Some? && b.key.Some? && a.tenant.Some? && b.tenant.Some?
    requires ':' !in a.tenant.value && ':' !in b.tenant.value
    ensures RedisKey(cfg, a) == RedisKey(cfg, b) <==> a.tenant == b.tenant && a.key == b.key
  {
    if RedisKey(cfg, a) == RedisKey(cfg, b) {
      TenantedKey(cfg, a.tenant.value, a.key.value);
      TenantedKey(cfg, b.tenant.value, b.key.value);
      hide KeyOf;
      CancelPrefix(cfg.namespace + ":t:", a.tenant.value + [':'] + a.key.value, b.tenant.value + [':'] + b.key.value);
      FirstSeparator(a.tenant.value, a.key.value, b.tenant.value, b.key.value, ':');
    }
  }

  // ----- fingerprints -----

  const HEX: string := "0123456789abcdef"

  function HexByte(b: Byte): (s: string)
    ensures |s| == 2
  {
    [HEX[b / 16], HEX[b % 16]]
  }

  function Hex(bytes: seq<Byte>): (s: string)
    ensures |s| == 2 * |bytes|
  {
    if bytes == [] then "" else Hex(bytes[..|bytes| - 1]) + HexByte(bytes[|bytes| - 1])
  }

  function Encode(req: Request): string
    requires req.body.Some?
  {
    req.verb + "\n" + req.path + "\n" + req.body.value
  }

  function Fingerprint(cfg: Config, req: Request): string
    requires req.body.Some?
  {
    Hex(cfg.digest(Encode(req)))
  }

  method FingerprintRequest(cfg: Config, req: Request) returns (hex: string)
    requires req.body.Some?
    ensures hex == Fingerprint(cfg, req) == Hex(cfg.digest(req.verb + "\n" + req.path + "\n" + req.body.value))
  {
    var digest := cfg.digest(Encode(req));
    hex := "";
    for i := 0 to |digest|
      invariant hex == Hex(digest[..i])
    {
      assert digest[..i + 1][..i] == digest[..i];
      hex := hex + HexByte(digest[i]);
    }
    assert digest[..|digest|] == digest;
  }

  lemma {:induction false} HexByteInjective(a: Byte, b: Byte)
    requires HexByte(a) == HexByte(b)
    ensures a == b
  {
    HexDigitInjective(a / 16, b / 16);
    HexDigitInjective(a % 16, b % 16);
    assert HexByte(a)[0] == HEX[a / 16] && HexByte(a)[1] == HEX[a % 16];
  }

  lemma {:induction false} HexDigitInjective(i: nat, j: nat)
    requires i < 16 && j < 16
    ensures HEX[i] == HEX[j] ==> i == j
  {
  }

  /** The text of the last byte, and of the ones before it. */
  lemma {:induction false} HexSnoc(bytes: seq<Byte>)
    requires bytes != []
    ensures Hex(bytes)[..2 * (|bytes| - 1)] == Hex(bytes[..|bytes| - 1])
    ensures Hex(bytes)[2 * (|bytes| - 1)..] == HexByte(bytes[|bytes| - 1])
  {
    hide HexByte;
  }

  /** The hexadecimal form determines the bytes. */
  lemma {:induction false} HexInjective(a: seq<Byte>, b: seq<Byte>)
    requires Hex(a) == Hex(b)
    ensures a == b
  {
    hide Hex, HexByte;
    assert |a| == |b|;
    if a == [] {
    } else {
      var n := |a| - 1;
      HexSnoc(a);
      HexSnoc(b);
      HexInjective(a[..n], b[..n]);
      HexByteInjective(a[n], b[n]);
      assert a == a[..n] + [a[n]] && b == b[..n] + [b[n]];
    }
  }

  function DigitOf(c: char): int {
    if '0' <= c <= '9' then c as int - '0' as int else c as int - 'a' as int + 10
  }

  /** Each byte is written as two lower-case digits, the high one first. */
  lemma {:induction false} HexReads(bytes: seq<Byte>, i: nat)
    requires i < |bytes|
    ensures var hi, lo := Hex(bytes)[2 * i], Hex(bytes)[2 * i + 1];
      && ('0' <= hi <= '9' || 'a' <= hi <= 'f') && ('0' <= lo <= '9' || 'a' <= lo <= 'f')
      && 16 * DigitOf(hi) + DigitOf(lo) == bytes[i]
  {
    var n := |bytes| - 1;
    HexSnoc(bytes);
    if i == n {
      HexDigitReads(bytes[n] / 16);
      HexDigitReads(bytes[n] % 16);
      assert Hex(bytes)[2 * n] == Hex(bytes)[2 * n..][0] && Hex(bytes)[2 * n + 1] == Hex(bytes)[2 * n..][1];
    } else {
      HexReads(bytes[..n], i);
      assert Hex(bytes)[..2 * n][2 * i] == Hex(bytes)[2 * i] && Hex(bytes)[..2 * n][2 * i + 1] == Hex(bytes)[2 * i + 1];
    }
  }

  lemma {:induction false} HexDigitReads(d: nat)
    requires d < 16
    ensures DigitOf(HEX[d]) == d && ('0' <= HEX[d] <= '9' || 'a' <= HEX[d] <= 'f')
  {
  }

  predicate SameOperation(a: Request, b: Request) {
    a.verb == b.verb && a.path == b.path && a.body == b.body
  }

  predicate NewlineFree(req: Request) {
    '\n' !in req.verb && '\n' !in req.path
  }

  /** Verbs and paths cannot contain a newline, so the joined text determines all three parts. */
  lemma {:induction false} EncodingIsInjective(a: Request, b: Request)
    requires a.body.Some? && b.body.Some? && NewlineFree(a) && NewlineFree(b)
    ensures Encode(a) == Encode(b) <==> SameOperation(a, b)
  {
    if Encode(a) == Encode(b) {
      var restA, restB := a.path + "\n" + a.body.value, b.path + "\n" + b.body.value;
      assert Encode(a) == a.verb + "\n" + restA;
      assert Encode(b) == b.verb + "\n" + restB;
      FirstSeparator(a.verb, restA, b.verb, restB, '\n');
      FirstSeparator(a.path, a.body.value, b.path, b.body.value, '\n');
    }
  }

  // ----- storing and replaying -----

  /** `HeaderValue::to_str` succeeds. */
  predicate Visible(value: string) {
    forall c <- value :: c == '\t' || ' ' <= c <= '~'
  }

  function VisibleHeaders(headers: seq<Header>): seq<Header> {
    if headers == [] then []
    else
      var last := headers[|headers| - 1];
      VisibleHeaders(headers[..|headers| - 1]) + if Visible(last.1) then [last] else []
  }

  method CollectHeaders(headers: seq<Header>) returns (kept: seq<Header>)
    ensures kept == VisibleHeaders(headers)
  {
    kept := [];
    for i := 0 to |headers|
      invariant kept == VisibleHeaders(headers[..i])
    {
      assert headers[..i + 1][..i] == headers[..i];
      if Visible(headers[i].1) {
        kept := kept + [headers[i]];
      }
    }
    assert headers[..|headers|] == headers;
  }

  predicate TabsAndPrintables(value: string) {
    forall c <- value :: c as int == 9 || 32 <= c as int < 127
  }

  lemma {:induction false} VisibleMeans(value: string)
    ensures Visible(value) <==> TabsAndPrintables(value)
  {
  }

  /** Headers of tabs and characters 32 to 126 survive with their multiplicity; others do not. */
  lemma {:induction false} VisibleHeadersKeep(headers: seq<Header>, h: Header)
    ensures multiset(VisibleHeaders(headers))[h] ==
      if TabsAndPrintables(h.1) then multiset(headers)[h] else 0
  {
    VisibleMeans(h.1);
    hide Visible, TabsAndPrintables;
    if headers == [] {
    } else {
      var n := |headers| - 1;
      VisibleHeadersKeep(headers[..n], h);
      assert headers == headers[..n] + [headers[n]];
    }
  }

  function Stored(r: Response, fingerprint: string): CachedResponse {
    CachedResponse(r.status, VisibleHeaders(r.headers), r.body, fingerprint)
  }

  const REPLAY_HEADER: Header := ("x-idempotent-replay", "1")

  function Replay(c: CachedResponse): Response {
    Response(if 100 <= c.status < 1000 then c.status else 200, VisibleHeaders(c.headers) + [REPLAY_HEADER], c.body)
  }

  lemma {:induction false} VisibleTwice(headers: seq<Header>)
    ensures VisibleHeaders(VisibleHeaders(headers)) == VisibleHeaders(headers)
  {
    if headers == [] {
    } else {
      var n := |headers| - 1;
      var before := VisibleHeaders(headers[..n]);
      VisibleTwice(headers[..n]);
      if Visible(headers[n].1) {
        assert (before + [headers[n]])[..|before|] == before;
      } else {
        assert before + [] == before;
      }
    }
  }

  /** A replay is the original response with its text headers, one marker header, status and body. */
  lemma {:induction false} ReplayOfStored(r: Response, fingerprint: string)
    ensures Replay(Stored(r, fingerprint)) == Response(r.status, VisibleHeaders(r.headers) + [REPLAY_HEADER], r.body)
  {
    VisibleTwice(r.headers);
  }
}
