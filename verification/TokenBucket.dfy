/**
 The rate limiter's script on one bucket key, in exact arithmetic. `Script` is the script as
 written, over fractional tokens and refill per second; `Take` is the same decision on whole
 units (one token is `window` units, one millisecond adds `capacity` units). The first is
 proved to compute the second, and the rate theorems follow for both.
 */
module TokenBucket {
  import opened Prelude

  /** The window is a whole number of milliseconds. */
  datatype Config = Config(capacity: nat, windowMs: nat)

  datatype Bucket = Bucket(tokens: real, ts: int)

  datatype Reply = Reply(allowed: bool, retryAfterMs: int, remaining: int)

  function Window(cfg: Config): (w: nat)
    ensures w >= 1
  {
    if cfg.windowMs >= 1 then cfg.windowMs else 1
  }

  function RefillPerSec(cfg: Config): real {
    var seconds := cfg.windowMs as real / 1000.0;
    cfg.capacity as real / (if seconds >= 0.001 then seconds else 0.001)
  }

  function TtlMs(cfg: Config): nat {
    if cfg.windowMs >= 1000 then cfg.windowMs else 1000
  }

  function Ceil(x: real): int { -((-x).Floor) }

  function Min(x: real, y: real): real { if x <= y then x else y }

  function Max(x: int, y: int): (m: int)
    ensures m >= x
  {
    if x >= y then x else y
  }

  /** What the bucket holds at `now`, before the request is charged. */
  function Refilled(capacity: nat, refill: real, data: Option<Bucket>, now: int): real {
    match data
    case None => capacity as real
    case Some(b) => Min(capacity as real, b.tokens + Max(0, now - b.ts) as real / 1000.0 * refill)
  }

  function Script(capacity: nat, refill: real, ttl: nat, data: Option<Bucket>, now: int): (Bucket, Reply) {
    var tokens := Refilled(capacity, refill, data, now);
    if tokens >= 1.0 then
      (Bucket(tokens - 1.0, now), Reply(true, 0, (tokens - 1.0).Floor))
    else
      var retry := if refill > 0.0 then Ceil((1.0 - tokens) / refill * 1000.0) else ttl;
      (Bucket(tokens, now), Reply(false, retry, tokens.Floor))
  }

  /** The script on the arguments the middleware passes. */
  function Decide(cfg: Config, data: Option<Bucket>, now: int): (Bucket, Reply) {
    Script(cfg.capacity, RefillPerSec(cfg), TtlMs(cfg), data, now)
  }

  /** The bucket hashes, and when each key expires. */
  class BucketStore {
    var hashes: map<string, Bucket>
    var expiresAt: map<string, int>

    ghost function Stored(key: string): Option<Bucket>
      reads this
    {
      if key in hashes then Some(hashes[key]) else None
    }

    constructor ()
      ensures hashes == map[] && expiresAt == map[]
    {
      hashes, expiresAt := map[], map[];
    }

    method Evaluate(key: string, capacity: nat, refill: real, ttl: nat, now: int) returns (reply: Reply)
      modifies this
      ensures (hashes, reply) == var (b, r) := Script(capacity, refill, ttl, old(Stored(key)), now);
        (old(hashes)[key := b], r)
      ensures expiresAt == old(expiresAt)[key := now + ttl]
    {
      var tokens: real := capacity as real;
      var ts := now;
      if key in hashes {
        tokens, ts := hashes[key].tokens, hashes[key].ts;
      }
      var elapsed := Max(0, now - ts) as real / 1000.0;
      NothingGained(refill);
      tokens := Min(capacity as real, tokens + elapsed * refill);
      assert tokens == Refilled(capacity, refill, Stored(key), now);
      hide Refilled;
      var allowed := false;
      var retryAfterMs := 0;
      if tokens >= 1.0 {
        tokens := tokens - 1.0;
        allowed := true;
      } else if refill > 0.0 {
        retryAfterMs := Ceil((1.0 - tokens) / refill * 1000.0);
      } else {
        retryAfterMs := ttl;
      }
      hashes := hashes[key := Bucket(tokens, now)];
      expiresAt := expiresAt[key := now + ttl];
      reply := Reply(allowed, retryAfterMs, tokens.Floor);
    }
  }

  lemma {:induction false} NothingGained(refill: real)
    ensures 0 as real / 1000.0 * refill == 0.0
  {
  }

  // ----- whole units -----

  datatype Units = Units(units: nat, ts: int)

  function CeilDiv(a: int, b: nat): int
    requires b > 0
  {
    -((-a) / b)
  }

  function Full(cfg: Config): nat { cfg.capacity * Window(cfg) }

  function Gain(cfg: Config, ms: nat): nat { ms * cfg.capacity }

  function RefilledUnits(cfg: Config, data: Option<Units>, now: int): (u: nat)
    ensures u <= Full(cfg)
  {
    match data
    case None => Full(cfg)
    case Some(b) =>
      var u := b.units + Gain(cfg, Max(0, now - b.ts));
      if u <= Full(cfg) then u else Full(cfg)
  }

  function Take(cfg: Config, data: Option<Units>, now: int): (Units, Reply) {
    var w := Window(cfg);
    var u := RefilledUnits(cfg, data, now);
    if u >= w then (Units(u - w, now), Reply(true, 0, (u - w) / w))
    else (Units(u, now), Reply(false, if cfg.capacity > 0 then CeilDiv(w - u, cfg.capacity) else TtlMs(cfg), u / w))
  }

  function Scaled(cfg: Config, b: Units): Bucket {
    Bucket(b.units as real / Window(cfg) as real, b.ts)
  }

  function ScaledOption(cfg: Config, data: Option<Units>): Option<Bucket> {
    match data
    case None => None
    case Some(b) => Some(Scaled(cfg, b))
  }

  lemma {:induction false} RefillRate(cfg: Config)
    ensures RefillPerSec(cfg) * Window(cfg) as real == cfg.capacity as real * 1000.0
  {
    var seconds := cfg.windowMs as real / 1000.0;
    var s := if seconds >= 0.001 then seconds else 0.001;
    assert s == Window(cfg) as real / 1000.0;
    CancelDivision(cfg.capacity as real, s);
  }

  lemma {:induction false} CancelDivision(x: real, y: real)
    requires y > 0.0
    ensures x / y * y == x
  {
  }

  lemma {:induction false} QuotientUnique(x: real, w: real, q: real)
    requires w > 0.0
    ensures q * w == x ==> q == x / w
  {
    if q * w == x {
      CancelDivision(x, w);
      SumTimes(q - x / w, x / w, w);
      SignOfProduct(q - x / w, w);
    }
  }

  lemma {:induction false} QuotientOrder(x: real, y: real, w: real)
    requires w > 0.0
    ensures x / w <= y / w <==> x <= y
    ensures (x / w) >= 1.0 <==> x >= w
  {
    CancelDivision(x, w);
    CancelDivision(y, w);
    OrderOfProducts(x / w, y / w, w, x, y);
    OrderOfProducts(1.0, x / w, w, w, x);
  }

  lemma {:induction false} OrderOfProducts(p: real, q: real, w: real, x: real, y: real)
    requires w > 0.0
    ensures p * w == x && q * w == y ==> (p <= q <==> x <= y) && (p < q <==> x < y)
  {
    CancelOrder(p, q, w);
  }

  lemma {:induction false} FloorOfQuotient(a: int, b: nat)
    requires b > 0
    ensures (a as real / b as real).Floor == a / b
  {
    var q := a / b;
    var x := a as real / b as real;
    CancelDivision(a as real, b as real);
    QuotientBounds(a, b, q);
    CancelOrder(q as real, x, b as real);
    CancelOrder(x, (q + 1) as real, b as real);
    FloorIs(x, q);
  }

  lemma {:induction false} QuotientBounds(a: int, b: nat, q: int)
    requires b > 0 && q == a / b
    ensures q as real * b as real <= a as real < (q + 1) as real * b as real
  {
    assert q * b <= a < (q + 1) * b;
    RealProduct(q, b);
    RealProduct(q + 1, b);
  }

  lemma {:induction false} RealProduct(x: int, y: int)
    ensures (x * y) as real == x as real * y as real
  {
  }

  lemma {:induction false} FloorIs(x: real, q: int)
    requires q as real <= x < (q + 1) as real
    ensures x.Floor == q
  {
  }

  lemma {:induction false} CancelOrder(x: real, y: real, w: real)
    requires w > 0.0
    ensures x * w <= y * w <==> x <= y
    ensures x * w < y * w <==> x < y
  {
    SumTimes(x, y - x, w);
    assert x + (y - x) == y;
    SignOfProduct(y - x, w);
  }

  lemma {:induction false} SignOfProduct(d: real, w: real)
    requires w > 0.0
    ensures d > 0.0 ==> d * w > 0.0
    ensures d < 0.0 ==> d * w < 0.0
    ensures d == 0.0 ==> d * w == 0.0
  {
  }

  lemma {:induction false} GainedPerWindow(ms: real, cap: real, r: real, w: real)
    ensures r * w == cap * 1000.0 ==> ms / 1000.0 * r * w == ms * cap
  {
    var t := ms / 1000.0;
    if r * w == cap * 1000.0 {
      assert t * r * w == t * (r * w) == t * (cap * 1000.0) == t * 1000.0 * cap;
    }
  }

  lemma {:induction false} TotalIsScaled(cfg: Config, units: nat, ms: nat)
    ensures units as real / Window(cfg) as real + ms as real / 1000.0 * RefillPerSec(cfg)
         == (units + Gain(cfg, ms)) as real / Window(cfg) as real
  {
    var w := Window(cfg) as real;
    var held := units as real / w;
    var gained := ms as real / 1000.0 * RefillPerSec(cfg);
    RefillRate(cfg);
    GainedPerWindow(ms as real, cfg.capacity as real, RefillPerSec(cfg), w);
    CancelDivision(units as real, w);
    assert (ms * cfg.capacity) as real == ms as real * cfg.capacity as real;
    hide Window, RefillPerSec;
    SumTimes(held, gained, w);
    QuotientUnique((units + ms * cfg.capacity) as real, w, held + gained);
  }

  lemma {:induction false} FullIsCapacity(cfg: Config)
    ensures cfg.capacity as real == Full(cfg) as real / Window(cfg) as real
  {
    QuotientUnique(Full(cfg) as real, Window(cfg) as real, cfg.capacity as real);
  }

  lemma {:induction false} RefillIsScaled(cfg: Config, data: Option<Units>, now: int)
    ensures Refilled(cfg.capacity, RefillPerSec(cfg), ScaledOption(cfg, data), now)
         == RefilledUnits(cfg, data, now) as real / Window(cfg) as real
  {
    hide Window, RefillPerSec, Full, Gain;
    FullIsCapacity(cfg);
    if data.Some? {
      var ms := Max(0, now - data.value.ts);
      TotalIsScaled(cfg, data.value.units, ms);
      MinIsScaled(data.value.units + Gain(cfg, ms), Full(cfg), Window(cfg) as real);
      var held := Scaled(cfg, data.value).tokens;
      assert ScaledOption(cfg, data) == Some(Bucket(held, data.value.ts));
      assert Refilled(cfg.capacity, RefillPerSec(cfg), ScaledOption(cfg, data), now)
        == Min(cfg.capacity as real, held + ms as real / 1000.0 * RefillPerSec(cfg));
    } else {
      assert RefilledUnits(cfg, data, now) == Full(cfg);
    }
  }

  lemma {:induction false} MinIsScaled(a: nat, b: nat, w: real)
    requires w > 0.0
    ensures Min(b as real / w, a as real / w) == (if a <= b then a else b) as real / w
  {
    QuotientOrder(a as real, b as real, w);
    QuotientOrder(b as real, a as real, w);
  }

  lemma {:induction false} SumTimes(x: real, y: real, w: real)
    ensures (x + y) * w == x * w + y * w
  {
  }

  lemma {:induction false} RetryIsScaled(cfg: Config, u: nat)
    requires cfg.capacity > 0 && u < Window(cfg)
    ensures RefillPerSec(cfg) > 0.0
    ensures Ceil((1.0 - u as real / Window(cfg) as real) / RefillPerSec(cfg) * 1000.0)
         == CeilDiv(Window(cfg) - u, cfg.capacity)
  {
    var w := Window(cfg) as real;
    var cap := cfg.capacity as real;
    var r := RefillPerSec(cfg);
    RefillRate(cfg);
    CancelOrder(0.0, r, w);
    var missing := (Window(cfg) - u) as real;
    var x := (1.0 - u as real / w) / r * 1000.0;
    CancelDivision(u as real, w);
    CancelDivision(1.0 - u as real / w, r);
    assert x * r == (1.0 - u as real / w) * 1000.0;
    assert x * r * w == missing * 1000.0;
    assert x * (r * w) == x * (cap * 1000.0);
    assert x * cap == missing;
    QuotientUnique(missing, cap, x);
    assert -x == (u - Window(cfg)) as real / cap by { QuotientUnique((u - Window(cfg)) as real, cap, -x); }
    FloorOfQuotient(u - Window(cfg), cfg.capacity);
  }

  /** The script computes the whole-unit decision: same reply, and a bucket that is the scaled one. */
  lemma {:induction false} ScriptIsScaledTake(cfg: Config, data: Option<Units>, now: int)
    ensures Decide(cfg, ScaledOption(cfg, data), now) ==
      (Scaled(cfg, Take(cfg, data, now).0), Take(cfg, data, now).1)
  {
    RefillIsScaled(cfg, data, now);
    var u := RefilledUnits(cfg, data, now);
    var w := Window(cfg);
    QuotientOrder(u as real, 0.0, w as real);
    hide Refilled, RefilledUnits;
    if u >= w {
      MinusOne(u, w);
      FloorOfQuotient(u - w, w);
      hide Window, RefillPerSec;
    } else {
      FloorOfQuotient(u, w);
      if cfg.capacity > 0 {
        RetryIsScaled(cfg, u);
      } else {
        RefillRate(cfg);
        CancelOrder(0.0, RefillPerSec(cfg), w as real);
      }
      hide Window, RefillPerSec, Ceil, CeilDiv;
    }
  }

  lemma {:induction false} MinusOne(u: nat, w: nat)
    requires w > 0 && u >= w
    ensures u as real / w as real - 1.0 == (u - w) as real / w as real
  {
    CancelDivision(u as real, w as real);
    QuotientUnique((u - w) as real, w as real, u as real / w as real - 1.0);
  }

  // ----- runs -----

  /** A request, and whether Redis has dropped the key by then if it may. */
  datatype Request = Request(at: int, dropIfIdle: bool)

  function AfterExpiry(cfg: Config, data: Option<Units>, q: Request): Option<Units> {
    if data.Some? && q.dropIfIdle && q.at - data.value.ts >= TtlMs(cfg) then None else data
  }

  function RunUnits(cfg: Config, qs: seq<Request>): (r: (Option<Units>, seq<Reply>))
    ensures |r.1| == |qs|
  {
    if qs == [] then (None, [])
    else
      var q := qs[|qs| - 1];
      var (data, replies) := RunUnits(cfg, qs[..|qs| - 1]);
      var (data', reply) := Take(cfg, AfterExpiry(cfg, data, q), q.at);
      (Some(data'), replies + [reply])
  }

  function ScriptAfterExpiry(cfg: Config, data: Option<Bucket>, q: Request): Option<Bucket> {
    if data.Some? && q.dropIfIdle && q.at - data.value.ts >= TtlMs(cfg) then None else data
  }

  function RunScript(cfg: Config, qs: seq<Request>): (r: (Option<Bucket>, seq<Reply>))
    ensures |r.1| == |qs|
  {
    if qs == [] then (None, [])
    else
      var q := qs[|qs| - 1];
      var (data, replies) := RunScript(cfg, qs[..|qs| - 1]);
      var (data', reply) := Decide(cfg, ScriptAfterExpiry(cfg, data, q), q.at);
      (Some(data'), replies + [reply])
  }

  /** Whole runs of the script are whole-unit runs, scaled. */
  lemma {:induction false} RunScriptIsScaled(cfg: Config, qs: seq<Request>)
    ensures RunScript(cfg, qs) == (ScaledOption(cfg, RunUnits(cfg, qs).0), RunUnits(cfg, qs).1)
  {
    if qs == [] {
    } else {
      var q := qs[|qs| - 1];
      RunScriptIsScaled(cfg, qs[..|qs| - 1]);
      ScriptIsScaledTake(cfg, AfterExpiry(cfg, RunUnits(cfg, qs[..|qs| - 1]).0, q), q.at);
      hide Decide, Take;
    }
  }
}
