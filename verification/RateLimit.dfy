/**
 What the rate limiter guarantees over whole runs of requests on one key, with Redis free to
 drop the key whenever it has been idle for its lifetime. Everything is proved on whole units
 and carried over to the script.
 */
module RateLimit {
  import opened Prelude
  import opened TokenBucket

  ghost predicate InOrder(qs: seq<Request>) {
    forall i, j | 0 <= i <= j < |qs| :: qs[i].at <= qs[j].at
  }

  function Admitted(replies: seq<Reply>): nat {
    if replies == [] then 0
    else Admitted(replies[..|replies| - 1]) + if replies[|replies| - 1].allowed then 1 else 0
  }

  /** A key idle for its whole lifetime has refilled, so dropping it changes nothing. */
  lemma {:induction false} ExpiredIsFull(cfg: Config, b: Units, q: Request)
    requires q.at >= b.ts
    ensures RefilledUnits(cfg, AfterExpiry(cfg, Some(b), q), q.at) == RefilledUnits(cfg, Some(b), q.at)
  {
    if q.at - b.ts >= TtlMs(cfg) {
      LongEnough(Window(cfg), q.at - b.ts, cfg.capacity);
    }
  }

  lemma {:induction false} LongEnough(w: nat, ms: nat, capacity: nat)
    requires w <= ms
    ensures capacity * w <= ms * capacity
  {
  }

  function NeverDropped(qs: seq<Request>): (r: seq<Request>)
    ensures |r| == |qs| && forall i | 0 <= i < |qs| :: r[i] == Request(qs[i].at, false)
  {
    if qs == [] then [] else NeverDropped(qs[..|qs| - 1]) + [Request(qs[|qs| - 1].at, false)]
  }

  lemma {:induction false} LastStamp(cfg: Config, qs: seq<Request>)
    requires qs != []
    ensures RunUnits(cfg, qs).0.Some? && RunUnits(cfg, qs).0.value.ts == qs[|qs| - 1].at
    ensures RunUnits(cfg, qs).0.value.units <= Full(cfg)
  {
  }

  lemma {:induction false} DropIsInvisible(cfg: Config, data: Option<Units>, q: Request)
    requires data.Some? ==> q.at >= data.value.ts
    ensures Take(cfg, AfterExpiry(cfg, data, q), q.at) == Take(cfg, AfterExpiry(cfg, data, Request(q.at, false)), q.at)
  {
    if data.Some? { ExpiredIsFull(cfg, data.value, q); }
    hide RefilledUnits;
  }

  lemma {:induction false} ExpiryIsInvisibleInUnits(cfg: Config, qs: seq<Request>)
    requires InOrder(qs)
    ensures RunUnits(cfg, qs) == RunUnits(cfg, NeverDropped(qs))
  {
    if qs == [] {
    } else {
      var n := |qs| - 1;
      ExpiryIsInvisibleInUnits(cfg, qs[..n]);
      assert NeverDropped(qs)[..n] == NeverDropped(qs[..n]);
      var data := RunUnits(cfg, qs[..n]).0;
      if n > 0 { LastStamp(cfg, qs[..n]); }
      DropIsInvisible(cfg, data, qs[n]);
      hide Take, AfterExpiry;
    }
  }

  /** Every reply, and the bucket itself, is the same whether or not Redis drops idle keys. */
  lemma {:induction false} ExpiryIsInvisible(cfg: Config, qs: seq<Request>)
    requires InOrder(qs)
    ensures RunScript(cfg, qs) == RunScript(cfg, NeverDropped(qs))
  {
    RunScriptIsScaled(cfg, qs);
    RunScriptIsScaled(cfg, NeverDropped(qs));
    ExpiryIsInvisibleInUnits(cfg, qs);
  }

  /** The bucket never holds less than nothing or more than its capacity. */
  lemma {:induction false} TokensBounded(cfg: Config, qs: seq<Request>)
    requires qs != []
    ensures RunScript(cfg, qs).0.Some? && 0.0 <= RunScript(cfg, qs).0.value.tokens <= cfg.capacity as real
  {
    RunScriptIsScaled(cfg, qs);
    LastStamp(cfg, qs);
    var u := RunUnits(cfg, qs).0.value.units;
    FullIsCapacity(cfg);
    QuotientOrder(u as real, Full(cfg) as real, Window(cfg) as real);
    QuotientOrder(0.0, u as real, Window(cfg) as real);
  }

  /** What the bucket holds when request `j` is charged. */
  function HeldAt(cfg: Config, qs: seq<Request>, j: nat): (u: nat)
    requires j < |qs|
    ensures u <= Full(cfg)
  {
    RefilledUnits(cfg, AfterExpiry(cfg, RunUnits(cfg, qs[..j]).0, qs[j]), qs[j].at)
  }

  lemma {:induction false} RunPrefix(cfg: Config, qs: seq<Request>, n: nat)
    requires n <= |qs|
    ensures RunUnits(cfg, qs[..n]).1 == RunUnits(cfg, qs).1[..n]
  {
    if n < |qs| {
      var last := |qs| - 1;
      RunPrefix(cfg, qs[..last], n);
      assert qs[..last][..n] == qs[..n];
    } else {
      assert qs[..n] == qs;
    }
  }

  /** Request `j` is admitted exactly when the bucket then holds one token; charging it leaves the rest. */
  lemma {:induction false} ChargeAt(cfg: Config, qs: seq<Request>, j: nat)
    requires j < |qs|
    ensures RunUnits(cfg, qs).1[j].allowed <==> HeldAt(cfg, qs, j) >= Window(cfg)
    ensures RunUnits(cfg, qs[..j + 1]).0 ==
      Some(Units(HeldAt(cfg, qs, j) - if RunUnits(cfg, qs).1[j].allowed then Window(cfg) else 0, qs[j].at))
  {
    RunPrefix(cfg, qs, j + 1);
    assert qs[..j + 1][..j] == qs[..j];
    hide RefilledUnits;
  }

  /** Units that `n` admissions cost, and units gained from one instant to another. */
  function Cost(cfg: Config, n: nat): nat { n * Window(cfg) }

  function Earned(cfg: Config, from: int, to: int): int { (to - from) * cfg.capacity }

  lemma {:induction false} Sums(cfg: Config, n: nat, t0: int, t1: int, t2: int)
    ensures Cost(cfg, 0) == 0 && Cost(cfg, n + 1) == Cost(cfg, n) + Window(cfg)
    ensures Earned(cfg, t0, t0) == 0 && Earned(cfg, t0, t2) == Earned(cfg, t0, t1) + Earned(cfg, t1, t2)
  {
    EarnedSplits(t1 - t0, t2 - t1, cfg.capacity);
  }

  lemma {:induction false} EarnedSplits(x: int, y: int, capacity: nat)
    ensures (x + y) * capacity == x * capacity + y * capacity
  {
  }

  lemma {:induction false} EarnedGrows(cfg: Config, t0: int, t1: int, s0: int, s1: int)
    requires t1 - t0 <= s1 - s0
    ensures Earned(cfg, t0, t1) <= cfg.capacity * (s1 - s0)
  {
  }

  function Charge(cfg: Config, reply: Reply): nat {
    if reply.allowed then Window(cfg) else 0
  }

  /**
   Between two requests the bucket gains `capacity` units a millisecond and loses a token per
   admission, up to the brim.
   */
  lemma {:induction false} HeldNext(cfg: Config, qs: seq<Request>, j: nat)
    requires InOrder(qs) && j + 1 < |qs|
    ensures var u := HeldAt(cfg, qs, j) - Charge(cfg, RunUnits(cfg, qs).1[j]) + Earned(cfg, qs[j].at, qs[j + 1].at);
      HeldAt(cfg, qs, j + 1) == if u <= Full(cfg) then u else Full(cfg)
  {
    ChargeAt(cfg, qs, j);
    ExpiredIsFull(cfg, RunUnits(cfg, qs[..j + 1]).0.value, qs[j + 1]);
  }

  lemma {:induction false} CostStep(cfg: Config, replies: seq<Reply>, i: nat, j: nat)
    requires i <= j < |replies|
    ensures Cost(cfg, Admitted(replies[i..j + 1])) == Cost(cfg, Admitted(replies[i..j])) + Charge(cfg, replies[j])
    ensures replies[j].allowed ==> Admitted(replies[i..j + 1]) == Admitted(replies[i..j]) + 1
  {
    assert replies[i..j + 1][..j - i] == replies[i..j];
    Sums(cfg, Admitted(replies[i..j]), 0, 0, 0);
    hide Cost;
  }

  lemma {:induction false} NothingYet(cfg: Config, replies: seq<Reply>, i: nat, at: int)
    requires i <= |replies|
    ensures Cost(cfg, Admitted(replies[i..i])) == 0 && Earned(cfg, at, at) == 0
  {
    assert replies[i..i] == [];
  }

  /** Admissions since request `i`, plus what is held at `j`, never exceed the brim plus the refill. */
  lemma {:induction false} Potential(cfg: Config, qs: seq<Request>, i: nat, j: nat)
    requires InOrder(qs) && i <= j < |qs|
    ensures Cost(cfg, Admitted(RunUnits(cfg, qs).1[i..j])) + HeldAt(cfg, qs, j)
         <= Full(cfg) + Earned(cfg, qs[i].at, qs[j].at)
    decreases j
  {
    hide HeldAt, Admitted, RunUnits, Full, Window, Cost, Earned, Charge;
    var replies := RunUnits(cfg, qs).1;
    if i == j {
      NothingYet(cfg, replies, i, qs[i].at);
    } else {
      Potential(cfg, qs, i, j - 1);
      HeldNext(cfg, qs, j - 1);
      CostStep(cfg, replies, i, j - 1);
      Sums(cfg, 0, qs[i].at, qs[j - 1].at, qs[j].at);
    }
  }

  lemma {:induction false} FirstFindsFull(cfg: Config, qs: seq<Request>)
    requires qs != []
    ensures HeldAt(cfg, qs, 0) == Full(cfg)
  {
    assert qs[..0] == [];
  }

  /** And since the last request that found the bucket full they are exactly equal. */
  lemma {:induction false} PotentialIsReached(cfg: Config, qs: seq<Request>, j: nat) returns (i: nat)
    requires InOrder(qs) && j < |qs|
    ensures i <= j
    ensures Cost(cfg, Admitted(RunUnits(cfg, qs).1[i..j])) + HeldAt(cfg, qs, j)
         == Full(cfg) + Earned(cfg, qs[i].at, qs[j].at)
    decreases j
  {
    FirstFindsFull(cfg, qs);
    hide HeldAt, Admitted, RunUnits, Full, Window, Cost, Earned, Charge;
    var replies := RunUnits(cfg, qs).1;
    if HeldAt(cfg, qs, j) == Full(cfg) {
      i := j;
      NothingYet(cfg, replies, i, qs[i].at);
    } else {
      i := PotentialIsReached(cfg, qs, j - 1);
      HeldNext(cfg, qs, j - 1);
      CostStep(cfg, replies, i, j - 1);
      Sums(cfg, 0, qs[i].at, qs[j - 1].at, qs[j].at);
    }
  }

  /** Everything admitted from request `i` to just before `j` was paid for. */
  lemma {:induction false} RateBoundInUnits(cfg: Config, qs: seq<Request>, i: nat, j: nat)
    requires InOrder(qs) && i < j <= |qs|
    ensures Cost(cfg, Admitted(RunUnits(cfg, qs).1[i..j])) <= Full(cfg) + Earned(cfg, qs[i].at, qs[j - 1].at)
  {
    ChargeAt(cfg, qs, j - 1);
    assert RunUnits(cfg, qs).1[j - 1].allowed ==> Charge(cfg, RunUnits(cfg, qs).1[j - 1]) == Window(cfg);
    assert !RunUnits(cfg, qs).1[j - 1].allowed ==> Charge(cfg, RunUnits(cfg, qs).1[j - 1]) == 0;
    hide HeldAt, Admitted, RunUnits, Full, Window, Cost, Earned, Charge;
    Potential(cfg, qs, i, j - 1);
    CostStep(cfg, RunUnits(cfg, qs).1, i, j - 1);
  }

  lemma {:induction false} RepliesAgree(cfg: Config, qs: seq<Request>)
    ensures RunScript(cfg, qs).1 == RunUnits(cfg, qs).1
  {
    RunScriptIsScaled(cfg, qs);
  }

  /**
   Any run of consecutive requests within [t1, t2] admits at most capacity + capacity * (t2 - t1) /
   window of them.
   */
  lemma {:induction false} RateBound(cfg: Config, qs: seq<Request>, i: nat, j: nat, t1: int, t2: int)
    requires InOrder(qs) && i < j <= |qs| && t1 <= qs[i].at && qs[j - 1].at <= t2
    ensures Admitted(RunScript(cfg, qs).1[i..j]) * Window(cfg) <= cfg.capacity * Window(cfg) + cfg.capacity * (t2 - t1)
  {
    RepliesAgree(cfg, qs);
    RateBoundInUnits(cfg, qs, i, j);
    EarnedGrows(cfg, qs[i].at, qs[j - 1].at, t1, t2);
    hide Admitted, RunUnits, RunScript, Window, Earned;
  }

  /** One more admission at `j` would keep the interval that starts at `i` within the rate bound. */
  predicate FitsFrom(cfg: Config, qs: seq<Request>, replies: seq<Reply>, i: nat, j: nat)
    requires i <= j < |qs| && j < |replies|
  {
    (Admitted(replies[i..j]) + 1) * Window(cfg) <= cfg.capacity * Window(cfg) + cfg.capacity * (qs[j].at - qs[i].at)
  }

  lemma {:induction false} FitsInUnits(cfg: Config, qs: seq<Request>, replies: seq<Reply>, i: nat, j: nat)
    requires i <= j < |qs| && j < |replies|
    ensures FitsFrom(cfg, qs, replies, i, j) <==>
      Cost(cfg, Admitted(replies[i..j])) + Window(cfg) <= Full(cfg) + Earned(cfg, qs[i].at, qs[j].at)
  {
    var n, w := Admitted(replies[i..j]), Window(cfg);
    hide Admitted, Window;
    NextCost(n, w, qs[j].at - qs[i].at, cfg.capacity);
  }

  lemma {:induction false} NextCost(n: nat, w: nat, ms: int, capacity: nat)
    ensures (n + 1) * w == n * w + w && capacity * ms == ms * capacity
  {
  }

  /** The limiter admits a request exactly when every interval that ends with it stays within the rate bound. */
  lemma {:induction false} AdmitsExactlyWithinBound(cfg: Config, qs: seq<Request>, j: nat)
    requires InOrder(qs) && j < |qs|
    ensures RunScript(cfg, qs).1[j].allowed <==>
      forall i | 0 <= i <= j :: FitsFrom(cfg, qs, RunScript(cfg, qs).1, i, j)
  {
    RepliesAgree(cfg, qs);
    ChargeAt(cfg, qs, j);
    hide HeldAt, Admitted, RunUnits, RunScript, Full, Window, Cost, Earned, FitsFrom;
    var replies := RunUnits(cfg, qs).1;
    forall i | 0 <= i <= j && replies[j].allowed ensures FitsFrom(cfg, qs, replies, i, j) {
      Potential(cfg, qs, i, j);
      FitsInUnits(cfg, qs, replies, i, j);
    }
    if !replies[j].allowed {
      var i := PotentialIsReached(cfg, qs, j);
      FitsInUnits(cfg, qs, replies, i, j);
    }
  }

  lemma {:induction false} CeilDivIsLeast(a: int, b: int, ms: int)
    requires b > 0
    ensures ms >= CeilDiv(a, b) <==> ms * b >= a
  {
    var q := (-a) / b;
    assert q * b <= -a < q * b + b;
    if ms >= -q {
      assert ms * b >= -q * b;
    } else {
      assert ms + 1 <= -q;
      assert (ms + 1) * b <= -q * b;
    }
  }

  /**
   After a denial with a hint of r ms, the next request is admitted if and only if it comes r ms
   later or more and the limiter admits anything at all; with no capacity the hint is the lifetime.
   */
  lemma {:induction false} HintIsTight(cfg: Config, qs: seq<Request>, j: nat)
    requires InOrder(qs) && j + 1 < |qs|
    requires !RunScript(cfg, qs).1[j].allowed
    ensures RunScript(cfg, qs).1[j + 1].allowed <==>
      cfg.capacity > 0 && qs[j + 1].at >= qs[j].at + RunScript(cfg, qs).1[j].retryAfterMs
    ensures cfg.capacity == 0 ==>
      RunScript(cfg, qs).1[j].retryAfterMs == if cfg.windowMs > 1000 then cfg.windowMs else 1000
  {
    hide HeldAt, RunUnits, RunScript, CeilDiv, Full, Window;
    RepliesAgree(cfg, qs);
    ChargeAt(cfg, qs, j + 1);
    HintGiven(cfg, qs, j);
    if cfg.capacity > 0 {
      HintInUnits(cfg, qs, j);
    } else {
      NothingFits(cfg);
    }
  }

  lemma {:induction false} NothingFits(cfg: Config)
    requires cfg.capacity == 0
    ensures Full(cfg) == 0
  {
  }

  lemma {:induction false} HintInUnits(cfg: Config, qs: seq<Request>, j: nat)
    requires InOrder(qs) && j + 1 < |qs| && cfg.capacity > 0
    requires !RunUnits(cfg, qs).1[j].allowed
    ensures HeldAt(cfg, qs, j + 1) >= Window(cfg) <==>
      qs[j + 1].at >= qs[j].at + RunUnits(cfg, qs).1[j].retryAfterMs
  {
    HeldNext(cfg, qs, j);
    HintGiven(cfg, qs, j);
    CeilDivIsLeast(Window(cfg) - HeldAt(cfg, qs, j), cfg.capacity, qs[j + 1].at - qs[j].at);
    BrimHoldsToken(cfg);
    assert Charge(cfg, RunUnits(cfg, qs).1[j]) == 0;
    hide Charge, HeldAt, RunUnits, Window, CeilDiv, Full;
  }

  lemma {:induction false} HintGiven(cfg: Config, qs: seq<Request>, j: nat)
    requires j < |qs| && !RunUnits(cfg, qs).1[j].allowed
    ensures HeldAt(cfg, qs, j) < Window(cfg)
    ensures RunUnits(cfg, qs).1[j].retryAfterMs ==
      if cfg.capacity > 0 then CeilDiv(Window(cfg) - HeldAt(cfg, qs, j), cfg.capacity) else TtlMs(cfg)
  {
    RunPrefix(cfg, qs, j + 1);
    assert qs[..j + 1][..j] == qs[..j];
    hide RefilledUnits;
  }

  lemma {:induction false} BrimHoldsToken(cfg: Config)
    requires cfg.capacity > 0
    ensures Full(cfg) >= Window(cfg)
  {
  }

  // ----- the remaining count -----

  lemma {:induction false} RemainingGiven(cfg: Config, qs: seq<Request>, j: nat)
    requires j < |qs|
    ensures HeldAt(cfg, qs, j) >= Charge(cfg, RunUnits(cfg, qs).1[j])
    ensures RunUnits(cfg, qs).1[j].remaining == (HeldAt(cfg, qs, j) - Charge(cfg, RunUnits(cfg, qs).1[j])) / Window(cfg)
  {
    RunPrefix(cfg, qs, j + 1);
    assert qs[..j + 1][..j] == qs[..j];
    hide RefilledUnits;
  }

  lemma {:induction false} QuotientAt(u: int, w: nat, q: int)
    requires w > 0 && q * w <= u < q * w + w
    ensures u / w == q
  {
    var p := u / w;
    assert p * w <= u < p * w + w;
    if p < q { OneMoreTimes(p, q, w); }
    if p > q { OneMoreTimes(q, p, w); }
  }

  lemma {:induction false} OneMoreTimes(p: int, q: int, w: nat)
    requires p < q
    ensures p * w + w <= q * w
  {
    assert (q - p - 1) * w >= 0;
    assert q * w == p * w + w + (q - p - 1) * w;
  }

  lemma {:induction false} OneLess(u: nat, w: nat)
    requires w > 0
    ensures (u >= w <==> u / w >= 1) && (u >= w ==> (u - w) / w == u / w - 1)
  {
    var q := u / w;
    assert q * w <= u < q * w + w;
    if u >= w {
      assert (q - 1) * w == q * w - w;
      QuotientAt(u - w, w, q - 1);
    } else {
      QuotientAt(u, w, 0);
    }
  }

  /** A request at the same instant is admitted exactly when something remained, and uses one of what remained. */
  lemma {:induction false} NextUsesOne(cfg: Config, qs: seq<Request>, j: nat)
    requires InOrder(qs) && j + 1 < |qs| && qs[j + 1].at == qs[j].at
    ensures var replies := RunUnits(cfg, qs).1;
      && (replies[j + 1].allowed <==> replies[j].remaining >= 1)
      && replies[j + 1].remaining == replies[j].remaining - (if replies[j + 1].allowed then 1 else 0)
  {
    HeldNext(cfg, qs, j);
    ChargeAt(cfg, qs, j + 1);
    RemainingGiven(cfg, qs, j);
    RemainingGiven(cfg, qs, j + 1);
    Sums(cfg, 0, qs[j].at, qs[j].at, qs[j].at);
    OneLess(HeldAt(cfg, qs, j + 1), Window(cfg));
    hide HeldAt, RunUnits, Window, Full, Earned;
  }

  lemma {:induction false} AdmittedStep(replies: seq<Reply>, i: nat, j: nat)
    requires i <= j < |replies|
    ensures Admitted(replies[i..j + 1]) == Admitted(replies[i..j]) + if replies[j].allowed then 1 else 0
  {
    assert replies[i..j + 1][..j - i] == replies[i..j];
  }

  lemma {:induction false} BurstInUnits(cfg: Config, qs: seq<Request>, i: nat, j: nat)
    requires InOrder(qs) && i <= j < |qs| && qs[j].at == qs[i].at
    ensures var replies := RunUnits(cfg, qs).1;
      && replies[i].remaining >= 0
      && Admitted(replies[i + 1..j + 1]) == (if j - i <= replies[i].remaining then j - i else replies[i].remaining)
      && replies[j].remaining == replies[i].remaining - Admitted(replies[i + 1..j + 1])
    decreases j
  {
    hide RunUnits, Admitted, Window, HeldAt, Charge;
    var replies := RunUnits(cfg, qs).1;
    if i == j {
      RemainingIsNat(cfg, qs, i);
      assert replies[i + 1..j + 1] == [];
      NoneAdmitted();
    } else {
      assert qs[i].at <= qs[j - 1].at <= qs[j].at;
      BurstInUnits(cfg, qs, i, j - 1);
      NextUsesOne(cfg, qs, j - 1);
      AdmittedStep(replies, i + 1, j);
    }
  }

  lemma {:induction false} NoneAdmitted()
    ensures Admitted([]) == 0
  {
  }

  lemma {:induction false} RemainingIsNat(cfg: Config, qs: seq<Request>, j: nat)
    requires j < |qs|
    ensures RunUnits(cfg, qs).1[j].remaining >= 0
  {
    RemainingGiven(cfg, qs, j);
    QuotientIsNat(HeldAt(cfg, qs, j) - Charge(cfg, RunUnits(cfg, qs).1[j]), Window(cfg));
  }

  lemma {:induction false} QuotientIsNat(u: nat, w: nat)
    requires w > 0
    ensures u / w >= 0
  {
  }

  /** Of the requests that follow at the same instant, exactly the reported remainder is admitted. */
  lemma {:induction false} RemainderIsExact(cfg: Config, qs: seq<Request>, i: nat, j: nat)
    requires InOrder(qs) && i <= j < |qs| && qs[j].at == qs[i].at
    ensures var replies := RunScript(cfg, qs).1;
      && replies[i].remaining >= 0
      && Admitted(replies[i + 1..j + 1]) == if j - i <= replies[i].remaining then j - i else replies[i].remaining
  {
    RepliesAgree(cfg, qs);
    BurstInUnits(cfg, qs, i, j);
    hide RunUnits, RunScript, Admitted;
  }
}
