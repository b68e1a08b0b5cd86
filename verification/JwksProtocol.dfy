/**
 Any number of `key_for` calls racing on one JWKS cache, one clock and one refresh lock.
 Each step between two await points, and each read or write of the cache, is one action;
 `Run` folds a list of actions chosen by an arbitrary scheduler, and an action that is not
 possible in the current state changes nothing.
 */
module JwksProtocol {
  import opened Prelude
  import opened Jwks

  type CallId = nat

  datatype Refresh = OnExpiry | Forced(baseline: Option<int>)

  datatype Answer = Found(key: DecodingKey) | NoKey | Failed | Dropped

  datatype Pc =
    | CheckStale
    | Waiting(kind: Refresh)
    | Holding(kind: Refresh)
    | Fetching(kind: Refresh)
    | Unlocking(kind: Refresh, failed: bool)
    | LookupFirst(refreshed: bool)
    | ReadBaseline
    | LookupAgain
    | Done(answer: Answer)

  /** `began` is the number of installs when the call started, `startedAt` the clock then. */
  datatype Call = Call(kid: Option<string>, alg: string, began: nat, startedAt: int, pc: Pc)

  datatype Install = Install(keys: seq<CachedKey>, stamp: int, kind: Refresh)

  datatype Fetch = Fetch(caller: CallId, kind: Refresh, at: int, lastStamp: Option<int>)

  datatype Config = Config(ttl: nat, hasUrl: bool)

  /** `installs` and `fetches` record the history; no action reads them. */
  datatype State = State(
    clock: int, cache: Cache, lock: Option<CallId>, calls: map<CallId, Call>,
    installs: seq<Install>, fetches: seq<Fetch>)

  datatype Action =
    | Tick(elapsed: nat)
    | Begin(id: CallId, kid: Option<string>, alg: string)
    | Advance(id: CallId)
    | FetchReturns(id: CallId, body: seq<JwkEntry>)
    | FetchFails(id: CallId)
    | Drop(id: CallId)

  const INIT := State(0, EMPTY_CACHE, None, map[], [], [])

  predicate HoldsLock(pc: Pc) {
    pc.Holding? || pc.Fetching? || pc.Unlocking?
  }

  function Goto(s: State, id: CallId, pc: Pc): State
    requires id in s.calls
  {
    s.(calls := s.calls[id := s.calls[id].(pc := pc)])
  }

  predicate NeedsFetch(cfg: Config, s: State, kind: Refresh) {
    match kind
    case OnExpiry => Stale(s.cache, s.clock, cfg.ttl)
    case Forced(baseline) => s.cache.fetchedAt == baseline
  }

  function AdvanceCall(cfg: Config, s: State, id: CallId): State
    requires id in s.calls
  {
    var c := s.calls[id];
    match c.pc
    case CheckStale =>
      Goto(s, id, if Stale(s.cache, s.clock, cfg.ttl) then Waiting(OnExpiry) else LookupFirst(false))
    case Waiting(kind) =>
      if s.lock.None? then Goto(s, id, Holding(kind)).(lock := Some(id)) else s
    case Holding(kind) =>
      if !NeedsFetch(cfg, s, kind) then Goto(s, id, Unlocking(kind, false))
      else if !cfg.hasUrl then Goto(s, id, Unlocking(kind, true))
      else Goto(s, id, Fetching(kind)).(fetches := s.fetches + [Fetch(id, kind, s.clock, s.cache.fetchedAt)])
    case Fetching(_) => s
    case Unlocking(kind, failed) =>
      Goto(s, id, if failed then Done(Failed) else if kind.OnExpiry? then LookupFirst(true) else LookupAgain)
        .(lock := None)
    case LookupFirst(refreshed) =>
      (match Lookup(s.cache.keys, c.kid, c.alg)
       case Some(key) => Goto(s, id, Done(Found(key)))
       case None => Goto(s, id, if refreshed then Done(NoKey) else ReadBaseline))
    case ReadBaseline => Goto(s, id, Waiting(Forced(s.cache.fetchedAt)))
    case LookupAgain =>
      (match Lookup(s.cache.keys, c.kid, c.alg)
       case Some(key) => Goto(s, id, Done(Found(key)))
       case None => Goto(s, id, Done(NoKey)))
    case Done(_) => s
  }

  /** The clock reads later at each install than at any read before it. */
  function InstallKeys(s: State, id: CallId, body: seq<JwkEntry>): State
    requires id in s.calls && s.calls[id].pc.Fetching?
  {
    var kind := s.calls[id].pc.kind;
    var now := s.clock + 1;
    Goto(s, id, Unlocking(kind, false))
      .(clock := now, cache := Cache(Usable(body), Some(now)),
        installs := s.installs + [Install(Usable(body), now, kind)])
  }

  function Apply(cfg: Config, s: State, a: Action): State {
    match a
    case Tick(elapsed) => s.(clock := s.clock + elapsed)
    case Begin(id, kid, alg) =>
      if id in s.calls then s else s.(calls := s.calls[id := Call(kid, alg, |s.installs|, s.clock, CheckStale)])
    case Advance(id) => if id in s.calls then AdvanceCall(cfg, s, id) else s
    case FetchReturns(id, body) =>
      if id in s.calls && s.calls[id].pc.Fetching? then InstallKeys(s, id, body) else s
    case FetchFails(id) =>
      if id in s.calls && s.calls[id].pc.Fetching? then Goto(s, id, Unlocking(s.calls[id].pc.kind, true)) else s
    case Drop(id) =>
      if id in s.calls && s.calls[id].pc.Fetching? then Goto(s, id, Done(Dropped)).(lock := None)
      else if id in s.calls && s.calls[id].pc.Waiting? then Goto(s, id, Done(Dropped))
      else s
  }

  function Run(cfg: Config, s: State, actions: seq<Action>): State
    decreases |actions|
  {
    if actions == [] then s else Run(cfg, Apply(cfg, s, actions[0]), actions[1..])
  }

  lemma {:induction false} RunAppend(cfg: Config, s: State, before: seq<Action>, after: seq<Action>)
    ensures Run(cfg, s, before + after) == Run(cfg, Run(cfg, s, before), after)
    decreases |before|
  {
    if before == [] {
      assert before + after == after;
    } else {
      assert (before + after)[1..] == before[1..] + after;
      RunAppend(cfg, Apply(cfg, s, before[0]), before[1..], after);
    }
  }

  /** A run that passes through the listed states. */
  lemma {:induction false} RunThrough(cfg: Config, states: seq<State>, actions: seq<Action>)
    requires |states| == |actions| + 1
    requires forall i | 0 <= i < |actions| :: states[i + 1] == Apply(cfg, states[i], actions[i])
    ensures Run(cfg, states[0], actions) == states[|actions|]
    decreases |actions|
  {
    if actions == [] {
    } else {
      assert states[1] == Apply(cfg, states[0], actions[0]);
      RunThrough(cfg, states[1..], actions[1..]);
    }
  }

  // ----- the invariant -----

  /** The stamp the cache showed just before install `i`. */
  function StampBefore(installs: seq<Install>, i: nat): Option<int>
    requires i <= |installs|
  {
    if i == 0 then None else Some(installs[i - 1].stamp)
  }

  ghost predicate Justified(cfg: Config, kind: Refresh, last: Option<int>, now: int) {
    match kind
    case OnExpiry => last.None? || now - last.value > cfg.ttl
    case Forced(baseline) => baseline == last
  }

  ghost predicate InstallJustified(cfg: Config, installs: seq<Install>, i: nat)
    requires i < |installs|
  {
    && Justified(cfg, installs[i].kind, StampBefore(installs, i), installs[i].stamp)
    && (i > 0 ==> installs[i - 1].stamp < installs[i].stamp)
  }

  /** Each install follows the previous one for a reason that held when it was made. */
  ghost predicate HistoryInv(cfg: Config, s: State) {
    && (forall i | 0 <= i < |s.installs| :: InstallJustified(cfg, s.installs, i))
    && s.cache.fetchedAt == StampBefore(s.installs, |s.installs|)
    && (s.cache.fetchedAt.Some? ==> s.cache.fetchedAt.value <= s.clock)
    && s.cache.keys == (if s.installs == [] then [] else s.installs[|s.installs| - 1].keys)
  }

  ghost predicate LockInv(s: State) {
    && (s.lock.Some? ==> s.lock.value in s.calls)
    && forall id | id in s.calls :: HoldsLock(s.calls[id].pc) <==> s.lock == Some(id)
  }

  /** Some document installed at or after `from` gives this answer. */
  ghost predicate AnsweredFrom(s: State, c: Call, from: nat, answer: Option<DecodingKey>) {
    exists j :: from <= j < |s.installs| && Lookup(s.installs[j].keys, c.kid, c.alg) == answer
  }

  /** The document that was current when the call began was within its lifetime then. */
  predicate BeganFresh(cfg: Config, installs: seq<Install>, c: Call) {
    0 < c.began <= |installs| && c.startedAt - installs[c.began - 1].stamp <= cfg.ttl
  }

  /** The key comes from a document installed since the call began, or from the one current then if it was fresh. */
  ghost predicate FoundIn(cfg: Config, installs: seq<Install>, c: Call, key: DecodingKey) {
    exists j :: 0 <= j < |installs| && Lookup(installs[j].keys, c.kid, c.alg) == Some(key)
      && (j >= c.began || (j == c.began - 1 && BeganFresh(cfg, installs, c)))
  }

  ghost predicate CallInv(cfg: Config, s: State, c: Call) {
    && c.began <= |s.installs| && c.startedAt <= s.clock
    && match c.pc
       case Waiting(kind) => c.began == |s.installs| ==> NeedsFetch(cfg, s, kind)
       case Holding(kind) => c.began == |s.installs| ==> NeedsFetch(cfg, s, kind)
       case Fetching(kind) => NeedsFetch(cfg, s, kind)
       case Unlocking(_, failed) => failed || c.began < |s.installs|
       case LookupFirst(refreshed) => c.began < |s.installs| || (!refreshed && BeganFresh(cfg, s.installs, c))
       case ReadBaseline => true
       case LookupAgain => c.began < |s.installs|
       case Done(Found(key)) => FoundIn(cfg, s.installs, c, key)
       case Done(NoKey) => AnsweredFrom(s, c, c.began, None)
       case _ => true
  }

  ghost predicate CallsInv(cfg: Config, s: State) {
    forall id | id in s.calls :: CallInv(cfg, s, s.calls[id])
  }

  predicate MayHaveFetched(pc: Pc) {
    pc.Fetching? || pc.Unlocking? || pc == LookupFirst(true) || pc.LookupAgain? || pc.Done?
  }

  ghost predicate FetchInv(cfg: Config, s: State) {
    && (forall i | 0 <= i < |s.fetches| ::
          && s.fetches[i].caller in s.calls && MayHaveFetched(s.calls[s.fetches[i].caller].pc)
          && Justified(cfg, s.fetches[i].kind, s.fetches[i].lastStamp, s.fetches[i].at))
    && forall i, j | 0 <= i < j < |s.fetches| :: s.fetches[i].caller != s.fetches[j].caller
  }

  ghost predicate Inv(cfg: Config, s: State) {
    HistoryInv(cfg, s) && LockInv(s) && CallsInv(cfg, s) && FetchInv(cfg, s)
  }

  /** What one call relies on survives the steps of others: time passing, and installs under the lock. */
  lemma {:induction false} CallInvStable(cfg: Config, s: State, s': State, c: Call)
    requires HistoryInv(cfg, s) && CallInv(cfg, s, c)
    requires s'.clock >= s.clock && s.installs <= s'.installs
    requires |s'.installs| == |s.installs| ==> s'.cache == s.cache
    requires c.pc.Fetching? ==> s'.cache == s.cache
    ensures CallInv(cfg, s', c)
  {
    if c.pc.Done? {
      match c.pc.answer
      case Found(key) =>
        var j :| 0 <= j < |s.installs| && Lookup(s.installs[j].keys, c.kid, c.alg) == Some(key)
          && (j >= c.began || (j == c.began - 1 && BeganFresh(cfg, s.installs, c)));
        assert s'.installs[j] == s.installs[j];
      case NoKey =>
        var j :| c.began <= j < |s.installs| && Lookup(s.installs[j].keys, c.kid, c.alg) == None;
        assert s'.installs[j] == s.installs[j];
      case _ =>
    }
  }

  lemma {:induction false} LookupStep(cfg: Config, s: State, id: CallId)
    requires Inv(cfg, s) && id in s.calls && (s.calls[id].pc.LookupFirst? || s.calls[id].pc.LookupAgain?)
    ensures CallInv(cfg, AdvanceCall(cfg, s, id), AdvanceCall(cfg, s, id).calls[id])
  {
    hide LockInv, FetchInv, Lookup;
    var c := s.calls[id];
    assert CallInv(cfg, s, c);
    var last := |s.installs| - 1;
    assert Lookup(s.installs[last].keys, c.kid, c.alg) == Lookup(s.cache.keys, c.kid, c.alg);
  }

  lemma {:induction false} CallStep(cfg: Config, s: State, id: CallId)
    requires Inv(cfg, s) && id in s.calls
    ensures CallInv(cfg, AdvanceCall(cfg, s, id), AdvanceCall(cfg, s, id).calls[id])
  {
    var c := s.calls[id];
    if c.pc.LookupFirst? || c.pc.LookupAgain? {
      LookupStep(cfg, s, id);
    } else {
      hide LockInv, FetchInv, Lookup;
      assert CallInv(cfg, s, c);
    }
  }

  /** The steps of `AdvanceCall` never write the cache or the install history. */
  lemma {:induction false} AdvanceKeepsCache(cfg: Config, s: State, id: CallId)
    requires id in s.calls
    ensures var s' := AdvanceCall(cfg, s, id);
      && s'.clock == s.clock && s'.cache == s.cache && s'.installs == s.installs
      && s'.calls.Keys == s.calls.Keys
      && forall other | other in s.calls && other != id :: s'.calls[other] == s.calls[other]
  {
  }

  lemma {:induction false} AdvanceKeepsLock(cfg: Config, s: State, id: CallId)
    requires LockInv(s) && id in s.calls
    ensures LockInv(AdvanceCall(cfg, s, id))
  {
    hide Lookup, Stale, NeedsFetch;
  }

  lemma {:induction false} AdvanceKeepsFetches(cfg: Config, s: State, id: CallId)
    requires FetchInv(cfg, s) && id in s.calls
    ensures FetchInv(cfg, AdvanceCall(cfg, s, id))
  {
    hide Lookup;
  }

  lemma {:induction false} AdvanceKeepsInv(cfg: Config, s: State, id: CallId)
    requires Inv(cfg, s) && id in s.calls
    ensures Inv(cfg, AdvanceCall(cfg, s, id))
  {
    AdvanceKeepsCache(cfg, s, id);
    AdvanceKeepsLock(cfg, s, id);
    AdvanceKeepsFetches(cfg, s, id);
    var s' := AdvanceCall(cfg, s, id);
    CallStep(cfg, s, id);
    hide AdvanceCall, LockInv, FetchInv, CallInv;
    forall other | other in s'.calls ensures CallInv(cfg, s', s'.calls[other]) {
      if other != id { CallInvStable(cfg, s, s', s.calls[other]); }
    }
  }

  lemma {:induction false} InstallKeepsHistory(cfg: Config, s: State, id: CallId, body: seq<JwkEntry>)
    requires HistoryInv(cfg, s) && id in s.calls && s.calls[id].pc.Fetching? && CallInv(cfg, s, s.calls[id])
    ensures HistoryInv(cfg, InstallKeys(s, id, body))
  {
    var s' := InstallKeys(s, id, body);
    forall i | 0 <= i < |s'.installs| ensures InstallJustified(cfg, s'.installs, i) {
      if i < |s.installs| { assert InstallJustified(cfg, s.installs, i); }
    }
  }

  lemma {:induction false} InstallKeepsInv(cfg: Config, s: State, id: CallId, body: seq<JwkEntry>)
    requires Inv(cfg, s) && id in s.calls && s.calls[id].pc.Fetching?
    ensures Inv(cfg, InstallKeys(s, id, body))
  {
    var s' := InstallKeys(s, id, body);
    InstallKeepsHistory(cfg, s, id, body);
    forall other | other in s'.calls ensures CallInv(cfg, s', s'.calls[other]) {
      hide FetchInv;
      if other != id { CallInvStable(cfg, s, s', s.calls[other]); }
    }
    hide HistoryInv, CallInv;
  }

  lemma {:induction false} ApplyKeepsInv(cfg: Config, s: State, a: Action)
    requires Inv(cfg, s)
    ensures Inv(cfg, Apply(cfg, s, a))
  {
    var s' := Apply(cfg, s, a);
    if a.Advance? && a.id in s.calls {
      AdvanceKeepsInv(cfg, s, a.id);
    } else if a.FetchReturns? && a.id in s.calls && s.calls[a.id].pc.Fetching? {
      InstallKeepsInv(cfg, s, a.id, a.body);
    } else if s' != s {
      QuietStepKeepsInv(cfg, s, a);
    }
  }

  lemma {:induction false} QuietStepKeepsInv(cfg: Config, s: State, a: Action)
    requires Inv(cfg, s) && !a.Advance? && !a.FetchReturns?
    ensures Inv(cfg, Apply(cfg, s, a))
  {
    QuietStepKeepsCalls(cfg, s, a);
    QuietStepKeepsLock(cfg, s, a);
    QuietStepKeepsFetches(cfg, s, a);
    hide CallsInv, LockInv, FetchInv;
  }

  lemma {:induction false} QuietStepKeepsCalls(cfg: Config, s: State, a: Action)
    requires HistoryInv(cfg, s) && CallsInv(cfg, s) && !a.Advance? && !a.FetchReturns?
    ensures CallsInv(cfg, Apply(cfg, s, a))
  {
    var s' := Apply(cfg, s, a);
    forall other | other in s'.calls ensures CallInv(cfg, s', s'.calls[other]) {
      if other in s.calls && s'.calls[other] == s.calls[other] { CallInvStable(cfg, s, s', s.calls[other]); }
    }
    hide CallInv;
  }

  lemma {:induction false} QuietStepKeepsLock(cfg: Config, s: State, a: Action)
    requires LockInv(s) && !a.Advance? && !a.FetchReturns?
    ensures LockInv(Apply(cfg, s, a))
  {
  }

  lemma {:induction false} QuietStepKeepsFetches(cfg: Config, s: State, a: Action)
    requires FetchInv(cfg, s) && !a.Advance? && !a.FetchReturns?
    ensures FetchInv(cfg, Apply(cfg, s, a))
  {
    hide Justified;
  }

  lemma {:induction false} RunKeepsInv(cfg: Config, s: State, actions: seq<Action>)
    requires Inv(cfg, s)
    ensures Inv(cfg, Run(cfg, s, actions))
    decreases |actions|
  {
    if actions == [] {
    } else {
      ApplyKeepsInv(cfg, s, actions[0]);
      RunKeepsInv(cfg, Apply(cfg, s, actions[0]), actions[1..]);
    }
  }

  lemma {:induction false} ApplyExtends(cfg: Config, s: State, a: Action, id: CallId)
    requires id in s.calls
    ensures var s' := Apply(cfg, s, a);
      && s.installs <= s'.installs
      && id in s'.calls && s'.calls[id] == s.calls[id].(pc := s'.calls[id].pc)
  {
    hide Lookup, Stale, NeedsFetch, Usable;
  }

  /** A call keeps its request and its starting point; the install history only grows. */
  lemma {:induction false} RunExtends(cfg: Config, s: State, actions: seq<Action>, id: CallId)
    requires id in s.calls
    ensures var s' := Run(cfg, s, actions);
      && s.installs <= s'.installs
      && id in s'.calls && s'.calls[id] == s.calls[id].(pc := s'.calls[id].pc)
    decreases |actions|
  {
    if actions == [] {
    } else {
      ApplyExtends(cfg, s, actions[0], id);
      hide Apply;
      RunExtends(cfg, Apply(cfg, s, actions[0]), actions[1..], id);
    }
  }

  // ----- main results, for every list of actions -----

  /**
   A call that starts in a reached state and answers "no such key" was answered from a document
   installed since it started.
   */
  lemma {:induction false} NegativeAnswerIsCurrent(cfg: Config, before: seq<Action>, id: CallId, kid: Option<string>,
                                                   alg: string, after: seq<Action>)
    requires id !in Run(cfg, INIT, before).calls
    requires var s := Run(cfg, INIT, before + [Begin(id, kid, alg)] + after);
      id in s.calls && s.calls[id].pc == Done(NoKey)
    ensures var s := Run(cfg, INIT, before + [Begin(id, kid, alg)] + after);
      exists j :: |Run(cfg, INIT, before).installs| <= j < |s.installs| && Lookup(s.installs[j].keys, kid, alg) == None
  {
    var s0 := Run(cfg, INIT, before);
    var s1 := Apply(cfg, s0, Begin(id, kid, alg));
    RunAppend(cfg, INIT, before + [Begin(id, kid, alg)], after);
    RunAppend(cfg, INIT, before, [Begin(id, kid, alg)]);
    RunKeepsInv(cfg, INIT, before + [Begin(id, kid, alg)] + after);
    RunExtends(cfg, s1, after, id);
    var s := Run(cfg, s1, after);
    assert CallInv(cfg, s, s.calls[id]);
  }

  /**
   A returned key was selected from a document installed since the call began, or from the one
   that was current when it began; in that case the document was no older than the lifetime then.
   */
  lemma {:induction false} PositiveAnswerIsFresh(cfg: Config, before: seq<Action>, id: CallId, kid: Option<string>,
                                                 alg: string, after: seq<Action>, key: DecodingKey)
    requires id !in Run(cfg, INIT, before).calls
    requires var s := Run(cfg, INIT, before + [Begin(id, kid, alg)] + after);
      id in s.calls && s.calls[id].pc == Done(Found(key))
    ensures var s0 := Run(cfg, INIT, before);
      var s := Run(cfg, INIT, before + [Begin(id, kid, alg)] + after);
      var began := |s0.installs|;
      && s0.installs <= s.installs
      && exists j :: 0 <= j < |s.installs| && Lookup(s.installs[j].keys, kid, alg) == Some(key)
           && (j >= began || (j == began - 1 && s0.clock - s0.installs[j].stamp <= cfg.ttl))
  {
    var s0 := Run(cfg, INIT, before);
    var s1 := Apply(cfg, s0, Begin(id, kid, alg));
    assert s1.calls[id] == Call(kid, alg, |s0.installs|, s0.clock, CheckStale) && s1.installs == s0.installs;
    RunAppend(cfg, INIT, before + [Begin(id, kid, alg)], after);
    RunAppend(cfg, INIT, before, [Begin(id, kid, alg)]);
    assert [Begin(id, kid, alg)][1..] == [];
    RunKeepsInv(cfg, INIT, before + [Begin(id, kid, alg)] + after);
    RunExtends(cfg, s1, after, id);
    var s := Run(cfg, s1, after);
    hide Apply, Lookup, HistoryInv, LockInv, FetchInv;
    assert CallInv(cfg, s, s.calls[id]);
    assert FoundIn(cfg, s.installs, s.calls[id], key);
  }

  /** At most one fetch is running in any reachable state. */
  lemma {:induction false} SingleFlight(cfg: Config, actions: seq<Action>, a: CallId, b: CallId)
    requires var s := Run(cfg, INIT, actions);
      a in s.calls && b in s.calls && s.calls[a].pc.Fetching? && s.calls[b].pc.Fetching?
    ensures a == b
  {
    RunKeepsInv(cfg, INIT, actions);
  }

  /** Each call starts at most one fetch, and an expiry fetch starts only with no install yet or an over-age one. */
  lemma {:induction false} FetchesAreJustified(cfg: Config, actions: seq<Action>)
    ensures var fetches := Run(cfg, INIT, actions).fetches;
      && (forall i, j | 0 <= i < j < |fetches| :: fetches[i].caller != fetches[j].caller)
      && forall i | 0 <= i < |fetches| && fetches[i].kind.OnExpiry? ::
           fetches[i].lastStamp.None? || fetches[i].at - fetches[i].lastStamp.value > cfg.ttl
  {
    RunKeepsInv(cfg, INIT, actions);
  }

  lemma {:induction false} StampsIncrease(cfg: Config, installs: seq<Install>, i: nat, j: nat)
    requires forall k | 0 <= k < |installs| :: InstallJustified(cfg, installs, k)
    requires i < j < |installs|
    ensures installs[i].stamp < installs[j].stamp
    decreases j
  {
    assert InstallJustified(cfg, installs, j);
    if i < j - 1 { StampsIncrease(cfg, installs, i, j - 1); }
  }

  /**
   Of the forced refreshes that share a baseline at most one installs, right after the install it was
   forced against.
   */
  lemma {:induction false} ForcedRefreshesAreDeduplicated(cfg: Config, actions: seq<Action>, i: nat, j: nat)
    requires i < j < |Run(cfg, INIT, actions).installs|
    requires Run(cfg, INIT, actions).installs[i].kind.Forced? && Run(cfg, INIT, actions).installs[j].kind.Forced?
    ensures var installs := Run(cfg, INIT, actions).installs;
      && installs[i].kind.baseline != installs[j].kind.baseline
      && installs[j].kind.baseline == Some(installs[j - 1].stamp)
  {
    RunKeepsInv(cfg, INIT, actions);
    var installs := Run(cfg, INIT, actions).installs;
    assert InstallJustified(cfg, installs, i) && InstallJustified(cfg, installs, j);
    if i > 0 { StampsIncrease(cfg, installs, i - 1, j - 1); }
  }

  /** Consecutive installs are more than the lifetime apart unless the later one was forced. */
  lemma {:induction false} ExpiryInstallsAreSpaced(cfg: Config, actions: seq<Action>, i: nat)
    requires 0 < i < |Run(cfg, INIT, actions).installs| && Run(cfg, INIT, actions).installs[i].kind.OnExpiry?
    ensures var installs := Run(cfg, INIT, actions).installs;
      installs[i].stamp - installs[i - 1].stamp > cfg.ttl
  {
    RunKeepsInv(cfg, INIT, actions);
    assert InstallJustified(cfg, Run(cfg, INIT, actions).installs, i);
  }

  // ----- progress -----

  function Remaining(pc: Pc): nat {
    match pc
    case CheckStale => 8
    case LookupFirst(refreshed) => if refreshed then 1 else 7
    case ReadBaseline => 6
    case Waiting(_) => 5
    case Holding(_) => 4
    case Fetching(_) => 3
    case Unlocking(_, _) => 2
    case LookupAgain => 1
    case Done(_) => 0
  }

  /** A step moves a call only forwards, so no call takes more than eight steps. */
  lemma {:induction false} StepsOnlyAdvance(cfg: Config, s: State, a: Action, id: CallId)
    requires id in s.calls
    ensures id in Apply(cfg, s, a).calls
    ensures var pc' := Apply(cfg, s, a).calls[id].pc;
      pc' == s.calls[id].pc || Remaining(pc') < Remaining(s.calls[id].pc)
  {
    hide Lookup, Stale, NeedsFetch, Usable;
  }

  /** Whoever holds the lock, or anyone when it is free, can take a step. */
  lemma {:induction false} MoverMoves(cfg: Config, s: State, id: CallId)
    requires id in s.calls && !s.calls[id].pc.Done?
    requires s.lock.None? || s.lock == Some(id)
    requires HoldsLock(s.calls[id].pc) <==> s.lock == Some(id)
    ensures var a := if s.calls[id].pc.Fetching? then FetchReturns(id, []) else Advance(id);
      id in Apply(cfg, s, a).calls && Remaining(Apply(cfg, s, a).calls[id].pc) < Remaining(s.calls[id].pc)
  {
    hide Lookup, Stale, NeedsFetch, Usable;
  }

  /** The lock is never left behind: while a call is unfinished, some call can take its next step. */
  lemma {:induction false} NoDeadlock(cfg: Config, actions: seq<Action>, id: CallId) returns (a: Action, mover: CallId)
    requires id in Run(cfg, INIT, actions).calls && !Run(cfg, INIT, actions).calls[id].pc.Done?
    ensures var s := Run(cfg, INIT, actions);
      && mover in s.calls && mover in Apply(cfg, s, a).calls
      && Remaining(Apply(cfg, s, a).calls[mover].pc) < Remaining(s.calls[mover].pc)
  {
    RunKeepsInv(cfg, INIT, actions);
    var s := Run(cfg, INIT, actions);
    hide Run;
    mover := if s.lock.Some? then s.lock.value else id;
    a := if s.calls[mover].pc.Fetching? then FetchReturns(mover, []) else Advance(mover);
    MoverMoves(cfg, s, mover);
  }

  // ----- answers without a fetch of one's own time -----

  ghost predicate SomeoneFetching(s: State) {
    exists id <- s.calls :: s.calls[id].pc.Fetching?
  }

  /** A call begun now can be told there is no such key although no fetch has begun since. */
  ghost predicate AnsweredWithoutFetch(cfg: Config, s: State, id: CallId, kid: Option<string>, alg: string) {
    exists after: seq<Action> ::
      var s' := Run(cfg, Apply(cfg, s, Begin(id, kid, alg)), after);
      id in s'.calls && s'.calls[id].pc == Done(NoKey) && s'.fetches == s.fetches
  }

  lemma {:induction false} StepWithoutFetch(cfg: Config, s: State, a: Action)
    ensures s.fetches <= Apply(cfg, s, a).fetches
    ensures !SomeoneFetching(s) ==> Apply(cfg, s, a).installs == s.installs
    ensures !SomeoneFetching(s) && Apply(cfg, s, a).fetches == s.fetches ==> !SomeoneFetching(Apply(cfg, s, a))
  {
    hide Lookup, Stale, NeedsFetch, Usable;
  }

  lemma {:induction false} FetchesGrow(cfg: Config, s: State, actions: seq<Action>)
    ensures s.fetches <= Run(cfg, s, actions).fetches
    decreases |actions|
  {
    if actions == [] {
    } else {
      StepWithoutFetch(cfg, s, actions[0]);
      hide Apply;
      FetchesGrow(cfg, Apply(cfg, s, actions[0]), actions[1..]);
    }
  }

  lemma {:induction false} NoInstallWithoutFetch(cfg: Config, s: State, actions: seq<Action>)
    requires !SomeoneFetching(s) && Run(cfg, s, actions).fetches == s.fetches
    ensures Run(cfg, s, actions).installs == s.installs
    decreases |actions|
  {
    if actions == [] {
    } else {
      var next := Apply(cfg, s, actions[0]);
      StepWithoutFetch(cfg, s, actions[0]);
      FetchesGrow(cfg, next, actions[1..]);
      assert Run(cfg, s, actions) == Run(cfg, next, actions[1..]);
      hide Apply, SomeoneFetching;
      NoInstallWithoutFetch(cfg, next, actions[1..]);
    }
  }

  lemma {:induction false} RunSnoc(cfg: Config, s: State, actions: seq<Action>, a: Action)
    ensures Run(cfg, s, actions + [a]) == Apply(cfg, Run(cfg, s, actions), a)
  {
    RunAppend(cfg, s, actions, [a]);
    assert [a][1..] == [];
    hide Apply;
  }

  /** A fetch in flight returns an empty document and its caller lets go of the lock. */
  lemma {:induction false} FetchLands(cfg: Config, s: State, fetcher: CallId, id: CallId) returns (actions: seq<Action>)
    requires fetcher in s.calls && s.calls[fetcher].pc.Fetching? && s.lock == Some(fetcher)
    requires id in s.calls && id != fetcher
    ensures var s' := Run(cfg, s, actions);
      && s'.lock == None && s'.cache == Cache([], Some(s'.clock)) && s'.fetches == s.fetches
      && id in s'.calls && s'.calls[id] == s.calls[id]
  {
    var s1 := Apply(cfg, s, FetchReturns(fetcher, []));
    assert Usable([]) == [];
    var s2 := Apply(cfg, s1, Advance(fetcher));
    assert s2.lock == None && s2.cache == Cache([], Some(s2.clock)) && s2.fetches == s.fetches;
    assert id in s2.calls && s2.calls[id] == s.calls[id];
    hide Apply;
    RunSnoc(cfg, s, [], FetchReturns(fetcher, []));
    RunSnoc(cfg, s, [] + [FetchReturns(fetcher, [])], Advance(fetcher));
    actions := [] + [FetchReturns(fetcher, [])] + [Advance(fetcher)];
  }

  /** A call that waits for an expiry refresh finds the cache fresh and empty. */
  lemma {:induction false} WaiterFindsNothing(cfg: Config, s: State, id: CallId) returns (actions: seq<Action>)
    requires id in s.calls && s.calls[id].pc == Waiting(OnExpiry)
    requires s.lock == None && s.cache == Cache([], Some(s.clock))
    ensures var s' := Run(cfg, s, actions);
      id in s'.calls && s'.calls[id].pc == Done(NoKey) && s'.fetches == s.fetches
  {
    var s1 := Apply(cfg, s, Advance(id));
    var s2 := Apply(cfg, s1, Advance(id));
    assert !Stale(s1.cache, s1.clock, cfg.ttl);
    assert s2.calls[id].pc == Unlocking(OnExpiry, false) && s2.fetches == s.fetches && s2.cache == s.cache;
    var s3 := Apply(cfg, s2, Advance(id));
    var s4 := Apply(cfg, s3, Advance(id));
    assert Lookup([], s.calls[id].kid, s.calls[id].alg) == None;
    assert s4.calls[id].pc == Done(NoKey) && s4.fetches == s.fetches;
    hide Apply;
    actions := [];
    RunSnoc(cfg, s, actions, Advance(id));
    actions := actions + [Advance(id)];
    RunSnoc(cfg, s, actions, Advance(id));
    actions := actions + [Advance(id)];
    RunSnoc(cfg, s, actions, Advance(id));
    actions := actions + [Advance(id)];
    RunSnoc(cfg, s, actions, Advance(id));
    actions := actions + [Advance(id)];
  }

  /** However fresh the cache, a call that is slow enough waits for an expiry refresh. */
  lemma {:induction false} SlowCallWaits(cfg: Config, s: State, id: CallId) returns (actions: seq<Action>)
    requires id in s.calls && s.calls[id].pc == CheckStale && HistoryInv(cfg, s)
    ensures var s' := Run(cfg, s, actions);
      s' == s.(clock := s.clock + cfg.ttl + 1, calls := s.calls[id := s.calls[id].(pc := Waiting(OnExpiry))])
  {
    var late := Tick(cfg.ttl + 1);
    var s1 := Apply(cfg, s, late);
    assert Stale(s1.cache, s1.clock, cfg.ttl);
    assert Apply(cfg, s1, Advance(id)) ==
      s.(clock := s.clock + cfg.ttl + 1, calls := s.calls[id := s.calls[id].(pc := Waiting(OnExpiry))]);
    hide Apply;
    RunSnoc(cfg, s, [], late);
    RunSnoc(cfg, s, [] + [late], Advance(id));
    actions := [] + [late] + [Advance(id)];
  }

  lemma {:induction false} FetchInFlightAnswers(cfg: Config, s: State, id: CallId, kid: Option<string>, alg: string)
    requires Inv(cfg, s) && id !in s.calls && SomeoneFetching(s)
    ensures AnsweredWithoutFetch(cfg, s, id, kid, alg)
  {
    var fetcher :| fetcher in s.calls && s.calls[fetcher].pc.Fetching?;
    var s1 := Apply(cfg, s, Begin(id, kid, alg));
    assert s.lock == Some(fetcher) && HistoryInv(cfg, s1);
    assert s1.calls[id].pc == CheckStale && s1.calls[fetcher] == s.calls[fetcher] && s1.fetches == s.fetches;
    hide Apply, HistoryInv, Inv, SomeoneFetching;
    var first := SlowCallWaits(cfg, s1, id);
    var s2 := Run(cfg, s1, first);
    var second := FetchLands(cfg, s2, fetcher, id);
    var s3 := Run(cfg, s2, second);
    var third := WaiterFindsNothing(cfg, s3, id);
    RunAppend(cfg, s1, first, second);
    RunAppend(cfg, s1, first + second, third);
    hide Run;
    assert Run(cfg, s1, first + second + third) == Run(cfg, s3, third);
  }

  /**
   A call begun in a reached state can be answered "no such key" with no fetch begun since it
   began if and only if some call is fetching when it begins.
   */
  lemma {:induction false} AnsweredFromOlderFetchIff(cfg: Config, before: seq<Action>, id: CallId, kid: Option<string>,
                                                     alg: string)
    requires id !in Run(cfg, INIT, before).calls
    ensures AnsweredWithoutFetch(cfg, Run(cfg, INIT, before), id, kid, alg) <==> SomeoneFetching(Run(cfg, INIT, before))
  {
    var s := Run(cfg, INIT, before);
    RunKeepsInv(cfg, INIT, before);
    if SomeoneFetching(s) {
      FetchInFlightAnswers(cfg, s, id, kid, alg);
    } else if AnsweredWithoutFetch(cfg, s, id, kid, alg) {
      var s1 := Apply(cfg, s, Begin(id, kid, alg));
      assert s1.installs == s.installs && s1.fetches == s.fetches && !SomeoneFetching(s1);
      var after: seq<Action> :|
        var s' := Run(cfg, s1, after);
        id in s'.calls && s'.calls[id].pc == Done(NoKey) && s'.fetches == s.fetches;
      NoInstallWithoutFetch(cfg, s1, after);
      RunAppend(cfg, INIT, before, [Begin(id, kid, alg)]);
      RunAppend(cfg, INIT, before + [Begin(id, kid, alg)], after);
      assert [Begin(id, kid, alg)][1..] == [];
      hide Apply, Lookup;
      NegativeAnswerIsCurrent(cfg, before, id, kid, alg, after);
      assert false;
    }
  }

  lemma {:induction false} FirstCallFetches(cfg: Config, kid: Option<string>, alg: string)
    requires cfg.hasUrl
    ensures var s := Run(cfg, INIT, [Begin(0, kid, alg), Advance(0), Advance(0), Advance(0)]);
      SomeoneFetching(s) && 1 !in s.calls
  {
    var call := Call(kid, alg, 0, 0, Fetching(OnExpiry));
    var t1 := INIT.(calls := map[0 := call.(pc := CheckStale)]);
    var t2 := INIT.(calls := map[0 := call.(pc := Waiting(OnExpiry))]);
    var t3 := INIT.(calls := map[0 := call.(pc := Holding(OnExpiry))], lock := Some(0));
    var t4 := INIT.(calls := map[0 := call], lock := Some(0), fetches := [Fetch(0, OnExpiry, 0, None)]);
    RunThrough(cfg, [INIT, t1, t2, t3, t4], [Begin(0, kid, alg), Advance(0), Advance(0), Advance(0)]);
    hide Run;
  }

  lemma {:induction false} NoUrlNoFetch(cfg: Config, s: State, actions: seq<Action>)
    requires !cfg.hasUrl && !SomeoneFetching(s)
    ensures !SomeoneFetching(Run(cfg, s, actions))
    decreases |actions|
  {
    if actions == [] {
    } else {
      StepWithoutUrl(cfg, s, actions[0]);
      hide Apply, SomeoneFetching;
      NoUrlNoFetch(cfg, Apply(cfg, s, actions[0]), actions[1..]);
    }
  }

  lemma {:induction false} StepWithoutUrl(cfg: Config, s: State, a: Action)
    requires !cfg.hasUrl && !SomeoneFetching(s)
    ensures !SomeoneFetching(Apply(cfg, s, a))
  {
    hide Lookup, Stale, NeedsFetch, Usable;
  }

  /** Some run holds such an answer if and only if there is a URL to fetch from at all. */
  lemma {:induction false} OlderFetchAnswersIff(cfg: Config, kid: Option<string>, alg: string)
    ensures (exists before: seq<Action>, id: CallId ::
               && id !in Run(cfg, INIT, before).calls
               && AnsweredWithoutFetch(cfg, Run(cfg, INIT, before), id, kid, alg))
            <==> cfg.hasUrl
  {
    if cfg.hasUrl {
      FirstCallFetches(cfg, kid, alg);
      hide Run, SomeoneFetching, AnsweredWithoutFetch;
      AnsweredFromOlderFetchIff(cfg, [Begin(0, kid, alg), Advance(0), Advance(0), Advance(0)], 1, kid, alg);
    } else {
      forall before: seq<Action>, id: CallId | id !in Run(cfg, INIT, before).calls
        ensures !AnsweredWithoutFetch(cfg, Run(cfg, INIT, before), id, kid, alg)
      {
        NoUrlNoFetch(cfg, INIT, before);
        AnsweredFromOlderFetchIff(cfg, before, id, kid, alg);
        hide Run, SomeoneFetching, AnsweredWithoutFetch;
      }
    }
  }
}
