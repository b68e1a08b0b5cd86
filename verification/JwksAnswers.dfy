/**
 What a `key_for` call answers, in every run: when it fails, which entry of the document it
 fetched it returns, and when it answers from the cache without fetching.
 */
module JwksAnswers {
  import opened Prelude
  import opened Jwks
  import opened JwksProtocol

  // ----- when a call fails -----

  /**
   An expiry refresh is needed with nothing in the cache or with it past its lifetime, a forced one while
   nobody else has refreshed.
   */
  predicate FetchNeeded(cfg: Config, s: State, kind: Refresh) {
    match kind
    case OnExpiry => s.cache.fetchedAt.None? || s.clock - s.cache.fetchedAt.value > cfg.ttl
    case Forced(baseline) => s.cache.fetchedAt == baseline
  }

  /** With this action the call's own fetch fails, or it turns out that there is no URL to fetch from. */
  predicate FetchLost(cfg: Config, s: State, a: Action, id: CallId) {
    && id in s.calls
    && match s.calls[id].pc
       case Fetching(_) => a == FetchFails(id)
       case Holding(kind) => a == Advance(id) && !cfg.hasUrl && FetchNeeded(cfg, s, kind)
       case _ => false
  }

  /** At some moment of the run that happened to the call. */
  ghost predicate LostItsFetch(cfg: Config, actions: seq<Action>, id: CallId) {
    exists i :: 0 <= i < |actions| && FetchLost(cfg, Run(cfg, INIT, actions[..i]), actions[i], id)
  }

  predicate Failing(s: State, id: CallId) {
    id in s.calls && (s.calls[id].pc == Done(Failed) || (s.calls[id].pc.Unlocking? && s.calls[id].pc.failed))
  }

  lemma {:induction false} FailingStep(cfg: Config, s: State, a: Action, id: CallId)
    ensures Failing(Apply(cfg, s, a), id) <==> Failing(s, id) || FetchLost(cfg, s, a, id)
  {
    hide Lookup, Usable;
  }

  lemma {:induction false} LostSnoc(cfg: Config, actions: seq<Action>, a: Action, id: CallId)
    ensures LostItsFetch(cfg, actions + [a], id) <==>
      LostItsFetch(cfg, actions, id) || FetchLost(cfg, Run(cfg, INIT, actions), a, id)
  {
    var all := actions + [a];
    hide Run, FetchLost;
    assert all[..|actions|] == actions && all[|actions|] == a;
    assert forall i | 0 <= i < |actions| :: all[..i] == actions[..i] && all[i] == actions[i];
  }

  lemma {:induction false} FailingExactly(cfg: Config, actions: seq<Action>, id: CallId)
    ensures Failing(Run(cfg, INIT, actions), id) <==> LostItsFetch(cfg, actions, id)
  {
    if actions == [] {
    } else {
      var n := |actions| - 1;
      FailingExactly(cfg, actions[..n], id);
      assert actions == actions[..n] + [actions[n]];
      RunSnoc(cfg, INIT, actions[..n], actions[n]);
      LostSnoc(cfg, actions[..n], actions[n], id);
      FailingStep(cfg, Run(cfg, INIT, actions[..n]), actions[n], id);
      hide *;
    }
  }

  /** In every run a call that is over has failed exactly when its own fetch failed or it needed one without a URL. */
  lemma {:induction false} FailsIff(cfg: Config, actions: seq<Action>, id: CallId)
    requires id in Run(cfg, INIT, actions).calls && Run(cfg, INIT, actions).calls[id].pc.Done?
    ensures Run(cfg, INIT, actions).calls[id].pc.answer == Failed <==> LostItsFetch(cfg, actions, id)
  {
    FailingExactly(cfg, actions, id);
    hide Run, LostItsFetch;
  }

  // ----- what a call finds -----

  /** How many steps of its own the call is given. */
  function Turns(actions: seq<Action>, id: CallId): nat {
    if actions == [] then 0 else (if actions[0] == Advance(id) then 1 else 0) + Turns(actions[1..], id)
  }

  /** The answer of a call that is over is the first entry of the document that serves it. */
  ghost predicate AnswerIsServed(body: seq<JwkEntry>, c: Call) {
    match c.pc
    case Done(Found(key)) => ServedFrom(body, c.kid, c.alg, Some(key))
    case Done(NoKey) => ServedFrom(body, c.kid, c.alg, None)
    case _ => false
  }

  /** The call's own fetch has returned `body`, which is what the cache still holds. */
  ghost predicate HasFetched(s: State, id: CallId, body: seq<JwkEntry>) {
    && id in s.calls && s.cache.keys == Usable(body)
    && match s.calls[id].pc
       case Unlocking(_, failed) => !failed
       case LookupFirst(refreshed) => refreshed
       case LookupAgain => true
       case Done(_) => AnswerIsServed(body, s.calls[id])
       case _ => false
  }

  /** The call began with a cache within its lifetime that answers it with `key`. */
  ghost predicate HasFreshKey(s: State, id: CallId, key: DecodingKey) {
    && id in s.calls && Lookup(s.cache.keys, s.calls[id].kid, s.calls[id].alg) == Some(key)
    && s.calls[id].pc in {CheckStale, LookupFirst(false), Done(Found(key))}
    && forall f <- s.fetches :: f.caller != id
  }

  /** Steps that separate a call from its answer, once its fetch is over or not needed. */
  function Left(pc: Pc): nat {
    match pc
    case CheckStale => 2
    case Unlocking(_, _) => 2
    case Done(_) => 0
    case _ => 1
  }

  lemma {:induction false} InstallsGrow(cfg: Config, s: State, a: Action, after: seq<Action>)
    requires Run(cfg, Apply(cfg, s, a), after).installs == s.installs
    ensures Apply(cfg, s, a).installs == s.installs && Apply(cfg, s, a).cache == s.cache
    ensures s.clock <= Apply(cfg, s, a).clock <= Run(cfg, Apply(cfg, s, a), after).clock
  {
    HistoryGrows(cfg, Apply(cfg, s, a), after);
    HistoryGrows(cfg, s, [a]);
    assert [a][1..] == [];
    hide Lookup, Stale, NeedsFetch, Usable;
  }

  lemma {:induction false} HistoryGrows(cfg: Config, s: State, actions: seq<Action>)
    ensures |s.installs| <= |Run(cfg, s, actions).installs| && s.clock <= Run(cfg, s, actions).clock
    decreases |actions|
  {
    if actions == [] {
    } else {
      HistoryGrows(cfg, Apply(cfg, s, actions[0]), actions[1..]);
      hide Lookup, Stale, NeedsFetch, Usable;
    }
  }

  lemma {:induction false} FetchedTurn(cfg: Config, s: State, id: CallId, body: seq<JwkEntry>)
    requires HasFetched(s, id, body)
    ensures var s' := AdvanceCall(cfg, s, id);
      && HasFetched(s', id, body) && s'.calls[id] == s.calls[id].(pc := s'.calls[id].pc)
      && (Left(s'.calls[id].pc) < Left(s.calls[id].pc) || s'.calls[id].pc.Done?)
  {
    LookupServes(body, s.calls[id].kid, s.calls[id].alg);
    hide Lookup, Stale, NeedsFetch, Usable, ServedFrom;
  }

  /** Steps of others, and of a call that is not its turn, leave such a call alone. */
  lemma {:induction false} OthersLeaveAlone(cfg: Config, s: State, a: Action, id: CallId)
    requires id in s.calls && !s.calls[id].pc.Waiting? && !s.calls[id].pc.Fetching? && a != Advance(id)
    ensures id in Apply(cfg, s, a).calls && Apply(cfg, s, a).calls[id] == s.calls[id]
    ensures forall f <- Apply(cfg, s, a).fetches :: f in s.fetches || f.caller != id
  {
    hide Lookup, Stale, NeedsFetch, Usable;
  }

  lemma {:induction false} FetchedAnswers(cfg: Config, s: State, id: CallId, body: seq<JwkEntry>, after: seq<Action>)
    requires HasFetched(s, id, body) && Run(cfg, s, after).installs == s.installs
    requires s.calls[id].pc.Done? || Left(s.calls[id].pc) <= Turns(after, id)
    ensures var s' := Run(cfg, s, after);
      && id in s'.calls && s'.calls[id].pc.Done? && s'.calls[id] == s.calls[id].(pc := s'.calls[id].pc)
      && AnswerIsServed(body, s'.calls[id])
    decreases |after|
  {
    if after == [] {
    } else {
      var a, s1 := after[0], Apply(cfg, s, after[0]);
      InstallsGrow(cfg, s, a, after[1..]);
      if a == Advance(id) { FetchedTurn(cfg, s, id, body); } else { OthersLeaveAlone(cfg, s, a, id); }
      assert HasFetched(s1, id, body);
      hide HasFetched, AnswerIsServed, AdvanceCall, Apply;
      FetchedAnswers(cfg, s1, id, body, after[1..]);
    }
  }

  /**
   When a call's own fetch returns `body` and nobody installs another document before the call has had its
   next two turns, it has answered from `body`: with the key of the first entry that serves it, or with
   "no such key" when none does.
   */
  lemma {:induction false} FetchedDocumentAnswers(cfg: Config, s: State, id: CallId, body: seq<JwkEntry>,
                                                  after: seq<Action>)
    requires id in s.calls && s.calls[id].pc.Fetching?
    requires var s1 := Apply(cfg, s, FetchReturns(id, body));
      Run(cfg, s1, after).installs == s1.installs && Turns(after, id) >= 2
    ensures var s' := Run(cfg, Apply(cfg, s, FetchReturns(id, body)), after);
      && id in s'.calls && s'.calls[id].pc.Done?
      && match s'.calls[id].pc.answer
         case Found(key) => ServedFrom(body, s.calls[id].kid, s.calls[id].alg, Some(key))
         case NoKey => ServedFrom(body, s.calls[id].kid, s.calls[id].alg, None)
         case _ => false
  {
    var s1 := Apply(cfg, s, FetchReturns(id, body));
    hide Usable, Lookup, Stale, ServedFrom, Turns;
    FetchedAnswers(cfg, s1, id, body, after);
  }

  lemma {:induction false} FreshTurn(cfg: Config, s: State, id: CallId, key: DecodingKey)
    requires HasFreshKey(s, id, key)
    requires s.cache.fetchedAt.Some? && s.clock - s.cache.fetchedAt.value <= cfg.ttl
    ensures var s' := AdvanceCall(cfg, s, id);
      && HasFreshKey(s', id, key) && (Left(s'.calls[id].pc) < Left(s.calls[id].pc) || s'.calls[id].pc.Done?)
  {
    hide Lookup, NeedsFetch;
  }

  lemma {:induction false} FreshAnswers(cfg: Config, s: State, id: CallId, key: DecodingKey, after: seq<Action>)
    requires HasFreshKey(s, id, key) && Run(cfg, s, after).installs == s.installs
    requires s.cache.fetchedAt.Some? && Run(cfg, s, after).clock - s.cache.fetchedAt.value <= cfg.ttl
    requires Left(s.calls[id].pc) <= Turns(after, id)
    ensures var s' := Run(cfg, s, after);
      && id in s'.calls && s'.calls[id].pc == Done(Found(key)) && forall f <- s'.fetches :: f.caller != id
    decreases |after|
  {
    if after == [] {
    } else {
      var a, s1 := after[0], Apply(cfg, s, after[0]);
      InstallsGrow(cfg, s, a, after[1..]);
      if a == Advance(id) { FreshTurn(cfg, s, id, key); } else { OthersLeaveAlone(cfg, s, a, id); }
      assert HasFreshKey(s1, id, key);
      hide HasFreshKey, AdvanceCall, Apply;
      FreshAnswers(cfg, s1, id, key, after[1..]);
    }
  }

  /** A document serves at most one key. */
  lemma {:induction false} ServedOnce(body: seq<JwkEntry>, kid: Option<string>, alg: string, a: Option<DecodingKey>,
                                      b: Option<DecodingKey>)
    requires ServedFrom(body, kid, alg, a) && ServedFrom(body, kid, alg, b)
    ensures a == b
  {
    hide Serves;
  }

  /**
   A call that begins while the cached document serves its key is answered with that key, and starts no
   fetch, if by its second turn the document is neither replaced nor past its lifetime.
   */
  lemma {:induction false} FreshKeyNeedsNoFetch(cfg: Config, before: seq<Action>, id: CallId, kid: Option<string>,
                                                alg: string, body: seq<JwkEntry>, key: DecodingKey, after: seq<Action>)
    requires id !in Run(cfg, INIT, before).calls
    requires Run(cfg, INIT, before).cache.keys == Usable(body) && ServedFrom(body, kid, alg, Some(key))
    requires var s1 := Apply(cfg, Run(cfg, INIT, before), Begin(id, kid, alg));
      && Run(cfg, s1, after).installs == s1.installs && Turns(after, id) >= 2
      && s1.cache.fetchedAt.Some? && Run(cfg, s1, after).clock - s1.cache.fetchedAt.value <= cfg.ttl
    ensures var s' := Run(cfg, Apply(cfg, Run(cfg, INIT, before), Begin(id, kid, alg)), after);
      && id in s'.calls && s'.calls[id].pc == Done(Found(key)) && forall f <- s'.fetches :: f.caller != id
  {
    var s := Run(cfg, INIT, before);
    RunKeepsInv(cfg, INIT, before);
    assert FetchInv(cfg, s);
    LookupServes(body, kid, alg);
    ServedOnce(body, kid, alg, Some(key), Lookup(Usable(body), kid, alg));
    hide Usable, Lookup, Stale, ServedFrom, Turns, Run;
    FreshAnswers(cfg, Apply(cfg, s, Begin(id, kid, alg)), id, key, after);
  }
}
