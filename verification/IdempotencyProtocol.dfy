/**
 Any number of requests racing through the idempotency layer. Looking the key up, entering
 the handler, returning from it and saving the response are separate actions of an arbitrary
 scheduler; entries may expire, and unparsable text may appear under a key, at any time.
 */
module IdempotencyProtocol {
  import opened Idempotency
  import opened Prelude

  type RequestId = nat

  datatype Answer =
    | Served(response: Response)
    | Replayed(response: Response)
    | Conflict
    | BadGateway

  datatype Pc = Looking | Calling | Running | Saving | Finished(answer: Answer)

  /** `entered` counts handler calls made for this request; `returned` is what the handler gave back. */
  datatype Proc = Proc(req: Request, pc: Pc, entered: nat, returned: Option<Response>)

  datatype State = State(redis: map<string, Entry>, procs: map<RequestId, Proc>)

  datatype Action =
    | Arrive(id: RequestId, req: Request)
    | Lookup(id: RequestId, ok: bool)
    | Enter(id: RequestId)
    | Return(id: RequestId, response: Response, readable: bool)
    | Save(id: RequestId, ok: bool)
    | Expire(key: string)
    | Scribble(key: string)

  const INIT := State(map[], map[])

  function Arrived(req: Request): Proc {
    Proc(req,
         if !Intercepted(req) then Calling
         else if req.body.None? then Finished(BadGateway)
         else Looking,
         0, None)
  }

  function Found(s: State, key: string, ok: bool): Entry {
    if ok && key in s.redis then s.redis[key] else Garbage
  }

  function AfterLookup(cfg: Config, req: Request, found: Entry): Pc
    requires req.body.Some?
  {
    match found
    case Garbage => Calling
    case Cached(c) =>
      if c.fingerprint == Fingerprint(cfg, req) then Finished(Replayed(Replay(c))) else Finished(Conflict)
  }

  function AfterReturn(req: Request, response: Response, readable: bool): Pc {
    if !Intercepted(req) then Finished(Served(response))
    else if !readable then Finished(Served(response.(body := "")))
    else Saving
  }

  /** The actions a request can take next. */
  predicate Enabled(s: State, a: Action) {
    match a
    case Arrive(id, _) => id !in s.procs
    case Lookup(id, _) => id in s.procs && s.procs[id].pc.Looking? && Keyed(s.procs[id].req)
    case Enter(id) => id in s.procs && s.procs[id].pc.Calling?
    case Return(id, _, _) => id in s.procs && s.procs[id].pc.Running?
    case Save(id, _) =>
      id in s.procs && s.procs[id].pc.Saving? && Keyed(s.procs[id].req) && s.procs[id].returned.Some?
    case _ => true
  }

  predicate Keyed(req: Request) {
    Intercepted(req) && req.body.Some?
  }

  function Move(cfg: Config, s: State, a: Action): Proc
    requires Enabled(s, a) && !a.Expire? && !a.Scribble?
  {
    match a
    case Arrive(_, req) => Arrived(req)
    case Lookup(id, ok) =>
      var p := s.procs[id];
      p.(pc := AfterLookup(cfg, p.req, Found(s, RedisKey(cfg, p.req), ok)))
    case Enter(id) =>
      s.procs[id].(pc := Running, entered := s.procs[id].entered + 1)
    case Return(id, response, readable) =>
      s.procs[id].(pc := AfterReturn(s.procs[id].req, response, readable), returned := Some(response))
    case Save(id, _) =>
      s.procs[id].(pc := Finished(Served(s.procs[id].returned.value)))
  }

  function Redis(cfg: Config, s: State, a: Action): map<string, Entry>
    requires Enabled(s, a)
  {
    match a
    case Save(id, ok) =>
      var p := s.procs[id];
      if ok then s.redis[RedisKey(cfg, p.req) := Cached(Stored(p.returned.value, Fingerprint(cfg, p.req)))]
      else s.redis
    case Expire(key) => s.redis - {key}
    case Scribble(key) => s.redis[key := Garbage]
    case _ => s.redis
  }

  function Apply(cfg: Config, s: State, a: Action): State {
    if !Enabled(s, a) then s
    else if a.Expire? || a.Scribble? then s.(redis := Redis(cfg, s, a))
    else State(Redis(cfg, s, a), s.procs[a.id := Move(cfg, s, a)])
  }

  function RunFrom(cfg: Config, s: State, actions: seq<Action>): State {
    if actions == [] then s
    else Apply(cfg, RunFrom(cfg, s, actions[..|actions| - 1]), actions[|actions| - 1])
  }

  function Run(cfg: Config, actions: seq<Action>): State {
    RunFrom(cfg, INIT, actions)
  }

  // ----- each request on its own -----

  /** What a request's counters say about where it stands. */
  predicate Sound(p: Proc) {
    match p.pc
    case Looking => p.entered == 0 && p.returned.None? && Keyed(p.req)
    case Calling => p.entered == 0 && p.returned.None?
    case Running => p.entered == 1 && p.returned.None?
    case Saving => p.entered == 1 && p.returned.Some? && Intercepted(p.req)
    case Finished(Served(r)) =>
      && p.entered == 1 && p.returned.Some?
      && (r == p.returned.value || (Intercepted(p.req) && r == p.returned.value.(body := "")))
    case Finished(BadGateway) => p.entered == 0 && p.returned.None? && p.req.body.None?
    case Finished(_) => p.entered == 0 && p.returned.None? && Keyed(p.req)
  }

  ghost predicate AllSound(s: State) {
    forall id <- s.procs :: Sound(s.procs[id])
  }

  lemma {:induction false} MoveIsSound(cfg: Config, s: State, a: Action)
    requires AllSound(s) && Enabled(s, a) && !a.Expire? && !a.Scribble?
    ensures Sound(Move(cfg, s, a))
  {
    hide RedisKey, Fingerprint, Replay, Stored;
  }

  lemma {:induction false} RunIsSound(cfg: Config, actions: seq<Action>)
    ensures AllSound(Run(cfg, actions))
  {
    if actions == [] {
    } else {
      var s, a := Run(cfg, actions[..|actions| - 1]), actions[|actions| - 1];
      RunIsSound(cfg, actions[..|actions| - 1]);
      if Enabled(s, a) && !a.Expire? && !a.Scribble? { MoveIsSound(cfg, s, a); }
      hide Enabled, Sound, Move, Redis;
    }
  }

  /** The handler runs at most once per request, and exactly once when its own response is served. */
  lemma {:induction false} HandlerRunsForItsOwnAnswer(cfg: Config, actions: seq<Action>, id: RequestId)
    requires id in Run(cfg, actions).procs && Run(cfg, actions).procs[id].pc.Finished?
    ensures var p := Run(cfg, actions).procs[id];
      && p.entered <= 1
      && (p.entered == 1 <==> p.pc.answer.Served?)
      && (p.pc.answer.BadGateway? <==> Intercepted(p.req) && p.req.body.None?)
      && (p.pc.answer.Served? ==>
            && p.returned.Some?
            && (p.pc.answer.response == p.returned.value
                || (Intercepted(p.req) && p.pc.answer.response == p.returned.value.(body := ""))))
  {
    RunIsSound(cfg, actions);
    FailedBodyNeverServed(cfg, actions, id);
  }

  predicate RejectedEarly(p: Proc) {
    Intercepted(p.req) && p.req.body.None? <==> p.pc == Finished(BadGateway)
  }

  lemma {:induction false} FailedBodyNeverServed(cfg: Config, actions: seq<Action>, id: RequestId)
    requires id in Run(cfg, actions).procs
    ensures RejectedEarly(Run(cfg, actions).procs[id])
  {
    if actions == [] {
    } else {
      var before, a := actions[..|actions| - 1], actions[|actions| - 1];
      var s := Run(cfg, before);
      if id in s.procs { FailedBodyNeverServed(cfg, before, id); }
      if Enabled(s, a) && !a.Expire? && !a.Scribble? && a.id == id {
        MoveKeepsRejection(cfg, s, a);
      }
      hide Enabled, Move, Redis, RejectedEarly;
    }
  }

  lemma {:induction false} MoveKeepsRejection(cfg: Config, s: State, a: Action)
    requires Enabled(s, a) && !a.Expire? && !a.Scribble?
    requires a.id in s.procs ==> RejectedEarly(s.procs[a.id])
    ensures RejectedEarly(Move(cfg, s, a))
  {
    hide RedisKey, Fingerprint, Replay, Stored;
  }

  // ----- where replays come from -----

  /** `r` replays the response that the handler gave request `from`, which shares the key and fingerprint. */
  ghost predicate Origin(cfg: Config, s: State, from: RequestId, key: string, fingerprint: string, c: CachedResponse) {
    && from in s.procs && Keyed(s.procs[from].req) && s.procs[from].returned.Some?
    && RedisKey(cfg, s.procs[from].req) == key
    && Fingerprint(cfg, s.procs[from].req) == fingerprint
    && c == Stored(s.procs[from].returned.value, fingerprint)
  }

  ghost predicate EntriesHaveOrigin(cfg: Config, s: State) {
    forall key | key in s.redis && s.redis[key].Cached? ::
      exists from: RequestId :: Origin(cfg, s, from, key, s.redis[key].response.fingerprint, s.redis[key].response)
  }

  ghost predicate ReplayHasOrigin(cfg: Config, s: State, id: RequestId)
    requires id in s.procs
  {
    var p := s.procs[id];
    p.pc.Finished? && p.pc.answer.Replayed? && Keyed(p.req) ==>
      exists from: RequestId, c: CachedResponse ::
        Origin(cfg, s, from, RedisKey(cfg, p.req), Fingerprint(cfg, p.req), c) && p.pc.answer.response == Replay(c)
  }

  ghost predicate ReplaysHaveOrigin(cfg: Config, s: State) {
    forall id <- s.procs :: ReplayHasOrigin(cfg, s, id)
  }

  /** Once the handler has returned, what it returned stays on record. */
  lemma {:induction false} OriginStays(cfg: Config, s: State, a: Action, from: RequestId, key: string,
                                       fingerprint: string, c: CachedResponse)
    requires AllSound(s) && Origin(cfg, s, from, key, fingerprint, c)
    ensures Origin(cfg, Apply(cfg, s, a), from, key, fingerprint, c)
  {
    assert Sound(s.procs[from]);
    hide Fingerprint, RedisKey, Stored, Replay;
  }

  lemma {:induction false} EntriesKeepOrigin(cfg: Config, s: State, a: Action)
    requires AllSound(s) && EntriesHaveOrigin(cfg, s)
    ensures EntriesHaveOrigin(cfg, Apply(cfg, s, a))
  {
    var s' := Apply(cfg, s, a);
    hide Origin, Fingerprint, RedisKey, Stored, Replay, Sound;
    forall key | key in s'.redis && s'.redis[key].Cached?
      ensures exists from: RequestId ::
        Origin(cfg, s', from, key, s'.redis[key].response.fingerprint, s'.redis[key].response)
    {
      if key in s.redis && s.redis[key] == s'.redis[key] {
        var from :| Origin(cfg, s, from, key, s.redis[key].response.fingerprint, s.redis[key].response);
        OriginStays(cfg, s, a, from, key, s.redis[key].response.fingerprint, s.redis[key].response);
      } else {
        SaveIsOrigin(cfg, s, a, key);
      }
    }
  }

  lemma {:induction false} SaveIsOrigin(cfg: Config, s: State, a: Action, key: string)
    requires AllSound(s) && Enabled(s, a)
    requires key in Redis(cfg, s, a) && Redis(cfg, s, a)[key].Cached?
    requires !(key in s.redis && s.redis[key] == Redis(cfg, s, a)[key])
    ensures a.Save? && Origin(cfg, Apply(cfg, s, a), a.id, key,
                              Redis(cfg, s, a)[key].response.fingerprint, Redis(cfg, s, a)[key].response)
  {
    hide Fingerprint, RedisKey, Replay, Sound;
  }

  lemma {:induction false} ReplayKeepsOrigin(cfg: Config, s: State, a: Action, id: RequestId)
    requires AllSound(s) && id in s.procs && ReplayHasOrigin(cfg, s, id)
    requires id in Apply(cfg, s, a).procs && Apply(cfg, s, a).procs[id] == s.procs[id]
    ensures ReplayHasOrigin(cfg, Apply(cfg, s, a), id)
  {
    var p := s.procs[id];
    hide Origin, Fingerprint, RedisKey, Stored, Replay, Sound, Apply;
    if p.pc.Finished? && p.pc.answer.Replayed? && Keyed(p.req) {
      var from: RequestId, c: CachedResponse :|
        Origin(cfg, s, from, RedisKey(cfg, p.req), Fingerprint(cfg, p.req), c) && p.pc.answer.response == Replay(c);
      OriginStays(cfg, s, a, from, RedisKey(cfg, p.req), Fingerprint(cfg, p.req), c);
    }
  }

  lemma {:induction false} NewReplayHasOrigin(cfg: Config, s: State, a: Action, id: RequestId)
    requires AllSound(s) && EntriesHaveOrigin(cfg, s) && Enabled(s, a) && !a.Expire? && !a.Scribble? && a.id == id
    ensures id in Apply(cfg, s, a).procs && ReplayHasOrigin(cfg, Apply(cfg, s, a), id)
  {
    var s' := Apply(cfg, s, a);
    var p := s'.procs[id];
    hide Fingerprint, RedisKey, Stored, Replay, Origin;
    if p.pc.Finished? && p.pc.answer.Replayed? {
      assert a.Lookup?;
      var key := RedisKey(cfg, p.req);
      var c := s.redis[key].response;
      var from :| Origin(cfg, s, from, key, c.fingerprint, c);
      OriginStays(cfg, s, a, from, key, c.fingerprint, c);
    }
  }

  lemma {:induction false} RunHasOrigins(cfg: Config, actions: seq<Action>)
    ensures AllSound(Run(cfg, actions))
    ensures EntriesHaveOrigin(cfg, Run(cfg, actions)) && ReplaysHaveOrigin(cfg, Run(cfg, actions))
  {
    RunIsSound(cfg, actions);
    if actions == [] {
    } else {
      var before, a := actions[..|actions| - 1], actions[|actions| - 1];
      var s, s' := Run(cfg, before), Run(cfg, actions);
      RunHasOrigins(cfg, before);
      EntriesKeepOrigin(cfg, s, a);
      assert s' == Apply(cfg, s, a);
      hide EntriesHaveOrigin, ReplayHasOrigin, AllSound, Move, Redis, RunFrom;
      forall id <- s'.procs ensures ReplayHasOrigin(cfg, s', id) {
        if Enabled(s, a) && !a.Expire? && !a.Scribble? && a.id == id {
          NewReplayHasOrigin(cfg, s, a, id);
        } else {
          ReplayKeepsOrigin(cfg, s, a, id);
        }
      }
    }
  }

  /** The digest tells apart the requests of this run. */
  ghost predicate CollisionFree(cfg: Config, s: State) {
    forall i, j | i in s.procs && j in s.procs && s.procs[i].req.body.Some? && s.procs[j].req.body.Some? ::
      cfg.digest(Encode(s.procs[i].req)) == cfg.digest(Encode(s.procs[j].req)) ==>
      Encode(s.procs[i].req) == Encode(s.procs[j].req)
  }

  /**
   In every interleaving a replayed response was built from a handler call that had already
   returned, for a request with the same Redis key, verb, path and body.
   */
  lemma {:induction false} ReplaySafety(cfg: Config, actions: seq<Action>, id: RequestId) returns (from: RequestId)
    requires var s := Run(cfg, actions);
      && id in s.procs && s.procs[id].pc.Finished? && s.procs[id].pc.answer.Replayed?
      && CollisionFree(cfg, s) && forall i <- s.procs :: NewlineFree(s.procs[i].req)
    ensures var s := Run(cfg, actions);
      && from in s.procs && s.procs[from].entered == 1 && s.procs[from].returned.Some? && s.procs[id].entered == 0
      && Keyed(s.procs[from].req) && Keyed(s.procs[id].req)
      && RedisKey(cfg, s.procs[from].req) == RedisKey(cfg, s.procs[id].req)
      && SameOperation(s.procs[from].req, s.procs[id].req)
      && var original := s.procs[from].returned.value;
         s.procs[id].pc.answer.response ==
           Response(original.status, VisibleHeaders(original.headers) + [REPLAY_HEADER], original.body)
  {
    var s := Run(cfg, actions);
    RunHasOrigins(cfg, actions);
    var p := s.procs[id];
    assert Sound(p);
    assert ReplayHasOrigin(cfg, s, id);
    hide Run, RedisKey, VisibleHeaders, Stored, Replay, Encode;
    var c: CachedResponse;
    from, c :|
      Origin(cfg, s, from, RedisKey(cfg, p.req), Fingerprint(cfg, p.req), c) && p.pc.answer.response == Replay(c);
    assert Sound(s.procs[from]);
    ReplayOfStored(s.procs[from].returned.value, Fingerprint(cfg, p.req));
    HexInjective(cfg.digest(Encode(s.procs[from].req)), cfg.digest(Encode(p.req)));
    EncodingIsInjective(s.procs[from].req, p.req);
  }

  // ----- what a stored entry prevents -----

  predicate Drops(a: Action, key: string) {
    (a.Expire? || a.Scribble?) && a.key == key
  }

  ghost predicate Holds(cfg: Config, s: State, key: string, id: RequestId) {
    && key in s.redis && s.redis[key].Cached?
    && (id in s.procs && Keyed(s.procs[id].req) && RedisKey(cfg, s.procs[id].req) == key ==>
          s.procs[id].entered == 0 && (s.procs[id].pc.Looking? || s.procs[id].pc.Finished?))
  }

  lemma {:induction false} ApplyHolds(cfg: Config, s: State, a: Action, key: string, id: RequestId)
    requires Holds(cfg, s, key, id) && !Drops(a, key) && a != Lookup(id, false)
    requires AllSound(s)
    ensures Holds(cfg, Apply(cfg, s, a), key, id)
  {
    hide RedisKey, Fingerprint, Stored, Replay;
  }

  lemma {:induction false} SoundFrom(cfg: Config, s: State, actions: seq<Action>)
    requires AllSound(s)
    ensures AllSound(RunFrom(cfg, s, actions))
  {
    if actions == [] {
    } else {
      var t, a := RunFrom(cfg, s, actions[..|actions| - 1]), actions[|actions| - 1];
      SoundFrom(cfg, s, actions[..|actions| - 1]);
      if Enabled(t, a) && !a.Expire? && !a.Scribble? { MoveIsSound(cfg, t, a); }
      hide Enabled, Sound, Move, Redis;
    }
  }

  /**
   While an entry is stored, a request with its key that had not got past its lookup never
   reaches the handler, unless that lookup fails: it is replayed or refused.
   */
  lemma {:induction false} StoredEntryShieldsHandler(cfg: Config, s: State, actions: seq<Action>, key: string,
                                                     id: RequestId)
    requires AllSound(s) && key in s.redis && s.redis[key].Cached?
    requires id in s.procs ==> s.procs[id].pc.Looking?
    requires forall a <- actions :: !Drops(a, key) && a != Lookup(id, false)
    ensures Holds(cfg, RunFrom(cfg, s, actions), key, id)
  {
    if actions == [] {
      assert id in s.procs ==> Sound(s.procs[id]);
    } else {
      var n := |actions| - 1;
      assert forall a <- actions[..n] :: a in actions;
      StoredEntryShieldsHandler(cfg, s, actions[..n], key, id);
      SoundFrom(cfg, s, actions[..n]);
      assert actions[n] in actions;
      ApplyHolds(cfg, RunFrom(cfg, s, actions[..n]), actions[n], key, id);
      hide Holds, Apply, AllSound;
    }
  }

  /** Nothing happens to the entry behind the request's back, and its own lookup does not fail. */
  ghost predicate Undropped(actions: seq<Action>, key: string, id: RequestId) {
    forall a <- actions :: !Drops(a, key) && a != Lookup(id, false)
  }

  /** Some run without failed lookups or dropped entries takes the request into the handler. */
  ghost predicate CanReachHandler(cfg: Config, s: State, key: string, id: RequestId) {
    exists actions: seq<Action> ::
      && Undropped(actions, key, id)
      && id in RunFrom(cfg, s, actions).procs && RunFrom(cfg, s, actions).procs[id].entered > 0
  }

  lemma {:induction false} LookupThenEnter(cfg: Config, s: State, id: RequestId)
    requires Enabled(s, Lookup(id, true)) && Found(s, RedisKey(cfg, s.procs[id].req), true).Garbage?
    ensures var s' := RunFrom(cfg, s, [Lookup(id, true), Enter(id)]);
      id in s'.procs && s'.procs[id].entered > 0
  {
    var s1 := Apply(cfg, s, Lookup(id, true));
    hide RedisKey;
    assert s1.procs[id].pc == Calling;
    assert [Lookup(id, true), Enter(id)][..1] == [Lookup(id, true)];
    assert [Lookup(id, true)][..0] == [];
    assert RunFrom(cfg, s, [Lookup(id, true)]) == s1;
  }

  /**
   A request about to look its key up can reach the handler, without its lookup failing or the
   entry being dropped, if and only if no parsable entry is stored under the key.
   */
  lemma {:induction false} ReachesHandlerIff(cfg: Config, s: State, id: RequestId)
    requires AllSound(s) && Enabled(s, Lookup(id, true))
    ensures var key := RedisKey(cfg, s.procs[id].req);
      CanReachHandler(cfg, s, key, id) <==> !(key in s.redis && s.redis[key].Cached?)
  {
    var req := s.procs[id].req;
    var key := RedisKey(cfg, req);
    if key in s.redis && s.redis[key].Cached? {
      forall actions: seq<Action> | Undropped(actions, key, id)
        ensures !(id in RunFrom(cfg, s, actions).procs && RunFrom(cfg, s, actions).procs[id].entered > 0)
      {
        StoredEntryShieldsHandler(cfg, s, actions, key, id);
        RequestStays(cfg, s, actions, id);
        hide RunFrom, Undropped, RedisKey, AllSound;
      }
    } else {
      LookupThenEnter(cfg, s, id);
      assert Undropped([Lookup(id, true), Enter(id)], key, id);
    }
  }

  lemma {:induction false} RequestStays(cfg: Config, s: State, actions: seq<Action>, id: RequestId)
    requires id in s.procs
    ensures id in RunFrom(cfg, s, actions).procs && RunFrom(cfg, s, actions).procs[id].req == s.procs[id].req
  {
    if actions == [] {
    } else {
      RequestStays(cfg, s, actions[..|actions| - 1], id);
      hide RedisKey, Fingerprint, Replay, Stored;
    }
  }

  lemma {:induction false} FinishedStays(cfg: Config, s: State, actions: seq<Action>, id: RequestId)
    requires id in s.procs && s.procs[id].pc.Finished?
    ensures id in RunFrom(cfg, s, actions).procs && RunFrom(cfg, s, actions).procs[id] == s.procs[id]
  {
    if actions == [] {
    } else {
      FinishedStays(cfg, s, actions[..|actions| - 1], id);
      hide Move, Redis;
    }
  }

  /** A request that reads an entry with another fingerprint is refused for good and never reaches the handler. */
  lemma {:induction false} MismatchIsRefused(cfg: Config, s: State, actions: seq<Action>, id: RequestId)
    requires AllSound(s) && Enabled(s, Lookup(id, true))
    requires var key := RedisKey(cfg, s.procs[id].req);
      && key in s.redis && s.redis[key].Cached?
      && s.redis[key].response.fingerprint != Fingerprint(cfg, s.procs[id].req)
    ensures var s' := RunFrom(cfg, Apply(cfg, s, Lookup(id, true)), actions);
      id in s'.procs && s'.procs[id].pc == Finished(Conflict) && s'.procs[id].entered == 0
  {
    assert Sound(s.procs[id]);
    FinishedStays(cfg, Apply(cfg, s, Lookup(id, true)), actions, id);
    hide RedisKey, Fingerprint, Replay, RunFrom;
  }

  predicate Touches(cfg: Config, s: State, a: Action, key: string) {
    Drops(a, key) || (a.Save? && a.id in s.procs && Keyed(s.procs[a.id].req) && RedisKey(cfg, s.procs[a.id].req) == key)
  }

  /** The request is still on its way to `entry`, or has been answered from it. */
  ghost predicate WillReplay(cfg: Config, s: State, key: string, entry: CachedResponse, id: RequestId, req: Request) {
    && key in s.redis && s.redis[key] == Cached(entry)
    && (id in s.procs ==> s.procs[id].req == req && s.procs[id].pc in {Looking, Finished(Replayed(Replay(entry)))})
  }

  lemma {:induction false} ApplyWillReplay(cfg: Config, s: State, a: Action, key: string, entry: CachedResponse,
                                           id: RequestId, req: Request)
    requires WillReplay(cfg, s, key, entry, id, req) && !Touches(cfg, s, a, key)
    requires a != Lookup(id, false) && (a.Arrive? && a.id == id ==> a.req == req)
    requires Keyed(req) && RedisKey(cfg, req) == key && Fingerprint(cfg, req) == entry.fingerprint
    ensures WillReplay(cfg, Apply(cfg, s, a), key, entry, id, req)
  {
    hide RedisKey, Fingerprint, Stored, Replay;
  }

  /**
   No action of the run writes the key, and request `id`, if it arrives, is `req` and its lookup does
   not fail.
   */
  ghost predicate Undisturbed(cfg: Config, s: State, actions: seq<Action>, key: string, id: RequestId, req: Request) {
    actions == [] ||
    var before, a := actions[..|actions| - 1], actions[|actions| - 1];
    && Undisturbed(cfg, s, before, key, id, req)
    && !Touches(cfg, RunFrom(cfg, s, before), a, key)
    && a != Lookup(id, false) && (a.Arrive? && a.id == id ==> a.req == req)
  }

  /** As long as nothing overwrites the entry, every later request for the same operation gets that very replay. */
  lemma {:induction false} RetryIsReplayed(cfg: Config, s: State, actions: seq<Action>, key: string,
                                           entry: CachedResponse, id: RequestId, req: Request)
    requires key in s.redis && s.redis[key] == Cached(entry) && id !in s.procs
    requires Keyed(req) && RedisKey(cfg, req) == key && Fingerprint(cfg, req) == entry.fingerprint
    requires Undisturbed(cfg, s, actions, key, id, req)
    ensures WillReplay(cfg, RunFrom(cfg, s, actions), key, entry, id, req)
  {
    if actions == [] {
    } else {
      hide WillReplay, Apply, Touches, RedisKey, Fingerprint, Keyed;
      var n := |actions| - 1;
      RetryIsReplayed(cfg, s, actions[..n], key, entry, id, req);
      ApplyWillReplay(cfg, RunFrom(cfg, s, actions[..n]), actions[n], key, entry, id, req);
    }
  }

  // ----- not at most once -----

  lemma {:induction false} RunSnoc(cfg: Config, actions: seq<Action>, a: Action)
    ensures Run(cfg, actions + [a]) == Apply(cfg, Run(cfg, actions), a)
  {
    assert (actions + [a])[..|actions|] == actions;
  }

  function Both(req: Request, pc: Pc, other: Pc): State {
    State(map[], map[
      1 := Proc(req, pc, if pc.Running? then 1 else 0, None),
      2 := Proc(req, other, if other.Running? then 1 else 0, None)])
  }

  lemma {:induction false} BothStep(cfg: Config, s: State, actions: seq<Action>, a: Action)
    requires Run(cfg, actions) == s
    ensures Run(cfg, actions + [a]) == Apply(cfg, s, a)
  {
    RunSnoc(cfg, actions, a);
  }

  lemma {:induction false} FirstFour(cfg: Config, req: Request)
    requires Keyed(req)
    ensures Run(cfg, [Arrive(1, req), Arrive(2, req)]) == Both(req, Looking, Looking)
    ensures Apply(cfg, Both(req, Looking, Looking), Lookup(1, true)) == Both(req, Calling, Looking)
    ensures Apply(cfg, Both(req, Calling, Looking), Lookup(2, true)) == Both(req, Calling, Calling)
  {
    RunSnoc(cfg, [], Arrive(1, req));
    RunSnoc(cfg, [Arrive(1, req)], Arrive(2, req));
    assert [Arrive(1, req)] + [Arrive(2, req)] == [Arrive(1, req), Arrive(2, req)];
    assert [] + [Arrive(1, req)] == [Arrive(1, req)];
    hide RedisKey;
  }

  /** Two concurrent requests for one operation can both run the handler: lookup and save are not atomic. */
  lemma {:induction false} HandlerCanRunTwice(cfg: Config, req: Request) returns (actions: seq<Action>)
    requires Keyed(req)
    ensures var s := Run(cfg, actions);
      && 1 in s.procs && 2 in s.procs && s.procs[1].req == s.procs[2].req == req
      && s.procs[1].entered == 1 && s.procs[2].entered == 1
  {
    FirstFour(cfg, req);
    assert Apply(cfg, Both(req, Calling, Calling), Enter(1)) == Both(req, Running, Calling);
    assert Apply(cfg, Both(req, Running, Calling), Enter(2)) == Both(req, Running, Running);
    hide Apply, Run;
    actions := [Arrive(1, req), Arrive(2, req)];
    BothStep(cfg, Both(req, Looking, Looking), actions, Lookup(1, true));
    actions := actions + [Lookup(1, true)];
    BothStep(cfg, Both(req, Calling, Looking), actions, Lookup(2, true));
    actions := actions + [Lookup(2, true)];
    BothStep(cfg, Both(req, Calling, Calling), actions, Enter(1));
    actions := actions + [Enter(1)];
    BothStep(cfg, Both(req, Running, Calling), actions, Enter(2));
    actions := actions + [Enter(2)];
  }
}
