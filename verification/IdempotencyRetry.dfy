/**
 From the handler's response to the retry that gets it back: what a save writes, what the
 client is served, and what a later request for the same operation receives.
 */
module IdempotencyRetry {
  import opened Prelude
  import opened Idempotency
  import opened IdempotencyProtocol

  /** What happens to a request on arrival: only writes with a key are looked up, and an unreadable body ends them. */
  lemma {:induction false} ArrivalIs(cfg: Config, s: State, id: RequestId, req: Request)
    requires id !in s.procs
    ensures var write := req.verb == "POST" || req.verb == "PUT" || req.verb == "PATCH" || req.verb == "DELETE";
      Apply(cfg, s, Arrive(id, req)).procs[id].pc ==
        if !write || req.key.None? then Calling else if req.body.None? then Finished(BadGateway) else Looking
  {
    hide RedisKey, Fingerprint;
  }

  /** A failed lookup, or one that finds nothing parsable, lets the request through. */
  lemma {:induction false} LookupIs(cfg: Config, s: State, id: RequestId, ok: bool)
    requires Enabled(s, Lookup(id, ok))
    ensures var key := RedisKey(cfg, s.procs[id].req);
      Apply(cfg, s, Lookup(id, ok)).procs[id].pc == Calling <==> !ok || key !in s.redis || s.redis[key].Garbage?
  {
    hide RedisKey, Fingerprint, Replay;
  }

  // ----- what the handler gave -----

  /** With this action the handler returns `r` for request `id`. */
  predicate Gives(s: State, a: Action, id: RequestId, r: Response, readable: bool) {
    a == Return(id, r, readable) && id in s.procs && s.procs[id].pc.Running?
  }

  ghost predicate HasGiven(cfg: Config, actions: seq<Action>, id: RequestId, r: Response, readable: bool) {
    exists i :: 0 <= i < |actions| && Gives(Run(cfg, actions[..i]), actions[i], id, r, readable)
  }

  /** Where a request stands once its handler has returned `r`. */
  predicate ServedAs(p: Proc, r: Response, readable: bool) {
    && p.returned == Some(r)
    && if !Intercepted(p.req) then p.pc == Finished(Served(r))
       else if readable then p.pc in {Saving, Finished(Served(r))}
       else p.pc == Finished(Served(Response(r.status, r.headers, "")))
  }

  lemma {:induction false} GivenSnoc(cfg: Config, actions: seq<Action>, a: Action, id: RequestId, r: Response,
                                     readable: bool)
    ensures HasGiven(cfg, actions + [a], id, r, readable) <==>
      HasGiven(cfg, actions, id, r, readable) || Gives(Run(cfg, actions), a, id, r, readable)
  {
    var all := actions + [a];
    hide Run, Gives;
    assert all[..|actions|] == actions && all[|actions|] == a;
    assert forall i | 0 <= i < |actions| :: all[..i] == actions[..i] && all[i] == actions[i];
  }

  lemma {:induction false} ServedStep(cfg: Config, s: State, a: Action, id: RequestId, r: Response, readable: bool)
    requires AllSound(s)
    requires Gives(s, a, id, r, readable) || (id in s.procs && ServedAs(s.procs[id], r, readable))
    ensures id in Apply(cfg, s, a).procs && ServedAs(Apply(cfg, s, a).procs[id], r, readable)
  {
    assert id in s.procs && Sound(s.procs[id]);
    hide RedisKey, Fingerprint, Replay, Stored;
  }

  lemma {:induction false} ReturnedStep(cfg: Config, s: State, a: Action, id: RequestId, r: Response)
    requires AllSound(s)
    requires id in Apply(cfg, s, a).procs && Apply(cfg, s, a).procs[id].returned == Some(r)
    ensures Gives(s, a, id, r, true) || Gives(s, a, id, r, false) || (id in s.procs && s.procs[id].returned == Some(r))
  {
    hide RedisKey, Fingerprint, Replay, Stored;
  }

  /**
   In every run what the handler gave is on its way to the client, or was served: with its body if that
   was readable.
   */
  lemma {:induction false} GivenIsServed(cfg: Config, actions: seq<Action>, id: RequestId, r: Response, readable: bool)
    requires HasGiven(cfg, actions, id, r, readable)
    ensures id in Run(cfg, actions).procs && ServedAs(Run(cfg, actions).procs[id], r, readable)
  {
    if actions == [] {
    } else {
      var n := |actions| - 1;
      var s := Run(cfg, actions[..n]);
      assert actions == actions[..n] + [actions[n]];
      GivenSnoc(cfg, actions[..n], actions[n], id, r, readable);
      if HasGiven(cfg, actions[..n], id, r, readable) { GivenIsServed(cfg, actions[..n], id, r, readable); }
      RunIsSound(cfg, actions[..n]);
      ServedStep(cfg, s, actions[n], id, r, readable);
      hide Apply, ServedAs, HasGiven, AllSound;
    }
  }

  /** And whatever is on record as returned was given by the handler. */
  lemma {:induction false} RecordedWasGiven(cfg: Config, actions: seq<Action>, id: RequestId, r: Response)
    requires id in Run(cfg, actions).procs && Run(cfg, actions).procs[id].returned == Some(r)
    ensures HasGiven(cfg, actions, id, r, true) || HasGiven(cfg, actions, id, r, false)
  {
    if actions == [] {
    } else {
      var n := |actions| - 1;
      var s := Run(cfg, actions[..n]);
      assert actions == actions[..n] + [actions[n]];
      GivenSnoc(cfg, actions[..n], actions[n], id, r, true);
      GivenSnoc(cfg, actions[..n], actions[n], id, r, false);
      RunIsSound(cfg, actions[..n]);
      ReturnedStep(cfg, s, actions[n], id, r);
      hide Apply, HasGiven, AllSound, Gives;
      if id in s.procs && s.procs[id].returned == Some(r) { RecordedWasGiven(cfg, actions[..n], id, r); }
    }
  }

  /**
   A client is served exactly what its handler gave: nothing else, and with an empty body only when the
   request is intercepted and the body could not be read.
   */
  lemma {:induction false} ServedIsGiven(cfg: Config, actions: seq<Action>, id: RequestId, served: Response)
    requires id in Run(cfg, actions).procs && Run(cfg, actions).procs[id].pc == Finished(Served(served))
    ensures exists r, readable ::
      && HasGiven(cfg, actions, id, r, readable)
      && served == (if Intercepted(Run(cfg, actions).procs[id].req) && !readable then Response(r.status, r.headers, "")
                    else r)
  {
    RunIsSound(cfg, actions);
    var p := Run(cfg, actions).procs[id];
    assert Sound(p);
    var r := p.returned.value;
    RecordedWasGiven(cfg, actions, id, r);
    hide Run, HasGiven;
    var readable := HasGiven(cfg, actions, id, r, true);
    GivenIsServed(cfg, actions, id, r, readable);
  }

  // ----- what a save writes -----

  /**
   A successful save puts status, text headers and body of what the handler gave under the request's key,
   with the request's fingerprint, and touches no other key; a failed one writes nothing. Either way the
   client is served that response.
   */
  lemma {:induction false} SaveStores(cfg: Config, actions: seq<Action>, id: RequestId, ok: bool) returns (r: Response)
    requires Enabled(Run(cfg, actions), Save(id, ok))
    ensures HasGiven(cfg, actions, id, r, true)
    ensures var s := Run(cfg, actions);
      var s' := Apply(cfg, s, Save(id, ok));
      var req := s.procs[id].req;
      && s'.procs[id].pc == Finished(Served(r))
      && s'.redis == if ok then
           s.redis[RedisKey(cfg, req) :=
             Cached(CachedResponse(r.status, VisibleHeaders(r.headers), r.body, Hex(cfg.digest(Encode(req)))))]
         else s.redis
  {
    var s := Run(cfg, actions);
    r := s.procs[id].returned.value;
    RecordedWasGiven(cfg, actions, id, r);
    if HasGiven(cfg, actions, id, r, false) { GivenIsServed(cfg, actions, id, r, false); }
    RunIsSound(cfg, actions);
    assert Sound(s.procs[id]);
    hide Run, HasGiven, RedisKey, VisibleHeaders, Hex, Encode, AllSound;
  }

  // ----- the retry -----

  lemma {:induction false} ServedStays(cfg: Config, s: State, actions: seq<Action>, id: RequestId, r: Response,
                                       readable: bool)
    requires AllSound(s) && id in s.procs && ServedAs(s.procs[id], r, readable)
    ensures var s' := RunFrom(cfg, s, actions);
      AllSound(s') && id in s'.procs && ServedAs(s'.procs[id], r, readable) && s'.procs[id].req == s.procs[id].req
  {
    SoundFrom(cfg, s, actions);
    RequestStays(cfg, s, actions, id);
    if actions == [] {
    } else {
      var n := |actions| - 1;
      ServedStays(cfg, s, actions[..n], id, r, readable);
      ServedStep(cfg, RunFrom(cfg, s, actions[..n]), actions[n], id, r, readable);
      hide Apply, ServedAs, AllSound;
    }
  }

  /** The states of a request that is answered from its handler, then saved, then left alone. */
  datatype Story = Story(returned: State, saving: State, saved: State, last: State)

  ghost function Told(cfg: Config, before: seq<Action>, id: RequestId, r: Response, mid: seq<Action>,
                      after: seq<Action>): Story
  {
    var returned := Apply(cfg, Run(cfg, before), Return(id, r, true));
    var saving := RunFrom(cfg, returned, mid);
    var saved := Apply(cfg, saving, Save(id, true));
    Story(returned, saving, saved, RunFrom(cfg, saved, after))
  }

  /** A replay of `r`: its status, text headers and body, and the marker header. */
  function ReplayOf(r: Response): Response {
    Response(r.status, VisibleHeaders(r.headers) + [("x-idempotent-replay", "1")], r.body)
  }

  /**
   A keyed request whose handler returns a readable response and whose save succeeds is served that
   very response; and from then on, as long as nobody else writes its key, every new request for the
   same operation under that key is answered with its replay by its lookup, and never runs the handler.
   */
  lemma {:induction false} SavedResponseIsReplayed(cfg: Config, before: seq<Action>, id: RequestId, r: Response,
                                                   mid: seq<Action>, after: seq<Action>, retry: RequestId, req: Request)
    requires Enabled(Run(cfg, before), Return(id, r, true))
    requires var t := Told(cfg, before, id, r, mid, after);
      && Enabled(t.saving, Save(id, true)) && retry !in t.saved.procs
      && var first := Run(cfg, before).procs[id].req;
         && Keyed(first) && Keyed(req) && SameOperation(first, req) && RedisKey(cfg, first) == RedisKey(cfg, req)
         && Undisturbed(cfg, t.saved, after, RedisKey(cfg, req), retry, req)
    ensures var s := Told(cfg, before, id, r, mid, after).last;
      && id in s.procs && s.procs[id].pc == Finished(Served(r))
      && (retry in s.procs ==>
            && s.procs[retry].entered == 0
            && if s.procs[retry].pc.Looking?
               then Apply(cfg, s, Lookup(retry, true)).procs[retry].pc == Finished(Replayed(ReplayOf(r)))
               else s.procs[retry].pc == Finished(Replayed(ReplayOf(r))))
  {
    var t := Told(cfg, before, id, r, mid, after);
    var first := Run(cfg, before).procs[id].req;
    var key, digest := RedisKey(cfg, req), Fingerprint(cfg, req);
    RunIsSound(cfg, before);
    ServedStep(cfg, Run(cfg, before), Return(id, r, true), id, r, true);
    ReturnKeeps(cfg, Run(cfg, before), id, r);
    ServedStays(cfg, t.returned, mid, id, r, true);
    SaveWrites(cfg, t.saving, id, r, first);
    SoundFrom(cfg, t.saved, after);
    FinishedStays(cfg, t.saved, after, id);
    hide Apply, RunFrom, RedisKey, Fingerprint, Undisturbed;
    RetryIsReplayed(cfg, t.saved, after, key, Stored(r, digest), retry, req);
    ReplayOfStored(r, digest);
    hide Stored, Replay;
    LookupReplays(cfg, t.last, key, Stored(r, digest), retry, req);
  }

  lemma {:induction false} ReturnKeeps(cfg: Config, s: State, id: RequestId, r: Response)
    requires AllSound(s) && Enabled(s, Return(id, r, true))
    ensures AllSound(Apply(cfg, s, Return(id, r, true)))
    ensures Apply(cfg, s, Return(id, r, true)).procs[id].req == s.procs[id].req
  {
    MoveIsSound(cfg, s, Return(id, r, true));
    hide Sound;
  }

  lemma {:induction false} SaveWrites(cfg: Config, s: State, id: RequestId, r: Response, req: Request)
    requires AllSound(s) && Enabled(s, Save(id, true)) && ServedAs(s.procs[id], r, true) && s.procs[id].req == req
    ensures var s' := Apply(cfg, s, Save(id, true));
      && AllSound(s') && id in s'.procs && s'.procs[id].pc == Finished(Served(r))
      && RedisKey(cfg, req) in s'.redis && s'.redis[RedisKey(cfg, req)] == Cached(Stored(r, Fingerprint(cfg, req)))
  {
    MoveIsSound(cfg, s, Save(id, true));
    hide Sound, RedisKey, Fingerprint, Stored;
  }

  lemma {:induction false} LookupReplays(cfg: Config, s: State, key: string, entry: CachedResponse, id: RequestId,
                                         req: Request)
    requires WillReplay(cfg, s, key, entry, id, req) && AllSound(s)
    requires Keyed(req) && RedisKey(cfg, req) == key && Fingerprint(cfg, req) == entry.fingerprint
    ensures id in s.procs ==>
      && s.procs[id].entered == 0
      && if s.procs[id].pc.Looking?
         then id in Apply(cfg, s, Lookup(id, true)).procs
           && Apply(cfg, s, Lookup(id, true)).procs[id].pc == Finished(Replayed(Replay(entry)))
         else s.procs[id].pc == Finished(Replayed(Replay(entry)))
  {
    hide RedisKey, Fingerprint, Replay;
  }
}
