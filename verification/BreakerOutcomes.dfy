/**
 What a closure returned is what the breaker records: along every run, and for a probe that
 has the half-open breaker to itself.
 */
module BreakerOutcomes {
  import opened Prelude
  import opened Breaker
  import opened BreakerProtocol

  // ----- from the closure to the record -----

  /** With this action the closure of call `id` returns. */
  predicate Returns(s: State, a: Action, id: CallId, ok: bool) {
    a == Finish(id, ok) && id in s.calls && s.calls[id].Running?
  }

  ghost predicate HasReturned(cfg: Config, actions: seq<Action>, id: CallId, ok: bool) {
    exists i :: 0 <= i < |actions| && Returns(Run(cfg, actions[..i]), actions[i], id, ok)
  }

  /** The outcome that a call carries from its closure to its record. */
  function Carried(s: State, id: CallId): Option<bool> {
    if id !in s.calls then None
    else match s.calls[id]
      case Releasing(ok) => Some(ok)
      case Stamping(ok) => Some(ok)
      case Recording(ok, _) => Some(ok)
      case Done(ok) => Some(ok)
      case _ => None
  }

  lemma {:induction false} CarriedStep(cfg: Config, s: State, a: Action, id: CallId, ok: bool)
    ensures Carried(Apply(cfg, s, a), id) == Some(ok) <==> Carried(s, id) == Some(ok) || Returns(s, a, id, ok)
  {
    hide Record, Elapsed;
  }

  lemma {:induction false} ReturnedSnoc(cfg: Config, actions: seq<Action>, a: Action, id: CallId, ok: bool)
    ensures HasReturned(cfg, actions + [a], id, ok) <==>
      HasReturned(cfg, actions, id, ok) || Returns(Run(cfg, actions), a, id, ok)
  {
    var all := actions + [a];
    hide Run, Returns;
    assert all[..|actions|] == actions && all[|actions|] == a;
    assert forall i | 0 <= i < |actions| :: all[..i] == actions[..i] && all[i] == actions[i];
  }

  /** In every run a call frees its slot, reads the clock, records and ends with what its closure returned. */
  lemma {:induction false} OutcomeIsReturned(cfg: Config, actions: seq<Action>, id: CallId, ok: bool)
    ensures Carried(Run(cfg, actions), id) == Some(ok) <==> HasReturned(cfg, actions, id, ok)
  {
    if actions == [] {
    } else {
      var n := |actions| - 1;
      OutcomeIsReturned(cfg, actions[..n], id, ok);
      assert actions == actions[..n] + [actions[n]];
      RunSnoc(cfg, INIT, actions[..n], actions[n]);
      ReturnedSnoc(cfg, actions[..n], actions[n], id, ok);
      CarriedStep(cfg, Run(cfg, actions[..n]), actions[n], id, ok);
      hide Carried, HasReturned, Returns, Apply;
    }
  }

  /** Whichever call records first in a half-open breaker, it closes exactly if that call's closure succeeded. */
  lemma {:induction false} ClosureDecides(cfg: Config, actions: seq<Action>, id: CallId)
    requires var s := Run(cfg, actions);
      id in s.calls && s.calls[id].Recording? && s.breaker.phase == HalfOpen
    ensures var s := Run(cfg, actions);
      var b := Apply(cfg, s, Advance(id)).breaker;
      && (b.phase == Closed <==> HasReturned(cfg, actions, id, true))
      && (b.phase == Open <==> HasReturned(cfg, actions, id, false))
      && b.openedAt == (if b.phase == Open then Some(s.calls[id].now) else None)
      && (b.phase == Closed ==> b.events == [])
  {
    OutcomeIsReturned(cfg, actions, id, true);
    OutcomeIsReturned(cfg, actions, id, false);
    hide Run, HasReturned;
  }

  // ----- a probe on its own -----

  function Turns(actions: seq<Action>, id: CallId): nat {
    if actions == [] then 0
    else Turns(actions[..|actions| - 1], id) + if actions[|actions| - 1] == Advance(id) then 1 else 0
  }

  /** The probe's way from its closure to the breaker, one turn at a time; `now` is its clock reading. */
  ghost predicate ProbeAt(s: State, probe: CallId, ok: bool, turns: nat, now: nat) {
    && probe in s.calls && OnlyProbeLeft(s, probe)
    && (turns < 3 ==> s.breaker.phase == HalfOpen)
    && match turns
       case 0 => s.calls[probe] == Releasing(ok)
       case 1 => s.calls[probe] == Stamping(ok)
       case 2 => s.calls[probe] == Recording(ok, now)
       case _ =>
         && s.calls[probe] == Done(ok)
         && if ok then s.breaker.phase == Closed && s.breaker.openedAt == None && s.breaker.events == []
            else s.breaker.phase == Open && s.breaker.openedAt == Some(now)
  }

  lemma {:induction false} ProbeStep(cfg: Config, s: State, a: Action, probe: CallId, ok: bool, turns: nat, now: nat)
    requires ProbeAt(s, probe, ok, turns, now) && !a.Call?
    ensures ProbeAt(Apply(cfg, s, a), probe, ok, if a == Advance(probe) then turns + 1 else turns,
                    if a == Advance(probe) && turns == 1 then s.clock else now)
  {
    hide DropStale, Trips, Elapsed;
    assert (a.Advance? || a.Finish?) && a.id in s.calls && a.id != probe ==> Over(s.calls[a.id]);
  }

  /** The second turn of the call is the one in which it reads the clock. */
  ghost predicate ReadsClock(cfg: Config, s: State, actions: seq<Action>, k: nat, id: CallId, now: nat) {
    && k < |actions| && actions[k] == Advance(id) && Turns(actions[..k], id) == 1
    && now == RunFrom(cfg, s, actions[..k]).clock
  }

  lemma {:induction false} ProbeWay(cfg: Config, s: State, actions: seq<Action>, probe: CallId, ok: bool)
    returns (k: nat, now: nat)
    requires ProbeAt(s, probe, ok, 0, 0) && forall a <- actions :: !a.Call?
    ensures ProbeAt(RunFrom(cfg, s, actions), probe, ok, Turns(actions, probe), now)
    ensures Turns(actions, probe) >= 2 ==> ReadsClock(cfg, s, actions, k, probe, now)
  {
    if actions == [] {
      k, now := 0, 0;
    } else {
      var n := |actions| - 1;
      var before, a := actions[..n], actions[n];
      assert a in actions && forall b <- before :: b in actions;
      k, now := ProbeWay(cfg, s, before, probe, ok);
      var t := RunFrom(cfg, s, before);
      ProbeStep(cfg, t, a, probe, ok, Turns(before, probe), now);
      hide ProbeAt, Apply;
      if a == Advance(probe) && Turns(before, probe) == 1 {
        k, now := n, t.clock;
      } else if Turns(before, probe) >= 2 {
        assert before[..k] == actions[..k];
      }
    }
  }

  /**
   When every other call is over and no new one begins, the probe decides: three turns after its
   closure returned, a success has closed the breaker and emptied its window, and a failure has
   opened it with the time the probe read in its second turn.
   */
  lemma {:induction false} LoneProbeDecides(cfg: Config, s: State, probe: CallId, ok: bool, after: seq<Action>)
    returns (k: nat)
    requires Probing(s, probe) && s.calls[probe] == Running(true) && OnlyProbeLeft(s, probe)
    requires (forall a <- after :: !a.Call?) && Turns(after, probe) >= 3
    ensures var s1 := Apply(cfg, s, Finish(probe, ok));
      var b := RunFrom(cfg, s1, after).breaker;
      && k < |after| && after[k] == Advance(probe) && Turns(after[..k], probe) == 1
      && if ok then b.phase == Closed && b.openedAt == None && b.events == []
         else b.phase == Open && b.openedAt == Some(RunFrom(cfg, s1, after[..k]).clock)
  {
    var s1 := Apply(cfg, s, Finish(probe, ok));
    assert ProbeAt(s1, probe, ok, 0, 0);
    hide Apply, RunFrom, OnlyProbeLeft;
    var now: nat;
    k, now := ProbeWay(cfg, s1, after, probe, ok);
  }
}
