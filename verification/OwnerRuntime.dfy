/**
 The runtime that owns the current generation. `Activate` walks a prepared
 graph through the swap while requests and workers keep moving; everything it
 does is a run of the swap protocol.
 */
module OwnerRuntime {
  import opened Common
  import opened GenerationSwap

  datatype Result = AlreadyInForce | Installed | Refused | Abandoned | Resumed | Blocked

  /** How the world behaves around one activation: whether it comes too late, what moves while it waits, and which of its checks pass. */
  datatype World = World(expired: bool, whileDraining: seq<Step>, canceled: bool, whileJoining: seq<Step>, checks: bool, pool: bool)

  lemma {:induction false} RunGrows(s: State, steps: seq<Step>, s': State, step: Step)
    requires Run(s, steps, s') && WellFormed(s') && Enabled(s', step)
    ensures Run(s, steps + [step], Do(s', step))
    decreases |steps|
  {
    if steps == [] {
      assert steps + [step] == [step];
    } else {
      RunGrows(Do(s, steps[0]), steps[1..], s', step);
      assert (steps + [step])[1..] == steps[1..] + [step];
    }
  }

  class Runtime {
    var s: State
    ghost var start: State
    ghost var trace: seq<Step>

    ghost predicate Valid()
      reads this
    {
      Init(start) && Run(start, trace, s) && Inv(s)
    }

    constructor (values: nat)
      ensures Valid() && s.activation.None? && !s.closed && s.values == values
    {
      s := State([Generation(0, 0, true, false)], 0, false, false, values, [], None, [[]], []);
      new;
      start, trace := s, [];
    }

    method Take(step: Step)
      requires Valid() && Enabled(s, step)
      modifies this
      ensures Valid() && s == Do(old(s), step)
    {
      RunGrows(start, trace, s, step);
      StepKeepsInv(s, step);
      s, trace := Do(s, step), trace + [step];
    }

    /** Requests and workers move; steps that cannot happen do not. */
    method Meanwhile(steps: seq<Step>)
      requires Valid()
      modifies this
      ensures Valid() && s.activation == old(s.activation) && s.current == old(s.current) && s.prepared == old(s.prepared)
      ensures s.values == old(s.values) && s.closed == old(s.closed) && Current(s).graph == old(Current(s).graph)
    {
      for i := 0 to |steps|
        invariant Valid() && s.activation == old(s.activation) && s.current == old(s.current) && s.prepared == old(s.prepared)
        invariant s.values == old(s.values) && s.closed == old(s.closed) && Current(s).graph == old(Current(s).graph)
      {
        if Ambient(steps[i]) && Enabled(s, steps[i]) {
          Take(steps[i]);
        }
      }
    }

    /** Admits a request to the current generation unless a swap or shutdown is under way. */
    method Admit() returns (generation: Option<nat>)
      requires Valid()
      modifies this
      ensures Valid() && generation == if old(s.closed) || old(s.transitioning) then None else Some(s.current)
      ensures generation.Some? ==> s == Do(old(s), Arrive)
      ensures generation.None? ==> s == old(s)
    {
      if s.closed || s.transitioning { return None; }
      Take(Arrive);
      return Some(s.current);
    }

    /** The candidate is done already, or may be looked at and changes nothing. */
    predicate Settled(candidate: nat, expired: bool)
      requires candidate < |s.prepared|
      reads this
    {
      s.prepared[candidate].used || (!s.prepared[candidate].discarded && !expired && !s.closed && s.prepared[candidate].values == s.values)
    }

    /** Closed, too late, after shutdown, or prepared against a generation that is gone. */
    predicate Late(candidate: nat, expired: bool)
      requires candidate < |s.prepared|
      reads this
    {
      s.prepared[candidate].discarded || expired || s.closed || s.prepared[candidate].previous != s.current
    }

    /** What the checks before a swap decide: nothing to do, a refusal, or a swap that has begun. */
    method Enter(candidate: nat, expired: bool) returns (result: Option<Result>)
      requires Valid() && s.activation.None? && candidate < |s.prepared|
      modifies this
      ensures Valid()
      ensures result == Some(AlreadyInForce) <==> old(Settled(candidate, expired))
      ensures result == Some(Refused) <==> !old(Settled(candidate, expired)) && old(Late(candidate, expired))
      ensures result == Some(Refused) ==> s == old(s)
      ensures result == Some(AlreadyInForce) ==> s == old(s).(prepared := s.prepared) && candidate < |s.prepared| && s.prepared[candidate].used
      ensures result == Some(AlreadyInForce) || result == Some(Refused) || (result.None? && Enabled(old(s), Begin(candidate)) && s == Do(old(s), Begin(candidate)))
    {
      if s.prepared[candidate].used { return Some(AlreadyInForce); }
      if s.prepared[candidate].discarded { return Some(Refused); }
      if expired { return Some(Refused); }
      if s.closed { return Some(Refused); }
      if s.prepared[candidate].values == s.values {
        Take(Skip(candidate));
        return Some(AlreadyInForce);
      }
      if s.prepared[candidate].previous != s.current { return Some(Refused); }
      Take(Begin(candidate));
      return None;
    }

    /** Closes a prepared activation; it can then neither start nor count as done. */
    method Close(candidate: nat)
      requires Valid() && s.activation.None? && candidate < |s.prepared|
      modifies this
      ensures Valid() && s == Do(old(s), Discard(candidate))
    {
      Take(Discard(candidate));
    }

    method Activate(candidate: nat, world: World) returns (result: Result)
      requires Valid() && s.activation.None? && candidate < |s.prepared|
      modifies this
      ensures Valid()
      ensures result.AlreadyInForce? <==> old(Settled(candidate, world.expired))
      ensures result.Refused? <==> !old(Settled(candidate, world.expired)) && old(Late(candidate, world.expired))
      ensures result.Refused? ==> s == old(s)
      ensures result.Installed? ==>
                candidate < |s.prepared| && s.prepared[candidate].used && s.values == old(s.prepared[candidate].values) &&
                Serves(old(s.prepared[candidate].graph))
      ensures result.Resumed? ==> s.values == old(s.values) && Serves(old(Current(s).graph)) && Superseded(s, candidate)
      ensures result.Abandoned? ==> Serves(old(Current(s).graph)) && s.current == old(s.current) && s.values == old(s.values)
      ensures result.Blocked? ==> s.transitioning && !Drained(Current(s)) && s.current == old(s.current)
    {
      var early := Enter(candidate, world.expired);
      if early.Some? { return early.value; }
      Meanwhile(world.whileDraining);
      if world.canceled {
        Take(Abandon);
        return Abandoned;
      }
      Take(Cancel);
      Meanwhile(world.whileJoining);
      if !Drained(Current(s)) { return Blocked; }
      Take(Join);
      result := Decide(candidate, world);
    }

    /** With the old generation gone: every refusal resumes it, and only success installs the candidate. */
    method Decide(candidate: nat, world: World) returns (result: Result)
      requires Valid() && s.activation == Some(Activation(candidate, Joined)) && candidate < |s.prepared|
      modifies this
      ensures Valid() && (result.Installed? || result.Resumed?)
      ensures result.Installed? ==>
                candidate < |s.prepared| && s.prepared[candidate].used && s.values == old(s.prepared[candidate].values) && Serves(old(s.prepared[candidate].graph))
      ensures result.Resumed? ==> s.values == old(s.values) && Serves(old(Current(s).graph)) && Superseded(s, candidate)
    {
      if world.checks && s.limiters[s.prepared[candidate].graph] == [] {
        Take(Inherit);
        if world.pool {
          Take(Install);
          return Installed;
        }
      }
      FailureSupersedes(s);
      Take(Fail);
      return Resumed;
    }

    /** A graph is in force: admission is open and its limiter holds everything recorded. */
    ghost predicate Serves(graph: nat)
      reads this
    {
      WellFormed(s) && Enabled(s, Arrive) && Current(s).graph == graph && s.limiters[graph] == s.recorded
    }
  }
}
