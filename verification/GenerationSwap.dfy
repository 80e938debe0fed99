/**
 Replacing the running application graph: requests and workers of the old
 generation are drained, the candidate inherits the admission counters, and
 either it is installed or the old graph is resumed. The steps are those that
 happen atomically under the runtime's locks.
 */
module GenerationSwap {
  import opened Common

  /** A running generation of some graph. */
  datatype Generation = Generation(graph: nat, requests: nat, workers: bool, canceled: bool)

  /** A prepared activation: its graph, the values it stands for, the generation it was prepared against, and whether it was closed. */
  datatype Prepared = Prepared(graph: nat, values: nat, previous: nat, used: bool, discarded: bool)

  datatype Stage = Draining | Joining | Joined | Inherited

  datatype Activation = Activation(candidate: nat, stage: Stage)

  /** `limiters` holds each graph's admission history, `recorded` everything ever admitted. */
  datatype State = State(generations: seq<Generation>, current: nat, transitioning: bool, closed: bool, values: nat,
                         prepared: seq<Prepared>, activation: Option<Activation>, limiters: seq<seq<nat>>, recorded: seq<nat>)

  datatype Step =
    | Arrive                          // a request is admitted to the current generation
    | Charge(generation: nat, hit: nat) // a running request or worker is counted
    | Leave(generation: nat)
    | WorkersExit(generation: nat)
    | Prepare(newValues: nat)
    | Discard(candidate: nat)         // the prepared activation is closed
    | Skip(candidate: nat)            // its values are already in force
    | Begin(candidate: nat)
    | Abandon                         // canceled while requests drain
    | Cancel                          // drained, or out of patience
    | Join                            // the last request and worker are gone
    | Inherit
    | Fail                            // a check, the handoff or the pool refuses
    | Install
    | Stop

  function Current(s: State): Generation
    requires s.current < |s.generations|
  {
    s.generations[s.current]
  }

  predicate WellFormed(s: State) {
    && s.current < |s.generations|
    && (forall g | 0 <= g < |s.generations| :: s.generations[g].graph < |s.limiters|)
    && (forall p | 0 <= p < |s.prepared| :: s.prepared[p].graph < |s.limiters|)
    && (s.activation.Some? ==> s.activation.value.candidate < |s.prepared|)
  }

  predicate InStage(s: State, stage: Stage) {
    s.activation.Some? && s.activation.value.stage == stage
  }

  predicate Fresh(p: Prepared) {
    !p.used && !p.discarded
  }

  predicate Drained(g: Generation) {
    g.requests == 0 && !g.workers
  }

  predicate Enabled(s: State, step: Step)
    requires WellFormed(s)
  {
    match step
    case Arrive => !s.closed && !s.transitioning
    case Charge(g, _) => g < |s.generations| && !Drained(s.generations[g])
    case Leave(g) => g < |s.generations| && s.generations[g].requests > 0
    case WorkersExit(g) => g < |s.generations| && s.generations[g].workers && s.generations[g].canceled
    case Prepare(v) => s.activation.None? && !s.closed && v != s.values
    case Discard(p) => p < |s.prepared| && !(s.activation.Some? && s.activation.value.candidate == p)
    case Skip(p) => s.activation.None? && p < |s.prepared| && Fresh(s.prepared[p]) && !s.closed && s.prepared[p].values == s.values
    case Begin(p) =>
      s.activation.None? && p < |s.prepared| && Fresh(s.prepared[p]) && !s.closed &&
      s.prepared[p].values != s.values && s.prepared[p].previous == s.current
    case Abandon => InStage(s, Draining)
    case Cancel => InStage(s, Draining)
    case Join => InStage(s, Joining) && Drained(Current(s))
    case Inherit => InStage(s, Joined) && s.limiters[s.prepared[s.activation.value.candidate].graph] == []
    case Fail => InStage(s, Joined) || InStage(s, Inherited)
    case Install => InStage(s, Inherited)
    case Stop => s.activation.None?
  }

  function Update(s: State, g: nat, generation: Generation): State
    requires g < |s.generations|
  {
    s.(generations := s.generations[g := generation])
  }

  /** A fresh generation of a graph takes over and admission reopens. */
  function Serve(s: State, graph: nat): State {
    s.(generations := s.generations + [Generation(graph, 0, true, false)], current := |s.generations|, transitioning := false, activation := None)
  }

  function Do(s: State, step: Step): State
    requires WellFormed(s) && Enabled(s, step)
  {
    match step
    case Arrive => Update(s, s.current, Current(s).(requests := Current(s).requests + 1))
    case Charge(g, hit) =>
      var graph := s.generations[g].graph;
      s.(limiters := s.limiters[graph := s.limiters[graph] + [hit]], recorded := s.recorded + [hit])
    case Leave(g) => Update(s, g, s.generations[g].(requests := s.generations[g].requests - 1))
    case WorkersExit(g) => Update(s, g, s.generations[g].(workers := false))
    case Prepare(v) =>
      s.(prepared := s.prepared + [Prepared(|s.limiters|, v, s.current, false, false)], limiters := s.limiters + [[]])
    case Discard(p) => s.(prepared := s.prepared[p := s.prepared[p].(discarded := true)])
    case Skip(p) => s.(prepared := s.prepared[p := s.prepared[p].(used := true)])
    case Begin(p) => s.(transitioning := true, activation := Some(Activation(p, Draining)))
    case Abandon => s.(transitioning := false, activation := None)
    case Cancel => Update(s, s.current, Current(s).(canceled := true)).(activation := Some(s.activation.value.(stage := Joining)))
    case Join => s.(activation := Some(s.activation.value.(stage := Joined)))
    case Inherit =>
      var candidate := s.prepared[s.activation.value.candidate].graph;
      s.(limiters := s.limiters[candidate := s.limiters[Current(s).graph]], activation := Some(s.activation.value.(stage := Inherited)))
    case Fail => Serve(s, Current(s).graph)
    case Install =>
      var p := s.activation.value.candidate;
      Serve(s, s.prepared[p].graph).(values := s.prepared[p].values, prepared := s.prepared[p := s.prepared[p].(used := true)])
    case Stop => Update(s, s.current, Current(s).(canceled := true)).(closed := true)
  }

  predicate Init(s: State) {
    s == State([Generation(0, 0, true, false)], 0, false, false, s.values, [], None, [[]], [])
  }

  // ---- What every step keeps --------------------------------------------------------------------------

  /** Nothing but the current generation has requests or workers. */
  ghost predicate OnlyCurrentIsActive(s: State) {
    forall g | 0 <= g < |s.generations| :: g == s.current || Drained(s.generations[g])
  }

  /** A graph that was never installed belongs to one candidate alone. */
  ghost predicate GraphsAreOwn(s: State)
    requires WellFormed(s)
  {
    && (forall p, q | 0 <= p < q < |s.prepared| :: s.prepared[p].graph != s.prepared[q].graph)
    && (forall p | 0 <= p < |s.prepared| && !s.prepared[p].used :: s.prepared[p].graph != Current(s).graph)
    && (forall p | 0 <= p < |s.prepared| :: s.prepared[p].previous < |s.generations|)
  }

  ghost predicate ActivationOk(s: State)
    requires WellFormed(s)
  {
    && (s.activation.None? ==> !s.transitioning)
    && (s.activation.Some? ==>
          && s.transitioning && !s.closed
          && Fresh(s.prepared[s.activation.value.candidate]) && s.prepared[s.activation.value.candidate].previous == s.current)
    && (InStage(s, Joined) || InStage(s, Inherited) ==> Drained(Current(s)))
  }

  /** Whatever serves carries every counter recorded; so does a candidate that has inherited. */
  ghost predicate CountersCarried(s: State)
    requires WellFormed(s)
  {
    && s.limiters[Current(s).graph] == s.recorded
    && (InStage(s, Inherited) ==> s.limiters[s.prepared[s.activation.value.candidate].graph] == s.recorded)
  }

  ghost predicate Inv(s: State) {
    WellFormed(s) && OnlyCurrentIsActive(s) && GraphsAreOwn(s) && ActivationOk(s) && CountersCarried(s)
  }

  /** Steps of requests and workers, which need nobody's permission. */
  predicate Ambient(step: Step) {
    step.Arrive? || step.Charge? || step.Leave? || step.WorkersExit?
  }

  predicate Replacing(step: Step) {
    step.Inherit? || step.Fail? || step.Install?
  }

  lemma AmbientKeepsInv(s: State, step: Step)
    requires Inv(s) && Enabled(s, step) && Ambient(step)
    ensures Inv(Do(s, step))
  {}

  lemma ReplacingKeepsInv(s: State, step: Step)
    requires Inv(s) && Enabled(s, step) && Replacing(step)
    ensures Inv(Do(s, step))
  {}

  /** Steps on a candidate that is not being activated. */
  predicate Preparing(step: Step) {
    step.Prepare? || step.Discard? || step.Skip?
  }

  lemma PreparingKeepsInv(s: State, step: Step)
    requires Inv(s) && Enabled(s, step) && Preparing(step)
    ensures Inv(Do(s, step))
  {}

  lemma StepKeepsInv(s: State, step: Step)
    requires Inv(s) && Enabled(s, step)
    ensures Inv(Do(s, step))
  {
    if Ambient(step) {
      AmbientKeepsInv(s, step);
    } else if Replacing(step) {
      ReplacingKeepsInv(s, step);
    } else if Preparing(step) {
      PreparingKeepsInv(s, step);
    }
  }

  ghost predicate Run(s: State, steps: seq<Step>, s': State)
    decreases |steps|
  {
    if steps == [] then s == s' else WellFormed(s) && Enabled(s, steps[0]) && Run(Do(s, steps[0]), steps[1..], s')
  }

  lemma {:induction false} RunKeepsInv(s: State, steps: seq<Step>, s': State)
    requires Inv(s) && Run(s, steps, s')
    ensures Inv(s')
    decreases |steps|
  {
    if steps != [] {
      StepKeepsInv(s, steps[0]);
      RunKeepsInv(Do(s, steps[0]), steps[1..], s');
    }
  }

  // ---- Whole runs -----------------------------------------------------------------------------------------

  /** In every run at most one generation has requests or workers. */
  lemma AtMostOneIsActive(s: State, steps: seq<Step>, s': State, g: nat, h: nat)
    requires Init(s) && Run(s, steps, s') && g < |s'.generations| && h < |s'.generations|
    requires !Drained(s'.generations[g]) && !Drained(s'.generations[h])
    ensures g == h
  {
    RunKeepsInv(s, steps, s');
  }

  /** A new graph is installed only over a fully drained generation, and serves with every counter recorded so far. */
  lemma InstallReplacesDrained(s: State, steps: seq<Step>, s': State)
    requires Init(s) && Run(s, steps, s') && WellFormed(s') && Enabled(s', Install)
    ensures forall g | 0 <= g < |s'.generations| :: Drained(s'.generations[g])
    ensures var after := Do(s', Install);
            && Enabled(after, Arrive)
            && after.values == s'.prepared[s'.activation.value.candidate].values
            && after.limiters[Current(after).graph] == s'.recorded
  {
    RunKeepsInv(s, steps, s');
  }

  /** Every failure after the drain resumes the old graph: admission is open again and nothing is lost. */
  lemma FailureResumes(s: State, steps: seq<Step>, s': State)
    requires Init(s) && Run(s, steps, s') && WellFormed(s') && Enabled(s', Fail)
    ensures var after := Do(s', Fail);
            && Enabled(after, Arrive) && Current(after).workers
            && Current(after).graph == Current(s').graph && after.values == s'.values
            && after.limiters[Current(after).graph] == s'.recorded == after.recorded
  {
    RunKeepsInv(s, steps, s');
  }

  /** Whichever graph serves, now or later, its limiter holds every hit ever counted. */
  lemma CountersAreNeverLost(s: State, steps: seq<Step>, s': State)
    requires Init(s) && Run(s, steps, s')
    ensures WellFormed(s') && s'.limiters[Current(s').graph] == s'.recorded
  {
    RunKeepsInv(s, steps, s');
  }

  ghost predicate Superseded(s: State, p: nat) {
    p < |s.prepared| && s.prepared[p].previous < s.current && s.current < |s.generations| && !(s.activation.Some? && s.activation.value.candidate == p)
  }

  /** A candidate whose predecessor was replaced or resumed is never activated again, so a stale copy of the counters never serves. */
  lemma {:induction false} SupersededStaysOut(s: State, steps: seq<Step>, s': State, p: nat)
    requires Inv(s) && Run(s, steps, s') && Superseded(s, p)
    ensures Superseded(s', p) && (WellFormed(s') ==> !Enabled(s', Begin(p)))
    decreases |steps|
  {
    if steps != [] {
      StepKeepsInv(s, steps[0]);
      SupersededStaysOut(Do(s, steps[0]), steps[1..], s', p);
    }
  }

  /** A prepared activation that was closed is never begun either, and stays as used or unused as it was. */
  lemma {:induction false} DiscardedStaysOut(s: State, steps: seq<Step>, s': State, p: nat)
    requires Inv(s) && Run(s, steps, s') && p < |s.prepared| && s.prepared[p].discarded
    ensures p < |s'.prepared| && s'.prepared[p] == s.prepared[p] && (WellFormed(s') ==> !Enabled(s', Begin(p)))
    decreases |steps|
  {
    if steps != [] {
      StepKeepsInv(s, steps[0]);
      DiscardedStaysOut(Do(s, steps[0]), steps[1..], s', p);
    }
  }

  lemma FailureSupersedes(s: State)
    requires Inv(s) && Enabled(s, Fail)
    ensures Superseded(Do(s, Fail), s.activation.value.candidate)
  {}
}
