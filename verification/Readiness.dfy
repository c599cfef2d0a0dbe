/** The process-wide readiness state, and how readiness phases interleave with startup, drain and
    shutdown. */
module Readiness {
  import opened Wrappers

  datatype State = Initializing | Ready | Draining | ShutdownComplete

  // What a caller asks for: one of the known states or some other text.
  datatype Target = Known(state: State) | Unknown(text: string)

  // ----- One transition -----

  // The state after asking for `to`; a refused request leaves it as it is.
  function After(previous: State, to: State): State {
    if (previous.Draining? || previous.ShutdownComplete?) && to.Ready? then previous
    else if previous.ShutdownComplete? then previous
    else to
  }

  predicate Accepted(previous: State, to: State) {
    !((previous.Draining? || previous.ShutdownComplete?) && to.Ready?)
    && !(previous.ShutdownComplete? && to != ShutdownComplete)
  }

  class ReadinessState<Outcome> {
    var state: State
    var startupOutcomes: seq<Outcome>
    var readinessOutcomes: seq<Outcome>

    constructor ()
      ensures state == Initializing && startupOutcomes == [] && readinessOutcomes == []
    {
      state := Initializing;
      startupOutcomes, readinessOutcomes := [], [];
    }

    // Outcomes are filed by the requested state, not by the phase that produced them.
    method Transition(to: Target, outcomes: Option<seq<Outcome>>) returns (raised: bool)
      modifies this
      ensures raised <==> to.Unknown?
      ensures state == if to.Known? then After(old(state), to.state) else old(state)
      ensures to.Known? ==>
                var refused := || (old(state) in {Draining, ShutdownComplete} && to.state == Ready)
                               || old(state) == ShutdownComplete;
                state == if refused then old(state) else to.state
      ensures var filed := to.Known? && Accepted(old(state), to.state) && outcomes.Some?;
              && readinessOutcomes == (if filed && to.state.Ready? then outcomes.value else old(readinessOutcomes))
              && startupOutcomes == (if filed && !to.state.Ready? then outcomes.value else old(startupOutcomes))
    {
      if to.Unknown? {
        return true;
      }
      raised := false;
      var previous := state;
      if (previous == Draining || previous == ShutdownComplete) && to.state == Ready {
        return;
      }
      if previous == ShutdownComplete && (to.state == Initializing || to.state == Ready || to.state == Draining) {
        return;
      }
      state := to.state;
      if outcomes.Some? {
        if to.state == Ready {
          readinessOutcomes := outcomes.value;
        } else {
          startupOutcomes := outcomes.value;
        }
      }
    }

    // The end of a readiness phase run without interruption writes the state back unchanged; its
    // outcomes replace the startup outcomes unless the process is ready.
    method PublishReadinessOutcomes(outcomes: seq<Outcome>)
      modifies this
      ensures state == old(state)
      ensures old(state).Ready? ==> readinessOutcomes == outcomes && startupOutcomes == old(startupOutcomes)
      ensures !old(state).Ready? ==> startupOutcomes == outcomes && readinessOutcomes == old(readinessOutcomes)
    {
      var current := state;
      var _ := Transition(Known(current), Some(outcomes));
    }
  }

  // ----- Interleavings -----

  type Caller = nat

  // The shared state, and the state each readiness phase in progress has read but not yet written
  // back.
  datatype Machine = Machine(state: State, pending: map<Caller, State>)

  datatype Action =
    | PublishReady            // the end of the startup phase
    | Drain
    | Complete
    | BeginWrite(c: Caller)   // a readiness phase reads the state it is about to write back
    | FinishWrite(c: Caller)

  function Step(m: Machine, a: Action): Machine {
    match a
    case PublishReady => m.(state := After(m.state, Ready))
    case Drain => m.(state := After(m.state, Draining))
    case Complete => m.(state := After(m.state, ShutdownComplete))
    case BeginWrite(c) => if c in m.pending then m else m.(pending := m.pending[c := m.state])
    case FinishWrite(c) =>
      if c in m.pending then Machine(After(m.state, m.pending[c]), m.pending - {c}) else m
  }

  function Run(m: Machine, schedule: seq<Action>): Machine
    decreases |schedule|
  {
    if schedule == [] then m else Run(Step(m, schedule[0]), schedule[1..])
  }

  predicate Left(s: State) {
    s.Draining? || s.ShutdownComplete?
  }

  // Some readiness phase in progress has read `s`.
  predicate Holds(m: Machine, s: State) {
    exists c | c in m.pending :: m.pending[c] == s
  }

  // No INITIALIZING is left to be written back.
  predicate Settled(m: Machine) {
    m.state != Initializing && !Holds(m, Initializing)
  }

  lemma StepKeepsSettled(m: Machine, a: Action)
    requires Settled(m)
    ensures Settled(Step(m, a))
    ensures Left(m.state) ==> Left(Step(m, a).state)
  {
  }

  lemma {:induction false} RunKeepsSettled(m: Machine, schedule: seq<Action>)
    requires Settled(m)
    ensures Settled(Run(m, schedule))
    ensures Left(m.state) ==> Left(Run(m, schedule).state)
    decreases |schedule|
  {
    if schedule != [] {
      StepKeepsSettled(m, schedule[0]);
      RunKeepsSettled(Step(m, schedule[0]), schedule[1..]);
    }
  }

  lemma {:induction false} RunConcat(m: Machine, first: seq<Action>, second: seq<Action>)
    ensures Run(m, first + second) == Run(Run(m, first), second)
    decreases |first|
  {
    if first == [] {
      assert first + second == second;
    } else {
      assert (first + second)[1..] == first[1..] + second;
      RunConcat(Step(m, first[0]), first[1..], second);
    }
  }

  // Main result: once READY is published and no caller holds a stale INITIALIZING read, no
  // schedule returns to READY after leaving it.
  lemma ReadyIsNotRegained(m: Machine, first: seq<Action>, second: seq<Action>)
    requires m.state.Ready? && !Holds(m, Initializing)
    ensures !Run(m, first).state.Ready? ==> !Run(m, first + second).state.Ready?
  {
    RunKeepsSettled(m, first);
    RunKeepsSettled(Run(m, first), second);
    RunConcat(m, first, second);
  }

  // Main result: once shutdown is complete no schedule leaves it, whatever the callers hold.
  lemma {:induction false} ShutdownAbsorbs(m: Machine, schedule: seq<Action>)
    requires m.state.ShutdownComplete?
    ensures Run(m, schedule).state.ShutdownComplete?
    decreases |schedule|
  {
    if schedule != [] {
      ShutdownAbsorbs(Step(m, schedule[0]), schedule[1..]);
    }
  }

  predicate Leaves(a: Action) {
    a.Drain? || a.Complete?
  }

  // Main result: drain and shutdown take effect.  From a settled machine every schedule with one of
  // them ends in DRAINING or SHUTDOWN_COMPLETE, and a completed shutdown in the latter.
  lemma {:induction false} DrainTakesEffect(m: Machine, schedule: seq<Action>, k: nat)
    requires Settled(m) && k < |schedule| && Leaves(schedule[k])
    ensures Left(Run(m, schedule).state)
    ensures schedule[k].Complete? ==> Run(m, schedule).state == ShutdownComplete
    decreases |schedule|
  {
    var next := Step(m, schedule[0]);
    StepKeepsSettled(m, schedule[0]);
    if k == 0 {
      assert next.state == if m.state == ShutdownComplete || schedule[0].Complete? then ShutdownComplete else Draining;
      RunKeepsSettled(next, schedule[1..]);
      if next.state == ShutdownComplete {
        ShutdownAbsorbs(next, schedule[1..]);
      }
    } else {
      DrainTakesEffect(next, schedule[1..], k - 1);
    }
  }

  // A READY machine whose callers hold no other state stays READY until
  // someone drains or shuts down.
  lemma {:induction false} ReadyPersists(m: Machine, schedule: seq<Action>)
    requires m.state == Ready && !Holds(m, Initializing) && !Holds(m, Draining) && !Holds(m, ShutdownComplete)
    requires forall a | a in schedule :: !Leaves(a)
    ensures Run(m, schedule).state == Ready
    decreases |schedule|
  {
    if schedule != [] {
      assert schedule[0] in schedule;
      assert forall a | a in schedule[1..] :: a in schedule;
      ReadyPersists(Step(m, schedule[0]), schedule[1..]);
    }
  }

  lemma PublishMakesReady(m: Machine)
    ensures Step(m, PublishReady).state == if Left(m.state) then m.state else Ready
  {
  }

  predicate EndsReady(m: Machine, schedule: seq<Action>) {
    Run(m, schedule).state.Ready?
  }

  // Main result: a draining process can be made READY again exactly when a stale INITIALIZING read
  // is waiting to be written back.
  lemma DrainingReturnsExactlyWhenStale(m: Machine)
    requires m.state.Draining?
    ensures (exists schedule :: EndsReady(m, schedule)) <==> Holds(m, Initializing)
  {
    if Holds(m, Initializing) {
      var c :| c in m.pending && m.pending[c] == Initializing;
      var stale := Step(m, FinishWrite(c));
      var schedule := [FinishWrite(c), PublishReady];
      assert schedule[1..] == [PublishReady] && schedule[1..][1..] == [];
      assert stale.state == Initializing && Step(stale, PublishReady).state == Ready;
      assert Run(stale, schedule[1..]) == Run(Step(stale, PublishReady), []);
      assert Run(m, schedule) == Run(stale, schedule[1..]);
      assert EndsReady(m, schedule);
    } else {
      forall schedule
        ensures !EndsReady(m, schedule)
      {
        RunKeepsSettled(m, schedule);
      }
    }
  }

  predicate StartupOver(schedule: seq<Action>) {
    forall a | a in schedule :: a != PublishReady
  }

  // READY can be written back only by a caller that read it, and nobody can read it any more.
  lemma {:induction false} WithoutReadyReads(m: Machine, schedule: seq<Action>)
    requires !m.state.Ready? && !Holds(m, Ready) && StartupOver(schedule)
    ensures !Run(m, schedule).state.Ready?
    decreases |schedule|
  {
    if schedule != [] {
      var next := Step(m, schedule[0]);
      assert forall a | a in schedule[1..] :: a in schedule;
      assert schedule[0] in schedule && StartupOver(schedule[1..]);
      assert !next.state.Ready? && !Holds(next, Ready);
      WithoutReadyReads(next, schedule[1..]);
    }
  }

  // Even when the startup phase is over, two callers suffice: one holding INITIALIZING and one
  // holding READY.  Again this is the exact condition.
  lemma DrainingReturnsWithoutStartup(m: Machine)
    requires m.state.Draining?
    ensures (exists schedule :: StartupOver(schedule) && EndsReady(m, schedule)) <==>
            Holds(m, Initializing) && Holds(m, Ready)
  {
    if Holds(m, Initializing) && Holds(m, Ready) {
      var a :| a in m.pending && m.pending[a] == Initializing;
      var b :| b in m.pending && m.pending[b] == Ready;
      var stale := Step(m, FinishWrite(a));
      var schedule := [FinishWrite(a), FinishWrite(b)];
      assert schedule[1..] == [FinishWrite(b)] && schedule[1..][1..] == [];
      assert Run(stale, schedule[1..]) == Run(Step(stale, FinishWrite(b)), []);
      assert StartupOver(schedule) && EndsReady(m, schedule);
    } else {
      forall schedule | StartupOver(schedule)
        ensures !EndsReady(m, schedule)
      {
        if Holds(m, Initializing) {
          WithoutReadyReads(m, schedule);
        } else {
          RunKeepsSettled(m, schedule);
        }
      }
    }
  }
}
