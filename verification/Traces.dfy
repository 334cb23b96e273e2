/** Recorded runs: the events together with the states between them. */
module Traces {
  import opened Chain
  import opened Protocol

  datatype Trace = Trace(events: seq<Event>, states: seq<State>)

  ghost predicate StepAt(cfg: Config, t: Trace, i: nat) {
    i + 1 < |t.states| && i < |t.events| && t.states[i + 1] == Apply(cfg, t.states[i], t.events[i])
  }

  ghost predicate IsTrace(cfg: Config, t: Trace) {
    && |t.states| == |t.events| + 1
    && t.states[0] == Init(cfg)
    && forall i: nat :: i < |t.events| ==> StepAt(cfg, t, i)
  }

  ghost predicate BackFaithfulAt(cfg: Config, ledger: Ledger, t: Trace, i: nat) {
    i < |t.states| && i < |t.events| && BackFaithful(cfg, ledger, t.states[i], t.events[i])
  }

  ghost predicate LiveFaithfulAt(cfg: Config, ledger: Ledger, t: Trace, i: nat) {
    i < |t.states| && i < |t.events| && LiveFaithful(cfg, ledger, t.states[i], t.events[i])
  }

  ghost predicate BackFaithfulTrace(cfg: Config, ledger: Ledger, t: Trace) {
    forall i: nat :: i < |t.events| ==> BackFaithfulAt(cfg, ledger, t, i)
  }

  ghost predicate LiveFaithfulTrace(cfg: Config, ledger: Ledger, t: Trace) {
    forall i: nat :: i < |t.events| ==> LiveFaithfulAt(cfg, ledger, t, i)
  }

  ghost function Start(cfg: Config): (t: Trace)
    ensures IsTrace(cfg, t)
  {
    Trace([], [Init(cfg)])
  }

  ghost function Last(t: Trace): State
    requires t.states != []
  {
    t.states[|t.states| - 1]
  }

  ghost function Extend(t: Trace, ev: Event, s: State): Trace {
    Trace(t.events + [ev], t.states + [s])
  }

  lemma ExtendIsTrace(cfg: Config, t: Trace, ev: Event)
    requires IsTrace(cfg, t)
    ensures IsTrace(cfg, Extend(t, ev, Apply(cfg, Last(t), ev)))
  {
    var more := Extend(t, ev, Apply(cfg, Last(t), ev));
    forall i: nat | i < |more.events| ensures StepAt(cfg, more, i) {
      assert i < |t.events| ==> StepAt(cfg, t, i);
    }
  }

  lemma ExtendIsFaithful(cfg: Config, ledger: Ledger, t: Trace, ev: Event, s: State)
    requires |t.states| == |t.events| + 1
    ensures BackFaithfulTrace(cfg, ledger, Extend(t, ev, s))
       <==> BackFaithfulTrace(cfg, ledger, t) && BackFaithful(cfg, ledger, Last(t), ev)
    ensures LiveFaithfulTrace(cfg, ledger, Extend(t, ev, s))
       <==> LiveFaithfulTrace(cfg, ledger, t) && LiveFaithful(cfg, ledger, Last(t), ev)
  {
    var more := Extend(t, ev, s);
    var n: nat := |t.events|;
    assert BackFaithfulAt(cfg, ledger, more, n) <==> BackFaithful(cfg, ledger, Last(t), ev);
    assert LiveFaithfulAt(cfg, ledger, more, n) <==> LiveFaithful(cfg, ledger, Last(t), ev);
    assert forall i: nat :: i < n ==> (BackFaithfulAt(cfg, ledger, more, i) <==> BackFaithfulAt(cfg, ledger, t, i));
    assert forall i: nat :: i < n ==> (LiveFaithfulAt(cfg, ledger, more, i) <==> LiveFaithfulAt(cfg, ledger, t, i));
  }

  /** The run without its last event. */
  ghost function Before(t: Trace): Trace
    requires t.events != [] && |t.states| == |t.events| + 1
  {
    Trace(t.events[..|t.events| - 1], t.states[..|t.events|])
  }

  lemma BeforeIsTrace(cfg: Config, t: Trace)
    requires IsTrace(cfg, t) && t.events != []
    ensures IsTrace(cfg, Before(t))
    ensures Last(t) == Apply(cfg, Last(Before(t)), t.events[|t.events| - 1])
    ensures Extend(Before(t), t.events[|t.events| - 1], Last(t)) == t
  {
    var n: nat := |t.events| - 1;
    assert StepAt(cfg, t, n);
    forall i: nat | i < n ensures StepAt(cfg, Before(t), i) {
      assert StepAt(cfg, t, i);
    }
    assert t.events == t.events[..n] + [t.events[n]];
    assert t.states == t.states[..n + 1] + [t.states[n + 1]];
  }

  /** A recorded run ends in the state that the protocol reaches by its events. */
  lemma {:induction false} TraceIsRun(cfg: Config, ledger: Ledger, t: Trace)
    requires IsTrace(cfg, t)
    ensures Exec(cfg, t.events) == Last(t)
    ensures BackFaithfulTrace(cfg, ledger, t) ==> BackFaithfulRun(cfg, ledger, t.events)
    ensures LiveFaithfulTrace(cfg, ledger, t) ==> LiveFaithfulRun(cfg, ledger, t.events)
    decreases |t.events|
  {
    if t.events != [] {
      BeforeIsTrace(cfg, t);
      TraceIsRun(cfg, ledger, Before(t));
      ExtendIsFaithful(cfg, ledger, Before(t), t.events[|t.events| - 1], Last(t));
    }
  }
}
