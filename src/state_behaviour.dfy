/**
 * The older node type: five optional callbacks and an optional
 * `AutoTransitions` table, all given the machine stored by `Initialize`.
 * A callback is user code; the model records each invocation, with the
 * machine it was given, in a ghost log.
 */
module Behaviour {
  import opened Wrappers
  import opened TransitionTypes
  import opened Rules
  import opened Auto

  /** The five callback slots of a behaviour. */
  datatype Hook = OnEnter | OnExit | OnUpdate | OnFixedUpdate | OnLateUpdate

  /** One callback invocation and the machine it received. */
  datatype Invocation<M> = Invocation(hook: Hook, machine: Option<M>)

  /** What dispatching `hook` invokes: that callback once if it is set, nothing otherwise. */
  function Fired<M>(callbacks: set<Hook>, hook: Hook, machine: Option<M>): (r: seq<Invocation<M>>)
    ensures |r| <= 1
    ensures |r| == 1 <==> hook in callbacks
    ensures forall k :: 0 <= k < |r| ==> r[k].hook == hook && r[k].machine == machine
  {
    if hook in callbacks then [Invocation(hook, machine)] else []
  }

  /** Dispatching one hook never invokes another callback. */
  lemma FiredOnlyMatching<M>(callbacks: set<Hook>, hook: Hook, other: Hook, machine: Option<M>)
    requires other != hook
    ensures forall k :: 0 <= k < |Fired(callbacks, hook, machine)| ==> Fired(callbacks, hook, machine)[k].hook != other
  {
  }

  class StateBehaviour<M(!new), S> {
    var stateMachine: Option<M>
    var autoTransitions: Option<AutoTransitions<M, S>>
    /** The callbacks that are set (non-null). */
    var callbacks: set<Hook>
    ghost var invocations: seq<Invocation<M>>

    /** A behaviour with a fresh, empty table and no callbacks. */
    constructor ()
      ensures stateMachine == None && callbacks == {} && invocations == []
      ensures autoTransitions.Some? && fresh(autoTransitions.value)
      ensures autoTransitions.value.transitionsByType == map[] && autoTransitions.value.stateMachine == None
    {
      var table := new AutoTransitions();
      autoTransitions := Some(table);
      stateMachine := None;
      callbacks := {};
      invocations := [];
    }

    /** Stores `machine` and initializes the table, when there is one, with the same machine. */
    method Initialize(machine: M)
      modifies this, if autoTransitions.Some? then {autoTransitions.value} else {}
      ensures stateMachine == Some(machine)
      ensures autoTransitions == old(autoTransitions) && callbacks == old(callbacks) && invocations == old(invocations)
      ensures autoTransitions.Some? ==> autoTransitions.value.stateMachine == Some(machine)
      ensures autoTransitions.Some? ==> autoTransitions.value.transitionsByType == old(autoTransitions.value.transitionsByType)
    {
      stateMachine := Some(machine);
      if autoTransitions.Some? {
        autoTransitions.value.Initialize(machine);
      }
    }

    /** Invokes `hook`'s callback with the stored machine if it is set. */
    method Dispatch(hook: Hook)
      modifies this
      ensures invocations == old(invocations) + Fired(callbacks, hook, stateMachine)
      ensures stateMachine == old(stateMachine) && autoTransitions == old(autoTransitions) && callbacks == old(callbacks)
    {
      if hook in callbacks {
        invocations := invocations + [Invocation(hook, stateMachine)];
      }
    }

    method DoEnter()
      modifies this
      ensures invocations == old(invocations) + Fired(callbacks, OnEnter, stateMachine)
      ensures stateMachine == old(stateMachine) && autoTransitions == old(autoTransitions) && callbacks == old(callbacks)
    {
      Dispatch(OnEnter);
    }

    method DoExit()
      modifies this
      ensures invocations == old(invocations) + Fired(callbacks, OnExit, stateMachine)
      ensures stateMachine == old(stateMachine) && autoTransitions == old(autoTransitions) && callbacks == old(callbacks)
    {
      Dispatch(OnExit);
    }

    method DoUpdate()
      modifies this
      ensures invocations == old(invocations) + Fired(callbacks, OnUpdate, stateMachine)
      ensures stateMachine == old(stateMachine) && autoTransitions == old(autoTransitions) && callbacks == old(callbacks)
    {
      Dispatch(OnUpdate);
    }

    method DoFixedUpdate()
      modifies this
      ensures invocations == old(invocations) + Fired(callbacks, OnFixedUpdate, stateMachine)
      ensures stateMachine == old(stateMachine) && autoTransitions == old(autoTransitions) && callbacks == old(callbacks)
    {
      Dispatch(OnFixedUpdate);
    }

    method DoLateUpdate()
      modifies this
      ensures invocations == old(invocations) + Fired(callbacks, OnLateUpdate, stateMachine)
      ensures stateMachine == old(stateMachine) && autoTransitions == old(autoTransitions) && callbacks == old(callbacks)
    {
      Dispatch(OnLateUpdate);
    }

    /** The table's `CheckTransitions` result, or null when there is no table. */
    method CheckAutoTransitions(transitionType: TransitionType) returns (r: Option<S>)
      ensures autoTransitions.None? ==> r == None
      ensures autoTransitions.Some? ==>
        r == FirstMatch(PhaseList(autoTransitions.value.transitionsByType, transitionType), autoTransitions.value.stateMachine)
    {
      if autoTransitions.None? {
        return None;
      }
      ghost var evaluated;
      r, evaluated := autoTransitions.value.CheckTransitions(transitionType);
    }
  }
}
