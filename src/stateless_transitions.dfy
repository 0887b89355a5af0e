/**
 * Transition tables for stateless nodes: phase rules (kept in the shared
 * phase-keyed base) and, for event-enabled machines, event-keyed rules.
 * The event-free class of the runtime is this one with no event rules added.
 */
module Stateless {
  import opened Wrappers
  import opened TransitionTypes
  import opened Rules
  import opened TransitionTable

  /**
   * A stateless rule: from the owning machine (null until the table is
   * initialized) to a target state or to "no transition".
   */
  type Transition<!M, S> = Option<M> -> Option<S>

  class StatelessTransitions<M(!new), S, E(==)> {
    /** The phase-keyed lists and the stored machine, shared with the stateful tables. */
    const base: TransitionsBase<M, Transition<M, S>>
    var eventTransitions: Option<map<E, seq<Transition<M, S>>>>

    constructor ()
      ensures fresh(base)
      ensures base.updateTransitions == None && base.stateMachine == None
      ensures eventTransitions == None
    {
      base := new TransitionsBase();
      eventTransitions := None;
    }

    /** Adds a rule yielding `targetState` iff `condition` holds, to phase `transitionType`. */
    method AddConditional(condition: Option<M> -> bool, targetState: S,
                          transitionType: TransitionType := DefaultTransitionType)
      modifies base
      ensures base.updateTransitions
           == Some(Appended(old(base.updateTransitions), transitionType, Conditional(condition, targetState)))
      ensures base.stateMachine == old(base.stateMachine)
    {
      base.Add(Conditional(condition, targetState), transitionType);
    }

    /**
     * The first non-null result of `transitionType`'s rules on the stored
     * machine, or null; only that phase's rules are invoked, and only up to
     * the first that yields a state (`evaluated` of them).
     */
    method CheckTransitions(transitionType: TransitionType) returns (r: Option<S>, ghost evaluated: nat)
      ensures r == FirstMatch(RulesFor(base.updateTransitions, transitionType), base.stateMachine)
      ensures var rules := RulesFor(base.updateTransitions, transitionType);
        && evaluated <= |rules|
        && (r.Some? ==> IsFirstMatch(rules, base.stateMachine, evaluated - 1))
        && (r.None? ==> evaluated == |rules|)
      ensures RulesFor(base.updateTransitions, transitionType) == [] ==> r == None
      ensures RulesFor(base.updateTransitions, transitionType) == [] ==> evaluated == 0
    {
      if base.updateTransitions.None? || transitionType !in base.updateTransitions.value {
        return None, 0;
      }
      r, evaluated := Evaluate(base.updateTransitions.value[transitionType], base.stateMachine);
    }

    /** Appends `transition` to `fsmEvent`'s list, creating the dictionary and list as needed. */
    method AddEvent(fsmEvent: E, transition: Transition<M, S>)
      modifies this
      ensures eventTransitions == Some(Appended(old(eventTransitions), fsmEvent, transition))
      ensures base.updateTransitions == old(base.updateTransitions)
    {
      eventTransitions := Some(Appended(eventTransitions, fsmEvent, transition));
    }

    /** Adds an event rule yielding `targetState` iff `condition` holds. */
    method AddEventConditional(fsmEvent: E, condition: Option<M> -> bool, targetState: S)
      modifies this
      ensures eventTransitions == Some(Appended(old(eventTransitions), fsmEvent, Conditional(condition, targetState)))
      ensures base.updateTransitions == old(base.updateTransitions)
    {
      AddEvent(fsmEvent, Conditional(condition, targetState));
    }

    /** Adds an event rule that always yields `state`. */
    method AddEventTarget(fsmEvent: E, state: S)
      modifies this
      ensures eventTransitions == Some(Appended(old(eventTransitions), fsmEvent, Always(state)))
      ensures base.updateTransitions == old(base.updateTransitions)
    {
      AddEvent(fsmEvent, Always(state));
    }

    /** First-match over `fsmEvent`'s rules on the stored machine; null when the event has none. */
    method CheckEventTransitions(fsmEvent: E) returns (r: Option<S>, ghost evaluated: nat)
      ensures r == FirstMatch(RulesFor(eventTransitions, fsmEvent), base.stateMachine)
      ensures var rules := RulesFor(eventTransitions, fsmEvent);
        && evaluated <= |rules|
        && (r.Some? ==> IsFirstMatch(rules, base.stateMachine, evaluated - 1))
        && (r.None? ==> evaluated == |rules|)
      ensures RulesFor(eventTransitions, fsmEvent) == [] ==> r == None
      ensures RulesFor(eventTransitions, fsmEvent) == [] ==> evaluated == 0
    {
      if eventTransitions.None? || fsmEvent !in eventTransitions.value {
        return None, 0;
      }
      r, evaluated := Evaluate(eventTransitions.value[fsmEvent], base.stateMachine);
    }
  }
}
