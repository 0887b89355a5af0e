/**
 * Transition tables for stateful nodes: every rule also receives the node's
 * current data value, read from a data container that has to be supplied
 * before any rule is evaluated. The event-free class of the runtime is this
 * one with no event rules added.
 */
module Stateful {
  import opened Wrappers
  import opened TransitionTypes
  import opened Rules
  import opened TransitionTable
  import opened Stateless

  /** A stateful rule: machine and current data to a target state or "no transition". */
  type StatefulTransition<!M, S, !D> = (Option<M>, D) -> Option<S>

  /** The exception a check raises when it reaches a rule with no data container set. */
  datatype Exception = NullReference

  /** The node's data slot; the rules read `CurrentData` at the moment they are evaluated. */
  class StatefulContainer<D> {
    var CurrentData: D

    constructor (data: D)
      ensures CurrentData == data
    {
      CurrentData := data;
    }
  }

  /** Lifts a stateless rule to a stateful one: the same result as the original, for every data value. */
  function Convert<M(!new), S, D(!new)>(transition: Transition<M, S>): (r: StatefulTransition<M, S, D>)
    ensures forall m, d :: r(m, d) == transition(m)
  {
    (m, _) => transition(m)
  }

  /** A rule yielding `target` iff `condition(machine, data)` holds, and null otherwise. */
  function DataConditional<M(!new), S, D(!new)>(condition: (Option<M>, D) -> bool, target: S): (r: StatefulTransition<M, S, D>)
    ensures forall m, d :: r(m, d).Some? <==> condition(m, d)
    ensures forall m, d :: r(m, d).Some? ==> r(m, d).value == target
  {
    (m, d) => if condition(m, d) then Some(target) else None
  }

  /**
   * A rule on the machine alone: for every data value it gives the stateless
   * conditional rule's result, so the data argument never matters.
   */
  function MachineConditional<M(!new), S, D(!new)>(condition: Option<M> -> bool, target: S): (r: StatefulTransition<M, S, D>)
    ensures forall m, d :: r(m, d) == Conditional(condition, target)(m)
  {
    (m, _) => if condition(m) then Some(target) else None
  }

  /** A rule that always yields `state`, whatever machine and data it is given. */
  function AlwaysTo<M(!new), S, D(!new)>(state: S): (r: StatefulTransition<M, S, D>)
    ensures forall m, d :: r(m, d) == Some(state)
  {
    (_, _) => Some(state)
  }

  /** The rules with `data` bound: each gives what the stateful rule gives on that data. */
  function WithData<M(!new), S, D>(rules: seq<StatefulTransition<M, S, D>>, data: D): (r: seq<Transition<M, S>>)
    ensures |r| == |rules|
    ensures forall k, m :: 0 <= k < |rules| ==> r[k](m) == rules[k](m, data)
  {
    seq(|rules|, k requires 0 <= k < |rules| => (m: Option<M>) => rules[k](m, data))
  }

  /**
   * A list built only from converted stateless rules is checked exactly as the
   * stateless list would be: the data value never changes the result.
   */
  lemma ConvertedListIgnoresData<M(!new), S, D(!new)>(rules: seq<Transition<M, S>>, data: D, m: Option<M>)
    ensures FirstMatch(WithData(seq(|rules|, k requires 0 <= k < |rules| => Convert<M, S, D>(rules[k])), data), m)
         == FirstMatch(rules, m)
  {
    var lifted := WithData(seq(|rules|, k requires 0 <= k < |rules| => Convert<M, S, D>(rules[k])), data);
    FirstMatchPointwise(lifted, m, rules, m);
  }

  /**
   * The outcome of checking `rules` with container `container` on machine `m`:
   * with no container the first rule dereferences null, so only an empty list
   * gets through; otherwise first-match on the container's current data.
   */
  ghost function CheckOutcome<M(!new), S, D>(rules: seq<StatefulTransition<M, S, D>>, container: Option<StatefulContainer<D>>,
                                       m: Option<M>): (r: Result<Option<S>, Exception>)
    reads if container.Some? then {container.value} else {}
    ensures r.Err? <==> container.None? && |rules| > 0
    ensures r.Ok? && container.Some? ==> r.value == FirstMatch(WithData(rules, container.value.CurrentData), m)
    ensures |rules| == 0 ==> r == Ok(None)
  {
    if container.None? then
      (if |rules| == 0 then Ok(None) else Err(NullReference))
    else
      var result := FirstMatch(WithData(rules, container.value.CurrentData), m);
      FirstMatchNone(WithData(rules, container.value.CurrentData), m);
      Ok(result)
  }

  class StatefulTransitions<M(!new), S, E(==), D(!new)> {
    /** The phase-keyed lists and the stored machine. */
    const base: TransitionsBase<M, StatefulTransition<M, S, D>>
    var stateDataContainer: Option<StatefulContainer<D>>
    var eventTransitions: Option<map<E, seq<StatefulTransition<M, S, D>>>>

    constructor ()
      ensures fresh(base)
      ensures base.updateTransitions == None && base.stateMachine == None
      ensures stateDataContainer == None && eventTransitions == None
    {
      base := new TransitionsBase();
      stateDataContainer := None;
      eventTransitions := None;
    }

    /** Supplies the container whose data the rules are given; nothing else changes. */
    method SetDataContainer(dataContainer: Option<StatefulContainer<D>>)
      modifies this
      ensures stateDataContainer == dataContainer
      ensures eventTransitions == old(eventTransitions)
    {
      stateDataContainer := dataContainer;
    }

    /** Adds a stateless rule, lifted by `Convert`, to phase `transitionType`. */
    method AddLifted(transition: Transition<M, S>, transitionType: TransitionType := DefaultTransitionType)
      modifies base
      ensures base.updateTransitions == Some(Appended(old(base.updateTransitions), transitionType, Convert(transition)))
      ensures base.stateMachine == old(base.stateMachine)
    {
      base.Add(Convert(transition), transitionType);
    }

    /** Adds a rule on machine and data yielding `targetState` iff `condition` holds. */
    method AddDataConditional(condition: (Option<M>, D) -> bool, targetState: S,
                              transitionType: TransitionType := DefaultTransitionType)
      modifies base
      ensures base.updateTransitions
           == Some(Appended(old(base.updateTransitions), transitionType, DataConditional(condition, targetState)))
      ensures base.stateMachine == old(base.stateMachine)
    {
      base.Add(DataConditional(condition, targetState), transitionType);
    }

    /** Adds a rule on the machine alone yielding `targetState` iff `condition` holds. */
    method AddConditional(condition: Option<M> -> bool, targetState: S,
                          transitionType: TransitionType := DefaultTransitionType)
      modifies base
      ensures base.updateTransitions
           == Some(Appended(old(base.updateTransitions), transitionType, MachineConditional(condition, targetState)))
      ensures base.stateMachine == old(base.stateMachine)
    {
      base.Add(MachineConditional(condition, targetState), transitionType);
    }

    /**
     * Evaluates `rules` in order on the stored machine and the container's
     * current data, returning at the first non-null result.
     */
    method Check(rules: seq<StatefulTransition<M, S, D>>) returns (r: Result<Option<S>, Exception>, ghost evaluated: nat)
      ensures r == CheckOutcome(rules, stateDataContainer, base.stateMachine)
      ensures evaluated <= |rules|
      ensures r.Ok? && r.value.Some? ==> IsFirstMatch(WithData(rules, stateDataContainer.value.CurrentData), base.stateMachine, evaluated - 1)
    {
      if |rules| == 0 {
        return Ok(None), 0;
      }
      if stateDataContainer.None? {
        return Err(NullReference), 0;
      }
      var found;
      found, evaluated := Evaluate(WithData(rules, stateDataContainer.value.CurrentData), base.stateMachine);
      r := Ok(found);
    }

    /** First-match over phase `transitionType`'s rules; null when the phase has none. */
    method CheckTransitions(transitionType: TransitionType) returns (r: Result<Option<S>, Exception>, ghost evaluated: nat)
      ensures r == CheckOutcome(RulesFor(base.updateTransitions, transitionType), stateDataContainer, base.stateMachine)
      ensures evaluated <= |RulesFor(base.updateTransitions, transitionType)|
      ensures r.Ok? && r.value.Some? ==> IsFirstMatch(WithData(RulesFor(base.updateTransitions, transitionType),
                                                                stateDataContainer.value.CurrentData), base.stateMachine, evaluated - 1)
    {
      if base.updateTransitions.None? || transitionType !in base.updateTransitions.value {
        return Ok(None), 0;
      }
      r, evaluated := Check(base.updateTransitions.value[transitionType]);
    }

    /** Appends a stateful rule to `fsmEvent`'s list, creating the dictionary and list as needed. */
    method AddEvent(transition: StatefulTransition<M, S, D>, fsmEvent: E)
      modifies this
      ensures eventTransitions == Some(Appended(old(eventTransitions), fsmEvent, transition))
      ensures stateDataContainer == old(stateDataContainer)
      ensures base.updateTransitions == old(base.updateTransitions)
    {
      eventTransitions := Some(Appended(eventTransitions, fsmEvent, transition));
    }

    /** Appends a stateless rule, lifted by `Convert`, to `fsmEvent`'s list. */
    method AddEventLifted(transition: Transition<M, S>, fsmEvent: E)
      modifies this
      ensures eventTransitions == Some(Appended(old(eventTransitions), fsmEvent, Convert(transition)))
      ensures stateDataContainer == old(stateDataContainer)
      ensures base.updateTransitions == old(base.updateTransitions)
    {
      AddEvent(Convert(transition), fsmEvent);
    }

    /** Appends a rule on machine and data yielding `targetState` iff `condition` holds. */
    method AddEventDataConditional(condition: (Option<M>, D) -> bool, targetState: S, fsmEvent: E)
      modifies this
      ensures eventTransitions == Some(Appended(old(eventTransitions), fsmEvent, DataConditional(condition, targetState)))
      ensures stateDataContainer == old(stateDataContainer)
      ensures base.updateTransitions == old(base.updateTransitions)
    {
      AddEvent(DataConditional(condition, targetState), fsmEvent);
    }

    /** Appends a rule on the machine alone yielding `targetState` iff `condition` holds. */
    method AddEventConditional(condition: Option<M> -> bool, targetState: S, fsmEvent: E)
      modifies this
      ensures eventTransitions == Some(Appended(old(eventTransitions), fsmEvent, MachineConditional(condition, targetState)))
      ensures stateDataContainer == old(stateDataContainer)
      ensures base.updateTransitions == old(base.updateTransitions)
    {
      AddEvent(MachineConditional(condition, targetState), fsmEvent);
    }

    /** Appends a rule that always yields `state`. */
    method AddEventTarget(state: S, fsmEvent: E)
      modifies this
      ensures eventTransitions == Some(Appended(old(eventTransitions), fsmEvent, AlwaysTo(state)))
      ensures stateDataContainer == old(stateDataContainer)
      ensures base.updateTransitions == old(base.updateTransitions)
    {
      AddEvent(AlwaysTo(state), fsmEvent);
    }

    /** First-match over `fsmEvent`'s rules; null when there is no dictionary or no entry for the event. */
    method CheckEventTransitions(fsmEvent: E) returns (r: Result<Option<S>, Exception>, ghost evaluated: nat)
      ensures r == CheckOutcome(RulesFor(eventTransitions, fsmEvent), stateDataContainer, base.stateMachine)
      ensures evaluated <= |RulesFor(eventTransitions, fsmEvent)|
      ensures r.Ok? && r.value.Some? ==> IsFirstMatch(WithData(RulesFor(eventTransitions, fsmEvent),
                                                                stateDataContainer.value.CurrentData), base.stateMachine, evaluated - 1)
    {
      if eventTransitions.None? || fsmEvent !in eventTransitions.value {
        return Ok(None), 0;
      }
      r, evaluated := Check(eventTransitions.value[fsmEvent]);
    }
  }
}
