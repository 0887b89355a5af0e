/**
 * The older transition table, used by `StateBehaviour`: a dictionary, created
 * with the table, from phase to an ordered list of machine-only rules.
 */
module Auto {
  import opened Wrappers
  import opened TransitionTypes
  import opened Rules

  /** An older-generation rule: from the stored machine to a target state or "no transition". */
  type AutoTransition<!M, S> = Option<M> -> Option<S>

  /** The rules stored for phase `p`: none when the phase has no entry. */
  function PhaseList<M, S>(byType: map<TransitionType, seq<AutoTransition<M, S>>>, p: TransitionType): seq<AutoTransition<M, S>>
  {
    if p in byType then byType[p] else []
  }

  /** The dictionary after `Add`: `p`'s entry created if missing and `rule` appended to it. */
  function AddedTo<M, S>(byType: map<TransitionType, seq<AutoTransition<M, S>>>, p: TransitionType,
                         rule: AutoTransition<M, S>): (r: map<TransitionType, seq<AutoTransition<M, S>>>)
    ensures r.Keys == byType.Keys + {p}
    ensures r[p] == PhaseList(byType, p) + [rule]
    ensures forall q :: q in byType && q != p ==> r[q] == byType[q]
  {
    var created := if p !in byType then byType[p := []] else byType;
    created[p := created[p] + [rule]]
  }

  /**
   * After an `Add`, checking the same phase gives the earlier result if there
   * was one and the new rule's otherwise; other phases are not affected.
   */
  lemma AddedToCheck<M, S>(byType: map<TransitionType, seq<AutoTransition<M, S>>>, p: TransitionType,
                           rule: AutoTransition<M, S>, q: TransitionType, m: Option<M>)
    ensures q == p ==>
      FirstMatch(PhaseList(AddedTo(byType, p, rule), q), m)
      == if FirstMatch(PhaseList(byType, p), m).Some? then FirstMatch(PhaseList(byType, p), m) else rule(m)
    ensures q != p ==> PhaseList(AddedTo(byType, p, rule), q) == PhaseList(byType, q)
  {
    if q == p {
      FirstMatchAppend(PhaseList(byType, p), rule, m);
    }
  }

  class AutoTransitions<M(!new), S> {
    var transitionsByType: map<TransitionType, seq<AutoTransition<M, S>>>
    var stateMachine: Option<M>

    /** An empty dictionary and no machine yet. */
    constructor ()
      ensures transitionsByType == map[] && stateMachine == None
    {
      transitionsByType := map[];
      stateMachine := None;
    }

    /** Records the machine the rules are given; the rule lists are untouched. */
    method Initialize(machine: M)
      modifies this
      ensures stateMachine == Some(machine)
      ensures transitionsByType == old(transitionsByType)
    {
      stateMachine := Some(machine);
    }

    /** Appends `transition` to phase `transitionType`'s list, creating it first if missing. */
    method Add(transition: AutoTransition<M, S>, transitionType: TransitionType := DefaultTransitionType)
      modifies this
      ensures transitionsByType == AddedTo(old(transitionsByType), transitionType, transition)
      ensures stateMachine == old(stateMachine)
    {
      if transitionType !in transitionsByType {
        transitionsByType := transitionsByType[transitionType := []];
      }
      transitionsByType := transitionsByType[transitionType := transitionsByType[transitionType] + [transition]];
    }

    /** Appends a rule yielding `targetState` iff `condition` holds of the machine. */
    method AddConditional(condition: Option<M> -> bool, targetState: S,
                          transitionType: TransitionType := DefaultTransitionType)
      modifies this
      ensures transitionsByType == AddedTo(old(transitionsByType), transitionType, Conditional(condition, targetState))
      ensures stateMachine == old(stateMachine)
    {
      if transitionType !in transitionsByType {
        transitionsByType := transitionsByType[transitionType := []];
      }
      transitionsByType := transitionsByType[transitionType := transitionsByType[transitionType] + [Conditional(condition, targetState)]];
    }

    /**
     * The first non-null result of the phase's rules on the stored machine, or
     * null; only the queried phase's rules run, and only the first `evaluated`.
     */
    method CheckTransitions(transitionType: TransitionType) returns (r: Option<S>, ghost evaluated: nat)
      ensures r == FirstMatch(PhaseList(transitionsByType, transitionType), stateMachine)
      ensures var rules := PhaseList(transitionsByType, transitionType);
        && evaluated <= |rules|
        && (r.Some? ==> IsFirstMatch(rules, stateMachine, evaluated - 1))
        && (r.None? ==> evaluated == |rules|)
      ensures transitionType !in transitionsByType ==> r == None
      ensures transitionType !in transitionsByType ==> evaluated == 0
    {
      if transitionType !in transitionsByType {
        return None, 0;
      }
      r, evaluated := Evaluate(transitionsByType[transitionType], stateMachine);
    }
  }
}
