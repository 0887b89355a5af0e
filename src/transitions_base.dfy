/**
 * The phase-keyed half of every newer transition table: a lazily created
 * dictionary from phase to an ordered list of rules, plus the machine the
 * rules are given when they are checked.
 */
module TransitionTable {
  import opened Wrappers
  import opened TransitionTypes
  import opened Extensions

  /** Phase-keyed rule lists; `None` is the dictionary before it has been created. */
  type PhaseRules<R> = Option<map<TransitionType, seq<R>>>

  /** The rules registered for phase `p`: none when the dictionary or the phase's entry is missing. */
  function RulesFor<K, R>(table: Option<map<K, seq<R>>>, key: K): seq<R>
  {
    if table.Some? && key in table.value then table.value[key] else []
  }

  /** The dictionary after appending `rule` to `key`'s list, creating dictionary and list as needed. */
  function Appended<K, R>(table: Option<map<K, seq<R>>>, key: K, rule: R): (r: map<K, seq<R>>)
    ensures r.Keys == (if table.Some? then table.value.Keys else {}) + {key}
    ensures r[key] == RulesFor(table, key) + [rule]
    ensures forall k :: k in r && k != key ==> r[k] == table.value[k]
  {
    var entries := if table.Some? then table.value else map[];
    var list := ValueAt(entries, key, []);
    WithKey(entries, key, [])[key := list + [rule]]
  }

  /** Some phase has at least one rule. */
  ghost predicate HasPhaseRules<R>(table: PhaseRules<R>)
  {
    table.Some? && exists p :: p in table.value && |table.value[p]| > 0
  }

  /** Appending to one key leaves every other key's list as it was. */
  lemma AppendedKeepsOthers<K, R>(table: Option<map<K, seq<R>>>, key: K, rule: R, other: K)
    requires other != key
    ensures RulesFor(Some(Appended(table, key, rule)), other) == RulesFor(table, other)
  {
  }

  /** After an `Add` to any phase, the table has phase rules; there is no way to remove one. */
  lemma AddMakesHasRules<R>(table: PhaseRules<R>, p: TransitionType, rule: R)
    ensures HasPhaseRules(Some(Appended(table, p, rule)))
  {
    assert |Appended(table, p, rule)[p]| > 0;
  }

  class TransitionsBase<M, R> {
    var updateTransitions: PhaseRules<R>
    var stateMachine: Option<M>

    /** A table that has never had `Add` called and has not been initialized. */
    constructor ()
      ensures updateTransitions == None && stateMachine == None
    {
      updateTransitions := None;
      stateMachine := None;
    }

    /** Records the owning machine; the rule lists are untouched. */
    method Initialize(machine: M)
      modifies this
      ensures stateMachine == Some(machine)
      ensures updateTransitions == old(updateTransitions)
    {
      stateMachine := Some(machine);
    }

    /** Appends `transition` to the end of `transitionType`'s list; the default phase is `Update`. */
    method Add(transition: R, transitionType: TransitionType := DefaultTransitionType)
      modifies this
      ensures updateTransitions == Some(Appended(old(updateTransitions), transitionType, transition))
      ensures stateMachine == old(stateMachine)
    {
      updateTransitions := Some(Appended(updateTransitions, transitionType, transition));
    }

    /** True iff some phase list is non-empty; event rules live elsewhere and never count. */
    method HasUpdateFunctions() returns (r: bool)
      ensures r <==> HasPhaseRules(updateTransitions)
    {
      if updateTransitions.None? || |updateTransitions.value| == 0 {
        return false;
      }
      var phases := updateTransitions.value.Keys;
      while phases != {}
        invariant phases <= updateTransitions.value.Keys
        invariant forall p :: p in updateTransitions.value && p !in phases ==> |updateTransitions.value[p]| == 0
        decreases phases
      {
        var p :| p in phases;
        if |updateTransitions.value[p]| > 0 {
          return true;
        }
        phases := phases - {p};
      }
      return false;
    }
  }
}
