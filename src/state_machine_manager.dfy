/**
 * The scheduler registry: a list of machines, appended to by `Register`,
 * shrunk by `Deregister`, and walked in list order once per engine phase.
 * Each tick calls into code the registry cannot see; the model records the
 * calls, in order, in a ghost log.
 */
module Manager {
  import opened TransitionTypes

  /** One call of a machine's tick method for a phase. */
  datatype Tick<M> = Tick(machine: M, phase: TransitionType)

  /** `List.Remove`: the list without its first occurrence of `m`; unchanged when `m` is absent. */
  function RemoveFirst<M(==)>(s: seq<M>, m: M): (r: seq<M>)
    ensures m !in s ==> r == s
    ensures m in s ==> |r| == |s| - 1
  {
    if |s| == 0 then []
    else if s[0] == m then s[1..]
    else [s[0]] + RemoveFirst(s[1..], m)
  }

  /** Removing the first occurrence, found at `i`, keeps the entries before and after it in order. */
  lemma {:induction false} RemoveFirstAt<M>(s: seq<M>, m: M, i: int)
    requires 0 <= i < |s| && s[i] == m && m !in s[..i]
    ensures RemoveFirst(s, m) == s[..i] + s[i + 1..]
    decreases i
  {
    if i > 0 {
      assert s[0] == s[..i][0];
      assert m !in s[1..][..i - 1] by {
        assert s[1..][..i - 1] == s[..i][1..];
      }
      RemoveFirstAt(s[1..], m, i - 1);
      assert s[..i] == [s[0]] + s[1..][..i - 1];
      assert s[i + 1..] == s[1..][i..];
    }
  }

  /** Exactly one copy of `m` leaves the list, and no other entry does. */
  lemma {:induction false} RemoveFirstMultiset<M>(s: seq<M>, m: M)
    ensures multiset(RemoveFirst(s, m)) == multiset(s) - multiset{m}
    decreases |s|
  {
    if |s| > 0 {
      assert s == [s[0]] + s[1..];
      RemoveFirstMultiset(s[1..], m);
    }
  }

  /** Registering a machine that is not in the list and then deregistering it restores the list. */
  lemma {:induction false} RegisterThenDeregister<M>(s: seq<M>, m: M)
    requires m !in s
    ensures RemoveFirst(s + [m], m) == s
    decreases |s|
  {
    if |s| > 0 {
      assert (s + [m])[0] == s[0];
      assert (s + [m])[1..] == s[1..] + [m];
      RegisterThenDeregister(s[1..], m);
      assert s == [s[0]] + s[1..];
    }
  }

  /** The calls one phase method makes: that phase's tick once per entry, in list order. */
  function TickCalls<M>(s: seq<M>, phase: TransitionType): (r: seq<Tick<M>>)
    ensures |r| == |s|
    ensures forall k :: 0 <= k < |s| ==> r[k] == Tick(s[k], phase)
  {
    seq(|s|, k requires 0 <= k < |s| => Tick(s[k], phase))
  }

  /** The ticks of a non-empty list: its head's tick, then the ticks of the rest. */
  lemma TickCallsCons<M>(s: seq<M>, phase: TransitionType)
    requires |s| > 0
    ensures TickCalls(s, phase) == [Tick(s[0], phase)] + TickCalls(s[1..], phase)
  {
  }

  /** A machine is ticked once per time it occurs in the list: twice registered, twice ticked. */
  lemma {:induction false} TickCount<M>(s: seq<M>, phase: TransitionType, m: M)
    ensures multiset(TickCalls(s, phase))[Tick(m, phase)] == multiset(s)[m]
    decreases |s|
  {
    if |s| > 0 {
      var rest := TickCalls(s[1..], phase);
      assert s == [s[0]] + s[1..];
      TickCallsCons(s, phase);
      TickCount(s[1..], phase, m);
      calc {
        multiset(TickCalls(s, phase))[Tick(m, phase)];
        multiset([Tick(s[0], phase)])[Tick(m, phase)] + multiset(rest)[Tick(m, phase)];
        (if s[0] == m then 1 else 0) + multiset(s[1..])[m];
        multiset([s[0]])[m] + multiset(s[1..])[m];
      }
    }
  }

  /**
   * A machine registered once is never ticked after one `Deregister`; one
   * registered `n` times is still ticked `n - 1` times per phase.
   */
  lemma DeregisteredTicks<M>(s: seq<M>, m: M, phase: TransitionType)
    ensures multiset(TickCalls(RemoveFirst(s, m), phase))[Tick(m, phase)]
         == if multiset(s)[m] > 0 then multiset(s)[m] - 1 else 0
    ensures multiset(s)[m] <= 1 ==> Tick(m, phase) !in TickCalls(RemoveFirst(s, m), phase)
  {
    RemoveFirstMultiset(s, m);
    TickCount(RemoveFirst(s, m), phase, m);
  }

  class StateMachineManager<M(==)> {
    var stateMachines: seq<M>
    ghost var ticks: seq<Tick<M>>

    constructor ()
      ensures stateMachines == [] && ticks == []
    {
      stateMachines := [];
      ticks := [];
    }

    /** Appends `stateMachine` at the end; earlier entries and their order are kept. */
    method Register(stateMachine: M)
      modifies this
      ensures stateMachines == old(stateMachines) + [stateMachine]
      ensures ticks == old(ticks)
    {
      stateMachines := stateMachines + [stateMachine];
    }

    /** The search `List.Remove` starts with: the first index holding `stateMachine`, or -1. */
    method IndexOf(stateMachine: M) returns (i: int)
      ensures -1 <= i < |stateMachines|
      ensures i == -1 <==> stateMachine !in stateMachines
      ensures i >= 0 ==> stateMachines[i] == stateMachine && stateMachine !in stateMachines[..i]
    {
      i := 0;
      while i < |stateMachines|
        invariant 0 <= i <= |stateMachines|
        invariant stateMachine !in stateMachines[..i]
      {
        if stateMachines[i] == stateMachine {
          return i;
        }
        assert stateMachines[..i + 1] == stateMachines[..i] + [stateMachines[i]];
        i := i + 1;
      }
      assert stateMachines[..i] == stateMachines;
      return -1;
    }

    /** Removes the first occurrence of `stateMachine` at once; nothing happens if it is absent. */
    method Deregister(stateMachine: M)
      modifies this
      ensures stateMachines == RemoveFirst(old(stateMachines), stateMachine)
      ensures ticks == old(ticks)
    {
      var i := IndexOf(stateMachine);
      if i >= 0 {
        RemoveFirstAt(stateMachines, stateMachine, i);
        stateMachines := stateMachines[..i] + stateMachines[i + 1..];
      }
    }

    /** Calls `phase`'s tick on each entry in list order; the list itself is not changed. */
    method TickAll(phase: TransitionType)
      modifies this
      ensures ticks == old(ticks) + TickCalls(stateMachines, phase)
      ensures stateMachines == old(stateMachines)
    {
      var i := 0;
      while i < |stateMachines|
        invariant 0 <= i <= |stateMachines|
        invariant stateMachines == old(stateMachines)
        invariant ticks == old(ticks) + TickCalls(stateMachines[..i], phase)
      {
        assert TickCalls(stateMachines[..i + 1], phase) == TickCalls(stateMachines[..i], phase) + [Tick(stateMachines[i], phase)];
        ticks := ticks + [Tick(stateMachines[i], phase)];
        i := i + 1;
      }
      assert stateMachines[..i] == stateMachines;
    }

    method Update()
      modifies this
      ensures ticks == old(ticks) + TickCalls(stateMachines, TransitionType.Update)
      ensures stateMachines == old(stateMachines)
    {
      TickAll(TransitionType.Update);
    }

    method FixedUpdate()
      modifies this
      ensures ticks == old(ticks) + TickCalls(stateMachines, TransitionType.FixedUpdate)
      ensures stateMachines == old(stateMachines)
    {
      TickAll(TransitionType.FixedUpdate);
    }

    method LateUpdate()
      modifies this
      ensures ticks == old(ticks) + TickCalls(stateMachines, TransitionType.LateUpdate)
      ensures stateMachines == old(stateMachines)
    {
      TickAll(TransitionType.LateUpdate);
    }
  }
}
