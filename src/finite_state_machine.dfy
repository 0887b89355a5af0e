/**
 * The state-machine orchestrator: the current, previous and next state, the
 * entry time, the registration flag, a node per state (created on first use)
 * and an optional any-state node. The any-state node is called before the
 * current node for enter, exit, tick and event calls (on an event the current
 * node's target still wins), and after it for transition checks, where it is
 * asked only when the current node yields no target.
 *
 * Nodes are user-built objects whose classes are not part of this model; a
 * node is taken as a value giving what the machine asks of it: whether it has
 * update functions, and the target (if any) its transition rules and event
 * rules yield on the machine's observable state. Every call the machine makes
 * into a node is appended, with the observable state at that moment, to a
 * ghost trace. The engine clock is the abstract integer `now`.
 */
module Fsm {
  import opened Wrappers
  import opened TransitionTypes
  import opened Extensions
  import opened Manager

  /** What a node's rules and callbacks can read off the machine (`IStateMachine`). */
  datatype View<S> = View(current: S, previous: Option<S>, next: Option<S>, timeInState: int)

  /** The machine's own stored fields. */
  datatype Status<S> = Status(current: S, previous: Option<S>, next: Option<S>, enteredAt: int)

  /** The observable state at time `now`: time in state is measured from the entry time. */
  function ViewAt<S>(st: Status<S>, now: int): (v: View<S>)
    ensures v.current == st.current && v.previous == st.previous && v.next == st.next
    ensures v.timeInState == now - st.enteredAt
  {
    View(st.current, st.previous, st.next, now - st.enteredAt)
  }

  /** A node as the machine uses it. */
  datatype Node<!S, !E> = Node(hasUpdateFunctions: bool,
                               checkAutoTransitions: (TransitionType, View<S>) -> Option<S>,
                               triggerEvent: (E, View<S>) -> Option<S>)

  /** The node a missing state gets: a fresh node with no callbacks and no rules. */
  function DefaultNode<S, E>(): Node<S, E>
  {
    Node(false, (_, _) => None, (_, _) => None)
  }

  /** A default node needs no updates and never asks for a transition. */
  lemma DefaultNodeInert<S, E>(phase: TransitionType, fsmEvent: E, v: View<S>)
    ensures !DefaultNode<S, E>().hasUpdateFunctions
    ensures DefaultNode<S, E>().checkAutoTransitions(phase, v) == None
    ensures DefaultNode<S, E>().triggerEvent(fsmEvent, v) == None
  {
  }

  datatype NodeRef<S> = AnyState | StateNode(state: S)

  /** The node methods the machine calls. */
  datatype Hook<E> = Init | Enter | Exit | Tick(phase: TransitionType) | Check(checked: TransitionType) | Event(fsmEvent: E)

  /** One call into a node and the observable state it saw. */
  datatype Call<S, E> = Call(node: NodeRef<S>, hook: Hook<E>, seen: View<S>)

  /** One hook on the any-state node when it exists, then on `state`'s node. */
  function OnNodes<S, E>(hasAny: bool, state: S, hook: Hook<E>, seen: View<S>): (r: seq<Call<S, E>>)
    ensures |r| == if hasAny then 2 else 1
    ensures hasAny ==> r[0].node == AnyState
    ensures r[|r| - 1].node == StateNode(state)
    ensures forall k :: 0 <= k < |r| ==> r[k].hook == hook && r[k].seen == seen
  {
    (if hasAny then [Call(AnyState, hook, seen)] else []) + [Call(StateNode(state), hook, seen)]
  }

  /** The stored fields once `SetState(to)` has finished at time `now`. */
  function AfterSetState<S>(st: Status<S>, to: S, now: int): (r: Status<S>)
    ensures r.current == to && r.previous == Some(st.current) && r.next == None && r.enteredAt == now
  {
    Status(to, Some(st.current), None, now)
  }

  /** The calls `SetState(to)` makes: exits seeing `to` as next, then enters seeing the new state. */
  function SetStateCalls<S, E>(hasAny: bool, st: Status<S>, to: S, now: int): seq<Call<S, E>>
  {
    OnNodes(hasAny, st.current, Exit, ViewAt(st.(next := Some(to)), now))
      + OnNodes(hasAny, to, Enter, ViewAt(AfterSetState(st, to, now), now))
  }

  /** Appending the calls of `SetState(to)` appends its exits, then its enters. */
  lemma SetStateCallsSplit<S, E>(hasAny: bool, st: Status<S>, to: S, now: int, before: seq<Call<S, E>>)
    ensures before + SetStateCalls(hasAny, st, to, now)
         == before + OnNodes(hasAny, st.current, Exit, ViewAt(st.(next := Some(to)), now))
                   + OnNodes(hasAny, to, Enter, ViewAt(AfterSetState(st, to, now), now))
  {
  }

  /**
   * The exit/enter cycle of `SetState(to)`, call by call. While exits run, the
   * current state is still the old one and the next state is `to`; while
   * enters run, the current state is `to`, the previous state the old one,
   * there is no next state and no time has passed in the state. Every exit
   * precedes every enter, the any-state node goes first in each half, and the
   * cycle runs in full when `to` is the current state: there is no
   * self-transition guard.
   */
  lemma SetStateCycle<S, E>(hasAny: bool, st: Status<S>, to: S, now: int)
    ensures var leaving := View(st.current, st.previous, Some(to), now - st.enteredAt);
      var entering := View(to, Some(st.current), None, 0);
      SetStateCalls<S, E>(hasAny, st, to, now)
      == if hasAny then [Call(AnyState, Exit, leaving), Call(StateNode(st.current), Exit, leaving),
                          Call(AnyState, Enter, entering), Call(StateNode(to), Enter, entering)]
         else [Call(StateNode(st.current), Exit, leaving), Call(StateNode(to), Enter, entering)]
  {
  }

  /** In one `SetState`, the old state's node exits exactly once and the new state's node enters exactly once. */
  lemma SetStateOnce<S, E>(hasAny: bool, st: Status<S>, to: S, now: int)
    ensures multiset(SetStateCalls<S, E>(hasAny, st, to, now))[Call(StateNode(st.current), Exit, View(st.current, st.previous, Some(to), now - st.enteredAt))] == 1
    ensures multiset(SetStateCalls<S, E>(hasAny, st, to, now))[Call(StateNode(to), Enter, View(to, Some(st.current), None, 0))] == 1
  {
    SetStateCycle<S, E>(hasAny, st, to, now);
  }

  /** The current node's target wins; the any-state node's counts only when the current node yields none. */
  function Prefer<S>(fromCurrent: Option<S>, fromAny: Option<S>): (r: Option<S>)
    ensures fromCurrent.Some? ==> r == fromCurrent
    ensures fromCurrent.None? ==> r == fromAny
    ensures r.None? <==> fromCurrent.None? && fromAny.None?
  {
    if fromCurrent.Some? then fromCurrent else fromAny
  }

  /** A `SetState` to `target` if there is one, nothing otherwise. */
  function TransitionCalls<S, E>(hasAny: bool, st: Status<S>, now: int, target: Option<S>): seq<Call<S, E>>
  {
    if target.Some? then SetStateCalls(hasAny, st, target.value, now) else []
  }

  /** The stored fields after an optional `SetState`. */
  function StatusAfter<S>(st: Status<S>, now: int, target: Option<S>): (r: Status<S>)
    ensures target.None? ==> r == st
    ensures target.Some? ==> r == AfterSetState(st, target.value, now)
  {
    if target.Some? then AfterSetState(st, target.value, now) else st
  }

  /**
   * The calls of a tick-time transition check for `phase`: the current node's
   * check; the any-state node's check only if that yielded nothing; then at
   * most one `SetState`, to the preferred target.
   */
  function CheckCalls<S, E>(hasAny: bool, st: Status<S>, now: int, phase: TransitionType,
                            fromCurrent: Option<S>, fromAny: Option<S>): seq<Call<S, E>>
  {
    [Call(StateNode(st.current), Check(phase), ViewAt(st, now))]
      + (if fromCurrent.None? && hasAny then [Call(AnyState, Check(phase), ViewAt(st, now))] else [])
      + TransitionCalls(hasAny, st, now, Prefer(fromCurrent, fromAny))
  }

  /** `CheckCalls` is the checks made, then the calls of the `SetState` (if any) to the preferred target. */
  lemma CheckCallsSplit<S, E>(hasAny: bool, st: Status<S>, now: int, phase: TransitionType,
                              fromCurrent: Option<S>, fromAny: Option<S>, before: seq<Call<S, E>>, checks: seq<Call<S, E>>)
    requires checks == [Call(StateNode(st.current), Check(phase), ViewAt(st, now))]
                       + (if fromCurrent.None? && hasAny then [Call(AnyState, Check(phase), ViewAt(st, now))] else [])
    ensures before + CheckCalls(hasAny, st, now, phase, fromCurrent, fromAny)
         == before + checks + TransitionCalls(hasAny, st, now, Prefer(fromCurrent, fromAny))
  {
  }

  /** The enter calls among `calls`, i.e. how many nodes a `SetState` entered. */
  function Enters<S, E>(calls: seq<Call<S, E>>): (r: nat)
    ensures r <= |calls|
  {
    if |calls| == 0 then 0 else (if calls[0].hook == Enter then 1 else 0) + Enters(calls[1..])
  }

  /** No node entered iff no call in `calls` is an enter. */
  lemma {:induction false} EntersNone<S, E>(calls: seq<Call<S, E>>)
    ensures Enters(calls) == 0 <==> forall k :: 0 <= k < |calls| ==> calls[k].hook != Enter
    decreases |calls|
  {
    if |calls| > 0 {
      EntersNone(calls[1..]);
      assert forall k :: 1 <= k < |calls| ==> calls[k] == calls[1..][k - 1];
    }
  }

  lemma {:induction false} EntersAppend<S, E>(a: seq<Call<S, E>>, b: seq<Call<S, E>>)
    ensures Enters(a + b) == Enters(a) + Enters(b)
    decreases |a|
  {
    if |a| == 0 {
      assert a + b == b;
    } else {
      assert (a + b)[0] == a[0];
      assert (a + b)[1..] == a[1..] + b;
      EntersAppend(a[1..], b);
    }
  }

  /**
   * Tick-time resolution: only the queried phase is checked; the any-state
   * node is consulted iff it exists and the current node yielded nothing; at
   * most one `SetState` runs (its enters reach one node per participant),
   * none at all when neither yields a target, and then the state is unchanged.
   */
  lemma CheckResolution<S, E>(hasAny: bool, st: Status<S>, now: int, phase: TransitionType,
                              fromCurrent: Option<S>, fromAny: Option<S>)
    ensures var calls := CheckCalls<S, E>(hasAny, st, now, phase, fromCurrent, fromAny);
      && (forall k :: 0 <= k < |calls| && calls[k].hook.Check? ==> calls[k].hook.checked == phase)
      && (Call(AnyState, Check(phase), ViewAt(st, now)) in calls <==> hasAny && fromCurrent.None?)
      && Enters(calls) == (if Prefer(fromCurrent, fromAny).Some? then (if hasAny then 2 else 1) else 0)
    ensures Prefer(fromCurrent, fromAny).None? ==> StatusAfter(st, now, Prefer(fromCurrent, fromAny)) == st
  {
    var view := ViewAt(st, now);
    var checks: seq<Call<S, E>> := [Call(StateNode(st.current), Check(phase), view)]
      + (if fromCurrent.None? && hasAny then [Call(AnyState, Check(phase), view)] else []);
    var target := Prefer(fromCurrent, fromAny);
    var rest := TransitionCalls<S, E>(hasAny, st, now, target);
    var calls := CheckCalls<S, E>(hasAny, st, now, phase, fromCurrent, fromAny);
    assert calls == checks + rest;
    TransitionEnters<S, E>(hasAny, st, now, target);
    EntersAppend(checks, rest);
    assert Enters(checks) == 0 by {
      if |checks| == 2 {
        assert checks[1..][1..] == [];
      }
    }
    forall k | 0 <= k < |calls| ensures calls[k].hook.Check? ==> calls[k].hook.checked == phase {
      if k >= |checks| {
        assert calls[k] == rest[k - |checks|];
      }
    }
    assert Call(AnyState, Check(phase), view) in calls <==> Call(AnyState, Check(phase), view) in checks;
  }

  /** The calls of an optional `SetState` check nothing, and enter one node per participant. */
  lemma TransitionEnters<S, E>(hasAny: bool, st: Status<S>, now: int, target: Option<S>)
    ensures var rest := TransitionCalls<S, E>(hasAny, st, now, target);
      && (forall k :: 0 <= k < |rest| ==> !rest[k].hook.Check?)
      && Enters(rest) == (if target.Some? then (if hasAny then 2 else 1) else 0)
  {
    if target.Some? {
      var rest := TransitionCalls<S, E>(hasAny, st, now, target);
      var exits := OnNodes<S, E>(hasAny, st.current, Exit, ViewAt(st.(next := Some(target.value)), now));
      var enters := OnNodes<S, E>(hasAny, target.value, Enter, ViewAt(AfterSetState(st, target.value, now), now));
      assert rest == exits + enters;
      EntersAppend(exits, enters);
      if hasAny {
        assert exits[1..][1..] == [] && enters[1..][1..] == [];
      } else {
        assert exits[1..] == [] && enters[1..] == [];
      }
      forall k | 0 <= k < |rest| ensures !rest[k].hook.Check? {
        assert rest[k] == (exits + enters)[k];
      }
    }
  }

  /**
   * The calls of `TriggerEvent(e)`: the event hook of the any-state node (when
   * it exists) then of the current node, each once, then at most one
   * `SetState`, preferring the current node's target.
   */
  function EventCalls<S, E>(hasAny: bool, st: Status<S>, now: int, fsmEvent: E,
                            fromCurrent: Option<S>, fromAny: Option<S>): seq<Call<S, E>>
  {
    OnNodes(hasAny, st.current, Event(fsmEvent), ViewAt(st, now))
      + TransitionCalls(hasAny, st, now, Prefer(fromCurrent, fromAny))
  }

  /** `EventCalls` is the two event hooks, then the calls of the `SetState` (if any) to the preferred target. */
  lemma EventCallsSplit<S, E>(hasAny: bool, st: Status<S>, now: int, fsmEvent: E,
                              fromCurrent: Option<S>, fromAny: Option<S>, before: seq<Call<S, E>>)
    ensures before + EventCalls(hasAny, st, now, fsmEvent, fromCurrent, fromAny)
         == before + OnNodes(hasAny, st.current, Event(fsmEvent), ViewAt(st, now)) + TransitionCalls(hasAny, st, now, Prefer(fromCurrent, fromAny))
  {
  }

  /** `TriggerEvent`: both event hooks run before any state change, any-state first; no target, no change. */
  lemma EventResolution<S, E>(hasAny: bool, st: Status<S>, now: int, fsmEvent: E,
                              fromCurrent: Option<S>, fromAny: Option<S>)
    ensures var calls := EventCalls<S, E>(hasAny, st, now, fsmEvent, fromCurrent, fromAny);
      && calls[if hasAny then 1 else 0] == Call(StateNode(st.current), Event(fsmEvent), ViewAt(st, now))
      && (hasAny ==> calls[0] == Call(AnyState, Event(fsmEvent), ViewAt(st, now)))
      && (Prefer(fromCurrent, fromAny).None? ==> |calls| == (if hasAny then 2 else 1))
    ensures Prefer(fromCurrent, fromAny).None? ==> StatusAfter(st, now, Prefer(fromCurrent, fromAny)) == st
    ensures fromCurrent.Some? ==> StatusAfter(st, now, Prefer(fromCurrent, fromAny)).current == fromCurrent.value
  {
  }

  /** The `Initialize` calls `Initialize` makes: the any-state node's, then each node's in `order`. */
  function InitCalls<S, E>(hasAny: bool, order: seq<S>, seen: View<S>): (r: seq<Call<S, E>>)
    ensures |r| == |order| + if hasAny then 1 else 0
  {
    (if hasAny then [Call(AnyState, Init, seen)] else [])
      + seq(|order|, k requires 0 <= k < |order| => Call(StateNode(order[k]), Init, seen))
  }

  /** Initializing one more node appends exactly its call. */
  lemma InitCallsSnoc<S, E>(hasAny: bool, order: seq<S>, seen: View<S>)
    requires |order| > 0
    ensures InitCalls<S, E>(hasAny, order, seen)
         == InitCalls<S, E>(hasAny, order[..|order| - 1], seen) + [Call(StateNode(order[|order| - 1]), Init, seen)]
  {
  }

  /** The entries of a sequence are pairwise distinct. */
  ghost predicate Distinct<S>(order: seq<S>)
  {
    forall j, k :: 0 <= j < k < |order| ==> order[j] != order[k]
  }

  /** When `order` lists each node once, each node is initialized exactly once, and no other state is. */
  lemma {:induction false} InitializedOnce<S, E>(hasAny: bool, order: seq<S>, seen: View<S>, s: S)
    requires Distinct(order)
    ensures multiset(InitCalls<S, E>(hasAny, order, seen))[Call(StateNode(s), Init, seen)] == if s in order then 1 else 0
    decreases |order|
  {
    if |order| == 0 {
      assert InitCalls<S, E>(hasAny, order, seen) == if hasAny then [Call(AnyState, Init, seen)] else [];
    } else {
      var last := order[|order| - 1];
      var front := order[..|order| - 1];
      assert order == front + [last];
      assert Distinct(front);
      InitializedOnce<S, E>(hasAny, front, seen, s);
      InitCallsSnoc<S, E>(hasAny, order, seen);
      assert s == last ==> s !in front;
      var goal := Call(StateNode(s), Init, seen);
      calc {
        multiset(InitCalls<S, E>(hasAny, order, seen))[goal];
        multiset(InitCalls<S, E>(hasAny, front, seen))[goal] + multiset([Call(StateNode(last), Init, seen)])[goal];
        (if s in front then 1 else 0) + (if s == last then 1 else 0);
      }
    }
  }

  /** The node dictionary once the indexer has been read at `first` and then, if given, at `target`. */
  function Touched<S, E>(entries: map<S, Node<S, E>>, first: S, target: Option<S>): (r: map<S, Node<S, E>>)
    ensures r.Keys == entries.Keys + {first} + (if target.Some? then {target.value} else {})
  {
    var read := WithKey(entries, first, DefaultNode());
    if target.Some? then WithKey(read, target.value, DefaultNode()) else read
  }

  /** Reading the indexer keeps every stored node and adds only fresh default nodes. */
  lemma TouchedKeepsNodes<S, E>(entries: map<S, Node<S, E>>, first: S, target: Option<S>)
    ensures forall s :: s in entries ==> Touched(entries, first, target)[s] == entries[s]
    ensures forall s :: s in Touched(entries, first, target) && s !in entries ==> Touched(entries, first, target)[s] == DefaultNode()
  {
  }

  /** Reading the indexer at the same state twice is the same as once. */
  lemma TouchedAgain<S, E>(entries: map<S, Node<S, E>>, first: S, target: Option<S>)
    ensures Touched(WithKey(entries, first, DefaultNode()), first, target) == Touched(entries, first, target)
    ensures NodeOf(WithKey(entries, first, DefaultNode()), first) == NodeOf(entries, first)
  {
    GetOrCreateIdempotent(entries, first, DefaultNode(), DefaultNode());
  }

  /** True iff the any-state node or some state's node has update functions. */
  ghost predicate NeedsUpdates<S, E>(anyState: Option<Node<S, E>>, entries: map<S, Node<S, E>>)
  {
    (anyState.Some? && anyState.value.hasUpdateFunctions)
      || exists s :: s in entries && entries[s].hasUpdateFunctions
  }

  /** `state`'s node as the indexer returns it: the stored one, or a fresh default one. */
  function NodeOf<S, E>(entries: map<S, Node<S, E>>, state: S): Node<S, E>
  {
    ValueAt(entries, state, DefaultNode())
  }

  /** The any-state node's transition target, none when there is no any-state node. */
  function FromAny<S, E>(anyState: Option<Node<S, E>>, phase: TransitionType, seen: View<S>): Option<S>
  {
    if anyState.Some? then anyState.value.checkAutoTransitions(phase, seen) else None
  }

  /** The any-state node's event target, none when there is no any-state node. */
  function FromAnyEvent<S, E>(anyState: Option<Node<S, E>>, fsmEvent: E, seen: View<S>): Option<S>
  {
    if anyState.Some? then anyState.value.triggerEvent(fsmEvent, seen) else None
  }

  class StateMachine<S(==), E> {
    var currentState: S
    var previousState: Option<S>
    var nextState: Option<S>
    var currentStateEnterTime: int
    var hasUpdateFunctions: bool
    var anyState: Option<Node<S, E>>
    const stateBehaviours: Dictionary<S, Node<S, E>>
    const stateMachineManager: StateMachineManager<object>
    ghost var trace: seq<Call<S, E>>

    function Fields(): Status<S>
      reads this
    {
      Status(currentState, previousState, nextState, currentStateEnterTime)
    }

    /** A machine in `initialState` (the state type's default) with no nodes and no any-state node. */
    constructor (manager: StateMachineManager<object>, initialState: S)
      ensures stateMachineManager == manager && fresh(stateBehaviours)
      ensures Fields() == Status(initialState, None, None, 0)
      ensures !hasUpdateFunctions && anyState == None && stateBehaviours.entries == map[] && trace == []
    {
      currentState := initialState;
      previousState := None;
      nextState := None;
      currentStateEnterTime := 0;
      hasUpdateFunctions := false;
      anyState := None;
      stateBehaviours := new Dictionary();
      stateMachineManager := manager;
      trace := [];
    }

    /** The indexer's getter: `state`'s node, inserting a fresh default node if it has none. */
    method Get(state: S) returns (node: Node<S, E>)
      modifies stateBehaviours
      ensures stateBehaviours.entries == WithKey(old(stateBehaviours.entries), state, DefaultNode())
      ensures node == NodeOf(old(stateBehaviours.entries), state)
      ensures state in old(stateBehaviours.entries) ==> stateBehaviours.entries == old(stateBehaviours.entries)
    {
      node := stateBehaviours.GetOrCreate(state, DefaultNode());
    }

    /** The indexer's setter: stores `node` under `state`, replacing any node there. */
    method Set(state: S, node: Node<S, E>)
      modifies stateBehaviours
      ensures stateBehaviours.entries == old(stateBehaviours.entries)[state := node]
    {
      stateBehaviours.Set(state, node);
    }

    /** Reading `AnyState` creates the any-state node on first use. */
    method GetAnyState() returns (node: Node<S, E>)
      modifies this
      ensures old(anyState).Some? ==> anyState == old(anyState) && node == old(anyState).value
      ensures old(anyState).None? ==> anyState == Some(DefaultNode()) && node == DefaultNode()
      ensures Fields() == old(Fields()) && hasUpdateFunctions == old(hasUpdateFunctions) && trace == old(trace)
    {
      if anyState.None? {
        anyState := Some(DefaultNode());
      }
      node := anyState.value;
    }

    /** Writing `AnyState`; `None` removes the any-state node. */
    method SetAnyState(node: Option<Node<S, E>>)
      modifies this
      ensures anyState == node
      ensures Fields() == old(Fields()) && hasUpdateFunctions == old(hasUpdateFunctions) && trace == old(trace)
    {
      anyState := node;
    }

    /** Whether the machine needs to be ticked: the any-state node first, then each node. */
    method CheckForUpdateFunctions() returns (r: bool)
      ensures r <==> NeedsUpdates(anyState, stateBehaviours.entries)
    {
      if anyState.Some? && anyState.value.hasUpdateFunctions {
        return true;
      }
      var entries := stateBehaviours.entries;
      var remaining := entries.Keys;
      while remaining != {}
        invariant remaining <= entries.Keys
        invariant forall s :: s in entries && s !in remaining ==> !entries[s].hasUpdateFunctions
        decreases remaining
      {
        var s :| s in remaining;
        if entries[s].hasUpdateFunctions {
          return true;
        }
        remaining := remaining - {s};
      }
      return false;
    }

    /**
     * The flag is computed and the machine registered (iff it is set) first;
     * then every node is initialized once, the any-state node first and the
     * others in the dictionary's enumeration order (`order`, unspecified);
     * then the initial state is entered at time `now`.
     */
    method Initialize(initialState: S, now: int) returns (ghost order: seq<S>)
      modifies this, stateBehaviours, stateMachineManager
      ensures hasUpdateFunctions == NeedsUpdates(old(anyState), old(stateBehaviours.entries))
      ensures stateMachineManager.stateMachines
           == if hasUpdateFunctions then old(stateMachineManager.stateMachines) + [this] else old(stateMachineManager.stateMachines)
      ensures stateMachineManager.ticks == old(stateMachineManager.ticks)
      ensures Distinct(order) && |order| == |old(stateBehaviours.entries)|
      ensures forall s :: s in order <==> s in old(stateBehaviours.entries)
      ensures Fields() == Status(initialState, old(previousState), old(nextState), now)
      ensures anyState == old(anyState)
      ensures trace == old(trace) + InitCalls(anyState.Some?, order, ViewAt(old(Fields()), now))
                                   + OnNodes(anyState.Some?, initialState, Enter, ViewAt(Fields(), now))
      ensures stateBehaviours.entries == WithKey(old(stateBehaviours.entries), initialState, DefaultNode())
    {
      ghost var entries := stateBehaviours.entries;
      RegisterIfNeeded();
      ghost var registered := stateMachineManager.stateMachines;
      ghost var ticks := stateMachineManager.ticks;
      order := InitializeNodes(now);
      assert stateBehaviours.entries == entries;
      EnterInitial(initialState, now);
      assert stateMachineManager.stateMachines == registered && stateMachineManager.ticks == ticks;
    }

    /** Computes the flag and, iff it is set, registers the machine with the manager. */
    method RegisterIfNeeded()
      modifies this, stateMachineManager
      ensures hasUpdateFunctions == NeedsUpdates(anyState, stateBehaviours.entries)
      ensures stateMachineManager.stateMachines
           == if hasUpdateFunctions then old(stateMachineManager.stateMachines) + [this] else old(stateMachineManager.stateMachines)
      ensures stateMachineManager.ticks == old(stateMachineManager.ticks)
      ensures Fields() == old(Fields()) && anyState == old(anyState) && trace == old(trace)
    {
      hasUpdateFunctions := CheckForUpdateFunctions();
      if hasUpdateFunctions {
        stateMachineManager.Register(this);
      }
    }

    /** Makes `initialState` current, entered at `now`, and runs the enter hooks on it. */
    method EnterInitial(initialState: S, now: int)
      modifies this, stateBehaviours
      ensures Fields() == old(Fields()).(current := initialState, enteredAt := now)
      ensures trace == old(trace) + OnNodes(anyState.Some?, initialState, Enter, ViewAt(Fields(), now))
      ensures anyState == old(anyState) && hasUpdateFunctions == old(hasUpdateFunctions)
      ensures stateBehaviours.entries == WithKey(old(stateBehaviours.entries), initialState, DefaultNode())
    {
      currentState := initialState;
      currentStateEnterTime := now;
      DoEnter(now);
    }

    /**
     * `Initialize` on the any-state node, then on each node in the dictionary's
     * enumeration order `order`, which lists every state with a node once.
     */
    method InitializeNodes(now: int) returns (ghost order: seq<S>)
      modifies this
      ensures Distinct(order) && |order| == |stateBehaviours.entries|
      ensures forall s :: s in order <==> s in stateBehaviours.entries
      ensures trace == old(trace) + InitCalls(anyState.Some?, order, ViewAt(Fields(), now))
      ensures Fields() == old(Fields()) && anyState == old(anyState) && hasUpdateFunctions == old(hasUpdateFunctions)
    {
      ghost var seen := ViewAt(Fields(), now);
      if anyState.Some? {
        trace := trace + [Call(AnyState, Init, seen)];
      }
      var entries := stateBehaviours.entries;
      var remaining := entries.Keys;
      order := [];
      while remaining != {}
        invariant remaining <= entries.Keys
        invariant Distinct(order) && |order| + |remaining| == |entries|
        invariant forall s :: s in order <==> s in entries && s !in remaining
        invariant trace == old(trace) + InitCalls(anyState.Some?, order, seen)
        invariant Fields() == old(Fields()) && anyState == old(anyState) && hasUpdateFunctions == old(hasUpdateFunctions)
        decreases remaining
      {
        var s :| s in remaining;
        assert InitCalls<S, E>(anyState.Some?, order + [s], seen)
            == InitCalls<S, E>(anyState.Some?, order, seen) + [Call(StateNode(s), Init, seen)];
        trace := trace + [Call(StateNode(s), Init, seen)];
        order := order + [s];
        remaining := remaining - {s};
      }
    }

    /** Exits the current state, clears previous and next, and deregisters iff the flag is set. */
    method Close(now: int)
      modifies this, stateBehaviours, stateMachineManager
      ensures Fields() == Status(old(currentState), None, None, old(currentStateEnterTime))
      ensures trace == old(trace) + OnNodes(anyState.Some?, old(currentState), Exit, ViewAt(old(Fields()), now))
      ensures stateMachineManager.stateMachines
           == if hasUpdateFunctions then RemoveFirst(old(stateMachineManager.stateMachines), this) else old(stateMachineManager.stateMachines)
      ensures stateMachineManager.ticks == old(stateMachineManager.ticks)
      ensures anyState == old(anyState) && hasUpdateFunctions == old(hasUpdateFunctions)
      ensures stateBehaviours.entries == WithKey(old(stateBehaviours.entries), old(currentState), DefaultNode())
    {
      DoExit(now);
      previousState := None;
      nextState := None;
      if hasUpdateFunctions {
        stateMachineManager.Deregister(this);
      }
    }

    /** Enter on the any-state node (if any), then on the current state's node. */
    method DoEnter(now: int)
      modifies this, stateBehaviours
      ensures trace == old(trace) + OnNodes(anyState.Some?, currentState, Enter, ViewAt(Fields(), now))
      ensures Fields() == old(Fields()) && anyState == old(anyState) && hasUpdateFunctions == old(hasUpdateFunctions)
      ensures stateBehaviours.entries == WithKey(old(stateBehaviours.entries), currentState, DefaultNode())
    {
      ghost var seen := ViewAt(Fields(), now);
      if anyState.Some? {
        trace := trace + [Call(AnyState, Enter, seen)];
      }
      var node := Get(currentState);
      trace := trace + [Call(StateNode(currentState), Enter, seen)];
    }

    /** Exit on the any-state node (if any), then on the current state's node. */
    method DoExit(now: int)
      modifies this, stateBehaviours
      ensures trace == old(trace) + OnNodes(anyState.Some?, currentState, Exit, ViewAt(Fields(), now))
      ensures Fields() == old(Fields()) && anyState == old(anyState) && hasUpdateFunctions == old(hasUpdateFunctions)
      ensures stateBehaviours.entries == WithKey(old(stateBehaviours.entries), currentState, DefaultNode())
    {
      ghost var seen := ViewAt(Fields(), now);
      if anyState.Some? {
        trace := trace + [Call(AnyState, Exit, seen)];
      }
      var node := Get(currentState);
      trace := trace + [Call(StateNode(currentState), Exit, seen)];
    }

    /**
     * Exits the current state with `newState` as the next state, then moves
     * the current state to the previous one and enters `newState` at `now`.
     */
    method SetState(newState: S, now: int)
      modifies this, stateBehaviours
      ensures Fields() == AfterSetState(old(Fields()), newState, now)
      ensures trace == old(trace) + SetStateCalls(anyState.Some?, old(Fields()), newState, now)
      ensures anyState == old(anyState) && hasUpdateFunctions == old(hasUpdateFunctions)
      ensures stateBehaviours.entries == Touched(old(stateBehaviours.entries), old(currentState), Some(newState))
    {
      ghost var st := Fields();
      nextState := Some(newState);
      DoExit(now);
      ghost var exited := trace;
      assert exited == old(trace) + OnNodes(anyState.Some?, st.current, Exit, ViewAt(st.(next := Some(newState)), now));
      nextState := None;
      previousState := Some(currentState);
      currentState := newState;
      currentStateEnterTime := now;
      assert Fields() == AfterSetState(st, newState, now);
      DoEnter(now);
      SetStateCallsSplit<S, E>(anyState.Some?, st, newState, now, old(trace));
    }

    /** `phase`'s tick on the any-state node (if any), then on the current state's node. */
    method Tick(phase: TransitionType, now: int)
      modifies this, stateBehaviours
      ensures trace == old(trace) + OnNodes(anyState.Some?, currentState, Hook.Tick(phase), ViewAt(Fields(), now))
      ensures Fields() == old(Fields()) && anyState == old(anyState) && hasUpdateFunctions == old(hasUpdateFunctions)
      ensures stateBehaviours.entries == WithKey(old(stateBehaviours.entries), currentState, DefaultNode())
    {
      ghost var seen := ViewAt(Fields(), now);
      if anyState.Some? {
        trace := trace + [Call(AnyState, Hook.Tick(phase), seen)];
      }
      var node := Get(currentState);
      trace := trace + [Call(StateNode(currentState), Hook.Tick(phase), seen)];
    }

    /**
     * The current node's rules for `phase`; the any-state node's only if those
     * yield nothing. Returns the target found, if any; nothing changes state.
     */
    method ResolveAutoTransition(phase: TransitionType, now: int) returns (target: Option<S>)
      modifies this, stateBehaviours
      ensures var seen := ViewAt(old(Fields()), now);
        target == Prefer(NodeOf(old(stateBehaviours.entries), old(currentState)).checkAutoTransitions(phase, seen),
                         FromAny(anyState, phase, seen))
      ensures var seen := ViewAt(old(Fields()), now);
        trace == old(trace) + [Call(StateNode(old(currentState)), Check(phase), seen)]
          + (if NodeOf(old(stateBehaviours.entries), old(currentState)).checkAutoTransitions(phase, seen).None? && anyState.Some?
             then [Call(AnyState, Check(phase), seen)] else [])
      ensures Fields() == old(Fields()) && anyState == old(anyState) && hasUpdateFunctions == old(hasUpdateFunctions)
      ensures stateBehaviours.entries == WithKey(old(stateBehaviours.entries), currentState, DefaultNode())
    {
      ghost var seen := ViewAt(Fields(), now);
      var node := Get(currentState);
      trace := trace + [Call(StateNode(currentState), Check(phase), seen)];
      target := node.checkAutoTransitions(phase, ViewAt(Fields(), now));
      if target.None? && anyState.Some? {
        trace := trace + [Call(AnyState, Check(phase), seen)];
        target := anyState.value.checkAutoTransitions(phase, ViewAt(Fields(), now));
      }
    }

    /** The target `ResolveAutoTransition` finds, then a `SetState` to it if there is one. */
    method CheckForAutoTransitions(phase: TransitionType, now: int)
      modifies this, stateBehaviours
      ensures var seen := ViewAt(old(Fields()), now);
        var fromCurrent := NodeOf(old(stateBehaviours.entries), old(currentState)).checkAutoTransitions(phase, seen);
        var fromAny := FromAny(anyState, phase, seen);
        && trace == old(trace) + CheckCalls(anyState.Some?, old(Fields()), now, phase, fromCurrent, fromAny)
        && Fields() == StatusAfter(old(Fields()), now, Prefer(fromCurrent, fromAny))
        && stateBehaviours.entries == Touched(old(stateBehaviours.entries), old(currentState), Prefer(fromCurrent, fromAny))
      ensures anyState == old(anyState) && hasUpdateFunctions == old(hasUpdateFunctions)
    {
      ghost var st := Fields();
      ghost var seen := ViewAt(st, now);
      ghost var fromCurrent := NodeOf(stateBehaviours.entries, st.current).checkAutoTransitions(phase, seen);
      ghost var fromAny := FromAny(anyState, phase, seen);
      var transitionResult := ResolveAutoTransition(phase, now);
      ghost var checked := trace;
      if transitionResult.Some? {
        SetState(transitionResult.value, now);
      }
      assert trace == checked + TransitionCalls<S, E>(anyState.Some?, st, now, transitionResult);
      CheckCallsSplit(anyState.Some?, st, now, phase, fromCurrent, fromAny, old(trace),
                      checked[|old(trace)|..]);
    }

    /** Ticks for `phase` followed by a transition check for the same phase only. */
    method DoPhase(phase: TransitionType, now: int)
      modifies this, stateBehaviours
      ensures var seen := ViewAt(old(Fields()), now);
        var fromCurrent := NodeOf(old(stateBehaviours.entries), old(currentState)).checkAutoTransitions(phase, seen);
        var fromAny := FromAny(anyState, phase, seen);
        && trace == old(trace) + OnNodes(anyState.Some?, old(currentState), Hook.Tick(phase), seen)
                               + CheckCalls(anyState.Some?, old(Fields()), now, phase, fromCurrent, fromAny)
        && Fields() == StatusAfter(old(Fields()), now, Prefer(fromCurrent, fromAny))
        && stateBehaviours.entries == Touched(old(stateBehaviours.entries), old(currentState), Prefer(fromCurrent, fromAny))
      ensures anyState == old(anyState) && hasUpdateFunctions == old(hasUpdateFunctions)
    {
      Tick(phase, now);
      CheckForAutoTransitions(phase, now);
    }

    method DoUpdate(now: int)
      modifies this, stateBehaviours
      ensures var seen := ViewAt(old(Fields()), now);
        var fromCurrent := NodeOf(old(stateBehaviours.entries), old(currentState)).checkAutoTransitions(TransitionType.Update, seen);
        var fromAny := FromAny(anyState, TransitionType.Update, seen);
        && trace == old(trace) + OnNodes(anyState.Some?, old(currentState), Hook.Tick(TransitionType.Update), seen)
                               + CheckCalls(anyState.Some?, old(Fields()), now, TransitionType.Update, fromCurrent, fromAny)
        && Fields() == StatusAfter(old(Fields()), now, Prefer(fromCurrent, fromAny))
        && stateBehaviours.entries == Touched(old(stateBehaviours.entries), old(currentState), Prefer(fromCurrent, fromAny))
      ensures anyState == old(anyState) && hasUpdateFunctions == old(hasUpdateFunctions)
    {
      DoPhase(TransitionType.Update, now);
    }

    method DoFixedUpdate(now: int)
      modifies this, stateBehaviours
      ensures var seen := ViewAt(old(Fields()), now);
        var fromCurrent := NodeOf(old(stateBehaviours.entries), old(currentState)).checkAutoTransitions(TransitionType.FixedUpdate, seen);
        var fromAny := FromAny(anyState, TransitionType.FixedUpdate, seen);
        && trace == old(trace) + OnNodes(anyState.Some?, old(currentState), Hook.Tick(TransitionType.FixedUpdate), seen)
                               + CheckCalls(anyState.Some?, old(Fields()), now, TransitionType.FixedUpdate, fromCurrent, fromAny)
        && Fields() == StatusAfter(old(Fields()), now, Prefer(fromCurrent, fromAny))
        && stateBehaviours.entries == Touched(old(stateBehaviours.entries), old(currentState), Prefer(fromCurrent, fromAny))
      ensures anyState == old(anyState) && hasUpdateFunctions == old(hasUpdateFunctions)
    {
      DoPhase(TransitionType.FixedUpdate, now);
    }

    method DoLateUpdate(now: int)
      modifies this, stateBehaviours
      ensures var seen := ViewAt(old(Fields()), now);
        var fromCurrent := NodeOf(old(stateBehaviours.entries), old(currentState)).checkAutoTransitions(TransitionType.LateUpdate, seen);
        var fromAny := FromAny(anyState, TransitionType.LateUpdate, seen);
        && trace == old(trace) + OnNodes(anyState.Some?, old(currentState), Hook.Tick(TransitionType.LateUpdate), seen)
                               + CheckCalls(anyState.Some?, old(Fields()), now, TransitionType.LateUpdate, fromCurrent, fromAny)
        && Fields() == StatusAfter(old(Fields()), now, Prefer(fromCurrent, fromAny))
        && stateBehaviours.entries == Touched(old(stateBehaviours.entries), old(currentState), Prefer(fromCurrent, fromAny))
      ensures anyState == old(anyState) && hasUpdateFunctions == old(hasUpdateFunctions)
    {
      DoPhase(TransitionType.LateUpdate, now);
    }

    /**
     * Both nodes' event hooks run, the any-state node's first; then a
     * `SetState` to the current node's target, or else the any-state node's.
     */
    method TriggerEvent(fsmEvent: E, now: int)
      modifies this, stateBehaviours
      ensures var seen := ViewAt(old(Fields()), now);
        var fromCurrent := NodeOf(old(stateBehaviours.entries), old(currentState)).triggerEvent(fsmEvent, seen);
        var fromAny := FromAnyEvent(anyState, fsmEvent, seen);
        && trace == old(trace) + EventCalls(anyState.Some?, old(Fields()), now, fsmEvent, fromCurrent, fromAny)
        && Fields() == StatusAfter(old(Fields()), now, Prefer(fromCurrent, fromAny))
        && stateBehaviours.entries == Touched(old(stateBehaviours.entries), old(currentState), Prefer(fromCurrent, fromAny))
      ensures anyState == old(anyState) && hasUpdateFunctions == old(hasUpdateFunctions)
    {
      ghost var seen := ViewAt(Fields(), now);
      var anyStateNextState: Option<S> := None;
      if anyState.Some? {
        trace := trace + [Call(AnyState, Event(fsmEvent), seen)];
        anyStateNextState := anyState.value.triggerEvent(fsmEvent, ViewAt(Fields(), now));
      }
      var node := Get(currentState);
      trace := trace + [Call(StateNode(currentState), Event(fsmEvent), seen)];
      var behaviourNextState := node.triggerEvent(fsmEvent, ViewAt(Fields(), now));
      assert trace == old(trace) + OnNodes(anyState.Some?, old(currentState), Event(fsmEvent), seen);
      ghost var hooked := trace;
      var target := if behaviourNextState.Some? then behaviourNextState else anyStateNextState;
      if target.Some? {
        SetState(target.value, now);
      }
      assert trace == hooked + TransitionCalls(anyState.Some?, old(Fields()), now, target);
      EventCallsSplit(anyState.Some?, old(Fields()), now, fsmEvent, behaviourNextState, anyStateNextState, old(trace));
    }
  }
}
