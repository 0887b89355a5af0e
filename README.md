# SUSMachine runtime, modelled in Dafny

SUSMachine is a table-driven finite-state machine package for Unity. A
`StateMachine` holds a current, previous and next state, the time the current
state was entered, one node per state (created on first use) and an optional
any-state node. The any-state node is called before the current node for
enter, exit, tick and event calls (on an event the current node's target still
wins). For transition checks it is called after the current node, and only
when that node yields no target. Nodes carry
transition tables: ordered lists of rules, one list per engine phase
(`Update`, `FixedUpdate`, `LateUpdate`) or per event, evaluated
first-match-wins. A machine with update functions registers with the
`StateMachineManager`, which ticks every registered machine, in list order,
once per phase. A `Cache` binds up to six cached values to members of an event
enumeration and dispatches the bound event while a value is set.

The project lives in `src/`, one module per runtime file plus three shared
modules:

- `wrappers.dfy` (`Wrappers`): `Option`, `Result` and `Outcome`. `None` stands
  for C#'s `null` and "no transition". `Err`/`Fail` stand for a thrown
  exception.
- `transition_types.dfy` (`TransitionTypes`): the phase enumeration. The
  runtime declares it twice, with the same members.
- `rules.dfy` (`Rules`): the first-match specification `FirstMatch` and the
  evaluation loop `Evaluate` that every table runs.
- `extensions.dfy` (`Extensions`): `GetOrCreate` and a mutable `Dictionary`.
- `transitions_base.dfy` (`TransitionTable`), `stateless_transitions.dfy`
  (`Stateless`), `stateful_transitions.dfy` (`Stateful`): the newer tables.
  The subclassing of `TransitionsBase` is written as composition, with a
  `base` table object. The event-free and event-enabled classes of each kind
  are one class, and the event-free one is that class with no event rules.
- `auto_transitions.dfy` (`Auto`), `state_behaviour.dfy` (`Behaviour`): the
  older table and node.
- `state_machine_manager.dfy` (`Manager`): the scheduler registry.
- `finite_state_machine.dfy` (`Fsm`): the orchestrator.
- `cache.dfy` (`Caching`): the event cache.

How the model treats the runtime:

- Callbacks into user code are never executed. Each one is recorded, in order,
  in a ghost log: the machine's `trace`, the manager's `ticks`, a behaviour's
  `invocations` and a cache's `dispatched`. Each entry records what the callee
  could observe at that moment.
- The engine clock is an integer `now`, passed to each operation that reads
  it.
- A node of the orchestrator (`Stateless<T>`, whose class is not part of this
  model) is a value. It carries whether the node has update functions and the
  target its transition rules and event rules yield on the machine's
  observable state (`View`).
- A rule is a pure function of the machine handle and, for stateful tables,
  the data. The machine and data type parameters are declared `(!new)`, so a
  rule's argument is a value, not a heap object. `TData` is a C# `struct`
  anyway. The machine is a reference in C#, but rules only pass it to user
  predicates.
- The order in which a dictionary enumerates its values is left unspecified.
  `Initialize` returns it as the ghost sequence `order`.

Where the runtime's behaviour might be read otherwise, the model follows the
code:

- `TriggerEvent` calls the any-state node's event hook before the current
  node's hook (`FiniteStateMachine.cs:261-262`).
- `Deregister` removes the machine from the list at once. There is no
  pending-removal set (`StateMachineManager.cs:19-20`).
- `SetState` runs the full exit/enter cycle even when the new state is the
  current one (`FiniteStateMachine.cs:173-184`).
- `Initialize` computes the registration flag and registers the machine before
  any node is initialized (`FiniteStateMachine.cs:63-79`).
- `CurrentStateBehaviourBase` goes through the indexer, and so through
  `GetOrCreate`. Entering, exiting, ticking or checking a state with no node
  therefore inserts a fresh default node. That node is never initialized,
  because nodes are initialized only inside `Initialize`.
- A stateful table with no data container raises a null dereference only when
  it reaches a rule. Checking a phase or event with no rules returns null
  without error (`StatefulTransitions.cs:46-51`).
- `CacheValue.Trigger` does not reset `Value` when the dispatch throws
  (`Cache.cs:19-24`).
- The constructors compute `index - 1` and `index + 1` in unchecked `int`
  arithmetic, C#'s default. A one-value cache with index `int.MaxValue`
  therefore passes its length check, because `index + 1` wraps to
  `int.MinValue` (`Cache.cs:50-54`, `Caching.MaxIndexAccepted`).
- `EnumLengthCheck` has no lower bound. A constructor chain whose last index
  is too small is accepted, and binds the first value to a negative index that
  fails only when it is triggered (`Caching.SmallIndexAccepted`).

## Model

All source paths are under `Packages/com.kdmagical.susmachine/Runtime/`.

| member | source | states |
|---|---|---|
| `Rules.Evaluate` | Packages/com.kdmagical.susmachine/Runtime/Transitions/StatelessTransitions.cs:36-43 | The loop returns the first-match result. It invokes exactly the rules up to and including the first non-null one (`evaluated` of them). A null result means every rule yielded null and all were invoked. |
| `Rules.FirstMatchIsFirst` | Packages/com.kdmagical.susmachine/Runtime/Transitions/StatelessTransitions.cs:36-41 | If rule `k` is the first non-null one, the result is rule `k`'s, whatever later rules yield. |
| `Rules.FirstMatchHasWitness` | Packages/com.kdmagical.susmachine/Runtime/Transitions/StatelessTransitions.cs:36-41 | A non-null result comes from some rule, and every rule before it yields null. |
| `Rules.FirstMatchNone` | Packages/com.kdmagical.susmachine/Runtime/Transitions/StatelessTransitions.cs:36-43 | The result is null iff every rule yields null, both directions. An empty list yields null. |
| `Rules.FirstMatchAppend` | Packages/com.kdmagical.susmachine/Runtime/Transitions/TransitionsBase.cs:36-39 | Appending a rule changes a check's result only when no earlier rule matched, and then the result is the new rule's. |
| `Rules.Conditional` | Packages/com.kdmagical.susmachine/Runtime/Transitions/StatelessTransitions.cs:17-24 | A conditional rule yields its target iff its condition holds of the machine, and null otherwise. |
| `Rules.Always` | Packages/com.kdmagical.susmachine/Runtime/Transitions/StatelessTransitions.cs:72-75 | A direct-target rule yields its state whatever machine it is given. |
| `Rules.AlwaysFirstWins` | Packages/com.kdmagical.susmachine/Runtime/Transitions/StatelessTransitions.cs:72-75 | A direct-target rule always yields its state. At the head of a list it decides the check. |
| `Extensions.WithKey` | Packages/com.kdmagical.susmachine/Runtime/Util/Extensions.cs:9-13 | After `GetOrCreate`, the keys are the old keys plus the key. Every old value is kept. An absent key now holds the fresh value. |
| `Extensions.ValueAt` | Packages/com.kdmagical.susmachine/Runtime/Util/Extensions.cs:9-14 | `GetOrCreate` returns the stored value for a present key and the fresh value for an absent one. |
| `Extensions.ValueIsStored` | Packages/com.kdmagical.susmachine/Runtime/Util/Extensions.cs:12-14 | After the call, the returned value is the one stored under the key. |
| `Extensions.GetOrCreateIdempotent` | Packages/com.kdmagical.susmachine/Runtime/Util/Extensions.cs:7-25 | A second call with the same key returns the same value and changes nothing, whichever default either overload would make. |
| `Extensions.Dictionary.GetOrCreate` | Packages/com.kdmagical.susmachine/Runtime/Util/Extensions.cs:7-25 | Both overloads: a present key returns its value and leaves the dictionary unchanged. An absent key gets the fresh value inserted and returned. |
| `Extensions.Dictionary.Set` | Packages/com.kdmagical.susmachine/Runtime/FiniteStateMachine.cs:195 | The indexer's setter inserts or replaces one entry. |
| `TransitionTable.Appended` | Packages/com.kdmagical.susmachine/Runtime/Transitions/TransitionsBase.cs:36-39 | The rule goes at the end of the key's list. Dictionary and list are created when missing. Every other key keeps its list. |
| `TransitionTable.AppendedKeepsOthers` | Packages/com.kdmagical.susmachine/Runtime/Transitions/TransitionsBase.cs:36-39 | Adding to one phase leaves every other phase's rules unchanged. |
| `TransitionTable.AddMakesHasRules` | Packages/com.kdmagical.susmachine/Runtime/Transitions/TransitionsBase.cs:48-61 | After any `Add`, some phase list is non-empty. There is no removal, so `HasUpdateFunctions` stays true. |
| `TransitionTable.TransitionsBase.constructor` | Packages/com.kdmagical.susmachine/Runtime/Transitions/TransitionsBase.cs:26-29 | A new table has no dictionary and no machine, so `HasUpdateFunctions` reports false until the first `Add`. |
| `TransitionTable.TransitionsBase.Initialize` | Packages/com.kdmagical.susmachine/Runtime/Transitions/TransitionsBase.cs:31-34 | Records the machine and leaves the rule lists untouched. |
| `TransitionTable.TransitionsBase.Add` | Packages/com.kdmagical.susmachine/Runtime/Transitions/TransitionsBase.cs:36-39 | Appends to the phase's list, creating dictionary and list as needed. The default phase is `Update`. |
| `TransitionTable.TransitionsBase.HasUpdateFunctions` | Packages/com.kdmagical.susmachine/Runtime/Transitions/TransitionsBase.cs:48-61 | True iff the dictionary exists and some phase list is non-empty. |
| `Stateless.StatelessTransitions.AddConditional` | Packages/com.kdmagical.susmachine/Runtime/Transitions/StatelessTransitions.cs:17-24 | Appends a conditional rule to the phase's list through the base table. |
| `Stateless.StatelessTransitions.CheckTransitions` | Packages/com.kdmagical.susmachine/Runtime/Transitions/StatelessTransitions.cs:31-44 | First match over the queried phase's rules only, on the stored machine. Evaluation stops at the first non-null result. With no rules for the phase the result is null and nothing is evaluated. Event rules are never consulted. |
| `Stateless.StatelessTransitions.AddEvent` | Packages/com.kdmagical.susmachine/Runtime/Transitions/StatelessTransitions.cs:56-59 | Appends to the event's list in the separate event dictionary. The phase rules are unchanged, so `HasUpdateFunctions` is not affected. |
| `Stateless.StatelessTransitions.AddEventConditional` | Packages/com.kdmagical.susmachine/Runtime/Transitions/StatelessTransitions.cs:62-69 | Appends a conditional event rule. The phase rules are unchanged. |
| `Stateless.StatelessTransitions.AddEventTarget` | Packages/com.kdmagical.susmachine/Runtime/Transitions/StatelessTransitions.cs:72-75 | Appends a rule that always yields the state. The phase rules are unchanged. |
| `Stateless.StatelessTransitions.CheckEventTransitions` | Packages/com.kdmagical.susmachine/Runtime/Transitions/StatelessTransitions.cs:77-90 | First match over the event's rules. Null when there is no dictionary or no entry for the event. |
| `Stateful.Convert` | Packages/com.kdmagical.susmachine/Runtime/Transitions/StatefulTransitions.cs:121-126 | A converted rule returns the original's result for every data value. |
| `Stateful.DataConditional` | Packages/com.kdmagical.susmachine/Runtime/Transitions/StatefulTransitions.cs:26-33 | A data-predicate rule yields its target iff `condition(machine, data)` holds, and null otherwise. |
| `Stateful.MachineConditional` | Packages/com.kdmagical.susmachine/Runtime/Transitions/StatefulTransitions.cs:35-42 | A machine-predicate rule gives, for every data value, the stateless conditional rule's result, so the data never matters. |
| `Stateful.AlwaysTo` | Packages/com.kdmagical.susmachine/Runtime/Transitions/StatefulTransitions.cs:100-103 | A direct-target stateful rule yields its state whatever machine and data it is given. |
| `Stateful.WithData` | Packages/com.kdmagical.susmachine/Runtime/Transitions/StatefulTransitions.cs:51 | Each rule receives the machine and the container's current data, and returns what the stateful rule returns on them. |
| `Stateful.ConvertedListIgnoresData` | Packages/com.kdmagical.susmachine/Runtime/Transitions/StatefulTransitions.cs:21-24 | A phase list made only of converted stateless rules checks exactly as the stateless list does, whatever the data. |
| `Stateful.CheckOutcome` | Packages/com.kdmagical.susmachine/Runtime/Transitions/StatefulTransitions.cs:44-57 | A check fails with a null dereference iff there is no container and the list is non-empty. Otherwise it is first match on the current data, and null for an empty list. |
| `Stateful.StatefulTransitions.SetDataContainer` | Packages/com.kdmagical.susmachine/Runtime/Transitions/StatefulTransitions.cs:16-19 | Stores the container; the event rules are untouched. |
| `Stateful.StatefulTransitions.AddLifted` | Packages/com.kdmagical.susmachine/Runtime/Transitions/StatefulTransitions.cs:21-24 | Appends the converted stateless rule to the phase's list. |
| `Stateful.StatefulTransitions.AddDataConditional` | Packages/com.kdmagical.susmachine/Runtime/Transitions/StatefulTransitions.cs:26-33 | Appends a data-predicate rule to the phase's list. |
| `Stateful.StatefulTransitions.AddConditional` | Packages/com.kdmagical.susmachine/Runtime/Transitions/StatefulTransitions.cs:35-42 | Appends a machine-predicate rule to the phase's list. |
| `Stateful.StatefulTransitions.Check` | Packages/com.kdmagical.susmachine/Runtime/Transitions/StatefulTransitions.cs:49-56 | The shared loop: first match on the stored machine and current data, stopping at the first non-null result. It raises a null dereference on a missing container. |
| `Stateful.StatefulTransitions.CheckTransitions` | Packages/com.kdmagical.susmachine/Runtime/Transitions/StatefulTransitions.cs:44-57 | The `CheckOutcome` of the queried phase's rules. A phase with no rules gives null. |
| `Stateful.StatefulTransitions.AddEvent` | Packages/com.kdmagical.susmachine/Runtime/Transitions/StatefulTransitions.cs:70-73 | Appends a stateful rule to the event's list. The phase rules and the container are unchanged. |
| `Stateful.StatefulTransitions.AddEventLifted` | Packages/com.kdmagical.susmachine/Runtime/Transitions/StatefulTransitions.cs:75-78 | Appends a converted stateless rule to the event's list. |
| `Stateful.StatefulTransitions.AddEventDataConditional` | Packages/com.kdmagical.susmachine/Runtime/Transitions/StatefulTransitions.cs:81-88 | Appends a data-predicate rule to the event's list. |
| `Stateful.StatefulTransitions.AddEventConditional` | Packages/com.kdmagical.susmachine/Runtime/Transitions/StatefulTransitions.cs:90-97 | Appends a machine-predicate rule to the event's list. |
| `Stateful.StatefulTransitions.AddEventTarget` | Packages/com.kdmagical.susmachine/Runtime/Transitions/StatefulTransitions.cs:100-103 | Appends a rule that always yields the state. |
| `Stateful.StatefulTransitions.CheckEventTransitions` | Packages/com.kdmagical.susmachine/Runtime/Transitions/StatefulTransitions.cs:105-118 | The `CheckOutcome` of the event's rules. Null when there is no dictionary or no entry. |
| `Auto.AddedTo` | Packages/com.kdmagical.susmachine/Runtime/AutoTransitions.cs:34-40 | The phase's list is created if missing and the rule is appended at its end. The other phases are unchanged. |
| `Auto.AddedToCheck` | Packages/com.kdmagical.susmachine/Runtime/AutoTransitions.cs:34-73 | After an `Add`, checking that phase gives the earlier result if there was one, and the new rule's otherwise. Other phases' lists are unchanged. |
| `Auto.AutoTransitions.constructor` | Packages/com.kdmagical.susmachine/Runtime/AutoTransitions.cs:24-27 | An empty dictionary and no machine. |
| `Auto.AutoTransitions.Initialize` | Packages/com.kdmagical.susmachine/Runtime/AutoTransitions.cs:29-32 | Records the machine; the rules are untouched. |
| `Auto.AutoTransitions.Add` | Packages/com.kdmagical.susmachine/Runtime/AutoTransitions.cs:34-40 | Creates the phase list when missing and appends. The default phase is `Update`. |
| `Auto.AutoTransitions.AddConditional` | Packages/com.kdmagical.susmachine/Runtime/AutoTransitions.cs:42-52 | Appends a rule yielding the target iff the condition holds. |
| `Auto.AutoTransitions.CheckTransitions` | Packages/com.kdmagical.susmachine/Runtime/AutoTransitions.cs:60-73 | Null for a phase with no list. Otherwise first match in insertion order over that phase's rules only, each given the stored machine. |
| `Behaviour.Fired` | Packages/com.kdmagical.susmachine/Runtime/StateBehaviour.cs:28-37 | A dispatch invokes the named callback exactly once, with the stored machine, iff it is set. Otherwise it invokes nothing. |
| `Behaviour.FiredOnlyMatching` | Packages/com.kdmagical.susmachine/Runtime/StateBehaviour.cs:28-37 | Dispatching one hook never invokes another callback. |
| `Behaviour.StateBehaviour.constructor` | Packages/com.kdmagical.susmachine/Runtime/StateBehaviour.cs:12-20 | A new behaviour has a fresh empty table and no callbacks. |
| `Behaviour.StateBehaviour.Initialize` | Packages/com.kdmagical.susmachine/Runtime/StateBehaviour.cs:22-26 | Stores the machine and, when there is a table, initializes it with the same machine. The table's rules are kept. |
| `Behaviour.StateBehaviour.Dispatch` | Packages/com.kdmagical.susmachine/Runtime/StateBehaviour.cs:28-37 | Appends `Fired(callbacks, hook, machine)` to the invocation log and changes nothing else. |
| `Behaviour.StateBehaviour.DoEnter` | Packages/com.kdmagical.susmachine/Runtime/StateBehaviour.cs:28-29 | Invokes `OnEnter` once if set; otherwise a no-op. |
| `Behaviour.StateBehaviour.DoExit` | Packages/com.kdmagical.susmachine/Runtime/StateBehaviour.cs:30-31 | Invokes `OnExit` once if set; otherwise a no-op. |
| `Behaviour.StateBehaviour.DoUpdate` | Packages/com.kdmagical.susmachine/Runtime/StateBehaviour.cs:32-33 | Invokes `OnUpdate` once if set; otherwise a no-op. |
| `Behaviour.StateBehaviour.DoFixedUpdate` | Packages/com.kdmagical.susmachine/Runtime/StateBehaviour.cs:34-35 | Invokes `OnFixedUpdate` once if set; otherwise a no-op. |
| `Behaviour.StateBehaviour.DoLateUpdate` | Packages/com.kdmagical.susmachine/Runtime/StateBehaviour.cs:36-37 | Invokes `OnLateUpdate` once if set; otherwise a no-op. |
| `Behaviour.StateBehaviour.CheckAutoTransitions` | Packages/com.kdmagical.susmachine/Runtime/StateBehaviour.cs:40-41 | Null when there is no table. Otherwise the table's first-match result for the phase on its stored machine. |
| `Manager.RemoveFirst` | Packages/com.kdmagical.susmachine/Runtime/StateMachineManager.cs:19-20 | `List.Remove`: unchanged when the machine is absent, one entry shorter when it is present. |
| `Manager.RemoveFirstAt` | Packages/com.kdmagical.susmachine/Runtime/StateMachineManager.cs:19-20 | Only the first occurrence is removed. The entries before and after it keep their order. |
| `Manager.RemoveFirstMultiset` | Packages/com.kdmagical.susmachine/Runtime/StateMachineManager.cs:19-20 | Exactly one copy of the machine leaves the list, and no other entry does. |
| `Manager.RegisterThenDeregister` | Packages/com.kdmagical.susmachine/Runtime/StateMachineManager.cs:16-20 | Registering an absent machine and then deregistering it restores the list. |
| `Manager.TickCalls` | Packages/com.kdmagical.susmachine/Runtime/StateMachineManager.cs:27-49 | A phase calls that phase's tick once per list entry, in list order. |
| `Manager.TickCount` | Packages/com.kdmagical.susmachine/Runtime/StateMachineManager.cs:29-32 | A machine is ticked once per occurrence in the list: registered twice, ticked twice. |
| `Manager.DeregisteredTicks` | Packages/com.kdmagical.susmachine/Runtime/StateMachineManager.cs:19-33 | After one `Deregister`, a machine registered `n` times is ticked `n - 1` times per phase. One registered once is not ticked again. |
| `Manager.StateMachineManager.Register` | Packages/com.kdmagical.susmachine/Runtime/StateMachineManager.cs:16-17 | Appends at the end. Earlier entries and their order are kept. |
| `Manager.StateMachineManager.IndexOf` | Packages/com.kdmagical.susmachine/Runtime/StateMachineManager.cs:19-20 | The search inside `List.Remove`: -1 iff absent; otherwise the first index holding the machine. |
| `Manager.StateMachineManager.Deregister` | Packages/com.kdmagical.susmachine/Runtime/StateMachineManager.cs:19-20 | The list becomes `RemoveFirst` of the old list, immediately. |
| `Manager.StateMachineManager.TickAll` | Packages/com.kdmagical.susmachine/Runtime/StateMachineManager.cs:27-49 | Logs `TickCalls` of the list for the phase. The list is unchanged. |
| `Manager.StateMachineManager.Update` | Packages/com.kdmagical.susmachine/Runtime/StateMachineManager.cs:27-33 | Ticks every entry's `DoUpdate` in list order. |
| `Manager.StateMachineManager.FixedUpdate` | Packages/com.kdmagical.susmachine/Runtime/StateMachineManager.cs:35-41 | Ticks every entry's `DoFixedUpdate` in list order. |
| `Manager.StateMachineManager.LateUpdate` | Packages/com.kdmagical.susmachine/Runtime/StateMachineManager.cs:43-49 | Ticks every entry's `DoLateUpdate` in list order. |
| `Fsm.ViewAt` | Packages/com.kdmagical.susmachine/Runtime/FiniteStateMachine.cs:39-40 | Time in state is the clock minus the entry time; the state fields are exposed as stored. |
| `Fsm.DefaultNodeInert` | Packages/com.kdmagical.susmachine/Runtime/FiniteStateMachine.cs:194 | A node the indexer creates has no update functions, requests no transition and handles no event. |
| `Fsm.OnNodes` | Packages/com.kdmagical.susmachine/Runtime/FiniteStateMachine.cs:117-127 | Enter and exit go to the any-state node first when it exists, then to the current node, each once. An absent any-state node is skipped. |
| `Fsm.AfterSetState` | Packages/com.kdmagical.susmachine/Runtime/FiniteStateMachine.cs:178-181 | After `SetState`, next is null, previous is the old state, current is the target and the entry time is `now`. |
| `Fsm.SetStateCycle` | Packages/com.kdmagical.susmachine/Runtime/FiniteStateMachine.cs:173-184 | The exact call list of `SetState`. The exits see the old current state with next equal to the target. The enters see the target as current, the old state as previous, no next and zero time in state. There is no self-transition guard. |
| `Fsm.SetStateOnce` | Packages/com.kdmagical.susmachine/Runtime/FiniteStateMachine.cs:173-184 | The old state's node exits exactly once and the new state's node enters exactly once. |
| `Fsm.EntersNone` | Packages/com.kdmagical.susmachine/Runtime/FiniteStateMachine.cs:173-184 | The count of node entries is zero iff no recorded call is an enter. |
| `Fsm.Prefer` | Packages/com.kdmagical.susmachine/Runtime/FiniteStateMachine.cs:264-271 | The current node's target wins. The any-state node's counts only when the current node yields none. No target iff both yield none. |
| `Fsm.StatusAfter` | Packages/com.kdmagical.susmachine/Runtime/FiniteStateMachine.cs:153-161 | With no target the fields are unchanged; with one they are as after `SetState`. |
| `Fsm.CheckResolution` | Packages/com.kdmagical.susmachine/Runtime/FiniteStateMachine.cs:150-162 | Only the queried phase is checked. The any-state node is checked iff it exists and the current node yielded null. At most one `SetState` runs. With no target nothing is entered and the state is unchanged. |
| `Fsm.EventResolution` | Packages/com.kdmagical.susmachine/Runtime/FiniteStateMachine.cs:259-272 | Both event hooks run once before any state change, any-state first. The current node's target wins. With no target there are no further calls and no state change. |
| `Fsm.InitCalls` | Packages/com.kdmagical.susmachine/Runtime/FiniteStateMachine.cs:75-79 | One initialization for the any-state node when present plus one per listed node. |
| `Fsm.InitializedOnce` | Packages/com.kdmagical.susmachine/Runtime/FiniteStateMachine.cs:75-79 | Each node in the enumeration is initialized exactly once, and no other state is. |
| `Fsm.Touched` | Packages/com.kdmagical.susmachine/Runtime/FiniteStateMachine.cs:192-198 | Reading the current node, and the target's after a transition, adds exactly those keys to the node dictionary. |
| `Fsm.TouchedKeepsNodes` | Packages/com.kdmagical.susmachine/Runtime/FiniteStateMachine.cs:192-196 | Indexing keeps every stored node and adds only default nodes. |
| `Fsm.TouchedAgain` | Packages/com.kdmagical.susmachine/Runtime/FiniteStateMachine.cs:192-196 | Indexing the same state again changes nothing and returns the same node. |
| `Fsm.StateMachine.constructor` | Packages/com.kdmagical.susmachine/Runtime/FiniteStateMachine.cs:51-54 | A machine on the given manager, with no nodes, no any-state node and the flag unset. |
| `Fsm.StateMachine.Get` | Packages/com.kdmagical.susmachine/Runtime/FiniteStateMachine.cs:192-196 | The indexer's getter: a stored node is returned unchanged; an unseen state gets a fresh default node inserted and returned. |
| `Fsm.StateMachine.Set` | Packages/com.kdmagical.susmachine/Runtime/FiniteStateMachine.cs:231-235 | The indexer's setter stores the node under the state. |
| `Fsm.StateMachine.GetAnyState` | Packages/com.kdmagical.susmachine/Runtime/FiniteStateMachine.cs:243-247 | Reading `AnyState` creates a default any-state node on first use and returns the existing one after that. |
| `Fsm.StateMachine.SetAnyState` | Packages/com.kdmagical.susmachine/Runtime/FiniteStateMachine.cs:204-208 | Writing `AnyState` replaces or removes the any-state node; nothing else changes. |
| `Fsm.StateMachine.CheckForUpdateFunctions` | Packages/com.kdmagical.susmachine/Runtime/FiniteStateMachine.cs:95-106 | True iff the any-state node or some node has update functions. |
| `Fsm.StateMachine.Initialize` | Packages/com.kdmagical.susmachine/Runtime/FiniteStateMachine.cs:61-86 | The flag is computed once, and the machine is registered iff the flag is set. Every node is initialized once, the any-state node first. Then the current state is the initial one, the entry time is `now` and enter runs once. |
| `Fsm.StateMachine.RegisterIfNeeded` | Packages/com.kdmagical.susmachine/Runtime/FiniteStateMachine.cs:63-73 | The flag becomes whether any node has update functions. The machine is appended to the manager's list iff the flag is set, and nothing else changes. |
| `Fsm.StateMachine.EnterInitial` | Packages/com.kdmagical.susmachine/Runtime/FiniteStateMachine.cs:81-83 | The initial state becomes current, entered at `now`, and the enter hooks run once on it, the any-state node first. |
| `Fsm.StateMachine.InitializeNodes` | Packages/com.kdmagical.susmachine/Runtime/FiniteStateMachine.cs:75-79 | Initializes the any-state node, then each node once in enumeration order; the fields are untouched. |
| `Fsm.StateMachine.Close` | Packages/com.kdmagical.susmachine/Runtime/FiniteStateMachine.cs:108-115 | Exit runs once, and previous and next are cleared. The current state is unchanged. The machine is deregistered iff the same flag is set. |
| `Fsm.StateMachine.DoEnter` | Packages/com.kdmagical.susmachine/Runtime/FiniteStateMachine.cs:117-121 | Enter on the any-state node if present, then on the current node; no field changes. |
| `Fsm.StateMachine.DoExit` | Packages/com.kdmagical.susmachine/Runtime/FiniteStateMachine.cs:123-127 | Exit on the any-state node if present, then on the current node; no field changes. |
| `Fsm.StateMachine.SetState` | Packages/com.kdmagical.susmachine/Runtime/FiniteStateMachine.cs:173-184 | The trace grows by `SetStateCalls` and the fields become `AfterSetState`, whether or not the target is the current state. |
| `Fsm.StateMachine.Tick` | Packages/com.kdmagical.susmachine/Runtime/FiniteStateMachine.cs:129-132 | The phase callback on the any-state node if present, then on the current node. |
| `Fsm.StateMachine.ResolveAutoTransition` | Packages/com.kdmagical.susmachine/Runtime/FiniteStateMachine.cs:150-162 | Returns the preferred target: the current node's, or, when that is null, the any-state node's. The any-state node is checked only in that case. No field changes. |
| `Fsm.StateMachine.CheckForAutoTransitions` | Packages/com.kdmagical.susmachine/Runtime/FiniteStateMachine.cs:150-162 | The trace grows by `CheckCalls` and the fields become `StatusAfter` of the preferred target. The current node wins; the any-state node is asked only when the current node yields null. |
| `Fsm.StateMachine.DoPhase` | Packages/com.kdmagical.susmachine/Runtime/FiniteStateMachine.cs:129-148 | First the any-state phase callback, then the current node's, then a transition check for the same phase only. |
| `Fsm.StateMachine.DoUpdate` | Packages/com.kdmagical.susmachine/Runtime/FiniteStateMachine.cs:129-134 | `DoPhase` for `Update`. |
| `Fsm.StateMachine.DoFixedUpdate` | Packages/com.kdmagical.susmachine/Runtime/FiniteStateMachine.cs:136-141 | `DoPhase` for `FixedUpdate`. |
| `Fsm.StateMachine.DoLateUpdate` | Packages/com.kdmagical.susmachine/Runtime/FiniteStateMachine.cs:143-148 | `DoPhase` for `LateUpdate`. |
| `Fsm.StateMachine.TriggerEvent` | Packages/com.kdmagical.susmachine/Runtime/FiniteStateMachine.cs:259-272 | The trace grows by `EventCalls`: both event hooks, any-state first, then at most one `SetState` to the preferred target. With no target the state is unchanged. |
| `Caching.EnumLengthCheck` | Packages/com.kdmagical.susmachine/Runtime/Cache.cs:33-37 | Raises `ArgumentException` iff the enumeration has fewer than `index` members. |
| `Caching.Wrap32` | Packages/com.kdmagical.susmachine/Runtime/Cache.cs:50-124 | C# `int` arithmetic is unchecked: the result is the 32-bit value congruent to the exact one modulo 2^32, and equals it when it is in range. |
| `Caching.Fails` | Packages/com.kdmagical.susmachine/Runtime/Cache.cs:33-37 | The check after binding a value to `b` raises iff the enumeration has at most `b` members and `b` is below `int.MaxValue`; at `int.MaxValue`, `b + 1` wraps and the check passes. |
| `Caching.Chain` | Packages/com.kdmagical.susmachine/Runtime/Cache.cs:50-124 | The constructor chain of an `n`-value cache. It fails with `ArgumentException` iff the length check after some value fails. Otherwise value `k` is bound to `index - (n - 1 - k)`, computed with wrap-around. |
| `Caching.ChainWithoutWrap` | Packages/com.kdmagical.susmachine/Runtime/Cache.cs:50-124 | Where no offset wraps, the chain fails iff the enumeration has fewer than `index + 1` members, and value `k` is bound to `index - n + 1 + k`. |
| `Caching.MaxIndexAccepted` | Packages/com.kdmagical.susmachine/Runtime/Cache.cs:50-54 | A one-value cache with index `int.MaxValue` is built whatever the enumeration's length, since `index + 1` wraps to `int.MinValue`. |
| `Caching.DefaultBinding` | Packages/com.kdmagical.susmachine/Runtime/Cache.cs:50-124 | With the default indices, the `k`-th value (from 0) is bound to enumeration member `k`. |
| `Caching.SmallIndexAccepted` | Packages/com.kdmagical.susmachine/Runtime/Cache.cs:33-37 | A last index below `n - 1` passes the length checks and binds the first value to a negative index. |
| `Caching.Cache.constructor` | Packages/com.kdmagical.susmachine/Runtime/Cache.cs:13-17 | Every value starts at the default and nothing has been dispatched. |
| `Caching.Cache.TriggerEvent` | Packages/com.kdmagical.susmachine/Runtime/Cache.cs:39-42 | Dispatches exactly the `i`-th enumeration member. An index out of range raises `IndexOutOfRange` and dispatches nothing. |
| `Caching.Cache.Trigger` | Packages/com.kdmagical.susmachine/Runtime/Cache.cs:19-24 | The value is set while its event is dispatched and reset to the default afterwards. When the dispatch throws, the value stays set. |
| `Caching.Cache.TriggerEventN` | Packages/com.kdmagical.susmachine/Runtime/Cache.cs:56-126 | `Trigger` of the `n`-th value. Only that value changes. On success the bound member is dispatched once, seeing the new value, after the earlier log, and the value is then reset. An out-of-range binding raises `IndexOutOfRange`, logs nothing and leaves the value set. |
| `Caching.NewCache` | Packages/com.kdmagical.susmachine/Runtime/Cache.cs:45-127 | Building a cache raises `ArgumentException` iff the chain fails, including the `int` wrap-around of its offsets. Otherwise value `k` is bound as `Chain` says and all values are at the default. |

## Left out

- Unity engine delivery of `Update`/`FixedUpdate`/`LateUpdate`: the manager's
  three methods are ordinary methods called explicitly.
- `SingletonMonoBehaviour.cs` (instance lookup and lifetime): engine object
  management. A machine is given its manager.
- `StateMachineAutoCloser.cs` and the `closeOnDestroy` branch of `Initialize`
  (`FiniteStateMachine.cs:68-72`): a host destruction hook. `Close` is an
  ordinary method the host calls.
- `Time.time` and the float arithmetic of `TimeInState`: the clock is the
  integer parameter `now`.
- Re-entrancy. A callback that calls `SetState`, `Register` or `Deregister`,
  or changes a table while it is checked, is not modelled. Callbacks are log
  entries that change nothing, which acts as the precondition that user code
  does not mutate the machine or the registry during a call.
- Node identity and aliasing: nodes are values. The effect of a callback on
  a node's own state, and `Stateless<T>`'s own fields, are not modelled.
  `Stateless<T>`, `Stateless<T,E>`, `IStateObject<T>` and
  `StatefulContainer`'s class are not part of this model. A node is the
  contract the machine uses: `Initialize`, the `Do*` calls,
  `CheckAutoTransitions`, `HasUpdateFunctions` and
  `TriggerEventAndGetTransition`.
- The order in which `Dictionary.Values` enumerates nodes: it is left
  unspecified (the ghost `order`). Only "each node once" is stated.
- `System.Enum.GetValues` reflection: the event enumeration is the fixed
  sequence `events`.
- The six generic cache arities with distinct value types: they are one
  class whose values share one type `T`.
- The `IEnumerable` stubs that throw `NotImplementedException`
  (`TransitionsBase.cs:63-64`, `AutoTransitions.cs:75-76`): they exist only to
  enable collection-initializer syntax.
- The `StateMachineManager.Awake` log message: output only.
