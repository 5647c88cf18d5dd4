/**
 * The plain Redux flow of the `redux-basics` demo: a counter reducer, a store
 * that holds the state and notifies its subscribers, and the dispatch sequence
 * the demo runs.
 */
module ReduxDemo {
  import opened Wrappers

  /** The whole state the demo's reducer manages. */
  datatype CounterState = CounterState(counter: int)

  /** An action; `kind` is the action's `type` discriminant. */
  datatype Action = Action(kind: string)

  /** The default of the reducer's `state` parameter. */
  const DefaultState := CounterState(0)

  /**
   * The action the store dispatches on creation. Redux gives it a private
   * type of the form "@@redux/INIT..." that no reducer branches on.
   */
  const InitAction := Action("@@redux/INIT")

  /** The listener id of the demo's `counterSubscriber`. */
  const CounterSubscriber: nat := 0

  /** How far an action moves the counter: the reference the reducer is checked against. */
  function Delta(kind: string): int {
    if kind == "increment" then 1
    else if kind == "decrement" then -1
    else 0
  }

  /**
   * `counterReducer`: an absent state falls back to `{counter: 0}`; "increment"
   * and "decrement" build a fresh record one up or one down; any other action
   * returns the state it was given, unchanged.
   */
  function CounterReducer(state: Option<CounterState>, action: Action): (r: CounterState)
    ensures r.counter == state.GetOr(DefaultState).counter + Delta(action.kind)
    ensures Delta(action.kind) == 0 ==> r == state.GetOr(DefaultState)
  {
    var s := state.GetOr(DefaultState);
    if action.kind == "increment" then
      CounterState(s.counter + 1)
    else if action.kind == "decrement" then
      CounterState(s.counter - 1)
    else
      s
  }

  /** The state a store reaches from `s` by dispatching `actions` one after another. */
  function Replay(s: CounterState, actions: seq<Action>): CounterState
    decreases |actions|
  {
    if actions == [] then s else Replay(CounterReducer(Some(s), actions[0]), actions[1..])
  }

  /** Replaying one more action is dispatching it to the state the earlier ones reached. */
  lemma {:induction false} ReplaySnoc(s: CounterState, actions: seq<Action>, a: Action)
    ensures Replay(s, actions + [a]) == CounterReducer(Some(Replay(s, actions)), a)
    decreases |actions|
  {
    if actions != [] {
      assert (actions + [a])[1..] == actions[1..] + [a];
      ReplaySnoc(CounterReducer(Some(s), actions[0]), actions[1..], a);
    }
  }

  /** The net movement of a sequence of actions. */
  function NetDelta(actions: seq<Action>): int
    decreases |actions|
  {
    if actions == [] then 0 else Delta(actions[0].kind) + NetDelta(actions[1..])
  }

  /** Replaying actions moves the counter by exactly the sum of their moves. */
  lemma {:induction false} ReplayMovesByNetDelta(s: CounterState, actions: seq<Action>)
    ensures Replay(s, actions).counter == s.counter + NetDelta(actions)
    decreases |actions|
  {
    if actions != [] {
      ReplayMovesByNetDelta(CounterReducer(Some(s), actions[0]), actions[1..]);
    }
  }

  /** An "increment" followed by a "decrement" gives back the original state. */
  lemma IncrementThenDecrement(s: CounterState)
    ensures CounterReducer(Some(CounterReducer(Some(s), Action("increment"))), Action("decrement")) == s
  {
  }

  /** The notifications one dispatch produces: each listener, in order, with the state it reads. */
  function Notified(listeners: seq<nat>, s: CounterState): seq<(nat, CounterState)>
    decreases |listeners|
  {
    if listeners == [] then []
    else Notified(listeners[..|listeners| - 1], s) + [(listeners[|listeners| - 1], s)]
  }

  /** Every listener is notified exactly once, in subscription order, and reads the given state. */
  lemma {:induction false} NotifiedInOrder(listeners: seq<nat>, s: CounterState)
    ensures |Notified(listeners, s)| == |listeners|
    ensures forall k :: 0 <= k < |listeners| ==> Notified(listeners, s)[k] == (listeners[k], s)
    decreases |listeners|
  {
    if listeners != [] {
      NotifiedInOrder(listeners[..|listeners| - 1], s);
    }
  }

  /**
   * The store: it holds the current state and the subscribed listeners. A
   * listener, when called, reads the state through `GetState`; `observed`
   * records, call by call, which listener ran and what it read.
   */
  class Store {
    var state: CounterState
    var listeners: seq<nat>
    var observed: seq<(nat, CounterState)>

    /** `createStore(counterReducer)`: the reducer runs once with no state and the init action. */
    constructor ()
      ensures state == DefaultState
      ensures listeners == [] && observed == []
    {
      state := CounterReducer(None, InitAction);
      listeners := [];
      observed := [];
    }

    /** `store.getState()`: the state last committed. */
    function GetState(): (s: CounterState)
      reads this
      ensures s == state
    {
      state
    }

    /** `store.subscribe(listener)`: the listener is added after the existing ones. */
    method Subscribe(listener: nat)
      modifies this
      ensures listeners == old(listeners) + [listener]
      ensures state == old(state) && observed == old(observed)
    {
      listeners := listeners + [listener];
    }

    /**
     * `store.dispatch(action)`: the reducer's result replaces the state, and
     * only then is every listener called, in order, so each reads the new state.
     */
    method Dispatch(action: Action)
      modifies this
      ensures state == CounterReducer(Some(old(state)), action)
      ensures state == Replay(old(state), [action])
      ensures listeners == old(listeners)
      ensures observed == old(observed) + Notified(listeners, state)
    {
      state := CounterReducer(Some(state), action);
      var i := 0;
      while i < |listeners|
        invariant 0 <= i <= |listeners|
        invariant state == CounterReducer(Some(old(state)), action)
        invariant listeners == old(listeners)
        invariant observed == old(observed) + Notified(listeners[..i], state)
      {
        assert listeners[..i + 1][..i] == listeners[..i];
        observed := observed + [(listeners[i], GetState())];
        i := i + 1;
      }
      assert listeners[..i] == listeners;
    }
  }

  /**
   * The demo script: one subscriber, the state read before any dispatch, then
   * "increment" and "decrement". The results are the values the script's
   * comments give, and `log` is what the subscriber read on each call.
   */
  method RunDemo() returns (initial: CounterState, afterIncrement: CounterState,
                            afterDecrement: CounterState, log: seq<(nat, CounterState)>)
    ensures initial == CounterState(0)
    ensures afterIncrement == CounterState(1)
    ensures afterDecrement == CounterState(0)
    ensures afterDecrement == Replay(DefaultState, [Action("increment"), Action("decrement")])
    ensures log == [(CounterSubscriber, CounterState(1)), (CounterSubscriber, CounterState(0))]
  {
    var store := new Store();
    store.Subscribe(CounterSubscriber);
    initial := store.GetState();
    store.Dispatch(Action("increment"));
    afterIncrement := store.GetState();
    ReplaySnoc(DefaultState, [Action("increment")], Action("decrement"));
    store.Dispatch(Action("decrement"));
    afterDecrement := store.GetState();
    log := store.observed;
  }
}
