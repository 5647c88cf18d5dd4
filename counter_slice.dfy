/**
 * The Redux Toolkit counter slice: a two-field state and four case reducers
 * written as in-place updates of a draft record.
 */
module CounterSlice {

  /** The slice's state record. */
  datatype SliceState = SliceState(counter: int, showTrue: bool)

  /** `initialCounterState`. */
  const InitialCounterState := SliceState(0, true)

  /** The actions `counterActions` creates, one per case reducer. */
  datatype SliceAction = IncrementAction | DecreaseAction | IncreaseAction(payload: int) | ToggleCounterAction

  /** The state `increment` leaves behind: one more, visibility kept. */
  function Incremented(s: SliceState): (r: SliceState)
    ensures r.counter - s.counter == 1 && r.showTrue == s.showTrue
  {
    s.(counter := s.counter + 1)
  }

  /** The state `decrease` leaves behind: one less, visibility kept. */
  function Decreased(s: SliceState): (r: SliceState)
    ensures s.counter - r.counter == 1 && r.showTrue == s.showTrue
  {
    s.(counter := s.counter - 1)
  }

  /** The state `increase` leaves behind: moved by the payload, visibility kept. */
  function Increased(s: SliceState, payload: int): (r: SliceState)
    ensures r.counter - s.counter == payload && r.showTrue == s.showTrue
  {
    s.(counter := s.counter + payload)
  }

  /** The state `toggleCounter` leaves behind: visibility flipped, counter kept. */
  function Toggled(s: SliceState): (r: SliceState)
    ensures r.showTrue != s.showTrue && r.counter == s.counter
  {
    s.(showTrue := !s.showTrue)
  }

  /** How far an action moves the counter: the reference the reducer is checked against. */
  function Step(a: SliceAction): int {
    match a
    case IncrementAction => 1
    case DecreaseAction => -1
    case IncreaseAction(p) => p
    case ToggleCounterAction => 0
  }

  /**
   * The slice reducer: each action runs its own case reducer, so the counter
   * moves by the action's step and only `toggleCounter` changes `showTrue`.
   */
  function Reduce(s: SliceState, a: SliceAction): (r: SliceState)
    ensures r.counter == s.counter + Step(a)
    ensures r.showTrue != s.showTrue <==> a.ToggleCounterAction?
  {
    match a
    case IncrementAction => Incremented(s)
    case DecreaseAction => Decreased(s)
    case IncreaseAction(p) => Increased(s, p)
    case ToggleCounterAction => Toggled(s)
  }

  /** The state the slice reaches from `s` when `actions` are dispatched one after another. */
  function ReduceAll(s: SliceState, actions: seq<SliceAction>): SliceState
    decreases |actions|
  {
    if actions == [] then s else ReduceAll(Reduce(s, actions[0]), actions[1..])
  }

  /** The counter's net movement over a sequence of actions. */
  function NetStep(actions: seq<SliceAction>): int
    decreases |actions|
  {
    if actions == [] then 0 else Step(actions[0]) + NetStep(actions[1..])
  }

  /** How many of the actions are `toggleCounter`. */
  function ToggleCount(actions: seq<SliceAction>): nat
    decreases |actions|
  {
    if actions == [] then 0
    else (if actions[0].ToggleCounterAction? then 1 else 0) + ToggleCount(actions[1..])
  }

  /** Any run of actions moves the counter by its net step and flips `showTrue` once per toggle. */
  lemma {:induction false} ReduceAllEffect(s: SliceState, actions: seq<SliceAction>)
    ensures ReduceAll(s, actions).counter == s.counter + NetStep(actions)
    ensures ReduceAll(s, actions).showTrue == (s.showTrue == (ToggleCount(actions) % 2 == 0))
    decreases |actions|
  {
    if actions != [] {
      ReduceAllEffect(Reduce(s, actions[0]), actions[1..]);
    }
  }

  /**
   * From `initialCounterState` (counter 0, shown), the counter is the net step
   * of the actions dispatched, and it is shown exactly after an even number of toggles.
   */
  lemma FromInitialCounterState(actions: seq<SliceAction>)
    ensures ReduceAll(InitialCounterState, actions).counter == NetStep(actions)
    ensures ReduceAll(InitialCounterState, actions).showTrue <==> ToggleCount(actions) % 2 == 0
  {
    ReduceAllEffect(InitialCounterState, actions);
  }

  lemma ToggleTwiceRestores(s: SliceState)
    ensures Toggled(Toggled(s)) == s
  {
  }

  lemma IncreaseByOneIsIncrement(s: SliceState)
    ensures Increased(s, 1) == Incremented(s)
  {
  }

  lemma IncrementThenDecreaseRestores(s: SliceState)
    ensures Decreased(Incremented(s)) == s && Incremented(Decreased(s)) == s
  {
  }

  /** Counter moves and visibility toggles commute: neither touches the other's field. */
  lemma ToggleCommutesWithIncrease(s: SliceState, payload: int)
    ensures Toggled(Increased(s, payload)) == Increased(Toggled(s), payload)
  {
  }

  /**
   * The draft record a case reducer receives. Each case reducer updates the
   * draft's fields in place; the state after the update is `Snapshot()`.
   */
  class CounterDraft {
    var counter: int
    var showTrue: bool

    function Snapshot(): SliceState
      reads this
    {
      SliceState(counter, showTrue)
    }

    constructor (s: SliceState)
      ensures Snapshot() == s
    {
      counter := s.counter;
      showTrue := s.showTrue;
    }

    /** `increment(state)`: `state.counter++`. */
    method Increment()
      modifies this
      ensures counter == old(counter) + 1 && showTrue == old(showTrue)
      ensures Snapshot() == Incremented(old(Snapshot()))
    {
      counter := counter + 1;
    }

    /** `decrease(state)`: `state.counter--`. */
    method Decrease()
      modifies this
      ensures counter == old(counter) - 1 && showTrue == old(showTrue)
      ensures Snapshot() == Decreased(old(Snapshot()))
    {
      counter := counter - 1;
    }

    /** `increase(state, action)`: `state.counter += action.payload`. */
    method Increase(payload: int)
      modifies this
      ensures counter == old(counter) + payload && showTrue == old(showTrue)
      ensures Snapshot() == Increased(old(Snapshot()), payload)
    {
      counter := counter + payload;
    }

    /** `toggleCounter(state)`: `state.showTrue = !state.showTrue`. */
    method ToggleCounter()
      modifies this
      ensures showTrue == !old(showTrue) && counter == old(counter)
      ensures Snapshot() == Toggled(old(Snapshot()))
    {
      showTrue := !showTrue;
    }

    /** The slice reducer applied to the draft: the action selects the case reducer that runs. */
    method Apply(a: SliceAction)
      modifies this
      ensures Snapshot() == Reduce(old(Snapshot()), a)
    {
      match a
      case IncrementAction => Increment();
      case DecreaseAction => Decrease();
      case IncreaseAction(p) => Increase(p);
      case ToggleCounterAction => ToggleCounter();
    }
  }
}
