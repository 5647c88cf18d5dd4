# Counter reducers and component state rules of a React teaching repository

This project models, in Dafny, the sequential logic spread through a set of
React teaching projects, with the rendering, timers, refs and network calls
stripped away:

- `redux_demo.dfy` (module `ReduxDemo`): the plain Redux demo. `counterReducer`
  is a pure function on an optional `{counter}` record (`None` is JavaScript's
  `undefined`, which falls back to `{counter: 0}`). A minimal `Store` class holds
  the state and the subscribed listeners; `Dispatch` commits the reducer's result
  and then calls every listener in subscription order, each reading the new state
  through `GetState`. `RunDemo` replays the demo script and proves the states its
  comments give.
- `counter_slice.dfy` (module `CounterSlice`): the Redux Toolkit counter slice.
  The initial state is `InitialCounterState` (`counter = 0`, `showTrue = true`).
  The four case reducers update a `CounterDraft` object in place; each is proved
  against a pure transition function, and the slice's laws (toggle twice,
  increase by one, increment then decrease) are lemmas on those functions.
- `counter_component.dfy` (module `CounterComponent`): trial-division `isPrime`
  as a loop proved to decide primality, and the counter's ±1 updaters.
- `timer_challenge.dfy` (module `TimerChallenge`): the countdown's state rules as
  a `Timer` class: start, stop, one interval firing (`Tick`) and the render-time
  expiry reset (`Render`), with the derived "active" rule and labels.
- `quiz.dfy` (module `Quiz`): the answer log, the question index derived from
  its length, and the unguarded read of the active question.
- `investment_calculator.dfy` (module `InvestmentCalculator`): the input record,
  its one-field update and the validity rule.
- `login.dfy` (module `Login`): the '@' check of the ref-based login form.
- `users.dfy` (module `UsersComponent`): the class component's toggle, merged
  state and empty-list error.
- `examples_section.dfy` (module `ExamplesSection`): the selected tab, the
  per-tab highlight and the content shown below the tabs.
- `wrappers.dfy` (module `Wrappers`): `Option`, `Result` and `Outcome`.

Where a general description of a Redux-style store (unsubscribe handles,
snapshot notification, reducer exceptions) goes beyond what the demo's code
does, the model follows the code: the demo's reducer never throws, it never
unsubscribes, and its store is the library's `createStore`, of which only the
behaviour the demo relies on is modelled.

## Model

| member | source | states |
|---|---|---|
| `ReduxDemo.CounterReducer` | 018-diving-into-redux/projects/redux-basics/redux-demo.js:6-17 | an absent state counts as `{counter: 0}`; the counter moves by +1 on "increment", -1 on "decrement", and any other action returns the given state itself |
| `ReduxDemo.IncrementThenDecrement` | 018-diving-into-redux/projects/redux-basics/redux-demo.js:7-14 | "increment" followed by "decrement" gives back the original state |
| `ReduxDemo.ReplayMovesByNetDelta` | 018-diving-into-redux/projects/redux-basics/redux-demo.js:6-17 | dispatching a sequence of actions moves the counter by exactly the number of increments minus the number of decrements |
| `ReduxDemo.ReplaySnoc` | 018-diving-into-redux/projects/redux-basics/redux-demo.js:35-41 | dispatching one more action after a sequence is applying the reducer to the state the sequence reached |
| `ReduxDemo.NotifiedInOrder` | 018-diving-into-redux/projects/redux-basics/redux-demo.js:24-30 | one dispatch notifies each subscribed listener exactly once, in subscription order, and each reads the same committed state |
| `ReduxDemo.Store.constructor` | 018-diving-into-redux/projects/redux-basics/redux-demo.js:6-21 | creating the store runs the reducer with no state, so it starts at `{counter: 0}` with no listeners |
| `ReduxDemo.Store.GetState` | 018-diving-into-redux/projects/redux-basics/redux-demo.js:25 | `getState` returns the state last committed by the store |
| `ReduxDemo.Store.Subscribe` | 018-diving-into-redux/projects/redux-basics/redux-demo.js:30 | the listener is appended after the existing ones; the state is unchanged |
| `ReduxDemo.Store.Dispatch` | 018-diving-into-redux/projects/redux-basics/redux-demo.js:24-37 | the new state is the reducer's result on the old state (the replay of that one action), and every listener is called afterwards and reads that new state |
| `ReduxDemo.RunDemo` | 018-diving-into-redux/projects/redux-basics/redux-demo.js:33-41 | the state reads `{counter: 0}` before any dispatch, `{counter: 1}` after "increment" and `{counter: 0}` after "decrement"; the final state is the replay of the two actions from `{counter: 0}`; the subscriber read 1 and then 0 |
| `CounterSlice.Incremented` | 018-diving-into-redux/projects/01-starting-project/src/store/counter.js:13-15 | `increment` raises the counter by one and keeps `showTrue` |
| `CounterSlice.Decreased` | 018-diving-into-redux/projects/01-starting-project/src/store/counter.js:16-18 | `decrease` lowers the counter by one and keeps `showTrue` |
| `CounterSlice.Increased` | 018-diving-into-redux/projects/01-starting-project/src/store/counter.js:19-21 | `increase` moves the counter by the payload and keeps `showTrue` |
| `CounterSlice.Toggled` | 018-diving-into-redux/projects/01-starting-project/src/store/counter.js:22-24 | `toggleCounter` flips `showTrue` and keeps the counter |
| `CounterSlice.Reduce` | 018-diving-into-redux/projects/01-starting-project/src/store/counter.js:8-26 | the slice reducer moves the counter by the action's step (+1, -1, the payload, 0), and only `toggleCounter` changes `showTrue` |
| `CounterSlice.ReduceAllEffect` | 018-diving-into-redux/projects/01-starting-project/src/store/counter.js:13-24 | a run of actions moves the counter by the sum of their steps and flips `showTrue` once per toggle |
| `CounterSlice.FromInitialCounterState` | 018-diving-into-redux/projects/01-starting-project/src/store/counter.js:3-6 | from `initialCounterState` (counter 0, shown) the counter equals the net step of the actions dispatched, and it is shown exactly after an even number of toggles |
| `CounterSlice.ToggleTwiceRestores` | 018-diving-into-redux/projects/01-starting-project/src/store/counter.js:22-24 | toggling twice restores the state |
| `CounterSlice.IncreaseByOneIsIncrement` | 018-diving-into-redux/projects/01-starting-project/src/store/counter.js:13-21 | `increase` with payload 1 is `increment` |
| `CounterSlice.IncrementThenDecreaseRestores` | 018-diving-into-redux/projects/01-starting-project/src/store/counter.js:13-18 | `increment` and `decrease` undo each other in either order |
| `CounterSlice.ToggleCommutesWithIncrease` | 018-diving-into-redux/projects/01-starting-project/src/store/counter.js:19-24 | moving the counter and toggling visibility commute, since neither touches the other's field |
| `CounterSlice.CounterDraft.Increment` | 018-diving-into-redux/projects/01-starting-project/src/store/counter.js:13-15 | the in-place `state.counter++` leaves the draft in the `increment` state |
| `CounterSlice.CounterDraft.Decrease` | 018-diving-into-redux/projects/01-starting-project/src/store/counter.js:16-18 | the in-place `state.counter--` leaves the draft in the `decrease` state |
| `CounterSlice.CounterDraft.Increase` | 018-diving-into-redux/projects/01-starting-project/src/store/counter.js:19-21 | the in-place `+= payload` leaves the draft in the `increase` state |
| `CounterSlice.CounterDraft.ToggleCounter` | 018-diving-into-redux/projects/01-starting-project/src/store/counter.js:22-24 | the in-place negation leaves the draft in the `toggleCounter` state |
| `CounterSlice.CounterDraft.Apply` | 018-diving-into-redux/projects/01-starting-project/src/store/counter.js:8-26 | each action runs its own case reducer and no other |
| `CounterComponent.IsPrime` | 012-bts-of-react-and-optimization-techniques/projects/01-starting-project/src/components/Counter/Counter.jsx:9-24 | true exactly when the number is above 1 and has no divisor between 2 and itself minus one: trial division up to the square root is enough |
| `CounterComponent.NoDivisorAboveSquareRoot` | 012-bts-of-react-and-optimization-techniques/projects/01-starting-project/src/components/Counter/Counter.jsx:15-23 | a number with no divisor up to its square root has no divisor below itself |
| `CounterComponent.Mount` | 012-bts-of-react-and-optimization-techniques/projects/01-starting-project/src/components/Counter/Counter.jsx:30-34 | the counter starts at `initialCount`, and the primality shown is that of `initialCount` |
| `CounterComponent.HandleIncrement` | 012-bts-of-react-and-optimization-techniques/projects/01-starting-project/src/components/Counter/Counter.jsx:46-48 | the counter goes up by one; the initial count and its primality are kept |
| `CounterComponent.HandleDecrement` | 012-bts-of-react-and-optimization-techniques/projects/01-starting-project/src/components/Counter/Counter.jsx:42-44 | the counter goes down by one; the initial count and its primality are kept |
| `CounterComponent.IncrementDecrementInverse` | 012-bts-of-react-and-optimization-techniques/projects/01-starting-project/src/components/Counter/Counter.jsx:42-48 | increment and decrement undo each other in either order |
| `TimerChallenge.IsActive` | 007-refs-and-portals/projects/01-starting-project/src/components/TimerChallenge.jsx:9 | `timerIsActive`: time has elapsed and some is left; only a target of at least one second can ever be active |
| `TimerChallenge.ButtonLabel` | 007-refs-and-portals/projects/01-starting-project/src/components/TimerChallenge.jsx:42-43 | the button reads "Stop" exactly when the timer is active, "Start" otherwise |
| `TimerChallenge.UnitLabel` | 007-refs-and-portals/projects/01-starting-project/src/components/TimerChallenge.jsx:39 | the unit is "seconds" exactly when the target time is above one |
| `TimerChallenge.ActiveUntilExpiry` | 007-refs-and-portals/projects/01-starting-project/src/components/TimerChallenge.jsx:8-19 | from a full timer, the timer is active after every tick before the `targetTime * 100`-th and has run out from that tick on |
| `TimerChallenge.Timer.constructor` | 007-refs-and-portals/projects/01-starting-project/src/components/TimerChallenge.jsx:8-9 | the time left starts at `targetTime * 1000`, so the timer is not active, and no interval is set |
| `TimerChallenge.Timer.Render` | 007-refs-and-portals/projects/01-starting-project/src/components/TimerChallenge.jsx:11-14 | a timer that has run out is cleared and refilled to `targetTime * 1000`; otherwise nothing changes |
| `TimerChallenge.Timer.HandleStart` | 007-refs-and-portals/projects/01-starting-project/src/components/TimerChallenge.jsx:16-20 | an interval is set; the time left is untouched |
| `TimerChallenge.Timer.HandleStop` | 007-refs-and-portals/projects/01-starting-project/src/components/TimerChallenge.jsx:21-32 | the interval is cleared; the time left is untouched, so a timer stopped while active stays active and its button still reads "Stop" |
| `TimerChallenge.Timer.Tick` | 007-refs-and-portals/projects/01-starting-project/src/components/TimerChallenge.jsx:17-19 | each firing removes exactly 10 ms, and the time left never exceeds the full time |
| `TimerChallenge.Timer.RunToExpiry` | 007-refs-and-portals/projects/01-starting-project/src/components/TimerChallenge.jsx:8-19 | a started challenge left alone runs out after exactly `targetTime * 100` firings and ends full again with the interval cleared |
| `Quiz.ActiveQuestionIndex` | 011-quiz-app/quiz-app/src/components/Quiz.jsx:9 | the active question index is the number of answers given, 0 exactly when none has been given |
| `Quiz.HandleSelectAnswer` | 011-quiz-app/quiz-app/src/components/Quiz.jsx:11-15 | the new answer is added at the end and every earlier answer keeps its place |
| `Quiz.ActiveQuestion` | 011-quiz-app/quiz-app/src/components/Quiz.jsx:19-21 | the question on screen is the one at the number of answers given; past the last question the read fails |
| `Quiz.SelectionAdvancesIndex` | 011-quiz-app/quiz-app/src/components/Quiz.jsx:9-15 | each selection advances the active question index by exactly one |
| `Quiz.SelectAllAppends` | 011-quiz-app/quiz-app/src/components/Quiz.jsx:9-15 | a run of selections appends the answers in order, and the index equals the number of answers |
| `Quiz.QuizRunsPastLastQuestion` | 011-quiz-app/quiz-app/src/components/Quiz.jsx:7-21 | from no answers, after `k` answers question `k` is shown while questions remain, and once all are answered the unguarded read fails |
| `InvestmentCalculator.InputIsValid` | 004-react-essentials-practice-project/01-investment-calculator/src/App.jsx:14 | the input is valid exactly when the value under the duration key is at least 1 |
| `InvestmentCalculator.HandleChange` | 004-react-essentials-practice-project/01-investment-calculator/src/App.jsx:16-23 | the named field takes the new value and every other field keeps its value |
| `InvestmentCalculator.View` | 004-react-essentials-practice-project/01-investment-calculator/src/App.jsx:28-31 | exactly one of the error message and the results is shown: the results, of the current data, exactly when the input is valid |
| `InvestmentCalculator.HandleChangeIdempotent` | 004-react-essentials-practice-project/01-investment-calculator/src/App.jsx:17-22 | applying the same change twice equals applying it once |
| `InvestmentCalculator.ValidityAfterChange` | 004-react-essentials-practice-project/01-investment-calculator/src/App.jsx:14-22 | the input is valid iff the duration is at least 1: a duration change decides validity alone, any other change keeps it |
| `InvestmentCalculator.InitialInputShowsResults` | 004-react-essentials-practice-project/01-investment-calculator/src/App.jsx:7-14 | the initial `inputData` (`InitialInput`: `10000 / 2000 / 12 / 10`) is valid, so the page opens on the results |
| `Login.Includes` | 016-forms-and-user-input/projects/01-starting-project/src/components/Login.jsx:19 | the search answers true exactly when the character occurs somewhere in the string |
| `Login.EmailIsValid` | 016-forms-and-user-input/projects/01-starting-project/src/components/Login.jsx:19 | `emailIsValid` holds exactly when the entered email contains '@' |
| `Login.LoginForm.constructor` | 016-forms-and-user-input/projects/01-starting-project/src/components/Login.jsx:6 | the invalid-email flag starts false and no request has been made |
| `Login.LoginForm.HandleSubmit` | 016-forms-and-user-input/projects/01-starting-project/src/components/Login.jsx:8-29 | the email is valid exactly when it contains '@'; an invalid one sets the flag and stops before the request step, a valid one clears it and reaches the request step; the password plays no part |
| `Login.SubmitTwice` | 016-forms-and-user-input/projects/01-starting-project/src/components/Login.jsx:19-26 | submitting the same email twice leaves the flag as submitting it once does |
| `UsersComponent.Toggled` | 013-class-based-components/projects/01-starting-project/src/components/Users.js:23-30 | the toggle negates `showUsers`, and merging the partial state keeps `more` |
| `UsersComponent.ToggledTwiceRestores` | 013-class-based-components/projects/01-starting-project/src/components/Users.js:23-30 | two toggles restore the state |
| `UsersComponent.Render` | 013-class-based-components/projects/01-starting-project/src/components/Users.js:39-46 | the button reads "Hide" exactly when users are shown, "Show" otherwise, and the list is rendered exactly when users are shown |
| `UsersComponent.Users.constructor` | 013-class-based-components/projects/01-starting-project/src/components/Users.js:7-13 | the state starts as `showUsers = true`, `more = "Test"` |
| `UsersComponent.Users.ToggleUsersHandler` | 013-class-based-components/projects/01-starting-project/src/components/Users.js:23-30 | the handler flips `showUsers` and leaves `more` unchanged |
| `UsersComponent.Users.ComponentDidUpdate` | 013-class-based-components/projects/01-starting-project/src/components/Users.js:17-21 | an update with an empty user list throws "No error provided!", and only then |
| `ExamplesSection.Content` | 003-react-essentials-deep-dive/projects/01-starting-project/src/components/Examples.jsx:17-28 | the topic's content is shown exactly when a non-empty topic is selected, otherwise the placeholder |
| `ExamplesSection.IsSelected` | 003-react-essentials-deep-dive/projects/01-starting-project/src/components/Examples.jsx:37-58 | a tab is highlighted when its key is the selected topic, and then (for a non-empty key) that topic's content is what shows |
| `ExamplesSection.HighlightedAreSelected` | 003-react-essentials-deep-dive/projects/01-starting-project/src/components/Examples.jsx:37-58 | a tab is highlighted only if its key is the selected topic |
| `ExamplesSection.AtMostOneHighlighted` | 003-react-essentials-deep-dive/projects/01-starting-project/src/components/Examples.jsx:37-58 | among distinct tab keys at most one tab is highlighted, and one is exactly when the selected topic is among the keys |
| `ExamplesSection.AtMostOneTabHighlighted` | 003-react-essentials-deep-dive/projects/01-starting-project/src/components/Examples.jsx:37-58 | of the four tabs at most one is highlighted, and one is exactly when a tab's key is selected |
| `ExamplesSection.Examples.constructor` | 003-react-essentials-deep-dive/projects/01-starting-project/src/components/Examples.jsx:9-17 | nothing is selected at first, so the placeholder shows and no tab is highlighted |
| `ExamplesSection.Examples.HandleSelect` | 003-react-essentials-deep-dive/projects/01-starting-project/src/components/Examples.jsx:10-12 | the clicked button's key becomes the selected topic |
| `ExamplesSection.SelectTwice` | 003-react-essentials-deep-dive/projects/01-starting-project/src/components/Examples.jsx:10-12 | selecting the same tab twice leaves the state selecting it once leaves |

## Left out

- The Redux library itself (`createStore`, `configureStore`, Immer's drafts and copies) is not part of this model; the store is modelled only as far as the demo uses it; the `auth` slice combined in the Toolkit store is not part of this model.
- ReduxDemo.Store.Subscribe: returns no unsubscribe handle, because the demo never unsubscribes; snapshot and re-entrancy rules of notification are not modelled.
- ReduxDemo.Store.Dispatch: does not model a throwing reducer, because the demo's reducer cannot throw.
- Listeners are identified by a number and modelled by what they read (`GetState`); the demo subscriber's `console.log` is left out, as are all other log calls.
- CounterSlice.Increased: the payload is an integer; JavaScript's `+=` with a non-number payload (string concatenation, `NaN`) is not modelled.
- Integers are unbounded, while JavaScript numbers are doubles: the model assumes the user-chosen initial count and the typed investment fields stay below 2^53 in magnitude. At or above it the models' contracts no longer match JavaScript: for instance `prevCounter + 1` at 2^53 leaves the counter unchanged, whereas `CounterComponent.HandleIncrement` promises one more.
- CounterComponent.IsPrime: the loop bound `i <= Math.sqrt(number)` is modelled as the integer test `i * i <= number`, which agrees with it for integers while the floating-point square root is exact; non-integer inputs are not modelled.
- `memo` and `useCallback` only affect re-rendering and are left out.
- TimerChallenge: `setInterval` timing, the batching of state updates between renders and the result dialog opened on stop and on expiry are left out; each interval firing is an explicit `Tick` that can only happen while an interval is set. A single flag stands for `timer.current`, so a second click on "Start" before the first tick (the timer is still full, hence not active) is not modelled: in the source it registers a second interval and overwrites `timer.current`, after which `handleStop` clears only the newest one and the first keeps firing.
- Quiz: the question bank (`questions.js`) is not part of this model; it is a parameter.
- InvestmentCalculator.HandleChange: the new value is taken as an already-parsed integer; `Number(newValue)` parsing of the input string (empty string, `NaN`) is not modelled.
- Login: the email and password are passed as strings instead of being read from DOM refs; the request step is only a log line in the source and is modelled as a count of submissions that reach it.
- UsersComponent: the `User` list items and the rendering of names are left out; the `users` prop is a constant field.
- ExamplesSection.Content: shows the selected key; the lookup of its title, description and code in the examples data (`data.js`, not part of this model) is left out.
- Rendering, portals, dialogs, routing, the food-order cart and checkout (floating-point prices, HTTP), the state-based login's unseen validation helpers and `Math.random` headers are outside the modelled core.
