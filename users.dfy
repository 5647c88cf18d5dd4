/**
 * The class-based `Users` component: a show/hide toggle kept in `this.state`
 * beside a second field the toggle never touches, and an update hook that
 * throws when the user list is empty.
 */
module UsersComponent {
  import opened Wrappers

  datatype User = User(id: string, name: string)

  /** `this.state`. */
  datatype UsersState = UsersState(showUsers: bool, more: string)

  /** The state the constructor sets. */
  const InitialUsersState := UsersState(true, "Test")

  /** The message `componentDidUpdate` throws with. */
  const EmptyListMessage := "No error provided!"

  /**
   * `setState` with the updater `curState => ({showUsers: !curState.showUsers})`:
   * the returned object is merged into the state, so `more` survives.
   */
  function Toggled(s: UsersState): (r: UsersState)
    ensures r.showUsers != s.showUsers && r.more == s.more
  {
    s.(showUsers := !s.showUsers)
  }

  lemma ToggledTwiceRestores(s: UsersState)
    ensures Toggled(Toggled(s)) == s
  {
  }

  /** What `render` shows: the button's verb and the users listed. */
  datatype UsersView = UsersView(buttonLabel: string, listed: seq<User>)

  function Render(s: UsersState, users: seq<User>): (r: UsersView)
    ensures r.buttonLabel == "Hide" <==> s.showUsers
    ensures r.buttonLabel == "Show" <==> !s.showUsers
    ensures s.showUsers ==> r.listed == users
    ensures !s.showUsers ==> r.listed == []
  {
    UsersView(if s.showUsers then "Hide" else "Show", if s.showUsers then users else [])
  }

  class Users {
    /** The `users` prop. */
    const users: seq<User>
    var showUsers: bool
    var more: string

    function State(): UsersState
      reads this
    {
      UsersState(showUsers, more)
    }

    constructor (users: seq<User>)
      ensures this.users == users
      ensures State() == InitialUsersState
    {
      this.users := users;
      showUsers := true;
      more := "Test";
    }

    /** `toggleUsersHandler`. */
    method ToggleUsersHandler()
      modifies this
      ensures showUsers == !old(showUsers) && more == old(more)
      ensures State() == Toggled(old(State()))
    {
      showUsers := !showUsers;
    }

    /** `componentDidUpdate`, run after an update: an empty `users` prop throws. */
    method ComponentDidUpdate() returns (o: Outcome<string>)
      ensures o.Fail? <==> |users| == 0
      ensures o.Fail? ==> o.error == EmptyListMessage
    {
      if |users| == 0 {
        return Fail(EmptyListMessage);
      }
      return Pass;
    }
  }
}
