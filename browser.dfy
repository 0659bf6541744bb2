/**
 * The browser services the pages use: key-value storage (`localStorage`,
 * holding already-parsed JSON values) and the user-visible effects a handler
 * produces (`setError`, `alert`, `navigate`, `window.confirm`, callbacks
 * handed in by the parent component, and storage writes), recorded in the
 * order the handler performs them.
 */
module Browser {

  import opened Wrappers
  import opened Records

  /** A parsed storage value. Each key family holds one shape (see WellFormed). */
  datatype Entry =
    | UserList(users: seq<User>)
    | SessionUser(user: User)
    | TicketList(tickets: seq<Ticket>)

  type Items = map<string, Entry>

  const UsersKey: string := "users"
  const CurrentUserKey: string := "currentUser"
  const TicketsPrefix: string := "tickets_"

  /** `tickets_${email}` */
  function TicketsKey(email: string): string
  {
    TicketsPrefix + email
  }

  predicate IsTicketsKey(key: string)
  {
    |key| >= |TicketsPrefix| && key[..|TicketsPrefix|] == TicketsPrefix
  }

  /** Ticket keys name their owner uniquely and never clash with the two
      fixed keys. */
  lemma TicketsKeys(a: string, b: string)
    ensures TicketsKey(a) == TicketsKey(b) <==> a == b
    ensures IsTicketsKey(TicketsKey(a))
    ensures !IsTicketsKey(UsersKey) && !IsTicketsKey(CurrentUserKey)
  {
    if TicketsKey(a) == TicketsKey(b) {
      assert a == TicketsKey(a)[|TicketsPrefix|..];
    }
    assert CurrentUserKey[..|TicketsPrefix|][0] != TicketsPrefix[0];
  }

  /** Every key holds the shape its readers parse it as. */
  predicate WellFormed(items: Items)
  {
    && (UsersKey in items ==> items[UsersKey].UserList?)
    && (CurrentUserKey in items ==> items[CurrentUserKey].SessionUser?)
    && (forall key :: key in items && IsTicketsKey(key) ==> items[key].TicketList?)
  }

  /** `JSON.parse(getItem("users"))`, an absent key reading as `[]`. */
  function StoredUsers(items: Items): seq<User>
    requires WellFormed(items)
  {
    if UsersKey in items then items[UsersKey].users else []
  }

  /** `JSON.parse(getItem("currentUser"))`, an absent key reading as null. */
  function StoredCurrentUser(items: Items): Option<User>
    requires WellFormed(items)
  {
    if CurrentUserKey in items then Some(items[CurrentUserKey].user) else None
  }

  /** `JSON.parse(getItem("tickets_" + email))`, an absent key reading as `[]`. */
  function StoredTickets(items: Items, email: string): seq<Ticket>
    requires WellFormed(items)
  {
    TicketsKeys(email, email);
    var key := TicketsKey(email);
    if key in items then items[key].tickets else []
  }

  const HomeRoute: string := "/"
  const LoginRoute: string := "/login"

  /** One observable step of an event handler. */
  datatype Effect =
    | SetError(message: string)
    | SetItem(key: string, value: Entry)
    | Alert(message: string)
    | Navigate(route: string)
    | CallOnLogin
    | ConfirmPrompt(message: string)
    | CallOnCancelPurchase(ticket: Ticket, userEmail: string)

  predicate WritesNothing(effects: seq<Effect>)
  {
    forall i :: 0 <= i < |effects| ==> !effects[i].SetItem?
  }

  /** The storage contents after performing the writes of `effects` in order. */
  function ApplyWrites(items: Items, effects: seq<Effect>): Items
    decreases |effects|
  {
    if |effects| == 0 then items
    else
      var next := if effects[0].SetItem? then items[effects[0].key := effects[0].value] else items;
      ApplyWrites(next, effects[1..])
  }

  lemma {:induction false} ApplyNoWrites(items: Items, effects: seq<Effect>)
    requires WritesNothing(effects)
    ensures ApplyWrites(items, effects) == items
  {
    if |effects| > 0 {
      ApplyNoWrites(items, effects[1..]);
    }
  }

  /** `window.localStorage` */
  class LocalStorage {
    var items: Items

    constructor (initial: Items)
      ensures items == initial
    {
      items := initial;
    }

    /** `getItem(key)`, null when the key is absent */
    function GetItem(key: string): (v: Option<Entry>)
      reads this
      ensures v.Some? <==> key in items
      ensures v.Some? ==> v.value == items[key]
    {
      if key in items then Some(items[key]) else None
    }

    /** `setItem(key, value)` */
    method SetItem(key: string, value: Entry)
      modifies this
      ensures items == old(items)[key := value]
    {
      items := items[key := value];
    }
  }
}
