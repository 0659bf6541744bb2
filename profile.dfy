/**
 * The profile page: the mount effect that loads the logged-in user and their
 * tickets through the injected storage reader, what the page renders, and the
 * guard in front of the cancel-purchase callback.
 */
module Profile {

  import opened Wrappers
  import opened Records
  import opened Browser

  /** The component's state: `user`, `tickets` and `loading`. */
  datatype ProfileState = ProfileState(user: Option<User>, tickets: seq<Ticket>, loading: bool)

  const InitialState: ProfileState := ProfileState(None, [], true)

  /** The state after the mount effect has run against a storage snapshot. */
  function AfterLoad(s: ProfileState, items: Items): (t: ProfileState)
    requires WellFormed(items)
    ensures !t.loading
    ensures CurrentUserKey !in items ==> t.user == s.user && t.tickets == s.tickets
    ensures CurrentUserKey in items ==> t.user == Some(items[CurrentUserKey].user)
    ensures CurrentUserKey in items && TicketsKey(t.user.value.email) !in items ==> t.tickets == []
    ensures CurrentUserKey in items && TicketsKey(t.user.value.email) in items ==>
              items[TicketsKey(t.user.value.email)] == TicketList(t.tickets)
  {
    match StoredCurrentUser(items)
    case None => s.(loading := false)
    case Some(u) => ProfileState(Some(u), StoredTickets(items, u.email), false)
  }

  /** What the component renders. */
  datatype Screen =
    | NothingRendered
    | ProfilePage(email: string, tickets: seq<Ticket>, noTicketsMessage: bool)

  function Render(s: ProfileState): (v: Screen)
    ensures v == NothingRendered <==> s.loading || s.user.None?
    ensures v.ProfilePage? ==> v.email == s.user.value.email && v.tickets == s.tickets
    ensures v.ProfilePage? ==> (v.noTicketsMessage <==> |s.tickets| == 0)
  {
    if s.loading then NothingRendered
    else if s.user.None? then NothingRendered
    else ProfilePage(s.user.value.email, s.tickets, |s.tickets| == 0)
  }

  /** Without a `currentUser` entry the page loads no user and no tickets and
      renders nothing. */
  lemma NoSessionRendersNothing(items: Items)
    requires WellFormed(items)
    requires CurrentUserKey !in items
    ensures AfterLoad(InitialState, items) == ProfileState(None, [], false)
    ensures Render(AfterLoad(InitialState, items)) == NothingRendered
  {
  }

  /** With a `currentUser` entry the page lists exactly the tickets stored
      under that user's key, and the no-tickets message exactly when there
      are none (including when the key is absent). */
  lemma SessionRendersStoredTickets(items: Items, s: ProfileState)
    requires WellFormed(items)
    requires CurrentUserKey in items
    ensures var u := items[CurrentUserKey].user;
            Render(AfterLoad(s, items)) == ProfilePage(u.email, StoredTickets(items, u.email),
                                                       StoredTickets(items, u.email) == [])
  {
  }

  const CancelPrompt: string := "Tem certeza que deseja cancelar esta compra?"

  predicate Prompts(effects: seq<Effect>)
  {
    exists i :: 0 <= i < |effects| && effects[i].ConfirmPrompt?
  }

  predicate RequestsCancel(effects: seq<Effect>)
  {
    exists i :: 0 <= i < |effects| && effects[i].CallOnCancelPurchase?
  }

  /** `handleCancelClick(ticket)`, where `confirmed` is what `windowConfirm`
      would answer if it were asked. */
  function HandleCancelClick(s: ProfileState, ticket: Ticket, confirmed: bool): (effects: seq<Effect>)
    ensures Prompts(effects) <==> s.user.Some?
    ensures RequestsCancel(effects) <==> s.user.Some? && confirmed
    ensures forall i :: 0 <= i < |effects| && effects[i].CallOnCancelPurchase? ==>
              i > 0 && effects[i] == CallOnCancelPurchase(ticket, s.user.value.email)
    ensures forall i :: 0 <= i < |effects| && effects[i].ConfirmPrompt? ==>
              i == 0 && effects[i].message == CancelPrompt
    ensures |effects| == (if s.user.None? then 0 else if confirmed then 2 else 1)
    ensures WritesNothing(effects)
  {
    if s.user.None? then []
    else
      var prompt := [ConfirmPrompt(CancelPrompt)];
      assert prompt[0].ConfirmPrompt?;
      if confirmed then
        var effects := prompt + [CallOnCancelPurchase(ticket, s.user.value.email)];
        assert effects[0].ConfirmPrompt? && effects[1].CallOnCancelPurchase?;
        effects
      else prompt
  }

  /** With no user loaded the prompt is never shown, so its answer is irrelevant. */
  lemma CancelWithoutUserIgnoresAnswer(s: ProfileState, ticket: Ticket)
    requires s.user.None?
    ensures HandleCancelClick(s, ticket, true) == HandleCancelClick(s, ticket, false) == []
  {
  }

  /** The `Profile` component's state cells. */
  class ProfileComponent {
    var user: Option<User>
    var tickets: seq<Ticket>
    var loading: bool

    function State(): ProfileState
      reads this
    {
      ProfileState(user, tickets, loading)
    }

    /** `useState(null)`, `useState([])`, `useState(true)` */
    constructor ()
      ensures State() == InitialState
    {
      user := None;
      tickets := [];
      loading := true;
    }

    /** The `useEffect` body. The injected `localStorageGetItem` reader is modelled
        as `stored`, a snapshot of storage that it reads from. */
    method LoadEffect(stored: Items)
      requires WellFormed(stored)
      modifies this
      ensures State() == AfterLoad(old(State()), stored)
    {
      var storedUser := StoredCurrentUser(stored);
      if storedUser.Some? {
        var currentUser := storedUser.value;
        user := Some(currentUser);
        tickets := StoredTickets(stored, currentUser.email);
      }
      loading := false;
    }
  }
}
