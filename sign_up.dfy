/**
 * The sign-up page's submit handler: reject blank input, reject an e-mail
 * that is already registered, otherwise append the account to the stored
 * user list, save it, report success and go to the login page.
 */
module SignUp {

  import opened Wrappers
  import opened JsStrings
  import opened Records
  import opened Browser

  const FillInMessage: string := "Por favor, preencha email e senha."
  const DuplicateMessage: string :=
    "Este email j\U{E1} est\U{E1} cadastrado. Tente fazer login ou use outro email."
  const SuccessMessage: string := "Conta criada com sucesso! Voc\U{EA} j\U{E1} pode fazer login."

  /** `users.some((user) => user.email === email)` */
  function EmailExists(users: seq<User>, email: string): (b: bool)
    ensures b <==> exists i :: 0 <= i < |users| && users[i].email == email
  {
    if |users| == 0 then false
    else if users[0].email == email then true
    else
      var b := EmailExists(users[1..], email);
      assert forall i :: 1 <= i < |users| ==> users[i] == users[1..][i - 1];
      b
  }

  predicate EmailsUnique(users: seq<User>)
  {
    forall i, j :: 0 <= i < j < |users| ==> users[i].email != users[j].email
  }

  /** What the handler did to the page (`effects`) and to storage (`items`). */
  datatype SignUpResult = SignUpResult(effects: seq<Effect>, items: Items)

  /** The handler's behaviour on a storage snapshot and the two form fields. */
  function SignUpOutcome(items: Items, email: string, password: string): SignUpResult
    requires WellFormed(items)
  {
    if IsBlank(email) || IsBlank(password) then
      SignUpResult([SetError(""), SetError(FillInMessage)], items)
    else
      var users := StoredUsers(items);
      if EmailExists(users, email) then
        SignUpResult([SetError(""), SetError(DuplicateMessage)], items)
      else
        var saved := users + [User(email, Some(password))];
        SignUpResult(SuccessTrace(saved), items[UsersKey := UserList(saved)])
  }

  /** Clear the error, save the list, report success, go to the login page. */
  function SuccessTrace(saved: seq<User>): seq<Effect>
  {
    [SetError(""), SetItem(UsersKey, UserList(saved)), Alert(SuccessMessage), Navigate(LoginRoute)]
  }

  /** The three outcomes: a blank field (after trimming) is rejected, an
      e-mail equal to a stored one is rejected, and otherwise the raw e-mail
      and password are appended to the stored list, which is saved before
      success is reported. The error is cleared first in every case. */
  lemma SignUpOutcomes(items: Items, email: string, password: string)
    requires WellFormed(items)
    ensures var r := SignUpOutcome(items, email, password);
            var users := StoredUsers(items);
            && |r.effects| >= 2 && r.effects[0] == SetError("")
            && (AllWhitespace(email) || AllWhitespace(password) ==>
                  r == SignUpResult([SetError(""), SetError(FillInMessage)], items))
            && (!AllWhitespace(email) && !AllWhitespace(password)
                && (exists i :: 0 <= i < |users| && users[i].email == email) ==>
                  r == SignUpResult([SetError(""), SetError(DuplicateMessage)], items))
            && (!AllWhitespace(email) && !AllWhitespace(password)
                && (forall i :: 0 <= i < |users| ==> users[i].email != email) ==>
                  r == SignUpResult([SetError(""), SetItem(UsersKey, UserList(users + [User(email, Some(password))])),
                                     Alert(SuccessMessage), Navigate(LoginRoute)],
                                    items[UsersKey := UserList(users + [User(email, Some(password))])]))
  {
    BlankIffAllWhitespace(email);
    BlankIffAllWhitespace(password);
  }

  /** `handleSignUp`, run against the page's storage. */
  method HandleSignUp(storage: LocalStorage, email: string, password: string)
      returns (effects: seq<Effect>)
    requires WellFormed(storage.items)
    modifies storage
    ensures SignUpOutcome(old(storage.items), email, password) == SignUpResult(effects, storage.items)
  {
    effects := [SetError("")];
    if IsBlank(email) || IsBlank(password) {
      effects := effects + [SetError(FillInMessage)];
      return;
    }
    var stored := storage.GetItem(UsersKey);
    var users: seq<User> := if stored.Some? then stored.value.users else [];
    if EmailExists(users, email) {
      effects := effects + [SetError(DuplicateMessage)];
      return;
    }
    var newUser := User(email, Some(password));
    users := users + [newUser];
    storage.SetItem(UsersKey, UserList(users));
    effects := effects + [SetItem(UsersKey, UserList(users)), Alert(SuccessMessage), Navigate(LoginRoute)];
  }

  /** Saving a user list keeps storage well formed, and reading it back gives that list. */
  lemma SaveUsers(items: Items, users: seq<User>)
    requires WellFormed(items)
    ensures WellFormed(items[UsersKey := UserList(users)])
    ensures StoredUsers(items[UsersKey := UserList(users)]) == users
  {
    TicketsKeys(UsersKey, UsersKey);
  }

  lemma AppendKeepsEmailsUnique(users: seq<User>, u: User)
    requires EmailsUnique(users)
    requires !EmailExists(users, u.email)
    ensures EmailsUnique(users + [u])
  {
    var saved := users + [u];
    forall i, j | 0 <= i < j < |saved| ensures saved[i].email != saved[j].email {
      assert saved[i] == users[i];
    }
  }

  /** Registration keeps storage well formed and keeps stored e-mails pairwise distinct. */
  lemma SignUpKeepsEmailsUnique(items: Items, email: string, password: string)
    requires WellFormed(items)
    requires EmailsUnique(StoredUsers(items))
    ensures WellFormed(SignUpOutcome(items, email, password).items)
    ensures EmailsUnique(StoredUsers(SignUpOutcome(items, email, password).items))
  {
    var users := StoredUsers(items);
    if !IsBlank(email) && !IsBlank(password) && !EmailExists(users, email) {
      var saved := users + [User(email, Some(password))];
      SaveUsers(items, saved);
      AppendKeepsEmailsUnique(users, User(email, Some(password)));
    }
  }

  /** A blank field is rejected without consulting storage: the outcome is
      the same whatever the store holds. */
  lemma SignUpBlankIgnoresStorage(items1: Items, items2: Items, email: string, password: string)
    requires WellFormed(items1) && WellFormed(items2)
    requires IsBlank(email) || IsBlank(password)
    ensures SignUpOutcome(items1, email, password).effects == SignUpOutcome(items2, email, password).effects
    ensures SignUpOutcome(items1, email, password).items == items1
  {
    BlankIffAllWhitespace(email);
    BlankIffAllWhitespace(password);
  }

  /** The success trace writes the new list and nothing else. */
  lemma SuccessTraceWrites(items: Items, saved: seq<User>)
    ensures ApplyWrites(items, SuccessTrace(saved)) == items[UsersKey := UserList(saved)]
  {
    var t := SuccessTrace(saved);
    var after := items[UsersKey := UserList(saved)];
    assert t[1..] == [SetItem(UsersKey, UserList(saved)), Alert(SuccessMessage), Navigate(LoginRoute)];
    assert t[1..][1..] == [Alert(SuccessMessage), Navigate(LoginRoute)];
    ApplyNoWrites(after, t[1..][1..]);
  }

  /** Appending to the stored list always changes what is stored. */
  lemma AppendChangesStorage(items: Items, u: User)
    requires WellFormed(items)
    ensures items[UsersKey := UserList(StoredUsers(items) + [u])] != items
  {
    if UsersKey in items {
      assert |StoredUsers(items) + [u]| != |items[UsersKey].users|;
    }
  }

  /** Storage changes by exactly the writes the trace records; the failure
      paths record none, and on success the save comes before the report. */
  lemma SignUpWritesAsTraced(items: Items, email: string, password: string)
    requires WellFormed(items)
    ensures var r := SignUpOutcome(items, email, password);
            && r.items == ApplyWrites(items, r.effects)
            && (r.items == items <==> WritesNothing(r.effects))
            && forall i, j :: (0 <= i < |r.effects| && 0 <= j < |r.effects|
                               && r.effects[i].Alert? && r.effects[j].SetItem?) ==> j < i
  {
    var r := SignUpOutcome(items, email, password);
    var users := StoredUsers(items);
    if !IsBlank(email) && !IsBlank(password) && !EmailExists(users, email) {
      var u := User(email, Some(password));
      assert r == SignUpResult(SuccessTrace(users + [u]), items[UsersKey := UserList(users + [u])]);
      SuccessTraceWrites(items, users + [u]);
      AppendChangesStorage(items, u);
      assert r.effects[1].SetItem?;
    } else {
      assert r.items == items && |r.effects| == 2 && r.effects[1].SetError?;
      ApplyNoWrites(items, r.effects);
    }
  }
}
