/** The records the pages read from and write to browser storage. */
module Records {

  import opened Wrappers

  /** An account: the e-mail is its identity, the password is optional
      (a logged-in user record may carry only the e-mail). */
  datatype User = User(email: string, password: Option<string>)

  /** A purchased ticket as it is stored under `tickets_<email>`. */
  datatype Ticket = Ticket(movieId: int, movieTitle: string, seats: seq<string>, purchaseDate: string)
}
