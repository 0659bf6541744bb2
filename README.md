# cinema-app pages, modelled in Dafny

This project models the page logic of a small movie-ticketing web app whose
only "backend" is the browser's key-value storage. Four pages hold logic:

- **Seat selection** (`SeatSelection`): the 5 × 8 seat grid with codes
  `A1` … `A40`, finding the movie named by the route id in the static
  catalogue, toggling a seat in the pending selection, and the confirm button,
  which only reports the selected seats and returns to the catalogue.
- **Sign-up** (`SignUp`): the submit handler rejects a blank field, rejects an
  e-mail that is already stored, and otherwise appends the account to the
  `users` list in storage, saves it, reports success and goes to `/login`.
- **Login** (`Login`): the submit handler only checks that both fields are
  non-blank, then calls the parent's `onLogin` and goes to `/`.
- **Profile** (`Profile`): on mount it reads `currentUser` and
  `tickets_<email>` through an injected storage reader; the cancel button
  calls the parent's `onCancelPurchase` only when a user is loaded and the
  user confirms.

Supporting modules: `JsStrings` (`trim`, `join(", ")` and a splitter that reads
the joined list back), `JsNumbers` (decimal `toString` of integers and its
parser), `Records` (`User`, `Ticket`), `Catalog` (the ten movies) and
`Browser` (storage as a map from keys to already-parsed values, the storage
class, and the effect trace).

How the foreign calls are represented:

- `localStorage` is a `map<string, Entry>` of parsed JSON values. `Entry` is a
  user list, a single user or a ticket list. `Browser.WellFormed` says that
  each key family holds its own shape. An absent key is `null`.
- `setError`, `alert`, `navigate`, `onLogin`, `window.confirm`,
  `onCancelPurchase` and `localStorage.setItem` are recorded as a
  `seq<Effect>`, in the order the handler performs them.
- The answer `window.confirm` would give is a boolean input.
- The sign-up handler runs as a method on a `LocalStorage` object, which it
  writes in place. The profile's mount effect runs as a method on a
  `ProfileComponent` object whose fields are the three React state cells.
- Toggling, lookup, confirming, login and the cancel guard are functions, as
  they are in the source. A function cannot change state. So the cancel guard
  leaves the loaded tickets untouched, and confirming leaves the selection and
  storage untouched.

The app's tests (`src/pages/coverage.test.tsx`,
`src/pages/novostesteseat.test.tsx`, `src/pages/Login.test.tsx`,
`src/pages/appteste.test.tsx`) expect a
seat-occupancy ledger, a per-movie quota of two tickets, writing tickets on
purchase, releasing seats on cancel and a password check at login. No file of
the code implements them: `SeatSelection.tsx` keeps no occupied seats and
writes nothing, and `Login.tsx` never reads the stored users. The model
follows the code.

## Model

| member | source | states |
|---|---|---|
| JsStrings.TrimStartIsSuffix | src/pages/Login.tsx:18 | the leading part of `trim`: the result is a suffix of the input that does not start with JavaScript whitespace, and everything dropped is whitespace |
| JsStrings.TrimEndIsPrefix | src/pages/Login.tsx:18 | the trailing part of `trim`: the result is a prefix of the input that does not end with whitespace, and everything dropped is whitespace |
| JsStrings.BlankIffAllWhitespace | src/pages/SignUp.tsx:21 | `s.trim() === ""` holds exactly when every character of `s` is whitespace, so whitespace-only input counts as empty |
| JsStrings.SplitJoin | src/pages/SeatSelection.tsx:24 | splitting `xs.join(", ")` at ", " gives back `xs` for every non-empty list whose elements hold no comma |
| JsNumbers.NatToString | src/pages/SeatSelection.tsx:40 | the numeral in `A${i + 1}` is non-empty, all digits, and has no leading zero |
| JsNumbers.ParseNatToString | src/pages/SeatSelection.tsx:40 | reading a rendered numeral back gives the number |
| JsNumbers.NatToStringInjective | src/pages/SeatSelection.tsx:40 | distinct seat numbers give distinct numerals |
| JsNumbers.IntToStringInjective | src/pages/SeatSelection.tsx:12 | distinct movie ids have distinct `toString()` renderings |
| Browser.TicketsKeys | src/pages/Profile.tsx:30 | `tickets_<email>` names its owner uniquely and never equals `users` or `currentUser` |
| Browser.LocalStorage.GetItem | src/pages/SignUp.tsx:27 | `getItem` yields the stored value exactly when the key is present, and null otherwise |
| Browser.LocalStorage.SetItem | src/pages/SignUp.tsx:43 | `setItem` replaces the value of that key and leaves every other key unchanged |
| SeatSelection.SeatGridShape | src/pages/SeatSelection.tsx:39-40 | the grid of `ROWS * COLS` seats has exactly 40 codes, "A1" first and "A40" last, position i coded "A" + (i + 1); codes are pairwise distinct and hold no comma |
| SeatSelection.FindMovieFirstMatch | src/pages/SeatSelection.tsx:12-15 | the lookup fails (the "not found" branch) exactly when no catalogue id renders as the route id; otherwise it yields the first movie whose id renders as the route id |
| SeatSelection.FindMovieById | src/pages/SeatSelection.tsx:12 | in a catalogue with distinct ids, the rendering of a movie's id finds exactly that movie |
| SeatSelection.CatalogLookups | src/data/movies.ts:8-68 | in the shipped catalogue every movie is found by its own id, and route id "9999" is not found |
| SeatSelection.RemoveAll | src/pages/SeatSelection.tsx:19 | `filter((s) => s !== seat)` removes `seat` and keeps membership of every other seat |
| SeatSelection.RemoveAllCounts | src/pages/SeatSelection.tsx:19 | the filter drops every copy of the seat and keeps every copy of the others |
| SeatSelection.RemoveAllConcat | src/pages/SeatSelection.tsx:19 | the filter distributes over concatenation, so surviving seats keep their relative order |
| SeatSelection.RemoveAllAbsent | src/pages/SeatSelection.tsx:19 | filtering out a seat that is not selected leaves the list as it was |
| SeatSelection.RemoveAllNoDuplicates | src/pages/SeatSelection.tsx:19 | filtering a list without repeats gives a list without repeats |
| SeatSelection.Toggle | src/pages/SeatSelection.tsx:17-21 | after a toggle the seat is selected exactly when it was not before, and every other seat's membership is unchanged |
| SeatSelection.ToggleSelects | src/pages/SeatSelection.tsx:19 | toggling an unselected seat appends it after the existing seats, in their order |
| SeatSelection.ToggleDeselects | src/pages/SeatSelection.tsx:19 | toggling a selected seat removes every occurrence of it and no other seat |
| SeatSelection.ToggleKeepsOthersInOrder | src/pages/SeatSelection.tsx:19 | in both cases the seats other than the toggled one stay, in their order |
| SeatSelection.ToggleTwiceRestores | src/pages/SeatSelection.tsx:17-21 | selecting then deselecting an unselected seat restores the original selection |
| SeatSelection.ToggleNoDuplicates | src/pages/SeatSelection.tsx:17-21 | a selection without repeats stays without repeats, and its length changes by exactly one |
| SeatSelection.HandleConfirm | src/pages/SeatSelection.tsx:23-26 | confirming writes nothing to storage: it alerts a message starting "Assentos selecionados: ", then navigates to "/", and nothing else; with nothing selected the alert is the bare prefix |
| SeatSelection.ConfirmReportsSelection | src/pages/SeatSelection.tsx:24 | the alert lists exactly the selected seats, in selection order, for a non-empty selection of comma-free codes |
| SeatSelection.GridSelectionReported | src/pages/SeatSelection.tsx:24 | a non-empty selection of grid seats is reported exactly, in order |
| SignUp.EmailExists | src/pages/SignUp.tsx:31 | `users.some(...)` holds exactly when some stored user has exactly that e-mail (case-sensitive equality) |
| SignUp.SignUpOutcomes | src/pages/SignUp.tsx:17-47 | the error is cleared first; a blank field after trimming gives the fill-in error with storage unchanged; an e-mail already stored gives the duplicate error with storage unchanged; otherwise the raw e-mail and password are appended at the end of the stored list (absent list read as []), saved under "users", then success is alerted and the page goes to "/login" |
| SignUp.HandleSignUp | src/pages/SignUp.tsx:17-47 | the handler, run on the storage object, produces the effects and leaves storage exactly as `SignUpOutcome` says |
| SignUp.SaveUsers | src/pages/SignUp.tsx:43 | saving a user list keeps storage well formed, and reading "users" back gives that list |
| SignUp.AppendKeepsEmailsUnique | src/pages/SignUp.tsx:41-42 | appending a user whose e-mail is not stored keeps e-mails pairwise distinct |
| SignUp.SignUpKeepsEmailsUnique | src/pages/SignUp.tsx:31-43 | if stored e-mails are pairwise distinct before sign-up, they are afterwards too |
| SignUp.SignUpBlankIgnoresStorage | src/pages/SignUp.tsx:21-24 | with a blank field the result does not depend on storage, and storage is not written |
| SignUp.SuccessTraceWrites | src/pages/SignUp.tsx:42-46 | the success path writes the new list under "users" and nothing else |
| SignUp.SignUpWritesAsTraced | src/pages/SignUp.tsx:43-46 | storage changes by exactly the writes in the effect trace; the failure paths write nothing; on success the save precedes the alert |
| Login.HandleSubmit | src/pages/Login.tsx:15-25 | a field that is whitespace only gives exactly the "Por favor, preencha email e senha." error, and `onLogin` is not called; otherwise `onLogin` is called exactly once and then the page navigates to "/"; nothing is written and the outcome depends on the two fields alone |
| Login.WhitespaceOnlyRejected | src/pages/Login.tsx:18 | a non-empty field of spaces and tabs is rejected, whichever of the two fields it is |
| Profile.AfterLoad | src/pages/Profile.tsx:23-34 | loading always ends false; with no "currentUser" entry the user and tickets keep their previous values; otherwise the user is the stored one and the tickets are those under "tickets_" + that user's e-mail, or [] when that key is absent |
| Profile.Render | src/pages/Profile.tsx:42-76 | nothing is rendered while loading or without a user; otherwise the page shows the user's e-mail and the loaded tickets, with the no-tickets message exactly when there are none |
| Profile.NoSessionRendersNothing | src/pages/Profile.tsx:25-33 | without a "currentUser" entry, mounting leaves no user, no tickets, and nothing rendered |
| Profile.SessionRendersStoredTickets | src/pages/Profile.tsx:30-31 | with a "currentUser" entry, the page lists exactly the tickets stored for that user, and an absent tickets key shows the no-tickets message |
| Profile.HandleCancelClick | src/pages/Profile.tsx:36-40 | the prompt is shown exactly when a user is loaded, and it comes first; the callback runs exactly when a user is loaded and the answer is yes; it receives exactly the clicked ticket and the loaded user's e-mail; the trace is exactly the prompt, followed by the one callback when confirmed, and empty with no user; nothing is written |
| Profile.CancelWithoutUserIgnoresAnswer | src/pages/Profile.tsx:37 | with no user loaded, `&&` short-circuits: nothing happens and the confirmation answer is irrelevant |
| Profile.ProfileComponent.constructor | src/pages/Profile.tsx:19-21 | the state starts as no user, no tickets, loading |
| Profile.ProfileComponent.LoadEffect | src/pages/Profile.tsx:23-34 | the effect body sets the component's fields to `AfterLoad` of the old state and the storage snapshot |

## Left out

- The seat-occupancy ledger, the two-ticket quota, writing a ticket on purchase and releasing seats on cancel: no file of the code implements them. The confirm handler only alerts and navigates. The purchase-cancel callback belongs to a parent component that is not part of this model.
- The credential check at login (a wrong password failing, `currentUser` being written): `Login.tsx` does not do it, although its tests expect it.
- JSON parsing and serialisation: storage holds parsed values. A stored value of the wrong shape, on which the source would throw or misbehave, is excluded by `Browser.WellFormed`; for uniformity it fixes the shape of every key family, including keys a given handler does not read. An empty-string value, which the source treats like an absent key, is modelled as an absent key.
- Browser and library calls (`alert`, `window.confirm`, `navigate`, React state hooks, `e.preventDefault`) are effect values or inputs. Re-rendering and the scheduling of `useEffect` are not modelled.
- `Number.prototype.toString` is modelled for integers in decimal only. Exponent notation for very large or fractional ids is left out, because catalogue ids are 1 to 10.
- `Catalog.Movie` does not keep `posterUrl`: it is only rendered.
- The dropdown menus (`src/DropDownMenu.tsx`, `src/pages/DropDownMenu.tsx`) and the catalogue page `src/App.tsx`: these are rendering and DOM event wiring, with no data logic.
- Storage-change events from other tabs: no core file listens for them.
- Rendering of the seat grid's CSS classes and the movie title: presentation only.
