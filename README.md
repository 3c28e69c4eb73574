# ShareBnB data layer, modelled in Dafny

This project models the two data-access classes of the ShareBnB backend, `User` and `Listing`
(`backend/models/User.js`, `backend/models/Listing.js`). ShareBnB is a site where users list
spaces, search and book each other's listings, and exchange direct messages. In the source
the classes talk to PostgreSQL. Here the database is an abstract store with four tables and
two counters:

- `users`, keyed by username. A row holds a password digest, never the password.
- `listings`, keyed by a serial id. The counter `nextId` holds the next id to assign.
- `bookings`, a set of (username, listing id) pairs.
- `messages`, a log whose send times come from the counter `clock`.

`Store.Snapshot` is the store as a value. `Store.Database` is the same store as a mutable object.

Each operation that changes the store is modelled twice:

- A pure specification function on snapshots, such as `UserModel.BookStep`. It returns the
  result or error together with the new snapshot. Its contract states the order of the
  error checks, the effect on every table, and that `Snapshot.Valid` is preserved.
- A static method of the class `ListingModel.Listing` or `UserModel.User`. It updates the
  `Database` in place and is proved to agree with that function.

Read-only operations (authenticate, get, findAll, getBookings, getMessages, getInboxUsers)
are functions of the snapshot.

SQL details:

- `ILIKE` is modelled by a LIKE matcher (`Text.ILike`): `%`, `_`, backslash escapes and
  ASCII case folding.
- `ORDER BY` on text uses character-code order (`Text.Less`).
- `ORDER BY` on ids and `GROUP BY` are given their meaning in sequences and sets.
- bcrypt is a hash function passed as a parameter, with an explicit salt.

Modules: `Base` (errors, Option, Result), `Text` (case folding, LIKE matching, string order),
`Seqs` (duplicates, sorting a set, de-duplication), `Store` (rows, snapshot, database,
validity), `ListingModel`, `UserModel`.

Where the code and its comments disagree, the model follows the code:

- `Listing.create` declares `DEFAULT_IMAGE` but never uses it, so the image is stored as
  given and may be absent.
- The `User.update` comment says only NotFound is thrown. The code authenticates first,
  so wrong credentials are Unauthorized.
- `Listing.update` documents only NotFound. An empty patch is rejected by the
  partial-update helper with BadRequest before the lookup happens. The model keeps that
  order.

## Model

| member | source | states |
|---|---|---|
| ListingModel.Criteria | backend/models/Listing.js:46-63 | A price bound becomes a condition exactly when it is given. A location becomes one exactly when it is non-empty. The conditions are always in the order min price, max price, location. |
| ListingModel.FilterWhereBuilder | backend/models/Listing.js:46-69 | There is one bound value per condition. Price bounds are bound as given and the location as `%location%`. The placeholders are numbered `$1..$n` in push order and joined with ` AND ` after `WHERE `. The clause is empty exactly when no filter applies. |
| ListingModel.SelectedMeansMatches | backend/models/Listing.js:32-44 | For a location without LIKE metacharacters, the generated conditions select exactly the rows that meet the documented filters: price at least min, at most max, and location containing the text case-insensitively. |
| ListingModel.SortByTitle | backend/models/Listing.js:104 | The result is a permutation of its input, ordered by title. |
| ListingModel.FindAll | backend/models/Listing.js:81-109 | BadRequest exactly when both bounds are given and min > max. Otherwise it returns exactly the stored listings the filters select, ordered by title, with no listing twice. |
| ListingModel.Get | backend/models/Listing.js:119-148 | Returns the stored row for a present id and NotFound otherwise. |
| ListingModel.CreateStep | backend/models/Listing.js:15-30 | The new listing gets the next serial id, not used before. It stores the given fields under the given owner and is then returned by `Get`. The new store is the old one with that row added and the id counter advanced by one. Nothing else changes, and validity is preserved. |
| ListingModel.UpdateStep | backend/models/Listing.js:164-186 | An empty patch is BadRequest, and an unknown id is NotFound. Every error leaves the store as it was. Otherwise exactly the supplied fields change, while the id, the owner and every other listing stay. Validity is preserved. |
| ListingModel.RemoveStep | backend/models/Listing.js:191-202 | An unknown id is NotFound and changes nothing. Otherwise the new store is the old one with exactly that listing removed. Validity is preserved. |
| ListingModel.Listing.Create | backend/models/Listing.js:15-30 | The in-place insert keeps the database valid and agrees with `CreateStep`. |
| ListingModel.Listing.Update | backend/models/Listing.js:164-186 | The in-place update keeps the database valid and agrees with `UpdateStep`. |
| ListingModel.Listing.Remove | backend/models/Listing.js:191-202 | The in-place delete keeps the database valid and agrees with `RemoveStep`. |
| Text.DigitsValue | backend/models/Listing.js:50-63 | The numeral printed after `$` in a placeholder reads back as the number of values bound so far, so placeholder k names the k-th bound value. |
| Text.SubstringPattern | backend/models/Listing.js:61-63 | For text without LIKE metacharacters, ILIKE against `%text%` holds exactly when the value contains the text, ignoring case. |
| UserModel.Authenticate | backend/models/User.js:22-47 | Succeeds exactly when the user exists and the password verifies against the stored digest. It then returns the profile without the password. Otherwise it is Unauthorized. |
| UserModel.RegisterStep | backend/models/User.js:56-84 | A taken username is BadRequest and changes nothing. Otherwise the user is stored with the hash of the password and the profile is returned. The new user can then authenticate with that password. Validity is preserved. |
| UserModel.FilterWhereBuilder | backend/models/User.js:115-128 | A missing or empty term gives no clause and no values. Otherwise it gives `WHERE username ILIKE $1` bound to `%term%`. The bound values are exactly the pattern `SearchPattern` gives, which is the pattern `FindAll` filters on. |
| UserModel.SearchIsPartialMatch | backend/models/User.js:104-113 | For a term without LIKE metacharacters, the search is a case-insensitive partial match on the username. |
| UserModel.FindAll | backend/models/User.js:87-102 | Returns exactly the profiles of users whose username passes the search, in strictly increasing username order. |
| UserModel.Get | backend/models/User.js:138-177 | An unknown user is NotFound. Otherwise it returns the profile, exactly the listings the user owns (each once), and exactly the ids the user booked, in ascending order. |
| UserModel.UpdateStep | backend/models/User.js:196-223 | Bad credentials are Unauthorized, and an empty patch after them is BadRequest. Neither changes anything. Otherwise exactly the supplied names and email change, while the password digest, the username and the other users stay. Validity is preserved. |
| UserModel.RemoveStep | backend/models/User.js:227-240 | Bad credentials are Unauthorized and change nothing. Otherwise only the user's row is removed. Validity is preserved. |
| UserModel.BookStep | backend/models/User.js:248-293 | The checks run in this order: listing NotFound, user NotFound, own listing BadRequest, already booked BadRequest. Success adds exactly that one pair and returns the title. Errors change nothing, and validity is preserved. |
| UserModel.UnbookStep | backend/models/User.js:301-341 | The checks run in this order: listing NotFound, user NotFound, not booked BadRequest. Success removes exactly that pair and returns the title. Errors change nothing, and validity is preserved. |
| UserModel.BookThenUnbook | backend/models/User.js:248-341 | Unbooking right after a successful booking returns the same title and restores the store. |
| UserModel.UnbookThenBook | backend/models/User.js:248-341 | In a valid store, booking right after a successful unbooking returns the same title and restores the store. |
| UserModel.GetBookings | backend/models/User.js:350-377 | An unknown user is NotFound. Otherwise it returns exactly the listings the user has booked, each once. |
| UserModel.OwnedByIncreasing | backend/models/User.js:153-164 | Owned listings taken from rows in id order come out in id order, which is why no listing appears twice. |
| UserModel.BookedByIncreasing | backend/models/User.js:361-376 | Booked listings taken from rows in id order come out in id order, which is why no listing appears twice. |
| UserModel.SendStep | backend/models/User.js:387-422 | Messaging oneself is BadRequest, checked before any lookup. Then an unknown sender or recipient is NotFound. Otherwise the message is appended with the current time, which then advances. Validity is preserved. |
| UserModel.GetMessages | backend/models/User.js:432-468 | It has the same guards as sending. Otherwise it returns exactly the messages between the two users, in either direction, oldest first. |
| UserModel.SendThenGetMessages | backend/models/User.js:387-468 | A message just sent becomes the last one of the conversation, seen from either side. |
| UserModel.LastExchange | backend/models/User.js:492-498 | Gives the send time of an actual message between the two users. In a chronological log it is the latest such time (MAX(sent_time)). |
| UserModel.Groups | backend/models/User.js:492-498 | Lists each (from, to) pair of the user's messages once. |
| UserModel.InboxOrder | backend/models/User.js:492-509 | The other party of each group, de-duplicated, is everyone the user has exchanged a message with, each once. In a chronological log they are in strictly decreasing order of the last exchange. |
| UserModel.GetInboxUsers | backend/models/User.js:474-511 | An unknown user is NotFound. Otherwise it lists every correspondent of the user once, the most recent exchange first. |
| UserModel.SendThenInbox | backend/models/User.js:387-511 | Right after a user sends a message, the recipient heads the user's inbox. |
| UserModel.User.Register | backend/models/User.js:56-84 | The in-place insert keeps the database valid and agrees with `RegisterStep`. |
| UserModel.User.Update | backend/models/User.js:196-223 | The in-place update keeps the database valid and agrees with `UpdateStep`. |
| UserModel.User.Remove | backend/models/User.js:227-240 | The in-place delete keeps the database valid and agrees with `RemoveStep`. |
| UserModel.User.BookListing | backend/models/User.js:248-293 | The in-place booking keeps the database valid and agrees with `BookStep`. |
| UserModel.User.UnBookListing | backend/models/User.js:301-341 | The in-place unbooking keeps the database valid and agrees with `UnbookStep`. |
| UserModel.User.SendMessage | backend/models/User.js:387-422 | The in-place send keeps the database valid and agrees with `SendStep`. |

## Left out

- Database I/O, connection handling and concurrency: each operation is one atomic step on the store.
- The second NotFound of `User.update` (User.js:220) and of `User.remove` (User.js:239): the model is atomic, so after a successful authenticate the row is always present.
- bcrypt itself: the hash is a parameter, and the random salt and the work factor become a `salt` argument.
- The wall clock: `sent_time` comes from a counter, which is what makes send times distinct.
- Listing and user ids of the wrong type, NaN from `+q.minPrice`, and fractional prices: ids are naturals and prices are integers.
- Database constraints not stated in these files (unique email, foreign keys and cascades on delete): removing a user or a listing leaves bookings and messages that name it.
- UserModel.Authenticate: the password is always a string. A missing password (bcrypt's compare then raises an argument error rather than Unauthorized) is not modelled.
- UserModel.RemoveStep: the password is always a string. The delete route passes the request's password unvalidated (backend/routes/users.js:82), and a missing one fails inside bcrypt with an argument error, not Unauthorized. That path is not modelled.
- UserModel.UpdateStep: the patch carries only first name, last name and email. Other keys a caller might pass through to the partial-update helper are not modelled, and a missing password is not modelled (bcrypt would raise an error rather than Unauthorized).
- The partial-update helper (backend/helpers/sql.js) is not part of this model. Only its empty-patch BadRequest and its column assignment are modelled.
- Text.ILike: a pattern ending in a lone backslash matches nothing here, whereas PostgreSQL raises an error. Case folding is ASCII only, and collation is character-code order.
- ListingModel.SelectedMeansMatches and UserModel.SearchIsPartialMatch: they are stated only for search text without `%`, `_` or backslash, because the source passes such characters into the pattern unescaped.
- UserModel.Get and UserModel.GetBookings: the order of a user's listings and of booked listings is left unspecified in the source (no ORDER BY), so only their contents are stated.
- The routes, the JSON-schema validation and the authorization middleware are outside these files.
