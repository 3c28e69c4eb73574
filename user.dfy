/** The User model (backend/models/User.js): registration and
    authentication, search, profile lookup, partial update and removal,
    booking and unbooking listings, and direct messages with the inbox built
    from them, over the tables of the store. */
module UserModel {
  import opened Base
  import opened Text
  import opened Seqs
  import opened Store

  /** What the model hands out about a user: never the password. */
  datatype Profile = Profile(username: string, firstName: string, lastName: string, email: string)

  function ProfileOf(row: UserRow): Profile
  {
    Profile(row.username, row.firstName, row.lastName, row.email)
  }

  /** authenticate: the profile when the user exists and the password
      verifies against the stored digest; Unauthorized otherwise, without
      saying which of the two failed. */
  function Authenticate(t: Snapshot, h: Hasher, username: string, password: string): (r: Result<Profile>)
    ensures r.Ok? <==> username in t.users && Verify(h, password, t.users[username].password)
    ensures r.Ok? ==> r.value == ProfileOf(t.users[username])
    ensures r.Err? ==> r.error == Unauthorized
  {
    if username in t.users && Verify(h, password, t.users[username].password) then
      Ok(ProfileOf(t.users[username]))
    else
      Err(Unauthorized)
  }

  /** The fields a user registers with. */
  datatype Registration = Registration(username: string, password: string, firstName: string, lastName: string, email: string)

  /** register: BadRequest for a username already taken, leaving the store as
      it was; otherwise the user is stored with the digest of the password
      (hashed with `salt`), the profile is returned, and the new user can
      then authenticate with that password. */
  function RegisterStep(t: Snapshot, h: Hasher, data: Registration, salt: nat): (s: Step<Profile>)
    ensures data.username in t.users ==> s == Step(Err(BadRequest), t)
    ensures data.username !in t.users ==>
      && s.result == Ok(Profile(data.username, data.firstName, data.lastName, data.email))
      && s.after == t.(users := t.users[data.username :=
           UserRow(data.username, Hash(h, data.password, salt), data.firstName, data.lastName, data.email)])
    ensures s.result.Ok? ==> Authenticate(s.after, h, data.username, data.password) == s.result
    ensures t.Valid() ==> s.after.Valid()
  {
    if data.username in t.users then Step(Err(BadRequest), t)
    else
      var row := UserRow(data.username, Hash(h, data.password, salt), data.firstName, data.lastName, data.email);
      Step(Ok(ProfileOf(row)), t.(users := t.users[data.username := row]))
  }

  /** The pattern the search binds: none for a missing or empty (falsy) term,
      otherwise the term between two `%`. */
  function SearchPattern(username: Option<string>): (r: Option<string>)
    ensures r.Some? <==> username.Some? && username.value != ""
  {
    if username.Some? && username.value != "" then Some("%" + username.value + "%") else None
  }

  /** _filterWhereBuilder: no condition for a missing or empty search term,
      otherwise the single condition `username ILIKE $1` bound to `%term%`. */
  method FilterWhereBuilder(username: Option<string>) returns (where: string, vals: seq<string>)
    ensures username.None? || username.value == "" ==> where == "" && vals == []
    ensures username.Some? && username.value != "" ==>
      where == "WHERE username ILIKE $1" && vals == ["%" + username.value + "%"]
    ensures forall v :: v in vals <==> SearchPattern(username) == Some(v)
  {
    var whereParts: seq<string> := [];
    vals := [];
    if username.Some? && username.value != "" {
      vals := vals + ["%" + username.value + "%"];
      whereParts := whereParts + ["username ILIKE $" + Digits(|vals|)];
    }
    where := if |whereParts| > 0 then "WHERE " + Join(whereParts, " AND ") else "";
  }

  /** The username passes the condition the builder produces: there is none,
      or `username ILIKE $1` holds with the bound pattern. */
  predicate Searched(searchTerm: Option<string>, username: string)
  {
    SearchPattern(searchTerm).None? || ILike(username, SearchPattern(searchTerm).value)
  }

  /** For a term without LIKE metacharacters the search is a case-insensitive
      partial match on the username. */
  lemma SearchIsPartialMatch(searchTerm: string, username: string)
    requires Literal(searchTerm)
    ensures Searched(Some(searchTerm), username) <==> ContainsIgnoringCase(username, searchTerm)
  {
    if searchTerm == "" {
      assert StartsWithIgnoringCase(username[0..], searchTerm);
    } else {
      SubstringPattern(username, searchTerm);
    }
  }

  /** The names that pass the search, in their original order. */
  function SearchNames(names: seq<string>, searchTerm: Option<string>): (r: seq<string>)
    ensures forall u :: u in r <==> u in names && Searched(searchTerm, u)
  {
    if names == [] then []
    else
      var rest := SearchNames(names[1..], searchTerm);
      assert forall u :: u in names <==> u == names[0] || u in names[1..];
      if Searched(searchTerm, names[0]) then [names[0]] + rest else rest
  }

  /** Strictly increasing in string order. */
  predicate Increasing(names: seq<string>)
  {
    forall a, b :: 0 <= a < b < |names| ==> Less(names[a], names[b])
  }

  /** Searching keeps names that were in increasing order in increasing order. */
  lemma {:induction false} SearchNamesOrdered(names: seq<string>, searchTerm: Option<string>)
    requires Increasing(names)
    ensures Increasing(SearchNames(names, searchTerm))
  {
    if names != [] {
      SearchNamesOrdered(names[1..], searchTerm);
      var rest := SearchNames(names[1..], searchTerm);
      forall u | u in rest ensures Less(names[0], u) {
        var k :| 0 <= k < |names[1..]| && names[1..][k] == u;
        assert names[k + 1] == u;
      }
      var r := SearchNames(names, searchTerm);
      if Searched(searchTerm, names[0]) {
        assert r == [names[0]] + rest;
        forall a, b | 0 <= a < b < |r| ensures Less(r[a], r[b]) {
          if a == 0 {
            assert r[b] == rest[b - 1] && rest[b - 1] in rest;
          } else {
            assert r[a] == rest[a - 1] && r[b] == rest[b - 1];
            assert Less(rest[a - 1], rest[b - 1]);
          }
        }
      } else {
        assert r == rest;
      }
    }
  }

  /** findAll: the profiles of the users whose username passes the search,
      ordered by username. */
  function FindAll(t: Snapshot, searchTerm: Option<string>): (r: seq<Profile>)
    ensures forall p :: p in r <==> exists u :: u in t.users && p == ProfileOf(t.users[u]) && Searched(searchTerm, u)
    ensures t.Valid() ==> forall i, j :: 0 <= i < j < |r| ==> Less(r[i].username, r[j].username)
  {
    LessIsOrder();
    var sorted := SortedFromSet(t.users.Keys, Less);
    SearchNamesOrdered(sorted, searchTerm);
    var names := SearchNames(sorted, searchTerm);
    ProfilesOfNames(t, names, searchTerm);
    seq(|names|, i requires 0 <= i < |names| => ProfileOf(t.users[names[i]]))
  }

  lemma ProfilesOfNames(t: Snapshot, names: seq<string>, searchTerm: Option<string>)
    requires forall u :: u in names <==> u in t.users && Searched(searchTerm, u)
    requires Increasing(names)
    ensures var r := seq(|names|, i requires 0 <= i < |names| => ProfileOf(t.users[names[i]]));
      && (forall p :: p in r <==> exists u :: u in t.users && p == ProfileOf(t.users[u]) && Searched(searchTerm, u))
      && (t.Valid() ==> forall i, j :: 0 <= i < j < |r| ==> Less(r[i].username, r[j].username))
  {
    var r := seq(|names|, i requires 0 <= i < |names| => ProfileOf(t.users[names[i]]));
    forall p | p in r ensures exists u :: u in t.users && p == ProfileOf(t.users[u]) && Searched(searchTerm, u) {
      var i :| 0 <= i < |r| && r[i] == p;
      assert names[i] in names;
    }
    forall p | exists u :: u in t.users && p == ProfileOf(t.users[u]) && Searched(searchTerm, u) ensures p in r {
      var u :| u in t.users && p == ProfileOf(t.users[u]) && Searched(searchTerm, u);
      var i :| 0 <= i < |names| && names[i] == u;
      assert r[i] == p;
    }
    if t.Valid() {
      forall i, j | 0 <= i < j < |r| ensures Less(r[i].username, r[j].username) {
        assert names[i] in names && names[j] in names;
        assert r[i].username == names[i] && r[j].username == names[j];
      }
    }
  }

  /** A listing as a user's profile shows it. */
  datatype ListingSummary = ListingSummary(id: nat, title: string, description: string, location: string, price: int)

  function Summary(row: ListingRow): ListingSummary
  {
    ListingSummary(row.id, row.title, row.description, row.location, row.price)
  }

  /** The full profile: the user's listings and the ids of the listings the user booked. */
  datatype UserDetail = UserDetail(profile: Profile, listings: seq<ListingSummary>, bookings: seq<nat>)

  /** The summaries of the rows owned by `username`, in order. */
  function OwnedBy(rows: seq<ListingRow>, username: string): (r: seq<ListingSummary>)
    ensures forall s :: s in r <==> exists row :: row in rows && row.username == username && s == Summary(row)
  {
    if rows == [] then []
    else
      var rest := OwnedBy(rows[1..], username);
      assert forall row :: row in rows[1..] ==> row in rows;
      assert forall row :: row in rows && row != rows[0] ==> row in rows[1..];
      if rows[0].username == username then [Summary(rows[0])] + rest else rest
  }

  predicate SummaryIdsIncreasing(r: seq<ListingSummary>)
  {
    forall i, j :: 0 <= i < j < |r| ==> r[i].id < r[j].id
  }

  /** Summaries with increasing ids hold no summary twice. */
  lemma SummaryIdsNoDuplicates(r: seq<ListingSummary>)
    requires SummaryIdsIncreasing(r)
    ensures NoDuplicates(r)
  {
  }

  /** Rows in increasing id order give summaries in increasing id order. */
  lemma {:induction false} OwnedByIncreasing(rows: seq<ListingRow>, username: string)
    requires IdsIncreasing(rows)
    ensures SummaryIdsIncreasing(OwnedBy(rows, username))
  {
    if rows != [] {
      OwnedByIncreasing(rows[1..], username);
      var rest := OwnedBy(rows[1..], username);
      forall n | 0 <= n < |rest| ensures rows[0].id < rest[n].id {
        assert rest[n] in rest;
        var row :| row in rows[1..] && row.username == username && rest[n] == Summary(row);
        var k :| 0 <= k < |rows[1..]| && rows[1..][k] == row;
        assert rows[k + 1] == row;
      }
      if rows[0].username == username {
        var r := [Summary(rows[0])] + rest;
        assert OwnedBy(rows, username) == r;
        forall i, j | 0 <= i < j < |r| ensures r[i].id < r[j].id {
          assert r[j] == rest[j - 1];
          if i > 0 {
            assert r[i] == rest[i - 1];
          }
        }
      }
    }
  }

  /** get: NotFound for an unknown user; otherwise the profile, every listing
      the user owns, and the ids the user has booked in ascending order. */
  function Get(t: Snapshot, username: string): (r: Result<UserDetail>)
    ensures r.Err? <==> username !in t.users
    ensures r.Err? ==> r.error == NotFound
    ensures r.Ok? ==> r.value.profile == ProfileOf(t.users[username])
    ensures r.Ok? ==> forall s :: s in r.value.listings <==>
      exists row :: row in t.listings.Values && row.username == username && s == Summary(row)
    ensures r.Ok? ==> forall id :: id in r.value.bookings <==> Booking(username, id) in t.bookings
    ensures r.Ok? ==> forall i, j :: 0 <= i < j < |r.value.bookings| ==> r.value.bookings[i] < r.value.bookings[j]
    ensures r.Ok? && t.Valid() ==> NoDuplicates(r.value.listings)
  {
    if username !in t.users then Err(NotFound)
    else
      IdLessIsOrder();
      var booked := set b | b in t.bookings && b.username == username :: b.listingId;
      assert forall id :: id in booked <==> Booking(username, id) in t.bookings by {
        forall id | Booking(username, id) in t.bookings ensures id in booked {
          var b := Booking(username, id);
          assert b in t.bookings && b.username == username;
        }
      }
      var rows := AllRows(t.listings);
      var owned := OwnedBy(rows, username);
      assert t.Valid() ==> NoDuplicates(owned) by {
        if t.Valid() {
          OwnedByIncreasing(rows, username);
          SummaryIdsNoDuplicates(owned);
        }
      }
      Ok(UserDetail(ProfileOf(t.users[username]), owned, SortedFromSet(booked, IdLess)))
  }

  /** The fields an update may supply, and the current password that must
      verify first. The password itself is never one of the fields updated. */
  datatype UserPatch = UserPatch(firstName: Option<string>, lastName: Option<string>, email: Option<string>, password: string)

  predicate NoFields(p: UserPatch)
  {
    p.firstName.None? && p.lastName.None? && p.email.None?
  }

  function Patched(row: UserRow, p: UserPatch): UserRow
  {
    row.(firstName := Override(row.firstName, p.firstName),
         lastName := Override(row.lastName, p.lastName),
         email := Override(row.email, p.email))
  }

  /** update: re-authenticates first, so a wrong password (or an unknown
      user) is Unauthorized and changes nothing; then a patch with no field
      left is BadRequest; otherwise the supplied fields change and the stored
      password digest, the username and the other users stay as they were. */
  function UpdateStep(t: Snapshot, h: Hasher, username: string, data: UserPatch): (s: Step<Profile>)
    ensures s.result.Err? ==> s.after == t
    ensures Authenticate(t, h, username, data.password).Err? ==> s.result == Err(Unauthorized)
    ensures Authenticate(t, h, username, data.password).Ok? && NoFields(data) ==> s.result == Err(BadRequest)
    ensures s.result.Ok? <==> Authenticate(t, h, username, data.password).Ok? && !NoFields(data)
    ensures s.result.Ok? ==> (username in t.users && username in s.after.users &&
      var was, row := t.users[username], s.after.users[username];
      && s.after == t.(users := t.users[username := row])
      && row.username == was.username && row.password == was.password
      && (data.firstName.Some? ==> row.firstName == data.firstName.value)
      && (data.firstName.None? ==> row.firstName == was.firstName)
      && (data.lastName.Some? ==> row.lastName == data.lastName.value)
      && (data.lastName.None? ==> row.lastName == was.lastName)
      && (data.email.Some? ==> row.email == data.email.value)
      && (data.email.None? ==> row.email == was.email)
      && s.result.value == ProfileOf(row))
    ensures t.Valid() ==> s.after.Valid()
  {
    if Authenticate(t, h, username, data.password).Err? then Step(Err(Unauthorized), t)
    else if NoFields(data) then Step(Err(BadRequest), t)
    else
      var row := Patched(t.users[username], data);
      Step(Ok(ProfileOf(row)), t.(users := t.users[username := row]))
  }

  /** remove: re-authenticates first, so bad credentials are Unauthorized and
      change nothing; otherwise only the user's row goes. Listings, bookings
      and messages that name the user are left in place. */
  function RemoveStep(t: Snapshot, h: Hasher, username: string, password: string): (s: Step<()>)
    ensures s.result.Ok? <==> Authenticate(t, h, username, password).Ok?
    ensures s.result.Err? ==> s.result.error == Unauthorized && s.after == t
    ensures s.result.Ok? ==> s.after == t.(users := t.users - {username}) && username !in s.after.users
    ensures t.Valid() ==> s.after.Valid()
  {
    if Authenticate(t, h, username, password).Err? then Step(Err(Unauthorized), t)
    else Step(Ok(()), t.(users := t.users - {username}))
  }

  /** bookListing. The checks run in this order: NotFound for a missing
      listing, NotFound for a missing user, BadRequest when the user owns the
      listing, BadRequest when the pair is already booked. Any failure leaves
      the store as it was; success adds exactly the one pair and returns the
      listing's title. */
  function BookStep(t: Snapshot, username: string, listingId: nat): (s: Step<string>)
    ensures s.result.Err? ==> s.after == t
    ensures listingId !in t.listings ==> s.result == Err(NotFound)
    ensures listingId in t.listings && username !in t.users ==> s.result == Err(NotFound)
    ensures listingId in t.listings && username in t.users && t.listings[listingId].username == username ==>
      s.result == Err(BadRequest)
    ensures (listingId in t.listings && username in t.users && t.listings[listingId].username != username
      && Booking(username, listingId) in t.bookings) ==> s.result == Err(BadRequest)
    ensures s.result.Ok? <==>
      && listingId in t.listings && username in t.users
      && t.listings[listingId].username != username && Booking(username, listingId) !in t.bookings
    ensures s.result.Ok? ==>
      && s.result.value == t.listings[listingId].title
      && s.after == t.(bookings := t.bookings + {Booking(username, listingId)})
      && |s.after.bookings| == |t.bookings| + 1
    ensures t.Valid() ==> s.after.Valid()
  {
    if listingId !in t.listings then Step(Err(NotFound), t)
    else
      var listing := t.listings[listingId];
      if username !in t.users then Step(Err(NotFound), t)
      else if listing.username == username then Step(Err(BadRequest), t)
      else if Booking(username, listingId) in t.bookings then Step(Err(BadRequest), t)
      else Step(Ok(listing.title), t.(bookings := t.bookings + {Booking(username, listingId)}))
  }

  /** unBookListing. The same two NotFound checks in the same order, then
      BadRequest when the pair is not booked (the owner check is not made);
      success removes exactly that pair and returns the title. */
  function UnbookStep(t: Snapshot, username: string, listingId: nat): (s: Step<string>)
    ensures s.result.Err? ==> s.after == t
    ensures listingId !in t.listings ==> s.result == Err(NotFound)
    ensures listingId in t.listings && username !in t.users ==> s.result == Err(NotFound)
    ensures listingId in t.listings && username in t.users && Booking(username, listingId) !in t.bookings ==>
      s.result == Err(BadRequest)
    ensures s.result.Ok? <==> listingId in t.listings && username in t.users && Booking(username, listingId) in t.bookings
    ensures s.result.Ok? ==>
      && s.result.value == t.listings[listingId].title
      && s.after == t.(bookings := t.bookings - {Booking(username, listingId)})
      && |s.after.bookings| == |t.bookings| - 1
    ensures t.Valid() ==> s.after.Valid()
  {
    if listingId !in t.listings then Step(Err(NotFound), t)
    else if username !in t.users then Step(Err(NotFound), t)
    else if Booking(username, listingId) !in t.bookings then Step(Err(BadRequest), t)
    else Step(Ok(t.listings[listingId].title), t.(bookings := t.bookings - {Booking(username, listingId)}))
  }

  /** Booking and then unbooking the same listing restores the store. */
  lemma BookThenUnbook(t: Snapshot, username: string, listingId: nat)
    requires BookStep(t, username, listingId).result.Ok?
    ensures var booked := BookStep(t, username, listingId);
      UnbookStep(booked.after, username, listingId) == Step(booked.result, t)
  {
    var b := Booking(username, listingId);
    assert t.bookings + {b} - {b} == t.bookings;
  }

  /** In a valid store anything booked can be unbooked and booked again,
      which restores the store: nobody holds a booking on their own listing. */
  lemma UnbookThenBook(t: Snapshot, username: string, listingId: nat)
    requires t.Valid()
    requires UnbookStep(t, username, listingId).result.Ok?
    ensures var unbooked := UnbookStep(t, username, listingId);
      BookStep(unbooked.after, username, listingId) == Step(unbooked.result, t)
  {
    var b := Booking(username, listingId);
    assert t.bookings - {b} + {b} == t.bookings;
  }

  /** A listing as the bookings query returns it. */
  datatype BookedListing = BookedListing(id: nat, title: string, description: string, price: int, location: string, image: Option<string>)

  function BookedView(row: ListingRow): BookedListing
  {
    BookedListing(row.id, row.title, row.description, row.price, row.location, row.image)
  }

  function BookedBy(rows: seq<ListingRow>, bookings: set<Booking>, username: string): (r: seq<BookedListing>)
    ensures forall v :: v in r <==> exists row :: row in rows && Booking(username, row.id) in bookings && v == BookedView(row)
  {
    if rows == [] then []
    else
      var rest := BookedBy(rows[1..], bookings, username);
      assert forall row :: row in rows[1..] ==> row in rows;
      assert forall row :: row in rows && row != rows[0] ==> row in rows[1..];
      if Booking(username, rows[0].id) in bookings then [BookedView(rows[0])] + rest else rest
  }

  predicate BookedIdsIncreasing(r: seq<BookedListing>)
  {
    forall i, j :: 0 <= i < j < |r| ==> r[i].id < r[j].id
  }

  /** Booked listings with increasing ids hold no listing twice. */
  lemma BookedIdsNoDuplicates(r: seq<BookedListing>)
    requires BookedIdsIncreasing(r)
    ensures NoDuplicates(r)
  {
  }

  /** Rows in increasing id order give booked listings in increasing id order. */
  lemma {:induction false} BookedByIncreasing(rows: seq<ListingRow>, bookings: set<Booking>, username: string)
    requires IdsIncreasing(rows)
    ensures BookedIdsIncreasing(BookedBy(rows, bookings, username))
  {
    if rows != [] {
      BookedByIncreasing(rows[1..], bookings, username);
      var rest := BookedBy(rows[1..], bookings, username);
      forall n | 0 <= n < |rest| ensures rows[0].id < rest[n].id {
        assert rest[n] in rest;
        var row :| row in rows[1..] && Booking(username, row.id) in bookings && rest[n] == BookedView(row);
        var k :| 0 <= k < |rows[1..]| && rows[1..][k] == row;
        assert rows[k + 1] == row;
      }
      if Booking(username, rows[0].id) in bookings {
        var r := [BookedView(rows[0])] + rest;
        assert BookedBy(rows, bookings, username) == r;
        forall i, j | 0 <= i < j < |r| ensures r[i].id < r[j].id {
          assert r[j] == rest[j - 1];
          if i > 0 {
            assert r[i] == rest[i - 1];
          }
        }
      }
    }
  }

  /** getBookings: NotFound for an unknown user; otherwise every stored
      listing joined to one of the user's bookings. */
  function GetBookings(t: Snapshot, username: string): (r: Result<seq<BookedListing>>)
    ensures r.Err? <==> username !in t.users
    ensures r.Err? ==> r.error == NotFound
    ensures r.Ok? ==> forall v :: v in r.value <==>
      exists row :: row in t.listings.Values && Booking(username, row.id) in t.bookings && v == BookedView(row)
    ensures r.Ok? && t.Valid() ==> NoDuplicates(r.value)
  {
    if username !in t.users then Err(NotFound)
    else
      var rows := AllRows(t.listings);
      var booked := BookedBy(rows, t.bookings, username);
      assert t.Valid() ==> NoDuplicates(booked) by {
        if t.Valid() {
          BookedByIncreasing(rows, t.bookings, username);
          BookedIdsNoDuplicates(booked);
        }
      }
      Ok(booked)
  }

  /** What sendMessage returns. */
  datatype Sent = Sent(text: string, sentTime: nat)

  /** sendMessage: BadRequest when sender and recipient are the same user,
      before any lookup; then NotFound for an unknown sender, then for an
      unknown recipient; otherwise the message is appended, stamped with the
      clock, which moves on. */
  function SendStep(t: Snapshot, username: string, otherUser: string, text: string): (s: Step<Sent>)
    ensures s.result.Err? ==> s.after == t
    ensures username == otherUser ==> s.result == Err(BadRequest)
    ensures username != otherUser && (username !in t.users || otherUser !in t.users) ==> s.result == Err(NotFound)
    ensures s.result.Ok? <==> username != otherUser && username in t.users && otherUser in t.users
    ensures s.result.Ok? ==>
      && s.result.value == Sent(text, t.clock)
      && s.after == t.(messages := t.messages + [Message(username, otherUser, text, t.clock)], clock := t.clock + 1)
    ensures t.Valid() ==> s.after.Valid()
  {
    if username == otherUser then Step(Err(BadRequest), t)
    else if username !in t.users then Step(Err(NotFound), t)
    else if otherUser !in t.users then Step(Err(NotFound), t)
    else
      var m := Message(username, otherUser, text, t.clock);
      Step(Ok(Sent(text, t.clock)), t.(messages := t.messages + [m], clock := t.clock + 1))
  }

  /** The message went between `a` and `b`, in either direction. */
  predicate Between(m: Message, a: string, b: string)
  {
    (m.toUser == a && m.fromUser == b) || (m.fromUser == a && m.toUser == b)
  }

  /** The messages between `a` and `b`, in the order they were sent. */
  function Conversation(ms: seq<Message>, a: string, b: string): (r: seq<Message>)
    ensures forall m :: m in r <==> m in ms && Between(m, a, b)
    ensures Chronological(ms) ==> Chronological(r)
  {
    if ms == [] then []
    else
      var init, last := ms[..|ms| - 1], ms[|ms| - 1];
      var rest := Conversation(init, a, b);
      assert ms == init + [last];
      assert Chronological(ms) ==> forall m :: m in rest ==> m.sentTime < last.sentTime by {
        if Chronological(ms) {
          forall m | m in rest ensures m.sentTime < last.sentTime {
            var k :| 0 <= k < |init| && init[k] == m;
            assert ms[k] == m;
          }
        }
      }
      if Between(last, a, b) then rest + [last] else rest
  }

  /** getMessages: BadRequest when the two users are the same, before any
      lookup; NotFound when either is unknown; otherwise exactly the messages
      between the two, either direction, oldest first. */
  function GetMessages(t: Snapshot, username: string, otherUser: string): (r: Result<seq<Message>>)
    ensures username == otherUser ==> r == Err(BadRequest)
    ensures username != otherUser && (username !in t.users || otherUser !in t.users) ==> r == Err(NotFound)
    ensures r.Ok? <==> username != otherUser && username in t.users && otherUser in t.users
    ensures r.Ok? ==> forall m :: m in r.value <==> m in t.messages && Between(m, username, otherUser)
    ensures r.Ok? && t.Valid() ==> Chronological(r.value)
  {
    if username == otherUser then Err(BadRequest)
    else if username !in t.users then Err(NotFound)
    else if otherUser !in t.users then Err(NotFound)
    else Ok(Conversation(t.messages, username, otherUser))
  }

  /** A message just sent is the last of the conversation, seen from either side. */
  lemma SendThenGetMessages(t: Snapshot, username: string, otherUser: string, text: string)
    requires SendStep(t, username, otherUser, text).result.Ok?
    ensures var after, m := SendStep(t, username, otherUser, text).after, Message(username, otherUser, text, t.clock);
      && GetMessages(after, username, otherUser) == Ok(GetMessages(t, username, otherUser).value + [m])
      && GetMessages(after, otherUser, username) == Ok(GetMessages(t, otherUser, username).value + [m])
  {
    var ms := t.messages + [Message(username, otherUser, text, t.clock)];
    assert ms[..|ms| - 1] == t.messages;
  }

  predicate Involves(m: Message, username: string)
  {
    m.toUser == username || m.fromUser == username
  }

  /** The other party of a (from, to) pair, seen from `username`. */
  function Other(p: (string, string), username: string): string
  {
    if p.0 == username then p.1 else p.0
  }

  function Correspondent(m: Message, username: string): string
  {
    Other((m.fromUser, m.toUser), username)
  }

  /** `username` has exchanged at least one message with `c`. */
  predicate Corresponded(ms: seq<Message>, username: string, c: string)
  {
    exists k :: 0 <= k < |ms| && Involves(ms[k], username) && Correspondent(ms[k], username) == c
  }

  /** The time of the last message between `username` and `c`; in a
      chronological log, the latest time of any message between them. */
  function LastExchange(ms: seq<Message>, username: string, c: string): (r: nat)
    requires Corresponded(ms, username, c)
    ensures exists k :: 0 <= k < |ms| && Involves(ms[k], username) && Correspondent(ms[k], username) == c && ms[k].sentTime == r
    ensures Chronological(ms) ==> forall k :: 0 <= k < |ms| && Involves(ms[k], username) && Correspondent(ms[k], username) == c ==> ms[k].sentTime <= r
  {
    var init, last := ms[..|ms| - 1], ms[|ms| - 1];
    if Involves(last, username) && Correspondent(last, username) == c then last.sentTime
    else
      assert Corresponded(init, username, c) by {
        var k :| 0 <= k < |ms| && Involves(ms[k], username) && Correspondent(ms[k], username) == c;
        assert k < |init| && init[k] == ms[k];
      }
      var r := LastExchange(init, username, c);
      assert exists k :: 0 <= k < |ms| && Involves(ms[k], username) && Correspondent(ms[k], username) == c && ms[k].sentTime == r by {
        var k :| 0 <= k < |init| && Involves(init[k], username) && Correspondent(init[k], username) == c && init[k].sentTime == r;
        assert ms[k] == init[k];
      }
      assert Chronological(ms) ==> forall k :: 0 <= k < |ms| && Involves(ms[k], username) && Correspondent(ms[k], username) == c ==> ms[k].sentTime <= r by {
        if Chronological(ms) {
          forall k | 0 <= k < |ms| && Involves(ms[k], username) && Correspondent(ms[k], username) == c ensures ms[k].sentTime <= r {
            assert k < |init| && init[k] == ms[k];
          }
        }
      }
      r
  }

  /** The messages `username` sent or received, newest first. */
  function NewestFirst(ms: seq<Message>, username: string): (r: seq<Message>)
    ensures forall m :: m in r <==> m in ms && Involves(m, username)
    ensures Chronological(ms) ==> forall i, j :: 0 <= i < j < |r| ==> r[i].sentTime > r[j].sentTime
  {
    if ms == [] then []
    else
      var init, last := ms[..|ms| - 1], ms[|ms| - 1];
      var rest := NewestFirst(init, username);
      assert ms == init + [last];
      assert Chronological(ms) ==> forall m :: m in rest ==> m.sentTime < last.sentTime by {
        if Chronological(ms) {
          forall m | m in rest ensures m.sentTime < last.sentTime {
            var k :| 0 <= k < |init| && init[k] == m;
            assert ms[k] == m;
          }
        }
      }
      if Involves(last, username) then [last] + rest else rest
  }

  /** The (from, to) pair of each message. */
  function Pairs(ms: seq<Message>): (r: seq<(string, string)>)
    ensures |r| == |ms|
    ensures forall i :: 0 <= i < |ms| ==> r[i] == (ms[i].fromUser, ms[i].toUser)
  {
    if ms == [] then [] else [(ms[0].fromUser, ms[0].toUser)] + Pairs(ms[1..])
  }

  /** The other party of each pair. */
  function Others(ps: seq<(string, string)>, username: string): (r: seq<string>)
    ensures |r| == |ps|
    ensures forall i :: 0 <= i < |ps| ==> r[i] == Other(ps[i], username)
  {
    if ps == [] then [] else [Other(ps[0], username)] + Others(ps[1..], username)
  }

  /** The grouping query: the (from, to) pairs of the user's messages, each
      once, ordered by the latest message of the pair, newest first. With
      distinct send times, the order of first appearance in the newest-first
      list is exactly ORDER BY MAX(sent_time) DESC. */
  function Groups(ms: seq<Message>, username: string): (r: seq<(string, string)>)
    ensures NoDuplicates(r)
    ensures forall p :: p in r <==> p in Pairs(NewestFirst(ms, username))
  {
    Dedup(Pairs(NewestFirst(ms, username)))
  }

  /** getInboxUsers: NotFound for an unknown user; otherwise everyone the user
      has exchanged a message with, each once, the most recent exchange first. */
  function GetInboxUsers(t: Snapshot, username: string): (r: Result<seq<string>>)
    ensures r.Err? <==> username !in t.users
    ensures r.Err? ==> r.error == NotFound
    ensures r.Ok? ==> NoDuplicates(r.value)
    ensures r.Ok? ==> forall c :: c in r.value <==> Corresponded(t.messages, username, c)
    ensures r.Ok? && t.Valid() ==> forall i, j :: 0 <= i < j < |r.value| ==>
      LastExchange(t.messages, username, r.value[i]) > LastExchange(t.messages, username, r.value[j])
  {
    if username !in t.users then Err(NotFound)
    else
      InboxOrder(t.messages, username);
      Ok(Dedup(Others(Groups(t.messages, username), username)))
  }

  /** Mapping the groups to the other party and de-duplicating is the same as
      de-duplicating the other party of every message, the grouping aside. */
  lemma {:induction false} DedupOthersFrom(ps: seq<(string, string)>, seen: set<(string, string)>, username: string)
    ensures var image := set p | p in seen :: Other(p, username);
      DedupFrom(Others(DedupFrom(ps, seen), username), image) == DedupFrom(Others(ps, username), image)
  {
    var image := set p | p in seen :: Other(p, username);
    if ps != [] {
      var p0 := ps[0];
      var os := Others(ps, username);
      assert os[0] == Other(p0, username) && os[1..] == Others(ps[1..], username);
      if p0 in seen {
        DedupOthersFrom(ps[1..], seen, username);
      } else {
        var seen' := seen + {p0};
        var image' := set p | p in seen' :: Other(p, username);
        assert image' == image + {Other(p0, username)};
        DedupOthersFrom(ps[1..], seen', username);
        var d := DedupFrom(ps[1..], seen');
        var od := Others([p0] + d, username);
        assert od[0] == Other(p0, username) && od[1..] == Others(d, username);
        if Other(p0, username) in image {
          assert image' == image;
        }
      }
    }
  }

  /** The correspondents of the newest-first messages are exactly those the
      user has exchanged messages with, and the first time each appears is
      the time of the last exchange with them. */
  lemma {:induction false} FirstAppearanceIsLastExchange(ms: seq<Message>, username: string)
    ensures var cs := Others(Pairs(NewestFirst(ms, username)), username);
      forall c :: c in cs <==> Corresponded(ms, username, c)
    ensures var rs := NewestFirst(ms, username);
      var cs := Others(Pairs(rs), username);
      forall c :: c in cs ==> Corresponded(ms, username, c) && rs[IndexOf(cs, c)].sentTime == LastExchange(ms, username, c)
  {
    if ms != [] {
      var init, last := ms[..|ms| - 1], ms[|ms| - 1];
      FirstAppearanceIsLastExchange(init, username);
      var rs', rs := NewestFirst(init, username), NewestFirst(ms, username);
      var cs', cs := Others(Pairs(rs'), username), Others(Pairs(rs), username);
      forall c ensures Corresponded(ms, username, c) <==> Corresponded(init, username, c) || (Involves(last, username) && Correspondent(last, username) == c) {
        if Corresponded(ms, username, c) {
          var k :| 0 <= k < |ms| && Involves(ms[k], username) && Correspondent(ms[k], username) == c;
          if k < |init| {
            assert init[k] == ms[k];
          }
        }
        if Corresponded(init, username, c) {
          var k :| 0 <= k < |init| && Involves(init[k], username) && Correspondent(init[k], username) == c;
          assert ms[k] == init[k];
        }
      }
      if Involves(last, username) {
        assert rs == [last] + rs';
        assert cs == [Correspondent(last, username)] + cs';
        forall c | c in cs ensures Corresponded(ms, username, c) && rs[IndexOf(cs, c)].sentTime == LastExchange(ms, username, c) {
          if c != Correspondent(last, username) {
            assert c in cs';
            assert cs[1..] == cs';
            assert IndexOf(cs, c) == 1 + IndexOf(cs', c);
          }
        }
      } else {
        assert rs == rs';
      }
    }
  }

  /** The inbox lists every correspondent once, ordered by the last exchange. */
  lemma InboxOrder(ms: seq<Message>, username: string)
    ensures var r := Dedup(Others(Groups(ms, username), username));
      forall c :: c in r <==> Corresponded(ms, username, c)
    ensures var r := Dedup(Others(Groups(ms, username), username));
      Chronological(ms) ==> forall i, j :: 0 <= i < j < |r| ==>
        Corresponded(ms, username, r[i]) && Corresponded(ms, username, r[j]) &&
        LastExchange(ms, username, r[i]) > LastExchange(ms, username, r[j])
  {
    var rs := NewestFirst(ms, username);
    var cs := Others(Pairs(rs), username);
    InboxIsCorrespondents(ms, username);
    FirstAppearanceIsLastExchange(ms, username);
    if Chronological(ms) {
      DedupByLastExchange(ms, username);
    }
  }

  /** Grouping by (from, to) before taking the other party loses nobody and
      changes no order of first appearance. */
  lemma InboxIsCorrespondents(ms: seq<Message>, username: string)
    ensures Dedup(Others(Groups(ms, username), username)) == Dedup(Others(Pairs(NewestFirst(ms, username)), username))
  {
    var ps := Pairs(NewestFirst(ms, username));
    var none: set<(string, string)> := {};
    DedupOthersFrom(ps, none, username);
    var image := set p | p in none :: Other(p, username);
    assert image == {};
    calc {
      Dedup(Others(Groups(ms, username), username));
      DedupFrom(Others(DedupFrom(ps, none), username), image);
      DedupFrom(Others(ps, username), image);
    }
  }

  lemma DedupByLastExchange(ms: seq<Message>, username: string)
    requires Chronological(ms)
    requires var rs := NewestFirst(ms, username);
      var cs := Others(Pairs(rs), username);
      forall c :: c in cs ==> Corresponded(ms, username, c) && rs[IndexOf(cs, c)].sentTime == LastExchange(ms, username, c)
    ensures var r := Dedup(Others(Pairs(NewestFirst(ms, username)), username));
      forall i, j :: 0 <= i < j < |r| ==>
        Corresponded(ms, username, r[i]) && Corresponded(ms, username, r[j]) &&
        LastExchange(ms, username, r[i]) > LastExchange(ms, username, r[j])
  {
    var rs := NewestFirst(ms, username);
    var cs := Others(Pairs(rs), username);
    var r := Dedup(cs);
    forall i, j | 0 <= i < j < |r| ensures
      Corresponded(ms, username, r[i]) && Corresponded(ms, username, r[j]) &&
      LastExchange(ms, username, r[i]) > LastExchange(ms, username, r[j])
    {
      assert r[i] in r && r[j] in r;
      var a, b := IndexOf(cs, r[i]), IndexOf(cs, r[j]);
      assert a < b < |rs|;
      assert rs[a].sentTime > rs[b].sentTime;
    }
  }

  /** Right after a user sends a message, its recipient heads the user's inbox. */
  lemma SendThenInbox(t: Snapshot, username: string, otherUser: string, text: string)
    requires t.Valid()
    requires SendStep(t, username, otherUser, text).result.Ok?
    ensures var inbox := GetInboxUsers(SendStep(t, username, otherUser, text).after, username);
      inbox.Ok? && |inbox.value| > 0 && inbox.value[0] == otherUser
  {
    var after := SendStep(t, username, otherUser, text).after;
    var ms := after.messages;
    var r := GetInboxUsers(after, username).value;
    assert Involves(ms[|ms| - 1], username) && Correspondent(ms[|ms| - 1], username) == otherUser;
    assert Corresponded(ms, username, otherUser);
    var j := IndexOf(r, otherUser);
    if j > 0 {
      assert false;
    }
  }

  /** The User class: its state-changing operations, applied to the store in place. */
  class User {

    static method Register(db: Database, h: Hasher, data: Registration, salt: nat) returns (r: Result<Profile>)
      requires db.Valid()
      modifies db
      ensures db.Valid()
      ensures Step(r, db.State()) == RegisterStep(old(db.State()), h, data, salt)
    {
      if data.username in db.users {
        return Err(BadRequest);
      }
      var hashedPassword := Hash(h, data.password, salt);
      var row := UserRow(data.username, hashedPassword, data.firstName, data.lastName, data.email);
      db.users := db.users[data.username := row];
      r := Ok(ProfileOf(row));
    }

    static method Update(db: Database, h: Hasher, username: string, data: UserPatch) returns (r: Result<Profile>)
      requires db.Valid()
      modifies db
      ensures db.Valid()
      ensures Step(r, db.State()) == UpdateStep(old(db.State()), h, username, data)
    {
      var auth := Authenticate(db.State(), h, username, data.password);
      if auth.Err? {
        return Err(Unauthorized);
      }
      if NoFields(data) {
        return Err(BadRequest);
      }
      var row := Patched(db.users[username], data);
      db.users := db.users[username := row];
      r := Ok(ProfileOf(row));
    }

    static method Remove(db: Database, h: Hasher, username: string, password: string) returns (r: Result<()>)
      requires db.Valid()
      modifies db
      ensures db.Valid()
      ensures Step(r, db.State()) == RemoveStep(old(db.State()), h, username, password)
    {
      var auth := Authenticate(db.State(), h, username, password);
      if auth.Err? {
        return Err(Unauthorized);
      }
      db.users := db.users - {username};
      r := Ok(());
    }

    static method BookListing(db: Database, username: string, listingId: nat) returns (r: Result<string>)
      requires db.Valid()
      modifies db
      ensures db.Valid()
      ensures Step(r, db.State()) == BookStep(old(db.State()), username, listingId)
    {
      if listingId !in db.listings {
        return Err(NotFound);
      }
      var listing := db.listings[listingId];
      if username !in db.users {
        return Err(NotFound);
      }
      if listing.username == username {
        return Err(BadRequest);
      }
      if Booking(username, listingId) in db.bookings {
        return Err(BadRequest);
      }
      db.bookings := db.bookings + {Booking(username, listingId)};
      r := Ok(listing.title);
    }

    static method UnBookListing(db: Database, username: string, listingId: nat) returns (r: Result<string>)
      requires db.Valid()
      modifies db
      ensures db.Valid()
      ensures Step(r, db.State()) == UnbookStep(old(db.State()), username, listingId)
    {
      if listingId !in db.listings {
        return Err(NotFound);
      }
      var listing := db.listings[listingId];
      if username !in db.users {
        return Err(NotFound);
      }
      if Booking(username, listingId) !in db.bookings {
        return Err(BadRequest);
      }
      db.bookings := db.bookings - {Booking(username, listingId)};
      r := Ok(listing.title);
    }

    static method SendMessage(db: Database, username: string, otherUser: string, text: string) returns (r: Result<Sent>)
      requires db.Valid()
      modifies db
      ensures db.Valid()
      ensures Step(r, db.State()) == SendStep(old(db.State()), username, otherUser, text)
    {
      if username == otherUser {
        return Err(BadRequest);
      }
      if username !in db.users {
        return Err(NotFound);
      }
      if otherUser !in db.users {
        return Err(NotFound);
      }
      var message := Message(username, otherUser, text, db.clock);
      db.messages := db.messages + [message];
      db.clock := db.clock + 1;
      r := Ok(Sent(text, message.sentTime));
    }
  }
}
