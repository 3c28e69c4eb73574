/** The relational store both models query, as an in-memory value: the users,
    listings, bookings and messages tables, the clock that stamps messages and
    the serial counter that numbers listings. */
module Store {
  import opened Base
  import opened Seqs

  /** A stored password: the salt and the value the hash function produced. */
  datatype Digest = Digest(salt: nat, value: string)

  /** The one-way hash the store relies on (bcrypt), given by the caller: it
      maps a password and a salt to a digest value. */
  type Hasher = (string, nat) -> string

  function Hash(h: Hasher, password: string, salt: nat): Digest
  {
    Digest(salt, h(password, salt))
  }

  /** bcrypt.compare: rehash the candidate with the stored salt and compare. */
  predicate Verify(h: Hasher, password: string, d: Digest)
  {
    h(password, d.salt) == d.value
  }

  /** A row of `users`. */
  datatype UserRow = UserRow(username: string, password: Digest, firstName: string, lastName: string, email: string)

  /** A row of `listings`; `username` is the owner. */
  datatype ListingRow = ListingRow(
    id: nat, title: string, description: string, location: string,
    price: int, username: string, image: Option<string>)

  /** A row of `bookings`. */
  datatype Booking = Booking(username: string, listingId: nat)

  /** A row of `messages`. */
  datatype Message = Message(fromUser: string, toUser: string, text: string, sentTime: nat)

  /** Messages strictly ordered by the time they were sent. */
  predicate Chronological(ms: seq<Message>)
  {
    forall i, j :: 0 <= i < j < |ms| ==> ms[i].sentTime < ms[j].sentTime
  }

  predicate IdLess(a: nat, b: nat)
  {
    a < b
  }

  lemma IdLessIsOrder()
    ensures StrictTotalOrder(IdLess)
  {
  }

  /** The contents of the four tables, the message clock and the listing serial. */
  datatype Snapshot = Snapshot(
    users: map<string, UserRow>,
    listings: map<nat, ListingRow>,
    bookings: set<Booking>,
    messages: seq<Message>,
    clock: nat,
    nextId: nat)
  {
    /** What every operation keeps true: users and listings are stored under
        their own keys, serial ids are never reused, nobody has booked a
        listing they own, and messages are between two different users and
        stamped in the order they were sent. */
    predicate Valid()
    {
      && (forall u :: u in users ==> users[u].username == u)
      && (forall id :: id in listings ==> listings[id].id == id && id < nextId)
      && (forall b :: b in bookings ==> b.listingId < nextId)
      && (forall b :: b in bookings && b.listingId in listings ==> listings[b.listingId].username != b.username)
      && Chronological(messages)
      && (forall i :: 0 <= i < |messages| ==> messages[i].sentTime < clock && messages[i].fromUser != messages[i].toUser)
    }
  }

  predicate IdsIncreasing(rows: seq<ListingRow>)
  {
    forall i, j :: 0 <= i < j < |rows| ==> rows[i].id < rows[j].id
  }

  lemma IdsIncreasingNoDuplicates(rows: seq<ListingRow>)
    requires IdsIncreasing(rows)
    ensures NoDuplicates(rows)
  {
  }

  /** The rows stored under `ids`, in that order. */
  function RowsAt(listings: map<nat, ListingRow>, ids: seq<nat>): (rows: seq<ListingRow>)
    requires forall id :: id in ids <==> id in listings
    requires forall i, j :: 0 <= i < j < |ids| ==> IdLess(ids[i], ids[j])
    ensures forall row :: row in rows <==> row in listings.Values
    ensures (forall id :: id in listings ==> listings[id].id == id) ==> IdsIncreasing(rows)
  {
    var rows := seq(|ids|, i requires 0 <= i < |ids| => listings[ids[i]]);
    assert forall row :: row in listings.Values ==> row in rows by {
      forall row | row in listings.Values ensures row in rows {
        var id :| id in listings && listings[id] == row;
        var i :| 0 <= i < |ids| && ids[i] == id;
        assert rows[i] == row;
      }
    }
    assert (forall id :: id in listings ==> listings[id].id == id) ==> IdsIncreasing(rows) by {
      if forall id :: id in listings ==> listings[id].id == id {
        forall i, j | 0 <= i < j < |rows| ensures rows[i].id < rows[j].id {
          assert IdLess(ids[i], ids[j]);
          assert rows[i].id == ids[i] && rows[j].id == ids[j];
        }
      }
    }
    rows
  }

  /** The stored listings in id order. */
  function AllRows(listings: map<nat, ListingRow>): (rows: seq<ListingRow>)
    ensures forall row :: row in rows <==> row in listings.Values
    ensures (forall id :: id in listings ==> listings[id].id == id) ==> IdsIncreasing(rows)
  {
    IdLessIsOrder();
    var ids := SortedFromSet(listings.Keys, IdLess);
    RowsAt(listings, ids)
  }

  /** What a state-changing operation returns or throws, and the store after it. */
  datatype Step<T> = Step(result: Result<T>, after: Snapshot)

  /** The database connection the models share, holding the tables in place. */
  class Database {
    var users: map<string, UserRow>
    var listings: map<nat, ListingRow>
    var bookings: set<Booking>
    var messages: seq<Message>
    var clock: nat
    var nextId: nat

    function State(): Snapshot
      reads this
    {
      Snapshot(users, listings, bookings, messages, clock, nextId)
    }

    predicate Valid()
      reads this
    {
      State().Valid()
    }

    /** An empty database; listing serials start at 1. */
    constructor ()
      ensures Valid()
      ensures State() == Snapshot(map[], map[], {}, [], 0, 1)
    {
      users, listings, bookings, messages := map[], map[], {}, [];
      clock, nextId := 0, 1;
    }
  }
}
