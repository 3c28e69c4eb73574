/** The Listing model (backend/models/Listing.js): search with optional price
    bounds and a location substring, lookup by id, creation, partial update
    and removal, over the `listings` table of the store. */
module ListingModel {
  import opened Base
  import opened Text
  import opened Seqs
  import opened Store

  /** The search filters; every one of them may be omitted. */
  datatype Filters = Filters(minPrice: Option<int>, maxPrice: Option<int>, location: Option<string>)

  /** One condition of the WHERE clause. */
  datatype Criterion = MinPrice(amount: int) | MaxPrice(amount: int) | Location(part: string)

  /** A value bound to a `$k` placeholder. */
  datatype SqlValue = SqlNumber(number: int) | SqlText(text: string)

  function Rank(c: Criterion): nat
  {
    match c
    case MinPrice(_) => 0
    case MaxPrice(_) => 1
    case Location(_) => 2
  }

  /** The conditions the search applies, in the order minPrice, maxPrice,
      location. A price bound counts whenever it is given, 0 included; the
      location only when it is a non-empty string. */
  function Criteria(f: Filters): (cs: seq<Criterion>)
    ensures forall m :: MinPrice(m) in cs <==> f.minPrice == Some(m)
    ensures forall m :: MaxPrice(m) in cs <==> f.maxPrice == Some(m)
    ensures forall l :: Location(l) in cs <==> f.location == Some(l) && l != ""
    ensures forall i, j :: 0 <= i < j < |cs| ==> Rank(cs[i]) < Rank(cs[j])
  {
    (if f.minPrice.Some? then [MinPrice(f.minPrice.value)] else [])
    + (if f.maxPrice.Some? then [MaxPrice(f.maxPrice.value)] else [])
    + (if f.location.Some? && f.location.value != "" then [Location(f.location.value)] else [])
  }

  function Placeholder(slot: nat): string
  {
    "$" + Digits(slot)
  }

  /** The text of a condition whose value sits at 1-based position `slot`. */
  function Condition(c: Criterion, slot: nat): string
  {
    match c
    case MinPrice(_) => "price >= " + Placeholder(slot)
    case MaxPrice(_) => "price <= " + Placeholder(slot)
    case Location(_) => "location ILIKE " + Placeholder(slot)
  }

  /** The value bound for a condition: the bound itself, or `%location%`. */
  function Bind(c: Criterion): SqlValue
  {
    match c
    case MinPrice(m) => SqlNumber(m)
    case MaxPrice(m) => SqlNumber(m)
    case Location(l) => SqlText("%" + l + "%")
  }

  /** The conditions numbered 1, 2, ... in order. */
  function Conditions(cs: seq<Criterion>): (r: seq<string>)
    ensures |r| == |cs|
  {
    seq(|cs|, k requires 0 <= k < |cs| => Condition(cs[k], k + 1))
  }

  /** The values bound to the placeholders, in order. */
  function Bindings(cs: seq<Criterion>): (r: seq<SqlValue>)
    ensures |r| == |cs|
  {
    seq(|cs|, k requires 0 <= k < |cs| => Bind(cs[k]))
  }

  lemma PushCriterion(cs: seq<Criterion>, c: Criterion)
    ensures Conditions(cs + [c]) == Conditions(cs) + [Condition(c, |cs| + 1)]
    ensures Bindings(cs + [c]) == Bindings(cs) + [Bind(c)]
  {
    assert forall k :: 0 <= k < |cs| ==> (cs + [c])[k] == cs[k];
  }

  function WhereClause(conditions: seq<string>): string
  {
    if conditions == [] then "" else "WHERE " + Join(conditions, " AND ")
  }

  /** _filterWhereBuilder: one condition and one value per criterion present;
      the condition at position k names placeholder `$k+1`, which is where its
      value sits in `vals`; no criterion gives no WHERE clause at all. */
  method FilterWhereBuilder(f: Filters) returns (where: string, vals: seq<SqlValue>)
    ensures |vals| == |Criteria(f)|
    ensures forall k :: 0 <= k < |vals| ==> vals[k] == Bind(Criteria(f)[k])
    ensures where == WhereClause(Conditions(Criteria(f)))
    ensures where == "" <==> Criteria(f) == []
  {
    var whereParts: seq<string> := [];
    vals := [];
    ghost var cs: seq<Criterion> := [];

    if f.minPrice.Some? {
      PushCriterion(cs, MinPrice(f.minPrice.value));
      vals := vals + [SqlNumber(f.minPrice.value)];
      whereParts := whereParts + ["price >= " + Placeholder(|vals|)];
      cs := cs + [MinPrice(f.minPrice.value)];
    }
    assert whereParts == Conditions(cs) && vals == Bindings(cs);

    if f.maxPrice.Some? {
      PushCriterion(cs, MaxPrice(f.maxPrice.value));
      vals := vals + [SqlNumber(f.maxPrice.value)];
      whereParts := whereParts + ["price <= " + Placeholder(|vals|)];
      cs := cs + [MaxPrice(f.maxPrice.value)];
    }
    assert whereParts == Conditions(cs) && vals == Bindings(cs);

    if f.location.Some? && f.location.value != "" {
      PushCriterion(cs, Location(f.location.value));
      vals := vals + [SqlText("%" + f.location.value + "%")];
      whereParts := whereParts + ["location ILIKE " + Placeholder(|vals|)];
      cs := cs + [Location(f.location.value)];
    }
    assert whereParts == Conditions(cs) && vals == Bindings(cs);
    assert cs == Criteria(f);

    where := if |whereParts| > 0 then "WHERE " + Join(whereParts, " AND ") else "";
  }

  /** Whether a row passes one condition with its bound value, as the
      database evaluates it. */
  predicate Holds(c: Criterion, v: SqlValue, row: ListingRow)
  {
    match c
    case MinPrice(_) => v.SqlNumber? && row.price >= v.number
    case MaxPrice(_) => v.SqlNumber? && row.price <= v.number
    case Location(_) => v.SqlText? && ILike(row.location, v.text)
  }

  /** The row passes the WHERE clause built for `f`. */
  predicate Selected(f: Filters, row: ListingRow)
  {
    forall c :: c in Criteria(f) ==> Holds(c, Bind(c), row)
  }

  /** The documented meaning of the filters: price at least minPrice, at most
      maxPrice, and the location containing the search text, ignoring case. */
  predicate Matches(f: Filters, row: ListingRow)
  {
    && (f.minPrice.Some? ==> row.price >= f.minPrice.value)
    && (f.maxPrice.Some? ==> row.price <= f.maxPrice.value)
    && (f.location.Some? ==> ContainsIgnoringCase(row.location, f.location.value))
  }

  /** The built WHERE clause selects exactly the rows the filters describe,
      provided the location text holds no LIKE metacharacter (`%`, `_`, `\`). */
  lemma SelectedMeansMatches(f: Filters, row: ListingRow)
    requires f.location.Some? ==> Literal(f.location.value)
    ensures Selected(f, row) <==> Matches(f, row)
  {
    var cs := Criteria(f);
    if f.minPrice.Some? {
      assert MinPrice(f.minPrice.value) in cs;
    }
    if f.maxPrice.Some? {
      assert MaxPrice(f.maxPrice.value) in cs;
    }
    if f.location.Some? {
      var l := f.location.value;
      if l == "" {
        assert StartsWithIgnoringCase(row.location[0..], l);
      } else {
        assert Location(l) in cs;
        SubstringPattern(row.location, l);
      }
    }
  }

  /** The rows of `rows` the filters select, in their original order. */
  function SelectRows(rows: seq<ListingRow>, f: Filters): (r: seq<ListingRow>)
    ensures forall row :: row in r <==> row in rows && Selected(f, row)
    ensures IdsIncreasing(rows) ==> IdsIncreasing(r)
  {
    if rows == [] then []
    else
      var rest := SelectRows(rows[1..], f);
      if Selected(f, rows[0]) then
        assert IdsIncreasing(rows) ==> forall j :: 0 <= j < |rest| ==> rows[0].id < rest[j].id by {
          if IdsIncreasing(rows) {
            forall j | 0 <= j < |rest| ensures rows[0].id < rest[j].id {
              assert rest[j] in rest;
              var k :| 0 <= k < |rows[1..]| && rows[1..][k] == rest[j];
              assert rows[k + 1] == rest[j];
            }
          }
        }
        [rows[0]] + rest
      else rest
  }

  predicate TitleOrdered(rows: seq<ListingRow>)
  {
    forall i, j :: 0 <= i < j < |rows| ==> !Less(rows[j].title, rows[i].title)
  }

  /** `row` inserted into `rows` before the first title that is not smaller. */
  function InsertByTitle(row: ListingRow, rows: seq<ListingRow>): (r: seq<ListingRow>)
    ensures multiset(r) == multiset(rows) + multiset{row}
  {
    if rows == [] then [row]
    else if !Less(rows[0].title, row.title) then [row] + rows
    else
      assert rows == [rows[0]] + rows[1..];
      [rows[0]] + InsertByTitle(row, rows[1..])
  }

  lemma {:induction false} InsertByTitleOrdered(row: ListingRow, rows: seq<ListingRow>)
    requires TitleOrdered(rows)
    ensures TitleOrdered(InsertByTitle(row, rows))
  {
    if rows == [] {
    } else if !Less(rows[0].title, row.title) {
      forall j | 0 <= j < |rows| ensures !Less(rows[j].title, row.title) {
        if j > 0 && Less(rows[j].title, row.title) {
          LessTotal(rows[0].title, rows[j].title);
          if rows[0].title != rows[j].title {
            LessTransitive(rows[0].title, rows[j].title, row.title);
          }
        }
      }
    } else {
      var rest := InsertByTitle(row, rows[1..]);
      InsertByTitleOrdered(row, rows[1..]);
      assert rows == [rows[0]] + rows[1..];
      forall x | x in rest ensures !Less(x.title, rows[0].title) {
        assert x in multiset(rest);
        if x != row {
          assert x in rows[1..];
        } else if Less(x.title, rows[0].title) {
          LessTransitive(x.title, rows[0].title, x.title);
          LessIrreflexive(x.title);
        }
      }
    }
  }

  /** ORDER BY title. */
  function SortByTitle(rows: seq<ListingRow>): (r: seq<ListingRow>)
    ensures TitleOrdered(r)
    ensures multiset(r) == multiset(rows)
  {
    if rows == [] then []
    else
      var rest := SortByTitle(rows[1..]);
      assert rows == [rows[0]] + rows[1..];
      InsertByTitleOrdered(rows[0], rest);
      InsertByTitle(rows[0], rest)
  }

  /** findAll: BadRequest when both bounds are given and minPrice exceeds
      maxPrice; otherwise exactly the stored listings the WHERE clause
      selects, each once, ordered by title. */
  function FindAll(t: Snapshot, f: Filters): (r: Result<seq<ListingRow>>)
    ensures r.Err? <==> f.minPrice.Some? && f.maxPrice.Some? && f.minPrice.value > f.maxPrice.value
    ensures r.Err? ==> r.error == BadRequest
    ensures r.Ok? ==> forall row :: row in r.value <==> row in t.listings.Values && Selected(f, row)
    ensures r.Ok? ==> TitleOrdered(r.value)
    ensures r.Ok? && t.Valid() ==> NoDuplicates(r.value)
  {
    if f.minPrice.Some? && f.maxPrice.Some? && f.minPrice.value > f.maxPrice.value then
      Err(BadRequest)
    else
      var selected := SelectRows(AllRows(t.listings), f);
      var sorted := SortByTitle(selected);
      assert forall row :: row in sorted <==> row in multiset(sorted);
      assert t.Valid() ==> NoDuplicates(sorted) by {
        if t.Valid() {
          IdsIncreasingNoDuplicates(selected);
          PermutationKeepsNoDuplicates(selected, sorted);
        }
      }
      Ok(sorted)
  }

  /** get: the stored listing, or NotFound. */
  function Get(t: Snapshot, id: nat): (r: Result<ListingRow>)
    ensures r.Ok? <==> id in t.listings
    ensures r.Ok? ==> r.value == t.listings[id]
    ensures r.Err? ==> r.error == NotFound
  {
    if id in t.listings then Ok(t.listings[id]) else Err(NotFound)
  }

  /** The fields a new listing is created with. */
  datatype NewListing = NewListing(title: string, description: string, location: string, price: int, image: Option<string>)

  /** create: a fresh serial id, the given fields unchanged (no default image
      is filled in) and the given owner; nothing else in the store changes. */
  function CreateStep(t: Snapshot, fields: NewListing, username: string): (s: Step<ListingRow>)
    ensures s.result.Ok?
    ensures var row := s.result.value;
      && row.id == t.nextId && (t.Valid() ==> row.id !in t.listings) && row.username == username
      && row.title == fields.title && row.description == fields.description
      && row.location == fields.location && row.price == fields.price && row.image == fields.image
    ensures Get(s.after, t.nextId) == s.result
    ensures forall id :: id != t.nextId ==> Get(s.after, id) == Get(t, id)
    ensures s.after.users == t.users && s.after.bookings == t.bookings && s.after.messages == t.messages
    ensures s.after == t.(listings := t.listings[t.nextId := s.result.value], nextId := t.nextId + 1)
    ensures t.Valid() ==> s.after.Valid()
  {
    var row := ListingRow(t.nextId, fields.title, fields.description, fields.location, fields.price, username, fields.image);
    assert t.Valid() ==> t.nextId !in t.listings;
    Step(Ok(row), t.(listings := t.listings[t.nextId := row], nextId := t.nextId + 1))
  }

  /** The fields an update may supply; those left out keep their values. */
  datatype ListingPatch = ListingPatch(
    title: Option<string>, description: Option<string>, location: Option<string>,
    price: Option<int>, image: Option<string>)

  predicate NoFields(p: ListingPatch)
  {
    p.title.None? && p.description.None? && p.location.None? && p.price.None? && p.image.None?
  }

  function Patched(row: ListingRow, p: ListingPatch): ListingRow
  {
    row.(title := Override(row.title, p.title),
         description := Override(row.description, p.description),
         location := Override(row.location, p.location),
         price := Override(row.price, p.price),
         image := if p.image.Some? then p.image else row.image)
  }

  /** update: a partial update. An empty patch is refused with BadRequest
      before the id is looked at; an absent id is NotFound; otherwise each
      supplied field takes its new value, the id, the owner and every field
      not supplied keep theirs, and no other listing changes. */
  function UpdateStep(t: Snapshot, id: nat, p: ListingPatch): (s: Step<ListingRow>)
    ensures s.result.Err? ==> s.after == t
    ensures NoFields(p) ==> s.result == Err(BadRequest)
    ensures !NoFields(p) && id !in t.listings ==> s.result == Err(NotFound)
    ensures s.result.Ok? <==> !NoFields(p) && id in t.listings
    ensures s.result.Ok? ==>
      var was, row := t.listings[id], s.result.value;
      && row.id == was.id && row.username == was.username
      && (p.title.Some? ==> row.title == p.title.value) && (p.title.None? ==> row.title == was.title)
      && (p.description.Some? ==> row.description == p.description.value)
      && (p.description.None? ==> row.description == was.description)
      && (p.location.Some? ==> row.location == p.location.value) && (p.location.None? ==> row.location == was.location)
      && (p.price.Some? ==> row.price == p.price.value) && (p.price.None? ==> row.price == was.price)
      && (p.image.Some? ==> row.image == p.image) && (p.image.None? ==> row.image == was.image)
      && Get(s.after, id) == s.result
      && s.after == t.(listings := t.listings[id := row])
    ensures t.Valid() ==> s.after.Valid()
  {
    if NoFields(p) then Step(Err(BadRequest), t)
    else if id !in t.listings then Step(Err(NotFound), t)
    else
      var row := Patched(t.listings[id], p);
      Step(Ok(row), t.(listings := t.listings[id := row]))
  }

  /** remove: NotFound for an absent id; otherwise the id is gone and every
      other listing, and every other table, is as it was. */
  function RemoveStep(t: Snapshot, id: nat): (s: Step<()>)
    ensures s.result.Ok? <==> id in t.listings
    ensures s.result.Err? ==> s.result.error == NotFound && s.after == t
    ensures s.result.Ok? ==> Get(s.after, id) == Err(NotFound)
    ensures forall other :: other != id ==> Get(s.after, other) == Get(t, other)
    ensures s.after.users == t.users && s.after.bookings == t.bookings && s.after.messages == t.messages
    ensures s.after.nextId == t.nextId
    ensures s.result.Ok? ==> s.after == t.(listings := t.listings - {id})
    ensures t.Valid() ==> s.after.Valid()
  {
    if id in t.listings then Step(Ok(()), t.(listings := t.listings - {id}))
    else Step(Err(NotFound), t)
  }

  /** The Listing class: its state-changing operations, applied to the store in place. */
  class Listing {

    static method Create(db: Database, fields: NewListing, username: string) returns (listing: ListingRow)
      requires db.Valid()
      modifies db
      ensures db.Valid()
      ensures Step(Ok(listing), db.State()) == CreateStep(old(db.State()), fields, username)
    {
      listing := ListingRow(db.nextId, fields.title, fields.description, fields.location, fields.price, username, fields.image);
      db.listings := db.listings[db.nextId := listing];
      db.nextId := db.nextId + 1;
    }

    static method Update(db: Database, id: nat, data: ListingPatch) returns (r: Result<ListingRow>)
      requires db.Valid()
      modifies db
      ensures db.Valid()
      ensures Step(r, db.State()) == UpdateStep(old(db.State()), id, data)
    {
      if NoFields(data) {
        return Err(BadRequest);
      }
      if id !in db.listings {
        return Err(NotFound);
      }
      var listing := Patched(db.listings[id], data);
      db.listings := db.listings[id := listing];
      r := Ok(listing);
    }

    static method Remove(db: Database, id: nat) returns (r: Result<()>)
      requires db.Valid()
      modifies db
      ensures db.Valid()
      ensures Step(r, db.State()) == RemoveStep(old(db.State()), id)
    {
      if id !in db.listings {
        return Err(NotFound);
      }
      db.listings := db.listings - {id};
      r := Ok(());
    }
  }
}
