/**
 * The entities of the classifieds database (`Listing`, `Category`, `AuditLog`)
 * and the lookups the controllers and tests run against their tables.
 *
 * A table is a sequence of rows in insertion order, which is the order the
 * in-memory store returns them in. Timestamps are ticks of the UTC clock, the
 * value 0 standing for an unset `DateTime`. Prices are `decimal(18,4)`: an
 * integer count of ten-thousandths, so 999.99 is 9999900.
 */
module Models {
  import opened Wrappers

  datatype Listing = Listing(
    id: int,
    title: string,
    description: string,
    price: int,
    categoryId: int,
    userId: int,
    isActive: bool,
    imageUrl: Option<string>,
    createdAt: int,
    lastUpdatedAt: int)

  datatype Category = Category(id: int, name: string)

  /** One row of the AuditLogs table; `changes` is the serialised payload. */
  datatype AuditEntry = AuditEntry(
    action: string,
    entityName: string,
    entityId: Option<int>,
    userId: Option<int>,
    changes: Option<string>,
    timestamp: int)

  /** Index of the first element satisfying `p`, or `|s|` when there is none. */
  function FirstIndex<T>(s: seq<T>, p: T -> bool): (k: nat)
    ensures k <= |s|
    ensures forall j :: 0 <= j < k ==> !p(s[j])
    ensures k < |s| ==> p(s[k])
  {
    if s == [] then 0 else if p(s[0]) then 0 else 1 + FirstIndex(s[1..], p)
  }

  /** Position of the listing with primary key `id`, or `|rows|`. */
  function IndexOfListing(rows: seq<Listing>, id: int): (k: nat)
    ensures k <= |rows|
    ensures forall j :: 0 <= j < k ==> rows[j].id != id
    ensures k < |rows| ==> rows[k].id == id
  {
    FirstIndex(rows, (l: Listing) => l.id == id)
  }

  /** `FirstOrDefault(l => l.Id == id)` / `FindAsync(id)` on the Listings table. */
  function FindListing(rows: seq<Listing>, id: int): (r: Option<Listing>)
    ensures r.Some? ==> r.value in rows && r.value.id == id
    ensures r.None? <==> forall l :: l in rows ==> l.id != id
  {
    var k := IndexOfListing(rows, id);
    if k < |rows| then Some(rows[k]) else None
  }

  /** `FirstOrDefault(c => c.Id == id)` on the Categories table. */
  function FindCategory(cats: seq<Category>, id: int): (r: Option<Category>)
    ensures r.Some? ==> r.value in cats && r.value.id == id
    ensures r.None? <==> forall c :: c in cats ==> c.id != id
  {
    var k := FirstIndex(cats, (c: Category) => c.id == id);
    if k < |cats| then Some(cats[k]) else None
  }

  /** The primary key is unique. */
  predicate UniqueIds(rows: seq<Listing>)
  {
    forall i, j :: 0 <= i < j < |rows| ==> rows[i].id != rows[j].id
  }

  /** A key the store generates for a new row: positive and larger than every key in use. */
  function NextId(rows: seq<Listing>): (r: int)
    ensures r >= 1
    ensures forall l :: l in rows ==> l.id < r
  {
    if rows == [] then 1
    else
      var rest := NextId(rows[1..]);
      assert forall l :: l in rows ==> l == rows[0] || l in rows[1..];
      if rows[0].id < rest then rest else rows[0].id + 1
  }

  /** Overwriting the row found under `id` with a row of the same key: the key now finds it. */
  lemma FindAfterUpdate(rows: seq<Listing>, id: int, updated: Listing)
    requires IndexOfListing(rows, id) < |rows|
    requires updated.id == id
    ensures FindListing(rows[IndexOfListing(rows, id) := updated], id) == Some(updated)
  {
    var k := IndexOfListing(rows, id);
    var rows' := rows[k := updated];
    FirstIndexUnchangedPrefix(rows, rows', (l: Listing) => l.id == id, k);
  }

  /** ... and every other key finds what it found before. */
  lemma FindOtherAfterUpdate(rows: seq<Listing>, id: int, updated: Listing, other: int)
    requires IndexOfListing(rows, id) < |rows|
    requires updated.id == id && other != id
    ensures FindListing(rows[IndexOfListing(rows, id) := updated], other) == FindListing(rows, other)
  {
    var k := IndexOfListing(rows, id);
    var rows' := rows[k := updated];
    var p := (l: Listing) => l.id == other;
    FirstIndexSameMatches(rows, rows', p);
    var j := IndexOfListing(rows, other);
    if j < |rows| {
      assert j != k;
    }
  }

  /** Two equally long sequences that agree on `p` and agree at the first match have the same first match. */
  lemma {:induction false} FirstIndexUnchangedPrefix<T>(s: seq<T>, s': seq<T>, p: T -> bool, k: nat)
    requires |s| == |s'| && k < |s|
    requires k == FirstIndex(s, p)
    requires forall j :: 0 <= j < k ==> s'[j] == s[j]
    requires p(s'[k])
    ensures FirstIndex(s', p) == k
  {
    if k > 0 {
      FirstIndexUnchangedPrefix(s[1..], s'[1..], p, k - 1);
    }
  }

  /** The first match depends only on where `p` holds. */
  lemma {:induction false} FirstIndexSameMatches<T>(s: seq<T>, s': seq<T>, p: T -> bool)
    requires |s| == |s'|
    requires forall j :: 0 <= j < |s| ==> p(s[j]) == p(s'[j])
    ensures FirstIndex(s', p) == FirstIndex(s, p)
  {
    if s != [] && !p(s[0]) {
      FirstIndexSameMatches(s[1..], s'[1..], p);
    }
  }

  /** With unique keys, a row in the table is exactly what its key finds. */
  lemma {:induction false} FindUnique(rows: seq<Listing>, i: nat)
    requires UniqueIds(rows) && i < |rows|
    ensures FindListing(rows, rows[i].id) == Some(rows[i])
  {
    var k := IndexOfListing(rows, rows[i].id);
    assert k <= i;
  }
}
