/**
 * The scenarios of `ListingsIntegrationTests`: rows written straight into a
 * fresh database and read back through the queries.
 */
module ListingsIntegrationTests {
  import opened Wrappers
  import opened Models
  import Json
  import Text
  import Store
  import Audit
  import opened Queries

  const Now: int := 638000000000000000
  const Minute: int := 600000000
  const Day: int := 864000000000

  /** A fresh database holding category 1, "Electronics". */
  method Setup() returns (ctx: Store.ClassifieldsContext)
    ensures fresh(ctx) && ctx.Valid()
    ensures ctx.listings == [] && ctx.auditLogs == [] && ctx.categories == [Category(1, "Electronics")]
  {
    ctx := new Store.ClassifieldsContext();
    ctx.AddCategory(Category(1, "Electronics"));
  }

  /** A generated-key listing of user 1 in category 1. */
  function Item(title: string, price: int): Listing
  {
    Listing(0, title, "", price, 1, 1, true, None, Now, 0)
  }

  /** A saved listing read back with its category has the saved title and price and the category's name. */
  method DatabaseCanSaveAndRetrieveListing() returns (retrieved: Option<ListingWithCategory>)
    ensures retrieved.Some?
    ensures retrieved.value.listing.title == "Test Laptop" && retrieved.value.listing.price == 5000000
    ensures retrieved.value.category.Some? && retrieved.value.category.value.name == "Electronics"
  {
    var ctx := Setup();
    var added := ctx.AddListing(Listing(1, "Test Laptop", "Test", 5000000, 1, 1, true, None, Now, 0));
    retrieved := LoadWithCategory(ctx.listings, ctx.categories, 1);
  }

  /** The i-th seeded row, for i from 1 to 9: titled "Listing i", price i * 100, active exactly when i is even, i days old. */
  function Seeded(i: int): Listing
    requires 1 <= i <= 9
  {
    Listing(i, "Listing " + [('0' as int + i) as char], "", i * 1000000, 1, 1, i % 2 == 0, None, Now - i * Day, 0)
  }

  /** Five rows in category 1, only the even ones active: the category-and-active query finds two. */
  method DatabaseIndexedQueryByCategoryAndIsActive() returns (active: seq<Listing>)
    ensures |active| == 2
    ensures forall l :: l in active ==> l.isActive
  {
    var ctx := Setup();
    for i := 1 to 6
      invariant ctx.Valid()
      invariant |ctx.listings| == i - 1
      invariant forall k :: 0 <= k < i - 1 ==> ctx.listings[k] == Seeded(k + 1)
    {
      assert forall k :: 0 <= k < |ctx.listings| ==> ctx.listings[k].id == k + 1;
      var added := ctx.AddListing(Seeded(i));
    }
    assert ctx.listings == [Seeded(1), Seeded(2), Seeded(3), Seeded(4), Seeded(5)];
    SeededActiveInCategory();
    active := ActiveInCategory(ctx.listings, 1);
  }

  /** Of the five seeded rows, the second and the fourth are active. */
  lemma SeededActiveInCategory()
    ensures ActiveInCategory([Seeded(1), Seeded(2), Seeded(3), Seeded(4), Seeded(5)], 1) == [Seeded(2), Seeded(4)]
  {
    KeepSecondAndFourth(Seeded(1), Seeded(2), Seeded(3), Seeded(4), Seeded(5), ActiveIn(1));
  }

  /** Filtering five rows of which only the second and the fourth pass keeps exactly those two, in order. */
  lemma KeepSecondAndFourth(x1: Listing, x2: Listing, x3: Listing, x4: Listing, x5: Listing, p: Listing -> bool)
    requires !p(x1) && p(x2) && !p(x3) && p(x4) && !p(x5)
    ensures Where([x1, x2, x3, x4, x5], p) == [x2, x4]
  {
    var t4, t3, t2 := [x4, x5], [x3, x4, x5], [x2, x3, x4, x5];
    assert [x5] == [x5] + [];
    WhereCons(x5, [], p);
    assert t4 == [x4] + [x5];
    WhereCons(x4, [x5], p);
    assert t3 == [x3] + t4;
    WhereCons(x3, t4, p);
    assert t2 == [x2] + t3;
    WhereCons(x2, t3, p);
    assert [x1, x2, x3, x4, x5] == [x1] + t2;
    WhereCons(x1, t2, p);
  }

  /** Rows priced 50, 500 and 2000 under a cap of 500: two come back, the 50 one first. */
  method DatabaseQueryByPriceUsesIndex() returns (affordable: seq<Listing>)
    ensures |affordable| == 2 && affordable[0].price == 500000
  {
    var ctx := Setup();
    var a := ctx.AddListing(Item("Cheap Item", 500000));
    assert |ctx.listings| == 1 && ctx.listings[0].price == 500000;
    var b := ctx.AddListing(Item("Mid Item", 5000000));
    assert |ctx.listings| == 2 && ctx.listings[1].price == 5000000;
    var c := ctx.AddListing(Item("Expensive Item", 20000000));
    assert |ctx.listings| == 3 && ctx.listings[2].price == 20000000;
    assert ctx.listings == [ctx.listings[0], ctx.listings[1], ctx.listings[2]];
    TwoUnderCap(ctx.listings[0], ctx.listings[1], ctx.listings[2], 5000000);
    affordable := AtMostPriceAscending(ctx.listings, 5000000);
  }

  /** Of three rows in ascending price with only the first two under the cap, the price query returns those two in order. */
  lemma TwoUnderCap(x1: Listing, x2: Listing, x3: Listing, cap: int)
    requires x1.price <= x2.price <= cap < x3.price
    ensures AtMostPriceAscending([x1, x2, x3], cap) == [x1, x2]
  {
    KeepFirstTwo(x1, x2, x3, AtMost(cap));
    assert SortedBy([x1, x2], PriceOf);
    SortBySorted([x1, x2], PriceOf);
  }

  /** One LogAsync call on an empty log leaves a single entry with the given tags and the payload's text. */
  method AuditLogServiceLogsCorrectly() returns (logs: seq<AuditEntry>)
    ensures |logs| == 1
    ensures logs[0].action == "CREATE" && logs[0].entityName == "Listing" && logs[0].entityId == Some(1)
    ensures logs[0].changes.Some? && Text.Contains(logs[0].changes.value, "Test")
  {
    var ctx := new Store.ClassifieldsContext();
    var audit := new Audit.AuditLogService(ctx);
    var payload := Json.Obj([Json.Member("Title", Json.Str("Test")), Json.Member("Price", Json.Num(1000000))]);
    assert Json.Mentions(payload, "Test");
    audit.LogAsync("CREATE", "Listing", Some(1), Some(1), Some(payload), Now);
    logs := ctx.auditLogs;
  }

  /** Newest first, take two: DELETE, then UPDATE. */
  method AuditLogQueryByTimestampOrdersCorrectly() returns (recent: seq<AuditEntry>)
    ensures |recent| == 2
    ensures recent[0].action == "DELETE" && recent[1].action == "UPDATE"
  {
    var ctx := new Store.ClassifieldsContext();
    var create := AuditEntry("CREATE", "Listing", Some(1), Some(1), None, Now - 5 * Minute);
    var update := AuditEntry("UPDATE", "Listing", Some(1), Some(1), None, Now - 3 * Minute);
    var delete := AuditEntry("DELETE", "Listing", Some(1), Some(1), None, Now);
    ctx.AddAuditLog(create);
    ctx.AddAuditLog(update);
    ctx.AddAuditLog(delete);
    assert ctx.auditLogs == [create, update, delete];
    NewestTwoOfThree(create, update, delete);
    recent := MostRecent(ctx.auditLogs, 2);
  }

  /** The newest-first order of three entries with increasing timestamps is their reverse. */
  lemma NewestTwoOfThree(a: AuditEntry, b: AuditEntry, c: AuditEntry)
    requires a.timestamp < b.timestamp < c.timestamp
    ensures MostRecent([a, b, c], 2) == [c, b]
  {
    assert [a, b, c][1..] == [b, c];
    SortTwo(b, c);
    InsertOldest(a, b, c);
    assert NewestFirst([a, b, c]) == [c, b, a];
    assert Take([c, b, a], 2) == [c, b];
  }

  /** Two entries in increasing time order come out newest first. */
  lemma SortTwo(b: AuditEntry, c: AuditEntry)
    requires b.timestamp < c.timestamp
    ensures SortBy([b, c], NegatedTimestamp) == [c, b]
  {
    assert [b, c][1..] == [c];
    assert [c][1..] == [];
    assert SortBy([c], NegatedTimestamp) == Insert(c, [], NegatedTimestamp) == [c];
    assert Insert(b, [c], NegatedTimestamp) == [c] + Insert(b, [], NegatedTimestamp) == [c, b];
  }

  /** An entry older than both of a newest-first pair goes behind them. */
  lemma InsertOldest(a: AuditEntry, b: AuditEntry, c: AuditEntry)
    requires a.timestamp < b.timestamp < c.timestamp
    ensures Insert(a, [c, b], NegatedTimestamp) == [c, b, a]
  {
    assert [c, b][1..] == [b];
    assert [b][1..] == [];
    assert Insert(a, [b], NegatedTimestamp) == [b] + Insert(a, [], NegatedTimestamp) == [b, a];
  }

  /** Clearing the active flag in place keeps the row under its key, now inactive. */
  method DatabaseCascadeDeleteWorksCorrectly() returns (deleted: Option<Listing>)
    ensures deleted.Some? && !deleted.value.isActive
  {
    var ctx := Setup();
    var added := ctx.AddListing(Item("Test Item", 1000000));
    var listingId := added.value;
    var listing := FindListing(ctx.listings, listingId).value;
    ctx.SaveListing(listing.(isActive := false));
    FindAfterUpdate([listing], listingId, listing.(isActive := false));
    deleted := FindListing(ctx.listings, listingId);
  }

  /** A title search for "Laptop" finds the two laptops and nothing else. */
  method DatabaseSearchByTitleReturnsMatchingListings() returns (laptops: seq<Listing>)
    ensures |laptops| == 2
    ensures forall l :: l in laptops ==> Text.Contains(l.title, "Laptop")
  {
    var ctx := Setup();
    var a := ctx.AddListing(Item("Laptop Dell", 5000000));
    assert |ctx.listings| == 1 && ctx.listings[0].title == "Laptop Dell";
    var b := ctx.AddListing(Item("Laptop HP", 6000000));
    assert |ctx.listings| == 2 && ctx.listings[1].title == "Laptop HP";
    var c := ctx.AddListing(Item("Mouse Logitech", 200000));
    assert |ctx.listings| == 3 && ctx.listings[2].title == "Mouse Logitech";
    LaptopTitles(ctx.listings);
    laptops := TitleContains(ctx.listings, "Laptop");
  }

  /** Of three rows titled "Laptop Dell", "Laptop HP" and "Mouse Logitech", the search returns exactly the first two, in order. */
  lemma LaptopTitles(rows: seq<Listing>)
    requires |rows| == 3
    requires rows[0].title == "Laptop Dell" && rows[1].title == "Laptop HP" && rows[2].title == "Mouse Logitech"
    ensures TitleContains(rows, "Laptop") == [rows[0], rows[1]]
  {
    assert Text.OccursAt("Laptop Dell", "Laptop", 0);
    assert Text.OccursAt("Laptop HP", "Laptop", 0);
    NoLaptopInMouse();
    assert rows == [rows[0], rows[1], rows[2]];
    KeepFirstTwo(rows[0], rows[1], rows[2], TitleHas("Laptop"));
  }

  /** Filtering three rows of which only the first two pass keeps those two. */
  lemma KeepFirstTwo(x1: Listing, x2: Listing, x3: Listing, p: Listing -> bool)
    requires p(x1) && p(x2) && !p(x3)
    ensures Where([x1, x2, x3], p) == [x1, x2]
  {
    assert [x3] == [x3] + [];
    WhereCons(x3, [], p);
    assert [x2, x3] == [x2] + [x3];
    WhereCons(x2, [x3], p);
    assert [x1, x2, x3] == [x1] + [x2, x3];
    WhereCons(x1, [x2, x3], p);
  }

  /** "Mouse Logitech" has no 'a' at all, so no window of it reads "Laptop". */
  lemma NoLaptopInMouse()
    ensures !Text.Contains("Mouse Logitech", "Laptop")
  {
    var hay := "Mouse Logitech";
    assert 'a' !in hay;
    forall k | 0 <= k <= |hay|
      ensures !Text.OccursAt(hay, "Laptop", k)
    {
      if k <= |hay| - 6 {
        assert hay[k..k + 6][1] == hay[k + 1];
      }
    }
  }
}
