/**
 * The scenarios of `ListingsControllerTests`, restated against the model: each
 * method builds a fresh database seeded with category 1 and drives the
 * controller as its test does; its postcondition is what that test asserts.
 * The audit service is the real one, so "LogAsync was called once with ..."
 * reads as "the log holds exactly one entry, with ...".
 */
module ListingsControllerTests {
  import opened Wrappers
  import opened Models
  import Store
  import Audit
  import opened Controllers

  /** Ticks of the UTC clock at which the scenarios run. */
  const Now: int := 638000000000000000

  /** A fresh database holding category 1 ("Electronics"), and a controller over it. */
  method Setup() returns (ctx: Store.ClassifieldsContext, c: ListingsController)
    ensures fresh(ctx) && ctx.Valid()
    ensures c.Valid() && c.context == ctx
    ensures ctx.listings == [] && ctx.auditLogs == [] && ctx.categories == [Category(1, "Electronics")]
  {
    ctx := new Store.ClassifieldsContext();
    ctx.AddCategory(Category(1, "Electronics"));
    var audit := new Audit.AuditLogService(ctx);
    c := new ListingsController(ctx, audit);
  }

  /** Setup, plus one stored listing owned by user 1. */
  method SetupWithListing(id: int, title: string, description: string, price: int) returns (ctx: Store.ClassifieldsContext, c: ListingsController)
    requires id > 0
    ensures fresh(ctx) && ctx.Valid()
    ensures c.Valid() && c.context == ctx
    ensures ctx.listings == [Listing(id, title, description, price, 1, 1, true, None, Now, 0)]
    ensures ctx.auditLogs == []
  {
    ctx, c := Setup();
    var added := ctx.AddListing(Listing(id, title, description, price, 1, 1, true, None, Now, 0));
  }

  /** Create by user 1 stores the row as user 1's with the submitted price, redirects, and logs one CREATE. */
  method CreateValidListingRedirectsToIndex() returns (r: ActionResult, table: seq<Listing>, log: seq<AuditEntry>)
    ensures r == RedirectToAction("Index")
    ensures |table| == 1 && table[0].title == "New Laptop"
    ensures table[0].userId == 1 && table[0].price == 9999900 && table[0].isActive
    ensures |log| == 1 && log[0].action == "CREATE" && log[0].entityName == "Listing"
    ensures log[0].entityId == Some(table[0].id) && log[0].userId == Some(1)
  {
    var ctx, c := Setup();
    var form := Listing(0, "New Laptop", "Brand new laptop for sale", 9999900, 1, 0, true, None, 0, 0);
    r := c.Create(Some(1), form, true, Now);
    table, log := ctx.listings, ctx.auditLogs;
  }

  /** Create with a model error shows the submitted listing again and saves nothing. */
  method CreateInvalidModelStateReturnsViewWithModel() returns (r: ActionResult, table: seq<Listing>, log: seq<AuditEntry>)
    ensures r == View(Listing(0, "", "", 0, 0, 1, true, None, 0, 0))
    ensures table == [] && log == []
  {
    var ctx, c := Setup();
    var form := Listing(0, "", "", 0, 0, 0, true, None, 0, 0);
    r := c.Create(Some(1), form, false, Now);
    table, log := ctx.listings, ctx.auditLogs;
  }

  /** The owner's edit of listing 10 overwrites title and price, redirects, and logs one UPDATE of 10 by 1. */
  method EditValidListingUpdatesAndRedirects() returns (r: ActionResult, stored: Option<Listing>, log: seq<AuditEntry>)
    ensures r == RedirectToAction("Index")
    ensures stored.Some? && stored.value.title == "Updated Title" && stored.value.price == 2000000
    ensures |log| == 1 && log[0].action == "UPDATE" && log[0].entityName == "Listing"
    ensures log[0].entityId == Some(10) && log[0].userId == Some(1)
  {
    var ctx, c := SetupWithListing(10, "Old Title", "Old Description", 1000000);
    var form := Listing(10, "Updated Title", "Updated Description", 2000000, 1, 1, true, None, Now, 0);
    r := c.Edit(10, Some(1), form, true, Now + 1);
    FindAfterUpdate([Listing(10, "Old Title", "Old Description", 1000000, 1, 1, true, None, Now, 0)], 10,
                    ApplyEdit(Listing(10, "Old Title", "Old Description", 1000000, 1, 1, true, None, Now, 0), form, Now + 1));
    stored, log := FindListing(ctx.listings, 10), ctx.auditLogs;
  }

  /** User 2 editing user 1's listing is forbidden, even when the form names user 1 as owner; nothing changes. */
  method EditUnauthorizedUserReturnsForbid() returns (r: ActionResult, table: seq<Listing>, log: seq<AuditEntry>)
    ensures r == Forbid
    ensures table == [Listing(20, "Test Listing", "Test Description", 1000000, 1, 1, true, None, Now, 0)]
    ensures log == []
  {
    var ctx, c := SetupWithListing(20, "Test Listing", "Test Description", 1000000);
    var form := Listing(20, "Hacked Title", "Hacked", 10000, 1, 1, true, None, Now, 0);
    r := c.Edit(20, Some(2), form, true, Now + 1);
    table, log := ctx.listings, ctx.auditLogs;
  }

  /** The owner's delete of listing 30 keeps the row but inactive, redirects, and logs one DELETE of 30 by 1. */
  method DeleteConfirmedValidListingSoftDeletesAndRedirects() returns (r: ActionResult, stored: Option<Listing>, log: seq<AuditEntry>)
    ensures r == RedirectToAction("Index")
    ensures stored.Some? && !stored.value.isActive
    ensures |log| == 1 && log[0].action == "DELETE" && log[0].entityName == "Listing"
    ensures log[0].entityId == Some(30) && log[0].userId == Some(1)
  {
    var ctx, c := SetupWithListing(30, "To Delete", "This will be deleted", 500000);
    r := c.DeleteConfirmed(30, Some(1), Now + 1);
    SoftDeleteKeepsRow([Listing(30, "To Delete", "This will be deleted", 500000, 1, 1, true, None, Now, 0)], 30, Now + 1);
    stored, log := FindListing(ctx.listings, 30), ctx.auditLogs;
  }

  /** User 2 deleting user 1's listing is forbidden; the row is still there and still active. */
  method DeleteConfirmedUnauthorizedUserReturnsForbid() returns (r: ActionResult, stored: Option<Listing>, log: seq<AuditEntry>)
    ensures r == Forbid
    ensures stored.Some? && stored.value.isActive
    ensures log == []
  {
    var ctx, c := SetupWithListing(40, "Protected Listing", "Can't delete this", 1000000);
    r := c.DeleteConfirmed(40, Some(2), Now + 1);
    stored, log := FindListing(ctx.listings, 40), ctx.auditLogs;
  }

  /** Details of a stored key shows that listing. */
  method DetailsExistingListingReturnsViewWithListing() returns (r: ActionResult)
    ensures r.View? && r.model.title == "Details Test"
  {
    var ctx, c := SetupWithListing(50, "Details Test", "Test Description", 1000000);
    var category;
    r, category := c.Details(Some(50));
  }

  /** Details of an unknown key is NotFound. */
  method DetailsNonExistingListingReturnsNotFound() returns (r: ActionResult)
    ensures r == NotFound
  {
    var ctx, c := Setup();
    var category;
    r, category := c.Details(Some(999));
  }
}
