/**
 * `ListingsController`: the ownership-gated mutations of the Listings table,
 * the single-listing lookup and the guarded GET forms. The caller is the
 * `NameIdentifier` claim of the request, read as the integer it holds or as 0
 * when it is missing; `modelValid` is the framework's `ModelState.IsValid`;
 * `now` is the UTC clock. Every successful mutation is followed by exactly one
 * `LogAsync` call.
 */
module Controllers {
  import opened Wrappers
  import opened Models
  import Json
  import Store
  import Audit
  import Queries

  /** The action results the controller returns. */
  datatype ActionResult = View(model: Listing) | RedirectToAction(actionName: string) | Forbid | NotFound | Challenge

  /** `int.Parse(User.FindFirst(ClaimTypes.NameIdentifier)?.Value ?? "0")`. */
  function CallerId(claim: Option<int>): (id: int)
    ensures claim.None? ==> id == 0
    ensures claim.Some? ==> id == claim.value
  {
    match claim
    case None => 0
    case Some(v) => v
  }

  /**
   * What `[Bind("Title,Description,Price,CategoryId,ImageUrl")]` lets through
   * from a Create form: those five fields, every other at its default (the
   * active flag of a new listing defaults to true).
   */
  function BindCreateForm(form: Listing): (l: Listing)
    ensures l.title == form.title && l.description == form.description && l.price == form.price
    ensures l.categoryId == form.categoryId && l.imageUrl == form.imageUrl
    ensures l.id == 0 && l.userId == 0 && l.isActive && l.createdAt == 0 && l.lastUpdatedAt == 0
  {
    Listing(0, form.title, form.description, form.price, form.categoryId, 0, true, form.imageUrl, 0, 0)
  }

  /** The row Create saves: the bound fields, owned by the caller whatever the form said, active, stamped `now`. */
  function NewListing(form: Listing, ownerId: int, now: int): (l: Listing)
    ensures l.userId == ownerId
    ensures l.title == form.title && l.description == form.description && l.price == form.price
    ensures l.categoryId == form.categoryId && l.imageUrl == form.imageUrl
    ensures l.isActive && l.createdAt == now
    ensures l.id == 0 && l.lastUpdatedAt == 0
  {
    BindCreateForm(form).(userId := ownerId, isActive := true, createdAt := now)
  }

  /**
   * Edit copies only Title, Description, Price, CategoryId and ImageUrl onto
   * the stored row and refreshes LastUpdatedAt; key, owner, active flag and
   * creation time stay as stored, whatever the form carried.
   */
  function ApplyEdit(existing: Listing, form: Listing, now: int): (l: Listing)
    ensures l.title == form.title && l.description == form.description && l.price == form.price
    ensures l.categoryId == form.categoryId && l.imageUrl == form.imageUrl
    ensures l.id == existing.id && l.userId == existing.userId
    ensures l.isActive == existing.isActive && l.createdAt == existing.createdAt
    ensures l.lastUpdatedAt == now
  {
    existing.(title := form.title, description := form.description, price := form.price,
              categoryId := form.categoryId, imageUrl := form.imageUrl, lastUpdatedAt := now)
  }

  /** A soft delete clears the active flag and refreshes LastUpdatedAt; the row is otherwise kept as it was. */
  function SoftDeleted(l: Listing, now: int): (r: Listing)
    ensures !r.isActive && r.lastUpdatedAt == now
    ensures r.(isActive := l.isActive, lastUpdatedAt := l.lastUpdatedAt) == l
  {
    l.(isActive := false, lastUpdatedAt := now)
  }

  /** The audit payload for a listing: its title and price. */
  function Snapshot(l: Listing): Json.Payload
  {
    Json.Obj([Json.Member("Title", Json.Str(l.title)), Json.Member("Price", Json.Num(l.price))])
  }

  /** The audit payload for an edit: the row before and after. */
  function EditChanges(before: Listing, after: Listing): Json.Payload
  {
    Json.Obj([Json.Member("Old", Snapshot(before)), Json.Member("New", Snapshot(after))])
  }

  class ListingsController {
    const context: Store.ClassifieldsContext
    const auditLog: Audit.AuditLogService

    /** The controller and its audit service write to the same database. */
    ghost predicate Valid()
      reads context
    {
      auditLog.context == context && context.Valid()
    }

    constructor (context: Store.ClassifieldsContext, auditLog: Audit.AuditLogService)
      requires auditLog.context == context
      ensures this.context == context && this.auditLog == auditLog
    {
      this.context := context;
      this.auditLog := auditLog;
    }

    /**
     * GET Listings/Details/5: the listing with that key, whether active or not,
     * with its category loaded, or NotFound.
     */
    method Details(id: Option<int>) returns (r: ActionResult, category: Option<Category>)
      ensures r.View? <==> id.Some? && FindListing(context.listings, id.value).Some?
      ensures r.View? ==> r.model in context.listings && r.model.id == id.value
      ensures r.View? ==> r.model == FindListing(context.listings, id.value).value
      ensures r.View? ==> category == FindCategory(context.categories, r.model.categoryId)
      ensures !r.View? ==> r == NotFound && category == None
    {
      if id.None? {
        return NotFound, None;
      }
      var loaded := Queries.LoadWithCategory(context.listings, context.categories, id.value);
      if loaded.None? {
        return NotFound, None;
      }
      r, category := View(loaded.value.listing), loaded.value.category;
    }

    /** GET Listings/Create: an anonymous caller is challenged; anyone else gets an empty form already owned by them. */
    method CreateForm(claim: Option<int>) returns (r: ActionResult)
      ensures r == Challenge <==> CallerId(claim) == 0
      ensures r != Challenge ==> r == View(Listing(0, "", "", 0, 0, CallerId(claim), true, None, 0, 0))
    {
      var userId := CallerId(claim);
      if userId == 0 {
        return Challenge;
      }
      r := View(Listing(0, "", "", 0, 0, userId, true, None, 0, 0));
    }

    /** GET Listings/Edit/5: NotFound without a key or a row, Forbid for anyone but the owner, otherwise the stored row. */
    method EditForm(id: Option<int>, claim: Option<int>) returns (r: ActionResult)
      ensures r == NotFound <==> id.None? || FindListing(context.listings, id.value).None?
      ensures r == Forbid <==> id.Some? && FindListing(context.listings, id.value).Some?
                                && FindListing(context.listings, id.value).value.userId != CallerId(claim)
      ensures r.View? <==> id.Some? && FindListing(context.listings, id.value).Some?
                           && FindListing(context.listings, id.value).value.userId == CallerId(claim)
      ensures r.View? ==> r.model in context.listings && r.model.id == id.value && r.model.userId == CallerId(claim)
      ensures r.View? ==> r.model == FindListing(context.listings, id.value).value
    {
      if id.None? {
        return NotFound;
      }
      var listing := FindListing(context.listings, id.value);
      if listing.None? {
        return NotFound;
      }
      if listing.value.userId != CallerId(claim) {
        return Forbid;
      }
      r := View(listing.value);
    }

    /**
     * GET Listings/Delete/5: the confirmation page, with the category loaded;
     * NotFound without a key or a row, Forbid for anyone but the owner.
     */
    method DeleteForm(id: Option<int>, claim: Option<int>) returns (r: ActionResult, category: Option<Category>)
      ensures r == NotFound <==> id.None? || FindListing(context.listings, id.value).None?
      ensures r == Forbid <==> id.Some? && FindListing(context.listings, id.value).Some?
                                && FindListing(context.listings, id.value).value.userId != CallerId(claim)
      ensures r.View? <==> id.Some? && FindListing(context.listings, id.value).Some?
                           && FindListing(context.listings, id.value).value.userId == CallerId(claim)
      ensures r.View? ==> r.model in context.listings && r.model.id == id.value && r.model.userId == CallerId(claim)
      ensures r.View? ==> r.model == FindListing(context.listings, id.value).value
      ensures r.View? ==> category == FindCategory(context.categories, r.model.categoryId)
      ensures !r.View? ==> category == None
    {
      if id.None? {
        return NotFound, None;
      }
      var loaded := Queries.LoadWithCategory(context.listings, context.categories, id.value);
      if loaded.None? {
        return NotFound, None;
      }
      if loaded.value.listing.userId != CallerId(claim) {
        return Forbid, None;
      }
      r, category := View(loaded.value.listing), loaded.value.category;
    }

    /** POST Listings/Create. */
    method Create(claim: Option<int>, form: Listing, modelValid: bool, now: int) returns (r: ActionResult)
      requires Valid()
      modifies context
      ensures Valid()
      ensures context.categories == old(context.categories)
      ensures CallerId(claim) == 0 ==> r == Challenge && unchanged(context)
      ensures CallerId(claim) != 0 && !modelValid ==>
        r == View(BindCreateForm(form).(userId := CallerId(claim))) && unchanged(context)
      ensures CallerId(claim) != 0 && modelValid ==>
        var id := NextId(old(context.listings));
        var row := NewListing(form, CallerId(claim), now).(id := id);
        && r == RedirectToAction("Index")
        && context.listings == old(context.listings) + [row]
        && context.auditLogs == old(context.auditLogs)
             + [Audit.NewEntry("CREATE", "Listing", Some(id), Some(CallerId(claim)), Some(Snapshot(row)), now)]
    {
      var userId := CallerId(claim);
      if userId == 0 {
        return Challenge;
      }
      var listing := BindCreateForm(form).(userId := userId);
      if !modelValid {
        return View(listing);
      }
      listing := listing.(createdAt := now, isActive := true);
      var added := context.AddListing(listing);
      assert added.Some?;
      var row := listing.(id := added.value);
      auditLog.LogAsync("CREATE", "Listing", Some(row.id), Some(userId), Some(Snapshot(row)), now);
      r := RedirectToAction("Index");
    }

    /** POST Listings/Edit/5: only the stored owner may overwrite the allow-listed fields. */
    method Edit(id: int, claim: Option<int>, form: Listing, modelValid: bool, now: int) returns (r: ActionResult)
      requires Valid()
      modifies context
      ensures Valid()
      ensures context.categories == old(context.categories)
      ensures id != form.id ==> r == NotFound && unchanged(context)
      ensures id == form.id && FindListing(old(context.listings), id).None? ==> r == NotFound && unchanged(context)
      ensures id == form.id && FindListing(old(context.listings), id).Some? ==>
        var existing := FindListing(old(context.listings), id).value;
        var updated := ApplyEdit(existing, form, now);
        && (existing.userId != CallerId(claim) ==> r == Forbid && unchanged(context))
        && (existing.userId == CallerId(claim) && !modelValid ==> r == View(existing) && unchanged(context))
        && (existing.userId == CallerId(claim) && modelValid ==>
              && r == RedirectToAction("Index")
              && context.listings == old(context.listings)[IndexOfListing(old(context.listings), id) := updated]
              && context.auditLogs == old(context.auditLogs)
                   + [Audit.NewEntry("UPDATE", "Listing", Some(id), Some(CallerId(claim)), Some(EditChanges(existing, updated)), now)])
    {
      if id != form.id {
        return NotFound;
      }
      var found := FindListing(context.listings, id);
      if found.None? {
        return NotFound;
      }
      var existing := found.value;
      var userId := CallerId(claim);
      if existing.userId != userId {
        return Forbid;
      }
      if !modelValid {
        return View(existing);
      }
      var updated := ApplyEdit(existing, form, now);
      context.SaveListing(updated);
      auditLog.LogAsync("UPDATE", "Listing", Some(id), Some(userId), Some(EditChanges(existing, updated)), now);
      r := RedirectToAction("Index");
    }

    /** POST Listings/Delete/5: only the stored owner may soft-delete; the row stays in the table. */
    method DeleteConfirmed(id: int, claim: Option<int>, now: int) returns (r: ActionResult)
      requires Valid()
      modifies context
      ensures Valid()
      ensures context.categories == old(context.categories)
      ensures FindListing(old(context.listings), id).None? ==> r == NotFound && unchanged(context)
      ensures FindListing(old(context.listings), id).Some? ==>
        var existing := FindListing(old(context.listings), id).value;
        && (existing.userId != CallerId(claim) ==> r == Forbid && unchanged(context))
        && (existing.userId == CallerId(claim) ==>
              && r == RedirectToAction("Index")
              && context.listings == old(context.listings)[IndexOfListing(old(context.listings), id) := SoftDeleted(existing, now)]
              && context.auditLogs == old(context.auditLogs)
                   + [Audit.NewEntry("DELETE", "Listing", Some(id), Some(CallerId(claim)), Some(Snapshot(existing)), now)])
    {
      var found := FindListing(context.listings, id);
      if found.None? {
        return NotFound;
      }
      var existing := found.value;
      var userId := CallerId(claim);
      if existing.userId != userId {
        return Forbid;
      }
      context.SaveListing(SoftDeleted(existing, now));
      auditLog.LogAsync("DELETE", "Listing", Some(id), Some(userId), Some(Snapshot(existing)), now);
      r := RedirectToAction("Index");
    }
  }

  /** After a soft delete the key still finds the row, now inactive, and the table keeps its size. */
  lemma SoftDeleteKeepsRow(rows: seq<Listing>, id: int, now: int)
    requires FindListing(rows, id).Some?
    ensures var rows' := rows[IndexOfListing(rows, id) := SoftDeleted(FindListing(rows, id).value, now)];
      && |rows'| == |rows|
      && FindListing(rows', id) == Some(SoftDeleted(FindListing(rows, id).value, now))
      && !FindListing(rows', id).value.isActive
  {
    FindAfterUpdate(rows, id, SoftDeleted(FindListing(rows, id).value, now));
  }

  /** After an owner's edit the key finds the edited row, still owned by the same user. */
  lemma EditVisibleUnderKey(rows: seq<Listing>, id: int, form: Listing, now: int)
    requires FindListing(rows, id).Some?
    ensures var existing := FindListing(rows, id).value;
      var rows' := rows[IndexOfListing(rows, id) := ApplyEdit(existing, form, now)];
      && FindListing(rows', id) == Some(ApplyEdit(existing, form, now))
      && FindListing(rows', id).value.userId == existing.userId
      && FindListing(rows', id).value.title == form.title
      && FindListing(rows', id).value.price == form.price
  {
    FindAfterUpdate(rows, id, ApplyEdit(FindListing(rows, id).value, form, now));
  }
}
