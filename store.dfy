/**
 * The database context shared by the controllers and the audit service: the
 * Listings, Categories and AuditLogs tables, each saved as soon as it is
 * changed (every operation here is an `Add` or an in-place edit followed by
 * `SaveChanges`).
 */
module Store {
  import opened Wrappers
  import opened Models

  class ClassifieldsContext {
    var listings: seq<Listing>
    var categories: seq<Category>
    var auditLogs: seq<AuditEntry>

    /** The primary key of Listings is unique. */
    ghost predicate Valid()
      reads this
    {
      UniqueIds(listings)
    }

    /** A fresh, empty database. */
    constructor ()
      ensures Valid()
      ensures listings == [] && categories == [] && auditLogs == []
    {
      listings, categories, auditLogs := [], [], [];
    }

    /**
     * `Listings.Add(l)` and `SaveChanges()`. A zero key asks the store to
     * generate one; a key already in use is refused and nothing is saved.
     */
    method AddListing(l: Listing) returns (id: Option<int>)
      requires Valid()
      modifies this
      ensures Valid()
      ensures categories == old(categories) && auditLogs == old(auditLogs)
      ensures var key := if l.id == 0 then NextId(old(listings)) else l.id;
        if FindListing(old(listings), key).Some?
        then id == None && listings == old(listings)
        else id == Some(key) && listings == old(listings) + [l.(id := key)]
    {
      var key := if l.id == 0 then NextId(listings) else l.id;
      if FindListing(listings, key).Some? {
        id := None;
      } else {
        listings := listings + [l.(id := key)];
        id := Some(key);
      }
    }

    /** `Categories.Add(c)` and `SaveChanges()`. */
    method AddCategory(c: Category)
      modifies this
      ensures categories == old(categories) + [c]
      ensures listings == old(listings) && auditLogs == old(auditLogs)
    {
      categories := categories + [c];
    }

    /** `AuditLogs.Add(e)` and `SaveChanges()`: the log only grows. */
    method AddAuditLog(e: AuditEntry)
      modifies this
      ensures auditLogs == old(auditLogs) + [e]
      ensures listings == old(listings) && categories == old(categories)
    {
      auditLogs := auditLogs + [e];
    }

    /** Saving a tracked listing whose fields were changed in place: the row keeps its key and position. */
    method SaveListing(updated: Listing)
      requires Valid()
      requires IndexOfListing(listings, updated.id) < |listings|
      modifies this
      ensures Valid()
      ensures listings == old(listings)[IndexOfListing(old(listings), updated.id) := updated]
      ensures categories == old(categories) && auditLogs == old(auditLogs)
    {
      var k := IndexOfListing(listings, updated.id);
      listings := listings[k := updated];
    }
  }
}
