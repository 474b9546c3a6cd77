# Classifieds portal: listings, ownership and the audit log

A Dafny model of the part of the ASP.NET Core classifieds portal that its three
test suites pin down:

- `ListingsController`: the ownership-gated mutations of the Listings table.
  - **Create** stamps the row with its owner and time and marks it active.
  - **Edit** copies only the allow-listed fields onto the stored row.
  - **DeleteConfirmed** is a soft delete: it clears the active flag and keeps the row.
  - **Details** looks up one listing.
  - The GET forms of Create, Edit and Delete run the same Challenge, NotFound and Forbid guards before they render.
- What each action returns: View, RedirectToAction, Forbid, NotFound or Challenge.
- One audit entry for every mutation that succeeds.
- `AuditLogService.LogAsync`: appends one audit row per call.
  - It copies the caller's tags and stores the payload serialised (null stays null).
  - It stamps the row with the current UTC time.
- The LINQ queries the tests run against the tables.
  - filter by category and active flag
  - an inclusive price cap in ascending price order
  - search by title substring
  - the newest audit entries
  - a listing loaded with its category

Each test of the three suites except `Index_ReturnsViewWithListings` is a
method (or a lemma) whose postcondition is what the test asserts.

The model is laid out as follows:

- **Values**:
  - `Listing`, `Category` and `AuditEntry` are datatypes (`models.dfy`).
  - A change payload is a small JSON tree with a serialiser and a parser (`json.dfy`).
- **Database**: `Store.ClassifieldsContext` is a class whose three tables are
  `seq` fields that its methods reassign (`store.dfy`).
- **Services**: the audit service (`audit.dfy`) and the controller
  (`controllers.dfy`) are classes over the same database object.
- **Queries**: pure functions over the tables (`queries.dfy`).
- **Test scenarios**: `controller_tests.dfy`, `integration_tests.dfy` and
  `audit_tests.dfy`, one per suite.

Conventions:

- **Time**: times are integer ticks of the UTC clock. 0 stands for an unset
  `DateTime`. The clock reading `DateTime.UtcNow` becomes a parameter `now`.
  An action that stamps a row and then logs reads the clock twice in the
  program (once for `CreatedAt` or `LastUpdatedAt`, once in `LogAsync` for the
  audit `Timestamp`). The model takes one reading per action for both, so its
  contracts equate two times that the program only takes close together.
- **Caller**: the caller is the `NameIdentifier` claim, given as `Option<int>`.
  A missing claim reads as 0, as the `?? "0"` in the controller does.
- **Model validation**: `ModelState.IsValid` is a boolean parameter.
- **Price**: the Price column is `decimal(18,4)`, after the FixAuditLogAndPrice
  migration. It is an integer count of ten-thousandths, so 999.99 is 9999900.
- **Null strings**: a `Title` or `Description` the tests leave null (as `new Listing()` does) is the empty string.
- **Active by default**: `Listing.cs` on file has no `IsActive` property. The
  model gives the listing the flag and initialises it to true, for two reasons:
  - `Program.cs` lines 117-232 seed eleven listings without ever setting
    `IsActive`, and `Index` shows only `.Where(l => l.IsActive)`
    (`Controllers/ListingsController.cs` line 39). The seeded catalogue is only
    visible if a new listing is active by default.
  - `User.cs` line 24 initialises the users' flag the same way.

  So a listing that is only constructed or bound is active until something
  clears it.

Where the code and the tests disagree, the tests decide:

- **Constructor and audit calls**: the `ListingsController.cs` in the repository
  has a two-argument constructor and calls no audit service. The tests build the
  controller with a mapper and an `IAuditLogService`, and verify one `LogAsync`
  call per successful Create, Edit and DeleteConfirmed. The model follows the
  tests, and keeps every branch and guard of the controller as written.
- **Column types**: `Listing.cs`, `AuditLog.cs` and `ClassifieldsContext.cs`
  in the repository are older than the tests, the controller and the
  migrations. The model uses the columns those rely on:
  - on listings: `IsActive`, `ImageUrl` and a decimal `Price`
  - on audit rows: `EntityName`, a nullable `EntityId`, a nullable `UserId` and `Changes`
  - the `AuditLogs` table itself
- **Details and inactive rows**: Details has no active-flag filter in the code.
  It shows soft-deleted listings too, and the model does the same.
- **Create and UserId**: Create removes the `UserId` model-state error before
  validating. The model therefore treats the overwritten owner as never invalid.

## Model

Each row cites the test lines that pin the member's behaviour. Where the
member models application code, the third column also names the lines of the
web application it follows, relative to its project directory
`MVC + MSSQL Classifieds Portal/`. The GET form actions have no test of their
own: their rows cite the claims setup, or the test of the POST action that the
same owner guard protects.

| member | source | states |
|---|---|---|
| Controllers.BindCreateForm | MVC.Classifieds.Tests/ListingsControllerTests.cs:105-115 | only Title, Description, Price, CategoryId and ImageUrl come from the form; key, owner and times are left at their defaults and the active flag at its default of true (application code: `Controllers/ListingsController.cs` lines 143) |
| Controllers.NewListing | MVC.Classifieds.Tests/ListingsControllerTests.cs:121-125 | the saved row is owned by the caller whatever the form said, is active, and is created at `now`; the bound fields are the form's (application code: `Controllers/ListingsController.cs` lines 150-156) |
| Controllers.ApplyEdit | MVC.Classifieds.Tests/ListingsControllerTests.cs:175-198 | an edit copies exactly the five allow-listed fields and sets LastUpdatedAt to `now`; key, owner, active flag and creation time stay as stored even when the form carries other values (application code: `Controllers/ListingsController.cs` lines 222-227) |
| Controllers.SoftDeleted | MVC.Classifieds.Tests/ListingsControllerTests.cs:268-277 | a soft delete clears the active flag and sets LastUpdatedAt; with those two restored the row is the original (application code: `Controllers/ListingsController.cs` lines 302-304) |
| Controllers.ListingsController.Details | MVC.Classifieds.Tests/ListingsControllerTests.cs:321-355 | View exactly when an id is given and a row has it, and then the view shows the row the key finds, active or not, with that row's category loaded; otherwise NotFound and no category (application code: `Controllers/ListingsController.cs` lines 103-120) |
| Controllers.ListingsController.CreateForm | MVC.Classifieds.Tests/ListingsControllerTests.cs:58-72 | Challenge exactly when the caller's claim gives user 0; otherwise an empty form already owned by the caller (application code: `Controllers/ListingsController.cs` lines 126-136) |
| Controllers.ListingsController.EditForm | MVC.Classifieds.Tests/ListingsControllerTests.cs:211-246 | NotFound exactly when no id is given or no row has it; Forbid exactly when the row's owner is not the caller; otherwise a View of the row the key finds, owned by the caller (application code: `Controllers/ListingsController.cs` lines 172-191) |
| Controllers.ListingsController.DeleteForm | MVC.Classifieds.Tests/ListingsControllerTests.cs:290-318 | the same three outcomes as EditForm, the View showing the row the key finds with that row's category loaded, and no category otherwise (application code: `Controllers/ListingsController.cs` lines 254-279) |
| Controllers.ListingsController.Create | MVC.Classifieds.Tests/ListingsControllerTests.cs:101-151 | user 0 gets Challenge and nothing changes; an invalid model gets the bound form back with the caller as owner and nothing changes; otherwise one new row under a fresh key, one CREATE entry for that key and caller, Redirect to Index (application code: `Controllers/ListingsController.cs` lines 143-166) |
| Controllers.ListingsController.Edit | MVC.Classifieds.Tests/ListingsControllerTests.cs:154-246 | key mismatch or unknown key: NotFound; not the owner: Forbid; invalid model: the stored row is shown; in all three nothing changes; otherwise the row is overwritten in place by ApplyEdit, one UPDATE entry with the old and new title and price is appended, Redirect to Index (application code: `Controllers/ListingsController.cs` lines 198-249) |
| Controllers.ListingsController.DeleteConfirmed | MVC.Classifieds.Tests/ListingsControllerTests.cs:249-318 | unknown key: NotFound; not the owner: Forbid; nothing changes in either; otherwise the row is soft-deleted in place, one DELETE entry is appended, Redirect to Index (application code: `Controllers/ListingsController.cs` lines 286-308) |
| Controllers.SoftDeleteKeepsRow | MVC.Classifieds.Tests/ListingsControllerTests.cs:274-277 | after a soft delete the table keeps its size and the key still finds the row, now inactive (application code: `Controllers/ListingsController.cs` lines 302-307) |
| Controllers.EditVisibleUnderKey | MVC.Classifieds.Tests/ListingsControllerTests.cs:194-198 | after an owner's edit the key finds the edited row, with the form's title and price and the same owner (application code: `Controllers/ListingsController.cs` lines 218-231) |
| Audit.ChangesText | MVC.Classifieds.Tests/AuditLogServiceTests.cs:27-54 | null payload gives null text and only then; the text of a well-formed payload parses back to it; every string value of the payload appears in the text (application code: `Services/AuditLogService.cs` lines 28) |
| Audit.NewEntry | MVC.Classifieds.Tests/AuditLogServiceTests.cs:30-40 | the row carries action, entity name, entity key and user exactly as passed, the time `now`, and the payload text with the properties of ChangesText (application code: `Services/AuditLogService.cs` lines 22-30) |
| Audit.AuditLogService.LogAsync | MVC.Classifieds.Tests/ListingsIntegrationTests.cs:141-149 | exactly one row is appended to AuditLogs and the other tables are unchanged (application code: `Services/AuditLogService.cs` lines 20-34) |
| Audit.CountActionAppend | MVC.Classifieds.Tests/AuditLogServiceTests.cs:128-137 | appending one row adds one to the count of its own action and leaves every other action's count alone (application code: `Services/AuditLogService.cs` lines 32-33) |
| Audit.CountedActionOccurs | MVC.Classifieds.Tests/AuditLogServiceTests.cs:134-137 | an action with a positive count occurs at some position of the log |
| Json.ParseSerialize | MVC.Classifieds.Tests/AuditLogServiceTests.cs:91-94 | the text of a well-formed payload deserialises back to the same payload |
| Json.ParseValueRoundTrip | MVC.Classifieds.Tests/AuditLogServiceTests.cs:91-94 | reading a value back from its text followed by any non-digit text returns the value and leaves exactly that following text (application code: `Services/AuditLogService.cs` lines 28) |
| Json.ParseMembersRoundTrip | MVC.Classifieds.Tests/AuditLogServiceTests.cs:91-94 | the members of an object read back in order, up to its closing brace (application code: `Services/AuditLogService.cs` lines 28) |
| Json.DigitsRoundTrip | MVC.Classifieds.Tests/AuditLogServiceTests.cs:77-94 | the decimal digits written for a number read back as that number (application code: `Services/AuditLogService.cs` lines 28) |
| Json.SerializeFacts | MVC.Classifieds.Tests/AuditLogServiceTests.cs:86-94 | a well-formed payload's text parses back to it, and every string value appears in the text (application code: `Services/AuditLogService.cs` lines 28) |
| Json.MentionedTextAppears | MVC.Classifieds.Tests/AuditLogServiceTests.cs:40 | a string value anywhere in the payload tree is a substring of its text |
| Json.TryGetProperty | MVC.Classifieds.Tests/AuditLogServiceTests.cs:93-94 | on an object (the only value the method accepts; it throws on any other): a found property is a member with that name, and none is found only when no member has that name |
| Models.FindListing | MVC.Classifieds.Tests/ListingsControllerTests.cs:195-196 | a found row is in the table and has the key; nothing is found exactly when no row has the key (application code: `Controllers/ListingsController.cs` lines 109-112) |
| Models.FindCategory | MVC.Classifieds.Tests/ListingsIntegrationTests.cs:42-45 | a found category is in the table and has the key; nothing is found exactly when no category has it |
| Models.NextId | MVC.Classifieds.Tests/ListingsIntegrationTests.cs:206-209 | a generated key is positive and larger than every key in use |
| Models.FindAfterUpdate | MVC.Classifieds.Tests/ListingsIntegrationTests.cs:212-218 | after a row is changed in place under its own key, the key finds the changed row |
| Models.FindOtherAfterUpdate | MVC.Classifieds.Tests/ListingsControllerTests.cs:194-198 | changing one row in place leaves what every other key finds as it was (application code: `Controllers/ListingsController.cs` lines 229-230) |
| Models.FindUnique | MVC.Classifieds.Tests/ListingsIntegrationTests.cs:42-45 | with unique keys, a row's key finds that row (application code: `Controllers/ListingsController.cs` lines 205) |
| Store.ClassifieldsContext.AddListing | MVC.Classifieds.Tests/ListingsIntegrationTests.cs:38-39 | a zero key is replaced by a fresh one; a key in use is refused with nothing saved; otherwise the row is appended, keys stay unique, the other tables are unchanged |
| Store.ClassifieldsContext.AddCategory | MVC.Classifieds.Tests/ListingsIntegrationTests.cs:36 | the category is appended; the other tables are unchanged |
| Store.ClassifieldsContext.AddAuditLog | MVC.Classifieds.Tests/ListingsIntegrationTests.cs:163-168 | the entry is appended to AuditLogs; the other tables are unchanged (application code: `Services/AuditLogService.cs` lines 32-33) |
| Store.ClassifieldsContext.SaveListing | MVC.Classifieds.Tests/ListingsIntegrationTests.cs:211-213 | the row with the same key is replaced in place; keys stay unique; the other tables are unchanged (application code: `Controllers/ListingsController.cs` lines 229-230) |
| Queries.WhereCounts | MVC.Classifieds.Tests/ListingsIntegrationTests.cs:87-89 | the filtered sequence holds each element satisfying the filter as often as the table does, and no other element |
| Queries.WhereMembers | MVC.Classifieds.Tests/ListingsIntegrationTests.cs:87-89 | an element is in the filtered sequence exactly when it is in the table and satisfies the filter |
| Queries.WhereAppend | MVC.Classifieds.Tests/ListingsIntegrationTests.cs:87-89 | filtering keeps the table's order: the filter of a concatenation is the concatenation of the filters |
| Queries.Insert | MVC.Classifieds.Tests/ListingsIntegrationTests.cs:121 | inserting into a sorted sequence gives a sorted sequence with one more element and the same elements plus the new one |
| Queries.SortBy | MVC.Classifieds.Tests/ListingsIntegrationTests.cs:121 | the result is sorted by the key and is a permutation of the input |
| Queries.SortBySorted | MVC.Classifieds.Tests/ListingsIntegrationTests.cs:121 | the sort leaves an already sorted sequence as it is |
| Queries.Take | MVC.Classifieds.Tests/ListingsIntegrationTests.cs:173 | the first n elements, all of them when there are fewer, none for n <= 0 |
| Queries.ActiveInCategory | MVC.Classifieds.Tests/ListingsIntegrationTests.cs:87-89 | exactly the active rows of the category, each with its multiplicity in the table |
| Queries.AtMostPriceAscending | MVC.Classifieds.Tests/ListingsIntegrationTests.cs:119-122 | exactly the rows priced at most the cap (the cap included), with their multiplicities, in non-decreasing price order |
| Queries.TitleContains | MVC.Classifieds.Tests/ListingsIntegrationTests.cs:244-246 | exactly the rows whose title contains the text, with their multiplicities |
| Queries.NewestFirst | MVC.Classifieds.Tests/ListingsIntegrationTests.cs:171-172 | a permutation of the log in non-increasing time order |
| Queries.MostRecent | MVC.Classifieds.Tests/ListingsIntegrationTests.cs:171-174 | min(n, size) entries taken from the log with no entry repeated beyond its count there (a sub-multiset), newest first, and no entry left out is newer than one taken |
| Queries.PrefixOfNewestFirst | MVC.Classifieds.Tests/ListingsIntegrationTests.cs:171-174 | a prefix of a newest-first ordering comes from the log, is itself newest first, and nothing after it is newer |
| Queries.LoadWithCategory | MVC.Classifieds.Tests/ListingsIntegrationTests.cs:42-45 | the row found by key together with the category its CategoryId names, if any |
| Queries.CheapestFirst | MVC.Classifieds.Tests/ListingsIntegrationTests.cs:125-126 | the head of the ascending price query is no dearer than any row under the cap |
| Queries.InactiveRowHidden | MVC.Classifieds.Tests/ListingsIntegrationTests.cs:86-89 | once the row with a key is inactive, no category-and-active query returns a row with that key (application code: `Controllers/ListingsController.cs` lines 302-303) |
| ListingsControllerTests.CreateValidListingRedirectsToIndex | MVC.Classifieds.Tests/ListingsControllerTests.cs:101-135 | Redirect to Index; one row titled "New Laptop", owned by user 1, priced 999.99; one CREATE entry for that row by user 1 |
| ListingsControllerTests.CreateInvalidModelStateReturnsViewWithModel | MVC.Classifieds.Tests/ListingsControllerTests.cs:138-151 | the submitted listing comes back in a View, and nothing is saved or logged |
| ListingsControllerTests.EditValidListingUpdatesAndRedirects | MVC.Classifieds.Tests/ListingsControllerTests.cs:154-208 | Redirect to Index; key 10 finds "Updated Title" at 200.00; one UPDATE entry for 10 by user 1 |
| ListingsControllerTests.EditUnauthorizedUserReturnsForbid | MVC.Classifieds.Tests/ListingsControllerTests.cs:211-246 | Forbid; the table is exactly as seeded and nothing is logged |
| ListingsControllerTests.DeleteConfirmedValidListingSoftDeletesAndRedirects | MVC.Classifieds.Tests/ListingsControllerTests.cs:249-287 | Redirect to Index; key 30 still finds its row, now inactive; one DELETE entry for 30 by user 1 |
| ListingsControllerTests.DeleteConfirmedUnauthorizedUserReturnsForbid | MVC.Classifieds.Tests/ListingsControllerTests.cs:290-318 | Forbid; the row is still there and still active; nothing is logged |
| ListingsControllerTests.DetailsExistingListingReturnsViewWithListing | MVC.Classifieds.Tests/ListingsControllerTests.cs:321-345 | a View of the listing titled "Details Test" |
| ListingsControllerTests.DetailsNonExistingListingReturnsNotFound | MVC.Classifieds.Tests/ListingsControllerTests.cs:348-355 | NotFound |
| ListingsIntegrationTests.DatabaseCanSaveAndRetrieveListing | MVC.Classifieds.Tests/ListingsIntegrationTests.cs:13-53 | the row read back by key has the saved title and price and its category is "Electronics" |
| ListingsIntegrationTests.DatabaseIndexedQueryByCategoryAndIsActive | MVC.Classifieds.Tests/ListingsIntegrationTests.cs:56-94 | of five seeded rows the category-and-active query returns two, all active |
| ListingsIntegrationTests.SeededActiveInCategory | MVC.Classifieds.Tests/ListingsIntegrationTests.cs:71-89 | of the five seeded rows exactly the second and the fourth are returned, in that order |
| ListingsIntegrationTests.DatabaseQueryByPriceUsesIndex | MVC.Classifieds.Tests/ListingsIntegrationTests.cs:97-127 | two rows are at most 500, and the first costs 50 |
| ListingsIntegrationTests.TwoUnderCap | MVC.Classifieds.Tests/ListingsIntegrationTests.cs:111-122 | three rows in ascending price of which only the first two are under the cap give exactly those two, in order |
| ListingsIntegrationTests.AuditLogServiceLogsCorrectly | MVC.Classifieds.Tests/ListingsIntegrationTests.cs:130-150 | a single entry with action CREATE, entity Listing, key 1, and text containing "Test" |
| ListingsIntegrationTests.AuditLogQueryByTimestampOrdersCorrectly | MVC.Classifieds.Tests/ListingsIntegrationTests.cs:153-180 | two entries, DELETE first and UPDATE second |
| ListingsIntegrationTests.NewestTwoOfThree | MVC.Classifieds.Tests/ListingsIntegrationTests.cs:163-174 | for three entries of increasing time, the two newest are the last and the middle one, in that order |
| ListingsIntegrationTests.DatabaseCascadeDeleteWorksCorrectly | MVC.Classifieds.Tests/ListingsIntegrationTests.cs:183-219 | after the flag is cleared the key still finds the row, inactive |
| ListingsIntegrationTests.DatabaseSearchByTitleReturnsMatchingListings | MVC.Classifieds.Tests/ListingsIntegrationTests.cs:222-251 | two rows are returned and every one has "Laptop" in its title |
| ListingsIntegrationTests.LaptopTitles | MVC.Classifieds.Tests/ListingsIntegrationTests.cs:236-246 | over the three seeded rows the title search returns exactly the two laptop rows, in table order |
| ListingsIntegrationTests.NoLaptopInMouse | MVC.Classifieds.Tests/ListingsIntegrationTests.cs:239 | "Mouse Logitech" does not contain "Laptop" |
| AuditLogServiceTests.LogAsyncCreatesAuditLogEntry | MVC.Classifieds.Tests/AuditLogServiceTests.cs:24-41 | one entry with the given action, entity, key and user, and text containing "Test Listing" |
| AuditLogServiceTests.LogAsyncWithNullChangesSavesEntryWithoutChanges | MVC.Classifieds.Tests/AuditLogServiceTests.cs:44-54 | one DELETE entry with null changes |
| AuditLogServiceTests.LogAsyncSetsTimestampToUtcNow | MVC.Classifieds.Tests/AuditLogServiceTests.cs:57-71 | the stored time is at most a second before the reading taken before the call and at most a second after the reading taken after it |
| AuditLogServiceTests.LogAsyncSerializesComplexObjects | MVC.Classifieds.Tests/AuditLogServiceTests.cs:74-95 | the stored text parses to an object that has an "Old" and a "New" property |
| AuditLogServiceTests.ComplexChangesWellFormed | MVC.Classifieds.Tests/AuditLogServiceTests.cs:77-81 | the nested Old/New payload is well formed |
| AuditLogServiceTests.LogAsyncWithNullEntityIdSavesCorrectly | MVC.Classifieds.Tests/AuditLogServiceTests.cs:98-109 | one LOGIN entry with a null key and user 5 |
| AuditLogServiceTests.LogAsyncWithNullUserIdSavesCorrectly | MVC.Classifieds.Tests/AuditLogServiceTests.cs:112-122 | one SYSTEM entry with a null user |
| AuditLogServiceTests.LogAsyncMultipleEntriesAllSavedCorrectly | MVC.Classifieds.Tests/AuditLogServiceTests.cs:125-138 | three entries; CREATE, UPDATE and DELETE each counted once and each present |
| AuditLogServiceTests.ThreeActionsCounted | MVC.Classifieds.Tests/AuditLogServiceTests.cs:134-137 | a three-entry log of CREATE, UPDATE, DELETE counts each once and contains each |

## Left out

- `Index` (search, category and price filters, sorting, pagination with ViewModels and AutoMapper) is not part of this model. Its only test, `ListingsControllerTests.cs` lines 74-98, asserts no more than a View with a non-null model, and that model is an AutoMapper view model outside the modelled core.
- The `DbUpdateConcurrencyException` branch of Edit is not modelled: the store here has no concurrent writers.
- Entity Framework change tracking, `Include` of the User navigation, Moq, AutoMapper, `SelectList`/`ViewData` and anti-forgery tokens are framework code and are left out.
- Async execution is modelled as sequential calls.
- Users, accounts, authentication and the Categories and Users controllers are outside the modelled core.
- The clock is a parameter (`now`, and `before`/`after` in the timestamp scenario); the model does not read a real clock.
- Controllers.CallerId: a claim that is present but not a number (where `int.Parse` throws) is not modelled; the claim is already an integer or absent.
- Audit.ChangesText: `JsonSerializer` with its default encoder escapes quotes, control characters, `<`, `>`, `&`, `'`, `+`, the backtick, the backslash, DEL (0x7F) and every non-ASCII character, and prints decimals with a point. The model's serialiser writes strings verbatim, so its containment property (every string value appears in the text) holds in the program only for strings free of those characters; "Café" or "AT&T" would appear escaped. The model's serialiser writes integers, and the round trip is proved only for payloads whose strings contain no double quote.
- Controllers.ListingsController.Create: the tests accept any payload for `LogAsync`. The model logs the saved row's title and price for CREATE and DELETE, and the old and new title and price for UPDATE.
- Controllers.ListingsController.Edit: the model binds the whole form, as the `[Bind]` list of the POST Edit allows. Only the five allow-listed fields of the form are used, as the code does.
- ModelState validation rules (required fields, lengths) are not modelled; their outcome is the `modelValid` parameter.
- Store.ClassifieldsContext.AddListing: the key generation of the database is modelled as "one more than the largest key in use"; the exact value the in-memory provider picks is not. Adding a row under a key already in use throws in Entity Framework Core; the model returns `None` and leaves the tables unchanged instead of modelling the exception.
- Listings are removed from no table: the code has no hard delete, and the model has none either.
