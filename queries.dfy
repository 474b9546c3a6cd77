/**
 * The LINQ queries run against the tables: `Where`, `OrderBy`,
 * `OrderByDescending` and `Take`, and the concrete queries built from them
 * (category and active flag, an inclusive price cap in ascending order, a
 * title substring, the newest audit entries).
 */
module Queries {
  import opened Wrappers
  import opened Models
  import Text

  // --------------------------------------------------------------- operators

  /** `Where(p)`: the elements satisfying `p`, each as often as in `s`, in their original order. */
  function Where<T>(s: seq<T>, p: T -> bool): (r: seq<T>)
    ensures |r| <= |s|
  {
    if s == [] then [] else (if p(s[0]) then [s[0]] else []) + Where(s[1..], p)
  }

  /** Each element occurs in `Where(s, p)` as often as in `s` when it satisfies `p`, and not at all otherwise. */
  lemma {:induction false} WhereCounts<T(!new)>(s: seq<T>, p: T -> bool)
    ensures forall x :: multiset(Where(s, p))[x] == if p(x) then multiset(s)[x] else 0
  {
    if s != [] {
      WhereCounts(s[1..], p);
      assert s == [s[0]] + s[1..];
    }
  }

  /** `Where(s, p)` holds exactly the elements of `s` that satisfy `p`. */
  lemma WhereMembers<T(!new)>(s: seq<T>, p: T -> bool)
    ensures forall x :: x in Where(s, p) <==> x in s && p(x)
  {
    WhereCounts(s, p);
    forall x
      ensures x in Where(s, p) <==> x in s && p(x)
    {
      assert x in Where(s, p) <==> x in multiset(Where(s, p));
      assert x in s <==> x in multiset(s);
    }
  }

  /** `s` is in non-decreasing order of `key`. */
  predicate SortedBy<T>(s: seq<T>, key: T -> int)
  {
    forall i, j :: 0 <= i < j < |s| ==> key(s[i]) <= key(s[j])
  }

  /** Puts `x` in front of the first element whose key is not smaller. */
  function Insert<T>(x: T, s: seq<T>, key: T -> int): (r: seq<T>)
    requires SortedBy(s, key)
    ensures SortedBy(r, key)
    ensures multiset(r) == multiset(s) + multiset{x}
    ensures |r| == |s| + 1
  {
    if s == [] || key(x) <= key(s[0]) then [x] + s
    else
      var t := Insert(x, s[1..], key);
      assert s == [s[0]] + s[1..];
      HeadBelowAll(s, x, t, key);
      ConsSorted(s[0], t, key);
      [s[0]] + t
  }

  /** The head of a sorted `s` is below every element of `s[1..]` and below `x` when `x` is not below it. */
  lemma HeadBelowAll<T>(s: seq<T>, x: T, t: seq<T>, key: T -> int)
    requires s != [] && SortedBy(s, key) && key(s[0]) < key(x)
    requires multiset(t) == multiset(s[1..]) + multiset{x}
    ensures forall j :: 0 <= j < |t| ==> key(s[0]) <= key(t[j])
  {
    forall j | 0 <= j < |t|
      ensures key(s[0]) <= key(t[j])
    {
      assert t[j] in multiset(t);
      if t[j] != x {
        assert t[j] in s[1..];
      }
    }
  }

  /** A sorted sequence stays sorted under a head that is below all of it. */
  lemma ConsSorted<T>(h: T, t: seq<T>, key: T -> int)
    requires SortedBy(t, key)
    requires forall j :: 0 <= j < |t| ==> key(h) <= key(t[j])
    ensures SortedBy([h] + t, key)
  {
    var r := [h] + t;
    forall i, j | 0 <= i < j < |r|
      ensures key(r[i]) <= key(r[j])
    {
      assert r[j] == t[j - 1];
      if i > 0 {
        assert r[i] == t[i - 1];
      }
    }
  }

  /** `OrderBy(key)`: a sort ascending by `key`, by insertion from the back. */
  function SortBy<T>(s: seq<T>, key: T -> int): (r: seq<T>)
    ensures SortedBy(r, key)
    ensures multiset(r) == multiset(s)
    ensures |r| == |s|
  {
    if s == [] then []
    else
      assert s == [s[0]] + s[1..];
      Insert(s[0], SortBy(s[1..], key), key)
  }

  /** `Take(n)`: the first `n` elements, or all of them when there are fewer; none for n <= 0. */
  function Take<T>(s: seq<T>, n: int): (r: seq<T>)
    ensures |r| == if n <= 0 then 0 else if n < |s| then n else |s|
    ensures r == s[..|r|]
  {
    if n <= 0 then [] else if n < |s| then s[..n] else s
  }

  // ---------------------------------------------------------------- queries

  /** The filter `l => l.CategoryId == categoryId && l.IsActive`. */
  function ActiveIn(categoryId: int): (p: Listing -> bool)
    ensures forall l :: p(l) == (l.categoryId == categoryId && l.isActive)
  {
    (l: Listing) => l.categoryId == categoryId && l.isActive
  }

  /** The filter `l => l.Price <= maxPrice`. */
  function AtMost(maxPrice: int): (p: Listing -> bool)
    ensures forall l :: p(l) == (l.price <= maxPrice)
  {
    (l: Listing) => l.price <= maxPrice
  }

  /** The filter `l => l.Title.Contains(needle)`. */
  function TitleHas(needle: string): (p: Listing -> bool)
    ensures forall l :: p(l) == Text.Contains(l.title, needle)
  {
    (l: Listing) => Text.Contains(l.title, needle)
  }

  /** `Listings.Where(l => l.CategoryId == categoryId && l.IsActive)`. */
  function ActiveInCategory(rows: seq<Listing>, categoryId: int): (r: seq<Listing>)
    ensures forall l :: l in r <==> l in rows && l.categoryId == categoryId && l.isActive
    ensures forall l :: multiset(r)[l] == if l.categoryId == categoryId && l.isActive then multiset(rows)[l] else 0
  {
    WhereCounts(rows, ActiveIn(categoryId));
    WhereMembers(rows, ActiveIn(categoryId));
    Where(rows, ActiveIn(categoryId))
  }

  /** `Listings.Where(l => l.Price <= maxPrice).OrderBy(l => l.Price)`. */
  function AtMostPriceAscending(rows: seq<Listing>, maxPrice: int): (r: seq<Listing>)
    ensures forall l :: l in r <==> l in rows && l.price <= maxPrice
    ensures forall l :: multiset(r)[l] == if l.price <= maxPrice then multiset(rows)[l] else 0
    ensures forall i, j :: 0 <= i < j < |r| ==> r[i].price <= r[j].price
  {
    var matching := Where(rows, AtMost(maxPrice));
    WhereCounts(rows, AtMost(maxPrice));
    WhereMembers(rows, AtMost(maxPrice));
    var r := SortBy(matching, PriceOf);
    assert forall l :: l in r <==> l in matching by {
      forall l ensures l in r <==> l in matching {
        assert l in r <==> l in multiset(r);
      }
    }
    r
  }

  /** `Listings.Where(l => l.Title.Contains(needle))`. */
  function TitleContains(rows: seq<Listing>, needle: string): (r: seq<Listing>)
    ensures forall l :: l in r <==> l in rows && Text.Contains(l.title, needle)
    ensures forall l :: multiset(r)[l] == if Text.Contains(l.title, needle) then multiset(rows)[l] else 0
  {
    WhereCounts(rows, TitleHas(needle));
    WhereMembers(rows, TitleHas(needle));
    Where(rows, TitleHas(needle))
  }

  /** Ordering by the negated timestamp is ordering by timestamp, newest first. */
  function NegatedTimestamp(e: AuditEntry): int
  {
    -e.timestamp
  }

  /** The sort key of `OrderBy(l => l.Price)`. */
  function PriceOf(l: Listing): int
  {
    l.price
  }

  /** `AuditLogs.OrderByDescending(a => a.Timestamp)`. */
  function NewestFirst(log: seq<AuditEntry>): (r: seq<AuditEntry>)
    ensures multiset(r) == multiset(log) && |r| == |log|
    ensures forall i, j :: 0 <= i < j < |r| ==> r[i].timestamp >= r[j].timestamp
  {
    SortBy(log, NegatedTimestamp)
  }

  /** `AuditLogs.OrderByDescending(a => a.Timestamp).Take(n)`. */
  function MostRecent(log: seq<AuditEntry>, n: int): (r: seq<AuditEntry>)
    ensures |r| == if n <= 0 then 0 else if n < |log| then n else |log|
    ensures forall e :: e in r ==> e in log
    ensures multiset(r) <= multiset(log)
    ensures forall i, j :: 0 <= i < j < |r| ==> r[i].timestamp >= r[j].timestamp
    ensures forall e, e' :: e in r && e' in multiset(log) - multiset(r) ==> e.timestamp >= e'.timestamp
  {
    var sorted := NewestFirst(log);
    var r := Take(sorted, n);
    assert r == sorted[..|r|];
    PrefixOfNewestFirst(log, sorted, |r|);
    r
  }

  /** Splitting a newest-first ordering of `log` at `k`: the prefix comes from `log` and nothing after it is newer. */
  lemma PrefixOfNewestFirst(log: seq<AuditEntry>, sorted: seq<AuditEntry>, k: nat)
    requires multiset(sorted) == multiset(log)
    requires forall i, j :: 0 <= i < j < |sorted| ==> sorted[i].timestamp >= sorted[j].timestamp
    requires k <= |sorted|
    ensures forall e :: e in sorted[..k] ==> e in log
    ensures multiset(sorted[..k]) <= multiset(log)
    ensures forall i, j :: 0 <= i < j < k ==> sorted[..k][i].timestamp >= sorted[..k][j].timestamp
    ensures multiset(log) - multiset(sorted[..k]) == multiset(sorted[k..])
    ensures forall e, e' :: e in sorted[..k] && e' in multiset(log) - multiset(sorted[..k]) ==> e.timestamp >= e'.timestamp
  {
    var r, tail := sorted[..k], sorted[k..];
    assert sorted == r + tail;
    assert multiset(sorted) == multiset(r) + multiset(tail);
    forall e | e in r
      ensures e in log
    {
      assert e in multiset(sorted);
    }
    forall e, e' | e in r && e' in multiset(tail)
      ensures e.timestamp >= e'.timestamp
    {
      var i :| 0 <= i < k && r[i] == e;
      assert e' in tail;
      var j :| 0 <= j < |tail| && tail[j] == e';
      assert sorted[i] == e && sorted[k + j] == e';
    }
  }

  /** A listing with its category loaded, as `Include(l => l.Category)` gives it. */
  datatype ListingWithCategory = ListingWithCategory(listing: Listing, category: Option<Category>)

  /** `Listings.Include(l => l.Category).FirstOrDefault(l => l.Id == id)`. */
  function LoadWithCategory(rows: seq<Listing>, cats: seq<Category>, id: int): (r: Option<ListingWithCategory>)
    ensures r.Some? <==> FindListing(rows, id).Some?
    ensures r.Some? ==> r.value.listing == FindListing(rows, id).value
    ensures r.Some? ==> r.value.category == FindCategory(cats, r.value.listing.categoryId)
    ensures r.Some? && r.value.category.Some? ==> r.value.category.value.id == r.value.listing.categoryId
  {
    match FindListing(rows, id)
    case None => None
    case Some(l) => Some(ListingWithCategory(l, FindCategory(cats, l.categoryId)))
  }

  // ------------------------------------------------------------- properties

  /** `Where` filters front to back: the filtered head, then the filtered rest. */
  lemma WhereCons<T(!new)>(x: T, s: seq<T>, p: T -> bool)
    ensures Where([x] + s, p) == (if p(x) then [x] else []) + Where(s, p)
  {
    assert ([x] + s)[1..] == s;
  }

  /** Filtering a concatenation filters each part and keeps them in order. */
  lemma {:induction false} WhereAppend<T>(a: seq<T>, b: seq<T>, p: T -> bool)
    ensures Where(a + b, p) == Where(a, p) + Where(b, p)
  {
    if a != [] {
      assert (a + b)[0] == a[0];
      assert (a + b)[1..] == a[1..] + b;
      WhereAppend(a[1..], b, p);
      var h := if p(a[0]) then [a[0]] else [];
      assert Where(a + b, p) == h + Where(a[1..] + b, p);
      assert Where(a, p) == h + Where(a[1..], p);
      assert h + (Where(a[1..], p) + Where(b, p)) == (h + Where(a[1..], p)) + Where(b, p);
    } else {
      assert a + b == b;
    }
  }

  /** An already sorted sequence is left as it is by the sort. */
  lemma {:induction false} SortBySorted<T>(s: seq<T>, key: T -> int)
    requires SortedBy(s, key)
    ensures SortBy(s, key) == s
  {
    if s != [] {
      assert SortedBy(s[1..], key);
      SortBySorted(s[1..], key);
      assert s == [s[0]] + s[1..];
    }
  }

  /** The head of an ascending price query is the cheapest matching row. */
  lemma CheapestFirst(rows: seq<Listing>, maxPrice: int)
    requires AtMostPriceAscending(rows, maxPrice) != []
    ensures forall l :: l in rows && l.price <= maxPrice ==> AtMostPriceAscending(rows, maxPrice)[0].price <= l.price
  {
    var r := AtMostPriceAscending(rows, maxPrice);
    forall l | l in rows && l.price <= maxPrice
      ensures r[0].price <= l.price
    {
      assert l in r;
      var j :| 0 <= j < |r| && r[j] == l;
      if j > 0 {
        assert r[0].price <= r[j].price;
      }
    }
  }

  /** Once a listing is inactive, no category query returns a row with its key. */
  lemma {:induction false} InactiveRowHidden(rows: seq<Listing>, id: int, categoryId: int)
    requires UniqueIds(rows)
    requires FindListing(rows, id).Some? && !FindListing(rows, id).value.isActive
    ensures forall l :: l in ActiveInCategory(rows, categoryId) ==> l.id != id
  {
    var k := IndexOfListing(rows, id);
    forall l | l in ActiveInCategory(rows, categoryId)
      ensures l.id != id
    {
      var i :| 0 <= i < |rows| && rows[i] == l;
      assert i != k;
    }
  }
}
