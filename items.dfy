/**
 * The stored record (`ContentItem`), the search filters, and the lookups both
 * stores share. Timestamps are milliseconds since the epoch.
 */
module ContentItems {
  import opened Wrappers
  import opened Text
  import opened Sorting

  datatype ItemType = Note | Link

  datatype Item = Item(
    id: string,
    kind: ItemType,
    title: Option<string>,
    body: Option<string>,
    url: Option<string>,
    tags: seq<string>,
    createdAt: int,
    updatedAt: Option<int>)

  datatype SaveResult = SaveResult(item: Item, isDuplicate: bool)

  /** What `initialize` finds on disk: no snapshot file, a file that does not
      parse as a JSON array, or the parsed array. */
  datatype Snapshot = Absent | Unreadable | Loaded(items: seq<Item>)

  /** `SearchFilters`: every filter is optional. Dates are the instants
      `new Date(dateFrom)` and `new Date(dateTo)` denote. */
  datatype Filters = Filters(
    query: Option<string>,
    tags: Option<seq<string>>,
    dateFrom: Option<int>,
    dateTo: Option<int>)

  /** The collection `initialize` starts from: the parsed array, else empty. */
  function Restored(disk: Snapshot): (items: seq<Item>)
    ensures disk.Loaded? ==> items == disk.items
    ensures !disk.Loaded? ==> items == []
  {
    if disk.Loaded? then disk.items else []
  }

  /** JavaScript truthiness of an optional string: present and not empty. */
  predicate Truthy(s: Option<string>) {
    s.Some? && s.value != ""
  }

  /** `a || b` on optional strings: `a` when it is truthy, else `b`. */
  function Or(a: Option<string>, b: Option<string>): (r: Option<string>)
    ensures Truthy(a) ==> r == a
    ensures !Truthy(a) ==> r == b
  {
    if Truthy(a) then a else b
  }

  /** The sort key: `new Date(item.createdAt).getTime()`. */
  function CreatedAt(x: Item): int {
    x.createdAt
  }

  /** `field?.toLowerCase().includes(q)` is truthy. */
  predicate FieldContains(field: Option<string>, q: string) {
    field.Some? && Contains(Lower(field.value), q)
  }

  /** Some tag of the item equals some filter tag, ignoring case. */
  predicate SharesTag(itemTags: seq<string>, filterTags: seq<string>) {
    exists i, j :: 0 <= i < |itemTags| && 0 <= j < |filterTags| && Lower(itemTags[i]) == Lower(filterTags[j])
  }

  predicate UniqueIds(items: seq<Item>) {
    forall i, j :: 0 <= i < j < |items| ==> items[i].id != items[j].id
  }

  /** `xs.findIndex(p)` (and `xs.find(p)` through the index): the first index
      whose item satisfies `p`. */
  function FirstWhere(xs: seq<Item>, p: Item -> bool): (r: Option<nat>)
    ensures r.Some? ==> r.value < |xs| && p(xs[r.value])
    ensures r.Some? ==> forall k :: 0 <= k < r.value ==> !p(xs[k])
    ensures r.None? <==> forall k :: 0 <= k < |xs| ==> !p(xs[k])
  {
    if |xs| == 0 then None
    else if p(xs[0]) then Some(0)
    else match FirstWhere(xs[1..], p)
      case Some(k) => Some(k + 1)
      case None => None
  }

  /** `items.findIndex(item => item.id === id)`, with `None` for -1. */
  function IndexOfId(items: seq<Item>, id: string): (r: Option<nat>)
    ensures r.Some? ==> r.value < |items| && items[r.value].id == id
    ensures r.Some? ==> forall k :: 0 <= k < r.value ==> items[k].id != id
    ensures r.None? <==> forall k :: 0 <= k < |items| ==> items[k].id != id
  {
    if |items| == 0 then None
    else if items[0].id == id then Some(0)
    else match IndexOfId(items[1..], id)
      case Some(k) => Some(k + 1)
      case None => None
  }

  /** The collection after `items.splice(k, 1)`. */
  function RemoveAt(items: seq<Item>, k: nat): (r: seq<Item>)
    requires k < |items|
    ensures |r| == |items| - 1
    ensures forall j :: 0 <= j < k ==> r[j] == items[j]
    ensures forall j :: k <= j < |r| ==> r[j] == items[j + 1]
  {
    items[..k] + items[k + 1..]
  }

  /** Removing the only item with an id removes the id, and keeps the others unique. */
  lemma RemoveAtUnique(items: seq<Item>, k: nat)
    requires UniqueIds(items) && k < |items|
    ensures UniqueIds(RemoveAt(items, k))
    ensures forall j :: 0 <= j < |items| - 1 ==> RemoveAt(items, k)[j].id != items[k].id
  {
  }

  /** `items.find(item => item.id === id) || null`. */
  function FindById(items: seq<Item>, id: string): (r: Option<Item>)
    ensures r.None? <==> forall k :: 0 <= k < |items| ==> items[k].id != id
    ensures r.Some? ==> exists k :: 0 <= k < |items| && items[k] == r.value && r.value.id == id
                          && forall j :: 0 <= j < k ==> items[j].id != id
  {
    match IndexOfId(items, id)
    case Some(k) => Some(items[k])
    case None => None
  }

  /** The items created at or after `cutoff`, in collection order. */
  function CreatedSince(items: seq<Item>, cutoff: int): (r: seq<Item>)
    ensures forall x :: multiset(r)[x] == if x.createdAt >= cutoff then multiset(items)[x] else 0
  {
    if |items| == 0 then []
    else
      assert items == [items[0]] + items[1..];
      (if items[0].createdAt >= cutoff then [items[0]] else []) + CreatedSince(items[1..], cutoff)
  }

  /** Newest first, ties in collection order. */
  function NewestFirst(items: seq<Item>): (r: seq<Item>)
    ensures SortedDesc(r, CreatedAt)
    ensures multiset(r) == multiset(items)
    ensures forall t :: WithKey(r, CreatedAt, t) == WithKey(items, CreatedAt, t)
  {
    SortDescStableAll(items, CreatedAt);
    SortDesc(items, CreatedAt)
  }

  /** A prefix of the newest-first listing of the items created since
      `cutoff` is still newest first and holds only such items. */
  lemma RecentPrefix(items: seq<Item>, cutoff: int, r: seq<Item>)
    requires var recent := NewestFirst(CreatedSince(items, cutoff)); |r| <= |recent| && r == recent[..|r|]
    ensures SortedDesc(r, CreatedAt)
    ensures forall x :: x in r ==> x in items && x.createdAt >= cutoff
  {
    var since := CreatedSince(items, cutoff);
    var recent := NewestFirst(since);
    PrefixSortedDesc(recent, r, CreatedAt);
    forall x | x in r ensures x in items && x.createdAt >= cutoff {
      assert x in recent;
      assert multiset(since)[x] > 0;
    }
  }

  lemma PrefixSortedDesc<T>(xs: seq<T>, r: seq<T>, key: T -> int)
    requires SortedDesc(xs, key) && |r| <= |xs| && r == xs[..|r|]
    ensures SortedDesc(r, key)
    ensures forall x :: x in r ==> x in xs
  {
  }
}

/** The parts of a URL that `new URL(s)` exposes. */
module Urls {
  import opened Wrappers

  /** `protocol` keeps its ':' ("https:"); `host` includes a port; `origin` is
      `protocol//host` for http and https; `search` keeps its '?' and `hash` its '#'. */
  datatype UrlParts = UrlParts(
    protocol: string,
    host: string,
    origin: string,
    pathname: string,
    search: string,
    hash: string)

  /** `new URL(s)`: the parts, or `None` where the constructor throws. */
  type UrlParser = string -> Option<UrlParts>

  /** `path.replace(/\/$/, '')`: at most one trailing '/' is removed. */
  function DropTrailingSlash(path: string): (r: string)
    ensures |path| > 0 && path[|path| - 1] == '/' ==> r == path[..|path| - 1]
    ensures !(|path| > 0 && path[|path| - 1] == '/') ==> r == path
  {
    if |path| > 0 && path[|path| - 1] == '/' then path[..|path| - 1] else path
  }
}
