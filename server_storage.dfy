/**
 * The item store the MCP servers and the command-line script use
 * (`Storage` in src/storage.ts): links are de-duplicated by normalised URL and
 * merged unconditionally; searches and recent listings are newest first.
 */
module ServerStorage {
  import opened Wrappers
  import opened Text
  import opened Seqs
  import opened Sorting
  import opened ContentItems
  import opened Urls

  /** What `saveItem` receives: a record without `id` and `createdAt`. */
  datatype NewItem = NewItem(
    kind: ItemType,
    title: Option<string>,
    body: Option<string>,
    url: Option<string>,
    tags: seq<string>)

  /** The record the duplicate path writes back: tags are the union of the old
      and the new ones, `title` and `body` are backfilled only where the stored
      value is empty, and `updatedAt` is stamped. */
  function MergeDuplicate(dup: Item, c: NewItem, now: int): (m: Item)
    ensures m.id == dup.id && m.kind == dup.kind && m.url == dup.url && m.createdAt == dup.createdAt
    ensures m.tags == Dedup(dup.tags + c.tags)
    ensures m.title == Or(dup.title, c.title) && m.body == Or(dup.body, c.body)
    ensures m.updatedAt == Some(now)
  {
    dup.(tags := Dedup(dup.tags + c.tags), title := Or(dup.title, c.title),
         body := Or(dup.body, c.body), updatedAt := Some(now))
  }

  /** The merged tags hold no repeats and lose no tag; the stored tags, with
      their own repeats removed, keep their places at the front. */
  lemma MergedTags(dup: Item, c: NewItem, now: int)
    ensures var tags := MergeDuplicate(dup, c, now).tags;
      && Distinct(tags)
      && (forall t :: t in tags <==> t in dup.tags || t in c.tags)
      && |Dedup(dup.tags)| <= |tags| && tags[..|Dedup(dup.tags)|] == Dedup(dup.tags)
      && (Distinct(dup.tags) ==> |dup.tags| <= |tags| && tags[..|dup.tags|] == dup.tags)
  {
    var tags := MergeDuplicate(dup, c, now).tags;
    DedupPrefix(dup.tags, c.tags);
    if Distinct(dup.tags) {
      DedupOfDistinct(dup.tags);
    }
    forall t ensures t in tags <==> t in dup.tags || t in c.tags {
      if t in dup.tags + c.tags {
        var i :| 0 <= i < |dup.tags + c.tags| && (dup.tags + c.tags)[i] == t;
      }
      if t in tags {
        var i :| 0 <= i < |tags| && tags[i] == t;
      }
    }
  }

  /** The record the creation path appends: the input as given, with the new
      id and the creation time. */
  function CreateItem(c: NewItem, id: string, now: int): (x: Item)
    ensures x.id == id && x.createdAt == now && x.updatedAt == None
    ensures x.kind == c.kind && x.title == c.title && x.body == c.body && x.url == c.url && x.tags == c.tags
  {
    Item(id, c.kind, c.title, c.body, c.url, c.tags, now, None)
  }

  /** `filters.query`: a case-insensitive substring of the title, body or url
      (tags do not take part). */
  predicate MatchesQuery(x: Item, q: string) {
    FieldContains(x.title, Lower(q)) || FieldContains(x.body, Lower(q)) || FieldContains(x.url, Lower(q))
  }

  /** Every supplied filter holds of `x`. `dateTo` is widened to the end of its
      day by `endOfDay`, the local-time `setHours(23, 59, 59, 999)`. */
  predicate Matches(x: Item, f: Filters, endOfDay: int -> int) {
    && (Truthy(f.query) ==> MatchesQuery(x, f.query.value))
    && (f.tags.Some? && |f.tags.value| > 0 ==> SharesTag(x.tags, f.tags.value))
    && (f.dateFrom.Some? ==> x.createdAt >= f.dateFrom.value)
    && (f.dateTo.Some? ==> x.createdAt <= endOfDay(f.dateTo.value))
  }

  /** The items that pass every filter, in collection order. */
  function Matching(items: seq<Item>, f: Filters, endOfDay: int -> int): (r: seq<Item>)
    ensures forall x :: multiset(r)[x] == if Matches(x, f, endOfDay) then multiset(items)[x] else 0
  {
    if |items| == 0 then []
    else
      assert items == [items[0]] + items[1..];
      (if Matches(items[0], f, endOfDay) then [items[0]] else []) + Matching(items[1..], f, endOfDay)
  }

  /** With only `dateFrom`, the filters keep exactly the items created since then. */
  lemma {:induction false} DateFromOnly(items: seq<Item>, cutoff: int, endOfDay: int -> int)
    ensures Matching(items, Filters(None, None, Some(cutoff), None), endOfDay) == CreatedSince(items, cutoff)
    decreases |items|
  {
    if |items| > 0 {
      DateFromOnly(items[1..], cutoff, endOfDay);
    }
  }

  class Storage {
    /** The URL constructor the store normalises with. */
    const parse: UrlParser
    var items: seq<Item>
    /** The collection last written to the snapshot file. */
    ghost var persisted: seq<Item>

    /** `new Storage()` then `initialize()`: the parsed snapshot, else empty. */
    constructor (parse: UrlParser, disk: Snapshot)
      ensures this.parse == parse
      ensures items == Restored(disk) && persisted == items
    {
      this.parse := parse;
      items := Restored(disk);
      persisted := Restored(disk);
    }

    /** The comparison key for links: for a parseable URL,
        `protocol//host`, the path without one trailing '/', and the query,
        all lower-cased, the fragment dropped; otherwise the trimmed,
        lower-cased text. */
    function NormalizeUrl(url: string): (r: string)
      ensures parse(url).None? ==> r == Trim(Lower(url))
      ensures parse(url).Some? ==> var u := parse(url).value;
        r == Lower(u.protocol) + Lower("//") + Lower(u.host) + Lower(DropTrailingSlash(u.pathname)) + Lower(u.search)
    {
      match parse(url)
      case None => Trim(Lower(url))
      case Some(u) =>
        LowerAppend(u.protocol + "//" + u.host + DropTrailingSlash(u.pathname), u.search);
        LowerAppend(u.protocol + "//" + u.host, DropTrailingSlash(u.pathname));
        LowerAppend(u.protocol + "//", u.host);
        LowerAppend(u.protocol, "//");
        Lower(u.protocol + "//" + u.host + DropTrailingSlash(u.pathname) + u.search)
    }

    /** Every key is lower-case. When case variants of a URL collide is
        stated by `SameLinkUpToCase`, since it depends on what `parse`
        returns for them. */
    lemma KeyIsLowerCase(url: string)
      ensures IsLowerCase(NormalizeUrl(url))
    {
      match parse(url)
      case None =>
        LowerIsLowerCase(url);
        TrimKeepsLowerCase(Lower(url));
      case Some(u) =>
        LowerIsLowerCase(u.protocol + "//" + u.host + DropTrailingSlash(u.pathname) + u.search);
    }

    /** Two parseable URLs whose protocol, host, path (less one trailing '/')
        and query agree up to case are the same link, whatever their fragments. */
    lemma SameLinkUpToCase(a: string, b: string)
      requires parse(a).Some? && parse(b).Some?
      requires Lower(parse(a).value.protocol) == Lower(parse(b).value.protocol)
      requires Lower(parse(a).value.host) == Lower(parse(b).value.host)
      requires Lower(DropTrailingSlash(parse(a).value.pathname)) == Lower(DropTrailingSlash(parse(b).value.pathname))
      requires Lower(parse(a).value.search) == Lower(parse(b).value.search)
      ensures NormalizeUrl(a) == NormalizeUrl(b)
    {
    }

    /** `item` is a link with a non-empty url that normalises to `key`. */
    predicate IsLinkTo(x: Item, key: string) {
      x.kind == Link && Truthy(x.url) && NormalizeUrl(x.url.value) == key
    }

    /** No two links of `xs` normalise to the same key. */
    ghost predicate DistinctLinks(xs: seq<Item>) {
      forall i, j :: 0 <= i < j < |xs| && xs[i].kind == Link && Truthy(xs[i].url)
        ==> !IsLinkTo(xs[j], NormalizeUrl(xs[i].url.value))
    }

    /** The invariant de-duplication keeps: no two stored links normalise alike. */
    ghost predicate LinksDistinct()
      reads this
    {
      DistinctLinks(items)
    }

    lemma DistinctLinksReplace(xs: seq<Item>, k: nat, y: Item)
      requires DistinctLinks(xs) && k < |xs|
      requires y.kind == xs[k].kind && y.url == xs[k].url
      ensures DistinctLinks(xs[k := y])
    {
    }

    lemma DistinctLinksAppend(xs: seq<Item>, y: Item)
      requires DistinctLinks(xs)
      requires y.kind == Link && Truthy(y.url) ==> forall k :: 0 <= k < |xs| ==> !IsLinkTo(xs[k], NormalizeUrl(y.url.value))
      ensures DistinctLinks(xs + [y])
    {
    }

    lemma DistinctLinksRemove(xs: seq<Item>, k: nat)
      requires DistinctLinks(xs) && k < |xs|
      ensures DistinctLinks(RemoveAt(xs, k))
    {
      var r := RemoveAt(xs, k);
      forall i, j | 0 <= i < j < |r| && r[i].kind == Link && Truthy(r[i].url)
        ensures !IsLinkTo(r[j], NormalizeUrl(r[i].url.value))
      {
        var i' := if i < k then i else i + 1;
        var j' := if j < k then j else j + 1;
        assert r[i] == xs[i'] && r[j] == xs[j'];
      }
    }

    /** The first item of `xs` that is a link to `key`. */
    function FirstLinkTo(xs: seq<Item>, key: string): (r: Option<nat>)
      ensures r.Some? ==> r.value < |xs| && IsLinkTo(xs[r.value], key)
      ensures r.Some? ==> forall k :: 0 <= k < r.value ==> !IsLinkTo(xs[k], key)
      ensures r.None? <==> forall k :: 0 <= k < |xs| ==> !IsLinkTo(xs[k], key)
    {
      FirstWhere(xs, x => IsLinkTo(x, key))
    }

    /** `findDuplicateUrl(url)`: the first stored link whose url normalises as
        `url` does, or `None` when there is none. */
    function FindDuplicateUrl(url: string): (r: Option<Item>)
      reads this
      ensures r.None? <==> forall k :: 0 <= k < |items| ==> !IsLinkTo(items[k], NormalizeUrl(url))
      ensures r.Some? ==> exists k :: 0 <= k < |items| && items[k] == r.value && IsLinkTo(r.value, NormalizeUrl(url))
                            && forall j :: 0 <= j < k ==> !IsLinkTo(items[j], NormalizeUrl(url))
    {
      match FirstLinkTo(items, NormalizeUrl(url))
      case Some(k) => Some(items[k])
      case None => None
    }

    /** `saveItem`: a link whose url matches a stored link is merged into the
        slot `findIndex` finds by the duplicate's id, and nothing is added;
        anything else is appended with the fresh id. */
    method SaveItem(c: NewItem, freshId: string, now: int) returns (result: SaveResult)
      requires forall k :: 0 <= k < |items| ==> items[k].id != freshId
      modifies this
      ensures persisted == items
      ensures result.isDuplicate <==> c.kind == Link && Truthy(c.url) && old(FindDuplicateUrl(c.url.value)).Some?
      ensures result.isDuplicate ==>
        var dup := old(FindDuplicateUrl(c.url.value)).value;
        && IndexOfId(old(items), dup.id).Some?
        && result.item == MergeDuplicate(dup, c, now)
        && items == old(items)[IndexOfId(old(items), dup.id).value := result.item]
        && (UniqueIds(old(items)) ==> old(items)[IndexOfId(old(items), dup.id).value] == dup)
      ensures !result.isDuplicate ==>
        result.item == CreateItem(c, freshId, now) && items == old(items) + [result.item]
      ensures UniqueIds(old(items)) ==> UniqueIds(items)
      ensures UniqueIds(old(items)) && old(LinksDistinct()) ==> LinksDistinct()
    {
      var duplicate := if c.kind == Link && Truthy(c.url) then FindDuplicateUrl(c.url.value) else None;
      if duplicate.Some? {
        var dup := duplicate.value;
        var updated := MergeDuplicate(dup, c, now);
        var index := IndexOfId(items, dup.id);
        if index.Some? {
          MergeKeepsInvariants(items, dup, index.value, updated);
          items := items[index.value := updated];
          persisted := items;
        }
        result := SaveResult(updated, true);
      } else {
        var created := CreateItem(c, freshId, now);
        AppendKeepsInvariants(items, created);
        items := items + [created];
        persisted := items;
        result := SaveResult(created, false);
      }
    }

    lemma MergeKeepsInvariants(xs: seq<Item>, dup: Item, k: nat, updated: Item)
      requires dup in xs && IndexOfId(xs, dup.id) == Some(k)
      requires updated.id == dup.id && updated.kind == dup.kind && updated.url == dup.url
      ensures UniqueIds(xs) ==> xs[k] == dup && UniqueIds(xs[k := updated])
      ensures UniqueIds(xs) && DistinctLinks(xs) ==> DistinctLinks(xs[k := updated])
    {
      if UniqueIds(xs) {
        assert xs[k] == dup;
        if DistinctLinks(xs) {
          DistinctLinksReplace(xs, k, updated);
        }
      }
    }

    lemma AppendKeepsInvariants(xs: seq<Item>, y: Item)
      requires forall k :: 0 <= k < |xs| ==> xs[k].id != y.id
      requires y.kind == Link && Truthy(y.url) ==> forall k :: 0 <= k < |xs| ==> !IsLinkTo(xs[k], NormalizeUrl(y.url.value))
      ensures UniqueIds(xs) ==> UniqueIds(xs + [y])
      ensures DistinctLinks(xs) ==> DistinctLinks(xs + [y])
    {
      if DistinctLinks(xs) {
        DistinctLinksAppend(xs, y);
      }
    }

    /** `getAllItems`: a copy of the collection, in stored order. */
    function GetAllItems(): (r: seq<Item>)
      reads this
      ensures r == items
    {
      items
    }

    /** `searchItems`: exactly the matching items, each as often as it is
        stored, newest first, ties in collection order. */
    function SearchItems(f: Filters, endOfDay: int -> int): (r: seq<Item>)
      reads this
      ensures SortedDesc(r, CreatedAt)
      ensures forall x :: multiset(r)[x] == if Matches(x, f, endOfDay) then multiset(items)[x] else 0
      ensures forall t :: WithKey(r, CreatedAt, t) == WithKey(Matching(items, f, endOfDay), CreatedAt, t)
    {
      NewestFirst(Matching(items, f, endOfDay))
    }

    /** `getRecentItems(days, limit)` with `cutoff` the instant `days` days
        before now: the items created since the cutoff, newest first, cut to
        `limit` when it is positive. */
    function GetRecentItems(cutoff: int, limit: Option<int>): (r: seq<Item>)
      reads this
      ensures SortedDesc(r, CreatedAt)
      ensures forall x :: x in r ==> x in items && x.createdAt >= cutoff
      ensures var recent := NewestFirst(CreatedSince(items, cutoff)); |r| <= |recent| && r == recent[..|r|]
      ensures limit.Some? && limit.value > 0 ==>
        var n := |CreatedSince(items, cutoff)|;
        |r| == if limit.value < n then limit.value else n
      ensures !(limit.Some? && limit.value > 0) ==>
        forall x :: multiset(r)[x] == if x.createdAt >= cutoff then multiset(items)[x] else 0
    {
      var recent := NewestFirst(CreatedSince(items, cutoff));
      var r := if limit.Some? && limit.value > 0 then SliceTo(recent, limit.value) else recent;
      RecentPrefix(items, cutoff, r);
      r
    }

    /** The recent listing is the date-from search, cut to the limit. */
    lemma RecentIsSearchFrom(cutoff: int, limit: Option<int>, endOfDay: int -> int)
      ensures var all := SearchItems(Filters(None, None, Some(cutoff), None), endOfDay);
        GetRecentItems(cutoff, limit) == if limit.Some? && limit.value > 0 then SliceTo(all, limit.value) else all
    {
      DateFromOnly(items, cutoff, endOfDay);
    }

    /** `deleteItem(id)`: removes the first item with that id and reports
        whether there was one. */
    method DeleteItem(id: string) returns (removed: bool)
      modifies this
      ensures removed <==> exists k :: 0 <= k < |old(items)| && old(items)[k].id == id
      ensures !removed ==> items == old(items) && persisted == old(persisted)
      ensures removed ==> items == RemoveAt(old(items), IndexOfId(old(items), id).value) && persisted == items
      ensures UniqueIds(old(items)) ==> UniqueIds(items) && forall k :: 0 <= k < |items| ==> items[k].id != id
      ensures old(LinksDistinct()) ==> LinksDistinct()
    {
      var index := IndexOfId(items, id);
      if index.None? {
        return false;
      }
      if UniqueIds(items) {
        RemoveAtUnique(items, index.value);
      }
      if LinksDistinct() {
        DistinctLinksRemove(items, index.value);
      }
      items := RemoveAt(items, index.value);
      persisted := items;
      return true;
    }

    /** `getItemById(id)`: the first item with that id, or `None`. */
    function GetItemById(id: string): (r: Option<Item>)
      reads this
      ensures r.None? <==> forall k :: 0 <= k < |items| ==> items[k].id != id
      ensures r.Some? ==> exists k :: 0 <= k < |items| && items[k] == r.value && r.value.id == id
                            && forall j :: 0 <= j < k ==> items[j].id != id
    {
      FindById(items, id)
    }
  }
}
