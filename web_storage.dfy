/**
 * The item store the web interface falls back to when the MCP server is not
 * available (`Storage` in web-ui/lib/storage.ts). It differs from the server's
 * store in its URL key (path case kept), in merging only when tags are
 * supplied, in cleaning tags and trimming fields on creation, in searching tag
 * text, in comparing `dateTo` as given, and in its recent-items limit.
 */
module WebStorage {
  import opened Wrappers
  import opened Text
  import opened Seqs
  import opened Sorting
  import opened ContentItems
  import opened Urls

  /** What `saveItem` receives. */
  datatype SaveInput = SaveInput(
    kind: ItemType,
    title: Option<string>,
    body: Option<string>,
    url: Option<string>,
    tags: Option<seq<string>>)

  /** `item.tags && item.tags.length > 0`. */
  predicate HasNewTags(c: SaveInput) {
    c.tags.Some? && |c.tags.value| > 0
  }

  /** `tag.toLowerCase().trim()`. */
  function CleanTag(t: string): (r: string)
    ensures IsLowerCase(r) && IsTrimmed(r)
  {
    LowerIsLowerCase(t);
    TrimKeepsLowerCase(Lower(t));
    Trim(Lower(t))
  }

  /** A cleaned tag is its own clean form. */
  lemma CleanTagIdempotent(t: string)
    ensures CleanTag(CleanTag(t)) == CleanTag(t)
  {
    var c := CleanTag(t);
    LowerOfLowerCase(c);
    TrimOfTrimmed(c);
  }

  /** Every tag cleaned, in order (the merge path). */
  function CleanTags(ts: seq<string>): (r: seq<string>)
    ensures |r| == |ts| && forall k :: 0 <= k < |ts| ==> r[k] == CleanTag(ts[k])
  {
    seq(|ts|, k requires 0 <= k < |ts| => CleanTag(ts[k]))
  }

  /** What the creation path lets through: lower-case, trimmed, not empty. */
  predicate IsCleanTag(t: string) {
    t != "" && IsLowerCase(t) && IsTrimmed(t)
  }

  predicate IsNonEmpty(t: string) {
    t != ""
  }

  /** `filter((t) => t.length > 0)`. */
  function NonEmpty(xs: seq<string>): (r: seq<string>)
    ensures forall k :: 0 <= k < |r| ==> r[k] != "" && r[k] in xs
    ensures |r| <= |xs|
    ensures forall w :: multiset(r)[w] == if w != "" then multiset(xs)[w] else 0
  {
    FilterMembers(xs, IsNonEmpty);
    Filter(xs, IsNonEmpty)
  }

  /** The filter works element by element, so it keeps the input order. */
  lemma NonEmptyAppend(a: seq<string>, b: seq<string>)
    ensures NonEmpty(a + b) == NonEmpty(a) + NonEmpty(b)
  {
    FilterAppend(a, b, IsNonEmpty);
  }

  lemma NonEmptyComplete(xs: seq<string>)
    ensures forall k :: 0 <= k < |xs| && xs[k] != "" ==> xs[k] in NonEmpty(xs)
  {
    FilterMembers(xs, IsNonEmpty);
  }

  lemma NonEmptyOfNonEmpty(xs: seq<string>)
    requires forall k :: 0 <= k < |xs| ==> xs[k] != ""
    ensures NonEmpty(xs) == xs
  {
    FilterAll(xs, IsNonEmpty);
  }

  lemma CleanTagsAreClean(ts: seq<string>)
    ensures forall t :: t in CleanTags(ts) ==> IsLowerCase(t) && IsTrimmed(t)
  {
    forall t | t in CleanTags(ts) ensures IsLowerCase(t) && IsTrimmed(t) {
      var i :| 0 <= i < |ts| && CleanTags(ts)[i] == t;
    }
  }

  /** The tags creation stores: every tag cleaned, the empty ones dropped, in
      input order, repeats kept. */
  function CreationTags(ts: seq<string>): (r: seq<string>)
    ensures forall k :: 0 <= k < |r| ==> IsCleanTag(r[k])
    ensures |r| <= |ts|
    ensures forall w :: multiset(r)[w] == if w != "" then multiset(CleanTags(ts))[w] else 0
  {
    var cleaned := CleanTags(ts);
    CleanTagsAreClean(ts);
    NonEmpty(cleaned)
  }

  /** No tag with a non-empty clean form is lost. */
  lemma CreationTagsComplete(ts: seq<string>)
    ensures forall k :: 0 <= k < |ts| && CleanTag(ts[k]) != "" ==> CleanTag(ts[k]) in CreationTags(ts)
  {
    NonEmptyComplete(CleanTags(ts));
  }

  /** Tags are cleaned one at a time, so the input order is kept. */
  lemma {:induction false} CreationTagsAppend(a: seq<string>, b: seq<string>)
    ensures CreationTags(a + b) == CreationTags(a) + CreationTags(b)
  {
    CleanTagsAppend(a, b);
    NonEmptyAppend(CleanTags(a), CleanTags(b));
  }

  lemma {:induction false} CleanTagsAppend(a: seq<string>, b: seq<string>)
    ensures CleanTags(a + b) == CleanTags(a) + CleanTags(b)
  {
    MapAppend(a, b, CleanTags(a), CleanTags(b), CleanTags(a + b), CleanTag);
  }

  /** Mapping `f` over `a + b` is mapping it over `a` and over `b`. */
  lemma MapAppend<A, B>(a: seq<A>, b: seq<A>, fa: seq<B>, fb: seq<B>, fab: seq<B>, f: A -> B)
    requires |fa| == |a| && forall k :: 0 <= k < |a| ==> fa[k] == f(a[k])
    requires |fb| == |b| && forall k :: 0 <= k < |b| ==> fb[k] == f(b[k])
    requires |fab| == |a + b| && forall k :: 0 <= k < |a + b| ==> fab[k] == f((a + b)[k])
    ensures fab == fa + fb
  {
    forall k | 0 <= k < |fab| ensures fab[k] == (fa + fb)[k] {
      if k < |a| {
        assert (a + b)[k] == a[k];
      } else {
        assert (a + b)[k] == b[k - |a|];
      }
    }
  }
  /** A single tag is stored cleaned, unless its clean form is empty. */
  lemma {:induction false} CreationTagsOne(t: string)
    ensures CreationTags([t]) == if CleanTag(t) != "" then [CleanTag(t)] else []
  {
    assert CleanTags([t]) == [CleanTag(t)];
  }

  /** Cleaning stored tags again changes nothing. */
  lemma CreationTagsIdempotent(ts: seq<string>)
    ensures CreationTags(CreationTags(ts)) == CreationTags(ts)
  {
    var r := CreationTags(ts);
    forall k | 0 <= k < |r| ensures CleanTags(r)[k] == r[k] {
      LowerOfLowerCase(r[k]);
      TrimOfTrimmed(r[k]);
    }
    assert CleanTags(r) == r;
    NonEmptyOfNonEmpty(r);
  }

  /** `s?.trim()`. */
  function TrimField(s: Option<string>): (r: Option<string>)
    ensures s.None? <==> r.None?
    ensures s.Some? ==> r.value == Trim(s.value)
  {
    if s.Some? then Some(Trim(s.value)) else None
  }

  /** Backfill of `title` and `body`: the stored value unless it is empty and
      the input supplies one, which is then trimmed. */
  function Backfill(stored: Option<string>, given: Option<string>): (r: Option<string>)
    ensures Truthy(stored) ==> r == stored
    ensures !Truthy(stored) && Truthy(given) ==> r == Some(Trim(given.value))
    ensures !Truthy(stored) && !Truthy(given) ==> r == stored
  {
    if !Truthy(stored) && Truthy(given) then Some(Trim(given.value)) else stored
  }

  /** The stored link after a duplicate save that supplies tags: the cleaned
      tags are added to its tag set, empty fields are backfilled, `updatedAt`
      is stamped. */
  function MergeInto(existing: Item, c: SaveInput, now: int): (m: Item)
    requires HasNewTags(c)
    ensures m.id == existing.id && m.kind == existing.kind && m.url == existing.url
    ensures m.createdAt == existing.createdAt
    ensures m.tags == Dedup(existing.tags + CleanTags(c.tags.value))
    ensures m.title == Backfill(existing.title, c.title) && m.body == Backfill(existing.body, c.body)
    ensures m.updatedAt == Some(now)
  {
    existing.(tags := Dedup(existing.tags + CleanTags(c.tags.value)),
              title := Backfill(existing.title, c.title),
              body := Backfill(existing.body, c.body),
              updatedAt := Some(now))
  }

  /** The merged tags hold no repeats, keep the stored ones first and in
      order, and contain every cleaned new tag and nothing else. */
  lemma MergedTags(existing: Item, c: SaveInput, now: int)
    requires HasNewTags(c)
    ensures var tags := MergeInto(existing, c, now).tags;
      && Distinct(tags)
      && (forall t :: t in tags <==> t in existing.tags || t in CleanTags(c.tags.value))
      && |Dedup(existing.tags)| <= |tags| && tags[..|Dedup(existing.tags)|] == Dedup(existing.tags)
      && (Distinct(existing.tags) ==> |existing.tags| <= |tags| && tags[..|existing.tags|] == existing.tags)
  {
    var tags := MergeInto(existing, c, now).tags;
    var added := CleanTags(c.tags.value);
    DedupPrefix(existing.tags, added);
    if Distinct(existing.tags) {
      DedupOfDistinct(existing.tags);
    }
    forall t ensures t in tags <==> t in existing.tags || t in added {
      if t in existing.tags + added {
        var i :| 0 <= i < |existing.tags + added| && (existing.tags + added)[i] == t;
      }
      if t in tags {
        var i :| 0 <= i < |tags| && tags[i] == t;
      }
    }
  }

  /** Unlike creation, the merge does not drop tags that clean to nothing. */
  lemma MergeKeepsBlankTag(existing: Item, now: int)
    ensures "" in MergeInto(existing, SaveInput(Link, None, None, None, Some(["  "])), now).tags
  {
    var c := SaveInput(Link, None, None, None, Some(["  "]));
    assert CleanTag("  ") == "";
    MergedTags(existing, c, now);
    assert CleanTags(c.tags.value)[0] == "";
  }

  /** The record the creation path appends: fields trimmed, tags cleaned. */
  function CreateItem(c: SaveInput, id: string, now: int): (x: Item)
    ensures x.id == id && x.kind == c.kind && x.createdAt == now && x.updatedAt == None
    ensures x.title == TrimField(c.title) && x.body == TrimField(c.body) && x.url == TrimField(c.url)
    ensures x.tags == CreationTags(c.tags.GetOr([]))
  {
    Item(id, c.kind, TrimField(c.title), TrimField(c.body), TrimField(c.url),
         CreationTags(c.tags.GetOr([])), now, None)
  }

  /** `filters.query`: a case-insensitive substring of the title, body, url or
      of any tag. */
  predicate MatchesQuery(x: Item, q: string) {
    || FieldContains(x.title, Lower(q)) || FieldContains(x.body, Lower(q)) || FieldContains(x.url, Lower(q))
    || exists k :: 0 <= k < |x.tags| && Contains(Lower(x.tags[k]), Lower(q))
  }

  /** Every supplied filter holds of `x`; `dateTo` is compared as given. */
  predicate Matches(x: Item, f: Filters) {
    && (Truthy(f.query) ==> MatchesQuery(x, f.query.value))
    && (f.tags.Some? && |f.tags.value| > 0 ==> SharesTag(x.tags, f.tags.value))
    && (f.dateFrom.Some? ==> x.createdAt >= f.dateFrom.value)
    && (f.dateTo.Some? ==> x.createdAt <= f.dateTo.value)
  }

  /** The items that pass every filter, in collection order. */
  function Matching(items: seq<Item>, f: Filters): (r: seq<Item>)
    ensures forall x :: multiset(r)[x] == if Matches(x, f) then multiset(items)[x] else 0
  {
    if |items| == 0 then []
    else
      assert items == [items[0]] + items[1..];
      (if Matches(items[0], f) then [items[0]] else []) + Matching(items[1..], f)
  }

  /** With only `dateFrom`, the filters keep exactly the items created since then. */
  lemma {:induction false} DateFromOnly(items: seq<Item>, cutoff: int)
    ensures Matching(items, Filters(None, None, Some(cutoff), None)) == CreatedSince(items, cutoff)
    decreases |items|
  {
    if |items| > 0 {
      DateFromOnly(items[1..], cutoff);
    }
  }

  /** A tag's text is found by the free-text query, which the server's store
      does not do. */
  lemma QuerySeesTags(x: Item, q: string, k: nat)
    requires k < |x.tags| && Contains(Lower(x.tags[k]), Lower(q))
    ensures Matches(x, Filters(Some(q), None, None, None))
  {
  }

  class Storage {
    /** The URL constructor the store normalises with. */
    const parse: UrlParser
    var items: seq<Item>
    /** The collection last written to the snapshot file. */
    ghost var persisted: seq<Item>

    /** `new Storage()` then `initialize()`: the parsed snapshot, else empty
        (also when the directory cannot be created). */
    constructor (parse: UrlParser, disk: Snapshot)
      ensures this.parse == parse
      ensures items == Restored(disk) && persisted == items
    {
      this.parse := parse;
      items := Restored(disk);
      persisted := Restored(disk);
    }

    /** The comparison key for links: `origin`, the path without one trailing
        '/', and the query, with the fragment dropped and the case of path and
        query kept; a string the URL constructor rejects is its own key. */
    function NormalizeUrl(url: string): (r: string)
      ensures parse(url).None? ==> r == url
      ensures parse(url).Some? ==> var u := parse(url).value;
        r == u.origin + DropTrailingSlash(u.pathname) + u.search
    {
      match parse(url)
      case None => url
      case Some(u) => u.origin + DropTrailingSlash(u.pathname) + u.search
    }

    /** Paths that differ (after one trailing '/') give different keys, even
        when they differ only in case. */
    lemma PathCaseKept(a: string, b: string)
      requires parse(a).Some? && parse(b).Some?
      requires parse(a).value.origin == parse(b).value.origin
      requires parse(a).value.search == parse(b).value.search
      requires DropTrailingSlash(parse(a).value.pathname) != DropTrailingSlash(parse(b).value.pathname)
      ensures NormalizeUrl(a) != NormalizeUrl(b)
    {
      var o, s := parse(a).value.origin, parse(a).value.search;
      var pa, pb := DropTrailingSlash(parse(a).value.pathname), DropTrailingSlash(parse(b).value.pathname);
      if |pa| == |pb| {
        assert (o + pa + s)[|o|..|o| + |pa|] == pa;
        assert (o + pb + s)[|o|..|o| + |pb|] == pb;
      } else {
        assert |o + pa + s| != |o + pb + s|;
      }
    }

    /** `x` is a link with a non-empty url that normalises to `key`. */
    predicate IsLinkTo(x: Item, key: string) {
      x.kind == Link && Truthy(x.url) && NormalizeUrl(x.url.value) == key
    }

    /** No two links of `xs` normalise to the same key. */
    ghost predicate DistinctLinks(xs: seq<Item>) {
      forall i, j :: 0 <= i < j < |xs| && xs[i].kind == Link && Truthy(xs[i].url)
        ==> !IsLinkTo(xs[j], NormalizeUrl(xs[i].url.value))
    }

    /** The invariant de-duplication keeps: no two stored links normalise alike. */
    ghost predicate LinksDistinct()
      reads this
    {
      DistinctLinks(items)
    }

    /** The first item of `xs` that is a link to `key`: the object
        `items.find(...)` returns and `saveItem` then updates. */
    function FirstLinkTo(xs: seq<Item>, key: string): (r: Option<nat>)
      ensures r.Some? ==> r.value < |xs| && IsLinkTo(xs[r.value], key)
      ensures r.Some? ==> forall k :: 0 <= k < r.value ==> !IsLinkTo(xs[k], key)
      ensures r.None? <==> forall k :: 0 <= k < |xs| ==> !IsLinkTo(xs[k], key)
    {
      FirstWhere(xs, x => IsLinkTo(x, key))
    }

    lemma MergeKeepsInvariants(xs: seq<Item>, k: nat, updated: Item)
      requires k < |xs|
      requires updated.id == xs[k].id && updated.kind == xs[k].kind && updated.url == xs[k].url
      ensures UniqueIds(xs) ==> UniqueIds(xs[k := updated])
      ensures DistinctLinks(xs) ==> DistinctLinks(xs[k := updated])
    {
    }

    lemma AppendKeepsInvariants(xs: seq<Item>, y: Item)
      requires forall k :: 0 <= k < |xs| ==> xs[k].id != y.id
      ensures UniqueIds(xs) ==> UniqueIds(xs + [y])
      ensures DistinctLinks(xs)
              && (y.kind == Link && Truthy(y.url) ==> forall k :: 0 <= k < |xs| ==> !IsLinkTo(xs[k], NormalizeUrl(y.url.value)))
              ==> DistinctLinks(xs + [y])
    {
    }

    lemma CreateKeepsInvariants(xs: seq<Item>, c: SaveInput, freshId: string, now: int)
      requires forall k :: 0 <= k < |xs| ==> xs[k].id != freshId
      requires c.kind == Link && Truthy(c.url) ==> FirstLinkTo(xs, NormalizeUrl(c.url.value)).None?
      ensures UniqueIds(xs) ==> UniqueIds(xs + [CreateItem(c, freshId, now)])
      ensures DistinctLinks(xs) && (c.url.Some? ==> IsTrimmed(c.url.value)) ==>
        DistinctLinks(xs + [CreateItem(c, freshId, now)])
    {
      var y := CreateItem(c, freshId, now);
      if c.url.Some? && IsTrimmed(c.url.value) {
        TrimOfTrimmed(c.url.value);
        assert y.url == c.url;
      }
      AppendKeepsInvariants(xs, y);
    }

    lemma RemoveKeepsInvariants(xs: seq<Item>, k: nat)
      requires k < |xs|
      ensures UniqueIds(xs) ==> UniqueIds(RemoveAt(xs, k)) && forall j :: 0 <= j < |xs| - 1 ==> RemoveAt(xs, k)[j].id != xs[k].id
      ensures DistinctLinks(xs) ==> DistinctLinks(RemoveAt(xs, k))
    {
      var r := RemoveAt(xs, k);
      if UniqueIds(xs) {
        RemoveAtUnique(xs, k);
      }
      if DistinctLinks(xs) {
        forall i, j | 0 <= i < j < |r| && r[i].kind == Link && Truthy(r[i].url)
          ensures !IsLinkTo(r[j], NormalizeUrl(r[i].url.value))
        {
          var i' := if i < k then i else i + 1;
          var j' := if j < k then j else j + 1;
          assert r[i] == xs[i'] && r[j] == xs[j'];
        }
      }
    }

    /** `saveItem`: a link whose url matches a stored link never adds an item;
        the stored link is updated in place only when tags are supplied, and is
        otherwise returned untouched. Anything else is appended, cleaned. */
    method SaveItem(c: SaveInput, freshId: string, now: int) returns (result: SaveResult)
      requires forall k :: 0 <= k < |items| ==> items[k].id != freshId
      modifies this
      ensures result.isDuplicate <==>
        c.kind == Link && Truthy(c.url) && old(FirstLinkTo(items, NormalizeUrl(c.url.value))).Some?
      ensures result.isDuplicate ==>
        var k := old(FirstLinkTo(items, NormalizeUrl(c.url.value))).value;
        if HasNewTags(c) then
          result.item == MergeInto(old(items)[k], c, now) && items == old(items)[k := result.item]
          && persisted == items
        else
          result.item == old(items)[k] && items == old(items) && persisted == old(persisted)
      ensures !result.isDuplicate ==>
        result.item == CreateItem(c, freshId, now) && items == old(items) + [result.item] && persisted == items
      ensures UniqueIds(old(items)) ==> UniqueIds(items)
      ensures old(LinksDistinct()) && (c.url.Some? ==> IsTrimmed(c.url.value)) ==> LinksDistinct()
    {
      var existing := if c.kind == Link && Truthy(c.url) then FirstLinkTo(items, NormalizeUrl(c.url.value)) else None;
      if existing.Some? {
        var k := existing.value;
        if HasNewTags(c) {
          var updated := MergeInto(items[k], c, now);
          MergeKeepsInvariants(items, k, updated);
          UpdateAt(k, updated);
          result := SaveResult(updated, true);
        } else {
          result := SaveResult(items[k], true);
        }
      } else {
        var created := CreateItem(c, freshId, now);
        CreateKeepsInvariants(items, c, freshId, now);
        Push(created);
        result := SaveResult(created, false);
      }
    }

    /** The in-place update of the duplicate path: slot `k` takes the merged
        record, and the collection is persisted. */
    method UpdateAt(k: nat, updated: Item)
      requires k < |items|
      modifies this
      ensures items == old(items)[k := updated] && persisted == items
    {
      items := items[k := updated];
      persisted := items;
    }

    /** `items.push(newItem)` followed by `persist()`. */
    method Push(created: Item)
      modifies this
      ensures items == old(items) + [created] && persisted == items
    {
      items := items + [created];
      persisted := items;
    }

    /** `searchItems`: exactly the matching items, each as often as it is
        stored, newest first, ties in collection order. */
    function SearchItems(f: Filters): (r: seq<Item>)
      reads this
      ensures SortedDesc(r, CreatedAt)
      ensures forall x :: multiset(r)[x] == if Matches(x, f) then multiset(items)[x] else 0
      ensures forall t :: WithKey(r, CreatedAt, t) == WithKey(Matching(items, f), CreatedAt, t)
    {
      NewestFirst(Matching(items, f))
    }

    /** `getRecentItems(days, limit)` with `cutoff` the instant `days` days
        before now: the items created since the cutoff, newest first, passed
        through `slice(0, limit)` whenever `limit` is a non-zero number, so a
        negative limit drops items from the end. */
    function GetRecentItems(cutoff: int, limit: Option<int>): (r: seq<Item>)
      reads this
      ensures SortedDesc(r, CreatedAt)
      ensures forall x :: x in r ==> x in items && x.createdAt >= cutoff
      ensures var recent := NewestFirst(CreatedSince(items, cutoff)); |r| <= |recent| && r == recent[..|r|]
      ensures limit.Some? && limit.value > 0 ==>
        var n := |CreatedSince(items, cutoff)|;
        |r| == if limit.value < n then limit.value else n
      ensures limit.Some? && limit.value < 0 ==>
        var n := |CreatedSince(items, cutoff)|;
        |r| == if n + limit.value > 0 then n + limit.value else 0
      ensures !(limit.Some? && limit.value != 0) ==>
        forall x :: multiset(r)[x] == if x.createdAt >= cutoff then multiset(items)[x] else 0
    {
      var recent := NewestFirst(CreatedSince(items, cutoff));
      var r := if limit.Some? && limit.value != 0 then SliceTo(recent, limit.value) else recent;
      RecentPrefix(items, cutoff, r);
      r
    }

    /** The recent listing is the date-from search passed through
        `slice(0, limit)` whenever the limit is non-zero. */
    lemma RecentIsSearchFrom(cutoff: int, limit: Option<int>)
      ensures var all := SearchItems(Filters(None, None, Some(cutoff), None));
        GetRecentItems(cutoff, limit) == if limit.Some? && limit.value != 0 then SliceTo(all, limit.value) else all
    {
      DateFromOnly(items, cutoff);
    }

    /** `getAllItems`: every item, newest first, ties in collection order; the
        stored order is left as it is. */
    function GetAllItems(): (r: seq<Item>)
      reads this
      ensures SortedDesc(r, CreatedAt)
      ensures multiset(r) == multiset(items)
      ensures forall t :: WithKey(r, CreatedAt, t) == WithKey(items, CreatedAt, t)
    {
      NewestFirst(items)
    }

    /** `getItemById(id)`: the first item with that id, or `None`. */
    function GetItemById(id: string): (r: Option<Item>)
      reads this
      ensures r.None? <==> forall k :: 0 <= k < |items| ==> items[k].id != id
      ensures r.Some? ==> exists k :: 0 <= k < |items| && items[k] == r.value && r.value.id == id
                            && forall j :: 0 <= j < k ==> items[j].id != id
    {
      FindById(items, id)
    }

    /** `deleteItem(id)`: removes the first item with that id and reports
        whether there was one. */
    method DeleteItem(id: string) returns (removed: bool)
      modifies this
      ensures removed <==> exists k :: 0 <= k < |old(items)| && old(items)[k].id == id
      ensures !removed ==> items == old(items) && persisted == old(persisted)
      ensures removed ==> items == RemoveAt(old(items), IndexOfId(old(items), id).value) && persisted == items
      ensures UniqueIds(old(items)) ==> UniqueIds(items) && forall k :: 0 <= k < |items| ==> items[k].id != id
      ensures old(LinksDistinct()) ==> LinksDistinct()
    {
      var index := IndexOfId(items, id);
      if index.None? {
        return false;
      }
      RemoveKeepsInvariants(items, index.value);
      items := RemoveAt(items, index.value);
      persisted := items;
      return true;
    }
  }
}
