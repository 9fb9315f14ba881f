/**
 * The chat page's helpers (web-ui/lib/chat-helpers.ts): the per-session
 * conversation history kept in memory and capped at ten messages, the keyword
 * relevance ranking of saved items, and the detailed item listing handed to
 * the language model.
 */
module ChatHelpers {
  import opened Wrappers
  import opened Text
  import opened Seqs
  import opened Sorting
  import opened ContentItems

  datatype Role = User | Assistant

  datatype Message = Message(role: Role, content: string)

  /** How many messages a session keeps. */
  const HistoryLimit: nat := 10

  /** The last `n` elements of `xs`, all of them when there are fewer. */
  function Last<T>(xs: seq<T>, n: nat): (r: seq<T>)
    ensures |r| == if |xs| < n then |xs| else n
    ensures r == xs[|xs| - |r|..]
  {
    if |xs| < n then xs else xs[|xs| - n..]
  }

  /** A suffix at least as long as the window has the same last `n`. */
  lemma LastOfSuffix<T>(xs: seq<T>, k: nat, n: nat)
    requires k <= |xs|
    requires |xs| - k >= |Last(xs, n)|
    ensures Last(xs[k..], n) == Last(xs, n)
  {
  }

  /** `history.push(message)`, then one `shift()` when more than ten remain:
      a history within the cap becomes the ten most recent messages. */
  function Appended(h: seq<Message>, m: Message): (r: seq<Message>)
    ensures |r| > 0 && r[|r| - 1] == m
    ensures |h| <= HistoryLimit ==> r == Last(h + [m], HistoryLimit)
    ensures |h| == HistoryLimit ==> r == h[1..] + [m]
  {
    var pushed := h + [m];
    if |pushed| > HistoryLimit then pushed[1..] else pushed
  }

  /** The history after adding `ms` one by one. */
  function AppendedAll(h: seq<Message>, ms: seq<Message>): seq<Message>
    decreases |ms|
  {
    if |ms| == 0 then h else AppendedAll(Appended(h, ms[0]), ms[1..])
  }

  /** Adding one message then the rest keeps the same window as the whole. */
  lemma WindowSlides(h: seq<Message>, ms: seq<Message>)
    requires |h| <= HistoryLimit && |ms| > 0
    ensures Last(Appended(h, ms[0]) + ms[1..], HistoryLimit) == Last(h + ms, HistoryLimit)
  {
    var all := h + ms;
    if |h| == HistoryLimit {
      assert Appended(h, ms[0]) + ms[1..] == all[1..];
      LastOfSuffix(all, 1, HistoryLimit);
    } else {
      assert Appended(h, ms[0]) + ms[1..] == all;
    }
  }

  /** However many messages are added, a session holds the ten most recent
      of everything it was sent, oldest first. */
  lemma {:induction false} KeepsMostRecent(h: seq<Message>, ms: seq<Message>)
    requires |h| <= HistoryLimit
    ensures AppendedAll(h, ms) == Last(h + ms, HistoryLimit)
    decreases |ms|
  {
    if |ms| == 0 {
      assert h + ms == h;
    } else {
      KeepsMostRecent(Appended(h, ms[0]), ms[1..]);
      WindowSlides(h, ms);
    }
  }

  /** The module-level `conversationHistory` map and the three functions that
      use it. */
  class ConversationHistory {
    /** Each session's messages, oldest first. */
    var sessions: map<string, seq<Message>>

    /** No session holds more than ten messages. */
    ghost predicate Valid()
      reads this
    {
      forall sid :: sid in sessions ==> |sessions[sid]| <= HistoryLimit
    }

    constructor ()
      ensures sessions == map[]
      ensures Valid()
    {
      sessions := map[];
    }

    /** `getConversationHistory(sessionId)`: the session's messages, or none
        for a session never written to or cleared. */
    function History(sessionId: string): (r: seq<Message>)
      reads this
      ensures sessionId in sessions ==> r == sessions[sessionId]
      ensures sessionId !in sessions ==> r == []
      ensures Valid() ==> |r| <= HistoryLimit
    {
      if sessionId in sessions then sessions[sessionId] else []
    }

    /** `addMessageToHistory(sessionId, message)`: only that session changes,
        and it ends with `message`. */
    method AddMessage(sessionId: string, message: Message)
      modifies this
      ensures sessions == old(sessions)[sessionId := Appended(old(History(sessionId)), message)]
      ensures old(Valid()) ==> Valid()
    {
      if sessionId !in sessions {
        sessions := sessions[sessionId := []];
      }
      var history := sessions[sessionId];
      history := history + [message];
      if |history| > HistoryLimit {
        history := history[1..];
      }
      sessions := sessions[sessionId := history];
    }

    /** `clearConversationHistory(sessionId)`: forgets that session only. */
    method Clear(sessionId: string)
      modifies this
      ensures sessions == old(sessions) - {sessionId}
      ensures History(sessionId) == []
      ensures old(Valid()) ==> Valid()
    {
      sessions := sessions - {sessionId};
    }
  }

  /** `field || ''`. */
  function OrEmpty(field: Option<string>): (r: string)
    ensures Truthy(field) ==> r == field.value
    ensures !Truthy(field) ==> r == ""
  {
    if Truthy(field) then field.value else ""
  }

  predicate IsLong(w: string) {
    |w| > 2
  }

  /** The words longer than two characters, in order, repeats kept. */
  function LongWords(ws: seq<string>): (r: seq<string>)
    ensures forall k :: 0 <= k < |r| ==> |r[k]| > 2 && r[k] in ws
    ensures forall k :: 0 <= k < |ws| && |ws[k]| > 2 ==> ws[k] in r
    ensures forall w :: multiset(r)[w] == if |w| > 2 then multiset(ws)[w] else 0
  {
    FilterMembers(ws, IsLong);
    Filter(ws, IsLong)
  }

  /** The filter works word by word, so it keeps the order of the words. */
  lemma LongWordsAppend(a: seq<string>, b: seq<string>)
    ensures LongWords(a + b) == LongWords(a) + LongWords(b)
  {
    FilterAppend(a, b, IsLong);
  }

  /** `query.toLowerCase().split(/\s+/).filter(w => w.length > 2)`. */
  function QueryWords(query: string): (ws: seq<string>)
    ensures forall k :: 0 <= k < |ws| ==> |ws[k]| > 2 && NoSpace(ws[k])
    ensures forall w :: w in Words(Lower(query)) && |w| > 2 ==> w in ws
    ensures forall w :: multiset(ws)[w] == if |w| > 2 then multiset(Words(Lower(query)))[w] else 0
  {
    LongWords(Words(Lower(query)))
  }

  /** The query words of two pieces of text joined by white space are those
      of the first followed by those of the second, repeats kept. */
  lemma {:induction false} QueryWordsSplit(a: string, c: char, b: string)
    requires IsSpace(c)
    ensures QueryWords(a + [c] + b) == QueryWords(a) + QueryWords(b)
  {
    LowerAppend(a + [c], b);
    LowerAppend(a, [c]);
    assert Lower([c]) == [LowerChar(c)];
    WordsSplit(Lower(a), LowerChar(c), Lower(b));
    LongWordsAppend(Words(Lower(a)), Words(Lower(b)));
  }

  /** The strings the search text is joined from. */
  function SearchParts(x: Item): seq<string> {
    [OrEmpty(x.title), OrEmpty(x.body), OrEmpty(x.url)] + x.tags
  }

  /** The lower-cased text the query words are looked up in. */
  function SearchText(x: Item): string {
    Lower(Join(SearchParts(x), " "))
  }

  /** How many of `ws` occur in `text`, each occurrence in `ws` counted. */
  function WordHits(ws: seq<string>, text: string): (n: nat)
    ensures n <= |ws|
    ensures n == 0 <==> forall k :: 0 <= k < |ws| ==> !Contains(text, ws[k])
  {
    if |ws| == 0 then 0
    else WordHits(ws[..|ws| - 1], text) + (if Contains(text, ws[|ws| - 1]) then 1 else 0)
  }

  /** `item.tags.some(tag => tag.toLowerCase().includes(q))`. */
  predicate TagMentions(tags: seq<string>, q: string) {
    exists k :: 0 <= k < |tags| && Contains(Lower(tags[k]), q)
  }

  /** The score `findRelevantItems` gives an item: one per query word found
      in its text, three more when the title holds the whole query, two more
      when a tag does. */
  function Relevance(x: Item, query: string): (score: nat)
    ensures score <= |QueryWords(query)| + 5
  {
    WordHits(QueryWords(query), SearchText(x))
    + (if Contains(Lower(OrEmpty(x.title)), Lower(query)) then 3 else 0)
    + (if TagMentions(x.tags, Lower(query)) then 2 else 0)
  }

  /** The `forEach` over the query words. */
  method CountWordHits(words: seq<string>, text: string) returns (hits: nat)
    ensures hits == WordHits(words, text)
  {
    hits := 0;
    var i := 0;
    while i < |words|
      invariant 0 <= i <= |words|
      invariant hits == WordHits(words[..i], text)
    {
      if Contains(text, words[i]) {
        hits := hits + 1;
      }
      assert words[..i + 1][..i] == words[..i];
      i := i + 1;
    }
    assert words[..i] == words;
  }

  /** The scoring callback of `findRelevantItems`. */
  method ScoreItem(x: Item, query: string) returns (score: nat)
    ensures score == Relevance(x, query)
  {
    var lowerQuery := Lower(query);
    score := CountWordHits(QueryWords(query), SearchText(x));
    if Contains(Lower(OrEmpty(x.title)), lowerQuery) {
      score := score + 3;
    }
    if TagMentions(x.tags, lowerQuery) {
      score := score + 2;
    }
  }

  /** Lower-casing keeps occurrences. */
  lemma ContainsLower(s: string, t: string)
    requires Contains(s, t)
    ensures Contains(Lower(s), Lower(t))
  {
    ContainsAt(s, t);
    var i: nat :| OccursAt(s, t, i);
    assert Lower(s)[i..i + |t|] == Lower(t);
    OccursAtContains(Lower(s), Lower(t), i);
  }

  /** An occurrence of an occurrence is an occurrence. */
  lemma ContainsTransitive(s: string, t: string, u: string)
    requires Contains(s, t) && Contains(t, u)
    ensures Contains(s, u)
  {
    ContainsAt(s, t);
    ContainsAt(t, u);
    var i: nat :| OccursAt(s, t, i);
    var j: nat :| OccursAt(t, u, j);
    assert forall m :: 0 <= m < |u| ==> s[i + j + m] == t[j + m] == u[m];
    assert s[i + j..i + j + |u|] == u;
    OccursAtContains(s, u, i + j);
  }

  /** A query word found, ignoring case, in the title, body, url or any tag
      of an item makes that item relevant. */
  lemma PartWordIsHit(x: Item, query: string, k: nat, w: string)
    requires k < |SearchParts(x)|
    requires w in QueryWords(query)
    requires Contains(Lower(SearchParts(x)[k]), w)
    ensures Relevance(x, query) > 0
  {
    PartInJoin(SearchParts(x), " ", k);
    ContainsLower(Join(SearchParts(x), " "), SearchParts(x)[k]);
    ContainsTransitive(SearchText(x), Lower(SearchParts(x)[k]), w);
  }

  /** An empty query is found in every title, so every item is relevant. */
  lemma EmptyQueryScoresAll(x: Item)
    ensures Relevance(x, "") >= 3
  {
    ContainsEmpty(Lower(OrEmpty(x.title)));
  }

  /** The `{ item, relevanceScore }` pairs. */
  datatype Scored = Scored(item: Item, score: int)

  function ScoreOf(p: Scored): int {
    p.score
  }

  /** `items.map(...)`: each item with its score under `rank`. */
  function Scores(items: seq<Item>, rank: Item -> int): (ps: seq<Scored>)
    ensures |ps| == |items|
    ensures forall k :: 0 <= k < |items| ==> ps[k] == Scored(items[k], rank(items[k]))
  {
    seq(|items|, k requires 0 <= k < |items| => Scored(items[k], rank(items[k])))
  }

  lemma ScoresSnoc(items: seq<Item>, rank: Item -> int, i: nat)
    requires i < |items|
    ensures Scores(items[..i + 1], rank) == Scores(items[..i], rank) + [Scored(items[i], rank(items[i]))]
  {
  }

  /** `.filter(({ relevanceScore }) => relevanceScore > 0)`. */
  function Positive(ps: seq<Scored>): (r: seq<Scored>)
    ensures forall p :: p in r ==> p in ps && p.score > 0
  {
    if |ps| == 0 then []
    else (if ps[0].score > 0 then [ps[0]] else []) + Positive(ps[1..])
  }

  /** `.map(({ item }) => item)`. */
  function ItemsOf(ps: seq<Scored>): (r: seq<Item>)
    ensures |r| == |ps|
    ensures forall k :: 0 <= k < |ps| ==> r[k] == ps[k].item
  {
    seq(|ps|, k requires 0 <= k < |ps| => ps[k].item)
  }

  /** The items `rank` scores above zero, in collection order. */
  function Ranked(items: seq<Item>, rank: Item -> int): (r: seq<Item>)
    ensures forall x :: multiset(r)[x] == if rank(x) > 0 then multiset(items)[x] else 0
  {
    if |items| == 0 then []
    else
      assert items == [items[0]] + items[1..];
      (if rank(items[0]) > 0 then [items[0]] else []) + Ranked(items[1..], rank)
  }

  /** Dropping the unscored items keeps each positive score's items in order. */
  lemma {:induction false} RankedWithKey(items: seq<Item>, rank: Item -> int, s: int)
    requires s > 0
    ensures WithKey(Ranked(items, rank), rank, s) == WithKey(items, rank, s)
    decreases |items|
  {
    if |items| > 0 {
      RankedWithKey(items[1..], rank, s);
      var head := if rank(items[0]) > 0 then [items[0]] else [];
      var rest := Ranked(items[1..], rank);
      if head == [] {
        assert head + rest == rest;
      } else {
        assert (head + rest)[1..] == rest;
      }
    }
  }

  /** Every pair carries its item's score. */
  predicate Consistent(ps: seq<Scored>, rank: Item -> int) {
    forall k :: 0 <= k < |ps| ==> ps[k].score == rank(ps[k].item)
  }

  lemma ConsistentSorted(ps: seq<Scored>, rank: Item -> int)
    requires Consistent(ps, rank) && SortedDesc(ps, ScoreOf)
    ensures SortedDesc(ItemsOf(ps), rank)
  {
    var items := ItemsOf(ps);
    forall i, j | 0 <= i < j < |items| ensures rank(items[i]) >= rank(items[j]) {
      assert ScoreOf(ps[i]) >= ScoreOf(ps[j]);
    }
  }

  lemma ItemsOfCons(p: Scored, ps: seq<Scored>)
    ensures ItemsOf([p] + ps) == [p.item] + ItemsOf(ps)
  {
  }

  lemma {:induction false} InsertCommutes(p: Scored, ps: seq<Scored>, rank: Item -> int)
    requires Consistent(ps, rank) && SortedDesc(ps, ScoreOf)
    requires p.score == rank(p.item)
    ensures SortedDesc(ItemsOf(ps), rank)
    ensures ItemsOf(InsertDesc(p, ps, ScoreOf)) == InsertDesc(p.item, ItemsOf(ps), rank)
    decreases |ps|
  {
    ConsistentSorted(ps, rank);
    var xs := ItemsOf(ps);
    if |ps| == 0 || ps[0].score <= p.score {
      assert InsertDesc(p, ps, ScoreOf) == [p] + ps;
      assert InsertDesc(p.item, xs, rank) == [p.item] + xs;
      ItemsOfCons(p, ps);
    } else {
      assert rank(xs[0]) > rank(p.item);
      assert Consistent(ps[1..], rank) && SortedDesc(ps[1..], ScoreOf);
      InsertCommutes(p, ps[1..], rank);
      var rest := InsertDesc(p, ps[1..], ScoreOf);
      assert InsertDesc(p, ps, ScoreOf) == [ps[0]] + rest;
      assert ItemsOf(ps[1..]) == xs[1..];
      assert InsertDesc(p.item, xs, rank) == [xs[0]] + InsertDesc(p.item, xs[1..], rank);
      ItemsOfCons(ps[0], rest);
    }
  }

  /** Sorting the pairs by score then dropping the scores is sorting the items
      by `rank`. */
  lemma {:induction false} SortCommutes(ps: seq<Scored>, rank: Item -> int)
    requires Consistent(ps, rank)
    ensures ItemsOf(SortDesc(ps, ScoreOf)) == SortDesc(ItemsOf(ps), rank)
    decreases |ps|
  {
    if |ps| > 0 {
      var xs := ItemsOf(ps);
      assert Consistent(ps[1..], rank);
      assert ItemsOf(ps[1..]) == xs[1..];
      SortCommutes(ps[1..], rank);
      var sorted := SortDesc(ps[1..], ScoreOf);
      SortedConsistent(ps[1..], sorted, rank);
      InsertCommutes(ps[0], sorted, rank);
      assert SortDesc(ps, ScoreOf) == InsertDesc(ps[0], sorted, ScoreOf);
      assert SortDesc(xs, rank) == InsertDesc(xs[0], SortDesc(xs[1..], rank), rank);
    }
  }

  /** A rearrangement of consistent pairs is consistent. */
  lemma SortedConsistent(ps: seq<Scored>, qs: seq<Scored>, rank: Item -> int)
    requires Consistent(ps, rank) && multiset(qs) == multiset(ps)
    ensures Consistent(qs, rank)
  {
    forall k | 0 <= k < |qs| ensures qs[k].score == rank(qs[k].item) {
      assert qs[k] in multiset(ps);
      var j :| 0 <= j < |ps| && ps[j] == qs[k];
    }
  }

  lemma ItemsOfAppend(a: seq<Scored>, b: seq<Scored>)
    ensures ItemsOf(a + b) == ItemsOf(a) + ItemsOf(b)
  {
  }

  lemma {:induction false} PositiveItems(items: seq<Item>, rank: Item -> int)
    ensures ItemsOf(Positive(Scores(items, rank))) == Ranked(items, rank)
    decreases |items|
  {
    if |items| > 0 {
      var ps := Scores(items, rank);
      PositiveItems(items[1..], rank);
      assert ps[1..] == Scores(items[1..], rank);
      var head := if ps[0].score > 0 then [ps[0]] else [];
      var rest := Positive(ps[1..]);
      assert Positive(ps) == head + rest;
      ItemsOfAppend(head, rest);
      assert ItemsOf(head) == if rank(items[0]) > 0 then [items[0]] else [];
    }
  }

  /** Scoring, filtering, sorting the pairs and dropping the scores ranks the
      items by score. */
  lemma RankingAgrees(items: seq<Item>, rank: Item -> int)
    ensures ItemsOf(SortDesc(Positive(Scores(items, rank)), ScoreOf)) == SortDesc(Ranked(items, rank), rank)
  {
    var ps := Positive(Scores(items, rank));
    forall k | 0 <= k < |ps| ensures ps[k].score == rank(ps[k].item) {
      assert ps[k] in Scores(items, rank);
    }
    SortCommutes(ps, rank);
    PositiveItems(items, rank);
  }

  function RelevanceKey(query: string): Item -> int {
    x => Relevance(x, query)
  }

  /** What `findRelevantItems` returns: every relevant item as often as it is
      stored, most relevant first, equally relevant ones in collection order. */
  function RelevantItems(items: seq<Item>, query: string): (r: seq<Item>)
    ensures SortedDesc(r, RelevanceKey(query))
    ensures forall x :: multiset(r)[x] == if Relevance(x, query) > 0 then multiset(items)[x] else 0
    ensures forall s :: s > 0 ==> WithKey(r, RelevanceKey(query), s) == WithKey(items, RelevanceKey(query), s)
  {
    var key := RelevanceKey(query);
    var relevant := Ranked(items, key);
    SortDescStableAll(relevant, key);
    forall s | s > 0 ensures WithKey(relevant, key, s) == WithKey(items, key, s) {
      RankedWithKey(items, key, s);
    }
    SortDesc(relevant, key)
  }

  /** An empty query ranks every item. */
  lemma EmptyQueryKeepsAll(items: seq<Item>)
    ensures multiset(RelevantItems(items, "")) == multiset(items)
  {
    forall x ensures multiset(RelevantItems(items, ""))[x] == multiset(items)[x] {
      EmptyQueryScoresAll(x);
    }
  }

  /** The `items.map(...)` step: every item with its score. */
  method ScoreAll(items: seq<Item>, query: string) returns (scored: seq<Scored>)
    ensures scored == Scores(items, RelevanceKey(query))
  {
    var key := RelevanceKey(query);
    scored := [];
    var i := 0;
    while i < |items|
      invariant 0 <= i <= |items|
      invariant scored == Scores(items[..i], key)
    {
      var score := ScoreItem(items[i], query);
      assert key(items[i]) == score;
      ScoresSnoc(items, key, i);
      scored := scored + [Scored(items[i], score)];
      i := i + 1;
    }
    assert items[..i] == items;
  }

  /** `findRelevantItems(items, query)`. */
  method FindRelevantItems(items: seq<Item>, query: string) returns (r: seq<Item>)
    ensures r == RelevantItems(items, query)
  {
    var scored := ScoreAll(items, query);
    var ranked := SortDesc(Positive(scored), ScoreOf);
    r := ItemsOf(ranked);
    RankingAgrees(items, RelevanceKey(query));
  }

  /** The reply used when there is nothing to list. */
  const NoItems := "No items saved yet."

  /** The type label: a memo emoji for notes, a link emoji for links. */
  function TypeLabel(kind: ItemType): string {
    if kind == Note then "\U{1F4DD} Note" else "\U{1F517} Link"
  }

  /** One entry of the detailed listing; `localeDate` stands for
      `toLocaleDateString`. */
  function DetailedEntry(x: Item, n: nat, localeDate: int -> string): (r: string)
    ensures IsPrefix("\nItem #" + NatToString(n) + ": " + TypeLabel(x.kind) + "\nTitle: ", r)
    ensures Truthy(x.body) ==> Contains(r, "Content: " + x.body.value)
  {
    var head := "\nItem #" + NatToString(n) + ": " + TypeLabel(x.kind) + "\nTitle: ";
    var title := if Truthy(x.title) then x.title.value else "(Untitled)";
    var content := OrEmpty(x.body);
    var url := OrEmpty(x.url);
    var tags := if |x.tags| > 0 then Join(x.tags, ", ") else "none";
    var body := if content != "" then "Content: " + content else "";
    var rest := "\n" + (if url != "" then "URL: " + url else "") + "\n"
      + "Tags: " + tags + "\nSaved: " + localeDate(x.createdAt) + "\n---";
    ContainsMiddle(title + "\n", body, rest);
    ContainsAppend(head, title + "\n" + body + rest, "", body);
    head + (title + "\n" + body + rest)
  }

  lemma FirstEntryHead(x: Item, localeDate: int -> string)
    ensures IsPrefix("\nItem #1: " + TypeLabel(x.kind) + "\nTitle: ", DetailedEntry(x, 1, localeDate))
  {
    assert NatToString(1) == "1";
  }

  lemma PrefixTransitive(a: string, b: string, c: string)
    requires IsPrefix(a, b) && IsPrefix(b, c)
    ensures IsPrefix(a, c)
  {
    assert c[..|a|] == c[..|b|][..|a|];
  }

  /** The entries numbered from 1. */
  function DetailedEntries(items: seq<Item>, localeDate: int -> string): (r: seq<string>)
    ensures |r| == |items|
    ensures forall k :: 0 <= k < |items| ==> r[k] == DetailedEntry(items[k], k + 1, localeDate)
  {
    seq(|items|, k requires 0 <= k < |items| => DetailedEntry(items[k], k + 1, localeDate))
  }

  /** `formatItemsDetailed(items)`: the fixed reply exactly when there are no
      items, otherwise the entries of at most the first fifty, the first one
      numbered 1. */
  function FormatItemsDetailed(items: seq<Item>, localeDate: int -> string): (r: string)
    ensures r == NoItems <==> |items| == 0
    ensures |items| > 0 ==> IsPrefix("\nItem #1: " + TypeLabel(items[0].kind) + "\nTitle: ", r)
    ensures forall k :: 0 <= k < |items| && k < 50 ==> Contains(r, DetailedEntry(items[k], k + 1, localeDate))
  {
    if |items| == 0 then NoItems
    else
      var entries := DetailedEntries(SliceTo(items, 50), localeDate);
      var r := Join(entries, "\n");
      FirstEntryHead(items[0], localeDate);
      PrefixTransitive("\nItem #1: " + TypeLabel(items[0].kind) + "\nTitle: ", entries[0], r);
      assert r[0] != NoItems[0];
      ListsEachEntry(items, localeDate);
      r
  }

  /** The joined entries hold the entry of each of the first fifty items. */
  lemma ListsEachEntry(items: seq<Item>, localeDate: int -> string)
    ensures var entries := DetailedEntries(SliceTo(items, 50), localeDate);
      forall k :: 0 <= k < |items| && k < 50 ==>
        Contains(Join(entries, "\n"), DetailedEntry(items[k], k + 1, localeDate))
  {
    var entries := DetailedEntries(SliceTo(items, 50), localeDate);
    JoinContainsAll(entries, "\n");
    forall k | 0 <= k < |items| && k < 50 ensures entries[k] == DetailedEntry(items[k], k + 1, localeDate) {
      assert SliceTo(items, 50)[k] == items[k];
    }
  }

  /** Items after the fiftieth are not listed. */
  lemma DetailedCapped(items: seq<Item>, localeDate: int -> string)
    requires |items| > 50
    ensures FormatItemsDetailed(items, localeDate) == FormatItemsDetailed(items[..50], localeDate)
  {
    assert SliceTo(items, 50) == SliceTo(items[..50], 50);
  }
}
