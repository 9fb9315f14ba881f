/**
 * The pure helpers of the chat endpoint (web-ui/app/api/chat/route.ts): the
 * save-intent detector, the reply used when no language model is configured,
 * and the item listing placed in the model's context.
 */
module ChatRoute {
  import opened Wrappers
  import opened Text
  import opened Seqs
  import opened ContentItems
  import opened ChatHelpers

  // ---------------------------------------------------------------------
  // The URL pattern `/(https?:\/\/[^\s]+)/gi`

  /** The length of the scheme `https?://` matched at `i`, ignoring case,
      when at least one non-space character follows it; zero when the
      pattern cannot start at `i`. The longer scheme is tried first, as the
      greedy `s?` does. */
  function SchemeAt(m: string, i: nat): (n: nat)
    ensures n == 0 || n == 7 || n == 8
    ensures n > 0 ==> i + n < |m| && !IsSpace(m[i + n])
    ensures n == 8 <==> OccursAt(Lower(m), "https://", i) && i + 8 < |m| && !IsSpace(m[i + 8])
    ensures n == 7 ==> OccursAt(Lower(m), "http://", i)
    ensures n == 0 <==>
      && !(OccursAt(Lower(m), "https://", i) && i + 8 < |m| && !IsSpace(m[i + 8]))
      && !(OccursAt(Lower(m), "http://", i) && i + 7 < |m| && !IsSpace(m[i + 7]))
  {
    var lm := Lower(m);
    if OccursAt(lm, "https://", i) && i + 8 < |m| && !IsSpace(m[i + 8]) then 8
    else if OccursAt(lm, "http://", i) && i + 7 < |m| && !IsSpace(m[i + 7]) then 7
    else 0
  }

  /** The text the pattern matches at `i`: the scheme and every non-space
      character after it. */
  function UrlMatchAt(m: string, i: nat): (u: string)
    requires SchemeAt(m, i) > 0
    ensures i + |u| <= |m| && u == m[i..i + |u|]
    ensures |u| > SchemeAt(m, i) && NoSpace(u)
    ensures i + |u| == |m| || IsSpace(m[i + |u|])
  {
    var n := SchemeAt(m, i);
    var len := n + RunLength(m[i + n..]);
    var u := m[i..i + len];
    assert u[n..] == m[i + n..][..RunLength(m[i + n..])];
    SchemeHasNoSpace(m, i);
    assert forall k :: 0 <= k < n ==> u[k] == m[i + k];
    u
  }

  /** The scheme's characters are letters and punctuation, never spaces. */
  lemma SchemeHasNoSpace(m: string, i: nat)
    requires SchemeAt(m, i) > 0
    ensures forall k :: i <= k < i + SchemeAt(m, i) ==> !IsSpace(m[k])
  {
    var lm := Lower(m);
    var scheme := if SchemeAt(m, i) == 8 then "https://" else "http://";
    assert lm[i..i + |scheme|] == scheme;
    forall k | i <= k < i + |scheme| ensures !IsSpace(m[k]) {
      assert lm[k] == scheme[k - i];
      assert LowerChar(m[k]) == lm[k];
    }
  }

  /** The leftmost position at or after `from` where the pattern matches. */
  function FirstUrlFrom(m: string, from: nat): (r: Option<nat>)
    ensures r.Some? ==> from <= r.value < |m| && SchemeAt(m, r.value) > 0
    ensures r.Some? ==> forall j :: from <= j < r.value ==> SchemeAt(m, j) == 0
    ensures r.None? ==> forall j :: from <= j < |m| ==> SchemeAt(m, j) == 0
    decreases |m| - from
  {
    if from >= |m| then None
    else if SchemeAt(m, from) > 0 then Some(from)
    else FirstUrlFrom(m, from + 1)
  }

  /** `message.match(urlRegex)?.[0]`: the leftmost, longest match. */
  function FirstUrl(m: string): (r: Option<string>)
    ensures r.None? <==> forall j :: 0 <= j < |m| ==> SchemeAt(m, j) == 0
    ensures r.Some? ==> |r.value| > 7 && NoSpace(r.value) && Contains(m, r.value)
    ensures r.Some? ==> exists i :: IsFirstUrlAt(m, i, r.value)
  {
    match FirstUrlFrom(m, 0)
    case None => None
    case Some(i) =>
      var u := UrlMatchAt(m, i);
      OccursAtContains(m, u, i);
      assert IsFirstUrlAt(m, i, u);
      Some(u)
  }

  /** `u` is the text the URL pattern matches at `i`, the leftmost position
      where it can start: the scheme, then every character up to the next
      white space or the end. */
  predicate IsFirstUrlAt(m: string, i: int, u: string) {
    && 0 <= i < |m| && SchemeAt(m, i) > 0 && (forall j :: 0 <= j < i ==> SchemeAt(m, j) == 0)
    && i + |u| <= |m| && u == m[i..i + |u|] && NoSpace(u)
    && (i + |u| == |m| || IsSpace(m[i + |u|]))
  }

  // ---------------------------------------------------------------------
  // The note pattern `/(?:save|remember|note)[:\s]+(.+)/i`

  /** The length of the keyword `save`, `remember` or `note` at `i`, ignoring
      case; zero when there is none. */
  function KeywordAt(m: string, i: nat): (n: nat)
    ensures n == 0 || n == 4 || n == 8
    ensures n > 0 ==> i + n <= |m|
    ensures n > 0 <==>
      OccursAt(Lower(m), "save", i) || OccursAt(Lower(m), "remember", i) || OccursAt(Lower(m), "note", i)
    ensures n == 8 ==> OccursAt(Lower(m), "remember", i)
    ensures n == 4 ==> OccursAt(Lower(m), "save", i) || OccursAt(Lower(m), "note", i)
  {
    var lm := Lower(m);
    if OccursAt(lm, "save", i) then 4
    else if OccursAt(lm, "remember", i) then 8
    else if OccursAt(lm, "note", i) then 4
    else 0
  }

  /** The class `[:\s]`. */
  predicate IsSeparator(c: char) {
    c == ':' || IsSpace(c)
  }

  /** How many separator characters start at `j`. */
  function SeparatorRun(m: string, j: nat): (n: nat)
    ensures j + n <= |m| || n == 0
    ensures forall k :: j <= k < j + n ==> IsSeparator(m[k])
    ensures j + n >= |m| || !IsSeparator(m[j + n])
    decreases |m| - j
  {
    if j < |m| && IsSeparator(m[j]) then 1 + SeparatorRun(m, j + 1) else 0
  }

  /** How many characters other than line terminators start at `j`: what
      the greedy `.+` takes. */
  function LineRun(m: string, j: nat): (n: nat)
    ensures j + n <= |m| || n == 0
    ensures forall k :: j <= k < j + n ==> !IsLineTerminator(m[k])
    ensures j + n >= |m| || IsLineTerminator(m[j + n])
    decreases |m| - j
  {
    if j < |m| && !IsLineTerminator(m[j]) then 1 + LineRun(m, j + 1) else 0
  }

  /** Where `(.+)` starts once `[:\s]+` has taken positions `lo` up to
      `hi`: the regex gives separators back one at a time, keeping at least
      one, until `.` can match. */
  function CaptureStart(m: string, lo: nat, hi: nat): (r: Option<nat>)
    ensures r.Some? ==> lo < r.value <= hi && r.value < |m| && !IsLineTerminator(m[r.value])
    ensures r.Some? ==> forall k :: r.value < k <= hi && k < |m| ==> IsLineTerminator(m[k])
    ensures r.None? ==> forall k :: lo < k <= hi && k < |m| ==> IsLineTerminator(m[k])
    decreases hi
  {
    if hi <= lo then None
    else if hi < |m| && !IsLineTerminator(m[hi]) then Some(hi)
    else CaptureStart(m, lo, hi - 1)
  }

  /** The group `(.+)` captures once the keyword has ended at `lo`: `[:\s]+`
      takes the separators from `lo` on and gives back what `.` needs. */
  function CaptureAfter(m: string, lo: nat): (r: Option<string>)
    ensures r.Some? ==> |r.value| > 0 && forall k :: 0 <= k < |r.value| ==> !IsLineTerminator(r.value[k])
    ensures r.Some? ==> Contains(m, r.value)
    ensures r.Some? <==> CaptureStart(m, lo, lo + SeparatorRun(m, lo)).Some?
    ensures r.Some? ==> exists s :: IsCaptureAt(m, lo, s, r.value)
  {
    match CaptureStart(m, lo, lo + SeparatorRun(m, lo))
    case None => None
    case Some(s) =>
      var c := m[s..s + LineRun(m, s)];
      OccursAtContains(m, c, s);
      assert IsCaptureAt(m, lo, s, c);
      Some(c)
  }

  /** `c` is what `(.+)` captures from `s`, after separators that `[:\s]+`
      took from `lo`: it runs to the next line terminator or the end. */
  predicate IsCaptureAt(m: string, lo: nat, s: int, c: string) {
    && lo < s && s + |c| <= |m| && (forall k :: lo <= k < s ==> IsSeparator(m[k]))
    && c == m[s..s + |c|] && (s + |c| == |m| || IsLineTerminator(m[s + |c|]))
  }

  /** Where the keyword matched at `i` ends. */
  function KeywordEnd(m: string, i: nat): nat {
    i + KeywordAt(m, i)
  }

  /** The group the note pattern captures when its match starts at `i`: a
      keyword there, then separators, then the rest of the line. */
  function NoteMatchAt(m: string, i: nat): (r: Option<string>)
    ensures r.Some? ==> |r.value| > 0 && forall k :: 0 <= k < |r.value| ==> !IsLineTerminator(r.value[k])
    ensures r.Some? ==> Contains(m, r.value)
    ensures var lo := KeywordEnd(m, i);
      r.Some? <==> KeywordAt(m, i) > 0 && CaptureStart(m, lo, lo + SeparatorRun(m, lo)).Some?
    ensures r.Some? ==> exists s :: IsCaptureAt(m, KeywordEnd(m, i), s, r.value)
  {
    if KeywordAt(m, i) == 0 then None else CaptureAfter(m, KeywordEnd(m, i))
  }

  /** The least position `j` with `from <= j < n` that satisfies `p`: how a
      regular expression without the `g` flag scans for its first match. */
  function FirstFrom(n: nat, from: nat, p: nat -> bool): (r: Option<nat>)
    ensures r.Some? ==> from <= r.value < n && p(r.value)
    ensures r.Some? ==> forall j :: from <= j < r.value ==> !p(j)
    ensures r.None? ==> forall j :: from <= j < n ==> !p(j)
    decreases n - from
  {
    if from >= n then None
    else if p(from) then Some(from)
    else FirstFrom(n, from + 1, p)
  }

  /** The leftmost position at or after `from` where the note pattern
      matches. */
  function FirstNoteFrom(m: string, from: nat): (r: Option<nat>)
    ensures r.Some? ==> from <= r.value < |m| && NoteMatchAt(m, r.value).Some?
    ensures r.Some? ==> forall j :: from <= j < r.value ==> NoteMatchAt(m, j).None?
    ensures r.None? ==> forall j :: from <= j < |m| ==> NoteMatchAt(m, j).None?
  {
    var matches := (j: nat) => NoteMatchAt(m, j).Some?;
    assert forall j: nat :: matches(j) == NoteMatchAt(m, j).Some?;
    FirstFrom(|m|, from, matches)
  }

  /** The capture of the leftmost match at or after `from`. */
  function NoteCaptureFrom(m: string, from: nat): (r: Option<string>)
    ensures r.Some? ==> |r.value| > 0 && Contains(m, r.value)
    ensures r.None? ==> forall j :: from <= j < |m| ==> NoteMatchAt(m, j).None?
    ensures r.Some? ==>
      exists j :: from <= j < |m| && r == NoteMatchAt(m, j) && forall k :: from <= k < j ==> NoteMatchAt(m, k).None?
  {
    match FirstNoteFrom(m, from)
    case None => None
    case Some(j) => NoteMatchAt(m, j)
  }

  // ---------------------------------------------------------------------
  // detectSaveIntent

  datatype SaveIntent = LinkIntent(url: string) | NoteIntent(content: string)

  /** The words that make a message with a URL a request to save it. */
  predicate HasSaveKeyword(lm: string) {
    || Contains(lm, "save") || Contains(lm, "read") || Contains(lm, "add")
    || Contains(lm, "remember") || Contains(lm, "store") || Contains(lm, "bookmark")
  }

  /** The words that make a message without a URL a request to save a note. */
  predicate HasNoteKeyword(lm: string) {
    Contains(lm, "save") || Contains(lm, "remember") || Contains(lm, "note")
  }

  /** `detectSaveIntent(message)`: a link when the message holds a URL and is
      nothing but that URL or asks for it to be kept; otherwise a note when the
      message has no URL, is longer than twenty characters, mentions saving,
      remembering or a note, and the note pattern captures something;
      otherwise nothing. */
  function DetectSaveIntent(message: string): (r: Option<SaveIntent>)
    ensures (r.Some? && r.value.LinkIntent?) <==>
      FirstUrl(message).Some? && (Trim(message) == FirstUrl(message).value || HasSaveKeyword(Lower(message)))
    ensures r.Some? && r.value.LinkIntent? ==> r.value.url == FirstUrl(message).value
    ensures (r.Some? && r.value.NoteIntent?) <==>
      FirstUrl(message).None? && HasNoteKeyword(Lower(message)) && |message| > 20
      && NoteCaptureFrom(message, 0).Some?
    ensures r.Some? && r.value.NoteIntent? ==>
      r.value.content == Trim(NoteCaptureFrom(message, 0).value) && IsTrimmed(r.value.content)
  {
    var lowerMessage := Lower(message);
    var url := FirstUrl(message);
    if url.Some? && (Trim(message) == Trim(url.value) || HasSaveKeyword(lowerMessage)) then
      Some(LinkIntent(url.value))
    else if HasNoteKeyword(lowerMessage) && url.None? && |message| > 20 then
      match NoteCaptureFrom(message, 0)
      case Some(capture) => Some(NoteIntent(Trim(capture)))
      case None => None
    else None
  }

  /** A message holding nothing but a URL is saved as that link. */
  lemma BareUrlIsLink(u: string)
    requires |u| > 8 && u[..8] == "https://" && NoSpace(u)
    ensures DetectSaveIntent(u) == Some(LinkIntent(u))
  {
    assert Lower(u)[..8] == "https://";
    assert SchemeAt(u, 0) == 8;
    assert RunLength(u[8..]) == |u| - 8;
    assert UrlMatchAt(u, 0) == u;
  }

  /** Without a URL, a message of at most twenty characters never asks to
      save anything. */
  lemma ShortMessageIsNotNote(message: string)
    requires |message| <= 20 && FirstUrl(message).None?
    ensures DetectSaveIntent(message).None?
  {
  }

  // ---------------------------------------------------------------------
  // generateFallbackResponse

  /** How many items are of the given type (`items.filter(...).length`). */
  function CountKind(items: seq<Item>, kind: ItemType): (n: nat)
    ensures n <= |items|
  {
    if |items| == 0 then 0
    else (if items[0].kind == kind then 1 else 0) + CountKind(items[1..], kind)
  }

  /** Every item is a note or a link, so the two counts add up to the total. */
  lemma {:induction false} KindsAddUp(items: seq<Item>)
    ensures CountKind(items, Note) + CountKind(items, Link) == |items|
    decreases |items|
  {
    if |items| > 0 {
      KindsAddUp(items[1..]);
    }
  }

  /** `items.flatMap(i => i.tags)`. */
  function AllTags(items: seq<Item>): (ts: seq<string>)
    ensures forall k :: 0 <= k < |items| ==> forall t :: t in items[k].tags ==> t in ts
    ensures forall t :: t in ts ==> exists k :: 0 <= k < |items| && t in items[k].tags
  {
    if |items| == 0 then []
    else
      var rest := AllTags(items[1..]);
      assert forall k :: 1 <= k < |items| ==> items[k] == items[1..][k - 1];
      items[0].tags + rest
  }

  lemma DedupKeepsSome(xs: seq<string>)
    ensures |xs| > 0 ==> |Dedup(xs)| > 0
  {
    if |xs| > 0 {
      assert xs[0] in Dedup(xs);
    }
  }

  /** The reply `generateFallbackResponse` chooses, before it is worded. */
  datatype Fallback =
    | CountReply(total: nat, notes: nat, links: nat)
    | TopicsReply(topics: seq<string>)
    | NoTopicsReply(total: nat)
    | RecentReply(recent: seq<Item>)
    | NoRecentReply
    | SummaryReply(total: nat, notes: nat, links: nat)
    | HelpReply(total: nat)

  predicate AsksCount(lm: string) {
    Contains(lm, "how many") || Contains(lm, "count")
  }

  predicate AsksTopics(lm: string) {
    Contains(lm, "topic") || Contains(lm, "theme") || Contains(lm, "what")
  }

  predicate AsksRecent(lm: string) {
    Contains(lm, "recent") || Contains(lm, "latest")
  }

  predicate AsksSummary(lm: string) {
    Contains(lm, "summary") || Contains(lm, "summarize")
  }

  /** The first question the message asks decides the reply, in the order
      count, topics, recent items, summary; the counts always add up, the
      topics are at most ten distinct tags of the items in first-seen order,
      and the recent items are the first five given. */
  function ChooseFallback(message: string, items: seq<Item>): (r: Fallback)
    ensures (r.CountReply? || r.SummaryReply?) ==> r.notes + r.links == r.total == |items|
    ensures (r.NoTopicsReply? || r.HelpReply?) ==> r.total == |items|
    ensures (r.CountReply? || r.SummaryReply?) ==>
      r.notes == CountKind(items, Note) && r.links == CountKind(items, Link)
    ensures r.CountReply? <==> AsksCount(Lower(message))
    ensures (r.TopicsReply? || r.NoTopicsReply?) <==> !AsksCount(Lower(message)) && AsksTopics(Lower(message))
    ensures r.TopicsReply? ==> r.topics == SliceTo(Dedup(AllTags(items)), 10)
    ensures r.TopicsReply? ==>
      && 0 < |r.topics| <= 10 && Distinct(r.topics)
      && |r.topics| <= |Dedup(AllTags(items))| && r.topics == Dedup(AllTags(items))[..|r.topics|]
      && forall k :: 0 <= k < |r.topics| ==> r.topics[k] in AllTags(items)
    ensures r.NoTopicsReply? ==> AllTags(items) == []
    ensures (r.RecentReply? || r.NoRecentReply?) <==>
      !AsksCount(Lower(message)) && !AsksTopics(Lower(message)) && AsksRecent(Lower(message))
    ensures r.RecentReply? ==>
      && 0 < |r.recent| <= 5 && |r.recent| <= |items| && r.recent == items[..|r.recent|]
      && (|items| >= 5 ==> |r.recent| == 5)
    ensures r.RecentReply? ==> r.recent == SliceTo(items, 5)
    ensures r.NoRecentReply? ==> items == []
    ensures r.SummaryReply? <==>
      !AsksCount(Lower(message)) && !AsksTopics(Lower(message)) && !AsksRecent(Lower(message))
      && AsksSummary(Lower(message))
    ensures r.HelpReply? <==>
      !AsksCount(Lower(message)) && !AsksTopics(Lower(message)) && !AsksRecent(Lower(message))
      && !AsksSummary(Lower(message))
  {
    var lm := Lower(message);
    var notes := CountKind(items, Note);
    var links := CountKind(items, Link);
    KindsAddUp(items);
    if AsksCount(lm) then CountReply(|items|, notes, links)
    else if AsksTopics(lm) then
      var unique := Dedup(AllTags(items));
      if |unique| > 0 then
        TopicsOf(items);
        TopicsReply(SliceTo(unique, 10))
      else
        DedupKeepsSome(AllTags(items));
        NoTopicsReply(|items|)
    else if AsksRecent(lm) then
      var recent := SliceTo(items, 5);
      if |recent| == 0 then NoRecentReply else RecentReply(recent)
    else if AsksSummary(lm) then SummaryReply(|items|, notes, links)
    else HelpReply(|items|)
  }

  /** The topics listed: at most ten distinct tags of the items, the first
      ones seen. */
  lemma TopicsOf(items: seq<Item>)
    requires |Dedup(AllTags(items))| > 0
    ensures var unique := Dedup(AllTags(items)); var topics := SliceTo(unique, 10);
      && 0 < |topics| <= 10 && Distinct(topics)
      && |topics| <= |unique| && topics == unique[..|topics|]
      && forall k :: 0 <= k < |topics| ==> topics[k] in AllTags(items)
  {
    var unique := Dedup(AllTags(items));
    var topics := SliceTo(unique, 10);
    assert forall i :: 0 <= i < |topics| ==> topics[i] == unique[i];
  }

  /** `item.type === 'note' ? '📝' : '🔗'`. */
  function TypeIcon(kind: ItemType): string {
    if kind == Note then "\U{1F4DD}" else "\U{1F517}"
  }

  /** `item.title || '(Untitled)'`. */
  function TitleOrUntitled(x: Item): string {
    if Truthy(x.title) then x.title.value else "(Untitled)"
  }

  /** Line `n` of the recent-items reply: the number, the type icon and the title. */
  function RecentLine(x: Item, n: nat): (line: string)
    ensures IsPrefix(NatToString(n) + ". ", line)
    ensures Contains(line, TitleOrUntitled(x))
  {
    var head := NatToString(n) + ". " + TypeIcon(x.kind) + " ";
    ContainsMiddle(head, TitleOrUntitled(x), "");
    assert head + TitleOrUntitled(x) + "" == head + TitleOrUntitled(x);
    head + TitleOrUntitled(x)
  }

  /** The numbered lines of the recent-items reply. */
  function RecentLines(recent: seq<Item>): (r: seq<string>)
    ensures |r| == |recent|
    ensures forall k :: 0 <= k < |recent| ==> r[k] == RecentLine(recent[k], k + 1)
  {
    seq(|recent|, k requires 0 <= k < |recent| => RecentLine(recent[k], k + 1))
  }

  /** The count, no-topics and summary replies open with the number of saved
      items, and the help reply names it. */
  lemma RenderLeadsWithTotal(r: Fallback)
    requires r.CountReply? || r.NoTopicsReply? || r.SummaryReply? || r.HelpReply?
    ensures !r.HelpReply? ==> SaysTotal(r.total, Render(r))
    ensures r.HelpReply? ==> OffersHelp(r.total, Render(r))
  {
  }

  /** A reply that opens with the number of saved items. */
  predicate SaysTotal(total: nat, s: string) {
    IsPrefix("You have " + NatToString(total), s)
  }

  /** The help reply's opening, which names the number of saved items. */
  predicate OffersHelp(total: nat, s: string) {
    IsPrefix("I can help you analyze your " + NatToString(total), s)
  }

  /** The wording of each reply; the topics reply names every topic and the
      recent-items reply every title. */
  function Render(r: Fallback): (s: string)
    ensures r.TopicsReply? ==> forall k :: 0 <= k < |r.topics| ==> Contains(s, r.topics[k])
    ensures r.RecentReply? ==> forall k :: 0 <= k < |r.recent| ==> Contains(s, TitleOrUntitled(r.recent[k]))
  {
    match r
    case CountReply(total, notes, links) => CountText(total, notes, links)
    case TopicsReply(topics) => TopicsText(topics)
    case NoTopicsReply(total) => NoTopicsText(total)
    case RecentReply(recent) => RecentText(recent)
    case NoRecentReply => "You have no saved items yet."
    case SummaryReply(total, notes, links) => SummaryText(total, notes, links)
    case HelpReply(total) => HelpText(total)
  }

  function CountText(total: nat, notes: nat, links: nat): (s: string)
    ensures SaysTotal(total, s)
  {
    var lead := "You have " + NatToString(total);
    var tail := " saved items: " + NatToString(notes) + " notes and " + NatToString(links) + " links.";
    PrefixOfAppend(lead, tail);
    lead + tail
  }

  function TopicsText(topics: seq<string>): (s: string)
    ensures IsPrefix("Based on your saved content, your main topics/tags are: ", s)
    ensures forall k :: 0 <= k < |topics| ==> Contains(s, topics[k])
  {
    var lead := "Based on your saved content, your main topics/tags are: ";
    var joined := Join(topics, ", ");
    TopicsListed(lead, joined, topics);
    PrefixOfAppend(lead, joined + ".");
    lead + joined + "."
  }

  function NoTopicsText(total: nat): (s: string)
    ensures SaysTotal(total, s)
  {
    var lead := "You have " + NatToString(total);
    var tail := " items saved. To get better insights, try adding tags to "
      + "your items or configure an OpenAI API key for advanced analysis.";
    PrefixOfAppend(lead, tail);
    lead + tail
  }

  function RecentText(recent: seq<Item>): (s: string)
    ensures forall k :: 0 <= k < |recent| ==> Contains(s, TitleOrUntitled(recent[k]))
  {
    var lead := "Your most recent items:\n";
    var joined := Join(RecentLines(recent), "\n");
    TitlesListed(lead, joined, recent);
    lead + joined
  }

  function SummaryText(total: nat, notes: nat, links: nat): (s: string)
    ensures SaysTotal(total, s)
  {
    var lead := "You have " + NatToString(total);
    var tail := " saved items (" + NatToString(notes) + " notes, " + NatToString(links)
      + " links). To get detailed summaries, please configure an OpenAI API "
      + "key in your environment variables (OPENAI_API_KEY).";
    PrefixOfAppend(lead, tail);
    lead + tail
  }

  function HelpText(total: nat): (s: string)
    ensures OffersHelp(total, s)
  {
    var lead := "I can help you analyze your " + NatToString(total);
    var tail := " saved items! Try asking:\n"
      + "- \"How many items do I have?\"\n"
      + "- \"What topics are in my saved content?\"\n"
      + "- \"Show me recent items\"\n"
      + "- \"Summarize my notes\"\n\n"
      + "For advanced AI analysis, configure OPENAI_API_KEY in your environment variables.";
    PrefixOfAppend(lead, tail);
    lead + tail
  }

  lemma TopicsListed(lead: string, joined: string, topics: seq<string>)
    requires joined == Join(topics, ", ")
    ensures forall k :: 0 <= k < |topics| ==> Contains(lead + joined + ".", topics[k])
  {
    JoinContainsAll(topics, ", ");
    forall k | 0 <= k < |topics| ensures Contains(lead + joined + ".", topics[k]) {
      ContainsAppend(lead, joined, "", topics[k]);
      ContainsAppend("", lead + joined, ".", topics[k]);
    }
  }

  lemma TitlesListed(lead: string, joined: string, recent: seq<Item>)
    requires joined == Join(RecentLines(recent), "\n")
    ensures forall k :: 0 <= k < |recent| ==> Contains(lead + joined, TitleOrUntitled(recent[k]))
  {
    var lines := RecentLines(recent);
    JoinContainsAll(lines, "\n");
    forall k | 0 <= k < |recent| ensures Contains(lead + joined, TitleOrUntitled(recent[k])) {
      ContainsTransitive(joined, lines[k], TitleOrUntitled(recent[k]));
      ContainsAppend(lead, joined, "", TitleOrUntitled(recent[k]));
    }
  }

  lemma PrefixOfAppend(p: string, rest: string)
    ensures IsPrefix(p, p + rest)
  {
  }

  /** `generateFallbackResponse(message, items)`. */
  function GenerateFallbackResponse(message: string, items: seq<Item>): (r: string)
    ensures AsksCount(Lower(message)) ==>
      r == CountText(|items|, CountKind(items, Note), |items| - CountKind(items, Note))
    ensures !AsksCount(Lower(message)) && AsksTopics(Lower(message)) && AllTags(items) != [] ==>
      IsPrefix("Based on your saved content, your main topics/tags are: ", r)
  {
    var f := ChooseFallback(message, items);
    assert f.CountReply? ==> f == CountReply(|items|, CountKind(items, Note), |items| - CountKind(items, Note));
    Render(f)
  }

  /** A question about counts is answered with counts even when it also
      asks about topics. */
  lemma CountBeatsTopics(message: string, items: seq<Item>)
    requires AsksCount(Lower(message)) && AsksTopics(Lower(message))
    ensures ChooseFallback(message, items) == CountReply(|items|, CountKind(items, Note), CountKind(items, Link))
  {
  }

  // ---------------------------------------------------------------------
  // formatItemsForContext

  /** `body.substring(0, 300)` followed by `...` when the body is longer. */
  function Excerpt(body: string): (r: string)
    ensures |body| <= 300 ==> r == body
    ensures |body| > 300 ==> |r| == 303 && r[..300] == body[..300] && r[300..] == "..."
  {
    if |body| > 300 then body[..300] + "..." else body
  }

  /** One entry of the context listing, numbered `n`. */
  function ContextEntry(x: Item, n: nat, localeDate: int -> string): (r: string)
    ensures IsPrefix(NatToString(n) + ". " + TypeLabel(x.kind) + ": ", r)
    ensures Truthy(x.body) ==> Contains(r, "\n  Content: " + Excerpt(x.body.value))
  {
    var head := NatToString(n) + ". " + TypeLabel(x.kind) + ": ";
    var content := if Truthy(x.body) then "\n  Content: " + Excerpt(x.body.value) else "";
    var url := if Truthy(x.url) then "\n  URL: " + x.url.value else "";
    var tags := if |x.tags| > 0 then "\n  Tags: " + Join(x.tags, ", ") else "";
    var rest := url + tags + "\n  Saved: " + localeDate(x.createdAt);
    ContainsMiddle(TitleOrUntitled(x), content, rest);
    ContainsAppend(head, TitleOrUntitled(x) + content + rest, "", content);
    head + (TitleOrUntitled(x) + content + rest)
  }

  function ContextEntries(items: seq<Item>, localeDate: int -> string): (r: seq<string>)
    ensures |r| == |items|
    ensures forall k :: 0 <= k < |items| ==> r[k] == ContextEntry(items[k], k + 1, localeDate)
  {
    seq(|items|, k requires 0 <= k < |items| => ContextEntry(items[k], k + 1, localeDate))
  }

  lemma FirstContextHead(x: Item, localeDate: int -> string)
    ensures IsPrefix("1. " + TypeLabel(x.kind) + ": ", ContextEntry(x, 1, localeDate))
  {
    assert NatToString(1) == "1";
  }

  /** `formatItemsForContext(items)`: the fixed reply exactly when there are
      no items, otherwise the entries of at most the first thirty, separated
      by blank lines, the first numbered 1. */
  function FormatItemsForContext(items: seq<Item>, localeDate: int -> string): (r: string)
    ensures r == NoItems <==> |items| == 0
    ensures |items| > 0 ==> IsPrefix("1. " + TypeLabel(items[0].kind) + ": ", r)
    ensures forall k :: 0 <= k < |items| && k < 30 ==> Contains(r, ContextEntry(items[k], k + 1, localeDate))
  {
    if |items| == 0 then NoItems
    else
      var entries := ContextEntries(SliceTo(items, 30), localeDate);
      var r := Join(entries, "\n\n");
      FirstContextHead(items[0], localeDate);
      PrefixTransitive("1. " + TypeLabel(items[0].kind) + ": ", entries[0], r);
      assert r[0] != NoItems[0];
      ListsEachEntry(items, localeDate);
      r
  }

  /** The joined entries hold the entry of each of the first thirty items. */
  lemma ListsEachEntry(items: seq<Item>, localeDate: int -> string)
    ensures var entries := ContextEntries(SliceTo(items, 30), localeDate);
      forall k :: 0 <= k < |items| && k < 30 ==>
        Contains(Join(entries, "\n\n"), ContextEntry(items[k], k + 1, localeDate))
  {
    var entries := ContextEntries(SliceTo(items, 30), localeDate);
    JoinContainsAll(entries, "\n\n");
    forall k | 0 <= k < |items| && k < 30 ensures entries[k] == ContextEntry(items[k], k + 1, localeDate) {
      assert SliceTo(items, 30)[k] == items[k];
    }
  }

  /** Items after the thirtieth are not listed. */
  lemma ContextCapped(items: seq<Item>, localeDate: int -> string)
    requires |items| > 30
    ensures FormatItemsForContext(items, localeDate) == FormatItemsForContext(items[..30], localeDate)
  {
    assert SliceTo(items, 30) == SliceTo(items[..30], 30);
  }
}
