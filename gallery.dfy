/**
 * The gallery page: filtering the public list by language and category,
 * sorting a copy of it, cutting it into pages of six, and the page
 * navigation state.
 */
module Gallery {
  import opened Wrappers
  import opened Schema
  import opened Ordering

  /** The filter value that lets every record through. */
  const ALL := "all"
  const ITEMS_PER_PAGE := 6

  /** `filteredSnippets`: the language and category filters, each with the "all" wildcard. */
  predicate MatchesFilters(s: Snippet, languageFilter: string, categoryFilter: string) {
    && (languageFilter == ALL || s.language == languageFilter)
    && (categoryFilter == ALL || s.category == categoryFilter)
  }

  function FilteredSnippets(snippets: seq<Snippet>, languageFilter: string, categoryFilter: string): seq<Snippet> {
    Filter(snippets, s => MatchesFilters(s, languageFilter, categoryFilter))
  }

  /**
   * A record is kept exactly when it passes both filters, as often as it
   * occurs, and the kept ones keep their order; with both filters "all"
   * nothing is dropped.
   */
  lemma FilteredSnippetsKeep(snippets: seq<Snippet>, languageFilter: string, categoryFilter: string, s: Snippet)
    ensures s in FilteredSnippets(snippets, languageFilter, categoryFilter)
        <==> s in snippets && MatchesFilters(s, languageFilter, categoryFilter)
    ensures multiset(FilteredSnippets(snippets, languageFilter, categoryFilter))[s]
        == if MatchesFilters(s, languageFilter, categoryFilter) then multiset(snippets)[s] else 0
    ensures FilteredSnippets(snippets, ALL, ALL) == snippets
  {
    var keep := (x: Snippet) => MatchesFilters(x, languageFilter, categoryFilter);
    FilterMembership(snippets, keep, s);
    FilterCount(snippets, keep, s);
    FilterAll(snippets, (x: Snippet) => MatchesFilters(x, ALL, ALL));
  }

  function Views(s: Snippet): int { s.views }
  function Likes(s: Snippet): int { s.likes }

  /** The comparator `sortedSnippets` uses for a `sortBy` value. */
  function SortKey(sortBy: string): Snippet -> int {
    if sortBy == "popular" then Views
    else if sortBy == "rating" then Likes
    else CreatedAt
  }

  /** `[...filteredSnippets].sort(...)`. */
  function SortedSnippets(filtered: seq<Snippet>, sortBy: string): seq<Snippet> {
    SortDesc(filtered, SortKey(sortBy))
  }

  /**
   * The sorted list is a permutation of the filtered one, most viewed first
   * under "popular", most liked first under "rating", newest first otherwise.
   */
  lemma SortedSnippetsOrder(filtered: seq<Snippet>, sortBy: string)
    ensures multiset(SortedSnippets(filtered, sortBy)) == multiset(filtered)
    ensures |SortedSnippets(filtered, sortBy)| == |filtered|
    ensures sortBy == "popular" ==> SortedDesc(SortedSnippets(filtered, sortBy), Views)
    ensures sortBy == "rating" ==> SortedDesc(SortedSnippets(filtered, sortBy), Likes)
    ensures sortBy != "popular" && sortBy != "rating" ==> SortedDesc(SortedSnippets(filtered, sortBy), CreatedAt)
  {
  }

  /** `Math.ceil(n / itemsPerPage)`. */
  function TotalPages(n: nat): nat {
    if n % ITEMS_PER_PAGE == 0 then n / ITEMS_PER_PAGE else n / ITEMS_PER_PAGE + 1
  }

  /** The page count is the least number of six-item pages that hold `n` items. */
  lemma TotalPagesIsCeiling(n: nat)
    ensures n <= TotalPages(n) * ITEMS_PER_PAGE
    ensures TotalPages(n) > 0 ==> (TotalPages(n) - 1) * ITEMS_PER_PAGE < n
    ensures TotalPages(n) == 0 <==> n == 0
  {
  }

  /** `startIndex`. */
  function StartIndex(currentPage: int): int {
    (currentPage - 1) * ITEMS_PER_PAGE
  }

  /** How `slice` resolves an index: a negative one counts from the end, and both are clamped to the length. */
  function RelativeIndex(i: int, len: nat): (r: nat)
    ensures r <= len
  {
    if i < 0 then (if len + i < 0 then 0 else len + i)
    else if i < len then i
    else len
  }

  /** `Array.prototype.slice(start, end)`. */
  function Slice<T>(s: seq<T>, start: int, end: int): seq<T> {
    var from := RelativeIndex(start, |s|);
    var to := RelativeIndex(end, |s|);
    if from < to then s[from..to] else []
  }

  function Min(a: int, b: int): int { if a <= b then a else b }
  function Max(a: int, b: int): int { if a >= b then a else b }

  /** `paginatedSnippets`. */
  function PaginatedSnippets<T>(sorted: seq<T>, currentPage: int): seq<T> {
    Slice(sorted, StartIndex(currentPage), StartIndex(currentPage) + ITEMS_PER_PAGE)
  }

  /** No page holds more than six items, whatever the page number. */
  lemma PageAtMostSix<T>(sorted: seq<T>, currentPage: int)
    ensures |PaginatedSnippets(sorted, currentPage)| <= ITEMS_PER_PAGE
  {
  }

  /**
   * Page p (from 1) is the window from (p-1)*6 up to p*6, cut at the end of
   * the list; it is non-empty exactly for the pages up to the page count.
   */
  lemma PageWindow<T>(sorted: seq<T>, p: int)
    requires p >= 1
    ensures PaginatedSnippets(sorted, p)
         == sorted[Min(StartIndex(p), |sorted|)..Min(p * ITEMS_PER_PAGE, |sorted|)]
    ensures PaginatedSnippets(sorted, p) != [] <==> p <= TotalPages(|sorted|)
  {
    TotalPagesIsCeiling(|sorted|);
  }

  /** The pages from `p` to `last`, one after the other. */
  function PagesFrom<T>(sorted: seq<T>, p: int, last: int): seq<T>
    decreases last - p
  {
    if p > last then [] else PaginatedSnippets(sorted, p) + PagesFrom(sorted, p + 1, last)
  }

  /** The pages from `p` on cover the list from the start of page `p` to its end. */
  lemma {:induction false} PagesFromCover<T>(sorted: seq<T>, p: int)
    requires p >= 1
    ensures PagesFrom(sorted, p, TotalPages(|sorted|)) == sorted[Min(StartIndex(p), |sorted|)..]
    decreases TotalPages(|sorted|) - p
  {
    var n := |sorted|;
    TotalPagesIsCeiling(n);
    PageWindow(sorted, p);
    if p <= TotalPages(n) {
      PagesFromCover(sorted, p + 1);
      assert StartIndex(p + 1) == p * ITEMS_PER_PAGE;
      var a, b := Min(StartIndex(p), n), Min(p * ITEMS_PER_PAGE, n);
      assert sorted[a..b] + sorted[b..] == sorted[a..];
    } else {
      assert StartIndex(p) >= n;
    }
  }

  /** Reading pages 1 to `totalPages` in order gives back the whole sorted list. */
  lemma PagesConcatenate<T>(sorted: seq<T>)
    ensures PagesFrom(sorted, 1, TotalPages(|sorted|)) == sorted
  {
    PagesFromCover(sorted, 1);
  }

  /** Pagination controls are rendered only when there is more than one page. */
  predicate ShowsPagination(totalPages: nat) {
    totalPages > 1
  }

  /** `Array.from({ length: totalPages }, (_, i) => i + 1)`: the numbered page buttons. */
  function PageButtons(totalPages: nat): (r: seq<int>)
    ensures |r| == totalPages
    ensures forall b :: b in r <==> 1 <= b <= totalPages
  {
    var r := seq(totalPages, i => i + 1);
    assert forall b :: 1 <= b <= totalPages ==> b in r by {
      forall b | 1 <= b <= totalPages ensures b in r {
        assert r[b - 1] == b;
      }
    }
    r
  }

  /** The page's state: the three selects and the current page. */
  datatype View = View(languageFilter: string, categoryFilter: string, sortBy: string, currentPage: int)

  /** The state the page starts in. */
  const INITIAL := View(ALL, ALL, "newest", 1)

  /** What the user can do on the page. */
  datatype Action =
    | SetLanguage(language: string)
    | SetCategory(category: string)
    | SetSort(sortBy: string)
    | PrevPage
    | NextPage
    | GoToPage(page: int)

  /** The sorted list the page shows from. */
  function SortedFor(snippets: seq<Snippet>, v: View): seq<Snippet> {
    SortedSnippets(FilteredSnippets(snippets, v.languageFilter, v.categoryFilter), v.sortBy)
  }

  function TotalPagesFor(snippets: seq<Snippet>, v: View): nat {
    TotalPages(|SortedFor(snippets, v)|)
  }

  /** The cards in the grid; an empty page shows the "nothing shared yet" message instead. */
  function Visible(snippets: seq<Snippet>, v: View): seq<Snippet> {
    PaginatedSnippets(SortedFor(snippets, v), v.currentPage)
  }

  /**
   * A click on the pagination controls: the previous button (disabled on
   * page 1) goes to `max(1, p - 1)`, the next button (disabled on the last
   * page) to `min(totalPages, p + 1)`, a numbered button to its number.
   * Nothing happens when the controls are not rendered.
   */
  function Navigate(v: View, total: nat, a: Action): View
    requires a.PrevPage? || a.NextPage? || a.GoToPage?
  {
    if !ShowsPagination(total) then v
    else match a
      case PrevPage => if v.currentPage == 1 then v else v.(currentPage := Max(1, v.currentPage - 1))
      case NextPage => if v.currentPage == total then v else v.(currentPage := Min(total, v.currentPage + 1))
      case GoToPage(b) => if b in PageButtons(total) then v.(currentPage := b) else v
  }

  /** One user action as the page is written: the selects leave the current page as it is. */
  function StepAsWritten(snippets: seq<Snippet>, v: View, a: Action): View {
    match a
    case SetLanguage(x) => v.(languageFilter := x)
    case SetCategory(x) => v.(categoryFilter := x)
    case SetSort(x) => v.(sortBy := x)
    case _ => Navigate(v, TotalPagesFor(snippets, v), a)
  }

  function RunAsWritten(snippets: seq<Snippet>, v: View, actions: seq<Action>): View
    decreases |actions|
  {
    if actions == [] then v else RunAsWritten(snippets, StepAsWritten(snippets, v, actions[0]), actions[1..])
  }

  /** Whatever the user does, the current page never drops below 1. */
  lemma {:induction false} AsWrittenPageAtLeastOne(snippets: seq<Snippet>, v: View, actions: seq<Action>)
    requires v.currentPage >= 1
    ensures RunAsWritten(snippets, v, actions).currentPage >= 1
    decreases |actions|
  {
    if actions != [] {
      var next := StepAsWritten(snippets, v, actions[0]);
      assert next.currentPage >= 1 by {
        if actions[0].GoToPage? && ShowsPagination(TotalPagesFor(snippets, v))
           && actions[0].page in PageButtons(TotalPagesFor(snippets, v)) {
          assert 1 <= actions[0].page;
        }
      }
      AsWrittenPageAtLeastOne(snippets, next, actions[1..]);
    }
  }

  /**
   * As written, narrowing a filter while on a later page can leave the page
   * past the last one: the grid shows the "nothing shared yet" message
   * although records match, and no pagination controls are rendered to go
   * back. Seven records, the first six in Python: go to page 2, then choose
   * Python.
   */
  lemma StaleFilterHidesResults(snippets: seq<Snippet>)
    requires |snippets| == 7
    requires forall k :: 0 <= k < 6 ==> snippets[k].language == "python"
    requires snippets[6].language != "python"
    ensures var v := StepAsWritten(snippets, StepAsWritten(snippets, INITIAL, NextPage), SetLanguage("python"));
            && |SortedFor(snippets, v)| == 6
            && Visible(snippets, v) == []
            && !ShowsPagination(TotalPagesFor(snippets, v))
  {
    SevenOnTwoPages(snippets);
    var v1 := StepAsWritten(snippets, INITIAL, NextPage);
    var v2 := StepAsWritten(snippets, v1, SetLanguage("python"));
    assert v2 == View("python", ALL, "newest", 2);
    PythonFilterKeepsSix(snippets);
    assert |SortedFor(snippets, v2)| == 6;
    PageWindow(SortedFor(snippets, v2), 2);
  }

  /** With no filter, seven records make two pages, and the next button leads to page 2. */
  lemma SevenOnTwoPages(snippets: seq<Snippet>)
    requires |snippets| == 7
    ensures StepAsWritten(snippets, INITIAL, NextPage) == INITIAL.(currentPage := 2)
  {
    FilteredSnippetsKeep(snippets, ALL, ALL, snippets[0]);
    assert |SortedFor(snippets, INITIAL)| == 7;
    assert TotalPagesFor(snippets, INITIAL) == 2;
  }

  lemma PythonFilterKeepsSix(snippets: seq<Snippet>)
    requires |snippets| == 7
    requires forall k :: 0 <= k < 6 ==> snippets[k].language == "python"
    requires snippets[6].language != "python"
    ensures FilteredSnippets(snippets, "python", ALL) == snippets[..6]
  {
    var front, back := snippets[..6], snippets[6..];
    assert snippets == front + back;
    var keep := (x: Snippet) => MatchesFilters(x, "python", ALL);
    FilterAppend(front, back, keep);
    FilterAll(front, keep);
    assert back == [snippets[6]] && back[1..] == [];
    assert Filter(back, keep) == [];
  }

  /**
   * The evident intent: changing a filter or the sort order goes back to
   * page 1, so the current page always lies within the pages there are.
   */
  function Step(snippets: seq<Snippet>, v: View, a: Action): View {
    match a
    case SetLanguage(x) => v.(languageFilter := x, currentPage := 1)
    case SetCategory(x) => v.(categoryFilter := x, currentPage := 1)
    case SetSort(x) => v.(sortBy := x, currentPage := 1)
    case _ => Navigate(v, TotalPagesFor(snippets, v), a)
  }

  function Run(snippets: seq<Snippet>, v: View, actions: seq<Action>): View
    decreases |actions|
  {
    if actions == [] then v else Run(snippets, Step(snippets, v, actions[0]), actions[1..])
  }

  /** The current page lies between 1 and the page count (or is 1 when there are no pages). */
  ghost predicate PageInRange(snippets: seq<Snippet>, v: View) {
    1 <= v.currentPage <= Max(1, TotalPagesFor(snippets, v))
  }

  /**
   * From the initial state, every sequence of actions keeps the current page
   * in range, so whenever some record passes the filters the grid shows at
   * least one of them.
   */
  lemma {:induction false} StepKeepsPageInRange(snippets: seq<Snippet>, v: View, actions: seq<Action>)
    requires PageInRange(snippets, v)
    ensures PageInRange(snippets, Run(snippets, v, actions))
    ensures SortedFor(snippets, Run(snippets, v, actions)) != [] ==> Visible(snippets, Run(snippets, v, actions)) != []
    decreases |actions|
  {
    if actions == [] {
      PageWindow(SortedFor(snippets, v), v.currentPage);
      TotalPagesIsCeiling(|SortedFor(snippets, v)|);
    } else {
      var next := Step(snippets, v, actions[0]);
      assert PageInRange(snippets, next) by {
        var total := TotalPagesFor(snippets, v);
        if actions[0].GoToPage? && ShowsPagination(total) && actions[0].page in PageButtons(total) {
          assert 1 <= actions[0].page <= total;
        }
      }
      StepKeepsPageInRange(snippets, next, actions[1..]);
    }
  }

  lemma InitialPageInRange(snippets: seq<Snippet>)
    ensures PageInRange(snippets, INITIAL)
  {
  }
}
