/**
 * frontend/src/components/ProblemList.tsx: the problem list of the ladder, with an
 * optional hiding of solved problems, three sort orders, pages of `perPage` problems,
 * a clamped page number and running row numbers.
 */
module ProblemList {
  import opened Wrappers
  import Strings
  import Seqs
  import Sorting
  import opened FrontProblems
  import Paginate

  /** `localProblems.length ? localProblems : problems`. */
  function Source(localProblems: seq<FrontProblem>, problems: seq<FrontProblem>): (r: seq<FrontProblem>)
    ensures localProblems != [] ==> r == localProblems
    ensures localProblems == [] ==> r == problems
  {
    if |localProblems| > 0 then localProblems else problems
  }

  /** A problem's status: an explicit entry wins, then membership of the solved set. */
  function StatusOf(p: FrontProblem, statusMap: map<string, UserStatus>, solved: set<string>): (r: UserStatus)
    ensures Key(p) in statusMap ==> r == statusMap[Key(p)]
    ensures Key(p) !in statusMap ==> r != Failed && (r == Solved <==> Key(p) in solved)
  {
    if Key(p) in statusMap then statusMap[Key(p)]
    else if Key(p) in solved then Solved else Unsolved
  }

  function NotSolved(statusMap: map<string, UserStatus>, solved: set<string>): FrontProblem -> bool {
    (p: FrontProblem) => StatusOf(p, statusMap, solved) != Solved
  }

  /** The copy of the source, without the solved problems when `hideSolved` is on. */
  function Visible(source: seq<FrontProblem>, hideSolved: bool, statusMap: map<string, UserStatus>, solved: set<string>): (r: seq<FrontProblem>)
    ensures !hideSolved ==> r == source
    ensures hideSolved ==>
      (forall p <- r :: p in source && StatusOf(p, statusMap, solved) != Solved)
      && (forall p <- source :: StatusOf(p, statusMap, solved) != Solved ==> p in r)
  {
    if hideSolved then Seqs.Filter(source, NotSolved(statusMap, solved)) else source
  }

  datatype SortOption = Acceptance | New | Old

  /** `solvedCount ?? 0`. */
  function SolvedOrZero(p: FrontProblem): int {
    p.solvedCount.GetOr(0)
  }

  /**
   * The three comparators, as "may come first": acceptance is `b.solved - a.solved`
   * (most solved first), old is `a.contestId - b.contestId`, new is `b.contestId - a.contestId`.
   */
  function SortLe(option: SortOption): (FrontProblem, FrontProblem) -> bool {
    match option
    case Acceptance => (a: FrontProblem, b: FrontProblem) => SolvedOrZero(b) <= SolvedOrZero(a)
    case Old => (a: FrontProblem, b: FrontProblem) => a.contestId <= b.contestId
    case New => (a: FrontProblem, b: FrontProblem) => b.contestId <= a.contestId
  }

  lemma SortLeTotal(option: SortOption)
    ensures Sorting.TotalPreorder(SortLe(option))
  {
  }

  /** `filteredSorted`. */
  function FilteredSorted(source: seq<FrontProblem>, option: SortOption, hideSolved: bool,
                          statusMap: map<string, UserStatus>, solved: set<string>): seq<FrontProblem>
  {
    Sorting.SortBy(Visible(source, hideSolved, statusMap, solved), SortLe(option))
  }

  /**
   * The list shown is a rearrangement of the visible problems, ordered by contest id
   * descending ("new"), ascending ("old"), or by solved count descending with a missing
   * count as 0 ("acceptance").
   */
  lemma FilteredSortedOrder(source: seq<FrontProblem>, option: SortOption, hideSolved: bool,
                            statusMap: map<string, UserStatus>, solved: set<string>)
    ensures var r := FilteredSorted(source, option, hideSolved, statusMap, solved);
      multiset(r) == multiset(Visible(source, hideSolved, statusMap, solved))
      && (option == New ==> forall i, j :: 0 <= i < j < |r| ==> r[i].contestId >= r[j].contestId)
      && (option == Old ==> forall i, j :: 0 <= i < j < |r| ==> r[i].contestId <= r[j].contestId)
      && (option == Acceptance ==> forall i, j :: 0 <= i < j < |r| ==> SolvedOrZero(r[i]) >= SolvedOrZero(r[j]))
  {
    SortLeTotal(option);
    Sorting.SortBySorted(Visible(source, hideSolved, statusMap, solved), SortLe(option));
  }

  /** With `hideSolved` on, exactly the solved problems are gone, each other one keeping its multiplicity. */
  lemma HideSolvedRemovesExactlySolved(source: seq<FrontProblem>, option: SortOption,
                                       statusMap: map<string, UserStatus>, solved: set<string>)
    ensures var r := FilteredSorted(source, option, true, statusMap, solved);
      (forall p <- r :: StatusOf(p, statusMap, solved) != Solved)
      && (forall p :: StatusOf(p, statusMap, solved) != Solved ==> multiset(r)[p] == multiset(source)[p])
  {
    FilteredSortedOrder(source, option, true, statusMap, solved);
    FilterCountsKept(source, NotSolved(statusMap, solved));
    var r := FilteredSorted(source, option, true, statusMap, solved);
    forall p <- r ensures StatusOf(p, statusMap, solved) != Solved {
      assert p in multiset(r);
      assert p in Visible(source, true, statusMap, solved);
    }
  }

  /** Filtering keeps all copies of a kept element. */
  lemma {:induction false} FilterCountsKept<T>(s: seq<T>, keep: T -> bool)
    ensures forall x :: keep(x) ==> multiset(Seqs.Filter(s, keep))[x] == multiset(s)[x]
  {
    if s != [] {
      assert s == [s[0]] + s[1..];
      FilterCountsKept(s[1..], keep);
    }
  }

  /** `Math.max(1, Math.ceil(n / perPage))`. */
  function TotalPages(n: nat, perPage: int): (r: int)
    requires perPage >= 1
    ensures r >= 1
    ensures n == 0 ==> r == 1
    ensures n > 0 ==> (r - 1) * perPage < n <= r * perPage
  {
    var q := (n + perPage - 1) / perPage;
    assert q * perPage <= n + perPage - 1 < q * perPage + perPage;
    assert (q - 1) * perPage == q * perPage - perPage;
    if q < 1 then 1 else q
  }

  /** The last page is the last one with any problem on it. */
  lemma LastPageHoldsTheLastProblems<T>(items: seq<T>, perPage: int)
    requires perPage >= 1
    ensures var last := TotalPages(|items|, perPage);
      (|items| > 0 ==> Paginate.Paginate(items, last, perPage) != [])
      && Paginate.Paginate(items, last + 1, perPage) == []
  {
    var last := TotalPages(|items|, perPage);
    Paginate.PageIsSlice(items, last, perPage);
    Paginate.PageIsSlice(items, last + 1, perPage);
    assert (last + 1 - 1) * perPage == last * perPage;
  }

  /** `handlePageChange`: pulls a page number into `[1, totalPages]`. */
  function Clamp(num: int, totalPages: int): (r: int)
    requires totalPages >= 1
    ensures 1 <= r <= totalPages
    ensures 1 <= num <= totalPages ==> r == num
    ensures num < 1 ==> r == 1
    ensures num > totalPages ==> r == totalPages
  {
    if num < 1 then 1 else if num > totalPages then totalPages else num
  }

  /** The Enter key in the page box: `parseInt(pageInput, 10)`, with NaN as page 1. */
  function RequestedPage(pageInput: string): int {
    match Strings.ParseInt(pageInput)
    case Some(n) => n
    case None => 1
  }

  /** `(page - 1) * perPage + idx + 1`. */
  function RowNumber(page: int, perPage: int, idx: int): int {
    (page - 1) * perPage + idx + 1
  }

  /** The row number of a shown problem is one more than its position in the whole sorted list. */
  lemma RowNumberIsPosition<T>(items: seq<T>, page: int, perPage: int, idx: int)
    requires page >= 1 && perPage >= 1
    requires 0 <= idx < |Paginate.Paginate(items, page, perPage)|
    ensures 1 <= RowNumber(page, perPage, idx) <= |items|
    ensures Paginate.Paginate(items, page, perPage)[idx] == items[RowNumber(page, perPage, idx) - 1]
  {
    Paginate.PageIsSlice(items, page, perPage);
    assert (page - 1) * perPage >= 0;
  }

  /** The stored list is taken up iff it is at most one hour old (`now - ts > TTL` rejects it). */
  function CachedLocal(storage: Storage, now: int): (r: Option<seq<FrontProblem>>)
    ensures r.Some? <==> CacheEntry(storage).Some? && now - CacheEntry(storage).value.ts <= CacheTtlMs
    ensures r.Some? ==> r.value == CacheEntry(storage).value.problems
  {
    match CacheEntry(storage)
    case None => None
    case Some(entry) => if now - entry.ts > CacheTtlMs then None else Some(entry.problems)
  }

  /** The component's state: the page, the sort option, the hide-solved switch and the local copy. */
  class ProblemListView {
    var page: int
    var sortOption: SortOption
    var hideSolved: bool
    var localProblems: seq<FrontProblem>
    const perPage: int

    predicate Valid()
      reads this
    {
      perPage >= 1 && page >= 1
    }

    /** The initial state: page 1, newest first, nothing hidden, no local copy. */
    constructor (perPage: int)
      requires perPage >= 1
      ensures Valid()
      ensures this.perPage == perPage && page == 1 && sortOption == New && !hideSolved && localProblems == []
    {
      this.perPage := perPage;
      page := 1;
      sortOption := New;
      hideSolved := false;
      localProblems := [];
    }

    function Sorted(problems: seq<FrontProblem>, statusMap: map<string, UserStatus>, solved: set<string>): seq<FrontProblem>
      reads this
    {
      FilteredSorted(Source(localProblems, problems), sortOption, hideSolved, statusMap, solved)
    }

    function PageCount(problems: seq<FrontProblem>, statusMap: map<string, UserStatus>, solved: set<string>): int
      reads this
      requires Valid()
    {
      TotalPages(|Sorted(problems, statusMap, solved)|, perPage)
    }

    /** `paged`: the problems on the current page. */
    function Paged(problems: seq<FrontProblem>, statusMap: map<string, UserStatus>, solved: set<string>): seq<FrontProblem>
      reads this
    {
      Paginate.Paginate(Sorted(problems, statusMap, solved), page, perPage)
    }

    /** `handlePageChange(num)`. */
    method HandlePageChange(num: int, problems: seq<FrontProblem>, statusMap: map<string, UserStatus>, solved: set<string>)
      requires Valid()
      modifies this
      ensures Valid()
      ensures page == Clamp(num, old(PageCount(problems, statusMap, solved)))
      ensures sortOption == old(sortOption) && hideSolved == old(hideSolved) && localProblems == old(localProblems)
    {
      var total := PageCount(problems, statusMap, solved);
      page := Clamp(num, total);
    }

    /** The Enter key in the page box. */
    method SubmitPageInput(pageInput: string, problems: seq<FrontProblem>, statusMap: map<string, UserStatus>, solved: set<string>)
      requires Valid()
      modifies this
      ensures Valid()
      ensures page == Clamp(RequestedPage(pageInput), old(PageCount(problems, statusMap, solved)))
      ensures sortOption == old(sortOption) && hideSolved == old(hideSolved) && localProblems == old(localProblems)
    {
      HandlePageChange(RequestedPage(pageInput), problems, statusMap, solved);
    }

    /** `onSortChange`: a new sort option goes back to page 1. */
    method SortChange(option: SortOption, problems: seq<FrontProblem>, statusMap: map<string, UserStatus>, solved: set<string>)
      requires Valid()
      modifies this
      ensures Valid()
      ensures sortOption == option && page == 1
      ensures hideSolved == old(hideSolved) && localProblems == old(localProblems)
    {
      sortOption := option;
      HandlePageChange(1, problems, statusMap, solved);
    }

    /** `onHideSolvedChange`: only the switch changes; the page number is kept as it is. */
    method HideSolvedChange(v: bool)
      requires Valid()
      modifies this
      ensures Valid()
      ensures hideSolved == v
      ensures page == old(page) && sortOption == old(sortOption) && localProblems == old(localProblems)
    {
      hideSolved := v;
    }

    /** The mount effect: takes up the stored list when it is at most an hour old. */
    method LoadCached(storage: Storage, now: int)
      requires Valid()
      modifies this
      ensures Valid()
      ensures localProblems == (if CachedLocal(storage, now).Some? then CachedLocal(storage, now).value else old(localProblems))
      ensures page == old(page) && sortOption == old(sortOption) && hideSolved == old(hideSolved)
    {
      var cached := CachedLocal(storage, now);
      if cached.Some? {
        localProblems := cached.value;
      }
    }

    /** The effect on new props: a non-empty list replaces the local copy and is stored with the time. */
    method ProblemsChanged(problems: seq<FrontProblem>, storage: Storage, now: int) returns (stored: Storage)
      requires Valid()
      modifies this
      ensures Valid()
      ensures problems == [] ==> localProblems == old(localProblems) && stored == storage
      ensures problems != [] ==>
        localProblems == problems && stored == storage[ProblemsCacheKey := SavedProblems(now, problems)]
      ensures page == old(page) && sortOption == old(sortOption) && hideSolved == old(hideSolved)
    {
      stored := storage;
      if |problems| == 0 {
        return;
      }
      localProblems := problems;
      stored := storage[ProblemsCacheKey := SavedProblems(now, problems)];
    }
  }
}
