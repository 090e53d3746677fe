/**
 * The read-side contest routes and the single-contest refresh, which the three contest
 * route files implement identically: the category classifier and bucketing of
 * `/by-category`, the `/sync/status` freshness test, `GET /:id`, `POST /:id/refresh`,
 * the `/problems/all` filter, and the order in which the router tries its routes.
 */
module ContestQueries {
  import opened Wrappers
  import opened Strings
  import Seqs
  import Sorting
  import opened ContestModel

  // ---------------- categories ----------------

  datatype Category = Div1Div2 | Div1 | Div2 | Div3 | Div4 | Global | Educational | Others

  const AllCategories: seq<Category> := [Div1Div2, Div1, Div2, Div3, Div4, Global, Educational, Others]

  /** The lower-cased name carries a division marker, written with or without the space. */
  predicate HasDiv(l: string, spaced: string, tight: string) {
    Contains(l, spaced) || Contains(l, tight)
  }

  /** `categorizeContest`: the first rule that the lower-cased name satisfies. */
  function Categorize(name: string): Category {
    var l := Lower(name);
    if Contains(l, "div. 1") && Contains(l, "div. 2") then Div1Div2
    else if HasDiv(l, "div. 1", "div.1") then Div1
    else if HasDiv(l, "div. 2", "div.2") then Div2
    else if HasDiv(l, "div. 3", "div.3") then Div3
    else if HasDiv(l, "div. 4", "div.4") then Div4
    else if Contains(l, "global") then Global
    else if Contains(l, "educational") then Educational
    else Others
  }

  lemma LowerIdempotent(s: string)
    ensures Lower(Lower(s)) == Lower(s)
  {
  }

  /** The classification does not depend on letter case. */
  lemma CategorizeIgnoresCase(name: string)
    ensures Categorize(Lower(name)) == Categorize(name)
  {
    LowerIdempotent(name);
  }

  /** A division marker always wins over "global" and "educational". */
  lemma DivisionMarkersWin(name: string)
    requires HasDiv(Lower(name), "div. 1", "div.1") || HasDiv(Lower(name), "div. 2", "div.2") || HasDiv(Lower(name), "div. 3", "div.3") || HasDiv(Lower(name), "div. 4", "div.4")
    ensures Categorize(name) in {Div1Div2, Div1, Div2, Div3, Div4}
  {
  }

  /** DIV1_DIV2 needs both spaced markers; "Div.1 + Div. 2" without the space is DIV1. */
  lemma Div1Div2Exactly(name: string)
    ensures Categorize(name) == Div1Div2 <==> Contains(Lower(name), "div. 1") && Contains(Lower(name), "div. 2")
  {
  }

  /** OTHERS is exactly the names that carry none of the ten markers. */
  lemma OthersExactly(name: string)
    ensures Categorize(name) == Others <==>
      !HasDiv(Lower(name), "div. 1", "div.1") && !HasDiv(Lower(name), "div. 2", "div.2") && !HasDiv(Lower(name), "div. 3", "div.3")
      && !HasDiv(Lower(name), "div. 4", "div.4") && !Contains(Lower(name), "global") && !Contains(Lower(name), "educational")
  {
  }

  lemma AbsentCharNotContained(s: string, sub: string, c: char)
    requires c in sub && c !in s
    ensures !Contains(s, sub)
  {
  }

  lemma LowerKeepsAbsentChar(s: string, c: char)
    requires c !in s && !IsUpper(c) && !IsLowerLetter(c)
    ensures c !in Lower(s)
  {
  }

  /** An Educational round rated for the second division is filed under DIV2. */
  lemma EducationalRatedForDiv2()
    ensures Categorize("Educational Round (Div. 2)") == Div2
  {
    var name := "Educational Round (Div. 2)";
    var l := Lower(name);
    assert '1' !in name;
    LowerKeepsAbsentChar(name, '1');
    AbsentCharNotContained(l, "div. 1", '1');
    AbsentCharNotContained(l, "div.1", '1');
    assert l[19..25] == "div. 2";
    assert OccursAt(l, "div. 2", 19);
  }

  // ---------------- bucketing ----------------

  /** A row of the `/by-category` aggregation: the projection keeps no `problems` field. */
  datatype ContestRow = ContestRow(id: int, name: string, ctype: string, phase: string, startTimeSeconds: Option<int>)

  /** A bucket entry; `date` is the start time when it is truthy (the ISO rendering is left out). */
  datatype Summary = Summary(
    id: int, name: string, ctype: string, phase: string, startTimeSeconds: Option<int>,
    problemCount: nat, date: Option<int>)

  function Summarize(r: ContestRow): Summary {
    Summary(r.id, r.name, r.ctype, r.phase, r.startTimeSeconds, 0,
      if r.startTimeSeconds.Some? && r.startTimeSeconds.value != 0 then r.startTimeSeconds else None)
  }

  /** The contests of `rows` that fall in category `c`, in input order. */
  function Bucket(rows: seq<ContestRow>, c: Category): (b: seq<Summary>)
    ensures |b| <= |rows|
  {
    if rows == [] then []
    else
      var last := rows[|rows| - 1];
      Bucket(rows[..|rows| - 1], c) + (if Categorize(last.name) == c then [Summarize(last)] else [])
  }

  function SizesOver(rows: seq<ContestRow>, cs: seq<Category>): nat {
    if cs == [] then 0 else |Bucket(rows, cs[0])| + SizesOver(rows, cs[1..])
  }

  /** The buckets partition the contests: their sizes add up to the number of contests. */
  lemma {:induction false} BucketsPartition(rows: seq<ContestRow>)
    ensures SizesOver(rows, AllCategories) == |rows|
  {
    if rows != [] {
      var init := rows[..|rows| - 1];
      BucketsPartition(init);
      SizesOverStep(rows, AllCategories);
      var c := Categorize(rows[|rows| - 1].name);
      AllCategoriesOnce(c);
      assert SizesOver(rows, AllCategories) == SizesOver(init, AllCategories) + 1;
      assert SizesOver(init, AllCategories) == |init|;
    } else {
      SizesOverNoRows(AllCategories);
    }
  }

  lemma {:induction false} SizesOverNoRows(cs: seq<Category>)
    ensures SizesOver([], cs) == 0
  {
    if cs != [] { SizesOverNoRows(cs[1..]); }
  }

  /** Adding one contest adds one to the size of its category's bucket. */
  lemma {:induction false} SizesOverStep(rows: seq<ContestRow>, cs: seq<Category>)
    requires rows != []
    ensures SizesOver(rows, cs) == SizesOver(rows[..|rows| - 1], cs) + multiset(cs)[Categorize(rows[|rows| - 1].name)]
  {
    if cs != [] {
      SizesOverStep(rows, cs[1..]);
      assert cs == [cs[0]] + cs[1..];
    }
  }

  /** Each category occurs exactly once in `AllCategories`. */
  lemma AllCategoriesOnce(c: Category)
    ensures c in AllCategories && multiset(AllCategories)[c] == 1
  {
    var s := AllCategories;
    var i := match c
      case Div1Div2 => 0 case Div1 => 1 case Div2 => 2 case Div3 => 3
      case Div4 => 4 case Global => 5 case Educational => 6 case Others => 7;
    assert s[i] == c;
    OnlyAt(s, i);
  }

  /** An element that occurs at one position only occurs once. */
  lemma OnlyAt(s: seq<Category>, i: nat)
    requires i < |s| && forall j :: 0 <= j < |s| && j != i ==> s[j] != s[i]
    ensures multiset(s)[s[i]] == 1
  {
    var x := s[i];
    assert s == s[..i] + [x] + s[i + 1..];
    assert x !in s[..i] by {
      forall j | 0 <= j < i ensures s[..i][j] != x { assert s[..i][j] == s[j]; }
    }
    assert x !in s[i + 1..] by {
      var t := s[i + 1..];
      forall j | 0 <= j < |t| ensures t[j] != x { assert t[j] == s[i + 1 + j]; }
    }
  }

  /** Every contest is in the bucket of its category and in no other. */
  lemma {:induction false} BucketMembership(rows: seq<ContestRow>, i: nat)
    requires i < |rows|
    ensures Summarize(rows[i]) in Bucket(rows, Categorize(rows[i].name))
  {
    var init := rows[..|rows| - 1];
    if i < |rows| - 1 {
      BucketMembership(init, i);
      assert init[i] == rows[i];
    }
  }

  /**
   * The `/by-category` handler after the aggregation: each contest is pushed onto its
   * category's list in input order, every list is cut with `slice(0, limitNum)`
   * (`limitNum` is `None` for NaN, which `slice` reads as 0), and the counts are the
   * lengths of the cut lists.
   */
  method CategorizeAll(rows: seq<ContestRow>, limitNum: Option<int>)
    returns (buckets: map<Category, seq<Summary>>, counts: map<Category, nat>, total: nat)
    ensures forall c: Category :: c in buckets && buckets[c] == Seqs.JsSlice(Bucket(rows, c), 0, limitNum.GetOr(0))
    ensures forall c: Category :: c in counts && counts[c] == |buckets[c]|
    ensures total == |rows|
    ensures forall c: Category :: forall s <- buckets[c] :: s.problemCount == 0
  {
    var acc: map<Category, seq<Summary>> := map c | c in AllCategories :: [];
    forall c: Category ensures c in AllCategories { AllCategoriesOnce(c); }
    var i := 0;
    while i < |rows|
      invariant 0 <= i <= |rows|
      invariant forall c: Category :: c in acc && acc[c] == Bucket(rows[..i], c)
    {
      var c := Categorize(rows[i].name);
      acc := acc[c := acc[c] + [Summarize(rows[i])]];
      assert rows[..i + 1][..i] == rows[..i];
      i := i + 1;
    }
    assert rows[..i] == rows;
    buckets := map c | c in AllCategories :: Seqs.JsSlice(acc[c], 0, limitNum.GetOr(0));
    counts := map c | c in AllCategories :: |buckets[c]|;
    total := |rows|;
    forall c: Category ensures forall s <- buckets[c] :: s.problemCount == 0 {
      BucketCountsZero(rows, c);
    }
  }

  lemma {:induction false} BucketCountsZero(rows: seq<ContestRow>, c: Category)
    ensures forall s <- Bucket(rows, c) :: s.problemCount == 0
  {
    if rows != [] { BucketCountsZero(rows[..|rows| - 1], c); }
  }

  // ---------------- sync status ----------------

  /** `CACHE_DURATION`: six hours in milliseconds. */
  const CacheDuration: int := 6 * 60 * 60 * 1000

  /** `!lastSync || now - lastSync > CACHE_DURATION`. */
  predicate NeedsSync(lastSync: Option<int>, now: int) {
    lastSync.None? || now - lastSync.value > CacheDuration
  }

  /** Once a sync is needed it stays needed until the next sync. */
  lemma NeedsSyncStaysNeeded(lastSync: Option<int>, now: int, later: int)
    requires NeedsSync(lastSync, now) && now <= later
    ensures NeedsSync(lastSync, later)
  {
  }

  /** Exactly six hours after a sync no new sync is needed yet; one millisecond later it is. */
  lemma NeedsSyncBoundary(t: int)
    ensures !NeedsSync(Some(t), t + CacheDuration)
    ensures NeedsSync(Some(t), t + CacheDuration + 1)
  {
  }

  /**
   * `/sync/status`: the latest `lastSynced` of the store (`None` for an empty store),
   * the document count and the freshness verdict.
   */
  method SyncStatus(store: Store, now: int) returns (lastSync: Option<int>, contestCount: nat, needsSync: bool)
    ensures lastSync.None? <==> store == map[]
    ensures lastSync.Some? ==>
      (exists k <- store :: store[k].lastSynced == lastSync.value)
      && forall k <- store :: store[k].lastSynced <= lastSync.value
    ensures contestCount == |store|
    ensures needsSync == NeedsSync(lastSync, now)
  {
    var times := set k | k in store :: store[k].lastSynced;
    var m := MaxOrZero(times);
    forall k <- store ensures store[k].lastSynced <= m {
      assert store[k].lastSynced in times;
    }
    if store == map[] {
      lastSync := None;
    } else {
      Seqs.EmptyWhenNoInt(store.Keys);
      var k0 :| k0 in store;
      assert store[k0].lastSynced in times;
      lastSync := Some(m);
    }
    contestCount := |store|;
    needsSync := NeedsSync(lastSync, now);
  }

  // ---------------- GET /:id ----------------

  datatype Lookup = BadId | NotFound | Found(contest: StoredContest)

  /** `GET /:id` of the two files that test `isNaN` first: 400 before any lookup. */
  function GetContestChecked(store: Store, idParam: string): (r: Lookup)
    ensures r == BadId <==> ParseInt(idParam).None?
    ensures r.Found? <==> ParseInt(idParam).Some? && ParseInt(idParam).value in store
    ensures r.Found? ==> r.contest == store[ParseInt(idParam).value]
  {
    match ParseInt(idParam)
    case None => BadId
    case Some(k) => if k in store then Found(store[k]) else NotFound
  }

  /** `GET /:id` without the `isNaN` test: `findOne({id: NaN})` matches nothing. */
  function GetContestUnchecked(store: Store, idParam: string): (r: Lookup)
    ensures r != BadId
    ensures r.Found? <==> ParseInt(idParam).Some? && ParseInt(idParam).value in store
  {
    match ParseInt(idParam)
    case None => NotFound
    case Some(k) => if k in store then Found(store[k]) else NotFound
  }

  /** The two variants differ only in answering a non-numeric id with 400 instead of 404. */
  lemma GetContestVariantsAgree(store: Store, idParam: string)
    ensures GetContestChecked(store, idParam) == GetContestUnchecked(store, idParam)
      || (GetContestChecked(store, idParam) == BadId && GetContestUnchecked(store, idParam) == NotFound)
  {
  }

  /** Every formatted integer id is answered by a lookup, never by 400. */
  lemma GetContestOfFormattedId(store: Store, id: int)
    ensures GetContestChecked(store, IntToString(id)) == (if id in store then Found(store[id]) else NotFound)
  {
    ParseIntOfIntToString(id);
  }

  // ---------------- POST /:id/refresh ----------------

  datatype RefreshResult =
    | RefreshUnavailable
    | RefreshFailed
    | RefreshNotFound
    | Refreshed(contest: StoredContest, problemsCount: nat)

  function HttpStatus(r: RefreshResult): int {
    match r
    case RefreshUnavailable => 503
    case RefreshFailed => 500
    case RefreshNotFound => 404
    case Refreshed(_, _) => 200
  }

  /** `result.find(c => c.id === id)`; a NaN id (`None`) matches nothing. */
  function FindById(cs: seq<CfContest>, id: Option<int>): (r: Option<CfContest>)
    ensures r.Some? <==> id.Some? && exists c <- cs :: c.id == id.value
    ensures r.Some? ==> r.value in cs && r.value.id == id.value
    ensures r.Some? ==> exists i :: 0 <= i < |cs| && cs[i] == r.value && forall j :: 0 <= j < i ==> cs[j].id != id.value
  {
    if cs == [] || id.None? then None
    else if cs[0].id == id.value then Some(cs[0])
    else
      var r := FindById(cs[1..], id);
      assert forall c <- cs :: c == cs[0] || c in cs[1..];
      assert r.Some? ==> exists i :: 0 <= i < |cs| && cs[i] == r.value && forall j :: 0 <= j < i ==> cs[j].id != id.value by {
        if r.Some? {
          var i :| 0 <= i < |cs[1..]| && cs[1..][i] == r.value && forall j :: 0 <= j < i ==> cs[1..][j].id != id.value;
          assert cs[i + 1] == r.value && forall j :: 0 <= j < i + 1 ==> cs[j].id != id.value;
        }
      }
      r
  }

  /** The problems the refresh stores: those of an OK standings answer, or none. */
  function RefreshProblems(standings: Standings): seq<CfProblem> {
    if standings.StandingsAnswer? && standings.statusOk && standings.problems.Some? then standings.problems.value
    else []
  }

  /**
   * `POST /:id/refresh`: 503 without a database; a failed, non-OK or non-array contest
   * list is 500; an id the list lacks is 404; a failed standings call is 500 (the
   * thrown error).  Otherwise the contest is upserted under the requested id.
   */
  function Refresh(store: Store, dbReady: bool, contestId: Option<int>, list: ContestList,
                   standings: Standings, now: int): (out: (RefreshResult, Store))
    ensures !out.0.Refreshed? ==> out.1 == store
    ensures !dbReady <==> out.0 == RefreshUnavailable
    ensures dbReady && (list.ListFailed? || !list.statusOk || list.result.None?) ==> out.0 == RefreshFailed
    ensures out.0 == RefreshNotFound <==>
      (dbReady && list.ListAnswer? && list.statusOk && list.result.Some?
       && FindById(list.result.value, contestId).None?)
    ensures out.0.Refreshed? ==>
      contestId.Some? && standings.StandingsAnswer?
      && out.1 == store[contestId.value := out.0.contest]
      && out.0.contest.id == contestId.value
      && out.0.contest == SyncDocument(FindById(list.result.value, contestId).value, RefreshProblems(standings), now)
      && out.0.contest.lastSynced == now
      && out.0.problemsCount == |out.0.contest.problems|
      && out.0.contest.problems == SortProblems(CopyProblems(RefreshProblems(standings)))
      && Sorting.SortedBy(out.0.contest.problems, ByIndex)
    ensures WellKeyed(store) ==> WellKeyed(out.1)
  {
    if !dbReady then (RefreshUnavailable, store)
    else if list.ListFailed? || !list.statusOk || list.result.None? then (RefreshFailed, store)
    else
      match FindById(list.result.value, contestId)
      case None => (RefreshNotFound, store)
      case Some(c) => RefreshFound(store, c, contestId.value, standings, now)
  }

  /** The refresh of a contest the list has: 500 when the standings call fails, else the upsert. */
  function RefreshFound(store: Store, c: CfContest, id: int, standings: Standings, now: int): (out: (RefreshResult, Store))
    requires c.id == id
    ensures out.0 == RefreshFailed || out.0.Refreshed?
    ensures out.0 == RefreshFailed <==> standings.StandingsFailed?
    ensures out.0 == RefreshFailed ==> out.1 == store
    ensures out.0.Refreshed? ==>
      out.1 == store[id := out.0.contest]
      && out.0.contest == SyncDocument(c, RefreshProblems(standings), now)
      && out.0.contest.id == id
      && out.0.contest.lastSynced == now
      && out.0.problemsCount == |out.0.contest.problems|
      && out.0.contest.problems == SortProblems(CopyProblems(RefreshProblems(standings)))
      && Sorting.SortedBy(out.0.contest.problems, ByIndex)
    ensures WellKeyed(store) ==> WellKeyed(out.1)
  {
    if standings.StandingsFailed? then (RefreshFailed, store)
    else
      var doc := SyncDocument(c, RefreshProblems(standings), now);
      (Refreshed(doc, |doc.problems|), store[id := doc])
  }

  // ---------------- GET /problems/all ----------------

  /** One output row of `/problems/all` (the `$project` stage). */
  datatype ProblemRow = ProblemRow(
    contestId: int, contestName: string, index: string, name: string,
    rating: Option<int>, tags: seq<string>, ptype: string)

  /**
   * The query: rating bounds already parsed (`None` when the parameter is absent or
   * empty), the raw `tags` parameter ("" when absent), and the parsed `limit`
   * (`None` for NaN; the caller passes the default "100" through `ParseInt`).
   */
  datatype ProblemQuery = ProblemQuery(minRating: Option<int>, maxRating: Option<int>, tags: string, limit: Option<int>)

  function Unwind(docs: seq<StoredContest>): (rows: seq<ProblemRow>)
  {
    if docs == [] then []
    else
      var d := docs[0];
      seq(|d.problems|, i requires 0 <= i < |d.problems| => ProblemRowOf(d, d.problems[i])) + Unwind(docs[1..])
  }

  function ProblemRowOf(d: StoredContest, p: StoredProblem): ProblemRow {
    ProblemRow(p.contestId, d.name, p.index, p.name, p.rating, p.tags, p.ptype)
  }

  /** The `$match` stage: a rating condition only when a bound is given, and `$in` on the split tags. */
  predicate RowMatches(q: ProblemQuery, r: ProblemRow) {
    (q.minRating.Some? || q.maxRating.Some? ==>
      r.rating.Some?
      && (q.minRating.Some? ==> r.rating.value >= q.minRating.value)
      && (q.maxRating.Some? ==> r.rating.value <= q.maxRating.value))
    && (q.tags != "" ==> exists t <- r.tags :: t in Split(q.tags, ','))
  }

  datatype ProblemsAnswer = ProblemsError | ProblemsOk(rows: seq<ProblemRow>)

  /**
   * `/problems/all` over the documents in collection order: unwind, match, then
   * `$limit`, which rejects NaN, zero and negative limits (500).
   */
  function ProblemsAll(docs: seq<StoredContest>, q: ProblemQuery): (r: ProblemsAnswer)
    ensures r == ProblemsError <==> q.limit.None? || q.limit.value <= 0
    ensures r.ProblemsOk? ==>
      var matching := Seqs.Filter(Unwind(docs), x => RowMatches(q, x));
      |r.rows| == (if |matching| < q.limit.value then |matching| else q.limit.value)
      && r.rows == matching[..|r.rows|]
  {
    if q.limit.None? || q.limit.value <= 0 then ProblemsError
    else
      var matching := Seqs.Filter(Unwind(docs), x => RowMatches(q, x));
      ProblemsOk(Seqs.JsSlice(matching, 0, q.limit.value))
  }

  /** Every row returned satisfies the filter, and a row comes from some stored problem. */
  lemma ProblemsAllSound(docs: seq<StoredContest>, q: ProblemQuery)
    requires ProblemsAll(docs, q).ProblemsOk?
    ensures forall x <- ProblemsAll(docs, q).rows :: RowMatches(q, x) && x in Unwind(docs)
  {
    var matching := Seqs.Filter(Unwind(docs), x => RowMatches(q, x));
    var rows := ProblemsAll(docs, q).rows;
    assert forall x <- rows :: x in matching;
  }

  /** When fewer rows match than the limit, every matching row is returned. */
  lemma ProblemsAllComplete(docs: seq<StoredContest>, q: ProblemQuery, x: ProblemRow)
    requires ProblemsAll(docs, q).ProblemsOk?
    requires x in Unwind(docs) && RowMatches(q, x)
    requires |Seqs.Filter(Unwind(docs), y => RowMatches(q, y))| < q.limit.value
    ensures x in ProblemsAll(docs, q).rows
  {
    var matching := Seqs.Filter(Unwind(docs), y => RowMatches(q, y));
    assert ProblemsAll(docs, q).rows == matching[..|matching|];
    assert matching[..|matching|] == matching;
  }

  // ---------------- route order ----------------

  datatype Method = Get | Post

  /** A route path segment: a literal, or a `:param` that matches any one segment. */
  datatype Segment = Lit(text: string) | Param

  datatype Handler = Sync | ListContests | ByCategory | RefreshOne | GetOne | StatsOverview | SyncStatusInfo | SyncNotAllowed | ProblemsAllRows

  datatype Route = Route(verb: Method, pattern: seq<Segment>, handler: Handler)

  predicate PathMatches(pattern: seq<Segment>, path: seq<string>) {
    |pattern| == |path| && forall i :: 0 <= i < |path| ==> (pattern[i].Lit? ==> pattern[i].text == path[i])
  }

  predicate RouteMatches(r: Route, verb: Method, path: seq<string>) {
    r.verb == verb && PathMatches(r.pattern, path)
  }

  /** The router tries its routes in registration order and runs the first that matches. */
  function Dispatch(table: seq<Route>, verb: Method, path: seq<string>): (h: Option<Handler>)
    ensures h.Some? <==> exists r <- table :: RouteMatches(r, verb, path)
  {
    if table == [] then None
    else if RouteMatches(table[0], verb, path) then Some(table[0].handler)
    else
      assert forall r <- table :: r == table[0] || r in table[1..];
      Dispatch(table[1..], verb, path)
  }

  lemma {:induction false} DispatchAppend(a: seq<Route>, b: seq<Route>, verb: Method, path: seq<string>)
    ensures Dispatch(a + b, verb, path) == if Dispatch(a, verb, path).Some? then Dispatch(a, verb, path) else Dispatch(b, verb, path)
  {
    if a != [] {
      assert (a + b)[1..] == a[1..] + b;
      DispatchAppend(a[1..], b, verb, path);
    } else {
      assert a + b == b;
    }
  }

  const RouteGetOne := Route(Get, [Param], GetOne)
  const RouteSyncNotAllowed := Route(Get, [Lit("sync")], SyncNotAllowed)

  /** The routes before `GET /:id`, in the order both contest route files register them. */
  const LeadingRoutes: seq<Route> := [
    Route(Post, [Lit("sync")], Sync),
    Route(Get, [], ListContests),
    Route(Get, [Lit("by-category")], ByCategory),
    Route(Post, [Param, Lit("refresh")], RefreshOne)]

  const MiddleRoutes: seq<Route> := [
    Route(Get, [Lit("stats"), Lit("overview")], StatsOverview),
    Route(Get, [Lit("sync"), Lit("status")], SyncStatusInfo)]

  const TrailingRoutes: seq<Route> := [Route(Get, [Lit("problems"), Lit("all")], ProblemsAllRows)]

  /** The registration order as written: `GET /:id` comes before `GET /sync`. */
  const RoutesAsWritten: seq<Route> :=
    LeadingRoutes + [RouteGetOne] + MiddleRoutes + [RouteSyncNotAllowed] + TrailingRoutes

  /** The intended order: the literal `GET /sync` is registered before `GET /:id`. */
  const RoutesCorrected: seq<Route> :=
    LeadingRoutes + [RouteSyncNotAllowed, RouteGetOne] + MiddleRoutes + TrailingRoutes

  /** "sync" is not a number, so the id route answers it with 400. */
  lemma ParseIntSync()
    ensures ParseInt("sync") == None
  {
    assert !IsJsSpace('s');
    assert TrimStartIndex("sync") == 0;
    assert "sync"[0..] == "sync";
  }

  /** A route that does not match the request can be dropped from the table. */
  lemma {:induction false} DispatchSkip(a: seq<Route>, r: Route, b: seq<Route>, verb: Method, path: seq<string>)
    requires !RouteMatches(r, verb, path)
    ensures Dispatch(a + [r] + b, verb, path) == Dispatch(a + b, verb, path)
  {
    if a == [] {
      assert a + [r] + b == [r] + b && ([r] + b)[1..] == b && a + b == b;
    } else {
      assert (a + [r] + b)[1..] == a[1..] + [r] + b;
      assert (a + b)[1..] == a[1..] + b;
      DispatchSkip(a[1..], r, b, verb, path);
    }
  }

  /** The first route that matches decides. */
  lemma DispatchHead(r: Route, rest: seq<Route>, verb: Method, path: seq<string>)
    requires RouteMatches(r, verb, path)
    ensures Dispatch([r] + rest, verb, path) == Some(r.handler)
  {
  }

  lemma LeadingRoutesMissSync()
    ensures Dispatch(LeadingRoutes, Get, ["sync"]) == None
  {
    var p: seq<string> := ["sync"];
    assert !RouteMatches(LeadingRoutes[2], Get, p) by {
      assert LeadingRoutes[2].pattern[0].text == "by-category" != "sync";
    }
    assert forall r <- LeadingRoutes :: !RouteMatches(r, Get, p);
  }

  /** As written, `GET /sync` never reaches its 405 handler: `/:id` takes it and answers 400. */
  lemma GetSyncShadowed(store: Store)
    ensures Dispatch(RoutesAsWritten, Get, ["sync"]) == Some(GetOne)
    ensures GetContestChecked(store, "sync") == BadId
  {
    var p: seq<string> := ["sync"];
    var tail := MiddleRoutes + [RouteSyncNotAllowed] + TrailingRoutes;
    LeadingRoutesMissSync();
    DispatchAppend(LeadingRoutes, [RouteGetOne] + tail, Get, p);
    assert RoutesAsWritten == LeadingRoutes + ([RouteGetOne] + tail);
    DispatchHead(RouteGetOne, tail, Get, p);
    ParseIntSync();
  }

  /** With the corrected order `GET /sync` reaches its 405 handler. */
  lemma CorrectedGetSync()
    ensures Dispatch(RoutesCorrected, Get, ["sync"]) == Some(SyncNotAllowed)
  {
    var p: seq<string> := ["sync"];
    var tail := [RouteGetOne] + MiddleRoutes + TrailingRoutes;
    LeadingRoutesMissSync();
    DispatchAppend(LeadingRoutes, [RouteSyncNotAllowed] + tail, Get, p);
    assert RoutesCorrected == LeadingRoutes + ([RouteSyncNotAllowed] + tail);
    DispatchHead(RouteSyncNotAllowed, tail, Get, p);
  }

  /** The corrected order routes every request other than `GET /sync` as before. */
  lemma CorrectedRouteOrder(verb: Method, path: seq<string>)
    ensures !(verb == Get && path == ["sync"]) ==> Dispatch(RoutesCorrected, verb, path) == Dispatch(RoutesAsWritten, verb, path)
  {
    if !(verb == Get && path == ["sync"]) {
      assert !RouteMatches(RouteSyncNotAllowed, verb, path);
      var without := LeadingRoutes + [RouteGetOne] + MiddleRoutes + TrailingRoutes;
      DispatchSkip(LeadingRoutes, RouteSyncNotAllowed, [RouteGetOne] + MiddleRoutes + TrailingRoutes, verb, path);
      assert RoutesCorrected == LeadingRoutes + [RouteSyncNotAllowed] + ([RouteGetOne] + MiddleRoutes + TrailingRoutes);
      assert LeadingRoutes + ([RouteGetOne] + MiddleRoutes + TrailingRoutes) == without;
      DispatchSkip(LeadingRoutes + [RouteGetOne] + MiddleRoutes, RouteSyncNotAllowed, TrailingRoutes, verb, path);
    }
  }
}
