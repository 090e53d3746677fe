/**
 * The problems route (backend/routes/problems.ts and its compiled twin routes/problems.js):
 * the join of the problem list with the problem statistics on the key
 * `${contestId}-${index}`, and the in-memory cache with its time-to-live, the
 * HIT / MISS / STALE decision, the `max-age` header and the secret-guarded refresh.
 */
module ProblemsCache {
  import opened Wrappers
  import opened Strings
  import opened Keys
  import Seqs
  import Arith

  /** A problem object of `problemset.problems`; `tags` is `None` when it is not an array. */
  datatype ApiProblem = ApiProblem(
    contestId: int, index: string, name: string, ptype: string,
    rating: Option<int>, tags: Option<seq<string>>, points: Option<int>)

  /** A `problemStatistics` entry; an undefined `contestId` or `index` is `None`. */
  datatype Stat = Stat(contestId: Option<int>, index: Option<string>, solvedCount: Option<int>, attemptCount: Option<int>)

  /** A merged problem: the spread source fields, then the fields the merge sets. */
  datatype Problem = Problem(
    source: ApiProblem, tags: seq<string>, solvedCount: int, attemptCount: int,
    acceptance: int, acceptancePercent: Option<int>)

  // ---------------- the statistics join ----------------

  /** The test of the `statsMap` loop; a null entry is `None`. */
  predicate Usable(s: Option<Stat>) {
    s.Some? && s.value.contestId.Some? && s.value.index.Some?
  }

  function StatKey(s: Option<Stat>): string
    requires Usable(s)
  {
    ProblemKey(s.value.contestId.value, s.value.index.value)
  }

  /** `statsMap` after the loop over `stats`: each usable entry is stored under its key, later ones overwriting. */
  function StatsMap(stats: seq<Option<Stat>>): map<string, Stat> {
    if stats == [] then map[]
    else
      var prev := StatsMap(stats[..|stats| - 1]);
      var s := stats[|stats| - 1];
      if Usable(s) then prev[StatKey(s) := s.value] else prev
  }

  /** The `statsMap` loop. */
  method BuildStatsMap(stats: seq<Option<Stat>>) returns (m: map<string, Stat>)
    ensures m == StatsMap(stats)
  {
    m := map[];
    for i := 0 to |stats|
      invariant m == StatsMap(stats[..i])
    {
      var s := stats[i];
      assert stats[..i + 1][..i] == stats[..i] && stats[..i + 1][i] == s;
      if s.Some? && s.value.contestId.Some? && s.value.index.Some? {
        m := m[ProblemKey(s.value.contestId.value, s.value.index.value) := s.value];
      }
    }
    assert stats[..|stats|] == stats;
  }

  predicate StatFor(s: Option<Stat>, contestId: int, index: string) {
    s.Some? && s.value.contestId == Some(contestId) && s.value.index == Some(index)
  }

  /** Reference definition: the last statistics entry for the pair (contestId, index), compared field by field. */
  function LastStatFor(stats: seq<Option<Stat>>, contestId: int, index: string): Option<Stat> {
    if stats == [] then None
    else if StatFor(stats[|stats| - 1], contestId, index) then stats[|stats| - 1]
    else LastStatFor(stats[..|stats| - 1], contestId, index)
  }

  /**
   * The string-keyed lookup is the pair join: the key of (contestId, index) is in the map
   * exactly when some entry is for that pair, and it holds the last such entry.
   */
  lemma {:induction false} StatsMapJoinsOnPair(stats: seq<Option<Stat>>, contestId: int, index: string)
    ensures var k := ProblemKey(contestId, index);
      (k in StatsMap(stats) <==> LastStatFor(stats, contestId, index).Some?)
      && (k in StatsMap(stats) ==> Some(StatsMap(stats)[k]) == LastStatFor(stats, contestId, index))
  {
    if stats != [] {
      StatsMapJoinsOnPair(stats[..|stats| - 1], contestId, index);
      var s := stats[|stats| - 1];
      if Usable(s) && StatKey(s) == ProblemKey(contestId, index) {
        ProblemKeyInjective(s.value.contestId.value, s.value.index.value, contestId, index);
      }
    }
  }

  /** A later entry for the same pair overwrites an earlier one: the entry found has no match after it. */
  lemma {:induction false} LastStatForIsLast(stats: seq<Option<Stat>>, contestId: int, index: string)
    ensures LastStatFor(stats, contestId, index).Some? <==> exists j :: 0 <= j < |stats| && StatFor(stats[j], contestId, index)
    ensures LastStatFor(stats, contestId, index).Some? ==>
      exists j :: 0 <= j < |stats| && stats[j] == LastStatFor(stats, contestId, index)
        && forall k :: j < k < |stats| ==> !StatFor(stats[k], contestId, index)
  {
    if stats != [] {
      var init := stats[..|stats| - 1];
      LastStatForIsLast(init, contestId, index);
      if !StatFor(stats[|stats| - 1], contestId, index) {
        if LastStatFor(init, contestId, index).Some? {
          var j :| 0 <= j < |init| && init[j] == LastStatFor(init, contestId, index)
            && forall k :: j < k < |init| ==> !StatFor(init[k], contestId, index);
          assert stats[j] == init[j];
          forall k | j < k < |stats| ensures !StatFor(stats[k], contestId, index) {
            if k < |init| { assert stats[k] == init[k]; }
          }
        } else {
          forall j | 0 <= j < |stats| ensures !StatFor(stats[j], contestId, index) {
            if j < |init| { assert stats[j] == init[j]; }
          }
        }
      }
    }
  }

  /** `Math.round((solved / attempt) * 100)` on exact rationals: round half up. */
  function RoundPercent(solved: int, attempt: int): (r: int)
    requires attempt > 0
    ensures 2 * attempt * r <= 200 * solved + attempt < 2 * attempt * (r + 1)
  {
    var d := 2 * attempt;
    var n := 200 * solved + attempt;
    var q := n / d;
    assert d * q + n % d == n;
    q
  }

  /** A share between 0 and 1 rounds to a percentage between 0 and 100. */
  lemma PercentBounds(solved: int, attempt: int)
    requires 0 <= solved <= attempt && attempt > 0
    ensures 0 <= RoundPercent(solved, attempt) <= 100
  {
    var r := RoundPercent(solved, attempt);
    var d := 2 * attempt;
    if r < 0 {
      Arith.MulMonotone(d, r + 1, 0);
      assert false;
    }
    if r > 100 {
      Arith.MulMonotone(d, 101, r);
      Arith.MulMonotone(200, solved, attempt);
      assert false;
    }
  }

  lemma PercentExample()
    ensures RoundPercent(10, 20) == 50
  {
    var r := RoundPercent(10, 20);
    assert 40 * r <= 2020 < 40 * (r + 1);
  }

  /** One element of the merge's `map`. */
  function MergeOne(p: ApiProblem, statsMap: map<string, Stat>): Problem {
    var key := ProblemKey(p.contestId, p.index);
    var solved := if key in statsMap then statsMap[key].solvedCount.GetOr(0) else 0;
    var attempt := if key in statsMap then statsMap[key].attemptCount.GetOr(0) else 0;
    Problem(p, p.tags.GetOr([]), solved, attempt, solved,
            if attempt > 0 then Some(RoundPercent(solved, attempt)) else None)
  }

  /** `mergeProblemsWithStats`. */
  function Merge(problems: seq<ApiProblem>, stats: seq<Option<Stat>>): (r: seq<Problem>)
    ensures |r| == |problems|
    ensures forall i :: 0 <= i < |problems| ==> r[i].source == problems[i]
  {
    var m := StatsMap(stats);
    seq(|problems|, i requires 0 <= i < |problems| => MergeOne(problems[i], m))
  }

  /**
   * Every merged problem keeps its own fields, in input order, gets an array of tags,
   * and takes its counts from the last statistics entry for its (contestId, index), or
   * 0 without one; `acceptance` is the solved count and the percentage is absent exactly
   * when there are no attempts.
   */
  lemma MergeJoins(problems: seq<ApiProblem>, stats: seq<Option<Stat>>, i: int)
    requires 0 <= i < |problems|
    ensures var p := problems[i];
      var q := Merge(problems, stats)[i];
      var st := LastStatFor(stats, p.contestId, p.index);
      q.source == p
      && q.tags == (if p.tags.Some? then p.tags.value else [])
      && q.solvedCount == (if st.Some? then st.value.solvedCount.GetOr(0) else 0)
      && q.attemptCount == (if st.Some? then st.value.attemptCount.GetOr(0) else 0)
      && q.acceptance == q.solvedCount
      && (q.acceptancePercent.None? <==> q.attemptCount <= 0)
      && (q.acceptancePercent.Some? ==> q.acceptancePercent.value == RoundPercent(q.solvedCount, q.attemptCount))
  {
    StatsMapJoinsOnPair(stats, problems[i].contestId, problems[i].index);
  }

  // ---------------- the cache ----------------

  /** The `problemset.problems` response: a thrown error, or a body whose `result` may be missing. */
  datatype ProblemsetResponse =
    | ProblemsetFailed
    | ProblemsetAnswer(result: Option<ProblemsetResult>)

  datatype ProblemsetResult = ProblemsetResult(problems: Option<seq<ApiProblem>>, problemStatistics: Option<seq<Option<Stat>>>)

  /** The merged list a response yields, or `None` when `fetchAndCacheProblems` throws before assigning the cache. */
  function Fetched(answer: ProblemsetResponse): Option<seq<Problem>> {
    if answer.ProblemsetAnswer? && answer.result.Some? then
      Some(Merge(answer.result.value.problems.GetOr([]), answer.result.value.problemStatistics.GetOr([])))
    else None
  }

  /** The rated-only view: the problems whose `rating` is a number, in order. */
  function RatedOnly(ps: seq<Problem>): (r: seq<Problem>)
    ensures forall p <- r :: p in ps && p.source.rating.Some?
    ensures forall p <- ps :: p.source.rating.Some? ==> p in r
  {
    Seqs.Filter(ps, (p: Problem) => p.source.rating.Some?)
  }

  /** The body: everything with `all=true`, otherwise the rated-only view. */
  function View(ps: seq<Problem>, wantAll: bool): seq<Problem> {
    if wantAll then ps else RatedOnly(ps)
  }

  /** The `max-age` of a hit: the whole seconds left of the time to live, never negative. */
  function HitMaxAge(ttlMs: int, ageMs: int): (r: int)
    ensures r >= 0
    ensures ageMs < ttlMs ==> r * 1000 <= ttlMs - ageMs < (r + 1) * 1000
  {
    var left := (ttlMs - ageMs) / 1000;
    if left < 0 then 0 else left
  }

  datatype CacheStatus = Hit | Miss | Stale

  datatype GetResponse =
    | Served(status: CacheStatus, maxAge: int, body: seq<Problem>)
    | FetchError

  datatype RefreshResponse = Unauthorized | RefreshFailed | Refreshed(count: nat)

  /** The contents of the cache file, as far as `loadCacheFromDisk` reads them; `ts` is 0 when missing. */
  datatype DiskCache = DiskCache(ts: int, problems: Option<seq<Problem>>)

  /** `x-refresh-secret || query.secret || body?.secret`, with "" for a missing header or query value. */
  function Provided(header: string, query: string, body: Option<string>): Option<string> {
    if header != "" then Some(header) else if query != "" then Some(query) else body
  }

  /** The module-level cache of the route: the merged list, if any, and when it was fetched. */
  class ProblemCache {
    var cachedProblems: Option<seq<Problem>>
    var cacheTimestamp: int
    /** `CACHE_TTL_MS`: an hour unless the environment sets it. */
    const ttlMs: int
    /** `PROBLEMS_REFRESH_SECRET`, "" when unset. */
    const refreshSecret: string

    constructor(ttlMs: int, refreshSecret: string)
      ensures this.ttlMs == ttlMs && this.refreshSecret == refreshSecret
      ensures cachedProblems == None && cacheTimestamp == 0
    {
      this.ttlMs := ttlMs;
      this.refreshSecret := refreshSecret;
      cachedProblems := None;
      cacheTimestamp := 0;
    }

    /** The test of a hit; an empty cached list still counts as a cache. */
    predicate IsFresh(now: int)
      reads this
    {
      cachedProblems.Some? && now - cacheTimestamp < ttlMs
    }

    /** `loadCacheFromDisk`: a file with a problems array replaces the cache, its timestamp defaulting to now. */
    method LoadFromDisk(file: Option<DiskCache>, now: int)
      modifies this
      ensures file.Some? && file.value.problems.Some? ==>
        cachedProblems == file.value.problems
        && cacheTimestamp == (if file.value.ts != 0 then file.value.ts else now)
      ensures !(file.Some? && file.value.problems.Some?) ==>
        cachedProblems == old(cachedProblems) && cacheTimestamp == old(cacheTimestamp)
    {
      if file.Some? && file.value.problems.Some? {
        cachedProblems := file.value.problems;
        cacheTimestamp := if file.value.ts != 0 then file.value.ts else now;
      }
    }

    /**
     * `fetchAndCacheProblems`: a response without `result` throws and changes nothing;
     * otherwise both cache fields are replaced by the merged list and the clock reading.
     */
    method FetchAndCache(answer: ProblemsetResponse, now: int) returns (got: Option<seq<Problem>>)
      modifies this
      ensures got == Fetched(answer)
      ensures got.Some? ==> cachedProblems == got && cacheTimestamp == now
      ensures got.None? ==> cachedProblems == old(cachedProblems) && cacheTimestamp == old(cacheTimestamp)
    {
      if !(answer.ProblemsetAnswer? && answer.result.Some?) {
        return None;
      }
      var problems := answer.result.value.problems.GetOr([]);
      var statsMap := BuildStatsMap(answer.result.value.problemStatistics.GetOr([]));
      var merged := seq(|problems|, i requires 0 <= i < |problems| => MergeOne(problems[i], statsMap));
      cachedProblems := Some(merged);
      cacheTimestamp := now;
      got := Some(merged);
    }

    /**
     * `GET /`: a fresh cache is a HIT and is served unchanged; otherwise a successful fetch
     * replaces the cache and is a MISS; a failed fetch serves an existing cache as STALE
     * and without one is a 500.  The body is rated-only unless `all=true`.
     */
    method Get(wantAll: bool, now: int, answer: ProblemsetResponse) returns (resp: GetResponse)
      modifies this
      ensures old(IsFresh(now)) ==>
        resp == Served(Hit, HitMaxAge(ttlMs, now - old(cacheTimestamp)), View(old(cachedProblems).value, wantAll))
        && cachedProblems == old(cachedProblems) && cacheTimestamp == old(cacheTimestamp)
      ensures !old(IsFresh(now)) && Fetched(answer).Some? ==>
        resp == Served(Miss, ttlMs / 1000, View(Fetched(answer).value, wantAll))
        && cachedProblems == Fetched(answer) && cacheTimestamp == now
      ensures !old(IsFresh(now)) && Fetched(answer).None? && old(cachedProblems).Some? ==>
        resp == Served(Stale, 0, View(old(cachedProblems).value, wantAll))
      ensures !old(IsFresh(now)) && Fetched(answer).None? && old(cachedProblems).None? ==> resp == FetchError
      ensures Fetched(answer).None? || old(IsFresh(now)) ==>
        cachedProblems == old(cachedProblems) && cacheTimestamp == old(cacheTimestamp)
    {
      if cachedProblems.Some? && now - cacheTimestamp < ttlMs {
        var maxAge := (ttlMs - (now - cacheTimestamp)) / 1000;
        if maxAge < 0 { maxAge := 0; }
        return Served(Hit, maxAge, View(cachedProblems.value, wantAll));
      }
      var got := FetchAndCache(answer, now);
      if got.Some? {
        return Served(Miss, ttlMs / 1000, View(got.value, wantAll));
      }
      if cachedProblems.Some? {
        return Served(Stale, 0, View(cachedProblems.value, wantAll));
      }
      return FetchError;
    }

    /**
     * `POST /refresh`: with a secret configured, a provided value other than the secret
     * is a 401 and changes nothing; otherwise the cache is refetched and the answer
     * reports the merged count, or a 500 when the fetch throws.
     */
    method Refresh(header: string, query: string, body: Option<string>, answer: ProblemsetResponse, now: int)
      returns (resp: RefreshResponse)
      modifies this
      ensures refreshSecret != "" && Provided(header, query, body) != Some(refreshSecret) ==> resp == Unauthorized
      ensures resp == Unauthorized <==> refreshSecret != "" && Provided(header, query, body) != Some(refreshSecret)
      ensures resp != Unauthorized && Fetched(answer).Some? ==>
        resp == Refreshed(|Fetched(answer).value|) && cachedProblems == Fetched(answer) && cacheTimestamp == now
      ensures resp != Unauthorized && Fetched(answer).None? ==> resp == RefreshFailed
      ensures resp == Unauthorized || resp == RefreshFailed ==>
        cachedProblems == old(cachedProblems) && cacheTimestamp == old(cacheTimestamp)
    {
      var provided := Provided(header, query, body);
      if refreshSecret != "" && provided != Some(refreshSecret) {
        return Unauthorized;
      }
      var got := FetchAndCache(answer, now);
      if got.None? {
        return RefreshFailed;
      }
      return Refreshed(|got.value|);
    }
  }
}
