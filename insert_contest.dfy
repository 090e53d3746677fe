/**
 * scripts/insert-contest-2169.mjs: a one-off script that fetches one contest's standings,
 * builds its document, upserts it and merges the contest and its problems into the JSON
 * cache file.  The contest id it uses is 2185.  The upsert and the file and network I/O
 * are outside the model: the standings answer, the cache file's parsed contents and the
 * clock are parameters.
 */
module InsertContest {
  import opened Wrappers
  import Seqs
  import Sorting
  import opened ContestModel

  /** The contest the script inserts. */
  const Cid := 2185

  /** A problem of `contest.standings`; numeric fields are `None` unless `typeof` says number. */
  datatype RawProblem = RawProblem(
    index: string, name: string, ptype: string, rating: Option<int>,
    tags: Option<seq<string>>, points: Option<int>, solvedCount: Option<int>)

  /** The `contest.standings` answer; `problems` is `None` when it is not an array. */
  datatype Answer =
    | RequestFailed
    | AnswerOk(statusOk: bool, contest: Option<CfContest>, problems: Option<seq<RawProblem>>)

  // ---------------- normalisation ----------------

  /** The `problemsRaw.map(...)` step. */
  function NormalizeRaw(cid: int, p: RawProblem): (q: StoredProblem)
    ensures q.contestId == cid && q.index == p.index && q.name == p.name
    ensures q.ptype == (if p.ptype == "" then "PROGRAMMING" else p.ptype)
    ensures q.rating == p.rating && q.points == p.points && q.solvedCount == p.solvedCount
    ensures q.tags == (if p.tags.Some? then p.tags.value else [])
  {
    StoredProblem(cid, p.index, p.name, OrDefault(p.ptype, "PROGRAMMING"), p.rating,
                  p.tags.GetOr([]), p.points, p.solvedCount)
  }

  function NormalizeAll(cid: int, ps: seq<RawProblem>): (r: seq<StoredProblem>)
    ensures |r| == |ps| && forall i :: 0 <= i < |ps| ==> r[i] == NormalizeRaw(cid, ps[i])
  {
    seq(|ps|, i requires 0 <= i < |ps| => NormalizeRaw(cid, ps[i]))
  }

  /** The script's `problems`: normalised, then sorted by index. */
  function ScriptProblems(cid: int, ps: seq<RawProblem>): seq<StoredProblem> {
    SortProblems(NormalizeAll(cid, ps))
  }

  /**
   * The stored problems are the normalised raw problems, each exactly as often as it
   * occurs, in index order, all carrying the contest's id and a non-empty type.
   */
  lemma ScriptProblemsShape(cid: int, ps: seq<RawProblem>)
    ensures var r := ScriptProblems(cid, ps);
      |r| == |ps|
      && multiset(r) == multiset(NormalizeAll(cid, ps))
      && Sorting.SortedBy(r, ByIndex)
      && forall q <- r :: q.contestId == cid && q.ptype != ""
  {
    var n := NormalizeAll(cid, ps);
    var r := ScriptProblems(cid, ps);
    assert |r| == |multiset(r)| == |multiset(n)| == |n|;
    forall q <- r ensures q.contestId == cid && q.ptype != "" {
      assert q in multiset(n);
      var i :| 0 <= i < |n| && n[i] == q;
    }
  }

  /**
   * The contest document: the id as given, `name || ""`, `type || "CF"`,
   * `phase || "FINISHED"`, `durationSeconds` and `startTimeSeconds` 0 unless numeric, the
   * optional fields as given, and `lastSynced` the clock reading.
   */
  function ContestDocument(c: CfContest, problems: seq<StoredProblem>, now: int): (d: StoredContest)
    ensures d.id == c.id && d.name == c.name && d.problems == problems && d.lastSynced == now
    ensures d.ctype == (if c.ctype == "" then "CF" else c.ctype)
    ensures d.phase == (if c.phase == "" then "FINISHED" else c.phase)
    ensures d.durationSeconds.Some? && d.durationSeconds.value == (if c.durationSeconds.Some? then c.durationSeconds.value else 0)
    ensures d.startTimeSeconds == (if c.startTimeSeconds.Some? then c.startTimeSeconds.value else 0)
    ensures d.frozen == c.frozen && d.relativeTimeSeconds == c.relativeTimeSeconds && d.meta == c.meta
  {
    StoredContest(c.id, c.name, OrDefault(c.ctype, "CF"), OrDefault(c.phase, "FINISHED"), c.frozen,
      Some(c.durationSeconds.GetOr(0)), c.startTimeSeconds.GetOr(0), c.relativeTimeSeconds, c.meta,
      problems, now)
  }

  // ---------------- the cache merge ----------------

  /** The cache file's parsed contents; a missing list is `None`. */
  datatype CacheFile = CacheFile(contests: Option<seq<StoredContest>>, problems: Option<seq<StoredProblem>>,
                                 lastSync: int, timestamp: int)

  predicate HasContest(cs: seq<StoredContest>, cid: int) {
    exists x <- cs :: x.id == cid
  }

  /** `pp.contestId === p.contestId && pp.index === p.index` for some cached `pp`. */
  predicate IsCached(cached: seq<StoredProblem>, p: StoredProblem) {
    exists pp <- cached :: pp.contestId == p.contestId && pp.index == p.index
  }

  /** `newProblems`: the problems whose (contest, index) is not cached yet, in their order. */
  function NewProblems(ps: seq<StoredProblem>, cached: seq<StoredProblem>): seq<StoredProblem> {
    Seqs.Filter(ps, (p: StoredProblem) => !IsCached(cached, p))
  }

  function MergedContests(cs: seq<StoredContest>, cid: int, doc: StoredContest): seq<StoredContest> {
    if HasContest(cs, cid) then cs else cs + [doc]
  }

  function MergedProblems(cached: seq<StoredProblem>, ps: seq<StoredProblem>): seq<StoredProblem> {
    cached + NewProblems(ps, cached)
  }

  /**
   * The cached contests stay as they were, in order; the document is appended exactly
   * when no cached contest has the id, after which, if the document carries that id,
   * the cache has the contest.
   */
  lemma MergedContestsShape(cs: seq<StoredContest>, cid: int, doc: StoredContest)
    ensures var r := MergedContests(cs, cid, doc);
      r[..|cs|] == cs
      && (HasContest(cs, cid) <==> r == cs)
      && (!HasContest(cs, cid) <==> r == cs + [doc])
      && (doc.id == cid ==> HasContest(r, cid))
  {
    var r := MergedContests(cs, cid, doc);
    if !HasContest(cs, cid) {
      assert r != cs by { assert |r| == |cs| + 1; }
      if doc.id == cid {
        assert r[|cs|] == doc;
      }
    }
  }

  /** The contest ids stay distinct when they were and the document carries the id. */
  predicate UniqueIds(cs: seq<StoredContest>) {
    forall i, j :: 0 <= i < j < |cs| ==> cs[i].id != cs[j].id
  }

  lemma MergedContestsUnique(cs: seq<StoredContest>, cid: int, doc: StoredContest)
    requires UniqueIds(cs) && doc.id == cid
    ensures UniqueIds(MergedContests(cs, cid, doc))
  {
    var r := MergedContests(cs, cid, doc);
    if !HasContest(cs, cid) {
      forall i, j | 0 <= i < j < |r| ensures r[i].id != r[j].id {
        if j == |cs| {
          assert r[i] == cs[i] && cs[i] in cs;
        } else {
          assert r[i] == cs[i] && r[j] == cs[j];
        }
      }
    }
  }

  /**
   * The cached problems stay as they were, in order; after the merge every problem of the
   * standings is cached, and none of those appended was cached before.
   */
  lemma MergedProblemsShape(cached: seq<StoredProblem>, ps: seq<StoredProblem>)
    ensures var r := MergedProblems(cached, ps);
      r[..|cached|] == cached
      && (forall p <- ps :: IsCached(r, p))
      && (forall p <- r[|cached|..] :: p in ps && !IsCached(cached, p))
  {
    var r := MergedProblems(cached, ps);
    var added := NewProblems(ps, cached);
    assert r[|cached|..] == added;
    forall p <- ps ensures IsCached(r, p) {
      if IsCached(cached, p) {
        var pp :| pp in cached && pp.contestId == p.contestId && pp.index == p.index;
        assert pp in r;
      } else {
        assert p in added;
        assert p in r;
      }
    }
  }

  /** Running the merge a second time with the same contest and problems adds nothing. */
  lemma MergeTwiceAddsNothing(cs: seq<StoredContest>, cached: seq<StoredProblem>, cid: int,
                             doc: StoredContest, ps: seq<StoredProblem>)
    requires doc.id == cid
    ensures var cs1 := MergedContests(cs, cid, doc);
      MergedContests(cs1, cid, doc) == cs1
    ensures var ps1 := MergedProblems(cached, ps);
      MergedProblems(ps1, ps) == ps1
  {
    MergedContestsShape(cs, cid, doc);
    var ps1 := MergedProblems(cached, ps);
    MergedProblemsShape(cached, ps);
    NoneNewWhenAllCached(ps, ps1);
  }

  lemma {:induction false} NoneNewWhenAllCached(ps: seq<StoredProblem>, cached: seq<StoredProblem>)
    requires forall p <- ps :: IsCached(cached, p)
    ensures NewProblems(ps, cached) == []
  {
    if ps != [] {
      assert ps[0] in ps && forall p <- ps[1..] :: p in ps;
      NoneNewWhenAllCached(ps[1..], cached);
    }
  }

  /** The cache the script reads and writes back. */
  class ScriptCache {
    var contests: seq<StoredContest>
    var problems: seq<StoredProblem>
    var lastSync: int
    var timestamp: int

    /**
     * The default cache, replaced by the file's contents when it could be read and parsed;
     * then `cache.contests || []` and `cache.problems || []`.
     */
    constructor Load(file: Option<CacheFile>, now: int)
      ensures file.None? ==> contests == [] && problems == [] && lastSync == 0 && timestamp == now
      ensures file.Some? ==>
        contests == file.value.contests.GetOr([]) && problems == file.value.problems.GetOr([])
        && lastSync == file.value.lastSync && timestamp == file.value.timestamp
    {
      if file.None? {
        contests, problems, lastSync, timestamp := [], [], 0, now;
      } else {
        contests := file.value.contests.GetOr([]);
        problems := file.value.problems.GetOr([]);
        lastSync := file.value.lastSync;
        timestamp := file.value.timestamp;
      }
    }

    /** Lines 181-190: the deduplicating pushes and the two clock fields. */
    method Merge(cid: int, doc: StoredContest, ps: seq<StoredProblem>, now: int)
      modifies this
      ensures contests == MergedContests(old(contests), cid, doc)
      ensures problems == MergedProblems(old(problems), ps)
      ensures lastSync == now / 1000 && timestamp == now
    {
      if !HasContest(contests, cid) {
        contests := contests + [doc];
      }
      var newProblems := NewProblems(ps, problems);
      problems := problems + newProblems;
      lastSync := now / 1000;
      timestamp := now;
    }
  }

  datatype Outcome =
    | NotFound                   // exit code 1 before anything is written
    | Written(cache: ScriptCache) // the cache written back, exit code 0

  /**
   * `main` after the connection: a failed request or an answer without an OK status and a
   * contest exits with code 1; otherwise the contest's document is built and merged into
   * the cache.
   */
  method Run(answer: Answer, file: Option<CacheFile>, now: int) returns (out: Outcome)
    ensures out.NotFound? <==> answer.RequestFailed? || !answer.statusOk || answer.contest.None?
    ensures out.Written? ==>
      var problems := ScriptProblems(Cid, answer.problems.GetOr([]));
      var doc := ContestDocument(answer.contest.value, problems, now);
      var loaded := if file.Some? then file.value.contests.GetOr([]) else [];
      var cached := if file.Some? then file.value.problems.GetOr([]) else [];
      fresh(out.cache)
      && out.cache.contests == MergedContests(loaded, Cid, doc)
      && out.cache.problems == MergedProblems(cached, problems)
      && out.cache.lastSync == now / 1000 && out.cache.timestamp == now
  {
    if answer.RequestFailed? || !answer.statusOk || answer.contest.None? {
      return NotFound;
    }
    var c := answer.contest.value;
    var problems := ScriptProblems(Cid, answer.problems.GetOr([]));
    var doc := ContestDocument(c, problems, now);
    var cache := new ScriptCache.Load(file, now);
    cache.Merge(Cid, doc, problems, now);
    out := Written(cache);
  }
}
