/**
 * `POST /sync` of routes/contests.js: fetch the whole contest list, pick the finished
 * contests that are not stored yet, fetch the standings of the 50 oldest of them and
 * batch-insert the ones whose standings came back.
 */
module MissingSync {
  import opened Wrappers
  import Seqs
  import Sorting
  import opened ContestModel

  const BatchLimit: nat := 50

  /** The filter of step 3: finished, not stored, with a numeric start time. */
  predicate IsMissing(store: Store, c: CfContest) {
    c.phase == "FINISHED" && c.id !in store && c.startTimeSeconds.Some?
  }

  function MissingContests(store: Store, all: seq<CfContest>): (r: seq<CfContest>)
    ensures forall c <- r :: c in all && IsMissing(store, c)
    ensures forall c <- all :: IsMissing(store, c) ==> c in r
  {
    Seqs.Filter(all, c => IsMissing(store, c))
  }

  /** The comparator `a.startTimeSeconds - b.startTimeSeconds`. */
  predicate ByStart(a: CfContest, b: CfContest) {
    a.startTimeSeconds.GetOr(0) <= b.startTimeSeconds.GetOr(0)
  }

  lemma ByStartTotalPreorder()
    ensures Sorting.TotalPreorder(ByStart)
  {
  }

  function OldestFirst(store: Store, all: seq<CfContest>): seq<CfContest> {
    Sorting.SortBy(MissingContests(store, all), ByStart)
  }

  /** `missingContests.slice(0, BATCH_LIMIT)` after the sort. */
  function ToProcess(store: Store, all: seq<CfContest>): seq<CfContest> {
    Seqs.JsSlice(OldestFirst(store, all), 0, BatchLimit)
  }

  /** The batch is the first `min(50, n)` of the `n` missing contests in start order. */
  lemma ToProcessPrefix(store: Store, all: seq<CfContest>)
    ensures var missing := MissingContests(store, all);
      var n := if |missing| < BatchLimit then |missing| else BatchLimit;
      ToProcess(store, all) == OldestFirst(store, all)[..n]
  {
    Seqs.TakePrefix(OldestFirst(store, all), BatchLimit);
  }

  /** Every contest of the batch is a missing contest of the list. */
  lemma ToProcessMissing(store: Store, all: seq<CfContest>)
    ensures forall c <- ToProcess(store, all) :: c in all && IsMissing(store, c)
  {
    var s := OldestFirst(store, all);
    forall c <- ToProcess(store, all) ensures c in all && IsMissing(store, c) {
      assert c in s;
      assert c in multiset(s);
      assert c in multiset(MissingContests(store, all));
    }
  }

  /**
   * The batch holds the oldest missing contests, in start order: it is sorted, and each
   * of its contests starts no later than any missing contest left for a later run.
   */
  lemma ToProcessOldest(store: Store, all: seq<CfContest>)
    ensures var p := ToProcess(store, all);
      var s := OldestFirst(store, all);
      Sorting.SortedBy(p, ByStart)
      && (forall i, j :: 0 <= i < |p| <= j < |s| ==> ByStart(p[i], s[j]))
  {
    var s := OldestFirst(store, all);
    ByStartTotalPreorder();
    Sorting.SortBySorted(MissingContests(store, all), ByStart);
    ToProcessPrefix(store, all);
    var p := ToProcess(store, all);
    forall i, j | 0 <= i < j < |p| ensures ByStart(p[i], p[j]) {
      assert p[i] == s[i] && p[j] == s[j];
    }
    forall i, j | 0 <= i < |p| <= j < |s| ensures ByStart(p[i], s[j]) {
      assert p[i] == s[i];
    }
  }

  /** With at most 50 missing contests the batch is all of them. */
  lemma ToProcessAll(store: Store, all: seq<CfContest>)
    requires |MissingContests(store, all)| <= BatchLimit
    ensures multiset(ToProcess(store, all)) == multiset(MissingContests(store, all))
  {
    ToProcessPrefix(store, all);
    var s := OldestFirst(store, all);
    assert s[..|s|] == s;
  }

  /** `Math.max(0, missingContests.length - BATCH_LIMIT)`. */
  function Remaining(missingCount: nat): (r: nat)
    ensures missingCount <= BatchLimit ==> r == 0
    ensures missingCount > BatchLimit ==> r + BatchLimit == missingCount
  {
    if missingCount > BatchLimit then missingCount - BatchLimit else 0
  }

  /** What the standings tasks collected: contests in completion order, the problems map and its key order. */
  datatype Fetched = Fetched(contests: seq<CfContest>, problems: map<int, seq<CfProblem>>, keys: seq<int>)

  /** Whether the standings request of a batch contest succeeded; a thrown error or a non-OK status is skipped. */
  predicate Fetches(answer: Standings) {
    answer.StandingsAnswer? && answer.statusOk
  }

  /**
   * The tasks of step 4 run one after the other: each successful one records the
   * normalised list contest and its problems under its id, and a new id joins the end
   * of the map's key order.
   */
  function FetchAll(batch: seq<CfContest>, answers: int -> Standings): (f: Fetched)
    ensures |f.contests| <= |batch|
    ensures f.problems.Keys == set k <- f.keys
  {
    if batch == [] then Fetched([], map[], [])
    else
      var prev := FetchAll(batch[..|batch| - 1], answers);
      var c := batch[|batch| - 1];
      var answer := answers(c.id);
      if Fetches(answer) then
        Fetched(prev.contests + [NormalizeContest(c)],
                prev.problems[c.id := NormalizeProblems(c.id, answer.problems.GetOr([]))],
                prev.keys + (if c.id in prev.problems then [] else [c.id]))
      else prev
  }

  /** The fetched contests are the normalised batch contests whose request succeeded, in batch order. */
  lemma {:induction false} FetchAllContests(batch: seq<CfContest>, answers: int -> Standings)
    ensures forall c <- FetchAll(batch, answers).contests ::
      exists b <- batch :: Fetches(answers(b.id)) && c == NormalizeContest(b)
    ensures forall b <- batch :: Fetches(answers(b.id)) ==> NormalizeContest(b) in FetchAll(batch, answers).contests
  {
    if batch != [] {
      var init := batch[..|batch| - 1];
      FetchAllContests(init, answers);
      assert forall b <- init :: b in batch;
      assert batch == init + [batch[|batch| - 1]];
    }
  }

  /** Every fetched contest was missing: finished, not stored and with a start time, and normalisation keeps those. */
  lemma FetchedFinished(store: Store, all: seq<CfContest>, answers: int -> Standings)
    ensures forall c <- FetchAll(ToProcess(store, all), answers).contests ::
      c.phase == "FINISHED" && c.id !in store && c.startTimeSeconds.Some?
  {
    ToProcessMissing(store, all);
    FetchAllContests(ToProcess(store, all), answers);
  }

  /** The step 4 loop. */
  method FetchDetails(batch: seq<CfContest>, answers: int -> Standings) returns (f: Fetched)
    ensures f == FetchAll(batch, answers)
  {
    f := Fetched([], map[], []);
    for i := 0 to |batch|
      invariant f == FetchAll(batch[..i], answers)
    {
      var c := batch[i];
      assert batch[..i + 1][..i] == batch[..i] && batch[..i + 1][i] == c;
      var answer := answers(c.id);
      if Fetches(answer) {
        var newKeys := f.keys + (if c.id in f.problems then [] else [c.id]);
        f := Fetched(f.contests + [NormalizeContest(c)],
                     f.problems[c.id := NormalizeProblems(c.id, answer.problems.GetOr([]))],
                     newKeys);
      }
    }
    assert batch[..|batch|] == batch;
  }

  /** The document of step 5 for each fetched contest, with no existence check. */
  function Documents(cs: seq<CfContest>, m: map<int, seq<CfProblem>>, now: int): (r: seq<StoredContest>)
    ensures |r| == |cs|
    ensures forall i :: 0 <= i < |cs| ==> r[i] == SyncDocument(cs[i], ProblemsFor(m, cs[i].id), now)
  {
    seq(|cs|, i requires 0 <= i < |cs| => SyncDocument(cs[i], ProblemsFor(m, cs[i].id), now))
  }

  /** The step 5 loop. */
  method BuildDocuments(cs: seq<CfContest>, m: map<int, seq<CfProblem>>, now: int) returns (docs: seq<StoredContest>)
    ensures docs == Documents(cs, m, now)
  {
    docs := [];
    for i := 0 to |cs|
      invariant docs == Documents(cs[..i], m, now)
    {
      DocumentsStep(cs, m, now, i);
      docs := docs + [SyncDocument(cs[i], ProblemsFor(m, cs[i].id), now)];
    }
    assert cs[..|cs|] == cs;
  }

  lemma DocumentsStep(cs: seq<CfContest>, m: map<int, seq<CfProblem>>, now: int, i: nat)
    requires i < |cs|
    ensures Documents(cs[..i + 1], m, now) == Documents(cs[..i], m, now) + [SyncDocument(cs[i], ProblemsFor(m, cs[i].id), now)]
  {
    assert cs[..i + 1][..i] == cs[..i] && cs[..i + 1][i] == cs[i];
  }

  /** The response of a successful run that found missing contests. */
  function Response(fetched: Fetched, docs: seq<StoredContest>, outcome: InsertOutcome, missingCount: nat): SyncResponse
  {
    Synced(if docs == [] then 0 else if outcome.failed then outcome.inserted else |docs|,
           0, MapTotal(fetched.keys, fetched.problems), |fetched.contests|, Some(Remaining(missingCount)))
  }

  /**
   * The whole route: 503 without a database, 500 when the contest list fails, is not OK
   * or has no array result, "Already up to date" when nothing is missing, otherwise the
   * standings tasks and one unordered batch insert whose errors are only logged.
   */
  method Sync(store: Store, dbReady: bool, list: ContestList, answers: int -> Standings, now: int)
    returns (resp: SyncResponse, newStore: Store)
    ensures !dbReady ==> resp == SyncUnavailable && newStore == store
    ensures dbReady && !(list.ListAnswer? && list.statusOk && list.result.Some?) ==>
      resp == SyncFailed && newStore == store
    ensures resp == UpToDate <==>
      dbReady && list.ListAnswer? && list.statusOk && list.result.Some? && MissingContests(store, list.result.value) == []
    ensures resp == UpToDate ==> newStore == store
    ensures resp.Synced? ==>
      var all := list.result.value;
      var fetched := FetchAll(ToProcess(store, all), answers);
      var docs := Documents(fetched.contests, fetched.problems, now);
      var outcome := InsertMany(store, docs, false);
      newStore == outcome.store
      && resp == Response(fetched, docs, outcome, |MissingContests(store, all)|)
    ensures resp.Synced? ==> resp.contestsUpdated == 0 && resp.remainingMissing.Some?
    ensures forall k <- store :: k in newStore && newStore[k] == store[k]
    ensures WellKeyed(store) ==> WellKeyed(newStore)
  {
    if !dbReady {
      return SyncUnavailable, store;
    }
    if !(list.ListAnswer? && list.statusOk && list.result.Some?) {
      return SyncFailed, store;
    }
    var all := list.result.value;
    var missing := MissingContests(store, all);
    if missing == [] {
      return UpToDate, store;
    }
    var batch := ToProcess(store, all);
    var fetched := FetchDetails(batch, answers);
    var docs := BuildDocuments(fetched.contests, fetched.problems, now);
    var outcome := InsertMany(store, docs, false);
    newStore := outcome.store;
    resp := Response(fetched, docs, outcome, |missing|);
  }

  /**
   * When the batch contests have distinct ids, none is stored, and therefore the batch
   * insert does not raise: every fetched contest is inserted under its id with its
   * problems sorted by index, and the inserted count is the number fetched.
   */
  lemma DistinctBatchInsertsAll(store: Store, all: seq<CfContest>, answers: int -> Standings, now: int)
    requires Seqs.NoDuplicates(Ids(ToProcess(store, all)))
    ensures var fetched := FetchAll(ToProcess(store, all), answers);
      var docs := Documents(fetched.contests, fetched.problems, now);
      var outcome := InsertMany(store, docs, false);
      !outcome.failed && outcome.store == AddAll(store, docs)
      && forall c <- fetched.contests :: c.id in outcome.store && Sorting.SortedBy(outcome.store[c.id].problems, ByIndex)
  {
    var batch := ToProcess(store, all);
    var fetched := FetchAll(batch, answers);
    var docs := Documents(fetched.contests, fetched.problems, now);
    DocumentsFresh(store, all, answers, now);
    forall c <- fetched.contests ensures c.id in AddAll(store, docs) && Sorting.SortedBy(AddAll(store, docs)[c.id].problems, ByIndex) {
      var i :| 0 <= i < |fetched.contests| && fetched.contests[i] == c;
      AddAllHas(store, docs, docs[i]);
    }
  }

  /** Under the same condition the documents have fresh, distinct ids. */
  lemma DocumentsFresh(store: Store, all: seq<CfContest>, answers: int -> Standings, now: int)
    requires Seqs.NoDuplicates(Ids(ToProcess(store, all)))
    ensures var fetched := FetchAll(ToProcess(store, all), answers);
      FreshIds(store, Documents(fetched.contests, fetched.problems, now))
  {
    var fetched := FetchAll(ToProcess(store, all), answers);
    var docs := Documents(fetched.contests, fetched.problems, now);
    FetchedFinished(store, all, answers);
    FetchedDistinct(ToProcess(store, all), answers);
    forall i, j | 0 <= i < j < |docs| ensures docs[i].id != docs[j].id {
      assert docs[i].id == fetched.contests[i].id && docs[j].id == fetched.contests[j].id;
    }
    forall d <- docs ensures d.id !in store {
      var i :| 0 <= i < |docs| && docs[i] == d;
      assert fetched.contests[i] in fetched.contests;
    }
  }

  function Ids(cs: seq<CfContest>): (r: seq<int>)
    ensures |r| == |cs| && forall i :: 0 <= i < |cs| ==> r[i] == cs[i].id
  {
    seq(|cs|, i requires 0 <= i < |cs| => cs[i].id)
  }

  /** Distinct batch ids give distinct fetched ids. */
  lemma {:induction false} FetchedDistinct(batch: seq<CfContest>, answers: int -> Standings)
    requires Seqs.NoDuplicates(Ids(batch))
    ensures Seqs.NoDuplicates(Ids(FetchAll(batch, answers).contests))
    ensures forall c <- FetchAll(batch, answers).contests :: exists b <- batch :: b.id == c.id
  {
    if batch != [] {
      var init := batch[..|batch| - 1];
      var last := batch[|batch| - 1];
      assert Seqs.NoDuplicates(Ids(init)) by {
        forall i, j | 0 <= i < j < |init| ensures Ids(init)[i] != Ids(init)[j] {
          assert Ids(batch)[i] != Ids(batch)[j];
        }
      }
      FetchedDistinct(init, answers);
      var prev := FetchAll(init, answers).contests;
      forall c <- prev ensures c.id != last.id {
        var b :| b in init && b.id == c.id;
        var k :| 0 <= k < |init| && init[k] == b;
        assert Ids(batch)[k] != Ids(batch)[|batch| - 1];
      }
      if Fetches(answers(last.id)) {
        var cur := prev + [NormalizeContest(last)];
        assert FetchAll(batch, answers).contests == cur;
        forall i, j | 0 <= i < j < |cur| ensures Ids(cur)[i] != Ids(cur)[j] {
          if j < |prev| { assert cur[i] == prev[i] && cur[j] == prev[j]; assert Ids(prev)[i] != Ids(prev)[j]; }
          else { assert cur[i] == prev[i] && prev[i] in prev; }
        }
        forall c <- cur ensures exists b <- batch :: b.id == c.id {
          if c in prev { var b :| b in init && b.id == c.id; assert b in batch; }
          else { assert last in batch; }
        }
      } else {
        forall c <- prev ensures exists b <- batch :: b.id == c.id {
          var b :| b in init && b.id == c.id; assert b in batch;
        }
      }
    }
  }
}
