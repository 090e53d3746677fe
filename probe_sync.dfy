/**
 * `POST /sync` of routes/contests.ts: probe the standings of the ids after the highest
 * stored id, one at a time, until ten consecutive probes miss or 5000 probes have run;
 * then update or batch-insert the contests found.
 */
module ProbeSync {
  import opened Wrappers
  import Seqs
  import Sorting
  import opened ContestModel

  const MaxConsecutiveMisses: nat := 10
  const MaxProbes: nat := 5000

  /** A probed id that answered with a finished contest: the normalised contest and its problems. */
  datatype Hit = Hit(cid: int, contest: CfContest, problems: seq<CfProblem>)

  /**
   * One probe.  It hits when the answer is OK and carries a contest whose phase (defaulting
   * to FINISHED) is FINISHED and whose start time is a number; a thrown error, a non-OK
   * answer, a missing contest, an unfinished contest or a missing start time is a miss.
   */
  function Probe(cid: int, answer: Standings): (h: Option<Hit>)
    ensures h.Some? <==>
      answer.StandingsAnswer? && answer.statusOk && answer.contest.Some?
      && OrDefault(answer.contest.value.phase, "FINISHED") == "FINISHED"
      && answer.contest.value.startTimeSeconds.Some?
    ensures h.Some? ==>
      h.value.cid == cid && h.value.contest.phase == "FINISHED" && h.value.contest.startTimeSeconds.Some?
      && |h.value.problems| == |answer.problems.GetOr([])|
      && forall p <- h.value.problems :: p.contestId == cid && p.ptype != "" && p.tags.Some?
  {
    if answer.StandingsAnswer? && answer.statusOk && answer.contest.Some? then
      var c := NormalizeContest(answer.contest.value);
      if c.phase == "FINISHED" && c.startTimeSeconds.Some? then
        Some(Hit(cid, c, NormalizeProblems(cid, answer.problems.GetOr([]))))
      else None
    else None
  }

  datatype ProbeState = ProbeState(misses: nat, hits: seq<Hit>)

  /** The `j`-th probe after `highestId`, which asks for id `highestId + j`. */
  function ProbeAt(highestId: int, answers: int -> Standings, j: int): Option<Hit> {
    Probe(highestId + j, answers(highestId + j))
  }

  /** The counters after probing `highestId + 1 .. highestId + n`, ignoring the stop test. */
  function AfterProbes(highestId: int, answers: int -> Standings, n: nat): ProbeState {
    if n == 0 then ProbeState(0, [])
    else
      var prev := AfterProbes(highestId, answers, n - 1);
      match ProbeAt(highestId, answers, n)
      case Some(h) => ProbeState(0, prev.hits + [h])
      case None => ProbeState(prev.misses + 1, prev.hits)
  }

  /**
   * The miss counter is the number of trailing misses: the last `misses` probes missed,
   * and the probe before them (if any) hit.
   */
  lemma {:induction false} MissesAreTrailing(highestId: int, answers: int -> Standings, n: nat)
    ensures AfterProbes(highestId, answers, n).misses <= n
    ensures var k := AfterProbes(highestId, answers, n).misses;
      (forall j :: n - k < j <= n ==> ProbeAt(highestId, answers, j).None?)
      && (k < n ==> ProbeAt(highestId, answers, n - k).Some?)
  {
    if n > 0 {
      MissesAreTrailing(highestId, answers, n - 1);
    }
  }

  /** Each hit is the answer of a probe after `highestId`, at most `n` ids on, with the id it was probed at. */
  lemma {:induction false} HitsAreProbes(highestId: int, answers: int -> Standings, n: nat)
    ensures forall h <- AfterProbes(highestId, answers, n).hits ::
      highestId < h.cid <= highestId + n && ProbeAt(highestId, answers, h.cid - highestId) == Some(h)
  {
    if n > 0 {
      HitsAreProbes(highestId, answers, n - 1);
      var h := ProbeAt(highestId, answers, n);
      if h.Some? {
        assert h.value.cid - highestId == n;
      }
    }
  }

  predicate IncreasingIds(hits: seq<Hit>) {
    forall i, j :: 0 <= i < j < |hits| ==> hits[i].cid < hits[j].cid
  }

  lemma SnocIncreasing(prev: seq<Hit>, h: Hit)
    requires IncreasingIds(prev) && forall g <- prev :: g.cid < h.cid
    ensures IncreasingIds(prev + [h])
  {
    var hits := prev + [h];
    forall i, j | 0 <= i < j < |hits| ensures hits[i].cid < hits[j].cid {
      assert hits[i] == prev[i] && prev[i] in prev;
      if j < |prev| { assert hits[j] == prev[j]; }
    }
  }

  /** The hits come in strictly increasing id order. */
  lemma {:induction false} HitsIncreasing(highestId: int, answers: int -> Standings, n: nat)
    ensures IncreasingIds(AfterProbes(highestId, answers, n).hits)
  {
    if n > 0 {
      HitsIncreasing(highestId, answers, n - 1);
      HitsAreProbes(highestId, answers, n - 1);
      var prev := AfterProbes(highestId, answers, n - 1).hits;
      var h := ProbeAt(highestId, answers, n);
      if h.Some? {
        SnocIncreasing(prev, h.value);
      }
    }
  }

  /** No probe that hit is lost: every hitting probe among the first `n` is among the hits. */
  lemma {:induction false} HitsComplete(highestId: int, answers: int -> Standings, n: nat)
    ensures forall j :: 1 <= j <= n && ProbeAt(highestId, answers, j).Some? ==>
      ProbeAt(highestId, answers, j).value in AfterProbes(highestId, answers, n).hits
  {
    if n > 0 {
      HitsComplete(highestId, answers, n - 1);
    }
  }

  /** `discoveredProblems`: each hit's problems under its probed id. */
  function ProblemsByCid(hits: seq<Hit>): (m: map<int, seq<CfProblem>>)
    ensures m.Keys == set h <- hits :: h.cid
  {
    if hits == [] then map[]
    else
      var last := hits[|hits| - 1];
      assert forall h <- hits :: h in hits[..|hits| - 1] || h == last;
      ProblemsByCid(hits[..|hits| - 1])[last.cid := last.problems]
  }

  /** One more probe: a hit resets the misses and is appended, with its problems under its id. */
  lemma ProbeStep(highestId: int, answers: int -> Standings, n: nat, misses: nat, found: seq<Hit>)
    requires ProbeState(misses, found) == AfterProbes(highestId, answers, n)
    ensures var probe := ProbeAt(highestId, answers, n + 1);
      (probe.Some? ==>
        probe.value.cid == highestId + n + 1
        && AfterProbes(highestId, answers, n + 1) == ProbeState(0, found + [probe.value])
        && ProblemsByCid(found + [probe.value]) == ProblemsByCid(found)[probe.value.cid := probe.value.problems])
      && (probe.None? ==> AfterProbes(highestId, answers, n + 1) == ProbeState(misses + 1, found))
  {
    var probe := ProbeAt(highestId, answers, n + 1);
    if probe.Some? {
      assert (found + [probe.value])[..|found|] == found;
    }
  }

  /** The loop test held before each of the first `n` probes. */
  predicate KeptGoing(highestId: int, answers: int -> Standings, n: nat) {
    n == 0 || (KeptGoing(highestId, answers, n - 1) && AfterProbes(highestId, answers, n - 1).misses < MaxConsecutiveMisses)
  }

  /** So the loop ran on until its first stop: no earlier state had ten misses. */
  lemma {:induction false} KeptGoingMeans(highestId: int, answers: int -> Standings, n: nat)
    ensures KeptGoing(highestId, answers, n) <==>
      forall j :: 0 <= j < n ==> AfterProbes(highestId, answers, j).misses < MaxConsecutiveMisses
  {
    if n > 0 {
      KeptGoingMeans(highestId, answers, n - 1);
      if KeptGoing(highestId, answers, n) {
        forall j | 0 <= j < n ensures AfterProbes(highestId, answers, j).misses < MaxConsecutiveMisses {
          if j < n - 1 {
            assert KeptGoing(highestId, answers, n - 1);
          }
        }
      } else {
        var j: nat := n - 1;
        if !KeptGoing(highestId, answers, n - 1) {
          j :| 0 <= j < n - 1 && AfterProbes(highestId, answers, j).misses >= MaxConsecutiveMisses;
        }
        assert 0 <= j < n && AfterProbes(highestId, answers, j).misses >= MaxConsecutiveMisses;
      }
    }
  }

  /** The probe loop, with `answers` standing for the standings request of each id. */
  method ProbeLoop(highestId: int, answers: int -> Standings)
    returns (probes: nat, misses: nat, found: seq<Hit>, discovered: map<int, seq<CfProblem>>)
    ensures ProbeState(misses, found) == AfterProbes(highestId, answers, probes)
    ensures 1 <= probes <= MaxProbes
    ensures probes == MaxProbes || misses == MaxConsecutiveMisses
    ensures KeptGoing(highestId, answers, probes)
    ensures discovered == ProblemsByCid(found)
  {
    probes, misses, found, discovered := 0, 0, [], map[];
    var cid := highestId + 1;
    while misses < MaxConsecutiveMisses && probes < MaxProbes
      invariant probes <= MaxProbes && cid == highestId + probes + 1
      invariant ProbeState(misses, found) == AfterProbes(highestId, answers, probes)
      invariant KeptGoing(highestId, answers, probes)
      invariant misses <= MaxConsecutiveMisses
      invariant discovered == ProblemsByCid(found)
      decreases MaxProbes - probes
    {
      ProbeStep(highestId, answers, probes, misses, found);
      probes := probes + 1;
      var probe := ProbeAt(highestId, answers, probes);
      if probe.Some? {
        found := found + [probe.value];
        discovered := discovered[cid := probe.value.problems];
        misses := 0;
      } else {
        misses := misses + 1;
      }
      cid := cid + 1;
    }
  }

  /** A loop that stops before the probe limit has just seen ten misses in a row. */
  lemma StoppedOnMisses(highestId: int, answers: int -> Standings, probes: nat)
    requires AfterProbes(highestId, answers, probes).misses == MaxConsecutiveMisses
    ensures probes >= MaxConsecutiveMisses
    ensures forall j :: probes - MaxConsecutiveMisses < j <= probes ==> ProbeAt(highestId, answers, j).None?
  {
    MissesAreTrailing(highestId, answers, probes);
  }

  /** Every contest the probe loop keeps is finished and has a start time; its problems carry the probed id. */
  lemma FoundContestsFinished(highestId: int, answers: int -> Standings, n: nat)
    ensures forall h <- AfterProbes(highestId, answers, n).hits ::
      h.contest.phase == "FINISHED" && h.contest.startTimeSeconds.Some?
      && forall p <- h.problems :: p.contestId == h.cid
  {
    HitsAreProbes(highestId, answers, n);
    var hits := AfterProbes(highestId, answers, n).hits;
    forall h <- hits ensures h.contest.phase == "FINISHED" && h.contest.startTimeSeconds.Some? && forall p <- h.problems :: p.contestId == h.cid {
      assert ProbeAt(highestId, answers, h.cid - highestId) == Some(h);
    }
  }

  function Contests(hits: seq<Hit>): (cs: seq<CfContest>)
    ensures |cs| == |hits| && forall i :: 0 <= i < |hits| ==> cs[i] == hits[i].contest
  {
    seq(|hits|, i requires 0 <= i < |hits| => hits[i].contest)
  }

  /** `Array.from(problemsByContest.values()).flat().length` for distinct probed ids. */
  function TotalProblems(hits: seq<Hit>): nat {
    if hits == [] then 0 else |hits[0].problems| + TotalProblems(hits[1..])
  }

  /**
   * The whole route: 503 without a database, then the probe loop from the highest stored
   * id (0 for an empty store), "Already up to date" when nothing was found, otherwise
   * the insert-or-update loop and an ordered batch insert, whose failure is a 500.  The
   * cache-file write that follows (`cacheWritten` says whether it succeeded) runs inside the
   * same `try`, so its failure is a 500 too, with the database already changed.
   */
  method Sync(store: Store, dbReady: bool, answers: int -> Standings, now: int, cacheWritten: bool)
    returns (resp: SyncResponse, newStore: Store, highestId: int, probes: nat, found: seq<Hit>)
    ensures !dbReady ==> resp == SyncUnavailable && newStore == store
    ensures dbReady ==>
      (store == map[] ==> highestId == 0)
      && (store != map[] ==> highestId in store && forall k <- store :: k <= highestId)
      && found == AfterProbes(highestId, answers, probes).hits && 1 <= probes <= MaxProbes
    ensures resp == UpToDate <==> dbReady && found == []
    ensures resp == UpToDate ==> newStore == store
    ensures resp.Synced? ==>
      resp.contestsInserted + resp.contestsUpdated == resp.newContestsCount == |found|
      && resp.totalProblems == TotalProblems(found)
      && resp.remainingMissing.None?
      && forall h <- found :: h.contest.id in newStore && Sorting.SortedBy(newStore[h.contest.id].problems, ByIndex)
    ensures resp.Synced? ==>
      var contests := Contests(found);
      var m := ProblemsByCid(found);
      resp.contestsInserted == |PlannedInserts(store, contests, m, now)|
      && resp.contestsUpdated == CountStored(store, contests)
      && newStore == AddAll(AppliedUpdates(store, contests, m, now), PlannedInserts(store, contests, m, now))
    ensures dbReady && found != [] ==>
      var contests := Contests(found);
      var m := ProblemsByCid(found);
      var updated := AppliedUpdates(store, contests, m, now);
      var planned := PlannedInserts(store, contests, m, now);
      (resp.Synced? <==> FreshIds(updated, planned) && cacheWritten)
      && (resp == SyncFailed <==> !(FreshIds(updated, planned) && cacheWritten))
      && (FreshIds(updated, planned) ==> newStore == AddAll(updated, planned))
      && (!FreshIds(updated, planned) ==>
            exists n :: 0 <= n < |planned| && newStore == AddAll(updated, planned[..n])
                     && planned[n].id in AddAll(updated, planned[..n]))
    ensures forall k <- store :: k in newStore
    ensures WellKeyed(store) ==> WellKeyed(newStore)
  {
    found := [];
    probes := 0;
    highestId := 0;
    if !dbReady {
      return SyncUnavailable, store, highestId, probes, found;
    }
    highestId := MaxOrZero(store.Keys);
    if store != map[] { Seqs.EmptyWhenNoInt(store.Keys); }
    var misses, discovered;
    probes, misses, found, discovered := ProbeLoop(highestId, answers);
    if found == [] {
      return UpToDate, store, highestId, probes, found;
    }
    var contests := Contests(found);
    var updatedStore, toInsert, updated := InsertOrUpdate(store, contests, discovered, now);
    AppliedUpdatesEntries(store, contests, discovered, now);
    if WellKeyed(store) { AppliedUpdatesWellKeyed(store, contests, discovered, now); }
    var outcome := InsertMany(updatedStore, toInsert, true);
    assert !outcome.failed ==> FreshIds(updatedStore, toInsert);
    if toInsert != [] && outcome.failed {
      FailedOrderedInsert(updatedStore, toInsert);
      return SyncFailed, outcome.store, highestId, probes, found;
    }
    assert !outcome.failed by {
      if toInsert == [] { assert outcome == InsertOutcome(updatedStore, 0, false); }
    }
    if !cacheWritten {
      return SyncFailed, outcome.store, highestId, probes, found;
    }
    UpsertStoresSorted(store, contests, discovered, now, true);
    forall h <- found ensures h.contest in contests {
      var i :| 0 <= i < |found| && found[i] == h;
      assert contests[i] == h.contest;
    }
    newStore := outcome.store;
    resp := Synced(|toInsert|, updated, TotalProblems(found), |found|, None);
  }
}
