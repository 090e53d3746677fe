/**
 * `POST /sync` of backend/routes/contests.ts: fetch the contest list, keep the finished
 * contests that started after the latest stored start time and are not stored yet,
 * fetch each one's problems, then update or batch-insert them.
 */
module WatermarkSync {
  import opened Wrappers
  import Seqs
  import Sorting
  import opened ContestModel

  /** The filter of step 3. */
  predicate IsNew(store: Store, latest: int, c: CfContest) {
    c.phase == "FINISHED" && c.startTimeSeconds.Some? && c.startTimeSeconds.value > latest && c.id !in store
  }

  function NewContests(store: Store, latest: int, all: seq<CfContest>): (r: seq<CfContest>)
    ensures forall c <- r :: c in all && IsNew(store, latest, c)
    ensures forall c <- all :: IsNew(store, latest, c) ==> c in r
  {
    Seqs.Filter(all, c => IsNew(store, latest, c))
  }

  /** The start times of the stored contests, whose maximum (or 0) is the watermark `latestTime`. */
  function StartTimes(store: Store): set<int> {
    set k <- store :: store[k].startTimeSeconds
  }

  /** A new contest starts strictly after every stored contest. */
  lemma NewStartsAfterStored(store: Store, latest: int, all: seq<CfContest>)
    requires forall k <- store :: store[k].startTimeSeconds <= latest
    ensures forall c <- NewContests(store, latest, all), k <- store ::
      c.startTimeSeconds.value > store[k].startTimeSeconds && c.id != k
  {
  }

  /**
   * The problems recorded for one contest: the normalised problems of an OK answer that
   * has them, and an empty list for a missing list, a non-OK answer or a thrown error.
   */
  function ProblemsOf(id: int, answer: Standings): (ps: seq<CfProblem>)
    ensures forall p <- ps :: p.contestId == id && p.ptype != "" && p.tags.Some?
  {
    if answer.StandingsAnswer? && answer.statusOk && answer.problems.Some? then
      NormalizeProblems(id, answer.problems.value)
    else []
  }

  /** `problemsByContest` and its key order after the loop of step 4 over `cs`. */
  datatype Collected = Collected(problems: map<int, seq<CfProblem>>, keys: seq<int>)

  function CollectAll(cs: seq<CfContest>, answers: int -> Standings): (r: Collected)
    ensures r.problems.Keys == set k <- r.keys
  {
    if cs == [] then Collected(map[], [])
    else
      var prev := CollectAll(cs[..|cs| - 1], answers);
      var id := cs[|cs| - 1].id;
      Collected(prev.problems[id := ProblemsOf(id, answers(id))],
                prev.keys + (if id in prev.problems then [] else [id]))
  }

  /** Every contest of the loop has an entry, holding the problems of its own standings. */
  lemma {:induction false} CollectedEntries(cs: seq<CfContest>, answers: int -> Standings)
    ensures var r := CollectAll(cs, answers);
      forall c <- cs :: c.id in r.problems && r.problems[c.id] == ProblemsOf(c.id, answers(c.id))
  {
    if cs != [] {
      var init := cs[..|cs| - 1];
      CollectedEntries(init, answers);
      assert cs == init + [cs[|cs| - 1]];
    }
  }

  /** Every entry belongs to a contest of the loop. */
  lemma {:induction false} CollectedKeysFromLoop(cs: seq<CfContest>, answers: int -> Standings)
    ensures forall k <- CollectAll(cs, answers).problems :: exists c <- cs :: c.id == k
  {
    if cs != [] {
      var init := cs[..|cs| - 1];
      CollectedKeysFromLoop(init, answers);
      var id := cs[|cs| - 1].id;
      forall k <- CollectAll(cs, answers).problems ensures exists c <- cs :: c.id == k {
        if k == id {
          assert cs[|cs| - 1] in cs;
        } else {
          assert k in CollectAll(init, answers).problems;
          var c :| c in init && c.id == k;
          assert c in cs;
        }
      }
    }
  }

  /** The key order lists each id once. */
  lemma {:induction false} CollectedKeysDistinct(cs: seq<CfContest>, answers: int -> Standings)
    ensures Seqs.NoDuplicates(CollectAll(cs, answers).keys)
  {
    if cs != [] {
      var init := cs[..|cs| - 1];
      CollectedKeysDistinct(init, answers);
      var prev := CollectAll(init, answers);
      var id := cs[|cs| - 1].id;
      var r := CollectAll(cs, answers);
      if id !in prev.problems {
        assert r.keys == prev.keys + [id];
        assert id !in prev.keys;
        forall i, j | 0 <= i < j < |r.keys| ensures r.keys[i] != r.keys[j] {
          assert r.keys[i] == prev.keys[i];
          if j < |prev.keys| { assert r.keys[j] == prev.keys[j]; }
        }
      }
    }
  }

  /** The loop of step 4. */
  method CollectProblems(cs: seq<CfContest>, answers: int -> Standings) returns (r: Collected)
    ensures r == CollectAll(cs, answers)
  {
    r := Collected(map[], []);
    for i := 0 to |cs|
      invariant r == CollectAll(cs[..i], answers)
    {
      var id := cs[i].id;
      assert cs[..i + 1][..i] == cs[..i] && cs[..i + 1][i].id == id;
      var keys := r.keys + (if id in r.problems then [] else [id]);
      r := Collected(r.problems[id := ProblemsOf(id, answers(id))], keys);
    }
    assert cs[..|cs|] == cs;
  }

  /** Step 1: the latest stored start time, or 0 for an empty store. */
  method Watermark(store: Store) returns (latest: int)
    ensures store == map[] ==> latest == 0
    ensures store != map[] ==> latest in StartTimes(store)
    ensures forall k <- store :: store[k].startTimeSeconds <= latest
  {
    latest := MaxOrZero(StartTimes(store));
    if store != map[] {
      Seqs.EmptyWhenNoInt(store.Keys);
      var k0 :| k0 in store;
      assert store[k0].startTimeSeconds in StartTimes(store);
    }
    forall k <- store ensures store[k].startTimeSeconds <= latest {
      assert store[k].startTimeSeconds in StartTimes(store);
    }
  }

  /** After a batch insert that does not raise, every new contest is stored as the document of its own standings. */
  lemma InsertedDocuments(store: Store, cs: seq<CfContest>, answers: int -> Standings, now: int)
    requires forall c <- cs :: c.id !in store
    requires !InsertMany(store, PlannedInserts(store, cs, CollectAll(cs, answers).problems, now), true).failed
    ensures var docs := PlannedInserts(store, cs, CollectAll(cs, answers).problems, now);
      var r := InsertMany(store, docs, true).store;
      r == AddAll(store, docs)
      && forall c <- cs :: c.id in r && r[c.id] == SyncDocument(c, ProblemsOf(c.id, answers(c.id)), now)
  {
    var m := CollectAll(cs, answers).problems;
    var docs := PlannedInserts(store, cs, m, now);
    CollectedEntries(cs, answers);
    CollectedKeysFromLoop(cs, answers);
    CollectedKeysDistinct(cs, answers);
    NothingStoredAllPlanned(store, cs, m, now);
    assert FreshIds(store, docs);
    forall c <- cs ensures c.id in AddAll(store, docs) && AddAll(store, docs)[c.id] == SyncDocument(c, ProblemsOf(c.id, answers(c.id)), now) {
      var i :| 0 <= i < |cs| && cs[i] == c;
      assert ProblemsFor(m, c.id) == ProblemsOf(c.id, answers(c.id));
      assert docs[i] == SyncDocument(c, ProblemsOf(c.id, answers(c.id)), now);
      AddAllHas(store, docs, docs[i]);
    }
  }

  /**
   * The whole route: 503 without a database, 500 when the contest list fails or is not
   * OK, "Already up to date" when nothing is new, otherwise the problems loop, the
   * insert-or-update loop and an ordered batch insert, whose failure is a 500.  The
   * cache-file write that follows (`cacheWritten` says whether it succeeded) runs inside the
   * same `try`, so its failure is a 500 too, with the database already changed.
   */
  method Sync(store: Store, dbReady: bool, list: ContestList, answers: int -> Standings, now: int, cacheWritten: bool)
    returns (resp: SyncResponse, newStore: Store, latest: int)
    ensures !dbReady ==> resp == SyncUnavailable && newStore == store
    ensures dbReady ==>
      (store == map[] ==> latest == 0)
      && (store != map[] ==> latest in StartTimes(store) && forall k <- store :: store[k].startTimeSeconds <= latest)
    ensures dbReady && !(list.ListAnswer? && list.statusOk && list.result.Some?) ==>
      resp == SyncFailed && newStore == store
    ensures resp == UpToDate <==>
      dbReady && list.ListAnswer? && list.statusOk && list.result.Some? && NewContests(store, latest, list.result.value) == []
    ensures resp == UpToDate ==> newStore == store
    ensures resp.Synced? ==>
      var cs := NewContests(store, latest, list.result.value);
      var collected := CollectAll(cs, answers);
      resp == Synced(|cs|, 0, MapTotal(collected.keys, collected.problems), |cs|, None)
      && newStore == AddAll(store, PlannedInserts(store, cs, collected.problems, now))
      && forall c <- cs :: c.id in newStore
           && newStore[c.id] == SyncDocument(c, ProblemsOf(c.id, answers(c.id)), now)
    ensures dbReady && list.ListAnswer? && list.statusOk && list.result.Some?
            && NewContests(store, latest, list.result.value) != [] ==>
      var cs := NewContests(store, latest, list.result.value);
      var planned := PlannedInserts(store, cs, CollectAll(cs, answers).problems, now);
      (resp.Synced? <==> Seqs.NoDuplicates(Ids(cs)) && cacheWritten)
      && (resp == SyncFailed <==> !(Seqs.NoDuplicates(Ids(cs)) && cacheWritten))
      && (Seqs.NoDuplicates(Ids(cs)) ==> newStore == AddAll(store, planned))
      && (!Seqs.NoDuplicates(Ids(cs)) ==>
            exists n :: 0 <= n < |planned| && newStore == AddAll(store, planned[..n])
                     && planned[n].id in AddAll(store, planned[..n]))
    ensures forall k <- store :: k in newStore && newStore[k] == store[k]
    ensures WellKeyed(store) ==> WellKeyed(newStore)
  {
    latest := 0;
    if !dbReady {
      return SyncUnavailable, store, latest;
    }
    latest := Watermark(store);
    if !(list.ListAnswer? && list.statusOk && list.result.Some?) {
      return SyncFailed, store, latest;
    }
    var cs := NewContests(store, latest, list.result.value);
    if cs == [] {
      return UpToDate, store, latest;
    }
    var collected := CollectProblems(cs, answers);
    var updatedStore, toInsert, updated := InsertOrUpdate(store, cs, collected.problems, now);
    NothingStoredNoUpdates(store, cs, collected.problems, now);
    NothingStoredAllPlanned(store, cs, collected.problems, now);
    var outcome := InsertMany(updatedStore, toInsert, true);
    newStore := outcome.store;
    InsertFailsOnlyOnRepeatedId(store, latest, list.result.value, answers, now);
    if outcome.failed {
      FailedOrderedInsert(updatedStore, toInsert);
      return SyncFailed, newStore, latest;
    }
    InsertedDocuments(store, cs, answers, now);
    if !cacheWritten {
      return SyncFailed, newStore, latest;
    }
    resp := Synced(|toInsert|, updated, MapTotal(collected.keys, collected.problems), |cs|, None);
  }

  /**
   * The batch insert raises exactly when the list names a new contest twice: with
   * distinct ids every new contest is inserted.
   */
  lemma InsertFailsOnlyOnRepeatedId(store: Store, latest: int, all: seq<CfContest>, answers: int -> Standings, now: int)
    ensures var cs := NewContests(store, latest, all);
      var m := CollectAll(cs, answers).problems;
      InsertMany(store, PlannedInserts(store, cs, m, now), true).failed <==> !Seqs.NoDuplicates(Ids(cs))
  {
    var cs := NewContests(store, latest, all);
    var m := CollectAll(cs, answers).problems;
    NothingStoredAllPlanned(store, cs, m, now);
    FreshIffDistinct(store, cs, PlannedInserts(store, cs, m, now));
  }

  lemma FreshIffDistinct(store: Store, cs: seq<CfContest>, docs: seq<StoredContest>)
    requires |docs| == |cs| && forall i :: 0 <= i < |cs| ==> docs[i].id == cs[i].id && cs[i].id !in store
    ensures FreshIds(store, docs) <==> Seqs.NoDuplicates(Ids(cs))
  {
    if Seqs.NoDuplicates(Ids(cs)) {
      forall i, j | 0 <= i < j < |docs| ensures docs[i].id != docs[j].id {
        assert Ids(cs)[i] != Ids(cs)[j];
      }
      forall d <- docs ensures d.id !in store {
        var i :| 0 <= i < |docs| && docs[i] == d;
      }
    } else {
      var i, j :| 0 <= i < j < |cs| && Ids(cs)[i] == Ids(cs)[j];
      assert docs[i].id == docs[j].id;
    }
  }

  function Ids(cs: seq<CfContest>): (r: seq<int>)
    ensures |r| == |cs| && forall i :: 0 <= i < |cs| ==> r[i] == cs[i].id
  {
    seq(|cs|, i requires 0 <= i < |cs| => cs[i].id)
  }
}
