/**
 * The contest document store and the Codeforces objects the sync routes read.
 *
 * String fields use "" for a field that is absent or empty, which is exactly when the
 * source's `x || default` picks the default.  Numeric fields the source tests with
 * `typeof x === 'number'` are `Option<int>`.
 */
module ContestModel {
  import opened Wrappers
  import opened Strings
  import Sorting
  import Seqs

  /** Descriptive contest fields that every route copies through unchanged. */
  datatype ContestMeta = ContestMeta(
    preparedBy: string, websiteUrl: string, description: string, difficulty: Option<int>,
    kind: string, icpcRegion: string, country: string, city: string, season: string)

  /** A contest object of the Codeforces API (`contest.list` entries and `contest.standings` results). */
  datatype CfContest = CfContest(
    id: int, name: string, ctype: string, phase: string, frozen: bool,
    durationSeconds: Option<int>, startTimeSeconds: Option<int>, relativeTimeSeconds: Option<int>,
    meta: ContestMeta)

  /** A problem object of the Codeforces API; `tags` is `None` when it is not an array. */
  datatype CfProblem = CfProblem(
    contestId: int, index: string, name: string, ptype: string,
    rating: Option<int>, tags: Option<seq<string>>, points: Option<int>)

  /** A problem embedded in a stored contest document (the `IProblem` schema). */
  datatype StoredProblem = StoredProblem(
    contestId: int, index: string, name: string, ptype: string,
    rating: Option<int>, tags: seq<string>, points: Option<int>, solvedCount: Option<int>)

  /** A stored contest document (the `IContest` schema); `lastSynced` is a clock reading. */
  datatype StoredContest = StoredContest(
    id: int, name: string, ctype: string, phase: string, frozen: bool,
    durationSeconds: Option<int>, startTimeSeconds: int, relativeTimeSeconds: Option<int>,
    meta: ContestMeta, problems: seq<StoredProblem>, lastSynced: int)

  /** The contest collection, keyed by the unique `id` index. */
  type Store = map<int, StoredContest>

  ghost predicate WellKeyed(store: Store) {
    forall k <- store :: store[k].id == k
  }

  /** Outcome of one `contest.standings` request: a thrown error, or a response body. */
  datatype Standings =
    | StandingsFailed
    | StandingsAnswer(statusOk: bool, contest: Option<CfContest>, problems: Option<seq<CfProblem>>)

  /** Outcome of one `contest.list` request; `result` is `None` when it is not an array. */
  datatype ContestList =
    | ListFailed
    | ListAnswer(statusOk: bool, result: Option<seq<CfContest>>)

  /** `x || d` on a string. */
  function OrDefault(s: string, d: string): string {
    if s == "" then d else s
  }

  // ---------------- problem order ----------------

  /** The comparator `(a.index || '').localeCompare(b.index || '')`, with ordinal order. */
  predicate ByIndex(a: StoredProblem, b: StoredProblem) {
    StrLe(a.index, b.index)
  }

  lemma ByIndexTotalPreorder()
    ensures Sorting.TotalPreorder(ByIndex)
  {
    forall a: StoredProblem, b: StoredProblem ensures ByIndex(a, b) || ByIndex(b, a) {
      StrLeTotal(a.index, b.index);
    }
    forall a: StoredProblem, b: StoredProblem, c: StoredProblem | ByIndex(a, b) && ByIndex(b, c)
      ensures ByIndex(a, c)
    {
      StrLeTrans(a.index, b.index, c.index);
    }
  }

  /** The in-place `sort` of a contest's problems by index. */
  function SortProblems(ps: seq<StoredProblem>): (r: seq<StoredProblem>)
    ensures multiset(r) == multiset(ps)
    ensures Sorting.SortedBy(r, ByIndex)
  {
    ByIndexTotalPreorder();
    Sorting.SortBySorted(ps, ByIndex);
    Sorting.SortBy(ps, ByIndex)
  }

  predicate CfByIndex(a: CfProblem, b: CfProblem) {
    StrLe(a.index, b.index)
  }

  lemma CfByIndexTotalPreorder()
    ensures Sorting.TotalPreorder(CfByIndex)
  {
    forall a: CfProblem, b: CfProblem ensures CfByIndex(a, b) || CfByIndex(b, a) {
      StrLeTotal(a.index, b.index);
    }
    forall a: CfProblem, b: CfProblem, c: CfProblem | CfByIndex(a, b) && CfByIndex(b, c)
      ensures CfByIndex(a, c)
    {
      StrLeTrans(a.index, b.index, c.index);
    }
  }

  // ---------------- documents ----------------

  /** The copy of an upstream problem stored in a document: fields as given, `tags || []`. */
  function CopyProblem(p: CfProblem): StoredProblem {
    StoredProblem(p.contestId, p.index, p.name, p.ptype, p.rating, p.tags.GetOr([]), p.points, None)
  }

  function CopyProblems(ps: seq<CfProblem>): (r: seq<StoredProblem>)
    ensures |r| == |ps|
    ensures forall i :: 0 <= i < |ps| ==> r[i] == CopyProblem(ps[i])
  {
    if ps == [] then [] else [CopyProblem(ps[0])] + CopyProblems(ps[1..])
  }

  /** Copying a problem keeps its index, so inserting commutes with copying. */
  lemma {:induction false} InsertThenCopy(x: CfProblem, s: seq<CfProblem>)
    ensures CopyProblems(Sorting.Insert(x, s, CfByIndex)) == Sorting.Insert(CopyProblem(x), CopyProblems(s), ByIndex)
  {
    if s != [] && !CfByIndex(x, s[0]) {
      InsertThenCopy(x, s[1..]);
      assert CopyProblems(s)[1..] == CopyProblems(s[1..]);
    }
  }

  /** Sorting the upstream problems and then copying them equals copying and then sorting. */
  lemma {:induction false} SortThenCopy(s: seq<CfProblem>)
    ensures CopyProblems(Sorting.SortBy(s, CfByIndex)) == Sorting.SortBy(CopyProblems(s), ByIndex)
  {
    if s != [] {
      SortThenCopy(s[1..]);
      InsertThenCopy(s[0], Sorting.SortBy(s[1..], CfByIndex));
      assert CopyProblems(s)[1..] == CopyProblems(s[1..]);
    }
  }

  /**
   * The document the sync and refresh routes write for contest `c`: the problems sorted
   * in place by index and then copied, `startTimeSeconds || 0`, and `lastSynced` now.
   */
  function SyncDocument(c: CfContest, ps: seq<CfProblem>, now: int): (d: StoredContest)
    ensures d.id == c.id && d.lastSynced == now && d.startTimeSeconds == c.startTimeSeconds.GetOr(0)
    ensures d.name == c.name && d.ctype == c.ctype && d.phase == c.phase && d.frozen == c.frozen
    ensures d.durationSeconds == c.durationSeconds && d.relativeTimeSeconds == c.relativeTimeSeconds && d.meta == c.meta
    ensures d.problems == SortProblems(CopyProblems(ps))
    ensures Sorting.SortedBy(d.problems, ByIndex) && multiset(d.problems) == multiset(CopyProblems(ps))
  {
    SortThenCopy(ps);
    StoredContest(c.id, c.name, c.ctype, c.phase, c.frozen, c.durationSeconds,
      c.startTimeSeconds.GetOr(0), c.relativeTimeSeconds, c.meta,
      CopyProblems(Sorting.SortBy(ps, CfByIndex)), now)
  }

  /** The sync routes' reading of a probed problem: `contestId` forced, `type || 'PROGRAMMING'`, `tags || []`. */
  function NormalizeProblem(cid: int, p: CfProblem): CfProblem {
    CfProblem(cid, p.index, p.name, OrDefault(p.ptype, "PROGRAMMING"), p.rating, Some(p.tags.GetOr([])), p.points)
  }

  function NormalizeProblems(cid: int, ps: seq<CfProblem>): (r: seq<CfProblem>)
    ensures |r| == |ps|
    ensures forall i :: 0 <= i < |ps| ==> r[i] == NormalizeProblem(cid, ps[i])
    ensures forall p <- r :: p.contestId == cid && p.ptype != "" && p.tags.Some?
  {
    if ps == [] then [] else [NormalizeProblem(cid, ps[0])] + NormalizeProblems(cid, ps[1..])
  }

  /** The sync routes' `contestObj`: `type || 'PROGRAMMING'`, `phase || 'FINISHED'`, `durationSeconds || 0`. */
  function NormalizeContest(c: CfContest): CfContest {
    c.(ctype := OrDefault(c.ctype, "PROGRAMMING"), phase := OrDefault(c.phase, "FINISHED"),
       durationSeconds := Some(c.durationSeconds.GetOr(0)))
  }

  // ---------------- insert or update ----------------

  /** `problemsByContest.get(id) || []`. */
  function ProblemsFor(m: map<int, seq<CfProblem>>, id: int): seq<CfProblem> {
    if id in m then m[id] else []
  }

  /** The documents queued for the batch insert: those of contests whose id is not stored. */
  function PlannedInserts(store: Store, cs: seq<CfContest>, m: map<int, seq<CfProblem>>, now: int): (r: seq<StoredContest>)
    ensures forall d <- r :: d.id !in store
  {
    if cs == [] then []
    else
      var init := PlannedInserts(store, cs[..|cs| - 1], m, now);
      var c := cs[|cs| - 1];
      if c.id in store then init else init + [SyncDocument(c, ProblemsFor(m, c.id), now)]
  }

  /** Each queued document is the sorted document of one of the contests. */
  lemma {:induction false} PlannedInsertsAreDocuments(store: Store, cs: seq<CfContest>, m: map<int, seq<CfProblem>>, now: int)
    ensures forall d <- PlannedInserts(store, cs, m, now) ::
      Sorting.SortedBy(d.problems, ByIndex) && exists c <- cs :: d == SyncDocument(c, ProblemsFor(m, c.id), now)
  {
    if cs != [] {
      PlannedInsertsAreDocuments(store, cs[..|cs| - 1], m, now);
      assert forall x <- cs[..|cs| - 1] :: x in cs;
    }
  }

  /** The store after the in-loop `updateOne` calls for contests whose id is stored. */
  function AppliedUpdates(store: Store, cs: seq<CfContest>, m: map<int, seq<CfProblem>>, now: int): (r: Store)
    ensures r.Keys == store.Keys
  {
    if cs == [] then store
    else
      var init := AppliedUpdates(store, cs[..|cs| - 1], m, now);
      var c := cs[|cs| - 1];
      if c.id in store then init[c.id := SyncDocument(c, ProblemsFor(m, c.id), now)] else init
  }

  /** An entry the updates touch becomes the sorted document of a contest with that id. */
  lemma {:induction false} AppliedUpdatesEntries(store: Store, cs: seq<CfContest>, m: map<int, seq<CfProblem>>, now: int)
    ensures var r := AppliedUpdates(store, cs, m, now);
      forall k <- r :: r[k] == store[k] || exists c <- cs :: c.id == k && r[k] == SyncDocument(c, ProblemsFor(m, c.id), now)
  {
    if cs != [] {
      var init := cs[..|cs| - 1];
      var last := cs[|cs| - 1];
      AppliedUpdatesEntries(store, init, m, now);
      var prev := AppliedUpdates(store, init, m, now);
      var r := AppliedUpdates(store, cs, m, now);
      forall k <- r ensures r[k] == store[k] || exists c <- cs :: c.id == k && r[k] == SyncDocument(c, ProblemsFor(m, c.id), now) {
        if last.id in store && k == last.id {
          assert last in cs;
        } else {
          assert r[k] == prev[k];
          if prev[k] != store[k] {
            var c :| c in init && c.id == k && prev[k] == SyncDocument(c, ProblemsFor(m, c.id), now);
            assert c in cs;
          }
        }
      }
    }
  }

  /** The updates keep every entry under its own id. */
  lemma {:induction false} AppliedUpdatesWellKeyed(store: Store, cs: seq<CfContest>, m: map<int, seq<CfProblem>>, now: int)
    requires WellKeyed(store)
    ensures WellKeyed(AppliedUpdates(store, cs, m, now))
  {
    if cs != [] {
      AppliedUpdatesWellKeyed(store, cs[..|cs| - 1], m, now);
    }
  }

  /** How many contests of `cs` are already stored (`contestsUpdated`). */
  function CountStored(store: Store, cs: seq<CfContest>): (n: nat)
    ensures n <= |cs|
  {
    if cs == [] then 0
    else CountStored(store, cs[..|cs| - 1]) + (if cs[|cs| - 1].id in store then 1 else 0)
  }

  /** Every contest is either updated or queued for insertion. */
  lemma {:induction false} UpsertAccounting(store: Store, cs: seq<CfContest>, m: map<int, seq<CfProblem>>, now: int)
    ensures |PlannedInserts(store, cs, m, now)| + CountStored(store, cs) == |cs|
  {
    if cs != [] { UpsertAccounting(store, cs[..|cs| - 1], m, now); }
  }

  /** A contest whose id is not stored yet is queued for insertion. */
  lemma {:induction false} PlannedInsertsCover(store: Store, cs: seq<CfContest>, m: map<int, seq<CfProblem>>, now: int, i: nat)
    requires i < |cs| && cs[i].id !in store
    ensures SyncDocument(cs[i], ProblemsFor(m, cs[i].id), now) in PlannedInserts(store, cs, m, now)
  {
    if i < |cs| - 1 {
      PlannedInsertsCover(store, cs[..|cs| - 1], m, now, i);
    }
  }

  /** No contest is stored: nothing is updated. */
  lemma {:induction false} NothingStoredNoUpdates(store: Store, cs: seq<CfContest>, m: map<int, seq<CfProblem>>, now: int)
    requires forall c <- cs :: c.id !in store
    ensures CountStored(store, cs) == 0 && AppliedUpdates(store, cs, m, now) == store
  {
    if cs != [] {
      var init := cs[..|cs| - 1];
      assert forall c <- init :: c in cs;
      NothingStoredNoUpdates(store, init, m, now);
    }
  }

  /** No contest is stored: every contest is queued, in order. */
  lemma {:induction false} NothingStoredAllPlanned(store: Store, cs: seq<CfContest>, m: map<int, seq<CfProblem>>, now: int)
    requires forall c <- cs :: c.id !in store
    ensures |PlannedInserts(store, cs, m, now)| == |cs|
    ensures forall i :: 0 <= i < |cs| ==> PlannedInserts(store, cs, m, now)[i] == SyncDocument(cs[i], ProblemsFor(m, cs[i].id), now)
  {
    if cs != [] {
      var init := cs[..|cs| - 1];
      assert forall c <- init :: c in cs;
      assert cs[|cs| - 1] in cs;
      NothingStoredAllPlanned(store, init, m, now);
      DocumentsSnoc(cs, PlannedInserts(store, init, m, now), m, now);
    }
  }

  /** Documents aligned with all but the last contest, plus the last one's document, are aligned with all. */
  lemma DocumentsSnoc(cs: seq<CfContest>, docs: seq<StoredContest>, m: map<int, seq<CfProblem>>, now: int)
    requires |cs| > 0 && |docs| == |cs| - 1
    requires forall i :: 0 <= i < |docs| ==> docs[i] == SyncDocument(cs[..|cs| - 1][i], ProblemsFor(m, cs[..|cs| - 1][i].id), now)
    ensures var r := docs + [SyncDocument(cs[|cs| - 1], ProblemsFor(m, cs[|cs| - 1].id), now)];
      |r| == |cs| && forall i :: 0 <= i < |cs| ==> r[i] == SyncDocument(cs[i], ProblemsFor(m, cs[i].id), now)
  {
    var r := docs + [SyncDocument(cs[|cs| - 1], ProblemsFor(m, cs[|cs| - 1].id), now)];
    forall i | 0 <= i < |cs| ensures r[i] == SyncDocument(cs[i], ProblemsFor(m, cs[i].id), now) {
      if i < |docs| {
        assert cs[..|cs| - 1][i] == cs[i];
      }
    }
  }

  /** Every stored contest that the updates touch ends with sorted problems. */
  lemma {:induction false} AppliedUpdatesSorted(store: Store, cs: seq<CfContest>, m: map<int, seq<CfProblem>>, now: int)
    ensures forall c <- cs :: c.id in store ==> Sorting.SortedBy(AppliedUpdates(store, cs, m, now)[c.id].problems, ByIndex)
  {
    if cs != [] {
      var init := cs[..|cs| - 1];
      AppliedUpdatesSorted(store, init, m, now);
      forall c <- cs | c.id in store
        ensures Sorting.SortedBy(AppliedUpdates(store, cs, m, now)[c.id].problems, ByIndex)
      {
        if c.id != cs[|cs| - 1].id {
          assert c in init;
        }
      }
    }
  }

  /** One more stored contest: its document replaces the stored one and is counted. */
  lemma UpsertStored(store: Store, cs: seq<CfContest>, m: map<int, seq<CfProblem>>, now: int, i: nat)
    requires i < |cs| && cs[i].id in store
    ensures var doc := SyncDocument(cs[i], ProblemsFor(m, cs[i].id), now);
      AppliedUpdates(store, cs[..i + 1], m, now) == AppliedUpdates(store, cs[..i], m, now)[cs[i].id := doc]
      && PlannedInserts(store, cs[..i + 1], m, now) == PlannedInserts(store, cs[..i], m, now)
      && CountStored(store, cs[..i + 1]) == CountStored(store, cs[..i]) + 1
  {
    assert cs[..i + 1][..i] == cs[..i];
  }

  /** One more new contest: its document is queued and nothing else changes. */
  lemma UpsertNew(store: Store, cs: seq<CfContest>, m: map<int, seq<CfProblem>>, now: int, i: nat)
    requires i < |cs| && cs[i].id !in store
    ensures var doc := SyncDocument(cs[i], ProblemsFor(m, cs[i].id), now);
      AppliedUpdates(store, cs[..i + 1], m, now) == AppliedUpdates(store, cs[..i], m, now)
      && PlannedInserts(store, cs[..i + 1], m, now) == PlannedInserts(store, cs[..i], m, now) + [doc]
      && CountStored(store, cs[..i + 1]) == CountStored(store, cs[..i])
  {
    assert cs[..i + 1][..i] == cs[..i];
  }

  /** The body of the insert-or-update loop for the `i`-th contest. */
  method UpsertOne(store: Store, cs: seq<CfContest>, m: map<int, seq<CfProblem>>, now: int, i: nat,
                   store0: Store, queued0: seq<StoredContest>, updated0: nat)
    returns (updatedStore: Store, toInsert: seq<StoredContest>, updated: nat)
    requires i < |cs|
    requires store0 == AppliedUpdates(store, cs[..i], m, now)
    requires queued0 == PlannedInserts(store, cs[..i], m, now)
    requires updated0 == CountStored(store, cs[..i])
    ensures updatedStore == AppliedUpdates(store, cs[..i + 1], m, now)
    ensures toInsert == PlannedInserts(store, cs[..i + 1], m, now)
    ensures updated == CountStored(store, cs[..i + 1])
  {
    var c := cs[i];
    var doc := SyncDocument(c, ProblemsFor(m, c.id), now);
    if c.id in store0 {
      UpsertStored(store, cs, m, now, i);
      updatedStore, toInsert, updated := store0[c.id := doc], queued0, updated0 + 1;
    } else {
      UpsertNew(store, cs, m, now, i);
      updatedStore, toInsert, updated := store0, queued0 + [doc], updated0;
    }
  }

  /**
   * The insert-or-update loop shared by the probe and watermark syncs: for every
   * contest its problems are looked up by id, sorted and copied; a stored id is
   * updated in place and counted, any other is queued for one batch insert.
   */
  method InsertOrUpdate(store: Store, cs: seq<CfContest>, m: map<int, seq<CfProblem>>, now: int)
    returns (updatedStore: Store, toInsert: seq<StoredContest>, updated: nat)
    ensures updatedStore == AppliedUpdates(store, cs, m, now)
    ensures toInsert == PlannedInserts(store, cs, m, now)
    ensures updated == CountStored(store, cs)
    ensures |toInsert| + updated == |cs|
    ensures updatedStore.Keys == store.Keys && forall d <- toInsert :: d.id !in store
  {
    updatedStore, toInsert, updated := store, [], 0;
    var i := 0;
    while i < |cs|
      invariant 0 <= i <= |cs|
      invariant updatedStore == AppliedUpdates(store, cs[..i], m, now)
      invariant toInsert == PlannedInserts(store, cs[..i], m, now)
      invariant updated == CountStored(store, cs[..i])
    {
      updatedStore, toInsert, updated := UpsertOne(store, cs, m, now, i, updatedStore, toInsert, updated);
      i := i + 1;
    }
    assert cs[..i] == cs;
    UpsertAccounting(store, cs, m, now);
  }

  // ---------------- watermarks ----------------

  /** `findOne().sort({f: -1})` followed by `?.f || 0`: the largest value, or 0 for none. */
  method MaxOrZero(xs: set<int>) returns (m: int)
    ensures xs == {} ==> m == 0
    ensures xs != {} ==> m in xs && forall x <- xs :: x <= m
  {
    m := 0;
    var rest := xs;
    var seen: set<int> := {};
    while rest != {}
      invariant rest + seen == xs && rest !! seen
      invariant seen == {} ==> m == 0
      invariant seen != {} ==> m in seen && forall x <- seen :: x <= m
      decreases |rest|
    {
      Seqs.NonEmptyHasInt(rest);
      var y :| y in rest;
      if seen == {} || y > m {
        m := y;
      }
      rest := rest - {y};
      seen := seen + {y};
    }
  }

  // ---------------- batch insert ----------------

  /** Result of `insertMany`: the new store, how many documents went in, and whether it raised. */
  datatype InsertOutcome = InsertOutcome(store: Store, inserted: nat, failed: bool)

  /** The ids of `docs` are pairwise distinct and none is stored yet. */
  predicate FreshIds(store: Store, docs: seq<StoredContest>) {
    (forall i, j :: 0 <= i < j < |docs| ==> docs[i].id != docs[j].id)
    && (forall d <- docs :: d.id !in store)
  }

  /** The store after adding every document of `docs` under its id. */
  function AddAll(store: Store, docs: seq<StoredContest>): Store
    decreases |docs|
  {
    if docs == [] then store else AddAll(store[docs[0].id := docs[0]], docs[1..])
  }

  /** Adding documents whose ids differ from `k` leaves the entry under `k` alone. */
  lemma {:induction false} AddAllKeeps(store: Store, docs: seq<StoredContest>, k: int)
    requires k in store && forall d <- docs :: d.id != k
    ensures k in AddAll(store, docs) && AddAll(store, docs)[k] == store[k]
    decreases |docs|
  {
    if docs != [] {
      assert forall d <- docs[1..] :: d in docs;
      AddAllKeeps(store[docs[0].id := docs[0]], docs[1..], k);
    }
  }

  /** With fresh, distinct ids every added document is stored under its own id. */
  lemma {:induction false} AddAllHas(store: Store, docs: seq<StoredContest>, d: StoredContest)
    requires FreshIds(store, docs) && d in docs
    ensures d.id in AddAll(store, docs) && AddAll(store, docs)[d.id] == d
    decreases |docs|
  {
    var s1 := store[docs[0].id := docs[0]];
    if d == docs[0] {
      forall e <- docs[1..] ensures e.id != d.id {
        var j :| 0 <= j < |docs[1..]| && docs[1..][j] == e;
        assert docs[j + 1] == e;
      }
      AddAllKeeps(s1, docs[1..], d.id);
    } else {
      assert d in docs[1..];
      assert FreshIds(s1, docs[1..]) by {
        forall i, j | 0 <= i < j < |docs[1..]| ensures docs[1..][i].id != docs[1..][j].id {
          assert docs[1..][i] == docs[i + 1] && docs[1..][j] == docs[j + 1];
        }
        forall e <- docs[1..] ensures e.id !in s1 {
          var j :| 0 <= j < |docs[1..]| && docs[1..][j] == e;
          assert docs[j + 1] == e;
        }
      }
      AddAllHas(s1, docs[1..], d);
    }
  }

  /**
   * `insertMany` against the unique `id` index: documents are inserted in turn and one whose
   * id is already present fails with a duplicate-key error.  An ordered insert stops at the
   * first failure; an unordered one (`ordered: false`) skips it and goes on.  Either way a
   * failure makes the call raise after the successful documents were written.
   */
  function InsertMany(store: Store, docs: seq<StoredContest>, ordered: bool): (r: InsertOutcome)
    ensures r.inserted <= |docs|
    ensures forall k <- store :: k in r.store && r.store[k] == store[k]
    ensures WellKeyed(store) ==> WellKeyed(r.store)
    ensures FreshIds(store, docs) ==> r == InsertOutcome(AddAll(store, docs), |docs|, false)
    ensures !FreshIds(store, docs) ==> r.failed
    decreases |docs|
  {
    if docs == [] then InsertOutcome(store, 0, false)
    else if docs[0].id in store then
      if ordered then InsertOutcome(store, 0, true)
      else
        var rest := InsertMany(store, docs[1..], false);
        InsertOutcome(rest.store, rest.inserted, true)
    else
      var rest := InsertMany(store[docs[0].id := docs[0]], docs[1..], ordered);
      assert FreshIds(store, docs) ==> FreshIds(store[docs[0].id := docs[0]], docs[1..]);
      assert !FreshIds(store, docs) ==> !FreshIds(store[docs[0].id := docs[0]], docs[1..]) by {
        if !FreshIds(store, docs) && FreshIds(store[docs[0].id := docs[0]], docs[1..]) {
          forall i, j | 0 <= i < j < |docs| ensures docs[i].id != docs[j].id {
            if i == 0 { assert docs[j] == docs[1..][j - 1]; }
            else { assert docs[i] == docs[1..][i - 1] && docs[j] == docs[1..][j - 1]; }
          }
          forall d <- docs ensures d.id !in store {
            if d != docs[0] { assert d in docs[1..]; }
          }
          assert FreshIds(store, docs);
        }
      }
      InsertOutcome(rest.store, rest.inserted + 1, rest.failed)
  }

  /** Whatever `insertMany` leaves under a new key is one of the given documents, stored under its id. */
  lemma {:induction false} InsertManyAddsOnlyDocs(store: Store, docs: seq<StoredContest>, ordered: bool)
    ensures var r := InsertMany(store, docs, ordered).store;
      forall k <- r :: k in store || exists d <- docs :: d.id == k && r[k] == d
    decreases |docs|
  {
    if docs != [] {
      var r := InsertMany(store, docs, ordered).store;
      assert forall d <- docs[1..] :: d in docs;
      if docs[0].id in store {
        if !ordered { InsertManyAddsOnlyDocs(store, docs[1..], false); }
      } else {
        var s1 := store[docs[0].id := docs[0]];
        InsertManyAddsOnlyDocs(s1, docs[1..], ordered);
        assert r == InsertMany(s1, docs[1..], ordered).store;
        forall k <- r ensures k in store || exists d <- docs :: d.id == k && r[k] == d {
          if k == docs[0].id {
            assert r[k] == s1[k] == docs[0];
          }
        }
      }
    }
  }

  /** An ordered `insertMany` writes a prefix of the documents, all of them when it succeeds. */
  lemma {:induction false} OrderedInsertIsPrefix(store: Store, docs: seq<StoredContest>)
    ensures var r := InsertMany(store, docs, true);
      r.store == AddAll(store, docs[..r.inserted]) && (!r.failed ==> r.inserted == |docs|)
    decreases |docs|
  {
    if docs != [] && docs[0].id !in store {
      var s1 := store[docs[0].id := docs[0]];
      var rest := InsertMany(s1, docs[1..], true);
      assert InsertMany(store, docs, true) == InsertOutcome(rest.store, rest.inserted + 1, rest.failed);
      OrderedInsertIsPrefix(s1, docs[1..]);
      AddAllAfterFirst(store, docs, rest.inserted);
    } else if docs != [] {
      assert docs[..0] == [];
    }
  }

  /** A failed ordered insert stops at a document whose id is stored once its predecessors are. */
  lemma {:induction false} OrderedInsertStopsAtDuplicate(store: Store, docs: seq<StoredContest>)
    ensures var r := InsertMany(store, docs, true);
      r.failed ==> r.inserted < |docs| && docs[r.inserted].id in AddAll(store, docs[..r.inserted])
    decreases |docs|
  {
    if docs != [] && docs[0].id !in store {
      var s1 := store[docs[0].id := docs[0]];
      var rest := InsertMany(s1, docs[1..], true);
      assert InsertMany(store, docs, true) == InsertOutcome(rest.store, rest.inserted + 1, rest.failed);
      OrderedInsertStopsAtDuplicate(s1, docs[1..]);
      if rest.failed {
        DuplicateAfterFirst(store, docs, rest.inserted);
      }
    } else if docs != [] {
      assert docs[..0] == [];
    }
  }

  /** A failed ordered insert leaves the documents before the first duplicate inserted. */
  lemma FailedOrderedInsert(store: Store, docs: seq<StoredContest>)
    requires InsertMany(store, docs, true).failed
    ensures exists n :: 0 <= n < |docs| && InsertMany(store, docs, true).store == AddAll(store, docs[..n])
                     && docs[n].id in AddAll(store, docs[..n])
  {
    OrderedInsertIsPrefix(store, docs);
    OrderedInsertStopsAtDuplicate(store, docs);
  }

  /** Adding a prefix one longer is adding the first document, then the shorter prefix of the rest. */
  lemma AddAllAfterFirst(store: Store, docs: seq<StoredContest>, n: nat)
    requires n < |docs|
    ensures AddAll(store, docs[..n + 1]) == AddAll(store[docs[0].id := docs[0]], docs[1..][..n])
  {
    assert docs[..n + 1] == [docs[0]] + docs[1..][..n];
    AddAllCons(store, docs[0], docs[1..][..n]);
  }

  /** A duplicate after the first document's insertion is a duplicate of the prefix one longer. */
  lemma DuplicateAfterFirst(store: Store, docs: seq<StoredContest>, n: nat)
    requires n + 1 < |docs| && docs[1..][n].id in AddAll(store[docs[0].id := docs[0]], docs[1..][..n])
    ensures docs[n + 1].id in AddAll(store, docs[..n + 1])
  {
    AddAllAfterFirst(store, docs, n);
  }

  lemma AddAllCons(store: Store, d: StoredContest, ds: seq<StoredContest>)
    ensures AddAll(store, [d] + ds) == AddAll(store[d.id := d], ds)
  {
    assert ([d] + ds)[1..] == ds;
  }

  /**
   * After the updates and a batch insert that does not raise, every contest of the
   * batch is stored, with its problems sorted by index.
   */
  lemma UpsertStoresSorted(store: Store, cs: seq<CfContest>, m: map<int, seq<CfProblem>>, now: int, ordered: bool)
    requires !InsertMany(AppliedUpdates(store, cs, m, now), PlannedInserts(store, cs, m, now), ordered).failed
    ensures var r := InsertMany(AppliedUpdates(store, cs, m, now), PlannedInserts(store, cs, m, now), ordered).store;
      forall c <- cs :: c.id in r && Sorting.SortedBy(r[c.id].problems, ByIndex)
  {
    var updated := AppliedUpdates(store, cs, m, now);
    var planned := PlannedInserts(store, cs, m, now);
    var r := InsertMany(updated, planned, ordered).store;
    AppliedUpdatesSorted(store, cs, m, now);
    PlannedInsertsAreDocuments(store, cs, m, now);
    assert FreshIds(updated, planned);
    forall c <- cs ensures c.id in r && Sorting.SortedBy(r[c.id].problems, ByIndex) {
      if c.id in store {
        assert c.id in updated;
      } else {
        var i :| 0 <= i < |cs| && cs[i] == c;
        PlannedInsertsCover(store, cs, m, now, i);
        var d := SyncDocument(c, ProblemsFor(m, c.id), now);
        AddAllHas(updated, planned, d);
      }
    }
  }

  /** `Array.from(map.values()).flat().length`, reading the values in key order. */
  function MapTotal(keys: seq<int>, m: map<int, seq<CfProblem>>): nat {
    if keys == [] then 0
    else (if keys[0] in m then |m[keys[0]]| else 0) + MapTotal(keys[1..], m)
  }

  /** The result of a sync request; `remainingMissing` is reported by the missing-set variant only. */
  datatype SyncResponse =
    | SyncUnavailable
    | SyncFailed
    | UpToDate
    | Synced(contestsInserted: nat, contestsUpdated: nat, totalProblems: nat, newContestsCount: nat,
             remainingMissing: Option<nat>)
}
