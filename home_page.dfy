/**
 * frontend/src/app/page.tsx: the home page's state.  It starts from browser storage (the
 * problem list only while it is at most an hour old), replaces the problems with the
 * server's list, merges a user's accepted submissions into the cached solved set, and
 * clears the user on reset.  The network answers and the clock are parameters.
 */
module HomePage {
  import opened Wrappers
  import Seqs
  import Strings
  import Sorting
  import Keys
  import opened FrontProblems
  import ProblemList

  // ---------------- the problems answer ----------------

  /** `/api/problems` answers either a plain array or a record of arrays (its `Object.values`, in order). */
  datatype ProblemsResponse = AsArray(list: seq<FrontProblem>) | AsRecord(groups: seq<seq<FrontProblem>>)

  /** `flattenProblemsResponse`. */
  function FlattenResponse(data: ProblemsResponse): (r: seq<FrontProblem>)
    ensures data.AsArray? ==> r == data.list
    ensures data.AsRecord? ==> |r| == Seqs.SumLengths(data.groups)
  {
    match data
    case AsArray(list) => list
    case AsRecord(groups) => Seqs.FlattenLength(groups); Seqs.Flatten(groups)
  }

  /** A record answer loses and invents no problem: its flattening holds exactly the grouped problems. */
  lemma FlattenKeepsEveryProblem(groups: seq<seq<FrontProblem>>, p: FrontProblem)
    ensures p in FlattenResponse(AsRecord(groups)) <==> exists i :: 0 <= i < |groups| && p in groups[i]
  {
    Seqs.FlattenMembership(groups, p);
  }

  /** The outcome of `fetch("http://localhost:4000/api/problems")`. */
  datatype ProblemsAnswer =
    | Unreachable(message: string)   // the fetch or the JSON parse threw
    | HttpError(status: int)         // `!res.ok`
    | Loaded(data: ProblemsResponse)

  // ---------------- the user answers ----------------

  /** A submission of `user.status`: the problem's contest and index, and the verdict if any. */
  datatype Submission = Submission(contestId: int, index: string, verdict: Option<string>)

  /** `user.status`: a status other than "OK" (or no answer at all) is an error; a missing `result` is empty. */
  datatype StatusAnswer = StatusFailed | StatusOk(result: Option<seq<Submission>>)

  /** `user.info`: `result[0]` is the user; an empty `result` gives `undefined`. */
  datatype InfoAnswer = InfoFailed | InfoOk(result: seq<UserInfo>)

  predicate Accepted(s: Submission) {
    s.verdict == Some("OK")
  }

  /** The keys of the accepted submissions. */
  function SolvedKeys(subs: seq<Submission>): (r: set<string>)
    ensures forall k :: k in r <==> exists s <- subs :: Accepted(s) && Keys.ProblemKey(s.contestId, s.index) == k
  {
    set s <- subs | Accepted(s) :: Keys.ProblemKey(s.contestId, s.index)
  }

  lemma SolvedKeysSnoc(subs: seq<Submission>, s: Submission)
    ensures SolvedKeys(subs + [s])
      == SolvedKeys(subs) + (if Accepted(s) then {Keys.ProblemKey(s.contestId, s.index)} else {})
  {
    forall x <- subs + [s] ensures x in subs || x == s { }
  }

  /** `submissions.forEach(...)`: the cached solves plus the key of every accepted submission. */
  method MergeSolved(solved: set<string>, subs: seq<Submission>) returns (r: set<string>)
    ensures r == solved + SolvedKeys(subs)
  {
    r := solved;
    for i := 0 to |subs|
      invariant r == solved + SolvedKeys(subs[..i])
    {
      SolvedKeysSnoc(subs[..i], subs[i]);
      assert subs[..i + 1] == subs[..i] + [subs[i]];
      if subs[i].verdict == Some("OK") {
        r := r + {Keys.ProblemKey(subs[i].contestId, subs[i].index)};
      }
    }
    assert subs[..|subs|] == subs;
  }

  /** What the solved set is after a refresh: unchanged when `user.status` failed. */
  function SolvedAfter(solved: set<string>, answer: StatusAnswer): set<string> {
    match answer
    case StatusFailed => solved
    case StatusOk(result) => solved + SolvedKeys(result.GetOr([]))
  }

  /** A refresh never forgets a solve, and a second refresh with the same answer adds nothing. */
  lemma RefreshOnlyAdds(solved: set<string>, answer: StatusAnswer)
    ensures solved <= SolvedAfter(solved, answer)
    ensures SolvedAfter(SolvedAfter(solved, answer), answer) == SolvedAfter(solved, answer)
  {
  }

  // ---------------- derived values ----------------

  /** `totalUnsolved`: the problems loaded minus the solves, never below zero. */
  function TotalUnsolved(problems: seq<FrontProblem>, solved: set<string>): (r: nat)
    ensures r >= |problems| - |solved|
    ensures r == 0 || r == |problems| - |solved|
    ensures |solved| <= |problems| ==> r + |solved| == |problems|
  {
    if |problems| - |solved| > 0 then |problems| - |solved| else 0
  }

  lemma StrLeTotalPreorder()
    ensures Sorting.TotalPreorder(Strings.StrLe)
  {
    forall a: string, b: string ensures Strings.StrLe(a, b) || Strings.StrLe(b, a) {
      Strings.StrLeTotal(a, b);
    }
    forall a: string, b: string, c: string | Strings.StrLe(a, b) && Strings.StrLe(b, c)
      ensures Strings.StrLe(a, c)
    {
      Strings.StrLeTrans(a, b, c);
    }
  }

  /** `allTags`: `Array.from(new Set(problems.flatMap(p => p.tags || []))).sort()`. */
  function SortedTags(problems: seq<FrontProblem>): seq<string> {
    Sorting.SortBy(Seqs.Distinct(AllTags(problems)), Strings.StrLe)
  }

  /** The tags are each tag of some problem once, in strictly increasing code-unit order. */
  lemma SortedTagsAreTheTagSet(problems: seq<FrontProblem>)
    ensures var r := SortedTags(problems);
      (forall t :: t in r <==> exists p <- problems :: t in TagsOf(p))
      && Seqs.NoDuplicates(r)
      && forall i, j :: 0 <= i < j < |r| ==> Strings.StrLess(r[i], r[j])
  {
    var d := Seqs.Distinct(AllTags(problems));
    var r := SortedTags(problems);
    StrLeTotalPreorder();
    Sorting.SortBySorted(d, Strings.StrLe);
    Seqs.PermutationKeepsDistinct(d, r);
    forall t ensures t in r <==> t in d {
      assert t in r <==> t in multiset(r);
    }
    forall i, j | 0 <= i < j < |r| ensures Strings.StrLess(r[i], r[j]) {
      assert Strings.StrLe(r[i], r[j]);
    }
  }

  // ---------------- the page ----------------

  function SavedTallyOf(storage: Storage): Tally {
    if TagCountsKey in storage && storage[TagCountsKey].SavedTally? then storage[TagCountsKey].tally
    else Tally(map[], [])
  }

  function SavedHandle(storage: Storage): Option<string> {
    if UserHandleKey in storage && storage[UserHandleKey].SavedText? then Some(storage[UserHandleKey].text)
    else None
  }

  function SavedUser(storage: Storage): Option<UserInfo> {
    if UserInfoKey in storage && storage[UserInfoKey].SavedInfo? then Some(storage[UserInfoKey].info)
    else None
  }

  function SavedSolvedSet(storage: Storage): set<string> {
    if UserSolvedKey in storage && storage[UserSolvedKey].SavedSolved? then storage[UserSolvedKey].solved
    else {}
  }

  /** `Home`'s state and the browser storage it owns. */
  class HomeState {
    var problems: seq<FrontProblem>
    var tagCounts: Tally
    var loading: bool
    var error: Option<string>
    var handleSubmitted: Option<string>
    var userInfo: Option<UserInfo>
    var userSolved: set<string>
    var storage: Storage

    /**
     * The lazy initialisers: the cached problems only while `now - ts <= CACHE_TTL` (the
     * same test as the problem list's), the saved counts, handle, user and solves, and
     * `loading` exactly when there are no problems yet.
     */
    constructor (saved: Storage, now: int)
      ensures problems == (match ProblemList.CachedLocal(saved, now) case Some(ps) => ps case None => [])
      ensures tagCounts == SavedTallyOf(saved) && handleSubmitted == SavedHandle(saved)
      ensures userInfo == SavedUser(saved) && userSolved == SavedSolvedSet(saved)
      ensures loading == (problems == []) && error == None && storage == saved
    {
      var entry := CacheEntry(saved);
      var initial := if entry.Some? && now - entry.value.ts <= CacheTtlMs then entry.value.problems else [];
      problems := initial;
      tagCounts := SavedTallyOf(saved);
      loading := initial == [];
      error := None;
      handleSubmitted := SavedHandle(saved);
      userInfo := SavedUser(saved);
      userSolved := SavedSolvedSet(saved);
      storage := saved;
    }

    /**
     * `fetchProblems`.  A loaded list replaces the problems and is cached with the time; its
     * tag counts replace the counts and are cached too.  A failure keeps the problems and
     * records the message.  Once the page is gone (`cancelled`) only the initial
     * `setLoading`/`setError(null)` take effect.
     */
    method FetchProblems(answer: ProblemsAnswer, now: int, cancelled: bool)
      modifies this
      ensures cancelled ==>
        problems == old(problems) && tagCounts == old(tagCounts) && storage == old(storage)
        && error == None && loading == (old(problems) == [] || old(loading))
      ensures !cancelled && answer.Loaded? ==>
        var all := FlattenResponse(answer.data);
        problems == all && tagCounts == TallyOf(AllTags(all)) && error == None && !loading
        && storage == old(storage)[ProblemsCacheKey := SavedProblems(now, all)][TagCountsKey := SavedTally(TallyOf(AllTags(all)))]
      ensures !cancelled && answer.Unreachable? ==>
        problems == old(problems) && tagCounts == old(tagCounts) && storage == old(storage)
        && error == Some(answer.message) && !loading
      ensures !cancelled && answer.HttpError? ==>
        problems == old(problems) && tagCounts == old(tagCounts) && storage == old(storage)
        && error == Some("HTTP error! status: " + Strings.IntToString(answer.status)) && !loading
      ensures handleSubmitted == old(handleSubmitted) && userInfo == old(userInfo) && userSolved == old(userSolved)
    {
      if problems == [] {
        loading := true;
      }
      error := None;
      if cancelled {
        return;
      }
      match answer {
        case Unreachable(message) =>
          error := Some(message);
        case HttpError(status) =>
          error := Some("HTTP error! status: " + Strings.IntToString(status));
        case Loaded(data) =>
          ApplyLoaded(FlattenResponse(data), now);
      }
      loading := false;
    }

    /** The successful part of `fetchProblems`: replace and cache the problems and their tag counts. */
    method ApplyLoaded(all: seq<FrontProblem>, now: int)
      modifies this
      ensures problems == all && tagCounts == TallyOf(AllTags(all))
      ensures storage == old(storage)[ProblemsCacheKey := SavedProblems(now, all)][TagCountsKey := SavedTally(TallyOf(AllTags(all)))]
      ensures handleSubmitted == old(handleSubmitted) && userInfo == old(userInfo) && userSolved == old(userSolved)
      ensures loading == old(loading) && error == old(error)
    {
      problems := all;
      storage := storage[ProblemsCacheKey := SavedProblems(now, all)];
      var tc := CountTags(all);
      tagCounts := tc;
      storage := storage[TagCountsKey := SavedTally(tc)];
    }

    /**
     * `fetchAndMergeUserData`.  A failed `user.status` changes nothing.  Otherwise the
     * accepted keys are merged into the solves, which are saved; then a failed `user.info`
     * stops there, and a good one replaces the user (an empty result clears it and its
     * storage entry).
     */
    method FetchAndMergeUserData(statusAnswer: StatusAnswer, infoAnswer: InfoAnswer)
      modifies this
      ensures userSolved == SolvedAfter(old(userSolved), statusAnswer)
      ensures statusAnswer.StatusFailed? ==> storage == old(storage) && userInfo == old(userInfo)
      ensures statusAnswer.StatusOk? && infoAnswer.InfoFailed? ==>
        storage == old(storage)[UserSolvedKey := SavedSolved(userSolved)] && userInfo == old(userInfo)
      ensures statusAnswer.StatusOk? && infoAnswer.InfoOk? && infoAnswer.result != [] ==>
        userInfo == Some(infoAnswer.result[0])
        && storage == old(storage)[UserSolvedKey := SavedSolved(userSolved)][UserInfoKey := SavedInfo(infoAnswer.result[0])]
      ensures statusAnswer.StatusOk? && infoAnswer.InfoOk? && infoAnswer.result == [] ==>
        userInfo == None
        && storage == old(storage)[UserSolvedKey := SavedSolved(userSolved)] - {UserInfoKey}
      ensures problems == old(problems) && tagCounts == old(tagCounts) && handleSubmitted == old(handleSubmitted)
      ensures loading == old(loading) && error == old(error)
    {
      if statusAnswer.StatusFailed? {
        return;
      }
      var submissions := statusAnswer.result.GetOr([]);
      var newSolved := MergeSolved(userSolved, submissions);
      userSolved := newSolved;
      storage := storage[UserSolvedKey := SavedSolved(newSolved)];
      if infoAnswer.InfoFailed? {
        return;
      }
      if infoAnswer.result != [] {
        var u := infoAnswer.result[0];
        userInfo := Some(u);
        storage := storage[UserInfoKey := SavedInfo(u)];
      } else {
        userInfo := None;
        storage := storage - {UserInfoKey};
      }
    }

    /** `handleSubmit`: the handle is kept and saved first, then the user data is refreshed. */
    method HandleSubmit(handle: string, statusAnswer: StatusAnswer, infoAnswer: InfoAnswer)
      modifies this
      ensures handleSubmitted == Some(handle)
      ensures userSolved == SolvedAfter(old(userSolved), statusAnswer)
      ensures UserHandleKey in storage && storage[UserHandleKey] == SavedText(handle)
      ensures statusAnswer.StatusFailed? ==>
        storage == old(storage)[UserHandleKey := SavedText(handle)] && userInfo == old(userInfo)
      ensures statusAnswer.StatusOk? && infoAnswer.InfoFailed? ==>
        storage == old(storage)[UserHandleKey := SavedText(handle)][UserSolvedKey := SavedSolved(userSolved)]
        && userInfo == old(userInfo)
      ensures statusAnswer.StatusOk? && infoAnswer.InfoOk? && infoAnswer.result != [] ==>
        userInfo == Some(infoAnswer.result[0])
        && storage == old(storage)[UserHandleKey := SavedText(handle)][UserSolvedKey := SavedSolved(userSolved)]
                                  [UserInfoKey := SavedInfo(infoAnswer.result[0])]
      ensures statusAnswer.StatusOk? && infoAnswer.InfoOk? && infoAnswer.result == [] ==>
        userInfo == None
        && storage == old(storage)[UserHandleKey := SavedText(handle)][UserSolvedKey := SavedSolved(userSolved)] - {UserInfoKey}
      ensures problems == old(problems) && tagCounts == old(tagCounts)
      ensures loading == old(loading) && error == old(error)
    {
      handleSubmitted := Some(handle);
      storage := storage[UserHandleKey := SavedText(handle)];
      FetchAndMergeUserData(statusAnswer, infoAnswer);
    }

    /** `handleReset`: no user, no handle, no solves, and their three storage entries gone. */
    method HandleReset()
      modifies this
      ensures userInfo == None && handleSubmitted == None && userSolved == {}
      ensures storage == old(storage) - {UserHandleKey, UserInfoKey, UserSolvedKey}
      ensures problems == old(problems) && tagCounts == old(tagCounts)
      ensures loading == old(loading) && error == old(error)
    {
      userInfo := None;
      handleSubmitted := None;
      userSolved := {};
      storage := storage - {UserHandleKey, UserInfoKey, UserSolvedKey};
    }
  }

  /** After a reset a reload starts with no user: the saved handle, user and solves are gone, the caches stay. */
  lemma ResetForgetsUser(storage: Storage)
    ensures var s := storage - {UserHandleKey, UserInfoKey, UserSolvedKey};
      SavedHandle(s) == None && SavedUser(s) == None && SavedSolvedSet(s) == {}
      && SavedTallyOf(s) == SavedTallyOf(storage) && CacheEntry(s) == CacheEntry(storage)
  {
  }
}
