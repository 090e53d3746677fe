/**
 * The problem record of the front end (frontend/src/types/index.ts), the tag tallies that
 * `computeTagCounts` in frontend/src/app/page.tsx and `tagCounts` in Ladder.tsx build, and
 * the browser storage both page.tsx and ProblemList.tsx read and write.
 */
module FrontProblems {
  import opened Wrappers
  import Seqs
  import Keys

  /** A problem as the front end receives it; `tags` may be absent in the JSON at run time. */
  datatype FrontProblem = FrontProblem(
    contestId: int, index: string, name: string, tags: Option<seq<string>>,
    rating: Option<int>, solvedCount: Option<int>, attemptCount: Option<int>)

  /** `p.tags || []`; `computeTagCounts` skips a problem whose `tags` is not an array, which counts the same. */
  function TagsOf(p: FrontProblem): seq<string> {
    p.tags.GetOr([])
  }

  /** A problem's status as the ladder records it. */
  datatype UserStatus = Unsolved | Solved | Failed

  /** The key `${contestId}-${index}` under which statuses and solves are recorded. */
  function Key(p: FrontProblem): string {
    Keys.ProblemKey(p.contestId, p.index)
  }

  /** `problems.flatMap(p => p.tags || [])`. */
  function AllTags(ps: seq<FrontProblem>): (r: seq<string>)
    ensures forall t :: t in r <==> exists p <- ps :: t in TagsOf(p)
  {
    if ps == [] then []
    else
      var init := ps[..|ps| - 1];
      var last := ps[|ps| - 1];
      assert forall p <- ps :: p in init || p == last;
      AllTags(init) + TagsOf(last)
  }

  /**
   * A `Record<string, number>` of counts built by `counts[t] = (counts[t] || 0) + 1`:
   * the counts and the insertion order of the keys, which is the order of `Object.values`.
   */
  datatype Tally = Tally(counts: map<string, nat>, order: seq<string>)

  function Bump(t: Tally, x: string): Tally {
    if x in t.counts then Tally(t.counts[x := t.counts[x] + 1], t.order)
    else Tally(t.counts[x := 1], t.order + [x])
  }

  /** The tally of a sequence of tags, counted from the first to the last. */
  function TallyOf(s: seq<string>): (r: Tally)
    ensures r.counts.Keys == set x <- s
  {
    if s == [] then Tally(map[], [])
    else
      assert s == s[..|s| - 1] + [s[|s| - 1]];
      Bump(TallyOf(s[..|s| - 1]), s[|s| - 1])
  }

  /** Each count is the number of occurrences, and the keys are in first-occurrence order. */
  lemma {:induction false} TallyCounts(s: seq<string>)
    ensures forall x <- TallyOf(s).counts :: TallyOf(s).counts[x] == multiset(s)[x]
    ensures TallyOf(s).order == Seqs.Distinct(s)
  {
    if s != [] {
      var init := s[..|s| - 1];
      var x := s[|s| - 1];
      assert s == init + [x];
      TallyCounts(init);
    }
  }

  /** `Object.values(counts).reduce((a, b) => a + b, 0)`: the values summed in key order. */
  function Sum(order: seq<string>, counts: map<string, nat>): nat {
    if order == [] then 0
    else
      var k := order[|order| - 1];
      Sum(order[..|order| - 1], counts) + (if k in counts then counts[k] else 0)
  }

  lemma {:induction false} SumOutside(order: seq<string>, counts: map<string, nat>, x: string, v: nat)
    requires x !in order
    ensures Sum(order, counts[x := v]) == Sum(order, counts)
  {
    if order != [] {
      SumOutside(order[..|order| - 1], counts, x, v);
    }
  }

  lemma {:induction false} SumBump(order: seq<string>, counts: map<string, nat>, x: string)
    requires x in order && x in counts && Seqs.NoDuplicates(order)
    ensures Sum(order, counts[x := counts[x] + 1]) == Sum(order, counts) + 1
  {
    var init := order[..|order| - 1];
    var k := order[|order| - 1];
    assert Seqs.NoDuplicates(init) by {
      forall i, j | 0 <= i < j < |init| ensures init[i] != init[j] {
        assert init[i] == order[i] && init[j] == order[j];
      }
    }
    if k == x {
      assert x !in init by {
        forall i | 0 <= i < |init| ensures init[i] != x {
          assert init[i] == order[i];
        }
      }
      SumOutside(init, counts, x, counts[x] + 1);
    } else {
      assert x in init by {
        var i :| 0 <= i < |order| && order[i] == x;
        assert init[i] == x;
      }
      SumBump(init, counts, x);
    }
  }

  /** The counts of a tally add up to the number of tags counted. */
  lemma {:induction false} TallySum(s: seq<string>)
    ensures Sum(TallyOf(s).order, TallyOf(s).counts) == |s|
  {
    if s != [] {
      var init := s[..|s| - 1];
      var x := s[|s| - 1];
      TallySum(init);
      TallyCounts(init);
      var t := TallyOf(init);
      if x in t.counts {
        assert x in init;
        SumBump(t.order, t.counts, x);
      } else {
        assert x !in t.order;
        SumOutside(t.order, t.counts, x, 1);
      }
    }
  }

  /**
   * The counting loops: for each problem with a tags array, for each of its tags, bump
   * that tag's count.  Each count is the number of occurrences of the tag across all
   * problems, the keys are exactly the tags that occur, in first-occurrence order, and
   * the counts add up to the number of tag occurrences.
   */
  method CountTags(ps: seq<FrontProblem>) returns (t: Tally)
    ensures t == TallyOf(AllTags(ps))
    ensures forall x :: x in t.counts <==> exists p <- ps :: x in TagsOf(p)
    ensures forall x <- t.counts :: t.counts[x] == multiset(AllTags(ps))[x]
    ensures t.order == Seqs.Distinct(AllTags(ps))
    ensures Sum(t.order, t.counts) == |AllTags(ps)|
  {
    t := Tally(map[], []);
    for i := 0 to |ps|
      invariant t == TallyOf(AllTags(ps[..i]))
    {
      var p := ps[i];
      assert ps[..i + 1][..i] == ps[..i] && ps[..i + 1][i] == p;
      if p.tags.Some? {
        t := CountEach(t, AllTags(ps[..i]), p.tags.value);
      } else {
        assert AllTags(ps[..i]) + TagsOf(p) == AllTags(ps[..i]);
      }
    }
    assert ps[..|ps|] == ps;
    TallyCounts(AllTags(ps));
    TallySum(AllTags(ps));
  }

  /** The inner loop: bumps each tag of one problem in turn. */
  method CountEach(t0: Tally, ghost before: seq<string>, tags: seq<string>) returns (t: Tally)
    requires t0 == TallyOf(before)
    ensures t == TallyOf(before + tags)
  {
    t := t0;
    assert before + tags[..0] == before;
    for j := 0 to |tags|
      invariant t == TallyOf(before + tags[..j])
    {
      ghost var next := before + tags[..j + 1];
      assert next[..|next| - 1] == before + tags[..j] && next[|next| - 1] == tags[j];
      assert TallyOf(next) == Bump(TallyOf(before + tags[..j]), tags[j]);
      t := Bump(t, tags[j]);
    }
    assert tags[..|tags|] == tags;
  }

  // ---------------- browser storage ----------------

  /** The storage keys and the one-hour lifetime of the cached problem list. */
  const ProblemsCacheKey := "cf_problems_cache_v1"
  const UserHandleKey := "cf_user_handle_v1"
  const UserInfoKey := "cf_user_info_v1"
  const UserSolvedKey := "cf_user_solved_v1"
  const TagCountsKey := "cf_tag_counts_v1"
  const CacheTtlMs := 1000 * 60 * 60

  /** A Codeforces user as `user.info` describes them. */
  datatype UserInfo = UserInfo(handle: string, rating: int, maxRating: int, rank: string, titlePhoto: string)

  /**
   * A stored value, standing for its JSON text; a value of the wrong shape stands for text
   * that does not parse to what the reader expects.
   */
  datatype Saved =
    | SavedProblems(ts: int, problems: seq<FrontProblem>)
    | SavedTally(tally: Tally)
    | SavedText(text: string)
    | SavedInfo(info: UserInfo)
    | SavedSolved(solved: set<string>)

  type Storage = map<string, Saved>

  /** The timestamped problem list under the cache key, if there is one. */
  function CacheEntry(storage: Storage): Option<Saved> {
    if ProblemsCacheKey in storage && storage[ProblemsCacheKey].SavedProblems? then Some(storage[ProblemsCacheKey])
    else None
  }
}
