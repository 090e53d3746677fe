/** The problem key `${contestId}-${index}` used by the statistics join, the solved set and the status map. */
module Keys {
  import opened Strings

  function ProblemKey(contestId: int, index: string): string {
    IntToString(contestId) + "-" + index
  }

  /** Position of the first '-' at or after `p`, or `|k|` when there is none. */
  function DashFrom(k: string, p: nat): nat
    decreases |k| - p
  {
    if p >= |k| then |k| else if k[p] == '-' then p else DashFrom(k, p + 1)
  }

  /** In a key the first '-' after the sign position ends the contest id. */
  lemma {:induction false} KeyDash(c: int, i: string, p: nat)
    requires 1 <= p <= |IntToString(c)|
    ensures DashFrom(ProblemKey(c, i), p) == |IntToString(c)|
    decreases |IntToString(c)| - p
  {
    var a := IntToString(c);
    var k := ProblemKey(c, i);
    if p < |a| {
      assert k[p] == a[1..][p - 1];
      KeyDash(c, i, p + 1);
    }
  }

  /** Distinct (contest, index) pairs never share a key, so joining on the key is joining on the pair. */
  lemma ProblemKeyInjective(c1: int, i1: string, c2: int, i2: string)
    requires ProblemKey(c1, i1) == ProblemKey(c2, i2)
    ensures c1 == c2 && i1 == i2
  {
    var a, b := IntToString(c1), IntToString(c2);
    var k := ProblemKey(c1, i1);
    KeyDash(c1, i1, 1);
    KeyDash(c2, i2, 1);
    assert k == a + "-" + i1 && k == b + "-" + i2;
    assert a == k[..|a|] == b;
    IntToStringInjective(c1, c2);
    assert i1 == k[|a| + 1..] == i2;
  }
}
