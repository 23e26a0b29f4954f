/** Winner sampling (`draw_winners`): `min(k, n)` names drawn without
    replacement from the set of `n` distinct users. The random choice is
    left nondeterministic; only size, membership and distinctness are
    stated, not the distribution. */
module Sampler {
  import opened Optional
  import opened Participants

  function Min(a: int, b: int): int {
    if a < b then a else b
  }

  /** `random.sample(list(users), min(k, len(users)))`. A negative `k` makes
      the sample size negative, which `random.sample` rejects with a
      ValueError: that is the None result. */
  method DrawWinners(users: set<string>, k: int) returns (winners: Option<seq<string>>)
    ensures winners.None? <==> k < 0
    ensures winners.Some? ==> |winners.value| == Min(k, |users|)
    ensures winners.Some? ==> forall i :: 0 <= i < |winners.value| ==> winners.value[i] in users
    ensures winners.Some? ==> Distinct(winners.value)
  {
    if k < 0 {
      return None;
    }
    var target := Min(k, |users|);
    var picked: seq<string> := [];
    var pool := users;
    while |picked| < target
      invariant |picked| <= target
      invariant pool == users - SetOf(picked)
      invariant |pool| + |picked| == |users|
      invariant forall i :: 0 <= i < |picked| ==> picked[i] in users
      invariant Distinct(picked)
      decreases target - |picked|
    {
      var w :| w in pool;
      picked := picked + [w];
      pool := pool - {w};
    }
    return Some(picked);
  }
}
