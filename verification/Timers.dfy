/** Timers that add up what each update brings: what it means that one runs out at a certain update. */
module Timers {
  function Sum(deltas: seq<int>): int {
    if deltas == [] then 0 else deltas[0] + Sum(deltas[1..])
  }

  predicate Positive(deltas: seq<int>) {
    forall i :: 0 <= i < |deltas| ==> deltas[i] > 0
  }

  /** A timer that stands at `timer` reaches `limit` at update `k`, and not before. */
  predicate Reaches(timer: int, deltas: seq<int>, k: nat, limit: int)
    requires k < |deltas|
  {
    timer + Sum(deltas[..k]) < limit <= timer + Sum(deltas[..k + 1])
  }

  lemma {:induction false} SumPositive(deltas: seq<int>)
    requires Positive(deltas)
    ensures Sum(deltas) >= 0
  {
    if deltas != [] { SumPositive(deltas[1..]); }
  }

  lemma FirstOfSum(deltas: seq<int>, k: nat)
    requires 0 < k <= |deltas|
    ensures Sum(deltas[..k]) == deltas[0] + Sum(deltas[1..][..k - 1])
  {
    assert deltas[..k][1..] == deltas[1..][..k - 1];
  }

  /** It does so at the first update if that brings it there, and otherwise when the rest of the updates do. */
  lemma ReachesNext(timer: int, deltas: seq<int>, k: nat, limit: int)
    requires k < |deltas| && Positive(deltas) && timer < limit
    ensures k == 0 ==> (Reaches(timer, deltas, k, limit) <==> timer + deltas[0] >= limit)
    ensures k > 0 && timer + deltas[0] >= limit ==> !Reaches(timer, deltas, k, limit)
    ensures k > 0 ==> (Reaches(timer, deltas, k, limit) <==> Reaches(timer + deltas[0], deltas[1..], k - 1, limit))
  {
    FirstOfSum(deltas, k + 1);
    assert deltas[1..][..0] == [];
    if k > 0 {
      FirstOfSum(deltas, k);
      SumPositive(deltas[1..][..k - 1]);
    }
  }
}
