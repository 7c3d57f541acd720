/** Searching a table in cyclic order from a position, as the scheduler does. */
module Cyclic {
  import opened Common

  /** How far `t` lies after `from` in a table of `n` entries, going around; `from` itself comes
      last. */
  function Dist(n: nat, from: nat, t: nat): (d: nat)
    requires from < n && t < n
    ensures 1 <= d <= n
  {
    if t > from then t - from else t + n - from
  }

  /** The first flagged entry after `from`. */
  ghost predicate IsNext(flags: seq<bool>, from: nat, t: nat)
    requires from < |flags|
  {
    t < |flags| && flags[t] &&
    forall u :: 0 <= u < |flags| && flags[u] ==> Dist(|flags|, from, t) <= Dist(|flags|, from, u)
  }

  function NextFrom(flags: seq<bool>, from: nat, d: nat): (r: Option<nat>)
    requires from < |flags| && 1 <= d <= |flags| + 1
    ensures r.Some? ==> r.value < |flags| && flags[r.value] && d <= Dist(|flags|, from, r.value)
    ensures r.Some? ==> forall u :: 0 <= u < |flags| && flags[u] && Dist(|flags|, from, u) >= d ==>
              Dist(|flags|, from, r.value) <= Dist(|flags|, from, u)
    ensures r.None? ==> forall u :: 0 <= u < |flags| && flags[u] ==> Dist(|flags|, from, u) < d
    decreases |flags| + 1 - d
  {
    if d > |flags| then None
    else
      var t := if from + d < |flags| then from + d else from + d - |flags|;
      if flags[t] then Some(t) else NextFrom(flags, from, d + 1)
  }

  /** The first flagged entry in cyclic order after `from`, if any entry is flagged. */
  function Next(flags: seq<bool>, from: nat): (r: Option<nat>)
    requires from < |flags|
    ensures r.Some? ==> IsNext(flags, from, r.value)
    ensures r.None? <==> forall u :: 0 <= u < |flags| ==> !flags[u]
  {
    NextFrom(flags, from, 1)
  }

  lemma NextUnique(flags: seq<bool>, from: nat, t: nat)
    requires from < |flags| && IsNext(flags, from, t)
    ensures Next(flags, from) == Some(t)
  {
  }

  /** One more hop of a scan that began at `start`: from `at` the next flagged entry is either
      further on, with nothing flagged between, or the scan has come around to its first entry. */
  lemma Hop(flags: seq<bool>, start: nat, at: nat, p: nat)
    requires start < |flags| && at < |flags| && IsNext(flags, at, p)
    ensures Dist(|flags|, start, p) > Dist(|flags|, start, at) ==>
              forall u :: 0 <= u < |flags| && flags[u] && Dist(|flags|, start, u) > Dist(|flags|, start, at) ==>
                Dist(|flags|, start, p) <= Dist(|flags|, start, u)
    ensures Dist(|flags|, start, p) <= Dist(|flags|, start, at) ==>
              && IsNext(flags, start, p)
              && forall u :: 0 <= u < |flags| && flags[u] ==> Dist(|flags|, start, u) <= Dist(|flags|, start, at)
  {
    var n := |flags|;
    forall u | 0 <= u < n && flags[u]
      ensures Dist(n, start, p) > Dist(n, start, at) && Dist(n, start, u) > Dist(n, start, at) ==>
              Dist(n, start, p) <= Dist(n, start, u)
      ensures Dist(n, start, p) <= Dist(n, start, at) ==>
              Dist(n, start, u) <= Dist(n, start, at) && Dist(n, start, p) <= Dist(n, start, u)
    {
      assert Dist(n, at, p) <= Dist(n, at, u);
    }
  }
}
