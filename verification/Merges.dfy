/** Dictionaries merged one into the other, later values winning, and the states in between. */
module Merges {

  type Dict = map<string, string>

  /** Everything merged into a base, later values winning. */
  function MergeAll(base: Dict, ds: seq<Dict>): Dict {
    if ds == [] then base else MergeAll(base, ds[..|ds| - 1]) + ds[|ds| - 1]
  }

  /** The running merges: the i-th is the base with the first i + 1 contents merged into it. */
  function RunningMerges(base: Dict, ds: seq<Dict>): (r: seq<Dict>)
    ensures |r| == |ds|
  {
    seq(|ds|, i requires 0 <= i < |ds| => MergeAll(base, ds[..i + 1]))
  }

  lemma MergeAllSnoc(base: Dict, ds: seq<Dict>, d: Dict)
    ensures MergeAll(base, ds + [d]) == MergeAll(base, ds) + d
  {
    assert (ds + [d])[..|ds|] == ds;
  }

  lemma RunningMergeAt(base: Dict, ds: seq<Dict>, d: Dict, i: nat)
    requires i < |ds|
    ensures RunningMerges(base, ds + [d])[i] == RunningMerges(base, ds)[i]
  {
    assert (ds + [d])[..i + 1] == ds[..i + 1];
  }

  lemma RunningMergesSnoc(base: Dict, ds: seq<Dict>, d: Dict)
    ensures RunningMerges(base, ds + [d]) == RunningMerges(base, ds) + [MergeAll(base, ds) + d]
  {
    var r := RunningMerges(base, ds + [d]);
    MergeAllSnoc(base, ds, d);
    assert (ds + [d])[..|ds| + 1] == ds + [d];
    assert r[|ds|] == MergeAll(base, ds) + d;
    forall i | 0 <= i < |ds|
      ensures r[i] == RunningMerges(base, ds)[i]
    {
      RunningMergeAt(base, ds, d, i);
    }
  }

  /** What is merged holds what the last content to name a key says of it. */
  lemma {:induction false} LastNamedWins(base: Dict, ds: seq<Dict>, j: nat, k: string)
    requires j < |ds| && k in ds[j] && forall n :: j < n < |ds| ==> k !in ds[n]
    ensures k in MergeAll(base, ds) && MergeAll(base, ds)[k] == ds[j][k]
    decreases |ds|
  {
    if j < |ds| - 1 {
      LastNamedWins(base, ds[..|ds| - 1], j, k);
    }
  }

  /** A key that none of them names is as it was in the base. */
  lemma {:induction false} UnnamedStays(base: Dict, ds: seq<Dict>, k: string)
    requires forall n :: 0 <= n < |ds| ==> k !in ds[n]
    ensures k in MergeAll(base, ds) <==> k in base
    ensures k in base ==> MergeAll(base, ds)[k] == base[k]
    decreases |ds|
  {
    if ds != [] {
      UnnamedStays(base, ds[..|ds| - 1], k);
    }
  }

  /** The i-th running merge is the base with the first i + 1 contents merged into it, the last to name a key winning. */
  lemma RunningMergeHolds(base: Dict, ds: seq<Dict>, i: nat, j: nat, k: string)
    requires j <= i < |ds| && k in ds[j] && forall n :: j < n <= i ==> k !in ds[n]
    ensures var r := RunningMerges(base, ds)[i]; k in r && r[k] == ds[j][k]
  {
    LastNamedWins(base, ds[..i + 1], j, k);
  }
}
