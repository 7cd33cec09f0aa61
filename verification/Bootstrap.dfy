/** The comparison of two servers' views of the cluster layout. */
module Bootstrap {
  // PoolEndpoints; an endpoint is its String().
  datatype Pool = Pool(setCount: int, drivesPerSet: int, endpoints: seq<string>)

  datatype Config = Config(platform: string, pools: seq<Pool>)

  /** What Diff can come to; Panics is an index out of range. */
  datatype Verdict = Same | Differs | Panics

  function NEndpoints(pools: seq<Pool>): nat {
    if pools == [] then 0 else NEndpoints(pools[..|pools| - 1]) + |pools[|pools| - 1].endpoints|
  }

  // A layout as a server builds it: non-empty pools, fully populated.
  predicate WellFormed(c: Config) {
    forall i :: 0 <= i < |c.pools| ==>
      0 < |c.pools[i].endpoints| == c.pools[i].setCount * c.pools[i].drivesPerSet
  }

  method CountEndpoints(pools: seq<Pool>) returns (count: nat)
    ensures count == NEndpoints(pools)
  {
    count := 0;
    for i := 0 to |pools|
      invariant count == NEndpoints(pools[..i])
    {
      assert pools[..i + 1][..i] == pools[..i];
      count := count + |pools[i].endpoints|;
    }
    assert pools[..|pools|] == pools;
  }

  lemma {:induction false} MorePoolsMoreEndpoints(c: Config, n: nat)
    requires WellFormed(c) && n <= |c.pools|
    ensures NEndpoints(c.pools[..n]) <= NEndpoints(c.pools)
    ensures n < |c.pools| ==> NEndpoints(c.pools[..n]) < NEndpoints(c.pools)
    decreases |c.pools|
  {
    if n < |c.pools| {
      var front := c.(pools := c.pools[..|c.pools| - 1]);
      MorePoolsMoreEndpoints(front, n);
      assert front.pools[..n] == c.pools[..n];
    } else {
      assert c.pools[..n] == c.pools;
    }
  }

  // Everything compared in one pool agrees; b may list more endpoints.
  predicate Agree(a: Pool, b: Pool) {
    a.setCount == b.setCount && a.drivesPerSet == b.drivesPerSet && a.endpoints <= b.endpoints
  }

  // The comparison reaches pool i of s1.
  predicate AgreeUpTo(s1: Config, s2: Config, i: nat) {
    i <= |s1.pools| && i <= |s2.pools| && forall k :: 0 <= k < i ==> Agree(s1.pools[k], s2.pools[k])
  }

  predicate SameTotals(s1: Config, s2: Config) {
    s1.platform == s2.platform && NEndpoints(s1.pools) == NEndpoints(s2.pools)
  }

  // Pool i of s1 is compared against a missing pool or missing endpoints.
  predicate RunsOffAt(s1: Config, s2: Config, i: nat) {
    && AgreeUpTo(s1, s2, i) && i < |s1.pools|
    && (i == |s2.pools| ||
        var a, b := s1.pools[i], s2.pools[i];
        a.setCount == b.setCount && a.drivesPerSet == b.drivesPerSet && b.endpoints < a.endpoints)
  }

  /** Diff, for any two layouts: exactly when it finds no difference and
      exactly when it indexes out of range. */
  method Diff(s1: Config, s2: Config) returns (v: Verdict)
    ensures v == Same <==> SameTotals(s1, s2) && AgreeUpTo(s1, s2, |s1.pools|)
    ensures v == Panics <==> SameTotals(s1, s2) && exists i :: RunsOffAt(s1, s2, i)
  {
    if s1.platform != s2.platform {
      return Differs;
    }
    var n1 := CountEndpoints(s1.pools);
    var n2 := CountEndpoints(s2.pools);
    if n1 != n2 {
      return Differs;
    }
    for i := 0 to |s1.pools|
      invariant AgreeUpTo(s1, s2, i)
    {
      if i >= |s2.pools| {
        assert RunsOffAt(s1, s2, i);
        return Panics;
      }
      var ep, ep2 := s1.pools[i], s2.pools[i];
      if ep.setCount != ep2.setCount {
        return Differs;
      }
      if ep.drivesPerSet != ep2.drivesPerSet {
        return Differs;
      }
      for j := 0 to |ep.endpoints|
        invariant j <= |ep2.endpoints|
        invariant forall k :: 0 <= k < j ==> ep.endpoints[k] == ep2.endpoints[k]
      {
        if j >= |ep2.endpoints| {
          assert RunsOffAt(s1, s2, i);
          return Panics;
        }
        if ep.endpoints[j] != ep2.endpoints[j] {
          assert !Agree(ep, ep2) && !(ep2.endpoints < ep.endpoints);
          return Differs;
        }
      }
      assert Agree(ep, ep2);
    }
    return Same;
  }

  // Agreeing full pools are equal, so agreement pins down a prefix.
  lemma AgreeingPrefixIsEqual(s1: Config, s2: Config, i: nat)
    requires WellFormed(s1) && WellFormed(s2) && AgreeUpTo(s1, s2, i)
    ensures s1.pools[..i] == s2.pools[..i]
  {
    forall k | 0 <= k < i
      ensures s1.pools[k] == s2.pools[k]
    {
      assert Agree(s1.pools[k], s2.pools[k]);
    }
  }

  /** Between well-formed layouts Diff never indexes out of range, although
      the only length it compares is the total number of endpoints ... */
  lemma NeverRunsOff(s1: Config, s2: Config, i: nat)
    requires WellFormed(s1) && WellFormed(s2) && SameTotals(s1, s2)
    ensures !RunsOffAt(s1, s2, i)
  {
    if AgreeUpTo(s1, s2, i) && i < |s1.pools| {
      assert s2.pools[..|s2.pools|] == s2.pools;
      AgreeingPrefixIsEqual(s1, s2, i);
      MorePoolsMoreEndpoints(s1, i);
    }
  }

  /** ... and it finds no difference exactly when the layouts are equal, which
      makes "no difference" symmetric and transitive. */
  lemma SameMeansEqual(s1: Config, s2: Config)
    requires WellFormed(s1) && WellFormed(s2)
    ensures SameTotals(s1, s2) && AgreeUpTo(s1, s2, |s1.pools|) <==> s1 == s2
  {
    var n := |s1.pools|;
    if SameTotals(s1, s2) && AgreeUpTo(s1, s2, n) {
      AgreeingPrefixIsEqual(s1, s2, n);
      MorePoolsMoreEndpoints(s2, n);
      assert s1.pools[..n] == s1.pools;
      assert |s2.pools| == n ==> s2.pools[..n] == s2.pools;
    }
  }

  /** Without full pools the totals can hide the shape: these two layouts pass
      the length check and the comparison runs off the second one. */
  lemma UnfilledPoolsRunOff()
    ensures var s1 := Config("", [Pool(1, 2, ["x", "y"])]);
      var s2 := Config("", [Pool(1, 2, ["x"]), Pool(1, 2, ["y"])]);
      SameTotals(s1, s2) && RunsOffAt(s1, s2, 0)
  {
    var a, b := [Pool(1, 2, ["x"]), Pool(1, 2, ["y"])], [Pool(1, 2, ["x", "y"])];
    assert a[..1] == [Pool(1, 2, ["x"])] && a[..1][..0] == [] && b[..0] == [];
  }
}
