/**
 The size of a simulation: from two of the number of hosts, the branching factor and
 the depth, the third. A value of 0 stands for one that is not set.
 */
module BuildHosts {

  import opened Arena
  import opened Arith
  import opened BigNary
  import opened Geometric
  import opened Wrappers

  /** None is a fatal error. The floating-point quotient is taken over the integers, where it is exact. */
  function CalcHosts(bf: int, depth: int): (r: Option<int>)
    ensures r.None? <==> bf <= 0 || depth <= 0
  {
    if bf <= 0 then None
    else if depth <= 0 then None
    else if bf == 1 then Some(depth + 1)
    else Some((1 - Pow(bf, depth + 1)) / (1 - bf))
  }

  /** The number of hosts is that of all the levels down to `depth`. */
  lemma {:induction false} CalcHostsIsGeo(bf: int, depth: int)
    requires bf > 0 && depth > 0
    ensures CalcHosts(bf, depth) == Some(Geo(bf, depth + 1))
  {
    if bf == 1 {
      GeoOfOne(depth + 1);
    } else {
      GeoClosedForm(bf, depth + 1);
      ExactQuotient(bf - 1, Geo(bf, depth + 1));
    }
  }

  lemma {:induction false} GeoOfOne(k: nat)
    ensures Geo(1, k) == k && Pow(1, k) == 1
  {
    if k > 0 {
      GeoOfOne(k - 1);
    }
  }

  lemma {:induction false} ExactQuotient(y: int, g: int)
    requires y > 0
    ensures -(y * g) / -y == g
  {
    var q := -(y * g) / -y;
    assert -(y * g) == -y * q + -(y * g) % -y;
    assert 0 <= -(y * g) % -y < y;
    if q < g {
      MulMonotone(y, q + 1, g);
      Distribute(y, q, 1);
    } else if q > g {
      MulMonotone(y, g + 1, q);
      Distribute(y, g, 1);
    }
  }

  ghost predicate Fits(bf: int, depth: int, hosts: int) {
    bf >= 1 && depth >= 1 && Geo(bf, depth + 1) >= hosts
  }

  /** The least depth, from 1 on, at which `hosts` nodes fit. */
  ghost predicate LeastDepth(bf: int, hosts: int, depth: int) {
    Fits(bf, depth, hosts) && forall d :: 1 <= d < depth ==> !Fits(bf, d, hosts)
  }

  ghost predicate LeastBF(bf: int, hosts: int, depth: int) {
    Fits(bf, depth, hosts) && forall b :: 1 <= b < bf ==> !Fits(b, depth, hosts)
  }

  datatype Config = Fatal | Config(hosts: int, bf: int, depth: int)

  lemma {:induction false} DeepEnough(bf: nat, depth: nat)
    requires bf >= 1
    ensures Geo(bf, depth + 1) >= depth + 1
  {
    GeoMonotone(bf, 0, depth + 1);
  }

  lemma {:induction false} WideEnough(bf: nat, depth: nat)
    requires bf >= 1 && depth >= 1
    ensures Geo(bf, depth + 1) >= bf + 1
  {
    assert Pow(bf, 0) == 1 && Pow(bf, 1) == bf;
    assert Geo(bf, 1) == 1 && Geo(bf, 2) == 1 + bf;
    GeoMonotone(bf, 2, depth + 1);
  }

  method FindBF(hosts: int, depth: int) returns (bf: int)
    requires depth > 0
    ensures LeastBF(bf, hosts, depth)
  {
    bf := 1;
    CalcHostsIsGeo(bf, depth);
    while CalcHosts(bf, depth).value < hosts
      invariant bf >= 1 && CalcHosts(bf, depth) == Some(Geo(bf, depth + 1))
      invariant forall b :: 1 <= b < bf ==> !Fits(b, depth, hosts)
      decreases hosts - bf
    {
      WideEnough(bf, depth);
      bf := bf + 1;
      CalcHostsIsGeo(bf, depth);
    }
  }

  method FindDepth(hosts: int, bf: int) returns (depth: int)
    requires bf > 0
    ensures LeastDepth(bf, hosts, depth)
  {
    depth := 1;
    CalcHostsIsGeo(bf, depth);
    while CalcHosts(bf, depth).value < hosts
      invariant depth >= 1 && CalcHosts(bf, depth) == Some(Geo(bf, depth + 1))
      invariant forall d :: 1 <= d < depth ==> !Fits(bf, d, hosts)
      decreases hosts - depth
    {
      DeepEnough(bf, depth);
      depth := depth + 1;
      CalcHostsIsGeo(bf, depth);
    }
  }

  /** The value that is not set is filled in; it is fatal when it cannot be. */
  method CheckHosts(hosts: int, bf: int, depth: int) returns (r: Config)
    ensures r.Fatal? <==>
      if hosts == 0 then bf <= 0 || depth <= 0 else (bf == 0 && depth <= 0) || (bf < 0 && depth == 0)
    ensures r.Config? && hosts == 0 ==> r == Config(Geo(bf, depth + 1), bf, depth)
    ensures r.Config? && hosts != 0 ==> r.hosts == hosts
    ensures r.Config? && hosts != 0 && bf == 0 ==> r.depth == depth && LeastBF(r.bf, hosts, depth)
    ensures r.Config? && hosts != 0 && bf != 0 && depth == 0 ==> r.bf == bf && LeastDepth(bf, hosts, r.depth)
    ensures r.Config? && hosts != 0 && bf != 0 && depth != 0 ==> r == Config(hosts, bf, depth)
  {
    if hosts == 0 {
      if depth == 0 || bf == 0 {
        return Fatal;
      }
      var h := CalcHosts(bf, depth);
      if h.None? {
        return Fatal;
      }
      CalcHostsIsGeo(bf, depth);
      return Config(h.value, bf, depth);
    } else if bf == 0 {
      if depth <= 0 {
        return Fatal;
      }
      var b := FindBF(hosts, depth);
      return Config(hosts, b, depth);
    } else if depth == 0 {
      if bf < 0 {
        return Fatal;
      }
      var d := FindDepth(hosts, bf);
      return Config(hosts, bf, d);
    }
    r := Config(hosts, bf, depth);
  }

  // ----- the tree that the simulation builds

  /** The last node of a tree filled level by level is on the first level that takes all nodes. */
  lemma {:induction false} HeightOf(t: seq<Node>, bf: nat, d: nat)
    requires HasParents(t) && bf >= 1 && FilledByLevel(t, bf) && OnLevel(bf, d, |t| - 1)
    ensures HeightIs(t, d)
  {
    var j: nat := |t| - 1;
    LastIsDeepest(t, bf);
    assert OnLevel(bf, Depth(t, j), j);
    GeoLevelUnique(bf, Depth(t, j), d, j);
  }

  /** The computed depth is the depth of the tree if and only if there are at least two hosts. */
  lemma {:induction false} DepthOfTheTree(t: seq<Node>, bf: nat, depth: nat)
    requires HasParents(t) && bf >= 1 && FilledByLevel(t, bf) && LeastDepth(bf, |t|, depth)
    ensures HeightIs(t, depth) <==> |t| >= 2
  {
    hide Geo, Depth;
    if |t| >= 2 {
      LastLevel(bf, |t|, depth);
      HeightOf(t, bf, depth);
    } else {
      assert OnLevel(bf, Depth(t, 0), 0);
      FirstLevel(bf, Depth(t, 0));
    }
  }

  lemma {:induction false} LastLevel(bf: nat, hosts: nat, depth: nat)
    requires LeastDepth(bf, hosts, depth) && hosts >= 2
    ensures OnLevel(bf, depth, hosts - 1)
  {
    if depth == 1 {
      assert Geo(bf, 1) == 1;
    } else {
      assert !Fits(bf, depth - 1, hosts);
    }
  }

  lemma {:induction false} FirstLevel(bf: nat, k: nat)
    requires bf >= 1 && OnLevel(bf, k, 0)
    ensures k == 0
  {
    assert Geo(bf, 0) == 0 && Geo(bf, 1) == 1;
    GeoLevelUnique(bf, k, 0, 0);
  }

  /** With the computed branching factor the tree stays within the depth that was asked for. */
  lemma {:induction false} DepthIsEnough(t: seq<Node>, bf: nat, depth: nat)
    requires HasParents(t) && bf >= 1 && FilledByLevel(t, bf) && LeastBF(bf, |t|, depth)
    ensures exists h: nat :: h <= depth && HeightIs(t, h)
  {
    var j: nat := |t| - 1;
    LastIsDeepest(t, bf);
    var h := Depth(t, j);
    assert OnLevel(bf, h, j);
    if h > depth {
      GeoMonotone(bf, depth + 1, h);
    }
  }

  /** With the computed number of hosts the tree is perfect. */
  lemma {:induction false} HostsFillTheTree(t: seq<Node>, bf: nat, depth: nat)
    requires HasParents(t) && bf >= 1 && depth >= 1 && FilledByLevel(t, bf)
    requires CalcHosts(bf, depth) == Some(|t|)
    ensures HeightIs(t, depth)
    ensures forall k: nat :: k <= depth ==> |Level(t, k)| == Pow(bf, k)
  {
    CalcHostsIsGeo(bf, depth);
    PerfectTree(t, bf, depth);
  }

  lemma {:induction false} PowGrows(b: nat, c: nat, e: nat)
    requires b <= c
    ensures Pow(b, e) <= Pow(c, e)
  {
    if e > 0 {
      PowGrows(b, c, e - 1);
      MulMonotone(b, Pow(b, e - 1), Pow(c, e - 1));
      MulMonotone(Pow(c, e - 1), b, c);
    }
  }

  lemma {:induction false} GeoGrows(b: nat, c: nat, k: nat)
    requires b <= c
    ensures Geo(b, k) <= Geo(c, k)
  {
    if k > 0 {
      GeoGrows(b, c, k - 1);
      PowGrows(b, c, k - 1);
    }
  }

  /** A depth gives back the branching factor exactly if the next smaller one is too small for it and it is not. */
  lemma {:induction false} DepthGivesBack(bf: nat, hosts: int, depth: nat)
    requires bf >= 1 && depth >= 1
    ensures LeastBF(bf, hosts, depth) <==> hosts <= Geo(bf, depth + 1) && (bf == 1 || Geo(bf - 1, depth + 1) < hosts)
  {
    if bf > 1 {
      assert !Fits(bf - 1, depth, hosts) <==> Geo(bf - 1, depth + 1) < hosts;
      forall b | 1 <= b < bf && Fits(b, depth, hosts) ensures Fits(bf - 1, depth, hosts) {
        GeoGrows(b, bf - 1, depth + 1);
      }
    }
  }

  /** Thirteen hosts: a branching factor of 3 goes with depth 2, and depth 3 with a branching factor of 2. */
  lemma {:induction false} ThirteenHosts()
    ensures LeastDepth(3, 13, 2) && LeastBF(2, 13, 3)
  {
    assert Pow(3, 1) == 3 && Pow(3, 2) == 9;
    assert Geo(3, 2) == 4 && Geo(3, 3) == 13;
    assert Pow(2, 1) == 2 && Pow(2, 2) == 4 && Pow(2, 3) == 8;
    assert Geo(2, 2) == 3 && Geo(2, 3) == 7 && Geo(2, 4) == 15;
    GeoOfOne(4);
  }

  /** The tree that the simulation runs on; it has the depth that is computed for its configuration. */
  method CreateTree<P>(roster: Option<seq<Server<P>>>, bf: int, hosts: int) returns (r: Result<seq<Node>>)
    requires bf >= 1 || hosts <= 1
    ensures r.Failure? <==> roster.None? || roster.value == []
    ensures r.Success? && hosts >= 2 ==>
              && HasParents(r.value) && |r.value| == hosts
              && forall depth: nat :: LeastDepth(bf, hosts, depth) ==> HeightIs(r.value, depth)
  {
    if roster.None? {
      return Failure;
    }
    r := GenerateBigNaryTree(roster.value, bf, hosts);
    if r.Success? && hosts >= 2 {
      hide FilledByLevel, LeastDepth, HeightIs, HostsPicked;
      forall depth: nat | LeastDepth(bf, hosts, depth) ensures HeightIs(r.value, depth) {
        DepthOfTheTree(r.value, bf, depth);
      }
    }
  }
}
