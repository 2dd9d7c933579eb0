/** Next fit on lists that go from large to small, which are the only ones the builder cuts: fewer
    than seven quarters of the optimum. */
module NextFitDescending {
  import opened Sequences
  import opened Manifests
  import opened Packing
  import opened PackingBounds
  import opened PackingPlaces
  import opened PackingStability

  // ---------- weights ----------

  /** Six times the size, and the limit once more for a manifest of at least half of it: no work has
      room for two of those. */
  function WeightOf(limit: int, m: Manifest): int {
    6 * m.size + if 2 * m.size >= limit then limit else 0
  }

  function Weight(limit: int, ms: seq<Manifest>): int {
    if ms == [] then 0 else Weight(limit, ms[..|ms| - 1]) + WeightOf(limit, ms[|ms| - 1])
  }

  lemma {:induction false} WeightAppend(limit: int, xs: seq<Manifest>, ys: seq<Manifest>)
    ensures Weight(limit, xs + ys) == Weight(limit, xs) + Weight(limit, ys)
  {
    if ys == [] {
      assert xs + ys == xs;
    } else {
      var n := |ys| - 1;
      WeightAppend(limit, xs, ys[..n]);
      assert (xs + ys)[..|xs + ys| - 1] == xs + ys[..n];
    }
  }

  lemma WeightSplit(limit: int, xs: seq<Manifest>, i: nat)
    requires i < |xs|
    ensures Weight(limit, xs) == Weight(limit, xs[..i] + xs[i + 1..]) + WeightOf(limit, xs[i])
  {
    assert xs == xs[..i] + [xs[i]] + xs[i + 1..];
    assert [xs[i]][..0] == [];
    WeightAppend(limit, xs[..i] + [xs[i]], xs[i + 1..]);
    WeightAppend(limit, xs[..i], [xs[i]]);
    WeightAppend(limit, xs[..i], xs[i + 1..]);
  }

  lemma MembersLeft(xs: seq<Manifest>, i: nat)
    requires i < |xs|
    ensures multiset(xs[..i] + xs[i + 1..]) == multiset(xs) - multiset{xs[i]}
  {
    assert xs == xs[..i] + [xs[i]] + xs[i + 1..];
  }

  /** The weight does not depend on the order. */
  lemma {:induction false} WeightOfPermutation(limit: int, xs: seq<Manifest>, ys: seq<Manifest>)
    requires multiset(xs) == multiset(ys)
    ensures Weight(limit, xs) == Weight(limit, ys)
  {
    if xs == [] {
      assert |multiset(ys)| == |ys|;
    } else {
      var n := |xs| - 1;
      assert xs[n] in multiset(ys);
      var i :| 0 <= i < |ys| && ys[i] == xs[n];
      var rest := ys[..i] + ys[i + 1..];
      assert multiset(xs[..n]) == multiset(rest) by {
        MembersLeft(xs, n);
        MembersLeft(ys, i);
        assert xs[..n] + xs[n + 1..] == xs[..n];
      }
      WeightSplit(limit, ys, i);
      WeightOfPermutation(limit, xs[..n], rest);
    }
  }

  lemma {:induction false} WeighsItsTotal(limit: int, ms: seq<Manifest>)
    requires limit >= 0
    ensures Weight(limit, ms) >= 6 * Total(ms)
  {
    if ms != [] {
      WeighsItsTotal(limit, ms[..|ms| - 1]);
    }
  }

  lemma WeighsItsMember(limit: int, ms: seq<Manifest>, i: nat)
    requires limit >= 0 && i < |ms|
    ensures Weight(limit, ms) >= WeightOf(limit, ms[i])
  {
    WeightSplit(limit, ms, i);
    WeighsItsTotal(limit, ms[..i] + ms[i + 1..]);
  }

  // ---------- works under the limit are light ----------

  lemma {:induction false} UnderLimitIsLight(limit: int, ms: seq<Manifest>)
    requires Total(ms) < limit
    ensures Weight(limit, ms) <= 6 * Total(ms) + if 2 * Total(ms) >= limit then limit else 0
  {
    if ms != [] {
      UnderLimitIsLight(limit, ms[..|ms| - 1]);
    }
  }

  lemma {:induction false} PackedWeight(limit: int, packs: seq<seq<Manifest>>)
    requires limit > 0 && forall i :: 0 <= i < |packs| ==> Total(packs[i]) < limit
    ensures Weight(limit, Flatten(packs)) <= |packs| * (7 * limit - 6)
  {
    if packs != [] {
      var n := |packs| - 1;
      PackedWeight(limit, packs[..n]);
      UnderLimitIsLight(limit, packs[n]);
      WeightAppend(limit, Flatten(packs[..n]), packs[n]);
      MulSucc(n, 7 * limit - 6);
    }
  }

  // ---------- works that next fit left are heavy ----------

  /** No list is empty, each is followed by one whose first manifest would have reached the limit, and
      that manifest is none of the larger ones. */
  ghost predicate CutDescending(limit: int, groups: seq<seq<Manifest>>) {
    && (forall i :: 0 <= i < |groups| ==> groups[i] != [])
    && (forall i :: 0 < i < |groups| ==> Total(groups[i - 1]) + groups[i][0].size >= limit)
    && (forall i, m :: 0 < i < |groups| && m in groups[i - 1] ==> m.size >= groups[i][0].size)
  }

  lemma LeftIsHeavy(limit: int, g: seq<Manifest>, x: int)
    requires limit > 0 && g != [] && Total(g) + x >= limit
    requires forall m :: m in g ==> m.size >= x
    ensures Weight(limit, g) >= 4 * limit
  {
    TotalIfAlone(g);
    if 2 * g[0].size >= limit {
      WeighsItsMember(limit, g, 0);
    } else {
      WeighsItsTotal(limit, g);
      if 3 * x > limit {
        FirstTwo(g);
      }
    }
  }

  lemma TotalIfAlone(g: seq<Manifest>)
    requires g != []
    ensures |g| == 1 ==> Total(g) == g[0].size
  {
    assert |g| == 1 ==> g[..0] == [];
  }

  lemma FirstTwo(g: seq<Manifest>)
    requires |g| >= 2
    ensures Total(g) >= g[0].size + g[1].size
  {
    assert g[..2][..1] == [g[0]];
    TotalOfOne(g[0]);
    PrefixTotal(g[..2], g);
  }

  lemma {:induction false} FrontIsHeavy(limit: int, groups: seq<seq<Manifest>>, k: nat)
    requires limit > 0 && CutDescending(limit, groups) && k < |groups|
    ensures Weight(limit, Flatten(groups[..k])) >= k * (4 * limit)
  {
    if k > 0 {
      FrontIsHeavy(limit, groups, k - 1);
      LeftIsHeavy(limit, groups[k - 1], groups[k][0].size);
      assert groups[..k][..k - 1] == groups[..k - 1];
      WeightAppend(limit, Flatten(groups[..k - 1]), groups[k - 1]);
      MulSucc(k - 1, 4 * limit);
    }
  }

  /** The last two lists together pass the limit. */
  lemma LastTwoAreHeavy(limit: int, groups: seq<seq<Manifest>>)
    requires limit > 0 && CutDescending(limit, groups) && |groups| >= 2
    ensures Weight(limit, Flatten(groups)) >= Weight(limit, Flatten(groups[..|groups| - 2])) + 6 * limit
  {
    var n := |groups| - 2;
    var a, b := groups[n], groups[n + 1];
    assert groups[..n + 1][..n] == groups[..n];
    WeightAppend(limit, Flatten(groups[..n]), a);
    WeightAppend(limit, Flatten(groups[..n + 1]), b);
    WeighsItsTotal(limit, a);
    WeighsItsTotal(limit, b);
    TotalAtLeast(b, b[0]);
  }

  // ---------- the cut of a descending list ----------

  lemma LaterIsSmaller(xs: seq<Manifest>, ys: seq<Manifest>)
    requires Descending(xs + ys)
    ensures Descending(xs) && forall x :: x in xs && ys != [] ==> x.size >= ys[0].size
  {
    var all := xs + ys;
    assert forall i :: 0 <= i < |xs| ==> all[i] == xs[i];
    assert ys != [] ==> all[|xs|] == ys[0];
  }

  lemma {:induction false} HeadsDescend(groups: seq<seq<Manifest>>)
    requires Descending(Flatten(groups)) && forall i :: 0 <= i < |groups| ==> groups[i] != []
    ensures forall i, m :: 0 < i < |groups| && m in groups[i - 1] ==> m.size >= groups[i][0].size
  {
    if groups != [] {
      var n := |groups| - 1;
      LaterIsSmaller(Flatten(groups[..n]), groups[n]);
      HeadsDescend(groups[..n]);
      forall i, m | 0 < i < |groups| && m in groups[i - 1] ensures m.size >= groups[i][0].size {
        if i < n {
          assert m in groups[..n][i - 1] && groups[..n][i] == groups[i];
        } else {
          InFlattened(groups[..n], i - 1, m);
        }
      }
    }
  }

  lemma CutOfDescending(limit: int, ms: seq<Manifest>)
    requires Descending(ms) && ms != [] && ms[0].size < limit
    ensures CutDescending(limit, NextFit(limit, ms))
  {
    NextFitShape(limit, ms);
    NextFitEmptiness(limit, ms);
    NextFitFlattens(limit, ms);
    HeadsDescend(NextFit(limit, ms));
  }

  lemma PackedIsUnderLimit(limit: int, ms: seq<Manifest>, packs: seq<seq<Manifest>>)
    requires multiset(Flatten(packs)) == multiset(ms) && ms != []
    requires forall i :: 0 <= i < |packs| ==> Total(packs[i]) < limit
    ensures ms[0].size < limit
  {
    assert ms[0] in multiset(Flatten(packs));
    InSome(packs, ms[0]);
    var i :| 0 <= i < |packs| && ms[0] in packs[i];
    TotalAtLeast(packs[i], ms[0]);
  }

  lemma {:induction false} InSome(xss: seq<seq<Manifest>>, m: Manifest)
    requires m in Flatten(xss)
    ensures exists i :: 0 <= i < |xss| && m in xss[i]
  {
    var n := |xss| - 1;
    if m in Flatten(xss[..n]) {
      InSome(xss[..n], m);
      var i :| 0 <= i < n && m in xss[..n][i];
      assert m in xss[i];
    } else {
      assert m in xss[n];
    }
  }

  /** Dividing out the limit. */
  lemma CountsFromWeights(n: nat, p: nat, limit: int, front: int, all: int)
    requires limit > 0 && n >= 2 && p >= 1
    requires front >= (n - 2) * (4 * limit) && all >= front + 6 * limit && all <= p * (7 * limit - 6)
    ensures 4 * n <= 7 * p + 1
  {
    assert (n - 2) * (4 * limit) + 6 * limit == (4 * n - 2) * limit;
    assert p * (7 * limit - 6) == (7 * p) * limit - 6 * p;
    if 7 * p <= 4 * n - 2 {
      MulMonotone(7 * p, 4 * n - 2, limit);
      assert false;
    }
  }

  /** If the manifests of a descending list can be packed at all into p works under the limit, then
      next fit needs at most (7p + 1) / 4 works. */
  lemma DescendingWithinSevenQuarters(limit: int, ms: seq<Manifest>, packs: seq<seq<Manifest>>)
    requires Descending(ms) && |packs| >= 1 && multiset(Flatten(packs)) == multiset(ms)
    requires forall i :: 0 <= i < |packs| ==> Total(packs[i]) < limit
    ensures 4 * |NextFit(limit, ms)| <= 7 * |packs| + 1
  {
    var groups := NextFit(limit, ms);
    if |groups| >= 2 {
      PackedIsUnderLimit(limit, ms, packs);
      CutOfDescending(limit, ms);
      NextFitFlattens(limit, ms);
      FrontIsHeavy(limit, groups, |groups| - 2);
      LastTwoAreHeavy(limit, groups);
      PackedWeight(limit, packs);
      WeightOfPermutation(limit, Flatten(packs), ms);
      CountsFromWeights(|groups|, |packs|, limit, Weight(limit, Flatten(groups[..|groups| - 2])), Weight(limit, ms));
    }
  }

  /** The new works of a build against any packing of the manifests they hold. */
  lemma NewWorksWithinSevenQuarters(limit: int, newMeta: nat -> ObjectMeta, works: seq<Work>,
                                    required: map<ManifestKey, Manifest>, order: seq<Manifest>,
                                      packs: seq<seq<Manifest>>)
    requires AllWorksKeyed(works) && PlacementOrder(order, RetainAll(works, required).1)
    requires multiset(Flatten(packs)) == multiset(Fill(limit, newMeta, works, required, order).1)
    requires |packs| >= 1 && forall i :: 0 <= i < |packs| ==> Total(packs[i]) < limit
    ensures var count := NewCount(limit, Fill(limit, newMeta, works, required, order).1);
      4 * count <= 7 * |packs| + 1 && count <= 2 * |packs| - 1
  {
    AsideDescending(MakeBins(limit, newMeta, works, RetainAll(works, required).0), order);
    var aside := Fill(limit, newMeta, works, required, order).1;
    DescendingWithinSevenQuarters(limit, aside, packs);
    NextFitWithinTwiceOptimum(limit, aside, packs);
  }
}
