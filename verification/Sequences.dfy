/** Sequence facts shared by the other modules. All recursion peels the last element, which is
    the way the source's loops build their lists. */
module Sequences {

  /** Concatenation of a list of lists. */
  function Flatten<T>(xss: seq<seq<T>>): seq<T> {
    if xss == [] then [] else Flatten(xss[..|xss| - 1]) + xss[|xss| - 1]
  }

  lemma {:induction false} FlattenAppend<T>(xss: seq<seq<T>>, yss: seq<seq<T>>)
    ensures Flatten(xss + yss) == Flatten(xss) + Flatten(yss)
  {
    if yss == [] {
      assert xss + yss == xss;
    } else {
      var n := |yss| - 1;
      FlattenAppend(xss, yss[..n]);
      assert (xss + yss)[..|xss + yss| - 1] == xss + yss[..n];
    }
  }

  /** Replacing one list by a longer one adds exactly the new element. */
  lemma {:induction false} FlattenExtendAt<T>(xss: seq<seq<T>>, i: nat, x: T)
    requires i < |xss|
    ensures multiset(Flatten(xss[i := xss[i] + [x]])) == multiset(Flatten(xss)) + multiset{x}
  {
    var n := |xss| - 1;
    var yss := xss[i := xss[i] + [x]];
    if i == n {
      assert yss[..n] == xss[..n];
    } else {
      assert yss[..n] == xss[..n][i := xss[..n][i] + [x]];
      FlattenExtendAt(xss[..n], i, x);
    }
  }

  lemma {:induction false} InFlattened<T>(xss: seq<seq<T>>, j: nat, x: T)
    requires j < |xss| && x in xss[j]
    ensures x in Flatten(xss)
  {
    var n := |xss| - 1;
    if j < n {
      InFlattened(xss[..n], j, x);
    }
  }
}
