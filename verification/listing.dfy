/** `ORDER BY ... DESC` over the rows a query selects.

    A row's position is decided by a rank of two integers compared
    lexicographically (`featured DESC, created_at DESC` for rooms,
    `created_at DESC` elsewhere).  Rows of equal rank may come in any order,
    as they may from the database. */
module Listing {

  datatype Rank = Rank(major: int, minor: int)

  /** `a` may be listed before `b`. */
  predicate AtLeast(a: Rank, b: Rank) {
    a.major > b.major || (a.major == b.major && a.minor >= b.minor)
  }

  /** Some selected key ranks at least as high as every other one. */
  lemma {:induction false} TopExists<T>(m: map<int, T>, ks: set<int>, rank: T -> Rank)
    requires ks != {} && ks <= m.Keys
    ensures exists k :: k in ks && forall j :: j in ks ==> AtLeast(rank(m[k]), rank(m[j]))
    decreases ks
  {
    assert exists y :: y in ks by {
      if forall y :: y !in ks {
        assert false;
      }
    }
    var x :| x in ks;
    if ks != {x} {
      var rest := ks - {x};
      TopExists(m, rest, rank);
      var k :| k in rest && forall j :: j in rest ==> AtLeast(rank(m[k]), rank(m[j]));
      if AtLeast(rank(m[k]), rank(m[x])) {
        assert forall j :: j in ks ==> AtLeast(rank(m[k]), rank(m[j]));
      } else {
        assert forall j :: j in ks ==> AtLeast(rank(m[x]), rank(m[j]));
      }
    } else {
      assert forall j :: j in ks ==> AtLeast(rank(m[x]), rank(m[j]));
    }
  }

  /** The selected keys `ks`, each once, in descending rank order. */
  method Ordered<T>(m: map<int, T>, ks: set<int>, rank: T -> Rank) returns (ids: seq<int>)
    requires ks <= m.Keys
    ensures |ids| == |ks|
    ensures forall i :: 0 <= i < |ids| ==> ids[i] in ks
    ensures forall k :: k in ks ==> k in ids
    ensures forall i, j :: 0 <= i < j < |ids| ==> ids[i] != ids[j]
    ensures forall i, j :: 0 <= i < j < |ids| ==> AtLeast(rank(m[ids[i]]), rank(m[ids[j]]))
  {
    ids := [];
    var rest := ks;
    while rest != {}
      invariant rest <= ks
      invariant forall i :: 0 <= i < |ids| ==> ids[i] in ks && ids[i] !in rest
      invariant forall k :: k in ks ==> k in rest || k in ids
      invariant forall i, j :: 0 <= i < j < |ids| ==> ids[i] != ids[j]
      invariant forall i, j :: 0 <= i < j < |ids| ==> AtLeast(rank(m[ids[i]]), rank(m[ids[j]]))
      invariant forall i, j :: 0 <= i < |ids| && j in rest ==> AtLeast(rank(m[ids[i]]), rank(m[j]))
      decreases rest
    {
      TopExists(m, rest, rank);
      var k :| k in rest && forall j :: j in rest ==> AtLeast(rank(m[k]), rank(m[j]));
      ids := ids + [k];
      rest := rest - {k};
    }
    DistinctCoverSize(ids, ks);
  }

  /** A sequence of distinct keys that covers a set is as long as the set. */
  lemma {:induction false} DistinctCoverSize(ids: seq<int>, ks: set<int>)
    requires forall i :: 0 <= i < |ids| ==> ids[i] in ks
    requires forall k :: k in ks ==> k in ids
    requires forall i, j :: 0 <= i < j < |ids| ==> ids[i] != ids[j]
    ensures |ids| == |ks|
    decreases |ids|
  {
    if ids == [] {
      assert forall k :: k !in ks;
      assert ks == {};
    } else {
      var last := ids[|ids| - 1];
      var init := ids[..|ids| - 1];
      forall k | k in ks - {last} ensures k in init {
        var i :| 0 <= i < |ids| && ids[i] == k;
        assert i != |ids| - 1;
        assert init[i] == k;
      }
      forall i | 0 <= i < |init| ensures init[i] in ks - {last} {
        assert ids[i] != ids[|ids| - 1];
      }
      DistinctCoverSize(init, ks - {last});
    }
  }

  /** The lowest of a non-empty set of keys: the row a query without
      `ORDER BY` is taken to return first. */
  function Least(ks: set<int>): (k: int)
    requires ks != {}
    ensures k in ks
    ensures forall j :: j in ks ==> k <= j
  {
    LeastExists(ks);
    var k :| k in ks && forall j :: j in ks ==> k <= j; k
  }

  lemma {:induction false} LeastExists(ks: set<int>)
    requires ks != {}
    ensures exists k :: k in ks && forall j :: j in ks ==> k <= j
    decreases ks
  {
    assert exists y :: y in ks by {
      if forall y :: y !in ks {
        assert false;
      }
    }
    var x :| x in ks;
    if ks != {x} {
      LeastExists(ks - {x});
      var k :| k in ks - {x} && forall j :: j in ks - {x} ==> k <= j;
      var m := if k <= x then k else x;
      forall j | j in ks
        ensures m <= j
      {
        if j != x {
          assert j in ks - {x};
        }
      }
      assert m in ks;
    } else {
      assert forall j :: j in ks ==> x <= j;
    }
  }
}
