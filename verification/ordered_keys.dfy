/** The key order of a `std::map<int, ...>`: iteration visits the keys in
    ascending order, and `nextId` is recomputed from the keys in that order. */
module OrderedKeys {
  import opened Base

  predicate StrictlyIncreasing(ks: seq<Int32>)
  {
    forall i, j :: 0 <= i < j < |ks| ==> ks[i] < ks[j]
  }

  /** Every finite non-empty set of keys has a least element. */
  lemma {:induction false} MinExists(s: set<Int32>)
    requires s != {}
    ensures exists m :: m in s && forall x :: x in s ==> m <= x
  {
    var x :| x in s;
    var rest := s - {x};
    if rest == {} {
      forall y | y in s
        ensures x <= y
      {
        assert y !in rest;
      }
    } else {
      MinExists(rest);
      var m :| m in rest && forall y :: y in rest ==> m <= y;
      var least := LeastWith(s, x, m);
    }
  }

  /** The smaller of `x` and the least element of the rest of `s`. */
  lemma {:induction false} LeastWith(s: set<Int32>, x: Int32, m: Int32) returns (least: Int32)
    requires x in s && m in s - {x} && forall y :: y in s - {x} ==> m <= y
    ensures least in s && forall y :: y in s ==> least <= y
  {
    least := if x < m then x else m;
    forall y | y in s
      ensures least <= y
    {
      if y != x {
        assert y in s - {x};
      }
    }
  }

  /** The least key. */
  function Min(s: set<Int32>): (m: Int32)
    requires s != {}
    ensures m in s && forall x :: x in s ==> m <= x
  {
    MinExists(s);
    var m :| m in s && forall x :: x in s ==> m <= x;
    m
  }

  /** The keys in the order a `std::map` iterates them. */
  function Ascending(s: set<Int32>): (ks: seq<Int32>)
    ensures |ks| == |s|
    ensures forall k :: k in ks <==> k in s
    decreases |s|
  {
    if s == {} then []
    else
      var m := Min(s);
      var rest := Ascending(s - {m});
      PrependLeast(m, s, rest);
      [m] + rest
  }

  /** The listing is in strictly increasing order. */
  lemma {:induction false} AscendingIncreases(s: set<Int32>)
    ensures StrictlyIncreasing(Ascending(s))
    decreases |s|
  {
    if s != {} {
      var m := Min(s);
      AscendingIncreases(s - {m});
      PrependLeast(m, s, Ascending(s - {m}));
    }
  }

  /** Putting the least key in front of an ascending listing of the others
      lists the whole set in ascending order. */
  lemma {:induction false} PrependLeast(m: Int32, s: set<Int32>, rest: seq<Int32>)
    requires m in s && forall x :: x in s ==> m <= x
    requires |rest| == |s - {m}| && forall k :: k in rest <==> k in s - {m}
    ensures |[m] + rest| == |s|
    ensures forall k :: k in [m] + rest <==> k in s
    ensures StrictlyIncreasing(rest) ==> StrictlyIncreasing([m] + rest)
  {
    var ks := [m] + rest;
    if StrictlyIncreasing(rest) {
      forall i, j | 0 <= i < j < |ks|
        ensures ks[i] < ks[j]
      {
        assert ks[j] == rest[j - 1];
        if i > 0 {
          assert ks[i] == rest[i - 1];
        } else {
          assert rest[j - 1] in s - {m};
        }
      }
    }
    forall k
      ensures k in ks <==> k in s
    {
      assert k in ks <==> k == m || k in rest;
    }
  }

  /** The `open` loop's update of `nextId` over the ids it loads, in order:
      an id at or above the counter moves the counter to that id plus one,
      with the wrap-around of signed `int` addition. */
  function FoldNextId(ks: seq<Int32>, n: Int32): Int32
  {
    if ks == [] then n
    else FoldNextId(ks[1..], if ks[0] >= n then Succ32(ks[0]) else n)
  }

  /** Over ascending ids whose largest is not `INT_MAX`, the loop ends at the
      larger of its start and one past the largest id. */
  lemma {:induction false} FoldNextIdIsMaxPlusOne(ks: seq<Int32>, n: Int32)
    requires StrictlyIncreasing(ks) && ks != [] && ks[|ks| - 1] < INT32_MAX
    ensures FoldNextId(ks, n) == if ks[|ks| - 1] >= n then ks[|ks| - 1] + 1 else n
  {
    var n' := if ks[0] >= n then Succ32(ks[0]) else n;
    if |ks| > 1 {
      assert ks[0] < ks[|ks| - 1];
      assert ks[1..][|ks[1..]| - 1] == ks[|ks| - 1];
      FoldNextIdIsMaxPlusOne(ks[1..], n');
    }
  }

  /** The same for the keys of a set listed in ascending order, starting
      from the reset value 1: the counter after loading is one past the
      largest key, or 1 when there is no positive key. */
  lemma {:induction false} NextIdAfterLoad(s: set<Int32>, ks: seq<Int32>, n: Int32)
    requires StrictlyIncreasing(ks) && forall k :: k in ks <==> k in s
    requires forall k :: k in s ==> k < INT32_MAX
    requires n == FoldNextId(ks, 1)
    ensures s == {} ==> n == 1
    ensures forall k :: k in s ==> k < n
    ensures n >= 1 && (n == 1 || n - 1 in s)
  {
    if ks != [] {
      var top := ks[|ks| - 1];
      assert top in s;
      forall k | k in s
        ensures k <= top
      {
        var i :| 0 <= i < |ks| && ks[i] == k;
        assert i == |ks| - 1 || ks[i] < top;
      }
      FoldNextIdIsMaxPlusOne(ks, 1);
    }
  }
}
