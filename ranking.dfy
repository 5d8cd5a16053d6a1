/**
 Stable sorting of table positions by one numeric key, as Python's
 `sorted(index, key = ..., reverse = ...)` does it: a strictly better key
 comes first, and equal keys keep their original order (also when
 `reverse` is set). Positions stand for the factors of the table index.
 */
module Ranking {

  /** Key `a` sorts strictly before key `b` (larger first when `desc`). */
  predicate Better(a: real, b: real, desc: bool)
  {
    if desc then a > b else a < b
  }

  /** Position i comes before position j in the stable order on `keys`. */
  predicate Precedes(keys: seq<real>, desc: bool, i: nat, j: nat)
  {
    && i < |keys| && j < |keys|
    && (Better(keys[i], keys[j], desc) || (keys[i] == keys[j] && i < j))
  }

  lemma PrecedesIsStrictOrder(keys: seq<real>, desc: bool, i: nat, j: nat, k: nat)
    ensures !Precedes(keys, desc, i, i)
    ensures Precedes(keys, desc, i, j) ==> !Precedes(keys, desc, j, i)
    ensures Precedes(keys, desc, i, j) && Precedes(keys, desc, j, k) ==> Precedes(keys, desc, i, k)
    ensures i < |keys| && j < |keys| && i != j ==> Precedes(keys, desc, i, j) || Precedes(keys, desc, j, i)
  {
  }

  ghost predicate Distinct(s: seq<nat>)
  {
    forall p, q :: 0 <= p < q < |s| ==> s[p] != s[q]
  }

  /** `s` lists each of the positions 0 .. n - 1 exactly once. */
  ghost predicate IsPermutation(s: seq<nat>, n: nat)
  {
    && |s| == n
    && (forall p :: 0 <= p < n ==> s[p] < n)
    && Distinct(s)
    && (forall x: nat :: x in s <==> x < n)
  }

  /** `s` is in the stable order on `keys`. */
  ghost predicate SortedBy(s: seq<nat>, keys: seq<real>, desc: bool)
  {
    forall p, q :: 0 <= p < q < |s| ==> Precedes(keys, desc, s[p], s[q])
  }

  /** [0, 1, ..., n - 1] */
  function Range(n: nat): (r: seq<nat>)
    ensures |r| == n
    ensures forall p :: 0 <= p < n ==> r[p] == p
  {
    if n == 0 then [] else Range(n - 1) + [n - 1]
  }

  /** Put position x into the sorted list s. */
  function Insert(keys: seq<real>, desc: bool, x: nat, s: seq<nat>): (r: seq<nat>)
    requires x < |keys|
    requires forall p :: 0 <= p < |s| ==> s[p] < |keys|
    requires x !in s && Distinct(s) && SortedBy(s, keys, desc)
    ensures |r| == |s| + 1
    ensures forall y :: y in r <==> y == x || y in s
    ensures Distinct(r) && SortedBy(r, keys, desc)
  {
    if s == [] then [x]
    else if Precedes(keys, desc, x, s[0]) then
      assert forall q :: 0 < q < |s| ==> Precedes(keys, desc, s[0], s[q]);
      PrecedesTransitiveFrom(keys, desc, x, s);
      [x] + s
    else
      PrecedesIsStrictOrder(keys, desc, x, s[0], s[0]);
      var rest := Insert(keys, desc, x, s[1..]);
      assert s[0] !in s[1..];
      assert forall y :: y in rest ==> Precedes(keys, desc, s[0], y) by {
        forall y | y in rest ensures Precedes(keys, desc, s[0], y) {
          if y != x {
            var q :| 1 <= q < |s| && s[q] == y;
          }
        }
      }
      [s[0]] + rest
  }

  lemma PrecedesTransitiveFrom(keys: seq<real>, desc: bool, x: nat, s: seq<nat>)
    requires s != [] && Precedes(keys, desc, x, s[0])
    requires SortedBy(s, keys, desc)
    ensures forall q :: 0 <= q < |s| ==> Precedes(keys, desc, x, s[q])
  {
    forall q | 0 < q < |s| ensures Precedes(keys, desc, x, s[q]) {
      PrecedesIsStrictOrder(keys, desc, x, s[0], s[q]);
    }
  }

  /** Insertion sort of the positions in `ix` (the model of Python's stable `sorted`). */
  function Sort(keys: seq<real>, desc: bool, ix: seq<nat>): (r: seq<nat>)
    requires forall p :: 0 <= p < |ix| ==> ix[p] < |keys|
    requires Distinct(ix)
    ensures |r| == |ix|
    ensures forall y :: y in r <==> y in ix
    ensures Distinct(r) && SortedBy(r, keys, desc)
  {
    if ix == [] then []
    else
      var front := ix[..|ix| - 1];
      var s := Sort(keys, desc, front);
      assert ix[|ix| - 1] !in front;
      assert forall p :: 0 <= p < |s| ==> s[p] < |keys| by {
        forall p | 0 <= p < |s| ensures s[p] < |keys| {
          assert s[p] in front;
        }
      }
      Insert(keys, desc, ix[|ix| - 1], s)
  }

  /** The stable order of all positions of `keys`. */
  function SortedIndex(keys: seq<real>, desc: bool): (order: seq<nat>)
    ensures IsPermutation(order, |keys|)
    ensures SortedBy(order, keys, desc)
  {
    var r := Range(|keys|);
    forall x: nat | x < |keys| ensures x in r {
      assert r[x] == x;
    }
    var order := Sort(keys, desc, r);
    forall p | 0 <= p < |order| ensures order[p] < |keys| {
      assert order[p] in order;
    }
    order
  }

  /** A stable order is unique: any permutation sorted by `keys` is SortedIndex. */
  lemma {:induction false} SortedIndexUnique(keys: seq<real>, desc: bool, s: seq<nat>)
    requires IsPermutation(s, |keys|) && SortedBy(s, keys, desc)
    ensures s == SortedIndex(keys, desc)
  {
    var t := SortedIndex(keys, desc);
    forall p | 0 <= p < |s| ensures s[p] == t[p] {
      SortedPositionsAgree(keys, desc, s, t, p);
    }
  }

  /** Two sorted permutations agree position by position. */
  lemma {:induction false} SortedPositionsAgree(keys: seq<real>, desc: bool, s: seq<nat>, t: seq<nat>, p: nat)
    requires IsPermutation(s, |keys|) && SortedBy(s, keys, desc)
    requires IsPermutation(t, |keys|) && SortedBy(t, keys, desc)
    requires p < |s|
    ensures s[p] == t[p]
    decreases p
  {
    forall q | 0 <= q < p ensures s[q] == t[q] {
      SortedPositionsAgree(keys, desc, s, t, q);
    }
    if s[p] != t[p] {
      // s[p] sits in t somewhere after p, t[p] sits in s somewhere after p
      assert s[p] in s && t[p] in t;
      assert s[p] in t;
      var a :| 0 <= a < |t| && t[a] == s[p];
      assert t[p] in s;
      var b :| 0 <= b < |s| && s[b] == t[p];
      if a < p || b < p {
        assert false;
      }
      assert Precedes(keys, desc, s[p], s[b]);
      assert Precedes(keys, desc, t[p], t[a]);
      PrecedesIsStrictOrder(keys, desc, s[p], t[p], s[p]);
      assert false;
    }
  }

  /**
   Ranks handed out by walking `order` with a counter starting at 1: the
   position order[r] gets rank r + 1.
   */
  ghost predicate RanksFollow(ranks: seq<int>, order: seq<nat>)
  {
    && |ranks| == |order|
    && forall r :: 0 <= r < |order| ==> order[r] < |ranks| && ranks[order[r]] == r + 1
  }

  /**
   The ranks are exactly 1 .. n, each given once, and rank order is the
   stable order on the keys.
   */
  ghost predicate IsRanking(ranks: seq<int>, keys: seq<real>, desc: bool)
  {
    && |ranks| == |keys|
    && (forall p :: 0 <= p < |ranks| ==> 1 <= ranks[p] <= |ranks|)
    && (forall p, q :: 0 <= p < q < |ranks| ==> ranks[p] != ranks[q])
    && (forall r :: 1 <= r <= |ranks| ==> r in ranks)
    && (forall p, q :: 0 <= p < |ranks| && 0 <= q < |ranks| ==>
          (ranks[p] < ranks[q] <==> Precedes(keys, desc, p, q)))
  }

  /** Handing out 1, 2, 3, ... along the stable order yields a ranking. */
  lemma RanksOfSortedIndex(ranks: seq<int>, keys: seq<real>, desc: bool)
    requires RanksFollow(ranks, SortedIndex(keys, desc))
    ensures IsRanking(ranks, keys, desc)
  {
    var order := SortedIndex(keys, desc);
    var n := |keys|;
    // the position at which each table position appears in the order
    forall p | 0 <= p < n ensures p in order {
    }
    forall p | 0 <= p < n ensures 1 <= ranks[p] <= n {
      assert p in order;
      var r :| 0 <= r < n && order[r] == p;
    }
    forall r | 1 <= r <= n ensures r in ranks {
      assert ranks[order[r - 1]] == r;
    }
    forall p, q | 0 <= p < n && 0 <= q < n
      ensures ranks[p] < ranks[q] <==> Precedes(keys, desc, p, q)
    {
      assert p in order && q in order;
      var a :| 0 <= a < n && order[a] == p;
      var b :| 0 <= b < n && order[b] == q;
      if a < b {
        assert Precedes(keys, desc, p, q);
      } else if b < a {
        assert Precedes(keys, desc, q, p);
        PrecedesIsStrictOrder(keys, desc, p, q, p);
      } else {
        PrecedesIsStrictOrder(keys, desc, p, p, p);
      }
    }
    forall p, q | 0 <= p < q < n ensures ranks[p] != ranks[q] {
      PrecedesIsStrictOrder(keys, desc, p, q, p);
    }
  }
}
