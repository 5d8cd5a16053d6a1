/**
 Grouping of the per-sample AUC values by factor: every sample key names
 its factor by the part of the key before the first underscore, and every
 AUC value also joins the background list of all values.
 */
module Grouping {

  /** The part of `key` before its first '_' (all of it when there is none). */
  function FactorOf(key: string): (tf: string)
    ensures tf <= key
    ensures '_' !in tf
    ensures |tf| < |key| ==> key[|tf|] == '_'
  {
    if key == [] || key[0] == '_' then [] else [key[0]] + FactorOf(key[1..])
  }

  /** Those three facts determine the factor name: it is the only such prefix. */
  lemma FactorOfUnique(key: string, p: string)
    requires p <= key && '_' !in p
    requires |p| < |key| ==> key[|p|] == '_'
    ensures p == FactorOf(key)
  {
  }

  /** `keys` lists the keys of the map `aucs`, each exactly once (an iteration order). */
  ghost predicate IsKeyOrder(keys: seq<string>, aucs: map<string, real>)
  {
    && (forall i, j :: 0 <= i < j < |keys| ==> keys[i] != keys[j])
    && (forall k :: k in aucs <==> k in keys)
  }

  /** The factor names that occur among `keys`. */
  ghost function Factors(keys: seq<string>): set<string>
  {
    set k | k in keys :: FactorOf(k)
  }

  /** The AUC values of the keys of factor `tf`, in the order of `keys`. */
  ghost function Members(keys: seq<string>, aucs: map<string, real>, tf: string): seq<real>
    requires forall i :: 0 <= i < |keys| ==> keys[i] in aucs
  {
    if keys == [] then []
    else
      var last := keys[|keys| - 1];
      Members(keys[..|keys| - 1], aucs, tf) + (if FactorOf(last) == tf then [aucs[last]] else [])
  }

  /** The background list: every AUC value, in key order. */
  ghost function Background(keys: seq<string>, aucs: map<string, real>): (b: seq<real>)
    requires forall i :: 0 <= i < |keys| ==> keys[i] in aucs
  {
    seq(|keys|, i requires 0 <= i < |keys| => aucs[keys[i]])
  }

  /**
   The grouping loop: walk the keys in order, append each AUC value to the
   background list and to the list of its factor, creating that list on
   the factor's first key.
   */
  method Group(keys: seq<string>, aucs: map<string, real>)
      returns (tfs: map<string, seq<real>>, sam1: seq<real>)
    requires forall j :: 0 <= j < |keys| ==> keys[j] in aucs
    ensures |sam1| == |keys|
    ensures forall i :: 0 <= i < |keys| ==> sam1[i] == aucs[keys[i]]
    ensures tfs.Keys == Factors(keys)
    ensures forall tf :: tf in tfs ==> tfs[tf] == Members(keys, aucs, tf)
  {
    tfs, sam1 := map[], [];
    var i := 0;
    while i < |keys|
      invariant 0 <= i <= |keys|
      invariant |sam1| == i
      invariant forall j :: 0 <= j < i ==> sam1[j] == aucs[keys[j]]
      invariant IsGrouping(keys[..i], aucs, tfs)
    {
      var key := keys[i];
      var tf := FactorOf(key);
      var auc := aucs[key];
      GroupStep(keys, aucs, i, tfs);
      BackgroundStep(keys, aucs, i, sam1);
      sam1 := sam1 + [auc];
      tfs := AddTo(tfs, tf, auc);
      i := i + 1;
    }
    assert keys[..i] == keys;
  }

  /** `tfs` maps exactly the factors of `keys` to their members, in key order. */
  ghost predicate IsGrouping(keys: seq<string>, aucs: map<string, real>, tfs: map<string, seq<real>>)
    requires forall j :: 0 <= j < |keys| ==> keys[j] in aucs
  {
    && tfs.Keys == Factors(keys)
    && forall tf :: tf in tfs ==> tfs[tf] == Members(keys, aucs, tf)
  }

  /** The group map after appending `auc` to the list of factor `tf`, created when missing. */
  function AddTo(tfs: map<string, seq<real>>, tf: string, auc: real): (r: map<string, seq<real>>)
    ensures r.Keys == tfs.Keys + {tf}
    ensures r[tf] == (if tf in tfs then tfs[tf] else []) + [auc]
    ensures forall t :: t in tfs && t != tf ==> r[t] == tfs[t]
  {
    if tf !in tfs then tfs[tf := [auc]] else tfs[tf := tfs[tf] + [auc]]
  }

  /** Appending the next key's value keeps the background list equal to the values seen. */
  lemma BackgroundStep(keys: seq<string>, aucs: map<string, real>, i: nat, sam1: seq<real>)
    requires forall j :: 0 <= j < |keys| ==> keys[j] in aucs
    requires i < |keys| && |sam1| == i
    requires forall j :: 0 <= j < i ==> sam1[j] == aucs[keys[j]]
    ensures forall j :: 0 <= j < i + 1 ==> (sam1 + [aucs[keys[i]]])[j] == aucs[keys[j]]
  {
  }

  /** One step of the grouping loop keeps the groups equal to the members of the keys seen. */
  lemma GroupStep(keys: seq<string>, aucs: map<string, real>, i: nat, tfs: map<string, seq<real>>)
    requires forall j :: 0 <= j < |keys| ==> keys[j] in aucs
    requires i < |keys|
    requires IsGrouping(keys[..i], aucs, tfs)
    ensures IsGrouping(keys[..i + 1], aucs, AddTo(tfs, FactorOf(keys[i]), aucs[keys[i]]))
  {
    var f := FactorOf(keys[i]);
    var next := AddTo(tfs, f, aucs[keys[i]]);
    FactorsSnoc(keys, i);
    forall t | t in next ensures next[t] == Members(keys[..i + 1], aucs, t) {
      MembersSnoc(keys, aucs, i, t);
      if t == f && f !in tfs {
        MembersOutside(keys[..i], aucs, f);
      }
    }
  }

  /** The background list holds one value per key of the AUC map. */
  lemma BackgroundOnePerKey(keys: seq<string>, aucs: map<string, real>)
    requires IsKeyOrder(keys, aucs)
    ensures |Background(keys, aucs)| == |aucs|
  {
    assert aucs.Keys == set k | k in keys;
    DistinctCard(keys);
  }

  lemma {:induction false} DistinctCard(keys: seq<string>)
    requires forall i, j :: 0 <= i < j < |keys| ==> keys[i] != keys[j]
    ensures |set k | k in keys| == |keys|
  {
    if keys != [] {
      var front := keys[..|keys| - 1];
      var last := keys[|keys| - 1];
      DistinctCard(front);
      assert (set k | k in keys) == (set k | k in front) + {last} by {
        assert keys == front + [last];
      }
      assert last !in front;
    }
  }

  lemma FactorsSnoc(keys: seq<string>, i: nat)
    requires i < |keys|
    ensures Factors(keys[..i + 1]) == Factors(keys[..i]) + {FactorOf(keys[i])}
  {
    assert keys[..i + 1] == keys[..i] + [keys[i]];
  }

  lemma MembersSnoc(keys: seq<string>, aucs: map<string, real>, i: nat, tf: string)
    requires forall j :: 0 <= j < |keys| ==> keys[j] in aucs
    requires i < |keys|
    ensures Members(keys[..i + 1], aucs, tf)
         == Members(keys[..i], aucs, tf) + (if FactorOf(keys[i]) == tf then [aucs[keys[i]]] else [])
  {
    assert keys[..i + 1][..i] == keys[..i];
  }

  /** A name that is no key's factor has no members. */
  lemma {:induction false} MembersOutside(keys: seq<string>, aucs: map<string, real>, tf: string)
    requires forall i :: 0 <= i < |keys| ==> keys[i] in aucs
    requires tf !in Factors(keys)
    ensures Members(keys, aucs, tf) == []
  {
    if keys != [] {
      var front := keys[..|keys| - 1];
      assert Factors(front) <= Factors(keys) by {
        forall k | k in front ensures k in keys { }
      }
      MembersOutside(front, aucs, tf);
      assert FactorOf(keys[|keys| - 1]) in Factors(keys);
    }
  }

  /** Each key's AUC value sits in its factor's group, so no group is empty. */
  lemma {:induction false} MemberOfOwnGroup(keys: seq<string>, aucs: map<string, real>, i: nat)
    requires forall j :: 0 <= j < |keys| ==> keys[j] in aucs
    requires i < |keys|
    ensures aucs[keys[i]] in Members(keys, aucs, FactorOf(keys[i]))
    ensures |Members(keys, aucs, FactorOf(keys[i]))| > 0
  {
    var front := keys[..|keys| - 1];
    if i < |keys| - 1 {
      assert front[i] == keys[i];
      MemberOfOwnGroup(front, aucs, i);
    }
  }

  /** Every factor that occurs has a non-empty group. */
  lemma GroupNonEmpty(keys: seq<string>, aucs: map<string, real>, tf: string)
    requires forall j :: 0 <= j < |keys| ==> keys[j] in aucs
    requires tf in Factors(keys)
    ensures |Members(keys, aucs, tf)| > 0
  {
    var i :| 0 <= i < |keys| && FactorOf(keys[i]) == tf;
    MemberOfOwnGroup(keys, aucs, i);
  }

  /** Only values of the factor's own keys enter its group. */
  lemma {:induction false} MembersAreOwn(keys: seq<string>, aucs: map<string, real>, tf: string, v: real)
    requires forall j :: 0 <= j < |keys| ==> keys[j] in aucs
    requires v in Members(keys, aucs, tf)
    ensures exists i :: 0 <= i < |keys| && FactorOf(keys[i]) == tf && aucs[keys[i]] == v
  {
    var front := keys[..|keys| - 1];
    var last := keys[|keys| - 1];
    if v in Members(front, aucs, tf) {
      MembersAreOwn(front, aucs, tf, v);
      var i :| 0 <= i < |front| && FactorOf(front[i]) == tf && aucs[front[i]] == v;
      assert keys[i] == front[i];
    } else {
      assert FactorOf(last) == tf && aucs[last] == v;
    }
  }

  /** Total size of the groups of the factors listed in `ix`. */
  ghost function GroupSizes(keys: seq<string>, aucs: map<string, real>, ix: seq<string>): nat
    requires forall j :: 0 <= j < |keys| ==> keys[j] in aucs
  {
    if ix == [] then 0 else |Members(keys, aucs, ix[0])| + GroupSizes(keys, aucs, ix[1..])
  }

  /** Dropping the last key shrinks the total by one exactly when its factor is listed. */
  lemma {:induction false} GroupSizesDropLast(keys: seq<string>, aucs: map<string, real>, ix: seq<string>)
    requires forall j :: 0 <= j < |keys| ==> keys[j] in aucs
    requires keys != []
    requires forall i, j :: 0 <= i < j < |ix| ==> ix[i] != ix[j]
    ensures GroupSizes(keys, aucs, ix)
         == GroupSizes(keys[..|keys| - 1], aucs, ix) + (if FactorOf(keys[|keys| - 1]) in ix then 1 else 0)
  {
    if ix != [] {
      assert forall t :: t in ix[1..] ==> t != ix[0];
      GroupSizesDropLast(keys, aucs, ix[1..]);
    }
  }

  /**
   When `ix` lists every factor once (the table index), the group sizes add
   up to the number of keys, which is the length of the background list.
   */
  lemma {:induction false} GroupSizesSum(keys: seq<string>, aucs: map<string, real>, ix: seq<string>)
    requires forall j :: 0 <= j < |keys| ==> keys[j] in aucs
    requires forall i, j :: 0 <= i < j < |ix| ==> ix[i] != ix[j]
    requires forall t :: t in Factors(keys) ==> t in ix
    ensures GroupSizes(keys, aucs, ix) == |keys|
  {
    if keys == [] {
      GroupSizesEmpty(aucs, ix);
    } else {
      var front := keys[..|keys| - 1];
      assert FactorOf(keys[|keys| - 1]) in Factors(keys);
      assert Factors(front) <= Factors(keys) by {
        forall k | k in front ensures k in keys { }
      }
      GroupSizesDropLast(keys, aucs, ix);
      GroupSizesSum(front, aucs, ix);
    }
  }

  lemma {:induction false} GroupSizesEmpty(aucs: map<string, real>, ix: seq<string>)
    ensures GroupSizes([], aucs, ix) == 0
  {
    if ix != [] {
      GroupSizesEmpty(aucs, ix[1..]);
    }
  }
}
