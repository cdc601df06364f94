/*
 * Grouping of a list of records by a key, as Python dictionaries built in a
 * loop do it: a key is inserted the first time it is seen, so keys come out
 * in first-occurrence order, and every record lands under its own key.
 * Both the report of the red-team evaluator and the summary of the agent
 * evaluation are specified with these functions.
 */
module Grouping {

  predicate NoDuplicates<K(==)>(ks: seq<K>) {
    forall i, j :: 0 <= i < j < |ks| ==> ks[i] != ks[j]
  }

  /** The key of every record, in record order. */
  function Keys<T, K>(xs: seq<T>, key: T -> K): (ks: seq<K>)
    ensures |ks| == |xs|
  {
    if xs == [] then [] else Keys(xs[..|xs| - 1], key) + [key(xs[|xs| - 1])]
  }

  /** The `i`-th key is the key of the `i`-th record. */
  lemma {:induction false} KeysAt<T, K>(xs: seq<T>, key: T -> K, i: nat)
    requires i < |xs|
    ensures Keys(xs, key)[i] == key(xs[i])
  {
    if i < |xs| - 1 {
      KeysAt(xs[..|xs| - 1], key, i);
    }
  }

  /** The keys that occur are the keys of the records. */
  lemma KeysMembers<T, K>(xs: seq<T>, key: T -> K, k: K)
    ensures k in Keys(xs, key) <==> exists i :: 0 <= i < |xs| && key(xs[i]) == k
  {
    forall i | 0 <= i < |xs| { KeysAt(xs, key, i); }
  }

  /** The keys of a dictionary filled by scanning `ks` from the left and
      inserting each key not yet present. */
  function Distinct<K(==)>(ks: seq<K>): (ds: seq<K>)
    ensures NoDuplicates(ds)
    ensures |ds| <= |ks|
  {
    if ks == [] then []
    else
      var d := Distinct(ks[..|ks| - 1]);
      if ks[|ks| - 1] in d then d else d + [ks[|ks| - 1]]
  }

  /** The dictionary has a key exactly for the keys that occur. */
  lemma {:induction false} DistinctMembers<K>(ks: seq<K>, k: K)
    ensures k in Distinct(ks) <==> k in ks
  {
    if ks != [] {
      var init := ks[..|ks| - 1];
      assert ks == init + [ks[|ks| - 1]];
      DistinctMembers(init, k);
    }
  }

  /** The position of the first occurrence of `k` in `ks`. */
  function FirstIndex<K(==)>(ks: seq<K>, k: K): (n: nat)
    requires k in ks
    ensures n < |ks| && ks[n] == k
    ensures forall m :: 0 <= m < n ==> ks[m] != k
  {
    if ks[0] == k then 0 else 1 + FirstIndex(ks[1..], k)
  }

  lemma FirstIndexOfPrefix<K>(ks: seq<K>, x: K, k: K)
    requires k in ks
    ensures FirstIndex(ks + [x], k) == FirstIndex(ks, k)
  {
    assert forall m :: 0 <= m < |ks| ==> (ks + [x])[m] == ks[m];
  }

  lemma FirstIndexOfNew<K>(ks: seq<K>, x: K)
    requires x !in ks
    ensures FirstIndex(ks + [x], x) == |ks|
  {
  }

  /** Keys come out in the order in which they are first seen. */
  lemma {:induction false} DistinctInFirstOccurrenceOrder<K>(ks: seq<K>, i: nat, j: nat)
    requires i < j < |Distinct(ks)|
    ensures Distinct(ks)[i] in ks && Distinct(ks)[j] in ks
    ensures FirstIndex(ks, Distinct(ks)[i]) < FirstIndex(ks, Distinct(ks)[j])
    decreases |ks|
  {
    var init, x := ks[..|ks| - 1], ks[|ks| - 1];
    assert ks == init + [x];
    var d := Distinct(init);
    var a, b := Distinct(ks)[i], Distinct(ks)[j];
    DistinctMembers(init, a);
    DistinctMembers(init, b);
    DistinctMembers(ks, a);
    DistinctMembers(ks, b);
    if j < |d| {
      assert a == d[i] && b == d[j];
      DistinctInFirstOccurrenceOrder(init, i, j);
      FirstIndexOfPrefix(init, x, a);
      FirstIndexOfPrefix(init, x, b);
    } else {
      assert b == x && x !in d && a == d[i];
      FirstIndexOfPrefix(init, x, a);
      FirstIndexOfNew(init, x);
    }
  }

  /** The records whose key is `k`, in record order. */
  function Select<T, K(==)>(xs: seq<T>, key: T -> K, k: K): (ys: seq<T>)
    ensures |ys| <= |xs|
  {
    if xs == [] then []
    else Select(xs[..|xs| - 1], key, k) + if key(xs[|xs| - 1]) == k then [xs[|xs| - 1]] else []
  }

  /** A group holds exactly the records with its key. */
  lemma {:induction false} SelectMembers<T, K>(xs: seq<T>, key: T -> K, k: K)
    ensures forall i :: 0 <= i < |Select(xs, key, k)| ==> Select(xs, key, k)[i] in xs && key(Select(xs, key, k)[i]) == k
    ensures forall i :: 0 <= i < |xs| && key(xs[i]) == k ==> xs[i] in Select(xs, key, k)
  {
    if xs != [] {
      var init, x := xs[..|xs| - 1], xs[|xs| - 1];
      assert xs == init + [x];
      SelectMembers(init, key, k);
    }
  }

  /** A key that no record has selects nothing. */
  lemma SelectAbsent<T, K>(xs: seq<T>, key: T -> K, k: K)
    requires k !in Keys(xs, key)
    ensures Select(xs, key, k) == []
  {
    SelectMembers(xs, key, k);
    forall i | 0 <= i < |xs| ensures key(xs[i]) != k {
      KeysAt(xs, key, i);
    }
  }

  /** How many records satisfy `p`. */
  function CountIf<T>(xs: seq<T>, p: T -> bool): (n: nat)
    ensures n <= |xs|
  {
    if xs == [] then 0 else CountIf(xs[..|xs| - 1], p) + if p(xs[|xs| - 1]) then 1 else 0
  }

  /** No record, or every record, satisfies `p` exactly when the count is 0,
      or the length. */
  lemma {:induction false} CountIfExtremes<T>(xs: seq<T>, p: T -> bool)
    ensures CountIf(xs, p) == 0 <==> forall i :: 0 <= i < |xs| ==> !p(xs[i])
    ensures CountIf(xs, p) == |xs| <==> forall i :: 0 <= i < |xs| ==> p(xs[i])
  {
    if xs != [] {
      var init := xs[..|xs| - 1];
      CountIfExtremes(init, p);
      assert forall i :: 0 <= i < |init| ==> init[i] == xs[i];
    }
  }

  /** Counting a property and its negation covers every record once. */
  lemma {:induction false} CountComplement<T>(xs: seq<T>, p: T -> bool, q: T -> bool)
    requires forall x :: q(x) == !p(x)
    ensures CountIf(xs, p) + CountIf(xs, q) == |xs|
  {
    if xs != [] {
      CountComplement(xs[..|xs| - 1], p, q);
    }
  }

  /** The group sizes, added over the keys `ks`. */
  function SumSizes<T, K(==)>(ks: seq<K>, xs: seq<T>, key: T -> K): nat {
    if ks == [] then 0
    else SumSizes(ks[..|ks| - 1], xs, key) + |Select(xs, key, ks[|ks| - 1])|
  }

  lemma {:induction false} SumSizesSnoc<T, K>(ks: seq<K>, ys: seq<T>, x: T, key: T -> K)
    requires NoDuplicates(ks)
    ensures SumSizes(ks, ys + [x], key) == SumSizes(ks, ys, key) + if key(x) in ks then 1 else 0
  {
    var xs := ys + [x];
    assert xs[..|xs| - 1] == ys;
    if ks != [] {
      var init, k := ks[..|ks| - 1], ks[|ks| - 1];
      assert ks == init + [k];
      SumSizesSnoc(init, ys, x, key);
      assert key(x) in ks <==> key(x) in init || key(x) == k;
      assert key(x) == k ==> key(x) !in init;
    }
  }

  /** The groups partition the records: their sizes add up to the total. */
  lemma {:induction false} PartitionSizes<T, K>(xs: seq<T>, key: T -> K)
    ensures SumSizes(Distinct(Keys(xs, key)), xs, key) == |xs|
  {
    if xs != [] {
      var ys, x := xs[..|xs| - 1], xs[|xs| - 1];
      assert xs == ys + [x];
      var ks := Keys(xs, key);
      assert ks[..|ks| - 1] == Keys(ys, key);
      var d := Distinct(Keys(ys, key));
      PartitionSizes(ys, key);
      SumSizesSnoc(d, ys, x, key);
      if key(x) !in d {
        var d' := d + [key(x)];
        assert d'[..|d'| - 1] == d;
        DistinctMembers(Keys(ys, key), key(x));
        SelectAbsent(ys, key, key(x));
        assert Select(xs, key, key(x)) == [x];
      }
    }
  }

  /** A value added over the keys `ks`, each read from the dictionary `m`. */
  function SumBy<K, V>(ks: seq<K>, m: map<K, V>, size: V -> nat): nat
    requires forall k :: k in ks ==> k in m
  {
    if ks == [] then 0 else SumBy(ks[..|ks| - 1], m, size) + size(m[ks[|ks| - 1]])
  }

  /** A dictionary whose entries are the group sizes adds up like the groups. */
  lemma {:induction false} SumByGroupSizes<T, K, V>(ks: seq<K>, m: map<K, V>, size: V -> nat, xs: seq<T>, key: T -> K)
    requires forall k :: k in ks ==> k in m && size(m[k]) == |Select(xs, key, k)|
    ensures SumBy(ks, m, size) == SumSizes(ks, xs, key)
  {
    if ks != [] {
      SumByGroupSizes(ks[..|ks| - 1], m, size, xs, key);
    }
  }

  // Growing the list of records by one, as a loop over the records does.

  lemma KeysSnoc<T, K>(xs: seq<T>, x: T, key: T -> K)
    ensures Keys(xs + [x], key) == Keys(xs, key) + [key(x)]
  {
    assert (xs + [x])[..|xs|] == xs;
  }

  lemma DistinctSnoc<K>(ks: seq<K>, k: K)
    ensures Distinct(ks + [k]) == if k in Distinct(ks) then Distinct(ks) else Distinct(ks) + [k]
  {
    assert (ks + [k])[..|ks|] == ks;
  }

  lemma SelectSnoc<T, K>(xs: seq<T>, x: T, key: T -> K, k: K)
    ensures Select(xs + [x], key, k) == Select(xs, key, k) + if key(x) == k then [x] else []
  {
    assert (xs + [x])[..|xs|] == xs;
  }

  lemma CountIfSnoc<T>(xs: seq<T>, x: T, p: T -> bool)
    ensures CountIf(xs + [x], p) == CountIf(xs, p) + if p(x) then 1 else 0
  {
    assert (xs + [x])[..|xs|] == xs;
  }

  // The dictionaries a loop over the first `i` records has built.

  lemma PrefixSnoc<T>(xs: seq<T>, i: nat)
    requires 0 < i <= |xs|
    ensures xs[..i] == xs[..i - 1] + [xs[i - 1]]
  {
  }

  /** The keys inserted so far, in insertion order. */
  function DistinctUpTo<T, K(==)>(xs: seq<T>, key: T -> K, i: nat): seq<K>
    requires i <= |xs|
  {
    if i == 0 then []
    else
      var o := DistinctUpTo(xs, key, i - 1);
      if key(xs[i - 1]) in o then o else o + [key(xs[i - 1])]
  }

  lemma {:induction false} DistinctUpToIsDistinct<T, K>(xs: seq<T>, key: T -> K, i: nat)
    requires i <= |xs|
    ensures DistinctUpTo(xs, key, i) == Distinct(Keys(xs[..i], key))
  {
    if i > 0 {
      DistinctUpToIsDistinct(xs, key, i - 1);
      PrefixSnoc(xs, i);
      KeysSnoc(xs[..i - 1], xs[i - 1], key);
      DistinctSnoc(Keys(xs[..i - 1], key), key(xs[i - 1]));
    }
  }

  /** Setting a key twice keeps the second value. */
  lemma UpdateTwice<K, V>(m: map<K, V>, k: K, v1: V, v2: V)
    ensures m[k := v1][k := v2] == m[k := v2]
  {
  }

  /** The keys seen in the first `i` records are the keys of `xs[..i]`. */
  lemma SeenIffKey<T, K>(xs: seq<T>, key: T -> K, i: nat, k: K)
    requires i <= |xs|
    ensures k in DistinctUpTo(xs, key, i) <==> k in Keys(xs[..i], key)
  {
    DistinctUpToIsDistinct(xs, key, i);
    DistinctMembers(Keys(xs[..i], key), k);
  }

  /** A counter per key, incremented once per record. */
  function CountsUpTo<T, K(==)>(xs: seq<T>, key: T -> K, i: nat): map<K, nat>
    requires i <= |xs|
  {
    if i == 0 then map[]
    else
      var m := CountsUpTo(xs, key, i - 1);
      var k := key(xs[i - 1]);
      m[k := if k in m then m[k] + 1 else 1]
  }

  lemma {:induction false} CountsUpToAreGroupSizes<T, K>(xs: seq<T>, key: T -> K, i: nat, k: K)
    requires i <= |xs|
    ensures k in CountsUpTo(xs, key, i) <==> k in Keys(xs[..i], key)
    ensures k in CountsUpTo(xs, key, i) ==> CountsUpTo(xs, key, i)[k] == |Select(xs[..i], key, k)|
  {
    CountedIffSeen(xs, key, i, k);
    SeenIffKey(xs, key, i, k);
    if i > 0 {
      CountsUpToAreGroupSizes(xs, key, i - 1, k);
      var done, x := xs[..i - 1], xs[i - 1];
      var m0, g0 := CountsUpTo(xs, key, i - 1), Select(done, key, k);
      PrefixSnoc(xs, i);
      SelectSnoc(done, x, key, k);
      if key(x) == k {
        if k !in m0 {
          SelectAbsent(done, key, k);
        }
        assert |Select(xs[..i], key, k)| == |g0| + 1;
      } else {
        assert Select(xs[..i], key, k) == g0;
      }
    }
  }

  /** A key has a counter exactly when it is among the keys seen. */
  lemma {:induction false} CountedIffSeen<T, K>(xs: seq<T>, key: T -> K, i: nat, k: K)
    requires i <= |xs|
    ensures k in CountsUpTo(xs, key, i) <==> k in DistinctUpTo(xs, key, i)
  {
    if i > 0 {
      CountedIffSeen(xs, key, i - 1, k);
    }
  }

  /** A dictionary from each key, in first-occurrence order, to the size of
      its group. */
  ghost predicate IsGroupSizes<T, K(!new)>(xs: seq<T>, key: T -> K, order: seq<K>, m: map<K, nat>) {
    && order == Distinct(Keys(xs, key))
    && (forall k :: k in m <==> k in order)
    && (forall k :: k in m ==> m[k] == |Select(xs, key, k)|)
  }

  /** After the whole list, the counters are the group sizes. */
  lemma CountsAreGroupSizes<T, K(!new)>(xs: seq<T>, key: T -> K)
    ensures IsGroupSizes(xs, key, DistinctUpTo(xs, key, |xs|), CountsUpTo(xs, key, |xs|))
  {
    assert xs[..|xs|] == xs;
    DistinctUpToIsDistinct(xs, key, |xs|);
    var m, ds := CountsUpTo(xs, key, |xs|), Distinct(Keys(xs, key));
    forall k ensures k in m <==> k in ds ensures k in m ==> m[k] == |Select(xs, key, k)| {
      CountsUpToAreGroupSizes(xs, key, |xs|, k);
      DistinctMembers(Keys(xs, key), k);
    }
  }

  /** A list per key, each record appended to the list of its key. */
  function GroupsUpTo<T, K(==)>(xs: seq<T>, key: T -> K, i: nat): map<K, seq<T>>
    requires i <= |xs|
  {
    if i == 0 then map[]
    else
      var m := GroupsUpTo(xs, key, i - 1);
      var k := key(xs[i - 1]);
      m[k := (if k in m then m[k] else []) + [xs[i - 1]]]
  }

  lemma {:induction false} GroupsUpToAreSelections<T, K>(xs: seq<T>, key: T -> K, i: nat, k: K)
    requires i <= |xs|
    ensures k in GroupsUpTo(xs, key, i) <==> k in Keys(xs[..i], key)
    ensures k in GroupsUpTo(xs, key, i) ==> GroupsUpTo(xs, key, i)[k] == Select(xs[..i], key, k)
  {
    GroupedIffSeen(xs, key, i, k);
    SeenIffKey(xs, key, i, k);
    if i > 0 {
      GroupsUpToAreSelections(xs, key, i - 1, k);
      var done, x := xs[..i - 1], xs[i - 1];
      var m0, g0 := GroupsUpTo(xs, key, i - 1), Select(done, key, k);
      PrefixSnoc(xs, i);
      SelectSnoc(done, x, key, k);
      if key(x) == k {
        if k !in m0 {
          SelectAbsent(done, key, k);
        }
        assert Select(xs[..i], key, k) == g0 + [x];
      } else {
        assert Select(xs[..i], key, k) == g0;
      }
    }
  }

  /** A key has a list exactly when it is among the keys seen. */
  lemma {:induction false} GroupedIffSeen<T, K>(xs: seq<T>, key: T -> K, i: nat, k: K)
    requires i <= |xs|
    ensures k in GroupsUpTo(xs, key, i) <==> k in DistinctUpTo(xs, key, i)
  {
    if i > 0 {
      GroupedIffSeen(xs, key, i - 1, k);
    }
  }

  /** A dictionary from each key, in first-occurrence order, to its group. */
  ghost predicate IsGrouping<T, K(!new)>(xs: seq<T>, key: T -> K, order: seq<K>, m: map<K, seq<T>>) {
    && order == Distinct(Keys(xs, key))
    && (forall k :: k in m <==> k in order)
    && (forall k :: k in m ==> m[k] == Select(xs, key, k))
  }

  /** After the whole list, the lists are the groups. */
  lemma GroupsAreSelections<T, K(!new)>(xs: seq<T>, key: T -> K)
    ensures IsGrouping(xs, key, DistinctUpTo(xs, key, |xs|), GroupsUpTo(xs, key, |xs|))
  {
    assert xs[..|xs|] == xs;
    DistinctUpToIsDistinct(xs, key, |xs|);
    var m, ds := GroupsUpTo(xs, key, |xs|), Distinct(Keys(xs, key));
    forall k ensures k in m <==> k in ds ensures k in m ==> m[k] == Select(xs, key, k) {
      GroupsUpToAreSelections(xs, key, |xs|, k);
      DistinctMembers(Keys(xs, key), k);
    }
  }
}
