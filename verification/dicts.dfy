/**
 Insertion-ordered dictionaries with integer keys: the part of the Python
 `dict` semantics the item store relies on. A dictionary is its contents, a
 finite map, together with the order in which its keys were first inserted.
 Assigning to a present key overwrites its value and keeps its position,
 assigning to a new key appends it, and deleting a key drops it from the
 order, keeping the other keys in theirs.
 */
module Dicts {

  datatype RawDict<V> = RawDict(order: seq<int>, content: map<int, V>)

  /** No key occurs twice: the first is not among the rest, and the rest
      repeat nothing. */
  predicate Distinct(ks: seq<int>)
    decreases |ks|
  {
    |ks| == 0 || (ks[0] !in ks[1..] && Distinct(ks[1..]))
  }

  /** The order lists each key of the contents exactly once. */
  predicate Valid<V>(d: RawDict<V>)
  {
    && Distinct(d.order)
    && (forall k :: k in d.content ==> k in d.order)
    && (forall i :: 0 <= i < |d.order| ==> d.order[i] in d.content)
  }

  type Dict<V> = d: RawDict<V> | Valid(d) witness RawDict([], map[])

  /** Distinct positions hold distinct keys. */
  lemma {:induction false} DistinctAt(ks: seq<int>)
    requires Distinct(ks)
    ensures forall i, j :: 0 <= i < j < |ks| ==> ks[i] != ks[j]
    decreases |ks|
  {
    if |ks| > 0 {
      var t := ks[1..];
      DistinctAt(t);
      forall i, j | 0 <= i < j < |ks|
        ensures ks[i] != ks[j]
      {
        assert ks[j] == t[j - 1];
        if i > 0 {
          assert ks[i] == t[i - 1];
        }
      }
    }
  }

  /** Appending a key not yet present repeats nothing. */
  lemma {:induction false} DistinctAppend(ks: seq<int>, k: int)
    requires Distinct(ks) && k !in ks
    ensures Distinct(ks + [k])
    decreases |ks|
  {
    if |ks| > 0 {
      DistinctAppend(ks[1..], k);
      assert (ks + [k])[1..] == ks[1..] + [k];
    } else {
      assert ks + [k] == [k];
    }
  }

  /** The keys of a sequence, as a set. */
  function SetOf(ks: seq<int>): set<int>
  {
    set k | k in ks
  }

  /** A sequence without repetitions has as many elements as its set. */
  lemma {:induction false} DistinctCard(ks: seq<int>)
    requires Distinct(ks)
    ensures |SetOf(ks)| == |ks|
    decreases |ks|
  {
    if |ks| > 0 {
      var t := ks[1..];
      DistinctCard(t);
      assert ks == [ks[0]] + t;
      assert SetOf(ks) == SetOf(t) + {ks[0]};
    }
  }

  /** A dictionary has exactly as many keys in its order as in its contents. */
  lemma KeyCount<V>(d: Dict<V>)
    ensures |d.content| == |d.order|
  {
    DistinctCard(d.order);
    forall x
      ensures x in d.content.Keys <==> x in SetOf(d.order)
    {
      if x in d.order {
        var i :| 0 <= i < |d.order| && d.order[i] == x;
      }
    }
    assert d.content.Keys == SetOf(d.order);
  }

  /** `d[k] = v`: overwrite in place when `k` is present, append otherwise. */
  function Put<V>(d: Dict<V>, k: int, v: V): (r: Dict<V>)
    ensures r.content == d.content[k := v]
    ensures k in d.content ==> r.order == d.order
    ensures k !in d.content ==> r.order == d.order + [k]
  {
    if k in d.content then RawDict(d.order, d.content[k := v])
    else
      DistinctAppend(d.order, k);
      RawDict(d.order + [k], d.content[k := v])
  }

  /** The keys of `ks` other than `k`, in their order. */
  function Without(ks: seq<int>, k: int): (r: seq<int>)
    ensures |r| <= |ks|
    ensures k !in ks ==> r == ks
    decreases |ks|
  {
    if |ks| == 0 then []
    else
      assert ks == [ks[0]] + ks[1..];
      if ks[0] == k then Without(ks[1..], k)
      else [ks[0]] + Without(ks[1..], k)
  }

  /** Dropping `k` keeps exactly the other keys. */
  lemma {:induction false} WithoutMembers(ks: seq<int>, k: int)
    ensures forall x :: x in Without(ks, k) <==> x in ks && x != k
    decreases |ks|
  {
    if |ks| > 0 {
      WithoutMembers(ks[1..], k);
      assert ks == [ks[0]] + ks[1..];
    }
  }

  /** Dropping a key introduces no repetition. */
  lemma {:induction false} WithoutDistinct(ks: seq<int>, k: int)
    requires Distinct(ks)
    ensures Distinct(Without(ks, k))
    decreases |ks|
  {
    if |ks| > 0 {
      var t := ks[1..];
      WithoutDistinct(t, k);
      if ks[0] != k {
        WithoutMembers(t, k);
        var r := [ks[0]] + Without(t, k);
        assert r[1..] == Without(t, k);
      }
    }
  }

  /** Dropping a key that occurs once, at position `i`, removes exactly that
      position. */
  lemma {:induction false} WithoutSplices(ks: seq<int>, k: int, i: int)
    requires Distinct(ks) && 0 <= i < |ks| && ks[i] == k
    ensures Without(ks, k) == ks[..i] + ks[i + 1..]
    decreases |ks|
  {
    var t := ks[1..];
    assert ks == [ks[0]] + t;
    if i == 0 {
      assert ks[1..] == t;
    } else {
      WithoutSplices(t, k, i - 1);
      assert ks[..i] == [ks[0]] + t[..i - 1];
      assert ks[i + 1..] == t[i..];
    }
  }

  /** `del d[k]`, which Python allows only on a present key: the key leaves
      the contents and the order, the other keys keep their values. */
  function Remove<V>(d: Dict<V>, k: int): (r: Dict<V>)
    requires k in d.content
    ensures r.content == d.content - {k}
  {
    var order := Without(d.order, k);
    var content := d.content - {k};
    WithoutMembers(d.order, k);
    WithoutDistinct(d.order, k);
    assert forall x :: x in content ==> x in order;
    assert forall i :: 0 <= i < |order| ==> order[i] in content by {
      forall i | 0 <= i < |order| ensures order[i] in content {
        assert order[i] in order;
        var j :| 0 <= j < |d.order| && d.order[j] == order[i];
      }
    }
    RawDict(order, content)
  }

  /** Deleting a present key cuts its one position out of the order: the
      other keys keep their relative order. */
  lemma RemoveKeepsOrder<V>(d: Dict<V>, k: int)
    requires k in d.content
    ensures exists i :: 0 <= i < |d.order| && d.order[i] == k && Remove(d, k).order == d.order[..i] + d.order[i + 1..]
  {
    var i :| 0 <= i < |d.order| && d.order[i] == k;
    WithoutSplices(d.order, k, i);
  }

  /** Dropping a key just appended, and found nowhere before, gives back the
      keys before it. */
  lemma {:induction false} WithoutAppended(ks: seq<int>, k: int)
    requires k !in ks
    ensures Without(ks + [k], k) == ks
    decreases |ks|
  {
    if |ks| == 0 {
      assert [k][1..] == [];
    } else {
      WithoutAppended(ks[1..], k);
      assert (ks + [k])[1..] == ks[1..] + [k];
      assert ks == [ks[0]] + ks[1..];
    }
  }

  /** Inserting a new key and deleting it again restores the dictionary,
      order included. */
  lemma PutThenRemove<V>(d: Dict<V>, k: int, v: V)
    requires k !in d.content
    ensures Remove(Put(d, k, v), k) == d
  {
    WithoutAppended(d.order, k);
    assert Remove(Put(d, k, v), k).content == d.content;
  }

  /** `list(d.values())`: the values in insertion order, one per key. */
  function Values<V(==)>(d: Dict<V>): (vs: seq<V>)
    ensures |vs| == |d.content|
    ensures forall k :: k in d.content ==> d.content[k] in vs
    ensures forall x :: x in vs ==> exists k :: k in d.content && d.content[k] == x
    ensures |vs| == |d.order| && forall i :: 0 <= i < |d.order| ==> vs[i] == d.content[d.order[i]]
  {
    KeyCount(d);
    var vs := seq(|d.order|, i requires 0 <= i < |d.order| => d.content[d.order[i]]);
    assert forall k :: k in d.content ==> d.content[k] in vs by {
      forall k | k in d.content ensures d.content[k] in vs {
        var i :| 0 <= i < |d.order| && d.order[i] == k;
        assert vs[i] == d.content[k];
      }
    }
    assert forall x :: x in vs ==> exists k :: k in d.content && d.content[k] == x by {
      forall x | x in vs ensures exists k :: k in d.content && d.content[k] == x {
        var i :| 0 <= i < |vs| && vs[i] == x;
        var k := d.order[i];
        assert k in d.content && d.content[k] == x;
      }
    }
    vs
  }
}
