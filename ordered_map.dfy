/**
 * A JavaScript `Map` as an insertion-ordered association list. `Set` on a key
 * that is already present replaces its value in place and keeps its position;
 * a new key is appended.
 */
module OrderedMap {
  import opened Wrappers

  /** The keys in insertion order. */
  function Keys<K, V>(m: seq<(K, V)>): (r: seq<K>)
    ensures |r| == |m|
    ensures forall i :: 0 <= i < |m| ==> r[i] == m[i].0
  {
    if m == [] then [] else Keys(m[..|m| - 1]) + [m[|m| - 1].0]
  }

  /** The values in insertion order (`Array.from(map.values())`). */
  function Values<K, V>(m: seq<(K, V)>): (r: seq<V>)
    ensures |r| == |m|
    ensures forall i :: 0 <= i < |m| ==> r[i] == m[i].1
  {
    if m == [] then [] else Values(m[..|m| - 1]) + [m[|m| - 1].1]
  }

  /** No element occurs twice. */
  ghost predicate Distinct<T>(s: seq<T>) {
    forall i, j :: 0 <= i < j < |s| ==> s[i] != s[j]
  }

  /** The position of `k`: the first index holding it. */
  function IndexOf<K(==), V>(m: seq<(K, V)>, k: K): (r: nat)
    requires k in Keys(m)
    ensures r < |m| && m[r].0 == k
    ensures forall j :: 0 <= j < r ==> m[j].0 != k
  {
    if m[0].0 == k then 0
    else
      assert Keys(m) == [m[0].0] + Keys(m[1..]);
      1 + IndexOf(m[1..], k)
  }

  /** `map.get(k)`. */
  function Get<K(==), V>(m: seq<(K, V)>, k: K): (r: Option<V>)
    ensures r.Some? <==> k in Keys(m)
    ensures r.Some? ==> (k, r.value) in m
  {
    if k in Keys(m) then Some(m[IndexOf(m, k)].1) else None
  }

  /** `map.set(k, v)`: replace in place when present, append otherwise. */
  function Set<K(==), V>(m: seq<(K, V)>, k: K, v: V): (r: seq<(K, V)>)
    ensures k in Keys(m) ==> |r| == |m| && Keys(r) == Keys(m)
    ensures k !in Keys(m) ==> r == m + [(k, v)] && Keys(r) == Keys(m) + [k]
    ensures forall i :: 0 <= i < |m| && m[i].0 != k ==> r[i] == m[i]
    ensures forall i :: 0 <= i < |r| ==> r[i] == (k, v) || (i < |m| && r[i] == m[i])
    ensures Get(r, k) == Some(v)
  {
    if k in Keys(m) then
      var i := IndexOf(m, k);
      var r := m[i := (k, v)];
      assert Keys(r) == Keys(m);
      assert IndexOf(r, k) == i;
      r
    else
      var r := m + [(k, v)];
      assert Keys(r) == Keys(m) + [k];
      assert IndexOf(r, k) == |m|;
      r
  }

  /** Setting one key leaves every other key's value as it was. */
  lemma GetAfterSet<K, V>(m: seq<(K, V)>, k: K, v: V, k': K)
    requires k' != k
    ensures Get(Set(m, k, v), k') == Get(m, k')
  {
    var r := Set(m, k, v);
    assert forall j :: 0 <= j < |m| ==> r[j].0 == m[j].0 by {
      if k in Keys(m) {
        assert Keys(r) == Keys(m);
      }
    }
    if k' in Keys(m) {
      var i := IndexOf(m, k');
      assert k' in Keys(r) by {
        assert Keys(r)[i] == k';
      }
      assert IndexOf(r, k') == i;
    } else {
      assert k' !in Keys(r);
    }
  }

  /** With distinct keys, looking up the key of a pair finds that pair's value. */
  lemma GetAt<K, V>(m: seq<(K, V)>, i: nat)
    requires i < |m| && Distinct(Keys(m))
    ensures Get(m, m[i].0) == Some(m[i].1)
  {
    var k := m[i].0;
    assert Keys(m)[i] == k;
    var r := IndexOf(m, k);
    assert r <= i && Keys(m)[r] == k;
    assert r == i;
  }

  /** `Set` keeps the keys pairwise distinct. */
  lemma SetKeepsDistinct<K, V>(m: seq<(K, V)>, k: K, v: V)
    requires Distinct(Keys(m))
    ensures Distinct(Keys(Set(m, k, v)))
  {
    if k !in Keys(m) {
      assert Keys(Set(m, k, v)) == Keys(m) + [k];
    }
  }

  /** Under distinct keys no pair occurs twice. */
  lemma {:induction false} DistinctKeysOnce<K, V>(m: seq<(K, V)>, p: (K, V))
    requires Distinct(Keys(m))
    ensures multiset(m)[p] <= 1
    decreases |m|
  {
    if m != [] {
      var init := m[..|m| - 1];
      assert m == init + [m[|m| - 1]];
      forall i, j | 0 <= i < j < |init|
        ensures Keys(init)[i] != Keys(init)[j]
      {
        assert Keys(m)[i] != Keys(m)[j];
      }
      DistinctKeysOnce(init, p);
    }
  }

  /** An element at two positions occurs at least twice. */
  lemma TwicePlaced<T>(s: seq<T>, i: nat, j: nat)
    requires i < j < |s| && s[i] == s[j]
    ensures multiset(s)[s[i]] >= 2
  {
    assert s == s[..j] + s[j..];
    assert s[i] in s[..j] && s[j..][0] == s[j];
  }

  /** Any selection of a map's pairs, each taken at most once, keeps the keys distinct. */
  lemma SubMapDistinct<K, V>(m: seq<(K, V)>, t: seq<(K, V)>)
    requires Distinct(Keys(m)) && multiset(t) <= multiset(m)
    ensures Distinct(Keys(t))
  {
    forall i, j | 0 <= i < j < |t|
      ensures Keys(t)[i] != Keys(t)[j]
    {
      if t[i].0 == t[j].0 {
        assert t[i] in multiset(m) && t[j] in multiset(m);
        var a :| 0 <= a < |m| && m[a] == t[i];
        var b :| 0 <= b < |m| && m[b] == t[j];
        assert Keys(m)[a] == Keys(m)[b];
        TwicePlaced(t, i, j);
        DistinctKeysOnce(m, t[i]);
        assert false;
      }
    }
  }

  /** The set of keys. */
  ghost function KeySet<K, V>(m: seq<(K, V)>): set<K> {
    if m == [] then {} else KeySet(m[..|m| - 1]) + {m[|m| - 1].0}
  }

  lemma {:induction false} KeySetIsKeys<K, V>(m: seq<(K, V)>, k: K)
    ensures k in KeySet(m) <==> k in Keys(m)
  {
    if m != [] {
      var p := m[..|m| - 1];
      KeySetIsKeys(p, k);
      assert Keys(m) == Keys(p) + [m[|m| - 1].0];
    }
  }

  /** Two maps with the same key sequence have the same key set. */
  lemma {:induction false} KeySetOfKeys<K, V>(m: seq<(K, V)>, r: seq<(K, V)>)
    requires Keys(m) == Keys(r)
    ensures KeySet(m) == KeySet(r)
  {
    if m != [] {
      assert Keys(m[..|m| - 1]) == Keys(m)[..|m| - 1];
      assert Keys(r[..|r| - 1]) == Keys(r)[..|r| - 1];
      KeySetOfKeys(m[..|m| - 1], r[..|r| - 1]);
    }
  }

  /** `Set` adds its key to the key set and nothing else. */
  lemma KeySetAfterSet<K, V>(m: seq<(K, V)>, k: K, v: V)
    ensures KeySet(Set(m, k, v)) == KeySet(m) + {k}
  {
    KeySetIsKeys(m, k);
    if k in Keys(m) {
      assert KeySet(Set(m, k, v)) == KeySet(m) by {
        KeySetOfKeys(m, Set(m, k, v));
      }
    } else {
      assert KeySet(m + [(k, v)]) == KeySet(m) + {k} by {
        assert (m + [(k, v)])[..|m|] == m;
      }
    }
  }

  /** With distinct keys, the map has as many entries as keys. */
  lemma {:induction false} KeySetSize<K, V>(m: seq<(K, V)>)
    requires Distinct(Keys(m))
    ensures |KeySet(m)| == |m|
  {
    if m != [] {
      var p := m[..|m| - 1];
      var k := m[|m| - 1].0;
      assert Keys(m) == Keys(p) + [k];
      KeySetSize(p);
      KeySetIsKeys(p, k);
    }
  }

  /**
   * The first-occurrence order of the elements of `s` without repeats: the key
   * order of a map into which the elements of `s` are set one after another.
   */
  function Dedup<T(==,!new)>(s: seq<T>): (r: seq<T>)
    ensures forall x :: x in r <==> x in s
    ensures Distinct(r)
  {
    if s == [] then []
    else
      var d := Dedup(s[..|s| - 1]);
      assert forall x :: x in s <==> x in s[..|s| - 1] || x == s[|s| - 1];
      if s[|s| - 1] in d then d else d + [s[|s| - 1]]
  }
}
