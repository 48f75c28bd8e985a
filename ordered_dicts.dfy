/** Python dictionaries as the scripts use them: insertion-ordered maps.
    Assigning to a present key replaces its value in place; assigning to a
    new key appends it; iteration follows insertion order. */
module OrderedDicts {

  /** The entries of a dictionary in iteration order. */
  type ODict<K, V> = seq<(K, V)>

  function Keys<K, V>(d: ODict<K, V>): (ks: seq<K>)
    ensures |ks| == |d| && forall i :: 0 <= i < |d| ==> ks[i] == d[i].0
  {
    if d == [] then [] else [d[0].0] + Keys(d[1..])
  }

  /** No key occurs twice: the shape every dictionary has. */
  predicate DistinctKeys<K(==), V>(d: ODict<K, V>)
  {
    forall i, j :: 0 <= i < j < |d| ==> d[i].0 != d[j].0
  }

  predicate HasKey<K(==), V>(d: ODict<K, V>, k: K)
  {
    exists i :: 0 <= i < |d| && d[i].0 == k
  }

  /** The position of key `k`. */
  function Find<K(==), V>(d: ODict<K, V>, k: K): (i: nat)
    requires HasKey(d, k)
    ensures i < |d| && d[i].0 == k && forall j :: 0 <= j < i ==> d[j].0 != k
  {
    if d[0].0 == k then 0
    else
      assert HasKey(d[1..], k) by {
        var i :| 0 <= i < |d| && d[i].0 == k;
        assert d[1..][i - 1].0 == k;
      }
      Find(d[1..], k) + 1
  }

  /** `d[k]`. */
  function Get<K(==), V>(d: ODict<K, V>, k: K): V
    requires HasKey(d, k)
  {
    d[Find(d, k)].1
  }

  /** `d.get(k, default)`. */
  function GetOr<K(==), V>(d: ODict<K, V>, k: K, default: V): V
  {
    if HasKey(d, k) then Get(d, k) else default
  }

  /** `d.get(k, default)` is the value of the first entry whose key is `k`, or
      the default when `k` is not among the keys. */
  lemma GetOrMeaning<K, V>(d: ODict<K, V>, k: K, default: V)
    ensures k !in Keys(d) ==> GetOr(d, k, default) == default
    ensures k in Keys(d) ==>
      exists i :: 0 <= i < |d| && d[i] == (k, GetOr(d, k, default)) && k !in Keys(d[..i])
  {
    HasKeyIsInKeys(d, k);
    if HasKey(d, k) {
      var i := Find(d, k);
      assert forall j :: 0 <= j < i ==> Keys(d[..i])[j] == d[j].0;
      assert d[i] == (k, GetOr(d, k, default));
    }
  }

  /** `d[k] = v`: the value of a present key is replaced where it stands, a new
      key goes to the end. */
  function Put<K(==), V>(d: ODict<K, V>, k: K, v: V): ODict<K, V>
  {
    if HasKey(d, k) then d[Find(d, k) := (k, v)] else d + [(k, v)]
  }

  /** After `d[k] = v`, `k` maps to `v`, every other key keeps its value, and
      the keys are the old ones, with `k` last if it is new. */
  lemma PutMeaning<K, V>(d: ODict<K, V>, k: K, v: V)
    ensures var r := Put(d, k, v);
      && Keys(r) == (if k in Keys(d) then Keys(d) else Keys(d) + [k])
      && HasKey(r, k) && Get(r, k) == v
      && forall i :: 0 <= i < |d| && d[i].0 != k ==> HasKey(r, d[i].0) && Get(r, d[i].0) == Get(d, d[i].0)
  {
    HasKeyIsInKeys(d, k);
    if HasKey(d, k) {
      PutPresent(d, k, v);
    } else {
      PutNew(d, k, v);
    }
  }

  lemma PutPresent<K, V>(d: ODict<K, V>, k: K, v: V)
    requires HasKey(d, k)
    ensures var r := Put(d, k, v);
      && Keys(r) == Keys(d)
      && HasKey(r, k) && Get(r, k) == v
      && forall i :: 0 <= i < |d| && d[i].0 != k ==> HasKey(r, d[i].0) && Get(r, d[i].0) == Get(d, d[i].0)
  {
    var p := Find(d, k);
    var r := d[p := (k, v)];
    SameKeys(d, r);
    assert Find(r, k) == p;
    PutKeepsOthers(d, r, k);
  }

  lemma PutNew<K, V>(d: ODict<K, V>, k: K, v: V)
    requires !HasKey(d, k)
    ensures var r := Put(d, k, v);
      && Keys(r) == Keys(d) + [k]
      && HasKey(r, k) && Get(r, k) == v
      && forall i :: 0 <= i < |d| && d[i].0 != k ==> HasKey(r, d[i].0) && Get(r, d[i].0) == Get(d, d[i].0)
  {
    var r := d + [(k, v)];
    KeysAppend(d, (k, v));
    assert r[|d|].0 == k;
    assert Find(r, k) == |d|;
    PutKeepsOthers(d, r, k);
  }

  /** Dictionaries whose entries carry the same keys have the same keys. */
  lemma SameKeys<K, V>(d: ODict<K, V>, r: ODict<K, V>)
    requires |d| == |r| && forall i :: 0 <= i < |d| ==> r[i].0 == d[i].0
    ensures Keys(r) == Keys(d)
  {
  }

  lemma KeysAppend<K, V>(d: ODict<K, V>, e: (K, V))
    ensures Keys(d + [e]) == Keys(d) + [e.0]
  {
  }

  /** When `r` agrees with `d` on every key and keeps every entry whose key is
      not `k`, each other key of `d` has the same value in `r`. */
  lemma PutKeepsOthers<K, V>(d: ODict<K, V>, r: ODict<K, V>, k: K)
    requires |d| <= |r|
    requires forall i :: 0 <= i < |d| ==> r[i].0 == d[i].0 && (d[i].0 != k ==> r[i] == d[i])
    ensures forall i :: 0 <= i < |d| && d[i].0 != k ==> HasKey(r, d[i].0) && Get(r, d[i].0) == Get(d, d[i].0)
  {
    forall i | 0 <= i < |d| && d[i].0 != k ensures HasKey(r, d[i].0) && Get(r, d[i].0) == Get(d, d[i].0) {
      var k' := d[i].0;
      var q := Find(d, k');
      assert r[q] == d[q];
      assert Find(r, k') == q;
    }
  }

  /** Assignment keeps the keys distinct, makes `k` map to `v`, leaves every
      other key's value alone and keeps the order of the keys. */
  lemma PutGet<K, V>(d: ODict<K, V>, k: K, v: V)
    requires DistinctKeys(d)
    ensures var r := Put(d, k, v);
      && DistinctKeys(r)
      && HasKey(r, k) && Get(r, k) == v
      && (forall k' :: k' != k ==> (HasKey(r, k') <==> HasKey(d, k')))
      && (forall k' :: k' != k && HasKey(d, k') ==> Get(r, k') == Get(d, k'))
      && Keys(r) == if HasKey(d, k) then Keys(d) else Keys(d) + [k]
  {
    var r := Put(d, k, v);
    if HasKey(d, k) {
      var p := Find(d, k);
      assert r[p].0 == k;
      assert forall i :: 0 <= i < |r| ==> r[i].0 == d[i].0;
      forall k' | k' != k && HasKey(d, k') ensures HasKey(r, k') && Get(r, k') == Get(d, k') {
        var q := Find(d, k');
        assert r[q] == d[q];
      }
      forall k' | k' != k && HasKey(r, k') ensures HasKey(d, k') {
        var q := Find(r, k');
        assert r[q] == d[q];
      }
    } else {
      assert r[|d|].0 == k;
      forall k' | k' != k && HasKey(d, k') ensures HasKey(r, k') && Get(r, k') == Get(d, k') {
        var q := Find(d, k');
        assert r[q] == d[q];
      }
      forall k' | k' != k && HasKey(r, k') ensures HasKey(d, k') {
        var q := Find(r, k');
        assert r[q] == d[q];
      }
    }
  }

  /** A key is present exactly when it is among the keys. */
  lemma HasKeyIsInKeys<K, V>(d: ODict<K, V>, k: K)
    ensures HasKey(d, k) <==> k in Keys(d)
  {
    if k in Keys(d) {
      var i :| 0 <= i < |Keys(d)| && Keys(d)[i] == k;
      assert d[i].0 == k;
    }
  }
}
