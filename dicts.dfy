/** An insertion-ordered dictionary, as Python's `dict` is: a sequence of
    key/value pairs in which no key occurs twice. Iteration (`items()`)
    follows the sequence; assigning to a key already present keeps its
    position, assigning to a new key appends it. */
module Dicts {

  predicate DistinctKeys<K(==), V>(d: seq<(K, V)>) {
    forall i, j | 0 <= i < j < |d| :: d[i].0 != d[j].0
  }

  type Dict<K(==), V> = d: seq<(K, V)> | DistinctKeys(d) witness []

  /** The keys of `d`, as a set. */
  function Keys<K(==), V>(d: seq<(K, V)>): set<K> {
    set i | 0 <= i < |d| :: d[i].0
  }

  /** The mapping `d` stands for: each key to the one value stored with it. */
  function ToMap<K(==), V>(d: Dict<K, V>): (m: map<K, V>)
    ensures m.Keys == Keys(d)
    ensures forall i | 0 <= i < |d| :: d[i].0 in m && m[d[i].0] == d[i].1
  {
    if d == [] then map[]
    else
      var rest: Dict<K, V> := d[1..];
      assert Keys(d) == Keys(rest) + {d[0].0} by {
        forall k | k in Keys(d) ensures k in Keys(rest) + {d[0].0} {
          var i :| 0 <= i < |d| && d[i].0 == k;
          if i > 0 { assert rest[i - 1].0 == k; }
        }
      }
      ToMap(rest)[d[0].0 := d[0].1]
  }

  /** The position of key `k` in `d`. */
  function IndexOf<K(==), V>(d: seq<(K, V)>, k: K): (i: nat)
    requires k in Keys(d)
    ensures i < |d| && d[i].0 == k
  {
    if d[0].0 == k then 0
    else
      assert k in Keys(d[1..]) by {
        var j :| 0 <= j < |d| && d[j].0 == k;
        assert d[1..][j - 1].0 == k;
      }
      1 + IndexOf(d[1..], k)
  }

  /** `d[k] = v`: an existing key keeps its place and takes the new value,
      a new key is appended at the end. */
  function SetItem<K(==), V>(d: Dict<K, V>, k: K, v: V): (r: Dict<K, V>)
    ensures k in Keys(d) ==> |r| == |d| && forall i | 0 <= i < |d| :: r[i] == (if d[i].0 == k then (k, v) else d[i])
    ensures k !in Keys(d) ==> r == d + [(k, v)]
    ensures ToMap(r) == ToMap(d)[k := v]
  {
    var p := if k in Keys(d) then IndexOf(d, k) else |d|;
    var r: Dict<K, V> := if p < |d| then d[p := (k, v)] else d + [(k, v)];
    SetItemMap(d, k, v, r, p);
    r
  }

  /** `r` is `d` with the entry at position `p` replaced by, or (when `p` is
      the length of `d`) extended with, the entry `(k, v)`. */
  ghost predicate PlacedAt<K, V>(d: Dict<K, V>, k: K, v: V, r: Dict<K, V>, p: nat) {
    && p <= |d|
    && |r| == (if p < |d| then |d| else |d| + 1)
    && r[p] == (k, v)
    && (p < |d| ==> d[p].0 == k)
    && (p == |d| ==> k !in Keys(d))
    && (forall i | 0 <= i < |d| && i != p :: r[i] == d[i])
  }

  lemma SetItemMap<K, V>(d: Dict<K, V>, k: K, v: V, r: Dict<K, V>, p: nat)
    requires PlacedAt(d, k, v, r, p)
    ensures ToMap(r) == ToMap(d)[k := v]
  {
    SetItemKeys(d, k, v, r, p);
    forall x | x in Keys(r) ensures ToMap(r)[x] == ToMap(d)[k := v][x] {
      SetItemValue(d, k, v, r, p, x);
    }
  }

  lemma SetItemKeys<K, V>(d: Dict<K, V>, k: K, v: V, r: Dict<K, V>, p: nat)
    requires PlacedAt(d, k, v, r, p)
    ensures Keys(r) == Keys(d) + {k}
  {
    forall x | x in Keys(d) ensures x in Keys(r) {
      var i :| 0 <= i < |d| && d[i].0 == x;
      if i == p { assert r[p].0 == x; } else { assert r[i].0 == x; }
    }
    forall x | x in Keys(r) ensures x in Keys(d) + {k} {
      var i :| 0 <= i < |r| && r[i].0 == x;
      if i != p { assert d[i].0 == x; }
    }
    assert r[p].0 == k;
  }

  lemma SetItemValue<K, V>(d: Dict<K, V>, k: K, v: V, r: Dict<K, V>, p: nat, x: K)
    requires PlacedAt(d, k, v, r, p)
    requires x in Keys(r)
    ensures x in ToMap(d)[k := v] && ToMap(r)[x] == ToMap(d)[k := v][x]
  {
    var i :| 0 <= i < |r| && r[i].0 == x;
    if i == p {
      assert x == k;
    } else {
      assert i < |d| && d[i] == r[i];
    }
  }
}
