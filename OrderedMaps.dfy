/**
 An ordered map with integer keys, as `std::map` is used by a state set for its mode
 table and its attribute table. The map is an association sequence whose keys are
 strictly increasing, so that the sequence order is the map's ascending iteration order.
 */
module OrderedMaps {

  import opened Wrappers

  type Key = int

  /** Keys strictly increase along the sequence: ascending order, at most one entry per key. */
  predicate StrictlySorted<V>(s: seq<(Key, V)>)
  {
    forall i, j :: 0 <= i < j < |s| ==> s[i].0 < s[j].0
  }

  /** Every key of s is strictly above lo. */
  predicate KeysAbove<V>(s: seq<(Key, V)>, lo: Key)
  {
    forall i :: 0 <= i < |s| ==> lo < s[i].0
  }

  /** `map::find`: the value stored under k, or None when k has no entry. */
  function Find<V>(s: seq<(Key, V)>, k: Key): (r: Option<V>)
    ensures r.None? <==> forall i :: 0 <= i < |s| ==> s[i].0 != k
    ensures r.Some? ==> (k, r.value) in s
  {
    if |s| == 0 then None
    else if s[0].0 == k then Some(s[0].1)
    else Find(s[1..], k)
  }

  /** `map[k] = v`: insert an entry for k, or replace the value of the one already there. */
  function Insert<V>(s: seq<(Key, V)>, k: Key, v: V): (r: seq<(Key, V)>)
    requires StrictlySorted(s)
    ensures StrictlySorted(r)
    ensures Find(r, k) == Some(v)
    ensures forall k' :: k' != k ==> Find(r, k') == Find(s, k')
    ensures forall lo :: KeysAbove(s, lo) && lo < k ==> KeysAbove(r, lo)
    ensures |r| == if Find(s, k).Some? then |s| else |s| + 1
  {
    if |s| == 0 then [(k, v)]
    else if k < s[0].0 then [(k, v)] + s
    else if k == s[0].0 then [(k, v)] + s[1..]
    else
      assert KeysAbove(s[1..], s[0].0);
      var tail := Insert(s[1..], k, v);
      PrependBelow(s[0], tail);
      [s[0]] + tail
  }

  /** `map.erase(k)`: remove the entry for k; nothing changes when there is none. */
  function Erase<V>(s: seq<(Key, V)>, k: Key): (r: seq<(Key, V)>)
    requires StrictlySorted(s)
    ensures StrictlySorted(r)
    ensures Find(r, k) == None
    ensures forall k' :: k' != k ==> Find(r, k') == Find(s, k')
    ensures forall lo :: KeysAbove(s, lo) ==> KeysAbove(r, lo)
    ensures Find(s, k).None? ==> r == s
    ensures |r| == if Find(s, k).Some? then |s| - 1 else |s|
  {
    if |s| == 0 then []
    else if s[0].0 == k then
      assert forall i :: 0 <= i < |s[1..]| ==> s[0].0 < s[1..][i].0;
      s[1..]
    else
      var tail := Erase(s[1..], k);
      assert KeysAbove(s[1..], s[0].0);
      PrependBelow(s[0], tail);
      assert Find(s[1..], k).None? ==> [s[0]] + tail == s;
      [s[0]] + tail
  }

  /** An entry whose key is below every key of a sorted table can go in front of it. */
  lemma PrependBelow<V>(x: (Key, V), t: seq<(Key, V)>)
    requires StrictlySorted(t) && KeysAbove(t, x.0)
    ensures StrictlySorted([x] + t)
    ensures Find([x] + t, x.0) == Some(x.1)
    ensures forall k :: k != x.0 ==> Find([x] + t, k) == Find(t, k)
    ensures forall lo :: lo < x.0 ==> KeysAbove([x] + t, lo)
  {
    assert ([x] + t)[1..] == t;
  }

  /** A sorted table is determined by its lookups: two tables that answer every find alike are equal. */
  lemma {:induction false} Extensionality<V>(s: seq<(Key, V)>, t: seq<(Key, V)>)
    requires StrictlySorted(s) && StrictlySorted(t)
    requires forall k :: Find(s, k) == Find(t, k)
    ensures s == t
    decreases |s|
  {
    var ks := if |s| > 0 then s[0].0 else 0;
    var kt := if |t| > 0 then t[0].0 else 0;
    assert Find(s, ks) == Find(t, ks);
    assert Find(s, kt) == Find(t, kt);
    if |s| > 0 && |t| > 0 {
      assert ks == kt;
      assert s[0] == t[0];
      forall k ensures Find(s[1..], k) == Find(t[1..], k) {
        if k == ks {
          assert Find(s[1..], k).None?;
          assert Find(t[1..], k).None?;
        } else {
          assert Find(s[1..], k) == Find(s, k);
          assert Find(t[1..], k) == Find(t, k);
        }
      }
      Extensionality(s[1..], t[1..]);
      assert s == [s[0]] + s[1..];
      assert t == [t[0]] + t[1..];
    }
  }

  /** The contents of a table do not depend on the order two different keys were inserted in. */
  lemma InsertCommutes<V>(s: seq<(Key, V)>, k1: Key, v1: V, k2: Key, v2: V)
    requires StrictlySorted(s)
    requires k1 != k2
    ensures Insert(Insert(s, k1, v1), k2, v2) == Insert(Insert(s, k2, v2), k1, v1)
  {
    Extensionality(Insert(Insert(s, k1, v1), k2, v2), Insert(Insert(s, k2, v2), k1, v1));
  }

  /** Erasing a key a second time changes nothing. */
  lemma EraseIdempotent<V>(s: seq<(Key, V)>, k: Key)
    requires StrictlySorted(s)
    ensures Erase(Erase(s, k), k) == Erase(s, k)
  {
  }

}
