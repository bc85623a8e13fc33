/** Building a dictionary by assigning `d[k] = v` for each pair in turn, so a
    later assignment to the same key replaces an earlier one. */
module Assoc {

  /** No key is assigned twice: the pairs are the entries of a dictionary or
      of a JSON object. */
  predicate DistinctKeys<K(==), V>(pairs: seq<(K, V)>) {
    forall a, b :: 0 <= a < b < |pairs| ==> pairs[a].0 != pairs[b].0
  }

  /** The keys the pairs mention. */
  function KeysOf<K, V>(pairs: seq<(K, V)>): set<K> {
    set i | 0 <= i < |pairs| :: pairs[i].0
  }

  /** The dictionary left after assigning every pair in order. */
  function Build<K, V>(pairs: seq<(K, V)>): (m: map<K, V>)
    ensures m.Keys == KeysOf(pairs)
    ensures forall k :: k in m ==>
      exists i :: 0 <= i < |pairs| && pairs[i] == (k, m[k])
                  && forall j :: i < j < |pairs| ==> pairs[j].0 != k
    decreases |pairs|
  {
    if |pairs| == 0 then map[]
    else
      var m := Build(pairs[..|pairs| - 1]);
      var last := pairs[|pairs| - 1];
      AssignLast(pairs, m);
      m[last.0 := last.1]
  }

  /** One more assignment keeps `Build`'s promise: the pair just assigned is
      the last one for its key, and every other key keeps its witness. */
  lemma {:induction false} AssignLast<K, V>(pairs: seq<(K, V)>, m: map<K, V>)
    requires |pairs| > 0
    requires var prefix := pairs[..|pairs| - 1];
      && m.Keys == KeysOf(prefix)
      && forall k :: k in m ==>
           exists i :: 0 <= i < |prefix| && prefix[i] == (k, m[k])
                       && forall j :: i < j < |prefix| ==> prefix[j].0 != k
    ensures var last := pairs[|pairs| - 1];
      var m' := m[last.0 := last.1];
      && m'.Keys == KeysOf(pairs)
      && forall k :: k in m' ==>
           exists i :: 0 <= i < |pairs| && pairs[i] == (k, m'[k])
                       && forall j :: i < j < |pairs| ==> pairs[j].0 != k
  {
    var prefix := pairs[..|pairs| - 1];
    var n := |pairs| - 1;
    var last := pairs[n];
    var m' := m[last.0 := last.1];
    assert forall i :: 0 <= i < |prefix| ==> prefix[i] == pairs[i];
    assert KeysOf(pairs) == KeysOf(prefix) + {last.0} by {
      forall k | k in KeysOf(pairs) ensures k in KeysOf(prefix) + {last.0} {
        var i :| 0 <= i < |pairs| && pairs[i].0 == k;
        if i < n {
          assert prefix[i].0 == k;
        }
      }
    }
    forall k | k in m'
      ensures exists i :: 0 <= i < |pairs| && pairs[i] == (k, m'[k])
                          && forall j :: i < j < |pairs| ==> pairs[j].0 != k
    {
      if k == last.0 {
        assert pairs[n] == (k, m'[k]);
      } else {
        var i :| 0 <= i < |prefix| && prefix[i] == (k, m[k])
                 && forall j :: i < j < |prefix| ==> prefix[j].0 != k;
        assert pairs[i] == (k, m'[k]);
      }
    }
  }

  /** When no key repeats, every pair survives as it was given. */
  lemma BuildDistinct<K, V>(pairs: seq<(K, V)>, i: int)
    requires DistinctKeys(pairs)
    requires 0 <= i < |pairs|
    ensures pairs[i].0 in Build(pairs) && Build(pairs)[pairs[i].0] == pairs[i].1
  {
    var m := Build(pairs);
    assert pairs[i].0 in KeysOf(pairs);
    var i' :| 0 <= i' < |pairs| && pairs[i'] == (pairs[i].0, m[pairs[i].0])
              && forall j :: i' < j < |pairs| ==> pairs[j].0 != pairs[i].0;
  }
}
