/**
 * Building a `HashMap` by `insert` in a loop over key/value pairs: a later pair
 * with an existing key overwrites the earlier value.
 */
module Pairs {

  /** The map after inserting every pair of `ps`, in order, into an empty map. */
  function FromPairs<K, V>(ps: seq<(K, V)>): map<K, V>
  {
    if ps == [] then map[]
    else
      var n := |ps| - 1;
      FromPairs(ps[..n])[ps[n].0 := ps[n].1]
  }

  /** The keys of the pairs. */
  function KeysOf<K, V>(ps: seq<(K, V)>): set<K>
  {
    set i | 0 <= i < |ps| :: ps[i].0
  }

  /** No pair after position `i` has the key of `ps[i]`. */
  predicate LastWithKey<K(==), V>(ps: seq<(K, V)>, i: nat)
    requires i < |ps|
  {
    forall j :: i < j < |ps| ==> ps[j].0 != ps[i].0
  }

  predicate DistinctKeys<K(==), V>(ps: seq<(K, V)>)
  {
    forall i, j :: 0 <= i < j < |ps| ==> ps[i].0 != ps[j].0
  }

  /** Inserting pairs creates exactly one entry per key that occurs, and no other. */
  lemma {:induction false} FromPairsKeys<K, V>(ps: seq<(K, V)>)
    ensures FromPairs(ps).Keys == KeysOf(ps)
  {
    if ps != [] {
      var n := |ps| - 1;
      FromPairsKeys(ps[..n]);
      assert KeysOf(ps) == KeysOf(ps[..n]) + {ps[n].0} by {
        forall k | k in KeysOf(ps) ensures k in KeysOf(ps[..n]) + {ps[n].0} {
          var i :| 0 <= i < |ps| && ps[i].0 == k;
          if i < n { assert ps[..n][i] == ps[i]; }
        }
        forall k | k in KeysOf(ps[..n]) ensures k in KeysOf(ps) {
          var i :| 0 <= i < n && ps[..n][i].0 == k;
          assert ps[i] == ps[..n][i];
        }
      }
    }
  }

  /** The value stored under a key is the one of the last pair carrying that key. */
  lemma {:induction false} FromPairsLastWins<K, V>(ps: seq<(K, V)>, i: nat)
    requires i < |ps| && LastWithKey(ps, i)
    ensures ps[i].0 in FromPairs(ps) && FromPairs(ps)[ps[i].0] == ps[i].1
  {
    var n := |ps| - 1;
    if i < n {
      assert ps[..n][i] == ps[i];
      assert LastWithKey(ps[..n], i) by {
        forall j | i < j < n ensures ps[..n][j].0 != ps[..n][i].0 {
          assert ps[..n][j] == ps[j];
        }
      }
      FromPairsLastWins(ps[..n], i);
    }
  }

  /** With pairwise distinct keys no insert overwrites, so the map has one entry per pair. */
  lemma {:induction false} FromPairsSize<K, V>(ps: seq<(K, V)>)
    requires DistinctKeys(ps)
    ensures |FromPairs(ps)| == |ps|
  {
    if ps != [] {
      var n := |ps| - 1;
      assert DistinctKeys(ps[..n]) by {
        forall i, j | 0 <= i < j < n ensures ps[..n][i].0 != ps[..n][j].0 {
          assert ps[..n][i] == ps[i] && ps[..n][j] == ps[j];
        }
      }
      FromPairsSize(ps[..n]);
      FromPairsKeys(ps[..n]);
      assert ps[n].0 !in FromPairs(ps[..n]) by {
        forall i | 0 <= i < n ensures ps[..n][i].0 != ps[n].0 {
          assert ps[..n][i] == ps[i];
        }
      }
    }
  }
  /** Inserting one more pair updates the map at that pair's key. */
  lemma FromPairsSnoc<K, V>(ps: seq<(K, V)>, p: (K, V))
    ensures FromPairs(ps + [p]) == FromPairs(ps)[p.0 := p.1]
  {
    assert (ps + [p])[..|ps|] == ps;
  }

  lemma KeysOfConcat<K, V>(ps: seq<(K, V)>, qs: seq<(K, V)>)
    ensures KeysOf(ps + qs) == KeysOf(ps) + KeysOf(qs)
  {
    forall k | k in KeysOf(ps + qs) ensures k in KeysOf(ps) + KeysOf(qs) {
      var i :| 0 <= i < |ps + qs| && (ps + qs)[i].0 == k;
      if i >= |ps| { assert qs[i - |ps|] == (ps + qs)[i]; }
    }
    forall k | k in KeysOf(ps) ensures k in KeysOf(ps + qs) {
      var i :| 0 <= i < |ps| && ps[i].0 == k;
      assert (ps + qs)[i] == ps[i];
    }
    forall k | k in KeysOf(qs) ensures k in KeysOf(ps + qs) {
      var i :| 0 <= i < |qs| && qs[i].0 == k;
      assert (ps + qs)[|ps| + i] == qs[i];
    }
  }

  lemma KeysOfSingleton<K, V>(p: (K, V))
    ensures KeysOf([p]) == {p.0}
  {
    assert [p][0] == p;
  }
}
