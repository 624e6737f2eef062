/**
  The two dictionary-filling idioms of the scripts: `d[k] = v` applied to a
  sequence of pairs (the last write wins) and `d[k].add(v)` on a
  `defaultdict(set)`.
*/
module Dicts {

  /** The dict left by `d[k] = v` for each pair `(k, v)` of `ps` in order, from `{}`. */
  function Assoc<K, V>(ps: seq<(K, V)>): (m: map<K, V>)
    decreases |ps|
  {
    if ps == [] then map[]
    else Assoc(ps[..|ps| - 1])[ps[|ps| - 1].0 := ps[|ps| - 1].1]
  }

  lemma AssocSnoc<K, V>(ps: seq<(K, V)>, p: (K, V))
    ensures Assoc(ps + [p]) == Assoc(ps)[p.0 := p.1]
  {
  }

  /** A key is present exactly when some pair wrote it. */
  lemma {:induction false} AssocKeys<K, V>(ps: seq<(K, V)>, k: K)
    ensures k in Assoc(ps) <==> exists i :: 0 <= i < |ps| && ps[i].0 == k
    decreases |ps|
  {
    if ps != [] {
      var n := |ps| - 1;
      AssocKeys(ps[..n], k);
      if k in Assoc(ps[..n]) {
        var i :| 0 <= i < n && ps[..n][i].0 == k;
        assert ps[i].0 == k;
      }
      if exists i :: 0 <= i < |ps| && ps[i].0 == k {
        var i :| 0 <= i < |ps| && ps[i].0 == k;
        if i < n { assert ps[..n][i].0 == k; }
      }
    }
  }

  /** Last write wins: a key holds the value of the last pair that wrote it. */
  lemma {:induction false} AssocLastWins<K, V>(ps: seq<(K, V)>, i: nat)
    requires i < |ps|
    requires forall j :: i < j < |ps| ==> ps[j].0 != ps[i].0
    ensures ps[i].0 in Assoc(ps) && Assoc(ps)[ps[i].0] == ps[i].1
    decreases |ps|
  {
    var n := |ps| - 1;
    if i < n {
      assert forall j :: i < j < n ==> ps[..n][j].0 != ps[..n][i].0;
      AssocLastWins(ps[..n], i);
    }
  }

  /** Every entry of the dict is the last pair written under its key. */
  lemma {:induction false} AssocEntryWritten<K, V>(ps: seq<(K, V)>, k: K)
    requires k in Assoc(ps)
    ensures exists i :: 0 <= i < |ps| && ps[i] == (k, Assoc(ps)[k])
                        && forall j :: i < j < |ps| ==> ps[j].0 != k
    decreases |ps|
  {
    var n := |ps| - 1;
    if ps[n].0 != k {
      AssocEntryWritten(ps[..n], k);
      var i :| 0 <= i < n && ps[..n][i] == (k, Assoc(ps[..n])[k])
               && forall j :: i < j < n ==> ps[..n][j].0 != k;
      assert ps[i] == (k, Assoc(ps)[k]);
      assert forall j :: i < j < |ps| ==> ps[j].0 != k by {
        forall j | i < j < |ps| ensures ps[j].0 != k {
          if j < n { assert ps[..n][j].0 != k; }
        }
      }
    } else {
      assert ps[n] == (k, Assoc(ps)[k]);
    }
  }

  /** A `defaultdict(set)` after `d[k].add(v)` for each pair `(k, v)` of `ps` in order. */
  function Group<K, V>(ps: seq<(K, V)>): (m: map<K, set<V>>)
    decreases |ps|
  {
    if ps == [] then map[]
    else
      var m := Group(ps[..|ps| - 1]);
      var k := ps[|ps| - 1].0;
      m[k := (if k in m then m[k] else {}) + {ps[|ps| - 1].1}]
  }

  /** `d[k].add(v)` on the dict that `Group` describes. */
  function AddTo<K, V>(m: map<K, set<V>>, k: K, v: V): (m': map<K, set<V>>)
    ensures m'.Keys == m.Keys + {k}
    ensures forall k' :: k' in m && k' != k ==> m'[k'] == m[k']
    ensures m'[k] == (if k in m then m[k] else {}) + {v}
  {
    m[k := (if k in m then m[k] else {}) + {v}]
  }

  lemma GroupSnoc<K, V>(ps: seq<(K, V)>, p: (K, V))
    ensures Group(ps + [p]) == AddTo(Group(ps), p.0, p.1)
  {
  }

  /** A key's group holds exactly the values paired with it, and only written keys appear. */
  lemma {:induction false} GroupMembership<K, V>(ps: seq<(K, V)>, k: K, v: V)
    ensures (k in Group(ps) && v in Group(ps)[k]) <==> (k, v) in ps
    ensures k in Group(ps) <==> exists i :: 0 <= i < |ps| && ps[i].0 == k
    decreases |ps|
  {
    if ps != [] {
      var n := |ps| - 1;
      GroupMembership(ps[..n], k, v);
      assert ps == ps[..n] + [ps[n]];
      if (k, v) in ps[..n] { assert (k, v) in ps; }
      if (k, v) in ps && (k, v) != ps[n] { assert (k, v) in ps[..n]; }
      if exists i :: 0 <= i < |ps| && ps[i].0 == k {
        var i :| 0 <= i < |ps| && ps[i].0 == k;
        if i < n { assert ps[..n][i].0 == k; }
      }
      if k in Group(ps[..n]) {
        var i :| 0 <= i < n && ps[..n][i].0 == k;
        assert ps[i].0 == k;
      }
    }
  }

  /** Some element of `xs` satisfies `P` exactly when one before the last does or the last does. */
  lemma ExistsSnoc<X>(xs: seq<X>, P: X -> bool)
    requires xs != []
    ensures (exists x :: x in xs && P(x)) <==> (exists x :: x in xs[..|xs| - 1] && P(x)) || P(xs[|xs| - 1])
  {
  }
}
