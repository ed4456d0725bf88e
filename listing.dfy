/** `ORDER BY created_at DESC` over a table whose created_at grows with the
    SERIAL id: the rows are read from the highest id down. */
module Listing {

  /** The rows of m with key in [1, below) that satisfy keep, highest key
      first. */
  function NewestFirst<T>(m: map<int, T>, below: int, keep: T -> bool): (r: seq<(int, T)>)
    decreases below
  {
    if below <= 1 then []
    else
      var k := below - 1;
      (if k in m && keep(m[k]) then [(k, m[k])] else []) + NewestFirst(m, k, keep)
  }

  /** Every listed row is a selected row of the table, with a key below the
      bound. */
  lemma {:induction false} NewestFirstSound<T>(m: map<int, T>, below: int, keep: T -> bool)
    ensures forall i :: 0 <= i < |NewestFirst(m, below, keep)| ==>
      var e := NewestFirst(m, below, keep)[i];
      1 <= e.0 < below && e.0 in m && m[e.0] == e.1 && keep(e.1)
    decreases below
  {
    if below > 1 {
      var k := below - 1;
      NewestFirstSound(m, k, keep);
      var rest := NewestFirst(m, k, keep);
      var head: seq<(int, T)> := if k in m && keep(m[k]) then [(k, m[k])] else [];
      var r := head + rest;
      assert NewestFirst(m, below, keep) == r;
      forall i | |head| <= i < |r|
        ensures r[i] == rest[i - |head|]
      {
      }
    }
  }

  /** Every selected row of the table with a key below the bound is listed. */
  lemma {:induction false} NewestFirstComplete<T>(m: map<int, T>, below: int, keep: T -> bool)
    ensures forall k :: 1 <= k < below && k in m && keep(m[k]) ==> (k, m[k]) in NewestFirst(m, below, keep)
    decreases below
  {
    if below > 1 {
      var k := below - 1;
      NewestFirstComplete(m, k, keep);
      var rest := NewestFirst(m, k, keep);
      var head: seq<(int, T)> := if k in m && keep(m[k]) then [(k, m[k])] else [];
      assert NewestFirst(m, below, keep) == head + rest;
      forall k' | 1 <= k' < below && k' in m && keep(m[k'])
        ensures (k', m[k']) in head + rest
      {
        if k' < k {
          assert (k', m[k']) in rest;
        } else {
          assert (head + rest)[0] == (k', m[k']);
        }
      }
    }
  }

  /** Keys strictly decrease along the listing, so no row appears twice. */
  lemma {:induction false} NewestFirstDecreasing<T>(m: map<int, T>, below: int, keep: T -> bool)
    ensures forall i, j :: 0 <= i < j < |NewestFirst(m, below, keep)| ==>
      NewestFirst(m, below, keep)[i].0 > NewestFirst(m, below, keep)[j].0
    decreases below
  {
    if below > 1 {
      var k := below - 1;
      NewestFirstDecreasing(m, k, keep);
      NewestFirstSound(m, k, keep);
      var rest := NewestFirst(m, k, keep);
      var head: seq<(int, T)> := if k in m && keep(m[k]) then [(k, m[k])] else [];
      var r := head + rest;
      assert NewestFirst(m, below, keep) == r;
      forall i, j | 0 <= i < j < |r|
        ensures r[i].0 > r[j].0
      {
        assert r[j] == rest[j - |head|];
        if i >= |head| {
          assert r[i] == rest[i - |head|];
        }
      }
    }
  }

  /** If created_at grows with the key, the listing is ordered by created_at,
      newest first. */
  lemma NewestFirstByCreation<T>(m: map<int, T>, below: int, keep: T -> bool, createdAt: T -> int)
    requires forall a, b :: a in m && b in m && a < b ==> createdAt(m[a]) < createdAt(m[b])
    ensures forall i, j :: 0 <= i < j < |NewestFirst(m, below, keep)| ==>
      createdAt(NewestFirst(m, below, keep)[i].1) > createdAt(NewestFirst(m, below, keep)[j].1)
  {
    NewestFirstSound(m, below, keep);
    NewestFirstDecreasing(m, below, keep);
    var r := NewestFirst(m, below, keep);
    forall i, j | 0 <= i < j < |r|
      ensures createdAt(r[i].1) > createdAt(r[j].1)
    {
      var a, b := r[j].0, r[i].0;
      assert a in m && b in m && a < b;
      assert m[a] == r[j].1 && m[b] == r[i].1;
    }
  }
}
