/** Failure-compatible wrappers shared by every module of the model. */
module Common {

  /** A value that may be missing: Python's `None` versus a present value. */
  datatype Option<+T> = None | Some(value: T)

  /** The outcome of an operation that may raise: `Err` carries what was raised. */
  datatype Result<+T, +E> = Ok(value: T) | Err(error: E)

  /** The position of the last pair whose key is `k`. */
  function LastIndex<K(==), V>(pairs: seq<(K, V)>, k: K): (r: nat)
    requires exists i :: 0 <= i < |pairs| && pairs[i].0 == k
    ensures r < |pairs| && pairs[r].0 == k
    ensures forall j :: r < j < |pairs| ==> pairs[j].0 != k
  {
    var n := |pairs| - 1;
    if pairs[n].0 == k then n
    else
      var init := pairs[..n];
      assert exists i :: 0 <= i < |init| && init[i].0 == k by {
        var i :| 0 <= i < |pairs| && pairs[i].0 == k;
        assert init[i] == pairs[i];
      }
      LastIndex(init, k)
  }

  /** Python's `dict` filled in order from pairs: each key holds the value of its last pair. */
  function Dict<K(==,!new), V>(pairs: seq<(K, V)>): (m: map<K, V>)
    ensures forall k :: k in m <==> exists i :: 0 <= i < |pairs| && pairs[i].0 == k
    ensures forall i :: 0 <= i < |pairs| && (forall j :: i < j < |pairs| ==> pairs[j].0 != pairs[i].0) ==>
              pairs[i].0 in m && m[pairs[i].0] == pairs[i].1
  {
    var keys := set i | 0 <= i < |pairs| :: pairs[i].0;
    var m := map k | k in keys :: pairs[LastIndex(pairs, k)].1;
    assert forall k :: k in m <==> exists i :: 0 <= i < |pairs| && pairs[i].0 == k by {
      forall k ensures k in m <==> exists i :: 0 <= i < |pairs| && pairs[i].0 == k {
        if exists i :: 0 <= i < |pairs| && pairs[i].0 == k {
          var i :| 0 <= i < |pairs| && pairs[i].0 == k;
          assert k in keys;
        }
      }
    }
    assert forall i :: 0 <= i < |pairs| && (forall j :: i < j < |pairs| ==> pairs[j].0 != pairs[i].0) ==>
             pairs[i].0 in m && m[pairs[i].0] == pairs[i].1 by {
      forall i | 0 <= i < |pairs| && (forall j :: i < j < |pairs| ==> pairs[j].0 != pairs[i].0)
        ensures pairs[i].0 in m && m[pairs[i].0] == pairs[i].1
      {
        var r := LastIndex(pairs, pairs[i].0);
        assert !(r < i) && !(i < r);
      }
    }
    m
  }

  /**
   * Runs a step over the elements in order; the first element whose step
   * raises aborts the whole pass with that error.
   */
  function MapAll<A, B, E(==)>(step: A -> Result<B, E>, xs: seq<A>): (r: Result<seq<B>, E>)
    ensures r.Ok? <==> forall k :: 0 <= k < |xs| ==> step(xs[k]).Ok?
    ensures r.Ok? ==> |r.value| == |xs|
    ensures r.Ok? ==> forall k :: 0 <= k < |xs| ==> r.value[k] == step(xs[k]).value
    ensures r.Err? ==> exists k :: 0 <= k < |xs| && step(xs[k]) == Err(r.error)
                         && forall j :: 0 <= j < k ==> step(xs[j]).Ok?
  {
    if |xs| == 0 then Ok([])
    else
      match step(xs[0])
      case Err(e) => Err(e)
      case Ok(y) =>
        match MapAll(step, xs[1..])
        case Err(e) =>
          assert forall j :: 1 <= j < |xs| ==> xs[j] == xs[1..][j - 1];
          Err(e)
        case Ok(rest) =>
          assert forall k :: 1 <= k < |xs| ==> xs[k] == xs[1..][k - 1];
          Ok([y] + rest)
  }
}
