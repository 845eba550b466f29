/** Failure-carrying values used by the decay model: an optional value (the
    outcome of one nonlinear fit) and a success-or-error result (the outcome of
    a call that validates its inputs). */
module Results {

  datatype Option<+T> = None | Some(value: T)

  datatype Result<+T, +E> = Ok(value: T) | Err(error: E)

  /** Calls `f` on 0, 1, ..., n - 1 in turn and collects the values, stopping
      at the first call that fails and passing its error on. */
  method CollectAll<T, E>(f: nat --> Result<T, E>, n: nat) returns (r: Result<seq<T>, E>)
    requires forall v :: 0 <= v < n ==> f.requires(v)
    ensures r.Ok? <==> forall v :: 0 <= v < n ==> f(v).Ok?
    ensures r.Ok? ==> |r.value| == n && forall v :: 0 <= v < n ==> f(v) == Ok(r.value[v])
    ensures r.Err? ==> exists v :: 0 <= v < n && f(v) == Err(r.error) && forall u :: 0 <= u < v ==> f(u).Ok?
  {
    var values: seq<T> := [];
    for v := 0 to n
      invariant |values| == v
      invariant forall u :: 0 <= u < v ==> f(u) == Ok(values[u])
    {
      var x := f(v);
      if x.Err? {
        return Err(x.error);
      }
      values := values + [x.value];
    }
    return Ok(values);
  }
}
