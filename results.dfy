/** Success/failure values standing in for the exceptions and nulls of the modelled code. */
module Results {

  datatype Option<+T> = None | Some(value: T)

  /** Ok carries the value a call returns; Err carries the exception it throws. */
  datatype Result<+T, +E> = Ok(value: T) | Err(error: E)

  /** No element occurs twice: a sequence standing for a set. */
  predicate Distinct<T(==)>(s: seq<T>)
  {
    forall i, j :: 0 <= i < j < |s| ==> s[i] != s[j]
  }

  /** The first failure in rs is at i, with error e. */
  predicate FailsFirst<T(==), E(==)>(rs: seq<Result<T, E>>, i: int, e: E)
  {
    && 0 <= i < |rs| && rs[i] == Err(e)
    && forall j :: 0 <= j < i ==> rs[j].Ok?
  }

  /** All-or-nothing: every value in order when all succeed, otherwise the first error. */
  function Collect<T, E>(rs: seq<Result<T, E>>): Result<seq<T>, E>
  {
    if |rs| == 0 then Ok([])
    else match rs[0]
      case Err(e) => Err(e)
      case Ok(v) =>
        match Collect(rs[1..])
        case Err(e) => Err(e)
        case Ok(vs) => Ok([v] + vs)
  }

  lemma {:induction false} CollectSpec<T, E>(rs: seq<Result<T, E>>)
    ensures Collect(rs).Ok? <==> forall i :: 0 <= i < |rs| ==> rs[i].Ok?
    ensures Collect(rs).Ok? ==> |Collect(rs).value| == |rs| && forall i :: 0 <= i < |rs| ==> rs[i] == Ok(Collect(rs).value[i])
    ensures Collect(rs).Err? ==> exists i :: FailsFirst(rs, i, Collect(rs).error)
  {
    if |rs| > 0 {
      CollectSpec(rs[1..]);
      assert forall i :: 1 <= i < |rs| ==> rs[1..][i - 1] == rs[i];
      if rs[0].Err? {
        assert FailsFirst(rs, 0, rs[0].error);
      } else if Collect(rs[1..]).Err? {
        var i :| FailsFirst(rs[1..], i, Collect(rs[1..]).error);
        assert FailsFirst(rs, i + 1, Collect(rs).error);
      }
    }
  }

  /** Collecting one more result extends the values, or ends in that result's error. */
  lemma {:induction false} CollectAppend<T, E>(rs: seq<Result<T, E>>, x: Result<T, E>)
    requires Collect(rs).Ok?
    ensures x.Ok? ==> Collect(rs + [x]) == Ok(Collect(rs).value + [x.value])
    ensures x.Err? ==> Collect(rs + [x]) == Err(x.error)
  {
    if |rs| == 0 {
      assert rs + [x] == [x];
      assert [x][1..] == [];
      assert Collect([x][1..]) == Ok([]);
      if x.Ok? {
        assert Collect([x]) == Ok([x.value] + []);
        assert [x.value] + [] == Collect(rs).value + [x.value];
      }
    } else {
      var ys := rs + [x];
      assert ys[0] == rs[0];
      assert ys[1..] == rs[1..] + [x];
      CollectAppend(rs[1..], x);
      var vs := Collect(rs[1..]).value;
      assert Collect(rs).value == [rs[0].value] + vs;
      if x.Ok? {
        assert Collect(ys) == Ok([rs[0].value] + (vs + [x.value]));
        assert [rs[0].value] + (vs + [x.value]) == [rs[0].value] + vs + [x.value];
      }
    }
  }

  /** Once a prefix has failed, the results after it do not matter. */
  lemma {:induction false} CollectPrefixErr<T, E>(rs: seq<Result<T, E>>, n: nat)
    requires n <= |rs| && Collect(rs[..n]).Err?
    ensures Collect(rs) == Collect(rs[..n])
  {
    assert rs[..n][0] == rs[0];
    if rs[0].Ok? {
      assert rs[..n][1..] == rs[1..][..n - 1];
      CollectPrefixErr(rs[1..], n - 1);
    }
  }

  lemma PrefixExtend<T>(s: seq<T>, i: nat)
    requires i < |s|
    ensures s[..i] + [s[i]] == s[..i + 1]
  {
  }

  /** f applied to every element, in order. */
  function Map<A, B>(f: A -> B, xs: seq<A>): (ys: seq<B>)
    ensures |ys| == |xs| && forall i :: 0 <= i < |xs| ==> ys[i] == f(xs[i])
  {
    seq(|xs|, i requires 0 <= i < |xs| => f(xs[i]))
  }
}
