/** The validation-error mapper: folds the ordered violations of a schema
    validation failure (`err.inner`) into a dictionary from field path to
    message, as `getValidationErrors` does. */
module ValidationErrors {

  /** One entry of `err.inner`: the field path it concerns and its message. */
  datatype Violation = Violation(path: string, message: string)

  /** The field-keyed dictionary handed to the form (`Errors`). */
  type Errors = map<string, string>

  /** Every field path some violation names. */
  function Paths(inner: seq<Violation>): set<string>
  {
    set i | 0 <= i < |inner| :: inner[i].path
  }

  /** No two violations name the same field path. */
  predicate DistinctPaths(inner: seq<Violation>)
  {
    forall i, j | 0 <= i < j < |inner| :: inner[i].path != inner[j].path
  }

  /** Violation `i` is the last one in `inner` that names field `p`. */
  predicate LastWriter(inner: seq<Violation>, p: string, i: int)
  {
    0 <= i < |inner| && inner[i].path == p &&
    forall j | i < j < |inner| :: inner[j].path != p
  }

  /** Reference definition: starting from `acc`, write each violation's
      message under its path, front to back. */
  function FoldFrom(acc: Errors, inner: seq<Violation>): Errors
    decreases |inner|
  {
    if inner == [] then acc
    else FoldFrom(acc[inner[0].path := inner[0].message], inner[1..])
  }

  /** The dictionary the mapper is meant to produce, starting from `{}`. */
  function Fold(inner: seq<Violation>): Errors
  {
    FoldFrom(map[], inner)
  }

  lemma {:induction false} FoldFromSnoc(acc: Errors, inner: seq<Violation>, e: Violation)
    ensures FoldFrom(acc, inner + [e]) == FoldFrom(acc, inner)[e.path := e.message]
    decreases |inner|
  {
    if inner == [] {
      assert [] + [e] == [e];
      assert [e][1..] == [];
    } else {
      assert (inner + [e])[0] == inner[0];
      assert (inner + [e])[1..] == inner[1..] + [e];
      FoldFromSnoc(acc[inner[0].path := inner[0].message], inner[1..], e);
    }
  }

  /** Incremental step: one more violation updates exactly its own path. */
  lemma FoldSnoc(inner: seq<Violation>, e: Violation)
    ensures Fold(inner + [e]) == Fold(inner)[e.path := e.message]
    ensures forall k | k != e.path ::
      (k in Fold(inner + [e]) <==> k in Fold(inner)) &&
      (k in Fold(inner) ==> Fold(inner + [e])[k] == Fold(inner)[k])
  {
    FoldFromSnoc(map[], inner, e);
  }

  /** The keys of the result are exactly the paths of the violations. */
  lemma {:induction false} FoldKeys(inner: seq<Violation>)
    ensures Fold(inner).Keys == Paths(inner)
    decreases |inner|
  {
    if inner != [] {
      var n := |inner| - 1;
      var init, e := inner[..n], inner[n];
      assert inner == init + [e];
      FoldKeys(init);
      FoldSnoc(init, e);
      assert Paths(inner) == Paths(init) + {e.path} by {
        forall p | p in Paths(inner) ensures p in Paths(init) + {e.path} {
          var i :| 0 <= i < |inner| && inner[i].path == p;
          if i < n { assert init[i] == inner[i]; }
        }
        forall p | p in Paths(init) ensures p in Paths(inner) {
          var i :| 0 <= i < |init| && init[i].path == p;
          assert inner[i] == init[i];
        }
        assert inner[n].path in Paths(inner);
      }
    }
  }

  /** Last write wins: the value under a path is the message of the last
      violation naming that path. */
  lemma {:induction false} FoldLastWins(inner: seq<Violation>, p: string, i: int)
    requires LastWriter(inner, p, i)
    ensures p in Fold(inner) && Fold(inner)[p] == inner[i].message
    decreases |inner|
  {
    var n := |inner| - 1;
    var init, e := inner[..n], inner[n];
    assert inner == init + [e];
    FoldSnoc(init, e);
    if i < n {
      assert LastWriter(init, p, i) by {
        forall j | i < j < |init| ensures init[j].path != p {
          assert init[j] == inner[j];
        }
      }
      FoldLastWins(init, p, i);
    }
  }

  /** The result has at most one entry per violation, and exactly one per
      violation when no path repeats. */
  lemma {:induction false} FoldSize(inner: seq<Violation>)
    ensures |Fold(inner)| <= |inner|
    ensures DistinctPaths(inner) ==> |Fold(inner)| == |inner|
    decreases |inner|
  {
    if inner != [] {
      var n := |inner| - 1;
      var init, e := inner[..n], inner[n];
      assert inner == init + [e];
      FoldSize(init);
      FoldSnoc(init, e);
      FoldKeys(init);
      if DistinctPaths(inner) {
        assert DistinctPaths(init) by {
          forall i, j | 0 <= i < j < |init| ensures init[i].path != init[j].path {
            assert init[i] == inner[i] && init[j] == inner[j];
          }
        }
        assert e.path !in Fold(init) by {
          forall p | p in Paths(init) ensures p != e.path {
            var i :| 0 <= i < |init| && init[i].path == p;
            assert init[i] == inner[i];
          }
        }
      }
    }
  }

  /** `getValidationErrors(err)`: the `forEach` over `err.inner` assigning
      `validationErrors[error.path] = error.message` in place. */
  method GetValidationErrors(inner: seq<Violation>) returns (errors: Errors)
    ensures errors == Fold(inner)
    ensures inner == [] ==> errors == map[]
    ensures errors.Keys == Paths(inner)
    ensures |errors| <= |inner| && (DistinctPaths(inner) ==> |errors| == |inner|)
    ensures forall i | 0 <= i < |inner| && LastWriter(inner, inner[i].path, i) ::
      inner[i].path in errors && errors[inner[i].path] == inner[i].message
  {
    errors := map[];
    var i := 0;
    while i < |inner|
      invariant 0 <= i <= |inner|
      invariant FoldFrom(errors, inner[i..]) == Fold(inner)
    {
      assert inner[i..][1..] == inner[i + 1..];
      errors := errors[inner[i].path := inner[i].message];
      i := i + 1;
    }
    assert inner[|inner|..] == [];
    FoldKeys(inner);
    FoldSize(inner);
    forall i | 0 <= i < |inner| && LastWriter(inner, inner[i].path, i)
      ensures inner[i].path in errors && errors[inner[i].path] == inner[i].message
    {
      FoldLastWins(inner, inner[i].path, i);
    }
  }
}
