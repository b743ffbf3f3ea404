/** Failure-carrying values shared by every module of the model. */
module Wrappers {

  datatype Option<+T> = None | Some(value: T)

  datatype Result<+T, +E> = Success(value: T) | Failure(error: E)

  /** The function stops at the first failure: what fails without the last element fails with it,
      in the same way. */
  ghost predicate StopsAtFailure<T(!new), R, E>(f: seq<T> -> Result<R, E>) {
    forall s: seq<T> :: s != [] && f(s[..|s| - 1]).Failure? ==> f(s) == f(s[..|s| - 1])
  }

  /** The first failure of a sequence is the failure of every longer one. */
  lemma {:induction false} FailsEarly<T(!new), R, E>(f: seq<T> -> Result<R, E>, s: seq<T>, i: nat)
    requires StopsAtFailure(f) && i <= |s|
    ensures f(s[..i]).Failure? ==> f(s) == f(s[..i])
    decreases |s|
  {
    if i == |s| {
      assert s[..i] == s;
    } else {
      var shorter := s[..|s| - 1];
      assert shorter[..i] == s[..i];
      FailsEarly(f, shorter, i);
    }
  }

  /** Every element fits the elements before it. */
  ghost predicate EachFits<T>(fits: (seq<T>, T) -> bool, s: seq<T>) {
    forall i :: 0 <= i < |s| ==> fits(s[..i], s[i])
  }

  lemma EachFitsAppend<T>(fits: (seq<T>, T) -> bool, shorter: seq<T>, last: T)
    ensures EachFits(fits, shorter + [last]) <==> EachFits(fits, shorter) && fits(shorter, last)
  {
    var s := shorter + [last];
    assert s[..|shorter|] == shorter && s[|shorter|] == last;
    assert forall i :: 0 <= i < |shorter| ==> s[..i] == shorter[..i] && s[i] == shorter[i];
    if EachFits(fits, s) {
      forall i | 0 <= i < |shorter| ensures fits(shorter[..i], shorter[i]) {
        assert fits(s[..i], s[i]);
      }
      assert fits(s[..|shorter|], s[|shorter|]);
    }
    if EachFits(fits, shorter) && fits(shorter, last) {
      forall i | 0 <= i < |s| ensures fits(s[..i], s[i]) {
        assert i < |shorter| ==> fits(shorter[..i], shorter[i]);
      }
    }
  }

  ghost predicate Ascending(at: seq<nat>) {
    forall a, b :: 0 <= a < b < |at| ==> at[a] < at[b]
  }

  /** `at` lists, in order, exactly the positions whose elements pass the test. */
  ghost predicate Selects<T>(test: T -> bool, all: seq<T>, at: seq<nat>) {
    && Ascending(at)
    && (forall k :: 0 <= k < |at| ==> at[k] < |all|)
    && (forall i: nat :: i < |all| ==> (i in at <==> test(all[i])))
  }

  lemma SelectsAppend<T>(test: T -> bool, all: seq<T>, at: seq<nat>, last: T)
    requires Selects(test, all, at)
    ensures Selects(test, all + [last], if test(last) then at + [|all|] else at)
  {
    var longer, more := all + [last], if test(last) then at + [|all|] else at;
    assert forall i: nat :: i < |all| ==> longer[i] == all[i];
    assert longer[|all|] == last;
    assert test(last) ==> more[|at|] == |all|;
    assert |all| !in at;
  }
}
