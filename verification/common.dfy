/** Failure-compatible results for the two exceptions `rubiks.js` can throw, and small helpers. */
module Common {

  /** "Unable to determine axis" (ring, rot) and "Animation is already done" (RotationAnim.update). */
  datatype CubeError = UnableToDetermineAxis | AnimationAlreadyDone

  datatype Option<+T> = None | Some(value: T)

  /** A value, or the error the source would have thrown instead of returning it. */
  datatype Result<+T> = Ok(value: T) | Err(error: CubeError) {

    predicate IsFailure() {
      Err?
    }

    function PropagateFailure<U>(): Result<U>
      requires Err?
    {
      Err(error)
    }

    function Extract(): T
      requires Ok?
    {
      value
    }
  }

  predicate StrictlyIncreasing(s: seq<int>) {
    forall i, j :: 0 <= i < j < |s| ==> s[i] < s[j]
  }

  function Min(a: real, b: real): real {
    if a <= b then a else b
  }

  function Abs(r: real): real {
    if r < 0.0 then -r else r
  }

  /** Two strictly increasing sequences with the same members are the same sequence. */
  lemma {:induction false} SameMembersEqual(a: seq<int>, b: seq<int>)
    requires StrictlyIncreasing(a) && StrictlyIncreasing(b)
    requires forall x :: x in a <==> x in b
    ensures a == b
    decreases |a|
  {
    // a member of either sequence is a member of the other, so neither is empty alone
    assert a != [] ==> a[0] in a && a[0] in b;
    assert b != [] ==> b[0] in b && b[0] in a;
    if a != [] && b != [] {
      assert a[0] in b && b[0] in a;
      assert a[0] == b[0];
      forall x
        ensures x in a[1..] <==> x in b[1..]
      {
        if x in a[1..] {
          var j :| 1 <= j < |a| && a[j] == x;
          assert x in b && x != b[0];
        }
        if x in b[1..] {
          var j :| 1 <= j < |b| && b[j] == x;
          assert x in a && x != a[0];
        }
      }
      SameMembersEqual(a[1..], b[1..]);
      assert a == [a[0]] + a[1..] && b == [b[0]] + b[1..];
    }
  }

  lemma EmptyWhenNoMembers<T>(s: seq<T>)
    ensures (forall x :: x !in s) ==> s == []
  {
    if s != [] {
      assert s[0] in s;
    }
  }
}
