/** Small value types shared by the scheduler and the memory models. */
module Common {

  /** A possibly missing value; stands for a `shared_ptr` that may be null. */
  datatype Option<T> = None | Some(value: T)

  /** `std::min` on two integers. */
  function Min(a: int, b: int): (m: int)
    ensures m <= a && m <= b
    ensures m == a || m == b
  {
    if b < a then b else a
  }

  /** No value occurs twice in `q`. */
  ghost predicate NoDuplicates<T>(q: seq<T>)
  {
    forall i, j | 0 <= i < j < |q| :: q[i] != q[j]
  }

  /** In a sequence without duplicates every present element occurs exactly once. */
  lemma {:induction false} NoDuplicatesOccursOnce<T>(q: seq<T>, x: T)
    requires NoDuplicates(q) && x in q
    ensures multiset(q)[x] == 1
  {
    assert q == [q[0]] + q[1..];
    assert NoDuplicates(q[1..]) by {
      forall i, j | 0 <= i < j < |q[1..]| ensures q[1..][i] != q[1..][j] {
        assert q[1..][i] == q[i + 1] && q[1..][j] == q[j + 1];
      }
    }
    if q[0] == x {
      assert x !in q[1..] by {
        forall k | 0 <= k < |q[1..]| ensures q[1..][k] != x {
          assert q[1..][k] == q[k + 1];
        }
      }
      assert multiset(q[1..])[x] == 0;
    } else {
      NoDuplicatesOccursOnce(q[1..], x);
    }
    assert multiset(q) == multiset([q[0]]) + multiset(q[1..]);
  }
}
