/** Small datatypes and sequence helpers shared by the models. */
module Common {

  datatype Option<+T> = None | Some(value: T)

  datatype Result<+T, +E> = Ok(value: T) | Err(error: E)

  datatype Unit = Unit

  function Reversed<T>(s: seq<T>): (r: seq<T>)
    ensures |r| == |s| && forall i | 0 <= i < |s| :: r[i] == s[|s| - 1 - i]
  {
    seq(|s|, i requires 0 <= i < |s| => s[|s| - 1 - i])
  }

  // Concatenation does not depend on the grouping.

  lemma {:induction false} Assoc3<T>(a: seq<T>, b: seq<T>, c: seq<T>)
    ensures a + (b + c) == a + b + c
  {
  }

  lemma {:induction false} Assoc4<T>(a: seq<T>, b: seq<T>, c: seq<T>, d: seq<T>)
    ensures a + (b + c + d) == a + b + c + d == a + b + (c + d)
    ensures a + (b + (c + d)) == a + b + c + d
  {
  }

  lemma {:induction false} Assoc5<T>(a: seq<T>, b: seq<T>, c: seq<T>, d: seq<T>, e: seq<T>)
    ensures a + (b + (c + (d + e))) == a + b + c + d + e == a + (b + c + d + e)
    ensures a + (b + c + d) + e == a + b + c + (d + e)
  {
  }
}
