/** Laws of concatenation, stated once so that proofs can name the step they take. */
module Sequences {
  lemma {:induction false} Assoc<T>(a: seq<T>, b: seq<T>, c: seq<T>)
    ensures a + (b + c) == (a + b) + c
  {
  }

  lemma {:induction false} EmptyUnit<T>(a: seq<T>)
    ensures a + [] == a && [] + a == a
  {
  }

  lemma {:induction false} AppendTail<T>(a: seq<T>, b: seq<T>)
    requires a != []
    ensures a + b != [] && (a + b)[0] == a[0] && (a + b)[1..] == a[1..] + b
  {
  }

  lemma {:induction false} ConsTail<T>(x: T, rest: seq<T>)
    ensures ([x] + rest)[0] == x && ([x] + rest)[1..] == rest && [x][1..] == []
  {
  }

  lemma {:induction false} HeadTail<T>(a: seq<T>)
    requires a != []
    ensures a == [a[0]] + a[1..]
    ensures forall x :: x in a <==> x == a[0] || x in a[1..]
  {
  }

  lemma {:induction false} UpdateTail<T>(a: seq<T>, i: nat, x: T)
    requires 0 < i < |a|
    ensures a[i := x] == [a[0]] + a[1..][i - 1 := x]
  {
  }

  lemma {:induction false} WithoutTail<T>(a: seq<T>, i: nat)
    requires 0 < i < |a|
    ensures [a[0]] + (a[1..][..i - 1] + a[1..][i..]) == a[..i] + a[i + 1..]
  {
  }

  lemma {:induction false} SuffixStep<T>(a: seq<T>, i: nat)
    requires i < |a|
    ensures a[i..] != [] && a[i..][0] == a[i] && a[i..][1..] == a[i + 1..]
    ensures a[..i + 1] == a[..i] + [a[i]]
  {
  }
}
