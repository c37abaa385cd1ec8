/** Types shared by every component: optional values and the clock. */
module Basics {

  datatype Option<+T> = None | Some(value: T)

  /** A clock reading in microseconds, the resolution of the program's datetimes. */
  type Time = int

  /** `timedelta(seconds=n)`. */
  function Seconds(n: int): int {
    n * 1_000_000
  }

  function Min(a: int, b: int): (m: int)
    ensures m <= a && m <= b && (m == a || m == b)
  {
    if a <= b then a else b
  }

  function Max(a: int, b: int): (m: int)
    ensures m >= a && m >= b && (m == a || m == b)
  {
    if a <= b then b else a
  }

  /** One when the condition holds, zero otherwise: lets a count be stated as a sum of conditions. */
  function Bit(b: bool): (n: nat)
    ensures n <= 1 && (n == 1 <==> b)
  {
    if b then 1 else 0
  }

  ghost predicate Distinct<T>(s: seq<T>) {
    forall i, j :: 0 <= i < j < |s| ==> s[i] != s[j]
  }

  /** An element to recurse on. */
  lemma AnElement<T>(s: set<T>) returns (x: T)
    requires s != {}
    ensures x in s && |s - {x}| == |s| - 1
  {
    x :| x in s;
  }

  method AnyOf<T(==)>(s: set<T>) returns (x: T)
    requires s != {}
    ensures x in s
  {
    x :| x in s;
  }

  /** The elements of a set, each once, in an arbitrary order. */
  method Listed<T(==)>(s: set<T>) returns (r: seq<T>)
    ensures forall i :: 0 <= i < |r| ==> r[i] in s
    ensures forall x :: x in s ==> x in r
    ensures Distinct(r)
  {
    r := [];
    var rest := s;
    while rest != {}
      invariant rest <= s
      invariant forall i :: 0 <= i < |r| ==> r[i] in s && r[i] !in rest
      invariant forall x :: x in s && x !in rest ==> x in r
      invariant Distinct(r)
      decreases |rest|
    {
      var x := AnyOf(rest);
      r := r + [x];
      rest := rest - {x};
    }
  }
}
