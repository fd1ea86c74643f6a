/** Small things every other module uses. */
module Prelude {

  datatype Option<+T> = None | Some(value: T)

  type Octet = x: int | 0 <= x < 0x100
  type UInt16 = x: int | 0 <= x < 0x1_0000

  function Max(a: int, b: int): int {
    if a < b then b else a
  }

  function Pow2(n: nat): (p: nat)
    ensures p >= 1
  {
    if n == 0 then 1 else 2 * Pow2(n - 1)
  }

  // Division as C does it: toward zero.
  function TruncDiv(a: int, b: int): (q: int)
    requires b > 0
    ensures a >= 0 ==> 0 <= a - q * b < b
    ensures a < 0 ==> 0 <= q * b - a < b
  {
    if a >= 0 then a / b else -(-a / b)
  }

  // The conversion of a floating-point value to an integer, toward zero.
  function TruncReal(x: real): int {
    if x >= 0.0 then x.Floor else -(-x).Floor
  }

  ghost predicate Distinct<T>(s: seq<T>) {
    forall i, j :: 0 <= i < j < |s| ==> s[i] != s[j]
  }

  // LIST_REMOVE: drop the first occurrence.
  function Without<T(==)>(s: seq<T>, x: T): (r: seq<T>)
    ensures x in s ==> multiset(s) == multiset(r) + multiset{x}
    ensures x !in s ==> r == s
  {
    if s == [] then []
    else if s[0] == x then
      assert s == [x] + s[1..];
      s[1..]
    else
      assert s == [s[0]] + s[1..];
      [s[0]] + Without(s[1..], x)
  }

  lemma DistinctIsOnce<T>(s: seq<T>, x: T)
    requires Distinct(s)
    ensures multiset(s)[x] == if x in s then 1 else 0
  {
    if s != [] {
      assert s == [s[0]] + s[1..];
      DistinctIsOnce(s[1..], x);
    }
  }
}
