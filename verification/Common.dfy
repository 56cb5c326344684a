/** Types and helpers shared by the other modules. */
module Common {

  type byte = x: int | 0 <= x < 256

  datatype Option<+T> = None | Some(value: T)

  /** Go's map read `m[k]`: the zero value 0 for a missing key. */
  function At<K>(m: map<K, int>, k: K): int {
    if k in m then m[k] else 0
  }

  /** How often `x` occurs in `s`. */
  function Mult<T(==)>(s: seq<T>, x: T): nat {
    multiset(s)[x]
  }

  lemma MultSnoc<T>(s: seq<T>, i: nat, x: T)
    requires i < |s|
    ensures Mult(s[..i + 1], x) == Mult(s[..i], x) + if s[i] == x then 1 else 0
  {
    assert s[..i + 1] == s[..i] + [s[i]];
  }

  lemma MultMember<T>(s: seq<T>, x: T)
    ensures Mult(s, x) > 0 <==> x in s
  {
    assert x in multiset(s) <==> x in s;
  }

  function Min(a: int, b: int): int {
    if a < b then a else b
  }

  lemma SnocEqual<T>(a: seq<T>, x: T, b: seq<T>, y: T)
    requires |a| == |b|
    ensures a + [x] == b + [y] <==> a == b && x == y
  {
    if a + [x] == b + [y] {
      assert a == (a + [x])[..|a|] == (b + [y])[..|b|] == b;
      assert x == (a + [x])[|a|] == (b + [y])[|b|] == y;
    }
  }
}
