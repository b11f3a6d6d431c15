/** Small shared vocabulary. */
module Common {
  datatype Option<+T> = None | Some(value: T)

  function MinReal(a: real, b: real): real { if b < a then b else a }

  function MaxReal(a: real, b: real): real { if a < b then b else a }

  function MinInt(a: int, b: int): int { if b < a then b else a }

  function MaxInt(a: int, b: int): int { if a < b then b else a }

  ghost predicate Distinct<T>(s: seq<T>) {
    forall i, j :: 0 <= i < j < |s| ==> s[i] != s[j]
  }

  /** All occurrences of x removed. */
  function Without<T(==,!new)>(s: seq<T>, x: T): (r: seq<T>)
    ensures forall y :: y in r <==> y in s && y != x
  {
    if s == [] then []
    else
      assert forall y :: y in s <==> y == s[0] || y in s[1..];
      (if s[0] == x then [] else [s[0]]) + Without(s[1..], x)
  }

  lemma {:induction false} WithoutIsDistinct<T(!new)>(s: seq<T>, x: T)
    requires Distinct(s)
    ensures Distinct(Without(s, x))
    ensures |Without(s, x)| == |s| - (if x in s then 1 else 0)
  {
    if s != [] {
      WithoutIsDistinct(s[1..], x);
      assert s == [s[0]] + s[1..] && s[0] !in s[1..];
      var rest := Without(s[1..], x);
      forall k | 0 <= k < |rest| ensures rest[k] != s[0] {
        assert rest[k] in rest;
      }
    }
  }

  /** What remains keeps its order. */
  lemma {:induction false} WithoutCloses<T(!new)>(s: seq<T>, x: T)
    requires Distinct(s)
    ensures x !in s ==> Without(s, x) == s
    ensures forall k :: 0 <= k < |s| && s[k] == x ==> Without(s, x) == s[..k] + s[k + 1..]
  {
    if s != [] {
      var rest := s[1..];
      WithoutCloses(rest, x);
      assert s == [s[0]] + rest;
      forall k | 0 <= k < |s| && s[k] == x ensures Without(s, x) == s[..k] + s[k + 1..] {
        if k > 0 {
          assert s[0] != x && rest[k - 1] == x;
          assert [s[0]] + (rest[..k - 1] + rest[k..]) == s[..k] + s[k + 1..];
        } else {
          assert x !in rest;
        }
      }
    }
  }
}
