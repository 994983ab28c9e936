/** memcpy and memmove on arrays. */
module Buffers {

  /** The elements of s at `at` and behind. */
  method Put<T>(a: array<T>, at: nat, s: seq<T>)
    requires at + |s| <= a.Length
    modifies a
    ensures a[..at + |s|] == old(a[..at]) + s
    ensures a[at..at + |s|] == s
  {
    for i := 0 to |s|
      invariant a[..at] == old(a[..at]) && a[at..at + i] == s[..i]
    {
      a[at + i] := s[i];
    }
  }

  /** The n elements from k on, moved to the front. */
  method MoveDown<T>(a: array<T>, k: nat, n: nat)
    requires k + n <= a.Length
    modifies a
    ensures a[..n] == old(a[..k + n])[k..]
  {
    ghost var was := a[..k + n];
    for i := 0 to n
      invariant a[..i] == was[k..k + i]
      invariant a[i + k..k + n] == was[i + k..]
    {
      assert a[i + k] == a[i + k..k + n][0] == was[i + k];
      a[i] := a[i + k];
    }
  }
}
