/** Text helpers shared by the models. A C string is the sequence of its bytes,
    one char a byte, without the NUL that ends it. */
module Texts {

  datatype Option<+T> = None | Some(value: T)

  /** The first n bytes: what a copy into a buffer of n+1 bytes keeps. */
  function Cut(s: string, n: nat): (t: string)
    ensures |t| <= n && t <= s
  {
    if |s| <= n then s else s[..n]
  }

  /** The last n bytes. */
  function Last(s: string, n: nat): (t: string)
    ensures |t| <= n
  {
    if |s| <= n then s else s[|s| - n..]
  }

  /** Cutting early or late comes to the same. */
  lemma CutOfCut(s: string, t: string, n: nat)
    ensures Cut(Cut(s, n) + t, n) == Cut(s + t, n)
  {
    if |s| > n {
      assert (s[..n] + t)[..n] == (s + t)[..n];
    }
  }

  lemma LastOfLast(s: string, t: string, n: nat)
    ensures Last(Last(s, n) + t, n) == Last(s + t, n)
  {
    if |s| > n {
      assert (s[|s| - n..] + t)[|t|..] == (s + t)[|s| + |t| - n..];
    }
  }

  lemma SliceOfSlice(s: string, i: nat, j: nat, k: nat, l: nat)
    requires i <= k <= l <= j <= |s|
    ensures s[i..j][k - i..l - i] == s[k..l]
  {
    var a, b := s[i..j][k - i..l - i], s[k..l];
    forall x | 0 <= x < l - k ensures a[x] == b[x] {
      assert a[x] == s[i..j][k - i + x] == s[i + (k - i + x)];
    }
    assert a == b;
  }

  predicate OccursAt(s: string, t: string, i: int) {
    0 <= i <= |s| - |t| && s[i..i + |t|] == t
  }

  /** strstr(s, t) != NULL */
  predicate Contains(s: string, t: string) {
    exists i | 0 <= i <= |s| :: OccursAt(s, t, i)
  }

  function Concat(ts: seq<string>): string {
    if ts == [] then [] else Concat(ts[..|ts| - 1]) + ts[|ts| - 1]
  }

  lemma ConcatSnoc(ts: seq<string>, i: nat)
    requires i < |ts|
    ensures Concat(ts[..i + 1]) == Concat(ts[..i]) + ts[i]
  {
    assert ts[..i + 1][..i] == ts[..i];
  }

  lemma ConcatOne(t: string)
    ensures Concat([t]) == t && Concat([]) == []
  {
    assert [t][..0] == [];
  }

  lemma ConcatLast(ts: seq<string>)
    ensures Concat(ts) == if ts == [] then [] else Concat(ts[..|ts| - 1]) + ts[|ts| - 1]
  {
  }

  lemma {:induction false} ConcatBoth(a: seq<string>, b: seq<string>)
    ensures Concat(a + b) == Concat(a) + Concat(b)
  {
    hide Concat;
    ConcatLast(b);
    if b == [] {
      assert a + b == a;
    } else {
      assert (a + b)[..|a + b| - 1] == a + b[..|b| - 1] && (a + b)[|a + b| - 1] == b[|b| - 1];
      ConcatLast(a + b);
      ConcatBoth(a, b[..|b| - 1]);
    }
  }

  /** The beginning of a list of texts is no longer than the whole. */
  lemma ConcatPrefix(ts: seq<string>, i: nat)
    requires i <= |ts|
    ensures |Concat(ts[..i])| <= |Concat(ts)|
  {
    ConcatBoth(ts[..i], ts[i..]);
    assert ts[..i] + ts[i..] == ts;
  }

  /** strstr: where t first occurs in s. */
  function IndexOf(s: string, t: string): (i: Option<nat>)
    ensures i.Some? ==> i.value + |t| <= |s| && OccursAt(s, t, i.value) &&
                        forall k | 0 <= k < i.value :: !OccursAt(s, t, k)
    ensures i.None? ==> forall k :: !OccursAt(s, t, k)
  {
    IndexFrom(s, t, 0)
  }

  function IndexFrom(s: string, t: string, from: nat): (i: Option<nat>)
    ensures i.Some? ==> from <= i.value && OccursAt(s, t, i.value) &&
                        forall k | from <= k < i.value :: !OccursAt(s, t, k)
    ensures i.None? ==> forall k | from <= k :: !OccursAt(s, t, k)
    decreases |s| - from
  {
    if from + |t| > |s| then None
    else if s[from..from + |t|] == t then Some(from)
    else IndexFrom(s, t, from + 1)
  }

  lemma IndexIs(s: string, t: string, i: nat)
    requires OccursAt(s, t, i) && forall k | 0 <= k < i :: !OccursAt(s, t, k)
    ensures IndexOf(s, t) == Some(i)
  {
  }

  lemma IndexIsNone(s: string, t: string)
    requires forall k :: !OccursAt(s, t, k)
    ensures IndexOf(s, t) == None
  {
  }

  /** Occurrences on either side of a seam. */
  lemma OccursBefore(a: string, b: string, t: string, i: int)
    requires i + |t| <= |a|
    ensures OccursAt(a + b, t, i) <==> OccursAt(a, t, i)
  {
    if 0 <= i { assert (a + b)[i..i + |t|] == a[i..i + |t|]; }
  }

  lemma OccursAfter(a: string, b: string, t: string, i: int)
    requires |a| <= i
    ensures OccursAt(a + b, t, i) <==> OccursAt(b, t, i - |a|)
  {
    if i + |t| <= |a + b| { assert (a + b)[i..i + |t|] == b[i - |a|..i - |a| + |t|]; }
  }

  /** One line with its newline. */
  predicate OneLine(t: string) {
    t != [] && t[|t| - 1] == '\n' && forall i | 0 <= i < |t| - 1 :: t[i] != '\n'
  }

  predicate WholeLines(s: string) { s == [] || s[|s| - 1] == '\n' }

  /** A line does not straddle the end of another. */
  lemma NoStraddle(a: string, b: string, t: string, i: int)
    requires WholeLines(a) && OneLine(t)
    ensures OccursAt(a + b, t, i) <==> OccursAt(a, t, i) || OccursAt(b, t, i - |a|)
  {
    if i + |t| <= |a| {
      OccursBefore(a, b, t, i);
    } else if |a| <= i {
      OccursAfter(a, b, t, i);
    } else if 0 <= i && i + |t| <= |a + b| {
      assert (a + b)[i..i + |t|][|a| - 1 - i] == a[|a| - 1];
      assert t[|a| - 1 - i] != '\n';
    }
  }

  /** What strstr finds in a text it finds in a prefix that holds all of it. */
  lemma IndexInPrefix(s: string, k: nat, t: string)
    requires k <= |s|
    ensures match IndexOf(s, t)
            case None => IndexOf(s[..k], t) == None
            case Some(i) => IndexOf(s[..k], t) == if i + |t| <= k then Some(i) else None
  {
    forall j ensures OccursAt(s[..k], t, j) <==> OccursAt(s, t, j) && j + |t| <= k {
      if 0 <= j && j + |t| <= k { assert s[..k][j..j + |t|] == s[j..j + |t|]; }
    }
  }
}
