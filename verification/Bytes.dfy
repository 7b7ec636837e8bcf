/** Bytes, byte sequences and the clipped windows that every reader of the program computes. */
module Bytes {

  type byte = bv8

  /** `uint_fast32_t` is 64 bits wide on the platforms the program ships for. */
  const UINT_RANGE := 0x1_0000_0000_0000_0000

  datatype Option<+T> = None | Some(value: T)

  function Min(a: int, b: int): int {
    if a <= b then a else b
  }

  function Max(a: int, b: int): int {
    if a <= b then b else a
  }

  /** At most `len` bytes of `s` from `start` on; empty when `start` is at or past the end. */
  function Window<T>(s: seq<T>, start: nat, len: nat): seq<T> {
    if start >= |s| then [] else s[start..Min(start + len, |s|)]
  }

  /** All of `s` from `start` on; empty when `start` is past the end. */
  function From<T>(s: seq<T>, start: nat): seq<T> {
    if start >= |s| then [] else s[start..]
  }

  lemma JoinThree<T>(a: seq<T>, b: seq<T>, c: seq<T>)
    ensures (a + b) + c == a + (b + c)
  {
  }

  lemma FromFrom<T>(s: seq<T>, i: nat, j: nat)
    ensures From(From(s, i), j) == From(s, i + j)
  {
  }

  lemma WindowLength<T>(s: seq<T>, start: nat, len: nat)
    ensures |Window(s, start, len)| == Max(0, Min(len, |s| - start))
  {
  }

  lemma WindowStart<T>(s: seq<T>, start: nat, len: nat)
    ensures start < |s| && len > 0 ==> Window(s, start, len) != [] && Window(s, start, len)[0] == s[start]
  {
  }

  lemma SliceAcross<T>(s: seq<T>, t: seq<T>, start: nat, n: nat)
    requires start <= |s| && n <= |t|
    ensures (s + t)[start..|s| + n] == s[start..] + t[..n]
  {
    var u, v := (s + t)[start..|s| + n], s[start..] + t[..n];
    forall i | 0 <= i < |u|
      ensures u[i] == v[i]
    {
    }
  }

  lemma WindowAcross<T>(s: seq<T>, t: seq<T>, start: nat, len: nat)
    requires start < |s| < start + len
    ensures Window(s + t, start, len) == Window(s, start, len) + Window(t, 0, len - (|s| - start))
    ensures |Window(s, start, len)| == |s| - start
  {
    var rest := Min(start + len - |s|, |t|);
    SliceAcross(s, t, start, rest);
    assert Window(t, 0, len - (|s| - start)) == t[..rest];
    assert Window(s, start, len) == s[start..];
  }

  /** A window over two pieces is a window of the first followed by a window of the second. */
  lemma WindowOfConcat<T>(s: seq<T>, t: seq<T>, start: nat, len: nat)
    ensures |Window(s, start, len)| <= len
    ensures Window(s + t, start, len)
            == Window(s, start, len) + Window(t, Max(0, start - |s|), len - |Window(s, start, len)|)
  {
    if start < |s| && start + len <= |s| {
      assert (s + t)[start..start + len] == s[start..start + len];
    } else if start < |s| {
      WindowAcross(s, t, start, len);
    } else if start < |s| + |t| {
      var end := Min(start + len, |s| + |t|);
      assert (s + t)[start..end] == t[start - |s|..end - |s|];
    }
  }

  /** Two adjacent windows make one. */
  lemma WindowsJoin<T>(s: seq<T>, start: nat, a: nat, b: nat)
    requires start + a <= |s| || b == 0 || |Window(s, start, a)| < a
    ensures Window(s, start, a) + Window(s, start + a, b) == Window(s, start, a + b)
  {
  }

  lemma WindowOfPrefix<T>(s: seq<T>, t: seq<T>, start: nat, len: nat)
    requires s <= t && start + len <= |s|
    ensures Window(s, start, len) == Window(t, start, len)
  {
    assert t == s + t[|s|..];
    WindowOfConcat(s, t[|s|..], start, len);
  }

  /** A window that reaches the end. */
  lemma WindowToEnd<T>(s: seq<T>, start: nat, len: nat)
    requires start + len >= |s|
    ensures Window(s, start, len) == From(s, start)
  {
  }
}
