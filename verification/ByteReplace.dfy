/** Replacing a pattern in a byte vector (taglib_mod/toolkit/tbytevector.cpp, both members `replace`). */
module ByteReplace {
  import opened Bytes
  import opened ByteSearch

  /** What replacing means: from left to right, a place where the pattern stands gives the new bytes and
      is passed as a whole, any other place gives its own byte. */
  function Replaced(s: seq<byte>, pattern: seq<byte>, with: seq<byte>, from: nat): seq<byte>
    requires from <= |s|
    decreases |s| - from
  {
    if from == |s| then []
    else if pattern != [] && MatchAt(s, pattern, from) then with + Replaced(s, pattern, with, from + |pattern|)
    else [s[from]] + Replaced(s, pattern, with, from + 1)
  }

  /** Up to the next match nothing changes. */
  lemma {:induction false} ReplacedUpTo(s: seq<byte>, pattern: seq<byte>, with: seq<byte>, from: nat, p: nat)
    requires from <= p <= |s| && forall q | from <= q < p :: !MatchAt(s, pattern, q)
    ensures Replaced(s, pattern, with, from) == s[from..p] + Replaced(s, pattern, with, p)
    decreases p - from
  {
    hide MatchAt;
    if from < p {
      ReplacedUpTo(s, pattern, with, from + 1, p);
      JoinThree([s[from]], s[from + 1..p], Replaced(s, pattern, with, p));
    }
  }

  /** The first match is replaced, and the rest is as if the vector began behind it. */
  lemma ReplacedAtFirst(s: seq<byte>, pattern: seq<byte>, with: seq<byte>, from: nat)
    requires from <= |s|
    ensures
      var p := First(s, pattern, from);
      if p < 0 then Replaced(s, pattern, with, from) == s[from..]
      else
        && p + |pattern| <= |s|
        && Replaced(s, pattern, with, from) == s[from..p] + with + Replaced(s, pattern, with, p + |pattern|)
  {
    FirstIsMatch(s, pattern, from);
    var p := First(s, pattern, from);
    if p >= 0 {
      ReplacedUpTo(s, pattern, with, from, p);
      JoinThree(s[from..p], with, Replaced(s, pattern, with, p + |pattern|));
    } else if pattern != [] {
      ReplacedUpTo(s, pattern, with, from, |s|);
      assert s[from..|s|] == s[from..];
    } else {
      NothingReplaced(s, with, from);
    }
  }

  lemma {:induction false} NothingReplaced(s: seq<byte>, with: seq<byte>, from: nat)
    requires from <= |s|
    ensures Replaced(s, [], with, from) == s[from..]
    decreases |s| - from
  {
    if from < |s| {
      NothingReplaced(s, with, from + 1);
    }
  }

  /** A search sees only what lies behind its start. */
  lemma {:induction false} FirstSees(s: seq<byte>, t: seq<byte>, pattern: seq<byte>, from: nat)
    requires |s| == |t| && from <= |s| && s[from..] == t[from..]
    ensures First(s, pattern, from) == First(t, pattern, from)
    decreases |s| - from
  {
    if pattern != [] && from + |pattern| <= |s| {
      assert s[from..from + |pattern|] == s[from..][..|pattern|] == t[from..][..|pattern|] == t[from..from + |pattern|];
      assert s[from + 1..] == s[from..][1..] == t[from..][1..] == t[from + 1..];
      FirstSees(s, t, pattern, from + 1);
    }
  }

  // ----- The three ways -----

  /** One byte for one byte, in place */
  method ReplaceByte(a: array<byte>, oldByte: byte, newByte: byte)
    modifies a
    ensures a[..] == Replaced(old(a[..]), [oldByte], [newByte], 0)
  {
    ghost var s := a[..];
    var i := 0;
    while i < a.Length
      invariant 0 <= i <= a.Length
      invariant a[i..] == s[i..]
      invariant a[..i] + Replaced(s, [oldByte], [newByte], i) == Replaced(s, [oldByte], [newByte], 0)
    {
      OneByte(s, oldByte, newByte, i);
      ghost var before := a[..i];
      assert a[i] == s[i] by { assert a[i..][0] == s[i..][0]; }
      assert a[i + 1..] == s[i + 1..] by { assert a[i..][1..] == s[i..][1..]; }
      if a[i] == oldByte {
        a[i] := newByte;
      }
      assert a[..i + 1] == before + [a[i]];
      JoinThree(before, [a[i]], Replaced(s, [oldByte], [newByte], i + 1));
      i := i + 1;
    }
  }

  lemma OneByte(s: seq<byte>, oldByte: byte, newByte: byte, i: nat)
    requires i < |s|
    ensures Replaced(s, [oldByte], [newByte], i) ==
      [if s[i] == oldByte then newByte else s[i]] + Replaced(s, [oldByte], [newByte], i + 1)
  {
    assert s[i..i + 1] == [s[i]];
  }

  /** `memcpy` to a place in an array */
  method CopyTo(a: array<byte>, at: nat, bytes: seq<byte>)
    requires at + |bytes| <= a.Length
    modifies a
    ensures a[..] == old(a[..at]) + bytes + old(a[at + |bytes|..])
  {
    var i := 0;
    while i < |bytes|
      invariant 0 <= i <= |bytes|
      invariant forall k | 0 <= k < a.Length :: a[k] == if at <= k < at + i then bytes[k - at] else old(a[k])
    {
      a[at + i] := bytes[i];
      i := i + 1;
    }
  }

  /** As long as the pattern: each match is overwritten in place, and the search goes on behind it. */
  method ReplaceInPlace(a: array<byte>, pattern: seq<byte>, with: seq<byte>)
    requires |pattern| == |with|
    modifies a
    ensures a[..] == Replaced(old(a[..]), pattern, with, 0)
  {
    hide *;
    ghost var s := a[..];
    var offset := FindVector(a[..], pattern, 0, 1);
    ghost var from, done: seq<byte> := 0, [];
    FirstFound(s, pattern, 0);
    while offset != -1
      invariant from <= |s| == a.Length && a[from..] == s[from..] && done == a[..from]
      invariant offset == First(s, pattern, from) && (offset == -1 || offset + |pattern| <= |s|)
      invariant done + Replaced(s, pattern, with, from) == Replaced(s, pattern, with, 0)
      decreases |s| - from, offset != -1
    {
      var end := offset + |pattern|;
      ReplacedAtFirst(s, pattern, with, from);
      FirstFound(s, pattern, from);
      JoinFour(done, s[from..offset], with, Replaced(s, pattern, with, end));
      CopyTo(a, offset, with);
      done := done + s[from..offset] + with;
      FirstSees(s, a[..], pattern, end);
      FirstFound(s, pattern, end);
      offset := FindVector(a[..], pattern, end, 1);
      from := end;
    }
    ReplacedAtFirst(s, pattern, with, from);
    assert a[..] == a[..from] + a[from..];
  }

  lemma JoinFour<T>(a: seq<T>, b: seq<T>, c: seq<T>, d: seq<T>)
    ensures (a + b + c) + d == a + (b + c + d)
  {
  }

  lemma FirstFound(s: seq<byte>, pattern: seq<byte>, from: nat)
    ensures FirstAligned(s, pattern, from, 1) == First(s, pattern, from) >= -1
    ensures
      var p := First(s, pattern, from);
      p >= 0 ==> from <= p && |pattern| > 0 && p + |pattern| <= |s|
  {
    FirstIsMatch(s, pattern, from);
  }

  // ----- Another length -----

  const UINT: nat := 0x1_0000_0000

  /** One step of the size: what a replacement adds or takes */
  lemma ReplacedLength(s: seq<byte>, pattern: seq<byte>, with: seq<byte>, from: nat)
    requires from <= |s|
    ensures
      var p := First(s, pattern, from);
      if p < 0 then |Replaced(s, pattern, with, from)| == |s| - from
      else
        && p + |pattern| <= |s|
        && |Replaced(s, pattern, with, from)| - (|s| - from) ==
           |with| - |pattern| + |Replaced(s, pattern, with, p + |pattern|)| - (|s| - (p + |pattern|))
  {
    hide First, Replaced;
    ReplacedAtFirst(s, pattern, with, from);
    FirstFound(s, pattern, from);
  }

  function Wrapped(n: int): nat {
    n % UINT
  }

  lemma WrappedSum(a: int, b: int)
    ensures Wrapped(Wrapped(a) + Wrapped(b)) == Wrapped(a + b)
    ensures 0 <= a < UINT ==> Wrapped(a) == a
  {
  }

  /** Counts in unsigned 32-bit arithmetic, which wraps around, also when replacements shorten. */
  method ResultSize(s: seq<byte>, pattern: seq<byte>, with: seq<byte>, first: nat) returns (dstSize: nat)
    requires |s| < UINT && first == First(s, pattern, 0)
    ensures dstSize == Wrapped(|Replaced(s, pattern, with, 0)|)
  {
    hide First, Replaced, MatchAt, FirstAligned, Wrapped;
    WrappedSum(|s|, 0);
    dstSize := |s|;
    var offset: int := first;
    ghost var from, added: int := 0, 0;
    while offset != -1
      invariant from <= |s| && offset == First(s, pattern, from)
      invariant dstSize == Wrapped(|s| + added)
      invariant |Replaced(s, pattern, with, 0)| == |s| + added + |Replaced(s, pattern, with, from)| - (|s| - from)
      decreases |s| - from, offset != -1
    {
      ReplacedLength(s, pattern, with, from);
      FirstFound(s, pattern, from);
      WrappedSum(|s| + added, |with| - |pattern|);
      dstSize := Wrapped(dstSize + Wrapped(|with| - |pattern|));
      added := added + |with| - |pattern|;
      from := offset + |pattern|;
      FirstFound(s, pattern, from);
      offset := FindVector(s, pattern, offset + |pattern|, 1);
    }
    ReplacedLength(s, pattern, with, from);
  }

  /** `memcpy` behind what has been copied */
  method CopyBehind(a: array<byte>, at: nat, bytes: seq<byte>, ghost done: seq<byte>)
    requires at + |bytes| <= a.Length && a[..at] == done
    modifies a
    ensures a[..at + |bytes|] == done + bytes
  {
    CopyTo(a, at, bytes);
  }

  method ReplaceCopying(s: seq<byte>, pattern: seq<byte>, with: seq<byte>, first: nat) returns (dst: array<byte>)
    requires |s| < UINT && first == First(s, pattern, 0) && |Replaced(s, pattern, with, 0)| < UINT
    ensures fresh(dst) && dst[..] == Replaced(s, pattern, with, 0)
  {
    hide *;
    var dstSize := ResultSize(s, pattern, with, first);
    WrappedSum(|Replaced(s, pattern, with, 0)|, 0);
    dst := new byte[dstSize];
    var offset, dstOffset := 0, 0;
    ghost var target := Replaced(s, pattern, with, 0);
    ghost var done, rest: seq<byte> := [], target;
    var more := true;
    while more
      invariant offset <= |s| && dstOffset == |done| <= dst.Length == |target| && dst[..dstOffset] == done
      invariant more ==> rest == Replaced(s, pattern, with, offset) && done + rest == target
      invariant !more ==> done == target
      decreases more, |s| - offset
    {
      ReplacedAtFirst(s, pattern, with, offset);
      FirstFound(s, pattern, offset);
      var next := FindVector(s, pattern, offset, 1);
      if next == -1 {
        CopyBehind(dst, dstOffset, s[offset..], done);
        done := done + s[offset..];
        dstOffset, more := dstOffset + |s| - offset, false;
      } else {
        rest := Replaced(s, pattern, with, next + |pattern|);
        JoinFour(done, s[offset..next], with, rest);
        assert |done + s[offset..next] + with + rest| == |target|;
        CopyBehind(dst, dstOffset, s[offset..next], done);
        dstOffset := dstOffset + next - offset;
        CopyBehind(dst, dstOffset, with, done + s[offset..next]);
        dstOffset := dstOffset + |with|;
        done := done + s[offset..next] + with;
        offset := next + |pattern|;
      }
    }
  }

  /** `replace`: in place or in a new vector, the result is the one replacement from left to right. */
  method Replace(a: array<byte>, pattern: seq<byte>, with: seq<byte>) returns (r: array<byte>)
    requires a.Length < UINT && |Replaced(a[..], pattern, with, 0)| < UINT
    modifies a
    ensures r[..] == Replaced(old(a[..]), pattern, with, 0)
    ensures r == a || fresh(r)
  {
    hide *;
    r := a;
    if |pattern| == 1 && |with| == 1 {
      assert pattern == [pattern[0]] && with == [with[0]];
      ReplaceByte(a, pattern[0], with[0]);
      return;
    }
    FirstFound(a[..], pattern, 0);
    var offset := FindVector(a[..], pattern, 0, 1);
    if offset == -1 {
      ReplacedAtFirst(a[..], pattern, with, 0);
      return;
    }
    if |pattern| == |with| {
      ReplaceInPlace(a, pattern, with);
    } else {
      r := ReplaceCopying(a[..], pattern, with, offset);
    }
  }
}
