/** Searching bytes (taglib_mod/toolkit/tbytevector.cpp: findChar, findVector, containsAt, endsWithPartialMatch). */
module ByteSearch {
  import opened Bytes

  predicate MatchAt(s: seq<byte>, pattern: seq<byte>, p: int) {
    0 <= p && p + |pattern| <= |s| && s[p..p + |pattern|] == pattern
  }

  /** The first match at or after `from`, -1 when there is none or nothing to look for */
  function First(s: seq<byte>, pattern: seq<byte>, from: nat): (r: int)
    ensures r == -1 || from <= r
    decreases |s| - from
  {
    if pattern == [] || from + |pattern| > |s| then -1
    else if MatchAt(s, pattern, from) then from
    else First(s, pattern, from + 1)
  }

  /** It is a match, and there is none before it. */
  lemma {:induction false} FirstIsMatch(s: seq<byte>, pattern: seq<byte>, from: nat)
    ensures var r := First(s, pattern, from); r >= 0 ==> pattern != [] && MatchAt(s, pattern, r)
    ensures
      var r := First(s, pattern, from);
      pattern != [] ==> forall p | from <= p && (r == -1 || p < r) :: !MatchAt(s, pattern, p)
    decreases |s| - from
  {
    if pattern != [] && from + |pattern| <= |s| && !MatchAt(s, pattern, from) {
      FirstIsMatch(s, pattern, from + 1);
    }
  }

  lemma FirstIs(s: seq<byte>, pattern: seq<byte>, from: nat, p: nat)
    requires pattern != [] && from <= p && MatchAt(s, pattern, p)
    requires forall q | from <= q < p :: !MatchAt(s, pattern, q)
    ensures First(s, pattern, from) == p
  {
    FirstIsMatch(s, pattern, from);
  }

  lemma NoFirst(s: seq<byte>, pattern: seq<byte>, from: nat)
    requires forall q | from <= q :: !MatchAt(s, pattern, q)
    ensures First(s, pattern, from) == -1
  {
    FirstIsMatch(s, pattern, from);
  }

  /** The search that looks at every `align`-th place */
  function FirstAligned(s: seq<byte>, pattern: seq<byte>, from: nat, align: nat): (r: int)
    ensures align == 1 ==> r == First(s, pattern, from)
    decreases |s| - from
  {
    if pattern == [] || align == 0 || from + |pattern| > |s| then -1
    else if MatchAt(s, pattern, from) then from
    else FirstAligned(s, pattern, from + align, align)
  }

  /** `p` is reached from `from` in steps of `align`. */
  predicate IsPlace(p: int, from: int, align: nat)
    decreases p - from
  {
    p == from || (align > 0 && p >= from + align && IsPlace(p, from + align, align))
  }

  /** For an alignment of two these are the places at an even distance. */
  lemma {:induction false} EvenPlaces(p: int, from: int)
    ensures IsPlace(p, from, 2) <==> p >= from && (p - from) % 2 == 0
    decreases p - from
  {
    if p >= from + 2 {
      EvenPlaces(p, from + 2);
    }
  }

  /** It is a match at one of those places, and there is none at an earlier one. */
  lemma {:induction false} FirstAlignedIsMatch(s: seq<byte>, pattern: seq<byte>, from: nat, align: nat)
    ensures
      var r := FirstAligned(s, pattern, from, align);
      && (r != -1 ==> pattern != [] && align > 0 && IsPlace(r, from, align) && MatchAt(s, pattern, r))
      && (pattern != [] && align > 0 ==>
            forall p | IsPlace(p, from, align) && (r == -1 || p < r) :: !MatchAt(s, pattern, p))
    decreases |s| - from
  {
    if pattern != [] && align > 0 {
      if from + |pattern| <= |s| && !MatchAt(s, pattern, from) {
        FirstAlignedIsMatch(s, pattern, from + align, align);
        PlaceIsBehind(FirstAligned(s, pattern, from + align, align), from + align, align);
      } else if from + |pattern| > |s| {
        forall p | IsPlace(p, from, align)
          ensures !MatchAt(s, pattern, p)
        {
          PlaceIsBehind(p, from, align);
        }
      } else {
        forall p | IsPlace(p, from, align)
          ensures p >= from
        {
          PlaceIsBehind(p, from, align);
        }
      }
    }
  }

  lemma {:induction false} PlaceIsBehind(p: int, from: int, align: nat)
    ensures IsPlace(p, from, align) ==> p >= from
  {
  }

  method FindChar(s: seq<byte>, c: byte, offset: nat, align: nat) returns (r: int)
    ensures r == FirstAligned(s, [c], offset, align)
  {
    if offset + 1 > |s| || align == 0 {
      return -1;
    }
    var it := offset;
    while it < |s|
      invariant it >= offset && FirstAligned(s, [c], offset, align) == FirstAligned(s, [c], it, align)
    {
      if s[it] == c {
        return it;
      }
      it := it + align;
    }
    return -1;
  }

  lemma Mismatch(s: seq<byte>, pattern: seq<byte>, p: nat, i: nat)
    requires i < |pattern| && p + |pattern| <= |s| && s[p + i] != pattern[i]
    ensures !MatchAt(s, pattern, p)
  {
    assert s[p..p + |pattern|][i] != pattern[i];
  }

  lemma Matched(s: seq<byte>, pattern: seq<byte>, p: nat)
    requires p + |pattern| <= |s| && s[p..p + |pattern|] == pattern[..|pattern|]
    ensures MatchAt(s, pattern, p)
  {
  }

  method FindVector(s: seq<byte>, pattern: seq<byte>, offset: nat, align: nat) returns (r: int)
    ensures r == FirstAligned(s, pattern, offset, align)
  {
    if pattern == [] || offset + |pattern| > |s| {
      return -1;
    }
    if |pattern| == 1 {
      r := FindChar(s, pattern[0], offset, align);
      assert pattern == [pattern[0]];
      return;
    }
    if align == 0 {
      return -1;
    }
    hide MatchAt;
    var it := offset;
    while it < |s| - |pattern| + 1
      invariant it >= offset && FirstAligned(s, pattern, offset, align) == FirstAligned(s, pattern, it, align)
    {
      var matched := 0;
      while s[it + matched] == pattern[matched]
        invariant 0 <= matched < |pattern| && s[it..it + matched] == pattern[..matched]
        decreases |pattern| - matched
      {
        assert s[it..it + matched + 1] == s[it..it + matched] + [s[it + matched]];
        matched := matched + 1;
        if matched == |pattern| {
          Matched(s, pattern, it);
          return it;
        }
      }
      Mismatch(s, pattern, it, matched);
      it := it + align;
    }
    return -1;
  }

  // ----- Comparing at a place -----

  /** `containsAt`: part of the pattern against part of the bytes; false where there is nothing to compare */
  predicate ContainsAt(s: seq<byte>, pattern: seq<byte>, offset: nat, patternOffset: nat, patternLength: nat) {
    var length := Min(|pattern|, patternLength);
    && patternOffset < |pattern| && length > 0 && patternOffset <= length && offset + length - patternOffset <= |s|
    && s[offset..offset + length - patternOffset] == pattern[patternOffset..length]
  }

  /** The bytes end with the first `n` bytes of the pattern. */
  predicate EndsWithFirst(s: seq<byte>, pattern: seq<byte>, n: nat) {
    n <= |s| && n <= |pattern| && s[|s| - n..] == pattern[..n]
  }

  /** The longest proper, nonempty beginning of the pattern, no longer than `n`, that the bytes end with; 0 if none */
  function LongestEnd(s: seq<byte>, pattern: seq<byte>, n: nat): (r: nat)
    requires n < |pattern| || n == 0
    ensures r <= n
  {
    if n == 0 then 0 else if EndsWithFirst(s, pattern, n) then n else LongestEnd(s, pattern, n - 1)
  }

  lemma {:induction false} LongestEndIs(s: seq<byte>, pattern: seq<byte>, n: nat)
    requires n < |pattern| || n == 0
    ensures var r := LongestEnd(s, pattern, n); r > 0 ==> EndsWithFirst(s, pattern, r)
    ensures forall k | LongestEnd(s, pattern, n) < k <= n :: !EndsWithFirst(s, pattern, k)
  {
    if n > 0 && !EndsWithFirst(s, pattern, n) {
      LongestEndIs(s, pattern, n - 1);
    }
  }

  /** What `endsWithPartialMatch` returns: where that beginning starts */
  function PartialMatch(s: seq<byte>, pattern: seq<byte>): int {
    if |pattern| > |s| || pattern == [] then -1
    else
      var longest := LongestEnd(s, pattern, |pattern| - 1);
      if longest == 0 then -1 else |s| - longest
  }

  method EndsWithPartialMatch(s: seq<byte>, pattern: seq<byte>) returns (r: int)
    ensures r == PartialMatch(s, pattern)
  {
    if |pattern| > |s| {
      return -1;
    }
    var startIndex := |s| - |pattern|;
    var i := 1;
    while i < |pattern|
      invariant 1 <= i && (pattern == [] || i <= |pattern|)
      invariant pattern != [] ==> LongestEnd(s, pattern, |pattern| - 1) == LongestEnd(s, pattern, |pattern| - i)
    {
      if ContainsAt(s, pattern, startIndex + i, 0, |pattern| - i) {
        return startIndex + i;
      }
      i := i + 1;
    }
    return -1;
  }
}
