/** Searching a file block by block (taglib_mod/toolkit/tfile.cpp, File::find with nothing to find before). */
module FileFind {
  import opened Bytes
  import opened ByteSearch

  /** The loop of the search, as a function: blocks of `size` bytes from `offset` on; `partial` is where the
      block before ended with a beginning of the pattern. */
  function Scan(f: seq<byte>, pattern: seq<byte>, size: nat, offset: nat, partial: int): int
    requires size > 0
    decreases |f| - offset
  {
    var block := Window(f, offset, size);
    if block == [] then -1
    else if 0 <= partial < size && ContainsAt(block, pattern, 0, size - partial, |pattern|) then offset - size + partial
    else
      var location := First(block, pattern, 0);
      if location >= 0 then offset + location
      else Scan(f, pattern, size, offset + size, PartialMatch(block, pattern))
  }

  function Found(f: seq<byte>, pattern: seq<byte>, size: nat, from: nat): int
    requires size > 0
  {
    if |pattern| > size then -1 else Scan(f, pattern, size, from, -1)
  }

  predicate FollowsUp(block: seq<byte>, pattern: seq<byte>, size: nat, partial: int) {
    0 <= partial < size && ContainsAt(block, pattern, 0, size - partial, |pattern|)
  }

  lemma ScanEnds(f: seq<byte>, pattern: seq<byte>, size: nat, offset: nat, partial: int)
    requires size > 0 && Window(f, offset, size) == []
    ensures Scan(f, pattern, size, offset, partial) == -1
  {
    hide Window;
  }

  lemma ScanFollows(f: seq<byte>, pattern: seq<byte>, size: nat, offset: nat, partial: int, block: seq<byte>)
    requires size > 0 && block == Window(f, offset, size) != [] && FollowsUp(block, pattern, size, partial)
    ensures Scan(f, pattern, size, offset, partial) == offset - size + partial
  {
    hide Window, ContainsAt;
  }

  lemma ScanHits(f: seq<byte>, pattern: seq<byte>, size: nat, offset: nat, partial: int, block: seq<byte>)
    requires size > 0 && block == Window(f, offset, size) != [] && !FollowsUp(block, pattern, size, partial)
    requires First(block, pattern, 0) >= 0
    ensures Scan(f, pattern, size, offset, partial) == offset + First(block, pattern, 0)
  {
    hide Window, ContainsAt, First;
  }

  lemma ScanGoesOn(f: seq<byte>, pattern: seq<byte>, size: nat, offset: nat, partial: int, block: seq<byte>)
    requires size > 0 && block == Window(f, offset, size) != [] && !FollowsUp(block, pattern, size, partial)
    requires First(block, pattern, 0) < 0
    ensures Scan(f, pattern, size, offset, partial) ==
            Scan(f, pattern, size, offset + size, PartialMatch(block, pattern))
    ensures offset < |f| && (|block| == size || Window(f, offset + size, size) == [])
    ensures Window(f, offset + |block|, size) == Window(f, offset + size, size)
  {
    NextBlock(f, offset, size);
    hide Window, ContainsAt, First, PartialMatch;
  }

  /** `find` with its default offset and alignment */
  method FindFirst(s: seq<byte>, pattern: seq<byte>) returns (r: int)
    ensures r == First(s, pattern, 0)
  {
    r := FindVector(s, pattern, 0, 1);
  }

  class File {
    var content: seq<byte>
    var bufferSize: nat
    var position: nat

    constructor (content: seq<byte>, bufferSize: nat)
      requires bufferSize > 0
      ensures this.content == content && this.bufferSize == bufferSize && position == 0
    {
      this.content, this.bufferSize, position := content, bufferSize, 0;
    }

    method ReadBlock() returns (block: seq<byte>)
      modifies this`position
      ensures block == Window(content, old(position), bufferSize) && position == old(position) + |block|
    {
      block := Window(content, position, bufferSize);
      position := position + |block|;
    }

    /** Leaves the read position where it was. */
    method Find(pattern: seq<byte>, fromOffset: nat) returns (r: int)
      requires bufferSize > 0
      modifies this`position
      ensures r == Found(content, pattern, bufferSize, fromOffset) && position == old(position)
    {
      hide *;
      FoundIs(content, pattern, bufferSize, fromOffset);
      if |pattern| > bufferSize {
        return -1;
      }
      ghost var target := Scan(content, pattern, bufferSize, fromOffset, -1);
      var bufferOffset, previousPartialMatch := fromOffset, -1;
      var originalPosition := position;
      position := fromOffset;
      var buffer := ReadBlock();
      while buffer != []
        modifies this`position
        invariant buffer == Window(content, bufferOffset, bufferSize)
        invariant buffer == [] || position == bufferOffset + |buffer|
        invariant target == Scan(content, pattern, bufferSize, bufferOffset, previousPartialMatch)
        decreases |content| - bufferOffset
      {
        if FollowsUp(buffer, pattern, bufferSize, previousPartialMatch) {
          ScanFollows(content, pattern, bufferSize, bufferOffset, previousPartialMatch, buffer);
          position := originalPosition;
          return bufferOffset - bufferSize + previousPartialMatch;
        }
        var location := FindFirst(buffer, pattern);
        if location >= 0 {
          ScanHits(content, pattern, bufferSize, bufferOffset, previousPartialMatch, buffer);
          position := originalPosition;
          return bufferOffset + location;
        }
        ScanGoesOn(content, pattern, bufferSize, bufferOffset, previousPartialMatch, buffer);
        previousPartialMatch := EndsWithPartialMatch(buffer, pattern);
        bufferOffset := bufferOffset + bufferSize;
        buffer := ReadBlock();
      }
      ScanEnds(content, pattern, bufferSize, bufferOffset, previousPartialMatch);
      position := originalPosition;
      return -1;
    }
  }

  lemma FoundIs(f: seq<byte>, pattern: seq<byte>, size: nat, from: nat)
    requires size > 0
    ensures Found(f, pattern, size, from) == if |pattern| > size then -1 else Scan(f, pattern, size, from, -1)
  {
    hide Scan;
  }

  /** After a short block the next is empty, wherever it is taken to begin. */
  lemma NextBlock(f: seq<byte>, offset: nat, size: nat)
    requires size > 0 && Window(f, offset, size) != []
    ensures Window(f, offset + |Window(f, offset, size)|, size) == Window(f, offset + size, size)
    ensures offset < |f| && |Window(f, offset, size)| <= size
    ensures |Window(f, offset, size)| < size ==> Window(f, offset + size, size) == []
  {
  }

  // ----- Matches across the end of a block -----

  /** `partial` points at the longest beginning of the pattern that the file's bytes from `from` to `offset`
      end with. */
  ghost predicate PartialOk(f: seq<byte>, pattern: seq<byte>, size: nat, from: nat, offset: nat, partial: int) {
    && (partial == -1 || 1 <= size - partial < |pattern|)
    && (partial >= 0 ==> Ends(f, pattern, offset, size - partial))
    && forall n | 1 <= n < |pattern| && from + n <= offset && Ends(f, pattern, offset, n) ::
         partial >= 0 && n <= size - partial
  }

  predicate Ends(f: seq<byte>, pattern: seq<byte>, offset: nat, n: nat) {
    n <= |pattern| && n <= offset <= |f| && f[offset - n..offset] == pattern[..n]
  }

  /** No match lies wholly between `from` and `offset`. */
  ghost predicate NoneBefore(f: seq<byte>, pattern: seq<byte>, from: nat, offset: nat) {
    forall p | from <= p && p + |pattern| <= offset :: !MatchAt(f, pattern, p)
  }

  /** Whenever the first byte comes again before the last place, the pattern repeats itself at that distance. */
  predicate RepeatsWell(pattern: seq<byte>) {
    forall d | 1 <= d < |pattern| - 1 && pattern[d] == pattern[0] :: Repeats(pattern, d)
  }

  predicate Repeats(pattern: seq<byte>, d: nat) {
    d <= |pattern| && pattern[d..] == pattern[..|pattern| - d]
  }

  /** A match across the block's end shows as a beginning at its end, and the rest behind it. */
  lemma CrossingMatch(f: seq<byte>, pattern: seq<byte>, offset: nat, n: nat)
    requires n <= |pattern| && n <= offset
    ensures MatchAt(f, pattern, offset - n) <==>
      Ends(f, pattern, offset, n) && offset + |pattern| - n <= |f| && f[offset..offset + |pattern| - n] == pattern[n..]
  {
    var p := offset - n;
    if offset + |pattern| - n <= |f| {
      assert f[p..p + |pattern|] == f[p..offset] + f[offset..p + |pattern|];
      assert pattern == pattern[..n] + pattern[n..];
    }
  }

  /** The rest of a repeating pattern is a beginning of the rest of a later one. */
  lemma RestRepeats(pattern: seq<byte>, n: nat, longer: nat)
    requires n <= longer <= |pattern| && Repeats(pattern, longer - n)
    ensures pattern[longer..] == pattern[n..][..|pattern| - longer]
  {
    var d := longer - n;
    assert pattern[longer..] == pattern[d..][n..];
    assert pattern[..|pattern| - d][n..] == pattern[n..][..|pattern| - longer];
  }

  /** With such a pattern, following up the longest beginning misses nothing. */
  lemma LongestSuffices(f: seq<byte>, pattern: seq<byte>, offset: nat, n: nat, longest: nat)
    requires RepeatsWell(pattern) && 1 <= n <= longest < |pattern| && longest <= offset
    requires Ends(f, pattern, offset, longest) && MatchAt(f, pattern, offset - n)
    ensures MatchAt(f, pattern, offset - longest)
  {
    CrossingMatch(f, pattern, offset, n);
    if n < longest {
      RestRepeats(pattern, n, longest);
      var rest := |pattern| - longest;
      assert f[offset..offset + rest] == f[offset..offset + |pattern| - n][..rest];
      CrossingMatch(f, pattern, offset, longest);
    }
  }

  // ----- The search finds the first match -----

  lemma WindowMatch(f: seq<byte>, pattern: seq<byte>, offset: nat, size: nat, p: nat)
    requires offset <= p && p + |pattern| <= offset + size && pattern != []
    ensures MatchAt(f, pattern, p) <==> MatchAt(Window(f, offset, size), pattern, p - offset)
  {
    var block := Window(f, offset, size);
    if p + |pattern| <= |f| {
      WindowSlice(f, offset, size, p - offset, |pattern|);
    }
  }

  lemma WindowSlice(f: seq<byte>, offset: nat, size: nat, i: nat, n: nat)
    requires offset + i + n <= |f| && i + n <= size && n > 0
    ensures i + n <= |Window(f, offset, size)| && Window(f, offset, size)[i..i + n] == f[offset + i..offset + i + n]
  {
    var block := Window(f, offset, size);
    assert i + n <= |block|;
    assert forall j | i <= j < i + n :: block[j] == f[offset + j];
    assert block[i..i + n] == f[offset + i..offset + i + n];
  }

  lemma WindowEnds(f: seq<byte>, pattern: seq<byte>, offset: nat, size: nat, n: nat)
    requires offset + size <= |f| && n <= size && size > 0
    ensures Ends(f, pattern, offset + size, n) <==> EndsWithFirst(Window(f, offset, size), pattern, n)
  {
    var block := Window(f, offset, size);
    assert block == f[offset..offset + size];
    assert block[size - n..] == f[offset + size - n..offset + size];
  }

  lemma NextPartialOk(f: seq<byte>, pattern: seq<byte>, from: nat, offset: nat, size: nat)
    requires 1 <= |pattern| <= size && offset + size <= |f|
    ensures PartialOk(f, pattern, size, from, offset + size, PartialMatch(Window(f, offset, size), pattern))
  {
    hide Ends, EndsWithFirst;
    var block, end := Window(f, offset, size), offset + size;
    assert |block| == size;
    forall n | 1 <= n < |pattern|
      ensures Ends(f, pattern, offset + size, n) <==> EndsWithFirst(block, pattern, n)
    {
      WindowEnds(f, pattern, offset, size, n);
    }
    LongestEndIs(block, pattern, |pattern| - 1);
    var longest := LongestEnd(block, pattern, |pattern| - 1);
    assert PartialMatch(block, pattern) == if longest == 0 then -1 else size - longest;
    forall n | 1 <= n < |pattern| && Ends(f, pattern, end, n)
      ensures n <= longest
    {
      assert EndsWithFirst(block, pattern, n);
    }
  }

  lemma RestIsThere(f: seq<byte>, pattern: seq<byte>, size: nat, offset: nat, partial: int)
    requires 1 <= |pattern| <= size && 0 <= partial && 1 <= size - partial < |pattern|
    requires Ends(f, pattern, offset, size - partial)
    ensures ContainsAt(Window(f, offset, size), pattern, 0, size - partial, |pattern|) <==>
      MatchAt(f, pattern, offset - (size - partial))
  {
    var n := size - partial;
    CrossingMatch(f, pattern, offset, n);
    hide Ends, MatchAt;
    var block, rest := Window(f, offset, size), |pattern| - n;
    WindowLength(f, offset, size);
    if offset + rest <= |f| {
      WindowSlice(f, offset, size, 0, rest);
      assert block[0..rest] == f[offset..offset + rest];
    } else {
      assert |block| < rest;
    }
  }

  /** Nothing crosses into the block when the follow-up of the longest beginning fails. */
  lemma NoneCrosses(f: seq<byte>, pattern: seq<byte>, size: nat, from: nat, offset: nat, partial: int, n: nat)
    requires RepeatsWell(pattern) && 1 <= n < |pattern| <= size && from + n <= offset
    requires PartialOk(f, pattern, size, from, offset, partial)
    requires !(0 <= partial < size && ContainsAt(Window(f, offset, size), pattern, 0, size - partial, |pattern|))
    ensures !MatchAt(f, pattern, offset - n)
  {
    hide ContainsAt, Window, RepeatsWell;
    CrossingMatch(f, pattern, offset, n);
    if MatchAt(f, pattern, offset - n) {
      LongestSuffices(f, pattern, offset, n, size - partial);
      RestIsThere(f, pattern, size, offset, partial);
    }
  }

  lemma NoneBeforeNext(f: seq<byte>, pattern: seq<byte>, size: nat, from: nat, offset: nat, partial: int, end: nat)
    requires RepeatsWell(pattern) && 1 <= |pattern| <= size && from <= offset <= end <= offset + size && offset <= |f|
    requires PartialOk(f, pattern, size, from, offset, partial) && NoneBefore(f, pattern, from, offset)
    requires !(0 <= partial < size && ContainsAt(Window(f, offset, size), pattern, 0, size - partial, |pattern|))
    requires forall p | 0 <= p && offset + p + |pattern| <= end :: !MatchAt(Window(f, offset, size), pattern, p)
    ensures NoneBefore(f, pattern, from, end)
  {
    hide ContainsAt, Window, RepeatsWell, PartialOk, MatchAt;
    forall p | from <= p && p + |pattern| <= end
      ensures !MatchAt(f, pattern, p)
    {
      if p >= offset {
        WindowMatch(f, pattern, offset, size, p);
        assert !MatchAt(Window(f, offset, size), pattern, p - offset);
      } else if p + |pattern| > offset {
        NoneCrosses(f, pattern, size, from, offset, partial, offset - p);
        assert offset - (offset - p) == p;
      }
    }
  }

  lemma FollowUpIsFirst(f: seq<byte>, pattern: seq<byte>, size: nat, from: nat, offset: nat, partial: int)
    requires 1 <= |pattern| <= size && from + size <= offset
    requires PartialOk(f, pattern, size, from, offset, partial) && NoneBefore(f, pattern, from, offset)
    requires 0 <= partial < size && ContainsAt(Window(f, offset, size), pattern, 0, size - partial, |pattern|)
    ensures First(f, pattern, from) == offset - size + partial
  {
    hide ContainsAt, Window;
    RestIsThere(f, pattern, size, offset, partial);
    var r := offset - size + partial;
    forall q | from <= q < r
      ensures !MatchAt(f, pattern, q)
    {
      if q + |pattern| > offset {
        CrossingMatch(f, pattern, offset, offset - q);
      }
    }
    FirstIs(f, pattern, from, r);
  }

  /** With a pattern that repeats well, the search returns the first match. */
  lemma {:induction false} ScanIsFirst(f: seq<byte>, pattern: seq<byte>, size: nat, from: nat, offset: nat,
      partial: int)
    requires RepeatsWell(pattern) && 1 <= |pattern| <= size && from <= offset && NoneBefore(f, pattern, from, offset)
    requires offset <= |f| ==> PartialOk(f, pattern, size, from, offset, partial)
    requires partial >= 0 ==> from + size <= offset
    ensures Scan(f, pattern, size, offset, partial) == First(f, pattern, from)
    decreases |f| - offset
  {
    hide RepeatsWell, PartialOk, ContainsAt, PartialMatch, MatchAt;
    var block := Window(f, offset, size);
    if block == [] {
      NoneLeft(f, pattern, from, offset);
    } else if 0 <= partial < size && ContainsAt(block, pattern, 0, size - partial, |pattern|) {
      FollowUpIsFirst(f, pattern, size, from, offset, partial);
    } else {
      var location := First(block, pattern, 0);
      if location >= 0 {
        FoundInBlock(f, pattern, size, from, offset, partial, location);
      } else {
        FirstIsMatch(block, pattern, 0);
        NoneBeforeNext(f, pattern, size, from, offset, partial, offset + size);
        if offset + size <= |f| {
          NextPartialOk(f, pattern, from, offset, size);
        }
        ScanIsFirst(f, pattern, size, from, offset + size, PartialMatch(block, pattern));
      }
    }
  }

  lemma NoneLeft(f: seq<byte>, pattern: seq<byte>, from: nat, offset: nat)
    requires NoneBefore(f, pattern, from, offset) && |f| <= offset
    ensures First(f, pattern, from) == -1
  {
    NoFirst(f, pattern, from);
  }

  lemma FoundInBlock(f: seq<byte>, pattern: seq<byte>, size: nat, from: nat, offset: nat, partial: int, location: nat)
    requires RepeatsWell(pattern) && 1 <= |pattern| <= size && from <= offset <= |f|
    requires PartialOk(f, pattern, size, from, offset, partial) && NoneBefore(f, pattern, from, offset)
    requires !(0 <= partial < size && ContainsAt(Window(f, offset, size), pattern, 0, size - partial, |pattern|))
    requires location == First(Window(f, offset, size), pattern, 0)
    ensures First(f, pattern, from) == offset + location
  {
    hide RepeatsWell, PartialOk, ContainsAt;
    FirstIsMatch(Window(f, offset, size), pattern, 0);
    var end := offset + location + |pattern| - 1;
    assert location + |pattern| <= |Window(f, offset, size)| <= size;
    WindowMatch(f, pattern, offset, size, offset + location);
    NoneBeforeNext(f, pattern, size, from, offset, partial, end);
    FirstIs(f, pattern, from, offset + location);
  }

  /** Whatever the pattern, what the search returns is a match at or behind the offset. */
  lemma {:induction false} ScanIsSound(f: seq<byte>, pattern: seq<byte>, size: nat, from: nat, offset: nat,
      partial: int)
    requires |pattern| <= size && size > 0 && from <= offset
    requires partial >= 0 && offset <= |f| ==>
      from + size <= offset ==> pattern != [] && PartialOk(f, pattern, size, from, offset, partial)
    requires partial >= 0 ==> from + size <= offset
    ensures var r := Scan(f, pattern, size, offset, partial); r == -1 || (from <= r && MatchAt(f, pattern, r))
    decreases |f| - offset
  {
    hide PartialOk, ContainsAt, PartialMatch, MatchAt, Window;
    var block := Window(f, offset, size);
    if block != [] {
      BlockIsInside(f, offset, size);
      if 0 <= partial < size && ContainsAt(block, pattern, 0, size - partial, |pattern|) {
        FollowUpIsMatch(f, pattern, size, from, offset, partial);
      } else if First(block, pattern, 0) >= 0 {
        HitIsMatch(f, pattern, size, offset);
      } else {
        if pattern != [] && offset + size <= |f| {
          NextPartialOk(f, pattern, from, offset, size);
        }
        NoPatternNoPartial(block, pattern);
        ScanIsSound(f, pattern, size, from, offset + size, PartialMatch(block, pattern));
      }
    }
  }

  lemma NoPatternNoPartial(s: seq<byte>, pattern: seq<byte>)
    ensures pattern == [] ==> PartialMatch(s, pattern) == -1
  {
  }

  lemma BlockIsInside(f: seq<byte>, offset: nat, size: nat)
    requires Window(f, offset, size) != []
    ensures offset < |f|
  {
  }

  lemma FollowUpIsMatch(f: seq<byte>, pattern: seq<byte>, size: nat, from: nat, offset: nat, partial: int)
    requires 1 <= |pattern| <= size && offset >= size && PartialOk(f, pattern, size, from, offset, partial)
    requires 0 <= partial < size && ContainsAt(Window(f, offset, size), pattern, 0, size - partial, |pattern|)
    ensures MatchAt(f, pattern, offset - size + partial)
  {
    hide ContainsAt, Window, MatchAt, Ends;
    RestIsThere(f, pattern, size, offset, partial);
    assert offset - (size - partial) == offset - size + partial;
  }

  lemma HitIsMatch(f: seq<byte>, pattern: seq<byte>, size: nat, offset: nat)
    requires First(Window(f, offset, size), pattern, 0) >= 0
    ensures MatchAt(f, pattern, offset + First(Window(f, offset, size), pattern, 0))
  {
    FirstIsMatch(Window(f, offset, size), pattern, 0);
    WindowMatch(f, pattern, offset, size, offset + First(Window(f, offset, size), pattern, 0));
  }

  lemma FoundIsSound(f: seq<byte>, pattern: seq<byte>, size: nat, from: nat)
    requires size > 0
    ensures var r := Found(f, pattern, size, from); r == -1 || (from <= r && MatchAt(f, pattern, r))
  {
    hide Scan, MatchAt;
    if |pattern| <= size {
      ScanIsSound(f, pattern, size, from, from, -1);
    }
  }

  // ----- Patterns that do not repeat well -----

  function OtherThan(b: byte): byte {
    if b == 0 then 1 else 0
  }

  function Filler(b: byte, n: nat): seq<byte> {
    seq(n, _ => OtherThan(b))
  }

  /** A first block that ends with `d + 1` bytes of the pattern, the last of which starts a match */
  function MissedFile(pattern: seq<byte>, size: nat, d: nat): seq<byte>
    requires d + 1 < |pattern| <= size
  {
    FirstBlock(pattern, size, d) + pattern[1..]
  }

  predicate Troubles(pattern: seq<byte>, d: nat) {
    1 <= d < |pattern| - 1 && pattern[d] == pattern[0] && !Repeats(pattern, d)
  }

  lemma MissedBlocks(pattern: seq<byte>, size: nat, d: nat)
    requires Troubles(pattern, d) && |pattern| <= size
    ensures
      var f := MissedFile(pattern, size, d);
      && Window(f, 0, size) == FirstBlock(pattern, size, d)
      && Window(f, size, size) == pattern[1..] != []
      && Window(f, 2 * size, size) == []
      && MatchAt(f, pattern, size - 1)
  {
    hide Repeats;
    var f := MissedFile(pattern, size, d);
    assert f[..size] == FirstBlock(pattern, size, d);
    assert f[size..] == pattern[1..];
    assert f[size - 1..size - 1 + |pattern|] == [pattern[0]] + pattern[1..];
  }

  function FirstBlock(pattern: seq<byte>, size: nat, d: nat): seq<byte>
    requires d + 1 < |pattern| <= size
  {
    Filler(pattern[0], size - d - 1) + pattern[..d + 1]
  }

  lemma FirstBlockStarts(pattern: seq<byte>, size: nat, d: nat, p: nat)
    requires d + 1 < |pattern| <= size && p < size - d - 1
    ensures |FirstBlock(pattern, size, d)| == size && FirstBlock(pattern, size, d)[p] != pattern[0]
  {
  }

  lemma NoMatchInFirstBlock(pattern: seq<byte>, size: nat, d: nat)
    requires d + 1 < |pattern| <= size
    ensures First(FirstBlock(pattern, size, d), pattern, 0) == -1
  {
    hide FirstBlock, First;
    var block := FirstBlock(pattern, size, d);
    FirstBlockStarts(pattern, size, d, 0);
    forall p | 0 <= p
      ensures !MatchAt(block, pattern, p)
    {
      if p + |pattern| <= size {
        FirstBlockStarts(pattern, size, d, p);
        assert block[p..p + |pattern|][0] == block[p];
      }
    }
    NoFirst(block, pattern, 0);
  }

  lemma PartialInFirstBlock(pattern: seq<byte>, size: nat, d: nat)
    requires d + 1 < |pattern| <= size
    ensures PartialMatch(FirstBlock(pattern, size, d), pattern) == size - d - 1
  {
    hide EndsWithFirst, LongestEnd, FirstBlock;
    var block := FirstBlock(pattern, size, d);
    FirstBlockStarts(pattern, size, d, 0);
    LongestEndIs(block, pattern, |pattern| - 1);
    EndsWithD(pattern, size, d);
    assert |block| == size && EndsWithFirst(block, pattern, d + 1);
    var longest := LongestEnd(block, pattern, |pattern| - 1);
    if longest > d + 1 {
      NothingLonger(pattern, size, d, longest);
    }
  }

  /** What stands before the last bytes of the block does not begin the pattern. */
  lemma NothingLonger(pattern: seq<byte>, size: nat, d: nat, n: nat)
    requires d + 1 < n < |pattern| <= size
    ensures !EndsWithFirst(FirstBlock(pattern, size, d), pattern, n)
  {
    var block := FirstBlock(pattern, size, d);
    FirstBlockStarts(pattern, size, d, size - n);
    assert block[size - n..][0] == block[size - n] != pattern[..n][0];
  }

  lemma EndsWithD(pattern: seq<byte>, size: nat, d: nat)
    requires d + 1 < |pattern| <= size
    ensures EndsWithFirst(FirstBlock(pattern, size, d), pattern, d + 1)
  {
    assert FirstBlock(pattern, size, d)[size - d - 1..] == pattern[..d + 1];
  }

  lemma RestMakesRepeat(pattern: seq<byte>, d: nat)
    requires d < |pattern| && pattern[d] == pattern[0] && pattern[1..][..|pattern| - d - 1] == pattern[d + 1..]
    ensures Repeats(pattern, d)
  {
    var n := |pattern| - d;
    assert pattern[d..] == [pattern[d]] + pattern[d + 1..];
    assert pattern[..n] == [pattern[0]] + pattern[1..][..n - 1];
  }

  lemma NotInSecondBlock(pattern: seq<byte>, size: nat, d: nat)
    requires Troubles(pattern, d) && |pattern| <= size
    ensures !ContainsAt(pattern[1..], pattern, 0, d + 1, |pattern|) && First(pattern[1..], pattern, 0) == -1
  {
    hide Repeats;
    if ContainsAt(pattern[1..], pattern, 0, d + 1, |pattern|) {
      RestMakesRepeat(pattern, d);
    }
  }

  /** The match is there, and the search does not find any. */
  lemma FindMisses(pattern: seq<byte>, size: nat, d: nat)
    requires Troubles(pattern, d) && |pattern| <= size
    ensures var f := MissedFile(pattern, size, d); Found(f, pattern, size, 0) == -1 && MatchAt(f, pattern, size - 1)
  {
    hide Window, ContainsAt, First, PartialMatch, MatchAt, MissedFile, Repeats, FirstBlock;
    var f := MissedFile(pattern, size, d);
    MissedBlocks(pattern, size, d);
    NoMatchInFirstBlock(pattern, size, d);
    PartialInFirstBlock(pattern, size, d);
    NotInSecondBlock(pattern, size, d);
    BlockIsInside(f, size, size);
    assert Scan(f, pattern, size, 2 * size, PartialMatch(pattern[1..], pattern)) == -1;
    assert Scan(f, pattern, size, size, size - d - 1) == -1;
  }

  lemma NothingYet(f: seq<byte>, pattern: seq<byte>, size: nat, from: nat)
    requires pattern != []
    ensures NoneBefore(f, pattern, from, from) && PartialOk(f, pattern, size, from, from, -1)
  {
  }

  /** For patterns that fit a block, the search returns the first match in every file and from every offset
      exactly when the pattern repeats well. */
  lemma FindIsFirstIff(pattern: seq<byte>, size: nat)
    requires 1 <= |pattern| <= size
    ensures RepeatsWell(pattern) <==>
      forall f: seq<byte>, from: nat :: Found(f, pattern, size, from) == First(f, pattern, from)
  {
    hide Scan, First, PartialOk, MatchAt, Repeats, MissedFile;
    if RepeatsWell(pattern) {
      forall f: seq<byte>, from: nat
        ensures Found(f, pattern, size, from) == First(f, pattern, from)
      {
        NothingYet(f, pattern, size, from);
        ScanIsFirst(f, pattern, size, from, from, -1);
      }
    } else {
      var d :| 1 <= d < |pattern| - 1 && pattern[d] == pattern[0] && !Repeats(pattern, d);
      var f := MissedFile(pattern, size, d);
      FindMisses(pattern, size, d);
      FirstIsMatch(f, pattern, 0);
      assert Found(f, pattern, size, 0) != First(f, pattern, 0);
    }
  }
}
