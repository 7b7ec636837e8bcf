/** Looking for frames and tags block by block (taglib_mod/mpeg/mpegfile.cpp). */
module MpegScans {
  import opened Bytes
  import opened ByteSearch
  import opened MpegHeaders

  // ----- The plain searches -----

  /** The least place at or behind `from` where a frame stands, -1 when there is none */
  function NextFrame(f: seq<byte>, from: nat): int
    decreases |f| - from
  {
    if from >= |f| then -1 else if FrameAt(f, from) then from else NextFrame(f, from + 1)
  }

  /** The greatest place where a frame stands whose second byte lies before `end`, -1 when there is none */
  function LastFrame(f: seq<byte>, end: nat): int {
    if end < 2 then -1 else if FrameAt(f, end - 2) then end - 2 else LastFrame(f, end - 1)
  }

  lemma {:induction false} NextFrameIsLeast(f: seq<byte>, from: nat)
    ensures
      var p := NextFrame(f, from);
      if p < 0 then p == -1 && forall q: nat | q >= from :: !FrameAt(f, q)
      else from <= p < |f| && FrameAt(f, p) && forall q: nat | from <= q < p :: !FrameAt(f, q)
    decreases |f| - from
  {
    hide Announced, Agree;
    if from < |f| && !FrameAt(f, from) {
      NextFrameIsLeast(f, from + 1);
    }
  }

  lemma {:induction false} LastFrameIsGreatest(f: seq<byte>, end: nat)
    ensures
      var p := LastFrame(f, end);
      if p < 0 then p == -1 && forall q: nat | q + 1 < end :: !FrameAt(f, q)
      else p + 1 < end && FrameAt(f, p) && forall q: nat | p < q && q + 1 < end :: !FrameAt(f, q)
  {
    hide FrameAt;
    if end >= 2 && !FrameAt(f, end - 2) {
      LastFrameIsGreatest(f, end - 1);
    }
  }

  lemma FrameIsSync(f: seq<byte>, p: nat)
    requires FrameAt(f, p)
    ensures p + 4 <= |f| && IsSync(f[p], f[p + 1])
  {
    hide IsSync, Agree, Bitrate, SampleRate, SamplesPerFrame, Length, Version, Layer, BitrateIndex,
        SampleRateIndex, IsPadded;
    assert f[p..p + 4][0] == f[p] && f[p..p + 4][1] == f[p + 1];
  }

  lemma ZeroIsNoSync(b: byte)
    ensures !IsSync(0, b) && !IsSync(b, 0)
  {
  }

  // ----- The searches by blocks -----

  /** The byte at a place behind the start of a scan, nothing before it */
  function Seen(f: seq<byte>, start: nat, p: int): byte {
    if start <= p < |f| then f[p] else 0
  }

  /** Where the first pair lies that a scan from `start` has not seen, having read up to `position` */
  function Unseen(start: nat, position: nat): nat {
    if position <= start then start else position - 1
  }

  lemma BlockIs(f: seq<byte>, position: nat, size: nat)
    ensures |Window(f, position, size)| <= size
    ensures Window(f, position, size) != [] ==> position + |Window(f, position, size)| <= |f|
    ensures forall i | 0 <= i < |Window(f, position, size)| :: Window(f, position, size)[i] == f[position + i]
    ensures |Window(f, position, size)| < size ==> position + |Window(f, position, size)| >= |f|
  {
  }

  /** Reading one byte more either finds the frame or moves on by one place. */
  lemma PairSeen(f: seq<byte>, start: nat, j: nat)
    requires start <= j < |f| && NextFrame(f, start) == NextFrame(f, Unseen(start, j))
    ensures
      if IsSync(Seen(f, start, j - 1), f[j]) && FrameAt(f, j - 1) then NextFrame(f, start) == j - 1
      else NextFrame(f, start) == NextFrame(f, Unseen(start, j + 1))
    ensures IsSync(Seen(f, start, j - 1), f[j]) ==> j >= 1
  {
    hide FrameAt, IsSync;
    ZeroIsNoSync(f[j]);
    if j > start && FrameAt(f, j - 1) {
      FrameIsSync(f, j - 1);
    }
  }

  lemma NoFrameAtEnd(f: seq<byte>, start: nat, end: nat)
    requires end >= |f|
    ensures NextFrame(f, Unseen(start, end)) == -1
  {
    hide Announced, Agree;
  }

  /** Keeps the byte before the block, so that pairs across a block's edge are seen. */
  method NextFrameOffset(f: seq<byte>, start: nat, size: nat) returns (r: int)
    requires size > 0
    ensures r == NextFrame(f, start)
  {
    hide *;
    var position := start;
    var sync0: byte, sync1: byte := 0, 0;
    SeenNothing(f, start);
    while true
      invariant start <= position
      invariant position <= |f| ==> sync1 == Seen(f, start, position - 1)
      invariant position <= |f| ==> NextFrame(f, start) == NextFrame(f, Unseen(start, position))
      invariant position > |f| ==> NextFrame(f, start) == -1
      decreases |f| + 1 - position
    {
      var buffer := Window(f, position, size);
      BlockIs(f, position, size);
      if buffer == [] {
        NoFrameAtEnd(f, start, position);
        return -1;
      }
      var i := 0;
      while i < |buffer|
        invariant 0 <= i <= |buffer| && sync1 == Seen(f, start, position + i - 1)
        invariant NextFrame(f, start) == NextFrame(f, Unseen(start, position + i))
      {
        PairSeen(f, start, position + i);
        sync0 := sync1;
        sync1 := buffer[i];
        if IsSync(sync0, sync1) {
          var header := new Header(f, position + i - 1, true);
          if header.isValid {
            return position + i - 1;
          }
        }
        SeenNow(f, start, position + i);
        i := i + 1;
      }
      if |buffer| < size {
        NoFrameAtEnd(f, start, position + |buffer|);
      }
      position := position + size;
    }
  }

  lemma SeenNothing(f: seq<byte>, start: nat)
    ensures Seen(f, start, start - 1) == 0 && Unseen(start, start) == start
    ensures start > |f| ==> NextFrame(f, start) == -1
  {
  }

  lemma SeenNow(f: seq<byte>, start: nat, p: nat)
    requires start <= p < |f|
    ensures Seen(f, start, p) == f[p]
  {
  }

  // ----- Backwards -----

  /** The byte at a place before the end of a backward scan, nothing behind it */
  function SeenBack(f: seq<byte>, start: nat, p: nat): byte {
    if p < start && p < |f| then f[p] else 0
  }

  function Least(a: nat, b: nat): nat {
    if a <= b then a else b
  }

  lemma PairSeenBack(f: seq<byte>, start: nat, j: nat)
    requires j < start && j < |f| && LastFrame(f, start) == LastFrame(f, Least(start, j + 2))
    ensures
      if IsSync(f[j], SeenBack(f, start, j + 1)) && FrameAt(f, j) then LastFrame(f, start) == j
      else LastFrame(f, start) == LastFrame(f, Least(start, j + 1))
  {
    hide FrameAt, IsSync;
    ZeroIsNoSync(f[j]);
    if FrameAt(f, j) {
      FrameIsSync(f, j);
    }
    NoneInLastPlaces(f, j);
  }

  lemma NoneInLastPlaces(f: seq<byte>, p: nat)
    ensures p + 4 > |f| ==> !FrameAt(f, p)
  {
    hide Announced, Agree;
  }

  /** Behind the end of the file there is nothing to see. */
  lemma {:induction false} PastEnd(f: seq<byte>, a: nat, b: nat)
    requires |f| <= a <= b
    ensures LastFrame(f, a) == LastFrame(f, b)
    decreases b
  {
    hide FrameAt;
    if a < b {
      PastEnd(f, a, b - 1);
      if b >= 2 {
        NoneInLastPlaces(f, b - 2);
      }
    }
  }

  lemma BlockPastEnd(f: seq<byte>, start: nat, j: nat, k: nat)
    requires k <= j <= start && (k == j || k >= |f|)
    requires LastFrame(f, start) == LastFrame(f, Least(start, j + 1))
    ensures LastFrame(f, start) == LastFrame(f, Least(start, k + 1))
    ensures SeenBack(f, start, k) == SeenBack(f, start, j) || k < j
    ensures k < j ==> SeenBack(f, start, k) == 0 == SeenBack(f, start, j)
  {
    hide LastFrame;
    if k < j {
      PastEnd(f, Least(start, k + 1), Least(start, j + 1));
    }
  }

  /** The end of the last frame whose first two bytes lie before `start` */
  method PreviousFrameOffset(f: seq<byte>, start: nat, size: nat) returns (r: int)
    requires size > 0
    ensures
      var p := LastFrame(f, start);
      if p < 0 then r == -1 else FrameAt(f, p) && r == p + FrameLength(f, p)
  {
    hide *;
    LastFrameIsGreatest(f, start);
    NothingSeenBack(f, start);
    var position: nat := start;
    var sync0: byte, sync1: byte := 0, 0;
    while position > 0
      invariant position <= start && sync0 == SeenBack(f, start, position)
      invariant LastFrame(f, start) == LastFrame(f, Least(start, position + 1))
    {
      var bufferLength: nat := Least(position, size);
      LeastIs(position, size);
      ghost var top := position;
      position := position - bufferLength;
      var buffer := Window(f, position, bufferLength);
      BlockIs(f, position, bufferLength);
      BlockPastEnd(f, start, top, position + |buffer|);
      var i := |buffer| - 1;
      while i >= 0
        invariant -1 <= i < |buffer| && sync0 == SeenBack(f, start, position + i + 1)
        invariant LastFrame(f, start) == LastFrame(f, Least(start, position + i + 2))
      {
        PairSeenBack(f, start, position + i);
        sync1 := sync0;
        sync0 := buffer[i];
        SeenBackNow(f, start, position + i);
        if IsSync(sync0, sync1) {
          var header := new Header(f, position + i, true);
          if header.isValid {
            FrameLengthIs(f, position + i);
            return position + i + header.frameLength;
          }
        }
        i := i - 1;
      }
    }
    NoFrameAtStart(f, start);
    return -1;
  }

  lemma LeastIs(a: nat, b: nat)
    ensures Least(a, b) <= a && Least(a, b) <= b && (a > 0 && b > 0 ==> Least(a, b) > 0)
  {
  }

  lemma SeenBackNow(f: seq<byte>, start: nat, p: nat)
    ensures p < start && p < |f| ==> SeenBack(f, start, p) == f[p]
  {
  }

  lemma NothingSeenBack(f: seq<byte>, start: nat)
    ensures SeenBack(f, start, start) == 0 && Least(start, start + 1) == start
  {
  }

  lemma NoFrameAtStart(f: seq<byte>, start: nat)
    ensures LastFrame(f, Least(start, 1)) == -1
  {
  }

  lemma FrameLengthIs(f: seq<byte>, p: nat)
    requires FrameAt(f, p)
    ensures p + 4 <= |f| && Announced(f[p..p + 4]).Some? && FrameLength(f, p) == Announced(f[p..p + 4]).value
  {
  }

  // ----- The tag -----

  /** `ID3` */
  const TAG_ID: seq<byte> := [0x49, 0x44, 0x33]

  /** The first tag of the file, unless a frame stands before it */
  function TagBeforeFrames(f: seq<byte>): int {
    var tag, frame := First(f, TAG_ID, 0), NextFrame(f, 0);
    if tag >= 0 && (frame < 0 || tag < frame) then tag else -1
  }

  /** With bytes up to `j` read: what the scan has ruled out */
  ghost predicate NothingUpTo(f: seq<byte>, j: nat) {
    && NextFrame(f, 0) == NextFrame(f, Unseen(0, j))
    && First(f, TAG_ID, 0) == First(f, TAG_ID, UnseenTag(j))
  }

  function UnseenTag(j: nat): nat {
    if j < 2 then 0 else j - 2
  }

  predicate TagEndsAt(f: seq<byte>, j: nat)
    requires j < |f|
  {
    Seen(f, 0, j - 2) == 0x49 && Seen(f, 0, j - 1) == 0x44 && f[j] == 0x33
  }

  lemma TagMatch(f: seq<byte>, j: nat)
    requires j < |f|
    ensures TagEndsAt(f, j) <==> MatchAt(f, TAG_ID, j - 2)
  {
    if j >= 2 {
      assert f[j - 2..j + 1] == [f[j - 2], f[j - 1], f[j]];
    }
  }

  lemma TagIsNoFrame(f: seq<byte>, p: nat, t: int)
    requires FrameAt(f, p) && MatchAt(f, TAG_ID, t)
    ensures p != t && p != t + 1
  {
    FrameIsSync(f, p);
    hide FrameAt;
    assert f[t..t + 3][0] == 0x49 && f[t..t + 3][1] == 0x44;
  }

  lemma FirstTag(f: seq<byte>, from: nat)
    ensures var t := First(f, TAG_ID, from); if t < 0 then t == -1 else t >= from && MatchAt(f, TAG_ID, t)
    ensures MatchAt(f, TAG_ID, from) ==> First(f, TAG_ID, from) == from
    ensures !MatchAt(f, TAG_ID, from) ==> First(f, TAG_ID, from) == First(f, TAG_ID, from + 1)
  {
    hide MatchAt;
    FirstIsMatch(f, TAG_ID, from);
    FirstIsMatch(f, TAG_ID, from + 1);
  }

  /** A frame ends the search, as no tag can begin in its two bytes. */
  lemma FrameFirst(f: seq<byte>, j: nat)
    requires 1 <= j < |f| && NothingUpTo(f, j) && NextFrame(f, 0) == j - 1
    ensures TagBeforeFrames(f) == -1
  {
    hide NextFrame, First, MatchAt, FrameAt;
    NextFrameIsLeast(f, 0);
    FirstTag(f, UnseenTag(j));
    var t := First(f, TAG_ID, 0);
    if t >= 0 {
      TagIsNoFrame(f, j - 1, t);
    }
  }

  lemma TagFirst(f: seq<byte>, j: nat)
    requires j < |f| && NothingUpTo(f, j) && TagEndsAt(f, j)
    requires NextFrame(f, 0) == NextFrame(f, Unseen(0, j + 1))
    ensures TagBeforeFrames(f) == j - 2
  {
    hide NextFrame, First, MatchAt, FrameAt;
    TagMatch(f, j);
    FirstTag(f, UnseenTag(j));
    NextFrameIsLeast(f, Unseen(0, j + 1));
  }

  lemma ByteRead(f: seq<byte>, j: nat)
    requires j < |f| && NothingUpTo(f, j) && !TagEndsAt(f, j)
    requires NextFrame(f, 0) == NextFrame(f, Unseen(0, j + 1))
    ensures NothingUpTo(f, j + 1)
  {
    hide NextFrame, First, MatchAt, FrameAt, TagEndsAt;
    TagMatch(f, j);
    if j >= 2 {
      FirstTag(f, j - 2);
    }
  }

  lemma FileRead(f: seq<byte>, j: nat)
    requires j >= |f| && NothingUpTo(f, j)
    ensures TagBeforeFrames(f) == -1
  {
    hide NextFrame, FrameAt;
  }

  /** The beginning of the file is looked at first. */
  lemma AtTheStart(f: seq<byte>)
    ensures Window(f, 0, 3) == TAG_ID ==> TagBeforeFrames(f) == 0
    ensures FrameAt(f, 0) ==> TagBeforeFrames(f) == -1
    ensures NothingUpTo(f, 0)
  {
    hide FrameAt;
    FirstTag(f, 0);
    NextFrameIsLeast(f, 0);
    if Window(f, 0, 3) == TAG_ID {
      assert MatchAt(f, TAG_ID, 0);
      if FrameAt(f, 0) {
        TagIsNoFrame(f, 0, 0);
      }
    }
  }

  method FindID3v2(f: seq<byte>, size: nat) returns (r: int)
    requires size > 0
    ensures r == TagBeforeFrames(f)
  {
    hide *;
    AtTheStart(f);
    if Window(f, 0, 3) == TAG_ID {
      return 0;
    }
    var firstHeader := new Header(f, 0, true);
    if firstHeader.isValid {
      return -1;
    }
    var position: nat := 0;
    var sync0: byte, sync1: byte := 0, 0;
    var tag0: byte, tag1: byte, tag2: byte := 0, 0, 0;
    SeenNoTag(f);
    while true
      invariant position <= |f| ==> sync1 == tag2 == Seen(f, 0, position - 1) && tag1 == Seen(f, 0, position - 2)
      invariant position <= |f| ==> NothingUpTo(f, position)
      invariant position > |f| ==> TagBeforeFrames(f) == -1
      decreases |f| + 1 - position
    {
      var buffer := Window(f, position, size);
      BlockIs(f, position, size);
      if buffer == [] {
        if position <= |f| {
          FileRead(f, position);
        }
        return -1;
      }
      var i := 0;
      while i < |buffer|
        invariant 0 <= i <= |buffer|
        invariant sync1 == tag2 == Seen(f, 0, position + i - 1) && tag1 == Seen(f, 0, position + i - 2)
        invariant NothingUpTo(f, position + i)
      {
        var j := position + i;
        Ruled(f, j);
        PairSeen(f, 0, j);
        SeenNow(f, 0, j);
        sync0 := sync1;
        sync1 := buffer[i];
        if IsSync(sync0, sync1) {
          var header := new Header(f, j - 1, true);
          if header.isValid {
            FrameFirst(f, j);
            return -1;
          }
        }
        tag0 := tag1;
        tag1 := tag2;
        tag2 := buffer[i];
        TagEndsIs(f, j);
        if [tag0, tag1, tag2] == TAG_ID {
          TagFirst(f, j);
          return j - 2;
        }
        ByteRead(f, j);
        i := i + 1;
      }
      if |buffer| < size {
        FileRead(f, position + |buffer|);
      }
      position := position + size;
    }
  }

  lemma SeenNoTag(f: seq<byte>)
    ensures Seen(f, 0, -1) == 0 && Seen(f, 0, -2) == 0
  {
  }

  lemma Ruled(f: seq<byte>, j: nat)
    requires NothingUpTo(f, j)
    ensures NextFrame(f, 0) == NextFrame(f, Unseen(0, j))
  {
  }

  lemma TagEndsIs(f: seq<byte>, j: nat)
    requires j < |f|
    ensures TagEndsAt(f, j) <==> [Seen(f, 0, j - 2), Seen(f, 0, j - 1), f[j]] == TAG_ID
  {
  }
}
