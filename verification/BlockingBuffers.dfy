/** The two-tier buffer between the stream producer and the tag parser
    (src/mp3core/BlockingBuffer.h): a bounded memory tier, then a spill file. */
module BlockingBuffers {
  import opened Bytes

  /** The stored bytes. Once `limitReached` is set every later block goes to the spill file. */
  datatype Tiers = Tiers(mem: seq<byte>, memMax: nat, spill: seq<byte>, limitReached: bool) {
    ghost predicate Valid() {
      |mem| <= memMax && (spill != [] ==> limitReached)
    }

    /** The one append-only sequence the two tiers stand for. */
    function Contents(): seq<byte> {
      mem + spill
    }
  }

  function EmptyTiers(memMax: nat): Tiers {
    Tiers([], memMax, [], false)
  }

  function AppendTo(b: Tiers, block: seq<byte>): Tiers {
    if b.limitReached || |b.mem| + |block| > b.memMax then
      b.(limitReached := true, spill := b.spill + block)
    else
      b.(mem := b.mem + block)
  }

  function AppendAll(b: Tiers, blocks: seq<seq<byte>>): Tiers
    decreases |blocks|
  {
    if blocks == [] then b else AppendAll(AppendTo(b, blocks[0]), blocks[1..])
  }

  /** The bytes of several blocks, one block after the other */
  function Joined(blocks: seq<seq<byte>>): seq<byte>
    decreases |blocks|
  {
    if blocks == [] then [] else blocks[0] + Joined(blocks[1..])
  }

  /** `k` is how many leading blocks find room behind `used` bytes of memory: those fit, and the next does not. */
  ghost predicate FindRoom(used: nat, memMax: nat, blocks: seq<seq<byte>>, k: nat) {
    && k <= |blocks| && (k > 0 ==> used + |Joined(blocks[..k])| <= memMax)
    && (k < |blocks| ==> used + |Joined(blocks[..k + 1])| > memMax)
  }

  /** What `File::read` adds to a block that already holds `carried` bytes. A negative offset stands
      for an unsigned one that wrapped: it lies past the end of every file, so nothing is read. */
  function FileRead(file: seq<byte>, offset: int, carried: seq<byte>, max: nat): (block: seq<byte>)
    requires |carried| <= max
    ensures carried <= block && |block| <= max
  {
    if 0 <= offset < |file| then carried + Window(file, offset, max - |carried|) else carried
  }

  /** One pass of `readNoLock` over a block of capacity `max` that already holds `carried`. */
  function ReadPass(b: Tiers, offset: nat, carried: seq<byte>, max: nat): (block: seq<byte>)
    requires |carried| <= max
    ensures carried <= block && |block| <= max
  {
    var target := max - |carried|;
    var fromMem := carried + Window(b.mem, offset, target);
    if |fromMem| != target && b.limitReached then
      FileRead(b.spill, offset + |fromMem| - |b.mem|, fromMem, max)
    else
      fromMem
  }

  /** The loop of `read`: before each pass the producer appends one batch of blocks; the last pass
      happens at end of input. The block keeps what earlier passes put into it. */
  function ReadLoop(b: Tiers, offset: nat, carried: seq<byte>, max: nat, batches: seq<seq<seq<byte>>>)
      : (r: (Tiers, seq<byte>))
    requires |carried| <= max
    decreases |batches|
  {
    if batches == [] then (b, carried)
    else
      var b' := AppendAll(b, batches[0]);
      var block := ReadPass(b', offset + |carried|, carried, max);
      if |block| == max then (b', block) else ReadLoop(b', offset, block, max, batches[1..])
  }

  lemma AppendExtends(b: Tiers, block: seq<byte>)
    requires b.Valid()
    ensures AppendTo(b, block).Valid()
    ensures AppendTo(b, block).Contents() == b.Contents() + block
    ensures b.limitReached ==> AppendTo(b, block).limitReached
    ensures b.mem <= AppendTo(b, block).mem
  {
  }

  lemma {:induction false} AppendAllExtends(b: Tiers, blocks: seq<seq<byte>>)
    requires b.Valid()
    ensures AppendAll(b, blocks).Valid()
    ensures b.Contents() <= AppendAll(b, blocks).Contents()
    ensures b.limitReached ==> AppendAll(b, blocks).limitReached
    decreases |blocks|
  {
    if blocks != [] {
      AppendExtends(b, blocks[0]);
      AppendAllExtends(AppendTo(b, blocks[0]), blocks[1..]);
    }
  }

  lemma JoinedNext(blocks: seq<seq<byte>>, k: nat)
    requires k < |blocks|
    ensures Joined(blocks[..k + 1]) == blocks[0] + Joined(blocks[1..][..k])
    ensures blocks[..k + 1][1..] == blocks[1..][..k]
  {
    assert blocks[..k + 1][1..] == blocks[1..][..k];
  }

  lemma {:induction false} AllSpill(b: Tiers, blocks: seq<seq<byte>>)
    requires b.limitReached
    ensures AppendAll(b, blocks) == b.(spill := b.spill + Joined(blocks))
    decreases |blocks|
  {
    if blocks != [] {
      AllSpill(AppendTo(b, blocks[0]), blocks[1..]);
    }
  }

  /** Memory takes all blocks until the first for which it has no room; that one and all later ones go to the
      spill file. */
  lemma {:induction false} MemoryIsFilled(b: Tiers, blocks: seq<seq<byte>>, k: nat)
    requires !b.limitReached && FindRoom(|b.mem|, b.memMax, blocks, k)
    ensures AppendAll(b, blocks) ==
            Tiers(b.mem + Joined(blocks[..k]), b.memMax, b.spill + Joined(blocks[k..]), k < |blocks|)
    decreases |blocks|
  {
    if k > 0 {
      JoinedNext(blocks, k - 1);
      if k < |blocks| {
        JoinedNext(blocks, k);
      }
      RoomForFirst(blocks, k - 1);
      assert blocks[k..] == blocks[1..][k - 1..];
      MemoryIsFilled(AppendTo(b, blocks[0]), blocks[1..], k - 1);
    } else if blocks != [] {
      JoinedNext(blocks, 0);
      assert blocks[0..] == blocks;
      AllSpill(AppendTo(b, blocks[0]), blocks[1..]);
    }
  }

  lemma RoomForFirst(blocks: seq<seq<byte>>, k: nat)
    requires k < |blocks|
    ensures |blocks[0]| <= |Joined(blocks[..k + 1])|
  {
    JoinedNext(blocks, k);
  }

  lemma {:induction false} RoomIsFound(used: nat, memMax: nat, blocks: seq<seq<byte>>) returns (k: nat)
    ensures FindRoom(used, memMax, blocks, k)
    decreases |blocks|
  {
    if blocks == [] || used + |blocks[0]| > memMax {
      k := 0;
      if blocks != [] {
        JoinedNext(blocks, 0);
      }
    } else {
      k := RoomIsFound(used + |blocks[0]|, memMax, blocks[1..]);
      JoinedNext(blocks, k);
      if k + 1 < |blocks| {
        JoinedNext(blocks, k + 1);
      }
      k := k + 1;
    }
  }

  /** The limit is reached exactly when the blocks together do not find room in memory. */
  lemma SpillsIffNoRoom(b: Tiers, blocks: seq<seq<byte>>)
    requires b.Valid() && !b.limitReached
    ensures AppendAll(b, blocks).limitReached <==> |b.mem| + |Joined(blocks)| > b.memMax
    ensures AppendAll(b, blocks).Contents() == b.Contents() + Joined(blocks)
    ensures AppendAll(b, blocks).memMax == b.memMax
  {
    hide Joined, AppendAll;
    var k := RoomIsFound(|b.mem|, b.memMax, blocks);
    MemoryIsFilled(b, blocks, k);
    JoinedSplit(blocks, k);
    if k < |blocks| {
      JoinedSplit(blocks, k + 1);
    } else {
      assert blocks[..k] == blocks;
    }
    assert blocks == [] ==> Joined(blocks) == [] by { JoinedNone(); }
    assert b.spill == [] && b.spill + Joined(blocks[k..]) == Joined(blocks[k..]);
    JoinThree(b.mem, Joined(blocks[..k]), Joined(blocks[k..]));
  }

  lemma JoinedNone()
    ensures Joined([]) == []
  {
  }

  lemma {:induction false} JoinedSplit(blocks: seq<seq<byte>>, k: nat)
    requires k <= |blocks|
    ensures Joined(blocks) == Joined(blocks[..k]) + Joined(blocks[k..])
    decreases |blocks|
  {
    if k > 0 {
      JoinedNext(blocks, k - 1);
      JoinedSplit(blocks[1..], k - 1);
      assert blocks[k..] == blocks[1..][k - 1..];
    } else {
      assert blocks[0..] == blocks;
    }
  }

  /** A pass into an empty block returns exactly the window of the one sequence. */
  lemma FreshPassIsWindow(b: Tiers, offset: nat, max: nat)
    requires b.Valid()
    ensures ReadPass(b, offset, [], max) == Window(b.Contents(), offset, max)
  {
    WindowOfConcat(b.mem, b.spill, offset, max);
    WindowLength(b.mem, offset, max);
    WindowLength(b.spill, Max(0, offset - |b.mem|), max - |Window(b.mem, offset, max)|);
  }

  /** Whether a retried pass, with `c` bytes carried from the window that starts at `start`, can be
      trusted: nothing spilled, or memory alone fills the block, or nothing new lies in the spill file. */
  predicate RetrySafe(memLen: nat, spillLen: nat, limitReached: bool, start: nat, c: nat, max: nat) {
    || !limitReached
    || c == 0
    || start + max <= memLen
    || memLen + spillLen <= Max(start + c, memLen)
    || c == max
  }

  /** The retried pass started from the right bytes and ends with the right bytes. */
  ghost predicate RetryRight(b: Tiers, start: nat, c: nat, max: nat)
    requires c <= max && start + c <= |b.Contents()|
  {
    ReadPass(b, start + c, Window(b.Contents(), start, c), max) == Window(b.Contents(), start, max)
  }

  /** What the spill file must add to a retried pass, and what the pass takes from it. */
  function SpillWanted(b: Tiers, start: nat, c: nat, max: nat): seq<byte>
    requires c <= max
  {
    Window(b.spill, Max(0, start + c - |b.mem|), max - c - |Window(b.mem, start + c, max - c)|)
  }

  function SpillTaken(b: Tiers, start: nat, c: nat, max: nat): seq<byte>
    requires c <= max
  {
    var n := |Window(b.mem, start + c, max - c)|;
    var offset := start + c + c + n - |b.mem|;
    if c + n != max - c && b.limitReached && 0 <= offset < |b.spill| then Window(b.spill, offset, max - c - n) else []
  }

  lemma WindowWants(b: Tiers, start: nat, c: nat, max: nat)
    requires c <= max && start + c <= |b.Contents()|
    ensures Window(b.Contents(), start, max)
            == Window(b.Contents(), start, c) + Window(b.mem, start + c, max - c) + SpillWanted(b, start, c, max)
  {
    hide Window;
    WindowsJoin(b.Contents(), start, c, max - c);
    WindowOfConcat(b.mem, b.spill, start + c, max - c);
  }

  lemma SameAfterPrefix(p: seq<byte>, x: seq<byte>, y: seq<byte>)
    ensures p + x == p + y <==> x == y
  {
    assert x == (p + x)[|p|..];
    assert y == (p + y)[|p|..];
  }

  lemma RetryComparesSpill(b: Tiers, start: nat, c: nat, max: nat)
    requires c <= max && start + c <= |b.Contents()|
    ensures RetryRight(b, start, c, max) <==> SpillTaken(b, start, c, max) == SpillWanted(b, start, c, max)
  {
    hide Window;
    var carried := Window(b.Contents(), start, c);
    assert |carried| == c by { WindowLength(b.Contents(), start, c); }
    WindowWants(b, start, c, max);
    SameAfterPrefix(carried + Window(b.mem, start + c, max - c),
                    SpillTaken(b, start, c, max), SpillWanted(b, start, c, max));
  }

  lemma SafeRetryIsRight(b: Tiers, start: nat, c: nat, max: nat)
    requires b.Valid() && c <= max && start + c <= |b.Contents()|
    requires RetrySafe(|b.mem|, |b.spill|, b.limitReached, start, c, max)
    ensures RetryRight(b, start, c, max)
  {
    hide RetryRight, Window;
    RetryComparesSpill(b, start, c, max);
    WindowLength(b.mem, start + c, max - c);
    var n := |Window(b.mem, start + c, max - c)|;
    WindowIsEmpty(b.spill, Max(0, start + c - |b.mem|), max - c - n);
    if start + c + c + n >= |b.mem| {
      WindowIsEmpty(b.spill, start + c + c + n - |b.mem|, max - c - n);
    }
  }

  lemma WindowIsEmpty<T>(s: seq<T>, start: nat, len: nat)
    ensures start >= |s| || len == 0 ==> Window(s, start, len) == []
  {
  }

  /** An unsafe retry goes wrong for some stored bytes of these very sizes. */
  lemma UnsafeRetryFails(memLen: nat, memMax: nat, spillLen: nat, start: nat, c: nat, max: nat) returns (b: Tiers)
    requires memLen <= memMax && c <= max && start + c <= memLen + spillLen
    requires !RetrySafe(memLen, spillLen, true, start, c, max)
    ensures Sized(b, memLen, memMax, spillLen, true)
    ensures !RetryRight(b, start, c, max)
  {
    hide Window, RetryRight;
    // The first spilled byte that the block lacks is the only non-zero one.
    var first := Max(start + c, memLen) - memLen;
    b := Tiers(seq(memLen, _ => 0), memMax, seq(spillLen, i => if i == first then 1 else 0), true);
    RetryComparesSpill(b, start, c, max);
    WindowLength(b.mem, start + c, max - c);
    var n := |Window(b.mem, start + c, max - c)|;
    WindowStart(b.spill, first, max - c - n);
    if 0 <= start + c + c + n - |b.mem| {
      WindowStart(b.spill, start + c + c + n - |b.mem|, max - c - n);
    }
  }

  ghost predicate Sized(b: Tiers, memLen: nat, memMax: nat, spillLen: nat, limitReached: bool) {
    b.Valid() && |b.mem| == memLen && b.memMax == memMax && |b.spill| == spillLen && b.limitReached == limitReached
  }

  /** Retrying is right for all stored bytes of the given sizes exactly when it is safe. */
  lemma RetryRightIffSafe(memLen: nat, memMax: nat, spillLen: nat, limitReached: bool, start: nat, c: nat, max: nat)
    requires memLen <= memMax && c <= max && start + c <= memLen + spillLen && (spillLen > 0 ==> limitReached)
    ensures RetrySafe(memLen, spillLen, limitReached, start, c, max) <==>
            forall b: Tiers :: Sized(b, memLen, memMax, spillLen, limitReached) ==> RetryRight(b, start, c, max)
  {
    if RetrySafe(memLen, spillLen, limitReached, start, c, max) {
      forall b: Tiers | Sized(b, memLen, memMax, spillLen, limitReached)
        ensures RetryRight(b, start, c, max)
      {
        SafeRetryIsRight(b, start, c, max);
      }
    } else {
      var b := UnsafeRetryFails(memLen, memMax, spillLen, start, c, max);
    }
  }

  /** The bytes of the first `n` batches */
  function Arrived(batches: seq<seq<seq<byte>>>, n: nat): seq<byte>
    requires n <= |batches|
    decreases n
  {
    if n == 0 then [] else Joined(batches[0]) + Arrived(batches[1..], n - 1)
  }

  /** `read` with any number of retries returns the window of all that arrives, as long as what has arrived by
      its last pass finds room in memory: by the end of input, or by when there is enough. */
  lemma {:induction false} UnspilledReadIsWindow(b: Tiers, offset: nat, carried: seq<byte>, max: nat,
      batches: seq<seq<seq<byte>>>, n: nat)
    requires b.Valid() && !b.limitReached && |carried| <= max && carried == Window(b.Contents(), offset, max)
    requires n <= |batches| && |b.mem| + |Arrived(batches, n)| <= b.memMax
    requires n == |batches| || (n > 0 && |b.Contents()| + |Arrived(batches, n)| >= offset + max)
    ensures ReadLoop(b, offset, carried, max, batches).1 ==
            Window(b.Contents() + Arrived(batches, |batches|), offset, max)
    decreases |batches|
  {
    hide Window, ReadPass, AppendAll, FileRead;
    if batches != [] {
      var b', rest := AppendAll(b, batches[0]), Arrived(batches[1..], |batches| - 1);
      AppendAllExtends(b, batches[0]);
      SpillsIffNoRoom(b, batches[0]);
      var block := ReadPass(b', offset + |carried|, carried, max);
      CarriedOver(b.Contents(), b'.Contents(), offset, max);
      if offset + |carried| <= |b'.Contents()| {
        UnspilledIsSafe(b', offset, |carried|, max);
      } else {
        FreshPassIsWindow(b', offset, max);
      }
      JoinThree(b.Contents(), Joined(batches[0]), rest);
      if |block| == max || n == 1 {
        EnoughHasArrived(b'.Contents(), rest, offset, max);
      }
      if |block| != max {
        UnspilledReadIsWindow(b', offset, block, max, batches[1..], n - 1);
      }
    } else {
      assert b.Contents() + [] == b.Contents();
    }
  }

  /** A buffer that begins empty spills exactly when the blocks are longer than its memory; until then a read gives
      the window of all that arrives. */
  lemma FromTheBeginning(memMax: nat, blocks: seq<seq<byte>>, offset: nat, max: nat, batches: seq<seq<seq<byte>>>)
    ensures AppendAll(EmptyTiers(memMax), blocks).limitReached <==> |Joined(blocks)| > memMax
    ensures |Arrived(batches, |batches|)| <= memMax ==>
      ReadLoop(EmptyTiers(memMax), offset, [], max, batches).1 == Window(Arrived(batches, |batches|), offset, max)
  {
    hide Window, AppendAll, Joined, ReadLoop, Arrived;
    var b := EmptyTiers(memMax);
    SpillsIffNoRoom(b, blocks);
    if |Arrived(batches, |batches|)| <= memMax {
      assert Window<byte>([], offset, max) == [] by { WindowIsEmpty<byte>([], offset, max); }
      UnspilledReadIsWindow(b, offset, [], max, batches, |batches|);
      assert b.Contents() + Arrived(batches, |batches|) == Arrived(batches, |batches|);
    }
  }

  /** More bytes do not change a window that is full. */
  lemma EnoughHasArrived(s: seq<byte>, more: seq<byte>, offset: nat, max: nat)
    ensures |Window(s, offset, max)| == max ==> Window(s + more, offset, max) == Window(s, offset, max)
    ensures |s| >= offset + max ==> |Window(s, offset, max)| == max
  {
    if |Window(s, offset, max)| == max && max > 0 {
      assert s <= s + more;
      WindowOfPrefix(s, s + more, offset, max);
    }
  }

  lemma UnspilledIsSafe(b: Tiers, start: nat, c: nat, max: nat)
    requires b.Valid() && !b.limitReached && c <= max && start + c <= |b.Contents()|
    ensures ReadPass(b, start + c, Window(b.Contents(), start, c), max) == Window(b.Contents(), start, max)
  {
    SafeRetryIsRight(b, start, c, max);
  }

  /** What was read before more arrived is still there. */
  lemma CarriedOver(before: seq<byte>, after: seq<byte>, offset: nat, max: nat)
    requires before <= after
    ensures
      var carried := Window(before, offset, max);
      if offset + |carried| <= |after| then carried == Window(after, offset, |carried|) else carried == []
  {
  }

  lemma DrainsOn(s: seq<byte>, start: nat, done: nat, max: nat)
    requires done <= |From(s, start)|
    ensures var block := Window(s, start + done, max);
            && Window(s, start, done) + block == Window(s, start, done + |block|)
            && done + |block| <= |From(s, start)|
  {
    hide Window, From;
    FromLength(s, start);
    WindowLength(s, start + done, max);
    WindowIsSaturated(s, start + done, max);
    WindowsJoin(s, start, done, |Window(s, start + done, max)|);
  }

  lemma FromLength(s: seq<byte>, start: nat)
    ensures |From(s, start)| == Max(0, |s| - start)
  {
  }

  lemma WindowIsSaturated(s: seq<byte>, start: nat, len: nat)
    ensures Window(s, start, |Window(s, start, len)|) == Window(s, start, len)
  {
  }

  lemma DrainsOut(s: seq<byte>, start: nat, done: nat, max: nat)
    requires max > 0 && |Window(s, start + done, max)| == 0
    ensures Window(s, start, done) == From(s, start)
  {
    WindowLength(s, start + done, max);
    WindowToEnd(s, start, done);
  }

  /** `getPrependSize`: by how much the new tag is longer than what it replaces, in unsigned arithmetic. */
  function PrependSize(tagLen: nat, replaceLen: nat): nat
    requires tagLen < UINT_RANGE && replaceLen < UINT_RANGE
  {
    Minus(tagLen, replaceLen)
  }

  /** Unsigned subtraction */
  function Minus(a: nat, b: nat): nat
    requires a < UINT_RANGE && b < UINT_RANGE
  {
    if a >= b then a - b else UINT_RANGE + a - b
  }

  /** Behind the new tag, a place of the new file less the prepend size is the place of the same bytes in what
      was stored, although both subtractions wrap when the new tag is the shorter one; and where the old
      tag was stored whole, the new file is longer by that size. */
  lemma PrependShifts(stored: seq<byte>, tag: seq<byte>, replaceLen: nat, at: nat, size: nat)
    requires |tag| <= at && at + replaceLen < UINT_RANGE
    ensures
      var file, prep := tag + From(stored, replaceLen), PrependSize(|tag|, replaceLen);
      && Window(file, at, size) == Window(stored, Minus(at, prep), size)
      && (replaceLen <= |stored| && |file| < UINT_RANGE && |stored| < UINT_RANGE ==> Minus(|file|, prep) == |stored|)
  {
    hide From, Window;
    var rest := From(stored, replaceLen);
    FromIsSuffix(stored, replaceLen, at - |tag|, size);
    WindowBehind(tag, rest, at, size);
  }

  lemma FromIsSuffix<T>(s: seq<T>, n: nat, at: nat, size: nat)
    ensures Window(From(s, n), at, size) == Window(s, n + at, size)
    ensures |From(s, n)| == if n <= |s| then |s| - n else 0
  {
    if n + at < |s| {
      assert s[n..][at..Min(at + size, |s| - n)] == s[n + at..Min(n + at + size, |s|)];
    }
  }

  lemma WindowBehind<T>(a: seq<T>, b: seq<T>, at: nat, size: nat)
    requires |a| <= at
    ensures Window(a + b, at, size) == Window(b, at - |a|, size)
  {
    if at < |a + b| {
      assert (a + b)[at..Min(at + size, |a + b|)] == b[at - |a|..Min(at - |a| + size, |b|)];
    }
  }

  /** A block: `data` are its first `curSize` bytes. */
  class IOBlock {
    const max: nat
    var data: seq<byte>

    constructor (max: nat)
      ensures this.max == max && data == []
    {
      this.max := max;
      data := [];
    }

    method Reset()
      modifies this
      ensures data == []
    {
      data := [];
    }
  }

  class BlockingBuffer {
    var mem: seq<byte>
    const memMax: nat
    var spill: seq<byte>
    var sizeLimitReached: bool
    var startPart: seq<byte>
    var prepBufSize: nat
    var replaceLen: nat

    function Stored(): Tiers
      reads this
    {
      Tiers(mem, memMax, spill, sizeLimitReached)
    }

    constructor (memMax: nat)
      ensures Stored() == EmptyTiers(memMax) && Stored().Valid()
      ensures startPart == [] && prepBufSize == 0 && replaceLen == 0
    {
      this.memMax := memMax;
      mem, spill, sizeLimitReached := [], [], false;
      startPart, prepBufSize, replaceLen := [], 0, 0;
    }

    method Append(block: IOBlock)
      requires Stored().Valid()
      modifies this`mem, this`spill, this`sizeLimitReached
      ensures Stored() == AppendTo(old(Stored()), block.data) && Stored().Valid()
      ensures Stored().Contents() == old(Stored().Contents()) + block.data
    {
      AppendExtends(Stored(), block.data);
      if sizeLimitReached || |mem| + |block.data| > memMax {
        sizeLimitReached := true;
        spill := spill + block.data;
      } else {
        mem := mem + block.data;
      }
    }

    method Prepend(vect: seq<byte>, replace: nat)
      modifies this`startPart, this`prepBufSize, this`replaceLen
      ensures startPart == vect && prepBufSize == |vect| && replaceLen == replace
    {
      startPart := vect;
      prepBufSize := |vect|;
      replaceLen := replace;
    }

    function GetPrependSize(): nat
      requires prepBufSize < UINT_RANGE && replaceLen < UINT_RANGE
      reads this
    {
      PrependSize(prepBufSize, replaceLen)
    }

    method ReadNoLock(offset: nat, block: IOBlock)
      requires Stored().Valid() && |block.data| <= block.max
      modifies block
      ensures block.data == ReadPass(Stored(), offset, old(block.data), block.max)
      ensures |block.data| <= block.max
    {
      hide Window;
      var target := block.max - |block.data|;
      WindowLength(mem, offset, target);
      if |mem| > offset {
        block.data := block.data + Window(mem, offset, target);
      }
      assert block.data == old(block.data) + Window(mem, offset, target);
      if |block.data| != target && sizeLimitReached {
        var fileOffset := offset + |block.data| - |mem|;
        block.data := FileRead(spill, fileOffset, block.data, block.max);
      }
    }

    method FinalRead(offset: nat, block: IOBlock)
      requires Stored().Valid() && block.data == []
      modifies block
      ensures block.data == Window(Stored().Contents(), offset + replaceLen, block.max)
    {
      FreshPassIsWindow(Stored(), offset + replaceLen, block.max);
      ReadNoLock(offset + replaceLen, block);
    }

    /** The drain loop of the posted task, with no close arriving: it ends, and yields everything
        after the replaced tag exactly once. */
    method Drain(blockMax: nat) returns (sink: seq<byte>)
      requires Stored().Valid() && blockMax > 0
      ensures sink == From(Stored().Contents(), replaceLen)
    {
      hide Window, From;
      var block := new IOBlock(blockMax);
      var offset := 0;
      sink := [];
      WindowLength(Stored().Contents(), replaceLen, 0);
      while true
        invariant fresh(block) && block.max == blockMax && block.data == []
        invariant Stored() == old(Stored()) && replaceLen == old(replaceLen)
        invariant offset == |sink| <= |From(Stored().Contents(), replaceLen)|
        invariant sink == Window(Stored().Contents(), replaceLen, offset)
        decreases |From(Stored().Contents(), replaceLen)| - offset
      {
        FinalRead(offset, block);
        if |block.data| == 0 {
          DrainsOut(Stored().Contents(), replaceLen, offset, blockMax);
          break;
        }
        DrainsOn(Stored().Contents(), replaceLen, offset, blockMax);
        offset := offset + |block.data|;
        sink := sink + block.data;
        block.Reset();
      }
    }
  }
}
