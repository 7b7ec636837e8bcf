/** Editing a file in place through a buffer (taglib_mod/toolkit/tfilestream.cpp) and the same edits of a
    byte vector in memory (taglib_mod/toolkit/tbytevectorstream.cpp). */
module FileStreams {
  import opened Bytes

  const BUFFER_SIZE: nat := 1024

  function Zeros(n: nat): seq<byte> {
    seq(n, _ => 0)
  }

  /** `f`, filled up with zeros when it is shorter than `n` */
  function Padded(f: seq<byte>, n: nat): seq<byte> {
    if |f| < n then f + Zeros(n - |f|) else f
  }

  /** The first `n` bytes, zeros past the end */
  function Head(f: seq<byte>, n: nat): (r: seq<byte>)
    ensures |r| == n
  {
    Padded(f, n)[..n]
  }

  /** The file with `replace` bytes from `start` on replaced by `data`; what there is to replace may end
      with the file, and a start past the end leaves zeros between. */
  function Splice(f: seq<byte>, start: nat, replace: nat, data: seq<byte>): seq<byte> {
    Head(f, start) + data + From(f, start + replace)
  }

  /** A write at a position, as a file takes it; writing nothing changes nothing. */
  function Written(f: seq<byte>, pos: nat, data: seq<byte>): seq<byte> {
    if data == [] then f else Splice(f, pos, |data|, data)
  }

  /** Byte by byte: what stood before the start, zeros where there was nothing; the data; and what stood behind the
      replaced bytes. */
  lemma SpliceByteByByte(f: seq<byte>, start: nat, replace: nat, data: seq<byte>, i: nat)
    ensures |Splice(f, start, replace, data)| == start + |data| + Max(0, |f| - (start + replace))
    ensures
      i < |Splice(f, start, replace, data)| ==>
      Splice(f, start, replace, data)[i] ==
      if i < start then if i < |f| then f[i] else 0
      else if i < start + |data| then data[i - start]
      else f[i - |data| + replace]
  {
  }

  lemma HeadOfHead(f: seq<byte>, n: nat, tail: seq<byte>, k: nat)
    requires k <= n
    ensures Head(Head(f, n) + tail, k) == Head(f, k)
  {
  }

  lemma HeadInside(f: seq<byte>, n: nat)
    ensures n <= |f| ==> Head(f, n) == f[..n]
    ensures Head(f, |f|) == f
  {
  }

  lemma FromZero<T>(f: seq<T>)
    ensures From(f, 0) == f
  {
  }

  /** Past a part of known length only what follows it counts. */
  lemma FromPast<T>(part: seq<T>, tail: seq<T>, n: nat)
    requires n >= |part|
    ensures From(part + tail, n) == From(tail, n - |part|)
  {
  }

  /** A write puts its bytes behind the head it leaves alone. */
  lemma WrittenHead(f: seq<byte>, pos: nat, data: seq<byte>)
    ensures Head(Written(f, pos, data), pos + |data|) == Head(f, pos) + data
  {
    if data == [] {
      assert Head(f, pos) + data == Head(f, pos);
    } else {
      assert Written(f, pos, data) == (Head(f, pos) + data) + From(f, pos + |data|);
    }
  }

  /** A write does not touch what lies behind its end. */
  lemma WrittenFrom(f: seq<byte>, pos: nat, data: seq<byte>, n: nat)
    requires n >= pos + |data|
    ensures From(Written(f, pos, data), n) == From(f, n)
  {
    hide Head, From;
    if data != [] {
      FromPast(Head(f, pos) + data, From(f, pos + |data|), n);
      FromFrom(f, pos + |data|, n - (pos + |data|));
    }
  }

  // ----- The stream over a file -----

  class FileStream {
    var content: seq<byte>
    var position: nat

    constructor (content: seq<byte>)
      ensures this.content == content
    {
      this.content, position := content, 0;
    }

    method Seek(offset: nat)
      modifies this`position
      ensures position == offset
    {
      position := offset;
    }

    method ReadFile(n: nat) returns (bytes: seq<byte>)
      modifies this`position
      ensures bytes == Window(content, old(position), n) && position == old(position) + |bytes|
    {
      bytes := Window(content, position, n);
      position := position + |bytes|;
    }

    method WriteFile(data: seq<byte>)
      modifies this
      ensures content == Written(old(content), old(position), data) && position == old(position) + |data|
    {
      content := Written(content, position, data);
      position := position + |data|;
    }

    method Truncate(length: nat)
      modifies this`content
      ensures content == Head(old(content), length)
    {
      content := Head(content, length);
    }

    /** Every byte behind the block moves up; a block that starts past the end leaves zeros before it. */
    method RemoveBlock(start: nat, length: nat)
      modifies this
      ensures content == Splice(old(content), start, length, [])
    {
      hide Head, From, Window, Written, Splice;
      ghost var f := content;
      var readPosition: nat, writePosition: nat := start + length, start;
      var bufferSize: nat := BUFFER_SIZE;
      var more := true;
      while more
        invariant Head(content, writePosition) + From(f, readPosition) == Head(f, start) + From(f, start + length)
        invariant From(content, readPosition) == From(f, readPosition)
        invariant writePosition <= readPosition
        invariant bufferSize > 0 || !more
        invariant !more ==> From(f, readPosition) == []
        decreases more, |From(f, readPosition)|
      {
        Seek(readPosition);
        var buffer := ReadFile(bufferSize);
        MoveUp(f, content, readPosition, bufferSize, buffer);
        if |buffer| < bufferSize {
          bufferSize := |buffer|;
        }
        Seek(writePosition);
        WrittenHead(content, writePosition, buffer);
        WrittenFrom(content, writePosition, buffer, readPosition + |buffer|);
        JoinThree(Head(content, writePosition), buffer, From(f, readPosition + |buffer|));
        WriteFile(buffer);
        readPosition := readPosition + |buffer|;
        writePosition := writePosition + |buffer|;
        more := buffer != [];
      }
      Truncate(writePosition);
      SpliceOfNothing(f, start, length);
    }

    /** Replaces bytes by `data`. Bytes about to be overwritten are read before each write. With nothing to
        put in and nothing to take out the file stays as it is, wherever `start` lies. */
    method Insert(data: seq<byte>, start: nat, replace: nat)
      modifies this
      ensures content == if data == [] && replace == 0 then old(content) else Splice(old(content), start, replace, data)
    {
      if |data| == replace {
        Seek(start);
        WriteFile(data);
      } else if |data| < replace {
        ghost var f := content;
        Seek(start);
        WriteFile(data);
        RemoveBlock(start + |data|, replace - |data|);
        WrittenThenRemoved(f, start, replace, data);
      } else {
        InsertLonger(data, start, replace);
      }
    }

    method InsertLonger(data: seq<byte>, start: nat, replace: nat)
      requires |data| > replace
      modifies this
      ensures content == Splice(old(content), start, replace, data)
    {
      hide Head, From, Window, Written, Splice;
      var bufferLength: nat := BUFFER_SIZE;
      while |data| - replace > bufferLength
        invariant bufferLength > 0
      {
        bufferLength := bufferLength + BUFFER_SIZE;
      }
      ghost var f, target := content, Splice(content, start, replace, data);
      var readPosition: nat, writePosition: nat := start + replace, start;
      var buffer, readSize: nat := data, bufferLength;
      var more := true;
      ghost var waiting := From(f, readPosition);
      SpliceParts(f, start, replace, data);
      while more
        invariant readSize == bufferLength || (waiting == [] && readSize > 0)
        invariant waiting == From(f, readPosition) && From(content, readPosition) == waiting
        invariant more ==> buffer != [] && Head(content, writePosition) + buffer + waiting == target
        invariant more ==> writePosition + |buffer| <= readPosition + bufferLength
        invariant more ==> |content| <= Max(|f|, writePosition)
        invariant !more ==> content == target
        decreases more, |waiting|
      {
        Seek(readPosition);
        var aboutToOverwrite := ReadFile(readSize);
        BlockRead(f, content, readPosition, readSize, bufferLength, aboutToOverwrite);
        readPosition := readPosition + bufferLength;
        waiting := From(f, readPosition);
        Seek(writePosition);
        BlockWritten(content, writePosition, buffer, readPosition);
        JoinThree(Head(content, writePosition) + buffer, aboutToOverwrite, waiting);
        WriteFile(buffer);
        if aboutToOverwrite == [] {
          HeadInside(content, writePosition + |buffer|);
          more := false;
        } else {
          writePosition := writePosition + |buffer|;
          readSize := |aboutToOverwrite|;
          buffer := aboutToOverwrite;
        }
      }
    }
  }

  lemma SpliceOfNothing(f: seq<byte>, start: nat, length: nat)
    ensures Splice(f, start, length, []) == Head(f, start) + From(f, start + length)
  {
    assert Head(f, start) + [] == Head(f, start);
  }

  /** What a read at `pos` of the unchanged rest of the file takes and leaves */
  lemma MoveUp(f: seq<byte>, content: seq<byte>, pos: nat, n: nat, buffer: seq<byte>)
    requires From(content, pos) == From(f, pos) && buffer == Window(content, pos, n) && n > 0
    ensures From(f, pos) == buffer + From(f, pos + |buffer|)
    ensures From(content, pos + |buffer|) == From(f, pos + |buffer|)
    ensures buffer == [] ==> From(f, pos) == []
    ensures |buffer| <= n
    ensures buffer != [] ==> |From(f, pos + |buffer|)| < |From(f, pos)|
  {
    FromFrom(content, pos, |buffer|);
    FromFrom(f, pos, |buffer|);
    assert Window(content, pos, n) == From(content, pos)[..|buffer|];
    assert From(f, pos) == From(f, pos)[..|buffer|] + From(From(f, pos), |buffer|);
  }

  lemma SpliceParts(f: seq<byte>, start: nat, replace: nat, data: seq<byte>)
    requires |data| > replace
    ensures |Splice(f, start, replace, data)| > |f|
    ensures Head(f, start) + data + From(f, start + replace) == Splice(f, start, replace, data)
    ensures From(f, start + replace) == [] ==> |Splice(f, start, replace, data)| == start + |data|
  {
  }

  /** A read of the next block, which may have shrunk to what was left of the last one */
  lemma BlockRead(f: seq<byte>, content: seq<byte>, pos: nat, n: nat, bufferLength: nat, block: seq<byte>)
    requires From(content, pos) == From(f, pos) && block == Window(content, pos, n)
    requires n > 0 && bufferLength > 0 && (n == bufferLength || From(f, pos) == [])
    ensures From(f, pos) == block + From(f, pos + bufferLength)
    ensures From(content, pos + bufferLength) == From(f, pos + bufferLength)
    ensures block == [] ==> From(f, pos) == [] && From(f, pos + bufferLength) == []
    ensures |block| <= bufferLength && (|block| < bufferLength ==> From(f, pos + bufferLength) == [])
    ensures block != [] ==> |From(f, pos + bufferLength)| < |From(f, pos)|
  {
    FromFrom(content, pos, bufferLength);
    FromFrom(f, pos, bufferLength);
    assert From(From(f, pos), 0) == From(f, pos);
    assert block == Window(From(f, pos), 0, bufferLength);
  }

  lemma BlockWritten(content: seq<byte>, pos: nat, data: seq<byte>, n: nat)
    requires data != [] && pos + |data| <= n
    ensures
      var after := Written(content, pos, data);
      && Head(after, pos + |data|) == Head(content, pos) + data
      && From(after, n) == From(content, n)
      && |after| == Max(|content|, pos + |data|)
  {
    WrittenHead(content, pos, data);
    WrittenFrom(content, pos, data, n);
  }

  lemma WrittenThenRemoved(f: seq<byte>, start: nat, replace: nat, data: seq<byte>)
    requires |data| < replace
    ensures Splice(Written(f, start, data), start + |data|, replace - |data|, []) == Splice(f, start, replace, data)
  {
    hide Written, Head, From;
    WrittenHead(f, start, data);
    WrittenFrom(f, start, data, start + replace);
    SpliceOfNothing(Written(f, start, data), start + |data|, replace - |data|);
  }

  // ----- The stream over a byte vector -----

  class ByteVectorStream {
    var content: seq<byte>
    var position: nat

    constructor (content: seq<byte>)
      ensures this.content == content
    {
      this.content, position := content, 0;
    }

    method Seek(offset: nat)
      modifies this`position
      ensures position == offset
    {
      position := offset;
    }

    method Truncate(length: nat)
      modifies this`content
      ensures content == Head(old(content), length)
    {
      content := Head(content, length);
    }

    /** `memmove` within the bytes */
    method Move(to: nat, from: nat, n: nat)
      requires to + n <= |content| && from + n <= |content|
      modifies this`content
      ensures content == old(content)[..to] + old(content)[from..from + n] + old(content)[to + n..]
    {
      content := content[..to] + content[from..from + n] + content[to + n..];
    }

    /** Writing nothing past the end fills up to the position. */
    method WriteBlock(data: seq<byte>)
      modifies this
      ensures content == Splice(old(content), old(position), |data|, data) && position == old(position) + |data|
    {
      ghost var f := content;
      if position + |data| > |content| {
        Truncate(position + |data|);
      }
      content := content[..position] + data + content[position + |data|..];
      position := position + |data|;
    }

    method RemoveBlock(start: nat, length: nat)
      modifies this
      ensures content == Splice(old(content), start, length, [])
      ensures position == start + Max(0, |old(content)| - (start + length))
    {
      var readPosition, writePosition := start + length, start;
      ghost var f := content;
      if readPosition < |content| {
        var bytesToMove := |content| - readPosition;
        Move(writePosition, readPosition, bytesToMove);
        writePosition := writePosition + bytesToMove;
        assert content[..writePosition] == f[..start] + f[readPosition..];
      }
      position := writePosition;
      Truncate(writePosition);
    }

    /** Growing moves the rest of the bytes, which must be there. */
    method Insert(data: seq<byte>, start: nat, replace: nat)
      requires |data| > replace ==> start + replace <= |content|
      modifies this
      ensures content == Splice(old(content), start, replace, data) && position == start + |data|
    {
      hide Splice, Head, From;
      ghost var f := content;
      if |data| < replace {
        RemoveBlock(start + |data|, replace - |data|);
        RemovedThenWritten(f, start, replace, data);
      } else if |data| > replace {
        Grow(|data| - replace, start + replace, start + |data|);
        GrownThenWritten(f, start, replace, data, content);
      }
      Seek(start);
      WriteBlock(data);
    }

    method Grow(extra: nat, readPosition: nat, writePosition: nat)
      requires readPosition <= |content| && writePosition == readPosition + extra
      modifies this`content
      ensures content == Head(old(content), writePosition) + old(content)[readPosition..]
    {
      ghost var f := content;
      Truncate(|content| + extra);
      Move(writePosition, readPosition, |content| - extra - readPosition);
      assert Head(f, |f| + extra)[readPosition..|f|] == f[readPosition..];
      assert Head(f, |f| + extra)[..writePosition] == Head(f, writePosition);
    }
  }

  /** Overwriting the end of a head that `tail` follows. */
  lemma OverwriteHead(f: seq<byte>, start: nat, data: seq<byte>, tail: seq<byte>)
    ensures Splice(Head(f, start + |data|) + tail, start, |data|, data) == Head(f, start) + data + tail
  {
    hide Head, From;
    var n := start + |data|;
    HeadOfHead(f, n, tail, start);
    FromPast(Head(f, n), tail, n);
    FromZero(tail);
  }

  lemma RemovedThenWritten(f: seq<byte>, start: nat, replace: nat, data: seq<byte>)
    requires |data| < replace
    ensures Splice(Splice(f, start + |data|, replace - |data|, []), start, |data|, data) ==
            Splice(f, start, replace, data)
  {
    hide Splice, Head, From;
    var tail := From(f, start + replace);
    SpliceOfNothing(f, start + |data|, replace - |data|);
    assert start + |data| + (replace - |data|) == start + replace;
    OverwriteHead(f, start, data, tail);
    SpliceIs(f, start, replace, data);
  }

  lemma SpliceIs(f: seq<byte>, start: nat, replace: nat, data: seq<byte>)
    ensures Splice(f, start, replace, data) == Head(f, start) + data + From(f, start + replace)
  {
  }

  lemma GrownThenWritten(f: seq<byte>, start: nat, replace: nat, data: seq<byte>, grown: seq<byte>)
    requires start + replace <= |f| && grown == Head(f, start + |data|) + f[start + replace..]
    ensures Splice(grown, start, |data|, data) == Splice(f, start, replace, data)
  {
    hide Head, From;
    FromInside(f, start + replace);
    OverwriteHead(f, start, data, f[start + replace..]);
  }

  // ----- The two streams -----

  datatype Edit = Put(data: seq<byte>, start: nat, replace: nat) | Remove(start: nat, length: nat)

  function Edited(f: seq<byte>, edit: Edit): seq<byte> {
    match edit
    case Put(data, start, replace) => Splice(f, start, replace, data)
    case Remove(start, length) => Splice(f, start, length, [])
  }

  function EditedAll(f: seq<byte>, edits: seq<Edit>): seq<byte> {
    if edits == [] then f else Edited(EditedAll(f, edits[..|edits| - 1]), edits[|edits| - 1])
  }

  /** What the file stream makes of an edit: putting nothing in the place of nothing leaves the file alone. */
  function InFile(f: seq<byte>, edit: Edit): seq<byte> {
    if edit == Put([], edit.start, 0) then f else Edited(f, edit)
  }

  /** What the stream in memory makes of it; growing moves the bytes behind those replaced, and is undefined where
      some of these are not there. */
  function InVector(f: seq<byte>, edit: Edit): Option<seq<byte>> {
    if edit.Put? && |edit.data| > edit.replace && edit.start + edit.replace > |f| then None else Some(Edited(f, edit))
  }

  /** The edits both streams define alike. */
  predicate Common(f: seq<byte>, edit: Edit) {
    match edit
    case Put(data, start, replace) =>
      (|data| > replace ==> start + replace <= |f|) && (data == [] && replace == 0 ==> start <= |f|)
    case Remove(_, _) => true
  }

  /** These are exactly the edits of which the two make the same. */
  lemma CommonIff(f: seq<byte>, edit: Edit)
    ensures Common(f, edit) <==> InVector(f, edit) == Some(InFile(f, edit))
    ensures Common(f, edit) ==> InFile(f, edit) == Edited(f, edit)
  {
    hide Splice;
    if edit.Put? {
      EmptyInsertDiffers(f, edit.start);
    }
  }

  /** The one edit in both streams, where the one in memory is defined */
  method EditEach(file: FileStream, vector: ByteVectorStream, edit: Edit)
    requires InVector(vector.content, edit).Some?
    modifies file, vector
    ensures file.content == InFile(old(file.content), edit)
    ensures Some(vector.content) == InVector(old(vector.content), edit)
  {
    hide Splice;
    match edit {
      case Put(data, start, replace) =>
        file.Insert(data, start, replace);
        vector.Insert(data, start, replace);
      case Remove(start, length) =>
        file.RemoveBlock(start, length);
        vector.RemoveBlock(start, length);
    }
  }

  predicate AllCommon(f: seq<byte>, edits: seq<Edit>) {
    forall i | 0 <= i < |edits| :: Common(EditedAll(f, edits[..i]), edits[i])
  }

  /** Where the edit of nothing by nothing starts past the end, the file stays and the vector grows. */
  lemma EmptyInsertDiffers(f: seq<byte>, start: nat)
    ensures Splice(f, start, 0, []) == f <==> start <= |f|
  {
  }

  /** After any sequence of such edits the two streams hold the same bytes. */
  method EditBoth(file: FileStream, vector: ByteVectorStream, edits: seq<Edit>)
    requires file.content == vector.content && AllCommon(file.content, edits)
    modifies file, vector
    ensures file.content == vector.content == EditedAll(old(file.content), edits)
  {
    hide Splice, InFile, InVector;
    ghost var f := file.content;
    var i := 0;
    while i < |edits|
      invariant 0 <= i <= |edits| && file.content == vector.content == EditedAll(f, edits[..i])
    {
      assert Common(EditedAll(f, edits[..i]), edits[i]);
      CommonIff(file.content, edits[i]);
      assert edits[..i + 1][..i] == edits[..i];
      EditEach(file, vector, edits[i]);
      i := i + 1;
    }
    assert edits[..i] == edits;
  }

  /** Putting the old bytes back undoes an edit. */
  lemma SpliceUndone(f: seq<byte>, start: nat, replace: nat, data: seq<byte>)
    requires start + replace <= |f|
    ensures Splice(Splice(f, start, replace, data), start, |data|, f[start..start + replace]) == f
  {
    hide Splice;
    SpliceTwice(f, start, replace, data, f[start..start + replace]);
    SpliceOfItself(f, start, replace);
  }

  lemma SpliceOfItself(f: seq<byte>, start: nat, replace: nat)
    requires start + replace <= |f|
    ensures Splice(f, start, replace, f[start..start + replace]) == f
  {
    hide Head, From;
    HeadInside(f, start);
    assert From(f, start + replace) == f[start + replace..] by { FromInside(f, start + replace); }
    assert f == f[..start] + f[start..start + replace] + f[start + replace..];
  }

  lemma FromInside<T>(f: seq<T>, n: nat)
    requires n <= |f|
    ensures From(f, n) == f[n..]
  {
  }

  /** A second edit of what the first put in is one edit. */
  lemma SpliceTwice(f: seq<byte>, start: nat, replace: nat, first: seq<byte>, second: seq<byte>)
    ensures Splice(Splice(f, start, replace, first), start, |first|, second) == Splice(f, start, replace, second)
  {
    hide Head, From;
    var tail := From(f, start + replace);
    JoinThree(Head(f, start), first, tail);
    HeadOfHead(f, start, first + tail, start);
    FromPast(Head(f, start) + first, tail, start + |first|);
    FromZero(tail);
  }
}
