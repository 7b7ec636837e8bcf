/** The cached file on disk (src/cache/MusicFile.cpp, MusicFile.h, File.h): append-only between open
    and close, and a no-op outside; closing records the two sizes that a later session restores. */
module MusicFiles {
  import opened Bytes

  /** The sizes kept in the files cache for one remote file. `prep` is by how much the new tag is longer
      than the one it replaces. The program keeps it unsigned, so that it wraps for a shorter tag, and wraps
      back wherever it is subtracted; here it is that signed number. */
  datatype Record = Record(total: nat, prep: int)

  datatype DiskFile = DiskFile(isOpen: bool, isClosed: bool, total: nat, prep: int, content: seq<byte>) {
    predicate Live() {
      isOpen && !isClosed
    }
  }

  const NO_RECORD := Record(0, 0)

  /** The file object of a new session over whatever bytes an earlier one left. */
  function Restore(record: Record, content: seq<byte>): DiskFile {
    DiskFile(false, false, record.total, record.prep, content)
  }

  /** Opening truncates a file whose recorded size is zero. */
  function OpenFile(f: DiskFile): DiskFile {
    if f.isOpen || f.isClosed then f
    else f.(isOpen := true, content := if f.total == 0 then [] else f.content)
  }

  function WriteFile(f: DiskFile, block: seq<byte>): DiskFile {
    if f.Live() then f.(total := f.total + |block|, content := f.content + block) else f
  }

  function SetPrep(f: DiskFile, prep: int): DiskFile {
    if f.Live() then f.(prep := prep) else f
  }

  function CloseFile(f: DiskFile): DiskFile {
    if f.Live() then f.(isClosed := true) else f
  }

  function RecordAfterClose(f: DiskFile, record: Record): Record {
    if f.Live() then Record(f.total, f.prep) else record
  }

  /** `File::read(offset, size)`: a short read leaves the rest of the result zero. */
  function ReadFile(f: DiskFile, offset: nat, size: nat): seq<byte> {
    if f.Live() then
      var got := Window(f.content, offset, size);
      got + seq(Max(0, size - |got|), _ => 0)
    else []
  }

  // ----- Any run of a session -----

  datatype Op = Opens | Writes(block: seq<byte>) | SetsPrep(size: int) | Closes

  /** The file object and its entry in the files cache */
  datatype Session = Session(file: DiskFile, record: Record)

  function Do(s: Session, op: Op): Session {
    match op
    case Opens => s.(file := OpenFile(s.file))
    case Writes(block) => s.(file := WriteFile(s.file, block))
    case SetsPrep(size) => s.(file := SetPrep(s.file, size))
    case Closes => Session(CloseFile(s.file), RecordAfterClose(s.file, s.record))
  }

  function RunOps(s: Session, ops: seq<Op>): Session
    decreases |ops|
  {
    if ops == [] then s else RunOps(Do(s, ops[0]), ops[1..])
  }

  /** The blocks written after the first open and before the next close. */
  function Written(isOpen: bool, ops: seq<Op>): seq<byte>
    decreases |ops|
  {
    if ops == [] then []
    else match ops[0]
      case Opens => Written(true, ops[1..])
      case Writes(block) => (if isOpen then block else []) + Written(isOpen, ops[1..])
      case SetsPrep(_) => Written(isOpen, ops[1..])
      case Closes => if isOpen then [] else Written(false, ops[1..])
  }

  /** What a session finds: the bytes that the record counts, or nothing. */
  function Found(record: Record, content: seq<byte>): seq<byte> {
    if record.total == 0 then [] else content
  }

  ghost predicate Counts(record: Record, content: seq<byte>) {
    record.total > 0 ==> record.total == |content|
  }

  /** A closed file stays as it is, and so does its record. */
  lemma {:induction false} ClosedStays(s: Session, ops: seq<Op>)
    requires s.file.isOpen && s.file.isClosed
    ensures RunOps(s, ops) == s
    decreases |ops|
  {
    if ops != [] {
      ClosedStays(s, ops[1..]);
    }
  }

  lemma {:induction false} LiveAppends(s: Session, ops: seq<Op>)
    requires s.file.Live() && s.file.total == |s.file.content|
    ensures
      var s' := RunOps(s, ops);
      && s'.file.isOpen && s'.file.total == |s'.file.content|
      && s'.file.content == s.file.content + Written(true, ops)
      && (s'.file.isClosed ==> s'.record == Record(s'.file.total, s'.file.prep))
      && (!s'.file.isClosed ==> s'.record == s.record)
    decreases |ops|
  {
    if ops != [] {
      var next := Do(s, ops[0]);
      if next.file.isClosed {
        ClosedStays(next, ops[1..]);
      } else {
        LiveAppends(next, ops[1..]);
      }
    }
  }

  /** Whatever a session does: once it has opened the file, the bytes on disk are those it found followed by
      those it wrote between open and close, the size on disk counts them, and a close has recorded it. */
  lemma {:induction false} SessionAppends(record: Record, content: seq<byte>, ops: seq<Op>)
    requires Counts(record, content)
    ensures
      var s := RunOps(Session(Restore(record, content), record), ops);
      && (s.file.isOpen ==>
            && s.file.content == Found(record, content) + Written(false, ops) && s.file.total == |s.file.content|
            && (s.file.isClosed ==> s.record == Record(s.file.total, s.file.prep)))
      && (!s.file.isOpen ==> s == Session(Restore(record, content), record) && Written(false, ops) == [])
    decreases |ops|
  {
    if ops != [] {
      var s := Session(Restore(record, content), record);
      if ops[0].Opens? {
        LiveAppends(Do(s, ops[0]), ops[1..]);
      } else {
        SessionAppends(record, content, ops[1..]);
      }
    }
  }

  /** A session leaves what the next one needs: its record counts its bytes, and opened again the file has the
      same sizes and gives the same bytes. A session that recorded nothing finds nothing. */
  lemma NextSessionContinues(record: Record, content: seq<byte>, ops: seq<Op>)
    requires Counts(record, content)
    ensures
      var s := RunOps(Session(Restore(record, content), record), ops);
      s.file.isClosed ==>
        var next := OpenFile(Restore(s.record, s.file.content));
        && Counts(s.record, s.file.content)
        && next.Live() && next.total == s.file.total && next.prep == s.file.prep
        && next.content == Found(record, content) + Written(false, ops)
  {
    SessionAppends(record, content, ops);
    var s := RunOps(Session(Restore(record, content), record), ops);
    ClosedWasOpen(Session(Restore(record, content), record), ops);
  }

  lemma {:induction false} ClosedWasOpen(s: Session, ops: seq<Op>)
    requires s.file.isClosed ==> s.file.isOpen
    ensures RunOps(s, ops).file.isClosed ==> RunOps(s, ops).file.isOpen
    decreases |ops|
  {
    if ops != [] {
      ClosedWasOpen(Do(s, ops[0]), ops[1..]);
    }
  }

  /** What is written is read back from the size on disk before, and all earlier bytes read as they did. */
  lemma WrittenIsRead(f: DiskFile, block: seq<byte>, offset: nat, size: nat)
    requires f.Live() && f.total == |f.content|
    ensures ReadFile(WriteFile(f, block), f.total, |block|) == block
    ensures offset + size <= f.total ==> ReadFile(WriteFile(f, block), offset, size) == ReadFile(f, offset, size)
  {
    var f' := WriteFile(f, block);
    assert f'.content[f.total..] == block;
    if offset + size <= f.total {
      WindowOfPrefix(f.content, f'.content, offset, size);
    }
  }

  /** A read gives as many bytes as it was asked for: those of the file, and zeros behind its end. */
  lemma ReadIsPadded(f: DiskFile, offset: nat, size: nat, i: nat)
    requires f.Live() && i < size
    ensures |ReadFile(f, offset, size)| == size
    ensures ReadFile(f, offset, size)[i] == if offset + i < |f.content| then f.content[offset + i] else 0
  {
  }

  class MusicFile {
    var isOpen: bool
    var isClosed: bool
    var totalSize: nat
    var prepSize: int
    var bytes: seq<byte>   // the bytes of the named file
    var recorded: Record   // the entry of this file in the files cache

    function File(): DiskFile
      reads this
    {
      DiskFile(isOpen, isClosed, totalSize, prepSize, bytes)
    }

    constructor (record: Record, onDisk: seq<byte>)
      ensures File() == Restore(record, onDisk) && recorded == record
    {
      isOpen, isClosed := false, false;
      totalSize, prepSize := record.total, record.prep;
      bytes, recorded := onDisk, record;
    }

    method Open()
      modifies this
      ensures File() == OpenFile(old(File())) && recorded == old(recorded)
    {
      if isOpen || isClosed {
        return;
      }
      if totalSize == 0 {
        bytes := [];
      }
      isOpen := true;
    }

    method Write(block: seq<byte>)
      modifies this
      ensures File() == WriteFile(old(File()), block) && recorded == old(recorded)
    {
      if isOpen && !isClosed {
        totalSize := totalSize + |block|;
        bytes := bytes + block;
      }
    }

    method SetPrependSize(size: int)
      modifies this
      ensures File() == SetPrep(old(File()), size) && recorded == old(recorded)
    {
      if isOpen && !isClosed {
        prepSize := size;
      }
    }

    method Read(offset: nat, size: nat) returns (r: seq<byte>)
      ensures r == ReadFile(File(), offset, size)
      ensures File().Live() && offset + size <= |bytes| ==> r == bytes[offset..offset + size]
    {
      if isOpen && !isClosed {
        var got := Window(bytes, offset, size);
        r := got + seq(Max(0, size - |got|), _ => 0);
      } else {
        r := [];
      }
    }

    method Close()
      modifies this
      ensures File() == CloseFile(old(File()))
      ensures recorded == RecordAfterClose(old(File()), old(recorded))
    {
      if isOpen && !isClosed {
        isClosed := true;
        recorded := Record(totalSize, prepSize);
      }
    }
  }
}
