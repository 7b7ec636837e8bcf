/** The download pipeline of one cached song over any number of sessions
    (src/mp3core/FileProcessor.h): the posted task, the producer task, closers and readers as
    interleaved atomic steps. */
module Download {
  import opened Bytes
  import opened BlockingBuffers
  import opened MusicFiles

  /** The remote file, the capacity of a block and of the memory tier. */
  datatype Config = Config(uri: seq<byte>, blockMax: nat, memMax: nat) {
    predicate Valid() {
      blockMax > 0 && |uri| < UINT_RANGE
    }
  }

  /** Where the posted task stands (the line it is about to run). */
  datatype Task =
    | NotPosted
    | OpeningStream        // 73
    | OpeningFile          // 77
    | Parsing              // 95
    | RaisingFlag          // FileProcessor.cpp:18
    | AwaitingStop         // FileProcessor.cpp:20
    | SettingPrep          // 98
    | WritingTag           // 99
    | Draining(offset: nat) // 103
    | Downloading          // 122
    | Finished
    | Stopped
    | Failed

  /** Where the producer stands in lines 82-89 and `addToBuffer`. */
  datatype Producer =
    | Idle
    | Reading
    | Holding(block: seq<byte>)
    | FirstCheck           // 56
    | SecondCheck          // 59
    | Done

  datatype State = State(
    file: DiskFile, record: Record,
    task: Task, producer: Producer,
    pos: nat, streamClosed: bool,
    buffer: Tiers, eof: bool, metadataRead: bool, notified: bool,
    closeCalled: bool, closed: bool, prepSize: int,
    tag: seq<byte>, replaceLen: nat)

  datatype Action =
    | Post
    | OpenStream
    | OpenDisk
    | Produce(n: nat)      // the producer's next step; n bytes when it reads the stream
    | ProducerFails
    | ParseEnds(tag: seq<byte>, replaceLen: nat)
    | RaiseFlag
    | AppendStopped
    | SetPrependSize
    | WriteTag
    | Drain
    | Fetch(n: nat)
    | TaskFails
    | CloseDisk
    | RaiseClosed
    | ReaderClosesStream
    | NewSession(evicted: bool)

  /** The virtual file: the new tag in place of the first `replaceLen` bytes of the remote file. */
  function Virtual(uri: seq<byte>, tag: seq<byte>, replaceLen: nat): seq<byte> {
    tag + From(uri, replaceLen)
  }

  function Fresh(c: Config, record: Record, content: seq<byte>, tag: seq<byte>, replaceLen: nat): State {
    State(Restore(record, content), record, NotPosted, Idle, 0, false, EmptyTiers(c.memMax),
          false, false, false, false, false, 0, tag, replaceLen)
  }

  function Init(c: Config): State {
    Fresh(c, NO_RECORD, [], [], 0)
  }

  /** `getSizeOnDisk() - getPrependSize()` in unsigned arithmetic. */
  function StartOffset(f: DiskFile): int {
    if f.total >= f.prep then f.total - f.prep else UINT_RANGE + f.total - f.prep
  }

  /** The whole file is asked for without a range; from an offset on, the stream demands partial content,
      which a range that begins at or behind the end does not get. */
  predicate Opens(uriLen: nat, offset: int) {
    offset == 0 || 0 < offset < uriLen
  }

  function OpenStreamStep(c: Config, s: State): State {
    var offset := StartOffset(s.file);
    if Opens(|c.uri|, offset) then s.(task := OpeningFile, pos := offset) else s.(task := Failed)
  }

  function OpenDiskStep(s: State): State {
    var f := OpenFile(s.file);
    if f.total == 0 then s.(file := f, task := Parsing, producer := Reading)
    else s.(file := f, task := Downloading, prepSize := f.prep)
  }

  /** One step of the producer; `None` when it cannot take one. */
  function ProduceStep(c: Config, s: State, n: nat): Option<State> {
    match s.producer
    case Reading =>
      if s.pos >= |c.uri| then Some(s.(eof := true, notified := true, producer := Done))
      else if 0 < n <= c.blockMax && s.pos + n <= |c.uri| then
        Some(s.(producer := Holding(c.uri[s.pos..s.pos + n]), pos := s.pos + n))
      else None
    case Holding(block) => Some(s.(buffer := AppendTo(s.buffer, block), producer := FirstCheck))
    case FirstCheck => Some(s.(notified := s.notified || s.metadataRead, producer := SecondCheck))
    case SecondCheck => Some(s.(producer := if s.metadataRead then Done else Reading))
    case _ => None
  }

  function DrainStep(c: Config, s: State): State
    requires s.task.Draining?
  {
    if s.closed then s.(task := Downloading)
    else
      var block := ReadPass(s.buffer, s.task.offset + s.replaceLen, [], c.blockMax);
      if block == [] then s.(task := Downloading)
      else s.(file := WriteFile(s.file, block), task := Draining(s.task.offset + |block|))
  }

  function FetchStep(c: Config, s: State, n: nat): Option<State> {
    if s.closed then Some(s.(task := Stopped, streamClosed := true))
    else if s.streamClosed || s.pos >= |c.uri| then Some(s.(task := Finished))
    else if 0 < n <= c.blockMax && s.pos + n <= |c.uri| then
      Some(s.(file := WriteFile(s.file, c.uri[s.pos..s.pos + n]), pos := s.pos + n))
    else None
  }

  function Step(c: Config, s: State, a: Action): Option<State> {
    match a
    case Post => if s.task.NotPosted? then Some(s.(task := OpeningStream)) else None
    case OpenStream => if s.task.OpeningStream? then Some(OpenStreamStep(c, s)) else None
    case OpenDisk => if s.task.OpeningFile? then Some(OpenDiskStep(s)) else None
    case Produce(n) => ProduceStep(c, s, n)
    case ProducerFails => if s.producer.Reading? then Some(s.(eof := true, producer := Done)) else None
    case ParseEnds(tag, replaceLen) =>
      // The parser has read the old tag through the buffer; the new one may be shorter.
      if s.task.Parsing? && |tag| + replaceLen + |c.uri| < UINT_RANGE
         && (replaceLen <= |s.buffer.Contents()| || s.eof)
      then Some(s.(task := RaisingFlag, tag := tag, replaceLen := replaceLen)) else None
    case RaiseFlag => if s.task.RaisingFlag? then Some(s.(task := AwaitingStop, metadataRead := true)) else None
    case AppendStopped =>
      if s.task.AwaitingStop? && s.notified
      then Some(s.(task := SettingPrep, prepSize := |s.tag| - s.replaceLen)) else None
    case SetPrependSize =>
      if s.task.SettingPrep? then Some(s.(task := WritingTag, file := SetPrep(s.file, s.prepSize))) else None
    case WriteTag =>
      if s.task.WritingTag? then Some(s.(task := Draining(0), file := WriteFile(s.file, s.tag))) else None
    case Drain => if s.task.Draining? then Some(DrainStep(c, s)) else None
    case Fetch(n) => if s.task.Downloading? then FetchStep(c, s, n) else None
    case TaskFails =>
      // Line 20 of FileProcessor.cpp rethrows only what the producer's exception put there.
      if s.task.OpeningStream? || s.task.Parsing? || s.task.Downloading?
         || (s.task.AwaitingStop? && s.eof && !s.notified)
      then Some(s.(task := Failed)) else None
    case CloseDisk =>
      Some(s.(file := CloseFile(s.file), record := RecordAfterClose(s.file, s.record), closeCalled := true))
    case RaiseClosed => if s.closeCalled then Some(s.(closed := true)) else None
    case ReaderClosesStream =>
      if s.task.Downloading? || s.task.Finished? || s.task.Stopped? || s.task.Failed?
      then Some(s.(streamClosed := true)) else None
    case NewSession(evicted) =>
      // The old processor is gone: its destructor has closed the file and joined the task.
      if s.closed && (s.task.NotPosted? || s.task.Finished? || s.task.Stopped? || s.task.Failed?)
      then Some(if evicted then Fresh(c, NO_RECORD, [], s.tag, s.replaceLen)
                else Fresh(c, s.record, s.file.content, s.tag, s.replaceLen)) else None
  }

  /** The state after a run; `None` when some action of it was not possible. */
  function Run(c: Config, s: State, run: seq<Action>): Option<State>
    decreases |run|
  {
    if run == [] then Some(s)
    else match Step(c, s, run[0])
      case None => None
      case Some(s') => Run(c, s', run[1..])
  }

  // ----- The invariant -----

  /** A recorded size is zero, or the bytes it counts followed by the remote bytes from the offset
      where a session would reopen make the virtual file. */
  ghost predicate RecordOk(uri: seq<byte>, tag: seq<byte>, replaceLen: nat, record: Record, content: seq<byte>) {
    record.total == 0 ||
    (&& |tag| <= record.total <= |content|
     && record.prep + replaceLen == |tag|
     && content[..record.total] + From(uri, record.total - record.prep) == Virtual(uri, tag, replaceLen))
  }

  /** The bytes on disk are nothing yet, or reach past the tag and are a prefix of the virtual file. */
  ghost predicate ContentOk(uri: seq<byte>, tag: seq<byte>, replaceLen: nat, content: seq<byte>, prep: int) {
    content == [] || (|tag| <= |content| && prep + replaceLen == |tag| && content <= Virtual(uri, tag, replaceLen))
  }

  /** The producer's side: what it has read from the stream is stored or in its hands. */
  ghost predicate BufferOk(uri: seq<byte>, pos: nat, buffer: Tiers, producer: Producer) {
    && buffer.Valid()
    && pos <= |uri|
    && buffer.Contents() + (if producer.Holding? then producer.block else []) == uri[..pos]
  }

  ghost predicate FlagsOk(uriLen: nat, pos: nat, producer: Producer, eof: bool, metadataRead: bool, notified: bool) {
    && !producer.Idle?
    && (notified ==> producer.Done? || (producer.SecondCheck? && metadataRead))
    && (eof ==> producer.Done?)
    && (producer.Done? ==> eof || metadataRead)
    && (eof && notified ==> pos == uriLen)
  }

  ghost predicate FreshPhase(t: Task) {
    t.Parsing? || t.RaisingFlag? || t.AwaitingStop? || t.SettingPrep? || t.WritingTag? || t.Draining?
  }

  ghost predicate BeforeOpen(t: Task) {
    t.NotPosted? || t.OpeningStream? || t.OpeningFile?
  }

  ghost predicate TagKnown(s: State) {
    s.replaceLen <= |s.buffer.Contents()| || s.eof
  }

  /** The task knows the size by which the virtual file is longer than the remote one. */
  ghost predicate PrepKnown(s: State) {
    s.prepSize + s.replaceLen == |s.tag|
  }

  /** The task has fulfilled `_openedPromise`. */
  ghost predicate OpenedOk(s: State) {
    && s.file.isOpen && PrepKnown(s)
    && (s.producer.Idle? || s.producer.Done? || (s.producer.SecondCheck? && s.metadataRead))
    && (s.file.Live() ==> s.file.prep == s.prepSize && |s.tag| <= |s.file.content|)
  }

  ghost predicate DrainOk(s: State, offset: nat) {
    && s.file.prep == s.prepSize
    && s.file.content == s.tag + Window(s.buffer.Contents(), s.replaceLen, offset)
  }

  ghost predicate PhaseOk(uri: seq<byte>, s: State) {
    match s.task
    case NotPosted => true
    case OpeningStream => true
    case OpeningFile =>
      && s.file.total >= s.file.prep && s.pos == s.file.total - s.file.prep && s.pos <= |uri|
      && (s.file.total == 0 ==> s.pos == 0)
    case Parsing => s.file.content == [] && s.file.prep == 0 && !s.metadataRead
    case RaisingFlag => s.file.content == [] && s.file.prep == 0 && !s.metadataRead && TagKnown(s)
    case AwaitingStop => s.file.content == [] && s.file.prep == 0 && TagKnown(s)
    case SettingPrep => s.file.content == [] && s.file.prep == 0 && TagKnown(s) && s.notified && PrepKnown(s)
    case WritingTag =>
      && s.file.content == [] && TagKnown(s) && s.notified && PrepKnown(s)
      && (s.file.Live() ==> s.file.prep == s.prepSize)
    case Draining(offset) =>
      && TagKnown(s) && s.notified && PrepKnown(s) && (s.file.Live() ==> DrainOk(s, offset))
      && (offset == 0 || s.replaceLen + offset <= |s.buffer.Contents()|)
    case Downloading =>
      && OpenedOk(s) && s.pos <= |uri|
      && (s.file.Live() && !s.closed ==> s.file.content + From(uri, s.pos) == Virtual(uri, s.tag, s.replaceLen))
    case Finished =>
      && OpenedOk(s)
      && (s.file.Live() && !s.streamClosed && !s.closed ==> s.file.content == Virtual(uri, s.tag, s.replaceLen))
    case Stopped => OpenedOk(s)
    case Failed => true
  }

  ghost predicate SizesOk(uri: seq<byte>, record: Record, file: DiskFile) {
    && record.prep + |uri| < UINT_RANGE && file.prep + |uri| < UINT_RANGE
    && (file.isClosed ==> file.isOpen && record == Record(file.total, file.prep))
    && (if file.isOpen then file.total == |file.content|
        else file.total == record.total && file.prep == record.prep
             && (record.total > 0 ==> |file.content| == record.total))
  }

  /** With nothing on disk, the stream is opened at its beginning or not at all. */
  predicate StartsRight(uriLen: nat, total: nat, prep: int) {
    total == 0 && prep < 0 ==> !Opens(uriLen, -prep)
  }

  ghost predicate Inv(c: Config, s: State) {
    && c.Valid()
    && |s.tag| + s.replaceLen + |c.uri| < UINT_RANGE
    && RecordOk(c.uri, s.tag, s.replaceLen, s.record, s.file.content)
    && (s.file.isOpen ==> ContentOk(c.uri, s.tag, s.replaceLen, s.file.content, s.file.prep))
    && SizesOk(c.uri, s.record, s.file)
    && PhaseOk(c.uri, s)
    && (s.file.Live() && s.file.content == [] && s.file.prep != 0 ==>
          PrepKnown(s) && s.file.prep == s.prepSize && (s.task.WritingTag? || s.tag == []))
    && (BeforeOpen(s.task) ==> StartsRight(|c.uri|, s.file.total, s.file.prep))
    && (BeforeOpen(s.task) ==>
          !s.file.isOpen && s.buffer == EmptyTiers(c.memMax) && s.producer.Idle? && !s.eof && !s.metadataRead &&
              !s.notified)
    && (FreshPhase(s.task) ==>
          && s.file.isOpen && BufferOk(c.uri, s.pos, s.buffer, s.producer)
          && FlagsOk(|c.uri|, s.pos, s.producer, s.eof, s.metadataRead, s.notified)
          && (s.file.isClosed || s.record == NO_RECORD))
  }

  /** The session appended to a file that its close came too early to record. */
  predicate Stale(s: State) {
    s.record.total > 0 && s.file.Live() && |s.file.content| > s.record.total
  }

  /** The session's record makes a later one open the stream elsewhere than the file on disk ends. */
  predicate Misleads(c: Config, s: State) {
    Stale(s) || !StartsRight(|c.uri|, s.record.total, s.record.prep)
  }

  /** No session leaves a misleading record (unless the cache entry is evicted with its file). */
  predicate Clean(c: Config, s: State, run: seq<Action>)
    decreases |run|
  {
    run == [] ||
    ((run[0] == NewSession(false) ==> !Misleads(c, s)) &&
     match Step(c, s, run[0])
     case None => true
     case Some(s') => Clean(c, s', run[1..]))
  }

  // ----- Every step keeps the invariant -----

  /** Content that reaches past the tag may be recorded. */
  lemma ContentMayBeRecorded(uri: seq<byte>, tag: seq<byte>, replaceLen: nat, content: seq<byte>, prep: int)
    requires ContentOk(uri, tag, replaceLen, content, prep)
    ensures RecordOk(uri, tag, replaceLen, Record(|content|, prep), content)
  {
    if content != [] {
      assert content[..|content|] == content;
    }
  }

  lemma CloseLiveKeeps(c: Config, s: State)
    requires Inv(c, s) && s.file.Live()
    ensures Inv(c, s.(file := s.file.(isClosed := true), record := Record(s.file.total, s.file.prep),
        closeCalled := true))
  {
    hide Virtual, From, Window, BufferOk;
    ContentMayBeRecorded(c.uri, s.tag, s.replaceLen, s.file.content, s.file.prep);
  }

  lemma CloseIdleKeeps(c: Config, s: State)
    requires Inv(c, s)
    ensures Inv(c, s.(closeCalled := true))
  {
    hide RecordOk, ContentOk, BufferOk, Virtual, From, Window;
  }

  lemma CloseKeeps(c: Config, s: State)
    requires Inv(c, s)
    ensures Inv(c, Step(c, s, CloseDisk).value)
  {
    if s.file.Live() {
      CloseLiveKeeps(c, s);
    } else {
      CloseIdleKeeps(c, s);
    }
  }

  lemma OpenStreamKeeps(c: Config, s: State)
    requires Inv(c, s) && s.task.OpeningStream?
    ensures Inv(c, OpenStreamStep(c, s))
  {
    hide RecordOk, ContentOk, BufferOk, Virtual, From, Window;
  }

  lemma OpenDiskKeeps(c: Config, s: State)
    requires Inv(c, s) && s.task.OpeningFile?
    ensures Inv(c, OpenDiskStep(s))
  {
    if s.file.total > 0 {
      ResumedOpenKeeps(c, s);
    }
  }

  lemma RecordIsContent(uri: seq<byte>, tag: seq<byte>, replaceLen: nat, record: Record, content: seq<byte>)
    requires RecordOk(uri, tag, replaceLen, record, content) && record.total == |content| > 0
    ensures ContentOk(uri, tag, replaceLen, content, record.prep)
    ensures record.prep <= record.total && record.prep + replaceLen == |tag| <= |content|
    ensures content + From(uri, record.total - record.prep) == Virtual(uri, tag, replaceLen)
  {
    hide Virtual, From;
    assert content[..record.total] == content;
  }

  lemma ResumedOpenKeeps(c: Config, s: State)
    requires Inv(c, s) && s.task.OpeningFile? && s.file.total > 0
    ensures Inv(c, OpenDiskStep(s))
  {
    hide RecordOk, ContentOk, BufferOk, FlagsOk, Virtual, From, Window;
    RecordIsContent(c.uri, s.tag, s.replaceLen, s.record, s.file.content);
  }

  lemma ProducerReadsKeeps(c: Config, s: State, n: nat)
    requires Inv(c, s) && s.producer.Reading? && ProduceStep(c, s, n).Some?
    ensures Inv(c, ProduceStep(c, s, n).value)
  {
    hide RecordOk, ContentOk, Virtual, From, Window;
    if s.pos < |c.uri| {
      assert c.uri[..s.pos] + c.uri[s.pos..s.pos + n] == c.uri[..s.pos + n];
      assert s.buffer.Contents() + [] == s.buffer.Contents();
    }
  }

  lemma ProducerAppendsKeeps(c: Config, s: State)
    requires Inv(c, s) && s.producer.Holding?
    ensures Inv(c, ProduceStep(c, s, 0).value)
  {
    if FreshPhase(s.task) {
      AppendExtends(s.buffer, s.producer.block);
      assert ProduceStep(c, s, 0).value.buffer.Contents() + [] == s.buffer.Contents() + s.producer.block;
    }
  }

  lemma ProducerChecksKeeps(c: Config, s: State)
    requires Inv(c, s) && (s.producer.FirstCheck? || s.producer.SecondCheck?)
    ensures Inv(c, ProduceStep(c, s, 0).value)
  {
    hide RecordOk, ContentOk, Virtual, From, Window;
  }

  lemma ProduceKeeps(c: Config, s: State, n: nat)
    requires Inv(c, s) && ProduceStep(c, s, n).Some?
    ensures Inv(c, ProduceStep(c, s, n).value)
  {
    if s.producer.Reading? {
      ProducerReadsKeeps(c, s, n);
    } else if s.producer.Holding? {
      ProducerAppendsKeeps(c, s);
    } else {
      ProducerChecksKeeps(c, s);
    }
  }

  lemma ParseEndsKeeps(c: Config, s: State, tag: seq<byte>, replaceLen: nat)
    requires Inv(c, s) && Step(c, s, ParseEnds(tag, replaceLen)).Some?
    ensures Inv(c, Step(c, s, ParseEnds(tag, replaceLen)).value)
  {
    hide Virtual, From, Window;
  }

  lemma HandOverKeeps(c: Config, s: State, a: Action)
    requires a.RaiseFlag? || a.AppendStopped? || a.SetPrependSize?
    requires Inv(c, s) && Step(c, s, a).Some?
    ensures Inv(c, Step(c, s, a).value)
  {
    hide Virtual, From, Window;
  }

  lemma TagComesFirst(uri: seq<byte>, tag: seq<byte>, replaceLen: nat, stored: seq<byte>)
    ensures tag <= Virtual(uri, tag, replaceLen)
    ensures tag == tag + Window(stored, replaceLen, 0)
  {
  }

  lemma WriteTagKeeps(c: Config, s: State)
    requires Inv(c, s) && s.task.WritingTag?
    ensures Inv(c, Step(c, s, WriteTag).value)
  {
    hide Virtual, From, Window, BufferOk;
    TagComesFirst(c.uri, s.tag, s.replaceLen, s.buffer.Contents());
    assert [] + s.tag == s.tag;
  }

  /** Drained bytes after the tag are a prefix of the virtual file. */
  lemma DrainedIsPrefix(uri: seq<byte>, tag: seq<byte>, replaceLen: nat, pos: nat, stored: seq<byte>, n: nat)
    requires pos <= |uri| && stored == uri[..pos]
    ensures tag + Window(stored, replaceLen, n) <= Virtual(uri, tag, replaceLen)
  {
    if replaceLen < |stored| {
      var end := Min(replaceLen + n, |stored|);
      assert Window(stored, replaceLen, n) == uri[replaceLen..end];
      assert From(uri, replaceLen) == uri[replaceLen..end] + uri[end..];
    }
  }

  /** The hand-over: what was drained and what is still to be read join without gap or overlap exactly when all
      that is replaced had been stored, or the stream had ended. */
  lemma DrainedMeetsStream(uri: seq<byte>, tag: seq<byte>, replaceLen: nat, pos: nat, stored: seq<byte>)
    requires pos <= |uri| && stored == uri[..pos]
    ensures tag + From(stored, replaceLen) + From(uri, pos) == Virtual(uri, tag, replaceLen) <==>
      replaceLen <= |stored| || pos == |uri|
  {
    if replaceLen <= pos {
      assert From(stored, replaceLen) == uri[replaceLen..pos];
      assert uri[replaceLen..pos] + uri[pos..] == uri[replaceLen..];
      assert tag + From(stored, replaceLen) + From(uri, pos) == tag + (uri[replaceLen..pos] + uri[pos..]);
    } else if pos < |uri| {
      assert |tag + From(stored, replaceLen) + From(uri, pos)| > |Virtual(uri, tag, replaceLen)|;
    }
  }

  lemma DrainExtends(uri: seq<byte>, tag: seq<byte>, replaceLen: nat, pos: nat, stored: seq<byte>, offset: nat,
      blockMax: nat)
    requires pos <= |uri| && stored == uri[..pos]
    requires offset == 0 || replaceLen + offset <= |stored|
    ensures var block := Window(stored, replaceLen + offset, blockMax);
            var content := tag + Window(stored, replaceLen, offset);
            && content + block == tag + Window(stored, replaceLen, offset + |block|)
            && content + block <= Virtual(uri, tag, replaceLen)
  {
    var block := Window(stored, replaceLen + offset, blockMax);
    WindowLength(stored, replaceLen + offset, blockMax);
    WindowsJoin(stored, replaceLen, offset, |block|);
    assert (tag + Window(stored, replaceLen, offset)) + block == tag + (Window(stored, replaceLen, offset) + block);
    DrainedIsPrefix(uri, tag, replaceLen, pos, stored, offset + |block|);
  }

  lemma DrainEnds(uri: seq<byte>, tag: seq<byte>, replaceLen: nat, pos: nat, stored: seq<byte>, offset: nat,
      blockMax: nat)
    requires pos <= |uri| && stored == uri[..pos] && blockMax > 0
    requires replaceLen <= |stored| || pos == |uri|
    requires Window(stored, replaceLen + offset, blockMax) == []
    ensures tag + Window(stored, replaceLen, offset) + From(uri, pos) == Virtual(uri, tag, replaceLen)
  {
    WindowLength(stored, replaceLen + offset, blockMax);
    WindowToEnd(stored, replaceLen, offset);
    DrainedMeetsStream(uri, tag, replaceLen, pos, stored);
  }

  /** The drain step once its block is known. */
  function DrainWith(s: State, block: seq<byte>): State
    requires s.task.Draining?
  {
    if s.closed || block == [] then s.(task := Downloading)
    else s.(file := WriteFile(s.file, block), task := Draining(s.task.offset + |block|))
  }

  /** The block is the next window of the one sequence that the two tiers stand for. */
  lemma DrainIsWindow(c: Config, s: State)
    requires s.buffer.Valid() && s.task.Draining?
    ensures DrainStep(c, s) == DrainWith(s, Window(s.buffer.Contents(), s.replaceLen + s.task.offset, c.blockMax))
  {
    FreshPassIsWindow(s.buffer, s.task.offset + s.replaceLen, c.blockMax);
  }

  /** What a drained block must satisfy for the file to stay a prefix of the virtual file. */
  ghost predicate DrainsRight(uri: seq<byte>, s: State, block: seq<byte>)
    requires s.task.Draining?
  {
    var drained := s.tag + Window(s.buffer.Contents(), s.replaceLen, s.task.offset);
    var v := Virtual(uri, s.tag, s.replaceLen);
    && (block == [] ==> drained + From(uri, s.pos) == v)
    && (block != [] ==> s.replaceLen + s.task.offset + |block| <= |s.buffer.Contents()|)
    && drained + block == s.tag + Window(s.buffer.Contents(), s.replaceLen, s.task.offset + |block|)
    && drained + block <= v
  }

  lemma WindowDrainsRight(c: Config, s: State)
    requires Inv(c, s) && s.task.Draining? && s.buffer.Contents() == c.uri[..s.pos]
    ensures DrainsRight(c.uri, s, Window(s.buffer.Contents(), s.replaceLen + s.task.offset, c.blockMax))
  {
    hide RecordOk, ContentOk, Virtual, From, Window, SizesOk;
    var stored := s.buffer.Contents();
    WindowLength(stored, s.replaceLen + s.task.offset, c.blockMax);
    DrainExtends(c.uri, s.tag, s.replaceLen, s.pos, stored, s.task.offset, c.blockMax);
    if Window(stored, s.replaceLen + s.task.offset, c.blockMax) == [] {
      DrainEnds(c.uri, s.tag, s.replaceLen, s.pos, stored, s.task.offset, c.blockMax);
    }
  }

  lemma DrainWithKeeps(c: Config, s: State, block: seq<byte>)
    requires Inv(c, s) && s.task.Draining? && DrainsRight(c.uri, s, block)
    ensures Inv(c, DrainWith(s, block))
  {
    hide Inv, DrainsRight;
    if s.closed || block == [] {
      DrainStopsKeeps(c, s, block);
    } else {
      DrainGoesOnKeeps(c, s, block);
    }
  }

  lemma DrainStopsKeeps(c: Config, s: State, block: seq<byte>)
    requires Inv(c, s) && s.task.Draining? && DrainsRight(c.uri, s, block) && (s.closed || block == [])
    ensures Inv(c, s.(task := Downloading))
  {
    hide RecordOk, ContentOk, Virtual, From, Window;
    if !s.closed && s.file.Live() {
      assert s.file.content + From(c.uri, s.pos) == Virtual(c.uri, s.tag, s.replaceLen);
    }
  }

  lemma DrainGoesOnKeeps(c: Config, s: State, block: seq<byte>)
    requires Inv(c, s) && s.task.Draining? && DrainsRight(c.uri, s, block) && !s.closed && block != []
    ensures Inv(c, DrainWith(s, block))
  {
    hide RecordOk, ContentOk, BufferOk, FlagsOk, Virtual, From, Window, DrainsRight;
    RecordSurvivesWrite(c.uri, s.tag, s.replaceLen, s.record, s.file.content, block);
    DrainedIsOk(c.uri, s, block);
  }

  lemma DrainedIsOk(uri: seq<byte>, s: State, block: seq<byte>)
    requires s.task.Draining? && DrainsRight(uri, s, block) && block != [] && PrepKnown(s)
    ensures s.replaceLen + s.task.offset + |block| <= |s.buffer.Contents()|
    ensures s.file.Live() && DrainOk(s, s.task.offset) ==>
      && ContentOk(uri, s.tag, s.replaceLen, s.file.content + block, s.file.prep)
      && s.file.content + block == s.tag + Window(s.buffer.Contents(), s.replaceLen, s.task.offset + |block|)
  {
    hide Virtual, From, Window;
  }

  lemma DrainKeeps(c: Config, s: State)
    requires Inv(c, s) && s.task.Draining?
    ensures Inv(c, DrainStep(c, s))
  {
    DrainIsWindow(c, s);
    WindowDrainsRight(c, s);
    DrainWithKeeps(c, s, Window(s.buffer.Contents(), s.replaceLen + s.task.offset, c.blockMax));
  }

  lemma RecordSurvivesWrite(uri: seq<byte>, tag: seq<byte>, replaceLen: nat, record: Record, content: seq<byte>,
      block: seq<byte>)
    requires RecordOk(uri, tag, replaceLen, record, content)
    ensures RecordOk(uri, tag, replaceLen, record, content + block)
  {
    if record.total > 0 {
      assert (content + block)[..record.total] == content[..record.total];
    }
  }

  lemma FetchExtends(uri: seq<byte>, content: seq<byte>, pos: nat, n: nat)
    requires pos + n <= |uri|
    ensures (content + uri[pos..pos + n]) + From(uri, pos + n) == content + From(uri, pos)
    ensures content + uri[pos..pos + n] <= content + From(uri, pos)
  {
    assert From(uri, pos) == uri[pos..pos + n] + From(uri, pos + n);
  }

  lemma FetchWritesKeeps(c: Config, s: State, n: nat)
    requires Inv(c, s) && s.task.Downloading? && n > 0 && s.pos + n <= |c.uri| && !s.closed
    ensures Inv(c, s.(file := WriteFile(s.file, c.uri[s.pos..s.pos + n]), pos := s.pos + n))
  {
    hide RecordOk, ContentOk, Virtual, From, Window, BufferOk, FlagsOk;
    FetchExtends(c.uri, s.file.content, s.pos, n);
    RecordSurvivesWrite(c.uri, s.tag, s.replaceLen, s.record, s.file.content, c.uri[s.pos..s.pos + n]);
    if s.file.Live() {
      FetchedIsOk(c.uri, s.tag, s.replaceLen, s.file.content, s.file.prep, s.pos, n);
    }
  }

  lemma FetchedIsOk(uri: seq<byte>, tag: seq<byte>, replaceLen: nat, content: seq<byte>, prep: int, pos: nat, n: nat)
    requires pos + n <= |uri| && |tag| <= |content| && prep + replaceLen == |tag|
    requires content + From(uri, pos) == Virtual(uri, tag, replaceLen)
    ensures ContentOk(uri, tag, replaceLen, content + uri[pos..pos + n], prep)
  {
    FetchExtends(uri, content, pos, n);
  }

  lemma NothingFollows(uri: seq<byte>, content: seq<byte>, pos: nat)
    requires pos >= |uri|
    ensures content + From(uri, pos) == content
  {
  }

  lemma FetchEndsKeeps(c: Config, s: State)
    requires Inv(c, s) && s.task.Downloading? && !s.closed && (s.streamClosed || s.pos >= |c.uri|)
    ensures Inv(c, s.(task := Finished))
  {
    hide RecordOk, ContentOk, BufferOk, Virtual, From, Window;
    if s.pos >= |c.uri| {
      NothingFollows(c.uri, s.file.content, s.pos);
    }
  }

  lemma FetchCases(c: Config, s: State, n: nat)
    requires FetchStep(c, s, n).Some?
    ensures FetchStep(c, s, n).value ==
            if s.closed then s.(task := Stopped, streamClosed := true)
            else if s.streamClosed || s.pos >= |c.uri| then s.(task := Finished)
            else s.(file := WriteFile(s.file, c.uri[s.pos..s.pos + n]), pos := s.pos + n)
    ensures !s.closed && !s.streamClosed && s.pos < |c.uri| ==> n > 0 && s.pos + n <= |c.uri|
  {
  }

  lemma FetchKeeps(c: Config, s: State, n: nat)
    requires Inv(c, s) && s.task.Downloading? && FetchStep(c, s, n).Some?
    ensures Inv(c, FetchStep(c, s, n).value)
  {
    FetchCases(c, s, n);
    if !s.closed && !s.streamClosed && s.pos < |c.uri| {
      FetchWritesKeeps(c, s, n);
    } else if !s.closed {
      FetchEndsKeeps(c, s);
    }
  }

  lemma NewSessionKeeps(c: Config, s: State, evicted: bool)
    requires Inv(c, s) && Step(c, s, NewSession(evicted)).Some?
    requires evicted || !Misleads(c, s)
    ensures Inv(c, Step(c, s, NewSession(evicted)).value)
  {
  }

  lemma FlagStepKeeps(c: Config, s: State, a: Action)
    requires a.Post? || a.ProducerFails? || a.TaskFails?
    requires Inv(c, s) && Step(c, s, a).Some?
    ensures Inv(c, Step(c, s, a).value)
  {
    hide RecordOk, ContentOk, Virtual, From, Window;
  }

  lemma RaiseClosedKeeps(c: Config, s: State)
    requires Inv(c, s)
    ensures Inv(c, s.(closed := true))
  {
    hide RecordOk, ContentOk, BufferOk, Virtual, From, Window;
  }

  lemma ReaderClosesKeeps(c: Config, s: State)
    requires Inv(c, s) && !FreshPhase(s.task)
    ensures Inv(c, s.(streamClosed := true))
  {
    hide RecordOk, ContentOk, BufferOk, Virtual, From, Window;
  }

  lemma StepKeeps(c: Config, s: State, a: Action)
    requires Inv(c, s) && Step(c, s, a).Some?
    requires a == NewSession(false) ==> !Misleads(c, s)
    ensures Inv(c, Step(c, s, a).value)
  {
    hide Inv;
    match a
    case OpenStream => OpenStreamKeeps(c, s);
    case OpenDisk => OpenDiskKeeps(c, s);
    case Produce(n) => ProduceKeeps(c, s, n);
    case ParseEnds(tag, replaceLen) => ParseEndsKeeps(c, s, tag, replaceLen);
    case RaiseFlag => HandOverKeeps(c, s, a);
    case AppendStopped => HandOverKeeps(c, s, a);
    case SetPrependSize => HandOverKeeps(c, s, a);
    case WriteTag => WriteTagKeeps(c, s);
    case Drain => DrainKeeps(c, s);
    case Fetch(n) => FetchKeeps(c, s, n);
    case CloseDisk => CloseKeeps(c, s);
    case NewSession(evicted) => NewSessionKeeps(c, s, evicted);
    case RaiseClosed => RaiseClosedKeeps(c, s);
    case ReaderClosesStream => ReaderClosesKeeps(c, s);
    case _ => FlagStepKeeps(c, s, a);
  }

  // ----- Runs -----

  lemma {:induction false} RunKeeps(c: Config, s: State, run: seq<Action>)
    requires Inv(c, s) && Run(c, s, run).Some? && Clean(c, s, run)
    ensures Inv(c, Run(c, s, run).value)
    decreases |run|
  {
    if run != [] {
      StepKeeps(c, s, run[0]);
      RunKeeps(c, Step(c, s, run[0]).value, run[1..]);
    }
  }

  lemma {:induction false} RunAppend(c: Config, s: State, run: seq<Action>, a: Action)
    requires Run(c, s, run).Some?
    ensures Run(c, s, run + [a]) == Step(c, Run(c, s, run).value, a)
    ensures Clean(c, s, run + [a]) <==>
      Clean(c, s, run) && (a == NewSession(false) ==> !Misleads(c, Run(c, s, run).value))
    decreases |run|
  {
    if run == [] {
      assert run + [a] == [a] && [a][1..] == [];
    } else {
      assert (run + [a])[1..] == run[1..] + [a];
      RunAppend(c, Step(c, s, run[0]).value, run[1..], a);
    }
  }

  /** Reached from nothing by a run of any length in which no session left a misleading record. */
  ghost predicate Reachable(c: Config, s: State) {
    c.Valid() && exists run :: Run(c, Init(c), run) == Some(s) && Clean(c, Init(c), run)
  }

  lemma InitReachable(c: Config)
    requires c.Valid()
    ensures Reachable(c, Init(c))
  {
    assert Run(c, Init(c), []) == Some(Init(c)) && Clean(c, Init(c), []);
  }

  lemma ReachableStep(c: Config, s: State, a: Action)
    requires Reachable(c, s) && Step(c, s, a).Some? && (a == NewSession(false) ==> !Misleads(c, s))
    ensures Reachable(c, Step(c, s, a).value)
  {
    var run :| Run(c, Init(c), run) == Some(s) && Clean(c, Init(c), run);
    RunAppend(c, Init(c), run, a);
    assert Run(c, Init(c), run + [a]) == Some(Step(c, s, a).value);
  }

  lemma ReachableInv(c: Config, s: State)
    requires Reachable(c, s)
    ensures Inv(c, s)
  {
    var run :| Run(c, Init(c), run) == Some(s) && Clean(c, Init(c), run);
    RunKeeps(c, Init(c), run);
  }

  /** Over any number of sessions and any interleaving: what is on disk is a prefix of the virtual
      file, and so is the recorded part of it; the offset where a later session reopens the remote
      file continues the record exactly; and a download that ends undisturbed leaves all of it. */
  lemma DiskIsPrefixOfVirtual(c: Config, s: State)
    requires Reachable(c, s)
    ensures s.file.isOpen ==>
              s.file.total == |s.file.content| && s.file.content <= Virtual(c.uri, s.tag, s.replaceLen)
    ensures s.record.total > 0 ==>
              && s.record.prep <= s.record.total <= |s.file.content|
              && s.file.content[..s.record.total] + From(c.uri, s.record.total - s.record.prep)
                 == Virtual(c.uri, s.tag, s.replaceLen)
    ensures s.task.Finished? && s.file.Live() && !s.streamClosed && !s.closed ==>
              s.file.content == Virtual(c.uri, s.tag, s.replaceLen)
  {
    ReachableInv(c, s);
  }

  /** The session that has just opened its stream at `pos` will go on where its file on disk ends. */
  ghost predicate Continues(c: Config, s: State) {
    if s.file.total > 0 then s.file.content + From(c.uri, s.pos) == Virtual(c.uri, s.tag, s.replaceLen) else s.pos == 0
  }

  function Reopened(c: Config, s: State): State
    requires Step(c, s, NewSession(false)).Some?
  {
    OpenStreamStep(c, Step(c, s, NewSession(false)).value.(task := OpeningStream))
  }

  lemma StaleDoesNotContinue(c: Config, s: State)
    requires Inv(c, s) && Stale(s)
    ensures |s.file.content| + |From(c.uri, s.record.total - s.record.prep)| > |Virtual(c.uri, s.tag, s.replaceLen)|
    ensures 0 <= s.record.total - s.record.prep < |c.uri|
  {
    var record, v := s.record, Virtual(c.uri, s.tag, s.replaceLen);
    assert |s.file.content[..record.total]| + |From(c.uri, record.total - record.prep)| == |v|;
  }

  lemma ReopenedIs(c: Config, s: State)
    requires Inv(c, s) && Step(c, s, NewSession(false)).Some?
    ensures
      var s', offset := Reopened(c, s), s.record.total - s.record.prep;
      && s'.task == (if Opens(|c.uri|, offset) then OpeningFile else Failed)
      && s'.file.content == s.file.content && s'.file.total == s.record.total
      && s'.tag == s.tag && s'.replaceLen == s.replaceLen
      && (Opens(|c.uri|, offset) ==> s'.pos == offset)
  {
    hide RecordOk, ContentOk, BufferOk, PhaseOk, Virtual, From, Window;
  }

  /** A new session fails before it touches the disk where its offset does not open; where it does, it
      goes on exactly where the bytes on disk end, unless the record misleads it. */
  lemma ReopenContinuesIff(c: Config, s: State)
    requires Reachable(c, s) && Step(c, s, NewSession(false)).Some?
    ensures
      var offset := s.record.total - s.record.prep;
      && Reopened(c, s).task == (if Opens(|c.uri|, offset) then OpeningFile else Failed)
      && (Opens(|c.uri|, offset) ==> (Continues(c, Reopened(c, s)) <==> !Misleads(c, s)))
  {
    hide Inv, Reopened, Virtual, From, Stale, Step, Reachable;
    ReachableInv(c, s);
    ReopenedIs(c, s);
    if Stale(s) {
      StaleDoesNotContinue(c, s);
      StaleIs(s);
    } else if s.record.total > 0 {
      NotStaleContinues(c, s);
    }
  }

  lemma StaleIs(s: State)
    ensures Stale(s) ==> s.record.total > 0
  {
  }

  lemma NotStaleContinues(c: Config, s: State)
    requires Inv(c, s) && Step(c, s, NewSession(false)).Some? && !Stale(s) && s.record.total > 0
    ensures s.record.prep <= s.record.total
    ensures s.file.content + From(c.uri, s.record.total - s.record.prep) == Virtual(c.uri, s.tag, s.replaceLen)
  {
    hide Virtual, From, Window, ContentOk, BufferOk, PhaseOk;
  }

  // ----- A close between lines 98 and 99 -----

  /** The prepend size is set, and nothing has been written yet. */
  predicate Exposed(s: State) {
    s.file.content == [] && s.file.prep == |s.tag| - s.replaceLen != 0
  }

  /** Closing an open file records sizes from which a later session can go on, exactly when it is not
      exposed; for a new tag that is not empty, exactly when the task does not stand between setting a
      prepend size other than zero and writing the tag. */
  lemma CloseRecordsUsable(c: Config, s: State)
    requires Reachable(c, s) && s.file.Live()
    ensures
      var r := Step(c, s, CloseDisk).value.record;
      && ((r.total == 0 ==> r.prep == 0) <==> !Exposed(s))
      && (r.total > 0 ==> r.prep <= r.total)
      && (s.tag != [] ==> (Exposed(s) <==> s.task.WritingTag? && |s.tag| != s.replaceLen))
  {
    ReachableInv(c, s);
  }

  /** The record counts nothing, and beside it stands a prepend size from which the stream does not open. */
  ghost predicate Stuck(c: Config, s: State) {
    && s.record.total == 0 && !Opens(|c.uri|, StartOffset(Restore(s.record, s.file.content)))
    && !s.file.isOpen && s.file.total == 0 && s.file.prep == s.record.prep
    && (s.task.NotPosted? || s.task.OpeningStream? || s.task.Failed?) && s.producer.Idle?
  }

  lemma StuckStays(c: Config, s: State, a: Action)
    requires Stuck(c, s) && a != NewSession(true) && Step(c, s, a).Some?
    ensures Stuck(c, Step(c, s, a).value)
  {
    hide RecordOk, ContentOk, BufferOk, Virtual, From, Window;
    match a
    case OpenStream =>
    case NewSession(evicted) =>
    case _ =>
  }

  /** An unusable record is permanent: until the entry is evicted, no session gets past opening the
      stream, so the song can never be downloaded again. */
  lemma {:induction false} UnusableRecordIsPermanent(c: Config, s: State, run: seq<Action>)
    requires Stuck(c, s) && NewSession(true) !in run && Run(c, s, run).Some?
    ensures Stuck(c, Run(c, s, run).value)
    decreases |run|
  {
    if run != [] {
      assert run[0] in run;
      StuckStays(c, s, run[0]);
      UnusableRecordIsPermanent(c, Step(c, s, run[0]).value, run[1..]);
    }
  }

  /** A session that begins with nothing recorded is stuck exactly when no run without eviction ever gets to
      opening the file. */
  lemma StuckIffNeverOpens(c: Config, s: State)
    requires s == Fresh(c, s.record, s.file.content, s.tag, s.replaceLen) && s.record.total == 0
    ensures Stuck(c, s) <==>
      forall run | NewSession(true) !in run && Run(c, s, run).Some? :: !Run(c, s, run).value.task.OpeningFile?
  {
    if Stuck(c, s) {
      forall run | NewSession(true) !in run && Run(c, s, run).Some?
        ensures !Run(c, s, run).value.task.OpeningFile?
      {
        UnusableRecordIsPermanent(c, s, run);
      }
    } else {
      var run := [Post, OpenStream];
      var s1 := Step(c, s, Post).value;
      assert run[1..] == [OpenStream] && [OpenStream][1..] == [];
      assert Run(c, s1, [OpenStream]) == Step(c, s1, OpenStream);
      assert NewSession(true) !in run && Run(c, s, run).value.task.OpeningFile?;
    }
  }

  /** The window is real: a close in it leaves a later session stuck exactly when the new tag is longer than the
      old one, or shorter by no less than the remote file is long. */
  lemma WindowCloseLeavesStuck(c: Config, s: State)
    requires Reachable(c, s) && s.task.WritingTag? && s.file.Live()
    ensures
      var s' := Step(c, s, CloseDisk).value;
      Stuck(c, Fresh(c, s'.record, s'.file.content, s'.tag, s'.replaceLen)) <==>
      |s.tag| > s.replaceLen || (|s.tag| < s.replaceLen && s.replaceLen - |s.tag| >= |c.uri|)
  {
    ReachableInv(c, s);
  }

  lemma FirstBlockIsReachable(c: Config) returns (s: State)
    requires c.Valid() && c.uri != []
    ensures Reachable(c, s)
    ensures s.task.Parsing? && s.producer.FirstCheck? && s.file.Live() && s.file.content == [] && s.file.prep == 0
    ensures !s.eof && !s.notified && !s.metadataRead && !s.closeCalled && !s.closed && s.pos <= |c.uri|
  {
    InitReachable(c);
    s := Init(c);
    ReachableStep(c, s, Post);
    s := Step(c, s, Post).value;
    ReachableStep(c, s, OpenStream);
    s := Step(c, s, OpenStream).value;
    ReachableStep(c, s, OpenDisk);
    s := Step(c, s, OpenDisk).value;
    ReachableStep(c, s, Produce(1));
    s := Step(c, s, Produce(1)).value;
    ReachableStep(c, s, Produce(0));
    s := Step(c, s, Produce(0)).value;
    ReachableInv(c, s);
  }

  /** The window can be reached for every remote file and every new tag. */
  lemma WindowIsReachable(c: Config, tag: seq<byte>) returns (s: State)
    requires c.Valid() && c.uri != [] && |tag| + |c.uri| < UINT_RANGE
    ensures Reachable(c, s) && s.task.WritingTag? && s.file.Live()
    ensures s.tag == tag && s.replaceLen == 0 && s.prepSize == |tag| == s.file.prep && s.file.content == []
    ensures !s.closeCalled && !s.closed
  {
    s := FirstBlockIsReachable(c);
    ReachableStep(c, s, ParseEnds(tag, 0));
    s := Step(c, s, ParseEnds(tag, 0)).value;
    ReachableStep(c, s, RaiseFlag);
    s := Step(c, s, RaiseFlag).value;
    ReachableStep(c, s, Produce(0));
    s := Step(c, s, Produce(0)).value;
    ReachableStep(c, s, AppendStopped);
    s := Step(c, s, AppendStopped).value;
    ReachableStep(c, s, SetPrependSize);
    s := Step(c, s, SetPrependSize).value;
    ReachableInv(c, s);
  }

  // ----- A close before the open -----

  lemma TagIsWritten(c: Config, tag: seq<byte>) returns (s: State)
    requires c.Valid() && c.uri != [] && tag != [] && |tag| + |c.uri| < UINT_RANGE
    ensures Reachable(c, s) && s.task == Draining(0) && s.tag == tag && s.replaceLen == 0
    ensures s.closed && s.record == Record(|tag|, |tag|) && s.file.content == tag
  {
    hide RecordOk, ContentOk, BufferOk, Virtual, From, Window;
    s := WindowIsReachable(c, tag);
    ReachableInv(c, s);
    ReachableStep(c, s, WriteTag);
    s := Step(c, s, WriteTag).value;
    ReachableStep(c, s, CloseDisk);
    s := Step(c, s, CloseDisk).value;
    ReachableStep(c, s, RaiseClosed);
    s := Step(c, s, RaiseClosed).value;
  }

  lemma TagIsRecorded(c: Config, tag: seq<byte>) returns (s: State)
    requires c.Valid() && c.uri != [] && tag != [] && |tag| + |c.uri| < UINT_RANGE
    ensures Reachable(c, s)
    ensures s == Fresh(c, Record(|tag|, |tag|), tag, tag, 0)
  {
    hide RecordOk, ContentOk, BufferOk, Virtual, From, Window;
    s := TagIsWritten(c, tag);
    ReachableStep(c, s, Drain);
    s := Step(c, s, Drain).value;
    ReachableStep(c, s, Fetch(0));
    s := Step(c, s, Fetch(0)).value;
    ReachableStep(c, s, NewSession(false));
    s := Step(c, s, NewSession(false)).value;
  }

  /** A close that crosses the open of a resumed session can leave it stale. */
  lemma StaleIsReachable(c: Config, tag: seq<byte>) returns (s: State)
    requires c.Valid() && c.uri != [] && tag != [] && |tag| + |c.uri| < UINT_RANGE
    ensures Reachable(c, s) && Stale(s) && Step(c, s, NewSession(false)).Some?
  {
    hide RecordOk, ContentOk, BufferOk, Virtual, From, Window;
    s := TagIsRecorded(c, tag);
    ReachableStep(c, s, Post);
    s := Step(c, s, Post).value;
    ReachableStep(c, s, OpenStream);
    s := Step(c, s, OpenStream).value;
    ReachableStep(c, s, CloseDisk);
    s := Step(c, s, CloseDisk).value;
    ReachableStep(c, s, OpenDisk);
    s := Step(c, s, OpenDisk).value;
    ReachableStep(c, s, Fetch(1));
    s := Step(c, s, Fetch(1)).value;
    ReachableStep(c, s, RaiseClosed);
    s := Step(c, s, RaiseClosed).value;
    ReachableStep(c, s, Fetch(0));
    s := Step(c, s, Fetch(0)).value;
  }

  /** The file is not what it should be: not a prefix of the virtual file, or, when the download has ended
      undisturbed, not all of it. */
  ghost predicate Corrupt(c: Config, s: State) {
    var v := Virtual(c.uri, s.tag, s.replaceLen);
    || (s.file.isOpen && !(s.file.content <= v))
    || (s.task.Finished? && s.file.Live() && !s.streamClosed && !s.closed && s.file.content != v)
  }

  predicate WithinSession(run: seq<Action>) {
    forall a | a in run :: !a.NewSession?
  }

  /** Some run within the session leads from one state to the other. */
  ghost predicate Leads(c: Config, s: State, s': State) {
    exists run :: WithinSession(run) && Run(c, s, run) == Some(s')
  }

  lemma LeadsNowhere(c: Config, s: State)
    ensures Leads(c, s, s)
  {
    assert WithinSession([]) && Run(c, s, []) == Some(s);
  }

  lemma LeadsOn(c: Config, s: State, s': State, a: Action)
    requires Leads(c, s, s') && !a.NewSession? && Step(c, s', a).Some?
    ensures Leads(c, s, Step(c, s', a).value)
  {
    hide Step;
    var run :| WithinSession(run) && Run(c, s, run) == Some(s');
    RunAppend(c, s, run, a);
    assert WithinSession(run + [a]);
  }

  /** An undisturbed download fetches the rest of the stream behind what is on disk. */
  lemma {:induction false} FetchAll(c: Config, start: State, s: State) returns (s': State)
    requires c.Valid() && Leads(c, start, s)
    requires s.task.Downloading? && s.file.Live() && !s.closed && !s.streamClosed && s.pos <= |c.uri|
    ensures Leads(c, start, s') && s'.task.Finished? && s'.file.Live() && !s'.closed && !s'.streamClosed
    ensures s'.tag == s.tag && s'.replaceLen == s.replaceLen
    ensures s'.file.content == s.file.content + From(c.uri, s.pos)
    decreases |c.uri| - s.pos
  {
    hide Leads, Virtual, Window;
    if s.pos == |c.uri| {
      LeadsOn(c, start, s, Fetch(0));
      s' := Step(c, s, Fetch(0)).value;
      NothingFollows(c.uri, s.file.content, s.pos);
    } else {
      LeadsOn(c, start, s, Fetch(1));
      FetchExtends(c.uri, s.file.content, s.pos, 1);
      s' := FetchAll(c, start, Step(c, s, Fetch(1)).value);
    }
  }

  /** A session after a record of some bytes, up to its download loop. */
  lemma SessionResumes(c: Config, record: Record, content: seq<byte>, tag: seq<byte>, replaceLen: nat)
    returns (s: State)
    requires record.total > 0 && Opens(|c.uri|, record.total - record.prep)
    ensures Leads(c, Fresh(c, record, content, tag, replaceLen), s)
    ensures s.task.Downloading? && s.file.Live() && !s.closed && !s.streamClosed
    ensures s.file.content == content && s.pos == record.total - record.prep
    ensures s.tag == tag && s.replaceLen == replaceLen
  {
    hide Leads;
    var s0 := Fresh(c, record, content, tag, replaceLen);
    LeadsNowhere(c, s0);
    LeadsOn(c, s0, s0, Post);
    s := Step(c, s0, Post).value;
    LeadsOn(c, s0, s, OpenStream);
    s := Step(c, s, OpenStream).value;
    LeadsOn(c, s0, s, OpenDisk);
    s := Step(c, s, OpenDisk).value;
  }

  /** After a stale session the next one, left to finish, writes a file longer than the virtual one. */
  lemma StaleCorrupts(c: Config, s: State) returns (s': State)
    requires Reachable(c, s) && Stale(s)
    ensures Leads(c, Fresh(c, s.record, s.file.content, s.tag, s.replaceLen), s') && Corrupt(c, s')
  {
    hide Leads, Virtual, From, Window, Inv, Stale;
    ReachableInv(c, s);
    StaleIs(s);
    StaleDoesNotContinue(c, s);
    var s0 := Fresh(c, s.record, s.file.content, s.tag, s.replaceLen);
    s' := SessionResumes(c, s.record, s.file.content, s.tag, s.replaceLen);
    assert c.Valid() by { ValidWhenInv(c, s); }
    s' := FetchAll(c, s0, s');
  }

  /** A session after a record of nothing beside a negative prepend size, up to its first block: the stream
      begins past the beginning of the remote file. */
  lemma SessionStartsWrong(c: Config, start: State, delta: nat) returns (s: State)
    requires c.Valid() && 0 < delta < |c.uri| && |c.uri| < UINT_RANGE
    requires start == Fresh(c, Record(0, -(delta as int)), start.file.content, start.tag, start.replaceLen)
    ensures Leads(c, start, s) && s.task.Parsing? && s.producer.FirstCheck? && s.pos == delta + 1 && s.file.Live()
    ensures s.file.content == [] && s.buffer == AppendTo(EmptyTiers(c.memMax), c.uri[delta..delta + 1])
    ensures !s.eof && !s.notified && !s.metadataRead && !s.closeCalled && !s.closed && !s.streamClosed
  {
    hide Leads, AppendTo;
    LeadsNowhere(c, start);
    s := start;
    LeadsOn(c, start, s, Post);
    s := Step(c, s, Post).value;
    LeadsOn(c, start, s, OpenStream);
    s := Step(c, s, OpenStream).value;
    LeadsOn(c, start, s, OpenDisk);
    s := Step(c, s, OpenDisk).value;
    LeadsOn(c, start, s, Produce(1));
    s := Step(c, s, Produce(1)).value;
    LeadsOn(c, start, s, Produce(0));
    s := Step(c, s, Produce(0)).value;
  }

  /** The hand-over of a session whose parser leaves no tag, up to its drain loop */
  lemma NothingReplaced(c: Config, start: State, s0: State) returns (s: State)
    requires Leads(c, start, s0) && s0.task.Parsing? && s0.producer.FirstCheck? && s0.file.Live()
    requires |c.uri| < UINT_RANGE
    requires !s0.eof && !s0.notified && !s0.metadataRead && !s0.closed && !s0.streamClosed && s0.file.content == []
    ensures Leads(c, start, s) && s.task == Draining(0) && s.file.Live() && s.file.content == []
    ensures s.tag == [] && s.replaceLen == 0 && !s.closed && !s.streamClosed && s.pos == s0.pos && s.buffer == s0.buffer
  {
    hide Leads;
    s := s0;
    LeadsOn(c, start, s, ParseEnds([], 0));
    s := Step(c, s, ParseEnds([], 0)).value;
    LeadsOn(c, start, s, RaiseFlag);
    s := Step(c, s, RaiseFlag).value;
    LeadsOn(c, start, s, Produce(0));
    s := Step(c, s, Produce(0)).value;
    LeadsOn(c, start, s, AppendStopped);
    s := Step(c, s, AppendStopped).value;
    LeadsOn(c, start, s, SetPrependSize);
    s := Step(c, s, SetPrependSize).value;
    LeadsOn(c, start, s, WriteTag);
    s := Step(c, s, WriteTag).value;
  }

  lemma DrainsOne(c: Config, start: State, s0: State, block: seq<byte>) returns (s: State)
    requires Leads(c, start, s0) && c.Valid() && s0.task == Draining(0) && s0.file.Live() && s0.file.content == []
    requires !s0.closed && !s0.streamClosed && s0.replaceLen == 0 && |block| == 1
    requires s0.buffer.Valid() && s0.buffer.Contents() == block
    ensures Leads(c, start, s) && s.task.Downloading? && s.file.Live() && !s.closed && !s.streamClosed
    ensures s.file.content == block && s.tag == s0.tag && s.replaceLen == 0 && s.pos == s0.pos
  {
    hide Leads, ReadPass;
    s := s0;
    LeadsOn(c, start, s, Drain);
    DrainIsWindow(c, s);
    s := Step(c, s, Drain).value;
    assert s.task == Draining(1);
    LeadsOn(c, start, s, Drain);
    DrainIsWindow(c, s);
    s := Step(c, s, Drain).value;
  }

  /** After such a record the next session, left to finish, can leave a file that begins in the middle. */
  lemma WrongStartCorrupts(c: Config, s: State) returns (s': State)
    requires Reachable(c, s) && !StartsRight(|c.uri|, s.record.total, s.record.prep)
    ensures Leads(c, Fresh(c, s.record, s.file.content, s.tag, s.replaceLen), s') && Corrupt(c, s')
  {
    hide Leads, Inv, AppendTo;
    ReachableInv(c, s);
    ValidWhenInv(c, s);
    var s0, delta: nat := Fresh(c, s.record, s.file.content, s.tag, s.replaceLen), -s.record.prep;
    var s1 := SessionStartsWrong(c, s0, delta);
    var block := c.uri[delta..delta + 1];
    AppendExtends(EmptyTiers(c.memMax), block);
    assert [] + [] + block == block;
    var s2 := NothingReplaced(c, s0, s1);
    var s3 := DrainsOne(c, s0, s2, block);
    s' := FetchAll(c, s0, s3);
    assert |s'.file.content| == |c.uri| - delta;
    assert Virtual(c.uri, [], 0) == c.uri;
  }

  /** A session ends with a misleading record exactly when some run of the next one, without eviction,
      leaves a file that is not what it should be. */
  lemma NextSessionCorruptIff(c: Config, s: State)
    requires Reachable(c, s) && Step(c, s, NewSession(false)).Some?
    ensures Misleads(c, s) <==> exists s' :: Leads(c, Step(c, s, NewSession(false)).value, s') && Corrupt(c, s')
  {
    var s0 := Step(c, s, NewSession(false)).value;
    assert s0 == Fresh(c, s.record, s.file.content, s.tag, s.replaceLen);
    hide Leads, Corrupt, Stale, Step, StartsRight, Reachable;
    if Stale(s) {
      var s' := StaleCorrupts(c, s);
    } else if !StartsRight(|c.uri|, s.record.total, s.record.prep) {
      var s' := WrongStartCorrupts(c, s);
    } else {
      ReachableStep(c, s, NewSession(false));
      forall s' | Leads(c, s0, s')
        ensures !Corrupt(c, s')
      {
        NeverCorrupt(c, s0, s');
      }
    }
  }

  lemma NeverCorrupt(c: Config, s: State, s': State)
    requires Reachable(c, s) && Leads(c, s, s')
    ensures Reachable(c, s') && !Corrupt(c, s')
  {
    hide Reachable, Run;
    var run :| WithinSession(run) && Run(c, s, run) == Some(s');
    SessionKeepsReachable(c, s, run);
    DiskIsPrefixOfVirtual(c, s');
  }

  lemma {:induction false} RunOfConcat(c: Config, s: State, a: seq<Action>, b: seq<Action>)
    requires Run(c, s, a).Some?
    ensures Run(c, s, a + b) == Run(c, Run(c, s, a).value, b)
    decreases |a|
  {
    hide Step;
    if a == [] {
      assert a + b == b;
    } else {
      assert (a + b)[1..] == a[1..] + b;
      RunOfConcat(c, Step(c, s, a[0]).value, a[1..], b);
    }
  }

  /** Corruption is real: for every remote file and every new tag that are not empty, some run from nothing
      ends with a file that is not a prefix of the virtual one. */
  lemma CorruptIsReachable(c: Config, tag: seq<byte>) returns (run: seq<Action>)
    requires c.Valid() && c.uri != [] && tag != [] && |tag| + |c.uri| < UINT_RANGE
    ensures Run(c, Init(c), run).Some? && Corrupt(c, Run(c, Init(c), run).value)
  {
    hide Corrupt, Stale, Step, Run, Inv;
    var s := StaleIsReachable(c, tag);
    var s' := StaleCorrupts(c, s);
    var before :| Run(c, Init(c), before) == Some(s) && Clean(c, Init(c), before);
    NextIsFresh(c, s);
    var next := Step(c, s, NewSession(false)).value;
    var after :| WithinSession(after) && Run(c, next, after) == Some(s');
    RunAppend(c, Init(c), before, NewSession(false));
    RunOfConcat(c, Init(c), before + [NewSession(false)], after);
    run := before + [NewSession(false)] + after;
  }

  lemma NextIsFresh(c: Config, s: State)
    requires Step(c, s, NewSession(false)).Some?
    ensures Step(c, s, NewSession(false)).value == Fresh(c, s.record, s.file.content, s.tag, s.replaceLen)
  {
  }

  lemma ValidWhenInv(c: Config, s: State)
    requires Inv(c, s)
    ensures c.Valid()
  {
    hide Virtual, From, Window, ContentOk, BufferOk, PhaseOk, RecordOk;
  }

  // ----- Which schedules end stale -----

  /** What the run of one session shows of its schedule: a close before and one after the opening of the file,
      the flag up or the stream closed, and a fetch before that. */
  datatype Journal = Journal(early: bool, begun: bool, late: bool, ended: bool, fetched: bool)

  const BLANK := Journal(false, false, false, false, false)

  function Noted(j: Journal, a: Action): Journal {
    match a
    case OpenDisk => j.(begun := true)
    case CloseDisk => if j.begun then j.(late := true) else j.(early := true)
    case RaiseClosed => j.(ended := true)
    case ReaderClosesStream => j.(ended := true)
    case Fetch(_) => j.(fetched := j.fetched || !j.ended)
    case _ => j
  }

  function Notes(j: Journal, run: seq<Action>): Journal
    decreases |run|
  {
    if run == [] then j else Notes(Noted(j, run[0]), run[1..])
  }

  /** The file is closed before it is opened and never after, and the loop fetches before the session ends. */
  predicate Crossed(run: seq<Action>) {
    var j := Notes(BLANK, run);
    j.early && j.begun && !j.late && j.fetched
  }

  ghost predicate JournalShows(r0: Record, s: State, j: Journal) {
    && s.file.isOpen == j.begun && s.file.isClosed == j.late && (j.late ==> j.begun)
    && (!j.late ==> s.record == r0)
    && s.closeCalled == (j.early || j.late)
  }

  /** A resumed session goes from the opening straight to the download loop. */
  ghost predicate Resuming(uriLen: nat, r0: Record, s: State, j: Journal) {
    var offset := r0.total - r0.prep;
    && s.producer.Idle? && (s.closed || s.streamClosed ==> j.ended)
    && s.file.total == |s.file.content| >= r0.total
    && (!j.begun ==> BeforeOpen(s.task) || s.task.Failed?)
    && (!j.begun ==> s.file.total == r0.total && s.file.prep == r0.prep && !j.fetched)
    && (j.begun ==> Opened(s.task) || s.task.Failed?)
    && (s.task.OpeningFile? ==> s.pos == offset)
    && (j.begun && !j.fetched ==> s.pos == offset && s.file.total == r0.total)
    && (j.fetched && !j.late ==> (s.file.total > r0.total <==> offset < uriLen))
    && (j.begun ==> s.pos >= offset)
    && (j.ended ==> s.closed || s.streamClosed)
    && r0.prep + uriLen < UINT_RANGE
  }

  lemma ShowsOnFetch(c: Config, r0: Record, s: State, j: Journal, n: nat)
    requires JournalShows(r0, s, j) && FetchStep(c, s, n).Some?
    ensures JournalShows(r0, FetchStep(c, s, n).value, Noted(j, Fetch(n)))
  {
    hide FetchStep;
    FetchCases(c, s, n);
  }

  lemma ShowsOnProduce(c: Config, r0: Record, s: State, j: Journal, n: nat)
    requires JournalShows(r0, s, j) && ProduceStep(c, s, n).Some?
    ensures JournalShows(r0, ProduceStep(c, s, n).value, j)
  {
    hide ProduceStep;
    ProduceFrame(c, s, n);
  }

  lemma ShowsOnDrain(c: Config, r0: Record, s: State, j: Journal)
    requires JournalShows(r0, s, j) && s.task.Draining?
    ensures JournalShows(r0, DrainStep(c, s), j)
  {
    hide ReadPass;
  }

  lemma ShowsOn(c: Config, r0: Record, s: State, j: Journal, a: Action)
    requires JournalShows(r0, s, j) && !a.NewSession? && Step(c, s, a).Some?
    ensures JournalShows(r0, Step(c, s, a).value, Noted(j, a))
  {
    hide FetchStep, ProduceStep, DrainStep, Opens, StartOffset, JournalShows;
    match a
    case Fetch(n) => ShowsOnFetch(c, r0, s, j, n);
    case Produce(n) => ShowsOnProduce(c, r0, s, j, n);
    case Drain => ShowsOnDrain(c, r0, s, j);
    case _ => ShowsOnOther(c, r0, s, j, a);
  }

  predicate Hands(a: Action) {
    a.Post? || a.OpenStream? || a.ParseEnds? || a.RaiseFlag? || a.AppendStopped?
  }

  lemma ShowsOnOther(c: Config, r0: Record, s: State, j: Journal, a: Action)
    requires JournalShows(r0, s, j) && !a.NewSession? && !a.Fetch? && !a.Produce? && !a.Drain? && Step(c, s, a).Some?
    ensures JournalShows(r0, Step(c, s, a).value, Noted(j, a))
  {
    hide FetchStep, ProduceStep, DrainStep, Opens, StartOffset, JournalShows, Noted, OpenDiskStep, OpenStreamStep;
    if a.CloseDisk? {
      ShowsOnClose(c, r0, s, j);
    } else if a.OpenDisk? {
      ShowsOnOpen(c, r0, s, j);
    } else if a.SetPrependSize? || a.WriteTag? {
      ShowsOnWrite(c, r0, s, j, a);
    } else if Hands(a) {
      ShowsOnHands(c, r0, s, j, a);
    } else {
      ShowsOnFlags(c, r0, s, j, a);
    }
  }

  lemma ShowsOnClose(c: Config, r0: Record, s: State, j: Journal)
    requires JournalShows(r0, s, j)
    ensures JournalShows(r0, Step(c, s, CloseDisk).value, Noted(j, CloseDisk))
  {
    hide FetchStep, ProduceStep, DrainStep, OpenStreamStep, OpenDiskStep;
  }

  lemma ShowsOnOpen(c: Config, r0: Record, s: State, j: Journal)
    requires JournalShows(r0, s, j) && s.task.OpeningFile?
    ensures JournalShows(r0, OpenDiskStep(s), Noted(j, OpenDisk))
  {
    hide JournalShows;
    ClosedWasBegun(r0, s, j);
    ShowsBegun(r0, s, OpenDiskStep(s), j);
  }

  lemma ClosedWasBegun(r0: Record, s: State, j: Journal)
    requires JournalShows(r0, s, j)
    ensures s.file.isClosed ==> s.file.isOpen
  {
  }

  lemma ShowsBegun(r0: Record, s: State, s': State, j: Journal)
    requires JournalShows(r0, s, j) && s'.file.isOpen && s'.file.isClosed == s.file.isClosed
    requires s'.record == s.record && s'.closeCalled == s.closeCalled
    ensures JournalShows(r0, s', j.(begun := true))
  {
  }

  lemma ShowsOnWrite(c: Config, r0: Record, s: State, j: Journal, a: Action)
    requires JournalShows(r0, s, j) && (a.SetPrependSize? || a.WriteTag?) && Step(c, s, a).Some?
    ensures JournalShows(r0, Step(c, s, a).value, Noted(j, a))
  {
    hide FetchStep, ProduceStep, DrainStep, OpenDiskStep, OpenStreamStep, JournalShows, CloseFile, RecordAfterClose;
    ShowsAlike(r0, s, Step(c, s, a).value, j, Noted(j, a));
  }

  lemma ShowsOnHands(c: Config, r0: Record, s: State, j: Journal, a: Action)
    requires JournalShows(r0, s, j) && Hands(a) && Step(c, s, a).Some?
    ensures JournalShows(r0, Step(c, s, a).value, Noted(j, a))
  {
    hide FetchStep, ProduceStep, DrainStep, OpenDiskStep, JournalShows, Opens, StartOffset, SetPrep, WriteFile,
        CloseFile, RecordAfterClose, Restore;
    ShowsAlike(r0, s, Step(c, s, a).value, j, Noted(j, a));
  }

  lemma ShowsOnFlags(c: Config, r0: Record, s: State, j: Journal, a: Action)
    requires JournalShows(r0, s, j) && Step(c, s, a).Some?
    requires a.ProducerFails? || a.TaskFails? || a.RaiseClosed? || a.ReaderClosesStream?
    ensures JournalShows(r0, Step(c, s, a).value, Noted(j, a))
  {
    hide FetchStep, ProduceStep, DrainStep, OpenDiskStep, OpenStreamStep, JournalShows, SetPrep, WriteFile,
        CloseFile, RecordAfterClose, Restore;
    ShowsAlike(r0, s, Step(c, s, a).value, j, Noted(j, a));
  }

  lemma ShowsAlike(r0: Record, s: State, s': State, j: Journal, j': Journal)
    requires JournalShows(r0, s, j) && s'.file.isOpen == s.file.isOpen && s'.file.isClosed == s.file.isClosed
    requires s'.record == s.record && s'.closeCalled == s.closeCalled
    requires j'.early == j.early && j'.begun == j.begun && j'.late == j.late
    ensures JournalShows(r0, s', j')
  {
  }

  lemma ResumesOnFetch(c: Config, r0: Record, s: State, j: Journal, n: nat)
    requires JournalShows(r0, s, j) && Resuming(|c.uri|, r0, s, j) && s.task.Downloading? && FetchStep(c, s, n).Some?
    ensures Resuming(|c.uri|, r0, FetchStep(c, s, n).value, Noted(j, Fetch(n)))
  {
    hide FetchStep;
    FetchCases(c, s, n);
  }

  lemma ResumesOnStream(c: Config, r0: Record, s: State, j: Journal)
    requires Resuming(|c.uri|, r0, s, j) && s.task.OpeningStream?
    ensures Resuming(|c.uri|, r0, OpenStreamStep(c, s), j)
  {
  }

  lemma ResumesOnFile(c: Config, r0: Record, s: State, j: Journal)
    requires JournalShows(r0, s, j) && Resuming(|c.uri|, r0, s, j) && r0.total > 0 && s.task.OpeningFile?
    ensures Resuming(|c.uri|, r0, OpenDiskStep(s), Noted(j, OpenDisk))
  {
  }

  lemma ResumesOn(c: Config, r0: Record, s: State, j: Journal, a: Action)
    requires JournalShows(r0, s, j) && Resuming(|c.uri|, r0, s, j) && r0.total > 0
    requires !a.NewSession? && Step(c, s, a).Some?
    ensures Resuming(|c.uri|, r0, Step(c, s, a).value, Noted(j, a))
  {
    hide FetchStep, DrainStep, AppendTo, OpenStreamStep, OpenDiskStep, WriteFile, SetPrep;
    if a.Fetch? {
      ResumesOnFetch(c, r0, s, j, a.n);
    } else if a.OpenStream? {
      ResumesOnStream(c, r0, s, j);
    } else if a.OpenDisk? {
      ResumesOnFile(c, r0, s, j);
    }
  }

  lemma {:induction false} JournalOfRun(c: Config, r0: Record, s: State, j: Journal, run: seq<Action>)
    requires JournalShows(r0, s, j) && (r0.total > 0 ==> Resuming(|c.uri|, r0, s, j))
    requires WithinSession(run) && Run(c, s, run).Some?
    ensures JournalShows(r0, Run(c, s, run).value, Notes(j, run))
    ensures r0.total > 0 ==> Resuming(|c.uri|, r0, Run(c, s, run).value, Notes(j, run))
    decreases |run|
  {
    hide JournalShows, Resuming, Noted, Step;
    if run != [] {
      assert run[0] in run;
      ShowsOn(c, r0, s, j, run[0]);
      if r0.total > 0 {
        ResumesOn(c, r0, s, j, run[0]);
      }
      JournalOfRun(c, r0, Step(c, s, run[0]).value, Noted(j, run[0]), run[1..]);
    }
  }

  /** A session that has been closed is stale exactly when it began with a record of some bytes, some of the
      remote file was left to fetch, and its close came before the opening of the file and the first fetch
      before the close had raised the flag. */
  lemma StaleIffCrossed(c: Config, s: State, run: seq<Action>)
    requires Reachable(c, s) && s == Fresh(c, s.record, s.file.content, s.tag, s.replaceLen)
    requires WithinSession(run) && Run(c, s, run).Some?
    ensures
      var s' := Run(c, s, run).value;
      s'.closeCalled && Stale(s') <==>
      s.record.total > 0 && s.record.total - s.record.prep < |c.uri| && Crossed(run)
  {
    hide Run, Notes, Reachable, RecordOk, ContentOk, BufferOk, Virtual, From, Window;
    ReachableInv(c, s);
    assert s.record.total > 0 ==> Resuming(|c.uri|, s.record, s, BLANK);
    JournalOfRun(c, s.record, s, BLANK, run);
  }

  // ----- Sessions that are left to finish -----

  /** The producer stores the whole remote file while the parser reads. */
  lemma {:induction false} BuffersAll(c: Config, start: State, s: State) returns (s': State)
    requires c.Valid() && Leads(c, start, s) && s.task.Parsing? && s.producer.Reading? && s.pos <= |c.uri|
    requires s.buffer.Valid() && s.buffer.Contents() == c.uri[..s.pos]
    requires !s.eof && !s.notified && !s.metadataRead
    ensures Leads(c, start, s') && s'.buffer.Valid() && s'.buffer.Contents() == c.uri
    ensures s' == s.(producer := Done, pos := |c.uri|, buffer := s'.buffer, eof := true, notified := true)
    decreases |c.uri| - s.pos
  {
    hide Leads, AppendTo;
    if s.pos == |c.uri| {
      LeadsOn(c, start, s, Produce(0));
      s' := Step(c, s, Produce(0)).value;
      assert c.uri[..s.pos] == c.uri;
    } else {
      var block := c.uri[s.pos..s.pos + 1];
      AppendExtends(s.buffer, block);
      s' := StoresOne(c, start, s);
      assert c.uri[..s.pos] + block == c.uri[..s.pos + 1];
      s' := BuffersAll(c, start, s');
    }
  }

  lemma StoresOne(c: Config, start: State, s: State) returns (s': State)
    requires c.Valid() && Leads(c, start, s) && s.task.Parsing? && s.producer.Reading? && s.pos < |c.uri|
    requires !s.metadataRead
    ensures Leads(c, start, s')
    ensures s' == s.(pos := s.pos + 1, buffer := AppendTo(s.buffer, c.uri[s.pos..s.pos + 1]))
  {
    hide Leads, AppendTo;
    LeadsOn(c, start, s, Produce(1));
    s' := Step(c, s, Produce(1)).value;
    LeadsOn(c, start, s', Produce(0));
    s' := Step(c, s', Produce(0)).value;
    LeadsOn(c, start, s', Produce(0));
    s' := Step(c, s', Produce(0)).value;
    LeadsOn(c, start, s', Produce(0));
    s' := Step(c, s', Produce(0)).value;
  }

  /** The parser leaves a tag, and the hand-over writes it. */
  lemma TagIsHandedOver(c: Config, start: State, s: State, tag: seq<byte>, replaceLen: nat) returns (s': State)
    requires Leads(c, start, s) && s.task.Parsing? && s.eof && s.notified && s.file.Live() && s.file.content == []
    requires |tag| + replaceLen + |c.uri| < UINT_RANGE
    ensures Leads(c, start, s') && s'.task == Draining(0) && s'.file.Live() && s'.file.content == tag
    ensures s'.tag == tag && s'.replaceLen == replaceLen && s'.buffer == s.buffer && s'.pos == s.pos
    ensures s'.closed == s.closed && s'.streamClosed == s.streamClosed
  {
    hide Leads;
    LeadsOn(c, start, s, ParseEnds(tag, replaceLen));
    s' := Step(c, s, ParseEnds(tag, replaceLen)).value;
    LeadsOn(c, start, s', RaiseFlag);
    s' := Step(c, s', RaiseFlag).value;
    LeadsOn(c, start, s', AppendStopped);
    s' := Step(c, s', AppendStopped).value;
    LeadsOn(c, start, s', SetPrependSize);
    s' := Step(c, s', SetPrependSize).value;
    LeadsOn(c, start, s', WriteTag);
    s' := Step(c, s', WriteTag).value;
  }

  /** The drain loop writes all that was stored behind the replaced part. */
  lemma {:induction false} DrainsAll(c: Config, start: State, s: State) returns (s': State)
    requires c.Valid() && Leads(c, start, s) && s.task.Draining? && s.file.Live() && !s.closed && s.buffer.Valid()
    ensures Leads(c, start, s') && s'.task.Downloading? && s'.file.Live()
    ensures s'.file.content == s.file.content + From(s.buffer.Contents(), s.replaceLen + s.task.offset)
    ensures s'.tag == s.tag && s'.replaceLen == s.replaceLen && s'.pos == s.pos
    ensures !s'.closed && s'.streamClosed == s.streamClosed
    decreases |s.buffer.Contents()| - s.task.offset
  {
    hide Leads, ReadPass, From, Window;
    LeadsOn(c, start, s, Drain);
    DrainIsWindow(c, s);
    var at := s.replaceLen + s.task.offset;
    var block := Window(s.buffer.Contents(), at, c.blockMax);
    FrontOfRest(s.buffer.Contents(), at, c.blockMax);
    s' := Step(c, s, Drain).value;
    if block != [] {
      s' := DrainsAll(c, start, s');
      JoinThree(s.file.content, block, From(s.buffer.Contents(), at + |block|));
    } else {
      assert s.file.content + [] == s.file.content;
    }
  }

  lemma FrontOfRest(s: seq<byte>, at: nat, len: nat)
    requires len > 0
    ensures From(s, at) == Window(s, at, len) + From(s, at + |Window(s, at, len)|)
    ensures Window(s, at, len) == [] ==> From(s, at) == []
    ensures Window(s, at, len) != [] ==> at < |s|
  {
  }

  /** A session that begins with nothing recorded, left to finish, leaves all of the virtual file, whatever new
      tag the parser makes. */
  lemma FreshSessionFinishes(c: Config, s: State, tag: seq<byte>, replaceLen: nat) returns (s': State)
    requires c.Valid() && |tag| + replaceLen + |c.uri| < UINT_RANGE
    requires s == Fresh(c, NO_RECORD, s.file.content, s.tag, s.replaceLen)
    ensures Leads(c, s, s') && s'.task.Finished? && s'.file.Live() && !s'.closed && !s'.streamClosed
    ensures s'.tag == tag && s'.replaceLen == replaceLen && s'.file.content == Virtual(c.uri, tag, replaceLen)
  {
    hide Leads, Window;
    s' := FreshSessionParses(c, s);
    assert c.uri[..0] == [];
    s' := BuffersAll(c, s, s');
    s' := TagIsHandedOver(c, s, s', tag, replaceLen);
    s' := DrainsAll(c, s, s');
    s' := FetchAll(c, s, s');
    assert From(c.uri, |c.uri|) == [];
  }

  /** Such a session asks for the remote file from its beginning and empties the file on disk. */
  lemma FreshSessionParses(c: Config, s: State) returns (s': State)
    requires c.Valid() && s == Fresh(c, NO_RECORD, s.file.content, s.tag, s.replaceLen)
    ensures Run(c, s, [Post, OpenStream, OpenDisk]) == Some(s') && Leads(c, s, s')
    ensures s'.task.Parsing? && s'.pos == 0 && s'.file.Live() && s'.file.content == [] && s'.file.total == 0
    ensures s'.producer.Reading? && s'.buffer == EmptyTiers(c.memMax)
    ensures !s'.eof && !s'.notified && !s'.metadataRead && !s'.closed && !s'.streamClosed
  {
    var s1 := Step(c, s, Post).value;
    var s2 := Step(c, s1, OpenStream).value;
    s' := Step(c, s2, OpenDisk).value;
    var run := [Post, OpenStream, OpenDisk];
    assert run[1..] == [OpenStream, OpenDisk] && [OpenStream, OpenDisk][1..] == [OpenDisk] && [OpenDisk][1..] == [];
    assert Run(c, s2, [OpenDisk]) == Some(s');
    assert Run(c, s1, [OpenStream, OpenDisk]) == Some(s');
    assert WithinSession(run);
  }

  /** An eviction makes good whatever the record was: the next session downloads the song from its beginning, and,
      left to finish, leaves all of the virtual file. */
  lemma EvictionStartsOver(c: Config, s: State, tag: seq<byte>, replaceLen: nat) returns (s': State)
    requires c.Valid() && |tag| + replaceLen + |c.uri| < UINT_RANGE && Step(c, s, NewSession(true)).Some?
    ensures
      var s0 := Step(c, s, NewSession(true)).value;
      && s0.record == NO_RECORD && s0.file.content == [] && !Stuck(c, s0)
      && Run(c, s0, [Post, OpenStream, OpenDisk]).Some?
      && var s1 := Run(c, s0, [Post, OpenStream, OpenDisk]).value;
         && s1.task.Parsing? && s1.pos == 0 && s1.file.Live() && s1.file.content == []
         && Leads(c, s0, s') && s'.task.Finished? && s'.file.Live() && !s'.closed && !s'.streamClosed
         && s'.file.content == Virtual(c.uri, tag, replaceLen)
  {
    var s0 := Step(c, s, NewSession(true)).value;
    assert s0 == Fresh(c, NO_RECORD, [], s.tag, s.replaceLen);
    hide Leads, Run, Step;
    var s1 := FreshSessionParses(c, s0);
    s' := FreshSessionFinishes(c, s0, tag, replaceLen);
  }

  /** A session that resumes a record which opens and does not mislead, left to finish, leaves all of the virtual
      file. */
  lemma ResumedSessionFinishes(c: Config, s: State) returns (s': State)
    requires Reachable(c, s) && Step(c, s, NewSession(false)).Some? && !Misleads(c, s)
    requires s.record.total > 0 && Opens(|c.uri|, s.record.total - s.record.prep)
    ensures Leads(c, Step(c, s, NewSession(false)).value, s')
    ensures s'.task.Finished? && s'.file.Live() && !s'.closed && !s'.streamClosed
    ensures s'.file.content == Virtual(c.uri, s.tag, s.replaceLen)
  {
    hide Leads, Virtual, From, Window, Inv, Stale;
    ReachableInv(c, s);
    ValidWhenInv(c, s);
    NotStaleContinues(c, s);
    NextIsFresh(c, s);
    var s0 := Fresh(c, s.record, s.file.content, s.tag, s.replaceLen);
    s' := SessionResumes(c, s.record, s.file.content, s.tag, s.replaceLen);
    s' := FetchAll(c, s0, s');
  }

  // ----- What ends a download -----

  /** Once the flag is up or the stream closed, the download loop ends at its next step and writes nothing. */
  lemma EndedStep(c: Config, s: State, a: Action)
    requires Opened(s.task) && (s.closed || s.streamClosed) && !a.NewSession? && Step(c, s, a).Some?
    ensures
      var s' := Step(c, s, a).value;
      && (Opened(s'.task) || s'.task.Failed?) && (s'.closed || s'.streamClosed)
      && s'.file.content == s.file.content && (a.Fetch? ==> !s'.task.Downloading?)
  {
    hide ProduceStep;
    if a.Produce? {
      ProduceFrame(c, s, a.n);
    }
  }

  lemma FailedStep(c: Config, s: State, a: Action)
    requires s.task.Failed? && !a.NewSession? && Step(c, s, a).Some?
    ensures Step(c, s, a).value.task.Failed? && Step(c, s, a).value.file.content == s.file.content
  {
    hide ProduceStep;
    if a.Produce? {
      ProduceFrame(c, s, a.n);
    }
  }

  lemma {:induction false} EndedWritesNothing(c: Config, s: State, run: seq<Action>)
    requires s.task.Failed? || (Opened(s.task) && (s.closed || s.streamClosed))
    requires WithinSession(run) && Run(c, s, run).Some?
    ensures Run(c, s, run).value.file.content == s.file.content
    decreases |run|
  {
    hide Step, Opened;
    if run != [] {
      assert run[0] in run;
      if s.task.Failed? {
        FailedStep(c, s, run[0]);
      } else {
        EndedStep(c, s, run[0]);
      }
      EndedWritesNothing(c, Step(c, s, run[0]).value, run[1..]);
    }
  }

  /** After an opened session's flag is raised, its stream closed or its task failed, no run of it changes the
      file. */
  lemma EndsStopTheDownload(c: Config, s: State, a: Action, run: seq<Action>)
    requires Opened(s.task) && (a.RaiseClosed? || a.ReaderClosesStream? || a.TaskFails?) && Step(c, s, a).Some?
    requires WithinSession(run) && Run(c, Step(c, s, a).value, run).Some?
    ensures Run(c, Step(c, s, a).value, run).value.file.content == s.file.content
  {
    hide Run;
    EndedWritesNothing(c, Step(c, s, a).value, run);
  }

  /** Closing is one step: the flag is raised right after the file is closed. */
  predicate ClosesAtOnce(run: seq<Action>) {
    forall i | 0 <= i < |run| && run[i] == CloseDisk :: i + 1 < |run| && run[i + 1] == RaiseClosed
  }

  /** The new tag is no shorter than the old one, in every session. */
  predicate LongTags(run: seq<Action>) {
    forall a | a in run && a.ParseEnds? :: a.replaceLen <= |a.tag|
  }

  ghost predicate Calm(s: State) {
    && s.replaceLen <= |s.tag| && s.record.prep >= 0 && s.file.prep >= 0
    && (s.task.SettingPrep? ==> s.prepSize >= 0)
    && (s.closeCalled ==> s.closed)
    && (s.closed && s.file.Live() && s.record.total > 0 ==> |s.file.content| == s.record.total)
  }

  predicate MovesFile(a: Action) {
    a.OpenDisk? || a.SetPrependSize? || a.WriteTag? || a.Drain? || a.Fetch? || a.NewSession?
  }

  lemma CalmFetchStep(c: Config, s: State, n: nat)
    requires Calm(s) && FetchStep(c, s, n).Some?
    ensures Calm(FetchStep(c, s, n).value)
  {
    hide FetchStep;
    FetchCases(c, s, n);
  }

  lemma CalmDrainStep(c: Config, s: State)
    requires Calm(s) && s.task.Draining?
    ensures Calm(DrainStep(c, s))
  {
    hide ReadPass;
  }

  lemma CalmFileStep(c: Config, s: State, a: Action)
    requires Inv(c, s) && Calm(s) && MovesFile(a) && Step(c, s, a).Some?
    ensures Calm(Step(c, s, a).value)
  {
    hide RecordOk, ContentOk, BufferOk, Virtual, From, Window, FlagsOk, FetchStep, DrainStep, ProduceStep;
    if a.Fetch? {
      CalmFetchStep(c, s, a.n);
    } else if a.Drain? {
      CalmDrainStep(c, s);
    }
  }

  /** The producer's steps leave all but its own side alone. */
  lemma ProduceFrame(c: Config, s: State, n: nat)
    requires ProduceStep(c, s, n).Some?
    ensures
      var s' := ProduceStep(c, s, n).value;
      s' == s.(producer := s'.producer, pos := s'.pos, buffer := s'.buffer, eof := s'.eof, notified := s'.notified)
  {
    hide AppendTo;
    match s.producer
    case Reading =>
    case Holding(_) =>
    case FirstCheck =>
    case SecondCheck =>
    case _ =>
  }

  lemma CalmProduceStep(c: Config, s: State, n: nat)
    requires Calm(s) && ProduceStep(c, s, n).Some?
    ensures Calm(ProduceStep(c, s, n).value)
  {
    hide ProduceStep;
    ProduceFrame(c, s, n);
  }

  lemma CalmStep(c: Config, s: State, a: Action)
    requires Inv(c, s) && Calm(s) && a != CloseDisk && Step(c, s, a).Some?
    requires a.ParseEnds? ==> a.replaceLen <= |a.tag|
    ensures Calm(Step(c, s, a).value)
  {
    hide Inv, ProduceStep, DrainStep, FetchStep, OpenDiskStep, From, Window, Opens;
    if MovesFile(a) {
      CalmFileStep(c, s, a);
    } else if a.Produce? {
      CalmProduceStep(c, s, a.n);
    }
  }

  /** If no step of the task can fall between lines 174 and 175, and new tags are no shorter than old ones,
      no session ever leaves a misleading record. */
  lemma {:induction false} AtomicCloseIsClean(c: Config, s: State, run: seq<Action>)
    requires Inv(c, s) && Calm(s) && ClosesAtOnce(run) && LongTags(run) && Run(c, s, run).Some?
    ensures Clean(c, s, run)
    decreases |run|
  {
    hide RecordOk, ContentOk, BufferOk, Virtual, From, Window;
    if run != [] {
      var s1 := Step(c, s, run[0]).value;
      assert forall i | 0 <= i < |run[1..]| :: run[1..][i] == run[i + 1];
      assert run[0] in run && LongTags(run[1..]);
      if run[0] == CloseDisk {
        var s2 := Step(c, s1, run[1]).value;
        assert forall i | 0 <= i < |run[2..]| :: run[2..][i] == run[i + 2];
        assert run[1..][1..] == run[2..];
        StepKeeps(c, s, CloseDisk);
        StepKeeps(c, s1, RaiseClosed);
        AtomicCloseIsClean(c, s2, run[2..]);
      } else {
        StepKeeps(c, s, run[0]);
        CalmStep(c, s, run[0]);
        AtomicCloseIsClean(c, s1, run[1..]);
      }
    }
  }

  // ----- The hand-over -----

  /** The task waits for a notification that the producer has already stopped without sending. */
  ghost predicate Stalled(s: State) {
    s.task.AwaitingStop? && s.producer.Done? && !s.notified && !s.eof
  }

  /** A stalled hand-over stays so: the song is never opened and no reader is ever answered. */
  lemma {:induction false} StallIsForever(c: Config, s: State, run: seq<Action>)
    requires Stalled(s) && Run(c, s, run).Some?
    ensures Stalled(Run(c, s, run).value)
    decreases |run|
  {
    if run != [] {
      var s' := Step(c, s, run[0]).value;
      assert Stalled(s');
      StallIsForever(c, s', run[1..]);
    }
  }

  /** Raising the flag between the producer's two reads of it stalls the hand-over at its next step. */
  lemma RaisedBetweenChecksStalls(c: Config, s: State)
    requires Reachable(c, s) && s.task.RaisingFlag? && s.producer.SecondCheck? && !s.notified
    ensures var s1 := Step(c, s, RaiseFlag).value;
            Step(c, s1, Produce(0)).Some? && Stalled(Step(c, s1, Produce(0)).value)
  {
    ReachableInv(c, s);
  }

  ghost predicate WillNotify(s: State) {
    s.metadataRead && (s.producer.SecondCheck? || s.producer.Done? ==> s.notified || s.eof)
  }

  lemma WillNotifyStep(c: Config, s: State, a: Action)
    requires WillNotify(s) && !a.NewSession? && Step(c, s, a).Some?
    ensures WillNotify(Step(c, s, a).value)
  {
    hide From, Window, Virtual, ReadPass, Opens, StartOffset;
    hide AppendTo, OpenFile, CloseFile, SetPrep, WriteFile, RecordAfterClose;
    match a
    case Produce(n) => assert ProduceStep(c, s, n).Some?;
    case OpenStream => assert OpenStreamStep(c, s).producer == s.producer;
    case OpenDisk => assert s.task.OpeningFile?;
    case Drain => assert DrainStep(c, s).producer == s.producer;
    case Fetch(n) => assert FetchStep(c, s, n).Some?;
    case _ =>
  }

  /** Raised anywhere else, the flag never stalls the session, whatever the threads do next. */
  lemma {:induction false} RaisedElsewhereNeverStalls(c: Config, s: State, run: seq<Action>)
    requires WillNotify(s) && WithinSession(run) && Run(c, s, run).Some?
    ensures !Stalled(Run(c, s, run).value)
    decreases |run|
  {
    if run != [] {
      assert run[0] in run;
      WillNotifyStep(c, s, run[0]);
      RaisedElsewhereNeverStalls(c, Step(c, s, run[0]).value, run[1..]);
    }
  }

  /** Exactly that interleaving stalls. */
  lemma StallsIffRaisedBetweenChecks(c: Config, s: State)
    requires Reachable(c, s) && s.task.RaisingFlag?
    ensures var s1 := Step(c, s, RaiseFlag).value;
            (exists run :: WithinSession(run) && Run(c, s1, run).Some? && Stalled(Run(c, s1, run).value))
            <==> s.producer.SecondCheck? && !s.notified
  {
    ReachableInv(c, s);
    var s1 := Step(c, s, RaiseFlag).value;
    if s.producer.SecondCheck? && !s.notified {
      RaisedBetweenChecksStalls(c, s);
      var run := [Produce(0)];
      assert run[1..] == [];
      assert Run(c, Step(c, s1, Produce(0)).value, []) == Some(Step(c, s1, Produce(0)).value);
      assert Run(c, s1, run) == Some(Step(c, s1, Produce(0)).value);
      assert WithinSession(run);
    } else {
      forall run | WithinSession(run) && Run(c, s1, run).Some?
        ensures !Stalled(Run(c, s1, run).value)
      {
        RaisedElsewhereNeverStalls(c, s1, run);
      }
    }
  }

  /** The session has been posted and its task has not ended. */
  predicate Running(t: Task) {
    !t.NotPosted? && !t.Finished? && !t.Stopped? && !t.Failed?
  }

  /** What the task and the producer do of themselves: not a close, not a new session, and no failure but the one that
      the task is told of while it waits. */
  predicate IsMove(s: State, a: Action) {
    match a
    case OpenStream => true
    case OpenDisk => true
    case Produce(_) => true
    case ParseEnds(_, _) => true
    case RaiseFlag => true
    case AppendStopped => true
    case SetPrependSize => true
    case WriteTag => true
    case Drain => true
    case Fetch(_) => true
    case TaskFails => s.task.AwaitingStop?
    case _ => false
  }

  function MoveOf(c: Config, s: State): Action {
    match s.task
    case OpeningStream => OpenStream
    case OpeningFile => OpenDisk
    case Parsing => ParseEnds([], 0)
    case RaisingFlag => RaiseFlag
    case AwaitingStop =>
      if s.notified then AppendStopped
      else if s.producer.Done? then TaskFails
      else Produce(1)
    case SettingPrep => SetPrependSize
    case WritingTag => WriteTag
    case Draining(_) => Drain
    case _ => Fetch(1)
  }

  /** The one stall: while a session's task runs, it or the producer can go on exactly when the hand-over has not
      stalled. */
  lemma MovesIffNotStalled(c: Config, s: State)
    requires Reachable(c, s) && Running(s.task)
    ensures (exists a :: IsMove(s, a) && Step(c, s, a).Some?) <==> !Stalled(s)
  {
    ReachableInv(c, s);
    if Stalled(s) {
      forall a | IsMove(s, a)
        ensures Step(c, s, a).None?
      {
        StalledCannotMove(c, s, a);
      }
    } else {
      MoveIsPossible(c, s);
      assert IsMove(s, MoveOf(c, s));
    }
  }

  lemma StalledCannotMove(c: Config, s: State, a: Action)
    requires Stalled(s) && IsMove(s, a)
    ensures Step(c, s, a).None?
  {
  }

  lemma MoveIsPossible(c: Config, s: State)
    requires Inv(c, s) && Running(s.task) && !Stalled(s)
    ensures Step(c, s, MoveOf(c, s)).Some?
  {
    hide RecordOk, ContentOk, BufferOk, Virtual, From, Window, OpenStreamStep, OpenDiskStep, DrainStep, AppendTo;
  }

  lemma EofStays(c: Config, s: State, a: Action)
    requires s.eof && s.producer.Done? && !a.NewSession? && !s.task.OpeningFile? && !BeforeOpen(s.task)
    requires Step(c, s, a).Some?
    ensures Step(c, s, a).value.eof && Step(c, s, a).value.producer.Done? && !BeforeOpen(Step(c, s, a).value.task)
  {
    hide From, Window, Virtual, ReadPass, Opens, StartOffset;
    hide AppendTo, OpenFile, CloseFile, SetPrep, WriteFile, RecordAfterClose;
    match a
    case Produce(_) =>
    case OpenStream =>
    case Drain => assert DrainStep(c, s).producer == s.producer;
    case Fetch(n) => assert FetchStep(c, s, n).Some?;
    case _ =>
  }

  lemma {:induction false} EofNeverStalls(c: Config, s: State, run: seq<Action>)
    requires s.eof && s.producer.Done? && !BeforeOpen(s.task) && WithinSession(run) && Run(c, s, run).Some?
    ensures !Stalled(Run(c, s, run).value)
    decreases |run|
  {
    hide Step, BeforeOpen;
    if run != [] {
      assert run[0] in run;
      EofStays(c, s, run[0]) by { NotOpening(s); }
      EofNeverStalls(c, Step(c, s, run[0]).value, run[1..]);
    }
  }

  lemma NotOpening(s: State)
    requires !BeforeOpen(s.task)
    ensures !s.task.OpeningFile?
  {
  }

  /** A stream that fails while it is being stored ends the input, and whenever it does, the hand-over does not
      stall. */
  lemma FailingStreamNeverStalls(c: Config, s: State, run: seq<Action>)
    requires Reachable(c, s) && s.producer.Reading? && FreshPhase(s.task) && WithinSession(run)
    ensures Step(c, s, ProducerFails).Some? && Step(c, s, ProducerFails).value.eof
    ensures Run(c, Step(c, s, ProducerFails).value, run).Some? ==>
      !Stalled(Run(c, Step(c, s, ProducerFails).value, run).value)
  {
    hide Run, Reachable;
    if Run(c, Step(c, s, ProducerFails).value, run).Some? {
      EofNeverStalls(c, Step(c, s, ProducerFails).value, run);
    }
  }

  // ----- Reading while the file grows -----

  /** `HttpStream::read`: an inclusive byte range clipped to the size, or nothing past the end
      (section 2.1 of RFC 7233). */
  function RemoteRead(uri: seq<byte>, offset: int, length: nat): seq<byte>
    requires length > 0
  {
    if offset < 0 || offset >= |uri| then []
    else
      var maxReadByte := Min(offset + length - 1, |uri| - 1);
      uri[offset..maxReadByte + 1]
  }

  /** The three branches of `read`; `sampled` is the size on disk taken before, `s` the state in which
      the bytes are fetched. */
  function ReadResult(c: Config, s: State, sampled: nat, start: nat, size: nat): seq<byte>
    requires size > 0
  {
    if start + size <= sampled then ReadFile(s.file, start, size)
    else if start < sampled then
      ReadFile(s.file, start, sampled - start) + RemoteRead(c.uri, sampled - s.prepSize, size - (sampled - start))
    else RemoteRead(c.uri, start - s.prepSize, size)
  }

  ghost predicate Opened(t: Task) {
    t.Downloading? || t.Finished? || t.Stopped?
  }

  /** Within a session an opened file only grows, and the sizes that readers use stay. */
  ghost predicate GrownFrom(s: State, s': State) {
    && (Opened(s'.task) || s'.task.Failed?)
    && s'.prepSize == s.prepSize && s'.tag == s.tag && s'.replaceLen == s.replaceLen
    && s'.file.isOpen && s.file.content <= s'.file.content && (s'.file.Live() ==> s.file.Live())
  }

  lemma GrowsByProduce(c: Config, s: State, n: nat)
    requires (Opened(s.task) || s.task.Failed?) && s.file.isOpen && ProduceStep(c, s, n).Some?
    ensures GrownFrom(s, ProduceStep(c, s, n).value)
  {
    hide ProduceStep;
    ProduceFrame(c, s, n);
  }

  lemma GrowsByStep(c: Config, s: State, a: Action)
    requires (Opened(s.task) || s.task.Failed?) && s.file.isOpen && !a.NewSession? && Step(c, s, a).Some?
    ensures GrownFrom(s, Step(c, s, a).value)
  {
    match a
    case Fetch(n) =>
    case Produce(n) => GrowsByProduce(c, s, n);
    case _ =>
  }

  lemma {:induction false} GrowsByRun(c: Config, s: State, run: seq<Action>)
    requires (Opened(s.task) || s.task.Failed?) && s.file.isOpen && WithinSession(run) && Run(c, s, run).Some?
    ensures GrownFrom(s, Run(c, s, run).value)
    decreases |run|
  {
    if run != [] {
      assert run[0] in run;
      GrowsByStep(c, s, run[0]);
      GrowsByRun(c, Step(c, s, run[0]).value, run[1..]);
    }
  }

  lemma RemoteIsVirtual(uri: seq<byte>, tag: seq<byte>, replaceLen: nat, at: nat, size: nat)
    requires |tag| <= at && size > 0
    ensures RemoteRead(uri, at - (|tag| - replaceLen), size) == Window(Virtual(uri, tag, replaceLen), at, size)
  {
    var offset := at - (|tag| - replaceLen);
    assert Window(uri, offset, size) == Window(From(uri, offset), 0, size);
    var v := Virtual(uri, tag, replaceLen);
    assert Window(v, at, size) == Window(From(v, at), 0, size);
  }

  lemma LocalIsVirtual(f: DiskFile, v: seq<byte>, start: nat, size: nat)
    requires f.Live() && f.content <= v && start + size <= |f.content|
    ensures ReadFile(f, start, size) == Window(v, start, size)
  {
    WindowOfPrefix(f.content, v, start, size);
    WindowLength(f.content, start, size);
    assert Window(f.content, start, size) + [] == Window(f.content, start, size);
  }

  lemma JoinedIsVirtual(uri: seq<byte>, tag: seq<byte>, replaceLen: nat, f: DiskFile, start: nat, sampled: nat,
      size: nat)
    requires f.Live() && f.content <= Virtual(uri, tag, replaceLen)
    requires |tag| <= sampled <= |f.content| && start < sampled < start + size
    ensures ReadFile(f, start, sampled - start) + RemoteRead(uri, sampled - (|tag| - replaceLen),
        size - (sampled - start))
            == Window(Virtual(uri, tag, replaceLen), start, size)
  {
    hide Window, ReadFile, RemoteRead, Virtual;
    var v := Virtual(uri, tag, replaceLen);
    LocalIsVirtual(f, v, start, sampled - start);
    RemoteIsVirtual(uri, tag, replaceLen, sampled, size - (sampled - start));
    WindowsJoin(v, start, sampled - start, size - (sampled - start));
  }

  lemma ReadIsVirtual(c: Config, s: State, sampled: nat, start: nat, size: nat)
    requires s.file.Live() && s.file.content <= Virtual(c.uri, s.tag, s.replaceLen)
    requires PrepKnown(s) && |s.tag| <= sampled <= |s.file.content| && size > 0
    ensures ReadResult(c, s, sampled, start, size) == Window(Virtual(c.uri, s.tag, s.replaceLen), start, size)
  {
    if start + size <= sampled {
      LocalIsVirtual(s.file, Virtual(c.uri, s.tag, s.replaceLen), start, size);
    } else if start < sampled {
      JoinedIsVirtual(c.uri, s.tag, s.replaceLen, s.file, start, sampled, size);
    } else {
      RemoteIsVirtual(c.uri, s.tag, s.replaceLen, start, size);
    }
  }

  /** A closed file gives no bytes of its own: only what is read remotely is right. */
  lemma ClosedReadIs(c: Config, s: State, sampled: nat, start: nat, size: nat)
    requires !s.file.Live() && PrepKnown(s) && |s.tag| <= sampled && size > 0
    ensures
      ReadResult(c, s, sampled, start, size) ==
      if start + size <= sampled then []
      else Window(Virtual(c.uri, s.tag, s.replaceLen), Max(start, sampled), start + size - Max(start, sampled))
  {
    hide Window, Virtual, RemoteRead;
    if start < sampled < start + size {
      RemoteIsVirtual(c.uri, s.tag, s.replaceLen, sampled, size - (sampled - start));
      assert ReadFile(s.file, start, sampled - start) == [];
    } else if start >= sampled {
      RemoteIsVirtual(c.uri, s.tag, s.replaceLen, start, size);
    }
  }

  lemma WindowBegins(v: seq<byte>, start: nat, size: nat, from: nat)
    requires start < from <= |v| && size > 0
    ensures |Window(v, start, size)| > if start + size <= from then 0 else |Window(v, from, start + size - from)|
  {
  }

  lemma RemoteJoins(uri: seq<byte>, offset: int, m: nat, n: nat)
    requires m > 0 && n > 0 && offset >= 0
    ensures RemoteRead(uri, offset, m + n) == RemoteRead(uri, offset, m) + RemoteRead(uri, offset + m, n)
    ensures |RemoteRead(uri, offset, m)| <= m
    ensures |RemoteRead(uri, offset, m)| < m ==> RemoteRead(uri, offset + m, n) == []
  {
  }

  lemma TagThenRest(uri: seq<byte>, tag: seq<byte>, replaceLen: nat, start: nat, size: nat)
    requires start < |tag| && size > 0
    ensures
      var k := Min(size, |tag| - start);
      && |Window(tag, start, k)| == k
      && Window(Virtual(uri, tag, replaceLen), start, size) ==
         Window(tag, start, k) + Window(Virtual(uri, tag, replaceLen), start + k, size - k)
  {
    hide Virtual, Window;
    var k, v := Min(size, |tag| - start), Virtual(uri, tag, replaceLen);
    TagBegins(uri, tag, replaceLen);
    WindowLength(tag, start, k);
    WindowOfPrefix(tag, v, start, k);
    WindowsJoin(v, start, k, size - k);
  }

  lemma TagBegins(uri: seq<byte>, tag: seq<byte>, replaceLen: nat)
    ensures tag <= Virtual(uri, tag, replaceLen)
  {
  }

  /** Whether a read is right for all bytes, from the size taken before it and whether the file is open when its bytes
      are fetched: nothing is read from a file that is closed, and, of a song closed before its tag was written,
      nothing of the tag. */
  predicate SafeRead(tagLen: nat, sampled: nat, live: bool, start: nat) {
    if sampled >= tagLen then live || start >= sampled else start >= tagLen
  }

  /** The remote file happens to have bytes of the tag where a read that begins in it looks for them. */
  predicate Coincides(uri: seq<byte>, tag: seq<byte>, prep: int, start: nat, size: nat)
    requires size > 0
  {
    && start < |tag|
    && var k := Min(size, |tag| - start);
       RemoteRead(uri, start - prep, k) == Window(tag, start, k)
  }

  lemma NeverBeforePrep(uri: seq<byte>, tag: seq<byte>, prep: int, start: nat, size: nat)
    requires size > 0 && start < prep
    ensures !Coincides(uri, tag, prep, start, size)
  {
  }

  lemma PrefixDecides<T>(a: seq<T>, b: seq<T>, c: seq<T>, d: seq<T>)
    requires |a| <= |c| && (|a| < |c| ==> b == []) && (a == c ==> b == d)
    ensures a + b == c + d <==> a == c
  {
    if |a| == |c| && a + b == c + d {
      assert a == (a + b)[..|a|] == (c + d)[..|c|] == c;
    }
  }

  lemma UntaggedRead(c: Config, s: State, start: nat, size: nat)
    requires PrepKnown(s) && start < |s.tag| && size > 0
    ensures
      ReadResult(c, s, 0, start, size) == Window(Virtual(c.uri, s.tag, s.replaceLen), start, size) <==>
      Coincides(c.uri, s.tag, s.prepSize, start, size)
  {
    hide Window, Virtual, RemoteRead;
    var tag, v, offset := s.tag, Virtual(c.uri, s.tag, s.replaceLen), start - s.prepSize;
    var k := Min(size, |tag| - start);
    TagThenRest(c.uri, tag, s.replaceLen, start, size);
    if offset < 0 {
      NothingRemote(c.uri, offset, size);
      NothingRemote(c.uri, offset, k);
    } else if k < size {
      RemoteJoins(c.uri, offset, k, size - k);
      RemoteIsVirtual(c.uri, tag, s.replaceLen, |tag|, size - k);
      PrefixDecides(RemoteRead(c.uri, offset, k), RemoteRead(c.uri, offset + k, size - k),
                    Window(tag, start, k), Window(v, start + k, size - k));
    } else {
      NoWindow(v, start + k);
      assert Window(tag, start, k) + [] == Window(tag, start, k);
    }
  }

  lemma NoWindow(v: seq<byte>, start: nat)
    ensures Window(v, start, 0) == []
  {
  }

  lemma NothingRemote(uri: seq<byte>, offset: int, size: nat)
    requires offset < 0 && size > 0
    ensures RemoteRead(uri, offset, size) == []
  {
  }

  lemma ReadIsRightWhen(c: Config, s: State, sampled: nat, start: nat, size: nat)
    requires s.file.content <= Virtual(c.uri, s.tag, s.replaceLen) && PrepKnown(s) && size > 0
    requires sampled <= |s.file.content| && (sampled >= |s.tag| || sampled == 0)
    ensures
      ReadResult(c, s, sampled, start, size) == Window(Virtual(c.uri, s.tag, s.replaceLen), start, size) <==>
      SafeRead(|s.tag|, sampled, s.file.Live(), start) ||
      (sampled < |s.tag| && Coincides(c.uri, s.tag, s.prepSize, start, size))
  {
    hide Window, Virtual, RemoteRead, ReadResult;
    var v := Virtual(c.uri, s.tag, s.replaceLen);
    if sampled >= |s.tag| {
      if s.file.Live() {
        ReadIsVirtual(c, s, sampled, start, size);
      } else {
        ClosedReadIs(c, s, sampled, start, size);
        if start < sampled {
          WindowBegins(v, start, size, sampled);
        }
      }
    } else if start >= |s.tag| {
      RemoteIsVirtual(c.uri, s.tag, s.replaceLen, start, size);
      ReadIsRemote(c, s, start, size);
    } else {
      UntaggedRead(c, s, start, size);
    }
  }

  lemma ReadIsRemote(c: Config, s: State, start: nat, size: nat)
    requires size > 0
    ensures ReadResult(c, s, 0, start, size) == RemoteRead(c.uri, start - s.prepSize, size)
  {
  }

  lemma OpenedSizes(c: Config, s: State)
    requires Inv(c, s) && Opened(s.task)
    ensures s.file.isOpen && s.file.total == |s.file.content| && (s.file.total >= |s.tag| || s.file.total == 0)
    ensures PrepKnown(s) && s.file.content <= Virtual(c.uri, s.tag, s.replaceLen)
  {
    hide RecordOk, BufferOk, FlagsOk, From, Window;
  }

  /** A read of an opened song returns the window of the virtual file, although the file may grow between
      taking its size and reading it, exactly when it is safe, or when, in a song closed before its tag was
      written, the remote bytes happen to be the tag's. Before the prepend size they never are. */
  lemma ReadIsRightIff(c: Config, s: State, run: seq<Action>, start: nat, size: nat)
    requires Reachable(c, s) && Opened(s.task) && WithinSession(run) && Run(c, s, run).Some? && size > 0
    ensures
      var s', sampled := Run(c, s, run).value, s.file.total;
      && (ReadResult(c, s', sampled, start, size) == Window(Virtual(c.uri, s.tag, s.replaceLen), start, size) <==>
            SafeRead(|s.tag|, sampled, s'.file.Live(), start) ||
            (sampled < |s.tag| && Coincides(c.uri, s.tag, s.prepSize, start, size)))
      && (start < s.prepSize ==> !Coincides(c.uri, s.tag, s.prepSize, start, size))
  {
    hide Inv, Reachable, Run, Window, Virtual, RemoteRead, ReadResult, SafeRead, Coincides, Opened;
    ReachableInv(c, s);
    OpenedSizes(c, s);
    GrowsByRun(c, s, run);
    SessionKeepsReachable(c, s, run);
    DiskIsPrefixOfVirtual(c, Run(c, s, run).value);
    ReadIsRightWhen(c, Run(c, s, run).value, s.file.total, start, size);
    if start < s.prepSize {
      NeverBeforePrep(c.uri, s.tag, s.prepSize, start, size);
    }
  }

  /** A song of these sizes, with a file that is open or closed when its bytes are fetched. */
  ghost predicate Situation(c: Config, s: State, uriLen: nat, tagLen: nat, replaceLen: nat, sampled: nat, live: bool) {
    && |c.uri| == uriLen && |s.tag| == tagLen && s.replaceLen == replaceLen && PrepKnown(s)
    && s.file.content <= Virtual(c.uri, s.tag, s.replaceLen) && sampled <= |s.file.content| && s.file.Live() == live
  }

  /** A song whose remote bytes are all zero, under a tag without a zero. */
  lemma ZerosUnderTag(uriLen: nat, tagLen: nat, replaceLen: nat, sampled: nat, live: bool) returns (c: Config, s: State)
    requires sampled <= tagLen + Max(0, uriLen - replaceLen)
    ensures Situation(c, s, uriLen, tagLen, replaceLen, sampled, live)
    ensures c.uri == seq(uriLen, _ => 0) && s.tag == seq(tagLen, _ => 1)
    ensures s.file.content == Virtual(c.uri, s.tag, replaceLen)
  {
    c := Config(seq(uriLen, _ => 0), 1, 0);
    var tag: seq<byte> := seq(tagLen, _ => 1);
    var content := Virtual(c.uri, tag, replaceLen);
    s := Fresh(c, NO_RECORD, content, tag, replaceLen).(
      prepSize := tagLen - replaceLen, file := DiskFile(true, !live, |content|, tagLen - replaceLen, content));
  }

  lemma UnsafeReadFails(c: Config, s: State, sampled: nat, start: nat, size: nat)
    requires PrepKnown(s) && s.file.content == Virtual(c.uri, s.tag, s.replaceLen) && sampled <= |s.file.content|
    requires c.uri == seq(|c.uri|, _ => 0) && s.tag == seq(|s.tag|, _ => 1)
    requires size > 0 && (sampled >= |s.tag| || sampled == 0) && !SafeRead(|s.tag|, sampled, s.file.Live(), start)
    ensures ReadResult(c, s, sampled, start, size) != Window(Virtual(c.uri, s.tag, s.replaceLen), start, size)
  {
    hide Virtual, ReadResult;
    ReadIsRightWhen(c, s, sampled, start, size);
    if sampled < |s.tag| {
      var k := Min(size, |s.tag| - start);
      assert Window(s.tag, start, k)[0] == 1;
      var got := RemoteRead(c.uri, start - s.prepSize, k);
      assert forall i | 0 <= i < |got| :: got[i] == 0;
    }
  }

  /** By sizes: a read is right for all songs of given sizes exactly when it is safe. */
  lemma ReadRightIffSafe(uriLen: nat, tagLen: nat, replaceLen: nat, sampled: nat, live: bool, start: nat, size: nat)
    requires size > 0 && (sampled >= tagLen || sampled == 0) && sampled <= tagLen + Max(0, uriLen - replaceLen)
    ensures
      (forall c, s | Situation(c, s, uriLen, tagLen, replaceLen, sampled, live) ::
        ReadResult(c, s, sampled, start, size) == Window(Virtual(c.uri, s.tag, s.replaceLen), start, size)) <==>
      SafeRead(tagLen, sampled, live, start)
  {
    hide Window, Virtual, RemoteRead, ReadResult, SafeRead, Coincides;
    if SafeRead(tagLen, sampled, live, start) {
      forall c, s | Situation(c, s, uriLen, tagLen, replaceLen, sampled, live)
        ensures ReadResult(c, s, sampled, start, size) == Window(Virtual(c.uri, s.tag, s.replaceLen), start, size)
      {
        ReadIsRightWhen(c, s, sampled, start, size);
      }
    } else {
      var c, s := ZerosUnderTag(uriLen, tagLen, replaceLen, sampled, live);
      UnsafeReadFails(c, s, sampled, start, size);
    }
  }

  /** A file that stays open is always read right. */
  lemma ReadReturnsWindow(c: Config, s: State, run: seq<Action>, start: nat, size: nat)
    requires Reachable(c, s) && Opened(s.task) && WithinSession(run) && Run(c, s, run).Some? && size > 0
    requires Run(c, s, run).value.file.Live()
    ensures var s' := Run(c, s, run).value;
            ReadResult(c, s', s.file.total, start, size) == Window(Virtual(c.uri, s.tag, s.replaceLen), start, size)
  {
    hide Inv, Reachable, Run, Window, Virtual, RemoteRead, ReadResult;
    ReachableInv(c, s);
    OpenedSizes(c, s);
    ReadIsRightIff(c, s, run, start, size);
    GrowsByRun(c, s, run);
    LiveHasTag(c, s);
  }

  /** A close between taking the size and reading passes off the bytes behind the file as those from
      `start` on. */
  lemma ReadAcrossCloseIsWrong(c: Config, s: State, start: nat, size: nat)
    requires Reachable(c, s) && Opened(s.task) && s.file.Live() && start < s.file.total < start + size
    ensures
      var v := Virtual(c.uri, s.tag, s.replaceLen);
      && Run(c, s, [CloseDisk]).Some?
      && var r := ReadResult(c, Run(c, s, [CloseDisk]).value, s.file.total, start, size);
         r == Window(v, s.file.total, start + size - s.file.total) != Window(v, start, size)
  {
    hide Window, Virtual, Inv, Reachable, RemoteRead;
    ReachableInv(c, s);
    OpenedSizes(c, s);
    var s' := Step(c, s, CloseDisk).value;
    assert [CloseDisk][1..] == [] && Run(c, s', []) == Some(s');
    LiveHasTag(c, s);
    ClosedReadIs(c, s', s.file.total, start, size);
    WindowBegins(Virtual(c.uri, s.tag, s.replaceLen), start, size, s.file.total);
  }

  lemma LiveHasTag(c: Config, s: State)
    requires Inv(c, s) && Opened(s.task) && s.file.Live()
    ensures |s.tag| <= |s.file.content|
  {
    hide RecordOk, BufferOk, FlagsOk, From, Window, Virtual, ContentOk;
  }

  lemma {:induction false} SessionKeepsReachable(c: Config, s: State, run: seq<Action>)
    requires Reachable(c, s) && WithinSession(run) && Run(c, s, run).Some?
    ensures Reachable(c, Run(c, s, run).value)
    decreases |run|
  {
    if run != [] {
      assert run[0] in run;
      ReachableStep(c, s, run[0]);
      SessionKeepsReachable(c, Step(c, s, run[0]).value, run[1..]);
    }
  }
}
