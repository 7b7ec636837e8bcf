/** The handle table of opened songs (src/mp3core/FileManager.h): handles of one song share a
    processor, which must close with its last handle. */
module FileManagers {
  import opened Bytes

  type Song = nat
  type Handle = nat

  /** What a handle reads from: a reader of a finished file, its own; or a processor, perhaps shared.
      Each object is told apart by the handle whose open created it. */
  datatype Source = CachedReader(creator: Handle) | Processor(song: Song, creator: Handle)

  /** `ReadMapEntry` */
  datatype Entry = Entry(processor: Option<Source>, usages: map<Source, nat>, ids: map<Handle, Source>)

  /** The tables, the counter that hands out handles, and the sources that have been closed. */
  datatype Manager = Manager(entries: map<Song, Entry>, songs: map<Handle, Song>, nextId: Handle, closed: set<Source>)

  const NO_ENTRY := Entry(None, map[], map[])
  /** What `ManagerIdGenerator` starts from */
  const FIRST: Handle := 100

  const EMPTY := Manager(map[], map[], FIRST, {})

  function EntryOf(m: Manager, song: Song): Entry {
    if song in m.entries then m.entries[song] else NO_ENTRY
  }

  /** `usages[source]`, zero when absent */
  function Usage(e: Entry, source: Source): nat {
    if source in e.usages then e.usages[source] else 0
  }

  /** The source of a new handle; `inCache` says whether the file on disk is complete. */
  function SourceOf(e: Entry, song: Song, id: Handle, inCache: bool): Source {
    if inCache then CachedReader(id)
    else if e.processor.Some? then e.processor.value
    else Processor(song, id)
  }

  function OpenEntry(e: Entry, song: Song, id: Handle, inCache: bool): Entry {
    var source := SourceOf(e, song, id, inCache);
    if inCache then Entry(None, e.usages, e.ids[id := source])
    else Entry(Some(source), e.usages[source := Usage(e, source) + 1], e.ids[id := source])
  }

  function OpenStep(m: Manager, song: Song, inCache: bool): Manager {
    Manager(m.entries[song := OpenEntry(EntryOf(m, song), song, m.nextId, inCache)],
            m.songs[m.nextId := song], m.nextId + 1, m.closed)
  }

  /** Where an open throws: asking the cache for the file's name, making the reader of a cached file, or
      making the processor of another. */
  datatype FailurePoint = AtName | AtReader | AtProcessor

  /** An open that shares a processor makes nothing that could throw. */
  predicate CanFail(m: Manager, song: Song, at: FailurePoint) {
    at.AtProcessor? ==> EntryOf(m, song).processor.None?
  }

  /** The tables as an open leaves them when it throws: the handle has a song, no entry lists it, and by the
      time the source is made the song has an entry. */
  function Abandoned(m: Manager, song: Song, at: FailurePoint): Manager {
    var entries := match at
      case AtName => m.entries
      case AtReader => m.entries[song := EntryOf(m, song).(processor := None)]
      case AtProcessor => m.entries[song := EntryOf(m, song)];
    m.(entries := entries, songs := m.songs[m.nextId := song], nextId := m.nextId + 1)
  }

  function CloseEntry(e: Entry, id: Handle): Entry
    requires id in e.ids
  {
    var source := e.ids[id];
    Entry(e.processor,
          if Usage(e, source) <= 1 then e.usages else e.usages[source := Usage(e, source) - 1],
          e.ids - {id})
  }

  predicate ClosesSource(e: Entry, id: Handle)
    requires id in e.ids
  {
    Usage(e, e.ids[id]) <= 1
  }

  /** The sources closed once the handle has been let go. */
  function ClosedBy(e: Entry, id: Handle, closed: set<Source>): set<Source>
    requires id in e.ids
  {
    if ClosesSource(e, id) then closed + {e.ids[id]} else closed
  }

  /** An entry left without handles is dropped. */
  function PutBack(entries: map<Song, Entry>, song: Song, e: Entry): map<Song, Entry> {
    if |e.ids| == 0 then entries - {song} else entries[song := e]
  }

  /** `ids.find(id)->second` is dereferenced unchecked when the song of a known handle has an entry. */
  predicate CloseIsDefined(m: Manager, id: Handle) {
    id in m.songs && m.songs[id] in m.entries ==> id in m.entries[m.songs[id]].ids
  }

  /** `closeNoLock`; a handle that is not known is left alone */
  function CloseStep(m: Manager, id: Handle): Manager
    requires CloseIsDefined(m, id)
  {
    if id !in m.songs then m
    else
      var song := m.songs[id];
      if song !in m.entries then m.(songs := m.songs - {id})
      else
        var e := m.entries[song];
        Manager(PutBack(m.entries, song, CloseEntry(e, id)), m.songs - {id}, m.nextId, ClosedBy(e, id, m.closed))
  }

  /** An open that throws closes its own handle first. */
  function OpenFails(m: Manager, song: Song, at: FailurePoint): Option<Manager> {
    var m' := Abandoned(m, song, at);
    if CloseIsDefined(m', m.nextId) then Some(CloseStep(m', m.nextId)) else None
  }

  predicate Known(m: Manager, id: Handle) {
    id in m.songs && Lists(m.entries, m.songs[id], id)
  }

  function SourceFor(m: Manager, id: Handle): Source
    requires Known(m, id)
  {
    m.entries[m.songs[id]].ids[id]
  }

  // ----- The invariant -----

  /** The handles that share a source. */
  function Sharing(ids: map<Handle, Source>, source: Source): set<Handle> {
    set id | id in ids && ids[id] == source
  }

  /** The handle's source belongs to its song; a processor's usage count is the number of
      its handles; while the entry names a processor, every handle uses it. */
  ghost predicate HandleOk(e: Entry, song: Song, next: Handle, id: Handle)
    requires id in e.ids
  {
    var source := e.ids[id];
    && id < next && source.creator < next
    && (if source.Processor? then source.song == song && Usage(e, source) == |Sharing(e.ids, source)|
        else source.creator == id && Usage(e, source) == 0)
    && (e.processor.Some? ==> source == e.processor.value && source.Processor?)
  }

  ghost predicate EntryOk(e: Entry, song: Song, next: Handle) {
    && (forall id | id in e.ids :: HandleOk(e, song, next, id))
    && (forall source: Source | source.creator >= next :: Usage(e, source) == 0)
  }

  ghost predicate EntriesOk(entries: map<Song, Entry>, next: Handle) {
    forall song | song in entries :: EntryOk(entries[song], song, next) && |entries[song].ids| > 0
  }

  predicate Lists(entries: map<Song, Entry>, song: Song, id: Handle) {
    song in entries && id in entries[song].ids
  }

  /** The two tables list the same handles under the same songs. */
  ghost predicate TablesAgree(entries: map<Song, Entry>, songs: map<Handle, Song>, next: Handle) {
    && (forall song, id | Lists(entries, song, id) :: id in songs && songs[id] == song)
    && (forall id | id in songs :: id < next && Lists(entries, songs[id], id))
  }

  ghost predicate CreatedBefore(sources: set<Source>, next: Handle) {
    forall source | source in sources :: source.creator < next
  }

  ghost predicate Inv(m: Manager) {
    && EntriesOk(m.entries, m.nextId)
    && TablesAgree(m.entries, m.songs, m.nextId)
    && CreatedBefore(m.closed, m.nextId)
  }

  /** The open would create a processor for a song that already has open handles. */
  predicate Intrudes(m: Manager, song: Song, inCache: bool) {
    !inCache && song in m.entries && m.entries[song].processor.None?
  }

  // ----- Opening -----

  lemma SharingInsert(ids: map<Handle, Source>, id: Handle, source: Source, other: Source)
    requires id !in ids
    ensures Sharing(ids[id := source], other) == if other == source then Sharing(ids, other) + {id}
        else Sharing(ids, other)
  {
  }

  lemma SharingRemove(ids: map<Handle, Source>, id: Handle, other: Source)
    requires id in ids
    ensures Sharing(ids - {id}, other) == Sharing(ids, other) - {id}
  {
  }

  lemma Someone(e: Entry) returns (id: Handle)
    requires |e.ids| > 0
    ensures id in e.ids
  {
    id :| id in e.ids;
  }

  lemma OpenReaderKeeps(e: Entry, song: Song, id: Handle, other: Handle)
    requires EntryOk(e, song, id) && id !in e.ids && (other == id || other in e.ids)
    ensures HandleOk(OpenEntry(e, song, id, true), song, id + 1, other)
  {
    if other != id {
      assert HandleOk(e, song, id, other);
      SharingInsert(e.ids, id, CachedReader(id), e.ids[other]);
    }
  }

  lemma OpenProcessorKeeps(e: Entry, song: Song, id: Handle, other: Handle)
    requires EntryOk(e, song, id) && id !in e.ids && (other == id || other in e.ids)
    requires |e.ids| > 0 <==> e.processor.Some?
    ensures HandleOk(OpenEntry(e, song, id, false), song, id + 1, other)
  {
    var p := SourceOf(e, song, id, false);
    SharingInsert(e.ids, id, p, p);
    if e.processor.Some? {
      var sharer := Someone(e);
      assert HandleOk(e, song, id, sharer);
      if other != id {
        assert HandleOk(e, song, id, other);
      }
    } else {
      assert Sharing(e.ids, p) == {};
    }
  }

  lemma OpenEntryKeeps(e: Entry, song: Song, id: Handle, inCache: bool)
    requires EntryOk(e, song, id) && id !in e.ids
    requires !inCache ==> (|e.ids| > 0 <==> e.processor.Some?)
    ensures EntryOk(OpenEntry(e, song, id, inCache), song, id + 1)
    ensures |OpenEntry(e, song, id, inCache).ids| > 0
  {
    var e' := OpenEntry(e, song, id, inCache);
    assert id in e'.ids;
    forall other | other in e'.ids
      ensures HandleOk(e', song, id + 1, other)
    {
      if inCache {
        OpenReaderKeeps(e, song, id, other);
      } else {
        OpenProcessorKeeps(e, song, id, other);
      }
    }
    if !inCache && e.processor.Some? {
      var sharer := Someone(e);
      assert HandleOk(e, song, id, sharer);
    }
  }

  lemma EntryOkLater(e: Entry, song: Song, next: Handle)
    requires EntryOk(e, song, next)
    ensures EntryOk(e, song, next + 1)
  {
    forall id | id in e.ids
      ensures HandleOk(e, song, next + 1, id)
    {
      assert HandleOk(e, song, next, id);
    }
  }

  lemma EntriesOkLater(entries: map<Song, Entry>, next: Handle)
    requires EntriesOk(entries, next)
    ensures EntriesOk(entries, next + 1)
  {
    hide EntryOk;
    forall song | song in entries
      ensures EntryOk(entries[song], song, next + 1)
    {
      EntryOkLater(entries[song], song, next);
    }
  }

  lemma SetEntryKeeps(entries: map<Song, Entry>, song: Song, e: Entry, next: Handle)
    requires EntriesOk(entries, next) && EntryOk(e, song, next) && |e.ids| > 0
    ensures EntriesOk(entries[song := e], next)
  {
    hide EntryOk;
  }

  lemma OpenTablesAgree(entries: map<Song, Entry>, songs: map<Handle, Song>, song: Song, e: Entry, id: Handle)
    requires TablesAgree(entries, songs, id)
    requires forall other :: other in e.ids <==> Lists(entries, song, other) || other == id
    ensures TablesAgree(entries[song := e], songs[id := song], id + 1)
  {
    var entries' := entries[song := e];
    forall other, handle | Lists(entries', other, handle)
      ensures handle in songs[id := song] && songs[id := song][handle] == other
    {
      assert Lists(entries, other, handle) || (other == song && handle == id);
    }
    var songs' := songs[id := song];
    forall handle | handle in songs'
      ensures handle < id + 1 && Lists(entries', songs'[handle], handle)
    {
      if handle != id {
        assert Lists(entries, songs[handle], handle);
      }
    }
  }

  lemma NextIsUnlisted(m: Manager, song: Song)
    requires TablesAgree(m.entries, m.songs, m.nextId)
    ensures m.nextId !in EntryOf(m, song).ids
    ensures forall id :: id in EntryOf(m, song).ids <==> Lists(m.entries, song, id)
  {
    assert !Lists(m.entries, song, m.nextId);
  }

  lemma FoundEntryOk(m: Manager, song: Song)
    requires EntriesOk(m.entries, m.nextId)
    ensures EntryOk(EntryOf(m, song), song, m.nextId)
    ensures song in m.entries <==> |EntryOf(m, song).ids| > 0
  {
    if song in m.entries {
      hide EntryOk;
    }
  }

  lemma OpenKeeps(m: Manager, song: Song, inCache: bool)
    requires Inv(m) && !Intrudes(m, song, inCache)
    ensures Inv(OpenStep(m, song, inCache))
  {
    hide EntryOk, Usage, HandleOk, SourceOf, EntriesOk, Lists, OpenEntry;
    var e := EntryOf(m, song);
    var e' := OpenEntry(e, song, m.nextId, inCache);
    NextIsUnlisted(m, song);
    FoundEntryOk(m, song);
    OpenEntryKeeps(e, song, m.nextId, inCache);
    EntriesOkLater(m.entries, m.nextId);
    SetEntryKeeps(m.entries, song, e', m.nextId + 1);
    OpenEntryLists(e, song, m.nextId, inCache);
    OpenTablesAgree(m.entries, m.songs, song, e', m.nextId);
  }

  lemma OpenEntryLists(e: Entry, song: Song, id: Handle, inCache: bool)
    ensures forall other :: other in OpenEntry(e, song, id, inCache).ids <==> other in e.ids || other == id
  {
  }

  /** An open that throws is undefined exactly when the song has an entry by then: it had one before, or
      the name was already known. Otherwise nothing but the counter changes. */
  lemma FailedOpenIsDefinedIff(m: Manager, song: Song, at: FailurePoint)
    requires Inv(m) && CanFail(m, song, at)
    ensures
      var end := Apply(m, FailedOpen(song, at));
      && (end.None? <==> !at.AtName? || song in m.entries)
      && (end.Some? ==> end.value == m.(nextId := m.nextId + 1))
  {
    hide EntriesOk;
    NextIsUnlisted(m, song);
    assert m.nextId !in m.songs;
    assert m.songs[m.nextId := song] - {m.nextId} == m.songs;
  }

  lemma FailedOpenKeeps(m: Manager, song: Song)
    requires Inv(m)
    ensures Inv(m.(nextId := m.nextId + 1))
  {
    hide EntryOk, Lists;
    EntriesOkLater(m.entries, m.nextId);
  }

  // ----- Closing -----

  /** Closing the last handle of a source leaves it to nobody. */
  lemma CloseEntryKeeps(e: Entry, song: Song, next: Handle, id: Handle)
    requires EntryOk(e, song, next) && id in e.ids
    ensures EntryOk(CloseEntry(e, id), song, next)
    ensures ClosesSource(e, id) <==> Sharing(e.ids, e.ids[id]) == {id}
  {
    var e', source := CloseEntry(e, id), e.ids[id];
    assert HandleOk(e, song, next, id);
    assert id in Sharing(e.ids, source);
    SharingRemove(e.ids, id, source);
    assert |Sharing(e'.ids, source)| == |Sharing(e.ids, source)| - 1;
    forall other | other in e'.ids
      ensures HandleOk(e', song, next, other)
    {
      assert HandleOk(e, song, next, other);
      SharingRemove(e.ids, id, e.ids[other]);
      if e.ids[other] == source {
        assert other in Sharing(e'.ids, source);
      }
    }
  }

  lemma CloseTablesAgree(entries: map<Song, Entry>, songs: map<Handle, Song>, next: Handle, song: Song, e: Entry,
      id: Handle)
    requires TablesAgree(entries, songs, next) && Lists(entries, song, id)
    requires e.ids == entries[song].ids - {id}
    ensures TablesAgree(PutBack(entries, song, e), songs - {id}, next)
  {
    var entries' := PutBack(entries, song, e);
    forall other, handle
      ensures Lists(entries', other, handle) <==> Lists(entries, other, handle) && handle != id
    {
      if Lists(entries, other, handle) && other != song {
        assert songs[id] == song && songs[handle] == other;
      }
    }
  }

  lemma PutBackKeeps(entries: map<Song, Entry>, song: Song, e: Entry, next: Handle)
    requires EntriesOk(entries - {song}, next) && EntryOk(e, song, next)
    ensures EntriesOk(PutBack(entries, song, e), next)
  {
    hide EntryOk;
    if |e.ids| > 0 {
      SetEntryKeeps(entries - {song}, song, e, next);
      assert entries[song := e] == (entries - {song})[song := e];
    }
  }

  lemma CloseKeeps(m: Manager, id: Handle)
    requires Inv(m)
    ensures CloseIsDefined(m, id) && Inv(CloseStep(m, id))
  {
    if id in m.songs {
      hide EntryOk, Usage, HandleOk, ClosesSource, EntriesOk;
      var song := m.songs[id];
      assert Lists(m.entries, song, id);
      var e := m.entries[song];
      CloseEntryKeeps(e, song, m.nextId, id);
      CloseTablesAgree(m.entries, m.songs, m.nextId, song, CloseEntry(e, id), id);
      PutBackKeeps(m.entries, song, CloseEntry(e, id), m.nextId);
    }
  }

  // ----- Runs -----

  /** A read that throws is two operations. The processor closes itself, whoever shares it, while the reader holds
      no lock; the reader got it from a handle of that time, which may be closed by now. Later the reader
      closes that handle. */
  datatype Op =
    | Open(song: Song, inCache: bool)
    | FailedOpen(song: Song, at: FailurePoint)
    | Close(id: Handle)
    | FailingRead(source: Source)

  /** None where the code's behaviour is undefined */
  function Apply(m: Manager, op: Op): Option<Manager> {
    match op
    case Open(song, inCache) => Some(OpenStep(m, song, inCache))
    case FailedOpen(song, at) => OpenFails(m, song, at)
    case Close(id) => if CloseIsDefined(m, id) then Some(CloseStep(m, id)) else None
    case FailingRead(source) => Some(m.(closed := m.closed + {source}))
  }

  function Run(m: Manager, ops: seq<Op>): Option<Manager>
    decreases |ops|
  {
    if ops == [] then Some(m)
    else
      var next := Apply(m, ops[0]);
      if next.None? then None else Run(next.value, ops[1..])
  }

  /** No open intrudes, and none fails when its song has an entry. Reads fail only of processors that opens have
      handed out. */
  predicate Mannered(m: Manager, op: Op, past: Past) {
    match op
    case Open(song, inCache) => !Intrudes(m, song, inCache)
    case FailedOpen(song, at) => at.AtName? && song !in m.entries
    case Close(_) => true
    case FailingRead(source) => source.Processor? && source in past.made
  }

  predicate RunIsMannered(m: Manager, ops: seq<Op>, past: Past)
    decreases |ops|
  {
    ops == [] ||
    (&& Mannered(m, ops[0], past)
     && (Apply(m, ops[0]).Some? ==> RunIsMannered(Apply(m, ops[0]).value, ops[1..], Noted(m, ops[0], past))))
  }

  /** The open handles, of any song, that read from a source. */
  function Users(m: Manager, source: Source): set<Handle> {
    set id | id in m.songs && Known(m, id) && SourceFor(m, id) == source
  }

  /** What has happened: the sources that opens have handed out, and the processors of which a read failed. */
  datatype Past = Past(made: set<Source>, failed: set<Source>)

  const NOTHING := Past({}, {})

  function Noted(m: Manager, op: Op, past: Past): Past {
    match op
    case Open(song, inCache) => past.(made := past.made + {SourceOf(EntryOf(m, song), song, m.nextId, inCache)})
    case FailingRead(source) => past.(failed := past.failed + {source})
    case _ => past
  }

  function PastOf(m: Manager, ops: seq<Op>, past: Past): Past
    requires Run(m, ops).Some?
    decreases |ops|
  {
    if ops == [] then past else PastOf(Apply(m, ops[0]).value, ops[1..], Noted(m, ops[0], past))
  }

  /** Of the sources handed out, the closed ones are those without a handle and those that failed. */
  ghost predicate NoneLeaks(m: Manager, past: Past) {
    forall source | source in past.made :: source in m.closed <==> Users(m, source) == {} || source in past.failed
  }

  ghost predicate AllMade(m: Manager, made: set<Source>) {
    forall id | Known(m, id) :: SourceFor(m, id) in made
  }

  ghost predicate Good(m: Manager, past: Past) {
    && Inv(m) && NoneLeaks(m, past)
    && AllMade(m, past.made) && CreatedBefore(past.made, m.nextId) && past.failed <= m.closed
  }

  lemma EmptyIsGood()
    ensures Good(EMPTY, NOTHING)
  {
  }

  lemma KnownIs(m: Manager, id: Handle)
    requires Inv(m)
    ensures Known(m, id) <==> id in m.songs
  {
    hide EntriesOk, Lists;
  }

  /** All users of a source have its song, so the entry's own counting sees them all. */
  lemma UsersAreSharing(m: Manager, id: Handle)
    requires Inv(m) && id in m.songs
    ensures Known(m, id)
    ensures Users(m, SourceFor(m, id)) == Sharing(m.entries[m.songs[id]].ids, SourceFor(m, id))
  {
    KnownIs(m, id);
    var source := SourceFor(m, id);
    KnownOk(m, id);
    forall other
      ensures other in Users(m, source) <==> other in Sharing(m.entries[m.songs[id]].ids, source)
    {
      if other in Users(m, source) {
        KnownOk(m, other);
      }
      if other in Sharing(m.entries[m.songs[id]].ids, source) {
        assert Lists(m.entries, m.songs[id], other);
      }
    }
  }

  lemma KnownOk(m: Manager, id: Handle)
    requires Inv(m) && Known(m, id)
    ensures SourceFor(m, id).creator < m.nextId
    ensures if SourceFor(m, id).Processor? then SourceFor(m, id).song == m.songs[id] else SourceFor(m, id).creator == id
    ensures SourceFor(m, id).Processor? ==>
      Usage(m.entries[m.songs[id]], SourceFor(m, id)) == |Sharing(m.entries[m.songs[id]].ids, SourceFor(m, id))|
  {
    assert EntryOk(m.entries[m.songs[id]], m.songs[id], m.nextId);
    assert HandleOk(m.entries[m.songs[id]], m.songs[id], m.nextId, id);
  }

  /** A live handle has a source; a processor's count is the number of its handles. */
  lemma UsagesCountHandles(m: Manager, id: Handle)
    requires Inv(m) && id in m.songs
    ensures Known(m, id)
    ensures SourceFor(m, id).Processor? ==>
      Usage(m.entries[m.songs[id]], SourceFor(m, id)) == |Users(m, SourceFor(m, id))|
  {
    UsersAreSharing(m, id);
    KnownOk(m, id);
  }

  /** Closing a handle closes its source exactly when nobody else uses it, and no other source. */
  lemma CloseClosesWithTheLast(m: Manager, id: Handle)
    requires Inv(m) && id in m.songs
    ensures Known(m, id) && CloseIsDefined(m, id)
    ensures CloseStep(m, id).closed ==
            if Users(m, SourceFor(m, id)) == {id} then m.closed + {SourceFor(m, id)} else m.closed
  {
    UsersAreSharing(m, id);
    var song := m.songs[id];
    CloseEntryKeeps(m.entries[song], song, m.nextId, id);
  }

  lemma CloseUsers(m: Manager, id: Handle, source: Source)
    requires Inv(m) && id in m.songs
    ensures CloseIsDefined(m, id) && Users(CloseStep(m, id), source) == Users(m, source) - {id}
  {
    KnownIs(m, id);
    var m' := CloseStep(m, id);
    forall other
      ensures other in Users(m', source) <==> other in Users(m, source) && other != id
    {
      KnownIs(m, other);
      CloseLists(m, id, other);
    }
  }

  lemma CloseLists(m: Manager, id: Handle, other: Handle)
    requires Known(m, id)
    ensures CloseIsDefined(m, id)
    ensures Known(CloseStep(m, id), other) <==> Known(m, other) && other != id
    ensures Known(m, other) && other != id ==> SourceFor(CloseStep(m, id), other) == SourceFor(m, other)
  {
    hide CloseEntry, ClosedBy;
    var song := m.songs[id];
    var e := m.entries[song];
    assert CloseEntry(e, id).ids == e.ids - {id} by { ClosedIds(e, id); }
  }

  lemma ClosedIds(e: Entry, id: Handle)
    requires id in e.ids
    ensures CloseEntry(e, id).ids == e.ids - {id}
  {
  }

  lemma OpenUsers(m: Manager, song: Song, inCache: bool, source: Source)
    requires Inv(m)
    ensures Users(OpenStep(m, song, inCache), source) ==
      if source == SourceOf(EntryOf(m, song), song, m.nextId, inCache) then Users(m, source) + {m.nextId}
          else Users(m, source)
  {
    hide Known, SourceFor, OpenStep, SourceOf, EntryOf, Inv;
    var m' := OpenStep(m, song, inCache);
    NextIsNew(m, song, inCache);
    forall other | other != m.nextId
      ensures other in Users(m', source) <==> other in Users(m, source)
    {
      OpenSongs(m, song, inCache, other);
      OpenLists(m, song, inCache, other);
    }
  }

  lemma OpenSongs(m: Manager, song: Song, inCache: bool, other: Handle)
    requires other != m.nextId
    ensures other in OpenStep(m, song, inCache).songs <==> other in m.songs
  {
  }

  lemma NextIsNew(m: Manager, song: Song, inCache: bool)
    requires Inv(m)
    ensures m.nextId !in m.songs && !Known(m, m.nextId)
    ensures Known(OpenStep(m, song, inCache), m.nextId) && m.nextId in OpenStep(m, song, inCache).songs
    ensures SourceFor(OpenStep(m, song, inCache), m.nextId) == SourceOf(EntryOf(m, song), song, m.nextId, inCache)
  {
    hide SourceOf, Usage, OpenEntry, EntriesOk;
    OpenIds(EntryOf(m, song), song, m.nextId, inCache);
  }

  lemma OpenLists(m: Manager, song: Song, inCache: bool, other: Handle)
    requires other != m.nextId
    ensures Known(OpenStep(m, song, inCache), other) <==> Known(m, other)
    ensures Known(m, other) ==> SourceFor(OpenStep(m, song, inCache), other) == SourceFor(m, other)
  {
    hide SourceOf, Usage, OpenEntry;
    OpenIds(EntryOf(m, song), song, m.nextId, inCache);
  }

  lemma OpenIds(e: Entry, song: Song, id: Handle, inCache: bool)
    ensures OpenEntry(e, song, id, inCache).ids == e.ids[id := SourceOf(e, song, id, inCache)]
  {
  }

  lemma OpenLeaksNone(m: Manager, song: Song, inCache: bool, past: Past)
    requires Good(m, past) && !Intrudes(m, song, inCache)
    ensures NoneLeaks(OpenStep(m, song, inCache), Noted(m, Open(song, inCache), past))
    ensures AllMade(OpenStep(m, song, inCache), Noted(m, Open(song, inCache), past).made)
  {
    hide Inv, Users, OpenStep, SourceOf, EntryOf, Intrudes, Known;
    var m', new' := OpenStep(m, song, inCache), SourceOf(EntryOf(m, song), song, m.nextId, inCache);
    OpenChanges(m, song, inCache);
    OpenedSource(m, song, inCache, past);
    forall source | source in past.made + {new'}
      ensures source in m'.closed <==> Users(m', source) == {} || source in past.failed
    {
      OpenUsers(m, song, inCache, source);
    }
    forall id | Known(m', id)
      ensures SourceFor(m', id) in past.made + {new'}
    {
      if id == m.nextId {
        NextIsNew(m, song, inCache);
      } else {
        OpenLists(m, song, inCache, id);
      }
    }
  }

  lemma OpenChanges(m: Manager, song: Song, inCache: bool)
    ensures OpenStep(m, song, inCache).closed == m.closed && OpenStep(m, song, inCache).nextId == m.nextId + 1
  {
  }

  /** The source handed out is new, or a processor that has handles already. */
  lemma OpenedSource(m: Manager, song: Song, inCache: bool, past: Past)
    requires Good(m, past) && !Intrudes(m, song, inCache)
    ensures
      var source := SourceOf(EntryOf(m, song), song, m.nextId, inCache);
      && (source in m.closed <==> source in past.failed)
      && (source.creator == m.nextId || source in past.made)
  {
    hide NoneLeaks, AllMade, Sharing;
    var e := EntryOf(m, song);
    if !inCache && e.processor.Some? {
      var id := Someone(e);
      assert HandleOk(e, song, m.nextId, id);
      assert Lists(m.entries, song, id);
      SharedIsMade(m, id, past);
    }
  }

  lemma SharedIsMade(m: Manager, id: Handle, past: Past)
    requires Good(m, past) && Known(m, id)
    ensures SourceFor(m, id) in past.made && (SourceFor(m, id) in m.closed <==> SourceFor(m, id) in past.failed)
  {
    hide Inv;
    assert id in Users(m, SourceFor(m, id));
  }

  lemma CloseLeaksNone(m: Manager, id: Handle, past: Past)
    requires Good(m, past) && id in m.songs && CloseIsDefined(m, id)
    ensures NoneLeaks(CloseStep(m, id), past) && AllMade(CloseStep(m, id), past.made)
    ensures past.failed <= CloseStep(m, id).closed
  {
    hide Inv, CloseStep, CloseIsDefined, SourceFor, Known, Users;
    CloseClosesWithTheLast(m, id);
    var m' := CloseStep(m, id);
    forall source | source in past.made
      ensures source in m'.closed <==> Users(m', source) == {} || source in past.failed
    {
      CloseUsers(m, id, source);
      UsersAreApart(m, id, source);
      if source == SourceFor(m, id) {
        assert Users(m', source) == {} <==> Users(m, source) == {id};
      } else {
        assert Users(m', source) == Users(m, source);
      }
    }
    forall other | Known(m', other)
      ensures SourceFor(m', other) in past.made
    {
      CloseLists(m, id, other);
    }
  }

  lemma FailedReadIsGood(m: Manager, source: Source, past: Past)
    requires Good(m, past) && source in past.made
    ensures Good(m.(closed := m.closed + {source}), Noted(m, FailingRead(source), past))
  {
    hide Users, Known, SourceFor, EntriesOk, TablesAgree;
    var m' := m.(closed := m.closed + {source});
    forall other
      ensures Users(m', other) == Users(m, other)
    {
      TablesDecideUsers(m, m', other);
    }
    forall id | Known(m', id)
      ensures SourceFor(m', id) in past.made
    {
      TablesDecide(m, m', id);
    }
  }

  lemma TablesDecideUsers(m: Manager, m': Manager, source: Source)
    requires m'.entries == m.entries && m'.songs == m.songs
    ensures Users(m', source) == Users(m, source)
  {
  }

  lemma UsersAreApart(m: Manager, id: Handle, source: Source)
    requires Known(m, id)
    ensures id in Users(m, source) <==> source == SourceFor(m, id)
  {
  }

  lemma FailedOpenLeaksNone(m: Manager, past: Past)
    requires Good(m, past)
    ensures Good(m.(nextId := m.nextId + 1), past)
  {
    var m' := m.(nextId := m.nextId + 1);
    hide EntriesOk, TablesAgree, CreatedBefore;
    assert Inv(m') by { FailedOpenKeeps(m, 0); }
    forall source
      ensures Users(m', source) == Users(m, source)
    {
    }
    forall id | Known(m', id)
      ensures SourceFor(m', id) in past.made
    {
      assert Known(m, id);
    }
  }

  lemma StepIsGood(m: Manager, op: Op, past: Past)
    requires Good(m, past) && Mannered(m, op, past)
    ensures Apply(m, op).Some? && Good(Apply(m, op).value, Noted(m, op, past))
  {
    hide Inv, CloseStep, CloseIsDefined, NoneLeaks, AllMade, Users, OpenStep, OpenFails;
    match op
    case Open(song, inCache) =>
      OpenKeeps(m, song, inCache);
      OpenLeaksNone(m, song, inCache, past);
      OpenChanges(m, song, inCache);
      OpenedSource(m, song, inCache, past);
    case FailedOpen(song, at) =>
      FailedOpenIsDefinedIff(m, song, at);
      FailedOpenLeaksNone(m, past);
    case Close(id) => ClosedIsGood(m, id, past);
    case FailingRead(source) => FailedReadIsGood(m, source, past);
  }

  lemma ClosedIsGood(m: Manager, id: Handle, past: Past)
    requires Good(m, past)
    ensures CloseIsDefined(m, id) && Good(CloseStep(m, id), past)
  {
    CloseKeeps(m, id);
    if id in m.songs {
      hide Inv, CloseStep, CloseIsDefined, NoneLeaks, AllMade;
      CloseLeaksNone(m, id, past);
    }
  }

  /** Over every run without an intruding open and without an open that fails when its song has an entry:
      nothing is undefined, and of the sources ever handed out the closed ones are exactly those whose
      last handle has gone and those of which a read failed. */
  lemma {:induction false} RunIsGood(m: Manager, ops: seq<Op>, past: Past)
    requires Good(m, past) && RunIsMannered(m, ops, past)
    ensures Run(m, ops).Some? && Good(Run(m, ops).value, PastOf(m, ops, past))
    decreases |ops|
  {
    hide Good, Mannered, Apply, Noted;
    if ops != [] {
      StepIsGood(m, ops[0], past);
      RunIsGood(Apply(m, ops[0]).value, ops[1..], Noted(m, ops[0], past));
    }
  }

  /** After such a run from nothing, a live handle's source is open exactly when no read of it has failed. */
  lemma LiveSourceIsOpenIff(ops: seq<Op>, id: Handle)
    requires RunIsMannered(EMPTY, ops, NOTHING) && Run(EMPTY, ops).Some? && id in Run(EMPTY, ops).value.songs
    ensures
      var m := Run(EMPTY, ops).value;
      && Known(m, id)
      && (SourceFor(m, id) !in m.closed <==> SourceFor(m, id) !in PastOf(EMPTY, ops, NOTHING).failed)
  {
    hide RunIsMannered, Run, PastOf, Good, Known, SourceFor;
    EmptyIsGood();
    RunIsGood(EMPTY, ops, NOTHING);
    var m, past := Run(EMPTY, ops).value, PastOf(EMPTY, ops, NOTHING);
    GoodIsInv(m, past);
    KnownIs(m, id);
    SharedIsMade(m, id, past);
  }

  lemma GoodIsInv(m: Manager, past: Past)
    requires Good(m, past)
    ensures Inv(m)
  {
  }

  /** The song's entry names the processor, for opens to share. */
  predicate Names(m: Manager, p: Source) {
    p.Processor? && p.song in m.entries && m.entries[p.song].processor == Some(p)
  }

  /** Somewhere in the run the entry stops naming the processor: the cache serves an open of the song, or the
      last handle is closed. */
  predicate LetsGo(m: Manager, ops: seq<Op>, p: Source)
    requires p.Processor?
    decreases |ops|
  {
    ops != [] &&
    (|| ops[0] == Open(p.song, true)
     || (ops[0].Close? && Users(m, p) == {ops[0].id})
     || (Apply(m, ops[0]).Some? && LetsGo(Apply(m, ops[0]).value, ops[1..], p)))
  }

  /** What a step does to the naming of a processor that was made before. */
  lemma NamesStep(m: Manager, op: Op, past: Past, p: Source)
    requires Good(m, past) && Mannered(m, op, past) && p.Processor? && p.creator < m.nextId && Apply(m, op).Some?
    ensures Names(Apply(m, op).value, p) <==>
      Names(m, p) && op != Open(p.song, true) && !(op.Close? && Users(m, p) == {op.id})
  {
    hide Inv, NoneLeaks, AllMade, Users, OpenStep, CloseStep, CloseIsDefined, OpenFails, Known;
    match op
    case Open(song, inCache) => OpenNames(m, song, inCache, p);
    case FailedOpen(song, at) => FailedOpenIsDefinedIff(m, song, at);
    case Close(id) => CloseNames(m, id, p);
    case FailingRead(_) =>
  }

  lemma OpenNames(m: Manager, song: Song, inCache: bool, p: Source)
    requires !Intrudes(m, song, inCache) && p.Processor? && p.creator < m.nextId
    ensures Names(OpenStep(m, song, inCache), p) <==> Names(m, p) && !(song == p.song && inCache)
  {
  }

  lemma CloseNames(m: Manager, id: Handle, p: Source)
    requires Inv(m) && CloseIsDefined(m, id) && p.Processor?
    ensures Names(CloseStep(m, id), p) <==> Names(m, p) && Users(m, p) != {id}
  {
    if id in m.songs {
      UsersAreSharing(m, id);
      KnownOk(m, id);
      CloseLeavesNames(m, id, p);
      if m.songs[id] == p.song && Names(m, p) {
        NamedIsShared(m, id, p);
      } else {
        NotAmongUsers(m, id, p);
      }
    } else {
      NotAmongUsers(m, id, p);
    }
  }

  lemma NotAmongUsers(m: Manager, id: Handle, p: Source)
    requires Inv(m) && p.Processor? && (id in m.songs ==> m.songs[id] != p.song || !Names(m, p))
    ensures Names(m, p) ==> id !in Users(m, p)
  {
    if Names(m, p) && id in Users(m, p) {
      KnownOk(m, id);
    }
  }

  lemma NamedIsShared(m: Manager, id: Handle, p: Source)
    requires Inv(m) && Names(m, p) && Known(m, id) && m.songs[id] == p.song
    ensures SourceFor(m, id) == p && (|m.entries[p.song].ids - {id}| == 0 <==> Users(m, p) == {id})
  {
    var e := m.entries[p.song];
    assert EntryOk(e, p.song, m.nextId);
    assert HandleOk(e, p.song, m.nextId, id);
    hide Inv, Users;
    UsersAreSharing(m, id);
    AllShare(e, p.song, m.nextId, p, id);
  }

  lemma CloseLeavesNames(m: Manager, id: Handle, p: Source)
    requires Known(m, id) && CloseIsDefined(m, id) && p.Processor?
    ensures Names(CloseStep(m, id), p) <==>
      Names(m, p) && (m.songs[id] == p.song ==> |m.entries[p.song].ids - {id}| > 0)
  {
  }

  /** Where a failure spreads: after any run, an open of the song that the cache does not serve is handed the
      processor that failed, closed as it is, exactly when the entry named it and has not let go of it
      since. */
  lemma {:induction false} FailureSpreadsIff(m: Manager, ops: seq<Op>, past: Past, p: Source)
    requires Good(m, past) && RunIsMannered(m, ops, past) && p in past.failed && p.Processor?
    ensures Run(m, ops).Some?
    ensures
      var m' := Run(m, ops).value;
      var m'' := OpenStep(m', p.song, false);
      && p in m''.closed && Known(m'', m'.nextId)
      && (SourceFor(m'', m'.nextId) == p <==> Names(m, p) && !LetsGo(m, ops, p))
    decreases |ops|
  {
    hide Good, Apply, OpenStep, Noted, Names, Users, Mannered;
    GoodIsInv(m, past);
    FailedWasMade(m, past, p);
    if ops == [] {
      OpenIsHanded(m, p);
      OpenChanges(m, p.song, false);
    } else {
      StepIsGood(m, ops[0], past);
      NamesStep(m, ops[0], past, p);
      FailedStaysFailed(m, ops[0], past);
      FailureSpreadsIff(Apply(m, ops[0]).value, ops[1..], Noted(m, ops[0], past), p);
    }
  }

  lemma FailedWasMade(m: Manager, past: Past, p: Source)
    requires Good(m, past) && p in past.failed
    ensures p in m.closed && p.creator < m.nextId
  {
  }

  lemma FailedStaysFailed(m: Manager, op: Op, past: Past)
    ensures past.failed <= Noted(m, op, past).failed
  {
  }

  lemma OpenIsHanded(m: Manager, p: Source)
    requires Inv(m) && p.Processor? && p.creator < m.nextId
    ensures Known(OpenStep(m, p.song, false), m.nextId)
    ensures SourceFor(OpenStep(m, p.song, false), m.nextId) == p <==> Names(m, p)
  {
    hide Inv, OpenStep;
    NextIsNew(m, p.song, false);
  }

  /** The failing reader may be the only one: a second open that falls between the failure and the close of its
      handle is handed the closed processor, and keeps it. */
  lemma SoleReaderSpreads(song: Song)
    ensures
      var p := Processor(song, FIRST);
      var ops := [Open(song, false), FailingRead(p), Open(song, false), Close(FIRST)];
      && RunIsMannered(EMPTY, ops, NOTHING) && Run(EMPTY, ops).Some?
      && var m := Run(EMPTY, ops).value;
         Known(m, FIRST + 1) && SourceFor(m, FIRST + 1) == p && p in m.closed && Users(m, p) == {FIRST + 1}
  {
    hide Run, RunIsMannered, Apply, Mannered, OneProcessor, ProcessorFailed, BothOnFailed, SecondOnFailed;
    var p := Processor(song, FIRST);
    SoleReaderSteps(song);
    RunOfNone(SecondOnFailed(song), Past({p}, {p}));
    RunFirst(BothOnFailed(song), Close(FIRST), [], Past({p}, {p}));
    RunFirst(ProcessorFailed(song), Open(song, false), [Close(FIRST)], Past({p}, {p}));
    RunFirst(OneProcessor(song), FailingRead(p), [Open(song, false), Close(FIRST)], Past({p}, {}));
    RunFirst(EMPTY, Open(song, false), [FailingRead(p), Open(song, false), Close(FIRST)], NOTHING);
    assert [Open(song, false), FailingRead(p), Open(song, false), Close(FIRST)]
           == [Open(song, false)] + [FailingRead(p), Open(song, false), Close(FIRST)];
    assert [FailingRead(p), Open(song, false), Close(FIRST)] == [FailingRead(p)] + [Open(song, false), Close(FIRST)];
    assert [Open(song, false), Close(FIRST)] == [Open(song, false)] + [Close(FIRST)];
    assert [Close(FIRST)] + [] == [Close(FIRST)];
  }

  lemma RunOfNone(m: Manager, past: Past)
    ensures Run(m, []) == Some(m) && RunIsMannered(m, [], past)
  {
  }

  lemma RunFirst(m: Manager, op: Op, rest: seq<Op>, past: Past)
    requires Mannered(m, op, past) && Apply(m, op).Some?
    ensures Run(m, [op] + rest) == Run(Apply(m, op).value, rest)
    ensures RunIsMannered(m, [op] + rest, past) <==> RunIsMannered(Apply(m, op).value, rest, Noted(m, op, past))
  {
    hide Apply, Mannered, Noted;
    assert ([op] + rest)[1..] == rest;
  }

  lemma SoleReaderSteps(song: Song)
    ensures
      var p := Processor(song, FIRST);
      var m1, m2, m3, m4 := OneProcessor(song), ProcessorFailed(song), BothOnFailed(song), SecondOnFailed(song);
      && Apply(EMPTY, Open(song, false)) == Some(m1) && Mannered(EMPTY, Open(song, false), NOTHING)
      && Noted(EMPTY, Open(song, false), NOTHING) == Past({p}, {})
      && Apply(m1, FailingRead(p)) == Some(m2) && Mannered(m1, FailingRead(p), Past({p}, {}))
      && Noted(m1, FailingRead(p), Past({p}, {})) == Past({p}, {p})
      && Apply(m2, Open(song, false)) == Some(m3) && Mannered(m2, Open(song, false), Past({p}, {p}))
      && Noted(m2, Open(song, false), Past({p}, {p})) == Past({p}, {p})
      && Apply(m3, Close(FIRST)) == Some(m4) && Mannered(m3, Close(FIRST), Past({p}, {p}))
      && Noted(m3, Close(FIRST), Past({p}, {p})) == Past({p}, {p})
      && Known(m4, FIRST + 1) && SourceFor(m4, FIRST + 1) == p && p in m4.closed && Users(m4, p) == {FIRST + 1}
  {
    hide CloseStep, CloseIsDefined, Users;
    assert OpenStep(EMPTY, song, false) == OneProcessor(song);
    FailedOpensAgain(song);
    FirstOfTwoCloses(song);
    assert {Processor(song, FIRST)} + {Processor(song, FIRST)} == {Processor(song, FIRST)};
  }

  function ProcessorFailed(song: Song): Manager {
    OneProcessor(song).(closed := {Processor(song, FIRST)})
  }

  function BothOnFailed(song: Song): Manager {
    var p := Processor(song, FIRST);
    var e := Entry(Some(p), map[p := 2], map[FIRST := p, FIRST + 1 := p]);
    Manager(map[song := e], map[FIRST := song, FIRST + 1 := song], FIRST + 2, {p})
  }

  function SecondOnFailed(song: Song): Manager {
    var p := Processor(song, FIRST);
    Manager(map[song := Entry(Some(p), map[p := 1], map[FIRST + 1 := p])], map[FIRST + 1 := song], FIRST + 2, {p})
  }

  lemma FailedOpensAgain(song: Song)
    ensures OpenStep(ProcessorFailed(song), song, false) == BothOnFailed(song)
  {
    var p := Processor(song, FIRST);
    assert map[p := 1][p := 2] == map[p := 2];
    assert map[FIRST := p][FIRST + 1 := p] == map[FIRST := p, FIRST + 1 := p];
    assert map[FIRST := song][FIRST + 1 := song] == map[FIRST := song, FIRST + 1 := song];
    assert OpenEntry(OneProcessor(song).entries[song], song, FIRST + 1, false) == BothOnFailed(song).entries[song];
  }

  lemma FirstOfTwoCloses(song: Song)
    ensures CloseIsDefined(BothOnFailed(song), FIRST)
    ensures CloseStep(BothOnFailed(song), FIRST) == SecondOnFailed(song)
    ensures Users(SecondOnFailed(song), Processor(song, FIRST)) == {FIRST + 1}
  {
    var p := Processor(song, FIRST);
    var e := BothOnFailed(song).entries[song];
    assert CloseEntry(e, FIRST) == Entry(Some(p), map[p := 1], map[FIRST + 1 := p]);
    assert {FIRST + 1} == map[FIRST + 1 := p].Keys;
    hide CloseEntry;
    assert map[FIRST := song, FIRST + 1 := song] - {FIRST} == map[FIRST + 1 := song];
  }

  lemma TablesDecide(m: Manager, m': Manager, id: Handle)
    requires m'.entries == m.entries && m'.songs == m.songs && Known(m', id)
    ensures Known(m, id) && SourceFor(m, id) == SourceFor(m', id)
  {
  }

  lemma AllShare(e: Entry, song: Song, next: Handle, p: Source, id: Handle)
    requires EntryOk(e, song, next) && e.processor == Some(p) && id in e.ids
    ensures |e.ids - {id}| == 0 <==> Sharing(e.ids, p) == {id}
  {
    forall other | other in e.ids
      ensures other in Sharing(e.ids, p)
    {
      assert HandleOk(e, song, next, other);
    }
    assert e.ids.Keys == Sharing(e.ids, p);
    assert (e.ids - {id}).Keys == e.ids.Keys - {id};
    if |e.ids - {id}| == 0 {
      assert e.ids.Keys - {id} == {};
    } else {
      var other :| other in e.ids - {id};
    }
  }

  /** A second close of a handle changes nothing. */
  lemma SecondCloseChangesNothing(m: Manager, id: Handle)
    requires CloseIsDefined(m, id)
    ensures CloseIsDefined(CloseStep(m, id), id) && CloseStep(CloseStep(m, id), id) == CloseStep(m, id)
  {
  }

  // ----- The open that intrudes -----

  lemma RunOfThree(m: Manager, a: Op, b: Op, c: Op)
    requires Apply(m, a).Some? && Apply(Apply(m, a).value, b).Some?
    ensures Run(m, [a, b, c]) == Apply(Apply(Apply(m, a).value, b).value, c)
  {
    hide Apply;
    assert [a, b, c][1..] == [b, c] && [b, c][1..] == [c] && [c][1..] == [];
    assert Run(m, [a, b, c]) == Run(Apply(m, a).value, [b, c]);
    assert Run(Apply(m, a).value, [b, c]) == Run(Apply(Apply(m, a).value, b).value, [c]);
  }

  /** The intruder alone is closed, but its entry stays and still names it. */
  lemma IntruderIsLeftNamed(m: Manager, song: Song)
    requires Inv(m) && Intrudes(m, song, false)
    ensures
      var m1, p := OpenStep(m, song, false), Processor(song, m.nextId);
      && CloseIsDefined(m1, m.nextId)
      && p in CloseStep(m1, m.nextId).closed
      && song in CloseStep(m1, m.nextId).entries
      && CloseStep(m1, m.nextId).entries[song].processor == Some(p)
      && CloseStep(m1, m.nextId).nextId == m.nextId + 1
  {
    var e := m.entries[song];
    NextIsUnlisted(m, song);
    assert Usage(e, Processor(song, m.nextId)) == 0;
    hide Inv, EntryOk, OpenEntry, CloseEntry, ClosesSource;
    assert OpenStep(m, song, false).entries[song] == OpenEntry(e, song, m.nextId, false);
  }

  lemma OpenOfNamed(m: Manager, song: Song)
    requires song in m.entries && m.entries[song].processor.Some?
    ensures Known(OpenStep(m, song, false), m.nextId)
    ensures SourceFor(OpenStep(m, song, false), m.nextId) == m.entries[song].processor.value
  {
  }

  /** A live handle reads from a source that is closed. */
  ghost predicate HandsOutClosed(m: Manager) {
    exists id :: Known(m, id) && SourceFor(m, id) in m.closed
  }

  /** Nothing intrudes, no read fails, and no open fails when its song has an entry. */
  predicate RunIsCalm(m: Manager, ops: seq<Op>) {
    RunIsMannered(m, ops, NOTHING) && forall op | op in ops :: !op.FailingRead?
  }

  /** Some calm run ends with a live handle on a closed source. */
  ghost predicate CanHandOutClosed(m: Manager) {
    exists ops :: RunIsCalm(m, ops) && Run(m, ops).Some? && HandsOutClosed(Run(m, ops).value)
  }

  lemma {:induction false} CalmFailsNothing(m: Manager, ops: seq<Op>, past: Past)
    requires Run(m, ops).Some? && forall op | op in ops :: !op.FailingRead?
    ensures PastOf(m, ops, past).failed == past.failed
    decreases |ops|
  {
    hide Apply;
    if ops != [] {
      assert ops[0] in ops;
      CalmFailsNothing(Apply(m, ops[0]).value, ops[1..], Noted(m, ops[0], past));
    }
  }

  /** With nothing closed under a live handle, the sources of the live handles are all that matters. */
  lemma LiveIsGood(m: Manager)
    requires Inv(m) && !HandsOutClosed(m)
    ensures Good(m, Past(set id | id in m.songs && Known(m, id) :: SourceFor(m, id), {}))
  {
    hide Inv;
    var made := set id | id in m.songs && Known(m, id) :: SourceFor(m, id);
    forall source | source in made
      ensures source !in m.closed && Users(m, source) != {}
    {
      var id :| id in m.songs && Known(m, id) && SourceFor(m, id) == source;
      assert id in Users(m, source);
    }
    forall source | source in made
      ensures source.creator < m.nextId
    {
      var id :| id in m.songs && Known(m, id) && SourceFor(m, id) == source;
      KnownOk(m, id);
    }
  }

  /** Without failing reads it does not matter what has happened before. */
  lemma {:induction false} CalmForgets(m: Manager, ops: seq<Op>, past: Past, past': Past)
    requires RunIsMannered(m, ops, past) && forall op | op in ops :: !op.FailingRead?
    ensures RunIsMannered(m, ops, past')
    decreases |ops|
  {
    hide Apply, Intrudes;
    if ops != [] && Apply(m, ops[0]).Some? {
      assert ops[0] in ops;
      CalmForgets(Apply(m, ops[0]).value, ops[1..], Noted(m, ops[0], past), Noted(m, ops[0], past'));
    }
  }

  lemma CalmStaysOpen(m: Manager)
    requires Inv(m) && !HandsOutClosed(m)
    ensures !CanHandOutClosed(m)
  {
    hide Inv, Run, RunIsMannered, Good, PastOf;
    LiveIsGood(m);
    var past := Past(set id | id in m.songs && Known(m, id) :: SourceFor(m, id), {});
    forall ops | RunIsCalm(m, ops)
      ensures Run(m, ops).Some? && !HandsOutClosed(Run(m, ops).value)
    {
      CalmForgets(m, ops, NOTHING, past);
      RunIsGood(m, ops, past);
      CalmFailsNothing(m, ops, past);
      GoodHandsOutOpen(Run(m, ops).value, PastOf(m, ops, past));
    }
  }

  lemma GoodHandsOutOpen(m: Manager, past: Past)
    requires Good(m, past) && past.failed == {}
    ensures !HandsOutClosed(m)
  {
    hide Good;
    forall id | Known(m, id)
      ensures SourceFor(m, id) !in m.closed
    {
      SharedIsMade(m, id, past);
    }
  }

  lemma RunOfTwo(m: Manager, a: Op, b: Op)
    requires Apply(m, a).Some?
    ensures Run(m, [a, b]) == Apply(Apply(m, a).value, b)
    ensures Mannered(m, a, NOTHING) && Mannered(Apply(m, a).value, b, Noted(m, a, NOTHING)) ==>
      RunIsMannered(m, [a, b], NOTHING)
  {
    hide Apply, Mannered;
    assert [a, b][1..] == [b] && [b][1..] == [];
    var m1 := Apply(m, a).value;
    assert Run(m1, [b]) == Apply(m1, b);
    if Mannered(m, a, NOTHING) && Mannered(m1, b, Noted(m, a, NOTHING)) {
      assert RunIsMannered(m1, [b], Noted(m, a, NOTHING));
    }
  }

  /** An intruding open, its handle closed, and the song opened once more: the new handle has a closed
      processor. */
  lemma IntrusionHandsOutClosed(m: Manager, song: Song)
    requires Inv(m) && Intrudes(m, song, false)
    ensures CanHandOutClosed(OpenStep(m, song, false))
  {
    hide Inv, CloseStep, Run, RunIsMannered, OpenStep;
    IntruderIsLeftNamed(m, song);
    var m1 := OpenStep(m, song, false);
    var m2 := CloseStep(m1, m.nextId);
    var ops := [Close(m.nextId), Open(song, false)];
    RunOfTwo(m1, ops[0], ops[1]);
    OpenOfNamed(m2, song);
    OpenChanges(m2, song, false);
    assert SourceFor(OpenStep(m2, song, false), m2.nextId) in OpenStep(m2, song, false).closed;
    assert forall op | op in ops :: !op.FailingRead?;
    assert RunIsCalm(m1, ops);
  }

  lemma NewHandleIsOpen(m: Manager, song: Song, inCache: bool)
    requires Inv(m) && !HandsOutClosed(m) && !Intrudes(m, song, inCache)
    ensures !HandsOutClosed(OpenStep(m, song, inCache))
  {
    hide Inv, OpenStep, SourceOf, EntryOf, Good, Intrudes, Known;
    LiveIsGood(m);
    var past := Past(set id | id in m.songs && Known(m, id) :: SourceFor(m, id), {});
    OpenedSource(m, song, inCache, past);
    OpenChanges(m, song, inCache);
    NextIsNew(m, song, inCache);
    var m' := OpenStep(m, song, inCache);
    forall id | Known(m', id)
      ensures SourceFor(m', id) !in m'.closed
    {
      if id != m.nextId {
        OpenLists(m, song, inCache, id);
      }
    }
  }

  /** Whether an open is safe: while no live handle's source is closed, some calm run after the open hands
      out a closed one exactly when the open makes a processor for a song that has open handles. */
  lemma OpenIsSafeIff(m: Manager, song: Song, inCache: bool)
    requires Inv(m) && !HandsOutClosed(m)
    ensures CanHandOutClosed(OpenStep(m, song, inCache)) <==> Intrudes(m, song, inCache)
  {
    hide Inv, OpenStep, CanHandOutClosed, HandsOutClosed;
    if Intrudes(m, song, inCache) {
      IntrusionHandsOutClosed(m, song);
    } else {
      OpenKeeps(m, song, inCache);
      NewHandleIsOpen(m, song, inCache);
      CalmStaysOpen(OpenStep(m, song, inCache));
    }
  }

  /** From nothing, two runs that are undefined: the first open of a cached song fails at its reader, and a
      later open of a song fails at its name. */
  lemma UndefinedFromEmpty(song: Song)
    ensures Run(EMPTY, [FailedOpen(song, AtReader)]) == None
    ensures Run(EMPTY, [Open(song, false), FailedOpen(song, AtName)]) == None
  {
    hide Inv, OpenStep, OpenFails;
    EmptyIsGood();
    GoodIsInv(EMPTY, NOTHING);
    FailedOpenIsDefinedIff(EMPTY, song, AtReader);
    OpenKeeps(EMPTY, song, false);
    var m := OpenStep(EMPTY, song, false);
    assert song in m.entries by { OpenHasEntry(EMPTY, song); }
    FailedOpenIsDefinedIff(m, song, AtName);
    RunOfTwo(EMPTY, Open(song, false), FailedOpen(song, AtName));
  }

  lemma OpenHasEntry(m: Manager, song: Song)
    ensures song in OpenStep(m, song, false).entries
  {
  }

  function OneProcessor(song: Song): Manager {
    var p := Processor(song, FIRST);
    Manager(map[song := Entry(Some(p), map[p := 1], map[FIRST := p])], map[FIRST := song], FIRST + 1, {})
  }

  function ReaderBeside(song: Song): Manager {
    var p := Processor(song, FIRST);
    var e := Entry(None, map[p := 1], map[FIRST := p, FIRST + 1 := CachedReader(FIRST + 1)]);
    Manager(map[song := e], map[FIRST := song, FIRST + 1 := song], FIRST + 2, {})
  }

  function ReaderGone(song: Song): Manager {
    var p := Processor(song, FIRST);
    var e := Entry(None, map[p := 1], map[FIRST := p]);
    Manager(map[song := e], map[FIRST := song], FIRST + 2, {CachedReader(FIRST + 1)})
  }

  lemma ReaderOpens(song: Song)
    ensures OpenStep(OneProcessor(song), song, true) == ReaderBeside(song)
  {
  }

  lemma ReadersEntryCloses(song: Song)
    ensures
      var p := Processor(song, FIRST);
      var after := CloseEntry(ReaderBeside(song).entries[song], FIRST + 1);
      after == Entry(None, map[p := 1], map[FIRST := p]) && after.ids.Keys == {FIRST}
  {
  }

  lemma ReaderCloses(song: Song)
    ensures CloseIsDefined(ReaderBeside(song), FIRST + 1)
    ensures CloseStep(ReaderBeside(song), FIRST + 1) == ReaderGone(song)
  {
    hide CloseEntry;
    ReadersEntryCloses(song);
    assert map[FIRST := song, FIRST + 1 := song] - {FIRST + 1} == map[FIRST := song];
  }

  /** The reader need not still be open: a processor in use, a reader opened and closed, and the next open
      that is not served from the cache intrudes. */
  lemma ReaderNeedNotBeOpen(song: Song)
    ensures
      var before := Run(EMPTY, [Open(song, false), Open(song, true), Close(FIRST + 1)]);
      && before.Some? && Inv(before.value) && Intrudes(before.value, song, false)
      && forall id | Known(before.value, id) :: SourceFor(before.value, id).Processor?
  {
    EmptyIsGood();
    OpenKeeps(EMPTY, song, false);
    assert OpenStep(EMPTY, song, false) == OneProcessor(song);
    hide Inv, Run, OpenStep, CloseStep, CloseIsDefined;
    ReaderOpens(song);
    OpenKeeps(OneProcessor(song), song, true);
    ReaderCloses(song);
    CloseKeeps(ReaderBeside(song), FIRST + 1);
    RunOfThree(EMPTY, Open(song, false), Open(song, true), Close(FIRST + 1));
    OnlyProcessorsLeft(song);
    hide OneProcessor, ReaderBeside, ReaderGone, Known, SourceFor, Intrudes;
  }

  lemma OnlyProcessorsLeft(song: Song)
    ensures Intrudes(ReaderGone(song), song, false)
    ensures forall id | Known(ReaderGone(song), id) :: SourceFor(ReaderGone(song), id).Processor?
  {
  }

  /** The tables as the program holds them, changed in place. */
  class FileManager {
    var entries: map<Song, Entry>
    var songs: map<Handle, Song>
    var nextId: Handle
    var closed: set<Source>

    function Tables(): Manager
      reads this
    {
      Manager(entries, songs, nextId, closed)
    }

    constructor ()
      ensures Tables() == EMPTY
    {
      entries, songs, nextId, closed := map[], map[], FIRST, {};
    }

    /** `open` where nothing throws */
    method Open(song: Song, inCache: bool) returns (id: Handle)
      modifies this
      ensures id == old(nextId) && Tables() == OpenStep(old(Tables()), song, inCache)
    {
      id := nextId;
      nextId := nextId + 1;
      songs := songs[id := song];
      var e := if song in entries then entries[song] else NO_ENTRY;
      if inCache {
        e := e.(processor := None);
        e := e.(ids := e.ids[id := CachedReader(id)]);
      } else if e.processor.Some? {
        var p := e.processor.value;
        e := e.(ids := e.ids[id := p]);
        e := e.(usages := e.usages[p := Usage(e, p) + 1]);
      } else {
        var p := Processor(song, id);
        e := e.(ids := e.ids[id := p]);
        e := e.(processor := Some(p));
        e := e.(usages := e.usages[p := Usage(e, p) + 1]);
      }
      entries := entries[song := e];
    }

    method Close(id: Handle)
      requires CloseIsDefined(Tables(), id)
      modifies this
      ensures Tables() == CloseStep(old(Tables()), id)
    {
      if id in songs {
        var song := songs[id];
        if song in entries {
          var e := entries[song];
          var source := e.ids[id];
          if Usage(e, source) <= 1 {
            closed := closed + {source};
          } else {
            e := e.(usages := e.usages[source := e.usages[source] - 1]);
          }
          e := e.(ids := e.ids - {id});
          entries := if |e.ids| == 0 then entries - {song} else entries[song := e];
        }
        songs := songs - {id};
      }
    }
  }
}
