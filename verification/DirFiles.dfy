/** Files with generated names in a directory (src/fs/FsUtils.cpp, FsUtils.h, FileName.cpp, Dir.cpp). */
module DirFiles {
  import opened Bytes
  import opened PathLookup

  // ----- Names -----

  function Digit(d: nat): char
    requires d < 10
  {
    '0' + d as char
  }

  /** `std::to_string` */
  function Decimal(n: nat): (s: string)
    ensures |s| >= 1 && (|s| == 1 <==> n < 10)
  {
    if n < 10 then [Digit(n)] else Decimal(n / 10) + [Digit(n % 10)]
  }

  lemma {:induction false} DecimalInjective(a: nat, b: nat)
    requires Decimal(a) == Decimal(b)
    ensures a == b
  {
    var s := Decimal(a);
    if a >= 10 {
      assert Decimal(a / 10) == s[..|s| - 1] == Decimal(b / 10);
      DecimalInjective(a / 10, b / 10);
      assert Digit(a % 10) == s[|s| - 1] == Digit(b % 10);
    }
  }

  function DigitValue(c: char): int {
    c as int - '0' as int
  }

  /** What a sequence of digits stands for */
  function NumberOf(s: string): int
    decreases |s|
  {
    if s == "" then 0 else 10 * NumberOf(s[..|s| - 1]) + DigitValue(s[|s| - 1])
  }

  /** The digits stand for the number, and none is put before it. */
  lemma {:induction false} DecimalStandsFor(n: nat)
    ensures NumberOf(Decimal(n)) == n
    ensures forall c | c in Decimal(n) :: '0' <= c <= '9'
    ensures n > 0 ==> Decimal(n)[0] != '0'
  {
    if n >= 10 {
      var front := Decimal(n / 10);
      DecimalStandsFor(n / 10);
      assert Decimal(n)[..|Decimal(n)| - 1] == front;
    } else {
      assert NumberOf("") == 0;
    }
  }

  /** The names tried for a file: the plain one, then with the suffixes from 2 on */
  function Candidate(base: string, extension: string, j: nat): string {
    if j == 0 then base + extension else base + "_" + Decimal(j + 1) + extension
  }

  /** No name is tried twice. */
  lemma CandidatesDiffer(base: string, extension: string, i: nat, j: nat)
    requires i < j
    ensures Candidate(base, extension, i) != Candidate(base, extension, j)
  {
    var s, t := Candidate(base, extension, i), Candidate(base, extension, j);
    if i == 0 {
      assert |s| < |t|;
    } else if s == t {
      MiddleOf(base + "_", Decimal(i + 1), extension);
      MiddleOf(base + "_", Decimal(j + 1), extension);
      DecimalInjective(i + 1, j + 1);
    }
  }

  lemma MiddleOf(front: string, middle: string, back: string)
    ensures var s := front + middle + back; s[|front|..|s| - |back|] == middle
  {
  }

  /** Characters that a name must not have */
  predicate Forbidden(c: char) {
    c as int <= 31 || c in "<>:/\\|?*"
  }

  function Escape(s: string): string {
    if s == "" then ""
    else
      var rest := Escape(s[1..]);
      if Forbidden(s[0]) then rest else if s[0] == '"' then "'" + rest else [s[0]] + rest
  }

  /** An escaped name has no path separator or quote, and escaping it again changes nothing. */
  lemma {:induction false} EscapeIsClean(s: string)
    ensures forall c | c in Escape(s) :: !Forbidden(c) && c != '"'
    ensures Escape(Escape(s)) == Escape(s)
  {
    if s != "" {
      EscapeIsClean(s[1..]);
      var rest := Escape(s[1..]);
      assert ("'" + rest)[1..] == rest && ([s[0]] + rest)[1..] == rest;
    }
  }

  /** Escaping goes character by character, in order: it drops control characters and eight others, makes a quote an
      apostrophe and keeps every other. */
  lemma EscapeOne(c: char)
    ensures
      Escape([c]) ==
      if c < ' ' || c == '<' || c == '>' || c == ':' || c == '/' || c == '\\' || c == '|' || c == '?' || c == '*'
      then ""
      else if c == '"' then "'" else [c]
  {
    assert [c][1..] == "";
    assert Escape("") == "";
  }

  lemma {:induction false} EscapeJoins(s: string, t: string)
    ensures Escape(s + t) == Escape(s) + Escape(t)
    decreases |s|
  {
    if s == "" {
      assert s + t == t;
    } else {
      assert (s + t)[1..] == s[1..] + t;
      EscapeJoins(s[1..], t);
    }
  }

  /** The plain name of a file is its artist and its title, each escaped, with a dash between them; the second
      one tried ends in 2. */
  lemma FirstCandidates(artist: string, title: string, extension: string)
    ensures
      var base := Escape(artist + " - " + title);
      && base == Escape(artist) + " - " + Escape(title)
      && Candidate(base, extension, 0) == Escape(artist) + " - " + Escape(title) + extension
      && Candidate(base, extension, 1) == Escape(artist) + " - " + Escape(title) + "_2" + extension
  {
    hide Escape, Candidate;
    EscapeJoins(artist + " - ", title);
    EscapeJoins(artist, " - ");
    DashStays();
    TwoCandidates(Escape(artist + " - " + title), extension);
  }

  lemma DashStays()
    ensures Escape(" - ") == " - "
  {
    hide Escape;
    EscapeJoins(" -", " ");
    EscapeJoins(" ", "-");
    EscapeOne(' ');
    EscapeOne('-');
    assert " -" == " " + "-" && " - " == " -" + " ";
  }

  lemma TwoCandidates(base: string, extension: string)
    ensures Candidate(base, extension, 0) == base + extension
    ensures Candidate(base, extension, 1) == base + "_2" + extension
  {
    assert Decimal(2) == "2";
    assert base + "_" + Decimal(2) == base + "_2";
  }

  class FileName {
    const filename: string
    const extension: string
    var useNumberSuffix: bool
    var numberSuffix: nat

    constructor (artist: string, title: string, extension: string)
      ensures filename == Escape(artist + " - " + title) && this.extension == extension
      ensures Valid() && Tried() == 0
    {
      filename, this.extension := Escape(artist + " - " + title), extension;
      useNumberSuffix, numberSuffix := false, 0;
    }

    predicate Valid()
      reads this
    {
      useNumberSuffix ==> numberSuffix >= 2
    }

    /** How many names have been passed over */
    function Tried(): nat
      requires Valid()
      reads this
    {
      if useNumberSuffix then numberSuffix - 1 else 0
    }

    function GetFilename(): (name: string)
      requires Valid()
      reads this
      ensures name == Candidate(filename, extension, Tried())
    {
      if useNumberSuffix then filename + "_" + Decimal(numberSuffix) + extension else filename + extension
    }

    method IncreaseNumberSuffix()
      requires Valid()
      modifies this
      ensures Valid() && Tried() == old(Tried()) + 1
    {
      if useNumberSuffix {
        numberSuffix := numberSuffix + 1;
      } else {
        useNumberSuffix := true;
        numberSuffix := 2;
      }
    }
  }

  // ----- Directories -----

  /** A file or directory as an entry; `own` stands for all else that tells entries apart */
  datatype Item = Item(name: string, time: nat, own: nat)

  datatype RemoteFile = RemoteFile(artist: string, title: string, own: nat)

  class Dir {
    var contents: map<string, Item>

    constructor ()
      ensures contents == map[]
    {
      contents := map[];
    }

    /** Entries stand under their own names. */
    ghost predicate Valid()
      reads this
    {
      Named(contents)
    }

    predicate HasItem(name: string)
      reads this
    {
      name in contents
    }

    /** `insert` leaves an entry that is there alone. */
    method AddItem(item: Item)
      modifies this
      ensures contents == if item.name in old(contents) then old(contents) else old(contents)[item.name := item]
    {
      if item.name !in contents {
        contents := contents[item.name := item];
      }
    }

    method RemoveItem(name: string)
      modifies this
      ensures contents == old(contents) - {name}
    {
      contents := contents - {name};
    }
  }

  /** The entries after a rename: one that has the new name already stays, and the file is gone. */
  function Renamed(contents: map<string, Item>, oldName: string, newName: string, newOwn: nat): map<string, Item>
    requires oldName in contents
  {
    var rest := contents - {oldName};
    if newName in rest then rest else rest[newName := Item(newName, contents[oldName].time, newOwn)]
  }

  /** `renameFile`: the entry is taken out and put in again under the new name. */
  method RenameFile(dir: Dir, oldName: string, newName: string, newOwn: nat) returns (renamed: Item)
    requires dir.Valid() && oldName in dir.contents
    modifies dir
    ensures dir.Valid() && renamed == Item(newName, old(dir.contents)[oldName].time, newOwn)
    ensures dir.contents == Renamed(old(dir.contents), oldName, newName, newOwn)
  {
    var prevFile := dir.contents[oldName];
    dir.RemoveItem(prevFile.name);
    renamed := Item(newName, prevFile.time, newOwn);
    dir.AddItem(renamed);
  }

  /** The directory of a path's last part */
  function ParentOf(tree: Tree, root: NodeId, parts: seq<string>): Option<NodeId>
    requires parts != []
  {
    Resolve(tree, root, parts[..|parts| - 1])
  }

  /** The entries are those of the node in the tree. */
  ghost predicate Lies(contents: map<string, Item>, tree: Tree, node: NodeId) {
    forall name :: name in contents <==> Child(tree, node, name).Some?
  }

  /** A rename comes here when its old path is found and of its new path only the last part is missing; the
      entry is renamed in the old parent. The file is lost exactly when the new parent is another one and
      the new name is taken in the old parent. */
  lemma RenameLosesIff(tree: Tree, root: NodeId, oldParts: seq<string>, newParts: seq<string>,
                       contents: map<string, Item>, newOwn: nat)
    requires oldParts != [] && Resolves(tree, root, oldParts) && OnlyLastMissing(tree, root, newParts)
    requires ParentOf(tree, root, oldParts).Some? ==> Lies(contents, tree, ParentOf(tree, root, oldParts).value)
    ensures
      var oldName, newName := oldParts[|oldParts| - 1], newParts[|newParts| - 1];
      && oldName in contents
      && (|Renamed(contents, oldName, newName, newOwn)| < |contents| <==>
            ParentOf(tree, root, oldParts) != ParentOf(tree, root, newParts) && newName in contents - {oldName})
      && (newName !in contents - {oldName} ==>
            && |Renamed(contents, oldName, newName, newOwn)| == |contents|
            && newName in Renamed(contents, oldName, newName, newOwn)
            && Renamed(contents, oldName, newName, newOwn)[newName] == Item(newName, contents[oldName].time, newOwn))
      && (newName in contents - {oldName} ==>
            Renamed(contents, oldName, newName, newOwn) == contents - {oldName})
      && forall name | name != oldName && name != newName ::
           (name in Renamed(contents, oldName, newName, newOwn) <==> name in contents)
           && (name in contents ==> Renamed(contents, oldName, newName, newOwn)[name] == contents[name])
  {
    var oldName, newName := oldParts[|oldParts| - 1], newParts[|newParts| - 1];
    assert (contents - {oldName}).Keys == contents.Keys - {oldName};
  }

  /** The loss happens: renaming `/a/x_s` to `/b/x` where `/a/x` is a file. */
  lemma RenameCanLose()
    ensures
      var tree := map[0 := DirNode(map["a" := 1, "b" := 2]), 1 := DirNode(map["x" := 3, "x_s" := 4]),
                      2 := DirNode(map[]), 3 := FileNode, 4 := FileNode];
      && Resolves(tree, 0, ["a", "x_s"]) && OnlyLastMissing(tree, 0, ["b", "x"])
      && ParentOf(tree, 0, ["a", "x_s"]) == Some(1) && ParentOf(tree, 0, ["b", "x"]) == Some(2)
      && Child(tree, 1, "x") == Some(3)
  {
    var tree := map[0 := DirNode(map["a" := 1, "b" := 2]), 1 := DirNode(map["x" := 3, "x_s" := 4]),
                    2 := DirNode(map[]), 3 := FileNode, 4 := FileNode];
    assert ["a", "x_s"][..1] == ["a"] && ["b", "x"][..1] == ["b"] && ["a"][..0] == ["b"][..0] == [];
    assert Resolve(tree, 0, ["a"]) == Some(1) && Resolve(tree, 0, ["b"]) == Some(2);
  }

  /** Distinct names that are all taken are no more than the entries. */
  lemma TakenNames(contents: map<string, Item>, base: string, extension: string, j: nat)
    requires forall i | 0 <= i < j :: Candidate(base, extension, i) in contents
    ensures j <= |contents|
  {
    hide Candidate;
    var taken := set i | 0 <= i < j :: Candidate(base, extension, i);
    TakenCount(base, extension, j);
    assert taken <= contents.Keys;
    SubsetSize(taken, contents.Keys);
  }

  lemma {:induction false} TakenCount(base: string, extension: string, j: nat)
    ensures |set i | 0 <= i < j :: Candidate(base, extension, i)| == j
  {
    hide Candidate;
    if j > 0 {
      TakenCount(base, extension, j - 1);
      var before := set i | 0 <= i < j - 1 :: Candidate(base, extension, i);
      var last := Candidate(base, extension, j - 1);
      forall i | 0 <= i < j - 1
        ensures Candidate(base, extension, i) != last
      {
        CandidatesDiffer(base, extension, i, j - 1);
      }
      assert (set i | 0 <= i < j :: Candidate(base, extension, i)) == before + {last};
    }
  }

  lemma {:induction false} SubsetSize<T>(a: set<T>, b: set<T>)
    requires a <= b
    ensures |a| <= |b|
    decreases a
  {
    if a != {} {
      var x :| x in a;
      SubsetSize(a - {x}, b - {x});
    }
  }

  /** The first free name for a file, after no more tries than the directory has entries */
  method FreeName(dir: Dir, artist: string, title: string, extension: string) returns (name: string, tries: nat)
    ensures name !in dir.contents && tries <= |dir.contents| + 1
    ensures tries >= 1 && name == Candidate(Escape(artist + " - " + title), extension, tries - 1)
    ensures forall i | 0 <= i < tries - 1 :: Candidate(Escape(artist + " - " + title), extension, i) in dir.contents
  {
    hide Candidate, Escape;
    var fname := new FileName(artist, title, extension);
    tries := 1;
    while dir.HasItem(fname.GetFilename())
      invariant fname.Valid() && tries == fname.Tried() + 1
      invariant forall i | 0 <= i < tries - 1 :: Candidate(fname.filename, extension, i) in dir.contents
      decreases |dir.contents| + 1 - tries
    {
      TakenNames(dir.contents, fname.filename, extension, tries);
      fname.IncreaseNumberSuffix();
      tries := tries + 1;
    }
    TakenNames(dir.contents, fname.filename, extension, tries - 1);
    name := fname.GetFilename();
  }

  /** The name is the first one tried for the file that is not taken. */
  ghost predicate IsFirstFree(name: string, file: RemoteFile, extension: string, taken: set<string>) {
    var base := Escape(file.artist + " - " + file.title);
    exists j: nat :: name == Candidate(base, extension, j) && name !in taken &&
      forall i | 0 <= i < j :: Candidate(base, extension, i) in taken
  }

  /** Each file created has the first name tried for it that neither an entry that was there nor a file created
      before it has. */
  ghost predicate AllFirstFree(created: seq<Item>, files: seq<RemoteFile>, extension: string, before: set<string>) {
    |created| <= |files| && forall k | 0 <= k < |created| ::
      IsFirstFree(created[k].name, files[k], extension, before + Names(created[..k]))
  }

  function Names(items: seq<Item>): set<string> {
    set i | 0 <= i < |items| :: items[i].name
  }

  /** The items by their names */
  function Entries(items: seq<Item>): map<string, Item> {
    if items == [] then map[] else Entries(items[..|items| - 1])[items[|items| - 1].name := items[|items| - 1]]
  }

  predicate NamesDiffer(items: seq<Item>) {
    forall i, j | 0 <= i < j < |items| :: items[i].name != items[j].name
  }

  predicate NamesAreNew(items: seq<Item>, before: map<string, Item>) {
    forall i | 0 <= i < |items| :: items[i].name !in before
  }

  /** The items are new to the directory and stand in it beside all that was there. */
  ghost predicate Joined(before: map<string, Item>, items: seq<Item>, after: map<string, Item>) {
    && NamesDiffer(items) && NamesAreNew(items, before)
    && after == before + Entries(items) && |after| == |before| + |items|
  }

  /** Times count up from the number of entries. */
  predicate TimesFollow(items: seq<Item>, first: nat) {
    forall i | 0 <= i < |items| :: items[i].time == first + i
  }

  lemma {:induction false} EntriesAre(items: seq<Item>)
    ensures forall name | name in Entries(items) :: Entries(items)[name] in items && Entries(items)[name].name == name
    ensures forall item | item in items :: item.name in Entries(items)
    ensures NamesDiffer(items) ==> forall item | item in items :: Entries(items)[item.name] == item
    decreases |items|
  {
    if items != [] {
      var init, last := items[..|items| - 1], items[|items| - 1];
      EntriesAre(init);
      assert items == init + [last];
      if NamesDiffer(items) {
        forall item | item in items
          ensures Entries(items)[item.name] == item
        {
          if item != last {
            assert item in init;
          }
        }
      }
    }
  }

  lemma EntriesOfMore(items: seq<Item>, item: Item)
    ensures Entries(items + [item]) == Entries(items)[item.name := item]
  {
    assert (items + [item])[..|items|] == items;
  }

  lemma NewNameDiffers(items: seq<Item>, item: Item)
    requires NamesDiffer(items) && item.name !in Entries(items)
    ensures NamesDiffer(items + [item])
    ensures Entries(items + [item]) == Entries(items)[item.name := item]
  {
    hide Entries;
    EntriesAre(items);
    EntriesOfMore(items, item);
    forall i | 0 <= i < |items|
      ensures items[i].name != item.name
    {
      assert items[i] in items;
    }
  }

  lemma MergeOne(a: map<string, Item>, b: map<string, Item>, name: string, item: Item)
    ensures (a + b)[name := item] == a + b[name := item]
  {
  }

  lemma NewNameIsNew(items: seq<Item>, before: map<string, Item>, item: Item)
    requires NamesAreNew(items, before) && item.name !in before
    ensures NamesAreNew(items + [item], before)
  {
  }

  lemma JoinOne(before: map<string, Item>, items: seq<Item>, after: map<string, Item>, item: Item)
    requires Joined(before, items, after) && item.name !in after
    ensures Joined(before, items + [item], after[item.name := item])
  {
    hide Entries, NamesDiffer, NamesAreNew;
    NewNameDiffers(items, item);
    NewNameIsNew(items, before, item);
    MergeOne(before, Entries(items), item.name, item);
  }

  /** Each file gets a name that is free, and a time one later than the one before; what is in the
      directory stays. */
  method AddFilesToDir(dir: Dir, files: seq<RemoteFile>, extension: string) returns (created: seq<Item>)
    requires dir.Valid()
    modifies dir
    ensures dir.Valid() && |created| == |files|
    ensures Joined(old(dir.contents), created, dir.contents) && TimesFollow(created, |old(dir.contents)| + 1)
    ensures forall k | 0 <= k < |files| :: created[k].own == files[k].own
    ensures AllFirstFree(created, files, extension, old(dir.contents).Keys)
  {
    hide Candidate, Escape, Entries, NamesDiffer, Joined, Names, IsFirstFree, AllFirstFree;
    ghost var before := dir.contents;
    var curTime := |dir.contents| + 1;
    created := [];
    NothingJoined(before);
    assert AllFirstFree(created, files, extension, before.Keys) by { NoneIsFirstFree(files, extension, before.Keys); }
    var k := 0;
    while k < |files|
      invariant 0 <= k == |created| <= |files| && curTime == |before| + 1 + k
      invariant dir.Valid() && Joined(before, created, dir.contents) && TimesFollow(created, |before| + 1)
      invariant forall i | 0 <= i < k :: created[i].own == files[i].own
      invariant AllFirstFree(created, files, extension, before.Keys)
    {
      var name, tries := FreeName(dir, files[k].artist, files[k].title, extension);
      FoundFree(name, files[k], extension, dir.contents, tries);
      JoinedNames(before, created, dir.contents);
      var newFile := Item(name, curTime, files[k].own);
      NextIsFirstFree(created, files, extension, before.Keys, newFile);
      JoinOne(before, created, dir.contents, newFile);
      dir.AddItem(newFile);
      created := created + [newFile];
      curTime := curTime + 1;
      k := k + 1;
    }
  }

  lemma NoneIsFirstFree(files: seq<RemoteFile>, extension: string, before: set<string>)
    ensures AllFirstFree([], files, extension, before)
  {
  }

  lemma NextIsFirstFree(created: seq<Item>, files: seq<RemoteFile>, extension: string, before: set<string>, item: Item)
    requires AllFirstFree(created, files, extension, before) && |created| < |files|
    requires IsFirstFree(item.name, files[|created|], extension, before + Names(created))
    ensures AllFirstFree(created + [item], files, extension, before)
  {
    hide IsFirstFree, Names;
    forall k | 0 <= k < |created + [item]|
      ensures IsFirstFree((created + [item])[k].name, files[k], extension, before + Names((created + [item])[..k]))
    {
      assert (created + [item])[..k] == created[..k] && created[..|created|] == created;
    }
  }

  lemma FoundFree(name: string, file: RemoteFile, extension: string, contents: map<string, Item>, tries: nat)
    requires tries >= 1 && name !in contents
    requires name == Candidate(Escape(file.artist + " - " + file.title), extension, tries - 1)
    requires forall i | 0 <= i < tries - 1 ::
      Candidate(Escape(file.artist + " - " + file.title), extension, i) in contents
    ensures IsFirstFree(name, file, extension, contents.Keys)
  {
    hide Candidate, Escape;
    var j: nat := tries - 1;
    assert name == Candidate(Escape(file.artist + " - " + file.title), extension, j);
  }

  lemma JoinedNames(before: map<string, Item>, items: seq<Item>, after: map<string, Item>)
    requires Joined(before, items, after)
    ensures after.Keys == before.Keys + Names(items)
  {
    EntriesAre(items);
    hide Entries;
    forall name
      ensures name in Entries(items) <==> name in Names(items)
    {
      if name in Entries(items) {
        assert Entries(items)[name] in items;
      }
    }
  }

  lemma NothingJoined(before: map<string, Item>)
    ensures Joined(before, [], before)
  {
    assert before + Entries([]) == before;
  }

  // ----- Limiting -----

  predicate ByTimeDown(items: seq<Item>) {
    forall i, j | 0 <= i < j < |items| :: items[i].time >= items[j].time
  }

  /** Entries stand under their own names. */
  ghost predicate Named(contents: map<string, Item>) {
    forall name | name in contents :: contents[name].name == name
  }

  /** The items are the entries that `func` selects, each once. */
  ghost predicate Lists(contents: map<string, Item>, func: Item -> bool, items: seq<Item>) {
    && NamesDiffer(items)
    && forall item :: item in items <==> item.name in contents && contents[item.name] == item && func(item)
  }

  function Inserted(items: seq<Item>, p: nat, item: Item): seq<Item>
    requires p <= |items|
  {
    items[..p] + [item] + items[p..]
  }

  /** Where an item belongs among items sorted by time, latest first */
  method PlaceByTime(items: seq<Item>, item: Item) returns (p: nat)
    requires ByTimeDown(items)
    ensures p <= |items| && ByTimeDown(Inserted(items, p, item))
  {
    p := 0;
    while p < |items| && items[p].time >= item.time
      invariant 0 <= p <= |items| && forall j | 0 <= j < p :: items[j].time >= item.time
    {
      p := p + 1;
    }
  }

  lemma NothingListed(func: Item -> bool)
    ensures Lists(map[], func, []) && ByTimeDown([])
  {
  }

  lemma ListOne(seen: map<string, Item>, func: Item -> bool, items: seq<Item>, name: string, item: Item)
    requires Lists(seen, func, items) && Named(seen) && name !in seen && item.name == name
    ensures !func(item) ==> Lists(seen[name := item], func, items)
    ensures func(item) ==> forall p | 0 <= p <= |items| :: Lists(seen[name := item], func, Inserted(items, p, item))
  {
    forall p | 0 <= p <= |items|
      ensures NamesDiffer(Inserted(items, p, item))
      ensures forall other :: other in Inserted(items, p, item) <==> other in items || other == item
    {
      forall i | 0 <= i < |items|
        ensures items[i].name != item.name
      {
        assert items[i] in items;
      }
    }
  }

  /** The entries that `func` selects, latest first; which of two of one time comes first is open. */
  method Select(contents: map<string, Item>, func: Item -> bool) returns (items: seq<Item>)
    requires Named(contents)
    ensures ByTimeDown(items) && Lists(contents, func, items)
  {
    hide ByTimeDown, Lists, Inserted, NamesDiffer;
    items := [];
    var left := contents.Keys;
    ghost var seen: map<string, Item> := map[];
    NothingListed(func);
    assert map[] == contents - left;
    while left != {}
      invariant left <= contents.Keys && seen == contents - left
      invariant ByTimeDown(items) && Lists(seen, func, items)
      decreases |left|
    {
      var name :| name in left;
      var item := contents[name];
      ListOne(seen, func, items, name, item);
      if func(item) {
        var p := PlaceByTime(items, item);
        items := Inserted(items, p, item);
      }
      left := left - {name};
      seen := seen[name := item];
      assert seen == contents - left;
    }
    assert contents - {} == contents;
  }

  /** How many of `n` items are too many */
  function Excess(n: nat, num: nat): nat {
    if n >= num then n - num else 0
  }

  /** Removes the latest of the selected entries until `num` are left. */
  method LimitItems(dir: Dir, num: nat, func: Item -> bool) returns (ghost items: seq<Item>)
    requires dir.Valid()
    modifies dir
    ensures ByTimeDown(items) && Lists(old(dir.contents), func, items)
    ensures dir.contents == old(dir.contents) - Names(items[..Excess(|items|, num)])
  {
    hide ByTimeDown, Lists;
    var selected := Select(dir.contents, func);
    items := selected;
    ghost var before := dir.contents;
    assert before == before - Names(selected[..0]);
    if |selected| >= num {
      var i := 0;
      while i < |selected| - num
        invariant 0 <= i <= |selected| - num && dir.contents == before - Names(selected[..i])
      {
        dir.RemoveItem(selected[i].name);
        NamesOfNext(selected, i);
        i := i + 1;
      }
    }
  }

  lemma NamesOfNext(items: seq<Item>, i: nat)
    requires i < |items|
    ensures Names(items[..i + 1]) == Names(items[..i]) + {items[i].name}
  {
    forall name | name in Names(items[..i + 1])
      ensures name in Names(items[..i]) + {items[i].name}
    {
      var j :| 0 <= j <= i && items[..i + 1][j].name == name;
      assert j < i ==> items[..i][j].name == name;
    }
    forall name | name in Names(items[..i]) + {items[i].name}
      ensures name in Names(items[..i + 1])
    {
      if name == items[i].name {
        assert items[..i + 1][i].name == name;
      } else {
        var j :| 0 <= j < i && items[..i][j].name == name;
        assert items[..i + 1][j].name == name;
      }
    }
  }

  /** What limiting leaves: all that was not selected, and of the selected as many as allowed, none of them
      later than one that went. */
  lemma LimitKeepsOldest(before: map<string, Item>, func: Item -> bool, items: seq<Item>, num: nat, name: string)
    requires Named(before) && ByTimeDown(items) && Lists(before, func, items) && name in before
    ensures
      var cut := Excess(|items|, num);
      var after := before - Names(items[..cut]);
      && (!func(before[name]) ==> name in after)
      && (func(before[name]) ==> before[name] in items)
      && (func(before[name]) ==> (name in after <==> before[name] in items[cut..]))
      && |items[cut..]| == Min(num, |items|)
      && forall i, j | 0 <= i < cut <= j < |items| :: items[i].time >= items[j].time
  {
    hide Named;
    NamedIs(before, name);
    if func(before[name]) {
      var k :| 0 <= k < |items| && items[k] == before[name];
    }
  }

  lemma NamedIs(contents: map<string, Item>, name: string)
    requires Named(contents) && name in contents
    ensures contents[name].name == name
  {
  }

  // ----- Files that are added and then limited -----

  /** Sorted by time, the files added to an empty directory stand in reverse. */
  lemma {:induction false} TimesCountDown(items: seq<Item>, n: nat, i: nat)
    requires |items| == n && i < n && forall k | 0 <= k < n :: 1 <= items[k].time <= n
    requires forall j, k | 0 <= j < k < n :: items[j].time > items[k].time
    ensures items[i].time <= n - i
  {
    if i > 0 {
      TimesCountDown(items, n, i - 1);
      assert items[i - 1].time > items[i].time;
    }
  }

  lemma {:induction false} TimesCountUp(items: seq<Item>, n: nat, i: nat)
    requires |items| == n && i < n && forall k | 0 <= k < n :: 1 <= items[k].time <= n
    requires forall j, k | 0 <= j < k < n :: items[j].time > items[k].time
    ensures items[i].time >= n - i
    decreases n - i
  {
    if i + 1 < n {
      TimesCountUp(items, n, i + 1);
      assert items[i].time > items[i + 1].time;
    }
  }

  /** The list of all entries is as long as the directory. */
  lemma ListIsWhole(contents: map<string, Item>, func: Item -> bool, items: seq<Item>)
    requires Named(contents) && Lists(contents, func, items) && forall name | name in contents :: func(contents[name])
    ensures |items| == |contents|
  {
    NamesCount(items);
    hide NamesDiffer;
    forall name
      ensures name in Names(items) <==> name in contents
    {
      if name in contents {
        assert contents[name] in items;
        var k :| 0 <= k < |items| && items[k] == contents[name];
        assert items[k].name == name;
      }
      if name in Names(items) {
        var k :| 0 <= k < |items| && items[k].name == name;
        assert items[k] in items;
      }
    }
    assert Names(items) == contents.Keys;
  }

  lemma {:induction false} NamesCount(items: seq<Item>)
    requires NamesDiffer(items)
    ensures |Names(items)| == |items|
    decreases |items|
  {
    if items != [] {
      var n := |items| - 1;
      NamesCount(items[..n]);
      NamesOfNext(items, n);
      assert items[..n + 1] == items;
      assert items[n].name !in Names(items[..n]);
    }
  }

  lemma ItemAtTime(created: seq<Item>, func: Item -> bool, items: seq<Item>, k: nat)
    requires TimesFollow(created, 1) && Lists(Entries(created), func, items) && k < |items|
    ensures 1 <= items[k].time <= |created| && items[k] == created[items[k].time - 1]
  {
    hide Entries, NamesDiffer;
    EntriesAre(created);
    assert items[k] in items;
    assert items[k] in created;
    var j :| 0 <= j < |created| && created[j] == items[k];
    assert created[j].time == 1 + j;
  }

  lemma TimesFall(created: seq<Item>, func: Item -> bool, items: seq<Item>, j: nat, k: nat)
    requires TimesFollow(created, 1) && ByTimeDown(items) && Lists(Entries(created), func, items) && j < k < |items|
    ensures items[j].time > items[k].time
  {
    ItemAtTime(created, func, items, j);
    ItemAtTime(created, func, items, k);
    hide Entries, TimesFollow;
    assert items[j].name != items[k].name;
  }

  /** The places of a sorted list of the files: the one of time `n - i` at `i` */
  lemma SortedTimes(created: seq<Item>, func: Item -> bool, items: seq<Item>, i: nat)
    requires TimesFollow(created, 1) && ByTimeDown(items) && Lists(Entries(created), func, items)
    requires |items| == |created| && i < |items|
    ensures items[i] == created[|created| - 1 - i]
  {
    hide Entries, TimesFollow, ByTimeDown, Lists;
    forall k | 0 <= k < |items|
      ensures 1 <= items[k].time <= |created|
    {
      ItemAtTime(created, func, items, k);
    }
    forall j, k | 0 <= j < k < |items|
      ensures items[j].time > items[k].time
    {
      TimesFall(created, func, items, j, k);
    }
    TimesCountDown(items, |created|, i);
    TimesCountUp(items, |created|, i);
    ItemAtTime(created, func, items, i);
  }

  /** Limiting to `num` leaves the first `num` files. */
  lemma LimitLeavesFirst(created: seq<Item>, func: Item -> bool, items: seq<Item>, num: nat)
    requires NamesDiffer(created) && TimesFollow(created, 1) && |Entries(created)| == |created|
    requires forall item | item in created :: func(item)
    requires ByTimeDown(items) && Lists(Entries(created), func, items)
    ensures Entries(created) - Names(items[..Excess(|items|, num)]) == Entries(created[..Min(num, |created|)])
  {
    hide Entries, ByTimeDown, Lists, NamesDiffer, TimesFollow, Names;
    EntriesAre(created);
    assert Named(Entries(created));
    ListIsWhole(Entries(created), func, items);
    var kept: nat := Min(num, |created|);
    var cut := Excess(|items|, num);
    forall name
      ensures name in Names(items[..cut]) <==> name in Names(created[kept..])
    {
      ReversedNames(created, func, items, cut, name);
    }
    EntriesOfFirst(created, kept);
    assert Names(items[..cut]) == Names(created[kept..]);
  }

  lemma ReversedNames(created: seq<Item>, func: Item -> bool, items: seq<Item>, cut: nat, name: string)
    requires NamesDiffer(created) && TimesFollow(created, 1)
    requires ByTimeDown(items) && Lists(Entries(created), func, items)
    requires |items| == |created| && cut <= |items|
    ensures name in Names(items[..cut]) <==> name in Names(created[|created| - cut..])
  {
    hide Entries, ByTimeDown, Lists, NamesDiffer, TimesFollow;
    var tail := created[|created| - cut..];
    forall i | 0 <= i < cut
      ensures items[..cut][i] == tail[cut - 1 - i]
    {
      SortedTimes(created, func, items, i);
    }
    if name in Names(items[..cut]) {
      var i :| 0 <= i < cut && items[..cut][i].name == name;
      assert tail[cut - 1 - i].name == name;
    }
    if name in Names(tail) {
      var j :| 0 <= j < cut && tail[j].name == name;
      assert items[..cut][cut - 1 - j] == tail[cut - 1 - (cut - 1 - j)];
    }
  }

  lemma {:induction false} EntriesOfFirst(created: seq<Item>, kept: nat)
    requires NamesDiffer(created) && kept <= |created|
    ensures Entries(created) - Names(created[kept..]) == Entries(created[..kept])
    decreases |created|
  {
    var n := |created| - 1;
    if kept > n {
      assert created[..kept] == created && Names(created[kept..]) == {};
    } else {
      var init, last := created[..n], created[n];
      EntriesOfFirst(init, kept);
      LastNameIsNew(created);
      assert init[..kept] == created[..kept];
      TailNames(created, kept);
      hide Names;
      LessOne(Entries(init), last, Names(init[kept..]));
    }
  }

  lemma LastNameIsNew(items: seq<Item>)
    requires NamesDiffer(items) && items != []
    ensures items[|items| - 1].name !in Entries(items[..|items| - 1])
  {
    EntriesAre(items[..|items| - 1]);
    hide Entries;
  }

  lemma TailNames(items: seq<Item>, kept: nat)
    requires kept < |items|
    ensures
      var n := |items| - 1;
      Names(items[kept..]) == Names(items[..n][kept..]) + {items[n].name}
  {
    var n := |items| - 1;
    var tail := items[kept..];
    NamesOfNext(tail, n - kept);
    assert tail[..n - kept + 1] == tail && tail[..n - kept] == items[..n][kept..];
  }

  lemma LessOne(m: map<string, Item>, item: Item, names: set<string>)
    requires item.name !in m
    ensures m[item.name := item] - (names + {item.name}) == m - names
  {
  }

  /** The selection takes every item of that kind, whatever its name and time. */
  ghost predicate Selects(func: Item -> bool, own: nat) {
    forall item: Item | item.own == own :: func(item)
  }

  /** On an empty directory, adding files and then limiting to `num` of them leaves exactly the first `num`. */
  method AddThenLimit(dir: Dir, files: seq<RemoteFile>, extension: string, num: nat, func: Item -> bool)
    returns (created: seq<Item>)
    requires dir.contents == map[] && forall k | 0 <= k < |files| :: Selects(func, files[k].own)
    modifies dir
    ensures |created| == |files| && NamesDiffer(created) && TimesFollow(created, 1)
    ensures dir.contents == Entries(created[..Min(num, |files|)])
    ensures AllFirstFree(created, files, extension, {}) && forall k | 0 <= k < |files| :: created[k].own == files[k].own
  {
    hide *;
    EmptyIsNamed();
    DirIsNamed(dir);
    assert dir.contents.Keys == {};
    created := AddFilesToDir(dir, files, extension);
    AddedToNothing(created, dir.contents);
    AllSelected(created, files, func);
    ghost var items := LimitItems(dir, num, func);
    LimitLeavesFirst(created, func, items, num);
  }

  lemma DirIsNamed(dir: Dir)
    ensures Named(dir.contents) ==> dir.Valid()
  {
  }

  lemma AllSelected(created: seq<Item>, files: seq<RemoteFile>, func: Item -> bool)
    requires |created| == |files| && forall k | 0 <= k < |files| :: created[k].own == files[k].own
    requires forall k | 0 <= k < |files| :: Selects(func, files[k].own)
    ensures forall item | item in created :: func(item)
  {
    forall item | item in created
      ensures func(item)
    {
      var k :| 0 <= k < |created| && created[k] == item;
      assert Selects(func, files[k].own);
    }
  }

  lemma EmptyIsNamed()
    ensures Named(map[])
  {
  }

  lemma AddedToNothing(created: seq<Item>, after: map<string, Item>)
    requires Joined(map[], created, after)
    ensures after == Entries(created) && |after| == |created| && NamesDiffer(created)
  {
    hide Entries;
    assert map[] + Entries(created) == Entries(created);
  }
}
