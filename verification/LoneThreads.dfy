/** What the steps of one thread come to (src/fs/FsUtils.cpp, src/fs/Dir.cpp): alone, it locks what one lookup
    locks, makes its changes to the directories it keeps, and gives every lock back; and what a change of a
    directory does to the paths that resolve. */
module LoneThreads {
  import opened Bytes
  import opened PathLookup
  import opened PathLocking

  // ----- What a change does to paths -----

  lemma EntriesAreOld(w: World, node: NodeId, name: string)
    requires WorldOk(w) && Child(w.tree, node, name).Some?
    ensures node < w.nextId
  {
    assert LinkOk(w, node, Child(w.tree, node, name).value);
  }

  lemma ChildAfterAdd(w: World, dir: NodeId, name: string, node: Node, at: NodeId, part: string)
    requires WorldOk(w) && dir in w.tree && w.tree[dir].DirNode? && dir in w.depth
    ensures
      Child(ApplyEdit(w, Add(dir, name, node)).tree, at, part) ==
      if at == dir && part == name && Child(w.tree, dir, name).None? then Some(w.nextId) else Child(w.tree, at, part)
  {
    if Child(w.tree, w.nextId, part).Some? {
      EntriesAreOld(w, w.nextId, part);
    }
  }

  lemma ChildAfterRemove(w: World, dir: NodeId, name: string, at: NodeId, part: string)
    requires WorldOk(w) && dir in w.tree && w.tree[dir].DirNode? && dir in w.depth
    ensures
      Child(ApplyEdit(w, Remove(dir, name)).tree, at, part) ==
      if at == dir && part == name then None else Child(w.tree, at, part)
  {
  }

  /** The path leads through the entry. */
  predicate Passes(tree: Tree, parts: seq<string>, dir: NodeId, name: string)
    decreases |parts|
  {
    parts != [] &&
    (|| Passes(tree, parts[..|parts| - 1], dir, name)
     || (parts[|parts| - 1] == name && Resolve(tree, ROOT, parts[..|parts| - 1]) == Some(dir)))
  }

  /** After an entry is removed, exactly the paths that led through it lead nowhere; all others lead where they
      did. */
  lemma {:induction false} ResolveAfterRemove(w: World, dir: NodeId, name: string, parts: seq<string>)
    requires WorldOk(w) && dir in w.tree && w.tree[dir].DirNode? && dir in w.depth
    ensures
      Resolve(ApplyEdit(w, Remove(dir, name)).tree, ROOT, parts) ==
      if Passes(w.tree, parts, dir, name) then None else Resolve(w.tree, ROOT, parts)
    decreases |parts|
  {
    hide ApplyEdit, WorldOk, Child;
    if parts != [] {
      var init, last := parts[..|parts| - 1], parts[|parts| - 1];
      ResolveAfterRemove(w, dir, name, init);
      if !Passes(w.tree, init, dir, name) && Resolve(w.tree, ROOT, init).Some? {
        ChildAfterRemove(w, dir, name, Resolve(w.tree, ROOT, init).value, last);
      }
    }
  }

  /** After an entry is added under a free name, its path leads to the new node, and all others lead where they
      did. */
  lemma {:induction false} ResolveAfterAdd(w: World, dir: NodeId, name: string, node: Node, parts: seq<string>)
    requires WorldOk(w) && dir in w.tree && w.tree[dir].DirNode? && dir in w.depth && Child(w.tree, dir, name).None?
    ensures
      Resolve(ApplyEdit(w, Add(dir, name, node)).tree, ROOT, parts) ==
      if parts != [] && parts[|parts| - 1] == name && Resolve(w.tree, ROOT, parts[..|parts| - 1]) == Some(dir)
      then Some(w.nextId) else Resolve(w.tree, ROOT, parts)
    decreases |parts|
  {
    hide ApplyEdit, WorldOk, Child;
    if parts != [] {
      var init, last := parts[..|parts| - 1], parts[|parts| - 1];
      var tree' := ApplyEdit(w, Add(dir, name, node)).tree;
      ResolveAfterAdd(w, dir, name, node, init);
      if Resolve(tree', ROOT, init).Some? {
        ChildAfterAdd(w, dir, name, node, Resolve(tree', ROOT, init).value, last);
        NewNodeIsEmpty(w, dir, last);
      }
      if init != [] && init[|init| - 1] == name && Resolve(w.tree, ROOT, init[..|init| - 1]) == Some(dir) {
        assert Resolve(w.tree, ROOT, init) == None;
      }
    }
  }

  /** The id of a new node was no directory's before. */
  lemma NewNodeIsEmpty(w: World, dir: NodeId, part: string)
    requires WorldOk(w) && dir in w.depth
    ensures Child(w.tree, w.nextId, part).None? && dir != w.nextId
  {
    if Child(w.tree, w.nextId, part).Some? {
      EntriesAreOld(w, w.nextId, part);
    }
  }

  /** Adding under a name that is taken changes nothing; a new node is of the kind asked for, and empty. */
  lemma AddedIs(w: World, dir: NodeId, name: string, node: Node)
    requires WorldOk(w) && dir in w.tree && w.tree[dir].DirNode? && dir in w.depth
    ensures Child(w.tree, dir, name).Some? ==> ApplyEdit(w, Add(dir, name, node)) == w
    ensures Child(w.tree, dir, name).None? ==>
      var w' := ApplyEdit(w, Add(dir, name, node));
      w.nextId in w'.tree && w'.tree[w.nextId] == if node.DirNode? then DirNode(map[]) else FileNode
  {
  }

  // ----- What a thread does alone -----

  /** The world after changes that are made only to directories held. */
  function Edited(w: World, edits: seq<Edit>, held: seq<NodeId>): World
    decreases |edits|
  {
    if edits == [] then w else Edited(if edits[0].dir in held then ApplyEdit(w, edits[0]) else w, edits[1..], held)
  }

  /** The nodes that one lookup keeps on a tree that stays as it is. */
  ghost predicate IsKept(tree: Tree, parts: seq<string>, k: nat, path: seq<NodeId>) {
    && |path| == Remaining(|parts|, k, Reach(tree, ROOT, parts)) <= Reach(tree, ROOT, parts) + 1
    && IsStretch(tree, ROOT, parts, Reach(tree, ROOT, parts) + 1 - |path|, path)
  }

  /** The path leads to where the first `i` parts do. */
  predicate LeadsTo(tree: Tree, th: Thread, i: nat) {
    |th.path| <= i + 1 && IsStretch(tree, ROOT, th.parts, i + 1 - |th.path|, th.path)
  }

  /** The nodes that a thread holds when its lookups have ended. */
  ghost predicate AreHeld(tree: Tree, first: Thread, held: seq<NodeId>) {
    if first.second.None? then IsKept(tree, first.parts, first.k, held)
    else
      exists before, path :: held == before + path &&
        IsKept(tree, first.parts, first.k, before) && IsKept(tree, first.second.value, first.k, path)
  }

  ghost predicate Done(w: World, w': World, first: Thread) {
    exists held :: AreHeld(w.tree, first, held) && w' == Edited(w, first.edits, held)
  }

  /** Which of its lookups the thread is at, and what the one before has left it. */
  ghost predicate AtLookup(th: Thread, tree: Tree, first: Thread) {
    && th.k == first.k
    && if th.second.Some? || first.second.None? then
         th.parts == first.parts && th.before == [] && th.second == first.second
       else th.parts == first.second.value && IsKept(tree, first.parts, first.k, th.before)
  }

  /** The thread `first`, some steps later and alone. */
  ghost predicate OnItsWay(s: State, w: World, first: Thread) {
    && |s.threads| == 1
    && var th := s.threads[0];
       match th.phase
       case WantsRoot => s.world == w && th.edits == first.edits && AtLookup(th, w.tree, first)
       case Looking(i) =>
         s.world == w && th.edits == first.edits && AtLookup(th, w.tree, first) && LeadsTo(w.tree, th, i)
       case WantsChild(i, _) =>
         s.world == w && th.edits == first.edits && AtLookup(th, w.tree, first) && LeadsTo(w.tree, th, i)
       case Locked(i) =>
         s.world == w && th.edits == first.edits && AtLookup(th, w.tree, first) && LeadsTo(w.tree, th, i + 1)
       case Found(_) =>
         && s.world == w && th.edits == first.edits && AtLookup(th, w.tree, first)
         && IsKept(w.tree, th.parts, th.k, th.path)
       case Editing =>
         && AreHeld(w.tree, first, th.before + th.path)
         && Edited(s.world, th.edits, th.before + th.path) == Edited(w, first.edits, th.before + th.path)
       case Leaving => Done(w, s.world, first)
       case Finished => Done(w, s.world, first)
  }

  lemma DropLeadsTo(tree: Tree, th: Thread, i: nat, walked: nat, phase: Phase)
    requires LeadsTo(tree, th, walked) && th.path != []
    ensures LeadsTo(tree, DropIfDue(th, i, phase).thread, walked)
  {
    hide Resolve;
    StretchTrim(tree, ROOT, th.parts, walked + 1 - |th.path|, th.path);
  }

  /** Where the walk has come to when it ends. */
  lemma EndsAtReach(w: World, th: Thread, i: nat)
    requires LeadsTo(w.tree, th, i) && th.path != [] && i <= |th.parts|
    requires i == |th.parts| || Child(w.tree, Last(th.path), th.parts[i]).None?
    ensures Reach(w.tree, ROOT, th.parts) == i
  {
    hide Reach;
    var j := |th.path| - 1;
    assert Resolve(w.tree, ROOT, th.parts[..i + 1 - |th.path| + j]) == Some(th.path[j]);
    assert i + 1 - |th.path| + j == i;
    if i < |th.parts| {
      StepResolves(w.tree, ROOT, th.parts, i, Last(th.path));
    }
    ReachIs(w.tree, ROOT, th.parts, i);
  }

  lemma LookingGoesOn(w: World, th: Thread)
    requires ThreadOk(th, w) && th.phase.Looking? && LeadsTo(w.tree, th, th.phase.i)
    requires ThreadOk(NextMove(th, w.tree).value.thread, w)
    ensures
      var th' := NextMove(th, w.tree).value.thread;
      if th'.phase.Found? then IsKept(w.tree, th'.parts, th'.k, th'.path)
      else th'.phase.WantsChild? && LeadsTo(w.tree, th', th'.phase.i)
  {
    hide Resolve, Rising, Chained, Reach, Remaining, IsStretch, Trimmed, Distinct;
    var i := th.phase.i;
    if i >= |th.parts| || Child(w.tree, Last(th.path), th.parts[i]).None? {
      EndsAtReach(w, th, i);
      DropLeadsTo(w.tree, th, i, i, Found(i));
    }
  }

  lemma WantsChildGoesOn(w: World, th: Thread)
    requires ThreadOk(th, w) && th.phase.WantsChild? && LeadsTo(w.tree, th, th.phase.i)
    ensures
      var th' := NextMove(th, w.tree).value.thread;
      th'.phase == Locked(th.phase.i) && LeadsTo(w.tree, th', th.phase.i + 1)
  {
    hide Rising, Chained, Trimmed, Distinct;
    var i, j := th.phase.i, |th.path| - 1;
    assert Resolve(w.tree, ROOT, th.parts[..i + 1 - |th.path| + j]) == Some(th.path[j]);
    assert i + 1 - |th.path| + j == i;
    StepResolves(w.tree, ROOT, th.parts, i, Last(th.path));
    hide Resolve;
    StretchAdd(w.tree, ROOT, th.parts, i + 1 - |th.path|, th.path, th.phase.item);
  }

  lemma WalkGoesOn(s: State, w: World, first: Thread)
    requires Inv(s) && OnItsWay(s, w, first) && CanStep(s, 0)
    requires var phase := s.threads[0].phase; phase.WantsRoot? || phase.Looking? || phase.WantsChild? || phase.Locked?
    ensures OnItsWay(Step(s, 0).value, w, first)
  {
    hide Inv, ThreadOk, Resolve, IsStretch, Reach, Remaining, NextOwners, ApplyEdit, AtLookup, AreHeld;
    var th := s.threads[0];
    ThreadIsOk(s);
    StepKeeps(s, 0);
    ThreadIsOk(Step(s, 0).value);
    SameLookup(th, w.tree, first);
    match th.phase
    case WantsRoot =>
      NothingYet(w, th);
      RootStretch(w.tree, ROOT, th.parts);
    case Looking(i) => LookingGoesOn(w, th);
    case WantsChild(i, item) => WantsChildGoesOn(w, th);
    case Locked(i) =>
      HasPath(w, th);
      DropLeadsTo(w.tree, th, i, i + 1, Looking(i + 1));
    case _ =>
  }

  lemma SameLookup(th: Thread, tree: Tree, first: Thread)
    requires AtLookup(th, tree, first)
    ensures forall path, phase :: AtLookup(th.(path := path, phase := phase), tree, first)
  {
  }

  lemma ThreadIsOk(s: State)
    requires Inv(s) && |s.threads| == 1
    ensures ThreadOk(s.threads[0], s.world) && WorldOk(s.world) && OwnersOk(s.owners, s.threads)
  {
  }

  lemma NothingYet(w: World, th: Thread)
    requires ThreadOk(th, w) && th.phase.WantsRoot?
    ensures th.path + [ROOT] == [ROOT]
  {
  }

  lemma HasPath(w: World, th: Thread)
    requires ThreadOk(th, w) && th.phase.Locked?
    ensures th.path != []
  {
  }

  lemma FoundGoesOn(s: State, w: World, first: Thread)
    requires OnItsWay(s, w, first) && CanStep(s, 0) && s.threads[0].phase.Found?
    ensures OnItsWay(Step(s, 0).value, w, first)
  {
    hide IsKept, NextOwners, ApplyEdit;
    var th := s.threads[0];
    if th.second.None? && first.second.None? {
      assert th.before + th.path == th.path;
    }
  }

  lemma EndGoesOn(s: State, w: World, first: Thread)
    requires OnItsWay(s, w, first) && CanStep(s, 0)
    requires var phase := s.threads[0].phase; phase.Editing? || phase.Leaving? || phase.Finished?
    ensures OnItsWay(Step(s, 0).value, w, first)
  {
    hide AreHeld, NextOwners, ApplyEdit, FirstOccurrences;
    var th := s.threads[0];
    if th.phase.Editing? && th.edits == [] {
      assert AreHeld(w.tree, first, th.before + th.path);
      assert s.world == Edited(w, first.edits, th.before + th.path);
    }
  }

  lemma {:induction false} LoneRun(s: State, w: World, first: Thread, schedule: seq<nat>)
    requires Inv(s) && OnItsWay(s, w, first) && Run(s, schedule).Some?
    ensures OnItsWay(Run(s, schedule).value, w, first) && Inv(Run(s, schedule).value)
    decreases |schedule|
  {
    hide Inv, OnItsWay, Step;
    if schedule != [] {
      OnlyOne(s, w, first, schedule[0]);
      var phase := s.threads[0].phase;
      StepKeeps(s, 0);
      if phase.WantsRoot? || phase.Looking? || phase.WantsChild? || phase.Locked? {
        WalkGoesOn(s, w, first);
      } else if phase.Found? {
        FoundGoesOn(s, w, first);
      } else {
        EndGoesOn(s, w, first);
      }
      LoneRun(Step(s, 0).value, w, first, schedule[1..]);
    }
  }

  lemma OnlyOne(s: State, w: World, first: Thread, t: nat)
    requires OnItsWay(s, w, first) && CanStep(s, t)
    ensures t == 0 && |s.threads| == 1
  {
    hide AreHeld, AtLookup, LeadsTo, Done, Edited;
  }

  /** A thread does not wait for itself, not even a rename in its second lookup. */
  lemma LoneCanStep(s: State)
    requires Inv(s) && |s.threads| == 1 && !s.threads[0].phase.Finished?
    ensures CanStep(s, 0)
  {
    hide Inv, CanStep, ThreadOk, WorldOk, OwnersOk;
    ThreadIsOk(s);
    if Waits(s, 0) {
      OwnerIsZero(s);
      TargetIsNotHeld(s.world, s.threads[0]);
    }
    NotWaitingCanStep(s, 0);
  }

  lemma OwnerIsZero(s: State)
    requires OwnersOk(s.owners, s.threads) && |s.threads| == 1 && Waits(s, 0)
    ensures Target(s.threads[0]).value in Held(s.threads[0])
  {
    hide Held;
  }

  lemma TargetIsNotHeld(w: World, th: Thread)
    requires WorldOk(w) && ThreadOk(th, w) && Target(th).Some?
    ensures Target(th).value !in Held(th)
  {
    hide WorldOk, Rising, Chained, Trimmed;
    if Target(th).value in th.path {
      TargetIsDeeper(w, th, Target(th).value);
    }
  }

  /** A thread that runs alone until it can go no further, with one lookup or with the two of a rename, has held the
      nodes that its lookups keep, has made its changes to those of them, in order, and has given back every
      lock. */
  lemma LoneThreadDoesItsWork(w: World, th: Thread, schedule: seq<nat>)
    requires WorldOk(w) && IsFresh(th)
    requires
      var end := Run(State(w, map[], [th]), schedule);
      end.Some? && forall u :: !CanStep(end.value, u)
    ensures
      var end := Run(State(w, map[], [th]), schedule).value;
      && end.owners == map[] && |end.threads| == 1 && end.threads[0].phase.Finished?
      && exists held :: AreHeld(w.tree, th, held) && end.world == Edited(w, th.edits, held)
  {
    hide Run, CanStep, WorldOk, AreHeld, Inv;
    var s := State(w, map[], [th]);
    InitialInv(s);
    LoneRun(s, w, th, schedule);
    var end := Run(s, schedule).value;
    IsAlone(end, w, th);
    if !end.threads[0].phase.Finished? {
      LoneCanStep(end);
    }
    FinishedHoldsNothing(end);
  }

  lemma IsAlone(s: State, w: World, first: Thread)
    requires OnItsWay(s, w, first)
    ensures |s.threads| == 1
  {
  }

  lemma FinishedHoldsNothing(s: State)
    requires Inv(s) && |s.threads| == 1 && s.threads[0].phase.Finished?
    ensures s.owners == map[]
  {
    hide WorldOk, Rising;
    assert ThreadOk(s.threads[0], s.world);
    assert Held(s.threads[0]) == {};
    assert forall node :: node !in s.owners;
  }
}
