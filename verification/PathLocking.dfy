/** Many threads looking paths up at once (src/fs/FsUtils.cpp, src/fs/FsPath.cpp), as interleaved steps.
    A thread locks the root, walks down hand over hand, acts on the nodes it keeps locked, and releases
    them. Each step does at most one thing another thread can see: take a lock, give one back, or change
    a directory. */
module PathLocking {
  import opened Bytes
  import opened PathLookup

  const ROOT: NodeId := 0

  /** What a caller does to the directories it holds. */
  datatype Edit = Add(dir: NodeId, name: string, node: Node) | Remove(dir: NodeId, name: string)

  /** Where a thread stands; `i` parts of the path have been walked. */
  datatype Phase =
    | WantsRoot
    | Looking(i: nat)
    | WantsChild(i: nat, item: NodeId)
    | Locked(i: nat)
    | Found(i: nat)
    | Editing
    | Leaving
    | Finished

  /** `before` holds the nodes of an earlier lookup, `second` is a lookup still to come; only a rename has them. */
  datatype Thread = Thread(parts: seq<string>, k: nat, phase: Phase, path: seq<NodeId>, edits: seq<Edit>,
                           before: seq<NodeId>, second: Option<seq<string>>)

  /** The tree, the depth at which and the directory in which each node was linked, and the next free id. */
  datatype World = World(tree: Tree, depth: map<NodeId, nat>, parent: map<NodeId, NodeId>, nextId: NodeId)

  datatype State = State(world: World, owners: map<NodeId, nat>, threads: seq<Thread>)

  datatype Effect = Silent | Take(node: NodeId) | Give(node: NodeId) | Change(edit: Edit)

  datatype Move = Move(thread: Thread, effect: Effect)

  function Last(path: seq<NodeId>): NodeId {
    if path == [] then ROOT else path[|path| - 1]
  }

  function TakeUnlessHeld(th: Thread, node: NodeId, phase: Phase): Move {
    Move(th.(path := th.path + [node], phase := phase), if node in th.before then Silent else Take(node))
  }

  function DropFirst(th: Thread, phase: Phase): Move {
    if th.path == [] then Move(th.(phase := phase), Silent)
    else Move(th.(path := th.path[1..], phase := phase), if th.path[0] in th.before then Silent else Give(th.path[0]))
  }

  /** Drops the first node when the walk is `i` parts along a path of which `k` nodes are to stay. */
  function DropIfDue(th: Thread, i: nat, phase: Phase): Move {
    if i <= |th.parts| - th.k then DropFirst(th, phase) else Move(th.(phase := phase), Silent)
  }

  function NextMove(th: Thread, tree: Tree): Option<Move> {
    match th.phase
    case WantsRoot => Some(TakeUnlessHeld(th, ROOT, Looking(0)))
    case Looking(i) =>
      if i >= |th.parts| then Some(Move(th.(phase := Found(i)), Silent))
      else
        var item := Child(tree, Last(th.path), th.parts[i]);
        if item.Some? then Some(Move(th.(phase := WantsChild(i, item.value)), Silent))
        else Some(DropIfDue(th, i, Found(i)))
    case WantsChild(i, item) => Some(TakeUnlessHeld(th, item, Locked(i)))
    case Locked(i) => Some(DropIfDue(th, i, Looking(i + 1)))
    case Found(_) =>
      if th.second.Some? then
        Some(Move(Thread(th.second.value, th.k, WantsRoot, [], th.edits, th.path, None), Silent))
      else Some(Move(th.(phase := Editing), Silent))
    case Editing =>
      if th.edits == [] then
        var joint := FirstOccurrences(th.before + th.path);
        Some(Move(th.(phase := Leaving, path := joint, before := []), Silent))
      else
        var edit := th.edits[0];
        Some(Move(th.(edits := th.edits[1..]), if edit.dir in th.before + th.path then Change(edit) else Silent))
    case Leaving =>
      if th.path == [] then Some(Move(th.(phase := Finished), Silent))
      else Some(Move(th.(path := th.path[..|th.path| - 1]), Give(Last(th.path))))
    case Finished => None
  }

  /** `addItem` leaves an entry of the same name alone. */
  function ApplyEdit(w: World, edit: Edit): World {
    if edit.dir !in w.tree || !w.tree[edit.dir].DirNode? || edit.dir !in w.depth then w
    else
      var children := w.tree[edit.dir].children;
      match edit
      case Add(dir, name, node) =>
        if name in children then w
        else
          var empty := if node.DirNode? then DirNode(map[]) else FileNode;
          World(w.tree[dir := DirNode(children[name := w.nextId])][w.nextId := empty],
                w.depth[w.nextId := w.depth[dir] + 1], w.parent[w.nextId := dir], w.nextId + 1)
      case Remove(dir, name) => w.(tree := w.tree[dir := DirNode(children - {name})])
  }

  /** One step of thread `t`: None when it has finished or waits for a lock. */
  function Step(s: State, t: nat): Option<State>
    requires t < |s.threads|
  {
    var move := NextMove(s.threads[t], s.world.tree);
    if move.None? then None
    else
      var threads := s.threads[t := move.value.thread];
      var effect := move.value.effect;
      if effect.Take? && effect.node in s.owners then None
      else
        var world := if effect.Change? then ApplyEdit(s.world, effect.edit) else s.world;
        Some(State(world, NextOwners(s.owners, t, effect), threads))
  }

  function NextOwners(owners: map<NodeId, nat>, t: nat, effect: Effect): map<NodeId, nat> {
    match effect
    case Take(node) => owners[node := t]
    case Give(node) => owners - {node}
    case _ => owners
  }

  predicate CanStep(s: State, t: nat) {
    t < |s.threads| && Step(s, t).Some?
  }

  function Run(s: State, schedule: seq<nat>): Option<State>
    decreases |schedule|
  {
    if schedule == [] then Some(s)
    else if CanStep(s, schedule[0]) then Run(Step(s, schedule[0]).value, schedule[1..])
    else None
  }

  // ----- The invariant -----

  /** Every entry is one deeper than its directory, and of that directory alone; ids in use are below the
      next one. */
  ghost predicate WorldOk(w: World) {
    && ROOT in w.depth && w.depth[ROOT] == 0
    && (forall node | node in w.depth :: node < w.nextId && (w.depth[node] == 0 ==> node == ROOT))
    && (forall node, name | Child(w.tree, node, name).Some? :: LinkOk(w, node, Child(w.tree, node, name).value))
  }

  predicate LinkOk(w: World, node: NodeId, child: NodeId) {
    && node in w.depth && child in w.depth && w.depth[child] == w.depth[node] + 1
    && child in w.parent && w.parent[child] == node
  }

  /** Each node was linked in the one before it. */
  predicate Rising(path: seq<NodeId>, w: World) {
    && (forall j | 0 <= j < |path| :: path[j] in w.depth && w.depth[path[j]] == DepthOf(w, path[0]) + j)
    && (forall j | 0 < j < |path| :: path[j] in w.parent && w.parent[path[j]] == path[j - 1])
  }

  function DepthOf(w: World, node: NodeId): nat {
    if node in w.depth then w.depth[node] else 0
  }

  /** In the tree as it is now, each node of the path is the entry of the one before it that the lookup
      asked for; the last is where `i` parts lead. */
  predicate Chained(w: World, path: seq<NodeId>, parts: seq<string>, i: nat) {
    && |path| <= i + 1 <= |parts| + 1
    && (path != [] ==> DepthOf(w, path[0]) + |path| == i + 1)
    && forall j | 0 <= j < |path| - 1 :: Child(w.tree, path[j], parts[i + 1 - |path| + j]) == Some(path[j + 1])
  }

  predicate PhaseOk(th: Thread, w: World) {
    var n := |th.parts|;
    match th.phase
    case WantsRoot => th.path == []
    case Looking(i) =>
      i <= n && Chained(w, th.path, th.parts, i) && th.path != [] && |th.path| == i + 1 - Trimmed(n - th.k, i)
    case WantsChild(i, item) =>
      && i < n && Chained(w, th.path, th.parts, i) && th.path != [] && |th.path| == i + 1 - Trimmed(n - th.k, i)
      && Child(w.tree, Last(th.path), th.parts[i]) == Some(item)
    case Locked(i) =>
      i < n && Chained(w, th.path, th.parts, i + 1) && |th.path| == i + 2 - Trimmed(n - th.k, i)
    case Found(i) => i <= n && Chained(w, th.path, th.parts, i) && |th.path| == Remaining(n, th.k, i)
    case Editing => true
    case Leaving => th.before == []
    case Finished => th.path == [] && th.before == []
  }

  predicate ThreadOk(th: Thread, w: World) {
    && th.k >= 1 && (th.second.Some? ==> th.before == [])
    && Rising(th.before, w) && (th.phase.Leaving? || Rising(th.path, w)) && Distinct(th.path)
    && PhaseOk(th, w)
  }

  /** The nodes a thread has locked: those its lookups left it, each once. */
  function Held(th: Thread): set<NodeId> {
    Ids(th.before) + Ids(th.path)
  }

  /** A lock is held by exactly the thread that has the node on a path. */
  ghost predicate OwnersOk(owners: map<NodeId, nat>, threads: seq<Thread>) {
    && (forall t, node | 0 <= t < |threads| && node in Held(threads[t]) :: node in owners && owners[node] == t)
    && (forall node | node in owners :: owners[node] < |threads| && node in Held(threads[owners[node]]))
  }

  ghost predicate ThreadsOk(threads: seq<Thread>, w: World) {
    forall t | 0 <= t < |threads| :: ThreadOk(threads[t], w)
  }

  ghost predicate Inv(s: State) {
    WorldOk(s.world) && OwnersOk(s.owners, s.threads) && ThreadsOk(s.threads, s.world)
  }

  predicate IsFresh(th: Thread) {
    th.k >= 1 && th.phase == WantsRoot && th.path == [] && th.before == []
  }

  /** Threads that have not begun, each with one path to look up or with the two of a rename. */
  ghost predicate Initial(s: State) {
    WorldOk(s.world) && s.owners == map[] && forall t | 0 <= t < |s.threads| :: IsFresh(s.threads[t])
  }

  lemma InitialInv(s: State)
    requires Initial(s)
    ensures Inv(s)
  {
  }

  // ----- One thread's own step -----

  lemma RisingIsDistinct(path: seq<NodeId>, w: World)
    requires Rising(path, w)
    ensures Distinct(path)
  {
  }

  lemma RisingTail(path: seq<NodeId>, w: World)
    requires Rising(path, w) && path != []
    ensures Rising(path[1..], w)
  {
    var tail := path[1..];
    assert forall j | 0 <= j < |tail| :: tail[j] == path[j + 1];
  }

  lemma ChainedTail(w: World, path: seq<NodeId>, parts: seq<string>, i: nat)
    requires Rising(path, w) && Chained(w, path, parts, i) && path != []
    ensures Chained(w, path[1..], parts, i)
  {
    var tail := path[1..];
    assert tail != [] ==> DepthOf(w, tail[0]) == DepthOf(w, path[0]) + 1;
    forall j | 0 <= j < |tail| - 1
      ensures Child(w.tree, tail[j], parts[i + 1 - |tail| + j]) == Some(tail[j + 1])
    {
      assert Child(w.tree, path[j + 1], parts[i + 1 - |path| + (j + 1)]) == Some(path[j + 2]);
    }
  }

  lemma DistinctParts(path: seq<NodeId>)
    requires Distinct(path) && path != []
    ensures Distinct(path[1..]) && Distinct(path[..|path| - 1])
  {
    assert forall j | 0 <= j < |path[1..]| :: path[1..][j] == path[j + 1];
  }

  lemma DropKeeps(th: Thread, w: World, i: nat, walked: nat, phase: Phase)
    requires Rising(th.path, w) && Chained(w, th.path, th.parts, walked) && th.path != []
    ensures
      var move := DropIfDue(th, i, phase);
      && Rising(move.thread.path, w) && Distinct(move.thread.path) && Chained(w, move.thread.path, th.parts, walked)
      && |move.thread.path| == |th.path| - if i <= |th.parts| - th.k then 1 else 0
  {
    hide Rising, Chained, Distinct;
    RisingTail(th.path, w);
    ChainedTail(w, th.path, th.parts, walked);
    RisingIsDistinct(th.path, w);
    DistinctParts(th.path);
  }

  lemma GrowKeeps(w: World, path: seq<NodeId>, parts: seq<string>, i: nat, item: NodeId)
    requires WorldOk(w) && Rising(path, w) && Chained(w, path, parts, i) && path != [] && i < |parts|
    requires Child(w.tree, Last(path), parts[i]) == Some(item)
    ensures Rising(path + [item], w) && Chained(w, path + [item], parts, i + 1)
  {
    assert LinkOk(w, Last(path), item);
    var grown := path + [item];
    forall j | 0 <= j < |grown| - 1
      ensures Child(w.tree, grown[j], parts[i + 2 - |grown| + j]) == Some(grown[j + 1])
    {
    }
  }

  lemma LookingKeeps(w: World, th: Thread)
    requires WorldOk(w) && ThreadOk(th, w) && th.phase.Looking?
    ensures ThreadOk(NextMove(th, w.tree).value.thread, w)
  {
    hide WorldOk, Remaining, Trimmed, Rising, Chained, Distinct;
    var n, i := |th.parts|, th.phase.i;
    if i < n && Child(w.tree, Last(th.path), th.parts[i]).None? {
      DropKeeps(th, w, i, i, Found(i));
      StoppedRemaining(n, th.k, i);
    } else {
      FinishedRemaining(n, th.k);
    }
  }

  lemma LockedKeeps(w: World, th: Thread)
    requires ThreadOk(th, w) && th.phase.Locked?
    ensures ThreadOk(NextMove(th, w.tree).value.thread, w)
  {
    hide Remaining, Trimmed, Rising, Chained, Distinct;
    var n, i := |th.parts|, th.phase.i;
    TrimmedNext(n - th.k, i);
    DropKeeps(th, w, i, i + 1, Looking(i + 1));
  }

  lemma WantsRootKeeps(w: World, th: Thread)
    requires WorldOk(w) && ThreadOk(th, w) && th.phase.WantsRoot?
    ensures ThreadOk(NextMove(th, w.tree).value.thread, w)
  {
  }

  lemma WantsChildKeeps(w: World, th: Thread)
    requires WorldOk(w) && ThreadOk(th, w) && th.phase.WantsChild?
    ensures ThreadOk(NextMove(th, w.tree).value.thread, w)
  {
    hide WorldOk, Remaining, Trimmed, Rising, Chained, Distinct;
    GrowKeeps(w, th.path, th.parts, th.phase.i, th.phase.item);
    RisingIsDistinct(th.path + [th.phase.item], w);
  }

  lemma FoundKeeps(w: World, th: Thread)
    requires ThreadOk(th, w) && th.phase.Found?
    ensures ThreadOk(NextMove(th, w.tree).value.thread, w)
  {
    hide Remaining, Trimmed, Chained;
  }

  /** A thread's step keeps its own part of the invariant, in the world it starts from. */
  lemma MoveKeeps(w: World, th: Thread)
    requires WorldOk(w) && ThreadOk(th, w) && NextMove(th, w.tree).Some?
    ensures ThreadOk(NextMove(th, w.tree).value.thread, w)
  {
    hide ThreadOk, WorldOk;
    match th.phase
    case WantsRoot => WantsRootKeeps(w, th);
    case Looking(_) => LookingKeeps(w, th);
    case WantsChild(_, _) => WantsChildKeeps(w, th);
    case Locked(_) => LockedKeeps(w, th);
    case Found(_) => FoundKeeps(w, th);
    case Editing => LeaveKeeps(w, th);
    case Leaving => LeaveKeeps(w, th);
    case Finished =>
  }

  lemma LeaveKeeps(w: World, th: Thread)
    requires ThreadOk(th, w) && (th.phase.Editing? || th.phase.Leaving?)
    ensures ThreadOk(NextMove(th, w.tree).value.thread, w)
  {
    hide FirstOccurrences;
    if th.phase.Leaving? && th.path != [] {
      DistinctParts(th.path);
    }
  }

  /** What a step does to the nodes the thread holds. */
  ghost predicate Moves(before: set<NodeId>, after: set<NodeId>, effect: Effect) {
    match effect
    case Silent => after == before
    case Take(node) => after == before + {node}
    case Give(node) => node in before && after == before - {node}
    case Change(edit) => after == before && edit.dir in before
  }

  lemma FirstGone(path: seq<NodeId>)
    requires Distinct(path) && path != []
    ensures Ids(path[1..]) == Ids(path) - {path[0]} && path[0] in Ids(path)
    ensures Ids(path[..|path| - 1]) == Ids(path) - {Last(path)} && Last(path) in Ids(path)
  {
    assert path == [path[0]] + path[1..];
    assert path == path[..|path| - 1] + [Last(path)];
  }

  lemma DropMoves(th: Thread, i: nat, phase: Phase)
    requires Distinct(th.path)
    ensures
      var move := DropIfDue(th, i, phase);
      Moves(Held(th), Held(move.thread), move.effect)
  {
    hide Distinct;
    if th.path != [] {
      FirstGone(th.path);
    }
  }

  lemma TakeMoves(th: Thread, node: NodeId, phase: Phase)
    ensures var move := TakeUnlessHeld(th, node, phase); Moves(Held(th), Held(move.thread), move.effect)
  {
    assert Ids(th.path + [node]) == Ids(th.path) + {node};
  }

  lemma LeaveMoves(th: Thread, tree: Tree)
    requires Distinct(th.path) && (th.phase.Editing? || (th.phase.Leaving? && th.before == []))
    ensures
      var move := NextMove(th, tree).value;
      Moves(Held(th), Held(move.thread), move.effect)
  {
    hide FirstOccurrences, Distinct;
    JoinedIds(th.before, th.path);
    EmptyIds();
    if th.phase.Leaving? && th.path != [] {
      FirstGone(th.path);
    } else if th.edits != [] {
      assert th.edits[0].dir in th.before + th.path ==> th.edits[0].dir in Ids(th.before + th.path);
    }
  }

  lemma MoveMoves(th: Thread, w: World)
    requires ThreadOk(th, w) && NextMove(th, w.tree).Some?
    ensures
      var move := NextMove(th, w.tree).value;
      Moves(Held(th), Held(move.thread), move.effect)
  {
    hide Rising, Chained, Trimmed, Remaining, DropIfDue, TakeUnlessHeld, Distinct, FirstOccurrences, Ids;
    EmptyIds();
    match th.phase
    case WantsRoot => TakeMoves(th, ROOT, Looking(0));
    case Looking(i) => DropMoves(th, i, Found(i));
    case WantsChild(i, item) => TakeMoves(th, item, Locked(i));
    case Locked(i) => DropMoves(th, i, Looking(i + 1));
    case Found(_) =>
    case Editing => LeaveMoves(th, w.tree);
    case Leaving => LeaveMoves(th, w.tree);
    case Finished =>
  }

  // ----- The other threads -----

  lemma OwnersKeep(owners: map<NodeId, nat>, threads: seq<Thread>, t: nat, th: Thread, effect: Effect)
    requires OwnersOk(owners, threads) && t < |threads| && Moves(Held(threads[t]), Held(th), effect)
    requires effect.Take? ==> effect.node !in owners
    ensures OwnersOk(NextOwners(owners, t, effect), threads[t := th])
  {
    hide Held;
    var owners', threads' := NextOwners(owners, t, effect), threads[t := th];
    assert effect.Give? ==> effect.node in Held(threads[t]) && owners[effect.node] == t;
    forall u, node | 0 <= u < |threads'| && node in Held(threads'[u])
      ensures node in owners' && owners'[node] == u
    {
      if u != t {
        assert node in Held(threads[u]) && owners[node] == u;
      } else {
        assert node in Held(threads[t]) || (effect.Take? && node == effect.node);
      }
    }
    forall node | node in owners'
      ensures owners'[node] < |threads'| && node in Held(threads'[owners'[node]])
    {
      if owners'[node] == t {
        assert node in Held(threads[t]) || (effect.Take? && node == effect.node);
      } else {
        assert node in Held(threads[owners[node]]);
      }
    }
  }

  lemma UnchangedElsewhere(w: World, edit: Edit, node: NodeId, name: string)
    requires WorldOk(w) && node in w.depth && node != edit.dir
    ensures Child(ApplyEdit(w, edit).tree, node, name) == Child(w.tree, node, name)
  {
  }

  lemma LinksStay(w: World, edit: Edit, node: NodeId)
    requires WorldOk(w) && node in w.depth
    ensures
      var w' := ApplyEdit(w, edit);
      && node in w'.depth && w'.depth[node] == w.depth[node]
      && (node in w.parent ==> node in w'.parent && w'.parent[node] == w.parent[node])
  {
  }

  lemma RisingStays(w: World, edit: Edit, path: seq<NodeId>)
    requires WorldOk(w) && Rising(path, w)
    ensures Rising(path, ApplyEdit(w, edit))
    ensures path != [] ==> DepthOf(ApplyEdit(w, edit), path[0]) == DepthOf(w, path[0])
  {
    hide WorldOk, ApplyEdit;
    var w' := ApplyEdit(w, edit);
    forall j | 0 <= j < |path|
      ensures
        && path[j] in w'.depth && w'.depth[path[j]] == w.depth[path[j]]
        && (path[j] in w.parent ==> path[j] in w'.parent && w'.parent[path[j]] == w.parent[path[j]])
    {
      LinksStay(w, edit, path[j]);
    }
  }

  lemma ChainedStays(w: World, edit: Edit, path: seq<NodeId>, parts: seq<string>, i: nat)
    requires WorldOk(w) && Rising(path, w) && edit.dir !in path && Chained(w, path, parts, i)
    ensures Chained(ApplyEdit(w, edit), path, parts, i)
  {
    hide WorldOk, ApplyEdit;
    RisingStays(w, edit, path);
    forall j | 0 <= j < |path| - 1
      ensures Child(ApplyEdit(w, edit).tree, path[j], parts[i + 1 - |path| + j]) == Some(path[j + 1])
    {
      UnchangedElsewhere(w, edit, path[j], parts[i + 1 - |path| + j]);
    }
  }

  /** An edit of a directory that a thread does not hold leaves that thread's part alone. */
  lemma EditKeepsOthers(w: World, edit: Edit, th: Thread)
    requires WorldOk(w) && ThreadOk(th, w) && edit.dir !in Held(th)
    ensures ThreadOk(th, ApplyEdit(w, edit))
  {
    hide WorldOk, ApplyEdit, Chained, Distinct, Rising, Remaining, Trimmed;
    RisingStays(w, edit, th.before);
    assert edit.dir !in th.path;
    if !th.phase.Leaving? {
      RisingStays(w, edit, th.path);
    }
    match th.phase
    case Looking(i) => ChainedStays(w, edit, th.path, th.parts, i);
    case WantsChild(i, item) =>
      ChainedStays(w, edit, th.path, th.parts, i);
      RisingKnown(w, th.path);
      UnchangedElsewhere(w, edit, Last(th.path), th.parts[i]);
    case Locked(i) => ChainedStays(w, edit, th.path, th.parts, i + 1);
    case Found(i) => ChainedStays(w, edit, th.path, th.parts, i);
    case _ =>
  }

  lemma RisingKnown(w: World, path: seq<NodeId>)
    requires Rising(path, w) && path != []
    ensures Last(path) in w.depth
  {
  }

  lemma EditKeepsWorld(w: World, edit: Edit)
    requires WorldOk(w)
    ensures WorldOk(ApplyEdit(w, edit))
  {
    var w' := ApplyEdit(w, edit);
    forall node, name | Child(w'.tree, node, name).Some?
      ensures LinkOk(w', node, Child(w'.tree, node, name).value)
    {
      if Child(w'.tree, node, name) == Child(w.tree, node, name) {
        assert LinkOk(w, node, Child(w.tree, node, name).value);
      }
    }
  }

  // ----- Every step keeps the invariant -----

  lemma StepThreadsKeep(s: State, t: nat)
    requires Inv(s) && CanStep(s, t)
    ensures var s' := Step(s, t).value; ThreadsOk(s'.threads, s'.world) && WorldOk(s'.world)
  {
    hide WorldOk, ThreadOk, NextMove, ApplyEdit, NextOwners, Held;
    var s', th := Step(s, t).value, s.threads[t];
    assert ThreadOk(th, s.world);
    MoveKeeps(s.world, th);
    var move := NextMove(th, s.world.tree).value;
    if move.effect.Change? {
      MoveMoves(th, s.world);
      EditKeepsWorld(s.world, move.effect.edit);
      EditorKeeps(s.world, th, move.effect.edit);
    }
    forall u | 0 <= u < |s'.threads|
      ensures ThreadOk(s'.threads[u], s'.world)
    {
      if u != t {
        assert ThreadOk(s.threads[u], s.world);
        if move.effect.Change? {
          HeldOnce(s, t, u, move.effect.edit.dir);
          EditKeepsOthers(s.world, move.effect.edit, s.threads[u]);
        }
      }
    }
  }

  lemma EditorKeeps(w: World, th: Thread, edit: Edit)
    requires WorldOk(w) && ThreadOk(th, w)
    requires NextMove(th, w.tree).Some? && NextMove(th, w.tree).value.effect == Change(edit)
    ensures ThreadOk(NextMove(th, w.tree).value.thread, ApplyEdit(w, edit))
  {
    hide ApplyEdit, WorldOk, Rising;
    assert th.phase.Editing?;
    RisingStays(w, edit, th.path);
    RisingStays(w, edit, th.before);
  }

  /** No node is held twice. */
  lemma HeldOnce(s: State, t: nat, u: nat, node: NodeId)
    requires OwnersOk(s.owners, s.threads) && t < |s.threads| && u < |s.threads| && t != u
    requires node in Held(s.threads[t])
    ensures node !in Held(s.threads[u])
  {
    hide Held;
    assert s.owners[node] == t;
  }

  lemma StepKeeps(s: State, t: nat)
    requires Inv(s) && CanStep(s, t)
    ensures Inv(Step(s, t).value)
  {
    hide WorldOk, ThreadOk, NextMove, ApplyEdit, NextOwners, OwnersOk, Held;
    StepThreadsKeep(s, t);
    var th := s.threads[t];
    assert ThreadOk(th, s.world);
    MoveMoves(th, s.world);
    var move := NextMove(th, s.world.tree).value;
    OwnersKeep(s.owners, s.threads, t, move.thread, move.effect);
  }

  lemma {:induction false} RunKeeps(s: State, schedule: seq<nat>)
    requires Inv(s) && Run(s, schedule).Some?
    ensures Inv(Run(s, schedule).value)
    decreases |schedule|
  {
    hide Inv, Step;
    if schedule != [] {
      StepKeeps(s, schedule[0]);
      RunKeeps(Step(s, schedule[0]).value, schedule[1..]);
    }
  }

  /** When a thread's lookup ends by keeping `k` nodes, the whole path was walked, and in the tree as it
      is at that moment each node kept is the entry of the one before it under the name asked for. */
  lemma FoundIsThere(s: State, t: nat, j: nat)
    requires Inv(s) && t < |s.threads| && s.threads[t].phase.Found? && |s.threads[t].parts| + 1 >= s.threads[t].k
    requires |s.threads[t].path| == s.threads[t].k && j + 1 < |s.threads[t].path|
    ensures
      var th := s.threads[t];
      && th.phase.i == |th.parts|
      && Child(s.world.tree, th.path[j], th.parts[|th.parts| + 1 - th.k + j]) == Some(th.path[j + 1])
  {
    hide WorldOk, OwnersOk, Rising;
    assert ThreadOk(s.threads[t], s.world);
  }

  /** The locks in use are those of the threads, and no two threads share one. */
  lemma LocksAreHeld(s: State, schedule: seq<nat>, node: NodeId)
    requires Initial(s) && Run(s, schedule).Some?
    ensures
      var s' := Run(s, schedule).value;
      && (node in s'.owners <==> exists t :: 0 <= t < |s'.threads| && node in Held(s'.threads[t]))
      && forall t, u | 0 <= t < u < |s'.threads| :: !(node in Held(s'.threads[t]) && node in Held(s'.threads[u]))
  {
    hide Initial, Run, Held, WorldOk, ThreadsOk;
    InitialInv(s);
    RunKeeps(s, schedule);
  }

  // ----- No deadlock -----

  /** The lock a thread is about to take */
  function Target(th: Thread): Option<NodeId> {
    match th.phase
    case WantsRoot => if ROOT in th.before then None else Some(ROOT)
    case WantsChild(_, item) => if item in th.before then None else Some(item)
    case _ => None
  }

  predicate Waits(s: State, t: nat) {
    t < |s.threads| && Target(s.threads[t]).Some? && Target(s.threads[t]).value in s.owners
  }

  lemma NotWaitingCanStep(s: State, t: nat)
    requires t < |s.threads| && !s.threads[t].phase.Finished? && !Waits(s, t)
    ensures CanStep(s, t)
  {
    hide ApplyEdit, NextOwners, FirstOccurrences, Child;
  }

  lemma WaitingCannotStep(s: State, t: nat)
    requires Waits(s, t)
    ensures !CanStep(s, t)
  {
  }

  /** A thread that has begun its second lookup holds the root, or nothing from its first. */
  predicate HoldsHigh(th: Thread) {
    th.before == [] || ROOT in th.before
  }

  ghost predicate AllHoldHigh(threads: seq<Thread>) {
    forall t | 0 <= t < |threads| :: HoldsHigh(threads[t])
  }

  /** Wherever a thread waits, the holder of the lock has not finished, and if it waits too then for a
      node that lies deeper. */
  lemma WaitsForDeeper(s: State, t: nat)
    requires Inv(s) && AllHoldHigh(s.threads) && Waits(s, t)
    ensures
      var u := s.owners[Target(s.threads[t]).value];
      && u < |s.threads| && !s.threads[u].phase.Finished?
      && (Waits(s, u) ==>
            DepthOf(s.world, Target(s.threads[t]).value) < DepthOf(s.world, Target(s.threads[u]).value))
      && (Waits(s, u) ==> Target(s.threads[u]).value in s.world.depth)
  {
    hide WorldOk, ThreadOk, HoldsHigh, DepthOf, Target;
    var node := Target(s.threads[t]).value;
    var u := s.owners[node];
    assert node in Held(s.threads[u]);
    assert ThreadOk(s.threads[u], s.world) && ThreadOk(s.threads[t], s.world);
    assert HoldsHigh(s.threads[u]);
    HolderHasNotFinished(s.world, s.threads[u], node);
    if Waits(s, u) {
      TargetIsDeep(s.world, s.threads[u]);
      if node in s.threads[u].path {
        TargetIsDeeper(s.world, s.threads[u], node);
      } else {
        assert node in s.threads[u].before;
        OnlyRootIsAwaited(s, t, u);
        NotTheRoot(s.world, s.threads[u]);
      }
    }
  }

  lemma HolderHasNotFinished(w: World, th: Thread, node: NodeId)
    requires ThreadOk(th, w) && node in Held(th)
    ensures !th.phase.Finished?
  {
  }

  lemma TargetIsDeep(w: World, th: Thread)
    requires WorldOk(w) && ThreadOk(th, w) && Target(th).Some?
    ensures Target(th).value in w.depth
    ensures th.phase.WantsChild? ==>
      th.path != [] && LinkOk(w, Last(th.path), Target(th).value) && Last(th.path) in Held(th)
  {
    hide Rising, Chained, Trimmed;
    if th.phase.WantsChild? {
      assert LinkOk(w, Last(th.path), th.phase.item);
    }
  }

  lemma TargetIsDeeper(w: World, th: Thread, node: NodeId)
    requires WorldOk(w) && ThreadOk(th, w) && node in th.path && Target(th).Some?
    ensures DepthOf(w, node) < DepthOf(w, Target(th).value)
  {
    hide Chained, Trimmed;
    assert LinkOk(w, Last(th.path), th.phase.item);
  }

  /** A thread that holds the root waits for none but a deeper node. */
  lemma NotTheRoot(w: World, th: Thread)
    requires WorldOk(w) && ThreadOk(th, w) && Target(th).Some? && ROOT in th.before
    ensures DepthOf(w, ROOT) < DepthOf(w, Target(th).value)
  {
    hide Chained, Trimmed, Rising;
    assert LinkOk(w, Last(th.path), th.phase.item);
  }

  lemma AboveIsHeld(w: World, path: seq<NodeId>, node: NodeId)
    requires WorldOk(w) && Rising(path, w) && ROOT in path && node in path && node != ROOT
    ensures node in w.parent && w.parent[node] in path
  {
    hide Chained;
    var j :| 0 <= j < |path| && path[j] == ROOT;
    assert j == 0;
    var l :| 0 <= l < |path| && path[l] == node;
    assert w.parent[path[l]] == path[l - 1];
  }

  /** Of what an earlier lookup left locked from the root on, others wait for the root alone: to wait for
      another node they would have to hold the one above it. */
  lemma OnlyRootIsAwaited(s: State, t: nat, u: nat)
    requires Inv(s) && Waits(s, t) && u < |s.threads| && HoldsHigh(s.threads[u])
    requires Target(s.threads[t]).value in s.threads[u].before
    ensures Target(s.threads[t]).value == ROOT && ROOT in s.threads[u].before
  {
    hide WorldOk, Rising, PhaseOk, Held;
    var node := Target(s.threads[t]).value;
    assert ThreadOk(s.threads[t], s.world) && ThreadOk(s.threads[u], s.world);
    if node != ROOT {
      AboveIsHeld(s.world, s.threads[u].before, node);
      var above := s.world.parent[node];
      BeforeIsHeld(s.threads[u], above);
      assert s.owners[above] == u;
      TargetIsDeep(s.world, s.threads[t]);
      assert false;
    }
  }

  lemma BeforeIsHeld(th: Thread, node: NodeId)
    requires node in th.before
    ensures node in Held(th)
  {
  }

  lemma {:induction false} DeepestOf(depth: map<NodeId, nat>) returns (deepest: nat)
    ensures forall node | node in depth :: depth[node] <= deepest
    decreases |depth|
  {
    if depth == map[] {
      deepest := 0;
    } else {
      var node :| node in depth;
      var rest := depth - {node};
      deepest := DeepestOf(rest);
      if deepest < depth[node] {
        deepest := depth[node];
      }
      forall other | other in depth
        ensures depth[other] <= deepest
      {
        assert other == node || other in rest;
      }
    }
  }

  /** Along the waits from `t` there is a thread that can step. */
  lemma {:induction false} SomeoneSteps(s: State, t: nat, deepest: nat) returns (u: nat)
    requires Inv(s) && AllHoldHigh(s.threads) && t < |s.threads| && !s.threads[t].phase.Finished?
    requires forall node | node in s.world.depth :: s.world.depth[node] <= deepest
    requires Waits(s, t) ==> DepthOf(s.world, Target(s.threads[t]).value) <= deepest
    ensures CanStep(s, u)
    decreases if Waits(s, t) then deepest + 1 - DepthOf(s.world, Target(s.threads[t]).value) else 0
  {
    hide Inv, CanStep, Target, DepthOf, AllHoldHigh;
    if Waits(s, t) {
      WaitsForDeeper(s, t);
      AtMostDeepest(s.world, deepest);
      u := SomeoneSteps(s, s.owners[Target(s.threads[t]).value], deepest);
    } else {
      NotWaitingCanStep(s, t);
      u := t;
    }
  }

  lemma AtMostDeepest(w: World, deepest: nat)
    requires forall node | node in w.depth :: w.depth[node] <= deepest
    ensures forall node :: DepthOf(w, node) <= deepest
  {
  }

  /** Someone has not finished, and no one can step. */
  ghost predicate Deadlocked(s: State) {
    (exists t :: 0 <= t < |s.threads| && !s.threads[t].phase.Finished?) && forall u :: !CanStep(s, u)
  }

  lemma HighIsNotDeadlocked(s: State)
    requires Inv(s) && AllHoldHigh(s.threads)
    ensures !Deadlocked(s)
  {
    hide Inv, CanStep, AllHoldHigh, DepthOf;
    if t :| 0 <= t < |s.threads| && !s.threads[t].phase.Finished? {
      var deepest := DeepestOf(s.world.depth);
      AtMostDeepest(s.world, deepest);
      var u := SomeoneSteps(s, t, deepest);
    }
  }

  /** A rename whose first path has fewer parts than nodes that stay: its lookup never lets go of the root. */
  predicate StaysHigh(th: Thread) {
    HoldsHigh(th) && (th.second.Some? ==> |th.parts| < th.k)
  }

  lemma MoveStaysHigh(w: World, th: Thread)
    requires WorldOk(w) && ThreadOk(th, w) && StaysHigh(th) && NextMove(th, w.tree).Some?
    ensures StaysHigh(NextMove(th, w.tree).value.thread)
  {
    hide FirstOccurrences, DropIfDue;
    match th.phase
    case Looking(i) => DropFrame(th, i, Found(i));
    case Locked(i) => DropFrame(th, i, Looking(i + 1));
    case Found(i) =>
      if th.second.Some? {
        assert |th.path| == i + 1;
        assert w.depth[th.path[0]] == 0;
      }
    case _ =>
  }

  lemma DropFrame(th: Thread, i: nat, phase: Phase)
    ensures
      var th' := DropIfDue(th, i, phase).thread;
      th' == th.(phase := phase, path := th'.path) && (th'.path == th.path || th'.path == th.path[1..])
  {
  }

  lemma {:induction false} RunStaysHigh(s: State, schedule: seq<nat>)
    requires Inv(s) && Run(s, schedule).Some? && forall th | th in s.threads :: StaysHigh(th)
    ensures AllHoldHigh(Run(s, schedule).value.threads)
    decreases |schedule|
  {
    hide WorldOk, ThreadOk, OwnersOk, NextMove, ApplyEdit, NextOwners, HoldsHigh;
    if schedule != [] {
      var t := schedule[0];
      StepKeeps(s, t);
      assert ThreadOk(s.threads[t], s.world);
      MoveStaysHigh(s.world, s.threads[t]);
      RunStaysHigh(Step(s, t).value, schedule[1..]);
    } else {
      forall t | 0 <= t < |s.threads|
        ensures HoldsHigh(s.threads[t])
      {
        assert StaysHigh(s.threads[t]);
      }
    }
  }

  /** No reachable state is deadlocked, with any number of lookups and of renames that stay high. */
  lemma NoDeadlock(s: State, schedule: seq<nat>)
    requires Initial(s) && Run(s, schedule).Some?
    requires forall th | th in s.threads && th.second.Some? :: |th.parts| < th.k
    ensures !Deadlocked(Run(s, schedule).value)
  {
    hide Inv, Run, Deadlocked;
    InitialInv(s);
    RunKeeps(s, schedule);
    RunStaysHigh(s, schedule);
    HighIsNotDeadlocked(Run(s, schedule).value);
  }

  // ----- Every run ends -----

  /** A bound on the steps a thread still takes. */
  function StepsLeft(th: Thread): nat {
    var left := |th.path| + |th.before| + |th.edits| + if th.second.Some? then 4 * |th.second.value| + 12 else 0;
    var n := |th.parts|;
    match th.phase
    case WantsRoot => 4 * n + left + 7
    case Looking(i) => 4 * Max(0, n - i) + left + 5
    case WantsChild(i, _) => 4 * Max(0, n - i - 1) + left + 8
    case Locked(i) => 4 * Max(0, n - i - 1) + left + 6
    case Found(_) => left + 4
    case Editing => left + 3
    case Leaving => left + 1
    case Finished => 0
  }

  function TotalLeft(threads: seq<Thread>): nat {
    if threads == [] then 0 else TotalLeft(threads[..|threads| - 1]) + StepsLeft(threads[|threads| - 1])
  }

  lemma {:induction false} FirstOccurrencesShrink(nodes: seq<NodeId>)
    ensures |FirstOccurrences(nodes)| <= |nodes|
    decreases |nodes|
  {
    if nodes != [] {
      FirstOccurrencesShrink(nodes[..|nodes| - 1]);
    }
  }

  lemma DropTakesTime(th: Thread, i: nat, phase: Phase)
    requires StepsLeft(th.(phase := phase)) < StepsLeft(th) && !phase.Finished?
    ensures StepsLeft(DropIfDue(th, i, phase).thread) < StepsLeft(th)
  {
  }

  lemma MoveTakesTime(th: Thread, tree: Tree)
    requires NextMove(th, tree).Some?
    ensures StepsLeft(NextMove(th, tree).value.thread) < StepsLeft(th)
  {
    hide FirstOccurrences, Child, DropIfDue;
    match th.phase
    case Looking(i) => DropTakesTime(th, i, Found(i));
    case Locked(i) => DropTakesTime(th, i, Looking(i + 1));
    case Editing => FirstOccurrencesShrink(th.before + th.path);
    case _ =>
  }

  lemma {:induction false} TotalOf(threads: seq<Thread>, t: nat, th: Thread)
    requires t < |threads| && StepsLeft(th) < StepsLeft(threads[t])
    ensures TotalLeft(threads[t := th]) < TotalLeft(threads)
    decreases |threads|
  {
    hide StepsLeft;
    var init := threads[..|threads| - 1];
    if t < |threads| - 1 {
      TotalOf(init, t, th);
      assert threads[t := th][..|threads| - 1] == init[t := th];
    } else {
      assert threads[t := th][..|threads| - 1] == init;
    }
  }

  /** A run takes no more steps than its threads had left. */
  lemma {:induction false} RunsAreShort(s: State, schedule: seq<nat>)
    requires Run(s, schedule).Some?
    ensures |schedule| + TotalLeft(Run(s, schedule).value.threads) <= TotalLeft(s.threads)
    decreases |schedule|
  {
    hide NextMove, NextOwners, ApplyEdit, TotalLeft, StepsLeft;
    if schedule != [] {
      var t := schedule[0];
      MoveTakesTime(s.threads[t], s.world.tree);
      TotalOf(s.threads, t, NextMove(s.threads[t], s.world.tree).value.thread);
      RunsAreShort(Step(s, t).value, schedule[1..]);
    }
  }

  /** A run that cannot go on has let every thread finish, and no lock is left taken. */
  lemma StuckIsDone(s: State, schedule: seq<nat>)
    requires Initial(s) && Run(s, schedule).Some?
    requires forall th | th in s.threads && th.second.Some? :: |th.parts| < th.k
    requires forall u :: !CanStep(Run(s, schedule).value, u)
    ensures Run(s, schedule).value.owners == map[]
    ensures forall t | 0 <= t < |Run(s, schedule).value.threads| :: Run(s, schedule).value.threads[t].phase.Finished?
  {
    hide Initial, CanStep, Run, WorldOk;
    InitialInv(s);
    RunKeeps(s, schedule);
    NoDeadlock(s, schedule);
  }

}
