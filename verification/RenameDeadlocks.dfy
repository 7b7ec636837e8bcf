/** A rename restarts at the root while it holds what its first lookup left (src/fs/ctrl/DummyDirWrapper.h):
    when that can deadlock with ordinary lookups, and when it cannot. */
module RenameDeadlocks {
  import opened Bytes
  import opened PathLookup
  import opened PathLocking

  // ----- When a rename can deadlock -----

  /** Some schedule leads from one state to the other. */
  ghost predicate Leads(s: State, s': State) {
    exists schedule :: Run(s, schedule) == Some(s')
  }

  lemma LeadsNowhere(s: State)
    ensures Leads(s, s)
  {
    assert Run(s, []) == Some(s);
  }

  lemma {:induction false} RunAppend(s: State, schedule: seq<nat>, t: nat)
    requires Run(s, schedule).Some? && CanStep(Run(s, schedule).value, t)
    ensures Run(s, schedule + [t]) == Step(Run(s, schedule).value, t)
    decreases |schedule|
  {
    hide Step;
    if schedule == [] {
      assert schedule + [t] == [t] && [t][1..] == [];
    } else {
      assert (schedule + [t])[1..] == schedule[1..] + [t];
      RunAppend(Step(s, schedule[0]).value, schedule[1..], t);
    }
  }

  /** A step of thread `t` that changes no directory */
  lemma LeadsOn(start: State, s: State, t: nat, th: Thread, effect: Effect)
    requires Leads(start, s) && t < |s.threads| && NextMove(s.threads[t], s.world.tree) == Some(Move(th, effect))
    requires !effect.Change? && (effect.Take? ==> effect.node !in s.owners)
    ensures Leads(start, State(s.world, NextOwners(s.owners, t, effect), s.threads[t := th]))
  {
    hide NextMove, NextOwners, Run;
    assert Step(s, t) == Some(State(s.world, NextOwners(s.owners, t, effect), s.threads[t := th]));
    var schedule :| Run(start, schedule) == Some(s);
    RunAppend(start, schedule, t);
  }

  /** The node that the first `i` parts name */
  function NodeAt(tree: Tree, parts: seq<string>, i: nat): NodeId {
    if i <= |parts| && Resolve(tree, ROOT, parts[..i]).Some? then Resolve(tree, ROOT, parts[..i]).value else ROOT
  }

  lemma {:induction false} ResolveDepth(w: World, parts: seq<string>)
    requires WorldOk(w) && Resolve(w.tree, ROOT, parts).Some?
    ensures
      var node := Resolve(w.tree, ROOT, parts).value;
      node in w.depth && w.depth[node] == |parts|
    decreases |parts|
  {
    if parts != [] {
      ResolveDepth(w, parts[..|parts| - 1]);
      var parent := Resolve(w.tree, ROOT, parts[..|parts| - 1]).value;
      assert LinkOk(w, parent, Child(w.tree, parent, parts[|parts| - 1]).value);
    }
  }

  /** On a path of which `i` parts resolve, the nodes lie one below the other. */
  lemma NodesDescend(w: World, parts: seq<string>, i: nat, j: nat)
    requires WorldOk(w) && j <= i <= |parts| && Resolves(w.tree, ROOT, parts[..i])
    ensures NodeAt(w.tree, parts, j) in w.depth && w.depth[NodeAt(w.tree, parts, j)] == j
    ensures Resolve(w.tree, ROOT, parts[..j]) == Some(NodeAt(w.tree, parts, j))
    ensures j < i ==> Child(w.tree, NodeAt(w.tree, parts, j), parts[j]) == Some(NodeAt(w.tree, parts, j + 1))
  {
    hide WorldOk;
    ShorterResolves(w.tree, ROOT, parts, j, i);
    ResolveDepth(w, parts[..j]);
    if j < i {
      ShorterResolves(w.tree, ROOT, parts, j + 1, i);
      StepResolves(w.tree, ROOT, parts, j, NodeAt(w.tree, parts, j));
    }
  }

  function OnNode(th: Thread, i: nat, node: NodeId): Thread {
    th.(phase := Looking(i), path := [node])
  }

  function Moved(s: State, t: nat, th: Thread, owners: map<NodeId, nat>): State
    requires t < |s.threads|
  {
    State(s.world, owners, s.threads[t := th])
  }

  /** A thread alone goes one part further and lets go of the node above. */
  lemma Advances(start: State, s: State, t: nat, th: Thread, i: nat, node: NodeId, item: NodeId)
    requires Leads(start, s) && t < |s.threads| && s.threads[t] == OnNode(th, i, node) && th.before == []
    requires i < |th.parts| && i <= |th.parts| - th.k && Child(s.world.tree, node, th.parts[i]) == Some(item)
    requires item !in s.owners
    ensures Leads(start, Moved(s, t, OnNode(th, i + 1, item), s.owners[item := t] - {node}))
  {
    hide Leads, Child;
    var th1 := th.(phase := WantsChild(i, item), path := [node]);
    LeadsOn(start, s, t, th1, Silent);
    var s1 := Moved(s, t, th1, s.owners);
    var th2 := th.(phase := Locked(i), path := [node, item]);
    assert [node] + [item] == [node, item];
    LeadsOn(start, s1, t, th2, Take(item));
    var s2 := Moved(s1, t, th2, s.owners[item := t]);
    assert [node, item][1..] == [item];
    LeadsOn(start, s2, t, OnNode(th, i + 1, item), Give(node));
    assert s.threads[t := th1][t := th2][t := OnNode(th, i + 1, item)] == s.threads[t := OnNode(th, i + 1, item)];
  }

  predicate FreeDownTo(w: World, owners: map<NodeId, nat>, i: nat) {
    forall node | node in owners :: node in w.depth && w.depth[node] > i
  }

  /** A thread alone walks down to depth `i` and holds just the node there. */
  lemma {:induction false} WalksTo(start: State, s: State, t: nat, i: nat)
    requires WorldOk(s.world) && Leads(start, s) && t < |s.threads| && IsFresh(s.threads[t])
    requires i <= |s.threads[t].parts| && i <= |s.threads[t].parts| - s.threads[t].k + 1
    requires Resolves(s.world.tree, ROOT, s.threads[t].parts[..i]) && FreeDownTo(s.world, s.owners, i)
    ensures
      var node := NodeAt(s.world.tree, s.threads[t].parts, i);
      Leads(start, Moved(s, t, OnNode(s.threads[t], i, node), s.owners[node := t]))
    decreases i
  {
    hide Leads, WorldOk, NodeAt, Resolve, Child;
    var th, tree := s.threads[t], s.world.tree;
    NodesDescend(s.world, th.parts, i, i);
    if i == 0 {
      RootIsFirst(tree, th.parts);
      assert [] + [ROOT] == [ROOT];
      LeadsOn(start, s, t, OnNode(th, 0, ROOT), Take(ROOT));
    } else {
      ShorterResolves(tree, ROOT, th.parts, i - 1, i);
      NodesDescend(s.world, th.parts, i, i - 1);
      WalksTo(start, s, t, i - 1);
      var above, item := NodeAt(tree, th.parts, i - 1), NodeAt(tree, th.parts, i);
      var s1 := Moved(s, t, OnNode(th, i - 1, above), s.owners[above := t]);
      Advances(start, s1, t, th, i - 1, above, item);
      assert s1.owners[item := t] - {above} == s.owners[item := t];
      assert s1.threads[t := OnNode(th, i, item)] == s.threads[t := OnNode(th, i, item)];
    }
  }

  lemma RootIsFirst(tree: Tree, parts: seq<string>)
    ensures NodeAt(tree, parts, 0) == ROOT
  {
  }

  /** A rename that has not begun: two nodes stay of each lookup. */
  predicate IsRename(th: Thread) {
    IsFresh(th) && th.k == 2 && th.second.Some?
  }

  /** The first lookup would leave nodes below the root locked. */
  predicate LeavesBelow(tree: Tree, parts: seq<string>) {
    |parts| >= 2 && Resolves(tree, ROOT, parts[..|parts| - 1])
  }

  ghost predicate BetweenLookups(s: State, th: Thread, parent: NodeId, m: nat) {
    && th.phase == WantsRoot && ROOT !in th.before && parent in s.owners
    && (forall node | node in s.owners :: node in s.world.depth && s.world.depth[node] >= m)
  }

  function SecondLookup(th: Thread, held: seq<NodeId>): Thread
    requires th.second.Some?
  {
    Thread(th.second.value, th.k, WantsRoot, [], th.edits, held, None)
  }

  /** Alone, such a rename comes to its second lookup with the parent of its old path locked. */
  lemma RenameLooks(s: State, r: nat) returns (s': State)
    requires WorldOk(s.world) && s.owners == map[] && r < |s.threads| && IsRename(s.threads[r])
    requires LeavesBelow(s.world.tree, s.threads[r].parts)
    ensures Leads(s, s') && s'.world == s.world && |s'.threads| == |s.threads|
    ensures forall t | 0 <= t < |s.threads| && t != r :: s'.threads[t] == s.threads[t]
    ensures
      var m := |s.threads[r].parts| - 1;
      BetweenLookups(s', s'.threads[r], NodeAt(s.world.tree, s.threads[r].parts, m), m)
  {
    hide Leads, WorldOk, NodeAt, Resolve, Child, Resolves;
    var th := s.threads[r];
    var m := |th.parts| - 1;
    LeadsNowhere(s);
    WalksTo(s, s, r, m);
    var node := NodeAt(s.world.tree, th.parts, m);
    NodesDescend(s.world, th.parts, m, m);
    RootHasNoDepth(s.world);
    var s1 := Moved(s, r, OnNode(th, m, node), map[node := r]);
    assert s.owners[node := r] == map[node := r];
    var item := Child(s.world.tree, node, th.parts[m]);
    if item.Some? {
      ChildIsDeeper(s.world, node, th.parts[m]);
      s' := LastIsThere(s, s1, r, th, node, item.value);
    } else {
      s' := LastIsMissing(s, s1, r, th, node);
    }
  }

  lemma RootHasNoDepth(w: World)
    requires WorldOk(w)
    ensures ROOT in w.depth && w.depth[ROOT] == 0
  {
  }

  lemma ChildIsDeeper(w: World, node: NodeId, name: string)
    requires WorldOk(w) && Child(w.tree, node, name).Some?
    ensures
      var child := Child(w.tree, node, name).value;
      node in w.depth && child in w.depth && w.depth[child] == w.depth[node] + 1
  {
    assert LinkOk(w, node, Child(w.tree, node, name).value);
  }

  lemma LastIsMissing(start: State, s: State, r: nat, th: Thread, node: NodeId) returns (s': State)
    requires IsRename(th) && |th.parts| >= 2 && r < |s.threads| && Leads(start, s)
    requires s.threads[r] == OnNode(th, |th.parts| - 1, node)
    requires Child(s.world.tree, node, th.parts[|th.parts| - 1]).None?
    ensures Leads(start, s') && s' == Moved(s, r, SecondLookup(th, [node]), s.owners)
  {
    hide Leads, Child;
    var found := th.(phase := Found(|th.parts| - 1), path := [node]);
    LeadsOn(start, s, r, found, Silent);
    var s1 := Moved(s, r, found, s.owners);
    LeadsOn(start, s1, r, SecondLookup(th, [node]), Silent);
    s' := Moved(s1, r, SecondLookup(th, [node]), s.owners);
    assert s.threads[r := found][r := SecondLookup(th, [node])] == s.threads[r := SecondLookup(th, [node])];
  }

  lemma LastIsThere(start: State, s: State, r: nat, th: Thread, node: NodeId, item: NodeId) returns (s': State)
    requires IsRename(th) && |th.parts| >= 2 && r < |s.threads| && Leads(start, s)
    requires s.threads[r] == OnNode(th, |th.parts| - 1, node)
    requires Child(s.world.tree, node, th.parts[|th.parts| - 1]) == Some(item) && item !in s.owners
    ensures Leads(start, s') && s' == Moved(s, r, SecondLookup(th, [node, item]), s.owners[item := r])
  {
    hide Leads, Child;
    var m := |th.parts| - 1;
    var th1 := th.(phase := WantsChild(m, item), path := [node]);
    LeadsOn(start, s, r, th1, Silent);
    var s1 := Moved(s, r, th1, s.owners);
    var th2 := th.(phase := Locked(m), path := [node, item]);
    assert [node] + [item] == [node, item];
    LeadsOn(start, s1, r, th2, Take(item));
    var s2 := Moved(s1, r, th2, s.owners[item := r]);
    LeadsOn(start, s2, r, th2.(phase := Looking(m + 1)), Silent);
    var s3 := Moved(s2, r, th2.(phase := Looking(m + 1)), s2.owners);
    LeadsOn(start, s3, r, th2.(phase := Found(m + 1)), Silent);
    var s4 := Moved(s3, r, th2.(phase := Found(m + 1)), s2.owners);
    LeadsOn(start, s4, r, SecondLookup(th, [node, item]), Silent);
    s' := Moved(s4, r, SecondLookup(th, [node, item]), s2.owners);
    assert s'.threads == s.threads[r := SecondLookup(th, [node, item])];
  }

  /** A lookup of one path of which the last node stays */
  function Reader(parts: seq<string>): Thread {
    Thread(parts, 1, WantsRoot, [], [], [], None)
  }

  /** The reader that holds the node at depth `i` and waits for the next one down */
  function Stopped(tree: Tree, parts: seq<string>, i: nat): Thread {
    Thread(parts, 1, WantsChild(i, NodeAt(tree, parts, i + 1)), [NodeAt(tree, parts, i)], [], [], None)
  }

  /** Among the first `n` threads, renames, the one at `r` waits for the root below which `j` of the readers behind
      them stand in a row, each waiting for the next. */
  ghost predicate Queue(s: State, w: World, parts: seq<string>, n: nat, r: nat, j: nat) {
    var m := |parts|;
    && j <= m && r < n && s.world == w && |s.threads| == n + m
    && BetweenLookups(s, s.threads[r], NodeAt(w.tree, parts, m), m - j)
    && (forall t | 0 <= t < n && t != r :: IsRename(s.threads[t]))
    && (forall t | n <= t < n + j :: s.threads[t] == Stopped(w.tree, parts, m - 1 - (t - n)))
    && (forall t | n + j <= t < n + m :: s.threads[t] == Reader(parts))
    && (forall i | m - j <= i <= m :: NodeAt(w.tree, parts, i) in s.owners)
  }

  lemma QueueGrows(start: State, s: State, w: World, parts: seq<string>, n: nat, r: nat, j: nat) returns (s': State)
    requires WorldOk(w) && Resolves(w.tree, ROOT, parts) && Leads(start, s) && Queue(s, w, parts, n, r, j)
    requires j < |parts|
    ensures Leads(start, s') && Queue(s', w, parts, n, r, j + 1)
  {
    hide Leads, WorldOk, NodeAt, Resolve, Child, Resolves;
    var m, t := |parts|, n + j;
    var i := m - j - 1;
    assert parts[..m] == parts;
    NodesDescend(w, parts, m, i);
    PrefixIsThere(w.tree, parts, i);
    WalksTo(start, s, t, i);
    var node, next := NodeAt(w.tree, parts, i), NodeAt(w.tree, parts, i + 1);
    var s1 := Moved(s, t, OnNode(Reader(parts), i, node), s.owners[node := t]);
    LeadsOn(start, s1, t, Stopped(w.tree, parts, i), Silent);
    s' := Moved(s1, t, Stopped(w.tree, parts, i), s1.owners);
  }

  lemma PrefixIsThere(tree: Tree, parts: seq<string>, i: nat)
    requires Resolves(tree, ROOT, parts) && i <= |parts|
    ensures Resolves(tree, ROOT, parts[..i])
  {
    PrefixResolves(tree, ROOT, parts, i);
  }

  lemma {:induction false} QueueFills(start: State, s: State, w: World, parts: seq<string>, n: nat, r: nat, j: nat)
    returns (s': State)
    requires WorldOk(w) && Resolves(w.tree, ROOT, parts) && Leads(start, s) && Queue(s, w, parts, n, r, j)
    ensures Leads(start, s') && Queue(s', w, parts, n, r, |parts|)
    decreases |parts| - j
  {
    hide Leads, WorldOk, Queue, Resolves;
    QueueSize(s, w, parts, n, r, j);
    if j == |parts| {
      s' := s;
    } else {
      s' := QueueGrows(start, s, w, parts, n, r, j);
      s' := QueueFills(start, s', w, parts, n, r, j + 1);
    }
  }

  lemma QueueSize(s: State, w: World, parts: seq<string>, n: nat, r: nat, j: nat)
    requires Queue(s, w, parts, n, r, j)
    ensures j <= |parts|
  {
  }

  lemma FullQueueIsDeadlocked(s: State, w: World, parts: seq<string>, n: nat, r: nat)
    requires Queue(s, w, parts, n, r, |parts|)
    ensures Deadlocked(s)
  {
    hide NodeAt, CanStep;
    RootIsFirst(w.tree, parts);
    assert NodeAt(w.tree, parts, 0) in s.owners;
    forall u: nat
      ensures !CanStep(s, u)
    {
      if u >= |s.threads| {
        NoSuchThread(s, u);
      } else if u < n {
        assert u != r ==> IsRename(s.threads[u]);
        WaitingCannotStep(s, u);
      } else {
        assert NodeAt(w.tree, parts, |parts| - 1 - (u - n) + 1) in s.owners;
        WaitingCannotStep(s, u);
      }
    }
    assert !s.threads[r].phase.Finished?;
  }

  lemma NoSuchThread(s: State, u: nat)
    requires u >= |s.threads|
    ensures !CanStep(s, u)
  {
  }

  predicate IsLookup(th: Thread) {
    IsFresh(th) && th.second.None? && th.edits == []
  }

  /** Started with the renames on unlocked nodes, the other lookups can end in a deadlock. */
  ghost predicate EndsDeadlocked(w: World, renames: seq<Thread>, others: seq<Thread>, schedule: seq<nat>) {
    && (forall t | 0 <= t < |others| :: IsLookup(others[t]))
    && var end := Run(State(w, map[], renames + others), schedule);
       end.Some? && Deadlocked(end.value)
  }

  ghost predicate AllRenames(renames: seq<Thread>) {
    forall t | 0 <= t < |renames| :: IsRename(renames[t])
  }

  /** On every tree, a rename whose first lookup leaves nodes below the root can deadlock with lookups of its
      own old parent, as many as that is deep, whatever other renames have been called. */
  lemma DeadlocksBelowRoot(w: World, renames: seq<Thread>, r: nat) returns (others: seq<Thread>, schedule: seq<nat>)
    requires WorldOk(w) && AllRenames(renames) && r < |renames| && LeavesBelow(w.tree, renames[r].parts)
    ensures others == seq(|renames[r].parts| - 1, _ => Reader(renames[r].parts[..|renames[r].parts| - 1]))
    ensures EndsDeadlocked(w, renames, others, schedule)
  {
    hide Run, WorldOk, NodeAt, Resolve, Resolves, Deadlocked, Queue, BetweenLookups;
    var m, n := |renames[r].parts| - 1, |renames|;
    var parts := renames[r].parts[..m];
    others := seq(m, _ => Reader(parts));
    var start := State(w, map[], renames + others);
    assert start.threads[r] == renames[r];
    var s := RenameLooks(start, r);
    assert Queue(s, w, parts, n, r, 0) by { QueueBegins(start, s, w, renames[r].parts, n, r); }
    s := QueueFills(start, s, w, parts, n, r, 0);
    FullQueueIsDeadlocked(s, w, parts, n, r);
    schedule :| Run(start, schedule) == Some(s);
  }

  lemma QueueBegins(start: State, s: State, w: World, parts: seq<string>, n: nat, r: nat)
    requires parts != [] && r < n && |s.threads| == |start.threads| == n + |parts| - 1 && s.world == w
    requires forall t | 0 <= t < |start.threads| && t != r :: s.threads[t] == start.threads[t]
    requires forall t | 0 <= t < n :: IsRename(start.threads[t])
    requires forall t | n <= t < |start.threads| :: start.threads[t] == Reader(parts[..|parts| - 1])
    requires BetweenLookups(s, s.threads[r], NodeAt(w.tree, parts, |parts| - 1), |parts| - 1)
    ensures Queue(s, w, parts[..|parts| - 1], n, r, 0)
  {
    hide Resolve, IsRename;
    var shorter := parts[..|parts| - 1];
    assert shorter[..|parts| - 1] == shorter;
  }

  // ----- Otherwise it cannot -----

  /** On a tree that no one changes: what the first lookup's progress says of its path. */
  predicate WalkedSoFar(th: Thread, tree: Tree) {
    match th.phase
    case Looking(i) => i <= |th.parts| && Resolve(tree, ROOT, th.parts[..i]) == Some(Last(th.path))
    case WantsChild(i, _) => i < |th.parts| && Resolve(tree, ROOT, th.parts[..i]) == Some(Last(th.path))
    case Locked(i) => i < |th.parts| && Resolve(tree, ROOT, th.parts[..i + 1]) == Some(Last(th.path))
    case Found(i) => i <= |th.parts| && Resolves(tree, ROOT, th.parts[..i])
    case WantsRoot => true
    case _ => false
  }

  /** Until the first lookup of each rename ends, no other thread has a directory to change. */
  ghost predicate Undisturbed(s: State, w: World) {
    && (forall t | 0 <= t < |s.threads| && s.threads[t].second.Some? :: s.world == w && LooksHigh(s.threads[t], w.tree))
    && (forall t | 0 <= t < |s.threads| && s.threads[t].second.None? :: HoldsHigh(s.threads[t]))
    && (forall t, u | 0 <= t < |s.threads| && 0 <= u < |s.threads| && t != u && s.threads[t].second.Some? ::
          s.threads[u].edits == [])
  }

  /** The first lookup of a rename that will leave nothing below the root */
  predicate LooksHigh(th: Thread, tree: Tree) {
    th.k == 2 && th.before == [] && !LeavesBelow(tree, th.parts) && WalkedSoFar(th, tree)
  }

  lemma LastOfTail(path: seq<NodeId>)
    requires |path| >= 2
    ensures Last(path[1..]) == Last(path)
  {
  }

  lemma WalkGoesOn(w: World, th: Thread)
    requires ThreadOk(th, w) && th.second.Some? && th.k == 2 && WalkedSoFar(th, w.tree) && NextMove(th, w.tree).Some?
    requires !th.phase.Found?
    ensures
      var th' := NextMove(th, w.tree).value.thread;
      && th'.second == th.second && th'.parts == th.parts && th'.k == th.k && th'.before == th.before
      && th'.edits == th.edits
      && WalkedSoFar(th', w.tree)
  {
    hide Resolve, Rising, Chained, Distinct;
    match th.phase
    case WantsRoot => RootStretch(w.tree, ROOT, th.parts);
    case Looking(i) =>
    case WantsChild(i, item) => StepResolves(w.tree, ROOT, th.parts, i, Last(th.path));
    case Locked(i) =>
      if i <= |th.parts| - 2 {
        LastOfTail(th.path);
      }
    case _ =>
  }

  /** A first lookup that leaves nothing below the root leaves the root, or nothing. */
  lemma FirstLeavesHigh(w: World, th: Thread)
    requires WorldOk(w) && ThreadOk(th, w) && th.k == 2 && WalkedSoFar(th, w.tree) && th.phase.Found?
    requires !LeavesBelow(w.tree, th.parts)
    ensures th.path == [] || ROOT in th.path
  {
    hide Resolve;
    var n, i := |th.parts|, th.phase.i;
    if n >= 2 {
      if i >= n - 1 {
        ShorterResolves(w.tree, ROOT, th.parts, n - 1, i);
      }
    } else if th.path != [] {
      assert |th.path| == i + 1;
      assert w.depth[th.path[0]] == 0;
    }
  }

  lemma KeepsHigh(th: Thread, tree: Tree)
    requires HoldsHigh(th) && th.second.None? && NextMove(th, tree).Some?
    ensures
      var th' := NextMove(th, tree).value.thread;
      && HoldsHigh(th') && th'.second.None? && (th.before == [] ==> th'.before == [])
      && (th.edits == [] ==> th'.edits == [] && !NextMove(th, tree).value.effect.Change?)
  {
    hide FirstOccurrences, DropIfDue, Child;
    match th.phase
    case Looking(i) => DropIsQuiet(th, i, Found(i));
    case Locked(i) => DropIsQuiet(th, i, Looking(i + 1));
    case _ =>
  }

  lemma DropIsQuiet(th: Thread, i: nat, phase: Phase)
    ensures
      var move := DropIfDue(th, i, phase);
      move.thread == th.(phase := phase, path := move.thread.path) && !move.effect.Change?
  {
  }

  lemma UndisturbedStep(s: State, w: World, t: nat)
    requires Inv(s) && Undisturbed(s, w) && CanStep(s, t)
    ensures Undisturbed(Step(s, t).value, w)
  {
    hide ThreadOk, NextMove, WorldOk, OwnersOk, ApplyEdit, NextOwners, LooksHigh, HoldsHigh;
    var th := s.threads[t];
    assert ThreadOk(th, s.world);
    if th.second.None? {
      KeepsHigh(th, s.world.tree);
    } else {
      FirstLookupStep(s.world, th);
    }
  }

  lemma FirstLookupStep(w: World, th: Thread)
    requires WorldOk(w) && ThreadOk(th, w) && th.second.Some? && LooksHigh(th, w.tree) && NextMove(th, w.tree).Some?
    ensures
      var move := NextMove(th, w.tree).value;
      && !move.effect.Change? && move.thread.edits == th.edits
      && (if move.thread.second.Some? then LooksHigh(move.thread, w.tree) else HoldsHigh(move.thread))
  {
    hide ThreadOk, NextMove, WorldOk, WalkedSoFar, HoldsHigh, LeavesBelow;
    RenameStep(w, th);
    if th.phase.Found? {
      FirstLeavesHigh(w, th);
    } else {
      WalkGoesOn(w, th);
    }
  }

  lemma RenameStep(w: World, th: Thread)
    requires ThreadOk(th, w) && th.second.Some? && WalkedSoFar(th, w.tree) && NextMove(th, w.tree).Some?
    ensures
      var move := NextMove(th, w.tree).value;
      && !move.effect.Change? && move.thread.edits == th.edits
      && (th.phase.Found? ==> move.thread.second.None? && move.thread.before == th.path)
      && (th.path == [] || ROOT in th.path ==> th.phase.Found? ==> HoldsHigh(move.thread))
  {
    hide DropIfDue, Resolve, Resolves;
    match th.phase
    case Looking(i) => DropIsQuiet(th, i, Found(i));
    case Locked(i) => DropIsQuiet(th, i, Looking(i + 1));
    case _ =>
  }

  lemma {:induction false} UndisturbedRun(s: State, w: World, schedule: seq<nat>)
    requires Inv(s) && Undisturbed(s, w) && Run(s, schedule).Some?
    ensures Undisturbed(Run(s, schedule).value, w) && Inv(Run(s, schedule).value)
    decreases |schedule|
  {
    hide Inv, Step, Undisturbed;
    if schedule != [] {
      StepKeeps(s, schedule[0]);
      UndisturbedStep(s, w, schedule[0]);
      UndisturbedRun(Step(s, schedule[0]).value, w, schedule[1..]);
    }
  }

  lemma UndisturbedIsHigh(s: State, w: World)
    requires Undisturbed(s, w)
    ensures AllHoldHigh(s.threads)
  {
  }

  /** Several renames change nothing; one alone may. */
  ghost predicate NoneDisturbs(renames: seq<Thread>) {
    |renames| > 1 ==> forall t | 0 <= t < |renames| :: renames[t].edits == []
  }

  lemma HighNeverDeadlocks(w: World, renames: seq<Thread>, others: seq<Thread>, schedule: seq<nat>)
    requires WorldOk(w) && AllRenames(renames) && NoneDisturbs(renames)
    requires forall t | 0 <= t < |renames| :: !LeavesBelow(w.tree, renames[t].parts)
    ensures !EndsDeadlocked(w, renames, others, schedule)
  {
    hide Inv, Undisturbed, Deadlocked, LeavesBelow, Run;
    if EndsDeadlocked(w, renames, others, schedule) {
      var s := State(w, map[], renames + others);
      UndisturbedBegins(w, renames, others);
      UndisturbedRun(s, w, schedule);
      UndisturbedIsHigh(Run(s, schedule).value, w);
      HighIsNotDeadlocked(Run(s, schedule).value);
    }
  }

  lemma UndisturbedBegins(w: World, renames: seq<Thread>, others: seq<Thread>)
    requires WorldOk(w) && AllRenames(renames) && NoneDisturbs(renames)
    requires forall t | 0 <= t < |renames| :: !LeavesBelow(w.tree, renames[t].parts)
    requires forall t | 0 <= t < |others| :: IsLookup(others[t])
    ensures var s := State(w, map[], renames + others); Inv(s) && Undisturbed(s, w)
  {
    hide WorldOk, LeavesBelow;
    var s := State(w, map[], renames + others);
    forall t | 0 <= t < |s.threads|
      ensures IsFresh(s.threads[t]) && (t < |renames| ==> IsRename(s.threads[t]))
      ensures t >= |renames| ==> IsLookup(s.threads[t])
    {
      assert t < |renames| ==> IsRename(renames[t]);
      assert t >= |renames| ==> IsLookup(others[t - |renames|]);
    }
    InitialInv(s);
  }

  /** Renames on a tree that nobody else changes can deadlock with lookups of single paths exactly when the first
      lookup of one of them leaves nodes below the root: its old path has two parts or more, and all but the
      last lead to a node. */
  lemma DeadlocksIff(w: World, renames: seq<Thread>)
    requires WorldOk(w) && AllRenames(renames) && NoneDisturbs(renames)
    ensures (exists others, schedule :: EndsDeadlocked(w, renames, others, schedule)) <==>
      exists r :: 0 <= r < |renames| && LeavesBelow(w.tree, renames[r].parts)
  {
    hide EndsDeadlocked, WorldOk, LeavesBelow, AllRenames, NoneDisturbs;
    if r :| 0 <= r < |renames| && LeavesBelow(w.tree, renames[r].parts) {
      var others, schedule := DeadlocksBelowRoot(w, renames, r);
    } else {
      forall others, schedule
        ensures !EndsDeadlocked(w, renames, others, schedule)
      {
        HighNeverDeadlocks(w, renames, others, schedule);
      }
    }
  }
}
