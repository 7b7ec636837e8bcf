/** Looking a path up while locking it hand over hand (src/fs/FsUtils.cpp), the list of nodes that stays
    locked, and the unlockers (src/fs/FsPath.cpp): one thread's view. */
module PathLookup {
  import opened Bytes

  type NodeId = nat

  datatype Node = DirNode(children: map<string, NodeId>) | FileNode

  type Tree = map<NodeId, Node>

  /** `curItem.isDir() && curItem.dir()->hasItem(part)`, and the item */
  function Child(tree: Tree, node: NodeId, name: string): Option<NodeId> {
    if node in tree && tree[node].DirNode? && name in tree[node].children then Some(tree[node].children[name]) else None
  }

  /** The node a path names. */
  function Resolve(tree: Tree, root: NodeId, parts: seq<string>): Option<NodeId> {
    if parts == [] then Some(root)
    else
      var parent := Resolve(tree, root, parts[..|parts| - 1]);
      if parent.None? then None else Child(tree, parent.value, parts[|parts| - 1])
  }

  /** How many leading parts name a node. */
  function Reach(tree: Tree, root: NodeId, parts: seq<string>): (s: nat)
    ensures s <= |parts| && Resolve(tree, root, parts[..s]).Some?
    ensures s == |parts| || Resolve(tree, root, parts[..s + 1]).None?
  {
    if Resolve(tree, root, parts).Some? then
      assert parts[..|parts|] == parts;
      |parts|
    else
      var shorter := parts[..|parts| - 1];
      var s := Reach(tree, root, shorter);
      assert shorter[..s] == parts[..s];
      assert s < |shorter| ==> shorter[..s + 1] == parts[..s + 1];
      assert s == |shorter| ==> parts[..s + 1] == parts;
      s
  }

  function Ids(nodes: seq<NodeId>): set<NodeId> {
    set node | node in nodes
  }

  predicate Distinct(nodes: seq<NodeId>) {
    forall i, j | 0 <= i < j < |nodes| :: nodes[i] != nodes[j]
  }

  /** Nodes lie in layers: a child is one deeper than its directory. */
  ghost predicate Layered(tree: Tree, depth: NodeId -> nat) {
    forall node, name | Child(tree, node, name).Some? :: depth(Child(tree, node, name).value) == depth(node) + 1
  }

  /** `nodes` are what the prefixes of `parts` from length `first` on name, one after the other. */
  predicate IsStretch(tree: Tree, root: NodeId, parts: seq<string>, first: nat, nodes: seq<NodeId>) {
    && first + |nodes| <= |parts| + 1
    && forall j | 0 <= j < |nodes| :: Resolve(tree, root, parts[..first + j]) == Some(nodes[j])
  }

  lemma {:induction false} PrefixResolves(tree: Tree, root: NodeId, parts: seq<string>, s: nat)
    requires s <= |parts| && Resolve(tree, root, parts).Some?
    ensures Resolve(tree, root, parts[..s]).Some?
    decreases |parts|
  {
    if s == |parts| {
      assert parts[..s] == parts;
    } else {
      PrefixResolves(tree, root, parts[..|parts| - 1], s);
      assert parts[..|parts| - 1][..s] == parts[..s];
    }
  }

  lemma StepResolves(tree: Tree, root: NodeId, parts: seq<string>, i: nat, node: NodeId)
    requires i < |parts| && Resolve(tree, root, parts[..i]) == Some(node)
    ensures Resolve(tree, root, parts[..i + 1]) == Child(tree, node, parts[i])
  {
    assert parts[..i + 1][..i] == parts[..i];
  }

  lemma ShorterResolves(tree: Tree, root: NodeId, parts: seq<string>, s: nat, t: nat)
    requires s <= t <= |parts| && Resolve(tree, root, parts[..t]).Some?
    ensures Resolve(tree, root, parts[..s]).Some?
  {
    PrefixResolves(tree, root, parts[..t], s);
    assert parts[..t][..s] == parts[..s];
  }

  /** The first part that is missing is where the walk ends. */
  lemma ReachIs(tree: Tree, root: NodeId, parts: seq<string>, i: nat)
    requires i <= |parts| && Resolve(tree, root, parts[..i]).Some?
    requires i == |parts| || Resolve(tree, root, parts[..i + 1]).None?
    ensures Reach(tree, root, parts) == i
  {
    var s := Reach(tree, root, parts);
    if s + 1 <= i {
      ShorterResolves(tree, root, parts, s + 1, i);
    } else if i + 1 <= s {
      ShorterResolves(tree, root, parts, i + 1, s);
    }
  }

  lemma {:induction false} ResolvedDepth(tree: Tree, depth: NodeId -> nat, root: NodeId, parts: seq<string>)
    requires Layered(tree, depth) && Resolve(tree, root, parts).Some?
    ensures depth(Resolve(tree, root, parts).value) == depth(root) + |parts|
    decreases |parts|
  {
    if parts != [] {
      ResolvedDepth(tree, depth, root, parts[..|parts| - 1]);
    }
  }

  lemma StretchDepth(tree: Tree, depth: NodeId -> nat, root: NodeId, parts: seq<string>, first: nat, nodes: seq<NodeId>)
    requires Layered(tree, depth) && IsStretch(tree, root, parts, first, nodes)
    ensures forall j | 0 <= j < |nodes| :: depth(nodes[j]) == depth(root) + first + j
    ensures Distinct(nodes)
  {
    forall j | 0 <= j < |nodes|
      ensures depth(nodes[j]) == depth(root) + first + j
    {
      assert Resolve(tree, root, parts[..first + j]) == Some(nodes[j]);
      ResolvedDepth(tree, depth, root, parts[..first + j]);
    }
  }

  lemma StretchAdd(tree: Tree, root: NodeId, parts: seq<string>, first: nat, nodes: seq<NodeId>, item: NodeId)
    requires IsStretch(tree, root, parts, first, nodes) && first + |nodes| <= |parts|
    requires Resolve(tree, root, parts[..first + |nodes|]) == Some(item)
    ensures IsStretch(tree, root, parts, first, nodes + [item])
  {
    hide Resolve;
  }

  lemma StretchTrim(tree: Tree, root: NodeId, parts: seq<string>, first: nat, nodes: seq<NodeId>)
    requires IsStretch(tree, root, parts, first, nodes) && nodes != []
    ensures IsStretch(tree, root, parts, first + 1, nodes[1..])
  {
    hide Resolve;
    forall j | 0 <= j < |nodes[1..]|
      ensures Resolve(tree, root, parts[..first + 1 + j]) == Some(nodes[1..][j])
    {
      assert nodes[1..][j] == nodes[j + 1];
      assert parts[..first + 1 + j] == parts[..first + (j + 1)];
    }
  }

  // ----- What the counts say -----

  /** The number of nodes left when a lookup of `n` parts keeping `k` nodes got `s` parts far. */
  function Remaining(n: nat, k: nat, s: nat): nat {
    if s == n then if n + 1 < k then n + 1 else k
    else if n + 1 < k then s + 1
    else if s <= n - k then 0
    else s - (n - k)
  }

  predicate Resolves(tree: Tree, root: NodeId, parts: seq<string>) {
    Resolve(tree, root, parts).Some?
  }

  predicate OnlyLastMissing(tree: Tree, root: NodeId, parts: seq<string>) {
    parts != [] && !Resolves(tree, root, parts) && Resolves(tree, root, parts[..|parts| - 1])
  }

  /** The callers' test by counting is right for every path of at least `k - 1` parts. */
  lemma CountsTell(tree: Tree, root: NodeId, parts: seq<string>, k: nat)
    requires k >= 1 && |parts| >= k - 1
    ensures Remaining(|parts|, k, Reach(tree, root, parts)) == k <==> Resolves(tree, root, parts)
    ensures k >= 2 ==>
      (Remaining(|parts|, k, Reach(tree, root, parts)) == k - 1 <==> OnlyLastMissing(tree, root, parts))
  {
    hide Resolves, OnlyLastMissing;
    ReachOfMissing(tree, root, parts);
  }

  lemma ReachOfMissing(tree: Tree, root: NodeId, parts: seq<string>)
    ensures Reach(tree, root, parts) == |parts| <==> Resolves(tree, root, parts)
    ensures parts != [] ==> (Reach(tree, root, parts) == |parts| - 1 <==> OnlyLastMissing(tree, root, parts))
  {
    var s := Reach(tree, root, parts);
    assert parts[..|parts|] == parts;
    if Resolves(tree, root, parts) {
      ReachIs(tree, root, parts, |parts|);
    } else if OnlyLastMissing(tree, root, parts) {
      ReachIs(tree, root, parts, |parts| - 1);
    }
  }

  /** On a shorter path the counts do not tell: the whole path is never reported found, and its parent
      is reported found exactly when the path has `k - 2` parts and is itself found, as `/` is for 2. */
  lemma ShortPathsMislead(tree: Tree, root: NodeId, parts: seq<string>, k: nat)
    requires |parts| + 1 < k
    ensures Remaining(|parts|, k, Reach(tree, root, parts)) != k
    ensures Remaining(|parts|, k, Reach(tree, root, parts)) == k - 1 <==>
      |parts| == k - 2 && Resolves(tree, root, parts)
  {
    hide Resolves, OnlyLastMissing;
    ReachOfMissing(tree, root, parts);
  }

  /** The last node kept is the one the path names, or, when only its last part is missing, its parent. */
  lemma LastKeptIsNamed(tree: Tree, root: NodeId, parts: seq<string>, k: nat, nodes: seq<NodeId>)
    requires k >= 1 && |parts| >= k - 1 && nodes != [] && |nodes| == Remaining(|parts|, k, Reach(tree, root, parts))
    requires IsStretch(tree, root, parts, Reach(tree, root, parts) + 1 - |nodes|, nodes)
    ensures Resolves(tree, root, parts) ==> Some(nodes[|nodes| - 1]) == Resolve(tree, root, parts)
    ensures OnlyLastMissing(tree, root, parts) ==>
      Some(nodes[|nodes| - 1]) == Resolve(tree, root, parts[..|parts| - 1])
  {
    ReachOfMissing(tree, root, parts);
    var s := Reach(tree, root, parts);
    hide Resolve, Remaining;
    var j := |nodes| - 1;
    assert Resolve(tree, root, parts[..s + 1 - |nodes| + j]) == Some(nodes[j]);
    assert s + 1 - |nodes| + j == s;
    assert parts[..|parts|] == parts;
  }

  // ----- The locks of one thread -----

  class Locks {
    var held: set<NodeId>

    constructor ()
      ensures held == {}
    {
      held := {};
    }

    /** A mutex must not be locked again by its holder. */
    method Lock(node: NodeId)
      requires node !in held
      modifies this
      ensures held == old(held) + {node}
    {
      held := held + {node};
    }

    method Unlock(node: NodeId)
      requires node in held
      modifies this
      ensures held == old(held) - {node}
    {
      held := held - {node};
    }
  }

  class FsPath {
    var nodes: seq<NodeId>
    const pathSize: nat

    constructor (pathSize: nat)
      ensures nodes == [] && this.pathSize == pathSize
    {
      nodes, this.pathSize := [], pathSize;
    }

    method Add(node: NodeId)
      modifies this
      ensures nodes == old(nodes) + [node]
    {
      nodes := nodes + [node];
    }

    method RemoveFirst() returns (node: NodeId)
      requires nodes != []
      modifies this
      ensures node == old(nodes)[0] && nodes == old(nodes)[1..]
    {
      node := nodes[0];
      nodes := nodes[1..];
    }

    predicate IsPathMatched()
      reads this
    {
      |nodes| == pathSize
    }

    predicate IsParentPathMatched()
      reads this
    {
      |nodes| == pathSize - 1
    }
  }

  /** `isPathElementLocked` */
  predicate IsLocked(locked: seq<seq<NodeId>>, node: NodeId) {
    exists i | 0 <= i < |locked| :: node in locked[i]
  }

  function AllIds(locked: seq<seq<NodeId>>): set<NodeId> {
    set i, node | 0 <= i < |locked| && node in locked[i] :: node
  }

  /** Drops the first node of the path, releasing it unless an earlier path holds it. */
  method Trim(path: FsPath, locked: seq<seq<NodeId>>, locks: Locks)
    requires path.nodes != [] && Distinct(path.nodes) && locks.held == AllIds(locked) + Ids(path.nodes)
    modifies path, locks
    ensures path.nodes == old(path.nodes)[1..] && locks.held == AllIds(locked) + Ids(path.nodes)
  {
    var first := path.RemoveFirst();
    if !IsLocked(locked, first) {
      locks.Unlock(first);
    }
  }

  method LockUnless(node: NodeId, locked: seq<seq<NodeId>>, locks: Locks, ghost others: set<NodeId>)
    requires node !in others && locks.held == AllIds(locked) + others
    modifies locks
    ensures locks.held == AllIds(locked) + others + {node}
  {
    if !IsLocked(locked, node) {
      locks.Lock(node);
    }
  }

  /** The nodes that stay are those that the last prefixes of the path name, as many as `Remaining` says,
      and exactly they and the earlier paths' nodes are locked. No lock is taken twice or released
      without being held. */
  method FindPath(tree: Tree, root: NodeId, parts: seq<string>, locked: seq<seq<NodeId>>, k: nat, locks: Locks,
                  ghost depth: NodeId -> nat)
    returns (path: FsPath)
    requires k >= 1 && Layered(tree, depth) && locks.held == AllIds(locked)
    modifies locks
    ensures path.pathSize == k && |path.nodes| == Remaining(|parts|, k, Reach(tree, root, parts))
    ensures IsStretch(tree, root, parts, Reach(tree, root, parts) + 1 - |path.nodes|, path.nodes)
    ensures locks.held == AllIds(locked) + Ids(path.nodes)
  {
    hide IsStretch, Layered, Resolve, IsLocked, AllIds, Ids, Distinct, Remaining, Reach, Trimmed;
    EmptyIds();
    TrimmedNext(|parts| - k, 0);
    path := new FsPath(k);
    var lockLimit := |parts| - k;
    var curItem := root;
    LockUnless(curItem, locked, locks, {});
    path.Add(curItem);
    var i, first: nat := 0, 0;
    RootStretch(tree, root, parts);
    assert path.nodes == [root];
    while i < |parts|
      invariant 0 <= i <= |parts| && path.pathSize == k && fresh(path)
      invariant first + |path.nodes| == i + 1 && first == Trimmed(lockLimit, i) && path.nodes != []
      invariant Resolve(tree, root, parts[..i]) == Some(curItem)
      invariant IsStretch(tree, root, parts, first, path.nodes)
      invariant locks.held == AllIds(locked) + Ids(path.nodes)
    {
      StepResolves(tree, root, parts, i, curItem);
      TrimmedNext(lockLimit, i);
      var item := Child(tree, curItem, parts[i]);
      if item.Some? {
        StretchAdd(tree, root, parts, first, path.nodes, item.value);
        StretchDepth(tree, depth, root, parts, first, path.nodes + [item.value]);
        NotAmong(path.nodes, item.value);
        LockUnless(item.value, locked, locks, Ids(path.nodes));
        path.Add(item.value);
        if i <= lockLimit {
          StretchTrim(tree, root, parts, first, path.nodes);
          Trim(path, locked, locks);
          first := first + 1;
        }
        curItem := item.value;
      } else {
        ReachIs(tree, root, parts, i);
        StretchDepth(tree, depth, root, parts, first, path.nodes);
        if i <= lockLimit {
          StretchTrim(tree, root, parts, first, path.nodes);
          Trim(path, locked, locks);
        }
        StoppedRemaining(|parts|, k, i);
        return;
      }
      i := i + 1;
    }
    ReachIs(tree, root, parts, i);
    FinishedRemaining(|parts|, k);
  }

  lemma TrimmedNext(lockLimit: int, i: nat)
    ensures Trimmed(lockLimit, 0) == 0 && Trimmed(lockLimit, i) <= i
    ensures Trimmed(lockLimit, i + 1) == Trimmed(lockLimit, i) + if i <= lockLimit then 1 else 0
  {
  }

  lemma StoppedRemaining(n: nat, k: nat, i: nat)
    requires k >= 1 && i < n
    ensures i + 1 - Trimmed(n - k, i) - (if i <= n - k then 1 else 0) == Remaining(n, k, i)
  {
  }

  lemma FinishedRemaining(n: nat, k: nat)
    requires k >= 1
    ensures n + 1 - Trimmed(n - k, n) == Remaining(n, k, n)
  {
  }

  lemma EmptyIds()
    ensures Ids([]) == {} == AllIds([])
  {
  }

  /** How many nodes the first `i` steps dropped. */
  function Trimmed(lockLimit: int, i: nat): nat {
    if lockLimit < 0 then 0 else if i <= lockLimit then i else lockLimit + 1
  }

  lemma RootStretch(tree: Tree, root: NodeId, parts: seq<string>)
    ensures Resolve(tree, root, parts[..0]) == Some(root) && IsStretch(tree, root, parts, 0, [root])
    ensures Ids([root]) == {root}
  {
  }

  lemma NotAmong(nodes: seq<NodeId>, item: NodeId)
    requires Distinct(nodes + [item])
    ensures item !in Ids(nodes) && Ids(nodes + [item]) == Ids(nodes) + {item} && Distinct(nodes)
  {
    forall i | 0 <= i < |nodes|
      ensures nodes[i] != item
    {
      assert (nodes + [item])[i] != (nodes + [item])[|nodes|];
    }
    forall i, j | 0 <= i < j < |nodes|
      ensures nodes[i] != nodes[j]
    {
      assert (nodes + [item])[i] != (nodes + [item])[j];
    }
  }

  // ----- Unlocking -----

  /** The nodes of all paths in order, each where it first occurs. */
  function FirstOccurrences(nodes: seq<NodeId>): (r: seq<NodeId>)
    ensures Distinct(r) && Ids(r) == Ids(nodes)
  {
    if nodes == [] then []
    else
      var before := FirstOccurrences(nodes[..|nodes| - 1]);
      assert Ids(nodes) == Ids(nodes[..|nodes| - 1]) + {nodes[|nodes| - 1]} by { LastId(nodes); }
      if nodes[|nodes| - 1] in before then before else before + [nodes[|nodes| - 1]]
  }

  lemma LastId(nodes: seq<NodeId>)
    requires nodes != []
    ensures Ids(nodes) == Ids(nodes[..|nodes| - 1]) + {nodes[|nodes| - 1]}
  {
    assert nodes == nodes[..|nodes| - 1] + [nodes[|nodes| - 1]];
  }

  class FsPathUnlocker {
    var els: seq<NodeId>

    constructor One(path: FsPath)
      ensures els == path.nodes
    {
      els := path.nodes;
    }

    /** Of several paths, each node once */
    constructor Joint(nodes: seq<NodeId>)
      ensures els == FirstOccurrences(nodes)
    {
      els := [];
      new;
      var i := 0;
      while i < |nodes|
        invariant 0 <= i <= |nodes| && els == FirstOccurrences(nodes[..i])
      {
        assert nodes[..i + 1][..i] == nodes[..i];
        if nodes[i] !in els {
          els := els + [nodes[i]];
        }
        i := i + 1;
      }
      assert nodes[..i] == nodes;
    }

    /** The destructor: every node is released once, the last first. */
    method Release(locks: Locks)
      requires Distinct(els) && Ids(els) <= locks.held
      modifies locks
      ensures locks.held == old(locks.held) - Ids(els)
    {
      var i := |els|;
      while i > 0
        invariant 0 <= i <= |els| && Ids(els[..i]) <= locks.held
        invariant locks.held == old(locks.held) - Ids(els[i..])
      {
        i := i - 1;
        locks.Unlock(els[i]);
      }
      assert els[..] == els;
    }
  }

  /** The lookups of a rename: the second walks past the nodes the first holds, and the joint unlocker
      gives back every lock exactly once. */
  method RenameLookups(tree: Tree, root: NodeId, oldParts: seq<string>, newParts: seq<string>, locks: Locks,
                       ghost depth: NodeId -> nat)
    returns (oldFound: bool, newParentFound: bool)
    requires Layered(tree, depth) && locks.held == {}
    modifies locks
    ensures locks.held == {}
    ensures |oldParts| >= 1 ==> (oldFound <==> Resolves(tree, root, oldParts))
    ensures |newParts| >= 1 ==> (newParentFound <==> OnlyLastMissing(tree, root, newParts))
  {
    hide Layered, IsStretch, Resolves, OnlyLastMissing, Reach, Remaining, Ids, AllIds, Distinct, FirstOccurrences;
    EmptyIds();
    var oldPath := FindPath(tree, root, oldParts, [], 2, locks, depth);
    assert AllIds([oldPath.nodes]) == Ids(oldPath.nodes) by { OnePathIds(oldPath.nodes); }
    var newPath := FindPath(tree, root, newParts, [oldPath.nodes], 2, locks, depth);
    JoinedIds(oldPath.nodes, newPath.nodes);
    var unlocker := new FsPathUnlocker.Joint(oldPath.nodes + newPath.nodes);
    unlocker.Release(locks);
    oldFound, newParentFound := oldPath.IsPathMatched(), newPath.IsParentPathMatched();
    if |oldParts| >= 1 {
      CountsTell(tree, root, oldParts, 2);
    }
    if |newParts| >= 1 {
      CountsTell(tree, root, newParts, 2);
    }
  }

  lemma OnePathIds(nodes: seq<NodeId>)
    ensures AllIds([nodes]) == Ids(nodes)
  {
    assert forall node :: node in Ids(nodes) ==> node in [nodes][0];
  }

  lemma JoinedIds(a: seq<NodeId>, b: seq<NodeId>)
    ensures Ids(a + b) == Ids(a) + Ids(b)
  {
  }
}
