/** The single-flight protocol of the sizes cache (src/cache/CommonCache.h, `getFileSize`): any number
    of callers, a sentinel that marks a size being fetched, and a condition variable. */
module SizeCaches {
  import opened Bytes

  type Id = nat
  type Tid = nat

  /** `OBTAINING_FILE_SIZE` */
  const OBTAINING := -1

  datatype Thread =
    | Checking(id: Id)               // 89, under the sizes mutex
    | Deciding(id: Id)               // 102: saw the sentinel, does not sleep yet
    | Asleep(id: Id)                 // 104
    | Fetching(id: Id)               // 108
    | Storing(id: Id, size: nat)     // 118
    | Clearing(id: Id)               // 111
    | Notifying(id: Id, result: Option<nat>) // 114 or 121
    | Returned(id: Id, value: int)
    | Threw(id: Id)

  /** `undefined` is set by removing a key that the cache does not hold. */
  datatype State = State(sizes: map<Id, int>, threads: map<Tid, Thread>, undefined: bool)

  datatype Action =
    | Call(t: Tid, id: Id)
    | Check(t: Tid)
    | Sleep(t: Tid)
    | WakeSpuriously(t: Tid)
    | Fetch(t: Tid)
    | FetchFails(t: Tid)
    | Store(t: Tid)
    | Clear(t: Tid)
    | Notify(t: Tid)
    | Drop(id: Id)                   // eviction of an entry, or `removeSize`, whether there is one or not

  const INIT := State(map[], map[], false)

  function Set(s: State, t: Tid, th: Thread): State {
    s.(threads := s.threads[t := th])
  }

  function CheckStep(s: State, t: Tid, id: Id): State {
    if id in s.sizes then
      if s.sizes[id] != OBTAINING then Set(s, t, Returned(id, s.sizes[id])) else Set(s, t, Deciding(id))
    else Set(s.(sizes := s.sizes[id := OBTAINING]), t, Fetching(id))
  }

  function WakeAll(threads: map<Tid, Thread>): map<Tid, Thread> {
    map t | t in threads :: if threads[t].Asleep? then Checking(threads[t].id) else threads[t]
  }

  /** One atomic step of a thread; `total` is remote size plus extra size of each file. */
  function ThreadStep(total: Id -> nat, s: State, t: Tid, a: Action): Option<State>
    requires t in s.threads
  {
    match (a, s.threads[t])
    case (Check(_), Checking(id)) => Some(CheckStep(s, t, id))
    case (Sleep(_), Deciding(id)) => Some(Set(s, t, Asleep(id)))
    case (WakeSpuriously(_), Asleep(id)) => Some(Set(s, t, Checking(id)))
    case (Fetch(_), Fetching(id)) => Some(Set(s, t, Storing(id, total(id))))
    case (FetchFails(_), Fetching(id)) => Some(Set(s, t, Clearing(id)))
    case (Store(_), Storing(id, size)) => Some(Set(s.(sizes := s.sizes[id := size]), t, Notifying(id, Some(size))))
    case (Clear(_), Clearing(id)) =>
      Some(Set(s.(sizes := s.sizes - {id}, undefined := s.undefined || id !in s.sizes), t, Notifying(id, None)))
    case (Notify(_), Notifying(id, result)) =>
      var done := if result.Some? then Returned(id, result.value) else Threw(id);
      Some(s.(threads := WakeAll(s.threads)[t := done]))
    case _ => None
  }

  function Step(total: Id -> nat, s: State, a: Action): Option<State> {
    match a
    case Call(t, id) => if t in s.threads then None else Some(Set(s, t, Checking(id)))
    case Drop(id) => Some(s.(sizes := s.sizes - {id}, undefined := s.undefined || id !in s.sizes))
    case _ => if a.t in s.threads then ThreadStep(total, s, a.t, a) else None
  }

  function Run(total: Id -> nat, s: State, run: seq<Action>): Option<State>
    decreases |run|
  {
    if run == [] then Some(s)
    else match Step(total, s, run[0])
      case None => None
      case Some(s') => Run(total, s', run[1..])
  }

  /** The entry is a size, and no sentinel. */
  predicate Cached(sizes: map<Id, int>, id: Id) {
    id in sizes && sizes[id] != OBTAINING
  }

  /** Every eviction and every `removeSize` hits a size that is cached, and none that is being fetched. */
  predicate KeepsSentinels(total: Id -> nat, s: State, run: seq<Action>)
    decreases |run|
  {
    run == [] ||
    ((run[0].Drop? ==> Cached(s.sizes, run[0].id)) &&
     match Step(total, s, run[0])
     case None => true
     case Some(s') => KeepsSentinels(total, s', run[1..]))
  }

  /** The thread owns the sentinel of `id`. */
  predicate InFlight(th: Thread, id: Id) {
    (th.Fetching? || th.Storing? || th.Clearing?) && th.id == id
  }

  ghost predicate ThreadOk(total: Id -> nat, th: Thread) {
    && (th.Storing? ==> th.size == total(th.id))
    && (th.Notifying? && th.result.Some? ==> th.result.value == total(th.id))
    && (th.Returned? ==> th.value == total(th.id))
  }

  predicate IsSentinel(sizes: map<Id, int>, id: Id) {
    id in sizes && sizes[id] == OBTAINING
  }

  /** Some thread owns the sentinel of `id`. */
  predicate Owned(threads: map<Tid, Thread>, id: Id) {
    exists t | t in threads :: InFlight(threads[t], id)
  }

  /** Each sentinel has exactly one owner, and nobody owns what is no sentinel. */
  ghost predicate Paired(sizes: map<Id, int>, threads: map<Tid, Thread>) {
    && (forall id :: IsSentinel(sizes, id) <==> Owned(threads, id))
    && (forall t, u, id |
          t in threads && u in threads && InFlight(threads[t], id) && InFlight(threads[u], id) :: t == u)
  }

  ghost predicate SizesOk(total: Id -> nat, sizes: map<Id, int>) {
    forall id | id in sizes :: sizes[id] == OBTAINING || sizes[id] == total(id)
  }

  ghost predicate Inv(total: Id -> nat, s: State) {
    && !s.undefined
    && (forall t | t in s.threads :: ThreadOk(total, s.threads[t]))
    && Paired(s.sizes, s.threads)
    && SizesOk(total, s.sizes)
  }

  predicate OwnsNothing(th: Thread) {
    !th.Fetching? && !th.Storing? && !th.Clearing?
  }

  /** A thread that owns nothing takes a step after which it owns nothing. */
  lemma IdleMoveKeepsPaired(sizes: map<Id, int>, threads: map<Tid, Thread>, t: Tid, th: Thread)
    requires Paired(sizes, threads) && OwnsNothing(th) && (t in threads ==> OwnsNothing(threads[t]))
    ensures Paired(sizes, threads[t := th])
  {
    var threads' := threads[t := th];
    forall id
      ensures Owned(threads, id) <==> Owned(threads', id)
    {
      if Owned(threads, id) {
        var u :| u in threads && InFlight(threads[u], id);
        assert InFlight(threads'[u], id);
      }
      if Owned(threads', id) {
        var u :| u in threads' && InFlight(threads'[u], id);
        assert InFlight(threads[u], id);
      }
    }
  }

  /** An owner goes on owning. */
  lemma OwnerMoveKeepsPaired(sizes: map<Id, int>, threads: map<Tid, Thread>, t: Tid, th: Thread)
    requires Paired(sizes, threads) && t in threads && InFlight(th, th.id) && InFlight(threads[t], th.id)
    ensures Paired(sizes, threads[t := th])
  {
    var threads' := threads[t := th];
    forall id
      ensures Owned(threads, id) <==> Owned(threads', id)
    {
      if Owned(threads, id) {
        var u :| u in threads && InFlight(threads[u], id);
        assert InFlight(threads'[u], id);
      }
      if Owned(threads', id) {
        var u :| u in threads' && InFlight(threads'[u], id);
        assert InFlight(threads[u], id);
      }
    }
  }

  lemma AcquireKeepsPaired(sizes: map<Id, int>, threads: map<Tid, Thread>, t: Tid, id: Id)
    requires Paired(sizes, threads) && t in threads && OwnsNothing(threads[t]) && id !in sizes
    ensures Paired(sizes[id := OBTAINING], threads[t := Fetching(id)])
  {
    var threads', sizes' := threads[t := Fetching(id)], sizes[id := OBTAINING];
    assert !IsSentinel(sizes, id);
    forall i
      ensures IsSentinel(sizes', i) <==> Owned(threads', i)
    {
      if i == id {
        assert InFlight(threads'[t], i);
      } else {
        assert IsSentinel(sizes', i) <==> IsSentinel(sizes, i);
        if Owned(threads, i) {
          var u :| u in threads && InFlight(threads[u], i);
          assert InFlight(threads'[u], i);
        }
        if Owned(threads', i) {
          var u :| u in threads' && InFlight(threads'[u], i);
          assert InFlight(threads[u], i);
        }
      }
    }
  }

  /** Storing or clearing: the sentinel and its ownership go together. */
  lemma ReleaseKeepsPaired(sizes: map<Id, int>, sizes': map<Id, int>, threads: map<Tid, Thread>, t: Tid, id: Id,
      th: Thread)
    requires Paired(sizes, threads) && t in threads && InFlight(threads[t], id) && OwnsNothing(th)
    requires !IsSentinel(sizes', id) && forall i | i != id :: IsSentinel(sizes', i) <==> IsSentinel(sizes, i)
    ensures Paired(sizes', threads[t := th])
  {
    var threads' := threads[t := th];
    forall i
      ensures IsSentinel(sizes', i) <==> Owned(threads', i)
    {
      if Owned(threads', i) {
        var u :| u in threads' && InFlight(threads'[u], i);
        assert InFlight(threads[u], i);
      }
      if i != id && Owned(threads, i) {
        var u :| u in threads && InFlight(threads[u], i);
        assert InFlight(threads'[u], i);
      }
    }
  }

  lemma WakeKeepsPaired(sizes: map<Id, int>, threads: map<Tid, Thread>)
    requires Paired(sizes, threads)
    ensures Paired(sizes, WakeAll(threads))
  {
    var threads' := WakeAll(threads);
    forall id
      ensures Owned(threads, id) <==> Owned(threads', id)
    {
      if Owned(threads, id) {
        var u :| u in threads && InFlight(threads[u], id);
        assert InFlight(threads'[u], id);
      }
      if Owned(threads', id) {
        var u :| u in threads' && InFlight(threads'[u], id);
        assert InFlight(threads[u], id);
      }
    }
  }

  lemma CheckKeeps(total: Id -> nat, s: State, t: Tid)
    requires Inv(total, s) && t in s.threads && s.threads[t].Checking?
    ensures Inv(total, CheckStep(s, t, s.threads[t].id))
  {
    var id := s.threads[t].id;
    if id !in s.sizes {
      AcquireKeepsPaired(s.sizes, s.threads, t, id);
    } else if s.sizes[id] != OBTAINING {
      IdleMoveKeepsPaired(s.sizes, s.threads, t, Returned(id, s.sizes[id]));
    } else {
      IdleMoveKeepsPaired(s.sizes, s.threads, t, Deciding(id));
    }
  }

  lemma ReleaseKeeps(total: Id -> nat, s: State, t: Tid, a: Action)
    requires Inv(total, s) && t in s.threads && (a.Store? || a.Clear?) && ThreadStep(total, s, t, a).Some?
    ensures Inv(total, ThreadStep(total, s, t, a).value)
  {
    var s' := ThreadStep(total, s, t, a).value;
    var th := s.threads[t];
    assert InFlight(th, th.id);
    assert Owned(s.threads, th.id);
    assert IsSentinel(s.sizes, th.id);
    ReleaseKeepsPaired(s.sizes, s'.sizes, s.threads, t, th.id, s'.threads[t]);
  }

  lemma NotifyKeeps(total: Id -> nat, s: State, t: Tid)
    requires Inv(total, s) && t in s.threads && s.threads[t].Notifying?
    ensures Inv(total, ThreadStep(total, s, t, Notify(t)).value)
  {
    hide Paired;
    var s' := ThreadStep(total, s, t, Notify(t)).value;
    WakeKeepsPaired(s.sizes, s.threads);
    IdleMoveKeepsPaired(s.sizes, WakeAll(s.threads), t, s'.threads[t]);
  }

  lemma ThreadStepKeeps(total: Id -> nat, s: State, t: Tid, a: Action)
    requires Inv(total, s) && t in s.threads && ThreadStep(total, s, t, a).Some?
    ensures Inv(total, ThreadStep(total, s, t, a).value)
  {
    hide Paired, SizesOk;
    match a
    case Check(_) => CheckKeeps(total, s, t);
    case Store(_) => ReleaseKeeps(total, s, t, a);
    case Clear(_) => ReleaseKeeps(total, s, t, a);
    case Notify(_) => NotifyKeeps(total, s, t);
    case Fetch(_) => OwnerMoveKeepsPaired(s.sizes, s.threads, t, ThreadStep(total, s, t, a).value.threads[t]);
    case FetchFails(_) => OwnerMoveKeepsPaired(s.sizes, s.threads, t, ThreadStep(total, s, t, a).value.threads[t]);
    case Sleep(_) => IdleMoveKeepsPaired(s.sizes, s.threads, t, ThreadStep(total, s, t, a).value.threads[t]);
    case WakeSpuriously(_) => IdleMoveKeepsPaired(s.sizes, s.threads, t, ThreadStep(total, s, t, a).value.threads[t]);
    case Call(_, _) =>
    case Drop(_) =>
  }

  lemma StepKeeps(total: Id -> nat, s: State, a: Action)
    requires Inv(total, s) && Step(total, s, a).Some?
    requires a.Drop? ==> Cached(s.sizes, a.id)
    ensures Inv(total, Step(total, s, a).value)
  {
    match a
    case Call(t, id) => IdleMoveKeepsPaired(s.sizes, s.threads, t, Checking(id));
    case Drop(id) =>
    case _ => ThreadStepKeeps(total, s, a.t, a);
  }

  lemma {:induction false} RunKeeps(total: Id -> nat, s: State, run: seq<Action>)
    requires Inv(total, s) && KeepsSentinels(total, s, run) && Run(total, s, run).Some?
    ensures Inv(total, Run(total, s, run).value)
    decreases |run|
  {
    hide Inv;
    if run != [] {
      StepKeeps(total, s, run[0]);
      RunKeeps(total, Step(total, s, run[0]).value, run[1..]);
    }
  }

  /** In every interleaving: at most one thread fetches a file's size; every size handed out is the
      total size, never the sentinel; and when no thread is fetching any more no sentinel is left,
      however many fetches failed. */
  lemma SingleFlight(total: Id -> nat, run: seq<Action>)
    requires KeepsSentinels(total, INIT, run) && Run(total, INIT, run).Some?
    ensures var s := Run(total, INIT, run).value;
            && !s.undefined
            && (forall t, u | t in s.threads && u in s.threads && s.threads[t].Fetching? && s.threads[u].Fetching?
                              && s.threads[t].id == s.threads[u].id :: t == u)
            && (forall t | t in s.threads && s.threads[t].Returned? ::
                  s.threads[t].value == total(s.threads[t].id) && s.threads[t].value != OBTAINING)
            && (forall id | IsSentinel(s.sizes, id) :: Owned(s.threads, id))
  {
    RunKeeps(total, INIT, run);
    var s := Run(total, INIT, run).value;
    forall t, u | t in s.threads && u in s.threads && s.threads[t].Fetching? && s.threads[u].Fetching?
                  && s.threads[t].id == s.threads[u].id
      ensures t == u
    {
      assert InFlight(s.threads[t], s.threads[t].id) && InFlight(s.threads[u], s.threads[t].id);
    }
  }

  // ----- A sentinel is dropped -----

  /** A run that drops no sentinel leads from one state to the other. */
  ghost predicate Leads(total: Id -> nat, s: State, s': State) {
    exists run :: KeepsSentinels(total, s, run) && Run(total, s, run) == Some(s')
  }

  lemma LeadsNowhere(total: Id -> nat, s: State)
    ensures Leads(total, s, s)
  {
    assert KeepsSentinels(total, s, []) && Run(total, s, []) == Some(s);
  }

  lemma {:induction false} RunAppend(total: Id -> nat, s: State, run: seq<Action>, a: Action)
    requires KeepsSentinels(total, s, run) && Run(total, s, run).Some?
    requires a.Drop? ==> Cached(Run(total, s, run).value.sizes, a.id)
    ensures KeepsSentinels(total, s, run + [a])
    ensures Run(total, s, run + [a]) == Step(total, Run(total, s, run).value, a)
    decreases |run|
  {
    hide Step;
    if run == [] {
      assert run + [a] == [a] && [a][1..] == [];
    } else {
      assert (run + [a])[1..] == run[1..] + [a];
      RunAppend(total, Step(total, s, run[0]).value, run[1..], a);
    }
  }

  lemma LeadsOn(total: Id -> nat, start: State, s: State, a: Action, s': State)
    requires Leads(total, start, s) && Step(total, s, a) == Some(s') && (a.Drop? ==> Cached(s.sizes, a.id))
    ensures Leads(total, start, s')
  {
    hide Run, KeepsSentinels, Step;
    var run :| KeepsSentinels(total, start, run) && Run(total, start, run) == Some(s);
    RunAppend(total, start, run, a);
  }

  lemma {:induction false} UnusedTid(used: set<Tid>) returns (t: Tid)
    ensures forall u | u in used :: u < t
    decreases |used|
  {
    if used == {} {
      t := 0;
    } else {
      var u :| u in used;
      t := UnusedTid(used - {u});
      t := if u < t then t else u + 1;
      forall v | v in used
        ensures v < t
      {
        assert v == u || v in used - {u};
      }
    }
  }

  /** With no entry for the file, another caller begins to fetch its size. */
  lemma AnotherFetches(total: Id -> nat, start: State, s: State, id: Id) returns (u: Tid, s': State)
    requires Leads(total, start, s) && id !in s.sizes
    ensures Leads(total, start, s') && u !in s.threads
    ensures s' == State(s.sizes[id := OBTAINING], s.threads[u := Fetching(id)], s.undefined)
  {
    hide Leads;
    u := UnusedTid(s.threads.Keys);
    assert u !in s.threads.Keys;
    var s1 := Set(s, u, Checking(id));
    LeadsOn(total, start, s, Call(u, id), s1);
    s' := CheckStep(s1, u, id);
    LeadsOn(total, start, s1, Check(u), s');
    assert s'.threads == s.threads[u := Fetching(id)];
  }

  /** Two callers fetch one size. */
  predicate FetchedTwice(s: State, id: Id) {
    exists t, u | t in s.threads && u in s.threads :: t != u && s.threads[t] == Fetching(id) == s.threads[u]
  }

  lemma FetchesTwice(total: Id -> nat, start: State, s: State, t: Tid, id: Id) returns (s': State)
    requires Leads(total, start, s) && id !in s.sizes && t in s.threads && s.threads[t] == Fetching(id)
    ensures Leads(total, start, s') && FetchedTwice(s', id)
  {
    hide Leads;
    var u;
    u, s' := AnotherFetches(total, start, s, id);
    assert s'.threads[t] == Fetching(id) == s'.threads[u];
  }

  /** One caller has the sentinel of another in its hands, and takes it away. */
  lemma OwnerTakesAnother(total: Id -> nat, start: State, s: State, t: Tid, id: Id) returns (u: Tid, s': State)
    requires Leads(total, start, s) && id !in s.sizes && t in s.threads && !s.undefined
    requires (s.threads[t].Storing? || s.threads[t] == Clearing(id)) && s.threads[t].id == id
    requires s.threads[t].Storing? ==> s.threads[t].size == total(id)
    ensures Leads(total, start, s') && id !in s'.sizes && u in s'.threads && s'.threads[u] == Fetching(id)
    ensures !s'.undefined
  {
    hide Leads, Step;
    var s1;
    u, s1 := AnotherFetches(total, start, s, id);
    if s.threads[t].Storing? {
      var s2 := Set(s1.(sizes := s1.sizes[id := total(id)]), t, Notifying(id, Some(total(id))));
      StoreIs(total, s1, t, id);
      LeadsOn(total, start, s1, Store(t), s2);
      s' := s2.(sizes := s2.sizes - {id});
      DropIs(total, s2, id);
      LeadsOn(total, start, s2, Drop(id), s');
    } else {
      s' := Set(s1.(sizes := s1.sizes - {id}), t, Notifying(id, None));
      ClearIs(total, s1, t, id);
      LeadsOn(total, start, s1, Clear(t), s');
    }
  }

  lemma StoreIs(total: Id -> nat, s: State, t: Tid, id: Id)
    requires t in s.threads && s.threads[t] == Storing(id, total(id))
    ensures Step(total, s, Store(t)) ==
            Some(Set(s.(sizes := s.sizes[id := total(id)]), t, Notifying(id, Some(total(id)))))
  {
  }

  lemma ClearIs(total: Id -> nat, s: State, t: Tid, id: Id)
    requires t in s.threads && s.threads[t] == Clearing(id)
    ensures Step(total, s, Clear(t)) ==
            Some(Set(s.(sizes := s.sizes - {id}, undefined := s.undefined || id !in s.sizes), t, Notifying(id, None)))
  {
  }

  lemma DropIs(total: Id -> nat, s: State, id: Id)
    requires id in s.sizes
    ensures Step(total, s, Drop(id)) == Some(s.(sizes := s.sizes - {id}))
  {
  }

  lemma FailIs(total: Id -> nat, s: State, t: Tid, id: Id)
    requires t in s.threads && s.threads[t] == Fetching(id)
    ensures Step(total, s, FetchFails(t)) == Some(Set(s, t, Clearing(id)))
  {
  }

  lemma OwnerOf(total: Id -> nat, s: State, id: Id) returns (t: Tid)
    requires Inv(total, s) && IsSentinel(s.sizes, id)
    ensures t in s.threads && InFlight(s.threads[t], id)
    ensures s.threads[t].Storing? ==> s.threads[t].size == total(id)
  {
    assert Owned(s.threads, id);
    t :| t in s.threads && InFlight(s.threads[t], id);
  }

  /** A caller that fetches a size without an entry fails, and removes what is not there. */
  lemma FetcherIsUndefined(total: Id -> nat, start: State, s: State, t: Tid, id: Id) returns (s': State)
    requires Leads(total, start, s) && id !in s.sizes && t in s.threads && s.threads[t] == Fetching(id)
    ensures Leads(total, start, s') && s'.undefined
  {
    hide Leads, Step;
    FailIs(total, s, t, id);
    LeadsOn(total, start, s, FetchFails(t), Set(s, t, Clearing(id)));
    s' := ClearerIsUndefined(total, start, Set(s, t, Clearing(id)), t, id);
  }

  lemma ClearerIsUndefined(total: Id -> nat, start: State, s: State, t: Tid, id: Id) returns (s': State)
    requires Leads(total, start, s) && id !in s.sizes && t in s.threads && s.threads[t] == Clearing(id)
    ensures Leads(total, start, s') && s'.undefined
  {
    hide Leads, Step;
    ClearIs(total, s, t, id);
    s' := Set(s.(sizes := s.sizes - {id}, undefined := true), t, Notifying(id, None));
    LeadsOn(total, start, s, Clear(t), s');
  }

  /** Wherever the owner of a dropped sentinel stands, it and later callers can come to fetch the size twice,
      and to remove an entry that is not there. */
  lemma DroppedSentinelBreaks(total: Id -> nat, s: State, id: Id) returns (twice: State, wild: State)
    requires Inv(total, s) && IsSentinel(s.sizes, id)
    ensures Leads(total, s.(sizes := s.sizes - {id}), twice) && FetchedTwice(twice, id)
    ensures Leads(total, s.(sizes := s.sizes - {id}), wild) && wild.undefined
  {
    hide Leads, Paired, FetchedTwice;
    var t := OwnerOf(total, s, id);
    var s1 := s.(sizes := s.sizes - {id});
    LeadsNowhere(total, s1);
    if s.threads[t].Fetching? {
      twice := FetchesTwice(total, s1, s1, t, id);
      wild := FetcherIsUndefined(total, s1, s1, t, id);
    } else {
      var u, s2 := OwnerTakesAnother(total, s1, s1, t, id);
      twice := FetchesTwice(total, s1, s2, u, id);
      wild := FetcherIsUndefined(total, s1, s2, u, id);
    }
  }

  lemma NotDroppedIsKept(total: Id -> nat, s: State, id: Id, s': State)
    requires Inv(total, s) && id in s.sizes && !IsSentinel(s.sizes, id)
    requires Leads(total, s.(sizes := s.sizes - {id}), s')
    ensures !FetchedTwice(s', id) && !s'.undefined
  {
    hide Run, KeepsSentinels;
    var s1 := s.(sizes := s.sizes - {id});
    DropIs(total, s, id);
    StepKeeps(total, s, Drop(id));
    var run :| KeepsSentinels(total, s1, run) && Run(total, s1, run) == Some(s');
    RunKeeps(total, s1, run);
    forall t, u | t in s'.threads && u in s'.threads && s'.threads[t] == Fetching(id) == s'.threads[u]
      ensures t == u
    {
      assert InFlight(s'.threads[t], id) && InFlight(s'.threads[u], id);
    }
  }

  /** What has become undefined does not change what is done. */
  lemma {:induction false} UndefinedStays(total: Id -> nat, s: State, run: seq<Action>)
    requires KeepsSentinels(total, s.(undefined := true), run)
    ensures KeepsSentinels(total, s, run)
    ensures
      Run(total, s.(undefined := true), run) ==
      if Run(total, s, run).Some? then Some(Run(total, s, run).value.(undefined := true)) else None
    decreases |run|
  {
    if run != [] {
      UndefinedStep(total, s, run[0]);
      hide Step;
      if Step(total, s, run[0]).Some? {
        UndefinedStays(total, Step(total, s, run[0]).value, run[1..]);
      }
    }
  }

  lemma UndefinedStep(total: Id -> nat, s: State, a: Action)
    ensures
      Step(total, s.(undefined := true), a) ==
      if Step(total, s, a).Some? then Some(Step(total, s, a).value.(undefined := true)) else None
  {
  }

  lemma AbsentIsNotFetchedTwice(total: Id -> nat, s: State, id: Id, s': State)
    requires Inv(total, s) && Leads(total, s.(undefined := true), s')
    ensures !FetchedTwice(s', id)
  {
    hide Run, KeepsSentinels;
    var run :| KeepsSentinels(total, s.(undefined := true), run) && Run(total, s.(undefined := true), run) == Some(s');
    UndefinedStays(total, s, run);
    RunKeeps(total, s, run);
    forall t, u | t in s'.threads && u in s'.threads && s'.threads[t] == Fetching(id) == s'.threads[u]
      ensures t == u
    {
      assert InFlight(s'.threads[t], id) && InFlight(s'.threads[u], id);
    }
  }

  /** Whether a size may be dropped: from then on, dropping only what is cached, two callers can come to fetch that
      size at once exactly when the entry was a sentinel, and an entry can come to be removed that is not
      there exactly when there was no size. */
  lemma DropBreaksIff(total: Id -> nat, s: State, id: Id)
    requires Inv(total, s)
    ensures
      var s1 := Step(total, s, Drop(id)).value;
      && ((exists s' :: Leads(total, s1, s') && FetchedTwice(s', id)) <==> IsSentinel(s.sizes, id))
      && ((exists s' :: Leads(total, s1, s') && s'.undefined) <==> !Cached(s.sizes, id))
  {
    hide Leads, Inv, FetchedTwice, Step;
    if id !in s.sizes {
      AbsentDropIs(total, s, id);
      LeadsNowhere(total, s.(undefined := true));
      forall s' | Leads(total, s.(undefined := true), s')
        ensures !FetchedTwice(s', id)
      {
        AbsentIsNotFetchedTwice(total, s, id, s');
      }
    } else if IsSentinel(s.sizes, id) {
      NothingUndefined(total, s);
      DropIs(total, s, id);
      var twice, wild := DroppedSentinelBreaks(total, s, id);
    } else {
      NothingUndefined(total, s);
      DropIs(total, s, id);
      forall s' | Leads(total, s.(sizes := s.sizes - {id}), s')
        ensures !FetchedTwice(s', id) && !s'.undefined
      {
        NotDroppedIsKept(total, s, id, s');
      }
    }
  }

  lemma NothingUndefined(total: Id -> nat, s: State)
    requires Inv(total, s)
    ensures !s.undefined
  {
  }

  lemma AbsentDropIs(total: Id -> nat, s: State, id: Id)
    requires id !in s.sizes
    ensures Step(total, s, Drop(id)) == Some(s.(undefined := true))
  {
    assert s.sizes - {id} == s.sizes;
  }

  /** A size that is removed twice in a row, as two failing reads of one song do it, is gone the second time. */
  lemma RemovedTwice(total: Id -> nat, id: Id)
    ensures
      var run := [Call(0, id), Check(0), Fetch(0), Store(0), Drop(id), Drop(id)];
      Run(total, INIT, run).Some? && Run(total, INIT, run).value.undefined
  {
    hide Run, Step;
    var s2 := InFlightFromStart(total, id);
    var s3 := Set(s2, 0, Storing(id, total(id)));
    var s4 := Set(s3.(sizes := s3.sizes[id := total(id)]), 0, Notifying(id, Some(total(id))));
    var s5 := s4.(sizes := s4.sizes - {id});
    FetchIs(total, s2, 0, id);
    StoreIs(total, s3, 0, id);
    DropIs(total, s4, id);
    AbsentDropIs(total, s5, id);
    var run := [Call(0, id), Check(0)];
    run := Then(total, run, Fetch(0), s2, s3);
    run := Then(total, run, Store(0), s3, s4);
    run := Then(total, run, Drop(id), s4, s5);
    run := Then(total, run, Drop(id), s5, s5.(undefined := true));
    assert run == [Call(0, id), Check(0), Fetch(0), Store(0), Drop(id), Drop(id)];
  }

  lemma FetchIs(total: Id -> nat, s: State, t: Tid, id: Id)
    requires t in s.threads && s.threads[t] == Fetching(id)
    ensures Step(total, s, Fetch(t)) == Some(Set(s, t, Storing(id, total(id))))
  {
  }

  lemma {:induction false} RunOfConcat(total: Id -> nat, s: State, a: seq<Action>, b: seq<Action>)
    requires Run(total, s, a).Some?
    ensures Run(total, s, a + b) == Run(total, Run(total, s, a).value, b)
    decreases |a|
  {
    hide Step;
    if a == [] {
      assert a + b == b;
    } else {
      assert (a + b)[1..] == a[1..] + b;
      RunOfConcat(total, Step(total, s, a[0]).value, a[1..], b);
    }
  }

  /** From nothing, a caller and one dropped sentinel suffice for both. */
  lemma BrokenFromStart(total: Id -> nat, id: Id) returns (twice: seq<Action>, wild: seq<Action>)
    ensures Run(total, INIT, twice).Some? && FetchedTwice(Run(total, INIT, twice).value, id)
    ensures Run(total, INIT, wild).Some? && Run(total, INIT, wild).value.undefined
  {
    hide FetchedTwice, Step, Run, Inv;
    var s := InFlightFromStart(total, id);
    var s1 := s.(sizes := s.sizes - {id});
    var first := [Call(0, id), Check(0), Drop(id)];
    DropIs(total, s, id);
    RunOfConcat(total, INIT, [Call(0, id), Check(0)], [Drop(id)]);
    assert [Call(0, id), Check(0)] + [Drop(id)] == first;
    assert Run(total, s, [Drop(id)]) == Some(s1) by { RunOfOne(total, s, Drop(id)); }
    var s2, s3 := DroppedSentinelBreaks(total, s, id);
    var run :| KeepsSentinels(total, s1, run) && Run(total, s1, run) == Some(s2);
    RunOfConcat(total, INIT, first, run);
    twice := first + run;
    run :| KeepsSentinels(total, s1, run) && Run(total, s1, run) == Some(s3);
    RunOfConcat(total, INIT, first, run);
    wild := first + run;
  }

  lemma RunOfOne(total: Id -> nat, s: State, a: Action)
    ensures Run(total, s, [a]) == Step(total, s, a)
  {
    hide Step;
    assert [a][1..] == [];
  }

  lemma InFlightFromStart(total: Id -> nat, id: Id) returns (s: State)
    ensures Run(total, INIT, [Call(0, id), Check(0)]) == Some(s) && Inv(total, s)
    ensures s == State(map[id := OBTAINING], map[0 := Fetching(id)], false)
  {
    hide Inv;
    var run := [Call(0, id), Check(0)];
    var s1 := Step(total, INIT, run[0]).value;
    s := Step(total, s1, run[1]).value;
    RunOfOne(total, s1, Check(0));
    assert run[1..] == [Check(0)];
    StepKeeps(total, INIT, run[0]);
    StepKeeps(total, s1, run[1]);
  }

  // ----- Waking up -----

  /** The thread fetches the size or is going to notify those who wait for it. */
  predicate WillNotify(threads: map<Tid, Thread>, t: Tid, id: Id) {
    t in threads && (InFlight(threads[t], id) || (threads[t].Notifying? && threads[t].id == id))
  }

  /** Someone is still going to notify the sleepers on `id`. */
  predicate Promised(threads: map<Tid, Thread>, id: Id) {
    exists t | t in threads :: WillNotify(threads, t, id)
  }

  ghost predicate SleepersPromised(s: State) {
    forall u | u in s.threads && s.threads[u].Asleep? :: Promised(s.threads, s.threads[u].id)
  }

  /** A caller that sleeps does so right after its own check. */
  predicate SleepsAtOnce(run: seq<Action>) {
    forall i | 0 <= i < |run| && run[i].Sleep? :: i > 0 && run[i - 1] == Check(run[i].t)
  }

  lemma PromiseSurvives(total: Id -> nat, s: State, a: Action, id: Id)
    requires Step(total, s, a).Some? && !a.Notify? && Promised(s.threads, id)
    ensures Promised(Step(total, s, a).value.threads, id)
  {
    var s' := Step(total, s, a).value;
    var t :| t in s.threads && WillNotify(s.threads, t, id);
    assert WillNotify(s'.threads, t, id);
  }

  lemma AwakeStepKeepsPromise(total: Id -> nat, s: State, a: Action)
    requires SleepersPromised(s) && Step(total, s, a).Some? && !a.Sleep?
    ensures SleepersPromised(Step(total, s, a).value)
  {
    var s' := Step(total, s, a).value;
    forall u | u in s'.threads && s'.threads[u].Asleep?
      ensures Promised(s'.threads, s'.threads[u].id)
    {
      assert u in s.threads && s.threads[u] == s'.threads[u] && !a.Notify?;
      PromiseSurvives(total, s, a, s.threads[u].id);
    }
  }

  /** Right after its check the sleeper's file is in flight. */
  lemma PromptSleepKeepsPromise(total: Id -> nat, s: State, t: Tid)
    requires Inv(total, s) && SleepersPromised(s)
    requires Step(total, s, Check(t)).Some? && Step(total, Step(total, s, Check(t)).value, Sleep(t)).Some?
    ensures SleepersPromised(Step(total, Step(total, s, Check(t)).value, Sleep(t)).value)
  {
    var id := s.threads[t].id;
    var s1 := Step(total, s, Check(t)).value;
    var s2 := Step(total, s1, Sleep(t)).value;
    assert IsSentinel(s.sizes, id);
    assert Promised(s.threads, id) by {
      var v :| v in s.threads && InFlight(s.threads[v], id);
      assert WillNotify(s.threads, v, id);
    }
    forall u | u in s2.threads && s2.threads[u].Asleep?
      ensures Promised(s2.threads, s2.threads[u].id)
    {
      if u != t {
        assert u in s.threads && s.threads[u] == s2.threads[u];
      }
      PromiseSurvives(total, s, Check(t), s2.threads[u].id);
      PromiseSurvives(total, s1, Sleep(t), s2.threads[u].id);
    }
  }

  /** If check and sleep were one step, no caller would ever sleep without a notification to come. */
  lemma {:induction false} PromptSleepersAreWoken(total: Id -> nat, s: State, run: seq<Action>)
    requires Inv(total, s) && SleepersPromised(s)
    requires SleepsAtOnce(run) && KeepsSentinels(total, s, run) && Run(total, s, run).Some?
    ensures SleepersPromised(Run(total, s, run).value)
    decreases |run|
  {
    hide Inv, SleepersPromised, Step;
    if run != [] {
      assert !run[0].Sleep?;
      var s1 := Step(total, s, run[0]).value;
      StepKeeps(total, s, run[0]);
      if |run| > 1 && run[1].Sleep? {
        assert run[0] == Check(run[1].t);
        var s2 := Step(total, s1, run[1]).value;
        assert run[1..][0] == run[1] && run[1..][1..] == run[2..];
        StepKeeps(total, s1, run[1]);
        PromptSleepKeepsPromise(total, s, run[1].t);
        assert SleepsAtOnce(run[2..]) by {
          assert forall i | 0 <= i < |run| - 2 :: run[2..][i] == run[i + 2];
        }
        PromptSleepersAreWoken(total, s2, run[2..]);
      } else {
        AwakeStepKeepsPromise(total, s, run[0]);
        assert SleepsAtOnce(run[1..]) by {
          assert forall i | 0 <= i < |run| - 1 :: run[1..][i] == run[i + 1];
        }
        PromptSleepersAreWoken(total, s1, run[1..]);
      }
    }
  }

  // ----- When a wake-up is lost -----

  /** Somewhere in the run, thread `v` finds no entry for the file and begins to fetch its size. */
  predicate Begins(total: Id -> nat, s: State, run: seq<Action>, v: Tid, id: Id)
    decreases |run|
  {
    run != [] &&
    ((run[0] == Check(v) && v in s.threads && s.threads[v] == Checking(id) && id !in s.sizes) ||
     match Step(total, s, run[0])
     case None => false
     case Some(s') => Begins(total, s', run[1..], v, id))
  }

  predicate Over(threads: map<Tid, Thread>, v: Tid) {
    v in threads && (threads[v].Returned? || threads[v].Threw?)
  }

  lemma {:induction false} OverStays(total: Id -> nat, s: State, run: seq<Action>, v: Tid, id: Id)
    requires Over(s.threads, v) && Run(total, s, run).Some?
    ensures Over(Run(total, s, run).value.threads, v) && !Begins(total, s, run, v, id)
    decreases |run|
  {
    if run != [] {
      hide Step;
      OverStays(total, Step(total, s, run[0]).value, run[1..], v, id);
    }
  }

  lemma NotifyEnds(total: Id -> nat, s: State, v: Tid)
    requires Step(total, s, Notify(v)).Some?
    ensures Over(Step(total, s, Notify(v)).value.threads, v)
  {
  }

  lemma WillNotifyStep(total: Id -> nat, s: State, a: Action, v: Tid, id: Id)
    requires Step(total, s, a).Some? && a != Notify(v)
    ensures
      WillNotify(Step(total, s, a).value.threads, v, id) <==>
      WillNotify(s.threads, v, id) ||
      (a == Check(v) && v in s.threads && s.threads[v] == Checking(id) && id !in s.sizes)
  {
  }

  /** Who is still to notify after a run: those who were and those who began to fetch, unless they have. */
  lemma {:induction false} WillNotifyIff(total: Id -> nat, s: State, run: seq<Action>, v: Tid, id: Id)
    requires Run(total, s, run).Some?
    ensures
      WillNotify(Run(total, s, run).value.threads, v, id) <==>
      (WillNotify(s.threads, v, id) || Begins(total, s, run, v, id)) && Notify(v) !in run
    decreases |run|
  {
    hide Step, WillNotify;
    if run != [] {
      var s' := Step(total, s, run[0]).value;
      if run[0] == Notify(v) {
        NotifyEnds(total, s, v);
        OverStays(total, s', run[1..], v, id);
        OverWillNot(Run(total, s', run[1..]).value.threads, v, id);
      } else {
        WillNotifyStep(total, s, run[0], v, id);
        WillNotifyIff(total, s', run[1..], v, id);
        assert run == [run[0]] + run[1..];
      }
    }
  }

  lemma OverWillNot(threads: map<Tid, Thread>, v: Tid, id: Id)
    requires Over(threads, v)
    ensures !WillNotify(threads, v, id)
  {
  }

  /** The thread takes no step in the run. */
  predicate Rests(run: seq<Action>, u: Tid) {
    forall a | a in run :: !a.Drop? ==> a.t != u
  }

  lemma {:induction false} RestingStays(total: Id -> nat, s: State, run: seq<Action>, u: Tid)
    requires Run(total, s, run).Some? && Rests(run, u)
    requires u in s.threads && (s.threads[u].Deciding? || s.threads[u].Checking?)
    ensures u in Run(total, s, run).value.threads && Run(total, s, run).value.threads[u] == s.threads[u]
    decreases |run|
  {
    if run != [] {
      assert run[0] in run;
      var s' := Step(total, s, run[0]).value;
      assert s'.threads[u] == s.threads[u];
      hide Step;
      RestingStays(total, s', run[1..], u);
    }
  }

  /** A caller that has seen the sentinel goes to sleep with nobody left to notify it, exactly when all who
      were fetching that size or about to notify at its check, and all who began to fetch it since, have
      notified before it sleeps. */
  lemma WakeupIsLostIff(total: Id -> nat, s: State, u: Tid, between: seq<Action>)
    requires u in s.threads && s.threads[u].Deciding? && Rests(between, u) && Run(total, s, between).Some?
    ensures
      var id, s' := s.threads[u].id, Run(total, s, between).value;
      && Step(total, s', Sleep(u)) == Some(Set(s', u, Asleep(id)))
      && (!Promised(Set(s', u, Asleep(id)).threads, id) <==>
          forall v | WillNotify(s.threads, v, id) || Begins(total, s, between, v, id) :: Notify(v) in between)
  {
    hide Run, Begins, WillNotify;
    var id, s' := s.threads[u].id, Run(total, s, between).value;
    RestingStays(total, s, between, u);
    forall v
      ensures WillNotify(s'.threads, v, id) <==>
        (WillNotify(s.threads, v, id) || Begins(total, s, between, v, id)) && Notify(v) !in between
    {
      WillNotifyIff(total, s, between, v, id);
    }
    SleeperPromisesNothing(s', u, id);
  }

  lemma SleeperPromisesNothing(s: State, u: Tid, id: Id)
    requires u in s.threads && s.threads[u].Deciding?
    ensures Promised(Set(s, u, Asleep(id)).threads, id) <==> exists v :: WillNotify(s.threads, v, id)
  {
    var threads := Set(s, u, Asleep(id)).threads;
    if v :| WillNotify(s.threads, v, id) {
      assert threads[v] == s.threads[v];
    }
    if Promised(threads, id) {
      var v :| v in threads && WillNotify(threads, v, id);
      assert WillNotify(s.threads, v, id);
    }
  }

  /** The size is being fetched by `t` or cached. */
  predicate Kept(s: State, t: Tid, id: Id) {
    && t in s.threads && id in s.sizes
    && (IsSentinel(s.sizes, id) ==> s.threads[t].Fetching? || s.threads[t].Storing?)
    && (IsSentinel(s.sizes, id) ==> s.threads[t].id == id)
    && (!IsSentinel(s.sizes, id) ==> s.threads[t].Notifying? || Over(s.threads, t))
  }

  lemma KeptStep(total: Id -> nat, s: State, a: Action, t: Tid, id: Id)
    requires Inv(total, s) && Kept(s, t, id) && Step(total, s, a).Some? && a != Drop(id) && a != FetchFails(t)
    ensures Kept(Step(total, s, a).value, t, id)
    ensures IsSentinel(s.sizes, id) && !IsSentinel(Step(total, s, a).value.sizes, id) <==>
      IsSentinel(s.sizes, id) && a == Store(t)
    ensures a == Notify(t) ==> !IsSentinel(s.sizes, id)
  {
    hide SizesOk;
    if a.Store? || a.Clear? {
      assert InFlight(s.threads[a.t], s.threads[a.t].id);
      assert Owned(s.threads, s.threads[a.t].id);
      if IsSentinel(s.sizes, id) {
        assert InFlight(s.threads[t], id);
      }
    }
  }

  lemma {:induction false} KeptRun(total: Id -> nat, s: State, run: seq<Action>, t: Tid, v: Tid, id: Id)
    requires Inv(total, s) && KeepsSentinels(total, s, run) && Run(total, s, run).Some?
    requires Kept(s, t, id) && Drop(id) !in run && FetchFails(t) !in run
    ensures !Begins(total, s, run, v, id)
    ensures IsSentinel(s.sizes, id) && Notify(t) in run ==> Store(t) in run
    decreases |run|
  {
    hide Inv, Step, Kept, IsSentinel;
    if run != [] {
      var s' := Step(total, s, run[0]).value;
      assert run[0] in run && run == [run[0]] + run[1..];
      KeptStep(total, s, run[0], t, id);
      KeptIsThere(s, t, id);
      StepKeeps(total, s, run[0]) by {
        if run[0].Drop? {
          SentinelIs(s.sizes, run[0].id);
        }
      }
      KeptRun(total, s', run[1..], t, v, id);
    }
  }

  lemma SentinelIs(sizes: map<Id, int>, id: Id)
    ensures IsSentinel(sizes, id) <==> id in sizes && sizes[id] == OBTAINING
  {
  }

  lemma KeptIsThere(s: State, t: Tid, id: Id)
    requires Kept(s, t, id)
    ensures id in s.sizes
  {
  }

  /** While one caller fetches a size, and succeeds, and the size is not dropped, the wake-up of a second one
      that has seen the sentinel is lost exactly when the first stores the size and notifies between
      the check and the sleep of the second. */
  lemma LostIffStoredBetween(total: Id -> nat, s: State, t: Tid, u: Tid, between: seq<Action>)
    requires Inv(total, s) && t in s.threads && (s.threads[t].Fetching? || s.threads[t].Storing?)
    requires u in s.threads && s.threads[u] == Deciding(s.threads[t].id) && Rests(between, u)
    requires forall v | WillNotify(s.threads, v, s.threads[t].id) :: v == t
    requires KeepsSentinels(total, s, between) && Run(total, s, between).Some?
    requires Drop(s.threads[t].id) !in between && FetchFails(t) !in between
    ensures
      var id, s' := s.threads[t].id, Run(total, s, between).value;
      && Step(total, s', Sleep(u)) == Some(Set(s', u, Asleep(id)))
      && (!Promised(Set(s', u, Asleep(id)).threads, id) <==> Store(t) in between && Notify(t) in between)
  {
    hide Run, Begins, Step, KeepsSentinels, Inv;
    var id := s.threads[t].id;
    OwnersKeepTheirs(total, s, t, id);
    WakeupIsLostIff(total, s, u, between);
    forall v
      ensures !Begins(total, s, between, v, id)
    {
      KeptRun(total, s, between, t, v, id);
    }
    KeptRun(total, s, between, t, t, id);
    assert WillNotify(s.threads, t, id);
    assert (forall v | WillNotify(s.threads, v, id) || Begins(total, s, between, v, id) :: Notify(v) in between)
           <==> Notify(t) in between;
  }

  lemma OwnersKeepTheirs(total: Id -> nat, s: State, t: Tid, id: Id)
    requires Inv(total, s) && t in s.threads && InFlight(s.threads[t], id) && !s.threads[t].Clearing?
    ensures Kept(s, t, id) && IsSentinel(s.sizes, id)
  {
    assert Owned(s.threads, id);
  }

  /** From nothing, two callers suffice: the second sleeps although the size is cached, and nobody is left
      who would wake it. */
  lemma LostFromStart(total: Id -> nat, id: Id)
    ensures
      var run := [Call(0, id), Check(0), Call(1, id), Check(1), Fetch(0), Store(0), Notify(0), Sleep(1)];
      Run(total, INIT, run) ==
      Some(State(map[id := total(id)], map[0 := Returned(id, total(id)), 1 := Asleep(id)], false))
  {
    hide Run, Step;
    var s2 := InFlightFromStart(total, id);
    var s3 := Two(id, OBTAINING, Fetching(id), Checking(id));
    var s4 := Two(id, OBTAINING, Fetching(id), Deciding(id));
    var s5 := Two(id, OBTAINING, Storing(id, total(id)), Deciding(id));
    var s6 := Two(id, total(id), Notifying(id, Some(total(id))), Deciding(id));
    var s7 := Two(id, total(id), Returned(id, total(id)), Deciding(id));
    var s8 := Two(id, total(id), Returned(id, total(id)), Asleep(id));
    CallIs(total, s2, id);
    StepsUntilFetched(total, id);
    StoreStepIs(total, id, total(id));
    NotifyStepIs(total, id, total(id));
    SleepStepIs(total, id, total(id));
    var run := [Call(0, id), Check(0)];
    run := Then(total, run, Call(1, id), s2, s3);
    run := Then(total, run, Check(1), s3, s4);
    run := Then(total, run, Fetch(0), s4, s5);
    run := Then(total, run, Store(0), s5, s6);
    run := Then(total, run, Notify(0), s6, s7);
    run := Then(total, run, Sleep(1), s7, s8);
    assert run == [Call(0, id), Check(0), Call(1, id), Check(1), Fetch(0), Store(0), Notify(0), Sleep(1)];
  }

  function Two(id: Id, size: int, a: Thread, b: Thread): State {
    State(map[id := size], map[0 := a, 1 := b], false)
  }

  lemma CallIs(total: Id -> nat, s: State, id: Id)
    requires s == State(map[id := OBTAINING], map[0 := Fetching(id)], false)
    ensures Step(total, s, Call(1, id)) == Some(Two(id, OBTAINING, Fetching(id), Checking(id)))
  {
    assert s.threads[1 := Checking(id)] == map[0 := Fetching(id), 1 := Checking(id)];
  }

  lemma TwoSet(a: Thread, b: Thread, c: Thread)
    ensures map[0 := a, 1 := b][0 := c] == map[0 := c, 1 := b]
    ensures map[0 := a, 1 := b][1 := c] == map[0 := a, 1 := c]
  {
  }

  lemma StepsUntilFetched(total: Id -> nat, id: Id)
    ensures
      && Step(total, Two(id, OBTAINING, Fetching(id), Checking(id)), Check(1)) ==
         Some(Two(id, OBTAINING, Fetching(id), Deciding(id)))
      && Step(total, Two(id, OBTAINING, Fetching(id), Deciding(id)), Fetch(0)) ==
         Some(Two(id, OBTAINING, Storing(id, total(id)), Deciding(id)))
  {
    TwoSet(Fetching(id), Checking(id), Deciding(id));
    TwoSet(Fetching(id), Deciding(id), Storing(id, total(id)));
  }

  lemma StoreStepIs(total: Id -> nat, id: Id, size: nat)
    ensures Step(total, Two(id, OBTAINING, Storing(id, size), Deciding(id)), Store(0)) ==
            Some(Two(id, size, Notifying(id, Some(size)), Deciding(id)))
  {
    assert map[id := OBTAINING][id := size] == map[id := size];
    TwoSet(Storing(id, size), Deciding(id), Notifying(id, Some(size)));
  }

  lemma NotifyStepIs(total: Id -> nat, id: Id, size: nat)
    ensures Step(total, Two(id, size, Notifying(id, Some(size)), Deciding(id)), Notify(0)) ==
            Some(Two(id, size, Returned(id, size), Deciding(id)))
  {
    assert WakeAll(map[0 := Notifying(id, Some(size)), 1 := Deciding(id)])
           == map[0 := Notifying(id, Some(size)), 1 := Deciding(id)];
    TwoSet(Notifying(id, Some(size)), Deciding(id), Returned(id, size));
  }

  lemma SleepStepIs(total: Id -> nat, id: Id, size: nat)
    ensures Step(total, Two(id, size, Returned(id, size), Deciding(id)), Sleep(1)) ==
            Some(Two(id, size, Returned(id, size), Asleep(id)))
  {
    TwoSet(Returned(id, size), Deciding(id), Asleep(id));
  }

  lemma Then(total: Id -> nat, run: seq<Action>, a: Action, s: State, s': State) returns (longer: seq<Action>)
    requires Run(total, INIT, run) == Some(s) && Step(total, s, a) == Some(s')
    ensures longer == run + [a] && Run(total, INIT, longer) == Some(s')
  {
    hide Run, Step;
    longer := run + [a];
    RunOfConcat(total, INIT, run, [a]);
    RunOfOne(total, s, a);
  }

  // ----- What callers are answered -----

  /** A cached size is returned, and nothing else changes. */
  lemma CachedIsReturned(total: Id -> nat, s: State, t: Tid)
    requires Inv(total, s) && t in s.threads && s.threads[t].Checking?
    requires s.threads[t].id in s.sizes && !IsSentinel(s.sizes, s.threads[t].id)
    ensures Step(total, s, Check(t)) ==
            Some(s.(threads := s.threads[t := Returned(s.threads[t].id, total(s.threads[t].id))]))
  {
  }

  /** A caller is answered for the file that it asked for. */
  lemma {:induction false} CallerKeepsId(total: Id -> nat, s: State, run: seq<Action>, t: Tid)
    requires t in s.threads && Run(total, s, run).Some?
    ensures t in Run(total, s, run).value.threads && Run(total, s, run).value.threads[t].id == s.threads[t].id
    decreases |run|
  {
    if run != [] {
      var s' := Step(total, s, run[0]).value;
      assert t in s'.threads && s'.threads[t].id == s.threads[t].id;
      hide Step;
      CallerKeepsId(total, s', run[1..], t);
    }
  }

  /** The thread is on its way to throwing. */
  predicate Fails(threads: map<Tid, Thread>, t: Tid) {
    t in threads && (threads[t].Clearing? || (threads[t].Notifying? && threads[t].result.None?) || threads[t].Threw?)
  }

  lemma FailsStep(total: Id -> nat, s: State, a: Action, t: Tid)
    requires Step(total, s, a).Some?
    ensures Fails(Step(total, s, a).value.threads, t) <==> Fails(s.threads, t) || a == FetchFails(t)
  {
  }

  lemma {:induction false} FailsIff(total: Id -> nat, s: State, run: seq<Action>, t: Tid)
    requires Run(total, s, run).Some?
    ensures Fails(Run(total, s, run).value.threads, t) <==> Fails(s.threads, t) || FetchFails(t) in run
    decreases |run|
  {
    hide Step, Fails;
    if run != [] {
      FailsStep(total, s, run[0], t);
      FailsIff(total, Step(total, s, run[0]).value, run[1..], t);
      assert run == [run[0]] + run[1..];
    }
  }

  /** A call that has ended threw exactly when its own fetch failed, and else returned the total size. */
  lemma ThrewIffOwnFetchFailed(total: Id -> nat, run: seq<Action>, t: Tid)
    requires KeepsSentinels(total, INIT, run) && Run(total, INIT, run).Some?
    requires Over(Run(total, INIT, run).value.threads, t)
    ensures
      var th := Run(total, INIT, run).value.threads[t];
      && (th.Threw? <==> FetchFails(t) in run)
      && (FetchFails(t) !in run ==> th == Returned(th.id, total(th.id)))
  {
    hide Run, KeepsSentinels, Paired, SizesOk;
    InitIsOk(total);
    RunKeeps(total, INIT, run);
    FailsIff(total, INIT, run, t);
  }

  lemma InitIsOk(total: Id -> nat)
    ensures Inv(total, INIT)
  {
  }

  lemma CachedStep(total: Id -> nat, s: State, a: Action, id: Id)
    requires Inv(total, s) && id in s.sizes && !IsSentinel(s.sizes, id) && a != Drop(id) && Step(total, s, a).Some?
    ensures id in Step(total, s, a).value.sizes && !IsSentinel(Step(total, s, a).value.sizes, id)
  {
    if a.Store? || a.Clear? {
      assert InFlight(s.threads[a.t], s.threads[a.t].id);
      assert Owned(s.threads, s.threads[a.t].id);
    }
  }

  /** A size stays cached until it is dropped. */
  lemma {:induction false} CachedStays(total: Id -> nat, s: State, run: seq<Action>, id: Id)
    requires Inv(total, s) && id in s.sizes && !IsSentinel(s.sizes, id)
    requires Drop(id) !in run && KeepsSentinels(total, s, run) && Run(total, s, run).Some?
    ensures
      var s' := Run(total, s, run).value;
      Inv(total, s') && id in s'.sizes && !IsSentinel(s'.sizes, id)
    decreases |run|
  {
    hide Inv, Step;
    if run != [] {
      assert run[0] in run && run == [run[0]] + run[1..];
      CachedStep(total, s, run[0], id);
      StepKeeps(total, s, run[0]);
      CachedStays(total, Step(total, s, run[0]).value, run[1..], id);
    }
  }

  /** A notification wakes all sleepers, each to check for its own file again, and moves no other thread. */
  lemma NotifyWakesAll(total: Id -> nat, s: State, t: Tid, u: Tid)
    requires Step(total, s, Notify(t)).Some? && u in s.threads && u != t
    ensures
      var s' := Step(total, s, Notify(t)).value;
      && u in s'.threads && s'.sizes == s.sizes
      && s'.threads[u] == if s.threads[u].Asleep? then Checking(s.threads[u].id) else s.threads[u]
  {
  }

  /** Once a size is stored, and until it is dropped, whoever checks for it is answered, sleepers that have been
      notified among them. */
  lemma NotifiedSleeperReturns(total: Id -> nat, s: State, t: Tid, u: Tid, before: seq<Action>, after: seq<Action>)
    requires Inv(total, s) && t in s.threads && s.threads[t].Storing? && Step(total, s, Store(t)).Some?
    requires
      var id, s1 := s.threads[t].id, Step(total, s, Store(t)).value;
      && Drop(id) !in before && KeepsSentinels(total, s1, before) && Run(total, s1, before).Some?
      && var s2 := Run(total, s1, before).value;
         && u in s2.threads && s2.threads[u] == Asleep(id) && Step(total, s2, Notify(t)).Some?
         && var s3 := Step(total, s2, Notify(t)).value;
            && Drop(id) !in after && KeepsSentinels(total, s3, after) && Run(total, s3, after).Some? && Rests(after, u)
    ensures
      var id, s1 := s.threads[t].id, Step(total, s, Store(t)).value;
      var s3 := Step(total, Run(total, s1, before).value, Notify(t)).value;
      var end := Step(total, Run(total, s3, after).value, Check(u));
      end.Some? && end.value.threads[u] == Returned(id, total(id))
  {
    hide Run, KeepsSentinels, Inv, Step, IsSentinel;
    var id := s.threads[t].id;
    StepKeeps(total, s, Store(t));
    StoredIsCached(total, s, t);
    var s1 := Step(total, s, Store(t)).value;
    CachedStays(total, s1, before, id);
    var s2 := Run(total, s1, before).value;
    NotifierIsAnother(total, s2, t, u);
    NotifyWakesAll(total, s2, t, u);
    StepKeeps(total, s2, Notify(t));
    var s3 := Step(total, s2, Notify(t)).value;
    CachedStays(total, s3, after, id);
    RestingStays(total, s3, after, u);
    CachedIsReturned(total, Run(total, s3, after).value, u);
  }

  lemma NotifierIsAnother(total: Id -> nat, s: State, t: Tid, u: Tid)
    requires Step(total, s, Notify(t)).Some? && u in s.threads && s.threads[u].Asleep?
    ensures u != t
  {
  }

  lemma StoredIsCached(total: Id -> nat, s: State, t: Tid)
    requires Inv(total, s) && t in s.threads && s.threads[t].Storing?
    ensures
      var id := s.threads[t].id;
      && Step(total, s, Store(t)).Some?
      && id in Step(total, s, Store(t)).value.sizes && !IsSentinel(Step(total, s, Store(t)).value.sizes, id)
  {
  }
}
