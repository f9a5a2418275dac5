/**
 What holds in every reachable state of the lock protocol: no pointer to a switch is used
 or deleted after its deletion, the registry is consistent, and the threads never deadlock.
 */
module LockSafety {
  import opened Wrappers
  import opened LockProtocol

  // ----- The invariant -----

  /** Every entry points to a live switch with that dpid, and no two switches share a name. */
  ghost predicate Registry(sh: Shared) {
    && (forall d <- sh.switchs :: sh.switchs[d] in sh.live && sh.live[sh.switchs[d]].dpid == d)
    && (forall d, e | d in sh.switchs && e in sh.switchs && sh.live[sh.switchs[d]].name == sh.live[sh.switchs[e]].name :: d == e)
  }

  /** A number names at most one object ever: it is live, deleted, or not yet issued. */
  ghost predicate Objects(sh: Shared) {
    && (forall o <- sh.live :: o < sh.issued && o !in sh.deleted)
    && (forall o <- sh.deleted :: o < sh.issued)
  }

  ghost predicate InMap(sh: Shared, o: Object) {
    o in sh.live && sh.live[o].dpid in sh.switchs && sh.switchs[sh.live[o].dpid] == o
  }

  /** Every live switch is in the map, but for the one a thread is creating or destroying. */
  ghost predicate NoLeak(sh: Shared) {
    forall o <- sh.live :: InMap(sh, o) || (sh.loose.Some? && sh.loose.value.1 == o)
  }

  ghost predicate Sound(sh: Shared) {
    !sh.fault && Registry(sh) && Objects(sh) && NoLeak(sh)
  }

  /** What thread t has established is true. */
  ghost predicate FactsHold(sh: Shared, t: Tid, th: Thread)
    requires Registry(sh)
  {
    var f := th.facts;
    && (f.pointer.Guarded? ==>
          Guards(th.held) && f.pointer.key in sh.switchs && th.pointer == Some(sh.switchs[f.pointer.key]))
    && (Owns(f.pointer) ==>
          && SwMutex in th.held && th.pointer.Some? && sh.loose == Some((t, th.pointer.value))
          && th.pointer.value in sh.live && !InMap(sh, th.pointer.value))
    && (f.pointer.Fresh? ==> sh.live[th.pointer.value] == f.pointer.info)
    && (f.present.Some? ==> SwMutex in th.held && f.present.value in sh.switchs)
    && (f.absent.Some? ==> SwMutex in th.held && f.absent.value !in sh.switchs)
    && (f.clear.Some? ==> SwMutex in th.held && Unused(sh, f.clear.value.upTo, f.clear.value.name))
  }

  /** No switch up to that dpid has the name. */
  ghost predicate Unused(sh: Shared, upTo: int, name: string)
    requires Registry(sh)
  {
    forall d <- sh.switchs | d <= upTo :: sh.live[sh.switchs[d]].name != name
  }

  ghost predicate ThreadOk(sh: Shared, t: Tid, th: Thread)
    requires Registry(sh)
  {
    && Disciplined(th.code, th.held, th.facts)
    && FactsHold(sh, t, th)
    && (SwMutex in th.held && !Owns(th.facts.pointer) ==> sh.loose.None?)
    && forall l <- th.held | Rank(l) < 2 :: th.held[l] == Exclusive
  }

  ghost predicate Apart(a: Thread, b: Thread) {
    forall l | l in a.held && l in b.held :: a.held[l].Sharing? && b.held[l].Sharing?
  }

  ghost predicate Exclusion(threads: seq<Thread>) {
    forall t, u | 0 <= t < |threads| && 0 <= u < |threads| && t != u :: Apart(threads[t], threads[u])
  }

  /** The loose object is in the hands of a thread. */
  ghost predicate Held(s: State) {
    s.shared.loose.Some? ==>
      && s.shared.loose.value.0 < |s.threads|
      && var th := s.threads[s.shared.loose.value.0];
      && Owns(th.facts.pointer) && th.pointer == Some(s.shared.loose.value.1)
  }

  ghost predicate Inv(s: State) {
    && Sound(s.shared) && Exclusion(s.threads) && Held(s)
    && forall t | 0 <= t < |s.threads| :: ThreadOk(s.shared, t, s.threads[t])
  }

  // ----- One step keeps it -----

  lemma InsertSound(sh: Shared, t: Tid, th: Thread)
    requires Sound(sh) && ThreadOk(sh, t, th) && th.code.Insert?
    ensures Sound(NextShared(sh, t, th))
  {
    assert InMap(NextShared(sh, t, th), th.pointer.value);
  }

  lemma EraseSound(sh: Shared, t: Tid, th: Thread)
    requires Sound(sh) && ThreadOk(sh, t, th) && (th.code.Unlink? || th.code.Delete?)
    ensures Sound(NextShared(sh, t, th))
  {
  }

  lemma SharedKept(sh: Shared, t: Tid, th: Thread)
    requires Sound(sh) && ThreadOk(sh, t, th)
    ensures Sound(NextShared(sh, t, th))
  {
    if th.code.Insert? { InsertSound(sh, t, th); }
    else if th.code.Unlink? || th.code.Delete? { EraseSound(sh, t, th); }
  }

  lemma LocksKept(sh: Shared, t: Tid, th: Thread, readable: bool)
    requires Sound(sh) && ThreadOk(sh, t, th)
    requires th.code.Acquire? || th.code.TryRead? || th.code.Release?
    requires th.code.Acquire? && th.code.lock == SwMutex ==> sh.loose.None?
    ensures ThreadOk(sh, t, NextThread(sh, th, readable))
  {
  }

  lemma LookupsKept(sh: Shared, t: Tid, th: Thread, readable: bool)
    requires Sound(sh) && ThreadOk(sh, t, th)
    requires th.code.IfUnder? || th.code.IfPresent? || th.code.Fetch? || th.code.Done?
    ensures ThreadOk(sh, t, NextThread(sh, th, readable))
  {
  }

  /** Going on with the entry found, or with the next dpid. */
  lemma ScanDisciplined(after: int, wanted: Option<string>, same: Code, next: Code, h: Locks, f: Facts)
    requires Disciplined(Scan(after, wanted, same, next), h, f) && after + 1 < DPID_LIMIT
    ensures Disciplined(Compare(after + 1, wanted, same, next), h, Cleared(f, wanted, after).(pointer := Guarded(after + 1)))
    ensures Disciplined(Scan(after + 1, wanted, same, next), h, Cleared(f, wanted, after + 1))
  {
    var hit, miss := Cleared(f, wanted, after).(pointer := Guarded(after + 1)), Cleared(f, wanted, after + 1);
    assert Cleared(hit, wanted, DPID_LIMIT - 1).(pointer := NoPointer) == Cleared(f, wanted, DPID_LIMIT - 1);
    assert hit.(pointer := NoPointer, clear := None) == f.(clear := None);
    assert Cleared(miss, wanted, DPID_LIMIT - 1) == Cleared(f, wanted, DPID_LIMIT - 1);
  }

  lemma ClearedFacts(sh: Shared, t: Tid, th: Thread, wanted: Option<string>, upTo: int, c: Code)
    requires Registry(sh) && FactsHold(sh, t, th) && th.facts.pointer.NoPointer?
    requires wanted.Some? ==> SwMutex in th.held && Unused(sh, upTo, wanted.value)
    ensures FactsHold(sh, t, Thread(c, th.held, th.pointer, Cleared(th.facts, wanted, upTo)))
  {
  }

  lemma HitFacts(sh: Shared, t: Tid, th: Thread, key: Dpid, c: Code)
    requires Registry(sh) && FactsHold(sh, t, th) && th.facts.pointer.NoPointer? && Guards(th.held) && key in sh.switchs
    ensures FactsHold(sh, t, Thread(c, th.held, Some(sh.switchs[key]), th.facts.(pointer := Guarded(key))))
  {
  }

  /** The three ways a scan goes on: to its end, to an entry, past a dpid that is not there. */
  lemma ScanEnd(sh: Shared, t: Tid, th: Thread, wanted: Option<string>, same: Code, next: Code, after: int)
    requires Registry(sh) && ThreadOk(sh, t, th) && th.code == Scan(after, wanted, same, next) && after + 1 >= DPID_LIMIT
    ensures ThreadOk(sh, t, Thread(next, th.held, th.pointer, Cleared(th.facts, wanted, DPID_LIMIT - 1)))
  {
    assert wanted.Some? ==> Unused(sh, after, wanted.value);
    ClearedFacts(sh, t, th, wanted, DPID_LIMIT - 1, next);
  }

  lemma ScanHit(sh: Shared, t: Tid, th: Thread, wanted: Option<string>, same: Code, next: Code, after: int)
    requires Registry(sh) && ThreadOk(sh, t, th) && th.code == Scan(after, wanted, same, next)
    requires after + 1 < DPID_LIMIT && after + 1 in sh.switchs
    ensures ThreadOk(sh, t, Thread(Compare(after + 1, wanted, same, next), th.held, Some(sh.switchs[after + 1]),
                                   Cleared(th.facts, wanted, after).(pointer := Guarded(after + 1))))
  {
    var c := Compare(after + 1, wanted, same, next);
    ScanDisciplined(after, wanted, same, next, th.held, th.facts);
    ClearedFacts(sh, t, th, wanted, after, c);
    HitFacts(sh, t, Thread(c, th.held, th.pointer, Cleared(th.facts, wanted, after)), after + 1, c);
  }

  lemma ScanMiss(sh: Shared, t: Tid, th: Thread, wanted: Option<string>, same: Code, next: Code, after: int)
    requires Registry(sh) && ThreadOk(sh, t, th) && th.code == Scan(after, wanted, same, next)
    requires after + 1 < DPID_LIMIT && after + 1 !in sh.switchs
    ensures ThreadOk(sh, t, Thread(Scan(after + 1, wanted, same, next), th.held, th.pointer,
                                   Cleared(th.facts, wanted, after + 1)))
  {
    ScanDisciplined(after, wanted, same, next, th.held, th.facts);
    assert wanted.Some? ==> Unused(sh, after, wanted.value);
    ClearedFacts(sh, t, th, wanted, after + 1, Scan(after + 1, wanted, same, next));
  }

  lemma ScanKept(sh: Shared, t: Tid, th: Thread, readable: bool)
    requires Registry(sh) && ThreadOk(sh, t, th)
    requires th.code.Scan?
    ensures ThreadOk(sh, t, NextThread(sh, th, readable))
  {
    var Scan(after, wanted, same, next) := th.code;
    if after + 1 >= DPID_LIMIT { ScanEnd(sh, t, th, wanted, same, next, after); }
    else if after + 1 in sh.switchs { ScanHit(sh, t, th, wanted, same, next, after); }
    else { ScanMiss(sh, t, th, wanted, same, next, after); }
  }

  lemma CompareKept(sh: Shared, t: Tid, th: Thread, readable: bool)
    requires Sound(sh) && ThreadOk(sh, t, th)
    requires th.code.Compare?
    ensures ThreadOk(NextShared(sh, t, th), t, NextThread(sh, th, readable))
  {
  }

  lemma WritesKept(sh: Shared, t: Tid, th: Thread, readable: bool)
    requires Sound(sh) && ThreadOk(sh, t, th)
    requires th.code.Use? || th.code.Mark? || th.code.Unmark? || th.code.Allocate? || th.code.Insert?
    ensures Sound(NextShared(sh, t, th))
    ensures ThreadOk(NextShared(sh, t, th), t, NextThread(sh, th, readable))
  {
    SharedKept(sh, t, th);
  }

  lemma ErasureKept(sh: Shared, t: Tid, th: Thread, readable: bool)
    requires Sound(sh) && ThreadOk(sh, t, th)
    requires th.code.Unlink? || th.code.Delete?
    ensures Sound(NextShared(sh, t, th))
    ensures ThreadOk(NextShared(sh, t, th), t, NextThread(sh, th, readable))
  {
    SharedKept(sh, t, th);
  }

  lemma SelfKept(sh: Shared, t: Tid, th: Thread, readable: bool)
    requires Sound(sh) && ThreadOk(sh, t, th)
    requires th.code.Acquire? && th.code.lock == SwMutex ==> sh.loose.None?
    ensures Sound(NextShared(sh, t, th))
    ensures ThreadOk(NextShared(sh, t, th), t, NextThread(sh, th, readable))
  {
    SharedKept(sh, t, th);
    if th.code.Acquire? || th.code.TryRead? || th.code.Release? { LocksKept(sh, t, th, readable); }
    else if th.code.IfUnder? || th.code.IfPresent? || th.code.Fetch? || th.code.Done? { LookupsKept(sh, t, th, readable); }
    else if th.code.Scan? { ScanKept(sh, t, th, readable); }
    else if th.code.Compare? { CompareKept(sh, t, th, readable); }
    else if th.code.Unlink? || th.code.Delete? { ErasureKept(sh, t, th, readable); }
    else { WritesKept(sh, t, th, readable); }
  }

  /** What another thread knows is out of reach of a thread that does not hold its locks. */
  lemma OtherKept(sh: Shared, t: Tid, th: Thread, u: Tid, other: Thread)
    requires t != u && Apart(th, other) && Sound(sh) && ThreadOk(sh, t, th) && ThreadOk(sh, u, other)
    requires Sound(NextShared(sh, t, th))
    ensures ThreadOk(NextShared(sh, t, th), u, other)
  {
    assert SwMutex in th.held ==> SwMutex !in other.held;
    match th.code
    case Insert(d, k) =>
    case Unlink(d, k) => assert SwRwlock !in other.held;
    case Delete(k) =>
    case Allocate(info, k) =>
    case _ =>
  }

  lemma ApartKept(sh: Shared, threads: seq<Thread>, t: Tid, u: Tid)
    requires t < |threads| && u < |threads| && t != u && Apart(threads[t], threads[u])
    requires Enabled(State(threads, sh), t)
    ensures Apart(NextThread(sh, threads[t], CanLock(threads, SwRwlock, Sharing)), threads[u])
  {
    match threads[t].code
    case Acquire(l, m, _) => assert Compatible(threads[u], l, m);
    case TryRead(_, _, _) =>
      if CanLock(threads, SwRwlock, Sharing) { assert Compatible(threads[u], SwRwlock, Sharing); }
    case _ =>
  }

  lemma LooseNeedsMutex(s: State, m: Mode)
    requires Inv(s)
    ensures s.shared.loose.Some? ==> !CanLock(s.threads, SwMutex, m)
  {
    if s.shared.loose.Some? {
      var i := s.shared.loose.value.0;
      assert ThreadOk(s.shared, i, s.threads[i]);
      assert !Compatible(s.threads[i], SwMutex, m);
    }
  }

  lemma StepKeepsInv(s: State, t: Tid)
    requires Inv(s) && t < |s.threads| && Enabled(s, t)
    ensures Inv(Advance(s, t))
  {
    var th, s' := s.threads[t], Advance(s, t);
    var readable := CanLock(s.threads, SwRwlock, Sharing);
    if th.code.Acquire? && th.code.lock == SwMutex { LooseNeedsMutex(s, th.code.mode); }
    SelfKept(s.shared, t, th, readable);
    forall u | 0 <= u < |s.threads| && u != t
      ensures ThreadOk(s'.shared, u, s'.threads[u]) && Apart(s'.threads[t], s'.threads[u])
    {
      OtherKept(s.shared, t, th, u, s.threads[u]);
      ApartKept(s.shared, s.threads, t, u);
    }
    HeldKept(s, t);
  }

  /** A step leaves the loose object, if there is one afterwards, with its thread. */
  lemma LooseKept(sh: Shared, t: Tid, th: Thread, readable: bool)
    requires Disciplined(th.code, th.held, th.facts)
    requires Owns(th.facts.pointer) ==> th.pointer.Some? && th.pointer.value in sh.live
    ensures var th', sh' := NextThread(sh, th, readable), NextShared(sh, t, th);
            sh'.loose.Some? ==>
              if sh'.loose == sh.loose then Owns(th.facts.pointer) ==> Owns(th'.facts.pointer) && th'.pointer == th.pointer
              else Owns(th'.facts.pointer) && sh'.loose == Some((t, th'.pointer.value)) && th'.pointer.Some?
  {
    match th.code
    case Allocate(_, _) =>
    case Insert(_, _) =>
    case Unlink(_, _) =>
    case Delete(_) =>
    case _ =>
  }

  lemma HeldKept(s: State, t: Tid)
    requires Inv(s) && t < |s.threads| && Enabled(s, t)
    ensures Held(Advance(s, t))
  {
    assert ThreadOk(s.shared, t, s.threads[t]);
    LooseKept(s.shared, t, s.threads[t], CanLock(s.threads, SwRwlock, Sharing));
  }

  // ----- Every run -----

  lemma SpawnKeepsInv(s: State, op: Operation)
    requires Inv(s)
    ensures Inv(Apply(s, Spawn(op)))
  {
    ProgramsAreDisciplined(op);
    assert ThreadOk(s.shared, |s.threads|, Thread(Program(op), map[], None, NO_FACTS));
  }

  lemma {:induction false} RunKeepsInv(s: State, run: seq<Action>)
    requires Inv(s) && LegalRun(s, run)
    ensures Inv(After(s, run))
    decreases |run|
  {
    if run != [] {
      match run[0] {
        case Spawn(op) => SpawnKeepsInv(s, op);
        case Step(t) => StepKeepsInv(s, t);
      }
      RunKeepsInv(Apply(s, run[0]), run[1..]);
    }
  }

  /** In every interleaving of any number of operations: no pointer to a switch is used or
      deleted once it is dangling; entries sit under their own dpid and names are unique; a
      switch is never both live and deleted; and a lock held exclusively has one holder. */
  lemma RegistryIsSafe(run: seq<Action>)
    requires LegalRun(INIT, run)
    ensures var s := After(INIT, run);
            !s.shared.fault && Registry(s.shared) && Objects(s.shared) && Exclusion(s.threads)
  {
    RunKeepsInv(INIT, run);
  }

  /** When a thread is about to use the pointer it fetched, the switch is live, is still the
      registered one, has the dpid that was asked for, and no thread is past the erase of it. */
  lemma UsersHaveTheSwitch(run: seq<Action>, t: Tid)
    requires LegalRun(INIT, run) && t < |After(INIT, run).threads| && After(INIT, run).threads[t].code.Use?
    ensures var s := After(INIT, run); var p := s.threads[t].pointer;
            && p.Some? && p.value in s.shared.live && InMap(s.shared, p.value)
            && s.shared.live[p.value].dpid == s.threads[t].code.dpid
            && forall u | 0 <= u < |s.threads| && s.threads[u].code.Delete? :: s.threads[u].pointer != p
  {
    RunKeepsInv(INIT, run);
    var s := After(INIT, run);
    assert ThreadOk(s.shared, t, s.threads[t]);
    forall u | 0 <= u < |s.threads| && s.threads[u].code.Delete?
      ensures s.threads[u].pointer != s.threads[t].pointer
    {
      assert ThreadOk(s.shared, u, s.threads[u]);
    }
  }

  // ----- Deadlock freedom -----

  predicate Waiting(th: Thread) {
    th.code.Acquire? || th.code.TryRead?
  }

  function WantedRank(th: Thread): nat
    requires Waiting(th)
  {
    if th.code.Acquire? then Rank(th.code.lock) else Rank(SwRwlock)
  }

  /** From a waiting thread, follow the holders of the wanted locks: ranks grow, so the chain
      ends at a thread that can step. */
  lemma {:induction false} FollowHolders(s: State, t: Tid) returns (u: Tid)
    requires Inv(s) && t < |s.threads| && s.threads[t].code != Done
    ensures u < |s.threads| && Enabled(s, u)
    decreases 3 - if Waiting(s.threads[t]) then WantedRank(s.threads[t]) else 3
  {
    u := t;
    if !Enabled(s, t) {
      var th := s.threads[t];
      var l, m := if th.code.Acquire? then th.code.lock else SwRwlock, if th.code.Acquire? then th.code.mode else Sharing;
      assert !CanLock(s.threads, l, m);
      var i :| 0 <= i < |s.threads| && !Compatible(s.threads[i], l, m);
      assert ThreadOk(s.shared, i, s.threads[i]);
      assert l in s.threads[i].held;
      u := FollowHolders(s, i);
    }
  }

  /** No reachable state is a deadlock: while some operation is unfinished, some thread can
      take a step that changes the state. Spinning does not count as a step. */
  lemma DeadlockFree(run: seq<Action>, t: Tid)
    requires LegalRun(INIT, run) && t < |After(INIT, run).threads| && After(INIT, run).threads[t].code != Done
    ensures var s := After(INIT, run);
            exists u :: 0 <= u < |s.threads| && Enabled(s, u)
  {
    RunKeepsInv(INIT, run);
    var u := FollowHolders(After(INIT, run), t);
  }

  // ----- Operations finish -----

  /** An upper bound on the steps a program still takes. */
  function Weight(c: Code): nat {
    match c
    case Done => 0
    case Acquire(_, _, k) => 1 + Weight(k)
    case TryRead(_, a, b) => 1 + Weight(a) + Weight(b)
    case Release(_, k) => 1 + Weight(k)
    case IfUnder(_, a, b) => 1 + Weight(a) + Weight(b)
    case IfPresent(_, a, b) => 1 + Weight(a) + Weight(b)
    case Fetch(_, a, b) => 1 + Weight(a) + Weight(b)
    case Use(_, k) => 1 + Weight(k)
    case Scan(after, _, a, b) => 1 + Remaining(after) + Weight(a) + Weight(b)
    case Compare(key, _, a, b) => 2 + Remaining(key) + Weight(a) + Weight(b)
    case Allocate(_, k) => 1 + Weight(k)
    case Insert(_, k) => 1 + Weight(k)
    case Mark(_, k) => 1 + Weight(k)
    case Unmark(k) => 1 + Weight(k)
    case Unlink(_, k) => 1 + Weight(k)
    case Delete(k) => 1 + Weight(k)
  }

  function Remaining(after: int): nat {
    if after < DPID_LIMIT then 2 * (DPID_LIMIT - after) else 0
  }

  function TotalWeight(threads: seq<Thread>): nat {
    if threads == [] then 0 else Weight(threads[0].code) + TotalWeight(threads[1..])
  }

  lemma {:induction false} ReplaceWeight(threads: seq<Thread>, t: Tid, th: Thread)
    requires t < |threads|
    ensures TotalWeight(threads[t := th]) == TotalWeight(threads) - Weight(threads[t].code) + Weight(th.code)
  {
    if t == 0 {
      assert threads[t := th][1..] == threads[1..];
    } else {
      assert threads[t := th][1..] == threads[1..][t - 1 := th];
      ReplaceWeight(threads[1..], t - 1, th);
    }
  }

  lemma StepShrinks(s: State, t: Tid)
    requires t < |s.threads| && Enabled(s, t)
    ensures TotalWeight(Advance(s, t).threads) < TotalWeight(s.threads)
  {
    var th := NextThread(s.shared, s.threads[t], CanLock(s.threads, SwRwlock, Sharing));
    assert Weight(th.code) < Weight(s.threads[t].code);
    ReplaceWeight(s.threads, t, th);
  }

  ghost predicate AllDone(s: State) {
    forall th <- s.threads :: th.code == Done
  }

  ghost predicate AllSteps(run: seq<Action>) {
    forall a <- run :: a.Step?
  }

  /** However the pending operations are scheduled, they take at most `TotalWeight` steps. */
  lemma {:induction false} SchedulesAreBounded(s: State, run: seq<Action>)
    requires LegalRun(s, run) && AllSteps(run)
    ensures |run| + TotalWeight(After(s, run).threads) <= TotalWeight(s.threads)
    decreases |run|
  {
    if run != [] {
      assert run[0] in run;
      StepShrinks(s, run[0].tid);
      SchedulesAreBounded(Apply(s, run[0]), run[1..]);
    }
  }

  lemma SomeoneCanStep(s: State) returns (u: Tid)
    requires Inv(s) && !AllDone(s)
    ensures u < |s.threads| && Enabled(s, u)
  {
    var t :| 0 <= t < |s.threads| && s.threads[t].code != Done;
    u := FollowHolders(s, t);
  }

  /** Stepping any enabled thread, again and again, reaches the end of every operation. */
  lemma {:induction false} Drain(s: State) returns (run: seq<Action>)
    requires Inv(s)
    ensures LegalRun(s, run) && AllSteps(run) && AllDone(After(s, run))
    decreases TotalWeight(s.threads)
  {
    if AllDone(s) {
      run := [];
    } else {
      var u := SomeoneCanStep(s);
      StepKeepsInv(s, u);
      StepShrinks(s, u);
      var s' := Advance(s, u);
      var rest := Drain(s');
      run := [Step(u)] + rest;
      assert run[0] == Step(u) && run[1..] == rest && Apply(s, run[0]) == s';
    }
  }

  /** From every reachable state the pending operations can all be brought to their end. */
  lemma OperationsCanFinish(run: seq<Action>)
    requires LegalRun(INIT, run)
    ensures exists more ::
              LegalRun(After(INIT, run), more) && AllSteps(more) && AllDone(After(After(INIT, run), more))
  {
    RunKeepsInv(INIT, run);
    var more := Drain(After(INIT, run));
  }

  /** When all operations have ended, every lock is free and exactly the switches in the map are
      live: nothing leaked. */
  lemma QuietMeansClean(run: seq<Action>)
    requires LegalRun(INIT, run) && AllDone(After(INIT, run))
    ensures var s := After(INIT, run);
            && (forall th <- s.threads :: th.held == map[])
            && (forall o :: o in s.shared.live <==> o in s.shared.switchs.Values)
  {
    RunKeepsInv(INIT, run);
    var s := After(INIT, run);
    forall th <- s.threads ensures th.held == map[] && th.facts == NO_FACTS {
      var t :| 0 <= t < |s.threads| && s.threads[t] == th;
      assert ThreadOk(s.shared, t, th);
    }
    forall o ensures o in s.shared.live <==> o in s.shared.switchs.Values {
      if o in s.shared.live { assert InMap(s.shared, o); }
    }
  }
}
