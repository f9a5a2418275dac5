/**
 The switch registry under concurrency: management threads and driver threads run the
 operations of switch_manager and port_manager against one map of switches, four locks
 and the "dpid under destruction" flag.

 An operation is a tree of atomic steps (`Code`); a branch of the source is a branch of
 the tree. Any number of threads run such trees, one step at a time, in any order. What
 the outside world decides (driver results, callbacks made by the driver, the ports of a
 switch) is a parameter of the operation, so a statement over all operations covers it.
 */
module LockProtocol {
  import opened Wrappers

  const DPID_LIMIT: nat := 0x1_0000_0000_0000_0000
  type Dpid = d: nat | d < DPID_LIMIT
  type Tid = nat
  type Object = nat

  // ----- Locks -----

  datatype Lock = SwMutex | PmMutex | SwRwlock | VlinkRwlock
  datatype Mode = Exclusive | Sharing
  type Locks = map<Lock, Mode>

  /** The acquisition order. The two reader/writer locks are never nested. */
  function Rank(l: Lock): nat {
    match l
    case SwMutex => 0
    case PmMutex => 1
    case SwRwlock => 2
    case VlinkRwlock => 2
  }

  /** The state of an operation holding at most the two mutexes. */
  predicate OnlyMutexes(h: Locks) {
    forall l <- h :: Rank(l) < 2
  }

  // ----- Programs -----

  datatype Code =
    | Done
    | Acquire(lock: Lock, mode: Mode, next: Code)
    | TryRead(dpid: Dpid, locked: Code, gaveUp: Code)  // spin on tryrdlock, watching the flag
    | Release(lock: Lock, next: Code)
    | IfUnder(dpid: Dpid, yes: Code, no: Code)         // dpid == dpid_under_destruction
    | IfPresent(dpid: Dpid, yes: Code, no: Code)       // switchs.find(dpid)
    | Fetch(dpid: Dpid, hit: Code, miss: Code)         // find, and keep the pointer
    | Use(dpid: Dpid, next: Code)                      // dereference the pointer kept, for that dpid
    | Scan(after: int, wanted: Option<string>, same: Code, next: Code)   // iterate the map
    | Compare(key: Dpid, wanted: Option<string>, same: Code, next: Code) // it->second->dpname
    | Allocate(info: SwitchInfo, next: Code)
    | Insert(dpid: Dpid, next: Code)
    | Mark(dpid: Dpid, next: Code)
    | Unmark(next: Code)
    | Unlink(dpid: Dpid, next: Code)                   // dp = switchs[dpid]; switchs.erase(dpid)
    | Delete(next: Code)

  datatype SwitchInfo = SwitchInfo(dpid: Dpid, name: string)

  /** All five notification entry points have this shape; `k` is what the caller does next. */
  function Notify(d: Dpid, k: Code): Code {
    IfUnder(d, k,
            TryRead(d,
                    Fetch(d, Use(d, Release(SwRwlock, k)), Release(SwRwlock, k)),
                    k))
  }

  /** A call from the driver into the control and management module. */
  datatype Callback =
    | PortChanged(attachedTo: Option<Dpid>)
    | PortDeleted(isVlink: bool, attachedTo: Option<Dpid>)
    | PacketIn(dpid: Dpid)
    | FlowRemoved(dpid: Dpid)

  function NotifyAttached(d: Option<Dpid>, k: Code): Code {
    if d.Some? then Notify(d.value, k) else k
  }

  function RunCallback(cb: Callback, k: Code): Code {
    match cb
    case PortChanged(d) => NotifyAttached(d, k)
    case PortDeleted(isVlink, d) =>
      var rest := NotifyAttached(d, k);
      if isVlink then Acquire(VlinkRwlock, Exclusive, Release(VlinkRwlock, rest)) else rest
    case PacketIn(d) => Notify(d, k)
    case FlowRemoved(d) => Notify(d, k)
  }

  /** The callbacks a driver makes, in the calling thread, before it returns. */
  function RunCallbacks(cbs: seq<Callback>, k: Code): Code {
    if cbs == [] then k else RunCallback(cbs[0], RunCallbacks(cbs[1..], k))
  }

  /** switch_manager::exists, with the two ways its caller goes on. */
  function Exists(d: Dpid, yes: Code, no: Code): Code {
    Acquire(SwRwlock, Sharing, IfPresent(d, Release(SwRwlock, yes), Release(SwRwlock, no)))
  }

  /** What the driver answers during one detach_port_from_switch. */
  datatype Detachment = Detachment(
    portFound: bool, attachedHere: bool, driverOk: bool, callbacks: seq<Callback>, stillExists: bool)

  function DetachPort(d: Dpid, det: Detachment, ok: Code, failed: Code): Code {
    Acquire(PmMutex, Exclusive,
            if !det.portFound || !det.attachedHere then
              Release(PmMutex, failed)
            else
              RunCallbacks(det.callbacks,
                           if !det.driverOk then Release(PmMutex, failed)
                           else if det.stillExists then Notify(d, Release(PmMutex, ok))
                           else Release(PmMutex, ok)))
  }

  function DetachAll(d: Dpid, ports: seq<Detachment>, ok: Code, failed: Code): Code {
    if ports == [] then ok else DetachPort(d, ports[0], DetachAll(d, ports[1..], ok, failed), failed)
  }

  datatype Operation =
    | CreateSwitch(info: SwitchInfo, supported: bool, callbacks: seq<Callback>)
    | DestroySwitch(dpid: Dpid, snapshotOk: bool, ports: seq<Detachment>, callbacks: seq<Callback>)
    | ReconfigureSwitch(dpid: Dpid)       // reconfigure_pirl, rpc_connect_to_ctl, rpc_disconnect_from_ctl
    | QuerySwitch(dpid: Dpid)             // get_switch_table_flows, get_switch_group_mods
    | SwitchExists(dpid: Dpid)            // exists, get_switch_info
    | FindByName                          // exists_by_name, get_switch_dpid
    | AttachPort(dpid: Dpid, portFound: bool, driverOk: bool, callbacks: seq<Callback>)
    | DetachOnePort(dpid: Dpid, port: Detachment)
    | ConnectSwitches(dpid1: Dpid, dpid2: Dpid, driverOk: bool, callbacks: seq<Callback>)
    | VlinkPair                           // get_vlink_pair
    | PortAdmin(portFound: bool, callbacks: seq<Callback>)   // bring_up, bring_down, whitelist
    | Driver(callbacks: seq<Callback>)    // notifications from a thread of the driver

  function Program(op: Operation): Code {
    match op
    case CreateSwitch(info, supported, cbs) =>
      var quit := Release(SwMutex, Done);
      Acquire(SwMutex, Exclusive,
              IfPresent(info.dpid, quit,
                        Scan(-1, Some(info.name), quit,
                             if !supported then quit
                             else RunCallbacks(cbs, Allocate(info, Insert(info.dpid, quit))))))
    case DestroySwitch(d, snapshotOk, ports, cbs) =>
      var quit := Release(SwMutex, Done);
      var finish := Delete(RunCallbacks(cbs, Unmark(quit)));
      Acquire(SwMutex, Exclusive,
              IfPresent(d,
                        if !snapshotOk then quit
                        else Mark(d, DetachAll(d, ports,
                                               Acquire(SwRwlock, Exclusive, Unlink(d, Release(SwRwlock, finish))),
                                               quit)),
                        quit))
    case ReconfigureSwitch(d) =>
      var quit := Release(SwRwlock, Done);
      Acquire(SwRwlock, Exclusive, Fetch(d, Use(d, quit), quit))
    case QuerySwitch(d) =>
      var quit := Release(SwRwlock, Done);
      Acquire(SwRwlock, Sharing, Fetch(d, Use(d, quit), quit))
    case SwitchExists(d) =>
      Exists(d, Done, Done)
    case FindByName =>
      var quit := Release(SwRwlock, Done);
      Acquire(SwRwlock, Sharing, Scan(-1, None, quit, quit))
    case AttachPort(d, portFound, driverOk, cbs) =>
      var quit := Release(PmMutex, Done);
      Acquire(PmMutex, Exclusive,
              if !portFound then quit
              else Exists(d, RunCallbacks(cbs, if driverOk then Notify(d, quit) else quit), quit))
    case DetachOnePort(d, port) =>
      DetachPort(d, port, Done, Done)
    case ConnectSwitches(d1, d2, driverOk, cbs) =>
      var quit := Release(PmMutex, Done);
      var addVlink := Acquire(VlinkRwlock, Exclusive, Release(VlinkRwlock, quit));
      var connect := RunCallbacks(cbs, if driverOk then addVlink else quit);
      Acquire(PmMutex, Exclusive, Exists(d1, Exists(d2, connect, quit), quit))
    case VlinkPair =>
      Acquire(VlinkRwlock, Sharing, Release(VlinkRwlock, Done))
    case PortAdmin(portFound, cbs) =>
      var quit := Release(PmMutex, Done);
      Acquire(PmMutex, Exclusive, if portFound then RunCallbacks(cbs, quit) else quit)
    case Driver(cbs) =>
      RunCallbacks(cbs, Done)
  }

  // ----- The transition system -----

  /** What a thread knows about the pointer it keeps. */
  datatype Pointer =
    | NoPointer
    | Guarded(key: Dpid)       // the map still holds it under this key
    | Fresh(info: SwitchInfo)  // allocated, not yet in the map
    | Unlinked                 // erased from the map, not yet deleted

  datatype Clear = Clear(upTo: int, name: string)

  /** Facts a thread has established and that no other thread can undo. They guide no step:
      they are auxiliary state for the proof. */
  datatype Facts = Facts(pointer: Pointer, present: Option<Dpid>, absent: Option<Dpid>, clear: Option<Clear>)

  const NO_FACTS := Facts(NoPointer, None, None, None)

  datatype Thread = Thread(code: Code, held: Locks, pointer: Option<Object>, facts: Facts)

  /** Everything but the threads. */
  datatype Shared = Shared(
    switchs: map<Dpid, Object>,
    live: map<Object, SwitchInfo>,    // objects created and not deleted
    deleted: set<Object>,
    issued: nat,                      // objects are numbered in order of creation
    under: Dpid,                      // dpid_under_destruction
    fault: bool,                      // a dead or null pointer was used or deleted
    loose: Option<(Tid, Object)>)     // auxiliary: the live object that is not in the map

  datatype State = State(threads: seq<Thread>, shared: Shared)

  const INIT := State([], Shared(map[], map[], {}, 0, 0, false, None))

  predicate Compatible(th: Thread, l: Lock, m: Mode) {
    l in th.held ==> m.Sharing? && th.held[l].Sharing?
  }

  /** Whether the lock can be taken now; a thread also waits for itself. */
  predicate CanLock(threads: seq<Thread>, l: Lock, m: Mode) {
    forall th <- threads :: Compatible(th, l, m)
  }

  /** Whether a step of thread t changes anything: a blocked or spinning thread waits. */
  predicate Enabled(s: State, t: Tid)
    requires t < |s.threads|
  {
    match s.threads[t].code
    case Done => false
    case Acquire(l, m, _) => CanLock(s.threads, l, m)
    case TryRead(d, _, _) => CanLock(s.threads, SwRwlock, Sharing) || d == s.shared.under
    case _ => true
  }

  predicate Dangling(sh: Shared, p: Option<Object>) {
    p.None? || p.value !in sh.live
  }

  function AfterRelease(f: Facts, l: Lock): Facts {
    if l == SwMutex then NO_FACTS
    else if l == SwRwlock && f.pointer.Guarded? then f.(pointer := NoPointer)
    else f
  }

  /** The thread after its next step; `readable` says whether tryrdlock succeeds. */
  function NextThread(sh: Shared, th: Thread, readable: bool): Thread {
    match th.code
    case Done => th
    case Acquire(l, m, k) => th.(code := k, held := th.held[l := m])
    case TryRead(d, locked, gaveUp) =>
      if readable then th.(code := locked, held := th.held[SwRwlock := Sharing]) else th.(code := gaveUp)
    case Release(l, k) => th.(code := k, held := th.held - {l}, facts := AfterRelease(th.facts, l))
    case IfUnder(d, yes, no) => th.(code := if d == sh.under then yes else no)
    case IfPresent(d, yes, no) =>
      th.(code := if d in sh.switchs then yes else no, facts := Know(th.held, th.facts, d, d in sh.switchs))
    case Fetch(d, hit, miss) =>
      if d in sh.switchs then
        th.(code := hit, pointer := Some(sh.switchs[d]), facts := th.facts.(pointer := Guarded(d)))
      else
        th.(code := miss, pointer := None, facts := th.facts.(pointer := NoPointer))
    case Use(_, k) => th.(code := k)
    case Scan(after, wanted, same, next) =>
      if after + 1 >= DPID_LIMIT then
        th.(code := next, facts := Cleared(th.facts, wanted, DPID_LIMIT - 1))
      else if after >= -1 && after + 1 in sh.switchs then
        th.(code := Compare(after + 1, wanted, same, next),
            pointer := Some(sh.switchs[after + 1]),
            facts := Cleared(th.facts, wanted, after).(pointer := Guarded(after + 1)))
      else
        th.(code := Scan(after + 1, wanted, same, next), facts := Cleared(th.facts, wanted, after + 1))
    case Compare(key, wanted, same, next) =>
      if !Dangling(sh, th.pointer) && wanted == Some(sh.live[th.pointer.value].name) then
        th.(code := same, facts := th.facts.(pointer := NoPointer, clear := None))
      else
        th.(code := Scan(key, wanted, same, next),
            facts := Cleared(th.facts, wanted, key).(pointer := NoPointer))
    case Allocate(info, k) =>
      th.(code := k, pointer := Some(sh.issued), facts := th.facts.(pointer := Fresh(info)))
    case Insert(d, k) => th.(code := k, facts := NO_FACTS)
    case Mark(d, k) => th.(code := k)
    case Unmark(k) => th.(code := k)
    case Unlink(d, k) =>
      th.(code := k, pointer := if d in sh.switchs then Some(sh.switchs[d]) else None,
          facts := NO_FACTS.(pointer := Unlinked))
    case Delete(k) => th.(code := k, facts := th.facts.(pointer := NoPointer))
  }

  /** The shared state after the next step of thread t. */
  function NextShared(sh: Shared, t: Tid, th: Thread): Shared {
    match th.code
    case Use(_, _) => sh.(fault := sh.fault || Dangling(sh, th.pointer))
    case Compare(_, _, _, _) => sh.(fault := sh.fault || Dangling(sh, th.pointer))
    case Allocate(info, _) =>
      sh.(live := sh.live[sh.issued := info], issued := sh.issued + 1, loose := Some((t, sh.issued)))
    case Insert(d, _) =>
      if th.pointer.None? then sh.(fault := true)
      else sh.(switchs := sh.switchs[d := th.pointer.value], loose := None)
    case Mark(d, _) => sh.(under := d)
    case Unmark(_) => sh.(under := 0)
    case Unlink(d, _) =>
      if d !in sh.switchs then sh.(fault := true)
      else sh.(switchs := sh.switchs - {d}, loose := Some((t, sh.switchs[d])))
    case Delete(_) =>
      if Dangling(sh, th.pointer) then sh.(fault := true)
      else sh.(live := sh.live - {th.pointer.value}, deleted := sh.deleted + {th.pointer.value}, loose := None)
    case _ => sh
  }

  function Advance(s: State, t: Tid): State
    requires t < |s.threads| && Enabled(s, t)
  {
    var readable := CanLock(s.threads, SwRwlock, Sharing);
    State(s.threads[t := NextThread(s.shared, s.threads[t], readable)], NextShared(s.shared, t, s.threads[t]))
  }

  /** The result of a find is worth remembering only under the mutex that serializes changes. */
  function Know(h: Locks, f: Facts, d: Dpid, found: bool): Facts {
    if SwMutex !in h then f
    else if found then f.(present := Some(d), absent := None)
    else f.(absent := Some(d), present := None)
  }

  function Cleared(f: Facts, wanted: Option<string>, upTo: int): Facts {
    if wanted.Some? then f.(clear := Some(Clear(upTo, wanted.value))) else f
  }

  datatype Action = Spawn(op: Operation) | Step(tid: Tid)

  predicate Legal(s: State, a: Action) {
    a.Step? ==> a.tid < |s.threads| && Enabled(s, a.tid)
  }

  function Apply(s: State, a: Action): State
    requires Legal(s, a)
  {
    match a
    case Spawn(op) => s.(threads := s.threads + [Thread(Program(op), map[], None, NO_FACTS)])
    case Step(t) => Advance(s, t)
  }

  /** A run: operations start at any time, and threads interleave in any order. */
  predicate LegalRun(s: State, run: seq<Action>)
    decreases |run|
  {
    run == [] || (Legal(s, run[0]) && LegalRun(Apply(s, run[0]), run[1..]))
  }

  function After(s: State, run: seq<Action>): State
    requires LegalRun(s, run)
    decreases |run|
  {
    if run == [] then s else After(Apply(s, run[0]), run[1..])
  }

  // ----- The lock discipline of a program -----

  predicate Guards(h: Locks) {
    SwMutex in h || SwRwlock in h
  }

  predicate Owns(p: Pointer) {
    p.Fresh? || p.Unlinked?
  }

  /** Code that, started with these locks and facts, takes locks in rank order, gives all of
      them back, uses a pointer only under a lock that keeps it in the map, inserts only under
      an unused dpid and name, and deletes only what it has itself unlinked. */
  ghost predicate Disciplined(c: Code, h: Locks, f: Facts)
    decreases c
  {
    match c
    case Done => h == map[] && f == NO_FACTS
    case Acquire(l, m, k) =>
      (forall x <- h :: Rank(x) < Rank(l)) && (Rank(l) < 2 ==> m == Exclusive) && Disciplined(k, h[l := m], f)
    case TryRead(d, locked, gaveUp) =>
      OnlyMutexes(h) && Disciplined(locked, h[SwRwlock := Sharing], f) && Disciplined(gaveUp, h, f)
    case Release(l, k) =>
      l in h && (l == SwMutex ==> !Owns(f.pointer)) && Disciplined(k, h - {l}, AfterRelease(f, l))
    case IfUnder(d, yes, no) =>
      Disciplined(yes, h, f) && Disciplined(no, h, f)
    case IfPresent(d, yes, no) =>
      Disciplined(yes, h, Know(h, f, d, true)) && Disciplined(no, h, Know(h, f, d, false))
    case Fetch(d, hit, miss) =>
      Guards(h) && !Owns(f.pointer)
      && Disciplined(hit, h, f.(pointer := Guarded(d))) && Disciplined(miss, h, f.(pointer := NoPointer))
    case Use(d, k) =>
      f.pointer == Guarded(d) && Disciplined(k, h, f)
    case Scan(after, wanted, same, next) =>
      Guards(h) && f.pointer.NoPointer? && -1 <= after
      && (wanted.Some? ==> SwMutex in h && (after == -1 || f.clear == Some(Clear(after, wanted.value))))
      && Disciplined(same, h, f.(clear := None)) && Disciplined(next, h, Cleared(f, wanted, DPID_LIMIT - 1))
    case Compare(key, wanted, same, next) =>
      f.pointer == Guarded(key)
      && (wanted.Some? ==> SwMutex in h && f.clear == Some(Clear(key - 1, wanted.value)))
      && Disciplined(same, h, f.(pointer := NoPointer, clear := None))
      && Disciplined(next, h, Cleared(f, wanted, DPID_LIMIT - 1).(pointer := NoPointer))
    case Allocate(info, k) =>
      SwMutex in h && f.pointer.NoPointer? && Disciplined(k, h, f.(pointer := Fresh(info)))
    case Insert(d, k) =>
      SwMutex in h && f.pointer.Fresh? && f.pointer.info.dpid == d && f.absent == Some(d)
      && f.clear == Some(Clear(DPID_LIMIT - 1, f.pointer.info.name))
      && Disciplined(k, h, NO_FACTS)
    case Mark(d, k) => SwMutex in h && Disciplined(k, h, f)
    case Unmark(k) => SwMutex in h && Disciplined(k, h, f)
    case Unlink(d, k) =>
      SwMutex in h && SwRwlock in h && h[SwRwlock] == Exclusive && f.pointer.NoPointer? && f.present == Some(d)
      && Disciplined(k, h, NO_FACTS.(pointer := Unlinked))
    case Delete(k) =>
      f.pointer.Unlinked? && Disciplined(k, h, f.(pointer := NoPointer))
  }

  // ----- Every operation of the source is disciplined -----

  lemma NotifyDisciplined(d: Dpid, k: Code, h: Locks, f: Facts)
    requires OnlyMutexes(h) && f.pointer.NoPointer? && Disciplined(k, h, f)
    ensures Disciplined(Notify(d, k), h, f)
  {
    var h' := h[SwRwlock := Sharing];
    assert h' - {SwRwlock} == h;
    assert AfterRelease(f.(pointer := Guarded(d)), SwRwlock) == f;
    assert Disciplined(Release(SwRwlock, k), h', f.(pointer := Guarded(d)));
    assert Disciplined(Release(SwRwlock, k), h', f.(pointer := NoPointer));
    assert Disciplined(Use(d, Release(SwRwlock, k)), h', f.(pointer := Guarded(d)));
    assert Disciplined(Fetch(d, Use(d, Release(SwRwlock, k)), Release(SwRwlock, k)), h', f);
  }

  lemma CallbackDisciplined(cb: Callback, k: Code, h: Locks, f: Facts)
    requires OnlyMutexes(h) && f.pointer.NoPointer? && Disciplined(k, h, f)
    ensures Disciplined(RunCallback(cb, k), h, f)
  {
    match cb
    case PortChanged(d) => if d.Some? { NotifyDisciplined(d.value, k, h, f); }
    case PortDeleted(isVlink, d) =>
      if d.Some? { NotifyDisciplined(d.value, k, h, f); }
      var rest := NotifyAttached(d, k);
      assert h[VlinkRwlock := Exclusive] - {VlinkRwlock} == h;
      assert Disciplined(Release(VlinkRwlock, rest), h[VlinkRwlock := Exclusive], f);
    case PacketIn(d) => NotifyDisciplined(d, k, h, f);
    case FlowRemoved(d) => NotifyDisciplined(d, k, h, f);
  }

  /** Callbacks are safe in any thread that holds at most the two mutexes: in particular those
      the driver makes from inside destroy_switch. */
  lemma {:induction false} CallbacksDisciplined(cbs: seq<Callback>, k: Code, h: Locks, f: Facts)
    requires OnlyMutexes(h) && f.pointer.NoPointer? && Disciplined(k, h, f)
    ensures Disciplined(RunCallbacks(cbs, k), h, f)
  {
    if cbs != [] {
      CallbacksDisciplined(cbs[1..], k, h, f);
      CallbackDisciplined(cbs[0], RunCallbacks(cbs[1..], k), h, f);
    }
  }

  lemma ExistsDisciplined(d: Dpid, yes: Code, no: Code, h: Locks)
    requires OnlyMutexes(h) && SwMutex !in h && Disciplined(yes, h, NO_FACTS) && Disciplined(no, h, NO_FACTS)
    ensures Disciplined(Exists(d, yes, no), h, NO_FACTS)
  {
    var h' := h[SwRwlock := Sharing];
    assert h' - {SwRwlock} == h;
    assert Disciplined(Release(SwRwlock, yes), h', NO_FACTS) && Disciplined(Release(SwRwlock, no), h', NO_FACTS);
    assert Disciplined(IfPresent(d, Release(SwRwlock, yes), Release(SwRwlock, no)), h', NO_FACTS);
  }

  lemma DetachDisciplined(d: Dpid, det: Detachment, ok: Code, failed: Code, h: Locks, f: Facts)
    requires OnlyMutexes(h) && PmMutex !in h && f.pointer.NoPointer?
    requires Disciplined(ok, h, f) && Disciplined(failed, h, f)
    ensures Disciplined(DetachPort(d, det, ok, failed), h, f)
  {
    var h' := h[PmMutex := Exclusive];
    assert h' - {PmMutex} == h;
    assert Disciplined(Release(PmMutex, failed), h', f) && Disciplined(Release(PmMutex, ok), h', f);
    NotifyDisciplined(d, Release(PmMutex, ok), h', f);
    var rest := if !det.driverOk then Release(PmMutex, failed)
                else if det.stillExists then Notify(d, Release(PmMutex, ok))
                else Release(PmMutex, ok);
    CallbacksDisciplined(det.callbacks, rest, h', f);
    forall l <- h ensures Rank(l) < Rank(PmMutex) {
      if l != SwMutex { assert Rank(l) < 2; }
    }
  }

  lemma {:induction false} DetachAllDisciplined(d: Dpid, ports: seq<Detachment>, ok: Code, failed: Code, h: Locks, f: Facts)
    requires OnlyMutexes(h) && PmMutex !in h && f.pointer.NoPointer?
    requires Disciplined(ok, h, f) && Disciplined(failed, h, f)
    ensures Disciplined(DetachAll(d, ports, ok, failed), h, f)
  {
    if ports != [] {
      DetachAllDisciplined(d, ports[1..], ok, failed, h, f);
      DetachDisciplined(d, ports[0], DetachAll(d, ports[1..], ok, failed), failed, h, f);
    }
  }

  lemma QuitDisciplined(f: Facts)
    requires !Owns(f.pointer)
    ensures Disciplined(Release(SwMutex, Done), map[SwMutex := Exclusive], f)
  {
    assert map[SwMutex := Exclusive] - {SwMutex} == map[];
  }

  lemma CreateDisciplined(info: SwitchInfo, supported: bool, cbs: seq<Callback>)
    ensures Disciplined(Program(CreateSwitch(info, supported, cbs)), map[], NO_FACTS)
  {
    var h: Locks := map[SwMutex := Exclusive];
    var quit := Release(SwMutex, Done);
    var f := NO_FACTS.(absent := Some(info.dpid));
    var f' := f.(clear := Some(Clear(DPID_LIMIT - 1, info.name)));
    QuitDisciplined(NO_FACTS);
    QuitDisciplined(NO_FACTS.(present := Some(info.dpid)));
    QuitDisciplined(f);
    QuitDisciplined(f');
    var add := Allocate(info, Insert(info.dpid, quit));
    assert Disciplined(Insert(info.dpid, quit), h, f'.(pointer := Fresh(info)));
    assert Disciplined(add, h, f');
    CallbacksDisciplined(cbs, add, h, f');
    var rest := if !supported then quit else RunCallbacks(cbs, add);
    assert Disciplined(Scan(-1, Some(info.name), quit, rest), h, f);
    assert Disciplined(IfPresent(info.dpid, quit, Scan(-1, Some(info.name), quit, rest)), h, NO_FACTS);
    assert map[][SwMutex := Exclusive] == h;
  }

  /** From the write lock to the end of destroy_switch. */
  lemma EraseDisciplined(d: Dpid, k: Code)
    requires Disciplined(k, map[SwMutex := Exclusive], NO_FACTS)
    ensures Disciplined(Acquire(SwRwlock, Exclusive, Unlink(d, Release(SwRwlock, Delete(k)))),
                        map[SwMutex := Exclusive], NO_FACTS.(present := Some(d)))
  {
    var h: Locks := map[SwMutex := Exclusive];
    var h' := h[SwRwlock := Exclusive];
    var gone := NO_FACTS.(pointer := Unlinked);
    assert h' - {SwRwlock} == h && gone.(pointer := NoPointer) == NO_FACTS;
    assert Disciplined(Delete(k), h, gone);
    assert Disciplined(Release(SwRwlock, Delete(k)), h', gone);
    assert Disciplined(Unlink(d, Release(SwRwlock, Delete(k))), h', NO_FACTS.(present := Some(d)));
  }

  /** From the mark to the end, for a switch that is registered. */
  lemma MarkedDisciplined(d: Dpid, ports: seq<Detachment>, cbs: seq<Callback>)
    ensures var quit := Release(SwMutex, Done);
            var finish := RunCallbacks(cbs, Unmark(quit));
            var erase := Acquire(SwRwlock, Exclusive, Unlink(d, Release(SwRwlock, Delete(finish))));
            Disciplined(DetachAll(d, ports, erase, quit), map[SwMutex := Exclusive], NO_FACTS.(present := Some(d)))
  {
    var h: Locks := map[SwMutex := Exclusive];
    var f := NO_FACTS.(present := Some(d));
    var quit := Release(SwMutex, Done);
    QuitDisciplined(NO_FACTS);
    QuitDisciplined(f);
    assert Disciplined(Unmark(quit), h, NO_FACTS);
    CallbacksDisciplined(cbs, Unmark(quit), h, NO_FACTS);
    var finish := RunCallbacks(cbs, Unmark(quit));
    EraseDisciplined(d, finish);
    var erase := Acquire(SwRwlock, Exclusive, Unlink(d, Release(SwRwlock, Delete(finish))));
    DetachAllDisciplined(d, ports, erase, quit, h, f);
  }

  lemma DestroyDisciplined(d: Dpid, snapshotOk: bool, ports: seq<Detachment>, cbs: seq<Callback>)
    ensures Disciplined(Program(DestroySwitch(d, snapshotOk, ports, cbs)), map[], NO_FACTS)
  {
    var h: Locks := map[SwMutex := Exclusive];
    var f := NO_FACTS.(present := Some(d));
    var quit := Release(SwMutex, Done);
    QuitDisciplined(f);
    QuitDisciplined(NO_FACTS.(absent := Some(d)));
    MarkedDisciplined(d, ports, cbs);
    var finish := RunCallbacks(cbs, Unmark(quit));
    var erase := Acquire(SwRwlock, Exclusive, Unlink(d, Release(SwRwlock, Delete(finish))));
    var yes := if !snapshotOk then quit else Mark(d, DetachAll(d, ports, erase, quit));
    assert Disciplined(yes, h, f);
    assert Disciplined(IfPresent(d, yes, quit), h, NO_FACTS);
    assert map[][SwMutex := Exclusive] == h;
  }

  lemma AttachDisciplined(d: Dpid, portFound: bool, driverOk: bool, cbs: seq<Callback>)
    ensures Disciplined(Program(AttachPort(d, portFound, driverOk, cbs)), map[], NO_FACTS)
  {
    var h: Locks := map[PmMutex := Exclusive];
    var quit := Release(PmMutex, Done);
    assert h - {PmMutex} == map[] && map[][PmMutex := Exclusive] == h;
    NotifyDisciplined(d, quit, h, NO_FACTS);
    var rest := if driverOk then Notify(d, quit) else quit;
    CallbacksDisciplined(cbs, rest, h, NO_FACTS);
    ExistsDisciplined(d, RunCallbacks(cbs, rest), quit, h);
  }

  lemma ConnectDisciplined(d1: Dpid, d2: Dpid, driverOk: bool, cbs: seq<Callback>)
    ensures Disciplined(Program(ConnectSwitches(d1, d2, driverOk, cbs)), map[], NO_FACTS)
  {
    var h: Locks := map[PmMutex := Exclusive];
    var quit := Release(PmMutex, Done);
    assert h - {PmMutex} == map[] && map[][PmMutex := Exclusive] == h;
    var h' := h[VlinkRwlock := Exclusive];
    assert h' - {VlinkRwlock} == h;
    assert Disciplined(Release(VlinkRwlock, quit), h', NO_FACTS);
    var addVlink := Acquire(VlinkRwlock, Exclusive, Release(VlinkRwlock, quit));
    var rest := if driverOk then addVlink else quit;
    CallbacksDisciplined(cbs, rest, h, NO_FACTS);
    ExistsDisciplined(d2, RunCallbacks(cbs, rest), quit, h);
    ExistsDisciplined(d1, Exists(d2, RunCallbacks(cbs, rest), quit), quit, h);
  }

  lemma PortAdminDisciplined(portFound: bool, cbs: seq<Callback>)
    ensures Disciplined(Program(PortAdmin(portFound, cbs)), map[], NO_FACTS)
  {
    var h: Locks := map[PmMutex := Exclusive];
    assert h - {PmMutex} == map[] && map[][PmMutex := Exclusive] == h;
    CallbacksDisciplined(cbs, Release(PmMutex, Done), h, NO_FACTS);
  }

  lemma ReadersDisciplined()
    ensures Disciplined(Program(FindByName), map[], NO_FACTS)
    ensures Disciplined(Program(VlinkPair), map[], NO_FACTS)
  {
    var h: Locks := map[SwRwlock := Sharing];
    assert h - {SwRwlock} == map[] && map[][SwRwlock := Sharing] == h;
    assert Disciplined(Release(SwRwlock, Done), h, NO_FACTS);
    assert Disciplined(Scan(-1, None, Release(SwRwlock, Done), Release(SwRwlock, Done)), h, NO_FACTS);
    assert map[][VlinkRwlock := Sharing] - {VlinkRwlock} == map[];
  }

  /** Every operation, whatever the driver does, follows the discipline. */
  lemma ProgramsAreDisciplined(op: Operation)
    ensures Disciplined(Program(op), map[], NO_FACTS)
  {
    match op
    case CreateSwitch(info, supported, cbs) => CreateDisciplined(info, supported, cbs);
    case DestroySwitch(d, snapshotOk, ports, cbs) => DestroyDisciplined(d, snapshotOk, ports, cbs);
    case ReconfigureSwitch(d) => UseDisciplined(d, Exclusive);
    case QuerySwitch(d) => UseDisciplined(d, Sharing);
    case SwitchExists(d) => ExistsDisciplined(d, Done, Done, map[]);
    case FindByName => ReadersDisciplined();
    case AttachPort(d, portFound, driverOk, cbs) => AttachDisciplined(d, portFound, driverOk, cbs);
    case DetachOnePort(d, port) => DetachDisciplined(d, port, Done, Done, map[], NO_FACTS);
    case ConnectSwitches(d1, d2, driverOk, cbs) => ConnectDisciplined(d1, d2, driverOk, cbs);
    case VlinkPair => ReadersDisciplined();
    case PortAdmin(portFound, cbs) => PortAdminDisciplined(portFound, cbs);
    case Driver(cbs) => CallbacksDisciplined(cbs, Done, map[], NO_FACTS);
  }

  lemma UseDisciplined(d: Dpid, m: Mode)
    ensures var quit := Release(SwRwlock, Done);
            Disciplined(Acquire(SwRwlock, m, Fetch(d, Use(d, quit), quit)), map[], NO_FACTS)
  {
    var h: Locks := map[SwRwlock := m];
    var quit := Release(SwRwlock, Done);
    assert h - {SwRwlock} == map[] && map[][SwRwlock := m] == h;
    assert Disciplined(quit, h, NO_FACTS) && Disciplined(quit, h, NO_FACTS.(pointer := Guarded(d)));
    assert Disciplined(Use(d, quit), h, NO_FACTS.(pointer := Guarded(d)));
    assert Disciplined(Fetch(d, Use(d, quit), quit), h, NO_FACTS);
  }
}
