/**
 A thread of the lock protocol that runs alone: what it does to the shared state, and what is seen
 of it on the way. For every operation, whatever the driver answers and calls, both are stated
 exactly.
 */
module LockAlone {
  import opened Wrappers
  import opened LockProtocol
  import opened LockSafety

  // ----- A thread that runs alone -----

  lemma CodeShrinks(sh: Shared, th: Thread)
    requires th.code != Done
    ensures Weight(NextThread(sh, th, true).code) < Weight(th.code)
  {
  }

  /** The shared state when a thread has come to its end without others taking a step. */
  ghost function Outcome(sh: Shared, t: Tid, th: Thread): Shared
    decreases Weight(th.code)
  {
    if th.code == Done then sh
    else
      CodeShrinks(sh, th);
      Outcome(NextShared(sh, t, th), t, NextThread(sh, th, true))
  }

  // ----- What a thread does on its way -----

  /** What can be seen of an operation: a switch is used, under the reader/writer lock held that way;
      a dpid is looked up; the name of a switch is looked at; the cache of virtual links is locked. */
  datatype Event =
    | Reached(dpid: Dpid, mode: Mode)
    | Asked(dpid: Dpid, found: bool)
    | Compared(dpid: Dpid)
    | Vlinks(mode: Mode)

  /** What is seen of the next step. A use counts if the pointer is the one registered for the dpid. */
  ghost function Seen(sh: Shared, th: Thread): seq<Event> {
    match th.code
    case Use(d, _) =>
      if d in sh.switchs && th.pointer == Some(sh.switchs[d]) && SwRwlock in th.held then [Reached(d, th.held[SwRwlock])] else []
    case IfPresent(d, _, _) => [Asked(d, d in sh.switchs)]
    case Compare(d, _, _, _) => [Compared(d)]
    case Acquire(l, m, _) => if l == VlinkRwlock then [Vlinks(m)] else []
    case _ => []
  }

  /** What is seen of a thread that comes to its end without others taking a step. */
  ghost function Story(sh: Shared, t: Tid, th: Thread): seq<Event>
    decreases Weight(th.code)
  {
    if th.code == Done then []
    else
      CodeShrinks(sh, th);
      Seen(sh, th) + Story(NextShared(sh, t, th), t, NextThread(sh, th, true))
  }

  /** What is seen of the steps of a run. */
  ghost function Observed(s: State, run: seq<Action>): seq<Event>
    requires LegalRun(s, run)
    decreases |run|
  {
    if run == [] then []
    else (if run[0].Step? then Seen(s.shared, s.threads[run[0].tid]) else []) + Observed(Apply(s, run[0]), run[1..])
  }

  /** All threads but t have come to their end. */
  ghost predicate Alone(s: State, t: Tid) {
    t < |s.threads| && forall u | 0 <= u < |s.threads| && u != t :: s.threads[u].code == Done
  }

  lemma OthersHoldNothing(s: State, t: Tid, u: Tid)
    requires Inv(s) && Alone(s, t) && u < |s.threads| && u != t
    ensures s.threads[u].held == map[]
  {
    assert ThreadOk(s.shared, u, s.threads[u]);
  }

  /** Nothing the thread asks for is held by anybody else, nor by itself. */
  lemma AloneCanLock(s: State, t: Tid, l: Lock, m: Mode)
    requires Inv(s) && Alone(s, t) && l !in s.threads[t].held
    ensures CanLock(s.threads, l, m)
  {
    forall th <- s.threads ensures Compatible(th, l, m) {
      var u :| 0 <= u < |s.threads| && s.threads[u] == th;
      if u != t { OthersHoldNothing(s, t, u); }
    }
  }

  lemma AloneSteps(s: State, t: Tid)
    requires Inv(s) && Alone(s, t) && s.threads[t].code != Done
    ensures Enabled(s, t)
    ensures var s' := Advance(s, t);
            && Alone(s', t) && s'.shared == NextShared(s.shared, t, s.threads[t])
            && s'.threads[t] == NextThread(s.shared, s.threads[t], true)
  {
    var th := s.threads[t];
    assert ThreadOk(s.shared, t, th);
    if th.code.Acquire? { AloneCanLock(s, t, th.code.lock, th.code.mode); }
    if th.code.TryRead? { AloneCanLock(s, t, SwRwlock, Sharing); }
  }

  /** Whatever the schedule, a lone thread brings about its outcome, and its story is what is seen. */
  lemma {:induction false} LoneRun(s: State, t: Tid, run: seq<Action>)
    requires Inv(s) && Alone(s, t) && LegalRun(s, run) && AllSteps(run) && AllDone(After(s, run))
    ensures After(s, run).shared == Outcome(s.shared, t, s.threads[t])
    ensures Observed(s, run) == Story(s.shared, t, s.threads[t])
    decreases |run|
  {
    if run == [] {
      assert s.threads[t] in s.threads;
    } else {
      assert run[0] in run;
      var u := run[0].tid;
      assert u == t;
      AloneSteps(s, t);
      StepKeepsInv(s, t);
      LoneRun(Advance(s, t), t, run[1..]);
    }
  }

  // ----- Parts of the operations -----

  /** From th, the thread gets to where it runs `code`, without a change of the shared state; these
      events are seen on the way. */
  ghost predicate Reaches(sh: Shared, t: Tid, th: Thread, code: Code, th': Thread, events: seq<Event>) {
    th'.code == code && Outcome(sh, t, th) == Outcome(sh, t, th') && Story(sh, t, th) == events + Story(sh, t, th')
  }

  lemma ReachesOn(sh: Shared, t: Tid, a: Thread, b: Thread, c: Thread, x: Code, y: Code, e: seq<Event>, f: seq<Event>)
    requires Reaches(sh, t, a, x, b, e) && Reaches(sh, t, b, y, c, f)
    ensures Reaches(sh, t, a, y, c, e + f)
  {
  }

  /** One step that does not change the shared state. */
  lemma Reading(sh: Shared, t: Tid, th: Thread) returns (th': Thread)
    requires th.code != Done && NextShared(sh, t, th) == sh
    ensures th' == NextThread(sh, th, true) && Reaches(sh, t, th, th'.code, th', Seen(sh, th))
  {
    th' := NextThread(sh, th, true);
  }

  /** Whether a notification for the dpid gets to its switch. */
  ghost function Notified(sh: Shared, d: Dpid): seq<Event> {
    if d in sh.switchs && d != sh.under then [Reached(d, Sharing)] else []
  }

  lemma UseEffect(sh: Shared, t: Tid, d: Dpid, k: Code, th: Thread) returns (th': Thread)
    requires Registry(sh) && d in sh.switchs && th.pointer == Some(sh.switchs[d])
    requires SwRwlock in th.held && th.code == Use(d, Release(SwRwlock, k))
    ensures Reaches(sh, t, th, k, th', [Reached(d, th.held[SwRwlock])])
  {
    assert !Dangling(sh, th.pointer);
    var th1 := Reading(sh, t, th);
    th' := Reading(sh, t, th1);
  }

  /** From the lock on. */
  lemma FetchEffect(sh: Shared, t: Tid, d: Dpid, k: Code, th: Thread) returns (th': Thread)
    requires Registry(sh) && SwRwlock in th.held && th.held[SwRwlock] == Sharing
    requires th.code == Fetch(d, Use(d, Release(SwRwlock, k)), Release(SwRwlock, k))
    ensures Reaches(sh, t, th, k, th', if d in sh.switchs then [Reached(d, Sharing)] else [])
  {
    var th1 := Reading(sh, t, th);
    if d in sh.switchs { th' := UseEffect(sh, t, d, k, th1); } else { th' := Reading(sh, t, th1); }
  }

  lemma NotifyEffect(sh: Shared, t: Tid, d: Dpid, k: Code, th: Thread) returns (th': Thread)
    requires Registry(sh) && th.code == Notify(d, k)
    ensures Reaches(sh, t, th, k, th', Notified(sh, d))
  {
    var th1 := Reading(sh, t, th);
    if d == sh.under {
      th' := th1;
    } else {
      var th2 := Reading(sh, t, th1);
      th' := FetchEffect(sh, t, d, k, th2);
    }
  }

  lemma LockPair(sh: Shared, t: Tid, l: Lock, m: Mode, k: Code, th: Thread) returns (th': Thread)
    requires th.code == Acquire(l, m, Release(l, k))
    ensures Reaches(sh, t, th, k, th', if l == VlinkRwlock then [Vlinks(m)] else [])
  {
    var th1 := Reading(sh, t, th);
    th' := Reading(sh, t, th1);
  }

  ghost function NotifiedAny(sh: Shared, d: Option<Dpid>): seq<Event> {
    if d.Some? then Notified(sh, d.value) else []
  }

  lemma AttachedEffect(sh: Shared, t: Tid, d: Option<Dpid>, k: Code, th: Thread) returns (th': Thread)
    requires Registry(sh) && th.code == NotifyAttached(d, k)
    ensures Reaches(sh, t, th, k, th', NotifiedAny(sh, d))
  {
    if d.Some? { th' := NotifyEffect(sh, t, d.value, k, th); } else { th' := th; }
  }

  /** The switch a call from the driver is about. */
  ghost function Concerned(cb: Callback): Option<Dpid> {
    match cb
    case PortChanged(d) => d
    case PortDeleted(_, d) => d
    case PacketIn(d) => Some(d)
    case FlowRemoved(d) => Some(d)
  }

  /** A call from the driver: a deleted end of a virtual link is taken from the cache; the switch
      concerned is notified. */
  ghost function HeardOne(sh: Shared, cb: Callback): seq<Event> {
    if cb.PortDeleted? && cb.isVlink then [Vlinks(Exclusive)] + NotifiedAny(sh, Concerned(cb))
    else NotifiedAny(sh, Concerned(cb))
  }

  ghost function Heard(sh: Shared, cbs: seq<Callback>): seq<Event> {
    if cbs == [] then [] else HeardOne(sh, cbs[0]) + Heard(sh, cbs[1..])
  }

  lemma DeletedEffect(sh: Shared, t: Tid, d: Option<Dpid>, k: Code, th: Thread) returns (th': Thread)
    requires Registry(sh) && th.code == RunCallback(PortDeleted(true, d), k)
    ensures Reaches(sh, t, th, k, th', [Vlinks(Exclusive)] + NotifiedAny(sh, d))
  {
    var rest := NotifyAttached(d, k);
    var th1 := LockPair(sh, t, VlinkRwlock, Exclusive, rest, th);
    th' := AttachedEffect(sh, t, d, k, th1);
    ReachesOn(sh, t, th, th1, th', rest, k, [Vlinks(Exclusive)], NotifiedAny(sh, d));
  }

  lemma CallbackIs(cb: Callback, k: Code)
    ensures !(cb.PortDeleted? && cb.isVlink) ==> RunCallback(cb, k) == NotifyAttached(Concerned(cb), k)
  {
  }

  lemma CallbackEffect(sh: Shared, t: Tid, cb: Callback, k: Code, th: Thread) returns (th': Thread)
    requires Registry(sh) && th.code == RunCallback(cb, k)
    ensures Reaches(sh, t, th, k, th', HeardOne(sh, cb))
  {
    CallbackIs(cb, k);
    if cb.PortDeleted? && cb.isVlink {
      th' := DeletedEffect(sh, t, cb.attachedTo, k, th);
    } else {
      th' := AttachedEffect(sh, t, Concerned(cb), k, th);
    }
  }

  lemma {:induction false} CallbacksEffect(sh: Shared, t: Tid, cbs: seq<Callback>, k: Code, th: Thread) returns (th': Thread)
    requires Registry(sh) && th.code == RunCallbacks(cbs, k)
    ensures Reaches(sh, t, th, k, th', Heard(sh, cbs))
  {
    if cbs == [] {
      th' := th;
    } else {
      var rest := RunCallbacks(cbs[1..], k);
      var th1 := CallbackEffect(sh, t, cbs[0], rest, th);
      th' := CallbacksEffect(sh, t, cbs[1..], k, th1);
      ReachesOn(sh, t, th, th1, th', rest, k, HeardOne(sh, cbs[0]), Heard(sh, cbs[1..]));
    }
  }

  ghost predicate NamedAfter(sh: Shared, after: int, name: string)
    requires Registry(sh)
  {
    exists d :: d in sh.switchs && after < d && sh.live[sh.switchs[d]].name == name
  }

  /** The iteration from a dpid on looks at every switch up to the first one with the name. */
  ghost function Looks(sh: Shared, after: int, wanted: Option<string>): seq<Event>
    requires Registry(sh) && -1 <= after
    decreases DPID_LIMIT - after, |sh.switchs|
  {
    if after + 1 >= DPID_LIMIT then []
    else if after + 1 in sh.switchs then
      [Compared(after + 1)]
      + (if wanted == Some(sh.live[sh.switchs[after + 1]].name) then [] else Looks(sh, after + 1, wanted))
    else Looks(sh, after + 1, wanted)
  }

  ghost predicate Ends(sh: Shared, after: int, wanted: Option<string>)
    requires Registry(sh)
  {
    wanted.Some? && NamedAfter(sh, after, wanted.value)
  }

  /** One switch of the iteration. */
  lemma LookEffect(sh: Shared, t: Tid, after: int, wanted: Option<string>, same: Code, next: Code, th: Thread)
    returns (th': Thread)
    requires Registry(sh) && th.code == Scan(after, wanted, same, next) && -1 <= after
    requires after + 1 < DPID_LIMIT && after + 1 in sh.switchs
    ensures Reaches(sh, t, th,
                    if wanted == Some(sh.live[sh.switchs[after + 1]].name) then same else Scan(after + 1, wanted, same, next),
                    th', [Compared(after + 1)])
  {
    var th1 := Reading(sh, t, th);
    th' := NameEffect(sh, t, after + 1, wanted, same, next, th1);
  }

  lemma NameEffect(sh: Shared, t: Tid, key: Dpid, wanted: Option<string>, same: Code, next: Code, th: Thread)
    returns (th': Thread)
    requires Registry(sh) && key in sh.switchs && th.pointer == Some(sh.switchs[key])
    requires th.code == Compare(key, wanted, same, next)
    ensures Reaches(sh, t, th, if wanted == Some(sh.live[sh.switchs[key]].name) then same else Scan(key, wanted, same, next),
                    th', [Compared(key)])
  {
    assert !Dangling(sh, th.pointer) && NextShared(sh, t, th) == sh;
    th' := Reading(sh, t, th);
  }

  /** The scan ends with whether a switch has the name. */
  lemma {:induction false} ScanEffect(
    sh: Shared, t: Tid, after: int, wanted: Option<string>, same: Code, next: Code, th: Thread) returns (th': Thread)
    requires Registry(sh) && th.code == Scan(after, wanted, same, next) && -1 <= after
    ensures Reaches(sh, t, th, if Ends(sh, after, wanted) then same else next, th', Looks(sh, after, wanted))
    decreases DPID_LIMIT - after, |sh.switchs|
  {
    var key := after + 1;
    if key >= DPID_LIMIT {
      th' := Reading(sh, t, th);
    } else if key in sh.switchs {
      var th1 := LookEffect(sh, t, after, wanted, same, next, th);
      if wanted == Some(sh.live[sh.switchs[key]].name) {
        th' := th1;
      } else {
        EndsLater(sh, after, wanted);
        th' := ScanEffect(sh, t, key, wanted, same, next, th1);
        ReachesOn(sh, t, th, th1, th', th1.code, th'.code, [Compared(key)], Looks(sh, key, wanted));
      }
    } else {
      var th1 := Reading(sh, t, th);
      EndsLater(sh, after, wanted);
      th' := ScanEffect(sh, t, key, wanted, same, next, th1);
    }
  }

  lemma EndsLater(sh: Shared, after: int, wanted: Option<string>)
    requires Registry(sh) && -1 <= after && after + 1 < DPID_LIMIT
    requires after + 1 in sh.switchs ==> wanted != Some(sh.live[sh.switchs[after + 1]].name)
    ensures Ends(sh, after, wanted) <==> Ends(sh, after + 1, wanted)
  {
  }

  lemma Quits(sh: Shared, t: Tid, l: Lock, th: Thread)
    requires th.code == Release(l, Done)
    ensures Outcome(sh, t, th) == sh && Story(sh, t, th) == []
  {
    var th' := Reading(sh, t, th);
  }

  lemma Ended(sh: Shared, t: Tid, th: Thread)
    requires th.code == Done
    ensures Outcome(sh, t, th) == sh && Story(sh, t, th) == []
  {
  }

  ghost predicate Detaches(det: Detachment) {
    det.portFound && det.attachedHere && det.driverOk
  }

  /** A detachment: the driver is called for a port that is attached here, and a port that then still
      exists is notified of. */
  ghost function DetachHeard(sh: Shared, d: Dpid, det: Detachment): seq<Event> {
    if !det.portFound || !det.attachedHere then []
    else Heard(sh, det.callbacks) + if det.driverOk && det.stillExists then Notified(sh, d) else []
  }

  /** From the result of the driver on. */
  lemma DetachRest(sh: Shared, t: Tid, d: Dpid, det: Detachment, ok: Code, failed: Code, th: Thread) returns (th': Thread)
    requires Registry(sh)
    requires th.code == if !det.driverOk then Release(PmMutex, failed)
                        else if det.stillExists then Notify(d, Release(PmMutex, ok))
                        else Release(PmMutex, ok)
    ensures Reaches(sh, t, th, if det.driverOk then ok else failed, th',
                    if det.driverOk && det.stillExists then Notified(sh, d) else [])
  {
    if det.driverOk && det.stillExists {
      var th1 := NotifyEffect(sh, t, d, Release(PmMutex, ok), th);
      th' := Reading(sh, t, th1);
    } else {
      th' := Reading(sh, t, th);
    }
  }

  lemma DetachEffect(sh: Shared, t: Tid, d: Dpid, det: Detachment, ok: Code, failed: Code, th: Thread) returns (th': Thread)
    requires Registry(sh) && th.code == DetachPort(d, det, ok, failed)
    ensures Reaches(sh, t, th, if Detaches(det) then ok else failed, th', DetachHeard(sh, d, det))
  {
    var th1 := Reading(sh, t, th);
    if det.portFound && det.attachedHere {
      var rest := if !det.driverOk then Release(PmMutex, failed)
                  else if det.stillExists then Notify(d, Release(PmMutex, ok))
                  else Release(PmMutex, ok);
      var th2 := CallbacksEffect(sh, t, det.callbacks, rest, th1);
      th' := DetachRest(sh, t, d, det, ok, failed, th2);
      ReachesOn(sh, t, th1, th2, th', rest, if det.driverOk then ok else failed, Heard(sh, det.callbacks),
                if det.driverOk && det.stillExists then Notified(sh, d) else []);
    } else {
      th' := Reading(sh, t, th1);
    }
  }

  ghost predicate AllDetach(ports: seq<Detachment>) {
    forall i | 0 <= i < |ports| :: Detaches(ports[i])
  }

  /** The ports one after the other, up to the first that is not detached. */
  ghost function AllDetachHeard(sh: Shared, d: Dpid, ports: seq<Detachment>): seq<Event> {
    if ports == [] then []
    else DetachHeard(sh, d, ports[0]) + if Detaches(ports[0]) then AllDetachHeard(sh, d, ports[1..]) else []
  }

  lemma AllDetachFirst(ports: seq<Detachment>)
    requires ports != []
    ensures AllDetach(ports) <==> Detaches(ports[0]) && AllDetach(ports[1..])
  {
    assert ports == [ports[0]] + ports[1..];
  }

  lemma {:induction false} DetachAllEffect(
    sh: Shared, t: Tid, d: Dpid, ports: seq<Detachment>, ok: Code, failed: Code, th: Thread) returns (th': Thread)
    requires Registry(sh) && th.code == DetachAll(d, ports, ok, failed)
    ensures Reaches(sh, t, th, if AllDetach(ports) then ok else failed, th', AllDetachHeard(sh, d, ports))
  {
    if ports == [] {
      th' := th;
    } else {
      var rest := DetachAll(d, ports[1..], ok, failed);
      AllDetachFirst(ports);
      th' := DetachEffect(sh, t, d, ports[0], rest, failed, th);
      if Detaches(ports[0]) {
        var th1 := th';
        th' := DetachAllEffect(sh, t, d, ports[1..], ok, failed, th1);
        ReachesOn(sh, t, th, th1, th', rest, if AllDetach(ports) then ok else failed,
                  DetachHeard(sh, d, ports[0]), AllDetachHeard(sh, d, ports[1..]));
      }
    }
  }

  // ----- Creation and destruction -----

  ghost function Created(sh: Shared, info: SwitchInfo): Shared {
    sh.(live := sh.live[sh.issued := info], issued := sh.issued + 1, switchs := sh.switchs[info.dpid := sh.issued])
  }

  ghost function Destroyed(sh: Shared, d: Dpid): Shared
    requires d in sh.switchs
  {
    var o := sh.switchs[d];
    sh.(switchs := sh.switchs - {d}, live := sh.live - {o}, deleted := sh.deleted + {o}, under := 0)
  }

  lemma AddEffect(sh: Shared, t: Tid, info: SwitchInfo, th: Thread)
    requires sh.loose.None? && th.code == Allocate(info, Insert(info.dpid, Release(SwMutex, Done)))
    ensures Outcome(sh, t, th) == Created(sh, info) && Story(sh, t, th) == []
  {
    var sh1, th1 := NextShared(sh, t, th), NextThread(sh, th, true);
    var sh2, th2 := NextShared(sh1, t, th1), NextThread(sh1, th1, true);
    assert Outcome(sh, t, th) == Outcome(sh1, t, th1) == Outcome(sh2, t, th2);
    assert Story(sh, t, th) == Story(sh1, t, th1) == Story(sh2, t, th2);
    Quits(sh2, t, SwMutex, th2);
  }

  /** A creation looks for the dpid, then for the name; if neither is in use the driver is called. */
  ghost function CreateSeen(sh: Shared, info: SwitchInfo, supported: bool, cbs: seq<Callback>): seq<Event>
    requires Registry(sh)
  {
    [Asked(info.dpid, info.dpid in sh.switchs)]
    + (if info.dpid in sh.switchs then []
       else Looks(sh, -1, Some(info.name))
            + if NamedAfter(sh, -1, info.name) || !supported then [] else Heard(sh, cbs))
  }

  /** From the scan on. */
  lemma CreateRest(sh: Shared, t: Tid, info: SwitchInfo, supported: bool, cbs: seq<Callback>, th: Thread)
    requires Registry(sh) && sh.loose.None?
    requires var quit := Release(SwMutex, Done);
             th.code == Scan(-1, Some(info.name), quit,
                             if !supported then quit else RunCallbacks(cbs, Allocate(info, Insert(info.dpid, quit))))
    ensures var quits := NamedAfter(sh, -1, info.name) || !supported;
            && Outcome(sh, t, th) == (if quits then sh else Created(sh, info))
            && Story(sh, t, th) == Looks(sh, -1, Some(info.name)) + if quits then [] else Heard(sh, cbs)
  {
    var quit := Release(SwMutex, Done);
    var add := Allocate(info, Insert(info.dpid, quit));
    var th1 := ScanEffect(sh, t, -1, Some(info.name), quit, if !supported then quit else RunCallbacks(cbs, add), th);
    if NamedAfter(sh, -1, info.name) || !supported {
      Quits(sh, t, SwMutex, th1);
    } else {
      var th2 := CallbacksEffect(sh, t, cbs, add, th1);
      AddEffect(sh, t, info, th2);
    }
  }

  lemma CreateEffect(sh: Shared, t: Tid, info: SwitchInfo, supported: bool, cbs: seq<Callback>, th: Thread)
    requires Registry(sh) && sh.loose.None? && th.code == Program(CreateSwitch(info, supported, cbs))
    ensures Outcome(sh, t, th)
            == if info.dpid in sh.switchs || NamedAfter(sh, -1, info.name) || !supported then sh else Created(sh, info)
    ensures Story(sh, t, th) == CreateSeen(sh, info, supported, cbs)
  {
    var th1 := Reading(sh, t, th);
    var th2 := Reading(sh, t, th1);
    if info.dpid in sh.switchs {
      Quits(sh, t, SwMutex, th2);
    } else {
      CreateRest(sh, t, info, supported, cbs, th2);
    }
  }

  lemma UnlinkedRegistry(sh: Shared, d: Dpid)
    requires Registry(sh) && d in sh.switchs
    ensures Registry(Destroyed(sh, d))
  {
  }

  lemma Writing(sh: Shared, t: Tid, th: Thread) returns (sh': Shared, th': Thread)
    requires th.code != Done && Seen(sh, th) == []
    ensures sh' == NextShared(sh, t, th) && th' == NextThread(sh, th, true)
    ensures Outcome(sh, t, th) == Outcome(sh', t, th') && Story(sh, t, th) == Story(sh', t, th')
  {
    sh', th' := NextShared(sh, t, th), NextThread(sh, th, true);
  }

  ghost function Unlinked(sh: Shared, t: Tid, d: Dpid): Shared
    requires d in sh.switchs
  {
    sh.(switchs := sh.switchs - {d}, loose := Some((t, sh.switchs[d])))
  }

  lemma UnlinkEffect(sh: Shared, t: Tid, d: Dpid, k: Code, th: Thread) returns (th': Thread)
    requires d in sh.switchs && th.code == Acquire(SwRwlock, Exclusive, Unlink(d, Release(SwRwlock, k)))
    ensures th'.code == k && th'.pointer == Some(sh.switchs[d])
    ensures Outcome(sh, t, th) == Outcome(Unlinked(sh, t, d), t, th')
    ensures Story(sh, t, th) == Story(Unlinked(sh, t, d), t, th')
  {
    var th1 := Reading(sh, t, th);
    var sh2, th2 := Writing(sh, t, th1);
    th' := Reading(sh2, t, th2);
  }

  lemma DeleteEffect(sh: Shared, t: Tid, d: Dpid, k: Code, th: Thread) returns (th': Thread)
    requires Registry(sh) && d in sh.switchs && sh.loose.None?
    requires th.code == Delete(k) && th.pointer == Some(sh.switchs[d])
    ensures th'.code == k
    ensures Outcome(Unlinked(sh, t, d), t, th) == Outcome(Destroyed(sh, d).(under := sh.under), t, th')
    ensures Story(Unlinked(sh, t, d), t, th) == Story(Destroyed(sh, d).(under := sh.under), t, th')
  {
    var sh2;
    sh2, th' := Writing(Unlinked(sh, t, d), t, th);
  }

  /** After the delete. */
  lemma FinishEffect(sh: Shared, t: Tid, cbs: seq<Callback>, th: Thread)
    requires Registry(sh) && th.code == RunCallbacks(cbs, Unmark(Release(SwMutex, Done)))
    ensures Outcome(sh, t, th) == sh.(under := 0) && Story(sh, t, th) == Heard(sh, cbs)
  {
    var th' := CallbacksEffect(sh, t, cbs, Unmark(Release(SwMutex, Done)), th);
    var sh2, th2 := Writing(sh, t, th');
    Quits(sh2, t, SwMutex, th2);
  }

  /** After the last detachment. */
  lemma EraseEffect(sh: Shared, t: Tid, d: Dpid, cbs: seq<Callback>, th: Thread)
    requires Registry(sh) && d in sh.switchs && sh.loose.None?
    requires th.code == Acquire(SwRwlock, Exclusive, Unlink(d, Release(SwRwlock,
                          Delete(RunCallbacks(cbs, Unmark(Release(SwMutex, Done)))))))
    ensures Outcome(sh, t, th) == Destroyed(sh, d)
    ensures Story(sh, t, th) == Heard(Destroyed(sh, d).(under := sh.under), cbs)
  {
    var finish := RunCallbacks(cbs, Unmark(Release(SwMutex, Done)));
    var th' := UnlinkEffect(sh, t, d, Delete(finish), th);
    th' := DeleteEffect(sh, t, d, finish, th');
    UnlinkedRegistry(sh, d);
    FinishEffect(Destroyed(sh, d).(under := sh.under), t, cbs, th');
  }

  /** A destruction detaches the ports with the switch marked, and then deletes the switch. */
  ghost function DestroySeen(sh: Shared, d: Dpid, snapshotOk: bool, ports: seq<Detachment>, cbs: seq<Callback>): seq<Event>
  {
    [Asked(d, d in sh.switchs)]
    + (if d !in sh.switchs || !snapshotOk then []
       else AllDetachHeard(sh.(under := d), d, ports)
            + if AllDetach(ports) then Heard(Destroyed(sh, d).(under := d), cbs) else [])
  }

  /** From the mark on. */
  lemma DestroyRest(sh: Shared, t: Tid, d: Dpid, ports: seq<Detachment>, cbs: seq<Callback>, th: Thread)
    requires Registry(sh) && sh.loose.None? && d in sh.switchs && sh.under == d
    requires var quit := Release(SwMutex, Done);
             th.code == DetachAll(d, ports, Acquire(SwRwlock, Exclusive, Unlink(d, Release(SwRwlock,
                                    Delete(RunCallbacks(cbs, Unmark(quit)))))), quit)
    ensures Outcome(sh, t, th) == if AllDetach(ports) then Destroyed(sh, d) else sh
    ensures Story(sh, t, th)
            == AllDetachHeard(sh, d, ports) + if AllDetach(ports) then Heard(Destroyed(sh, d).(under := d), cbs) else []
  {
    var quit := Release(SwMutex, Done);
    var erase := Acquire(SwRwlock, Exclusive, Unlink(d, Release(SwRwlock, Delete(RunCallbacks(cbs, Unmark(quit))))));
    var th1 := DetachAllEffect(sh, t, d, ports, erase, quit, th);
    if AllDetach(ports) { EraseEffect(sh, t, d, cbs, th1); } else { Quits(sh, t, SwMutex, th1); }
  }

  lemma DestroyEffect(sh: Shared, t: Tid, d: Dpid, snapshotOk: bool, ports: seq<Detachment>, cbs: seq<Callback>, th: Thread)
    requires Registry(sh) && sh.loose.None? && th.code == Program(DestroySwitch(d, snapshotOk, ports, cbs))
    ensures Outcome(sh, t, th)
            == if d !in sh.switchs || !snapshotOk then sh
               else if AllDetach(ports) then Destroyed(sh, d) else sh.(under := d)
    ensures Story(sh, t, th) == DestroySeen(sh, d, snapshotOk, ports, cbs)
  {
    var th1 := Reading(sh, t, th);
    var th2 := Reading(sh, t, th1);
    if d !in sh.switchs || !snapshotOk {
      Quits(sh, t, SwMutex, th2);
    } else {
      var sh', th3 := Writing(sh, t, th2);
      DestroyRest(sh', t, d, ports, cbs, th3);
      assert Destroyed(sh', d) == Destroyed(sh, d);
    }
  }

  // ----- The other operations -----

  lemma ExistsEffect(sh: Shared, t: Tid, d: Dpid, yes: Code, no: Code, th: Thread) returns (th': Thread)
    requires Registry(sh) && th.code == Exists(d, yes, no)
    ensures Reaches(sh, t, th, if d in sh.switchs then yes else no, th', [Asked(d, d in sh.switchs)])
  {
    var th1 := Reading(sh, t, th);
    var th2 := Reading(sh, t, th1);
    th' := Reading(sh, t, th2);
  }

  /** An attachment calls the driver for a port and a switch that exist, and then notifies the switch. */
  ghost function AttachSeen(sh: Shared, d: Dpid, portFound: bool, driverOk: bool, cbs: seq<Callback>): seq<Event> {
    if !portFound then []
    else [Asked(d, d in sh.switchs)]
         + if d !in sh.switchs then [] else Heard(sh, cbs) + if driverOk then Notified(sh, d) else []
  }

  lemma AttachEffect(sh: Shared, t: Tid, d: Dpid, portFound: bool, driverOk: bool, cbs: seq<Callback>, th: Thread)
    requires Registry(sh) && th.code == Program(AttachPort(d, portFound, driverOk, cbs))
    ensures Outcome(sh, t, th) == sh && Story(sh, t, th) == AttachSeen(sh, d, portFound, driverOk, cbs)
  {
    var quit := Release(PmMutex, Done);
    var rest := if driverOk then Notify(d, quit) else quit;
    var th1 := Reading(sh, t, th);
    if !portFound {
      Quits(sh, t, PmMutex, th1);
    } else {
      var th2 := ExistsEffect(sh, t, d, RunCallbacks(cbs, rest), quit, th1);
      if d !in sh.switchs {
        Quits(sh, t, PmMutex, th2);
      } else {
        var th3 := CallbacksEffect(sh, t, cbs, rest, th2);
        var th4 := th3;
        if driverOk { th4 := NotifyEffect(sh, t, d, quit, th3); }
        Quits(sh, t, PmMutex, th4);
      }
    }
  }

  /** Two switches are connected only if both exist; a link the driver makes goes into the cache. */
  ghost function ConnectSeen(sh: Shared, d: Dpid, e: Dpid, driverOk: bool, cbs: seq<Callback>): seq<Event> {
    [Asked(d, d in sh.switchs)]
    + if d !in sh.switchs then []
      else [Asked(e, e in sh.switchs)]
           + if e !in sh.switchs then [] else Heard(sh, cbs) + if driverOk then [Vlinks(Exclusive)] else []
  }

  /** From the second search on. */
  lemma ConnectRest(sh: Shared, t: Tid, e: Dpid, driverOk: bool, cbs: seq<Callback>, th: Thread)
    requires Registry(sh)
    requires var quit := Release(PmMutex, Done);
             var addVlink := Acquire(VlinkRwlock, Exclusive, Release(VlinkRwlock, quit));
             th.code == Exists(e, RunCallbacks(cbs, if driverOk then addVlink else quit), quit)
    ensures Outcome(sh, t, th) == sh
    ensures Story(sh, t, th)
            == [Asked(e, e in sh.switchs)]
               + if e !in sh.switchs then [] else Heard(sh, cbs) + if driverOk then [Vlinks(Exclusive)] else []
  {
    var quit := Release(PmMutex, Done);
    var rest := if driverOk then Acquire(VlinkRwlock, Exclusive, Release(VlinkRwlock, quit)) else quit;
    var th1 := ExistsEffect(sh, t, e, RunCallbacks(cbs, rest), quit, th);
    if e in sh.switchs {
      var th2 := CallbacksEffect(sh, t, cbs, rest, th1);
      th1 := th2;
      if driverOk { th1 := LockPair(sh, t, VlinkRwlock, Exclusive, quit, th2); }
    }
    Quits(sh, t, PmMutex, th1);
  }

  lemma ConnectEffect(sh: Shared, t: Tid, d: Dpid, e: Dpid, driverOk: bool, cbs: seq<Callback>, th: Thread)
    requires Registry(sh) && th.code == Program(ConnectSwitches(d, e, driverOk, cbs))
    ensures Outcome(sh, t, th) == sh && Story(sh, t, th) == ConnectSeen(sh, d, e, driverOk, cbs)
  {
    var quit := Release(PmMutex, Done);
    var addVlink := Acquire(VlinkRwlock, Exclusive, Release(VlinkRwlock, quit));
    var connect := RunCallbacks(cbs, if driverOk then addVlink else quit);
    var th1 := Reading(sh, t, th);
    var th2 := ExistsEffect(sh, t, d, Exists(e, connect, quit), quit, th1);
    if d in sh.switchs { ConnectRest(sh, t, e, driverOk, cbs, th2); } else { Quits(sh, t, PmMutex, th2); }
  }

  lemma PointerEffect(sh: Shared, t: Tid, d: Dpid, m: Mode, th: Thread)
    requires Registry(sh)
    requires var quit := Release(SwRwlock, Done); th.code == Acquire(SwRwlock, m, Fetch(d, Use(d, quit), quit))
    ensures Outcome(sh, t, th) == sh && Story(sh, t, th) == if d in sh.switchs then [Reached(d, m)] else []
  {
    var th1 := Reading(sh, t, th);
    var th2 := Reading(sh, t, th1);
    if d in sh.switchs {
      var th3 := UseEffect(sh, t, d, Done, th2);
      Ended(sh, t, th3);
    } else {
      Quits(sh, t, SwRwlock, th2);
    }
  }

  /** What is to be seen of an operation that runs alone. */
  ghost function Expected(sh: Shared, op: Operation): seq<Event>
    requires Registry(sh)
  {
    match op
    case CreateSwitch(info, supported, cbs) => CreateSeen(sh, info, supported, cbs)
    case DestroySwitch(d, snapshotOk, ports, cbs) => DestroySeen(sh, d, snapshotOk, ports, cbs)
    case ReconfigureSwitch(d) => if d in sh.switchs then [Reached(d, Exclusive)] else []
    case QuerySwitch(d) => if d in sh.switchs then [Reached(d, Sharing)] else []
    case SwitchExists(d) => [Asked(d, d in sh.switchs)]
    case FindByName => Looks(sh, -1, None)
    case AttachPort(d, portFound, driverOk, cbs) => AttachSeen(sh, d, portFound, driverOk, cbs)
    case DetachOnePort(d, port) => DetachHeard(sh, d, port)
    case ConnectSwitches(d, e, driverOk, cbs) => ConnectSeen(sh, d, e, driverOk, cbs)
    case VlinkPair => [Vlinks(Sharing)]
    case PortAdmin(portFound, cbs) => if portFound then Heard(sh, cbs) else []
    case Driver(cbs) => Heard(sh, cbs)
  }

  lemma ReaderEffect(sh: Shared, t: Tid, op: Operation, th: Thread)
    requires Registry(sh) && th.code == Program(op)
    requires op.ReconfigureSwitch? || op.QuerySwitch? || op.SwitchExists? || op.FindByName? || op.VlinkPair?
    ensures Outcome(sh, t, th) == sh && Story(sh, t, th) == Expected(sh, op)
  {
    if op.ReconfigureSwitch? {
      PointerEffect(sh, t, op.dpid, Exclusive, th);
    } else if op.QuerySwitch? {
      PointerEffect(sh, t, op.dpid, Sharing, th);
    } else if op.SwitchExists? {
      var th1 := ExistsEffect(sh, t, op.dpid, Done, Done, th);
      Ended(sh, t, th1);
    } else if op.FindByName? {
      var quit := Release(SwRwlock, Done);
      var th1 := Reading(sh, t, th);
      var th2 := ScanEffect(sh, t, -1, None, quit, quit, th1);
      Quits(sh, t, SwRwlock, th2);
    } else {
      var th1 := LockPair(sh, t, VlinkRwlock, Sharing, Done, th);
      Ended(sh, t, th1);
    }
  }

  lemma DriverEffect(sh: Shared, t: Tid, op: Operation, th: Thread)
    requires Registry(sh) && th.code == Program(op) && (op.DetachOnePort? || op.PortAdmin? || op.Driver?)
    ensures Outcome(sh, t, th) == sh && Story(sh, t, th) == Expected(sh, op)
  {
    if op.DetachOnePort? {
      var th1 := DetachEffect(sh, t, op.dpid, op.port, Done, Done, th);
      Ended(sh, t, th1);
    } else if op.PortAdmin? {
      var quit := Release(PmMutex, Done);
      var th1 := Reading(sh, t, th);
      var th2 := th1;
      if op.portFound { th2 := CallbacksEffect(sh, t, op.callbacks, quit, th1); }
      Quits(sh, t, PmMutex, th2);
    } else {
      var th1 := CallbacksEffect(sh, t, op.callbacks, Done, th);
      Ended(sh, t, th1);
    }
  }

  lemma StoryIsExpected(sh: Shared, t: Tid, op: Operation, th: Thread)
    requires Registry(sh) && sh.loose.None? && th.code == Program(op)
    ensures Story(sh, t, th) == Expected(sh, op)
    ensures !op.CreateSwitch? && !op.DestroySwitch? ==> Outcome(sh, t, th) == sh
  {
    match op
    case CreateSwitch(info, supported, cbs) => CreateEffect(sh, t, info, supported, cbs, th);
    case DestroySwitch(d, snapshotOk, ports, cbs) => DestroyEffect(sh, t, d, snapshotOk, ports, cbs, th);
    case AttachPort(d, portFound, driverOk, cbs) => AttachEffect(sh, t, d, portFound, driverOk, cbs, th);
    case ConnectSwitches(d, e, driverOk, cbs) => ConnectEffect(sh, t, d, e, driverOk, cbs, th);
    case DetachOnePort(_, _) => DriverEffect(sh, t, op, th);
    case PortAdmin(_, _) => DriverEffect(sh, t, op, th);
    case Driver(_) => DriverEffect(sh, t, op, th);
    case _ => ReaderEffect(sh, t, op, th);
  }

  // ----- Operations that run alone -----

  lemma SpawnedAlone(s: State, op: Operation)
    requires Inv(s) && AllDone(s)
    ensures var s' := Apply(s, Spawn(op)); Inv(s') && Alone(s', |s.threads|) && s.shared.loose.None?
  {
    SpawnKeepsInv(s, op);
    forall u | 0 <= u < |s.threads| ensures s.threads[u].code == Done {
      assert s.threads[u] in s.threads;
    }
    if s.shared.loose.Some? { LooseIsHeld(s); }
  }

  lemma LooseIsHeld(s: State)
    requires Inv(s) && s.shared.loose.Some?
    ensures !AllDone(s)
  {
    var i := s.shared.loose.value.0;
    assert ThreadOk(s.shared, i, s.threads[i]);
    assert s.threads[i].code != Done && s.threads[i] in s.threads;
  }

  /** An operation that is started when all others have ended, and runs to its end. */
  ghost predicate RunsAlone(before: seq<Action>, op: Operation, run: seq<Action>) {
    && LegalRun(INIT, before) && AllDone(After(INIT, before))
    && var s := Apply(After(INIT, before), Spawn(op));
    LegalRun(s, run) && AllSteps(run) && AllDone(After(s, run))
  }

  /** The shared state in which it is started. */
  ghost function Found(before: seq<Action>): Shared
    requires LegalRun(INIT, before)
  {
    After(INIT, before).shared
  }

  ghost function Watched(before: seq<Action>, op: Operation, run: seq<Action>): seq<Event>
    requires RunsAlone(before, op, run)
  {
    Observed(Apply(After(INIT, before), Spawn(op)), run)
  }

  /** What is seen of an operation that runs alone, on every schedule, is what is expected of it. */
  lemma LoneStory(before: seq<Action>, op: Operation, run: seq<Action>)
    requires RunsAlone(before, op, run)
    ensures Registry(Found(before)) && Watched(before, op, run) == Expected(Found(before), op)
    ensures !op.CreateSwitch? && !op.DestroySwitch? ==>
              After(Apply(After(INIT, before), Spawn(op)), run).shared == Found(before)
  {
    var s, t := After(INIT, before), |After(INIT, before).threads|;
    RunKeepsInv(INIT, before);
    SpawnedAlone(s, op);
    LoneRun(Apply(s, Spawn(op)), t, run);
    StoryIsExpected(s.shared, t, op, Apply(s, Spawn(op)).threads[t]);
  }

  // ----- Which switches are notified -----

  /** The call of the driver is for the switch with that dpid. */
  ghost predicate About(cb: Callback, d: Dpid) {
    || cb == PacketIn(d) || cb == FlowRemoved(d) || cb == PortChanged(Some(d))
    || cb == PortDeleted(true, Some(d)) || cb == PortDeleted(false, Some(d))
  }

  ghost function Abouts(cbs: seq<Callback>, d: Dpid): nat {
    if cbs == [] then 0 else (if About(cbs[0], d) then 1 else 0) + Abouts(cbs[1..], d)
  }

  ghost function Times(events: seq<Event>, d: Dpid): nat {
    multiset(events)[Reached(d, Sharing)]
  }

  lemma TimesBoth(a: seq<Event>, b: seq<Event>, d: Dpid)
    ensures Times(a + b, d) == Times(a, d) + Times(b, d)
  {
  }

  lemma HeardOneTimes(sh: Shared, cb: Callback, d: Dpid)
    ensures Times(HeardOne(sh, cb), d) == if d in sh.switchs && d != sh.under && About(cb, d) then 1 else 0
  {
    AboutIs(cb, d);
    NotifiedTimes(sh, Concerned(cb), d);
    TimesBoth([Vlinks(Exclusive)], NotifiedAny(sh, Concerned(cb)), d);
  }

  lemma AboutIs(cb: Callback, d: Dpid)
    ensures About(cb, d) <==> Concerned(cb) == Some(d)
  {
  }

  lemma NotifiedTimes(sh: Shared, d: Option<Dpid>, e: Dpid)
    ensures Times(NotifiedAny(sh, d), e) == if d == Some(e) && e in sh.switchs && e != sh.under then 1 else 0
  {
  }

  lemma {:induction false} HeardTimes(sh: Shared, cbs: seq<Callback>, d: Dpid)
    ensures Times(Heard(sh, cbs), d) == if d in sh.switchs && d != sh.under then Abouts(cbs, d) else 0
  {
    if cbs != [] {
      HeardTimes(sh, cbs[1..], d);
      HeardOneTimes(sh, cbs[0], d);
      TimesBoth(HeardOne(sh, cbs[0]), Heard(sh, cbs[1..]), d);
    }
  }

  lemma ExpectedTimes(before: seq<Action>, op: Operation, run: seq<Action>, d: Dpid)
    requires RunsAlone(before, op, run)
    ensures Registry(Found(before)) && Times(Watched(before, op, run), d) == Times(Expected(Found(before), op), d)
  {
    LoneStory(before, op, run);
  }

  lemma AttachTimes(sh: Shared, d: Dpid, portFound: bool, driverOk: bool, cbs: seq<Callback>)
    ensures Times(AttachSeen(sh, d, portFound, driverOk, cbs), d)
            == if portFound && d in sh.switchs && d != sh.under
               then Abouts(cbs, d) + (if driverOk then 1 else 0) else 0
  {
    HeardTimes(sh, cbs, d);
    var last := if driverOk then Notified(sh, d) else [];
    TimesBoth(Heard(sh, cbs), last, d);
    TimesBoth([Asked(d, d in sh.switchs)], if d !in sh.switchs then [] else Heard(sh, cbs) + last, d);
  }

  /** An attached port is made known to its switch, besides what the driver calls about the switch, if
      and only if the port and the switch exist, the driver succeeds and the switch is not marked. */
  lemma AttachReaches(before: seq<Action>, op: Operation, run: seq<Action>)
    requires RunsAlone(before, op, run) && op.AttachPort?
    ensures var sh, d := Found(before), op.dpid;
            Times(Watched(before, op, run), d)
            == if op.portFound && d in sh.switchs && d != sh.under
               then Abouts(op.callbacks, d) + (if op.driverOk then 1 else 0) else 0
  {
    ExpectedTimes(before, op, run, op.dpid);
    AttachTimes(Found(before), op.dpid, op.portFound, op.driverOk, op.callbacks);
  }

  lemma DetachTimes(sh: Shared, d: Dpid, det: Detachment, e: Dpid)
    ensures Times(DetachHeard(sh, d, det), e)
            == if det.portFound && det.attachedHere && e in sh.switchs && e != sh.under
               then Abouts(det.callbacks, e) + (if e == d && det.driverOk && det.stillExists then 1 else 0) else 0
  {
    HeardTimes(sh, det.callbacks, e);
    var last := if det.driverOk && det.stillExists then Notified(sh, d) else [];
    NotifiedTimes(sh, Some(d), e);
    TimesBoth(Heard(sh, det.callbacks), last, e);
  }

  /** A detached port that still exists is made known to its switch. */
  lemma DetachReaches(before: seq<Action>, op: Operation, run: seq<Action>)
    requires RunsAlone(before, op, run) && op.DetachOnePort?
    ensures var sh, d, det := Found(before), op.dpid, op.port;
            Times(Watched(before, op, run), d)
            == if det.portFound && det.attachedHere && d in sh.switchs && d != sh.under
               then Abouts(det.callbacks, d) + (if det.driverOk && det.stillExists then 1 else 0) else 0
  {
    ExpectedTimes(before, op, run, op.dpid);
    DetachTimes(Found(before), op.dpid, op.port, op.dpid);
  }

  lemma {:induction false} MarkedDetachTimes(sh: Shared, d: Dpid, ports: seq<Detachment>)
    requires sh.under == d
    ensures Times(AllDetachHeard(sh, d, ports), d) == 0
  {
    if ports != [] {
      MarkedDetachTimes(sh, d, ports[1..]);
      DetachTimes(sh, d, ports[0], d);
      TimesBoth(DetachHeard(sh, d, ports[0]), if Detaches(ports[0]) then AllDetachHeard(sh, d, ports[1..]) else [], d);
    }
  }

  lemma DestroyTimes(sh: Shared, d: Dpid, snapshotOk: bool, ports: seq<Detachment>, cbs: seq<Callback>)
    ensures Times(DestroySeen(sh, d, snapshotOk, ports, cbs), d) == 0
  {
    if d in sh.switchs && snapshotOk {
      var a := AllDetachHeard(sh.(under := d), d, ports);
      var b := if AllDetach(ports) then Heard(Destroyed(sh, d).(under := d), cbs) else [];
      MarkedDetachTimes(sh.(under := d), d, ports);
      HeardTimes(Destroyed(sh, d).(under := d), cbs, d);
      TimesBoth(a, b, d);
      TimesBoth([Asked(d, true)], a + b, d);
    }
  }

  /** A switch gets no notification during its own destruction, whatever the driver calls. */
  lemma DestroyIsSilent(before: seq<Action>, op: Operation, run: seq<Action>)
    requires RunsAlone(before, op, run) && op.DestroySwitch?
    ensures Times(Watched(before, op, run), op.dpid) == 0
  {
    ExpectedTimes(before, op, run, op.dpid);
    DestroyTimes(Found(before), op.dpid, op.snapshotOk, op.ports, op.callbacks);
  }

  /** The calls the driver makes during the detachments of a destruction, up to the port that fails. */
  ghost function MadeDuring(ports: seq<Detachment>): seq<Callback> {
    if ports == [] then []
    else (if ports[0].portFound && ports[0].attachedHere then ports[0].callbacks else [])
         + if Detaches(ports[0]) then MadeDuring(ports[1..]) else []
  }

  lemma {:induction false} AboutsBoth(a: seq<Callback>, b: seq<Callback>, d: Dpid)
    ensures Abouts(a + b, d) == Abouts(a, d) + Abouts(b, d)
  {
    if a == [] {
      assert a + b == b;
    } else {
      assert (a + b)[1..] == a[1..] + b;
      AboutsBoth(a[1..], b, d);
    }
  }

  lemma {:induction false} OtherDetachTimes(sh: Shared, d: Dpid, ports: seq<Detachment>, e: Dpid)
    requires e in sh.switchs && e != sh.under && e != d
    ensures Times(AllDetachHeard(sh, d, ports), e) == Abouts(MadeDuring(ports), e)
  {
    if ports != [] {
      var p, rest := ports[0], if Detaches(ports[0]) then MadeDuring(ports[1..]) else [];
      OtherDetachTimes(sh, d, ports[1..], e);
      DetachTimes(sh, d, p, e);
      TimesBoth(DetachHeard(sh, d, p), if Detaches(p) then AllDetachHeard(sh, d, ports[1..]) else [], e);
      AboutsBoth(if p.portFound && p.attachedHere then p.callbacks else [], rest, e);
    }
  }

  lemma OtherDestroyTimes(sh: Shared, d: Dpid, ports: seq<Detachment>, cbs: seq<Callback>, e: Dpid)
    requires d in sh.switchs && e in sh.switchs && e != d
    ensures Times(DestroySeen(sh, d, true, ports, cbs), e)
            == Abouts(MadeDuring(ports), e) + if AllDetach(ports) then Abouts(cbs, e) else 0
  {
    var a := AllDetachHeard(sh.(under := d), d, ports);
    var b := if AllDetach(ports) then Heard(Destroyed(sh, d).(under := d), cbs) else [];
    OtherDetachTimes(sh.(under := d), d, ports, e);
    HeardTimes(Destroyed(sh, d).(under := d), cbs, e);
    TimesBoth(a, b, e);
    TimesBoth([Asked(d, true)], a + b, e);
  }

  /** Every other switch gets all the notifications the driver calls for meanwhile, also one that was
      left marked before. */
  lemma DestroyReachesOthers(before: seq<Action>, op: Operation, run: seq<Action>, e: Dpid)
    requires RunsAlone(before, op, run) && op.DestroySwitch? && op.snapshotOk
    requires op.dpid in Found(before).switchs && e in Found(before).switchs && e != op.dpid
    ensures Times(Watched(before, op, run), e)
            == Abouts(MadeDuring(op.ports), e) + if AllDetach(op.ports) then Abouts(op.callbacks, e) else 0
  {
    ExpectedTimes(before, op, run, e);
    OtherDestroyTimes(Found(before), op.dpid, op.ports, op.callbacks, e);
  }

  /** Whether an operation gets as far as calling the driver. */
  ghost predicate CallsDriver(sh: Shared, op: Operation)
    requires Registry(sh)
  {
    match op
    case CreateSwitch(info, supported, _) =>
      info.dpid !in sh.switchs && supported && forall d | d in sh.switchs :: sh.live[sh.switchs[d]].name != info.name
    case ConnectSwitches(d, e, _, _) => d in sh.switchs && e in sh.switchs
    case PortAdmin(portFound, _) => portFound
    case Driver(_) => true
    case _ => false
  }

  lemma {:induction false} LooksTimes(sh: Shared, after: int, wanted: Option<string>, d: Dpid)
    requires Registry(sh) && -1 <= after
    ensures Times(Looks(sh, after, wanted), d) == 0
    decreases DPID_LIMIT - after, |sh.switchs|
  {
    if after + 1 < DPID_LIMIT {
      LooksTimes(sh, after + 1, wanted, d);
      TimesBoth([Compared(after + 1)], Looks(sh, after + 1, wanted), d);
    }
  }

  lemma CreateTimes(sh: Shared, info: SwitchInfo, supported: bool, cbs: seq<Callback>, d: Dpid)
    requires Registry(sh)
    ensures Times(CreateSeen(sh, info, supported, cbs), d)
            == if CallsDriver(sh, CreateSwitch(info, supported, cbs)) then Times(Heard(sh, cbs), d) else 0
  {
    var a := Looks(sh, -1, Some(info.name));
    var b := if NamedAfter(sh, -1, info.name) || !supported then [] else Heard(sh, cbs);
    LooksTimes(sh, -1, Some(info.name), d);
    TimesBoth(a, b, d);
    TimesBoth([Asked(info.dpid, info.dpid in sh.switchs)], if info.dpid in sh.switchs then [] else a + b, d);
  }

  lemma ConnectTimes(sh: Shared, d: Dpid, e: Dpid, driverOk: bool, cbs: seq<Callback>, x: Dpid)
    ensures Times(ConnectSeen(sh, d, e, driverOk, cbs), x)
            == if d in sh.switchs && e in sh.switchs then Times(Heard(sh, cbs), x) else 0
  {
    var last := if driverOk then [Vlinks(Exclusive)] else [];
    TimesBoth(Heard(sh, cbs), last, x);
    var inner := if e !in sh.switchs then [] else Heard(sh, cbs) + last;
    TimesBoth([Asked(e, e in sh.switchs)], inner, x);
    TimesBoth([Asked(d, d in sh.switchs)], if d !in sh.switchs then [] else [Asked(e, e in sh.switchs)] + inner, x);
  }

  /** What the driver calls during the other operations, or from a thread of its own, reaches every
      switch that is registered and not marked, once for each call about it, if the operation gets as
      far as calling the driver. */
  lemma CallsReach(before: seq<Action>, op: Operation, run: seq<Action>, d: Dpid)
    requires RunsAlone(before, op, run) && (op.CreateSwitch? || op.ConnectSwitches? || op.PortAdmin? || op.Driver?)
    ensures var sh := Found(before);
            Registry(sh)
            && Times(Watched(before, op, run), d)
               == if CallsDriver(sh, op) && d in sh.switchs && d != sh.under then Abouts(op.callbacks, d) else 0
  {
    var sh := Found(before);
    ExpectedTimes(before, op, run, d);
    HeardTimes(sh, op.callbacks, d);
    if op.CreateSwitch? { CreateTimes(sh, op.info, op.supported, op.callbacks, d); }
    if op.ConnectSwitches? { ConnectTimes(sh, op.dpid1, op.dpid2, op.driverOk, op.callbacks, d); }
  }

  /** A single call from a thread of the driver about a switch reaches it if and only if the switch is
      registered and not marked. */
  lemma CallReaches(before: seq<Action>, cb: Callback, run: seq<Action>, d: Dpid)
    requires RunsAlone(before, Driver([cb]), run) && About(cb, d)
    ensures Reached(d, Sharing) in Watched(before, Driver([cb]), run)
            <==> d in Found(before).switchs && d != Found(before).under
  {
    CallsReach(before, Driver([cb]), run, d);
    assert [cb][1..] == [];
    assert Abouts([cb], d) == 1;
  }

  /** The readers and the two operations that use a pointer: which lock they hold, and when. */
  lemma ReadersReach(before: seq<Action>, op: Operation, run: seq<Action>)
    requires RunsAlone(before, op, run)
    ensures var e := Watched(before, op, run);
            && (op.ReconfigureSwitch? ==> e == if op.dpid in Found(before).switchs then [Reached(op.dpid, Exclusive)] else [])
            && (op.QuerySwitch? ==> e == if op.dpid in Found(before).switchs then [Reached(op.dpid, Sharing)] else [])
            && (op.SwitchExists? ==> e == [Asked(op.dpid, op.dpid in Found(before).switchs)])
            && (op.VlinkPair? ==> e == [Vlinks(Sharing)])
  {
    LoneStory(before, op, run);
  }

  // ----- Changes of the cache of virtual links -----

  ghost function Writes(events: seq<Event>): nat {
    multiset(events)[Vlinks(Exclusive)]
  }

  lemma WritesBoth(a: seq<Event>, b: seq<Event>)
    ensures Writes(a + b) == Writes(a) + Writes(b)
  {
  }

  /** The ends of virtual links that the driver deletes. */
  ghost function Deletions(cbs: seq<Callback>): nat {
    if cbs == [] then 0 else (if cbs[0].PortDeleted? && cbs[0].isVlink then 1 else 0) + Deletions(cbs[1..])
  }

  lemma HeardOneWrites(sh: Shared, cb: Callback)
    ensures Writes(HeardOne(sh, cb)) == if cb.PortDeleted? && cb.isVlink then 1 else 0
  {
    assert Writes(NotifiedAny(sh, Concerned(cb))) == 0;
    WritesBoth([Vlinks(Exclusive)], NotifiedAny(sh, Concerned(cb)));
  }

  lemma {:induction false} HeardWrites(sh: Shared, cbs: seq<Callback>)
    ensures Writes(Heard(sh, cbs)) == Deletions(cbs)
  {
    if cbs != [] {
      HeardWrites(sh, cbs[1..]);
      HeardOneWrites(sh, cbs[0]);
      WritesBoth(HeardOne(sh, cbs[0]), Heard(sh, cbs[1..]));
    }
  }

  lemma ConnectWritesTimes(sh: Shared, d: Dpid, e: Dpid, driverOk: bool, cbs: seq<Callback>)
    ensures Writes(ConnectSeen(sh, d, e, driverOk, cbs))
            == if d in sh.switchs && e in sh.switchs then Deletions(cbs) + (if driverOk then 1 else 0) else 0
  {
    var last := if driverOk then [Vlinks(Exclusive)] else [];
    HeardWrites(sh, cbs);
    WritesBoth(Heard(sh, cbs), last);
    var inner := if e !in sh.switchs then [] else Heard(sh, cbs) + last;
    WritesBoth([Asked(e, e in sh.switchs)], inner);
    WritesBoth([Asked(d, d in sh.switchs)], if d !in sh.switchs then [] else [Asked(e, e in sh.switchs)] + inner);
  }

  /** A link goes into the cache if and only if both switches exist and the driver makes it; each
      deleted end of a link that the driver calls about is taken out. */
  lemma LinksWritten(before: seq<Action>, op: Operation, run: seq<Action>)
    requires RunsAlone(before, op, run)
    ensures op.ConnectSwitches? ==>
              Writes(Watched(before, op, run))
              == if op.dpid1 in Found(before).switchs && op.dpid2 in Found(before).switchs
                 then Deletions(op.callbacks) + (if op.driverOk then 1 else 0) else 0
    ensures op.Driver? ==> Writes(Watched(before, op, run)) == Deletions(op.callbacks)
  {
    LoneStory(before, op, run);
    if op.ConnectSwitches? { ConnectWritesTimes(Found(before), op.dpid1, op.dpid2, op.driverOk, op.callbacks); }
    if op.Driver? { HeardWrites(Found(before), op.callbacks); }
  }

  // ----- Which names are looked at -----

  /** Only names are looked at, of switches above that dpid and in ascending order. */
  ghost predicate Ascending(e: seq<Event>, after: int) {
    && (forall i | 0 <= i < |e| :: e[i].Compared? && after < e[i].dpid)
    && (forall i, j | 0 <= i < j < |e| :: e[i].dpid < e[j].dpid)
  }

  lemma AscendingOn(e: seq<Event>, k: Dpid)
    requires Ascending(e, k)
    ensures Ascending(e, k - 1) && Ascending([Compared(k)] + e, k - 1)
  {
  }

  lemma {:induction false} LooksAscend(sh: Shared, after: int, wanted: Option<string>)
    requires Registry(sh) && -1 <= after
    ensures Ascending(Looks(sh, after, wanted), after)
    decreases DPID_LIMIT - after, |sh.switchs|
  {
    if after + 1 < DPID_LIMIT {
      LooksAscend(sh, after + 1, wanted);
      AscendingOn(Looks(sh, after + 1, wanted), after + 1);
    }
  }

  ghost predicate FirstUpTo(sh: Shared, after: int, wanted: Option<string>, d: Dpid)
    requires Registry(sh)
  {
    forall x | x in sh.switchs && after < x < d :: wanted != Some(sh.live[sh.switchs[x]].name)
  }

  lemma {:induction false} LooksAt(sh: Shared, after: int, wanted: Option<string>, d: Dpid)
    requires Registry(sh) && -1 <= after
    ensures Compared(d) in Looks(sh, after, wanted) <==> d in sh.switchs && after < d && FirstUpTo(sh, after, wanted, d)
    decreases DPID_LIMIT - after, |sh.switchs|
  {
    if after + 1 < DPID_LIMIT { LooksAt(sh, after + 1, wanted, d); }
  }

  /** A search by name looks at all switches in ascending order. */
  lemma SearchLooks(before: seq<Action>, run: seq<Action>, d: Dpid)
    requires RunsAlone(before, FindByName, run)
    ensures Ascending(Watched(before, FindByName, run), -1)
    ensures Compared(d) in Watched(before, FindByName, run) <==> d in Found(before).switchs
  {
    LoneStory(before, FindByName, run);
    LooksAscend(Found(before), -1, None);
    LooksAt(Found(before), -1, None, d);
  }

  /** A creation looks at them up to the first one that has the name. */
  lemma CreationLooks(before: seq<Action>, op: Operation, run: seq<Action>, d: Dpid)
    requires RunsAlone(before, op, run) && op.CreateSwitch?
    ensures var sh := Found(before);
            Registry(sh)
            && (Compared(d) in Watched(before, op, run)
                <==> d in sh.switchs && op.info.dpid !in sh.switchs && FirstUpTo(sh, -1, Some(op.info.name), d))
  {
    LoneStory(before, op, run);
    LooksAt(Found(before), -1, Some(op.info.name), d);
    HeardComparesNothing(Found(before), op.callbacks, d);
  }

  lemma {:induction false} HeardComparesNothing(sh: Shared, cbs: seq<Callback>, d: Dpid)
    ensures Compared(d) !in Heard(sh, cbs)
  {
    if cbs != [] { HeardComparesNothing(sh, cbs[1..], d); }
  }
}
