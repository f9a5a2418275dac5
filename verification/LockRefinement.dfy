/**
 Every interleaving of operations changes the registry as a sequence of creations and destructions
 does, one after the other, that `SwitchManager` allows; and what is left of the mark when all
 operations have ended.
 */
module LockRefinement {
  import opened Wrappers
  import opened LockProtocol
  import opened LockSafety
  import opened LockAlone
  import opened LockEffects
  import SwitchManager

  // ----- What is left of an operation -----

  /** The code is what is left of the operation: it changes the map only as the operation asks for,
      and only if no answer of the driver was against it. With `marked`, the mark of the operation
      is still to be taken back before the mutex is released. */
  ghost predicate Does(c: Code, op: Operation, marked: bool)
    decreases c
  {
    match c
    case Done => !marked
    case Acquire(_, _, k) => Does(k, op, marked)
    case TryRead(_, a, b) => Does(a, op, marked) && Does(b, op, marked)
    case Release(l, k) => (l == SwMutex ==> !marked) && Does(k, op, marked)
    case IfUnder(_, a, b) => Does(a, op, marked) && Does(b, op, marked)
    case IfPresent(_, a, b) => Does(a, op, marked) && Does(b, op, marked)
    case Fetch(_, a, b) => Does(a, op, marked) && Does(b, op, marked)
    case Use(_, k) => Does(k, op, marked)
    case Scan(_, _, a, b) => Does(a, op, marked) && Does(b, op, marked)
    case Compare(_, _, a, b) => Does(a, op, marked) && Does(b, op, marked)
    case Allocate(info, k) => op.CreateSwitch? && info == op.info && Does(k, op, marked)
    case Insert(_, k) => op.CreateSwitch? && op.supported && Does(k, op, marked)
    case Mark(d, k) => !marked && op.DestroySwitch? && d == op.dpid && op.snapshotOk && Does(k, op, AllDetach(op.ports))
    case Unmark(k) => Does(k, op, false)
    case Unlink(d, k) =>
      marked && op.DestroySwitch? && d == op.dpid && op.snapshotOk && AllDetach(op.ports) && Does(k, op, marked)
    case Delete(k) => Does(k, op, marked)
  }

  lemma NotifyDoes(d: Dpid, k: Code, op: Operation, marked: bool)
    requires Does(k, op, marked)
    ensures Does(Notify(d, k), op, marked)
  {
    assert Does(Release(SwRwlock, k), op, marked);
    assert Does(Fetch(d, Use(d, Release(SwRwlock, k)), Release(SwRwlock, k)), op, marked);
  }

  lemma AttachedDoes(d: Option<Dpid>, k: Code, op: Operation, marked: bool)
    requires Does(k, op, marked)
    ensures Does(NotifyAttached(d, k), op, marked)
  {
    if d.Some? { NotifyDoes(d.value, k, op, marked); }
  }

  lemma LockPairDoes(l: Lock, m: Mode, k: Code, op: Operation, marked: bool)
    requires Does(k, op, marked) && l != SwMutex
    ensures Does(Acquire(l, m, Release(l, k)), op, marked)
  {
    assert Does(Release(l, k), op, marked);
  }

  lemma CallbackDoes(cb: Callback, k: Code, op: Operation, marked: bool)
    requires Does(k, op, marked)
    ensures Does(RunCallback(cb, k), op, marked)
  {
    match cb
    case PortChanged(d) => AttachedDoes(d, k, op, marked);
    case PortDeleted(isVlink, d) =>
      AttachedDoes(d, k, op, marked);
      if isVlink { LockPairDoes(VlinkRwlock, Exclusive, NotifyAttached(d, k), op, marked); }
    case PacketIn(d) => NotifyDoes(d, k, op, marked);
    case FlowRemoved(d) => NotifyDoes(d, k, op, marked);
  }

  lemma {:induction false} CallbacksDo(cbs: seq<Callback>, k: Code, op: Operation, marked: bool)
    requires Does(k, op, marked)
    ensures Does(RunCallbacks(cbs, k), op, marked)
  {
    if cbs != [] {
      CallbacksDo(cbs[1..], k, op, marked);
      CallbackDoes(cbs[0], RunCallbacks(cbs[1..], k), op, marked);
    }
  }

  lemma ExistsDoes(d: Dpid, yes: Code, no: Code, op: Operation)
    requires Does(yes, op, false) && Does(no, op, false)
    ensures Does(Exists(d, yes, no), op, false)
  {
    assert Does(Release(SwRwlock, yes), op, false) && Does(Release(SwRwlock, no), op, false);
  }

  lemma ReleaseDoes(l: Lock, k: Code, op: Operation, marked: bool)
    requires Does(k, op, marked) && l != SwMutex
    ensures Does(Release(l, k), op, marked)
  {
  }

  /** A detachment that fails goes on with `failed`, any other with `ok`. */
  lemma DetachDoes(d: Dpid, det: Detachment, ok: Code, failed: Code, op: Operation, marked: bool)
    requires Does(if Detaches(det) then ok else failed, op, marked)
    ensures Does(DetachPort(d, det, ok, failed), op, marked)
  {
    var next := Release(PmMutex, if Detaches(det) then ok else failed);
    ReleaseDoes(PmMutex, if Detaches(det) then ok else failed, op, marked);
    if det.portFound && det.attachedHere {
      var rest := if det.driverOk && det.stillExists then Notify(d, next) else next;
      if det.driverOk && det.stillExists { NotifyDoes(d, next, op, marked); }
      CallbacksDo(det.callbacks, rest, op, marked);
      assert DetachPort(d, det, ok, failed) == Acquire(PmMutex, Exclusive, RunCallbacks(det.callbacks, rest));
    } else {
      assert DetachPort(d, det, ok, failed) == Acquire(PmMutex, Exclusive, next);
    }
  }

  lemma {:induction false} DetachAllDoes(d: Dpid, ports: seq<Detachment>, ok: Code, failed: Code, op: Operation, marked: bool)
    requires Does(if AllDetach(ports) then ok else failed, op, marked)
    ensures Does(DetachAll(d, ports, ok, failed), op, marked)
  {
    if ports != [] {
      AllDetachFirst(ports);
      var rest := DetachAll(d, ports[1..], ok, failed);
      if Detaches(ports[0]) { DetachAllDoes(d, ports[1..], ok, failed, op, marked); }
      DetachDoes(d, ports[0], rest, failed, op, marked);
    }
  }

  lemma CreateDoes(op: Operation)
    requires op.CreateSwitch?
    ensures Does(Program(op), op, false)
  {
    var quit := Release(SwMutex, Done);
    var add := Allocate(op.info, Insert(op.info.dpid, quit));
    assert Does(quit, op, false);
    if op.supported {
      assert Does(Insert(op.info.dpid, quit), op, false);
      CallbacksDo(op.callbacks, add, op, false);
    }
    var rest := if !op.supported then quit else RunCallbacks(op.callbacks, add);
    assert Does(Scan(-1, Some(op.info.name), quit, rest), op, false);
    assert Does(IfPresent(op.info.dpid, quit, Scan(-1, Some(op.info.name), quit, rest)), op, false);
  }

  lemma DestroyDoes(op: Operation)
    requires op.DestroySwitch?
    ensures Does(Program(op), op, false)
  {
    var d, all := op.dpid, AllDetach(op.ports);
    var quit := Release(SwMutex, Done);
    var finish := RunCallbacks(op.callbacks, Unmark(quit));
    var erase := Acquire(SwRwlock, Exclusive, Unlink(d, Release(SwRwlock, Delete(finish))));
    assert Does(quit, op, false);
    if op.snapshotOk {
      if all {
        assert Does(Unmark(quit), op, true);
        CallbacksDo(op.callbacks, Unmark(quit), op, true);
        assert Does(Delete(finish), op, true);
        assert Does(Release(SwRwlock, Delete(finish)), op, true);
        assert Does(Unlink(d, Release(SwRwlock, Delete(finish))), op, true);
      }
      DetachAllDoes(d, op.ports, erase, quit, op, all);
    }
    var yes := if !op.snapshotOk then quit else Mark(d, DetachAll(d, op.ports, erase, quit));
    assert Does(yes, op, false);
    assert Does(IfPresent(d, yes, quit), op, false);
  }

  lemma ConnectDoes(op: Operation)
    requires op.ConnectSwitches? || op.AttachPort?
    ensures Does(Program(op), op, false)
  {
    var quit := Release(PmMutex, Done);
    assert Does(quit, op, false);
    if op.AttachPort? {
      var rest := if op.driverOk then Notify(op.dpid, quit) else quit;
      NotifyDoes(op.dpid, quit, op, false);
      CallbacksDo(op.callbacks, rest, op, false);
      ExistsDoes(op.dpid, RunCallbacks(op.callbacks, rest), quit, op);
    } else {
      var addVlink := Acquire(VlinkRwlock, Exclusive, Release(VlinkRwlock, quit));
      var rest := if op.driverOk then addVlink else quit;
      assert Does(Release(VlinkRwlock, quit), op, false);
      CallbacksDo(op.callbacks, rest, op, false);
      ExistsDoes(op.dpid2, RunCallbacks(op.callbacks, rest), quit, op);
      ExistsDoes(op.dpid1, Exists(op.dpid2, RunCallbacks(op.callbacks, rest), quit), quit, op);
    }
  }

  lemma ReaderDoes(op: Operation)
    requires op.ReconfigureSwitch? || op.QuerySwitch? || op.FindByName? || op.VlinkPair? || op.SwitchExists?
    ensures Does(Program(op), op, false)
  {
    var quit := Release(SwRwlock, Done);
    assert Does(Done, op, false) && Does(quit, op, false);
    if op.SwitchExists? { ExistsDoes(op.dpid, Done, Done, op); }
    if op.FindByName? { assert Does(Scan(-1, None, quit, quit), op, false); }
    if op.QuerySwitch? || op.ReconfigureSwitch? {
      assert Does(Use(op.dpid, quit), op, false);
      assert Does(Fetch(op.dpid, Use(op.dpid, quit), quit), op, false);
    }
    if op.VlinkPair? { assert Does(Release(VlinkRwlock, Done), op, false); }
  }

  lemma ProgramDoes(op: Operation)
    ensures Does(Program(op), op, false)
  {
    match op
    case CreateSwitch(_, _, _) => CreateDoes(op);
    case DestroySwitch(_, _, _, _) => DestroyDoes(op);
    case AttachPort(_, _, _, _) => ConnectDoes(op);
    case ConnectSwitches(_, _, _, _) => ConnectDoes(op);
    case DetachOnePort(d, port) => DetachDoes(d, port, Done, Done, op, false);
    case PortAdmin(_, cbs) =>
      assert Does(Release(PmMutex, Done), op, false);
      CallbacksDo(cbs, Release(PmMutex, Done), op, false);
    case Driver(cbs) => CallbacksDo(cbs, Done, op, false);
    case _ => ReaderDoes(op);
  }

  // ----- Threads and their operations -----

  /** The thread does the operation. */
  ghost predicate Serves(th: Thread, op: Operation) {
    && (Does(th.code, op, false) || (SwMutex in th.held && Does(th.code, op, true)))
    && (th.facts.pointer.Fresh? ==> op.CreateSwitch? && th.facts.pointer.info == op.info)
  }

  lemma StepDoes(sh: Shared, th: Thread, readable: bool, op: Operation, marked: bool)
    requires Does(th.code, op, marked) && th.code != Done
    ensures var m := if th.code.Mark? then AllDetach(op.ports) else marked && !th.code.Unmark?;
            op.DestroySwitch? || !th.code.Mark? ==> Does(NextThread(sh, th, readable).code, op, m)
  {
  }

  /** The mutex stays with a thread whose mark is still to be taken back. */
  lemma StepKeepsMutex(sh: Shared, th: Thread, readable: bool, op: Operation)
    requires Does(th.code, op, true) && SwMutex in th.held
    ensures SwMutex in NextThread(sh, th, readable).held
  {
  }

  lemma MarkNeedsMutex(sh: Shared, t: Tid, th: Thread)
    requires Registry(sh) && ThreadOk(sh, t, th) && (th.code.Mark? || th.code.Unmark?)
    ensures SwMutex in th.held && NextThread(sh, th, true).held == th.held
  {
  }

  /** Only an allocation gives a new object. */
  lemma FreshComesFrom(sh: Shared, th: Thread, readable: bool)
    requires NextThread(sh, th, readable).facts.pointer.Fresh?
    ensures var p := NextThread(sh, th, readable).facts.pointer;
            p == th.facts.pointer || (th.code.Allocate? && p.info == th.code.info)
  {
  }

  lemma DestroyMarks(c: Code, op: Operation, marked: bool)
    requires Does(c, op, marked)
    ensures c.Mark? ==> op.DestroySwitch? && !marked && op.dpid == c.dpid
    ensures c.Allocate? ==> op.CreateSwitch? && op.info == c.info
  {
  }

  lemma StepServes(sh: Shared, t: Tid, th: Thread, readable: bool, op: Operation)
    requires Registry(sh) && ThreadOk(sh, t, th) && Serves(th, op) && th.code != Done
    ensures Serves(NextThread(sh, th, readable), op)
  {
    var th' := NextThread(sh, th, readable);
    var marked := Does(th.code, op, true) && SwMutex in th.held;
    DestroyMarks(th.code, op, marked);
    StepDoes(sh, th, readable, op, marked);
    if marked { StepKeepsMutex(sh, th, readable, op); }
    if th.code.Mark? { MarkNeedsMutex(sh, t, th); }
    if th'.facts.pointer.Fresh? { FreshComesFrom(sh, th, readable); }
  }

  ghost predicate AllServe(s: State, ops: seq<Operation>) {
    |s.threads| == |ops| && forall t | 0 <= t < |ops| :: Serves(s.threads[t], ops[t])
  }

  /** The operations after one more action. */
  ghost function Ops(ops: seq<Operation>, a: Action): seq<Operation> {
    if a.Spawn? then ops + [a.op] else ops
  }

  lemma ActionServes(s: State, ops: seq<Operation>, a: Action)
    requires Inv(s) && AllServe(s, ops) && Legal(s, a)
    ensures Inv(Apply(s, a)) && AllServe(Apply(s, a), Ops(ops, a))
  {
    match a
    case Spawn(op) =>
      SpawnKeepsInv(s, op);
      ProgramDoes(op);
    case Step(t) =>
      StepKeepsInv(s, t);
      assert ThreadOk(s.shared, t, s.threads[t]);
      StepServes(s.shared, t, s.threads[t], CanLock(s.threads, SwRwlock, Sharing), ops[t]);
  }

  // ----- The registry -----

  ghost function OperationError(s: SwitchManager.Switches, op: SwitchManager.Operation): Option<SwitchManager.Error> {
    match op
    case Create(version, dpid, name, supported) => SwitchManager.CreateError(s, version, dpid, name, supported)
    case Destroy(dpid, snapshot) => SwitchManager.DestroyError(s, dpid, snapshot)
  }

  /** The operation succeeds now, and takes the one registry to the other. */
  ghost predicate Succeeds(sh: Shared, sh': Shared, s: SwitchManager.Switches, op: SwitchManager.Operation)
    requires Registry(sh) && Registry(sh')
  {
    OperationError(s, op).None? && View(sh') == Names(SwitchManager.After(s, op))
  }

  /** Neither the dpid nor the name is in use when a new switch is inserted. */
  lemma InsertReady(sh: Shared, t: Tid, th: Thread, op: Operation)
    requires Registry(sh) && ThreadOk(sh, t, th) && Serves(th, op) && th.code.Insert?
    ensures op.CreateSwitch? && op.supported && th.code.dpid == op.info.dpid && op.info.dpid !in sh.switchs
    ensures th.pointer.Some? && th.pointer.value in sh.live && sh.live[th.pointer.value] == op.info
    ensures Unused(sh, DPID_LIMIT - 1, op.info.name)
  {
  }

  lemma InsertView(sh: Shared, d: Dpid, o: Object, sh': Shared)
    requires Registry(sh) && Registry(sh') && o in sh.live
    requires sh'.switchs == sh.switchs[d := o] && sh'.live == sh.live
    ensures View(sh') == View(sh)[d := sh.live[o].name]
  {
  }

  lemma InsertRefines(sh: Shared, t: Tid, th: Thread, op: Operation, s: SwitchManager.Switches) returns (op': SwitchManager.Operation)
    requires Registry(sh) && ThreadOk(sh, t, th) && Serves(th, op) && th.code.Insert? && View(sh) == Names(s)
    requires Registry(NextShared(sh, t, th))
    ensures SameOperation(op, op') && Succeeds(sh, NextShared(sh, t, th), s, op')
  {
    InsertReady(sh, t, th, op);
    var d, name := op.info.dpid, op.info.name;
    op' := SwitchManager.Create(SwitchManager.OF13, d, name, true);
    SameNames(sh, s, name);
    InsertView(sh, d, th.pointer.value, NextShared(sh, t, th));
    NamesChange(s, d, SwitchManager.Switch(d, name, SwitchManager.OF13));
  }

  lemma UnlinkReady(sh: Shared, t: Tid, th: Thread, op: Operation)
    requires Registry(sh) && ThreadOk(sh, t, th) && Serves(th, op) && th.code.Unlink?
    ensures op.DestroySwitch? && op.snapshotOk && AllDetach(op.ports) && th.code.dpid == op.dpid && op.dpid in sh.switchs
  {
  }

  lemma UnlinkView(sh: Shared, d: Dpid, sh': Shared)
    requires Registry(sh) && Registry(sh') && sh'.switchs == sh.switchs - {d} && sh'.live == sh.live
    ensures View(sh') == View(sh) - {d}
  {
  }

  lemma UnlinkRefines(sh: Shared, t: Tid, th: Thread, op: Operation, s: SwitchManager.Switches) returns (op': SwitchManager.Operation)
    requires Registry(sh) && ThreadOk(sh, t, th) && Serves(th, op) && th.code.Unlink? && View(sh) == Names(s)
    requires Registry(NextShared(sh, t, th))
    ensures SameOperation(op, op') && Succeeds(sh, NextShared(sh, t, th), s, op')
  {
    UnlinkReady(sh, t, th, op);
    op' := SwitchManager.Destroy(op.dpid, Some([]));
    SameNames(sh, s, "");
    UnlinkView(sh, op.dpid, NextShared(sh, t, th));
    NamesChange(s, op.dpid, SwitchManager.Switch(op.dpid, "", SwitchManager.OF13));
  }

  lemma OtherStepsKeepView(sh: Shared, t: Tid, th: Thread)
    requires Sound(sh) && ThreadOk(sh, t, th) && !th.code.Insert? && !th.code.Unlink?
    ensures Sound(NextShared(sh, t, th)) && View(NextShared(sh, t, th)) == View(sh)
  {
    SharedKept(sh, t, th);
    SameEntries(sh, t, th);
  }

  /** A new object is not in the map yet, and a deleted one no more. */
  lemma SameEntries(sh: Shared, t: Tid, th: Thread)
    requires Sound(sh) && ThreadOk(sh, t, th) && !th.code.Insert? && !th.code.Unlink?
    ensures var sh' := NextShared(sh, t, th);
            && sh'.switchs == sh.switchs
            && forall d <- sh.switchs :: sh.switchs[d] in sh'.live && sh'.live[sh.switchs[d]] == sh.live[sh.switchs[d]]
  {
  }

  /** A step of any thread in any interleaving either leaves the registry as it is, or is the
      insertion of a creation or the erase of a destruction. It then changes the registry as the
      operation of that thread does, and the operation meets none of its errors at that moment. */
  lemma StepRefines(s: State, t: Tid, op: Operation, m: SwitchManager.Switches) returns (op': Option<SwitchManager.Operation>)
    requires Inv(s) && t < |s.threads| && Enabled(s, t) && Serves(s.threads[t], op) && View(s.shared) == Names(m)
    ensures Inv(Advance(s, t))
    ensures op'.None? ==> View(Advance(s, t).shared) == View(s.shared)
    ensures op'.Some? ==> SameOperation(op, op'.value) && Succeeds(s.shared, Advance(s, t).shared, m, op'.value)
    ensures op'.Some? <==> s.threads[t].code.Insert? || s.threads[t].code.Unlink?
  {
    var th := s.threads[t];
    StepKeepsInv(s, t);
    assert ThreadOk(s.shared, t, th);
    if th.code.Insert? {
      var o := InsertRefines(s.shared, t, th, op, m);
      op' := Some(o);
    } else if th.code.Unlink? {
      var o := UnlinkRefines(s.shared, t, th, op, m);
      op' := Some(o);
    } else {
      OtherStepsKeepView(s.shared, t, th);
      op' := None;
    }
  }

  /** Operations of the manager that all succeed, each one of those started. */
  ghost predicate AllSucceed(m: SwitchManager.Switches, ops': seq<SwitchManager.Operation>, ops: seq<Operation>)
    decreases |ops'|
  {
    ops' == []
    || (OperationError(m, ops'[0]).None? && (exists i :: 0 <= i < |ops| && SameOperation(ops[i], ops'[0]))
        && AllSucceed(SwitchManager.After(m, ops'[0]), ops'[1..], ops))
  }

  /** The operations of a run, after those before it. */
  ghost function OpsAfter(ops: seq<Operation>, run: seq<Action>): seq<Operation>
    decreases |run|
  {
    if run == [] then ops else OpsAfter(Ops(ops, run[0]), run[1..])
  }

  lemma {:induction false} OpsGrow(ops: seq<Operation>, run: seq<Action>)
    ensures ops <= OpsAfter(ops, run)
    decreases |run|
  {
    if run != [] { OpsGrow(Ops(ops, run[0]), run[1..]); }
  }

  lemma OneMoreOperation(
    m: SwitchManager.Switches, op': SwitchManager.Operation, rest: seq<SwitchManager.Operation>, ops: seq<Operation>, i: nat)
    requires OperationError(m, op').None? && i < |ops| && SameOperation(ops[i], op')
    requires AllSucceed(SwitchManager.After(m, op'), rest, ops)
    ensures AllSucceed(m, [op'] + rest, ops)
    ensures SwitchManager.AfterAll(m, [op'] + rest) == SwitchManager.AfterAll(SwitchManager.After(m, op'), rest)
  {
    assert ([op'] + rest)[1..] == rest;
  }

  ghost predicate Refines(s: State, m: SwitchManager.Switches) {
    Inv(s) && View(s.shared) == Names(m)
  }

  /** What an action is for the manager, if anything, and the registry after it. */
  lemma ActionRefines(s: State, ops: seq<Operation>, a: Action, m: SwitchManager.Switches)
    returns (op': Option<SwitchManager.Operation>)
    requires Refines(s, m) && AllServe(s, ops) && Legal(s, a)
    ensures op'.None? ==> Refines(Apply(s, a), m)
    ensures op'.Some? ==>
              a.Step? && OperationError(m, op'.value).None? && SameOperation(ops[a.tid], op'.value)
              && Refines(Apply(s, a), SwitchManager.After(m, op'.value))
  {
    match a
    case Spawn(op) =>
      SpawnKeepsInv(s, op);
      op' := None;
    case Step(t) =>
      op' := StepRefines(s, t, ops[t], m);
  }

  lemma {:induction false} RunRefines(s: State, ops: seq<Operation>, m: SwitchManager.Switches, run: seq<Action>)
    returns (ops': seq<SwitchManager.Operation>)
    requires Refines(s, m) && AllServe(s, ops) && LegalRun(s, run)
    ensures Refines(After(s, run), SwitchManager.AfterAll(m, ops')) && AllSucceed(m, ops', OpsAfter(ops, run))
    decreases |run|
  {
    if run == [] {
      ops' := [];
    } else {
      var a := run[0];
      ActionServes(s, ops, a);
      var op' := ActionRefines(s, ops, a, m);
      if op'.None? {
        ops' := RunRefines(Apply(s, a), Ops(ops, a), m, run[1..]);
      } else {
        var rest := RunRefines(Apply(s, a), ops, SwitchManager.After(m, op'.value), run[1..]);
        OpsGrow(ops, run[1..]);
        assert OpsAfter(ops, run)[a.tid] == ops[a.tid];
        OneMoreOperation(m, op'.value, rest, OpsAfter(ops, run), a.tid);
        ops' := [op'.value] + rest;
      }
    }
  }

  /** In every interleaving the registry is what creations and destructions, one after the other, all
      of them successful and each one of those started, make of an empty one. */
  lemma RefinesManager(run: seq<Action>) returns (ops': seq<SwitchManager.Operation>)
    requires LegalRun(INIT, run)
    ensures Refines(After(INIT, run), SwitchManager.AfterAll(map[], ops')) && AllSucceed(map[], ops', OpsAfter([], run))
  {
    assert View(INIT.shared) == Names(map[]);
    ops' := RunRefines(INIT, [], map[], run);
  }

  // ----- The mark -----

  /** The destruction of that switch did not get past a port. */
  ghost predicate FailedAt(op: Operation, d: Dpid) {
    op.DestroySwitch? && op.dpid == d && op.snapshotOk && !AllDetach(op.ports)
  }

  ghost predicate SomeFailed(ops: seq<Operation>, d: Dpid) {
    exists i :: 0 <= i < |ops| && FailedAt(ops[i], d)
  }

  ghost predicate Pending(th: Thread, op: Operation) {
    SwMutex in th.held && Does(th.code, op, true)
  }

  ghost predicate MarkExplained(s: State, ops: seq<Operation>)
    requires |s.threads| == |ops|
  {
    || s.shared.under == 0
    || (exists t :: 0 <= t < |ops| && Pending(s.threads[t], ops[t]))
    || SomeFailed(ops, s.shared.under)
  }

  lemma StepExplains(s: State, ops: seq<Operation>, t: Tid)
    requires Inv(s) && AllServe(s, ops) && MarkExplained(s, ops) && t < |ops| && Enabled(s, t)
    ensures MarkExplained(Advance(s, t), ops)
  {
    var th, op, s' := s.threads[t], ops[t], Advance(s, t);
    var readable := CanLock(s.threads, SwRwlock, Sharing);
    assert ThreadOk(s.shared, t, th);
    if th.code.Mark? {
      MarkStep(s.shared, t, th, op);
      assert Pending(s'.threads[t], op) || FailedAt(op, s'.shared.under);
    } else if !th.code.Unmark? {
      assert s'.shared.under == s.shared.under;
      if u :| 0 <= u < |ops| && Pending(s.threads[u], ops[u]) {
        if u == t {
          StepDoes(s.shared, th, readable, op, true);
          StepKeepsMutex(s.shared, th, readable, op);
        }
        assert Pending(s'.threads[u], ops[u]);
      }
    }
  }

  lemma MarkStep(sh: Shared, t: Tid, th: Thread, op: Operation)
    requires Registry(sh) && ThreadOk(sh, t, th) && Serves(th, op) && th.code.Mark?
    ensures forall readable ::
              Pending(NextThread(sh, th, readable), op) || FailedAt(op, NextShared(sh, t, th).under)
  {
    MarkNeedsMutex(sh, t, th);
    DestroyMarks(th.code, op, false);
    StepDoes(sh, th, true, op, false);
  }

  lemma {:induction false} RunExplains(s: State, ops: seq<Operation>, run: seq<Action>)
    requires Inv(s) && AllServe(s, ops) && MarkExplained(s, ops) && LegalRun(s, run)
    ensures AllServe(After(s, run), OpsAfter(ops, run)) && MarkExplained(After(s, run), OpsAfter(ops, run))
    decreases |run|
  {
    if run != [] {
      var a := run[0];
      ActionServes(s, ops, a);
      match a {
        case Step(t) => StepExplains(s, ops, t);
        case Spawn(op) => SpawnExplains(s, ops, op);
      }
      RunExplains(Apply(s, a), Ops(ops, a), run[1..]);
    }
  }

  lemma SpawnExplains(s: State, ops: seq<Operation>, op: Operation)
    requires |s.threads| == |ops| && MarkExplained(s, ops)
    ensures MarkExplained(Apply(s, Spawn(op)), ops + [op])
  {
    var s', ops' := Apply(s, Spawn(op)), ops + [op];
    if u :| 0 <= u < |ops| && Pending(s.threads[u], ops[u]) {
      assert Pending(s'.threads[u], ops'[u]);
    }
    if SomeFailed(ops, s.shared.under) {
      var i :| 0 <= i < |ops| && FailedAt(ops[i], s.shared.under);
      assert FailedAt(ops'[i], s.shared.under);
    }
  }

  /** When all operations have ended, the mark is 0, or the dpid of a switch whose destruction failed. */
  lemma MarkAtRest(run: seq<Action>)
    requires LegalRun(INIT, run) && AllDone(After(INIT, run))
    ensures var under := After(INIT, run).shared.under;
            under == 0 || SomeFailed(OpsAfter([], run), under)
  {
    var s, ops := After(INIT, run), OpsAfter([], run);
    RunExplains(INIT, [], run);
    forall t | 0 <= t < |ops| ensures !Pending(s.threads[t], ops[t]) {
      assert s.threads[t] in s.threads;
    }
  }
}
