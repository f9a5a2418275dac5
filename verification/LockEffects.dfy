/**
 What the operations of the lock protocol do to the registry: a thread that runs alone changes it
 as `SwitchManager` says (what else is seen of it is in `LockAlone`); which notifications reach
 their switch among other threads; and which changes of the map exclude all readers.
 */
module LockEffects {
  import opened Wrappers
  import opened LockProtocol
  import opened LockSafety
  import opened LockAlone
  import SwitchManager

  // ----- The two models of the registry agree -----

  ghost function View(sh: Shared): map<Dpid, string>
    requires Registry(sh)
  {
    map d | d in sh.switchs :: sh.live[sh.switchs[d]].name
  }

  ghost function Names(s: SwitchManager.Switches): map<Dpid, string> {
    map d | d in s :: s[d].name
  }

  /** The same operation in both models: a version that is not supported counts as a socket type
      that is not, and of each port only matters whether it was detached. */
  ghost predicate SameOperation(op: Operation, op': SwitchManager.Operation) {
    match op'
    case Create(version, dpid, name, supported) =>
      op.CreateSwitch? && op.info == SwitchInfo(dpid, name)
      && op.supported == (supported && version != SwitchManager.OtherVersion)
    case Destroy(dpid, snapshot) =>
      op.DestroySwitch? && op.dpid == dpid && op.snapshotOk == snapshot.Some?
      && (snapshot.Some? ==> (AllDetach(op.ports) <==> false !in snapshot.value))
  }

  lemma SameNames(sh: Shared, s: SwitchManager.Switches, name: string)
    requires Registry(sh) && View(sh) == Names(s)
    ensures NamedAfter(sh, -1, name) <==> SwitchManager.Named(s, name)
    ensures forall d: Dpid :: d in sh.switchs <==> d in s
  {
    forall d: Dpid ensures d in sh.switchs <==> d in s {
      assert d in View(sh) <==> d in Names(s);
    }
    if NamedAfter(sh, -1, name) {
      var d :| d in sh.switchs && -1 < d && sh.live[sh.switchs[d]].name == name;
      assert View(sh)[d] == Names(s)[d];
    }
    if SwitchManager.Named(s, name) {
      var d :| d in s && s[d].name == name;
      assert View(sh)[d] == Names(s)[d];
    }
  }

  lemma CreatedView(sh: Shared, info: SwitchInfo)
    requires Registry(sh) && Objects(sh) && Registry(Created(sh, info))
    ensures View(Created(sh, info)) == View(sh)[info.dpid := info.name]
  {
  }

  lemma DestroyedView(sh: Shared, d: Dpid)
    requires Registry(sh) && d in sh.switchs && Registry(Destroyed(sh, d))
    ensures View(Destroyed(sh, d)) == View(sh) - {d}
  {
  }

  lemma NamesChange(s: SwitchManager.Switches, d: Dpid, x: SwitchManager.Switch)
    ensures Names(s[d := x]) == Names(s)[d := x.name] && Names(s - {d}) == Names(s) - {d}
  {
  }

  lemma OutcomeAgrees(sh: Shared, t: Tid, th: Thread, op: Operation, op': SwitchManager.Operation, s: SwitchManager.Switches)
    requires Sound(sh) && sh.loose.None? && SameOperation(op, op') && View(sh) == Names(s)
    requires th.code == Program(op) && Registry(Outcome(sh, t, th))
    ensures View(Outcome(sh, t, th)) == Names(SwitchManager.After(s, op'))
    ensures Outcome(sh, t, th).under
            == match op'
               case Create(_, _, _, _) => sh.under
               case Destroy(dpid, snapshot) =>
                 var error := SwitchManager.DestroyError(s, dpid, snapshot);
                 if error == Some(SwitchManager.DetachFailed) then dpid else if error.None? then 0 else sh.under
  {
    match op'
    case Create(version, dpid, name, supported) =>
      CreateEffect(sh, t, op.info, op.supported, op.callbacks, th);
      SameNames(sh, s, name);
      if Outcome(sh, t, th) != sh {
        CreatedView(sh, op.info);
        NamesChange(s, dpid, SwitchManager.Switch(dpid, name, version));
      }
    case Destroy(dpid, snapshot) =>
      DestroyEffect(sh, t, dpid, op.snapshotOk, op.ports, op.callbacks, th);
      SameNames(sh, s, "");
      if dpid in sh.switchs && op.snapshotOk && AllDetach(op.ports) {
        DestroyedView(sh, dpid);
        NamesChange(s, dpid, SwitchManager.Switch(dpid, "", SwitchManager.OtherVersion));
      }
  }

  /** When nothing else is going on, a creation or destruction that runs to its end changes the
      registry and the mark exactly as the model of the manager says, whatever the driver calls
      in between. */
  lemma LoneOperation(before: seq<Action>, op: Operation, op': SwitchManager.Operation, s: SwitchManager.Switches, run: seq<Action>)
    requires LegalRun(INIT, before) && AllDone(After(INIT, before)) && SameOperation(op, op')
    requires Registry(After(INIT, before).shared) && View(After(INIT, before).shared) == Names(s)
    requires var s0 := Apply(After(INIT, before), Spawn(op)); LegalRun(s0, run) && AllSteps(run) && AllDone(After(s0, run))
    ensures var sh0, sh := After(INIT, before).shared, After(Apply(After(INIT, before), Spawn(op)), run).shared;
            && Registry(sh) && View(sh) == Names(SwitchManager.After(s, op'))
            && sh.under
               == match op'
                  case Create(_, _, _, _) => sh0.under
                  case Destroy(dpid, snapshot) =>
                    var error := SwitchManager.DestroyError(s, dpid, snapshot);
                    if error == Some(SwitchManager.DetachFailed) then dpid else if error.None? then 0 else sh0.under
  {
    var quiet := After(INIT, before);
    var s0, t := Apply(quiet, Spawn(op)), |quiet.threads|;
    RunKeepsInv(INIT, before);
    SpawnedAlone(quiet, op);
    RunKeepsInv(s0, run);
    LoneRun(s0, t, run);
    OutcomeAgrees(s0.shared, t, s0.threads[t], op, op', s);
  }

  // ----- Which notifications reach their switch -----

  /** Two more steps take the thread to its switch, or to where it gives the lock back. */
  ghost predicate LooksUp(s: State, t: Tid, d: Dpid, k: Code)
    requires t < |s.threads|
  {
    && Enabled(s, t) && Enabled(Advance(s, t), t)
    && var th := Advance(Advance(s, t), t).threads[t];
    if d in s.shared.switchs
    then th.code == Use(d, Release(SwRwlock, k)) && th.pointer == Some(s.shared.switchs[d])
    else th.code == Release(SwRwlock, k)
  }

  /** A notification that can read the registry at once reaches its switch if and only if the
      switch is registered and is not the one marked as under destruction. */
  lemma Delivery(s: State, t: Tid, d: Dpid, k: Code)
    requires t < |s.threads| && s.threads[t].code == Notify(d, k) && CanLock(s.threads, SwRwlock, Sharing)
    ensures Enabled(s, t)
    ensures if d == s.shared.under then Advance(s, t).threads[t] == s.threads[t].(code := k)
            else LooksUp(Advance(s, t), t, d, k) && Advance(s, t).shared == s.shared
  {
    if d != s.shared.under {
      var s1 := Advance(s, t);
      assert s1.threads[t].held == s.threads[t].held;
      SameLocks(s.threads, s1.threads, t, SwRwlock, Sharing);
    }
  }

  lemma SameLocks(a: seq<Thread>, b: seq<Thread>, t: Tid, l: Lock, m: Mode)
    requires t < |a| && |b| == |a| && b == a[t := b[t]] && b[t].held == a[t].held && CanLock(a, l, m)
    ensures CanLock(b, l, m)
  {
    forall th <- b ensures Compatible(th, l, m) {
      var u :| 0 <= u < |b| && b[u] == th;
      assert a[u] in a && Compatible(a[u], l, m);
    }
  }

  lemma EntryStays(sh: Shared, u: Tid, th: Thread, d: Dpid)
    requires Registry(sh) && ThreadOk(sh, u, th) && d in sh.switchs
    requires SwRwlock in th.held ==> th.held[SwRwlock] == Sharing
    ensures var m := NextShared(sh, u, th).switchs; d in m && m[d] == sh.switchs[d]
  {
  }

  /** Whatever other threads do, the switch stays registered for a thread that holds the lock. */
  lemma ReaderKeepsSwitch(s: State, t: Tid, u: Tid, d: Dpid)
    requires Inv(s) && t < |s.threads| && SwRwlock in s.threads[t].held && d in s.shared.switchs
    requires u < |s.threads| && u != t && Enabled(s, u)
    ensures var s' := Advance(s, u);
            s'.threads[t] == s.threads[t] && d in s'.shared.switchs && s'.shared.switchs[d] == s.shared.switchs[d]
  {
    var th := s.threads[u];
    assert ThreadOk(s.shared, u, th) && Apart(th, s.threads[t]);
    EntryStays(s.shared, u, th, d);
  }

  /** A notification that has the lock while its switch is registered reaches it, in every
      interleaving: when its thread is scheduled again, it fetches that switch. */
  lemma {:induction false} DeliveryIsCertain(s: State, t: Tid, d: Dpid, k: Code, run: seq<Action>)
    requires Inv(s) && t < |s.threads| && SwRwlock in s.threads[t].held && d in s.shared.switchs
    requires s.threads[t].code == Fetch(d, Use(d, Release(SwRwlock, k)), Release(SwRwlock, k))
    requires LegalRun(s, run) && forall i | 0 <= i < |run| :: run[i] != Step(t)
    ensures var s' := After(s, run);
            && t < |s'.threads| && Enabled(s', t)
            && var th := Advance(s', t).threads[t];
            th.code == Use(d, Release(SwRwlock, k)) && th.pointer == Some(s.shared.switchs[d])
    decreases |run|
  {
    if run != [] {
      var a := run[0];
      match a {
        case Spawn(op) => SpawnKeepsInv(s, op);
        case Step(u) =>
          StepKeepsInv(s, u);
          ReaderKeepsSwitch(s, t, u, d);
      }
      DeliveryIsCertain(Apply(s, a), t, d, k, run[1..]);
    }
  }

  // ----- Writes and readers -----

  /** An erase excludes everybody who reads the map. */
  lemma UnlinkExcludesReaders(run: seq<Action>, t: Tid)
    requires LegalRun(INIT, run) && t < |After(INIT, run).threads| && After(INIT, run).threads[t].code.Unlink?
    ensures var s := After(INIT, run); forall u | 0 <= u < |s.threads| && u != t :: SwRwlock !in s.threads[u].held
  {
    RunKeepsInv(INIT, run);
    var s := After(INIT, run);
    assert ThreadOk(s.shared, t, s.threads[t]);
    forall u | 0 <= u < |s.threads| && u != t ensures SwRwlock !in s.threads[u].held {
      assert Apart(s.threads[t], s.threads[u]);
    }
  }

  lemma {:induction false} RunOn(s: State, a: seq<Action>, b: seq<Action>)
    requires LegalRun(s, a) && LegalRun(After(s, a), b)
    ensures LegalRun(s, a + b) && After(s, a + b) == After(After(s, a), b)
    decreases |a|
  {
    if a == [] {
      assert a + b == b;
    } else {
      RunOn(Apply(s, a[0]), a[1..], b);
      assert (a + b)[1..] == a[1..] + b;
    }
  }

  lemma OneAction(s: State, a: Action)
    requires Legal(s, a)
    ensures LegalRun(s, [a]) && After(s, [a]) == Apply(s, a)
  {
    var run: seq<Action> := [a];
    assert run[1..] == [];
  }

  /** With an empty map, the scan of thread 0 goes all the way. */
  lemma {:induction false} EmptyScan(s: State, after: int, wanted: Option<string>, same: Code, next: Code) returns (run: seq<Action>)
    requires |s.threads| == 1 && s.threads[0].code == Scan(after, wanted, same, next) && s.shared.switchs == map[] && -1 <= after
    ensures LegalRun(s, run)
    ensures var s' := After(s, run);
            |s'.threads| == 1 && s'.threads[0].code == next && s'.threads[0].held == s.threads[0].held && s'.shared == s.shared
    decreases DPID_LIMIT - after
  {
    var s1 := Advance(s, 0);
    OneAction(s, Step(0));
    if after + 1 >= DPID_LIMIT {
      run := [Step(0)];
    } else {
      var rest := EmptyScan(s1, after + 1, wanted, same, next);
      RunOn(s, [Step(0)], rest);
      run := [Step(0)] + rest;
    }
  }

  /** The first creation up to its scan. */
  lemma CreationBegins(info: SwitchInfo) returns (run: seq<Action>, next: Code)
    ensures LegalRun(INIT, run) && next == Allocate(info, Insert(info.dpid, Release(SwMutex, Done)))
    ensures var s := After(INIT, run);
            && |s.threads| == 1 && s.shared == INIT.shared && s.threads[0].held == map[SwMutex := Exclusive]
            && s.threads[0].code == Scan(-1, Some(info.name), Release(SwMutex, Done), next)
  {
    next := Allocate(info, Insert(info.dpid, Release(SwMutex, Done)));
    var op := CreateSwitch(info, true, []);
    var s1 := Apply(INIT, Spawn(op));
    OneAction(INIT, Spawn(op));
    assert s1.threads == [Thread(Program(op), map[], None, NO_FACTS)];
    assert Enabled(s1, 0);
    var s2 := Advance(s1, 0);
    OneAction(s1, Step(0));
    OneAction(s2, Step(0));
    RunOn(s1, [Step(0)], [Step(0)]);
    RunOn(INIT, [Spawn(op)], [Step(0)] + [Step(0)]);
    run := [Spawn(op)] + ([Step(0)] + [Step(0)]);
    assert map[][SwMutex := Exclusive] == map[SwMutex := Exclusive];
  }

  /** An insertion does not: there is a run in which a thread is about to insert into the map while
      another iterates it under the read lock. */
  lemma InsertMeetsReader(info: SwitchInfo) returns (run: seq<Action>)
    ensures LegalRun(INIT, run)
    ensures var s := After(INIT, run);
            && |s.threads| == 2 && s.threads[0].code.Insert? && Enabled(s, 0)
            && s.threads[1].code.Scan? && s.threads[1].held == map[SwRwlock := Sharing]
  {
    var begin, next := CreationBegins(info);
    var s1 := After(INIT, begin);
    var scan := EmptyScan(s1, -1, Some(info.name), Release(SwMutex, Done), next);
    RunOn(INIT, begin, scan);
    var s2 := After(s1, scan);
    var read := ReaderBegins(s2, info);
    RunOn(INIT, begin + scan, read);
    run := (begin + scan) + read;
  }

  lemma ReaderBegins(s: State, info: SwitchInfo) returns (run: seq<Action>)
    requires |s.threads| == 1 && s.threads[0].held == map[SwMutex := Exclusive]
    requires s.threads[0].code == Allocate(info, Insert(info.dpid, Release(SwMutex, Done)))
    ensures LegalRun(s, run)
    ensures var s' := After(s, run);
            && |s'.threads| == 2 && s'.threads[0].code.Insert? && Enabled(s', 0)
            && s'.threads[1].code.Scan? && s'.threads[1].held == map[SwRwlock := Sharing]
  {
    var s1 := Advance(s, 0);
    OneAction(s, Step(0));
    var s2 := Apply(s1, Spawn(FindByName));
    OneAction(s1, Spawn(FindByName));
    assert s2.threads[0] == s1.threads[0] && s2.threads[1] == Thread(Program(FindByName), map[], None, NO_FACTS);
    forall th <- s2.threads ensures Compatible(th, SwRwlock, Sharing) {
      assert th == s2.threads[0] || th == s2.threads[1];
    }
    OneAction(s2, Step(1));
    assert map[][SwRwlock := Sharing] == map[SwRwlock := Sharing];
    RunOn(s1, [Spawn(FindByName)], [Step(1)]);
    RunOn(s, [Step(0)], [Spawn(FindByName)] + [Step(1)]);
    run := [Step(0)] + ([Spawn(FindByName)] + [Step(1)]);
  }
}
