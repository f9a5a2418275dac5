/**
 The registry of the switch manager, used by one thread at a time: creation, destruction and
 the searches by number and by name. What several threads do to it at once is the subject of
 `LockProtocol` and `LockSafety`.
 */
module SwitchManager {
  import opened Wrappers
  import LockProtocol

  type Dpid = LockProtocol.Dpid

  datatype Version = OF10 | OF12 | OF13 | OtherVersion

  datatype Switch = Switch(dpid: Dpid, name: string, version: Version)

  datatype Error = AlreadyExists | UnknownSocketType | VersionNotSupported | DoesNotExist | GeneralError | DetachFailed

  type Switches = map<Dpid, Switch>

  /** Each switch is registered under its own number, and no two have the same name. */
  ghost predicate Keyed(s: Switches) {
    && (forall d | d in s :: s[d].dpid == d)
    && (forall d, e | d in s && e in s && s[d].name == s[e].name :: d == e)
  }

  ghost predicate Named(s: Switches, name: string) {
    exists d :: d in s && s[d].name == name
  }

  // ----- Creation and destruction -----

  ghost function CreateError(s: Switches, version: Version, dpid: Dpid, name: string, supported: bool): Option<Error> {
    if dpid in s || Named(s, name) then Some(AlreadyExists)
    else if !supported then Some(UnknownSocketType)
    else if version == OtherVersion then Some(VersionNotSupported)
    else None
  }

  /** How the attached ports of a switch were detached, in order; no snapshot may be had. */
  type Snapshot = Option<seq<bool>>

  ghost function DestroyError(s: Switches, dpid: Dpid, snapshot: Snapshot): Option<Error> {
    if dpid !in s then Some(DoesNotExist)
    else match snapshot
      case None => Some(GeneralError)
      case Some(detached) => if false in detached then Some(DetachFailed) else None
  }

  /** The operations that change the registry, with what the driver answers to them. */
  datatype Operation =
    | Create(version: Version, dpid: Dpid, name: string, supported: bool)
    | Destroy(dpid: Dpid, snapshot: Snapshot)

  ghost function After(s: Switches, op: Operation): Switches {
    match op
    case Create(version, dpid, name, supported) =>
      if CreateError(s, version, dpid, name, supported).Some? then s else s[dpid := Switch(dpid, name, version)]
    case Destroy(dpid, snapshot) =>
      if DestroyError(s, dpid, snapshot).Some? then s else s - {dpid}
  }

  ghost function AfterAll(s: Switches, ops: seq<Operation>): Switches
    decreases |ops|
  {
    if ops == [] then s else AfterAll(After(s, ops[0]), ops[1..])
  }

  lemma {:induction false} RunsKeepKeyed(s: Switches, ops: seq<Operation>)
    requires Keyed(s)
    ensures Keyed(AfterAll(s, ops))
    decreases |ops|
  {
    if ops != [] {
      StepKeepsKeyed(s, ops[0]);
      RunsKeepKeyed(After(s, ops[0]), ops[1..]);
    }
  }

  lemma StepKeepsKeyed(s: Switches, op: Operation)
    requires Keyed(s)
    ensures Keyed(After(s, op))
  {
    if op.Create? && CreateError(s, op.version, op.dpid, op.name, op.supported).None? {
      assert forall d | d in s :: s[d].name != op.name;
    }
  }

  lemma {:induction false} AfterLast(s: Switches, ops: seq<Operation>)
    requires ops != []
    ensures AfterAll(s, ops) == After(AfterAll(s, ops[..|ops| - 1]), ops[|ops| - 1])
    decreases |ops|
  {
    if |ops| == 1 {
      assert ops[1..] == [] && ops[..0] == [];
    } else {
      AfterLast(After(s, ops[0]), ops[1..]);
      assert ops[1..][..|ops| - 2] == ops[..|ops| - 1][1..];
    }
  }

  /** The i-th operation is a creation of that switch that meets no obstacle: the switch type and the
      version are supported, and neither its number nor its name is in use. */
  ghost predicate CreatedAt(ops: seq<Operation>, i: nat, x: Switch)
    requires i < |ops|
  {
    var s := AfterAll(map[], ops[..i]);
    && ops[i] == Create(x.version, x.dpid, x.name, true) && x.version in {OF10, OF12, OF13}
    && x.dpid !in s && forall d | d in s :: s[d].name != x.name
  }

  /** A destruction of d of which no port stands in the way. */
  ghost predicate Destroys(op: Operation, d: Dpid) {
    op.Destroy? && op.dpid == d && op.snapshot.Some? && false !in op.snapshot.value
  }

  ghost predicate KeptFrom(ops: seq<Operation>, i: nat, d: Dpid) {
    forall j | i <= j < |ops| :: !Destroys(ops[j], d)
  }

  ghost predicate History(ops: seq<Operation>, x: Switch) {
    exists i :: 0 <= i < |ops| && CreatedAt(ops, i, x) && KeptFrom(ops, i, x.dpid)
  }

  lemma SameHistory(ops: seq<Operation>, i: nat, x: Switch)
    requires i < |ops| - 1
    ensures CreatedAt(ops, i, x) <==> CreatedAt(ops[..|ops| - 1], i, x)
    ensures KeptFrom(ops, i, x.dpid) <==> KeptFrom(ops[..|ops| - 1], i, x.dpid) && !Destroys(ops[|ops| - 1], x.dpid)
  {
    var front := ops[..|ops| - 1];
    assert front[..i] == ops[..i];
    assert forall j | i <= j < |front| :: front[j] == ops[j];
  }

  lemma HistoryStep(ops: seq<Operation>, x: Switch)
    requires ops != []
    ensures var n := |ops| - 1;
            History(ops, x) <==> CreatedAt(ops, n, x) || (History(ops[..n], x) && !Destroys(ops[n], x.dpid))
  {
    var n := |ops| - 1;
    if i :| 0 <= i < |ops| && CreatedAt(ops, i, x) && KeptFrom(ops, i, x.dpid) {
      if i < n { SameHistory(ops, i, x); }
    }
    if History(ops[..n], x) && !Destroys(ops[n], x.dpid) {
      var i :| 0 <= i < n && CreatedAt(ops[..n], i, x) && KeptFrom(ops[..n], i, x.dpid);
      SameHistory(ops, i, x);
    }
    if CreatedAt(ops, n, x) { assert KeptFrom(ops, n, x.dpid); }
  }

  /** After every run a switch is registered, with that name and that version, if and only if one of
      its creations met no obstacle and no destruction of it succeeded since. */
  lemma {:induction false} RegisteredWhen(ops: seq<Operation>, x: Switch)
    ensures var s := AfterAll(map[], ops); x.dpid in s && s[x.dpid] == x <==> History(ops, x)
    decreases |ops|
  {
    if ops != [] {
      var n := |ops| - 1;
      RegisteredWhen(ops[..n], x);
      AfterLast(map[], ops);
      HistoryStep(ops, x);
      assert ops[..n][..n] == ops[..n];
    }
  }

  // ----- Searches -----

  ghost predicate Owner(s: Switches, name: string, d: Dpid) {
    d in s && s[d].name == name
  }

  /** After every run from an empty registry, each switch is found under the number it says, and
      a name that is in use has exactly one owner. */
  lemma NamesHaveOneOwner(ops: seq<Operation>, name: string)
    ensures var s := AfterAll(map[], ops);
            && (forall d | d in s :: s[d].dpid == d)
            && (Named(s, name) ==> exists d: Dpid :: d in s && forall e: Dpid :: Owner(s, name, e) <==> e == d)
  {
    RunsKeepKeyed(map[], ops);
    var s := AfterAll(map[], ops);
    if d :| d in s && s[d].name == name {
      assert forall e: Dpid :: Owner(s, name, e) <==> e == d;
    }
  }

  // ----- The manager -----

  class Manager {
    var switchs: Switches
    /** 0 if no switch is being destroyed. */
    var dpidUnderDestruction: Dpid

    ghost predicate Valid()
      reads this
    {
      Keyed(switchs)
    }

    constructor ()
      ensures Valid() && switchs == map[] && dpidUnderDestruction == 0
    {
      switchs := map[];
      dpidUnderDestruction := 0;
    }

    method CreateSwitch(version: Version, dpid: Dpid, name: string, supported: bool) returns (error: Option<Error>)
      requires Valid()
      modifies this`switchs
      ensures Valid()
      ensures error == CreateError(old(switchs), version, dpid, name, supported)
      ensures switchs == After(old(switchs), Create(version, dpid, name, supported))
      ensures error == Some(AlreadyExists) <==> dpid in old(switchs) || Named(old(switchs), name)
      ensures error == Some(UnknownSocketType) <==> !(dpid in old(switchs) || Named(old(switchs), name)) && !supported
      ensures error == Some(VersionNotSupported)
              <==> !(dpid in old(switchs) || Named(old(switchs), name)) && supported && version !in {OF10, OF12, OF13}
      ensures switchs == if error.None? then old(switchs)[dpid := Switch(dpid, name, version)] else old(switchs)
    {
      StepKeepsKeyed(switchs, Create(version, dpid, name, supported));
      if dpid in switchs {
        return Some(AlreadyExists);
      }
      var taken := ExistsByName(name);
      if taken {
        return Some(AlreadyExists);
      }
      if !supported {
        return Some(UnknownSocketType);
      }
      if version == OtherVersion {
        return Some(VersionNotSupported);
      }
      switchs := switchs[dpid := Switch(dpid, name, version)];
      return None;
    }

    /** A port that cannot be detached ends the destruction with the switch left registered and
        still marked, so that its notifications go on being ignored. */
    method DestroySwitch(dpid: Dpid, snapshot: Snapshot) returns (error: Option<Error>)
      requires Valid()
      modifies this
      ensures Valid()
      ensures error == DestroyError(old(switchs), dpid, snapshot)
      ensures switchs == After(old(switchs), Destroy(dpid, snapshot))
      ensures error.None? <==> dpid in old(switchs) && snapshot.Some? && false !in snapshot.value
      ensures error == Some(DoesNotExist) <==> dpid !in old(switchs)
      ensures error == Some(GeneralError) <==> dpid in old(switchs) && snapshot.None?
      ensures switchs == if error.None? then old(switchs) - {dpid} else old(switchs)
      ensures dpidUnderDestruction
              == if error == Some(DetachFailed) then dpid
                 else if error.None? then 0
                 else old(dpidUnderDestruction)
    {
      if dpid !in switchs {
        return Some(DoesNotExist);
      }
      if snapshot.None? {
        return Some(GeneralError);
      }
      dpidUnderDestruction := dpid;
      var detached := snapshot.value;
      var i := 0;
      while i < |detached|
        invariant 0 <= i <= |detached| && false !in detached[..i]
      {
        if !detached[i] {
          return Some(DetachFailed);
        }
        i := i + 1;
      }
      switchs := switchs - {dpid};
      dpidUnderDestruction := 0;
      return None;
    }

    /** Destroy in ascending order, up to the first switch that cannot be destroyed: all below it
        are gone, it and all above it are still there. If there is none, the map is empty. */
    method DestroyAllSwitches(snapshots: map<Dpid, Snapshot>) returns (error: Option<Error>)
      requires Valid() && switchs.Keys <= snapshots.Keys
      modifies this
      ensures Valid()
      ensures error.None? <==> forall d | d in old(switchs) :: DestroyError(old(switchs), d, snapshots[d]).None?
      ensures error.None? ==> switchs == map[] && (old(switchs) != map[] ==> dpidUnderDestruction == 0)
      ensures error.Some? ==>
                exists d :: d in old(switchs) && error == DestroyError(old(switchs), d, snapshots[d])
                            && FirstBad(old(switchs), snapshots, d)
                            && switchs == map e | e in old(switchs) && d <= e :: old(switchs)[e]
    {
      ghost var all := switchs;
      var left := switchs.Keys;
      while left != {}
        invariant Valid() && left == switchs.Keys && Remaining(all, snapshots, switchs)
        invariant dpidUnderDestruction == if switchs == all then old(dpidUnderDestruction) else 0
        decreases left
      {
        var it := Lowest(left);
        var dpid := switchs[it].dpid;
        ghost var was := switchs;
        LowestRemains(all, snapshots, was, it);
        error := DestroySwitch(dpid, snapshots[dpid]);
        if error.Some? {
          return;
        }
        left := left - {it};
      }
      switchs := map[];
      return None;
    }

    method Exists(dpid: Dpid) returns (found: bool)
      ensures found <==> dpid in switchs
    {
      found := dpid in switchs;
    }

    method ExistsByName(name: string) returns (found: bool)
      ensures found <==> Named(switchs, name)
    {
      found := false;
      var left := switchs.Keys;
      while left != {}
        invariant left <= switchs.Keys
        invariant found <==> exists d :: d in switchs.Keys - left && switchs[d].name == name
        decreases left
      {
        var d :| d in left;
        if switchs[d].name == name {
          found := true;
        }
        left := left - {d};
      }
    }

    /** The loop goes on after a match; what it ends with is a switch of that name. */
    method GetSwitchDpid(name: string) returns (dpid: Option<Dpid>)
      requires Valid()
      ensures dpid.Some? <==> Named(switchs, name)
      ensures dpid.Some? ==> forall d: Dpid :: Owner(switchs, name, d) <==> d == dpid.value
    {
      dpid := None;
      var left := switchs.Keys;
      while left != {}
        invariant left <= switchs.Keys
        invariant dpid.None? ==> forall d | d in switchs.Keys - left :: switchs[d].name != name
        invariant dpid.Some? ==> Owner(switchs, name, dpid.value)
        decreases left
      {
        var d :| d in left;
        if switchs[d].name == name {
          dpid := Some(switchs[d].dpid);
        }
        left := left - {d};
      }
    }
  }

  /** d is the lowest switch that cannot be destroyed. */
  ghost predicate FirstBad(s: Switches, snapshots: map<Dpid, Snapshot>, d: Dpid)
    requires s.Keys <= snapshots.Keys
  {
    && d in s && DestroyError(s, d, snapshots[d]).Some?
    && forall e | e in s && e < d :: DestroyError(s, e, snapshots[e]).None?
  }

  /** The switches destroyed so far are the lowest ones, and nothing stood in their way. */
  ghost predicate Remaining(all: Switches, snapshots: map<Dpid, Snapshot>, now: Switches)
    requires all.Keys <= snapshots.Keys
  {
    && now.Keys <= all.Keys && (forall d | d in now :: now[d] == all[d])
    && (forall d | d in all && d !in now ::
          DestroyError(all, d, snapshots[d]).None? && forall e | e in now :: d < e)
  }

  lemma LowestRemains(all: Switches, snapshots: map<Dpid, Snapshot>, now: Switches, it: Dpid)
    requires all.Keys <= snapshots.Keys && Remaining(all, snapshots, now)
    requires it in now && forall d | d in now :: it <= d
    ensures now == map e | e in all && it <= e :: all[e]
    ensures DestroyError(now, it, snapshots[it]) == DestroyError(all, it, snapshots[it])
    ensures DestroyError(all, it, snapshots[it]).Some? ==> FirstBad(all, snapshots, it)
    ensures DestroyError(all, it, snapshots[it]).None? ==> Remaining(all, snapshots, now - {it})
  {
  }

  method Lowest(s: set<Dpid>) returns (m: Dpid)
    requires s != {}
    ensures m in s && forall d | d in s :: m <= d
  {
    m :| m in s;
    var left := s - {m};
    while left != {}
      invariant left <= s && m in s && forall d | d in s :: d in left || m <= d
      decreases left
    {
      var d :| d in left;
      if d < m {
        m := d;
      }
      left := left - {d};
    }
  }
}
