/**
 Translation between the action lists of OpenFlow 1.0 (section 5.2.4 of the OpenFlow 1.0.0
 specification) and the packet actions of the pipeline. An ENQUEUE becomes two pipeline
 actions, SET_QUEUE and OUTPUT, and the way back folds them again.
 */
module OpenFlow10Actions {
  import opened Wrappers

  type U8 = n: nat | n < 0x100
  type U16 = n: nat | n < 0x1_0000
  type U32 = n: nat | n < 0x1_0000_0000
  type U64 = n: nat | n < 0x1_0000_0000_0000_0000
  type Mac = n: nat | n < 0x1_0000_0000_0000

  // ----- Ports -----

  // Section 5.2.1 of the OpenFlow 1.0.0 specification.
  const OFPP_MAX: U16 := 0xff00
  const OFPP_IN_PORT: U16 := 0xfff8
  const OFPP_TABLE: U16 := 0xfff9
  const OFPP_NORMAL: U16 := 0xfffa
  const OFPP_FLOOD: U16 := 0xfffb
  const OFPP_ALL: U16 := 0xfffc
  const OFPP_CONTROLLER: U16 := 0xfffd
  const OFPP_LOCAL: U16 := 0xfffe
  const OFPP_NONE: U16 := 0xffff

  // The pipeline's numbers: distinct, and none is a 16-bit port number.
  const OF1X_PORT_MAX: U32 := 0xffffff00
  const OF1X_PORT_IN_PORT: U32 := 0xfffffff8
  const OF1X_PORT_TABLE: U32 := 0xfffffff9
  const OF1X_PORT_NORMAL: U32 := 0xfffffffa
  const OF1X_PORT_FLOOD: U32 := 0xfffffffb
  const OF1X_PORT_ALL: U32 := 0xfffffffc
  const OF1X_PORT_CONTROLLER: U32 := 0xfffffffd
  const OF1X_PORT_LOCAL: U32 := 0xfffffffe
  const OF1X_PORT_ANY: U32 := 0xffffffff

  function OutPort(port: U16): U64 {
    if port == OFPP_MAX then OF1X_PORT_MAX
    else if port == OFPP_IN_PORT then OF1X_PORT_IN_PORT
    else if port == OFPP_TABLE then OF1X_PORT_TABLE
    else if port == OFPP_NORMAL then OF1X_PORT_NORMAL
    else if port == OFPP_FLOOD then OF1X_PORT_FLOOD
    else if port == OFPP_ALL then OF1X_PORT_ALL
    else if port == OFPP_CONTROLLER then OF1X_PORT_CONTROLLER
    else if port == OFPP_LOCAL then OF1X_PORT_LOCAL
    else if port == OFPP_NONE then OF1X_PORT_ANY
    else port
  }

  function OutPortReverse(port: U64): U32 {
    if port == OF1X_PORT_MAX then OFPP_MAX
    else if port == OF1X_PORT_IN_PORT then OFPP_IN_PORT
    else if port == OF1X_PORT_TABLE then OFPP_TABLE
    else if port == OF1X_PORT_NORMAL then OFPP_NORMAL
    else if port == OF1X_PORT_FLOOD then OFPP_FLOOD
    else if port == OF1X_PORT_ALL then OFPP_ALL
    else if port == OF1X_PORT_CONTROLLER then OFPP_CONTROLLER
    else if port == OF1X_PORT_LOCAL then OFPP_LOCAL
    else if port == OF1X_PORT_ANY then OFPP_NONE
    else port % 0x1_0000_0000
  }

  /** Pipeline ports that stand for an OpenFlow 1.0 port. */
  predicate PortOf10(port: U32) {
    || (port < 0x1_0000
        && port !in {OFPP_MAX, OFPP_IN_PORT, OFPP_TABLE, OFPP_NORMAL, OFPP_FLOOD, OFPP_ALL, OFPP_CONTROLLER, OFPP_LOCAL, OFPP_NONE})
    || port in {OF1X_PORT_MAX, OF1X_PORT_IN_PORT, OF1X_PORT_TABLE, OF1X_PORT_NORMAL, OF1X_PORT_FLOOD, OF1X_PORT_ALL,
                OF1X_PORT_CONTROLLER, OF1X_PORT_LOCAL, OF1X_PORT_ANY}
  }

  /** The port set of an OpenFlow 1.0 action is 16 bits wide. */
  function Port16(port: U64): U16 { OutPortReverse(port) % 0x1_0000 }

  /** Renumbering ports loses nothing, and reaches exactly the ports of `PortOf10`. */
  lemma PortsRoundTrip(port: U16, pipelinePort: U32)
    ensures OutPort(port) < 0x1_0000_0000 && PortOf10(OutPort(port)) && OutPortReverse(OutPort(port)) == port
    ensures PortOf10(pipelinePort) <==> OutPort(Port16(pipelinePort)) == pipelinePort
  {
  }

  // ----- Actions -----

  /** The twelve action types of OpenFlow 1.0 that are mapped. */
  datatype Action =
    | Output(port: U16, maxLen: U16)
    | SetVlanVid(vid: U16)
    | SetVlanPcp(pcp: U8)
    | StripVlan
    | SetDlSrc(mac: Mac)
    | SetDlDst(mac: Mac)
    | SetNwSrc(address: U32)
    | SetNwDst(address: U32)
    | SetNwTos(tos: U8)
    | SetTpSrc(tp: U16)
    | SetTpDst(tp: U16)
    | Enqueue(port: U16, queue: U32)

  datatype Kind =
    | AtNoAction | AtPopVlan | AtPushVlan | AtEthDst | AtEthSrc | AtVlanVid | AtVlanPcp | AtIpDscp
    | AtNwSrc | AtNwDst | AtTpSrc | AtTpDst | AtSetQueue | AtOutput | AtExperimenter | AtOther

  /** `field` is a union: a narrower read takes its low bits. */
  datatype PacketAction = PacketAction(kind: Kind, field: U64, sendLen: U16)

  function Field8(a: PacketAction): U8 { a.field % 0x100 }
  function Field16(a: PacketAction): U16 { a.field % 0x1_0000 }
  function Field32(a: PacketAction): U32 { a.field % 0x1_0000_0000 }

  /** What one action of OpenFlow 1.0 becomes. */
  function Compiled(a: Action): seq<PacketAction> {
    match a
    case Output(port, maxLen) => [PacketAction(AtOutput, OutPort(port) % 0x1_0000_0000, maxLen)]
    case SetVlanVid(vid) => [PacketAction(AtVlanVid, vid, 0)]
    case SetVlanPcp(pcp) => [PacketAction(AtVlanPcp, pcp, 0)]
    case StripVlan => [PacketAction(AtPopVlan, 0, 0)]
    case SetDlSrc(mac) => [PacketAction(AtEthSrc, mac, 0)]
    case SetDlDst(mac) => [PacketAction(AtEthDst, mac, 0)]
    case SetNwSrc(address) => [PacketAction(AtNwSrc, address, 0)]
    case SetNwDst(address) => [PacketAction(AtNwDst, address, 0)]
    case SetNwTos(tos) => [PacketAction(AtIpDscp, tos / 4, 0)]
    case SetTpSrc(tp) => [PacketAction(AtTpSrc, tp, 0)]
    case SetTpDst(tp) => [PacketAction(AtTpDst, tp, 0)]
    case Enqueue(port, queue) => [PacketAction(AtSetQueue, queue, 0), PacketAction(AtOutput, OutPort(port), 0)]
  }

  function CompiledAll(actions: seq<Action>): seq<PacketAction> {
    if actions == [] then [] else Compiled(actions[0]) + CompiledAll(actions[1..])
  }

  lemma {:induction false} CompiledAppend(actions: seq<Action>, a: Action)
    ensures CompiledAll(actions + [a]) == CompiledAll(actions) + Compiled(a)
  {
    if actions == [] {
      assert [a][1..] == [] && CompiledAll([a]) == Compiled(a) + [];
    } else {
      assert (actions + [a])[1..] == actions[1..] + [a];
      CompiledAppend(actions[1..], a);
    }
  }

  lemma OneMore(before: seq<PacketAction>, actions: seq<Action>, i: nat)
    requires i < |actions|
    ensures before + CompiledAll(actions[..i + 1]) == (before + CompiledAll(actions[..i])) + Compiled(actions[i])
  {
    CompiledAppend(actions[..i], actions[i]);
    assert actions[..i + 1] == actions[..i] + [actions[i]];
  }

  class ActionGroup {
    var actions: seq<PacketAction>

    constructor ()
      ensures actions == []
    {
      actions := [];
    }

    method Push(a: PacketAction)
      modifies this
      ensures actions == old(actions) + [a]
    {
      actions := actions + [a];
    }
  }

  /** One case of the source's switch. */
  method MapFlowEntryAction(a: Action, group: ActionGroup)
    modifies group
    ensures group.actions == old(group.actions) + Compiled(a)
  {
    var action;
    match a {
      case Output(port, maxLen) =>
        action := PacketAction(AtOutput, OutPort(port) % 0x1_0000_0000, maxLen);
      case SetVlanVid(vid) => action := PacketAction(AtVlanVid, vid, 0);
      case SetVlanPcp(pcp) => action := PacketAction(AtVlanPcp, pcp, 0);
      case StripVlan => action := PacketAction(AtPopVlan, 0, 0);
      case SetDlSrc(mac) => action := PacketAction(AtEthSrc, mac, 0);
      case SetDlDst(mac) => action := PacketAction(AtEthDst, mac, 0);
      case SetNwSrc(address) => action := PacketAction(AtNwSrc, address, 0);
      case SetNwDst(address) => action := PacketAction(AtNwDst, address, 0);
      case SetNwTos(tos) => action := PacketAction(AtIpDscp, tos / 4, 0);
      case SetTpSrc(tp) => action := PacketAction(AtTpSrc, tp, 0);
      case SetTpDst(tp) => action := PacketAction(AtTpDst, tp, 0);
      case Enqueue(port, queue) =>
        group.Push(PacketAction(AtSetQueue, queue, 0));
        action := PacketAction(AtOutput, OutPort(port), 0);
    }
    group.Push(action);
  }

  method MapFlowEntryActions(actions: seq<Action>, group: ActionGroup)
    modifies group
    ensures group.actions == old(group.actions) + CompiledAll(actions)
  {
    var i := 0;
    assert actions[..0] == [];
    while i < |actions|
      invariant 0 <= i <= |actions|
      invariant group.actions == old(group.actions) + CompiledAll(actions[..i])
    {
      OneMore(old(group.actions), actions, i);
      MapFlowEntryAction(actions[i], group);
      i := i + 1;
    }
    assert actions[..i] == actions;
  }

  // ----- The way back -----

  /** One pipeline action, and the one after it if there is one. SET_QUEUE needs the next: the
      source asserts it. Push-vlan and the types that have no counterpart give nothing here. */
  function Decompiled(a: PacketAction, next: Option<PacketAction>): seq<Action>
    requires a.kind == AtSetQueue ==> next.Some?
  {
    match a.kind
    case AtPopVlan => [StripVlan]
    case AtEthDst => [SetDlDst(a.field % 0x1_0000_0000_0000)]
    case AtEthSrc => [SetDlSrc(a.field % 0x1_0000_0000_0000)]
    case AtVlanVid => [SetVlanVid(Field16(a))]
    case AtVlanPcp => [SetVlanPcp(Field8(a))]
    case AtIpDscp => [SetNwTos(Field8(a) * 4 % 0x100)]
    case AtNwSrc => [SetNwSrc(Field32(a))]
    case AtNwDst => [SetNwDst(Field32(a))]
    case AtTpSrc => [SetTpSrc(Field16(a))]
    case AtTpDst => [SetTpDst(Field16(a))]
    case AtSetQueue => [Enqueue(Port16(Field32(next.value)), Field32(a))]
    case AtOutput => [Output(Port16(Field32(a)), a.sendLen)]
    case _ => []
  }

  /** No SET_QUEUE is where the loop would look behind the end of the list. */
  predicate Foldable(ps: seq<PacketAction>) {
    if ps == [] then true
    else if ps[0].kind == AtSetQueue then |ps| > 1 && Foldable(ps[2..])
    else Foldable(ps[1..])
  }

  function DecompiledAll(ps: seq<PacketAction>): seq<Action>
    requires Foldable(ps)
  {
    if ps == [] then []
    else if ps[0].kind == AtSetQueue then Decompiled(ps[0], Some(ps[1])) + DecompiledAll(ps[2..])
    else Decompiled(ps[0], None) + DecompiledAll(ps[1..])
  }

  datatype Instruction = ApplyActions(actions: Option<seq<PacketAction>>) | OtherInstruction

  /** The list the translation works on: that of the first APPLY_ACTIONS that has one. */
  function Applied(instructions: seq<Instruction>): seq<PacketAction> {
    if instructions == [] then []
    else if instructions[0].ApplyActions? && instructions[0].actions.Some? then instructions[0].actions.value
    else Applied(instructions[1..])
  }

  /** The number of actions one turn of the loop consumes. */
  function Width(ps: seq<PacketAction>): nat {
    if ps != [] && ps[0].kind == AtSetQueue then 2 else 1
  }

  /** The loop is at position i, and what it has so far is `actions`. */
  ghost predicate Reached(ps: seq<PacketAction>, i: nat, actions: seq<Action>) {
    && i <= |ps|
    && (Foldable(ps) <==> Foldable(ps[i..]))
    && (Foldable(ps) ==> DecompiledAll(ps) == actions + DecompiledAll(ps[i..]))
  }

  function Next(ps: seq<PacketAction>, i: nat): Option<PacketAction> {
    if i + 1 < |ps| then Some(ps[i + 1]) else None
  }

  lemma Unfold(ps: seq<PacketAction>)
    requires ps != []
    ensures Foldable(ps) <==> Width(ps) <= |ps| && Foldable(ps[Width(ps)..])
    ensures Foldable(ps) ==> DecompiledAll(ps) == Decompiled(ps[0], Next(ps, 0)) + DecompiledAll(ps[Width(ps)..])
  {
  }

  lemma Reassociate(a: seq<Action>, b: seq<Action>, c: seq<Action>)
    ensures a + (b + c) == (a + b) + c
  {
  }

  lemma OneTurn(ps: seq<PacketAction>, i: nat, actions: seq<Action>)
    requires i < |ps| && Reached(ps, i, actions)
    ensures i + Width(ps[i..]) > |ps| ==> !Foldable(ps)
    ensures i + Width(ps[i..]) <= |ps| ==>
              Reached(ps, i + Width(ps[i..]), actions + Decompiled(ps[i], Next(ps, i)))
  {
    var w := Width(ps[i..]);
    Unfold(ps[i..]);
    assert Next(ps[i..], 0) == Next(ps, i);
    if i + w <= |ps| {
      assert ps[i..][w..] == ps[i + w..];
      if Foldable(ps[i + w..]) {
        Reassociate(actions, Decompiled(ps[i], Next(ps, i)), DecompiledAll(ps[i + w..]));
      }
    }
  }

  /** Append what one pipeline action stands for. `ok` is false for a SET_QUEUE with nothing after
      it: there the source has an assertion, and without assertions its loop goes on through a null
      pointer. */
  method MapReverseAction(a: PacketAction, next: Option<PacketAction>, actions: seq<Action>)
    returns (ok: bool, appended: seq<Action>)
    ensures ok <==> (a.kind == AtSetQueue ==> next.Some?)
    ensures ok ==> appended == actions + Decompiled(a, next)
    ensures a.kind == AtNoAction ==> appended == actions
  {
    if a.kind == AtSetQueue && next.None? {
      return false, actions;
    }
    return true, actions + Decompiled(a, next);
  }

  lemma AtEnd(ps: seq<PacketAction>, actions: seq<Action>)
    requires Reached(ps, |ps|, actions)
    ensures Foldable(ps) && actions == DecompiledAll(ps)
  {
  }

  /** One turn of the source's loop from position i, with its skip over the OUTPUT of a
      SET_QUEUE and its early exit when that OUTPUT is the last action. */
  method ReverseTurn(ps: seq<PacketAction>, i: nat, actions: seq<Action>)
    returns (ok: bool, next: nat, appended: seq<Action>)
    requires i < |ps| && Reached(ps, i, actions)
    ensures ok ==> next > i && Reached(ps, next, appended)
    ensures !ok ==> !Foldable(ps)
  {
    OneTurn(ps, i, actions);
    if ps[i].kind == AtNoAction {
      return true, i + 1, actions;
    }
    ok, appended := MapReverseAction(ps[i], Next(ps, i), actions);
    if !ok {
      return false, i, appended;
    }
    if ps[i].kind == AtSetQueue {
      if i + 2 == |ps| {
        return true, |ps|, appended;
      }
      return true, i + 2, appended;
    }
    return true, i + 1, appended;
  }

  method MapReverseActions(ps: seq<PacketAction>) returns (ok: bool, actions: seq<Action>)
    ensures ok <==> Foldable(ps)
    ensures ok ==> actions == DecompiledAll(ps)
  {
    ok, actions := true, [];
    var i := 0;
    while i < |ps|
      invariant ok && Reached(ps, i, actions)
    {
      ok, i, actions := ReverseTurn(ps, i, actions);
      if !ok {
        return;
      }
    }
    AtEnd(ps, actions);
  }

  method MapReverseFlowEntryActions(instructions: seq<Instruction>) returns (ok: bool, actions: seq<Action>)
    ensures ok <==> Foldable(Applied(instructions))
    ensures ok ==> actions == DecompiledAll(Applied(instructions))
  {
    var i := 0;
    while i < |instructions|
      invariant 0 <= i <= |instructions|
      invariant Applied(instructions) == Applied(instructions[i..])
    {
      if instructions[i].ApplyActions? && instructions[i].actions.Some? {
        ok, actions := MapReverseActions(instructions[i].actions.value);
        return;
      }
      i := i + 1;
    }
    return true, [];
  }

  // ----- Round trips -----

  /** Only the two low bits of a type of service are lost. */
  function Kept(a: Action): Action {
    if a.SetNwTos? then SetNwTos(a.tos - a.tos % 4) else a
  }

  lemma TosRoundTrip(tos: U8)
    ensures tos / 4 % 0x100 * 4 % 0x100 == tos - tos % 4
  {
  }

  lemma PortsRestored(a: Action)
    requires a.Enqueue? || a.Output?
    ensures Port16(Field32(Compiled(a)[if a.Enqueue? then 1 else 0])) == a.port
  {
    PortsRoundTrip(a.port, 0);
  }

  lemma OneRestored(a: Action)
    ensures var c := Compiled(a);
            && (c[0].kind == AtSetQueue <==> a.Enqueue?) && |c| == (if a.Enqueue? then 2 else 1)
            && Decompiled(c[0], if a.Enqueue? then Some(c[1]) else None) == [Kept(a)]
  {
    if a.Enqueue? || a.Output? { PortsRestored(a); }
    if a.SetNwTos? { TosRoundTrip(a.tos); }
  }

  lemma OneRoundTrips(a: Action, rest: seq<PacketAction>)
    requires Foldable(rest)
    ensures Foldable(Compiled(a) + rest)
    ensures DecompiledAll(Compiled(a) + rest) == [Kept(a)] + DecompiledAll(rest)
  {
    OneRestored(a);
    FoldOne(Compiled(a), rest);
  }

  /** One action and its OUTPUT, if it is a SET_QUEUE, are decompiled on their own. */
  lemma FoldOne(first: seq<PacketAction>, rest: seq<PacketAction>)
    requires |first| == (if |first| > 0 && first[0].kind == AtSetQueue then 2 else 1) && Foldable(rest)
    ensures Foldable(first + rest)
    ensures DecompiledAll(first + rest)
            == Decompiled(first[0], if |first| == 2 then Some(first[1]) else None) + DecompiledAll(rest)
  {
    assert (first + rest)[|first|..] == rest;
  }

  /** For every action list: the loop back never runs past the end, and gives the same actions
      in the same order, up to the low bits of a type of service. */
  lemma {:induction false} ActionsRoundTrip(actions: seq<Action>)
    ensures Foldable(CompiledAll(actions))
    ensures DecompiledAll(CompiledAll(actions)) == seq(|actions|, i requires 0 <= i < |actions| => Kept(actions[i]))
  {
    if actions != [] {
      ActionsRoundTrip(actions[1..]);
      OneRoundTrips(actions[0], CompiledAll(actions[1..]));
    }
  }

  predicate AlignedTos(actions: seq<Action>) {
    forall a <- actions :: a.SetNwTos? ==> a.tos % 4 == 0
  }

  lemma KeptAll(actions: seq<Action>)
    ensures seq(|actions|, i requires 0 <= i < |actions| => Kept(actions[i])) == actions <==> AlignedTos(actions)
  {
    var back := seq(|actions|, i requires 0 <= i < |actions| => Kept(actions[i]));
    if back == actions {
      forall i | 0 <= i < |actions| ensures actions[i].SetNwTos? ==> actions[i].tos % 4 == 0 {
        assert back[i] == Kept(actions[i]);
      }
    }
  }

  /** The list comes back unchanged exactly when no type of service uses its two low bits. */
  lemma ExactRoundTrip(actions: seq<Action>)
    ensures Foldable(CompiledAll(actions)) && (DecompiledAll(CompiledAll(actions)) == actions <==> AlignedTos(actions))
  {
    ActionsRoundTrip(actions);
    KeptAll(actions);
  }

  /** In a translated list every SET_QUEUE is followed by an OUTPUT. */
  ghost predicate QueuesFollowed(ps: seq<PacketAction>) {
    forall i | 0 <= i < |ps| && ps[i].kind == AtSetQueue :: i + 1 < |ps| && ps[i + 1].kind == AtOutput
  }

  lemma {:induction false} TranslatedQueuesFollowed(actions: seq<Action>)
    ensures QueuesFollowed(CompiledAll(actions))
  {
    if actions != [] {
      TranslatedQueuesFollowed(actions[1..]);
      var rest := CompiledAll(actions[1..]);
      var ps := Compiled(actions[0]) + rest;
      forall i | 0 <= i < |ps| && ps[i].kind == AtSetQueue
        ensures i + 1 < |ps| && ps[i + 1].kind == AtOutput
      {
        var n := |Compiled(actions[0])|;
        if i >= n { assert rest[i - n] == ps[i]; assert ps[i + 1] == rest[i - n + 1]; }
      }
    }
  }

  /** What a translated action looks like in the pipeline. */
  predicate Canonical(a: PacketAction) {
    match a.kind
    case AtOutput => PortOf10(Field32(a)) && a.field < 0x1_0000_0000
    case AtVlanVid => a.field < 0x1_0000 && a.sendLen == 0
    case AtVlanPcp => a.field < 0x100 && a.sendLen == 0
    case AtPopVlan => a.field == 0 && a.sendLen == 0
    case AtEthSrc => a.field < 0x1_0000_0000_0000 && a.sendLen == 0
    case AtEthDst => a.field < 0x1_0000_0000_0000 && a.sendLen == 0
    case AtNwSrc => a.field < 0x1_0000_0000 && a.sendLen == 0
    case AtNwDst => a.field < 0x1_0000_0000 && a.sendLen == 0
    case AtIpDscp => a.field < 64 && a.sendLen == 0
    case AtTpSrc => a.field < 0x1_0000 && a.sendLen == 0
    case AtTpDst => a.field < 0x1_0000 && a.sendLen == 0
    case AtSetQueue => a.field < 0x1_0000_0000 && a.sendLen == 0
    case _ => false
  }

  /** A list of such actions in which a SET_QUEUE has its OUTPUT, with no length to send. */
  predicate Image(ps: seq<PacketAction>) {
    if ps == [] then true
    else Canonical(ps[0])
         && if ps[0].kind == AtSetQueue then
              |ps| > 1 && ps[1].kind == AtOutput && Canonical(ps[1]) && ps[1].sendLen == 0 && Image(ps[2..])
            else Image(ps[1..])
  }

  lemma {:induction false} ImageIsFoldable(ps: seq<PacketAction>)
    requires Image(ps)
    ensures Foldable(ps)
  {
    if ps != [] {
      if ps[0].kind == AtSetQueue { ImageIsFoldable(ps[2..]); } else { ImageIsFoldable(ps[1..]); }
    }
  }

  lemma OneIsCanonical(a: Action)
    ensures forall p <- Compiled(a) :: Canonical(p)
  {
    if a.Enqueue? || a.Output? { PortsRoundTrip(a.port, 0); }
  }

  lemma ImagePrepend(first: seq<PacketAction>, rest: seq<PacketAction>)
    requires |first| == (if |first| > 0 && first[0].kind == AtSetQueue then 2 else 1)
    requires Canonical(first[0]) && Image(rest)
    requires |first| == 2 ==> first[1].kind == AtOutput && Canonical(first[1]) && first[1].sendLen == 0
    ensures Image(first + rest)
  {
    assert (first + rest)[|first|..] == rest;
  }

  lemma {:induction false} TranslatedIsImage(actions: seq<Action>)
    ensures Image(CompiledAll(actions))
  {
    if actions != [] {
      TranslatedIsImage(actions[1..]);
      OneIsCanonical(actions[0]);
      var first := Compiled(actions[0]);
      assert first[0] in first && first[|first| - 1] in first;
      ImagePrepend(first, CompiledAll(actions[1..]));
    }
  }

  /** The other direction: translating back and forth restores exactly the pipeline lists that
      a translation can produce. */
  lemma {:induction false} PipelineRoundTrip(ps: seq<PacketAction>)
    requires Foldable(ps)
    ensures CompiledAll(DecompiledAll(ps)) == ps <==> Image(ps)
  {
    if CompiledAll(DecompiledAll(ps)) == ps { TranslatedIsImage(DecompiledAll(ps)); }
    if Image(ps) { ImageRestored(ps); }
  }

  lemma PlainRestored(a: PacketAction)
    requires Canonical(a) && a.kind !in {AtSetQueue, AtOutput}
    ensures var back := Decompiled(a, None); |back| == 1 && Compiled(back[0]) == [a]
  {
  }

  lemma OutputRestored(a: PacketAction)
    requires Canonical(a) && a.kind == AtOutput
    ensures OutPort(Port16(Field32(a))) == a.field
    ensures var back := Decompiled(a, None); |back| == 1 && Compiled(back[0]) == [a]
  {
    PortsRoundTrip(0, Field32(a));
  }

  lemma CanonicalRestored(first: seq<PacketAction>)
    requires |first| == (if |first| > 0 && first[0].kind == AtSetQueue then 2 else 1) && Canonical(first[0])
    requires |first| == 2 ==> first[1].kind == AtOutput && Canonical(first[1]) && first[1].sendLen == 0
    ensures var back := Decompiled(first[0], if |first| == 2 then Some(first[1]) else None);
            |back| == 1 && Compiled(back[0]) == first
  {
    if first[0].kind == AtSetQueue { OutputRestored(first[1]); }
    else if first[0].kind == AtOutput { OutputRestored(first[0]); }
    else { PlainRestored(first[0]); }
  }

  lemma {:induction false} ImageRestored(ps: seq<PacketAction>)
    requires Foldable(ps) && Image(ps)
    ensures CompiledAll(DecompiledAll(ps)) == ps
  {
    if ps != [] {
      var n := if ps[0].kind == AtSetQueue then 2 else 1;
      CanonicalRestored(ps[..n]);
      ImageRestored(ps[n..]);
      FoldOne(ps[..n], ps[n..]);
      assert ps == ps[..n] + ps[n..];
      assert DecompiledAll(ps)[1..] == DecompiledAll(ps[n..]);
    }
  }
}
