/**
 What the translation of OpenFlow 1.0 action lists means for a packet. On one side, the actions
 as section 3.3 of the OpenFlow 1.0.0 specification gives them: an OUTPUT sends the packet as it
 is by then, an ENQUEUE sends it through a queue of the port. On the other side, the pipeline,
 where the queue set by SET_QUEUE stays with the packet (section 5.12 of the OpenFlow 1.3.0
 specification).
 */
module OpenFlow10Meaning {
  import opened Wrappers
  import opened OpenFlow10Actions

  // ----- What a port number stands for -----

  datatype Port = InPort | Table | Normal | Flood | All | Controller | Local | Nowhere | Highest | Numbered(number: nat)

  /** Port numbers of OpenFlow 1.0 (section 5.2.1 of the OpenFlow 1.0.0 specification). */
  function Port10(port: U16): Port {
    match port
    case 0xff00 => Highest
    case 0xfff8 => InPort
    case 0xfff9 => Table
    case 0xfffa => Normal
    case 0xfffb => Flood
    case 0xfffc => All
    case 0xfffd => Controller
    case 0xfffe => Local
    case 0xffff => Nowhere
    case _ => Numbered(port)
  }

  /** Port numbers of the pipeline, which are those of section A.2.1 of the OpenFlow 1.3.0
      specification. */
  function PortOfPipeline(port: U64): Port {
    match port
    case 0xffff_ff00 => Highest
    case 0xffff_fff8 => InPort
    case 0xffff_fff9 => Table
    case 0xffff_fffa => Normal
    case 0xffff_fffb => Flood
    case 0xffff_fffc => All
    case 0xffff_fffd => Controller
    case 0xffff_fffe => Local
    case 0xffff_ffff => Nowhere
    case _ => Numbered(port)
  }

  /** A translated port stands for the same. The way back keeps what a number of 32 bits stands for
      exactly if it is one of the special ports, or a number that is not special in 16 bits. */
  lemma PortMeaningKept(port: U16, pipelinePort: U32)
    ensures PortOfPipeline(OutPort(port)) == Port10(port)
    ensures Port10(Port16(pipelinePort)) == PortOfPipeline(pipelinePort)
            <==> !PortOfPipeline(pipelinePort).Numbered?
                 || (pipelinePort < 0x1_0000 && Port10(pipelinePort).Numbered?)
  {
  }

  // ----- Packets -----

  datatype Vlan = Vlan(vid: U16, pcp: U8)

  /** The fields of a packet that actions change. */
  datatype Header = Header(
    ethSrc: Mac, ethDst: Mac, vlan: Option<Vlan>, nwSrc: U32, nwDst: U32, dscp: U8, tpSrc: U16, tpDst: U16)

  /** A packet given to a port; queue 0 is the one packets take when no queue is asked for. */
  datatype Sent = Sent(port: Port, queue: U32, maxLen: U16, header: Header)

  const NO_QUEUE: U32 := 0

  /** A packet without a tag gets one, with the other part of it zero. */
  function WithVid(h: Header, vid: U16): Header {
    h.(vlan := Some(Vlan(vid, if h.vlan.Some? then h.vlan.value.pcp else 0)))
  }

  function WithPcp(h: Header, pcp: U8): Header {
    h.(vlan := Some(Vlan(if h.vlan.Some? then h.vlan.value.vid else 0, pcp)))
  }

  // ----- OpenFlow 1.0 -----

  function Header10(h: Header, a: Action): Header {
    match a
    case Output(_, _) => h
    case SetVlanVid(vid) => WithVid(h, vid)
    case SetVlanPcp(pcp) => WithPcp(h, pcp)
    case StripVlan => h.(vlan := None)
    case SetDlSrc(mac) => h.(ethSrc := mac)
    case SetDlDst(mac) => h.(ethDst := mac)
    case SetNwSrc(address) => h.(nwSrc := address)
    case SetNwDst(address) => h.(nwDst := address)
    case SetNwTos(tos) => h.(dscp := tos / 4)
    case SetTpSrc(tp) => h.(tpSrc := tp)
    case SetTpDst(tp) => h.(tpDst := tp)
    case Enqueue(_, _) => h
  }

  function Sends10(h: Header, actions: seq<Action>): seq<Sent>
    decreases |actions|
  {
    if actions == [] then []
    else
      var rest := Sends10(Header10(h, actions[0]), actions[1..]);
      match actions[0]
      case Output(port, maxLen) => [Sent(Port10(port), NO_QUEUE, maxLen, h)] + rest
      case Enqueue(port, queue) => [Sent(Port10(port), queue, 0, h)] + rest
      case _ => rest
  }

  // ----- The pipeline -----

  function HeaderOf(h: Header, a: PacketAction): Header {
    match a.kind
    case AtPopVlan => h.(vlan := None)
    case AtEthDst => h.(ethDst := a.field % 0x1_0000_0000_0000)
    case AtEthSrc => h.(ethSrc := a.field % 0x1_0000_0000_0000)
    case AtVlanVid => WithVid(h, Field16(a))
    case AtVlanPcp => WithPcp(h, Field8(a))
    case AtIpDscp => h.(dscp := Field8(a))
    case AtNwSrc => h.(nwSrc := Field32(a))
    case AtNwDst => h.(nwDst := Field32(a))
    case AtTpSrc => h.(tpSrc := Field16(a))
    case AtTpDst => h.(tpDst := Field16(a))
    case _ => h
  }

  /** What is sent by a packet that has taken a queue already. */
  function SendsOf(h: Header, queue: U32, ps: seq<PacketAction>): seq<Sent>
    decreases |ps|
  {
    if ps == [] then []
    else
      var queue' := if ps[0].kind == AtSetQueue then Field32(ps[0]) else queue;
      var rest := SendsOf(HeaderOf(h, ps[0]), queue', ps[1..]);
      if ps[0].kind == AtOutput then [Sent(PortOfPipeline(Field32(ps[0])), queue, ps[0].sendLen, h)] + rest else rest
  }

  // ----- The translation -----

  /** The last queue asked for before each OUTPUT is the one taken anyway. */
  predicate QueuesReset(actions: seq<Action>, queue: U32)
    decreases |actions|
  {
    if actions == [] then true
    else match actions[0]
      case Output(_, _) => queue == NO_QUEUE && QueuesReset(actions[1..], queue)
      case Enqueue(_, q) => QueuesReset(actions[1..], q)
      case _ => QueuesReset(actions[1..], queue)
  }

  ghost predicate SameButQueues(a: seq<Sent>, b: seq<Sent>) {
    |a| == |b| && forall i | 0 <= i < |a| :: a[i] == b[i].(queue := a[i].queue)
  }

  ghost predicate Agrees(h: Header, actions: seq<Action>, queue: U32) {
    var a, b := Sends10(h, actions), SendsOf(h, queue, CompiledAll(actions));
    SameButQueues(a, b) && (a == b <==> QueuesReset(actions, queue))
  }

  lemma PlainHeader(h: Header, a: Action)
    requires !a.Output? && !a.Enqueue?
    ensures var c := Compiled(a);
            |c| == 1 && c[0].kind != AtOutput && c[0].kind != AtSetQueue && HeaderOf(h, c[0]) == Header10(h, a)
  {
  }

  lemma FirstPlain(h: Header, queue: U32, a: Action, rest: seq<PacketAction>)
    requires !a.Output? && !a.Enqueue?
    ensures SendsOf(h, queue, Compiled(a) + rest) == SendsOf(Header10(h, a), queue, rest)
  {
    PlainHeader(h, a);
    SkipFirst(h, queue, Compiled(a)[0], rest);
    assert Compiled(a) == [Compiled(a)[0]];
  }

  lemma SkipFirst(h: Header, queue: U32, p: PacketAction, rest: seq<PacketAction>)
    requires p.kind != AtOutput && p.kind != AtSetQueue
    ensures SendsOf(h, queue, [p] + rest) == SendsOf(HeaderOf(h, p), queue, rest)
  {
    assert ([p] + rest)[1..] == rest;
  }

  lemma FirstOutput(h: Header, queue: U32, a: Action, rest: seq<PacketAction>)
    requires a.Output?
    ensures SendsOf(h, queue, Compiled(a) + rest)
            == [Sent(Port10(a.port), queue, a.maxLen, h)] + SendsOf(h, queue, rest)
  {
    PortMeaningKept(a.port, 0);
    assert (Compiled(a) + rest)[1..] == rest;
  }

  lemma FirstEnqueue(h: Header, queue: U32, a: Action, rest: seq<PacketAction>)
    requires a.Enqueue?
    ensures SendsOf(h, queue, Compiled(a) + rest)
            == [Sent(Port10(a.port), a.queue, 0, h)] + SendsOf(h, a.queue, rest)
  {
    PortMeaningKept(a.port, 0);
    var ps := Compiled(a) + rest;
    assert ps[1..] == [Compiled(a)[1]] + rest && ps[1..][1..] == rest;
  }

  lemma SameHead(x: Sent, y: Sent, a: seq<Sent>, b: seq<Sent>)
    requires x == y.(queue := x.queue) && SameButQueues(a, b)
    ensures SameButQueues([x] + a, [y] + b) && ([x] + a == [y] + b <==> x == y && a == b)
  {
    if [x] + a == [y] + b {
      assert ([x] + a)[0] == ([y] + b)[0] && ([x] + a)[1..] == a && ([y] + b)[1..] == b;
    }
  }

  /** For every list and every packet, the translation sends the same packets, changed in the same
      way, to the same ports in the same order. It sends them through the same queues exactly if
      no OUTPUT comes after an ENQUEUE whose queue would still be set. */
  lemma {:induction false} MeaningKept(h: Header, actions: seq<Action>, queue: U32)
    ensures Agrees(h, actions, queue)
    decreases |actions|
  {
    if actions != [] {
      var a, rest := actions[0], actions[1..];
      if a.Output? {
        MeaningKept(h, rest, queue);
        FirstOutput(h, queue, a, CompiledAll(rest));
        var port := Port10(a.port);
        SameHead(Sent(port, NO_QUEUE, a.maxLen, h), Sent(port, queue, a.maxLen, h),
                 Sends10(h, rest), SendsOf(h, queue, CompiledAll(rest)));
      } else if a.Enqueue? {
        MeaningKept(h, rest, a.queue);
        FirstEnqueue(h, queue, a, CompiledAll(rest));
        var sent := Sent(Port10(a.port), a.queue, 0, h);
        SameHead(sent, sent, Sends10(h, rest), SendsOf(h, a.queue, CompiledAll(rest)));
      } else {
        MeaningKept(Header10(h, a), rest, queue);
        FirstPlain(h, queue, a, CompiledAll(rest));
      }
    }
  }

  /** A list in which an OUTPUT follows an ENQUEUE: the OUTPUT goes through the queue too. */
  lemma QueueStays(h: Header, port1: U16, port2: U16, queue: U32)
    requires queue != NO_QUEUE
    ensures var actions := [Enqueue(port1, queue), Output(port2, 0)];
            !QueuesReset(actions, NO_QUEUE) && Sends10(h, actions) != SendsOf(h, NO_QUEUE, CompiledAll(actions))
  {
    var actions := [Enqueue(port1, queue), Output(port2, 0)];
    MeaningKept(h, actions, NO_QUEUE);
    assert actions[1..] == [Output(port2, 0)];
  }

  /** Without an OUTPUT behind an ENQUEUE the meaning is kept. */
  lemma {:induction false} EnqueuesLast(actions: seq<Action>, queue: U32)
    requires forall i, j | 0 <= i < j < |actions| :: actions[i].Enqueue? ==> !actions[j].Output?
    requires queue == NO_QUEUE || forall j | 0 <= j < |actions| :: !actions[j].Output?
    ensures QueuesReset(actions, queue)
    decreases |actions|
  {
    if actions != [] {
      EnqueuesLast(actions[1..], if actions[0].Enqueue? then actions[0].queue else queue);
    }
  }

  // ----- The way back -----

  /** The port number stands for the same in 16 bits. */
  predicate PortFits(port: U32) {
    !PortOfPipeline(port).Numbered? || (port < 0x1_0000 && Port10(port).Numbered?)
  }

  /** A list of the pipeline that says nothing OpenFlow 1.0 cannot: its actions have a counterpart, or
      do nothing; the ports are known; a DSCP has 6 bits; and a queue is set for the OUTPUT behind it,
      which sends no packet to the controller. */
  predicate Sayable(ps: seq<PacketAction>) {
    if ps == [] then true
    else if ps[0].kind == AtSetQueue then
      |ps| > 1 && ps[1].kind == AtOutput && PortFits(Field32(ps[1])) && ps[1].sendLen == 0 && Sayable(ps[2..])
    else
      && ps[0].kind !in {AtPushVlan, AtExperimenter, AtOther}
      && (ps[0].kind == AtOutput ==> PortFits(Field32(ps[0])))
      && (ps[0].kind == AtIpDscp ==> Field8(ps[0]) < 64)
      && Sayable(ps[1..])
  }

  ghost predicate AgreesBack(h: Header, ps: seq<PacketAction>, queue: U32)
    requires Foldable(ps)
  {
    var a, b := Sends10(h, DecompiledAll(ps)), SendsOf(h, queue, ps);
    SameButQueues(a, b) && (a == b <==> QueuesReset(DecompiledAll(ps), queue))
  }

  lemma PlainBack(h: Header, p: PacketAction)
    requires p.kind !in {AtOutput, AtSetQueue, AtPushVlan, AtExperimenter, AtOther} && (p.kind == AtIpDscp ==> Field8(p) < 64)
    ensures var c := Decompiled(p, None);
            if p.kind == AtNoAction then c == [] && HeaderOf(h, p) == h
            else |c| == 1 && !c[0].Output? && !c[0].Enqueue? && Header10(h, c[0]) == HeaderOf(h, p)
  {
  }

  lemma FirstPlainBack(h: Header, queue: U32, c: seq<Action>, rest: seq<Action>)
    requires |c| == 1 && !c[0].Output? && !c[0].Enqueue?
    ensures Sends10(h, c + rest) == Sends10(Header10(h, c[0]), rest)
    ensures QueuesReset(c + rest, queue) <==> QueuesReset(rest, queue)
  {
    assert (c + rest)[1..] == rest;
  }

  lemma FirstSentBack(h: Header, queue: U32, a: Action, rest: seq<Action>)
    requires a.Output? || a.Enqueue?
    ensures Sends10(h, [a] + rest)
            == [if a.Output? then Sent(Port10(a.port), NO_QUEUE, a.maxLen, h) else Sent(Port10(a.port), a.queue, 0, h)]
               + Sends10(h, rest)
    ensures QueuesReset([a] + rest, queue)
            <==> if a.Output? then queue == NO_QUEUE && QueuesReset(rest, queue) else QueuesReset(rest, a.queue)
  {
    assert ([a] + rest)[1..] == rest;
  }

  /** The way back keeps the meaning of every list that says nothing OpenFlow 1.0 cannot, in the same
      way: packets, changes, ports and order always, and queues under the same condition. */
  lemma {:induction false} MeaningKeptBack(h: Header, ps: seq<PacketAction>, queue: U32)
    requires Sayable(ps)
    ensures Foldable(ps) && AgreesBack(h, ps, queue)
    decreases |ps|
  {
    if ps != [] {
      if ps[0].kind == AtSetQueue {
        MeaningKeptBack(h, ps[2..], Field32(ps[0]));
        EnqueueBack(h, ps, queue);
      } else {
        MeaningKeptBack(HeaderOf(h, ps[0]), ps[1..], queue);
        if ps[0].kind == AtOutput { OutputBack(h, ps, queue); } else { OtherBack(h, ps, queue); }
      }
    }
  }

  lemma {:induction false} EnqueueBack(h: Header, ps: seq<PacketAction>, queue: U32)
    requires Sayable(ps) && ps != [] && ps[0].kind == AtSetQueue
    requires Foldable(ps[2..]) && AgreesBack(h, ps[2..], Field32(ps[0]))
    ensures Foldable(ps) && AgreesBack(h, ps, queue)
  {
    var q, port, rest := Field32(ps[0]), Field32(ps[1]), ps[2..];
    PortMeaningKept(0, port);
    assert ps[1..][1..] == rest;
    FirstSentBack(h, queue, Enqueue(Port16(port), q), DecompiledAll(rest));
    var sent := Sent(PortOfPipeline(port), q, 0, h);
    SameHead(sent, sent, Sends10(h, DecompiledAll(rest)), SendsOf(h, q, rest));
  }

  lemma {:induction false} OutputBack(h: Header, ps: seq<PacketAction>, queue: U32)
    requires Sayable(ps) && ps != [] && ps[0].kind == AtOutput && Foldable(ps[1..]) && AgreesBack(h, ps[1..], queue)
    ensures Foldable(ps) && AgreesBack(h, ps, queue)
  {
    var port, rest := Field32(ps[0]), ps[1..];
    PortMeaningKept(0, port);
    FirstSentBack(h, queue, Output(Port16(port), ps[0].sendLen), DecompiledAll(rest));
    var port' := PortOfPipeline(port);
    SameHead(Sent(port', NO_QUEUE, ps[0].sendLen, h), Sent(port', queue, ps[0].sendLen, h),
             Sends10(h, DecompiledAll(rest)), SendsOf(h, queue, rest));
  }

  lemma {:induction false} OtherBack(h: Header, ps: seq<PacketAction>, queue: U32)
    requires Sayable(ps) && ps != [] && ps[0].kind != AtOutput && ps[0].kind != AtSetQueue
    requires Foldable(ps[1..]) && AgreesBack(HeaderOf(h, ps[0]), ps[1..], queue)
    ensures Foldable(ps) && AgreesBack(h, ps, queue)
  {
    PlainBack(h, ps[0]);
    var c := Decompiled(ps[0], None);
    if c == [] {
      assert DecompiledAll(ps) == DecompiledAll(ps[1..]);
    } else {
      FirstPlainBack(h, queue, c, DecompiledAll(ps[1..]));
    }
  }
}
