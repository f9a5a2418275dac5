/**
 Port modification of OpenFlow 1.3 (section A.3.4.3 of the OpenFlow 1.3.0 specification): masked
 changes of the configuration of one port or of all ports, and the configuration reported back.
 */
module OpenFlow13PortMod {
  import opened Wrappers

  type Bits = bv32

  const PORT_DOWN: Bits := 0x01
  const NO_RECV: Bits := 0x04
  const NO_FWD: Bits := 0x20
  const NO_PACKET_IN: Bits := 0x40

  /** The bits of the configuration there are. */
  const SUPPORTED: Bits := 0x65

  type PortNumber = n: nat | n < 0x1_0000_0000

  const MAX: PortNumber := 0xffff_ff00
  const IN_PORT: PortNumber := 0xffff_fff8
  const TABLE: PortNumber := 0xffff_fff9
  const NORMAL: PortNumber := 0xffff_fffa
  const FLOOD: PortNumber := 0xffff_fffb
  const ALL: PortNumber := 0xffff_fffc
  const CONTROLLER: PortNumber := 0xffff_fffd
  const LOCAL: PortNumber := 0xffff_fffe
  const ANY: PortNumber := 0xffff_ffff

  datatype Error = BadPort | Base

  datatype Port = Port(up: bool, dropReceived: bool, forwardPackets: bool, generatePacketIn: bool, advertised: Bits)

  datatype Slot = Empty | Slot(port: Port, attached: bool)

  datatype PortMod = PortMod(port: PortNumber, config: Bits, mask: Bits, advertise: Bits)

  predicate InUse(slot: Slot) {
    slot.Slot? && slot.attached
  }

  // ----- The specification -----

  /** A bit is what the message says where the mask has it, and what it was elsewhere. */
  function Masked(was: Bits, m: PortMod): Bits {
    ((was & !m.mask) | (m.config & m.mask)) & SUPPORTED
  }

  predicate IsReserved(n: PortNumber) {
    n in {MAX, IN_PORT, TABLE, NORMAL, FLOOD, CONTROLLER, LOCAL}
  }

  predicate IsAll(n: PortNumber) {
    n == ALL || n == ANY
  }

  /** The configuration that is reported for a port. */
  function Config(p: Port): Bits {
    (if p.up then 0 else PORT_DOWN) | (if p.dropReceived then NO_RECV else 0)
    | (if p.forwardPackets then 0 else NO_FWD) | (if p.generatePacketIn then 0 else NO_PACKET_IN)
  }

  /** The calls of the driver that a message leads to, for one port. */
  function Changed(p: Port, m: PortMod): Port {
    Port(if m.mask & PORT_DOWN != 0 then m.config & PORT_DOWN == 0 else p.up,
         if m.mask & NO_RECV != 0 then m.config & NO_RECV != 0 else p.dropReceived,
         if m.mask & NO_FWD != 0 then m.config & NO_FWD == 0 else p.forwardPackets,
         if m.mask & NO_PACKET_IN != 0 then m.config & NO_PACKET_IN == 0 else p.generatePacketIn,
         if m.advertise != 0 then m.advertise else p.advertised)
  }

  /** Whether any call of the driver is made. */
  predicate Touches(m: PortMod) {
    m.mask & SUPPORTED != 0 || m.advertise != 0
  }

  /** Whether the message is for the n-th port of the switch. */
  predicate Addresses(m: PortMod, n: nat) {
    n > 0 && (IsAll(m.port) || (m.port == n && !IsReserved(m.port)))
  }

  function ErrorOf(slots: seq<Slot>, m: PortMod): Option<Error> {
    if IsReserved(m.port) then Some(BadPort)
    else if IsAll(m.port) then None
    else if Touches(m) && !(0 < m.port < |slots| && InUse(slots[m.port])) then Some(Base)
    else None
  }

  function AfterMod(slots: seq<Slot>, m: PortMod): (r: seq<Slot>)
    ensures |r| == |slots|
  {
    seq(|slots|, n requires 0 <= n < |slots| =>
          if Addresses(m, n) && InUse(slots[n]) then slots[n].(port := Changed(slots[n].port, m)) else slots[n])
  }

  /** What the four bits of a report say, and that it has no others (section A.2.1 of the OpenFlow 1.3.0
      specification). */
  lemma ConfigBits(p: Port)
    ensures Config(p) & 0x01 != 0 <==> !p.up
    ensures Config(p) & 0x04 != 0 <==> p.dropReceived
    ensures Config(p) & 0x20 != 0 <==> !p.forwardPackets
    ensures Config(p) & 0x40 != 0 <==> !p.generatePacketIn
    ensures Config(p) & 0x65 == Config(p)
  {
  }

  /** The report after a message is the masked report from before, on the four bits. */
  lemma ChangedConfig(p: Port, m: PortMod)
    ensures Config(Changed(p, m)) == Masked(Config(p), m)
    ensures Config(Changed(p, m)) == ((Config(p) & !m.mask) | (m.config & m.mask)) & 0x65
  {
    var q := Changed(p, m);
    BitOf(Config(p), m.mask, m.config);
  }

  lemma OneBit(was: Bits, mask: Bits, config: Bits, b: Bits)
    requires b == PORT_DOWN || b == NO_RECV || b == NO_FWD || b == NO_PACKET_IN
    ensures ((was & !mask) | (config & mask)) & b == if mask & b != 0 then config & b else was & b
  {
  }

  lemma BitByBit(x: Bits)
    ensures x & SUPPORTED == (x & PORT_DOWN) | (x & NO_RECV) | (x & NO_FWD) | (x & NO_PACKET_IN)
  {
  }

  lemma BitOf(was: Bits, mask: Bits, config: Bits)
    ensures ((was & !mask) | (config & mask)) & SUPPORTED
            == (if mask & PORT_DOWN != 0 then config & PORT_DOWN else was & PORT_DOWN)
               | (if mask & NO_RECV != 0 then config & NO_RECV else was & NO_RECV)
               | (if mask & NO_FWD != 0 then config & NO_FWD else was & NO_FWD)
               | (if mask & NO_PACKET_IN != 0 then config & NO_PACKET_IN else was & NO_PACKET_IN)
  {
    BitByBit((was & !mask) | (config & mask));
    OneBit(was, mask, config, PORT_DOWN);
    OneBit(was, mask, config, NO_RECV);
    OneBit(was, mask, config, NO_FWD);
    OneBit(was, mask, config, NO_PACKET_IN);
  }

  /** The ports a message is for: the one with its number, or all of them, but never number 0. */
  ghost predicate For(m: PortMod, n: nat) {
    n > 0 && (m.port == n || m.port == 0xffff_fffc || m.port == 0xffff_ffff)
  }

  /** The ports a message is for, and that are in use, report the masked change; all others stay. */
  ghost predicate Applied(slots: seq<Slot>, m: PortMod, r: seq<Slot>) {
    && |r| == |slots|
    && forall n | 0 <= n < |slots| ::
         if For(m, n) && InUse(slots[n])
         then InUse(r[n]) && Config(r[n].port) == ((Config(slots[n].port) & !m.mask) | (m.config & m.mask)) & 0x65
         else r[n] == slots[n]
  }

  lemma AfterModApplied(slots: seq<Slot>, m: PortMod)
    requires ErrorOf(slots, m).None?
    ensures Applied(slots, m, AfterMod(slots, m))
  {
    forall n | 0 <= n < |slots| && InUse(slots[n])
      ensures Config(Changed(slots[n].port, m)) == ((Config(slots[n].port) & !m.mask) | (m.config & m.mask)) & 0x65
    {
      ChangedConfig(slots[n].port, m);
    }
  }

  // ----- Sequences of messages -----

  function AfterMods(slots: seq<Slot>, ms: seq<PortMod>): (r: seq<Slot>)
    ensures |r| == |slots|
    decreases |ms|
  {
    if ms == [] then slots else AfterMods(AfterMod(slots, ms[0]), ms[1..])
  }

  /** The fold over the messages for the n-th port. */
  function MaskedAll(was: Bits, ms: seq<PortMod>, n: nat): Bits
    decreases |ms|
  {
    if ms == [] then was
    else MaskedAll(if Addresses(ms[0], n) then Masked(was, ms[0]) else was, ms[1..], n)
  }

  /** After any sequence of messages, the configuration reported for each port in use is the fold
      of the masked changes addressed to it; which slots are in use does not change, and the
      others keep what they hold. */
  lemma {:induction false} ReportedConfig(slots: seq<Slot>, ms: seq<PortMod>, n: nat)
    requires n < |slots|
    ensures var r := AfterMods(slots, ms);
            if InUse(slots[n]) then InUse(r[n]) && Config(r[n].port) == MaskedAll(Config(slots[n].port), ms, n)
            else r[n] == slots[n]
    decreases |ms|
  {
    if ms != [] {
      if InUse(slots[n]) { ChangedConfig(slots[n].port, ms[0]); }
      ReportedConfig(AfterMod(slots, ms[0]), ms[1..], n);
    }
  }

  /** What the last message for the n-th port that advertises anything asks for; `was` if none does. */
  ghost predicate LastAdvertised(was: Bits, ms: seq<PortMod>, n: nat, bits: Bits) {
    if exists i :: Advertises(ms, n, i) then
      exists i :: Advertises(ms, n, i) && ms[i].advertise == bits && forall j | i < j :: !Advertises(ms, n, j)
    else bits == was
  }

  ghost predicate Advertises(ms: seq<PortMod>, n: nat, i: int) {
    0 <= i < |ms| && Addresses(ms[i], n) && ms[i].advertise != 0
  }

  lemma AdvertisesLater(ms: seq<PortMod>, n: nat, was: Bits, now: Bits, bits: Bits)
    requires ms != [] && now == (if Advertises(ms, n, 0) then ms[0].advertise else was)
    requires LastAdvertised(now, ms[1..], n, bits)
    ensures LastAdvertised(was, ms, n, bits)
  {
    var rest := ms[1..];
    assert forall i: int :: i > 0 ==> (Advertises(ms, n, i) <==> Advertises(rest, n, i - 1));
    if exists i :: Advertises(rest, n, i) {
      var i :| Advertises(rest, n, i) && rest[i].advertise == bits && forall j | i < j :: !Advertises(rest, n, j);
      assert Advertises(ms, n, i + 1);
      assert forall j | i + 1 < j :: Advertises(ms, n, j) <==> Advertises(rest, n, j - 1);
    } else if Advertises(ms, n, 0) {
      assert forall j | 0 < j :: Advertises(ms, n, j) <==> Advertises(rest, n, j - 1);
    }
  }

  /** After any sequence of messages, a port in use advertises what the last message for it asked for
      that asked for anything. */
  lemma {:induction false} Advertised(slots: seq<Slot>, ms: seq<PortMod>, n: nat)
    requires n < |slots| && InUse(slots[n])
    ensures var r := AfterMods(slots, ms)[n]; r.Slot? && LastAdvertised(slots[n].port.advertised, ms, n, r.port.advertised)
    decreases |ms|
  {
    if ms != [] {
      var next := AfterMod(slots, ms[0]);
      Advertised(next, ms[1..], n);
      AdvertisesLater(ms, n, slots[n].port.advertised, next[n].port.advertised, AfterMods(slots, ms)[n].port.advertised);
    }
  }

  /** A message that is refused changes nothing. */
  lemma RefusedChangesNothing(slots: seq<Slot>, m: PortMod)
    requires ErrorOf(slots, m).Some?
    ensures AfterMod(slots, m) == slots
  {
  }

  // ----- The endpoint -----

  /** What the driver can be told to set. */
  datatype Flag = DropReceived(v: bool) | Forward(v: bool) | PacketIn(v: bool) | Advertise(bits: Bits) | Up(v: bool)

  function WithFlag(p: Port, f: Flag): Port {
    match f
    case DropReceived(v) => p.(dropReceived := v)
    case Forward(v) => p.(forwardPackets := v)
    case PacketIn(v) => p.(generatePacketIn := v)
    case Advertise(bits) => p.(advertised := bits)
    case Up(v) => p.(up := v)
  }

  ghost predicate Settable(slots: seq<Slot>, n: nat) {
    0 < n < |slots| && InUse(slots[n])
  }

  /** A slot with its port replaced, if it is in use; no other slot changes. */
  ghost function WithPort(slots: seq<Slot>, n: nat, p: Port): seq<Slot> {
    if Settable(slots, n) then slots[n := slots[n].(port := p)] else slots
  }

  lemma TouchesAnyFlag(m: PortMod)
    ensures Touches(m)
            <==> m.mask & PORT_DOWN != 0 || m.mask & NO_RECV != 0 || m.mask & NO_FWD != 0 || m.mask & NO_PACKET_IN != 0
                 || m.advertise != 0
  {
    assert m.mask & SUPPORTED == (m.mask & PORT_DOWN) | (m.mask & NO_RECV) | (m.mask & NO_FWD) | (m.mask & NO_PACKET_IN);
  }

  class Endpoint {
    const logicalPorts: array<Slot>

    constructor (ports: array<Slot>)
      ensures logicalPorts == ports
    {
      logicalPorts := ports;
    }

    /** The driver changes one flag of a port in use, and fails for any other number. */
    method Set(n: nat, f: Flag) returns (ok: bool)
      modifies logicalPorts
      ensures ok <==> Settable(old(logicalPorts[..]), n)
      ensures ok ==> logicalPorts[..] == WithPort(old(logicalPorts[..]), n, WithFlag(old(logicalPorts[n]).port, f))
      ensures !ok ==> logicalPorts[..] == old(logicalPorts[..])
    {
      ok := 0 < n < logicalPorts.Length && InUse(logicalPorts[n]);
      if ok {
        logicalPorts[n] := logicalPorts[n].(port := WithFlag(logicalPorts[n].port, f));
      }
    }

    method SetIf(wanted: bool, n: nat, f: Flag) returns (ok: bool)
      modifies logicalPorts
      ensures ok <==> !wanted || Settable(old(logicalPorts[..]), n)
      ensures Settable(old(logicalPorts[..]), n) ==>
                var p := old(logicalPorts[n]).port;
                logicalPorts[..] == WithPort(old(logicalPorts[..]), n, if wanted then WithFlag(p, f) else p)
      ensures !Settable(old(logicalPorts[..]), n) ==> logicalPorts[..] == old(logicalPorts[..])
    {
      ok := true;
      if wanted {
        ok := Set(n, f);
      }
    }

    /** The flags in the mask, one after the other, until the driver fails. */
    method PortSetConfig(n: nat, m: PortMod) returns (ok: bool)
      modifies logicalPorts
      ensures ok <==> !Touches(m) || Settable(old(logicalPorts[..]), n)
      ensures Settable(old(logicalPorts[..]), n) ==>
                logicalPorts[..] == WithPort(old(logicalPorts[..]), n, Changed(old(logicalPorts[n]).port, m))
      ensures !Settable(old(logicalPorts[..]), n) ==> logicalPorts[..] == old(logicalPorts[..])
    {
      TouchesAnyFlag(m);
      ok := SetIf(m.mask & NO_RECV != 0, n, DropReceived(m.config & NO_RECV != 0));
      if !ok { return; }
      ok := SetIf(m.mask & NO_FWD != 0, n, Forward(m.config & NO_FWD == 0));
      if !ok { return; }
      ok := SetIf(m.mask & NO_PACKET_IN != 0, n, PacketIn(m.config & NO_PACKET_IN == 0));
      if !ok { return; }
      ok := SetIf(m.advertise != 0, n, Advertise(m.advertise));
      if !ok { return; }
      ok := SetIf(m.mask & PORT_DOWN != 0, n, Up(m.config & PORT_DOWN == 0));
    }

    method HandlePortMod(m: PortMod) returns (error: Option<Error>)
      modifies logicalPorts
      ensures error == ErrorOf(old(logicalPorts[..]), m)
      ensures logicalPorts[..] == AfterMod(old(logicalPorts[..]), m)
      ensures error == Some(BadPort) <==> m.port in {0xffff_ff00, 0xffff_fff8, 0xffff_fff9, 0xffff_fffa, 0xffff_fffb,
                                                     0xffff_fffd, 0xffff_fffe}
      ensures error == Some(Base)
              <==> m.port !in {0xffff_ff00, 0xffff_fff8, 0xffff_fff9, 0xffff_fffa, 0xffff_fffb, 0xffff_fffc, 0xffff_fffd,
                               0xffff_fffe, 0xffff_ffff}
                   && (m.mask & 0x65 != 0 || m.advertise != 0) && !Settable(old(logicalPorts[..]), m.port)
      ensures if error.None? then Applied(old(logicalPorts[..]), m, logicalPorts[..])
              else logicalPorts[..] == old(logicalPorts[..])
    {
      if ErrorOf(logicalPorts[..], m).None? {
        AfterModApplied(logicalPorts[..], m);
      } else {
        RefusedChangesNothing(logicalPorts[..], m);
      }
      if IsReserved(m.port) {
        return Some(BadPort);
      }
      if IsAll(m.port) {
        SetAll(m);
        return None;
      }
      var ok := PortSetConfig(m.port, m);
      error := if ok then None else Some(Base);
    }

    method SetAll(m: PortMod)
      requires IsAll(m.port)
      modifies logicalPorts
      ensures logicalPorts[..] == AfterMod(old(logicalPorts[..]), m)
    {
      var n := 1;
      while n < logicalPorts.Length
        invariant 1 <= n && (n <= logicalPorts.Length || logicalPorts.Length == 0)
        invariant forall k | 0 <= k < logicalPorts.Length ::
                    logicalPorts[k] == if k < n then AfterMod(old(logicalPorts[..]), m)[k] else old(logicalPorts[k])
      {
        if InUse(logicalPorts[n]) {
          var ok := PortSetConfig(n, m);
        }
        n := n + 1;
      }
    }

    /** The configuration in a port description. */
    method DescribedConfig(p: Port) returns (config: Bits)
      ensures config == Config(p)
    {
      config := 0;
      if !p.up { config := config | PORT_DOWN; }
      if p.dropReceived { config := config | NO_RECV; }
      if !p.forwardPackets { config := config | NO_FWD; }
      if !p.generatePacketIn { config := config | NO_PACKET_IN; }
    }

    /** The configuration in a notification, put together in another order. */
    method NotifiedConfig(p: Port) returns (config: Bits)
      ensures config == Config(p)
    {
      config := 0;
      if !p.up { config := config | PORT_DOWN; }
      if !p.generatePacketIn { config := config | NO_PACKET_IN; }
      if !p.forwardPackets { config := config | NO_FWD; }
      if p.dropReceived { config := config | NO_RECV; }
    }
  }
}
