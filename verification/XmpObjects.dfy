/**
 The objects that hold the elements of an XMP message, and pack them into and unpack them from
 a caller's buffer. Their effect is stated by the functions of `XmpCodec` and `XmpPacking`.
 */
module XmpObjects {
  import opened Wrappers
  import opened XmpCodec
  import opened XmpRoundTrip
  import opened XmpPacking

  // ----- Packing elements -----

  /** cmemory::pack(): copy n bytes, or all there are, into the buffer. */
  method CopyOut(mem: Bytes, n: nat, buf: array<Byte>, at: nat)
    requires at + n <= buf.Length
    modifies buf
    ensures buf[..] == Over(old(buf[..]), at, Copied(mem, n))
  {
    var bytes := Copied(mem, n);
    var i := 0;
    while i < |bytes|
      invariant 0 <= i <= |bytes|
      invariant forall k | 0 <= k < buf.Length :: buf[k] == if at <= k < at + i then bytes[k - at] else old(buf[k])
    {
      buf[at + i] := bytes[i];
      i := i + 1;
    }
  }

  method PackPlain(mem: Bytes, buf: array<Byte>, at: nat) returns (stamped: Bytes)
    requires |mem| >= HEADER && at + PlainLength(mem) <= buf.Length
    modifies buf
    ensures buf[..] == PlainPacked(old(buf[..]), at, mem) && stamped == Stamped(mem)
  {
    stamped := SetLength(mem, PlainLength(mem));
    CopyOut(stamped, PlainLength(mem), buf, at);
  }

  /** What is left when the first element is packed. */
  lemma FirstPacked(was: Bytes, p: nat, rest: seq<Slot>, stamped: seq<Slot>)
    requires rest != []
    ensures var mem := Target(rest[0]);
            && InnerLength(rest) == PlainLength(mem) + InnerLength(rest[1..])
            && InnerPacked(was, p, rest) == InnerPacked(PlainPacked(was, p, mem), p + PlainLength(mem), rest[1..])
            && (stamped + [StampedSlot(rest[0])]) + StampedInner(rest[1..]) == stamped + StampedInner(rest)
  {
  }

  /** The elements of a MULTIPART one behind the other. */
  method PackInner(inner: seq<Slot>, buf: array<Byte>, at: nat) returns (stamped: seq<Slot>)
    requires at + InnerLength(inner) <= buf.Length && forall i | 0 <= i < |inner| :: |Target(inner[i])| >= HEADER
    modifies buf
    ensures buf[..] == InnerPacked(old(buf[..]), at, inner) && stamped == StampedInner(inner)
  {
    var rest, p: nat := inner, at;
    stamped := [];
    while rest != []
      invariant p + InnerLength(rest) == at + InnerLength(inner)
      invariant forall i | 0 <= i < |rest| :: |Target(rest[i])| >= HEADER
      invariant InnerPacked(buf[..], p, rest) == InnerPacked(old(buf[..]), at, inner)
      invariant stamped + StampedInner(rest) == StampedInner(inner)
      decreases |rest|
    {
      FirstPacked(buf[..], p, rest, stamped);
      assert |Target(rest[0])| >= HEADER;
      var mem := rest[0].value;
      var b := PackPlain(mem, buf, p);
      stamped := stamped + [Some(b)];
      p := p + PlainLength(mem);
      rest := rest[1..];
    }
  }

  /** The memory of the MULTIPART for its whole length, then its elements. */
  method PackMulti(mem: Bytes, inner: seq<Slot>, buf: array<Byte>, at: nat) returns (stamped: Element)
    requires Packable(Multi(mem, inner)) && at + ElementLength(Multi(mem, inner)) <= buf.Length
    modifies buf
    ensures buf[..] == ElementPacked(old(buf[..]), at, Multi(mem, inner))
    ensures stamped == StampedElement(Multi(mem, inner))
  {
    var n := HEADER + InnerLength(inner);
    var mem' := SetLength(mem, n);
    CopyOut(mem', n, buf, at);
    var inner' := PackInner(inner, buf, at + HEADER);
    stamped := Multi(mem', inner');
  }

  method PackElement(e: Element, buf: array<Byte>, at: nat) returns (stamped: Element)
    requires Packable(e) && at + ElementLength(e) <= buf.Length
    modifies buf
    ensures buf[..] == ElementPacked(old(buf[..]), at, e) && stamped == StampedElement(e)
  {
    match e {
      case Plain(mem) =>
        var b := PackPlain(mem, buf, at);
        stamped := Plain(b);
      case Multi(mem, inner) =>
        stamped := PackMulti(mem, inner, buf, at);
    }
  }

  // ----- Unpacking a MULTIPART -----

  lemma FieldAhead(b: Bytes, len: Type)
    requires |b| > HEADER && len == ReadBe16(b[2], b[3])
    ensures LengthField(b) == len && (FrameAhead(b) <==> HEADER <= len <= |b|)
    ensures !FrameAhead(b) ==> Frames(b) == []
  {
  }

  /** The elements read so far and those still ahead are all of them. */
  ghost predicate BakingOn(inner: seq<Slot>, b: Bytes, all: Baked) {
    var rest := Bake(Frames(b));
    all == Baked(inner + rest.inner, rest.error)
  }

  lemma BakeFirst(f: Bytes, b: Bytes, inner: seq<Slot>, all: Baked)
    requires FrameAhead(b) && f == b[..LengthField(b)] && BakingOn(inner, b, all)
    ensures Refused(f) ==> all.error == Some(Invalid)
    ensures !Refused(f) ==> BakingOn(inner + [BakeOne(f)], b[|f|..], all)
  {
    assert Frames(b)[0] == f && Frames(b)[1..] == Frames(b[|f|..]);
  }

  lemma BakeEnd(b: Bytes, inner: seq<Slot>, all: Baked)
    requires BakingOn(inner, b, all) && !FrameAhead(b)
    ensures all == Baked(inner, None)
  {
  }

  /** bakery(): a new element, or null for a type that is not supported. */
  method Bakery(f: Bytes) returns (baked: Slot, error: Option<Error>)
    ensures error == if Refused(f) then Some(Invalid) else None
    ensures error.None? ==> baked == BakeOne(f)
  {
    var t := TypeOf(f);
    if t == COMMAND || t == PORTNAME || t == LSINAME || t == DPID || t == PORTINFO || t == LSIINFO || t == CONTROLLER {
      if |f| < RequiredSize(t) {
        return None, Some(Invalid);
      }
      return Some(f), None;
    }
    return None, None;
  }

  /** The loop over the payload: it stops silently at a bad length field. */
  method UnpackMultipart(mem: Bytes) returns (built: Built)
    requires |mem| >= HEADER && TypeOf(mem) == MULTIPART
    ensures built == Build(mem)
  {
    ghost var all := Bake(Frames(mem[HEADER..]));
    var inner: seq<Slot>, rest := [], mem[HEADER..];
    while |rest| > HEADER
      invariant BakingOn(inner, rest, all)
    {
      var len := ReadBe16(rest[2], rest[3]);
      FieldAhead(rest, len);
      if len > |rest| || len < HEADER {
        break;
      }
      var f := rest[..len];
      BakeFirst(f, rest, inner, all);
      var baked, error := Bakery(f);
      if error.Some? {
        return Failed(error.value);
      }
      inner := inner + [baked];
      rest := rest[len..];
    }
    BakeEnd(rest, inner, all);
    return Built(Multi(mem, inner));
  }

  // ----- The element map -----

  /** length() goes through all pointers. */
  ghost predicate NoNulls(m: Elements) {
    forall t <- m :: m[t].Multi? ==> None !in m[t].inner
  }

  lemma PackableHasNoNulls(m: Elements)
    requires PackableAll(m)
    ensures NoNulls(m)
  {
    forall t <- m | m[t].Multi? ensures None !in m[t].inner {
      assert Packable(m[t]);
    }
  }

  class Ies {
    var xmpmap: Elements

    constructor ()
      ensures xmpmap == map[]
    {
      xmpmap := map[];
    }

    method Length() returns (n: nat)
      requires NoNulls(xmpmap)
      ensures n == TotalLength(xmpmap, 0)
    {
      n := 0;
      var t := 0;
      while t < TYPES
        invariant 0 <= t <= TYPES && n + TotalLength(xmpmap, t) == TotalLength(xmpmap, 0)
      {
        if t in xmpmap {
          n := n + ElementLength(xmpmap[t]);
        }
        t := t + 1;
      }
    }

    /** Write all elements in ascending order of type; nothing is written behind them. */
    method Pack(buf: array<Byte>, at: nat, buflen: nat) returns (ok: bool)
      requires PackableAll(xmpmap) && at + buflen <= buf.Length
      modifies this, buf
      ensures ok <==> TotalLength(old(xmpmap), 0) <= buflen
      ensures ok ==> buf[..] == AllPacked(old(buf[..]), at, old(xmpmap), 0)
      ensures ok ==> xmpmap == StampedBelow(old(xmpmap), TYPES)
      ensures !ok ==> buf[..] == old(buf[..]) && xmpmap == old(xmpmap)
    {
      PackableHasNoNulls(xmpmap);
      var n := Length();
      if buflen < n {
        return false;
      }
      PackFromFirst(buf, at);
      return true;
    }

    method PackFromFirst(buf: array<Byte>, at: nat)
      requires PackableAll(xmpmap) && at + TotalLength(xmpmap, 0) <= buf.Length
      modifies this, buf
      ensures buf[..] == AllPacked(old(buf[..]), at, old(xmpmap), 0)
      ensures xmpmap == StampedBelow(old(xmpmap), TYPES)
    {
      ghost var m := xmpmap;
      var t: nat, p: nat := 0, at;
      while t < TYPES
        invariant t <= TYPES && p + TotalLength(m, t) == at + TotalLength(m, 0)
        invariant AllPacked(buf[..], p, m, t) == AllPacked(old(buf[..]), at, m, 0)
        invariant xmpmap == StampedBelow(m, t)
      {
        p := PackTurn(m, t, buf, p);
        t := t + 1;
      }
    }

    method PackTurn(ghost m: Elements, t: Type, buf: array<Byte>, p: nat) returns (next: nat)
      requires PackableAll(m) && xmpmap == StampedBelow(m, t) && p + TotalLength(m, t) <= buf.Length
      modifies this, buf
      ensures xmpmap == StampedBelow(m, t + 1) && next + TotalLength(m, t + 1) == p + TotalLength(m, t)
      ensures AllPacked(buf[..], next, m, t + 1) == AllPacked(old(buf[..]), p, m, t)
    {
      StampedBelowAt(m, t);
      if t !in xmpmap {
        return p;
      }
      var e := xmpmap[t];
      var stamped := PackElement(e, buf, p);
      xmpmap := xmpmap[t := stamped];
      return p + ElementLength(e);
    }

    /** Replace the element of the frame's type. */
    method MapAndInsert(f: Bytes) returns (error: Option<Error>)
      requires |f| >= HEADER
      modifies this
      ensures Decoded(xmpmap, error) == Insert(old(xmpmap), f)
    {
      var t := TypeOf(f);
      xmpmap := xmpmap - {t};
      if t == NONE {
        return None;
      }
      var built;
      if t == MULTIPART {
        built := UnpackMultipart(f);
      } else if |f| < RequiredSize(t) {
        built := Failed(Invalid);
      } else {
        built := Built(Plain(f));
      }
      if built.Failed? {
        return Some(built.error);
      }
      xmpmap := xmpmap[t := built.element];
      return None;
    }

    /** Read elements until less than one is left, or one announces a wrong length. */
    method Unpack(buf: array<Byte>, at: nat, buflen: nat) returns (error: Option<Error>)
      requires at + buflen <= buf.Length
      modifies this
      ensures Decoded(xmpmap, error) == Decode(buf[at..at + buflen])
    {
      xmpmap := map[];
      ghost var rest := buf[at..at + buflen];
      ghost var all := Decode(rest);
      var p: nat, left: nat := at, buflen;
      while left > HEADER
        invariant p + left == at + buflen && rest == buf[p..p + left]
        invariant InsertingOn(xmpmap, rest, all)
      {
        var len := ReadBe16(buf[p + 2], buf[p + 3]);
        FieldAhead(rest, len);
        if len > left || len < HEADER {
          return None;
        }
        var f := buf[p..p + len];
        ghost var m := xmpmap;
        error := MapAndInsert(f);
        FrameCut(m, rest, f, Decoded(xmpmap, error), all);
        if error.Some? {
          return;
        }
        p := p + len;
        left := left - len;
        rest := rest[len..];
      }
      return None;
    }
  }

  ghost predicate InsertingOn(m: Elements, b: Bytes, all: Decoded) {
    InsertAll(m, Frames(b)) == all
  }

  /** Insertion of the frame ahead leaves the insertion of what is behind it. */
  lemma FrameCut(m: Elements, b: Bytes, f: Bytes, r: Decoded, all: Decoded)
    requires FrameAhead(b) && f == b[..LengthField(b)] && r == Insert(m, f) && InsertingOn(m, b, all)
    ensures r.error.Some? ==> all == r
    ensures r.error.None? ==> InsertingOn(r.elements, b[|f|..], all)
  {
    assert Frames(b)[0] == f && Frames(b)[1..] == Frames(b[|f|..]);
  }

  // ----- The message -----

  /** sizeof(struct xmp_header_t): version, type, length and transaction id. */
  const MESSAGE_HEADER: nat := 8

  /** The header of a message, with its length put in. */
  function MessageHeader(mem: Bytes, n: nat): Bytes {
    if |mem| >= MESSAGE_HEADER then SetLength(mem, n)[..MESSAGE_HEADER] else []
  }

  function EncodeMessage(mem: Bytes, m: Elements): Bytes {
    MessageHeader(mem, MESSAGE_HEADER + |EncodeAll(m)|) + EncodeAll(m)
  }

  /** What packing a message does to the buffer. */
  function MessagePacked(was: Bytes, mem: Bytes, m: Elements): Bytes {
    AllPacked(Over(was, 0, MessageHeader(mem, MESSAGE_HEADER + TotalLength(m, 0))), MESSAGE_HEADER, m, 0)
  }

  class Message {
    var mem: Bytes
    const xmpies: Ies

    ghost predicate Valid()
      reads this
    {
      |mem| >= MESSAGE_HEADER
    }

    constructor (version: Byte, msgType: Byte, len: nat, xid: Bytes)
      requires MESSAGE_HEADER <= len < 0x1_0000 && |xid| == 4
      ensures Valid() && fresh(xmpies) && xmpies.xmpmap == map[]
      ensures mem[..MESSAGE_HEADER] == [version, msgType] + Be16(len) + xid && |mem| == len
    {
      mem := [version, msgType] + Be16(len) + xid + seq(len - MESSAGE_HEADER, _ => 0);
      xmpies := new Ies();
    }

    method Pack(buf: array<Byte>, buflen: nat) returns (ok: bool)
      requires Valid() && PackableAll(xmpies.xmpmap) && buflen <= buf.Length
      modifies this, xmpies, buf
      ensures Valid()
      ensures ok <==> MESSAGE_HEADER + TotalLength(old(xmpies.xmpmap), 0) <= buflen
      ensures ok ==> buf[..] == MessagePacked(old(buf[..]), old(mem), old(xmpies.xmpmap))
      ensures ok ==> mem == SetLength(old(mem), MESSAGE_HEADER + TotalLength(old(xmpies.xmpmap), 0))
      ensures ok ==> xmpies.xmpmap == StampedBelow(old(xmpies.xmpmap), TYPES)
      ensures !ok ==> buf[..] == old(buf[..]) && mem == old(mem) && xmpies.xmpmap == old(xmpies.xmpmap)
    {
      PackableHasNoNulls(xmpies.xmpmap);
      var n := xmpies.Length();
      if buflen < MESSAGE_HEADER + n {
        return false;
      }
      mem := SetLength(mem, MESSAGE_HEADER + n);
      CopyOut(mem, MESSAGE_HEADER, buf, 0);
      ok := xmpies.Pack(buf, MESSAGE_HEADER, n);
    }

    method Unpack(buf: array<Byte>, buflen: nat) returns (error: Option<Error>)
      requires Valid() && buflen <= buf.Length
      modifies this, xmpies
      ensures Valid()
      ensures buflen < 8 ==> error == Some(Invalid) && xmpies.xmpmap == map[] && mem == old(mem)
      ensures buflen >= 8 ==> mem == buf[..buflen] && Decoded(xmpies.xmpmap, error) == Decode(buf[8..buflen])
    {
      xmpies.xmpmap := map[];
      if buflen < MESSAGE_HEADER {
        return Some(Invalid);
      }
      mem := buf[..buflen];
      if buflen > MESSAGE_HEADER {
        error := xmpies.Unpack(buf, MESSAGE_HEADER, buflen - MESSAGE_HEADER);
      } else {
        error := None;
      }
    }
  }

  lemma Be16Reads(n: nat)
    ensures ReadBe16(Be16(n)[0], Be16(n)[1]) == n % 0x1_0000
  {
  }

  lemma HeaderFields(mem: Bytes, n: nat)
    requires |mem| >= MESSAGE_HEADER
    ensures var h := MessageHeader(mem, n);
            && |h| == MESSAGE_HEADER && h[..2] == mem[..2] && h[4..] == mem[4..MESSAGE_HEADER]
            && (LengthField(h) == n <==> n < 0x1_0000)
  {
    Be16Reads(n);
  }

  lemma Behind(h: Bytes, rest: Bytes)
    requires |h| == MESSAGE_HEADER
    ensures var b := h + rest;
            && b[MESSAGE_HEADER..] == rest && b[..2] == h[..2] && b[4..MESSAGE_HEADER] == h[4..]
            && LengthField(b) == LengthField(h)
  {
  }

  /** Unpacking a packed message gives the same version, type and transaction id, and the true
      length exactly as long as it fits 16 bits. */
  lemma HeaderRoundTrip(mem: Bytes, m: Elements)
    requires |mem| >= MESSAGE_HEADER
    ensures var b := EncodeMessage(mem, m);
            && |b| == MESSAGE_HEADER + |EncodeAll(m)| && b[MESSAGE_HEADER..] == EncodeAll(m)
            && b[..2] == mem[..2] && b[4..MESSAGE_HEADER] == mem[4..MESSAGE_HEADER]
            && (LengthField(b) == |b| <==> |b| < 0x1_0000)
  {
    var rest := EncodeAll(m);
    HeaderFields(mem, MESSAGE_HEADER + |rest|);
    Behind(MessageHeader(mem, MESSAGE_HEADER + |rest|), rest);
  }

  /** Unpacking a packed message gives the same elements exactly when the last one is more than
      a header. */
  lemma MessageRoundTrip(mem: Bytes, m: Elements)
    requires |mem| >= MESSAGE_HEADER && WellFormedAll(m)
    ensures Decode(EncodeMessage(mem, m)[MESSAGE_HEADER..]) == Decoded(NormalAll(m), None)
            <==> forall t <- m :: !HeaderOnlyTop(m, t)
  {
    HeaderRoundTrip(mem, m);
    RoundTripCondition(m);
  }

  /** A message of well-formed elements is written as its image. */
  lemma MessageWritten(was: Bytes, mem: Bytes, m: Elements)
    requires |mem| >= MESSAGE_HEADER && WellFormedAll(m) && MESSAGE_HEADER + TotalLength(m, 0) <= |was|
    ensures MessagePacked(was, mem, m) == Over(was, 0, EncodeMessage(mem, m)) && PackableAll(m)
    ensures |EncodeMessage(mem, m)| == MESSAGE_HEADER + TotalLength(m, 0)
  {
    var h := MessageHeader(mem, MESSAGE_HEADER + TotalLength(m, 0));
    HeaderFields(mem, MESSAGE_HEADER + TotalLength(m, 0));
    WellFormedIsPackable(m);
    AllImagesWritten(Over(was, 0, h), MESSAGE_HEADER, m);
    OverBoth(was, 0, h, EncodeAll(m));
  }
}
