/**
 The numbers of the wire format: which types there are, how long each is, and what a MULTIPART can
 hold, said of byte strings without the names the codec gives them.
 */
module XmpWire {
  import opened Wrappers
  import opened XmpCodec
  import opened XmpRoundTrip
  import opened XmpObjects

  /** The bytes of a frame of type t. */
  function Frame(t: Type, payload: Bytes): (f: Bytes)
    requires |payload| + 4 < 0x1_0000
    ensures |f| == |payload| + 4
  {
    [t / 256, t % 256, (|payload| + 4) / 256, (|payload| + 4) % 256] + payload
  }

  lemma FrameFields(t: Type, payload: Bytes)
    requires |payload| + 4 < 0x1_0000
    ensures var f := Frame(t, payload);
            TypeOf(f) == t && LengthField(f) == |f| && f[4..] == payload
  {
  }

  lemma OneInner(t: Type, payload: Bytes)
    requires 0 < |payload| && |payload| + 8 < 0x1_0000
    ensures var f := Frame(t, payload);
            var b := Frame(4, f);
            && InnerFrames(b) == [f] && Bake([f]).error == (if Refused(f) then Some(Invalid) else None)
            && (!Refused(f) ==> Bake([f]).inner == [BakeOne(f)])
  {
    var f := Frame(t, payload);
    FrameFields(t, payload);
    FrameFields(4, f);
    OneFrame(f);
    var fs: seq<Bytes> := [f];
    assert fs[1..] == [] && Bake([]) == Baked([], None);
  }

  /** The seven types a MULTIPART can hold, each with the size of its struct: a MULTIPART with one such
      element unpacks to that element, byte for byte, and is packed again as it came. */
  lemma HeldByNumber(t: Type, payload: Bytes)
    requires (t, |payload| + 4) in {(1, 8), (2, 36), (3, 12), (5, 72), (6, 36), (7, 57), (8, 91)}
    ensures var f := Frame(t, payload);
            var b := Frame(4, f);
            && Decode(b) == Decoded(map[4 := Multi(b, [Some(f)])], None)
            && Encode(Multi(b, [Some(f)])) == b
  {
    var f := Frame(t, payload);
    var b := Frame(4, f);
    FrameFields(t, payload);
    FrameFields(4, f);
    OneInner(t, payload);
    OneElement(b);
    InnerByNumber(f);
    PlainAsItCame(f);
    MultiAsItCame(b, f);
  }

  lemma MultiAsItCame(b: Bytes, f: Bytes)
    requires |b| >= 4 && LengthField(b) == |b| && b[4..] == f && EncodePlain(f) == f
    ensures Encode(Multi(b, [Some(f)])) == b
  {
    var inner: seq<Slot> := [Some(f)];
    assert inner[1..] == [] && EncodeInner(inner[1..]) == [];
    assert EncodeInner(inner) == f;
    assert SetLength(b, |b|) == b && b[..4] + f == b;
  }

  lemma PlainAsItCame(f: Bytes)
    requires (TypeOf(f), |f|) in {(1, 8), (2, 36), (3, 12), (5, 72), (6, 36), (7, 57), (8, 91)} && LengthField(f) == |f|
    ensures EncodePlain(f) == f
  {
    assert SetLength(f, |f|) == f;
  }

  /** Any other type, and a MULTIPART in a MULTIPART, unpacks to a null pointer. */
  lemma NullByNumber(t: Type, payload: Bytes)
    requires t == 0 || t == 4 || 9 <= t
    requires 0 < |payload| && |payload| + 8 < 0x1_0000
    ensures var b := Frame(4, Frame(t, payload)); Decode(b) == Decoded(map[4 := Multi(b, [None])], None)
  {
    var f := Frame(t, payload);
    FrameFields(t, payload);
    FrameFields(4, f);
    OneInner(t, payload);
    OneElement(Frame(4, f));
  }

  /** An element shorter than its constructor asks for throws, and nothing is unpacked: for types 5 and
      7 that is the size of a name only. */
  lemma RefusedByNumber(t: Type, least: nat, payload: Bytes)
    requires (t, least) in {(1, 8), (2, 36), (3, 12), (5, 36), (6, 36), (7, 36), (8, 91)}
    requires 0 < |payload| && |payload| + 4 < least
    ensures Decode(Frame(4, Frame(t, payload))) == Decoded(map[], Some(Invalid))
  {
    var f := Frame(t, payload);
    var b := Frame(4, f);
    FrameFields(t, payload);
    FrameFields(4, f);
    OneInner(t, payload);
    OneFrame(b);
    var none: Elements := map[];
    assert none - {MULTIPART} == none;
    var bs: seq<Bytes> := [b];
    assert Insert(none, bs[0]) == Decoded(none, Some(Invalid));
  }

  /** What the constructor for an element of a MULTIPART asks for. */
  ghost predicate LongEnough(f: Bytes) {
    && (TypeOf(f) == 1 ==> |f| >= 8)
    && (TypeOf(f) in {2, 5, 6, 7} ==> |f| >= 36)
    && (TypeOf(f) == 3 ==> |f| >= 12)
    && (TypeOf(f) == 8 ==> |f| >= 91)
  }

  /** In a MULTIPART of any length: it is refused exactly for a frame shorter than its constructor asks
      for; otherwise each frame of one of the seven types gives its own bytes, and any other a null. */
  lemma SlotsByNumber(b: Bytes)
    requires TypeOf(b) == 4
    ensures var fs := Frames(b[4..]);
            && (Build(b).Built? <==> forall i | 0 <= i < |fs| :: LongEnough(fs[i]))
            && (Build(b).Built? ==>
                  Build(b).element.Multi? && Build(b).element.mem == b
                  && var inner := Build(b).element.inner;
                  && |inner| == |fs|
                  && forall i | 0 <= i < |fs| :: inner[i] == if TypeOf(fs[i]) in {1, 2, 3, 5, 6, 7, 8} then Some(fs[i]) else None)
  {
    var fs := Frames(b[4..]);
    BakesWhen(fs);
    forall i | 0 <= i < |fs|
      ensures Refused(fs[i]) <==> !LongEnough(fs[i])
      ensures BakeOne(fs[i]) == if TypeOf(fs[i]) in {1, 2, 3, 5, 6, 7, 8} then Some(fs[i]) else None
    {
      InnerByNumber(fs[i]);
    }
    if Bake(fs).error.None? { BakedIsAll(fs); }
  }

  lemma InnerByNumber(f: Bytes)
    ensures Refused(f) <==> !LongEnough(f)
    ensures BakeOne(f) == if TypeOf(f) in {1, 2, 3, 5, 6, 7, 8} then Some(f) else None
  {
  }

  /** Outside a MULTIPART every type but 0 and 4 gives its own bytes, if there are as many as its
      constructor asks for; a type without a constructor of its own always does. */
  lemma PlainByNumber(t: Type, least: nat, payload: Bytes)
    requires || (t, least) in {(1, 8), (2, 36), (3, 12), (5, 36), (6, 36), (7, 36), (8, 91), (9, 28)}
             || (9 < t && least == 4)
    requires 0 < |payload| && |payload| + 4 < 0x1_0000
    ensures var b := Frame(t, payload);
            Decode(b) == if |b| < least then Decoded(map[], Some(Invalid)) else Decoded(map[t := Plain(b)], None)
  {
    var b := Frame(t, payload);
    FrameFields(t, payload);
    if |b| < least {
      OneFrame(b);
      var none: Elements := map[];
      assert none - {t} == none;
      var bs: seq<Bytes> := [b];
      assert Insert(none, bs[0]) == Decoded(none, Some(Invalid));
    } else {
      OneElement(b);
    }
  }

  /** Type 0 is dropped. */
  lemma NoneByNumber(payload: Bytes)
    requires 0 < |payload| && |payload| + 4 < 0x1_0000
    ensures Decode(Frame(0, payload)) == Decoded(map[], None)
  {
    FrameFields(0, payload);
    Dropped(Frame(0, payload));
  }

  lemma Dropped(b: Bytes)
    requires |b| > HEADER && LengthField(b) == |b| && TypeOf(b) == NONE
    ensures Decode(b) == Decoded(map[], None)
  {
    var none: Elements := map[];
    OneFrame(b);
    assert none - {NONE} == none;
    InsertFirst(none, b, none, []);
    assert [b] + [] == [b];
  }

  /** A packed element starts with its type and its length, n: that of the struct for the types that
      have one, and of the memory for all others. */
  lemma LengthByNumber(t: Type, n: nat, payload: Bytes)
    requires || (t, n) in {(1, 8), (2, 36), (3, 12), (5, 72), (6, 36), (7, 57), (8, 91), (9, 28)}
             || (9 < t && n == |payload| + 4)
    requires n <= |payload| + 4 < 0x1_0000
    ensures Encode(Plain(Frame(t, payload))) == Frame(t, payload[..n - 4])
  {
    var f := Frame(t, payload);
    FrameFields(t, payload);
    assert PlainLength(f) == n && Whole(f);
    Trimmed(t, payload, n);
  }

  lemma Trimmed(t: Type, payload: Bytes, n: nat)
    requires 4 <= n <= |payload| + 4 < 0x1_0000
    ensures SetLength(Frame(t, payload), n)[..n] == Frame(t, payload[..n - 4])
  {
    var a, b := SetLength(Frame(t, payload), n)[..n], Frame(t, payload[..n - 4]);
    assert a == [t / 256, t % 256] + Be16(n) + payload[..n - 4];
  }

  /** A message on the wire: version, type, length and transaction id, then the elements. */
  lemma MessageBytes(version: Byte, msgType: Byte, xid: Bytes, rest: Bytes, m: Elements)
    requires |xid| == 4 && |rest| >= 2
    ensures var n := 8 + |EncodeAll(m)|;
            EncodeMessage([version, msgType] + rest[..2] + xid, m)
            == [version, msgType, n / 256 % 256, n % 256] + xid + EncodeAll(m)
  {
    var mem, n := [version, msgType] + rest[..2] + xid, 8 + |EncodeAll(m)|;
    assert mem[..2] == [version, msgType] && mem[4..] == xid;
    assert SetLength(mem, n)[..8] == [version, msgType] + Be16(n) + xid;
  }
}
