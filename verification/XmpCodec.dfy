/**
 The wire format of the management protocol (XMP): information elements of type, length and
 value with big-endian 16-bit fields. A message keeps one element for each type; an element of
 type MULTIPART holds a list of elements. Everything here is about byte strings; the objects
 that pack and unpack them are in `XmpObjects`.
 */
module XmpCodec {
  import opened Wrappers

  type Byte = x: int | 0 <= x < 256
  type Bytes = seq<Byte>
  type Type = t: nat | t < 0x1_0000

  const NONE: Type := 0
  const COMMAND: Type := 1
  const PORTNAME: Type := 2
  const DPID: Type := 3
  const MULTIPART: Type := 4
  const PORTINFO: Type := 5
  const LSINAME: Type := 6
  const LSIINFO: Type := 7
  const CONTROLLER: Type := 8
  const LSIXLSI: Type := 9

  /** sizeof(struct xmp_ie_header_t) */
  const HEADER: nat := 4
  const NAME_SIZE: nat := 36

  /** The size of the struct of a typed element, header included. */
  function StructSize(t: Type): Option<nat> {
    if t == COMMAND then Some(8)
    else if t == PORTNAME || t == LSINAME then Some(NAME_SIZE)
    else if t == DPID then Some(12)
    else if t == PORTINFO then Some(72)
    else if t == LSIINFO then Some(57)
    else if t == CONTROLLER then Some(91)
    else if t == LSIXLSI then Some(28)
    else None
  }

  /** What the constructor checks: for two types, not the size of their own struct. */
  function RequiredSize(t: Type): nat {
    if t == PORTINFO || t == LSIINFO then NAME_SIZE
    else if StructSize(t).Some? then StructSize(t).value
    else HEADER
  }

  // ----- Fields -----

  /** A big-endian field of 16 bits. */
  function ReadBe16(hi: Byte, lo: Byte): Type {
    (hi as int) * 256 + lo
  }

  /** htobe16 of the low 16 bits. */
  function Be16(n: nat): Bytes {
    [n / 256 % 256, n % 256]
  }

  /** The type field; NONE when there is no header. */
  function TypeOf(mem: Bytes): Type {
    if |mem| >= HEADER then ReadBe16(mem[0], mem[1]) else NONE
  }

  /** The length field; 0 when there is no header. */
  function LengthField(mem: Bytes): Type {
    if |mem| >= HEADER then ReadBe16(mem[2], mem[3]) else 0
  }

  function SetLength(mem: Bytes, n: nat): Bytes
    requires |mem| >= HEADER
  {
    mem[..2] + Be16(n) + mem[4..]
  }

  // ----- Elements -----

  datatype Error = Invalid

  /** A pointer to an element in a MULTIPART, as the memory it points to; it can be null. */
  type Slot = Option<Bytes>

  /** An element as it lies in memory: the bytes it was read from and, for a MULTIPART, pointers
      to the elements in it. */
  datatype Element = Plain(mem: Bytes) | Multi(mem: Bytes, inner: seq<Slot>)

  /** length() of an element that is not a MULTIPART. */
  function PlainLength(mem: Bytes): nat {
    if StructSize(TypeOf(mem)).Some? then StructSize(TypeOf(mem)).value else |mem|
  }

  /** The memory holds the whole struct, so that packing copies all it counts. */
  predicate Whole(mem: Bytes) {
    |mem| >= HEADER && TypeOf(mem) != NONE && TypeOf(mem) != MULTIPART && HEADER <= PlainLength(mem) <= |mem|
    && PlainLength(mem) < 0x1_0000
  }

  /** The types the MULTIPART element can hold. */
  predicate Bakeable(t: Type) {
    t in {COMMAND, PORTNAME, LSINAME, DPID, PORTINFO, LSIINFO, CONTROLLER}
  }

  /** The packed bytes of an element; nothing if it is not whole. */
  function EncodePlain(mem: Bytes): Bytes {
    if Whole(mem) then SetLength(mem, PlainLength(mem))[..PlainLength(mem)] else []
  }

  /** The memory a pointer points to; none if it is null. */
  function Target(s: Slot): Bytes {
    if s.Some? then s.value else []
  }

  function EncodeInner(inner: seq<Slot>): Bytes {
    if inner == [] then [] else EncodePlain(Target(inner[0])) + EncodeInner(inner[1..])
  }

  ghost predicate WholeSlot(s: Slot) {
    s.Some? && Whole(s.value) && Bakeable(TypeOf(s.value))
  }

  ghost predicate WholeInner(inner: seq<Slot>) {
    forall i | 0 <= i < |inner| :: WholeSlot(inner[i])
  }

  /** An element that is packed as its image: nothing of the buffer shows, and no pointer is null. */
  ghost predicate WellFormed(e: Element) {
    match e
    case Plain(mem) => Whole(mem)
    case Multi(mem, inner) =>
      |mem| >= HEADER && TypeOf(mem) == MULTIPART && WholeInner(inner) && HEADER + |EncodeInner(inner)| < 0x1_0000
  }

  /** The header of a MULTIPART, with its length put in. */
  function MultiHeader(mem: Bytes, n: nat): Bytes {
    if |mem| >= HEADER then SetLength(mem, n)[..HEADER] else []
  }

  function Encode(e: Element): Bytes {
    match e
    case Plain(mem) => EncodePlain(mem)
    case Multi(mem, inner) =>
      MultiHeader(mem, HEADER + |EncodeInner(inner)|) + EncodeInner(inner)
  }

  type Elements = map<Type, Element>

  /** Every element is packed as its image and sits under its own type. */
  ghost predicate WellFormedAll(m: Elements) {
    forall t <- m :: WellFormed(m[t]) && TypeOf(m[t].mem) == t && t != NONE
  }

  const TYPES: nat := 0x1_0000

  /** The packed elements from type t on, in ascending order of type. */
  function Images(m: Elements, t: nat): seq<Bytes>
    requires t <= TYPES
    decreases TYPES - t, |m|
  {
    if t == TYPES then [] else (if t in m then [Encode(m[t])] else []) + Images(m, t + 1)
  }

  function EncodeAll(m: Elements): Bytes {
    Flatten(Images(m, 0))
  }

  // ----- Framing -----

  /** Frames are cut off while more than a header is left and the length field is sound. */
  predicate FrameAhead(b: Bytes) {
    |b| > HEADER && HEADER <= LengthField(b) <= |b|
  }

  function Frames(b: Bytes): seq<Bytes> {
    if FrameAhead(b) then [b[..LengthField(b)]] + Frames(b[LengthField(b)..]) else []
  }

  /** Each frame says its own length. */
  ghost predicate Framed(fs: seq<Bytes>) {
    forall i | 0 <= i < |fs| :: |fs[i]| >= HEADER && LengthField(fs[i]) == |fs[i]|
  }

  lemma {:induction false} FramesAreFramed(b: Bytes)
    ensures Framed(Frames(b))
    decreases |b|
  {
    if FrameAhead(b) {
      var n := LengthField(b);
      FramesAreFramed(b[n..]);
      assert LengthField(b[..n]) == n;
    }
  }

  function Flatten(fs: seq<Bytes>): Bytes {
    if fs == [] then [] else fs[0] + Flatten(fs[1..])
  }

  lemma FlattenPrefix(fs: seq<Bytes>, i: nat)
    requires 0 < i <= |fs|
    ensures |Flatten(fs[..i])| == |fs[0]| + |Flatten(fs[1..][..i - 1])|
  {
    assert fs[..i][1..] == fs[1..][..i - 1];
  }

  ghost predicate FrameAt(b: Bytes, fs: seq<Bytes>, i: nat)
    requires i < |fs|
  {
    |fs[i]| >= HEADER && LengthField(fs[i]) == |fs[i]| && |b| - |Flatten(fs[..i])| > HEADER
  }

  lemma FrameShift(b: Bytes, fs: seq<Bytes>, i: nat)
    requires 0 < i < |fs| && |fs[0]| <= |b|
    ensures FrameAt(b, fs, i) <==> FrameAt(b[|fs[0]|..], fs[1..], i - 1)
  {
    FlattenPrefix(fs, i);
  }

  /** A framing of b, said without following the loop: the frames are a prefix of b, each says
      its own length, each started with more than a header left, and after the last one no
      frame can be cut off. */
  ghost predicate IsFraming(b: Bytes, fs: seq<Bytes>) {
    && Flatten(fs) <= b
    && (forall i | 0 <= i < |fs| :: FrameAt(b, fs, i))
    && !FrameAhead(b[|Flatten(fs)|..])
  }

  lemma {:induction false} FramesAreAFraming(b: Bytes)
    ensures IsFraming(b, Frames(b))
    decreases |b|
  {
    var fs := Frames(b);
    if FrameAhead(b) {
      var n := LengthField(b);
      FramesAreAFraming(b[n..]);
      assert fs[1..] == Frames(b[n..]) && fs[0] == b[..n];
      assert fs[..0] == [];
      forall i | 0 <= i < |fs| ensures FrameAt(b, fs, i) {
        if i > 0 { FrameShift(b, fs, i); }
      }
      assert b[|Flatten(fs)|..] == b[n..][|Flatten(fs[1..])|..];
    }
  }

  /** The loop computes the only framing there is. */
  lemma {:induction false} FramingIsUnique(b: Bytes, fs: seq<Bytes>)
    requires IsFraming(b, fs)
    ensures fs == Frames(b)
    decreases |b|
  {
    if fs != [] {
      var n, rest := |fs[0]|, fs[1..];
      assert fs[..0] == [] && FrameAt(b, fs, 0);
      assert fs[0] == b[..n];
      forall i | 0 <= i < |rest| ensures FrameAt(b[n..], rest, i) {
        FrameShift(b, fs, i + 1);
      }
      assert b[n..][|Flatten(rest)|..] == b[|Flatten(fs)|..];
      assert Flatten(rest) == b[n..|Flatten(fs)|];
      FramingIsUnique(b[n..], rest);
    }
  }

  // ----- Decoding -----

  datatype Baked = Baked(inner: seq<Slot>, error: Option<Error>)

  /** One element of a MULTIPART: a type that is not supported gives a null pointer. */
  function BakeOne(f: Bytes): Slot {
    if Bakeable(TypeOf(f)) then Some(f) else None
  }

  /** A supported element that is too short throws. */
  predicate Refused(f: Bytes) {
    Bakeable(TypeOf(f)) && |f| < RequiredSize(TypeOf(f))
  }

  /** The elements of a MULTIPART, up to the first that throws. */
  function Bake(fs: seq<Bytes>): Baked
  {
    if fs == [] then Baked([], None)
    else if Refused(fs[0]) then Baked([], Some(Invalid))
    else
      var rest := Bake(fs[1..]);
      Baked([BakeOne(fs[0])] + rest.inner, rest.error)
  }

  datatype Built = Built(element: Element) | Failed(error: Error)

  function Build(f: Bytes): Built
  {
    if TypeOf(f) == MULTIPART then
      var baked := Bake(Frames(f[HEADER..]));
      if baked.error.Some? then Failed(baked.error.value) else Built(Multi(f, baked.inner))
    else if |f| < RequiredSize(TypeOf(f)) then Failed(Invalid)
    else Built(Plain(f))
  }

  datatype Decoded = Decoded(elements: Elements, error: Option<Error>)

  /** The element of the frame replaces the one of its type; type NONE is dropped. */
  function Insert(m: Elements, f: Bytes): Decoded
  {
    var t := TypeOf(f);
    if t == NONE then Decoded(m - {t}, None)
    else match Build(f)
      case Built(e) => Decoded((m - {t})[t := e], None)
      case Failed(error) => Decoded(m - {t}, Some(error))
  }

  function InsertAll(m: Elements, fs: seq<Bytes>): Decoded
    decreases |fs|
  {
    if fs == [] then Decoded(m, None)
    else
      var r := Insert(m, fs[0]);
      if r.error.Some? then r else InsertAll(r.elements, fs[1..])
  }

  function Decode(b: Bytes): Decoded {
    InsertAll(map[], Frames(b))
  }

  ghost predicate LastOfType(fs: seq<Bytes>, i: nat, t: Type) {
    i < |fs| && TypeOf(fs[i]) == t && forall j | i < j < |fs| :: TypeOf(fs[j]) != t
  }

  lemma {:induction false} InsertAllUntouched(m: Elements, fs: seq<Bytes>, t: Type)
    requires InsertAll(m, fs).error.None? && forall j | 0 <= j < |fs| :: TypeOf(fs[j]) != t
    ensures var r := InsertAll(m, fs).elements; (t in r <==> t in m) && (t in m ==> r[t] == m[t])
    decreases |fs|
  {
    if fs != [] {
      InsertAllUntouched(Insert(m, fs[0]).elements, fs[1..], t);
    }
  }

  lemma {:induction false} InsertAllLast(m: Elements, fs: seq<Bytes>, i: nat, t: Type)
    requires InsertAll(m, fs).error.None? && LastOfType(fs, i, t)
    ensures var r := InsertAll(m, fs).elements;
            if t == NONE then t !in r else t in r && Build(fs[i]) == Built(r[t])
    decreases |fs|
  {
    var m' := Insert(m, fs[0]).elements;
    if i > 0 {
      assert LastOfType(fs[1..], i - 1, t);
      InsertAllLast(m', fs[1..], i - 1, t);
    } else {
      InsertAllUntouched(m', fs[1..], t);
    }
  }

  lemma {:induction false} FindLast(fs: seq<Bytes>, k: nat, t: Type) returns (i: nat)
    requires k < |fs| && TypeOf(fs[k]) == t
    ensures LastOfType(fs, i, t)
    decreases |fs| - k
  {
    if j :| k < j < |fs| && TypeOf(fs[j]) == t {
      i := FindLast(fs, j, t);
    } else {
      i := k;
    }
  }

  ghost predicate Occurs(fs: seq<Bytes>, t: Type) {
    exists i :: 0 <= i < |fs| && TypeOf(fs[i]) == t
  }

  lemma TypePresent(fs: seq<Bytes>, k: nat, t: Type)
    requires InsertAll(map[], fs).error.None? && k < |fs| && TypeOf(fs[k]) == t && t != NONE
    ensures Occurs(fs, t) && t in InsertAll(map[], fs).elements
  {
    var i := FindLast(fs, k, t);
    InsertAllLast(map[], fs, i, t);
  }

  lemma TypeAbsent(fs: seq<Bytes>, t: Type)
    requires InsertAll(map[], fs).error.None? && (t == NONE || !Occurs(fs, t))
    ensures t !in InsertAll(map[], fs).elements
  {
    if k :| 0 <= k < |fs| && TypeOf(fs[k]) == t {
      var i := FindLast(fs, k, t);
      InsertAllLast(map[], fs, i, t);
    } else {
      InsertAllUntouched(map[], fs, t);
    }
  }

  /** A decoding that succeeds keeps, for each type, the element of the last frame of that
      type, and nothing else. */
  lemma LastFrameWins(b: Bytes, t: Type)
    requires Decode(b).error.None?
    ensures t in Decode(b).elements <==> t != NONE && Occurs(Frames(b), t)
    ensures forall i: nat | t != NONE && LastOfType(Frames(b), i, t) ::
              t in Decode(b).elements && Build(Frames(b)[i]) == Built(Decode(b).elements[t])
  {
    var fs := Frames(b);
    if t == NONE || !Occurs(fs, t) {
      TypeAbsent(fs, t);
    } else {
      var k :| 0 <= k < |fs| && TypeOf(fs[k]) == t;
      TypePresent(fs, k, t);
    }
    forall i: nat | t != NONE && LastOfType(fs, i, t)
      ensures t in Decode(b).elements && Build(fs[i]) == Built(Decode(b).elements[t])
    {
      InsertAllLast(map[], fs, i, t);
    }
  }
}
