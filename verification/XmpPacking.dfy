/**
 What packing does to a caller's buffer, and to the elements themselves: lengths, the bytes
 copied, and the length field that stays behind. The memory of an element can hold less than
 is asked for; then only what is there is copied, and the rest of the buffer stays as it was.
 */
module XmpPacking {
  import opened Wrappers
  import opened XmpCodec
  import opened XmpRoundTrip

  // ----- Lengths -----

  function InnerLength(inner: seq<Slot>): nat {
    if inner == [] then 0 else PlainLength(Target(inner[0])) + InnerLength(inner[1..])
  }

  /** length() of an element. */
  function ElementLength(e: Element): nat {
    match e
    case Plain(mem) => PlainLength(mem)
    case Multi(mem, inner) => HEADER + InnerLength(inner)
  }

  function TotalLength(m: Elements, t: nat): nat
    requires t <= TYPES
    decreases TYPES - t, |m|
  {
    if t == TYPES then 0 else (if t in m then ElementLength(m[t]) else 0) + TotalLength(m, t + 1)
  }

  lemma {:induction false} InnerLengthIsExact(inner: seq<Slot>)
    requires WholeInner(inner)
    ensures |EncodeInner(inner)| == InnerLength(inner)
  {
    if inner != [] {
      assert WholeSlot(inner[0]);
      InnerLengthIsExact(inner[1..]);
    }
  }

  lemma LengthIsExact(e: Element)
    requires WellFormed(e)
    ensures |Encode(e)| == ElementLength(e)
  {
    if e.Multi? { InnerLengthIsExact(e.inner); }
  }

  lemma ImagesStep(m: Elements, t: Type)
    ensures t in m ==> Flatten(Images(m, t)) == Encode(m[t]) + Flatten(Images(m, t + 1))
    ensures t !in m ==> Images(m, t) == Images(m, t + 1)
  {
    if t in m { assert Images(m, t)[1..] == Images(m, t + 1); }
  }

  lemma {:induction false} TotalLengthIsExact(m: Elements, t: nat)
    requires WellFormedAll(m) && t <= TYPES
    ensures |Flatten(Images(m, t))| == TotalLength(m, t)
    decreases TYPES - t
  {
    if t < TYPES {
      TotalLengthIsExact(m, t + 1);
      ImagesStep(m, t);
      if t in m { LengthIsExact(m[t]); }
    }
  }

  // ----- The length stays in the element -----

  /** The memory with its length field set. */
  function StampedHeader(mem: Bytes, n: nat): Bytes {
    if |mem| >= HEADER then SetLength(mem, n) else mem
  }

  function Stamped(mem: Bytes): Bytes {
    StampedHeader(mem, PlainLength(mem))
  }

  function StampedSlot(s: Slot): Slot {
    if s.Some? then Some(Stamped(s.value)) else None
  }

  function StampedInner(inner: seq<Slot>): seq<Slot> {
    if inner == [] then [] else [StampedSlot(inner[0])] + StampedInner(inner[1..])
  }

  function StampedElement(e: Element): Element {
    match e
    case Plain(mem) => Plain(Stamped(mem))
    case Multi(mem, inner) => Multi(StampedHeader(mem, ElementLength(e)), StampedInner(inner))
  }

  /** The elements of the types below t, each with its length put in; the others as they were. */
  function StampedBelow(m: Elements, t: nat): Elements
    requires t <= TYPES
    decreases t, |m|
  {
    if t == 0 then m
    else if t - 1 in m then StampedBelow(m, t - 1)[t - 1 := StampedElement(m[t - 1])]
    else StampedBelow(m, t - 1)
  }

  lemma {:induction false} StampedBelowAt(m: Elements, t: nat)
    requires t <= TYPES
    ensures var s := StampedBelow(m, t);
            s.Keys == m.Keys && forall k <- m :: s[k] == if k < t then StampedElement(m[k]) else m[k]
    decreases t
  {
    if t > 0 { StampedBelowAt(m, t - 1); }
  }

  lemma StampedIsSame(mem: Bytes)
    requires Whole(mem)
    ensures Whole(Stamped(mem)) && TypeOf(Stamped(mem)) == TypeOf(mem) && EncodePlain(Stamped(mem)) == EncodePlain(mem)
  {
    var b, n := Stamped(mem), PlainLength(mem);
    SetLengthReads(mem, n, b);
    assert |b| == |mem| && b[4..] == mem[4..];
    assert SetLength(b, n) == b;
  }

  lemma {:induction false} StampedInnerIsSame(inner: seq<Slot>)
    requires WholeInner(inner)
    ensures WholeInner(StampedInner(inner)) && EncodeInner(StampedInner(inner)) == EncodeInner(inner)
  {
    if inner != [] {
      assert WholeSlot(inner[0]);
      StampedIsSame(inner[0].value);
      StampedInnerIsSame(inner[1..]);
      MoreWhole(StampedSlot(inner[0]), StampedInner(inner[1..]));
    }
  }

  lemma MoreWhole(s: Slot, inner: seq<Slot>)
    requires WholeSlot(s) && WholeInner(inner)
    ensures WholeInner([s] + inner) && EncodeInner([s] + inner) == EncodePlain(Target(s)) + EncodeInner(inner)
  {
    assert ([s] + inner)[1..] == inner;
  }

  lemma StampedHeaderIsSame(mem: Bytes, n: nat)
    requires |mem| >= HEADER && n < 0x1_0000
    ensures var b := StampedHeader(mem, n);
            |b| == |mem| && TypeOf(b) == TypeOf(mem) && SetLength(b, n)[..HEADER] == SetLength(mem, n)[..HEADER]
  {
    var b := StampedHeader(mem, n);
    SetLengthReads(mem, n, b);
    assert SetLength(b, n)[..HEADER] == b[..HEADER];
  }

  lemma StampedPacksTheSame(e: Element)
    requires WellFormed(e)
    ensures WellFormed(StampedElement(e)) && Encode(StampedElement(e)) == Encode(e)
    ensures TypeOf(StampedElement(e).mem) == TypeOf(e.mem)
  {
    match e
    case Plain(mem) => StampedIsSame(mem);
    case Multi(mem, inner) =>
      StampedInnerIsSame(inner);
      InnerLengthIsExact(inner);
      StampedHeaderIsSame(mem, ElementLength(e));
  }

  lemma {:induction false} SameImages(m: Elements, s: Elements, t: nat)
    requires t <= TYPES && s.Keys == m.Keys && forall k <- m :: Encode(s[k]) == Encode(m[k])
    ensures Images(s, t) == Images(m, t)
    decreases TYPES - t
  {
    if t < TYPES { SameImages(m, s, t + 1); }
  }

  /** Packing a message a second time writes the same bytes. */
  lemma PackedTwice(m: Elements)
    requires WellFormedAll(m)
    ensures var s := StampedBelow(m, TYPES); WellFormedAll(s) && EncodeAll(s) == EncodeAll(m)
  {
    var s := StampedBelow(m, TYPES);
    StampedBelowAt(m, TYPES);
    forall k <- m ensures WellFormed(s[k]) && TypeOf(s[k].mem) == k && Encode(s[k]) == Encode(m[k]) {
      StampedPacksTheSame(m[k]);
    }
    SameImages(m, s, 0);
  }

  // ----- The buffer -----

  /** The buffer with bytes written from a position on. */
  function Over(was: Bytes, at: nat, bytes: Bytes): (now: Bytes)
    ensures |now| == |was|
  {
    if at + |bytes| <= |was| then was[..at] + bytes + was[at + |bytes|..] else was
  }

  /** What copying n bytes out of the memory gives: at most what it holds. */
  function Copied(mem: Bytes, n: nat): Bytes {
    if n <= |mem| then mem[..n] else mem
  }

  function PlainPacked(was: Bytes, at: nat, mem: Bytes): Bytes {
    Over(was, at, Copied(Stamped(mem), PlainLength(mem)))
  }

  /** One element behind the other. */
  function InnerPacked(was: Bytes, at: nat, inner: seq<Slot>): Bytes
    decreases |inner|
  {
    if inner == [] then was
    else
      var mem := Target(inner[0]);
      InnerPacked(PlainPacked(was, at, mem), at + PlainLength(mem), inner[1..])
  }

  /** A MULTIPART copies its own memory for the whole length, and then writes its elements over
      all of it but the header. */
  function ElementPacked(was: Bytes, at: nat, e: Element): Bytes {
    match e
    case Plain(mem) => PlainPacked(was, at, mem)
    case Multi(mem, inner) =>
      var n := ElementLength(e);
      InnerPacked(Over(was, at, Copied(StampedHeader(mem, n), n)), at + HEADER, inner)
  }

  function AllPacked(was: Bytes, at: nat, m: Elements, t: nat): Bytes
    requires t <= TYPES
    decreases TYPES - t, |m|
  {
    if t == TYPES then was
    else if t in m then AllPacked(ElementPacked(was, at, m[t]), at + ElementLength(m[t]), m, t + 1)
    else AllPacked(was, at, m, t + 1)
  }

  /** Packing dereferences all pointers and writes to all headers. */
  ghost predicate Packable(e: Element) {
    |e.mem| >= HEADER && (e.Multi? ==> forall i | 0 <= i < |e.inner| :: |Target(e.inner[i])| >= HEADER)
  }

  ghost predicate PackableAll(m: Elements) {
    forall t <- m :: Packable(m[t])
  }

  lemma WellFormedIsPackable(m: Elements)
    requires WellFormedAll(m)
    ensures PackableAll(m)
  {
    forall t <- m ensures Packable(m[t]) {
      if m[t].Multi? { assert forall i | 0 <= i < |m[t].inner| :: WholeSlot(m[t].inner[i]); }
    }
  }

  // ----- Which byte strings unpack to what can be packed -----

  /** The inner frames are of the types the MULTIPART element can hold. */
  ghost predicate Supported(f: Bytes) {
    forall j | 0 <= j < |InnerFrames(f)| :: Bakeable(TypeOf(InnerFrames(f)[j]))
  }

  lemma BuiltIsPackable(f: Bytes)
    requires LengthField(f) == |f| && TypeOf(f) != NONE && Build(f).Built?
    ensures Packable(Build(f).element) <==> (TypeOf(f) == MULTIPART ==> Supported(f))
  {
    if TypeOf(f) == MULTIPART {
      var fs := InnerFrames(f);
      BakedIsAll(fs);
      FramesAreFramed(f[HEADER..]);
      var inner := Bake(fs).inner;
      forall j | 0 <= j < |fs| ensures |Target(inner[j])| >= HEADER <==> Bakeable(TypeOf(fs[j])) {
        assert |fs[j]| >= HEADER && inner[j] == BakeOne(fs[j]);
      }
    }
  }

  lemma KeptIsPackable(b: Bytes)
    ensures var m := Decode(b).elements;
            PackableAll(m) <==> (MULTIPART in m ==> Supported(m[MULTIPART].mem))
  {
    var m := Decode(b).elements;
    KeptIsWellFormed(b);
    forall t <- m ensures Packable(m[t]) <==> (t == MULTIPART ==> Supported(m[t].mem)) {
      BuiltIsPackable(m[t].mem);
    }
  }

  /** For every byte string that unpacks: packing the result goes through no null pointer if and only
      if the last MULTIPART frame, if there is one, holds elements of the supported types only. */
  lemma DecodedIsPackable(b: Bytes)
    requires Decode(b).error.None?
    ensures PackableAll(Decode(b).elements)
            <==> forall i: nat | LastOfType(Frames(b), i, MULTIPART) :: Supported(Frames(b)[i])
  {
    var fs, m := Frames(b), Decode(b).elements;
    KeptIsPackable(b);
    LastFrameWins(b, MULTIPART);
    forall i: nat | LastOfType(fs, i, MULTIPART) ensures MULTIPART in m && m[MULTIPART].mem == fs[i] {
      assert Build(fs[i]) == Built(m[MULTIPART]);
    }
    if MULTIPART in m { var i := KeptIsLast(b, MULTIPART); }
  }

  // ----- Well-formed elements are written as their images -----

  lemma OverBoth(was: Bytes, at: nat, first: Bytes, more: Bytes)
    requires at + |first| + |more| <= |was|
    ensures Over(Over(was, at, first), at + |first|, more) == Over(was, at, first + more)
  {
    var mid, p := Over(was, at, first), at + |first|;
    assert mid[..p] == was[..at] + first;
    assert mid[p + |more|..] == was[p + |more|..];
  }

  /** What is behind the header of the first is written over. */
  lemma OverHeader(was: Bytes, at: nat, first: Bytes, more: Bytes)
    requires HEADER <= |first| <= HEADER + |more| && at + HEADER + |more| <= |was|
    ensures Over(Over(was, at, first), at + HEADER, more) == Over(was, at, first[..HEADER] + more)
  {
    var mid, p := Over(was, at, first), at + HEADER;
    assert mid[..p] == was[..at] + first[..HEADER];
    assert mid[p + |more|..] == was[p + |more|..];
  }

  lemma PlainImageWritten(was: Bytes, at: nat, mem: Bytes)
    requires Whole(mem)
    ensures PlainPacked(was, at, mem) == Over(was, at, EncodePlain(mem)) && |EncodePlain(mem)| == PlainLength(mem)
  {
  }

  lemma {:induction false} InnerImagesWritten(was: Bytes, at: nat, inner: seq<Slot>)
    requires WholeInner(inner) && at + |EncodeInner(inner)| <= |was|
    ensures InnerPacked(was, at, inner) == Over(was, at, EncodeInner(inner))
    decreases |inner|
  {
    if inner == [] {
      assert was[..at] + [] + was[at..] == was;
    } else {
      var mem := Target(inner[0]);
      assert WholeSlot(inner[0]);
      PlainImageWritten(was, at, mem);
      InnerImagesWritten(Over(was, at, EncodePlain(mem)), at + PlainLength(mem), inner[1..]);
      OverBoth(was, at, EncodePlain(mem), EncodeInner(inner[1..]));
    }
  }

  lemma MultiCopied(mem: Bytes, n: nat)
    requires HEADER <= |mem| && HEADER <= n
    ensures var c := Copied(StampedHeader(mem, n), n); HEADER <= |c| <= n && c[..HEADER] == MultiHeader(mem, n)
  {
  }

  lemma MultiImageWritten(was: Bytes, at: nat, mem: Bytes, inner: seq<Slot>, n: nat)
    requires WholeInner(inner) && |mem| >= HEADER && n == HEADER + |EncodeInner(inner)| && at + n <= |was|
    ensures InnerPacked(Over(was, at, Copied(StampedHeader(mem, n), n)), at + HEADER, inner)
            == Over(was, at, MultiHeader(mem, n) + EncodeInner(inner))
  {
    var c := Copied(StampedHeader(mem, n), n);
    MultiCopied(mem, n);
    InnerImagesWritten(Over(was, at, c), at + HEADER, inner);
    OverHeader(was, at, c, EncodeInner(inner));
  }

  lemma ImageWritten(was: Bytes, at: nat, e: Element)
    requires WellFormed(e) && at + |Encode(e)| <= |was|
    ensures ElementPacked(was, at, e) == Over(was, at, Encode(e))
  {
    LengthIsExact(e);
    match e
    case Plain(mem) => PlainImageWritten(was, at, mem);
    case Multi(mem, inner) => MultiImageWritten(was, at, mem, inner, ElementLength(e));
  }

  lemma PresentWritten(was: Bytes, at: nat, m: Elements, t: Type, f: Bytes, rest: Bytes)
    requires t in m && |f| == ElementLength(m[t]) && at + |f| + |rest| <= |was|
    requires ElementPacked(was, at, m[t]) == Over(was, at, f)
    requires AllPacked(Over(was, at, f), at + |f|, m, t + 1) == Over(Over(was, at, f), at + |f|, rest)
    ensures AllPacked(was, at, m, t) == Over(was, at, f + rest)
  {
    OverBoth(was, at, f, rest);
  }

  ghost predicate Written(was: Bytes, at: nat, m: Elements, t: nat) {
    t <= TYPES && AllPacked(was, at, m, t) == Over(was, at, Flatten(Images(m, t)))
  }

  lemma NextWritten(was: Bytes, at: nat, m: Elements, t: Type)
    requires WellFormedAll(m) && t in m && at + |Flatten(Images(m, t))| <= |was|
    ensures at + |Encode(m[t])| + |Flatten(Images(m, t + 1))| <= |was|
    ensures Written(Over(was, at, Encode(m[t])), at + |Encode(m[t])|, m, t + 1) ==> Written(was, at, m, t)
  {
    var f, rest := Encode(m[t]), Flatten(Images(m, t + 1));
    ImagesStep(m, t);
    LengthIsExact(m[t]);
    ImageWritten(was, at, m[t]);
    if Written(Over(was, at, f), at + |f|, m, t + 1) { PresentWritten(was, at, m, t, f, rest); }
  }

  lemma NoneWritten(was: Bytes, at: nat, m: Elements)
    requires at <= |was|
    ensures Written(was, at, m, TYPES)
  {
    assert was[..at] + [] + was[at..] == was;
  }

  lemma {:induction false} ImagesWritten(was: Bytes, at: nat, m: Elements, t: nat)
    requires WellFormedAll(m) && t <= TYPES && at + |Flatten(Images(m, t))| <= |was|
    ensures Written(was, at, m, t)
    decreases TYPES - t
  {
    if t == TYPES {
      NoneWritten(was, at, m);
    } else if t in m {
      NextWritten(was, at, m, t);
      ImagesWritten(Over(was, at, Encode(m[t])), at + |Encode(m[t])|, m, t + 1);
    } else {
      ImagesStep(m, t);
      ImagesWritten(was, at, m, t + 1);
    }
  }

  /** Packing elements that are well-formed writes their images in ascending order of type, as many
      bytes as length() says, and changes nothing else in the buffer. */
  lemma AllImagesWritten(was: Bytes, at: nat, m: Elements)
    requires WellFormedAll(m) && at + TotalLength(m, 0) <= |was|
    ensures |EncodeAll(m)| == TotalLength(m, 0) && AllPacked(was, at, m, 0) == Over(was, at, EncodeAll(m))
  {
    TotalLengthIsExact(m, 0);
    ImagesWritten(was, at, m, 0);
  }

  /** An element that is shorter than its struct lets bytes of the buffer through. */
  lemma ShortShowsBuffer(was: Bytes, at: nat, mem: Bytes, k: nat)
    requires HEADER <= |mem| <= k < PlainLength(mem) && at + PlainLength(mem) <= |was|
    ensures PlainPacked(was, at, mem)[at + k] == was[at + k]
  {
  }
}
