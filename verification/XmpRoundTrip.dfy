/**
 Packing and unpacking XMP elements undo each other, up to the one element the framing loop
 cannot see: a last element that consists of a header only.
 */
module XmpRoundTrip {
  import opened Wrappers
  import opened XmpCodec

  // ----- One element -----

  /** The header of a packed element: its type, and the length put there. */
  lemma SetLengthReads(mem: Bytes, n: nat, b: Bytes)
    requires |mem| >= HEADER && n < 0x1_0000 && HEADER <= |b| && b[..HEADER] == SetLength(mem, n)[..HEADER]
    ensures TypeOf(b) == TypeOf(mem) && LengthField(b) == n && b[2..4] == Be16(n)
  {
    var h := SetLength(mem, n)[..HEADER];
    assert b[0] == h[0] && b[1] == h[1] && b[2] == h[2] && b[3] == h[3];
  }

  lemma PlainImage(mem: Bytes)
    requires Whole(mem)
    ensures var b := EncodePlain(mem);
            && TypeOf(b) == TypeOf(mem) && LengthField(b) == |b| && Whole(b) && EncodePlain(b) == b
            && Build(b) == Built(Plain(b))
  {
    var b := EncodePlain(mem);
    SetLengthReads(mem, |b|, b);
    assert b == b[..2] + b[2..4] + b[4..];
  }

  function PlainImages(inner: seq<Slot>): (fs: seq<Bytes>)
    ensures |fs| == |inner| && forall i | 0 <= i < |fs| :: fs[i] == EncodePlain(Target(inner[i]))
  {
    seq(|inner|, i requires 0 <= i < |inner| => EncodePlain(Target(inner[i])))
  }

  /** Pointers to these. */
  function Slots(fs: seq<Bytes>): (inner: seq<Slot>)
    ensures |inner| == |fs| && forall i | 0 <= i < |fs| :: inner[i] == Some(fs[i])
  {
    seq(|fs|, i requires 0 <= i < |fs| => Some(fs[i]))
  }

  lemma {:induction false} InnerIsFlat(inner: seq<Slot>)
    ensures EncodeInner(inner) == Flatten(PlainImages(inner))
  {
    if inner != [] {
      assert PlainImages(inner)[1..] == PlainImages(inner[1..]);
      InnerIsFlat(inner[1..]);
    }
  }

  lemma {:induction false} AllBaked(fs: seq<Bytes>)
    requires WholeInner(Slots(fs))
    ensures Bake(fs) == Baked(Slots(fs), None)
  {
    if fs != [] {
      assert WholeSlot(Slots(fs)[0]);
      assert Slots(fs)[1..] == Slots(fs[1..]);
      AllBaked(fs[1..]);
    }
  }

  lemma FirstFrame(f: Bytes, rest: Bytes)
    requires |f| >= HEADER && LengthField(f) == |f|
    ensures FrameAhead(f + rest) <==> |f + rest| > HEADER
    ensures FrameAhead(f + rest) ==> Frames(f + rest) == [f] + Frames(rest)
  {
    var b := f + rest;
    assert b[..|f|] == f && b[|f|..] == rest;
    assert LengthField(b) == |f|;
  }

  /** The frames the loop finds in their concatenation: not a last one that is a header only. */
  function Visible(fs: seq<Bytes>): seq<Bytes> {
    if fs != [] && |fs[|fs| - 1]| == HEADER then fs[..|fs| - 1] else fs
  }

  lemma VisibleTail(f: Bytes, rest: seq<Bytes>)
    requires rest != []
    ensures Visible([f] + rest) == [f] + Visible(rest)
  {
    assert ([f] + rest)[..|rest|] == [f] + rest[..|rest| - 1];
  }

  lemma {:induction false} FramesOfFlat(fs: seq<Bytes>)
    requires Framed(fs)
    ensures Frames(Flatten(fs)) == Visible(fs)
    decreases |fs|
  {
    if fs != [] {
      var f, rest := fs[0], fs[1..];
      FramesOfFlat(rest);
      FirstFrame(f, Flatten(rest));
      if rest == [] {
        assert f + Flatten(rest) == f && Frames([]) == [];
      } else {
        assert |Flatten(rest)| >= |rest[0]|;
        VisibleTail(f, rest);
        assert fs == [f] + rest;
      }
    }
  }

  lemma PlainImagesAreWhole(inner: seq<Slot>)
    requires WholeInner(inner)
    ensures var fs := PlainImages(inner);
            Framed(fs) && WholeInner(Slots(fs)) && PlainImages(Slots(fs)) == fs && forall i | 0 <= i < |fs| :: |fs[i]| > HEADER
  {
    var fs := PlainImages(inner);
    forall i | 0 <= i < |fs|
      ensures |fs[i]| > HEADER && LengthField(fs[i]) == |fs[i]| && Whole(fs[i]) && Bakeable(TypeOf(fs[i]))
      ensures EncodePlain(fs[i]) == fs[i]
    {
      assert WholeSlot(inner[i]);
      PlainImage(inner[i].value);
    }
  }

  /** The order, the number and the contents of the elements of a MULTIPART survive. */
  lemma InnerRoundTrip(inner: seq<Slot>)
    requires WholeInner(inner)
    ensures Frames(EncodeInner(inner)) == PlainImages(inner)
    ensures Bake(Frames(EncodeInner(inner))) == Baked(Slots(PlainImages(inner)), None)
  {
    var fs := PlainImages(inner);
    InnerIsFlat(inner);
    PlainImagesAreWhole(inner);
    FramesOfFlat(fs);
    AllBaked(fs);
  }

  /** What unpacking gives for a packed element: its memory is exactly what was packed. */
  function Normal(e: Element): Element {
    match e
    case Plain(mem) => Plain(EncodePlain(mem))
    case Multi(mem, inner) => Multi(Encode(e), Slots(PlainImages(inner)))
  }

  /** The bytes written are as many as length() says, the outer length field included. */
  lemma ImageIsFramed(e: Element)
    requires WellFormed(e)
    ensures var b := Encode(e);
            TypeOf(b) == TypeOf(e.mem) && LengthField(b) == |b|
            && (e.Multi? ==> |b| == HEADER + |EncodeInner(e.inner)| && b[HEADER..] == EncodeInner(e.inner))
  {
    match e
    case Plain(mem) => PlainImage(mem);
    case Multi(mem, inner) =>
      var b := Encode(e);
      SetLengthReads(mem, |b|, b);
      assert b[HEADER..] == EncodeInner(inner);
  }

  lemma ElementRoundTrip(e: Element)
    requires WellFormed(e)
    ensures Build(Encode(e)) == Built(Normal(e))
  {
    ImageIsFramed(e);
    match e
    case Plain(mem) => PlainImage(mem);
    case Multi(mem, inner) => InnerRoundTrip(inner);
  }

  /** Packing what was unpacked gives the same bytes again. */
  lemma NormalIsStable(e: Element)
    requires WellFormed(e)
    ensures WellFormed(Normal(e)) && Encode(Normal(e)) == Encode(e) && TypeOf(Normal(e).mem) == TypeOf(e.mem)
    ensures Normal(Normal(e)) == Normal(e)
  {
    ImageIsFramed(e);
    match e
    case Plain(mem) => PlainImage(mem);
    case Multi(mem, inner) =>
      var b := Encode(e);
      InnerIsStable(inner);
      SetLengthReads(mem, |b|, b);
      assert SetLength(b, |b|)[..HEADER] == b[..HEADER];
      assert b == b[..HEADER] + b[HEADER..];
  }

  lemma InnerIsStable(inner: seq<Slot>)
    requires WholeInner(inner)
    ensures var fs := PlainImages(inner);
            WholeInner(Slots(fs)) && PlainImages(Slots(fs)) == fs && EncodeInner(Slots(fs)) == EncodeInner(inner)
  {
    PlainImagesAreWhole(inner);
    InnerIsFlat(inner);
    InnerIsFlat(Slots(PlainImages(inner)));
  }

  // ----- The elements of a message -----

  function NormalAll(m: Elements): Elements {
    map t | t in m :: Normal(m[t])
  }

  function NormalFrom(m: Elements, t: nat): Elements {
    map k | k in m && t <= k :: Normal(m[k])
  }

  lemma FramedMore(f: Bytes, fs: seq<Bytes>)
    requires |f| >= HEADER && LengthField(f) == |f| && Framed(fs)
    ensures Framed([f] + fs)
  {
  }

  lemma {:induction false} ImagesAreFramed(m: Elements, t: nat)
    requires WellFormedAll(m) && t <= TYPES
    ensures Framed(Images(m, t))
    decreases TYPES - t
  {
    if t < TYPES {
      ImagesAreFramed(m, t + 1);
      if t in m {
        ImageIsFramed(m[t]);
        FramedMore(Encode(m[t]), Images(m, t + 1));
      }
    }
  }

  lemma InsertImage(acc: Elements, m: Elements, t: Type)
    requires WellFormedAll(m) && t in m && t !in acc
    ensures Insert(acc, Encode(m[t])) == Decoded(acc[t := Normal(m[t])], None)
  {
    ImageIsFramed(m[t]);
    ElementRoundTrip(m[t]);
    assert acc - {t} == acc;
  }

  lemma NormalFromStep(acc: Elements, m: Elements, t: Type)
    ensures t in m ==> acc[t := Normal(m[t])] + NormalFrom(m, t + 1) == acc + NormalFrom(m, t)
    ensures t !in m ==> NormalFrom(m, t + 1) == NormalFrom(m, t)
  {
  }

  lemma NormalFromEnds(acc: Elements, m: Elements)
    ensures acc + NormalFrom(m, TYPES) == acc
    ensures map[] + NormalFrom(m, 0) == NormalAll(m)
  {
  }

  lemma InsertFirst(acc: Elements, f: Bytes, acc': Elements, fs: seq<Bytes>)
    requires Insert(acc, f) == Decoded(acc', None)
    ensures InsertAll(acc, [f] + fs) == InsertAll(acc', fs)
  {
    assert ([f] + fs)[1..] == fs;
  }

  /** Inserting the images from t on, as one statement for the induction. */
  ghost predicate Inserts(acc: Elements, m: Elements, t: nat)
    requires t <= TYPES
  {
    InsertAll(acc, Images(m, t)) == Decoded(acc + NormalFrom(m, t), None)
  }

  lemma InsertPresent(acc: Elements, m: Elements, t: Type)
    requires WellFormedAll(m) && t in m && t !in acc && Inserts(acc[t := Normal(m[t])], m, t + 1)
    ensures Inserts(acc, m, t)
  {
    var f, acc' := Encode(m[t]), acc[t := Normal(m[t])];
    InsertImage(acc, m, t);
    InsertFirst(acc, f, acc', Images(m, t + 1));
    NormalFromStep(acc, m, t);
  }

  lemma InsertAbsent(acc: Elements, m: Elements, t: Type)
    requires t !in m && Inserts(acc, m, t + 1)
    ensures Inserts(acc, m, t)
  {
    NormalFromStep(acc, m, t);
    assert Images(m, t) == Images(m, t + 1);
  }

  lemma {:induction false} InsertImages(acc: Elements, m: Elements, t: nat)
    requires WellFormedAll(m) && t <= TYPES && forall k <- acc :: k < t
    ensures Inserts(acc, m, t)
    decreases TYPES - t
  {
    if t == TYPES {
      NormalFromEnds(acc, m);
    } else if t in m {
      InsertImages(acc[t := Normal(m[t])], m, t + 1);
      InsertPresent(acc, m, t);
    } else {
      InsertImages(acc, m, t + 1);
      InsertAbsent(acc, m, t);
    }
  }

  /** The highest type is that of an element which is packed as a header only. */
  predicate HeaderOnlyTop(m: Elements, t: Type) {
    t in m && (forall k <- m :: k <= t) && |Encode(m[t])| == HEADER
  }

  ghost predicate TopLast(m: Elements, top: Type, t: nat)
    requires t <= TYPES && top in m
  {
    var all := Images(m, t);
    |all| > 0 && all[|all| - 1] == Encode(m[top]) && Images(m - {top}, t) == all[..|all| - 1]
  }

  lemma TopLastStep(m: Elements, top: Type, t: nat)
    requires t < top && top in m && TopLast(m, top, t + 1)
    ensures TopLast(m, top, t)
  {
    var rest := Images(m, t + 1);
    if t in m {
      var f := Encode(m[t]);
      assert ([f] + rest)[..|rest|] == [f] + rest[..|rest| - 1];
    }
  }

  lemma {:induction false} ImagesWithoutTop(m: Elements, top: Type, t: nat)
    requires t <= top && top in m && forall k <- m :: k <= top
    ensures TopLast(m, top, t)
    decreases top - t
  {
    if t == top {
      NoImages(m, t + 1);
      NoImages(m - {top}, t + 1);
    } else {
      ImagesWithoutTop(m, top, t + 1);
      TopLastStep(m, top, t);
    }
  }

  lemma {:induction false} NoImages(m: Elements, t: nat)
    requires t <= TYPES && forall k <- m :: k < t
    ensures Images(m, t) == []
    decreases TYPES - t
  {
    if t < TYPES { NoImages(m, t + 1); }
  }

  lemma {:induction false} TopExists(m: Elements, t: nat) returns (top: Type)
    requires m.Keys != {} && t < TYPES && forall k <- m :: k <= t
    ensures top in m && forall k <- m :: k <= top
    decreases t
  {
    if t in m {
      top := t;
    } else {
      var k :| k in m;
      top := TopExists(m, t - 1);
    }
  }

  /** The elements the loop finds again. */
  function Found(m: Elements, top: Type): Elements {
    if HeaderOnlyTop(m, top) then m - {top} else m
  }

  lemma FramesOfElements(m: Elements, top: Type)
    requires WellFormedAll(m) && top in m && forall k <- m :: k <= top
    ensures WellFormedAll(Found(m, top)) && Frames(EncodeAll(m)) == Images(Found(m, top), 0)
  {
    ImagesAreFramed(m, 0);
    FramesOfFlat(Images(m, 0));
    ImagesWithoutTop(m, top, 0);
  }

  lemma DecodeElements(m: Elements, top: Type)
    requires WellFormedAll(m) && top in m && forall k <- m :: k <= top
    ensures Decode(EncodeAll(m)) == Decoded(NormalAll(Found(m, top)), None)
  {
    FramesOfElements(m, top);
    var m' := Found(m, top);
    InsertImages(map[], m', 0);
    NormalFromEnds(map[], m');
  }

  /** For every packable set of elements: unpacking the packed bytes succeeds, and gives the same
      elements except a header-only element at the end. */
  lemma ElementsRoundTrip(m: Elements)
    requires WellFormedAll(m)
    ensures forall top | HeaderOnlyTop(m, top) :: Decode(EncodeAll(m)) == Decoded(NormalAll(m - {top}), None)
    ensures (forall t <- m :: !HeaderOnlyTop(m, t)) ==> Decode(EncodeAll(m)) == Decoded(NormalAll(m), None)
  {
    if m.Keys == {} {
      NoImages(m, 0);
      assert NormalAll(m) == map[];
    } else {
      var top := TopExists(m, TYPES - 1);
      DecodeElements(m, top);
      assert forall t <- m | HeaderOnlyTop(m, t) :: t == top;
    }
  }

  /** The round trip is exact if and only if the last element is more than its header. */
  lemma RoundTripCondition(m: Elements)
    requires WellFormedAll(m)
    ensures Decode(EncodeAll(m)) == Decoded(NormalAll(m), None) <==> forall t <- m :: !HeaderOnlyTop(m, t)
  {
    ElementsRoundTrip(m);
    forall top | HeaderOnlyTop(m, top) ensures Decode(EncodeAll(m)) != Decoded(NormalAll(m), None) {
      assert top in NormalAll(m) && top !in NormalAll(m - {top});
    }
  }

  // ----- Canonical form -----

  lemma {:induction false} NormalImages(m: Elements, t: nat)
    requires WellFormedAll(m) && t <= TYPES
    ensures Images(NormalAll(m), t) == Images(m, t)
    decreases TYPES - t
  {
    if t < TYPES {
      NormalImages(m, t + 1);
      if t in m { NormalIsStable(m[t]); }
    }
  }

  lemma NormalAllIsWellFormed(m: Elements)
    requires WellFormedAll(m)
    ensures WellFormedAll(NormalAll(m))
  {
    var n := NormalAll(m);
    forall t <- n ensures WellFormed(n[t]) && TypeOf(n[t].mem) == t && t != NONE {
      NormalIsStable(m[t]);
    }
  }

  lemma NormalAllTwice(m: Elements)
    requires WellFormedAll(m)
    ensures NormalAll(NormalAll(m)) == NormalAll(m)
  {
    var n := NormalAll(m);
    forall t <- m ensures Normal(n[t]) == n[t] {
      NormalIsStable(m[t]);
    }
  }

  lemma NormalAllIsStable(m: Elements)
    requires WellFormedAll(m)
    ensures WellFormedAll(NormalAll(m)) && EncodeAll(NormalAll(m)) == EncodeAll(m)
    ensures NormalAll(NormalAll(m)) == NormalAll(m)
  {
    NormalAllIsWellFormed(m);
    NormalAllTwice(m);
    NormalImages(m, 0);
  }

  // ----- Which byte strings unpack, and to what -----

  /** Only these two types have a constructor that accepts less than their own struct. */
  predicate Short(f: Bytes) {
    (TypeOf(f) == PORTINFO && |f| < 72) || (TypeOf(f) == LSIINFO && |f| < 57)
  }

  lemma ShortMeansShort(f: Bytes)
    requires |f| >= HEADER && |f| >= RequiredSize(TypeOf(f))
    ensures |f| < PlainLength(f) <==> Short(f)
  {
  }

  /** The frames inside the frame of a MULTIPART. */
  function InnerFrames(f: Bytes): seq<Bytes> {
    if |f| >= HEADER then Frames(f[HEADER..]) else []
  }

  /** No constructor throws. */
  ghost predicate Constructible(f: Bytes) {
    var t := TypeOf(f);
    t == NONE
    || if t == MULTIPART then forall i | 0 <= i < |InnerFrames(f)| :: !Refused(InnerFrames(f)[i])
       else |f| >= RequiredSize(t)
  }

  lemma {:induction false} BakesWhen(fs: seq<Bytes>)
    ensures Bake(fs).error.None? <==> forall i | 0 <= i < |fs| :: !Refused(fs[i])
  {
    if fs != [] && !Refused(fs[0]) {
      BakesWhen(fs[1..]);
      if forall i | 0 <= i < |fs[1..]| :: !Refused(fs[1..][i]) {
        assert forall i | 1 <= i < |fs| :: fs[i] == fs[1..][i - 1];
      }
    }
  }

  ghost predicate AllConstructible(fs: seq<Bytes>) {
    forall i | 0 <= i < |fs| :: Constructible(fs[i])
  }

  lemma {:induction false} InsertsWhen(m: Elements, fs: seq<Bytes>)
    requires Framed(fs)
    ensures InsertAll(m, fs).error.None? <==> AllConstructible(fs)
    decreases |fs|
  {
    if fs != [] {
      var r := Insert(m, fs[0]);
      BakesWhen(InnerFrames(fs[0]));
      assert r.error.None? <==> Constructible(fs[0]);
      if r.error.None? {
        InsertsWhen(r.elements, fs[1..]);
        if AllConstructible(fs[1..]) {
          assert forall i | 1 <= i < |fs| :: fs[i] == fs[1..][i - 1];
        }
      }
    }
  }

  /** A byte string unpacks without exception if and only if no constructor throws for its frames. */
  lemma UnpacksWhen(b: Bytes)
    ensures Decode(b).error.None? <==> AllConstructible(Frames(b))
  {
    FramesAreFramed(b);
    InsertsWhen(map[], Frames(b));
  }

  /** What was built from the frame is packed as its image: nothing in it is shorter than its struct,
      and a MULTIPART has elements of the supported types only. */
  ghost predicate Repackable(f: Bytes) {
    if TypeOf(f) == MULTIPART then
      forall i | 0 <= i < |InnerFrames(f)| :: Bakeable(TypeOf(InnerFrames(f)[i])) && !Short(InnerFrames(f)[i])
    else !Short(f)
  }

  lemma {:induction false} BakedIsAll(fs: seq<Bytes>)
    requires Bake(fs).error.None?
    ensures var inner := Bake(fs).inner;
            |inner| == |fs| && forall i | 0 <= i < |fs| :: inner[i] == BakeOne(fs[i]) && !Refused(fs[i])
  {
    if fs != [] { BakedIsAll(fs[1..]); }
  }

  lemma {:induction false} InnerFits(fs: seq<Bytes>, inner: seq<Slot>)
    requires |inner| == |fs| && forall i | 0 <= i < |fs| :: inner[i] == Some(fs[i]) && PlainLength(fs[i]) <= |fs[i]|
    ensures |EncodeInner(inner)| <= |Flatten(fs)|
  {
    if fs != [] { InnerFits(fs[1..], inner[1..]); }
  }

  lemma BakedWhole(g: Bytes)
    requires |g| >= HEADER && !Refused(g) && |g| < 0x1_0000
    ensures WholeSlot(BakeOne(g)) <==> Bakeable(TypeOf(g)) && !Short(g)
    ensures Bakeable(TypeOf(g)) && !Short(g) ==> PlainLength(g) <= |g|
  {
  }

  lemma BuiltInner(f: Bytes, fs: seq<Bytes>)
    requires LengthField(f) == |f| && |f| >= HEADER && fs == InnerFrames(f) && Bake(fs).error.None?
    ensures var inner := Bake(fs).inner;
            && (WholeInner(inner) <==> forall i | 0 <= i < |fs| :: Bakeable(TypeOf(fs[i])) && !Short(fs[i]))
            && (WholeInner(inner) ==> HEADER + |EncodeInner(inner)| < 0x1_0000)
  {
    var inner := Bake(fs).inner;
    BakedIsAll(fs);
    FramesAreFramed(f[HEADER..]);
    FramesAreAFraming(f[HEADER..]);
    forall i | 0 <= i < |fs|
      ensures WholeSlot(inner[i]) <==> Bakeable(TypeOf(fs[i])) && !Short(fs[i])
      ensures WholeSlot(inner[i]) ==> PlainLength(fs[i]) <= |fs[i]|
    {
      assert LengthField(fs[i]) == |fs[i]|;
      BakedWhole(fs[i]);
    }
    if WholeInner(inner) {
      forall i | 0 <= i < |fs| ensures inner[i] == Some(fs[i]) && PlainLength(fs[i]) <= |fs[i]| {
        assert WholeSlot(inner[i]);
      }
      InnerFits(fs, inner);
    }
  }

  lemma BuiltIsWellFormed(f: Bytes)
    requires LengthField(f) == |f| && TypeOf(f) != NONE && Build(f).Built?
    ensures WellFormed(Build(f).element) <==> Repackable(f)
  {
    if TypeOf(f) == MULTIPART { BuiltInner(f, InnerFrames(f)); } else { ShortMeansShort(f); }
  }

  ghost predicate AllBuilt(m: Elements) {
    forall t <- m :: t != NONE && LengthField(m[t].mem) == |m[t].mem|
                     && TypeOf(m[t].mem) == t && Build(m[t].mem) == Built(m[t])
  }

  lemma InsertBuilt(m: Elements, f: Bytes)
    requires AllBuilt(m) && LengthField(f) == |f|
    ensures AllBuilt(Insert(m, f).elements)
  {
    if Build(f).Built? { assert Build(f).element.mem == f; }
  }

  lemma {:induction false} InsertAllBuilt(m: Elements, fs: seq<Bytes>)
    requires AllBuilt(m) && Framed(fs)
    ensures AllBuilt(InsertAll(m, fs).elements)
    decreases |fs|
  {
    if fs != [] {
      InsertBuilt(m, fs[0]);
      InsertAllBuilt(Insert(m, fs[0]).elements, fs[1..]);
    }
  }

  /** Whether or not unpacking throws, what it leaves is packed as its image if and only if each
      frame that was kept is. */
  lemma KeptIsWellFormed(b: Bytes)
    ensures var m := Decode(b).elements; AllBuilt(m) && (WellFormedAll(m) <==> forall t <- m :: Repackable(m[t].mem))
  {
    var m := Decode(b).elements;
    assert AllBuilt(map[]);
    FramesAreFramed(b);
    InsertAllBuilt(map[], Frames(b));
    forall t <- m ensures WellFormed(m[t]) <==> Repackable(m[t].mem) {
      BuiltIsWellFormed(m[t].mem);
    }
  }

  /** The last frame of each type is packed as its image. */
  ghost predicate LastRepackable(fs: seq<Bytes>) {
    forall i: nat | i < |fs| && TypeOf(fs[i]) != NONE && LastOfType(fs, i, TypeOf(fs[i])) :: Repackable(fs[i])
  }

  lemma KeptIsLast(b: Bytes, t: Type) returns (i: nat)
    requires Decode(b).error.None? && t in Decode(b).elements
    ensures t != NONE && LastOfType(Frames(b), i, t) && Decode(b).elements[t].mem == Frames(b)[i]
  {
    var fs := Frames(b);
    LastFrameWins(b, t);
    var k :| 0 <= k < |fs| && TypeOf(fs[k]) == t;
    i := FindLast(fs, k, t);
  }

  /** For every byte string that unpacks: what it unpacks to is packed as its image if and only if
      the last frame of each type is not shorter than its struct and, for a MULTIPART, holds no element
      that is shorter than its struct or of a type that is not supported. */
  lemma DecodedIsWellFormed(b: Bytes)
    requires Decode(b).error.None?
    ensures WellFormedAll(Decode(b).elements) <==> LastRepackable(Frames(b))
  {
    var fs, m := Frames(b), Decode(b).elements;
    KeptIsWellFormed(b);
    if LastRepackable(fs) {
      forall t <- m ensures Repackable(m[t].mem) {
        var i := KeptIsLast(b, t);
      }
    }
    if forall t <- m :: Repackable(m[t].mem) {
      forall i: nat | i < |fs| && TypeOf(fs[i]) != NONE && LastOfType(fs, i, TypeOf(fs[i])) ensures Repackable(fs[i]) {
        LastFrameWins(b, TypeOf(fs[i]));
        assert m[TypeOf(fs[i])].mem == fs[i];
      }
    }
  }

  /** Packing what a byte string unpacks to, and unpacking that, gives the canonical form of the
      elements exactly if the last one is more than a header: over-long elements are trimmed,
      duplicates dropped, types sorted. Doing it again changes nothing more. */
  lemma Canonicalisation(b: Bytes)
    requires Decode(b).error.None? && LastRepackable(Frames(b))
    ensures var m := Decode(b).elements;
            && WellFormedAll(m) && WellFormedAll(NormalAll(m)) && EncodeAll(NormalAll(m)) == EncodeAll(m)
            && ((forall t <- m :: !HeaderOnlyTop(m, t)) <==> Decode(EncodeAll(m)) == Decoded(NormalAll(m), None))
            && ((forall t <- m :: !HeaderOnlyTop(m, t)) ==>
                  Decode(EncodeAll(Decode(EncodeAll(m)).elements)) == Decode(EncodeAll(m)))
  {
    DecodedIsWellFormed(b);
    var m := Decode(b).elements;
    RoundTripCondition(m);
    NormalAllIsStable(m);
  }

  // ----- Byte strings for which it fails -----

  lemma OneFrame(b: Bytes)
    requires |b| > HEADER && LengthField(b) == |b|
    ensures Frames(b) == [b]
  {
    assert b[..|b|] == b && b[|b|..] == [] && Frames([]) == [];
  }

  lemma OneElement(b: Bytes)
    requires |b| > HEADER && LengthField(b) == |b| && TypeOf(b) != NONE && Build(b).Built?
    ensures Decode(b) == Decoded(map[TypeOf(b) := Build(b).element], None)
  {
    var none: Elements := map[];
    var t, e := TypeOf(b), Build(b).element;
    OneFrame(b);
    assert none - {t} == none && (none - {t})[t := e] == map[t := e];
    InsertFirst(none, b, map[t := e], []);
    assert [b] + [] == [b];
  }

  /** A MULTIPART with an inner element of type NONE: it unpacks, to a null pointer. */
  lemma NullPointer()
    ensures var b: Bytes := [0, 4, 0, 12, 0, 0, 0, 8, 1, 2, 3, 4];
            Decode(b) == Decoded(map[MULTIPART := Multi(b, [None])], None) && !WellFormedAll(Decode(b).elements)
  {
    var b: Bytes := [0, 4, 0, 12, 0, 0, 0, 8, 1, 2, 3, 4];
    var g := b[HEADER..];
    assert g == [0, 0, 0, 8, 1, 2, 3, 4];
    OneFrame(g);
    var gs: seq<Bytes> := [g];
    assert gs[1..] == [] && Bake(gs) == Baked([None], None);
    OneElement(b);
    var m := Decode(b).elements;
    assert !WholeSlot(Multi(b, [None]).inner[0]);
    assert MULTIPART in m && !WellFormed(m[MULTIPART]);
  }

  /** A PORTINFO of the size of a name: it unpacks, but not to a whole struct. */
  lemma ShortPortInfo(name: Bytes)
    requires |name| == 32
    ensures var b := [0, 5, 0, 36] + name;
            Decode(b) == Decoded(map[PORTINFO := Plain(b)], None) && !WellFormedAll(Decode(b).elements)
  {
    var b := [0, 5, 0, 36] + name;
    assert TypeOf(b) == PORTINFO && LengthField(b) == 36;
    OneElement(b);
    ShortMeansShort(b);
    assert PORTINFO in Decode(b).elements;
  }

  lemma FlattenOne(b: Bytes)
    ensures Flatten([b]) == b
  {
    var bs: seq<Bytes> := [b];
    assert bs[1..] == [] && b + [] == b;
  }

  lemma OneImage(m: Elements, t: Type)
    requires m.Keys == {t}
    ensures EncodeAll(m) == Encode(m[t]) && m - {t} == map[]
  {
    assert m - {t} == map[];
    ImagesWithoutTop(m, t, 0);
    NoImages(m - {t}, 0);
    var images, image := Images(m, 0), Encode(m[t]);
    assert TopLast(m, t, 0) && images == [image];
    FlattenOne(image);
  }

  lemma HeaderOnly(t: Type, mem: Bytes)
    requires t > LSIXLSI && mem == [t / 256, t % 256, 0, 4]
    ensures Whole(mem) && TypeOf(mem) == t && EncodePlain(mem) == mem
  {
    assert TypeOf(mem) == t && PlainLength(mem) == 4;
    assert SetLength(mem, 4) == mem && mem[..4] == mem;
  }

  /** A single element that is a header only is packed, but nothing is found again. */
  lemma LostHeader(t: Type)
    requires t > LSIXLSI
    ensures var m: Elements := map[t := Plain([t / 256, t % 256, 0, 4])];
            && WellFormedAll(m) && EncodeAll(m) == m[t].mem
            && HeaderOnlyTop(m, t) && Decode(EncodeAll(m)) == Decoded(map[], None)
  {
    var mem: Bytes := [t / 256, t % 256, 0, 4];
    var m: Elements := map[t := Plain(mem)];
    HeaderOnly(t, mem);
    OneImage(m, t);
    assert Frames(mem) == [];
  }
}
