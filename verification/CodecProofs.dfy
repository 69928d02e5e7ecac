/** What the codec promises: an exact round trip, a prefix code, and stable re-encoding. */
module CodecProofs {
  import opened Wrappers
  import opened Basics
  import opened ByteExtensions
  import opened Messages
  import opened Codec

  // ----- the reference layout of a frame -----

  function Lengths(m: Message): map<PropertyType, Bytes> {
    map p | p in m.values :: Digits(|m.values[p]|)
  }

  /** What a caller can check before sending: every property nonempty, one-byte lengths below
      256, and a frame that fits an array. */
  predicate InBounds(m: Message)
    requires WellFormed(m)
  {
    && (forall p :: p in m.values ==> PropertyInBounds(p, |m.values[p]|))
    && HeaderLength(m.kind) + |Concat(Schema(m.kind), m.values)| < ARRAY_LIMIT
  }

  predicate PropertyInBounds(p: PropertyType, length: nat) {
    1 <= length && (SlotSize(p) == 1 ==> length <= 0xFF)
  }

  /** `padded` holds the slot bytes of `ps`: the values of `slots` filled up to slot width. */
  predicate Pads(ps: seq<PropertyType>, slots: map<PropertyType, Bytes>, padded: map<PropertyType, Bytes>) {
    forall p :: p in ps ==>
      && p in slots && |slots[p]| <= SlotSize(p)
      && p in padded && padded[p] == Pad(slots[p], SlotSize(p))
  }

  function PaddedLength(p: PropertyType, length: nat): (b: Bytes)
    requires PropertyInBounds(p, length) && length < ARRAY_LIMIT
    ensures |b| == SlotSize(p)
    ensures FromBytesToInt(b) == Success(length)
  {
    assert Pow256(1) == 0x100;
    assert Pow256(2) == 0x1_0000;
    assert Pow256(3) == 0x100_0000;
    assert Pow256(4) == 0x1_0000_0000;
    PaddedDigitsRoundTrip(length, SlotSize(p));
    Pad(Digits(length), SlotSize(p))
  }

  lemma {:induction false} ConcatCovers(ps: seq<PropertyType>, values: map<PropertyType, Bytes>, p: PropertyType)
    requires forall q :: q in ps ==> q in values
    requires p in ps
    ensures |values[p]| <= |Concat(ps, values)|
  {
    if p != ps[0] {
      assert p in ps[1..];
      ConcatCovers(ps[1..], values, p);
    }
  }

  lemma BodiesBelowLimit(m: Message)
    requires WellFormed(m) && InBounds(m)
    ensures forall p :: p in m.values ==> |m.values[p]| < ARRAY_LIMIT
  {
    forall p | p in m.values ensures |m.values[p]| < ARRAY_LIMIT {
      ConcatCovers(Schema(m.kind), m.values, p);
    }
  }

  function PaddedLengths(m: Message): (padded: map<PropertyType, Bytes>)
    requires WellFormed(m) && InBounds(m)
    ensures padded.Keys == m.values.Keys
    ensures forall p :: p in m.values ==> |padded[p]| == SlotSize(p)
    ensures forall p :: p in m.values ==> FromBytesToInt(padded[p]) == Success(|m.values[p]|)
  {
    BodiesBelowLimit(m);
    map p | p in m.values :: PaddedLength(p, |m.values[p]|)
  }

  lemma PaddedLengthsPad(m: Message)
    requires WellFormed(m) && InBounds(m)
    ensures Pads(HeaderOrder(m.kind), Lengths(m), PaddedLengths(m))
    ensures Pads(HeaderOrder(m.kind), PaddedLengths(m), PaddedLengths(m))
  {
    BodiesBelowLimit(m);
    HeaderOrderIsSchema(m.kind);
    forall p | p in HeaderOrder(m.kind)
      ensures p in m.values && |Lengths(m)[p]| <= SlotSize(p)
      ensures PaddedLengths(m)[p] == Pad(Lengths(m)[p], SlotSize(p))
      ensures PaddedLengths(m)[p] == Pad(PaddedLengths(m)[p], SlotSize(p))
    {
      assert p in Schema(m.kind);
      assert PaddedLengths(m)[p] == PaddedLength(p, |m.values[p]|);
    }
  }

  /** The length slots, in header order. */
  function SlotBytes(m: Message): Bytes
    requires WellFormed(m) && InBounds(m)
  {
    HeaderOrderIsSchema(m.kind);
    Concat(HeaderOrder(m.kind), PaddedLengths(m))
  }

  /** The two fixed header items and the length slots. */
  function Header(m: Message): (b: Bytes)
    requires WellFormed(m) && InBounds(m)
  {
    HeaderOrderIsSchema(m.kind);
    [HeaderLength(m.kind), Code(m.kind)] + SlotBytes(m)
  }

  /** The bytes of an in-bounds message, laid out directly. */
  function Frame(m: Message): (b: Bytes)
    requires WellFormed(m) && InBounds(m)
  {
    Header(m) + Concat(Schema(m.kind), m.values)
  }

  lemma HeaderSize(m: Message)
    requires WellFormed(m) && InBounds(m)
    ensures |Header(m)| == HeaderLength(m.kind) <= 8
  {
    HeaderOrderIsSchema(m.kind);
    ConcatSlots(HeaderOrder(m.kind), PaddedLengths(m));
  }

  lemma {:induction false} ConcatSlots(ps: seq<PropertyType>, padded: map<PropertyType, Bytes>)
    requires forall p :: p in ps ==> p in padded && |padded[p]| == SlotSize(p)
    ensures |Concat(ps, padded)| == SlotsSize(ps)
  {
    if ps != [] { ConcatSlots(ps[1..], padded); }
  }

  // ----- building -----

  lemma {:induction false} SetAllSets(m: Proto, ps: seq<PropertyType>, values: map<PropertyType, Bytes>)
    requires forall p :: p in ps ==> p in values && p in m.props
    ensures SetAll(m, ps, values).Success? <==> forall p :: p in ps ==> values[p] != []
    ensures SetAll(m, ps, values).Failure? ==> SetAll(m, ps, values).error == Thrown
    ensures SetAll(m, ps, values).Success? ==>
              var r := SetAll(m, ps, values).value;
              && r.kind == m.kind
              && (forall p :: p in r.slots <==> p in m.slots || p in ps)
              && (forall p :: p in r.props <==> p in m.props)
              && (forall p :: p in ps ==> r.slots[p] == Digits(|values[p]|) && r.props[p] == values[p])
              && (forall p :: p in m.slots && p !in ps ==> r.slots[p] == m.slots[p])
              && (forall p :: p in m.props && p !in ps ==> r.props[p] == m.props[p])
    decreases |ps|
  {
    if ps != [] {
      var p0 := ps[0];
      assert forall p :: p in ps <==> p == p0 || p in ps[1..];
      if values[p0] != [] {
        SetAllSets(SetProperty(m, p0, values[p0]).0, ps[1..], values);
      }
    }
  }

  /** Building succeeds exactly when no property is empty, and then holds the given values. */
  lemma BuildHolds(m: Message)
    requires WellFormed(m)
    ensures Build(m).Success? <==> forall p :: p in m.values ==> m.values[p] != []
    ensures Build(m).Failure? ==> Build(m).error == Thrown
    ensures Build(m).Success? ==> Build(m).value == Proto(m.kind, Lengths(m), m.values)
  {
    SetAllSets(New(m.kind), Schema(m.kind), m.values);
    if Build(m).Success? {
      var r := Build(m).value;
      assert r.slots == Lengths(m);
      assert r.props == m.values;
    }
  }

  // ----- encoding -----

  lemma {:induction false} WriteOne(buffer: Bytes, at: nat, item: Item, items: seq<Item>)
    requires item.value.Some? && at + |item.value.value| <= |buffer|
    ensures WriteItems(buffer, at, [item] + items)
        == WriteItems(Splice(buffer, at, item.value.value), at + item.size, items)
  {
    assert ([item] + items)[1..] == items;
  }

  lemma PadsTail(ps: seq<PropertyType>, slots: map<PropertyType, Bytes>, padded: map<PropertyType, Bytes>)
    requires ps != [] && Pads(ps, slots, padded)
    ensures Pads(ps[1..], slots, padded)
    ensures ps[0] in slots && |slots[ps[0]]| <= SlotSize(ps[0])
    ensures ps[0] in padded && padded[ps[0]] == Pad(slots[ps[0]], SlotSize(ps[0]))
    ensures forall p :: p in ps ==> p in padded
  {
  }

  lemma {:induction false} ConcatHead(ps: seq<PropertyType>, values: map<PropertyType, Bytes>)
    requires ps != [] && forall p :: p in ps ==> p in values
    ensures Concat(ps, values) == values[ps[0]] + Concat(ps[1..], values)
  {
  }

  lemma Regroup(pre: Bytes, first: Bytes, rest: Bytes)
    ensures pre + (first + rest) == (pre + first) + rest
  {
  }

  lemma {:induction false} FittingSlotsWritten(pre: Bytes, ps: seq<PropertyType>,
      slots: map<PropertyType, Bytes>, padded: map<PropertyType, Bytes>)
    requires Pads(ps, slots, padded)
    ensures WriteItems(pre + Zeros(SlotsSize(ps)), |pre|, SlotItems(ps, slots)) == Success(pre + Concat(ps, padded))
    decreases |ps|
  {
    if ps == [] {
      assert pre + Zeros(0) == pre == pre + Concat(ps, padded);
    } else {
      hide Splice, Pad, Zeros, SlotSize, WriteItems, Pads, Concat;
      PadsTail(ps, slots, padded);
      var size := SlotSize(ps[0]);
      var v := slots[ps[0]];
      SplicePads(pre, v, size, SlotsSize(ps[1..]));
      FittingSlotsWritten(pre + padded[ps[0]], ps[1..], slots, padded);
      WriteOne(pre + Zeros(SlotsSize(ps)), |pre|, Item(Some(v), size), SlotItems(ps[1..], slots));
      ConcatHead(ps, padded);
      Regroup(pre, padded[ps[0]], Concat(ps[1..], padded));
    }
  }

  lemma SplicePads(pre: Bytes, v: Bytes, size: nat, more: nat)
    requires |v| <= size
    ensures Splice(pre + Zeros(size + more), |pre|, v) == pre + Pad(v, size) + Zeros(more)
  {
  }

  lemma {:induction false} FixedItemsWritten(n: byte, code: byte, more: nat, items: seq<Item>)
    ensures WriteItems(Zeros(2 + more), 0, [Item(Some([n]), 1), Item(Some([code]), 1)] + items)
         == WriteItems([n, code] + Zeros(more), 2, items)
  {
    var all := [Item(Some([n]), 1), Item(Some([code]), 1)] + items;
    assert all[1..][1..] == items;
    var b1 := Splice(Zeros(2 + more), 0, [n]);
    assert b1 == [n] + Zeros(1 + more);
    assert WriteItems(Zeros(2 + more), 0, all) == WriteItems(b1, 1, all[1..]);
    var b2 := Splice(b1, 1, [code]);
    assert b2 == [n, code] + Zeros(more);
    assert WriteItems(b1, 1, all[1..]) == WriteItems(b2, 2, all[1..][1..]);
  }

  lemma {:induction false} FittingHeader(m: Proto, padded: map<PropertyType, Bytes>)
    requires Pads(HeaderOrder(m.kind), m.slots, padded)
    ensures HeaderLength(m.kind) <= 8
    ensures HeaderBytes(m) == Success([HeaderLength(m.kind), Code(m.kind)] + Concat(HeaderOrder(m.kind), padded))
  {
    hide HeaderOrder, Schema;
    HeaderOrderIsSchema(m.kind);
    var ps := HeaderOrder(m.kind);
    var n := HeaderLength(m.kind);
    FixedItemsWritten(n, Code(m.kind), SlotsSize(ps), SlotItems(ps, m.slots));
    FittingSlotsWritten([n, Code(m.kind)], ps, m.slots, padded);
  }

  /** An object whose header values fit their slots encodes to the frame of what it shows. */
  lemma EncodesToFrame(m: Message, slots: map<PropertyType, Bytes>)
    requires WellFormed(m) && InBounds(m)
    requires Pads(HeaderOrder(m.kind), slots, PaddedLengths(m))
    ensures var p := Proto(m.kind, slots, m.values); HasAll(p) && Encode(p) == Success(Frame(m))
  {
    var p := Proto(m.kind, slots, m.values);
    FittingHeader(p, PaddedLengths(m));
    HeaderSize(m);
    assert forall q :: q in Schema(m.kind) ==> q in m.values && m.values[q] != [];
  }

  lemma BuiltEncodesToFrame(m: Message)
    requires WellFormed(m) && InBounds(m)
    ensures Build(m).Success? && HasAll(Build(m).value)
    ensures Encode(Build(m).value) == Success(Frame(m))
  {
    BuildHolds(m);
    PaddedLengthsPad(m);
    EncodesToFrame(m, Lengths(m));
  }

  // ----- decoding -----

  /** The part of `values` a list of properties names. */
  function Pick(ps: seq<PropertyType>, values: map<PropertyType, Bytes>): (r: map<PropertyType, Bytes>)
    requires forall p :: p in ps ==> p in values
    ensures forall p :: p in r <==> p in ps
    ensures forall p :: p in ps ==> r[p] == values[p]
  {
    if ps == [] then map[] else Pick(ps[1..], values)[ps[0] := values[ps[0]]]
  }

  lemma {:induction false} ReadOne(pre: Bytes, first: Bytes, tail: Bytes, ps: seq<PropertyType>,
      rest: map<PropertyType, Bytes>)
    requires ps != [] && |first| == SlotSize(ps[0])
    requires ReadSlots(pre + first + tail, |pre + first|, ps[1..]) == Success(rest)
    ensures ReadSlots(pre + first + tail, |pre|, ps) == Success(rest[ps[0] := first])
  {
    hide SlotSize;
    assert (pre + first + tail)[|pre|..|pre| + |first|] == first;
  }

  lemma {:induction false} SlotsReadBack(pre: Bytes, ps: seq<PropertyType>, padded: map<PropertyType, Bytes>,
      post: Bytes)
    requires forall p :: p in ps ==> p in padded && |padded[p]| == SlotSize(p)
    ensures ReadSlots(pre + Concat(ps, padded) + post, |pre|, ps) == Success(Pick(ps, padded))
    decreases |ps|
  {
    if ps != [] {
      hide SlotSize, ReadSlots, Concat;
      var first, rest := padded[ps[0]], Concat(ps[1..], padded);
      SlotsReadBack(pre + first, ps[1..], padded, post);
      ConcatHead(ps, padded);
      Regroup(pre, first, rest);
      Regroup(pre + first, rest, post);
      ReadOne(pre, first, rest + post, ps, Pick(ps[1..], padded));
    }
  }

  /** The header reads every body length as it is. */
  predicate ReadsLengths(ps: seq<PropertyType>, slots: map<PropertyType, Bytes>, values: map<PropertyType, Bytes>) {
    forall p :: p in ps ==>
      && p in values && values[p] != []
      && p in slots && FromBytesToInt(slots[p]) == Success(|values[p]|)
  }

  lemma {:induction false} PortionsIncomplete(ps: seq<PropertyType>, slots: map<PropertyType, Bytes>,
      values: map<PropertyType, Bytes>, total: nat, current: nat, length: nat)
    requires ReadsLengths(ps, slots, values)
    requires length < total + current + |Concat(ps, values)| < ARRAY_LIMIT
    requires ps != []
    ensures Portions(ps, slots, total, current, length) == Failure(MessageIncomplete)
    decreases |ps|
  {
    hide FromBytesToInt, Wrap32;
    var n := |values[ps[0]]|;
    assert Concat(ps, values) == values[ps[0]] + Concat(ps[1..], values);
    if total + current + n <= length {
      assert ps[1..] != [];
      PortionsIncomplete(ps[1..], slots, values, total, current + n, length);
    }
  }

  /** Bodies one after the other. */
  function PortionList(ps: seq<PropertyType>, values: map<PropertyType, Bytes>, begin: nat): seq<Portion>
    requires forall p :: p in ps ==> p in values
    requires begin + |Concat(ps, values)| < ARRAY_LIMIT
  {
    if ps == [] then []
    else
      var n := |values[ps[0]]|;
      assert |Concat(ps, values)| == n + |Concat(ps[1..], values)|;
      [Portion(begin, n, ps[0])] + PortionList(ps[1..], values, begin + n)
  }

  lemma {:induction false} PortionsComplete(ps: seq<PropertyType>, slots: map<PropertyType, Bytes>,
      values: map<PropertyType, Bytes>, total: nat, current: nat, length: nat)
    requires ReadsLengths(ps, slots, values)
    requires total + current + |Concat(ps, values)| <= length < ARRAY_LIMIT
    ensures Portions(ps, slots, total, current, length) == Success(PortionList(ps, values, total + current))
    decreases |ps|
  {
    hide FromBytesToInt, Wrap32;
    if ps != [] {
      PortionsComplete(ps[1..], slots, values, total, current + |values[ps[0]]|, length);
    }
  }

  lemma SliceCuts(pre: Bytes, v: Bytes, post: Bytes, p: PropertyType)
    requires v != [] && |pre| + |v| + |post| < ARRAY_LIMIT
    ensures Slice(pre + v + post, Portion(|pre|, |v|, p)) == Success(v)
  {
    assert (pre + v + post)[|pre|..|pre| + |v|] == v;
  }

  lemma {:induction false} PortionsSlice(pre: Bytes, ps: seq<PropertyType>, values: map<PropertyType, Bytes>,
      post: Bytes)
    requires forall p :: p in ps ==> p in values && values[p] != []
    requires |pre| + |Concat(ps, values)| + |post| < ARRAY_LIMIT
    ensures Slices(pre + Concat(ps, values) + post, PortionList(ps, values, |pre|)) == Success(Pick(ps, values))
    decreases |ps|
  {
    hide Slice;
    if ps != [] {
      var v := values[ps[0]];
      var tail := Concat(ps[1..], values);
      var b := pre + Concat(ps, values) + post;
      PortionsSlice(pre + v, ps[1..], values, post);
      SliceCuts(pre, v, tail + post, ps[0]);
      assert b == pre + v + tail + post == pre + v + (tail + post);
      var l := PortionList(ps, values, |pre|);
      assert l[1..] == PortionList(ps[1..], values, |pre + v|);
      assert l[0] == Portion(|pre|, |v|, ps[0]);
    }
  }

  lemma {:induction false} PortionsEnd(ps: seq<PropertyType>, values: map<PropertyType, Bytes>, begin: nat)
    requires forall p :: p in ps ==> p in values
    requires begin + |Concat(ps, values)| < ARRAY_LIMIT
    ensures |PortionList(ps, values, begin)| == |ps|
    ensures BodyEnd(PortionList(ps, values, begin)) == if ps == [] then 0 else begin + |Concat(ps, values)|
    decreases |ps|
  {
    if ps != [] {
      var n := |values[ps[0]]|;
      PortionsEnd(ps[1..], values, begin + n);
      if |ps| > 1 {
        var l := PortionList(ps, values, begin);
        assert l[|l| - 1] == PortionList(ps[1..], values, begin + n)[|l| - 2];
      } else {
        assert ps[1..] == [];
      }
    }
  }

  lemma CodeRoundTrip(t: MessageType)
    ensures FromCode(Code(t)) == Some(t)
  {
  }

  lemma {:induction false} PickAll(ps: seq<PropertyType>, values: map<PropertyType, Bytes>)
    requires forall p :: p in ps <==> p in values
    ensures Pick(ps, values) == values
  {
  }

  lemma {:induction false} HeaderReadBack(m: Message, rest: Bytes)
    requires WellFormed(m) && InBounds(m)
    ensures |Header(m)| == HeaderLength(m.kind) <= 8
    ensures (Header(m) + rest)[0] == HeaderLength(m.kind)
    ensures FromCode((Header(m) + rest)[1]) == Some(m.kind)
    ensures ReadSlots(Header(m) + rest, 2, HeaderOrder(m.kind)) == Success(PaddedLengths(m))
  {
    hide FromBytesToInt, Wrap32, ReadSlots, HeaderOrder, HeaderLength, Schema, Code, FromCode, Pick, InBounds;
    HeaderSize(m);
    HeaderOrderIsSchema(m.kind);
    CodeRoundTrip(m.kind);
    var ps := HeaderOrder(m.kind);
    SlotsReadBack([HeaderLength(m.kind), Code(m.kind)], ps, PaddedLengths(m), rest);
    PickAll(ps, PaddedLengths(m));
  }

  lemma LengthsRead(m: Message)
    requires WellFormed(m) && InBounds(m)
    ensures ReadsLengths(Schema(m.kind), PaddedLengths(m), m.values)
  {
  }

  /** The parts of `ParseBodies` put together. */
  lemma {:induction false} BodiesAssembled(b: Bytes, kind: MessageType, slots: map<PropertyType, Bytes>,
      portions: seq<Portion>, bodies: map<PropertyType, Bytes>, size: nat)
    requires 1 <= |b| && size <= |b|
    requires Portions(Schema(kind), slots, b[0], 0, |b|) == Success(portions)
    requires Slices(b, portions) == Success(bodies)
    requires size == if BodyEnd(portions) == 0 then b[0] else BodyEnd(portions)
    ensures ParseBodies(b, kind, slots) == Success((Proto(kind, slots, New(kind).props + bodies), b[size..]))
  {
    hide Portions, Slices, BodyEnd, Schema, New;
  }

  lemma {:induction false} AllPropsSet(kind: MessageType, values: map<PropertyType, Bytes>)
    requires values.Keys == (set p | p in Schema(kind))
    ensures New(kind).props + Pick(Schema(kind), values) == values
  {
  }

  lemma BodiesParse(m: Message, rest: Bytes)
    requires WellFormed(m) && InBounds(m)
    requires |Frame(m)| + |rest| < ARRAY_LIMIT
    requires 1 <= |Frame(m)| && Frame(m)[0] == HeaderLength(m.kind)
    ensures ParseBodies(Frame(m) + rest, m.kind, PaddedLengths(m))
         == Success((Proto(m.kind, PaddedLengths(m), m.values), rest))
  {
    hide FromBytesToInt, Wrap32, ParseBodies, Portions, Slices, BodyEnd, PortionList, HeaderLength, Header, New,
        Schema, Pick;
    var s := Schema(m.kind);
    var n := HeaderLength(m.kind);
    var body := Concat(s, m.values);
    var b := Frame(m) + rest;
    HeaderSize(m);
    assert b == Header(m) + body + rest;
    LengthsRead(m);
    PortionsComplete(s, PaddedLengths(m), m.values, n, 0, |b|);
    PortionsSlice(Header(m), s, m.values, rest);
    PortionsEnd(s, m.values, n);
    AllPropsSet(m.kind, m.values);
    NoBody(s, m.values);
    assert b[n + |body|..] == rest;
    BodiesAssembled(b, m.kind, PaddedLengths(m), PortionList(s, m.values, n), Pick(s, m.values), n + |body|);
  }

  lemma {:induction false} NoBody(ps: seq<PropertyType>, values: map<PropertyType, Bytes>)
    requires forall p :: p in ps ==> p in values && values[p] != []
    ensures ps == [] <==> Concat(ps, values) == []
  {
  }

  /** Round trip: the frame parses to the same type and the same bytes under every property,
      and leaves exactly the bytes that follow it. */
  lemma FrameParses(m: Message, rest: Bytes)
    requires WellFormed(m) && InBounds(m)
    requires |Frame(m)| + |rest| < ARRAY_LIMIT
    ensures TryParse(Frame(m) + rest) == Success((Proto(m.kind, PaddedLengths(m), m.values), rest))
  {
    hide FromBytesToInt, ParseBodies, ReadSlots, HeaderOrder, HeaderLength;
    var body := Concat(Schema(m.kind), m.values);
    assert Frame(m) + rest == Header(m) + (body + rest);
    HeaderReadBack(m, body + rest);
    BodiesParse(m, rest);
  }

  lemma CutBodyIncomplete(m: Message, part: Bytes)
    requires WellFormed(m) && InBounds(m)
    requires part < Concat(Schema(m.kind), m.values)
    ensures TryParse(Header(m) + part) == Failure(MessageIncomplete)
  {
    hide FromBytesToInt, Wrap32, ReadSlots, HeaderOrder, HeaderLength, Schema, FromCode, Header, Portions, InBounds;
    HeaderReadBack(m, part);
    LengthsRead(m);
    var n := HeaderLength(m.kind);
    BodyBelowLimit(m);
    PortionsIncomplete(Schema(m.kind), PaddedLengths(m), m.values, n, 0, n + |part|);
  }

  lemma BodyBelowLimit(m: Message)
    requires WellFormed(m) && InBounds(m)
    ensures HeaderLength(m.kind) + |Concat(Schema(m.kind), m.values)| < ARRAY_LIMIT
  {
  }

  /** Reading a property after setting one: the value just set under its own key, even when setting
      threw because the value was empty, and the old value under every other key. */
  lemma SetThenGet(m: Proto, p: PropertyType, v: Bytes, q: PropertyType)
    ensures var (m', r) := SetProperty(m, p, v);
            && GetProperty(m', q) == (if q == p && r != Failure(Rejected) then Success(v) else GetProperty(m, q))
            && (r == Failure(Rejected) <==> GetProperty(m, p) == Failure(Rejected))
  {
  }

  /** What a receiver reads out of a frame is what the sender's object holds: the given bytes under
      every property of the message type, a refusal under every other. */
  lemma ParsedProperty(m: Message, rest: Bytes, q: PropertyType)
    requires WellFormed(m) && InBounds(m) && |Frame(m)| + |rest| < ARRAY_LIMIT
    ensures Build(m).Success? && TryParse(Frame(m) + rest).Success?
    ensures GetProperty(TryParse(Frame(m) + rest).value.0, q) == GetProperty(Build(m).value, q)
         == if q in Schema(m.kind) then Success(m.values[q]) else Failure(Rejected)
  {
    hide TryParse, Build, Frame;
    FrameParses(m, rest);
    BuildHolds(m);
  }

  /** Prefix-freeness: no strict prefix of a frame parses, each asks for more bytes. */
  lemma StrictPrefixIncomplete(m: Message, k: nat)
    requires WellFormed(m) && InBounds(m) && k < |Frame(m)|
    ensures TryParse(Frame(m)[..k]) == Failure(MessageIncomplete)
  {
    hide ParseBodies, ReadSlots, HeaderOrder, HeaderLength, Schema, FromCode, Header, InBounds;
    var n := HeaderLength(m.kind);
    var body := Concat(Schema(m.kind), m.values);
    HeaderReadBack(m, body);
    if k >= n {
      assert Frame(m)[..k] == Header(m) + body[..k - n];
      CutBodyIncomplete(m, body[..k - n]);
    } else if k >= 2 {
      assert Frame(m)[..k][0] == n;
    }
  }

  /** Re-encoding what was parsed gives the same bytes again. */
  lemma ParsedReencodes(m: Message)
    requires WellFormed(m) && InBounds(m)
    ensures var q := Proto(m.kind, PaddedLengths(m), m.values); HasAll(q) && Encode(q) == Success(Frame(m))
  {
    PaddedLengthsPad(m);
    EncodesToFrame(m, PaddedLengths(m));
  }

  // ----- exactness -----

  lemma {:induction false} WrittenBefore(buffer: Bytes, at: nat, items: seq<Item>)
    requires at <= |buffer| && WriteItems(buffer, at, items).Success?
    ensures WriteItems(buffer, at, items).value[..at] == buffer[..at]
    decreases |items|
  {
    if items != [] {
      var b := Splice(buffer, at, items[0].value.value);
      assert b[..at] == buffer[..at];
      if at + items[0].size <= |b| {
        WrittenBefore(b, at + items[0].size, items[1..]);
        var r := WriteItems(b, at + items[0].size, items[1..]).value;
        assert r[..at] == r[..at + items[0].size][..at];
        assert b[..at] == b[..at + items[0].size][..at];
      } else {
        assert items[1..] == [] by { OffTheEnd(b, at + items[0].size, items[1..]); }
      }
    }
  }

  lemma {:induction false} OffTheEnd(buffer: Bytes, at: nat, items: seq<Item>)
    requires at > |buffer| && WriteItems(buffer, at, items).Success?
    ensures items == []
  {
  }

  /** However far earlier values overflow, a one-byte slot ends up holding the lowest byte of
      its own length. */
  lemma {:induction false} OneByteSlotTruncates(buffer: Bytes, at: nat, ps: seq<PropertyType>,
      slots: map<PropertyType, Bytes>, p: PropertyType)
    requires p in ps && SlotSize(p) == 1 && Distinct(ps)
    requires forall q :: q in ps ==> q in slots && slots[q] != []
    requires at + SlotsSize(ps) == |buffer|
    requires WriteItems(buffer, at, SlotItems(ps, slots)).Success?
    ensures forall post: Bytes ::
              var r := ReadSlots(WriteItems(buffer, at, SlotItems(ps, slots)).value + post, at, ps);
              r.Success? && p in r.value && r.value[p] == [slots[p][0]]
    decreases |ps|
  {
    var items := SlotItems(ps, slots);
    var size := SlotSize(ps[0]);
    var b := Splice(buffer, at, slots[ps[0]]);
    assert items[1..] == SlotItems(ps[1..], slots);
    var h := WriteItems(buffer, at, items).value;
    WrittenBefore(b, at + size, items[1..]);
    assert ps == [ps[0]] + ps[1..];
    forall post: Bytes
      ensures var r := ReadSlots(h + post, at, ps);
              r.Success? && p in r.value && r.value[p] == [slots[p][0]]
    {
      if p == ps[0] {
        SlotsInside(h + post, at + size, ps[1..]);
        assert h[..at + size][at] == b[..at + size][at] == slots[p][0];
        assert (h + post)[at..at + 1] == [slots[p][0]];
      } else {
        OneByteSlotTruncates(b, at + size, ps[1..], slots, p);
      }
    }
  }

  lemma {:induction false} SlotsInside(b: Bytes, at: nat, ps: seq<PropertyType>)
    requires at + SlotsSize(ps) <= |b|
    ensures ReadSlots(b, at, ps).Success?
    decreases |ps|
  {
    if ps != [] { SlotsInside(b, at + SlotSize(ps[0]), ps[1..]); }
  }

  /** Every parsed body is as long as its slot says. */
  lemma {:induction false} ParsedLengths(b: Bytes, ps: seq<PropertyType>, slots: map<PropertyType, Bytes>,
      total: int32, current: int32)
    requires Distinct(ps) && |b| < ARRAY_LIMIT
    requires Portions(ps, slots, total, current, |b|).Success?
    requires Slices(b, Portions(ps, slots, total, current, |b|).value).Success?
    ensures var bodies := Slices(b, Portions(ps, slots, total, current, |b|).value).value;
            forall p :: p in ps ==>
              p in slots && p in bodies && FromBytesToInt(slots[p]) == Success(|bodies[p]|)
    decreases |ps|
  {
    hide FromBytesToInt;
    if ps != [] {
      var value := FromBytesToInt(slots[ps[0]]).value;
      var current' := Wrap32(current + value);
      var portions := Portions(ps, slots, total, current, |b|).value;
      assert portions[1..] == Portions(ps[1..], slots, total, current', |b|).value;
      ParsedLengths(b, ps[1..], slots, total, current');
      SliceLength(b, portions[0]);
      assert forall p :: p in ps ==> p == ps[0] || p in ps[1..];
    }
  }

  lemma SliceLength(b: Bytes, portion: Portion)
    requires Slice(b, portion).Success? && |b| < ARRAY_LIMIT
    ensures |Slice(b, portion).value| == portion.length
  {
  }

  lemma {:induction false} ParseReadsSlots(b: Bytes)
    requires TryParse(b).Success? && |b| < ARRAY_LIMIT
    ensures var m := TryParse(b).value.0;
            && 2 <= |b| && FromCode(b[1]) == Some(m.kind)
            && ReadSlots(b, 2, HeaderOrder(m.kind)) == Success(m.slots)
            && forall p :: p in Schema(m.kind) ==>
                 p in m.slots && p in m.props && FromBytesToInt(m.slots[p]) == Success(|m.props[p]|)
  {
    var m := TryParse(b).value.0;
    SchemaDistinct(m.kind);
    ParsedLengths(b, Schema(m.kind), m.slots, b[0], 0);
  }

  /** A message survives the wire: it can be built and encoded, and parsing the bytes shows it
      again with nothing left over. */
  predicate RoundTrips(m: Message)
    requires WellFormed(m)
  {
    && Build(m).Success? && HasAll(Build(m).value)
    && Encode(Build(m).value).Success?
    && var r := TryParse(Encode(Build(m).value).value);
       r.Success? && View(r.value.0) == m && r.value.1 == []
  }

  /** What the header of an encoded object looks like, whatever fits or not. */
  lemma EncodedHeader(m: Proto, p: PropertyType)
    requires HasAll(m) && Encode(m).Success?
    requires forall q :: q in Schema(m.kind) ==> q in m.slots && m.slots[q] != []
    requires p in Schema(m.kind) && SlotSize(p) == 1
    ensures var e := Encode(m).value;
            && |e| < ARRAY_LIMIT && 2 <= |e| && FromCode(e[1]) == Some(m.kind)
            && var r := ReadSlots(e, 2, HeaderOrder(m.kind));
               r.Success? && p in r.value && r.value[p] == [m.slots[p][0]]
  {
    hide HeaderOrder, Schema;
    HeaderOrderIsSchema(m.kind);
    CodeRoundTrip(m.kind);
    var ps := HeaderOrder(m.kind);
    var n := HeaderLength(m.kind);
    var items := SlotItems(ps, m.slots);
    var buffer := [n, Code(m.kind)] + Zeros(SlotsSize(ps));
    FixedItemsWritten(n, Code(m.kind), SlotsSize(ps), items);
    assert HeaderBytes(m) == WriteItems(buffer, 2, items);
    WrittenBefore(buffer, 2, items);
    OneByteSlotTruncates(buffer, 2, ps, m.slots, p);
    var h := HeaderBytes(m).value;
    assert h[..2][1] == Code(m.kind);
    var body := BodyBytes(m).value;
    assert Encode(m).value == h + body;
  }

  lemma OverlongIsLost(m: Message, p: PropertyType)
    requires WellFormed(m) && p in m.values && SlotSize(p) == 1 && |m.values[p]| > 0xFF
    ensures !RoundTrips(m)
  {
    if RoundTrips(m) {
      BuildHolds(m);
      var q := Build(m).value;
      var e := Encode(q).value;
      var n := |m.values[p]|;
      assert forall x :: x in Schema(m.kind) ==> m.values[x] != [];
      forall x | x in Schema(m.kind) ensures q.slots[x] != [] {
        DigitsValue(|m.values[x]|);
      }
      EncodedHeader(q, p);
      ParseReadsSlots(e);
      DigitsValue(n);
      var low: byte := n % 0x100;
      assert TryParse(e).value.0.slots[p] == [low];
      OneByteValue(low);
    }
  }

  lemma OneByteValue(x: byte)
    ensures FromBytesToInt([x]) == Success(x)
  {
    LittleEndianPadded([x], 3);
    assert Pad([x], 4) == [x] + Zeros(3);
    assert [x][1..] == [];
  }

  /** The exact condition: a message round-trips if and only if it is in bounds. */
  lemma RoundTripExactly(m: Message)
    requires WellFormed(m)
    ensures RoundTrips(m) <==> InBounds(m)
  {
    if InBounds(m) {
      BuiltEncodesToFrame(m);
      HeaderSize(m);
      FrameParses(m, []);
      assert Frame(m) + [] == Frame(m);
    } else if RoundTrips(m) {
      BuildHolds(m);
      if p :| p in m.values && SlotSize(p) == 1 && |m.values[p]| > 0xFF {
        OverlongIsLost(m, p);
      }
      assert forall p :: p in m.values ==> PropertyInBounds(p, |m.values[p]|);
    }
  }

  lemma PayloadResponseOrder()
    ensures HeaderOrder(PayloadResponse) == [PayloadType, Payload]
    ensures SlotsSize([PayloadType, Payload]) == 5
  {
    assert Schema(PayloadResponse)[1..] == [PayloadType];
    assert SortByOrder([PayloadType]) == [PayloadType];
    assert [PayloadType, Payload][1..] == [Payload];
    assert SlotsSize([Payload]) == 4;
  }

  lemma OverlongLengthBytes()
    ensures Digits(300) == [44, 1] && Digits(1) == [1]
  {
    assert Digits(1) == [1];
  }

  lemma OverlongWrites()
    ensures WriteItems([7, 10] + Zeros(5), 2, [Item(Some([44, 1]), 1), Item(Some([1]), 4)])
         == Success([7, 10, 44, 1, 0, 0, 0])
  {
    var items := [Item(Some([44, 1]), 1), Item(Some([1]), 4)];
    var b1 := Splice([7, 10] + Zeros(5), 2, [44, 1]);
    assert b1 == [7, 10, 44, 1, 0, 0, 0];
    assert items[1..] == [Item(Some([1]), 4)];
    assert items[1..][1..] == [];
    assert Splice(b1, 3, [1]) == b1;
    assert WriteItems(b1, 3, items[1..]) == WriteItems(b1, 7, []);
  }

  lemma OverlongHeader(m: Proto)
    requires m.kind == PayloadResponse && m.slots == map[Payload := [1], PayloadType := [44, 1]]
    ensures HeaderBytes(m) == Success([7, 10, 44, 1, 0, 0, 0])
  {
    hide WriteItems, SortByOrder;
    PayloadResponseOrder();
    var items := SlotItems([PayloadType, Payload], m.slots);
    assert [PayloadType, Payload][1..] == [Payload];
    assert SlotItems([Payload], m.slots) == [Item(Some([1]), 4)];
    assert items == [Item(Some([44, 1]), 1), Item(Some([1]), 4)];
    FixedItemsWritten(7, 10, 5, items);
    OverlongWrites();
  }

  /** A type name of 300 bytes is accepted by the encoder and lost on the way. */
  lemma OverlongExample(name: Bytes)
    requires |name| == 300
    ensures var m := Message(PayloadResponse, map[Payload := [1], PayloadType := name]);
            && WellFormed(m) && Build(m).Success? && HasAll(Build(m).value)
            && HeaderBytes(Build(m).value) == Success([7, 10, 44, 1, 0, 0, 0])
            && !RoundTrips(m)
  {
    hide HeaderBytes, RoundTrips, Build, Digits;
    var m := Message(PayloadResponse, map[Payload := [1], PayloadType := name]);
    assert m.values.Keys == {Payload, PayloadType} == (set p | p in Schema(m.kind));
    BuildHolds(m);
    OverlongIsLost(m, PayloadType);
    OverlongLengthBytes();
    assert Lengths(m) == map[Payload := [1], PayloadType := [44, 1]];
    OverlongHeader(Build(m).value);
  }

  // ----- failures -----

  lemma {:induction false} MissingValueThrows(buffer: Bytes, at: nat, items: seq<Item>, i: nat)
    requires i < |items| && items[i].value.None?
    ensures WriteItems(buffer, at, items) == Failure(Thrown)
    decreases |items|
  {
    if i > 0 && items[0].value.Some? && at + |items[0].value.value| <= |buffer| {
      MissingValueThrows(Splice(buffer, at, items[0].value.value), at + items[0].size, items[1..], i - 1);
    }
  }

  lemma {:induction false} SlotItemOf(ps: seq<PropertyType>, slots: map<PropertyType, Bytes>, p: PropertyType)
      returns (i: nat)
    requires p in ps && p !in slots
    ensures i < |SlotItems(ps, slots)| && SlotItems(ps, slots)[i].value.None?
  {
    if ps[0] == p {
      i := 0;
    } else {
      var k := SlotItemOf(ps[1..], slots, p);
      i := k + 1;
    }
  }

  /** An object with a property never set cannot be encoded: its header value is missing. */
  lemma UnsetThrows(m: Proto, p: PropertyType)
    requires HasAll(m) && p in Schema(m.kind) && p !in m.slots
    ensures Encode(m) == Failure(Thrown)
  {
    hide WriteItems, SlotItems;
    HeaderOrderIsSchema(m.kind);
    var i := SlotItemOf(HeaderOrder(m.kind), m.slots, p);
    MissingValueThrows(Zeros(HeaderLength(m.kind)), 0, HeaderItems(m), i + 2);
  }

  /** Emptying one property of an encodable object throws, and leaves an object whose header still
      encodes, with the old length, while its body is refused. */
  lemma EmptiedIsRefused(m: Message, p: PropertyType)
    requires WellFormed(m) && InBounds(m) && p in Schema(m.kind)
    ensures Build(m).Success?
    ensures var (emptied, r) := SetProperty(Build(m).value, p, []);
            && r == Failure(Thrown)
            && HasAll(emptied)
            && HeaderBytes(emptied) == Success(Header(m))
            && Encode(emptied) == Failure(Rejected)
  {
    hide HeaderBytes, Build, PaddedLengths, HeaderOrder, HeaderLength, Schema, Concat, Code, Lengths, Pads;
    BuildHolds(m);
    var built := Proto(m.kind, Lengths(m), m.values);
    assert Build(m) == Success(built) && HasAll(built);
    var emptied := built.(props := m.values[p := []]);
    assert SetProperty(built, p, []) == (emptied, Failure(Thrown)) && HasAll(emptied);
    PaddedLengthsPad(m);
    FittingHeader(emptied, PaddedLengths(m));
    assert BodyBytes(emptied) == Failure(Rejected) by { assert emptied.props[p] == []; }
  }

  /** Data too short for its own header asks for more; an unknown type byte throws. */
  lemma BadHeaders(b: Bytes)
    ensures |b| < 2 || |b| < b[0] ==> TryParse(b) == Failure(MessageIncomplete)
    ensures |b| >= 2 && |b| >= b[0] && b[1] > 10 ==> TryParse(b) == Failure(Thrown)
  {
  }

  // ----- parsing arbitrary bytes -----

  lemma SliceInside(b: Bytes, begin: nat, v: int32, p: PropertyType)
    requires |b| < ARRAY_LIMIT && begin <= |b| && Slice(b, Portion(begin, v, p)).Success?
    ensures 1 <= v && begin + v <= |b| && Wrap32(begin + v) == begin + v
    ensures Slice(b, Portion(begin, v, p)).value == b[begin..begin + v]
  {
  }

  /** The first body of a successful parse, and the parse of the others. */
  lemma FirstBody(b: Bytes, ps: seq<PropertyType>, slots: map<PropertyType, Bytes>, total: nat, current: nat)
      returns (v: nat)
    requires ps != [] && |b| < ARRAY_LIMIT && total + current <= |b|
    requires Portions(ps, slots, total, current, |b|).Success?
    requires Slices(b, Portions(ps, slots, total, current, |b|).value).Success?
    ensures 1 <= v && total + current + v <= |b|
    ensures var portions := Portions(ps, slots, total, current, |b|).value;
            var rest := Portions(ps[1..], slots, total, current + v, |b|);
            var begin := total + current;
            && rest.Success? && Slices(b, rest.value).Success?
            && Slices(b, portions).value == Slices(b, rest.value).value[ps[0] := b[begin..begin + v]]
            && BodyEnd(portions) == if rest.value == [] then begin + v else BodyEnd(rest.value)
  {
    hide FromBytesToInt, Slice, Wrap32;
    var begin := total + current;
    var value := FromBytesToInt(slots[ps[0]]).value;
    var portions := Portions(ps, slots, total, current, |b|).value;
    NoWrap(begin);
    SliceInside(b, begin, value, ps[0]);
    NoWrap(current + value);
    NoWrap(begin + value);
    v := value;
    assert portions[1..] == Portions(ps[1..], slots, total, current + v, |b|).value;
    LastPortion(ps, portions, portions[1..]);
  }

  lemma {:induction false} NoPortions(ps: seq<PropertyType>, slots: map<PropertyType, Bytes>, total: int32,
      current: int32, length: int)
    requires Portions(ps, slots, total, current, length).Success?
    ensures Portions(ps, slots, total, current, length).value == [] <==> ps == []
  {
  }

  /** The bodies of `ps` lie in `b` one after the other from `begin` on, none of them empty; `last` is
      where they end, or 0 if there are none. */
  predicate LieIn(b: Bytes, ps: seq<PropertyType>, bodies: map<PropertyType, Bytes>, begin: nat, last: int) {
    && (forall p :: p in ps ==> p in bodies && bodies[p] != [])
    && begin + |Concat(ps, bodies)| <= |b|
    && b[begin..begin + |Concat(ps, bodies)|] == Concat(ps, bodies)
    && last == if ps == [] then 0 else begin + |Concat(ps, bodies)|
  }

  lemma OneMoreBody(b: Bytes, ps: seq<PropertyType>, inner: map<PropertyType, Bytes>, bodies: map<PropertyType, Bytes>,
      begin: nat, v: nat, last: int)
    requires ps != [] && Distinct(ps) && v >= 1 && begin + v <= |b|
    requires LieIn(b, ps[1..], inner, begin + v, last)
    requires bodies == inner[ps[0] := b[begin..begin + v]]
    ensures LieIn(b, ps, bodies, begin, if ps[1..] == [] then begin + v else last)
  {
    var tail := Concat(ps[1..], inner);
    ConcatSame(ps[1..], inner, bodies);
    ConcatHead(ps, bodies);
    assert b[begin..begin + v] + b[begin + v..begin + v + |tail|] == b[begin..begin + v + |tail|];
  }

  lemma {:induction false} NoBodies(b: Bytes, slots: map<PropertyType, Bytes>, total: nat, current: nat)
    requires |b| < ARRAY_LIMIT && total + current <= |b|
    ensures Portions([], slots, total, current, |b|) == Success([])
    ensures LieIn(b, [], Slices(b, []).value, total + current, BodyEnd([]))
  {
    assert b[total + current..total + current] == [];
  }

  lemma {:induction false} BodiesContiguous(b: Bytes, ps: seq<PropertyType>, slots: map<PropertyType, Bytes>,
      total: nat, current: nat)
    requires Distinct(ps) && |b| < ARRAY_LIMIT && total + current <= |b|
    requires Portions(ps, slots, total, current, |b|).Success?
    requires Slices(b, Portions(ps, slots, total, current, |b|).value).Success?
    ensures var portions := Portions(ps, slots, total, current, |b|).value;
            LieIn(b, ps, Slices(b, portions).value, total + current, BodyEnd(portions))
    decreases |ps|
  {
    hide Portions, Slices, BodyEnd, LieIn, FromBytesToInt, Slice, Wrap32, Concat;
    if ps == [] {
      NoBodies(b, slots, total, current);
    } else {
      var v := FirstBody(b, ps, slots, total, current);
      var portions := Portions(ps, slots, total, current, |b|).value;
      var rest := Portions(ps[1..], slots, total, current + v, |b|).value;
      BodiesContiguous(b, ps[1..], slots, total, current + v);
      NoPortions(ps[1..], slots, total, current + v, |b|);
      OneMoreBody(b, ps, Slices(b, rest).value, Slices(b, portions).value, total + current, v, BodyEnd(rest));
    }
  }

  lemma NoWrap(x: nat)
    requires x < ARRAY_LIMIT
    ensures Wrap32(x) == x
  {
  }

  lemma {:induction false} ConcatSame(ps: seq<PropertyType>, a: map<PropertyType, Bytes>, b: map<PropertyType, Bytes>)
    requires forall p :: p in ps ==> p in a && p in b && a[p] == b[p]
    ensures Concat(ps, a) == Concat(ps, b)
  {
    if ps != [] { ConcatSame(ps[1..], a, b); }
  }

  lemma LastPortion(ps: seq<PropertyType>, portions: seq<Portion>, rest: seq<Portion>)
    requires ps != [] && portions != [] && portions[1..] == rest
    ensures rest != [] ==> BodyEnd(portions) == BodyEnd(rest)
    ensures rest == [] ==> BodyEnd(portions) == Wrap32(portions[0].begin + portions[0].length)
  {
    hide Wrap32;
  }

  lemma ThreeParts(b: Bytes, at: nat, middle: Bytes, rest: Bytes)
    requires at + |middle| <= |b| && b[at..at + |middle|] == middle && rest == b[at + |middle|..]
    ensures b == b[..at] + middle + rest
  {
  }

  /** Whatever bytes are parsed, a success takes them apart: a header as long as its first byte says, a
      known type, every body nonempty and in insertion order, and the remainder, with nothing lost
      or read twice. */
  lemma ParseTakesApart(b: Bytes)
    requires |b| < ARRAY_LIMIT && TryParse(b).Success?
    ensures var (m, rest) := TryParse(b).value;
            && |b| >= 2 && b[0] <= |b| && b[1] == Code(m.kind) && HasAll(m)
            && (forall p :: p in Schema(m.kind) ==> m.props[p] != [])
            && b == b[..b[0]] + Concat(Schema(m.kind), m.props) + rest
  {
    hide FromBytesToInt, Wrap32, ReadSlots, HeaderOrder, Schema, Code, Concat, Portions, Slices, BodyEnd;
    var (m, rest) := TryParse(b).value;
    var ps := Schema(m.kind);
    SchemaDistinct(m.kind);
    BodiesContiguous(b, ps, m.slots, b[0], 0);
    var portions := Portions(ps, m.slots, b[0], 0, |b|).value;
    var bodies := Slices(b, portions).value;
    BodiesOnly(b, ps, m.slots, b[0], 0);
    assert m.props == New(m.kind).props + bodies;
    ConcatSame(ps, bodies, m.props);
    NoBody(ps, bodies);
    ThreeParts(b, b[0], Concat(ps, bodies), rest);
  }

  lemma {:induction false} BodiesOnly(b: Bytes, ps: seq<PropertyType>, slots: map<PropertyType, Bytes>, total: int32,
      current: int32)
    requires Portions(ps, slots, total, current, |b|).Success?
    requires Slices(b, Portions(ps, slots, total, current, |b|).value).Success?
    ensures forall p :: p in Slices(b, Portions(ps, slots, total, current, |b|).value).value ==> p in ps
    decreases |ps|
  {
    if ps != [] {
      hide FromBytesToInt, Slice, Wrap32;
      var value := FromBytesToInt(slots[ps[0]]).value;
      var portions := Portions(ps, slots, total, current, |b|).value;
      assert portions[1..] == Portions(ps[1..], slots, total, Wrap32(current + value), |b|).value;
      BodiesOnly(b, ps[1..], slots, total, Wrap32(current + value));
    }
  }
}
