/** What the parser makes of any bytes at all: a message, a wish for more bytes, or an exception. The
    conditions are on the bytes as they stand, with slot offsets and 32-bit overflow written out. */
module WireParsing {
  import opened Wrappers
  import opened Basics
  import opened ByteExtensions
  import opened Messages
  import opened Codec
  import opened CodecProofs
  import opened WireLayout

  // ----- what the header announces -----

  /** Four bytes as a signed integer, lowest first. */
  function Signed(b: Bytes, at: nat): int32
    requires at + 4 <= |b|
  {
    var b0: int, b1: int, b2: int, b3: int := b[at], b[at + 1], b[at + 2], b[at + 3];
    Wrap32(b0 + 0x100 * b1 + 0x1_0000 * b2 + 0x100_0000 * b3)
  }

  /** Where the length slots end, by type byte. */
  function SlotsEnd(code: byte): nat {
    if code == 3 || code == 9 then 8
    else if code == 4 then 6
    else if code == 5 then 5
    else if code == 10 then 7
    else 2
  }

  /** The body lengths the slots announce, in the order of the bodies. */
  function Announced(b: Bytes): seq<int32>
    requires |b| >= 2 && |b| >= SlotsEnd(b[1])
  {
    if b[1] == 3 || b[1] == 9 then [b[2], b[3], Signed(b, 4)]
    else if b[1] == 4 then [Signed(b, 2)]
    else if b[1] == 5 then [b[2], b[3], b[4]]
    else if b[1] == 10 then [Signed(b, 3), b[2]]
    else []
  }

  function Sum(lengths: seq<int32>): int {
    if lengths == [] then 0 else lengths[0] + Sum(lengths[1..])
  }

  /** Where body `k` ends if the bodies start at `at`. */
  function EndOf(lengths: seq<int32>, at: int, k: nat): int
    requires k < |lengths|
  {
    at + Sum(lengths[..k + 1])
  }

  /** Some body ends, in 32-bit arithmetic, after the data. */
  predicate AsksForMore(lengths: seq<int32>, at: int, length: nat) {
    exists k :: 0 <= k < |lengths| && Wrap32(EndOf(lengths, at, k)) > length
  }

  /** Every body is nonempty and lies in the data. */
  predicate AllInside(lengths: seq<int32>, at: int, length: nat) {
    forall k :: 0 <= k < |lengths| ==> lengths[k] >= 1 && EndOf(lengths, at, k) <= length
  }

  // ----- body by body -----

  lemma EndOfTail(lengths: seq<int32>, at: int, k: nat)
    requires k < |lengths|
    ensures k == 0 ==> EndOf(lengths, at, k) == at + lengths[0]
    ensures k > 0 ==> EndOf(lengths, at, k) == EndOf(lengths[1..], at + lengths[0], k - 1)
  {
    assert lengths[..k + 1][1..] == lengths[1..][..k];
    assert Sum(lengths[..k + 1]) == lengths[0] + Sum(lengths[1..][..k]);
    if k == 0 { assert lengths[1..][..k] == []; }
  }

  lemma AsksTail(lengths: seq<int32>, at: int, length: nat)
    requires lengths != []
    ensures AsksForMore(lengths, at, length)
            <==> Wrap32(at + lengths[0]) > length || AsksForMore(lengths[1..], at + lengths[0], length)
  {
    hide Wrap32, EndOf;
    EndOfTail(lengths, at, 0);
    if AsksForMore(lengths, at, length) {
      var k :| 0 <= k < |lengths| && Wrap32(EndOf(lengths, at, k)) > length;
      EndOfTail(lengths, at, k);
    }
    if AsksForMore(lengths[1..], at + lengths[0], length) {
      var k :| 0 <= k < |lengths[1..]| && Wrap32(EndOf(lengths[1..], at + lengths[0], k)) > length;
      EndOfTail(lengths, at, k + 1);
    }
  }

  lemma InsideLosesHead(lengths: seq<int32>, at: int, length: nat)
    requires lengths != [] && AllInside(lengths, at, length)
    ensures lengths[0] >= 1 && at + lengths[0] <= length && AllInside(lengths[1..], at + lengths[0], length)
  {
    hide EndOf;
    EndOfTail(lengths, at, 0);
    assert lengths[0] >= 1 && EndOf(lengths, at, 0) <= length;
    forall k | 0 <= k < |lengths[1..]|
      ensures lengths[1..][k] >= 1 && EndOf(lengths[1..], at + lengths[0], k) <= length
    {
      EndOfTail(lengths, at, k + 1);
      assert lengths[k + 1] >= 1;
    }
  }

  lemma InsideGainsHead(lengths: seq<int32>, at: int, length: nat)
    requires lengths != [] && lengths[0] >= 1 && at + lengths[0] <= length
    requires AllInside(lengths[1..], at + lengths[0], length)
    ensures AllInside(lengths, at, length)
  {
    hide EndOf;
    forall k | 0 <= k < |lengths| ensures lengths[k] >= 1 && EndOf(lengths, at, k) <= length {
      EndOfTail(lengths, at, k);
      if k > 0 { assert lengths[1..][k - 1] >= 1 && EndOf(lengths[1..], at + lengths[0], k - 1) <= length; }
    }
  }

  lemma InsideTail(lengths: seq<int32>, at: int, length: nat)
    requires lengths != []
    ensures AllInside(lengths, at, length)
            <==> && lengths[0] >= 1 && at + lengths[0] <= length
                 && AllInside(lengths[1..], at + lengths[0], length)
  {
    hide AllInside;
    if AllInside(lengths, at, length) { InsideLosesHead(lengths, at, length); }
    if lengths[0] >= 1 && at + lengths[0] <= length && AllInside(lengths[1..], at + lengths[0], length) {
      InsideGainsHead(lengths, at, length);
    }
  }

  lemma WrapIsRemainder(x: int)
    ensures Wrap32(x) == (x + 0x8000_0000) % 0x1_0000_0000 - 0x8000_0000
  {
  }

  lemma WholeTurns(a: int, turns: int)
    ensures (a - 0x1_0000_0000 * turns) % 0x1_0000_0000 == a % 0x1_0000_0000
  {
  }

  /** Overflow on the way does not change where a sum ends up. */
  lemma WrapSum(x: int, v: int)
    ensures Wrap32(Wrap32(x) + v) == Wrap32(x + v)
  {
    hide Wrap32;
    WrapIsRemainder(x);
    WrapIsRemainder(x + v);
    WrapIsRemainder(Wrap32(x) + v);
    var turns := (x + 0x8000_0000) / 0x1_0000_0000;
    assert Wrap32(x) == x - 0x1_0000_0000 * turns;
    WholeTurns(x + v + 0x8000_0000, turns);
  }

  lemma WrapStep(total: int, current: int, at: int, v: int)
    requires Wrap32(total + current) == Wrap32(at)
    ensures Wrap32(Wrap32(total + current) + v) == Wrap32(at + v)
    ensures Wrap32(total + Wrap32(current + v)) == Wrap32(at + v)
  {
    hide Wrap32;
    WrapSum(at, v);
    WrapSum(total + current, v);
    WrapSum(current + v, total);
  }

  /** The slots of `ps` announce these lengths. */
  predicate Announce(ps: seq<PropertyType>, slots: map<PropertyType, Bytes>, lengths: seq<int32>) {
    |lengths| == |ps|
    && forall i :: 0 <= i < |ps| ==> ps[i] in slots && FromBytesToInt(slots[ps[i]]) == Success(lengths[i])
  }

  lemma AnnounceTail(ps: seq<PropertyType>, slots: map<PropertyType, Bytes>, lengths: seq<int32>)
    requires Announce(ps, slots, lengths) && ps != []
    ensures ps[0] in slots && FromBytesToInt(slots[ps[0]]) == Success(lengths[0])
    ensures Announce(ps[1..], slots, lengths[1..])
  {
    hide FromBytesToInt;
  }

  /** Laying out the bodies fails exactly if one of them asks for more. */
  lemma {:induction false} PortionsAsk(ps: seq<PropertyType>, slots: map<PropertyType, Bytes>, total: int32,
      current: int32, length: nat, lengths: seq<int32>, at: int)
    requires Announce(ps, slots, lengths) && Wrap32(total + current) == Wrap32(at)
    ensures var r := Portions(ps, slots, total, current, length);
      if AsksForMore(lengths, at, length) then r == Failure(MessageIncomplete) else r.Success?
    decreases |ps|
  {
    hide FromBytesToInt, Wrap32, AsksForMore, Announce;
    if ps == [] {
      NothingAsked(ps, slots, lengths, at, length);
    } else {
      AnnounceTail(ps, slots, lengths);
      HasLength(ps, slots, lengths);
      WrapStep(total, current, at, lengths[0]);
      AsksTail(lengths, at, length);
      PortionsAsk(ps[1..], slots, total, Wrap32(current + lengths[0]), length, lengths[1..], at + lengths[0]);
    }
  }

  lemma HasLength(ps: seq<PropertyType>, slots: map<PropertyType, Bytes>, lengths: seq<int32>)
    requires Announce(ps, slots, lengths)
    ensures |lengths| == |ps|
  {
  }

  lemma NothingAsked(ps: seq<PropertyType>, slots: map<PropertyType, Bytes>, lengths: seq<int32>, at: int, length: nat)
    requires Announce(ps, slots, lengths) && ps == []
    ensures !AsksForMore(lengths, at, length) && AllInside(lengths, at, length)
  {
  }

  /** One body can be cut out exactly if it is nonempty and lies in the data. */
  lemma SliceExactly(b: Bytes, begin: nat, v: int32, p: PropertyType)
    requires |b| < ARRAY_LIMIT && begin <= |b| && Wrap32(begin + v) <= |b|
    ensures var r := Slice(b, Portion(begin, v, p));
      if v >= 1 && begin + v <= |b| then r == Success(b[begin..begin + v]) else r == Failure(Thrown)
  {
  }

  /** Cutting out the bodies succeeds exactly if every one is nonempty and lies in the data. */
  lemma {:induction false} SlicesExactly(b: Bytes, ps: seq<PropertyType>, slots: map<PropertyType, Bytes>, total: nat,
      current: nat, lengths: seq<int32>)
    requires |b| < ARRAY_LIMIT && total + current <= |b| && Announce(ps, slots, lengths)
    requires Portions(ps, slots, total, current, |b|).Success?
    ensures var r := Slices(b, Portions(ps, slots, total, current, |b|).value);
      if AllInside(lengths, total + current, |b|) then r.Success? else r == Failure(Thrown)
    decreases |ps|
  {
    hide FromBytesToInt, Wrap32, Slice, AllInside, Announce;
    if ps == [] {
      NothingAsked(ps, slots, lengths, total + current, |b|);
    } else {
      AnnounceTail(ps, slots, lengths);
      HasLength(ps, slots, lengths);
      var begin, v := total + current, lengths[0];
      NoWrap(begin);
      InsideTail(lengths, begin, |b|);
      SliceExactly(b, begin, v, ps[0]);
      var portions := Portions(ps, slots, total, current, |b|).value;
      assert portions[0] == Portion(begin, v, ps[0]);
      if v >= 1 && begin + v <= |b| {
        NoWrap(current + v);
        assert portions[1..] == Portions(ps[1..], slots, total, current + v, |b|).value;
        SlicesExactly(b, ps[1..], slots, total, current + v, lengths[1..]);
      }
    }
  }

  // ----- the slots -----

  /** Slots are read if they fit, each from its own place. */
  lemma {:induction false} SlotAt(b: Bytes, at: nat, ps: seq<PropertyType>, i: nat)
    requires Distinct(ps) && i < |ps|
    ensures var r := ReadSlots(b, at, ps);
      if at + SlotsSize(ps) > |b| then r == Failure(Thrown)
      else
        var begin := at + SlotsSize(ps[..i]);
        && begin + SlotSize(ps[i]) <= |b|
        && r.Success? && ps[i] in r.value && r.value[ps[i]] == b[begin..begin + SlotSize(ps[i])]
    decreases |ps|
  {
    hide SlotSize;
    var at', tail := at + SlotSize(ps[0]), ps[1..];
    assert SlotsSize(ps) == SlotSize(ps[0]) + SlotsSize(tail);
    if tail == [] {
      assert SlotsSize(tail) == 0 && ReadSlots(b, at', tail) == Success(map[]);
      assert ps[..i] == [];
    } else if i > 0 {
      SlotAt(b, at', tail, i - 1);
      assert ps[..i][1..] == tail[..i - 1];
      assert SlotsSize(ps[..i]) == SlotSize(ps[0]) + SlotsSize(tail[..i - 1]);
    } else {
      SlotAt(b, at', tail, 0);
      assert ps[..0] == [];
    }
  }

  lemma SignedValue(b: Bytes, at: nat)
    requires at + 4 <= |b|
    ensures FromBytesToInt(b[at..at + 4]) == Success(Signed(b, at))
  {
    var w := b[at..at + 4];
    var w1: int, w2: int, w3: int := w[1], w[2], w[3];
    assert Pad(w, 4) == w;
    assert w[3..][1..] == [];
    assert LittleEndian(w[3..]) == w3;
    assert w[2..][1..] == w[3..];
    assert LittleEndian(w[2..]) == w2 + 0x100 * w3;
    assert w[1..][1..] == w[2..];
    assert LittleEndian(w[1..]) == w1 + 0x100 * (w2 + 0x100 * w3);
  }

  lemma ByteValue(b: Bytes, at: nat)
    requires at + 1 <= |b|
    ensures FromBytesToInt(b[at..at + 1]) == Success(b[at])
  {
    OneByteValue(b[at]);
    assert b[at..at + 1] == [b[at]];
  }

  /** Two one-byte slots and a last one of either width. */
  lemma ThreeSlots(b: Bytes, p: PropertyType, q: PropertyType, r: PropertyType)
    requires Distinct([p, q, r]) && SlotSize(p) == SlotSize(q) == 1
    ensures var read := ReadSlots(b, 2, [p, q, r]); var end := 4 + SlotSize(r);
      if end > |b| then read == Failure(Thrown)
      else read.Success? && Announce([p, q, r], read.value,
             [b[2], b[3], if r == Payload then Signed(b, 4) else b[4]])
  {
    hide FromBytesToInt, ReadSlots, Signed;
    var ps := [p, q, r];
    assert SlotsSize(ps[..0]) == 0;
    assert ps[..1][1..] == [];
    assert SlotsSize(ps[..1]) == 1;
    assert ps[..2][1..] == [q];
    assert [q][1..] == [];
    assert SlotsSize(ps[..2]) == 2;
    assert ps[1..] == [q, r] && ps[1..][1..] == [r] && [r][1..] == [];
    assert SlotsSize([r]) == SlotSize(r);
    assert SlotsSize([q, r]) == 1 + SlotSize(r);
    assert SlotsSize(ps) == 2 + SlotSize(r);
    SlotAt(b, 2, ps, 0);
    SlotAt(b, 2, ps, 1);
    SlotAt(b, 2, ps, 2);
    if 4 + SlotSize(r) <= |b| {
      ByteValue(b, 2);
      ByteValue(b, 3);
      if r == Payload {
        SignedValue(b, 4);
      } else {
        ByteValue(b, 4);
      }
    }
  }

  lemma PushSlots(b: Bytes)
    requires |b| >= 2
    ensures var read := ReadSlots(b, 2, [Payload]);
      if 6 > |b| then read == Failure(Thrown)
      else read.Success? && Announce([Payload], read.value, [Signed(b, 2)])
  {
    hide FromBytesToInt, ReadSlots, Signed;
    var ps := [Payload];
    assert ps[1..] == [];
    assert SlotsSize(ps) == 4;
    assert SlotsSize(ps[..0]) == 0;
    SlotAt(b, 2, ps, 0);
    if 6 <= |b| { SignedValue(b, 2); }
  }

  /** The header lists the payload type first, the body the payload. */
  lemma PayloadResponseSlots(b: Bytes)
    requires |b| >= 2
    ensures var read := ReadSlots(b, 2, [PayloadType, Payload]);
      if 7 > |b| then read == Failure(Thrown)
      else read.Success? && Announce([Payload, PayloadType], read.value, [Signed(b, 3), b[2]])
  {
    hide FromBytesToInt, ReadSlots, Signed;
    var ps := [PayloadType, Payload];
    assert ps[1..] == [Payload] && [Payload][1..] == [];
    assert ps[..1][1..] == [];
    assert SlotsSize([Payload]) == 4;
    assert SlotsSize(ps) == 5;
    assert SlotsSize(ps[..0]) == 0;
    assert SlotsSize(ps[..1]) == 1;
    SlotAt(b, 2, ps, 0);
    SlotAt(b, 2, ps, 1);
    if 7 <= |b| {
      ByteValue(b, 2);
      SignedValue(b, 3);
    }
  }

  lemma SlotsAnnounced(b: Bytes)
    requires |b| >= 2 && FromCode(b[1]).Some?
    ensures var kind := FromCode(b[1]).value; var read := ReadSlots(b, 2, HeaderOrder(kind));
      if |b| < SlotsEnd(b[1]) then read == Failure(Thrown)
      else read.Success? && Announce(Schema(kind), read.value, Announced(b))
  {
    hide ReadSlots, Announce, Signed, SortByOrder;
    match FromCode(b[1]).value
    case Publish =>
      SortThree(RoutingKey, PayloadType, Payload);
      ThreeSlots(b, RoutingKey, PayloadType, Payload);
    case Send =>
      SortThree(SenderId, PayloadType, Payload);
      ThreeSlots(b, SenderId, PayloadType, Payload);
    case Subscribe =>
      SortThree(RoutingKey, PayloadType, QueueName);
      ThreeSlots(b, RoutingKey, PayloadType, QueueName);
    case Push =>
      PushTables();
      PushSlots(b);
    case PayloadResponse =>
      PayloadResponseOrder();
      PayloadResponseSlots(b);
    case _ =>
      NoSlots(b);
  }

  lemma NoSlots(b: Bytes)
    ensures SortByOrder([]) == [] && ReadSlots(b, 2, []) == Success(map[]) && Announce([], map[], [])
  {
  }

  // ----- the outcome of parsing -----

  lemma {:induction false} InsideAsksNothing(lengths: seq<int32>, at: nat, length: nat)
    requires AllInside(lengths, at, length) && length < ARRAY_LIMIT
    ensures !AsksForMore(lengths, at, length)
  {
    if lengths != [] {
      hide Wrap32, AllInside, AsksForMore;
      InsideTail(lengths, at, length);
      AsksTail(lengths, at, length);
      NoWrap(at + lengths[0]);
      InsideAsksNothing(lengths[1..], at + lengths[0], length);
    }
  }

  /** The same once the slots have been read. */
  lemma BodiesExactly(b: Bytes, kind: MessageType, slots: map<PropertyType, Bytes>, lengths: seq<int32>)
    requires 1 <= |b| < ARRAY_LIMIT && b[0] <= |b| && Announce(Schema(kind), slots, lengths)
    ensures var r := ParseBodies(b, kind, slots);
      && (r == Failure(MessageIncomplete) <==> AsksForMore(lengths, b[0], |b|))
      && (r.Success? <==> AllInside(lengths, b[0], |b|))
      && (r.Failure? ==> r.error == MessageIncomplete || r.error == Thrown)
  {
    hide FromBytesToInt, Wrap32, Schema, Announce, AsksForMore, AllInside, Portions, Slices, BodyEnd;
    PortionsAsk(Schema(kind), slots, b[0], 0, |b|, lengths, b[0]);
    if AllInside(lengths, b[0], |b|) { InsideAsksNothing(lengths, b[0], |b|); }
    if !AsksForMore(lengths, b[0], |b|) {
      SlicesExactly(b, Schema(kind), slots, b[0], 0, lengths);
      if AllInside(lengths, b[0], |b|) {
        SchemaDistinct(kind);
        BodiesContiguous(b, Schema(kind), slots, b[0], 0);
        var portions := Portions(Schema(kind), slots, b[0], 0, |b|).value;
        LastInside(b, Schema(kind), Slices(b, portions).value, b[0], BodyEnd(portions));
      }
    }
  }

  lemma LastInside(b: Bytes, ps: seq<PropertyType>, bodies: map<PropertyType, Bytes>, begin: nat, last: int)
    requires LieIn(b, ps, bodies, begin, last)
    ensures 0 <= last <= |b|
  {
  }

  /** For any bytes that fit an array: what is too short for its header, or announces a body that ends
      (in 32-bit arithmetic) after the data, asks for more; of the rest, exactly the data with a
      known type, complete slots and nonempty bodies inside the data is a message. Everything else throws. */
  lemma ParseExactly(b: Bytes)
    requires |b| < 0x8000_0000
    ensures var whole := |b| >= 2 && |b| >= b[0]; var known := whole && b[1] <= 10 && |b| >= SlotsEnd(b[1]);
      && (TryParse(b) == Failure(MessageIncomplete)
          <==> !whole || (known && AsksForMore(Announced(b), b[0], |b|)))
      && (TryParse(b).Success? <==> known && AllInside(Announced(b), b[0], |b|))
      && (TryParse(b).Failure? ==> TryParse(b).error == MessageIncomplete || TryParse(b).error == Thrown)
  {
    hide FromBytesToInt, Wrap32, ReadSlots, HeaderOrder, Schema, SlotsEnd, Announced, Announce, AsksForMore, AllInside,
      Portions, Slices;
    if |b| >= 2 && |b| >= b[0] && b[1] <= 10 {
      SlotsAnnounced(b);
      if |b| >= SlotsEnd(b[1]) {
        var kind := FromCode(b[1]).value;
        BodiesExactly(b, kind, ReadSlots(b, 2, HeaderOrder(kind)).value, Announced(b));
      }
    }
  }
}
