/** The bytes of every message type, written out: type codes, slot order and slot widths are part of
    what peers agree on. */
module WireLayout {
  import opened Wrappers
  import opened Basics
  import opened ByteExtensions
  import opened Messages
  import opened Codec
  import opened CodecProofs

  /** Four bytes, lowest first. */
  function Word(n: nat): (b: Bytes)
    requires n < 0x8000_0000
    ensures |b| == 4
  {
    [n % 0x100, n / 0x100 % 0x100, n / 0x1_0000 % 0x100, n / 0x100_0000 % 0x100]
  }

  /** A length that a one-byte slot can hold. */
  predicate Short(v: Bytes) {
    1 <= |v| <= 255
  }

  // ----- slots -----

  lemma {:induction false} PadDigits(n: nat, k: nat)
    requires |Digits(n)| <= k + 1
    ensures |Digits(n / 0x100)| <= k
    ensures Pad(Digits(n), k + 1) == [n % 0x100] + Pad(Digits(n / 0x100), k)
  {
  }

  lemma WordSlot(n: nat)
    requires 1 <= n < 0x8000_0000
    ensures PaddedLength(Payload, n) == Word(n)
  {
    hide Digits, Pad;
    var n1 := n / 0x100;
    var n2 := n1 / 0x100;
    var n3 := n2 / 0x100;
    DigitsFit(n);
    PadDigits(n, 3);
    PadDigits(n1, 2);
    PadDigits(n2, 1);
    PadDigits(n3, 0);
    PadNothing(Digits(n3 / 0x100));
    Quotients(n);
  }

  lemma {:induction false} DigitsFit(n: nat)
    requires n < 0x8000_0000
    ensures |Digits(n)| <= 4
  {
    assert Pow256(1) == 0x100;
    assert Pow256(2) == 0x1_0000;
    assert Pow256(3) == 0x100_0000;
    assert Pow256(4) == 0x1_0000_0000;
    DigitsLength(n, 4);
  }

  lemma Quotients(n: nat)
    ensures n / 0x100 / 0x100 == n / 0x1_0000
    ensures n / 0x100 / 0x100 / 0x100 == n / 0x100_0000
  {
  }

  lemma PadNothing(b: Bytes)
    requires b == []
    ensures Pad(b, 0) == []
  {
  }

  lemma ByteSlot(p: PropertyType, n: nat)
    requires p != Payload && 1 <= n <= 255
    ensures PaddedLength(p, n) == [n]
  {
    assert Digits(n) == [n % 0x100] + Digits(n / 0x100);
    assert Digits(n / 0x100) == [];
  }

  // ----- from the tables to the bytes -----

  /** The message is written as exactly these bytes, and these bytes are read as the message. */
  predicate Encodes(m: Message, wire: Bytes) {
    && WellFormed(m) && Build(m).Success? && HasAll(Build(m).value)
    && Encode(Build(m).value) == Success(wire)
    && TryParse(wire).Success? && View(TryParse(wire).value.0) == m && TryParse(wire).value.1 == []
  }

  function BodyOf(m: Message): Bytes
    requires WellFormed(m)
  {
    Concat(Schema(m.kind), m.values)
  }

  lemma FrameParts(m: Message)
    requires WellFormed(m) && InBounds(m)
    ensures |SlotBytes(m)| <= 6 && Frame(m) == [2 + |SlotBytes(m)|, Code(m.kind)] + SlotBytes(m) + BodyOf(m)
  {
    hide Schema, Code, HeaderLength, Concat, SlotBytes;
    HeaderSize(m);
  }

  lemma FrameEncodes(m: Message)
    requires WellFormed(m) && InBounds(m)
    ensures Encodes(m, Frame(m))
  {
    hide Frame, Encode, Build, TryParse, InBounds, Schema;
    BuiltEncodesToFrame(m);
    FrameBelowLimit(m);
    FrameParses(m, []);
    assert Frame(m) + [] == Frame(m);
  }

  lemma FrameBelowLimit(m: Message)
    requires WellFormed(m) && InBounds(m)
    ensures |Frame(m)| < ARRAY_LIMIT
  {
    hide Header;
    HeaderSize(m);
  }

  lemma LaidOut(m: Message)
    requires WellFormed(m) && InBounds(m)
    ensures |SlotBytes(m)| <= 6
    ensures Encodes(m, [2 + |SlotBytes(m)|, Code(m.kind)] + SlotBytes(m) + BodyOf(m))
  {
    hide Encodes, Frame, SlotBytes, BodyOf, InBounds, Code, Schema;
    FrameParts(m);
    FrameEncodes(m);
  }

  lemma {:induction false} ConcatOne(p: PropertyType, values: map<PropertyType, Bytes>)
    requires p in values
    ensures Concat([p], values) == values[p]
  {
    assert [p][1..] == [];
  }

  lemma {:induction false} ConcatTwo(p: PropertyType, q: PropertyType, values: map<PropertyType, Bytes>)
    requires p in values && q in values
    ensures Concat([p, q], values) == values[p] + values[q]
  {
    ConcatOne(q, values);
    assert [p, q][1..] == [q];
  }

  lemma {:induction false} ConcatThree(p: PropertyType, q: PropertyType, r: PropertyType,
      values: map<PropertyType, Bytes>)
    requires p in values && q in values && r in values
    ensures Concat([p, q, r], values) == values[p] + values[q] + values[r]
  {
    ConcatTwo(q, r, values);
    assert [p, q, r][1..] == [q, r];
    assert values[p] + (values[q] + values[r]) == values[p] + values[q] + values[r];
  }

  lemma SortThree(p: PropertyType, q: PropertyType, r: PropertyType)
    requires SlotOrder(p) <= SlotOrder(q) <= SlotOrder(r)
    ensures SortByOrder([p, q, r]) == [p, q, r]
  {
    hide SlotOrder;
    assert [r][1..] == [] && SortByOrder([r]) == [r];
    assert [q, r][1..] == [r] && SortByOrder([q, r]) == [q, r];
    assert [p, q, r][1..] == [q, r];
  }

  lemma LengthsShown(m: Message, p: PropertyType)
    requires WellFormed(m) && InBounds(m) && p in m.values
    ensures |m.values[p]| < ARRAY_LIMIT && PropertyInBounds(p, |m.values[p]|)
    ensures p in PaddedLengths(m) && PaddedLengths(m)[p] == PaddedLength(p, |m.values[p]|)
  {
    BodiesBelowLimit(m);
  }

  predicate InSchemaBounds(m: Message, p: PropertyType) {
    p in m.values && PropertyInBounds(p, |m.values[p]|)
  }

  /** Three properties whose header order is their body order. */
  lemma ThreeProperties(m: Message, p: PropertyType, q: PropertyType, r: PropertyType)
    requires m.values.Keys == {p, q, r} && Schema(m.kind) == [p, q, r]
    requires SlotOrder(p) <= SlotOrder(q) <= SlotOrder(r)
    requires InSchemaBounds(m, p) && InSchemaBounds(m, q) && InSchemaBounds(m, r)
    requires 8 + |m.values[p]| + |m.values[q]| + |m.values[r]| < ARRAY_LIMIT
    ensures
      var slots := PaddedLength(p, |m.values[p]|) + PaddedLength(q, |m.values[q]|) + PaddedLength(r, |m.values[r]|);
      |slots| <= 6 && Encodes(m, [2 + |slots|, Code(m.kind)] + slots + (m.values[p] + m.values[q] + m.values[r]))
  {
    hide Encodes, PropertyInBounds, Code, Concat, SortByOrder, Schema, HeaderLength, SlotOrder, PaddedLengths,
      PaddedLength, FromBytesToInt;
    HeaderOrderIsSchema(m.kind);
    SchemaSlots(m.kind);
    SortThree(p, q, r);
    ConcatThree(p, q, r, m.values);
    assert m.values.Keys == set x | x in [p, q, r];
    LengthsShown(m, p);
    LengthsShown(m, q);
    LengthsShown(m, r);
    ConcatThree(p, q, r, PaddedLengths(m));
    LaidOut(m);
  }

  // ----- the layouts -----

  lemma PublishLayout(routingKey: Bytes, payloadType: Bytes, payload: Bytes)
    requires Short(routingKey) && Short(payloadType) && 1 <= |payload|
    requires 8 + |routingKey| + |payloadType| + |payload| < 0x8000_0000
    ensures Encodes(
              Message(Publish, map[RoutingKey := routingKey, PayloadType := payloadType, Payload := payload]),
              [8, 3, |routingKey|, |payloadType|] + Word(|payload|) + routingKey + payloadType + payload)
  {
    hide Encodes, PaddedLength, Word;
    var m := Message(Publish, map[RoutingKey := routingKey, PayloadType := payloadType, Payload := payload]);
    ThreeProperties(m, RoutingKey, PayloadType, Payload);
    ByteSlot(RoutingKey, |routingKey|);
    ByteSlot(PayloadType, |payloadType|);
    WordSlot(|payload|);
    assert [8, 3] + ([|routingKey|] + [|payloadType|] + Word(|payload|)) + (routingKey + payloadType + payload)
        == [8, 3, |routingKey|, |payloadType|] + Word(|payload|) + routingKey + payloadType + payload;
  }

  lemma SendLayout(senderId: Bytes, payloadType: Bytes, payload: Bytes)
    requires Short(senderId) && Short(payloadType) && 1 <= |payload|
    requires 8 + |senderId| + |payloadType| + |payload| < 0x8000_0000
    ensures Encodes(
              Message(Send, map[SenderId := senderId, PayloadType := payloadType, Payload := payload]),
              [8, 9, |senderId|, |payloadType|] + Word(|payload|) + senderId + payloadType + payload)
  {
    hide Encodes, PaddedLength, Word;
    var m := Message(Send, map[SenderId := senderId, PayloadType := payloadType, Payload := payload]);
    ThreeProperties(m, SenderId, PayloadType, Payload);
    ByteSlot(SenderId, |senderId|);
    ByteSlot(PayloadType, |payloadType|);
    WordSlot(|payload|);
    assert [8, 9] + ([|senderId|] + [|payloadType|] + Word(|payload|)) + (senderId + payloadType + payload)
        == [8, 9, |senderId|, |payloadType|] + Word(|payload|) + senderId + payloadType + payload;
  }

  lemma SubscribeLayout(routingKey: Bytes, payloadType: Bytes, queueName: Bytes)
    requires Short(routingKey) && Short(payloadType) && Short(queueName)
    ensures Encodes(
              Message(Subscribe, map[RoutingKey := routingKey, PayloadType := payloadType, QueueName := queueName]),
              [5, 5, |routingKey|, |payloadType|, |queueName|] + routingKey + payloadType + queueName)
  {
    hide Encodes, PaddedLength;
    var m := Message(Subscribe, map[RoutingKey := routingKey, PayloadType := payloadType, QueueName := queueName]);
    ThreeProperties(m, RoutingKey, PayloadType, QueueName);
    ByteSlot(RoutingKey, |routingKey|);
    ByteSlot(PayloadType, |payloadType|);
    ByteSlot(QueueName, |queueName|);
    assert [5, 5] + ([|routingKey|] + [|payloadType|] + [|queueName|]) + (routingKey + payloadType + queueName)
        == [5, 5, |routingKey|, |payloadType|, |queueName|] + routingKey + payloadType + queueName;
  }

  lemma PushTables()
    ensures Schema(Push) == HeaderOrder(Push) == [Payload] && HeaderLength(Push) == 6
  {
    assert [Payload][1..] == [];
  }

  lemma PushLayout(payload: Bytes)
    requires 1 <= |payload| && 6 + |payload| < 0x8000_0000
    ensures Encodes(Message(Push, map[Payload := payload]), [6, 4] + Word(|payload|) + payload)
  {
    hide Encodes, PaddedLength, PaddedLengths, Word, Concat, HeaderOrder, HeaderLength;
    var m := Message(Push, map[Payload := payload]);
    PushTables();
    ConcatOne(Payload, m.values);
    assert m.values.Keys == set x | x in [Payload];
    LengthsShown(m, Payload);
    ConcatOne(Payload, PaddedLengths(m));
    WordSlot(|payload|);
    LaidOut(m);
  }

  lemma PayloadResponseTables()
    ensures HeaderOrder(PayloadResponse) == [PayloadType, Payload] && HeaderLength(PayloadResponse) == 7
    ensures Schema(PayloadResponse) == [Payload, PayloadType]
  {
    hide SortByOrder;
    PayloadResponseOrder();
  }

  /** The payload comes first in the body and last in the header. */
  lemma PayloadResponseLayout(payload: Bytes, payloadType: Bytes)
    requires Short(payloadType) && 1 <= |payload| && 7 + |payload| + |payloadType| < 0x8000_0000
    ensures Encodes(Message(PayloadResponse, map[Payload := payload, PayloadType := payloadType]),
                    [7, 10, |payloadType|] + Word(|payload|) + payload + payloadType)
  {
    hide Encodes, PaddedLength, PaddedLengths, Word, Concat, HeaderOrder, HeaderLength, Schema;
    var m := Message(PayloadResponse, map[Payload := payload, PayloadType := payloadType]);
    PayloadResponseTables();
    ConcatTwo(Payload, PayloadType, m.values);
    assert m.values.Keys == set x | x in [Payload, PayloadType];
    LengthsShown(m, Payload);
    LengthsShown(m, PayloadType);
    ConcatTwo(PayloadType, Payload, PaddedLengths(m));
    ByteSlot(PayloadType, |payloadType|);
    WordSlot(|payload|);
    LaidOut(m);
    assert [7, 10] + ([|payloadType|] + Word(|payload|)) + (payload + payloadType)
        == [7, 10, |payloadType|] + Word(|payload|) + payload + payloadType;
  }

  lemma NoProperties(t: MessageType)
    requires Schema(t) == []
    ensures Encodes(Message(t, map[]), [2, Code(t)])
  {
    hide Encodes, Code, Schema;
    var m := Message(t, map[]);
    assert HeaderOrder(t) == [];
    LaidOut(m);
    assert [2, Code(t)] + [] + [] == [2, Code(t)];
  }

  lemma ControlLayouts()
    ensures Encodes(Message(Ack, map[]), [2, 0]) && Encodes(Message(Nack, map[]), [2, 1])
    ensures Encodes(Message(HandShake, map[]), [2, 2]) && Encodes(Message(Unsubscribe, map[]), [2, 6])
    ensures Encodes(Message(Heartbeat, map[]), [2, 7]) && Encodes(Message(Close, map[]), [2, 8])
  {
    hide Encodes;
    NoProperties(Ack);
    NoProperties(Nack);
    NoProperties(HandShake);
    NoProperties(Unsubscribe);
    NoProperties(Heartbeat);
    NoProperties(Close);
  }
}
