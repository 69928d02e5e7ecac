/** The wire codec as functions on values: what `Protocol` and `ProtoHeader` write and read.
    A `Proto` is the state of one protocol object: the header values set so far and the bytes
    of every property. `Message` is what a user of the protocol sees of it. */
module Codec {
  import opened Wrappers
  import opened ByteExtensions
  import opened Messages

  type Bytes = seq<byte>

  datatype Proto = Proto(kind: MessageType, slots: map<PropertyType, Bytes>, props: map<PropertyType, Bytes>)

  datatype Message = Message(kind: MessageType, values: map<PropertyType, Bytes>)

  // ----- construction -----

  function New(kind: MessageType): Proto {
    Proto(kind, map[], map p | p in Schema(kind) :: [])
  }

  /** Sets the bytes first and the header value after; an empty value throws in between. */
  function SetProperty(m: Proto, p: PropertyType, v: Bytes): (Proto, Result<()>) {
    if p !in m.props then (m, Failure(Rejected))
    else
      var m' := m.(props := m.props[p := v]);
      if v == [] then (m', Failure(Thrown))
      else (m'.(slots := m.slots[p := Digits(|v|)]), Success(()))
  }

  function GetProperty(m: Proto, p: PropertyType): Result<Bytes> {
    if p in m.props then Success(m.props[p]) else Failure(Rejected)
  }

  function SetAll(m: Proto, ps: seq<PropertyType>, values: map<PropertyType, Bytes>): Result<Proto>
    requires forall p :: p in ps ==> p in values
    decreases |ps|
  {
    if ps == [] then Success(m)
    else
      var (m', r) := SetProperty(m, ps[0], values[ps[0]]);
      if r.Failure? then Failure(r.error) else SetAll(m', ps[1..], values)
  }

  predicate WellFormed(m: Message) {
    m.values.Keys == (set p | p in Schema(m.kind))
  }

  /** `BuildMessageSaga`: a fresh protocol object with every property set in schema order. */
  function Build(m: Message): Result<Proto>
    requires WellFormed(m)
  {
    SetAll(New(m.kind), Schema(m.kind), m.values)
  }

  // ----- encoding -----

  datatype Item = Item(value: Option<Bytes>, size: nat)

  function SlotItems(ps: seq<PropertyType>, slots: map<PropertyType, Bytes>): seq<Item> {
    if ps == [] then []
    else [Item(if ps[0] in slots then Some(slots[ps[0]]) else None, SlotSize(ps[0]))] + SlotItems(ps[1..], slots)
  }

  function HeaderItems(m: Proto): seq<Item> {
    HeaderOrderIsSchema(m.kind);
    [Item(Some([HeaderLength(m.kind)]), 1), Item(Some([Code(m.kind)]), 1)]
    + SlotItems(HeaderOrder(m.kind), m.slots)
  }

  /** `value.CopyTo(buffer, at)` for a destination that is long enough. */
  function Splice(buffer: Bytes, at: nat, value: Bytes): (b: Bytes)
    requires at + |value| <= |buffer|
    ensures |b| == |buffer|
  {
    buffer[..at] + value + buffer[at + |value|..]
  }

  /** Copies the item values into the buffer one after the other. A value longer than its slot
      runs into the next one, which is then overwritten in turn; a missing value or a value that
      runs off the buffer throws. */
  function WriteItems(buffer: Bytes, at: nat, items: seq<Item>): (r: Result<Bytes>)
    ensures r.Success? ==> |r.value| == |buffer|
    decreases |items|
  {
    if items == [] then Success(buffer)
    else if items[0].value.None? || at + |items[0].value.value| > |buffer| then Failure(Thrown)
    else WriteItems(Splice(buffer, at, items[0].value.value), at + items[0].size, items[1..])
  }

  function HeaderBytes(m: Proto): Result<Bytes> {
    WriteItems(Zeros(HeaderLength(m.kind)), 0, HeaderItems(m))
  }

  function Concat(ps: seq<PropertyType>, values: map<PropertyType, Bytes>): Bytes
    requires forall p :: p in ps ==> p in values
  {
    if ps == [] then [] else values[ps[0]] + Concat(ps[1..], values)
  }

  predicate HasAll(m: Proto) {
    m.props.Keys == (set p | p in Schema(m.kind))
  }

  function BodyBytes(m: Proto): Result<Bytes>
    requires HasAll(m)
  {
    if exists p :: p in Schema(m.kind) && m.props[p] == [] then Failure(Rejected)
    else if |Concat(Schema(m.kind), m.props)| >= ARRAY_LIMIT then Failure(Thrown)
    else Success(Concat(Schema(m.kind), m.props))
  }

  function Encode(m: Proto): Result<Bytes>
    requires HasAll(m)
  {
    var header := HeaderBytes(m);
    if header.Failure? then header
    else
      var body := BodyBytes(m);
      if body.Failure? then body
      else if |header.value| + |body.value| >= ARRAY_LIMIT then Failure(Thrown)
      else Success(header.value + body.value)
  }

  // ----- decoding -----

  /** The raw slot bytes of each property, cut from `b` starting at index `at`. */
  function ReadSlots(b: Bytes, at: nat, ps: seq<PropertyType>): Result<map<PropertyType, Bytes>>
    decreases |ps|
  {
    if ps == [] then Success(map[])
    else if at + SlotSize(ps[0]) > |b| then Failure(Thrown)
    else
      var rest := ReadSlots(b, at + SlotSize(ps[0]), ps[1..]);
      if rest.Failure? then rest
      else Success(rest.value[ps[0] := b[at..at + SlotSize(ps[0])]])
  }

  datatype Portion = Portion(begin: int32, length: int32, prop: PropertyType)

  /** Where each property's body lies; `Incomplete` as soon as one would end after the data. */
  function Portions(ps: seq<PropertyType>, slots: map<PropertyType, Bytes>, total: int32, current: int32, length: int)
    : Result<seq<Portion>>
    decreases |ps|
  {
    if ps == [] then Success([])
    else if ps[0] !in slots then Failure(Rejected)
    else
      var value := FromBytesToInt(slots[ps[0]]);
      if value.Failure? then Failure(value.error)
      else if Wrap32(Wrap32(total + current) + value.value) > length then Failure(MessageIncomplete)
      else
        var rest := Portions(ps[1..], slots, total, Wrap32(current + value.value), length);
        if rest.Failure? then rest
        else Success([Portion(Wrap32(total + current), value.value, ps[0])] + rest.value)
  }

  /** The bytes of one portion; zero lengths, overruns and inverted ranges throw. */
  function Slice(b: Bytes, portion: Portion): Result<Bytes> {
    var end := Wrap32(portion.begin + portion.length);
    if portion.length == 0 || end > |b| || portion.begin < 0 || end < portion.begin then Failure(Thrown)
    else Success(b[portion.begin..end])
  }

  function Slices(b: Bytes, portions: seq<Portion>): Result<map<PropertyType, Bytes>> {
    if portions == [] then Success(map[])
    else
      var first := Slice(b, portions[0]);
      if first.Failure? then Failure(first.error)
      else
        var rest := Slices(b, portions[1..]);
        if rest.Failure? then rest else Success(rest.value[portions[0].prop := first.value])
  }

  /** End of the last body, or 0 for a message without properties. */
  function BodyEnd(portions: seq<Portion>): int32 {
    if portions == [] then 0
    else
      var last := portions[|portions| - 1];
      Wrap32(last.begin + last.length)
  }

  /** `InitializeFrom` once the header values are known. */
  function ParseBodies(b: Bytes, kind: MessageType, slots: map<PropertyType, Bytes>): Result<(Proto, Bytes)>
    requires 1 <= |b|
  {
    var portions := Portions(Schema(kind), slots, b[0], 0, |b|);
    if portions.Failure? then Failure(portions.error)
    else
      var bodies := Slices(b, portions.value);
      if bodies.Failure? then Failure(bodies.error)
      else
        var end := BodyEnd(portions.value);
        var size := if end == 0 then b[0] else end;
        if size < 0 || size > |b| then Failure(Thrown)
        else Success((Proto(kind, slots, New(kind).props + bodies.value), b[size..]))
  }

  /** `TryParseMessage`: the message in front of `b` and the bytes after it. */
  function TryParse(b: Bytes): Result<(Proto, Bytes)> {
    if |b| < 2 || |b| < b[0] then Failure(MessageIncomplete)
    else if FromCode(b[1]).None? then Failure(Thrown)
    else
      var kind := FromCode(b[1]).value;
      var slots := ReadSlots(b, 2, HeaderOrder(kind));
      if slots.Failure? then Failure(slots.error) else ParseBodies(b, kind, slots.value)
  }

  function View(m: Proto): Message {
    Message(m.kind, m.props)
  }
}
