/** The protocol objects themselves: dictionaries filled in place, byte buffers written item by
    item, encodings cached on first use. Each method is proved against the functions of `Codec`. */
module ProtocolObjects {
  import opened Wrappers
  import opened Basics
  import opened ByteExtensions
  import opened Messages
  import opened Codec

  method CopyTo(source: Bytes, target: array<byte>, at: nat) returns (ok: bool)
    modifies target
    ensures ok <==> at + |source| <= target.Length
    ensures ok ==> target[..] == Splice(old(target[..]), at, source)
    ensures !ok ==> target[..] == old(target[..])
  {
    if at + |source| > target.Length {
      return false;
    }
    forall k | 0 <= k < |source| {
      target[at + k] := source[k];
    }
    return true;
  }

  /** Writes the item values one after the other, each at the start of its slot. */
  method WriteHeaderItems(ordered: seq<Item>, header: array<byte>) returns (ok: bool)
    modifies header
    ensures ok <==> WriteItems(old(header[..]), 0, ordered).Success?
    ensures ok ==> header[..] == WriteItems(old(header[..]), 0, ordered).value
    ensures !ok ==> WriteItems(old(header[..]), 0, ordered).error == Thrown
  {
    var currentIndex: nat := 0;
    var i := 0;
    assert ordered[0..] == ordered;
    while i < |ordered|
      invariant 0 <= i <= |ordered|
      invariant WriteItems(old(header[..]), 0, ordered) == WriteItems(header[..], currentIndex, ordered[i..])
    {
      assert ordered[i..][1..] == ordered[i + 1..];
      if ordered[i].value.None? {
        return false;
      }
      var copied := CopyTo(ordered[i].value.value, header, currentIndex);
      if !copied {
        return false;
      }
      currentIndex := currentIndex + ordered[i].size;
      i := i + 1;
    }
    return true;
  }

  /** Cuts the length slots out of a message, in the given order. */
  method CutSlots(message: Bytes, ordered: seq<PropertyType>) returns (r: Result<map<PropertyType, Bytes>>)
    requires Distinct(ordered)
    ensures r == ReadSlots(message, 2, ordered)
  {
    var slots: map<PropertyType, Bytes> := map[];
    var currentIndex: nat := 2;
    var i := 0;
    assert ordered[0..] == ordered;
    ReadSlotsKeys(message, 2, ordered);
    while i < |ordered|
      invariant 0 <= i <= |ordered|
      invariant var whole := ReadSlots(message, 2, ordered);
                var rest := ReadSlots(message, currentIndex, ordered[i..]);
                && (whole.Success? <==> rest.Success?)
                && (whole.Success? ==> whole.value == slots + rest.value)
    {
      var p := ordered[i];
      ReadSlotsStep(message, currentIndex, ordered[i..], slots);
      if currentIndex + SlotSize(p) > |message| {
        return Failure(Thrown);
      }
      assert ordered[i..][1..] == ordered[i + 1..];
      slots := slots[p := message[currentIndex..currentIndex + SlotSize(p)]];
      currentIndex := currentIndex + SlotSize(p);
      i := i + 1;
    }
    assert slots + map[] == slots;
    r := Success(slots);
  }

  class ProtoHeader {
    const kind: MessageType
    // the length slots; None until the value has been set
    var items: map<PropertyType, Option<Bytes>>
    var cache: Option<Bytes>

    ghost predicate Valid()
      reads this
    {
      items.Keys == (set p | p in Schema(kind))
    }

    function Slots(): map<PropertyType, Bytes>
      reads this
    {
      map p | p in items && items[p].Some? :: items[p].value
    }

    constructor (kind: MessageType)
      ensures this.kind == kind && items == map[] && cache == None
    {
      this.kind := kind;
      items := map[];
      cache := None;
    }

    method SetHeaders(properties: seq<PropertyType>)
      requires properties == Schema(kind)
      requires items == map[]
      modifies this`items
      ensures Valid() && Slots() == map[]
    {
      var i := 0;
      while i < |properties|
        invariant 0 <= i <= |properties|
        invariant items.Keys == (set p | p in properties[..i])
        invariant forall p :: p in items ==> items[p].None?
      {
        items := items[properties[i] := None];
        i := i + 1;
      }
      assert properties[..i] == properties;
    }

    method TrySetValue(p: PropertyType, value: Bytes) returns (r: Result<()>)
      requires Valid() && |value| < ARRAY_LIMIT
      modifies this`items
      ensures Valid()
      ensures r.Success? <==> p in items && value != []
      ensures r.Success? ==> r == Success(())
      ensures r.Success? ==> Slots() == old(Slots())[p := Digits(|value|)]
      ensures r.Failure? ==> items == old(items)
      ensures r.Failure? ==> r.error == if p in items then Thrown else Rejected
    {
      if p !in items {
        return Failure(Rejected);
      }
      var bytes := ToBytes(|value|);
      if bytes.Failure? {
        return Failure(bytes.error);
      }
      items := items[p := Some(bytes.value)];
      r := Success(());
    }

    method GetHeaderBytes() returns (r: Result<Bytes>)
      requires Valid()
      ensures r == HeaderBytes(Proto(kind, Slots(), map[]))
    {
      HeaderOrderIsSchema(kind);
      var total := HeaderLength(kind);
      var ordered := HeaderItems(Proto(kind, Slots(), map[]));
      var header := new byte[total](_ => 0);
      assert header[..] == Zeros(total);
      var ok := WriteHeaderItems(ordered, header);
      r := if ok then Success(header[..]) else Failure(Thrown);
    }

    method GetBytes() returns (r: Result<Bytes>)
      requires Valid()
      modifies this`cache
      ensures old(cache).Some? ==> r == Success(old(cache).value) && cache == old(cache)
      ensures old(cache).None? ==> r == HeaderBytes(Proto(kind, Slots(), map[]))
      ensures old(cache).None? ==> cache == if r.Success? then Some(r.value) else None
    {
      if cache.Some? {
        return Success(cache.value);
      }
      r := GetHeaderBytes();
      if r.Success? {
        cache := Some(r.value);
      }
    }

    /** Cuts the length slots out of a message, in header order. */
    method InitializeFromBytes(message: Bytes) returns (r: Result<()>)
      requires Valid() && Slots() == map[]
      modifies this`items
      ensures Valid()
      ensures var slots := ReadSlots(message, 2, HeaderOrder(kind));
              if slots.Success? then r == Success(()) && Slots() == slots.value else r == Failure(slots.error)
    {
      HeaderOrderIsSchema(kind);
      var slots := CutSlots(message, HeaderOrder(kind));
      if slots.Failure? {
        return Failure(slots.error);
      }
      ReadSlotsKeys(message, 2, HeaderOrder(kind));
      items := map p | p in slots.value :: Some(slots.value[p]);
      assert Slots() == slots.value;
      r := Success(());
    }

    method GetPropertyHeaderInfos(properties: seq<PropertyType>, total: int32, messageLength: int)
      returns (r: Result<seq<Portion>>)
      requires Valid()
      ensures r == Portions(properties, Slots(), total, 0, messageLength)
    {
      hide FromBytesToInt, Wrap32, Portions;
      var portions: seq<Portion> := [];
      var slots := Slots();
      var currentIndex: int32 := 0;
      var i := 0;
      ghost var whole := Portions(properties, slots, total, 0, messageLength);
      assert properties[0..] == properties;
      NothingBefore(whole);
      while i < |properties|
        invariant 0 <= i <= |properties|
        invariant whole == Prepended(portions, Portions(properties[i..], slots, total, currentIndex, messageLength))
      {
        var p := properties[i];
        PortionsStep(properties, i, slots, total, currentIndex, messageLength, portions);
        if p !in slots {
          return Failure(Rejected);
        }
        var value := FromBytesToInt(slots[p]);
        if value.Failure? {
          return Failure(value.error);
        }
        if Wrap32(Wrap32(total + currentIndex) + value.value) > messageLength {
          return Failure(MessageIncomplete);
        }
        portions := portions + [Portion(Wrap32(total + currentIndex), value.value, p)];
        currentIndex := Wrap32(currentIndex + value.value);
        i := i + 1;
      }
      PortionsDone(properties[i..], slots, total, currentIndex, messageLength, portions);
      r := Success(portions);
    }
  }

  function Prepended(done: seq<Portion>, rest: Result<seq<Portion>>): Result<seq<Portion>> {
    if rest.Failure? then rest else Success(done + rest.value)
  }

  lemma NothingBefore(rest: Result<seq<Portion>>)
    ensures Prepended([], rest) == rest
  {
    if rest.Success? { assert [] + rest.value == rest.value; }
  }

  lemma {:induction false} PortionsDone(ps: seq<PropertyType>, slots: map<PropertyType, Bytes>, total: int32,
      current: int32, length: int, done: seq<Portion>)
    requires ps == []
    ensures Prepended(done, Portions(ps, slots, total, current, length)) == Success(done)
  {
    assert done + [] == done;
  }

  /** Recording the first portion now or with the rest makes no difference. */
  lemma {:induction false} PortionsStep(ps: seq<PropertyType>, i: nat, slots: map<PropertyType, Bytes>, total: int32,
      current: int32, length: int, done: seq<Portion>)
    requires i < |ps|
    ensures Prepended(done, Portions(ps[i..], slots, total, current, length))
         == if ps[i] !in slots then Failure(Rejected)
            else
              var value := FromBytesToInt(slots[ps[i]]);
              if value.Failure? then Failure(value.error)
              else if Wrap32(Wrap32(total + current) + value.value) > length then Failure(MessageIncomplete)
              else Prepended(done + [Portion(Wrap32(total + current), value.value, ps[i])],
                     Portions(ps[i + 1..], slots, total, Wrap32(current + value.value), length))
  {
    hide FromBytesToInt, Wrap32;
    assert ps[i..][1..] == ps[i + 1..];
    if ps[i] in slots && FromBytesToInt(slots[ps[i]]).Success? {
      var value := FromBytesToInt(slots[ps[i]]).value;
      var rest := Portions(ps[i + 1..], slots, total, Wrap32(current + value), length);
      var first := Portion(Wrap32(total + current), value, ps[i]);
      if rest.Success? { assert done + ([first] + rest.value) == done + [first] + rest.value; }
    }
  }

  lemma {:induction false} ReadSlotsKeys(b: Bytes, at: nat, ps: seq<PropertyType>)
    ensures var r := ReadSlots(b, at, ps);
            if r.Success? then forall p :: p in r.value <==> p in ps else r.error == Thrown
    decreases |ps|
  {
    if ps != [] && at + SlotSize(ps[0]) <= |b| {
      ReadSlotsKeys(b, at + SlotSize(ps[0]), ps[1..]);
    }
  }

  /** Storing the first slot now or with the rest makes no difference. */
  lemma ReadSlotsStep(b: Bytes, at: nat, ps: seq<PropertyType>, stored: map<PropertyType, Bytes>)
    requires Distinct(ps)
    ensures ps == [] ==> ReadSlots(b, at, ps) == Success(map[])
    ensures ps != [] && at + SlotSize(ps[0]) > |b| ==> ReadSlots(b, at, ps) == Failure(Thrown)
    ensures ps != [] && at + SlotSize(ps[0]) <= |b| ==>
              var whole, rest := ReadSlots(b, at, ps), ReadSlots(b, at + SlotSize(ps[0]), ps[1..]);
              && (whole.Success? <==> rest.Success?)
              && (whole.Success? ==>
                    stored + whole.value == stored[ps[0] := b[at..at + SlotSize(ps[0])]] + rest.value)
  {
    if ps != [] && at + SlotSize(ps[0]) <= |b| {
      ReadSlotsKeys(b, at + SlotSize(ps[0]), ps[1..]);
    }
  }

  lemma {:induction false} ConcatStep(ps: seq<PropertyType>, i: nat, values: map<PropertyType, Bytes>)
    requires i < |ps| && forall p :: p in ps ==> p in values
    ensures Concat(ps[i..], values) == values[ps[i]] + Concat(ps[i + 1..], values)
  {
    assert ps[i..][1..] == ps[i + 1..];
  }

  lemma {:induction false} ConcatDone(ps: seq<PropertyType>, values: map<PropertyType, Bytes>)
    requires ps == []
    ensures Concat(ps, values) == []
  {
  }

  lemma SpliceExtends(buffer: Bytes, at: nat, value: Bytes)
    requires at + |value| <= |buffer|
    ensures Splice(buffer, at, value)[..at + |value|] == buffer[..at] + value
  {
  }

  class Protocol {
    const header: ProtoHeader
    var props: map<PropertyType, Bytes>
    var cache: Option<Bytes>

    ghost predicate Valid()
      reads this, header
    {
      header.Valid() && props.Keys == header.items.Keys
    }

    /** The value this object stands for. */
    function State(): Proto
      reads this, header
    {
      Proto(header.kind, header.Slots(), props)
    }

    constructor (kind: MessageType)
      ensures Valid() && fresh(header)
      ensures State() == New(kind) && cache == None && header.cache == None
    {
      header := new ProtoHeader(kind);
      props := map p | p in Schema(kind) :: [];
      cache := None;
      new;
      header.SetHeaders(Schema(kind));
    }

    /** The bytes are stored before the header value is computed, so an empty value leaves the
        object half set. */
    method TrySetProperty(p: PropertyType, value: Bytes) returns (r: Result<()>)
      requires Valid() && |value| < ARRAY_LIMIT
      modifies this`props, header`items
      ensures Valid()
      ensures (State(), r) == SetProperty(old(State()), p, value)
    {
      if p !in props {
        return Failure(Rejected);
      }
      props := props[p := value];
      r := header.TrySetValue(p, value);
      assert value == [] ==> header.Slots() == old(header.Slots());
      assert value != [] ==> header.Slots() == old(header.Slots())[p := Digits(|value|)];
      assert State() == SetProperty(old(State()), p, value).0;
      assert r == SetProperty(old(State()), p, value).1;
    }

    method TryGetProperty(p: PropertyType) returns (r: Result<Bytes>)
      requires Valid()
      ensures r == GetProperty(State(), p)
    {
      r := if p in props then Success(props[p]) else Failure(Rejected);
    }

    /** The total payload length, refusing empty properties on the way. */
    method GetPayloadLength(properties: seq<PropertyType>) returns (r: Result<nat>)
      requires Valid() && properties == Schema(header.kind)
      ensures r.Success? <==> forall p :: p in properties ==> props[p] != []
      ensures r.Success? ==> r.value == |Concat(properties, props)|
      ensures r.Failure? ==> r.error == Rejected
    {
      var i := 0;
      var payloadLength: nat := 0;
      assert properties[0..] == properties;
      while i < |properties|
        invariant 0 <= i <= |properties|
        invariant forall j :: 0 <= j < i ==> props[properties[j]] != []
        invariant |Concat(properties, props)| == payloadLength + |Concat(properties[i..], props)|
      {
        assert properties[i..][1..] == properties[i + 1..];
        if props[properties[i]] == [] {
          return Failure(Rejected);
        }
        payloadLength := payloadLength + |props[properties[i]]|;
        i := i + 1;
      }
      r := Success(payloadLength);
    }

    method CopyProperties(properties: seq<PropertyType>, payload: array<byte>)
      requires Valid() && properties == Schema(header.kind)
      requires payload.Length == |Concat(properties, props)|
      modifies payload
      ensures payload[..] == Concat(properties, props)
    {
      hide Concat, Splice, Schema;
      ghost var whole := Concat(properties, props);
      var index := 0;
      var i := 0;
      assert properties[0..] == properties;
      while i < |properties|
        invariant 0 <= i <= |properties|
        invariant 0 <= index <= payload.Length
        invariant whole == payload[..index] + Concat(properties[i..], props)
      {
        var property := props[properties[i]];
        ConcatStep(properties, i, props);
        ghost var before := payload[..];
        var ok := CopyTo(property, payload, index);
        SpliceExtends(before, index, property);
        ghost var rest := Concat(properties[i + 1..], props);
        assert before[..index] + (property + rest) == (before[..index] + property) + rest;
        index := index + |property|;
        i := i + 1;
      }
      ConcatDone(properties[i..], props);
      assert payload[..index] == payload[..];
    }

    method GetBodyBytes(properties: seq<PropertyType>) returns (r: Result<Bytes>)
      requires Valid() && properties == Schema(header.kind)
      ensures r == BodyBytes(State())
    {
      var payloadLength := GetPayloadLength(properties);
      if payloadLength.Failure? {
        return Failure(payloadLength.error);
      }
      if payloadLength.value >= ARRAY_LIMIT {
        return Failure(Thrown);
      }
      var payload := new byte[payloadLength.value](_ => 0);
      CopyProperties(properties, payload);
      r := Success(payload[..]);
    }

    /** Encodes on the first call and returns the remembered bytes on every later one. */
    method GetBytes() returns (r: Result<Bytes>)
      requires Valid()
      requires cache.None? ==> header.cache.None?
      modifies this`cache, header`cache
      ensures Valid() && State() == old(State())
      ensures old(cache).Some? ==> r == Success(old(cache).value) && cache == old(cache)
      ensures old(cache).None? ==> r == Encode(State())
      ensures r.Success? ==> cache == Some(r.value)
    {
      if cache.Some? {
        return Success(cache.value);
      }
      var headerBytes := header.GetBytes();
      assert headerBytes == HeaderBytes(State());
      if headerBytes.Failure? {
        return headerBytes;
      }
      var payloadBytes := GetBodyBytes(Schema(header.kind));
      if payloadBytes.Failure? {
        return payloadBytes;
      }
      if |headerBytes.value| + |payloadBytes.value| >= ARRAY_LIMIT {
        return Failure(Thrown);
      }
      r := Success(headerBytes.value + payloadBytes.value);
      cache := Some(r.value);
    }

    /** Cuts every portion out of the message and stores it under its property. */
    method StorePortions(message: Bytes, portions: seq<Portion>) returns (r: Result<()>)
      requires Valid()
      requires forall i :: 0 <= i < |portions| ==> portions[i].prop in props
      requires forall i, j :: 0 <= i < j < |portions| ==> portions[i].prop != portions[j].prop
      modifies this`props
      ensures Valid()
      ensures r.Success? <==> Slices(message, portions).Success?
      ensures r.Success? ==> props == old(props) + Slices(message, portions).value
      ensures r.Failure? ==> r.error == Slices(message, portions).error
    {
      hide Slice;
      var i := 0;
      assert portions[0..] == portions;
      SlicesKeys(message, portions);
      while i < |portions|
        invariant 0 <= i <= |portions|
        invariant props.Keys == old(props).Keys
        invariant Slices(message, portions).Success? <==> Slices(message, portions[i..]).Success?
        invariant Slices(message, portions).Success? ==>
                    old(props) + Slices(message, portions).value == props + Slices(message, portions[i..]).value
      {
        assert portions[i..][1..] == portions[i + 1..];
        SlicesStep(message, portions[i..], props);
        var bytes := Slice(message, portions[i]);
        if bytes.Failure? {
          return Failure(Thrown);
        }
        props := props[portions[i].prop := bytes.value];
        i := i + 1;
      }
      r := Success(());
    }

    /** Fills the property bytes from their portions; returns where the last body ends. */
    method InitializeFrom(message: Bytes) returns (r: Result<int32>)
      requires Valid() && 1 <= |message|
      modifies this`props
      ensures Valid()
      ensures var portions := Portions(Schema(header.kind), header.Slots(), message[0], 0, |message|);
              if portions.Failure? then r == Failure(portions.error)
              else
                var bodies := Slices(message, portions.value);
                if bodies.Failure? then r == Failure(bodies.error)
                else r == Success(BodyEnd(portions.value)) && props == old(props) + bodies.value
    {
      var infos := header.GetPropertyHeaderInfos(Schema(header.kind), message[0], |message|);
      if infos.Failure? {
        return Failure(infos.error);
      }
      PortionProps(Schema(header.kind), header.Slots(), message[0], 0, |message|);
      SchemaDistinct(header.kind);
      var stored := StorePortions(message, infos.value);
      if stored.Failure? {
        return Failure(stored.error);
      }
      r := Success(BodyEnd(infos.value));
    }
  }

  lemma {:induction false} SlicesKeys(b: Bytes, portions: seq<Portion>)
    ensures var r := Slices(b, portions);
            if r.Success? then forall p :: p in r.value <==> exists i :: 0 <= i < |portions| && portions[i].prop == p
            else r.error == Thrown
  {
    if portions != [] { SlicesKeys(b, portions[1..]); }
  }

  /** Storing the first slice now or with the rest makes no difference. */
  lemma {:induction false} SlicesStep(b: Bytes, portions: seq<Portion>, stored: map<PropertyType, Bytes>)
    requires portions != []
    requires forall i :: 1 <= i < |portions| ==> portions[i].prop != portions[0].prop
    ensures Slice(b, portions[0]).Failure? ==> Slices(b, portions).Failure?
    ensures Slice(b, portions[0]).Success? ==>
              && (Slices(b, portions).Success? <==> Slices(b, portions[1..]).Success?)
              && (Slices(b, portions).Success? ==>
                    stored + Slices(b, portions).value
                    == stored[portions[0].prop := Slice(b, portions[0]).value] + Slices(b, portions[1..]).value)
  {
    hide Slice;
    SlicesKeys(b, portions[1..]);
  }

  lemma {:induction false} PortionProps(ps: seq<PropertyType>, slots: map<PropertyType, Bytes>, total: int32,
      current: int32, length: int)
    requires Portions(ps, slots, total, current, length).Success?
    ensures var r := Portions(ps, slots, total, current, length).value;
            |r| == |ps| && forall i :: 0 <= i < |r| ==> r[i].prop == ps[i]
    decreases |ps|
  {
    if ps != [] {
      var value := FromBytesToInt(slots[ps[0]]).value;
      PortionProps(ps[1..], slots, total, Wrap32(current + value), length);
    }
  }

  /** The message in front of `message` as a fresh object, and the bytes after it. */
  method TryParseMessage(message: Bytes) returns (r: Result<Protocol>, reminder: Bytes)
    ensures TryParse(message).Failure? ==> r == Failure(TryParse(message).error)
    ensures TryParse(message).Success? ==>
              && r.Success? && r.value.Valid() && fresh(r.value) && fresh(r.value.header)
              && r.value.cache == None && r.value.header.cache == None
              && r.value.State() == TryParse(message).value.0
              && reminder == TryParse(message).value.1
  {
    reminder := [];
    if |message| < 2 {
      return Failure(MessageIncomplete), [];
    }
    var messageSize := message[0];
    if |message| < messageSize {
      return Failure(MessageIncomplete), [];
    }
    var kind := FromCode(message[1]);
    if kind.None? {
      return Failure(Thrown), [];
    }
    var protocol := new Protocol(kind.value);
    var headers := protocol.header.InitializeFromBytes(message);
    if headers.Failure? {
      return Failure(headers.error), [];
    }
    var length := protocol.InitializeFrom(message);
    if length.Failure? {
      return Failure(length.error), [];
    }
    var size := if length.value == 0 then messageSize else length.value;
    if size < 0 || size > |message| {
      return Failure(Thrown), [];
    }
    r := Success(protocol);
    reminder := message[size..];
  }
}
