/** The fixed table of message schemas: which properties a message carries, in which order it
    stores them, and how wide each property's length slot in the header is. */
module Messages {
  import opened Wrappers
  import opened Basics
  import opened ByteExtensions

  datatype MessageType =
    | Ack | Nack | HandShake | Publish | Push | Subscribe
    | Unsubscribe | Heartbeat | Close | Send | PayloadResponse

  datatype PropertyType = RoutingKey | PayloadType | Payload | SenderId | QueueName

  function Code(t: MessageType): byte {
    match t
    case Ack => 0
    case Nack => 1
    case HandShake => 2
    case Publish => 3
    case Push => 4
    case Subscribe => 5
    case Unsubscribe => 6
    case Heartbeat => 7
    case Close => 8
    case Send => 9
    case PayloadResponse => 10
  }

  /** The factory lookup by type byte: no entry for bytes outside the enumeration. */
  function FromCode(b: byte): (t: Option<MessageType>)
    ensures t.Some? <==> b <= 10
    ensures t.Some? ==> Code(t.value) == b
  {
    if b == 0 then Some(Ack)
    else if b == 1 then Some(Nack)
    else if b == 2 then Some(HandShake)
    else if b == 3 then Some(Publish)
    else if b == 4 then Some(Push)
    else if b == 5 then Some(Subscribe)
    else if b == 6 then Some(Unsubscribe)
    else if b == 7 then Some(Heartbeat)
    else if b == 8 then Some(Close)
    else if b == 9 then Some(Send)
    else if b == 10 then Some(PayloadResponse)
    else None
  }

  /** Properties in insertion order, which is the order of the bodies on the wire. */
  function Schema(t: MessageType): seq<PropertyType> {
    match t
    case Publish => [RoutingKey, PayloadType, Payload]
    case Push => [Payload]
    case Subscribe => [RoutingKey, PayloadType, QueueName]
    case Send => [SenderId, PayloadType, Payload]
    case PayloadResponse => [Payload, PayloadType]
    case _ => []
  }

  function SlotSize(p: PropertyType): (n: nat)
    ensures 1 <= n <= 4
  {
    if p == Payload then 4 else 1
  }

  function SlotOrder(p: PropertyType): nat {
    match p
    case RoutingKey => 3
    case SenderId => 3
    case PayloadType => 4
    case Payload => 5
    case QueueName => 5
  }

  function SlotsSize(ps: seq<PropertyType>): nat {
    if ps == [] then 0 else SlotSize(ps[0]) + SlotsSize(ps[1..])
  }

  function Insert(p: PropertyType, ps: seq<PropertyType>): seq<PropertyType> {
    if ps == [] || SlotOrder(p) <= SlotOrder(ps[0]) then [p] + ps
    else [ps[0]] + Insert(p, ps[1..])
  }

  /** Stable sort by the header items' `Order`. */
  function SortByOrder(ps: seq<PropertyType>): seq<PropertyType> {
    if ps == [] then [] else Insert(ps[0], SortByOrder(ps[1..]))
  }

  /** Properties in header order, which is the order of the length slots on the wire. */
  function HeaderOrder(t: MessageType): seq<PropertyType> {
    SortByOrder(Schema(t))
  }

  function HeaderLength(t: MessageType): nat {
    2 + SlotsSize(HeaderOrder(t))
  }

  predicate Sorted(ps: seq<PropertyType>) {
    forall i, j :: 0 <= i < j < |ps| ==> SlotOrder(ps[i]) <= SlotOrder(ps[j])
  }

  lemma {:induction false} InsertKeeps(p: PropertyType, ps: seq<PropertyType>)
    ensures multiset(Insert(p, ps)) == multiset{p} + multiset(ps)
  {
    if ps == [] || SlotOrder(p) <= SlotOrder(ps[0]) {
    } else {
      InsertKeeps(p, ps[1..]);
      assert ps == [ps[0]] + ps[1..];
    }
  }

  lemma SortedCons(p: PropertyType, ps: seq<PropertyType>)
    requires Sorted(ps) && forall q :: q in ps ==> SlotOrder(p) <= SlotOrder(q)
    ensures Sorted([p] + ps)
  {
  }

  lemma {:induction false} InsertSorts(p: PropertyType, ps: seq<PropertyType>)
    requires Sorted(ps)
    ensures Sorted(Insert(p, ps))
  {
    if ps == [] {
    } else if SlotOrder(p) <= SlotOrder(ps[0]) {
      SortedCons(p, ps);
    } else {
      InsertSorts(p, ps[1..]);
      var rest := Insert(p, ps[1..]);
      forall q | q in rest ensures SlotOrder(ps[0]) <= SlotOrder(q) {
        InsertKeeps(p, ps[1..]);
        assert q in multiset(rest);
        assert q == p || q in ps[1..];
      }
      SortedCons(ps[0], rest);
    }
  }

  lemma {:induction false} SortByOrderSorts(ps: seq<PropertyType>)
    ensures Sorted(SortByOrder(ps))
    ensures multiset(SortByOrder(ps)) == multiset(ps)
  {
    if ps != [] {
      SortByOrderSorts(ps[1..]);
      InsertSorts(ps[0], SortByOrder(ps[1..]));
      InsertKeeps(ps[0], SortByOrder(ps[1..]));
      assert ps == [ps[0]] + ps[1..];
    }
  }

  lemma {:induction false} SlotsSizeOfInsert(p: PropertyType, ps: seq<PropertyType>)
    ensures SlotsSize(Insert(p, ps)) == SlotSize(p) + SlotsSize(ps)
  {
    if ps == [] || SlotOrder(p) <= SlotOrder(ps[0]) {
      assert ([p] + ps)[1..] == ps;
    } else {
      SlotsSizeOfInsert(p, ps[1..]);
      assert Insert(p, ps)[1..] == Insert(p, ps[1..]);
    }
  }

  lemma SchemaDistinct(t: MessageType)
    ensures Distinct(Schema(t)) && |Schema(t)| <= 3
  {
  }

  lemma SchemaSlots(t: MessageType)
    ensures SlotsSize(Schema(t)) <= 6
  {
    var s := Schema(t);
    if |s| > 0 {
      if |s| > 1 {
        assert s[1..][1..] == s[2..];
        if |s| > 2 {
          assert s[2..][1..] == [];
          assert SlotsSize(s[2..]) == SlotSize(s[2]);
        } else {
          assert s[2..] == [];
        }
        assert SlotsSize(s[1..]) == SlotSize(s[1]) + SlotsSize(s[2..]);
      } else {
        assert s[1..] == [];
      }
    }
  }

  lemma {:induction false} SlotsSizeOfSort(ps: seq<PropertyType>)
    ensures SlotsSize(SortByOrder(ps)) == SlotsSize(ps)
  {
    if ps != [] {
      SlotsSizeOfSort(ps[1..]);
      SlotsSizeOfInsert(ps[0], SortByOrder(ps[1..]));
    }
  }

  lemma DistinctCount(ps: seq<PropertyType>, p: PropertyType)
    requires Distinct(ps)
    ensures multiset(ps)[p] <= 1
  {
    if p in ps {
      var k :| 0 <= k < |ps| && ps[k] == p;
      assert ps == ps[..k] + [ps[k]] + ps[k + 1..];
      assert p !in ps[..k] && p !in ps[k + 1..];
    }
  }

  lemma RepeatCount(ps: seq<PropertyType>, i: nat, j: nat)
    requires i < j < |ps| && ps[i] == ps[j]
    ensures multiset(ps)[ps[i]] >= 2
  {
    assert ps == ps[..i] + [ps[i]] + ps[i + 1..j] + [ps[j]] + ps[j + 1..];
  }

  /** The header holds one slot per property, each once, sorted by order, and its length fits
      the length byte. */
  lemma HeaderOrderIsSchema(t: MessageType)
    ensures Sorted(HeaderOrder(t)) && Distinct(HeaderOrder(t))
    ensures forall p :: p in HeaderOrder(t) <==> p in Schema(t)
    ensures HeaderLength(t) == 2 + SlotsSize(Schema(t)) <= 8
  {
    var s, h := Schema(t), HeaderOrder(t);
    SortByOrderSorts(s);
    SlotsSizeOfSort(s);
    SchemaSlots(t);
    SchemaDistinct(t);
    forall p ensures p in h <==> p in s {
      assert p in h <==> p in multiset(h);
    }
    forall i, j | 0 <= i < j < |h| ensures h[i] != h[j] {
      if h[i] == h[j] {
        RepeatCount(h, i, j);
        DistinctCount(s, h[i]);
      }
    }
  }
}
