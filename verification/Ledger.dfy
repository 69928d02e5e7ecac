/** The MessageBroker contract: topics with prepaid subscribers, as functions on the ledger and as
    an object with the contract's loops. Amounts are in wei. */
module Ledger {
  import opened Wrappers

  type Address = nat

  const UINT256: nat := 0x1_0000_0000_0000_0000_0000_0000_0000_0000_0000_0000_0000_0000_0000_0000_0000_0000
  /** 0.5 ether. */
  const DEPOSIT: nat := 500_000_000_000_000_000
  /** 0.005 ether. */
  const PRICE: nat := 5_000_000_000_000_000

  datatype Topic = Topic(
    name: string,
    messages: seq<string>,
    publishers: seq<Address>,
    subscribers: seq<Address>,
    subscriberToMessages: map<Address, seq<string>>,
    subscriberToBalance: map<Address, nat>)

  /** The contract's storage and the ether it holds. */
  datatype State = State(topics: map<string, Topic>, subscriberToIp: map<Address, string>, ether: nat)

  datatype Call =
    | Advertise(sender: Address, topicName: string)
    | Subscribe(sender: Address, topicName: string, ipAddress: string, value: nat)
    | Publish(sender: Address, topicName: string, message: string)
    | Unsubscribe(sender: Address, topicName: string)

  // ----- mappings default to zero values -----

  function Lookup(topics: map<string, Topic>, name: string): Topic {
    if name in topics then topics[name] else Topic("", [], [], [], map[], map[])
  }

  function Balance(t: Topic, a: Address): nat {
    if a in t.subscriberToBalance then t.subscriberToBalance[a] else 0
  }

  function Inbox(t: Topic, a: Address): seq<string> {
    if a in t.subscriberToMessages then t.subscriberToMessages[a] else []
  }

  // ----- the calls as functions; None is a revert -----

  function Advertised(t: Topic, sender: Address, name: string): Topic {
    (if t.name == "" then t.(name := name) else t).(publishers := t.publishers + [sender])
  }

  function Credited(t: Topic, sender: Address, value: nat): Topic {
    t.(subscribers := t.subscribers + [sender],
       subscriberToBalance := t.subscriberToBalance[sender := (Balance(t, sender) + value) % UINT256])
  }

  /** One subscriber's turn: charged and served if the balance suffices, skipped otherwise. */
  function Serve(t: Topic, a: Address, message: string): Topic {
    if Balance(t, a) < PRICE then t
    else t.(subscriberToBalance := t.subscriberToBalance[a := Balance(t, a) - PRICE],
            subscriberToMessages := t.subscriberToMessages[a := Inbox(t, a) + [message]])
  }

  /** After the first `k` entries of the subscriber array had their turn. */
  function ServeFirst(t: Topic, message: string, k: nat): (r: Topic)
    requires k <= |t.subscribers|
    ensures r.subscribers == t.subscribers && r.publishers == t.publishers && r.messages == t.messages
    ensures r.name == t.name
  {
    if k == 0 then t else Serve(ServeFirst(t, message, k - 1), t.subscribers[k - 1], message)
  }

  function Published(t: Topic, message: string): Topic {
    ServeFirst(t.(messages := t.messages + [message]), message, |t.subscribers|)
  }

  function FirstIndex(entries: seq<Address>, element: Address): (i: nat)
    requires element in entries
    ensures i < |entries| && entries[i] == element && element !in entries[..i]
  {
    if entries[0] == element then 0
    else
      assert entries[1..][..FirstIndex(entries[1..], element)] == entries[1..FirstIndex(entries[1..], element) + 1];
      assert entries[..FirstIndex(entries[1..], element) + 1]
          == [entries[0]] + entries[1..FirstIndex(entries[1..], element) + 1];
      FirstIndex(entries[1..], element) + 1
  }

  /** The last entry takes the place of the first match, and the array shrinks by one. */
  function Deleted(entries: seq<Address>, element: Address): seq<Address> {
    if element !in entries then entries
    else entries[FirstIndex(entries, element) := entries[|entries| - 1]][..|entries| - 1]
  }

  function Exec(s: State, c: Call): Option<State> {
    var t := Lookup(s.topics, c.topicName);
    match c
    case Advertise(sender, name) =>
      Some(s.(topics := s.topics[name := Advertised(t, sender, name)]))
    case Subscribe(sender, name, ip, value) =>
      // The network's own account of the contract's ether is a uint256, so no larger transfer exists.
      if value != DEPOSIT || s.ether + value >= UINT256 then None
      else Some(State(s.topics[name := Credited(t, sender, value)], s.subscriberToIp[sender := ip], s.ether + value))
    case Publish(sender, name, message) =>
      if sender !in t.publishers then None
      else Some(s.(topics := s.topics[name := Published(t, message)]))
    case Unsubscribe(sender, name) =>
      if sender !in t.subscribers then None
      else Some(s.(topics := s.topics[name := t.(subscribers := Deleted(t.subscribers, sender))]))
  }

  // ----- the contract -----

  class MessageBroker {
    var topics: map<string, Topic>
    var subscriberToIp: map<Address, string>
    var ether: nat

    ghost function Storage(): State
      reads this
    {
      State(topics, subscriberToIp, ether)
    }

    constructor ()
      ensures Storage() == State(map[], map[], 0)
    {
      topics, subscriberToIp, ether := map[], map[], 0;
    }

    method Advertise(sender: Address, topicName: string)
      modifies this
      ensures Exec(old(Storage()), Call.Advertise(sender, topicName)) == Some(Storage())
    {
      var topic := Lookup(topics, topicName);
      if |topic.name| == 0 {
        topic := topic.(name := topicName);
      }
      topic := topic.(publishers := topic.publishers + [sender]);
      topics := topics[topicName := topic];
    }

    /** The ether arrives with the call; it stays only if the call is accepted. */
    method Subscribe(sender: Address, topicName: string, ipAddress: string, value: nat) returns (ok: bool)
      requires ether + value < UINT256
      modifies this
      ensures Exec(old(Storage()), Call.Subscribe(sender, topicName, ipAddress, value))
           == if ok then Some(Storage()) else None
      ensures !ok ==> Storage() == old(Storage())
    {
      var topic := Lookup(topics, topicName);
      if value != DEPOSIT { return false; }
      topic := topic.(subscribers := topic.subscribers + [sender]);
      var balance := (Balance(topic, sender) + value) % UINT256;
      topic := topic.(subscriberToBalance := topic.subscriberToBalance[sender := balance]);
      topics := topics[topicName := topic];
      subscriberToIp := subscriberToIp[sender := ipAddress];
      ether := ether + value;
      ok := true;
    }

    method Publish(sender: Address, topicName: string, message: string) returns (ok: bool)
      modifies this
      ensures Exec(old(Storage()), Call.Publish(sender, topicName, message))
           == if ok then Some(Storage()) else None
      ensures !ok ==> Storage() == old(Storage())
    {
      var topic := Lookup(topics, topicName);
      ok := IsPublisherInTopic(sender, topic);
      if !ok { return; }
      topic := topic.(messages := topic.messages + [message]);
      ghost var start := topic;
      var i := 0;
      while i < |topic.subscribers|
        invariant 0 <= i <= |start.subscribers|
        invariant topic == ServeFirst(start, message, i)
        decreases |start.subscribers| - i
      {
        var subscriber := topic.subscribers[i];
        if Balance(topic, subscriber) >= PRICE {
          topic := topic.(subscriberToBalance :=
            topic.subscriberToBalance[subscriber := Balance(topic, subscriber) - PRICE]);
          topic := topic.(subscriberToMessages :=
            topic.subscriberToMessages[subscriber := Inbox(topic, subscriber) + [message]]);
        }
        i := i + 1;
      }
      topics := topics[topicName := topic];
    }

    method Unsubscribe(sender: Address, topicName: string) returns (ok: bool, remainingBalance: nat)
      modifies this
      ensures Exec(old(Storage()), Call.Unsubscribe(sender, topicName)) == if ok then Some(Storage()) else None
      ensures ok ==> remainingBalance == Balance(Lookup(topics, topicName), sender)
      ensures !ok ==> Storage() == old(Storage())
    {
      var topic := Lookup(topics, topicName);
      ok := IsSubscriberInTopic(sender, topic);
      if !ok { return false, 0; }
      remainingBalance := Balance(topic, sender);
      var left := DeleteFromArray(topic.subscribers, sender);
      topics := topics[topicName := topic.(subscribers := left)];
    }

    method IsPublisherInTopic(publisher: Address, topic: Topic) returns (found: bool)
      ensures found <==> publisher in topic.publishers
    {
      for i := 0 to |topic.publishers|
        invariant publisher !in topic.publishers[..i]
      {
        if topic.publishers[i] == publisher { return true; }
      }
      return false;
    }

    method IsSubscriberInTopic(subscriber: Address, topic: Topic) returns (found: bool)
      ensures found <==> subscriber in topic.subscribers
    {
      for i := 0 to |topic.subscribers|
        invariant subscriber !in topic.subscribers[..i]
      {
        if topic.subscribers[i] == subscriber { return true; }
      }
      return false;
    }

    method DeleteFromArray(entries: seq<Address>, element: Address) returns (left: seq<Address>)
      ensures left == Deleted(entries, element)
    {
      left := entries;
      var i := 0;
      while i < |left|
        invariant 0 <= i <= |left| && left == entries
        invariant element !in entries[..i]
      {
        if left[i] == element {
          assert i == FirstIndex(entries, element);
          if i != |left| - 1 {
            left := left[i := left[|left| - 1]];
          }
          left := left[..|left| - 1];
          break;
        }
        i := i + 1;
      }
    }
  }
}
