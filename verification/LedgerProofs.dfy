/** Exact charging, exact deletion, and conservation over every sequence of calls. */
module LedgerProofs {
  import opened Wrappers
  import opened Basics
  import opened Ledger

  // ----- publishing -----

  function Min(a: nat, b: nat): nat {
    if a < b then a else b
  }

  function Copies(message: string, n: nat): (r: seq<string>)
    ensures |r| == n && forall i :: 0 <= i < n ==> r[i] == message
  {
    if n == 0 then [] else Copies(message, n - 1) + [message]
  }

  lemma CopiesGrow(message: string, n: nat)
    ensures Copies(message, n + 1) == Copies(message, n) + [message]
  {
  }

  /** How many copies of a message an address gets: once per entry, as long as it can pay. */
  function Served(t: Topic, k: nat, a: Address): nat
    requires k <= |t.subscribers|
  {
    Min(multiset(t.subscribers[..k])[a], Balance(t, a) / PRICE)
  }

  lemma ServeOne(t: Topic, a: Address, b: Address, message: string)
    ensures Balance(Serve(t, b, message), a)
         == if a == b && Balance(t, a) >= PRICE then Balance(t, a) - PRICE else Balance(t, a)
    ensures Inbox(Serve(t, b, message), a)
         == if a == b && Balance(t, a) >= PRICE then Inbox(t, a) + [message] else Inbox(t, a)
  {
  }

  /** One more entry is worth one more copy exactly while the rest of the balance covers it. */
  lemma OneMoreEntry(n: nat, balance: nat)
    ensures PRICE * Min(n, balance / PRICE) <= balance
    ensures Min(n + 1, balance / PRICE)
         == Min(n, balance / PRICE) + (if balance - PRICE * Min(n, balance / PRICE) >= PRICE then 1 else 0)
  {
  }

  lemma EntriesGrow(entries: seq<Address>, k: nat, a: Address)
    requires 0 < k <= |entries|
    ensures multiset(entries[..k])[a] == multiset(entries[..k - 1])[a] + One(entries[k - 1] == a)
  {
    assert entries[..k] == entries[..k - 1] + [entries[k - 1]];
  }

  lemma ServedGrows(t: Topic, k: nat, a: Address)
    requires 0 < k <= |t.subscribers|
    ensures Served(t, k, a) == Served(t, k - 1, a)
              + One(t.subscribers[k - 1] == a && Balance(t, a) - PRICE * Served(t, k - 1, a) >= PRICE)
    ensures PRICE * Served(t, k - 1, a) <= Balance(t, a)
  {
    hide Balance, Min;
    EntriesGrow(t.subscribers, k, a);
    OneMoreEntry(multiset(t.subscribers[..k - 1])[a], Balance(t, a));
  }

  lemma ServedNone(t: Topic, a: Address)
    ensures Served(t, 0, a) == 0
  {
  }

  lemma {:induction false} ServedFirst(t: Topic, message: string, k: nat, a: Address)
    requires k <= |t.subscribers|
    ensures Balance(ServeFirst(t, message, k), a) == Balance(t, a) - PRICE * Served(t, k, a)
    ensures Inbox(ServeFirst(t, message, k), a) == Inbox(t, a) + Copies(message, Served(t, k, a))
  {
    hide Serve, Balance, Inbox, Served;
    if k > 0 {
      hide Copies;
      ServedFirst(t, message, k - 1, a);
      CopiesGrow(message, Served(t, k - 1, a));
      ServeOne(ServeFirst(t, message, k - 1), a, t.subscribers[k - 1], message);
      ServedGrows(t, k, a);
    } else {
      ServedNone(t, a);
    }
  }

  /** One publish delivers to each address exactly min(its entries, balance / price) copies,
      charges exactly for those, and touches neither the subscribers nor any other topic. */
  lemma {:induction false} PublishIsExact(s: State, sender: Address, name: string, message: string, a: Address)
    requires sender in Lookup(s.topics, name).publishers
    ensures var t := Lookup(s.topics, name);
      var copies := Min(multiset(t.subscribers)[a], Balance(t, a) / 5_000_000_000_000_000);
      var r := Exec(s, Call.Publish(sender, name, message));
      && r.Some?
      && var t' := Lookup(r.value.topics, name);
         && Balance(t', a) == Balance(t, a) - 5_000_000_000_000_000 * copies
         && Inbox(t', a) == Inbox(t, a) + Copies(message, copies)
         && t'.messages == t.messages + [message]
         && t'.subscribers == t.subscribers && t'.publishers == t.publishers
         && r.value.ether == s.ether
         && forall other :: other != name ==> Lookup(r.value.topics, other) == Lookup(s.topics, other)
  {
    hide ServeFirst;
    var t := Lookup(s.topics, name);
    var start := t.(messages := t.messages + [message]);
    assert start.subscribers[..|start.subscribers|] == t.subscribers;
    ServedFirst(start, message, |t.subscribers|, a);
  }

  // ----- unsubscribing -----

  /** Replacing one element by another. */
  lemma MovedMultiset(entries: seq<Address>, i: nat, x: Address)
    requires i < |entries|
    ensures multiset(entries[i := x]) == multiset(entries) - multiset{entries[i]} + multiset{x}
  {
  }

  lemma LastTakenOff(entries: seq<Address>)
    requires entries != []
    ensures multiset(entries)
         == multiset(entries[..|entries| - 1]) + multiset{entries[|entries| - 1]}
  {
    assert entries == entries[..|entries| - 1] + [entries[|entries| - 1]];
  }

  lemma Cancel(a: multiset<Address>, b: multiset<Address>, x: Address)
    requires a + multiset{x} == b + multiset{x}
    ensures a == b
  {
    forall y ensures a[y] == b[y] {
      assert (a + multiset{x})[y] == (b + multiset{x})[y];
    }
  }

  lemma MovedAndCut(entries: seq<Address>, i: nat)
    requires i < |entries|
    ensures var last := |entries| - 1;
      multiset(entries[i := entries[last]][..last]) == multiset(entries) - multiset{entries[i]}
  {
    var last := |entries| - 1;
    var moved := entries[i := entries[last]];
    MovedMultiset(entries, i, entries[last]);
    LastTakenOff(moved);
    assert moved[last] == entries[last];
    assert entries[i] in multiset(entries);
    Cancel(multiset(moved[..last]), multiset(entries) - multiset{entries[i]}, entries[last]);
  }

  /** Deletion removes one occurrence of the element and nothing else, in some order. */
  lemma DeleteRemovesOne(entries: seq<Address>, element: Address)
    ensures multiset(Deleted(entries, element)) == multiset(entries) - multiset{element}
    ensures |Deleted(entries, element)| == if element in entries then |entries| - 1 else |entries|
  {
    hide FirstIndex;
    if element in entries {
      MovedAndCut(entries, FirstIndex(entries, element));
    } else {
      assert element !in multiset(entries);
    }
  }

  /** Where everything is afterwards: the last entry in place of the first match, the others unmoved. */
  lemma DeletedPointwise(entries: seq<Address>, element: Address, i: nat)
    requires i < |entries| && entries[i] == element && element !in entries[..i]
    ensures |Deleted(entries, element)| == |entries| - 1
    ensures forall k :: 0 <= k < |entries| - 1 ==>
              Deleted(entries, element)[k] == if k == i then entries[|entries| - 1] else entries[k]
  {
    NotBefore(entries, FirstIndex(entries, element), element);
    NotBefore(entries, i, element);
  }

  lemma NotBefore(entries: seq<Address>, n: nat, element: Address)
    requires n <= |entries| && element !in entries[..n]
    ensures forall k :: 0 <= k < n ==> entries[k] != element
  {
    forall k | 0 <= k < n ensures entries[k] != element {
      assert entries[..n][k] == entries[k];
    }
  }

  /** Unsubscribing gives up one entry; the balance and the messages stay. */
  lemma UnsubscribeKeepsBalance(s: State, sender: Address, name: string, a: Address)
    requires sender in Lookup(s.topics, name).subscribers
    ensures var r := Exec(s, Call.Unsubscribe(sender, name));
      && r.Some?
      && var t, t' := Lookup(s.topics, name), Lookup(r.value.topics, name);
         && multiset(t'.subscribers) == multiset(t.subscribers) - multiset{sender}
         && Balance(t', a) == Balance(t, a) && Inbox(t', a) == Inbox(t, a)
         && r.value.ether == s.ether
  {
    DeleteRemovesOne(Lookup(s.topics, name).subscribers, sender);
  }

  // ----- every sequence of calls -----

  function Deployed(): State {
    State(map[], map[], 0)
  }

  /** A reverted call leaves no trace. */
  function Run(calls: seq<Call>): State {
    if calls == [] then Deployed()
    else
      var s := Run(calls[..|calls| - 1]);
      match Exec(s, calls[|calls| - 1])
      case None => s
      case Some(next) => next
  }

  predicate Accepts(s: State, c: Call) {
    Exec(s, c).Some?
  }

  /** How often the address has subscribed to the topic and paid the deposit. */
  function Deposits(calls: seq<Call>, name: string, a: Address): nat {
    if calls == [] then 0
    else
      var front, c := calls[..|calls| - 1], calls[|calls| - 1];
      Deposits(front, name, a) + One(c.Subscribe? && c.topicName == name && c.sender == a && Accepts(Run(front), c))
  }

  function Withdrawals(calls: seq<Call>, name: string, a: Address): nat {
    if calls == [] then 0
    else
      var front, c := calls[..|calls| - 1], calls[|calls| - 1];
      Withdrawals(front, name, a)
      + One(c.Unsubscribe? && c.topicName == name && c.sender == a && Accepts(Run(front), c))
  }

  function AllDeposits(calls: seq<Call>): nat {
    if calls == [] then 0
    else
      var front, c := calls[..|calls| - 1], calls[|calls| - 1];
      AllDeposits(front) + One(c.Subscribe? && Accepts(Run(front), c))
  }

  /** What one accepted call does to one account. */
  predicate Effect(s: State, c: Call, next: State, name: string, a: Address) {
    var t, t' := Lookup(s.topics, name), Lookup(next.topics, name);
    var mine := c.topicName == name && c.sender == a;
    && Balance(t', a) + PRICE * |Inbox(t', a)|
       == Balance(t, a) + PRICE * |Inbox(t, a)| + DEPOSIT * One(c.Subscribe? && mine)
    && multiset(t'.subscribers)[a] + One(c.Unsubscribe? && mine)
       == multiset(t.subscribers)[a] + One(c.Subscribe? && mine)
    && next.ether == s.ether + DEPOSIT * One(c.Subscribe?)
  }

  lemma PublishEffect(s: State, c: Call, name: string, a: Address)
    requires c.Publish? && Accepts(s, c)
    ensures Effect(s, c, Exec(s, c).value, name, a)
  {
    hide Published, Inbox, Balance, Copies, Min;
    if c.topicName == name {
      PublishIsExact(s, c.sender, name, c.message, a);
    }
  }

  lemma UnsubscribeEffect(s: State, c: Call, name: string, a: Address)
    requires c.Unsubscribe? && Accepts(s, c)
    ensures Effect(s, c, Exec(s, c).value, name, a)
  {
    hide Deleted;
    if c.topicName == name { DeleteRemovesOne(Lookup(s.topics, name).subscribers, c.sender); }
  }

  lemma CreditedExactly(t: Topic, sender: Address, value: nat, a: Address)
    requires Balance(t, sender) + value < UINT256
    ensures var t' := Credited(t, sender, value);
      && Balance(t', a) == Balance(t, a) + (if a == sender then value else 0)
      && Inbox(t', a) == Inbox(t, a)
      && multiset(t'.subscribers)[a] == multiset(t.subscribers)[a] + One(a == sender)
  {
  }

  lemma SubscribeEffect(s: State, c: Call, name: string, a: Address)
    requires c.Subscribe? && Accepts(s, c)
    requires c.topicName == name && c.sender == a ==> Balance(Lookup(s.topics, name), a) <= s.ether
    ensures Effect(s, c, Exec(s, c).value, name, a)
  {
    hide Credited, Balance, Inbox;
    if c.topicName == name {
      if c.sender == a { CreditedExactly(Lookup(s.topics, name), c.sender, c.value, a); }
      else { OthersUntouched(Lookup(s.topics, name), c.sender, c.value, a); }
    }
  }

  lemma OthersUntouched(t: Topic, sender: Address, value: nat, a: Address)
    requires a != sender
    ensures var t' := Credited(t, sender, value);
      && Balance(t', a) == Balance(t, a) && Inbox(t', a) == Inbox(t, a)
      && multiset(t'.subscribers)[a] == multiset(t.subscribers)[a]
  {
  }

  /** Whatever the call, provided the balance is covered by the contract's ether. */
  lemma CallEffect(s: State, c: Call, name: string, a: Address)
    requires Accepts(s, c) && Balance(Lookup(s.topics, name), a) <= s.ether
    ensures Effect(s, c, Exec(s, c).value, name, a)
  {
    match c
    case Advertise(_, _) =>
    case Subscribe(_, _, _, _) => SubscribeEffect(s, c, name, a);
    case Publish(_, _, _) => PublishEffect(s, c, name, a);
    case Unsubscribe(_, _) => UnsubscribeEffect(s, c, name, a);
  }

  lemma {:induction false} DepositsWithin(calls: seq<Call>, name: string, a: Address)
    ensures Deposits(calls, name, a) <= AllDeposits(calls)
  {
    if calls != [] { DepositsWithin(calls[..|calls| - 1], name, a); }
  }

  /** Conservation: what an account holds, plus what it paid for the messages it received, is what
      it deposited; the contract's ether is the sum of all deposits; an account has one entry per
      deposit not withdrawn. */
  lemma {:induction false} Conservation(calls: seq<Call>, name: string, a: Address)
    ensures var t := Lookup(Run(calls).topics, name);
      && Balance(t, a) + PRICE * |Inbox(t, a)| == DEPOSIT * Deposits(calls, name, a)
      && multiset(t.subscribers)[a] + Withdrawals(calls, name, a) == Deposits(calls, name, a)
    ensures Run(calls).ether == DEPOSIT * AllDeposits(calls)
  {
    if calls != [] {
      hide Exec, Lookup, Balance, Inbox;
      var front, c := calls[..|calls| - 1], calls[|calls| - 1];
      Conservation(front, name, a);
      DepositsWithin(front, name, a);
      if Accepts(Run(front), c) { CallEffect(Run(front), c, name, a); }
    }
  }

  /** Each deposit buys at most 100 deliveries, and no balance ever wraps around. */
  lemma {:induction false} DeliveriesBounded(calls: seq<Call>, name: string, a: Address)
    ensures |Inbox(Lookup(Run(calls).topics, name), a)| <= 100 * Deposits(calls, name, a)
    ensures Balance(Lookup(Run(calls).topics, name), a) <= Run(calls).ether < UINT256
  {
    hide Lookup, Balance, Inbox;
    Conservation(calls, name, a);
    DepositsWithin(calls, name, a);
    EtherFits(calls);
  }

  lemma {:induction false} EtherFits(calls: seq<Call>)
    ensures Run(calls).ether < UINT256
  {
    if calls != [] { EtherFits(calls[..|calls| - 1]); }
  }

  // ----- who may do what -----

  predicate Advertisers(calls: seq<Call>, name: string, a: Address) {
    exists i :: 0 <= i < |calls| && calls[i] == Call.Advertise(a, name)
  }

  lemma PublishersOf(s: State, c: Call, name: string, a: Address)
    requires Accepts(s, c)
    ensures a in Lookup(Exec(s, c).value.topics, name).publishers
            <==> a in Lookup(s.topics, name).publishers || c == Call.Advertise(a, name)
  {
    hide ServeFirst, Deleted;
  }

  /** A publish is accepted exactly from those who advertised the topic at any time before. */
  lemma {:induction false} PublishRights(calls: seq<Call>, name: string, a: Address)
    ensures a in Lookup(Run(calls).topics, name).publishers <==> Advertisers(calls, name, a)
    ensures forall message :: Accepts(Run(calls), Call.Publish(a, name, message)) <==> Advertisers(calls, name, a)
  {
    if calls != [] {
      var front, c := calls[..|calls| - 1], calls[|calls| - 1];
      PublishRights(front, name, a);
      if Accepts(Run(front), c) { PublishersOf(Run(front), c, name, a); }
      assert Advertisers(calls, name, a) <==> Advertisers(front, name, a) || c == Call.Advertise(a, name) by {
        if Advertisers(front, name, a) {
          var i :| 0 <= i < |front| && front[i] == Call.Advertise(a, name);
          assert calls[i] == front[i];
        }
      }
    }
  }

  /** An unsubscription is accepted exactly while there is a deposit not yet withdrawn. */
  lemma {:induction false} UnsubscribeRights(calls: seq<Call>, name: string, a: Address)
    ensures Accepts(Run(calls), Call.Unsubscribe(a, name)) <==> Withdrawals(calls, name, a) < Deposits(calls, name, a)
  {
    hide Run, Deposits, Withdrawals;
    Conservation(calls, name, a);
    var subscribers := Lookup(Run(calls).topics, name).subscribers;
    assert a in subscribers <==> a in multiset(subscribers);
  }

  /** A subscription is accepted exactly for half an ether, as long as the contract's ether stays a uint256. */
  lemma SubscribeRights(s: State, a: Address, name: string, ip: string, value: nat)
    ensures Accepts(s, Call.Subscribe(a, name, ip, value))
            <==> value == 500_000_000_000_000_000 && s.ether + value < 0x1_0000_0000_0000_0000 * 0x1_0000_0000_0000_0000
                   * 0x1_0000_0000_0000_0000 * 0x1_0000_0000_0000_0000
  {
  }

  // ----- the whole storage, told from the calls alone -----

  /** What is published under a topic: the messages of those who had advertised it, in order. */
  function PublishedOn(calls: seq<Call>, name: string): seq<string> {
    if calls == [] then []
    else
      var front, c := calls[..|calls| - 1], calls[|calls| - 1];
      PublishedOn(front, name)
      + (if c.Publish? && c.topicName == name && Advertisers(front, name, c.sender) then [c.message] else [])
  }

  /** The copies of one more message for an address with `d` deposits, `w` withdrawals and `n` messages
      so far: one per standing deposit, and never more than 100 per deposit in all. */
  function Share(d: nat, w: nat, n: nat): nat {
    var copies := if d - w <= 100 * d - n then d - w else 100 * d - n;
    if copies < 0 then 0 else copies
  }

  /** What an address receives, in order. */
  function Received(calls: seq<Call>, name: string, a: Address): seq<string> {
    if calls == [] then []
    else
      var front, c := calls[..|calls| - 1], calls[|calls| - 1];
      var before := Received(front, name, a);
      before + (if c.Publish? && c.topicName == name && Advertisers(front, name, c.sender)
                then Copies(c.message, Share(Deposits(front, name, a), Withdrawals(front, name, a), |before|)) else [])
  }

  /** What one accepted call does to a topic's messages and to one inbox. */
  lemma MessagesAfter(s: State, c: Call, name: string, a: Address)
    requires Accepts(s, c)
    ensures var t, t' := Lookup(s.topics, name), Lookup(Exec(s, c).value.topics, name);
      var here := c.Publish? && c.topicName == name;
      && t'.messages == t.messages + (if here then [c.message] else [])
      && Inbox(t', a) == Inbox(t, a)
           + (if here then Copies(c.message, Min(multiset(t.subscribers)[a], Balance(t, a) / PRICE)) else [])
  {
    hide ServeFirst, Deleted, Published, Copies, Min;
    if c.Publish? && c.topicName == name { PublishIsExact(s, c.sender, name, c.message, a); }
  }

  lemma ShareIsMin(d: nat, w: nat, n: nat, entries: nat, balance: nat)
    requires entries + w == d && balance + PRICE * n == DEPOSIT * d
    ensures Min(entries, balance / PRICE) == Share(d, w, n)
  {
    assert balance == PRICE * (100 * d - n);
  }

  /** In every run a topic's messages are exactly those of its accepted publishes, and an inbox holds
      exactly the copies the address had paid for. */
  lemma {:induction false} StorageIsHistory(calls: seq<Call>, name: string, a: Address)
    ensures var t := Lookup(Run(calls).topics, name);
      t.messages == PublishedOn(calls, name) && Inbox(t, a) == Received(calls, name, a)
  {
    if calls != [] {
      hide Exec, Lookup, Inbox, Balance, Copies, Min, Share, Advertisers, Deposits, Withdrawals;
      var front, c := calls[..|calls| - 1], calls[|calls| - 1];
      StorageIsHistory(front, name, a);
      if c.Publish? && c.topicName == name { PublishRights(front, name, c.sender); }
      if Accepts(Run(front), c) {
        MessagesAfter(Run(front), c, name, a);
        Conservation(front, name, a);
        var t := Lookup(Run(front).topics, name);
        ShareIsMin(Deposits(front, name, a), Withdrawals(front, name, a), |Inbox(t, a)|,
                   multiset(t.subscribers)[a], Balance(t, a));
      }
    }
  }

  /** Who advertised a topic, in order. */
  function AdvertisersOf(calls: seq<Call>, name: string): seq<Address> {
    if calls == [] then []
    else
      var front, c := calls[..|calls| - 1], calls[|calls| - 1];
      AdvertisersOf(front, name) + (if c.Advertise? && c.topicName == name then [c.sender] else [])
  }

  /** The standing entries of a topic, in array order: a subscription is appended, an unsubscription
      puts the last entry in the place of the caller's first one. */
  function EntriesOf(calls: seq<Call>, name: string): seq<Address> {
    if calls == [] then []
    else
      var front, c := calls[..|calls| - 1], calls[|calls| - 1];
      var before := EntriesOf(front, name);
      if c.topicName != name then before
      else if c.Subscribe? && Accepts(Run(front), c) then before + [c.sender]
      else if c.Unsubscribe? then Deleted(before, c.sender)
      else before
  }

  /** What one accepted call does to a topic's two arrays. */
  lemma ArraysAfter(s: State, c: Call, name: string)
    requires Accepts(s, c)
    ensures var t, t' := Lookup(s.topics, name), Lookup(Exec(s, c).value.topics, name);
      var here := c.topicName == name;
      && t'.publishers == t.publishers + (if here && c.Advertise? then [c.sender] else [])
      && t'.subscribers == (if here && c.Subscribe? then t.subscribers + [c.sender]
                            else if here && c.Unsubscribe? then Deleted(t.subscribers, c.sender)
                            else t.subscribers)
  {
    hide ServeFirst, Deleted;
  }

  lemma {:induction false} ArraysAreHistory(calls: seq<Call>, name: string)
    ensures Lookup(Run(calls).topics, name).publishers == AdvertisersOf(calls, name)
    ensures Lookup(Run(calls).topics, name).subscribers == EntriesOf(calls, name)
  {
    if calls != [] {
      hide Exec, Lookup, Deleted;
      var front, c := calls[..|calls| - 1], calls[|calls| - 1];
      ArraysAreHistory(front, name);
      if Accepts(Run(front), c) {
        ArraysAfter(Run(front), c, name);
      } else if c.topicName == name {
        RevertsWithoutEntry(Run(front), c);
      }
    }
  }

  lemma RevertsWithoutEntry(s: State, c: Call)
    requires !Accepts(s, c)
    ensures !c.Advertise?
    ensures var entries := Lookup(s.topics, c.topicName).subscribers;
      c.Unsubscribe? ==> Deleted(entries, c.sender) == entries
  {
  }

  /** The address an ip was last given for, by an accepted subscription to any topic. */
  function LastIp(calls: seq<Call>, a: Address): Option<string> {
    if calls == [] then None
    else
      var front, c := calls[..|calls| - 1], calls[|calls| - 1];
      if c.Subscribe? && c.sender == a && Accepts(Run(front), c) then Some(c.ipAddress) else LastIp(front, a)
  }

  lemma {:induction false} IpIsLast(calls: seq<Call>, a: Address)
    ensures var ips := Run(calls).subscriberToIp;
      LastIp(calls, a) == if a in ips then Some(ips[a]) else None
  {
    if calls != [] {
      hide Published, Advertised, Credited, Deleted;
      IpIsLast(calls[..|calls| - 1], a);
    }
  }

  predicate EverAdvertised(calls: seq<Call>, name: string) {
    exists i :: 0 <= i < |calls| && calls[i].Advertise? && calls[i].topicName == name
  }

  lemma {:induction false} NameIsSetOnce(calls: seq<Call>, name: string)
    ensures Lookup(Run(calls).topics, name).name == if EverAdvertised(calls, name) then name else ""
  {
    if calls != [] {
      hide ServeFirst, Deleted;
      var front, c := calls[..|calls| - 1], calls[|calls| - 1];
      NameIsSetOnce(front, name);
      assert EverAdvertised(calls, name) <==> EverAdvertised(front, name) || (c.Advertise? && c.topicName == name) by {
        if EverAdvertised(front, name) {
          var i :| 0 <= i < |front| && front[i].Advertise? && front[i].topicName == name;
          assert calls[i] == front[i];
        }
      }
    }
  }

  // ----- the contract's ether -----

  datatype Account = Account(name: string, holder: Address)

  function Balances(s: State, accounts: seq<Account>): nat {
    if accounts == [] then 0
    else
      var p := accounts[|accounts| - 1];
      Balances(s, accounts[..|accounts| - 1]) + Balance(Lookup(s.topics, p.name), p.holder)
  }

  function Deliveries(s: State, accounts: seq<Account>): nat {
    if accounts == [] then 0
    else
      var p := accounts[|accounts| - 1];
      Deliveries(s, accounts[..|accounts| - 1]) + |Inbox(Lookup(s.topics, p.name), p.holder)|
  }

  function DepositsOf(calls: seq<Call>, accounts: seq<Account>): nat {
    if accounts == [] then 0
    else
      var p := accounts[|accounts| - 1];
      DepositsOf(calls, accounts[..|accounts| - 1]) + Deposits(calls, p.name, p.holder)
  }

  /** The list names every account that ever subscribed. */
  predicate Covers(calls: seq<Call>, accounts: seq<Account>) {
    forall i :: 0 <= i < |calls| && calls[i].Subscribe? ==> Account(calls[i].topicName, calls[i].sender) in accounts
  }

  lemma {:induction false} DepositsOfNone(accounts: seq<Account>)
    ensures DepositsOf([], accounts) == 0
  {
    if accounts != [] { DepositsOfNone(accounts[..|accounts| - 1]); }
  }

  lemma {:induction false} OneMoreDeposit(calls: seq<Call>, accounts: seq<Account>)
    requires calls != [] && Distinct(accounts)
    ensures var front, c := calls[..|calls| - 1], calls[|calls| - 1];
      DepositsOf(calls, accounts)
      == DepositsOf(front, accounts)
         + One(c.Subscribe? && Account(c.topicName, c.sender) in accounts && Accepts(Run(front), c))
    decreases |accounts|
  {
    hide Accepts, Run;
    if accounts != [] {
      var rest, p := accounts[..|accounts| - 1], accounts[|accounts| - 1];
      OneMoreDeposit(calls, rest);
      assert accounts == rest + [p];
    }
  }

  lemma {:induction false} DepositsAddUp(calls: seq<Call>, accounts: seq<Account>)
    requires Distinct(accounts) && Covers(calls, accounts)
    ensures DepositsOf(calls, accounts) == AllDeposits(calls)
    decreases |calls|
  {
    hide Accepts, Run;
    if calls == [] {
      DepositsOfNone(accounts);
    } else {
      var front := calls[..|calls| - 1];
      assert Covers(front, accounts);
      DepositsAddUp(front, accounts);
      OneMoreDeposit(calls, accounts);
    }
  }

  lemma {:induction false} AccountsAddUp(calls: seq<Call>, accounts: seq<Account>)
    ensures Balances(Run(calls), accounts) + PRICE * Deliveries(Run(calls), accounts)
        == DEPOSIT * DepositsOf(calls, accounts)
    decreases |accounts|
  {
    hide Run, Deposits, Balance, Inbox, Lookup;
    if accounts != [] {
      var p := accounts[|accounts| - 1];
      AccountsAddUp(calls, accounts[..|accounts| - 1]);
      Conservation(calls, p.name, p.holder);
    }
  }

  /** After any calls the contract's ether is all balances plus the price of every delivery made. */
  lemma {:induction false} EtherIsAccountedFor(calls: seq<Call>, accounts: seq<Account>)
    requires Distinct(accounts) && Covers(calls, accounts)
    ensures Run(calls).ether == Balances(Run(calls), accounts) + PRICE * Deliveries(Run(calls), accounts)
  {
    hide Run, Deposits, AllDeposits, Covers;
    Conservation(calls, "", 0);
    DepositsAddUp(calls, accounts);
    AccountsAddUp(calls, accounts);
  }
}
