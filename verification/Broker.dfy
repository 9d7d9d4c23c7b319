/** The broker's tables in place and its handling of one message. */
module Broker {
  import opened Basics
  import opened BrokerText

  const MAX_SUBSCRIBERS := 128
  const MAX_PUBLISHERS := 128

  datatype Subscription = Subscription(pid: int, topic: string)

  datatype Message = Message(mtype: int, text: string)

  // ----- the subscription table as a list -----

  /** Registering: nothing if the table is full or holds the pair already. */
  function Added(t: seq<Subscription>, s: Subscription): (r: seq<Subscription>)
    ensures |r| <= MAX_SUBSCRIBERS || r == t
  {
    if |t| >= MAX_SUBSCRIBERS || s in t then t else t + [s]
  }

  /** Unregistering: the first occurrence goes, the later ones move up. */
  function Removed(t: seq<Subscription>, s: Subscription): (r: seq<Subscription>)
    ensures |r| == if s in t then |t| - 1 else |t|
    ensures forall x :: x in r ==> x in t
  {
    if t == [] then [] else if t[0] == s then t[1..] else [t[0]] + Removed(t[1..], s)
  }

  ghost predicate Unique(t: seq<Subscription>) {
    forall i, j :: 0 <= i < j < |t| ==> t[i] != t[j]
  }

  lemma {:induction false} RemovedAt(t: seq<Subscription>, s: Subscription, i: nat)
    requires i < |t| && t[i] == s && s !in t[..i]
    ensures Removed(t, s) == t[..i] + t[i + 1..]
  {
    if i == 0 {
    } else {
      assert t[0] in t[..i];
      assert t[1..][i - 1] == t[i] && t[1..][..i - 1] == t[..i][1..];
      RemovedAt(t[1..], s, i - 1);
      assert t[..i] + t[i + 1..] == [t[0]] + (t[1..][..i - 1] + t[1..][i..]);
    }
  }

  lemma {:induction false} RemovedAbsent(t: seq<Subscription>, s: Subscription)
    requires s !in t
    ensures Removed(t, s) == t
  {
    if t != [] {
      assert t[0] in t && forall x :: x in t[1..] ==> x in t;
      RemovedAbsent(t[1..], s);
    }
  }

  lemma {:induction false} WithoutOne(t: seq<Subscription>, i: nat, r: seq<Subscription>)
    requires i < |t| && |r| == |t| - 1
    requires forall k :: 0 <= k < i ==> r[k] == t[k]
    requires forall k :: i <= k < |r| ==> r[k] == t[k + 1]
    ensures r == t[..i] + t[i + 1..]
  {
  }

  lemma {:induction false} CutOut(t: seq<Subscription>, i: nat)
    requires Unique(t) && i < |t|
    ensures var r := t[..i] + t[i + 1..];
            Unique(r) && forall x :: x in r <==> x in t && x != t[i]
  {
    var r := t[..i] + t[i + 1..];
    forall x ensures x in r <==> x in t && x != t[i] {
      if x in t && x != t[i] {
        var j :| 0 <= j < |t| && t[j] == x;
        assert r[if j < i then j else j - 1] == x;
      }
      if x in r {
        var j :| 0 <= j < |r| && r[j] == x;
        assert t[if j < i then j else j + 1] == x;
      }
    }
  }

  /** Both operations keep the pairs distinct; removing really removes, and only that pair. */
  lemma {:induction false} TableStaysUnique(t: seq<Subscription>, s: Subscription)
    requires Unique(t)
    ensures Unique(Added(t, s)) && Unique(Removed(t, s))
    ensures forall x :: x in Removed(t, s) <==> x in t && x != s
  {
    if s in t {
      var i :| 0 <= i < |t| && t[i] == s;
      assert s !in t[..i];
      RemovedAt(t, s, i);
      CutOut(t, i);
    } else {
      RemovedAbsent(t, s);
    }
  }

  /** Subscribing a new pair in a table with room and unsubscribing it restores the ordered table. */
  lemma {:induction false} SubscribeUnsubscribe(t: seq<Subscription>, s: Subscription)
    requires s !in t && |t| < MAX_SUBSCRIBERS
    ensures Added(t, s) != t && Removed(Added(t, s), s) == t
  {
    assert (t + [s])[..|t|] == t && (t + [s])[|t|] == s;
    RemovedAt(t + [s], s, |t|);
  }

  /** The table after one command. */
  function TableStep(t: seq<Subscription>, c: Command): seq<Subscription> {
    match c
    case Subscribe(pid, topic) => Added(t, Subscription(pid, topic))
    case Unsubscribe(pid, topic) => Removed(t, Subscription(pid, topic))
    case Publish(_, _, _) | Ignored => t
  }

  /** What one command does to the table: a pair is in it afterwards exactly if it was and the command does not
      unsubscribe it, or the command subscribes it and there is room. */
  lemma {:induction false} TableStepExactly(t: seq<Subscription>, c: Command, p: Subscription)
    requires Unique(t)
    ensures p in TableStep(t, c) <==>
            (p in t && !(c.Unsubscribe? && c.pid == p.pid && c.topic == p.topic))
            || (c.Subscribe? && c.pid == p.pid && c.topic == p.topic && |t| < 128)
  {
    if c.Subscribe? || c.Unsubscribe? { TableStaysUnique(t, Subscription(c.pid, c.topic)); }
  }

  /** One copy for every subscription to the topic, in table order. */
  function Copies(t: seq<Subscription>, topic: string, text: string): (r: seq<Message>) {
    if t == [] then []
    else
      var init, last := t[..|t| - 1], t[|t| - 1];
      Copies(init, topic, text) + if last.topic == topic then [Message(last.pid, text)] else []
  }

  /** A process gets a copy exactly if it is in the table for the topic. */
  lemma {:induction false} CopiesExactly(t: seq<Subscription>, topic: string, text: string, pid: int)
    ensures Message(pid, text) in Copies(t, topic, text) <==> Subscription(pid, topic) in t
  {
    if t != [] {
      var init, last := t[..|t| - 1], t[|t| - 1];
      CopiesExactly(init, topic, text, pid);
      assert t == init + [last];
    }
  }

  /** Whether a subscriber gets a copy of a publication made under the very topic it asks for, in whatever state the
      table is: the publication has to be carried, and the pair has to be in the table already or to be a new one that
      is clean and finds room. */
  lemma {:induction false} SubscriberHeardExactly(t: seq<Subscription>, spid: nat, ppid: nat, topic: string,
                                                  line: string)
    requires spid < PIDS && ppid < PIDS
    ensures |Decimal(ppid)| <= 10
    ensures var s, p := Parse(SubscribeText(spid, topic)), Parse(SendText(ppid, topic, line));
            var heard := p.Publish? && var text := RoutedText(p.topic, p.payload);
                         Message(spid, text) in Copies(TableStep(t, s), p.topic, text);
            heard <==> Carried(ppid, topic)
                       && (Subscription(spid, Published(topic)) in t || (Clean(topic) && |t| < MAX_SUBSCRIBERS))
  {
    var s, p := Parse(SubscribeText(spid, topic)), Parse(SendText(ppid, topic, line));
    SubscribeParsed(spid, topic);
    SendTopic(ppid, topic, line);
    SameTopicHeardExactly(spid, ppid, topic, line);
    if p.Publish? { CopiesExactly(TableStep(t, s), p.topic, RoutedText(p.topic, p.payload), spid); }
  }

  /** The publisher list keeps its first 128 distinct pids. */
  function PublisherAdded(ps: seq<int>, pid: int): seq<int> {
    if |ps| >= MAX_PUBLISHERS || pid in ps then ps else ps + [pid]
  }

  function PublishersOf(pids: seq<int>): (ps: seq<int>) {
    if pids == [] then [] else PublisherAdded(PublishersOf(pids[..|pids| - 1]), pids[|pids| - 1])
  }

  ghost predicate Distinct(ps: seq<int>) {
    forall i, j :: 0 <= i < j < |ps| ==> ps[i] != ps[j]
  }

  /** Listed one after the other, pids without repetition are all there, in order, and those beyond the first 128 are
      left out; a pid that is there already changes nothing. */
  lemma {:induction false} FirstDistinctListed(pids: seq<int>)
    ensures Distinct(PublishersOf(pids)) && |PublishersOf(pids)| <= 128
    ensures forall p :: p in PublishersOf(pids) ==> p in pids
    ensures |PublishersOf(pids)| < 128 ==> forall p :: p in pids ==> p in PublishersOf(pids)
    ensures Distinct(pids) ==> PublishersOf(pids) == pids[..if |pids| < 128 then |pids| else 128]
  {
    if pids != [] {
      var n := |pids| - 1;
      var init, last := pids[..n], pids[n];
      FirstDistinctListed(init);
      assert pids == init + [last];
      if Distinct(pids) && n < 128 { assert pids[..n + 1] == pids && init[..n] == init; }
      if Distinct(pids) && n >= 128 { assert pids[..128] == init[..128]; }
    }
  }

  /** Earlier ones stay first. */
  lemma {:induction false} PublishersGrow(pids: seq<int>, pid: int)
    ensures PublishersOf(pids) <= PublishersOf(pids + [pid])
    ensures PublishersOf(pids + [pid])
         == PublishersOf(pids) + if pid !in PublishersOf(pids) && |PublishersOf(pids)| < 128 then [pid] else []
  {
    assert (pids + [pid])[..|pids|] == pids;
    assert PublishersOf(pids) + [] == PublishersOf(pids);
  }

  class BrokerProcess {
    const subscribers: array<Subscription>
    var subscriberCount: nat
    const publishers: array<int>
    var publisherCount: nat
    var sent: seq<Message>

    ghost predicate Valid()
      reads this
    {
      && subscribers.Length == MAX_SUBSCRIBERS && subscriberCount <= MAX_SUBSCRIBERS
      && publishers.Length == MAX_PUBLISHERS && publisherCount <= MAX_PUBLISHERS
    }

    ghost function Table(): seq<Subscription>
      reads this, subscribers
      requires Valid()
    {
      subscribers[..subscriberCount]
    }

    ghost function Publishers(): seq<int>
      reads this, publishers
      requires Valid()
    {
      publishers[..publisherCount]
    }

    constructor ()
      ensures Valid() && fresh(subscribers) && fresh(publishers)
      ensures Table() == [] && Publishers() == [] && sent == []
    {
      subscribers := new Subscription[MAX_SUBSCRIBERS](_ => Subscription(0, ""));
      publishers := new int[MAX_PUBLISHERS];
      subscriberCount, publisherCount, sent := 0, 0, [];
    }

    method RegisterSubscriber(pid: int, topic: string)
      requires Valid() && |topic| <= MAX_TOPIC
      modifies `subscriberCount, subscribers
      ensures Valid() && Table() == Added(old(Table()), Subscription(pid, topic))
    {
      if subscriberCount >= MAX_SUBSCRIBERS { return; }
      for i := 0 to subscriberCount
        invariant forall j :: 0 <= j < i ==> Table()[j] != Subscription(pid, topic)
      {
        if subscribers[i].pid == pid && subscribers[i].topic == topic {
          assert Table()[i] == Subscription(pid, topic);
          return;
        }
      }
      assert Cut(topic) == topic;
      subscribers[subscriberCount] := Subscription(pid, Cut(topic));
      subscriberCount := subscriberCount + 1;
    }

    method UnregisterSubscriber(pid: int, topic: string)
      requires Valid()
      modifies `subscriberCount, subscribers
      ensures Valid() && Table() == Removed(old(Table()), Subscription(pid, topic))
    {
      ghost var t := Table();
      var s := Subscription(pid, topic);
      for i := 0 to subscriberCount
        invariant Table() == t && forall j :: 0 <= j < i ==> t[j] != s
      {
        if subscribers[i].pid == pid && subscribers[i].topic == topic {
          ShiftLeft(i);
          RemovedAt(t, s, i);
          return;
        }
      }
      RemovedAbsent(t, s);
    }

    /** Closes the gap at position i. */
    method ShiftLeft(i: nat)
      requires Valid() && i < subscriberCount
      modifies `subscriberCount, subscribers
      ensures Valid() && Table() == old(Table())[..i] + old(Table())[i + 1..]
    {
      ghost var t := Table();
      var n := subscriberCount;
      for j := i to n - 1
        invariant forall k :: 0 <= k < i ==> subscribers[k] == t[k]
        invariant forall k :: i <= k < j ==> subscribers[k] == t[k + 1]
        invariant forall k :: j < k < n ==> subscribers[k] == t[k]
      {
        subscribers[j] := subscribers[j + 1];
      }
      subscriberCount := n - 1;
      WithoutOne(t, i, Table());
    }

    method RegisterPublisher(pid: int)
      requires Valid()
      modifies `publisherCount, publishers
      ensures Valid() && Publishers() == PublisherAdded(old(Publishers()), pid)
    {
      if publisherCount >= MAX_PUBLISHERS { return; }
      for i := 0 to publisherCount
        invariant forall j :: 0 <= j < i ==> Publishers()[j] != pid
      {
        if publishers[i] == pid {
          assert Publishers()[i] == pid;
          return;
        }
      }
      publishers[publisherCount] := pid;
      publisherCount := publisherCount + 1;
    }

    /** Sends one copy of a publication to every subscription to its topic. */
    method RouteMessage(topic: string, payload: string)
      requires Valid()
      modifies `sent
      ensures sent == old(sent) + Copies(Table(), topic, RoutedText(topic, payload))
    {
      var text := RoutedText(topic, payload);
      for i := 0 to subscriberCount
        invariant sent == old(sent) + Copies(Table()[..i], topic, text)
      {
        assert Table()[..i + 1][..i] == Table()[..i];
        if subscribers[i].topic == topic {
          sent := sent + [Message(subscribers[i].pid, text)];
        }
      }
      assert Table()[..subscriberCount] == Table();
    }

    method HandleSubscribe(request: string)
      requires Valid()
      modifies `subscriberCount, subscribers
      ensures Valid()
      ensures var r := ScanRequest(request);
              Table() == if r.Some? then Added(old(Table()), Subscription(r.value.0, r.value.1)) else old(Table())
    {
      var r := ScanRequest(request);
      if r.Some? { RegisterSubscriber(r.value.0, r.value.1); }
    }

    method HandleUnsubscribe(request: string)
      requires Valid()
      modifies `subscriberCount, subscribers
      ensures Valid()
      ensures var r := ScanRequest(request);
              Table() == if r.Some? then Removed(old(Table()), Subscription(r.value.0, r.value.1)) else old(Table())
    {
      var r := ScanRequest(request);
      if r.Some? { UnregisterSubscriber(r.value.0, r.value.1); }
    }

    method HandleSend(publication: string)
      requires Valid()
      modifies `sent, `publisherCount, publishers
      ensures Valid()
      ensures var r := ScanSend(publication);
              if r.None? then sent == old(sent) && Publishers() == old(Publishers())
              else
                && sent == old(sent) + Copies(Table(), r.value.0, RoutedText(r.value.0, r.value.1))
                && Publishers() == PublisherAdded(old(Publishers()), Atoi(publication))
    {
      var r := ScanSend(publication);
      if r.Some? {
        RegisterPublisher(Atoi(publication));
        RouteMessage(r.value.0, r.value.1);
      }
    }

    /** One received text, whatever it is. */
    method ProcessIncomingMessage(text: string)
      requires Valid()
      modifies this, subscribers, publishers
      ensures Valid() && Table() == TableStep(old(Table()), Parse(text))
      ensures Publishers() == match Parse(text)
                              case Publish(pid, _, _) => PublisherAdded(old(Publishers()), pid)
                              case _ => old(Publishers())
      ensures sent == old(sent) + match Parse(text)
                                  case Publish(_, topic, payload) =>
                                    Copies(old(Table()), topic, RoutedText(topic, payload))
                                  case _ => []
    {
      if SUBSCRIBE <= text {
        HandleSubscribe(text[|SUBSCRIBE|..]);
      } else if UNSUBSCRIBE <= text {
        HandleUnsubscribe(text[|UNSUBSCRIBE|..]);
      } else if SEND <= text {
        HandleSend(text[|SEND|..]);
      }
    }
  }
}
