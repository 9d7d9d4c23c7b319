/** The broker, any number of publishers and any number of subscribers over one queue of typed messages,
    in every interleaving; a routed publication is sent out copy by copy. */
module BrokerRuns {
  import opened Basics
  import opened BrokerText
  import opened Broker

  /** Whether the broker is routing a publication, and how many table entries it has passed. */
  datatype Routing = Idle | Routing(topic: string, text: string, next: nat)

  /** The queue, the broker, what each subscriber received; sent and handled record the texts put into the queue
      for the broker and those it took out. */
  datatype State = State(queue: seq<Message>, table: seq<Subscription>, routing: Routing,
                         received: map<int, seq<string>>, sent: seq<string>, handled: seq<string>)

  datatype Action =
    | AskFor(pid: int, topic: string) | Leave(pid: int, topic: string) | Post(pid: int, topic: string, line: string)
    | Take | RouteOne | Receive(pid: int)

  const BROKER_TYPE := 1

  function Initial(): State {
    State([], [], Idle, map[], [], [])
  }

  // ----- the queue -----

  /** The texts of one type, oldest first. */
  function Of(q: seq<Message>, t: int): seq<string> {
    if q == [] then [] else (if q[0].mtype == t then [q[0].text] else []) + Of(q[1..], t)
  }

  /** The queue without its oldest message of a type. */
  function Without(q: seq<Message>, t: int): seq<Message> {
    if q == [] then [] else if q[0].mtype == t then q[1..] else [q[0]] + Without(q[1..], t)
  }

  lemma {:induction false} OfAppend(q: seq<Message>, m: Message, t: int)
    ensures Of(q + [m], t) == Of(q, t) + if m.mtype == t then [m.text] else []
  {
    if q == [] {
      assert q + [m] == [m];
    } else {
      assert (q + [m])[1..] == q[1..] + [m];
      OfAppend(q[1..], m, t);
      Regroup(if q[0].mtype == t then [q[0].text] else [], Of(q[1..], t), if m.mtype == t then [m.text] else []);
    }
  }

  lemma {:induction false} OfWithout(q: seq<Message>, t: int, u: int)
    requires Of(q, t) != []
    ensures Of(Without(q, t), u) == if u == t then Of(q, t)[1..] else Of(q, u)
  {
    if q[0].mtype != t { OfWithout(q[1..], t, u); }
  }

  // ----- steps -----

  predicate IsPid(pid: int) {
    BROKER_TYPE < pid < PIDS
  }

  /** A client puts a text for the broker into the queue. */
  function Sent(s: State, text: string): State {
    s.(queue := s.queue + [Message(BROKER_TYPE, text)], sent := s.sent + [text])
  }

  function Handle(s: State, text: string): State {
    var c := Parse(text);
    s.(queue := Without(s.queue, BROKER_TYPE), handled := s.handled + [text], table := TableStep(s.table, c),
       routing := if c.Publish? then Routing(c.topic, RoutedText(c.topic, c.payload), 0) else Idle)
  }

  function Route(s: State): State
    requires s.routing.Routing?
  {
    var r := s.routing;
    if r.next >= |s.table| then s.(routing := Idle)
    else
      var to := s.table[r.next];
      s.(routing := r.(next := r.next + 1),
         queue := if to.topic == r.topic then s.queue + [Message(to.pid, r.text)] else s.queue)
  }

  function Got(s: State, pid: int): seq<string> {
    if pid in s.received then s.received[pid] else []
  }

  /** A step that is not possible changes nothing. */
  function Step(s: State, a: Action): State {
    match a
    case AskFor(pid, topic) => if IsPid(pid) then Sent(s, SubscribeText(pid, topic)) else s
    case Leave(pid, topic) => if IsPid(pid) then Sent(s, UnsubscribeText(pid, topic)) else s
    case Post(pid, topic, line) => if IsPid(pid) then Sent(s, SendText(pid, topic, line)) else s
    case Take => if s.routing.Idle? && Of(s.queue, BROKER_TYPE) != [] then Handle(s, Of(s.queue, BROKER_TYPE)[0]) else s
    case RouteOne => if s.routing.Routing? then Route(s) else s
    case Receive(pid) =>
      if IsPid(pid) && Of(s.queue, pid) != [] then
        s.(queue := Without(s.queue, pid), received := s.received[pid := Got(s, pid) + [Of(s.queue, pid)[0]]])
      else s
  }

  function Run(schedule: seq<Action>): State {
    if schedule == [] then Initial() else Step(Run(schedule[..|schedule| - 1]), schedule[|schedule| - 1])
  }

  /** k routing steps with nothing between them. */
  function Routed(s: State, k: nat): State {
    if k == 0 then s else Step(Routed(s, k - 1), RouteOne)
  }

  /** Undisturbed, the steps of routing a publication put into the queue what the broker's routing loop sends. */
  lemma {:induction false} RoutingIsLoop(s: State, k: nat)
    requires s.routing.Routing? && s.routing.next == 0 && k <= |s.table|
    ensures Routed(s, k) == s.(routing := s.routing.(next := k),
                               queue := s.queue + Copies(s.table[..k], s.routing.topic, s.routing.text))
    ensures k == |s.table| ==>
      Routed(s, k + 1) == s.(routing := Idle, queue := s.queue + Copies(s.table, s.routing.topic, s.routing.text))
  {
    if k > 0 {
      RoutingIsLoop(s, k - 1);
      assert s.table[..k][..k - 1] == s.table[..k - 1];
    } else {
      assert s.queue + [] == s.queue;
    }
    if k == |s.table| { assert s.table[..k] == s.table; }
  }

  // ----- what a subscriber should receive, from the handled texts alone -----

  function TableAfter(texts: seq<string>): seq<Subscription> {
    if texts == [] then [] else TableStep(TableAfter(texts[..|texts| - 1]), Parse(texts[|texts| - 1]))
  }

  /** Text i is a publication handled while pid was subscribed to its topic. */
  predicate Hears(texts: seq<string>, i: nat, pid: int)
    requires i < |texts|
  {
    var c := Parse(texts[i]);
    c.Publish? && Subscription(pid, c.topic) in TableAfter(texts[..i])
  }

  /** The positions of the publications a subscriber hears. */
  function Heard(texts: seq<string>, pid: int): (r: seq<nat>) {
    if texts == [] then []
    else
      var n := |texts| - 1;
      Heard(texts[..n], pid) + if Hears(texts, n, pid) then [n] else []
  }

  /** The copy of publication i, as the broker formats it. */
  function TextFor(texts: seq<string>, i: nat): string
    requires i < |texts|
  {
    var c := Parse(texts[i]);
    if c.Publish? then RoutedText(c.topic, c.payload) else ""
  }

  /** One copy of each publication the subscriber hears, in the order they were handled. */
  function Expected(texts: seq<string>, pid: int): (r: seq<string>) {
    if texts == [] then []
    else
      var n := |texts| - 1;
      Expected(texts[..n], pid) + if Hears(texts, n, pid) then [TextFor(texts, n)] else []
  }

  ghost predicate Increasing(r: seq<nat>, bound: nat) {
    (forall k :: 0 <= k < |r| ==> r[k] < bound) && forall k, l :: 0 <= k < l < |r| ==> r[k] < r[l]
  }

  /** The k-th text is the copy of the publication at the k-th position. */
  ghost predicate CopiesOf(copies: seq<string>, texts: seq<string>, at: seq<nat>) {
    && Increasing(at, |texts|)
    && |copies| == |at|
    && forall k :: 0 <= k < |at| ==> copies[k] == TextFor(texts, at[k])
  }

  lemma {:induction false} CopiesExtend(copies: seq<string>, init: seq<string>, at: seq<nat>, text: string, heard: bool)
    requires CopiesOf(copies, init, at)
    ensures var all := init + [text];
            CopiesOf(copies + if heard then [TextFor(all, |init|)] else [], all, at + if heard then [|init|] else [])
  {
    var all := init + [text];
    assert forall k :: 0 <= k < |at| ==> all[at[k]] == init[at[k]];
    if !heard { assert copies + [] == copies && at + [] == at; }
  }

  lemma {:induction false} HeardStep(init: seq<string>, text: string, pid: int)
    ensures var all := init + [text];
            var heard := Hears(all, |init|, pid);
            && Expected(all, pid) == Expected(init, pid) + (if heard then [TextFor(all, |init|)] else [])
            && Heard(all, pid) == Heard(init, pid) + (if heard then [|init|] else [])
  {
    assert (init + [text])[..|init|] == init;
  }

  /** The expected copies are one for each position heard, and the positions heard are increasing. */
  lemma {:induction false} ExpectedIsHeard(texts: seq<string>, pid: int)
    ensures CopiesOf(Expected(texts, pid), texts, Heard(texts, pid))
  {
    if texts != [] {
      var n := |texts| - 1;
      var init, last := texts[..n], texts[n];
      assert texts == init + [last];
      ExpectedIsHeard(init, pid);
      HeardStep(init, last, pid);
      CopiesExtend(Expected(init, pid), init, Heard(init, pid), last, Hears(texts, n, pid));
    }
  }

  lemma {:induction false} HearsPrefix(init: seq<string>, text: string, i: nat, pid: int)
    requires i < |init|
    ensures Hears(init + [text], i, pid) == Hears(init, i, pid)
  {
    assert (init + [text])[..i] == init[..i];
  }

  lemma {:induction false} HeardAll(texts: seq<string>, pid: int, i: nat)
    requires i < |texts|
    ensures i in Heard(texts, pid) <==> Hears(texts, i, pid)
  {
    var n := |texts| - 1;
    var init, last := texts[..n], texts[n];
    assert texts == init + [last];
    ExpectedIsHeard(init, pid);
    HeardStep(init, last, pid);
    if i < n {
      HeardAll(init, pid, i);
      HearsPrefix(init, last, i, pid);
    }
  }

  // ----- the invariant -----

  /** The copy of the publication being routed that is still to come for pid, if any. */
  function Pending(s: State, pid: int): seq<string> {
    if s.routing.Routing?
      && exists j :: s.routing.next <= j < |s.table| && s.table[j] == Subscription(pid, s.routing.topic)
    then [s.routing.text] else []
  }

  /** No text makes the broker subscribe a process under the broker's own message type or a meaningless one. */
  predicate Harmless(text: string) {
    Parse(text).Subscribe? ==> IsPid(Parse(text).pid)
  }

  ghost predicate Delivering(s: State, pid: int) {
    Got(s, pid) + Of(s.queue, pid) + Pending(s, pid) == Expected(s.handled, pid)
  }

  ghost predicate Inv(s: State) {
    && s.sent == s.handled + Of(s.queue, BROKER_TYPE)
    && (forall i :: 0 <= i < |s.sent| ==> Harmless(s.sent[i]))
    && s.table == TableAfter(s.handled)
    && Unique(s.table)
    && (forall j :: 0 <= j < |s.table| ==> IsPid(s.table[j].pid))
    && (forall pid :: IsPid(pid) ==> Delivering(s, pid))
  }

  // ----- every step keeps the invariant -----

  lemma {:induction false} Regroup(a: seq<string>, b: seq<string>, c: seq<string>)
    ensures a + b + c == a + (b + c)
  {
  }

  lemma {:induction false} SentDelivers(s: State, text: string, pid: int)
    requires Delivering(s, pid) && IsPid(pid)
    ensures Delivering(Sent(s, text), pid)
  {
    OfAppend(s.queue, Message(BROKER_TYPE, text), pid);
    assert Of(s.queue, pid) + [] == Of(s.queue, pid);
  }

  lemma {:induction false} SentQueue(s: State, text: string)
    requires s.sent == s.handled + Of(s.queue, BROKER_TYPE)
    ensures Sent(s, text).sent == s.handled + Of(Sent(s, text).queue, BROKER_TYPE)
  {
    OfAppend(s.queue, Message(BROKER_TYPE, text), BROKER_TYPE);
  }

  lemma {:induction false} SentKeeps(s: State, text: string)
    requires Inv(s) && Harmless(text)
    ensures Inv(Sent(s, text))
  {
    SentQueue(s, text);
    forall pid | IsPid(pid) ensures Delivering(Sent(s, text), pid) {
      assert Delivering(s, pid);
      SentDelivers(s, text, pid);
    }
  }

  lemma {:induction false} ReceiveDelivers(s: State, pid: int, p: int)
    requires IsPid(pid) && Of(s.queue, pid) != [] && Delivering(s, p)
    ensures Delivering(Step(s, Receive(pid)), p)
  {
    OfWithout(s.queue, pid, p);
    var q := Of(s.queue, pid);
    if p == pid {
      Regroup(Got(s, p), [q[0]], q[1..]);
      assert [q[0]] + q[1..] == q;
    }
  }

  lemma {:induction false} ReceiveKeeps(s: State, pid: int)
    requires Inv(s) && IsPid(pid) && Of(s.queue, pid) != []
    ensures Inv(Step(s, Receive(pid)))
  {
    OfWithout(s.queue, pid, BROKER_TYPE);
    forall p | IsPid(p) ensures Delivering(Step(s, Receive(pid)), p) {
      assert Delivering(s, p);
      ReceiveDelivers(s, pid, p);
    }
  }

  lemma {:induction false} RouteDelivers(s: State, pid: int)
    requires Unique(s.table) && s.routing.Routing? && Delivering(s, pid)
    ensures Delivering(Route(s), pid)
  {
    RouteOneCopy(s, pid);
    Regroup(Got(s, pid), Of(s.queue, pid), Pending(s, pid));
    Regroup(Got(s, pid), Of(Route(s).queue, pid), Pending(Route(s), pid));
  }

  lemma {:induction false} RouteKeeps(s: State)
    requires Inv(s) && s.routing.Routing?
    ensures Inv(Route(s))
  {
    var r := s.routing;
    if r.next < |s.table| {
      OfAppend(s.queue, Message(s.table[r.next].pid, r.text), BROKER_TYPE);
      assert IsPid(s.table[r.next].pid);
    }
    forall p | IsPid(p) ensures Delivering(Route(s), p) {
      assert Delivering(s, p);
      RouteDelivers(s, p);
    }
  }

  /** What a routing step adds to the queue for pid is what was pending for it. */
  lemma {:induction false} RouteOneCopy(s: State, pid: int)
    requires Unique(s.table) && s.routing.Routing?
    ensures Of(Route(s).queue, pid) + Pending(Route(s), pid) == Of(s.queue, pid) + Pending(s, pid)
  {
    var s', r := Route(s), s.routing;
    if r.next < |s.table| {
      var to := s.table[r.next];
      if to.topic == r.topic {
        OfAppend(s.queue, Message(to.pid, r.text), pid);
        if to.pid == pid {
          assert to == Subscription(pid, r.topic);
          assert Pending(s, pid) == [r.text] && Pending(s', pid) == [];
        }
      }
      if to != Subscription(pid, r.topic) {
        assert Pending(s', pid) == Pending(s, pid);
      }
    }
  }

  lemma {:induction false} TableStepUnique(t: seq<Subscription>, c: Command)
    requires Unique(t) && (c.Subscribe? ==> IsPid(c.pid)) && forall j :: 0 <= j < |t| ==> IsPid(t[j].pid)
    ensures Unique(TableStep(t, c)) && forall j :: 0 <= j < |TableStep(t, c)| ==> IsPid(TableStep(t, c)[j].pid)
  {
    if c.Subscribe? {
      TableStaysUnique(t, Subscription(c.pid, c.topic));
    } else if c.Unsubscribe? {
      var s := Subscription(c.pid, c.topic);
      TableStaysUnique(t, s);
      forall j | 0 <= j < |Removed(t, s)| ensures IsPid(Removed(t, s)[j].pid) {
        assert Removed(t, s)[j] in t;
      }
    }
  }

  lemma {:induction false} ExpectedStep(texts: seq<string>, text: string, pid: int)
    ensures TableAfter(texts + [text]) == TableStep(TableAfter(texts), Parse(text))
    ensures var c := Parse(text);
            Expected(texts + [text], pid) == Expected(texts, pid) +
              if c.Publish? && Subscription(pid, c.topic) in TableAfter(texts)
              then [RoutedText(c.topic, c.payload)] else []
  {
    var all := texts + [text];
    assert all[..|texts|] == texts && all[|texts|] == text;
  }

  lemma {:induction false} HandleDelivers(s: State, text: string, pid: int)
    requires IsPid(pid) && Delivering(s, pid) && s.routing.Idle? && s.table == TableAfter(s.handled)
    requires Of(s.queue, BROKER_TYPE) != []
    ensures Delivering(Handle(s, text), pid)
  {
    OfWithout(s.queue, BROKER_TYPE, pid);
    ExpectedStep(s.handled, text, pid);
    HandlePending(s, text, pid);
    assert Pending(s, pid) == [];
    assert Got(s, pid) + Of(s.queue, pid) + [] == Got(s, pid) + Of(s.queue, pid);
  }

  lemma {:induction false} HandleQueue(s: State)
    requires s.sent == s.handled + Of(s.queue, BROKER_TYPE) && Of(s.queue, BROKER_TYPE) != []
    ensures var s' := Handle(s, Of(s.queue, BROKER_TYPE)[0]);
            s'.sent == s'.handled + Of(s'.queue, BROKER_TYPE) && s.sent[|s.handled|] == Of(s.queue, BROKER_TYPE)[0]
  {
    var q := Of(s.queue, BROKER_TYPE);
    OfWithout(s.queue, BROKER_TYPE, BROKER_TYPE);
    assert s.handled + [q[0]] + q[1..] == s.handled + q;
  }

  lemma {:induction false} HandleKeeps(s: State)
    requires Inv(s) && s.routing.Idle? && Of(s.queue, BROKER_TYPE) != []
    ensures Inv(Handle(s, Of(s.queue, BROKER_TYPE)[0]))
  {
    var text := Of(s.queue, BROKER_TYPE)[0];
    HandleQueue(s);
    assert Harmless(s.sent[|s.handled|]);
    TableStepUnique(s.table, Parse(text));
    ExpectedStep(s.handled, text, BROKER_TYPE);
    forall p | IsPid(p) ensures Delivering(Handle(s, text), p) {
      assert Delivering(s, p);
      HandleDelivers(s, text, p);
    }
  }

  lemma {:induction false} HandlePending(s: State, text: string, pid: int)
    requires s.routing.Idle?
    ensures var c := Parse(text);
            Pending(Handle(s, text), pid) ==
              if c.Publish? && Subscription(pid, c.topic) in s.table then [RoutedText(c.topic, c.payload)] else []
  {
    var c := Parse(text);
    if c.Publish? && Subscription(pid, c.topic) in s.table {
      var j :| 0 <= j < |s.table| && s.table[j] == Subscription(pid, c.topic);
      assert Handle(s, text).table[j] == Subscription(pid, c.topic);
    }
  }

  lemma {:induction false} RequestsHarmless(pid: int, topic: string)
    requires IsPid(pid)
    ensures Harmless(SubscribeText(pid, topic)) && Harmless(UnsubscribeText(pid, topic))
  {
    SubscribeParsed(pid, topic);
    UnsubscribeParsed(pid, topic);
  }

  lemma {:induction false} SendHarmless(pid: int, topic: string, line: string)
    requires IsPid(pid)
    ensures Harmless(SendText(pid, topic, line))
  {
    var text := SendText(pid, topic, line);
    assert text == SEND + text[|SEND|..] by { SendStarts(pid, topic, line); }
    SendVerb(text[|SEND|..], text);
  }

  lemma {:induction false} SendStarts(pid: nat, topic: string, line: string)
    ensures SEND <= SendText(pid, topic, line)
  {
    assert SEND + Decimal(pid) + "," + topic + "," + line == SEND + (Decimal(pid) + "," + topic + "," + line);
  }

  lemma {:induction false} RequestKeeps(s: State, pid: int, topic: string)
    requires Inv(s) && IsPid(pid)
    ensures Inv(Sent(s, SubscribeText(pid, topic))) && Inv(Sent(s, UnsubscribeText(pid, topic)))
  {
    RequestsHarmless(pid, topic);
    SentKeeps(s, SubscribeText(pid, topic));
    SentKeeps(s, UnsubscribeText(pid, topic));
  }

  lemma {:induction false} PostKeeps(s: State, pid: int, topic: string, line: string)
    requires Inv(s) && IsPid(pid)
    ensures Inv(Sent(s, SendText(pid, topic, line)))
  {
    SendHarmless(pid, topic, line);
    SentKeeps(s, SendText(pid, topic, line));
  }

  lemma {:induction false} StepKeeps(s: State, a: Action)
    requires Inv(s)
    ensures Inv(Step(s, a))
  {
    match a {
      case AskFor(pid, topic) => if IsPid(pid) { RequestKeeps(s, pid, topic); }
      case Leave(pid, topic) => if IsPid(pid) { RequestKeeps(s, pid, topic); }
      case Post(pid, topic, line) => if IsPid(pid) { PostKeeps(s, pid, topic, line); }
      case Take => if s.routing.Idle? && Of(s.queue, BROKER_TYPE) != [] { HandleKeeps(s); }
      case RouteOne => if s.routing.Routing? { RouteKeeps(s); }
      case Receive(pid) => if IsPid(pid) && Of(s.queue, pid) != [] { ReceiveKeeps(s, pid); }
    }
  }

  lemma {:induction false} RunInv(schedule: seq<Action>)
    ensures Inv(Run(schedule))
  {
    if schedule == [] {
      assert forall pid :: Delivering(Initial(), pid);
    } else {
      RunInv(schedule[..|schedule| - 1]);
      StepKeeps(Run(schedule[..|schedule| - 1]), schedule[|schedule| - 1]);
    }
  }

  // ----- what every run guarantees -----

  /** The broker handles the texts of all clients in the order they were sent; each subscriber has received a prefix
      of exactly one copy of each publication handled while it was subscribed, in that same order. */
  lemma {:induction false} Delivery(schedule: seq<Action>, pid: int)
    requires IsPid(pid)
    ensures var s := Run(schedule);
            && s.handled <= s.sent
            && s.table == TableAfter(s.handled)
            && Got(s, pid) <= Expected(s.handled, pid)
            && CopiesOf(Expected(s.handled, pid), s.handled, Heard(s.handled, pid))
  {
    RunInv(schedule);
    var s := Run(schedule);
    assert Delivering(s, pid);
    Regroup(Got(s, pid), Of(s.queue, pid), Pending(s, pid));
    ExpectedIsHeard(s.handled, pid);
  }

  /** Two subscribers that both hear publications i and j receive them in the same order. */
  lemma {:induction false} SameOrder(texts: seq<string>, p: int, q: int, k: nat, l: nat, k': nat, l': nat)
    requires k < |Heard(texts, p)| && l < |Heard(texts, p)| && k' < |Heard(texts, q)| && l' < |Heard(texts, q)|
    requires Heard(texts, p)[k] == Heard(texts, q)[k'] && Heard(texts, p)[l] == Heard(texts, q)[l']
    ensures k < l <==> k' < l'
  {
    ExpectedIsHeard(texts, p);
    ExpectedIsHeard(texts, q);
  }

  /** When nothing is left in the queue and nothing is being routed, every subscriber has everything it should have
      heard of all that was ever sent. */
  lemma {:induction false} NothingLost(schedule: seq<Action>, pid: int)
    requires IsPid(pid) && Run(schedule).queue == [] && Run(schedule).routing.Idle?
    ensures Got(Run(schedule), pid) == Expected(Run(schedule).sent, pid)
  {
    RunInv(schedule);
    var s := Run(schedule);
    assert Delivering(s, pid);
    assert s.handled + [] == s.handled && Got(s, pid) + [] + [] == Got(s, pid);
  }

  lemma {:induction false} LogsStep(s: State, a: Action)
    ensures s.sent <= Step(s, a).sent && s.handled <= Step(s, a).handled
  {
  }

  /** Texts are only ever added behind the earlier ones: what was sent or handled first stays first. */
  lemma {:induction false} LogsGrow(schedule: seq<Action>, n: nat)
    requires n <= |schedule|
    ensures Run(schedule[..n]).sent <= Run(schedule).sent && Run(schedule[..n]).handled <= Run(schedule).handled
  {
    if n == |schedule| {
      assert schedule[..n] == schedule;
    } else {
      var init, last := schedule[..|schedule| - 1], schedule[|schedule| - 1];
      assert init[..n] == schedule[..n];
      LogsGrow(init, n);
      LogsStep(Run(init), last);
    }
  }

  // ----- from what the clients do to what the subscribers get -----

  /** A client's action that puts a text into the queue. */
  predicate IsRequest(a: Action) {
    (a.AskFor? || a.Leave? || a.Post?) && IsPid(a.pid)
  }

  /** The requests of a schedule, in order. */
  function Requests(schedule: seq<Action>): seq<Action> {
    if schedule == [] then []
    else
      var n := |schedule| - 1;
      Requests(schedule[..n]) + if IsRequest(schedule[n]) then [schedule[n]] else []
  }

  /** How far the topic of a publication goes: to its first comma, if it has one. */
  function TopicLength(topic: string): (n: nat)
    ensures n <= |topic|
  {
    var c := CommaAt(topic);
    if c.Some? then c.value else |topic|
  }

  /** How many characters of topic, comma and line the publication buffer holds. */
  function RestSize(pid: nat): int {
    511 - |"send,"| - |Decimal(pid)| - 1
  }

  /** What arrives behind the topic of a publication: the line, or more, if the topic has a comma of its own, as far as
      the buffer holds it. */
  function PayloadSent(pid: nat, topic: string, line: string): string {
    var whole := topic + "," + line;
    var from := TopicLength(topic) + 1;
    var to := if RestSize(pid) < |whole| then RestSize(pid) else |whole|;
    if from <= to then whole[from..to] else ""
  }

  /** The command a request stands for. */
  ghost predicate StandsFor(a: Action, c: Command)
    requires IsRequest(a) && |Decimal(a.pid)| <= 10
  {
    match a
    case AskFor(pid, topic) =>
      && (Unspaced(topic) ==> c == Subscribe(pid, Cut(topic)))
      && (var w := ScanWord(Kept("subscribe,", pid, topic));
          c == if w.None? then Ignored else Subscribe(pid, w.value))
    case Leave(pid, topic) =>
      && (Unspaced(topic) ==> c == Unsubscribe(pid, Cut(topic)))
      && (var w := ScanWord(Kept("unsubscribe,", pid, topic));
          c == if w.None? then Ignored else Unsubscribe(pid, w.value))
    case Post(pid, topic, line) =>
      if Carried(pid, topic) then c == Publish(pid, Cut(topic[..TopicLength(topic)]), PayloadSent(pid, topic, line))
      else c == Ignored
    case _ => false
  }

  lemma {:induction false} PostStands(pid: nat, topic: string, line: string)
    requires IsPid(pid)
    ensures |Decimal(pid)| <= 10 && StandsFor(Post(pid, topic, line), Parse(SendText(pid, topic, line)))
  {
    SendTopic(pid, topic, line);
    if Carried(pid, topic) { PostCarried(pid, topic, line); }
  }

  lemma {:induction false} PostCarried(pid: nat, topic: string, line: string)
    requires |Decimal(pid)| <= 10 && Carried(pid, topic)
    ensures Parse(SendText(pid, topic, line))
         == Publish(pid, Cut(topic[..TopicLength(topic)]), PayloadSent(pid, topic, line))
  {
    SendRead(pid, topic, line);
    PublishedRest(pid, topic, line);
  }

  lemma {:induction false} PublishedRest(pid: nat, topic: string, line: string)
    requires |Decimal(pid)| <= 10 && Carried(pid, topic)
    ensures var rest := SendRest(pid, topic, line);
            && CommaAt(rest) == Some(TopicLength(topic))
            && Cut(rest[..TopicLength(topic)]) == Cut(topic[..TopicLength(topic)])
            && rest[TopicLength(topic) + 1..] == PayloadSent(pid, topic, line)
  {
    RestTopic(pid, topic, line);
    TopicEnd(pid, topic, line);
    PayloadRest(pid, topic, line);
    assert topic[..|topic|] == topic;
  }

  lemma {:induction false} PayloadRest(pid: nat, topic: string, line: string)
    requires |Decimal(pid)| <= 10 && Carried(pid, topic)
    ensures TopicLength(topic) < |SendRest(pid, topic, line)|
    ensures SendRest(pid, topic, line)[TopicLength(topic) + 1..] == PayloadSent(pid, topic, line)
  {
    TopicEnd(pid, topic, line);
    var whole := topic + "," + line;
    var n := Least(|whole|, RestSize(pid));
    assert whole[..n][TopicLength(topic) + 1..] == whole[TopicLength(topic) + 1..n];
  }

  lemma {:induction false} AskStands(pid: nat, topic: string)
    requires IsPid(pid)
    ensures |Decimal(pid)| <= 10
    ensures StandsFor(AskFor(pid, topic), Parse(SubscribeText(pid, topic)))
    ensures StandsFor(Leave(pid, topic), Parse(UnsubscribeText(pid, topic)))
  {
    SubscribeParsed(pid, topic);
    UnsubscribeParsed(pid, topic);
    if Unspaced(topic) {
      SubscribedClean(topic, Kept(SUBSCRIBE, pid, topic));
      SubscribedClean(topic, Kept(UNSUBSCRIBE, pid, topic));
    }
  }

  /** A line under a topic without a comma that fits arrives as far as it fits. */
  lemma {:induction false} PlainPayload(pid: nat, topic: string, line: string)
    requires ',' !in topic && Room(pid, topic) >= 0
    ensures PayloadSent(pid, topic, line) == line[..Least(|line|, Room(pid, topic))]
  {
    PrefixPieces(topic, line, RestSize(pid));
    var whole := topic + "," + line;
    var n := Least(|whole|, RestSize(pid));
    assert whole[..n][|topic| + 1..] == whole[|topic| + 1..n];
  }

  lemma {:induction false} StepSends(s: State, a: Action)
    ensures if IsRequest(a) then |Step(s, a).sent| == |s.sent| + 1 && s.sent <= Step(s, a).sent
            else Step(s, a).sent == s.sent
    ensures IsRequest(a) ==>
              var text := Step(s, a).sent[|s.sent|];
              |Decimal(a.pid)| <= 10 && StandsFor(a, Parse(text)) && |text| <= 511
  {
    if IsRequest(a) {
      if a.Post? { PostStands(a.pid, a.topic, a.line); } else { AskStands(a.pid, a.topic); }
    }
  }

  /** The texts put into the queue are, one for one and in order, what the clients' requests stand for. */
  lemma {:induction false} SentAsAsked(schedule: seq<Action>)
    ensures |Run(schedule).sent| == |Requests(schedule)|
    ensures forall i :: 0 <= i < |Requests(schedule)| ==>
              var a := Requests(schedule)[i];
              && IsRequest(a) && |Decimal(a.pid)| <= 10
              && StandsFor(a, Parse(Run(schedule).sent[i])) && |Run(schedule).sent[i]| <= 511
  {
    if schedule != [] {
      var n := |schedule| - 1;
      SentAsAsked(schedule[..n]);
      StepSends(Run(schedule[..n]), schedule[n]);
    }
  }

  /** What a subscriber received, spelled out: the k-th text is that of the k-th publication it hears, bracketed topic,
      blank, payload, exactly as its publisher posted it. */
  lemma {:induction false} ReceivedAsPosted(schedule: seq<Action>, pid: int, k: nat)
    requires IsPid(pid) && k < |Got(Run(schedule), pid)|
    ensures var s := Run(schedule);
            && k < |Heard(s.handled, pid)|
            && var i := Heard(s.handled, pid)[k];
            && i < |s.handled| && i < |Requests(schedule)|
            && var a := Requests(schedule)[i];
            && a.Post? && IsRequest(a)
            && Got(s, pid)[k]
               == "[" + Cut(a.topic[..TopicLength(a.topic)]) + "]: " + PayloadSent(a.pid, a.topic, a.line)
  {
    var s := Run(schedule);
    Delivery(schedule, pid);
    SentAsAsked(schedule);
    var i := Heard(s.handled, pid)[k];
    assert Got(s, pid)[k] == TextFor(s.handled, i);
    HeardAll(s.handled, pid, i);
    assert s.handled[i] == s.sent[i];
    RoutedWhole(s.handled[i]);
  }

  // ----- every run can be brought to rest -----

  /** The steps of broker and subscribers: nobody asks for anything. */
  predicate Internal(a: Action) {
    a.Take? || a.RouteOne? || a.Receive?
  }

  ghost predicate Settled(s: State) {
    s.queue == [] && s.routing.Idle?
  }

  /** Only messages for the broker or for processes are ever queued. */
  ghost predicate Addressed(q: seq<Message>) {
    forall i :: 0 <= i < |q| ==> q[i].mtype == BROKER_TYPE || IsPid(q[i].mtype)
  }

  lemma {:induction false} WithoutFewer(q: seq<Message>, t: int)
    requires Of(q, t) != []
    ensures |Without(q, t)| == |q| - 1 && (Addressed(q) ==> Addressed(Without(q, t)))
  {
    if q[0].mtype != t {
      WithoutFewer(q[1..], t);
      assert Addressed(q) ==> Addressed(q[1..]);
    }
  }

  lemma {:induction false} AddressedStep(s: State, a: Action)
    requires Inv(s) && Addressed(s.queue)
    ensures Addressed(Step(s, a).queue)
  {
    match a {
      case Take => if Of(s.queue, BROKER_TYPE) != [] { WithoutFewer(s.queue, BROKER_TYPE); }
      case Receive(pid) => if Of(s.queue, pid) != [] { WithoutFewer(s.queue, pid); }
      case RouteOne =>
        if s.routing.Routing? && s.routing.next < |s.table| { assert IsPid(s.table[s.routing.next].pid); }
      case _ =>
    }
  }

  lemma {:induction false} AlwaysAddressed(schedule: seq<Action>)
    ensures Addressed(Run(schedule).queue)
  {
    if schedule != [] {
      var n := |schedule| - 1;
      AlwaysAddressed(schedule[..n]);
      RunInv(schedule[..n]);
      AddressedStep(Run(schedule[..n]), schedule[n]);
    }
  }

  /** How much routing is ahead. */
  function Unrouted(s: State): nat {
    if s.routing.Idle? then 0 else if s.routing.next < |s.table| then 1 + |s.table| - s.routing.next else 1
  }

  /** The next internal step and how it lowers what is left to do. */
  function NextInternal(s: State): Action
    requires !Settled(s)
  {
    if s.routing.Routing? then RouteOne
    else if Of(s.queue, BROKER_TYPE) != [] then Take
    else Receive(s.queue[0].mtype)
  }

  ghost predicate Lower(t: State, s: State) {
    || |Of(t.queue, BROKER_TYPE)| < |Of(s.queue, BROKER_TYPE)|
    || (|Of(t.queue, BROKER_TYPE)| == |Of(s.queue, BROKER_TYPE)|
        && (Unrouted(t) < Unrouted(s) || (Unrouted(t) == Unrouted(s) && |t.queue| < |s.queue|)))
  }

  lemma {:induction false} RouteAddsNoRequest(s: State)
    requires s.routing.Routing? && (s.routing.next < |s.table| ==> s.table[s.routing.next].pid != BROKER_TYPE)
    ensures Of(Route(s).queue, BROKER_TYPE) == Of(s.queue, BROKER_TYPE)
  {
    if s.routing.next < |s.table| {
      OfAppend(s.queue, Message(s.table[s.routing.next].pid, s.routing.text), BROKER_TYPE);
    }
  }

  lemma {:induction false} RouteUsesUp(s: State)
    requires s.routing.Routing?
    ensures Unrouted(Route(s)) < Unrouted(s)
  {
  }

  lemma {:induction false} RouteLowers(s: State)
    requires Inv(s) && s.routing.Routing?
    ensures Lower(Step(s, RouteOne), s)
  {
    if s.routing.next < |s.table| { assert IsPid(s.table[s.routing.next].pid); }
    RouteAddsNoRequest(s);
    RouteUsesUp(s);
  }

  lemma {:induction false} ReceiveLowers(s: State)
    requires s.routing.Idle? && s.queue != [] && Of(s.queue, BROKER_TYPE) == [] && Addressed(s.queue)
    ensures Lower(Step(s, Receive(s.queue[0].mtype)), s)
  {
    var pid := s.queue[0].mtype;
    OfWithout(s.queue, pid, BROKER_TYPE);
    WithoutFewer(s.queue, pid);
  }

  lemma {:induction false} NextLowers(s: State)
    requires Inv(s) && Addressed(s.queue) && !Settled(s)
    ensures Internal(NextInternal(s)) && Lower(Step(s, NextInternal(s)), s) && Step(s, NextInternal(s)).sent == s.sent
  {
    if s.routing.Routing? {
      RouteLowers(s);
    } else if Of(s.queue, BROKER_TYPE) != [] {
      OfWithout(s.queue, BROKER_TYPE, BROKER_TYPE);
    } else {
      ReceiveLowers(s);
    }
  }

  lemma {:induction false} NextInRun(schedule: seq<Action>) returns (a: Action)
    requires !Settled(Run(schedule))
    ensures Internal(a) && Lower(Run(schedule + [a]), Run(schedule)) && Run(schedule + [a]).sent == Run(schedule).sent
  {
    RunInv(schedule);
    AlwaysAddressed(schedule);
    NextLowers(Run(schedule));
    a := NextInternal(Run(schedule));
    assert (schedule + [a])[..|schedule|] == schedule;
  }

  lemma {:induction false} Onwards(schedule: seq<Action>, a: Action, rest: seq<Action>)
    ensures schedule + [a] + rest == schedule + ([a] + rest)
  {
  }

  lemma {:induction false} Settle(schedule: seq<Action>) returns (more: seq<Action>)
    ensures forall i :: 0 <= i < |more| ==> Internal(more[i])
    ensures Settled(Run(schedule + more)) && Run(schedule + more).sent == Run(schedule).sent
    decreases |Of(Run(schedule).queue, BROKER_TYPE)|, Unrouted(Run(schedule)), |Run(schedule).queue|
  {
    if Settled(Run(schedule)) {
      more := [];
      assert schedule + more == schedule;
    } else {
      var a := NextInRun(schedule);
      var rest := Settle(schedule + [a]);
      more := [a] + rest;
      Onwards(schedule, a, rest);
    }
  }

  /** From every state of every run broker and subscribers can go on, with nobody asking for anything more, until the
      queue is empty, and then every subscriber has received everything it should have heard. */
  lemma {:induction false} CanAlwaysSettle(schedule: seq<Action>) returns (more: seq<Action>)
    ensures forall i :: 0 <= i < |more| ==> Internal(more[i])
    ensures Settled(Run(schedule + more))
    ensures forall pid :: IsPid(pid) ==> Got(Run(schedule + more), pid) == Expected(Run(schedule).sent, pid)
  {
    more := Settle(schedule);
    forall pid | IsPid(pid) ensures Got(Run(schedule + more), pid) == Expected(Run(schedule).sent, pid) {
      NothingLost(schedule + more, pid);
    }
  }
}
