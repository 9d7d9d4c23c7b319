/** Two chat processes, each with an input thread and a receiving thread, over two bounded priority queues, in every
    interleaving; an exit message overtakes ordinary ones. */
module ChatRuns {

  const MAX_MESSAGES := 10
  const CHAT_PRIORITY := 1
  const EXIT_PRIORITY := 255
  const EXIT_COMMAND := "/exit"

  datatype Message = Message(priority: nat, text: string)

  /** The input thread: loop test, fgets, the send, the decision after the loop, the exit message, the cancellation. */
  datatype Input = ITop | IRead | ISend(text: string) | IAfter | IExit | ICancel | IEnd

  /** The receiving thread: mq_receive, what it does with the message, and the two flags it sets one after the other. */
  datatype Receiver = RWait | RGot(message: Message) | RFlag | RDone

  /** exitFlag and peerExited are the program's flags; own records whether the process itself ever raised its exit flag
      (end of input, the exit command, SIGINT); sent and shown are all it sent and all it printed of its peer. */
  datatype Process = Process(input: Input, receiver: Receiver, exitFlag: bool, peerExited: bool, own: bool,
                             sent: seq<Message>, shown: seq<string>)

  datatype Side = A | B

  function Peer(x: Side): Side {
    if x == A then B else A
  }

  /** The queues are named after the side that receives from them. */
  datatype State = State(a: Process, b: Process, toA: seq<Message>, toB: seq<Message>) {
    function Of(x: Side): Process {
      if x == A then a else b
    }

    function To(x: Side): seq<Message> {
      if x == A then toA else toB
    }

    function With(x: Side, p: Process): State {
      if x == A then this.(a := p) else this.(b := p)
    }

    function WithTo(x: Side, q: seq<Message>): State {
      if x == A then this.(toA := q) else this.(toB := q)
    }
  }

  /** What a blocking call of the input thread comes back with: a line, no line, or a signal. */
  datatype Event = Line(text: string) | NoLine | Signal

  datatype Action =
    | InputStep(x: Side, event: Event) | ReceiverStep(x: Side) | Interrupt(x: Side) | InterruptReceiver(x: Side)

  function Fresh(): Process {
    Process(ITop, RWait, false, false, false, [], [])
  }

  function Initial(): State {
    State(Fresh(), Fresh(), [], [])
  }

  // ----- the priority queue -----

  /** mq_receive: the oldest among the messages of the highest priority. */
  function First(q: seq<Message>): (i: nat)
    requires q != []
    ensures i < |q|
    ensures forall j :: 0 <= j < |q| ==> q[j].priority <= q[i].priority
    ensures forall j :: 0 <= j < i ==> q[j].priority < q[i].priority
  {
    if |q| == 1 then 0
    else
      var i := First(q[..|q| - 1]);
      if q[|q| - 1].priority > q[i].priority then |q| - 1 else i
  }

  function Without(q: seq<Message>, i: nat): seq<Message>
    requires i < |q|
  {
    q[..i] + q[i + 1..]
  }

  // ----- steps -----

  function Emit(s: State, x: Side, m: Message, next: Input): State {
    var p := s.Of(x);
    s.With(x, p.(input := next, sent := p.sent + [m])).WithTo(Peer(x), s.To(Peer(x)) + [m])
  }

  function Raise(p: Process, next: Input): Process {
    p.(exitFlag := true, own := true, input := next)
  }

  /** The steps of the input thread that send nothing. */
  function Local(p: Process, event: Event): Process
    requires !p.input.ISend? && !p.input.IExit?
  {
    match p.input
    case ITop => p.(input := if p.exitFlag then IAfter else IRead)
    case IRead =>
      if event.Line? then
        if event.text == EXIT_COMMAND then Raise(p, IAfter)
        else if event.text == "" then p.(input := ITop)
        else p.(input := ISend(event.text))
      else if p.exitFlag then p.(input := IAfter)
      else Raise(p, IAfter)
    case IAfter => p.(input := if p.exitFlag && !p.peerExited then IExit else ICancel)
    case ICancel => p.(input := IEnd, receiver := RDone)
    case IEnd => p
  }

  /** mq_send blocks while the queue is full and gives up when a signal comes. */
  function Send(s: State, x: Side, m: Message, next: Input, event: Event): State {
    if |s.To(Peer(x))| < MAX_MESSAGES then Emit(s, x, m, next)
    else if event.Signal? then s.With(x, s.Of(x).(input := next))
    else s
  }

  function InputMove(s: State, x: Side, event: Event): State {
    match s.Of(x).input
    case ISend(text) => Send(s, x, Message(CHAT_PRIORITY, text), ITop, event)
    case IExit => Send(s, x, Message(EXIT_PRIORITY, "EXIT"), ICancel, event)
    case _ => s.With(x, Local(s.Of(x), event))
  }

  function ReceiverMove(s: State, x: Side): State {
    var p := s.Of(x);
    match p.receiver
    case RWait =>
      if s.To(x) == [] then s
      else
        var i := First(s.To(x));
        s.With(x, p.(receiver := RGot(s.To(x)[i]))).WithTo(x, Without(s.To(x), i))
    case RGot(m) =>
      if m.priority == EXIT_PRIORITY then s.With(x, p.(receiver := RFlag, peerExited := true))
      else s.With(x, p.(receiver := RWait, shown := p.shown + [m.text]))
    case RFlag => s.With(x, p.(receiver := RDone, exitFlag := true))
    case RDone => s
  }

  /** A process whose SIGINT its receiving thread gets: the handler raises the flag, and a thread that was waiting for a
      message finds its call failed and ends. */
  function Interrupted(p: Process): Process {
    p.(exitFlag := true, own := true, receiver := if p.receiver.RWait? then RDone else p.receiver)
  }

  /** SIGINT may come at any time, to either thread. */
  function Step(s: State, a: Action): State {
    match a
    case InputStep(x, event) => InputMove(s, x, event)
    case ReceiverStep(x) => ReceiverMove(s, x)
    case Interrupt(x) => s.With(x, s.Of(x).(exitFlag := true, own := true))
    case InterruptReceiver(x) => s.With(x, Interrupted(s.Of(x)))
  }

  function Run(schedule: seq<Action>): State {
    if schedule == [] then Initial() else Step(Run(schedule[..|schedule| - 1]), schedule[|schedule| - 1])
  }

  // ----- the invariant of one direction -----

  /** The texts of the ordinary messages. */
  function Chats(q: seq<Message>): seq<string> {
    if q == [] then []
    else Chats(q[..|q| - 1]) + if q[|q| - 1].priority == EXIT_PRIORITY then [] else [q[|q| - 1].text]
  }

  lemma {:induction false} ChatsAppend(q: seq<Message>, m: Message)
    ensures Chats(q + [m]) == Chats(q) + if m.priority == EXIT_PRIORITY then [] else [m.text]
  {
    assert (q + [m])[..|q|] == q;
  }

  lemma {:induction false} ChatsConcat(q: seq<Message>, r: seq<Message>)
    ensures Chats(q + r) == Chats(q) + Chats(r)
  {
    if r == [] {
      assert q + r == q;
    } else {
      var n := |r| - 1;
      assert (q + r)[..|q + r| - 1] == q + r[..n];
      ChatsConcat(q, r[..n]);
    }
  }

  predicate Ordinary(m: Message) {
    m.priority == EXIT_PRIORITY || m.priority == CHAT_PRIORITY
  }

  lemma {:induction false} Around(q: seq<Message>, i: nat)
    requires i < |q|
    ensures Chats(q) == Chats(q[..i]) + Chats([q[i]]) + Chats(q[i + 1..])
  {
    assert q == q[..i] + [q[i]] + q[i + 1..];
    ChatsConcat(q[..i] + [q[i]], q[i + 1..]);
    ChatsConcat(q[..i], [q[i]]);
  }

  lemma {:induction false} ChatsOne(m: Message)
    ensures Chats([m]) == if m.priority == EXIT_PRIORITY then [] else [m.text]
  {
    ChatsAppend([], m);
    assert [] + [m] == [m];
  }

  /** Taking an exit message leaves the ordinary ones. */
  lemma {:induction false} TakeExit(q: seq<Message>, i: nat)
    requires i < |q| && q[i].priority == EXIT_PRIORITY
    ensures Chats(q) == Chats(Without(q, i))
  {
    Around(q, i);
    ChatsOne(q[i]);
    ChatsConcat(q[..i], q[i + 1..]);
    assert Chats(q[..i]) + [] == Chats(q[..i]);
  }

  /** Taking an ordinary one takes the oldest. */
  lemma {:induction false} TakeChat(q: seq<Message>)
    requires q != [] && forall i :: 0 <= i < |q| ==> Ordinary(q[i])
    requires q[First(q)].priority != EXIT_PRIORITY
    ensures First(q) == 0 && Chats(q) == [q[0].text] + Chats(Without(q, 0))
  {
    var i := First(q);
    assert Ordinary(q[i]) && Ordinary(q[0]);
    assert i == 0;
    assert q == [q[0]] + q[1..];
    ChatsConcat([q[0]], q[1..]);
    ChatsOne(q[0]);
    assert Without(q, 0) == q[1..];
  }

  /** The ordinary message in the receiving thread's hands. */
  function InHand(r: Receiver): seq<string> {
    if r.RGot? && r.message.priority != EXIT_PRIORITY then [r.message.text] else []
  }

  /** While the receiving thread runs, what it showed, holds and has yet to receive is what the peer sent, in order. */
  ghost predicate Delivered(sender: Process, receiver: Process, queue: seq<Message>) {
    && receiver.shown <= Chats(sender.sent)
    && (!receiver.receiver.RDone? ==> receiver.shown + InHand(receiver.receiver) + Chats(queue) == Chats(sender.sent))
  }

  predicate HasExit(ms: seq<Message>) {
    exists i :: 0 <= i < |ms| && ms[i].priority == EXIT_PRIORITY
  }

  /** At most one exit message, and nothing behind it. */
  ghost predicate ExitLast(ms: seq<Message>) {
    forall i :: 0 <= i < |ms| - 1 ==> ms[i].priority != EXIT_PRIORITY
  }

  ghost predicate ProcessOK(p: Process) {
    && ExitLast(p.sent)
    && (HasExit(p.sent) ==> (p.input.ICancel? || p.input.IEnd?) && p.own)
    && (p.exitFlag ==> p.own || p.peerExited)
    && (p.receiver.RFlag? ==> p.peerExited)
    && (p.input.IAfter? ==> p.exitFlag)
    && (p.input.IExit? ==> p.own)
    && (p.input.IEnd? ==> p.receiver.RDone?)
  }

  ghost predicate QueueOK(q: seq<Message>) {
    |q| <= MAX_MESSAGES && forall i :: 0 <= i < |q| ==> Ordinary(q[i])
  }

  /** What holds of the side x and of the messages on their way to it. */
  ghost predicate SideOK(s: State, x: Side) {
    ProcessOK(s.Of(x)) && QueueOK(s.To(x)) && Delivered(s.Of(Peer(x)), s.Of(x), s.To(x))
  }

  ghost predicate Inv(s: State) {
    SideOK(s, A) && SideOK(s, B)
  }

  /** A move that sends nothing and shows nothing, and at most ends the receiving thread. */
  lemma {:induction false} QuietKeeps(s: State, x: Side, p: Process)
    requires Inv(s) && ProcessOK(p)
    requires p.sent == s.Of(x).sent && p.shown == s.Of(x).shown
    requires p.receiver.RDone? || (InHand(p.receiver) == InHand(s.Of(x).receiver) && !s.Of(x).receiver.RDone?)
             || p.receiver == s.Of(x).receiver
    ensures Inv(s.With(x, p))
  {
  }

  lemma {:induction false} EmitDelivered(sender: Process, receiver: Process, queue: seq<Message>, m: Message,
                                         next: Input)
    requires Delivered(sender, receiver, queue)
    ensures Delivered(sender.(input := next, sent := sender.sent + [m]), receiver, queue + [m])
  {
    ChatsAppend(sender.sent, m);
    ChatsAppend(queue, m);
    var tail := if m.priority == EXIT_PRIORITY then [] else [m.text];
    var front := receiver.shown + InHand(receiver.receiver);
    assert front + Chats(queue) + tail == front + (Chats(queue) + tail);
  }

  lemma {:induction false} EmitOK(p: Process, m: Message, next: Input)
    requires ProcessOK(p) && !HasExit(p.sent) && !next.IAfter? && !next.IExit? && !next.IEnd? && !p.input.IEnd?
    requires m.priority == EXIT_PRIORITY ==> p.own && next.ICancel?
    ensures ProcessOK(p.(input := next, sent := p.sent + [m]))
  {
    var sent := p.sent + [m];
    assert forall i :: 0 <= i < |p.sent| ==> sent[i] == p.sent[i];
    assert sent[|p.sent|] == m;
    assert ExitLast(sent);
  }

  lemma {:induction false} EmitKeeps(s: State, x: Side, m: Message, next: Input)
    requires Inv(s) && Ordinary(m) && |s.To(Peer(x))| < MAX_MESSAGES
    requires ProcessOK(s.Of(x).(input := next, sent := s.Of(x).sent + [m]))
    ensures Inv(Emit(s, x, m, next))
  {
    var s' := Emit(s, x, m, next);
    EmitDelivered(s.Of(x), s.Of(Peer(x)), s.To(Peer(x)), m, next);
    QueueGrows(s.To(Peer(x)), m);
    assert SideOK(s', x) && SideOK(s', Peer(x));
  }

  lemma {:induction false} QueueGrows(q: seq<Message>, m: Message)
    requires QueueOK(q) && |q| < MAX_MESSAGES && Ordinary(m)
    ensures QueueOK(q + [m])
  {
  }

  lemma {:induction false} SendKeeps(s: State, x: Side, m: Message, next: Input, event: Event)
    requires Inv(s) && Ordinary(m) && !HasExit(s.Of(x).sent) && !s.Of(x).input.IEnd?
    requires next.ITop? || next.ICancel?
    requires m.priority == EXIT_PRIORITY ==> s.Of(x).own && next.ICancel?
    ensures Inv(Send(s, x, m, next, event))
  {
    if |s.To(Peer(x))| < MAX_MESSAGES {
      EmitOK(s.Of(x), m, next);
      EmitKeeps(s, x, m, next);
    } else if event.Signal? {
      QuietKeeps(s, x, s.Of(x).(input := next));
    }
  }

  lemma {:induction false} LocalOK(p: Process, event: Event)
    requires ProcessOK(p) && !p.input.ISend? && !p.input.IExit?
    ensures ProcessOK(Local(p, event))
  {
  }

  /** The input thread leaves the receiving thread alone, except for ending it. */
  lemma {:induction false} LocalSpares(p: Process, event: Event)
    requires !p.input.ISend? && !p.input.IExit?
    ensures var after := Local(p, event);
            after.sent == p.sent && after.shown == p.shown && (after.receiver == p.receiver || after.receiver.RDone?)
  {
  }

  lemma {:induction false} LocalKeeps(s: State, x: Side, event: Event)
    requires Inv(s) && !s.Of(x).input.ISend? && !s.Of(x).input.IExit?
    ensures Inv(s.With(x, Local(s.Of(x), event)))
  {
    var p, after := s.Of(x), Local(s.Of(x), event);
    LocalOK(p, event);
    LocalSpares(p, event);
    QuietKeeps(s, x, after);
  }

  lemma {:induction false} InputKeeps(s: State, x: Side, event: Event)
    requires Inv(s)
    ensures Inv(InputMove(s, x, event))
  {
    var p := s.Of(x);
    if p.input.ISend? {
      SendKeeps(s, x, Message(CHAT_PRIORITY, p.input.text), ITop, event);
    } else if p.input.IExit? {
      SendKeeps(s, x, Message(EXIT_PRIORITY, "EXIT"), ICancel, event);
    } else {
      LocalKeeps(s, x, event);
    }
  }

  lemma {:induction false} Regroup(a: seq<string>, b: seq<string>, c: seq<string>)
    ensures a + [] + (b + c) == a + b + c
  {
  }

  lemma {:induction false} ReceiveDelivered(sender: Process, receiver: Process, queue: seq<Message>)
    requires Delivered(sender, receiver, queue) && receiver.receiver.RWait? && queue != [] && QueueOK(queue)
    ensures Delivered(sender, receiver.(receiver := RGot(queue[First(queue)])), Without(queue, First(queue)))
  {
    var i := First(queue);
    var m, rest := queue[i], Chats(Without(queue, i));
    if m.priority == EXIT_PRIORITY { TakeExit(queue, i); } else { TakeChat(queue); }
    assert Chats(queue) == InHand(RGot(m)) + rest;
    Regroup(receiver.shown, InHand(RGot(m)), rest);
  }

  lemma {:induction false} ShowDelivered(sender: Process, receiver: Process, queue: seq<Message>)
    requires Delivered(sender, receiver, queue) && receiver.receiver.RGot?
             && receiver.receiver.message.priority != EXIT_PRIORITY
    ensures var shown := receiver.shown + [receiver.receiver.message.text];
            Delivered(sender, receiver.(receiver := RWait, shown := shown), queue)
  {
    var shown := receiver.shown + [receiver.receiver.message.text];
    assert shown + [] + Chats(queue) == shown + Chats(queue);
    assert shown <= Chats(sender.sent);
  }

  lemma {:induction false} WaitKeeps(s: State, x: Side)
    requires Inv(s) && s.Of(x).receiver.RWait? && s.To(x) != []
    ensures Inv(ReceiverMove(s, x))
  {
    var i := First(s.To(x));
    ReceiveDelivered(s.Of(Peer(x)), s.Of(x), s.To(x));
    assert QueueOK(Without(s.To(x), i));
    var p := s.Of(x).(receiver := RGot(s.To(x)[i]));
    assert ProcessOK(p);
    assert ReceiverMove(s, x) == s.With(x, p).WithTo(x, Without(s.To(x), i));
  }

  lemma {:induction false} ShowKeeps(s: State, x: Side)
    requires Inv(s) && s.Of(x).receiver.RGot? && s.Of(x).receiver.message.priority != EXIT_PRIORITY
    ensures Inv(ReceiverMove(s, x))
  {
    var p := s.Of(x);
    ShowDelivered(s.Of(Peer(x)), p, s.To(x));
    assert ProcessOK(p.(receiver := RWait, shown := p.shown + [p.receiver.message.text]));
  }

  lemma {:induction false} ReceiverKeeps(s: State, x: Side)
    requires Inv(s)
    ensures Inv(ReceiverMove(s, x))
  {
    var p := s.Of(x);
    if p.receiver.RWait? && s.To(x) != [] {
      WaitKeeps(s, x);
    } else if p.receiver.RGot? && p.receiver.message.priority != EXIT_PRIORITY {
      ShowKeeps(s, x);
    } else {
      var after := ReceiverMove(s, x);
      assert after == s.With(x, after.Of(x));
      QuietKeeps(s, x, after.Of(x));
    }
  }

  lemma {:induction false} StepKeeps(s: State, a: Action)
    requires Inv(s)
    ensures Inv(Step(s, a))
  {
    match a {
      case InputStep(x, event) => InputKeeps(s, x, event);
      case ReceiverStep(x) => ReceiverKeeps(s, x);
      case Interrupt(x) => QuietKeeps(s, x, s.Of(x).(exitFlag := true, own := true));
      case InterruptReceiver(x) => QuietKeeps(s, x, Interrupted(s.Of(x)));
    }
  }

  lemma {:induction false} RunInv(schedule: seq<Action>)
    ensures Inv(Run(schedule))
  {
    if schedule != [] {
      RunInv(schedule[..|schedule| - 1]);
      StepKeeps(Run(schedule[..|schedule| - 1]), schedule[|schedule| - 1]);
    }
  }

  // ----- what every run guarantees -----

  /** What one side shows is a prefix of what the other sent, in order; each sends at most one exit message and
      nothing after it, and none unless it raised its exit flag itself. */
  lemma {:induction false} ShownIsPrefix(schedule: seq<Action>, x: Side)
    ensures var s := Run(schedule);
            && s.Of(x).shown <= Chats(s.Of(Peer(x)).sent)
            && ExitLast(s.Of(x).sent)
            && (HasExit(s.Of(x).sent) ==> s.Of(x).own)
            && |s.To(x)| <= MAX_MESSAGES
  {
    RunInv(schedule);
  }

  /** While its receiving thread waits on an empty queue, a side has shown everything the other sent. */
  lemma {:induction false} NothingLost(schedule: seq<Action>, x: Side)
    requires Run(schedule).Of(x).receiver.RWait? && Run(schedule).To(x) == []
    ensures Run(schedule).Of(x).shown == Chats(Run(schedule).Of(Peer(x)).sent)
  {
    RunInv(schedule);
    var s := Run(schedule);
    assert s.Of(x).shown + [] + [] == s.Of(x).shown;
  }

  /** The receiving thread has an exit message, or is past it. */
  predicate ExitReceived(r: Receiver) {
    r.RDone? || r.RFlag? || (r.RGot? && r.message.priority == EXIT_PRIORITY)
  }

  /** A step of one side leaves what the other side sent, shows and holds as it was. */
  lemma {:induction false} StepFrame(s: State, a: Action, x: Side)
    requires a.x != x
    ensures Step(s, a).Of(x) == s.Of(x)
  {
  }

  lemma {:induction false} InputShows(s: State, x: Side, event: Event)
    ensures InputMove(s, x, event).Of(x).shown == s.Of(x).shown
    ensures InputMove(s, x, event).Of(x).receiver == s.Of(x).receiver || InputMove(s, x, event).Of(x).receiver.RDone?
  {
    var p := s.Of(x);
    if !p.input.ISend? && !p.input.IExit? { LocalSpares(p, event); }
  }

  lemma {:induction false} ShownStep(s: State, a: Action, x: Side)
    requires ExitReceived(s.Of(x).receiver)
    ensures ExitReceived(Step(s, a).Of(x).receiver) && Step(s, a).Of(x).shown == s.Of(x).shown
  {
    if a.x != x {
      StepFrame(s, a, x);
    } else if a.InputStep? {
      InputShows(s, x, a.event);
    }
  }

  /** Once, after n steps of a run, an exit message was received or the thread ended, nothing more is shown in the rest
      of the run. */
  lemma {:induction false} NothingShownAfterExit(schedule: seq<Action>, n: nat, x: Side)
    requires n <= |schedule| && ExitReceived(Run(schedule[..n]).Of(x).receiver)
    ensures ExitReceived(Run(schedule).Of(x).receiver)
    ensures Run(schedule).Of(x).shown == Run(schedule[..n]).Of(x).shown
  {
    if n == |schedule| {
      assert schedule[..n] == schedule;
    } else {
      var init, last := schedule[..|schedule| - 1], schedule[|schedule| - 1];
      assert init[..n] == schedule[..n];
      NothingShownAfterExit(init, n, x);
      ShownStep(Run(init), last, x);
    }
  }

  lemma {:induction false} SentStep(s: State, a: Action, x: Side)
    requires Inv(s) && HasExit(s.Of(x).sent)
    ensures Step(s, a).Of(x).sent == s.Of(x).sent
  {
    if a.x != x { StepFrame(s, a, x); }
  }

  /** Once, after n steps of a run, an exit message was sent, nothing more is sent in the rest of the run. */
  lemma {:induction false} NothingSentAfterExit(schedule: seq<Action>, n: nat, x: Side)
    requires n <= |schedule| && HasExit(Run(schedule[..n]).Of(x).sent)
    ensures Run(schedule).Of(x).sent == Run(schedule[..n]).Of(x).sent
  {
    if n == |schedule| {
      assert schedule[..n] == schedule;
    } else {
      var init, last := schedule[..|schedule| - 1], schedule[|schedule| - 1];
      assert init[..n] == schedule[..n];
      NothingSentAfterExit(init, n, x);
      RunInv(init);
      SentStep(Run(init), last, x);
    }
  }

  /** A process that only learned of its peer's exit, and never raised its own flag, answers with no exit message. */
  lemma {:induction false} NoAnswerToExit(schedule: seq<Action>, x: Side)
    requires !Run(schedule).Of(x).own
    ensures !HasExit(Run(schedule).Of(x).sent)
  {
    RunInv(schedule);
  }

  /** The exit message overtakes: whenever one is queued, it is what is received next. */
  lemma {:induction false} ExitOvertakes(schedule: seq<Action>, x: Side)
    requires Run(schedule).Of(x).receiver.RWait? && HasExit(Run(schedule).To(x))
    ensures ReceiverMove(Run(schedule), x).Of(x).receiver.RGot?
    ensures ReceiverMove(Run(schedule), x).Of(x).receiver.message.priority == EXIT_PRIORITY
  {
    RunInv(schedule);
  }
}
