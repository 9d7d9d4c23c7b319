/** From what is typed to what the other side shows: the lines entered, those given up, the leaving of a chat. */
module ChatLines {
  import opened ChatRuns

  /** The input thread of x reads an ordinary line. */
  predicate Enters(s: State, a: Action, x: Side) {
    && a.InputStep? && a.x == x && a.event.Line? && s.Of(x).input.IRead?
    && a.event.text != "" && a.event.text != "/exit"
  }

  /** It gives up sending a line: a signal comes while the queue is full. */
  predicate GivesUp(s: State, a: Action, x: Side) {
    a.InputStep? && a.x == x && a.event.Signal? && s.Of(x).input.ISend? && |s.To(Peer(x))| >= 10
  }

  /** The lines x's input thread read that are neither empty nor the exit command, in order. */
  function Entered(schedule: seq<Action>, x: Side): seq<string> {
    if schedule == [] then []
    else
      var n := |schedule| - 1;
      Entered(schedule[..n], x)
      + if Enters(Run(schedule[..n]), schedule[n], x) then [schedule[n].event.text] else []
  }

  /** The positions among these of the lines given up. */
  function GivenUp(schedule: seq<Action>, x: Side): set<int> {
    if schedule == [] then {}
    else
      var n := |schedule| - 1;
      GivenUp(schedule[..n], x)
      + if GivesUp(Run(schedule[..n]), schedule[n], x) then {|Entered(schedule[..n], x)| - 1} else {}
  }

  function Except(lines: seq<string>, gone: set<int>): seq<string> {
    if lines == [] then []
    else
      var n := |lines| - 1;
      Except(lines[..n], gone) + if n in gone then [] else [lines[n]]
  }

  /** The line the input thread is about to send. */
  function Pending(i: Input): seq<string> {
    if i.ISend? then [i.text] else []
  }

  lemma {:induction false} ExceptLess(lines: seq<string>, gone: set<int>, k: int)
    requires k >= |lines|
    ensures Except(lines, gone + {k}) == Except(lines, gone)
  {
    if lines != [] { ExceptLess(lines[..|lines| - 1], gone, k); }
  }

  lemma {:induction false} ExceptNone(lines: seq<string>)
    ensures Except(lines, {}) == lines
  {
    if lines != [] { ExceptNone(lines[..|lines| - 1]); }
  }

  ghost predicate Accounted(s: State, x: Side, entered: seq<string>, gone: set<int>) {
    && (forall k :: k in gone ==> 0 <= k < |entered|)
    && Chats(s.Of(x).sent) + Pending(s.Of(x).input) == Except(entered, gone)
    && (s.Of(x).input.ISend? ==> entered != [] && |entered| - 1 !in gone)
  }

  lemma {:induction false} EnterAccounted(s: State, a: Action, x: Side, entered: seq<string>, gone: set<int>)
    requires Accounted(s, x, entered, gone) && Enters(s, a, x)
    ensures Accounted(Step(s, a), x, entered + [a.event.text], gone)
  {
    var longer := entered + [a.event.text];
    assert longer[..|longer| - 1] == entered;
    assert |entered| !in gone;
    assert Step(s, a).Of(x).input == ISend(a.event.text) && Step(s, a).Of(x).sent == s.Of(x).sent;
    assert Chats(s.Of(x).sent) + [] == Chats(s.Of(x).sent);
  }

  lemma {:induction false} GiveUpAccounted(s: State, a: Action, x: Side, entered: seq<string>, gone: set<int>)
    requires Accounted(s, x, entered, gone) && GivesUp(s, a, x)
    ensures Accounted(Step(s, a), x, entered, gone + {|entered| - 1})
  {
    var n := |entered| - 1;
    ExceptLess(entered[..n], gone, n);
    var sent, text := Chats(s.Of(x).sent), s.Of(x).input.text;
    assert Except(entered, gone) == Except(entered[..n], gone) + [entered[n]];
    SameFront(sent, text, Except(entered[..n], gone), entered[n]);
    assert Step(s, a).Of(x).input == ITop && Step(s, a).Of(x).sent == s.Of(x).sent;
    assert sent + [] == sent;
  }

  lemma {:induction false} SameFront(a: seq<string>, x: string, b: seq<string>, y: string)
    requires a + [x] == b + [y]
    ensures a == b && x == y
  {
    assert |a| == |b|;
    assert (a + [x])[..|a|] == a && (b + [y])[..|a|] == b;
    assert (a + [x])[|a|] == x && (b + [y])[|b|] == y;
  }

  lemma {:induction false} SendAccounted(s: State, event: Event, x: Side, entered: seq<string>, gone: set<int>)
    requires Accounted(s, x, entered, gone) && !GivesUp(s, InputStep(x, event), x)
    requires s.Of(x).input.ISend? || s.Of(x).input.IExit?
    ensures Accounted(InputMove(s, x, event), x, entered, gone)
  {
    var p := s.Of(x);
    if |s.To(Peer(x))| < MAX_MESSAGES {
      var m := if p.input.ISend? then Message(CHAT_PRIORITY, p.input.text) else Message(EXIT_PRIORITY, "EXIT");
      ChatsAppend(p.sent, m);
      assert InputMove(s, x, event).Of(x).sent == p.sent + [m];
      assert Chats(p.sent) + [] + [] == Chats(p.sent) + [] && Chats(p.sent + [m]) + [] == Chats(p.sent + [m]);
    }
  }

  lemma {:induction false} LocalAccounted(s: State, event: Event, x: Side, entered: seq<string>, gone: set<int>)
    requires Accounted(s, x, entered, gone) && !Enters(s, InputStep(x, event), x)
    requires !s.Of(x).input.ISend? && !s.Of(x).input.IExit?
    ensures Accounted(InputMove(s, x, event), x, entered, gone)
  {
    var p := s.Of(x);
    LocalSpares(p, event);
    assert !Local(p, event).input.ISend?;
    assert InputMove(s, x, event).Of(x) == Local(p, event);
  }

  lemma {:induction false} OtherAccounted(s: State, a: Action, x: Side, entered: seq<string>, gone: set<int>)
    requires Accounted(s, x, entered, gone) && (!a.InputStep? || a.x != x)
    ensures Accounted(Step(s, a), x, entered, gone)
  {
    if a.x != x {
      StepFrame(s, a, x);
    } else {
      assert Step(s, a).Of(x).sent == s.Of(x).sent && Step(s, a).Of(x).input == s.Of(x).input;
    }
  }

  lemma {:induction false} StepAccounted(s: State, a: Action, x: Side, entered: seq<string>, gone: set<int>)
    requires Accounted(s, x, entered, gone) && !Enters(s, a, x) && !GivesUp(s, a, x)
    ensures Accounted(Step(s, a), x, entered, gone)
  {
    if !a.InputStep? || a.x != x {
      OtherAccounted(s, a, x, entered, gone);
    } else if s.Of(x).input.ISend? || s.Of(x).input.IExit? {
      SendAccounted(s, a.event, x, entered, gone);
    } else {
      LocalAccounted(s, a.event, x, entered, gone);
    }
  }

  lemma {:induction false} AllAccounted(schedule: seq<Action>, x: Side)
    ensures Accounted(Run(schedule), x, Entered(schedule, x), GivenUp(schedule, x))
  {
    if schedule != [] {
      var n := |schedule| - 1;
      var s, a := Run(schedule[..n]), schedule[n];
      var entered, gone := Entered(schedule[..n], x), GivenUp(schedule[..n], x);
      AllAccounted(schedule[..n], x);
      if Enters(s, a, x) {
        EnterAccounted(s, a, x, entered, gone);
        assert gone + {} == gone;
      } else if GivesUp(s, a, x) {
        GiveUpAccounted(s, a, x, entered, gone);
        assert entered + [] == entered;
      } else {
        StepAccounted(s, a, x, entered, gone);
        assert entered + [] == entered && gone + {} == gone;
      }
    }
  }

  /** What a side sent, followed by a line it is about to send, is exactly what was entered, in order, without the lines
      given up; if no signal ever came at a full queue, it is exactly what was entered. */
  lemma {:induction false} SentAsEntered(schedule: seq<Action>, x: Side)
    ensures var p := Run(schedule).Of(x);
            && Chats(p.sent) + Pending(p.input) == Except(Entered(schedule, x), GivenUp(schedule, x))
            && (GivenUp(schedule, x) == {} ==> Chats(p.sent) + Pending(p.input) == Entered(schedule, x))
  {
    AllAccounted(schedule, x);
    ExceptNone(Entered(schedule, x));
  }

  /** So what a side shows is a prefix of what was entered at the other one, without the lines given up there. */
  lemma {:induction false} ShownAsEntered(schedule: seq<Action>, x: Side)
    ensures Run(schedule).Of(x).shown <= Except(Entered(schedule, Peer(x)), GivenUp(schedule, Peer(x)))
  {
    SentAsEntered(schedule, Peer(x));
    ShownIsPrefix(schedule, x);
  }

  // ----- leaving -----

  /** End of input, the exit command and an interrupted reading make the input thread leave its loop with the exit flag
      up, and a raised flag does so at the loop test. */
  lemma {:induction false} LeavesLoop(s: State, x: Side, event: Event)
    requires || (s.Of(x).input.IRead? && (event == Line("/exit") || !event.Line?))
             || (s.Of(x).input.ITop? && s.Of(x).exitFlag)
    ensures InputMove(s, x, event).Of(x).input == IAfter && InputMove(s, x, event).Of(x).exitFlag
  {
  }

  /** An exit message received ends the receiving thread and raises both flags. */
  lemma {:induction false} ExitHeeded(s: State, x: Side)
    requires s.Of(x).receiver.RGot? && s.Of(x).receiver.message.priority == 255
    ensures var t := ReceiverMove(ReceiverMove(s, x), x);
            t.Of(x).receiver.RDone? && t.Of(x).peerExited && t.Of(x).exitFlag && t.Of(x).shown == s.Of(x).shown
  {
  }

  /** It gives up sending its exit message. */
  predicate GivesUpExit(s: State, a: Action, x: Side) {
    a.InputStep? && a.x == x && a.event.Signal? && s.Of(x).input.IExit? && |s.To(Peer(x))| >= 10
  }

  predicate EverGaveUpExit(schedule: seq<Action>, x: Side) {
    schedule != []
    && var n := |schedule| - 1;
       EverGaveUpExit(schedule[..n], x) || GivesUpExit(Run(schedule[..n]), schedule[n], x)
  }

  predicate Leaving(p: Process) {
    p.input.ICancel? || p.input.IEnd?
  }

  lemma {:induction false} ExitStep(s: State, a: Action, x: Side)
    requires Inv(s)
    requires Leaving(s.Of(x)) ==> HasExit(s.Of(x).sent) || s.Of(x).peerExited
    requires !GivesUpExit(s, a, x)
    ensures Leaving(Step(s, a).Of(x)) ==> HasExit(Step(s, a).Of(x).sent) || Step(s, a).Of(x).peerExited
  {
    if a.x != x {
      StepFrame(s, a, x);
    } else if a.InputStep? {
      InputExitStep(s, x, a.event);
    } else {
      assert Step(s, a).Of(x).input == s.Of(x).input && Step(s, a).Of(x).sent == s.Of(x).sent;
      assert s.Of(x).peerExited ==> Step(s, a).Of(x).peerExited;
    }
  }

  lemma {:induction false} InputExitStep(s: State, x: Side, event: Event)
    requires Inv(s)
    requires Leaving(s.Of(x)) ==> HasExit(s.Of(x).sent) || s.Of(x).peerExited
    requires !GivesUpExit(s, InputStep(x, event), x)
    ensures var t := InputMove(s, x, event);
            Leaving(t.Of(x)) ==> HasExit(t.Of(x).sent) || t.Of(x).peerExited
  {
    var p := s.Of(x);
    if p.input.IExit? {
      if |s.To(Peer(x))| < MAX_MESSAGES {
        var sent := InputMove(s, x, event).Of(x).sent;
        assert sent == p.sent + [Message(EXIT_PRIORITY, "EXIT")];
        assert sent[|p.sent|].priority == EXIT_PRIORITY;
      }
    } else if !p.input.ISend? {
      LocalExit(p, event);
      assert InputMove(s, x, event).Of(x) == Local(p, event);
    }
  }

  lemma {:induction false} LocalExit(p: Process, event: Event)
    requires !p.input.ISend? && !p.input.IExit? && ProcessOK(p)
    requires Leaving(p) ==> HasExit(p.sent) || p.peerExited
    ensures Leaving(Local(p, event)) ==> HasExit(Local(p, event).sent) || Local(p, event).peerExited
  {
  }

  /** A process that is through with its input has sent its exit message, unless it has its peer's or gave up at a full
      queue. */
  lemma {:induction false} LeavingTellsPeer(schedule: seq<Action>, x: Side)
    requires !EverGaveUpExit(schedule, x)
    ensures var p := Run(schedule).Of(x);
            Leaving(p) ==> HasExit(p.sent) || p.peerExited
  {
    if schedule != [] {
      var n := |schedule| - 1;
      LeavingTellsPeer(schedule[..n], x);
      RunInv(schedule[..n]);
      ExitStep(Run(schedule[..n]), schedule[n], x);
    }
  }

  // ----- every run can go on -----

  function StepsToEnd(i: Input): nat {
    match i
    case ISend(_) => 6
    case ITop => 5
    case IRead => 4
    case IAfter => 3
    case IExit => 2
    case ICancel => 1
    case IEnd => 0
  }

  lemma {:induction false} SignalEnds(s: State, x: Side)
    requires !s.Of(x).input.IEnd?
    ensures StepsToEnd(InputMove(s, x, Signal).Of(x).input) < StepsToEnd(s.Of(x).input)
  {
    var p := s.Of(x);
    if !p.input.ISend? && !p.input.IExit? { assert InputMove(s, x, Signal).Of(x) == Local(p, Signal); }
  }

  /** From every state of every run at most six signals bring a process to its end. */
  lemma {:induction false} CanAlwaysLeave(schedule: seq<Action>, x: Side) returns (more: seq<Action>)
    ensures |more| <= StepsToEnd(Run(schedule).Of(x).input) && Run(schedule + more).Of(x).input.IEnd?
    decreases StepsToEnd(Run(schedule).Of(x).input)
  {
    if Run(schedule).Of(x).input.IEnd? {
      more := [];
      assert schedule + more == schedule;
    } else {
      var a := InputStep(x, Signal);
      SignalEnds(Run(schedule), x);
      assert (schedule + [a])[..|schedule|] == schedule;
      var rest := CanAlwaysLeave(schedule + [a], x);
      more := [a] + rest;
      Onwards(schedule, a, rest);
    }
  }

  lemma {:induction false} Onwards(schedule: seq<Action>, a: Action, rest: seq<Action>)
    ensures schedule + [a] + rest == schedule + ([a] + rest)
  {
  }

  function Unshown(s: State, x: Side): nat {
    2 * |s.To(x)| + if s.Of(x).receiver.RGot? then 1 else 0
  }

  lemma {:induction false} ReceivingShows(s: State, x: Side)
    requires !ExitReceived(s.Of(x).receiver) && !(s.Of(x).receiver.RWait? && s.To(x) == [])
    ensures Unshown(ReceiverMove(s, x), x) < Unshown(s, x)
    ensures ReceiverMove(s, x).Of(Peer(x)) == s.Of(Peer(x))
  {
    if s.Of(x).receiver.RWait? {
      var i := First(s.To(x));
      assert |Without(s.To(x), i)| == |s.To(x)| - 1;
    }
  }

  /** From every state of every run the receiving thread alone can go on until it has an exit message or has ended, or
      has shown everything the other side sent. */
  lemma {:induction false} CanAlwaysShow(schedule: seq<Action>, x: Side) returns (more: seq<Action>)
    ensures forall i :: 0 <= i < |more| ==> more[i] == ReceiverStep(x)
    ensures ExitReceived(Run(schedule + more).Of(x).receiver)
            || Run(schedule + more).Of(x).shown == Chats(Run(schedule).Of(Peer(x)).sent)
    decreases Unshown(Run(schedule), x)
  {
    var s := Run(schedule);
    if ExitReceived(s.Of(x).receiver) || (s.Of(x).receiver.RWait? && s.To(x) == []) {
      more := [];
      assert schedule + more == schedule;
      if !ExitReceived(s.Of(x).receiver) { NothingLost(schedule, x); }
    } else {
      var a := ReceiverStep(x);
      ReceivingShows(s, x);
      assert (schedule + [a])[..|schedule|] == schedule;
      var rest := CanAlwaysShow(schedule + [a], x);
      more := [a] + rest;
      Onwards(schedule, a, rest);
    }
  }

  // ----- whose exit flag -----

  /** The process itself raises its exit flag: a SIGINT, the exit command, the end of its input. */
  predicate Raises(s: State, a: Action, x: Side) {
    && a.x == x
    && (|| a.Interrupt? || a.InterruptReceiver?
        || (a.InputStep? && s.Of(x).input.IRead?
            && (a.event == Line("/exit") || (!a.event.Line? && !s.Of(x).exitFlag))))
  }

  predicate EverRaised(schedule: seq<Action>, x: Side) {
    schedule != []
    && var n := |schedule| - 1;
       EverRaised(schedule[..n], x) || Raises(Run(schedule[..n]), schedule[n], x)
  }

  lemma {:induction false} RaiseStep(s: State, a: Action, x: Side)
    ensures Step(s, a).Of(x).own <==> s.Of(x).own || Raises(s, a, x)
    ensures Raises(s, a, x) ==> Step(s, a).Of(x).exitFlag
  {
    if a.x != x {
      StepFrame(s, a, x);
    } else if a.InputStep? && !s.Of(x).input.ISend? && !s.Of(x).input.IExit? {
      assert InputMove(s, x, a.event).Of(x) == Local(s.Of(x), a.event);
    }
  }

  /** What the model records as the process's own raising is just that. */
  lemma {:induction false} OwnExactly(schedule: seq<Action>, x: Side)
    ensures Run(schedule).Of(x).own <==> EverRaised(schedule, x)
  {
    if schedule != [] {
      var n := |schedule| - 1;
      OwnExactly(schedule[..n], x);
      RaiseStep(Run(schedule[..n]), schedule[n], x);
    }
  }

  /** A process that never raised its exit flag itself never sends an exit message, whatever its peer does. */
  lemma {:induction false} OnlyRaisersSendExit(schedule: seq<Action>, x: Side)
    requires !EverRaised(schedule, x)
    ensures !HasExit(Run(schedule).Of(x).sent)
  {
    OwnExactly(schedule, x);
    NoAnswerToExit(schedule, x);
  }
}
