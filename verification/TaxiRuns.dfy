/** The dispatcher, any number of drivers and the clock, in every interleaving. */
module TaxiRuns {
  import opened TaxiDriver
  import opened TaxiDispatcher

  /** Where a driver is with the request it took out of its FIFO. */
  datatype Phase =
    | Waiting | Holding(request: Request) | Looked(request: Request, checked: nat, left: nat) | Replying(reply: Reply)

  /** One driver with its two FIFOs and its timer; asked, handled and shown record the requests written to it,
      those it handled, and the outcomes printed for it. */
  datatype Taxi = Taxi(pid: int, requests: seq<Request>, replies: seq<Reply>, deadline: nat, phase: Phase,
                       asked: seq<Request>, handled: seq<Handling>, shown: seq<Outcome>)

  /** How far the dispatcher is with a command to all drivers. */
  datatype Server = Ready | Broadcasting(next: nat)

  datatype State = State(now: nat, server: Server, taxis: seq<Taxi>)

  datatype Action =
    | Create(pid: int) | Send(pid: int, request: Request) | GetDrivers | BroadcastOne
    | Collect(i: nat) | Drive(i: nat) | Tick(dt: nat)

  function Initial(): State {
    State(0, Ready, [])
  }

  /** The driver's slot in the table, if any. */
  function Find(taxis: seq<Taxi>, pid: int): (r: int)
    ensures -1 <= r < |taxis| && (r >= 0 ==> taxis[r].pid == pid)
    ensures r < 0 ==> forall i :: 0 <= i < |taxis| ==> taxis[i].pid != pid
  {
    if taxis == [] then -1
    else
      var n := |taxis| - 1;
      var before := Find(taxis[..n], pid);
      if before >= 0 then before else if taxis[n].pid == pid then n else -1
  }

  function Ask(t: Taxi, request: Request): Taxi {
    t.(requests := t.requests + [request], asked := t.asked + [request])
  }

  /** The driver's loop: take a request, look at the timer, arm it for an accepted task, write the reply. */
  function DriveStep(t: Taxi, now: nat): Taxi {
    match t.phase
    case Waiting => if t.requests == [] then t else t.(requests := t.requests[1..], phase := Holding(t.requests[0]))
    case Holding(request) => t.(phase := Looked(request, now, Left(t.deadline, now)))
    case Looked(request, checked, left) =>
      t.(deadline := if request.Task? && left == 0 then Armed(t.deadline, now, request.duration) else t.deadline,
         phase := Replying(Answer(t.deadline, request, checked)),
         handled := t.handled + [Handling(request, checked, now)])
    case Replying(reply) => t.(replies := t.replies + [reply], phase := Waiting)
  }

  /** A step that is not possible changes nothing. */
  function Step(s: State, a: Action): State {
    match a
    case Create(pid) =>
      if s.server.Ready? && |s.taxis| < MAX_DRIVERS && Find(s.taxis, pid) < 0
      then s.(taxis := s.taxis + [Taxi(pid, [], [], 0, Waiting, [], [], [])]) else s
    case Send(pid, request) =>
      var i := Find(s.taxis, pid);
      if s.server.Ready? && i >= 0 then s.(taxis := s.taxis[i := Ask(s.taxis[i], request)]) else s
    case GetDrivers => if s.server.Ready? then s.(server := Broadcasting(0)) else s
    case BroadcastOne =>
      if s.server.Ready? then s
      else if s.server.next >= |s.taxis| then s.(server := Ready)
      else
        var i := s.server.next;
        s.(server := Broadcasting(i + 1), taxis := s.taxis[i := Ask(s.taxis[i], StatusRequest)])
    case Collect(i) =>
      if s.server.Ready? && i < |s.taxis| && s.taxis[i].replies != [] then
        var t := s.taxis[i];
        s.(taxis := s.taxis[i := t.(replies := t.replies[1..], shown := t.shown + [Printed(t.replies[0])])])
      else s
    case Drive(i) => if i < |s.taxis| then s.(taxis := s.taxis[i := DriveStep(s.taxis[i], s.now)]) else s
    case Tick(dt) => s.(now := s.now + dt)
  }

  function Run(schedule: seq<Action>): State {
    if schedule == [] then Initial() else Step(Run(schedule[..|schedule| - 1]), schedule[|schedule| - 1])
  }

  // ----- the invariant of one driver -----

  function RequestsOf(hs: seq<Handling>): (r: seq<Request>)
    ensures |r| == |hs|
  {
    seq(|hs|, i requires 0 <= i < |hs| => hs[i].request)
  }

  function InHand(p: Phase): seq<Request> {
    match p
    case Holding(request) => [request]
    case Looked(request, _, _) => [request]
    case _ => []
  }

  function ToReply(p: Phase): seq<Reply> {
    if p.Replying? then [p.reply] else []
  }

  function PrintedAll(rs: seq<Reply>): (o: seq<Outcome>)
    ensures |o| == |rs|
  {
    seq(|rs|, i requires 0 <= i < |rs| => Printed(rs[i]))
  }

  ghost predicate Queues(t: Taxi) {
    && t.asked == RequestsOf(t.handled) + InHand(t.phase) + t.requests
    && t.shown + PrintedAll(t.replies + ToReply(t.phase)) == PrintedAll(Replies(t.handled))
  }

  ghost predicate Clocked(t: Taxi, now: nat) {
    var n := |t.handled|;
    && Timed(t.handled)
    && (n > 0 ==> t.handled[n - 1].armed <= now)
    && t.deadline == Deadline(t.handled)
    && (t.phase.Looked? ==>
          && t.phase.checked <= now && t.phase.left == Left(t.deadline, t.phase.checked)
          && (n > 0 ==> t.handled[n - 1].armed <= t.phase.checked))
  }

  ghost predicate TaxiOK(t: Taxi, now: nat) {
    Queues(t) && Clocked(t, now)
  }

  ghost predicate Inv(s: State) {
    AllOK(s.taxis, s.now) && DistinctPids(s.taxis) && |s.taxis| <= MAX_DRIVERS
  }

  lemma {:induction false} AskKeeps(t: Taxi, request: Request, now: nat)
    requires TaxiOK(t, now)
    ensures TaxiOK(Ask(t, request), now)
  {
  }

  lemma {:induction false} CollectKeeps(t: Taxi, now: nat)
    requires TaxiOK(t, now) && t.replies != []
    ensures TaxiOK(t.(replies := t.replies[1..], shown := t.shown + [Printed(t.replies[0])]), now)
  {
    var rest := t.replies[1..] + ToReply(t.phase);
    assert t.replies + ToReply(t.phase) == [t.replies[0]] + rest;
    assert PrintedAll([t.replies[0]] + rest) == [Printed(t.replies[0])] + PrintedAll(rest);
    assert t.shown + ([Printed(t.replies[0])] + PrintedAll(rest))
           == t.shown + [Printed(t.replies[0])] + PrintedAll(rest);
  }

  lemma {:induction false} RepliesGrow(hs: seq<Handling>, h: Handling)
    ensures Replies(hs + [h]) == Replies(hs) + [Answer(Deadline(hs), h.request, h.checked)]
    ensures Deadline(hs + [h]) == NextDeadline(Deadline(hs), h)
    ensures RequestsOf(hs + [h]) == RequestsOf(hs) + [h.request]
  {
    var longer := hs + [h];
    assert longer[..|hs|] == hs;
    forall i | 0 <= i < |hs| ensures ReplyAt(longer, i) == ReplyAt(hs, i) {
      assert longer[..i] == hs[..i];
    }
  }

  lemma {:induction false} PrintedSplit(a: seq<Reply>, b: seq<Reply>)
    ensures PrintedAll(a + b) == PrintedAll(a) + PrintedAll(b)
  {
  }

  lemma {:induction false} HandleQueues(t: Taxi, now: nat)
    requires Queues(t) && t.deadline == Deadline(t.handled) && t.phase.Looked?
    ensures Queues(DriveStep(t, now))
  {
    var h := Handling(t.phase.request, t.phase.checked, now);
    var reply := Answer(t.deadline, t.phase.request, t.phase.checked);
    RepliesGrow(t.handled, h);
    PrintedSplit(t.replies, [reply]);
    PrintedSplit(Replies(t.handled), [reply]);
    assert t.replies + [] == t.replies;
    assert t.shown + PrintedAll(t.replies) + PrintedAll([reply])
           == t.shown + (PrintedAll(t.replies) + PrintedAll([reply]));
    assert RequestsOf(t.handled) + [t.phase.request] + t.requests
           == RequestsOf(t.handled) + [t.phase.request] + [] + t.requests;
  }

  lemma {:induction false} HandleKeeps(t: Taxi, now: nat)
    requires TaxiOK(t, now) && t.phase.Looked?
    ensures TaxiOK(DriveStep(t, now), now)
  {
    RepliesGrow(t.handled, Handling(t.phase.request, t.phase.checked, now));
    HandleQueues(t, now);
  }

  lemma {:induction false} TakeKeeps(t: Taxi, now: nat)
    requires TaxiOK(t, now) && t.phase.Waiting? && t.requests != []
    ensures TaxiOK(DriveStep(t, now), now)
  {
    var done := RequestsOf(t.handled);
    Regroup(done, [], [t.requests[0]], t.requests[1..]);
    assert [t.requests[0]] + t.requests[1..] == t.requests;
  }

  lemma {:induction false} Regroup(a: seq<Request>, b: seq<Request>, c: seq<Request>, d: seq<Request>)
    requires b == []
    ensures a + b + (c + d) == a + c + d
  {
  }

  lemma {:induction false} ReplyKeeps(t: Taxi, now: nat)
    requires TaxiOK(t, now) && t.phase.Replying?
    ensures TaxiOK(DriveStep(t, now), now)
  {
    var sent := t.replies + [t.phase.reply];
    assert sent + [] == sent;
  }

  lemma {:induction false} DriveKeeps(t: Taxi, now: nat)
    requires TaxiOK(t, now)
    ensures TaxiOK(DriveStep(t, now), now)
  {
    match t.phase {
      case Waiting => if t.requests != [] { TakeKeeps(t, now); }
      case Holding(_) =>
      case Looked(_, _, _) => HandleKeeps(t, now);
      case Replying(_) => ReplyKeeps(t, now);
    }
  }

  lemma {:induction false} ReplaceKeeps(s: State, i: nat, t: Taxi, server: Server)
    requires Inv(s) && i < |s.taxis| && TaxiOK(t, s.now) && t.pid == s.taxis[i].pid
    ensures Inv(s.(taxis := s.taxis[i := t], server := server))
  {
    var taxis := s.taxis[i := t];
    forall j | 0 <= j < |taxis| ensures TaxiOK(taxis[j], s.now) {
      assert TaxiOK(s.taxis[j], s.now);
    }
  }

  lemma {:induction false} TickKeeps(s: State, dt: nat)
    requires Inv(s)
    ensures Inv(s.(now := s.now + dt))
  {
    forall i | 0 <= i < |s.taxis| ensures TaxiOK(s.taxis[i], s.now + dt) {
      assert TaxiOK(s.taxis[i], s.now);
    }
  }

  lemma {:induction false} FreshOK(pid: int, now: nat)
    ensures TaxiOK(Taxi(pid, [], [], 0, Waiting, [], [], []), now)
  {
    var t := Taxi(pid, [], [], 0, Waiting, [], [], []);
    assert t.replies + ToReply(t.phase) == [] && Replies([]) == [] && PrintedAll([]) == [];
  }

  ghost predicate AllOK(taxis: seq<Taxi>, now: nat) {
    forall i :: 0 <= i < |taxis| ==> TaxiOK(taxis[i], now)
  }

  lemma {:induction false} OneMoreOK(taxis: seq<Taxi>, t: Taxi, now: nat)
    requires AllOK(taxis, now) && TaxiOK(t, now)
    ensures AllOK(taxis + [t], now)
  {
  }

  ghost predicate DistinctPids(taxis: seq<Taxi>) {
    forall i, j :: 0 <= i < j < |taxis| ==> taxis[i].pid != taxis[j].pid
  }

  lemma {:induction false} OneMorePid(taxis: seq<Taxi>, t: Taxi)
    requires DistinctPids(taxis) && forall i :: 0 <= i < |taxis| ==> taxis[i].pid != t.pid
    ensures DistinctPids(taxis + [t])
  {
  }

  lemma {:induction false} AppendKeeps(s: State, t: Taxi)
    requires Inv(s) && TaxiOK(t, s.now) && |s.taxis| < MAX_DRIVERS
    requires forall i :: 0 <= i < |s.taxis| ==> s.taxis[i].pid != t.pid
    ensures Inv(s.(taxis := s.taxis + [t]))
  {
    OneMoreOK(s.taxis, t, s.now);
    OneMorePid(s.taxis, t);
  }

  lemma {:induction false} CreateKeeps(s: State, pid: int)
    requires Inv(s)
    ensures Inv(Step(s, Create(pid)))
  {
    if s.server.Ready? && |s.taxis| < MAX_DRIVERS && Find(s.taxis, pid) < 0 {
      FreshOK(pid, s.now);
      AppendKeeps(s, Taxi(pid, [], [], 0, Waiting, [], [], []));
    }
  }

  lemma {:induction false} SendKeeps(s: State, pid: int, request: Request)
    requires Inv(s)
    ensures Inv(Step(s, Send(pid, request)))
  {
    var i := Find(s.taxis, pid);
    if i >= 0 {
      AskKeeps(s.taxis[i], request, s.now);
      ReplaceKeeps(s, i, Ask(s.taxis[i], request), s.server);
    }
  }

  lemma {:induction false} BroadcastKeeps(s: State)
    requires Inv(s)
    ensures Inv(Step(s, BroadcastOne))
  {
    if s.server.Broadcasting? && s.server.next < |s.taxis| {
      var i := s.server.next;
      AskKeeps(s.taxis[i], StatusRequest, s.now);
      ReplaceKeeps(s, i, Ask(s.taxis[i], StatusRequest), Broadcasting(i + 1));
    }
  }

  lemma {:induction false} CollectStepKeeps(s: State, i: nat)
    requires Inv(s)
    ensures Inv(Step(s, Collect(i)))
  {
    if i < |s.taxis| && s.taxis[i].replies != [] {
      var t := s.taxis[i];
      CollectKeeps(t, s.now);
      ReplaceKeeps(s, i, t.(replies := t.replies[1..], shown := t.shown + [Printed(t.replies[0])]), s.server);
    }
  }

  lemma {:induction false} DriveStepKeeps(s: State, i: nat)
    requires Inv(s)
    ensures Inv(Step(s, Drive(i)))
  {
    if i < |s.taxis| {
      DriveKeeps(s.taxis[i], s.now);
      ReplaceKeeps(s, i, DriveStep(s.taxis[i], s.now), s.server);
    }
  }

  lemma {:induction false} StepKeeps(s: State, a: Action)
    requires Inv(s)
    ensures Inv(Step(s, a))
  {
    match a {
      case Create(pid) => CreateKeeps(s, pid);
      case Send(pid, request) => SendKeeps(s, pid, request);
      case GetDrivers =>
      case BroadcastOne => BroadcastKeeps(s);
      case Collect(i) => CollectStepKeeps(s, i);
      case Drive(i) => DriveStepKeeps(s, i);
      case Tick(dt) => TickKeeps(s, dt);
    }
  }

  lemma {:induction false} RunInv(schedule: seq<Action>)
    ensures Inv(Run(schedule))
  {
    if schedule != [] {
      RunInv(schedule[..|schedule| - 1]);
      StepKeeps(Run(schedule[..|schedule| - 1]), schedule[|schedule| - 1]);
    }
  }

  // ----- what every run guarantees -----

  /** The outcomes printed for a driver are, in order, the handlers' results on a prefix of the requests written to
      it, and those results are those of a single driver's timed life. */
  lemma {:induction false} OutcomesInOrder(schedule: seq<Action>, i: nat)
    requires i < |Run(schedule).taxis|
    ensures var t := Run(schedule).taxis[i];
            && Timed(t.handled)
            && RequestsOf(t.handled) <= t.asked
            && t.shown <= PrintedAll(Replies(t.handled))
  {
    RunInv(schedule);
    var s := Run(schedule);
    var t := s.taxis[i];
    assert TaxiOK(t, s.now);
    assert t.asked == RequestsOf(t.handled) + (InHand(t.phase) + t.requests);
  }

  /** No request and no reply is lost or duplicated: requests waiting, the one in hand, replies waiting and outcomes
      printed add up to the requests written. */
  lemma {:induction false} NothingLost(schedule: seq<Action>, i: nat)
    requires i < |Run(schedule).taxis|
    ensures var t := Run(schedule).taxis[i];
            |t.requests| + (if t.phase.Waiting? then 0 else 1) + |t.replies| + |t.shown| == |t.asked|
  {
    RunInv(schedule);
    assert TaxiOK(Run(schedule).taxis[i], Run(schedule).now);
  }

  /** Commands to one driver leave every other driver alone. */
  lemma {:induction false} OthersUntouched(s: State, pid: int, request: Request, j: nat)
    requires Inv(s) && j < |s.taxis| && s.taxis[j].pid != pid
    ensures j < |Step(s, Send(pid, request)).taxis| && Step(s, Send(pid, request)).taxis[j] == s.taxis[j]
  {
  }

  // ----- commands reach their drivers -----

  lemma {:induction false} FindExactly(taxis: seq<Taxi>, i: nat)
    requires i < |taxis| && forall j :: 0 <= j < i ==> taxis[j].pid != taxis[i].pid
    ensures Find(taxis, taxis[i].pid) == i
  {
    var n := |taxis| - 1;
    if i < n {
      FindExactly(taxis[..n], i);
    } else {
      assert Find(taxis[..n], taxis[i].pid) < 0;
    }
  }

  /** A command is written to the driver with that pid, behind what is already in its FIFO, and to no other; for an
      unknown pid nothing happens. */
  lemma {:induction false} SendReaches(schedule: seq<Action>, i: nat, request: Request)
    requires Run(schedule).server.Ready? && i < |Run(schedule).taxis|
    ensures var s := Run(schedule);
            var t := s.taxis[i];
            Step(s, Send(t.pid, request))
            == s.(taxis := s.taxis[i := t.(requests := t.requests + [request], asked := t.asked + [request])])
  {
    RunInv(schedule);
    FindExactly(Run(schedule).taxis, i);
  }

  lemma {:induction false} UnknownPid(s: State, pid: int, request: Request)
    requires forall i :: 0 <= i < |s.taxis| ==> s.taxis[i].pid != pid
    ensures Step(s, Send(pid, request)) == s
  {
  }

  /** A new driver comes last, idle and with empty FIFOs, as long as there are fewer than 100. */
  lemma {:induction false} CreateAdds(s: State, pid: int)
    requires s.server.Ready? && forall i :: 0 <= i < |s.taxis| ==> s.taxis[i].pid != pid
    ensures Step(s, Create(pid))
         == if |s.taxis| < 100 then s.(taxis := s.taxis + [Taxi(pid, [], [], 0, Waiting, [], [], [])]) else s
  {
  }

  /** n steps of the dispatcher's loop over all drivers. */
  function Broadcasts(s: State, n: nat): State {
    if n == 0 then Step(s, GetDrivers) else Step(Broadcasts(s, n - 1), BroadcastOne)
  }

  /** The command to all drivers asks each of them once for its status, in table order, and then is over. */
  lemma {:induction false} AllAsked(s: State, n: nat)
    requires s.server.Ready? && n <= |s.taxis|
    ensures var t := Broadcasts(s, n);
            && t.server == Broadcasting(n) && |t.taxis| == |s.taxis| && t.now == s.now
            && forall i :: 0 <= i < |s.taxis| ==>
                 t.taxis[i] == if i < n then Ask(s.taxis[i], StatusRequest) else s.taxis[i]
    ensures n == |s.taxis| ==>
              Broadcasts(s, n + 1).server.Ready? && Broadcasts(s, n + 1).taxis == Broadcasts(s, n).taxis
  {
    if n > 0 { AllAsked(s, n - 1); }
  }

  // ----- every run can be brought to rest -----

  function PhaseLeft(p: Phase): nat {
    match p
    case Waiting => 0
    case Holding(_) => 4
    case Looked(_, _, _) => 3
    case Replying(_) => 2
  }

  /** What is left to do for one driver. */
  function Open(t: Taxi): nat {
    5 * |t.requests| + PhaseLeft(t.phase) + |t.replies|
  }

  function NextFor(t: Taxi, i: nat): Action {
    if t.replies != [] then Collect(i) else Drive(i)
  }

  lemma {:induction false} NextCloses(s: State, i: nat)
    requires s.server.Ready? && i < |s.taxis| && Open(s.taxis[i]) > 0
    ensures var t := Step(s, NextFor(s.taxis[i], i));
            && t.server.Ready? && |t.taxis| == |s.taxis| && t.taxis[i].asked == s.taxis[i].asked
            && Open(t.taxis[i]) < Open(s.taxis[i])
  {
  }

  lemma {:induction false} OneMore(schedule: seq<Action>, a: Action)
    ensures Run(schedule + [a]) == Step(Run(schedule), a)
  {
    assert (schedule + [a])[..|schedule|] == schedule;
  }

  lemma {:induction false} Longer(schedule: seq<Action>, a: Action, rest: seq<Action>)
    ensures schedule + [a] + rest == schedule + ([a] + rest)
  {
  }

  lemma {:induction false} Serve(schedule: seq<Action>, i: nat) returns (more: seq<Action>)
    requires Run(schedule).server.Ready? && i < |Run(schedule).taxis|
    ensures forall j :: 0 <= j < |more| ==> more[j] == Drive(i) || more[j] == Collect(i)
    ensures i < |Run(schedule + more).taxis|
    ensures Open(Run(schedule + more).taxis[i]) == 0
    ensures Run(schedule + more).taxis[i].asked == Run(schedule).taxis[i].asked
    decreases Open(Run(schedule).taxis[i])
  {
    var s := Run(schedule);
    if Open(s.taxis[i]) == 0 {
      more := [];
      assert schedule + more == schedule;
    } else {
      var a := NextFor(s.taxis[i], i);
      NextCloses(s, i);
      OneMore(schedule, a);
      var rest := Serve(schedule + [a], i);
      more := [a] + rest;
      Longer(schedule, a, rest);
    }
  }

  /** From every state of every run, between two commands, driver and dispatcher alone can go on until everything asked
      of the driver is answered and printed: one outcome per request, in order, as its timed life calls for. */
  lemma {:induction false} CanAlwaysAnswer(schedule: seq<Action>, i: nat) returns (more: seq<Action>)
    requires Run(schedule).server.Ready? && i < |Run(schedule).taxis|
    ensures forall j :: 0 <= j < |more| ==> more[j] == Drive(i) || more[j] == Collect(i)
    ensures i < |Run(schedule + more).taxis|
    ensures var t := Run(schedule + more).taxis[i];
            && t.asked == Run(schedule).taxis[i].asked && Timed(t.handled)
            && RequestsOf(t.handled) == t.asked && t.shown == PrintedAll(Replies(t.handled))
  {
    more := Serve(schedule, i);
    RunInv(schedule + more);
    var s := Run(schedule + more);
    var t := s.taxis[i];
    assert TaxiOK(t, s.now);
    NothingOpen(t);
  }

  lemma {:induction false} NothingOpen(t: Taxi)
    requires Queues(t) && Open(t) == 0
    ensures RequestsOf(t.handled) == t.asked && t.shown == PrintedAll(Replies(t.handled))
  {
    assert t.phase.Waiting? && t.requests == [] && t.replies == [];
    assert RequestsOf(t.handled) + [] + [] == RequestsOf(t.handled);
    assert PrintedAll([] + []) == [] && t.shown + [] == t.shown;
  }

  // ----- the times are those of the clock -----

  function Clock(schedule: seq<Action>): nat {
    if schedule == [] then 0
    else
      var a := schedule[|schedule| - 1];
      Clock(schedule[..|schedule| - 1]) + if a.Tick? then a.dt else 0
  }

  lemma {:induction false} ClockRuns(schedule: seq<Action>)
    ensures Run(schedule).now == Clock(schedule)
  {
    if schedule != [] { ClockRuns(schedule[..|schedule| - 1]); }
  }

  /** Driver i is about to take its next step, and where it is. */
  predicate About(s: State, a: Action, i: nat) {
    a == Drive(i) && i < |s.taxis|
  }

  /** When driver i looked at its timer, and when it handled what it had looked at the timer for. */
  function Looks(schedule: seq<Action>, i: nat): seq<nat> {
    if schedule == [] then []
    else
      var n := |schedule| - 1;
      var s := Run(schedule[..n]);
      Looks(schedule[..n], i)
      + if About(s, schedule[n], i) && s.taxis[i].phase.Holding? then [Clock(schedule[..n])] else []
  }

  function Handles(schedule: seq<Action>, i: nat): seq<nat> {
    if schedule == [] then []
    else
      var n := |schedule| - 1;
      var s := Run(schedule[..n]);
      Handles(schedule[..n], i)
      + if About(s, schedule[n], i) && s.taxis[i].phase.Looked? then [Clock(schedule[..n])] else []
  }

  function CheckedTimes(hs: seq<Handling>): seq<nat> {
    seq(|hs|, j requires 0 <= j < |hs| => hs[j].checked)
  }

  function ArmedTimes(hs: seq<Handling>): seq<nat> {
    seq(|hs|, j requires 0 <= j < |hs| => hs[j].armed)
  }

  function LookedAt(p: Phase): seq<nat> {
    if p.Looked? then [p.checked] else []
  }

  ghost predicate OnTime(t: Taxi, looks: seq<nat>, handles: seq<nat>) {
    looks == CheckedTimes(t.handled) + LookedAt(t.phase) && handles == ArmedTimes(t.handled)
  }

  lemma {:induction false} DriveOnTime(t: Taxi, now: nat, looks: seq<nat>, handles: seq<nat>)
    requires OnTime(t, looks, handles)
    ensures OnTime(DriveStep(t, now), looks + (if t.phase.Holding? then [now] else []),
                   handles + if t.phase.Looked? then [now] else [])
  {
    var u := DriveStep(t, now);
    assert looks + [] == looks && handles + [] == handles;
    if t.phase.Looked? {
      assert CheckedTimes(u.handled) == CheckedTimes(t.handled) + [t.phase.checked];
      assert ArmedTimes(u.handled) == ArmedTimes(t.handled) + [now];
      assert CheckedTimes(u.handled) + [] == CheckedTimes(u.handled);
    } else {
      assert u.handled == t.handled;
      assert CheckedTimes(t.handled) + [] + [now] == CheckedTimes(t.handled) + [now];
    }
  }

  lemma {:induction false} OthersOnTime(s: State, a: Action, i: nat)
    requires i < |s.taxis| && a != Drive(i)
    ensures i < |Step(s, a).taxis|
    ensures Step(s, a).taxis[i].handled == s.taxis[i].handled && Step(s, a).taxis[i].phase == s.taxis[i].phase
  {
  }

  lemma {:induction false} FewerBefore(s: State, a: Action, i: nat)
    requires i < |Step(s, a).taxis| && i >= |s.taxis|
    ensures Step(s, a).taxis[i].handled == [] && Step(s, a).taxis[i].phase.Waiting?
  {
  }

  lemma {:induction false} NothingYet(schedule: seq<Action>, i: nat)
    requires i >= |Run(schedule).taxis|
    ensures Looks(schedule, i) == [] && Handles(schedule, i) == []
  {
    if schedule != [] {
      var n := |schedule| - 1;
      NeverFewer(Run(schedule[..n]), schedule[n]);
      NothingYet(schedule[..n], i);
    }
  }

  lemma {:induction false} NeverFewer(s: State, a: Action)
    ensures |Step(s, a).taxis| >= |s.taxis|
  {
  }

  /** A driver's life is timed by the clock: each request it handled was looked at, and an accepted task's timer armed,
      at the times the clock showed at those very steps. */
  lemma {:induction false} HandledByTheClock(schedule: seq<Action>, i: nat)
    requires i < |Run(schedule).taxis|
    ensures OnTime(Run(schedule).taxis[i], Looks(schedule, i), Handles(schedule, i))
  {
    var n := |schedule| - 1;
    var s, a := Run(schedule[..n]), schedule[n];
    ClockRuns(schedule[..n]);
    if i >= |s.taxis| {
      NothingYet(schedule[..n], i);
      FewerBefore(s, a, i);
      assert CheckedTimes([]) == [] && ArmedTimes([]) == [];
    } else {
      HandledByTheClock(schedule[..n], i);
      var looks, handles := Looks(schedule[..n], i), Handles(schedule[..n], i);
      if a == Drive(i) {
        DriveOnTime(s.taxis[i], s.now, looks, handles);
      } else {
        OthersOnTime(s, a, i);
        assert looks + [] == looks && handles + [] == handles;
      }
    }
  }
}
