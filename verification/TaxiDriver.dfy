/** One taxi driver: a timer that is the only record of a task, and the two commands that read and arm it.
    Times are in nanoseconds of the monotonic clock, durations in seconds. */
module TaxiDriver {

  const SECOND := 1_000_000_000

  datatype Request = Task(duration: int) | StatusRequest

  datatype Reply = Ack | Busy(remaining: int) | Status(remaining: int)

  /** One handled request: the timer is looked at, and for an accepted task armed a moment later. */
  datatype Handling = Handling(request: Request, checked: nat, armed: nat)

  /** A timer that fires at `deadline` has this much left; an unarmed or fired one has nothing left. */
  function Left(deadline: nat, now: nat): nat {
    if deadline > now then deadline - now else 0
  }

  /** Whole seconds, rounded up. */
  function Seconds(left: nat): (r: nat)
    ensures (r - 1) * SECOND < left <= r * SECOND
  {
    left / SECOND + if left % SECOND > 0 then 1 else 0
  }

  /** timerfd_settime with whole seconds: 0 disarms, a negative number is refused and changes nothing. */
  function Armed(deadline: nat, now: nat, duration: int): nat {
    if duration > 0 then now + duration * SECOND else if duration == 0 then 0 else deadline
  }

  /** The reply of the handlers, from the timer when it was looked at. */
  function Answer(deadline: nat, request: Request, checked: nat): Reply {
    var left := Left(deadline, checked);
    match request
    case Task(_) => if left > 0 then Busy(Seconds(left)) else Ack
    case StatusRequest => Status(if left > 0 then Seconds(left) else 0)
  }

  /** The deadline after a handled request. */
  function NextDeadline(deadline: nat, h: Handling): nat {
    if h.request.Task? && Left(deadline, h.checked) == 0 then Armed(deadline, h.armed, h.request.duration) else deadline
  }

  class Driver {
    var deadline: nat

    constructor ()
      ensures deadline == 0
    {
      deadline := 0;
    }

    method CheckTimerState(now: nat) returns (isBusy: bool, remTime: nat)
      ensures isBusy <==> deadline > now
      ensures remTime == Seconds(Left(deadline, now)) && (isBusy <==> remTime > 0)
    {
      var left := Left(deadline, now);
      var sec, nsec := left / SECOND, left % SECOND;
      isBusy := sec > 0 || nsec > 0;
      remTime := sec + if nsec > 0 then 1 else 0;
    }

    /** The clock moves on from `checked` to `armed` between looking at the timer and arming it. */
    method HandleTask(duration: int, checked: nat, armed: nat) returns (reply: Reply)
      requires checked <= armed
      modifies this
      ensures reply == Answer(old(deadline), Task(duration), checked)
      ensures deadline == NextDeadline(old(deadline), Handling(Task(duration), checked, armed))
    {
      var isBusy, remTime := CheckTimerState(checked);
      if isBusy {
        reply := Busy(remTime);
      } else {
        deadline := Armed(deadline, armed, duration);
        reply := Ack;
      }
    }

    method HandleStatusRequest(now: nat) returns (reply: Reply)
      ensures reply == Answer(deadline, StatusRequest, now)
    {
      var isBusy, remTime := CheckTimerState(now);
      reply := Status(if isBusy then remTime else 0);
    }
  }

  // ----- whole lives of a driver -----

  /** Requests are handled one after the other. */
  ghost predicate Timed(hs: seq<Handling>) {
    && (forall i :: 0 <= i < |hs| ==> hs[i].checked <= hs[i].armed)
    && (forall i :: 0 <= i < |hs| - 1 ==> hs[i].armed <= hs[i + 1].checked)
  }

  function Deadline(hs: seq<Handling>): nat {
    if hs == [] then 0 else NextDeadline(Deadline(hs[..|hs| - 1]), hs[|hs| - 1])
  }

  /** The reply to request i of a life. */
  function ReplyAt(hs: seq<Handling>, i: nat): Reply
    requires i < |hs|
  {
    Answer(Deadline(hs[..i]), hs[i].request, hs[i].checked)
  }

  function Replies(hs: seq<Handling>): (r: seq<Reply>)
    ensures |r| == |hs|
  {
    seq(|hs|, i requires 0 <= i < |hs| => ReplyAt(hs, i))
  }

  /** Request i is an acknowledged task of positive duration. */
  predicate Accepted(hs: seq<Handling>, i: nat)
    requires i < |hs|
  {
    hs[i].request.Task? && hs[i].request.duration > 0 && ReplyAt(hs, i).Ack?
  }

  /** When the task accepted as request i is over. */
  function Ends(hs: seq<Handling>, i: nat): int
    requires i < |hs| && hs[i].request.Task?
  {
    hs[i].armed + hs[i].request.duration * SECOND
  }

  /** The latest task accepted before request n, if any. */
  ghost predicate Latest(hs: seq<Handling>, n: nat, i: int)
    requires n <= |hs|
  {
    0 <= i < n && Accepted(hs, i) && forall j :: i < j < n ==> !Accepted(hs, j)
  }

  lemma {:induction false} TimedOrder(hs: seq<Handling>, i: nat, j: nat)
    requires Timed(hs) && i < j < |hs|
    ensures hs[i].armed <= hs[j].checked
  {
    if i + 1 < j { TimedOrder(hs, i, j - 1); }
  }

  /** The timer remembers exactly the latest accepted task: before any, or after an acknowledged task of duration 0,
      it is unarmed; a refused duration leaves a fired timer. */
  lemma {:induction false} DeadlineIsLatest(hs: seq<Handling>, n: nat)
    requires Timed(hs) && n <= |hs|
    ensures (forall i :: 0 <= i < n ==> !Accepted(hs, i)) ==> Deadline(hs[..n]) == 0
    ensures forall i :: Latest(hs, n, i) ==>
              Deadline(hs[..n]) == Ends(hs, i) || (n > 0 && Deadline(hs[..n]) <= Ends(hs, i) <= hs[n - 1].checked)
  {
    if n > 0 {
      var m := n - 1;
      DeadlineIsLatest(hs, m);
      assert hs[..n][..m] == hs[..m] && hs[..n][m] == hs[m];
      if Accepted(hs, m) {
        assert forall i :: Latest(hs, n, i) ==> i == m;
      } else {
        forall i | Latest(hs, n, i)
          ensures Deadline(hs[..n]) == Ends(hs, i) || Deadline(hs[..n]) <= Ends(hs, i) <= hs[m].checked
        {
          assert Latest(hs, m, i);
          if m > 0 && i < m - 1 { assert hs[m - 1].armed <= hs[m].checked; }
        }
      }
    }
  }

  /** Some task is accepted before request n exactly if there is a latest one. */
  lemma {:induction false} LatestExists(hs: seq<Handling>, n: nat) returns (i: int)
    requires n <= |hs|
    ensures if i < 0 then forall j :: 0 <= j < n ==> !Accepted(hs, j) else Latest(hs, n, i)
  {
    i := n - 1;
    while i >= 0 && !Accepted(hs, i)
      invariant -1 <= i < n && forall j :: i < j < n ==> !Accepted(hs, j)
    {
      i := i - 1;
    }
  }

  /** What the timer shows request n: what is left of the latest accepted task. */
  lemma {:induction false} TimerShowsLatest(hs: seq<Handling>, n: nat, i: int)
    requires Timed(hs) && n < |hs| && Latest(hs, n, i)
    ensures hs[i].armed <= hs[n].checked
    ensures Left(Deadline(hs[..n]), hs[n].checked)
         == if Ends(hs, i) > hs[n].checked then Ends(hs, i) - hs[n].checked else 0
  {
    DeadlineIsLatest(hs, n);
    TimedOrder(hs, i, n);
  }

  /** The busy intervals of two accepted tasks never overlap: the later one is not even looked at before the earlier is
      over. */
  lemma {:induction false} AcceptedDisjoint(hs: seq<Handling>, i: nat, j: nat)
    requires Timed(hs) && i < j < |hs| && Accepted(hs, i) && Accepted(hs, j)
    ensures Ends(hs, i) <= hs[j].checked <= hs[j].armed
    decreases j
  {
    var k := LatestExists(hs, j);
    TimerShowsLatest(hs, j, k);
    if i < k {
      AcceptedDisjoint(hs, i, k);
      TimedOrder(hs, k, j);
    }
  }

  /** The driver is on a task when request n is looked at: some accepted task's interval covers that moment. */
  ghost predicate OnTask(hs: seq<Handling>, n: nat, i: int)
    requires n < |hs|
  {
    0 <= i < n && Accepted(hs, i) && hs[i].armed <= hs[n].checked < Ends(hs, i)
  }

  /** The seconds a reply says are left, 0 if it says none are. */
  function Announced(r: Reply): int {
    match r
    case Ack => 0
    case Busy(n) => n
    case Status(n) => n
  }

  lemma {:induction false} CoveringIsLatest(hs: seq<Handling>, n: nat, i: int)
    requires Timed(hs) && n < |hs| && OnTask(hs, n, i)
    ensures Latest(hs, n, i)
  {
    var k := LatestExists(hs, n);
    if k != i {
      AcceptedDisjoint(hs, i, k);
      TimedOrder(hs, k, n);
    }
  }

  /** During a task every reply announces its remaining time in seconds, rounded up, between 1 and its duration. */
  lemma {:induction false} BusyTellsRemaining(hs: seq<Handling>, n: nat, i: int)
    requires Timed(hs) && n < |hs| && OnTask(hs, n, i)
    ensures Announced(ReplyAt(hs, n)) == Seconds(Ends(hs, i) - hs[n].checked)
    ensures 1 <= Announced(ReplyAt(hs, n)) <= hs[i].request.duration
    ensures hs[n].request.Task? ==> ReplyAt(hs, n).Busy?
  {
    CoveringIsLatest(hs, n, i);
    TimerShowsLatest(hs, n, i);
    SecondsBound(Ends(hs, i) - hs[n].checked, hs[i].request.duration);
  }

  lemma {:induction false} SecondsBound(left: nat, duration: nat)
    requires 0 < left <= duration * SECOND
    ensures 1 <= Seconds(left) <= duration
  {
  }

  /** Outside all tasks a task is acknowledged and a status request is answered with nothing left. */
  lemma {:induction false} IdleSaysSo(hs: seq<Handling>, n: nat)
    requires Timed(hs) && n < |hs| && forall i :: !OnTask(hs, n, i)
    ensures ReplyAt(hs, n) == if hs[n].request.Task? then Ack else Status(0)
  {
    var k := LatestExists(hs, n);
    if k < 0 {
      DeadlineIsLatest(hs, n);
    } else {
      TimerShowsLatest(hs, n, k);
      assert !OnTask(hs, n, k);
    }
  }

  /** The announced time of one task never goes up. */
  lemma {:induction false} AnnouncedNeverRises(hs: seq<Handling>, m: nat, n: nat, i: int)
    requires Timed(hs) && m < n < |hs| && OnTask(hs, m, i) && OnTask(hs, n, i)
    ensures Announced(ReplyAt(hs, n)) <= Announced(ReplyAt(hs, m))
  {
    BusyTellsRemaining(hs, m, i);
    BusyTellsRemaining(hs, n, i);
    TimedOrder(hs, m, n);
  }

  /** A task of non-positive duration handed to an idle driver is acknowledged and leaves it idle. */
  lemma {:induction false} NonPositiveLeavesIdle(hs: seq<Handling>, n: nat, later: nat)
    requires Timed(hs) && n < |hs| && hs[n].request.Task? && hs[n].request.duration <= 0 && later >= hs[n].armed
    requires forall i :: !OnTask(hs, n, i)
    ensures ReplyAt(hs, n).Ack? && Left(Deadline(hs[..n + 1]), later) == 0
  {
    IdleSaysSo(hs, n);
    assert hs[..n + 1][..n] == hs[..n];
  }

  // ----- what the dispatcher prints -----

  datatype Outcome = TaskAccepted | BusyFor(seconds: int) | Available

  /** The dispatcher's three reply handlers. */
  function Printed(r: Reply): Outcome {
    match r
    case Ack => TaskAccepted
    case Busy(n) => BusyFor(n)
    case Status(n) => if n > 0 then BusyFor(n) else Available
  }

  /** A status request is printed as Available exactly when no task covered the moment the driver looked. */
  lemma {:induction false} AvailableExactlyWhenIdle(hs: seq<Handling>, n: nat)
    requires Timed(hs) && n < |hs| && hs[n].request.StatusRequest?
    ensures Printed(ReplyAt(hs, n)) == Available <==> forall i :: !OnTask(hs, n, i)
  {
    if forall i :: !OnTask(hs, n, i) {
      IdleSaysSo(hs, n);
    } else {
      var i :| OnTask(hs, n, i);
      BusyTellsRemaining(hs, n, i);
    }
  }

  /** A task is printed as accepted exactly when no task covered the moment the driver looked, and as Busy with what
      was left of the one that did otherwise. */
  lemma {:induction false} AcceptedExactlyWhenIdle(hs: seq<Handling>, n: nat)
    requires Timed(hs) && n < |hs| && hs[n].request.Task?
    ensures Printed(ReplyAt(hs, n)) == TaskAccepted <==> forall i :: !OnTask(hs, n, i)
    ensures forall i :: OnTask(hs, n, i) ==> Printed(ReplyAt(hs, n)) == BusyFor(Seconds(Ends(hs, i) - hs[n].checked))
  {
    if forall i :: !OnTask(hs, n, i) {
      IdleSaysSo(hs, n);
    }
    forall i | OnTask(hs, n, i) ensures Printed(ReplyAt(hs, n)) == BusyFor(Seconds(Ends(hs, i) - hs[n].checked)) {
      BusyTellsRemaining(hs, n, i);
    }
  }

  /** During a task a status request is printed as Busy with what is left of it. */
  lemma {:induction false} BusyPrinted(hs: seq<Handling>, n: nat, i: int)
    requires Timed(hs) && n < |hs| && hs[n].request.StatusRequest? && OnTask(hs, n, i)
    ensures Printed(ReplyAt(hs, n)) == BusyFor(Seconds(Ends(hs, i) - hs[n].checked))
  {
    BusyTellsRemaining(hs, n, i);
  }

  /** The seconds announced are the least whole number that covers what is left. */
  lemma {:induction false} SecondsExactly(left: nat, r: nat)
    ensures r == Seconds(left) <==> r * 1_000_000_000 >= left && (r > 0 ==> (r - 1) * 1_000_000_000 < left)
  {
  }
}
