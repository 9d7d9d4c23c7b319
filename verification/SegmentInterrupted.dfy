/** What the ignored results of semop and sem_wait cost: an attempt to take the semaphore that a signal interrupts while
    it waits lets a process in although another one is inside, and a block may then be reported twice. */
module SegmentInterrupted {
  import opened SegmentMemory
  import opened SegmentRuns
  import opened SegmentSafety

  /** A step of a run, or a process whose waiting for the semaphore fails and which ignores that; the producer's number
      is -1, the consumers are numbered from 0. */
  datatype Move = Regular(a: Action) | FailedLock(who: int)

  /** The producer behind its lock attempt. */
  function PastLock(p: Producer, k: Kind): Producer {
    match p
    case PInitLock => if k.Posix? then PInitSize else PInitFirst
    case PGenLock => PGenCheck
    case PWaitLock => PWaitFirst
    case _ => p
  }

  /** An attempt only fails while it waits: on a live semaphore at 0. */
  function MoveStep(s: State, m: Move): State {
    match m
    case Regular(a) => Step(s, a)
    case FailedLock(who) =>
      if s.sem != Live(0) then s
      else if who == PRODUCER then s.(prod := PastLock(s.prod, s.kind))
      else if 0 <= who < |s.cons| && s.cons[who].CLock? then Goto(s, who, CFirst)
      else s
  }

  function MoveRun(s: State, moves: seq<Move>): State {
    if moves == [] then s else MoveStep(MoveRun(s, moves[..|moves| - 1]), moves[|moves| - 1])
  }

  function Failing(m: Move): nat {
    if m.FailedLock? then 1 else 0
  }

  /** How many lock attempts fail. */
  function Fails(moves: seq<Move>): nat {
    if moves == [] then 0 else Fails(moves[..|moves| - 1]) + Failing(moves[|moves| - 1])
  }

  lemma {:induction false} FailsConcat(before: seq<Move>, moves: seq<Move>)
    ensures Fails(before + moves) == Fails(before) + Fails(moves)
  {
    if moves == [] {
      assert before + moves == before;
    } else {
      var n := |moves| - 1;
      FailsConcat(before, moves[..n]);
      assert (before + moves)[..|before + moves| - 1] == before + moves[..n];
    }
  }

  /** The moves lead from s to t, with exactly that many failing attempts. */
  ghost predicate Path(s: State, t: State, fails: nat, moves: seq<Move>) {
    MoveRun(s, moves) == t && Fails(moves) == fails
  }

  ghost predicate Leads(s: State, t: State, fails: nat) {
    exists moves :: Path(s, t, fails, moves)
  }

  /** Every run is a sequence of moves without a failing attempt. */
  lemma {:induction false} RegularRun(s: State, schedule: seq<Action>)
    ensures Leads(s, Run(s, schedule), 0)
  {
    if schedule == [] {
      Stays(s);
    } else {
      var n := |schedule| - 1;
      RegularRun(s, schedule[..n]);
      OneMoreMove(s, Run(s, schedule[..n]), 0, Regular(schedule[n]));
    }
  }

  /** And every sequence of moves without a failing attempt is a run. */
  lemma {:induction false} RunOfMoves(s: State, moves: seq<Move>) returns (schedule: seq<Action>)
    requires Fails(moves) == 0
    ensures MoveRun(s, moves) == Run(s, schedule)
  {
    if moves == [] {
      schedule := [];
    } else {
      var n := |moves| - 1;
      var before := RunOfMoves(s, moves[..n]);
      schedule := before + [moves[n].a];
      assert schedule[..|schedule| - 1] == before;
    }
  }

  lemma {:induction false} Stays(s: State)
    ensures Leads(s, s, 0)
  {
    assert Path(s, s, 0, []);
  }

  lemma {:induction false} OneMoreMove(s: State, t: State, fails: nat, m: Move)
    requires Leads(s, t, fails)
    ensures Leads(s, MoveStep(t, m), fails + Failing(m))
  {
    var moves :| Path(s, t, fails, moves);
    assert (moves + [m])[..|moves|] == moves;
    assert Path(s, MoveStep(t, m), fails + Failing(m), moves + [m]);
  }

  // ----- a consumer inside its critical section walks on to the block it marks -----

  ghost predicate Walking(pc: Consumer) {
    pc.CFirst? || pc.CScan? || pc.CCount? || pc.CHead? || pc.CLoop?
  }

  /** The consumer's position fits a segment with an unprocessed block. */
  ghost predicate OnItsWay(s: State, c: nat) {
    && SegmentOK(s) && |s.log| < |s.blocks| && c < |s.cons|
    && ConsumerOK(s.cons[c], s.kind, s.blocks, |s.log|, Finished(s.prod))
  }

  /** How many steps the consumer is from marking a block, at most. */
  function HopsLeft(pc: Consumer, blocks: nat): nat {
    match pc
    case CFirst => blocks + 22
    case CScan(_, ix) => if ix <= blocks then blocks - ix + 20 else 20
    case CCount(_, _) => 19
    case CHead(_, _, _) => 18
    case CLoop(_, _, n, i, _, _) => if i <= n <= 15 then 1 + n - i else 17
    case _ => 0
  }

  lemma {:induction false} WalkFirst(s: State, c: nat)
    requires OnItsWay(s, c) && s.cons[c].CFirst?
    ensures var t := ConsumeStep(s, c);
            && t == Goto(s, c, t.cons[c]) && OnItsWay(t, c) && t.cons[c].CScan? && t.cons[c].ix == 0
  {
    Gone(s, c, ConsumeStep(s, c).cons[c]);
  }

  lemma {:induction false} ScanReads(s: State, off: nat, ix: nat)
    requires SegmentOK(s) && ix <= |s.log| < |s.blocks| && off == Offset(s.kind, s.blocks, ix)
    ensures off != 0 && Load(s.mem, off / 4 + 2) == Offset(s.kind, s.blocks, ix + 1)
    ensures Load(s.mem, off / 4) > 0 <==> ix == |s.log|
  {
    ReadBlock(s.mem, s.kind, s.blocks, |s.log|, ix);
    assert Sized(s.blocks[|s.log|]);
  }

  lemma {:induction false} WalkOn(s: State, c: nat)
    requires OnItsWay(s, c) && s.cons[c].CScan?
    ensures var pc, t := s.cons[c], ConsumeStep(s, c);
            && t == Goto(s, c, t.cons[c]) && OnItsWay(t, c) && pc.ix <= |s.blocks|
            && ((t.cons[c].CScan? && t.cons[c].ix == pc.ix + 1 <= |s.blocks|) || t.cons[c].CCount?)
  {
    var pc := s.cons[c];
    ScanReads(s, pc.off, pc.ix);
    var further := CScan(Offset(s.kind, s.blocks, pc.ix + 1), pc.ix + 1);
    var next := if pc.ix < |s.log| then further else CCount(pc.off, pc.ix);
    assert ConsumeStep(s, c) == Goto(s, c, next);
    Gone(s, c, next);
  }

  lemma {:induction false} WalkScan(s: State, c: nat)
    requires OnItsWay(s, c) && (s.cons[c].CFirst? || s.cons[c].CScan?)
    ensures var t := ConsumeStep(s, c);
            && t == Goto(s, c, t.cons[c]) && OnItsWay(t, c) && (t.cons[c].CScan? || t.cons[c].CCount?)
            && HopsLeft(t.cons[c], |s.blocks|) < HopsLeft(s.cons[c], |s.blocks|)
  {
    if s.cons[c].CFirst? { WalkFirst(s, c); } else { WalkOn(s, c); }
  }

  lemma {:induction false} WalkCount(s: State, c: nat)
    requires OnItsWay(s, c) && s.cons[c].CCount?
    ensures var t := ConsumeStep(s, c);
            && t == Goto(s, c, t.cons[c]) && OnItsWay(t, c) && t.cons[c].CHead?
  {
    ReadBlock(s.mem, s.kind, s.blocks, |s.log|, s.cons[c].ix);
    Gone(s, c, ConsumeStep(s, c).cons[c]);
  }

  lemma {:induction false} WalkHead(s: State, c: nat)
    requires OnItsWay(s, c) && s.cons[c].CHead?
    ensures var t := ConsumeStep(s, c);
            && t == Goto(s, c, t.cons[c]) && OnItsWay(t, c)
            && t.cons[c].CLoop? && t.cons[c].i == 0 && t.cons[c].n <= 15
  {
    assert Sized(s.blocks[s.cons[c].ix]);
    ReadWord(s, s.cons[c].ix, 0);
    Gone(s, c, ConsumeStep(s, c).cons[c]);
  }

  lemma {:induction false} WalkLoop(s: State, c: nat)
    requires OnItsWay(s, c) && s.cons[c].CLoop?
    ensures var pc, t := s.cons[c], ConsumeStep(s, c);
            && t == Goto(s, c, t.cons[c]) && OnItsWay(t, c)
            && (t.cons[c].CMark? || (t.cons[c].CLoop? && t.cons[c].n == pc.n && t.cons[c].i == pc.i + 1 <= pc.n))
  {
    var pc := s.cons[c];
    if pc.i < pc.n {
      ReadWord(s, pc.ix, pc.i);
      var v := s.blocks[pc.ix][pc.i];
      var min, max := if v < pc.min then v else pc.min, if v > pc.max then v else pc.max;
      var next := CLoop(pc.off, pc.ix, pc.n, pc.i + 1, min, max);
      assert ConsumeStep(s, c) == Goto(s, c, next);
      Extended(pc.min, pc.max, s.blocks[pc.ix], pc.i);
      Gone(s, c, next);
    } else {
      var next := CMark(pc.off, pc.ix, pc.n, pc.min, pc.max);
      assert ConsumeStep(s, c) == Goto(s, c, next);
      Gone(s, c, next);
    }
  }

  lemma {:induction false} Extended(min: int32, max: int32, b: Block, i: nat)
    requires i < |b| && LeastOf(min, b, i) && GreatestOf(max, b, i)
    ensures LeastOf(if b[i] < min then b[i] else min, b, i + 1)
    ensures GreatestOf(if b[i] > max then b[i] else max, b, i + 1)
  {
  }

  lemma {:induction false} WalkRead(s: State, c: nat)
    requires OnItsWay(s, c) && (s.cons[c].CCount? || s.cons[c].CHead? || s.cons[c].CLoop?)
    ensures var t := ConsumeStep(s, c);
            && t == Goto(s, c, t.cons[c]) && OnItsWay(t, c) && (Walking(t.cons[c]) || t.cons[c].CMark?)
            && HopsLeft(t.cons[c], |s.blocks|) < HopsLeft(s.cons[c], |s.blocks|)
  {
    assert Sized(s.blocks[s.cons[c].ix]);
    if s.cons[c].CCount? { WalkCount(s, c); } else if s.cons[c].CHead? { WalkHead(s, c); } else { WalkLoop(s, c); }
  }

  lemma {:induction false} Gone(s: State, c: nat, pc: Consumer)
    requires SegmentOK(s) && c < |s.cons|
    ensures SegmentOK(Goto(s, c, pc))
  {
  }

  /** Undisturbed it comes to mark the first unprocessed block, and changes nothing on its way. */
  lemma {:induction false} WalksToMark(s: State, c: nat) returns (pc: Consumer)
    requires OnItsWay(s, c) && (Walking(s.cons[c]) || s.cons[c].CMark?)
    ensures pc.CMark? && OnItsWay(Goto(s, c, pc), c) && Leads(s, Goto(s, c, pc), 0)
    decreases HopsLeft(s.cons[c], |s.blocks|)
  {
    if s.cons[c].CMark? {
      pc := s.cons[c];
      assert Goto(s, c, pc) == s;
      Stays(s);
    } else {
      var t := ConsumeStep(s, c);
      if s.cons[c].CFirst? || s.cons[c].CScan? { WalkScan(s, c); } else { WalkRead(s, c); }
      pc := WalksToMark(t, c);
      assert Goto(t, c, pc) == Goto(s, c, pc);
      assert MayConsume(s, c) && MoveStep(s, Regular(Consume(c))) == t;
      Firstly(s, Regular(Consume(c)), t, Goto(s, c, pc), 0);
    }
  }

  lemma {:induction false} Onwards(s: State, t: State, u: State, f: nat, g: nat)
    requires Leads(s, t, f) && Leads(t, u, g)
    ensures Leads(s, u, f + g)
  {
    var moves :| Path(t, u, g, moves);
    var before :| Path(s, t, f, before);
    MovesBehind(s, before, moves);
    FailsConcat(before, moves);
    assert Path(s, u, f + g, before + moves);
  }

  lemma {:induction false} Firstly(s: State, m: Move, t: State, u: State, fails: nat)
    requires MoveStep(s, m) == t && Leads(t, u, fails)
    ensures Leads(s, u, Failing(m) + fails)
  {
    Stays(s);
    OneMoreMove(s, s, 0, m);
    Onwards(s, t, u, Failing(m), fails);
  }

  lemma {:induction false} ThreeLegs(s: State, s1: State, s2: State, t: State)
    requires Leads(s, s1, 0) && Leads(s1, s2, 1) && Leads(s2, t, 0)
    ensures Leads(s, t, 1)
  {
    Onwards(s, s1, s2, 0, 1);
    Onwards(s, s2, t, 1, 0);
  }

  lemma {:induction false} MovesBehind(s: State, before: seq<Move>, moves: seq<Move>)
    ensures MoveRun(s, before + moves) == MoveRun(MoveRun(s, before), moves)
  {
    if moves == [] {
      assert before + moves == before;
    } else {
      var n := |moves| - 1;
      MovesBehind(s, before, moves[..n]);
      assert (before + moves)[..|before + moves| - 1] == before + moves[..n];
    }
  }

  // ----- two consumers inside -----

  /** Two consumers report the same block, one after the other, as the last two lines printed. */
  ghost predicate Twice(s: State, t: State, c: nat, d: nat) {
    var n := |s.log|;
    && t.blocks == s.blocks && n < |s.blocks| && |t.log| == n + 2 && t.log[..n] == s.log
    && t.log[n].off == Offset(s.kind, s.blocks, n) == t.log[n + 1].off
    && t.log[n].who == d && t.log[n + 1].who == c
  }

  lemma {:induction false} Enter(s: State, c: nat)
    requires Inv(s) && s.sem == Live(1) && |s.log| < |s.blocks| && c < |s.cons| && s.cons[c].CLock?
    ensures var t := MoveStep(s, Regular(Consume(c)));
            t == Goto(Locked(s, c), c, CFirst) && OnItsWay(t, c) && Walking(t.cons[c])
  {
    var t := Goto(Locked(s, c), c, CFirst);
    assert MemoryOK(t) && ProducerOK(t);
  }

  lemma {:induction false} BreakIn(s: State, d: nat)
    requires SegmentOK(s) && s.sem == Live(0) && |s.log| < |s.blocks| && d < |s.cons| && s.cons[d].CLock?
    ensures var t := MoveStep(s, FailedLock(d));
            t == Goto(s, d, CFirst) && OnItsWay(t, d) && Walking(t.cons[d])
  {
    Gone(s, d, CFirst);
  }

  lemma {:induction false} Mark(s: State, c: nat)
    requires c < |s.cons| && s.cons[c].CMark?
    ensures var t := MoveStep(s, Regular(Consume(c)));
            && t.log == s.log + [Report(c, s.cons[c].off, s.cons[c].n, s.cons[c].min, s.cons[c].max)]
            && t.blocks == s.blocks && t.cons == s.cons[c := CUnlock]
  {
  }

  /** The consumer is about to mark the first unprocessed block. */
  ghost predicate AtMark(s: State, c: nat) {
    && |s.log| < |s.blocks| && c < |s.cons| && s.cons[c].CMark?
    && s.cons[c].off == Offset(s.kind, s.blocks, |s.log|)
  }

  lemma {:induction false} TakesLock(s: State, c: nat, d: nat) returns (t: State)
    requires Inv(s) && s.sem == Live(1) && |s.log| < |s.blocks|
    requires c < |s.cons| && d < |s.cons| && c != d && s.cons[c].CLock? && s.cons[d].CLock?
    ensures Leads(s, t, 0) && SegmentOK(t) && AtMark(t, c) && t.sem == Live(0)
    ensures t.kind == s.kind && t.blocks == s.blocks && t.log == s.log
    ensures |t.cons| == |s.cons| && t.cons[d].CLock?
  {
    Enter(s, c);
    var s1 := MoveStep(s, Regular(Consume(c)));
    var pc := WalksToMark(s1, c);
    t := Goto(s1, c, pc);
    Firstly(s, Regular(Consume(c)), s1, t, 0);
  }

  lemma {:induction false} StillAtMark(s: State, c: nat, d: nat, pc: Consumer)
    requires AtMark(s, c) && d < |s.cons| && c != d
    ensures AtMark(Goto(s, d, pc), c)
  {
  }

  lemma {:induction false} WalksBeside(s: State, c: nat, d: nat) returns (t: State)
    requires OnItsWay(s, d) && Walking(s.cons[d]) && AtMark(s, c) && c != d
    ensures Leads(s, t, 0) && AtMark(t, c) && AtMark(t, d)
    ensures t.kind == s.kind && t.blocks == s.blocks && t.log == s.log
  {
    var pc := WalksToMark(s, d);
    t := Goto(s, d, pc);
    StillAtMark(s, c, d, pc);
  }

  lemma {:induction false} ComesToo(s: State, c: nat, d: nat) returns (t: State)
    requires SegmentOK(s) && AtMark(s, c) && s.sem == Live(0) && d < |s.cons| && c != d && s.cons[d].CLock?
    ensures Leads(s, t, 1) && AtMark(t, c) && AtMark(t, d)
    ensures t.kind == s.kind && t.blocks == s.blocks && t.log == s.log
  {
    BreakIn(s, d);
    var s1 := Goto(s, d, CFirst);
    StillAtMark(s, c, d, CFirst);
    t := WalksBeside(s1, c, d);
    Firstly(s, FailedLock(d), s1, t, 0);
  }

  lemma {:induction false} BothMark(s: State, c: nat, d: nat) returns (t: State)
    requires AtMark(s, c) && AtMark(s, d) && c != d
    ensures Leads(s, t, 0) && Twice(s, t, c, d)
  {
    Mark(s, d);
    var s1 := MoveStep(s, Regular(Consume(d)));
    Mark(s1, c);
    t := MoveStep(s1, Regular(Consume(c)));
    Stays(s);
    OneMoreMove(s, s, 0, Regular(Consume(d)));
    OneMoreMove(s, s1, 0, Regular(Consume(c)));
  }

  /** From every state of a run with an unprocessed block, the semaphore free and two consumers about to take it: one of
      them takes it, the other one's attempt, the only one to fail, is ignored, and both report the block. */
  lemma {:induction false} FailedLockReportsTwice(s: State, c: nat, d: nat) returns (t: State)
    requires Inv(s) && s.sem == Live(1) && |s.log| < |s.blocks|
    requires c < |s.cons| && d < |s.cons| && c != d && s.cons[c].CLock? && s.cons[d].CLock?
    ensures Leads(s, t, 1) && Twice(s, t, c, d)
  {
    var s1 := TakesLock(s, c, d);
    var s2 := ComesToo(s1, c, d);
    t := BothMark(s2, c, d);
    ThreeLegs(s, s1, s2, t);
  }

  // ----- such a state is reached -----

  ghost predicate ReachedBy(k: Kind, s: State) {
    Leads(Initial(k), s, 0) && Inv(s) && s.kind == k
  }

  lemma {:induction false} ProducerMoves(o: State, s: State, b: Block)
    requires Leads(o, s, 0) && MayProduce(s, b)
    ensures Leads(o, ProduceStep(s, b), 0)
  {
    OneMoreMove(o, s, 0, Regular(Produce(b)));
  }

  lemma {:induction false} Produced(k: Kind, s: State, b: Block)
    requires ReachedBy(k, s) && MayProduce(s, b)
    ensures ReachedBy(k, ProduceStep(s, b))
  {
    ProduceKeeps(s, b);
    ProducerMoves(Initial(k), s, b);
  }

  lemma {:induction false} HeaderWritten(k: Kind, b: Block) returns (s: State)
    ensures ReachedBy(k, s) && s.prod.PInitDone? && s.blocks == [] && s.log == [] && s.cons == []
  {
    s := Initial(k);
    InitialInv(k);
    Stays(s);
    Produced(k, s, b);
    s := ProduceStep(s, b);
    if k.Posix? {
      Produced(k, s, b);
      s := ProduceStep(s, b);
    }
    assert s.prod.PInitFirst?;
    Produced(k, s, b);
    s := ProduceStep(s, b);
    Produced(k, s, b);
    s := ProduceStep(s, b);
  }

  lemma {:induction false} ReadyToGenerate(k: Kind, b: Block) returns (s: State)
    ensures ReachedBy(k, s) && s.prod.PGenLock? && s.blocks == [] && s.log == [] && s.cons == []
  {
    s := HeaderWritten(k, b);
    Produced(k, s, b);
    s := ProduceStep(s, b);
    Produced(k, s, b);
    s := ProduceStep(s, b);
  }

  lemma {:induction false} Chosen(k: Kind, s: State, b: Block) returns (t: State)
    requires ReachedBy(k, s) && s.prod.PGenLock? && s.blocks == [] && s.cons == [] && Sized(b)
    ensures ReachedBy(k, t) && t.prod.PCount? && t.prod.b == b && t.blocks == [] && t.log == s.log && t.cons == []
  {
    Produced(k, s, b);
    t := ProduceStep(s, b);
    assert Load(t.mem, k.Free()) == 4 * k.Header() && Limit(t) == SHM_SIZE;
    Produced(k, t, b);
    t := ProduceStep(t, b);
  }

  lemma {:induction false} Filled(k: Kind, s: State) returns (t: State)
    requires ReachedBy(k, s) && s.prod.PData?
    ensures ReachedBy(k, t) && t.prod.PLink? && t.prod.b == s.prod.b
    ensures t.blocks == s.blocks && t.log == s.log && t.cons == s.cons
    decreases |s.prod.b| - s.prod.i
  {
    Produced(k, s, s.prod.b);
    t := ProduceStep(s, s.prod.b);
    if t.prod.PData? { t := Filled(k, t); }
  }

  lemma {:induction false} BlockFilled(k: Kind, b: Block) returns (s: State)
    requires Sized(b)
    ensures ReachedBy(k, s) && s.prod.PLink? && s.prod.b == b && s.blocks == [] && s.log == [] && s.cons == []
  {
    s := ReadyToGenerate(k, b);
    s := Chosen(k, s, b);
    Produced(k, s, b);
    s := ProduceStep(s, b);
    Produced(k, s, b);
    s := ProduceStep(s, b);
    s := Filled(k, s);
  }

  lemma {:induction false} OneBlock(k: Kind, b: Block) returns (s: State)
    requires Sized(b)
    ensures ReachedBy(k, s) && s.prod.PGenLock? && s.blocks == [b] && s.log == [] && s.cons == []
  {
    s := BlockFilled(k, b);
    Produced(k, s, b);
    s := ProduceStep(s, b);
    Produced(k, s, b);
    s := ProduceStep(s, b);
    Produced(k, s, b);
    s := ProduceStep(s, b);
  }

  lemma {:induction false} TwoWaiting(k: Kind, b: Block) returns (s: State)
    requires Sized(b)
    ensures ReachedBy(k, s) && s.sem == Live(1) && s.blocks == [b] && s.log == [] && s.cons == [CLock, CLock]
  {
    s := OneBlock(k, b);
    StepKeeps(s, Join);
    OneMoreMove(Initial(k), s, 0, Regular(Join));
    s := Step(s, Join);
    StepKeeps(s, Join);
    OneMoreMove(Initial(k), s, 0, Regular(Join));
    s := Step(s, Join);
    assert !CInside(s.cons[0]) && !CInside(s.cons[1]);
  }

  lemma {:induction false} TwiceFromTheStart(k: Kind) returns (t: State)
    ensures Leads(Initial(k), t, 1) && ReportedTwice(k, t)
  {
    var s := TwoWaiting(k, [0, 0, 0, 0, 0]);
    t := FailedLockReportsTwice(s, 0, 1);
    OnlyBlockTwice(k, s, t);
    ThenOneFails(Initial(k), s, t);
  }

  lemma {:induction false} ThenOneFails(o: State, s: State, t: State)
    requires Leads(o, s, 0) && Leads(s, t, 1)
    ensures Leads(o, t, 1)
  {
    Onwards(o, s, t, 0, 1);
  }

  /** From the very start of both programs some moves with exactly one failing attempt report the only block twice. */
  lemma {:induction false} ExactlyOnceNeedsTheLock(k: Kind)
    ensures exists moves :: Fails(moves) == 1 && ReportedTwice(k, MoveRun(Initial(k), moves))
  {
    var t := TwiceFromTheStart(k);
    Witness(k, t);
  }

  lemma {:induction false} OnlyBlockTwice(k: Kind, s: State, t: State)
    requires s.kind == k && |s.blocks| == 1 && s.log == [] && Twice(s, t, 0, 1)
    ensures ReportedTwice(k, t)
  {
  }

  lemma {:induction false} Witness(k: Kind, t: State)
    requires Leads(Initial(k), t, 1) && ReportedTwice(k, t)
    ensures exists moves :: Fails(moves) == 1 && ReportedTwice(k, MoveRun(Initial(k), moves))
  {
    var moves :| Path(Initial(k), t, 1, moves);
    assert ReportedTwice(k, MoveRun(Initial(k), moves));
  }

  /** One block was generated, and two different consumers reported it. */
  ghost predicate ReportedTwice(k: Kind, s: State) {
    && |s.blocks| == 1 && |s.log| == 2
    && s.log[0].off == s.log[1].off == Offset(k, s.blocks, 0) && s.log[0].who != s.log[1].who
  }

  /** The reports are, one for one and in order, true reports about the blocks generated. */
  ghost predicate OnceInOrder(s: State) {
    LogOK(s)
  }

  lemma {:induction false} NoneFailing(k: Kind, moves: seq<Move>)
    requires Fails(moves) == 0
    ensures OnceInOrder(MoveRun(Initial(k), moves))
  {
    var schedule := RunOfMoves(Initial(k), moves);
    InitialInv(k);
    RunKeeps(Initial(k), schedule);
  }

  /** Exactly-once survives every sequence of moves with at most n failing lock attempts if and only if n is 0: not a
      single one can be afforded. */
  lemma {:induction false} ExactlyOnceExactly(k: Kind, n: nat)
    ensures (forall moves :: Fails(moves) <= n ==> OnceInOrder(MoveRun(Initial(k), moves))) <==> n == 0
  {
    if n == 0 {
      forall moves | Fails(moves) <= n ensures OnceInOrder(MoveRun(Initial(k), moves)) {
        NoneFailing(k, moves);
      }
    } else {
      ExactlyOnceNeedsTheLock(k);
      var moves :| Fails(moves) == 1 && ReportedTwice(k, MoveRun(Initial(k), moves));
      assert !OnceInOrder(MoveRun(Initial(k), moves));
    }
  }

  /** A failing attempt of the producer lets it into its section just as if it had got the semaphore. */
  lemma {:induction false} ProducerBreaksIn(s: State, b: Block)
    requires s.sem == Live(0) && (s.prod.PInitLock? || s.prod.PGenLock? || s.prod.PWaitLock?)
    ensures var t := MoveStep(s, FailedLock(PRODUCER));
            var free := s.(sem := Live(1));
            PInside(t.prod) && t == s.(prod := t.prod) && t.prod == Step(free, Produce(b)).prod
  {
  }
}
