/** No run is ever stuck short of its end: from every state that is reached, the processes can go on until every block
    is processed and the producer and all consumers have ended. */
module SegmentProgress {
  import opened SegmentMemory
  import opened SegmentRuns
  import opened SegmentSafety

  /** The block the producer draws in the continuations constructed here. */
  const SMALLEST: Block := [0, 0, 0, 0, 0]

  function At(k: Kind, schedule: seq<Action>): State {
    Run(Initial(k), schedule)
  }

  lemma {:induction false} AtInv(k: Kind, schedule: seq<Action>)
    ensures Inv(At(k, schedule)) && At(k, schedule).kind == k
  {
    ReachedInv(k, schedule, At(k, schedule));
  }

  lemma {:induction false} OneStep(k: Kind, schedule: seq<Action>, a: Action)
    ensures At(k, schedule + [a]) == Step(At(k, schedule), a)
  {
    assert (schedule + [a])[..|schedule|] == schedule;
  }

  lemma {:induction false} Longer(schedule: seq<Action>, more: seq<Action>, rest: seq<Action>)
    ensures schedule + more + rest == schedule + (more + rest)
  {
  }

  /** Nobody is inside a critical section. */
  ghost predicate Free(s: State) {
    s.sem == Live(1)
  }

  lemma {:induction false} HolderInside(s: State)
    requires Inv(s) && s.sem.Live? && !Free(s)
    ensures (s.holder == PRODUCER && PInside(s.prod)) || (0 <= s.holder < |s.cons| && CInside(s.cons[s.holder]))
  {
  }

  lemma {:induction false} FreeWhenOutside(s: State)
    requires Inv(s) && s.sem.Live? && !PInside(s.prod) && forall c :: 0 <= c < |s.cons| ==> !CInside(s.cons[c])
    ensures Free(s)
  {
    if !Free(s) {
      HolderInside(s);
      assert false;
    }
  }

  lemma {:induction false} FreeMeansOutside(s: State)
    requires Inv(s) && Free(s)
    ensures !PInside(s.prod) && forall c :: 0 <= c < |s.cons| ==> s.cons[c].CLock? || s.cons[c].CExit?
  {
  }

  // ----- whoever is inside comes out -----

  /** Steps of the producer to the end of its critical section, at most. */
  function ProducerLeft(p: Producer, blocks: nat): nat {
    match p
    case PInitSize => 9
    case PInitFirst => 8
    case PInitFree => 7
    case PInitDone => 6
    case PInitUnlock => 5
    case PGenCheck => 60
    case PCount(_, _) => 59
    case PNext(_, _) => 58
    case PData(_, b, i) => if i <= |b| <= 15 then 31 + |b| - i else 31
    case PLink(_, _) => 30
    case PFree(_, _) => 29
    case PGenUnlock => 28
    case PSetDone => 29
    case PDoneUnlock => 28
    case PWaitFirst => blocks + 3
    case PWaitScan(_, ix) => if ix <= blocks then blocks - ix + 2 else 2
    case PWaitUnlock(_) => 1
    case _ => 0
  }

  function ConsumerLeft(pc: Consumer, blocks: nat): nat {
    match pc
    case CFirst => blocks + 40
    case CScan(_, ix) => if ix <= blocks then blocks - ix + 30 else 30
    case CCount(_, _) => 29
    case CHead(_, _, _) => 28
    case CLoop(_, _, n, i, _, _) => if i <= n <= 15 then 5 + n - i else 21
    case CMark(_, _, _, _, _) => 4
    case CDone => 3
    case CUnlock | CUnlockExit | CUnlockRetry => 1
    case _ => 0
  }

  ghost predicate ComesOut(t: State, s: State) {
    && t.cons == s.cons && t.log == s.log
    && (PInside(t.prod) ==> ProducerLeft(t.prod, |t.blocks|) < ProducerLeft(s.prod, |s.blocks|))
  }

  lemma {:induction false} SettingUpLowers(s: State)
    requires Inv(s) && PInside(s.prod) && (Initialising(s.prod) || Finished(s.prod) || s.prod.PSetDone?)
    requires !s.prod.PWaitFirst? && !s.prod.PWaitScan? && !s.prod.PWaitUnlock?
    ensures ComesOut(Step(s, Produce(SMALLEST)), s)
  {
  }

  lemma {:induction false} WritingLowers(s: State)
    requires Inv(s) && PInside(s.prod) && !s.prod.PWaitFirst? && !s.prod.PWaitScan? && !s.prod.PWaitUnlock?
    ensures ComesOut(Step(s, Produce(SMALLEST)), s)
  {
    if Initialising(s.prod) || Finished(s.prod) || s.prod.PSetDone? { SettingUpLowers(s); }
  }

  lemma {:induction false} WaitingLowers(s: State)
    requires Inv(s) && (s.prod.PWaitFirst? || s.prod.PWaitScan? || s.prod.PWaitUnlock?)
    ensures var t := Step(s, Produce(SMALLEST));
            && t.cons == s.cons && t.log == s.log && t.blocks == s.blocks
            && (PInside(t.prod) ==> ProducerLeft(t.prod, |t.blocks|) < ProducerLeft(s.prod, |s.blocks|))
  {
    if s.prod.PWaitScan? && s.prod.off != 0 { ReadBlock(s.mem, s.kind, s.blocks, |s.log|, s.prod.ix); }
  }

  lemma {:induction false} ConsumerLowers(s: State, c: nat)
    requires Inv(s) && c < |s.cons| && CInside(s.cons[c])
    ensures MayConsume(s, c)
    ensures var t := ConsumeStep(s, c);
            && t.prod == s.prod && t.blocks == s.blocks && t.cons == s.cons[c := t.cons[c]]
            && (CInside(t.cons[c]) ==> ConsumerLeft(t.cons[c], |t.blocks|) < ConsumerLeft(s.cons[c], |s.blocks|))
  {
    var pc := s.cons[c];
    assert ConsumerOK(pc, s.kind, s.blocks, |s.log|, Finished(s.prod));
    if pc.CScan? && pc.off != 0 {
      ReadBlock(s.mem, s.kind, s.blocks, |s.log|, pc.ix);
    } else if pc.CHead? {
      assert Sized(s.blocks[pc.ix]);
    }
  }

  /** How far the holder of the semaphore is from giving it back. */
  function HolderLeft(s: State): nat {
    if s.holder == PRODUCER then 1 + ProducerLeft(s.prod, |s.blocks|)
    else if 0 <= s.holder < |s.cons| then 1 + ConsumerLeft(s.cons[s.holder], |s.blocks|)
    else 0
  }

  function HolderStep(s: State): Action {
    if s.holder == PRODUCER || s.holder < 0 then Produce(SMALLEST) else Consume(s.holder)
  }

  lemma {:induction false} HolderLowers(s: State)
    requires Inv(s) && s.sem.Live? && !Free(s)
    ensures var t := Step(s, HolderStep(s)); t.sem.Live? && (Free(t) || HolderLeft(t) < HolderLeft(s))
  {
    var t := Step(s, HolderStep(s));
    StepKeeps(s, HolderStep(s));
    if s.holder == PRODUCER {
      if s.prod.PWaitFirst? || s.prod.PWaitScan? || s.prod.PWaitUnlock? { WaitingLowers(s); } else { WritingLowers(s); }
      if !PInside(t.prod) { FreeWhenOutside(t); }
    } else {
      ConsumerLowers(s, s.holder);
      if !CInside(t.cons[s.holder]) { FreeWhenOutside(t); }
    }
  }

  lemma {:induction false} Release(k: Kind, schedule: seq<Action>) returns (more: seq<Action>)
    requires At(k, schedule).sem.Live?
    ensures Free(At(k, schedule + more))
    decreases if Free(At(k, schedule)) then 0 else 1 + HolderLeft(At(k, schedule))
  {
    if Free(At(k, schedule)) {
      more := [];
      assert schedule + more == schedule;
    } else {
      var a := HolderStep(At(k, schedule));
      AtInv(k, schedule);
      HolderLowers(At(k, schedule));
      OneStep(k, schedule, a);
      var rest := Release(k, schedule + [a]);
      more := [a] + rest;
      Longer(schedule, [a], rest);
    }
  }

  // ----- the producer comes to wait -----

  ghost predicate Generating(s: State) {
    (Initialising(s.prod) || !Finished(s.prod) || s.prod.PDoneUnlock?) && (PInside(s.prod) || Free(s))
  }

  function Phase(p: Producer): nat {
    if Initialising(p) then 1 else 0
  }

  function WordsLeft(s: State): nat {
    if End(s.kind, s.blocks) <= SHM_WORDS then SHM_WORDS - End(s.kind, s.blocks) else 0
  }

  function RoundLeft(p: Producer): nat {
    match p
    case PInitLock => 10
    case PFree(_, _) => 64
    case PGenUnlock => 63
    case PGenLock => 62
    case _ => ProducerLeft(p, 0)
  }

  ghost predicate CloserToWaiting(t: State, s: State) {
    || Phase(t.prod) < Phase(s.prod)
    || (Phase(t.prod) == Phase(s.prod)
        && (WordsLeft(t) < WordsLeft(s) || (WordsLeft(t) == WordsLeft(s) && RoundLeft(t.prod) < RoundLeft(s.prod))))
  }

  lemma {:induction false} LinkingFills(s: State)
    requires Inv(s) && s.prod.PLink?
    ensures var t := Step(s, Produce(SMALLEST)); WordsLeft(t) < WordsLeft(s) && t.prod.PFree? && t.cons == s.cons
  {
    EndAppend(s.kind, s.blocks, s.prod.b);
  }

  ghost predicate Advanced(t: State, s: State) {
    && t.cons == s.cons && CloserToWaiting(t, s) && t.sem.Live?
    && (t.prod.PWaitLock? || Initialising(t.prod) || !Finished(t.prod) || t.prod.PDoneUnlock?)
  }

  lemma {:induction false} InitialisingLowers(s: State)
    requires Inv(s) && Generating(s) && Initialising(s.prod)
    ensures Advanced(Step(s, Produce(SMALLEST)), s)
  {
    assert s.sem.Live?;
  }

  lemma {:induction false} LockingLowers(s: State)
    requires Inv(s) && Generating(s) && (s.prod.PGenLock? || s.prod.PGenUnlock? || s.prod.PDoneUnlock?)
    ensures Advanced(Step(s, Produce(SMALLEST)), s)
  {
    assert s.sem.Live?;
  }

  lemma {:induction false} DecidingLowers(s: State)
    requires Inv(s) && Generating(s) && (s.prod.PGenCheck? || s.prod.PSetDone?)
    ensures Advanced(Step(s, Produce(SMALLEST)), s)
  {
    assert s.sem.Live?;
  }

  lemma {:induction false} DataLowers(s: State)
    requires Inv(s) && Generating(s) && s.prod.PData?
    ensures Advanced(Step(s, Produce(SMALLEST)), s)
  {
    assert s.sem.Live?;
  }

  lemma {:induction false} FillingLowers(s: State)
    requires Inv(s) && Generating(s) && (s.prod.PCount? || s.prod.PNext? || s.prod.PFree?)
    ensures Advanced(Step(s, Produce(SMALLEST)), s)
  {
    assert s.sem.Live?;
  }

  lemma {:induction false} GeneratingLowers(s: State)
    requires Inv(s) && Generating(s) && !s.prod.PLink?
    ensures Advanced(Step(s, Produce(SMALLEST)), s)
  {
    if Initialising(s.prod) {
      InitialisingLowers(s);
    } else if s.prod.PData? {
      DataLowers(s);
    } else if s.prod.PCount? || s.prod.PNext? || s.prod.PFree? {
      FillingLowers(s);
    } else if s.prod.PGenCheck? || s.prod.PSetDone? {
      DecidingLowers(s);
    } else {
      LockingLowers(s);
    }
  }

  lemma {:induction false} NextRound(s: State)
    requires Inv(s) && Generating(s)
    ensures var t := Step(s, Produce(SMALLEST));
            && CloserToWaiting(t, s) && (Generating(t) || (t.prod.PWaitLock? && Free(t)))
  {
    var t := Step(s, Produce(SMALLEST));
    StepKeeps(s, Produce(SMALLEST));
    if s.prod.PLink? { LinkingFills(s); } else { GeneratingLowers(s); }
    if !PInside(t.prod) { NobodyElseInside(s, t); }
  }

  lemma {:induction false} NobodyElseInside(s: State, t: State)
    requires Inv(s) && Inv(t) && t.cons == s.cons && s.sem.Live? && t.sem.Live?
    requires (PInside(s.prod) || Free(s)) && !PInside(t.prod)
    ensures Free(t)
  {
    assert forall c :: 0 <= c < |s.cons| ==> !CInside(s.cons[c]);
    FreeWhenOutside(t);
  }

  lemma {:induction false} Generate(k: Kind, schedule: seq<Action>) returns (more: seq<Action>)
    requires Generating(At(k, schedule))
    ensures At(k, schedule + more).prod.PWaitLock? && Free(At(k, schedule + more))
    decreases Phase(At(k, schedule).prod), WordsLeft(At(k, schedule)), RoundLeft(At(k, schedule).prod)
  {
    var a := Produce(SMALLEST);
    AtInv(k, schedule);
    NextRound(At(k, schedule));
    OneStep(k, schedule, a);
    if Generating(At(k, schedule + [a])) {
      var rest := Generate(k, schedule + [a]);
      more := [a] + rest;
      Longer(schedule, [a], rest);
    } else {
      more := [a];
    }
  }

  // ----- the consumers process what there is -----

  /** Consumer 0 alone inside, with the n-th block to mark or just marked. */
  ghost predicate Processing(s: State, n: nat) {
    && s.prod.PWaitLock? && s.cons != [] && CInside(s.cons[0]) && !s.cons[0].CUnlockRetry? && n < |s.blocks|
    && (if s.cons[0].CUnlock? then |s.log| == n + 1 else |s.log| == n)
  }

  lemma {:induction false} ProcessingLowers(s: State, n: nat)
    requires Inv(s) && Processing(s, n)
    ensures var t := Step(s, Consume(0));
            && t.blocks == s.blocks && t.prod == s.prod && |t.cons| == |s.cons|
            && (|| (Processing(t, n) && ConsumerLeft(t.cons[0], |t.blocks|) < ConsumerLeft(s.cons[0], |s.blocks|))
                || (Free(t) && |t.log| == n + 1))
  {
    var t := Step(s, Consume(0));
    assert ConsumerOK(s.cons[0], s.kind, s.blocks, |s.log|, Finished(s.prod));
    ConsumerLowers(s, 0);
    StepKeeps(s, Consume(0));
    assert s.sem.Live?;
    if s.cons[0].CScan? {
      ReadBlock(s.mem, s.kind, s.blocks, |s.log|, s.cons[0].ix);
      assert Sized(s.blocks[|s.log|]);
    }
    if !CInside(t.cons[0]) { OnlyOneInside(s, t, 0); }
  }

  lemma {:induction false} OnlyOneInside(s: State, t: State, c: nat)
    requires Inv(s) && Inv(t) && s.sem.Live? && t.sem.Live? && c < |s.cons| && CInside(s.cons[c])
    requires t.prod == s.prod && |t.cons| == |s.cons| && t.cons == s.cons[c := t.cons[c]] && !CInside(t.cons[c])
    ensures Free(t)
  {
    forall d | 0 <= d < |t.cons| ensures !CInside(t.cons[d]) {
      if d != c { assert t.cons[d] == s.cons[d]; }
    }
    FreeWhenOutside(t);
  }

  lemma {:induction false} ProcessBlock(k: Kind, schedule: seq<Action>, n: nat) returns (more: seq<Action>)
    requires Processing(At(k, schedule), n)
    ensures var s, t := At(k, schedule), At(k, schedule + more);
            t.prod.PWaitLock? && Free(t) && t.blocks == s.blocks && t.cons != [] && |t.log| == n + 1
    decreases ConsumerLeft(At(k, schedule).cons[0], |At(k, schedule).blocks|)
  {
    var a := Consume(0);
    AtInv(k, schedule);
    ProcessingLowers(At(k, schedule), n);
    OneStep(k, schedule, a);
    if Processing(At(k, schedule + [a]), n) {
      var rest := ProcessBlock(k, schedule + [a], n);
      more := [a] + rest;
      Longer(schedule, [a], rest);
    } else {
      more := [a];
    }
  }

  lemma {:induction false} EntersToProcess(s: State)
    requires Inv(s) && s.prod.PWaitLock? && Free(s) && s.cons != [] && |s.log| < |s.blocks|
    ensures Processing(Step(s, Consume(0)), |s.log|) && Step(s, Consume(0)).blocks == s.blocks
  {
    FreeMeansOutside(s);
    assert ConsumerOK(s.cons[0], s.kind, s.blocks, |s.log|, Finished(s.prod));
    assert s.cons[0].CLock?;
  }

  lemma {:induction false} ProcessAll(k: Kind, schedule: seq<Action>) returns (more: seq<Action>)
    requires At(k, schedule).prod.PWaitLock? && Free(At(k, schedule)) && At(k, schedule).cons != []
    ensures var t := At(k, schedule + more);
            t.prod.PWaitLock? && Free(t) && |t.log| == |t.blocks|
    decreases |At(k, schedule).blocks| - |At(k, schedule).log|
  {
    var s := At(k, schedule);
    AtInv(k, schedule);
    if |s.log| == |s.blocks| {
      more := [];
      assert schedule + more == schedule;
    } else {
      var a := Consume(0);
      EntersToProcess(s);
      OneStep(k, schedule, a);
      var one := ProcessBlock(k, schedule + [a], |s.log|);
      var rest := ProcessAll(k, schedule + [a] + one);
      more := [a] + one + rest;
      Longer(schedule, [a], one);
      Longer(schedule, [a] + one, rest);
    }
  }

  // ----- the producer ends -----

  ghost predicate Ending(s: State) {
    && |s.log| == |s.blocks|
    && ((s.prod.PWaitLock? && Free(s)) || s.prod.PWaitFirst? || s.prod.PWaitScan? || s.prod == PWaitUnlock(true)
        || s.prod.PCleanup?)
  }

  function EndLeft(p: Producer, blocks: nat): nat {
    match p
    case PWaitLock => blocks + 10
    case PWaitFirst => blocks + 9
    case PWaitScan(_, ix) => if ix <= blocks then blocks - ix + 7 else 7
    case PWaitUnlock(_) => 2
    case PCleanup => 1
    case _ => 0
  }

  lemma {:induction false} EndingLowers(s: State)
    requires Inv(s) && Ending(s)
    ensures var t := Step(s, Produce(SMALLEST));
            && t.cons == s.cons && EndLeft(t.prod, |t.blocks|) < EndLeft(s.prod, |s.blocks|)
            && (Ending(t) || t.prod.PExit?)
            && (t.prod.PExit? <==> s.prod.PCleanup?)
            && (t.prod.PExit? ==> t.sem == if s.kind.SystemV? then Removed else s.sem)
  {
    if s.prod.PWaitScan? && s.prod.off != 0 { ReadBlock(s.mem, s.kind, s.blocks, |s.log|, s.prod.ix); }
  }

  lemma {:induction false} EndProducer(k: Kind, schedule: seq<Action>) returns (more: seq<Action>)
    requires Ending(At(k, schedule)) && (Free(At(k, schedule)) || PInside(At(k, schedule).prod))
    ensures At(k, schedule + more).prod.PExit? && (At(k, schedule + more).sem.Removed? || Free(At(k, schedule + more)))
    decreases EndLeft(At(k, schedule).prod, |At(k, schedule).blocks|)
  {
    var s, a := At(k, schedule), Produce(SMALLEST);
    AtInv(k, schedule);
    EndingLowers(s);
    OneStep(k, schedule, a);
    var t := At(k, schedule + [a]);
    if t.prod.PExit? {
      more := [a];
    } else {
      AtInv(k, schedule + [a]);
      if !PInside(t.prod) { NobodyElseInside(s, t); }
      var rest := EndProducer(k, schedule + [a]);
      more := [a] + rest;
      Longer(schedule, [a], rest);
    }
  }

  // ----- the consumers end -----

  /** Consumer c can go on alone: the semaphore is gone, free, or its own. */
  ghost predicate Alone(s: State, c: nat) {
    && s.prod.PExit? && c < |s.cons|
    && (s.sem.Removed? || Free(s) || (s.sem == Live(0) && s.holder == c))
  }

  lemma {:induction false} ExitStepLowers(s: State, c: nat)
    requires Inv(s) && Alone(s, c) && !s.cons[c].CExit?
    ensures var t := Step(s, Consume(c));
            && t.prod == s.prod && t.blocks == s.blocks && t.cons == s.cons[c := t.cons[c]] && Alone(t, c)
            && StepsToExit(t.cons[c], |t.blocks|) < StepsToExit(s.cons[c], |s.blocks|)
            && (t.cons[c].CExit? ==> t.sem.Removed? || Free(t))
  {
    var pc := s.cons[c];
    assert ConsumerOK(pc, s.kind, s.blocks, |s.log|, Finished(s.prod));
    if pc.CScan? && pc.off != 0 { ReadBlock(s.mem, s.kind, s.blocks, |s.log|, pc.ix); }
  }

  lemma {:induction false} EndConsumer(k: Kind, schedule: seq<Action>, c: nat) returns (more: seq<Action>)
    requires Alone(At(k, schedule), c)
    requires At(k, schedule).cons[c].CExit? ==> At(k, schedule).sem.Removed? || Free(At(k, schedule))
    ensures var s, t := At(k, schedule), At(k, schedule + more);
            && t.prod.PExit? && (t.sem.Removed? || Free(t)) && |t.cons| == |s.cons| && t.cons[c].CExit?
            && forall d :: 0 <= d < |s.cons| && d != c ==> t.cons[d] == s.cons[d]
    decreases StepsToExit(At(k, schedule).cons[c], |At(k, schedule).blocks|)
  {
    if At(k, schedule).cons[c].CExit? {
      more := [];
      assert schedule + more == schedule;
    } else {
      var a := Consume(c);
      AtInv(k, schedule);
      ExitStepLowers(At(k, schedule), c);
      OneStep(k, schedule, a);
      var rest := EndConsumer(k, schedule + [a], c);
      more := [a] + rest;
      Longer(schedule, [a], rest);
    }
  }

  lemma {:induction false} EndConsumers(k: Kind, schedule: seq<Action>, n: nat) returns (more: seq<Action>)
    requires At(k, schedule).prod.PExit? && (At(k, schedule).sem.Removed? || Free(At(k, schedule)))
    requires n <= |At(k, schedule).cons| && forall d :: 0 <= d < n ==> At(k, schedule).cons[d].CExit?
    ensures AllEnded(At(k, schedule + more))
    decreases |At(k, schedule).cons| - n
  {
    if n == |At(k, schedule).cons| {
      more := [];
      assert schedule + more == schedule;
    } else {
      var one := EndConsumer(k, schedule, n);
      var rest := EndConsumers(k, schedule + one, n + 1);
      more := one + rest;
      Longer(schedule, one, rest);
    }
  }

  ghost predicate AllEnded(s: State) {
    s.prod.PExit? && forall c :: 0 <= c < |s.cons| ==> s.cons[c].CExit?
  }

  // ----- from every state to the end -----

  lemma {:induction false} EndFromWaiting(k: Kind, schedule: seq<Action>) returns (more: seq<Action>)
    requires At(k, schedule).prod.PWaitLock? && Free(At(k, schedule))
    ensures At(k, schedule + more).prod.PExit? && (At(k, schedule + more).sem.Removed? || Free(At(k, schedule + more)))
  {
    OneStep(k, schedule, Join);
    var process := ProcessAll(k, schedule + [Join]);
    var end := EndProducer(k, schedule + [Join] + process);
    more := [Join] + process + end;
    Longer(schedule, [Join], process);
    Longer(schedule, [Join] + process, end);
  }

  lemma {:induction false} EndFromFree(k: Kind, schedule: seq<Action>) returns (more: seq<Action>)
    requires Free(At(k, schedule))
    ensures At(k, schedule + more).prod.PExit? && (At(k, schedule + more).sem.Removed? || Free(At(k, schedule + more)))
  {
    var s := At(k, schedule);
    AtInv(k, schedule);
    FreeMeansOutside(s);
    if s.prod.PExit? {
      more := [];
      assert schedule + more == schedule;
    } else if s.prod.PCleanup? {
      more := EndProducer(k, schedule);
    } else if s.prod.PWaitLock? {
      more := EndFromWaiting(k, schedule);
    } else {
      var generate := Generate(k, schedule);
      var rest := EndFromWaiting(k, schedule + generate);
      more := generate + rest;
      Longer(schedule, generate, rest);
    }
  }

  lemma {:induction false} ProducerCanEnd(k: Kind, schedule: seq<Action>) returns (more: seq<Action>)
    ensures At(k, schedule + more).prod.PExit? && (At(k, schedule + more).sem.Removed? || Free(At(k, schedule + more)))
  {
    if At(k, schedule).sem.Removed? {
      AtInv(k, schedule);
      more := [];
      assert schedule + more == schedule;
    } else {
      var release := Release(k, schedule);
      var rest := EndFromFree(k, schedule + release);
      more := release + rest;
      Longer(schedule, release, rest);
    }
  }

  /** From every state of every run the processes can go on until the producer and all consumers have ended, with every
      block generated, full segment and all, reported. */
  lemma {:induction false} CanAlwaysFinish(k: Kind, schedule: seq<Action>) returns (more: seq<Action>)
    ensures var t := At(k, schedule + more);
            && AllEnded(t) && |t.log| == |t.blocks| >= 53 && (t.sem.Removed? <==> k.SystemV?)
  {
    var first := ProducerCanEnd(k, schedule);
    var rest := EndConsumers(k, schedule + first, 0);
    more := first + rest;
    Longer(schedule, first, rest);
    AtInv(k, schedule + more);
    GenerationYield(k, schedule + more, At(k, schedule + more));
  }

  /** When the System V producer comes to its cleanup, a consumer can still start before the semaphore is destroyed, and
      then has to find its end without it. */
  lemma {:induction false} RemovedUnderConsumer(schedule: seq<Action>)
    requires At(SystemV, schedule).prod.PCleanup?
    ensures var s := At(SystemV, schedule);
            var t := At(SystemV, schedule + [Join, Produce(SMALLEST)]);
            t.sem.Removed? && |t.cons| == |s.cons| + 1 && t.cons[|s.cons|].CLock?
  {
    AtInv(SystemV, schedule);
    OneStep(SystemV, schedule, Join);
    OneStep(SystemV, schedule + [Join], Produce(SMALLEST));
    assert schedule + [Join] + [Produce(SMALLEST)] == schedule + [Join, Produce(SMALLEST)];
  }
}
