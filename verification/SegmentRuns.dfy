/** One producer and any number of consumers over the shared segment, in every interleaving of steps that are one
    semaphore operation, or one field access, or a test of a field together with the access it decides on. */
module SegmentRuns {
  import opened SegmentMemory

  datatype Semaphore = Live(value: nat) | Removed

  /** Where the producer is: the header set-up, the generation loop, the waiting loop, the cleanup. */
  datatype Producer =
    | PInitLock | PInitSize | PInitFirst | PInitFree | PInitDone | PInitUnlock
    | PGenLock | PGenCheck | PCount(at: nat, b: Block) | PNext(at: nat, b: Block) | PData(at: nat, b: Block, i: nat)
    | PLink(at: nat, b: Block) | PFree(at: nat, b: Block) | PGenUnlock | PSetDone | PDoneUnlock
    | PWaitLock | PWaitFirst | PWaitScan(off: nat, ix: nat) | PWaitUnlock(all: bool)
    | PCleanup | PExit

  /** Where a consumer is in its loop, with its local variables; ix counts the blocks passed so far. */
  datatype Consumer =
    | CLock | CFirst | CScan(off: nat, ix: nat) | CCount(off: nat, ix: nat) | CHead(off: nat, ix: nat, n: nat)
    | CLoop(off: nat, ix: nat, n: nat, i: nat, min: int32, max: int32)
    | CMark(off: nat, ix: nat, n: nat, min: int32, max: int32) | CUnlock
    | CDone | CUnlockExit | CUnlockRetry | CExit

  /** The line a consumer prints for a block. */
  datatype Report = Report(who: nat, off: nat, count: nat, min: int32, max: int32)

  const NOBODY := -2
  const PRODUCER := -1

  /** Memory, semaphore and processes, with three history variables: who took the semaphore last,
      the blocks generated so far, the reports printed so far. */
  datatype State = State(
    kind: Kind, mem: Mem, sem: Semaphore, prod: Producer, last: nat, cons: seq<Consumer>,
    holder: int, blocks: seq<Block>, log: seq<Report>)

  /** One step: of the producer (b is the block it draws, if it draws one), of consumer c, or a consumer starting. */
  datatype Action = Produce(b: Block) | Consume(c: nat) | Join

  function Initial(k: Kind): State {
    State(k, seq(SHM_WORDS, _ => 0), Live(1), PInitLock, 0, [], NOBODY, [], [])
  }

  predicate PInside(p: Producer) {
    !p.PInitLock? && !p.PGenLock? && !p.PWaitLock? && !p.PCleanup? && !p.PExit?
  }

  predicate CInside(c: Consumer) {
    !c.CLock? && !c.CExit?
  }

  /** A lock attempt blocks only on a live semaphore at 0; on a removed one it fails and the result is ignored. A live
      one is taken to fail no call, as a signal that interrupts a waiting process could make it. */
  predicate MayLock(s: State) {
    s.sem.Live? ==> s.sem.value > 0
  }

  function Locked(s: State, who: int): State
    requires MayLock(s)
  {
    if s.sem.Live? then s.(sem := Live(s.sem.value - 1), holder := who) else s
  }

  function Unlocked(s: State): State {
    if s.sem.Live? then s.(sem := Live(s.sem.value + 1), holder := NOBODY) else s
  }

  function Limit(s: State): nat {
    if s.kind.SystemV? then SHM_SIZE else Load(s.mem, 0)
  }

  function SetWord(m: Mem, i: nat, w: int32): Mem {
    if i < |m| then m[i := w] else m
  }

  function WordAt(m: Mem, i: nat): int32 {
    if i < |m| then m[i] else 0
  }

  predicate MayProduce(s: State, b: Block) {
    match s.prod
    case PInitLock | PGenLock | PWaitLock => MayLock(s)
    case PGenCheck => Sized(b)
    case PExit => false
    case _ => true
  }

  function ProduceStep(s: State, b: Block): State
    requires MayProduce(s, b)
  {
    var k := s.kind;
    match s.prod
    case PInitLock => Locked(s, PRODUCER).(prod := if k.Posix? then PInitSize else PInitFirst)
    case PInitSize => s.(mem := Store(s.mem, 0, SHM_SIZE), prod := PInitFirst)
    case PInitFirst => s.(mem := Store(s.mem, k.First(), 0), prod := PInitFree)
    case PInitFree => s.(mem := Store(s.mem, k.Free(), 4 * k.Header()), prod := PInitDone)
    case PInitDone => s.(mem := SetWord(s.mem, k.Done(), 0), prod := PInitUnlock)
    case PInitUnlock => Unlocked(s).(prod := PGenLock)
    case PGenLock => Locked(s, PRODUCER).(prod := PGenCheck)
    case PGenCheck =>
      var free := Load(s.mem, k.Free());
      if free + 4 * (BLOCK_HEADER + |b|) > Limit(s) then s.(prod := PSetDone) else s.(prod := PCount(free, b))
    case PCount(at, d) => s.(mem := Store(s.mem, at / 4, |d|), prod := PNext(at, d))
    case PNext(at, d) => s.(mem := Store(s.mem, at / 4 + 2, 0), prod := PData(at, d, 0))
    case PData(at, d, i) =>
      if i < |d| then s.(mem := SetWord(s.mem, at / 4 + BLOCK_HEADER + i, d[i]), prod := PData(at, d, i + 1))
      else s.(prod := PLink(at, d))
    case PLink(at, d) =>
      var link := if Load(s.mem, k.First()) == 0 then k.First() else s.last / 4 + 2;
      s.(mem := Store(s.mem, link, at), last := at, blocks := s.blocks + [d], prod := PFree(at, d))
    case PFree(at, d) =>
      s.(mem := Store(s.mem, k.Free(), Load(s.mem, k.Free()) + 4 * (BLOCK_HEADER + |d|)), prod := PGenUnlock)
    case PGenUnlock => Unlocked(s).(prod := PGenLock)
    case PSetDone => s.(mem := SetWord(s.mem, k.Done(), 1), prod := PDoneUnlock)
    case PDoneUnlock => Unlocked(s).(prod := PWaitLock)
    case PWaitLock => Locked(s, PRODUCER).(prod := PWaitFirst)
    case PWaitFirst => s.(prod := PWaitScan(Load(s.mem, k.First()), 0))
    case PWaitScan(off, ix) =>
      if off == 0 then s.(prod := PWaitUnlock(true))
      else if Load(s.mem, off / 4) > 0 then s.(prod := PWaitUnlock(false))
      else s.(prod := PWaitScan(Load(s.mem, off / 4 + 2), ix + 1))
    case PWaitUnlock(all) => Unlocked(s).(prod := if all then PCleanup else PWaitLock)
    case PCleanup => if k.SystemV? then s.(sem := Removed, prod := PExit) else s.(prod := PExit)
  }

  predicate MayConsume(s: State, c: nat) {
    c < |s.cons| && (s.cons[c].CLock? ==> MayLock(s)) && !s.cons[c].CExit?
  }

  function Goto(s: State, c: nat, pc: Consumer): State
    requires c < |s.cons|
  {
    s.(cons := s.cons[c := pc])
  }

  function ConsumeStep(s: State, c: nat): State
    requires MayConsume(s, c)
  {
    match s.cons[c]
    case CLock => Goto(Locked(s, c), c, CFirst)
    case CFirst => Goto(s, c, CScan(Load(s.mem, s.kind.First()), 0))
    case CScan(off, ix) =>
      if off == 0 then Goto(s, c, CDone)
      else if Load(s.mem, off / 4) > 0 then Goto(s, c, CCount(off, ix))
      else Goto(s, c, CScan(Load(s.mem, off / 4 + 2), ix + 1))
    case CCount(off, ix) => Goto(s, c, CHead(off, ix, Load(s.mem, off / 4)))
    case CHead(off, ix, n) =>
      var v := WordAt(s.mem, off / 4 + BLOCK_HEADER);
      Goto(s, c, CLoop(off, ix, n, 0, v, v))
    case CLoop(off, ix, n, i, min, max) =>
      if i < n then
        var v := WordAt(s.mem, off / 4 + BLOCK_HEADER + i);
        Goto(s, c, CLoop(off, ix, n, i + 1, if v < min then v else min, if v > max then v else max))
      else Goto(s, c, CMark(off, ix, n, min, max))
    case CMark(off, ix, n, min, max) =>
      Goto(s, c, CUnlock).(mem := Store(s.mem, off / 4, 0), log := s.log + [Report(c, off, n, min, max)])
    case CUnlock => Goto(Unlocked(s), c, CLock)
    case CDone => Goto(s, c, if WordAt(s.mem, s.kind.Done()) != 0 then CUnlockExit else CUnlockRetry)
    case CUnlockExit => Goto(Unlocked(s), c, CExit)
    case CUnlockRetry => Goto(Unlocked(s), c, CLock)
  }

  /** A step that is not possible (a blocked lock, a process that has ended) changes nothing. */
  function Step(s: State, a: Action): (t: State)
    ensures t.kind == s.kind
  {
    match a
    case Produce(b) => if MayProduce(s, b) then ProduceStep(s, b) else s
    case Consume(c) => if MayConsume(s, c) then ConsumeStep(s, c) else s
    case Join => s.(cons := s.cons + [CLock])
  }

  /** The state after a schedule. */
  function Run(s: State, schedule: seq<Action>): (t: State)
    ensures t.kind == s.kind
  {
    if schedule == [] then s else Step(Run(s, schedule[..|schedule| - 1]), schedule[|schedule| - 1])
  }

  // ----- the invariant -----

  ghost predicate Exclusive(s: State) {
    s.sem.Live? ==>
      && NOBODY <= s.holder < |s.cons|
      && s.sem.value == (if s.holder == NOBODY then 1 else 0)
      && (PInside(s.prod) <==> s.holder == PRODUCER)
      && forall c :: 0 <= c < |s.cons| ==> (CInside(s.cons[c]) <==> s.holder == c)
  }

  predicate Initialising(p: Producer) {
    p.PInitLock? || p.PInitSize? || p.PInitFirst? || p.PInitFree? || p.PInitDone? || p.PInitUnlock?
  }

  /** The producer has set the done flag. */
  predicate Finished(p: Producer) {
    p.PDoneUnlock? || p.PWaitLock? || p.PWaitFirst? || p.PWaitScan? || p.PWaitUnlock? || p.PCleanup? || p.PExit?
  }

  /** The producer has seen every block processed. */
  predicate PastWait(p: Producer) {
    p == PWaitUnlock(true) || p.PCleanup? || p.PExit?
  }

  ghost predicate HeaderOK(s: State)
    requires |s.mem| == SHM_WORDS
  {
    var k := s.kind;
    && SizeAt(s.mem, k.First()) == Offset(k, s.blocks, 0)
    && s.mem[k.Done()] == (if Finished(s.prod) then 1 else 0)
    && (Initialising(s.prod) ==> s.blocks == [])
    && (k.Posix? && !s.prod.PInitLock? && !s.prod.PInitSize? ==> SizeAt(s.mem, 0) == SHM_SIZE)
    && (!Initialising(s.prod) || s.prod.PInitDone? || s.prod.PInitUnlock? ==>
          SizeAt(s.mem, k.Free()) == if s.prod.PFree? then s.prod.at else 4 * End(k, s.blocks))
    && (s.blocks != [] ==> s.last == Offset(k, s.blocks, |s.blocks| - 1))
  }

  ghost predicate MemoryOK(s: State)
  {
    Chain(s.mem, s.kind, s.blocks, |s.log|) && HeaderOK(s)
  }

  /** The block being written fits behind the chain and its words are set as far as the producer got. */
  ghost predicate Writing(s: State, at: nat, b: Block) {
    at == 4 * End(s.kind, s.blocks) && Sized(b) && End(s.kind, s.blocks) + BLOCK_HEADER + |b| <= SHM_WORDS
  }

  ghost predicate ProducerOK(s: State)
    requires |s.mem| == SHM_WORDS
  {
    var e := End(s.kind, s.blocks);
    && (match s.prod
        case PInitSize => s.kind.Posix?
        case PCount(at, b) => Writing(s, at, b)
        case PNext(at, b) => Writing(s, at, b) && SizeAt(s.mem, e) == |b|
        case PData(at, b, i) =>
          && Writing(s, at, b) && i <= |b| && SizeAt(s.mem, e) == |b| && SizeAt(s.mem, e + 2) == 0
          && s.mem[e + BLOCK_HEADER..e + BLOCK_HEADER + i] == b[..i]
        case PLink(at, b) => Writing(s, at, b) && BlockWords(s.mem, e, |b|, 0, b)
        case PFree(at, b) =>
          s.blocks != [] && s.blocks[|s.blocks| - 1] == b && at == Offset(s.kind, s.blocks, |s.blocks| - 1)
        case PWaitScan(off, ix) => ix <= |s.log| && ix <= |s.blocks| && off == Offset(s.kind, s.blocks, ix)
        case _ => true)
    && (s.prod.PSetDone? || Finished(s.prod) ==> e + BLOCK_HEADER + 15 > SHM_WORDS)
    && (PastWait(s.prod) ==> |s.log| == |s.blocks|)
    && (s.sem.Removed? <==> s.kind.SystemV? && s.prod.PExit?)
  }

  /** v is the least of the first n integers of b. */
  ghost predicate LeastOf(v: int32, b: Block, n: nat)
    requires n <= |b|
  {
    v in b && forall j :: 0 <= j < n ==> v <= b[j]
  }

  ghost predicate GreatestOf(v: int32, b: Block, n: nat)
    requires n <= |b|
  {
    v in b && forall j :: 0 <= j < n ==> v >= b[j]
  }

  /** The consumer has found block ix, which is the first unmarked one. */
  ghost predicate AtBlock(k: Kind, bs: seq<Block>, processed: nat, off: nat, ix: nat) {
    ix == processed < |bs| && off == Offset(k, bs, ix)
  }

  ghost predicate ConsumerOK(c: Consumer, k: Kind, bs: seq<Block>, processed: nat, finished: bool) {
    match c
    case CScan(off, ix) => ix <= processed <= |bs| && off == Offset(k, bs, ix)
    case CCount(off, ix) => AtBlock(k, bs, processed, off, ix)
    case CHead(off, ix, n) => AtBlock(k, bs, processed, off, ix) && n == |bs[ix]|
    case CLoop(off, ix, n, i, min, max) =>
      AtBlock(k, bs, processed, off, ix) && i <= n == |bs[ix]| && LeastOf(min, bs[ix], i) && GreatestOf(max, bs[ix], i)
    case CMark(off, ix, n, min, max) =>
      AtBlock(k, bs, processed, off, ix) && n == |bs[ix]| && LeastOf(min, bs[ix], n) && GreatestOf(max, bs[ix], n)
    case CDone => processed == |bs|
    case CUnlockExit | CExit => processed == |bs| && finished
    case _ => true
  }

  ghost predicate ConsumersOK(s: State) {
    forall c :: 0 <= c < |s.cons| ==> ConsumerOK(s.cons[c], s.kind, s.blocks, |s.log|, Finished(s.prod))
  }

  /** Report i is about block i, with its true element count, least and greatest integer. */
  ghost predicate TrueReport(r: Report, k: Kind, bs: seq<Block>, i: nat)
    requires i < |bs|
  {
    r.off == Offset(k, bs, i) && r.count == |bs[i]| && LeastOf(r.min, bs[i], |bs[i]|)
        && GreatestOf(r.max, bs[i], |bs[i]|)
  }

  ghost predicate LogOK(s: State) {
    |s.log| <= |s.blocks| && forall i :: 0 <= i < |s.log| ==> TrueReport(s.log[i], s.kind, s.blocks, i)
  }

  ghost predicate Inv(s: State) {
    && |s.mem| == SHM_WORDS
    && Exclusive(s)
    && MemoryOK(s)
    && ProducerOK(s)
    && ConsumersOK(s)
    && LogOK(s)
  }
}
