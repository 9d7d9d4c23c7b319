/** The invariant of SegmentRuns holds in every interleaving, and what follows from it. */
module SegmentSafety {
  import opened SegmentMemory
  import opened SegmentRuns

  lemma {:induction false} InitialInv(k: Kind)
    ensures Inv(Initial(k))
  {
  }

  // ----- steps of the producer -----

  ghost predicate SegmentOK(s: State) {
    |s.mem| == SHM_WORDS && MemoryOK(s) && ProducerOK(s)
  }

  /** A producer step inside its critical section that does not link a block concerns only memory and producer. */
  lemma {:induction false} InsideKeeps(s: State, s': State)
    requires Inv(s) && SegmentOK(s') && PInside(s.prod) && PInside(s'.prod)
    requires s' == s.(prod := s'.prod, mem := s'.mem)
    requires Finished(s.prod) ==> Finished(s'.prod)
    ensures Inv(s')
  {
  }

  lemma {:induction false} InitStep(s: State, b: Block)
    requires SegmentOK(s) && Initialising(s.prod) && !s.prod.PInitLock? && !s.prod.PInitUnlock?
    ensures SegmentOK(ProduceStep(s, b))
  {
    ChainFrame(s.mem, ProduceStep(s, b).mem, s.kind, s.blocks, |s.log|);
  }

  lemma {:induction false} CheckStep(s: State, b: Block)
    requires SegmentOK(s) && MayProduce(s, b) && s.prod.PGenCheck?
    ensures SegmentOK(ProduceStep(s, b))
  {
  }

  lemma {:induction false} WaitStep(s: State, b: Block)
    requires SegmentOK(s) && s.prod.PWaitFirst?
    ensures SegmentOK(ProduceStep(s, b))
  {
  }

  lemma {:induction false} ScanStep(s: State, b: Block)
    requires SegmentOK(s) && s.prod.PWaitScan?
    ensures SegmentOK(ProduceStep(s, b))
  {
    if s.prod.off != 0 {
      ReadBlock(s.mem, s.kind, s.blocks, |s.log|, s.prod.ix);
    }
  }

  /** Writing into the free space behind the chain leaves header and chain alone. */
  lemma {:induction false} BehindChain(s: State, m': Mem, p: Producer)
    requires SegmentOK(s) && (s.prod.PCount? || s.prod.PNext? || s.prod.PData?) && (p.PNext? || p.PData?)
    requires |m'| == |s.mem| && forall w :: 0 <= w < End(s.kind, s.blocks) ==> m'[w] == s.mem[w]
    ensures MemoryOK(s.(mem := m', prod := p))
  {
    ChainFrame(s.mem, m', s.kind, s.blocks, |s.log|);
  }

  lemma {:induction false} CountStep(s: State, b: Block)
    requires SegmentOK(s) && s.prod.PCount?
    ensures SegmentOK(ProduceStep(s, b))
  {
    var s' := ProduceStep(s, b);
    BehindChain(s, s'.mem, s'.prod);
  }

  lemma {:induction false} NextStep(s: State, b: Block)
    requires SegmentOK(s) && s.prod.PNext?
    ensures SegmentOK(ProduceStep(s, b))
  {
    var s' := ProduceStep(s, b);
    BehindChain(s, s'.mem, s'.prod);
  }

  lemma {:induction false} DataWord(m: Mem, e: nat, b: Block, i: nat)
    requires i < |b| && e + BLOCK_HEADER + |b| <= |m|
    requires m[e + BLOCK_HEADER..e + BLOCK_HEADER + i] == b[..i]
    ensures var m' := m[e + BLOCK_HEADER + i := b[i]];
            m'[e + BLOCK_HEADER..e + BLOCK_HEADER + (i + 1)] == b[..i + 1]
  {
    var m' := m[e + BLOCK_HEADER + i := b[i]];
    assert m'[e + BLOCK_HEADER..e + BLOCK_HEADER + (i + 1)] == m[e + BLOCK_HEADER..e + BLOCK_HEADER + i] + [b[i]];
  }

  lemma {:induction false} DataWritten(s: State, t: State)
    requires SegmentOK(s) && s.prod.PData? && s.prod.i < |s.prod.b|
    requires t == s.(mem := s.mem[End(s.kind, s.blocks) + BLOCK_HEADER + s.prod.i := s.prod.b[s.prod.i]],
                     prod := PData(s.prod.at, s.prod.b, s.prod.i + 1))
    ensures ProducerOK(t)
  {
    DataWord(s.mem, End(s.kind, s.blocks), s.prod.b, s.prod.i);
  }

  lemma {:induction false} DataStep(s: State, b: Block)
    requires SegmentOK(s) && s.prod.PData? && s.prod.i < |s.prod.b|
    ensures SegmentOK(ProduceStep(s, b))
  {
    var e, d, i := End(s.kind, s.blocks), s.prod.b, s.prod.i;
    var m' := s.mem[e + BLOCK_HEADER + i := d[i]];
    var t := s.(mem := m', prod := PData(s.prod.at, d, i + 1));
    assert ProduceStep(s, b) == t;
    BehindChain(s, m', t.prod);
    DataWritten(s, t);
  }

  lemma {:induction false} DataEnd(s: State, b: Block)
    requires SegmentOK(s) && s.prod.PData? && s.prod.i == |s.prod.b|
    ensures SegmentOK(ProduceStep(s, b))
  {
    assert s.prod.b[..s.prod.i] == s.prod.b;
  }

  lemma {:induction false} FreeStep(s: State, b: Block)
    requires SegmentOK(s) && s.prod.PFree?
    ensures SegmentOK(ProduceStep(s, b))
  {
    FreeWrites(s, b);
    ChainFrame(s.mem, ProduceStep(s, b).mem, s.kind, s.blocks, |s.log|);
  }

  lemma {:induction false} FreeValue(s: State)
    requires SegmentOK(s) && s.prod.PFree?
    ensures Load(s.mem, s.kind.Free()) + 4 * (BLOCK_HEADER + |s.prod.b|) == 4 * End(s.kind, s.blocks) < TWO64
  {
    EndBounds(s.kind, s.blocks, |s.blocks|);
  }

  lemma {:induction false} FreeWrites(s: State, b: Block)
    requires SegmentOK(s) && s.prod.PFree?
    ensures 4 * End(s.kind, s.blocks) < TWO64
    ensures ProduceStep(s, b) == s.(mem := PutSize(s.mem, s.kind.Free(), 4 * End(s.kind, s.blocks)), prod := PGenUnlock)
  {
    FreeValue(s);
  }

  lemma {:induction false} DoneStep(s: State, b: Block)
    requires SegmentOK(s) && s.prod.PSetDone?
    ensures SegmentOK(ProduceStep(s, b))
  {
    ChainFrame(s.mem, ProduceStep(s, b).mem, s.kind, s.blocks, |s.log|);
  }

  /** Hooking in the block leaves the rest of the header alone. */
  lemma {:induction false} LinkHeader(s: State, m': Mem)
    requires SegmentOK(s) && s.prod.PLink? && Hooked(s.mem, m', s.kind, s.blocks)
    ensures HeaderOK(s.(mem := m', last := s.prod.at, blocks := s.blocks + [s.prod.b],
                        prod := PFree(s.prod.at, s.prod.b)))
  {
    StartPrefix(s.kind, s.blocks, s.prod.b, |s.blocks|);
    StartPrefix(s.kind, s.blocks, s.prod.b, 0);
    if s.blocks != [] { StartMonotone(s.kind, s.blocks, |s.blocks| - 1, |s.blocks|); }
  }

  /** The word the source's branch on the list head selects. */
  lemma {:induction false} LinkIndex(s: State)
    requires SegmentOK(s) && s.prod.PLink?
    ensures (if Load(s.mem, s.kind.First()) == 0 then s.kind.First() else s.last / 4 + 2) == LinkWord(s.kind, s.blocks)
    ensures LinkWord(s.kind, s.blocks) + 1 < |s.mem| && s.prod.at == 4 * End(s.kind, s.blocks) < TWO64
  {
    if s.blocks != [] { StartMonotone(s.kind, s.blocks, |s.blocks| - 1, |s.blocks|); }
  }

  lemma {:induction false} LinkWrites(s: State, b: Block)
    requires SegmentOK(s) && s.prod.PLink?
    ensures LinkWord(s.kind, s.blocks) + 1 < |s.mem| && 4 * End(s.kind, s.blocks) < TWO64
    ensures ProduceStep(s, b).mem == PutSize(s.mem, LinkWord(s.kind, s.blocks), 4 * End(s.kind, s.blocks))
  {
    LinkIndex(s);
  }

  lemma {:induction false} LinkChain(s: State, b: Block)
    requires SegmentOK(s) && s.prod.PLink?
    ensures var s' := ProduceStep(s, b);
            Hooked(s.mem, s'.mem, s.kind, s.blocks) && Chain(s'.mem, s.kind, s.blocks + [s.prod.b], |s.log|)
  {
    LinkWrites(s, b);
    ChainAppend(s.mem, ProduceStep(s, b).mem, s.kind, s.blocks, |s.log|, s.prod.b);
  }

  lemma {:induction false} LinkedLast(k: Kind, bs: seq<Block>, b: Block)
    ensures Offset(k, bs + [b], |bs|) == 4 * End(k, bs)
  {
    StartPrefix(k, bs, b, |bs|);
  }

  lemma {:induction false} LinkStep(s: State, b: Block)
    requires SegmentOK(s) && s.prod.PLink?
    ensures SegmentOK(ProduceStep(s, b))
  {
    var at, d := s.prod.at, s.prod.b;
    var s' := ProduceStep(s, b);
    LinkChain(s, b);
    StartPrefix(s.kind, s.blocks, d, |s.blocks|);
    assert s' == s.(mem := s'.mem, last := at, blocks := s.blocks + [d], prod := PFree(at, d));
    LinkHeader(s, s'.mem);
    LinkedLast(s.kind, s.blocks, d);
  }

  lemma {:induction false} WritingStep(s: State, b: Block)
    requires SegmentOK(s) && (s.prod.PCount? || s.prod.PNext? || s.prod.PData? || s.prod.PFree?)
    ensures SegmentOK(ProduceStep(s, b))
  {
    match s.prod {
      case PCount(_, _) => CountStep(s, b);
      case PNext(_, _) => NextStep(s, b);
      case PData(_, _, _) => if s.prod.i < |s.prod.b| { DataStep(s, b); } else { DataEnd(s, b); }
      case PFree(_, _) => FreeStep(s, b);
    }
  }

  lemma {:induction false} ReadingStep(s: State, b: Block)
    requires SegmentOK(s) && MayProduce(s, b)
    requires s.prod.PGenCheck? || s.prod.PSetDone? || s.prod.PWaitFirst? || s.prod.PWaitScan?
    ensures SegmentOK(ProduceStep(s, b))
  {
    match s.prod {
      case PGenCheck => CheckStep(s, b);
      case PSetDone => DoneStep(s, b);
      case PWaitFirst => WaitStep(s, b);
      case PWaitScan(_, _) => ScanStep(s, b);
    }
  }

  lemma {:induction false} InsideStep(s: State, b: Block)
    requires Inv(s) && MayProduce(s, b) && PInside(s.prod) && PInside(ProduceStep(s, b).prod) && !s.prod.PLink?
    ensures Inv(ProduceStep(s, b))
  {
    assert SegmentOK(ProduceStep(s, b)) by {
      if Initialising(s.prod) {
        InitStep(s, b);
      } else if s.prod.PCount? || s.prod.PNext? || s.prod.PData? || s.prod.PFree? {
        WritingStep(s, b);
      } else {
        ReadingStep(s, b);
      }
    }
    InsideKeeps(s, ProduceStep(s, b));
  }

  lemma {:induction false} LinkKeeps(s: State, b: Block)
    requires Inv(s) && s.prod.PLink?
    ensures Inv(ProduceStep(s, b))
  {
    LinkStep(s, b);
    var s' := ProduceStep(s, b);
    forall i | 0 <= i < |s.log| ensures TrueReport(s'.log[i], s'.kind, s'.blocks, i) {
      assert TrueReport(s.log[i], s.kind, s.blocks, i);
      StartPrefix(s.kind, s.blocks, s.prod.b, i);
    }
    assert forall c :: 0 <= c < |s.cons| ==> !CInside(s.cons[c]);
  }

  lemma {:induction false} LockKeeps(s: State, b: Block)
    requires Inv(s) && MayProduce(s, b) && (s.prod.PInitLock? || s.prod.PGenLock? || s.prod.PWaitLock?)
    ensures Inv(ProduceStep(s, b))
  {
    assert MemoryOK(ProduceStep(s, b));
  }

  lemma {:induction false} UnlockKeeps(s: State, b: Block)
    requires Inv(s) && (s.prod.PInitUnlock? || s.prod.PGenUnlock? || s.prod.PDoneUnlock? || s.prod.PWaitUnlock?)
    ensures Inv(ProduceStep(s, b))
  {
    assert MemoryOK(ProduceStep(s, b));
  }

  lemma {:induction false} CleanupKeeps(s: State, b: Block)
    requires Inv(s) && s.prod.PCleanup?
    ensures Inv(ProduceStep(s, b))
  {
  }

  lemma {:induction false} ProduceKeeps(s: State, b: Block)
    requires Inv(s) && MayProduce(s, b)
    ensures Inv(ProduceStep(s, b))
  {
    match s.prod {
      case PInitLock | PGenLock | PWaitLock => LockKeeps(s, b);
      case PInitUnlock | PGenUnlock | PDoneUnlock | PWaitUnlock(_) => UnlockKeeps(s, b);
      case PCleanup => CleanupKeeps(s, b);
      case PLink(_, _) => LinkKeeps(s, b);
      case _ => InsideStep(s, b);
    }
  }

  // ----- steps of a consumer -----

  /** A consumer moving within its critical section without writing. */
  lemma {:induction false} MoveKeeps(s: State, c: nat, pc: Consumer)
    requires Inv(s) && c < |s.cons| && CInside(s.cons[c]) && CInside(pc)
    requires ConsumerOK(pc, s.kind, s.blocks, |s.log|, Finished(s.prod))
    ensures Inv(Goto(s, c, pc))
  {
  }

  lemma {:induction false} FirstKeeps(s: State, c: nat)
    requires Inv(s) && MayConsume(s, c) && s.cons[c].CFirst?
    ensures Inv(ConsumeStep(s, c))
  {
    MoveKeeps(s, c, ConsumeStep(s, c).cons[c]);
  }

  /** What the scan finds at the block it has come to. */
  lemma {:induction false} ScanFinds(s: State, c: nat)
    requires SegmentOK(s) && |s.log| <= |s.blocks| && MayConsume(s, c) && s.cons[c].CScan?
    requires ConsumerOK(s.cons[c], s.kind, s.blocks, |s.log|, Finished(s.prod))
    ensures ConsumerOK(ConsumeStep(s, c).cons[c], s.kind, s.blocks, |s.log|, Finished(s.prod))
    ensures ConsumeStep(s, c) == Goto(s, c, ConsumeStep(s, c).cons[c]) && CInside(ConsumeStep(s, c).cons[c])
  {
    if s.cons[c].off != 0 { ReadBlock(s.mem, s.kind, s.blocks, |s.log|, s.cons[c].ix); }
  }

  lemma {:induction false} ScanKeeps(s: State, c: nat)
    requires Inv(s) && MayConsume(s, c) && s.cons[c].CScan?
    ensures Inv(ConsumeStep(s, c))
  {
    assert ConsumerOK(s.cons[c], s.kind, s.blocks, |s.log|, Finished(s.prod));
    ScanFinds(s, c);
    MoveKeeps(s, c, ConsumeStep(s, c).cons[c]);
  }

  lemma {:induction false} ReadWord(s: State, ix: nat, j: nat)
    requires SegmentOK(s) && ix < |s.blocks| && j < |s.blocks[ix]|
    ensures WordAt(s.mem, Offset(s.kind, s.blocks, ix) / 4 + BLOCK_HEADER + j) == s.blocks[ix][j]
  {
    ReadBlock(s.mem, s.kind, s.blocks, |s.log|, ix);
    var b, at := s.blocks[ix], Start(s.kind, s.blocks, ix);
    assert s.mem[at + BLOCK_HEADER..at + BLOCK_HEADER + |b|][j] == s.mem[at + BLOCK_HEADER + j];
  }

  lemma {:induction false} CountKeeps(s: State, c: nat)
    requires Inv(s) && MayConsume(s, c) && (s.cons[c].CCount? || s.cons[c].CHead?)
    ensures Inv(ConsumeStep(s, c))
  {
    var pc := s.cons[c];
    assert ConsumerOK(pc, s.kind, s.blocks, |s.log|, Finished(s.prod));
    assert Sized(s.blocks[pc.ix]);
    if pc.CCount? { ReadBlock(s.mem, s.kind, s.blocks, |s.log|, pc.ix); } else { ReadWord(s, pc.ix, 0); }
    MoveKeeps(s, c, ConsumeStep(s, c).cons[c]);
  }

  lemma {:induction false} LoopKeeps(s: State, c: nat)
    requires Inv(s) && MayConsume(s, c) && s.cons[c].CLoop?
    ensures Inv(ConsumeStep(s, c))
  {
    var pc := s.cons[c];
    assert ConsumerOK(pc, s.kind, s.blocks, |s.log|, Finished(s.prod));
    if pc.i < pc.n { ReadWord(s, pc.ix, pc.i); }
    MoveKeeps(s, c, ConsumeStep(s, c).cons[c]);
  }

  lemma {:induction false} DoneKeeps(s: State, c: nat)
    requires Inv(s) && MayConsume(s, c) && s.cons[c].CDone?
    ensures Inv(ConsumeStep(s, c))
  {
    assert ConsumerOK(s.cons[c], s.kind, s.blocks, |s.log|, Finished(s.prod));
    MoveKeeps(s, c, ConsumeStep(s, c).cons[c]);
  }

  /** A consumer about to mark a block holds the live semaphore. */
  lemma {:induction false} MarkerHolds(s: State, c: nat)
    requires Inv(s) && c < |s.cons| && s.cons[c].CMark?
    ensures s.sem.Live? && s.holder == c && !PInside(s.prod) && !PastWait(s.prod)
    ensures forall d :: 0 <= d < |s.cons| && d != c ==> !CInside(s.cons[d])
  {
    assert ConsumerOK(s.cons[c], s.kind, s.blocks, |s.log|, Finished(s.prod));
  }

  lemma {:induction false} MarkMemory(s: State, c: nat)
    requires Inv(s) && c < |s.cons| && s.cons[c].CMark?
    ensures |ConsumeStep(s, c).mem| == SHM_WORDS && MemoryOK(ConsumeStep(s, c))
    ensures LogOK(ConsumeStep(s, c))
  {
    var pc := s.cons[c];
    assert ConsumerOK(pc, s.kind, s.blocks, |s.log|, Finished(s.prod));
    var p := Start(s.kind, s.blocks, pc.ix);
    ChainMark(s.mem, s.kind, s.blocks, pc.ix);
    assert ConsumeStep(s, c).mem == PutSize(s.mem, p, 0);
  }

  lemma {:induction false} MarkKeeps(s: State, c: nat)
    requires Inv(s) && MayConsume(s, c) && s.cons[c].CMark?
    ensures Inv(ConsumeStep(s, c))
  {
    MarkerHolds(s, c);
    MarkMemory(s, c);
    var s' := ConsumeStep(s, c);
    forall d | 0 <= d < |s'.cons| ensures ConsumerOK(s'.cons[d], s'.kind, s'.blocks, |s'.log|, Finished(s'.prod)) {
      assert ConsumerOK(s.cons[d], s.kind, s.blocks, |s.log|, Finished(s.prod));
      assert ConsumerOK(s.cons[c], s.kind, s.blocks, |s.log|, Finished(s.prod));
    }
  }

  lemma {:induction false} EnterKeeps(s: State, c: nat)
    requires Inv(s) && MayConsume(s, c) && s.cons[c].CLock?
    ensures Inv(ConsumeStep(s, c))
  {
    assert MemoryOK(ConsumeStep(s, c));
  }

  lemma {:induction false} LeaveKeeps(s: State, c: nat)
    requires Inv(s) && MayConsume(s, c)
    requires s.cons[c].CUnlock? || s.cons[c].CUnlockExit? || s.cons[c].CUnlockRetry?
    ensures Inv(ConsumeStep(s, c))
  {
    assert ConsumerOK(s.cons[c], s.kind, s.blocks, |s.log|, Finished(s.prod));
    assert MemoryOK(ConsumeStep(s, c));
  }

  lemma {:induction false} ConsumeKeeps(s: State, c: nat)
    requires Inv(s) && MayConsume(s, c)
    ensures Inv(ConsumeStep(s, c))
  {
    match s.cons[c] {
      case CLock => EnterKeeps(s, c);
      case CUnlock | CUnlockExit | CUnlockRetry => LeaveKeeps(s, c);
      case CFirst => FirstKeeps(s, c);
      case CScan(_, _) => ScanKeeps(s, c);
      case CMark(_, _, _, _, _) => MarkKeeps(s, c);
      case CDone => DoneKeeps(s, c);
      case CLoop(_, _, _, _, _, _) => LoopKeeps(s, c);
      case _ => CountKeeps(s, c);
    }
  }

  lemma {:induction false} JoinKeeps(s: State)
    requires Inv(s)
    ensures Inv(Step(s, Join))
  {
  }

  lemma {:induction false} StepKeeps(s: State, a: Action)
    requires Inv(s)
    ensures Inv(Step(s, a))
  {
    match a {
      case Produce(b) => if MayProduce(s, b) { ProduceKeeps(s, b); }
      case Consume(c) => if MayConsume(s, c) { ConsumeKeeps(s, c); }
      case Join => JoinKeeps(s);
    }
  }

  lemma {:induction false} RunKeeps(s: State, schedule: seq<Action>)
    requires Inv(s)
    ensures Inv(Run(s, schedule))
  {
    if schedule != [] {
      RunKeeps(s, schedule[..|schedule| - 1]);
      StepKeeps(Run(s, schedule[..|schedule| - 1]), schedule[|schedule| - 1]);
    }
  }

  // ----- what every interleaving guarantees -----

  ghost predicate Reached(k: Kind, schedule: seq<Action>, s: State) {
    s == Run(Initial(k), schedule)
  }

  lemma {:induction false} ReachedInv(k: Kind, schedule: seq<Action>, s: State)
    requires Reached(k, schedule, s)
    ensures Inv(s) && s.kind == k
  {
    InitialInv(k);
    RunKeeps(Initial(k), schedule);
  }

  /** The integers of b are stored behind the block header at word at. */
  ghost predicate Stored(m: Mem, at: nat, b: Block) {
    at + BLOCK_HEADER + |b| <= |m| && m[at + BLOCK_HEADER..at + BLOCK_HEADER + |b|] == b
  }

  lemma {:induction false} AllStored(s: State)
    requires Inv(s)
    ensures forall i :: 0 <= i < |s.blocks| ==> Stored(s.mem, Start(s.kind, s.blocks, i), s.blocks[i])
  {
    forall i | 0 <= i < |s.blocks| ensures Stored(s.mem, Start(s.kind, s.blocks, i), s.blocks[i]) {
      ReadBlock(s.mem, s.kind, s.blocks, |s.log|, i);
    }
  }

  lemma {:induction false} WalkMeetsAll(s: State)
    requires Inv(s)
    ensures Walk(s.mem, Load(s.mem, s.kind.First()), SHM_WORDS) == Cells(s.kind, s.blocks, |s.log|, 0)
  {
    EndBounds(s.kind, s.blocks, |s.blocks|);
    WalkVisitsAll(s.mem, s.kind, s.blocks, |s.log|, 0, SHM_WORDS);
  }

  /** Each block is processed exactly once, in generation order: the i-th report is about the i-th block, with
      its true count, least and greatest integer; following the links in memory meets exactly the generated
      blocks, in order, and the marked ones are exactly those reported. */
  lemma {:induction false} ExactlyOnceInOrder(k: Kind, schedule: seq<Action>, s: State)
    requires Reached(k, schedule, s)
    ensures |s.log| <= |s.blocks|
    ensures forall i :: 0 <= i < |s.log| ==> TrueReport(s.log[i], k, s.blocks, i)
    ensures Walk(s.mem, Load(s.mem, k.First()), SHM_WORDS) == Cells(k, s.blocks, |s.log|, 0)
    ensures forall i :: 0 <= i < |s.blocks| ==> Stored(s.mem, Start(k, s.blocks, i), s.blocks[i])
  {
    ReachedInv(k, schedule, s);
    WalkMeetsAll(s);
    AllStored(s);
  }

  /** The producer's number is -1, the consumers are numbered from 0. */
  function Inside(s: State): (inside: set<int>) {
    set p: int | -1 <= p < |s.cons| && (if p == -1 then PInside(s.prod) else CInside(s.cons[p]))
  }

  /** While the semaphore exists, its value and the number of processes inside a critical section add up to 1. */
  lemma {:induction false} SemaphoreConserved(k: Kind, schedule: seq<Action>, s: State)
    requires Reached(k, schedule, s) && s.sem.Live?
    ensures s.sem.value + |Inside(s)| == 1
  {
    ReachedInv(k, schedule, s);
    if s.holder == NOBODY {
      assert Inside(s) == {};
    } else {
      assert Inside(s) == {s.holder};
    }
  }

  /** When generation stops, fewer than 76 bytes are unused and the number of blocks is within fixed bounds. */
  lemma {:induction false} GenerationYield(k: Kind, schedule: seq<Action>, s: State)
    requires Reached(k, schedule, s) && Finished(s.prod)
    ensures SHM_SIZE - 4 * End(k, s.blocks) < 76
    ensures 53 <= |s.blocks| <= (if k.SystemV? then 113 else 112)
  {
    ReachedInv(k, schedule, s);
    YieldBounds(k, s.blocks);
  }

  /** Every block reported and its count in memory zero, the done flag set, the producer past its waiting loop. */
  ghost predicate Quiet(s: State) {
    && PastWait(s.prod) && |s.log| == |s.blocks| && |s.mem| == SHM_WORDS && s.mem[s.kind.Done()] == 1
    && forall i :: 0 <= i < |s.blocks| ==> Zeroed(s.mem, Start(s.kind, s.blocks, i))
  }

  ghost predicate Zeroed(m: Mem, at: nat) {
    at + 1 < |m| && SizeAt(m, at) == 0
  }

  lemma {:induction false} NowQuiet(s: State)
    requires Inv(s) && PastWait(s.prod)
    ensures Quiet(s)
  {
    forall i | 0 <= i < |s.blocks| ensures Zeroed(s.mem, Start(s.kind, s.blocks, i)) {
      ReadBlock(s.mem, s.kind, s.blocks, |s.log|, i);
    }
  }

  /** The semaphore is gone exactly when the System V producer has ended; the POSIX one never removes it. */
  lemma {:induction false} RemovedExactly(k: Kind, schedule: seq<Action>, s: State)
    requires Reached(k, schedule, s)
    ensures s.sem.Removed? <==> k.SystemV? && s.prod.PExit?
  {
    ReachedInv(k, schedule, s);
  }

  lemma {:induction false} StepQuiet(s: State, a: Action)
    requires Inv(s) && PastWait(s.prod)
    ensures PastWait(Step(s, a).prod)
    ensures Step(s, a).mem == s.mem && Step(s, a).log == s.log && Step(s, a).blocks == s.blocks
  {
    match a {
      case Produce(b) =>
      case Consume(c) =>
        if MayConsume(s, c) {
          assert ConsumerOK(s.cons[c], s.kind, s.blocks, |s.log|, Finished(s.prod));
        }
      case Join =>
    }
  }

  /** From the moment the producer leaves the waiting loop, every block is marked, the done flag is set, and no
      process ever writes the segment again, whatever happens to the semaphore. */
  lemma {:induction false} QuietForever(k: Kind, before: seq<Action>, s: State, after: seq<Action>)
    requires Reached(k, before, s) && PastWait(s.prod)
    ensures Quiet(s) && Quiet(Run(s, after))
    ensures Run(s, after).mem == s.mem && Run(s, after).blocks == s.blocks && Run(s, after).log == s.log
  {
    ReachedInv(k, before, s);
    NowQuiet(s);
    if after != [] {
      var init := after[..|after| - 1];
      QuietForever(k, before, s, init);
      RunKeeps(s, init);
      StepQuiet(Run(s, init), after[|after| - 1]);
    }
  }

  /** How many of its own steps a consumer still takes once everything is processed and the semaphore is gone. */
  function StepsToExit(pc: Consumer, blocks: nat): nat {
    match pc
    case CExit => 0
    case CUnlockExit => 1
    case CDone => 2
    case CScan(_, ix) => if ix <= blocks then 3 + blocks - ix else 3
    case CFirst => 4 + blocks
    case CLock => 5 + blocks
    case _ => 6 + blocks
  }

  /** Nobody else's step moves consumer c. */
  lemma {:induction false} OthersStand(s: State, c: nat, a: Action)
    requires c < |s.cons| && a != Consume(c)
    ensures c < |Step(s, a).cons| && Step(s, a).cons[c] == s.cons[c]
  {
  }

  /** After the semaphore is destroyed every consumer that has not ended can take its next step, each such step
      brings it closer to its exit, nobody else's step moves it, and it exits with every block processed. */
  lemma {:induction false} RemovedConsumersExit(k: Kind, schedule: seq<Action>, s: State, c: nat)
    requires Reached(k, schedule, s) && s.sem.Removed? && c < |s.cons| && !s.cons[c].CExit?
    ensures MayConsume(s, c)
    ensures StepsToExit(ConsumeStep(s, c).cons[c], |s.blocks|) < StepsToExit(s.cons[c], |s.blocks|) <= 6 + |s.blocks|
    ensures forall a :: a != Consume(c) ==> c < |Step(s, a).cons| && Step(s, a).cons[c] == s.cons[c]
    ensures Step(s, Consume(c)).sem.Removed? && Step(s, Consume(c)).mem == s.mem
  {
    ReachedInv(k, schedule, s);
    var pc := s.cons[c];
    assert ConsumerOK(pc, s.kind, s.blocks, |s.log|, Finished(s.prod));
    if pc.CScan? && pc.off != 0 {
      ReadBlock(s.mem, s.kind, s.blocks, |s.log|, pc.ix);
    }
    forall a | a != Consume(c) ensures c < |Step(s, a).cons| && Step(s, a).cons[c] == s.cons[c] {
      OthersStand(s, c, a);
    }
  }

  /** How many entries of a schedule are steps of consumer c. */
  function StepsOf(schedule: seq<Action>, c: nat): nat {
    if schedule == [] then 0
    else StepsOf(schedule[..|schedule| - 1], c) + if schedule[|schedule| - 1] == Consume(c) then 1 else 0
  }

  lemma {:induction false} StaysRemoved(s: State, a: Action)
    requires Inv(s) && s.sem.Removed?
    ensures Step(s, a).sem.Removed? && Step(s, a).blocks == s.blocks
  {
  }

  /** In any continuation of a run after the removal, whatever the others do, a consumer has used up as many of its
      steps to its exit as it took. */
  lemma {:induction false} StepsUsedUp(k: Kind, before: seq<Action>, s: State, after: seq<Action>, c: nat)
    requires Reached(k, before, s) && s.sem.Removed? && c < |s.cons|
    ensures var t := Run(s, after);
            && Reached(k, before + after, t) && t.sem.Removed? && t.blocks == s.blocks && c < |t.cons|
            && (t.cons[c].CExit? || StepsToExit(t.cons[c], |s.blocks|) + StepsOf(after, c) <= 6 + |s.blocks|)
  {
    if after == [] {
      assert before + after == before;
      if !s.cons[c].CExit? { RemovedConsumersExit(k, before, s, c); }
    } else {
      var init, a := after[..|after| - 1], after[|after| - 1];
      var t := Run(s, init);
      StepsUsedUp(k, before, s, init, c);
      assert (before + after)[..|before + after| - 1] == before + init;
      ReachedInv(k, before + init, t);
      StaysRemoved(t, a);
      NextStepUsed(k, before + init, t, c, a);
    }
  }

  lemma {:induction false} NextStepUsed(k: Kind, schedule: seq<Action>, t: State, c: nat, a: Action)
    requires Reached(k, schedule, t) && t.sem.Removed? && c < |t.cons|
    ensures c < |Step(t, a).cons|
    ensures t.cons[c].CExit? ==> Step(t, a).cons[c].CExit?
    ensures !t.cons[c].CExit? ==>
              StepsToExit(Step(t, a).cons[c], |t.blocks|) + (if a == Consume(c) then 1 else 0)
              <= StepsToExit(t.cons[c], |t.blocks|)
  {
    if a != Consume(c) {
      OthersStand(t, c, a);
    } else if !t.cons[c].CExit? {
      RemovedConsumersExit(k, schedule, t, c);
    }
  }

  /** After the removal a consumer that gets to take 6 steps more than there are blocks has exited, in any schedule. */
  lemma {:induction false} RemovedConsumerHasExited(k: Kind, before: seq<Action>, s: State, after: seq<Action>, c: nat)
    requires Reached(k, before, s) && s.sem.Removed? && c < |s.cons|
    requires StepsOf(after, c) >= 6 + |s.blocks|
    ensures c < |Run(s, after).cons| && Run(s, after).cons[c].CExit?
  {
    StepsUsedUp(k, before, s, after, c);
    OnlyExitIsZero(Run(s, after).cons[c], |s.blocks|);
  }

  lemma {:induction false} OnlyExitIsZero(pc: Consumer, blocks: nat)
    ensures StepsToExit(pc, blocks) == 0 <==> pc.CExit?
  {
  }

  /** The queue the memory stands for: the blocks generated, how many are processed, and whether generation is over. */
  datatype Queue = Queue(blocks: seq<Block>, processed: nat, closed: bool)

  function Abstract(s: State): Queue {
    Queue(s.blocks, |s.log|, Finished(s.prod))
  }

  /** The three moves of the queue: append while open, process the first unprocessed block, close. */
  ghost predicate QueueMove(q: Queue, q': Queue) {
    || (!q.closed && exists b :: Sized(b) && q' == q.(blocks := q.blocks + [b]))
    || (q.processed < |q.blocks| && q' == q.(processed := q.processed + 1))
    || (!q.closed && q' == q.(closed := true))
  }

  function FreeBytes(k: Kind, q: Queue): int {
    SHM_SIZE - 4 * End(k, q.blocks)
  }

  /** One move of the queue or none; an append uses up free bytes, the processing of a block lowers the number of
      unprocessed ones and leaves the free bytes. */
  ghost predicate Progress(k: Kind, q: Queue, q': Queue) {
    || q' == q
    || (QueueMove(q, q') && (q'.blocks != q.blocks ==> FreeBytes(k, q') <= FreeBytes(k, q) - 36)
        && (q'.processed != q.processed ==> q'.blocks == q.blocks))
  }

  lemma {:induction false} ProducerRefines(s: State, b: Block)
    requires Inv(s) && MayProduce(s, b)
    ensures Progress(s.kind, Abstract(s), Abstract(ProduceStep(s, b)))
  {
    if s.prod.PLink? { EndAppend(s.kind, s.blocks, s.prod.b); }
  }

  lemma {:induction false} ConsumerRefines(s: State, c: nat)
    requires Inv(s) && MayConsume(s, c)
    ensures Progress(s.kind, Abstract(s), Abstract(ConsumeStep(s, c)))
  {
    assert ConsumerOK(s.cons[c], s.kind, s.blocks, |s.log|, Finished(s.prod));
  }

  /** Every step of every process is one move of the queue or invisible in it. */
  lemma {:induction false} RefinesQueue(s: State, a: Action)
    requires Inv(s)
    ensures Progress(s.kind, Abstract(s), Abstract(Step(s, a)))
  {
    match a {
      case Produce(b) => if MayProduce(s, b) { ProducerRefines(s, b); }
      case Consume(c) => if MayConsume(s, c) { ConsumerRefines(s, c); }
      case Join =>
    }
  }

  /** No deadlock: unless the producer has ended and so has every consumer, some process can move. */
  lemma {:induction false} NoDeadlock(k: Kind, schedule: seq<Action>, s: State)
    requires Reached(k, schedule, s)
    requires !s.prod.PExit? || exists c :: 0 <= c < |s.cons| && !s.cons[c].CExit?
    ensures (exists b :: MayProduce(s, b)) || (exists c: nat :: MayConsume(s, c))
  {
    ReachedInv(k, schedule, s);
    var b: Block := [0, 0, 0, 0, 0];
    if !MayProduce(s, b) {
      if MayLock(s) {
        var c :| 0 <= c < |s.cons| && !s.cons[c].CExit?;
        assert MayConsume(s, c);
      } else {
        assert 0 <= s.holder < |s.cons|;
        assert MayConsume(s, s.holder);
      }
    }
  }

  /** The size_t at word i. */
  function SizeWords(i: int): set<int> {
    {i, i + 1}
  }

  /** The words a process reads or writes in its next step. */
  function Touched(s: State, a: Action): set<int> {
    match a
    case Produce(_) => ProducerTouches(s)
    case Consume(c) => if c < |s.cons| then ConsumerTouches(s, s.cons[c]) else {}
    case Join => {}
  }

  function ProducerTouches(s: State): set<int> {
    var k := s.kind;
    match s.prod
    case PInitSize => SizeWords(0)
    case PInitFirst | PWaitFirst => SizeWords(k.First())
    case PInitFree | PFree(_, _) => SizeWords(k.Free())
    case PInitDone | PSetDone => {k.Done() as int}
    case PGenCheck => SizeWords(k.Free()) + if k.Posix? then SizeWords(0) else {}
    case PCount(at, b) => SizeWords(at / 4)
    case PNext(at, b) => SizeWords(at / 4 + 2)
    case PData(at, b, i) => if i < |b| then {at / 4 + BLOCK_HEADER + i} else {}
    case PLink(at, b) => SizeWords(k.First()) + if Load(s.mem, k.First()) != 0 then SizeWords(s.last / 4 + 2) else {}
    case PWaitScan(off, ix) => if off != 0 then SizeWords(off / 4) + SizeWords(off / 4 + 2) else {}
    case _ => {}
  }

  function ConsumerTouches(s: State, pc: Consumer): set<int> {
    match pc
    case CFirst => SizeWords(s.kind.First())
    case CScan(off, ix) => if off != 0 then SizeWords(off / 4) + SizeWords(off / 4 + 2) else {}
    case CCount(off, ix) => SizeWords(off / 4)
    case CHead(off, ix, n) => {off / 4 + BLOCK_HEADER}
    case CLoop(off, ix, n, i, min, max) => if i < n then {off / 4 + BLOCK_HEADER + i} else {}
    case CMark(off, ix, n, min, max) => SizeWords(off / 4)
    case CDone => {s.kind.Done() as int}
    case _ => {}
  }

  /** A step writes no other words. */
  lemma {:induction false} WritesTouchedOnly(s: State, a: Action, w: int)
    requires Inv(s) && 0 <= w < SHM_WORDS && w !in Touched(s, a)
    ensures |Step(s, a).mem| == SHM_WORDS && Step(s, a).mem[w] == s.mem[w]
  {
    match a {
      case Produce(b) =>
        if MayProduce(s, b) { ProducerWrites(s, b, w); }
      case Consume(c) =>
      case Join =>
    }
  }

  lemma {:induction false} ProducerWrites(s: State, b: Block, w: int)
    requires Inv(s) && MayProduce(s, b) && 0 <= w < SHM_WORDS && w !in ProducerTouches(s)
    ensures |ProduceStep(s, b).mem| == SHM_WORDS && ProduceStep(s, b).mem[w] == s.mem[w]
  {
    if s.prod.PLink? {
      LinkTouches(s, b, w);
    } else if s.prod.PFree? {
      FreeWrites(s, b);
    }
  }

  lemma {:induction false} LinkTouches(s: State, b: Block, w: int)
    requires Inv(s) && s.prod.PLink? && 0 <= w < SHM_WORDS && w !in ProducerTouches(s)
    ensures |ProduceStep(s, b).mem| == SHM_WORDS && ProduceStep(s, b).mem[w] == s.mem[w]
  {
    LinkIndex(s);
    LinkWrites(s, b);
    assert w !in SizeWords(LinkWord(s.kind, s.blocks));
  }

  ghost predicate Agree(m: Mem, m': Mem, ws: set<int>) {
    |m| == |m'| && forall w :: 0 <= w < |m| && w in ws ==> m[w] == m'[w]
  }

  lemma {:induction false} SameLoad(m: Mem, m': Mem, ws: set<int>, i: nat)
    requires Agree(m, m', ws) && SizeWords(i) <= ws
    ensures Load(m, i) == Load(m', i)
  {
    assert i in ws && i + 1 in ws;
  }

  /** A step reads no other words: with another memory that agrees on these, all but memory comes out the same. */
  lemma {:induction false} ConsumerReads(s: State, c: nat, m': Mem)
    requires MayConsume(s, c) && Agree(s.mem, m', ConsumerTouches(s, s.cons[c]))
    ensures ConsumeStep(s.(mem := m'), c) == ConsumeStep(s, c).(mem := ConsumeStep(s.(mem := m'), c).mem)
  {
    var pc := s.cons[c];
    var ws := ConsumerTouches(s, pc);
    match pc {
      case CFirst => SameLoad(s.mem, m', ws, s.kind.First());
      case CScan(off, _) =>
        if off != 0 {
          SameLoad(s.mem, m', ws, off / 4);
          SameLoad(s.mem, m', ws, off / 4 + 2);
        }
      case CCount(off, _) => SameLoad(s.mem, m', ws, off / 4);
      case CHead(off, _, _) => assert off / 4 + BLOCK_HEADER in ws;
      case CLoop(off, _, n, i, _, _) => assert i < n ==> off / 4 + BLOCK_HEADER + i in ws;
      case CDone => assert s.kind.Done() as int in ws;
      case _ =>
    }
  }

  lemma {:induction false} ProducerReads(s: State, b: Block, m': Mem)
    requires MayProduce(s, b) && Agree(s.mem, m', ProducerTouches(s))
    ensures ProduceStep(s.(mem := m'), b) == ProduceStep(s, b).(mem := ProduceStep(s.(mem := m'), b).mem)
  {
    var ws := ProducerTouches(s);
    if s.prod.PGenCheck? {
      SameLoad(s.mem, m', ws, s.kind.Free());
      if s.kind.Posix? { SameLoad(s.mem, m', ws, 0); }
    } else if s.prod.PWaitFirst? {
      SameLoad(s.mem, m', ws, s.kind.First());
    } else if s.prod.PWaitScan? && s.prod.off != 0 {
      SameLoad(s.mem, m', ws, s.prod.off / 4);
      SameLoad(s.mem, m', ws, s.prod.off / 4 + 2);
    }
  }

  lemma {:induction false} ReadsTouchedOnly(s: State, a: Action, m': Mem)
    requires Inv(s) && Agree(s.mem, m', Touched(s, a))
    ensures Step(s.(mem := m'), a) == Step(s, a).(mem := Step(s.(mem := m'), a).mem)
  {
    match a {
      case Produce(b) => if MayProduce(s, b) { ProducerReads(s, b, m'); }
      case Consume(c) => if MayConsume(s, c) { ConsumerReads(s, c, m'); }
      case Join =>
    }
  }

  /** The words a step reads or writes really are all it reads or writes: it leaves every other word, and what else it
      does depends on no other word. */
  lemma {:induction false} TouchesNoOther(s: State, a: Action, m': Mem)
    requires Inv(s) && Agree(s.mem, m', Touched(s, a))
    ensures |Step(s, a).mem| == SHM_WORDS
    ensures forall w :: 0 <= w < SHM_WORDS && w !in Touched(s, a) ==> Step(s, a).mem[w] == s.mem[w]
    ensures Step(s.(mem := m'), a) == Step(s, a).(mem := Step(s.(mem := m'), a).mem)
  {
    StepKeeps(s, a);
    forall w | 0 <= w < SHM_WORDS && w !in Touched(s, a) ensures Step(s, a).mem[w] == s.mem[w] {
      WritesTouchedOnly(s, a, w);
    }
    ReadsTouchedOnly(s, a, m');
  }

  ghost predicate AllInside(ws: set<int>) {
    forall w :: w in ws ==> 0 <= w < SHM_WORDS
  }

  lemma {:induction false} LinkInsideSegment(s: State)
    requires Inv(s) && (s.prod.PLink? || s.prod.PWaitScan?)
    ensures AllInside(ProducerTouches(s))
  {
    if s.prod.PWaitScan? {
      if s.prod.off != 0 { ReadBlock(s.mem, s.kind, s.blocks, |s.log|, s.prod.ix); }
    } else if s.blocks != [] {
      StartMonotone(s.kind, s.blocks, |s.blocks| - 1, |s.blocks|);
      assert Offset(s.kind, s.blocks, |s.blocks| - 1) / 4 == Start(s.kind, s.blocks, |s.blocks| - 1);
    }
  }

  lemma {:induction false} ProducerInsideSegment(s: State)
    requires Inv(s)
    ensures AllInside(ProducerTouches(s))
  {
    if s.prod.PLink? || s.prod.PWaitScan? { LinkInsideSegment(s); }
  }

  lemma {:induction false} ScanInsideSegment(s: State, pc: Consumer)
    requires Inv(s) && ConsumerOK(pc, s.kind, s.blocks, |s.log|, Finished(s.prod)) && pc.CScan?
    ensures AllInside(ConsumerTouches(s, pc))
  {
    if pc.off != 0 { ReadBlock(s.mem, s.kind, s.blocks, |s.log|, pc.ix); }
  }

  lemma {:induction false} BlockInsideSegment(s: State, pc: Consumer)
    requires Inv(s) && ConsumerOK(pc, s.kind, s.blocks, |s.log|, Finished(s.prod))
    requires pc.CCount? || pc.CHead? || pc.CLoop? || pc.CMark?
    ensures AllInside(ConsumerTouches(s, pc))
  {
    ReadBlock(s.mem, s.kind, s.blocks, |s.log|, pc.ix);
    assert Sized(s.blocks[pc.ix]);
  }

  /** No process ever touches a word outside the segment. */
  lemma {:induction false} InsideSegment(k: Kind, schedule: seq<Action>, s: State, a: Action)
    requires Reached(k, schedule, s)
    ensures |s.mem| == SHM_WORDS && AllInside(Touched(s, a))
  {
    ReachedInv(k, schedule, s);
    match a {
      case Produce(_) => ProducerInsideSegment(s);
      case Consume(c) =>
        if c < |s.cons| {
          var pc := s.cons[c];
          assert ConsumerOK(pc, s.kind, s.blocks, |s.log|, Finished(s.prod));
          if pc.CScan? {
            ScanInsideSegment(s, pc);
          } else if pc.CCount? || pc.CHead? || pc.CLoop? || pc.CMark? {
            BlockInsideSegment(s, pc);
          }
        }
      case Join =>
    }
  }
}
