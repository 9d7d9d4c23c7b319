/** Copying a file from a parent to a child process over a bounded pipe, in every interleaving and with every
    split of the reads and writes. */
module CopierRuns {
  import opened Basics
  import opened ByteStreams

  const BUFFER_SIZE := 1024
  const HEADER_SIZE := 264
  const PIPE_BUF := 4096

  // ----- the header -----

  function LittleEndian(n: nat, k: nat): (b: Bytes)
    ensures |b| == k
  {
    if k == 0 then [] else [n % 256] + LittleEndian(n / 256, k - 1)
  }

  function Value(b: Bytes): nat {
    if b == [] then 0 else b[0] as int + 256 * Value(b[1..])
  }

  function Power256(k: nat): nat {
    if k == 0 then 1 else 256 * Power256(k - 1)
  }

  lemma {:induction false} ValueOfLittleEndian(n: nat, k: nat)
    requires n < Power256(k)
    ensures Value(LittleEndian(n, k)) == n
  {
    if k > 0 { ValueOfLittleEndian(n / 256, k - 1); }
  }

  /** The file name, cut to 255 bytes and zero-filled, and the size. */
  function Header(name: Bytes, size: nat): (h: Bytes)
    ensures |h| == HEADER_SIZE
  {
    var cut := name[..Least(|name|, 255)];
    cut + seq(256 - |cut|, _ => 0) + LittleEndian(size, 8)
  }

  function AnnouncedSize(h: Bytes): nat
    requires |h| == HEADER_SIZE
  {
    Value(h[256..])
  }

  lemma {:induction false} SizeRoundTrip(name: Bytes, size: nat)
    requires size < 0x8000_0000_0000_0000
    ensures AnnouncedSize(Header(name, size)) == size
  {
    assert Power256(8) == 0x1_0000_0000_0000_0000;
    ValueOfLittleEndian(size, 8);
    assert Header(name, size)[256..] == LittleEndian(size, 8);
  }

  const EXTENSION: Bytes := [46, 99, 111, 112, 121]

  /** The name the child gives the copy: that in the header, with ".copy" behind it. */
  function CopyName(h: Bytes): Bytes
    requires |h| == HEADER_SIZE
  {
    CString(h[..256]) + EXTENSION
  }

  lemma {:induction false} CStringStops(s: Bytes, zeros: Bytes)
    requires 0 !in s && zeros != [] && zeros[0] == 0
    ensures CString(s + zeros) == s
  {
    if s == [] {
      assert s + zeros == zeros;
    } else {
      assert s[0] in s && forall x :: x in s[1..] ==> x in s;
      assert (s + zeros)[1..] == s[1..] + zeros;
      CStringStops(s[1..], zeros);
    }
  }

  /** The copy is named after the source exactly if the source's name has at most 255 bytes; a longer one is cut. */
  lemma {:induction false} CopyNamedExactly(name: Bytes, size: nat)
    requires 0 !in name
    ensures CopyName(Header(name, size)) == name[..Least(|name|, 255)] + EXTENSION
    ensures CopyName(Header(name, size)) == name + EXTENSION <==> |name| <= 255
  {
    var cut := name[..Least(|name|, 255)];
    var zeros: Bytes := seq(256 - |cut|, _ => 0);
    assert forall x :: x in cut ==> x in name;
    assert Header(name, size)[..256] == cut + zeros;
    CStringStops(cut, zeros);
    assert |name| <= 255 ==> cut == name;
    assert |name| > 255 ==> |cut + EXTENSION| < |name + EXTENSION|;
  }

  // ----- the two processes -----

  /** The parent waits for the ready byte, sends the header, then reads the file and writes it to the pipe; done is
      how much of its buffer is written. */
  datatype Parent = PWaitReady | PHeader | PRead | PWrite(buffer: Bytes, done: nat) | PClosed

  /** The child sends the ready byte, reads the header, then reads the pipe and writes the copy. */
  datatype Child = CReady | CHeader | CRead | CWrite(buffer: Bytes, done: nat) | CEnd | CFailed

  /** pos is how far the parent has read the source; ready says whether the ready byte is in the other channel or was
      read. */
  datatype State = State(source: Bytes, name: Bytes, capacity: nat, pos: nat, parent: Parent, child: Child,
                         ready: bool, pipe: Bytes, header: Bytes, copy: Bytes)

  /** A step of one process; n is how many bytes, less one, the kernel is willing to move. */
  datatype Action = ParentStep(n: nat) | ChildStep(n: nat)

  /** A pipe takes at least PIPE_BUF bytes, so a header fits at once. */
  ghost predicate Start(s: State) {
    && s.capacity >= PIPE_BUF && |s.source| < 0x8000_0000_0000_0000
    && s == State(s.source, s.name, s.capacity, 0, PWaitReady, CReady, false, [], [], [])
  }

  function Portion(n: nat, max: nat): (k: nat)
    ensures k <= max && (max > 0 ==> k > 0)
  {
    if max == 0 then 0 else Least(n + 1, max)
  }

  function Room(s: State): nat {
    if |s.pipe| < s.capacity then s.capacity - |s.pipe| else 0
  }

  function ParentMove(s: State, n: nat): State {
    match s.parent
    case PWaitReady => if s.ready then s.(parent := PHeader) else s
    case PHeader =>
      if Room(s) < HEADER_SIZE then s
      else s.(pipe := s.pipe + Header(s.name, |s.source|), parent := PRead)
    case PRead =>
      if s.pos >= |s.source| then s.(parent := PClosed)
      else
        var k := Portion(n, Least(BUFFER_SIZE, |s.source| - s.pos));
        s.(pos := s.pos + k, parent := PWrite(s.source[s.pos..s.pos + k], 0))
    case PWrite(buffer, done) =>
      if done >= |buffer| then s.(parent := PRead)
      else
        var k := Portion(n, Least(|buffer| - done, Room(s)));
        s.(pipe := s.pipe + buffer[done..done + k], parent := PWrite(buffer, done + k))
    case PClosed => s
  }

  /** A read of an empty pipe blocks while the parent holds the other end, and is end of file afterwards. */
  function ChildMove(s: State, n: nat): State {
    match s.child
    case CReady => s.(ready := true, child := CHeader)
    case CHeader =>
      if s.pipe == [] then if s.parent.PClosed? then s.(child := CFailed) else s
      else if |s.pipe| < HEADER_SIZE then s.(child := CFailed)
      else s.(header := s.pipe[..HEADER_SIZE], pipe := s.pipe[HEADER_SIZE..], child := CRead)
    case CRead =>
      if s.pipe == [] then if s.parent.PClosed? then s.(child := CEnd) else s
      else
        var k := Portion(n, Least(BUFFER_SIZE, |s.pipe|));
        s.(pipe := s.pipe[k..], child := CWrite(s.pipe[..k], 0))
    case CWrite(buffer, done) =>
      if done >= |buffer| then s.(child := CRead)
      else
        var k := Portion(n, |buffer| - done);
        s.(copy := s.copy + buffer[done..done + k], child := CWrite(buffer, done + k))
    case CEnd | CFailed => s
  }

  function Step(s: State, a: Action): State {
    match a
    case ParentStep(n) => ParentMove(s, n)
    case ChildStep(n) => ChildMove(s, n)
  }

  function Run(s: State, schedule: seq<Action>): State {
    if schedule == [] then s else Step(Run(s, schedule[..|schedule| - 1]), schedule[|schedule| - 1])
  }

  // ----- the invariant -----

  function ParentHolds(p: Parent): Bytes {
    match p
    case PWrite(buffer, done) => if done <= |buffer| then buffer[done..] else []
    case _ => []
  }

  function ChildHolds(c: Child): Bytes {
    match c
    case CWrite(buffer, done) => if done <= |buffer| then buffer[done..] else []
    case _ => []
  }

  predicate HeaderUnsent(p: Parent) {
    p.PWaitReady? || p.PHeader?
  }

  predicate HeaderUnread(c: Child) {
    c.CReady? || c.CHeader?
  }

  /** The file bytes in the pipe, behind the header if that is still there. */
  function InPipe(s: State): Bytes {
    if HeaderUnread(s.child) && |s.pipe| >= HEADER_SIZE then s.pipe[HEADER_SIZE..] else s.pipe
  }

  /** Nothing is lost, duplicated or reordered: copy, child's buffer, pipe, parent's buffer and unread rest are the
      source. */
  ghost predicate Conserved(s: State)
    requires s.pos <= |s.source|
  {
    s.copy + ChildHolds(s.child) + InPipe(s) + ParentHolds(s.parent) + s.source[s.pos..] == s.source
  }

  ghost predicate Inv(s: State) {
    && s.capacity >= PIPE_BUF && |s.source| < 0x8000_0000_0000_0000
    && s.pos <= |s.source|
    && (s.parent.PWrite? ==> s.parent.done <= |s.parent.buffer|)
    && (s.child.CWrite? ==> s.child.done <= |s.child.buffer|)
    && s.ready == !s.child.CReady?
    && (!s.parent.PWaitReady? ==> s.ready)
    && !s.child.CFailed?
    && (HeaderUnsent(s.parent) ==> s.pipe == [] && s.copy == [] && s.pos == 0 && HeaderUnread(s.child))
    && (!HeaderUnsent(s.parent) && HeaderUnread(s.child) ==>
          |s.pipe| >= HEADER_SIZE && s.pipe[..HEADER_SIZE] == Header(s.name, |s.source|) && s.copy == [])
    && (!HeaderUnread(s.child) ==> s.header == Header(s.name, |s.source|))
    && (s.parent.PClosed? ==> s.pos == |s.source|)
    && (s.child.CEnd? ==> s.parent.PClosed? && s.pipe == [])
    && Conserved(s)
  }

  /** Moving a piece from the parent's buffer to the pipe leaves the order of all bytes. */
  lemma {:induction false} PassedOn(s: State, t: State, piece: Bytes)
    requires s.pos <= |s.source| && Conserved(s)
    requires t == s.(pipe := t.pipe, parent := t.parent)
    requires InPipe(t) == InPipe(s) + piece && ParentHolds(s.parent) == piece + ParentHolds(t.parent)
    ensures Conserved(t)
  {
    Regroup5(s.copy + ChildHolds(s.child), InPipe(s), piece, ParentHolds(t.parent), s.source[s.pos..]);
  }

  lemma {:induction false} PipeFilled(s: State, piece: Bytes, p: Parent)
    requires HeaderUnread(s.child) ==> |s.pipe| >= HEADER_SIZE
    ensures InPipe(s.(pipe := s.pipe + piece, parent := p)) == InPipe(s) + piece
  {
    PipeGrows(s.pipe, piece);
  }

  lemma {:induction false} ParentWriteConserves(s: State, n: nat)
    requires s.pos <= |s.source| && Conserved(s) && (HeaderUnread(s.child) ==> |s.pipe| >= HEADER_SIZE)
    requires s.parent.PWrite? && s.parent.done < |s.parent.buffer|
    ensures Conserved(ParentMove(s, n))
  {
    var b, d := s.parent.buffer, s.parent.done;
    var k := Portion(n, Least(|b| - d, Room(s)));
    var piece, p := b[d..d + k], PWrite(b, d + k);
    var t := s.(pipe := s.pipe + piece, parent := p);
    assert ParentMove(s, n) == t;
    BufferSplit(b, d, k);
    PipeFilled(s, piece, p);
    PassedOn(s, t, piece);
  }

  lemma {:induction false} BufferSplit(b: Bytes, d: nat, k: nat)
    requires d + k <= |b|
    ensures b[d..] == b[d..d + k] + b[d + k..]
  {
  }

  /** Writing into the pipe leaves a header at its front and adds behind what follows it. */
  lemma {:induction false} PipeGrows(pipe: Bytes, more: Bytes)
    ensures |pipe| >= HEADER_SIZE ==>
      (pipe + more)[..HEADER_SIZE] == pipe[..HEADER_SIZE] && (pipe + more)[HEADER_SIZE..] == pipe[HEADER_SIZE..] + more
  {
  }

  lemma {:induction false} ParentWriteKeeps(s: State, n: nat)
    requires Inv(s) && s.parent.PWrite? && s.parent.done < |s.parent.buffer|
    ensures Inv(ParentMove(s, n))
  {
    var b, d := s.parent.buffer, s.parent.done;
    PipeGrows(s.pipe, b[d..d + Portion(n, Least(|b| - d, Room(s)))]);
    ParentWriteConserves(s, n);
  }

  lemma {:induction false} Regroup5(a: Bytes, b: Bytes, c: Bytes, d: Bytes, e: Bytes)
    ensures a + b + (c + d) + e == a + (b + c) + d + e
  {
  }

  lemma {:induction false} ParentReadConserves(s: State, n: nat)
    requires s.pos < |s.source| && Conserved(s) && s.parent.PRead?
    ensures Conserved(ParentMove(s, n))
  {
    var k := Portion(n, Least(BUFFER_SIZE, |s.source| - s.pos));
    TakenFrom(s.copy + ChildHolds(s.child) + InPipe(s), s.source, s.pos, k);
  }

  /** Moving a piece from the unread rest to the parent's buffer leaves the order of all bytes. */
  lemma {:induction false} TakenFrom(front: Bytes, source: Bytes, pos: nat, k: nat)
    requires pos + k <= |source|
    ensures front + [] + source[pos..] == front + source[pos..pos + k][0..] + source[pos + k..]
  {
    BufferSplit(source, pos, k);
    var piece := source[pos..pos + k];
    assert piece[0..] == piece && front + [] == front;
    Regroup3(front, piece, source[pos + k..]);
  }

  lemma {:induction false} Regroup3(a: Bytes, b: Bytes, c: Bytes)
    ensures a + (b + c) == a + b + c
  {
  }

  lemma {:induction false} ParentReadKeeps(s: State, n: nat)
    requires Inv(s) && s.parent.PRead?
    ensures Inv(ParentMove(s, n))
  {
    if s.pos < |s.source| { ParentReadConserves(s, n); }
  }

  lemma {:induction false} ParentKeeps(s: State, n: nat)
    requires Inv(s)
    ensures Inv(ParentMove(s, n))
  {
    match s.parent {
      case PWaitReady =>
      case PHeader =>
        var h := Header(s.name, |s.source|);
        assert s.pipe + h == h && h[..HEADER_SIZE] == h && h[HEADER_SIZE..] == [];
      case PRead => ParentReadKeeps(s, n);
      case PWrite(b, d) =>
        if d < |b| { ParentWriteKeeps(s, n); } else { assert b[d..] == []; }
      case PClosed =>
    }
  }

  lemma {:induction false} ChildReadKeeps(s: State, n: nat)
    requires Inv(s) && s.child.CRead? && s.pipe != []
    ensures Inv(ChildMove(s, n))
  {
    var k := Portion(n, Least(BUFFER_SIZE, |s.pipe|));
    assert s.pipe == s.pipe[..k] + s.pipe[k..];
    assert s.pipe[..k][0..] == s.pipe[..k];
    assert s.copy + [] + (s.pipe[..k] + s.pipe[k..]) == s.copy + s.pipe[..k] + s.pipe[k..];
  }

  /** Moving a piece from the child's buffer to the copy leaves the order of all bytes. */
  lemma {:induction false} WrittenOut(s: State, t: State, piece: Bytes)
    requires s.pos <= |s.source| && Conserved(s) && t == s.(copy := s.copy + piece, child := t.child)
    requires InPipe(t) == InPipe(s) && ChildHolds(s.child) == piece + ChildHolds(t.child)
    ensures Conserved(t)
  {
    Regroup3(s.copy, piece, ChildHolds(t.child));
  }

  lemma {:induction false} ChildWriteKeeps(s: State, n: nat)
    requires Inv(s) && s.child.CWrite? && s.child.done < |s.child.buffer|
    ensures Inv(ChildMove(s, n))
  {
    var b, d := s.child.buffer, s.child.done;
    var k := Portion(n, |b| - d);
    var t := s.(copy := s.copy + b[d..d + k], child := CWrite(b, d + k));
    assert ChildMove(s, n) == t;
    BufferSplit(b, d, k);
    WrittenOut(s, t, b[d..d + k]);
  }

  lemma {:induction false} ChildKeeps(s: State, n: nat)
    requires Inv(s)
    ensures Inv(ChildMove(s, n))
  {
    match s.child {
      case CReady =>
      case CHeader =>
        if s.pipe != [] { assert InPipe(s) == s.pipe[HEADER_SIZE..]; }
      case CRead => if s.pipe != [] { ChildReadKeeps(s, n); }
      case CWrite(b, d) =>
        if d < |b| { ChildWriteKeeps(s, n); } else { assert b[d..] == []; }
      case CEnd =>
      case CFailed =>
    }
  }

  lemma {:induction false} RunKeeps(s: State, schedule: seq<Action>)
    requires Inv(s)
    ensures Inv(Run(s, schedule)) && Run(s, schedule).source == s.source
  {
    if schedule != [] {
      var t, a := Run(s, schedule[..|schedule| - 1]), schedule[|schedule| - 1];
      RunKeeps(s, schedule[..|schedule| - 1]);
      match a {
        case ParentStep(n) => ParentKeeps(t, n);
        case ChildStep(n) => ChildKeeps(t, n);
      }
    }
  }

  lemma {:induction false} StartInv(s: State)
    requires Start(s)
    ensures Inv(s)
  {
  }

  // ----- what every run guarantees -----

  /** At every moment copy, buffers, pipe and unread rest together are the source, in order; no header is sent before
      the ready byte; the child never fails. */
  lemma {:induction false} NothingLost(s: State, schedule: seq<Action>)
    requires Start(s)
    ensures var t := Run(s, schedule);
            && t.source == s.source && t.pos <= |t.source| && Conserved(t)
            && t.copy <= t.source
            && (t.pipe != [] || t.header != [] || !HeaderUnsent(t.parent) ==> t.ready)
            && !t.child.CFailed?
  {
    StartInv(s);
    RunKeeps(s, schedule);
    CopyIsPrefix(Run(s, schedule));
    HeaderOnlyAfterReady(s, schedule);
  }

  lemma {:induction false} CopyIsPrefix(t: State)
    requires t.pos <= |t.source| && Conserved(t)
    ensures t.copy <= t.source
  {
    FirstOfFive(t.copy, ChildHolds(t.child), InPipe(t), ParentHolds(t.parent), t.source[t.pos..]);
  }

  lemma {:induction false} FirstOfFive(a: Bytes, b: Bytes, c: Bytes, d: Bytes, e: Bytes)
    ensures a <= a + b + c + d + e
  {
  }

  lemma {:induction false} HeaderOnlyAfterReady(s: State, schedule: seq<Action>)
    requires Start(s)
    ensures Run(s, schedule).header != [] ==> !HeaderUnread(Run(s, schedule).child)
  {
    if schedule != [] {
      HeaderOnlyAfterReady(s, schedule[..|schedule| - 1]);
    }
  }

  /** When the child is through, the copy is the source and its size is the announced one. */
  lemma {:induction false} CopyEqualsSource(s: State, schedule: seq<Action>)
    requires Start(s) && Run(s, schedule).child.CEnd?
    ensures var t := Run(s, schedule);
            t.copy == s.source && |t.header| == HEADER_SIZE && AnnouncedSize(t.header) == |t.copy|
  {
    StartInv(s);
    RunKeeps(s, schedule);
    var t := Run(s, schedule);
    SizeRoundTrip(t.name, |t.source|);
    assert t.copy + [] + [] + [] + [] == t.copy;
    assert t.source[t.pos..] == [];
  }

  // ----- the copy is always finished -----

  /** A number every effective step lowers: bytes weighted by how far they still have to go, and the phases ahead. */
  function Work(s: State): int {
    7 * (|s.source| - s.pos) + 5 * |ParentHolds(s.parent)| + 4 * |s.pipe| + 2 * |ChildHolds(s.child)|
    + (match s.parent
       case PWaitReady => 4 * HEADER_SIZE + 5
       case PHeader => 4 * HEADER_SIZE + 4
       case PRead => 1
       case PWrite(_, _) => 2
       case PClosed => 0)
    + (match s.child
       case CReady => 4
       case CHeader => 3
       case CRead => 1
       case CWrite(_, _) => 2
       case CEnd | CFailed => 0)
  }

  lemma {:induction false} ParentWorks(s: State, n: nat)
    requires Inv(s) && ParentMove(s, n) != s
    ensures Work(ParentMove(s, n)) < Work(s)
  {
  }

  lemma {:induction false} ChildWorks(s: State, n: nat)
    requires Inv(s) && ChildMove(s, n) != s
    ensures Work(ChildMove(s, n)) < Work(s)
  {
  }

  /** Every step that changes anything brings the copy nearer its end: there is no endless run of effective steps. */
  lemma {:induction false} EveryStepWorks(s: State, a: Action)
    requires Inv(s) && Step(s, a) != s
    ensures Work(Step(s, a)) < Work(s) && Work(s) > 0
  {
    match a {
      case ParentStep(n) => ParentWorks(s, n);
      case ChildStep(n) => ChildWorks(s, n);
    }
  }

  /** As long as the two are not both through, one of them can take an effective step: there is no deadlock. */
  lemma {:induction false} NoDeadlock(s: State)
    requires Inv(s) && !(s.parent.PClosed? && s.child.CEnd?)
    ensures ParentMove(s, 0) != s || ChildMove(s, 0) != s
  {
    if s.parent.PWrite? && Room(s) == 0 {
      assert s.pipe != [];
    }
  }

  /** How many steps of a run change anything. */
  function Effective(s: State, schedule: seq<Action>): nat {
    if schedule == [] then 0
    else
      var init := schedule[..|schedule| - 1];
      Effective(s, init) + if Step(Run(s, init), schedule[|schedule| - 1]) != Run(s, init) then 1 else 0
  }

  lemma {:induction false} StepSpends(s: State, a: Action)
    requires Inv(s)
    ensures Work(Step(s, a)) <= Work(s) - if Step(s, a) != s then 1 else 0
  {
    if Step(s, a) != s { EveryStepWorks(s, a); }
  }

  lemma {:induction false} WorkIsLeft(s: State)
    requires Inv(s)
    ensures Work(s) >= 0
  {
  }

  lemma {:induction false} WorkIsSpent(s: State, schedule: seq<Action>)
    requires Inv(s)
    ensures Effective(s, schedule) + Work(Run(s, schedule)) <= Work(s)
  {
    if schedule != [] {
      var init, a := schedule[..|schedule| - 1], schedule[|schedule| - 1];
      WorkIsSpent(s, init);
      RunKeeps(s, init);
      StepSpends(Run(s, init), a);
      assert Run(s, schedule) == Step(Run(s, init), a);
    }
  }

  /** Every run takes a number of effective steps linear in the size of the file, and a run that can go no further has
      ended with an exact copy: whatever the order, the copy is finished and right. */
  lemma {:induction false} CopyAlwaysFinishes(s: State, schedule: seq<Action>)
    requires Start(s)
    ensures Effective(s, schedule) <= 7 * |s.source| + 4 * HEADER_SIZE + 9
    ensures var t := Run(s, schedule);
            (forall a :: Step(t, a) == t) ==> t.parent.PClosed? && t.child.CEnd? && t.copy == s.source
  {
    StartInv(s);
    WorkIsSpent(s, schedule);
    RunKeeps(s, schedule);
    WorkIsLeft(Run(s, schedule));
    var t := Run(s, schedule);
    if forall a :: Step(t, a) == t {
      assert Step(t, ParentStep(0)) == t && Step(t, ChildStep(0)) == t;
      if !(t.parent.PClosed? && t.child.CEnd?) { NoDeadlock(t); }
      CopyEqualsSource(s, schedule);
    }
  }
}
