/** The loops of the producer and the consumer over the segment in place, each visit under the lock. */
module SharedSegment {
  import opened SegmentMemory

  /** What one locked visit of a consumer comes to. */
  datatype Visit = Processed(off: nat, count: nat, min: int32, max: int32) | Retry | Exit

  function Capped(n: nat, most: nat): nat {
    if n < most then n else most
  }

  /** How many blocks are processed after so many rounds, each preceded by its visits, when every earlier round added a
      block. */
  function ProcessedAfter(visits: nat -> nat, rounds: nat): nat {
    if rounds == 0 then 0 else Capped(ProcessedAfter(visits, rounds - 1) + visits(rounds - 1), rounds - 1)
  }

  class Segment {
    const kind: Kind
    const words: array<int32>
    ghost var blocks: seq<Block>
    ghost var processed: nat

    /** The chain holds the generated blocks with the first `processed` marked; the header agrees with it. */
    ghost predicate Valid()
      reads this, words
    {
      words.Length == SHM_WORDS && Layout(words[..], kind, blocks, processed)
    }

    ghost predicate DoneSet()
      reads this, words
      requires words.Length == SHM_WORDS
    {
      words[kind.Done()] != 0
    }

    /** The header set-up on a new segment. */
    constructor (kind: Kind)
      ensures Valid() && fresh(words) && this.kind == kind
      ensures blocks == [] && processed == 0 && !DoneSet()
    {
      this.kind := kind;
      words := new int32[SHM_WORDS](_ => 0);
      blocks, processed := [], 0;
      new;
      if kind.Posix? { StoreSize(0, SHM_SIZE); }
      StoreSize(kind.First(), 0);
      StoreSize(kind.Free(), 4 * kind.Header());
      words[kind.Done()] := 0;
    }

    method LoadSize(i: nat) returns (v: nat)
      requires i + 1 < words.Length
      ensures v == SizeAt(words[..], i)
    {
      v := Unsigned(words[i]) + 0x1_0000_0000 * Unsigned(words[i + 1]);
    }

    method StoreSize(i: nat, v: nat)
      requires i + 1 < words.Length && v < TWO64
      modifies words
      ensures words[..] == PutSize(old(words[..]), i, v)
    {
      words[i] := Signed(v % 0x1_0000_0000);
      words[i + 1] := Signed(v / 0x1_0000_0000);
    }

    /** Follows the links to the first block with a nonzero element count; 0 if there is none. */
    method FindUnprocessed() returns (off: nat)
      requires Valid()
      ensures off == Offset(kind, blocks, processed)
    {
      off := LoadSize(kind.First());
      ghost var ix := 0;
      while off != 0
        invariant ix <= processed && off == Offset(kind, blocks, ix)
        decreases |blocks| - ix
      {
        ReadBlock(words[..], kind, blocks, processed, ix);
        var count := LoadSize(off / 4);
        if count > 0 { return; }
        off := LoadSize(off / 4 + 2);
        ix := ix + 1;
      }
    }

    /** One visit of the waiting producer: whether every block is marked. */
    method AllProcessed() returns (all: bool)
      requires Valid()
      ensures all <==> processed == |blocks|
    {
      var off := FindUnprocessed();
      all := off == 0;
    }

    /** The least and greatest of the n integers behind the block header at word `at`. */
    method MinMax(at: nat, n: nat, ghost b: Block) returns (min: int32, max: int32)
      requires 0 < n == |b| && at + BLOCK_HEADER + n <= words.Length
      requires words[at + BLOCK_HEADER..at + BLOCK_HEADER + n] == b
      ensures Extremes(min, max, b)
    {
      min, max := words[at + BLOCK_HEADER], words[at + BLOCK_HEADER];
      assert b[0] == min;
      for i := 0 to n
        invariant min in b && max in b
        invariant forall j :: 0 <= j < i ==> min <= b[j] <= max
      {
        var v := words[at + BLOCK_HEADER + i];
        assert b[i] == v;
        if v < min { min := v; }
        if v > max { max := v; }
      }
    }

    /** Zeroes the element count of the first unmarked block. */
    method MarkProcessed(off: nat)
      requires Valid() && processed < |blocks| && off == Offset(kind, blocks, processed)
      modifies `processed, words
      ensures Valid() && processed == old(processed) + 1 && words[kind.Done()] == old(words[kind.Done()])
    {
      ChainMark(words[..], kind, blocks, processed);
      StoreSize(off / 4, 0);
      processed := processed + 1;
    }

    /** One locked visit of a consumer: the first unprocessed block, if any, is reported truly and marked;
        otherwise nothing changes and the consumer exits exactly if generation is over. */
    method ConsumeVisit() returns (v: Visit)
      requires Valid()
      modifies `processed, words
      ensures Valid() && DoneSet() == old(DoneSet())
      ensures old(processed) < |blocks| ==>
        var b := blocks[old(processed)];
        && processed == old(processed) + 1
        && v.Processed? && v.off == Offset(kind, blocks, old(processed)) && v.count == |b|
        && Extremes(v.min, v.max, b)
      ensures old(processed) == |blocks| ==>
        processed == old(processed) && words[..] == old(words[..]) && v == if DoneSet() then Exit else Retry
    {
      var off := FindUnprocessed();
      if off != 0 {
        ghost var b := blocks[processed];
        assert Sized(b);
        ReadBlock(words[..], kind, blocks, processed, processed);
        var n := LoadSize(off / 4);
        var min, max := MinMax(off / 4, n, b);
        MarkProcessed(off);
        v := Processed(off, n, min, max);
      } else if words[kind.Done()] != 0 {
        v := Exit;
      } else {
        v := Retry;
      }
    }

    /** Writes the integers of a block one by one. */
    method FillData(at: nat, b: Block)
      requires at + BLOCK_HEADER + |b| <= words.Length
      modifies words
      ensures words[at + BLOCK_HEADER..at + BLOCK_HEADER + |b|] == b
      ensures forall w :: 0 <= w < words.Length && !(at + BLOCK_HEADER <= w < at + BLOCK_HEADER + |b|) ==>
              words[w] == old(words[w])
    {
      for i := 0 to |b|
        invariant forall j :: 0 <= j < i ==> words[at + BLOCK_HEADER + j] == b[j]
        invariant forall w :: 0 <= w < words.Length && !(at + BLOCK_HEADER <= w < at + BLOCK_HEADER + |b|) ==>
                  words[w] == old(words[w])
      {
        words[at + BLOCK_HEADER + i] := b[i];
      }
    }

    /** The two header fields of a block: its element count and no successor. */
    method WriteHeader(at: nat, n: nat)
      requires at + BLOCK_HEADER <= words.Length && n < TWO64
      modifies words
      ensures SizeAt(words[..], at) == n && SizeAt(words[..], at + 2) == 0
      ensures forall w :: 0 <= w < words.Length && !(at <= w < at + BLOCK_HEADER) ==> words[w] == old(words[w])
    {
      StoreSize(at, n);
      ghost var m := words[..];
      StoreSize(at + 2, 0);
      assert words[..][at] == m[at] && words[..][at + 1] == m[at + 1];
    }

    /** Fills in a block behind the chain, not yet linked. */
    method WriteBlock(off: nat, b: Block)
      requires Valid() && Sized(b) && off == 4 * End(kind, blocks)
               && End(kind, blocks) + BLOCK_HEADER + |b| <= SHM_WORDS
      modifies words
      ensures Valid() && BlockWords(words[..], End(kind, blocks), |b|, 0, b)
      ensures words[kind.Done()] == old(words[kind.Done()])
    {
      ghost var m := words[..];
      ghost var e := End(kind, blocks);
      WriteHeader(off / 4, |b|);
      FillData(off / 4, b);
      assert forall w :: 0 <= w < e ==> words[..][w] == m[w];
      ChainFrame(m, words[..], kind, blocks, processed);
    }

    /** The producer's local variable: the offset of the last block, of no meaning before the first. */
    ghost predicate LastIs(last: nat)
      reads this
    {
      blocks != [] ==> last == Offset(kind, blocks, |blocks| - 1)
    }

    /** Stores the offset of a filled block where the list ends: in the header or in the last block. */
    method HookBlock(off: nat, last: nat)
      requires Valid() && LastIs(last) && off == 4 * End(kind, blocks)
      modifies words
      ensures Hooked(old(words[..]), words[..], kind, blocks)
    {
      if blocks != [] { StartMonotone(kind, blocks, |blocks| - 1, |blocks|); }
      var first := LoadSize(kind.First());
      if first == 0 {
        StoreSize(kind.First(), off);
      } else {
        StoreSize(last / 4 + 2, off);
      }
    }

    /** Hooks a filled block into the list and accounts for its bytes. */
    method LinkBlock(off: nat, b: Block, last: nat)
      requires Valid() && LastIs(last) && Sized(b) && off == 4 * End(kind, blocks)
      requires BlockWords(words[..], End(kind, blocks), |b|, 0, b)
      modifies `blocks, words
      ensures Valid() && LastIs(off) && blocks == old(blocks) + [b]
      ensures words[kind.Done()] == old(words[kind.Done()])
    {
      ghost var m := words[..];
      HookBlock(off, last);
      ghost var m1 := words[..];
      AddBytes(4 * (BLOCK_HEADER + |b|));
      LayoutAppend(m, m1, words[..], kind, blocks, processed, b);
      StartPrefix(kind, blocks, b, |blocks|);
      blocks := blocks + [b];
    }

    /** Advances the free offset. */
    method AddBytes(size: nat)
      requires words.Length == SHM_WORDS && SizeAt(words[..], kind.Free()) + size < TWO64
      modifies words
      ensures Advanced(old(words[..]), words[..], kind, size)
    {
      var free := LoadSize(kind.Free());
      StoreSize(kind.Free(), free + size);
    }

    method SetDone()
      requires Valid()
      modifies words
      ensures Valid() && DoneSet()
    {
      ghost var m := words[..];
      words[kind.Done()] := 1;
      ChainFrame(m, words[..], kind, blocks, processed);
    }

    /** One locked round of the generation loop with the drawn block b: it is appended if it fits,
        otherwise the done flag is set and the loop stops. */
    method GenerateRound(b: Block, last: nat) returns (stop: bool, newLast: nat)
      requires Valid() && LastIs(last) && Sized(b)
      modifies `blocks, words
      ensures Valid() && LastIs(newLast)
      ensures stop <==> End(kind, old(blocks)) + BLOCK_HEADER + |b| > SHM_WORDS
      ensures stop ==> blocks == old(blocks) && DoneSet() && SHM_SIZE - 4 * End(kind, blocks) < 76
      ensures stop ==> 53 <= |blocks| <= (if kind.SystemV? then 113 else 112)
      ensures !stop ==> blocks == old(blocks) + [b] && DoneSet() == old(DoneSet())
      ensures !stop ==> End(kind, old(blocks)) < End(kind, blocks) <= SHM_WORDS
      ensures processed == old(processed)
    {
      var free := LoadSize(kind.Free());
      var limit := SHM_SIZE;
      if kind.Posix? { limit := LoadSize(0); }
      stop := free + 4 * (BLOCK_HEADER + |b|) > limit;
      if stop {
        SetDone();
        YieldBounds(kind, blocks);
        newLast := last;
      } else {
        WriteBlock(free, b);
        LinkBlock(free, b, last);
        newLast := free;
        EndAppend(kind, old(blocks), b);
      }
    }

    /** Any number of consumer visits: each processes one block as long as there is one. */
    method ConsumeVisits(n: nat)
      requires Valid()
      modifies `processed, words
      ensures Valid() && DoneSet() == old(DoneSet())
      ensures processed == Capped(old(processed) + n, |blocks|)
    {
      for v := 0 to n
        invariant Valid() && DoneSet() == old(DoneSet())
        invariant processed == Capped(old(processed) + v, |blocks|)
      {
        var visit := ConsumeVisit();
      }
    }

    /** A round of the loop preceded by n consumer visits. */
    method VisitsThenRound(n: nat, b: Block, last: nat) returns (stop: bool, newLast: nat)
      requires Valid() && LastIs(last) && Sized(b) && !DoneSet()
      modifies this, words
      ensures Valid() && LastIs(newLast) && DoneSet() == stop
      ensures processed == Capped(old(processed) + n, |old(blocks)|)
      ensures stop ==> blocks == old(blocks) && SHM_SIZE - 4 * End(kind, blocks) < 76
      ensures stop ==> 53 <= |blocks| <= (if kind.SystemV? then 113 else 112)
      ensures !stop ==> blocks == old(blocks) + [b] && End(kind, old(blocks)) < End(kind, blocks) <= SHM_WORDS
    {
      ConsumeVisits(n);
      stop, newLast := GenerateRound(b, last);
    }

    /** The state of the generation loop between two rounds. */
    ghost predicate SoFar(draw: nat -> Block, visits: nat -> nat, last: nat)
      reads this, words
    {
      && Valid() && !DoneSet() && LastIs(last)
      && processed == ProcessedAfter(visits, |blocks|)
      && forall i :: 0 <= i < |blocks| ==> blocks[i] == draw(i)
    }

    method NextRound(draw: nat -> Block, visits: nat -> nat, round: nat, last: nat) returns (stop: bool, newLast: nat)
      requires SoFar(draw, visits, last) && round == |blocks| && forall i :: Sized(draw(i))
      modifies this, words
      ensures !stop ==> SoFar(draw, visits, newLast) && |blocks| == round + 1
      ensures !stop ==> End(kind, old(blocks)) < End(kind, blocks) <= SHM_WORDS
      ensures stop ==> Valid() && DoneSet() && blocks == old(blocks) && SHM_SIZE - 4 * End(kind, blocks) < 76
      ensures stop ==> 53 <= |blocks| <= (if kind.SystemV? then 113 else 112)
      ensures stop ==> processed == ProcessedAfter(visits, |blocks| + 1)
    {
      stop, newLast := VisitsThenRound(visits(round), draw(round), last);
    }

    /** The whole generation loop: whatever blocks are drawn and however many consumer visits fall between two
        rounds, it ends with the drawn blocks in order, fewer than 76 bytes unused, between 53 and 113 (112) blocks,
        and as many processed as the visits come to. */
    method RunGenerationLoop(draw: nat -> Block, visits: nat -> nat)
      requires Valid() && blocks == [] && !DoneSet()
      requires forall i :: Sized(draw(i))
      modifies this, words
      ensures Valid() && DoneSet()
      ensures forall i :: 0 <= i < |blocks| ==> blocks[i] == draw(i)
      ensures SHM_SIZE - 4 * End(kind, blocks) < 76
      ensures 53 <= |blocks| <= (if kind.SystemV? then 113 else 112)
      ensures processed == ProcessedAfter(visits, |blocks| + 1)
    {
      var last, round := 0, 0;
      while true
        invariant SoFar(draw, visits, last) && round == |blocks|
        decreases SHM_WORDS - End(kind, blocks)
      {
        var stop;
        stop, last := NextRound(draw, visits, round, last);
        if stop { return; }
        round := round + 1;
      }
    }
  }
}
