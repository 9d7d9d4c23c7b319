/** The shared segment as the processes see it: 4-byte words, a size_t being two
    consecutive words with the low half first, and the chain of blocks laid out in it. */
module SegmentMemory {

  type int32 = x: int | -0x8000_0000 <= x < 0x8000_0000

  type Mem = seq<int32>

  const TWO64 := 0x1_0000_0000_0000_0000
  const SHM_SIZE := 4096
  const SHM_WORDS := 1024

  function Unsigned(w: int32): nat {
    if w < 0 then w + 0x1_0000_0000 else w
  }

  function Signed(u: nat): (w: int32)
    requires u < 0x1_0000_0000
    ensures Unsigned(w) == u
  {
    if u < 0x8000_0000 then u else u - 0x1_0000_0000
  }

  /** The size_t stored at word i. */
  function SizeAt(m: Mem, i: nat): nat
    requires i + 1 < |m|
  {
    Unsigned(m[i]) + 0x1_0000_0000 * Unsigned(m[i + 1])
  }

  /** Storing a size_t makes it readable there and touches no other word. */
  function PutSize(m: Mem, i: nat, v: nat): (r: Mem)
    requires i + 1 < |m| && v < TWO64
    ensures |r| == |m| && SizeAt(r, i) == v
    ensures forall j :: 0 <= j < |m| && j != i && j != i + 1 ==> r[j] == m[j]
  {
    m[i := Signed(v % 0x1_0000_0000)][i + 1 := Signed(v / 0x1_0000_0000)]
  }

  /** The System V program keeps the size in a macro, the POSIX program in the first header field. */
  datatype Kind = SystemV | Posix {
    function First(): nat { if SystemV? then 0 else 2 }
    function Free(): nat { First() + 2 }
    function Done(): nat { First() + 4 }
    function Header(): nat { First() + 6 }
  }

  type Block = seq<int32>

  const BLOCK_HEADER := 4

  /** A generated block holds 5 to 15 integers. */
  predicate Sized(b: Block) {
    5 <= |b| <= 15
  }

  predicate AllSized(bs: seq<Block>) {
    forall i :: 0 <= i < |bs| ==> Sized(bs[i])
  }

  /** The first word of block i; the blocks are laid out one after another behind the header. */
  function Start(k: Kind, bs: seq<Block>, i: nat): (s: nat)
    requires i <= |bs|
    ensures s >= k.Header()
  {
    if i == 0 then k.Header() else Start(k, bs, i - 1) + BLOCK_HEADER + |bs[i - 1]|
  }

  /** The first word after the blocks. */
  function End(k: Kind, bs: seq<Block>): (e: nat)
    ensures e >= k.Header()
  {
    Start(k, bs, |bs|)
  }

  /** The byte offset of block i, and the null offset 0 past the last block. */
  function Offset(k: Kind, bs: seq<Block>, i: nat): (o: nat)
    requires i <= |bs|
    ensures o == 0 <==> i == |bs|
  {
    if i < |bs| then 4 * Start(k, bs, i) else 0
  }

  /** The words of one block: its element count, the offset of the next block, its integers. */
  ghost predicate BlockWords(m: Mem, s: nat, count: nat, next: nat, b: Block) {
    && s + BLOCK_HEADER + |b| <= |m|
    && SizeAt(m, s) == count
    && SizeAt(m, s + 2) == next
    && m[s + BLOCK_HEADER..s + BLOCK_HEADER + |b|] == b
  }

  ghost predicate BlockAt(m: Mem, k: Kind, bs: seq<Block>, processed: nat, i: nat)
    requires i < |bs|
  {
    BlockWords(m, Start(k, bs, i), if i < processed then 0 else |bs[i]|, Offset(k, bs, i + 1), bs[i])
  }

  /** The blocks bs are linked in m in order, and exactly the first `processed` of them are marked. */
  ghost predicate Chain(m: Mem, k: Kind, bs: seq<Block>, processed: nat) {
    && |m| == SHM_WORDS
    && AllSized(bs)
    && processed <= |bs|
    && End(k, bs) <= |m|
    && forall i :: 0 <= i < |bs| ==> BlockAt(m, k, bs, processed, i)
  }

  /** Blocks tile the segment: a later block starts at or after the end of an earlier one. */
  lemma {:induction false} StartMonotone(k: Kind, bs: seq<Block>, i: nat, j: nat)
    requires i < j <= |bs|
    ensures Start(k, bs, i) + BLOCK_HEADER + |bs[i]| <= Start(k, bs, j)
  {
    if i + 1 < j { StartMonotone(k, bs, i, j - 1); }
  }

  lemma {:induction false} StartPrefix(k: Kind, bs: seq<Block>, b: Block, i: nat)
    requires i <= |bs|
    ensures Start(k, bs + [b], i) == Start(k, bs, i)
  {
    if i > 0 { StartPrefix(k, bs, b, i - 1); }
  }

  lemma {:induction false} EndAppend(k: Kind, bs: seq<Block>, b: Block)
    ensures End(k, bs + [b]) == End(k, bs) + BLOCK_HEADER + |b|
  {
    StartPrefix(k, bs, b, |bs|);
  }

  lemma {:induction false} BlockFrame(m: Mem, m': Mem, s: nat, count: nat, next: nat, b: Block)
    requires BlockWords(m, s, count, next, b) && |m'| == |m|
    requires forall w :: s <= w < s + BLOCK_HEADER + |b| ==> m'[w] == m[w]
    ensures BlockWords(m', s, count, next, b)
  {
  }

  lemma {:induction false} BlockCount(m: Mem, m': Mem, s: nat, count: nat, next: nat, b: Block, count': nat)
    requires BlockWords(m, s, count, next, b) && |m'| == |m|
    requires SizeAt(m', s) == count'
    requires forall w :: s + 2 <= w < s + BLOCK_HEADER + |b| ==> m'[w] == m[w]
    ensures BlockWords(m', s, count', next, b)
  {
  }

  lemma {:induction false} BlockNext(m: Mem, m': Mem, s: nat, count: nat, next: nat, b: Block, next': nat)
    requires BlockWords(m, s, count, next, b) && |m'| == |m|
    requires SizeAt(m', s + 2) == next' && m'[s] == m[s] && m'[s + 1] == m[s + 1]
    requires forall w :: s + BLOCK_HEADER <= w < s + BLOCK_HEADER + |b| ==> m'[w] == m[w]
    ensures BlockWords(m', s, count, next', b)
  {
  }

  /** Writes outside the words of the blocks leave the chain alone. */
  lemma {:induction false} ChainFrame(m: Mem, m': Mem, k: Kind, bs: seq<Block>, processed: nat)
    requires Chain(m, k, bs, processed) && |m'| == |m|
    requires forall w :: k.Header() <= w < End(k, bs) ==> m'[w] == m[w]
    ensures Chain(m', k, bs, processed)
  {
    forall i | 0 <= i < |bs| ensures BlockAt(m', k, bs, processed, i) {
      assert BlockAt(m, k, bs, processed, i);
      StartMonotone(k, bs, i, |bs|);
      BlockFrame(m, m', Start(k, bs, i), if i < processed then 0 else |bs[i]|, Offset(k, bs, i + 1), bs[i]);
    }
  }

  /** Two blocks never share a word. */
  lemma {:induction false} BlocksDisjoint(k: Kind, bs: seq<Block>, i: nat, j: nat)
    requires i < |bs| && j < |bs| && i != j
    ensures Start(k, bs, i) + BLOCK_HEADER + |bs[i]| <= Start(k, bs, j)
            || Start(k, bs, j) + BLOCK_HEADER + |bs[j]| <= Start(k, bs, i)
  {
    if i < j { StartMonotone(k, bs, i, j); } else { StartMonotone(k, bs, j, i); }
  }

  /** m' is m with the element count of block p zeroed. */
  ghost predicate CountZeroed(m: Mem, m': Mem, k: Kind, bs: seq<Block>, p: nat)
    requires p < |bs|
  {
    var s := Start(k, bs, p);
    && s + 1 < |m| == |m'|
    && SizeAt(m', s) == 0
    && forall w :: 0 <= w < |m| && w != s && w != s + 1 ==> m'[w] == m[w]
  }

  lemma {:induction false} MarkOther(m: Mem, m': Mem, k: Kind, bs: seq<Block>, p: nat, i: nat)
    requires Chain(m, k, bs, p) && p < |bs| && CountZeroed(m, m', k, bs, p) && i < |bs| && i != p
    ensures BlockAt(m', k, bs, p + 1, i)
  {
    assert BlockAt(m, k, bs, p, i);
    BlocksDisjoint(k, bs, i, p);
    BlockFrame(m, m', Start(k, bs, i), if i < p then 0 else |bs[i]|, Offset(k, bs, i + 1), bs[i]);
  }

  lemma {:induction false} MarkThis(m: Mem, m': Mem, k: Kind, bs: seq<Block>, p: nat)
    requires Chain(m, k, bs, p) && p < |bs| && CountZeroed(m, m', k, bs, p)
    ensures BlockAt(m', k, bs, p + 1, p)
  {
    assert BlockAt(m, k, bs, p, p);
    BlockCount(m, m', Start(k, bs, p), |bs[p]|, Offset(k, bs, p + 1), bs[p], 0);
  }

  /** Zeroing the element count of the first unmarked block marks exactly that block. */
  lemma {:induction false} ChainMark(m: Mem, k: Kind, bs: seq<Block>, processed: nat)
    requires Chain(m, k, bs, processed) && processed < |bs|
    ensures Start(k, bs, processed) + 1 < |m|
    ensures Chain(PutSize(m, Start(k, bs, processed), 0), k, bs, processed + 1)
  {
    assert BlockAt(m, k, bs, processed, processed);
    var m' := PutSize(m, Start(k, bs, processed), 0);
    var marked := processed + 1;
    forall i | 0 <= i < |bs| ensures BlockAt(m', k, bs, marked, i) {
      if i == processed { MarkThis(m, m', k, bs, i); } else { MarkOther(m, m', k, bs, processed, i); }
    }
  }

  /** Where the link to the next block goes: the list head, or the last block's link field. */
  function LinkWord(k: Kind, bs: seq<Block>): nat {
    if bs == [] then k.First() else Start(k, bs, |bs| - 1) + 2
  }

  /** m' is m with the offset of a further block hooked in behind the blocks bs. */
  ghost predicate Hooked(m: Mem, m': Mem, k: Kind, bs: seq<Block>) {
    var at := LinkWord(k, bs);
    && at + 1 < |m| == |m'|
    && SizeAt(m', at) == 4 * End(k, bs)
    && forall w :: 0 <= w < |m| && w != at && w != at + 1 ==> m'[w] == m[w]
  }

  lemma {:induction false} AppendKeepsOther(m: Mem, m': Mem, k: Kind, bs: seq<Block>, processed: nat, b: Block, i: nat)
    requires Chain(m, k, bs, processed) && Hooked(m, m', k, bs) && i < |bs| - 1
    ensures BlockAt(m', k, bs + [b], processed, i)
  {
    assert BlockAt(m, k, bs, processed, i);
    StartPrefix(k, bs, b, i);
    StartPrefix(k, bs, b, i + 1);
    StartMonotone(k, bs, i, |bs| - 1);
    BlockFrame(m, m', Start(k, bs, i), if i < processed then 0 else |bs[i]|, Offset(k, bs, i + 1), bs[i]);
  }

  lemma {:induction false} AppendKeepsLast(m: Mem, m': Mem, k: Kind, bs: seq<Block>, processed: nat, b: Block)
    requires Chain(m, k, bs, processed) && Hooked(m, m', k, bs) && bs != []
    ensures BlockAt(m', k, bs + [b], processed, |bs| - 1)
  {
    var i := |bs| - 1;
    assert BlockAt(m, k, bs, processed, i);
    StartPrefix(k, bs, b, i);
    StartPrefix(k, bs, b, i + 1);
    BlockNext(m, m', Start(k, bs, i), if i < processed then 0 else |bs[i]|, 0, bs[i], 4 * End(k, bs));
  }

  lemma {:induction false} AppendAdds(m: Mem, m': Mem, k: Kind, bs: seq<Block>, processed: nat, b: Block)
    requires Chain(m, k, bs, processed) && Hooked(m, m', k, bs) && BlockWords(m, End(k, bs), |b|, 0, b)
    ensures BlockAt(m', k, bs + [b], processed, |bs|)
  {
    StartPrefix(k, bs, b, |bs|);
    BlockFrame(m, m', End(k, bs), |b|, 0, b);
  }

  /** Hooking in a fresh block extends the chain by exactly that block. */
  lemma {:induction false} ChainAppend(m: Mem, m': Mem, k: Kind, bs: seq<Block>, processed: nat, b: Block)
    requires Chain(m, k, bs, processed) && Hooked(m, m', k, bs)
    requires Sized(b) && BlockWords(m, End(k, bs), |b|, 0, b)
    ensures Chain(m', k, bs + [b], processed)
  {
    EndAppend(k, bs, b);
    forall i | 0 <= i < |bs + [b]| ensures BlockAt(m', k, bs + [b], processed, i) {
      if i == |bs| {
        AppendAdds(m, m', k, bs, processed, b);
      } else if i == |bs| - 1 {
        AppendKeepsLast(m, m', k, bs, processed, b);
      } else {
        AppendKeepsOther(m, m', k, bs, processed, b, i);
      }
    }
  }

  /** Reads of the processes: a word index outside the segment never occurs in a run (see SegmentRuns). */
  function Load(m: Mem, i: nat): nat {
    if i + 1 < |m| then SizeAt(m, i) else 0
  }

  function Store(m: Mem, i: nat, v: nat): (r: Mem)
    ensures |r| == |m|
  {
    if i + 1 < |m| && v < TWO64 then PutSize(m, i, v) else m
  }

  /** Every block takes between 9 and 19 words, which bounds the number of blocks from both sides. */
  lemma {:induction false} EndBounds(k: Kind, bs: seq<Block>, i: nat)
    requires AllSized(bs) && i <= |bs|
    ensures k.Header() + 9 * i <= Start(k, bs, i) <= k.Header() + 19 * i
  {
    if i > 0 { EndBounds(k, bs, i - 1); }
  }

  /** Once a block of at most 15 integers no longer fits, fewer than 76 bytes are left. */
  lemma {:induction false} YieldBounds(k: Kind, bs: seq<Block>)
    requires AllSized(bs) && End(k, bs) <= SHM_WORDS && End(k, bs) + BLOCK_HEADER + 15 > SHM_WORDS
    ensures SHM_SIZE - 4 * End(k, bs) < 76
    ensures 53 <= |bs| <= (if k.SystemV? then 113 else 112)
  {
    EndBounds(k, bs, |bs|);
  }

  /** The (offset, element count) pairs met when following the links from byte offset `off`. */
  ghost function Walk(m: Mem, off: nat, fuel: nat): seq<(nat, nat)>
    decreases fuel
  {
    if off == 0 || fuel == 0 then []
    else [(off, Load(m, off / 4))] + Walk(m, Load(m, off / 4 + 2), fuel - 1)
  }

  ghost function Cells(k: Kind, bs: seq<Block>, processed: nat, i: nat): (cells: seq<(nat, nat)>)
    requires i <= |bs|
    ensures |cells| == |bs| - i
    decreases |bs| - i
  {
    if i == |bs| then []
    else [(Offset(k, bs, i), if i < processed then 0 else |bs[i]|)] + Cells(k, bs, processed, i + 1)
  }

  /** What a process reads at the offset of block i. */
  lemma {:induction false} ReadBlock(m: Mem, k: Kind, bs: seq<Block>, processed: nat, i: nat)
    requires Chain(m, k, bs, processed) && i < |bs|
    ensures Offset(k, bs, i) / 4 == Start(k, bs, i) && Start(k, bs, i) + BLOCK_HEADER + |bs[i]| <= |m|
    ensures Load(m, Start(k, bs, i)) == if i < processed then 0 else |bs[i]|
    ensures Load(m, Start(k, bs, i) + 2) == Offset(k, bs, i + 1)
    ensures m[Start(k, bs, i) + BLOCK_HEADER..Start(k, bs, i) + BLOCK_HEADER + |bs[i]|] == bs[i]
  {
    assert BlockAt(m, k, bs, processed, i);
  }

  /** Following the links from the head reaches the null offset after visiting every block once, in order,
      with whatever larger bound on the number of hops. */
  lemma {:induction false} WalkVisitsAll(m: Mem, k: Kind, bs: seq<Block>, processed: nat, i: nat, fuel: nat)
    requires Chain(m, k, bs, processed) && i <= |bs| && fuel >= |bs| - i
    ensures Walk(m, Offset(k, bs, i), fuel) == Cells(k, bs, processed, i)
    decreases |bs| - i
  {
    if i < |bs| {
      var off := Offset(k, bs, i);
      var count, next := Load(m, off / 4), Load(m, off / 4 + 2);
      assert count == (if i < processed then 0 else |bs[i]|) && next == Offset(k, bs, i + 1) by {
        ReadBlock(m, k, bs, processed, i);
      }
      WalkVisitsAll(m, k, bs, processed, i + 1, fuel - 1);
      assert Walk(m, off, fuel) == [(off, count)] + Walk(m, next, fuel - 1);
    }
  }

  /** min and max are the least and greatest integer of b. */
  ghost predicate Extremes(min: int32, max: int32, b: Block) {
    min in b && max in b && forall j :: 0 <= j < |b| ==> min <= b[j] <= max
  }

  /** The segment between two critical sections: the chain and the header that describes it. */
  ghost predicate Layout(m: Mem, k: Kind, bs: seq<Block>, processed: nat) {
    && Chain(m, k, bs, processed)
    && SizeAt(m, k.First()) == Offset(k, bs, 0)
    && SizeAt(m, k.Free()) == 4 * End(k, bs)
    && (k.Posix? ==> SizeAt(m, 0) == SHM_SIZE)
  }

  /** m' is m with the free offset advanced. */
  ghost predicate Advanced(m: Mem, m': Mem, k: Kind, size: nat) {
    && |m'| == |m| == SHM_WORDS
    && SizeAt(m', k.Free()) == SizeAt(m, k.Free()) + size
    && forall w :: 0 <= w < |m| && w != k.Free() && w != k.Free() + 1 ==> m'[w] == m[w]
  }

  lemma {:induction false} LayoutHeader(m: Mem, m1: Mem, m2: Mem, k: Kind, bs: seq<Block>, processed: nat, b: Block)
    requires Layout(m, k, bs, processed) && Hooked(m, m1, k, bs) && Advanced(m1, m2, k, 4 * (BLOCK_HEADER + |b|))
    ensures SizeAt(m2, k.First()) == Offset(k, bs + [b], 0)
    ensures SizeAt(m2, k.Free()) == 4 * End(k, bs + [b])
    ensures k.Posix? ==> SizeAt(m2, 0) == SHM_SIZE
    ensures m2[k.Done()] == m[k.Done()]
  {
    StartPrefix(k, bs, b, 0);
    EndAppend(k, bs, b);
    if bs != [] { StartMonotone(k, bs, |bs| - 1, |bs|); }
  }

  /** Hooking in a filled block and advancing the free offset appends the block. */
  lemma {:induction false} LayoutAppend(m: Mem, m1: Mem, m2: Mem, k: Kind, bs: seq<Block>, processed: nat, b: Block)
    requires Layout(m, k, bs, processed) && Hooked(m, m1, k, bs) && Advanced(m1, m2, k, 4 * (BLOCK_HEADER + |b|))
    requires Sized(b) && BlockWords(m, End(k, bs), |b|, 0, b)
    ensures Layout(m2, k, bs + [b], processed) && m2[k.Done()] == m[k.Done()]
  {
    LayoutHeader(m, m1, m2, k, bs, processed, b);
    ChainAppend(m, m1, k, bs, processed, b);
    ChainFrame(m1, m2, k, bs + [b], processed);
  }
}
