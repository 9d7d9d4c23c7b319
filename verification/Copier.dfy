/** The loops of the parent and of the child, each against the channels it reads and writes. */
module Copier {
  import opened Basics
  import opened ByteStreams
  import opened CopierRuns

  const READY: byte := 82

  /** Writes the whole chunk, in as many calls as it takes; any error or interruption gives up, with a part written. */
  method WriteChunk(to: Socket, chunk: Bytes) returns (ok: bool)
    modifies to`outgoing, to`call, to`waiting
    ensures ok ==> to.outgoing == old(to.outgoing) + chunk
    ensures old(to.outgoing) <= to.outgoing <= old(to.outgoing) + chunk
    ensures old(to.Calm()) ==> ok && to.Calm()
  {
    var written := 0;
    while written < |chunk|
      invariant written <= |chunk| && to.outgoing == old(to.outgoing) + chunk[..written]
      invariant old(to.Calm()) ==> to.Calm()
    {
      var w := to.Write(chunk[written..]);
      if !w.Moved? {
        StillPrefix(old(to.outgoing), chunk, written);
        return false;
      }
      assert chunk[..written] + chunk[written..][..w.n] == chunk[..written + w.n];
      written := written + w.n;
    }
    assert chunk[..written] == chunk;
    ok := true;
  }

  lemma {:induction false} StillPrefix(before: Bytes, b: Bytes, n: nat)
    requires n <= |b|
    ensures before <= before + b[..n] <= before + b
  {
    assert before + b == before + b[..n] + b[n..];
  }

  lemma {:induction false} PrefixGrows(out: Bytes, before: Bytes, moved: Bytes, chunk: Bytes, rest: Bytes, all: Bytes)
    requires before + moved <= out <= before + moved + chunk && moved + (chunk + rest) == all
    ensures before <= out <= before + all
  {
    assert before + all == before + moved + chunk + rest;
  }

  /** Reads one channel to its end, chunk by chunk, and writes it all to the other. */
  method Pump(from: Socket, to: Socket) returns (ok: bool, total: nat)
    requires from != to
    modifies from`incoming, from`call, from`waiting, to`outgoing, to`call, to`waiting
    ensures ok ==> to.outgoing == old(to.outgoing) + old(from.incoming) && total == |old(from.incoming)|
    ensures old(to.outgoing) <= to.outgoing <= old(to.outgoing) + old(from.incoming)
    ensures old(from.Calm()) && old(to.Calm()) ==> ok
  {
    total := 0;
    ghost var moved: Bytes := [];
    ghost var before, all := to.outgoing, from.incoming;
    while true
      invariant to.outgoing == before + moved && moved + from.incoming == all && total == |moved|
      invariant old(from.Calm()) && old(to.Calm()) ==> from.Calm() && to.Calm()
      decreases |from.incoming|
    {
      ghost var was := from.incoming;
      var r, chunk := from.Read(BUFFER_SIZE);
      if !r.Moved? {
        PrefixGrows(to.outgoing, before, moved, [], was, all);
        return false, total;
      }
      if r.n == 0 { break; }
      ok := WriteChunk(to, chunk);
      if !ok {
        PrefixGrows(to.outgoing, before, moved, chunk, from.incoming, all);
        return;
      }
      assert moved + chunk + from.incoming == moved + was;
      moved := moved + chunk;
      total := total + r.n;
    }
    ok := true;
  }

  /** The parent: waits for the ready byte, announces the size, sends the file. It succeeds whenever the ready byte
      came, no call is interrupted or fails and the header goes out at once. */
  method RunParent(file: Socket, name: Bytes, size: nat, ready: Bytes, pipe: Socket) returns (status: int)
    requires file != pipe
    modifies file`incoming, file`call, file`waiting, pipe`outgoing, pipe`call, pipe`waiting
    ensures status == 0 || status == -1
    ensures status == 0 ==> pipe.outgoing == old(pipe.outgoing) + Header(name, size) + old(file.incoming)
    ensures ready != [READY] ==> status == -1 && pipe.outgoing == old(pipe.outgoing)
    ensures ready == [READY] && old(file.Calm()) && old(pipe.Calm()) && old(pipe.Portion(HEADER_SIZE)) == HEADER_SIZE
            ==> status == 0
    ensures old(pipe.outgoing) <= pipe.outgoing <= old(pipe.outgoing) + (Header(name, size) + old(file.incoming))
  {
    ghost var before, all := pipe.outgoing, file.incoming;
    var h := Header(name, size);
    StillPrefix(before, h + all, 0);
    assert before + (h + all)[..0] == before;
    if ready != [READY] { return -1; }
    var w := pipe.Write(h);
    if !w.Moved? { return -1; }
    assert (h + all)[..w.n] == h[..w.n];
    StillPrefix(before, h + all, w.n);
    if w.n < HEADER_SIZE { return -1; }
    assert h[..w.n] == h;
    var ok, total := Pump(file, pipe);
    assert before + h + all == before + (h + all);
    assert before <= before + h;
    status := if ok then 0 else -1;
  }

  /** The child: reads the header, writes everything behind it to the copy, compares the sizes. It succeeds whenever no
      call is interrupted or fails and the header comes in at once. */
  method RunChild(data: Socket, copy: Socket) returns (status: int, header: Bytes, mismatch: bool)
    requires data != copy
    modifies data`incoming, data`call, data`waiting, copy`outgoing, copy`call, copy`waiting
    ensures status == 0 || status == -1
    ensures status == 0 ==>
      && |header| == HEADER_SIZE && header <= old(data.incoming)
      && copy.outgoing == old(copy.outgoing) + old(data.incoming)[HEADER_SIZE..]
      && (mismatch <==> |old(data.incoming)| - HEADER_SIZE != AnnouncedSize(header))
    ensures old(data.Calm() && copy.Calm() && data.Portion(Least(HEADER_SIZE, |data.incoming|)) == HEADER_SIZE)
            ==> status == 0
    ensures old(copy.outgoing) <= copy.outgoing
  {
    mismatch := false;
    var r;
    r, header := data.Read(HEADER_SIZE);
    if !r.Moved? || r.n < HEADER_SIZE { return -1, header, false; }
    assert old(data.incoming) == header + data.incoming;
    var ok, total := Pump(data, copy);
    status := if ok then 0 else -1;
    mismatch := total != AnnouncedSize(header);
  }
}
