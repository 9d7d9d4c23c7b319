/** Fixed-size packets over byte streams: the loops that write and read a whole packet however the kernel splits
    and interrupts the calls. */
module ByteStreams {
  import opened Basics

  /** sizeof(ChatPacket): two 32-bit fields, nickname, file name, payload. */
  const PACKET_SIZE := 1320

  /** What the kernel does with call number i: interrupts it that often first, then moves that many bytes at most
      (at least one if any can move), unless the connection fails. */
  datatype Kernel = Kernel(interrupts: nat -> nat, moves: nat -> nat, fails: nat -> bool)

  datatype Outcome = Interrupted | Failed | Moved(n: nat)

  /** One end of a connection: the bytes that will still arrive until end of file, the bytes sent so far. */
  class Socket {
    var incoming: Bytes
    var outgoing: Bytes
    const kernel: Kernel
    var call: nat
    var waiting: nat

    constructor (incoming: Bytes, kernel: Kernel)
      ensures this.incoming == incoming && outgoing == [] && this.kernel == kernel
    {
      this.incoming, this.outgoing, this.kernel := incoming, [], kernel;
      call, waiting := 0, kernel.interrupts(0);
    }

    /** How much a call that can move up to max bytes moves. */
    function Portion(max: nat): (n: nat)
      reads this
      ensures n <= max && (max > 0 ==> n > 0)
    {
      if max == 0 then 0 else Least(1 + kernel.moves(call), max)
    }

    /** No call on this end is interrupted or fails from now on. */
    ghost predicate Calm()
      reads this
    {
      waiting == 0 && forall i :: kernel.interrupts(i) == 0 && !kernel.fails(i)
    }

    method Write(data: Bytes) returns (r: Outcome)
      modifies `outgoing, `call, `waiting
      ensures r.Moved? ==> r.n <= |data| && (data != [] ==> r.n > 0) && outgoing == old(outgoing) + data[..r.n]
      ensures !r.Moved? ==> outgoing == old(outgoing)
      ensures old(Calm()) ==> Calm() && r == Moved(old(Portion(|data|)))
      ensures r.Interrupted? ==> waiting < old(waiting)
      ensures r.Failed? ==> kernel.fails(old(call)) && call == old(call)
      ensures call == old(call) + if r.Moved? then 1 else 0
    {
      if waiting > 0 {
        waiting := waiting - 1;
        return Interrupted;
      }
      if kernel.fails(call) { return Failed; }
      var n := Portion(|data|);
      outgoing := outgoing + data[..n];
      call := call + 1;
      waiting := kernel.interrupts(call);
      return Moved(n);
    }

    method Read(max: nat) returns (r: Outcome, data: Bytes)
      modifies `incoming, `call, `waiting
      ensures r.Moved? ==> r.n == |data| <= max && data + incoming == old(incoming)
      ensures r.Moved? && r.n == 0 && max > 0 ==> incoming == []
      ensures !r.Moved? ==> incoming == old(incoming) && data == []
      ensures old(Calm()) ==> Calm() && r == Moved(old(Portion(Least(max, |incoming|))))
      ensures r.Interrupted? ==> waiting < old(waiting)
      ensures r.Failed? ==> kernel.fails(old(call)) && call == old(call)
      ensures call == old(call) + if r.Moved? then 1 else 0
    {
      data := [];
      if waiting > 0 {
        waiting := waiting - 1;
        return Interrupted, [];
      }
      if kernel.fails(call) { return Failed, []; }
      var n := Portion(Least(max, |incoming|));
      data, incoming := incoming[..n], incoming[n..];
      call := call + 1;
      waiting := kernel.interrupts(call);
      return Moved(n), data;
    }

    /** Writes all of buf, in as many calls as it takes; -1 if the connection fails, with a part written. */
    method WriteAll(buf: Bytes) returns (r: int)
      modifies `outgoing, `call, `waiting
      ensures r == |buf| ==> outgoing == old(outgoing) + buf
      ensures r != |buf| ==> r == -1 && exists k :: 0 <= k <= |buf| && outgoing == old(outgoing) + buf[..k]
      ensures r == -1 ==> kernel.fails(call) && call >= old(call)
    {
      var total := 0;
      while total < |buf|
        invariant total <= |buf| && outgoing == old(outgoing) + buf[..total] && call >= old(call)
        decreases |buf| - total, waiting
      {
        var n := Write(buf[total..]);
        match n {
          case Interrupted =>
          case Failed => return -1;
          case Moved(m) =>
            assert buf[..total] + buf[total..][..m] == buf[..total + m];
            total := total + m;
        }
      }
      assert buf[..total] == buf;
      r := total;
    }

    /** Reads size bytes, or all there are before end of file, in as many calls as it takes; -1 on failure. */
    method ReadAll(size: nat) returns (r: int, data: Bytes)
      modifies `incoming, `call, `waiting
      ensures data + incoming == old(incoming)
      ensures r >= 0 ==> r == |data| == Least(size, |old(incoming)|)
      ensures r < 0 ==> r == -1 && |data| < size && kernel.fails(call) && call >= old(call)
    {
      var total := 0;
      data := [];
      while total < size
        invariant total == |data| <= size && data + incoming == old(incoming) && call >= old(call)
        decreases size - total, waiting
      {
        var n, more := Read(size - total);
        match n {
          case Interrupted =>
          case Failed => return -1, data;
          case Moved(m) =>
            if m == 0 { return total, data; }
            assert data + (more + incoming) == data + more + incoming;
            data := data + more;
            total := total + m;
        }
      }
      r := total;
    }
  }

  // ----- streams of packets -----

  predicate WholePackets(ps: seq<Bytes>) {
    forall i :: 0 <= i < |ps| ==> |ps[i]| == PACKET_SIZE
  }

  /** Packets written one after the other. */
  function Joined(ps: seq<Bytes>): (b: Bytes) {
    if ps == [] then [] else ps[0] + Joined(ps[1..])
  }

  /** The whole packets a stream starts with, as a reader of fixed-size packets finds them. */
  function Split(b: Bytes): (ps: seq<Bytes>)
    ensures WholePackets(ps)
  {
    if |b| < PACKET_SIZE then [] else [b[..PACKET_SIZE]] + Split(b[PACKET_SIZE..])
  }

  /** What is left behind the whole packets. */
  function Tail(b: Bytes): (t: Bytes)
    ensures |t| == |b| % PACKET_SIZE
  {
    if |b| < PACKET_SIZE then b else Tail(b[PACKET_SIZE..])
  }

  /** Reading fixed-size packets from what was written recovers exactly the packets, with nothing left. */
  lemma {:induction false} SplitJoined(ps: seq<Bytes>, rest: Bytes)
    requires WholePackets(ps) && |rest| < PACKET_SIZE
    ensures Split(Joined(ps) + rest) == ps && Tail(Joined(ps) + rest) == rest
  {
    if ps == [] {
      assert Joined(ps) + rest == rest;
    } else {
      var b := Joined(ps) + rest;
      assert b == ps[0] + (Joined(ps[1..]) + rest);
      assert b[..PACKET_SIZE] == ps[0] && b[PACKET_SIZE..] == Joined(ps[1..]) + rest;
      SplitJoined(ps[1..], rest);
    }
  }

  lemma {:induction false} JoinedSplit(b: Bytes)
    ensures Joined(Split(b)) + Tail(b) == b
  {
    if |b| >= PACKET_SIZE {
      JoinedSplit(b[PACKET_SIZE..]);
      assert Split(b)[1..] == Split(b[PACKET_SIZE..]);
      var front, ps := b[..PACKET_SIZE], Split(b[PACKET_SIZE..]);
      assert front + Joined(ps) + Tail(b) == front + (Joined(ps) + Tail(b));
      assert b == front + b[PACKET_SIZE..];
    }
  }

  lemma {:induction false} SplitAppend(a: Bytes, b: Bytes)
    requires |a| % PACKET_SIZE == 0
    ensures Split(a + b) == Split(a) + Split(b) && Tail(a + b) == Tail(b)
  {
    if a == [] {
      assert a + b == b;
    } else {
      assert (a + b)[..PACKET_SIZE] == a[..PACKET_SIZE] && (a + b)[PACKET_SIZE..] == a[PACKET_SIZE..] + b;
      SplitAppend(a[PACKET_SIZE..], b);
    }
  }

  /** A sender writing packets and a receiver reading them over the same connection, whatever both kernels do:
      without failures the receiver has exactly the sender's packets and then end of file. */
  method Transport(ps: seq<Bytes>, sender: Kernel, receiver: Kernel) returns (ok: bool, got: seq<Bytes>)
    requires WholePackets(ps)
    ensures ok ==> got == ps
    ensures (forall i :: !sender.fails(i) && !receiver.fails(i)) ==> ok
  {
    got := [];
    ok := false;
    var a := new Socket([], sender);
    for i := 0 to |ps|
      invariant a.outgoing == Joined(ps[..i])
    {
      var r := a.WriteAll(ps[i]);
      if r != PACKET_SIZE { return; }
      JoinedAppend(ps[..i], ps[i]);
      assert ps[..i + 1] == ps[..i] + [ps[i]];
    }
    assert ps[..|ps|] == ps;
    SplitJoined(ps, []);
    assert Joined(ps) + [] == Joined(ps);
    var b := new Socket(a.outgoing, receiver);
    while true
      invariant |Tail(b.incoming)| == 0
      invariant got + Split(b.incoming) == ps
      decreases |b.incoming|
    {
      ghost var was := b.incoming;
      var r, data := b.ReadAll(PACKET_SIZE);
      if r < 0 { return; }
      if r == 0 { break; }
      got := got + [data];
      assert data + b.incoming == was && was[..PACKET_SIZE] == data && was[PACKET_SIZE..] == b.incoming;
    }
    ok := true;
  }

  lemma {:induction false} JoinedAppend(ps: seq<Bytes>, p: Bytes)
    ensures Joined(ps + [p]) == Joined(ps) + p
  {
    if ps == [] {
      assert [p][1..] == [];
    } else {
      assert (ps + [p])[1..] == ps[1..] + [p];
      JoinedAppend(ps[1..], p);
    }
  }
}
