/** The relay server's client table and its handling of one event. */
module RelayServer {
  import opened Basics
  import opened ByteStreams

  const MAX_CLIENTS := 128

  datatype Delivery = Delivery(fd: int, packet: Bytes)

  ghost predicate Unique(t: seq<int>) {
    forall i, j :: 0 <= i < j < |t| ==> t[i] != t[j]
  }

  /** Removing a descriptor: the last one takes its place. */
  function SwapRemoved(t: seq<int>, fd: int): (r: seq<int>)
    ensures |r| == if fd in t then |t| - 1 else |t|
  {
    if t == [] then []
    else if t[0] == fd then if |t| == 1 then [] else [t[|t| - 1]] + t[1..|t| - 1]
    else [t[0]] + SwapRemoved(t[1..], fd)
  }

  lemma {:induction false} SwapRemovedAt(t: seq<int>, fd: int, i: nat)
    requires i < |t| && t[i] == fd && fd !in t[..i]
    ensures SwapRemoved(t, fd) == t[i := t[|t| - 1]][..|t| - 1]
  {
    if i > 0 {
      assert t[0] in t[..i];
      assert t[1..][i - 1] == t[i] && t[1..][..i - 1] == t[..i][1..];
      SwapRemovedAt(t[1..], fd, i - 1);
      assert t[i := t[|t| - 1]][..|t| - 1] == [t[0]] + t[1..][i - 1 := t[|t| - 1]][..|t| - 2];
    } else {
      assert t[0 := t[|t| - 1]][..|t| - 1] == if |t| == 1 then [] else [t[|t| - 1]] + t[1..|t| - 1];
    }
  }

  lemma {:induction false} SwapRemovedAbsent(t: seq<int>, fd: int)
    requires fd !in t
    ensures SwapRemoved(t, fd) == t
  {
    if t != [] {
      assert t[0] in t && forall x :: x in t[1..] ==> x in t;
      SwapRemovedAbsent(t[1..], fd);
    }
  }

  /** Swap-with-last removal takes out that descriptor, keeps all others and keeps them distinct. */
  lemma {:induction false} SwapRemovedKeeps(t: seq<int>, fd: int)
    requires Unique(t)
    ensures Unique(SwapRemoved(t, fd))
    ensures forall x :: x in SwapRemoved(t, fd) <==> x in t && x != fd
  {
    if fd in t {
      var i :| 0 <= i < |t| && t[i] == fd;
      assert fd !in t[..i];
      SwapRemovedAt(t, fd, i);
      var r, n := SwapRemoved(t, fd), |t| - 1;
      forall x ensures x in r <==> x in t && x != fd {
        if x in t && x != fd {
          var j :| 0 <= j < |t| && t[j] == x;
          assert r[if j == n then i else j] == x;
        }
      }
    } else {
      SwapRemovedAbsent(t, fd);
    }
  }

  /** One copy for every client but the sender, in table order. */
  function Copies(t: seq<int>, sender: int, packet: Bytes): (r: seq<Delivery>) {
    if t == [] then []
    else Copies(t[..|t| - 1], sender, packet) + if t[|t| - 1] != sender then [Delivery(t[|t| - 1], packet)] else []
  }

  /** Nobody gets a packet twice and the sender gets none. */
  lemma {:induction false} CopiesOncePerClient(t: seq<int>, sender: int, packet: Bytes)
    requires Unique(t)
    ensures forall d :: d in Copies(t, sender, packet) <==> d.packet == packet && d.fd in t && d.fd != sender
    ensures forall i, j :: 0 <= i < j < |Copies(t, sender, packet)| ==>
              Copies(t, sender, packet)[i].fd != Copies(t, sender, packet)[j].fd
  {
    if t != [] {
      var init, last := t[..|t| - 1], t[|t| - 1];
      CopiesOncePerClient(init, sender, packet);
      assert forall x :: x in t <==> x in init || x == last;
      var before := Copies(init, sender, packet);
      assert forall i :: 0 <= i < |before| ==> before[i] in before;
    }
  }

  /** The outcome of reading one packet: end of file, or the packet that goes out. The buffer is not cleared, so a
      short packet is filled up with whatever was there. */
  datatype Taken = Gone | Packet(packet: Bytes)

  function Take(rest: Bytes, stale: Bytes): (r: Taken)
    requires |stale| == PACKET_SIZE
    ensures r.Packet? ==> |r.packet| == PACKET_SIZE
  {
    var n := Least(PACKET_SIZE, |rest|);
    if n == 0 then Gone else Packet(rest[..n] + stale[n..])
  }

  /** The packet that goes out begins with what is left of the stream, and a short one goes on as the buffer did. */
  lemma {:induction false} ShortPacketFilledUp(rest: Bytes, stale: Bytes)
    requires |stale| == PACKET_SIZE
    ensures Take(rest, stale).Gone? <==> rest == []
    ensures rest != [] ==>
              forall j :: 0 <= j < 1320 ==> Take(rest, stale).packet[j] == if j < |rest| then rest[j] else stale[j]
  {
  }

  class Server {
    const clientSockets: array<int>
    var numClients: nat
    var sent: seq<Delivery>

    ghost predicate Valid()
      reads this, clientSockets
    {
      clientSockets.Length == MAX_CLIENTS && numClients <= MAX_CLIENTS && Unique(clientSockets[..numClients])
    }

    ghost function Table(): seq<int>
      reads this, clientSockets
      requires numClients <= clientSockets.Length
    {
      clientSockets[..numClients]
    }

    constructor ()
      ensures Valid() && fresh(clientSockets) && Table() == [] && sent == []
    {
      clientSockets := new int[MAX_CLIENTS];
      numClients, sent := 0, [];
    }

    method RemoveClient(fd: int)
      requires Valid()
      modifies `numClients, clientSockets
      ensures Valid() && Table() == SwapRemoved(old(Table()), fd)
    {
      ghost var t := Table();
      SwapRemovedKeeps(t, fd);
      for i := 0 to numClients
        invariant Table() == t && forall j :: 0 <= j < i ==> t[j] != fd
      {
        if clientSockets[i] == fd {
          clientSockets[i] := clientSockets[numClients - 1];
          numClients := numClients - 1;
          SwapRemovedAt(t, fd, i);
          assert Table() == t[i := t[|t| - 1]][..|t| - 1];
          return;
        }
      }
      SwapRemovedAbsent(t, fd);
    }

    /** An accepted connection, whose descriptor no open connection has; over the limit it is closed again. */
    method HandleNewConnection(fd: int) returns (kept: bool)
      requires Valid() && fd !in Table()
      modifies `numClients, clientSockets
      ensures Valid() && kept == (|old(Table())| < MAX_CLIENTS)
      ensures Table() == old(Table()) + if kept then [fd] else []
    {
      if numClients >= MAX_CLIENTS { return false; }
      clientSockets[numClients] := fd;
      numClients := numClients + 1;
      return true;
    }

    method BroadcastPacket(sender: int, packet: Bytes)
      requires Valid()
      modifies `sent
      ensures Valid() && sent == old(sent) + Copies(Table(), sender, packet)
    {
      for c := 0 to numClients
        invariant sent == old(sent) + Copies(Table()[..c], sender, packet)
      {
        assert Table()[..c + 1][..c] == Table()[..c];
        if clientSockets[c] != sender {
          sent := sent + [Delivery(clientSockets[c], packet)];
        }
      }
      assert Table()[..numClients] == Table();
    }

    /** Reads one packet of a client into a buffer with old contents and relays it; at end of file drops the client. */
    method HandleClientData(socket: Socket, fd: int, stale: Bytes)
      requires Valid() && fd in Table() && |stale| == PACKET_SIZE
      modifies this, clientSockets, socket`incoming, socket`call, socket`waiting
      ensures Valid()
      ensures || (Table() == SwapRemoved(old(Table()), fd) && sent == old(sent)
                  && (old(socket.incoming) == [] || exists i :: socket.kernel.fails(i)))
              || (Take(old(socket.incoming), stale).Packet? && Table() == old(Table())
                  && sent == old(sent) + Copies(Table(), fd, Take(old(socket.incoming), stale).packet))
      ensures (forall i :: !socket.kernel.fails(i)) ==>
        match Take(old(socket.incoming), stale)
        case Gone => Table() == SwapRemoved(old(Table()), fd) && sent == old(sent)
        case Packet(packet) => Table() == old(Table()) && sent == old(sent) + Copies(Table(), fd, packet)
                               && socket.incoming == old(socket.incoming)[Least(PACKET_SIZE, |old(socket.incoming)|)..]
    {
      ghost var rest := socket.incoming;
      var n, data := socket.ReadAll(PACKET_SIZE);
      if n <= 0 {
        RemoveClient(fd);
      } else {
        assert rest[..n] == data && rest[n..] == socket.incoming;
        BroadcastPacket(fd, data + stale[n..]);
      }
    }
  }
}
