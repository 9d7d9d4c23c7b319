/** The client of the numbered echo: it waits for its reply among the packets a raw socket delivers. */
module EchoClient {
  import opened Basics
  import opened UdpPacket
  import opened EchoServer

  const RETRIES := 5

  /** What one receive call comes back with: nothing (an error or a timeout), or a packet of any sender. */
  type Receives = nat -> Option<Bytes>

  /** The packet comes from the server's port and goes to the client's. */
  predicate IsReply(b: Bytes, clientPort: nat, serverPort: nat)
    requires Headed(b)
  {
    ToPort(b, clientPort) && Field(b, UdpAt(b)) == serverPort
  }

  /** A built datagram is taken for the reply exactly if it comes from the server's port and goes to the client's. */
  lemma {:induction false} RepliesExactly(h: Bytes, src: Bytes, dst: Bytes, sport: nat, dport: nat, payload: Bytes,
                                          behind: Bytes, clientPort: nat, serverPort: nat)
    requires IpHeader(h, src, dst) && sport <= 0xFFFF && dport <= 0xFFFF && UDP_HEADER + |payload| <= 0xFFFF
    ensures var b := h + Datagram(src, dst, sport, dport, payload) + behind;
            && Takable(b, clientPort, serverPort)
            && (IsReply(b, clientPort, serverPort) <==> sport == serverPort && dport == clientPort)
            && TextOf(Some(b), clientPort, serverPort)
               == if sport == serverPort && dport == clientPort then Some(CString(payload)) else None
  {
    ViewOfBuilt(h, src, dst, sport, dport, payload, behind);
  }

  lemma {:induction false} OtherProtocolRefused(b: Bytes, clientPort: nat, serverPort: nat)
    requires |b| >= IP_HEADER && b[9] != PROTO_UDP
    ensures TextOf(Some(b), clientPort, serverPort) == None
  {
  }

  /** What the client can take apart without leaving its buffer: only of a reply the length matters. */
  ghost predicate Takable(b: Bytes, clientPort: nat, serverPort: nat) {
    Headed(b) && (IsReply(b, clientPort, serverPort) ==> LengthFits(b))
  }

  /** The client, which copies the payload of a reply only, reads nothing but the n bytes received exactly if these hold
      the fields it looks at, and never leaves its buffer exactly for the packets its behaviour is described for. */
  lemma {:induction false} ClientReadsInsideExactly(b: Bytes, clientPort: nat, serverPort: nat, n: nat)
    requires |b| == BUFFER_SIZE && IP_HEADER <= n <= BUFFER_SIZE
    ensures var reply := IsReply(b, clientPort, serverPort);
            && (AllReadInside(b, reply, n) <==> Received(b, reply, n))
            && (AllReadInside(b, reply, BUFFER_SIZE) <==> Takable(b, clientPort, serverPort))
  {
    ReadsInside(b, IsReply(b, clientPort, serverPort), n);
    ReadsInside(b, IsReply(b, clientPort, serverPort), BUFFER_SIZE);
  }

  lemma {:induction false} ClientSameFilter(b: Bytes, b': Bytes, clientPort: nat, serverPort: nat)
    requires |b| == |b'| == BUFFER_SIZE
    requires forall i: nat :: i < |b| && ReadsAt(b, IsReply(b, clientPort, serverPort), i) ==> b[i] == b'[i]
    ensures b[9] == b'[9] && UdpAt(b) == UdpAt(b')
    ensures IsReply(b', clientPort, serverPort) == IsReply(b, clientPort, serverPort)
  {
    var u, reply := UdpAt(b), IsReply(b, clientPort, serverPort);
    assert ReadsAt(b, reply, 0) && ReadsAt(b, reply, 9);
    if b[9] == PROTO_UDP {
      assert forall i: nat :: u <= i < u + 4 ==> ReadsAt(b, reply, i);
      SameField(b, b', u);
      SameField(b, b', u + 2);
    }
  }

  lemma {:induction false} ClientSamePayload(b: Bytes, b': Bytes, clientPort: nat, serverPort: nat)
    requires |b| == |b'| == BUFFER_SIZE && Takable(b, clientPort, serverPort) && IsReply(b, clientPort, serverPort)
    requires forall i: nat :: i < |b| && ReadsAt(b, IsReply(b, clientPort, serverPort), i) ==> b[i] == b'[i]
    ensures Takable(b', clientPort, serverPort) && IsReply(b', clientPort, serverPort)
    ensures ViewOf(b').payload == ViewOf(b).payload
  {
    var u, reply := UdpAt(b), IsReply(b, clientPort, serverPort);
    ClientSameFilter(b, b', clientPort, serverPort);
    assert forall i: nat :: u + 4 <= i < u + 6 ==> ReadsAt(b, reply, i);
    SameField(b, b', u + 4);
    assert forall i: nat :: u + UDP_HEADER <= i < PayloadEnd(b) ==> ReadsAt(b, reply, i);
    SameSlice(b, b', u + UDP_HEADER, PayloadEnd(b));
  }

  /** Nothing but these positions decides what the client makes of a packet. */
  lemma {:induction false} ClientReadsDecide(b: Bytes, b': Bytes, clientPort: nat, serverPort: nat)
    requires |b| == |b'| == BUFFER_SIZE && Takable(b, clientPort, serverPort)
    requires forall i: nat :: i < |b| && ReadsAt(b, IsReply(b, clientPort, serverPort), i) ==> b[i] == b'[i]
    ensures TextOf(Some(b'), clientPort, serverPort) == TextOf(Some(b), clientPort, serverPort)
  {
    ClientSameFilter(b, b', clientPort, serverPort);
    if IsReply(b, clientPort, serverPort) { ClientSamePayload(b, b', clientPort, serverPort); }
  }

  ghost predicate AllTakable(receive: Receives, clientPort: nat, serverPort: nat) {
    forall i :: receive(i).Some? ==>
      |receive(i).value| == BUFFER_SIZE && Takable(receive(i).value, clientPort, serverPort)
  }

  /** The text the client reports for a receive call, if that brings a reply. */
  ghost function TextOf(r: Option<Bytes>, clientPort: nat, serverPort: nat): Option<Bytes> {
    if r.Some? && Takable(r.value, clientPort, serverPort) && IsReply(r.value, clientPort, serverPort)
    then Some(CString(ViewOf(r.value).payload)) else None
  }

  /** The first value among n numbered attempts from number i on. */
  ghost function FirstOf<T>(attempt: nat -> Option<T>, i: nat, n: nat): Option<T>
    decreases n
  {
    if n == 0 then None else if attempt(i).Some? then attempt(i) else FirstOf(attempt, i + 1, n - 1)
  }

  /** There is one exactly if one of the attempts has one, and it is that of the earliest such attempt. */
  lemma {:induction false} FirstOfExactly<T>(attempt: nat -> Option<T>, i: nat, n: nat)
    ensures FirstOf(attempt, i, n).Some? <==> exists k: nat :: i <= k < i + n && attempt(k).Some?
    ensures forall k: nat :: i <= k < i + n && attempt(k).Some? && (forall j: nat :: i <= j < k ==> attempt(j).None?)
              ==> FirstOf(attempt, i, n) == attempt(k)
    decreases n
  {
    if n > 0 && attempt(i).None? { FirstOfExactly(attempt, i + 1, n - 1); }
  }

  /** Filters one packet by its ports and reads its text. */
  method ReadReply(b: Bytes, clientPort: nat, serverPort: nat) returns (text: Option<Bytes>)
    requires Takable(b, clientPort, serverPort)
    ensures text == TextOf(Some(b), clientPort, serverPort)
  {
    text := if IsReply(b, clientPort, serverPort) then Some(CString(ViewOf(b).payload)) else None;
  }

  /** The loop over the receive calls, of which `tries` are made at most. */
  method ReplyWithin(receive: Receives, tries: nat, clientPort: nat, serverPort: nat) returns (text: Option<Bytes>)
    requires AllTakable(receive, clientPort, serverPort)
    ensures text == FirstOf(i => TextOf(receive(i), clientPort, serverPort), 0, tries)
  {
    ghost var attempt := (i: nat) => TextOf(receive(i), clientPort, serverPort);
    var retries := tries;
    while retries > 0
      invariant 0 <= retries <= tries
      invariant FirstOf(attempt, tries - retries, retries) == FirstOf(attempt, 0, tries)
    {
      var r := receive(tries - retries);
      if r.None? {
        retries := retries - 1;
        continue;
      }
      text := ReadReply(r.value, clientPort, serverPort);
      if text.Some? { return; }
      retries := retries - 1;
    }
    return None;
  }

  /** The client reports the first packet between the two ports among the first five receive calls, read as a C
      string, if there is one; it gives up exactly if there is none. */
  method WaitForServerReply(receive: Receives, clientPort: nat, serverPort: nat) returns (text: Option<Bytes>)
    requires AllTakable(receive, clientPort, serverPort)
    ensures text.Some? <==> exists i: nat :: i < RETRIES && TextOf(receive(i), clientPort, serverPort).Some?
    ensures forall i: nat :: i < RETRIES && TextOf(receive(i), clientPort, serverPort).Some?
              && (forall j: nat :: j < i ==> TextOf(receive(j), clientPort, serverPort).None?)
              ==> text == TextOf(receive(i), clientPort, serverPort)
  {
    text := ReplyWithin(receive, RETRIES, clientPort, serverPort);
    ghost var attempt := (i: nat) => TextOf(receive(i), clientPort, serverPort);
    FirstOfExactly(attempt, 0, RETRIES);
    assert forall i: nat :: attempt(i) == TextOf(receive(i), clientPort, serverPort);
  }

  /** After any history the server's answer to a client's message is a packet this client accepts, and what it reports
      is its own text with the number the whole history calls for, whatever the two buffers held before. */
  lemma {:induction false} ClientHearsItsNumber(history: seq<Event>, h: Bytes, h': Bytes, client: Bytes, server: Bytes,
                                                clientPort: nat, serverPort: nat, text: Bytes,
                                                behind: Bytes, behind': Bytes)
    requires IpHeader(h, client, server) && IpHeader(h', server, client)
    requires clientPort <= 0xFFFF && serverPort <= 0xFFFF && 0 !in text && text != Ascii(SHUTDOWN_MSG)
    requires UDP_HEADER + |ReplyText(text, EchoNumber(history, Endpoint(client, clientPort)))| <= 0xFFFF
    ensures var number := EchoNumber(history, Endpoint(client, clientPort));
            var b := h + Datagram(client, server, clientPort, serverPort, text) + behind;
            && Whole(b) && b[9] == PROTO_UDP
            && var back := h' + ReplyTo(b, serverPort, number).datagram + behind';
            && Whole(back) && IsReply(back, clientPort, serverPort)
            && CString(ViewOf(back).payload) == ReplyText(text, number)
            && Says(CString(ViewOf(back).payload), text, number)
  {
    var number := EchoNumber(history, Endpoint(client, clientPort));
    EchoRoundTrip(h, h', client, server, clientPort, serverPort, text, number, behind, behind');
    ReplyHasNoNul(text, number);
  }
}
