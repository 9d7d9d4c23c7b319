/** The numbered echo over raw packets: a bounded table of clients that agrees with the whole message history. */
module EchoServer {
  import opened Basics
  import opened UdpPacket

  const MAX_CLIENTS := 128

  datatype Endpoint = Endpoint(ip: Bytes, port: nat)

  datatype ClientRecord = ClientRecord(who: Endpoint, count: nat)

  /** What a packet addressed to the server means to it. */
  datatype Event = Message(who: Endpoint) | Shutdown(who: Endpoint)

  // ----- what the numbers should be, from the history alone -----

  /** The endpoints that ever sent a message, in the order of their first one. */
  function Senders(h: seq<Event>): (s: seq<Endpoint>) {
    if h == [] then []
    else
      var before, e := Senders(h[..|h| - 1]), h[|h| - 1];
      if e.Message? && e.who !in before then before + [e.who] else before
  }

  /** How many messages e sent since its last shutdown. */
  function Since(h: seq<Event>, e: Endpoint): nat {
    if h == [] then 0
    else
      var before, last := Since(h[..|h| - 1], e), h[|h| - 1];
      if last.who != e then before else if last.Shutdown? then 0 else before + 1
  }

  /** The number echoed to e when it sends one more message after history h: one more than its messages since its
      last shutdown if it is among the first 128 endpoints that ever sent one, 0 otherwise. */
  function EchoNumber(h: seq<Event>, e: Endpoint): nat {
    var senders := Senders(h + [Message(e)]);
    if exists i :: 0 <= i < |senders| && i < MAX_CLIENTS && senders[i] == e then Since(h, e) + 1 else 0
  }

  function Registered(h: seq<Event>): (n: nat)
    ensures n <= |Senders(h)| && n <= MAX_CLIENTS
  {
    if |Senders(h)| < MAX_CLIENTS then |Senders(h)| else MAX_CLIENTS
  }

  /** The table the history calls for. */
  function TableFor(h: seq<Event>): (t: seq<ClientRecord>)
    ensures |t| == Registered(h)
  {
    seq(Registered(h), i requires 0 <= i < Registered(h) => ClientRecord(Senders(h)[i], Since(h, Senders(h)[i])))
  }

  function MessagesOf(h: seq<Event>, e: Endpoint): nat {
    if h == [] then 0 else MessagesOf(h[..|h| - 1], e) + if h[|h| - 1] == Message(e) then 1 else 0
  }

  /** Since really counts from the last shutdown: it sees nothing before it and everything after it. */
  lemma {:induction false} SinceLastShutdown(before: seq<Event>, after: seq<Event>, e: Endpoint)
    requires Shutdown(e) !in after
    ensures Since(before + [Shutdown(e)] + after, e) == MessagesOf(after, e)
    ensures Since(after, e) == MessagesOf(after, e)
  {
    var h := before + [Shutdown(e)] + after;
    if after == [] {
      assert h == before + [Shutdown(e)];
    } else {
      var n := |after| - 1;
      assert h[..|h| - 1] == before + [Shutdown(e)] + after[..n];
      assert h[|h| - 1] == after[n] && after[n] in after;
      SinceLastShutdown(before, after[..n], e);
    }
  }

  lemma {:induction false} SendersUnique(h: seq<Event>)
    ensures forall i, j :: 0 <= i < j < |Senders(h)| ==> Senders(h)[i] != Senders(h)[j]
  {
    if h != [] { SendersUnique(h[..|h| - 1]); }
  }

  /** Registered are, as far as there is room, exactly the endpoints that ever sent a message. */
  lemma {:induction false} SendersExactly(h: seq<Event>, e: Endpoint)
    ensures e in Senders(h) <==> Message(e) in h
  {
    if h != [] {
      var init, last := h[..|h| - 1], h[|h| - 1];
      SendersExactly(init, e);
      assert h == init + [last];
    }
  }

  /** The senders are in the order of their first messages. */
  lemma {:induction false} SendersGrow(before: seq<Event>, after: seq<Event>)
    ensures Senders(before) <= Senders(before + after)
  {
    if after == [] {
      assert before + after == before;
    } else {
      var n := |after| - 1;
      SendersGrow(before, after[..n]);
      assert (before + after)[..|before + after| - 1] == before + after[..n];
    }
  }

  lemma {:induction false} SilentSince(h: seq<Event>, e: Endpoint)
    requires e !in Senders(h)
    ensures Since(h, e) == 0
  {
    if h != [] { SilentSince(h[..|h| - 1], e); }
  }

  /** The number echoed, spelled out: after a shutdown and then the events `after` without another one, an endpoint that
      is the i-th ever to send gets one more than its messages in `after` if i is below 128, and 0 otherwise. */
  lemma {:induction false} EchoNumberAfterShutdown(before: seq<Event>, after: seq<Event>, e: Endpoint, i: nat)
    requires Shutdown(e) !in after
    requires var senders := Senders(before + [Shutdown(e)] + after + [Message(e)]);
             i < |senders| && senders[i] == e
    ensures EchoNumber(before + [Shutdown(e)] + after, e) == if i < 128 then MessagesOf(after, e) + 1 else 0
  {
    SinceLastShutdown(before, after, e);
    SendersUnique(before + [Shutdown(e)] + after + [Message(e)]);
  }

  lemma {:induction false} EchoNumberFromStart(h: seq<Event>, e: Endpoint, i: nat)
    requires Shutdown(e) !in h && i < |Senders(h + [Message(e)])| && Senders(h + [Message(e)])[i] == e
    ensures EchoNumber(h, e) == if i < 128 then MessagesOf(h, e) + 1 else 0
  {
    SinceLastShutdown([], h, e);
    SendersUnique(h + [Message(e)]);
  }

  // ----- the table operations on values -----

  ghost predicate Holds(t: seq<ClientRecord>, i: int, e: Endpoint) {
    0 <= i < |t| && t[i].who == e
  }

  ghost predicate Known(t: seq<ClientRecord>, e: Endpoint) {
    exists i :: Holds(t, i, e)
  }

  /** The table after one more message from e, registered if there is room. */
  ghost predicate Counted(t: seq<ClientRecord>, t': seq<ClientRecord>, e: Endpoint, number: nat) {
    if Known(t, e) then
      exists i :: Holds(t, i, e) && number == t[i].count + 1 && t' == t[i := ClientRecord(e, number)]
    else if |t| < MAX_CLIENTS then number == 1 && t' == t + [ClientRecord(e, 1)]
    else number == 0 && t' == t
  }

  function ResetIn(t: seq<ClientRecord>, e: Endpoint): (r: seq<ClientRecord>)
    ensures |r| == |t|
  {
    seq(|t|, i requires 0 <= i < |t| => if t[i].who == e then ClientRecord(e, 0) else t[i])
  }

  lemma {:induction false} KnownIsRegistered(h: seq<Event>, e: Endpoint)
    ensures Known(TableFor(h), e) <==> exists i :: 0 <= i < Registered(h) && Senders(h)[i] == e
  {
    var t := TableFor(h);
    assert forall i :: 0 <= i < |t| ==> t[i].who == Senders(h)[i];
    if Known(t, e) {
      var i :| Holds(t, i, e);
      assert Senders(h)[i] == e;
    }
    if exists i :: 0 <= i < Registered(h) && Senders(h)[i] == e {
      var i :| 0 <= i < Registered(h) && Senders(h)[i] == e;
      assert Holds(t, i, e);
    }
  }

  lemma {:induction false} NextSenders(h: seq<Event>, v: Event)
    ensures Senders(h + [v]) == if v.Message? && v.who !in Senders(h) then Senders(h) + [v.who] else Senders(h)
    ensures forall e :: Since(h + [v], e)
                     == if v.who != e then Since(h, e) else if v.Shutdown? then 0 else Since(h, e) + 1
  {
    assert (h + [v])[..|h|] == h;
  }

  /** A further message of a registered endpoint changes its record in the table only. */
  lemma {:induction false} KnownRecord(h: seq<Event>, e: Endpoint, i: nat, j: nat)
    requires i < Registered(h) && j < Registered(h) && Senders(h)[i] == e
    ensures |TableFor(h + [Message(e)])| == |TableFor(h)|
    ensures TableFor(h + [Message(e)])[j] == if j == i then ClientRecord(e, Since(h, e) + 1) else TableFor(h)[j]
  {
    NextSenders(h, Message(e));
    SendersUnique(h);
    assert Senders(h)[j] == e ==> j == i;
  }

  lemma {:induction false} CountedKnown(h: seq<Event>, e: Endpoint, i: int)
    requires Holds(TableFor(h), i, e)
    ensures TableFor(h)[i := ClientRecord(e, TableFor(h)[i].count + 1)] == TableFor(h + [Message(e)])
    ensures TableFor(h)[i].count + 1 == EchoNumber(h, e)
  {
    var t, t' := TableFor(h), TableFor(h + [Message(e)]);
    NextSenders(h, Message(e));
    assert Senders(h)[i] == e && t[i].count == Since(h, e);
    KnownRecord(h, e, i, i);
    forall j | 0 <= j < |t| ensures t'[j] == t[i := ClientRecord(e, t[i].count + 1)][j] {
      KnownRecord(h, e, i, j);
    }
  }

  lemma {:induction false} CountedNew(h: seq<Event>, e: Endpoint)
    requires !Known(TableFor(h), e)
    ensures |TableFor(h)| < MAX_CLIENTS ==>
              TableFor(h) + [ClientRecord(e, 1)] == TableFor(h + [Message(e)]) && EchoNumber(h, e) == 1
    ensures |TableFor(h)| == MAX_CLIENTS ==> TableFor(h) == TableFor(h + [Message(e)]) && EchoNumber(h, e) == 0
  {
    NextSenders(h, Message(e));
    KnownIsRegistered(h, e);
    var s, s' := Senders(h), Senders(h + [Message(e)]);
    assert forall i :: 0 <= i < Registered(h) ==> s[i] != e && s'[i] == s[i];
    if |s| < MAX_CLIENTS {
      SilentSince(h, e);
      assert s'[|s|] == e;
    }
  }

  /** Counting a message in the table a history calls for gives the table and the number the longer one calls for. */
  lemma {:induction false} CountedAgrees(h: seq<Event>, e: Endpoint, t': seq<ClientRecord>, number: nat)
    requires Counted(TableFor(h), t', e, number)
    ensures t' == TableFor(h + [Message(e)]) && number == EchoNumber(h, e)
  {
    var t := TableFor(h);
    if Known(t, e) {
      var i :| Holds(t, i, e) && number == t[i].count + 1 && t' == t[i := ClientRecord(e, number)];
      CountedKnown(h, e, i);
    } else {
      CountedNew(h, e);
    }
  }

  lemma {:induction false} ResetAgrees(h: seq<Event>, e: Endpoint)
    ensures ResetIn(TableFor(h), e) == TableFor(h + [Shutdown(e)])
  {
    NextSenders(h, Shutdown(e));
  }

  // ----- texts -----

  function Ascii(s: string): (b: Bytes)
    ensures |b| == |s|
  {
    seq(|s|, i requires 0 <= i < |s| => s[i] as int % 256)
  }

  const SHUTDOWN_MSG := "CLIENT_SHUTDOWN_SIGNAL"

  /** The reply text: the original text, a blank, the number. */
  function ReplyText(text: Bytes, number: nat): Bytes {
    text + [32] + Ascii(Decimal(number))
  }

  lemma {:induction false} AsciiDigits(s: string)
    requires forall i :: 0 <= i < |s| ==> IsDigit(s[i])
    ensures forall i :: 0 <= i < |s| ==> Ascii(s)[i] == s[i] as int && 48 <= Ascii(s)[i] <= 57
  {
  }

  lemma {:induction false} DigitsOf(n: nat)
    ensures var d := Ascii(Decimal(n));
            && d != [] && (forall i :: 0 <= i < |d| ==> 48 <= d[i] <= 57)
            && NumberOf(d) == n && (n > 0 || |d| > 1 ==> d[0] != 48)
  {
    var s := Decimal(n);
    var d := Ascii(s);
    AsciiDigits(s);
    if n >= 10 {
      DigitsOf(n / 10);
      assert d[..|d| - 1] == Ascii(Decimal(n / 10));
    }
  }

  /** What a reply says, byte by byte: the text, a blank and the number. */
  lemma {:induction false} ReplySays(text: Bytes, number: nat)
    ensures Says(ReplyText(text, number), text, number)
  {
    var r, d := ReplyText(text, number), Ascii(Decimal(number));
    DigitsOf(number);
    assert r[|text| + 1..] == d;
    assert forall i :: |text| < i < |r| ==> r[i] == d[i - |text| - 1];
  }

  // ----- packets -----

  /** An IPv4/UDP packet as server and client take it apart. */
  datatype View = View(src: Bytes, dst: Bytes, sport: nat, dport: nat, payload: Bytes)

  /** The size of the receive and send buffers. A receive buffer holds the bytes received and, behind them, whatever it
      held before; neither program looks at how many bytes it received. */
  const BUFFER_SIZE := 65536

  /** Where the UDP header starts. */
  function UdpAt(b: Bytes): (u: nat)
    requires b != []
    ensures u <= 60
  {
    4 * (b[0] % 16)
  }

  /** The buffer has room for an IPv4 header and, if that says UDP, for a UDP header, as one of full size always has. */
  ghost predicate Headed(b: Bytes) {
    |b| >= IP_HEADER && (b[9] == PROTO_UDP ==> UdpAt(b) + UDP_HEADER <= |b|)
  }

  /** The UDP length field covers the header and ends within the buffer. */
  ghost predicate LengthFits(b: Bytes)
    requires Headed(b) && b[9] == PROTO_UDP
  {
    UDP_HEADER <= Field(b, UdpAt(b) + 4) && UdpAt(b) + Field(b, UdpAt(b) + 4) <= |b|
  }

  ghost predicate Whole(b: Bytes) {
    Headed(b) && (b[9] == PROTO_UDP ==> LengthFits(b))
  }

  predicate ToPort(b: Bytes, port: nat)
    requires Headed(b)
  {
    b[9] == PROTO_UDP && Field(b, UdpAt(b) + 2) == port
  }

  /** What the server can take apart without leaving its buffer. */
  ghost predicate Readable(b: Bytes, port: nat) {
    Headed(b) && (ToPort(b, port) ==> LengthFits(b))
  }

  function ViewOf(b: Bytes): (v: View)
    requires Whole(b) && b[9] == PROTO_UDP
    ensures |v.src| == 4 && |v.dst| == 4 && v.sport <= 0xFFFF && v.dport <= 0xFFFF
  {
    var u := UdpAt(b);
    View(b[12..16], b[16..20], Field(b, u), Field(b, u + 2), b[u + UDP_HEADER..u + Field(b, u + 4)])
  }

  /** What the server makes of a packet: nothing, a message, or a shutdown notice. */
  function Incoming(b: Bytes, serverPort: nat): (r: Option<Event>)
    requires Readable(b, serverPort)
    ensures r.Some? ==> Whole(b) && b[9] == PROTO_UDP
  {
    if !ToPort(b, serverPort) then None
    else
      var v := ViewOf(b);
      if CString(v.payload) == Ascii(SHUTDOWN_MSG) then Some(Shutdown(Endpoint(v.src, v.sport)))
      else Some(Message(Endpoint(v.src, v.sport)))
  }

  datatype Reply = Reply(to: Bytes, datagram: Bytes)

  /** The reply to a message: the datagram back to its sender carrying text and number. */
  function ReplyTo(b: Bytes, serverPort: nat, number: nat): Reply
    requires Whole(b) && b[9] == PROTO_UDP && serverPort <= 0xFFFF
  {
    var v := ViewOf(b);
    Reply(v.src, Datagram(v.dst, v.src, serverPort, v.sport, ReplyText(CString(v.payload), number)))
  }

  // ----- which bytes matter -----

  const TWO64 := 0x1_0000_0000_0000_0000

  /** Where copying the payload ends: a length field below 8 makes its size wrap around. */
  function PayloadEnd(b: Bytes): nat
    requires Headed(b) && b[9] == PROTO_UDP
  {
    var n := Field(b, UdpAt(b) + 4);
    UdpAt(b) + n + if n < UDP_HEADER then TWO64 else 0
  }

  /** Both programs read position i of their buffer: the header length and the protocol, the two ports of a UDP packet,
      and the length field and the payload of a packet whose payload they copy. The checksum is never read. */
  ghost predicate ReadsAt(b: Bytes, copied: bool, i: nat)
    requires Headed(b) && (copied ==> b[9] == PROTO_UDP)
  {
    || i == 0 || i == 9
    || (b[9] == PROTO_UDP && UdpAt(b) <= i < UdpAt(b) + 4)
    || (copied && (UdpAt(b) + 4 <= i < UdpAt(b) + 6 || UdpAt(b) + UDP_HEADER <= i < PayloadEnd(b)))
  }

  /** The first n bytes hold the ports of a UDP packet and, if its payload is copied, the length field and, that being
      at least 8, the payload if there is any. */
  ghost predicate Received(b: Bytes, copied: bool, n: nat)
    requires Headed(b)
  {
    var u := UdpAt(b);
    b[9] == PROTO_UDP ==>
      && u + 4 <= n
      && (copied ==> u + 6 <= n && UDP_HEADER <= Field(b, u + 4)
                     && (Field(b, u + 4) == UDP_HEADER || u + Field(b, u + 4) <= n))
  }

  ghost predicate AllReadInside(b: Bytes, copied: bool, n: nat)
    requires Headed(b) && (copied ==> b[9] == PROTO_UDP)
  {
    forall i: nat :: ReadsAt(b, copied, i) ==> i < n
  }

  /** All that is read lies in the first n bytes exactly if these hold the fields looked at. */
  lemma {:induction false} ReadsInside(b: Bytes, copied: bool, n: nat)
    requires Headed(b) && (copied ==> b[9] == PROTO_UDP) && IP_HEADER <= n <= BUFFER_SIZE
    ensures AllReadInside(b, copied, n) <==> Received(b, copied, n)
  {
    var u := UdpAt(b);
    if b[9] == PROTO_UDP {
      assert ReadsAt(b, copied, u + 3);
      if copied {
        var len := Field(b, u + 4);
        assert ReadsAt(b, copied, u + 5);
        if len < UDP_HEADER {
          assert ReadsAt(b, copied, if n < u + UDP_HEADER then u + UDP_HEADER else n);
        } else if len > UDP_HEADER {
          assert ReadsAt(b, copied, u + len - 1);
        }
      }
    }
  }

  /** Of a packet to its port the server also reads the source address, and to answer it the destination address. */
  ghost predicate ServerReadsAt(b: Bytes, port: nat, i: nat)
    requires Headed(b)
  {
    || ReadsAt(b, ToPort(b, port), i)
    || (ToPort(b, port) && 12 <= i < 16)
    || (Readable(b, port) && Answered(b, port) && 16 <= i < 20)
  }

  ghost predicate Answered(b: Bytes, port: nat)
    requires Readable(b, port)
  {
    Incoming(b, port).Some? && Incoming(b, port).value.Message?
  }

  ghost predicate ServerReadsInside(b: Bytes, port: nat, n: nat)
    requires Headed(b)
  {
    forall i: nat :: ServerReadsAt(b, port, i) ==> i < n
  }

  /** The server reads nothing but the n bytes received exactly if these hold the fields it looks at. */
  lemma {:induction false} ReadsInsideExactly(b: Bytes, port: nat, n: nat)
    requires |b| == BUFFER_SIZE && IP_HEADER <= n <= BUFFER_SIZE
    ensures ServerReadsInside(b, port, n) <==> Received(b, ToPort(b, port), n)
  {
    ReadsInside(b, ToPort(b, port), n);
    if ServerReadsInside(b, port, n) {
      forall i: nat | ReadsAt(b, ToPort(b, port), i) ensures i < n {
        assert ServerReadsAt(b, port, i);
      }
    }
  }

  /** It never leaves its buffer exactly for the packets its behaviour is described for. */
  lemma {:induction false} StaysInBufferExactly(b: Bytes, port: nat)
    requires |b| == BUFFER_SIZE
    ensures ServerReadsInside(b, port, BUFFER_SIZE) <==> Readable(b, port)
  {
    ReadsInsideExactly(b, port, BUFFER_SIZE);
  }

  lemma {:induction false} SameField(b: Bytes, b': Bytes, i: nat)
    requires i + 1 < |b| == |b'| && b[i] == b'[i] && b[i + 1] == b'[i + 1]
    ensures Field(b, i) == Field(b', i)
  {
  }

  lemma {:induction false} SameSlice(b: Bytes, b': Bytes, i: nat, j: nat)
    requires i <= j <= |b| == |b'| && forall k :: i <= k < j ==> b[k] == b'[k]
    ensures b[i..j] == b'[i..j]
  {
  }

  /** Two buffers agree at every position the server reads of the first. */
  ghost predicate AgreeWhereRead(b: Bytes, b': Bytes, port: nat)
    requires Headed(b)
  {
    |b| == |b'| && forall i: nat :: i < |b| && ServerReadsAt(b, port, i) ==> b[i] == b'[i]
  }

  lemma {:induction false} SameFilter(b: Bytes, b': Bytes, port: nat)
    requires |b| == BUFFER_SIZE && AgreeWhereRead(b, b', port)
    ensures b[9] == b'[9] && UdpAt(b) == UdpAt(b') && ToPort(b, port) == ToPort(b', port)
    ensures b[9] == PROTO_UDP ==> Field(b, UdpAt(b)) == Field(b', UdpAt(b))
  {
    var u := UdpAt(b);
    assert ServerReadsAt(b, port, 0) && ServerReadsAt(b, port, 9);
    if b[9] == PROTO_UDP {
      assert forall i: nat :: u <= i < u + 4 ==> ServerReadsAt(b, port, i);
      SameField(b, b', u);
      SameField(b, b', u + 2);
    }
  }

  lemma {:induction false} SamePayload(b: Bytes, b': Bytes, port: nat)
    requires |b| == BUFFER_SIZE && Readable(b, port) && AgreeWhereRead(b, b', port) && ToPort(b, port)
    ensures Readable(b', port) && ToPort(b', port) && ViewOf(b').payload == ViewOf(b).payload
    ensures ViewOf(b').sport == ViewOf(b).sport && ViewOf(b').src == ViewOf(b).src
  {
    var u := UdpAt(b);
    SameFilter(b, b', port);
    assert forall i: nat :: u + 4 <= i < u + 6 ==> ServerReadsAt(b, port, i);
    SameField(b, b', u + 4);
    assert forall i: nat :: u + UDP_HEADER <= i < PayloadEnd(b) ==> ServerReadsAt(b, port, i);
    SameSlice(b, b', u + UDP_HEADER, PayloadEnd(b));
    assert forall i: nat :: 12 <= i < 16 ==> ServerReadsAt(b, port, i);
    SameSlice(b, b', 12, 16);
  }

  /** Nothing but these positions decides what the server does: with any other buffer that agrees on them it takes the
      packet for the same event and sends the same answer. */
  lemma {:induction false} ReadsDecide(b: Bytes, b': Bytes, port: nat, number: nat)
    requires |b| == BUFFER_SIZE && port <= 0xFFFF && Readable(b, port) && AgreeWhereRead(b, b', port)
    ensures Readable(b', port) && Incoming(b', port) == Incoming(b, port)
    ensures Answered(b, port) ==> ReplyTo(b', port, number) == ReplyTo(b, port, number)
  {
    SameFilter(b, b', port);
    if ToPort(b, port) {
      SamePayload(b, b', port);
      if Answered(b, port) {
        assert forall i: nat :: 16 <= i < 20 ==> ServerReadsAt(b, port, i);
        SameSlice(b, b', 16, 20);
      }
    }
  }

  /** So what the buffer held before makes no difference if the n bytes received hold the fields looked at. */
  lemma {:induction false} OnlyReceivedMatters(b: Bytes, b': Bytes, port: nat, number: nat, n: nat)
    requires |b| == |b'| == BUFFER_SIZE && IP_HEADER <= n <= BUFFER_SIZE && b[..n] == b'[..n] && port <= 0xFFFF
    requires Received(b, ToPort(b, port), n)
    ensures Readable(b, port) && Readable(b', port) && Incoming(b', port) == Incoming(b, port)
    ensures Answered(b, port) ==> ReplyTo(b', port, number) == ReplyTo(b, port, number)
  {
    ReadsInsideExactly(b, port, n);
    forall i: nat | i < |b| && ServerReadsAt(b, port, i) ensures b[i] == b'[i] {
      assert b[..n][i] == b[i] && b'[..n][i] == b'[i];
    }
    ReadsDecide(b, b', port, number);
  }

  /** The answer to a message after a history fits the send buffer. */
  ghost predicate AnswerFits(b: Bytes, port: nat, h: seq<Event>)
    requires Readable(b, port)
  {
    Answered(b, port) ==>
      UDP_HEADER + |ReplyText(CString(ViewOf(b).payload), EchoNumber(h, Incoming(b, port).value.who))| <= BUFFER_SIZE
  }

  /** It always does for a packet that was received as far as its fields say, counts staying within int. */
  lemma {:induction false} ReceivedAnswerFits(b: Bytes, port: nat, n: nat, h: seq<Event>)
    requires |b| == BUFFER_SIZE && IP_HEADER <= n <= 65535 && Received(b, ToPort(b, port), n)
    requires UdpAt(b) >= IP_HEADER && forall e :: EchoNumber(h, e) < 0x8000_0000
    ensures Readable(b, port) && AnswerFits(b, port, h)
  {
    if Answered(b, port) {
      var number := EchoNumber(h, Incoming(b, port).value.who);
      assert PowerOfTen(10) == 10_000_000_000;
      DecimalLength(number, 10);
    }
  }

  class Server {
    const port: nat
    const clientDb: array<ClientRecord>
    var clientCount: nat
    ghost var history: seq<Event>

    ghost function Table(): seq<ClientRecord>
      reads this, clientDb
      requires clientCount <= clientDb.Length
    {
      clientDb[..clientCount]
    }

    ghost predicate InShape()
      reads this
    {
      clientDb.Length == MAX_CLIENTS && clientCount <= MAX_CLIENTS && port <= 0xFFFF
    }

    /** The array holds exactly the table the history of all processed packets calls for. */
    ghost predicate Valid()
      reads this, clientDb
    {
      InShape() && Table() == TableFor(history)
    }

    constructor (port: nat)
      requires port <= 0xFFFF
      ensures Valid() && fresh(clientDb) && history == [] && this.port == port
    {
      this.port := port;
      clientDb := new ClientRecord[MAX_CLIENTS](_ => ClientRecord(Endpoint([], 0), 0));
      clientCount, history := 0, [];
    }

    /** The index of a client, registering it with count 0 if it is new and there is room; -1 if there is none. */
    method FindOrCreateClient(e: Endpoint) returns (idx: int)
      requires InShape()
      modifies `clientCount, clientDb
      ensures InShape()
      ensures Known(old(Table()), e) ==> Table() == old(Table()) && Holds(Table(), idx, e)
      ensures !Known(old(Table()), e) && old(clientCount) < MAX_CLIENTS ==>
        Table() == old(Table()) + [ClientRecord(e, 0)] && idx == old(clientCount)
      ensures !Known(old(Table()), e) && old(clientCount) == MAX_CLIENTS ==> Table() == old(Table()) && idx == -1
    {
      for i := 0 to clientCount
        invariant forall j :: 0 <= j < i ==> !Holds(Table(), j, e)
      {
        if clientDb[i].who == e {
          assert Holds(Table(), i, e);
          return i;
        }
      }
      if clientCount < MAX_CLIENTS {
        clientDb[clientCount] := ClientRecord(e, 0);
        clientCount := clientCount + 1;
        return clientCount - 1;
      }
      return -1;
    }

    /** Sets the count of the first record of a client to 0. */
    method ResetClient(e: Endpoint)
      requires InShape() && forall i, j :: 0 <= i < j < clientCount ==> Table()[i].who != Table()[j].who
      modifies clientDb
      ensures Table() == ResetIn(old(Table()), e)
    {
      for i := 0 to clientCount
        invariant Table() == old(Table())
        invariant forall j :: 0 <= j < i ==> Table()[j].who != e
      {
        if clientDb[i].who == e {
          clientDb[i] := clientDb[i].(count := 0);
          return;
        }
      }
    }

    /** Registers and counts a message. */
    method CountMessage(e: Endpoint) returns (number: nat)
      requires InShape()
      modifies `clientCount, clientDb
      ensures InShape() && Counted(old(Table()), Table(), e, number)
    {
      var idx := FindOrCreateClient(e);
      number := 0;
      if idx != -1 {
        number := clientDb[idx].count + 1;
        clientDb[idx] := clientDb[idx].(count := number);
        if Known(old(Table()), e) { assert Holds(old(Table()), idx, e); }
      }
    }

    method HandleShutdown(e: Endpoint)
      requires Valid()
      modifies `history, clientDb
      ensures Valid() && history == old(history) + [Shutdown(e)]
    {
      SendersUnique(history);
      ResetClient(e);
      ResetAgrees(history, e);
      history := history + [Shutdown(e)];
    }

    method HandleMessage(e: Endpoint) returns (number: nat)
      requires Valid()
      modifies this, clientDb
      ensures Valid() && history == old(history) + [Message(e)] && number == EchoNumber(old(history), e)
    {
      ghost var h := history;
      number := CountMessage(e);
      CountedAgrees(h, e, Table(), number);
      history := h + [Message(e)];
    }

    /** One received packet, in the buffer it was received into: the table follows the history, and a message is
        answered with the number the whole history calls for. */
    method ProcessIncomingPacket(b: Bytes) returns (reply: Option<Reply>)
      requires Valid() && |b| == BUFFER_SIZE && Readable(b, port) && AnswerFits(b, port, history)
      modifies this, clientDb
      ensures Valid()
      ensures match Incoming(b, port)
              case None => history == old(history) && reply == None
              case Some(event) =>
                && history == old(history) + [event]
                && reply == if event.Message? then Some(ReplyTo(b, port, EchoNumber(old(history), event.who))) else None
    {
      if b[9] != PROTO_UDP { return None; }
      if Field(b, UdpAt(b) + 2) != port { return None; }
      var v := ViewOf(b);
      var text := CString(v.payload);
      var from := Endpoint(v.src, v.sport);
      if text == Ascii(SHUTDOWN_MSG) {
        HandleShutdown(from);
        return None;
      }
      var number := HandleMessage(from);
      reply := SendReply(v.dst, v.src, port, v.sport, text, number);
    }
  }

  method SendReply(src: Bytes, dst: Bytes, sport: nat, dport: nat, text: Bytes, number: nat)
      returns (reply: Option<Reply>)
    requires |src| == 4 && |dst| == 4 && sport <= 0xFFFF && dport <= 0xFFFF
    requires UDP_HEADER + |ReplyText(text, number)| <= BUFFER_SIZE
    ensures reply == Some(Reply(dst, Datagram(src, dst, sport, dport, ReplyText(text, number))))
    ensures Says(ReplyText(text, number), text, number)
  {
    ReplySays(text, number);
    var answer := ReplyText(text, number);
    var packet := new byte[BUFFER_SIZE];
    var n := BuildUdpPacket(packet, src, dst, sport, dport, answer);
    reply := Some(Reply(dst, packet[..n]));
  }

  // ----- the whole exchange -----

  /** A built datagram behind an IPv4 header is whole, and both ends read its addresses, ports and payload back. */
  lemma {:induction false} ViewOfBuilt(h: Bytes, src: Bytes, dst: Bytes, sport: nat, dport: nat, payload: Bytes,
                                       behind: Bytes)
    requires IpHeader(h, src, dst) && sport <= 0xFFFF && dport <= 0xFFFF && UDP_HEADER + |payload| <= 0xFFFF
    ensures var b := h + Datagram(src, dst, sport, dport, payload) + behind;
            Whole(b) && b[9] == PROTO_UDP && ViewOf(b) == View(src, dst, sport, dport, payload)
  {
    var b := h + Datagram(src, dst, sport, dport, payload) + behind;
    DatagramFields(h, src, dst, sport, dport, payload, behind);
    assert b[12..16] == h[12..16] && b[16..20] == h[16..20];
  }

  /** A client's message reaches the server as that client's message, and the reply to it, wrapped by the server's
      host, reads at the client's port as the same text followed by the number, whatever the two buffers held before. */
  lemma {:induction false} EchoRoundTrip(h: Bytes, h': Bytes, client: Bytes, server: Bytes, clientPort: nat,
                                         serverPort: nat, text: Bytes, number: nat, behind: Bytes, behind': Bytes)
    requires IpHeader(h, client, server) && IpHeader(h', server, client)
    requires clientPort <= 0xFFFF && serverPort <= 0xFFFF
    requires UDP_HEADER + |ReplyText(text, number)| <= 0xFFFF && 0 !in text && text != Ascii(SHUTDOWN_MSG)
    ensures var b := h + Datagram(client, server, clientPort, serverPort, text) + behind;
            && Whole(b) && b[9] == PROTO_UDP
            && Incoming(b, serverPort) == Some(Message(Endpoint(client, clientPort)))
            && var r := ReplyTo(b, serverPort, number);
            && var back := h' + r.datagram + behind';
            && r.to == client && Whole(back) && back[9] == PROTO_UDP
            && ViewOf(back) == View(server, client, serverPort, clientPort, ReplyText(text, number))
            && Says(ViewOf(back).payload, text, number)
  {
    ReplySays(text, number);
    ViewOfBuilt(h, client, server, clientPort, serverPort, text, behind);
    ViewOfBuilt(h', server, client, serverPort, clientPort, ReplyText(text, number), behind');
  }

  /** A built datagram is for the server's port exactly if it was sent to that port, and a packet of another protocol
      never is; then nothing happens. */
  lemma {:induction false} OthersIgnored(h: Bytes, src: Bytes, dst: Bytes, sport: nat, dport: nat, payload: Bytes,
                                         behind: Bytes, port: nat)
    requires IpHeader(h, src, dst) && sport <= 0xFFFF && dport <= 0xFFFF && UDP_HEADER + |payload| <= 0xFFFF
    ensures var b := h + Datagram(src, dst, sport, dport, payload) + behind;
            Whole(b) && (Incoming(b, port) == None <==> dport != port)
  {
    ViewOfBuilt(h, src, dst, sport, dport, payload, behind);
  }

  lemma {:induction false} OtherProtocolIgnored(b: Bytes, port: nat)
    requires |b| >= IP_HEADER && b[9] != PROTO_UDP
    ensures Readable(b, port) && Incoming(b, port) == None
  {
  }

  /** A shutdown notice reaches the server as that client's, and it is one exactly if its text up to the first NUL is
      the notice's. */
  lemma {:induction false} NoticeExactly(h: Bytes, client: Bytes, server: Bytes, clientPort: nat, serverPort: nat,
                                         payload: Bytes, behind: Bytes)
    requires IpHeader(h, client, server) && clientPort <= 0xFFFF && serverPort <= 0xFFFF
    requires UDP_HEADER + |payload| <= 0xFFFF
    ensures var b := h + Datagram(client, server, clientPort, serverPort, payload) + behind;
            var from := Endpoint(client, clientPort);
            && Whole(b)
            && Incoming(b, serverPort)
               == Some(if CString(payload) == Ascii("CLIENT_SHUTDOWN_SIGNAL") then Shutdown(from) else Message(from))
  {
    ViewOfBuilt(h, client, server, clientPort, serverPort, payload, behind);
  }

  /** Text and number can be told apart in a reply: different pairs give different replies, as the number is the
      digits behind the last blank. */
  lemma {:induction false} ReplyTextUnique(t1: Bytes, n1: nat, t2: Bytes, n2: nat)
    requires ReplyText(t1, n1) == ReplyText(t2, n2)
    ensures t1 == t2 && n1 == n2
  {
    LastBlank(t1, n1);
    LastBlank(t2, n2);
    var r := ReplyText(t1, n1);
    assert t1 == r[..|t1|] && t2 == r[..|t2|];
    assert Ascii(Decimal(n1)) == r[|t1| + 1..] && Ascii(Decimal(n2)) == r[|t2| + 1..];
    SameDigits(Decimal(n1), Decimal(n2));
    DecimalRoundTrip(n1);
    DecimalRoundTrip(n2);
  }

  lemma {:induction false} LastBlank(t: Bytes, n: nat)
    ensures var r := ReplyText(t, n);
            r[|t|] == 32 && forall i :: |t| < i < |r| ==> r[i] != 32
  {
    var r, d := ReplyText(t, n), Decimal(n);
    forall i | |t| < i < |r| ensures r[i] != 32 {
      assert r[i] == Ascii(d)[i - |t| - 1] && IsDigit(d[i - |t| - 1]);
    }
  }

  lemma {:induction false} ReplyHasNoNul(t: Bytes, n: nat)
    requires 0 !in t
    ensures 0 !in ReplyText(t, n)
  {
    var d := Decimal(n);
    forall i | 0 <= i < |d| ensures Ascii(d)[i] != 0 {
      assert IsDigit(d[i]);
    }
  }

  lemma {:induction false} SameDigits(d1: string, d2: string)
    requires forall i :: 0 <= i < |d1| ==> IsDigit(d1[i])
    requires forall i :: 0 <= i < |d2| ==> IsDigit(d2[i])
    requires Ascii(d1) == Ascii(d2)
    ensures d1 == d2
  {
    assert |d1| == |Ascii(d1)| == |d2|;
    forall i | 0 <= i < |d1| ensures d1[i] == d2[i] {
      assert Ascii(d1)[i] == d1[i] as int && Ascii(d2)[i] == d2[i] as int;
    }
  }
}
