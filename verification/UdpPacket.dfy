/** Building a UDP datagram with its checksum, and the two parsers that take it apart again. */
module UdpPacket {
  import opened Basics
  import opened InternetChecksum

  const UDP_HEADER := 8
  const IP_HEADER := 20
  const PROTO_UDP := 17
  const ETHERTYPE_IPV4 := 0x0800
  const ETHERTYPE_VLAN := 0x8100

  /** The 16-bit field at position i in network order. */
  function Field(b: Bytes, i: nat): (v: nat)
    requires i + 1 < |b|
    ensures v <= 0xFFFF
  {
    HostWord(b[i + 1], b[i])
  }

  /** The length field: header and payload, cut to 16 bits. */
  function LengthField(payload: Bytes): (n: nat)
    ensures n <= 0xFFFF
  {
    (UDP_HEADER + |payload|) % 0x10000
  }

  function PseudoHeader(src: Bytes, dst: Bytes, payload: Bytes): Bytes {
    src + dst + [0, PROTO_UDP] + NetworkBytes(LengthField(payload))
  }

  /** Ports and length, the part of the UDP header in front of the checksum. */
  function Preamble(sport: nat, dport: nat, payload: Bytes): (r: Bytes)
    requires sport <= 0xFFFF && dport <= 0xFFFF
    ensures |r| == 6
  {
    NetworkBytes(sport) + NetworkBytes(dport) + NetworkBytes(LengthField(payload))
  }

  /** What the checksum is taken over: pseudo-header, UDP header with a zero checksum, payload. */
  function Pseudogram(src: Bytes, dst: Bytes, sport: nat, dport: nat, payload: Bytes): Bytes
    requires sport <= 0xFFFF && dport <= 0xFFFF
  {
    PseudoHeader(src, dst, payload) + Preamble(sport, dport, payload) + [0, 0] + payload
  }

  function ChecksumField(src: Bytes, dst: Bytes, sport: nat, dport: nat, payload: Bytes): (c: Bytes)
    requires sport <= 0xFFFF && dport <= 0xFFFF
    ensures |c| == 2
  {
    HostBytes(Answer(HostWords(Pseudogram(src, dst, sport, dport, payload))))
  }

  function Datagram(src: Bytes, dst: Bytes, sport: nat, dport: nat, payload: Bytes): (d: Bytes)
    requires sport <= 0xFFFF && dport <= 0xFFFF
    ensures |d| == UDP_HEADER + |payload|
  {
    Preamble(sport, dport, payload) + ChecksumField(src, dst, sport, dport, payload) + payload
  }

  /** The buffer with new bytes written over the old ones from position at on. */
  function Splice(buf: Bytes, at: nat, from: Bytes): (r: Bytes)
    requires at + |from| <= |buf|
    ensures |r| == |buf|
  {
    buf[..at] + from + buf[at + |from|..]
  }

  method CopyBytes(to: array<byte>, at: nat, from: Bytes)
    requires at + |from| <= to.Length
    modifies to
    ensures to[..] == Splice(old(to[..]), at, from)
  {
    for i := 0 to |from|
      invariant forall j :: 0 <= j < i ==> to[at + j] == from[j]
      invariant forall j :: 0 <= j < at ==> to[j] == old(to[j])
      invariant forall j :: at + i <= j < to.Length ==> to[j] == old(to[j])
    {
      to[at + i] := from[i];
    }
  }

  /** Payload, header with a zero checksum and checksum, written one over the other, make up the packet. */
  lemma {:induction false} SplicedPacket(buf: Bytes, front: Bytes, payload: Bytes, sum: Bytes)
    requires |front| == 6 && |sum| == 2 && UDP_HEADER + |payload| <= |buf|
    ensures var n := UDP_HEADER + |payload|;
            var filled := Splice(Splice(buf, UDP_HEADER, payload), 0, front + [0, 0]);
            && filled[..n] == front + [0, 0] + payload
            && Splice(filled, 6, sum)[..n] == front + sum + payload
            && Splice(filled, 6, sum)[n..] == buf[n..]
  {
    var n := UDP_HEADER + |payload|;
    var behind := buf[n..];
    var first := Splice(buf, UDP_HEADER, payload);
    assert first == buf[..UDP_HEADER] + (payload + behind);
    assert first[UDP_HEADER..] == payload + behind;
    var filled := Splice(first, 0, front + [0, 0]);
    assert filled == front + [0, 0] + (payload + behind);
    assert filled[..6] == front && filled[8..] == payload + behind;
  }

  lemma {:induction false} SplicedWhole(buf: Bytes, front: Bytes, rest: Bytes)
    requires |buf| == |front| + |rest|
    ensures Splice(Splice(buf, 0, front), |front|, rest) == front + rest
  {
  }

  lemma {:induction false} PseudogramRegrouped(src: Bytes, dst: Bytes, sport: nat, dport: nat, payload: Bytes)
    requires sport <= 0xFFFF && dport <= 0xFFFF
    ensures PseudoHeader(src, dst, payload) + (Preamble(sport, dport, payload) + [0, 0] + payload)
         == Pseudogram(src, dst, sport, dport, payload)
  {
  }

  /** Fills the packet buffer in place: payload, header fields, then the checksum over a copy with the pseudo-header. */
  method BuildUdpPacket(packet: array<byte>, src: Bytes, dst: Bytes, sport: nat, dport: nat, payload: Bytes)
      returns (len: nat)
    requires |src| == 4 && |dst| == 4 && sport <= 0xFFFF && dport <= 0xFFFF
    requires UDP_HEADER + |payload| <= packet.Length
    modifies packet
    ensures len == UDP_HEADER + |payload| && packet[..len] == Datagram(src, dst, sport, dport, payload)
    ensures packet[len..] == old(packet[len..])
  {
    len := UDP_HEADER + |payload|;
    var front := NetworkBytes(sport) + NetworkBytes(dport) + NetworkBytes(len % 0x10000);
    CopyBytes(packet, UDP_HEADER, payload);
    CopyBytes(packet, 0, front + [0, 0]);

    var sum := PacketChecksum(packet, len, src, dst);
    CopyBytes(packet, 6, HostBytes(sum));

    SplicedPacket(old(packet[..]), front, payload, HostBytes(sum));
    PseudogramRegrouped(src, dst, sport, dport, payload);
    assert packet[..len] == packet[..][..len] && packet[len..] == packet[..][len..];
  }

  /** The checksum over the pseudo-header and the first len bytes of the packet, copied together. */
  method PacketChecksum(packet: array<byte>, len: nat, src: Bytes, dst: Bytes) returns (sum: nat)
    requires |src| == 4 && |dst| == 4 && len <= packet.Length
    ensures sum == Answer(HostWords(src + dst + [0, PROTO_UDP] + NetworkBytes(len % 0x10000) + packet[..len]))
  {
    var psh := src + dst + [0, PROTO_UDP] + NetworkBytes(len % 0x10000);
    var pseudogram := new byte[12 + len];
    SplicedWhole(pseudogram[..], psh, packet[..len]);
    CopyBytes(pseudogram, 0, psh);
    CopyBytes(pseudogram, 12, packet[..len]);
    sum := CalculateChecksum(pseudogram, 12 + len);
    assert pseudogram[..12 + len] == pseudogram[..];
  }

  lemma {:induction false} PseudogramParts(src: Bytes, dst: Bytes, sport: nat, dport: nat, payload: Bytes, front: Bytes)
    requires |src| == 4 && |dst| == 4 && sport <= 0xFFFF && dport <= 0xFFFF
    requires front == PseudoHeader(src, dst, payload) + Preamble(sport, dport, payload)
    ensures |front| == 18 && front + [0, 0] + payload == Pseudogram(src, dst, sport, dport, payload)
    ensures var head, pre := PseudoHeader(src, dst, payload), Preamble(sport, dport, payload);
            forall c: Bytes :: head + (pre + c + payload) == front + c + payload
  {
    var head, pre := PseudoHeader(src, dst, payload), Preamble(sport, dport, payload);
    forall c: Bytes ensures head + (pre + c + payload) == front + c + payload {
      Regrouped(head, pre, c, payload);
    }
  }

  lemma {:induction false} Regrouped(a: Bytes, b: Bytes, c: Bytes, d: Bytes)
    ensures a + (b + c + d) == a + b + c + d
  {
  }

  /** For every datagram the receiver's sum over pseudo-header, header and data is all ones (RFC 768, "Fields"). */
  lemma {:induction false} DatagramVerifies(src: Bytes, dst: Bytes, sport: nat, dport: nat, payload: Bytes)
    requires |src| == 4 && |dst| == 4 && sport <= 0xFFFF && dport <= 0xFFFF && |payload| <= 131056
    ensures OnesSum(PseudoHeader(src, dst, payload) + Datagram(src, dst, sport, dport, payload)) == 0xFFFF
    ensures var d := Datagram(src, dst, sport, dport, payload);
            var n := |d| % 0x10000;
            PseudoHeader(src, dst, payload) == src + dst + [0, 17, n / 256, n % 256]
  {
    var front := PseudoHeader(src, dst, payload) + Preamble(sport, dport, payload);
    PseudogramParts(src, dst, sport, dport, payload, front);
    ReceiverSeesAllOnes(front, payload);
  }

  /** The checksum bytes are those of the network-order definition (section 2(B) of RFC 1071). */
  lemma {:induction false} ChecksumBytesInNetworkOrder(src: Bytes, dst: Bytes, sport: nat, dport: nat, payload: Bytes)
    requires |src| == 4 && |dst| == 4 && sport <= 0xFFFF && dport <= 0xFFFF && |payload| <= 131056
    ensures Datagram(src, dst, sport, dport, payload)[6..8]
         == NetworkBytes(0xFFFF - OnesSumNetwork(Pseudogram(src, dst, sport, dport, payload)))
  {
    ByteOrderIndependent(Pseudogram(src, dst, sport, dport, payload));
    var d := Datagram(src, dst, sport, dport, payload);
    assert d[6..8] == ChecksumField(src, dst, sport, dport, payload);
  }

  // ----- when the checksum field is zero -----

  /** The canonical sum is all ones exactly for the positive multiples of 65535. */
  lemma {:induction false} AllOnesExactly(s: nat)
    ensures Canonical(s) == 0xFFFF <==> s > 0 && s % 0xFFFF == 0
  {
  }

  lemma {:induction false} FieldIsZero(v: nat)
    requires v <= 0xFFFF
    ensures HostBytes(v) == [0, 0] <==> v == 0
  {
    assert HostWord(HostBytes(v)[0], HostBytes(v)[1]) == v;
  }

  /** The protocol number makes the sum of every pseudogram positive. */
  lemma {:induction false} PseudogramPositive(src: Bytes, dst: Bytes, sport: nat, dport: nat, payload: Bytes)
    requires |src| == 4 && |dst| == 4 && sport <= 0xFFFF && dport <= 0xFFFF
    ensures HostWords(Pseudogram(src, dst, sport, dport, payload)) > 0
  {
    var rest := NetworkBytes(LengthField(payload)) + Preamble(sport, dport, payload) + [0, 0] + payload;
    assert Pseudogram(src, dst, sport, dport, payload) == (src + dst) + [0, PROTO_UDP] + rest;
    SplitSum(src + dst, [0, PROTO_UDP], rest);
  }

  /** The checksum field is zero, which a receiver takes for an unprotected datagram (RFC 768, "Fields"), exactly when
      the word sum of pseudo-header, header and payload is a multiple of 65535. */
  lemma {:induction false} ZeroChecksumExactly(src: Bytes, dst: Bytes, sport: nat, dport: nat, payload: Bytes)
    requires |src| == 4 && |dst| == 4 && sport <= 0xFFFF && dport <= 0xFFFF && |payload| <= 131056
    ensures ChecksumField(src, dst, sport, dport, payload) == [0, 0]
            <==> HostWords(Pseudogram(src, dst, sport, dport, payload)) % 0xFFFF == 0
  {
    var b := Pseudogram(src, dst, sport, dport, payload);
    AnswerIsComplement(b);
    PseudogramPositive(src, dst, sport, dport, payload);
    AllOnesExactly(HostWords(b));
    FieldIsZero(Answer(HostWords(b)));
  }

  /** All that stands in front of a payload of n bytes. */
  function BeforePayload(src: Bytes, dst: Bytes, sport: nat, dport: nat, n: nat): (front: Bytes)
    requires sport <= 0xFFFF && dport <= 0xFFFF
    ensures |src| == |dst| == 4 ==> |front| == 20
  {
    PseudoHeader(src, dst, Zeros(n)) + Preamble(sport, dport, Zeros(n)) + [0, 0]
  }

  lemma {:induction false} PseudogramSplit(src: Bytes, dst: Bytes, sport: nat, dport: nat, payload: Bytes)
    requires sport <= 0xFFFF && dport <= 0xFFFF
    ensures Pseudogram(src, dst, sport, dport, payload) == BeforePayload(src, dst, sport, dport, |payload|) + payload
  {
    assert LengthField(payload) == LengthField(Zeros(|payload|));
  }

  /** What is missing from s to a multiple of 65535. */
  function Missing(s: nat): (v: nat)
    ensures v < 0xFFFF && (s + v) % 0xFFFF == 0
  {
    var v := (0xFFFF - s % 0xFFFF) % 0xFFFF;
    assert s + v == 0xFFFF * (s / 0xFFFF + if s % 0xFFFF == 0 then 0 else 1);
    v
  }

  lemma {:induction false} WordBehind(front: Bytes, v: nat)
    requires |front| % 2 == 0 && v <= 0xFFFF
    ensures HostWords(front + HostBytes(v)) == HostWords(front) + v
  {
    var w := HostBytes(v);
    SplitSum(front, w, []);
    assert front + w + [] == front + w;
  }

  /** It happens between any two endpoints: some payload of two bytes gives a zero checksum field. */
  lemma {:induction false} ZeroChecksumHappens(src: Bytes, dst: Bytes, sport: nat, dport: nat)
      returns (payload: Bytes)
    requires |src| == 4 && |dst| == 4 && sport <= 0xFFFF && dport <= 0xFFFF
    ensures |payload| == 2 && ChecksumField(src, dst, sport, dport, payload) == [0, 0]
  {
    var front := BeforePayload(src, dst, sport, dport, 2);
    var v := Missing(HostWords(front));
    payload := HostBytes(v);
    WordBehind(front, v);
    PseudogramSplit(src, dst, sport, dport, payload);
    ZeroChecksumExactly(src, dst, sport, dport, payload);
  }

  // ----- where the fields are -----

  lemma {:induction false} Concatenated(s: Bytes, t: Bytes, n: Bytes, c: Bytes, payload: Bytes)
    requires |s| == |t| == |n| == |c| == 2
    ensures var d := (s + t + n) + c + payload;
            && |d| == UDP_HEADER + |payload| && d[UDP_HEADER..] == payload
            && d[0] == s[0] && d[1] == s[1] && d[2] == t[0] && d[3] == t[1] && d[4] == n[0] && d[5] == n[1]
  {
  }

  lemma {:induction false} NetworkRoundTrip(v: nat)
    requires v <= 0xFFFF
    ensures HostWord(NetworkBytes(v)[1], NetworkBytes(v)[0]) == v
  {
  }

  lemma {:induction false} HeaderFields(sport: nat, dport: nat, n: nat, sum: Bytes, payload: Bytes)
    requires sport <= 0xFFFF && dport <= 0xFFFF && n <= 0xFFFF && |sum| == 2
    ensures var d := (NetworkBytes(sport) + NetworkBytes(dport) + NetworkBytes(n)) + sum + payload;
            && |d| == UDP_HEADER + |payload| && d[UDP_HEADER..] == payload
            && Field(d, 0) == sport && Field(d, 2) == dport && Field(d, 4) == n
  {
    var s, t, l := NetworkBytes(sport), NetworkBytes(dport), NetworkBytes(n);
    Concatenated(s, t, l, sum, payload);
    NetworkRoundTrip(sport);
    NetworkRoundTrip(dport);
    NetworkRoundTrip(n);
  }

  lemma {:induction false} WholeLength(payload: Bytes)
    requires UDP_HEADER + |payload| <= 0xFFFF
    ensures LengthField(payload) == UDP_HEADER + |payload|
  {
  }

  lemma {:induction false} OwnFields(src: Bytes, dst: Bytes, sport: nat, dport: nat, payload: Bytes)
    requires sport <= 0xFFFF && dport <= 0xFFFF && UDP_HEADER + |payload| <= 0xFFFF
    ensures var d := Datagram(src, dst, sport, dport, payload);
            && Field(d, 0) == sport && Field(d, 2) == dport && Field(d, 4) == UDP_HEADER + |payload|
            && d[UDP_HEADER..] == payload
  {
    var n, sum := LengthField(payload), ChecksumField(src, dst, sport, dport, payload);
    WholeLength(payload);
    var d := (NetworkBytes(sport) + NetworkBytes(dport) + NetworkBytes(n)) + sum + payload;
    assert d == Datagram(src, dst, sport, dport, payload);
    HeaderFields(sport, dport, n, sum, payload);
  }

  /** Where a datagram's fields are, whatever stands in front of and behind it. */
  lemma {:induction false} DatagramFields(front: Bytes, src: Bytes, dst: Bytes, sport: nat, dport: nat,
                                          payload: Bytes, behind: Bytes)
    requires sport <= 0xFFFF && dport <= 0xFFFF && UDP_HEADER + |payload| <= 0xFFFF
    ensures var b := front + Datagram(src, dst, sport, dport, payload) + behind;
            && Field(b, |front|) == sport && Field(b, |front| + 2) == dport
            && Field(b, |front| + 4) == UDP_HEADER + |payload|
            && b[|front| + UDP_HEADER..|front| + UDP_HEADER + |payload|] == payload
  {
    OwnFields(src, dst, sport, dport, payload);
    Shifted(front, Datagram(src, dst, sport, dport, payload), behind);
  }

  lemma {:induction false} Shifted(front: Bytes, d: Bytes, behind: Bytes)
    requires |d| >= UDP_HEADER
    ensures var b := front + d + behind;
            && Field(b, |front|) == Field(d, 0)
            && Field(b, |front| + 2) == Field(d, 2)
            && Field(b, |front| + 4) == Field(d, 4)
            && b[|front| + UDP_HEADER..|front| + |d|] == d[UDP_HEADER..]
  {
  }

  // ----- the sniffer's parser -----

  /** What the parser fills in; payload is the position of the data in the buffer, absent if there is none. */
  datatype Packet = Packet(srcMac: Bytes, dstMac: Bytes, srcIp: Bytes, dstIp: Bytes,
                           srcPort: nat, dstPort: nat, payload: Option<nat>, payloadLen: nat)

  /** Where the IPv4 header starts: behind an Ethernet header, a VLAN-tagged one, or at once. */
  function LinkOffset(b: Bytes): (r: Option<nat>)
    ensures r.Some? ==> |b| >= 14 && r.value <= |b| && (r.value == 0 || r.value == 14 || r.value == 18)
  {
    if |b| < 14 then None
    else if Field(b, 12) == ETHERTYPE_IPV4 then Some(14)
    else if Field(b, 12) == ETHERTYPE_VLAN then
      if |b| < 18 || Field(b, 16) != ETHERTYPE_IPV4 then None else Some(18)
    else if b[0] / 16 == 4 then Some(0)
    else None
  }

  /** Where the UDP header starts, if the buffer holds an IPv4 header for UDP and a whole UDP header. */
  function UdpOffset(b: Bytes): (r: Option<nat>)
    ensures r.Some? ==> LinkOffset(b).Some? && LinkOffset(b).value + IP_HEADER <= |b| && r.value + UDP_HEADER <= |b|
  {
    var link := LinkOffset(b);
    if link.None? || |b| < link.value + IP_HEADER || b[link.value + 9] != PROTO_UDP then None
    else
      var udp := link.value + 4 * (b[link.value] % 16);
      if |b| < udp + UDP_HEADER then None else Some(udp)
  }

  function SrcMac(b: Bytes, ip: nat): Bytes
    requires |b| >= 14
  {
    if ip == 0 then Zeros(6) else b[6..12]
  }

  function DstMac(b: Bytes, ip: nat): Bytes
    requires |b| >= 14
  {
    if ip == 0 then Zeros(6) else b[0..6]
  }

  function ParseUdp(b: Bytes): Option<Packet> {
    var udp := UdpOffset(b);
    if udp.None? then None
    else
      var ip, u := LinkOffset(b).value, udp.value;
      var n := Field(b, u + 4) - UDP_HEADER;
      var there := n > 0 && |b| >= u + UDP_HEADER + n;
      Some(Packet(SrcMac(b, ip), DstMac(b, ip),
                  b[ip + 12..ip + 16], b[ip + 16..ip + 20], Field(b, u), Field(b, u + 2),
                  if there then Some(u + UDP_HEADER) else None, if there then n else 0))
  }

  class ParsedPacket {
    var srcMac: Bytes
    var dstMac: Bytes
    var srcIp: Bytes
    var dstIp: Bytes
    var srcPort: nat
    var dstPort: nat
    var payload: Option<nat>
    var payloadLen: nat

    ghost function View(): Packet
      reads this
    {
      Packet(srcMac, dstMac, srcIp, dstIp, srcPort, dstPort, payload, payloadLen)
    }

    /** The link layer: fills the MAC fields and finds the IPv4 header. */
    method ReadLink(b: array<byte>) returns (ip: Option<nat>)
      modifies `srcMac, `dstMac
      ensures ip == LinkOffset(b[..])
      ensures ip.Some? ==> srcMac == SrcMac(b[..], ip.value) && dstMac == DstMac(b[..], ip.value)
    {
      if b.Length < 14 { return None; }
      var proto := HostWord(b[13], b[12]);
      if proto == ETHERTYPE_IPV4 {
        srcMac, dstMac := b[6..12], b[0..6];
        ip := Some(14);
      } else if proto == ETHERTYPE_VLAN {
        if b.Length < 18 { return None; }
        if HostWord(b[17], b[16]) != ETHERTYPE_IPV4 { return None; }
        srcMac, dstMac := b[6..12], b[0..6];
        ip := Some(18);
      } else if b[0] / 16 == 4 {
        srcMac, dstMac := Zeros(6), Zeros(6);
        ip := Some(0);
      } else {
        ip := None;
      }
      assert b.Length >= 14 ==> b[..][6..12] == b[6..12] && b[..][0..6] == b[0..6];
    }

    /** The transport layer: ports, and the payload if it is all there. */
    method ReadTransport(b: array<byte>, udp: nat)
      requires udp + UDP_HEADER <= b.Length
      modifies `srcPort, `dstPort, `payload, `payloadLen
      ensures srcPort == Field(b[..], udp) && dstPort == Field(b[..], udp + 2)
      ensures var n := Field(b[..], udp + 4) - UDP_HEADER;
              if n > 0 && b.Length >= udp + UDP_HEADER + n then payload == Some(udp + UDP_HEADER) && payloadLen == n
              else payload == None && payloadLen == 0
    {
      srcPort, dstPort := HostWord(b[udp + 1], b[udp]), HostWord(b[udp + 3], b[udp + 2]);
      var at := udp + UDP_HEADER;
      var n := HostWord(b[udp + 5], b[udp + 4]) - UDP_HEADER;
      if n > 0 && b.Length >= at + n {
        payload, payloadLen := Some(at), n;
      } else {
        payload, payloadLen := None, 0;
      }
    }

    /** Fills the fields layer by layer; a rejected buffer may leave the MAC fields overwritten, nothing else. */
    method ParseUdpPacket(b: array<byte>) returns (ok: bool)
      modifies this
      ensures ok <==> ParseUdp(b[..]).Some?
      ensures ok ==> View() == ParseUdp(b[..]).value
      ensures !ok ==> View() == old(View()).(srcMac := srcMac, dstMac := dstMac)
    {
      var link := ReadLink(b);
      if link.None? { return false; }
      var ip := link.value;
      if b.Length < ip + IP_HEADER { return false; }
      if b[ip + 9] != PROTO_UDP { return false; }
      var udp := ip + 4 * (b[ip] % 16);
      if b.Length < udp + UDP_HEADER { return false; }
      assert UdpOffset(b[..]) == Some(udp);
      srcIp, dstIp := b[..][ip + 12..ip + 16], b[..][ip + 16..ip + 20];
      ReadTransport(b, udp);
      ok := true;
    }
  }

  /** Which buffers the parser accepts, in terms of their bytes: an IPv4 header of 20 bytes at least, saying UDP, starts
      behind a plain or a tagged Ethernet header or at once, and a UDP header starts where its length says. */
  ghost predicate Acceptable(b: Bytes, ip: nat) {
    && |b| >= 14 && ip + 20 <= |b|
    && (|| (ip == 14 && b[12] == 0x08 && b[13] == 0x00)
        || (ip == 18 && b[12] == 0x81 && b[13] == 0x00 && b[16] == 0x08 && b[17] == 0x00)
        || (ip == 0 && b[0] / 16 == 4 && !(b[12] == 0x08 && b[13] == 0x00) && !(b[12] == 0x81 && b[13] == 0x00)))
    && b[ip + 9] == 17
    && ip + 4 * (b[ip] % 16) + 8 <= |b|
  }

  /** What the parser reports of such a buffer, in terms of its bytes. */
  ghost predicate Reported(b: Bytes, ip: nat, p: Packet)
    requires Acceptable(b, ip)
  {
    var u := ip + 4 * (b[ip] % 16);
    var n := 256 * (b[u + 4] as int) + b[u + 5] - 8;
    && p.srcMac == (if ip == 0 then [0, 0, 0, 0, 0, 0] else b[6..12])
    && p.dstMac == (if ip == 0 then [0, 0, 0, 0, 0, 0] else b[0..6])
    && p.srcPort == 256 * (b[u] as int) + b[u + 1] && p.dstPort == 256 * (b[u + 2] as int) + b[u + 3]
    && p.srcIp == b[ip + 12..ip + 16] && p.dstIp == b[ip + 16..ip + 20]
    && (if n > 0 && u + 8 + n <= |b| then p.payload == Some(u + 8) && p.payloadLen == n
        else p.payload == None && p.payloadLen == 0)
  }

  lemma {:induction false} AcceptedAt(b: Bytes, ip: nat)
    requires Acceptable(b, ip)
    ensures LinkOffset(b) == Some(ip) && UdpOffset(b) == Some(ip + 4 * (b[ip] % 16))
    ensures ParseUdp(b).Some? && Reported(b, ip, ParseUdp(b).value)
  {
    assert Zeros(6) == [0, 0, 0, 0, 0, 0];
  }

  /** Exactly these buffers are accepted, and their fields reported as they stand there. */
  lemma {:induction false} AcceptsExactly(b: Bytes)
    ensures ParseUdp(b).Some? <==> exists ip: nat :: Acceptable(b, ip)
    ensures forall ip: nat :: Acceptable(b, ip) ==> ParseUdp(b).Some? && Reported(b, ip, ParseUdp(b).value)
  {
    forall ip: nat | Acceptable(b, ip) ensures ParseUdp(b).Some? && Reported(b, ip, ParseUdp(b).value) {
      AcceptedAt(b, ip);
    }
    if ParseUdp(b).Some? { assert Acceptable(b, LinkOffset(b).value); }
  }

  /** The bytes a parsed packet calls its payload. */
  function PayloadOf(b: Bytes, p: Packet): Bytes {
    if p.payload.Some? && p.payload.value + p.payloadLen <= |b|
    then b[p.payload.value..p.payload.value + p.payloadLen] else []
  }

  /** An IPv4 header, options included, for a UDP datagram between two addresses. */
  ghost predicate IpHeader(h: Bytes, src: Bytes, dst: Bytes) {
    && IP_HEADER <= |h| == 4 * (h[0] % 16)
    && h[0] / 16 == 4
    && h[9] == PROTO_UDP
    && h[12..16] == src && h[16..20] == dst
  }

  /** The three framings: plain Ethernet, an 802.1Q tag, no link header at all. */
  ghost predicate LinkHeader(link: Bytes, src: Bytes) {
    || (|link| == 14 && Field(link, 12) == ETHERTYPE_IPV4)
    || (|link| == 18 && Field(link, 12) == ETHERTYPE_VLAN && Field(link, 16) == ETHERTYPE_IPV4)
    || (link == [] && |src| == 4 && Field(src, 0) != ETHERTYPE_IPV4 && Field(src, 0) != ETHERTYPE_VLAN)
  }

  lemma {:induction false} LinkFound(link: Bytes, h: Bytes, rest: Bytes, src: Bytes, dst: Bytes)
    requires IpHeader(h, src, dst) && LinkHeader(link, src)
    ensures LinkOffset(link + h + rest) == Some(|link|)
  {
    var b := link + h + rest;
    if link == [] {
      assert b[12] == h[12..16][0] && b[13] == h[12..16][1] && b[0] == h[0];
    }
  }

  lemma {:induction false} HeadersFound(link: Bytes, h: Bytes, rest: Bytes, src: Bytes, dst: Bytes)
    requires IpHeader(h, src, dst) && LinkHeader(link, src) && |rest| >= UDP_HEADER
    ensures UdpOffset(link + h + rest) == Some(|link| + |h|)
    ensures (link + h + rest)[|link| + 12..|link| + 16] == src && (link + h + rest)[|link| + 16..|link| + 20] == dst
  {
    LinkFound(link, h, rest, src, dst);
    var b := link + h + rest;
    assert b[|link|] == h[0] && b[|link| + 9] == h[9];
    assert b[|link| + 12..|link| + 16] == h[12..16] && b[|link| + 16..|link| + 20] == h[16..20];
  }

  /** p is the packet from src to dst with this payload, read out of b behind the link header. */
  ghost predicate Recovers(b: Bytes, p: Packet, link: Bytes, src: Bytes, dst: Bytes, sport: nat, dport: nat,
                           payload: Bytes) {
    && p.srcIp == src && p.dstIp == dst && p.srcPort == sport && p.dstPort == dport
    && p.payloadLen == |payload| && PayloadOf(b, p) == payload
    && (|link| >= 12 ==> p.dstMac + p.srcMac == link[..12])
  }

  lemma {:induction false} ParsedFrom(b: Bytes, u: nat, link: Bytes, src: Bytes, dst: Bytes, payload: Bytes)
    requires link <= b && LinkOffset(b) == Some(|link|) && UdpOffset(b) == Some(u)
    requires b[|link| + 12..|link| + 16] == src && b[|link| + 16..|link| + 20] == dst
    requires Field(b, u + 4) == UDP_HEADER + |payload| && u + UDP_HEADER + |payload| <= |b|
    requires b[u + UDP_HEADER..u + UDP_HEADER + |payload|] == payload
    ensures ParseUdp(b).Some? && Recovers(b, ParseUdp(b).value, link, src, dst, Field(b, u), Field(b, u + 2), payload)
  {
    if link != [] { assert b[0..6] + b[6..12] == link[..12]; }
  }

  /** Building and parsing are inverse: whatever the framing, the IP options and the padding behind the datagram,
      the parser recovers addresses, ports and payload. */
  lemma {:induction false} BuildThenParse(link: Bytes, h: Bytes, src: Bytes, dst: Bytes, sport: nat, dport: nat,
                                          payload: Bytes, padding: Bytes)
    requires IpHeader(h, src, dst) && LinkHeader(link, src)
    requires sport <= 0xFFFF && dport <= 0xFFFF && UDP_HEADER + |payload| <= 0xFFFF
    ensures var b := link + h + Datagram(src, dst, sport, dport, payload) + padding;
            ParseUdp(b).Some? && Recovers(b, ParseUdp(b).value, link, src, dst, sport, dport, payload)
  {
    var d := Datagram(src, dst, sport, dport, payload);
    var b := link + h + d + padding;
    assert b == link + h + (d + padding);
    HeadersFound(link, h, d + padding, src, dst);
    LinkFound(link, h, d + padding, src, dst);
    DatagramFields(link + h, src, dst, sport, dport, payload, padding);
    ParsedFrom(b, |link| + |h|, link, src, dst, payload);
  }

  /** Source addresses 8.0.x.x and 129.0.x.x read as Ethernet types where the parser looks for one. */
  predicate LooksLikeEthernet(src: Bytes)
    requires |src| == 4
  {
    Field(src, 0) == ETHERTYPE_IPV4 || Field(src, 0) == ETHERTYPE_VLAN
  }

  lemma {:induction false} MistakenForEthernet(h: Bytes, rest: Bytes, src: Bytes, dst: Bytes)
    requires IpHeader(h, src, dst) && |src| == 4 && LooksLikeEthernet(src)
    ensures LinkOffset(h + rest).Some? ==> LinkOffset(h + rest).value % 4 == 2
    ensures UdpOffset(h + rest).Some? ==> UdpOffset(h + rest).value != |h|
  {
    assert (h + rest)[12] == h[12..16][0] && (h + rest)[13] == h[12..16][1];
  }

  /** Without a link header, and whatever the payload, the parser finds the UDP header where it is exactly when the
      source address does not look like one of the two Ethernet types. */
  lemma {:induction false} NoLinkHeaderFound(h: Bytes, src: Bytes, dst: Bytes, rest: Bytes)
    requires IpHeader(h, src, dst) && |src| == 4 && |rest| >= UDP_HEADER
    ensures UdpOffset(h + rest) == Some(|h|) <==> !LooksLikeEthernet(src)
  {
    if LooksLikeEthernet(src) {
      MistakenForEthernet(h, rest, src, dst);
    } else {
      assert h + rest == [] + h + rest;
      HeadersFound([], h, rest, src, dst);
    }
  }

  lemma {:induction false} PlainPayload(b: Bytes, u: nat)
    requires UdpOffset(b) == Some(u) && UDP_HEADER < Field(b, u + 4) && u + Field(b, u + 4) <= |b|
    ensures ParseUdp(b).Some? && ParseUdp(b).value.payload == Some(u + UDP_HEADER)
  {
  }

  lemma {:induction false} PayloadBehind(b: Bytes)
    requires ParseUdp(b).Some? && ParseUdp(b).value.payload.Some?
    ensures UdpOffset(b).Some? && ParseUdp(b).value.payload == Some(UdpOffset(b).value + UDP_HEADER)
  {
  }

  /** Without a link header the parser finds the payload where it is exactly when the first two bytes of the source
      address do not look like one of the two Ethernet types it tests for first. */
  lemma {:induction false} NoLinkHeaderExactly(h: Bytes, src: Bytes, dst: Bytes, sport: nat, dport: nat,
                                               payload: Bytes, padding: Bytes)
    requires IpHeader(h, src, dst) && |src| == 4 && payload != []
    requires sport <= 0xFFFF && dport <= 0xFFFF && UDP_HEADER + |payload| <= 0xFFFF
    ensures var b := h + Datagram(src, dst, sport, dport, payload) + padding;
            (ParseUdp(b).Some? && ParseUdp(b).value.payload == Some(|h| + UDP_HEADER)) <==> !LooksLikeEthernet(src)
  {
    var d := Datagram(src, dst, sport, dport, payload);
    var b := h + d + padding;
    assert b == h + (d + padding);
    if LooksLikeEthernet(src) {
      MistakenForEthernet(h, d + padding, src, dst);
      if ParseUdp(b).Some? && ParseUdp(b).value.payload.Some? { PayloadBehind(b); }
    } else {
      assert b == [] + h + (d + padding);
      HeadersFound([], h, d + padding, src, dst);
      DatagramFields(h, src, dst, sport, dport, payload, padding);
      PlainPayload(b, |h|);
    }
  }
}
