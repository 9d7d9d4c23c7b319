/** The checksum of section 1 of RFC 1071, as the program computes it on little-endian words with two folds. */
module InternetChecksum {
  import opened Basics

  /** Two bytes as a 16-bit word, the first one low: how a little-endian host loads them. */
  function HostWord(x: byte, y: byte): (w: nat)
    ensures w <= 0xFFFF
  {
    x as int + 256 * (y as int)
  }

  /** The 16-bit words of a buffer read in host (little-endian) order, an odd last byte padded with zero. */
  function HostWords(b: seq<byte>): (s: nat) {
    if |b| == 0 then 0
    else if |b| == 1 then b[0]
    else HostWord(b[0], b[1]) + HostWords(b[2..])
  }

  /** The same words read in network (big-endian) order. */
  function NetworkWords(b: seq<byte>): (s: nat) {
    if |b| == 0 then 0
    else if |b| == 1 then HostWord(0, b[0])
    else HostWord(b[1], b[0]) + NetworkWords(b[2..])
  }

  /** One's complement addition of 16-bit words: the carry out of the top is added at the bottom. */
  function OnesAdd(x: nat, y: nat): (z: nat)
    requires x <= 0xFFFF && y <= 0xFFFF
    ensures z <= 0xFFFF
  {
    if x + y > 0xFFFF then x + y - 0xFFFF else x + y
  }

  /** The one's complement sum of the words of a buffer, in host order. */
  function OnesSum(b: seq<byte>): (s: nat)
    ensures s <= 0xFFFF
  {
    if |b| == 0 then 0
    else if |b| == 1 then b[0]
    else OnesAdd(HostWord(b[0], b[1]), OnesSum(b[2..]))
  }

  /** The same in network order. */
  function OnesSumNetwork(b: seq<byte>): (s: nat)
    ensures s <= 0xFFFF
  {
    if |b| == 0 then 0
    else if |b| == 1 then HostWord(0, b[0])
    else OnesAdd(HostWord(b[1], b[0]), OnesSumNetwork(b[2..]))
  }

  /** The representative of s modulo 65535 that is 0 only for 0. */
  function Canonical(s: nat): (c: nat)
    ensures c <= 0xFFFF
  {
    if s == 0 then 0 else 1 + (s - 1) % 0xFFFF
  }

  function FirstFold(s: nat): nat {
    s / 0x10000 + s % 0x10000
  }

  function SecondFold(s: nat): nat {
    FirstFold(s) + FirstFold(s) / 0x10000
  }

  /** The two folds of the program, cut to 16 bits. */
  function Folded(s: nat): (r: nat)
    ensures r <= 0xFFFF
  {
    SecondFold(s) % 0x10000
  }

  /** The value the program returns for a plain word sum s. */
  function Answer(s: nat): (r: nat)
    ensures r <= 0xFFFF
  {
    0xFFFF - Folded(s)
  }

  /** The summing loop, the odd byte, the folds and the complement. */
  method CalculateChecksum(buf: array<byte>, nbytes: int) returns (answer: nat)
    requires nbytes <= buf.Length
    ensures answer == Answer(HostWords(buf[..if nbytes < 0 then 0 else nbytes]))
  {
    var sum, ptr, left := 0, 0, nbytes;
    ghost var n := if nbytes < 0 then 0 else nbytes;
    while left > 1
      invariant ptr <= n && ptr + left == nbytes && (nbytes >= 0 ==> left >= 0)
      invariant sum >= 0 && sum + HostWords(buf[ptr..n]) == HostWords(buf[..n])
      decreases left
    {
      assert buf[ptr..n][2..] == buf[ptr + 2..n];
      sum := sum + HostWord(buf[ptr], buf[ptr + 1]);
      ptr := ptr + 2;
      left := left - 2;
    }
    if left == 1 {
      sum := sum + buf[ptr];
    }
    sum := sum / 0x10000 + sum % 0x10000;
    sum := sum + sum / 0x10000;
    answer := 0xFFFF - sum % 0x10000;
  }

  // ----- what one's complement sums are -----

  lemma {:induction false} CanonicalUnique(s: nat, c: nat)
    requires c <= 0xFFFF && (c - s) % 0xFFFF == 0 && (c == 0 <==> s == 0)
    ensures c == Canonical(s)
  {
  }

  lemma {:induction false} CanonicalAdd(x: nat, y: nat)
    requires x <= 0xFFFF
    ensures OnesAdd(x, Canonical(y)) == Canonical(x + y)
  {
  }

  lemma {:induction false} OnesSumIsCanonical(b: seq<byte>)
    ensures OnesSum(b) == Canonical(HostWords(b))
  {
    if |b| >= 2 {
      OnesSumIsCanonical(b[2..]);
      CanonicalAdd(HostWord(b[0], b[1]), HostWords(b[2..]));
    } else {
      CanonicalSmall(HostWords(b));
    }
  }

  lemma {:induction false} OnesSumNetworkIsCanonical(b: seq<byte>)
    ensures OnesSumNetwork(b) == Canonical(NetworkWords(b))
  {
    if |b| >= 2 {
      OnesSumNetworkIsCanonical(b[2..]);
      CanonicalAdd(HostWord(b[1], b[0]), NetworkWords(b[2..]));
    } else {
      CanonicalSmall(NetworkWords(b));
    }
  }

  lemma {:induction false} CanonicalSmall(s: nat)
    requires s <= 0xFFFF
    ensures Canonical(s) == s
  {
  }

  /** Two folds give the one's complement sum exactly when the second fold carries no further. */
  lemma {:induction false} TwoFoldsExact(s: nat)
    requires s < 0x4000_0000_0000
    ensures Folded(s) == Canonical(s) <==> SecondFold(s) / 0x10000 == FirstFold(s) / 0x10000
  {
    var f, g := FirstFold(s), SecondFold(s);
    var q, r := g / 0x10000, f / 0x10000;
    assert s == 0xFFFF * (s / 0x10000) + f;
    assert Folded(s) == f + r - 0x10000 * q;
  }

  // ----- for which lengths two folds suffice -----

  lemma {:induction false} HostWordsBound(b: seq<byte>)
    ensures HostWords(b) <= 0xFFFF * (|b| / 2) + 0xFF * (|b| % 2)
  {
    if |b| >= 2 { HostWordsBound(b[2..]); }
  }

  lemma {:induction false} SmallSumsFold(s: nat)
    requires s < 0x1_0000_FFFF
    ensures Folded(s) == Canonical(s)
  {
    assert s / 0x10000 <= 0x10000;
    TwoFoldsExact(s);
  }

  /** All bytes 0xFF up to 65538 words, one byte 1, then zeros. */
  function Overflowing(n: nat): seq<byte> {
    seq(n, i => if i < 131076 then 0xFF else if i == 131076 then 1 else 0)
  }

  lemma {:induction false} OverflowingSum(n: nat, i: nat)
    requires n > 131076 && i <= 65538
    ensures HostWords(Overflowing(n)[2 * i..]) == 0xFFFF * (65538 - i) + 1
    decreases 65538 - i
  {
    var b := Overflowing(n)[2 * i..];
    if i < 65538 {
      OverflowingSum(n, i + 1);
      assert b[2..] == Overflowing(n)[2 * (i + 1)..];
    } else {
      assert b[0] == 1;
      if |b| > 1 { ZerosSum(b[2..]); }
    }
  }

  lemma {:induction false} ZerosSum(b: seq<byte>)
    requires forall i :: 0 <= i < |b| ==> b[i] == 0
    ensures HostWords(b) == 0
  {
    if |b| >= 2 { ZerosSum(b[2..]); }
  }

  lemma {:induction false} AnswerIsComplement(b: seq<byte>)
    requires |b| <= 131076
    ensures Answer(HostWords(b)) == 0xFFFF - Canonical(HostWords(b))
  {
    HostWordsBound(b);
    SmallSumsFold(HostWords(b));
  }

  ghost predicate ChecksumRight(b: seq<byte>) {
    Answer(HostWords(b)) == 0xFFFF - OnesSum(b)
  }

  /** The program returns the complement of the one's complement sum of every buffer of a length, odd ones
      included, exactly for the lengths up to 131076 bytes. */
  lemma {:induction false} RightUpTo131076(n: nat)
    ensures (forall b: seq<byte> :: |b| == n ==> ChecksumRight(b)) <==> n <= 131076
  {
    if n <= 131076 {
      forall b: seq<byte> | |b| == n ensures ChecksumRight(b) {
        AnswerIsComplement(b);
        OnesSumIsCanonical(b);
      }
    } else {
      var b := Overflowing(n);
      OverflowingSum(n, 0);
      assert b[0..] == b;
      OnesSumIsCanonical(b);
      assert !ChecksumRight(b);
    }
  }

  // ----- byte order -----

  /** Swapping the bytes of every word multiplies the sum by 256 modulo 65535. */
  lemma {:induction false} NetworkIs256Host(b: seq<byte>)
    ensures (256 * HostWords(b) - NetworkWords(b)) % 0xFFFF == 0
    ensures HostWords(b) == 0 <==> NetworkWords(b) == 0
  {
    if |b| == 1 {
    } else if |b| >= 2 {
      NetworkIs256Host(b[2..]);
      assert 256 * HostWord(b[0], b[1]) - HostWord(b[1], b[0]) == 0xFFFF * (b[1] as int);
    }
  }

  /** The two bytes of a 16-bit value in the order a little-endian host stores them. */
  function HostBytes(v: nat): (r: seq<byte>)
    requires v <= 0xFFFF
    ensures |r| == 2 && HostWord(r[0], r[1]) == v
  {
    [v % 256, v / 256]
  }

  /** The two bytes of a 16-bit value in network order. */
  function NetworkBytes(v: nat): (r: seq<byte>)
    requires v <= 0xFFFF
    ensures |r| == 2 && HostWord(r[1], r[0]) == v
  {
    [v / 256, v % 256]
  }

  function Swapped(c: nat): (w: nat)
    requires c <= 0xFFFF
    ensures w <= 0xFFFF && (256 * c - w) % 0xFFFF == 0 && (w == 0 <==> c == 0)
  {
    assert 256 * c - (256 * (c % 256) + c / 256) == 0xFFFF * (c / 256);
    256 * (c % 256) + c / 256
  }

  lemma {:induction false} SwappedSum(s: nat, t: nat)
    requires (256 * s - t) % 0xFFFF == 0 && (s == 0 <==> t == 0)
    ensures Canonical(t) == Swapped(Canonical(s))
  {
    var c := Canonical(s);
    var w := Swapped(c);
    assert (c - s) % 0xFFFF == 0;
    Congruences(s, t, c, w);
    CanonicalUnique(t, w);
  }

  lemma {:induction false} Congruences(s: int, t: int, c: int, w: int)
    requires (256 * s - t) % 0xFFFF == 0 && (c - s) % 0xFFFF == 0 && (256 * c - w) % 0xFFFF == 0
    ensures (w - t) % 0xFFFF == 0
  {
    var i, j, k := (256 * s - t) / 0xFFFF, (c - s) / 0xFFFF, (256 * c - w) / 0xFFFF;
    assert w - t == 0xFFFF * (256 * j + i - k);
  }

  lemma {:induction false} SwapIsCanonical(s: nat, t: nat)
    requires (256 * s - t) % 0xFFFF == 0 && (s == 0 <==> t == 0)
    ensures HostBytes(0xFFFF - Canonical(s)) == NetworkBytes(0xFFFF - Canonical(t))
  {
    SwappedSum(s, t);
    SwappedComplement(Canonical(s));
  }

  lemma {:induction false} SwappedComplement(c: nat)
    requires c <= 0xFFFF
    ensures HostBytes(0xFFFF - c) == NetworkBytes(0xFFFF - Swapped(c))
  {
    var h, l := c / 256, c % 256;
    assert 0xFFFF - c == 256 * (255 - h) + (255 - l);
    assert 0xFFFF - Swapped(c) == 256 * (255 - l) + (255 - h);
  }

  /** Summing host words and storing the result in host order leaves the same two bytes as the network-order
      definition, for every buffer up to 131076 bytes. */
  lemma {:induction false} ByteOrderIndependent(b: seq<byte>)
    requires |b| <= 131076
    ensures HostBytes(Answer(HostWords(b))) == NetworkBytes(0xFFFF - OnesSumNetwork(b))
  {
    AnswerIsComplement(b);
    OnesSumNetworkIsCanonical(b);
    NetworkIs256Host(b);
    SwapIsCanonical(HostWords(b), NetworkWords(b));
  }

  // ----- inserting the checksum -----

  lemma {:induction false} HostWordsConcat(a: seq<byte>, b: seq<byte>)
    requires |a| % 2 == 0
    ensures HostWords(a + b) == HostWords(a) + HostWords(b)
  {
    if a == [] {
      assert a + b == b;
    } else {
      assert (a + b)[2..] == a[2..] + b;
      HostWordsConcat(a[2..], b);
    }
  }

  /** A receiver summing a buffer that holds its own checksum at an even position gets all ones. */
  lemma {:induction false} ReceiverSeesAllOnes(a: seq<byte>, c: seq<byte>)
    requires |a| % 2 == 0 && |a| + 2 + |c| <= 131076
    ensures OnesSum(a + HostBytes(Answer(HostWords(a + [0, 0] + c))) + c) == 0xFFFF
  {
    var sum := HostWords(a + [0, 0] + c);
    SplitSum(a, [0, 0], c);
    AnswerIsComplement(a + [0, 0] + c);
    FilledIn(a, c, sum);
  }

  lemma {:induction false} FilledIn(a: seq<byte>, c: seq<byte>, sum: nat)
    requires |a| % 2 == 0 && sum == HostWords(a) + HostWords(c) && Answer(sum) == 0xFFFF - Canonical(sum)
    ensures OnesSum(a + HostBytes(Answer(sum)) + c) == 0xFFFF
  {
    Sealed(a, HostBytes(Answer(sum)), c);
  }

  lemma {:induction false} Sealed(a: seq<byte>, w: seq<byte>, c: seq<byte>)
    requires |a| % 2 == 0 && |w| == 2
    requires HostWord(w[0], w[1]) == 0xFFFF - Canonical(HostWords(a) + HostWords(c))
    ensures OnesSum(a + w + c) == 0xFFFF
  {
    SplitSum(a, w, c);
    ComplementFills(HostWords(a) + HostWords(c));
    OnesSumIsCanonical(a + w + c);
  }

  lemma {:induction false} ComplementFills(s: nat)
    ensures Canonical(s + (0xFFFF - Canonical(s))) == 0xFFFF
  {
    CanonicalUnique(s + (0xFFFF - Canonical(s)), 0xFFFF);
  }

  lemma {:induction false} SplitSum(a: seq<byte>, w: seq<byte>, c: seq<byte>)
    requires |a| % 2 == 0 && |w| == 2
    ensures HostWords(a + w + c) == HostWords(a) + HostWord(w[0], w[1]) + HostWords(c)
  {
    HostWordsConcat(a + w, c);
    HostWordsConcat(a, w);
    assert w[2..] == [];
  }
}
