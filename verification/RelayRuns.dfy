/** The relay over whole runs: connections come and go, each event serves one packet of one client. */
module RelayRuns {
  import opened Basics
  import opened ByteStreams
  import opened RelayServer

  datatype Entry = Entry(from: int, packet: Bytes)

  /** A connection: all bytes its client ever sends, how many were read, what was relayed to it, and how long the
      log of relayed packets was when it joined. */
  datatype Conn = Conn(stream: Bytes, read: nat, out: seq<Entry>, joined: nat)

  datatype State = State(clients: seq<int>, conns: map<int, Conn>, log: seq<Entry>)

  datatype Action = Accept(fd: int, stream: Bytes) | Serve(fd: int, stale: Bytes)

  function Initial(): State {
    State([], map[], [])
  }

  function Rest(c: Conn): Bytes {
    if c.read <= |c.stream| then c.stream[c.read..] else []
  }

  function Relayed(s: State, e: Entry): map<int, Conn> {
    map fd | fd in s.conns ::
      if fd in s.clients && fd != e.from then s.conns[fd].(out := s.conns[fd].out + [e]) else s.conns[fd]
  }

  /** The state after one packet of fd was relayed. */
  function Served(s: State, fd: int, packet: Bytes, n: nat): State
    requires fd in s.conns
  {
    var e := Entry(fd, packet);
    s.(conns := Relayed(s, e)[fd := s.conns[fd].(read := s.conns[fd].read + n)], log := s.log + [e])
  }

  /** A descriptor that is open, or no longer is, or a buffer of the wrong size: nothing happens. */
  function Step(s: State, a: Action): State {
    match a
    case Accept(fd, stream) =>
      if fd in s.clients || |s.clients| >= MAX_CLIENTS then s
      else s.(clients := s.clients + [fd], conns := s.conns[fd := Conn(stream, 0, [], |s.log|)])
    case Serve(fd, stale) =>
      if fd !in s.clients || fd !in s.conns || |stale| != PACKET_SIZE then s
      else
        var c := s.conns[fd];
        match Take(Rest(c), stale)
        case Gone => s.(clients := SwapRemoved(s.clients, fd))
        case Packet(packet) => Served(s, fd, packet, Least(PACKET_SIZE, |Rest(c)|))
  }

  function Run(schedule: seq<Action>): State {
    if schedule == [] then Initial() else Step(Run(schedule[..|schedule| - 1]), schedule[|schedule| - 1])
  }

  /** Serving a packet hands it to exactly the connections the broadcast loop writes it to, once each. */
  lemma {:induction false} ServedIsBroadcast(s: State, fd: int, packet: Bytes, n: nat, x: int)
    requires Unique(s.clients) && fd in s.conns && x in s.conns
    ensures Served(s, fd, packet, n).conns[x].out
         == s.conns[x].out + if Delivery(x, packet) in Copies(s.clients, fd, packet) then [Entry(fd, packet)] else []
  {
    CopiesOncePerClient(s.clients, fd, packet);
    assert s.conns[x].out + [] == s.conns[x].out;
  }

  // ----- what the log says -----

  /** The packets of one sender in a piece of the log. */
  function From(log: seq<Entry>, fd: int): (ps: seq<Bytes>) {
    if log == [] then []
    else From(log[..|log| - 1], fd) + if log[|log| - 1].from == fd then [log[|log| - 1].packet] else []
  }

  /** The entries of everyone else. */
  function Others(log: seq<Entry>, fd: int): (es: seq<Entry>) {
    if log == [] then []
    else Others(log[..|log| - 1], fd) + if log[|log| - 1].from != fd then [log[|log| - 1]] else []
  }

  lemma {:induction false} LogStep(log: seq<Entry>, e: Entry, fd: int)
    ensures From(log + [e], fd) == From(log, fd) + if e.from == fd then [e.packet] else []
    ensures Others(log + [e], fd) == Others(log, fd) + if e.from != fd then [e] else []
  {
    assert (log + [e])[..|log|] == log;
  }

  /** How far a sender's stream has been relayed: whole packets so far, or all of them and a filled-up tail. */
  ghost predicate Progress(c: Conn, ps: seq<Bytes>) {
    && c.read <= |c.stream|
    && ((c.read % PACKET_SIZE == 0 && ps == Split(c.stream[..c.read]))
        || (c.read == |c.stream| && |c.stream| % PACKET_SIZE != 0
            && |ps| == |Split(c.stream)| + 1 && ps[..|ps| - 1] == Split(c.stream) && Tail(c.stream) <= ps[|ps| - 1]))
  }

  /** Of a connection, open or over: what was relayed of its stream; of an open one also what was relayed to it, and an
      end only comes at the end of the stream. */
  ghost predicate ConnOK(s: State, fd: int)
    requires fd in s.conns
  {
    var c := s.conns[fd];
    && c.joined <= |s.log|
    && Progress(c, From(s.log[c.joined..], fd))
    && (if fd in s.clients then c.out == Others(s.log[c.joined..], fd) else Rest(c) == [])
  }

  ghost predicate Inv(s: State) {
    && Unique(s.clients)
    && (forall fd :: fd in s.clients ==> fd in s.conns)
    && (forall fd :: fd in s.conns ==> ConnOK(s, fd))
    && (forall i :: 0 <= i < |s.log| ==> |s.log[i].packet| == PACKET_SIZE)
  }

  lemma {:induction false} ProgressStep(c: Conn, ps: seq<Bytes>, stale: Bytes)
    requires Progress(c, ps) && |stale| == PACKET_SIZE && Rest(c) != []
    ensures var n := Least(PACKET_SIZE, |Rest(c)|);
            Progress(c.(read := c.read + n), ps + [Rest(c)[..n] + stale[n..]])
  {
    var r, n := Rest(c), Least(PACKET_SIZE, |Rest(c)|);
    var packet := r[..n] + stale[n..];
    assert c.stream == c.stream[..c.read] + r;
    if n == PACKET_SIZE {
      assert packet == r[..n];
      assert c.stream[..c.read + n] == c.stream[..c.read] + r[..n];
      SplitAppend(c.stream[..c.read], r[..n]);
      assert Split(r[..n]) == [r[..n]] by { assert r[..n][..PACKET_SIZE] == r[..n]; }
    } else {
      SplitAppend(c.stream[..c.read], r);
      assert (ps + [packet])[..|ps|] == ps;
      assert r <= packet;
    }
  }

  lemma {:induction false} LogGrows(log: seq<Entry>, e: Entry, j: nat)
    requires j <= |log|
    ensures (log + [e])[j..] == log[j..] + [e]
  {
  }

  /** What serving one client means for another one. */
  lemma {:induction false} ServedOther(s: State, fd: int, packet: Bytes, n: nat, x: int)
    requires fd in s.conns && x in s.conns && ConnOK(s, x) && x != fd
    ensures x in Served(s, fd, packet, n).conns && ConnOK(Served(s, fd, packet, n), x)
  {
    var e, j := Entry(fd, packet), s.conns[x].joined;
    LogGrows(s.log, e, j);
    LogStep(s.log[j..], e, x);
    assert From(s.log[j..], x) + [] == From(s.log[j..], x);
  }

  /** What serving a client means for itself. */
  lemma {:induction false} ServedSelf(s: State, fd: int, stale: Bytes)
    requires fd in s.clients && fd in s.conns && ConnOK(s, fd)
    requires |stale| == PACKET_SIZE && Rest(s.conns[fd]) != []
    ensures var n := Least(PACKET_SIZE, |Rest(s.conns[fd])|);
            var s' := Served(s, fd, Rest(s.conns[fd])[..n] + stale[n..], n);
            fd in s'.conns && ConnOK(s', fd)
  {
    var c := s.conns[fd];
    var n := Least(PACKET_SIZE, |Rest(c)|);
    var e := Entry(fd, Rest(c)[..n] + stale[n..]);
    LogGrows(s.log, e, c.joined);
    LogStep(s.log[c.joined..], e, fd);
    ProgressStep(c, From(s.log[c.joined..], fd), stale);
    assert Others(s.log[c.joined..], fd) + [] == Others(s.log[c.joined..], fd);
  }

  lemma {:induction false} ServeKeeps(s: State, fd: int, stale: Bytes)
    requires Inv(s) && fd in s.clients && |stale| == PACKET_SIZE && Rest(s.conns[fd]) != []
    ensures Inv(Step(s, Serve(fd, stale)))
  {
    var s' := Step(s, Serve(fd, stale));
    forall x | x in s'.conns ensures ConnOK(s', x) {
      assert ConnOK(s, x);
      var n := Least(PACKET_SIZE, |Rest(s.conns[fd])|);
      if x == fd { ServedSelf(s, fd, stale); } else { ServedOther(s, fd, Rest(s.conns[fd])[..n] + stale[n..], n, x); }
    }
  }

  lemma {:induction false} GoneKeeps(s: State, fd: int)
    requires Inv(s) && fd in s.clients && Rest(s.conns[fd]) == []
    ensures Inv(s.(clients := SwapRemoved(s.clients, fd)))
  {
    SwapRemovedKeeps(s.clients, fd);
    var s' := s.(clients := SwapRemoved(s.clients, fd));
    forall x | x in s'.conns ensures ConnOK(s', x) {
      assert ConnOK(s, x);
    }
  }

  lemma {:induction false} AcceptKeeps(s: State, fd: int, stream: Bytes)
    requires Inv(s)
    ensures Inv(Step(s, Accept(fd, stream)))
  {
    var s' := Step(s, Accept(fd, stream));
    if s' != s {
      forall x | x in s'.conns ensures ConnOK(s', x) {
        if x != fd {
          assert ConnOK(s, x);
        } else {
          assert s'.log[|s.log|..] == [];
          assert stream[..0] == [];
        }
      }
    }
  }

  lemma {:induction false} StepKeeps(s: State, a: Action)
    requires Inv(s)
    ensures Inv(Step(s, a))
  {
    match a {
      case Accept(fd, stream) => AcceptKeeps(s, fd, stream);
      case Serve(fd, stale) =>
        if fd in s.clients && |stale| == PACKET_SIZE {
          if Rest(s.conns[fd]) == [] { GoneKeeps(s, fd); } else { ServeKeeps(s, fd, stale); }
        }
    }
  }

  lemma {:induction false} RunInv(schedule: seq<Action>)
    ensures Inv(Run(schedule))
  {
    if schedule != [] {
      RunInv(schedule[..|schedule| - 1]);
      StepKeeps(Run(schedule[..|schedule| - 1]), schedule[|schedule| - 1]);
    }
  }

  // ----- what every run guarantees -----

  /** The packets of sender x among the entries relayed to a client. */
  lemma {:induction false} FromOthers(log: seq<Entry>, fd: int, x: int)
    ensures From(Others(log, fd), x) == if x == fd then [] else From(log, x)
  {
    if log != [] {
      var init, last := log[..|log| - 1], log[|log| - 1];
      FromOthers(init, fd, x);
      if last.from != fd {
        LogStep(Others(init, fd), last, x);
      } else {
        assert Others(log, fd) == Others(init, fd);
      }
    }
  }

  lemma {:induction false} FromSuffix(log: seq<Entry>, i: nat, x: int)
    requires i <= |log|
    ensures From(log, x) == From(log[..i], x) + From(log[i..], x)
  {
    if i == |log| {
      assert log[..i] == log && log[i..] == [];
    } else {
      var n := |log| - 1;
      FromSuffix(log[..n], i, x);
      assert log[..n][..i] == log[..i] && log[i..][..n - i] == log[..n][i..] && log[i..][n - i] == log[n];
    }
  }

  ghost predicate Known(s: State, fd: int) {
    fd in s.conns && s.conns[fd].joined <= |s.log|
  }

  ghost predicate Connected(s: State, fd: int) {
    fd in s.clients && Known(s, fd)
  }

  /** The log since a client joined. */
  function Since(s: State, fd: int): seq<Entry>
    requires fd in s.conns && s.conns[fd].joined <= |s.log|
  {
    s.log[s.conns[fd].joined..]
  }

  /** Every connected client has exactly what all others sent since it joined, in order, as whole packets and
      without its own. */
  lemma {:induction false} EveryoneElseInOrder(schedule: seq<Action>, fd: int)
    requires fd in Run(schedule).clients
    ensures var s := Run(schedule);
            && Connected(s, fd)
            && s.conns[fd].out == Others(Since(s, fd), fd)
            && From(s.conns[fd].out, fd) == []
            && (forall x :: x != fd ==> From(s.conns[fd].out, x) == From(Since(s, fd), x))
            && (forall i :: 0 <= i < |s.log| ==> |s.log[i].packet| == PACKET_SIZE)
  {
    RunInv(schedule);
    var s := Run(schedule);
    assert ConnOK(s, fd);
    FromOthers(Since(s, fd), fd, fd);
    forall x | x != fd ensures From(s.conns[fd].out, x) == From(Since(s, fd), x) {
      FromOthers(Since(s, fd), fd, x);
    }
  }

  /** Of a sender that was there before it, a client has the rest of that sender's packets from its own joining on;
      of a later one, all its packets. */
  lemma {:induction false} FromJoiningOn(s: State, fd: int, x: int)
    requires Known(s, fd) && Known(s, x)
    ensures var c, d := s.conns[fd].joined, s.conns[x].joined;
            if d <= c then From(s.log[d..c], x) + From(Since(s, fd), x) == From(Since(s, x), x)
            else From(s.log[c..d], x) + From(Since(s, x), x) == From(Since(s, fd), x)
  {
    var c, d := s.conns[fd].joined, s.conns[x].joined;
    if d <= c {
      FromSuffix(s.log[d..], c - d, x);
      SliceOfSlice(s.log, d, c);
    } else {
      FromSuffix(s.log[c..], d - c, x);
      SliceOfSlice(s.log, c, d);
    }
  }

  lemma {:induction false} SliceOfSlice(log: seq<Entry>, a: nat, b: nat)
    requires a <= b <= |log|
    ensures log[a..][..b - a] == log[a..b] && log[a..][b - a..] == log[b..]
  {
  }

  /** The packets relayed from a client, still connected or not, are the whole packets of its stream read so far. */
  lemma {:induction false} SenderInOrder(schedule: seq<Action>, x: int)
    requires x in Run(schedule).conns
    ensures var s := Run(schedule);
            && var c := s.conns[x];
            && c.joined <= |s.log| && c.read <= |c.stream|
            && (c.read % PACKET_SIZE == 0 ==> From(s.log[c.joined..], x) == Split(c.stream[..c.read]))
  {
    RunInv(schedule);
    var s := Run(schedule);
    assert ConnOK(s, x);
  }

  /** When a client's stream is read to its end, and so whenever the client has left, what was relayed from it is
      exactly the client's packets if and only if it closed at a packet boundary; otherwise one more packet went out,
      beginning with the unfinished one and filled up with old buffer contents. */
  lemma {:induction false} WholeStreamExactly(schedule: seq<Action>, x: int)
    requires var s := Run(schedule); x in s.conns && (x !in s.clients || Rest(s.conns[x]) == [])
    ensures var s := Run(schedule);
            && var c := s.conns[x];
            && c.joined <= |s.log|
            && var relayed := From(s.log[c.joined..], x);
            && (relayed == Split(c.stream) <==> |c.stream| % PACKET_SIZE == 0)
            && (|c.stream| % PACKET_SIZE != 0 ==> OneMore(relayed, c.stream))
            && c.stream <= Joined(relayed)
  {
    RunInv(schedule);
    var s := Run(schedule);
    assert ConnOK(s, x);
    var c := s.conns[x];
    assert c.stream[..|c.stream|] == c.stream;
    NoByteLost(From(s.log[c.joined..], x), c.stream);
  }

  /** The whole packets of a stream, and one more that begins with the unfinished one. */
  ghost predicate OneMore(ps: seq<Bytes>, stream: Bytes) {
    && |ps| == |Split(stream)| + 1
    && ps[..|ps| - 1] == Split(stream)
    && Tail(stream) <= ps[|ps| - 1]
  }

  /** Either way every byte of the stream goes out, in order. */
  lemma {:induction false} NoByteLost(ps: seq<Bytes>, stream: Bytes)
    requires (|stream| % PACKET_SIZE == 0 && ps == Split(stream)) || OneMore(ps, stream)
    ensures stream <= Joined(ps)
  {
    JoinedSplit(stream);
    if OneMore(ps, stream) {
      var whole, last := ps[..|ps| - 1], ps[|ps| - 1];
      assert ps == whole + [last];
      JoinedAppend(whole, last);
      assert last == Tail(stream) + last[|Tail(stream)|..];
      assert Joined(whole) + last == Joined(whole) + Tail(stream) + last[|Tail(stream)|..];
    } else {
      assert Joined(ps) + [] == Joined(ps);
    }
  }

  lemma {:induction false} LeftStep(s: State, a: Action, fd: int)
    requires Inv(s) && fd in s.conns && fd !in s.clients && !(a.Accept? && a.fd == fd)
    ensures fd in Step(s, a).conns && Step(s, a).conns[fd] == s.conns[fd] && fd !in Step(s, a).clients
  {
    if a.Serve? { SwapRemovedKeeps(s.clients, a.fd); }
  }

  /** A client that has left after n steps of a run receives nothing more in the rest of it, until its descriptor is
      given to a new connection. */
  lemma {:induction false} NothingAfterLeaving(schedule: seq<Action>, n: nat, fd: int)
    requires n <= |schedule| && fd in Run(schedule[..n]).conns && fd !in Run(schedule[..n]).clients
    requires forall i :: n <= i < |schedule| ==> !(schedule[i].Accept? && schedule[i].fd == fd)
    ensures fd in Run(schedule).conns && Run(schedule).conns[fd] == Run(schedule[..n]).conns[fd]
    ensures fd !in Run(schedule).clients
  {
    if n == |schedule| {
      assert schedule[..n] == schedule;
    } else {
      var init, last := schedule[..|schedule| - 1], schedule[|schedule| - 1];
      assert init[..n] == schedule[..n];
      NothingAfterLeaving(init, n, fd);
      RunInv(init);
      LeftStep(Run(init), last, fd);
    }
  }

  // ----- what one client has of one sender -----

  lemma {:induction false} SplitLength(b: Bytes)
    ensures |Split(b)| == |b| / PACKET_SIZE
  {
    if |b| >= PACKET_SIZE { SplitLength(b[PACKET_SIZE..]); }
  }

  /** The whole packets of a stream read up to a packet boundary are the first whole packets of all of it. */
  lemma {:induction false} SplitPrefix(b: Bytes, n: nat)
    requires n <= |b| && n % PACKET_SIZE == 0
    ensures n / PACKET_SIZE <= |Split(b)| && Split(b)[..n / PACKET_SIZE] == Split(b[..n])
  {
    SplitAppend(b[..n], b[n..]);
    assert b == b[..n] + b[n..];
    SplitLength(b[..n]);
  }

  lemma {:induction false} OthersSplit(log: seq<Entry>, i: nat, fd: int)
    requires i <= |log|
    ensures Others(log, fd) == Others(log[..i], fd) + Others(log[i..], fd)
  {
    if i == |log| {
      assert log[..i] == log && log[i..] == [];
    } else {
      var n := |log| - 1;
      OthersSplit(log[..n], i, fd);
      assert log[..n][..i] == log[..i] && log[i..][..n - i] == log[..n][i..] && log[i..][n - i] == log[n];
    }
  }

  /** From when on both are connected: the later of the two joinings, as a position in the log. */
  function Together(s: State, fd: int, x: int): nat
    requires fd in s.conns && x in s.conns
  {
    if s.conns[fd].joined < s.conns[x].joined then s.conns[x].joined else s.conns[fd].joined
  }

  lemma {:induction false} SinceTogether(s: State, fd: int, x: int)
    requires Known(s, fd) && Known(s, x) && x != fd
    ensures var j := Together(s, fd, x);
            var d := s.conns[x].joined;
            && d <= j <= |s.log|
            && From(s.log[d..], x) == From(s.log[d..j], x) + From(Others(s.log[j..], fd), x)
  {
    var j, d := Together(s, fd, x), s.conns[x].joined;
    FromSuffix(s.log[d..], j - d, x);
    SliceOfSlice(s.log, d, j);
    FromOthers(s.log[j..], fd, x);
  }

  /** What a client has of one sender, which may have left again, since both were connected is a contiguous piece of the
      whole packets of the sender's stream: it starts behind the k packets the sender had relayed before the client
      joined (none if the sender joined later) and goes as far as the stream was read, a filled-up last packet after an
      end of file in the middle of one included. */
  lemma {:induction false} PieceOfStream(schedule: seq<Action>, fd: int, x: int)
    requires fd in Run(schedule).clients && x in Run(schedule).conns && x != fd
    ensures var s := Run(schedule);
            && Connected(s, fd) && Known(s, x)
            && var j := Together(s, fd, x);
            && j <= |s.log|
            && var c, d := s.conns[fd], s.conns[x];
            && c.out == Others(s.log[c.joined..j], fd) + Others(s.log[j..], fd)
            && var k := |From(s.log[d.joined..j], x)|;
            && var got := From(Others(s.log[j..], fd), x);
            && (d.read % PACKET_SIZE == 0 ==>
                  k <= d.read / PACKET_SIZE <= |Split(d.stream)| && got == Split(d.stream)[k..d.read / PACKET_SIZE])
            && (d.read % PACKET_SIZE != 0 ==>
                  d.read == |d.stream| && OneMore(From(s.log[d.joined..j], x) + got, d.stream))
  {
    RunInv(schedule);
    var s := Run(schedule);
    assert ConnOK(s, fd) && ConnOK(s, x);
    var j, c, d := Together(s, fd, x), s.conns[fd], s.conns[x];
    OthersSplit(s.log[c.joined..], j - c.joined, fd);
    SliceOfSlice(s.log, c.joined, j);
    SinceTogether(s, fd, x);
    var before, got := From(s.log[d.joined..j], x), From(Others(s.log[j..], fd), x);
    assert Progress(d, before + got);
    if d.read % PACKET_SIZE == 0 { BehindFirst(before, got, d.stream, d.read); }
  }

  lemma {:induction false} BehindFirst(before: seq<Bytes>, got: seq<Bytes>, stream: Bytes, read: nat)
    requires read <= |stream| && read % PACKET_SIZE == 0 && before + got == Split(stream[..read])
    ensures |before| <= read / PACKET_SIZE <= |Split(stream)|
    ensures got == Split(stream)[|before|..read / PACKET_SIZE]
  {
    SplitPrefix(stream, read);
    var first := Split(stream)[..read / PACKET_SIZE];
    assert first == before + got;
    assert first[|before|..] == got;
  }

  // ----- joining, and reading to the end -----

  /** A new connection joins last, with nothing read and nothing relayed to it, unless 128 are open. */
  lemma {:induction false} AcceptJoins(s: State, fd: int, stream: Bytes)
    requires fd !in s.clients
    ensures Step(s, Accept(fd, stream))
         == if |s.clients| < 128
            then s.(clients := s.clients + [fd], conns := s.conns[fd := Conn(stream, 0, [], |s.log|)]) else s
  {
  }

  lemma {:induction false} ServeReads(s: State, x: int, stale: Bytes)
    requires Inv(s) && x in s.clients && |stale| == PACKET_SIZE
    ensures var t := Step(s, Serve(x, stale));
            && x in t.conns && t.conns[x].stream == s.conns[x].stream
            && (if Rest(s.conns[x]) == [] then x !in t.clients && t.conns == s.conns
                else x in t.clients && |Rest(t.conns[x])| < |Rest(s.conns[x])|)
  {
    assert ConnOK(s, x);
    if Rest(s.conns[x]) == [] { SwapRemovedKeeps(s.clients, x); }
  }

  lemma {:induction false} Longer(schedule: seq<Action>, a: Action, rest: seq<Action>)
    ensures schedule + [a] + rest == schedule + ([a] + rest)
  {
  }

  /** From every state of every run, serving a client alone brings it to its end: it has left, and its whole stream was
      relayed. */
  lemma {:induction false} CanAlwaysReadToEnd(schedule: seq<Action>, x: int, stale: Bytes) returns (more: seq<Action>)
    requires x in Run(schedule).clients && |stale| == PACKET_SIZE
    ensures forall i :: 0 <= i < |more| ==> more[i] == Serve(x, stale)
    ensures x !in Run(schedule + more).clients && x in Run(schedule + more).conns && x in Run(schedule).conns
    ensures Run(schedule + more).conns[x].stream == Run(schedule).conns[x].stream
    ensures Run(schedule + more).conns[x].joined <= |Run(schedule + more).log|
    ensures var t := Run(schedule + more); t.conns[x].stream <= Joined(From(t.log[t.conns[x].joined..], x))
    decreases if x in Run(schedule).conns then |Rest(Run(schedule).conns[x])| else 0
  {
    var a := Serve(x, stale);
    RunInv(schedule);
    ServeReads(Run(schedule), x, stale);
    assert (schedule + [a])[..|schedule|] == schedule;
    if Rest(Run(schedule).conns[x]) == [] {
      more := [a];
      WholeStreamExactly(schedule + more, x);
    } else {
      var rest := CanAlwaysReadToEnd(schedule + [a], x, stale);
      more := [a] + rest;
      Longer(schedule, a, rest);
    }
  }
}
